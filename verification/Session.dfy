/**
 The session state machine (src/state.c, src/key.c, the stores of src/main.c): every step taken under
 kb_lock, plus the clock moving on, a crash with the reboot after it, and unloading and loading again.
 */
module Session {
  import opened Wrappers
  import opened Strings
  import opened Keys
  import opened Platform
  import opened Allowlist
  import opened StateFile
  import StateWriter
  import HostsFile
  import Remaining

  const STATE_SAVE_INTERVAL_S: nat := 60

  /** Memory, the boot-time clock, and the two files that survive a crash. */
  datatype State = State(
    enabled: bool,
    expiry: nat,
    saveTicks: nat,
    fileOpen: bool,
    unloadKey: Key,
    keyHash: Hash,
    pgpKey: Key,
    pgpKeyConsumed: bool,
    restored: bool,
    pgpActive: bool,
    allowUnload: bool,
    refTaken: bool,
    protecting: bool,
    lists: Lists,
    clock: nat,
    file: string,
    hosts: string)

  datatype Errno = EINVAL | EPERM | ERANGE
  datatype Reply = Done | Refused(errno: Errno) | Shown(text: string)
  datatype Outcome = Outcome(state: State, reply: Reply)

  function RemainingSeconds(s: State): nat {
    if !s.enabled then 0 else if s.expiry > s.clock then s.expiry - s.clock else 0
  }

  // ---- The building blocks ----

  function GenerateKey(p: Platform, s: State, key: Key): State {
    s.(unloadKey := key, keyHash := p.sha256(key))
  }

  function StopSession(s: State): State {
    s.(enabled := false, expiry := 0, restored := false, pgpActive := false,
       pgpKey := ZERO_KEY, pgpKeyConsumed := true, refTaken := false)
  }

  function DisableBlocking(s: State): State {
    StopSession(s).(protecting := false, hosts := HostsFile.Clear(s.hosts), fileOpen := false, file := "")
  }

  function StartSession(p: Platform, s: State, seconds: nat): State {
    s.(expiry := s.clock + seconds, allowUnload := false, enabled := true, refTaken := true,
       hosts := HostsFile.Update(s.hosts, s.lists.domains),
       file := if s.pgpActive then Written(p, seconds, s.keyHash, s.pgpActive, s.lists) else "",
       fileOpen := s.pgpActive, protecting := true, saveTicks := 0)
  }

  /** The key goes to the one-shot buffer of a pre-armed session, and stays readable otherwise. */
  function ArmKey(s: State): State {
    if s.pgpActive
    then s.(pgpKey := s.unloadKey, pgpKeyConsumed := false, unloadKey := ZERO_KEY, restored := false)
    else s.(pgpKey := ZERO_KEY, pgpKeyConsumed := true, restored := false)
  }

  function EnableBlocking(p: Platform, s: State, seconds: nat, key: Key): Outcome {
    if s.enabled then Outcome(s, Refused(EPERM))
    else if seconds == 0 || seconds > MAX_SESSION_SECONDS then Outcome(s, Refused(EINVAL))
    else Outcome(StartSession(p, ArmKey(GenerateKey(p, s, key)), seconds), Done)
  }

  // ---- The sysfs files ----

  /** enabled_store, on what kstrtou64 made of the text. */
  function WriteEnabled(p: Platform, s: State, value: Option<nat>, key: Key): Outcome {
    if value.None? then Outcome(s, Refused(EINVAL))
    else if value.value > MAX_SESSION_SECONDS then Outcome(s, Refused(ERANGE))
    else if value.value == 0 then
      if !s.pgpActive then Outcome(DisableBlocking(s), Done)
      else if s.enabled then Outcome(s, Refused(EPERM))
      else Outcome(s.(hosts := HostsFile.Clear(s.hosts)), Done)
    else EnableBlocking(p, s, value.value, key)
  }

  function CheckKeySpec(p: Platform, s: State, buf: string): KeyCheck {
    match KeyOfText(buf)
    case None => Malformed
    case Some(k) => if p.sha256(k) == s.keyHash then Match else Mismatch
  }

  /** unblock_store */
  function WriteUnblock(p: Platform, s: State, buf: string): Outcome {
    match CheckKeySpec(p, s, buf)
    case Malformed => Outcome(s, Refused(EINVAL))
    case Mismatch => Outcome(s, Refused(EPERM))
    case Match =>
      Outcome(DisableBlocking(s).(allowUnload := true, unloadKey := ZERO_KEY, keyHash := ZERO_HASH), Done)
  }

  /** disable_store */
  function WriteDisable(p: Platform, s: State, buf: string, key: Key): Outcome {
    if !s.pgpActive then Outcome(DisableBlocking(s), Done)
    else match CheckKeySpec(p, s, buf)
      case Malformed => Outcome(s, Refused(EINVAL))
      case Mismatch => Outcome(s, Refused(EPERM))
      case Match => Outcome(GenerateKey(p, DisableBlocking(s), key), Done)
  }

  /** unload_key_show */
  function ReadKey(s: State): Outcome {
    if s.restored then Outcome(s, Shown("restored\n"))
    else if s.pgpActive then
      if !s.pgpKeyConsumed then Outcome(s.(pgpKey := ZERO_KEY, pgpKeyConsumed := true), Shown(KeyText(s.pgpKey)))
      else Outcome(s, Shown("encrypted\n"))
    else Outcome(s, Shown(KeyText(s.unloadKey)))
  }

  /** pgp_active_store, on what kstrtobool made of the text. */
  function WritePgp(s: State, value: Option<bool>): Outcome {
    if value.None? then Outcome(s, Refused(EINVAL))
    else if s.enabled then Outcome(s, Refused(EPERM))
    else if value.value && !s.pgpActive then
      Outcome(s.(pgpActive := true, unloadKey := ZERO_KEY, pgpKey := ZERO_KEY, pgpKeyConsumed := true,
                 restored := false), Done)
    else if !value.value && s.pgpActive then
      Outcome(s.(pgpActive := false, pgpKey := ZERO_KEY, pgpKeyConsumed := true), Done)
    else Outcome(s, Done)
  }

  function WriteDomains(s: State, text: string): Outcome {
    match StateWriter.ParseDomains(text)
    case None => Outcome(s, Refused(EINVAL))
    case Some(domains) =>
      if s.enabled then Outcome(s, Refused(EPERM)) else Outcome(s.(lists := s.lists.(domains := domains)), Done)
  }

  function WriteIps(p: Platform, s: State, text: string): Outcome {
    var addrs := StateWriter.ParseIps(p, text);
    if s.enabled then Outcome(s, Refused(EPERM))
    else Outcome(s.(lists := s.lists.(v4 := addrs.v4, v6 := addrs.v6)), Done)
  }

  function WriteAllowed(p: Platform, s: State, text: string): Outcome {
    match ParseAllowed(p, CStr(text), NL)
    case None => Outcome(s, Refused(EINVAL))
    case Some(nets) =>
      if s.enabled then Outcome(s, Refused(EPERM)) else Outcome(s.(lists := s.lists.(allowed := nets)), Done)
  }

  // ---- The timer ----

  /** kb_expire_work_fn */
  function ExpireWork(s: State): State {
    if !s.enabled then s
    else if RemainingSeconds(s) == 0 then DisableBlocking(s)
    else if s.saveTicks + 1 >= STATE_SAVE_INTERVAL_S then
      s.(saveTicks := 0, file := if s.fileOpen then s.file + Remaining.Line(RemainingSeconds(s)) else s.file)
    else s.(saveTicks := s.saveTicks + 1)
  }

  // ---- Crash, boot, unload ----

  /** Memory as the module finds it when it is loaded. */
  function FreshMemory(file: string, hosts: string, clock: nat): State {
    State(false, 0, 0, false, ZERO_KEY, ZERO_HASH, ZERO_KEY, true, false, false, false, false, false,
          NO_LISTS, clock, file, hosts)
  }

  /** try_restore_state_from_disk */
  function Recovered(p: Platform, s: State): State {
    var found := Restore(p, s.file, s.lists);
    match found.session
    case None => s.(lists := found.lists)
    case Some((hash, seconds)) =>
      StartSession(p, s.(lists := found.lists, keyHash := hash, unloadKey := ZERO_KEY, pgpKey := ZERO_KEY,
                         pgpKeyConsumed := true, pgpActive := true, restored := true), seconds)
  }

  /** kblocker_init: a new key unless a session came back. */
  function Boot(p: Platform, file: string, hosts: string, clock: nat, key: Key): State {
    var s := Recovered(p, FreshMemory(file, hosts, clock));
    if s.restored then s else GenerateKey(p, s, key)
  }

  /** Power loss or panic, then the next boot: memory is gone, a record being appended may be cut off. */
  function Crash(p: Platform, s: State, torn: string, clock: nat, key: Key): State {
    Boot(p, s.file + torn, s.hosts, clock, key)
  }

  /** Unloading while enabled panics; otherwise the state file is cleared before the module goes. */
  function Reload(p: Platform, s: State, key: Key): State {
    if s.enabled && !s.allowUnload then Boot(p, s.file, s.hosts, s.clock, key)
    else Boot(p, "", s.hosts, s.clock, key)
  }

  // ---- Steps and runs ----

  datatype Event =
    | EnabledStore(value: Option<nat>, freshKey: Key)
    | DisableStore(buf: string, freshKey: Key)
    | UnblockStore(buf: string)
    | KeyShow
    | PgpStore(pgp: Option<bool>)
    | DomainsStore(text: string)
    | IpsStore(text: string)
    | AllowedStore(text: string)
    | Work
    | Advance(seconds: nat)
    | Crashes(torn: string, newClock: nat, freshKey: Key)
    | Reloads(freshKey: Key)

  /** Only a record being appended can be cut off, and it is appended only to an open file. */
  ghost predicate EventValid(s: State, e: Event) {
    e.Crashes? ==> e.torn == "" || (s.fileOpen && Remaining.Torn(e.torn))
  }

  function Step(p: Platform, s: State, e: Event): Outcome {
    match e
    case EnabledStore(value, key) => WriteEnabled(p, s, value, key)
    case DisableStore(buf, key) => WriteDisable(p, s, buf, key)
    case UnblockStore(buf) => WriteUnblock(p, s, buf)
    case KeyShow => ReadKey(s)
    case PgpStore(value) => WritePgp(s, value)
    case DomainsStore(text) => WriteDomains(s, text)
    case IpsStore(text) => WriteIps(p, s, text)
    case AllowedStore(text) => WriteAllowed(p, s, text)
    case Work => Outcome(ExpireWork(s), Done)
    case Advance(seconds) => Outcome(s.(clock := s.clock + seconds), Done)
    case Crashes(torn, newClock, key) => Outcome(Crash(p, s, torn, newClock, key), Done)
    case Reloads(key) => Outcome(Reload(p, s, key), Done)
  }

  /** The state after a sequence of events. */
  function Exec(p: Platform, s: State, es: seq<Event>): State {
    if es == [] then s else Step(p, Exec(p, s, es[..|es| - 1]), es[|es| - 1]).state
  }

  ghost predicate RunValid(p: Platform, s: State, es: seq<Event>) {
    forall n | 0 <= n < |es| :: EventValid(Exec(p, s, es[..n]), es[n])
  }

  /** The first boot: nothing on disk. */
  function Initial(p: Platform, hosts: string, clock: nat, key: Key): State { Boot(p, "", hosts, clock, key) }
}
