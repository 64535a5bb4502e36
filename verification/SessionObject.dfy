/**
 The module's global session state as an object (src/state.c, src/key.c, src/main.c): fields updated
 step by step under kb_lock, each handler proved against the step of the session machine it performs.
 */
module SessionObject {
  import opened Wrappers
  import opened Strings
  import opened Keys
  import opened Platform
  import opened Allowlist
  import opened StateFile
  import opened Session
  import opened SessionInvariant
  import opened SessionEnds
  import StateWriter
  import HostsFile
  import Remaining

  /** The printing loop of unload_key_show. */
  method PrintKey(k: Key) returns (text: string)
    ensures text == KeyText(k)
  {
    text := "";
    var i := 0;
    while i < 16
      invariant 0 <= i <= 16 && text == Hex(k[..i])
    {
      assert k[..i + 1][..i] == k[..i];
      text := text + [HexDigit(k[i] / 16), HexDigit(k[i] % 16)];
      i := i + 1;
    }
    assert k[..16] == k;
    text := text + [NL];
  }

  class Blocker {
    const p: Platform

    var enabled: bool
    var expiry: nat
    var saveTicks: nat
    var fileOpen: bool
    var unloadKey: Key
    var keyHash: Hash
    var pgpKey: Key
    var pgpKeyConsumed: bool
    var restored: bool
    var pgpActive: bool
    var allowUnload: bool
    var refTaken: bool
    var protecting: bool
    var lists: Lists

    // The world outside: the boot-time clock and the two files.
    var clock: nat
    var file: string
    var hosts: string

    ghost function Now(): State
      reads this
    {
      State(enabled, expiry, saveTicks, fileOpen, unloadKey, keyHash, pgpKey, pgpKeyConsumed, restored,
            pgpActive, allowUnload, refTaken, protecting, lists, clock, file, hosts)
    }

    ghost predicate Valid()
      reads this
    {
      p.Valid() && Inv(p, Now())
    }

    /** kblocker_init on a machine where nothing has run before. */
    constructor (p: Platform, hosts: string, clock: nat, freshKey: Key)
      requires p.Valid()
      ensures Valid() && this.p == p && Now() == Initial(p, hosts, clock, freshKey)
    {
      this.p := p;
      this.file, this.hosts, this.clock := "", hosts, clock;
      new;
      hide Inv;
      hide Boot;
      InitialInv(p, hosts, clock, freshKey);
      Init(freshKey);
    }

    // ---- Building blocks ----

    /** generate_unload_key */
    method GenerateUnloadKey(freshKey: Key)
      modifies this`unloadKey, this`keyHash
      ensures unloadKey == freshKey && keyHash == p.sha256(freshKey)
    {
      unloadKey := freshKey;
      keyHash := p.sha256(unloadKey);
    }

    /** Zeroing the one-shot buffer. */
    method ForgetPgpKey()
      modifies this`pgpKey, this`pgpKeyConsumed
      ensures pgpKey == ZERO_KEY && pgpKeyConsumed
    {
      pgpKey := ZERO_KEY;
      pgpKeyConsumed := true;
    }

    /** stop_session */
    method Stop()
      modifies this`enabled, this`expiry, this`restored, this`pgpActive, this`pgpKey, this`pgpKeyConsumed, this`refTaken
      ensures !enabled && expiry == 0 && !restored && !pgpActive && !refTaken
      ensures pgpKey == ZERO_KEY && pgpKeyConsumed
    {
      hide ZERO_KEY;
      enabled := false;
      expiry := 0;
      restored := false;
      pgpActive := false;
      ForgetPgpKey();
      if refTaken {
        refTaken := false;
      }
    }

    /** disable_blocking */
    method Disable()
      modifies this
      ensures Now() == DisableBlocking(old(Now()))
    {
      hide ZERO_KEY;
      hide HostsFile.Clear;
      hide Now;
      hide DisableBlocking;
      Stop();
      protecting := false;
      hosts := HostsFile.ClearHosts(hosts);
      ClearStateFile();
      Disabled();
    }

    /** The fields a disable leaves behind, as one state. */
    twostate lemma Disabled()
      requires !enabled && expiry == 0 && !restored && !pgpActive && !refTaken
      requires pgpKey == ZERO_KEY && pgpKeyConsumed
      requires !protecting && hosts == HostsFile.Clear(old(hosts)) && !fileOpen && file == ""
      requires unchanged(this`saveTicks, this`unloadKey, this`keyHash, this`allowUnload, this`lists, this`clock)
      ensures Now() == DisableBlocking(old(Now()))
    {
      hide ZERO_KEY;
      hide HostsFile.Clear;
    }

    /** state_file_clear */
    method ClearStateFile()
      modifies this`fileOpen, this`file
      ensures !fileOpen && file == ""
    {
      hide ZERO_KEY;
      hide ZERO_HASH;
      if fileOpen {
        fileOpen := false;
      }
      file := "";
    }

    /** The in-memory half of start_session. */
    method Activate(seconds: nat)
      modifies this`expiry, this`allowUnload, this`enabled, this`refTaken
      ensures expiry == clock + seconds && !allowUnload && enabled && refTaken
    {
      expiry := clock + seconds;
      allowUnload := false;
      enabled := true;
      if !refTaken {
        refTaken := true;
      }
    }

    /** state_file_write_session, leaving the file open for appending. */
    method WriteStateFile(seconds: nat)
      modifies this`fileOpen, this`file
      ensures fileOpen && file == Written(p, seconds, keyHash, pgpActive, lists)
    {
      hide Written;
      fileOpen := false;
      file := StateWriter.WriteSession(p, seconds, keyHash, pgpActive, lists);
      fileOpen := true;
    }

    /** start_session */
    method Start(seconds: nat)
      modifies this
      ensures Now() == StartSession(p, old(Now()), seconds)
    {
      hide Written;
      hide HostsFile.Update;
      hide Now;
      hide StartSession;
      Activate(seconds);
      hosts := HostsFile.UpdateHosts(hosts, lists.domains);
      if pgpActive {
        WriteStateFile(seconds);
      } else {
        ClearStateFile();
      }
      protecting := true;
      saveTicks := 0;
      Started(seconds);
    }

    /** The fields a start leaves behind, as one state. */
    twostate lemma Started(seconds: nat)
      requires expiry == clock + seconds && !allowUnload && enabled && refTaken
      requires hosts == HostsFile.Update(old(hosts), lists.domains)
      requires fileOpen == pgpActive
      requires file == if pgpActive then Written(p, seconds, keyHash, pgpActive, lists) else ""
      requires protecting && saveTicks == 0
      requires unchanged(this`unloadKey, this`keyHash, this`pgpKey, this`pgpKeyConsumed, this`restored)
      requires unchanged(this`pgpActive, this`lists, this`clock)
      ensures Now() == StartSession(p, old(Now()), seconds)
    {
      hide HostsFile.Update;
      hide Written;
    }

    /** The key goes to the one-shot buffer of a pre-armed session. */
    method Arm()
      modifies this`pgpKey, this`pgpKeyConsumed, this`unloadKey, this`restored
      ensures !restored && pgpKeyConsumed == !pgpActive
      ensures pgpKey == if pgpActive then old(unloadKey) else ZERO_KEY
      ensures unloadKey == if pgpActive then ZERO_KEY else old(unloadKey)
    {
      hide ZERO_KEY;
      hide ZERO_HASH;
      if pgpActive {
        pgpKey := unloadKey;
        pgpKeyConsumed := false;
        unloadKey := ZERO_KEY;
      } else {
        ForgetPgpKey();
      }
      restored := false;
    }

    /** enable_blocking */
    method Enable(seconds: nat, freshKey: Key) returns (reply: Reply)
      modifies this
      ensures Outcome(Now(), reply) == EnableBlocking(p, old(Now()), seconds, freshKey)
    {
      hide ZERO_KEY;
      hide ZERO_HASH;
      hide ListsValid;
      hide StartSession;
      if enabled {
        return Refused(EPERM);
      }
      if seconds == 0 || seconds > MAX_SESSION_SECONDS {
        return Refused(EINVAL);
      }
      GenerateUnloadKey(freshKey);
      Arm();
      Start(seconds);
      return Done;
    }

    // ---- The sysfs files ----

    /** enabled_store */
    method EnabledStore(value: Option<nat>, freshKey: Key) returns (reply: Reply)
      requires Valid()
      modifies this
      ensures Valid() && Outcome(Now(), reply) == WriteEnabled(p, old(Now()), value, freshKey)
    {
      hide ZERO_KEY;
      hide ZERO_HASH;
      hide EnableBlocking;
      hide DisableBlocking;
      hide Inv;
      EnabledStoreKeeps(p, Now(), value, freshKey);
      if value.None? {
        return Refused(EINVAL);
      }
      if value.value > MAX_SESSION_SECONDS {
        return Refused(ERANGE);
      }
      reply := Done;
      if value.value == 0 {
        if pgpActive {
          if enabled {
            reply := Refused(EPERM);
          } else {
            hosts := HostsFile.ClearHosts(hosts);
          }
        } else {
          Disable();
        }
      } else {
        reply := Enable(value.value, freshKey);
      }
    }

    /** unblock_store */
    method UnblockStore(buf: string) returns (reply: Reply)
      requires Valid()
      modifies this
      ensures Valid() && Outcome(Now(), reply) == WriteUnblock(p, old(Now()), buf)
    {
      hide Inv;
      hide ZERO_KEY;
      hide ZERO_HASH;
      hide KeyOfText;
      hide DisableBlocking;
      UnblockKeeps(p, Now(), buf);
      var check := CheckKey(buf, p.sha256, keyHash);
      if check != Match {
        return Refused(if check == Malformed then EINVAL else EPERM);
      }
      Disable();
      allowUnload := true;
      unloadKey := ZERO_KEY;
      keyHash := ZERO_HASH;
      return Done;
    }

    /** disable_store */
    method DisableStore(buf: string, freshKey: Key) returns (reply: Reply)
      requires Valid()
      modifies this
      ensures Valid() && Outcome(Now(), reply) == WriteDisable(p, old(Now()), buf, freshKey)
    {
      hide Inv;
      hide ZERO_KEY;
      hide ZERO_HASH;
      hide KeyOfText;
      hide DisableBlocking;
      DisableStoreKeeps(p, Now(), buf, freshKey);
      if !pgpActive {
        Disable();
        return Done;
      }
      var check := CheckKey(buf, p.sha256, keyHash);
      if check != Match {
        return Refused(if check == Malformed then EINVAL else EPERM);
      }
      Disable();
      GenerateUnloadKey(freshKey);
      return Done;
    }

    /** unload_key_show */
    method UnloadKeyShow() returns (reply: Reply)
      requires Valid()
      modifies this
      ensures Valid() && Outcome(Now(), reply) == ReadKey(old(Now()))
    {
      hide Inv;
      hide ZERO_KEY;
      hide ZERO_HASH;
      hide KeyText;
      KeyShowKeeps(p, Now());
      if restored {
        return Shown("restored\n");
      }
      if pgpActive {
        if pgpKeyConsumed {
          return Shown("encrypted\n");
        }
        var text := PrintKey(pgpKey);
        ForgetPgpKey();
        return Shown(text);
      }
      var text := PrintKey(unloadKey);
      return Shown(text);
    }

    /** pgp_active_store */
    method PgpActiveStore(value: Option<bool>) returns (reply: Reply)
      requires Valid()
      modifies this
      ensures Valid() && Outcome(Now(), reply) == WritePgp(old(Now()), value)
    {
      hide Inv;
      hide ZERO_KEY;
      hide ZERO_HASH;
      PgpStoreKeeps(p, Now(), value);
      if value.None? {
        return Refused(EINVAL);
      }
      if enabled {
        return Refused(EPERM);
      }
      if value.value && !pgpActive {
        PreArm();
      } else if !value.value && pgpActive {
        CancelPreArm();
      }
      return Done;
    }

    method PreArm()
      modifies this`pgpActive, this`unloadKey, this`pgpKey, this`pgpKeyConsumed, this`restored
      ensures pgpActive && !restored && unloadKey == ZERO_KEY && pgpKey == ZERO_KEY && pgpKeyConsumed
    {
      hide ZERO_KEY;
      pgpActive := true;
      unloadKey := ZERO_KEY;
      ForgetPgpKey();
      restored := false;
    }

    method CancelPreArm()
      modifies this`pgpActive, this`pgpKey, this`pgpKeyConsumed
      ensures !pgpActive && pgpKey == ZERO_KEY && pgpKeyConsumed
    {
      hide ZERO_KEY;
      pgpActive := false;
      ForgetPgpKey();
    }

    /** blocked_domains_store: everything is validated before the live list is touched. */
    method BlockedDomainsStore(text: string) returns (reply: Reply)
      requires Valid()
      modifies this
      ensures Valid() && Outcome(Now(), reply) == WriteDomains(old(Now()), text)
    {
      hide Inv;
      hide ZERO_KEY;
      hide ZERO_HASH;
      hide StateWriter.ParseDomains;
      DomainsStoreKeeps(p, Now(), text);
      var domains := StateWriter.ParseDomainsLoop(text);
      if domains.None? {
        return Refused(EINVAL);
      }
      if enabled {
        return Refused(EPERM);
      }
      lists := lists.(domains := domains.value);
      return Done;
    }

    /** blocked_ips_store */
    method BlockedIpsStore(text: string) returns (reply: Reply)
      requires Valid()
      modifies this
      ensures Valid() && Outcome(Now(), reply) == WriteIps(p, old(Now()), text)
    {
      hide Inv;
      hide ZERO_KEY;
      hide ZERO_HASH;
      hide StateWriter.ParseIps;
      IpsStoreKeeps(p, Now(), text);
      var addrs := StateWriter.ParseIpsLoop(p, text);
      if enabled {
        return Refused(EPERM);
      }
      lists := lists.(v4 := addrs.v4, v6 := addrs.v6);
      return Done;
    }

    /** allowed_ips_store */
    method AllowedIpsStore(text: string) returns (reply: Reply)
      requires Valid()
      modifies this
      ensures Valid() && Outcome(Now(), reply) == WriteAllowed(p, old(Now()), text)
    {
      hide Inv;
      hide ZERO_KEY;
      hide ZERO_HASH;
      hide ParseAllowed;
      AllowedStoreKeeps(p, Now(), text);
      var nets := ParseAllowedLoop(p, CStr(text), NL);
      if nets.None? {
        return Refused(EINVAL);
      }
      if enabled {
        return Refused(EPERM);
      }
      lists := lists.(allowed := nets.value);
      return Done;
    }

    // ---- The timer ----

    /** remaining_seconds */
    method Left() returns (rem: nat)
      ensures rem == RemainingSeconds(Now())
    {
      if !enabled {
        return 0;
      }
      return if expiry > clock then expiry - clock else 0;
    }

    /** state_file_append_remaining */
    method AppendRemaining(rem: nat)
      modifies this`file
      ensures file == if fileOpen then old(file) + Remaining.Line(rem) else old(file)
    {
      hide Remaining.Line;
      if !fileOpen {
        return;
      }
      file := file + Remaining.Line(rem);
    }

    /** kb_expire_work_fn */
    method Expire()
      requires Valid()
      modifies this
      ensures Valid() && Now() == ExpireWork(old(Now()))
      ensures old(enabled) ==> (enabled <==> old(clock) < old(expiry))
    {
      hide Inv;
      hide ExpireWork;
      hide DisableBlocking;
      hide RemainingSeconds;
      WorkKeeps(p, Now());
      TimerDecides(Now());
      WorkIs(Now());
      if !enabled {
        return;
      }
      var rem := Left();
      if rem == 0 {
        Disable();
        return;
      }
      CountTick(rem);
      Counted(rem);
    }

    /** The fields a timer run that saves or counts leaves behind, as one state. */
    twostate lemma Counted(rem: nat)
      requires old(enabled) && rem == RemainingSeconds(old(Now())) > 0
      requires saveTicks == if old(saveTicks) + 1 >= STATE_SAVE_INTERVAL_S then 0 else old(saveTicks) + 1
      requires file == if old(saveTicks) + 1 >= STATE_SAVE_INTERVAL_S && fileOpen
                       then old(file) + Remaining.Line(rem) else old(file)
      requires unchanged(this`enabled, this`expiry, this`fileOpen, this`unloadKey, this`keyHash, this`pgpKey)
      requires unchanged(this`pgpKeyConsumed, this`restored, this`pgpActive, this`allowUnload, this`refTaken)
      requires unchanged(this`protecting, this`lists, this`clock, this`hosts)
      ensures Now() == ExpireWork(old(Now()))
    {
      WorkCounts(old(Now()));
      hide ExpireWork;
      hide RemainingSeconds;
      hide Remaining.Line;
    }

    /** Every STATE_SAVE_INTERVAL_S runs the remaining time is saved. */
    method CountTick(rem: nat)
      modifies this`saveTicks, this`file
      ensures saveTicks == if old(saveTicks) + 1 >= STATE_SAVE_INTERVAL_S then 0 else old(saveTicks) + 1
      ensures file == if old(saveTicks) + 1 >= STATE_SAVE_INTERVAL_S && fileOpen
                      then old(file) + Remaining.Line(rem) else old(file)
    {
      hide Remaining.Line;
      saveTicks := saveTicks + 1;
      if saveTicks >= STATE_SAVE_INTERVAL_S {
        saveTicks := 0;
        AppendRemaining(rem);
      }
    }

    // ---- Loading the module ----

    /** Static data as the loader leaves it. */
    method Clean()
      modifies this
      ensures Now() == FreshMemory(file, hosts, clock)
      ensures unchanged(this`file, this`hosts, this`clock)
    {
      hide ZERO_KEY;
      hide ZERO_HASH;
      hide NO_LISTS;
      CleanFlags();
      CleanSecrets();
      lists := NO_LISTS;
    }

    method CleanFlags()
      modifies this`enabled, this`expiry, this`saveTicks, this`fileOpen
      modifies this`restored, this`pgpActive, this`allowUnload, this`refTaken, this`protecting
      ensures !enabled && expiry == 0 && saveTicks == 0 && !fileOpen
      ensures !restored && !pgpActive && !allowUnload && !refTaken && !protecting
    {
      enabled, expiry, saveTicks, fileOpen := false, 0, 0, false;
      restored, pgpActive, allowUnload, refTaken, protecting := false, false, false, false, false;
    }

    method CleanSecrets()
      modifies this`unloadKey, this`keyHash, this`pgpKey, this`pgpKeyConsumed
      ensures unloadKey == ZERO_KEY && keyHash == ZERO_HASH && pgpKey == ZERO_KEY && pgpKeyConsumed
    {
      hide ZERO_KEY;
      hide ZERO_HASH;
      unloadKey := ZERO_KEY;
      keyHash := ZERO_HASH;
      ForgetPgpKey();
    }

    /** What is known of a session found on disk: its hash, and that only its key ends it. */
    method Adopt(hash: Hash)
      modifies this`keyHash, this`unloadKey, this`pgpKey, this`pgpKeyConsumed, this`pgpActive, this`restored
      ensures keyHash == hash && unloadKey == ZERO_KEY && pgpKey == ZERO_KEY && pgpKeyConsumed
      ensures pgpActive && restored
    {
      hide ZERO_KEY;
      keyHash := hash;
      unloadKey := ZERO_KEY;
      ForgetPgpKey();
      pgpActive := true;
      restored := true;
    }

    /** kblocker_init: the restore, then a key if it brought nothing back. */
    method Init(freshKey: Key)
      requires p.Valid()
      modifies this
      ensures Now() == Boot(p, old(file), old(hosts), old(clock), freshKey)
    {
      hide FreshMemory;
      hide Recovered;
      Clean();
      TryRestore();
      if !restored {
        GenerateUnloadKey(freshKey);
      }
    }

    /** try_restore_state_from_disk: what the file says, then the session it describes. */
    method TryRestore()
      requires p.Valid() && Now() == FreshMemory(file, hosts, clock)
      modifies this
      ensures Now() == Recovered(p, old(Now()))
    {
      hide ZERO_KEY;
      hide ZERO_HASH;
      hide Restore;
      NoListsValid();
      hide ListsValid;
      hide StartSession;
      var found := StateWriter.RestoreRecord(p, file, lists);
      lists := found.lists;
      if found.session.None? {
        return;
      }
      var (hash, seconds) := found.session.value;
      Adopt(hash);
      Start(seconds);
    }

    /** Power loss or panic, then the next boot. */
    method Reboot(torn: string, newClock: nat, freshKey: Key)
      requires Valid() && (torn == "" || (fileOpen && Remaining.Torn(torn)))
      modifies this
      ensures Valid() && Now() == Crash(p, old(Now()), torn, newClock, freshKey)
    {
      hide Inv;
      hide ZERO_KEY;
      hide ZERO_HASH;
      hide Boot;
      CrashKeeps(p, Now(), torn, newClock, freshKey);
      file := file + torn;
      clock := newClock;
      Init(freshKey);
    }

    /** kblocker_exit and loading again: the panic of an unload while enabled leaves the files as they are. */
    method UnloadAndLoad(freshKey: Key)
      requires Valid()
      modifies this
      ensures Valid() && Now() == Reload(p, old(Now()), freshKey)
    {
      hide Inv;
      hide ZERO_KEY;
      hide ZERO_HASH;
      hide Boot;
      ReloadKeeps(p, Now(), freshKey);
      if !enabled || allowUnload {
        ClearStateFile();
      }
      Init(freshKey);
    }
  }
}
