/**
 What every step of a session keeps. The debug build checks most of it at run time (src/state.c
 kb_check_invariants); the parts about keys and about the state file make it inductive.
 */
module SessionInvariant {
  import opened Wrappers
  import opened Strings
  import opened Keys
  import opened Platform
  import opened Allowlist
  import opened StateFile
  import opened Session
  import StateRoundTrip
  import StateWindows
  import opened StateFront
  import StateWriter
  import Remaining
  import HostsFile
  import Domains

  /** A session only the key or the timer can end. */
  predicate Locked(s: State) { s.enabled && s.pgpActive }

  /** The file holds a header for this hash and these lists, and the last saved time is `saved`. */
  ghost predicate Recorded(p: Platform, file: string, hash: Hash, l: Lists, saved: nat) {
    exists seconds: nat, values: seq<nat> ::
      && StateWindows.TimesValid(seconds, values)
      && file == StateWindows.StateText(p, seconds, hash, true, l, values, "")
      && saved == StateWindows.LastSaved(seconds, values)
  }

  /** kb_check_invariants */
  ghost predicate FlagsValid(s: State) {
    && s.enabled == s.refTaken
    && s.enabled == s.protecting
    && (s.allowUnload ==> !s.enabled)
    && (s.restored ==> Locked(s) && s.pgpKeyConsumed)
    && (!s.pgpKeyConsumed ==> Locked(s))
    && (Locked(s) ==> s.unloadKey == ZERO_KEY)
    && RemainingSeconds(s) <= MAX_SESSION_SECONDS
    && (!s.enabled ==> s.expiry == 0)
    && s.fileOpen == Locked(s)
    && s.saveTicks < STATE_SAVE_INTERVAL_S
  }

  /** Any key still in memory is the one the hash belongs to; the one-shot buffer is empty once read. */
  ghost predicate KeysValid(p: Platform, s: State) {
    && (s.unloadKey != ZERO_KEY ==> p.sha256(s.unloadKey) == s.keyHash)
    && (!s.pgpKeyConsumed ==> p.sha256(s.pgpKey) == s.keyHash)
    && (s.pgpKeyConsumed ==> s.pgpKey == ZERO_KEY)
  }

  /** A locked session is on disk, with its hash and some time to run; any other leaves no file. */
  ghost predicate DiskValid(s: State) {
    if Locked(s) then Fronted(s.file, s.keyHash) else s.file == ""
  }

  ghost predicate Inv(p: Platform, s: State) {
    FlagsValid(s) && KeysValid(p, s) && ListsValid(s.lists) && DiskValid(s)
  }

  /** A session whose record fits is on disk exactly: its lists too, and no less than the time it has left. */
  ghost predicate OnDisk(p: Platform, s: State) {
    && Fits(p, s.lists)
    && exists saved: nat ::
      && Recorded(p, s.file, s.keyHash, s.lists, saved)
      && s.expiry - s.clock <= saved <= MAX_SESSION_SECONDS
  }

  // ---- The file ----

  lemma NoListsValid()
    ensures ListsValid(NO_LISTS)
  {
  }

  lemma NoListsFit(p: Platform)
    ensures Fits(p, NO_LISTS)
  {
    hide Header;
    NoListsValid();
    forall seconds: nat, hash: Hash | seconds <= MAX_SESSION_SECONDS
      ensures |Header(p, seconds, hash, true, NO_LISTS)| < HEADER_BUFFER
    {
      StateWindows.HeaderFits(p, seconds, hash, true, NO_LISTS);
    }
  }

  lemma HeaderRecorded(p: Platform, hash: Hash, l: Lists, seconds: nat)
    requires 0 < seconds <= MAX_SESSION_SECONDS
    ensures Recorded(p, Header(p, seconds, hash, true, l), hash, l, seconds)
  {
    hide Header;
    assert Remaining.Log([]) + "" == "";
    assert StateWindows.StateText(p, seconds, hash, true, l, [], "") == Header(p, seconds, hash, true, l);
    assert StateWindows.TimesValid(seconds, []);
    assert StateWindows.LastSaved(seconds, []) == seconds;
  }

  lemma RecordedParts(p: Platform, file: string, hash: Hash, l: Lists, saved: nat)
    returns (seconds: nat, values: seq<nat>)
    requires Recorded(p, file, hash, l, saved)
    ensures StateWindows.TimesValid(seconds, values) && saved == StateWindows.LastSaved(seconds, values) > 0
    ensures file == StateWindows.StateText(p, seconds, hash, true, l, values, "")
  {
    hide StateWindows.StateText;
    seconds, values :|
      && StateWindows.TimesValid(seconds, values)
      && file == StateWindows.StateText(p, seconds, hash, true, l, values, "")
      && saved == StateWindows.LastSaved(seconds, values);
  }

  lemma StateTextTorn(p: Platform, seconds: nat, hash: Hash, l: Lists, values: seq<nat>, torn: string)
    ensures StateWindows.StateText(p, seconds, hash, true, l, values, "") + torn
         == StateWindows.StateText(p, seconds, hash, true, l, values, torn)
  {
    hide Header;
    hide Remaining.Log;
  }

  lemma StateTextAppended(p: Platform, seconds: nat, hash: Hash, l: Lists, values: seq<nat>, rem: nat)
    ensures StateWindows.StateText(p, seconds, hash, true, l, values, "") + Remaining.Line(rem)
         == StateWindows.StateText(p, seconds, hash, true, l, values + [rem], "")
  {
    Remaining.LogSnoc(values, rem);
    hide Header;
    hide Remaining.Log;
    hide Remaining.Line;
  }

  lemma AppendRecorded(p: Platform, file: string, hash: Hash, l: Lists, saved: nat, rem: nat)
    requires Recorded(p, file, hash, l, saved) && 0 < rem <= MAX_SESSION_SECONDS
    ensures Recorded(p, file + Remaining.Line(rem), hash, l, rem)
  {
    hide StateWindows.StateText;
    hide Remaining.Line;
    var seconds, values := RecordedParts(p, file, hash, l, saved);
    StateTextAppended(p, seconds, hash, l, values, rem);
    assert StateWindows.TimesValid(seconds, values + [rem]);
    assert StateWindows.LastSaved(seconds, values + [rem]) == rem;
  }

  lemma EmptyIsTorn()
    ensures Remaining.Torn("")
  {
    assert "" < Remaining.Line(0);
  }

  /** Restoring a recorded file, even one whose last append was cut off, brings everything back. */
  lemma RecordedRestores(p: Platform, file: string, torn: string, hash: Hash, l: Lists, saved: nat)
    requires p.Valid() && ListsValid(l)
    requires Recorded(p, file, hash, l, saved) && saved <= MAX_SESSION_SECONDS
    requires torn == "" || Remaining.Torn(torn)
    ensures Restore(p, file + torn, NO_LISTS) == Restored(l, Some((hash, saved))) && saved > 0
  {
    hide *;
    var seconds, values := RecordedParts(p, file, hash, l, saved);
    EmptyIsTorn();
    StateTextTorn(p, seconds, hash, l, values, torn);
    StateWindows.RestoreRoundTrip(p, seconds, hash, true, l, values, torn);
  }

  /** The saved time is a function of the file: its last complete record. */
  lemma RecordedSaved(p: Platform, file: string, hash: Hash, l: Lists, saved: nat)
    requires p.Valid() && ListsValid(l) && Recorded(p, file, hash, l, saved)
    ensures Remaining.LastRemaining(file) == saved
  {
    hide *;
    var seconds, values := RecordedParts(p, file, hash, l, saved);
    EmptyIsTorn();
    StateWindows.FullScan(p, seconds, hash, true, l, values, "");
  }

  // ---- One lemma per step ----

  lemma StartKeeps(p: Platform, s: State, seconds: nat)
    requires p.Valid() && 0 < seconds <= MAX_SESSION_SECONDS
    requires KeysValid(p, s) && ListsValid(s.lists)
    requires s.pgpActive ==> s.unloadKey == ZERO_KEY
    requires !s.pgpActive ==> s.pgpKeyConsumed && !s.restored
    requires s.restored ==> s.pgpKeyConsumed
    ensures Inv(p, StartSession(p, s, seconds))
  {
    hide ListsValid;
    hide HostsFile.Update;
    hide Written;
    hide Fronted;
    if s.pgpActive {
      WrittenFronted(p, seconds, s.keyHash, s.lists);
    }
  }

  lemma StartOnDisk(p: Platform, s: State, seconds: nat)
    requires 0 < seconds <= MAX_SESSION_SECONDS && s.pgpActive && Fits(p, s.lists)
    ensures OnDisk(p, StartSession(p, s, seconds))
    ensures Recorded(p, StartSession(p, s, seconds).file, s.keyHash, s.lists, seconds)
  {
    hide HostsFile.Update;
    hide Header;
    hide Written;
    hide Fits;
    hide Recorded;
    WrittenWhole(p, seconds, s.keyHash, s.lists);
    HeaderRecorded(p, s.keyHash, s.lists, seconds);
  }

  lemma DisableKeeps(p: Platform, s: State)
    requires Inv(p, s)
    ensures Inv(p, DisableBlocking(s)) && !Locked(DisableBlocking(s))
  {
    hide ListsValid;
  }

  lemma EnableKeeps(p: Platform, s: State, seconds: nat, key: Key)
    requires p.Valid() && Inv(p, s)
    ensures Inv(p, EnableBlocking(p, s, seconds, key).state)
  {
    hide StartSession;
    hide ListsValid;
    hide Recorded;
    if !s.enabled && 0 < seconds <= MAX_SESSION_SECONDS {
      StartKeeps(p, ArmKey(GenerateKey(p, s, key)), seconds);
    }
  }

  lemma EnabledStoreKeeps(p: Platform, s: State, value: Option<nat>, key: Key)
    requires p.Valid() && Inv(p, s)
    ensures Inv(p, WriteEnabled(p, s, value, key).state)
  {
    DisableKeeps(p, s);
    if value.Some? {
      EnableKeeps(p, s, value.value, key);
    }
    hide DisableBlocking;
    hide EnableBlocking;
    hide ListsValid;
    hide Recorded;
  }

  lemma UnblockKeeps(p: Platform, s: State, buf: string)
    requires Inv(p, s)
    ensures Inv(p, WriteUnblock(p, s, buf).state)
  {
    hide KeyOfText;
    hide ListsValid;
    hide Recorded;
  }

  lemma DisableStoreKeeps(p: Platform, s: State, buf: string, key: Key)
    requires Inv(p, s)
    ensures Inv(p, WriteDisable(p, s, buf, key).state)
  {
    hide KeyOfText;
    hide ListsValid;
    hide Recorded;
  }

  lemma KeyShowKeeps(p: Platform, s: State)
    requires Inv(p, s)
    ensures Inv(p, ReadKey(s).state)
  {
    hide KeyText;
    hide ListsValid;
    hide Recorded;
  }

  lemma PgpStoreKeeps(p: Platform, s: State, value: Option<bool>)
    requires Inv(p, s)
    ensures Inv(p, WritePgp(s, value).state)
  {
    hide ListsValid;
    hide Recorded;
  }

  lemma DomainsStoreKeeps(p: Platform, s: State, text: string)
    requires Inv(p, s)
    ensures Inv(p, WriteDomains(s, text).state)
  {
    StateWriter.StoredDomainsNormal(Split(CStr(text), NL), []);
    hide Domains.IsNormal;
    hide StateWriter.StoreDomains;
    hide NetsValid;
    hide Recorded;
  }

  lemma IpsStoreKeeps(p: Platform, s: State, text: string)
    requires Inv(p, s)
    ensures Inv(p, WriteIps(p, s, text).state)
  {
    StateWriter.StoredAddrsFit(p, Split(CStr(text), NL), Addrs([], []));
    hide Domains.IsNormal;
    hide StateWriter.StoreAddrs;
    hide NetsValid;
    hide Recorded;
  }

  lemma AllowedStoreKeeps(p: Platform, s: State, text: string)
    requires Inv(p, s)
    ensures Inv(p, WriteAllowed(p, s, text).state)
  {
    ParseAllowedValid(p, CStr(text), NL);
    hide Domains.IsNormal;
    hide ParseAllowed;
    hide NetsValid;
    hide Recorded;
  }

  lemma SavedTime(p: Platform, s: State) returns (saved: nat)
    requires OnDisk(p, s)
    ensures Recorded(p, s.file, s.keyHash, s.lists, saved)
    ensures s.expiry - s.clock <= saved <= MAX_SESSION_SECONDS
  {
    hide Recorded;
    hide Fits;
    saved :|
      && Recorded(p, s.file, s.keyHash, s.lists, saved)
      && s.expiry - s.clock <= saved <= MAX_SESSION_SECONDS;
  }

  lemma WorkOnDisk(p: Platform, s: State)
    requires FlagsValid(s) && Locked(s) && RemainingSeconds(s) > 0 && OnDisk(p, s)
    ensures OnDisk(p, ExpireWork(s))
  {
    hide Recorded;
    hide Fits;
    hide Remaining.Line;
    hide DisableBlocking;
    var saved := SavedTime(p, s);
    AppendRecorded(p, s.file, s.keyHash, s.lists, saved, RemainingSeconds(s));
  }

  lemma WorkKeeps(p: Platform, s: State)
    requires Inv(p, s)
    ensures Inv(p, ExpireWork(s))
  {
    hide HostsFile.Update;
    hide HostsFile.Clear;
    hide ListsValid;
    hide Fronted;
    hide Remaining.Line;
    DisableKeeps(p, s);
    if Locked(s) && RemainingSeconds(s) > 0 {
      FrontedAppended(s.file, s.keyHash, RemainingSeconds(s));
    }
    hide DisableBlocking;
  }

  lemma AdvanceKeeps(p: Platform, s: State, seconds: nat)
    requires Inv(p, s)
    ensures Inv(p, s.(clock := s.clock + seconds))
  {
    hide ListsValid;
    hide Fronted;
  }

  lemma EmptyBootUnlocked(p: Platform, hosts: string, clock: nat, key: Key)
    ensures Inv(p, Boot(p, "", hosts, clock, key)) && !Boot(p, "", hosts, clock, key).enabled
  {
    NoListsValid();
    hide ListsValid;
  }

  /** Whatever bytes the state file holds, the module comes up in order, a session only as a restored, locked one. */
  lemma AnyFileBoots(p: Platform, file: string, hosts: string, clock: nat, key: Key)
    requires p.Valid()
    ensures var t := Boot(p, file, hosts, clock, key);
      && FlagsValid(t) && KeysValid(p, t) && ListsValid(t.lists)
      && (t.enabled ==> Locked(t) && t.restored && Inv(p, t))
  {
    hide ListsValid;
    hide HostsFile.Update;
    hide Written;
    hide Fronted;
    hide Restore;
    var m := FreshMemory(file, hosts, clock);
    var found := Restore(p, file, NO_LISTS);
    RestoredInBounds(p, file);
    match found.session
    case None =>
    case Some((hash, seconds)) =>
      StartKeeps(p, m.(lists := found.lists, keyHash := hash, pgpActive := true, restored := true), seconds);
  }

  lemma RestoredInBounds(p: Platform, file: string)
    ensures var r := Restore(p, file, NO_LISTS);
      ListsValid(r.lists) && (r.session.Some? ==> 0 < r.session.value.1 <= MAX_SESSION_SECONDS)
  {
    NoListsValid();
    hide ListsValid;
    hide Head;
    hide RestoreLists;
    hide RestoreHash;
    hide ReadRemaining;
    StateWriter.RestoredListsValid(p, Head(file), NO_LISTS);
  }

  /** The state a file with a session in it boots into. */
  lemma BootWith(p: Platform, file: string, hosts: string, clock: nat, key: Key, found: Restored)
    requires Restore(p, file, NO_LISTS) == found && found.session.Some?
    ensures var m := FreshMemory(file, hosts, clock).(
              lists := found.lists, keyHash := found.session.value.0, pgpActive := true, restored := true);
      Boot(p, file, hosts, clock, key) == StartSession(p, m, found.session.value.1)
  {
    hide Restore;
    hide HostsFile.Update;
    hide Written;
  }

  /** A crash brings a locked session back: locked, with its hash, restored, and some time to run. */
  lemma CrashKeepsLocked(p: Platform, s: State, torn: string, clock: nat, key: Key)
    requires p.Valid() && Inv(p, s) && Locked(s) && (torn == "" || Remaining.Torn(torn))
    ensures var t := Crash(p, s, torn, clock, key);
      && Inv(p, t) && Locked(t) && t.restored && t.pgpKeyConsumed && t.keyHash == s.keyHash
      && t.clock == clock < t.expiry && t.saveTicks == 0
  {
    var file := s.file + torn;
    FrontedTorn(s.file, s.keyHash, torn);
    FrontedRestores(p, file, s.keyHash);
    RestoredInBounds(p, file);
    hide Restore;
    hide ListsValid;
    hide Fronted;
    hide HostsFile.Update;
    hide Written;
    var found := Restore(p, file, NO_LISTS);
    BootWith(p, file, s.hosts, clock, key, found);
    var m := FreshMemory(file, s.hosts, clock).(
      lists := found.lists, keyHash := s.keyHash, pgpActive := true, restored := true);
    StartKeeps(p, m, found.session.value.1);
    hide Boot;
  }

  /** And exactly, if its record fits: with its lists, and the time last saved, which is no less than it had left. */
  lemma CrashRestores(p: Platform, s: State, torn: string, clock: nat, key: Key) returns (saved: nat)
    requires p.Valid() && Inv(p, s) && Locked(s) && OnDisk(p, s) && (torn == "" || Remaining.Torn(torn))
    ensures saved == Remaining.LastRemaining(s.file) && s.expiry - s.clock <= saved
    ensures var t := Crash(p, s, torn, clock, key);
      && t.keyHash == s.keyHash && t.lists == s.lists
      && t.clock == clock && t.expiry == clock + saved
      && OnDisk(p, t) && Recorded(p, t.file, s.keyHash, s.lists, saved)
  {
    hide HostsFile.Update;
    hide HostsFile.Clear;
    hide Recorded;
    hide Restore;
    hide ListsValid;
    hide Fits;
    hide Written;
    saved := SavedTime(p, s);
    RecordedSaved(p, s.file, s.keyHash, s.lists, saved);
    RecordedRestores(p, s.file, torn, s.keyHash, s.lists, saved);
    BootWith(p, s.file + torn, s.hosts, clock, key, Restored(s.lists, Some((s.keyHash, saved))));
    var m := FreshMemory(s.file + torn, s.hosts, clock).(
      lists := s.lists, keyHash := s.keyHash, pgpActive := true, restored := true);
    FitsStarted(p, s);
    StartOnDisk(p, m, saved);
    hide Boot;
  }

  lemma FitsStarted(p: Platform, s: State)
    requires OnDisk(p, s)
    ensures Fits(p, s.lists)
  {
    hide Fits;
    hide Recorded;
  }

  /** For a locked session an unload is a crash: it panics. */
  lemma CrashStep(p: Platform, s: State, e: Event)
    requires p.Valid() && Inv(p, s) && Locked(s) && EventValid(s, e) && (e.Crashes? || e.Reloads?)
    ensures var t := Step(p, s, e).state;
      && Inv(p, t) && Locked(t) && t.restored && t.pgpKeyConsumed && t.keyHash == s.keyHash
      && t.clock < t.expiry && t.saveTicks == 0
  {
    var torn := if e.Crashes? then e.torn else "";
    var clock := if e.Crashes? then e.newClock else s.clock;
    StepIsCrash(p, s, e, torn, clock);
    hide Step;
    hide Crash;
    hide Inv;
    CrashKeepsLocked(p, s, torn, clock, e.freshKey);
  }

  lemma CrashStepOnDisk(p: Platform, s: State, e: Event) returns (saved: nat)
    requires p.Valid() && Inv(p, s) && Locked(s) && OnDisk(p, s) && EventValid(s, e) && (e.Crashes? || e.Reloads?)
    ensures saved == Remaining.LastRemaining(s.file) && s.expiry - s.clock <= saved
    ensures var t := Step(p, s, e).state;
      && t.lists == s.lists && t.expiry == t.clock + saved
      && OnDisk(p, t) && Recorded(p, t.file, s.keyHash, s.lists, saved)
  {
    var torn := if e.Crashes? then e.torn else "";
    var clock := if e.Crashes? then e.newClock else s.clock;
    StepIsCrash(p, s, e, torn, clock);
    hide Step;
    hide Crash;
    hide Inv;
    hide OnDisk;
    hide Recorded;
    hide Remaining.LastRemaining;
    saved := CrashRestores(p, s, torn, clock, e.freshKey);
  }

  lemma StepIsCrash(p: Platform, s: State, e: Event, torn: string, clock: nat)
    requires s.enabled && !s.allowUnload && (e.Crashes? || e.Reloads?)
    requires torn == if e.Crashes? then e.torn else ""
    requires clock == if e.Crashes? then e.newClock else s.clock
    ensures Step(p, s, e).state == Crash(p, s, torn, clock, e.freshKey)
  {
    hide Boot;
    assert s.file + "" == s.file;
  }

  lemma CrashKeeps(p: Platform, s: State, torn: string, clock: nat, key: Key)
    requires p.Valid() && Inv(p, s) && (torn == "" || (s.fileOpen && Remaining.Torn(torn)))
    ensures Inv(p, Crash(p, s, torn, clock, key))
  {
    if Locked(s) {
      CrashKeepsLocked(p, s, torn, clock, key);
    } else {
      EmptyBootUnlocked(p, s.hosts, clock, key);
      assert s.file + torn == "";
    }
  }

  lemma ReloadKeeps(p: Platform, s: State, key: Key)
    requires p.Valid() && Inv(p, s)
    ensures Inv(p, Reload(p, s, key))
  {
    hide Inv;
    EmptyBootUnlocked(p, s.hosts, s.clock, key);
    CrashKeeps(p, s, "", s.clock, key);
    assert s.file + "" == s.file;
  }

  /** Every step keeps the invariant. */
  lemma StepKeeps(p: Platform, s: State, e: Event)
    requires p.Valid() && Inv(p, s) && EventValid(s, e)
    ensures Inv(p, Step(p, s, e).state)
  {
    hide Inv;
    hide WriteEnabled;
    hide WriteDisable;
    hide WriteUnblock;
    hide ReadKey;
    hide WritePgp;
    hide WriteDomains;
    hide WriteIps;
    hide WriteAllowed;
    hide ExpireWork;
    hide Crash;
    hide Reload;
    match e
    case EnabledStore(value, key) => EnabledStoreKeeps(p, s, value, key);
    case DisableStore(buf, key) => DisableStoreKeeps(p, s, buf, key);
    case UnblockStore(buf) => UnblockKeeps(p, s, buf);
    case KeyShow => KeyShowKeeps(p, s);
    case PgpStore(value) => PgpStoreKeeps(p, s, value);
    case DomainsStore(text) => DomainsStoreKeeps(p, s, text);
    case IpsStore(text) => IpsStoreKeeps(p, s, text);
    case AllowedStore(text) => AllowedStoreKeeps(p, s, text);
    case Work => WorkKeeps(p, s);
    case Advance(seconds) => AdvanceKeeps(p, s, seconds);
    case Crashes(torn, newClock, key) => CrashKeeps(p, s, torn, newClock, key);
    case Reloads(key) => ReloadKeeps(p, s, key);
  }

  lemma RunPrefix(p: Platform, s: State, es: seq<Event>)
    requires RunValid(p, s, es) && es != []
    ensures RunValid(p, s, es[..|es| - 1])
    ensures EventValid(Exec(p, s, es[..|es| - 1]), es[|es| - 1])
  {
    hide Exec;
    hide EventValid;
    var init := es[..|es| - 1];
    forall n | 0 <= n < |init| ensures EventValid(Exec(p, s, init[..n]), init[n]) {
      assert init[..n] == es[..n];
    }
  }

  lemma ExecSnoc(p: Platform, s: State, es: seq<Event>, e: Event)
    ensures Exec(p, s, es + [e]) == Step(p, Exec(p, s, es), e).state
  {
    hide Step;
    assert (es + [e])[..|es|] == es;
  }

  lemma NothingRun(p: Platform, s: State)
    ensures Exec(p, s, []) == s
  {
  }

  /** Every state of every run from a first boot satisfies the invariant. */
  lemma {:induction false} RunKeeps(p: Platform, s: State, es: seq<Event>)
    requires p.Valid() && Inv(p, s) && RunValid(p, s, es)
    ensures Inv(p, Exec(p, s, es))
  {
    hide Inv;
    hide Step;
    hide EventValid;
    if es != [] {
      RunPrefix(p, s, es);
      RunKeeps(p, s, es[..|es| - 1]);
      StepKeeps(p, Exec(p, s, es[..|es| - 1]), es[|es| - 1]);
    }
  }

  lemma InitialInv(p: Platform, hosts: string, clock: nat, key: Key)
    ensures Inv(p, Initial(p, hosts, clock, key))
  {
    EmptyBootUnlocked(p, hosts, clock, key);
  }
}
