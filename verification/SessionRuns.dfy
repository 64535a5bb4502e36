/**
 What holds over whole runs of the session machine, crashes and reloads included: who can end a locked
 session, what it keeps, how long it lasts, and what becomes of its key.
 */
module SessionRuns {
  import opened Wrappers
  import opened Strings
  import opened Keys
  import opened Platform
  import opened StateFile
  import StateFront
  import StateCut
  import opened Session
  import opened SessionInvariant
  import HostsFile
  import Remaining
  import StateWriter
  import opened Allowlist
  import Domains

  /** The text is a key, and the hash of that key is the session's. */
  predicate KeyFits(p: Platform, s: State, buf: string) {
    KeyOfText(buf).Some? && p.sha256(KeyOfText(buf).value) == s.keyHash
  }

  /** The two ways out: a key whose hash is the session's, or the timer once its time has come. */
  predicate Authorized(p: Platform, s: State, e: Event) {
    match e
    case DisableStore(buf, _) => KeyFits(p, s, buf)
    case UnblockStore(buf) => KeyFits(p, s, buf)
    case Work => s.clock >= s.expiry
    case _ => false
  }

  /**
   A locked session survives a step exactly when the step is not authorised to end it; with its key hash, and
   if its record fits, with its lists.
   */
  lemma LockedStep(p: Platform, s: State, e: Event)
    requires p.Valid() && Inv(p, s) && EventValid(s, e) && Locked(s)
    ensures var t := Step(p, s, e).state;
      && (Locked(t) <==> !Authorized(p, s, e))
      && (Locked(t) ==> t.keyHash == s.keyHash)
      && (Locked(t) && OnDisk(p, s) ==> t.lists == s.lists && OnDisk(p, t))
      && (!Locked(t) ==> !t.enabled && t.file == "")
  {
    hide Step;
    hide Inv;
    hide EventValid;
    hide OnDisk;
    if e.Crashes? || e.Reloads? {
      CrashStep(p, s, e);
      if OnDisk(p, s) {
        var _ := CrashStepOnDisk(p, s, e);
      }
    } else {
      LockedStoreStep(p, s, e);
      if OnDisk(p, s) && Locked(Step(p, s, e).state) {
        OnDiskStep(p, s, e);
      }
    }
  }

  /** A locked session's record stays as good as it is through every step but a crash. */
  lemma OnDiskStep(p: Platform, s: State, e: Event)
    requires Inv(p, s) && Locked(s) && OnDisk(p, s) && !e.Crashes? && !e.Reloads? && Locked(Step(p, s, e).state)
    ensures OnDisk(p, Step(p, s, e).state)
  {
    hide Recorded;
    hide Fits;
    if e.Work? {
      WorkLeft(s);
      FlagsOf(p, s);
      WorkOnDisk(p, s);
    } else {
      SameRecord(p, s, e);
      hide Step;
      hide Inv;
    }
  }

  lemma FlagsOf(p: Platform, s: State)
    requires Inv(p, s)
    ensures FlagsValid(s)
  {
    hide FlagsValid;
    hide KeysValid;
    hide ListsValid;
    hide DiskValid;
  }

  lemma WorkLeft(s: State)
    requires Locked(s) && Locked(ExpireWork(s))
    ensures RemainingSeconds(s) > 0
  {
    hide HostsFile.Clear;
    hide Remaining.Line;
  }

  /** Between saves nothing on disk changes, nor do the lists, and time does not run backwards. */
  predicate RecordKept(s: State, t: State) {
    && t.restored == s.restored && t.file == s.file && t.keyHash == s.keyHash && t.lists == s.lists
    && t.expiry - t.clock <= s.expiry - s.clock
  }

  lemma SameRecord(p: Platform, s: State, e: Event)
    requires Locked(s) && Locked(Step(p, s, e).state) && !e.Crashes? && !e.Reloads? && !e.Work?
    ensures RecordKept(s, Step(p, s, e).state)
  {
    hide RecordKept;
    hide WriteEnabled;
    hide WriteDisable;
    hide WriteUnblock;
    hide ReadKey;
    hide WritePgp;
    hide WriteDomains;
    hide WriteIps;
    hide WriteAllowed;
    hide ExpireWork;
    hide Crash;
    hide Reload;
    match e
    case EnabledStore(value, key) => EnableRefused(p, s, value, key);
    case DisableStore(buf, key) => EndRefused(p, s, buf, key);
    case UnblockStore(buf) => EndRefused(p, s, buf, ZERO_KEY);
    case KeyShow => ReadAndWait(s, None, 0);
    case PgpStore(value) => ReadAndWait(s, value, 0);
    case Advance(seconds) => ReadAndWait(s, None, seconds);
    case DomainsStore(text) => ListsRefused(p, s, text);
    case IpsStore(text) => ListsRefused(p, s, text);
    case AllowedStore(text) => ListsRefused(p, s, text);
  }

  lemma EnableRefused(p: Platform, s: State, value: Option<nat>, key: Key)
    requires Locked(s)
    ensures RecordKept(s, WriteEnabled(p, s, value, key).state)
  {
  }

  lemma EndRefused(p: Platform, s: State, buf: string, key: Key)
    requires Locked(s)
    ensures Locked(WriteDisable(p, s, buf, key).state) ==> RecordKept(s, WriteDisable(p, s, buf, key).state)
    ensures Locked(WriteUnblock(p, s, buf).state) ==> RecordKept(s, WriteUnblock(p, s, buf).state)
  {
    hide KeyOfText;
    hide HostsFile.Clear;
    hide ZERO_KEY;
    hide ZERO_HASH;
  }

  lemma ReadAndWait(s: State, value: Option<bool>, seconds: nat)
    requires Locked(s)
    ensures RecordKept(s, ReadKey(s).state) && RecordKept(s, WritePgp(s, value).state)
    ensures RecordKept(s, s.(clock := s.clock + seconds))
  {
    hide KeyText;
    hide ZERO_KEY;
  }

  lemma ListsRefused(p: Platform, s: State, text: string)
    requires Locked(s)
    ensures RecordKept(s, WriteDomains(s, text).state)
    ensures RecordKept(s, WriteIps(p, s, text).state)
    ensures RecordKept(s, WriteAllowed(p, s, text).state)
  {
    hide StateWriter.ParseDomains;
    hide StateWriter.ParseIps;
    hide ParseAllowed;
    hide CStr;
  }

  lemma LockedStoreStep(p: Platform, s: State, e: Event)
    requires Inv(p, s) && Locked(s) && !e.Crashes? && !e.Reloads?
    ensures var t := Step(p, s, e).state;
      && (Locked(t) <==> !Authorized(p, s, e))
      && (Locked(t) ==> t.keyHash == s.keyHash && t.lists == s.lists)
      && (!Locked(t) ==> !t.enabled && t.file == "")
  {
    hide HostsFile.Update;
    hide HostsFile.Clear;
    hide StateWriter.ParseDomains;
    hide StateWriter.ParseIps;
    hide ParseAllowed;
    hide CStr;
    hide ListsValid;
    hide KeyOfText;
    hide Recorded;
    hide Boot;
    hide KeyText;
    hide Remaining.Line;
  }

  /** Only an accepted write to `enabled` with PGP armed locks, with a new key and the lists of that moment. */
  lemma UnlockedStep(p: Platform, s: State, e: Event)
    requires Inv(p, s) && EventValid(s, e) && !Locked(s)
    ensures var t := Step(p, s, e).state;
      && (Locked(t) <==> e.EnabledStore? && e.value.Some? && 0 < e.value.value <= MAX_SESSION_SECONDS && s.pgpActive)
      && (Locked(t) ==>
            && t.keyHash == p.sha256(e.freshKey) && t.pgpKey == e.freshKey && !t.pgpKeyConsumed
            && t.lists == s.lists && t.expiry == t.clock + e.value.value)
      && (Locked(t) && Fits(p, s.lists) ==> OnDisk(p, t))
  {
    if e.Crashes? || e.Reloads? {
      UnlockedBoot(p, s, e);
      hide Step;
      hide Inv;
    } else {
      UnlockedStoreStep(p, s, e);
      if Locked(Step(p, s, e).state) && Fits(p, s.lists) {
        EnabledOnDisk(p, s, e.value.value, e.freshKey);
      }
      hide Step;
      hide Inv;
      hide OnDisk;
      hide Fits;
    }
  }

  /** Without a locked session there is nothing to come back. */
  lemma UnlockedBoot(p: Platform, s: State, e: Event)
    requires Inv(p, s) && EventValid(s, e) && (e.Crashes? || e.Reloads?) && !Locked(s)
    ensures var t := Step(p, s, e).state; !t.enabled && t.hosts == s.hosts
  {
    hide Boot;
    hide ListsValid;
    hide KeysValid;
    hide StateFront.Fronted;
    BootHosts(p, s.hosts, if e.Crashes? then e.newClock else s.clock, e.freshKey);
    if e.Crashes? {
      assert s.file + e.torn == "";
    }
  }

  lemma BootHosts(p: Platform, hosts: string, clock: nat, key: Key)
    ensures var t := Boot(p, "", hosts, clock, key); !t.enabled && t.hosts == hosts
  {
    hide ZERO_KEY;
    hide ZERO_HASH;
  }

  lemma UnlockedStoreStep(p: Platform, s: State, e: Event)
    requires !Locked(s) && !e.Crashes? && !e.Reloads?
    ensures var t := Step(p, s, e).state;
      && (Locked(t) <==> e.EnabledStore? && e.value.Some? && 0 < e.value.value <= MAX_SESSION_SECONDS && s.pgpActive)
      && (Locked(t) ==>
            && t.keyHash == p.sha256(e.freshKey) && t.pgpKey == e.freshKey && !t.pgpKeyConsumed
            && t.lists == s.lists && t.expiry == t.clock + e.value.value)
  {
    hide Step;
    if e.EnabledStore? {
      EnableLocks(p, s, e.value, e.freshKey);
    } else {
      NothingElseEnables(p, s, e);
    }
  }

  lemma EnableLocks(p: Platform, s: State, value: Option<nat>, key: Key)
    requires !Locked(s)
    ensures var t := Step(p, s, EnabledStore(value, key)).state;
      && (Locked(t) <==> value.Some? && 0 < value.value <= MAX_SESSION_SECONDS && s.pgpActive)
      && (Locked(t) ==>
            && t.keyHash == p.sha256(key) && t.pgpKey == key && !t.pgpKeyConsumed
            && t.lists == s.lists && t.expiry == t.clock + value.value)
  {
    hide HostsFile.Update;
    hide HostsFile.Clear;
    hide Written;
    hide ZERO_KEY;
  }

  /** What is enabled after a step was so before it, in the same mode. */
  predicate NotEnabling(s: State, t: State) { t.enabled ==> s.enabled && t.pgpActive == s.pgpActive }

  lemma NothingElseEnables(p: Platform, s: State, e: Event)
    requires !e.EnabledStore? && !e.Crashes? && !e.Reloads?
    ensures NotEnabling(s, Step(p, s, e).state)
  {
    hide NotEnabling;
    hide WriteDisable;
    hide WriteUnblock;
    hide ReadKey;
    hide WritePgp;
    hide WriteDomains;
    hide WriteIps;
    hide WriteAllowed;
    hide ExpireWork;
    match e
    case DisableStore(buf, key) => EndsEnableNothing(p, s, buf, key);
    case UnblockStore(buf) => EndsEnableNothing(p, s, buf, ZERO_KEY);
    case KeyShow => PlainEnableNothing(s, None, 0);
    case PgpStore(value) => PlainEnableNothing(s, value, 0);
    case Advance(seconds) => PlainEnableNothing(s, None, seconds);
    case DomainsStore(text) => ListsEnableNothing(p, s, text);
    case IpsStore(text) => ListsEnableNothing(p, s, text);
    case AllowedStore(text) => ListsEnableNothing(p, s, text);
    case Work => WorkEnablesNothing(s);
  }

  lemma EndsEnableNothing(p: Platform, s: State, buf: string, key: Key)
    ensures NotEnabling(s, WriteDisable(p, s, buf, key).state)
    ensures NotEnabling(s, WriteUnblock(p, s, buf).state)
  {
    hide KeyOfText;
    hide HostsFile.Clear;
    hide ZERO_KEY;
    hide ZERO_HASH;
  }

  lemma PlainEnableNothing(s: State, value: Option<bool>, seconds: nat)
    ensures NotEnabling(s, ReadKey(s).state) && NotEnabling(s, WritePgp(s, value).state)
    ensures NotEnabling(s, s.(clock := s.clock + seconds))
  {
    hide KeyText;
    hide ZERO_KEY;
  }

  lemma ListsEnableNothing(p: Platform, s: State, text: string)
    ensures NotEnabling(s, WriteDomains(s, text).state)
    ensures NotEnabling(s, WriteIps(p, s, text).state)
    ensures NotEnabling(s, WriteAllowed(p, s, text).state)
  {
    hide StateWriter.ParseDomains;
    hide StateWriter.ParseIps;
    hide ParseAllowed;
    hide CStr;
  }

  lemma WorkEnablesNothing(s: State)
    ensures NotEnabling(s, ExpireWork(s))
  {
    hide HostsFile.Clear;
    hide Remaining.Line;
    hide ZERO_KEY;
  }

  lemma EnabledOnDisk(p: Platform, s: State, seconds: nat, key: Key)
    requires s.pgpActive && !s.enabled && 0 < seconds <= MAX_SESSION_SECONDS && Fits(p, s.lists)
    ensures var t := Step(p, s, EnabledStore(Some(seconds), key)).state;
      OnDisk(p, t) && Recorded(p, t.file, t.keyHash, s.lists, seconds)
  {
    hide HostsFile.Update;
    hide HostsFile.Clear;
    hide OnDisk;
    hide Recorded;
    hide Fits;
    hide Written;
    StartOnDisk(p, ArmKey(GenerateKey(p, s, key)), seconds);
  }

  // ---- Lock safety ----

  ghost predicate NoneAuthorized(p: Platform, s: State, es: seq<Event>) {
    forall n | 0 <= n < |es| :: !Authorized(p, Exec(p, s, es[..n]), es[n])
  }

  ghost predicate StaysLocked(p: Platform, s: State, es: seq<Event>) {
    forall n | 0 <= n <= |es| :: Locked(Exec(p, s, es[..n]))
  }

  lemma StaysLockedPrefix(p: Platform, s: State, es: seq<Event>)
    requires StaysLocked(p, s, es)
    ensures Locked(Exec(p, s, es))
    ensures es != [] ==> StaysLocked(p, s, es[..|es| - 1])
  {
    hide Exec;
    assert es[..|es|] == es;
    if es != [] {
      var init := es[..|es| - 1];
      forall n | 0 <= n <= |init| ensures Locked(Exec(p, s, init[..n])) {
        assert init[..n] == es[..n];
      }
    }
  }

  /**
   A locked session runs on, through any writes, reads, ticks, crashes and reloads, exactly as long as
   no step is authorised to end it; and all that time it keeps its key hash and, if its record fits, its lists.
   */
  lemma {:induction false} LockSafety(p: Platform, s: State, es: seq<Event>)
    requires p.Valid() && Inv(p, s) && Locked(s) && RunValid(p, s, es)
    ensures StaysLocked(p, s, es) <==> NoneAuthorized(p, s, es)
    ensures StaysLocked(p, s, es) ==> Exec(p, s, es).keyHash == s.keyHash
    ensures StaysLocked(p, s, es) && OnDisk(p, s) ==> Exec(p, s, es).lists == s.lists && OnDisk(p, Exec(p, s, es))
  {
    hide Inv;
    hide Step;
    hide EventValid;
    hide Authorized;
    hide OnDisk;
    if es == [] {
      assert es[..0] == [];
    } else {
      var init, e := es[..|es| - 1], es[|es| - 1];
      var before := Exec(p, s, init);
      RunPrefix(p, s, es);
      LockSafety(p, s, init);
      RunKeeps(p, s, init);
      if Locked(before) {
        LockedStep(p, before, e);
      }
      PrefixesOf(p, s, es);
    }
  }

  /** A crash right after a session was locked brings its lists back exactly when the record fitted the buffer. */
  lemma ListsSurviveIff(p: Platform, s: State, seconds: nat, key: Key, clock: nat, later: Key)
    requires p.Valid() && Inv(p, s) && s.pgpActive && !s.enabled && 0 < seconds <= MAX_SESSION_SECONDS
    ensures var t := Step(p, s, EnabledStore(Some(seconds), key)).state;
      Crash(p, t, "", clock, later).lists == s.lists
      <==> |Header(p, seconds, p.sha256(key), true, s.lists)| < HEADER_BUFFER
  {
    ListsOf(p, s);
    LockedFile(p, s, seconds, key);
    var t := Step(p, s, EnabledStore(Some(seconds), key)).state;
    BootLists(p, t.file, t.hosts, clock, later);
    hide Step;
    hide Inv;
    hide ListsValid;
    hide Boot;
    hide Restore;
    hide Written;
    hide Header;
    assert t.file + "" == t.file;
    StateCut.RestoredIffFits(p, seconds, p.sha256(key), s.lists);
  }

  lemma LockedFile(p: Platform, s: State, seconds: nat, key: Key)
    requires s.pgpActive && !s.enabled && 0 < seconds <= MAX_SESSION_SECONDS
    ensures var t := Step(p, s, EnabledStore(Some(seconds), key)).state;
      t.file == Written(p, seconds, p.sha256(key), true, s.lists)
  {
    hide HostsFile.Update;
    hide HostsFile.Clear;
    hide Written;
  }

  lemma BootLists(p: Platform, file: string, hosts: string, clock: nat, key: Key)
    ensures Boot(p, file, hosts, clock, key).lists == Restore(p, file, NO_LISTS).lists
  {
    hide Restore;
    hide HostsFile.Update;
    hide Written;
  }

  /** The prefixes of a run are those of all but its last event, and the whole. */
  lemma PrefixesOf(p: Platform, s: State, es: seq<Event>)
    requires es != []
    ensures var init, e := es[..|es| - 1], es[|es| - 1];
      && (StaysLocked(p, s, es) <==> StaysLocked(p, s, init) && Locked(Exec(p, s, es)))
      && (NoneAuthorized(p, s, es) <==> NoneAuthorized(p, s, init) && !Authorized(p, Exec(p, s, init), e))
      && (StaysLocked(p, s, init) ==> Locked(Exec(p, s, init)))
  {
    hide Exec;
    hide Authorized;
    hide Locked;
    var init := es[..|es| - 1];
    assert es[..|es|] == es && init[..|init|] == init;
    assert forall n | 0 <= n <= |init| :: init[..n] == es[..n];
    if StaysLocked(p, s, init) && Locked(Exec(p, s, es)) {
      forall n | 0 <= n <= |es| ensures Locked(Exec(p, s, es[..n])) {
        if n <= |init| { assert Locked(Exec(p, s, init[..n])); }
      }
    }
    if StaysLocked(p, s, es) {
      forall n | 0 <= n <= |init| ensures Locked(Exec(p, s, init[..n])) {
        assert Locked(Exec(p, s, es[..n]));
      }
    }
    if NoneAuthorized(p, s, init) && !Authorized(p, Exec(p, s, init), es[|es| - 1]) {
      forall n | 0 <= n < |es| ensures !Authorized(p, Exec(p, s, es[..n]), es[n]) {
        if n < |init| { assert !Authorized(p, Exec(p, s, init[..n]), init[n]); }
      }
    }
    if NoneAuthorized(p, s, es) {
      forall n | 0 <= n < |init| ensures !Authorized(p, Exec(p, s, init[..n]), init[n]) {
        assert !Authorized(p, Exec(p, s, es[..n]), es[n]);
      }
    }
    if StaysLocked(p, s, init) { assert Locked(Exec(p, s, init[..|init|])); }
  }

  /** Once no session is locked, nothing but a new enable locks one: no crash or reload brings the old one back. */
  lemma {:induction false} EndedStaysEnded(p: Platform, s: State, es: seq<Event>)
    requires p.Valid() && Inv(p, s) && !Locked(s) && RunValid(p, s, es)
    requires forall n | 0 <= n < |es| :: !es[n].EnabledStore?
    ensures !Locked(Exec(p, s, es))
    ensures Interrupted(es) ==> !Exec(p, s, es).enabled
  {
    hide Inv;
    hide Step;
    hide EventValid;
    if es != [] {
      var init, e := es[..|es| - 1], es[|es| - 1];
      RunPrefix(p, s, es);
      EndedStaysEnded(p, s, init);
      RunKeeps(p, s, init);
      InterruptedSnoc(es);
      hide Interrupted;
      hide RunValid;
      EndedOnce(p, Exec(p, s, init), e);
    }
  }

  lemma EndedOnce(p: Platform, s: State, e: Event)
    requires Inv(p, s) && EventValid(s, e) && !Locked(s) && !e.EnabledStore?
    ensures var t := Step(p, s, e).state;
      !Locked(t) && (!s.enabled || e.Crashes? || e.Reloads? ==> !t.enabled)
  {
    hide Inv;
    hide Step;
    hide EventValid;
    UnlockedStep(p, s, e);
    StaysDisabled(p, s, e);
  }

  ghost predicate Interrupted(es: seq<Event>) { exists n | 0 <= n < |es| :: es[n].Crashes? || es[n].Reloads? }

  lemma InterruptedSnoc(es: seq<Event>)
    requires es != []
    ensures Interrupted(es) <==> Interrupted(es[..|es| - 1]) || es[|es| - 1].Crashes? || es[|es| - 1].Reloads?
  {
    assert forall n | 0 <= n < |es| - 1 :: es[..|es| - 1][n] == es[n];
  }

  lemma StaysDisabled(p: Platform, s: State, e: Event)
    requires Inv(p, s) && EventValid(s, e) && !Locked(s) && !e.EnabledStore?
    ensures !s.enabled || e.Crashes? || e.Reloads? ==> !Step(p, s, e).state.enabled
  {
    if e.Crashes? || e.Reloads? {
      UnlockedBoot(p, s, e);
    } else {
      NothingElseEnables(p, s, e);
    }
    hide Step;
    hide Inv;
  }

  // ---- The key ----

  /** Locked sessions are reachable: arm PGP after a first boot, then enable. */
  lemma LockedIsReached(p: Platform, hosts: string, clock: nat, k0: Key, key: Key, seconds: nat)
    requires p.Valid() && 0 < seconds <= MAX_SESSION_SECONDS
    ensures var es := [PgpStore(Some(true)), EnabledStore(Some(seconds), key)];
      var s := Initial(p, hosts, clock, k0);
      && RunValid(p, s, es) && Inv(p, Exec(p, s, es)) && Locked(Exec(p, s, es)) && OnDisk(p, Exec(p, s, es))
      && !Exec(p, s, es).pgpKeyConsumed
  {
    hide Inv;
    hide Step;
    hide Exec;
    hide Initial;
    var es := [PgpStore(Some(true)), EnabledStore(Some(seconds), key)];
    var s := Initial(p, hosts, clock, k0);
    InitialInv(p, hosts, clock, k0);
    ArmedFirst(p, hosts, clock, k0);
    EnableShowsKey(p, Step(p, s, es[0]).state, seconds, key);
    NoListsFit(p);
    EnabledOnDisk(p, Step(p, s, es[0]).state, seconds, key);
    RunKeepsTwo(p, s, es);
  }

  lemma RunKeepsTwo(p: Platform, s: State, es: seq<Event>)
    requires p.Valid() && Inv(p, s) && |es| == 2
    requires EventValid(s, es[0]) && EventValid(Step(p, s, es[0]).state, es[1])
    ensures RunValid(p, s, es) && Inv(p, Exec(p, s, es))
    ensures Exec(p, s, es) == Step(p, Step(p, s, es[0]).state, es[1]).state
  {
    hide Inv;
    hide Step;
    hide EventValid;
    assert es[..0] == [] && es[..1][..0] == [];
    ExecTwo(p, s, es);
    hide Exec;
    RunKeeps(p, s, es);
  }

  lemma ExecTwo(p: Platform, s: State, es: seq<Event>)
    requires |es| == 2
    ensures Exec(p, s, es) == Step(p, Step(p, s, es[0]).state, es[1]).state
  {
    hide Step;
    var first := es[..1];
    assert first[..0] == [];
    assert Exec(p, s, first) == Step(p, Exec(p, s, first[..0]), first[0]).state;
    assert es[..|es| - 1] == first;
  }

  /** A session that has just been locked has its key to show: the one its hash was made from. */
  lemma EnableShowsKey(p: Platform, s: State, seconds: nat, key: Key)
    requires Inv(p, s) && s.pgpActive && !s.enabled && 0 < seconds <= MAX_SESSION_SECONDS
    ensures var t := Step(p, s, EnabledStore(Some(seconds), key)).state;
      && Locked(t) && !t.pgpKeyConsumed && t.keyHash == p.sha256(key)
      && ReadKey(t).reply == Shown(KeyText(key))
  {
    hide HostsFile.Update;
    hide HostsFile.Clear;
    hide KeyText;
    hide Written;
    hide ListsValid;
    hide DiskValid;
    hide KeysValid;
    UnlockedStep(p, s, EnabledStore(Some(seconds), key));
  }

  /**
   The text shown once goes on working: at any later point of that session, restored or not, writing it
   to `disable` or `unblock`, with its newline or without, ends the session.
   */
  lemma KeyShownKeepsWorking(p: Platform, s: State, es: seq<Event>, key: Key)
    requires p.Valid() && Inv(p, s) && Locked(s) && !s.pgpKeyConsumed
    requires RunValid(p, ReadKey(s).state, es) && StaysLocked(p, ReadKey(s).state, es)
    ensures ReadKey(s).reply == Shown(KeyText(s.pgpKey))
    ensures var late := Exec(p, ReadKey(s).state, es);
      forall text | text == KeyText(s.pgpKey) || text == Hex(s.pgpKey) ::
        && Step(p, late, DisableStore(text, key)).reply == Done
        && !Step(p, late, DisableStore(text, key)).state.enabled
        && Step(p, late, UnblockStore(text)).reply == Done
        && !Step(p, late, UnblockStore(text)).state.enabled
  {
    var t := ReadKey(s).state;
    var late := Exec(p, t, es);
    KeyShowKeeps(p, s);
    LockSafety(p, t, es);
    StaysLockedPrefix(p, t, es);
    KeyTextRoundTrip(s.pgpKey);
    hide Exec;
    hide KeyOfText;
    hide KeyText;
    hide Hex;
    hide ListsValid;
    hide DiskValid;
    hide RunValid;
    assert p.sha256(s.pgpKey) == late.keyHash;
    forall text | text == KeyText(s.pgpKey) || text == Hex(s.pgpKey)
      ensures Step(p, late, DisableStore(text, key)).reply == Done
      ensures !Step(p, late, DisableStore(text, key)).state.enabled
      ensures Step(p, late, UnblockStore(text)).reply == Done
      ensures !Step(p, late, UnblockStore(text)).state.enabled
    {
      KeyEnds(p, late, text, s.pgpKey, key);
    }
  }

  lemma KeyEnds(p: Platform, s: State, text: string, k: Key, key: Key)
    requires Locked(s) && KeyOfText(text) == Some(k) && p.sha256(k) == s.keyHash
    ensures Step(p, s, DisableStore(text, key)).reply == Done && !Step(p, s, DisableStore(text, key)).state.enabled
    ensures Step(p, s, UnblockStore(text)).reply == Done && !Step(p, s, UnblockStore(text)).state.enabled
  {
    hide KeyOfText;
  }

  /** Once read, the one-shot key stays read for as long as the session lasts, and no buffer holds it. */
  lemma ConsumedStep(p: Platform, s: State, e: Event)
    requires p.Valid() && Inv(p, s) && EventValid(s, e) && Locked(s) && Locked(Step(p, s, e).state)
    requires s.pgpKeyConsumed
    ensures Step(p, s, e).state.pgpKeyConsumed
  {
    hide EventValid;
    if e.Crashes? || e.Reloads? {
      hide Step;
      hide Inv;
      hide Recorded;
      hide Remaining.LastRemaining;
      CrashStep(p, s, e);
    } else {
      ConsumedStoreStep(p, s, e);
    }
  }

  lemma ConsumedStoreStep(p: Platform, s: State, e: Event)
    requires Locked(s) && Locked(Step(p, s, e).state) && s.pgpKeyConsumed && !e.Crashes? && !e.Reloads?
    ensures Step(p, s, e).state.pgpKeyConsumed
  {
    hide HostsFile.Update;
    hide HostsFile.Clear;
    hide StateWriter.ParseDomains;
    hide StateWriter.ParseIps;
    hide ParseAllowed;
    hide CStr;
    hide KeyOfText;
    hide KeyText;
    hide Boot;
    hide Remaining.Line;
  }

  lemma {:induction false} ConsumedRun(p: Platform, s: State, es: seq<Event>)
    requires p.Valid() && Inv(p, s) && RunValid(p, s, es) && StaysLocked(p, s, es) && s.pgpKeyConsumed
    ensures var t := Exec(p, s, es); t.pgpKeyConsumed && t.pgpKey == ZERO_KEY && t.unloadKey == ZERO_KEY
  {
    RunKeeps(p, s, es);
    if es != [] {
      RunPrefix(p, s, es);
      StaysLockedPrefix(p, s, es);
      StaysLockedPrefix(p, s, es[..|es| - 1]);
      ConsumedRun(p, s, es[..|es| - 1]);
      RunKeeps(p, s, es[..|es| - 1]);
      hide Inv;
      hide Step;
      ConsumedStep(p, Exec(p, s, es[..|es| - 1]), es[|es| - 1]);
    } else {
      StaysLockedPrefix(p, s, es);
    }
  }

  /** A locked session counts as restored exactly from its first crash on. */
  lemma {:induction false} RestoredIff(p: Platform, s: State, es: seq<Event>)
    requires p.Valid() && Inv(p, s) && RunValid(p, s, es) && StaysLocked(p, s, es)
    ensures Exec(p, s, es).restored <==> s.restored || Interrupted(es)
  {
    hide Inv;
    hide Step;
    hide EventValid;
    hide Locked;
    if es != [] {
      var init, e := es[..|es| - 1], es[|es| - 1];
      RunPrefix(p, s, es);
      StaysLockedPrefix(p, s, es);
      StaysLockedPrefix(p, s, init);
      RestoredIff(p, s, init);
      RunKeeps(p, s, init);
      RestoredStep(p, Exec(p, s, init), e);
      InterruptedSnoc(es);
      hide Interrupted;
    }
  }

  lemma RestoredStep(p: Platform, s: State, e: Event)
    requires p.Valid() && Inv(p, s) && EventValid(s, e) && Locked(s) && Locked(Step(p, s, e).state)
    ensures Step(p, s, e).state.restored <==> s.restored || e.Crashes? || e.Reloads?
  {
    hide Inv;
    hide EventValid;
    if e.Crashes? || e.Reloads? {
      hide Step;
      CrashStep(p, s, e);
    } else if e.Work? {
      WorkLeft(s);
      WorkKeepsRestored(s);
    } else {
      SameRecord(p, s, e);
      hide Step;
    }
  }

  lemma WorkKeepsRestored(s: State)
    requires s.enabled && RemainingSeconds(s) > 0
    ensures ExpireWork(s).restored == s.restored
  {
    hide DisableBlocking;
    hide Remaining.Line;
    hide RemainingSeconds;
  }

  /**
   After its first reading, no reading shows the key again while the session lasts: it says "restored" if there has
   been a crash, and "encrypted" if not.
   */
  lemma KeyReadableAtMostOnce(p: Platform, s: State, es: seq<Event>)
    requires p.Valid() && Inv(p, s) && Locked(s)
    requires RunValid(p, ReadKey(s).state, es) && StaysLocked(p, ReadKey(s).state, es)
    ensures var late := Exec(p, ReadKey(s).state, es);
      && late.pgpKey == ZERO_KEY && late.unloadKey == ZERO_KEY
      && ReadKey(late).reply == Shown(if s.restored || Interrupted(es) then "restored\n" else "encrypted\n")
  {
    var t := ReadKey(s).state;
    KeyShowKeeps(p, s);
    assert t.pgpKeyConsumed && t.restored == s.restored by { hide KeyText; hide ListsValid; hide DiskValid; }
    ConsumedRun(p, t, es);
    RestoredIff(p, t, es);
    StaysLockedPrefix(p, t, es);
    hide Interrupted;
    hide Exec;
    hide Inv;
    hide KeyText;
  }

  // ---- Unloading ----

  /** kblocker_exit returns instead of panicking. */
  predicate UnloadGoesThrough(s: State) { !s.enabled || s.allowUnload }

  /** In every reachable state, an unload goes through exactly when nothing is enabled; it never asks for a key. */
  lemma UnloadIff(p: Platform, s: State, es: seq<Event>)
    requires p.Valid() && Inv(p, s) && RunValid(p, s, es)
    ensures UnloadGoesThrough(Exec(p, s, es)) <==> !Exec(p, s, es).enabled
  {
    RunKeeps(p, s, es);
    hide Exec;
    hide ListsValid;
    hide DiskValid;
    hide KeysValid;
  }

  /** During a locked session it goes through only after a step authorised to end the session. */
  lemma UnloadOfLocked(p: Platform, s: State, es: seq<Event>)
    requires p.Valid() && Inv(p, s) && Locked(s) && RunValid(p, s, es) && NoneAuthorized(p, s, es)
    ensures !UnloadGoesThrough(Exec(p, s, es))
  {
    hide Inv;
    LockSafety(p, s, es);
    StaysLockedPrefix(p, s, es);
    UnloadIff(p, s, es);
    hide Exec;
  }

  /** A locked session that runs out: armed, enabled, waited for, ended by the timer. */
  function TimerRun(seconds: nat, key: Key): seq<Event> {
    [PgpStore(Some(true)), EnabledStore(Some(seconds), key), Advance(seconds), Work]
  }

  /** After it no key has been presented, and the module can be unloaded. */
  lemma UnloadWithoutKey(p: Platform, hosts: string, clock: nat, k0: Key, key: Key, seconds: nat)
    requires p.Valid() && 0 < seconds <= MAX_SESSION_SECONDS
    ensures var es := TimerRun(seconds, key); var s := Initial(p, hosts, clock, k0);
      && RunValid(p, s, es) && (forall i | 0 <= i < |es| :: !es[i].DisableStore? && !es[i].UnblockStore?)
      && Locked(Exec(p, s, es[..3])) && UnloadGoesThrough(Exec(p, s, es))
  {
    hide Step;
    hide Inv;
    hide Exec;
    hide Initial;
    hide Locked;
    var es, s := TimerRun(seconds, key), Initial(p, hosts, clock, k0);
    InitialInv(p, hosts, clock, k0);
    ArmedFirst(p, hosts, clock, k0);
    TimerRunIs(p, s, seconds, key);
    RunsOut(p, Step(p, s, es[0]).state, seconds, key);
    UnloadIff(p, s, es);
  }

  lemma ArmedFirst(p: Platform, hosts: string, clock: nat, k0: Key)
    ensures var t := Step(p, Initial(p, hosts, clock, k0), PgpStore(Some(true))).state;
      Inv(p, t) && t.pgpActive && !t.enabled && t.lists == NO_LISTS
  {
    var s := Initial(p, hosts, clock, k0);
    EmptyBootUnlocked(p, hosts, clock, k0);
    PgpStoreKeeps(p, s, Some(true));
    hide Inv;
    hide Initial;
  }

  lemma RunsOut(p: Platform, s: State, seconds: nat, key: Key)
    requires p.Valid() && Inv(p, s) && s.pgpActive && !s.enabled && 0 < seconds <= MAX_SESSION_SECONDS
    ensures var t := Step(p, Step(p, s, EnabledStore(Some(seconds), key)).state, Advance(seconds)).state;
      Locked(t) && !Step(p, t, Work).state.enabled
  {
    hide Inv;
    hide Remaining.LastRemaining;
    StartedAny(p, s, seconds, key);
    var t := Step(p, s, EnabledStore(Some(seconds), key)).state;
    AdvanceStep(p, t, seconds);
    AdvanceKeeps(p, t, seconds);
    hide Step;
    var u := Step(p, t, Advance(seconds)).state;
    assert Authorized(p, u, Work);
    LockedStep(p, u, Work);
  }

  lemma AdvanceStep(p: Platform, s: State, seconds: nat)
    ensures Step(p, s, Advance(seconds)).state == s.(clock := s.clock + seconds)
  {
  }

  lemma TimerRunIs(p: Platform, s: State, seconds: nat, key: Key)
    ensures var es := TimerRun(seconds, key);
      && Exec(p, s, es[..1]) == Step(p, s, es[0]).state
      && Exec(p, s, es[..2]) == Step(p, Exec(p, s, es[..1]), es[1]).state
      && Exec(p, s, es[..3]) == Step(p, Exec(p, s, es[..2]), es[2]).state
      && Exec(p, s, es) == Step(p, Exec(p, s, es[..3]), es[3]).state
      && RunValid(p, s, es)
  {
    hide Step;
    var es := TimerRun(seconds, key);
    NothingRun(p, s);
    ExecSnoc(p, s, [], es[0]);
    ExecSnoc(p, s, es[..1], es[1]);
    ExecSnoc(p, s, es[..2], es[2]);
    ExecSnoc(p, s, es[..3], es[3]);
    hide Exec;
    assert es[..1] == [] + [es[0]] && es[..2] == es[..1] + [es[1]] && es[..3] == es[..2] + [es[2]];
    assert es == es[..3] + [es[3]];
    assert forall n | 0 <= n < |es| :: EventValid(Exec(p, s, es[..n]), es[n]);
  }

  // ---- Time ----

  /** Bookkeeping beside a locked session; none of it exists in the module. */
  datatype Ledger = Ledger(
    spent: nat,      // boot time the session has been enabled for, over all boots
    lost: nat,       // time that crashes made it run again
    crashes: nat,
    sinceSave: nat,  // boot time since the last saved record
    works: nat,      // timer runs since then
    pending: nat)    // boot time since the last timer run

  const OPENED: Ledger := Ledger(0, 0, 0, 0, 0, 0)

  /** A crash takes the session back to its last save. */
  function Reverted(a: Ledger): Ledger {
    a.(lost := a.lost + a.sinceSave, crashes := a.crashes + 1, sinceSave := 0, works := 0, pending := 0)
  }

  function Book(s: State, e: Event, a: Ledger): Ledger {
    match e
    case Advance(d) => a.(spent := a.spent + d, sinceSave := a.sinceSave + d, pending := a.pending + d)
    case Work =>
      if s.saveTicks + 1 >= STATE_SAVE_INTERVAL_S then a.(sinceSave := 0, works := 0, pending := 0)
      else a.(works := a.works + 1, pending := 0)
    case Crashes(_, _, _) => Reverted(a)
    case Reloads(_) => Reverted(a)
    case _ => a
  }

  function Books(p: Platform, s: State, es: seq<Event>): Ledger {
    if es == [] then OPENED
    else Book(Exec(p, s, es[..|es| - 1]), es[|es| - 1], Books(p, s, es[..|es| - 1]))
  }

  /** Spent and remaining time add up to the length and what crashes cost; a crash costs the time since the save. */
  ghost predicate Balanced(s: State, total: nat, a: Ledger) {
    && a.spent + (s.expiry - s.clock) == total + a.lost
    && Remaining.LastRemaining(s.file) - (s.expiry - s.clock) == a.sinceSave
    && a.works == s.saveTicks
  }

  lemma BalancedStep(p: Platform, s: State, e: Event, total: nat, a: Ledger)
    requires p.Valid() && Inv(p, s) && EventValid(s, e) && Locked(s) && Locked(Step(p, s, e).state)
    requires OnDisk(p, s) && Balanced(s, total, a)
    ensures Balanced(Step(p, s, e).state, total, Book(s, e, a))
  {
    hide Inv;
    hide EventValid;
    hide OnDisk;
    hide Remaining.LastRemaining;
    if e.Crashes? || e.Reloads? {
      BalancedCrash(p, s, e, total, a);
    } else if e.Work? {
      BalancedWork(p, s, total, a);
    } else {
      BalancedStoreStep(p, s, e, total, a);
    }
  }

  lemma BalancedStoreStep(p: Platform, s: State, e: Event, total: nat, a: Ledger)
    requires Locked(s) && Locked(Step(p, s, e).state) && !e.Crashes? && !e.Reloads? && !e.Work?
    requires Balanced(s, total, a)
    ensures Balanced(Step(p, s, e).state, total, Book(s, e, a))
  {
    hide HostsFile.Update;
    hide HostsFile.Clear;
    hide StateWriter.ParseDomains;
    hide StateWriter.ParseIps;
    hide ParseAllowed;
    hide CStr;
    hide KeyOfText;
    hide KeyText;
    hide Boot;
    hide Remaining.LastRemaining;
  }

  lemma BalancedCrash(p: Platform, s: State, e: Event, total: nat, a: Ledger)
    requires p.Valid() && Inv(p, s) && Locked(s) && EventValid(s, e) && (e.Crashes? || e.Reloads?)
    requires OnDisk(p, s) && Balanced(s, total, a)
    ensures Balanced(Step(p, s, e).state, total, Book(s, e, a))
  {
    hide Step;
    hide EventValid;
    hide OnDisk;
    hide ListsValid;
    hide Recorded;
    hide Remaining.LastRemaining;
    hide DiskValid;
    hide FlagsValid;
    hide KeysValid;
    var saved := CrashStepOnDisk(p, s, e);
    CrashStep(p, s, e);
    var t := Step(p, s, e).state;
    RecordedSaved(p, t.file, s.keyHash, s.lists, saved);
    assert Remaining.LastRemaining(t.file) == saved;
    hide Inv;
  }

  lemma BalancedWork(p: Platform, s: State, total: nat, a: Ledger)
    requires p.Valid() && Inv(p, s) && Locked(s) && Locked(ExpireWork(s))
    requires OnDisk(p, s) && Balanced(s, total, a)
    ensures Balanced(ExpireWork(s), total, Book(s, Work, a))
  {
    hide ListsValid;
    hide Recorded;
    hide Fits;
    hide StateFront.Fronted;
    hide Remaining.LastRemaining;
    hide Remaining.Line;
    var saved := SavedTime(p, s);
    var rem := RemainingSeconds(s);
    assert 0 < rem <= MAX_SESSION_SECONDS;
    hide OnDisk;
    hide DiskValid;
    hide KeysValid;
    AppendRecorded(p, s.file, s.keyHash, s.lists, saved, rem);
    RecordedSaved(p, s.file + Remaining.Line(rem), s.keyHash, s.lists, rem);
  }

  lemma LockedAtStart(p: Platform, s: State, es: seq<Event>)
    requires StaysLocked(p, s, es)
    ensures Locked(s)
  {
    hide Locked;
    assert es[..0] == [];
    NothingRun(p, s);
    assert Locked(Exec(p, s, es[..0]));
  }

  lemma {:induction false} BalancedRun(p: Platform, s: State, es: seq<Event>, total: nat)
    requires p.Valid() && Inv(p, s) && RunValid(p, s, es) && StaysLocked(p, s, es)
    requires OnDisk(p, s)
    requires s.expiry == s.clock + total && s.saveTicks == 0 && Remaining.LastRemaining(s.file) == total
    ensures Balanced(Exec(p, s, es), total, Books(p, s, es))
  {
    hide Inv;
    hide Step;
    hide Book;
    hide EventValid;
    hide OnDisk;
    hide Remaining.LastRemaining;
    if es != [] {
      var init := es[..|es| - 1];
      RunPrefix(p, s, es);
      StaysLockedPrefix(p, s, es);
      StaysLockedPrefix(p, s, init);
      BalancedRun(p, s, init, total);
      LockedAtStart(p, s, init);
      LockSafety(p, s, init);
      RunKeeps(p, s, init);
      hide Balanced;
      BalancedStep(p, Exec(p, s, init), es[|es| - 1], total, Books(p, s, init));
    }
  }

  /** A session that has just been started for `total` seconds, its record fitting. */
  lemma StartedSession(p: Platform, s: State, total: nat, key: Key)
    requires p.Valid() && Inv(p, s) && s.pgpActive && !s.enabled && 0 < total <= MAX_SESSION_SECONDS
    requires Fits(p, s.lists)
    ensures var t := Step(p, s, EnabledStore(Some(total), key)).state;
      && Inv(p, t) && Locked(t) && OnDisk(p, t)
      && t.expiry == t.clock + total && t.saveTicks == 0 && Remaining.LastRemaining(t.file) == total
  {
    StartedAny(p, s, total, key);
    EnabledOnDisk(p, s, total, key);
    ListsOf(p, s);
    hide *;
    var t := Step(p, s, EnabledStore(Some(total), key)).state;
    RecordedSaved(p, t.file, t.keyHash, s.lists, total);
  }

  lemma ListsOf(p: Platform, s: State)
    requires Inv(p, s)
    ensures ListsValid(s.lists)
  {
    hide FlagsValid;
    hide KeysValid;
    hide ListsValid;
    hide DiskValid;
  }

  /** The same whether its record fits or not. */
  lemma StartedAny(p: Platform, s: State, total: nat, key: Key)
    requires p.Valid() && Inv(p, s) && s.pgpActive && !s.enabled && 0 < total <= MAX_SESSION_SECONDS
    ensures var t := Step(p, s, EnabledStore(Some(total), key)).state;
      Inv(p, t) && Locked(t) && t.expiry == t.clock + total && t.saveTicks == 0
  {
    EnableKeeps(p, s, total, key);
    UnlockedStep(p, s, EnabledStore(Some(total), key));
    hide HostsFile.Update;
    hide HostsFile.Clear;
    hide Written;
    hide Inv;
  }

  /**
   Time is conserved: over any number of crashes, the time spent enabled and the time still to run add up
   to the session's length plus, for each crash, the time since the last save before it. Fewer than
   STATE_SAVE_INTERVAL_S timer runs fit between two saves.
   */
  lemma TimeConserved(p: Platform, s: State, es: seq<Event>, total: nat, key: Key)
    requires p.Valid() && Inv(p, s) && s.pgpActive && !s.enabled && 0 < total <= MAX_SESSION_SECONDS
    requires Fits(p, s.lists)
    requires var t := Step(p, s, EnabledStore(Some(total), key)).state; RunValid(p, t, es) && StaysLocked(p, t, es)
    ensures var t := Step(p, s, EnabledStore(Some(total), key)).state;
      var late, a := Exec(p, t, es), Books(p, t, es);
      && a.spent + (late.expiry - late.clock) == total + a.lost
      && a.works < STATE_SAVE_INTERVAL_S
      && (Authorized(p, late, Work) ==> a.spent == total + a.lost + (late.clock - late.expiry) >= total)
  {
    hide HostsFile.Update;
    hide HostsFile.Clear;
    StartedSession(p, s, total, key);
    var t := Step(p, s, EnabledStore(Some(total), key)).state;
    BalancedRun(p, t, es, total);
    RunKeeps(p, t, es);
    hide Exec;
    hide Books;
    hide Step;
    hide ListsValid;
    hide DiskValid;
    hide Remaining.LastRemaining;
  }

  /** The timer is never more than `delay` seconds of boot time late. */
  ghost predicate Timely(p: Platform, s: State, es: seq<Event>, delay: nat) {
    forall n | 0 <= n <= |es| :: Books(p, s, es[..n]).pending <= delay
  }

  lemma {:induction false} LossBounded(p: Platform, s: State, es: seq<Event>, delay: nat)
    requires p.Valid() && Inv(p, s) && RunValid(p, s, es) && StaysLocked(p, s, es)
    requires s.saveTicks == 0 && Timely(p, s, es, delay)
    ensures var a := Books(p, s, es);
      && a.works == Exec(p, s, es).saveTicks
      && a.sinceSave <= a.works * delay + a.pending
      && a.lost <= a.crashes * (STATE_SAVE_INTERVAL_S * delay)
  {
    hide Inv;
    hide EventValid;
    hide Step;
    hide Book;
    hide Locked;
    assert es[..|es|] == es;
    if es != [] {
      var init, e := es[..|es| - 1], es[|es| - 1];
      RunPrefix(p, s, es);
      StaysLockedPrefix(p, s, es);
      StaysLockedPrefix(p, s, init);
      forall n | 0 <= n <= |init| ensures Books(p, s, init[..n]).pending <= delay {
        assert init[..n] == es[..n];
      }
      LossBounded(p, s, init, delay);
      assert init[..|init|] == init;
      RunKeeps(p, s, init);
      LossStep(p, Exec(p, s, init), e, Books(p, s, init), delay);
    }
  }

  lemma LossStep(p: Platform, s: State, e: Event, a: Ledger, delay: nat)
    requires p.Valid() && Inv(p, s) && EventValid(s, e) && Locked(s) && Locked(Step(p, s, e).state)
    requires a.works == s.saveTicks && a.pending <= delay
    requires a.sinceSave <= a.works * delay + a.pending
    requires a.lost <= a.crashes * (STATE_SAVE_INTERVAL_S * delay)
    ensures var b := Book(s, e, a);
      && b.works == Step(p, s, e).state.saveTicks
      && b.sinceSave <= b.works * delay + b.pending
      && b.lost <= b.crashes * (STATE_SAVE_INTERVAL_S * delay)
  {
    hide Inv;
    hide Step;
    hide EventValid;
    SaveTicksStep(p, s, e);
    var b := Book(s, e, a);
    match e
    case Work => MoreWork(a.works, delay);
    case Crashes(_, _, _) => OneMoreCrash(a, delay);
    case Reloads(_) => OneMoreCrash(a, delay);
    case _ =>
  }

  lemma MoreWork(works: nat, delay: nat)
    ensures (works + 1) * delay == works * delay + delay
  {
  }

  lemma OneMoreCrash(a: Ledger, delay: nat)
    requires a.works < STATE_SAVE_INTERVAL_S && a.pending <= delay
    requires a.sinceSave <= a.works * delay + a.pending
    requires a.lost <= a.crashes * (STATE_SAVE_INTERVAL_S * delay)
    ensures a.lost + a.sinceSave <= (a.crashes + 1) * (STATE_SAVE_INTERVAL_S * delay)
  {
    var most := STATE_SAVE_INTERVAL_S * delay;
    assert (a.crashes + 1) * most == a.crashes * most + most;
    MulMonotone(a.works + 1, STATE_SAVE_INTERVAL_S, delay);
    assert (a.works + 1) * delay == a.works * delay + delay;
  }

  lemma MulMonotone(x: nat, y: nat, d: nat)
    requires x <= y
    ensures x * d <= y * d
  {
  }

  lemma SaveTicksStep(p: Platform, s: State, e: Event)
    requires p.Valid() && Inv(p, s) && EventValid(s, e) && Locked(s) && Locked(Step(p, s, e).state)
    ensures s.saveTicks < STATE_SAVE_INTERVAL_S
    ensures Step(p, s, e).state.saveTicks ==
      if e.Work? then (if s.saveTicks + 1 >= STATE_SAVE_INTERVAL_S then 0 else s.saveTicks + 1)
      else if e.Crashes? || e.Reloads? then 0
      else s.saveTicks
  {
    hide EventValid;
    if e.Crashes? || e.Reloads? {
      assert s.saveTicks < STATE_SAVE_INTERVAL_S;
      hide Step;
      hide Inv;
      hide Recorded;
      hide Remaining.LastRemaining;
      CrashStep(p, s, e);
    } else {
      assert s.saveTicks < STATE_SAVE_INTERVAL_S;
      hide Inv;
      SaveTicksStoreStep(p, s, e);
    }
  }

  lemma SaveTicksStoreStep(p: Platform, s: State, e: Event)
    requires Locked(s) && Locked(Step(p, s, e).state) && !e.Crashes? && !e.Reloads?
    ensures Step(p, s, e).state.saveTicks ==
      if e.Work? then (if s.saveTicks + 1 >= STATE_SAVE_INTERVAL_S then 0 else s.saveTicks + 1) else s.saveTicks
  {
    hide HostsFile.Update;
    hide HostsFile.Clear;
    hide StateWriter.ParseDomains;
    hide StateWriter.ParseIps;
    hide ParseAllowed;
    hide CStr;
    hide KeyOfText;
    hide KeyText;
    hide Boot;
    hide Remaining.Line;
  }

  /** At the last timer run, or since the last start, the session still had time left. */
  ghost predicate Prompt(s: State, a: Ledger) { s.clock - a.pending < s.expiry }

  lemma PromptStep(p: Platform, s: State, e: Event, a: Ledger)
    requires p.Valid() && Inv(p, s) && EventValid(s, e) && Locked(s) && Locked(Step(p, s, e).state)
    requires Prompt(s, a)
    ensures Prompt(Step(p, s, e).state, Book(s, e, a))
  {
    hide Inv;
    hide EventValid;
    hide Recorded;
    hide Remaining.LastRemaining;
    if e.Crashes? || e.Reloads? {
      hide Step;
      hide Locked;
      CrashStep(p, s, e);
    } else {
      PromptStoreStep(p, s, e, a);
    }
  }

  lemma PromptStoreStep(p: Platform, s: State, e: Event, a: Ledger)
    requires Locked(s) && Locked(Step(p, s, e).state) && !e.Crashes? && !e.Reloads? && Prompt(s, a)
    ensures Prompt(Step(p, s, e).state, Book(s, e, a))
  {
    hide HostsFile.Update;
    hide HostsFile.Clear;
    hide StateWriter.ParseDomains;
    hide StateWriter.ParseIps;
    hide ParseAllowed;
    hide CStr;
    hide KeyOfText;
    hide KeyText;
    hide Boot;
    hide Remaining.Line;
  }

  lemma {:induction false} PromptRun(p: Platform, s: State, es: seq<Event>)
    requires p.Valid() && Inv(p, s) && RunValid(p, s, es) && StaysLocked(p, s, es) && s.clock < s.expiry
    ensures Prompt(Exec(p, s, es), Books(p, s, es))
  {
    hide Inv;
    hide Step;
    hide Book;
    hide EventValid;
    hide Locked;
    if es != [] {
      var init := es[..|es| - 1];
      RunPrefix(p, s, es);
      StaysLockedPrefix(p, s, es);
      StaysLockedPrefix(p, s, init);
      PromptRun(p, s, init);
      RunKeeps(p, s, init);
      hide Prompt;
      PromptStep(p, Exec(p, s, init), es[|es| - 1], Books(p, s, init));
    }
  }

  lemma TimelyNow(p: Platform, s: State, es: seq<Event>, delay: nat)
    requires Timely(p, s, es, delay)
    ensures Books(p, s, es).pending <= delay
  {
    hide Books;
    assert es[..|es|] == es;
  }

  /**
   A session of `total` seconds that the timer ends has been enabled for at least `total` seconds of boot
   time, and, with the timer never more than `delay` late, for less than that plus sixty delays per crash
   and one delay at its end.
   */
  lemma TimerEndsOnTime(p: Platform, s: State, es: seq<Event>, total: nat, key: Key, delay: nat)
    requires p.Valid() && Inv(p, s) && s.pgpActive && !s.enabled && 0 < total <= MAX_SESSION_SECONDS
    requires Fits(p, s.lists)
    requires var t := Step(p, s, EnabledStore(Some(total), key)).state;
      && RunValid(p, t, es) && StaysLocked(p, t, es) && Timely(p, t, es, delay)
      && Authorized(p, Exec(p, t, es), Work)
    ensures var t := Step(p, s, EnabledStore(Some(total), key)).state;
      var a := Books(p, t, es);
      total <= a.spent < total + a.crashes * (STATE_SAVE_INTERVAL_S * delay) + delay
  {
    hide Step;
    hide Inv;
    hide Exec;
    hide Books;
    hide Timely;
    hide StaysLocked;
    hide RunValid;
    hide Locked;
    hide Remaining.LastRemaining;
    TimeConserved(p, s, es, total, key);
    StartedSession(p, s, total, key);
    var t := Step(p, s, EnabledStore(Some(total), key)).state;
    LossBounded(p, t, es, delay);
    PromptRun(p, t, es);
    TimelyNow(p, t, es, delay);
  }
}
