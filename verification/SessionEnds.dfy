/**
 What ends a session, locked or not: the exact condition of every step, when the timer's turn comes, and
 that what has ended stays ended.
 */
module SessionEnds {
  import opened Wrappers
  import opened Strings
  import opened Keys
  import opened Platform
  import opened Allowlist
  import opened StateFile
  import opened Session
  import opened SessionInvariant
  import opened SessionRuns
  import StateWriter
  import HostsFile
  import Remaining

  /** A write that ends the session: 0 or anything to `disable` without PGP, the session's key with or without it. */
  predicate EndingWrite(p: Platform, s: State, e: Event) {
    match e
    case EnabledStore(value, _) => value == Some(0) && !s.pgpActive
    case DisableStore(buf, _) => !s.pgpActive || KeyFits(p, s, buf)
    case UnblockStore(buf) => KeyFits(p, s, buf)
    case _ => false
  }

  /** All that ends a session: such a write, the timer at its time, and a crash unless the session is locked. */
  predicate Ends(p: Platform, s: State, e: Event) {
    || EndingWrite(p, s, e)
    || (e.Work? && s.clock >= s.expiry)
    || ((e.Crashes? || e.Reloads?) && !s.pgpActive)
  }

  /** What a running session keeps from step to step. */
  predicate Carried(s: State, t: State) {
    && t.pgpActive == s.pgpActive && t.keyHash == s.keyHash && t.unloadKey == s.unloadKey
    && t.expiry == s.expiry && t.lists == s.lists && t.hosts == s.hosts
  }

  /** Nothing is left of the session but its lists: the hosts file is cleared, the protection and the record gone. */
  predicate Lifted(s: State, t: State) {
    && !t.enabled && !t.protecting && !t.refTaken && !t.pgpActive && !t.fileOpen && t.file == ""
    && t.hosts == HostsFile.Clear(s.hosts) && t.lists == s.lists
  }

  /** A step that ends the session or leaves it running. */
  predicate EndsOrCarries(s: State, t: State, ends: bool) { if ends then Lifted(s, t) else t.enabled && Carried(s, t) }

  lemma EnabledAgain(p: Platform, s: State, value: Option<nat>, key: Key)
    requires s.enabled
    ensures EndsOrCarries(s, WriteEnabled(p, s, value, key).state, value == Some(0) && !s.pgpActive)
    ensures WriteEnabled(p, s, value, key).state.clock == s.clock
  {
    hide HostsFile.Clear;
    hide ZERO_KEY;
  }

  lemma KeyWritten(p: Platform, s: State, buf: string, key: Key)
    requires s.enabled
    ensures EndsOrCarries(s, WriteDisable(p, s, buf, key).state, !s.pgpActive || KeyFits(p, s, buf))
    ensures EndsOrCarries(s, WriteUnblock(p, s, buf).state, KeyFits(p, s, buf))
    ensures WriteDisable(p, s, buf, key).state.clock == s.clock && WriteUnblock(p, s, buf).state.clock == s.clock
  {
    hide HostsFile.Clear;
    hide KeyOfText;
    hide ZERO_KEY;
    hide ZERO_HASH;
  }

  lemma ReadOrWaited(s: State, value: Option<bool>, seconds: nat)
    requires s.enabled
    ensures EndsOrCarries(s, ReadKey(s).state, false) && EndsOrCarries(s, WritePgp(s, value).state, false)
    ensures EndsOrCarries(s, s.(clock := s.clock + seconds), false)
    ensures ReadKey(s).state.clock == s.clock && WritePgp(s, value).state.clock == s.clock
  {
    hide KeyText;
    hide ZERO_KEY;
  }

  lemma ListsWritten(p: Platform, s: State, text: string)
    requires s.enabled
    ensures EndsOrCarries(s, WriteDomains(s, text).state, false)
    ensures EndsOrCarries(s, WriteIps(p, s, text).state, false)
    ensures EndsOrCarries(s, WriteAllowed(p, s, text).state, false)
    ensures WriteDomains(s, text).state.clock == s.clock && WriteIps(p, s, text).state.clock == s.clock
    ensures WriteAllowed(p, s, text).state.clock == s.clock
  {
    hide StateWriter.ParseDomains;
    hide StateWriter.ParseIps;
    hide ParseAllowed;
    hide CStr;
  }

  /** The timer ends every session once boot time has reached its expiry, and none before. */
  lemma TimerEndsAny(s: State)
    requires s.enabled
    ensures EndsOrCarries(s, ExpireWork(s), s.clock >= s.expiry)
    ensures ExpireWork(s).clock == s.clock
  {
    if s.clock >= s.expiry {
      TimeIsUp(s);
      DisablingLifts(s);
    } else {
      TimerCounts(s);
    }
    hide ExpireWork;
    hide DisableBlocking;
    hide Lifted;
    hide Carried;
  }

  lemma TimerDecides(s: State)
    ensures s.enabled ==> (ExpireWork(s).enabled <==> s.clock < s.expiry)
  {
    if s.enabled {
      TimerEndsAny(s);
    }
    hide ExpireWork;
    hide Carried;
  }

  /** What a timer run without a session, and one at its end, come to. */
  lemma WorkIs(s: State)
    ensures !s.enabled ==> ExpireWork(s) == s
    ensures s.enabled && RemainingSeconds(s) == 0 ==> ExpireWork(s) == DisableBlocking(s)
  {
    hide DisableBlocking;
    hide RemainingSeconds;
  }

  lemma TimeIsUp(s: State)
    requires s.enabled && s.clock >= s.expiry
    ensures ExpireWork(s) == DisableBlocking(s)
  {
    hide DisableBlocking;
  }

  /** Before, it counts, and every STATE_SAVE_INTERVAL_S runs it appends the time left to an open file. */
  lemma WorkCounts(s: State)
    requires s.enabled && RemainingSeconds(s) > 0
    ensures var saves := s.saveTicks + 1 >= STATE_SAVE_INTERVAL_S;
      ExpireWork(s) == s.(
        saveTicks := if saves then 0 else s.saveTicks + 1,
        file := if saves && s.fileOpen then s.file + Remaining.Line(RemainingSeconds(s)) else s.file)
  {
    hide DisableBlocking;
    hide Remaining.Line;
    hide RemainingSeconds;
  }

  lemma TimerCounts(s: State)
    requires s.enabled && s.clock < s.expiry
    ensures ExpireWork(s).enabled && Carried(s, ExpireWork(s)) && ExpireWork(s).clock == s.clock
  {
    WorkCounts(s);
    hide ExpireWork;
    hide Remaining.Line;
    OnlyRecorded(s, ExpireWork(s).saveTicks, ExpireWork(s).file);
    hide Carried;
  }

  lemma OnlyRecorded(s: State, ticks: nat, file: string)
    ensures Carried(s, s.(saveTicks := ticks, file := file))
  {
  }

  lemma DisablingLifts(s: State)
    ensures Lifted(s, DisableBlocking(s)) && DisableBlocking(s).clock == s.clock
  {
    hide HostsFile.Clear;
    hide ZERO_KEY;
  }

  /** Of the steps that are no crash, each ends the session or leaves it running, and only waiting takes time. */
  ghost predicate StepsOn(p: Platform, s: State, e: Event) {
    && EndsOrCarries(s, Step(p, s, e).state, Ends(p, s, e))
    && Step(p, s, e).state.clock == s.clock + if e.Advance? then e.seconds else 0
  }

  lemma EnabledStoreStep(p: Platform, s: State, e: Event)
    requires s.enabled && !e.Crashes? && !e.Reloads?
    ensures StepsOn(p, s, e)
  {
    hide StepsOn;
    match e
    case EnabledStore(value, key) => ControlStep(p, s, e);
    case DisableStore(buf, key) => ControlStep(p, s, e);
    case UnblockStore(buf) => ControlStep(p, s, e);
    case KeyShow => PlainStep(p, s, e);
    case PgpStore(value) => PlainStep(p, s, e);
    case Advance(seconds) => PlainStep(p, s, e);
    case DomainsStore(text) => ListStep(p, s, e);
    case IpsStore(text) => ListStep(p, s, e);
    case AllowedStore(text) => ListStep(p, s, e);
    case Work => PlainStep(p, s, e);
  }

  lemma ControlStep(p: Platform, s: State, e: Event)
    requires s.enabled && (e.EnabledStore? || e.DisableStore? || e.UnblockStore?)
    ensures StepsOn(p, s, e)
  {
    hide EndsOrCarries;
    hide KeyFits;
    hide WriteEnabled;
    hide WriteDisable;
    hide WriteUnblock;
    match e
    case EnabledStore(value, key) => EnabledAgain(p, s, value, key);
    case DisableStore(buf, key) => KeyWritten(p, s, buf, key);
    case UnblockStore(buf) => KeyWritten(p, s, buf, ZERO_KEY);
  }

  lemma PlainStep(p: Platform, s: State, e: Event)
    requires s.enabled && (e.KeyShow? || e.PgpStore? || e.Advance? || e.Work?)
    ensures StepsOn(p, s, e)
  {
    hide EndsOrCarries;
    hide ReadKey;
    hide WritePgp;
    hide ExpireWork;
    match e
    case KeyShow => ReadOrWaited(s, None, 0);
    case PgpStore(value) => ReadOrWaited(s, value, 0);
    case Advance(seconds) => ReadOrWaited(s, None, seconds);
    case Work => TimerEndsAny(s);
  }

  lemma ListStep(p: Platform, s: State, e: Event)
    requires s.enabled && (e.DomainsStore? || e.IpsStore? || e.AllowedStore?)
    ensures StepsOn(p, s, e)
  {
    hide EndsOrCarries;
    hide WriteDomains;
    hide WriteIps;
    hide WriteAllowed;
    ListsWritten(p, s, e.text);
  }

  /**
   Any session, locked or not, survives a step exactly when the step is none that ends it. What a write or the
   timer ends is lifted from the hosts file too; a crash leaves that file as it is.
   */
  lemma EnabledStep(p: Platform, s: State, e: Event)
    requires p.Valid() && Inv(p, s) && EventValid(s, e) && s.enabled
    ensures var t := Step(p, s, e).state;
      && (t.enabled <==> !Ends(p, s, e))
      && (t.enabled ==> t.pgpActive == s.pgpActive && t.keyHash == s.keyHash)
      && (!e.Crashes? && !e.Reloads? ==> EndsOrCarries(s, t, Ends(p, s, e)))
      && (!t.enabled && (e.Crashes? || e.Reloads?) ==> t.hosts == s.hosts)
  {
    if e.Crashes? || e.Reloads? {
      if s.pgpActive {
        CrashStep(p, s, e);
      } else {
        UnlockedBoot(p, s, e);
      }
    } else {
      EnabledStoreStep(p, s, e);
    }
    hide Step;
    hide Inv;
    hide EventValid;
    hide KeyFits;
  }

  /** An accepted write of a length to `enabled`. */
  predicate Starts(e: Event) { e.EnabledStore? && e.value.Some? && 0 < e.value.value <= MAX_SESSION_SECONDS }

  /** A session of that length has begun, with a new key, the present lists, and their domains in the hosts file. */
  predicate Begun(p: Platform, s: State, t: State, seconds: nat, key: Key) {
    && t.enabled && t.protecting && t.refTaken && !t.restored && !t.allowUnload
    && t.pgpActive == s.pgpActive && t.fileOpen == s.pgpActive
    && t.clock == s.clock && t.expiry == s.clock + seconds && t.saveTicks == 0
    && t.keyHash == p.sha256(key) && t.lists == s.lists && t.hosts == HostsFile.Update(s.hosts, s.lists.domains)
    && t.pgpKeyConsumed == !s.pgpActive
    && (if s.pgpActive then t.pgpKey == key && t.unloadKey == ZERO_KEY else t.unloadKey == key && t.file == "")
  }

  lemma EnableBegins(p: Platform, s: State, value: Option<nat>, key: Key)
    requires !s.enabled
    ensures var t := Step(p, s, EnabledStore(value, key)).state;
      if Starts(EnabledStore(value, key)) then Begun(p, s, t, value.value, key) else !t.enabled
  {
    hide HostsFile.Update;
    hide HostsFile.Clear;
    hide Written;
    hide ZERO_KEY;
  }

  /** With nothing enabled, only such a write begins a session, with PGP armed or not. */
  lemma DisabledStep(p: Platform, s: State, e: Event)
    requires Inv(p, s) && EventValid(s, e) && !s.enabled
    ensures var t := Step(p, s, e).state;
      if Starts(e) then Begun(p, s, t, e.value.value, e.freshKey) else !t.enabled
  {
    if e.EnabledStore? {
      EnableBegins(p, s, e.value, e.freshKey);
    } else if e.Crashes? || e.Reloads? {
      UnlockedBoot(p, s, e);
    } else {
      NothingElseEnables(p, s, e);
    }
    hide Step;
    hide Inv;
    hide EventValid;
  }

  // ---- Over runs ----

  ghost predicate StaysEnabled(p: Platform, s: State, es: seq<Event>) {
    forall n | 0 <= n <= |es| :: Exec(p, s, es[..n]).enabled
  }

  ghost predicate NoneEnds(p: Platform, s: State, es: seq<Event>) {
    forall n | 0 <= n < |es| :: !Ends(p, Exec(p, s, es[..n]), es[n])
  }

  lemma StaysEnabledSnoc(p: Platform, s: State, es: seq<Event>)
    requires es != []
    ensures var init := es[..|es| - 1];
      && (StaysEnabled(p, s, es) <==> StaysEnabled(p, s, init) && Exec(p, s, es).enabled)
      && (StaysEnabled(p, s, init) ==> Exec(p, s, init).enabled)
  {
    hide Exec;
    var init := es[..|es| - 1];
    assert es[..|es|] == es && init[..|init|] == init;
    assert forall n | 0 <= n <= |init| :: init[..n] == es[..n];
    if StaysEnabled(p, s, es) {
      forall n | 0 <= n <= |init| ensures Exec(p, s, init[..n]).enabled {
        assert Exec(p, s, es[..n]).enabled;
      }
    }
    if StaysEnabled(p, s, init) && Exec(p, s, es).enabled {
      forall n | 0 <= n <= |es| ensures Exec(p, s, es[..n]).enabled {
        if n <= |init| { assert Exec(p, s, init[..n]).enabled; }
      }
    }
    if StaysEnabled(p, s, init) { assert Exec(p, s, init[..|init|]).enabled; }
  }

  lemma NoneEndsSnoc(p: Platform, s: State, es: seq<Event>)
    requires es != []
    ensures var init, e := es[..|es| - 1], es[|es| - 1];
      NoneEnds(p, s, es) <==> NoneEnds(p, s, init) && !Ends(p, Exec(p, s, init), e)
  {
    hide Exec;
    hide Ends;
    var init, e := es[..|es| - 1], es[|es| - 1];
    assert forall n | 0 <= n <= |init| :: init[..n] == es[..n];
    if NoneEnds(p, s, init) && !Ends(p, Exec(p, s, init), e) {
      forall n | 0 <= n < |es| ensures !Ends(p, Exec(p, s, es[..n]), es[n]) {
        if n < |init| { assert !Ends(p, Exec(p, s, init[..n]), init[n]); }
      }
    }
    if NoneEnds(p, s, es) {
      forall n | 0 <= n < |init| ensures !Ends(p, Exec(p, s, init[..n]), init[n]) {
        assert !Ends(p, Exec(p, s, es[..n]), es[n]);
      }
    }
  }

  /** Any session, locked or not, runs on through any steps exactly as long as none of them ends it. */
  lemma {:induction false} SessionLastsIff(p: Platform, s: State, es: seq<Event>)
    requires p.Valid() && Inv(p, s) && s.enabled && RunValid(p, s, es)
    ensures StaysEnabled(p, s, es) <==> NoneEnds(p, s, es)
    ensures StaysEnabled(p, s, es) ==> Exec(p, s, es).pgpActive == s.pgpActive && Exec(p, s, es).keyHash == s.keyHash
  {
    hide Inv;
    hide Step;
    hide EventValid;
    hide Ends;
    hide EndsOrCarries;
    if es == [] {
      assert es[..0] == [];
    } else {
      var init, e := es[..|es| - 1], es[|es| - 1];
      RunPrefix(p, s, es);
      SessionLastsIff(p, s, init);
      RunKeeps(p, s, init);
      StaysEnabledSnoc(p, s, es);
      NoneEndsSnoc(p, s, es);
      if StaysEnabled(p, s, init) {
        EnabledStep(p, Exec(p, s, init), e);
      }
      hide StaysEnabled;
      hide NoneEnds;
    }
  }

  // ---- The timer over runs ----

  /** The boot time that passes in a run. */
  function Elapsed(es: seq<Event>): nat {
    if es == [] then 0
    else Elapsed(es[..|es| - 1]) + if es[|es| - 1].Advance? then es[|es| - 1].seconds else 0
  }

  /** No step of the run is an ending write, a crash or a reload. */
  ghost predicate Undisturbed(p: Platform, s: State, es: seq<Event>) {
    forall n | 0 <= n < |es| :: !EndingWrite(p, Exec(p, s, es[..n]), es[n]) && !es[n].Crashes? && !es[n].Reloads?
  }

  lemma UndisturbedPrefix(p: Platform, s: State, es: seq<Event>)
    requires Undisturbed(p, s, es) && es != []
    ensures Undisturbed(p, s, es[..|es| - 1])
    ensures var e := es[|es| - 1]; !EndingWrite(p, Exec(p, s, es[..|es| - 1]), e) && !e.Crashes? && !e.Reloads?
  {
    hide Exec;
    hide EndingWrite;
    var init := es[..|es| - 1];
    forall n | 0 <= n < |init|
      ensures !EndingWrite(p, Exec(p, s, init[..n]), init[n]) && !init[n].Crashes? && !init[n].Reloads?
    {
      assert init[..n] == es[..n] && init[n] == es[n];
    }
  }

  /** No timer run of the sequence comes at or after that many seconds. */
  ghost predicate NoWorkFrom(es: seq<Event>, seconds: nat) {
    forall n | 0 <= n < |es| && es[n].Work? :: Elapsed(es[..n]) < seconds
  }

  lemma NoWorkSnoc(es: seq<Event>, seconds: nat)
    requires es != []
    ensures var init := es[..|es| - 1];
      NoWorkFrom(es, seconds) <==> NoWorkFrom(init, seconds) && (es[|es| - 1].Work? ==> Elapsed(init) < seconds)
  {
    hide Elapsed;
    var init := es[..|es| - 1];
    assert forall n | 0 <= n <= |init| :: init[..n] == es[..n];
    assert forall n | 0 <= n < |init| :: init[n] == es[n];
  }

  /**
   Whatever else happens between, a session that no write ends and no crash disturbs lasts exactly until the
   first timer run at its expiry or later.
   */
  lemma {:induction false} RunsToExpiry(p: Platform, s: State, es: seq<Event>, seconds: nat)
    requires p.Valid() && Inv(p, s) && s.enabled && RunValid(p, s, es) && Undisturbed(p, s, es)
    requires s.expiry == s.clock + seconds
    ensures StaysEnabled(p, s, es) <==> NoWorkFrom(es, seconds)
    ensures StaysEnabled(p, s, es) ==>
      Exec(p, s, es).clock == s.clock + Elapsed(es) && Exec(p, s, es).expiry == s.expiry
  {
    hide Inv;
    hide Step;
    hide EventValid;
    hide EndingWrite;
    if es == [] {
      assert es[..0] == [];
    } else {
      var init, e := es[..|es| - 1], es[|es| - 1];
      RunPrefix(p, s, es);
      UndisturbedPrefix(p, s, es);
      RunsToExpiry(p, s, init, seconds);
      RunKeeps(p, s, init);
      StaysEnabledSnoc(p, s, es);
      NoWorkSnoc(es, seconds);
      if StaysEnabled(p, s, init) {
        var before := Exec(p, s, init);
        EnabledStep(p, before, e);
        EnabledStoreStep(p, before, e);
      }
      hide StaysEnabled;
      hide NoWorkFrom;
      hide Undisturbed;
    }
  }

  /**
   A session of `seconds` seconds, PGP or not, from the write that starts it: without an ending write, a crash or
   a reload, it is enabled throughout exactly when every timer run comes before `seconds` seconds have passed.
   */
  lemma LastsItsTime(p: Platform, s: State, seconds: nat, key: Key, es: seq<Event>)
    requires p.Valid() && Inv(p, s) && !s.enabled && 0 < seconds <= MAX_SESSION_SECONDS
    requires var t := Step(p, s, EnabledStore(Some(seconds), key)).state; RunValid(p, t, es) && Undisturbed(p, t, es)
    ensures var t := Step(p, s, EnabledStore(Some(seconds), key)).state;
      StaysEnabled(p, t, es) <==> NoWorkFrom(es, seconds)
  {
    var e := EnabledStore(Some(seconds), key);
    StepKeeps(p, s, e);
    DisabledStep(p, s, e);
    hide Step;
    hide Inv;
    hide Exec;
    RunsToExpiry(p, Step(p, s, e).state, es, seconds);
  }

  /** Once nothing is enabled, nothing is until a session is begun: no write, timer run, crash or reload enables. */
  lemma {:induction false} StaysOff(p: Platform, s: State, es: seq<Event>)
    requires p.Valid() && Inv(p, s) && !s.enabled && RunValid(p, s, es)
    requires forall n | 0 <= n < |es| :: !Starts(es[n])
    ensures !Exec(p, s, es).enabled
  {
    hide Inv;
    hide Step;
    hide EventValid;
    hide Starts;
    if es != [] {
      var init := es[..|es| - 1];
      RunPrefix(p, s, es);
      StaysOff(p, s, init);
      RunKeeps(p, s, init);
      DisabledStep(p, Exec(p, s, init), es[|es| - 1]);
    }
  }

  // ---- The key of a session without PGP ----

  /** A session without PGP shows its key at every reading, and that text, written back, ends it. */
  lemma PlainKeyWorks(p: Platform, s: State, seconds: nat, key: Key, es: seq<Event>, later: Key)
    requires p.Valid() && Inv(p, s) && !s.enabled && !s.pgpActive && 0 < seconds <= MAX_SESSION_SECONDS
    requires var t := Step(p, s, EnabledStore(Some(seconds), key)).state; RunValid(p, t, es) && StaysEnabled(p, t, es)
    ensures var late := Exec(p, Step(p, s, EnabledStore(Some(seconds), key)).state, es);
      && ReadKey(late) == Outcome(late, Shown(KeyText(key)))
      && (forall text | text == KeyText(key) || text == Hex(key) ::
            Step(p, late, UnblockStore(text)).reply == Done && !Step(p, late, UnblockStore(text)).state.enabled)
      && Step(p, late, DisableStore("", later)).reply == Done && !Step(p, late, DisableStore("", later)).state.enabled
  {
    var e := EnabledStore(Some(seconds), key);
    StepKeeps(p, s, e);
    DisabledStep(p, s, e);
    hide Step;
    hide Exec;
    hide Inv;
    PlainKeyStays(p, Step(p, s, e).state, es);
    KeyTextRoundTrip(key);
    var late := Exec(p, Step(p, s, e).state, es);
    RunKeeps(p, Step(p, s, e).state, es);
    PlainRead(p, late);
    forall text | text == KeyText(key) || text == Hex(key)
      ensures Step(p, late, UnblockStore(text)).reply == Done && !Step(p, late, UnblockStore(text)).state.enabled
    {
      PlainEnds(p, late, text, key, later);
    }
    PlainEnds(p, late, KeyText(key), key, later);
  }

  lemma PlainRead(p: Platform, s: State)
    requires Inv(p, s) && s.enabled && !s.pgpActive
    ensures ReadKey(s) == Outcome(s, Shown(KeyText(s.unloadKey)))
  {
    hide KeyText;
    hide KeysValid;
    hide ListsValid;
    hide DiskValid;
  }

  lemma PlainEnds(p: Platform, s: State, text: string, k: Key, key: Key)
    requires s.enabled && !s.pgpActive && KeyOfText(text) == Some(k) && p.sha256(k) == s.keyHash
    ensures Step(p, s, UnblockStore(text)).reply == Done && !Step(p, s, UnblockStore(text)).state.enabled
    ensures Step(p, s, DisableStore("", key)).reply == Done && !Step(p, s, DisableStore("", key)).state.enabled
  {
    hide KeyOfText;
    hide HostsFile.Clear;
    hide ZERO_KEY;
    hide ZERO_HASH;
  }

  /** While it lasts, a session without PGP keeps its key in memory. */
  lemma {:induction false} PlainKeyStays(p: Platform, s: State, es: seq<Event>)
    requires p.Valid() && Inv(p, s) && !s.pgpActive && RunValid(p, s, es) && StaysEnabled(p, s, es)
    ensures var t := Exec(p, s, es); t.enabled && !t.pgpActive && t.unloadKey == s.unloadKey && t.keyHash == s.keyHash
  {
    hide Inv;
    hide Step;
    hide EventValid;
    hide Ends;
    if es == [] {
      assert es[..0] == [];
    } else {
      var init := es[..|es| - 1];
      RunPrefix(p, s, es);
      StaysEnabledSnoc(p, s, es);
      PlainKeyStays(p, s, init);
      RunKeeps(p, s, init);
      hide StaysEnabled;
      EnabledStep(p, Exec(p, s, init), es[|es| - 1]);
      PlainCrash(p, Exec(p, s, init), es[|es| - 1]);
    }
  }

  lemma PlainCrash(p: Platform, s: State, e: Event)
    requires !s.pgpActive
    ensures e.Crashes? || e.Reloads? ==> Ends(p, s, e)
  {
  }

  /** The key of the first boot, before any session, is shown too and lifts whatever there is to lift. */
  lemma BootKeyWorks(p: Platform, hosts: string, clock: nat, key: Key, later: Key)
    ensures var s := Initial(p, hosts, clock, key);
      && ReadKey(s) == Outcome(s, Shown(KeyText(key)))
      && Step(p, s, UnblockStore(KeyText(key))).reply == Done
      && Lifted(s, Step(p, s, UnblockStore(KeyText(key))).state)
      && Step(p, s, DisableStore("", later)).reply == Done && Lifted(s, Step(p, s, DisableStore("", later)).state)
  {
    KeyTextRoundTrip(key);
    hide KeyOfText;
    hide KeyText;
    hide ZERO_KEY;
    hide ZERO_HASH;
    BootKeyKnown(p, hosts, clock, key);
    hide Initial;
    hide HostsFile.Clear;
  }

  lemma BootKeyKnown(p: Platform, hosts: string, clock: nat, key: Key)
    ensures var s := Initial(p, hosts, clock, key);
      !s.restored && !s.pgpActive && s.unloadKey == key && s.keyHash == p.sha256(key)
  {
    hide ZERO_KEY;
    hide ZERO_HASH;
  }

  /** A key that was accepted by `unblock` is forgotten, hash and all; from then on the module may be unloaded. */
  lemma UnblockForgets(p: Platform, s: State, buf: string)
    requires KeyFits(p, s, buf)
    ensures var t := Step(p, s, UnblockStore(buf)).state;
      t.allowUnload && t.unloadKey == ZERO_KEY && t.keyHash == ZERO_HASH && UnloadGoesThrough(t)
  {
    hide KeyOfText;
    hide HostsFile.Clear;
  }

  /** One that was accepted by `disable` is replaced: the next reading shows the new one. */
  lemma DisableReplaces(p: Platform, s: State, buf: string, key: Key)
    requires s.pgpActive && KeyFits(p, s, buf)
    ensures var t := Step(p, s, DisableStore(buf, key)).state;
      t.keyHash == p.sha256(key) && ReadKey(t) == Outcome(t, Shown(KeyText(key)))
  {
    hide KeyOfText;
    hide HostsFile.Clear;
    hide KeyText;
  }
}
