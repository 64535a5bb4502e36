/**
 Blocks left behind: when the hosts file holds a block although nothing is enabled, how that comes about,
 and what takes such a block away again.
 */
module SessionStale {
  import opened Wrappers
  import opened Strings
  import opened Keys
  import opened Platform
  import opened StateFile
  import opened Session
  import opened SessionInvariant
  import opened SessionRuns
  import opened SessionHosts
  import opened HostsFile
  import StateWriter
  import Allowlist
  import Remaining
  import Domains

  /** A block with no session to it. */
  predicate Stale(s: State) { !s.enabled && MarkerAt(s.hosts).Some? }

  /** A crash, or an unload with the panic it causes, while a session without PGP blocks domains. */
  predicate Leaves(s: State, e: Event) {
    (e.Crashes? || e.Reloads?) && s.enabled && !s.pgpActive && s.lists.domains != []
  }

  /** An accepted write to `enabled` (0 included) or `disable`, or the key written to `unblock`. */
  predicate TakesAway(p: Platform, s: State, e: Event) {
    match e
    case EnabledStore(value, _) => value.Some? && value.value <= MAX_SESSION_SECONDS
    case DisableStore(buf, _) => !s.pgpActive || KeyFits(p, s, buf)
    case UnblockStore(buf) => KeyFits(p, s, buf)
    case _ => false
  }

  /** A file in one of the user's three forms has no block after a clear, and the session's before it. */
  lemma MarkerOfHosts(u: string, s: State)
    requires UserText(u) && Roomy(u) && HostsHold(u, s)
    ensures MarkerAt(Clear(s.hosts)).None?
    ensures s.enabled ==> (MarkerAt(s.hosts).Some? <==> s.lists.domains != [])
  {
    hide UserText;
    hide Roomy;
    hide ContentValid;
    hide Bytes;
    hide Clear;
    hide MarkerAt;
    var c: Content :| HeldAs(u, s, c);
    RoomyReadable(u, c);
    ClearIsValid();
    ApplyIsNext(u, c, DoClear);
    BaseIsStripped(u, c);
    BaseIsStripped(u, Next(u, c, DoClear));
  }

  lemma StaleBoot(p: Platform, u: string, s: State, e: Event)
    requires p.Valid() && Inv(p, s) && EventValid(s, e) && (e.Crashes? || e.Reloads?)
    requires UserText(u) && Roomy(u) && HostsHold(u, s)
    ensures Stale(Step(p, s, e).state) <==> Leaves(s, e) || Stale(s)
  {
    hide UserText;
    hide Roomy;
    hide HostsHold;
    hide MarkerAt;
    if Locked(s) {
      hide Step;
      hide EventValid;
      hide Recorded;
      hide Remaining.LastRemaining;
      hide FlagsValid;
      hide KeysValid;
      hide DiskValid;
      hide ListsValid;
      CrashStep(p, s, e);
    } else {
      UnlockedBoot(p, s, e);
      MarkerOfHosts(u, s);
      hide Step;
      hide Inv;
      hide EventValid;
    }
  }

  lemma StaleEnabled(p: Platform, s: State, value: Option<nat>, key: Key)
    requires MarkerAt(Clear(s.hosts)).None?
    ensures var t := WriteEnabled(p, s, value, key).state;
      Stale(t) <==> Stale(s) && !TakesAway(p, s, EnabledStore(value, key))
  {
    hide MarkerAt;
    hide Clear;
    hide Update;
    hide Header;
    hide Written;
    hide ZERO_KEY;
  }

  lemma StaleDisable(p: Platform, s: State, buf: string, key: Key)
    requires MarkerAt(Clear(s.hosts)).None?
    ensures var t := WriteDisable(p, s, buf, key).state;
      Stale(t) <==> Stale(s) && !TakesAway(p, s, DisableStore(buf, key))
    ensures var t := WriteUnblock(p, s, buf).state;
      Stale(t) <==> Stale(s) && !TakesAway(p, s, UnblockStore(buf))
  {
    hide MarkerAt;
    hide Clear;
    hide KeyOfText;
    DisableClears(s);
    hide DisableBlocking;
  }

  lemma StaleWork(s: State)
    requires MarkerAt(Clear(s.hosts)).None?
    ensures Stale(ExpireWork(s)) <==> Stale(s)
  {
    hide MarkerAt;
    hide Clear;
    DisableClears(s);
    if s.enabled && RemainingSeconds(s) > 0 {
      TickKeepsHosts(s);
    }
    hide DisableBlocking;
    hide Remaining.Line;
  }

  lemma StaleList(p: Platform, s: State, text: string)
    ensures Stale(WriteDomains(s, text).state) <==> Stale(s)
    ensures Stale(WriteIps(p, s, text).state) <==> Stale(s)
    ensures Stale(WriteAllowed(p, s, text).state) <==> Stale(s)
  {
    hide MarkerAt;
    hide CStr;
    hide StateWriter.ParseDomains;
    hide StateWriter.ParseIps;
    hide Allowlist.ParseAllowed;
  }

  lemma StalePlain(s: State, value: Option<bool>, seconds: nat)
    ensures Stale(WritePgp(s, value).state) <==> Stale(s)
    ensures Stale(ReadKey(s).state) <==> Stale(s)
    ensures Stale(s.(clock := s.clock + seconds)) <==> Stale(s)
  {
    hide MarkerAt;
    hide KeyText;
    hide ZERO_KEY;
  }

  /**
   After a step there is a block without a session exactly when the step is a crash or unload of a session
   without PGP that blocks domains, or when there was one before and the step does not take it away.
   */
  lemma StaleStep(p: Platform, u: string, s: State, e: Event)
    requires p.Valid() && Inv(p, s) && EventValid(s, e)
    requires UserText(u) && Roomy(u) && HostsHold(u, s)
    ensures Stale(Step(p, s, e).state) <==> Leaves(s, e) || (Stale(s) && !TakesAway(p, s, e))
  {
    hide Inv;
    hide EventValid;
    hide UserText;
    hide Roomy;
    hide HostsHold;
    hide Stale;
    hide MarkerAt;
    hide Clear;
    hide WriteEnabled;
    hide WriteDisable;
    hide WriteUnblock;
    hide ReadKey;
    hide WritePgp;
    hide WriteDomains;
    hide WriteIps;
    hide WriteAllowed;
    hide ExpireWork;
    hide Crash;
    hide Reload;
    hide KeyFits;
    MarkerOfHosts(u, s);
    match e
    case EnabledStore(value, key) => StaleEnabled(p, s, value, key);
    case DisableStore(buf, key) => StaleDisable(p, s, buf, key);
    case UnblockStore(buf) => StaleDisable(p, s, buf, ZERO_KEY);
    case KeyShow => StalePlain(s, None, 0);
    case PgpStore(value) => StalePlain(s, value, 0);
    case Advance(seconds) => StalePlain(s, None, seconds);
    case DomainsStore(text) => StaleList(p, s, text);
    case IpsStore(text) => StaleList(p, s, text);
    case AllowedStore(text) => StaleList(p, s, text);
    case Work => StaleWork(s);
    case Crashes(_, _, _) => StaleBoot(p, u, s, e);
    case Reloads(_) => StaleBoot(p, u, s, e);
  }

  // ---- Runs ----

  ghost predicate NeverStale(p: Platform, s: State, es: seq<Event>) {
    if es == [] then !Stale(s)
    else NeverStale(p, s, es[..|es| - 1]) && !Stale(Exec(p, s, es))
  }

  ghost predicate NeverLeaves(p: Platform, s: State, es: seq<Event>) {
    es == [] || (NeverLeaves(p, s, es[..|es| - 1]) && !Leaves(Exec(p, s, es[..|es| - 1]), es[|es| - 1]))
  }

  lemma {:induction false} NeverStaleNow(p: Platform, s: State, es: seq<Event>)
    requires NeverStale(p, s, es)
    ensures !Stale(Exec(p, s, es))
  {
  }

  /** No state of a run has a block without a session exactly when no step of it leaves one behind. */
  lemma {:induction false} NeverStaleIff(p: Platform, u: string, s: State, es: seq<Event>)
    requires p.Valid() && Inv(p, s) && RunValid(p, s, es)
    requires UserText(u) && Roomy(u) && HostsHold(u, s) && !Stale(s)
    ensures NeverStale(p, s, es) <==> NeverLeaves(p, s, es)
  {
    hide Inv;
    hide Step;
    hide EventValid;
    hide UserText;
    hide Roomy;
    hide HostsHold;
    hide Stale;
    hide Leaves;
    hide TakesAway;
    if es != [] {
      var init, e := es[..|es| - 1], es[|es| - 1];
      RunPrefix(p, s, es);
      NeverStaleIff(p, u, s, init);
      RunKeeps(p, s, init);
      RunHostsHold(p, u, s, init);
      StaleStep(p, u, Exec(p, s, init), e);
      if NeverStale(p, s, init) {
        NeverStaleNow(p, s, init);
      }
    }
  }

  // ---- It happens ----

  /** The domain "a", written as it is stored. */
  lemma OneDomainStored()
    ensures StateWriter.ParseDomains("a") == Some(["a"]) && Domains.IsNormal("a")
  {
    assert Domains.IsNormal("a");
    Domains.NormalIffFixpoint("a");
    CStrOfClean("a");
    SplitSingle("a", NL);
    hide Domains.Normalize;
    assert Allowlist.Strim("a") == "a" && !Allowlist.Skipped("a");
    assert StateWriter.StrimEnd("a") == "a";
    hide Allowlist.Strim;
    hide StateWriter.StrimEnd;
    var none: seq<string> := [];
    assert none + ["a"] == ["a"];
    assert StateWriter.StoreDomain("a", none) == Some(["a"]);
    assert ["a"][1..] == [];
  }

  /** A list, a session without PGP, a power loss. */
  function LossRun(seconds: nat, key: Key, clock: nat): seq<Event> {
    [DomainsStore("a"), EnabledStore(Some(seconds), key), Crashes("", clock, key)]
  }

  /** From a first boot, those three steps end with nothing enabled and a block in the hosts file. */
  lemma StaleIsReached(p: Platform, u: string, clock: nat, k0: Key, key: Key, seconds: nat, later: nat)
    requires p.Valid() && UserText(u) && Roomy(u) && 0 < seconds <= MAX_SESSION_SECONDS
    ensures var s := Initial(p, u, clock, k0); var es := LossRun(seconds, key, later);
      RunValid(p, s, es) && !Stale(s) && Stale(Exec(p, s, es)) && !Exec(p, s, es).enabled
  {
    hide Inv;
    hide Step;
    hide HostsHold;
    hide UserText;
    hide Roomy;
    hide MarkerAt;
    hide Initial;
    hide TakesAway;
    hide Locked;
    var s := Initial(p, u, clock, k0);
    InitialIs(p, u, clock, k0);
    InitialInv(p, u, clock, k0);
    InitialHostsHold(p, u, clock, k0);
    UserTextHasNoMarker(u);
    LossRunIs(p, s, seconds, key, later);
    hide Exec;
    LossRunKeeps(p, u, s, seconds, key, later);
    BlockingIsReached(p, s, seconds, key);
    var s2 := Step(p, Step(p, s, DomainsStore("a")).state, EnabledStore(Some(seconds), key)).state;
    StaleStep(p, u, s2, Crashes("", later, key));
  }

  /** The run step by step. */
  lemma LossRunIs(p: Platform, s: State, seconds: nat, key: Key, later: nat)
    ensures var es := LossRun(seconds, key, later);
      var s1 := Step(p, s, es[0]).state; var s2 := Step(p, s1, es[1]).state;
      && Exec(p, s, es[..0]) == s && Exec(p, s, es[..1]) == s1 && Exec(p, s, es[..2]) == s2
      && Exec(p, s, es) == Step(p, s2, es[2]).state
      && RunValid(p, s, es)
  {
    hide Step;
    var es := LossRun(seconds, key, later);
    NothingRun(p, s);
    ExecSnoc(p, s, [], es[0]);
    ExecSnoc(p, s, [es[0]], es[1]);
    ExecSnoc(p, s, [es[0], es[1]], es[2]);
    assert es[..0] == [] && es[..1] == [] + [es[0]] && es[..2] == [es[0]] + [es[1]];
    assert es == [es[0], es[1]] + [es[2]];
    hide Exec;
    assert forall n | 0 <= n < |es| :: EventValid(Exec(p, s, es[..n]), es[n]);
  }

  lemma LossRunKeeps(p: Platform, u: string, s: State, seconds: nat, key: Key, later: nat)
    requires p.Valid() && UserText(u) && Inv(p, s) && HostsHold(u, s)
    ensures var t := Step(p, Step(p, s, DomainsStore("a")).state, EnabledStore(Some(seconds), key)).state;
      Inv(p, t) && HostsHold(u, t) && EventValid(t, Crashes("", later, key))
  {
    hide Inv;
    hide Step;
    hide HostsHold;
    hide UserText;
    var e0, e1 := DomainsStore("a"), EnabledStore(Some(seconds), key);
    var s1 := Step(p, s, e0).state;
    StepKeeps(p, s, e0);
    HostsStep(p, u, s, e0);
    StepKeeps(p, s1, e1);
    HostsStep(p, u, s1, e1);
  }

  lemma InitialIs(p: Platform, u: string, clock: nat, k0: Key)
    ensures var s := Initial(p, u, clock, k0); !s.enabled && !s.pgpActive && s.hosts == u
  {
    hide ZERO_KEY;
    hide ZERO_HASH;
  }

  lemma BlockingIsReached(p: Platform, s: State, seconds: nat, key: Key)
    requires !s.enabled && !s.pgpActive && 0 < seconds <= MAX_SESSION_SECONDS
    ensures var t := Step(p, Step(p, s, DomainsStore("a")).state, EnabledStore(Some(seconds), key)).state;
      t.enabled && !t.pgpActive && t.lists.domains == ["a"]
  {
    OneDomainStored();
    hide StateWriter.ParseDomains;
    hide Update;
    hide Clear;
    hide Header;
    hide Written;
    hide ZERO_KEY;
  }
}
