/**
 The hosts file over whole runs of the session machine: whatever happens, it is the user's text with at
 most one block under it, and while a session runs that block is the session's.
 */
module SessionHosts {
  import opened Wrappers
  import opened Strings
  import opened Keys
  import opened Platform
  import opened StateFile
  import opened Session
  import opened SessionInvariant
  import opened HostsFile
  import opened SessionEnds
  import StateWriter
  import Allowlist
  import Remaining

  /** The content a running session asks for. */
  predicate Wanted(domains: seq<string>, c: Content) {
    if domains == [] then !c.Blocked? else c == Blocked(domains)
  }

  /** The file is the user's text in one of its forms; if that leaves room, in the form a running session wants. */
  ghost predicate HostsHold(u: string, s: State) { exists c: Content :: HeldAs(u, s, c) }

  ghost predicate HeldAs(u: string, s: State, c: Content) {
    && ContentValid(u, c) && Limited(c) && s.hosts == Bytes(u, c)
    && (Roomy(u) && s.enabled ==> Wanted(s.lists.domains, c))
  }

  /** The only things a step does to the file: nothing, a clear, or an update with the lists it starts. */
  predicate HostsMove(s: State, t: State) {
    || (t.hosts == s.hosts && (t.enabled ==> s.enabled && t.lists == s.lists))
    || (t.hosts == Clear(s.hosts) && !t.enabled)
    || (t.hosts == Update(s.hosts, t.lists.domains) && t.enabled)
  }

  lemma BootMove(p: Platform, s: State, file: string, clock: nat, key: Key)
    ensures HostsMove(s, Boot(p, file, s.hosts, clock, key))
  {
    hide Update;
    hide Clear;
    hide Restore;
    hide Header;
    hide Written;
  }

  lemma EnableMove(p: Platform, s: State, value: Option<nat>, key: Key)
    ensures HostsMove(s, WriteEnabled(p, s, value, key).state)
  {
    DisableClears(s);
    hide DisableBlocking;
    hide Update;
    hide Clear;
    hide Header;
    hide Written;
  }

  lemma DisableMove(p: Platform, s: State, buf: string, key: Key)
    ensures HostsMove(s, WriteDisable(p, s, buf, key).state)
  {
    DisableClears(s);
    hide DisableBlocking;
    hide Update;
    hide Clear;
    hide KeyOfText;
    hide Remaining.Line;
    hide ZERO_KEY;
    hide ZERO_HASH;
  }

  lemma UnblockMove(p: Platform, s: State, buf: string)
    ensures HostsMove(s, WriteUnblock(p, s, buf).state)
  {
    DisableClears(s);
    hide DisableBlocking;
    hide Update;
    hide Clear;
    hide KeyOfText;
    hide Remaining.Line;
    hide ZERO_KEY;
    hide ZERO_HASH;
  }

  lemma WorkMove(s: State)
    ensures HostsMove(s, ExpireWork(s))
  {
    DisableClears(s);
    if s.enabled && RemainingSeconds(s) > 0 {
      TickKeepsHosts(s);
    }
    hide DisableBlocking;
    hide Update;
    hide Clear;
    hide Remaining.Line;
  }

  lemma TickKeepsHosts(s: State)
    requires s.enabled && RemainingSeconds(s) > 0
    ensures ExpireWork(s).hosts == s.hosts && ExpireWork(s).lists == s.lists && ExpireWork(s).enabled
  {
    WorkCounts(s);
    hide ExpireWork;
    hide RemainingSeconds;
    hide Remaining.Line;
  }

  lemma DisableClears(s: State)
    ensures DisableBlocking(s).hosts == Clear(s.hosts) && !DisableBlocking(s).enabled
  {
    hide Clear;
  }

  lemma ListMove(p: Platform, s: State, text: string)
    ensures HostsMove(s, WriteDomains(s, text).state)
    ensures HostsMove(s, WriteIps(p, s, text).state)
    ensures HostsMove(s, WriteAllowed(p, s, text).state)
  {
    hide Update;
    hide Clear;
    hide CStr;
    hide StateWriter.ParseDomains;
    hide StateWriter.ParseIps;
    hide Allowlist.ParseAllowed;
  }

  lemma PlainMove(p: Platform, s: State, value: Option<bool>, seconds: nat)
    ensures HostsMove(s, WritePgp(s, value).state)
    ensures HostsMove(s, ReadKey(s).state)
    ensures HostsMove(s, s.(clock := s.clock + seconds))
  {
    hide Update;
    hide Clear;
    hide KeyText;
  }

  lemma StepMove(p: Platform, s: State, e: Event)
    ensures HostsMove(s, Step(p, s, e).state)
  {
    hide HostsMove;
    hide Boot;
    hide WriteEnabled;
    hide WriteDisable;
    hide WriteUnblock;
    hide ReadKey;
    hide WritePgp;
    hide WriteDomains;
    hide WriteIps;
    hide WriteAllowed;
    hide ExpireWork;
    match e
    case Crashes(torn, newClock, key) => BootMove(p, s, s.file + torn, newClock, key);
    case Reloads(key) =>
      BootMove(p, s, s.file, s.clock, key);
      BootMove(p, s, "", s.clock, key);
    case EnabledStore(value, key) => EnableMove(p, s, value, key);
    case DisableStore(buf, key) => DisableMove(p, s, buf, key);
    case UnblockStore(buf) => UnblockMove(p, s, buf);
    case Work => WorkMove(s);
    case DomainsStore(text) => ListMove(p, s, text);
    case IpsStore(text) => ListMove(p, s, text);
    case AllowedStore(text) => ListMove(p, s, text);
    case KeyShow => PlainMove(p, s, None, 0);
    case PgpStore(value) => PlainMove(p, s, value, 0);
    case Advance(seconds) => PlainMove(p, s, None, seconds);
  }

  lemma HostsStep(p: Platform, u: string, s: State, e: Event)
    requires p.Valid() && Inv(p, s) && EventValid(s, e) && UserText(u) && HostsHold(u, s)
    ensures HostsHold(u, Step(p, s, e).state)
  {
    var t := Step(p, s, e).state;
    StepMove(p, s, e);
    StepKeeps(p, s, e);
    hide Step;
    DomainsNormal(p, t);
    hide Inv;
    MoveHolds(u, s, t);
  }

  lemma DomainsNormal(p: Platform, s: State)
    requires Inv(p, s)
    ensures OpValid(DoUpdate(s.lists.domains)) && |s.lists.domains| <= MAX_DOMAINS
  {
    hide FlagsValid;
    hide KeysValid;
    hide DiskValid;
    hide Allowlist.NetsValid;
  }

  lemma MoveHolds(u: string, s: State, t: State)
    requires UserText(u) && HostsHold(u, s)
    requires HostsMove(s, t) && OpValid(DoUpdate(t.lists.domains)) && |t.lists.domains| <= MAX_DOMAINS
    ensures HostsHold(u, t)
  {
    hide ContentValid;
    hide Bytes;
    hide Update;
    hide Clear;
    hide UserText;
    hide OpValid;
    hide Roomy;
    var c: Content :| HeldAs(u, s, c);
    if Roomy(u) {
      RoomyReadable(u, c);
    }
    if t.hosts == Clear(s.hosts) && !t.enabled {
      ClearIsValid();
      ApplyIsNext(u, c, DoClear);
      assert HeldAs(u, t, Next(u, c, DoClear));
    } else if t.hosts == Update(s.hosts, t.lists.domains) && t.enabled {
      ApplyIsNext(u, c, DoUpdate(t.lists.domains));
      assert HeldAs(u, t, Next(u, c, DoUpdate(t.lists.domains)));
    } else {
      assert HeldAs(u, t, c);
    }
  }

  lemma ClearIsValid()
    ensures OpValid(DoClear)
  {
  }

  /**
   Through any run, crashes and reloads included and whatever the sizes, nothing of the user's text is lost
   or doubled; and if that text leaves room for a block, a running session's block is always there.
   */
  lemma {:induction false} RunHostsHold(p: Platform, u: string, s: State, es: seq<Event>)
    requires p.Valid() && Inv(p, s) && RunValid(p, s, es)
    requires UserText(u) && HostsHold(u, s)
    ensures HostsHold(u, Exec(p, s, es))
  {
    hide Inv;
    hide Step;
    hide EventValid;
    hide HostsHold;
    hide UserText;
    if es != [] {
      var init := es[..|es| - 1];
      RunPrefix(p, s, es);
      RunHostsHold(p, u, s, init);
      RunKeeps(p, s, init);
      HostsStep(p, u, Exec(p, s, init), es[|es| - 1]);
    }
  }

  /** On a machine where nothing has run before, whatever its hosts file holds. */
  lemma InitialHostsHold(p: Platform, u: string, clock: nat, key: Key)
    ensures HostsHold(u, Initial(p, u, clock, key))
  {
    EmptyBootUnlocked(p, u, clock, key);
    NothingDone(u);
    hide Bytes;
    hide ContentValid;
    assert HeldAs(u, Initial(p, u, clock, key), Untouched);
  }
}
