/**
 What the control files answer (src/main.c, src/state.c): while a session runs, all they accept is what ends
 it; otherwise they take what is well formed, and what was written is what a session then enforces.
 */
module SessionWrites {
  import opened Wrappers
  import opened Strings
  import opened Keys
  import opened Platform
  import opened Allowlist
  import opened StateFile
  import opened Session
  import opened SessionInvariant
  import opened SessionRuns
  import opened SessionEnds
  import opened StoredLists
  import StateWriter
  import HostsFile
  import Remaining
  import Domains

  predicate IsWrite(e: Event) { !e.KeyShow? && !e.Work? && !e.Advance? && !e.Crashes? && !e.Reloads? }

  /** Accepted, or refused with nothing changed. */
  predicate Answered(s: State, o: Outcome, accepted: bool) {
    if accepted then o.reply == Done else o.reply.Refused? && o.state == s
  }

  // ---- While a session runs ----

  /** Every write during a session is refused and changes nothing, except those that end it. */
  lemma OnlyEndingWrites(p: Platform, s: State, e: Event)
    requires s.enabled && IsWrite(e)
    ensures Answered(s, Step(p, s, e), EndingWrite(p, s, e))
  {
    hide KeyFits;
    hide WriteEnabled;
    hide WriteDisable;
    hide WriteUnblock;
    hide WritePgp;
    hide WriteDomains;
    hide WriteIps;
    hide WriteAllowed;
    hide Answered;
    match e
    case EnabledStore(value, key) => EnabledAnswer(p, s, value, key);
    case DisableStore(buf, key) => KeyAnswer(p, s, buf, key);
    case UnblockStore(buf) => KeyAnswer(p, s, buf, ZERO_KEY);
    case PgpStore(value) => PgpAnswer(s, value);
    case DomainsStore(text) => ListAnswer(p, s, text);
    case IpsStore(text) => ListAnswer(p, s, text);
    case AllowedStore(text) => ListAnswer(p, s, text);
  }

  lemma EnabledAnswer(p: Platform, s: State, value: Option<nat>, key: Key)
    ensures Answered(s, WriteEnabled(p, s, value, key),
                     if s.enabled then value == Some(0) && !s.pgpActive
                     else value.Some? && value.value <= MAX_SESSION_SECONDS)
  {
    hide StartSession;
    hide DisableBlocking;
    hide ArmKey;
    hide GenerateKey;
    hide HostsFile.Clear;
  }

  lemma KeyAnswer(p: Platform, s: State, buf: string, key: Key)
    ensures Answered(s, WriteDisable(p, s, buf, key), !s.pgpActive || KeyFits(p, s, buf))
    ensures Answered(s, WriteUnblock(p, s, buf), KeyFits(p, s, buf))
  {
    hide KeyOfText;
    hide DisableBlocking;
    hide GenerateKey;
    hide ZERO_KEY;
    hide ZERO_HASH;
  }

  lemma PgpAnswer(s: State, value: Option<bool>)
    ensures Answered(s, WritePgp(s, value), !s.enabled && value.Some?)
  {
    hide ZERO_KEY;
  }

  lemma ListAnswer(p: Platform, s: State, text: string)
    ensures Answered(s, WriteDomains(s, text), !s.enabled && StateWriter.ParseDomains(text).Some?)
    ensures Answered(s, WriteIps(p, s, text), !s.enabled)
    ensures Answered(s, WriteAllowed(p, s, text), !s.enabled && ParseAllowed(p, CStr(text), NL).Some?)
  {
    hide StateWriter.ParseDomains;
    hide StateWriter.ParseIps;
    hide ParseAllowed;
    hide CStr;
  }

  // ---- While nothing is enabled ----

  /** All that remains as it was when one list is written. */
  predicate OnlyLists(s: State, t: State, l: Lists) { t == s.(lists := l) }

  /**
   With nothing enabled, a write of domains is refused exactly when a line that counts is no domain or there are
   more than 64 of them; otherwise the list becomes what these lines stand for, and nothing else changes.
   */
  lemma DomainsWritten(p: Platform, s: State, text: string)
    requires !s.enabled
    ensures var o := Step(p, s, DomainsStore(text)); var lines := Split(CStr(text), NL);
      if DomainsOf(lines, None) then o == Outcome(s, Refused(EINVAL))
      else && o.reply == Done && DomainsOf(lines, Some(o.state.lists.domains))
           && OnlyLists(s, o.state, s.lists.(domains := o.state.lists.domains))
  {
    ParseDomainsIs(text);
    DomainsOfExclusive(Split(CStr(text), NL), StateWriter.ParseDomains(text));
    hide StateWriter.ParseDomains;
    hide DomainsOf;
    hide CStr;
  }

  lemma DomainsOfExclusive(lines: seq<string>, r: Option<seq<string>>)
    requires DomainsOf(lines, r)
    ensures r.None? <==> DomainsOf(lines, None)
  {
    hide Places;
    hide LineDomain;
  }

  /** A write of addresses is never refused then; what it stores are the lines that are addresses, as many as fit. */
  lemma IpsWritten(p: Platform, s: State, text: string)
    requires !s.enabled
    ensures var o := Step(p, s, IpsStore(text)); var l := o.state.lists;
      && o.reply == Done && AddrsOf(p, Split(CStr(text), NL), Addrs(l.v4, l.v6))
      && OnlyLists(s, o.state, s.lists.(v4 := l.v4, v6 := l.v6))
  {
    ParseIpsIs(p, text);
    hide StateWriter.ParseIps;
    hide AddrsOf;
    hide CStr;
  }

  /** A write of networks is all or nothing. */
  lemma AllowedWritten(p: Platform, s: State, text: string)
    requires !s.enabled
    ensures var o := Step(p, s, AllowedStore(text)); var tokens := Split(CStr(text), NL);
      if NetsOf(p, tokens, None) then o == Outcome(s, Refused(EINVAL))
      else && o.reply == Done && NetsOf(p, tokens, Some(o.state.lists.allowed))
           && OnlyLists(s, o.state, s.lists.(allowed := o.state.lists.allowed))
  {
    ParseAllowedIs(p, CStr(text), NL);
    NetsOfExclusive(p, Split(CStr(text), NL), ParseAllowed(p, CStr(text), NL));
    AllowedTaken(p, s, text);
    hide *;
  }

  lemma AllowedTaken(p: Platform, s: State, text: string)
    requires !s.enabled
    ensures var r, o := ParseAllowed(p, CStr(text), NL), Step(p, s, AllowedStore(text));
      && (r.None? ==> o == Outcome(s, Refused(EINVAL)))
      && (r.Some? ==> o.reply == Done && o.state.lists.allowed == r.value
                      && OnlyLists(s, o.state, s.lists.(allowed := r.value)))
  {
    hide ParseAllowed;
    hide CStr;
  }

  lemma NetsOfExclusive(p: Platform, tokens: seq<string>, r: Option<Nets>)
    requires NetsOf(p, tokens, r)
    ensures r.None? <==> NetsOf(p, tokens, None)
  {
    hide Places;
  }

  /** Arming and disarming PGP: the flag is what was written, and no key stays readable once it is set. */
  lemma PgpWritten(p: Platform, s: State, value: bool)
    requires Inv(p, s) && !s.enabled
    ensures var o := Step(p, s, PgpStore(Some(value)));
      && o.reply == Done && o.state.pgpActive == value && !o.state.enabled
      && (value && !s.pgpActive ==> o.state.unloadKey == ZERO_KEY)
      && o.state.pgpKeyConsumed && o.state.lists == s.lists && o.state.hosts == s.hosts && o.state.file == s.file
  {
    hide ListsValid;
    hide DiskValid;
  }

  // ---- What a refusal says ----

  /** The text written is one the file knows: a number in range, a key, a flag, a list without bad lines. */
  predicate WellFormed(p: Platform, s: State, e: Event) {
    match e
    case EnabledStore(value, _) => value.Some? && value.value <= MAX_SESSION_SECONDS
    case DisableStore(buf, _) => !s.pgpActive || KeyOfText(buf).Some?
    case UnblockStore(buf) => KeyOfText(buf).Some?
    case PgpStore(value) => value.Some?
    case DomainsStore(text) => StateWriter.ParseDomains(text).Some?
    case AllowedStore(text) => ParseAllowed(p, CStr(text), NL).Some?
    case _ => true
  }

  /** A refusal is EPERM exactly when what was written was well formed, and ERANGE exactly for a length too long. */
  lemma RefusalSays(p: Platform, s: State, e: Event)
    requires IsWrite(e) && Step(p, s, e).reply.Refused?
    ensures Step(p, s, e).reply.errno == EPERM <==> WellFormed(p, s, e)
    ensures Step(p, s, e).reply.errno == ERANGE
       <==> e.EnabledStore? && e.value.Some? && e.value.value > MAX_SESSION_SECONDS
  {
    hide KeyOfText;
    hide StartSession;
    hide DisableBlocking;
    hide ArmKey;
    hide GenerateKey;
    hide HostsFile.Clear;
    hide StateWriter.ParseDomains;
    hide StateWriter.ParseIps;
    hide ParseAllowed;
    hide CStr;
    hide ZERO_KEY;
    hide ZERO_HASH;
  }

  // ---- From the files to the session ----

  /** The lists are written, PGP is armed or not, and a length is written. */
  function Setup(lines: seq<string>, ips: string, nets: string, pgp: bool, seconds: nat, key: Key): seq<Event> {
    [DomainsStore(Join(lines, NL)), IpsStore(ips), AllowedStore(nets), PgpStore(Some(pgp)),
     EnabledStore(Some(seconds), key)]
  }

  lemma SetupIs(p: Platform, s: State, es: seq<Event>)
    requires |es| == 5 && forall i | 0 <= i < 5 :: !es[i].Crashes?
    ensures RunValid(p, s, es)
    ensures Exec(p, s, es)
         == var t := Step(p, Step(p, s, es[0]).state, es[1]).state;
            Step(p, Step(p, Step(p, t, es[2]).state, es[3]).state, es[4]).state
  {
    hide Step;
    NothingRun(p, s);
    ExecSnoc(p, s, [], es[0]);
    ExecSnoc(p, s, es[..1], es[1]);
    ExecSnoc(p, s, es[..2], es[2]);
    ExecSnoc(p, s, es[..3], es[3]);
    ExecSnoc(p, s, es[..4], es[4]);
    hide Exec;
    assert es[..1] == [] + [es[0]] && es[..2] == es[..1] + [es[1]] && es[..3] == es[..2] + [es[2]];
    assert es[..4] == es[..3] + [es[3]] && es == es[..4] + [es[4]];
  }

  /**
   From any state with nothing enabled: a session that is set up through the files is begun with exactly the domains
   and networks that were written, and those of the addresses that fit.
   */
  lemma SetupBegins(
      p: Platform, s: State, lines: seq<string>, ds: seq<string>, ips: string, nets: Nets,
      pgp: bool, seconds: nat, key: Key)
    requires p.Valid() && Inv(p, s) && !s.enabled && 0 < seconds <= MAX_SESSION_SECONDS && NetsValid(nets)
    requires AreLines(lines) && |ds| <= Domains.MAX_DOMAINS
    requires forall i | 0 <= i < |ds| :: Domains.IsNormal(ds[i])
    requires |Places(lines, Counts)| == |ds| && forall i | 0 <= i < |ds| :: lines[Places(lines, Counts)[i]] == ds[i]
    ensures var es := Setup(lines, ips, FormatAllowed(p, nets, NL), pgp, seconds, key); var t := Exec(p, s, es);
      && RunValid(p, s, es) && Inv(p, t)
      && t.enabled && t.pgpActive == pgp && t.expiry == t.clock + seconds && t.keyHash == p.sha256(key)
      && t.lists.domains == ds && t.lists.allowed == nets
      && AddrsOf(p, Split(CStr(ips), NL), Addrs(t.lists.v4, t.lists.v6))
      && t.hosts == HostsFile.Update(s.hosts, ds)
  {
    DomainsRoundTrip(lines, ds);
    NetsRoundTrip(p, nets);
    hide *;
    var text := FormatAllowed(p, nets, NL);
    SetupEvents(lines, ips, text, pgp, seconds, key);
    FiveSteps(p, s, Setup(lines, ips, text, pgp, seconds, key), ds, nets, seconds);
  }

  lemma FiveSteps(p: Platform, s: State, es: seq<Event>, ds: seq<string>, nets: Nets, seconds: nat)
    requires p.Valid() && Inv(p, s) && !s.enabled && 0 < seconds <= MAX_SESSION_SECONDS
    requires |es| == 5 && es[0].DomainsStore? && es[1].IpsStore? && es[2].AllowedStore?
    requires es[3].PgpStore? && es[3].pgp.Some? && es[4].EnabledStore? && es[4].value == Some(seconds)
    requires StateWriter.ParseDomains(es[0].text) == Some(ds) && ParseAllowed(p, CStr(es[2].text), NL) == Some(nets)
    ensures var t := Exec(p, s, es);
      && RunValid(p, s, es) && Inv(p, t)
      && t.enabled && t.pgpActive == es[3].pgp.value && t.expiry == t.clock + seconds
      && t.keyHash == p.sha256(es[4].freshKey) && t.lists.domains == ds && t.lists.allowed == nets
      && AddrsOf(p, Split(CStr(es[1].text), NL), Addrs(t.lists.v4, t.lists.v6))
      && t.hosts == HostsFile.Update(s.hosts, ds)
  {
    hide *;
    SetupIs(p, s, es);
    RunKeeps(p, s, es);
    FilesWritten(p, s, es[0], es[1], es[2], ds, nets);
    LockedUp(p, Step(p, Step(p, Step(p, s, es[0]).state, es[1]).state, es[2]).state, es[3], es[4], seconds);
  }

  lemma FilesWritten(p: Platform, s: State, e0: Event, e1: Event, e2: Event, ds: seq<string>, nets: Nets)
    requires !s.enabled && e0.DomainsStore? && e1.IpsStore? && e2.AllowedStore?
    requires StateWriter.ParseDomains(e0.text) == Some(ds) && ParseAllowed(p, CStr(e2.text), NL) == Some(nets)
    ensures var t := Step(p, Step(p, Step(p, s, e0).state, e1).state, e2).state;
      && !t.enabled && t.hosts == s.hosts && t.lists.domains == ds && t.lists.allowed == nets
      && AddrsOf(p, Split(CStr(e1.text), NL), Addrs(t.lists.v4, t.lists.v6))
  {
    hide Step;
    hide StateWriter.ParseDomains;
    hide ParseAllowed;
    hide AddrsOf;
    hide CStr;
    DomainsTaken(p, s, e0.text, ds);
    var t1 := Step(p, s, e0).state;
    IpsTaken(p, t1, e1.text);
    NetsTaken(p, Step(p, t1, e1).state, e2.text, nets);
  }

  lemma LockedUp(p: Platform, s: State, e3: Event, e4: Event, seconds: nat)
    requires !s.enabled && e3.PgpStore? && e3.pgp.Some?
    requires e4.EnabledStore? && e4.value == Some(seconds) && 0 < seconds <= MAX_SESSION_SECONDS
    ensures var t := Step(p, Step(p, s, e3).state, e4).state;
      && t.enabled && t.pgpActive == e3.pgp.value && t.expiry == t.clock + seconds
      && t.keyHash == p.sha256(e4.freshKey) && t.lists == s.lists
      && t.hosts == HostsFile.Update(s.hosts, s.lists.domains)
  {
    hide Step;
    hide HostsFile.Update;
    Armed(p, s, e3.pgp.value);
    SessionBegun(p, Step(p, s, e3).state, seconds, e4.freshKey);
  }

  lemma SetupEvents(lines: seq<string>, ips: string, nets: string, pgp: bool, seconds: nat, key: Key)
    ensures var es := Setup(lines, ips, nets, pgp, seconds, key);
      && |es| == 5 && es[0] == DomainsStore(Join(lines, NL)) && es[1] == IpsStore(ips) && es[2] == AllowedStore(nets)
      && es[3] == PgpStore(Some(pgp)) && es[4] == EnabledStore(Some(seconds), key)
  {
    hide Join;
  }

  lemma NetsRoundTrip(p: Platform, nets: Nets)
    requires p.Valid() && NetsValid(nets)
    ensures ParseAllowed(p, CStr(FormatAllowed(p, nets, NL)), NL) == Some(nets)
  {
    AllowedRoundTrip(p, nets, NL);
    SeparatorNotInItems(p, nets, NUL);
    TerminatedClean(Texts4(nets.v4) + Texts6(p, nets.v6));
    CStrOfClean(FormatAllowed(p, nets, NL));
    hide ParseAllowed;
    hide NetsValid;
    hide CStr;
    hide Terminated;
  }

  lemma {:induction false} TerminatedClean(items: seq<string>)
    requires AllWithout(items, NUL)
    ensures NUL !in Terminated(items, NL)
  {
    if items != [] {
      TerminatedClean(items[1..]);
    }
  }

  /** Still nothing enabled, nothing lifted or written, and these lists. */
  predicate Prepared(s: State, t: State, l: Lists) { !t.enabled && t.hosts == s.hosts && t.lists == l }

  lemma DomainsTaken(p: Platform, s: State, text: string, ds: seq<string>)
    requires !s.enabled && StateWriter.ParseDomains(text) == Some(ds)
    ensures Prepared(s, Step(p, s, DomainsStore(text)).state, s.lists.(domains := ds))
  {
    hide StateWriter.ParseDomains;
  }

  lemma IpsTaken(p: Platform, s: State, text: string)
    requires !s.enabled
    ensures var t := Step(p, s, IpsStore(text)).state;
      && AddrsOf(p, Split(CStr(text), NL), Addrs(t.lists.v4, t.lists.v6))
      && Prepared(s, t, s.lists.(v4 := t.lists.v4, v6 := t.lists.v6))
  {
    IpsWritten(p, s, text);
    hide Step;
    hide AddrsOf;
    hide CStr;
  }

  lemma NetsTaken(p: Platform, s: State, text: string, nets: Nets)
    requires !s.enabled && ParseAllowed(p, CStr(text), NL) == Some(nets)
    ensures Prepared(s, Step(p, s, AllowedStore(text)).state, s.lists.(allowed := nets))
  {
    AllowedTaken(p, s, text);
    hide Step;
    hide ParseAllowed;
    hide CStr;
  }

  lemma Armed(p: Platform, s: State, pgp: bool)
    requires !s.enabled
    ensures var t := Step(p, s, PgpStore(Some(pgp))).state; Prepared(s, t, s.lists) && t.pgpActive == pgp
  {
    hide ZERO_KEY;
  }

  lemma SessionBegun(p: Platform, s: State, seconds: nat, key: Key)
    requires !s.enabled && 0 < seconds <= MAX_SESSION_SECONDS
    ensures var t := Step(p, s, EnabledStore(Some(seconds), key)).state;
      && t.enabled && t.pgpActive == s.pgpActive && t.expiry == t.clock + seconds && t.keyHash == p.sha256(key)
      && t.lists == s.lists && t.hosts == HostsFile.Update(s.hosts, s.lists.domains)
  {
    EnableBegins(p, s, Some(seconds), key);
    hide Step;
    hide HostsFile.Update;
  }
}
