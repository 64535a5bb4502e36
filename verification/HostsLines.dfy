/**
 The hosts file line by line: what an update leaves in it for the resolver, told without the formatter, and
 that a running session's file is just that.
 */
module HostsLines {
  import opened Wrappers
  import opened Strings
  import opened HostsFile
  import opened Platform
  import opened StateFile
  import opened Session
  import opened SessionInvariant
  import opened SessionHosts
  import Domains

  /** The four lines that send a domain and its "www." name nowhere. */
  function LinesOf(d: string): seq<string> { ["0.0.0.0 " + d, ":: " + d, "0.0.0.0 www." + d, ":: www." + d] }

  /**
   The user's lines, an empty one, the marker, the lines of each domain in the order of the list, an empty line,
   and nothing after its newline.
   */
  ghost predicate IsBlockedFile(lines: seq<string>, user: seq<string>, domains: seq<string>) {
    var n := |user| + 2;
    && |lines| == n + 4 * |domains| + 2
    && lines[..n] == user + ["", MARKER]
    && (forall i | 0 <= i < |domains| :: lines[n + 4 * i..n + 4 * i + 4] == LinesOf(domains[i]))
    && lines[n + 4 * |domains|..] == ["", ""]
  }

  // ---- Text and lines ----

  function AllLines(domains: seq<string>): (r: seq<string>)
    ensures |r| == 4 * |domains|
  {
    if domains == [] then [] else AllLines(domains[..|domains| - 1]) + LinesOf(domains[|domains| - 1])
  }

  lemma {:induction false} LinesAt(domains: seq<string>, i: nat)
    requires i < |domains|
    ensures AllLines(domains)[4 * i..4 * i + 4] == LinesOf(domains[i])
  {
    var init := domains[..|domains| - 1];
    if i < |init| {
      LinesAt(init, i);
      assert AllLines(domains)[4 * i..4 * i + 4] == AllLines(init)[4 * i..4 * i + 4];
    }
  }

  lemma FourLines(a: string, b: string, c: string, d: string)
    ensures Terminated([a, b, c, d], NL) == a + ("\n" + b) + ("\n" + c) + ("\n" + d) + "\n"
  {
    assert [a, b, c, d][1..] == [b, c, d] && [b, c, d][1..] == [c, d] && [c, d][1..] == [d] && [d][1..] == [];
    assert Terminated([d], NL) == d + "\n";
    assert Terminated([c, d], NL) == c + "\n" + (d + "\n");
    assert Terminated([b, c, d], NL) == b + "\n" + (c + "\n" + (d + "\n"));
  }

  /** One entry is its four lines, each with its newline. */
  lemma EntryIsLines(d: string)
    ensures Entry(d) == Terminated(LinesOf(d), NL)
  {
    var l := LinesOf(d);
    FourLines(l[0], l[1], l[2], l[3]);
    assert "\n:: " + d == "\n" + l[1];
    assert "\n0.0.0.0 www." + d == "\n" + l[2] && "\n:: www." + d == "\n" + l[3];
    hide Terminated;
  }

  lemma {:induction false} EntriesAreLines(domains: seq<string>)
    ensures Entries(domains) == Terminated(AllLines(domains), NL)
  {
    if domains != [] {
      var init, d := domains[..|domains| - 1], domains[|domains| - 1];
      EntriesAreLines(init);
      EntryIsLines(d);
      TerminatedAppend(AllLines(init), LinesOf(d), NL);
      hide Entry;
      hide LinesOf;
      hide Terminated;
    }
  }

  lemma BlockIsLines(domains: seq<string>)
    ensures Block(domains) == [NL] + Terminated(["", MARKER] + AllLines(domains) + [""], NL)
  {
    EntriesAreLines(domains);
    TerminatedAppend(["", MARKER] + AllLines(domains), [""], NL);
    TerminatedAppend(["", MARKER], AllLines(domains), NL);
    hide Entries;
    hide AllLines;
    hide MARKER;
    assert ["", MARKER][1..] == [MARKER] && [MARKER][1..] == [] && [""][1..] == [];
    assert Terminated([MARKER], NL) == MARKER + [NL];
    assert Terminated(["", MARKER], NL) == [NL] + Terminated([MARKER], NL);
    assert Terminated([""], NL) == [NL];
  }

  lemma LinesClean(d: string)
    requires Domains.IsNormal(d)
    ensures AllWithout(LinesOf(d), NL)
  {
    assert NL !in d;
    hide Domains.IsNormal;
  }

  lemma {:induction false} AllLinesClean(domains: seq<string>)
    requires forall i | 0 <= i < |domains| :: Domains.IsNormal(domains[i])
    ensures AllWithout(AllLines(domains), NL)
  {
    hide Domains.IsNormal;
    if domains != [] {
      AllLinesClean(domains[..|domains| - 1]);
      LinesClean(domains[|domains| - 1]);
      hide LinesOf;
    }
  }

  /** The lines of any text with a block of normal domains under it. */
  lemma LinesWithBlock(text: string, domains: seq<string>)
    requires forall i | 0 <= i < |domains| :: Domains.IsNormal(domains[i])
    ensures IsBlockedFile(Split(text + Block(domains), NL), Split(text, NL), domains)
  {
    var items := ["", MARKER] + AllLines(domains) + [""];
    BlockIsLines(domains);
    AllLinesClean(domains);
    MarkerPlain();
    forall i | 0 <= i < |domains| ensures AllLines(domains)[4 * i..4 * i + 4] == LinesOf(domains[i]) {
      LinesAt(domains, i);
    }
    hide *;
    assert text + Block(domains) == text + [NL] + Terminated(items, NL);
    SplitAt(text, NL, Terminated(items, NL));
    assert AllWithout(items, NL) by { CleanAround(AllLines(domains)); }
    SplitTerminated(items, NL);
    Around(Split(text, NL), AllLines(domains), domains);
  }

  lemma CleanAround(l: seq<string>)
    requires AllWithout(l, NL) && NL !in MARKER
    ensures AllWithout(["", MARKER] + l + [""], NL)
  {
    hide MARKER;
  }

  lemma Around(user: seq<string>, l: seq<string>, domains: seq<string>)
    requires |l| == 4 * |domains| && forall i | 0 <= i < |domains| :: l[4 * i..4 * i + 4] == LinesOf(domains[i])
    ensures IsBlockedFile(user + (["", MARKER] + l + [""] + [""]), user, domains)
  {
    hide MARKER;
    hide LinesOf;
    var n, lines := |user| + 2, user + (["", MARKER] + l + [""] + [""]);
    assert lines == user + ["", MARKER] + l + ["", ""];
    forall i | 0 <= i < |domains| ensures lines[n + 4 * i..n + 4 * i + 4] == LinesOf(domains[i]) {
      assert lines[n + 4 * i..n + 4 * i + 4] == l[4 * i..4 * i + 4];
    }
    assert lines[..n] == user + ["", MARKER];
    assert lines[n + 4 * |domains|..] == ["", ""];
  }

  /**
   An update with any domains, whatever form the file is in: of each domain in turn its four lines are there, and
   every other line is the user's, the marker or empty.
   */
  lemma UpdatedLines(u: string, c: Content, domains: seq<string>)
    requires UserText(u) && ContentValid(u, c) && |Bytes(u, c)| <= HOSTS_MAX_SIZE && domains != []
    requires forall i | 0 <= i < |domains| :: Domains.IsNormal(domains[i])
    ensures IsBlockedFile(Split(Update(Bytes(u, c), domains), NL), Split(Stripped(u), NL), domains)
  {
    BaseIsStripped(u, c);
    LinesWithBlock(Stripped(u), domains);
    UpdateIs(Bytes(u, c), domains);
    hide *;
  }

  lemma UpdateIs(file: string, domains: seq<string>)
    requires |file| <= HOSTS_MAX_SIZE && domains != []
    ensures Update(file, domains) == Base(file) + Block(domains)
  {
    hide Base;
    hide Block;
  }

  /** Below the user's text, a name is sent to 0.0.0.0 exactly when it is listed or "www." and a listed domain. */
  lemma NamesBlocked(lines: seq<string>, user: seq<string>, domains: seq<string>, name: string)
    requires IsBlockedFile(lines, user, domains)
    ensures "0.0.0.0 " + name in lines[|user|..]
       <==> exists i :: 0 <= i < |domains| && (name == domains[i] || name == "www." + domains[i])
  {
    var tail := lines[|user|..];
    if i :| 0 <= i < |domains| && (name == domains[i] || name == "www." + domains[i]) {
      LineOfName(domains[i], name);
      LinesThere(lines, user, domains, i);
    }
    if k :| 0 <= k < |tail| && tail[k] == "0.0.0.0 " + name {
      LineFrom(lines, user, domains, k);
      var i := (k - 2) / 4;
      LineOfName(domains[i], name);
    }
  }

  lemma LinesThere(lines: seq<string>, user: seq<string>, domains: seq<string>, i: nat)
    requires IsBlockedFile(lines, user, domains) && i < |domains|
    ensures forall line | line in LinesOf(domains[i]) :: line in lines[|user|..]
  {
    var n, l := |user| + 2, LinesOf(domains[i]);
    forall line | line in l ensures line in lines[|user|..] {
      var k :| 0 <= k < |l| && l[k] == line;
      assert lines[n + 4 * i..n + 4 * i + 4][k] == line;
      assert lines[|user|..][2 + 4 * i + k] == line;
    }
  }

  /** Of the lines below the user's, those that begin with a digit are the domains'. */
  lemma LineFrom(lines: seq<string>, user: seq<string>, domains: seq<string>, k: nat)
    requires IsBlockedFile(lines, user, domains) && k < |lines| - |user|
    requires var line := lines[|user| + k]; line != "" && IsDigit(line[0])
    ensures 2 <= k < 2 + 4 * |domains| && lines[|user| + k] in LinesOf(domains[(k - 2) / 4])
  {
    MarkerPlain();
    hide MARKER;
    hide LinesOf;
    var n, i, j := |user| + 2, (k - 2) / 4, (k - 2) % 4;
    assert lines[..n][|user|] == "" && lines[..n][|user| + 1] == MARKER;
    assert lines[n + 4 * |domains|..][0] == "" && lines[n + 4 * |domains|..][1] == "";
    assert lines[n + 4 * i..n + 4 * i + 4][j] == lines[|user| + k];
  }

  lemma LineOfName(d: string, name: string)
    ensures "0.0.0.0 " + name in LinesOf(d) <==> name == d || name == "www." + d
  {
    var line := "0.0.0.0 " + name;
    assert line[8..] == name && ("0.0.0.0 " + d)[8..] == d;
    assert "0.0.0.0 www." + d == "0.0.0.0 " + ("www." + d);
    assert ("0.0.0.0 " + ("www." + d))[8..] == "www." + d;
    assert line[0] == '0' && (":: " + d)[0] == ':' && (":: www." + d)[0] == ':';
    var l := LinesOf(d);
    assert l[0] == "0.0.0.0 " + d && l[2] == "0.0.0.0 www." + d && l[1][0] == ':' && l[3][0] == ':';
  }

  /**
   In every state of every run in which a session blocks any domains, the hosts file is the user's lines and those
   of the session's domains, provided the user's text leaves room for a block.
   */
  lemma RunningSessionLines(p: Platform, u: string, s: State, es: seq<Event>)
    requires p.Valid() && Inv(p, s) && RunValid(p, s, es)
    requires UserText(u) && Roomy(u) && HostsHold(u, s)
    ensures var t := Exec(p, s, es);
      t.enabled && t.lists.domains != []
      ==> IsBlockedFile(Split(t.hosts, NL), Split(Stripped(u), NL), t.lists.domains)
  {
    RunHostsHold(p, u, s, es);
    RunKeeps(p, s, es);
    var t := Exec(p, s, es);
    DomainsNormal(p, t);
    NormalDomains(t.lists.domains);
    LinesWithBlock(Stripped(u), t.lists.domains);
    HeldBlock(u, t);
    hide *;
  }

  lemma NormalDomains(domains: seq<string>)
    requires OpValid(DoUpdate(domains))
    ensures forall i | 0 <= i < |domains| :: Domains.IsNormal(domains[i])
  {
    hide Domains.IsNormal;
  }

  lemma HeldBlock(u: string, s: State)
    requires Roomy(u) && HostsHold(u, s)
    ensures s.enabled && s.lists.domains != [] ==> s.hosts == Stripped(u) + Block(s.lists.domains)
  {
    hide ContentValid;
    hide Block;
    hide Stripped;
    hide Roomy;
    var c: Content :| HeldAs(u, s, c);
  }
}
