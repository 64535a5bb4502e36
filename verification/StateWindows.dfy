/**
 The two windows suffice: however long the log has grown, and even if its last write was cut off,
 restoring a kernel-written file yields the lists, the key hash and the last complete record.
 */
module StateWindows {
  import opened Wrappers
  import opened Strings
  import opened Keys
  import opened Platform
  import opened Allowlist
  import opened StateFile
  import opened StateRoundTrip
  import Domains
  import Remaining

  // ---- How long a header can get ----

  lemma PreambleLength(seconds: nat, hash: Hash, pgp: bool)
    requires seconds <= Remaining.U64_MAX
    ensures |Preamble(seconds, hash, pgp)| <= 119
  {
    Remaining.LineLength(seconds);
  }

  lemma DomainsPartLength(l: Lists)
    requires ListsValid(l)
    ensures |DomainsPart(l)| <= 9 + MAX_DOMAINS * 256
  {
    JoinLength(l.domains, ',', 255);
  }

  /** No stored IPv6 address prints longer than a given length. */
  ghost predicate TextsWithin(p: Platform, l: Lists, most: nat) {
    && (forall i | 0 <= i < |l.v6| :: |p.v6Text(l.v6[i])| <= most)
    && (forall i | 0 <= i < |l.allowed.v6| :: |p.v6Text(l.allowed.v6[i].addr)| <= most)
  }

  lemma AnyTextsWithin(p: Platform, l: Lists)
    requires p.Valid()
    ensures TextsWithin(p, l, 45)
  {
    forall a: Addr6 ensures |p.v6Text(a)| <= 45 {
      V6Printed(p, a);
    }
  }

  lemma IpsPartLength(p: Platform, l: Lists, most: nat)
    requires ListsValid(l) && TextsWithin(p, l, most)
    ensures |IpsPart(p, l)| <= 13 + MAX_IPS_V4 * 16 + MAX_IPS_V6 * (most + 1)
  {
    hide Dotted;
    hide Terminated;
    forall i | 0 <= i < |l.v4| ensures |Dotteds(l.v4)[i]| <= 15 { DottedShape(l.v4[i]); }
    TerminatedLength(Dotteds(l.v4), ',', 15);
    TerminatedLength(V6Texts(p, l.v6), ',', most);
    MulMonotone(|l.v6|, MAX_IPS_V6, most + 1);
  }

  lemma MulMonotone(x: nat, y: nat, d: nat)
    requires x <= y
    ensures x * d <= y * d
  {
  }

  lemma NetLength(p: Platform, n: Net6, most: nat)
    requires |p.v6Text(n.addr)| <= most
    ensures |NetText6(p, n)| <= most + 4
  {
    assert Pow10(3) == 1000;
    DecimalLength(n.plen, 3);
  }

  lemma AllowedPartLength(p: Platform, l: Lists, most: nat)
    requires ListsValid(l) && TextsWithin(p, l, most)
    ensures |AllowedPart(p, l)| <= 13 + MAX_ALLOWED_NETS * 19 + MAX_ALLOWED_NETS * (most + 5)
  {
    hide NetText4;
    hide NetText6;
    hide Terminated;
    hide IsMasked4;
    hide IsMasked6;
    forall i | 0 <= i < |l.allowed.v4| ensures |NetText4(l.allowed.v4[i])| <= 18 { PrintedShape4(l.allowed.v4[i]); }
    forall i | 0 <= i < |l.allowed.v6| ensures |NetText6(p, l.allowed.v6[i])| <= most + 4 {
      NetLength(p, l.allowed.v6[i], most);
    }
    TerminatedLength(Texts4(l.allowed.v4), ',', 18);
    TerminatedLength(Texts6(p, l.allowed.v6), ',', most + 4);
    MulMonotone(|l.allowed.v6|, MAX_ALLOWED_NETS, most + 5);
    TerminatedAppend(Texts4(l.allowed.v4), Texts6(p, l.allowed.v6), ',');
  }

  lemma HeaderLength(p: Platform, seconds: nat, hash: Hash, pgp: bool, l: Lists, most: nat)
    requires ListsValid(l) && seconds <= Remaining.U64_MAX && TextsWithin(p, l, most)
    ensures |Header(p, seconds, hash, pgp, l)|
         <= 154 + MAX_DOMAINS * 256 + MAX_IPS_V4 * 16 + MAX_IPS_V6 * (most + 1) + MAX_ALLOWED_NETS * 19
            + MAX_ALLOWED_NETS * (most + 5)
  {
    PreambleLength(seconds, hash, pgp);
    DomainsPartLength(l);
    IpsPartLength(p, l, most);
    AllowedPartLength(p, l, most);
    hide Preamble;
    hide DomainsPart;
    hide IpsPart;
    hide AllowedPart;
    hide ListsValid;
    hide TextsWithin;
  }

  /** Full lists fit the buffer when no IPv6 address prints longer than eight groups of four digits. */
  lemma HeaderFits(p: Platform, seconds: nat, hash: Hash, pgp: bool, l: Lists)
    requires ListsValid(l) && seconds <= Remaining.U64_MAX && TextsWithin(p, l, 39)
    ensures |Header(p, seconds, hash, pgp, l)| < HEADER_BUFFER
  {
    HeaderLength(p, seconds, hash, pgp, l, 39);
    hide Header;
    hide ListsValid;
    hide TextsWithin;
  }

  /** Every record fits the head window, with room for a torn append. */
  lemma HeaderFitsHead(p: Platform, seconds: nat, hash: Hash, pgp: bool, l: Lists)
    requires p.Valid() && ListsValid(l) && seconds <= Remaining.U64_MAX
    ensures |Header(p, seconds, hash, pgp, l)| + 31 <= STATE_HEAD_MAX
  {
    AnyTextsWithin(p, l);
    HeaderLength(p, seconds, hash, pgp, l, 45);
    hide Header;
    hide ListsValid;
    hide TextsWithin;
  }

  // ---- The log ----

  lemma LineOnly(v: nat)
    ensures Only(Remaining.Line(v), IsLogChar)
  {
    RemainingLineOnly(v);
    assert Remaining.Line(v) == RemainingLine(v) + [NL];
  }

  lemma TornOnly(t: string)
    requires Remaining.Torn(t)
    ensures Only(t, IsLogChar) && |t| <= 30
  {
    var v: nat :| v <= Remaining.U64_MAX && t < Remaining.Line(v);
    LineOnly(v);
    Remaining.LineLength(v);
    forall i | 0 <= i < |t| ensures IsLogChar(t[i]) {
      assert t[i] == Remaining.Line(v)[i];
    }
  }

  lemma {:induction false} LogOnly(values: seq<nat>)
    ensures Only(Remaining.Log(values), IsLogChar)
  {
    if values != [] {
      LogOnly(values[..|values| - 1]);
      LineOnly(values[|values| - 1]);
      OnlyConcat(Remaining.Log(values[..|values| - 1]), Remaining.Line(values[|values| - 1]), IsLogChar);
    }
  }

  /** Text made of whole lines. */
  ghost predicate WholeLines(s: string) { s == "" || s[|s| - 1] == NL }

  lemma LogWholeLines(values: seq<nat>)
    ensures WholeLines(Remaining.Log(values))
  {
  }

  lemma HeaderWholeLines(p: Platform, seconds: nat, hash: Hash, pgp: bool, l: Lists)
    ensures WholeLines(Header(p, seconds, hash, pgp, l)) && Header(p, seconds, hash, pgp, l) != ""
  {
    hide RemainingLine;
    hide KeyLine;
    hide PgpLine;
    hide DomainsLine;
    hide IpsLine;
    hide AllowedLine;
  }

  // ---- No record hides in the header's other lines ----

  /** The header after its first line. */
  function HeaderRest(p: Platform, hash: Hash, pgp: bool, l: Lists): string {
    KeyLine(hash) + [NL] + (PgpLine(pgp) + [NL] + (DomainsPart(l) + (IpsPart(p, l) + AllowedPart(p, l))))
  }

  lemma HeaderIsLineAndRest(p: Platform, seconds: nat, hash: Hash, pgp: bool, l: Lists)
    ensures Header(p, seconds, hash, pgp, l) == Remaining.Line(seconds) + HeaderRest(p, hash, pgp, l)
  {
    hide KeyLine;
    hide PgpLine;
    hide DomainsPart;
    hide IpsPart;
    hide AllowedPart;
    hide Decimal;
    assert Remaining.Line(seconds) == RemainingLine(seconds) + [NL];
  }

  lemma AbsentAppend(line: string, rest: string, tag: string)
    requires tag != "" && NL !in tag && Absent(line, tag) && Absent(rest, tag)
    ensures Absent(line + [NL] + rest, tag)
  {
    hide OccursAt;
    var s := line + [NL] + rest;
    forall i | 0 <= i <= |s| ensures !OccursAt(s, tag, i) {
      if i <= |line| {
        OccursPastLine(line, rest, tag, i);
      } else {
        OccursShift(line + [NL], rest, tag, i - |line| - 1);
      }
    }
  }

  lemma AllowedPartTagless(p: Platform, l: Lists)
    requires p.Valid() && ListsValid(l)
    ensures Absent(AllowedPart(p, l), Remaining.TAG)
  {
    hide AllowedLine;
    AllowedLineOnly(p, l, c => c != 'r');
    OnlyExcludes(AllowedLine(p, l), c => c != 'r', 'r');
    AbsentByChar(AllowedLine(p, l), Remaining.TAG, 0);
    AbsentByChar("", Remaining.TAG, 0);
    AbsentAppend(AllowedLine(p, l), "", Remaining.TAG);
    assert AllowedLine(p, l) + [NL] + "" == AllowedLine(p, l) + [NL];
  }

  lemma IpsPartTagless(p: Platform, l: Lists, rest: string)
    requires p.Valid() && Absent(rest, Remaining.TAG)
    ensures Absent(IpsPart(p, l) + rest, Remaining.TAG)
  {
    IpsLineOnly(p, l, c => c != 'r');
    hide IpsLine;
    OnlyExcludes(IpsLine(p, l), c => c != 'r', 'r');
    AbsentByChar(IpsLine(p, l), Remaining.TAG, 0);
    AbsentAppend(IpsLine(p, l), rest, Remaining.TAG);
    assert "" + rest == rest;
  }

  lemma DomainsPartTagless(l: Lists, rest: string)
    requires ListsValid(l) && Absent(rest, Remaining.TAG)
    ensures Absent(DomainsPart(l) + rest, Remaining.TAG)
  {
    DomainsLineAbsent(l, Remaining.TAG);
    hide DomainsLine;
    AbsentAppend(DomainsLine(l), rest, Remaining.TAG);
    assert "" + rest == rest;
  }

  lemma HeaderRestTagless(p: Platform, hash: Hash, pgp: bool, l: Lists)
    requires p.Valid() && ListsValid(l)
    ensures Absent(HeaderRest(p, hash, pgp, l), Remaining.TAG)
  {
    AllowedPartTagless(p, l);
    IpsPartTagless(p, l, AllowedPart(p, l));
    DomainsPartTagless(l, IpsPart(p, l) + AllowedPart(p, l));
    PgpLineOnly(pgp);
    OnlyExcludes(PgpLine(pgp), IsPgpChar, 'r');
    AbsentByChar(PgpLine(pgp), Remaining.TAG, 0);
    KeyLineOnly(hash);
    OnlyExcludes(KeyLine(hash), IsKeyChar, 'r');
    AbsentByChar(KeyLine(hash), Remaining.TAG, 0);
    assert NL !in Remaining.TAG;
    hide Absent;
    hide KeyLine;
    hide PgpLine;
    hide DomainsPart;
    hide IpsPart;
    hide AllowedPart;
    AbsentAppend(PgpLine(pgp), DomainsPart(l) + (IpsPart(p, l) + AllowedPart(p, l)), Remaining.TAG);
    var lists := DomainsPart(l) + (IpsPart(p, l) + AllowedPart(p, l));
    AbsentAppend(KeyLine(hash), PgpLine(pgp) + [NL] + lists, Remaining.TAG);
  }

  lemma AbsentBefore(lines: string, rest: string, tag: string, i: nat)
    requires Absent(lines, tag) && WholeLines(lines) && NL !in tag && i < |lines|
    ensures !OccursAt(lines + rest, tag, i)
  {
    var s := lines + rest;
    if i + |tag| <= |lines| {
      assert s[i..i + |tag|] == lines[i..i + |tag|];
      assert !OccursAt(lines, tag, i);
    } else {
      OccursChar(s, tag, i, |lines| - 1 - i);
      assert tag[|lines| - 1 - i] in tag;
    }
  }

  /** Past the first character of an unlogged file, and of any tail of it, there is no record. */
  lemma UnloggedHasNoRecord(first: string, v: nat, rest: string, t: string, j: nat)
    requires |first| <= |Remaining.Line(v)| && first == Remaining.Line(v)[|Remaining.Line(v)| - |first|..]
    requires |first| == |Remaining.Line(v)| ==> j > 0
    requires Absent(rest, Remaining.TAG) && WholeLines(rest) && Remaining.Torn(t)
    ensures Remaining.RecordAt(first + (rest + t), j).None?
  {
    hide Remaining.Line;
    hide OccursAt;
    var s := first + (rest + t);
    if j < |first| {
      var k := |Remaining.Line(v)| - |first| + j;
      assert s[j] == first[j] == Remaining.Line(v)[k];
      Remaining.InsideLine(v, k);
      OccursChar(s, Remaining.TAG, j, 0);
      Remaining.NoTagNoRecord(s, j);
    } else if j < |first| + |rest| {
      assert NL !in Remaining.TAG;
      AbsentBefore(rest, t, Remaining.TAG, j - |first|);
      OccursShift(first, rest + t, Remaining.TAG, j - |first|);
      Remaining.NoTagNoRecord(s, j);
    } else {
      assert s[|s| - |t|..] == t;
      Remaining.TornHasNoRecord(s, t, j);
    }
  }

  lemma AbsentSuffix(s: string, tag: string, k: nat)
    requires k <= |s| && Absent(s, tag)
    ensures Absent(s[k..], tag)
  {
    forall i | 0 <= i <= |s[k..]| ensures !OccursAt(s[k..], tag, i) {
      OccursShift(s[..k], s[k..], tag, i);
      assert s[..k] + s[k..] == s;
      assert !OccursAt(s, tag, k + i);
    }
  }

  /** A text cut at k, when it is made of two. */
  lemma SuffixOfConcat(a: string, b: string, k: nat)
    requires k <= |a| + |b|
    ensures (a + b)[k..] == if k <= |a| then a[k..] + b else b[k - |a|..]
  {
  }

  // ---- A whole file ----

  /** What is on disk: a header, the records appended since, and what is left of a cut-off write. */
  function StateText(p: Platform, seconds: nat, hash: Hash, pgp: bool, l: Lists, values: seq<nat>, torn: string): string
  {
    Header(p, seconds, hash, pgp, l) + (Remaining.Log(values) + torn)
  }

  /** The time a file records: the last appended value, or the header's. */
  function LastSaved(seconds: nat, values: seq<nat>): nat {
    if values == [] then seconds else values[|values| - 1]
  }

  ghost predicate TimesValid(seconds: nat, values: seq<nat>) {
    && 0 < seconds <= Remaining.U64_MAX
    && forall i | 0 <= i < |values| :: 0 < values[i] <= Remaining.U64_MAX
  }

  lemma UnloggedText(p: Platform, seconds: nat, hash: Hash, pgp: bool, l: Lists, torn: string)
    ensures StateText(p, seconds, hash, pgp, l, [], torn)
         == Remaining.Line(seconds) + (HeaderRest(p, hash, pgp, l) + torn)
  {
    HeaderIsLineAndRest(p, seconds, hash, pgp, l);
    hide Header;
    hide HeaderRest;
    hide Remaining.Line;
    assert Remaining.Log([]) == "";
  }

  lemma LoggedText(p: Platform, seconds: nat, hash: Hash, pgp: bool, l: Lists, init: seq<nat>, v: nat, torn: string)
    ensures var before := Header(p, seconds, hash, pgp, l) + Remaining.Log(init);
      && StateText(p, seconds, hash, pgp, l, init + [v], torn) == before + (Remaining.Line(v) + torn)
      && WholeLines(before)
  {
    HeaderWholeLines(p, seconds, hash, pgp, l);
    LogWholeLines(init);
    hide Header;
    hide Remaining.Line;
    hide Remaining.Log;
    Remaining.LogSnoc(init, v);
  }

  /** Scanning the whole file gives the last complete record. */
  lemma FullScan(p: Platform, seconds: nat, hash: Hash, pgp: bool, l: Lists, values: seq<nat>, torn: string)
    requires p.Valid() && ListsValid(l) && TimesValid(seconds, values) && Remaining.Torn(torn)
    ensures Remaining.LastRemaining(StateText(p, seconds, hash, pgp, l, values, torn)) == LastSaved(seconds, values)
  {
    if values == [] {
      assert LastSaved(seconds, values) == seconds <= Remaining.U64_MAX;
      hide *;
      HeaderRestTagless(p, hash, pgp, l);
      HeaderRestWholeLines(p, hash, pgp, l);
      UnloggedFullScan(seconds, HeaderRest(p, hash, pgp, l), torn);
      UnloggedText(p, seconds, hash, pgp, l, torn);
    } else {
      var init := values[..|values| - 1];
      var v := values[|values| - 1];
      assert LastSaved(seconds, values) == v <= Remaining.U64_MAX;
      assert values == init + [v];
      hide *;
      LoggedText(p, seconds, hash, pgp, l, init, v, torn);
      var before := Header(p, seconds, hash, pgp, l) + Remaining.Log(init);
      LoggedTail(before, v, torn, 0);
      assert (before + (Remaining.Line(v) + torn))[0..] == before + (Remaining.Line(v) + torn);
    }
  }

  lemma HeaderRestWholeLines(p: Platform, hash: Hash, pgp: bool, l: Lists)
    ensures WholeLines(HeaderRest(p, hash, pgp, l))
  {
    hide KeyLine;
    hide PgpLine;
    hide DomainsLine;
    hide IpsLine;
    hide AllowedLine;
  }

  lemma UnloggedFullScan(seconds: nat, rest: string, torn: string)
    requires seconds <= Remaining.U64_MAX && Remaining.Torn(torn)
    requires Absent(rest, Remaining.TAG) && WholeLines(rest)
    ensures Remaining.LastRemaining(Remaining.Line(seconds) + (rest + torn)) == seconds
  {
    var first := Remaining.Line(seconds);
    var s := first + (rest + torn);
    Remaining.LineRecord("", seconds, rest + torn);
    assert "" + first + (rest + torn) == s;
    Remaining.InsideLine(seconds, 0);
    assert first[|first| - |first|..] == first;
    hide *;
    forall j | 0 < j < |s| ensures Remaining.RecordAt(s, j).None? {
      UnloggedHasNoRecord(first, seconds, rest, torn, j);
    }
    Remaining.LastRemainingIs(s, 0, seconds);
  }

  /** Once anything was appended, the tail window holds the last complete record. */
  lemma LoggedTail(before: string, v: nat, torn: string, k: nat)
    requires v <= Remaining.U64_MAX && Remaining.Torn(torn) && WholeLines(before)
    requires k <= |before|
    ensures Remaining.LastRemaining((before + (Remaining.Line(v) + torn))[k..]) == v
  {
    hide Remaining.LastRemaining;
    hide Remaining.Line;
    SuffixOfConcat(before, Remaining.Line(v) + torn, k);
    assert before[k..] + (Remaining.Line(v) + torn) == before[k..] + Remaining.Line(v) + torn;
    Remaining.LastOfLogged(before[k..], v, torn);
  }

  /** Before that, a tail that starts past the beginning of the file holds no record at all. */
  lemma UnloggedTail(seconds: nat, rest: string, torn: string, k: nat)
    requires Remaining.Torn(torn) && Absent(rest, Remaining.TAG) && WholeLines(rest)
    requires 0 < k <= |Remaining.Line(seconds)| + |rest|
    ensures Remaining.LastRemaining((Remaining.Line(seconds) + (rest + torn))[k..]) == 0
  {
    var line := Remaining.Line(seconds);
    if k <= |line| {
      hide *;
      SuffixOfConcat(line, rest + torn, k);
      TailHasNoRecord(seconds, line[k..], rest, torn);
    } else {
      var m := k - |line|;
      assert WholeLines(rest[m..]);
      assert line[|line|..] == "";
      hide *;
      SuffixOfConcat(line, rest + torn, k);
      SuffixOfConcat(rest, torn, m);
      AbsentSuffix(rest, Remaining.TAG, m);
      TailHasNoRecord(seconds, "", rest[m..], torn);
      assert "" + (rest[m..] + torn) == rest[m..] + torn;
    }
  }

  lemma TailHasNoRecord(seconds: nat, first: string, rest: string, torn: string)
    requires |first| < |Remaining.Line(seconds)|
    requires first == Remaining.Line(seconds)[|Remaining.Line(seconds)| - |first|..]
    requires Remaining.Torn(torn) && Absent(rest, Remaining.TAG) && WholeLines(rest)
    ensures Remaining.LastRemaining(first + (rest + torn)) == 0
  {
    hide *;
    var s := first + (rest + torn);
    forall j | 0 <= j < |s| ensures Remaining.RecordAt(s, j).None? {
      UnloggedHasNoRecord(first, seconds, rest, torn, j);
    }
    Remaining.LastRemainingNone(s);
  }

  // ---- NUL bytes ----

  lemma PreambleClean(seconds: nat, hash: Hash, pgp: bool)
    ensures NUL !in Preamble(seconds, hash, pgp)
  {
    RemainingLineOnly(seconds);
    OnlyExcludes(RemainingLine(seconds), IsRemainingChar, NUL);
    KeyLineOnly(hash);
    OnlyExcludes(KeyLine(hash), IsKeyChar, NUL);
    PgpLineOnly(pgp);
    OnlyExcludes(PgpLine(pgp), IsPgpChar, NUL);
    hide RemainingLine;
    hide KeyLine;
    hide PgpLine;
    hide Only;
  }

  lemma DomainsPartClean(l: Lists)
    requires ListsValid(l)
    ensures NUL !in DomainsPart(l)
  {
    DomainListOnly(l);
    OnlyExcludes(Join(l.domains, ','), IsDomainListChar, NUL);
    hide Join;
    hide Only;
  }

  lemma IpsPartClean(p: Platform, l: Lists)
    requires p.Valid()
    ensures NUL !in IpsPart(p, l)
  {
    IpsLineOnly(p, l, c => c != NUL);
    hide IpsLine;
    OnlyExcludes(IpsLine(p, l), c => c != NUL, NUL);
  }

  lemma AllowedPartClean(p: Platform, l: Lists)
    requires p.Valid() && ListsValid(l)
    ensures NUL !in AllowedPart(p, l)
  {
    AllowedLineOnly(p, l, c => c != NUL);
    hide AllowedLine;
    OnlyExcludes(AllowedLine(p, l), c => c != NUL, NUL);
  }

  lemma HeaderClean(p: Platform, seconds: nat, hash: Hash, pgp: bool, l: Lists)
    requires p.Valid() && ListsValid(l)
    ensures NUL !in Header(p, seconds, hash, pgp, l)
  {
    PreambleClean(seconds, hash, pgp);
    DomainsPartClean(l);
    IpsPartClean(p, l);
    AllowedPartClean(p, l);
    hide Preamble;
    hide DomainsPart;
    hide IpsPart;
    hide AllowedPart;
  }

  lemma CleanPrefix(s: string, k: nat)
    requires NUL !in s && k <= |s|
    ensures CStr(s[..k]) == s[..k]
  {
    CStrOfClean(s[..k]);
  }

  lemma CleanSuffix(s: string, k: nat)
    requires NUL !in s && k <= |s|
    ensures CStr(s[k..]) == s[k..]
  {
    CStrOfClean(s[k..]);
  }

  // ---- The windows ----

  lemma StateTextClean(p: Platform, seconds: nat, hash: Hash, pgp: bool, l: Lists, values: seq<nat>, torn: string)
    requires p.Valid() && ListsValid(l) && Remaining.Torn(torn)
    ensures NUL !in StateText(p, seconds, hash, pgp, l, values, torn)
    ensures Only(Remaining.Log(values) + torn, IsLogChar)
  {
    HeaderClean(p, seconds, hash, pgp, l);
    LogOnly(values);
    TornOnly(torn);
    hide Header;
    OnlyConcat(Remaining.Log(values), torn, IsLogChar);
    OnlyExcludes(Remaining.Log(values) + torn, IsLogChar, NUL);
  }

  /** The tail window of a file that has a log, and of one that has none. */
  lemma TailOfLogged(
      p: Platform, seconds: nat, hash: Hash, pgp: bool, l: Lists, init: seq<nat>, v: nat, torn: string, k: nat)
    requires v <= Remaining.U64_MAX && Remaining.Torn(torn)
    requires var file := StateText(p, seconds, hash, pgp, l, init + [v], torn);
      k == if |file| <= STATE_TAIL_MAX then 0 else |file| - STATE_TAIL_MAX
    ensures Remaining.LastRemaining(StateText(p, seconds, hash, pgp, l, init + [v], torn)[k..]) == v
  {
    TornOnly(torn);
    hide *;
    LoggedText(p, seconds, hash, pgp, l, init, v, torn);
    Remaining.LineLength(v);
    LoggedTail(Header(p, seconds, hash, pgp, l) + Remaining.Log(init), v, torn, k);
  }

  lemma TailOfUnlogged(p: Platform, seconds: nat, hash: Hash, pgp: bool, l: Lists, torn: string, k: nat)
    requires p.Valid() && ListsValid(l) && Remaining.Torn(torn)
    requires var file := StateText(p, seconds, hash, pgp, l, [], torn);
      0 < k == |file| - STATE_TAIL_MAX
    ensures Remaining.LastRemaining(StateText(p, seconds, hash, pgp, l, [], torn)[k..]) == 0
  {
    TornOnly(torn);
    hide *;
    UnloggedText(p, seconds, hash, pgp, l, torn);
    HeaderRestTagless(p, hash, pgp, l);
    HeaderRestWholeLines(p, hash, pgp, l);
    UnloggedTail(seconds, HeaderRest(p, hash, pgp, l), torn, k);
  }

  lemma UnloggedFitsHead(p: Platform, seconds: nat, hash: Hash, pgp: bool, l: Lists, torn: string)
    requires p.Valid() && ListsValid(l) && Remaining.Torn(torn) && seconds <= Remaining.U64_MAX
    ensures Head(StateText(p, seconds, hash, pgp, l, [], torn)) == StateText(p, seconds, hash, pgp, l, [], torn)
  {
    var file := StateText(p, seconds, hash, pgp, l, [], torn);
    HeaderFitsHead(p, seconds, hash, pgp, l);
    TornOnly(torn);
    StateTextClean(p, seconds, hash, pgp, l, [], torn);
    hide Header;
    assert Remaining.Log([]) == "";
    CStrOfClean(file);
  }

  lemma TailIs(file: string) returns (k: nat)
    requires NUL !in file
    ensures k == if |file| <= STATE_TAIL_MAX then 0 else |file| - STATE_TAIL_MAX
    ensures Tail(file) == file[k..]
  {
    k := if |file| <= STATE_TAIL_MAX then 0 else |file| - STATE_TAIL_MAX;
    CleanSuffix(file, k);
    assert file[0..] == file;
  }

  /** Reading 128 bytes of tail, then the head, is as good as scanning the whole file. */
  lemma WindowsRefineFullScan(
      p: Platform, seconds: nat, hash: Hash, pgp: bool, l: Lists, values: seq<nat>, torn: string)
    requires p.Valid() && ListsValid(l) && TimesValid(seconds, values) && Remaining.Torn(torn)
    ensures var file := StateText(p, seconds, hash, pgp, l, values, torn);
      ReadRemaining(file) == Remaining.LastRemaining(file) == LastSaved(seconds, values)
  {
    hide Remaining.LastRemaining;
    hide Remaining.Torn;
    hide StateText;
    hide ListsValid;
    hide Tail;
    hide Head;
    var file := StateText(p, seconds, hash, pgp, l, values, torn);
    FullScan(p, seconds, hash, pgp, l, values, torn);
    StateTextClean(p, seconds, hash, pgp, l, values, torn);
    var k := TailIs(file);
    if values != [] {
      var init := values[..|values| - 1];
      var v := values[|values| - 1];
      assert values == init + [v];
      TailOfLogged(p, seconds, hash, pgp, l, init, v, torn, k);
    } else {
      if k > 0 {
        TailOfUnlogged(p, seconds, hash, pgp, l, torn, k);
      } else {
        assert file[0..] == file;
      }
      UnloggedFitsHead(p, seconds, hash, pgp, l, torn);
    }
  }

  /** The head window shows the whole header, then some of the log. */
  lemma HeadIs(p: Platform, seconds: nat, hash: Hash, pgp: bool, l: Lists, values: seq<nat>, torn: string)
    returns (visible: string)
    requires p.Valid() && ListsValid(l) && seconds <= Remaining.U64_MAX && Remaining.Torn(torn)
    ensures Head(StateText(p, seconds, hash, pgp, l, values, torn)) == Header(p, seconds, hash, pgp, l) + visible
    ensures Only(visible, IsLogChar)
  {
    var log := Remaining.Log(values) + torn;
    StateTextClean(p, seconds, hash, pgp, l, values, torn);
    HeaderFitsHead(p, seconds, hash, pgp, l);
    hide Header;
    hide Remaining.Log;
    hide IsLogChar;
    visible := HeadOf(Header(p, seconds, hash, pgp, l), log);
  }

  lemma HeadOf(header: string, log: string) returns (visible: string)
    requires NUL !in header + log && |header| <= STATE_HEAD_MAX
    ensures Head(header + log) == header + visible
    ensures visible <= log
  {
    var file := header + log;
    var seen := if |file| <= STATE_HEAD_MAX then |file| else STATE_HEAD_MAX;
    CleanPrefix(file, seen);
    assert file[..|file|] == file;
    visible := log[..seen - |header|];
    assert file[..seen] == header + visible;
  }

  lemma RestoreIs(p: Platform, file: string, l: Lists, hash: Hash, rem: nat)
    requires file != "" && rem != 0
    requires RestoreLists(p, Head(file), NO_LISTS) == l && RestoreHash(Head(file)) == Some(hash)
    requires ReadRemaining(file) == rem
    ensures Restore(p, file, NO_LISTS)
         == Restored(l, Some((hash, if rem < MAX_SESSION_SECONDS then rem else MAX_SESSION_SECONDS)))
  {
    hide RestoreLists;
    hide RestoreHash;
    hide ReadRemaining;
    hide Head;
  }

  lemma HeaderParts(p: Platform, seconds: nat, hash: Hash, pgp: bool, l: Lists)
    ensures Header(p, seconds, hash, pgp, l)
         == Preamble(seconds, hash, pgp) + (DomainsPart(l) + (IpsPart(p, l) + AllowedPart(p, l)))
  {
  }

  lemma HeaderHash(p: Platform, seconds: nat, hash: Hash, pgp: bool, l: Lists, log: string)
    ensures RestoreHash(Header(p, seconds, hash, pgp, l) + log) == Some(hash)
  {
    hide *;
    var preamble, lists := Preamble(seconds, hash, pgp), DomainsPart(l) + (IpsPart(p, l) + AllowedPart(p, l));
    HeaderParts(p, seconds, hash, pgp, l);
    assert preamble + lists + log == preamble + (lists + log);
    HashRoundTrip(seconds, hash, pgp, lists + log);
  }

  /**
   Restoring a kernel-written file into empty memory: the lists and the key hash it was written with,
   and the last complete record, capped at the longest session.
   */
  lemma RestoreRoundTrip(p: Platform, seconds: nat, hash: Hash, pgp: bool, l: Lists, values: seq<nat>, torn: string)
    requires p.Valid() && ListsValid(l) && TimesValid(seconds, values) && Remaining.Torn(torn)
    ensures Restore(p, StateText(p, seconds, hash, pgp, l, values, torn), NO_LISTS)
         == var saved := LastSaved(seconds, values);
            Restored(l, Some((hash, if saved < MAX_SESSION_SECONDS then saved else MAX_SESSION_SECONDS)))
  {
    var file := StateText(p, seconds, hash, pgp, l, values, torn);
    HeaderWholeLines(p, seconds, hash, pgp, l);
    hide Header;
    assert file != "" && LastSaved(seconds, values) != 0 && seconds <= Remaining.U64_MAX;
    hide *;
    WindowsRefineFullScan(p, seconds, hash, pgp, l, values, torn);
    var visible := HeadIs(p, seconds, hash, pgp, l, values, torn);
    ListsRoundTrip(p, seconds, hash, pgp, l, visible);
    HeaderHash(p, seconds, hash, pgp, l, visible);
    RestoreIs(p, file, l, hash, LastSaved(seconds, values));
  }
}
