/**
 Records that do not fit: what state_file_write_session leaves when the printed lists are longer than its
 buffer, and what restoring makes of that.
 */
module StateCut {
  import opened Wrappers
  import opened Strings
  import opened Keys
  import opened Platform
  import opened Allowlist
  import opened StateFile
  import opened StateRoundTrip
  import opened StateWindows
  import Domains
  import Remaining

  /** A line that has not ended gives no field. */
  lemma UnendedFieldNone(s: string, tag: string)
    requires NL !in s
    ensures Field(s, tag).None?
  {
    if Find(s, tag, 0).Some? {
      FindCharNone(s, NL, Find(s, tag, 0).value + |tag|);
    }
  }

  lemma LinesUnended(p: Platform, l: Lists)
    requires p.Valid() && ListsValid(l)
    ensures NL !in IpsLine(p, l) && NL !in AllowedLine(p, l)
  {
    IpsLineUnended(p, l);
    AllowedLineUnended(p, l);
    hide *;
  }

  lemma IpsLineUnended(p: Platform, l: Lists)
    requires p.Valid()
    ensures NL !in IpsLine(p, l)
  {
    hide IpsLine;
    var ok := (c: char) => c != NL;
    IpsLineOnly(p, l, ok);
    OnlyExcludes(IpsLine(p, l), ok, NL);
  }

  lemma AllowedLineUnended(p: Platform, l: Lists)
    requires p.Valid() && NetsValid(l.allowed)
    ensures NL !in AllowedLine(p, l)
  {
    hide AllowedLine;
    hide NetsValid;
    var ok := (c: char) => c != NL;
    AllowedLineOnly(p, l, ok);
    OnlyExcludes(AllowedLine(p, l), ok, NL);
  }

  /** A cut through the last two lines of a record leaves the last of them without its end. */
  lemma CutAllowed(p: Platform, l: Lists, m: nat)
    requires p.Valid() && ListsValid(l) && m < |IpsPart(p, l) + AllowedPart(p, l)| && HasAllowed(l)
    ensures Field((IpsPart(p, l) + AllowedPart(p, l))[..m], ALLOWED_TAG).None?
  {
    LinesUnended(p, l);
    hide ListsValid;
    hide IpsLine;
    hide AllowedLine;
    hide Field;
    var ips, allowed := IpsPart(p, l), AllowedPart(p, l);
    var cut := (ips + allowed)[..m];
    if m < |ips| {
      assert cut == IpsLine(p, l)[..m];
      UnendedFieldNone(cut, ALLOWED_TAG);
    } else {
      var rest := allowed[..m - |ips|];
      assert cut == ips + rest;
      IpsPartSkip(p, l, rest, ALLOWED_TAG);
      assert rest == AllowedLine(p, l)[..m - |ips|];
      UnendedFieldNone(rest, ALLOWED_TAG);
    }
  }

  lemma CutIps(p: Platform, l: Lists, m: nat)
    requires p.Valid() && ListsValid(l) && m < |IpsPart(p, l)|
    ensures Field(IpsPart(p, l)[..m], IPS_TAG).None?
  {
    LinesUnended(p, l);
    hide ListsValid;
    hide IpsLine;
    hide AllowedLine;
    hide Field;
    assert IpsPart(p, l)[..m] == IpsLine(p, l)[..m];
    UnendedFieldNone(IpsPart(p, l)[..m], IPS_TAG);
  }

  /** What is cut off is never more than the last two lines. */
  lemma CutParts(p: Platform, seconds: nat, hash: Hash, l: Lists) returns (m: nat)
    requires p.Valid() && ListsValid(l) && seconds <= MAX_SESSION_SECONDS
    requires |Header(p, seconds, hash, true, l)| >= HEADER_BUFFER
    ensures m < |IpsPart(p, l) + AllowedPart(p, l)|
    ensures Written(p, seconds, hash, true, l)
         == Preamble(seconds, hash, true) + (DomainsPart(l) + (IpsPart(p, l) + AllowedPart(p, l))[..m])
  {
    PreambleLength(seconds, hash, true);
    DomainsPartLength(l);
    hide ListsValid;
    hide Preamble;
    hide DomainsPart;
    hide IpsPart;
    hide AllowedPart;
    var front := Preamble(seconds, hash, true) + DomainsPart(l);
    var back := IpsPart(p, l) + AllowedPart(p, l);
    assert Header(p, seconds, hash, true, l) == front + back;
    m := HEADER_BUFFER - 1 - |front|;
    assert (front + back)[..HEADER_BUFFER - 1] == front + back[..m];
    assert front + back[..m] == Preamble(seconds, hash, true) + (DomainsPart(l) + back[..m]);
  }

  lemma WrittenHead(p: Platform, seconds: nat, hash: Hash, l: Lists)
    requires p.Valid() && ListsValid(l) && seconds <= MAX_SESSION_SECONDS
    ensures Head(Written(p, seconds, hash, true, l)) == Written(p, seconds, hash, true, l)
    ensures Written(p, seconds, hash, true, l) != ""
  {
    hide Header;
    hide ListsValid;
    HeaderFitsHead(p, seconds, hash, true, l);
    HeaderClean(p, seconds, hash, true, l);
    HeaderNotEmpty(p, seconds, hash, l);
    ClippedHead(Header(p, seconds, hash, true, l), HEADER_BUFFER - 1);
  }

  /** A prefix of a clean text that fits the head window is what that window shows. */
  lemma ClippedHead(s: string, n: nat)
    requires NUL !in s && |s| <= STATE_HEAD_MAX
    ensures Head(Clip(s, n)) == Clip(s, n)
  {
    var file := Clip(s, n);
    assert forall i | 0 <= i < |file| :: file[i] == s[i];
    hide Clip;
    CStrOfClean(file);
  }

  lemma HeaderNotEmpty(p: Platform, seconds: nat, hash: Hash, l: Lists)
    ensures Header(p, seconds, hash, true, l) != ""
  {
    hide DomainsPart;
    hide IpsPart;
    hide AllowedPart;
  }

  /** A record that was cut off loses its addresses or its allowlist. */
  lemma CutLoses(p: Platform, seconds: nat, hash: Hash, l: Lists)
    requires p.Valid() && ListsValid(l) && seconds <= MAX_SESSION_SECONDS
    requires |Header(p, seconds, hash, true, l)| >= HEADER_BUFFER
    ensures Restore(p, Written(p, seconds, hash, true, l), NO_LISTS).lists != l
  {
    var m := CutParts(p, seconds, hash, l);
    WrittenHead(p, seconds, hash, l);
    DomainsPartLength(l);
    PreambleLength(seconds, hash, true);
    var file := Written(p, seconds, hash, true, l);
    var back := (IpsPart(p, l) + AllowedPart(p, l))[..m];
    if HasAllowed(l) {
      CutAllowed(p, l, m);
      hide *;
      PreambleSkip(seconds, hash, true, DomainsPart(l) + back, ALLOWED_TAG);
      DomainsPartSkip(l, back, ALLOWED_TAG);
      NoAllowedBack(p, file, l);
    } else {
      assert AllowedPart(p, l) == "" && IpsPart(p, l) + "" == IpsPart(p, l);
      CutIps(p, l, m);
      assert HasIps(l);
      hide *;
      PreambleSkip(seconds, hash, true, DomainsPart(l) + back, IPS_TAG);
      DomainsPartSkip(l, back, IPS_TAG);
      NoIpsBack(p, file, l);
    }
  }

  lemma NoAllowedBack(p: Platform, file: string, l: Lists)
    requires file != "" && Head(file) == file && Field(file, ALLOWED_TAG).None? && HasAllowed(l)
    ensures Restore(p, file, NO_LISTS).lists != l
  {
    hide Field;
    hide TakeDomains;
    hide TakeAddrs;
    hide RestoreHash;
    hide ReadRemaining;
    hide Head;
  }

  lemma NoIpsBack(p: Platform, file: string, l: Lists)
    requires file != "" && Head(file) == file && Field(file, IPS_TAG).None? && HasIps(l)
    ensures Restore(p, file, NO_LISTS).lists != l
  {
    hide Field;
    hide TakeDomains;
    hide ParseAllowed;
    hide RestoreHash;
    hide ReadRemaining;
    hide Head;
  }

  /** Restoring what a session wrote gives its lists back exactly when the record fits the buffer. */
  lemma RestoredIffFits(p: Platform, seconds: nat, hash: Hash, l: Lists)
    requires p.Valid() && ListsValid(l) && 0 < seconds <= MAX_SESSION_SECONDS
    ensures Restore(p, Written(p, seconds, hash, true, l), NO_LISTS).lists == l
       <==> |Header(p, seconds, hash, true, l)| < HEADER_BUFFER
  {
    if |Header(p, seconds, hash, true, l)| < HEADER_BUFFER {
      Whole(p, seconds, hash, l);
    } else {
      CutLoses(p, seconds, hash, l);
    }
    hide *;
  }

  lemma Whole(p: Platform, seconds: nat, hash: Hash, l: Lists)
    requires p.Valid() && ListsValid(l) && 0 < seconds <= MAX_SESSION_SECONDS
    requires |Header(p, seconds, hash, true, l)| < HEADER_BUFFER
    ensures Restore(p, Written(p, seconds, hash, true, l), NO_LISTS) == Restored(l, Some((hash, seconds)))
  {
    assert Written(p, seconds, hash, true, l) == Header(p, seconds, hash, true, l);
    hide ListsValid;
    hide Restore;
    hide Written;
    hide Header;
    assert Remaining.Log([]) + "" == "";
    assert StateText(p, seconds, hash, true, l, [], "") == Header(p, seconds, hash, true, l);
    assert "" < Remaining.Line(0);
    RestoreRoundTrip(p, seconds, hash, true, l, [], "");
  }

  // ---- It happens ----

  lemma {:induction false} TerminatedExactly(items: seq<string>, c: char, n: nat)
    requires forall i | 0 <= i < |items| :: |items[i]| == n
    ensures |Terminated(items, c)| == |items| * (n + 1)
  {
    if |items| > 0 {
      TerminatedExactly(items[1..], c, n);
    }
  }

  lemma {:induction false} JoinExactly(items: seq<string>, c: char, n: nat)
    requires |items| > 0 && forall i | 0 <= i < |items| :: |items[i]| == n
    ensures |Join(items, c)| == |items| * (n + 1) - 1
  {
    if |items| > 1 {
      JoinExactly(items[1..], c, n);
    }
  }

  /** Twelve colons, so that texts have 44 characters, as those of addresses with an embedded IPv4 part can. */
  const LEAD: string := "::::::::::::"

  const LAST4: Addr4 := 0xFFFF_FFFF

  function Letters255(): (s: string)
    ensures |s| == 255 && forall i | 0 <= i < 255 :: s[i] == 'a'
  {
    seq(255, i => 'a')
  }

  function Domains64(): (r: seq<string>)
    ensures |r| == MAX_DOMAINS && forall i | 0 <= i < MAX_DOMAINS :: r[i] == Letters255()
  {
    seq(MAX_DOMAINS, i => Letters255())
  }

  function Addrs4(): (r: seq<Addr4>)
    ensures |r| == MAX_IPS_V4 && forall i | 0 <= i < MAX_IPS_V4 :: r[i] == LAST4
  {
    seq(MAX_IPS_V4, i => LAST4)
  }

  function Addrs6(): (r: seq<Addr6>)
    ensures |r| == MAX_IPS_V6 && forall i | 0 <= i < MAX_IPS_V6 :: r[i] == 0
  {
    seq(MAX_IPS_V6, i => 0)
  }

  function Nets64(): (r: seq<Net4>)
    ensures |r| == MAX_ALLOWED_NETS && forall i | 0 <= i < MAX_ALLOWED_NETS :: r[i] == MaskedNet4(LAST4, 32)
  {
    seq(MAX_ALLOWED_NETS, i => MaskedNet4(LAST4, 32))
  }

  /** Every list full of its longest entries, the IPv6 allowlist aside. */
  function FullLists(): Lists { Lists(Domains64(), Addrs4(), Addrs6(), Nets(Nets64(), [])) }

  lemma FullListsValid()
    ensures ListsValid(FullLists())
  {
    MaskedNet4IsMasked(LAST4, 32);
    assert Domains.IsNormal(Letters255());
    hide IsMasked4;
    hide Domains.IsNormal;
    hide MaskedNet4;
  }

  lemma DottedLast()
    ensures |Dotted(LAST4)| == 15
  {
    assert Octets(LAST4) == [255, 255, 255, 255];
    assert |Decimal(255)| == 3;
  }

  lemma NetTextLast()
    ensures |NetText4(MaskedNet4(LAST4, 32))| >= 18
  {
    DottedLast();
    Mask4Is(32);
    assert MaskedNet4(LAST4, 32).addr == LAST4;
    hide Dotted;
    hide MaskedNet4;
    assert |Decimal(32)| == 2;
  }

  lemma FullDomainsLength()
    ensures |DomainsPart(FullLists())| == 16392
  {
    hide Addrs4;
    hide Addrs6;
    hide Nets64;
    hide Join;
    JoinExactly(Domains64(), ',', 255);
  }

  lemma FullIpsLength(p: Platform)
    requires |p.v6Text(0)| == 44
    ensures |IpsPart(p, FullLists())| == 111629
  {
    FullV4Length();
    FullV6Length(p);
    hide Domains64;
    hide Addrs4;
    hide Addrs6;
    hide Nets64;
    hide Dotteds;
    hide V6Texts;
    hide Terminated;
  }

  lemma FullV4Length()
    ensures |Terminated(Dotteds(Addrs4()), ',')| == 65536 && Addrs4() != []
  {
    hide Dotted;
    hide Terminated;
    DottedLast();
    TerminatedExactly(Dotteds(Addrs4()), ',', 15);
  }

  lemma FullV6Length(p: Platform)
    requires |p.v6Text(0)| == 44
    ensures |Terminated(V6Texts(p, Addrs6()), ',')| == 46080
  {
    hide Terminated;
    TerminatedExactly(V6Texts(p, Addrs6()), ',', 44);
  }

  lemma FullAllowedLength(p: Platform)
    ensures |AllowedPart(p, FullLists())| >= 1229
  {
    hide Domains64;
    hide Addrs4;
    hide Addrs6;
    hide NetText4;
    hide FormatAllowed;
    NetTextLast();
    NetsLength(p, Nets64());
  }

  lemma NetsLength(p: Platform, nets: seq<Net4>)
    requires |nets| == 64 && forall i | 0 <= i < 64 :: |NetText4(nets[i])| >= 18
    ensures |FormatAllowed(p, Nets(nets, []), ',')| >= 64 * 19
  {
    hide NetText4;
    assert Texts4(nets) + Texts6(p, []) == Texts4(nets);
    TerminatedAtLeast(Texts4(nets), ',', 18);
  }

  lemma {:induction false} TerminatedAtLeast(items: seq<string>, c: char, n: nat)
    requires forall i | 0 <= i < |items| :: |items[i]| >= n
    ensures |Terminated(items, c)| >= |items| * (n + 1)
  {
    if |items| > 0 {
      TerminatedAtLeast(items[1..], c, n);
    }
  }

  /** Lists within every limit of the module whose record does not fit: a reboot loses them. */
  lemma FullListsLost(seconds: nat, hash: Hash)
    requires 0 < seconds <= MAX_SESSION_SECONDS
    ensures var p, l := SamplePlatform(LEAD), FullLists();
      && p.Valid() && ListsValid(l) && (forall a: Addr6 :: |p.v6Text(a)| == 44)
      && |Header(p, seconds, hash, true, l)| >= HEADER_BUFFER
      && Restore(p, Written(p, seconds, hash, true, l), NO_LISTS).lists != l
  {
    hide *;
    var p, l := SamplePlatform(LEAD), FullLists();
    SampleTexts();
    FullListsValid();
    FullDomainsLength();
    FullIpsLength(p);
    FullAllowedLength(p);
    PreambleAtLeast(seconds, hash);
    PartsOverflow(p, seconds, hash, l);
    RestoredIffFits(p, seconds, hash, l);
  }

  lemma SampleTexts()
    ensures SamplePlatform(LEAD).Valid() && forall a: Addr6 :: |SamplePlatform(LEAD).v6Text(a)| == 44
  {
    SampleIsValid(LEAD);
    hide HexDigits;
  }

  lemma PartsOverflow(p: Platform, seconds: nat, hash: Hash, l: Lists)
    requires |Preamble(seconds, hash, true)| >= 90 && |DomainsPart(l)| == 16392
    requires |IpsPart(p, l)| == 111629 && |AllowedPart(p, l)| >= 1229
    ensures |Header(p, seconds, hash, true, l)| >= HEADER_BUFFER
  {
    hide Preamble;
    hide DomainsPart;
    hide IpsPart;
    hide AllowedPart;
  }

  lemma PreambleAtLeast(seconds: nat, hash: Hash)
    ensures |Preamble(seconds, hash, true)| >= 90
  {
  }
}
