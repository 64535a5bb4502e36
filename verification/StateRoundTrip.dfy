/**
 Restoring reads back what was written: each field of the header, the lists, the key hash, and the
 last complete record of the log, through the head and tail windows.
 */
module StateRoundTrip {
  import opened Wrappers
  import opened Strings
  import opened Keys
  import opened Platform
  import opened Allowlist
  import opened StateFile
  import Domains
  import Remaining

  // ---- The characters of each line ----

  predicate IsRemainingChar(c: char) { IsDigit(c) || c in Remaining.TAG }
  predicate IsKeyChar(c: char) { IsLowerHex(c) || c in KEY_TAG }
  predicate IsPgpChar(c: char) { c == '0' || c == '1' || c in PGP_TAG }
  predicate IsDomainListChar(c: char) { c == ',' || (Domains.IsDomainChar(c) && Domains.ToLower(c) == c) }
  predicate IsIpsChar(c: char) { IsAddrChar(c) || c == ',' }
  predicate IsAllowedChar(c: char) { IsNetChar(c) || c == ',' }

  lemma OnlyTagged(tag: string, body: string, ok: char -> bool)
    requires (forall c | c in tag :: ok(c)) && Only(body, ok)
    ensures Only(tag + body, ok)
  {
    assert forall i | 0 <= i < |tag| :: tag[i] in tag;
  }

  lemma OnlyExcludes(s: string, ok: char -> bool, c: char)
    requires Only(s, ok) && !ok(c)
    ensures c !in s
  {
  }

  lemma RemainingLineOnly(seconds: nat)
    ensures Only(RemainingLine(seconds), IsRemainingChar)
  {
    DecimalRoundTrip(seconds);
    OnlyTagged(Remaining.TAG, Decimal(seconds), IsRemainingChar);
  }

  lemma KeyLineOnly(hash: Hash)
    ensures Only(KeyLine(hash), IsKeyChar)
  {
    HexIsLower(hash);
    OnlyTagged(KEY_TAG, Hex(hash), IsKeyChar);
  }

  lemma PgpLineOnly(pgp: bool)
    ensures Only(PgpLine(pgp), IsPgpChar)
  {
    OnlyTagged(PGP_TAG, if pgp then "1" else "0", IsPgpChar);
  }

  lemma DomainListOnly(l: Lists)
    requires ListsValid(l)
    ensures Only(Join(l.domains, ','), IsDomainListChar)
  {
    JoinOnly(l.domains, ',', IsDomainListChar);
  }

  lemma IpListOnly(p: Platform, l: Lists)
    requires p.Valid()
    ensures Only(Terminated(Dotteds(l.v4), ','), IsIpsChar)
    ensures Only(Terminated(V6Texts(p, l.v6), ','), IsIpsChar)
  {
    hide Dotted;
    forall i | 0 <= i < |l.v4| ensures Only(Dotteds(l.v4)[i], IsIpsChar) {
      DottedShape(l.v4[i]);
    }
    forall i | 0 <= i < |l.v6| ensures Only(V6Texts(p, l.v6)[i], IsIpsChar) {
      V6Printed(p, l.v6[i]);
    }
    TerminatedOnly(Dotteds(l.v4), ',', IsIpsChar);
    TerminatedOnly(V6Texts(p, l.v6), ',', IsIpsChar);
  }

  lemma AllowedListOnly(p: Platform, l: Lists)
    requires p.Valid() && NetsValid(l.allowed)
    ensures Only(FormatAllowed(p, l.allowed, ','), IsAllowedChar)
  {
    hide NetText4;
    hide NetText6;
    PrintedTexts(p, l.allowed);
    var items := Texts4(l.allowed.v4) + Texts6(p, l.allowed.v6);
    forall i | 0 <= i < |items| ensures Only(items[i], IsAllowedChar) {
      assert Only(items[i], IsNetChar);
    }
    TerminatedOnly(items, ',', IsAllowedChar);
  }

  lemma IpsLineOnly(p: Platform, l: Lists, ok: char -> bool)
    requires p.Valid()
    requires (forall c | c in IPS_TAG :: ok(c)) && forall c | IsIpsChar(c) :: ok(c)
    ensures Only(IpsLine(p, l), ok)
  {
    hide Dotteds;
    hide V6Texts;
    IpListOnly(p, l);
    OnlyConcat(Terminated(Dotteds(l.v4), ','), Terminated(V6Texts(p, l.v6), ','), ok);
    OnlyTagged(IPS_TAG, Terminated(Dotteds(l.v4), ',') + Terminated(V6Texts(p, l.v6), ','), ok);
  }

  lemma AllowedLineOnly(p: Platform, l: Lists, ok: char -> bool)
    requires p.Valid() && NetsValid(l.allowed)
    requires (forall c | c in ALLOWED_TAG :: ok(c)) && forall c | IsAllowedChar(c) :: ok(c)
    ensures Only(AllowedLine(p, l), ok)
  {
    AllowedListOnly(p, l);
    OnlyTagged(ALLOWED_TAG, FormatAllowed(p, l.allowed, ','), ok);
  }

  // ---- Which line holds which tag ----

  /** The domain list has no colon, so no tag longer than its own can end in it. */
  lemma DomainsLineAbsent(l: Lists, tag: string)
    requires ListsValid(l) && |tag| > |DOMAINS_TAG| && tag[|tag| - 1] == ':'
    ensures Absent(DomainsLine(l), tag)
  {
    var line := DomainsLine(l);
    DomainListOnly(l);
    forall i | 0 <= i <= |line| ensures !OccursAt(line, tag, i) {
      OccursChar(line, tag, i, |tag| - 1);
      var at := i + |tag| - 1;
      if at < |line| {
        assert line[at] == Join(l.domains, ',')[at - |DOMAINS_TAG|];
      }
    }
  }

  lemma RemainingLineAbsent(seconds: nat, tag: string)
    requires tag in {KEY_TAG, DOMAINS_TAG, IPS_TAG, ALLOWED_TAG}
    ensures Absent(RemainingLine(seconds), tag)
  {
    var k := if tag == KEY_TAG then 0 else if tag == ALLOWED_TAG then 4 else 1;
    RemainingLineOnly(seconds);
    OnlyExcludes(RemainingLine(seconds), IsRemainingChar, tag[k]);
    AbsentByChar(RemainingLine(seconds), tag, k);
  }

  lemma KeyLineAbsent(hash: Hash, tag: string)
    requires tag in {DOMAINS_TAG, IPS_TAG, ALLOWED_TAG}
    ensures Absent(KeyLine(hash), tag)
  {
    var k := if tag == ALLOWED_TAG then 4 else 1;
    KeyLineOnly(hash);
    OnlyExcludes(KeyLine(hash), IsKeyChar, tag[k]);
    AbsentByChar(KeyLine(hash), tag, k);
  }

  lemma PgpLineAbsent(pgp: bool, tag: string)
    requires tag in {DOMAINS_TAG, IPS_TAG, ALLOWED_TAG}
    ensures Absent(PgpLine(pgp), tag)
  {
    var k := if tag == ALLOWED_TAG then 4 else 1;
    PgpLineOnly(pgp);
    OnlyExcludes(PgpLine(pgp), IsPgpChar, tag[k]);
    AbsentByChar(PgpLine(pgp), tag, k);
  }

  /** Fields of the lists have no newline in their tags. */
  lemma TagsPlain()
    ensures forall tag | tag in {KEY_TAG, DOMAINS_TAG, IPS_TAG, ALLOWED_TAG} :: tag != "" && NL !in tag
  {
  }

  /** The lines before the lists hold only their own tags. */
  lemma PreambleSkip(seconds: nat, hash: Hash, pgp: bool, rest: string, tag: string)
    requires tag in {DOMAINS_TAG, IPS_TAG, ALLOWED_TAG}
    ensures Field(Preamble(seconds, hash, pgp) + rest, tag) == Field(rest, tag)
  {
    TagsPlain();
    RemainingLineAbsent(seconds, tag);
    KeyLineAbsent(hash, tag);
    PgpLineAbsent(pgp, tag);
    hide Field;
    hide RemainingLine;
    hide KeyLine;
    hide PgpLine;
    hide Absent;
    var afterKey := PgpLine(pgp) + [NL] + rest;
    var afterRemaining := KeyLine(hash) + [NL] + afterKey;
    assert Preamble(seconds, hash, pgp) + rest == RemainingLine(seconds) + [NL] + afterRemaining;
    FieldSkip(RemainingLine(seconds), afterRemaining, tag);
    FieldSkip(KeyLine(hash), afterKey, tag);
    FieldSkip(PgpLine(pgp), rest, tag);
  }

  /** Nothing in the log holds a field of the header. */
  lemma LogAbsent(log: string, tag: string)
    requires Only(log, IsLogChar)
    requires tag in {DOMAINS_TAG, IPS_TAG, ALLOWED_TAG}
    ensures Absent(log, tag)
  {
    var k := if tag == DOMAINS_TAG then 1 else if tag == IPS_TAG then 1 else 4;
    OnlyExcludes(log, IsLogChar, tag[k]);
    AbsentByChar(log, tag, k);
  }

  predicate IsLogChar(c: char) { IsRemainingChar(c) || c == NL }

  lemma IpsLineAbsent(p: Platform, l: Lists, tag: string)
    requires p.Valid() && tag in {DOMAINS_TAG, ALLOWED_TAG}
    ensures Absent(IpsLine(p, l), tag)
  {
    var k := if tag == DOMAINS_TAG then 2 else 4;
    var c := tag[k];
    assert c == 'm' || c == 'w';
    IpsLineOnly(p, l, x => x != c);
    hide IpsLine;
    OnlyExcludes(IpsLine(p, l), x => x != c, c);
    AbsentByChar(IpsLine(p, l), tag, k);
  }

  lemma IpsPartSkip(p: Platform, l: Lists, rest: string, tag: string)
    requires p.Valid() && tag in {DOMAINS_TAG, ALLOWED_TAG}
    ensures Field(IpsPart(p, l) + rest, tag) == Field(rest, tag)
  {
    TagsPlain();
    IpsLineAbsent(p, l, tag);
    hide Field;
    hide IpsLine;
    hide Absent;
    if HasIps(l) {
      FieldSkip(IpsLine(p, l), rest, tag);
      assert IpsPart(p, l) + rest == IpsLine(p, l) + [NL] + rest;
    } else {
      assert IpsPart(p, l) + rest == rest;
    }
  }

  lemma AllowedLineAbsent(p: Platform, l: Lists, tag: string)
    requires p.Valid() && ListsValid(l) && tag in {DOMAINS_TAG, IPS_TAG}
    ensures Absent(AllowedLine(p, l), tag)
  {
    var k := if tag == DOMAINS_TAG then 2 else 4;
    var c := tag[k];
    assert c == 'm' || c == 'k';
    AllowedLineOnly(p, l, x => x != c);
    hide AllowedLine;
    OnlyExcludes(AllowedLine(p, l), x => x != c, c);
    AbsentByChar(AllowedLine(p, l), tag, k);
  }

  lemma AllowedPartSkip(p: Platform, l: Lists, rest: string, tag: string)
    requires p.Valid() && ListsValid(l) && tag in {DOMAINS_TAG, IPS_TAG}
    ensures Field(AllowedPart(p, l) + rest, tag) == Field(rest, tag)
  {
    TagsPlain();
    AllowedLineAbsent(p, l, tag);
    hide Field;
    hide AllowedLine;
    hide Absent;
    hide ListsValid;
    if HasAllowed(l) {
      FieldSkip(AllowedLine(p, l), rest, tag);
      assert AllowedPart(p, l) + rest == AllowedLine(p, l) + [NL] + rest;
    } else {
      assert AllowedPart(p, l) + rest == rest;
    }
  }

  lemma DomainsPartSkip(l: Lists, rest: string, tag: string)
    requires ListsValid(l) && tag in {IPS_TAG, ALLOWED_TAG}
    ensures Field(DomainsPart(l) + rest, tag) == Field(rest, tag)
  {
    DomainsLineAbsent(l, tag);
    hide Field;
    hide DomainsLine;
    hide Absent;
    if HasDomains(l) {
      FieldSkip(DomainsLine(l), rest, tag);
      assert DomainsPart(l) + rest == DomainsLine(l) + [NL] + rest;
    } else {
      assert DomainsPart(l) + rest == rest;
    }
  }

  /** A tagged line at the front of what is left yields its body. */
  lemma FieldAtFront(tag: string, body: string, rest: string, ok: char -> bool)
    requires body != "" && Only(body, ok) && !ok(NL)
    ensures Field((tag + body) + [NL] + rest, tag) == Some(body)
  {
    OnlyExcludes(body, ok, NL);
    FieldHere(tag, body, rest);
  }

  // ---- The fields of a whole file ----

  /** The parts of a file, in the order the searches cross them. */
  lemma FileParts(p: Platform, seconds: nat, hash: Hash, pgp: bool, l: Lists, log: string)
    ensures Header(p, seconds, hash, pgp, l) + log
         == Preamble(seconds, hash, pgp) + (DomainsPart(l) + (IpsPart(p, l) + (AllowedPart(p, l) + log)))
  {
    hide Preamble;
    hide DomainsPart;
    hide IpsPart;
    hide AllowedPart;
  }

  lemma DomainsField(p: Platform, seconds: nat, hash: Hash, pgp: bool, l: Lists, log: string)
    requires p.Valid() && ListsValid(l) && Only(log, IsLogChar)
    ensures Field(Header(p, seconds, hash, pgp, l) + log, DOMAINS_TAG)
         == if HasDomains(l) then Some(Join(l.domains, ',')) else None
  {
    FileParts(p, seconds, hash, pgp, l, log);
    hide *;
    PreambleSkip(seconds, hash, pgp, DomainsPart(l) + (IpsPart(p, l) + (AllowedPart(p, l) + log)), DOMAINS_TAG);
    DomainsPartHere(l, IpsPart(p, l) + (AllowedPart(p, l) + log));
    IpsPartSkip(p, l, AllowedPart(p, l) + log, DOMAINS_TAG);
    AllowedPartSkip(p, l, log, DOMAINS_TAG);
    LogAbsent(log, DOMAINS_TAG);
    AbsentFieldNone(log, DOMAINS_TAG);
  }

  lemma DomainsPartHere(l: Lists, rest: string)
    requires ListsValid(l)
    ensures Field(DomainsPart(l) + rest, DOMAINS_TAG)
         == if HasDomains(l) then Some(Join(l.domains, ',')) else Field(rest, DOMAINS_TAG)
  {
    DomainListOnly(l);
    if HasDomains(l) {
      assert Domains.IsNormal(l.domains[0]);
      assert Join(l.domains, ',') != "";
    }
    hide Field;
    hide Join;
    if HasDomains(l) {
      assert DomainsPart(l) + rest == (DOMAINS_TAG + Join(l.domains, ',')) + [NL] + rest;
      FieldAtFront(DOMAINS_TAG, Join(l.domains, ','), rest, IsDomainListChar);
    } else {
      assert DomainsPart(l) + rest == rest;
    }
  }

  function IpsBody(p: Platform, l: Lists): string {
    Terminated(Dotteds(l.v4), ',') + Terminated(V6Texts(p, l.v6), ',')
  }

  lemma IpsField(p: Platform, seconds: nat, hash: Hash, pgp: bool, l: Lists, log: string)
    requires p.Valid() && ListsValid(l) && Only(log, IsLogChar)
    ensures Field(Header(p, seconds, hash, pgp, l) + log, IPS_TAG) == if HasIps(l) then Some(IpsBody(p, l)) else None
  {
    FileParts(p, seconds, hash, pgp, l, log);
    hide *;
    PreambleSkip(seconds, hash, pgp, DomainsPart(l) + (IpsPart(p, l) + (AllowedPart(p, l) + log)), IPS_TAG);
    DomainsPartSkip(l, IpsPart(p, l) + (AllowedPart(p, l) + log), IPS_TAG);
    IpsPartHere(p, l, AllowedPart(p, l) + log);
    AllowedPartSkip(p, l, log, IPS_TAG);
    LogAbsent(log, IPS_TAG);
    AbsentFieldNone(log, IPS_TAG);
  }

  lemma IpsPartHere(p: Platform, l: Lists, rest: string)
    requires p.Valid()
    ensures Field(IpsPart(p, l) + rest, IPS_TAG) == if HasIps(l) then Some(IpsBody(p, l)) else Field(rest, IPS_TAG)
  {
    hide Field;
    hide Dotteds;
    hide V6Texts;
    hide Only;
    IpListOnly(p, l);
    OnlyConcat(Terminated(Dotteds(l.v4), ','), Terminated(V6Texts(p, l.v6), ','), IsIpsChar);
    if HasIps(l) {
      assert IpsBody(p, l) != "";
      hide Terminated;
      assert IpsPart(p, l) + rest == (IPS_TAG + IpsBody(p, l)) + [NL] + rest;
      FieldAtFront(IPS_TAG, IpsBody(p, l), rest, IsIpsChar);
    } else {
      assert IpsPart(p, l) + rest == rest;
    }
  }

  lemma AllowedField(p: Platform, seconds: nat, hash: Hash, pgp: bool, l: Lists, log: string)
    requires p.Valid() && ListsValid(l) && Only(log, IsLogChar)
    ensures Field(Header(p, seconds, hash, pgp, l) + log, ALLOWED_TAG)
         == if HasAllowed(l) then Some(FormatAllowed(p, l.allowed, ',')) else None
  {
    FileParts(p, seconds, hash, pgp, l, log);
    hide *;
    PreambleSkip(seconds, hash, pgp, DomainsPart(l) + (IpsPart(p, l) + (AllowedPart(p, l) + log)), ALLOWED_TAG);
    DomainsPartSkip(l, IpsPart(p, l) + (AllowedPart(p, l) + log), ALLOWED_TAG);
    IpsPartSkip(p, l, AllowedPart(p, l) + log, ALLOWED_TAG);
    AllowedPartHere(p, l, log);
    LogAbsent(log, ALLOWED_TAG);
    AbsentFieldNone(log, ALLOWED_TAG);
  }

  lemma AllowedPartHere(p: Platform, l: Lists, rest: string)
    requires p.Valid() && ListsValid(l)
    ensures Field(AllowedPart(p, l) + rest, ALLOWED_TAG)
         == if HasAllowed(l) then Some(FormatAllowed(p, l.allowed, ',')) else Field(rest, ALLOWED_TAG)
  {
    hide Field;
    hide NetsValid;
    hide NetText4;
    hide NetText6;
    hide Only;
    AllowedListOnly(p, l);
    if HasAllowed(l) {
      assert FormatAllowed(p, l.allowed, ',') != "";
      hide FormatAllowed;
      assert AllowedPart(p, l) + rest == (ALLOWED_TAG + FormatAllowed(p, l.allowed, ',')) + [NL] + rest;
      FieldAtFront(ALLOWED_TAG, FormatAllowed(p, l.allowed, ','), rest, IsAllowedChar);
    } else {
      assert AllowedPart(p, l) + rest == rest;
    }
  }

  /** The key line is read back whatever follows the first three lines. */
  lemma KeyField(seconds: nat, hash: Hash, pgp: bool, rest: string)
    ensures Field(Preamble(seconds, hash, pgp) + rest, KEY_TAG) == Some(Hex(hash))
  {
    TagsPlain();
    RemainingLineAbsent(seconds, KEY_TAG);
    HexIsLower(hash);
    hide Absent;
    hide Field;
    hide RemainingLine;
    hide PgpLine;
    hide Hex;
    var afterKey := PgpLine(pgp) + [NL] + rest;
    assert Preamble(seconds, hash, pgp) + rest
        == RemainingLine(seconds) + [NL] + ((KEY_TAG + Hex(hash)) + [NL] + afterKey);
    FieldSkip(RemainingLine(seconds), (KEY_TAG + Hex(hash)) + [NL] + afterKey, KEY_TAG);
    FieldAtFront(KEY_TAG, Hex(hash), afterKey, IsLowerHex);
  }

  // ---- The values of the fields ----

  lemma {:induction false} TakeNormal(domains: seq<string>, taken: seq<string>)
    requires forall i | 0 <= i < |domains| :: Domains.IsNormal(domains[i])
    requires |taken| + |domains| <= MAX_DOMAINS
    ensures TakeDomains(domains, taken) == taken + domains
    decreases |domains|
  {
    hide Domains.Normalize;
    hide Domains.IsNormal;
    if domains != [] {
      Domains.NormalIffFixpoint(domains[0]);
      TakeNormal(domains[1..], taken + [domains[0]]);
      assert taken + domains == taken + [domains[0]] + domains[1..];
    }
  }

  lemma {:induction false} TakeDotteds(p: Platform, v4: seq<Addr4>, rest: seq<string>, taken: Addrs)
    requires p.Valid() && |taken.v4| + |v4| <= MAX_IPS_V4
    ensures TakeAddrs(p, Dotteds(v4) + rest, taken) == TakeAddrs(p, rest, taken.(v4 := taken.v4 + v4))
    decreases |v4|
  {
    hide Dotted;
    hide ParseDotted;
    if v4 == [] {
      assert Dotteds(v4) + rest == rest && taken.v4 + v4 == taken.v4;
    } else {
      DottedRoundTrip(v4[0]);
      DottedShape(v4[0]);
      assert Dotteds(v4) + rest == [Dotted(v4[0])] + (Dotteds(v4[1..]) + rest);
      TakeDotteds(p, v4[1..], rest, taken.(v4 := taken.v4 + [v4[0]]));
      assert taken.v4 + v4 == taken.v4 + [v4[0]] + v4[1..];
    }
  }

  lemma {:induction false} TakeV6Texts(p: Platform, v6: seq<Addr6>, rest: seq<string>, taken: Addrs)
    requires p.Valid() && |taken.v6| + |v6| <= MAX_IPS_V6
    ensures TakeAddrs(p, V6Texts(p, v6) + rest, taken) == TakeAddrs(p, rest, taken.(v6 := taken.v6 + v6))
    decreases |v6|
  {
    hide ParseDotted;
    if v6 == [] {
      assert V6Texts(p, v6) + rest == rest && taken.v6 + v6 == taken.v6;
    } else {
      V6Printed(p, v6[0]);
      assert V6Texts(p, v6) + rest == [p.v6Text(v6[0])] + (V6Texts(p, v6[1..]) + rest);
      TakeV6Texts(p, v6[1..], rest, taken.(v6 := taken.v6 + [v6[0]]));
      assert taken.v6 + v6 == taken.v6 + [v6[0]] + v6[1..];
    }
  }

  lemma DomainsBack(l: Lists)
    requires ListsValid(l) && HasDomains(l)
    ensures TakeDomains(Split(Join(l.domains, ','), ','), []) == l.domains
  {
    hide Split;
    hide Join;
    hide TakeDomains;
    assert AllWithout(l.domains, ',') by {
      forall i | 0 <= i < |l.domains| ensures ',' !in l.domains[i] {
        assert Domains.IsNormal(l.domains[i]);
      }
    }
    SplitJoin(l.domains, ',');
    TakeNormal(l.domains, []);
    assert [] + l.domains == l.domains;
  }

  lemma IpTokens(p: Platform, l: Lists)
    requires p.Valid()
    ensures Split(IpsBody(p, l), ',') == Dotteds(l.v4) + (V6Texts(p, l.v6) + [""])
  {
    hide Split;
    hide Terminated;
    hide Dotted;
    var items := Dotteds(l.v4) + V6Texts(p, l.v6);
    forall i | 0 <= i < |items| ensures ',' !in items[i] {
      if i < |l.v4| { DottedShape(l.v4[i]); } else { V6Printed(p, l.v6[i - |l.v4|]); }
    }
    TerminatedAppend(Dotteds(l.v4), V6Texts(p, l.v6), ',');
    SplitTerminated(items, ',');
  }

  lemma IpsBack(p: Platform, l: Lists)
    requires p.Valid() && ListsValid(l)
    ensures TakeAddrs(p, Split(IpsBody(p, l), ','), Addrs([], [])) == Addrs(l.v4, l.v6)
  {
    hide Split;
    hide Terminated;
    IpTokens(p, l);
    TakeDotteds(p, l.v4, V6Texts(p, l.v6) + [""], Addrs([], []));
    TakeV6Texts(p, l.v6, [""], Addrs([] + l.v4, []));
    assert [""][1..] == [];
    assert [] + l.v4 == l.v4 && [] + l.v6 == l.v6;
  }

  /** The lists come back exactly, into memory that had none. */
  lemma ListsRoundTrip(p: Platform, seconds: nat, hash: Hash, pgp: bool, l: Lists, log: string)
    requires p.Valid() && ListsValid(l) && Only(log, IsLogChar)
    ensures RestoreLists(p, Header(p, seconds, hash, pgp, l) + log, NO_LISTS) == l
  {
    DomainsField(p, seconds, hash, pgp, l, log);
    IpsField(p, seconds, hash, pgp, l, log);
    AllowedField(p, seconds, hash, pgp, l, log);
    IpsBack(p, l);
    hide NetsValid;
    if HasDomains(l) { DomainsBack(l); }
    AllowedRoundTrip(p, l.allowed, ',');
    hide Field;
    hide Header;
    hide IpsBody;
    hide Join;
    hide Split;
    hide FormatAllowed;
    hide ParseAllowed;
    hide TakeDomains;
    hide TakeAddrs;
    hide ListsValid;
  }

  lemma HashRoundTrip(seconds: nat, hash: Hash, pgp: bool, rest: string)
    ensures RestoreHash(Preamble(seconds, hash, pgp) + rest) == Some(hash)
  {
    KeyField(seconds, hash, pgp, rest);
    hide Field;
    hide Preamble;
    HexRoundTrip(hash, "");
    assert Hex(hash) + "" == Hex(hash);
  }
}
