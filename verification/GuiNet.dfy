/**
 The desktop app's own reading of an allowlist entry (gui/src/lib/net.ts), and its agreement with
 the kernel's. IPv6 text goes through the web view's URL parser there, so only its arithmetic is here.
 */
module GuiNet {
  import opened Wrappers
  import opened Strings
  import opened Bits
  import opened Platform
  import opened Allowlist

  /** Net: what the app shows for an entry, before formatting. */
  datatype Range = Range(first: nat, last: nat, prefix: nat)

  /** The bigint arithmetic of parseNet, for addresses of `width` bits. */
  function RangeOf(value: nat, width: nat, prefix: nat): (r: Range)
    requires prefix <= width
    ensures r.prefix == prefix
  {
    var all := Pow2(width) - 1;
    var hostMask := Pow2(width - prefix) - 1;
    var first := BitAnd(value, BitXor(all, hostMask));
    Range(first, BitOr(first, hostMask), prefix)
  }

  /** First clears the host bits, last sets them. */
  lemma RangeOfIs(value: nat, width: nat, prefix: nat)
    requires prefix <= width && value < Pow2(width)
    ensures RangeOf(value, width, prefix).first == value - LowBits(value, width - prefix)
    ensures RangeOf(value, width, prefix).last == RangeOf(value, width, prefix).first + Pow2(width - prefix) - 1
  {
    hide BitAnd;
    hide BitOr;
    hide BitXor;
    hide Pow2;
    hide LowBits;
    var h := width - prefix;
    XorLowOnes(width, h);
    AndHighMask(value, width, h);
    LowBitsCleared(value, h);
    OrLowOnes(value - LowBits(value, h), h);
  }

  /** An octet of v4Re: no leading zero. */
  predicate IsPlainOctet(part: string) { Octet(part).Some? && (|part| == 1 || part[0] != '0') }

  /** v4Re.test, then v4ToBig. */
  function ReadV4(s: string): Option<Addr4> {
    var parts := Split(s, '.');
    if |parts| == 4 && IsPlainOctet(parts[0]) && IsPlainOctet(parts[1])
       && IsPlainOctet(parts[2]) && IsPlainOctet(parts[3])
    then Some(FromOctets(Octet(parts[0]).value, Octet(parts[1]).value, Octet(parts[2]).value, Octet(parts[3]).value))
    else None
  }

  /** One to three digits, at most the width. */
  function ReadPrefix(s: string, width: nat): Option<nat> {
    if 1 <= |s| <= 3 && Digits(s) && DecimalValue(s) <= width then Some(DecimalValue(s)) else None
  }

  /** parseNet on trimmed text, for IPv4. */
  function ParseNetV4(text: string): Option<Range> {
    var parts := Split(text, '/');
    if |parts| > 2 || ReadV4(parts[0]).None? then None
    else
      var prefix := if |parts| == 2 then ReadPrefix(parts[1], 32) else Some(32);
      if prefix.None? then None else Some(RangeOf(ReadV4(parts[0]).value, 32, prefix.value))
  }

  /** The normalised form the app stores: first address, slash, prefix. */
  function Cidr(r: Range): string
    requires r.first < 0x1_0000_0000
  {
    Dotted(r.first) + "/" + Decimal(r.prefix)
  }

  /** What the app reads as an IPv4 address is exactly the address's printed text. */
  lemma ReadV4Iff(s: string, a: Addr4)
    ensures ReadV4(s) == Some(a) <==> s == Dotted(a)
  {
    if s == Dotted(a) {
      PrintedIsRead(a);
    }
    if ReadV4(s) == Some(a) {
      ReadIsPrinted(s, a);
    }
  }

  lemma PlainIff(part: string, b: Byte)
    ensures IsPlainOctet(part) && Octet(part) == Some(b) <==> part == Decimal(b)
  {
    if part == Decimal(b) {
      OctetRoundTrip(b);
      PlainDecimal(b);
    }
    if IsPlainOctet(part) && Octet(part) == Some(b) {
      DecimalCanonical(part);
    }
  }

  lemma PlainDecimal(b: Byte)
    ensures |Decimal(b)| == 1 || Decimal(b)[0] != '0'
  {
    if b >= 10 {
      var s := Decimal(b / 10);
      if b >= 100 {
        assert s == Decimal(b / 100) + [DigitChar(b / 10 % 10)];
        assert Decimal(b / 100) == [DigitChar(b / 100)];
      }
      assert Decimal(b)[0] == s[0];
    }
  }

  lemma PrintedIsRead(a: Addr4)
    ensures ReadV4(Dotted(a)) == Some(a)
  {
    var o := Octets(a);
    DottedParts(a);
    PlainIff(Decimal(o[0]), o[0]);
    PlainIff(Decimal(o[1]), o[1]);
    PlainIff(Decimal(o[2]), o[2]);
    PlainIff(Decimal(o[3]), o[3]);
    FromOctetsOf(a);
    hide Octets;
    hide Octet;
    hide IsPlainOctet;
    hide Decimal;
    hide Split;
    hide Dotted;
    hide FromOctets;
  }

  lemma ReadIsPrinted(s: string, a: Addr4)
    requires ReadV4(s) == Some(a)
    ensures s == Dotted(a)
  {
    var parts := Split(s, '.');
    var o0, o1, o2, o3 :=
      Octet(parts[0]).value, Octet(parts[1]).value, Octet(parts[2]).value, Octet(parts[3]).value;
    PlainIff(parts[0], o0);
    PlainIff(parts[1], o1);
    PlainIff(parts[2], o2);
    PlainIff(parts[3], o3);
    OctetsOfFrom(o0, o1, o2, o3);
    JoinSplit(s, '.');
    JoinFour(parts[0], parts[1], parts[2], parts[3]);
    assert parts == [parts[0], parts[1], parts[2], parts[3]];
    hide Octet;
    hide Octets;
    hide FromOctets;
    hide Decimal;
    hide Split;
    hide Join;
  }

  lemma JoinFour(a: string, b: string, c: string, d: string)
    ensures Join([a, b, c, d], '.') == a + "." + b + "." + c + "." + d
  {
    assert [a, b, c, d][1..] == [b, c, d] && [b, c, d][1..] == [c, d] && [c, d][1..] == [d];
    assert Join([c, d], '.') == c + "." + d;
    assert Join([b, c, d], '.') == b + "." + (c + "." + d);
  }

  /** An address, or an address, a slash and one to three digits of at most 32: the entries of the app. */
  ghost predicate IsEntry(text: string, a: Addr4, prefix: nat) {
    || (prefix == 32 && text == Dotted(a))
    || exists d: string ::
         1 <= |d| <= 3 && Digits(d) && DecimalValue(d) == prefix <= 32 && text == Dotted(a) + "/" + d
  }

  /** The app accepts exactly these, as the range of that many bits. */
  lemma AppTakesIff(text: string, r: Range)
    ensures ParseNetV4(text) == Some(r)
       <==> exists a: Addr4, prefix: nat :: prefix <= 32 && IsEntry(text, a, prefix) && r == RangeOf(a, 32, prefix)
  {
    if ParseNetV4(text) == Some(r) {
      TakenIsEntry(text);
    }
    forall a: Addr4, prefix: nat | prefix <= 32 && IsEntry(text, a, prefix)
      ensures ParseNetV4(text) == Some(RangeOf(a, 32, prefix))
    {
      EntryIsTaken(text, a, prefix);
    }
    hide ParseNetV4;
    hide IsEntry;
    hide RangeOf;
  }

  lemma TakenIsEntry(text: string)
    requires ParseNetV4(text).Some?
    ensures exists a: Addr4, prefix: nat ::
      prefix <= 32 && IsEntry(text, a, prefix) && ParseNetV4(text).value == RangeOf(a, 32, prefix)
  {
    var parts := Split(text, '/');
    var a := ReadV4(parts[0]).value;
    ReadV4Iff(parts[0], a);
    JoinSplit(text, '/');
    hide ReadV4;
    hide RangeOf;
    hide Dotted;
    hide Split;
    if |parts| == 2 {
      var d := parts[1];
      assert parts == [parts[0], d] && [parts[0], d][1..] == [d];
      assert text == Dotted(a) + "/" + d;
      assert IsEntry(text, a, DecimalValue(d));
    } else {
      assert parts == [parts[0]] && text == Dotted(a);
      assert IsEntry(text, a, 32);
    }
  }

  lemma EntryIsTaken(text: string, a: Addr4, prefix: nat)
    requires prefix <= 32 && IsEntry(text, a, prefix)
    ensures ParseNetV4(text) == Some(RangeOf(a, 32, prefix))
  {
    ReadV4Iff(Dotted(a), a);
    DottedShape(a);
    assert '/' !in Dotted(a);
    hide ReadV4;
    hide RangeOf;
    hide Dotted;
    hide AddrText;
    if text == Dotted(a) && prefix == 32 {
      SplitSingle(text, '/');
    } else {
      var d :| 1 <= |d| <= 3 && Digits(d) && DecimalValue(d) == prefix <= 32 && text == Dotted(a) + "/" + d;
      assert '/' !in d;
      WithPrefix(Dotted(a), d);
      hide Split;
      hide Digits;
    }
  }

  lemma WithPrefix(addr: string, d: string)
    requires '/' !in addr && '/' !in d
    ensures Split(addr + "/" + d, '/') == [addr, d]
  {
    SplitHead(addr, '/', d);
    SplitSingle(d, '/');
    hide Split;
  }

  lemma ReadV4Agrees(s: string)
    ensures ReadV4(s).Some? ==> ParseDotted(s) == ReadV4(s)
  {
  }

  lemma ReadPrefixAgrees(s: string)
    ensures ReadPrefix(s, 32).Some? ==> ReadPrefix(s, 32).value <= 32 && ParseU8(s) == Some(ReadPrefix(s, 32).value)
  {
    if ReadPrefix(s, 32).Some? {
      assert IsDigit(s[0]) && IsDigit(s[|s| - 1]);
    }
  }

  lemma SplitOnce(s: string, c: char)
    ensures FindChar(s, c, 0).None? ==> Split(s, c) == [s]
    ensures FindChar(s, c, 0).Some? ==>
      var at := FindChar(s, c, 0).value;
      |Split(s, c)| >= 2 && Split(s, c)[0] == s[..at] && (|Split(s, c)| == 2 ==> Split(s, c)[1] == s[at + 1..])
  {
    var at := FindChar(s, c, 0);
    if at.Some? {
      var rest := Split(s[at.value + 1..], c);
      assert Split(s, c) == [s[..at.value]] + rest;
      assert |rest| == 1 ==> rest == [s[at.value + 1..]];
    }
  }

  /** An IPv4 entry the app takes, the kernel takes too, as the network the app shows. */
  lemma KernelTakesWhatAppTakes(p: Platform, text: string)
    requires ParseNetV4(text).Some?
    ensures ParseNetV4(text).value.prefix <= 32
    ensures var r := ParseNetV4(text).value;
      exists a: Addr4 ::
        && ParseNet(p, text) == Some(Entry4(MaskedNet4(a, r.prefix)))
        && r == RangeOf(a, 32, r.prefix)
  {
    hide ReadV4;
    hide ParseDotted;
    hide ReadPrefix;
    hide ParseU8;
    hide MaskedNet4;
    hide RangeOf;
    SplitOnce(text, '/');
    var parts := Split(text, '/');
    var slash := FindChar(text, '/', 0);
    ReadV4Agrees(parts[0]);
    var a := ReadV4(parts[0]).value;
    var r := ParseNetV4(text).value;
    if slash.Some? {
      ReadPrefixAgrees(parts[1]);
    }
    assert ParseNet(p, text) == Some(Entry4(MaskedNet4(a, r.prefix)));
  }

  /** The kernel lets through exactly the addresses from the first to the last the app shows. */
  lemma ShownRangeIsWhatKernelAccepts(a: Addr4, prefix: nat, x: Addr4)
    requires prefix <= 32
    ensures var r := RangeOf(a, 32, prefix);
      Accepts4(MaskedNet4(a, prefix), x) <==> r.first <= x <= r.last
  {
    hide BitAnd;
    hide RangeOf;
    hide LowBits;
    hide Mask4;
    Pow2Of32();
    hide Pow2;
    RangeOfIs(a, 32, prefix);
    Accepts4IffInRange(a, prefix, x);
  }

  lemma ShownRangeIsWhatKernelAccepts6(a: Addr6, prefix: Byte, x: Addr6)
    requires prefix <= 128
    ensures var r := RangeOf(a, 128, prefix);
      Accepts6(MaskedNet6(a, prefix), x) <==> r.first <= x <= r.last
  {
    hide BitAnd;
    hide RangeOf;
    hide LowBits;
    Pow2Of128();
    hide Pow2;
    RangeOfIs(a, 128, prefix);
    Accepts6IffInRange(a, prefix, x);
  }

  /** What the app stores and hands to the kernel names the very network it was typed as. */
  lemma CidrNamesTheSameNetwork(p: Platform, text: string)
    requires ParseNetV4(text).Some?
    ensures var r := ParseNetV4(text).value;
      r.first < 0x1_0000_0000 && ParseNet(p, Cidr(r)) == ParseNet(p, text)
  {
    hide ParseNet;
    hide ParseNetV4;
    KernelTakesWhatAppTakes(p, text);
    var r := ParseNetV4(text).value;
    var a: Addr4 :|
      && ParseNet(p, text) == Some(Entry4(MaskedNet4(a, r.prefix)))
      && r == RangeOf(a, 32, r.prefix);
    CidrOf(p, a, r.prefix);
  }

  lemma CidrOf(p: Platform, a: Addr4, prefix: nat)
    requires prefix <= 32
    ensures var r := RangeOf(a, 32, prefix);
      r.first < 0x1_0000_0000 && ParseNet(p, Cidr(r)) == Some(Entry4(MaskedNet4(a, prefix)))
  {
    hide ParseNet;
    hide ParseDotted;
    hide Dotted;
    hide BitAnd;
    hide LowBits;
    hide Mask4;
    Pow2Of32();
    hide Pow2;
    RangeOfIs(a, 32, prefix);
    var first := RangeOf(a, 32, prefix).first;
    LowBitsCleared(a, 32 - prefix);
    DottedRoundTrip(first);
    DottedShape(first);
    ParsePrinted(p, Dotted(first), prefix);
    assert MaskedNet4(first, prefix) == MaskedNet4(a, prefix);
  }
}
