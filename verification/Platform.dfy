/**
 IPv4 text, and what the module takes from the kernel without being able to see inside it:
 SHA-256 and the printing and parsing of IPv6 addresses.
 */
module Platform {
  import opened Wrappers
  import opened Strings
  import opened Keys

  type Addr4 = x: int | 0 <= x < 0x1_0000_0000
  type Addr6 = x: int | 0 <= x < 0x1_0000_0000_0000_0000_0000_0000_0000_0000

  /** The characters addresses are printed with. */
  predicate IsAddrChar(c: char) { IsLowerHex(c) || c == ':' || c == '.' }

  predicate AddrText(s: string) { forall i | 0 <= i < |s| :: IsAddrChar(s[i]) }

  // ---- IPv4 ----

  function Octets(a: Addr4): (o: seq<Byte>)
    ensures |o| == 4
  {
    var high3 := a / 0x100;
    var high2 := high3 / 0x100;
    [high2 / 0x100, high2 % 0x100, high3 % 0x100, a % 0x100]
  }

  /** %pI4 */
  function Dotted(a: Addr4): string {
    var o := Octets(a);
    Decimal(o[0]) + "." + Decimal(o[1]) + "." + Decimal(o[2]) + "." + Decimal(o[3])
  }

  lemma DottedShape(a: Addr4)
    ensures 7 <= |Dotted(a)| <= 15 && AddrText(Dotted(a))
  {
    var o := Octets(a);
    assert Pow10(3) == 1000;
    DecimalLength(o[0], 3);
    DecimalLength(o[1], 3);
    DecimalLength(o[2], 3);
    DecimalLength(o[3], 3);
    DecimalIsAddrText(o[0]);
    DecimalIsAddrText(o[1]);
    DecimalIsAddrText(o[2]);
    DecimalIsAddrText(o[3]);
  }

  lemma DecimalIsAddrText(n: nat)
    ensures AddrText(Decimal(n))
  {
    DecimalRoundTrip(n);
  }

  function Octet(part: string): Option<Byte> {
    if part != "" && Digits(part) && DecimalValue(part) <= 255 then Some(DecimalValue(part)) else None
  }

  function FromOctets(a: Byte, b: Byte, c: Byte, d: Byte): Addr4 {
    0x100_0000 * (a as int) + 0x1_0000 * (b as int) + 0x100 * (c as int) + (d as int)
  }

  /** in4_pton on a whole token: four dot-separated decimal octets. */
  function ParseDotted(s: string): Option<Addr4> {
    var parts := Split(s, '.');
    if |parts| != 4 then None
    else match (Octet(parts[0]), Octet(parts[1]), Octet(parts[2]), Octet(parts[3]))
      case (Some(a), Some(b), Some(c), Some(d)) => Some(FromOctets(a, b, c, d))
      case _ => None
  }

  lemma DottedParts(a: Addr4)
    ensures Split(Dotted(a), '.')
         == [Decimal(Octets(a)[0]), Decimal(Octets(a)[1]), Decimal(Octets(a)[2]), Decimal(Octets(a)[3])]
  {
    hide Decimal;
    hide Split;
    hide Octets;
    var o := Octets(a);
    var p0, p1, p2, p3 := Decimal(o[0]), Decimal(o[1]), Decimal(o[2]), Decimal(o[3]);
    assert Dotted(a) == p0 + ['.'] + (p1 + ['.'] + (p2 + ['.'] + p3));
    NoDot(o[0]);
    NoDot(o[1]);
    NoDot(o[2]);
    NoDot(o[3]);
    SplitHead(p0, '.', p1 + ['.'] + (p2 + ['.'] + p3));
    SplitHead(p1, '.', p2 + ['.'] + p3);
    SplitHead(p2, '.', p3);
    SplitSingle(p3, '.');
    hide Dotted;
  }

  lemma NoDot(n: nat)
    ensures '.' !in Decimal(n)
  {
    DecimalRoundTrip(n);
  }

  lemma DottedRoundTrip(a: Addr4)
    ensures ParseDotted(Dotted(a)) == Some(a)
  {
    var o := Octets(a);
    DottedParts(a);
    OctetRoundTrip(o[0]);
    OctetRoundTrip(o[1]);
    OctetRoundTrip(o[2]);
    OctetRoundTrip(o[3]);
    FromOctetsOf(a);
  }

  lemma OctetRoundTrip(b: Byte)
    ensures Octet(Decimal(b)) == Some(b)
  {
    DecimalRoundTrip(b);
  }

  lemma FromOctetsOf(a: Addr4)
    ensures FromOctets(Octets(a)[0], Octets(a)[1], Octets(a)[2], Octets(a)[3]) == a
  {
  }

  lemma OctetsOfFrom(a: Byte, b: Byte, c: Byte, d: Byte)
    ensures Octets(FromOctets(a, b, c, d)) == [a, b, c, d]
  {
    var x := FromOctets(a, b, c, d);
    assert x / 0x100 == 0x1_0000 * a + 0x100 * b + c && x % 0x100 == d;
    assert x / 0x100 / 0x100 == 0x100 * a + b;
  }

  // ---- The kernel's own functions ----

  datatype Platform = Platform(
    sha256: Key -> Hash,
    v6Text: Addr6 -> string,
    v6Parse: string -> Option<Addr6>)
  {
    /**
     What is assumed of them: IPv6 printing is undone by parsing, prints at most 45 characters of the
     address alphabet, and no dotted IPv4 text reads as IPv6.
     */
    ghost predicate Valid() {
      && (forall a: Addr6 ::
            && v6Parse(v6Text(a)) == Some(a)
            && 0 < |v6Text(a)| <= 45
            && AddrText(v6Text(a)))
      && (forall s: string :: ParseDotted(s).Some? ==> v6Parse(s).None?)
    }
  }

  /** The assumption at one address. */
  lemma V6Printed(p: Platform, a: Addr6)
    requires p.Valid()
    ensures p.v6Parse(p.v6Text(a)) == Some(a) && ParseDotted(p.v6Text(a)).None?
    ensures 0 < |p.v6Text(a)| <= 45 && AddrText(p.v6Text(a))
  {
  }

  // ---- The assumption can be met ----

  function Pow16(n: nat): nat { if n == 0 then 1 else 16 * Pow16(n - 1) }

  function HexDigits(a: nat, n: nat): (s: string)
    ensures |s| == n
  {
    if n == 0 then "" else HexDigits(a / 16, n - 1) + [HexDigit(a % 16)]
  }

  lemma {:induction false} HexDigitsInjective(a: nat, b: nat, n: nat)
    requires a < Pow16(n) && b < Pow16(n) && HexDigits(a, n) == HexDigits(b, n)
    ensures a == b
  {
    if n > 0 {
      var x, y := HexDigits(a, n), HexDigits(b, n);
      assert x[..n - 1] == HexDigits(a / 16, n - 1) && y[..n - 1] == HexDigits(b / 16, n - 1);
      assert x[n - 1] == HexDigit(a % 16) && y[n - 1] == HexDigit(b % 16);
      HexDigitValue(a % 16);
      HexDigitValue(b % 16);
      HexDigitsInjective(a / 16, b / 16, n - 1);
    }
  }

  lemma {:induction false} HexDigitsText(a: nat, n: nat)
    ensures AddrText(HexDigits(a, n))
  {
    if n > 0 {
      HexDigitsText(a / 16, n - 1);
    }
  }

  lemma ColonIsNotDotted(s: string)
    requires s != "" && s[0] == ':'
    ensures ParseDotted(s).None?
  {
    var at := FindChar(s, '.', 0);
    FindCharMeans(s, '.', 0);
    assert at.Some? ==> s[..at.value][0] == ':';
  }

  /** An address as its digits behind some colons. */
  function SampleText(lead: string, a: Addr6): string { lead + HexDigits(a, 32) }

  ghost function SampleParse(lead: string, s: string): Option<Addr6> {
    if exists a: Addr6 :: SampleText(lead, a) == s then
      var a: Addr6 :| SampleText(lead, a) == s;
      Some(a)
    else None
  }

  /** SHA-256 does not matter here. */
  ghost function SamplePlatform(lead: string): Platform {
    Platform((k: Key) => ZERO_HASH, (a: Addr6) => SampleText(lead, a), (s: string) => SampleParse(lead, s))
  }

  lemma Pow16Four(n: nat)
    ensures Pow16(n + 4) == 0x1_0000 * Pow16(n)
  {
    assert Pow16(n + 4) == 16 * Pow16(n + 3);
    assert Pow16(n + 3) == 16 * Pow16(n + 2);
    assert Pow16(n + 2) == 16 * Pow16(n + 1);
  }

  lemma Pow16Of32()
    ensures Pow16(32) == 0x1_0000_0000_0000_0000_0000_0000_0000_0000
  {
    assert Pow16(0) == 1;
    hide Pow16;
    Pow16Four(0);
    assert Pow16(4) == 0x1_0000;
    Pow16Four(4);
    assert Pow16(8) == 0x1_0000_0000;
    Pow16Four(8);
    assert Pow16(12) == 0x1_0000_0000_0000;
    Pow16Four(12);
    assert Pow16(16) == 0x1_0000_0000_0000_0000;
    Pow16Four(16);
    assert Pow16(20) == 0x1_0000_0000_0000_0000_0000;
    Pow16Four(20);
    assert Pow16(24) == 0x1_0000_0000_0000_0000_0000_0000;
    Pow16Four(24);
    assert Pow16(28) == 0x1_0000_0000_0000_0000_0000_0000_0000;
    Pow16Four(28);
    assert Pow16(32) == 0x1_0000_0000_0000_0000_0000_0000_0000_0000;
  }

  lemma SampleTextInjective(lead: string, a: Addr6, b: Addr6)
    requires SampleText(lead, a) == SampleText(lead, b)
    ensures a == b
  {
    hide HexDigits;
    assert SampleText(lead, a)[|lead|..] == HexDigits(a, 32) && SampleText(lead, b)[|lead|..] == HexDigits(b, 32);
    Pow16Of32();
    hide Pow16;
    HexDigitsInjective(a, b, 32);
  }

  lemma SampleInverse(lead: string, a: Addr6)
    ensures SampleParse(lead, SampleText(lead, a)) == Some(a)
  {
    forall b: Addr6 | SampleText(lead, b) == SampleText(lead, a) ensures b == a {
      SampleTextInjective(lead, b, a);
    }
    hide SampleText;
  }

  /** Any number of colons up to thirteen will do. */
  lemma SampleIsValid(lead: string)
    requires 0 < |lead| <= 13 && forall i | 0 <= i < |lead| :: lead[i] == ':'
    ensures SamplePlatform(lead).Valid()
  {
    var p := SamplePlatform(lead);
    forall a: Addr6 ensures p.v6Parse(p.v6Text(a)) == Some(a) && 0 < |p.v6Text(a)| <= 45 && AddrText(p.v6Text(a)) {
      SampleInverse(lead, a);
      HexDigitsText(a, 32);
      hide HexDigits;
    }
    forall s: string | ParseDotted(s).Some? ensures p.v6Parse(s).None? {
      if exists a: Addr6 :: SampleText(lead, a) == s {
        var a: Addr6 :| SampleText(lead, a) == s;
        ColonIsNotDotted(s);
      }
    }
  }

  /** There are functions of which all that is assumed is true. */
  lemma AssumptionHolds()
    ensures exists p: Platform :: p.Valid()
  {
    SampleIsValid(":");
    assert SamplePlatform(":").Valid();
  }
}
