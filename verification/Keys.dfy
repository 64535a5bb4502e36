/**
 Unlock keys as text (src/parse.c kb_hex_decode, src/key.c check_key and the printing loops of
 unload_key_show).
 */
module Keys {
  import opened Wrappers
  import opened Strings
  import Domains

  type Key = k: seq<Byte> | |k| == 16 witness [0, 0, 0, 0, 0, 0, 0, 0, 0, 0, 0, 0, 0, 0, 0, 0]
  type Hash = h: seq<Byte> | |h| == 32
    witness [0, 0, 0, 0, 0, 0, 0, 0, 0, 0, 0, 0, 0, 0, 0, 0] + [0, 0, 0, 0, 0, 0, 0, 0, 0, 0, 0, 0, 0, 0, 0, 0]

  const ZERO_KEY: Key := [0, 0, 0, 0, 0, 0, 0, 0, 0, 0, 0, 0, 0, 0, 0, 0]
  const ZERO_HASH: Hash :=
    [0, 0, 0, 0, 0, 0, 0, 0, 0, 0, 0, 0, 0, 0, 0, 0] + [0, 0, 0, 0, 0, 0, 0, 0, 0, 0, 0, 0, 0, 0, 0, 0]

  /** hex_val, with NULL for its -1. */
  function HexValue(c: char): (v: Option<nat>)
    ensures v.Some? <==> IsHexDigit(c)
    ensures v.Some? ==> v.value < 16
  {
    if '0' <= c <= '9' then Some(c as int - '0' as int)
    else if 'A' <= c <= 'F' then Some(c as int - 'A' as int + 10)
    else if 'a' <= c <= 'f' then Some(c as int - 'a' as int + 10)
    else None
  }

  lemma HexDigitValue(d: nat)
    requires d < 16
    ensures HexValue(HexDigit(d)) == Some(d)
  {
  }

  /** The first `count` bytes a text of hexadecimal digits denotes. */
  function HexBytes(s: string, count: nat): Option<seq<Byte>> {
    if count == 0 then Some([])
    else if |s| < 2 * count || !IsHexDigit(s[2 * count - 2]) || !IsHexDigit(s[2 * count - 1]) then None
    else match HexBytes(s, count - 1)
      case None => None
      case Some(init) => Some(init + [16 * HexValue(s[2 * count - 2]).value + HexValue(s[2 * count - 1]).value])
  }

  lemma {:induction false} HexBytesNone(s: string, count: nat, i: nat)
    requires i < count
    requires |s| < 2 * (i + 1) || !IsHexDigit(s[2 * i]) || !IsHexDigit(s[2 * i + 1])
    ensures HexBytes(s, count).None?
  {
    if i < count - 1 {
      HexBytesNone(s, count - 1, i);
    }
  }

  lemma {:induction false} HexBytesLength(s: string, count: nat)
    ensures HexBytes(s, count).Some? ==> |HexBytes(s, count).value| == count
  {
    if count > 0 {
      HexBytesLength(s, count - 1);
    }
  }

  /** kb_hex_decode: stops at the first character (or the end of the string) that is not a hex digit. */
  method HexDecode(s: string, out: array<Byte>, count: nat) returns (ok: bool)
    requires out.Length >= count
    modifies out
    ensures match HexBytes(s, count)
            case None => !ok
            case Some(bytes) => ok && out[..count] == bytes
  {
    var i := 0;
    while i < count
      invariant 0 <= i <= count
      invariant HexBytes(s, i) == Some(out[..i])
    {
      var hi := if 2 * i < |s| then HexValue(s[2 * i]) else None;
      var lo := if hi.None? || 2 * i + 1 >= |s| then None else HexValue(s[2 * i + 1]);
      if hi.None? || lo.None? {
        HexBytesNone(s, count, i);
        return false;
      }
      ghost var done := out[..i];
      out[i] := hi.value * 16 + lo.value;
      assert out[..i + 1] == done + [hi.value * 16 + lo.value];
      i := i + 1;
    }
    return true;
  }

  /** Decoding undoes printing, whatever follows the digits. */
  lemma {:induction false} HexRoundTrip(bytes: seq<Byte>, rest: string)
    ensures HexBytes(Hex(bytes) + rest, |bytes|) == Some(bytes)
  {
    if bytes != [] {
      var init := bytes[..|bytes| - 1];
      var last := bytes[|bytes| - 1];
      var tail := [HexDigit(last / 16), HexDigit(last % 16)];
      assert Hex(bytes) + rest == Hex(init) + (tail + rest);
      HexRoundTrip(init, tail + rest);
      HexDigitValue(last / 16);
      HexDigitValue(last % 16);
      assert bytes == init + [last];
    }
  }

  /** The key a sysfs write presents: 32 hex digits, with or without a newline. */
  function KeyOfText(buf: string): (k: Option<Key>) {
    var body := if buf != "" && buf[|buf| - 1] == NL then buf[..|buf| - 1] else buf;
    HexBytesLength(body, 16);
    if |body| != 32 then None
    else match HexBytes(body, 16)
      case None => None
      case Some(bytes) => Some(bytes)
  }

  datatype KeyCheck = Match | Malformed | Mismatch

  /** check_key */
  method CheckKey(buf: string, sha256: Key -> Hash, keyHash: Hash) returns (r: KeyCheck)
    ensures r == match KeyOfText(buf)
                 case None => Malformed
                 case Some(k) => if sha256(k) == keyHash then Match else Mismatch
  {
    var count := |buf|;
    if count > 0 && buf[count - 1] == NL {
      count := count - 1;
    }
    if count != 32 {
      return Malformed;
    }
    var parsed := new Byte[16];
    var ok := HexDecode(buf[..count], parsed, 16);
    assert buf[..|buf|] == buf;
    if !ok {
      return Malformed;
    }
    var key: Key := parsed[..16];
    return if sha256(key) == keyHash then Match else Mismatch;
  }

  /** What unload_key_show prints for a key it still holds. */
  function KeyText(k: Key): string { Hex(k) + [NL] }

  /** The text once shown is accepted as that key, with its newline or without. */
  lemma KeyTextRoundTrip(k: Key)
    ensures KeyOfText(KeyText(k)) == Some(k)
    ensures KeyOfText(Hex(k)) == Some(k)
  {
    HexRoundTrip(k, "");
    assert Hex(k) + "" == Hex(k);
    assert KeyText(k)[..|KeyText(k)| - 1] == Hex(k);
    HexIsLower(k);
    assert IsLowerHex(Hex(k)[31]);
  }

  /** A digit has the value of the lower-case digit printed for it. */
  lemma HexValueIff(c: char, d: nat)
    requires d < 16
    ensures HexValue(c) == Some(d) <==> Domains.ToLower(c) == HexDigit(d)
  {
  }

  /** The digits of the i-th byte. */
  predicate PairAt(s: string, i: nat, b: Byte)
    requires 2 * i + 1 < |s|
  {
    HexValue(s[2 * i]) == Some(b / 16) && HexValue(s[2 * i + 1]) == Some(b % 16)
  }

  lemma {:induction false} HexBytesAt(s: string, bytes: seq<Byte>)
    requires |s| >= 2 * |bytes|
    ensures HexBytes(s, |bytes|) == Some(bytes) <==> forall i | 0 <= i < |bytes| :: PairAt(s, i, bytes[i])
  {
    if bytes != [] {
      var n := |bytes|;
      var init, last := bytes[..n - 1], bytes[n - 1];
      HexBytesAt(s, init);
      LastPair(s, init, last);
      assert bytes == init + [last];
      hide PairAt;
      assert forall i | 0 <= i < n - 1 :: init[i] == bytes[i];
    }
    hide HexBytes;
  }

  lemma LastPair(s: string, init: seq<Byte>, last: Byte)
    requires |s| >= 2 * (|init| + 1)
    ensures HexBytes(s, |init| + 1) == Some(init + [last])
       <==> HexBytes(s, |init|) == Some(init) && PairAt(s, |init|, last)
  {
    var n := |init|;
    var hi, lo, before := HexValue(s[2 * n]), HexValue(s[2 * n + 1]), HexBytes(s, n);
    HexBytesLength(s, n);
    HexBytesStep(s, n);
    assert PairAt(s, n, last) <==> hi == Some(last / 16) && lo == Some(last % 16);
    hide *;
    if hi.Some? && lo.Some? {
      DigitsOfByte(hi.value, lo.value, last);
      if before.Some? {
        SameSnoc(before.value, 16 * hi.value + lo.value, init, last);
      }
    }
  }

  lemma HexBytesStep(s: string, n: nat)
    requires |s| >= 2 * (n + 1)
    ensures var hi, lo, before := HexValue(s[2 * n]), HexValue(s[2 * n + 1]), HexBytes(s, n);
      HexBytes(s, n + 1)
      == if hi.None? || lo.None? || before.None? then None else Some(before.value + [16 * hi.value + lo.value])
  {
    hide HexValue;
  }

  lemma DigitsOfByte(hi: nat, lo: nat, b: Byte)
    requires hi < 16 && lo < 16
    ensures 16 * hi + lo == b <==> hi == b / 16 && lo == b % 16
  {
  }

  lemma SameSnoc(a: seq<Byte>, x: Byte, b: seq<Byte>, y: Byte)
    requires |a| == |b|
    ensures a + [x] == b + [y] <==> a == b && x == y
  {
    assert (a + [x])[..|a|] == a && (b + [y])[..|b|] == b;
    assert (a + [x])[|a|] == x && (b + [y])[|b|] == y;
  }

  lemma {:induction false} HexAt(bytes: seq<Byte>, i: nat)
    requires i < |bytes|
    ensures Hex(bytes)[2 * i] == HexDigit(bytes[i] / 16) && Hex(bytes)[2 * i + 1] == HexDigit(bytes[i] % 16)
  {
    if i < |bytes| - 1 {
      HexAt(bytes[..|bytes| - 1], i);
    }
  }

  /** Digits of either case have the values of the bytes whose printed form they are but for the case. */
  lemma LowerIsHex(s: string, bytes: seq<Byte>)
    requires |s| == 2 * |bytes|
    ensures Domains.Lower(s) == Hex(bytes) <==> forall i | 0 <= i < |bytes| :: PairAt(s, i, bytes[i])
  {
    var l, h := Domains.Lower(s), Hex(bytes);
    forall i | 0 <= i < |bytes|
      ensures PairAt(s, i, bytes[i]) <==> l[2 * i] == h[2 * i] && l[2 * i + 1] == h[2 * i + 1]
    {
      PairIff(s, bytes, i);
    }
    hide *;
    if forall i | 0 <= i < |bytes| :: PairAt(s, i, bytes[i]) {
      forall j | 0 <= j < |l| ensures l[j] == h[j] {
        assert PairAt(s, j / 2, bytes[j / 2]);
        assert j == 2 * (j / 2) || j == 2 * (j / 2) + 1;
      }
    }
  }

  lemma PairIff(s: string, bytes: seq<Byte>, i: nat)
    requires |s| == 2 * |bytes| && i < |bytes|
    ensures var l, h := Domains.Lower(s), Hex(bytes);
      PairAt(s, i, bytes[i]) <==> l[2 * i] == h[2 * i] && l[2 * i + 1] == h[2 * i + 1]
  {
    HexAt(bytes, i);
    HexValueIff(s[2 * i], bytes[i] / 16);
    HexValueIff(s[2 * i + 1], bytes[i] % 16);
    hide HexDigit;
    hide Domains.ToLower;
    hide HexValue;
  }

  /** Whether a text ends in a newline does not depend on the case of its letters. */
  lemma LowerLine(buf: string, h: string)
    requires buf != "" && NL !in h
    ensures var init := buf[..|buf| - 1];
      if buf[|buf| - 1] == NL
      then Domains.Lower(buf) != h && (Domains.Lower(buf) == h + [NL] <==> Domains.Lower(init) == h)
      else Domains.Lower(buf) != h + [NL]
  {
    var l, init := Domains.Lower(buf), buf[..|buf| - 1];
    assert l[|buf| - 1] == Domains.ToLower(buf[|buf| - 1]);
    assert l == Domains.Lower(init) + [l[|buf| - 1]];
    assert l == h ==> l[|buf| - 1] in h;
    assert l == h + [NL] ==> l[|buf| - 1] == NL && l[..|buf| - 1] == h;
  }

  /** A text is accepted as a key exactly when it is the key's printed text in any case, newline or not. */
  lemma KeyOfTextIff(buf: string, k: Key)
    ensures KeyOfText(buf) == Some(k) <==> Domains.Lower(buf) == Hex(k) || Domains.Lower(buf) == KeyText(k)
  {
    HexPlain(k);
    var body := if buf != "" && buf[|buf| - 1] == NL then buf[..|buf| - 1] else buf;
    if buf != "" {
      LowerLine(buf, Hex(k));
    }
    KeyOfBody(body, k);
    hide HexValue;
    hide Hex;
    hide HexBytes;
    hide Domains.Lower;
  }

  lemma KeyOfBody(body: string, k: Key)
    ensures (|body| == 32 && HexBytes(body, 16) == Some(k)) <==> Domains.Lower(body) == Hex(k)
  {
    if |body| == 32 {
      HexBytesAt(body, k);
      LowerIsHex(body, k);
    }
    hide *;
  }

  lemma HexPlain(bytes: seq<Byte>)
    ensures NL !in Hex(bytes)
  {
    HexIsLower(bytes);
  }
}
