/**
 The C string routines the module calls (strstr, strchr, strsep, scnprintf, simple decimal and
 hexadecimal text), as functions on the characters before the terminating NUL.
 A character stands for one byte; only ASCII characters are ever singled out.
 */
module Strings {
  import opened Wrappers

  type Byte = x: int | 0 <= x < 256

  const NUL: char := '\0'
  const NL: char := '\n'

  /** The C string held by a buffer: everything before the first NUL. */
  function CStr(s: string): (r: string)
    ensures r <= s && NUL !in r
    ensures r == s || s[|r|] == NUL
  {
    if s == "" || s[0] == NUL then "" else
      var rest := CStr(s[1..]);
      assert s == [s[0]] + s[1..];
      [s[0]] + rest
  }

  lemma CStrOfClean(s: string)
    requires NUL !in s
    ensures CStr(s) == s
  {
  }

  lemma {:induction false} CStrUpTo(a: string, rest: string)
    ensures CStr(a + [NUL] + rest) == CStr(a)
  {
    if a != "" {
      assert (a + [NUL] + rest)[1..] == a[1..] + [NUL] + rest;
      CStrUpTo(a[1..], rest);
    }
  }

  // ---- Buffers ----

  /** As much of a text as a buffer of the given size takes. */
  function Clip(text: string, size: nat): string {
    if |text| <= size then text else text[..size]
  }

  /** Filling a buffer in pieces cuts off where filling it at once would. */
  lemma ClipTwice(a: string, b: string, size: nat)
    ensures Clip(Clip(a, size) + b, size) == Clip(a + b, size)
  {
    if |a| > size {
      assert (a[..size] + b)[..size] == a[..size];
      assert (a + b)[..size] == a[..size];
    }
  }

  // ---- Searching ----

  predicate OccursAt(s: string, pat: string, i: int) {
    0 <= i && i + |pat| <= |s| && s[i..i + |pat|] == pat
  }

  lemma OccursChar(s: string, pat: string, i: int, k: nat)
    requires k < |pat|
    ensures OccursAt(s, pat, i) ==> 0 <= i && i + k < |s| && s[i + k] == pat[k]
  {
    if OccursAt(s, pat, i) {
      assert s[i + k] == s[i..i + |pat|][k];
    }
  }

  /** strstr: the first occurrence at or after `from`. */
  function Find(s: string, pat: string, from: nat): (r: Option<nat>)
    requires from <= |s|
    ensures r.Some? ==> from <= r.value && r.value + |pat| <= |s|
    decreases |s| - from
  {
    if OccursAt(s, pat, from) then Some(from)
    else if from == |s| then None
    else Find(s, pat, from + 1)
  }

  lemma {:induction false} FindMeans(s: string, pat: string, from: nat)
    requires from <= |s|
    ensures match Find(s, pat, from)
            case Some(at) => OccursAt(s, pat, at) && forall i | from <= i < at :: !OccursAt(s, pat, i)
            case None => forall i | from <= i :: !OccursAt(s, pat, i)
    decreases |s| - from
  {
    if !OccursAt(s, pat, from) && from < |s| {
      FindMeans(s, pat, from + 1);
    }
  }

  /** A text occurs where it was placed. */
  lemma OccursBetween(before: string, pat: string, after: string)
    ensures OccursAt(before + pat + after, pat, |before|)
  {
  }

  lemma {:induction false} FindIs(s: string, pat: string, from: nat, at: nat)
    requires from <= at <= |s| && OccursAt(s, pat, at)
    requires forall i | from <= i < at :: !OccursAt(s, pat, i)
    ensures Find(s, pat, from) == Some(at)
    decreases at - from
  {
    if from < at {
      FindIs(s, pat, from + 1, at);
    }
  }

  lemma {:induction false} FindNone(s: string, pat: string, from: nat)
    requires from <= |s|
    requires forall i | from <= i <= |s| :: !OccursAt(s, pat, i)
    ensures Find(s, pat, from).None?
    decreases |s| - from
  {
    if from < |s| {
      FindNone(s, pat, from + 1);
    }
  }

  /** strchr: the first place at or after `from` holding `c`. */
  function FindChar(s: string, c: char, from: nat): (r: Option<nat>)
    requires from <= |s|
    ensures r.Some? ==> from <= r.value < |s|
    decreases |s| - from
  {
    if from == |s| then None
    else if s[from] == c then Some(from)
    else FindChar(s, c, from + 1)
  }

  lemma {:induction false} FindCharMeans(s: string, c: char, from: nat)
    requires from <= |s|
    ensures match FindChar(s, c, from)
            case Some(at) => s[at] == c && forall i | from <= i < at :: s[i] != c
            case None => forall i | from <= i < |s| :: s[i] != c
    decreases |s| - from
  {
    if from < |s| && s[from] != c {
      FindCharMeans(s, c, from + 1);
    }
  }

  lemma {:induction false} FindCharIs(s: string, c: char, from: nat, at: nat)
    requires from <= at < |s| && s[at] == c && forall i | from <= i < at :: s[i] != c
    ensures FindChar(s, c, from) == Some(at)
    decreases at - from
  {
    if from < at {
      FindCharIs(s, c, from + 1, at);
    }
  }

  lemma {:induction false} FindCharNone(s: string, c: char, from: nat)
    requires from <= |s| && forall i | from <= i < |s| :: s[i] != c
    ensures FindChar(s, c, from).None?
    decreases |s| - from
  {
    if from < |s| {
      FindCharNone(s, c, from + 1);
    }
  }

  // ---- strsep ----

  /** The tokens strsep yields for a one-character separator; never empty. */
  function Split(s: string, c: char): (r: seq<string>)
    ensures |r| >= 1
    decreases |s|
  {
    var i := FindChar(s, c, 0);
    if i.None? then [s] else [s[..i.value]] + Split(s[i.value + 1..], c)
  }

  lemma SplitHead(head: string, c: char, rest: string)
    requires c !in head
    ensures Split(head + [c] + rest, c) == [head] + Split(rest, c)
  {
    var s := head + [c] + rest;
    forall i | 0 <= i < |head| ensures s[i] != c {
      assert head[i] in head;
    }
    FindCharIs(s, c, 0, |head|);
    assert s[..|head|] == head && s[|head| + 1..] == rest;
  }

  lemma SplitSingle(s: string, c: char)
    requires c !in s
    ensures Split(s, c) == [s]
  {
    forall i | 0 <= i < |s| ensures s[i] != c {
      assert s[i] in s;
    }
    FindCharNone(s, c, 0);
  }

  /** Items with the separator between them. */
  function Join(items: seq<string>, c: char): string {
    if |items| == 0 then ""
    else if |items| == 1 then items[0]
    else items[0] + [c] + Join(items[1..], c)
  }

  /** Items with the separator after each of them. */
  function Terminated(items: seq<string>, c: char): string {
    if |items| == 0 then "" else items[0] + [c] + Terminated(items[1..], c)
  }

  ghost predicate AllWithout(items: seq<string>, c: char) {
    forall i | 0 <= i < |items| :: c !in items[i]
  }

  lemma {:induction false} SplitJoin(items: seq<string>, c: char)
    requires |items| >= 1 && AllWithout(items, c)
    ensures Split(Join(items, c), c) == items
  {
    if |items| == 1 {
      SplitSingle(items[0], c);
    } else {
      SplitHead(items[0], c, Join(items[1..], c));
      SplitJoin(items[1..], c);
    }
  }

  /** Splitting loses nothing. */
  lemma {:induction false} JoinSplit(s: string, c: char)
    ensures Join(Split(s, c), c) == s && AllWithout(Split(s, c), c)
    decreases |s|
  {
    var i := FindChar(s, c, 0);
    FindCharMeans(s, c, 0);
    if i.Some? {
      var rest := s[i.value + 1..];
      JoinSplit(rest, c);
      assert Split(s, c) == [s[..i.value]] + Split(rest, c);
      assert ([s[..i.value]] + Split(rest, c))[1..] == Split(rest, c);
      assert s == s[..i.value] + [c] + rest;
    }
  }

  /** The tokens of a text with a separator in the middle are those of its two parts. */
  lemma {:induction false} SplitAt(a: string, c: char, rest: string)
    ensures Split(a + [c] + rest, c) == Split(a, c) + Split(rest, c)
    decreases |a|
  {
    var i := FindChar(a, c, 0);
    FindCharMeans(a, c, 0);
    if i.None? {
      assert c !in a;
      SplitHead(a, c, rest);
      SplitSingle(a, c);
    } else {
      var head, more := a[..i.value], a[i.value + 1..];
      assert a + [c] + rest == head + [c] + (more + [c] + rest);
      assert a == head + [c] + more;
      SplitHead(head, c, more + [c] + rest);
      SplitHead(head, c, more);
      SplitAt(more, c, rest);
    }
  }

  lemma {:induction false} JoinConcat(a: seq<string>, b: seq<string>, c: char)
    requires a != [] && b != []
    ensures Join(a + b, c) == Join(a, c) + [c] + Join(b, c)
  {
    assert (a + b)[1..] == a[1..] + b;
    if |a| > 1 {
      JoinConcat(a[1..], b, c);
    }
  }

  lemma {:induction false} SplitTerminated(items: seq<string>, c: char)
    requires AllWithout(items, c)
    ensures Split(Terminated(items, c), c) == items + [""]
  {
    if |items| == 0 {
      SplitSingle("", c);
    } else {
      SplitHead(items[0], c, Terminated(items[1..], c));
      SplitTerminated(items[1..], c);
    }
  }

  lemma {:induction false} TerminatedAppend(a: seq<string>, b: seq<string>, c: char)
    ensures Terminated(a + b, c) == Terminated(a, c) + Terminated(b, c)
  {
    if |a| == 0 {
      assert a + b == b;
    } else {
      assert (a + b)[1..] == a[1..] + b;
      TerminatedAppend(a[1..], b, c);
    }
  }

  // ---- Alphabets ----

  /** Every character of the text satisfies the class. */
  ghost predicate Only(s: string, ok: char -> bool) {
    forall i | 0 <= i < |s| :: ok(s[i])
  }

  lemma OnlyConcat(a: string, b: string, ok: char -> bool)
    requires Only(a, ok) && Only(b, ok)
    ensures Only(a + b, ok)
  {
  }

  lemma {:induction false} TerminatedOnly(items: seq<string>, c: char, ok: char -> bool)
    requires forall i | 0 <= i < |items| :: Only(items[i], ok)
    requires ok(c)
    ensures Only(Terminated(items, c), ok)
  {
    if |items| > 0 {
      TerminatedOnly(items[1..], c, ok);
    }
  }

  lemma {:induction false} JoinOnly(items: seq<string>, c: char, ok: char -> bool)
    requires forall i | 0 <= i < |items| :: Only(items[i], ok)
    requires ok(c)
    ensures Only(Join(items, c), ok)
  {
    if |items| > 1 {
      JoinOnly(items[1..], c, ok);
    }
  }

  lemma {:induction false} TerminatedLength(items: seq<string>, c: char, most: nat)
    requires forall i | 0 <= i < |items| :: |items[i]| <= most
    ensures |Terminated(items, c)| <= |items| * (most + 1)
  {
    if |items| > 0 {
      TerminatedLength(items[1..], c, most);
    }
  }

  lemma {:induction false} JoinLength(items: seq<string>, c: char, most: nat)
    requires forall i | 0 <= i < |items| :: |items[i]| <= most
    ensures |Join(items, c)| <= |items| * (most + 1)
  {
    if |items| > 1 {
      JoinLength(items[1..], c, most);
    }
  }

  // ---- Decimal ----

  predicate IsDigit(c: char) { '0' <= c <= '9' }

  function DigitValue(c: char): (d: nat)
    requires IsDigit(c)
    ensures d < 10
  {
    c as int - '0' as int
  }

  function DigitChar(d: nat): (c: char)
    requires d < 10
    ensures IsDigit(c) && DigitValue(c) == d
  {
    ('0' as int + d) as char
  }

  predicate Digits(s: string) { forall i | 0 <= i < |s| :: IsDigit(s[i]) }

  /** The number a run of decimal digits denotes. */
  function DecimalValue(s: string): nat
    requires Digits(s)
  {
    if s == "" then 0 else DecimalValue(s[..|s| - 1]) * 10 + DigitValue(s[|s| - 1])
  }

  /** %llu */
  function Decimal(n: nat): (s: string)
    ensures |s| >= 1
  {
    if n < 10 then [DigitChar(n)] else Decimal(n / 10) + [DigitChar(n % 10)]
  }

  lemma {:induction false} DecimalRoundTrip(n: nat)
    ensures Digits(Decimal(n)) && DecimalValue(Decimal(n)) == n
  {
    var s := Decimal(n);
    if n < 10 {
      assert s[..0] == "";
    } else {
      DecimalRoundTrip(n / 10);
      assert s[..|s| - 1] == Decimal(n / 10);
    }
  }

  /** Without a leading zero, digits are the printed form of their number. */
  lemma {:induction false} DecimalCanonical(s: string)
    requires s != "" && Digits(s) && (|s| == 1 || s[0] != '0')
    ensures Decimal(DecimalValue(s)) == s
    ensures |s| > 1 ==> DecimalValue(s) >= 10
  {
    if |s| > 1 {
      var init := s[..|s| - 1];
      DecimalCanonical(init);
      assert DecimalValue(init) > 0 by {
        if |init| == 1 { assert init[..0] == "" && init[0] != '0'; }
      }
      assert s == init + [s[|s| - 1]];
    } else {
      assert s[..0] == "";
    }
  }

  function Pow10(k: nat): (r: nat)
    ensures r >= 1
  {
    if k == 0 then 1 else 10 * Pow10(k - 1)
  }

  lemma {:induction false} DecimalLength(n: nat, k: nat)
    requires k >= 1 && n < Pow10(k)
    ensures |Decimal(n)| <= k
  {
    if n >= 10 {
      DecimalLength(n / 10, k - 1);
    }
  }

  lemma {:induction false} DecimalValueGrows(a: string, b: string)
    requires Digits(a + b)
    ensures Digits(a) && DecimalValue(a) <= DecimalValue(a + b)
  {
    assert forall i | 0 <= i < |a| :: a[i] == (a + b)[i];
    if b == "" {
      assert a + b == a;
    } else {
      var init := b[..|b| - 1];
      assert (a + b)[..|a + b| - 1] == a + init;
      DecimalValueGrows(a, init);
    }
  }

  // ---- Hexadecimal ----

  predicate IsHexDigit(c: char) { IsDigit(c) || 'a' <= c <= 'f' || 'A' <= c <= 'F' }

  /** The lower-case digits %02x and %*phN print. */
  predicate IsLowerHex(c: char) { IsDigit(c) || 'a' <= c <= 'f' }

  function HexDigit(d: nat): (c: char)
    requires d < 16
    ensures IsLowerHex(c)
  {
    if d < 10 then ('0' as int + d) as char else ('a' as int + (d - 10)) as char
  }

  /** Two lower-case digits per byte. */
  function Hex(bytes: seq<Byte>): (s: string)
    ensures |s| == 2 * |bytes|
  {
    if bytes == [] then "" else
      var last := bytes[|bytes| - 1];
      Hex(bytes[..|bytes| - 1]) + [HexDigit(last / 16), HexDigit(last % 16)]
  }

  lemma {:induction false} HexIsLower(bytes: seq<Byte>)
    ensures forall i | 0 <= i < |Hex(bytes)| :: IsLowerHex(Hex(bytes)[i])
  {
    if bytes != [] {
      HexIsLower(bytes[..|bytes| - 1]);
    }
  }
}
