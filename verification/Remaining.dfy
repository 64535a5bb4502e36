/**
 The "remaining:N" records of the state file (src/parse.c): the line parser, the scan for the last
 complete record, and the append-only log the kernel writes.
 */
module Remaining {
  import opened Wrappers
  import opened Strings

  const U64_MAX: nat := 0xFFFF_FFFF_FFFF_FFFF
  const TAG: string := "remaining:"

  /** Where the run of digits starting at p stops. */
  function DigitsEnd(s: string, p: nat): (e: nat)
    requires p <= |s|
    ensures p <= e <= |s| && Digits(s[p..e])
    ensures e < |s| ==> !IsDigit(s[e])
    decreases |s| - p
  {
    if p == |s| || !IsDigit(s[p]) then p
    else
      var e := DigitsEnd(s, p + 1);
      assert s[p..e] == [s[p]] + s[p + 1..e];
      e
  }

  /** What a decimal at p terminated by a newline denotes, when it is one and fits in 64 bits. */
  function LineU64(s: string, p: nat): Option<nat>
    requires p <= |s|
  {
    var e := DigitsEnd(s, p);
    if e > p && e < |s| && s[e] == NL && DecimalValue(s[p..e]) <= U64_MAX
    then Some(DecimalValue(s[p..e]))
    else None
  }

  /** The value of a complete record that begins at i, which must be the start of a line. */
  function RecordAt(s: string, i: int): Option<nat> {
    if OccursAt(s, TAG, i) && (i == 0 || s[i - 1] == NL) then LineU64(s, i + |TAG|) else None
  }

  /** At i a line begins with "remaining:", these digits, whose number fits 64 bits, and a newline. */
  ghost predicate IsRecord(s: string, i: nat, d: string, v: nat) {
    && d != "" && Digits(d) && DecimalValue(d) == v < 0x1_0000_0000_0000_0000
    && i <= |s| && "remaining:" + d + "\n" <= s[i..] && (i == 0 || s[i - 1] == '\n')
  }

  /** Exactly these are read as complete records. */
  lemma RecordIff(s: string, i: nat, v: nat)
    ensures RecordAt(s, i) == Some(v) <==> exists d :: IsRecord(s, i, d, v)
  {
    if RecordAt(s, i) == Some(v) {
      var p := i + |TAG|;
      var d := s[p..DigitsEnd(s, p)];
      assert s[i..][..|TAG|] == TAG && s[i..][|TAG|..|TAG| + |d|] == d && s[i..][|TAG| + |d|] == NL;
      assert s[i..] == "remaining:" + d + "\n" + s[p + |d| + 1..];
      assert IsRecord(s, i, d, v);
    }
    forall d | IsRecord(s, i, d, v) ensures RecordAt(s, i) == Some(v) {
      RecordIsRead(s, i, d, v);
    }
    hide IsRecord;
  }

  lemma RecordIsRead(s: string, i: nat, d: string, v: nat)
    requires IsRecord(s, i, d, v)
    ensures RecordAt(s, i) == Some(v)
  {
    var before, after := s[..i], s[i..][|TAG| + |d| + 1..];
    assert "remaining:" + d + "\n" == TAG + (d + [NL]);
    hide RecordAt;
    assert s[i..] == TAG + (d + [NL]) + after;
    assert s == before + TAG + (d + [NL] + after);
    RecordIn(before, d, after);
  }

  lemma RecordIn(before: string, d: string, after: string)
    requires d != "" && Digits(d) && DecimalValue(d) <= U64_MAX
    requires before == "" || before[|before| - 1] == NL
    ensures RecordAt(before + TAG + (d + [NL] + after), |before|) == Some(DecimalValue(d))
  {
    hide LineU64;
    hide DecimalValue;
    var s := before + TAG + (d + [NL] + after);
    LineNumber(before + TAG, d, after);
    assert s == (before + TAG) + d + ([NL] + after);
    OccursBetween(before, TAG, d + [NL] + after);
  }

  /** The last complete record among those beginning before k; 0 if there is none. */
  function LastRecordBefore(s: string, k: nat): nat {
    if k == 0 then 0
    else match RecordAt(s, k - 1)
      case Some(v) => v
      case None => LastRecordBefore(s, k - 1)
  }

  /** The value of the last line-initial "remaining:<digits>\n" that fits in 64 bits, or 0. */
  function LastRemaining(s: string): nat {
    LastRecordBefore(s, |s|)
  }

  lemma {:induction false} NoRecordsBetween(s: string, a: nat, b: nat)
    requires a <= b
    requires forall j | a <= j < b :: RecordAt(s, j).None?
    ensures LastRecordBefore(s, b) == LastRecordBefore(s, a)
  {
    if a < b {
      NoRecordsBetween(s, a, b - 1);
    }
  }

  /** What the scan means: a value no later record overrides, or 0 when there is no record at all. */
  lemma LastRemainingMeans(s: string)
    ensures
      || (LastRemaining(s) == 0 && forall i | 0 <= i < |s| :: RecordAt(s, i).None?)
      || exists i | 0 <= i < |s| ::
           RecordAt(s, i) == Some(LastRemaining(s)) && forall j | i < j < |s| :: RecordAt(s, j).None?
  {
    if i: nat :| i < |s| && RecordAt(s, i).Some? {
      var at := LastRecord(s, |s|, i);
      LastRemainingIs(s, at, RecordAt(s, at).value);
    } else {
      NoRecordsBetween(s, 0, |s|);
    }
  }

  lemma {:induction false} LastRecord(s: string, k: nat, i: nat) returns (at: nat)
    requires i < k && RecordAt(s, i).Some?
    ensures at < k && RecordAt(s, at).Some? && forall j | at < j < k :: RecordAt(s, j).None?
  {
    if RecordAt(s, k - 1).Some? {
      at := k - 1;
    } else {
      at := LastRecord(s, k - 1, i);
    }
  }

  lemma LastRemainingIs(s: string, at: nat, v: nat)
    requires at < |s| && RecordAt(s, at) == Some(v)
    requires forall j | at < j < |s| :: RecordAt(s, j).None?
    ensures LastRemaining(s) == v
  {
    NoRecordsBetween(s, at + 1, |s|);
  }

  lemma LastRemainingNone(s: string)
    requires forall j | 0 <= j < |s| :: RecordAt(s, j).None?
    ensures LastRemaining(s) == 0
  {
    NoRecordsBetween(s, 0, |s|);
  }

  // ---- The C loops ----

  lemma DigitsStopAt(s: string, start: nat, p: nat)
    requires start <= |s| && start <= p <= DigitsEnd(s, start) && (p == |s| || !IsDigit(s[p]))
    ensures p == DigitsEnd(s, start)
    decreases p - start
  {
    if start < p {
      DigitsStopAt(s, start + 1, p);
    }
  }

  /** parse_line_u64: digits only, stopping on the first value that would not fit. */
  method ParseLineU64(s: string, start: nat) returns (r: Option<nat>)
    requires start <= |s|
    ensures r == LineU64(s, start)
  {
    var p, v := start, 0;
    ghost var e := DigitsEnd(s, start);
    if p == |s| || !IsDigit(s[p]) {
      return None;
    }
    while p < |s| && IsDigit(s[p])
      invariant start <= p <= e <= |s|
      invariant Digits(s[start..p]) && v == DecimalValue(s[start..p]) && v <= U64_MAX
    {
      assert s[start..p + 1][..p - start] == s[start..p];
      assert s[start..e] == s[start..p + 1] + s[p + 1..e];
      DecimalValueGrows(s[start..p + 1], s[p + 1..e]);
      var d := DigitValue(s[p]);
      if v > (U64_MAX - d) / 10 {
        return None;
      }
      v := v * 10 + d;
      p := p + 1;
    }
    assert p == e by { DigitsStopAt(s, start, p); }
    if p == |s| || s[p] != NL {
      return None;
    }
    return Some(v);
  }

  lemma TagLetters(k: nat)
    requires 0 < k < |TAG|
    ensures TAG[0] == 'r' && TAG[k] != 'r' && TAG[k] != NL
  {
    assert TAG[1..] == "emaining:";
    assert TAG[k] in TAG[1..];
  }

  /** No second 'r' inside the tag, so occurrences never overlap and none is skipped. */
  lemma TagDoesNotOverlap(s: string, hit: nat, j: nat)
    requires OccursAt(s, TAG, hit) && hit < j < hit + |TAG|
    ensures !OccursAt(s, TAG, j)
  {
    OccursChar(s, TAG, hit, j - hit);
    TagLetters(j - hit);
    OccursChar(s, TAG, j, 0);
  }

  lemma NoTagNoRecord(s: string, j: int)
    requires !OccursAt(s, TAG, j)
    ensures RecordAt(s, j).None?
  {
  }

  /** One strstr hit settles every position up to the end of its tag. */
  lemma AfterHit(s: string, p: nat, hit: nat)
    requires p <= hit && OccursAt(s, TAG, hit)
    requires forall i | p <= i < hit :: !OccursAt(s, TAG, i)
    ensures LastRecordBefore(s, hit + |TAG|)
         == if RecordAt(s, hit).Some? then RecordAt(s, hit).value else LastRecordBefore(s, p)
  {
    forall j | p <= j < hit ensures RecordAt(s, j).None? {
      NoTagNoRecord(s, j);
    }
    NoRecordsBetween(s, p, hit);
    forall j | hit + 1 <= j < hit + |TAG| ensures RecordAt(s, j).None? {
      TagDoesNotOverlap(s, hit, j);
      NoTagNoRecord(s, j);
    }
    NoRecordsBetween(s, hit + 1, hit + |TAG|);
  }

  /** kb_last_remaining */
  method LastRemainingScan(s: string) returns (val: nat)
    ensures val == LastRemaining(s)
  {
    var p := 0;
    val := 0;
    var hit := Find(s, TAG, p);
    while hit.Some?
      invariant p <= |s| && hit == Find(s, TAG, p)
      invariant val == LastRecordBefore(s, p)
      decreases |s| - p
    {
      FindMeans(s, TAG, p);
      AfterHit(s, p, hit.value);
      p := hit.value + |TAG|;
      if hit.value == 0 || s[hit.value - 1] == NL {
        var v := ParseLineU64(s, p);
        if v.Some? {
          val := v.value;
        }
      }
      hit := Find(s, TAG, p);
    }
    FindMeans(s, TAG, p);
    NoRecordsBetween(s, p, |s|);
  }

  // ---- The append-only log ----

  /** One record as scnprintf("remaining:%llu\n") prints it. */
  function Line(v: nat): string { TAG + Decimal(v) + [NL] }

  function Log(values: seq<nat>): string {
    if values == [] then "" else Log(values[..|values| - 1]) + Line(values[|values| - 1])
  }

  lemma LogSnoc(init: seq<nat>, v: nat)
    ensures Log(init + [v]) == Log(init) + Line(v)
  {
    hide Line;
    assert (init + [v])[..|init|] == init;
  }

  /** What is on disk of a record whose last write was cut off; possibly nothing. */
  ghost predicate Torn(t: string) {
    exists v: nat :: v <= U64_MAX && t < Line(v)
  }

  lemma LineRecord(before: string, v: nat, after: string)
    requires v <= U64_MAX
    requires before == "" || before[|before| - 1] == NL
    ensures RecordAt(before + Line(v) + after, |before|) == Some(v)
  {
    var d := Decimal(v);
    DecimalRoundTrip(v);
    RecordIn(before, d, after);
    assert before + Line(v) + after == before + TAG + (d + [NL] + after);
  }

  lemma LineNumber(before: string, d: string, after: string)
    requires d != "" && Digits(d) && DecimalValue(d) <= U64_MAX
    ensures LineU64(before + d + ([NL] + after), |before|) == Some(DecimalValue(d))
  {
    var s := before + d + ([NL] + after);
    var e := |before| + |d|;
    assert s[|before|..e] == d && s[e] == NL;
    DigitsEndIs(s, |before|, e);
  }

  lemma {:induction false} DigitsEndIs(s: string, p: nat, e: nat)
    requires p <= e <= |s| && Digits(s[p..e]) && (e == |s| || !IsDigit(s[e]))
    ensures DigitsEnd(s, p) == e
    decreases e - p
  {
    if p < e {
      assert s[p] == s[p..e][0];
      assert s[p + 1..e] == s[p..e][1..];
      DigitsEndIs(s, p + 1, e);
    }
  }

  /** After its first character a record holds no 'r', and its only newline is the last one. */
  lemma InsideLine(v: nat, k: nat)
    requires k < |Line(v)|
    ensures Line(v)[k] == 'r' <==> k == 0
    ensures Line(v)[k] == NL <==> k == |Line(v)| - 1
  {
    if k < |TAG| {
      assert Line(v)[k] == TAG[k];
      if k > 0 { TagLetters(k); }
    } else if k < |Line(v)| - 1 {
      DecimalRoundTrip(v);
      assert Line(v)[k] == Decimal(v)[k - |TAG|];
      assert IsDigit(Line(v)[k]);
    }
  }

  lemma LineLength(v: nat)
    requires v <= U64_MAX
    ensures |Line(v)| <= 31
  {
    assert Pow10(20) == 100000000000000000000 by {
      assert Pow10(5) == 100000;
      assert Pow10(10) == 10000000000;
      assert Pow10(15) == 1000000000000000;
    }
    DecimalLength(v, 20);
  }

  /** A torn write holds no newline, so nothing at or after its start is complete. */
  lemma TornHasNoRecord(s: string, t: string, j: nat)
    requires Torn(t) && |t| <= |s| && s[|s| - |t|..] == t
    requires |s| - |t| <= j
    ensures RecordAt(s, j).None?
  {
    hide Line;
    hide OccursAt;
    hide DecimalValue;
    var v: nat :| v <= U64_MAX && t < Line(v);
    var base := |s| - |t|;
    forall k | base <= k < |s| ensures s[k] != NL {
      assert s[k] == s[base..][k - base] == t[k - base] == Line(v)[k - base];
      InsideLine(v, k - base);
    }
  }

  /** A file that ends in a complete record, then possibly a torn one: that record is the last. */
  lemma LastOfLogged(before: string, v: nat, t: string)
    requires v <= U64_MAX && Torn(t)
    requires before == "" || before[|before| - 1] == NL
    ensures LastRemaining(before + Line(v) + t) == v
  {
    hide Line;
    hide DecimalValue;
    var s := before + Line(v) + t;
    LineRecord(before, v, t);
    forall j | |before| < j < |s| ensures RecordAt(s, j).None? {
      if j < |before| + |Line(v)| {
        InsideLine(v, j - |before|);
        assert s[j] == Line(v)[j - |before|];
        OccursChar(s, TAG, j, 0);
        NoTagNoRecord(s, j);
      } else {
        assert s[|s| - |t|..] == t;
        TornHasNoRecord(s, t, j);
      }
    }
    LastRemainingIs(s, |before|, v);
  }
}
