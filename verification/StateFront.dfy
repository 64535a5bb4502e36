/**
 The front of a state file: whatever became of the rest (a record cut off, records appended, one of them
 cut off), a file that begins with its first three lines still gives the session's key hash and some time.
 */
module StateFront {
  import opened Wrappers
  import opened Strings
  import opened Keys
  import opened Platform
  import opened StateFile
  import opened StateRoundTrip
  import StateWindows
  import Remaining

  /** Wherever a record's tag and number stand, in the middle of a line too, the number is positive. */
  ghost predicate Tame(s: string) {
    forall i: nat | OccursAt(s, Remaining.TAG, i) ::
      Remaining.LineU64(s, i + |Remaining.TAG|).Some? ==> Remaining.LineU64(s, i + |Remaining.TAG|).value > 0
  }

  /** A number that ends inside a part of a text is that number in the whole. */
  lemma NumberInWhole(before: string, part: string, after: string, j: nat)
    requires j <= |part| && Remaining.LineU64(part, j).Some?
    ensures Remaining.LineU64(before + part + after, |before| + j) == Remaining.LineU64(part, j)
  {
    hide DecimalValue;
    var s := before + part + after;
    var e := Remaining.DigitsEnd(part, j);
    assert s[|before| + j..|before| + e] == part[j..e];
    assert s[|before| + e] == part[e] == NL;
    Remaining.DigitsEndIs(s, |before| + j, |before| + e);
  }

  lemma TamePart(before: string, part: string, after: string)
    requires Tame(before + part + after)
    ensures Tame(part)
  {
    hide Remaining.LineU64;
    hide Remaining.TAG;
    var s := before + part + after;
    forall i: nat | OccursAt(part, Remaining.TAG, i) && Remaining.LineU64(part, i + |Remaining.TAG|).Some?
      ensures Remaining.LineU64(part, i + |Remaining.TAG|).value > 0
    {
      NumberInWhole(before, part, after, i + |Remaining.TAG|);
      OccursInWhole(before, part, after, Remaining.TAG, i);
      assert |before| + (i + |Remaining.TAG|) == (|before| + i) + |Remaining.TAG|;
    }
  }

  lemma OccursInWhole(before: string, part: string, after: string, tag: string, i: nat)
    requires OccursAt(part, tag, i)
    ensures OccursAt(before + part + after, tag, |before| + i)
  {
    var s := before + part + after;
    assert s[|before| + i..|before| + i + |tag|] == part[i..i + |tag|];
  }

  /** What is written after a record: begins like one, holds no second 'r'. */
  ghost predicate LikeLine(x: string) { x != "" ==> x[0] == 'r' && forall k | 0 < k < |x| :: x[k] != 'r' }

  lemma InRun(s: string, j: nat, e: nat, k: nat)
    requires j <= e <= |s| && Digits(s[j..e])
    ensures j <= k < e ==> IsDigit(s[k])
  {
    assert j <= k < e ==> s[j..e][k - j] == s[k];
  }

  /** A number in the old part of a longer text ended there already. */
  lemma NumberEndedBefore(s: string, x: string, j: nat)
    requires j <= |s| && (x != "" ==> x[0] == 'r') && Remaining.LineU64(s + x, j).Some?
    ensures Remaining.LineU64(s, j) == Remaining.LineU64(s + x, j)
  {
    hide DecimalValue;
    var e := Remaining.DigitsEnd(s + x, j);
    InRun(s + x, j, e, |s|);
    assert x != "" ==> (s + x)[|s|] == x[0] == 'r';
    assert e < |s|;
    assert s[j..e] == (s + x)[j..e] && s[e] == (s + x)[e];
    Remaining.DigitsEndIs(s, j, e);
  }

  lemma TameJoin(s: string, x: string)
    requires Tame(s) && LikeLine(x)
    requires OccursAt(s + x, Remaining.TAG, |s|) && Remaining.LineU64(s + x, |s| + |Remaining.TAG|).Some?
      ==> Remaining.LineU64(s + x, |s| + |Remaining.TAG|).value > 0
    ensures Tame(s + x)
  {
    hide Remaining.LineU64;
    forall i: nat | OccursAt(s + x, Remaining.TAG, i) && Remaining.LineU64(s + x, i + |Remaining.TAG|).Some?
      ensures Remaining.LineU64(s + x, i + |Remaining.TAG|).value > 0
    {
      TagStaysOnSide(s, x, i);
      if i + |Remaining.TAG| <= |s| {
        NumberEndedBefore(s, x, i + |Remaining.TAG|);
      }
    }
  }

  /** A tag lies in the old part, or begins where the new part does. */
  lemma TagStaysOnSide(s: string, x: string, i: nat)
    requires LikeLine(x) && OccursAt(s + x, Remaining.TAG, i)
    ensures i == |s| || (i + |Remaining.TAG| <= |s| && OccursAt(s, Remaining.TAG, i))
  {
    OccursChar(s + x, Remaining.TAG, i, 0);
    Remaining.TagLetters(1);
    if i < |s| && i + |Remaining.TAG| > |s| {
      OccursChar(s + x, Remaining.TAG, i, |s| - i);
      Remaining.TagLetters(|s| - i);
    } else if i + |Remaining.TAG| <= |s| {
      assert s[i..i + |Remaining.TAG|] == (s + x)[i..i + |Remaining.TAG|];
    }
  }

  lemma LineLike(v: nat)
    ensures LikeLine(Remaining.Line(v))
  {
    hide Remaining.Line;
    forall k | 0 <= k < |Remaining.Line(v)| ensures Remaining.Line(v)[k] == 'r' <==> k == 0 {
      Remaining.InsideLine(v, k);
    }
  }

  /** Appending a positive record keeps a file tame. */
  lemma TameAppended(s: string, v: nat)
    requires Tame(s) && 0 < v <= Remaining.U64_MAX
    ensures Tame(s + Remaining.Line(v))
  {
    LineLike(v);
    var d := Decimal(v);
    DecimalRoundTrip(v);
    assert s + Remaining.Line(v) == (s + Remaining.TAG) + d + ([NL] + "");
    Remaining.LineNumber(s + Remaining.TAG, d, "");
    hide Remaining.LineU64;
    hide Tame;
    TameJoin(s, Remaining.Line(v));
  }

  /** So does one that was cut off. */
  lemma TameTorn(s: string, t: string)
    requires Tame(s) && (t == "" || Remaining.Torn(t))
    ensures Tame(s + t) && NUL !in t
  {
    if t == "" {
      assert s + t == s;
    } else {
      var v: nat :| v <= Remaining.U64_MAX && t < Remaining.Line(v);
      LineLike(v);
      NoNewlineIn(t, v);
      assert |t| > 0 && t[0] == Remaining.Line(v)[0];
      hide Remaining.Line;
      assert LikeLine(t);
      hide LikeLine;
      if OccursAt(s + t, Remaining.TAG, |s|) {
        NoNumberWithoutEnd(s + t, |s| + |Remaining.TAG|);
      }
      hide Tame;
      TameJoin(s, t);
    }
  }

  lemma NoNewlineIn(t: string, v: nat)
    requires t < Remaining.Line(v)
    ensures NL !in t && NUL !in t
  {
    StateWindows.LineOnly(v);
    hide Remaining.Line;
    forall k | 0 <= k < |t| ensures t[k] != NL && t[k] != NUL {
      Remaining.InsideLine(v, k);
      assert t[k] == Remaining.Line(v)[k];
      assert IsLogChar(Remaining.Line(v)[k]);
    }
  }

  lemma NoNumberWithoutEnd(s: string, j: nat)
    requires j <= |s| && forall k | j <= k < |s| :: s[k] != NL
    ensures Remaining.LineU64(s, j).None?
  {
    hide DecimalValue;
  }

  // ---- Files that begin well ----

  /** The file starts with a session's first three lines, and is otherwise harmless. */
  ghost predicate Fronted(file: string, hash: Hash) {
    exists seconds: nat, rest: string ::
      && 0 < seconds <= MAX_SESSION_SECONDS && file == Preamble(seconds, hash, true) + rest
      && NUL !in file && Tame(file)
  }

  lemma FrontedAt(file: string, seconds: nat, hash: Hash, rest: string)
    requires 0 < seconds <= MAX_SESSION_SECONDS && file == Preamble(seconds, hash, true) + rest
    requires NUL !in file && Tame(file)
    ensures Fronted(file, hash)
  {
    hide Preamble;
    hide Tame;
  }

  lemma FrontedParts(file: string, hash: Hash) returns (seconds: nat, rest: string)
    requires Fronted(file, hash)
    ensures 0 < seconds <= MAX_SESSION_SECONDS && file == Preamble(seconds, hash, true) + rest
    ensures NUL !in file && Tame(file)
  {
    hide Preamble;
    hide Tame;
    seconds, rest :|
      && 0 < seconds <= MAX_SESSION_SECONDS && file == Preamble(seconds, hash, true) + rest
      && NUL !in file && Tame(file);
  }

  lemma TameFirst(seconds: nat, rest: string)
    requires 0 < seconds <= Remaining.U64_MAX && Absent(rest, Remaining.TAG)
    ensures Tame(Remaining.Line(seconds) + rest)
  {
    var line := Remaining.Line(seconds);
    var s := line + rest;
    DecimalRoundTrip(seconds);
    assert s == Remaining.TAG + Decimal(seconds) + ([NL] + rest);
    Remaining.LineNumber(Remaining.TAG, Decimal(seconds), rest);
    hide Remaining.LineU64;
    hide Remaining.Line;
    hide Absent;
    forall i: nat | OccursAt(s, Remaining.TAG, i) ensures i == 0 {
      OnlyAtFront(seconds, rest, i);
    }
  }

  lemma OnlyAtFront(seconds: nat, rest: string, i: nat)
    requires Absent(rest, Remaining.TAG) && OccursAt(Remaining.Line(seconds) + rest, Remaining.TAG, i)
    ensures i == 0
  {
    hide Remaining.Line;
    var line := Remaining.Line(seconds);
    OccursChar(line + rest, Remaining.TAG, i, 0);
    Remaining.TagLetters(1);
    if i < |line| {
      Remaining.InsideLine(seconds, i);
    } else {
      ShiftedAbsent(line, rest, Remaining.TAG, i);
    }
  }

  lemma ShiftedAbsent(before: string, rest: string, tag: string, i: nat)
    requires Absent(rest, tag) && i >= |before|
    ensures !OccursAt(before + rest, tag, i)
  {
    OccursShift(before, rest, tag, i - |before|);
  }

  /** What a session writes begins well, cut off or not. */
  lemma WrittenFronted(p: Platform, seconds: nat, hash: Hash, l: Lists)
    requires p.Valid() && ListsValid(l) && 0 < seconds <= MAX_SESSION_SECONDS
    ensures Fronted(Written(p, seconds, hash, true, l), hash)
  {
    hide Header;
    hide ListsValid;
    hide StateWindows.HeaderRest;
    hide Remaining.Line;
    hide Tame;
    hide Absent;
    hide Preamble;
    var header := Header(p, seconds, hash, true, l);
    var lists := DomainsPart(l) + (IpsPart(p, l) + AllowedPart(p, l));
    StateWindows.HeaderIsLineAndRest(p, seconds, hash, true, l);
    StateWindows.HeaderRestTagless(p, hash, true, l);
    TameFirst(seconds, StateWindows.HeaderRest(p, hash, true, l));
    StateWindows.HeaderClean(p, seconds, hash, true, l);
    StateWindows.PreambleLength(seconds, hash, true);
    StateWindows.HeaderParts(p, seconds, hash, true, l);
    hide DomainsPart;
    hide IpsPart;
    hide AllowedPart;
    ClipFronted(header, Preamble(seconds, hash, true), lists, seconds, hash);
  }

  /** The first three lines of what a locked session leaves on disk, whatever its lists. */
  lemma FirstLines(p: Platform, seconds: nat, hash: Hash, l: Lists)
    requires 0 < seconds <= MAX_SESSION_SECONDS
    ensures "remaining:" + Decimal(seconds) + "\nkey_hash:" + Hex(hash) + "\npgp_active:1\n"
         <= Written(p, seconds, hash, true, l)
  {
    hide Decimal;
    hide Hex;
    hide DomainsPart;
    hide IpsPart;
    hide AllowedPart;
    StateWindows.PreambleLength(seconds, hash, true);
    PreambleIs(seconds, hash);
    hide Preamble;
  }

  lemma PreambleIs(seconds: nat, hash: Hash)
    ensures Preamble(seconds, hash, true)
         == "remaining:" + Decimal(seconds) + "\nkey_hash:" + Hex(hash) + "\npgp_active:1\n"
  {
    hide Decimal;
    hide Hex;
    var a, b := Decimal(seconds), Hex(hash);
    assert RemainingLine(seconds) + [NL] == "remaining:" + a + "\n";
    assert KeyLine(hash) + [NL] == "key_hash:" + b + "\n";
    assert PgpLine(true) + [NL] == "pgp_active:1\n";
    assert "\n" + ("key_hash:" + b) == "\nkey_hash:" + b && "\n" + "pgp_active:1\n" == "\npgp_active:1\n";
  }

  lemma ClipFronted(header: string, preamble: string, lists: string, seconds: nat, hash: Hash)
    requires header == preamble + lists && NUL !in header && Tame(header)
    requires preamble == Preamble(seconds, hash, true) && |preamble| <= 119 && 0 < seconds <= MAX_SESSION_SECONDS
    ensures Fronted(Clip(header, HEADER_BUFFER - 1), hash)
  {
    hide Tame;
    hide Preamble;
    hide Fronted;
    var n := HEADER_BUFFER - 1;
    var file := Clip(header, n);
    if |header| <= n {
      FrontedAt(header, seconds, hash, lists);
    } else {
      var rest := lists[..n - |preamble|];
      assert header[..n] == preamble + rest;
      assert forall i | 0 <= i < n :: header[..n][i] == header[i];
      assert "" + header[..n] + header[n..] == header;
      TamePart("", header[..n], header[n..]);
      FrontedAt(header[..n], seconds, hash, rest);
    }
  }

  lemma FrontedAppended(file: string, hash: Hash, v: nat)
    requires Fronted(file, hash) && 0 < v <= MAX_SESSION_SECONDS
    ensures Fronted(file + Remaining.Line(v), hash)
  {
    hide Preamble;
    hide Tame;
    hide Fronted;
    var seconds, rest := FrontedParts(file, hash);
    TameAppended(file, v);
    StateWindows.LineOnly(v);
    hide Remaining.Line;
    assert NUL !in Remaining.Line(v);
    assert file + Remaining.Line(v) == Preamble(seconds, hash, true) + (rest + Remaining.Line(v));
    FrontedAt(file + Remaining.Line(v), seconds, hash, rest + Remaining.Line(v));
  }

  lemma FrontedTorn(file: string, hash: Hash, t: string)
    requires Fronted(file, hash) && (t == "" || Remaining.Torn(t))
    ensures Fronted(file + t, hash)
  {
    hide Preamble;
    hide Tame;
    hide Fronted;
    var seconds, rest := FrontedParts(file, hash);
    TameTorn(file, t);
    assert file + t == Preamble(seconds, hash, true) + (rest + t);
    FrontedAt(file + t, seconds, hash, rest + t);
  }

  /** A tame text that starts with a record has some time in it. */
  lemma TimeLeft(s: string)
    requires Tame(s) && Remaining.RecordAt(s, 0).Some? && s != ""
    ensures Remaining.LastRemaining(s) > 0
  {
    Remaining.LastRemainingMeans(s);
    hide Remaining.LastRemaining;
    hide Remaining.LineU64;
  }

  lemma FirstRecord(seconds: nat, hash: Hash, rest: string)
    requires 0 < seconds <= MAX_SESSION_SECONDS
    ensures Remaining.RecordAt(Preamble(seconds, hash, true) + rest, 0) == Some(seconds)
  {
    var after := KeyLine(hash) + [NL] + (PgpLine(true) + [NL]) + rest;
    assert Remaining.Line(seconds) == RemainingLine(seconds) + [NL];
    hide KeyLine;
    hide PgpLine;
    hide RemainingLine;
    assert Preamble(seconds, hash, true) + rest == "" + Remaining.Line(seconds) + after;
    hide Remaining.Line;
    Remaining.LineRecord("", seconds, after);
  }

  /** What the head window shows of such a file begins as well. */
  lemma FrontedHead(file: string, hash: Hash)
    requires Fronted(file, hash)
    ensures Fronted(Head(file), hash)
  {
    hide Preamble;
    hide Tame;
    hide Fronted;
    var seconds, rest := FrontedParts(file, hash);
    StateWindows.PreambleLength(seconds, hash, true);
    var n := if |file| <= STATE_HEAD_MAX then |file| else STATE_HEAD_MAX;
    StateWindows.CleanPrefix(file, n);
    var front := Preamble(seconds, hash, true);
    assert file[..|file|] == file;
    assert file[..n] == front + rest[..n - |front|];
    assert "" + file[..n] + file[n..] == file;
    TamePart("", file[..n], file[n..]);
    assert forall i | 0 <= i < n :: file[..n][i] == file[i];
    FrontedAt(file[..n], seconds, hash, rest[..n - |front|]);
  }

  /** A file that begins well brings a session back, with its hash and some time to run. */
  lemma FrontedRestores(p: Platform, file: string, hash: Hash)
    requires Fronted(file, hash)
    ensures var r := Restore(p, file, NO_LISTS).session;
      r.Some? && r.value.0 == hash && 0 < r.value.1 <= MAX_SESSION_SECONDS
  {
    hide Tame;
    hide Preamble;
    hide Fronted;
    hide Remaining.LastRemaining;
    hide Remaining.RecordAt;
    hide RestoreLists;
    hide RestoreHash;
    hide Head;
    hide Tail;
    FrontedHead(file, hash);
    var seconds, rest := FrontedParts(Head(file), hash);
    HashRoundTrip(seconds, hash, true, rest);
    FirstRecord(seconds, hash, rest);
    RecordNotEmpty(Head(file));
    TimeLeft(Head(file));
    var _, more := FrontedParts(file, hash);
    FrontNotEmpty(file, hash);
  }

  lemma RecordNotEmpty(s: string)
    requires Remaining.RecordAt(s, 0).Some?
    ensures s != ""
  {
    Remaining.TagLetters(1);
    OccursChar(s, Remaining.TAG, 0, 0);
  }

  lemma FrontNotEmpty(file: string, hash: Hash)
    requires Fronted(file, hash)
    ensures file != ""
  {
    hide Tame;
  }
}
