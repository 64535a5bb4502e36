/**
 The application's own version of the schedule rules (gui/src/lib/time.ts), and where it agrees with the
 scheduler's.
 */
module GuiTime {
  import opened Wrappers
  import opened Strings
  import opened Schedule

  // ---- Minutes ----

  /** Number of a run of digits; anything else is not a time. */
  function ToMin(hhmm: string): Option<nat> {
    match FindChar(hhmm, ':', 0)
    case None => None
    case Some(at) =>
      var h, m := hhmm[..at], hhmm[at + 1..];
      if Digits(h) && Digits(m) then Some(DecimalValue(h) * 60 + DecimalValue(m)) else None
  }

  /** On every text the scheduler accepts, both read the same minute. */
  lemma ToMinAgrees(s: string)
    requires ParseHHMM(s).Some?
    ensures ToMin(s) == ParseHHMM(s)
  {
    FindCharIs(s, ':', 0, 2);
    var h, m := s[..2], s[3..];
    assert h == [s[0], s[1]] && m == [s[3], s[4]];
    TwoDigitsValue(s[0], s[1]);
    TwoDigitsValue(s[3], s[4]);
  }

  lemma TwoDigitsValue(a: char, b: char)
    requires IsDigit(a) && IsDigit(b)
    ensures Digits([a, b]) && DecimalValue([a, b]) == TwoDigits(a, b)
  {
    assert [a][..0] == [];
    assert DecimalValue([a]) == DigitValue(a);
    assert [a, b][..1] == [a];
  }

  /** The remainder of a division that rounds towards zero. */
  function TruncMod(a: int, b: int): int
    requires b > 0
  {
    if a >= 0 then a % b else -((-a) % b)
  }

  /** fromMin */
  function FromMin(min: int): string {
    var m := TruncMod(TruncMod(min, DAY_MINUTES) + DAY_MINUTES, DAY_MINUTES);
    FormatHHMM(m)
  }

  /** Any minute, of any day, prints as a time the scheduler reads back as the minute of its day. */
  lemma FromMinReadBack(min: int)
    ensures ParseHHMM(FromMin(min)) == Some(min % DAY_MINUTES)
  {
    var m := TruncMod(TruncMod(min, DAY_MINUTES) + DAY_MINUTES, DAY_MINUTES);
    assert m == min % DAY_MINUTES by {
      if min < 0 {
        var r := (-min) % DAY_MINUTES;
        assert min == -((-min) / DAY_MINUTES) * DAY_MINUTES - r;
      }
    }
    HHMMRoundTrip(FormatHHMM(m), m);
  }

  /** blockLength, with the start it is used with. */
  function GuiSpan(b: Block): Option<Span> {
    match (ToMin(b.start), ToMin(b.end))
    case (Some(s), Some(e)) =>
      var len := if e - s > 0 then e - s else e - s + DAY_MINUTES;
      if len >= 0 then Some(Span(s, len)) else None
    case _ => None
  }

  /** The application and the scheduler give every well-formed block the same start and length. */
  lemma SpansAgree(b: Block)
    requires SpanOf(b).Some?
    ensures GuiSpan(b) == SpanOf(b)
  {
    ToMinAgrees(b.start);
    ToMinAgrees(b.end);
    hide ParseHHMM;
    hide ToMin;
    assert SpanOf(b).value.start < DAY_MINUTES;
  }

  // ---- The week view ----

  /** A piece of a block on one day's row, in minutes from that day's midnight. */
  datatype Segment = Segment(block: Block, start: int, end: int, carried: bool)

  /** The pieces of one block on a weekday: its own start, and what runs over from the day before. */
  function Pieces(b: Block, weekday: int): seq<Segment>
    requires SpanOf(b).Some?
  {
    OwnPiece(b, weekday) + CarriedPiece(b, weekday)
  }

  function OwnPiece(b: Block, weekday: int): (r: seq<Segment>)
    requires SpanOf(b).Some?
    ensures |r| <= 1
  {
    var s := SpanOf(b).value.start;
    var e := s + SpanOf(b).value.length;
    if weekday in b.days then [Segment(b, s, if e < DAY_MINUTES then e else DAY_MINUTES, false)] else []
  }

  function CarriedPiece(b: Block, weekday: int): (r: seq<Segment>)
    requires SpanOf(b).Some?
    ensures |r| <= 1
  {
    var e := SpanOf(b).value.start + SpanOf(b).value.length;
    if e > DAY_MINUTES && (weekday + 6) % 7 in b.days then [Segment(b, 0, e - DAY_MINUTES, true)] else []
  }

  function AllPieces(blocks: seq<Block>, weekday: int): seq<Segment>
    requires forall i | 0 <= i < |blocks| :: SpanOf(blocks[i]).Some?
  {
    if blocks == [] then [] else AllPieces(blocks[..|blocks| - 1], weekday) + Pieces(blocks[|blocks| - 1], weekday)
  }

  /** A stable sort by start, by insertion from the end. */
  function InsertSegment(sorted: seq<Segment>, x: Segment): seq<Segment> {
    if sorted == [] || sorted[|sorted| - 1].start <= x.start then sorted + [x]
    else InsertSegment(sorted[..|sorted| - 1], x) + [sorted[|sorted| - 1]]
  }

  function SortSegments(s: seq<Segment>): seq<Segment> {
    if s == [] then [] else InsertSegment(SortSegments(s[..|s| - 1]), s[|s| - 1])
  }

  /** segmentsForDay */
  method SegmentsForDay(blocks: seq<Block>, weekday: int) returns (out: seq<Segment>)
    requires 0 <= weekday <= 6 && forall i | 0 <= i < |blocks| :: SpanOf(blocks[i]).Some?
    ensures out == SortSegments(AllPieces(blocks, weekday))
  {
    hide SpanOf;
    hide ToMin;
    var prev := (weekday + 6) % 7;
    var pieces: seq<Segment> := [];
    var i := 0;
    while i < |blocks|
      invariant 0 <= i <= |blocks| && pieces == AllPieces(blocks[..i], weekday)
    {
      assert blocks[..i + 1][..i] == blocks[..i];
      var block := blocks[i];
      SpansAgree(block);
      var span := GuiSpan(block).value;
      var e := span.start + span.length;
      ghost var before := pieces;
      if weekday in block.days {
        pieces := pieces + [Segment(block, span.start, if e < DAY_MINUTES then e else DAY_MINUTES, false)];
      }
      if e > DAY_MINUTES && prev in block.days {
        pieces := pieces + [Segment(block, 0, e - DAY_MINUTES, true)];
      }
      assert pieces == before + Pieces(block, weekday);
      i := i + 1;
    }
    assert blocks[..i] == blocks;
    out := SortSegments(pieces);
  }

  lemma {:induction false} InsertSegmentKeeps(sorted: seq<Segment>, x: Segment)
    ensures multiset(InsertSegment(sorted, x)) == multiset(sorted) + multiset{x}
  {
    if sorted != [] && sorted[|sorted| - 1].start > x.start {
      var init, last := sorted[..|sorted| - 1], sorted[|sorted| - 1];
      InsertSegmentKeeps(init, x);
      assert sorted == init + [last];
      assert InsertSegment(sorted, x) == InsertSegment(init, x) + [last];
      hide InsertSegment;
    }
  }

  lemma {:induction false} InsertSegmentLength(sorted: seq<Segment>, x: Segment)
    ensures TotalLength(InsertSegment(sorted, x)) == TotalLength(sorted) + (x.end - x.start)
  {
    if sorted == [] || sorted[|sorted| - 1].start <= x.start {
      assert (sorted + [x])[..|sorted|] == sorted;
    } else {
      var init, last := sorted[..|sorted| - 1], sorted[|sorted| - 1];
      InsertSegmentLength(init, x);
      var r := InsertSegment(init, x) + [last];
      assert r[..|r| - 1] == InsertSegment(init, x);
    }
  }

  lemma {:induction false} SortSegmentsKeeps(s: seq<Segment>)
    ensures multiset(SortSegments(s)) == multiset(s)
    ensures TotalLength(SortSegments(s)) == TotalLength(s)
  {
    hide InsertSegment;
    if s != [] {
      var init, x := s[..|s| - 1], s[|s| - 1];
      SortSegmentsKeeps(init);
      InsertSegmentKeeps(SortSegments(init), x);
      InsertSegmentLength(SortSegments(init), x);
      assert s == init + [x];
      assert SortSegments(s) == InsertSegment(SortSegments(init), x);
      hide SortSegments;
    }
  }

  ghost predicate ByStart(s: seq<Segment>) { forall i, j | 0 <= i < j < |s| :: s[i].start <= s[j].start }

  lemma {:induction false} InsertSegmentFrom(sorted: seq<Segment>, x: Segment, i: nat)
    requires i < |InsertSegment(sorted, x)|
    ensures InsertSegment(sorted, x)[i] == x || InsertSegment(sorted, x)[i] in sorted
  {
    if sorted != [] && sorted[|sorted| - 1].start > x.start && i < |InsertSegment(sorted, x)| - 1 {
      InsertSegmentFrom(sorted[..|sorted| - 1], x, i);
    }
  }

  lemma {:induction false} InsertSegmentSorts(sorted: seq<Segment>, x: Segment)
    requires ByStart(sorted)
    ensures ByStart(InsertSegment(sorted, x))
  {
    if sorted != [] && sorted[|sorted| - 1].start > x.start {
      var init, last := sorted[..|sorted| - 1], sorted[|sorted| - 1];
      InsertSegmentSorts(init, x);
      var r := InsertSegment(init, x);
      forall i | 0 <= i < |r| ensures r[i].start <= last.start {
        InsertSegmentFrom(init, x, i);
      }
      assert InsertSegment(sorted, x) == r + [last];
      hide InsertSegment;
    }
  }

  /** A day's row is in order of start. */
  lemma {:induction false} SegmentsInOrder(s: seq<Segment>)
    ensures ByStart(SortSegments(s))
  {
    if s != [] {
      SegmentsInOrder(s[..|s| - 1]);
      InsertSegmentSorts(SortSegments(s[..|s| - 1]), s[|s| - 1]);
    }
  }

  lemma {:induction false} AllPiecesIs(blocks: seq<Block>, weekday: int, seg: Segment)
    requires forall i | 0 <= i < |blocks| :: SpanOf(blocks[i]).Some?
    ensures seg in AllPieces(blocks, weekday) <==> exists i | 0 <= i < |blocks| :: seg in Pieces(blocks[i], weekday)
  {
    hide SpanOf;
    hide Pieces;
    if blocks != [] {
      var init := blocks[..|blocks| - 1];
      AllPiecesIs(init, weekday, seg);
      if i :| 0 <= i < |init| && seg in Pieces(init[i], weekday) {
        assert seg in Pieces(blocks[i], weekday);
      }
    }
  }

  /** The instant of a minute of a day. */
  function Instant(day: int, minute: int): int { day * DAY + minute * MINUTE }

  ghost predicate Covers(segments: seq<Segment>, b: Block, minute: int) {
    exists seg :: seg in segments && seg.block == b && seg.start <= minute < seg.end
  }

  lemma PiecesIs(b: Block, weekday: int, seg: Segment)
    requires SpanOf(b).Some?
    ensures var s := SpanOf(b).value.start; var e := s + SpanOf(b).value.length;
      seg in Pieces(b, weekday) <==>
        || (weekday in b.days && seg == Segment(b, s, if e < DAY_MINUTES then e else DAY_MINUTES, false))
        || (e > DAY_MINUTES && (weekday + 6) % 7 in b.days && seg == Segment(b, 0, e - DAY_MINUTES, true))
  {
    hide SpanOf;
  }

  /** When a minute is inside a block's window of a day, seen from that day and from the next. */
  lemma WindowMinutes(b: Block, day: int, minute: int)
    requires SpanOf(b).Some? && 0 <= minute < DAY_MINUTES
    ensures var s := SpanOf(b).value.start; var e := s + SpanOf(b).value.length;
      && (Contains(WindowOn(b, day), Instant(day, minute)) <==> s <= minute < e)
      && (Contains(WindowOn(b, day - 1), Instant(day, minute)) <==> minute < e - DAY_MINUTES)
    ensures DayOf(Instant(day, minute)) == day && Weekday(day - 1) == (Weekday(day) + 6) % 7
  {
    hide ParseHHMM;
  }

  lemma PiecesCoverIff(b: Block, day: int, minute: int)
    requires SpanOf(b).Some? && 0 <= minute < DAY_MINUTES
    ensures Covers(Pieces(b, Weekday(day)), b, minute) <==> WindowsAt(b, Instant(day, minute)) != []
  {
    hide SpanOf;
    hide Pieces;
    WindowMinutes(b, day, minute);
    hide Weekday;
    hide WindowOn;
    hide Contains;
    hide DayOf;
    hide Instant;
    var wd, s := Weekday(day), SpanOf(b).value.start;
    var e := s + SpanOf(b).value.length;
    var own := Segment(b, s, if e < DAY_MINUTES then e else DAY_MINUTES, false);
    var carried := Segment(b, 0, e - DAY_MINUTES, true);
    PiecesIs(b, wd, own);
    PiecesIs(b, wd, carried);
    forall seg | seg in Pieces(b, wd)
      ensures (wd in b.days && seg == own) || (e > DAY_MINUTES && (wd + 6) % 7 in b.days && seg == carried)
    {
      PiecesIs(b, wd, seg);
    }
  }

  lemma ShownIs(blocks: seq<Block>, weekday: int, seg: Segment)
    requires forall i | 0 <= i < |blocks| :: SpanOf(blocks[i]).Some?
    requires seg.block in blocks
    ensures seg in SortSegments(AllPieces(blocks, weekday)) <==> seg in Pieces(seg.block, weekday)
  {
    hide SpanOf;
    hide Pieces;
    var all := AllPieces(blocks, weekday);
    SortSegmentsKeeps(all);
    hide SortSegments;
    assert seg in SortSegments(all) <==> seg in multiset(SortSegments(all));
    assert seg in all <==> seg in multiset(all);
    AllPiecesIs(blocks, weekday, seg);
    hide AllPieces;
    if i :| 0 <= i < |blocks| && seg in Pieces(blocks[i], weekday) {
      PiecesIs(blocks[i], weekday, seg);
      assert seg.block == blocks[i];
    }
    if seg in Pieces(seg.block, weekday) {
      var i :| 0 <= i < |blocks| && blocks[i] == seg.block;
    }
  }

  /**
   For every schedule and every day: a minute lies in one of the pieces shown for a block on that weekday
   exactly when the scheduler has a window of that block open then.
   */
  lemma SegmentsMatchScheduler(blocks: seq<Block>, b: Block, day: int, minute: int)
    requires forall i | 0 <= i < |blocks| :: SpanOf(blocks[i]).Some?
    requires b in blocks && 0 <= minute < DAY_MINUTES
    ensures Covers(SortSegments(AllPieces(blocks, Weekday(day))), b, minute)
       <==> WindowsAt(b, Instant(day, minute)) != []
  {
    hide SpanOf;
    hide WindowsAt;
    hide SortSegments;
    hide AllPieces;
    hide Pieces;
    hide Weekday;
    PiecesCoverIff(b, day, minute);
    forall seg: Segment | seg.block == b
      ensures seg in SortSegments(AllPieces(blocks, Weekday(day))) <==> seg in Pieces(b, Weekday(day))
    {
      ShownIs(blocks, Weekday(day), seg);
    }
  }

  // ---- Lengths over the week ----

  function TotalLength(s: seq<Segment>): int {
    if s == [] then 0 else TotalLength(s[..|s| - 1]) + (s[|s| - 1].end - s[|s| - 1].start)
  }

  lemma {:induction false} TotalLengthAppend(a: seq<Segment>, b: seq<Segment>)
    ensures TotalLength(a + b) == TotalLength(a) + TotalLength(b)
  {
    if b == [] {
      assert a + b == a;
    } else {
      TotalLengthAppend(a, b[..|b| - 1]);
      assert (a + b)[..|a + b| - 1] == a + b[..|b| - 1];
    }
  }

  function On(days: seq<int>, d: int): nat { if d in days then 1 else 0 }

  function DaysChosen(days: seq<int>): nat {
    On(days, 0) + On(days, 1) + On(days, 2) + On(days, 3) + On(days, 4) + On(days, 5) + On(days, 6)
  }

  ghost predicate DaysDistinct(days: seq<int>) {
    && (forall i | 0 <= i < |days| :: 0 <= days[i] <= 6)
    && (forall i, j | 0 <= i < j < |days| :: days[i] != days[j])
  }

  lemma {:induction false} DistinctDaysCounted(days: seq<int>)
    requires DaysDistinct(days)
    ensures DaysChosen(days) == |days|
  {
    hide On;
    if days == [] {
      NoDays();
    } else {
      var init, d := days[..|days| - 1], days[|days| - 1];
      DistinctDaysCounted(init);
      assert days == init + [d];
      OnSnoc(init, d, 0);
      OnSnoc(init, d, 1);
      OnSnoc(init, d, 2);
      OnSnoc(init, d, 3);
      OnSnoc(init, d, 4);
      OnSnoc(init, d, 5);
      OnSnoc(init, d, 6);
    }
  }

  lemma NoDays()
    ensures DaysChosen([]) == 0
  {
  }

  lemma OnSnoc(init: seq<int>, d: int, x: int)
    requires d !in init
    ensures On(init + [d], x) == if x == d then On(init, x) + 1 else On(init, x)
  {
  }

  lemma PiecesLength(b: Block, weekday: int)
    requires SpanOf(b).Some?
    ensures TotalLength(Pieces(b, weekday))
         == OwnLength(b) * On(b.days, weekday) + (SpanOf(b).value.length - OwnLength(b)) * On(b.days, (weekday + 6) % 7)
  {
    hide SpanOf;
    hide On;
    hide OwnLength;
    hide TotalLength;
    var own, carried := OwnPiece(b, weekday), CarriedPiece(b, weekday);
    TotalLengthAppend(own, carried);
    LengthOfOne(own);
    LengthOfOne(carried);
    PieceLengths(b, weekday);
    hide OwnPiece;
    hide CarriedPiece;
    TimesOn(OwnLength(b), b.days, weekday);
    TimesOn(SpanOf(b).value.length - OwnLength(b), b.days, (weekday + 6) % 7);
  }

  lemma TimesOn(k: int, days: seq<int>, d: int)
    ensures k * On(days, d) == if d in days then k else 0
  {
  }

  lemma PieceLengths(b: Block, weekday: int)
    requires SpanOf(b).Some?
    ensures var own, carried := OwnPiece(b, weekday), CarriedPiece(b, weekday);
      && (if own == [] then 0 else own[0].end - own[0].start) == (if weekday in b.days then OwnLength(b) else 0)
      && (if carried == [] then 0 else carried[0].end - carried[0].start)
         == (if (weekday + 6) % 7 in b.days then SpanOf(b).value.length - OwnLength(b) else 0)
  {
    hide SpanOf;
  }

  lemma LengthOfOne(s: seq<Segment>)
    requires |s| <= 1
    ensures TotalLength(s) == if s == [] then 0 else s[0].end - s[0].start
  {
    assert s != [] ==> s[..0] == [];
  }

  /** The part of a window before midnight. */
  function OwnLength(b: Block): int
    requires SpanOf(b).Some?
  {
    var s, length := SpanOf(b).value.start, SpanOf(b).value.length;
    if s + length < DAY_MINUTES then length else DAY_MINUTES - s
  }

  /** What the week view shows of a block, all seven days together. */
  function WeekLength(b: Block): int
    requires SpanOf(b).Some?
  {
    TotalLength(Pieces(b, 0)) + TotalLength(Pieces(b, 1)) + TotalLength(Pieces(b, 2)) + TotalLength(Pieces(b, 3))
    + TotalLength(Pieces(b, 4)) + TotalLength(Pieces(b, 5)) + TotalLength(Pieces(b, 6))
  }

  /** It is the block's length once for each of its days: nothing is lost or doubled at midnight. */
  lemma BlockWeekAddsUp(b: Block)
    requires SpanOf(b).Some? && DaysDistinct(b.days)
    ensures WeekLength(b) == SpanOf(b).value.length * |b.days|
  {
    hide Pieces;
    hide SpanOf;
    hide On;
    hide TotalLength;
    hide OwnLength;
    hide DaysDistinct;
    DistinctDaysCounted(b.days);
    PiecesLength(b, 0);
    PiecesLength(b, 1);
    PiecesLength(b, 2);
    PiecesLength(b, 3);
    PiecesLength(b, 4);
    PiecesLength(b, 5);
    PiecesLength(b, 6);
    WeekSum(OwnLength(b), SpanOf(b).value.length - OwnLength(b), On(b.days, 0), On(b.days, 1), On(b.days, 2),
            On(b.days, 3), On(b.days, 4), On(b.days, 5), On(b.days, 6));
  }

  /** The lengths of all segments the application shows in a week, row by row as segmentsForDay returns them. */
  function ShownWeek(blocks: seq<Block>): int
    requires forall i | 0 <= i < |blocks| :: SpanOf(blocks[i]).Some?
  {
    ShownDay(blocks, 0) + ShownDay(blocks, 1) + ShownDay(blocks, 2) + ShownDay(blocks, 3)
    + ShownDay(blocks, 4) + ShownDay(blocks, 5) + ShownDay(blocks, 6)
  }

  function ShownDay(blocks: seq<Block>, weekday: int): int
    requires forall i | 0 <= i < |blocks| :: SpanOf(blocks[i]).Some?
  {
    TotalLength(SortSegments(AllPieces(blocks, weekday)))
  }

  /** The time the blocks of a schedule take up in a week. */
  function WeeklyMinutes(blocks: seq<Block>): int
    requires forall i | 0 <= i < |blocks| :: SpanOf(blocks[i]).Some?
  {
    if blocks == [] then 0
    else
      var b := blocks[|blocks| - 1];
      WeeklyMinutes(blocks[..|blocks| - 1]) + SpanOf(b).value.length * |b.days|
  }

  lemma ShownDaySnoc(blocks: seq<Block>, weekday: int)
    requires blocks != [] && forall i | 0 <= i < |blocks| :: SpanOf(blocks[i]).Some?
    ensures ShownDay(blocks, weekday)
         == ShownDay(blocks[..|blocks| - 1], weekday) + TotalLength(Pieces(blocks[|blocks| - 1], weekday))
  {
    hide SpanOf;
    hide Pieces;
    hide TotalLength;
    hide SortSegments;
    var init, b := blocks[..|blocks| - 1], blocks[|blocks| - 1];
    SortSegmentsKeeps(AllPieces(blocks, weekday));
    SortSegmentsKeeps(AllPieces(init, weekday));
    TotalLengthAppend(AllPieces(init, weekday), Pieces(b, weekday));
  }

  /** The segments shown for a week add up to each block's length once for each of its days. */
  lemma {:induction false} WeekAddsUp(blocks: seq<Block>)
    requires forall i | 0 <= i < |blocks| :: SpanOf(blocks[i]).Some? && DaysDistinct(blocks[i].days)
    ensures ShownWeek(blocks) == WeeklyMinutes(blocks)
  {
    hide SpanOf;
    hide DaysDistinct;
    hide Pieces;
    if blocks == [] {
      assert AllPieces(blocks, 0) == [] && AllPieces(blocks, 1) == [] && AllPieces(blocks, 2) == [];
      assert AllPieces(blocks, 3) == [] && AllPieces(blocks, 4) == [] && AllPieces(blocks, 5) == [];
      assert AllPieces(blocks, 6) == [];
    } else {
      WeekAddsUp(blocks[..|blocks| - 1]);
      hide TotalLength;
      ShownDaySnoc(blocks, 0);
      ShownDaySnoc(blocks, 1);
      ShownDaySnoc(blocks, 2);
      ShownDaySnoc(blocks, 3);
      ShownDaySnoc(blocks, 4);
      ShownDaySnoc(blocks, 5);
      ShownDaySnoc(blocks, 6);
      hide ShownDay;
      BlockWeekAddsUp(blocks[|blocks| - 1]);
    }
  }

  lemma WeekSum(own: int, rest: int, a0: int, a1: int, a2: int, a3: int, a4: int, a5: int, a6: int)
    ensures (own * a0 + rest * a6) + (own * a1 + rest * a0) + (own * a2 + rest * a1) + (own * a3 + rest * a2)
          + (own * a4 + rest * a3) + (own * a5 + rest * a4) + (own * a6 + rest * a5)
         == (own + rest) * (a0 + a1 + a2 + a3 + a4 + a5 + a6)
  {
  }

  // ---- Occurrences ----

  /** The occurrences of the enabled blocks that start on a day, in list order. */
  function OccurrencesOn(blocks: seq<Block>, n: nat, day: int): seq<Choice>
    requires n <= |blocks| && forall i | 0 <= i < |blocks| :: SpanOf(blocks[i]).Some?
  {
    if n == 0 then [] else
      var b := blocks[n - 1];
      var mine := if b.enabled && Weekday(day) in b.days then [Choice(n - 1, WindowOn(b, day))] else [];
      OccurrencesOn(blocks, n - 1, day) + mine
  }

  /** Those starting on the days from `first` up to and not including `last`. */
  function OccurrencesFrom(blocks: seq<Block>, first: int, last: int): seq<Choice>
    requires forall i | 0 <= i < |blocks| :: SpanOf(blocks[i]).Some?
    decreases last - first
  {
    if last <= first then [] else OccurrencesFrom(blocks, first, last - 1) + OccurrencesOn(blocks, |blocks|, last - 1)
  }

  function InsertChoice(sorted: seq<Choice>, x: Choice): seq<Choice> {
    if sorted == [] || sorted[|sorted| - 1].window.start <= x.window.start then sorted + [x]
    else InsertChoice(sorted[..|sorted| - 1], x) + [sorted[|sorted| - 1]]
  }

  function SortChoices(s: seq<Choice>): seq<Choice> {
    if s == [] then [] else InsertChoice(SortChoices(s[..|s| - 1]), s[|s| - 1])
  }

  /** occurrencesAround: days -1 to `days` from the day of `now`, sorted by start. */
  function Around(blocks: seq<Block>, now: int, days: int): seq<Choice>
    requires forall i | 0 <= i < |blocks| :: SpanOf(blocks[i]).Some?
  {
    SortChoices(OccurrencesFrom(blocks, DayOf(now) - 1, DayOf(now) + days + 1))
  }

  method OccurrencesAround(blocks: seq<Block>, now: int, days: nat) returns (out: seq<Choice>)
    requires forall i | 0 <= i < |blocks| :: SpanOf(blocks[i]).Some?
    ensures out == Around(blocks, now, days)
  {
    hide SpanOf;
    hide ToMin;
    out := [];
    var offset := -1;
    while offset <= days
      invariant -1 <= offset <= days + 1
      invariant out == OccurrencesFrom(blocks, DayOf(now) - 1, DayOf(now) + offset)
    {
      var day := DayOf(now) + offset;
      ghost var before := out;
      var i := 0;
      while i < |blocks|
        invariant 0 <= i <= |blocks| && out == before + OccurrencesOn(blocks, i, day)
      {
        var block := blocks[i];
        if block.enabled && Weekday(day) in block.days {
          SpansAgree(block);
          var span := GuiSpan(block).value;
          var start := day * DAY + span.start * MINUTE;
          out := out + [Choice(i, Window(block, start, start + span.length * MINUTE))];
        }
        i := i + 1;
      }
      offset := offset + 1;
    }
    out := SortChoices(out);
  }

  /** Earlier start first, then earlier position. */
  predicate Earlier(a: Choice, b: Choice) {
    a.window.start < b.window.start || (a.window.start == b.window.start && a.index < b.index)
  }

  ghost predicate InOrder(s: seq<Choice>) { forall i, j | 0 <= i < j < |s| :: Earlier(s[i], s[j]) }

  /** Equal starts come in list order. */
  ghost predicate TiesInOrder(s: seq<Choice>) {
    forall i, j | 0 <= i < j < |s| :: s[i].window.start == s[j].window.start ==> s[i].index < s[j].index
  }

  ghost predicate SameElements(a: seq<Choice>, b: seq<Choice>) { forall x: Choice :: x in a <==> x in b }

  lemma {:induction false} InsertChoiceSorts(sorted: seq<Choice>, x: Choice)
    requires InOrder(sorted)
    requires forall y | y in sorted :: y.window.start == x.window.start ==> y.index < x.index
    ensures InOrder(InsertChoice(sorted, x)) && SameElements(InsertChoice(sorted, x), sorted + [x])
  {
    if sorted == [] || sorted[|sorted| - 1].window.start <= x.window.start {
      forall i, j | 0 <= i < j < |sorted + [x]| ensures Earlier((sorted + [x])[i], (sorted + [x])[j]) {
        if j == |sorted| && i < |sorted| - 1 {
          assert Earlier(sorted[i], sorted[|sorted| - 1]);
        }
      }
    } else {
      var init, last := sorted[..|sorted| - 1], sorted[|sorted| - 1];
      InsertChoiceSorts(init, x);
      var r := InsertChoice(init, x);
      assert sorted == init + [last];
      forall y | y in r ensures Earlier(y, last) {
        assert y in init + [x];
      }
    }
  }

  lemma {:induction false} SortChoicesSorts(s: seq<Choice>)
    requires TiesInOrder(s)
    ensures InOrder(SortChoices(s)) && SameElements(SortChoices(s), s)
  {
    if s != [] {
      var init, x := s[..|s| - 1], s[|s| - 1];
      assert s == init + [x];
      assert TiesInOrder(init);
      SortChoicesSorts(init);
      InsertChoiceSorts(SortChoices(init), x);
    }
  }

  /** An occurrence of an enabled block, on some day. */
  ghost predicate Occurs(blocks: seq<Block>, day: int, c: Choice) {
    c.index < |blocks| && blocks[c.index].enabled && OccursOn(blocks[c.index], day, c.window)
  }

  lemma {:induction false} OccurrencesOnIs(blocks: seq<Block>, n: nat, day: int)
    requires n <= |blocks| && forall i | 0 <= i < |blocks| :: SpanOf(blocks[i]).Some?
    ensures forall c: Choice :: c in OccurrencesOn(blocks, n, day) <==> c.index < n && Occurs(blocks, day, c)
    ensures forall i, j | 0 <= i < j < |OccurrencesOn(blocks, n, day)| ::
      OccurrencesOn(blocks, n, day)[i].index < OccurrencesOn(blocks, n, day)[j].index
  {
    hide SpanOf;
    hide WindowOn;
    if n > 0 {
      OccurrencesOnIs(blocks, n - 1, day);
    }
  }

  /** A window starts on the day it is of. */
  lemma StartsOnItsDay(b: Block, day: int)
    requires SpanOf(b).Some?
    ensures DayOf(WindowOn(b, day).start) == day
  {
    hide ParseHHMM;
  }

  lemma {:induction false} OccurrencesFromIs(blocks: seq<Block>, first: int, last: int)
    requires forall i | 0 <= i < |blocks| :: SpanOf(blocks[i]).Some?
    ensures var s := OccurrencesFrom(blocks, first, last);
      && TiesInOrder(s)
      && (forall c: Choice | c in s ::
            first <= DayOf(c.window.start) < last && Occurs(blocks, DayOf(c.window.start), c))
      && (forall c: Choice, day | first <= day < last && Occurs(blocks, day, c) :: c in s)
    decreases last - first
  {
    hide SpanOf;
    hide DayOf;
    hide TiesInOrder;
    hide Occurs;
    hide OccurrencesFrom;
    hide OccurrencesOn;
    if first < last {
      OccurrencesFromIs(blocks, first, last - 1);
      OccurrencesOnIs(blocks, |blocks|, last - 1);
      OccurrencesFromStep(blocks, first, last);
      var init, more := OccurrencesFrom(blocks, first, last - 1), OccurrencesOn(blocks, |blocks|, last - 1);
      forall c: Choice | Occurs(blocks, last - 1, c) ensures c in more && DayOf(c.window.start) == last - 1 {
        OccurrenceDay(blocks, last - 1, c);
      }
      OneMoreDay(init, more, last - 1);
    } else {
      NoDaysToShow(blocks, first, last);
      NoTies();
    }
  }

  lemma NoDaysToShow(blocks: seq<Block>, first: int, last: int)
    requires last <= first && forall i | 0 <= i < |blocks| :: SpanOf(blocks[i]).Some?
    ensures OccurrencesFrom(blocks, first, last) == []
  {
  }

  lemma NoTies()
    ensures TiesInOrder([])
  {
  }

  lemma OccurrenceDay(blocks: seq<Block>, day: int, c: Choice)
    requires Occurs(blocks, day, c)
    ensures c.index < |blocks| && DayOf(c.window.start) == day
  {
    StartsOnItsDay(blocks[c.index], day);
  }

  lemma OccurrencesFromStep(blocks: seq<Block>, first: int, last: int)
    requires first < last && forall i | 0 <= i < |blocks| :: SpanOf(blocks[i]).Some?
    ensures OccurrencesFrom(blocks, first, last)
         == OccurrencesFrom(blocks, first, last - 1) + OccurrencesOn(blocks, |blocks|, last - 1)
  {
  }

  lemma OneMoreDay(init: seq<Choice>, more: seq<Choice>, day: int)
    requires TiesInOrder(init) && forall i, j | 0 <= i < j < |more| :: more[i].index < more[j].index
    requires forall c: Choice | c in init :: DayOf(c.window.start) < day
    requires forall c: Choice | c in more :: DayOf(c.window.start) == day
    ensures TiesInOrder(init + more)
  {
    hide DayOf;
    var s := init + more;
    forall i | 0 <= i < |s|
      ensures if i < |init| then DayOf(s[i].window.start) < day else DayOf(s[i].window.start) == day
    {
      assert s[i] in if i < |init| then init else more;
    }
    forall i, j | 0 <= i < j < |s| && s[i].window.start == s[j].window.start ensures s[i].index < s[j].index {
      if i >= |init| {
        assert s[i] == more[i - |init|] && s[j] == more[j - |init|];
      }
    }
  }

  /** The list is sorted, and holds exactly the occurrences of those days. */
  lemma AroundIs(blocks: seq<Block>, now: int, days: nat)
    requires forall i | 0 <= i < |blocks| :: SpanOf(blocks[i]).Some?
    ensures var s := Around(blocks, now, days);
      && InOrder(s)
      && (forall c: Choice | c in s :: Occurs(blocks, DayOf(c.window.start), c))
      && (forall c: Choice, day | DayOf(now) - 1 <= day <= DayOf(now) + days && Occurs(blocks, day, c) :: c in s)
  {
    hide Occurs;
    hide OccurrencesFrom;
    hide SortChoices;
    hide DayOf;
    hide InOrder;
    hide TiesInOrder;
    hide SpanOf;
    var s := OccurrencesFrom(blocks, DayOf(now) - 1, DayOf(now) + days + 1);
    OccurrencesFromIs(blocks, DayOf(now) - 1, DayOf(now) + days + 1);
    SortChoicesSorts(s);
  }

  // ---- The active occurrence ----

  /** The first of those that end last among the ones containing `now`. */
  function LastEnding(s: seq<Choice>, now: int): Option<Choice> {
    if s == [] then None
    else
      var best, o := LastEnding(s[..|s| - 1], now), s[|s| - 1];
      if Contains(o.window, now) && (best.None? || o.window.end > best.value.window.end) then Some(o) else best
  }

  /** activeOccurrence */
  method ActiveOccurrence(blocks: seq<Block>, now: int) returns (best: Option<Choice>)
    requires forall i | 0 <= i < |blocks| :: SpanOf(blocks[i]).Some?
    ensures best == LastEnding(Around(blocks, now, 0), now)
  {
    hide SpanOf;
    var os := OccurrencesAround(blocks, now, 0);
    best := None;
    var i := 0;
    while i < |os|
      invariant 0 <= i <= |os| && best == LastEnding(os[..i], now)
    {
      assert os[..i + 1][..i] == os[..i];
      var o := os[i];
      if o.window.start <= now && now < o.window.end && (best.None? || o.window.end > best.value.window.end) {
        best := Some(o);
      }
      i := i + 1;
    }
    assert os[..i] == os;
  }

  /** What it picks of a list in order: latest end, then earliest in the list. */
  ghost predicate PicksLastEnding(s: seq<Choice>, now: int, r: Option<Choice>) {
    match r
    case None => forall c: Choice | c in s :: !Contains(c.window, now)
    case Some(best) =>
      && best in s && Contains(best.window, now)
      && forall c: Choice | c in s && Contains(c.window, now) ::
           c == best || c.window.end < best.window.end || (c.window.end == best.window.end && Earlier(best, c))
  }

  lemma {:induction false} LastEndingIs(s: seq<Choice>, now: int)
    requires InOrder(s)
    ensures PicksLastEnding(s, now, LastEnding(s, now))
  {
    hide Contains;
    if s != [] {
      var init, o := s[..|s| - 1], s[|s| - 1];
      LastEndingIs(init, now);
      assert s == init + [o];
      forall c: Choice | c in init ensures Earlier(c, o) {
        var i :| 0 <= i < |init| && init[i] == c;
        assert Earlier(s[i], s[|s| - 1]);
      }
    }
  }

  function GuiActive(blocks: seq<Block>, now: int): Option<Choice>
    requires forall i | 0 <= i < |blocks| :: SpanOf(blocks[i]).Some?
  {
    LastEnding(Around(blocks, now, 0), now)
  }

  /** The same windows are candidates for both. */
  lemma GuiActiveIs(blocks: seq<Block>, now: int)
    requires forall i | 0 <= i < |blocks| :: SpanOf(blocks[i]).Some?
    ensures match GuiActive(blocks, now)
            case None => forall c: Choice :: !Candidate(blocks, now, c)
            case Some(best) =>
              && Candidate(blocks, now, best)
              && forall c: Choice | Candidate(blocks, now, c) ::
                   c == best || c.window.end < best.window.end || (c.window.end == best.window.end && Earlier(best, c))
  {
    hide SpanOf;
    hide Earlier;
    var s := Around(blocks, now, 0);
    AroundIs(blocks, now, 0);
    LastEndingIs(s, now);
    hide Around;
    forall c: Choice ensures (c in s && Contains(c.window, now)) <==> Candidate(blocks, now, c) {
      OpenIsAround(blocks, now, c);
    }
    hide Candidate;
    hide Contains;
    hide InOrder;
    hide LastEnding;
  }

  lemma OpenIsAround(blocks: seq<Block>, now: int, c: Choice)
    requires forall i | 0 <= i < |blocks| :: SpanOf(blocks[i]).Some?
    ensures c in Around(blocks, now, 0) && Contains(c.window, now) <==> Candidate(blocks, now, c)
  {
    hide SpanOf;
    hide Around;
    hide WindowOn;
    hide InOrder;
    AroundIs(blocks, now, 0);
    if Candidate(blocks, now, c) {
      TwoDaysAreEnough(blocks[c.index], now, c.window);
      var d := DayOf(now);
      assert c.window in OpenOn(blocks[c.index], d - 1, now) || c.window in OpenOn(blocks[c.index], d, now);
      assert Occurs(blocks, d - 1, c) || Occurs(blocks, d, c);
    }
    if c in Around(blocks, now, 0) {
      assert Occurs(blocks, DayOf(c.window.start), c);
      TwoDaysAreEnough(blocks[c.index], now, c.window);
    }
  }

  /** An open window of an enabled block that no other outlasts. */
  ghost predicate EndsLast(blocks: seq<Block>, now: int, c: Choice) {
    Candidate(blocks, now, c) && forall d: Choice | Candidate(blocks, now, d) :: d.window.end <= c.window.end
  }

  /** Of the windows that end last, one is both listed first and begun first. */
  ghost predicate FirstBothWays(blocks: seq<Block>, now: int) {
    exists c: Choice :: EndsLast(blocks, now, c)
      && forall d: Choice | EndsLast(blocks, now, d) :: c.index <= d.index && c.window.start <= d.window.start
  }

  /**
   Application and scheduler agree on whether a window is open and on when it ends, at every instant.
   They agree on the window itself exactly when, of the open windows that end last, the one listed first is
   also one begun first.
   */
  lemma ActiveAgrees(blocks: seq<Block>, now: int)
    requires forall i | 0 <= i < |blocks| :: SpanOf(blocks[i]).Some?
    ensures match (Active(blocks, now), GuiActive(blocks, now))
            case (None, None) => true
            case (Some(go), Some(gui)) =>
              go.window.end == gui.window.end && (go == gui <==> FirstBothWays(blocks, now))
            case _ => false
  {
    hide Active;
    hide GuiActive;
    hide Candidate;
    hide SpanOf;
    ActiveIs(blocks, now);
    GuiActiveIs(blocks, now);
    if Active(blocks, now).Some? && GuiActive(blocks, now).Some? {
      var go, gui := Active(blocks, now).value, GuiActive(blocks, now).value;
      assert EndsLast(blocks, now, go) && EndsLast(blocks, now, gui);
    }
  }

  /** The minute of the day a block's windows end at. */
  function EndMinute(b: Block): int
    requires SpanOf(b).Some?
  {
    (SpanOf(b).value.start + SpanOf(b).value.length) % DAY_MINUTES
  }

  /** Of the enabled blocks that end at the same time of day, those listed first are the longest. */
  ghost predicate LongestFirst(blocks: seq<Block>)
    requires forall i | 0 <= i < |blocks| :: SpanOf(blocks[i]).Some?
  {
    forall i, j | 0 <= i < j < |blocks| && blocks[i].enabled && blocks[j].enabled ::
      EndMinute(blocks[i]) == EndMinute(blocks[j]) ==>
        SpanOf(blocks[i]).value.length >= SpanOf(blocks[j]).value.length
  }

  lemma SameEnd(a: Block, d: int, b: Block, e: int)
    requires SpanOf(a).Some? && SpanOf(b).Some? && WindowOn(a, d).end == WindowOn(b, e).end
    ensures EndMinute(a) == EndMinute(b)
    ensures SpanOf(a).value.length >= SpanOf(b).value.length ==> WindowOn(a, d).start <= WindowOn(b, e).start
  {
    hide SpanOf;
    EndsAt(a, d);
    EndsAt(b, e);
    var x, y := SpanOf(a).value, SpanOf(b).value;
    hide WindowOn;
    var m, n := d * DAY_MINUTES + (x.start + x.length), e * DAY_MINUTES + (y.start + y.length);
    assert m == n;
    ModDay(d, x.start + x.length);
    ModDay(e, y.start + y.length);
  }

  lemma EndsAt(b: Block, day: int)
    requires SpanOf(b).Some?
    ensures var x, w := SpanOf(b).value, WindowOn(b, day);
      w.end == (day * DAY_MINUTES + (x.start + x.length)) * MINUTE && w.start == w.end - x.length * MINUTE
  {
    hide SpanOf;
  }

  lemma ModDay(d: int, m: int)
    ensures (d * DAY_MINUTES + m) % DAY_MINUTES == m % DAY_MINUTES
  {
  }

  /** What a user can see in the list: listed longest first, both always name the same window. */
  lemma LongestFirstSuffices(blocks: seq<Block>, now: int)
    requires forall i | 0 <= i < |blocks| :: SpanOf(blocks[i]).Some?
    requires LongestFirst(blocks)
    ensures Active(blocks, now) == GuiActive(blocks, now)
  {
    hide *;
    ActiveAgrees(blocks, now);
    if Active(blocks, now).Some? {
      var c := Active(blocks, now).value;
      forall d: Choice
        ensures EndsLast(blocks, now, c)
        ensures EndsLast(blocks, now, d) ==> c.index <= d.index && c.window.start <= d.window.start
      {
        ListedFirstStartsFirst(blocks, now, c, d);
      }
      FirstBothWaysAt(blocks, now, c);
    }
  }

  lemma FirstBothWaysAt(blocks: seq<Block>, now: int, c: Choice)
    requires EndsLast(blocks, now, c)
    requires forall d: Choice | EndsLast(blocks, now, d) :: c.index <= d.index && c.window.start <= d.window.start
    ensures FirstBothWays(blocks, now)
  {
    hide EndsLast;
  }

  lemma ListedFirstStartsFirst(blocks: seq<Block>, now: int, c: Choice, d: Choice)
    requires forall i | 0 <= i < |blocks| :: SpanOf(blocks[i]).Some?
    requires LongestFirst(blocks) && Active(blocks, now) == Some(c)
    ensures EndsLast(blocks, now, c)
    ensures EndsLast(blocks, now, d) ==> c.index <= d.index && c.window.start <= d.window.start
  {
    hide SpanOf;
    hide Active;
    hide Candidate;
    hide LongestFirst;
    ActiveIs(blocks, now);
    if EndsLast(blocks, now, d) {
      StartsNoLater(blocks, now, c, d);
    }
  }

  lemma StartsNoLater(blocks: seq<Block>, now: int, c: Choice, d: Choice)
    requires forall i | 0 <= i < |blocks| :: SpanOf(blocks[i]).Some?
    requires LongestFirst(blocks) && Candidate(blocks, now, c) && Candidate(blocks, now, d)
    requires c.window.end == d.window.end && (c == d || c.index < d.index)
    ensures c.index <= d.index && c.window.start <= d.window.start
  {
    hide SpanOf;
    hide WindowsAt;
    hide WindowOn;
    hide EndMinute;
    TwoDaysAreEnough(blocks[c.index], now, c.window);
    TwoDaysAreEnough(blocks[d.index], now, d.window);
    var x :| OccursOn(blocks[c.index], x, c.window);
    var y :| OccursOn(blocks[d.index], y, d.window);
    SameEnd(blocks[c.index], x, blocks[d.index], y);
  }

  function Sample(start: string): Block { Block(start, "", [0], start, "12:00", true) }

  /**
   At eleven, of two windows up to noon, the scheduler takes the one listed first and the application the one
   begun first.
   */
  lemma ActiveCanDiffer()
    ensures var blocks := [Sample("10:00"), Sample("09:00")];
      && BlocksValid(blocks) && (forall i | 0 <= i < |blocks| :: SpanOf(blocks[i]).Some?)
      && Active(blocks, 660 * MINUTE) == Some(Choice(0, WindowOn(blocks[0], 0)))
      && GuiActive(blocks, 660 * MINUTE) == Some(Choice(1, WindowOn(blocks[1], 0)))
  {
    hide Sample;
    hide SpanOf;
    hide WindowsAt;
    hide WindowOn;
    hide Active;
    hide GuiActive;
    hide Candidate;
    hide BlockValid;
    var ten, nine := Sample("10:00"), Sample("09:00");
    SampleSpans();
    SampleOpen(ten);
    SampleOpen(nine);
    SamplesDiffer();
    SampleCandidates();
    assert Candidate([ten, nine], 660 * MINUTE, Choice(0, WindowOn(ten, 0)));
    assert Candidate([ten, nine], 660 * MINUTE, Choice(1, WindowOn(nine, 0)));
    ActiveIs([ten, nine], 660 * MINUTE);
    GuiActiveIs([ten, nine], 660 * MINUTE);
  }

  lemma SamplesDiffer()
    ensures Sample("10:00").id != Sample("09:00").id
  {
  }

  /** Both windows are open at eleven, and no other is. */
  lemma SampleCandidates()
    ensures var ten, nine := Sample("10:00"), Sample("09:00");
      forall c: Choice :: Candidate([ten, nine], 660 * MINUTE, c)
        <==> c == Choice(0, WindowOn(ten, 0)) || c == Choice(1, WindowOn(nine, 0))
  {
    var ten, nine := Sample("10:00"), Sample("09:00");
    hide BlockValid;
    SampleOpen(ten);
    SampleOpen(nine);
    assert ten.enabled && nine.enabled;
    hide Sample;
    hide SpanOf;
    hide WindowsAt;
    hide WindowOn;
    forall c: Choice
      ensures Candidate([ten, nine], 660 * MINUTE, c)
         <==> c == Choice(0, WindowOn(ten, 0)) || c == Choice(1, WindowOn(nine, 0))
    {
      assert c.index < 2 ==> [ten, nine][c.index] == if c.index == 0 then ten else nine;
    }
  }

  lemma SampleOpen(b: Block)
    requires b == Sample("10:00") || b == Sample("09:00")
    ensures SpanOf(b).Some? && WindowsAt(b, 660 * MINUTE) == [WindowOn(b, 0)]
    ensures WindowOn(b, 0).end == 720 * MINUTE
    ensures WindowOn(b, 0).start == if b == Sample("10:00") then 600 * MINUTE else 540 * MINUTE
  {
    SampleSpans();
    hide SpanOf;
    assert DayOf(660 * MINUTE) == 0;
  }

  lemma SampleSpans()
    ensures SpanOf(Sample("10:00")) == Some(Span(600, 120)) && SpanOf(Sample("09:00")) == Some(Span(540, 180))
    ensures BlockValid(Sample("10:00")) && BlockValid(Sample("09:00"))
  {
  }

  // ---- The next occurrence ----

  function FirstAfter(s: seq<Choice>, now: int): Option<Choice> {
    if s == [] then None else if s[0].window.start > now then Some(s[0]) else FirstAfter(s[1..], now)
  }

  /** nextOccurrence */
  method NextOccurrence(blocks: seq<Block>, now: int) returns (next: Option<Choice>)
    requires forall i | 0 <= i < |blocks| :: SpanOf(blocks[i]).Some?
    ensures next == FirstAfter(Around(blocks, now, 7), now)
  {
    hide SpanOf;
    hide Around;
    var os := OccurrencesAround(blocks, now, 7);
    var i := 0;
    while i < |os|
      invariant 0 <= i <= |os| && FirstAfter(os, now) == FirstAfter(os[i..], now)
    {
      if os[i].window.start > now {
        return Some(os[i]);
      }
      assert os[i..][1..] == os[i + 1..];
      i := i + 1;
    }
    return None;
  }

  lemma {:induction false} FirstAfterIs(s: seq<Choice>, now: int)
    requires InOrder(s)
    ensures match FirstAfter(s, now)
            case None => forall c: Choice | c in s :: c.window.start <= now
            case Some(best) =>
              best in s && best.window.start > now
              && forall c: Choice | c in s && c.window.start > now :: c == best || Earlier(best, c)
  {
    if s != [] && s[0].window.start <= now {
      FirstAfterIs(s[1..], now);
      assert s == [s[0]] + s[1..];
    }
  }

  /** Later occurrences recur within the week: the same block a whole number of weeks before. */
  lemma WithinWeek(blocks: seq<Block>, now: int, day: int, c: Choice) returns (near: Choice, nearDay: int)
    requires Occurs(blocks, day, c) && c.window.start > now
    ensures Occurs(blocks, nearDay, near) && DayOf(now) - 1 <= nearDay <= DayOf(now) + 7
    ensures now < near.window.start <= c.window.start && near.index == c.index
    ensures near == c || near.window.start < c.window.start
  {
    hide SpanOf;
    var b, d := blocks[c.index], DayOf(now);
    DayBounds(b, day, now);
    if day <= d + 7 {
      near, nearDay := c, day;
    } else {
      nearDay := SameWeekday(d, day);
      DayBounds(b, nearDay, now);
      near := Choice(c.index, WindowOn(b, nearDay));
      assert OccursOn(b, nearDay, near.window);
    }
  }

  /** How a window's start lies to an instant, by their days. */
  lemma DayBounds(b: Block, day: int, now: int)
    requires SpanOf(b).Some?
    ensures WindowOn(b, day).start > now ==> day >= DayOf(now)
    ensures day > DayOf(now) ==> WindowOn(b, day).start > now
    ensures forall other | other > day :: WindowOn(b, other).start > WindowOn(b, day).start
  {
    hide ParseHHMM;
  }

  lemma SameWeekday(d: int, day: int) returns (near: int)
    requires day > d + 7
    ensures d < near <= d + 7 && near < day && Weekday(near) == Weekday(day)
  {
    near := d + 1 + (day - d - 1) % 7;
    var weeks := (day - d - 1) / 7;
    assert day == near + 7 * weeks;
  }

  /**
   Looking seven days ahead is enough: what is found is the earliest later start of all days there are,
   and nothing is found only when no enabled block ever starts again.
   */
  lemma NextIsEarliest(blocks: seq<Block>, now: int)
    requires forall i | 0 <= i < |blocks| :: SpanOf(blocks[i]).Some?
    ensures match FirstAfter(Around(blocks, now, 7), now)
            case None => forall day, c: Choice | Occurs(blocks, day, c) :: c.window.start <= now
            case Some(next) =>
              && next.window.start > now && Occurs(blocks, DayOf(next.window.start), next)
              && forall day, c: Choice | Occurs(blocks, day, c) && c.window.start > now :: c == next || Earlier(next, c)
  {
    hide SpanOf;
    var s := Around(blocks, now, 7);
    AroundIs(blocks, now, 7);
    FirstAfterIs(s, now);
    hide Around;
    hide FirstAfter;
    hide Occurs;
    hide DayOf;
    forall day, c: Choice | Occurs(blocks, day, c) && c.window.start > now
      ensures FirstAfter(s, now).Some? && (c == FirstAfter(s, now).value || Earlier(FirstAfter(s, now).value, c))
    {
      var near, nearDay := WithinWeek(blocks, now, day, c);
      assert near in s;
    }
  }
}
