/**
 Recurring block windows and the scheduler that starts them (cmd/kblockerctl/schedule.go), on a clock of
 uniform days: an instant is a number of nanoseconds since a Sunday's midnight, negative ones included.
 */
module Schedule {
  import opened Wrappers
  import opened Strings
  import Domains

  const MINUTE: int := 60_000_000_000
  const DAY_MINUTES: int := 1440
  const DAY: int := 1440 * 60_000_000_000

  datatype Block = Block(id: string, name: string, days: seq<int>, start: string, end: string, enabled: bool)

  /** One occurrence of a block. */
  datatype Window = Window(block: Block, start: int, end: int)

  // ---- Times of day ----

  /** ^([01]\d|2[0-3]):([0-5]\d)$ */
  predicate IsHHMM(s: string) {
    && |s| == 5 && IsDigit(s[0]) && IsDigit(s[1]) && s[2] == ':' && IsDigit(s[3]) && IsDigit(s[4])
    && (s[0] == '0' || s[0] == '1' || (s[0] == '2' && s[1] <= '3'))
    && s[3] <= '5'
  }

  function TwoDigits(a: char, b: char): nat
    requires IsDigit(a) && IsDigit(b)
  {
    DigitValue(a) * 10 + DigitValue(b)
  }

  /** parseHHMM */
  function ParseHHMM(s: string): Option<nat> {
    if IsHHMM(s) then Some(TwoDigits(s[0], s[1]) * 60 + TwoDigits(s[3], s[4])) else None
  }

  function TwoChars(n: nat): (s: string)
    requires n < 100
    ensures |s| == 2
  {
    [DigitChar(n / 10), DigitChar(n % 10)]
  }

  /** The text of a minute of the day. */
  function FormatHHMM(m: nat): (s: string)
    requires m < DAY_MINUTES
  {
    TwoChars(m / 60) + ":" + TwoChars(m % 60)
  }

  /** Texts of times and minutes of the day correspond one to one. */
  lemma HHMMRoundTrip(s: string, m: nat)
    ensures ParseHHMM(s) == Some(m) <==> m < DAY_MINUTES && s == FormatHHMM(m)
  {
    if m < DAY_MINUTES {
      DigitsOfMinute(m);
    }
    if ParseHHMM(s) == Some(m) {
      MinuteOfDigits(s, m);
    }
  }

  lemma MinuteOfDigits(s: string, m: nat)
    requires ParseHHMM(s) == Some(m)
    ensures m < DAY_MINUTES && s == FormatHHMM(m)
  {
    var h, n := TwoDigits(s[0], s[1]), TwoDigits(s[3], s[4]);
    assert h < 24 && n < 60 && m == h * 60 + n && s[2] == ':';
    hide ParseHHMM;
    hide IsHHMM;
    assert m / 60 == h && m % 60 == n;
    CharsOfDigits(s[0], s[1]);
    CharsOfDigits(s[3], s[4]);
    hide TwoChars;
    hide TwoDigits;
    assert s == [s[0], s[1]] + [s[2]] + [s[3], s[4]];
  }

  lemma CharsOfDigits(a: char, b: char)
    requires IsDigit(a) && IsDigit(b)
    ensures TwoDigits(a, b) < 100 && TwoChars(TwoDigits(a, b)) == [a, b]
  {
    CharOfDigit(a);
    CharOfDigit(b);
  }

  lemma CharOfDigit(c: char)
    requires IsDigit(c)
    ensures DigitChar(DigitValue(c)) == c
  {
  }

  lemma DigitsOfMinute(m: nat)
    requires m < DAY_MINUTES
    ensures ParseHHMM(FormatHHMM(m)) == Some(m)
  {
    var s := FormatHHMM(m);
    var h, n := m / 60, m % 60;
    assert h < 24 && n < 60;
    assert s[0] == DigitChar(h / 10) && s[1] == DigitChar(h % 10);
    assert s[3] == DigitChar(n / 10) && s[4] == DigitChar(n % 10);
  }

  // ---- Validation ----

  predicate BlockValid(b: Block) {
    && b.id != "" && b.days != [] && GoodDays(b.days)
    && ParseHHMM(b.start).Some? && ParseHHMM(b.end).Some? && ParseHHMM(b.start) != ParseHHMM(b.end)
  }

  ghost predicate BlocksValid(blocks: seq<Block>) {
    && (forall i | 0 <= i < |blocks| :: BlockValid(blocks[i]))
    && (forall i, j | 0 <= i < j < |blocks| :: blocks[i].id != blocks[j].id)
  }

  datatype Problem = MissingId | DuplicateId | NoDays | BadDay(day: int) | BadTime | EmptyWindow

  /** What is reported of a block: the first of the checks it fails. */
  ghost predicate IsProblem(blocks: seq<Block>, i: nat, problem: Problem)
    requires i < |blocks|
  {
    var b := blocks[i];
    var duplicate := exists k | 0 <= k < i :: blocks[k].id == b.id;
    match problem
    case MissingId => b.id == ""
    case DuplicateId => b.id != "" && duplicate
    case NoDays => b.id != "" && !duplicate && b.days == []
    case BadDay(day) =>
      && b.id != "" && !duplicate && !GoodDay(day)
      && exists j | 0 <= j < |b.days| :: b.days[j] == day && GoodDays(b.days[..j])
    case BadTime =>
      && b.id != "" && !duplicate && b.days != [] && GoodDays(b.days)
      && (ParseHHMM(b.start).None? || ParseHHMM(b.end).None?)
    case EmptyWindow =>
      && b.id != "" && !duplicate && b.days != [] && GoodDays(b.days)
      && ParseHHMM(b.start).Some? && ParseHHMM(b.start) == ParseHHMM(b.end)
  }

  predicate GoodDay(day: int) { 0 <= day <= 6 }

  predicate GoodDays(days: seq<int>) { forall i | 0 <= i < |days| :: GoodDay(days[i]) }

  /** Validate: the first block that is wrong, counted from one. */
  method Validate(blocks: seq<Block>) returns (r: Option<(nat, Problem)>)
    ensures r.None? <==> BlocksValid(blocks)
    ensures r.Some? ==> 1 <= r.value.0 <= |blocks| && IsProblem(blocks, r.value.0 - 1, r.value.1)
    ensures r.Some? ==> BlocksValid(blocks[..r.value.0 - 1]) && !BlocksValid(blocks[..r.value.0])
  {
    hide IsHHMM;
    var seen: set<string> := {};
    var i := 0;
    while i < |blocks|
      invariant 0 <= i <= |blocks| && BlocksValid(blocks[..i])
      invariant seen == set k | 0 <= k < i :: blocks[k].id
    {
      var b := blocks[i];
      NextValid(blocks, i);
      if b.id == "" {
        return Some((i + 1, MissingId));
      }
      if b.id in seen {
        return Some((i + 1, DuplicateId));
      }
      seen := seen + {b.id};
      if |b.days| == 0 {
        return Some((i + 1, NoDays));
      }
      var j := 0;
      while j < |b.days|
        invariant 0 <= j <= |b.days| && GoodDays(b.days[..j])
      {
        if b.days[j] < 0 || b.days[j] > 6 {
          return Some((i + 1, BadDay(b.days[j])));
        }
        j := j + 1;
      }
      assert b.days[..j] == b.days;
      var start, end := ParseHHMM(b.start), ParseHHMM(b.end);
      if start.None? || end.None? {
        return Some((i + 1, BadTime));
      }
      if start == end {
        return Some((i + 1, EmptyWindow));
      }
      i := i + 1;
    }
    assert blocks[..i] == blocks;
    return None;
  }

  /** One block more is valid exactly when it is by itself and its id is new. */
  lemma NextValid(blocks: seq<Block>, i: nat)
    requires i < |blocks| && BlocksValid(blocks[..i])
    ensures BlocksValid(blocks[..i + 1])
       <==> BlockValid(blocks[i]) && forall k | 0 <= k < i :: blocks[k].id != blocks[i].id
    ensures !BlocksValid(blocks[..i + 1]) ==> !BlocksValid(blocks)
  {
    hide BlockValid;
    var more := blocks[..i + 1];
    assert forall k | 0 <= k < i :: more[k] == blocks[..i][k];
    assert more[i] == blocks[i];
    if BlocksValid(blocks) {
      assert forall k | 0 <= k <= i :: more[k] == blocks[k];
    }
  }

  // ---- Windows ----

  /** Start and length of a block, in minutes; an end at or before the start is on the next day. */
  datatype Span = Span(start: nat, length: nat)

  function SpanOf(b: Block): (r: Option<Span>)
    ensures r.Some? ==> r.value.start < DAY_MINUTES && 0 < r.value.length <= DAY_MINUTES
  {
    match (ParseHHMM(b.start), ParseHHMM(b.end))
    case (Some(s), Some(e)) => Some(Span(s, if e <= s then e - s + DAY_MINUTES else e - s))
    case _ => None
  }

  function DayOf(t: int): int { t / DAY }
  function Weekday(day: int): int { day % 7 }

  /** The window of a block that starts on a given day. */
  function WindowOn(b: Block, day: int): Window
    requires SpanOf(b).Some?
  {
    var start := day * DAY + SpanOf(b).value.start * MINUTE;
    Window(b, start, start + SpanOf(b).value.length * MINUTE)
  }

  predicate Contains(w: Window, t: int) { w.start <= t < w.end }

  /** The window starting on a day, if there is one and it contains t. */
  function OpenOn(b: Block, day: int, t: int): seq<Window>
    requires SpanOf(b).Some?
  {
    if Weekday(day) in b.days && Contains(WindowOn(b, day), t) then [WindowOn(b, day)] else []
  }

  /** windowsAt: yesterday's and today's. */
  function WindowsAt(b: Block, t: int): seq<Window> {
    if SpanOf(b).None? then [] else OpenOn(b, DayOf(t) - 1, t) + OpenOn(b, DayOf(t), t)
  }

  method ContainsInt(xs: seq<int>, v: int) returns (found: bool)
    ensures found <==> v in xs
  {
    var i := 0;
    while i < |xs|
      invariant 0 <= i <= |xs| && v !in xs[..i]
    {
      if xs[i] == v {
        return true;
      }
      i := i + 1;
    }
    assert xs[..i] == xs;
    return false;
  }

  method WindowsAtLoop(b: Block, t: int) returns (out: seq<Window>)
    ensures out == WindowsAt(b, t)
  {
    hide ParseHHMM;
    out := [];
    var start, end := ParseHHMM(b.start), ParseHHMM(b.end);
    if start.None? || end.None? {
      return;
    }
    var length := end.value - start.value;
    if end.value <= start.value {
      length := length + 24 * 60;
    }
    var offset := -1;
    while offset <= 0
      invariant -1 <= offset <= 1
      invariant out == if offset == -1 then [] else if offset == 0 then OpenOn(b, DayOf(t) - 1, t) else WindowsAt(b, t)
    {
      var day := DayOf(t) + offset;
      var dayChosen := ContainsInt(b.days, Weekday(day));
      var ws := day * DAY + start.value * MINUTE;
      var we := ws + length * MINUTE;
      if dayChosen && !(t < ws) && t < we {
        out := out + [Window(b, ws, we)];
      }
      offset := offset + 1;
    }
  }

  /** An occurrence of the block on any day at all. */
  ghost predicate OccursOn(b: Block, day: int, w: Window) {
    SpanOf(b).Some? && Weekday(day) in b.days && w == WindowOn(b, day)
  }

  /** Two days are enough: the windows returned are all those containing t, of all days there are. */
  lemma TwoDaysAreEnough(b: Block, t: int, w: Window)
    ensures w in WindowsAt(b, t) <==> Contains(w, t) && exists day :: OccursOn(b, day, w)
  {
    hide SpanOf;
    hide WindowOn;
    hide Contains;
    hide DayOf;
    hide Weekday;
    if SpanOf(b).Some? {
      var d := DayOf(t);
      if w in WindowsAt(b, t) {
        assert OccursOn(b, d - 1, w) || OccursOn(b, d, w);
      }
      if Contains(w, t) && exists day :: OccursOn(b, day, w) {
        var day :| OccursOn(b, day, w);
        OpenDays(b, day, t);
        assert w in OpenOn(b, day, t);
      }
    }
  }

  /** A window open at an instant is that day's or the day before's. */
  lemma OpenDays(b: Block, day: int, t: int)
    requires SpanOf(b).Some? && Contains(WindowOn(b, day), t)
    ensures day == DayOf(t) - 1 || day == DayOf(t)
  {
    hide ParseHHMM;
  }

  /** A day that validation lets through is one that comes around, once every week. */
  lemma GoodDayIff(d: int, week: int)
    ensures GoodDay(d) <==> exists day :: 7 * week <= day < 7 * week + 7 && Weekday(day) == d
  {
    if GoodDay(d) {
      assert Weekday(7 * week + d) == d;
    }
  }

  /** A valid block has a window in every week, on each of its days, and every window has some length. */
  lemma ValidBlockOccurs(b: Block, d: int, week: int)
    requires BlockValid(b) && d in b.days
    ensures exists day ::
      7 * week <= day < 7 * week + 7 && Weekday(day) == d && OccursOn(b, day, WindowOn(b, day))
      && WindowOn(b, day).start < WindowOn(b, day).end
  {
    assert GoodDay(d);
    GoodDayIff(d, week);
    hide ParseHHMM;
    var day :| 7 * week <= day < 7 * week + 7 && Weekday(day) == d;
    hide GoodDays;
    hide Weekday;
    assert OccursOn(b, day, WindowOn(b, day));
  }

  /** A block never has two windows open at once. */
  lemma OneWindowPerBlock(b: Block, t: int)
    ensures |WindowsAt(b, t)| <= 1
  {
    hide ParseHHMM;
  }

  // ---- The active window ----

  /** A window with the position of its block in the list. */
  datatype Choice = Choice(index: nat, window: Window)

  predicate Candidate(blocks: seq<Block>, t: int, c: Choice) {
    c.index < |blocks| && blocks[c.index].enabled && c.window in WindowsAt(blocks[c.index], t)
  }

  /** Later end first, then earlier position. */
  predicate Beats(a: Choice, b: Choice) {
    a.window.end > b.window.end || (a.window.end == b.window.end && a.index < b.index)
  }

  function Later(best: Option<Choice>, index: nat, ws: seq<Window>): Option<Choice> {
    if ws == [] then best
    else
      var sofar := Later(best, index, ws[..|ws| - 1]);
      var w := ws[|ws| - 1];
      if sofar.None? || w.end > sofar.value.window.end then Some(Choice(index, w)) else sofar
  }

  /** activeWindow on the first n blocks. */
  function ActiveOf(blocks: seq<Block>, n: nat, t: int): Option<Choice>
    requires n <= |blocks|
  {
    if n == 0 then None
    else if !blocks[n - 1].enabled then ActiveOf(blocks, n - 1, t)
    else Later(ActiveOf(blocks, n - 1, t), n - 1, WindowsAt(blocks[n - 1], t))
  }

  function Active(blocks: seq<Block>, t: int): Option<Choice> { ActiveOf(blocks, |blocks|, t) }

  /** activeWindow */
  method ActiveWindow(blocks: seq<Block>, t: int) returns (r: Option<Window>)
    ensures r == if Active(blocks, t).Some? then Some(Active(blocks, t).value.window) else None
  {
    hide WindowsAt;
    r := None;
    ghost var choice: Option<Choice> := None;
    var i := 0;
    while i < |blocks|
      invariant 0 <= i <= |blocks| && choice == ActiveOf(blocks, i, t)
      invariant r == if choice.Some? then Some(choice.value.window) else None
    {
      if !blocks[i].enabled {
        i := i + 1;
        continue;
      }
      var ws := WindowsAtLoop(blocks[i], t);
      var j := 0;
      while j < |ws|
        invariant 0 <= j <= |ws|
        invariant choice == Later(ActiveOf(blocks, i, t), i, ws[..j])
        invariant r == if choice.Some? then Some(choice.value.window) else None
      {
        assert ws[..j + 1][..j] == ws[..j];
        if r.None? || ws[j].end > r.value.end {
          r := Some(ws[j]);
          choice := Some(Choice(i, ws[j]));
        }
        j := j + 1;
      }
      assert ws[..j] == ws;
      i := i + 1;
    }
  }

  /** The best candidate among the first n blocks. */
  ghost predicate BestOf(blocks: seq<Block>, n: nat, t: int, r: Option<Choice>) {
    match r
    case None => forall c: Choice | c.index < n :: !Candidate(blocks, t, c)
    case Some(best) =>
      && best.index < n && Candidate(blocks, t, best)
      && forall c: Choice | c.index < n && Candidate(blocks, t, c) :: c == best || Beats(best, c)
  }

  lemma {:induction false} ActiveOfIs(blocks: seq<Block>, n: nat, t: int)
    requires n <= |blocks|
    ensures BestOf(blocks, n, t, ActiveOf(blocks, n, t))
  {
    hide WindowsAt;
    if n > 0 {
      ActiveOfIs(blocks, n - 1, t);
      OneWindowPerBlock(blocks[n - 1], t);
      var ws := WindowsAt(blocks[n - 1], t);
      var sofar := ActiveOf(blocks, n - 1, t);
      if !blocks[n - 1].enabled || ws == [] {
        hide Beats;
        assert ActiveOf(blocks, n, t) == sofar;
        assert forall c: Choice | c.index == n - 1 :: !Candidate(blocks, t, c);
        assert forall c: Choice | c.index < n && Candidate(blocks, t, c) :: c.index < n - 1;
      } else {
        assert ws == [ws[0]] && ws[..0] == [];
        assert Later(sofar, n - 1, []) == sofar;
        OneMoreBlock(blocks, n, t, sofar, ws[0]);
      }
    }
  }

  lemma OneMoreBlock(blocks: seq<Block>, n: nat, t: int, sofar: Option<Choice>, w: Window)
    requires 0 < n <= |blocks| && blocks[n - 1].enabled && WindowsAt(blocks[n - 1], t) == [w]
    requires BestOf(blocks, n - 1, t, sofar)
    ensures var better := sofar.None? || w.end > sofar.value.window.end;
      BestOf(blocks, n, t, if better then Some(Choice(n - 1, w)) else sofar)
  {
    hide WindowsAt;
    var mine := Choice(n - 1, w);
    assert Candidate(blocks, t, mine);
    forall c: Choice | c.index < n && Candidate(blocks, t, c)
      ensures c == mine || (c.index < n - 1 && Candidate(blocks, t, c))
    {
    }
  }

  /** The active window is the open enabled one that ends last, and of those the one listed first. */
  lemma ActiveIs(blocks: seq<Block>, t: int)
    ensures match Active(blocks, t)
            case None => forall c: Choice :: !Candidate(blocks, t, c)
            case Some(best) =>
              Candidate(blocks, t, best) && forall c: Choice | Candidate(blocks, t, c) :: c == best || Beats(best, c)
  {
    ActiveOfIs(blocks, |blocks|, t);
    hide WindowsAt;
    hide Beats;
  }

  /** A candidate stays one until its window ends. */
  lemma CandidateStays(blocks: seq<Block>, c: Choice, t: int, u: int)
    requires Candidate(blocks, t, c) && Contains(c.window, u)
    ensures Candidate(blocks, u, c)
  {
    TwoDaysAreEnough(blocks[c.index], t, c.window);
    TwoDaysAreEnough(blocks[c.index], u, c.window);
    hide WindowsAt;
  }

  lemma CandidateContains(blocks: seq<Block>, c: Choice, t: int)
    requires Candidate(blocks, t, c)
    ensures Contains(c.window, t)
  {
    TwoDaysAreEnough(blocks[c.index], t, c.window);
    hide WindowsAt;
  }

  /** The choice never goes back: a window active at two instants is active at every instant between. */
  lemma NeverBack(blocks: seq<Block>, c: Choice, t1: int, t2: int, t3: int)
    requires t1 <= t2 <= t3 && Active(blocks, t1) == Some(c) && Active(blocks, t3) == Some(c)
    ensures Active(blocks, t2) == Some(c)
  {
    hide Candidate;
    hide Active;
    ActiveIs(blocks, t1);
    ActiveIs(blocks, t2);
    ActiveIs(blocks, t3);
    CandidateContains(blocks, c, t1);
    CandidateContains(blocks, c, t3);
    CandidateStays(blocks, c, t1, t2);
    var other := Active(blocks, t2).value;
    CandidateContains(blocks, other, t2);
    CandidateStays(blocks, other, t2, t3);
  }

  /** The minutes a block is started for: rounded up. */
  function MinutesLeft(now: int, end: int): int { (end - now + MINUTE - 1) / MINUTE }

  /** A block started in its window ends no earlier than the window, and less than a minute after it. */
  lemma MinutesCoverWindow(blocks: seq<Block>, now: int, c: Choice)
    requires Active(blocks, now) == Some(c)
    ensures var minutes := MinutesLeft(now, c.window.end);
      minutes >= 1 && c.window.end <= now + minutes * MINUTE < c.window.end + MINUTE
  {
    ActiveIs(blocks, now);
    CandidateContains(blocks, c, now);
  }

  // ---- The scheduler's tick ----

  /** unicode.IsSpace */
  predicate IsBlank(c: char) {
    var x := c as int;
    || 9 <= x <= 13 || x == 0x20 || x == 0x85 || x == 0xA0 || x == 0x1680 || 0x2000 <= x <= 0x200A
    || x == 0x2028 || x == 0x2029 || x == 0x202F || x == 0x205F || x == 0x3000
  }

  function TrimSpace(s: string): string { Domains.Trim(s, IsBlank) }

  /** Formatting dates is the standard library's; what is used of it is that a text never ends in a blank, ... */
  ghost predicate StampSolid(stamp: int -> string) {
    forall t :: stamp(t) != "" && !IsBlank(stamp(t)[|stamp(t)| - 1])
  }

  /** ... and, only where keys must differ, that it has no "@" and tells whole minutes apart. */
  ghost predicate StampTells(stamp: int -> string) {
    && (forall t :: '@' !in stamp(t))
    && (forall t, u | t % MINUTE == 0 && u % MINUTE == 0 && stamp(t) == stamp(u) :: t == u)
  }

  /** key */
  function Key(stamp: int -> string, w: Window): string { w.block.id + "@" + stamp(w.start) }

  /** What a tick finds outside: the time, the module, and whether starting a block works. */
  datatype Inputs = Inputs(now: int, loaded: bool, blocking: bool, works: bool)

  /** The remembered key afterwards, and what was started for how long. */
  datatype Ticked = Ticked(last: string, started: Option<Choice>, minutes: int)

  /** The decision of scheduleDaemonTick. */
  function Tick(stamp: int -> string, blocks: seq<Block>, last: string, x: Inputs): Ticked {
    match Active(blocks, x.now)
    case None => Ticked(last, None, 0)
    case Some(c) =>
      var minutes := MinutesLeft(x.now, c.window.end);
      if !x.loaded || x.blocking || TrimSpace(last) == Key(stamp, c.window) || minutes < 1 || !x.works
      then Ticked(last, None, 0)
      else Ticked(Key(stamp, c.window) + [NL], Some(c), minutes)
  }

  /**
   A tick starts a block exactly when the module is there, nothing is blocked, starting works and the active
   window's key is not the remembered one; then it is that window, for whole minutes that end no earlier than the
   window does and less than one minute later, and its key is remembered. Otherwise nothing changes.
   */
  lemma TickIs(stamp: int -> string, blocks: seq<Block>, last: string, x: Inputs)
    ensures var r := Tick(stamp, blocks, last, x); var active := Active(blocks, x.now);
      && (r.started.Some? <==>
            && active.Some? && x.loaded && !x.blocking && x.works
            && TrimSpace(last) != Key(stamp, active.value.window))
      && (r.started.None? ==> r.last == last && r.minutes == 0)
      && (r.started.Some? ==>
            && r.started == active && r.last == Key(stamp, active.value.window) + [NL]
            && Covers(x.now, r.minutes, active.value.window))
  {
    if Active(blocks, x.now).Some? {
      MinutesCoverWindow(blocks, x.now, Active(blocks, x.now).value);
    }
    hide Active;
    hide TrimSpace;
    hide Key;
  }

  /** That many minutes from now end with the window, rounded up. */
  predicate Covers(now: int, minutes: int, w: Window) {
    minutes >= 1 && w.end <= now + minutes * MINUTE < w.end + MINUTE
  }

  class Scheduler {
    const stamp: int -> string
    var last: string

    constructor (stamp: int -> string, last: string)
      ensures this.stamp == stamp && this.last == last
    {
      this.stamp, this.last := stamp, last;
    }

    /** scheduleDaemonTick */
    method DaemonTick(blocks: seq<Block>, x: Inputs) returns (name: string, minutes: int, ghost started: Option<Choice>)
      modifies this
      ensures Ticked(last, started, minutes) == Tick(stamp, blocks, old(last), x)
      ensures name != "" <==> started.Some?
      ensures started.Some? ==>
        && started == Active(blocks, x.now) && Covers(x.now, minutes, started.value.window)
        && var b := started.value.window.block; name == if b.name == "" then "Scheduled block" else b.name
    {
      TickIs(stamp, blocks, last, x);
      hide MinutesLeft;
      name, minutes, started := "", 0, None;
      var w := ActiveWindow(blocks, x.now);
      if w.None? || !x.loaded || x.blocking {
        return;
      }
      if TrimSpace(last) == Key(stamp, w.value) {
        return;
      }
      var left := MinutesLeft(x.now, w.value.end);
      if left < 1 || !x.works {
        return;
      }
      last := Key(stamp, w.value) + [NL];
      minutes, started := left, Active(blocks, x.now);
      name := if w.value.block.name == "" then "Scheduled block" else w.value.block.name;
    }
  }

  // ---- Whole runs of the scheduler ----

  function LastAfter(stamp: int -> string, blocks: seq<Block>, last: string, xs: seq<Inputs>): string {
    if xs == [] then last
    else Tick(stamp, blocks, LastAfter(stamp, blocks, last, xs[..|xs| - 1]), xs[|xs| - 1]).last
  }

  function StartedAt(stamp: int -> string, blocks: seq<Block>, last: string, xs: seq<Inputs>, k: nat): Option<Choice>
    requires k < |xs|
  {
    Tick(stamp, blocks, LastAfter(stamp, blocks, last, xs[..k]), xs[k]).started
  }

  ghost predicate ClockForward(xs: seq<Inputs>) { forall i, j | 0 <= i <= j < |xs| :: xs[i].now <= xs[j].now }

  predicate LeadingBlank(w: Window) { w.block.id != "" && IsBlank(w.block.id[0]) }

  lemma BlankNewline()
    ensures IsBlank(NL) && !IsBlank('@')
  {
  }

  /** The remembered key is recognised again exactly when the block's id does not begin with a blank. */
  lemma KeyRecognisedIff(stamp: int -> string, w: Window)
    requires StampSolid(stamp)
    ensures TrimSpace(Key(stamp, w) + [NL]) == Key(stamp, w) <==> !LeadingBlank(w)
  {
    var key := Key(stamp, w);
    assert key[|key| - 1] == stamp(w.start)[|stamp(w.start)| - 1];
    assert key[0] == if w.block.id == "" then '@' else w.block.id[0];
    hide TrimSpace;
    TrimLine(key);
  }

  lemma TrimLine(key: string)
    requires key != "" && !IsBlank(key[|key| - 1])
    ensures TrimSpace(key + [NL]) == key <==> !IsBlank(key[0])
  {
    BlankNewline();
    hide IsBlank;
    var line := key + [NL];
    Domains.DropLeadingMeans(line, IsBlank);
    Domains.DropTrailingMeans(Domains.DropLeading(line, IsBlank), IsBlank);
    if !IsBlank(key[0]) {
      assert Domains.DropLeading(line, IsBlank) == line;
      assert line[..|line| - 1] == key;
      assert Domains.DropTrailing(key, IsBlank) == key;
    }
  }

  /** While the same window stays chosen, its key stays remembered. */
  lemma {:induction false} Remembered(
      stamp: int -> string, blocks: seq<Block>, last: string, xs: seq<Inputs>, j: nat, m: nat, c: Choice)
    requires StampSolid(stamp) && !LeadingBlank(c.window)
    requires j < m <= |xs| && StartedAt(stamp, blocks, last, xs, j) == Some(c)
    requires forall i | j <= i < m :: Active(blocks, xs[i].now) == Some(c)
    ensures LastAfter(stamp, blocks, last, xs[..m]) == Key(stamp, c.window) + [NL]
  {
    hide Active;
    KeyRecognisedIff(stamp, c.window);
    assert xs[..m][..m - 1] == xs[..m - 1];
    if j < m - 1 {
      Remembered(stamp, blocks, last, xs, j, m - 1, c);
    }
  }

  /**
   No window occurrence is started twice, however windows overlap and however often blocks are lifted:
   for any schedule and any ticks with a clock that does not go back, provided the block's id does not
   begin with a blank.
   */
  lemma AtMostOnce(stamp: int -> string, blocks: seq<Block>, last: string, xs: seq<Inputs>, j: nat, k: nat, c: Choice)
    requires StampSolid(stamp) && ClockForward(xs) && j < k < |xs|
    requires StartedAt(stamp, blocks, last, xs, j) == Some(c) && !LeadingBlank(c.window)
    ensures StartedAt(stamp, blocks, last, xs, k) != Some(c)
  {
    hide Active;
    if Active(blocks, xs[k].now) == Some(c) {
      forall i | j <= i < k ensures Active(blocks, xs[i].now) == Some(c) {
        NeverBack(blocks, c, xs[j].now, xs[i].now, xs[k].now);
      }
      Remembered(stamp, blocks, last, xs, j, k, c);
      KeyRecognisedIff(stamp, c.window);
    }
  }

  /** With a blank at the beginning of its id, a window just started is started again as soon as it is lifted. */
  lemma StartedAgainIff(stamp: int -> string, blocks: seq<Block>, last: string, x: Inputs, y: Inputs, c: Choice)
    requires StampSolid(stamp) && Tick(stamp, blocks, last, x).started == Some(c)
    requires Active(blocks, y.now) == Some(c) && y.loaded && !y.blocking && y.works
    ensures Tick(stamp, blocks, Tick(stamp, blocks, last, x).last, y).started == Some(c) <==> LeadingBlank(c.window)
  {
    KeyRecognisedIff(stamp, c.window);
    MinutesCoverWindow(blocks, y.now, c);
    hide Active;
  }

  /** Window c is started by tick j and again by a later tick k of the same run. */
  ghost predicate StartedTwice(
      stamp: int -> string, blocks: seq<Block>, last: string, xs: seq<Inputs>, j: nat, k: nat, c: Choice)
  {
    && ClockForward(xs) && j < k < |xs|
    && StartedAt(stamp, blocks, last, xs, j) == Some(c) && StartedAt(stamp, blocks, last, xs, k) == Some(c)
  }

  ghost predicate AlwaysAtMostOnce(stamp: int -> string, blocks: seq<Block>) {
    forall last: string, xs: seq<Inputs>, j: nat, k: nat, c: Choice :: !StartedTwice(stamp, blocks, last, xs, j, k, c)
  }

  /** Two ticks at one instant, the block lifted in between. */
  function LiftedAt(t: int): seq<Inputs> {
    var x := Inputs(t, true, false, true);
    [x, x]
  }

  lemma LeadingBlankStartsTwice(stamp: int -> string, blocks: seq<Block>, t: int, c: Choice)
    requires StampSolid(stamp) && Active(blocks, t) == Some(c) && LeadingBlank(c.window)
    ensures StartedTwice(stamp, blocks, "", LiftedAt(t), 0, 1, c)
  {
    var xs := LiftedAt(t);
    MinutesCoverWindow(blocks, t, c);
    hide Active;
    assert Tick(stamp, blocks, "", xs[0]).started == Some(c);
    StartedAgainIff(stamp, blocks, "", xs[0], xs[1], c);
    assert xs[..0] == [] && xs[..1] == [xs[0]] && xs[..1][..0] == [];
  }

  /**
   A schedule is started at most once per window in all its runs exactly when no window it ever chooses
   has an id beginning with a blank.
   */
  lemma AlwaysAtMostOnceIff(stamp: int -> string, blocks: seq<Block>)
    requires StampSolid(stamp)
    ensures AlwaysAtMostOnce(stamp, blocks)
       <==> forall t, c: Choice | Active(blocks, t) == Some(c) :: !LeadingBlank(c.window)
  {
    hide Active;
    hide StartedTwice;
    if forall t, c: Choice | Active(blocks, t) == Some(c) :: !LeadingBlank(c.window) {
      forall last: string, xs: seq<Inputs>, j: nat, k: nat, c: Choice
        ensures !StartedTwice(stamp, blocks, last, xs, j, k, c)
      {
        NotTwice(stamp, blocks, last, xs, j, k, c);
      }
    }
    if t, c: Choice :| Active(blocks, t) == Some(c) && LeadingBlank(c.window) {
      LeadingBlankStartsTwice(stamp, blocks, t, c);
    }
  }

  lemma NotTwice(stamp: int -> string, blocks: seq<Block>, last: string, xs: seq<Inputs>, j: nat, k: nat, c: Choice)
    requires StampSolid(stamp) && forall t, d: Choice | Active(blocks, t) == Some(d) :: !LeadingBlank(d.window)
    ensures !StartedTwice(stamp, blocks, last, xs, j, k, c)
  {
    hide Active;
    if ClockForward(xs) && j < k < |xs| && StartedAt(stamp, blocks, last, xs, j) == Some(c) {
      assert Active(blocks, xs[j].now) == Some(c);
      AtMostOnce(stamp, blocks, last, xs, j, k, c);
    }
  }

  /** What a user can check: without an enabled block whose id begins with a blank, nothing is started twice. */
  lemma NoBlankIdsSuffice(stamp: int -> string, blocks: seq<Block>)
    requires StampSolid(stamp)
    requires forall i | 0 <= i < |blocks| && blocks[i].enabled && blocks[i].id != "" :: !IsBlank(blocks[i].id[0])
    ensures AlwaysAtMostOnce(stamp, blocks)
  {
    AlwaysAtMostOnceIff(stamp, blocks);
    forall t, c: Choice | Active(blocks, t) == Some(c) ensures !LeadingBlank(c.window) {
      ActiveIs(blocks, t);
      TwoDaysAreEnough(blocks[c.index], t, c.window);
      hide WindowsAt;
      hide Active;
      assert c.window.block == blocks[c.index];
    }
  }

  /** Different occurrences have different keys: the last "@" separates the id from the start. */
  lemma KeysDiffer(stamp: int -> string, a: Window, b: Window)
    requires StampTells(stamp) && Key(stamp, a) == Key(stamp, b)
    requires a.start % MINUTE == 0 && b.start % MINUTE == 0
    ensures a.block.id == b.block.id && a.start == b.start
  {
    LastAt(a.block.id, stamp(a.start), b.block.id, stamp(b.start));
  }

  lemma LastAt(a: string, x: string, b: string, y: string)
    requires a + "@" + x == b + "@" + y && '@' !in x && '@' !in y
    ensures a == b && x == y
  {
    var s := a + "@" + x;
    assert s[|b|] == (b + "@" + y)[|b|] == '@' && s[|a|] == '@';
    CharBehind(a, x, |b|);
    CharBehind(b, y, |a|);
    assert s[..|a|] == a && s[|a| + 1..] == x;
    assert (b + "@" + y)[..|b|] == b && (b + "@" + y)[|b| + 1..] == y;
  }

  lemma CharBehind(a: string, x: string, i: nat)
    requires i < |a + "@" + x|
    ensures i > |a| ==> (a + "@" + x)[i] in x
  {
    assert i > |a| ==> (a + "@" + x)[i] == x[i - |a| - 1];
  }

  /** Windows start on whole minutes. */
  lemma StartsOnMinute(b: Block, day: int)
    requires SpanOf(b).Some?
    ensures WindowOn(b, day).start % MINUTE == 0
  {
    hide SpanOf;
    assert WindowOn(b, day).start == MINUTE * (day * DAY_MINUTES + SpanOf(b).value.start);
  }

  /** What is left of a remembered key after trimming: blanks at the front of the id are lost, nothing else. */
  lemma KeyTrimmed(stamp: int -> string, w: Window) returns (id: string)
    requires StampSolid(stamp)
    ensures TrimSpace(Key(stamp, w) + [NL]) == id + "@" + stamp(w.start)
  {
    hide IsBlank;
    BlankNewline();
    var x := stamp(w.start);
    var line := Key(stamp, w) + [NL];
    var n := |w.block.id|;
    assert line == w.block.id + "@" + x + [NL];
    Domains.DropLeadingMeans(line, IsBlank);
    var rest := Domains.DropLeading(line, IsBlank);
    assert line[n] == '@';
    assert |line| - |rest| <= n;
    id := w.block.id[|line| - |rest|..];
    var kept := id + "@" + x;
    assert rest == kept + [NL];
    assert rest[..|rest| - 1] == kept;
    assert kept[|kept| - 1] == x[|x| - 1];
    assert Domains.DropTrailing(kept, IsBlank) == kept;
  }

  /** Of the windows that start at one instant, at most one is ever chosen. */
  lemma SameStartSameChoice(blocks: seq<Block>, a: Choice, b: Choice, t: int, u: int)
    requires Active(blocks, t) == Some(a) && Active(blocks, u) == Some(b)
    requires a.window.start == b.window.start
    ensures a == b
  {
    hide Active;
    hide Candidate;
    ActiveIs(blocks, t);
    ActiveIs(blocks, u);
    CandidateContains(blocks, a, t);
    CandidateContains(blocks, b, u);
    if Contains(a.window, u) {
      CandidateStays(blocks, a, t, u);
    }
    if Contains(b.window, t) {
      CandidateStays(blocks, b, u, t);
    }
  }

  /** Windows are chosen at starts that are whole minutes. */
  lemma ActiveOnMinute(blocks: seq<Block>, c: Choice, t: int)
    requires Active(blocks, t) == Some(c)
    ensures c.window.start % MINUTE == 0
  {
    hide Active;
    hide WindowsAt;
    hide SpanOf;
    hide WindowOn;
    ActiveIs(blocks, t);
    TwoDaysAreEnough(blocks[c.index], t, c.window);
    var day :| OccursOn(blocks[c.index], day, c.window);
    StartsOnMinute(blocks[c.index], day);
  }

  lemma {:induction false} LastComesFrom(stamp: int -> string, blocks: seq<Block>, last: string, xs: seq<Inputs>)
    returns (j: nat, c: Option<Choice>)
    ensures match c
            case None => LastAfter(stamp, blocks, last, xs) == last
            case Some(w) =>
              && j < |xs| && StartedAt(stamp, blocks, last, xs, j) == c
              && LastAfter(stamp, blocks, last, xs) == Key(stamp, w.window) + [NL]
  {
    hide Active;
    j, c := 0, None;
    if xs != [] {
      var init, x := xs[..|xs| - 1], xs[|xs| - 1];
      var before := LastAfter(stamp, blocks, last, init);
      if Tick(stamp, blocks, before, x).started.Some? {
        j, c := |xs| - 1, Tick(stamp, blocks, before, x).started;
      } else {
        j, c := LastComesFrom(stamp, blocks, last, init);
        if c.Some? {
          assert xs[..j] == init[..j];
        }
      }
    }
  }

  /**
   Nothing is skipped without reason: when the module is there, nothing is blocked and starting works, the
   active window is started unless an earlier tick of the run started it or the key remembered before
   the run was its own.
   */
  lemma SkippedOnlyIfStarted(stamp: int -> string, blocks: seq<Block>, last: string, xs: seq<Inputs>, k: nat, c: Choice)
    requires StampSolid(stamp) && StampTells(stamp) && k < |xs|
    requires Active(blocks, xs[k].now) == Some(c) && xs[k].loaded && !xs[k].blocking && xs[k].works
    ensures StartedAt(stamp, blocks, last, xs, k) == Some(c)
         || TrimSpace(last) == Key(stamp, c.window)
         || exists j | 0 <= j < k :: StartedAt(stamp, blocks, last, xs, j) == Some(c)
  {
    MinutesCoverWindow(blocks, xs[k].now, c);
    hide Active;
    hide Key;
    hide TrimSpace;
    var j, from := LastComesFrom(stamp, blocks, last, xs[..k]);
    if StartedAt(stamp, blocks, last, xs, k) != Some(c) && from.Some? {
      assert xs[..k][..j] == xs[..j];
      assert Active(blocks, xs[j].now) == from;
      SameKeySameChoice(stamp, blocks, from.value, c, xs[j].now, xs[k].now);
      assert StartedAt(stamp, blocks, last, xs, j) == Some(c);
    }
  }

  /** A remembered key that is taken for a window's own was remembered when that window was started. */
  lemma SameKeySameChoice(stamp: int -> string, blocks: seq<Block>, from: Choice, c: Choice, t: int, u: int)
    requires StampSolid(stamp) && StampTells(stamp)
    requires Active(blocks, t) == Some(from) && Active(blocks, u) == Some(c)
    requires TrimSpace(Key(stamp, from.window) + [NL]) == Key(stamp, c.window)
    ensures from == c
  {
    hide Active;
    hide TrimSpace;
    var id := KeyTrimmed(stamp, from.window);
    LastAt(id, stamp(from.window.start), c.window.block.id, stamp(c.window.start));
    ActiveOnMinute(blocks, from, t);
    ActiveOnMinute(blocks, c, u);
    SameStartSameChoice(blocks, from, c, t, u);
  }

  // ---- The assumptions can be met, and the failure can happen ----

  /** The minute of an instant as a number. */
  function MinuteText(t: int): string { NumberText(t / MINUTE) }

  function NumberText(m: int): string { if m < 0 then "-" + Decimal(-m) else Decimal(m) }

  lemma MinuteTextTells(t: int, u: int)
    requires t % MINUTE == 0 && u % MINUTE == 0 && MinuteText(t) == MinuteText(u)
    ensures t == u
  {
    var m, n := t / MINUTE, u / MINUTE;
    assert t == m * MINUTE && u == n * MINUTE;
    NumberTextTells(m, n);
    hide NumberText;
  }

  lemma NumberTextTells(m: int, n: int)
    requires NumberText(m) == NumberText(n)
    ensures m == n
  {
    DecimalRoundTrip(if m < 0 then -m else m);
    DecimalRoundTrip(if n < 0 then -n else n);
    hide Decimal;
    assert m < 0 ==> NumberText(m)[0] == '-' && NumberText(m)[1..] == Decimal(-m);
    assert n < 0 ==> NumberText(n)[0] == '-' && NumberText(n)[1..] == Decimal(-n);
  }

  lemma MinuteTextPlain(t: int)
    ensures MinuteText(t) != "" && IsDigit(MinuteText(t)[|MinuteText(t)| - 1]) && '@' !in MinuteText(t)
  {
    var m := t / MINUTE;
    DecimalRoundTrip(if m < 0 then -m else m);
    hide Decimal;
  }

  /** Texts of starts with everything that is assumed of them exist. */
  lemma StampsExist()
    ensures StampSolid(MinuteText) && StampTells(MinuteText)
  {
    forall t
      ensures MinuteText(t) != "" && !IsBlank(MinuteText(t)[|MinuteText(t)| - 1]) && '@' !in MinuteText(t)
    {
      MinuteTextPlain(t);
    }
    forall t, u | t % MINUTE == 0 && u % MINUTE == 0 && MinuteText(t) == MinuteText(u) ensures t == u {
      MinuteTextTells(t, u);
    }
  }

  /** A block on Sundays from ten to eleven, its id beginning with a blank. */
  function BlankIdBlock(): Block { Block(" a", "", [0], "10:00", "11:00", true) }

  lemma BlankIdBlockIs()
    ensures BlockValid(BlankIdBlock()) && SpanOf(BlankIdBlock()) == Some(Span(600, 60))
  {
  }

  /**
   A schedule validation accepts, at half past ten: the scheduler starts its window, the block is lifted, and
   the next tick starts the same window again.
   */
  lemma BlankIdStartsTwice()
    ensures var blocks, t := [BlankIdBlock()], 630 * MINUTE; var c := Choice(0, WindowOn(BlankIdBlock(), 0));
      BlocksValid(blocks) && Active(blocks, t) == Some(c) && StartedTwice(MinuteText, blocks, "", LiftedAt(t), 0, 1, c)
  {
    BlankIdBlockIs();
    hide SpanOf;
    hide BlockValid;
    var b, t := BlankIdBlock(), 630 * MINUTE;
    var blocks, c := [b], Choice(0, WindowOn(b, 0));
    assert DayOf(t) == 0 && Weekday(0) == 0 && Weekday(-1) == 6;
    assert WindowsAt(b, t) == [c.window];
    hide WindowsAt;
    assert [c.window][..0] == [];
    assert Later(None, 0, [c.window]) == Some(c);
    assert ActiveOf(blocks, 0, t) == None;
    assert Active(blocks, t) == Some(c);
    hide Active;
    StampsExist();
    hide MinuteText;
    assert LeadingBlank(c.window);
    LeadingBlankStartsTwice(MinuteText, blocks, t, c);
  }
}
