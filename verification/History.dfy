/**
 The block history (cmd/kblockerctl/history.go): sessions pieced together from periodic looks at the
 module, across restarts of the daemon.
 */
module History {
  import opened Wrappers

  /** Seconds between two ticks of the scheduler. */
  const TICK: int := 5

  datatype Outcome = Open | Completed | Unlocked | Interrupted

  datatype Entry = Entry(start: int, end: int, plannedEnd: int, locked: bool, scheduled: string, outcome: Outcome)

  datatype ModuleState = ModuleState(loaded: bool, enabled: bool, remaining: nat, pgp: bool)

  /** The tracker, the history file, and the file of the block in progress. */
  datatype Tracked = Tracked(
    open: Option<Entry>,
    lastRemaining: int,
    lastSaved: int,
    records: seq<Entry>,
    openFile: Option<Entry>)

  /** newHistoryTracker, on what the last run of the daemon left. */
  function Restarted(records: seq<Entry>, openFile: Option<Entry>): Tracked {
    Tracked(if openFile.Some? && openFile.value.start > 0 then openFile else None, 0, 0, records, openFile)
  }

  function Opened(s: Tracked, now: int, st: ModuleState, startedBy: string): Tracked {
    match s.open
    case None => s.(open := Some(Entry(now, 0, 0, st.pgp, startedBy, Open)), lastSaved := 0)
    case Some(e) =>
      if e.scheduled == "" && startedBy != "" && now - e.start < 60
      then s.(open := Some(e.(scheduled := startedBy))) else s
  }

  function SeenEnabled(s: Tracked, now: int, st: ModuleState, startedBy: string): Tracked {
    var t := Opened(s, now, st, startedBy);
    var e := t.open.value.(plannedEnd := now + st.remaining);
    var u := t.(open := Some(e), lastRemaining := st.remaining);
    if now - u.lastSaved >= 60 then u.(openFile := Some(e), lastSaved := now) else u
  }

  /** How a block that is over ended, and when. */
  function Closed(e: Entry, lastRemaining: int, now: int): Entry {
    if lastRemaining == 0 then
      if now >= e.plannedEnd then e.(outcome := Completed, end := e.plannedEnd)
      else e.(outcome := Interrupted, end := now)
    else if lastRemaining <= 2 * TICK then e.(outcome := Completed, end := e.plannedEnd)
    else e.(outcome := Unlocked, end := now)
  }

  function SeenDisabled(s: Tracked, now: int): Tracked {
    match s.open
    case None => s
    case Some(e) =>
      var c := Closed(e, s.lastRemaining, now);
      s.(records := if c.end > c.start then s.records + [c] else s.records,
         open := None, lastRemaining := 0, openFile := None)
  }

  /** observe */
  function Observed(s: Tracked, now: int, st: ModuleState, startedBy: string): Tracked {
    if !st.loaded then s
    else if st.enabled then SeenEnabled(s, now, st, startedBy)
    else SeenDisabled(s, now)
  }

  // ---- The code ----

  class HistoryTracker {
    var open: Option<Entry>
    var lastRemaining: int
    var lastSaved: int

    // The two files.
    var records: seq<Entry>
    var openFile: Option<Entry>

    ghost function Now(): Tracked
      reads this
    {
      Tracked(open, lastRemaining, lastSaved, records, openFile)
    }

    /** newHistoryTracker */
    constructor (records: seq<Entry>, openFile: Option<Entry>)
      ensures Now() == Restarted(records, openFile)
    {
      open, lastRemaining, lastSaved := None, 0, 0;
      this.records, this.openFile := records, openFile;
      new;
      if openFile.Some? && openFile.value.start > 0 {
        open := openFile;
      }
    }

    /** observe */
    method Observe(now: int, st: ModuleState, startedBy: string)
      modifies this
      ensures Now() == Observed(old(Now()), now, st, startedBy)
    {
      if !st.loaded {
        return;
      }
      if st.enabled {
        ObserveEnabled(now, st, startedBy);
        return;
      }
      if open.None? {
        return;
      }
      var e := open.value;
      if lastRemaining == 0 && now >= e.plannedEnd {
        e := e.(outcome := Completed, end := e.plannedEnd);
      } else if lastRemaining == 0 {
        e := e.(outcome := Interrupted, end := now);
      } else if lastRemaining <= 2 * TICK {
        e := e.(outcome := Completed, end := e.plannedEnd);
      } else {
        e := e.(outcome := Unlocked, end := now);
      }
      if e.end > e.start {
        records := records + [e];
      }
      open := None;
      lastRemaining := 0;
      openFile := None;
    }

    method ObserveEnabled(now: int, st: ModuleState, startedBy: string)
      modifies this
      ensures Now() == SeenEnabled(old(Now()), now, st, startedBy)
    {
      if open.None? {
        open := Some(Entry(now, 0, 0, st.pgp, startedBy, Open));
        lastSaved := 0;
      } else if open.value.scheduled == "" && startedBy != "" && now - open.value.start < 60 {
        open := Some(open.value.(scheduled := startedBy));
      }
      open := Some(open.value.(plannedEnd := now + st.remaining));
      lastRemaining := st.remaining;
      if now - lastSaved >= 60 {
        openFile := open;
        lastSaved := now;
      }
    }
  }

  // ---- Runs ----

  datatype Event = Tick(now: int, st: ModuleState, startedBy: string) | DaemonRestart

  function Step(s: Tracked, e: Event): Tracked {
    match e
    case Tick(now, st, startedBy) => Observed(s, now, st, startedBy)
    case DaemonRestart => Restarted(s.records, s.openFile)
  }

  function Run(s: Tracked, es: seq<Event>): Tracked {
    if es == [] then s else Step(Run(s, es[..|es| - 1]), es[|es| - 1])
  }

  /** The time of the last tick. */
  function LastTick(before: int, es: seq<Event>): int {
    if es == [] then before
    else if es[|es| - 1].Tick? then es[|es| - 1].now
    else LastTick(before, es[..|es| - 1])
  }

  /** Every tick comes at least TICK after the one before it, restarts in between or not. */
  ghost predicate Spaced(before: int, es: seq<Event>) {
    forall n | 0 <= n < |es| && es[n].Tick? :: es[n].now >= LastTick(before, es[..n]) + TICK
  }

  // ---- Entries never overlap ----

  ghost predicate RecordsOrdered(records: seq<Entry>) {
    && (forall i | 0 <= i < |records| :: records[i].start < records[i].end)
    && (forall i, j | 0 <= i < j < |records| :: records[i].end <= records[j].start)
  }

  /** Every recorded entry is over by a certain time. */
  ghost predicate OverBy(records: seq<Entry>, time: int) { forall i | 0 <= i < |records| :: records[i].end <= time }

  ghost predicate Inv(s: Tracked, last: int) {
    && RecordsOrdered(s.records)
    && OverBy(s.records, last + TICK)
    && s.lastRemaining >= 0
    && (s.open.Some? ==> s.open.value.start <= last && OverBy(s.records, s.open.value.start))
    && (s.open.Some? && s.lastRemaining != 0 ==> s.open.value.plannedEnd <= last + s.lastRemaining)
    && (s.openFile.Some? && s.openFile.value.start > 0 ==>
          s.openFile.value.start <= last && OverBy(s.records, s.openFile.value.start))
  }

  lemma TickKeeps(s: Tracked, last: int, now: int, st: ModuleState, startedBy: string)
    requires Inv(s, last) && now >= last + TICK
    ensures Inv(Observed(s, now, st, startedBy), now)
  {
    if st.loaded && !st.enabled && s.open.Some? {
      ClosedKeeps(s, last, now);
    }
    hide SeenDisabled;
    hide RecordsOrdered;
  }

  /** A block found over ends before the next tick, and after every block recorded so far. */
  lemma ClosedKeeps(s: Tracked, last: int, now: int)
    requires Inv(s, last) && now >= last + TICK && s.open.Some?
    ensures Inv(SeenDisabled(s, now), now)
  {
    var c := Closed(s.open.value, s.lastRemaining, now);
    assert c.start == s.open.value.start && c.end <= now + TICK;
    hide Closed;
  }

  lemma RestartKeeps(s: Tracked, last: int)
    requires Inv(s, last)
    ensures Inv(Restarted(s.records, s.openFile), last)
  {
  }

  /**
   However sessions come and go and however often the daemon is restarted: recorded entries are non-empty,
   in order and disjoint, although a completed one may end after the tick that recorded it.
   */
  lemma {:induction false} EntriesDisjoint(es: seq<Event>, before: int)
    requires Spaced(before, es)
    ensures var s := Run(Restarted([], None), es);
      Inv(s, LastTick(before, es)) && RecordsOrdered(s.records)
  {
    if es != [] {
      var init, e := es[..|es| - 1], es[|es| - 1];
      forall n | 0 <= n < |init| && init[n].Tick? ensures init[n].now >= LastTick(before, init[..n]) + TICK {
        assert init[..n] == es[..n];
      }
      EntriesDisjoint(init, before);
      hide Inv;
      var s := Run(Restarted([], None), init);
      match e
      case Tick(now, st, startedBy) => TickKeeps(s, LastTick(before, init), now, st, startedBy);
      case DaemonRestart => RestartKeeps(s, LastTick(before, init));
    }
  }

  // ---- Outcomes ----

  /** A tick that found a session running: its time, and the block the scheduler started at it, if any. */
  datatype Sighting = Sighting(now: int, startedBy: string)

  /** What the module reports of a session's timer. */
  function Left(expiry: int, now: int): nat { if expiry > now then expiry - now else 0 }

  /** The state after ticks that all found the session running. */
  function Watch(s: Tracked, ticks: seq<Sighting>, expiry: int, pgp: bool): Tracked {
    if ticks == [] then s
    else
      var tick := ticks[|ticks| - 1];
      var st := ModuleState(true, true, Left(expiry, tick.now), pgp);
      Observed(Watch(s, ticks[..|ticks| - 1], expiry, pgp), tick.now, st, tick.startedBy)
  }

  /** These ticks as events of a run. */
  function TicksOf(ticks: seq<Sighting>, expiry: int, pgp: bool): (es: seq<Event>)
    ensures |es| == |ticks|
  {
    seq(|ticks|, k requires 0 <= k < |ticks| =>
      Tick(ticks[k].now, ModuleState(true, true, Left(expiry, ticks[k].now), pgp), ticks[k].startedBy))
  }

  lemma {:induction false} WatchIsRun(s: Tracked, ticks: seq<Sighting>, expiry: int, pgp: bool)
    ensures Run(s, TicksOf(ticks, expiry, pgp)) == Watch(s, ticks, expiry, pgp)
  {
    hide Observed;
    if ticks != [] {
      var init := ticks[..|ticks| - 1];
      WatchIsRun(s, init, expiry, pgp);
      assert TicksOf(ticks, expiry, pgp)[..|init|] == TicksOf(init, expiry, pgp);
    }
  }

  /** A tick within a minute of the first that names a block. */
  predicate Names(ticks: seq<Sighting>, k: nat)
    requires k < |ticks|
  {
    ticks[k].startedBy != "" && ticks[k].now - ticks[0].now < 60
  }

  /** The first name given within a minute of the first sighting, or none. */
  ghost predicate FirstName(ticks: seq<Sighting>, name: string) {
    if name == "" then forall k | 0 <= k < |ticks| :: !Names(ticks, k)
    else exists k :: 0 <= k < |ticks| && Names(ticks, k) && ticks[k].startedBy == name
                     && forall j | 0 <= j < k :: !Names(ticks, j)
  }

  lemma FirstNameSnoc(init: seq<Sighting>, tick: Sighting, name: string)
    requires init != [] && FirstName(init, name)
    ensures var ticks := init + [tick];
      var given := tick.startedBy != "" && tick.now - init[0].now < 60;
      FirstName(ticks, if name == "" && given then tick.startedBy else name)
  {
    var ticks := init + [tick];
    assert forall k | 0 <= k < |init| :: Names(ticks, k) <==> Names(init, k);
    assert Names(ticks, |init|) <==> tick.startedBy != "" && tick.now - init[0].now < 60;
    if name != "" {
      var k :| && 0 <= k < |init| && Names(init, k) && init[k].startedBy == name
               && forall j | 0 <= j < k :: !Names(init, j);
      assert Names(ticks, k) && ticks[k].startedBy == name;
    }
  }

  lemma FirstNameOne(tick: Sighting)
    ensures FirstName([tick], tick.startedBy)
  {
    assert Names([tick], 0) <==> tick.startedBy != "";
  }

  lemma {:induction false} Watched(s: Tracked, ticks: seq<Sighting>, expiry: int, pgp: bool)
    requires s.open.None? && ticks != []
    ensures var t := Watch(s, ticks, expiry, pgp); var now := ticks[|ticks| - 1].now;
      && t.open.Some? && t.open.value.start == ticks[0].now && t.open.value.locked == pgp
      && FirstName(ticks, t.open.value.scheduled)
      && t.open.value.plannedEnd == now + Left(expiry, now) && t.lastRemaining == Left(expiry, now)
      && t.records == s.records
  {
    hide FirstName;
    if |ticks| > 1 {
      var init, tick := ticks[..|ticks| - 1], ticks[|ticks| - 1];
      Watched(s, init, expiry, pgp);
      assert ticks == init + [tick];
      FirstNameSnoc(init, tick, Watch(s, init, expiry, pgp).open.value.scheduled);
    } else {
      assert ticks == [ticks[0]] && ticks[..0] == [];
      FirstNameOne(ticks[0]);
    }
  }

  /** The tracker after a tick that finds a watched session over. */
  function Ended(s: Tracked, ticks: seq<Sighting>, expiry: int, pgp: bool, over: Sighting): Tracked {
    Observed(Watch(s, ticks, expiry, pgp), over.now, ModuleState(true, false, 0, pgp), over.startedBy)
  }

  /** One entry more, with the session's first sighting, lock and block. */
  ghost predicate Adds(
      before: seq<Entry>, after: seq<Entry>, ticks: seq<Sighting>, pgp: bool, outcome: Outcome, end: int)
    requires ticks != []
  {
    && |after| == |before| + 1 && after[..|before|] == before
    && var e := after[|before|];
      && e.start == ticks[0].now && e.end == end && e.locked == pgp && e.outcome == outcome
      && FirstName(ticks, e.scheduled)
  }

  /** Sightings are later and later. */
  ghost predicate Forward(ticks: seq<Sighting>) {
    forall i, j | 0 <= i < j < |ticks| :: ticks[i].now < ticks[j].now
  }

  /**
   For every session, scheduled or not, watched without a restart: what its last sighting was worth decides.
   Within ten seconds of the timer's end it counts as completed, and ends when the timer did or, if that
   was over already, at that sighting; otherwise as unlocked, at the tick that noticed. An entry is written
   unless the session's only sighting was after the end of its timer.
   */
  lemma OutcomeIs(s: Tracked, ticks: seq<Sighting>, expiry: int, pgp: bool, over: Sighting)
    requires s.open.None? && ticks != [] && Forward(ticks) && ticks[|ticks| - 1].now < over.now
    ensures var r := Ended(s, ticks, expiry, pgp, over).records; var last := ticks[|ticks| - 1].now;
      if expiry > last + 2 * TICK then Adds(s.records, r, ticks, pgp, Unlocked, over.now)
      else if |ticks| == 1 && expiry <= last then r == s.records
      else Adds(s.records, r, ticks, pgp, Completed, if last < expiry then expiry else last)
  {
    Watched(s, ticks, expiry, pgp);
    hide Watch;
    hide FirstName;
    assert |ticks| > 1 ==> ticks[0].now < ticks[|ticks| - 1].now;
  }

  /**
   With ticks at most ten seconds apart, a session that ran to its timer is recorded as completed: always when
   it was seen before its timer's end, and otherwise when it was seen twice.
   */
  lemma TimerIsCompleted(s: Tracked, ticks: seq<Sighting>, expiry: int, pgp: bool, end: int, over: Sighting)
    requires s.open.None? && ticks != [] && Forward(ticks)
    requires ticks[|ticks| - 1].now < end <= over.now <= ticks[|ticks| - 1].now + 2 * TICK
    requires end >= expiry
    ensures var r := Ended(s, ticks, expiry, pgp, over).records; var last := ticks[|ticks| - 1].now;
      if ticks[0].now < expiry || |ticks| > 1
      then Adds(s.records, r, ticks, pgp, Completed, if last < expiry then expiry else last)
      else r == s.records
  {
    OutcomeIs(s, ticks, expiry, pgp, over);
    hide Ended;
    hide Adds;
    assert |ticks| > 1 ==> ticks[0].now < ticks[|ticks| - 1].now;
  }

  /** One ended with at least ten seconds left on its timer is recorded as unlocked, at the tick that noticed. */
  lemma KeyIsUnlocked(s: Tracked, ticks: seq<Sighting>, expiry: int, pgp: bool, end: int, over: Sighting)
    requires s.open.None? && ticks != [] && Forward(ticks)
    requires ticks[|ticks| - 1].now < end <= over.now
    requires expiry - end >= 2 * TICK
    ensures Adds(s.records, Ended(s, ticks, expiry, pgp, over).records, ticks, pgp, Unlocked, over.now)
  {
    OutcomeIs(s, ticks, expiry, pgp, over);
    hide Ended;
    hide Adds;
  }

  /** A session the scheduler starts is found by the same tick; what is recorded of it carries the block's name. */
  lemma StartedBlockIsNamed(s: Tracked, ticks: seq<Sighting>, expiry: int, pgp: bool, over: Sighting)
    requires s.open.None? && ticks != [] && Forward(ticks) && ticks[|ticks| - 1].now < over.now
    requires ticks[0].startedBy != "" && ticks[0].now < expiry
    ensures var r := Ended(s, ticks, expiry, pgp, over).records;
      |r| == |s.records| + 1 && r[..|s.records|] == s.records && r[|s.records|].scheduled == ticks[0].startedBy
  {
    OutcomeIs(s, ticks, expiry, pgp, over);
    hide Ended;
    assert Names(ticks, 0);
  }

  // ---- Across a restart of the daemon ----

  /** The k-th sighting is the last one saved. */
  ghost predicate SavedAt(t: Tracked, ticks: seq<Sighting>, expiry: int, pgp: bool, k: nat)
    requires k < |ticks|
  {
    && t.lastSaved == ticks[k].now && t.openFile.Some?
    && var e := t.openFile.value;
      && e.start == ticks[0].now && e.locked == pgp && e.plannedEnd == ticks[k].now + Left(expiry, ticks[k].now)
  }

  /** Times are seconds since 1970; no minute passes from the last save to the last sighting. */
  lemma {:induction false} SavedLately(s: Tracked, ticks: seq<Sighting>, expiry: int, pgp: bool) returns (k: nat)
    requires s.open.None? && ticks != [] && Forward(ticks) && ticks[0].now >= 60
    ensures k < |ticks| && ticks[|ticks| - 1].now - ticks[k].now < 60
    ensures SavedAt(Watch(s, ticks, expiry, pgp), ticks, expiry, pgp, k)
  {
    Watched(s, ticks, expiry, pgp);
    hide FirstName;
    if |ticks| == 1 {
      k := 0;
      assert ticks[..0] == [];
    } else {
      var init, tick := ticks[..|ticks| - 1], ticks[|ticks| - 1];
      k := SavedLately(s, init, expiry, pgp);
      Watched(s, init, expiry, pgp);
      if tick.now - ticks[k].now >= 60 {
        k := |ticks| - 1;
      }
    }
  }

  /**
   A session that ends while the daemon is not running is picked up by its next run: as completed, at the end of its
   timer, if that has passed, and as interrupted at that moment if not.
   */
  lemma PickedUpAfterRestart(s: Tracked, ticks: seq<Sighting>, expiry: int, pgp: bool, over: Sighting)
    requires s.open.None? && ticks != [] && Forward(ticks) && 60 <= ticks[0].now < expiry
    requires ticks[|ticks| - 1].now < over.now
    ensures var t := Watch(s, ticks, expiry, pgp);
      var r := Observed(Restarted(t.records, t.openFile), over.now, ModuleState(true, false, 0, pgp), over.startedBy);
      && r.open.None? && r.openFile.None? && |r.records| == |s.records| + 1 && r.records[..|s.records|] == s.records
      && var e := r.records[|s.records|];
        && e.start == ticks[0].now && e.locked == pgp
        && (over.now < expiry ==> e.outcome == Interrupted && e.end == over.now)
        && (over.now >= expiry ==> e.outcome == Completed && expiry <= e.end <= over.now)
        && (over.now >= expiry > ticks[|ticks| - 1].now ==> e.end == expiry)
  {
    var k := SavedLately(s, ticks, expiry, pgp);
    Watched(s, ticks, expiry, pgp);
    hide Watch;
    hide FirstName;
    assert k > 0 ==> ticks[0].now < ticks[k].now;
    assert k < |ticks| - 1 ==> ticks[k].now < ticks[|ticks| - 1].now;
  }

  /** One that is still running when the daemon is back goes on as the same entry, begun when it was first seen. */
  lemma {:induction false} ResumedAfterRestart(s: Tracked, ticks: seq<Sighting>, expiry: int, pgp: bool)
    requires s.open.Some? && ticks != []
    ensures var t := Watch(s, ticks, expiry, pgp); var now := ticks[|ticks| - 1].now;
      && t.open.Some? && t.open.value.start == s.open.value.start && t.open.value.locked == s.open.value.locked
      && t.open.value.plannedEnd == now + Left(expiry, now) && t.lastRemaining == Left(expiry, now)
      && t.records == s.records
  {
    if |ticks| > 1 {
      ResumedAfterRestart(s, ticks[..|ticks| - 1], expiry, pgp);
    } else {
      assert ticks[..0] == [];
    }
  }

  /** So a session watched before and after a restart makes one entry, judged by its last sighting. */
  lemma OneEntryAcrossRestart(
      s: Tracked, ticks: seq<Sighting>, again: seq<Sighting>, expiry: int, pgp: bool, over: Sighting)
    requires s.open.None? && ticks != [] && again != [] && Forward(ticks + again) && 60 <= ticks[0].now
    requires again[|again| - 1].now < over.now
    ensures var t := Watch(s, ticks, expiry, pgp); var last := again[|again| - 1].now;
      var r := Ended(Restarted(t.records, t.openFile), again, expiry, pgp, over).records;
      && |r| == |s.records| + 1 && r[..|s.records|] == s.records
      && var e := r[|s.records|];
        && e.start == ticks[0].now && e.locked == pgp
        && (expiry > last + 2 * TICK ==> e.outcome == Unlocked && e.end == over.now)
        && (expiry <= last + 2 * TICK ==> e.outcome == Completed && e.end == if last < expiry then expiry else last)
  {
    assert forall i | 0 <= i < |ticks| :: (ticks + again)[i] == ticks[i];
    assert (ticks + again)[|ticks| + |again| - 1] == again[|again| - 1];
    var k := SavedLately(s, ticks, expiry, pgp);
    Watched(s, ticks, expiry, pgp);
    var t := Watch(s, ticks, expiry, pgp);
    ResumedAfterRestart(Restarted(t.records, t.openFile), again, expiry, pgp);
    hide Watch;
    hide FirstName;
  }

  /** Without the module nothing is learned and nothing recorded. */
  lemma {:induction false} AbsentModule(s: Tracked, es: seq<Event>)
    requires forall n | 0 <= n < |es| :: es[n].Tick? && !es[n].st.loaded
    ensures Run(s, es) == s
  {
    if es != [] {
      AbsentModule(s, es[..|es| - 1]);
    }
  }
}
