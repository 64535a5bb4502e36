/**
 That the protocol of src/file_protection.c gets where it is meant to get: a change to a protected inode ends
 in a refusal, and a removal can always be finished, whoever is still inside.
 */
module HooksProgress {
  import opened Wrappers
  import opened Hooks

  // ---- Runs ----

  lemma {:induction false} RunConcat(s: State, a: seq<Event>, b: seq<Event>)
    requires RunValid(s, a) && RunValid(Exec(s, a), b)
    ensures RunValid(s, a + b) && Exec(s, a + b) == Exec(Exec(s, a), b)
    decreases |a|
  {
    hide Step;
    hide Enabled;
    if a == [] {
      assert a + b == b;
    } else {
      assert (a + b)[1..] == a[1..] + b;
      RunConcat(Step(s, a[0]), a[1..], b);
    }
  }

  lemma OneStep(s: State, e: Event)
    requires Enabled(s, e)
    ensures RunValid(s, [e]) && Exec(s, [e]) == Step(s, e)
  {
    hide Step;
    hide Enabled;
    assert [e][1..] == [];
  }

  /** The caller a step belongs to. */
  predicate StepOf(e: Event, t: Tid) {
    e == Enter(t) || (e.Load? && e.t == t) || e == Call(t) || e == Look(t) || e == Return(t) || e == Exit(t)
  }

  ghost predicate StepsOf(es: seq<Event>, t: Tid) { forall i | 0 <= i < |es| :: StepOf(es[i], t) }

  /** What the steps of callers leave alone. */
  predicate SameSlots(s: State, u: State) {
    && u.tables == s.tables && u.slots == s.slots && u.freed == s.freed && u.nextId == s.nextId && u.active == s.active
    && u.threads.Keys == s.threads.Keys
  }

  // ---- A refusal is reached ----

  /** A search in progress ends with the slot of its inode, by looks alone. */
  lemma {:induction false} SearchEnds(s: State, t: Tid) returns (es: seq<Event>)
    requires Inv(s) && t in s.threads && s.threads[t].hook.Scanning?
    ensures RunValid(s, es) && StepsOf(es, t)
    ensures var u := Exec(s, es); var h := s.threads[t].hook;
      && Inv(u) && SameSlots(s, u) && u.phase == s.phase
      && u.threads[t].hook.Holding? && u.threads[t].hook.inode == h.inode
      && u.threads[t].inSection == s.threads[t].inSection
      && forall x | x in s.threads && x != t :: u.threads[x] == s.threads[x]
    decreases |s.slots| + 1 - s.threads[t].hook.next
  {
    hide Inv;
    NextBounded(s, t);
    var u := Step(s, Look(t));
    OneStep(s, Look(t));
    StepKeeps(s, Look(t));
    if u.threads[t].hook.Scanning? {
      var rest := SearchEnds(u, t);
      RunConcat(s, [Look(t)], rest);
      es := [Look(t)] + rest;
    } else {
      es := [Look(t)];
    }
  }

  lemma NextBounded(s: State, t: Tid)
    requires Inv(s) && t in s.threads && s.threads[t].hook.Scanning?
    ensures s.threads[t].hook.next < |s.slots|
  {
    assert HookInv(s, s.threads[t]);
  }

  predicate Away(th: Thread) { !th.inSection && th.hook.Idle? }

  /**
   Whatever state the protocol is in: a thread that goes about changing an inode whose table is a copy, with
   protection on, ends up in a hook that has found that inode's slot and refuses.
   */
  lemma ChangeIsRefused(s: State, t: Tid, inode: Inode, own: bool) returns (es: seq<Event>)
    requires Inv(s) && s.active && inode in s.tables && t in s.threads && Away(s.threads[t])
    ensures RunValid(s, es) && StepsOf(es, t)
    ensures var u := Exec(s, es);
      && Inv(u) && SameSlots(s, u) && u.threads[t].hook.Holding? && u.threads[t].hook.inode == inode
      && PermissionAnswer(u, u.threads[t].hook.found, true, own) == Eperm
      && SetattrAnswer(u, u.threads[t].hook.found, own) == Eperm
  {
    hide Inv;
    var e, l, c := Enter(t), Load(t, inode), Call(t);
    var s1 := Step(s, e);
    StepKeeps(s, e);
    var s2 := Step(s1, l);
    StepKeeps(s1, l);
    var s3 := Step(s2, c);
    StepKeeps(s2, c);
    ThreeSteps(s, e, l, c);
    var rest := SearchEnds(s3, t);
    RunConcat(s, [e, l, c], rest);
    es := [e, l, c] + rest;
    HookAnswers(Exec(s, es), t, true, own);
    hide RunValid;
  }

  lemma ThreeSteps(s: State, a: Event, b: Event, c: Event)
    requires Enabled(s, a) && Enabled(Step(s, a), b) && Enabled(Step(Step(s, a), b), c)
    ensures RunValid(s, [a, b, c]) && Exec(s, [a, b, c]) == Step(Step(Step(s, a), b), c)
  {
    hide Step;
    hide Enabled;
    OneStep(Step(Step(s, a), b), c);
    OneStep(Step(s, a), b);
    OneStep(s, a);
    assert [a, b, c] == [a] + ([b] + [c]);
    RunConcat(Step(s, a), [b], [c]);
    RunConcat(s, [a], [b] + [c]);
    hide RunValid;
    hide Exec;
  }

  // ---- A removal can be finished ----

  /** A grace period waits only for sections that are open, and loops stay within the table. */
  ghost predicate Orderly(s: State) {
    match s.phase
    case Pointing(slot) => slot < |s.slots| && s.slots[slot].Some?
    case Restoring(next) => next <= |s.slots|
    case FirstGrace(waiting) => waiting <= InSection(s.threads)
    case SecondGrace(waiting) => waiting <= InSection(s.threads)
    case Clearing(next) => next <= |s.slots|
    case _ => true
  }

  lemma StepOrderly(s: State, e: Event)
    requires Orderly(s) && Enabled(s, e)
    ensures Orderly(Step(s, e))
  {
  }

  lemma {:induction false} RunOrderly(s: State, es: seq<Event>)
    requires Orderly(s) && RunValid(s, es)
    ensures Orderly(Exec(s, es))
    decreases |es|
  {
    hide Orderly;
    hide Step;
    hide Enabled;
    if es != [] {
      StepOrderly(s, es[0]);
      RunOrderly(Step(s, es[0]), es[1..]);
    }
  }

  /** A caller that is inside can leave: finish its search, return, close its section. */
  lemma Leaves(s: State, t: Tid) returns (es: seq<Event>)
    requires Inv(s) && t in s.threads
    ensures RunValid(s, es) && StepsOf(es, t)
    ensures var u := Exec(s, es);
      && Inv(u) && SameSlots(s, u) && Away(u.threads[t])
      && (u.phase == s.phase || u.phase == Left(s.phase, t))
      && forall x | x in s.threads && x != t :: u.threads[x] == s.threads[x]
  {
    hide Inv;
    es := [];
    var u := s;
    if s.threads[t].hook.Scanning? {
      es := SearchEnds(s, t);
      u := Exec(s, es);
    }
    if u.threads[t].hook.Holding? {
      StepKeeps(u, Return(t));
      OneStep(u, Return(t));
      RunConcat(s, es, [Return(t)]);
      es, u := es + [Return(t)], Step(u, Return(t));
    }
    if u.threads[t].inSection {
      StepKeeps(u, Exit(t));
      OneStep(u, Exit(t));
      RunConcat(s, es, [Exit(t)]);
      es, u := es + [Exit(t)], Step(u, Exit(t));
    }
    hide RunValid;
  }

  function Inside(threads: map<Tid, Thread>): set<Tid> { set t | t in threads && !Away(threads[t]) }

  /** All callers can leave, whatever the remover is doing. */
  lemma {:induction false} AllLeave(s: State) returns (es: seq<Event>)
    requires Inv(s) && Orderly(s)
    ensures RunValid(s, es)
    ensures var u := Exec(s, es);
      Inv(u) && Orderly(u) && SameSlots(s, u) && Inside(u.threads) == {}
    decreases |Inside(s.threads)|
  {
    hide Inv;
    hide Orderly;
    if Inside(s.threads) == {} {
      return [];
    }
    var t :| t in Inside(s.threads);
    var first := Leaves(s, t);
    var u := Exec(s, first);
    RunOrderly(s, first);
    OneLess(s.threads, u.threads, t);
    var rest := AllLeave(u);
    RunConcat(s, first, rest);
    es := first + rest;
    hide RunValid;
  }

  lemma OneLess(before: map<Tid, Thread>, after: map<Tid, Thread>, t: Tid)
    requires t in Inside(before) && after.Keys == before.Keys && Away(after[t])
    requires forall x | x in before && x != t :: after[x] == before[x]
    ensures |Inside(after)| < |Inside(before)|
  {
    assert Inside(after) == Inside(before) - {t};
  }

  /** What is left of a removal, in steps of the remover. */
  function ToGo(s: State): int {
    match s.phase
    case Pointing(_) => 3 * |s.slots| + 20
    case Resting => if s.active then 3 * |s.slots| + 19 else 0
    case Stopping => 3 * |s.slots| + 18
    case Restoring(next) => 3 * |s.slots| + 10 - next
    case FirstGrace(_) => |s.slots| + 9
    case Draining => |s.slots| + 8
    case SecondGrace(_) => |s.slots| + 7
    case Clearing(next) => |s.slots| + 1 - next
  }

  /** The remover's next step towards the end. */
  function Next(s: State): Event {
    match s.phase
    case Pointing(_) => Point
    case Resting => Deactivate
    case Stopping => BeginRestore
    case Restoring(next) => if next < |s.slots| then Restore else BeginGrace
    case FirstGrace(_) => EndGrace
    case Draining => Drained
    case SecondGrace(_) => EndSecondGrace
    case Clearing(next) => if next < |s.slots| then Clear else Finish
  }

  predicate Over(s: State) { s.phase.Resting? && !s.active }

  /** With nobody inside it can be taken, and it leads on. */
  lemma NextLeadsOn(s: State)
    requires Inv(s) && Orderly(s) && Inside(s.threads) == {} && !Over(s)
    ensures Enabled(s, Next(s)) && ToGo(s) > 0
    ensures var u := Step(s, Next(s));
      u.threads == s.threads && ToGo(u) < ToGo(s) && (Over(u) || 0 < ToGo(u))
  {
    NobodyInside(s);
    hide Inv;
  }

  lemma NobodyInside(s: State)
    requires Inv(s) && Inside(s.threads) == {}
    ensures InSection(s.threads) == {} && s.inflight == 0 && |s.slots| == MAX_INSTALLS
    ensures s.active ==> s.phase.Resting? || s.phase.Pointing?
  {
    forall t | t in s.threads ensures Away(s.threads[t]) {
      assert t !in Inside(s.threads);
    }
    assert InHook(s.threads) == {};
    hide SlotsInv;
    hide TablesInv;
    hide ThreadsInv;
  }

  lemma {:induction false} RemoverFinishes(s: State) returns (es: seq<Event>)
    requires Inv(s) && Orderly(s) && Inside(s.threads) == {}
    ensures RunValid(s, es) && Over(Exec(s, es)) && Inv(Exec(s, es))
    decreases ToGo(s)
  {
    hide Inv;
    hide Orderly;
    hide Step;
    hide Enabled;
    if Over(s) {
      return [];
    }
    NextLeadsOn(s);
    var e := Next(s);
    StepKeeps(s, e);
    StepOrderly(s, e);
    OneStep(s, e);
    var rest := RemoverFinishes(Step(s, e));
    RunConcat(s, [e], rest);
    es := [e] + rest;
    hide RunValid;
    hide ToGo;
  }

  /**
   From every state of every run, whoever is inside and whatever the remover is doing, there are steps that end with
   protection off and nothing of ours left: removal never gets stuck.
   */
  lemma RemovalCanFinish(s: State, past: seq<Event>) returns (es: seq<Event>)
    requires Initial(s) && RunValid(s, past)
    ensures RunValid(s, past + es)
    ensures var u := Exec(s, past + es); Over(u) && Clean(u) && Safe(u)
  {
    InitialInv(s);
    InitialOrderly(s);
    RunsAreSafe(s, past);
    RunOrderly(s, past);
    hide *;
    var late := Exec(s, past);
    var leave := AllLeave(late);
    var finish := RemoverFinishes(Exec(late, leave));
    RunConcat(late, leave, finish);
    es := leave + finish;
    RunConcat(s, past, es);
    RunsAreSafe(s, past + es);
    OverIsResting(Exec(s, past + es));
  }

  lemma InitialOrderly(s: State)
    requires Initial(s)
    ensures Orderly(s)
  {
  }

  lemma OverIsResting(s: State)
    ensures Over(s) <==> s.phase.Resting? && !s.active
  {
  }
}
