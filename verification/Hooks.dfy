/**
 Taking the inode hooks down under running callers (src/file_protection.c): any number of threads walk
 paths, load operation tables and run hook bodies while one thread, holding protect_lock, installs hooks
 and later removes them. Every step is one shared-memory access; any interleaving is a run.
 */
module Hooks {
  import opened Wrappers

  const MAX_INSTALLS: nat := 32

  type Inode = nat
  type Tid = nat

  /** A table of operations: the file system's own, or one of our copies. */
  datatype Table = Original | Custom(id: nat)

  datatype Slot = Slot(inode: Inode, id: nat)

  /** Inside kb_permission, kb_setattr or kb_fileattr_set, between the increment and the decrement. */
  datatype Hook =
    | Idle
    | Scanning(inode: Inode, next: nat)               // find_install has looked at the slots below `next`
    | Holding(inode: Inode, found: Option<nat>)        // what find_install returned

  /** `loaded` is the table read from an inode in the current read-side section. */
  datatype Thread = Thread(inSection: bool, loaded: Option<(Inode, Table)>, hook: Hook)

  /** Where the holder of protect_lock is. */
  datatype Phase =
    | Resting
    | Pointing(slot: nat)             // protect_inode has published a slot, the inode's table comes next
    | Stopping                        // protect_active is off, timer and work are cancelled
    | Restoring(next: nat)
    | FirstGrace(waiting: set<Tid>)   // synchronize_rcu: sections open at its start and not left since
    | Draining                        // while (atomic_read(&hook_inflight))
    | SecondGrace(waiting: set<Tid>)
    | Clearing(next: nat)

  datatype State = State(
    tables: map<Inode, nat>,          // inodes whose i_op is one of our copies
    slots: seq<Option<Slot>>,
    freed: set<nat>,                  // copies given back
    nextId: nat,
    active: bool,
    inflight: int,
    threads: map<Tid, Thread>,
    phase: Phase)

  datatype Event =
    // path walks and hook bodies
    | Enter(t: Tid)                   // rcu_read_lock
    | Load(t: Tid, inode: Inode)      // read inode->i_op
    | Call(t: Tid)                    // call through the loaded table, up to atomic_inc
    | Look(t: Tid)                    // one slot in find_install
    | Return(t: Tid)                  // atomic_dec
    | Exit(t: Tid)                    // rcu_read_unlock
    // the holder of protect_lock
    | Activate
    | Publish(inode: Inode, slot: nat)
    | Point
    | Deactivate
    | BeginRestore
    | Restore
    | BeginGrace
    | EndGrace
    | Drained
    | EndSecondGrace
    | Clear
    | Finish

  function TableOf(s: State, inode: Inode): Table {
    if inode in s.tables then Custom(s.tables[inode]) else Original
  }

  function InSection(threads: map<Tid, Thread>): set<Tid> { set t | t in threads && threads[t].inSection }

  function InHook(threads: map<Tid, Thread>): set<Tid> { set t | t in threads && threads[t].hook != Idle }

  predicate HasSlot(s: State, inode: Inode) {
    exists k | 0 <= k < |s.slots| :: s.slots[k].Some? && s.slots[k].value.inode == inode
  }

  predicate Enabled(s: State, e: Event) {
    match e
    case Enter(t) => t in s.threads && !s.threads[t].inSection
    case Load(t, _) => t in s.threads && s.threads[t].inSection && s.threads[t].hook.Idle?
    case Call(t) =>
      // The section is still open: a caller may not leave it between loading the table and the increment.
      t in s.threads && s.threads[t].inSection && s.threads[t].hook.Idle?
        && s.threads[t].loaded.Some? && s.threads[t].loaded.value.1.Custom?
    case Look(t) => t in s.threads && s.threads[t].hook.Scanning?
    case Return(t) => t in s.threads && s.threads[t].hook.Holding?
    case Exit(t) => t in s.threads && s.threads[t].inSection
    case Activate => s.phase.Resting?
    case Publish(inode, slot) =>
      s.phase.Resting? && s.active && slot < |s.slots| && s.slots[slot].None? && !HasSlot(s, inode)
    case Point => s.phase.Pointing? && s.phase.slot < |s.slots| && s.slots[s.phase.slot].Some?
    case Deactivate => s.phase.Resting?
    case BeginRestore => s.phase.Stopping?
    case Restore => s.phase.Restoring? && s.phase.next < |s.slots|
    case BeginGrace => s.phase.Restoring? && s.phase.next == |s.slots|
    case EndGrace => s.phase.FirstGrace? && s.phase.waiting == {}
    case Drained => s.phase.Draining? && s.inflight == 0
    case EndSecondGrace => s.phase.SecondGrace? && s.phase.waiting == {}
    case Clear => s.phase.Clearing? && s.phase.next < |s.slots|
    case Finish => s.phase.Clearing? && s.phase.next == |s.slots|
  }

  /** A grace period stops waiting for a section when it is left. */
  function Left(phase: Phase, t: Tid): Phase {
    match phase
    case FirstGrace(waiting) => FirstGrace(waiting - {t})
    case SecondGrace(waiting) => SecondGrace(waiting - {t})
    case _ => phase
  }

  function SetThread(s: State, t: Tid, th: Thread): State { s.(threads := s.threads[t := th]) }

  function Step(s: State, e: Event): State
    requires Enabled(s, e)
  {
    match e
    case Enter(t) => SetThread(s, t, s.threads[t].(inSection := true, loaded := None))
    case Load(t, inode) => SetThread(s, t, s.threads[t].(loaded := Some((inode, TableOf(s, inode)))))
    case Call(t) =>
      SetThread(s, t, s.threads[t].(hook := Scanning(s.threads[t].loaded.value.0, 0))).(inflight := s.inflight + 1)
    case Look(t) =>
      var h := s.threads[t].hook;
      var next :=
        if h.next >= |s.slots| then Holding(h.inode, None)
        else if s.slots[h.next].Some? && s.slots[h.next].value.inode == h.inode then Holding(h.inode, Some(h.next))
        else Scanning(h.inode, h.next + 1);
      SetThread(s, t, s.threads[t].(hook := next))
    case Return(t) => SetThread(s, t, s.threads[t].(hook := Idle)).(inflight := s.inflight - 1)
    case Exit(t) =>
      SetThread(s, t, s.threads[t].(inSection := false, loaded := None)).(phase := Left(s.phase, t))
    case Activate => s.(active := true)
    case Publish(inode, slot) =>
      s.(slots := s.slots[slot := Some(Slot(inode, s.nextId))], nextId := s.nextId + 1, phase := Pointing(slot))
    case Point =>
      var slot := s.slots[s.phase.slot].value;
      s.(tables := s.tables[slot.inode := slot.id], phase := Resting)
    case Deactivate => s.(active := false, phase := Stopping)
    case BeginRestore => s.(phase := Restoring(0))
    case Restore =>
      var slot := s.slots[s.phase.next];
      s.(tables := if slot.Some? && TableOf(s, slot.value.inode) == Custom(slot.value.id)
                   then s.tables - {slot.value.inode} else s.tables,
         phase := Restoring(s.phase.next + 1))
    case BeginGrace => s.(phase := FirstGrace(InSection(s.threads)))
    case EndGrace => s.(phase := Draining)
    case Drained => s.(phase := SecondGrace(InSection(s.threads)))
    case EndSecondGrace => s.(phase := Clearing(0))
    case Clear =>
      var slot := s.slots[s.phase.next];
      s.(slots := s.slots[s.phase.next := None],
         freed := if slot.Some? then s.freed + {slot.value.id} else s.freed,
         phase := Clearing(s.phase.next + 1))
    case Finish => s.(phase := Resting)
  }

  // ---- Safety ----

  /** A call through the loaded table does not run into freed memory. */
  predicate LoadSafe(s: State, th: Thread) {
    th.loaded.Some? && th.loaded.value.1.Custom? ==> th.loaded.value.1.id !in s.freed
  }

  /** A finished search has found the slot of its inode, and the slot is still filled. */
  predicate HookSafe(s: State, th: Thread) {
    th.hook.Holding? ==>
      && th.hook.found.Some? && th.hook.found.value < |s.slots|
      && s.slots[th.hook.found.value].Some? && s.slots[th.hook.found.value].value.inode == th.hook.inode
  }

  ghost predicate Safe(s: State) {
    && (forall t | t in s.threads :: LoadSafe(s, s.threads[t]) && HookSafe(s, s.threads[t]))
    && (forall inode | inode in s.tables :: s.tables[inode] !in s.freed)
  }

  // ---- The invariant ----

  predicate Filled(s: State, k: nat, inode: Inode, id: nat) {
    k < |s.slots| && s.slots[k] == Some(Slot(inode, id))
  }

  /** From when on in a removal no inode has a copy any more. */
  predicate TablesGone(phase: Phase) {
    phase.FirstGrace? || phase.Draining? || phase.SecondGrace? || phase.Clearing?
  }

  /** From when on nobody can still call through a copy. */
  predicate LoadsGone(phase: Phase) { phase.Draining? || phase.SecondGrace? || phase.Clearing? }

  /** From when on no hook body is running. */
  predicate HooksGone(phase: Phase) { phase.SecondGrace? || phase.Clearing? }

  ghost predicate SlotsInv(s: State) {
    && (forall k | 0 <= k < |s.slots| && s.slots[k].Some? ::
          s.slots[k].value.id < s.nextId && s.slots[k].value.id !in s.freed)
    && (forall j, k | 0 <= j < k < |s.slots| && s.slots[j].Some? && s.slots[k].Some? ::
          s.slots[j].value.id != s.slots[k].value.id && s.slots[j].value.inode != s.slots[k].value.inode)
    && (forall id | id in s.freed :: id < s.nextId)
  }

  /** Every copy an inode points to belongs to its slot; restored slots have none. */
  ghost predicate TablesInv(s: State) {
    && (TablesGone(s.phase) ==> s.tables == map[])
    && (forall inode | inode in s.tables ::
          exists k: nat :: Filled(s, k, inode, s.tables[inode]) && (s.phase.Restoring? ==> k >= s.phase.next))
  }

  ghost predicate LoadInv(s: State, t: Tid, th: Thread) {
    && (th.loaded.Some? ==> th.inSection)
    && (th.loaded.Some? && th.loaded.value.1.Custom? ==>
          && !LoadsGone(s.phase)
          && (s.phase.FirstGrace? ==> t in s.phase.waiting)
          && exists k: nat :: Filled(s, k, th.loaded.value.0, th.loaded.value.1.id))
  }

  ghost predicate HookInv(s: State, th: Thread) {
    match th.hook
    case Idle => true
    case Scanning(inode, next) => !HooksGone(s.phase) && exists k: nat, id: nat :: k >= next && Filled(s, k, inode, id)
    case Holding(inode, found) =>
      !HooksGone(s.phase) && found.Some? && exists id: nat :: Filled(s, found.value, inode, id)
  }

  ghost predicate ThreadsInv(s: State) {
    forall t | t in s.threads :: LoadInv(s, t, s.threads[t]) && HookInv(s, s.threads[t])
  }

  /** Nothing of ours is left: no copy in use, no slot filled. */
  predicate Clean(s: State) { s.tables == map[] && forall k | 0 <= k < |s.slots| :: s.slots[k].None? }

  ghost predicate PhaseInv(s: State) {
    && (s.active ==> s.phase.Resting? || s.phase.Pointing?)
    && (s.phase.Pointing? ==> s.active)
    && (s.phase.Resting? && !s.active ==> Clean(s))
    && (s.phase.Clearing? ==> forall k | 0 <= k < s.phase.next && k < |s.slots| :: s.slots[k].None?)
  }

  ghost predicate Inv(s: State) {
    && |s.slots| == MAX_INSTALLS
    && PhaseInv(s)
    && s.inflight == |InHook(s.threads)|
    && SlotsInv(s) && TablesInv(s) && ThreadsInv(s)
  }

  lemma InvIsSafe(s: State)
    requires Inv(s)
    ensures Safe(s)
  {
    forall t | t in s.threads ensures LoadSafe(s, s.threads[t]) && HookSafe(s, s.threads[t]) {
      assert LoadInv(s, t, s.threads[t]) && HookInv(s, s.threads[t]);
    }
    forall inode | inode in s.tables ensures s.tables[inode] !in s.freed {
      var k: nat :| Filled(s, k, inode, s.tables[inode]);
    }
  }

  /** The module just loaded: no slot, no copy, no caller inside. */
  predicate Initial(s: State) {
    && |s.slots| == MAX_INSTALLS && (forall k | 0 <= k < |s.slots| :: s.slots[k].None?)
    && s.tables == map[] && s.freed == {} && s.inflight == 0 && s.phase.Resting?
    && (forall t | t in s.threads :: s.threads[t] == Thread(false, None, Idle))
  }

  lemma InitialInv(s: State)
    requires Initial(s)
    ensures Inv(s)
  {
    assert InHook(s.threads) == {};
  }

  // ---- Steps of the callers ----

  /** Changing one thread and nothing the others depend on keeps what is known of the others. */
  lemma OneThread(s: State, t: Tid, th: Thread, u: State)
    requires Inv(s) && t in s.threads
    requires u == SetThread(s, t, th).(inflight := u.inflight, phase := u.phase)
    requires u.phase == s.phase || u.phase == Left(s.phase, t)
    requires LoadInv(u, t, th) && HookInv(u, th)
    requires u.inflight == |InHook(u.threads)|
    ensures Inv(u)
  {
    forall x | x in u.threads ensures LoadInv(u, x, u.threads[x]) && HookInv(u, u.threads[x]) {
      if x != t {
        assert LoadInv(s, x, s.threads[x]) && HookInv(s, s.threads[x]);
        assert forall k, inode, id :: Filled(u, k, inode, id) <==> Filled(s, k, inode, id);
      }
    }
    TablesSame(s, u);
  }

  /** What is known of slots and tables does not depend on the callers. */
  lemma TablesSame(s: State, u: State)
    requires SlotsInv(s) && TablesInv(s)
    requires u.tables == s.tables && u.slots == s.slots && u.freed == s.freed && u.nextId == s.nextId
    requires TablesGone(u.phase) <==> TablesGone(s.phase)
    requires u.phase.Restoring? ==> u.phase == s.phase
    ensures SlotsInv(u) && TablesInv(u)
  {
    forall inode | inode in u.tables
      ensures exists k: nat :: Filled(u, k, inode, u.tables[inode]) && (u.phase.Restoring? ==> k >= u.phase.next)
    {
      var k: nat :| Filled(s, k, inode, s.tables[inode]) && (s.phase.Restoring? ==> k >= s.phase.next);
      assert Filled(u, k, inode, u.tables[inode]);
    }
  }

  lemma SameHooks(threads: map<Tid, Thread>, t: Tid, th: Thread)
    requires t in threads && (th.hook == Idle <==> threads[t].hook == Idle)
    ensures InHook(threads[t := th]) == InHook(threads)
  {
  }

  lemma OneMoreHook(threads: map<Tid, Thread>, t: Tid, th: Thread)
    requires t in threads && th.hook != Idle && threads[t].hook == Idle
    ensures |InHook(threads[t := th])| == |InHook(threads)| + 1
  {
    assert InHook(threads[t := th]) == InHook(threads) + {t};
  }

  lemma OneLessHook(threads: map<Tid, Thread>, t: Tid, th: Thread)
    requires t in threads && th.hook == Idle && threads[t].hook != Idle
    ensures |InHook(threads[t := th])| == |InHook(threads)| - 1
  {
    assert InHook(threads) == InHook(threads[t := th]) + {t};
  }

  lemma EnterKeeps(s: State, t: Tid)
    requires Inv(s) && Enabled(s, Enter(t))
    ensures Inv(Step(s, Enter(t)))
  {
    var u := Step(s, Enter(t));
    assert LoadInv(s, t, s.threads[t]) && HookInv(s, s.threads[t]);
    SameHooks(s.threads, t, u.threads[t]);
    HookStays(s, t, u);
    hide HookInv;
    OneThread(s, t, u.threads[t], u);
  }

  lemma LoadKeeps(s: State, t: Tid, inode: Inode)
    requires Inv(s) && Enabled(s, Load(t, inode))
    ensures Inv(Step(s, Load(t, inode)))
  {
    var u := Step(s, Load(t, inode));
    SameHooks(s.threads, t, u.threads[t]);
    LoadFinds(s, t, inode, u);
    hide LoadInv;
    hide HookInv;
    OneThread(s, t, u.threads[t], u);
  }

  lemma CallKeeps(s: State, t: Tid)
    requires Inv(s) && Enabled(s, Call(t))
    ensures Inv(Step(s, Call(t)))
  {
    var u := Step(s, Call(t));
    OneMoreHook(s.threads, t, u.threads[t]);
    CallFinds(s, t, u);
    hide LoadInv;
    hide HookInv;
    OneThread(s, t, u.threads[t], u);
  }

  lemma LookKeeps(s: State, t: Tid)
    requires Inv(s) && Enabled(s, Look(t))
    ensures Inv(Step(s, Look(t)))
  {
    var u := Step(s, Look(t));
    SameHooks(s.threads, t, u.threads[t]);
    LookFinds(s, t, u);
    hide LoadInv;
    hide HookInv;
    OneThread(s, t, u.threads[t], u);
  }

  lemma ReturnKeeps(s: State, t: Tid)
    requires Inv(s) && Enabled(s, Return(t))
    ensures Inv(Step(s, Return(t)))
  {
    var u := Step(s, Return(t));
    assert LoadInv(s, t, s.threads[t]);
    OneLessHook(s.threads, t, u.threads[t]);
    assert forall k, i, id | Filled(s, k, i, id) :: Filled(u, k, i, id);
    assert LoadInv(u, t, u.threads[t]);
    assert HookInv(u, u.threads[t]);
    hide LoadInv;
    hide HookInv;
    OneThread(s, t, u.threads[t], u);
  }

  lemma ExitKeeps(s: State, t: Tid)
    requires Inv(s) && Enabled(s, Exit(t))
    ensures Inv(Step(s, Exit(t)))
  {
    var u := Step(s, Exit(t));
    assert LoadInv(s, t, s.threads[t]) && HookInv(s, s.threads[t]);
    SameHooks(s.threads, t, u.threads[t]);
    HookStays(s, t, u);
    hide HookInv;
    OneThread(s, t, u.threads[t], u);
  }

  lemma HookStays(s: State, t: Tid, u: State)
    requires t in s.threads && HookInv(s, s.threads[t])
    requires t in u.threads && u.threads[t].hook == s.threads[t].hook && u.slots == s.slots
    requires HooksGone(u.phase) <==> HooksGone(s.phase)
    ensures HookInv(u, u.threads[t])
  {
    assert forall k, i, id | Filled(s, k, i, id) :: Filled(u, k, i, id);
  }

  lemma LoadFinds(s: State, t: Tid, inode: Inode, u: State)
    requires Inv(s) && Enabled(s, Load(t, inode)) && u == Step(s, Load(t, inode))
    ensures LoadInv(u, t, u.threads[t]) && HookInv(u, u.threads[t])
  {
    if inode in s.tables {
      var k: nat :| Filled(s, k, inode, s.tables[inode]);
      assert Filled(u, k, inode, s.tables[inode]);
    }
  }

  lemma CallFinds(s: State, t: Tid, u: State)
    requires Inv(s) && Enabled(s, Call(t)) && u == Step(s, Call(t))
    ensures LoadInv(u, t, u.threads[t]) && HookInv(u, u.threads[t])
  {
    var (inode, table) := s.threads[t].loaded.value;
    assert LoadInv(s, t, s.threads[t]);
    var k: nat :| Filled(s, k, inode, table.id);
    assert k >= 0 && Filled(u, k, inode, table.id);
  }

  lemma LookFinds(s: State, t: Tid, u: State)
    requires Inv(s) && Enabled(s, Look(t)) && u == Step(s, Look(t))
    ensures LoadInv(u, t, u.threads[t]) && HookInv(u, u.threads[t])
  {
    var th := s.threads[t];
    assert LoadInv(s, t, th) && HookInv(s, th);
    var inode, next := th.hook.inode, th.hook.next;
    var k: nat, id: nat :| k >= next && Filled(s, k, inode, id);
    assert Filled(u, k, inode, id);
    if s.slots[next].Some? && s.slots[next].value.inode == inode {
      assert Filled(u, next, inode, s.slots[next].value.id);
    } else {
      assert k >= next + 1;
    }
    if th.loaded.Some? && th.loaded.value.1.Custom? {
      var j: nat :| Filled(s, j, th.loaded.value.0, th.loaded.value.1.id);
      assert Filled(u, j, th.loaded.value.0, th.loaded.value.1.id);
    }
  }

  // ---- Steps of the holder of the lock ----

  /** When every filled slot stays filled, callers notice nothing of a change of phase that keeps their clauses. */
  lemma SlotsKept(s: State, u: State)
    requires ThreadsInv(s) && u.threads == s.threads
    requires forall k, inode, id | Filled(s, k, inode, id) :: Filled(u, k, inode, id)
    requires LoadsGone(u.phase) ==> LoadsGone(s.phase)
    requires HooksGone(u.phase) ==> HooksGone(s.phase)
    requires u.phase.FirstGrace? ==> u.phase.waiting == InSection(s.threads)
    ensures ThreadsInv(u)
  {
    forall t | t in u.threads ensures LoadInv(u, t, u.threads[t]) && HookInv(u, u.threads[t]) {
      assert LoadInv(s, t, s.threads[t]) && HookInv(s, s.threads[t]);
    }
  }

  lemma ThreadsQuiet(s: State)
    requires Inv(s) && HooksGone(s.phase)
    ensures forall t | t in s.threads ::
      s.threads[t].hook.Idle? && !(s.threads[t].loaded.Some? && s.threads[t].loaded.value.1.Custom?)
  {
    forall t | t in s.threads
      ensures s.threads[t].hook.Idle? && !(s.threads[t].loaded.Some? && s.threads[t].loaded.value.1.Custom?)
    {
      assert LoadInv(s, t, s.threads[t]) && HookInv(s, s.threads[t]);
    }
  }

  lemma PublishKeeps(s: State, inode: Inode, slot: nat)
    requires Inv(s) && Enabled(s, Publish(inode, slot))
    ensures Inv(Step(s, Publish(inode, slot)))
  {
    var u := Step(s, Publish(inode, slot));
    assert forall k, i, id | Filled(s, k, i, id) :: Filled(u, k, i, id);
    SlotsKept(s, u);
    forall i | i in u.tables ensures exists k: nat :: Filled(u, k, i, u.tables[i]) {
      var k: nat :| Filled(s, k, i, s.tables[i]);
      assert Filled(u, k, i, u.tables[i]);
    }
  }

  lemma PointKeeps(s: State)
    requires Inv(s) && Enabled(s, Point)
    ensures Inv(Step(s, Point))
  {
    var u := Step(s, Point);
    assert forall k, i, id | Filled(s, k, i, id) :: Filled(u, k, i, id);
    SlotsKept(s, u);
    forall i | i in u.tables ensures exists k: nat :: Filled(u, k, i, u.tables[i]) {
      if i == s.slots[s.phase.slot].value.inode {
        assert Filled(u, s.phase.slot, i, u.tables[i]);
      } else {
        var k: nat :| Filled(s, k, i, s.tables[i]);
        assert Filled(u, k, i, u.tables[i]);
      }
    }
  }

  lemma RestoreKeeps(s: State)
    requires Inv(s) && Enabled(s, Restore)
    ensures Inv(Step(s, Restore))
  {
    var u := Step(s, Restore);
    RestoredTables(s);
    hide TablesInv;
    assert forall k, i, id | Filled(s, k, i, id) :: Filled(u, k, i, id);
    SlotsKept(s, u);
    hide ThreadsInv;
  }

  lemma RestoredTables(s: State)
    requires SlotsInv(s) && TablesInv(s) && Enabled(s, Restore)
    ensures TablesInv(Step(s, Restore))
  {
    var u := Step(s, Restore);
    var n := s.phase.next;
    forall i | i in u.tables ensures exists k: nat :: Filled(u, k, i, u.tables[i]) && k >= n + 1 {
      var k: nat :| Filled(s, k, i, s.tables[i]) && k >= n;
      assert k != n;
      assert Filled(u, k, i, u.tables[i]);
    }
  }

  /** Once every slot is restored, no inode has a copy. */
  lemma BeginGraceKeeps(s: State)
    requires Inv(s) && Enabled(s, BeginGrace)
    ensures Inv(Step(s, BeginGrace))
  {
    var u := Step(s, BeginGrace);
    assert forall k, i, id | Filled(s, k, i, id) :: Filled(u, k, i, id);
    SlotsKept(s, u);
    assert forall i :: i !in s.tables;
    assert u.tables == map[];
  }

  /** When the first grace period ends, nobody holds a copy loaded before it. */
  lemma EndGraceKeeps(s: State)
    requires Inv(s) && Enabled(s, EndGrace)
    ensures Inv(Step(s, EndGrace))
  {
    var u := Step(s, EndGrace);
    assert forall k, i, id | Filled(s, k, i, id) :: Filled(u, k, i, id);
    forall t | t in u.threads ensures LoadInv(u, t, u.threads[t]) && HookInv(u, u.threads[t]) {
      assert LoadInv(s, t, s.threads[t]) && HookInv(s, s.threads[t]);
    }
  }

  /** When the counter has been seen at zero, no hook body runs, and none can start. */
  lemma DrainedKeeps(s: State)
    requires Inv(s) && Enabled(s, Drained)
    ensures Inv(Step(s, Drained))
  {
    var u := Step(s, Drained);
    assert InHook(s.threads) == {};
    forall t | t in u.threads ensures LoadInv(u, t, u.threads[t]) && HookInv(u, u.threads[t]) {
      assert LoadInv(s, t, s.threads[t]) && HookInv(s, s.threads[t]);
      assert t !in InHook(s.threads);
    }
  }

  lemma ClearKeeps(s: State)
    requires Inv(s) && Enabled(s, Clear)
    ensures Inv(Step(s, Clear))
  {
    var u := Step(s, Clear);
    ThreadsQuiet(s);
    forall t | t in u.threads ensures LoadInv(u, t, u.threads[t]) && HookInv(u, u.threads[t]) {
      assert LoadInv(s, t, s.threads[t]) && HookInv(s, s.threads[t]);
    }
  }

  lemma PhaseKeeps(s: State, e: Event)
    requires Inv(s) && Enabled(s, e)
    requires e.Activate? || e.Deactivate? || e.BeginRestore? || e.EndSecondGrace? || e.Finish?
    ensures Inv(Step(s, e))
  {
    var u := Step(s, e);
    assert forall k, i, id | Filled(s, k, i, id) :: Filled(u, k, i, id);
    SlotsKept(s, u);
    forall i | i in u.tables ensures exists k: nat :: Filled(u, k, i, u.tables[i]) {
      var k: nat :| Filled(s, k, i, s.tables[i]);
      assert Filled(u, k, i, u.tables[i]);
    }
  }

  lemma StepKeeps(s: State, e: Event)
    requires Inv(s) && Enabled(s, e)
    ensures Inv(Step(s, e))
  {
    hide Inv;
    hide Step;
    match e
    case Publish(inode, slot) => PublishKeeps(s, inode, slot);
    case Point => PointKeeps(s);
    case Restore => RestoreKeeps(s);
    case BeginGrace => BeginGraceKeeps(s);
    case EndGrace => EndGraceKeeps(s);
    case Drained => DrainedKeeps(s);
    case Clear => ClearKeeps(s);
    case Activate => PhaseKeeps(s, e);
    case Deactivate => PhaseKeeps(s, e);
    case BeginRestore => PhaseKeeps(s, e);
    case EndSecondGrace => PhaseKeeps(s, e);
    case Finish => PhaseKeeps(s, e);
    case Enter(t) => EnterKeeps(s, t);
    case Load(t, inode) => LoadKeeps(s, t, inode);
    case Call(t) => CallKeeps(s, t);
    case Look(t) => LookKeeps(s, t);
    case Return(t) => ReturnKeeps(s, t);
    case Exit(t) => ExitKeeps(s, t);
  }

  // ---- What hooks answer ----

  /** Eperm, Ebusy, the kernel's generic operation, or the file system's own kept in a slot. */
  datatype Answer = Eperm | Ebusy | Generic | Own(slot: nat)

  /** kb_permission, after its search; `own` tells whether the file system brings such an operation. */
  function PermissionAnswer(s: State, found: Option<nat>, write: bool, own: bool): Answer {
    if found.Some? && s.active && write then Eperm
    else if found.Some? && own then Own(found.value)
    else Generic
  }

  /** kb_setattr after its search; kb_fileattr_set is only installed where the file system brings its own. */
  function SetattrAnswer(s: State, found: Option<nat>, own: bool): Answer {
    if found.None? then Ebusy
    else if s.active then Eperm
    else if own then Own(found.value)
    else Generic
  }

  /** What a file system without the module would do: its own operation for the inode if it has one. */
  predicate Unhooked(s: State, inode: Inode, own: bool, answer: Answer) {
    if !own then answer == Generic
    else && answer.Own? && answer.slot < |s.slots|
         && s.slots[answer.slot].Some? && s.slots[answer.slot].value.inode == inode
  }

  /**
   A hook refuses a change exactly while protection is on, and otherwise does what would be done without it, with
   the operation of the very inode it was called for. It never has to say that the inode is gone.
   */
  lemma HookAnswers(s: State, t: Tid, write: bool, own: bool)
    requires Inv(s) && t in s.threads && s.threads[t].hook.Holding?
    ensures var h := s.threads[t].hook;
      && (if s.active then SetattrAnswer(s, h.found, own) == Eperm
          else Unhooked(s, h.inode, own, SetattrAnswer(s, h.found, own)))
      && (if s.active && write then PermissionAnswer(s, h.found, write, own) == Eperm
          else Unhooked(s, h.inode, own, PermissionAnswer(s, h.found, write, own)))
  {
    InvIsSafe(s);
    hide Inv;
    assert HookSafe(s, s.threads[t]);
    assert HookInv(s, s.threads[t]);
  }

  // ---- Runs ----

  ghost predicate RunValid(s: State, es: seq<Event>)
    decreases |es|
  {
    es == [] || (Enabled(s, es[0]) && RunValid(Step(s, es[0]), es[1..]))
  }

  function Exec(s: State, es: seq<Event>): State
    requires RunValid(s, es)
    decreases |es|
  {
    if es == [] then s else Exec(Step(s, es[0]), es[1..])
  }

  /**
   In every interleaving, through any number of enables and disables: no caller ever holds a table that
   has been freed, every search for a slot finds it, and no hook uses a slot that has been cleared. Once
   a removal is through, nothing of ours is left.
   */
  lemma {:induction false} RunsAreSafe(s: State, es: seq<Event>)
    requires Inv(s) && RunValid(s, es)
    ensures Inv(Exec(s, es)) && Safe(Exec(s, es))
    ensures var u := Exec(s, es); u.phase.Resting? && !u.active ==> Clean(u)
    decreases |es|
  {
    if es == [] {
      InvIsSafe(s);
    } else {
      hide Inv;
      StepKeeps(s, es[0]);
      RunsAreSafe(Step(s, es[0]), es[1..]);
    }
  }
}
