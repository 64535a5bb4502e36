/**
 The slots of protected inodes (src/file_protection.c): flags set and operations swapped for each inode a
 target path resolves to, again at every re-check, and all of it undone when protection ends.
 */
module Protection {
  import opened Wrappers

  const MAX_INSTALLS: nat := 32

  type Inode = nat

  datatype Flag = Immutable | Append

  /** The file system's own operations, or the copy belonging to a slot. */
  datatype Ops = Own(fs: nat) | Copy(of: Ops, slot: nat)

  datatype Node = Node(iop: Ops, flags: set<Flag>, refs: int)

  datatype Install = Install(inode: Inode, orig: Ops, custom: Ops, flag: Flag, weSet: bool)

  /** The filled slots, which come first, and every inode there is. */
  datatype Protected = Protected(slots: seq<Install>, world: map<Inode, Node>)

  /** A path and what it resolves to this time; nothing when it cannot be walked or is no regular file. */
  datatype Target = Target(inode: Option<Inode>, flag: Flag)

  ghost predicate TargetsIn(targets: seq<Target>, known: set<Inode>) {
    forall i | 0 <= i < |targets| && targets[i].inode.Some? :: targets[i].inode.value in known
  }

  // ---- What one call does ----

  function FindFrom(slots: seq<Install>, inode: Inode, i: nat): (r: Option<nat>)
    requires i <= |slots|
    ensures r.Some? ==> i <= r.value < |slots| && slots[r.value].inode == inode
    decreases |slots| - i
  {
    if i == |slots| then None
    else if slots[i].inode == inode then Some(i)
    else FindFrom(slots, inode, i + 1)
  }

  ghost predicate Shaped(p: Protected) {
    |p.slots| <= MAX_INSTALLS && forall k | 0 <= k < |p.slots| :: p.slots[k].inode in p.world
  }

  /** The last step of protect_inode: the slot's own flag, if the inode does not have it. */
  function SetFlag(p: Protected, k: nat): Protected
    requires Shaped(p) && k < |p.slots|
  {
    var ins := p.slots[k];
    var node := p.world[ins.inode];
    if ins.flag in node.flags then p
    else Protected(p.slots[k := ins.(weSet := true)], p.world[ins.inode := node.(flags := node.flags + {ins.flag})])
  }

  function PointAt(p: Protected, k: nat): Protected
    requires Shaped(p) && k < |p.slots|
  {
    var ins := p.slots[k];
    p.(world := p.world[ins.inode := p.world[ins.inode].(iop := ins.custom)])
  }

  function Publish(p: Protected, inode: Inode, flag: Flag): (r: Protected)
    requires Shaped(p) && inode in p.world && |p.slots| < MAX_INSTALLS
    ensures Shaped(r) && |r.slots| == |p.slots| + 1
  {
    var node, k := p.world[inode], |p.slots|;
    Protected(p.slots + [Install(inode, node.iop, Copy(node.iop, k), flag, false)],
              p.world[inode := Node(Copy(node.iop, k), node.flags, node.refs + 1)])
  }

  /** protect_inode */
  function Protect(p: Protected, inode: Inode, flag: Flag): (r: Protected)
    requires Shaped(p) && inode in p.world
    ensures Shaped(r) && r.world.Keys == p.world.Keys
  {
    match FindFrom(p.slots, inode, 0)
    case Some(k) => SetFlag(PointAt(p, k), k)
    case None =>
      if |p.slots| == MAX_INSTALLS then p else SetFlag(Publish(p, inode, flag), |p.slots|)
  }

  /** protect_targets */
  function ProtectAll(p: Protected, targets: seq<Target>): (r: Protected)
    requires Shaped(p) && TargetsIn(targets, p.world.Keys)
    ensures Shaped(r) && r.world.Keys == p.world.Keys
    decreases |targets|
  {
    if targets == [] then p
    else
      var last := targets[|targets| - 1];
      var q := ProtectAll(p, targets[..|targets| - 1]);
      if last.inode.None? then q else Protect(q, last.inode.value, last.flag)
  }

  function RestoreNode(node: Node, ins: Install): Node {
    node.(flags := if ins.weSet then node.flags - {ins.flag} else node.flags,
          iop := if node.iop == ins.custom then ins.orig else node.iop)
  }

  /** The first loop of protection_disable, up to slot i. */
  function Restored(p: Protected, i: nat): (w: map<Inode, Node>)
    requires Shaped(p) && i <= |p.slots|
    ensures w.Keys == p.world.Keys
  {
    if i == 0 then p.world
    else
      var w, ins := Restored(p, i - 1), p.slots[i - 1];
      w[ins.inode := RestoreNode(w[ins.inode], ins)]
  }

  /** The second loop, up to slot i. */
  function Released(p: Protected, i: nat): (w: map<Inode, Node>)
    requires Shaped(p) && i <= |p.slots|
    ensures w.Keys == p.world.Keys
  {
    if i == 0 then Restored(p, |p.slots|)
    else
      var w, ins := Released(p, i - 1), p.slots[i - 1];
      w[ins.inode := w[ins.inode].(refs := w[ins.inode].refs - 1)]
  }

  /** protection_disable */
  function Unprotect(p: Protected): Protected
    requires Shaped(p)
  {
    Protected([], Released(p, |p.slots|))
  }

  // ---- What any sequence of calls does ----

  /** No inode has two slots. */
  ghost predicate Distinct(p: Protected) {
    Shaped(p) && forall j, k | 0 <= j < k < |p.slots| :: p.slots[j].inode != p.slots[k].inode
  }

  /** The inode has no slot. */
  predicate NoSlot(slots: seq<Install>, inode: Inode) {
    forall k | 0 <= k < |slots| :: slots[k].inode != inode
  }

  lemma {:induction false} FindFromIs(slots: seq<Install>, inode: Inode, i: nat)
    requires i <= |slots|
    ensures FindFrom(slots, inode, i).None? <==> forall k | i <= k < |slots| :: slots[k].inode != inode
    decreases |slots| - i
  {
    if i < |slots| {
      FindFromIs(slots, inode, i + 1);
    }
  }

  /** The slot of a protected inode, with or without the flag just set. */
  function Reset(ins: Install, node: Node): Install { ins.(weSet := ins.weSet || ins.flag !in node.flags) }

  /** An inode with its copy and its flag. */
  function Hooked(ins: Install, node: Node): Node { node.(iop := ins.custom, flags := node.flags + {ins.flag}) }

  /** An inode that has its slot is pointed at its copy and gets its flag back, whoever changed them. */
  lemma ProtectAgain(p: Protected, inode: Inode, flag: Flag, k: nat)
    requires Shaped(p) && inode in p.world && FindFrom(p.slots, inode, 0) == Some(k)
    ensures var ins, node := p.slots[k], p.world[inode];
      Protect(p, inode, flag) == Protected(p.slots[k := Reset(ins, node)], p.world[inode := Hooked(ins, node)])
  {
    hide FindFrom;
    var ins, node := p.slots[k], p.world[inode];
    var pointed := PointAt(p, k);
    assert pointed.world[inode] == node.(iop := ins.custom);
    if ins.flag in node.flags {
      assert node.flags + {ins.flag} == node.flags;
      assert p.slots[k := ins] == p.slots;
    }
  }

  /** An inode that has none gets the next slot. */
  lemma ProtectNew(p: Protected, inode: Inode, flag: Flag)
    requires Shaped(p) && inode in p.world && NoSlot(p.slots, inode) && |p.slots| < MAX_INSTALLS
    ensures var node, n := p.world[inode], |p.slots|;
      var ins := Install(inode, node.iop, Copy(node.iop, n), flag, false);
      Protect(p, inode, flag)
      == Protected(p.slots + [Reset(ins, node)], p.world[inode := Hooked(ins, node).(refs := node.refs + 1)])
  {
    FindFromIs(p.slots, inode, 0);
    hide FindFrom;
    var node, n := p.world[inode], |p.slots|;
    var ins := Install(inode, node.iop, Copy(node.iop, n), flag, false);
    var q := Publish(p, inode, flag);
    assert q.slots[n] == ins && q.world[inode] == node.(iop := ins.custom, refs := node.refs + 1);
    if flag in node.flags {
      assert node.flags + {flag} == node.flags;
    } else {
      assert q.slots[n := Reset(ins, node)] == p.slots + [Reset(ins, node)];
    }
  }

  /** Without a slot and without room nothing happens. */
  lemma ProtectFull(p: Protected, inode: Inode, flag: Flag)
    requires Shaped(p) && inode in p.world && NoSlot(p.slots, inode) && |p.slots| == MAX_INSTALLS
    ensures Protect(p, inode, flag) == p
  {
    FindFromIs(p.slots, inode, 0);
  }

  // ---- Re-checks and what others do in between ----

  /** A pass over the targets, or somebody else's change to an inode, protected or not. */
  datatype Event =
    | Check(targets: seq<Target>)
    | Others(inode: Inode, iop: Ops, flags: set<Flag>)

  ghost predicate EventIn(e: Event, known: set<Inode>) {
    match e
    case Check(targets) => TargetsIn(targets, known)
    case Others(inode, _, _) => inode in known
  }

  function After(p: Protected, e: Event): (r: Protected)
    requires Shaped(p) && EventIn(e, p.world.Keys)
    ensures Shaped(r) && r.world.Keys == p.world.Keys
  {
    match e
    case Check(targets) => ProtectAll(p, targets)
    case Others(inode, iop, flags) => p.(world := p.world[inode := p.world[inode].(iop := iop, flags := flags)])
  }

  /** Enabling and any number of re-checks, the paths resolving differently each time, others interfering. */
  function Run(p: Protected, es: seq<Event>): (r: Protected)
    requires Shaped(p) && forall i | 0 <= i < |es| :: EventIn(es[i], p.world.Keys)
    ensures Shaped(r) && r.world.Keys == p.world.Keys
  {
    if es == [] then p else After(Run(p, es[..|es| - 1]), es[|es| - 1])
  }

  /** The inodes others have changed. */
  function Touched(es: seq<Event>): set<Inode> {
    if es == [] then {}
    else
      var before, e := Touched(es[..|es| - 1]), es[|es| - 1];
      if e.Others? then before + {e.inode} else before
  }

  /** Slot k against the inode as it was before protection; all of it, unless others changed that inode. */
  ghost predicate SlotInv(base: map<Inode, Node>, touched: set<Inode>, p: Protected, k: nat)
    requires k < |p.slots|
  {
    && p.slots[k].inode in base && p.slots[k].inode in p.world
    && var ins := p.slots[k]; var node := base[ins.inode];
      && ins.custom == Copy(ins.orig, k)
      && p.world[ins.inode].refs == node.refs + 1
      && (ins.inode !in touched ==>
            && ins.orig == node.iop && ins.weSet == (ins.flag !in node.flags)
            && p.world[ins.inode] == Node(ins.custom, node.flags + {ins.flag}, node.refs + 1))
  }

  /** An inode without a slot has its references, and is as it was unless others changed it. */
  ghost predicate FreeInv(base: map<Inode, Node>, touched: set<Inode>, p: Protected, inode: Inode)
    requires inode in base
  {
    inode in p.world && p.world[inode].refs == base[inode].refs && (inode !in touched ==> p.world[inode] == base[inode])
  }

  ghost predicate Inv(base: map<Inode, Node>, touched: set<Inode>, p: Protected) {
    && Distinct(p) && p.world.Keys == base.Keys
    && (forall k | 0 <= k < |p.slots| :: SlotInv(base, touched, p, k))
    && (forall inode | inode in base && NoSlot(p.slots, inode) :: FreeInv(base, touched, p, inode))
  }

  lemma ProtectKeeps(base: map<Inode, Node>, touched: set<Inode>, p: Protected, inode: Inode, flag: Flag)
    requires Inv(base, touched, p) && inode in base
    ensures Inv(base, touched, Protect(p, inode, flag))
  {
    FindFromIs(p.slots, inode, 0);
    hide FindFrom;
    match FindFrom(p.slots, inode, 0)
    case Some(k) => AgainKeeps(base, touched, p, inode, flag, k);
    case None =>
      if |p.slots| < MAX_INSTALLS {
        NewKeeps(base, touched, p, inode, flag);
      } else {
        ProtectFull(p, inode, flag);
      }
  }

  lemma AgainKeeps(base: map<Inode, Node>, touched: set<Inode>, p: Protected, inode: Inode, flag: Flag, k: nat)
    requires Inv(base, touched, p) && inode in base && FindFrom(p.slots, inode, 0) == Some(k)
    ensures Inv(base, touched, Protect(p, inode, flag))
  {
    hide Protect;
    hide FindFrom;
    hide SlotInv;
    hide FreeInv;
    hide Hooked;
    hide NoSlot;
    ProtectAgain(p, inode, flag, k);
    SlotFound(p.slots, inode, k);
    var q := Protect(p, inode, flag);
    assert forall i | 0 <= i < |q.slots| :: q.slots[i].inode == p.slots[i].inode;
    hide Reset;
    forall i | 0 <= i < |q.slots| ensures SlotInv(base, touched, q, i) {
      AgainSlot(base, touched, p, inode, k, i, q);
    }
    forall i | i in base && NoSlot(q.slots, i) ensures FreeInv(base, touched, q, i) {
      SlotsSame(p, q, i);
      SlotlessIsOther(p.slots, inode, k, i);
      FreeStays(base, touched, p, q, i);
    }
  }

  lemma AgainSlot(
      base: map<Inode, Node>, touched: set<Inode>, p: Protected, inode: Inode, k: nat, i: nat, q: Protected)
    requires Distinct(p) && k < |p.slots| && i < |p.slots| && p.slots[k].inode == inode
    requires SlotInv(base, touched, p, i) && SlotInv(base, touched, p, k)
    requires var ins, node := p.slots[k], p.world[inode];
      q == Protected(p.slots[k := Reset(ins, node)], p.world[inode := Hooked(ins, node)])
    ensures SlotInv(base, touched, q, i)
  {
    assert i != k ==> p.slots[i].inode != inode;
    var flags := base[inode].flags;
    assert (flags + {p.slots[k].flag}) + {p.slots[k].flag} == flags + {p.slots[k].flag};
  }

  lemma SlotFound(slots: seq<Install>, inode: Inode, k: nat)
    requires FindFrom(slots, inode, 0) == Some(k)
    ensures k < |slots| && slots[k].inode == inode
  {
  }

  lemma SlotlessIsOther(slots: seq<Install>, inode: Inode, k: nat, i: Inode)
    requires k < |slots| && slots[k].inode == inode && NoSlot(slots, i)
    ensures i != inode
  {
  }

  lemma FreeStays(base: map<Inode, Node>, touched: set<Inode>, p: Protected, q: Protected, i: Inode)
    requires i in base && FreeInv(base, touched, p, i) && i in q.world && q.world[i] == p.world[i]
    ensures FreeInv(base, touched, q, i)
  {
  }

  lemma SlotsSame(p: Protected, q: Protected, i: Inode)
    requires |p.slots| <= |q.slots| && forall k | 0 <= k < |p.slots| :: q.slots[k].inode == p.slots[k].inode
    requires NoSlot(q.slots, i)
    ensures NoSlot(p.slots, i)
  {
    forall k | 0 <= k < |p.slots| ensures p.slots[k].inode != i {
      assert q.slots[k].inode != i;
    }
  }

  lemma NewKeeps(base: map<Inode, Node>, touched: set<Inode>, p: Protected, inode: Inode, flag: Flag)
    requires Inv(base, touched, p) && inode in base && |p.slots| < MAX_INSTALLS && NoSlot(p.slots, inode)
    ensures Inv(base, touched, Protect(p, inode, flag))
  {
    ProtectNew(p, inode, flag);
    hide Protect;
    var q, n := Protect(p, inode, flag), |p.slots|;
    assert FreeInv(base, touched, p, inode);
    assert forall k | 0 <= k < n :: q.slots[k] == p.slots[k];
    forall k | 0 <= k < |q.slots| ensures SlotInv(base, touched, q, k) {
      if k < n {
        assert SlotInv(base, touched, p, k);
      }
    }
    forall i | i in base && NoSlot(q.slots, i) ensures FreeInv(base, touched, q, i) {
      assert q.slots[n].inode == inode != i;
      SlotsSame(p, q, i);
      assert FreeInv(base, touched, p, i);
    }
  }

  lemma {:induction false} ProtectAllKeeps(
      base: map<Inode, Node>, touched: set<Inode>, p: Protected, targets: seq<Target>)
    requires Inv(base, touched, p) && TargetsIn(targets, base.Keys)
    ensures Inv(base, touched, ProtectAll(p, targets))
    decreases |targets|
  {
    hide Protect;
    hide SlotInv;
    hide FreeInv;
    hide NoSlot;
    if targets != [] {
      var init, last := targets[..|targets| - 1], targets[|targets| - 1];
      ProtectAllKeeps(base, touched, p, init);
      if last.inode.Some? {
        ProtectKeeps(base, touched, ProtectAll(p, init), last.inode.value, last.flag);
      }
    }
  }

  lemma OthersKeep(base: map<Inode, Node>, touched: set<Inode>, p: Protected, e: Event)
    requires Inv(base, touched, p) && e.Others? && e.inode in base
    ensures Inv(base, touched + {e.inode}, After(p, e))
  {
    var q, more := After(p, e), touched + {e.inode};
    forall k | 0 <= k < |q.slots| ensures SlotInv(base, more, q, k) {
      assert SlotInv(base, touched, p, k);
    }
    forall i | i in base && NoSlot(q.slots, i) ensures FreeInv(base, more, q, i) {
      assert FreeInv(base, touched, p, i);
    }
  }

  /** What every run keeps: slots a prefix, one per inode, each remembering exactly what it changed. */
  lemma {:induction false} RunKeeps(base: map<Inode, Node>, es: seq<Event>)
    requires forall i | 0 <= i < |es| :: EventIn(es[i], base.Keys)
    ensures Inv(base, Touched(es), Run(Protected([], base), es))
  {
    if es != [] {
      var init, e := es[..|es| - 1], es[|es| - 1];
      RunKeeps(base, init);
      hide Inv;
      hide ProtectAll;
      var p := Run(Protected([], base), init);
      match e
      case Check(targets) => ProtectAllKeeps(base, Touched(init), p, targets);
      case Others(_, _, _) => OthersKeep(base, Touched(init), p, e);
    }
  }

  // ---- Undoing ----

  /** After i slots of the first loop, the inode of slot k. */
  lemma {:induction false} RestoredAt(p: Protected, i: nat, k: nat)
    requires Distinct(p) && i <= |p.slots| && k < |p.slots|
    ensures var node := p.world[p.slots[k].inode];
      Restored(p, i)[p.slots[k].inode] == if k < i then RestoreNode(node, p.slots[k]) else node
  {
    hide RestoreNode;
    if i > 0 {
      RestoredAt(p, i - 1, k);
    }
  }

  lemma {:induction false} RestoredOther(p: Protected, i: nat, inode: Inode)
    requires Shaped(p) && i <= |p.slots| && NoSlot(p.slots, inode) && inode in p.world
    ensures Restored(p, i)[inode] == p.world[inode]
  {
    if i > 0 {
      RestoredOther(p, i - 1, inode);
    }
  }

  lemma {:induction false} ReleasedAt(p: Protected, i: nat, k: nat)
    requires Distinct(p) && i <= |p.slots| && k < |p.slots|
    ensures var node := RestoreNode(p.world[p.slots[k].inode], p.slots[k]);
      Released(p, i)[p.slots[k].inode] == if k < i then node.(refs := node.refs - 1) else node
  {
    hide RestoreNode;
    hide Restored;
    if i == 0 {
      RestoredAt(p, |p.slots|, k);
    } else {
      ReleasedAt(p, i - 1, k);
    }
  }

  lemma {:induction false} ReleasedOther(p: Protected, i: nat, inode: Inode)
    requires Shaped(p) && i <= |p.slots| && NoSlot(p.slots, inode) && inode in p.world
    ensures Released(p, i)[inode] == p.world[inode]
  {
    if i == 0 {
      RestoredOther(p, |p.slots|, inode);
    } else {
      ReleasedOther(p, i - 1, inode);
    }
  }

  lemma RestoreNodeIs(base: map<Inode, Node>, touched: set<Inode>, p: Protected, k: nat)
    requires k < |p.slots| && SlotInv(base, touched, p, k)
    ensures var ins, node := p.slots[k], base[p.slots[k].inode];
      && RestoreNode(p.world[ins.inode], ins).refs == node.refs + 1
      && (ins.inode !in touched ==> RestoreNode(p.world[ins.inode], ins) == node.(refs := node.refs + 1))
  {
    var ins := p.slots[k];
    var flags := base[ins.inode].flags;
    assert ins.weSet && ins.flag !in flags ==> (flags + {ins.flag}) - {ins.flag} == flags;
    assert ins.flag in flags ==> flags + {ins.flag} == flags;
  }

  /** Disabling returns every reference, and undoes everything on the inodes only this module changed. */
  lemma UnprotectUndoes(base: map<Inode, Node>, touched: set<Inode>, p: Protected, inode: Inode)
    requires Inv(base, touched, p) && inode in base
    ensures var w := Unprotect(p).world;
      inode in w && w[inode].refs == base[inode].refs && (inode !in touched ==> w[inode] == base[inode])
  {
    hide Released;
    hide RestoreNode;
    if NoSlot(p.slots, inode) {
      ReleasedOther(p, |p.slots|, inode);
      assert FreeInv(base, touched, p, inode);
    } else {
      var k :| 0 <= k < |p.slots| && p.slots[k].inode == inode;
      ReleasedAt(p, |p.slots|, k);
      assert SlotInv(base, touched, p, k);
      RestoreNodeIs(base, touched, p, k);
    }
  }

  /**
   Whatever the paths resolve to, from one re-check to the next, and whatever others do to the inodes in
   between: disabling empties every slot, returns every reference, and leaves each inode that others did not
   change with the operations and flags it had.
   */
  lemma UndoneExactly(base: map<Inode, Node>, es: seq<Event>)
    requires forall i | 0 <= i < |es| :: EventIn(es[i], base.Keys)
    ensures var r := Unprotect(Run(Protected([], base), es));
      && r.slots == [] && r.world.Keys == base.Keys
      && (forall inode | inode in base :: r.world[inode].refs == base[inode].refs)
      && (forall inode | inode in base && inode !in Touched(es) :: r.world[inode] == base[inode])
      && (Touched(es) == {} ==> r == Protected([], base))
  {
    hide Inv;
    hide Run;
    hide Touched;
    RunKeeps(base, es);
    AllUndone(base, Touched(es), Run(Protected([], base), es));
  }

  lemma AllUndone(base: map<Inode, Node>, touched: set<Inode>, p: Protected)
    requires Inv(base, touched, p)
    ensures Shaped(p)
    ensures var r := Unprotect(p);
      && r.slots == [] && r.world.Keys == base.Keys
      && (forall inode | inode in base :: r.world[inode].refs == base[inode].refs)
      && (forall inode | inode in base && inode !in touched :: r.world[inode] == base[inode])
      && (touched == {} ==> r == Protected([], base))
  {
    hide SlotInv;
    hide FreeInv;
    hide NoSlot;
    hide Released;
    forall inode | inode in base
      ensures Unprotect(p).world[inode].refs == base[inode].refs
      ensures inode !in touched ==> Unprotect(p).world[inode] == base[inode]
    {
      UnprotectUndoes(base, touched, p, inode);
    }
    hide Inv;
  }

  // ---- No copy outlives its slot ----

  predicate IsOwn(ops: Ops) { ops.Own? }

  /** Others bring operations of their own, never one of our copies. */
  ghost predicate BringsOwn(e: Event) { e.Others? ==> IsOwn(e.iop) }

  /** An inode points to a copy only while it has the slot of that copy. */
  ghost predicate CopiesInv(p: Protected) {
    && Distinct(p)
    && (forall k | 0 <= k < |p.slots| :: IsOwn(p.slots[k].orig))
    && (forall k | 0 <= k < |p.slots| ::
          IsOwn(p.world[p.slots[k].inode].iop) || p.world[p.slots[k].inode].iop == p.slots[k].custom)
    && (forall inode | inode in p.world && NoSlot(p.slots, inode) :: IsOwn(p.world[inode].iop))
  }

  lemma CopiesAgain(p: Protected, inode: Inode, flag: Flag, k: nat)
    requires CopiesInv(p) && inode in p.world && FindFrom(p.slots, inode, 0) == Some(k)
    ensures CopiesInv(Protect(p, inode, flag))
  {
    ProtectAgain(p, inode, flag, k);
    hide Protect;
    hide FindFrom;
    hide IsOwn;
    var q := Protect(p, inode, flag);
    forall i | i in q.world && NoSlot(q.slots, i) ensures IsOwn(q.world[i].iop) {
      assert q.slots[k].inode == inode != i;
      SlotsSame(p, q, i);
    }
  }

  lemma CopiesNew(p: Protected, inode: Inode, flag: Flag)
    requires CopiesInv(p) && inode in p.world && NoSlot(p.slots, inode) && |p.slots| < MAX_INSTALLS
    ensures CopiesInv(Protect(p, inode, flag))
  {
    ProtectNew(p, inode, flag);
    hide Protect;
    hide IsOwn;
    var q, n := Protect(p, inode, flag), |p.slots|;
    assert forall k | 0 <= k < n :: q.slots[k] == p.slots[k];
    assert q.slots[n].orig == p.world[inode].iop && q.world[inode].iop == q.slots[n].custom;
    forall i | i in q.world && NoSlot(q.slots, i) ensures IsOwn(q.world[i].iop) {
      assert q.slots[n].inode == inode != i;
      SlotsSame(p, q, i);
    }
  }

  lemma CopiesProtect(p: Protected, inode: Inode, flag: Flag)
    requires CopiesInv(p) && inode in p.world
    ensures CopiesInv(Protect(p, inode, flag))
  {
    FindFromIs(p.slots, inode, 0);
    hide FindFrom;
    match FindFrom(p.slots, inode, 0)
    case Some(k) => CopiesAgain(p, inode, flag, k);
    case None =>
      if |p.slots| < MAX_INSTALLS {
        CopiesNew(p, inode, flag);
      } else {
        ProtectFull(p, inode, flag);
      }
  }

  lemma {:induction false} CopiesProtectAll(p: Protected, targets: seq<Target>)
    requires CopiesInv(p) && TargetsIn(targets, p.world.Keys)
    ensures CopiesInv(ProtectAll(p, targets))
    decreases |targets|
  {
    hide Protect;
    hide NoSlot;
    if targets != [] {
      var init, last := targets[..|targets| - 1], targets[|targets| - 1];
      CopiesProtectAll(p, init);
      if last.inode.Some? {
        CopiesProtect(ProtectAll(p, init), last.inode.value, last.flag);
      }
    }
  }

  lemma {:induction false} CopiesRun(base: map<Inode, Node>, es: seq<Event>)
    requires forall i | 0 <= i < |es| :: EventIn(es[i], base.Keys) && BringsOwn(es[i])
    requires forall inode | inode in base :: IsOwn(base[inode].iop)
    ensures CopiesInv(Run(Protected([], base), es))
  {
    if es != [] {
      CopiesRun(base, es[..|es| - 1]);
      hide ProtectAll;
      var p, e := Run(Protected([], base), es[..|es| - 1]), es[|es| - 1];
      if e.Check? {
        CopiesProtectAll(p, e.targets);
      }
    }
  }

  /** After disabling, no inode points to one of our copies: the tables freed then are nobody's. */
  lemma NoCopyLeft(base: map<Inode, Node>, es: seq<Event>, inode: Inode)
    requires forall i | 0 <= i < |es| :: EventIn(es[i], base.Keys) && BringsOwn(es[i])
    requires forall i | i in base :: IsOwn(base[i].iop)
    requires inode in base
    ensures IsOwn(Unprotect(Run(Protected([], base), es)).world[inode].iop)
  {
    CopiesRun(base, es);
    hide Run;
    hide Released;
    var p := Run(Protected([], base), es);
    if NoSlot(p.slots, inode) {
      ReleasedOther(p, |p.slots|, inode);
    } else {
      var k :| 0 <= k < |p.slots| && p.slots[k].inode == inode;
      ReleasedAt(p, |p.slots|, k);
    }
  }

  // ---- While it lasts ----

  /** The inode has its slot, points to its copy and has its flag. */
  ghost predicate Held(p: Protected, inode: Inode) {
    exists k | 0 <= k < |p.slots| :: HeldAt(p, inode, k)
  }

  ghost predicate HeldAt(p: Protected, inode: Inode, k: nat)
    requires k < |p.slots|
  {
    && p.slots[k].inode == inode && inode in p.world
    && p.world[inode].iop == p.slots[k].custom && p.slots[k].flag in p.world[inode].flags
  }

  /** All slots are taken, by other inodes. */
  ghost predicate TurnedAway(p: Protected, inode: Inode) { |p.slots| == MAX_INSTALLS && NoSlot(p.slots, inode) }

  lemma ProtectHolds(p: Protected, inode: Inode, flag: Flag)
    requires Distinct(p) && inode in p.world
    ensures var q := Protect(p, inode, flag);
      && Distinct(q) && (Held(q, inode) || TurnedAway(q, inode))
      && |p.slots| <= |q.slots| && (forall k | 0 <= k < |p.slots| :: q.slots[k].inode == p.slots[k].inode)
  {
    FindFromIs(p.slots, inode, 0);
    hide FindFrom;
    var q := Protect(p, inode, flag);
    if FindFrom(p.slots, inode, 0).Some? {
      var k := FindFrom(p.slots, inode, 0).value;
      ProtectAgain(p, inode, flag, k);
      assert HeldAt(q, inode, k);
    } else if |p.slots| < MAX_INSTALLS {
      ProtectNew(p, inode, flag);
      assert HeldAt(q, inode, |p.slots|);
    } else {
      ProtectFull(p, inode, flag);
    }
  }

  /** Protecting one inode keeps every other as it is. */
  lemma OthersStayHeld(p: Protected, inode: Inode, flag: Flag, other: Inode)
    requires Distinct(p) && inode in p.world && other != inode
    ensures Held(p, other) ==> Held(Protect(p, inode, flag), other)
    ensures TurnedAway(p, other) ==> TurnedAway(Protect(p, inode, flag), other)
  {
    FindFromIs(p.slots, inode, 0);
    hide FindFrom;
    var q := Protect(p, inode, flag);
    if FindFrom(p.slots, inode, 0).Some? {
      ProtectAgain(p, inode, flag, FindFrom(p.slots, inode, 0).value);
    } else if |p.slots| < MAX_INSTALLS {
      ProtectNew(p, inode, flag);
    } else {
      ProtectFull(p, inode, flag);
    }
    hide Protect;
    if Held(p, other) {
      var k :| 0 <= k < |p.slots| && HeldAt(p, other, k);
      assert HeldAt(q, other, k);
    }
  }

  lemma {:induction false} ProtectAllHolds(p: Protected, targets: seq<Target>, i: nat)
    requires Distinct(p) && TargetsIn(targets, p.world.Keys)
    ensures Distinct(ProtectAll(p, targets))
    ensures i < |targets| && targets[i].inode.Some? ==>
      Held(ProtectAll(p, targets), targets[i].inode.value) || TurnedAway(ProtectAll(p, targets), targets[i].inode.value)
    decreases |targets|
  {
    hide Protect;
    hide Held;
    hide TurnedAway;
    if targets != [] {
      var init, last := targets[..|targets| - 1], targets[|targets| - 1];
      ProtectAllHolds(p, init, i);
      var q := ProtectAll(p, init);
      if last.inode.Some? {
        ProtectHolds(q, last.inode.value, last.flag);
        if i < |init| && targets[i].inode.Some? && targets[i].inode != last.inode {
          OthersStayHeld(q, last.inode.value, last.flag, targets[i].inode.value);
        }
      }
    }
  }

  /**
   Whatever others did to it before, an inode that a path resolves to at a re-check has its slot, its copy and
   its flag afterwards, unless all slots are taken by other inodes.
   */
  lemma RecheckProtects(base: map<Inode, Node>, es: seq<Event>, targets: seq<Target>, i: nat)
    requires forall n | 0 <= n < |es| :: EventIn(es[n], base.Keys)
    requires TargetsIn(targets, base.Keys) && i < |targets| && targets[i].inode.Some?
    ensures var p := Run(Protected([], base), es + [Check(targets)]); var inode := targets[i].inode.value;
      Held(p, inode) || TurnedAway(p, inode)
  {
    RunKeeps(base, es);
    ProtectAllHolds(Run(Protected([], base), es), targets, i);
    RunSnoc(Protected([], base), es, Check(targets));
  }

  lemma RunSnoc(p: Protected, es: seq<Event>, e: Event)
    requires Shaped(p) && forall n | 0 <= n < |es| :: EventIn(es[n], p.world.Keys)
    requires EventIn(e, p.world.Keys)
    ensures Run(p, es + [e]) == After(Run(p, es), e)
  {
    assert (es + [e])[..|es|] == es;
    hide After;
  }

  /** And until then, what others last did to an inode stands: module and others really do meet. */
  lemma OthersStand(base: map<Inode, Node>, es: seq<Event>, inode: Inode, iop: Ops, flags: set<Flag>)
    requires forall n | 0 <= n < |es| :: EventIn(es[n], base.Keys)
    requires inode in base
    ensures var p := Run(Protected([], base), es + [Others(inode, iop, flags)]);
      p.world[inode].iop == iop && p.world[inode].flags == flags
  {
    RunKeeps(base, es);
    RunSnoc(Protected([], base), es, Others(inode, iop, flags));
  }

  // ---- The code ----

  function Values(filled: seq<Option<Install>>): (r: seq<Install>)
    requires forall k | 0 <= k < |filled| :: filled[k].Some?
    ensures |r| == |filled| && forall k | 0 <= k < |r| :: r[k] == filled[k].value
  {
    seq(|filled|, k requires 0 <= k < |filled| => filled[k].value)
  }

  class Protector {
    const installs: array<Option<Install>>
    var world: map<Inode, Node>
    var active: bool
    ghost var used: nat

    ghost predicate Valid()
      reads this, installs
    {
      && installs.Length == MAX_INSTALLS && used <= MAX_INSTALLS
      && (forall k | 0 <= k < MAX_INSTALLS :: installs[k].Some? <==> k < used)
      && Shaped(Now())
    }

    /** The filled slots form a prefix. */
    ghost function Now(): Protected
      requires used <= installs.Length && forall k | 0 <= k < used :: installs[k].Some?
      reads this, installs
    {
      Protected(Values(installs[..used]), world)
    }

    /** find_install */
    method FindInstall(inode: Inode) returns (r: Option<nat>)
      requires Valid()
      ensures r == FindFrom(Now().slots, inode, 0)
    {
      var i := 0;
      while i < MAX_INSTALLS
        invariant 0 <= i <= MAX_INSTALLS
        invariant i <= used ==> FindFrom(Now().slots, inode, 0) == FindFrom(Now().slots, inode, i)
        invariant i >= used ==> FindFrom(Now().slots, inode, 0).None?
      {
        if installs[i].Some? && installs[i].value.inode == inode {
          return Some(i);
        }
        i := i + 1;
      }
      return None;
    }

    /** The set_flag step of protect_inode. */
    method SetFlagOf(k: nat)
      requires Valid() && k < used
      modifies this`world, installs
      ensures Valid() && Now() == SetFlag(old(Now()), k)
    {
      var ins := installs[k].value;
      var node := world[ins.inode];
      if ins.flag !in node.flags {
        world := world[ins.inode := node.(flags := node.flags + {ins.flag})];
        installs[k] := Some(ins.(weSet := true));
      }
      assert Now().slots == SetFlag(old(Now()), k).slots;
    }

    /** protect_inode */
    method ProtectInode(inode: Inode, flag: Flag)
      requires Valid() && inode in world
      modifies this, installs
      ensures Valid() && active == old(active) && Now() == Protect(old(Now()), inode, flag)
    {
      var ins := FindInstall(inode);
      if ins.Some? {
        var k := ins.value;
        var custom := installs[k].value.custom;
        if world[inode].iop != custom {
          world := world[inode := world[inode].(iop := custom)];
        }
        assert old(world)[inode := old(world)[inode]] == old(world);
        assert Now() == PointAt(old(Now()), k);
        SetFlagOf(k);
        return;
      }
      var i := 0;
      while i < MAX_INSTALLS && installs[i].Some?
        invariant 0 <= i <= used
      {
        i := i + 1;
      }
      if i == MAX_INSTALLS {
        return;
      }
      var node := world[inode];
      world := world[inode := Node(Copy(node.iop, i), node.flags, node.refs + 1)];
      installs[i] := Some(Install(inode, node.iop, Copy(node.iop, i), flag, false));
      used := used + 1;
      assert Now().slots == Publish(old(Now()), inode, flag).slots;
      SetFlagOf(i);
    }

    /** protect_targets */
    method ProtectTargets(targets: seq<Target>)
      requires Valid() && TargetsIn(targets, world.Keys)
      modifies this, installs
      ensures Valid() && active == old(active) && Now() == ProtectAll(old(Now()), targets)
    {
      hide Protect;
      var i := 0;
      while i < |targets|
        invariant 0 <= i <= |targets| && Valid() && active == old(active) && world.Keys == old(world.Keys)
        invariant Now() == ProtectAll(old(Now()), targets[..i])
      {
        assert targets[..i + 1][..i] == targets[..i];
        if targets[i].inode.Some? {
          ProtectInode(targets[i].inode.value, targets[i].flag);
        }
        i := i + 1;
      }
      assert targets[..i] == targets;
    }

    /** protection_enable */
    method Enable(targets: seq<Target>)
      requires Valid() && TargetsIn(targets, world.Keys)
      modifies this, installs
      ensures Valid() && active && Now() == ProtectAll(old(Now()), targets)
    {
      active := true;
      ProtectTargets(targets);
    }

    /** do_protect_work: nothing once protection is off. */
    method Recheck(targets: seq<Target>)
      requires Valid() && TargetsIn(targets, world.Keys)
      modifies this, installs
      ensures Valid() && active == old(active)
      ensures Now() == if active then ProtectAll(old(Now()), targets) else old(Now())
    {
      if active {
        ProtectTargets(targets);
      }
    }

    /** protection_disable; the waiting between its loops is the subject of module Hooks. */
    method Disable()
      requires Valid()
      modifies this, installs
      ensures Valid() && !active && Now() == Unprotect(old(Now()))
    {
      active := false;
      ghost var was := Now();
      RestoreAll(was);
      ReleaseAll(was);
      used := 0;
    }

    /** The first loop: flags and operations back to what they were. */
    method RestoreAll(ghost was: Protected)
      requires Valid() && was == Now()
      modifies this`world
      ensures world == Restored(was, |was.slots|)
    {
      hide Shaped;
      hide RestoreNode;
      var i := 0;
      while i < MAX_INSTALLS
        invariant 0 <= i <= MAX_INSTALLS
        invariant world == Restored(was, if i < used then i else used)
      {
        if installs[i].Some? {
          var ins := installs[i].value;
          assert ins == was.slots[i];
          InSlot(was, i);
          RestoreSlot(ins);
        }
        i := i + 1;
      }
    }

    method RestoreSlot(ins: Install)
      requires ins.inode in world
      modifies this`world
      ensures world == old(world)[ins.inode := RestoreNode(old(world)[ins.inode], ins)]
    {
      var node := world[ins.inode];
      if ins.weSet {
        node := node.(flags := node.flags - {ins.flag});
      }
      if node.iop == ins.custom {
        node := node.(iop := ins.orig);
      }
      world := world[ins.inode := node];
    }

    /** The second loop: slots emptied, references dropped. */
    method ReleaseAll(ghost was: Protected)
      requires used == |was.slots| <= MAX_INSTALLS == installs.Length && Shaped(was)
      requires forall k | 0 <= k < MAX_INSTALLS :: installs[k] == if k < used then Some(was.slots[k]) else None
      requires world == Restored(was, |was.slots|)
      modifies this`world, installs
      ensures world == Released(was, |was.slots|)
      ensures forall k | 0 <= k < MAX_INSTALLS :: installs[k].None?
    {
      hide Shaped;
      hide Restored;
      var i := 0;
      while i < MAX_INSTALLS
        invariant 0 <= i <= MAX_INSTALLS
        invariant forall k | 0 <= k < i :: installs[k].None?
        invariant forall k | i <= k < MAX_INSTALLS :: installs[k] == if k < used then Some(was.slots[k]) else None
        invariant world == Released(was, if i < used then i else used)
      {
        if installs[i].Some? {
          var inode := installs[i].value.inode;
          InSlot(was, i);
          installs[i] := None;
          world := world[inode := world[inode].(refs := world[inode].refs - 1)];
        }
        i := i + 1;
      }
    }
  }

  lemma InSlot(p: Protected, k: nat)
    requires Shaped(p) && k < |p.slots|
    ensures p.slots[k].inode in p.world
  {
  }
}
