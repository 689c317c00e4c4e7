/**
 * Block accounting from mkfs onward: after any run of edits that complete, with or without a
 * journal, the free set the allocator kept step by step is the one a full rebuild computes,
 * and every block of the device is metadata, journal, free, or counted in exactly one
 * inode's i_blocks.
 */
module Conservation {
  import opened Wrappers
  import opened Extents
  import opened ExtentBuffers
  import opened Bitmaps
  import opened ExtentTree
  import opened FileOps
  import opened Mkfs
  import opened Rebuild
  import P = Protocol
  import J = Journalled

  // ---------- nothing is lost ----------

  /** What inode i has, alive or on its way out. */
  ghost function Holds(s: P.State, i: nat): set<nat> {
    P.Owned(s, i) + if i in s.leaving then s.leaving[i].Left() else {}
  }

  ghost predicate Known(s: P.State, i: nat) {
    i in s.sides || i in s.leaving
  }

  /** Free blocks and those some inode has, together. */
  ghost function Everything(s: P.State): set<nat> {
    s.free + set i, b | i in s.sides.Keys + s.leaving.Keys && b in Holds(s, i) :: b
  }

  /**
   * The step drops no blocks it still holds, puts none back uncounted, ends no edit before its
   * change in leaves was counted, and no eviction before everything was given back.  StepKeepsBooksIff shows that this is exact.
   */
  ghost predicate Lossless(s: P.State, st: P.Step) {
    match st
    case Abandon(i) => i in s.nodes && P.Extra(s.nodes[i].phase) == {}
    case PutUncounted(_, bs) => bs == {}
    case Finish(i) =>
      && i in s.nodes && P.Extra(s.nodes[i].phase) == {}
      && (s.nodes[i].phase.Retiring? ==> s.nodes[i].phase.was == |s.nodes[i].tree.leaves|)
    case ClearInode(i) => i in s.leaving && s.leaving[i].Left() == {}
    case _ => true
  }

  /** One inode exchanges blocks with the free set; it may be new, or go. */
  lemma InodeExchange(s: P.State, s': P.State, i: nat)
    requires !Known(s, i) ==> Holds(s, i) == {}
    requires !Known(s', i) ==> Holds(s', i) == {}
    requires forall j :: j != i ==> (Known(s, j) <==> Known(s', j))
    requires forall j :: j != i && Known(s, j) ==> Holds(s', j) == Holds(s, j)
    requires Holds(s', i) + s'.free == Holds(s, i) + s.free
    ensures Everything(s') == Everything(s)
  {
    forall b ensures b in Everything(s') <==> b in Everything(s) {
      ExchangeOne(s, s', i, b);
      ExchangeOne(s', s, i, b);
    }
  }

  lemma ExchangeOne(s: P.State, s': P.State, i: nat, b: nat)
    requires !Known(s, i) ==> Holds(s, i) == {}
    requires !Known(s', i) ==> Holds(s', i) == {}
    requires forall j :: j != i ==> (Known(s, j) <==> Known(s', j))
    requires forall j :: j != i && Known(s, j) ==> Holds(s', j) == Holds(s, j)
    requires Holds(s', i) + s'.free == Holds(s, i) + s.free
    ensures b in Everything(s) ==> b in Everything(s')
  {
    hide Holds;
    if b in Everything(s) && b !in s'.free {
      if b in s.free {
        assert b in Holds(s', i) && Known(s', i);
      } else {
        var j :| j in s.sides.Keys + s.leaving.Keys && b in Holds(s, j);
        assert Known(s, j);
        assert j != i ==> Known(s', j) && b in Holds(s', j);
        assert j == i ==> b in Holds(s', i) && Known(s', i);
      }
    }
  }

  /** Only the tree of inode i changes, and what it claims moves between it and the free set. */
  lemma TreeExchange(s: P.State, s': P.State, i: nat, n': P.Node)
    requires P.Inv(s) && i in s.nodes && s'.nodes == s.nodes[i := n'] && s'.sides == s.sides && s'.leaving == s.leaving
    requires P.Claim(n') + s'.free == P.Claim(s.nodes[i]) + s.free
    ensures Everything(s') == Everything(s)
  {
    hide P.Inv, P.Claim, P.SideBlocks, P.Leaving.Left, Everything;
    HasSide(s, i);
    P.AliveNotLeaving(s, i);
    InodeExchange(s, s', i);
  }

  lemma SameInodes(s: P.State, s': P.State)
    requires s'.nodes == s.nodes && s'.free == s.free && s'.sides == s.sides && s'.leaving == s.leaving
    ensures Everything(s') == Everything(s)
  {
    hide P.Claim, P.SideBlocks;
    assert forall i :: Holds(s', i) == Holds(s, i);
  }

  lemma CreateKeeps(s: P.State, i: nat, kind: Kind, b: nat)
    requires P.Enabled(s, P.Create(i, kind, b))
    ensures Everything(P.Do(s, P.Create(i, kind, b))) == Everything(s)
  {
    var s' := P.Do(s, P.Create(i, kind, b));
    assert P.Claim(s'.nodes[i]) == {b} by {
      assert DataSet([]) == {} && SetOf([]) == {};
    }
    assert P.SideBlocks(s'.sides[i]) == {};
    hide P.Claim, P.SideBlocks, P.MayPhase, P.MayDisk, P.DoPhase, P.DoDisk;
    InodeExchange(s, s', i);
  }

  /** A new inode without a tree, or a first attribute block. */
  lemma SideExchange(s: P.State, s': P.State, i: nat, d: P.Side, bs: set<nat>)
    requires P.Inv(s) && bs <= s.free && s'.nodes == s.nodes && s'.sides == s.sides[i := d] && s'.free == s.free - bs
    requires s'.leaving == s.leaving && i !in s.leaving
    requires P.SideBlocks(d) == (if i in s.sides then P.SideBlocks(s.sides[i]) else {}) + bs
    requires i !in s.sides ==> i !in s.nodes
    ensures Everything(s') == Everything(s)
  {
    hide P.Inv, P.Claim, P.SideBlocks, P.Leaving.Left;
    InodeExchange(s, s', i);
  }

  lemma SideKeeps(s: P.State, st: P.Step)
    requires P.Inv(s) && P.Enabled(s, st) && (st.CreateSymlink? || st.CreateSpecial? || st.TakeXattr?)
    ensures Everything(P.Do(s, st)) == Everything(s)
  {
    hide P.Inv, P.Claim, Everything, P.MayPhase, P.MayDisk, P.DoPhase, P.DoDisk;
    var s' := P.Do(s, st);
    match st
    case CreateSymlink(i, block) => SideExchange(s, s', i, s'.sides[i], if block.Some? then {block.value} else {});
    case CreateSpecial(i) => SideExchange(s, s', i, s'.sides[i], {});
    case TakeXattr(i, b) => P.AliveNotLeaving(s, i); SideExchange(s, s', i, s'.sides[i], {b});
  }

  /** Inode i leaves the living, and what it had moves between its remains and the free set. */
  lemma LeavingExchange(s: P.State, s': P.State, i: nat)
    requires P.Inv(s) && s'.nodes == s.nodes - {i} && s'.sides == s.sides - {i}
    requires forall j :: j != i ==> (j in s'.leaving <==> j in s.leaving) && (j in s.leaving ==> s'.leaving[j] == s.leaving[j])
    requires !Known(s, i) ==> Holds(s, i) == {}
    requires (if i in s'.leaving then s'.leaving[i].Left() else {}) + s'.free == Holds(s, i) + s.free
    ensures Everything(s') == Everything(s)
  {
    hide P.Inv, P.Claim, P.SideBlocks, P.Leaving.Left, Everything;
    assert P.Owned(s', i) == {};
    assert forall j :: j != i ==> P.Owned(s', j) == P.Owned(s, j);
    hide P.Owned;
    InodeExchange(s, s', i);
  }

  lemma BeginEvictKeeps(s: P.State, i: nat)
    requires P.Inv(s) && P.Enabled(s, P.BeginEvict(i))
    ensures Everything(P.Do(s, P.BeginEvict(i))) == Everything(s)
  {
    hide P.Inv, P.Claim, P.SideBlocks, P.Leaving.Left, P.Evicted, P.Owned, Everything, P.MayPhase, P.MayDisk, P.DoPhase, P.DoDisk;
    P.EvictedLeft(s, i);
    P.AliveNotLeaving(s, i);
    LeavingExchange(s, P.Do(s, P.BeginEvict(i)), i);
  }

  lemma PutEvictedKeeps(s: P.State, i: nat, bs: set<nat>)
    requires P.Inv(s) && P.Enabled(s, P.PutEvicted(i, bs))
    ensures Everything(P.Do(s, P.PutEvicted(i, bs))) == Everything(s)
  {
    hide P.Inv, P.Claim, P.SideBlocks, P.Owned, Everything, P.Do;
    PutEvictedIs(s, i, bs);
    LeftToPut(s, i, bs);
    LeftNotFree(s, i);
    LeavingExchange(s, P.Do(s, P.PutEvicted(i, bs)), i);
  }

  lemma LeftToPut(s: P.State, i: nat, bs: set<nat>)
    requires P.Enabled(s, P.PutEvicted(i, bs))
    ensures i in s.leaving && bs <= s.leaving[i].Left()
  {
    hide P.MayPhase, P.MayDisk, P.DoPhase, P.DoDisk;
  }

  lemma LeftNotFree(s: P.State, i: nat)
    requires P.Inv(s) && i in s.leaving
    ensures s.leaving[i].Left() !! s.free && i !in s.sides && i !in s.nodes && P.Owned(s, i) == {}
    ensures s.nodes - {i} == s.nodes && s.sides - {i} == s.sides
  {
    hide P.TreesOk, P.SidesOk, P.Claim, P.SideBlocks, P.Leaving.Left, P.DirtyOk;
  }

  lemma ClearInodeIs(s: P.State, i: nat)
    requires i in s.leaving
    ensures P.Enabled(s, P.ClearInode(i)) && P.Do(s, P.ClearInode(i)) == s.(leaving := s.leaving - {i})
  {
    hide P.MayPhase, P.MayDisk, P.DoPhase, P.DoDisk;
  }

  lemma ClearInodeKeeps(s: P.State, i: nat)
    requires P.Inv(s) && i in s.leaving && s.leaving[i].Left() == {}
    ensures Everything(s.(leaving := s.leaving - {i})) == Everything(s)
  {
    hide P.Inv, P.Claim, P.SideBlocks, P.Leaving.Left, P.Owned, Everything;
    LeftNotFree(s, i);
    LeavingExchange(s, s.(leaving := s.leaving - {i}), i);
  }

  /** Publishing exchanges held blocks and dropped blocks, one for one. */
  lemma AwaitRootKeeps(s: P.State, i: nat)
    requires P.Inv(s) && P.Enabled(s, P.AwaitRoot(i))
    ensures Everything(P.Do(s, P.AwaitRoot(i))) == Everything(s)
  {
    hide P.Inv, P.NodeOk, P.Claim, P.MayBeDirty, P.MayPhase, P.MayDisk, P.DoPhase, P.DoDisk;
    P.InvNode(s, i);
    P.AwaitedRootNode(s, s.nodes[i]);
    var s' := P.Do(s, P.AwaitRoot(i));
    TreeExchange(s, s', i, s'.nodes[i]);
  }

  /** The tree stays, and blocks move between the free set and its extra blocks. */
  ghost predicate OnlyPhase(s: P.State, s': P.State, i: nat) {
    && i in s.nodes && i in s'.nodes && s'.nodes == s.nodes[i := s'.nodes[i]] && s'.sides == s.sides && s'.leaving == s.leaving
    && s'.nodes[i].root == s.nodes[i].root && s'.nodes[i].tree == s.nodes[i].tree
    && P.Extra(s'.nodes[i].phase) + s'.free == P.Extra(s.nodes[i].phase) + s.free
  }

  lemma WritingMoves(s: P.State, st: P.Step)
    requires P.Enabled(s, st) && (st.Begin? || st.MakePlan? || st.AwaitLeaves? || st.WriteRoot?)
    ensures OnlyPhase(s, P.Do(s, st), st.i)
  {
    hide P.PlanOk, LeafCount, RootFor, DataSet, SetOf, P.Claim, P.SideBlocks, P.Republished, P.DoWriteLeaf, P.Evicted,
      P.Owned, P.DataBlocks, P.MayDisk, P.MayInode, P.DoDisk, P.DoInode;
  }

  lemma WriteLeafMoves(s: P.State, i: nat)
    requires P.MayPhase(s, P.WriteLeaf(i))
    ensures OnlyPhase(s, P.DoWriteLeaf(s, i), i)
  {
    hide LeafCount, Chunk, P.DoPhase, P.DoWriteLeaf, P.MayPhase;
    P.LeafWriteFields(s, i);
  }

  lemma EndingMoves(s: P.State, st: P.Step)
    requires P.Enabled(s, st) && Lossless(s, st) && (st.CountLeaves? || st.Abandon? || st.Finish?)
    ensures OnlyPhase(s, P.Do(s, st), st.i)
  {
    hide P.PlanOk, LeafCount, RootFor, DataSet, SetOf, P.Claim, P.SideBlocks, P.Republished, P.DoWriteLeaf, P.MayDisk,
      P.MayInode, P.DoDisk, P.DoInode;
  }

  lemma AllocMoves(s: P.State, i: nat, bs: set<nat>)
    requires P.Enabled(s, P.Alloc(i, bs))
    requires P.Extra(s.nodes[i].phase) !! s.free && P.Apart(s.nodes[i].phase)
    ensures OnlyPhase(s, P.Do(s, P.Alloc(i, bs)), i)
  {
    hide P.PlanOk, LeafCount, RootFor, DataSet, SetOf, P.Claim, P.SideBlocks, P.Republished, P.DoWriteLeaf, P.MayDisk,
      P.MayInode, P.DoDisk, P.DoInode;
  }

  lemma AllocLeafMoves(s: P.State, i: nat, b: nat)
    requires P.Enabled(s, P.AllocLeaf(i, b))
    requires P.Extra(s.nodes[i].phase) !! s.free && P.Apart(s.nodes[i].phase)
    ensures OnlyPhase(s, P.Do(s, P.AllocLeaf(i, b)), i)
  {
    hide P.PlanOk, LeafCount, RootFor, DataSet, SetOf, P.Claim, P.SideBlocks, P.Republished, P.DoWriteLeaf, P.MayDisk,
      P.MayInode, P.DoDisk, P.DoInode;
  }

  lemma GiveBackMoves(s: P.State, i: nat, bs: set<nat>)
    requires P.Enabled(s, P.GiveBack(i, bs))
    requires P.Extra(s.nodes[i].phase) !! s.free && P.Apart(s.nodes[i].phase)
    ensures OnlyPhase(s, P.Do(s, P.GiveBack(i, bs)), i)
  {
    hide P.PlanOk, LeafCount, RootFor, DataSet, SetOf, P.Claim, P.SideBlocks, P.Republished, P.DoWriteLeaf, P.MayDisk,
      P.MayInode, P.DoDisk, P.DoInode;
  }

  lemma PutUncountedMoves(s: P.State, i: nat, bs: set<nat>)
    requires P.Enabled(s, P.PutUncounted(i, bs))
    requires P.Extra(s.nodes[i].phase) !! s.free && P.Apart(s.nodes[i].phase)
    ensures OnlyPhase(s, P.Do(s, P.PutUncounted(i, bs)), i)
  {
    hide P.PlanOk, LeafCount, RootFor, DataSet, SetOf, P.Claim, P.SideBlocks, P.Republished, P.DoWriteLeaf, P.MayDisk,
      P.MayInode, P.DoDisk, P.DoInode;
  }

  lemma GiveBackLeafMoves(s: P.State, i: nat, b: nat)
    requires P.Enabled(s, P.GiveBackLeaf(i, b))
    requires P.Extra(s.nodes[i].phase) !! s.free && P.Apart(s.nodes[i].phase)
    ensures OnlyPhase(s, P.Do(s, P.GiveBackLeaf(i, b)), i)
  {
    hide P.PlanOk, LeafCount, RootFor, DataSet, SetOf, P.Claim, P.SideBlocks, P.Republished, P.DoWriteLeaf, P.MayDisk,
      P.MayInode, P.DoDisk, P.DoInode;
  }

  lemma RetireMoves(s: P.State, i: nat, b: nat)
    requires P.Enabled(s, P.Retire(i, b)) && P.Extra(s.nodes[i].phase) !! s.free && P.Apart(s.nodes[i].phase)
    ensures OnlyPhase(s, P.Do(s, P.Retire(i, b)), i)
  {
    hide P.PlanOk, LeafCount, RootFor, DataSet, SetOf, P.Claim, P.SideBlocks, P.MayDisk, P.MayInode, P.DoDisk, P.DoInode;
  }

  lemma ReleaseMoves(s: P.State, i: nat, bs: set<nat>)
    requires P.Enabled(s, P.Release(i, bs)) && P.Extra(s.nodes[i].phase) !! s.free && P.Apart(s.nodes[i].phase)
    ensures OnlyPhase(s, P.Do(s, P.Release(i, bs)), i)
  {
    hide P.PlanOk, LeafCount, RootFor, DataSet, SetOf, P.Claim, P.SideBlocks, P.MayDisk, P.MayInode, P.DoDisk, P.DoInode;
  }

  lemma PhaseKeeps(s: P.State, st: P.Step)
    requires P.Inv(s) && P.Enabled(s, st) && Lossless(s, st) && P.PhaseOnly(st)
    ensures Everything(P.Do(s, st)) == Everything(s)
  {
    hide P.Inv, P.Enabled, P.Do, Lossless, P.Extra, P.Apart, OnlyPhase, Everything, P.MayPhase, P.DoWriteLeaf;
    TreeStepInode(s, st);
    P.ClaimsFacts(s, st.i);
    if st.Alloc? {
      AllocMoves(s, st.i, st.bs);
    } else if st.AllocLeaf? {
      AllocLeafMoves(s, st.i, st.b);
    } else if st.GiveBack? {
      GiveBackMoves(s, st.i, st.bs);
    } else if st.PutUncounted? {
      PutUncountedMoves(s, st.i, st.bs);
    } else if st.GiveBackLeaf? {
      GiveBackLeafMoves(s, st.i, st.b);
    } else if st.Retire? {
      RetireMoves(s, st.i, st.b);
    } else if st.Release? {
      ReleaseMoves(s, st.i, st.bs);
    } else if st.CountLeaves? || st.Abandon? || st.Finish? {
      EndingMoves(s, st);
    } else if st.WriteLeaf? {
      P.WriteLeafIs(s, st.i);
      WriteLeafMoves(s, st.i);
    } else {
      WritingMoves(s, st);
    }
    PhaseExchange(s, P.Do(s, st), st.i);
  }

  lemma PhaseExchange(s: P.State, s': P.State, i: nat)
    requires P.Inv(s) && OnlyPhase(s, s', i)
    ensures Everything(s') == Everything(s)
  {
    hide P.Inv, P.Extra, Everything, DataSet, SetOf;
    TreeExchange(s, s', i, s'.nodes[i]);
  }

  lemma TreeStepInode(s: P.State, st: P.Step)
    requires P.Enabled(s, st) && P.PhaseOnly(st)
    ensures st.i in s.nodes
  {
    hide P.MayPhase, P.MayDisk, P.MayInode, P.DoPhase, P.DoDisk, P.DoInode;
    assert st.i in P.Do(s, st).nodes;
  }

  lemma StepKeepsEverything(s: P.State, st: P.Step)
    requires P.Inv(s) && P.Enabled(s, st) && Lossless(s, st)
    ensures Everything(P.Do(s, st)) == Everything(s)
  {
    hide P.Inv, P.Claim, P.Enabled, P.Do, Everything;
    match st
    case AwaitRoot(i) => AwaitRootKeeps(s, i);
    case Create(i, kind, b) => CreateKeeps(s, i, kind, b);
    case CreateSymlink(_, _) => SideKeeps(s, st);
    case CreateSpecial(_) => SideKeeps(s, st);
    case TakeXattr(_, _) => SideKeeps(s, st);
    case BeginEvict(i) => BeginEvictKeeps(s, i);
    case PutEvicted(i, bs) => PutEvictedKeeps(s, i, bs);
    case ClearInode(i) => ClearInodeIs(s, i); ClearInodeKeeps(s, i);
    case WriteDir(_, _, _) => QuietDisk(s, st);
    case WriteRecord(_) => QuietDisk(s, st);
    case WriteSide(_, _, _) => QuietDisk(s, st);
    case Writeback(_) => QuietDisk(s, st);
    case WriteData(_, _, _) => QuietDisk(s, st);
    case Fail => QuietDisk(s, st);
    case _ => PhaseKeeps(s, st);
  }

  lemma QuietDisk(s: P.State, st: P.Step)
    requires P.Enabled(s, st) && P.DiskOnly(st)
    ensures Everything(P.Do(s, st)) == Everything(s) && P.Do(s, st).counts == s.counts
    ensures P.Do(s, st).nodes == s.nodes && P.Do(s, st).sides == s.sides
  {
    hide P.MayPhase, P.MayDisk, P.MayInode, P.DoPhase, P.DoDisk, P.DoInode, Everything;
    SameInodes(s, P.Do(s, st));
  }

  ghost predicate LosslessRun(s: P.State, steps: seq<P.Step>, s': P.State)
    decreases |steps|
  {
    if steps == [] then s' == s
    else P.Enabled(s, steps[0]) && Lossless(s, steps[0]) && LosslessRun(P.Do(s, steps[0]), steps[1..], s')
  }

  lemma {:induction false} RunKeepsEverything(s: P.State, steps: seq<P.Step>, s': P.State)
    requires P.Inv(s) && LosslessRun(s, steps, s')
    ensures P.Inv(s') && Everything(s') == Everything(s)
    decreases |steps|
  {
    hide P.Inv, Everything, Lossless, P.Enabled, P.Do;
    if steps != [] {
      P.StepKeepsInv(s, steps[0]);
      StepKeepsEverything(s, steps[0]);
      RunKeepsEverything(P.Do(s, steps[0]), steps[1..], s');
    }
  }

  // ---------- data blocks as a list ----------

  lemma {:induction false} DataListSnoc(s: seq<Extent>)
    requires s != []
    ensures var m := |s| - 1;
      && DataSet(s) == DataSet(s[..m]) + SetOf(BlocksOf(s[m]))
      && (forall x: nat :: Uses(s, x) == Uses(s[..m], x) + s[m].Uses(x))
      && Total(s) == Total(s[..m]) + |BlocksOf(s[m])|
  {
    var m := |s| - 1;
    assert s == s[..m] + [s[m]];
    P.DataConcat(s[..m], [s[m]]);
    TotalConcat(s[..m], [s[m]]);
    TotalOne(s[m]);
    forall x: nat ensures Uses(s, x) == Uses(s[..m], x) + s[m].Uses(x) {
      UsesConcat(s[..m], [s[m]], x);
      UsesOne(s[m], x);
    }
    BlocksSet(s[m]);
  }

  lemma BlocksSet(e: Extent)
    ensures DataSet([e]) == SetOf(BlocksOf(e)) && Distinct(BlocksOf(e))
    ensures forall x: nat :: x in SetOf(BlocksOf(e)) <==> e.Uses(x) == 1
  {
    assert [e][1..] == [] && DataSet([]) == {};
    forall x: nat ensures x in SetOf(BlocksOf(e)) <==> e.Uses(x) == 1 {
      if e.Uses(x) == 1 {
        assert BlocksOf(e)[x - e.start] == x;
      }
    }
  }

  /** The marked data blocks are the tree's data blocks, each once when none is shared. */
  lemma {:induction false} DataListFacts(s: seq<Extent>)
    ensures SetOf(DataList(s)) == DataSet(s) && |DataList(s)| == Total(s)
    ensures (forall x: nat :: Uses(s, x) <= 1) ==> Distinct(DataList(s))
  {
    if s == [] {
      assert SetOf([]) == {};
    } else {
      var m := |s| - 1;
      var a, c := DataList(s[..m]), BlocksOf(s[m]);
      DataListFacts(s[..m]);
      DataListSnoc(s);
      BlocksSet(s[m]);
      FitsConcat({}, 0, a, c);
      if forall x: nat :: Uses(s, x) <= 1 {
        forall x: nat ensures Uses(s[..m], x) <= 1 {
          assert Uses(s, x) <= 1;
        }
        forall i, j | 0 <= i < j < |a + c| ensures (a + c)[i] != (a + c)[j] {
          if i < |a| <= j {
            var x := (a + c)[i];
            assert x in SetOf(a);
            DataSetUses(s[..m], x);
            assert Uses(s, x) <= 1;
            assert x !in SetOf(c);
            assert (a + c)[j] in SetOf(c);
          }
        }
      }
    }
  }

  lemma DistinctThree(root: nat, leaves: seq<nat>, data: seq<nat>)
    requires Distinct(leaves) && Distinct(data) && SetOf(leaves) !! SetOf(data)
    requires root !in leaves && root !in SetOf(data)
    ensures Distinct([root] + (leaves + data))
  {
    var l := [root] + (leaves + data);
    forall i, j | 0 <= i < j < |l| ensures l[i] != l[j] {
      if i == 0 {
        assert j <= |leaves| ==> l[j] == leaves[j - 1];
        assert j > |leaves| ==> l[j] in SetOf(data);
      } else if i <= |leaves| < j {
        assert l[i] in SetOf(leaves) && l[j] in SetOf(data);
      } else if j <= |leaves| {
        assert l[i] == leaves[i - 1] && l[j] == leaves[j - 1];
      } else {
        assert l[i] == data[i - 1 - |leaves|] && l[j] == data[j - 1 - |leaves|];
      }
    }
  }

  lemma {:induction false} DistinctSize(bs: seq<nat>)
    requires Distinct(bs)
    ensures |SetOf(bs)| == |bs|
  {
    if bs == [] {
      assert SetOf(bs) == {};
    } else {
      var m := |bs| - 1;
      DistinctSize(bs[..m]);
      assert SetOf(bs) == SetOf(bs[..m]) + {bs[m]};
    }
  }

  /** A tree without shared blocks has as many data blocks as its extents add up to. */
  lemma DataSize(t: Loaded)
    requires forall x: nat :: Uses(t.extents, x) <= 1
    ensures |DataSet(t.extents)| == Total(t.extents)
  {
    DataListFacts(t.extents);
    DistinctSize(DataList(t.extents));
  }

  // ---------- i_blocks ----------

  /** What a tree adds to its inode's count, edit by edit. */
  ghost function TreeWeight(n: P.Node): int {
    match n.phase
    case Idle => 1 + |n.tree.leaves| + Total(n.tree.extents)
    case Retiring(_, data, was) => 1 + was + Total(n.tree.extents) + |data|
    case Releasing(data) => 1 + |n.tree.leaves| + Total(n.tree.extents) + |data|
    case _ => 1 + |n.tree.leaves| + Total(n.tree.extents) + |n.phase.held.data|
  }

  ghost function Weight(s: P.State, i: nat): int
    requires i in s.sides
  {
    |P.SideBlocks(s.sides[i])| + if i in s.nodes then TreeWeight(s.nodes[i]) else 0
  }

  /** Every count is what its inode owns, whatever stage its edit has reached. */
  ghost predicate CountsOk(s: P.State) {
    forall i :: i in s.sides ==> i in s.counts && s.counts[i] == Weight(s, i)
  }

  lemma OneCount(s: P.State, s': P.State, i: nat)
    requires CountsOk(s) && (forall j :: j != i && j in s'.sides ==>
      j in s.sides && s'.sides[j] == s.sides[j] && (j in s'.nodes <==> j in s.nodes) && (j in s.nodes ==> s'.nodes[j] == s.nodes[j])
      && j in s'.counts && (j in s.counts ==> s'.counts[j] == s.counts[j]))
    requires i in s'.sides ==> i in s'.counts && s'.counts[i] == Weight(s', i)
    ensures CountsOk(s')
  {
    hide TreeWeight, P.SideBlocks;
  }

  /** Inode i's count moves exactly as the weight of its tree does. */
  ghost predicate WeightMoves(s: P.State, s': P.State, i: nat) {
    && i in s.nodes && i in s.counts && i in s'.counts && i in s'.nodes && s'.counts == s.counts[i := s'.counts[i]]
    && TreeWeight(s'.nodes[i]) - TreeWeight(s.nodes[i]) == s'.counts[i] - s.counts[i]
  }

  lemma StartedWeight(s: P.State, st: P.Step)
    requires P.Inv(s) && P.Enabled(s, st) && Lossless(s, st) && (st.Begin? || st.AllocLeaf? || st.GiveBackLeaf?)
    ensures WeightMoves(s, P.Do(s, st), st.i)
  {
    hide P.Inv, P.PlanOk, LeafCount, RootFor, DataSet, SetOf, P.Claim, P.SideBlocks, P.Republished, P.Extra, Total,
      P.MayDisk, P.MayInode, P.DoDisk, P.DoInode;
    P.ClaimsFacts(s, st.i);
    assert s.counts[st.i := s.counts[st.i]] == s.counts;
  }

  lemma UncountedNothing(s: P.State, st: P.Step)
    requires st.PutUncounted? && Lossless(s, st)
    ensures st == P.PutUncounted(st.i, {})
  {
  }

  lemma PutNothingWeight(s: P.State, i: nat)
    requires P.Inv(s) && P.Enabled(s, P.PutUncounted(i, {}))
    ensures WeightMoves(s, P.Do(s, P.PutUncounted(i, {})), i)
  {
    hide P.Inv, P.PlanOk, LeafCount, RootFor, DataSet, SetOf, P.Claim, P.SideBlocks, P.Republished, P.DoWriteLeaf, Total,
      P.MayDisk, P.MayInode, P.DoDisk, P.DoInode;
    P.ClaimsFacts(s, i);
    assert s.nodes[i].phase.held.data - {} == s.nodes[i].phase.held.data;
    assert s.counts[i := s.counts[i]] == s.counts;
  }

  lemma PlannedWeight(s: P.State, st: P.Step)
    requires P.Inv(s) && P.Enabled(s, st) && Lossless(s, st) && (st.MakePlan? || st.AwaitLeaves? || st.WriteRoot?)
    ensures WeightMoves(s, P.Do(s, st), st.i)
  {
    hide P.Inv, P.PlanOk, LeafCount, RootFor, DataSet, SetOf, P.Claim, P.SideBlocks, P.Republished, P.Extra, Total,
      P.MayDisk, P.MayInode, P.DoDisk, P.DoInode;
    P.ClaimsFacts(s, st.i);
    assert s.counts[st.i := s.counts[st.i]] == s.counts;
  }

  lemma RetireWeight(s: P.State, i: nat, b: nat)
    requires P.Inv(s) && P.Enabled(s, P.Retire(i, b))
    ensures WeightMoves(s, P.Do(s, P.Retire(i, b)), i)
  {
    hide P.Inv, P.PlanOk, LeafCount, RootFor, DataSet, SetOf, P.Claim, P.SideBlocks, P.Republished, P.DoWriteLeaf, Total,
      P.MayDisk, P.MayInode, P.DoDisk, P.DoInode;
    P.ClaimsFacts(s, i);
    assert s.counts[i := s.counts[i]] == s.counts;
  }

  lemma AbandonWeight(s: P.State, i: nat)
    requires P.Inv(s) && P.Enabled(s, P.Abandon(i)) && Lossless(s, P.Abandon(i))
    ensures WeightMoves(s, P.Do(s, P.Abandon(i)), i)
  {
    hide P.Inv, P.PlanOk, LeafCount, RootFor, DataSet, SetOf, P.Claim, P.SideBlocks, P.Republished, P.DoWriteLeaf, Total,
      P.MayDisk, P.MayInode, P.DoDisk, P.DoInode;
    P.ClaimsFacts(s, i);
    assert s.nodes[i].phase.held.data == {};
    assert s.counts[i := s.counts[i]] == s.counts;
  }

  lemma FinishWeight(s: P.State, i: nat)
    requires P.Inv(s) && P.Enabled(s, P.Finish(i)) && Lossless(s, P.Finish(i))
    ensures WeightMoves(s, P.Do(s, P.Finish(i)), i)
  {
    hide P.Inv, P.PlanOk, LeafCount, RootFor, DataSet, SetOf, P.Claim, P.SideBlocks, P.Republished, P.DoWriteLeaf, Total,
      P.MayDisk, P.MayInode, P.DoDisk, P.DoInode;
    P.ClaimsFacts(s, i);
    assert s.nodes[i].phase.data == {};
    assert s.counts[i := s.counts[i]] == s.counts;
  }

  lemma WriteLeafWeight(s: P.State, st: P.Step)
    requires P.Inv(s) && P.Enabled(s, st) && Lossless(s, st) && (st.WriteLeaf?)
    ensures WeightMoves(s, P.Do(s, st), st.i)
  {
    hide P.Inv, P.PlanOk, LeafCount, RootFor, DataSet, SetOf, P.Claim, P.SideBlocks, P.Republished, P.Extra, Total,
      P.MayDisk, P.MayInode, P.DoDisk, P.DoInode;
    P.ClaimsFacts(s, st.i);
    assert s.counts[st.i := s.counts[st.i]] == s.counts;
  }

  lemma AllocWeight(s: P.State, i: nat, bs: set<nat>)
    requires P.Inv(s) && P.Enabled(s, P.Alloc(i, bs))
    ensures WeightMoves(s, P.Do(s, P.Alloc(i, bs)), i)
  {
    hide P.Inv, P.PlanOk, LeafCount, RootFor, DataSet, SetOf, P.Claim, P.SideBlocks, P.Republished, P.DoWriteLeaf, Total,
      P.MayDisk, P.MayInode, P.DoDisk, P.DoInode;
    P.ClaimsFacts(s, i);
  }

  lemma CountLeavesWeight(s: P.State, i: nat)
    requires P.Inv(s) && P.Enabled(s, P.CountLeaves(i))
    ensures WeightMoves(s, P.Do(s, P.CountLeaves(i)), i)
  {
    hide P.Inv, P.PlanOk, LeafCount, RootFor, DataSet, SetOf, P.Claim, P.SideBlocks, P.Republished, P.DoWriteLeaf, Total,
      P.MayDisk, P.MayInode, P.DoDisk, P.DoInode;
    P.ClaimsFacts(s, i);
  }

  lemma GiveBackWeight(s: P.State, i: nat, bs: set<nat>)
    requires P.Inv(s) && P.Enabled(s, P.GiveBack(i, bs))
    ensures WeightMoves(s, P.Do(s, P.GiveBack(i, bs)), i)
  {
    hide P.Inv, P.PlanOk, LeafCount, RootFor, DataSet, SetOf, P.Claim, P.SideBlocks, P.Republished, P.DoWriteLeaf, Total,
      P.MayDisk, P.MayInode, P.DoDisk, P.DoInode;
    P.ClaimsFacts(s, i);
    var data := s.nodes[i].phase.held.data;
    assert data == (data - bs) + bs;
  }

  lemma ReleaseWeight(s: P.State, i: nat, bs: set<nat>)
    requires P.Inv(s) && P.Enabled(s, P.Release(i, bs))
    ensures WeightMoves(s, P.Do(s, P.Release(i, bs)), i)
  {
    hide P.Inv, P.PlanOk, LeafCount, RootFor, DataSet, SetOf, P.Claim, P.SideBlocks, P.Republished, P.DoWriteLeaf, Total,
      P.MayDisk, P.MayInode, P.DoDisk, P.DoInode;
    P.ClaimsFacts(s, i);
    var data := s.nodes[i].phase.data;
    assert data == (data - bs) + bs;
  }

  lemma PhaseCounts(s: P.State, st: P.Step)
    requires P.Inv(s) && CountsOk(s) && P.Enabled(s, st) && Lossless(s, st) && P.PhaseOnly(st)
    ensures CountsOk(P.Do(s, st))
  {
    hide P.Inv, P.Enabled, P.Do, Lossless, TreeWeight, P.SideBlocks;
    if st.WriteLeaf? {
      WriteLeafWeight(s, st);
    } else if st.Alloc? {
      AllocWeight(s, st.i, st.bs);
    } else if st.CountLeaves? {
      CountLeavesWeight(s, st.i);
    } else if st.GiveBack? {
      GiveBackWeight(s, st.i, st.bs);
    } else if st.Release? {
      ReleaseWeight(s, st.i, st.bs);
    } else if st.MakePlan? || st.AwaitLeaves? || st.WriteRoot? {
      PlannedWeight(s, st);
    } else if st.Abandon? {
      AbandonWeight(s, st.i);
    } else if st.Retire? {
      RetireWeight(s, st.i, st.b);
    } else if st.Finish? {
      FinishWeight(s, st.i);
    } else if st.PutUncounted? {
      UncountedNothing(s, st);
      PutNothingWeight(s, st.i);
    } else {
      StartedWeight(s, st);
    }
    PhaseFrame(s, st);
    OneCount(s, P.Do(s, st), st.i);
  }

  /** Only inode i's tree changes. */
  ghost predicate OneTree(s: P.State, s': P.State, i: nat) {
    i in s.nodes && i in s'.nodes && s'.nodes == s.nodes[i := s'.nodes[i]] && s'.sides == s.sides
  }

  lemma PhaseFrame(s: P.State, st: P.Step)
    requires P.Inv(s) && P.Enabled(s, st) && P.PhaseOnly(st)
    ensures OneTree(s, P.Do(s, st), st.i) && st.i in s.sides
  {
    hide P.Inv, P.MayPhase, P.MayDisk, P.MayInode, P.DoPhase, P.DoDisk, P.DoInode;
    TreeStepInode(s, st);
    HasSide(s, st.i);
  }

  lemma HasSide(s: P.State, i: nat)
    requires P.Inv(s) && i in s.nodes
    ensures i in s.sides
  {
  }

  /** Publication: the data the edit had and the new tree lacks is as much as the totals differ by. */
  lemma RepublishedWeight(n: P.Node)
    requires n.phase.RootDirty? && P.TreeOk(n.root, n.tree) && P.PlanOk(n, n.phase.held, n.phase.plan)
    requires P.Apart(n.phase) && P.Extra(n.phase) !! TreeBlocks(n.tree)
    ensures TreeWeight(P.Republished(n)) == TreeWeight(n)
  {
    hide Canonical, Distinct, DataSet, SetOf, LeafCount;
    var held, plan := n.phase.held, n.phase.plan;
    DataSize(n.tree);
    DataSize(plan);
    var all, kept := DataSet(n.tree.extents) + held.data, DataSet(plan.extents);
    assert |all| == |DataSet(n.tree.extents)| + |held.data|;
    assert all == (all - kept) + kept;
    assert |all| == |all - kept| + |kept|;
  }

  lemma AwaitRootCounts(s: P.State, i: nat)
    requires P.Inv(s) && CountsOk(s) && P.Enabled(s, P.AwaitRoot(i))
    ensures CountsOk(P.Do(s, P.AwaitRoot(i)))
  {
    hide P.Inv, TreeWeight, P.SideBlocks, P.Published, P.OldRoot, P.NewLeaves, P.TreeOk, P.PlanOk, P.Republished,
      TreeBlocks, P.Meta, P.MayPhase, P.MayDisk, P.DoPhase, P.DoDisk;
    P.InvNode(s, i);
    RepublishedWeight(s.nodes[i]);
    OneCount(s, P.Do(s, P.AwaitRoot(i)), i);
  }

  lemma SideSize(d: P.Side)
    requires d.link.Some? ==> d.xattr != d.link
    ensures |P.SideBlocks(d)| == (if d.link.Some? then 1 else 0) + if d.xattr.Some? then 1 else 0
  {
    if d.link.Some? && d.xattr.Some? {
      assert P.SideBlocks(d) == {d.link.value} + {d.xattr.value};
    } else if d.link.Some? {
      assert P.SideBlocks(d) == {d.link.value};
    } else if d.xattr.Some? {
      assert P.SideBlocks(d) == {d.xattr.value};
    } else {
      assert P.SideBlocks(d) == {};
    }
  }

  lemma SideCount(s: P.State, s': P.State, i: nat, d: P.Side)
    requires CountsOk(s) && s'.sides == s.sides[i := d] && i in s'.counts && s'.counts == s.counts[i := s'.counts[i]]
    requires forall j :: j in s'.nodes && j != i ==> j in s.nodes && s'.nodes[j] == s.nodes[j]
    requires forall j :: j in s.nodes && j != i ==> j in s'.nodes
    requires s'.counts[i] == Weight(s', i)
    ensures CountsOk(s')
  {
    hide TreeWeight, P.SideBlocks;
    OneCount(s, s', i);
  }

  lemma SideCounts(s: P.State, st: P.Step)
    requires P.Inv(s) && CountsOk(s) && P.Enabled(s, st) && (st.CreateSymlink? || st.CreateSpecial?)
    ensures CountsOk(P.Do(s, st))
  {
    hide P.Inv, P.Claim, P.SideBlocks, CountsOk, P.MayPhase, P.MayDisk, P.DoPhase, P.DoDisk;
    var s' := P.Do(s, st);
    SideSize(s'.sides[st.i]);
    SideCount(s, s', st.i, s'.sides[st.i]);
  }

  lemma CreateCounts(s: P.State, i: nat, kind: Kind, b: nat)
    requires CountsOk(s) && P.Enabled(s, P.Create(i, kind, b))
    ensures CountsOk(P.Do(s, P.Create(i, kind, b)))
  {
    hide P.Claim, P.SideBlocks, CountsOk, P.MayPhase, P.MayDisk, P.DoPhase, P.DoDisk;
    var s' := P.Do(s, P.Create(i, kind, b));
    SideSize(s'.sides[i]);
    assert TreeWeight(s'.nodes[i]) == 1;
    SideCount(s, s', i, s'.sides[i]);
  }

  lemma TakeXattrCounts(s: P.State, i: nat, b: nat)
    requires P.Inv(s) && CountsOk(s) && P.Enabled(s, P.TakeXattr(i, b))
    ensures CountsOk(P.Do(s, P.TakeXattr(i, b)))
  {
    hide P.TreesOk, P.SidesOk, P.KindsOk, P.LeavingOk, P.DirtyOk, P.Claim, P.SideBlocks, TreeWeight, P.MayPhase,
      P.MayDisk, P.DoPhase, P.DoDisk;
    var s' := P.Do(s, P.TakeXattr(i, b));
    P.LinkInUse(s, i, b);
    SideSize(s.sides[i]);
    SideSize(s'.sides[i]);
    SideCount(s, s', i, s'.sides[i]);
  }

  lemma StepKeepsCounts(s: P.State, st: P.Step)
    requires P.Inv(s) && CountsOk(s) && P.Enabled(s, st) && Lossless(s, st)
    ensures CountsOk(P.Do(s, st))
  {
    hide P.Inv, P.Claim, P.Enabled, P.Do, CountsOk, Lossless;
    match st
    case AwaitRoot(i) => AwaitRootCounts(s, i);
    case Create(i, kind, b) => CreateCounts(s, i, kind, b);
    case CreateSymlink(_, _) => SideCounts(s, st);
    case CreateSpecial(_) => SideCounts(s, st);
    case TakeXattr(i, b) => TakeXattrCounts(s, i, b);
    case BeginEvict(i) => EvictCounts(s, i);
    case PutEvicted(i, bs) => PutEvictedIs(s, i, bs); SameCounts(s, P.Do(s, st));
    case ClearInode(i) =>
      ClearedLeaving(s, i);
      ClearInodeIs(s, i);
      SameCounts(s, P.Do(s, st));
    case WriteDir(_, _, _) => DiskCounts(s, st);
    case WriteRecord(_) => DiskCounts(s, st);
    case WriteSide(_, _, _) => DiskCounts(s, st);
    case Writeback(_) => DiskCounts(s, st);
    case WriteData(_, _, _) => DiskCounts(s, st);
    case Fail => DiskCounts(s, st);
    case _ => PhaseCounts(s, st);
  }

  // ---------- and exactly those steps do ----------

  /** An edit that ends while it still holds blocks loses them. */
  lemma DroppedIsLost(s: P.State, i: nat, x: nat)
    requires P.Inv(s) && i in s.nodes && x in P.Extra(s.nodes[i].phase)
    ensures x in Everything(s) && x !in Everything(P.WithPhase(s, i, P.Idle))
  {
    hide P.Inv, P.Leaving.Left;
    HasSide(s, i);
    P.AliveNotLeaving(s, i);
    P.EvictedApart(s, i);
    ExtraApart(s, i);
    var s' := P.WithPhase(s, i, P.Idle);
    assert x in P.Owned(s, i) && i in s.sides.Keys + s.leaving.Keys && x in Holds(s, i);
    forall j | Known(s', j) ensures x !in Holds(s', j) {
      if j in s.sides {
        P.OwnedApart(s, i, j);
        P.AliveNotLeaving(s, j);
      } else {
        LeftNotFree(s, j);
      }
    }
  }

  /** An eviction that ends while it still holds blocks loses them. */
  lemma LeftIsLost(s: P.State, i: nat, x: nat)
    requires P.Inv(s) && i in s.leaving && x in s.leaving[i].Left()
    ensures x in Everything(s) && x !in Everything(s.(leaving := s.leaving - {i}))
  {
    hide P.Inv, P.Leaving.Left, P.Owned;
    LeftNotFree(s, i);
    var s' := s.(leaving := s.leaving - {i});
    assert i in s.sides.Keys + s.leaving.Keys && x in Holds(s, i);
    forall j | Known(s', j) ensures x !in Holds(s', j) {
      if j in s.sides {
        P.EvictedApart(s, j);
        P.AliveNotLeaving(s, j);
        SameOwned(s, s', j);
      } else {
        LeftNotFree(s, j);
        SameOwned(s, s', j);
        LeavingApart(s, i, j);
      }
    }
  }

  lemma SameOwned(s: P.State, s': P.State, j: nat)
    requires s'.nodes == s.nodes && s'.sides == s.sides
    ensures P.Owned(s', j) == P.Owned(s, j)
  {
  }

  lemma LeavingApart(s: P.State, i: nat, j: nat)
    requires P.Inv(s) && i in s.leaving && j in s.leaving && i != j
    ensures s.leaving[i].Left() !! s.leaving[j].Left()
  {
    hide P.TreesOk, P.SidesOk, P.KindsOk, P.Claim, P.SideBlocks, P.Leaving.Left, P.DirtyOk;
  }

  lemma ExtraApart(s: P.State, i: nat)
    requires P.Inv(s) && i in s.nodes && i in s.sides
    ensures var n := s.nodes[i];
      n.root !in P.Extra(n.phase) && TreeBlocks(n.tree) !! P.Extra(n.phase) && P.SideBlocks(s.sides[i]) !! P.Claim(n)
  {
    hide P.PlanOk, P.OldRoot, P.NewLeaves, P.Published, P.TreeOk, P.SideBlocks, P.KindsOk;
    P.InvNode(s, i);
  }

  /** A count that stays while the weight of the tree falls is wrong afterwards. */
  lemma LostCount(s: P.State, s': P.State, i: nat)
    requires CountsOk(s) && i in s.nodes && i in s'.nodes && i in s.sides && s'.sides == s.sides && s'.counts == s.counts
    requires TreeWeight(s'.nodes[i]) != TreeWeight(s.nodes[i])
    ensures !CountsOk(s')
  {
    hide TreeWeight, P.SideBlocks;
    assert s'.counts[i] != Weight(s', i);
  }

  lemma UncountedBreaks(s: P.State, i: nat, bs: set<nat>)
    requires P.Inv(s) && CountsOk(s) && P.Enabled(s, P.PutUncounted(i, bs)) && bs != {}
    ensures !CountsOk(P.Do(s, P.PutUncounted(i, bs)))
  {
    hide P.Inv, P.Claim, P.SideBlocks, CountsOk, Total, P.MayDisk, P.MayInode, P.DoDisk, P.DoInode;
    HasSide(s, i);
    var data := s.nodes[i].phase.held.data;
    assert data == (data - bs) + bs;
    LostCount(s, P.Do(s, P.PutUncounted(i, bs)), i);
  }

  lemma EndingBreaks(s: P.State, st: P.Step)
    requires P.Inv(s) && CountsOk(s) && P.Enabled(s, st) && (st.Abandon? || st.Finish?) && !Lossless(s, st)
    ensures Everything(P.Do(s, st)) != Everything(s) || !CountsOk(P.Do(s, st))
  {
    hide P.Inv, P.Claim, P.SideBlocks, CountsOk, Total, Everything, P.MayDisk, P.MayInode, P.DoDisk, P.DoInode;
    var i := st.i;
    HasSide(s, i);
    if x :| x in P.Extra(s.nodes[i].phase) {
      DroppedIsLost(s, i, x);
    } else {
      assert P.Extra(s.nodes[i].phase) == {};
      assert s.nodes[i].phase.Retiring? && s.nodes[i].phase.data <= P.Extra(s.nodes[i].phase);
      assert s.nodes[i].phase.data == {};
      LostCount(s, P.Do(s, st), i);
    }
  }

  /**
   * For every step of the machine: the free and owned blocks stay the same set and every
   * i_blocks stays what its inode owns if and only if the step is lossless.
   */
  lemma StepKeepsBooksIff(s: P.State, st: P.Step)
    requires P.Inv(s) && CountsOk(s) && P.Enabled(s, st)
    ensures Everything(P.Do(s, st)) == Everything(s) && CountsOk(P.Do(s, st)) <==> Lossless(s, st)
  {
    if Lossless(s, st) {
      StepKeepsEverything(s, st);
      StepKeepsCounts(s, st);
    } else if st.PutUncounted? {
      UncountedBreaks(s, st.i, st.bs);
    } else if st.ClearInode? {
      ClearedLeaving(s, st.i);
      ClearInodeIs(s, st.i);
      var x :| x in s.leaving[st.i].Left();
      LeftIsLost(s, st.i, x);
    } else {
      EndingBreaks(s, st);
    }
    hide P.Inv, P.Do, P.Enabled, Everything, CountsOk;
  }

  lemma EvictCounts(s: P.State, i: nat)
    requires CountsOk(s) && P.Enabled(s, P.BeginEvict(i))
    ensures CountsOk(P.Do(s, P.BeginEvict(i)))
  {
    hide TreeWeight, P.SideBlocks, P.Claim, P.Evicted, P.Owned, P.MayPhase, P.MayDisk, P.DoPhase, P.DoDisk;
    OneCount(s, P.Do(s, P.BeginEvict(i)), i);
  }

  lemma SameCounts(s: P.State, s': P.State)
    requires CountsOk(s) && s'.counts == s.counts && s'.sides == s.sides && s'.nodes == s.nodes
    ensures CountsOk(s')
  {
    hide TreeWeight, P.SideBlocks;
  }

  lemma PutEvictedIs(s: P.State, i: nat, bs: set<nat>)
    requires P.Enabled(s, P.PutEvicted(i, bs))
    ensures var l := s.leaving[i];
      P.Do(s, P.PutEvicted(i, bs)) == s.(free := s.free + bs, leaving := s.leaving[i := P.Leaving(l.had, l.data - bs, l.meta - bs)])
  {
    hide P.MayPhase, P.MayDisk, P.DoPhase, P.DoDisk;
  }

  lemma DiskCounts(s: P.State, st: P.Step)
    requires CountsOk(s) && P.Enabled(s, st) && P.DiskOnly(st)
    ensures CountsOk(P.Do(s, st))
  {
    hide TreeWeight, P.SideBlocks, P.Claim, P.Enabled, P.Do, Everything;
    QuietDisk(s, st);
  }

  lemma {:induction false} RunKeepsCounts(s: P.State, steps: seq<P.Step>, s': P.State)
    requires P.Inv(s) && CountsOk(s) && LosslessRun(s, steps, s')
    ensures CountsOk(s')
    decreases |steps|
  {
    hide P.Inv, CountsOk, Lossless, P.Enabled, P.Do;
    if steps != [] {
      P.StepKeepsInv(s, steps[0]);
      StepKeepsCounts(s, steps[0]);
      RunKeepsCounts(P.Do(s, steps[0]), steps[1..], s');
    }
  }

  // ---------- what a rebuild finds ----------

  /** No edit and no eviction is under way. */
  ghost predicate Quiescent(s: P.State) {
    s.leaving == map[] && forall i :: i in s.nodes ==> s.nodes[i].phase.Idle?
  }

  /** The record of an inode in the table: 0 where it has no such block. */
  ghost predicate Describes(di: DiskInode, s: P.State, i: nat)
    requires i in s.sides
  {
    && di.kind == s.sides[i].kind
    && di.eiBlock == (if i in s.nodes then s.nodes[i].root else if s.sides[i].link.Some? then s.sides[i].link.value else 0)
    && di.xattrBlock == if s.sides[i].xattr.Some? then s.sides[i].xattr.value else 0
  }

  /** The inode table describes exactly the machine's inodes. */
  ghost predicate TableOf(s: P.State, inodes: seq<DiskInode>, ifree: seq<bool>) {
    && 0 < |inodes| == |ifree|
    && (forall i :: i in s.sides ==> 0 < i < |inodes| && Describes(inodes[i], s, i))
    && (forall i :: 0 < i < |inodes| ==> (!ifree[i] <==> i in s.sides))
  }

  /** What the free set plus all owned blocks must amount to: everything that is not reserved. */
  ghost function Area(g: Geometry): set<nat> {
    set b: nat | b < g.nrBlocks && !g.IsReserved(b)
  }

  /** The rebuild's view of a tree that is published and idle. */
  lemma TreeClaims(disk: Disk, n: P.Node)
    requires P.TreeOk(n.root, n.tree) && n.phase.Idle? && Load(disk, n.root) == Ok(n.tree)
    ensures SetOf(TreeList(disk, n.root)) == P.Claim(n) && Distinct(TreeList(disk, n.root))
    ensures |TreeList(disk, n.root)| == 1 + |n.tree.leaves| + Total(n.tree.extents)
  {
    var leaves, data := n.tree.leaves, DataList(n.tree.extents);
    DataListFacts(n.tree.extents);
    assert TreeList(disk, n.root) == [n.root] + (leaves + data);
    FitsConcat({}, 0, [n.root], leaves + data);
    FitsConcat({}, 0, leaves, data);
    FitsOne({}, 0, n.root);
    DistinctThree(n.root, leaves, data);
  }

  lemma IdleTree(s: P.State, i: nat)
    requires P.Inv(s) && Quiescent(s) && i in s.nodes
    ensures Load(s.cache, s.nodes[i].root) == Ok(s.nodes[i].tree)
    ensures SetOf(TreeList(s.cache, s.nodes[i].root)) == P.Claim(s.nodes[i]) && Distinct(TreeList(s.cache, s.nodes[i].root))
    ensures |TreeList(s.cache, s.nodes[i].root)| == TreeWeight(s.nodes[i])
  {
    hide P.Inv, Load, TreeList, SetOf, Distinct, P.Claim, P.Meta, Canonical, DataSet;
    P.InvNode(s, i);
    P.PublishedLoads(s.cache, s.nodes[i].root, s.nodes[i].tree);
    TreeClaims(s.cache, s.nodes[i]);
  }

  lemma DistinctPair(a: seq<nat>, b: nat)
    requires Distinct(a) && b !in SetOf(a)
    ensures Distinct(a + [b]) && SetOf(a + [b]) == SetOf(a) + {b}
  {
  }

  /** The rebuild's view of an inode: its tree or symlink block, and its attribute block. */
  lemma InodeClaims(s: P.State, i: nat, di: DiskInode)
    requires P.Inv(s) && Quiescent(s) && i in s.sides && Describes(di, s, i) && 0 !in P.Owned(s, i)
    ensures Loadable(s.cache, di) && SetOf(ClaimList(s.cache, di)) == P.Owned(s, i)
    ensures Distinct(ClaimList(s.cache, di)) && |ClaimList(s.cache, di)| == Weight(s, i)
  {
    hide P.Inv, BodyList, P.Claim, TreeWeight, Loadable, Distinct, SetOf;
    BodyClaims(s, i, di);
    var body, d := BodyList(s.cache, di), s.sides[i];
    InodeParts(s, i);
    SideSize(d);
    if d.xattr.Some? {
      assert d.xattr.value in P.SideBlocks(d);
      DistinctPair(body, d.xattr.value);
      assert ClaimList(s.cache, di) == body + [d.xattr.value];
    } else {
      assert ClaimList(s.cache, di) == body;
    }
  }

  lemma BodyClaims(s: P.State, i: nat, di: DiskInode)
    requires P.Inv(s) && Quiescent(s) && i in s.sides && Describes(di, s, i) && 0 !in P.Owned(s, i)
    ensures Loadable(s.cache, di) && Distinct(BodyList(s.cache, di))
    ensures i in s.nodes ==>
        SetOf(BodyList(s.cache, di)) == P.Claim(s.nodes[i]) && |BodyList(s.cache, di)| == TreeWeight(s.nodes[i])
    ensures i !in s.nodes ==>
        && SetOf(BodyList(s.cache, di)) == (if s.sides[i].link.Some? then {s.sides[i].link.value} else {})
        && |BodyList(s.cache, di)| == if s.sides[i].link.Some? then 1 else 0
  {
    hide P.TreesOk, P.SidesOk, Load, TreeList, Distinct, TreeWeight;
    if i in s.nodes {
      IdleTree(s, i);
    } else {
      assert SetOf([]) == {};
      if s.sides[i].link.Some? {
        FitsOne({}, 0, s.sides[i].link.value);
      }
      ShortDistinct();
    }
  }

  lemma ShortDistinct()
    ensures Distinct([]) && forall b: nat :: Distinct([b])
  {
  }

  /** A tree inode has no symlink block, and its attribute block is outside its tree. */
  lemma InodeParts(s: P.State, i: nat)
    requires P.Inv(s) && i in s.sides
    ensures i in s.nodes ==> s.sides[i].link.None? && P.SideBlocks(s.sides[i]) !! P.Claim(s.nodes[i])
    ensures s.sides[i].link.Some? ==> s.sides[i].xattr != s.sides[i].link
  {
    hide P.TreesOk, P.Claim;
  }

  ghost function ClaimedUpTo(s: P.State, n: nat): set<nat> {
    set i, b | i in s.sides && i <= n && b in P.Owned(s, i) :: b
  }

  lemma OwnedInArea(s: P.State, g: Geometry, i: nat)
    requires Everything(s) == Area(g) && i in s.sides && g.metaEnd > 0
    ensures forall b :: b in P.Owned(s, i) ==> 0 < b < g.nrBlocks && b !in g.Reserved()
  {
    hide P.Owned;
    forall b | b in P.Owned(s, i) ensures 0 < b < g.nrBlocks && b !in g.Reserved() {
      assert i in s.sides.Keys + s.leaving.Keys && b in Holds(s, i);
      assert b in Everything(s);
    }
  }

  /** The claims of the first n inodes, as the rebuild lists them. */
  lemma {:induction false} ClaimsUpTo(s: P.State, g: Geometry, inodes: seq<DiskInode>, ifree: seq<bool>, n: nat)
    requires P.Inv(s) && Quiescent(s) && TableOf(s, inodes, ifree) && n < |inodes|
    requires Everything(s) == Area(g) && g.metaEnd > 0
    ensures Fits(g.Reserved(), g.nrBlocks, AllClaims(s.cache, inodes, ifree, n))
    ensures SetOf(AllClaims(s.cache, inodes, ifree, n)) == ClaimedUpTo(s, n)
    ensures AllLoadable(s.cache, inodes, ifree, n)
  {
    hide P.Inv, Everything, Area, Fits, Distinct, ClaimedUpTo, ClaimList, P.Owned, SetOf, Loadable, Describes;
    if n == 0 {
      FitsNone(g.Reserved(), g.nrBlocks);
      NoClaims(s, inodes, ifree);
    } else {
      ClaimsUpTo(s, g, inodes, ifree, n - 1);
      var before := AllClaims(s.cache, inodes, ifree, n - 1);
      var mine := if ifree[n] then [] else ClaimList(s.cache, inodes[n]);
      FitsConcat(g.Reserved(), g.nrBlocks, before, mine);
      if n in s.sides {
        OwnedInArea(s, g, n);
        InodeClaims(s, n, inodes[n]);
        NextClaims(s, n);
        ListFits(g.Reserved() + SetOf(before), g.nrBlocks, mine);
      } else {
        FitsNone(g.Reserved() + SetOf(before), g.nrBlocks);
        NoNextClaims(s, n);
      }
    }
  }

  lemma NoClaims(s: P.State, inodes: seq<DiskInode>, ifree: seq<bool>)
    requires TableOf(s, inodes, ifree)
    ensures ClaimedUpTo(s, 0) == {} && SetOf([]) == {}
  {
    hide P.Owned;
  }

  lemma NoNextClaims(s: P.State, n: nat)
    requires n > 0 && n !in s.sides
    ensures ClaimedUpTo(s, n) == ClaimedUpTo(s, n - 1)
  {
    hide P.Owned;
  }

  lemma NextClaims(s: P.State, n: nat)
    requires P.Inv(s) && n > 0 && n in s.sides
    ensures ClaimedUpTo(s, n) == ClaimedUpTo(s, n - 1) + P.Owned(s, n)
    ensures ClaimedUpTo(s, n - 1) !! P.Owned(s, n)
  {
    hide P.Owned, P.Inv;
    forall i | i in s.sides && i <= n - 1 ensures P.Owned(s, i) !! P.Owned(s, n) {
      P.OwnedApart(s, i, n);
    }
  }

  lemma ListFits(used: set<nat>, n: nat, bs: seq<nat>)
    requires Distinct(bs) && SetOf(bs) !! used && forall b :: b in SetOf(bs) ==> 0 < b < n
    ensures Fits(used, n, bs)
  {
    forall i | 0 <= i < |bs| ensures 0 < bs[i] < n && bs[i] !in used {
      assert bs[i] in SetOf(bs);
    }
  }

  /**
   * Between edits, the allocator's free set is the one a full rebuild would compute: the
   * table is consistent, and free means neither reserved nor claimed.
   */
  lemma IncrementalEqualsRebuilt(s: P.State, g: Geometry, inodes: seq<DiskInode>, ifree: seq<bool>)
    requires P.Inv(s) && Quiescent(s) && TableOf(s, inodes, ifree)
    requires Everything(s) == Area(g) && g.metaEnd > 0
    ensures Consistent(g, s.cache, inodes, ifree)
    ensures forall b: nat :: b in s.free <==>
      b < g.nrBlocks && b !in g.Reserved() && b !in AllClaims(s.cache, inodes, ifree, |inodes| - 1)
  {
    hide Fits, AllLoadable, P.Inv, Describes, P.Owned;
    var n := |inodes| - 1;
    ClaimsUpTo(s, g, inodes, ifree, n);
    MembersOf(AllClaims(s.cache, inodes, ifree, n));
    forall b: nat
      ensures b in s.free <==> b < g.nrBlocks && b !in g.Reserved() && b !in SetOf(AllClaims(s.cache, inodes, ifree, n))
    {
      FreeOrClaimed(s, n, b);
      assert b in Everything(s) <==> b in Area(g);
    }
  }

  lemma FreeOrClaimed(s: P.State, n: nat, b: nat)
    requires P.Inv(s) && s.leaving == map[] && forall i :: i in s.sides ==> i <= n
    ensures b in s.free <==> b in Everything(s) && b !in ClaimedUpTo(s, n)
  {
    hide P.Owned, P.Inv;
    assert s.sides.Keys + s.leaving.Keys == s.sides.Keys;
    assert forall i :: Holds(s, i) == P.Owned(s, i);
    forall i | i in s.sides ensures P.Owned(s, i) !! s.free {
      P.OwnedApart(s, i, i);
    }
  }

  // ---------- counting ----------

  lemma ReservedSize(g: Geometry)
    requires g.metaEnd <= g.journalStart <= g.nrBlocks
    ensures |g.Reserved()| == g.metaEnd + if g.journalPresent then g.nrBlocks - g.journalStart else 0
  {
    RunSetSize(0, g.metaEnd);
    RunSetSize(g.journalStart, g.nrBlocks - g.journalStart);
    if g.journalPresent {
      assert g.Reserved() == RunSet(0, g.metaEnd) + RunSet(g.journalStart, g.nrBlocks - g.journalStart);
    } else {
      assert g.Reserved() == RunSet(0, g.metaEnd);
    }
  }

  /** For every consistent table: reserved, free and claimed blocks add up to the device. */
  lemma RebuiltBalance(g: Geometry, disk: Disk, inodes: seq<DiskInode>, ifree: seq<bool>, free: set<nat>)
    requires 0 < |inodes| == |ifree| && Consistent(g, disk, inodes, ifree)
    requires forall b: nat :: b in free <==>
      b < g.nrBlocks && b !in g.Reserved() && b !in AllClaims(disk, inodes, ifree, |inodes| - 1)
    ensures |g.Reserved()| + |free| + |AllClaims(disk, inodes, ifree, |inodes| - 1)| == g.nrBlocks
  {
    var claims := AllClaims(disk, inodes, ifree, |inodes| - 1);
    DistinctSize(claims);
    MembersOf(claims);
    RunSetSize(0, g.nrBlocks);
    var c, r := SetOf(claims), g.Reserved();
    assert RunSet(0, g.nrBlocks) == r + free + c;
    assert r !! free && (r + free) !! c;
  }

  /** The sum of i_blocks over inodes 1 .. n. */
  ghost function BlockCounts(s: P.State, n: nat): int {
    if n == 0 then 0 else BlockCounts(s, n - 1) + if n in s.counts then s.counts[n] else 0
  }

  lemma {:induction false} ClaimsCounted(s: P.State, g: Geometry, inodes: seq<DiskInode>, ifree: seq<bool>, n: nat)
    requires P.Inv(s) && CountsOk(s) && Quiescent(s) && TableOf(s, inodes, ifree) && n < |inodes|
    requires Everything(s) == Area(g) && g.metaEnd > 0
    ensures |AllClaims(s.cache, inodes, ifree, n)| == BlockCounts(s, n)
  {
    hide P.TreesOk, P.SidesOk, Describes, Everything, Area, P.Owned, Weight, ClaimList;
    if n > 0 {
      ClaimsCounted(s, g, inodes, ifree, n - 1);
      if n in s.sides {
        OwnedInArea(s, g, n);
        InodeClaims(s, n, inodes[n]);
      }
    }
  }

  // ---------- from mkfs onward ----------

  function GeometryOf(l: Layout): Geometry {
    Geometry(l.nrBlocks, l.firstData, l.journal > 0, l.journalStart)
  }

  function BlockAtMkfs(l: Layout, b: nat): Block {
    if b == l.firstData then Root(0, [], []) else Zeroed
  }

  /** A freshly made volume: the root directory owns the first data block, and counts it. */
  ghost function FreshVolume(l: Layout): P.State
    requires Tiles(l)
  {
    var disk := map b: nat | b < l.nrBlocks :: BlockAtMkfs(l, b);
    P.State(RunSet(l.firstData + 1, l.data - 1), disk, disk, {}, {}, map[1 := P.Node(l.firstData, Loaded([], []), P.Idle)],
            map[1 := P.Side(Directory, None, None)], map[1 := 1], map[], map[], false)
  }

  lemma FreshVolumeOk(l: Layout)
    requires Tiles(l)
    ensures P.Inv(FreshVolume(l)) && Quiescent(FreshVolume(l)) && CountsOk(FreshVolume(l))
    ensures Everything(FreshVolume(l)) == Area(GeometryOf(l))
  {
    FreshInv(l);
    FreshOwned(l);
    FreshArea(l);
    hide P.Inv, P.Owned, P.SideBlocks, Everything, Area;
  }

  lemma FreshArea(l: Layout)
    requires Tiles(l) && P.Owned(FreshVolume(l), 1) == {l.firstData}
    ensures Everything(FreshVolume(l)) == Area(GeometryOf(l))
  {
    hide P.Owned;
    var s := FreshVolume(l);
    assert s.sides.Keys + s.leaving.Keys == {1} && Holds(s, 1) == {l.firstData};
    hide Holds;
    assert (set i, b | i in s.sides.Keys + s.leaving.Keys && b in Holds(s, i) :: b) == {l.firstData} by {
      assert 1 in s.sides.Keys + s.leaving.Keys && l.firstData in Holds(s, 1);
    }
  }

  lemma FreshInv(l: Layout)
    requires Tiles(l)
    ensures P.Inv(FreshVolume(l))
  {
    var s := FreshVolume(l);
    P.EmptyNodeOk(s, l.firstData);
    hide P.NodeOk, P.Claim;
    assert s.free <= s.cache.Keys;
  }

  lemma FreshOwned(l: Layout)
    requires Tiles(l)
    ensures P.SideBlocks(FreshVolume(l).sides[1]) == {} && P.Owned(FreshVolume(l), 1) == {l.firstData}
  {
  }

  /** What holds whenever no edit is under way. */
  ghost predicate Balanced(l: Layout, s: P.State, inodes: seq<DiskInode>, ifree: seq<bool>)
    requires 0 < |inodes| == |ifree|
  {
    && Consistent(GeometryOf(l), s.cache, inodes, ifree)
    && (forall b: nat :: b in s.free <==>
          b < l.nrBlocks && b !in GeometryOf(l).Reserved() && b !in AllClaims(s.cache, inodes, ifree, |inodes| - 1))
    && l.firstData + l.journal + |s.free| + BlockCounts(s, |inodes| - 1) == l.nrBlocks
  }

  /**
   * Conservation.  Take any layout mkfs computes (they all tile, see LayoutTiles) and any
   * run of completed edits over any number of inodes of any kind.  Whenever no edit is under
   * way, a rebuild of the bitmap succeeds and agrees with the allocator, and
   * metadata + journal + free + the sum of all i_blocks = number of blocks.
   */
  lemma BlocksAreConserved(l: Layout, steps: seq<P.Step>, s: P.State, inodes: seq<DiskInode>, ifree: seq<bool>)
    requires Tiles(l) && LosslessRun(FreshVolume(l), steps, s) && Quiescent(s) && TableOf(s, inodes, ifree)
    ensures 0 < |inodes| == |ifree| && Balanced(l, s, inodes, ifree)
  {
    hide P.Inv, Consistent, Everything, Quiescent, FreshVolume, LosslessRun, AllClaims, BlockCounts, CountsOk, Describes;
    var g := GeometryOf(l);
    FreshVolumeOk(l);
    RunKeepsEverything(FreshVolume(l), steps, s);
    RunKeepsCounts(FreshVolume(l), steps, s);
    IncrementalEqualsRebuilt(s, g, inodes, ifree);
    RebuiltBalance(g, s.cache, inodes, ifree, s.free);
    ReservedSize(g);
    ClaimsCounted(s, g, inodes, ifree, |inodes| - 1);
  }

  // ---------- with a journal ----------

  ghost predicate LosslessStep(s: J.State, st: J.Step) {
    match st
    case Plain(step) => Lossless(J.Eager(s), step)
    case ClearInode(i) => Lossless(J.Eager(s), P.ClearInode(i))
    case _ => true
  }

  ghost predicate LosslessEdits(s: J.State, steps: seq<J.Step>, s': J.State)
    decreases |steps|
  {
    if steps == [] then s' == s
    else
      && J.Enabled(s, steps[0]) && LosslessStep(s, steps[0])
      && LosslessEdits(J.Do(s, steps[0]), steps[1..], s')
  }

  lemma {:induction false} LosslessConcat(s: P.State, a: seq<P.Step>, m: P.State, b: seq<P.Step>, s': P.State)
    requires LosslessRun(s, a, m) && LosslessRun(m, b, s')
    ensures LosslessRun(s, a + b, s')
    decreases |a|
  {
    hide P.Enabled, P.Do, Lossless;
    if a == [] {
      assert a + b == b;
    } else {
      LosslessConcat(P.Do(s, a[0]), a[1..], m, b, s');
      assert (a + b)[0] == a[0] && (a + b)[1..] == a[1..] + b;
    }
  }

  /** A run whose steps can all not lose anything is lossless. */
  lemma {:induction false} RunIsLossless(s: P.State, steps: seq<P.Step>, s': P.State)
    requires P.Run(s, steps, s') && forall k :: 0 <= k < |steps| ==> !(steps[k].Abandon? || steps[k].Finish? || steps[k].PutUncounted? || steps[k].ClearInode?)
    ensures LosslessRun(s, steps, s')
    decreases |steps|
  {
    hide P.Enabled, P.Do;
    if steps != [] {
      RunIsLossless(P.Do(s, steps[0]), steps[1..], s');
    }
  }

  lemma LosslessPair(s: P.State, a: P.Step, b: P.Step, s': P.State)
    requires P.Run(s, [a, b], s') && Lossless(s, a) && b.WriteRecord?
    ensures LosslessRun(s, [a, b], s')
  {
    hide P.Do, P.Enabled;
    assert [a, b][1..] == [b] && [b][1..] == [];
    var m := P.Do(s, a);
    assert P.Run(m, [b], s');
    assert P.Run(P.Do(m, b), [], s');
    assert Lossless(m, b) && LosslessRun(P.Do(m, b), [], s');
    assert LosslessRun(m, [b], s');
  }

  lemma MatchingIsLossless(s: J.State, st: J.Step)
    requires P.Inv(J.Eager(s)) && J.Enabled(s, st) && LosslessStep(s, st)
    ensures LosslessRun(J.Eager(s), J.Matching(s, st), J.Eager(J.Do(s, st)))
  {
    hide P.Inv, P.Enabled, P.Do, J.Do, Lossless;
    J.StepMatches(s, st);
    if st.Plain? {
      assert [st.st][1..] == [];
    } else if st.ClearInode? {
      LosslessPair(J.Eager(s), P.ClearInode(st.i), P.WriteRecord(st.i), J.Eager(J.Do(s, st)));
    } else {
      RunIsLossless(J.Eager(s), J.Matching(s, st), J.Eager(J.Do(s, st)));
    }
  }

  lemma {:induction false} EditsMatch(s: J.State, steps: seq<J.Step>, s': J.State) returns (run: seq<P.Step>)
    requires P.Inv(J.Eager(s)) && LosslessEdits(s, steps, s')
    ensures LosslessRun(J.Eager(s), run, J.Eager(s'))
    decreases |steps|
  {
    hide P.Inv, P.Enabled, P.Do, J.Do, J.Enabled, Lossless, J.Matching;
    if steps == [] {
      run := [];
    } else {
      var m := J.Do(s, steps[0]);
      MatchingIsLossless(s, steps[0]);
      RunKeepsEverything(J.Eager(s), J.Matching(s, steps[0]), J.Eager(m));
      var rest := EditsMatch(m, steps[1..], s');
      run := J.Matching(s, steps[0]) + rest;
      LosslessConcat(J.Eager(s), J.Matching(s, steps[0]), J.Eager(m), rest, J.Eager(s'));
    }
  }

  /** The same on a journalled volume, where nothing waits for the device. */
  lemma JournalledBlocksAreConserved(l: Layout, steps: seq<J.Step>, s: J.State, inodes: seq<DiskInode>, ifree: seq<bool>)
    requires Tiles(l) && LosslessEdits(J.Cached(FreshVolume(l)), steps, s)
    requires Quiescent(J.Eager(s)) && TableOf(J.Eager(s), inodes, ifree)
    ensures 0 < |inodes| == |ifree| && Balanced(l, J.Eager(s), inodes, ifree)
  {
    hide P.Inv, Balanced, Quiescent, TableOf, LosslessRun, LosslessEdits, CountsOk, Everything;
    FreshVolumeOk(l);
    assert J.Eager(J.Cached(FreshVolume(l))) == FreshVolume(l);
    var run := EditsMatch(J.Cached(FreshVolume(l)), steps, s);
    BlocksAreConserved(l, run, J.Eager(s), inodes, ifree);
  }

  // ---------- what the inode table on the device names ----------

  /** Everything a record names was somebody's, or free, all along. */
  ghost predicate RecordsKnown(s: P.State) {
    && (forall i :: i in s.records ==> s.records[i] <= Everything(s))
    && (forall i :: i in s.leaving ==> s.leaving[i].had <= Everything(s))
  }

  /**
   * The device's record of an evicted inode does no harm: it names no free block, none that an
   * inode owns, and none that another eviction still holds.
   */
  ghost predicate Harmless(s: P.State, i: nat) {
    i in s.records ==>
      && s.records[i] !! s.free
      && (forall j :: j in s.sides ==> s.records[i] !! P.Owned(s, j))
      && (forall j :: j in s.leaving && j != i ==> s.records[i] !! s.leaving[j].Left())
  }

  /** Nothing of what the record names has been given back. */
  ghost predicate NothingPut(s: P.State, i: nat) {
    i in s.records ==> s.records[i] <= if i in s.leaving then s.leaving[i].Left() else {}
  }

  lemma OwnedKnown(s: P.State, i: nat)
    requires i in s.sides
    ensures P.Owned(s, i) <= Everything(s)
  {
    hide P.Owned;
    forall b | b in P.Owned(s, i) ensures b in Everything(s) {
      assert i in s.sides.Keys + s.leaving.Keys && b in Holds(s, i);
    }
  }

  lemma StepKeepsRecords(s: P.State, st: P.Step)
    requires P.Inv(s) && P.Enabled(s, st) && Lossless(s, st) && RecordsKnown(s)
    ensures RecordsKnown(P.Do(s, st))
  {
    hide P.Inv, Everything, P.Do, P.Enabled, Lossless, P.Owned;
    StepKeepsEverything(s, st);
    RecordMoves(s, st);
    forall i | i in s.sides ensures P.Owned(s, i) <= Everything(s) {
      OwnedKnown(s, i);
    }
  }

  /** Records come from an eviction that begins, or from the table block being written. */
  lemma RecordMoves(s: P.State, st: P.Step)
    requires P.Enabled(s, st)
    ensures RecordsMove(s, st, P.Do(s, st))
  {
    hide P.Do, P.Enabled, RecordsMove;
    match st
    case BeginEvict(i) => EvictRecords(s, i);
    case PutEvicted(i, bs) => PutRecords(s, i, bs);
    case ClearInode(i) => ClearRecords(s, i);
    case WriteRecord(i) => TableRecords(s, i);
    case _ =>
      KeepsRecords(s, st);
      SameRecords(s, st, P.Do(s, st));
  }

  ghost predicate RecordsMove(s: P.State, st: P.Step, s': P.State) {
    && (forall i :: i in s'.records ==>
          || (i in s.records && s'.records[i] == s.records[i])
          || (st == P.BeginEvict(i) && i in s.sides && s'.records[i] == P.Owned(s, i))
          || (i in s.leaving && s'.records[i] == s.leaving[i].had))
    && (forall i :: i in s'.leaving ==>
          || (i in s.leaving && s'.leaving[i].had == s.leaving[i].had)
          || (st == P.BeginEvict(i) && i in s.sides && s'.leaving[i].had == P.Owned(s, i)))
  }

  lemma TableRecords(s: P.State, i: nat)
    ensures P.Enabled(s, P.WriteRecord(i)) && RecordsMove(s, P.WriteRecord(i), P.Do(s, P.WriteRecord(i)))
  {
    hide P.Owned, P.MayPhase, P.MayInode, P.DoPhase, P.DoInode;
  }

  lemma ClearedLeaving(s: P.State, i: nat)
    requires P.Enabled(s, P.ClearInode(i))
    ensures i in s.leaving
  {
    hide P.MayPhase, P.MayDisk, P.DoPhase, P.DoDisk;
  }

  lemma PutRecords(s: P.State, i: nat, bs: set<nat>)
    requires P.Enabled(s, P.PutEvicted(i, bs))
    ensures RecordsMove(s, P.PutEvicted(i, bs), P.Do(s, P.PutEvicted(i, bs)))
  {
    hide P.Do, P.Enabled, P.Owned, P.Leaving.Left;
    PutEvictedIs(s, i, bs);
    LeftToPut(s, i, bs);
  }

  lemma ClearRecords(s: P.State, i: nat)
    requires P.Enabled(s, P.ClearInode(i))
    ensures RecordsMove(s, P.ClearInode(i), P.Do(s, P.ClearInode(i)))
  {
    hide P.Do, P.Enabled, P.Owned;
    ClearedLeaving(s, i);
    ClearInodeIs(s, i);
  }

  lemma SameRecords(s: P.State, st: P.Step, s': P.State)
    requires s'.records == s.records && s'.leaving == s.leaving
    ensures RecordsMove(s, st, s')
  {
    hide P.Owned;
  }

  lemma EvictRecords(s: P.State, i: nat)
    requires P.Enabled(s, P.BeginEvict(i))
    ensures RecordsMove(s, P.BeginEvict(i), P.Do(s, P.BeginEvict(i)))
  {
    hide P.Owned, P.Claim, P.SideBlocks, P.MayPhase, P.MayDisk, P.DoPhase, P.DoDisk;
  }

  lemma KeepsRecords(s: P.State, st: P.Step)
    requires P.Enabled(s, st) && !P.EvictionStep(st)
    ensures P.Do(s, st).records == s.records && P.Do(s, st).leaving == s.leaving
  {
    hide P.MayPhase, P.MayDisk, P.MayInode, P.DoPhase, P.DoDisk, P.DoInode;
  }

  lemma {:induction false} RunKeepsRecords(s: P.State, steps: seq<P.Step>, s': P.State)
    requires P.Inv(s) && LosslessRun(s, steps, s') && RecordsKnown(s)
    ensures P.Inv(s') && RecordsKnown(s')
    decreases |steps|
  {
    hide P.Inv, RecordsKnown, Lossless, P.Enabled, P.Do;
    if steps != [] {
      P.StepKeepsInv(s, steps[0]);
      StepKeepsRecords(s, steps[0]);
      RunKeepsRecords(P.Do(s, steps[0]), steps[1..], s');
    }
  }

  /** As long as nothing has been put, the record is harmless; this needs no lossless run. */
  lemma NothingPutIsHarmless(s: P.State, i: nat)
    requires P.Inv(s) && NothingPut(s, i)
    ensures Harmless(s, i)
  {
    hide P.Inv, P.Owned, P.Leaving.Left;
    if i in s.records && i in s.leaving {
      LeftNotFree(s, i);
      forall j | j in s.sides ensures s.records[i] !! P.Owned(s, j) {
        P.EvictedApart(s, j);
      }
      forall j | j in s.leaving && j != i ensures s.records[i] !! s.leaving[j].Left() {
        LeavingApart(s, i, j);
      }
    }
  }

  lemma PutIsHarmful(s: P.State, i: nat, x: nat)
    requires P.Inv(s) && RecordsKnown(s) && i in s.records && x in s.records[i] && (i in s.leaving ==> x !in s.leaving[i].Left())
    ensures !Harmless(s, i)
  {
    hide P.Inv, P.Owned, P.Leaving.Left;
    assert x in Everything(s);
    if x !in s.free {
      var j :| j in s.sides.Keys + s.leaving.Keys && x in Holds(s, j);
      if j !in s.sides {
        LeftNotFree(s, j);
      }
    }
  }

  /**
   * From mkfs onward, over every lossless run: the device's inode table names no block that is
   * free or another's if and only if nothing its evicted inodes had has been put since.
   */
  lemma RecordHarmlessIff(l: Layout, steps: seq<P.Step>, s: P.State, i: nat)
    requires Tiles(l) && LosslessRun(FreshVolume(l), steps, s)
    ensures Harmless(s, i) <==> NothingPut(s, i)
  {
    hide P.Inv, LosslessRun, Harmless, CountsOk, Quiescent, Everything, P.Leaving.Left;
    FreshVolumeOk(l);
    assert RecordsKnown(FreshVolume(l));
    RunKeepsRecords(FreshVolume(l), steps, s);
    if NothingPut(s, i) {
      NothingPutIsHarmless(s, i);
    } else {
      var x :| x in s.records[i] && (i in s.leaving ==> x !in s.leaving[i].Left());
      PutIsHarmful(s, i, x);
    }
  }
}
