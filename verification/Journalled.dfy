/**
 * The same edits on a journalled volume (simplefs_extent.c:463, 512, simplefs_journal.c).
 *
 * Inside a handle nothing waits for the device: the root is dirtied right after its leaves
 * and spare leaves are retired at once.  The journal commits what the cache holds, and a
 * crash goes back to the last commit.  Every step here is a run of the machine without a
 * journal in which write-back is immediate.
 */
module Journalled {
  import opened Wrappers
  import opened Extents
  import opened ExtentTree
  import opened FileOps
  import opened Rebuild
  import P = Protocol

  /** The volume as the cache has it. */
  datatype State = State(
    free: set<nat>, cache: Disk, nodes: map<nat, P.Node>, sides: map<nat, P.Side>, counts: map<nat, int>,
    leaving: map<nat, P.Leaving>, records: map<nat, set<nat>>, shutdown: bool)

  datatype Step =
    /** A step that writes no metadata block. */
    | Plain(st: P.Step)
    | WriteLeaf(i: nat)
    | WriteRoot(i: nat)
    | Create(i: nat, kind: Kind, b: nat)
    | WriteSide(i: nat, b: nat, content: Block)
    | WriteDir(i: nat, b: nat, content: Block)
    /** The record is cleared in the block of the table that the handle will commit. */
    | ClearInode(i: nat)

  /** The other machine's state in which everything is already on the device. */
  ghost function Eager(s: State): P.State {
    P.State(s.free, s.cache, s.cache, {}, {}, s.nodes, s.sides, s.counts, s.leaving, s.records, s.shutdown)
  }

  ghost function Cached(s: P.State): State {
    State(s.free, s.cache, s.nodes, s.sides, s.counts, s.leaving, s.records, s.shutdown)
  }

  predicate WritesNothing(st: P.Step) {
    !(st.WriteLeaf? || st.AwaitLeaves? || st.WriteRoot? || st.AwaitRoot? || st.Create? || st.WriteSide? || st.WriteDir?
      || st.ClearInode? || st.WriteRecord? || st.Writeback? || st.WriteData?)
  }

  ghost predicate Enabled(s: State, st: Step) {
    match st
    case Plain(step) => WritesNothing(step) && P.Enabled(Eager(s), step)
    case WriteLeaf(i) =>
      && i in s.nodes && s.nodes[i].phase.Leaves?
      && s.nodes[i].phase.written < |s.nodes[i].phase.plan.leaves|
      && s.nodes[i].phase.written < LeafCount(|s.nodes[i].phase.plan.extents|)
    case WriteRoot(i) =>
      && i in s.nodes && s.nodes[i].phase.Leaves? && s.nodes[i].phase.written == |s.nodes[i].phase.plan.leaves|
      && |s.nodes[i].phase.plan.leaves| == LeafCount(|s.nodes[i].phase.plan.extents|) && s.nodes[i].root in s.cache
    case Create(i, kind, b) =>
      P.NumberFree(Eager(s), i) && P.HasTreeKind(kind) && b in s.free && b in s.cache && !s.shutdown
    case WriteSide(i, b, _) => i in s.sides && b in P.SideBlocks(s.sides[i]) && b in s.cache
    case WriteDir(i, b, content) => P.Enabled(Eager(s), P.WriteDir(i, b, content))
    case ClearInode(i) => i in s.leaving
  }

  ghost function Do(s: State, st: Step): State
    requires Enabled(s, st)
  {
    match st
    case Plain(step) => Cached(P.Do(Eager(s), step))
    case WriteLeaf(i) =>
      var n := s.nodes[i];
      var w := n.phase.written;
      LeafCountBounds(|n.phase.plan.extents|, w);
      s.(nodes := s.nodes[i := n.(phase := n.phase.(written := w + 1))],
         cache := s.cache[n.phase.plan.leaves[w] := Leaf(Chunk(n.phase.plan.extents, w))])
    case WriteRoot(i) =>
      var n := s.nodes[i];
      s.(nodes := s.nodes[i := P.Republished(n.(phase := P.RootDirty(n.phase.held, n.phase.plan)))],
         cache := s.cache[n.root := RootFor(n.phase.plan.extents, n.phase.plan.leaves)])
    case Create(i, kind, b) =>
      s.(nodes := s.nodes[i := P.Node(b, Loaded([], []), P.Idle)], sides := s.sides[i := P.Side(kind, None, None)],
         counts := s.counts[i := 1], free := s.free - {b}, cache := s.cache[b := Root(0, [], [])])
    case WriteSide(i, b, content) => s.(cache := s.cache[b := content])
    case WriteDir(i, b, content) => s.(cache := s.cache[b := content])
    case ClearInode(i) => s.(leaving := s.leaving - {i}, records := s.records - {i})
  }

  // ---------- each step is a run with immediate write-back ----------

  ghost function Matching(s: State, st: Step): seq<P.Step>
    requires Enabled(s, st)
  {
    match st
    case Plain(step) => [step]
    case WriteLeaf(i) =>
      var leaf := s.nodes[i].phase.plan.leaves[s.nodes[i].phase.written];
      [P.WriteLeaf(i)] + if leaf in P.Do(Eager(s), P.WriteLeaf(i)).dirty then [P.Writeback(leaf)] else []
    case WriteRoot(i) => [P.AwaitLeaves(i), P.WriteRoot(i), P.Writeback(s.nodes[i].root), P.AwaitRoot(i)]
    case Create(i, kind, b) => [P.Create(i, kind, b), P.Writeback(b)]
    case WriteSide(i, b, content) => [P.WriteSide(i, b, content), P.Writeback(b)]
    case WriteDir(i, b, content) => [P.WriteDir(i, b, content), P.Writeback(b)]
    case ClearInode(i) => [P.ClearInode(i), P.WriteRecord(i)]
  }

  lemma OneStep(s: P.State, a: P.Step)
    requires P.Enabled(s, a)
    ensures P.Run(s, [a], P.Do(s, a))
  {
    hide P.Enabled, P.Do;
    assert [a][1..] == [];
  }

  lemma TwoSteps(s: P.State, a: P.Step, b: P.Step)
    requires P.Enabled(s, a) && P.Enabled(P.Do(s, a), b)
    ensures P.Run(s, [a, b], P.Do(P.Do(s, a), b))
  {
    hide P.Enabled, P.Do;
    assert [a, b][1..] == [b];
    OneStep(P.Do(s, a), b);
  }

  lemma FourSteps(s: P.State, a: P.Step, b: P.Step, c: P.Step, d: P.Step)
    requires P.Enabled(s, a) && P.Enabled(P.Do(s, a), b) && P.Enabled(P.Do(P.Do(s, a), b), c)
    requires P.Enabled(P.Do(P.Do(P.Do(s, a), b), c), d)
    ensures P.Run(s, [a, b, c, d], P.Do(P.Do(P.Do(P.Do(s, a), b), c), d))
  {
    hide P.Enabled, P.Do;
    assert [a, b, c, d][1..] == [b, c, d] && [b, c, d][1..] == [c, d];
    TwoSteps(P.Do(P.Do(s, a), b), c, d);
  }

  lemma PlainMatches(s: State, st: P.Step)
    requires Enabled(s, Plain(st))
    ensures Eager(Do(s, Plain(st))) == P.Do(Eager(s), st)
  {
    hide P.Claim, P.SideBlocks, P.Republished, P.DoWriteLeaf, DataSet;
  }

  lemma WriteLeafMatches(s: State, i: nat)
    requires Enabled(s, WriteLeaf(i)) && s.nodes[i].phase.plan.leaves[s.nodes[i].phase.written] in s.cache
    ensures P.Run(Eager(s), Matching(s, WriteLeaf(i)), Eager(Do(s, WriteLeaf(i))))
  {
    var e := Eager(s);
    assert P.Enabled(e, P.WriteLeaf(i)) by {
      hide LeafCount, P.MayDisk, P.MayInode;
    }
    hide Chunk, LeafCount, P.Do, P.Enabled, P.DoWriteLeaf, P.MayPhase;
    var n := s.nodes[i];
    var leaf := n.phase.plan.leaves[n.phase.written];
    P.WriteLeafIs(e, i);
    P.LeafWriteFields(e, i);
    var m := P.Do(e, P.WriteLeaf(i));
    if leaf in m.dirty {
      P.WritebackIs(m, leaf);
      TwoSteps(e, P.WriteLeaf(i), P.Writeback(leaf));
      assert P.Do(m, P.Writeback(leaf)) == Eager(Do(s, WriteLeaf(i)));
    } else {
      OneStep(e, P.WriteLeaf(i));
      assert s.cache[leaf := s.cache[leaf]] == s.cache;
      assert [P.WriteLeaf(i)] + [] == [P.WriteLeaf(i)];
    }
  }

  lemma WriteRootMatches(s: State, i: nat)
    requires Enabled(s, WriteRoot(i))
    ensures P.Run(Eager(s), Matching(s, WriteRoot(i)), Eager(Do(s, WriteRoot(i))))
  {
    hide RootFor, LeafCount, P.Republished, P.Do, P.Enabled, SetOf;
    var e := Eager(s);
    var root := s.nodes[i].root;
    P.AwaitLeavesIs(e, i);
    var e1 := P.Do(e, P.AwaitLeaves(i));
    P.WriteRootIs(e1, i);
    var e2 := P.Do(e1, P.WriteRoot(i));
    P.WritebackIs(e2, root);
    var e3 := P.Do(e2, P.Writeback(root));
    P.AwaitRootIs(e3, i);
    FourSteps(e, P.AwaitLeaves(i), P.WriteRoot(i), P.Writeback(root), P.AwaitRoot(i));
    assert P.Do(e3, P.AwaitRoot(i)) == Eager(Do(s, WriteRoot(i)));
  }

  lemma CreateMatches(s: State, i: nat, kind: Kind, b: nat)
    requires Enabled(s, Create(i, kind, b))
    ensures P.Run(Eager(s), Matching(s, Create(i, kind, b)), Eager(Do(s, Create(i, kind, b))))
  {
    hide P.MayPhase, P.DoPhase;
    TwoSteps(Eager(s), P.Create(i, kind, b), P.Writeback(b));
    assert P.Do(P.Do(Eager(s), P.Create(i, kind, b)), P.Writeback(b)) == Eager(Do(s, Create(i, kind, b)));
  }

  lemma WriteSideMatches(s: State, i: nat, b: nat, content: Block)
    requires Enabled(s, WriteSide(i, b, content))
    ensures P.Run(Eager(s), Matching(s, WriteSide(i, b, content)), Eager(Do(s, WriteSide(i, b, content))))
  {
    hide P.MayPhase, P.MayInode, P.DoPhase, P.DoInode;
    TwoSteps(Eager(s), P.WriteSide(i, b, content), P.Writeback(b));
    assert P.Do(P.Do(Eager(s), P.WriteSide(i, b, content)), P.Writeback(b)) == Eager(Do(s, WriteSide(i, b, content)));
  }

  lemma WriteDirMatches(s: State, i: nat, b: nat, content: Block)
    requires Enabled(s, WriteDir(i, b, content))
    ensures P.Run(Eager(s), Matching(s, WriteDir(i, b, content)), Eager(Do(s, WriteDir(i, b, content))))
  {
    hide P.DataBlocks, P.MayPhase, P.MayInode, P.DoPhase, P.DoInode;
    TwoSteps(Eager(s), P.WriteDir(i, b, content), P.Writeback(b));
    assert P.Do(P.Do(Eager(s), P.WriteDir(i, b, content)), P.Writeback(b)) == Eager(Do(s, WriteDir(i, b, content)));
  }

  lemma ClearInodeMatches(s: State, i: nat)
    requires Enabled(s, ClearInode(i))
    ensures P.Run(Eager(s), Matching(s, ClearInode(i)), Eager(Do(s, ClearInode(i))))
  {
    hide P.MayPhase, P.DoPhase;
    TwoSteps(Eager(s), P.ClearInode(i), P.WriteRecord(i));
    assert P.Do(P.Do(Eager(s), P.ClearInode(i)), P.WriteRecord(i)) == Eager(Do(s, ClearInode(i)));
  }

  /** A journalled step is a run of the other machine. */
  lemma StepMatches(s: State, st: Step)
    requires P.Inv(Eager(s)) && Enabled(s, st)
    ensures P.Run(Eager(s), Matching(s, st), Eager(Do(s, st)))
  {
    hide P.Inv, Do, P.Do, P.Enabled, Chunk, LeafCount;
    match st
    case Plain(step) =>
      PlainMatches(s, step);
      OneStep(Eager(s), step);
    case WriteLeaf(i) =>
      PlannedLeafCached(s, i);
      WriteLeafMatches(s, i);
    case WriteRoot(i) => WriteRootMatches(s, i);
    case Create(i, kind, b) => CreateMatches(s, i, kind, b);
    case WriteSide(i, b, content) => WriteSideMatches(s, i, b, content);
    case WriteDir(i, b, content) => WriteDirMatches(s, i, b, content);
    case ClearInode(i) => ClearInodeMatches(s, i);
  }

  lemma PlannedLeafCached(s: State, i: nat)
    requires P.Inv(Eager(s)) && i in s.nodes && s.nodes[i].phase.Leaves? && s.nodes[i].phase.written < |s.nodes[i].phase.plan.leaves|
    ensures s.nodes[i].phase.plan.leaves[s.nodes[i].phase.written] in s.cache
  {
    hide P.Inv, P.NodeInv, P.Claim;
    var e := Eager(s);
    P.InvNode(e, i);
    P.PlanPosition(e.cache, e.durable, true, s.nodes[i], s.nodes[i].phase.written);
  }

  // ---------- commits and crashes ----------

  /** The running volume and the image of the last commit. */
  datatype Volume = Volume(now: State, committed: State)

  datatype Event = Takes(st: Step) | Commit | Crash

  /**
   * A sync writes its leaves and its root under one handle, an eviction frees its blocks and
   * clears its record under one, and a commit waits for open handles.
   */
  ghost predicate NoHandleOpen(s: State) {
    s.leaving == map[] && forall i :: i in s.nodes ==> P.Settled(s.nodes[i].phase)
  }

  /** Only inodes on their way out have a record that names blocks they may not have any more. */
  ghost predicate RecordsOpen(s: State) {
    s.records.Keys <= s.leaving.Keys
  }

  lemma StepKeepsRecords(s: State, st: Step)
    requires RecordsOpen(s) && Enabled(s, st)
    ensures RecordsOpen(Do(s, st))
  {
    hide P.Owned, P.Evicted, P.Republished, P.MayPhase, P.MayDisk, P.DoPhase, P.DoDisk, P.SideBlocks, P.DataBlocks,
      Chunk, LeafCount, RootFor;
  }

  /** What a mount makes of an image: the trees as published, and no edit under way. */
  ghost function Recovered(s: State): State {
    s.(nodes := map i | i in s.nodes :: s.nodes[i].(phase := P.Idle), shutdown := false)
  }

  ghost predicate Possible(v: Volume, e: Event) {
    match e
    case Takes(st) => Enabled(v.now, st)
    case Commit => NoHandleOpen(v.now)
    case Crash => true
  }

  ghost function After(v: Volume, e: Event): Volume
    requires Possible(v, e)
  {
    match e
    case Takes(st) => v.(now := Do(v.now, st))
    case Commit => v.(committed := v.now)
    case Crash => v.(now := Recovered(v.committed))
  }

  ghost predicate VolumeOk(v: Volume) {
    && P.Inv(Eager(v.now)) && P.Inv(Eager(v.committed)) && NoHandleOpen(v.committed)
    && RecordsOpen(v.now) && RecordsOpen(v.committed)
  }

  lemma RecoveredTrees(s: State)
    requires P.Inv(Eager(s)) && NoHandleOpen(s)
    ensures P.TreesOk(Eager(Recovered(s)))
  {
    hide P.NodeOk, P.Claim, P.SidesOk, P.KindsOk, P.MayBeDirty;
    var e, r := Eager(s), Eager(Recovered(s));
    forall i | i in s.nodes ensures P.NodeOk(r, r.nodes[i]) && P.Claim(r.nodes[i]) <= P.Claim(s.nodes[i]) {
      P.InvNode(e, i);
      P.QuietNode(e, e, s.nodes[i], P.Idle);
      P.SameNodeOk(e, r, r.nodes[i]);
      IdleClaimsLess(s.nodes[i]);
    }
  }

  lemma IdleClaimsLess(n: P.Node)
    ensures P.Claim(n.(phase := P.Idle)) <= P.Claim(n)
  {
  }

  lemma RecoveredInv(s: State)
    requires P.Inv(Eager(s)) && NoHandleOpen(s)
    ensures P.Inv(Eager(Recovered(s)))
  {
    hide P.TreesOk, P.SidesOk, P.KindsOk, P.LeavingOk, P.DirtyOk;
    RecoveredTrees(s);
    RecoveredSides(s);
  }

  lemma RecoveredSides(s: State)
    requires P.SidesOk(Eager(s)) && P.KindsOk(Eager(s)) && s.leaving == map[]
    ensures P.SidesOk(Eager(Recovered(s))) && P.KindsOk(Eager(Recovered(s))) && P.LeavingOk(Eager(Recovered(s)))
  {
    hide P.Claim, P.SideBlocks, P.KindsOk, P.SidesOk;
    forall i | i in s.nodes ensures P.Claim(Recovered(s).nodes[i]) <= P.Claim(s.nodes[i]) {
      IdleClaimsLess(s.nodes[i]);
    }
    FewerClaims(Eager(s), Eager(Recovered(s)));
    SameTreeKinds(Eager(s), Eager(Recovered(s)));
  }

  lemma FewerClaims(s: P.State, s': P.State)
    requires P.SidesOk(s) && s'.sides == s.sides && s'.cache == s.cache && s'.free == s.free && s'.nodes.Keys == s.nodes.Keys
    requires forall i :: i in s.nodes ==> P.Claim(s'.nodes[i]) <= P.Claim(s.nodes[i])
    ensures P.SidesOk(s')
  {
    hide P.Claim, P.SideBlocks;
  }

  lemma SameTreeKinds(s: P.State, s': P.State)
    requires P.KindsOk(s) && s'.sides == s.sides && s'.counts == s.counts && s'.nodes.Keys == s.nodes.Keys
    ensures P.KindsOk(s')
  {
  }

  lemma EventKeepsOk(v: Volume, e: Event)
    requires VolumeOk(v) && Possible(v, e)
    ensures VolumeOk(After(v, e))
  {
    hide P.Inv, Do, Enabled;
    match e
    case Takes(st) =>
      StepMatches(v.now, st);
      StepKeepsRecords(v.now, st);
      P.RunKeepsInv(Eager(v.now), Matching(v.now, st), Eager(Do(v.now, st)));
    case Commit =>
    case Crash => RecoveredInv(v.committed);
  }

  ghost predicate Run(v: Volume, events: seq<Event>, v': Volume)
    decreases |events|
  {
    if events == [] then v' == v
    else Possible(v, events[0]) && Run(After(v, events[0]), events[1..], v')
  }

  lemma {:induction false} RunKeepsOk(v: Volume, events: seq<Event>, v': Volume)
    requires VolumeOk(v) && Run(v, events, v')
    ensures VolumeOk(v')
    decreases |events|
  {
    hide VolumeOk, Possible, After;
    if events != [] {
      EventKeepsOk(v, events[0]);
      RunKeepsOk(After(v, events[0]), events[1..], v');
    }
  }

  /**
   * Over every interleaving of edits, commits and crashes: in the running volume, and in the
   * image a crash would bring back, every root loads, nothing an inode leads to is free, and
   * no two inodes lead to the same block.  The committed inode table names no block that an
   * eviction has given back.
   */
  lemma EveryRunIsSafe(v: Volume, events: seq<Event>, v': Volume)
    requires VolumeOk(v) && Run(v, events, v')
    ensures P.ImageSafe(Eager(v'.now), v'.now.cache, v'.now.sides.Keys)
    ensures P.ImageSafe(Eager(v'.committed), v'.committed.cache, v'.committed.sides.Keys)
    ensures v'.committed.records == map[] && v'.committed.leaving == map[]
    ensures var back := After(v', Crash).now;
      P.ImageSafe(Eager(back), v'.committed.cache, back.sides.Keys) && back.free == v'.committed.free
  {
    hide P.Inv, P.ImageSafe;
    RunKeepsOk(v, events, v');
    RecoveredInv(v'.committed);
    P.InvIsSafe(Eager(v'.now));
    P.InvIsSafe(Eager(v'.committed));
    P.InvIsSafe(Eager(Recovered(v'.committed)));
  }

  // ---------- what a commit is for ----------

  lemma {:induction false} CrashGoesBack(v: Volume, events: seq<Event>, v': Volume)
    requires Run(v, events + [Crash], v') && Commit !in events
    ensures v'.now == Recovered(v.committed) && v'.committed == v.committed
    decreases |events|
  {
    hide Recovered, Possible, Do;
    var all := events + [Crash];
    if events == [] {
      assert all[1..] == [];
    } else {
      assert all[0] == events[0] && all[1..] == events[1..] + [Crash];
      CrashGoesBack(After(v, events[0]), events[1..], v');
    }
  }

  lemma SettledLoads(s: State, i: nat)
    requires P.Inv(Eager(s)) && NoHandleOpen(s) && i in s.nodes
    ensures Load(s.cache, s.nodes[i].root) == Ok(s.nodes[i].tree)
  {
    hide P.Inv, P.Claim, P.Meta, Load;
    P.InvNode(Eager(s), i);
    P.PublishedLoads(s.cache, s.nodes[i].root, s.nodes[i].tree);
  }

  /**
   * A commit lasts: whatever happens after it, a crash before the next commit brings back
   * exactly the volume that was committed, every file with the tree it had.
   */
  lemma CommitLasts(v: Volume, events: seq<Event>, v': Volume)
    requires VolumeOk(v) && Possible(v, Commit) && Run(v, [Commit] + events + [Crash], v') && Commit !in events
    ensures v'.now.free == v.now.free && v'.now.sides == v.now.sides && v'.now.counts == v.now.counts
    ensures v'.now.nodes.Keys == v.now.nodes.Keys && v'.now.leaving == map[] && v'.now.records == map[]
    ensures forall i :: i in v.now.nodes ==>
      && v'.now.nodes[i].root == v.now.nodes[i].root && v'.now.nodes[i].tree == v.now.nodes[i].tree
      && Load(v'.now.cache, v.now.nodes[i].root) == Ok(v.now.nodes[i].tree)
  {
    hide P.Inv, Load, Run;
    var all := [Commit] + events + [Crash];
    assert all[0] == Commit && all[1..] == events + [Crash];
    RunStep(v, all, v');
    CrashGoesBack(After(v, Commit), events, v');
    forall i | i in v.now.nodes ensures Load(v.now.cache, v.now.nodes[i].root) == Ok(v.now.nodes[i].tree) {
      SettledLoads(v.now, i);
    }
  }

  lemma RunStep(v: Volume, events: seq<Event>, v': Volume)
    requires Run(v, events, v') && events != []
    ensures Possible(v, events[0]) && Run(After(v, events[0]), events[1..], v')
  {
    hide Possible, After;
  }
}
