/**
 * Publication order without a journal (simplefs_extent.c, simplefs_metabuf.c).
 *
 * Any number of inodes run edits concurrently, one edit per inode at a time (extent_lock).
 * A step is one allocator call, one change of a cached block, one write-back of a block
 * to the device, or one write of file data.  Write-back may happen at any moment.  The
 * theorems hold in every reachable state, which is to say at every possible crash point.
 */
module Protocol {
  import opened Wrappers
  import opened Extents
  import opened ExtentBuffers
  import opened Bitmaps
  import opened ExtentTree
  import opened Surgery
  import opened FileOps
  import opened ZeroRanges
  import opened FileEdits
  import opened Rebuild
  import opened Unwritten

  /** Blocks an edit took from the allocator, for data and for leaves. */
  datatype Held = Held(data: set<nat>, leaves: set<nat>) {
    ghost function All(): set<nat> {
      data + leaves
    }
  }

  const NOTHING := Held({}, {})

  /**
   * Where an edit of an inode stands.  Once the root is on the device, the leaves it no
   * longer needs are retired, the block count moves by the change in leaves (`was` is how
   * many there were), and then the data blocks it no longer maps are put.
   */
  datatype Phase =
    | Idle
    | Editing(held: Held)
    | Leaves(held: Held, plan: Loaded, written: nat)
    | LeavesDurable(held: Held, plan: Loaded)
    | RootDirty(held: Held, plan: Loaded)
    | Retiring(leaves: set<nat>, data: set<nat>, was: nat)
    | Releasing(data: set<nat>)

  /** An inode's extent tree: the tree its root published last. */
  datatype Node = Node(root: nat, tree: Loaded, phase: Phase)

  /** What every inode has besides: its kind, a long symlink's block, an attribute block. */
  datatype Side = Side(kind: Kind, link: Option<nat>, xattr: Option<nat>)

  /** An unlinked inode on its way out: all it had, and which data and metadata it still has. */
  datatype Leaving = Leaving(had: set<nat>, data: set<nat>, meta: set<nat>) {
    ghost function Left(): set<nat> {
      data + meta
    }
  }

  /**
   * `nodes` are the inodes with a tree, `sides` all inodes; `counts` is i_blocks, in blocks.
   * `unborn` are roots of new inodes that have never been written back.  `leaving` are the
   * inodes being evicted, and `records` what the device's inode table still names of inodes
   * that are evicted or on their way.
   */
  datatype State = State(
    free: set<nat>, cache: Disk, durable: Disk, dirty: set<nat>, unborn: set<nat>,
    nodes: map<nat, Node>, sides: map<nat, Side>, counts: map<nat, int>,
    leaving: map<nat, Leaving>, records: map<nat, set<nat>>, shutdown: bool)

  ghost function Extra(p: Phase): set<nat> {
    match p
    case Idle => {}
    case Retiring(leaves, data, _) => leaves + data
    case Releasing(data) => data
    case _ => p.held.All()
  }

  /** A block is held, or spare, for one purpose only. */
  ghost predicate Apart(p: Phase) {
    match p
    case Idle => true
    case Retiring(leaves, data, _) => leaves !! data
    case Releasing(_) => true
    case _ => p.held.data !! p.held.leaves
  }

  /** Every block the tree of n has a say over. */
  ghost function Claim(n: Node): set<nat> {
    {n.root} + TreeBlocks(n.tree) + Extra(n.phase)
  }

  ghost function SideBlocks(d: Side): set<nat> {
    (if d.link.Some? then {d.link.value} else {}) + if d.xattr.Some? then {d.xattr.value} else {}
  }

  /** The blocks of n that the block-device cache holds as tree metadata. */
  ghost function Meta(n: Node): set<nat> {
    {n.root} + SetOf(n.tree.leaves) +
    match n.phase
    case Leaves(_, plan, written) => if written <= |plan.leaves| then SetOf(plan.leaves[..written]) else {}
    case LeavesDurable(_, plan) => SetOf(plan.leaves)
    case RootDirty(_, plan) => SetOf(plan.leaves)
    case _ => {}
  }

  /** A tree whose list is in order and whose blocks are all different. */
  ghost predicate TreeOk(root: nat, t: Loaded) {
    && Canonical(t.extents) && |t.extents| <= MAX_FILE_EXTENTS && |t.leaves| == LeafCount(|t.extents|)
    && Distinct(t.leaves) && root !in t.leaves && root !in DataSet(t.extents)
    && DataSet(t.extents) !! SetOf(t.leaves) && (forall x: nat :: Uses(t.extents, x) <= 1)
  }

  /** What an edit may publish: old leaves are reused in place, everything new was held. */
  ghost predicate PlanOk(n: Node, held: Held, plan: Loaded) {
    && TreeOk(n.root, plan)
    && DataSet(plan.extents) <= DataSet(n.tree.extents) + held.data
    && (forall j :: 0 <= j < |plan.leaves| && j < |n.tree.leaves| ==> plan.leaves[j] == n.tree.leaves[j])
    && (forall j :: |n.tree.leaves| <= j < |plan.leaves| ==> plan.leaves[j] in held.leaves)
  }

  /** Block `leaf` holds chunk j of list s. */
  ghost predicate HoldsChunk(disk: Disk, leaf: nat, s: seq<Extent>, j: nat) {
    leaf in disk && j * PER_LEAF < |s| && disk[leaf] == Leaf(Chunk(s, j))
  }

  /** A disk that still has the old root; leaf j is old, or new once writing may have reached it. */
  ghost predicate OldRoot(disk: Disk, root: nat, was: Loaded, plan: Loaded, upTo: nat) {
    && |was.leaves| == LeafCount(|was.extents|)
    && root in disk && disk[root] == RootFor(was.extents, was.leaves)
    && forall j :: 0 <= j < |was.leaves| ==>
         || HoldsChunk(disk, was.leaves[j], was.extents, j)
         || (j < upTo && j < |plan.leaves| && HoldsChunk(disk, was.leaves[j], plan.extents, j))
  }

  ghost predicate NewLeaves(disk: Disk, plan: Loaded, upTo: nat) {
    forall j :: 0 <= j < upTo && j < |plan.leaves| ==> HoldsChunk(disk, plan.leaves[j], plan.extents, j)
  }

  ghost predicate Published(disk: Disk, root: nat, t: Loaded) {
    && |t.leaves| == LeafCount(|t.extents|)
    && root in disk && disk[root] == RootFor(t.extents, t.leaves) && NewLeaves(disk, t, |t.leaves|)
  }

  /**
   * What the two copies of n's tree look like in each phase.  Before its first write-back
   * (born is false) nothing is known of the device's copy of the root.
   */
  ghost predicate NodeInv(cache: Disk, durable: Disk, born: bool, n: Node) {
    && TreeOk(n.root, n.tree) && (!born ==> n.tree.leaves == [])
    && n.root !in Extra(n.phase) && TreeBlocks(n.tree) !! Extra(n.phase) && Apart(n.phase)
    && match n.phase
       case Leaves(held, plan, written) =>
         && PlanOk(n, held, plan) && written <= |plan.leaves|
         && OldRoot(cache, n.root, n.tree, plan, written) && NewLeaves(cache, plan, written)
         && (born ==> OldRoot(durable, n.root, n.tree, plan, written))
       case LeavesDurable(held, plan) =>
         && PlanOk(n, held, plan)
         && OldRoot(cache, n.root, n.tree, plan, |plan.leaves|) && NewLeaves(cache, plan, |plan.leaves|)
         && (born ==> OldRoot(durable, n.root, n.tree, plan, |plan.leaves|)) && NewLeaves(durable, plan, |plan.leaves|)
       case RootDirty(held, plan) =>
         && PlanOk(n, held, plan)
         && Published(cache, n.root, plan) && NewLeaves(durable, plan, |plan.leaves|)
         && (born ==> Published(durable, n.root, plan) || OldRoot(durable, n.root, n.tree, plan, |plan.leaves|))
       case _ => Published(cache, n.root, n.tree) && (born ==> Published(durable, n.root, n.tree))
  }

  // ---------- every copy that occurs loads, and names only claimed blocks ----------

  /** The blocks a copy of n's tree may name. */
  ghost function Named(n: Node): set<nat> {
    match n.phase
    case Leaves(_, plan, _) => TreeBlocks(n.tree) + TreeBlocks(plan)
    case LeavesDurable(_, plan) => TreeBlocks(n.tree) + TreeBlocks(plan)
    case RootDirty(_, plan) => TreeBlocks(n.tree) + TreeBlocks(plan)
    case _ => TreeBlocks(n.tree)
  }

  ghost predicate LoadsWithin(disk: Disk, root: nat, allowed: set<nat>) {
    Load(disk, root).Ok? && TreeBlocks(Load(disk, root).value) <= allowed
  }

  lemma ChunkData(s: seq<Extent>, j: nat)
    requires j * PER_LEAF < |s|
    ensures DataSet(Chunk(s, j)) <= DataSet(s) && |Chunk(s, j)| <= PER_LEAF
  {
    var a, c, d := s[..j * PER_LEAF], Chunk(s, j), s[ChunkEnd(|s|, j)..];
    assert s == a + c + d;
    DataConcat(a + c, d);
    DataConcat(a, c);
  }

  lemma {:induction false} DataConcat(s: seq<Extent>, t: seq<Extent>)
    ensures DataSet(s + t) == DataSet(s) + DataSet(t)
  {
    if s == [] {
      assert s + t == t;
    } else {
      assert (s + t)[1..] == s[1..] + t;
      DataConcat(s[1..], t);
    }
  }

  /** Leaves that each decode give a list whose blocks come from those leaves. */
  lemma {:induction false} LeavesLoad(disk: Disk, leaves: seq<nat>, allowed: set<nat>)
    requires forall j :: 0 <= j < |leaves| ==>
      LoadLeaf(disk, leaves[j]).Ok? && DataSet(LoadLeaf(disk, leaves[j]).value) <= allowed
    ensures LoadLeaves(disk, leaves).Ok? && DataSet(LoadLeaves(disk, leaves).value) <= allowed
  {
    if leaves != [] {
      LeavesLoad(disk, leaves[1..], allowed);
      DataConcat(LoadLeaf(disk, leaves[0]).value, LoadLeaves(disk, leaves[1..]).value);
    }
  }

  lemma ChunkLeafLoads(disk: Disk, leaf: nat, s: seq<Extent>, j: nat)
    requires HoldsChunk(disk, leaf, s, j)
    ensures LoadLeaf(disk, leaf).Ok? && DataSet(LoadLeaf(disk, leaf).value) <= DataSet(s)
  {
    ChunkData(s, j);
  }

  /** Mid-edit, an old root over partly rewritten leaves still loads. */
  lemma OldRootLoads(disk: Disk, root: nat, was: Loaded, plan: Loaded, upTo: nat)
    requires |was.extents| <= MAX_FILE_EXTENTS && OldRoot(disk, root, was, plan, upTo)
    ensures LoadsWithin(disk, root, TreeBlocks(was) + TreeBlocks(plan))
  {
    var allowed := DataSet(was.extents) + DataSet(plan.extents);
    LeafCountFits(|was.extents|);
    if was.leaves != [] {
      forall j | 0 <= j < |was.leaves|
        ensures LoadLeaf(disk, was.leaves[j]).Ok? && DataSet(LoadLeaf(disk, was.leaves[j]).value) <= allowed
      {
        if HoldsChunk(disk, was.leaves[j], was.extents, j) {
          ChunkLeafLoads(disk, was.leaves[j], was.extents, j);
        } else {
          ChunkLeafLoads(disk, was.leaves[j], plan.extents, j);
        }
      }
      LeavesLoad(disk, was.leaves, allowed);
      assert LeavesOf(disk[root].indexes) == was.leaves;
    }
  }

  lemma PublishedLoads(disk: Disk, root: nat, t: Loaded)
    requires |t.extents| <= MAX_FILE_EXTENTS && Published(disk, root, t)
    ensures Load(disk, root) == Ok(t)
  {
    assert LeavesWritten(disk, t.extents, t.leaves, |t.leaves|) by {
      forall i | 0 <= i < |t.leaves|
        ensures i * PER_LEAF < |t.extents| && t.leaves[i] in disk && disk[t.leaves[i]] == Leaf(Chunk(t.extents, i))
      {
        assert HoldsChunk(disk, t.leaves[i], t.extents, i);
      }
    }
    LoadAfterWrite(disk, root, t.extents, t.leaves);
  }

  /** Both copies of an inode's tree load, whatever its phase. */
  lemma BothCopiesLoad(cache: Disk, durable: Disk, born: bool, n: Node)
    requires NodeInv(cache, durable, born, n)
    ensures LoadsWithin(cache, n.root, Named(n)) && (born ==> LoadsWithin(durable, n.root, Named(n)))
  {
    hide Published, OldRoot, NewLeaves, Load, LeafCount, Canonical, Distinct, DataSet, SetOf;
    match n.phase
    case Leaves(_, plan, written) =>
      OldRootLoads(cache, n.root, n.tree, plan, written);
      if born {
        OldRootLoads(durable, n.root, n.tree, plan, written);
      }
    case LeavesDurable(_, plan) =>
      OldRootLoads(cache, n.root, n.tree, plan, |plan.leaves|);
      if born {
        OldRootLoads(durable, n.root, n.tree, plan, |plan.leaves|);
      }
    case RootDirty(_, plan) =>
      PublishedLoads(cache, n.root, plan);
      if born && Published(durable, n.root, plan) {
        PublishedLoads(durable, n.root, plan);
      } else if born {
        OldRootLoads(durable, n.root, n.tree, plan, |plan.leaves|);
      }
    case _ =>
      PublishedLoads(cache, n.root, n.tree);
      if born {
        PublishedLoads(durable, n.root, n.tree);
      }
  }

  /** Named blocks are claimed blocks. */
  lemma NamedClaimed(n: Node)
    requires TreeOk(n.root, n.tree)
    requires n.phase.Leaves? || n.phase.LeavesDurable? || n.phase.RootDirty? ==> PlanOk(n, n.phase.held, n.phase.plan)
    ensures Named(n) <= Claim(n)
  {
    hide DataSet;
    if n.phase.Leaves? || n.phase.LeavesDurable? || n.phase.RootDirty? {
      var plan := n.phase.plan;
      forall x | x in SetOf(plan.leaves) ensures x in Claim(n) {
        var j :| 0 <= j < |plan.leaves| && plan.leaves[j] == x;
        if j < |n.tree.leaves| {
          assert x in SetOf(n.tree.leaves);
        }
      }
    }
  }

  // ---------- the machine ----------

  /** The blocks whose cached copy may be newer than the device's. */
  ghost function MayBeDirty(n: Node): set<nat> {
    {n.root} + if n.phase.Leaves? && n.phase.written <= |n.phase.plan.leaves| then SetOf(n.phase.plan.leaves[..n.phase.written]) else {}
  }

  /** The data an inode's tree or its edit holds. */
  ghost function DataBlocks(n: Node): set<nat> {
    DataSet(n.tree.extents) + ExtraData(n.phase)
  }

  ghost function ExtraData(p: Phase): set<nat> {
    match p
    case Idle => {}
    case Retiring(_, data, _) => data
    case Releasing(data) => data
    case _ => p.held.data
  }

  /** What one inode's tree contributes to the invariant. */
  ghost predicate NodeOk(s: State, n: Node) {
    && NodeInv(s.cache, s.durable, n.root !in s.unborn, n)
    && Claim(n) !! s.free && Claim(n) <= s.cache.Keys
    && forall b :: b in Meta(n) && b !in s.dirty ==> b in s.cache && b in s.durable && s.cache[b] == s.durable[b]
  }

  /** Symlink and attribute blocks are allocated and nobody else's. */
  ghost predicate SidesOk(s: State) {
    && (forall i :: i in s.sides ==> SideBlocks(s.sides[i]) !! s.free && SideBlocks(s.sides[i]) <= s.cache.Keys)
    && (forall i, j :: i in s.sides && j in s.nodes ==> SideBlocks(s.sides[i]) !! Claim(s.nodes[j]))
    && (forall i, j :: i in s.sides && j in s.sides && i != j ==> SideBlocks(s.sides[i]) !! SideBlocks(s.sides[j]))
    && (forall i :: i in s.sides && s.sides[i].link.Some? ==> s.sides[i].xattr != s.sides[i].link)
  }

  ghost predicate IsDir(s: State, i: nat) {
    i in s.sides && s.sides[i].kind.Directory?
  }

  /**
   * A dirty block is not free.  If an inode's tree has it, then as metadata that may be dirty
   * or as the data of a directory, which goes through the same cache.
   */
  ghost predicate DirtyOk(s: State, b: nat) {
    && b !in s.free
    && (forall i :: i in s.nodes && b in Claim(s.nodes[i]) ==>
          b in MayBeDirty(s.nodes[i]) || (IsDir(s, i) && b in DataBlocks(s.nodes[i])))
    && (forall i :: i in s.leaving ==> b !in s.leaving[i].data)
  }

  /** What an inode on its way out still has is nobody else's, and not free. */
  ghost predicate LeavingOk(s: State) {
    && (forall i :: i in s.leaving ==> i !in s.sides && s.leaving[i].Left() !! s.free && s.leaving[i].Left() <= s.cache.Keys)
    && (forall i, j :: i in s.leaving && j in s.nodes ==> s.leaving[i].Left() !! Claim(s.nodes[j]))
    && (forall i, j :: i in s.leaving && j in s.sides ==> s.leaving[i].Left() !! SideBlocks(s.sides[j]))
    && (forall i, j :: i in s.leaving && j in s.leaving && i != j ==> s.leaving[i].Left() !! s.leaving[j].Left())
  }

  /** Every tree is in order, and no block belongs to two. */
  ghost predicate TreesOk(s: State) {
    && (forall i :: i in s.nodes ==> NodeOk(s, s.nodes[i]))
    && (forall i, j :: i in s.nodes && j in s.nodes && i != j ==> Claim(s.nodes[i]) !! Claim(s.nodes[j]))
  }

  predicate HasTreeKind(k: Kind) {
    k.Regular? || k.Directory?
  }

  /** Files and directories have trees, and only symlinks have a symlink block. */
  ghost predicate KindsOk(s: State) {
    && (forall i :: i in s.nodes ==> i in s.sides && HasTreeKind(s.sides[i].kind))
    && (forall i :: i in s.sides && HasTreeKind(s.sides[i].kind) ==> i in s.nodes)
    && (forall i :: i in s.sides && s.sides[i].link.Some? ==> s.sides[i].kind.Symlink?)
    && s.counts.Keys == s.sides.Keys
  }

  ghost predicate Inv(s: State) {
    && s.cache.Keys == s.durable.Keys && s.free <= s.cache.Keys && s.unborn <= s.dirty
    && TreesOk(s) && SidesOk(s) && KindsOk(s) && LeavingOk(s)
    && (forall b :: b in s.dirty ==> DirtyOk(s, b))
  }

  datatype Step =
    | Begin(i: nat)                         // take extent_lock and load the tree
    | Alloc(i: nat, bs: set<nat>)           // blocks for data; i_blocks grows with them
    | AllocLeaf(i: nat, b: nat)             // a block for a new leaf
    | GiveBack(i: nat, bs: set<nat>)        // error exit before any metadata changed
    | PutUncounted(i: nat, bs: set<nat>)    // the same in get_block, which leaves i_blocks as it is
    | GiveBackLeaf(i: nat, b: nat)
    | Abandon(i: nat)                       // error exit that keeps what it took
    | MakePlan(i: nat, plan: Loaded)        // the edited list and its leaves are settled
    | WriteLeaf(i: nat)                     // next leaf, unless it is reused unchanged
    | AwaitLeaves(i: nat)                   // write back every leaf before touching the root
    | WriteRoot(i: nat)
    | AwaitRoot(i: nat)                     // write back the root before freeing anything
    | Retire(i: nat, b: nat)                // one spare leaf
    | CountLeaves(i: nat)                   // i_blocks moves by the change in leaves
    | Release(i: nat, bs: set<nat>)         // put data blocks; i_blocks shrinks with them
    | Finish(i: nat)
    | Create(i: nat, kind: Kind, b: nat)    // a new file or directory with an empty root
    | CreateSymlink(i: nat, block: Option<nat>)
    | CreateSpecial(i: nat)
    | TakeXattr(i: nat, b: nat)             // the first attribute allocates a block
    | WriteSide(i: nat, b: nat, content: Block)
    | WriteDir(i: nat, b: nat, content: Block) // a directory's block, through the metadata cache
    | BeginEvict(i: nat)                    // an unlinked inode starts to give back what it owns
    | PutEvicted(i: nat, bs: set<nat>)      // some of it: metadata is written back first
    | ClearInode(i: nat)                    // its record is cleared in the cache, and its number is free
    | WriteRecord(i: nat)                   // the inode table block of number i reaches the device
    | Fail                                  // simplefs_journal_fail
    | Writeback(b: nat)
    | WriteData(i: nat, b: nat, content: Block)

  predicate EvictionStep(st: Step) {
    st.BeginEvict? || st.PutEvicted? || st.ClearInode? || st.WriteRecord?
  }

  /** The step changes the phase of one inode's edit, and neither its root nor its published tree. */
  predicate PhaseOnly(st: Step) {
    st.Begin? || st.Alloc? || st.AllocLeaf? || st.GiveBack? || st.PutUncounted? || st.GiveBackLeaf? || st.Abandon? || st.MakePlan?
    || st.WriteLeaf? || st.AwaitLeaves? || st.WriteRoot? || st.Retire? || st.CountLeaves? || st.Release? || st.Finish?
  }

  /** The step changes disk contents, or nothing but the shutdown flag. */
  predicate DiskOnly(st: Step) {
    st.WriteSide? || st.WriteDir? || st.WriteRecord? || st.Writeback? || st.WriteData? || st.Fail?
  }

  ghost predicate Enabled(s: State, st: Step) {
    if PhaseOnly(st) then MayPhase(s, st) else if DiskOnly(st) then MayDisk(s, st) else MayInode(s, st)
  }

  ghost predicate MayPhase(s: State, st: Step)
    requires PhaseOnly(st)
  {
    match st
    case Begin(i) => i in s.nodes && s.nodes[i].phase.Idle?
    case Alloc(i, bs) => i in s.nodes && s.nodes[i].phase.Editing? && bs <= s.free && !s.shutdown && i in s.counts
    case AllocLeaf(i, b) => i in s.nodes && s.nodes[i].phase.Editing? && b in s.free && !s.shutdown
    case GiveBack(i, bs) =>
      i in s.nodes && s.nodes[i].phase.Editing? && bs <= s.nodes[i].phase.held.data && bs !! s.dirty && !s.shutdown && i in s.counts
    case PutUncounted(i, bs) =>
      i in s.nodes && s.nodes[i].phase.Editing? && bs <= s.nodes[i].phase.held.data && bs !! s.dirty && !s.shutdown
    case GiveBackLeaf(i, b) =>
      i in s.nodes && s.nodes[i].phase.Editing? && b in s.nodes[i].phase.held.leaves && b !in s.dirty && !s.shutdown
    case Abandon(i) => i in s.nodes && s.nodes[i].phase.Editing?
    case MakePlan(i, plan) =>
      i in s.nodes && s.nodes[i].phase.Editing? && PlanOk(s.nodes[i], s.nodes[i].phase.held, plan)
    case WriteLeaf(i) =>
      && i in s.nodes && s.nodes[i].phase.Leaves?
      && s.nodes[i].phase.written < |s.nodes[i].phase.plan.leaves|
      && s.nodes[i].phase.written < LeafCount(|s.nodes[i].phase.plan.extents|)
    case AwaitLeaves(i) =>
      && i in s.nodes && s.nodes[i].phase.Leaves? && s.nodes[i].phase.written == |s.nodes[i].phase.plan.leaves|
      && SetOf(s.nodes[i].phase.plan.leaves) !! s.dirty
    case WriteRoot(i) =>
      && i in s.nodes && s.nodes[i].phase.LeavesDurable?
      && |s.nodes[i].phase.plan.leaves| == LeafCount(|s.nodes[i].phase.plan.extents|)
    case Retire(i, b) =>
      i in s.nodes && s.nodes[i].phase.Retiring? && b in s.nodes[i].phase.leaves && b !in s.dirty && !s.shutdown
    case CountLeaves(i) => i in s.nodes && s.nodes[i].phase.Retiring? && s.nodes[i].phase.leaves == {} && i in s.counts
    case Release(i, bs) =>
      i in s.nodes && s.nodes[i].phase.Releasing? && bs <= s.nodes[i].phase.data && bs !! s.dirty && !s.shutdown && i in s.counts
    case Finish(i) => i in s.nodes && (s.nodes[i].phase.Releasing? || s.nodes[i].phase.Retiring?)
  }

  ghost predicate MayDisk(s: State, st: Step)
    requires DiskOnly(st)
  {
    match st
    case WriteSide(i, b, _) => i in s.sides && b in SideBlocks(s.sides[i])
    case WriteDir(i, b, _) => i in s.nodes && IsDir(s, i) && b in DataBlocks(s.nodes[i]) && b in s.cache
    case WriteRecord(i) => true
    case Writeback(b) => b in s.dirty && b in s.cache
    case WriteData(i, b, _) => i in s.nodes && b in DataSet(s.nodes[i].tree.extents) && !IsDir(s, i) && b in s.durable
    case Fail => true
  }

  ghost predicate MayInode(s: State, st: Step)
    requires !PhaseOnly(st) && !DiskOnly(st)
  {
    match st
    case AwaitRoot(i) => i in s.nodes && s.nodes[i].phase.RootDirty? && s.nodes[i].root !in s.dirty
    case Create(i, kind, b) =>
      NumberFree(s, i) && (kind.Regular? || kind.Directory?) && b in s.free && b in s.cache && !s.shutdown
    case CreateSymlink(i, block) => NumberFree(s, i) && (block.Some? ==> block.value in s.free && !s.shutdown)
    case CreateSpecial(i) => NumberFree(s, i)
    case TakeXattr(i, b) => i in s.sides && i in s.counts && s.sides[i].xattr.None? && b in s.free && !s.shutdown
    case BeginEvict(i) => i in s.sides && (i in s.nodes ==> s.nodes[i].phase.Idle?) && !s.shutdown
    case PutEvicted(i, bs) => i in s.leaving && bs <= s.leaving[i].Left() && bs !! s.dirty && !s.shutdown
    case ClearInode(i) => i in s.leaving
  }

  ghost predicate NumberFree(s: State, i: nat) {
    i !in s.sides && i !in s.nodes && i !in s.leaving
  }

  ghost function Evicted(s: State, i: nat): Leaving
    requires i in s.sides
  {
    var data := if i in s.nodes && !IsDir(s, i) then DataSet(s.nodes[i].tree.extents) else {};
    Leaving(Owned(s, i), data, Owned(s, i) - data)
  }

  /** All blocks of inode i. */
  ghost function Owned(s: State, i: nat): set<nat> {
    (if i in s.nodes then Claim(s.nodes[i]) else {}) + if i in s.sides then SideBlocks(s.sides[i]) else {}
  }

  ghost function WithPhase(s: State, i: nat, p: Phase): State
    requires i in s.nodes
  {
    s.(nodes := s.nodes[i := s.nodes[i].(phase := p)])
  }

  ghost function Counted(s: State, i: nat, delta: int): State
    requires i in s.counts
  {
    s.(counts := s.counts[i := s.counts[i] + delta])
  }

  ghost function Do(s: State, st: Step): State
    requires Enabled(s, st)
  {
    if PhaseOnly(st) then DoPhase(s, st) else if DiskOnly(st) then DoDisk(s, st) else DoInode(s, st)
  }

  ghost function DoPhase(s: State, st: Step): (s': State)
    requires PhaseOnly(st) && MayPhase(s, st)
    ensures st.i in s.nodes && st.i in s'.nodes && s'.nodes == s.nodes[st.i := s'.nodes[st.i]] && s'.sides == s.sides
    ensures s'.leaving == s.leaving && s'.records == s.records
  {
    match st
    case Begin(i) => WithPhase(s, i, Editing(NOTHING))
    case Alloc(i, bs) =>
      var held := s.nodes[i].phase.held;
      Counted(WithPhase(s, i, Editing(Held(held.data + bs, held.leaves))).(free := s.free - bs), i, |bs|)
    case AllocLeaf(i, b) =>
      var held := s.nodes[i].phase.held;
      WithPhase(s, i, Editing(Held(held.data, held.leaves + {b}))).(free := s.free - {b})
    case GiveBack(i, bs) =>
      var held := s.nodes[i].phase.held;
      Counted(WithPhase(s, i, Editing(Held(held.data - bs, held.leaves))).(free := s.free + bs), i, -|bs|)
    case PutUncounted(i, bs) =>
      var held := s.nodes[i].phase.held;
      WithPhase(s, i, Editing(Held(held.data - bs, held.leaves))).(free := s.free + bs)
    case GiveBackLeaf(i, b) =>
      var held := s.nodes[i].phase.held;
      WithPhase(s, i, Editing(Held(held.data, held.leaves - {b}))).(free := s.free + {b})
    case Abandon(i) => WithPhase(s, i, Idle)
    case MakePlan(i, plan) => WithPhase(s, i, Leaves(s.nodes[i].phase.held, plan, 0))
    case WriteLeaf(i) => DoWriteLeaf(s, i)
    case AwaitLeaves(i) => WithPhase(s, i, LeavesDurable(s.nodes[i].phase.held, s.nodes[i].phase.plan))
    case WriteRoot(i) =>
      var n := s.nodes[i];
      WithPhase(s, i, RootDirty(n.phase.held, n.phase.plan))
        .(cache := s.cache[n.root := RootFor(n.phase.plan.extents, n.phase.plan.leaves)], dirty := s.dirty + {n.root})
    case Retire(i, b) =>
      var p := s.nodes[i].phase;
      WithPhase(s, i, Retiring(p.leaves - {b}, p.data, p.was)).(free := s.free + {b})
    case CountLeaves(i) =>
      Counted(WithPhase(s, i, Releasing(s.nodes[i].phase.data)), i, |s.nodes[i].tree.leaves| - s.nodes[i].phase.was)
    case Release(i, bs) =>
      Counted(WithPhase(s, i, Releasing(s.nodes[i].phase.data - bs)).(free := s.free + bs), i, -|bs|)
    case Finish(i) => WithPhase(s, i, Idle)
  }

  ghost function DoDisk(s: State, st: Step): (s': State)
    requires DiskOnly(st) && MayDisk(s, st)
    ensures s'.nodes == s.nodes && s'.sides == s.sides && s'.counts == s.counts && s'.free == s.free && s'.leaving == s.leaving
    ensures !st.WriteRecord? ==> s'.records == s.records
  {
    match st
    case WriteSide(i, b, content) => s.(cache := s.cache[b := content], dirty := s.dirty + {b})
    case WriteDir(_, b, content) => s.(cache := s.cache[b := content], dirty := s.dirty + {b})
    case WriteRecord(i) => s.(records := if i in s.leaving then s.records[i := s.leaving[i].had] else s.records - {i})
    case Writeback(b) => s.(durable := s.durable[b := s.cache[b]], dirty := s.dirty - {b}, unborn := s.unborn - {b})
    case WriteData(i, b, content) => s.(durable := s.durable[b := content])
    case Fail => s.(shutdown := true)
  }

  ghost function DoInode(s: State, st: Step): (s': State)
    requires !PhaseOnly(st) && !DiskOnly(st) && MayInode(s, st)
    ensures !EvictionStep(st) ==> s'.leaving == s.leaving && s'.records == s.records
  {
    match st
    case AwaitRoot(i) => s.(nodes := s.nodes[i := Republished(s.nodes[i])])
    case Create(i, kind, b) =>
      s.(nodes := s.nodes[i := Node(b, Loaded([], []), Idle)], sides := s.sides[i := Side(kind, None, None)],
         counts := s.counts[i := 1], free := s.free - {b}, cache := s.cache[b := Root(0, [], [])],
         dirty := s.dirty + {b}, unborn := s.unborn + {b})
    case CreateSymlink(i, block) =>
      s.(sides := s.sides[i := Side(Symlink, block, None)], counts := s.counts[i := if block.Some? then 1 else 0],
         free := s.free - if block.Some? then {block.value} else {})
    case CreateSpecial(i) => s.(sides := s.sides[i := Side(Special, None, None)], counts := s.counts[i := 0])
    case TakeXattr(i, b) => Counted(s.(sides := s.sides[i := s.sides[i].(xattr := Some(b))], free := s.free - {b}), i, 1)
    case BeginEvict(i) =>
      s.(nodes := s.nodes - {i}, sides := s.sides - {i}, counts := s.counts - {i}, leaving := s.leaving[i := Evicted(s, i)],
         records := if i in s.records then s.records else s.records[i := Owned(s, i)])
    case PutEvicted(i, bs) =>
      var l := s.leaving[i];
      s.(free := s.free + bs, leaving := s.leaving[i := Leaving(l.had, l.data - bs, l.meta - bs)])
    case ClearInode(i) => s.(leaving := s.leaving - {i})
  }

  /** The root is on the device: what the old tree and the edit had and the new tree lacks is spare. */
  ghost function Republished(n: Node): Node
    requires n.phase.RootDirty?
  {
    var held, plan := n.phase.held, n.phase.plan;
    Node(n.root, plan, Retiring(SetOf(n.tree.leaves) + held.leaves - SetOf(plan.leaves),
                                DataSet(n.tree.extents) + held.data - DataSet(plan.extents), |n.tree.leaves|))
  }

  ghost function DoWriteLeaf(s: State, i: nat): State
    requires MayPhase(s, WriteLeaf(i))
  {
    var n := s.nodes[i];
    var w := n.phase.written;
    var leaf := n.phase.plan.leaves[w];
    LeafCountBounds(|n.phase.plan.extents|, w);
    var block := Leaf(Chunk(n.phase.plan.extents, w));
    var s' := WithPhase(s, i, n.phase.(written := w + 1));
    if w < |n.tree.leaves| && leaf in s.cache && s.cache[leaf] == block then s'
    else s'.(cache := s.cache[leaf := block], dirty := s.dirty + {leaf})
  }

  // ---------- every step keeps the invariant ----------

  lemma MetaClaimed(c: Disk, d: Disk, born: bool, n: Node)
    requires NodeInv(c, d, born, n)
    ensures Meta(n) <= Claim(n) && MayBeDirty(n) <= Meta(n)
  {
    hide OldRoot, NewLeaves, Published, DataSet, TreeOk;
    if n.phase.Leaves? || n.phase.LeavesDurable? || n.phase.RootDirty? {
      PlanLeavesClaimed(n, n.phase.held, n.phase.plan);
    }
  }

  ghost predicate AgreeOn(d: Disk, e: Disk, bs: set<nat>) {
    d.Keys == e.Keys && forall b :: b in bs && b in d ==> d[b] == e[b]
  }

  lemma PublishedFrame(d: Disk, e: Disk, root: nat, t: Loaded, bs: set<nat>)
    requires Published(d, root, t) && AgreeOn(d, e, bs) && {root} + SetOf(t.leaves) <= bs
    ensures Published(e, root, t)
  {
    hide RootFor, LeafCount;
    forall j | 0 <= j < |t.leaves| ensures HoldsChunk(e, t.leaves[j], t.extents, j) {
      assert HoldsChunk(d, t.leaves[j], t.extents, j) && t.leaves[j] in SetOf(t.leaves);
    }
  }

  lemma OldRootFrame(d: Disk, e: Disk, root: nat, was: Loaded, plan: Loaded, upTo: nat, bs: set<nat>)
    requires OldRoot(d, root, was, plan, upTo) && AgreeOn(d, e, bs) && {root} + SetOf(was.leaves) <= bs
    ensures OldRoot(e, root, was, plan, upTo)
  {
    hide RootFor, LeafCount;
    forall j | 0 <= j < |was.leaves|
      ensures HoldsChunk(e, was.leaves[j], was.extents, j)
        || (j < upTo && j < |plan.leaves| && HoldsChunk(e, was.leaves[j], plan.extents, j))
    {
      assert was.leaves[j] in SetOf(was.leaves);
    }
  }

  lemma NewLeavesFrame(d: Disk, e: Disk, plan: Loaded, upTo: nat, bs: set<nat>)
    requires NewLeaves(d, plan, upTo) && AgreeOn(d, e, bs)
    requires forall j :: 0 <= j < upTo && j < |plan.leaves| ==> plan.leaves[j] in bs
    ensures NewLeaves(e, plan, upTo)
  {
    forall j | 0 <= j < upTo && j < |plan.leaves| ensures HoldsChunk(e, plan.leaves[j], plan.extents, j) {
      assert HoldsChunk(d, plan.leaves[j], plan.extents, j);
    }
  }

  lemma PlanLeavesClaimed(n: Node, held: Held, plan: Loaded)
    requires PlanOk(n, held, plan) && Extra(n.phase) == held.All()
    ensures SetOf(plan.leaves) <= Claim(n) && forall j :: 0 <= j < |plan.leaves| ==> plan.leaves[j] in Claim(n)
  {
    hide DataSet;
    forall j | 0 <= j < |plan.leaves| ensures plan.leaves[j] in Claim(n) {
      if j < |n.tree.leaves| {
        assert plan.leaves[j] in SetOf(n.tree.leaves);
      }
    }
  }

  /** The blocks an inode's part of the invariant looks at. */
  ghost function Looks(n: Node): set<nat> {
    {n.root} + SetOf(n.tree.leaves) +
    match n.phase
    case Leaves(_, plan, _) => SetOf(plan.leaves)
    case LeavesDurable(_, plan) => SetOf(plan.leaves)
    case RootDirty(_, plan) => SetOf(plan.leaves)
    case _ => {}
  }

  lemma LooksInside(c: Disk, d: Disk, born: bool, n: Node)
    requires NodeInv(c, d, born, n)
    ensures Looks(n) <= Claim(n) && Looks(n) !! DataBlocks(n)
  {
    hide Published, OldRoot, NewLeaves, DataSet, SetOf, TreeOk;
    match n.phase
    case Leaves(held, plan, written) => PlanLeavesClaimed(n, held, plan); PlanLeavesNotData(n, held, plan);
    case LeavesDurable(held, plan) => PlanLeavesClaimed(n, held, plan); PlanLeavesNotData(n, held, plan);
    case RootDirty(held, plan) => PlanLeavesClaimed(n, held, plan); PlanLeavesNotData(n, held, plan);
    case _ => TreeNotData(n.root, n.tree);
  }

  lemma TreeNotData(root: nat, t: Loaded)
    requires TreeOk(root, t)
    ensures {root} + SetOf(t.leaves) !! DataSet(t.extents)
  {
  }

  lemma PlanLeavesNotData(n: Node, held: Held, plan: Loaded)
    requires TreeOk(n.root, n.tree) && PlanOk(n, held, plan) && TreeBlocks(n.tree) !! held.All() && held.data !! held.leaves
    ensures SetOf(plan.leaves) !! DataSet(n.tree.extents) + held.data
    ensures {n.root} + SetOf(n.tree.leaves) !! DataSet(n.tree.extents)
  {
    hide DataSet;
    forall x | x in SetOf(plan.leaves) ensures x !in DataSet(n.tree.extents) + held.data {
      var j :| 0 <= j < |plan.leaves| && plan.leaves[j] == x;
      if j < |n.tree.leaves| {
        assert x in SetOf(n.tree.leaves);
      }
    }
  }

  lemma AllInLeaves(leaves: seq<nat>)
    ensures forall j :: 0 <= j < |leaves| ==> leaves[j] in SetOf(leaves)
  {
  }

  /** An inode's part of the invariant only looks at its own tree blocks. */
  lemma NodeInvFrame(c: Disk, d: Disk, c': Disk, d': Disk, born: bool, n: Node)
    requires NodeInv(c, d, born, n) && AgreeOn(c, c', Looks(n)) && AgreeOn(d, d', Looks(n))
    ensures NodeInv(c', d', born, n)
  {
    hide Published, OldRoot, NewLeaves, PlanOk, TreeOk, AgreeOn, DataSet, SetOf;
    var bs := Looks(n);
    match n.phase
    case Leaves(held, plan, written) =>
      AllInLeaves(plan.leaves);
      OldRootFrame(c, c', n.root, n.tree, plan, written, bs);
      NewLeavesFrame(c, c', plan, written, bs);
      if born {
        OldRootFrame(d, d', n.root, n.tree, plan, written, bs);
      }
    case LeavesDurable(held, plan) =>
      AllInLeaves(plan.leaves);
      OldRootFrame(c, c', n.root, n.tree, plan, |plan.leaves|, bs);
      NewLeavesFrame(c, c', plan, |plan.leaves|, bs);
      NewLeavesFrame(d, d', plan, |plan.leaves|, bs);
      if born {
        OldRootFrame(d, d', n.root, n.tree, plan, |plan.leaves|, bs);
      }
    case RootDirty(held, plan) =>
      AllInLeaves(plan.leaves);
      PublishedFrame(c, c', n.root, plan, bs);
      NewLeavesFrame(d, d', plan, |plan.leaves|, bs);
      if born && Published(d, n.root, plan) {
        PublishedFrame(d, d', n.root, plan, bs);
      } else if born {
        OldRootFrame(d, d', n.root, n.tree, plan, |plan.leaves|, bs);
      }
    case _ =>
      PublishedFrame(c, c', n.root, n.tree, bs);
      if born {
        PublishedFrame(d, d', n.root, n.tree, bs);
      }
  }

  /** Blocks outside bs look the same in both states. */
  ghost predicate SameBeyond(s: State, s': State, bs: set<nat>) {
    && s.durable.Keys == s.cache.Keys == s'.cache.Keys == s'.durable.Keys
    && forall b :: b in s.cache && b !in bs ==>
         && s'.cache[b] == s.cache[b] && s'.durable[b] == s.durable[b]
         && (b in s'.dirty <==> b in s.dirty) && (b in s'.unborn <==> b in s.unborn)
  }

  /** A tree does not notice what happens to blocks it does not claim. */
  lemma OtherNode(s: State, s': State, bs: set<nat>, n: Node)
    requires NodeOk(s, n) && s.cache.Keys == s.durable.Keys && SameBeyond(s, s', bs) && bs !! Claim(n) && s'.free <= s.free + bs
    ensures NodeOk(s', n)
  {
    hide NodeInv, Meta, Claim;
    var born := n.root !in s.unborn;
    MetaClaimed(s.cache, s.durable, born, n);
    LooksInside(s.cache, s.durable, born, n);
    RootClaimed(n);
    NodeInvFrame(s.cache, s.durable, s'.cache, s'.durable, born, n);
  }

  lemma RootClaimed(n: Node)
    ensures n.root in Claim(n)
  {
  }

  /** A step that touches one tree, its own blocks and the free set. */
  lemma OneNodeStep(s: State, s': State, i: nat, n': Node)
    requires Inv(s) && i in s.nodes && s'.nodes == s.nodes[i := n'] && s'.sides == s.sides && s'.counts.Keys == s.counts.Keys
    requires s'.leaving == s.leaving
    requires SameBeyond(s, s', Claim(s.nodes[i])) && s'.free <= s.cache.Keys && s'.unborn <= s'.dirty
    requires Claim(n') <= Claim(s.nodes[i]) + s.free && s'.free <= s.free + Claim(s.nodes[i])
    requires NodeOk(s', n') && DirtyMoves(s, s', i, n')
    ensures Inv(s')
  {
    hide TreesOk, SidesOk, KindsOk, LeavingOk, DirtyOk, NodeOk, Claim, DirtyMoves;
    OneNodeTrees(s, s', i, n');
    OneNodeSides(s, s', i, n');
    OneNodeKinds(s, s', i, n');
    OneNodeLeaving(s, s', i, n');
    forall b | b in s'.dirty ensures DirtyOk(s', b) {
      OneNodeDirty(s, s', i, n', b);
    }
  }

  /** Freed blocks are clean, data stays data, and what gets dirty may be. */
  ghost predicate DirtyMoves(s: State, s': State, i: nat, n': Node)
    requires i in s.nodes
  {
    && s'.free !! s.dirty && DataBlocks(s.nodes[i]) * Claim(n') <= DataBlocks(n')
    && forall b :: b in s'.dirty ==>
         || b in MayBeDirty(n') || (IsDir(s, i) && b in DataBlocks(n'))
         || (b in s.dirty && b !in MayBeDirty(s.nodes[i]))
  }

  lemma OneNodeLeaving(s: State, s': State, i: nat, n': Node)
    requires LeavingOk(s) && i in s.nodes && s'.nodes == s.nodes[i := n'] && s'.sides == s.sides && s'.leaving == s.leaving
    requires s'.cache.Keys == s.cache.Keys
    requires Claim(n') <= Claim(s.nodes[i]) + s.free && s'.free <= s.free + Claim(s.nodes[i])
    ensures LeavingOk(s')
  {
    hide Claim, SideBlocks;
  }

  lemma OneNodeTrees(s: State, s': State, i: nat, n': Node)
    requires TreesOk(s) && i in s.nodes && s'.nodes == s.nodes[i := n'] && SameBeyond(s, s', Claim(s.nodes[i])) && NodeOk(s', n')
    requires Claim(n') <= Claim(s.nodes[i]) + s.free && s'.free <= s.free + Claim(s.nodes[i])
    ensures TreesOk(s')
  {
    hide NodeOk, Claim, SameBeyond;
    forall j | j in s.nodes && j != i ensures NodeOk(s', s.nodes[j]) && Claim(s.nodes[j]) !! Claim(n') {
      BeyondKeys(s, s', Claim(s.nodes[i]));
      OtherNode(s, s', Claim(s.nodes[i]), s.nodes[j]);
      NotFree(s, s.nodes[j]);
    }
  }

  lemma BeyondKeys(s: State, s': State, bs: set<nat>)
    requires SameBeyond(s, s', bs)
    ensures s.durable.Keys == s.cache.Keys == s'.cache.Keys == s'.durable.Keys
  {
  }

  lemma NotFree(s: State, n: Node)
    requires NodeOk(s, n)
    ensures Claim(n) !! s.free && Claim(n) <= s.cache.Keys
  {
  }

  lemma OneNodeSides(s: State, s': State, i: nat, n': Node)
    requires SidesOk(s) && i in s.nodes && s'.nodes == s.nodes[i := n'] && s'.sides == s.sides && s'.cache.Keys == s.cache.Keys
    requires Claim(n') <= Claim(s.nodes[i]) + s.free && s'.free <= s.free + Claim(s.nodes[i])
    ensures SidesOk(s')
  {
    hide Claim, SideBlocks;
  }

  lemma OneNodeKinds(s: State, s': State, i: nat, n': Node)
    requires KindsOk(s) && i in s.nodes && s'.nodes == s.nodes[i := n'] && s'.sides == s.sides && s'.counts.Keys == s.counts.Keys
    ensures KindsOk(s')
  {
  }

  lemma OneNodeDirty(s: State, s': State, i: nat, n': Node, b: nat)
    requires TreesOk(s') && LeavingOk(s') && i in s.nodes && s'.nodes == s.nodes[i := n'] && s'.sides == s.sides
    requires s'.leaving == s.leaving && Claim(n') <= Claim(s.nodes[i]) + s.free
    requires DirtyMoves(s, s', i, n') && b in s'.dirty && (b in s.dirty ==> DirtyOk(s, b))
    ensures DirtyOk(s', b)
  {
    hide MayBeDirty, Claim, DataBlocks, SideBlocks;
    OwnDirty(s', i);
    if b in MayBeDirty(n') || (IsDir(s, i) && b in DataBlocks(n')) {
      forall j | j in s'.leaving ensures b !in s'.leaving[j].data {
        assert b !in s'.leaving[j].Left();
      }
    }
  }

  /** What may be dirty of a tree, and its data, is its own. */
  lemma OwnDirty(s: State, i: nat)
    requires TreesOk(s) && i in s.nodes
    ensures var n := s.nodes[i];
      MayBeDirty(n) + DataBlocks(n) <= Claim(n) && Claim(n) !! s.free && forall j :: j in s.nodes && j != i ==> Claim(n) !! Claim(s.nodes[j])
  {
    hide NodeInv, Claim, Meta, MayBeDirty, DataBlocks;
    var n := s.nodes[i];
    assert NodeOk(s, n);
    MetaClaimed(s.cache, s.durable, n.root !in s.unborn, n);
    DataClaimed(n);
  }

  lemma DataClaimed(n: Node)
    ensures DataBlocks(n) <= Claim(n)
  {
  }

  lemma InvNode(s: State, i: nat)
    requires Inv(s) && i in s.nodes
    ensures NodeOk(s, s.nodes[i]) && s.durable.Keys == s.cache.Keys && s.free <= s.cache.Keys && s.unborn <= s.dirty
    ensures Claim(s.nodes[i]) !! s.free && Claim(s.nodes[i]) <= s.cache.Keys && i in s.sides && i in s.counts
    ensures s.free !! s.dirty
  {
    hide NodeInv, Claim, Meta;
  }

  /** NodeOk does not look at the other inodes. */
  lemma SameNodeOk(s: State, s': State, n: Node)
    requires NodeOk(s, n) && s'.cache == s.cache && s'.durable == s.durable && s'.dirty == s.dirty && s'.free == s.free
    requires s'.unborn == s.unborn
    ensures NodeOk(s', n)
  {
  }

  // The steps that leave both disk images alone and keep the published tree.

  predicate Settled(p: Phase) {
    p.Idle? || p.Editing? || p.Retiring? || p.Releasing?
  }

  lemma QuietNode(s: State, s': State, n: Node, p: Phase)
    requires NodeOk(s, n) && Settled(n.phase) && Settled(p) && Apart(p)
    requires s'.cache == s.cache && s'.durable == s.durable && s'.dirty == s.dirty && s'.unborn == s.unborn
    requires Extra(p) + s'.free <= Extra(n.phase) + s.free && Extra(p) !! s'.free && s.free <= s.cache.Keys
    ensures NodeOk(s', n.(phase := p)) && s'.free <= s.cache.Keys
    ensures Claim(n.(phase := p)) <= Claim(n) + s.free && s'.free <= s.free + Claim(n)
    ensures MayBeDirty(n.(phase := p)) == MayBeDirty(n)
  {
    hide Published, TreeOk, DataSet, SetOf;
  }

  lemma QuietData(n: Node, p: Phase)
    requires ExtraData(n.phase) * Extra(p) <= ExtraData(p) && TreeBlocks(n.tree) !! Extra(n.phase) && n.root !in Extra(n.phase)
    ensures DataBlocks(n) * Claim(n.(phase := p)) <= DataBlocks(n.(phase := p))
  {
    hide DataSet;
    ExtraHasData(n.phase);
  }

  lemma ExtraHasData(p: Phase)
    ensures ExtraData(p) <= Extra(p)
  {
  }

  lemma QuietStep(s: State, s': State, i: nat, p: Phase)
    requires Inv(s) && i in s.nodes && s' == WithPhase(s, i, p).(free := s'.free, counts := s'.counts)
    requires s'.counts.Keys == s.counts.Keys
    requires Settled(s.nodes[i].phase) && Settled(p) && Apart(p)
    requires Extra(p) + s'.free <= Extra(s.nodes[i].phase) + s.free && Extra(p) !! s'.free
    requires (s'.free - s.free) !! s.dirty && ExtraData(s.nodes[i].phase) * Extra(p) <= ExtraData(p)
    ensures Inv(s')
  {
    hide Inv, NodeOk, Claim, Meta, MayBeDirty, DataBlocks, Extra, ExtraData;
    InvNode(s, i);
    ExtraApart(s, s.nodes[i]);
    QuietNode(s, s', s.nodes[i], p);
    QuietData(s.nodes[i], p);
    OneNodeStep(s, s', i, s.nodes[i].(phase := p));
  }

  lemma ExtraApart(s: State, n: Node)
    requires NodeOk(s, n)
    ensures n.root !in Extra(n.phase) && TreeBlocks(n.tree) !! Extra(n.phase)
  {
    hide Published, OldRoot, NewLeaves, TreeOk, PlanOk;
  }

  lemma ClaimsFacts(s: State, i: nat)
    requires Inv(s) && i in s.nodes
    ensures Extra(s.nodes[i].phase) !! s.free && Apart(s.nodes[i].phase) && i in s.counts
  {
    hide Published, OldRoot, NewLeaves, TreeOk, PlanOk, SidesOk;
    assert NodeOk(s, s.nodes[i]);
  }

  lemma BeginStep(s: State, i: nat)
    requires Inv(s) && Enabled(s, Begin(i))
    ensures Inv(Do(s, Begin(i)))
  {
    hide Inv, DataSet, SetOf, Claim, DoWriteLeaf, SideBlocks, Republished;
    ClaimsFacts(s, i);
    QuietStep(s, Do(s, Begin(i)), i, Editing(NOTHING));
  }

  lemma AllocStep(s: State, i: nat, bs: set<nat>)
    requires Inv(s) && Enabled(s, Alloc(i, bs))
    ensures Inv(Do(s, Alloc(i, bs)))
  {
    hide Inv, DataSet, SetOf, Claim, DoWriteLeaf, SideBlocks, Republished;
    ClaimsFacts(s, i);
    var held := s.nodes[i].phase.held;
    QuietStep(s, Do(s, Alloc(i, bs)), i, Editing(Held(held.data + bs, held.leaves)));
  }

  lemma AllocLeafStep(s: State, i: nat, b: nat)
    requires Inv(s) && Enabled(s, AllocLeaf(i, b))
    ensures Inv(Do(s, AllocLeaf(i, b)))
  {
    hide Inv, DataSet, SetOf, Claim, DoWriteLeaf, SideBlocks, Republished;
    ClaimsFacts(s, i);
    var held := s.nodes[i].phase.held;
    QuietStep(s, Do(s, AllocLeaf(i, b)), i, Editing(Held(held.data, held.leaves + {b})));
  }

  lemma GiveBackStep(s: State, i: nat, bs: set<nat>)
    requires Inv(s) && Enabled(s, GiveBack(i, bs))
    ensures Inv(Do(s, GiveBack(i, bs)))
  {
    hide Inv, DataSet, SetOf, Claim, DoWriteLeaf, SideBlocks, Republished;
    ClaimsFacts(s, i);
    var p := s.nodes[i].phase;
    QuietStep(s, Do(s, GiveBack(i, bs)), i, Editing(Held(p.held.data - bs, p.held.leaves)));
  }

  lemma PutUncountedStep(s: State, i: nat, bs: set<nat>)
    requires Inv(s) && Enabled(s, PutUncounted(i, bs))
    ensures Inv(Do(s, PutUncounted(i, bs)))
  {
    hide Inv, DataSet, SetOf, Claim, DoWriteLeaf, SideBlocks, Republished;
    ClaimsFacts(s, i);
    var p := s.nodes[i].phase;
    QuietStep(s, Do(s, PutUncounted(i, bs)), i, Editing(Held(p.held.data - bs, p.held.leaves)));
  }

  lemma GiveBackLeafStep(s: State, i: nat, b: nat)
    requires Inv(s) && Enabled(s, GiveBackLeaf(i, b))
    ensures Inv(Do(s, GiveBackLeaf(i, b)))
  {
    hide Inv, DataSet, SetOf, Claim, DoWriteLeaf, SideBlocks, Republished;
    ClaimsFacts(s, i);
    var p := s.nodes[i].phase;
    QuietStep(s, Do(s, GiveBackLeaf(i, b)), i, Editing(Held(p.held.data, p.held.leaves - {b})));
  }

  lemma RetireStep(s: State, i: nat, b: nat)
    requires Inv(s) && Enabled(s, Retire(i, b))
    ensures Inv(Do(s, Retire(i, b)))
  {
    hide Inv, DataSet, SetOf, Claim, DoWriteLeaf, SideBlocks, Republished;
    ClaimsFacts(s, i);
    var p := s.nodes[i].phase;
    QuietStep(s, Do(s, Retire(i, b)), i, Retiring(p.leaves - {b}, p.data, p.was));
  }

  lemma ReleaseStep(s: State, i: nat, bs: set<nat>)
    requires Inv(s) && Enabled(s, Release(i, bs))
    ensures Inv(Do(s, Release(i, bs)))
  {
    hide Inv, DataSet, SetOf, Claim, DoWriteLeaf, SideBlocks, Republished;
    ClaimsFacts(s, i);
    var p := s.nodes[i].phase;
    QuietStep(s, Do(s, Release(i, bs)), i, Releasing(p.data - bs));
  }

  lemma EndingStep(s: State, st: Step)
    requires Inv(s) && Enabled(s, st) && (st.Abandon? || st.CountLeaves? || st.Finish?)
    ensures Inv(Do(s, st))
  {
    hide Inv, DataSet, SetOf, Claim, DoWriteLeaf, SideBlocks, Republished;
    ClaimsFacts(s, st.i);
    QuietStep(s, Do(s, st), st.i, if st.CountLeaves? then Releasing(s.nodes[st.i].phase.data) else Idle);
  }

  lemma OldRootFromPublished(disk: Disk, root: nat, t: Loaded, plan: Loaded)
    requires Published(disk, root, t)
    ensures OldRoot(disk, root, t, plan, 0)
  {
    hide LeafCount, RootFor, Chunk;
  }

  lemma PlannedNode(s: State, n: Node, plan: Loaded)
    requires NodeOk(s, n) && n.phase.Editing? && PlanOk(n, n.phase.held, plan)
    ensures var n' := n.(phase := Leaves(n.phase.held, plan, 0));
      NodeOk(s, n') && Claim(n') == Claim(n) && MayBeDirty(n') == MayBeDirty(n) && DataBlocks(n') == DataBlocks(n)
  {
    OldRootFromPublished(s.cache, n.root, n.tree, plan);
    if n.root !in s.unborn {
      OldRootFromPublished(s.durable, n.root, n.tree, plan);
    }
    assert SetOf(plan.leaves[..0]) == {};
    SamePlan(n, n.(phase := Leaves(n.phase.held, plan, 0)), n.phase.held, plan);
    hide Published, OldRoot, TreeOk, DataSet, SetOf, PlanOk;
  }

  lemma SamePlan(n: Node, n': Node, held: Held, plan: Loaded)
    requires PlanOk(n, held, plan) && n'.root == n.root && n'.tree == n.tree
    ensures PlanOk(n', held, plan)
  {
  }

  lemma MakePlanStep(s: State, i: nat, plan: Loaded)
    requires Inv(s) && Enabled(s, MakePlan(i, plan))
    ensures Inv(Do(s, MakePlan(i, plan)))
  {
    hide Inv, NodeOk, Claim, Meta, MayBeDirty, PlanOk, DataBlocks;
    var s' := Do(s, MakePlan(i, plan));
    InvNode(s, i);
    PlannedNode(s, s.nodes[i], plan);
    SameNodeOk(s, s', s'.nodes[i]);
    OneNodeStep(s, s', i, s'.nodes[i]);
  }

  // Writing the next leaf.

  lemma OldRootMonotone(disk: Disk, root: nat, was: Loaded, plan: Loaded, k: nat, k': nat)
    requires OldRoot(disk, root, was, plan, k) && k <= k'
    ensures OldRoot(disk, root, was, plan, k')
  {
    hide LeafCount, RootFor, HoldsChunk;
  }

  /** Leaf w of the plan is old leaf w, or no old leaf at all. */
  lemma PlanLeafPosition(n: Node, held: Held, plan: Loaded, w: nat, j: nat)
    requires TreeOk(n.root, n.tree) && PlanOk(n, held, plan) && TreeBlocks(n.tree) !! held.All()
    requires w < |plan.leaves| && j < |n.tree.leaves| && n.tree.leaves[j] == plan.leaves[w]
    ensures j == w
  {
    hide DataSet, LeafCount, Canonical;
    AllInLeaves(n.tree.leaves);
    if w < |n.tree.leaves| {
      assert n.tree.leaves[w] == n.tree.leaves[j];
    }
  }

  lemma LeafWriteOldRoot(disk: Disk, n: Node, held: Held, plan: Loaded, w: nat, k: nat)
    requires TreeOk(n.root, n.tree) && PlanOk(n, held, plan) && TreeBlocks(n.tree) !! held.All()
    requires OldRoot(disk, n.root, n.tree, plan, k) && w < k && w < |plan.leaves| && w * PER_LEAF < |plan.extents|
    ensures OldRoot(disk[plan.leaves[w] := Leaf(Chunk(plan.extents, w))], n.root, n.tree, plan, k)
  {
    hide LeafCount, RootFor, DataSet, SetOf, Canonical, Chunk;
    var leaf := plan.leaves[w];
    var disk' := disk[leaf := Leaf(Chunk(plan.extents, w))];
    assert leaf != n.root;
    forall j | 0 <= j < |n.tree.leaves|
      ensures HoldsChunk(disk', n.tree.leaves[j], n.tree.extents, j)
        || (j < k && j < |plan.leaves| && HoldsChunk(disk', n.tree.leaves[j], plan.extents, j))
    {
      if n.tree.leaves[j] == leaf {
        PlanLeafPosition(n, held, plan, w, j);
      }
    }
  }

  lemma LeafWriteNewLeaves(disk: Disk, plan: Loaded, w: nat)
    requires NewLeaves(disk, plan, w) && Distinct(plan.leaves) && w < |plan.leaves| && w * PER_LEAF < |plan.extents|
    ensures NewLeaves(disk[plan.leaves[w] := Leaf(Chunk(plan.extents, w))], plan, w + 1)
  {
    hide Chunk;
    var disk' := disk[plan.leaves[w] := Leaf(Chunk(plan.extents, w))];
    forall j | 0 <= j < w + 1 && j < |plan.leaves| ensures HoldsChunk(disk', plan.leaves[j], plan.extents, j) {
      if j < w {
        assert HoldsChunk(disk, plan.leaves[j], plan.extents, j) && plan.leaves[j] != plan.leaves[w];
      }
    }
  }

  lemma PlanDistinct(n: Node, held: Held, plan: Loaded)
    requires PlanOk(n, held, plan)
    ensures Distinct(plan.leaves) && n.root !in plan.leaves
  {
  }

  /** The tree's own part of the invariant after leaf w of the plan is in the cache. */
  lemma LeafWrittenInv(c: Disk, d: Disk, born: bool, n: Node, w: nat)
    requires NodeInv(c, d, born, n) && n.phase.Leaves? && n.phase.written == w < |n.phase.plan.leaves|
    requires w * PER_LEAF < |n.phase.plan.extents|
    ensures NodeInv(c[n.phase.plan.leaves[w] := Leaf(Chunk(n.phase.plan.extents, w))], d, born, n.(phase := n.phase.(written := w + 1)))
  {
    hide OldRoot, NewLeaves, DataSet, SetOf, PlanOk, TreeOk, Chunk;
    var plan, held := n.phase.plan, n.phase.held;
    PlanDistinct(n, held, plan);
    OldRootMonotone(c, n.root, n.tree, plan, w, w + 1);
    LeafWriteOldRoot(c, n, held, plan, w, w + 1);
    LeafWriteNewLeaves(c, plan, w);
    if born {
      OldRootMonotone(d, n.root, n.tree, plan, w, w + 1);
    }
    SamePlan(n, n.(phase := n.phase.(written := w + 1)), held, plan);
  }

  /** One more leaf counts as metadata and may be dirty. */
  lemma LeafWrittenSets(n: Node, w: nat)
    requires n.phase.Leaves? && n.phase.written == w < |n.phase.plan.leaves|
    ensures var n' := n.(phase := n.phase.(written := w + 1));
      var leaf := n.phase.plan.leaves[w];
      && Meta(n') == Meta(n) + {leaf} && MayBeDirty(n') == MayBeDirty(n) + {leaf} && Claim(n') == Claim(n)
      && (w < |n.tree.leaves| && n.tree.leaves[w] == leaf ==> leaf in Meta(n))
  {
    hide DataSet;
    var p := n.phase.plan.leaves;
    assert p[..w + 1] == p[..w] + [p[w]];
  }

  /** The cached block is now chunk w, whether it was written or found unchanged. */
  lemma LeafWrittenNode(s: State, n: Node, w: nat, cache': Disk, dirty': set<nat>)
    requires NodeOk(s, n) && n.phase.Leaves? && n.phase.written == w < |n.phase.plan.leaves|
    requires w * PER_LEAF < |n.phase.plan.extents|
    requires cache' == s.cache[n.phase.plan.leaves[w] := Leaf(Chunk(n.phase.plan.extents, w))]
    requires dirty' == s.dirty + {n.phase.plan.leaves[w]} || (dirty' == s.dirty && cache' == s.cache && w < |n.tree.leaves|)
    ensures var n' := n.(phase := n.phase.(written := w + 1));
      && NodeOk(s.(cache := cache', dirty := dirty'), n') && Claim(n') == Claim(n) && n.phase.plan.leaves[w] in Claim(n)
      && cache'.Keys == s.cache.Keys
      && MayBeDirty(n') == MayBeDirty(n) + {n.phase.plan.leaves[w]} && DataBlocks(n') == DataBlocks(n)
  {
    hide NodeInv, Claim, Meta, MayBeDirty, Chunk, DataSet;
    LeafWrittenInv(s.cache, s.durable, n.root !in s.unborn, n, w);
    LeafWrittenSets(n, w);
    PlanPosition(s.cache, s.durable, n.root !in s.unborn, n, w);
  }

  lemma PlanPosition(c: Disk, d: Disk, born: bool, n: Node, w: nat)
    requires NodeInv(c, d, born, n) && n.phase.Leaves? && w < |n.phase.plan.leaves|
    ensures n.phase.plan.leaves[w] in Claim(n) && (w < |n.tree.leaves| ==> n.tree.leaves[w] == n.phase.plan.leaves[w])
  {
    hide OldRoot, NewLeaves, DataSet, SetOf, TreeOk;
    PlanLeavesClaimed(n, n.phase.held, n.phase.plan);
  }

  lemma WriteLeafIs(s: State, i: nat)
    requires Enabled(s, WriteLeaf(i))
    ensures MayPhase(s, WriteLeaf(i)) && Do(s, WriteLeaf(i)) == DoWriteLeaf(s, i)
  {
    hide DoWriteLeaf, LeafCount, MayDisk, MayInode, DoDisk, DoInode;
  }

  lemma LeafWriteFields(s: State, i: nat)
    requires MayPhase(s, WriteLeaf(i))
    ensures i in s.nodes && s.nodes[i].phase.Leaves? && s.nodes[i].phase.written < |s.nodes[i].phase.plan.leaves|
    ensures s.nodes[i].phase.written < LeafCount(|s.nodes[i].phase.plan.extents|)
    ensures var s', n := DoWriteLeaf(s, i), s.nodes[i];
      var w, plan := n.phase.written, n.phase.plan;
      && w * PER_LEAF < |plan.extents|
      && s' == s.(nodes := s.nodes[i := n.(phase := n.phase.(written := w + 1))], cache := s'.cache, dirty := s'.dirty)
      && s'.cache == s.cache[plan.leaves[w] := Leaf(Chunk(plan.extents, w))]
      && (s'.dirty == s.dirty + {plan.leaves[w]} || (s'.dirty == s.dirty && s'.cache == s.cache && w < |n.tree.leaves|))
  {
    LeafCountBounds(|s.nodes[i].phase.plan.extents|, s.nodes[i].phase.written);
    hide LeafCount, Chunk, DoPhase;
  }

  lemma WriteLeafStep(s: State, i: nat)
    requires Inv(s) && Enabled(s, WriteLeaf(i))
    ensures Inv(Do(s, WriteLeaf(i)))
  {
    hide Inv, Do, Enabled, MayPhase, DoWriteLeaf, LeafCount, Chunk;
    WriteLeafIs(s, i);
    LeafWriteFields(s, i);
    LeafCached(s, DoWriteLeaf(s, i), i);
  }

  lemma LeafCached(s: State, s': State, i: nat)
    requires Inv(s) && i in s.nodes && s.nodes[i].phase.Leaves? && s.nodes[i].phase.written < |s.nodes[i].phase.plan.leaves|
    requires var n := s.nodes[i];
      var w, plan := n.phase.written, n.phase.plan;
      && w * PER_LEAF < |plan.extents|
      && s' == s.(nodes := s.nodes[i := n.(phase := n.phase.(written := w + 1))], cache := s'.cache, dirty := s'.dirty)
      && s'.cache == s.cache[plan.leaves[w] := Leaf(Chunk(plan.extents, w))]
      && (s'.dirty == s.dirty + {plan.leaves[w]} || (s'.dirty == s.dirty && s'.cache == s.cache && w < |n.tree.leaves|))
    ensures Inv(s')
  {
    hide Inv, NodeOk, Claim, Meta, MayBeDirty, Chunk, DataBlocks;
    InvNode(s, i);
    LeafWrittenNode(s, s.nodes[i], s.nodes[i].phase.written, s'.cache, s'.dirty);
    SameNodeOk(s.(cache := s'.cache, dirty := s'.dirty), s', s'.nodes[i]);
    OneNodeStep(s, s', i, s'.nodes[i]);
  }

  // Waiting for the leaves, writing the root, waiting for the root.

  lemma CleanLeaves(c: Disk, d: Disk, plan: Loaded)
    requires NewLeaves(c, plan, |plan.leaves|)
    requires forall j :: 0 <= j < |plan.leaves| ==> plan.leaves[j] in d && plan.leaves[j] in c && c[plan.leaves[j]] == d[plan.leaves[j]]
    ensures NewLeaves(d, plan, |plan.leaves|)
  {
    hide Chunk;
    forall j | 0 <= j < |plan.leaves| ensures HoldsChunk(d, plan.leaves[j], plan.extents, j) {
      assert HoldsChunk(c, plan.leaves[j], plan.extents, j);
    }
  }

  lemma AwaitedLeavesNode(s: State, n: Node)
    requires NodeOk(s, n) && n.phase.Leaves? && n.phase.written == |n.phase.plan.leaves|
    requires SetOf(n.phase.plan.leaves) !! s.dirty
    ensures var n' := n.(phase := LeavesDurable(n.phase.held, n.phase.plan));
      && NodeOk(s, n') && Claim(n') == Claim(n)
      && MayBeDirty(n') == {n.root} && MayBeDirty(n) == {n.root} + SetOf(n.phase.plan.leaves) && DataBlocks(n') == DataBlocks(n)
  {
    var plan, held := n.phase.plan, n.phase.held;
    var n' := n.(phase := LeavesDurable(held, plan));
    assert plan.leaves[..|plan.leaves|] == plan.leaves;
    AllInLeaves(plan.leaves);
    assert Meta(n') == Meta(n);
    CleanLeaves(s.cache, s.durable, plan);
    SamePlan(n, n', held, plan);
    hide OldRoot, NewLeaves, DataSet, SetOf, PlanOk, TreeOk;
  }

  lemma AwaitLeavesStep(s: State, i: nat)
    requires Inv(s) && Enabled(s, AwaitLeaves(i))
    ensures Inv(Do(s, AwaitLeaves(i)))
  {
    hide Inv, NodeOk, Claim, Meta, MayBeDirty, SetOf, DataBlocks;
    var s' := Do(s, AwaitLeaves(i));
    InvNode(s, i);
    AwaitedLeavesNode(s, s.nodes[i]);
    SameNodeOk(s, s', s'.nodes[i]);
    OneNodeStep(s, s', i, s'.nodes[i]);
  }

  lemma RootWriteNewLeaves(disk: Disk, root: nat, plan: Loaded, b: Block, k: nat)
    requires NewLeaves(disk, plan, k) && root !in plan.leaves
    ensures NewLeaves(disk[root := b], plan, k)
  {
    hide Chunk;
    forall j | 0 <= j < k && j < |plan.leaves| ensures HoldsChunk(disk[root := b], plan.leaves[j], plan.extents, j) {
      assert HoldsChunk(disk, plan.leaves[j], plan.extents, j);
    }
  }

  lemma RootWrittenNode(s: State, n: Node)
    requires NodeOk(s, n) && n.phase.LeavesDurable?
    requires |n.phase.plan.leaves| == LeafCount(|n.phase.plan.extents|)
    ensures var n' := n.(phase := RootDirty(n.phase.held, n.phase.plan));
      var cache' := s.cache[n.root := RootFor(n.phase.plan.extents, n.phase.plan.leaves)];
      && NodeOk(s.(cache := cache', dirty := s.dirty + {n.root}), n') && Claim(n') == Claim(n) && n.root in Claim(n)
      && cache'.Keys == s.cache.Keys && MayBeDirty(n') == {n.root} == MayBeDirty(n) && DataBlocks(n') == DataBlocks(n)
  {
    var plan, held := n.phase.plan, n.phase.held;
    var n' := n.(phase := RootDirty(held, plan));
    RootWriteNewLeaves(s.cache, n.root, plan, RootFor(plan.extents, plan.leaves), |plan.leaves|);
    SamePlan(n, n', held, plan);
    hide OldRoot, NewLeaves, DataSet, SetOf, PlanOk, TreeOk, RootFor, LeafCount;
  }

  lemma WriteRootStep(s: State, i: nat)
    requires Inv(s) && Enabled(s, WriteRoot(i))
    ensures Inv(Do(s, WriteRoot(i)))
  {
    hide Inv, NodeOk, Claim, Meta, MayBeDirty, RootFor, LeafCount, DataBlocks;
    var s' := Do(s, WriteRoot(i));
    InvNode(s, i);
    RootWrittenNode(s, s.nodes[i]);
    SameNodeOk(s.(cache := s'.cache, dirty := s'.dirty), s', s'.nodes[i]);
    OneNodeStep(s, s', i, s'.nodes[i]);
  }

  lemma PublishedOnceClean(c: Disk, d: Disk, root: nat, plan: Loaded)
    requires Published(c, root, plan) && NewLeaves(d, plan, |plan.leaves|)
    requires root in c && root in d && c[root] == d[root]
    ensures Published(d, root, plan)
  {
    hide RootFor, LeafCount;
  }

  /** What the edit leaves spare, together with the new tree, is what was claimed before. */
  lemma SpareBlocks(n: Node)
    requires n.phase.RootDirty? && TreeOk(n.root, n.tree) && PlanOk(n, n.phase.held, n.phase.plan) && Apart(n.phase)
    requires TreeBlocks(n.tree) !! Extra(n.phase) && n.root !in Extra(n.phase)
    ensures var n' := Republished(n);
      && Claim(n') == Claim(n) && n'.root !in Extra(n'.phase) && TreeBlocks(n'.tree) !! Extra(n'.phase) && Apart(n'.phase)
  {
    hide DataSet, Canonical, Distinct, LeafCount;
    PlanLeafSets(n);
    NamedClaimed(n);
    RootNotInTree(n.root, n.tree);
  }

  lemma PlanLeafSets(n: Node)
    requires n.phase.RootDirty? && PlanOk(n, n.phase.held, n.phase.plan)
    ensures SetOf(n.phase.plan.leaves) <= SetOf(n.tree.leaves) + n.phase.held.leaves
  {
    forall x | x in SetOf(n.phase.plan.leaves) ensures x in SetOf(n.tree.leaves) + n.phase.held.leaves {
      var j :| 0 <= j < |n.phase.plan.leaves| && n.phase.plan.leaves[j] == x;
      if j < |n.tree.leaves| {
        assert n.tree.leaves[j] == x;
      }
    }
  }

  lemma RootNotInTree(root: nat, t: Loaded)
    requires TreeOk(root, t)
    ensures root !in TreeBlocks(t) && SetOf(t.leaves) !! DataSet(t.extents)
  {
  }

  lemma AwaitedRootNode(s: State, n: Node)
    requires NodeOk(s, n) && n.phase.RootDirty? && n.root !in s.dirty && s.unborn <= s.dirty
    ensures NodeOk(s, Republished(n)) && Claim(Republished(n)) == Claim(n)
    ensures MayBeDirty(Republished(n)) == {n.root} == MayBeDirty(n) && DataBlocks(n) <= DataBlocks(Republished(n))
  {
    var plan := n.phase.plan;
    assert n.root in Meta(n);
    PublishedOnceClean(s.cache, s.durable, n.root, plan);
    SpareBlocks(n);
    assert Meta(Republished(n)) <= Meta(n);
    hide OldRoot, NewLeaves, Published, DataSet, SetOf, Claim, LeafCount;
  }

  lemma AwaitRootStep(s: State, i: nat)
    requires Inv(s) && Enabled(s, AwaitRoot(i))
    ensures Inv(Do(s, AwaitRoot(i)))
  {
    hide Inv, NodeOk, Claim, Meta, MayBeDirty, TreeBlocks, DataBlocks;
    var s' := Do(s, AwaitRoot(i));
    InvNode(s, i);
    AwaitedRootNode(s, s.nodes[i]);
    SameNodeOk(s, s', s'.nodes[i]);
    OneNodeStep(s, s', i, s'.nodes[i]);
  }

  // Write-back of one block, at any time.

  /** A written leaf of the plan reaches the device. */
  lemma LeafReachesDevice(c: Disk, d: Disk, born: bool, n: Node, b: nat)
    requires NodeInv(c, d, born, n) && n.phase.Leaves? && b in MayBeDirty(n) && b != n.root
    ensures b in c && NodeInv(c, d[b := c[b]], born, n)
  {
    var plan, held, k := n.phase.plan, n.phase.held, n.phase.written;
    var w :| 0 <= w < k && plan.leaves[w] == b;
    assert HoldsChunk(c, plan.leaves[w], plan.extents, w);
    if born {
      LeafWriteOldRoot(d, n, held, plan, w, k);
    }
    hide OldRoot, NewLeaves, DataSet, SetOf, PlanOk, TreeOk, Chunk;
  }

  lemma OldRootReachesDevice(c: Disk, d: Disk, born: bool, root: nat, was: Loaded, plan: Loaded, k: nat)
    requires OldRoot(c, root, was, plan, k) && (born ==> OldRoot(d, root, was, plan, k)) && (!born ==> was.leaves == [])
    requires root !in was.leaves
    ensures OldRoot(d[root := c[root]], root, was, plan, k)
  {
    hide LeafCount, RootFor, Chunk;
  }

  lemma PublishedReachesDevice(c: Disk, d: Disk, born: bool, root: nat, t: Loaded)
    requires Published(c, root, t) && (born ==> Published(d, root, t)) && (!born ==> t.leaves == []) && root !in t.leaves
    ensures Published(d[root := c[root]], root, t)
  {
    if born {
      RootWriteNewLeaves(d, root, t, c[root], |t.leaves|);
    }
  }

  /** The root as cached reaches the device; from now on the device's copy counts. */
  lemma RootReachesDevice(c: Disk, d: Disk, born: bool, n: Node)
    requires NodeInv(c, d, born, n) && n.root in c
    ensures NodeInv(c, d[n.root := c[n.root]], true, n)
  {
    hide OldRoot, NewLeaves, Published, DataSet, SetOf, LeafCount, Canonical, Distinct;
    match n.phase
    case Leaves(held, plan, written) => OldRootReachesDevice(c, d, born, n.root, n.tree, plan, written);
    case LeavesDurable(held, plan) =>
      OldRootReachesDevice(c, d, born, n.root, n.tree, plan, |plan.leaves|);
      RootWriteNewLeaves(d, n.root, plan, c[n.root], |plan.leaves|);
    case RootDirty(held, plan) =>
      RootWriteNewLeaves(d, n.root, plan, c[n.root], |plan.leaves|);
      PublishedOnceClean(c, d[n.root := c[n.root]], n.root, plan);
    case _ => PublishedReachesDevice(c, d, born, n.root, n.tree);
  }

  lemma WrittenBackNode(s: State, n: Node, b: nat)
    requires NodeOk(s, n) && b in MayBeDirty(n) && s.durable.Keys == s.cache.Keys && b in s.cache
    ensures var s' := s.(durable := s.durable[b := s.cache[b]], dirty := s.dirty - {b}, unborn := s.unborn - {b});
      NodeOk(s', n) && b in Claim(n) && s'.durable.Keys == s.cache.Keys
  {
    hide NodeInv, Meta, Claim, MayBeDirty;
    var born := n.root !in s.unborn;
    MetaClaimed(s.cache, s.durable, born, n);
    var durable' := s.durable[b := s.cache[b]];
    assert durable'.Keys == s.cache.Keys;
    if b == n.root {
      RootReachesDevice(s.cache, s.durable, born, n);
    } else {
      DirtyLeaf(n, b);
      LeafReachesDevice(s.cache, s.durable, born, n, b);
    }
  }

  lemma WritebackIs(s: State, b: nat)
    requires b in s.dirty && b in s.cache
    ensures Enabled(s, Writeback(b))
    ensures Do(s, Writeback(b)) == s.(durable := s.durable[b := s.cache[b]], dirty := s.dirty - {b}, unborn := s.unborn - {b})
  {
    hide MayPhase, MayInode, DoPhase, DoInode, DataBlocks, SideBlocks;
  }

  lemma AwaitLeavesIs(s: State, i: nat)
    requires i in s.nodes && s.nodes[i].phase.Leaves? && s.nodes[i].phase.written == |s.nodes[i].phase.plan.leaves|
    requires SetOf(s.nodes[i].phase.plan.leaves) !! s.dirty
    ensures Enabled(s, AwaitLeaves(i))
    ensures Do(s, AwaitLeaves(i)) == WithPhase(s, i, LeavesDurable(s.nodes[i].phase.held, s.nodes[i].phase.plan))
  {
    hide MayDisk, MayInode, DoDisk, DoInode, SetOf;
  }

  lemma WriteRootIs(s: State, i: nat)
    requires i in s.nodes && s.nodes[i].phase.LeavesDurable?
    requires |s.nodes[i].phase.plan.leaves| == LeafCount(|s.nodes[i].phase.plan.extents|)
    ensures Enabled(s, WriteRoot(i))
    ensures var n := s.nodes[i];
      Do(s, WriteRoot(i)) == WithPhase(s, i, RootDirty(n.phase.held, n.phase.plan))
        .(cache := s.cache[n.root := RootFor(n.phase.plan.extents, n.phase.plan.leaves)], dirty := s.dirty + {n.root})
  {
    hide MayDisk, MayInode, DoDisk, DoInode, RootFor, LeafCount;
  }

  lemma AwaitRootIs(s: State, i: nat)
    requires i in s.nodes && s.nodes[i].phase.RootDirty? && s.nodes[i].root !in s.dirty
    ensures Enabled(s, AwaitRoot(i)) && Do(s, AwaitRoot(i)) == s.(nodes := s.nodes[i := Republished(s.nodes[i])])
  {
    hide MayPhase, MayDisk, DoPhase, DoDisk, Republished;
  }

  lemma DirtyLeaf(n: Node, b: nat)
    requires b in MayBeDirty(n) && b != n.root
    ensures n.phase.Leaves?
  {
  }

  lemma WritebackTreeStep(s: State, b: nat, i: nat)
    requires Inv(s) && Enabled(s, Writeback(b)) && i in s.nodes && b in MayBeDirty(s.nodes[i])
    ensures Inv(Do(s, Writeback(b)))
  {
    hide Inv, NodeOk, Claim, Meta, MayBeDirty, DataBlocks;
    WritebackIs(s, b);
    hide Do;
    var s' := Do(s, Writeback(b));
    InvNode(s, i);
    WrittenBackNode(s, s.nodes[i], b);
    assert s'.nodes == s.nodes[i := s.nodes[i]];
    OneNodeStep(s, s', i, s.nodes[i]);
  }

  /** A step that changes one block outside every tree. */
  lemma SideTrees(s: State, s': State, bs: set<nat>)
    requires TreesOk(s) && s'.nodes == s.nodes && SameBeyond(s, s', bs) && s'.free <= s.free
    requires forall i :: i in s.nodes ==> bs !! Claim(s.nodes[i])
    ensures TreesOk(s')
  {
    hide NodeOk, Claim, SameBeyond;
    BeyondKeys(s, s', bs);
    forall j | j in s.nodes ensures NodeOk(s', s.nodes[j]) {
      OtherNode(s, s', bs, s.nodes[j]);
    }
  }

  lemma FreeNotClaimed(s: State, bs: set<nat>)
    requires TreesOk(s) && bs <= s.free
    ensures forall i :: i in s.nodes ==> bs !! Claim(s.nodes[i])
  {
    hide Claim, NodeInv, Meta;
    forall i | i in s.nodes ensures bs !! Claim(s.nodes[i]) {
      assert NodeOk(s, s.nodes[i]);
    }
  }

  /** A block no tree has reaches the device. */
  lemma WritebackSideStep(s: State, b: nat)
    requires Inv(s) && Enabled(s, Writeback(b)) && forall i :: i in s.nodes ==> b !in Claim(s.nodes[i])
    ensures Inv(Do(s, Writeback(b)))
  {
    hide TreesOk, KindsOk, SidesOk, LeavingOk, SideBlocks, Claim, DirtyOk, MayPhase, MayInode, DoPhase, DoInode, DataBlocks;
    var s' := Do(s, Writeback(b));
    assert SameBeyond(s, s', {b});
    SideTrees(s, s', {b});
    SameSides(s, s');
    SameKinds(s, s');
    SameLeaving(s, s');
    forall x | x in s'.dirty ensures DirtyOk(s', x) {
      SameDirty(s, s', x);
    }
  }

  lemma SameDirty(s: State, s': State, b: nat)
    requires DirtyOk(s, b) && s'.nodes == s.nodes && s'.leaving == s.leaving && s'.free <= s.free
    requires forall i :: i in s.sides ==> i in s'.sides && s'.sides[i].kind == s.sides[i].kind
    ensures DirtyOk(s', b)
  {
    hide MayBeDirty, Claim, DataBlocks;
  }

  /** A directory's block reaches the device. */
  lemma WritebackDirStep(s: State, b: nat, i: nat)
    requires Inv(s) && Enabled(s, Writeback(b)) && i in s.nodes && b in DataBlocks(s.nodes[i])
    ensures Inv(Do(s, Writeback(b)))
  {
    hide Inv, NodeOk, Claim, Meta, MayBeDirty, DataBlocks;
    var s' := Do(s, Writeback(b));
    InvNode(s, i);
    DataWrittenNode(s, s.nodes[i], b, s.cache[b]);
    CleanDataNode(s.(durable := s'.durable), s.nodes[i], b);
    SameNodeOk(s.(durable := s'.durable, dirty := s'.dirty, unborn := s'.unborn), s', s.nodes[i]);
    assert s'.nodes == s.nodes[i := s.nodes[i]];
    OneNodeStep(s, s', i, s.nodes[i]);
  }

  /** Whether a data block is dirty is no matter of its tree. */
  lemma CleanDataNode(s: State, n: Node, b: nat)
    requires NodeOk(s, n) && b in DataBlocks(n)
    ensures NodeOk(s.(dirty := s.dirty - {b}, unborn := s.unborn - {b}), n)
    ensures NodeOk(s.(dirty := s.dirty + {b}), n)
  {
    hide DataBlocks, NodeInv, Looks, Claim;
    var born := n.root !in s.unborn;
    LooksInside(s.cache, s.durable, born, n);
    MetaLooks(s.cache, s.durable, born, n);
    RootLooks(n);
  }

  lemma RootLooks(n: Node)
    ensures n.root in Looks(n)
  {
  }

  lemma WriteDirStep(s: State, i: nat, b: nat, content: Block)
    requires Inv(s) && Enabled(s, WriteDir(i, b, content))
    ensures Inv(Do(s, WriteDir(i, b, content)))
  {
    hide Inv, NodeOk, Claim, Meta, MayBeDirty, DataBlocks;
    var s' := Do(s, WriteDir(i, b, content));
    InvNode(s, i);
    DataCachedNode(s, s.nodes[i], b, content);
    CleanDataNode(s.(cache := s'.cache), s.nodes[i], b);
    SameNodeOk(s.(cache := s'.cache, dirty := s'.dirty), s', s.nodes[i]);
    assert s'.nodes == s.nodes[i := s.nodes[i]];
    OneNodeStep(s, s', i, s.nodes[i]);
  }

  lemma DataCachedNode(s: State, n: Node, b: nat, content: Block)
    requires NodeOk(s, n) && b in DataBlocks(n) && b in s.cache
    ensures NodeOk(s.(cache := s.cache[b := content]), n) && b in Claim(n) && s.cache[b := content].Keys == s.cache.Keys
  {
    hide DataBlocks, SetOf, NodeInv, Looks, Claim;
    var born := n.root !in s.unborn;
    LooksInside(s.cache, s.durable, born, n);
    MetaLooks(s.cache, s.durable, born, n);
    DataClaimed(n);
    var cache' := s.cache[b := content];
    assert cache'.Keys == s.cache.Keys;
    NodeInvFrame(s.cache, s.durable, cache', s.durable, born, n);
  }

  lemma SameKinds(s: State, s': State)
    requires KindsOk(s) && s'.nodes == s.nodes && s'.sides == s.sides && s'.counts == s.counts
    ensures KindsOk(s')
  {
  }

  lemma WritebackStep(s: State, b: nat)
    requires Inv(s) && Enabled(s, Writeback(b))
    ensures Inv(Do(s, Writeback(b)))
  {
    hide TreesOk, SidesOk, KindsOk, LeavingOk, SideBlocks, MayBeDirty, Claim, DataBlocks, Do;
    assert DirtyOk(s, b);
    if i :| i in s.nodes && b in Claim(s.nodes[i]) {
      if b in MayBeDirty(s.nodes[i]) {
        WritebackTreeStep(s, b, i);
      } else {
        WritebackDirStep(s, b, i);
      }
    } else {
      WritebackSideStep(s, b);
    }
  }

  lemma WriteSideStep(s: State, i: nat, b: nat, content: Block)
    requires Inv(s) && Enabled(s, WriteSide(i, b, content))
    ensures Inv(Do(s, WriteSide(i, b, content)))
  {
    hide TreesOk, KindsOk, SidesOk, LeavingOk, SideBlocks, Claim, DirtyOk, MayPhase, MayInode, DoPhase, DoInode, DataBlocks;
    var s' := Do(s, WriteSide(i, b, content));
    SideCached(s, i, b);
    assert s'.cache.Keys == s.cache.Keys;
    assert SameBeyond(s, s', {b});
    SideTrees(s, s', {b});
    SameSides(s, s');
    SameKinds(s, s');
    SameLeaving(s, s');
    forall x | x in s'.dirty ensures DirtyOk(s', x) {
      if x in s.dirty {
        SameDirty(s, s', x);
      } else {
        SideIsDirtyOk(s, i, x);
        SameDirty(s, s', x);
      }
    }
  }

  lemma SideCached(s: State, i: nat, b: nat)
    requires SidesOk(s) && i in s.sides && b in SideBlocks(s.sides[i])
    ensures b in s.cache && forall j :: j in s.nodes ==> {b} !! Claim(s.nodes[j])
  {
    hide Claim, SideBlocks;
  }

  lemma SideIsDirtyOk(s: State, i: nat, b: nat)
    requires SidesOk(s) && LeavingOk(s) && i in s.sides && b in SideBlocks(s.sides[i])
    ensures DirtyOk(s, b)
  {
    hide Claim, SideBlocks;
    forall j | j in s.leaving ensures b !in s.leaving[j].data {
      assert b !in s.leaving[j].Left();
    }
  }

  /** An inode's side block comes from the free set; nothing else moves. */
  lemma SideGrows(s: State, s': State, i: nat, d: Side, bs: set<nat>)
    requires Inv(s) && bs <= s.free && s' == s.(sides := s.sides[i := d], free := s.free - bs, counts := s'.counts)
    requires SideBlocks(d) == (if i in s.sides then SideBlocks(s.sides[i]) else {}) + bs
    requires d.link.Some? ==> d.xattr != d.link && d.kind.Symlink?
    requires i in s.sides ==> d.kind == s.sides[i].kind
    requires i !in s.sides ==> !HasTreeKind(d.kind) && i !in s.nodes
    requires s'.counts.Keys == s.counts.Keys + {i} && i !in s.leaving
    ensures Inv(s')
  {
    hide TreesOk, KindsOk, SidesOk, LeavingOk, DirtyOk, SideBlocks;
    FreeNotClaimed(s, bs);
    assert SameBeyond(s, s', {});
    SideTrees(s, s', {});
    GrownSides(s, s', i, d, bs);
    GrownKinds(s, s', i, d);
    GrownLeaving(s, s', i, d, bs);
    forall x | x in s'.dirty ensures DirtyOk(s', x) {
      SameDirty(s, s', x);
    }
  }

  lemma GrownLeaving(s: State, s': State, i: nat, d: Side, bs: set<nat>)
    requires LeavingOk(s) && bs <= s.free && s'.sides == s.sides[i := d] && s'.free == s.free - bs && i !in s.leaving
    requires s'.cache == s.cache && s'.nodes == s.nodes && s'.leaving == s.leaving
    requires SideBlocks(d) == (if i in s.sides then SideBlocks(s.sides[i]) else {}) + bs
    ensures LeavingOk(s')
  {
    hide SideBlocks, Claim, Leaving.Left;
  }

  lemma AliveNotLeaving(s: State, i: nat)
    requires Inv(s) && i in s.sides
    ensures i !in s.leaving
  {
    hide TreesOk, SidesOk, KindsOk, SideBlocks, Claim;
  }

  lemma GrownSides(s: State, s': State, i: nat, d: Side, bs: set<nat>)
    requires SidesOk(s) && bs <= s.free <= s.cache.Keys && s'.sides == s.sides[i := d] && s'.free == s.free - bs
    requires s'.cache == s.cache && s'.nodes == s.nodes && forall j :: j in s.nodes ==> bs !! Claim(s.nodes[j])
    requires SideBlocks(d) == (if i in s.sides then SideBlocks(s.sides[i]) else {}) + bs
    requires i !in s.sides ==> forall j :: j in s.nodes ==> bs !! Claim(s.nodes[j])
    requires d.link.Some? ==> d.xattr != d.link
    ensures SidesOk(s')
  {
    hide SideBlocks, Claim;
  }

  lemma GrownKinds(s: State, s': State, i: nat, d: Side)
    requires KindsOk(s) && s'.nodes == s.nodes && s'.sides == s.sides[i := d] && s'.counts.Keys == s.counts.Keys + {i}
    requires d.link.Some? ==> d.kind.Symlink?
    requires if i in s.sides then d.kind == s.sides[i].kind else !HasTreeKind(d.kind) && i !in s.nodes
    ensures KindsOk(s')
  {
  }

  lemma CreateSymlinkStep(s: State, i: nat, block: Option<nat>)
    requires Inv(s) && Enabled(s, CreateSymlink(i, block))
    ensures Inv(Do(s, CreateSymlink(i, block)))
  {
    hide TreesOk, SidesOk, LeavingOk, DirtyOk, Claim;
    var s' := Do(s, CreateSymlink(i, block));
    SideGrows(s, s', i, Side(Symlink, block, None), if block.Some? then {block.value} else {});
  }

  lemma CreateSpecialStep(s: State, i: nat)
    requires Inv(s) && Enabled(s, CreateSpecial(i))
    ensures Inv(Do(s, CreateSpecial(i)))
  {
    hide TreesOk, SidesOk, LeavingOk, DirtyOk, Claim;
    var s' := Do(s, CreateSpecial(i));
    assert s.free - {} == s.free;
    SideGrows(s, s', i, Side(Special, None, None), {});
  }

  lemma TakeXattrStep(s: State, i: nat, b: nat)
    requires Inv(s) && Enabled(s, TakeXattr(i, b))
    ensures Inv(Do(s, TakeXattr(i, b)))
  {
    hide TreesOk, SidesOk, KindsOk, LeavingOk, DirtyOk, Claim;
    var s' := Do(s, TakeXattr(i, b));
    AliveNotLeaving(s, i);
    LinkInUse(s, i, b);
    assert s'.counts.Keys == s.counts.Keys + {i};
    SideGrows(s, s', i, s.sides[i].(xattr := Some(b)), {b});
  }

  lemma LinkInUse(s: State, i: nat, b: nat)
    requires SidesOk(s) && KindsOk(s) && i in s.sides && b in s.free
    ensures s.sides[i].link.Some? ==> s.sides[i].link.value != b && s.sides[i].kind.Symlink?
  {
    assert s.sides[i].link.Some? ==> s.sides[i].link.value in SideBlocks(s.sides[i]);
  }

  // File data reaching the device.

  lemma MetaLooks(c: Disk, d: Disk, born: bool, n: Node)
    requires NodeInv(c, d, born, n)
    ensures Meta(n) <= Looks(n)
  {
    hide OldRoot, NewLeaves, Published, DataSet, TreeOk, PlanOk;
  }

  lemma DataWrittenNode(s: State, n: Node, b: nat, content: Block)
    requires NodeOk(s, n) && b in DataBlocks(n) && s.durable.Keys == s.cache.Keys && b in s.durable
    ensures NodeOk(s.(durable := s.durable[b := content]), n) && b in Claim(n)
    ensures s.durable[b := content].Keys == s.durable.Keys
  {
    hide DataBlocks, SetOf, NodeInv, Looks, Claim;
    DataClaimed(n);
    var born := n.root !in s.unborn;
    LooksInside(s.cache, s.durable, born, n);
    MetaLooks(s.cache, s.durable, born, n);
    var durable' := s.durable[b := content];
    assert durable'.Keys == s.durable.Keys;
    NodeInvFrame(s.cache, s.durable, s.cache, durable', born, n);
  }

  lemma WriteDataStep(s: State, i: nat, b: nat, content: Block)
    requires Inv(s) && Enabled(s, WriteData(i, b, content))
    ensures Inv(Do(s, WriteData(i, b, content)))
  {
    hide Inv, NodeOk, Claim, Meta, MayBeDirty, DataSet;
    var s' := Do(s, WriteData(i, b, content));
    InvNode(s, i);
    assert b in DataBlocks(s.nodes[i]);
    DataWrittenNode(s, s.nodes[i], b, content);
    SameNodeOk(s.(durable := s'.durable), s', s.nodes[i]);
    assert s'.nodes == s.nodes[i := s.nodes[i]];
    OneNodeStep(s, s', i, s.nodes[i]);
  }

  // Inodes coming and going.

  lemma EmptyNodeOk(s: State, b: nat)
    requires b in s.cache && b in s.durable && s.cache[b] == Root(0, [], []) && b !in s.free
    requires b in s.dirty || s.durable[b] == s.cache[b]
    requires b !in s.unborn ==> s.durable[b] == s.cache[b]
    ensures NodeOk(s, Node(b, Loaded([], []), Idle)) && Claim(Node(b, Loaded([], []), Idle)) == {b}
  {
    assert DataSet([]) == {} && SetOf([]) == {};
    assert RootFor([], []) == Root(0, [], []);
  }

  lemma CreateStep(s: State, i: nat, kind: Kind, b: nat)
    requires Inv(s) && Enabled(s, Create(i, kind, b))
    ensures Inv(Do(s, Create(i, kind, b)))
  {
    hide TreesOk, SidesOk, KindsOk, LeavingOk, DirtyOk, NodeOk, Claim, MayBeDirty, SideBlocks;
    var s' := Do(s, Create(i, kind, b));
    CreatedTrees(s, s', i, b);
    CreatedSides(s, s', i, kind, b);
    CreatedKinds(s, s', i, kind, s'.nodes[i]);
    CreatedLeaving(s, s', i, kind, b);
    EmptyClaims(b, kind);
    FreeNotClaimed(s, {b});
    forall x | x in s'.dirty ensures DirtyOk(s', x) {
      CreatedDirty(s, s', i, kind, b, x);
    }
  }

  lemma CreatedLeaving(s: State, s': State, i: nat, kind: Kind, b: nat)
    requires LeavingOk(s) && b in s.free && i !in s.leaving && s'.free == s.free - {b} && s'.cache.Keys == s.cache.Keys
    requires s'.leaving == s.leaving
    requires s'.sides == s.sides[i := Side(kind, None, None)] && s'.nodes == s.nodes[i := Node(b, Loaded([], []), Idle)]
    ensures LeavingOk(s')
  {
    EmptyClaims(b, kind);
    hide Claim, SideBlocks;
  }

  lemma CreatedDirty(s: State, s': State, i: nat, kind: Kind, b: nat, x: nat)
    requires x == b || DirtyOk(s, x)
    requires i !in s.nodes && i !in s.sides && b in s.free && LeavingOk(s) && s'.leaving == s.leaving && s'.free == s.free - {b}
    requires s'.nodes == s.nodes[i := Node(b, Loaded([], []), Idle)] && s'.sides == s.sides[i := Side(kind, None, None)]
    requires Claim(Node(b, Loaded([], []), Idle)) == {b}
    requires forall j :: j in s.nodes ==> b !in Claim(s.nodes[j])
    ensures DirtyOk(s', x)
  {
    assert b in MayBeDirty(Node(b, Loaded([], []), Idle));
    hide MayBeDirty, Claim, DataBlocks, SideBlocks;
    forall j | j in s.leaving ensures b !in s.leaving[j].data {
      assert b !in s.leaving[j].Left();
    }
  }

  lemma CreatedTrees(s: State, s': State, i: nat, b: nat)
    requires TreesOk(s) && s.cache.Keys == s.durable.Keys && b in s.free && b in s.cache && i !in s.nodes
    requires s'.nodes == s.nodes[i := Node(b, Loaded([], []), Idle)] && s'.free == s.free - {b}
    requires s'.cache == s.cache[b := Root(0, [], [])] && s'.durable == s.durable
    requires s'.dirty == s.dirty + {b} && s'.unborn == s.unborn + {b}
    ensures TreesOk(s')
  {
    hide NodeOk, Claim;
    FreeNotClaimed(s, {b});
    assert s'.cache.Keys == s.cache.Keys;
    assert SameBeyond(s, s', {b});
    EmptyNodeOk(s', b);
    forall j | j in s.nodes ensures NodeOk(s', s.nodes[j]) {
      OtherNode(s, s', {b}, s.nodes[j]);
    }
  }

  lemma CreatedSides(s: State, s': State, i: nat, kind: Kind, b: nat)
    requires SidesOk(s) && b in s.free && i !in s.sides && s'.free == s.free - {b} && s'.cache.Keys == s.cache.Keys
    requires s'.sides == s.sides[i := Side(kind, None, None)] && s'.nodes == s.nodes[i := Node(b, Loaded([], []), Idle)]
    ensures SidesOk(s')
  {
    EmptyClaims(b, kind);
    hide Claim, SideBlocks;
  }

  lemma EmptyClaims(b: nat, kind: Kind)
    ensures Claim(Node(b, Loaded([], []), Idle)) == {b} && SideBlocks(Side(kind, None, None)) == {}
  {
    assert DataSet([]) == {} && SetOf([]) == {};
  }

  lemma CreatedKinds(s: State, s': State, i: nat, kind: Kind, n: Node)
    requires KindsOk(s) && HasTreeKind(kind) && s'.sides == s.sides[i := Side(kind, None, None)] && s'.nodes == s.nodes[i := n]
    requires s'.counts.Keys == s.counts.Keys + {i}
    ensures KindsOk(s')
  {
  }

  lemma BeginEvictStep(s: State, i: nat)
    requires Inv(s) && Enabled(s, BeginEvict(i))
    ensures Inv(Do(s, BeginEvict(i)))
  {
    hide TreesOk, SidesOk, KindsOk, LeavingOk, DirtyOk, Claim, SideBlocks, Owned;
    var s' := Do(s, BeginEvict(i));
    EvictedTrees(s, s', i);
    EvictedSides(s, s', i);
    EvictedKinds(s, s', i);
    EvictedLeaving(s, s', i);
    EvictedClean(s, i);
    forall x | x in s'.dirty ensures DirtyOk(s', x) {
      EvictedDirty(s, s', i, x);
    }
  }

  lemma EvictedTrees(s: State, s': State, i: nat)
    requires TreesOk(s) && s'.nodes == s.nodes - {i} && s'.cache == s.cache && s'.durable == s.durable
    requires s'.dirty == s.dirty && s'.unborn == s.unborn && s'.free == s.free
    ensures TreesOk(s')
  {
    hide NodeOk, Claim;
    forall j | j in s'.nodes ensures NodeOk(s', s'.nodes[j]) {
      SameNodeOk(s, s', s.nodes[j]);
    }
  }

  lemma EvictedSides(s: State, s': State, i: nat)
    requires SidesOk(s) && s'.sides == s.sides - {i} && s'.nodes == s.nodes - {i} && s'.cache == s.cache && s'.free == s.free
    ensures SidesOk(s')
  {
    hide Claim, SideBlocks;
  }

  lemma EvictedKinds(s: State, s': State, i: nat)
    requires KindsOk(s) && s'.sides == s.sides - {i} && s'.nodes == s.nodes - {i} && s'.counts == s.counts - {i}
    ensures KindsOk(s')
  {
  }

  lemma EvictedLeaving(s: State, s': State, i: nat)
    requires Inv(s) && i in s.sides && s'.sides == s.sides - {i} && s'.nodes == s.nodes - {i} && s'.cache == s.cache && s'.free == s.free
    requires s'.leaving == s.leaving[i := Evicted(s, i)]
    ensures LeavingOk(s')
  {
    hide TreesOk, SidesOk, KindsOk, LeavingOk, DirtyOk, Claim, SideBlocks, Owned, Leaving.Left, Evicted;
    EvictedLeft(s, i);
    EvictedApart(s, i);
    OneMoreLeaving(s, s', i, Evicted(s, i));
  }

  lemma OneMoreLeaving(s: State, s': State, i: nat, l: Leaving)
    requires LeavingOk(s) && s'.sides == s.sides - {i} && s'.nodes == s.nodes - {i} && s'.cache == s.cache && s'.free == s.free
    requires s'.leaving == s.leaving[i := l] && l.Left() !! s.free && l.Left() <= s.cache.Keys
    requires forall j :: j in s.nodes && j != i ==> l.Left() !! Claim(s.nodes[j])
    requires forall j :: j in s.sides && j != i ==> l.Left() !! SideBlocks(s.sides[j])
    requires forall j :: j in s.leaving ==> l.Left() !! s.leaving[j].Left()
    ensures LeavingOk(s')
  {
    hide Claim, SideBlocks, Leaving.Left;
  }

  lemma EvictedLeft(s: State, i: nat)
    requires i in s.sides
    ensures Evicted(s, i).Left() == Owned(s, i)
  {
    hide SideBlocks;
    if i in s.nodes {
      DataClaimed(s.nodes[i]);
    }
  }

  /** All of an inode's blocks are its own. */
  lemma EvictedApart(s: State, i: nat)
    requires Inv(s) && i in s.sides
    ensures Owned(s, i) !! s.free && Owned(s, i) <= s.cache.Keys
    ensures forall j :: j in s.nodes && j != i ==> Owned(s, i) !! Claim(s.nodes[j])
    ensures forall j :: j in s.sides && j != i ==> Owned(s, i) !! SideBlocks(s.sides[j])
    ensures forall j :: j in s.leaving ==> Owned(s, i) !! s.leaving[j].Left()
  {
    hide NodeOk, KindsOk, Claim, SideBlocks, Leaving.Left, DirtyOk;
    if i in s.nodes {
      NotFree(s, s.nodes[i]);
    }
  }

  /** A regular file's data is never dirty in the metadata cache. */
  lemma EvictedClean(s: State, i: nat)
    requires Inv(s) && i in s.sides
    ensures Evicted(s, i).data !! s.dirty
  {
    hide TreesOk, SidesOk, KindsOk, LeavingOk, SideBlocks;
    if i in s.nodes && !IsDir(s, i) {
      FileDataClean(s, i);
    }
  }

  lemma FileDataClean(s: State, i: nat)
    requires Inv(s) && i in s.nodes && !IsDir(s, i)
    ensures DataBlocks(s.nodes[i]) !! s.dirty
  {
    hide NodeInv, SidesOk, KindsOk, LeavingOk, Claim, MayBeDirty, DataBlocks, Looks, Meta;
    var n := s.nodes[i];
    assert NodeOk(s, n);
    var born := n.root !in s.unborn;
    MetaClaimed(s.cache, s.durable, born, n);
    MetaLooks(s.cache, s.durable, born, n);
    LooksInside(s.cache, s.durable, born, n);
    DataClaimed(n);
    forall b | b in s.dirty ensures b !in DataBlocks(n) {
      assert DirtyOk(s, b);
    }
  }

  lemma EvictedDirty(s: State, s': State, i: nat, x: nat)
    requires DirtyOk(s, x) && i in s.sides && s'.sides == s.sides - {i} && s'.nodes == s.nodes - {i} && s'.free == s.free
    requires s'.leaving == s.leaving[i := Evicted(s, i)] && x !in Evicted(s, i).data
    ensures DirtyOk(s', x)
  {
    hide MayBeDirty, Claim, DataBlocks, Evicted;
  }

  lemma PutEvictedStep(s: State, i: nat, bs: set<nat>)
    requires Inv(s) && Enabled(s, PutEvicted(i, bs))
    ensures Inv(Do(s, PutEvicted(i, bs)))
  {
    hide TreesOk, SidesOk, KindsOk, LeavingOk, DirtyOk, Claim, SideBlocks;
    var s' := Do(s, PutEvicted(i, bs));
    PutTrees(s, s', i, bs);
    PutSides(s, s', i, bs);
    SameKinds(s, s');
    PutLeaving(s, s', i, bs);
    LeftCached(s, i);
    forall x | x in s'.dirty ensures DirtyOk(s', x) {
      PutDirty(s, s', i, bs, x);
    }
  }

  lemma LeftCached(s: State, i: nat)
    requires LeavingOk(s) && i in s.leaving
    ensures s.leaving[i].Left() <= s.cache.Keys
  {
    hide Claim, SideBlocks, Leaving.Left;
  }

  lemma PutTrees(s: State, s': State, i: nat, bs: set<nat>)
    requires TreesOk(s) && LeavingOk(s) && i in s.leaving && bs <= s.leaving[i].Left() && s.cache.Keys == s.durable.Keys
    requires s' == s.(free := s.free + bs, leaving := s'.leaving)
    ensures TreesOk(s')
  {
    hide NodeOk, Claim, SideBlocks, Leaving.Left;
    assert SameBeyond(s, s', bs);
    forall j | j in s.nodes ensures NodeOk(s', s.nodes[j]) {
      OtherNode(s, s', bs, s.nodes[j]);
    }
  }

  lemma PutSides(s: State, s': State, i: nat, bs: set<nat>)
    requires SidesOk(s) && LeavingOk(s) && i in s.leaving && bs <= s.leaving[i].Left()
    requires s' == s.(free := s.free + bs, leaving := s'.leaving)
    ensures SidesOk(s')
  {
    hide Claim, SideBlocks, Leaving.Left;
  }

  lemma PutLeaving(s: State, s': State, i: nat, bs: set<nat>)
    requires LeavingOk(s) && i in s.leaving && bs <= s.leaving[i].Left()
    requires s' == s.(free := s.free + bs, leaving := s.leaving[i := Leaving(s.leaving[i].had, s.leaving[i].data - bs, s.leaving[i].meta - bs)])
    ensures LeavingOk(s')
  {
    LessLeft(s.leaving[i], bs);
    hide Claim, SideBlocks, Leaving.Left;
  }

  lemma LessLeft(l: Leaving, bs: set<nat>)
    ensures Leaving(l.had, l.data - bs, l.meta - bs).Left() == l.Left() - bs
  {
  }

  lemma PutDirty(s: State, s': State, i: nat, bs: set<nat>, x: nat)
    requires DirtyOk(s, x) && x !in bs && i in s.leaving
    requires s' == s.(free := s.free + bs, leaving := s.leaving[i := Leaving(s.leaving[i].had, s.leaving[i].data - bs, s.leaving[i].meta - bs)])
    ensures DirtyOk(s', x)
  {
    hide MayBeDirty, Claim, DataBlocks;
  }

  lemma ClearInodeStep(s: State, i: nat)
    requires Inv(s) && Enabled(s, ClearInode(i))
    ensures Inv(Do(s, ClearInode(i)))
  {
    hide TreesOk, SidesOk, KindsOk, Claim, SideBlocks, DirtyOk;
    var s' := Do(s, ClearInode(i));
    EvictedTrees(s, s', i) by {
      assert i !in s.sides;
      NoTree(s, i);
    }
    SameSides(s, s');
    SameKinds(s, s');
    forall x | x in s'.dirty ensures DirtyOk(s', x) {
      ClearedDirty(s, s', x);
    }
  }

  lemma NoTree(s: State, i: nat)
    requires KindsOk(s) && i !in s.sides
    ensures s.nodes - {i} == s.nodes
  {
  }

  lemma SameSides(s: State, s': State)
    requires SidesOk(s) && s'.sides == s.sides && s'.nodes == s.nodes && s'.cache.Keys == s.cache.Keys && s'.free == s.free
    ensures SidesOk(s')
  {
    hide SideBlocks, Claim;
  }

  lemma ClearedDirty(s: State, s': State, x: nat)
    requires DirtyOk(s, x) && s'.nodes == s.nodes && s'.sides == s.sides && s'.free == s.free
    requires forall j :: j in s'.leaving ==> j in s.leaving && s'.leaving[j] == s.leaving[j]
    ensures DirtyOk(s', x)
  {
    hide MayBeDirty, Claim, DataBlocks;
  }

  lemma WriteRecordStep(s: State, i: nat)
    requires Inv(s)
    ensures Inv(Do(s, WriteRecord(i)))
  {
    hide Inv;
    SameParts(s, Do(s, WriteRecord(i)));
  }

  /** The invariant does not look at the records or at the shutdown flag. */
  lemma SameParts(s: State, s': State)
    requires Inv(s) && s' == s.(records := s'.records, shutdown := s'.shutdown)
    ensures Inv(s')
  {
    hide TreesOk, SidesOk, KindsOk, LeavingOk, DirtyOk;
    SameTrees(s, s');
    SameSides(s, s');
    SameKinds(s, s');
    SameLeaving(s, s');
    forall x | x in s'.dirty ensures DirtyOk(s', x) {
      ClearedDirty(s, s', x);
    }
  }

  lemma SameTrees(s: State, s': State)
    requires TreesOk(s) && s' == s.(records := s'.records, shutdown := s'.shutdown)
    ensures TreesOk(s')
  {
    hide NodeOk, Claim;
    forall i | i in s.nodes ensures NodeOk(s', s.nodes[i]) {
      SameNodeOk(s, s', s.nodes[i]);
    }
  }

  lemma SameLeaving(s: State, s': State)
    requires LeavingOk(s) && s'.sides == s.sides && s'.nodes == s.nodes && s'.cache.Keys == s.cache.Keys && s'.free == s.free
    requires s'.leaving == s.leaving
    ensures LeavingOk(s')
  {
    hide SideBlocks, Claim, Leaving.Left;
  }

  /** Every step keeps the invariant. */
  lemma StepKeepsInv(s: State, st: Step)
    requires Inv(s) && Enabled(s, st)
    ensures Inv(Do(s, st))
  {
    hide Inv, Enabled, Do;
    match st
    case MakePlan(i, plan) => MakePlanStep(s, i, plan);
    case WriteLeaf(i) => WriteLeafStep(s, i);
    case AwaitLeaves(i) => AwaitLeavesStep(s, i);
    case WriteRoot(i) => WriteRootStep(s, i);
    case AwaitRoot(i) => AwaitRootStep(s, i);
    case GiveBack(i, bs) => GiveBackStep(s, i, bs);
    case PutUncounted(i, bs) => PutUncountedStep(s, i, bs);
    case GiveBackLeaf(i, b) => GiveBackLeafStep(s, i, b);
    case Retire(i, b) => RetireStep(s, i, b);
    case Release(i, bs) => ReleaseStep(s, i, bs);
    case Create(i, kind, b) => CreateStep(s, i, kind, b);
    case CreateSymlink(i, block) => CreateSymlinkStep(s, i, block);
    case CreateSpecial(i) => CreateSpecialStep(s, i);
    case TakeXattr(i, b) => TakeXattrStep(s, i, b);
    case WriteSide(i, b, content) => WriteSideStep(s, i, b, content);
    case WriteDir(i, b, content) => WriteDirStep(s, i, b, content);
    case BeginEvict(i) => BeginEvictStep(s, i);
    case PutEvicted(i, bs) => PutEvictedStep(s, i, bs);
    case ClearInode(i) => ClearInodeStep(s, i);
    case WriteRecord(i) => WriteRecordStep(s, i);
    case Fail => ShutdownKeepsInv(s);
    case Writeback(b) => WritebackStep(s, b);
    case WriteData(i, b, content) => WriteDataStep(s, i, b, content);
    case Begin(i) => BeginStep(s, i);
    case Alloc(i, bs) => AllocStep(s, i, bs);
    case AllocLeaf(i, b) => AllocLeafStep(s, i, b);
    case _ => EndingStep(s, st);
  }

  lemma ShutdownKeepsInv(s: State)
    requires Inv(s)
    ensures Inv(Do(s, Fail))
  {
    hide Inv;
    SameParts(s, Do(s, Fail));
  }

  // ---------- whole runs ----------

  ghost predicate Run(s: State, steps: seq<Step>, s': State)
    decreases |steps|
  {
    if steps == [] then s' == s
    else Enabled(s, steps[0]) && Run(Do(s, steps[0]), steps[1..], s')
  }

  lemma {:induction false} RunKeepsInv(s: State, steps: seq<Step>, s': State)
    requires Inv(s) && Run(s, steps, s')
    ensures Inv(s')
    decreases |steps|
  {
    hide Inv, Enabled, Do;
    if steps != [] {
      StepKeepsInv(s, steps[0]);
      RunKeepsInv(Do(s, steps[0]), steps[1..], s');
    }
  }

  /** The root and everything it leads to on this disk. */
  ghost function Footprint(disk: Disk, root: nat): set<nat> {
    {root} + if Load(disk, root).Ok? then TreeBlocks(Load(disk, root).value) else {}
  }

  /** Everything inode i leads to on this disk, with its symlink and attribute blocks. */
  ghost function Reach(s: State, disk: Disk, i: nat): set<nat> {
    (if i in s.nodes then Footprint(disk, s.nodes[i].root) else {}) + if i in s.sides then SideBlocks(s.sides[i]) else {}
  }

  /**
   * What one copy of the metadata must satisfy: every root in it loads, nothing an inode leads
   * to is free, and no two inodes lead to the same block.
   */
  ghost predicate ImageSafe(s: State, disk: Disk, inodes: set<nat>) {
    && (forall i :: i in inodes && i in s.nodes ==> Load(disk, s.nodes[i].root).Ok?)
    && (forall i :: i in inodes ==> Reach(s, disk, i) !! s.free)
    && (forall i, j :: i in inodes && j in inodes && i != j ==> Reach(s, disk, i) !! Reach(s, disk, j))
  }

  /** The inodes whose root has been on the device. */
  ghost function Born(s: State): set<nat> {
    set i | i in s.sides && (i in s.nodes ==> s.nodes[i].root !in s.unborn)
  }

  /**
   * What must hold if the machine stops here: the cached image is safe, and so is the device's
   * for every inode whose root has reached it; no block an inode leads to on one copy is
   * another inode's on the other, or still held by one being evicted; and no pending
   * write-back is aimed at a free block or at the data of a file.
   */
  ghost predicate Safe(s: State) {
    && ImageSafe(s, s.cache, s.sides.Keys) && ImageSafe(s, s.durable, Born(s))
    && (forall i, j :: i in s.sides && j in Born(s) && i != j ==> Reach(s, s.cache, i) !! Reach(s, s.durable, j))
    && (forall i, j :: i in s.sides && j in s.leaving ==> Reach(s, s.cache, i) !! s.leaving[j].Left())
    && s.dirty !! s.free
    && (forall i :: i in s.nodes && !IsDir(s, i) ==> s.dirty !! DataBlocks(s.nodes[i]))
    && (forall i :: i in s.leaving ==> s.dirty !! s.leaving[i].data)
  }

  lemma FootprintsClaimed(s: State, i: nat)
    requires Inv(s) && i in s.nodes
    ensures var n := s.nodes[i];
      && Load(s.cache, n.root).Ok? && Footprint(s.cache, n.root) <= Claim(n)
      && (n.root !in s.unborn ==> Load(s.durable, n.root).Ok? && Footprint(s.durable, n.root) <= Claim(n))
      && MayBeDirty(n) <= Claim(n)
  {
    hide Inv, Load, Meta, Looks, DataSet, SetOf;
    InvNode(s, i);
    var n := s.nodes[i];
    var born := n.root !in s.unborn;
    BothCopiesLoad(s.cache, s.durable, born, n);
    NodeNamed(s.cache, s.durable, born, n);
    MetaClaimed(s.cache, s.durable, born, n);
    MetaLooks(s.cache, s.durable, born, n);
    LooksInside(s.cache, s.durable, born, n);
  }

  lemma NodeNamed(c: Disk, d: Disk, born: bool, n: Node)
    requires NodeInv(c, d, born, n)
    ensures Named(n) <= Claim(n)
  {
    hide Published, OldRoot, NewLeaves, TreeOk, PlanOk;
    NamedClaimed(n);
  }

  /** Owned blocks are not free, and nobody else's. */
  lemma OwnedApart(s: State, i: nat, j: nat)
    requires Inv(s) && i in s.sides && j in s.sides
    ensures Owned(s, i) !! s.free && (i != j ==> Owned(s, i) !! Owned(s, j))
  {
    hide NodeOk, Claim, SideBlocks, DirtyOk, LeavingOk;
    if i in s.nodes {
      NotFree(s, s.nodes[i]);
    }
  }

  lemma ReachOwned(s: State, i: nat)
    requires Inv(s) && i in s.sides
    ensures Reach(s, s.cache, i) <= Owned(s, i) && (i in s.nodes ==> Load(s.cache, s.nodes[i].root).Ok?)
    ensures i in Born(s) ==> Reach(s, s.durable, i) <= Owned(s, i) && (i in s.nodes ==> Load(s.durable, s.nodes[i].root).Ok?)
  {
    hide Inv, Load, Footprint, Claim, SideBlocks, DataSet, MayBeDirty;
    if i in s.nodes {
      FootprintsClaimed(s, i);
    }
  }

  lemma InvIsSafe(s: State)
    requires Inv(s)
    ensures Safe(s)
  {
    hide Inv, Reach, Owned, DataBlocks, Load;
    forall i | i in s.sides
      ensures Reach(s, s.cache, i) <= Owned(s, i) && (i in s.nodes ==> Load(s.cache, s.nodes[i].root).Ok?)
      ensures i in Born(s) ==> Reach(s, s.durable, i) <= Owned(s, i) && (i in s.nodes ==> Load(s.durable, s.nodes[i].root).Ok?)
      ensures Owned(s, i) !! s.free && forall j :: j in s.sides && j != i ==> Owned(s, i) !! Owned(s, j)
    {
      ReachOwned(s, i);
      OwnedApart(s, i, i);
      forall j | j in s.sides && j != i ensures Owned(s, i) !! Owned(s, j) {
        OwnedApart(s, i, j);
      }
    }
    LeavingSafe(s);
    forall i | i in s.nodes && !IsDir(s, i) ensures s.dirty !! DataBlocks(s.nodes[i]) {
      FileDataClean(s, i);
    }
  }

  lemma LeavingSafe(s: State)
    requires Inv(s)
    ensures s.dirty !! s.free && forall i :: i in s.leaving ==> s.dirty !! s.leaving[i].data
    ensures forall i, j :: i in s.sides && j in s.leaving ==> Owned(s, i) !! s.leaving[j].Left()
  {
    hide TreesOk, SidesOk, KindsOk, LeavingOk, Claim, Owned, SideBlocks, MayBeDirty, DataBlocks, Leaving.Left;
    forall i | i in s.sides ensures forall j :: j in s.leaving ==> Owned(s, i) !! s.leaving[j].Left() {
      EvictedApart(s, i);
    }
    forall b | b in s.dirty ensures b !in s.free && forall i :: i in s.leaving ==> b !in s.leaving[i].data {
      assert DirtyOk(s, b);
    }
  }

  /** Crash safety: whatever steps were taken, in whatever order, the state is safe. */
  lemma EveryRunIsSafe(s: State, steps: seq<Step>, s': State)
    requires Inv(s) && Run(s, steps, s')
    ensures Safe(s')
  {
    hide Inv, Safe;
    RunKeepsInv(s, steps, s');
    InvIsSafe(s');
  }

  // ---------- the edits of the other modules make such plans ----------

  /** The leaf blocks AcquireLeaves hands out for a list of n extents. */
  ghost predicate LeavesFor(n: Node, held: Held, s: seq<Extent>, leaves: seq<nat>) {
    && |leaves| == LeafCount(|s|) && Distinct(leaves) && n.root !in leaves && OwnBlocksUnused(s, n.root, leaves)
    && (forall j :: 0 <= j < |leaves| && j < |n.tree.leaves| ==> leaves[j] == n.tree.leaves[j])
    && (forall j :: |n.tree.leaves| <= j < |leaves| ==> leaves[j] in held.leaves)
  }

  lemma ListIsPlan(n: Node, held: Held, s: seq<Extent>, leaves: seq<nat>)
    requires LeavesFor(n, held, s, leaves) && Canonical(s) && |s| <= MAX_FILE_EXTENTS
    requires (forall x: nat :: Uses(s, x) <= 1) && DataSet(s) <= DataSet(n.tree.extents) + held.data
    ensures PlanOk(n, held, Loaded(s, leaves))
  {
    hide LeafCount;
    DataSetUses(s, n.root);
    forall x | x in SetOf(leaves) ensures x !in DataSet(s) {
      var j :| 0 <= j < |leaves| && leaves[j] == x;
      DataSetUses(s, x);
    }
  }

  /** Punch, truncate, collapse and insert. */
  lemma EditIsPlan(n: Node, held: Held, t: seq<Extent>, s: seq<Extent>, ed: Edit, freed: seq<Range>, leaves: seq<nat>)
    requires TreeOk(n.root, n.tree) && EditOf(t, n.tree.extents, ed, freed) && SameMeaning(t, s)
    requires LeavesFor(n, held, s, leaves) && Canonical(s) && |s| <= MAX_FILE_EXTENTS
    ensures PlanOk(n, held, Loaded(s, leaves))
  {
    hide LeavesFor, Canonical, DataSet, LeafCount, PlanOk;
    EditSame(t, s, n.tree.extents, ed, freed);
    EditData(s, n.tree.extents, ed, freed);
    ListIsPlan(n, held, s, leaves);
  }

  /** simplefs_get_block on a hole, with the run it took among the held blocks. */
  lemma ExtensionIsPlan(n: Node, held: Held, s: seq<Extent>, iblock: nat, len: nat, bno: nat, flag: bool, leaves: seq<nat>)
    requires TreeOk(n.root, n.tree) && Extended(s, n.tree.extents, iblock, len, bno, flag)
    requires RunSet(bno, len) <= held.data && TreeBlocks(n.tree) !! held.data
    requires LeavesFor(n, held, s, leaves) && Canonical(s) && |s| <= MAX_FILE_EXTENTS
    ensures PlanOk(n, held, Loaded(s, leaves))
  {
    hide LeavesFor, Canonical, DataSet, LeafCount, PlanOk;
    ExtendedData(s, n.tree.extents, iblock, len, bno, flag);
    forall x: nat ensures Uses(s, x) <= 1 {
      DataSetUses(n.tree.extents, x);
      if InRun(x, bno, len) {
        assert x in RunSet(bno, len);
      }
    }
    ListIsPlan(n, held, s, leaves);
  }

  /** Conversion of unwritten blocks: other flags on the same blocks. */
  lemma FlaggedIsPlan(n: Node, held: Held, s: seq<Extent>, lo: nat, hi: nat, flag: bool, leaves: seq<nat>)
    requires TreeOk(n.root, n.tree) && Flagged(s, n.tree.extents, lo, hi, flag)
    requires LeavesFor(n, held, s, leaves) && Canonical(s) && |s| <= MAX_FILE_EXTENTS
    ensures PlanOk(n, held, Loaded(s, leaves))
  {
    hide LeavesFor, Canonical, DataSet, LeafCount, PlanOk;
    FlaggedData(s, n.tree.extents, lo, hi, flag);
    ListIsPlan(n, held, s, leaves);
  }

  /** simplefs_zero_range_full_blocks, with everything it took among the held blocks. */
  lemma ZeroIsPlan(n: Node, held: Held, s: seq<Extent>, taken: seq<Range>, leaves: seq<nat>)
    requires TreeOk(n.root, n.tree) && (forall x: nat :: Uses(s, x) <= 1)
    requires DataSet(s) == DataSet(n.tree.extents) + RangeSet(taken) && RangeSet(taken) <= held.data
    requires LeavesFor(n, held, s, leaves) && Canonical(s) && |s| <= MAX_FILE_EXTENTS
    ensures PlanOk(n, held, Loaded(s, leaves))
  {
    hide LeavesFor, Canonical, DataSet, LeafCount, PlanOk, RangeSet;
    ListIsPlan(n, held, s, leaves);
  }
}
