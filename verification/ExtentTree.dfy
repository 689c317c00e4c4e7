/**
 * The on-disk extent tree (simplefs_extent.c): a root block that holds up to 340 extents
 * itself, or up to 255 indexes of leaf blocks with 340 extents each.
 */
module ExtentTree {
  import opened Wrappers
  import opened Extents
  import opened ExtentBuffers
  import opened Bitmaps

  const PER_LEAF: nat := 340
  const INDEX_SLOTS: nat := 255
  const MAX_FILE_EXTENTS: nat := PER_LEAF * INDEX_SLOTS

  datatype Index = Index(block: nat, leaf: nat, count: nat, last: nat)

  /** A block as the tree code sees it; a magic number tells the four kinds apart. */
  datatype Block =
    | Zeroed
    | Root(depth: nat, extents: seq<Extent>, indexes: seq<Index>)
    | Leaf(extents: seq<Extent>)
    | Other

  datatype Loaded = Loaded(extents: seq<Extent>, leaves: seq<nat>)

  type Disk = map<nat, Block>

  // ---------- loading ----------

  function LoadLeaf(disk: Disk, leaf: nat): Result<seq<Extent>> {
    if leaf !in disk || disk[leaf] == Zeroed then Err(EIO)
    else if !disk[leaf].Leaf? || |disk[leaf].extents| > PER_LEAF then Err(EINVAL)
    else Ok(disk[leaf].extents)
  }

  function LoadLeaves(disk: Disk, leaves: seq<nat>): Result<seq<Extent>> {
    if leaves == [] then Ok([])
    else
      var first := LoadLeaf(disk, leaves[0]);
      if first.Err? then first
      else
        var rest := LoadLeaves(disk, leaves[1..]);
        if rest.Err? then rest else Ok(first.value + rest.value)
  }

  function LeavesOf(indexes: seq<Index>): seq<nat> {
    seq(|indexes|, i requires 0 <= i < |indexes| => indexes[i].leaf)
  }

  /** What a root block denotes on a given disk. */
  function Load(disk: Disk, root: nat): Result<Loaded> {
    if root !in disk || disk[root] == Zeroed then Err(EIO)
    else match disk[root]
      case Root(depth, extents, indexes) =>
        if depth == 0 then
          if |extents| > PER_LEAF then Err(EFSCORRUPTED) else Ok(Loaded(extents, []))
        else if depth != 1 || |indexes| > INDEX_SLOTS then Err(EINVAL)
        else
          var all := LoadLeaves(disk, LeavesOf(indexes));
          if all.Err? then Err(all.error) else Ok(Loaded(all.value, LeavesOf(indexes)))
      case _ => Err(EINVAL)
  }

  lemma {:induction false} LoadLeavesSnoc(disk: Disk, leaves: seq<nat>, leaf: nat)
    ensures LoadLeaves(disk, leaves + [leaf]) ==
      if LoadLeaves(disk, leaves).Err? then LoadLeaves(disk, leaves)
      else if LoadLeaf(disk, leaf).Err? then LoadLeaf(disk, leaf)
      else Ok(LoadLeaves(disk, leaves).value + LoadLeaf(disk, leaf).value)
  {
    if leaves == [] {
      assert [leaf][1..] == [];
      assert [] + [leaf] == [leaf];
      if LoadLeaf(disk, leaf).Ok? {
        assert LoadLeaf(disk, leaf).value + [] == [] + LoadLeaf(disk, leaf).value;
      }
    } else {
      LoadLeavesSnoc(disk, leaves[1..], leaf);
      assert (leaves + [leaf])[1..] == leaves[1..] + [leaf];
      if LoadLeaves(disk, leaves).Ok? && LoadLeaf(disk, leaf).Ok? {
        var a, b, c := LoadLeaf(disk, leaves[0]).value, LoadLeaves(disk, leaves[1..]).value, LoadLeaf(disk, leaf).value;
        assert a + (b + c) == a + b + c;
      }
    }
  }

  lemma {:induction false} LoadLeavesPrefix(disk: Disk, leaves: seq<nat>, i: nat)
    requires i <= |leaves| && LoadLeaves(disk, leaves[..i]).Err?
    ensures LoadLeaves(disk, leaves) == LoadLeaves(disk, leaves[..i])
  {
    if i > 0 && LoadLeaf(disk, leaves[0]).Ok? {
      assert leaves[..i][1..] == leaves[1..][..i - 1];
      LoadLeavesPrefix(disk, leaves[1..], i - 1);
    }
  }

  /** A block that is not there, or that a failing device returned as zeros. */
  ghost predicate Blank(disk: Disk, b: nat) {
    b !in disk || disk[b] == Zeroed
  }

  ghost predicate GoodLeaf(disk: Disk, b: nat) {
    b in disk && disk[b].Leaf? && |disk[b].extents| <= PER_LEAF
  }

  /** A root whose own extents are the file's. */
  ghost predicate FlatRoot(disk: Disk, root: nat) {
    root in disk && disk[root].Root? && disk[root].depth == 0
  }

  /** A root that names leaves, and no more than fit. */
  ghost predicate TallRoot(disk: Disk, root: nat) {
    root in disk && disk[root].Root? && disk[root].depth == 1 && |disk[root].indexes| <= INDEX_SLOTS
  }

  ghost predicate GoodLeaves(disk: Disk, indexes: seq<Index>, n: nat) {
    n <= |indexes| && forall i :: 0 <= i < n ==> GoodLeaf(disk, indexes[i].leaf)
  }

  /** Leaf k is the first the load stumbles over. */
  ghost predicate FirstBadLeaf(disk: Disk, indexes: seq<Index>, k: nat) {
    k < |indexes| && GoodLeaves(disk, indexes, k) && !GoodLeaf(disk, indexes[k].leaf)
  }

  ghost predicate StumblesOnBlank(disk: Disk, indexes: seq<Index>) {
    exists k: nat :: FirstBadLeaf(disk, indexes, k) && Blank(disk, indexes[k].leaf)
  }

  /** How many records the first n leaves hold. */
  ghost function Offset(disk: Disk, indexes: seq<Index>, n: nat): nat
    requires GoodLeaves(disk, indexes, n)
  {
    if n == 0 then 0 else Offset(disk, indexes, n - 1) + |disk[indexes[n - 1].leaf].extents|
  }

  /** Leaf i's records stand in `extents` right behind those of the leaves before it. */
  ghost predicate LeafStands(disk: Disk, indexes: seq<Index>, extents: seq<Extent>, i: nat)
    requires i < |indexes| && GoodLeaves(disk, indexes, i + 1)
  {
    var at := Offset(disk, indexes, i);
    at + |disk[indexes[i].leaf].extents| <= |extents| &&
    extents[at..at + |disk[indexes[i].leaf].extents|] == disk[indexes[i].leaf].extents
  }

  /** `extents` are the records of the first n leaves, leaf by leaf. */
  ghost predicate LeafByLeaf(disk: Disk, indexes: seq<Index>, extents: seq<Extent>, n: nat) {
    && GoodLeaves(disk, indexes, n) && |extents| == Offset(disk, indexes, n)
    && forall i :: 0 <= i < n ==> LeafStands(disk, indexes, extents, i)
  }

  lemma NextLeaf(disk: Disk, indexes: seq<Index>, extents: seq<Extent>, n: nat)
    requires LeafByLeaf(disk, indexes, extents, n) && n < |indexes| && GoodLeaf(disk, indexes[n].leaf)
    ensures LeafByLeaf(disk, indexes, extents + disk[indexes[n].leaf].extents, n + 1)
  {
    var more := extents + disk[indexes[n].leaf].extents;
    forall i | 0 <= i < n + 1 ensures LeafStands(disk, indexes, more, i) {
      if i < n {
        assert LeafStands(disk, indexes, extents, i);
        var at, len := Offset(disk, indexes, i), |disk[indexes[i].leaf].extents|;
        assert more[at..at + len] == extents[at..at + len];
      }
    }
  }

  /**
   * simplefs_file_load_extents and simplefs_file_load_leaf.  A block of zeros is a failed
   * read, never an empty file.
   */
  method LoadExtents(disk: Disk, root: nat) returns (r: Result<Loaded>)
    ensures r == Load(disk, root)
    ensures r.Ok? <==>
        || (FlatRoot(disk, root) && |disk[root].extents| <= PER_LEAF)
        || (TallRoot(disk, root) && GoodLeaves(disk, disk[root].indexes, |disk[root].indexes|))
    ensures r == Err(EIO) <==>
        || Blank(disk, root)
        || (TallRoot(disk, root) && StumblesOnBlank(disk, disk[root].indexes))
    ensures r == Err(EFSCORRUPTED) <==> FlatRoot(disk, root) && |disk[root].extents| > PER_LEAF
    ensures r.Err? ==> r.error == EIO || r.error == EFSCORRUPTED || r.error == EINVAL
    ensures r.Ok? && FlatRoot(disk, root) ==> r.value == Loaded(disk[root].extents, [])
    ensures r.Ok? && TallRoot(disk, root) ==>
        && |r.value.leaves| == |disk[root].indexes|
        && (forall i :: 0 <= i < |r.value.leaves| ==> r.value.leaves[i] == disk[root].indexes[i].leaf)
        && LeafByLeaf(disk, disk[root].indexes, r.value.extents, |disk[root].indexes|)
  {
    hide LeafByLeaf, LoadLeaves;
    if root !in disk || disk[root] == Zeroed {
      return Err(EIO);
    }
    if !disk[root].Root? {
      return Err(EINVAL);
    }
    var block := disk[root];
    if block.depth == 0 {
      if |block.extents| > PER_LEAF {
        return Err(EFSCORRUPTED);
      }
      return Ok(Loaded(block.extents, []));
    }
    if block.depth != 1 || |block.indexes| > INDEX_SLOTS {
      return Err(EINVAL);
    }
    var extents, leaves := [], [];
    ghost var all := LeavesOf(block.indexes);
    NoLeaves(disk, block.indexes);
    var i := 0;
    while i < |block.indexes|
      invariant 0 <= i <= |block.indexes|
      invariant leaves == all[..i] && LoadLeaves(disk, leaves) == Ok(extents)
      invariant GoodLeaves(disk, block.indexes, i) && LeafByLeaf(disk, block.indexes, extents, i)
    {
      var leaf := block.indexes[i].leaf;
      LoadLeavesSnoc(disk, leaves, leaf);
      assert all[..i + 1] == all[..i] + [leaf];
      leaves := leaves + [leaf];
      if leaf !in disk || disk[leaf] == Zeroed {
        LoadLeavesPrefix(disk, all, i + 1);
        assert FirstBadLeaf(disk, block.indexes, i);
        return Err(EIO);
      }
      if !disk[leaf].Leaf? || |disk[leaf].extents| > PER_LEAF {
        LoadLeavesPrefix(disk, all, i + 1);
        OnlyFirstBad(disk, block.indexes, i);
        return Err(EINVAL);
      }
      NextLeaf(disk, block.indexes, extents, i);
      extents := extents + disk[leaf].extents;
      i := i + 1;
    }
    assert all[..i] == all;
    return Ok(Loaded(extents, leaves));
  }

  lemma {:induction false} LoadedLeavesFit(disk: Disk, leaves: seq<nat>)
    requires LoadLeaves(disk, leaves).Ok?
    ensures |LoadLeaves(disk, leaves).value| <= PER_LEAF * |leaves|
  {
    if leaves != [] {
      LoadedLeavesFit(disk, leaves[1..]);
    }
  }

  /** A tree that loads has leaves enough for a sync of as many extents. */
  lemma LoadedFits(disk: Disk, root: nat, l: Loaded)
    requires Load(disk, root) == Ok(l)
    ensures |l.extents| <= MAX_FILE_EXTENTS && LeafCount(|l.extents|) <= |l.leaves|
  {
    hide LoadLeaves;
    if disk[root].depth != 0 {
      LoadedLeavesFit(disk, l.leaves);
    }
  }

  lemma NoLeaves(disk: Disk, indexes: seq<Index>)
    ensures LeafByLeaf(disk, indexes, [], 0) && LoadLeaves(disk, []) == Ok([])
  {
  }

  lemma OnlyFirstBad(disk: Disk, indexes: seq<Index>, k: nat)
    requires FirstBadLeaf(disk, indexes, k)
    ensures forall j :: FirstBadLeaf(disk, indexes, j) ==> j == k
  {
  }

  // ---------- what a sync writes ----------

  function LeafCount(n: nat): nat {
    if n <= PER_LEAF then 0 else (n + PER_LEAF - 1) / PER_LEAF
  }

  function ChunkEnd(n: nat, i: nat): nat {
    if (i + 1) * PER_LEAF < n then (i + 1) * PER_LEAF else n
  }

  function Chunk(s: seq<Extent>, i: nat): seq<Extent>
    requires i * PER_LEAF < |s|
  {
    s[i * PER_LEAF..ChunkEnd(|s|, i)]
  }

  function IndexFor(s: seq<Extent>, i: nat, leaf: nat): Index
    requires i * PER_LEAF < |s|
  {
    var c := Chunk(s, i);
    Index(c[0].block, leaf, |c|, c[|c| - 1].End())
  }

  lemma LeafCountBounds(n: nat, i: nat)
    requires i < LeafCount(n)
    ensures i * PER_LEAF < n
  {
  }

  lemma LeafCountFits(n: nat)
    requires n <= MAX_FILE_EXTENTS
    ensures LeafCount(n) <= INDEX_SLOTS
  {
  }

  function RootFor(s: seq<Extent>, leaves: seq<nat>): Block
    requires |leaves| == LeafCount(|s|)
  {
    if leaves == [] then Root(0, s, [])
    else Root(1, [], seq(|leaves|, i requires 0 <= i < |leaves| => LeafCountBounds(|s|, i); IndexFor(s, i, leaves[i])))
  }

  ghost predicate LeavesWritten(disk: Disk, s: seq<Extent>, leaves: seq<nat>, upTo: nat)
    requires |leaves| == LeafCount(|s|)
  {
    forall i :: 0 <= i < upTo && i < |leaves| ==>
      i * PER_LEAF < |s| && leaves[i] in disk && disk[leaves[i]] == Leaf(Chunk(s, i))
  }

  lemma {:induction false} LoadWrittenLeaves(disk: Disk, s: seq<Extent>, leaves: seq<nat>, i: nat)
    requires |leaves| == LeafCount(|s|) && 0 <= i <= |leaves| && leaves != []
    requires LeavesWritten(disk, s, leaves, |leaves|)
    ensures i * PER_LEAF < |s| || i == |leaves|
    ensures LoadLeaves(disk, leaves[i..]) == Ok(if i == |leaves| then [] else s[i * PER_LEAF..])
    decreases |leaves| - i
  {
    hide Chunk, LeafCount, LoadLeaf;
    if i < |leaves| {
      LeafCountBounds(|s|, i);
      LoadWrittenLeaves(disk, s, leaves, i + 1);
      assert leaves[i..][0] == leaves[i] && leaves[i..][1..] == leaves[i + 1..];
      LoadsChunk(disk, s, leaves[i], i);
      ChunkThenRest(s, i);
    }
  }

  lemma LoadsChunk(disk: Disk, s: seq<Extent>, leaf: nat, i: nat)
    requires i * PER_LEAF < |s| && leaf in disk && disk[leaf] == Leaf(Chunk(s, i))
    ensures LoadLeaf(disk, leaf) == Ok(Chunk(s, i))
  {
  }

  lemma ChunkThenRest(s: seq<Extent>, i: nat)
    requires i < LeafCount(|s|)
    ensures i * PER_LEAF < |s|
    ensures i + 1 == LeafCount(|s|) ==> Chunk(s, i) + [] == s[i * PER_LEAF..]
    ensures i + 1 < LeafCount(|s|) ==> (i + 1) * PER_LEAF < |s| && Chunk(s, i) + s[(i + 1) * PER_LEAF..] == s[i * PER_LEAF..]
  {
  }

  /** Writing the leaves and then the root makes the tree denote exactly s. */
  lemma LoadAfterWrite(disk: Disk, root: nat, s: seq<Extent>, leaves: seq<nat>)
    requires |s| <= MAX_FILE_EXTENTS && |leaves| == LeafCount(|s|)
    requires root in disk && disk[root] == RootFor(s, leaves)
    requires LeavesWritten(disk, s, leaves, |leaves|)
    ensures Load(disk, root) == Ok(Loaded(s, leaves))
  {
    LeafCountFits(|s|);
    if leaves != [] {
      hide LeavesWritten, LoadLeaves, Chunk, LeafCount, RootFor, Load;
      LoadWrittenLeaves(disk, s, leaves, 0);
      assert leaves[0..] == leaves && s[0..] == s;
      RootNamesLeaves(s, leaves);
      LoadThroughRoot(disk, root, leaves);
    }
  }

  lemma LoadThroughRoot(disk: Disk, root: nat, leaves: seq<nat>)
    requires root in disk && disk[root].Root? && disk[root].depth == 1 && |disk[root].indexes| <= INDEX_SLOTS
    requires LeavesOf(disk[root].indexes) == leaves && LoadLeaves(disk, leaves).Ok?
    ensures Load(disk, root) == Ok(Loaded(LoadLeaves(disk, leaves).value, leaves))
  {
    hide LoadLeaves, LeavesOf;
  }

  lemma RootNamesLeaves(s: seq<Extent>, leaves: seq<nat>)
    requires |leaves| == LeafCount(|s|) && leaves != []
    ensures var root := RootFor(s, leaves);
      root.Root? && root.depth == 1 && |root.indexes| == |leaves| && LeavesOf(root.indexes) == leaves
  {
    hide LeafCount;
  }

  // ---------- syncing ----------

  class Device {
    var disk: Disk
  }

  /** The part of the in-memory inode that a sync reads and updates; blocks counts 4 KiB blocks. */
  class InodeInfo {
    const root: nat
    /** The attribute block, 0 for none. */
    const xattrBlock: nat
    var blocks: nat

    constructor (root: nat, xattrBlock: nat, blocks: nat)
      ensures this.root == root && this.xattrBlock == xattrBlock && this.blocks == blocks
    {
      this.root := root;
      this.xattrBlock := xattrBlock;
      this.blocks := blocks;
    }

    /** i_blocks is exact: the root, the attribute block, the leaves and the data. */
    ghost predicate Counts(l: Loaded)
      reads this
    {
      blocks == 1 + (if xattrBlock != 0 then 1 else 0) + |l.leaves| + Total(l.extents)
    }
  }

  ghost predicate Distinct(s: seq<nat>) {
    forall i, j :: 0 <= i < j < |s| ==> s[i] != s[j]
  }

  ghost function SetOf(s: seq<nat>): set<nat> {
    set x | x in s
  }

  /** Blocks an extent tree may own besides its root: allocated data-area blocks, each once. */
  ghost predicate LeavesOwned(free: set<nat>, rootDirBlock: nat, nrBlocks: nat, leaves: seq<nat>) {
    && Distinct(leaves) && SetOf(leaves) !! free
    && forall i :: 0 <= i < |leaves| ==> rootDirBlock < leaves[i] < nrBlocks
  }

  ghost predicate OwnedLeaves(sb: SbInfo, leaves: seq<nat>)
    reads sb, sb.bfree
  {
    LeavesOwned(sb.Free(), sb.rootDirBlock, sb.nrBlocks, leaves)
  }

  /** The allocation loop of a sync, one leaf at a time. */
  method AllocLeaves(sb: SbInfo, want: nat) returns (got: seq<nat>, ok: bool)
    requires sb.Valid()
    modifies sb`nrFree, sb`shutdown, sb`faults, sb.bfree, sb.pending
    ensures sb.Valid() && (old(sb.shutdown) ==> sb.shutdown)
    ensures old(sb.faults) == [] ==> sb.faults == [] && sb.shutdown == old(sb.shutdown)
    ensures Distinct(got) && SetOf(got) <= old(sb.Free()) && SetOf(got) !! sb.Free()
    ensures sb.Free() <= old(sb.Free())
    ensures !sb.shutdown ==> sb.Free() == old(sb.Free()) - SetOf(got)
    ensures ok ==> |got| == want && (sb.shutdown ==> old(sb.shutdown))
    ensures !ok && !sb.shutdown ==> |got| < want && forall at: nat :: !Usable(sb.Free(), sb.busy, at, 1)
    ensures !sb.shutdown ==> (ok <==> want <= |old(sb.Free()) - sb.busy|)
  {
    hide Usable, RunSet, NoneUsableBefore, BitsOk, BitSet, SetOf, Distinct;
    got, ok := [], true;
    NoneGot();
    while |got| < want
      invariant sb.Valid() && |got| <= want && (old(sb.shutdown) ==> sb.shutdown)
      invariant old(sb.faults) == [] ==> sb.faults == []
      invariant sb.shutdown == old(sb.shutdown)
      invariant Distinct(got) && SetOf(got) <= old(sb.Free()) && SetOf(got) !! sb.Free()
      invariant sb.Free() <= old(sb.Free()) && SetOf(got) !! sb.busy
      invariant !sb.shutdown ==> sb.Free() == old(sb.Free()) - SetOf(got)
      decreases want - |got|
    {
      ghost var free := sb.Free();
      var b := sb.GetFreeBlocks(1);
      if b == 0 {
        ok := false;
        if !sb.shutdown {
          NoneLeft(old(sb.Free()), sb.busy, got);
        }
        return;
      }
      OneMoreLeaf(got, b, old(sb.Free()), free, sb.busy);
      got := got + [b];
    }
    SizeOfDistinct(got, old(sb.Free()) - sb.busy);
  }

  lemma NoneGot()
    ensures SetOf([]) == {} && Distinct([])
  {
  }

  lemma OneMoreLeaf(got: seq<nat>, b: nat, free0: set<nat>, free: set<nat>, busy: set<nat>)
    requires Distinct(got) && SetOf(got) <= free0 && SetOf(got) !! free && SetOf(got) !! busy && free <= free0
    requires Usable(free, busy, b, 1)
    ensures Distinct(got + [b]) && SetOf(got + [b]) == SetOf(got) + {b} && SetOf(got + [b]) <= free0
    ensures SetOf(got + [b]) !! busy && RunSet(b, 1) == {b}
  {
    assert b in free && b !in SetOf(got);
  }

  lemma {:induction false} SizeOfDistinct(s: seq<nat>, all: set<nat>)
    requires Distinct(s) && SetOf(s) <= all
    ensures |SetOf(s)| == |s| && |s| <= |all|
  {
    if s != [] {
      var n := |s| - 1;
      assert s == s[..n] + [s[n]];
      assert SetOf(s) == SetOf(s[..n]) + {s[n]};
      assert s[n] in SetOf(s);
      SizeOfDistinct(s[..n], all - {s[n]});
    }
  }

  /** When no block can be had any more, the blocks taken are all there were to have. */
  lemma NoneLeft(free0: set<nat>, busy: set<nat>, got: seq<nat>)
    requires Distinct(got) && SetOf(got) <= free0 && SetOf(got) !! busy
    requires forall at: nat :: !Usable(free0 - SetOf(got), busy, at, 1)
    ensures |free0 - busy| == |got|
  {
    forall b | b in free0 - busy ensures b in SetOf(got) {
      assert !Usable(free0 - SetOf(got), busy, b, 1);
    }
    assert free0 - busy == SetOf(got);
    SizeOfDistinct(got, free0 - busy);
  }

  lemma OneRun(b: nat)
    ensures RunSet(b, 1) == {b}
  {
  }

  /** simplefs_retire_metadata_blocks for one block of a journalled volume: revoke, then free. */
  method RetireBlock(sb: SbInfo, b: nat) returns (ok: bool)
    requires sb.Valid() && sb.rootDirBlock < b < sb.nrBlocks && b !in sb.Free()
    modifies sb`nrFree, sb`shutdown, sb`faults, sb.bfree, sb.pending
    ensures sb.Valid() && (old(sb.shutdown) ==> sb.shutdown)
    ensures old(sb.faults) == [] ==> sb.faults == [] && sb.shutdown == old(sb.shutdown)
    ensures ok ==> !old(sb.shutdown) && sb.Free() == old(sb.Free()) + {b}
    ensures !ok ==> sb.Free() == old(sb.Free()) && sb.shutdown == old(sb.shutdown)
    ensures !old(sb.shutdown) && old(sb.faults) == [] ==> ok
  {
    hide RunSet, BitsOk;
    if sb.shutdown {
      return false;
    }
    var bad := sb.NextFault();
    if bad {
      return false;
    }
    OneRun(b);
    sb.PutBlocks(b, 1);
    return true;
  }

  lemma NoBlocks(bs: seq<nat>)
    ensures SetOf(bs[..0]) == {}
  {
  }

  lemma NextBlock(bs: seq<nat>, i: nat)
    requires Distinct(bs) && i < |bs|
    ensures SetOf(bs[..i + 1]) == SetOf(bs[..i]) + {bs[i]}
    ensures bs[i] !in SetOf(bs[..i]) && bs[i] in SetOf(bs) && SetOf(bs[..i]) <= SetOf(bs)
  {
  }

  /**
   * The retirement loops of a sync.  Dropping surplus leaves stops at the first failure;
   * giving back unused new leaves goes on regardless.
   */
  method RetireBlocks(sb: SbInfo, bs: seq<nat>, stop: bool) returns (ok: bool)
    requires sb.Valid() && OwnedLeaves(sb, bs)
    modifies sb`nrFree, sb`shutdown, sb`faults, sb.bfree, sb.pending
    ensures sb.Valid() && (old(sb.shutdown) ==> sb.shutdown)
    ensures old(sb.faults) == [] ==> sb.faults == [] && sb.shutdown == old(sb.shutdown)
    ensures old(sb.Free()) <= sb.Free() <= old(sb.Free()) + SetOf(bs)
    ensures ok ==> sb.Free() == old(sb.Free()) + SetOf(bs)
    ensures !old(sb.shutdown) && old(sb.faults) == [] ==> ok
  {
    hide SetOf, Distinct, BitSet, BitsOk;
    ok := true;
    var i := 0;
    ghost var free0 := sb.Free();
    NoBlocks(bs);
    while i < |bs|
      invariant 0 <= i <= |bs| && sb.Valid() && (old(sb.shutdown) ==> sb.shutdown)
      invariant old(sb.faults) == [] ==> sb.faults == [] && sb.shutdown == old(sb.shutdown)
      invariant free0 <= sb.Free() <= free0 + SetOf(bs[..i]) && SetOf(bs[..i]) <= SetOf(bs)
      invariant ok ==> sb.Free() == free0 + SetOf(bs[..i])
      invariant !old(sb.shutdown) && old(sb.faults) == [] ==> ok
    {
      NextBlock(bs, i);
      var done := RetireBlock(sb, bs[i]);
      i := i + 1;
      if !done {
        ok := false;
        if stop {
          return;
        }
      }
    }
    assert bs[..i] == bs;
  }

  /** No block of the tree itself lies in a data extent. */
  ghost predicate OwnBlocksUnused(extents: seq<Extent>, root: nat, leaves: seq<nat>) {
    Uses(extents, root) == 0 && forall j :: 0 <= j < |leaves| ==> Uses(extents, leaves[j]) == 0
  }

  /** The ownership check of a sync, which answers -EUCLEAN on overlap. */
  method OverlapsOwn(extents: seq<Extent>, root: nat, leaves: seq<nat>) returns (hit: bool)
    requires NoEmpties(extents)
    ensures hit <==> !OwnBlocksUnused(extents, root, leaves)
  {
    var i := 0;
    while i < |extents|
      invariant 0 <= i <= |extents|
      invariant OwnBlocksUnused(extents[..i], root, leaves)
    {
      var e := extents[i];
      OneMoreExtent(extents, root, i);
      if InRun(root, e.start, e.Len()) {
        return true;
      }
      var j := 0;
      while j < |leaves|
        invariant 0 <= j <= |leaves|
        invariant forall q :: 0 <= q < j ==> Uses(extents[..i + 1], leaves[q]) == 0
      {
        OneMoreExtent(extents, leaves[j], i);
        if InRun(leaves[j], e.start, e.Len()) {
          return true;
        }
        j := j + 1;
      }
      i := i + 1;
    }
    assert extents[..i] == extents;
    return false;
  }

  lemma OneMoreExtent(s: seq<Extent>, x: nat, i: nat)
    requires i < |s| && NoEmpties(s)
    ensures Uses(s[..i + 1], x) == Uses(s[..i], x) + if InRun(x, s[i].start, s[i].Len()) then 1 else 0
    ensures InRun(x, s[i].start, s[i].Len()) ==> Uses(s, x) > 0
  {
    assert s[..i + 1] == s[..i] + [s[i]];
    UsesConcat(s[..i], [s[i]], x);
    UsesOne(s[i], x);
    UsesBound(s, x, i);
  }

  lemma NoLeafWritten(disk: Disk, s: seq<Extent>, leaves: seq<nat>)
    requires |leaves| == LeafCount(|s|)
    ensures LeavesWritten(disk, s, leaves, 0)
  {
  }

  lemma LeafWritten(disk: Disk, s: seq<Extent>, leaves: seq<nat>, i: nat)
    requires |leaves| == LeafCount(|s|) && Distinct(leaves) && i < |leaves| && i * PER_LEAF < |s|
    requires LeavesWritten(disk, s, leaves, i)
    ensures LeavesWritten(disk[leaves[i] := Leaf(Chunk(s, i))], s, leaves, i + 1)
    ensures leaves[i] in disk && disk[leaves[i]] == Leaf(Chunk(s, i)) ==> LeavesWritten(disk, s, leaves, i + 1)
  {
  }


  /** The leaf loop of a sync: a reused leaf that already holds its chunk is not rewritten. */
  method WriteLeaves(sb: SbInfo, dev: Device, s: seq<Extent>, leaves: seq<nat>, reused: nat) returns (ok: bool)
    requires |leaves| == LeafCount(|s|) && Distinct(leaves)
    requires forall i :: 0 <= i < |leaves| ==> leaves[i] in dev.disk
    modifies dev, sb`faults, sb`shutdown
    ensures ok ==> LeavesWritten(dev.disk, s, leaves, |leaves|)
    ensures dev.disk.Keys == old(dev.disk).Keys
    ensures forall b :: b in dev.disk && b !in leaves ==> dev.disk[b] == old(dev.disk)[b]
    ensures sb.shutdown == (old(sb.shutdown) || !ok)
    ensures old(sb.faults) == [] ==> ok && sb.faults == []
  {
    hide LeavesWritten, Chunk, Distinct;
    NoLeafWritten(dev.disk, s, leaves);
    ok := true;
    var i := 0;
    while i < |leaves|
      invariant 0 <= i <= |leaves| && ok
      invariant LeavesWritten(dev.disk, s, leaves, i)
      invariant dev.disk.Keys == old(dev.disk).Keys
      invariant forall b :: b in dev.disk && b !in leaves ==> dev.disk[b] == old(dev.disk)[b]
      invariant sb.shutdown == old(sb.shutdown)
      invariant old(sb.faults) == [] ==> sb.faults == []
    {
      LeafCountBounds(|s|, i);
      LeafWritten(dev.disk, s, leaves, i);
      if !(i < reused && dev.disk[leaves[i]] == Leaf(Chunk(s, i))) {
        dev.disk := dev.disk[leaves[i] := Leaf(Chunk(s, i))];
        ok := sb.Persist();
        if !ok {
          return;
        }
      }
      i := i + 1;
    }
  }

  /** The tree an inode publishes, as the sync finds it. */
  ghost predicate SyncReady(sb: SbInfo, dev: Device, ci: InodeInfo, buf: ExtentBuffer)
    reads sb, sb.bfree, sb.pending, dev, ci, buf
  {
    && sb.Valid() && Disjoint(buf.extents) && OwnedLeaves(sb, buf.leafBlocks)
    && 0 < ci.root < sb.nrBlocks && ci.root !in sb.Free() && ci.root !in buf.leafBlocks
    && (forall b: nat :: b < sb.nrBlocks ==> b in dev.disk)
    && (forall b :: b in sb.Free() ==> sb.rootDirBlock < b < sb.nrBlocks)
    && |buf.leafBlocks| <= ci.blocks
  }

  ghost predicate SameOutside(d: Disk, e: Disk, root: nat, leaves: seq<nat>, more: seq<nat>) {
    d.Keys == e.Keys && forall b :: b in d && b != root && b !in leaves && b !in more ==> d[b] == e[b]
  }

  /** The leaf blocks of the new tree: a prefix of the old ones, then fresh ones. */
  lemma NewLeafSet(olds: seq<nat>, n: nat, got: seq<nat>, free0: set<nat>)
    requires n <= |olds| && Distinct(olds) && Distinct(got)
    requires SetOf(olds) !! free0 && SetOf(got) <= free0
    ensures Distinct(olds[..n] + got)
    ensures free0 - SetOf(got) == free0 - SetOf(olds[..n] + got)
    ensures SetOf(olds[..n] + got) !! free0 - SetOf(got)
  {
    var a := olds[..n];
    assert forall x :: x in SetOf(a) ==> x in SetOf(olds);
    assert SetOf(a + got) == SetOf(a) + SetOf(got);
    forall i, j | 0 <= i < j < |a + got| ensures (a + got)[i] != (a + got)[j] {
      if i < n <= j {
        assert (a + got)[j] in SetOf(got) && (a + got)[i] in SetOf(olds);
      }
    }
  }

  /** The old leaves a shorter tree drops can go back to the allocator. */
  lemma SurplusLeaves(sb: SbInfo, olds: seq<nat>, leaves: seq<nat>, kept: nat, free0: set<nat>)
    requires kept == (if |olds| < |leaves| then |olds| else |leaves|) && leaves[..kept] == olds[..kept]
    requires Distinct(olds) && SetOf(olds) !! free0 && sb.Free() == free0 - SetOf(leaves)
    requires forall i :: 0 <= i < |olds| ==> sb.rootDirBlock < olds[i] < sb.nrBlocks
    ensures OwnedLeaves(sb, olds[kept..])
    ensures sb.Free() + SetOf(olds[kept..]) == free0 + SetOf(olds) - SetOf(leaves)
    ensures SetOf(leaves) !! SetOf(olds[kept..])
  {
    var a, b := olds[..kept], olds[kept..];
    assert olds == a + b;
    assert SetOf(olds) == SetOf(a) + SetOf(b);
    assert SetOf(a) !! SetOf(b) by {
      forall x | x in SetOf(a) ensures x !in SetOf(b) {
        var i :| 0 <= i < kept && olds[i] == x;
      }
    }
    if kept == |olds| {
      assert b == [];
    } else {
      assert leaves == a;
    }
  }

  /** The failure exit of a sync that has changed no metadata: unused new leaves go back. */
  method ReturnLeaves(sb: SbInfo, got: seq<nat>, ghost free0: set<nat>)
    requires sb.Valid() && Distinct(got) && SetOf(got) <= free0 && SetOf(got) !! sb.Free() && sb.Free() <= free0
    requires forall b :: b in free0 ==> sb.rootDirBlock < b < sb.nrBlocks
    modifies sb`nrFree, sb`shutdown, sb`faults, sb.bfree, sb.pending
    ensures sb.Valid() && (old(sb.shutdown) ==> sb.shutdown) && sb.Free() <= free0
    ensures old(sb.faults) == [] ==> sb.faults == [] && sb.shutdown == old(sb.shutdown)
    ensures old(sb.faults) == [] && !sb.shutdown && old(sb.Free()) == free0 - SetOf(got) ==> sb.Free() == free0
  {
    hide BitSet, SetOf, Distinct, BitsOk;
    FreshOwned(sb, got, free0);
    var ok := RetireBlocks(sb, got, false);
  }

  /** The data lies on allocated blocks that are not blocks of the tree. */
  ghost predicate DataApart(s: seq<Extent>, free: set<nat>, root: nat, leaves: seq<nat>) {
    OwnBlocksUnused(s, root, leaves) && forall x :: x in free ==> Uses(s, x) == 0
  }

  lemma ApartFromNew(s: seq<Extent>, free: set<nat>, root: nat, olds: seq<nat>, leaves: seq<nat>)
    requires DataApart(s, free, root, olds)
    requires forall i :: 0 <= i < |leaves| ==> leaves[i] in olds || leaves[i] in free
    ensures OwnBlocksUnused(s, root, leaves)
  {
    hide Uses;
  }

  lemma ApartSame(s: seq<Extent>, t: seq<Extent>, free: set<nat>, root: nat, leaves: seq<nat>)
    requires SameMeaning(s, t) && DataApart(s, free, root, leaves)
    ensures DataApart(t, free, root, leaves)
  {
  }

  /** The first half of a sync: leaf blocks for the new tree, checked against its own data. */
  method AcquireLeaves(sb: SbInfo, root: nat, olds: seq<nat>, s: seq<Extent>) returns (r: Result<seq<nat>>)
    requires sb.Valid() && !sb.shutdown && OwnedLeaves(sb, olds) && NoEmpties(s)
    requires 0 < root < sb.nrBlocks && root !in sb.Free() && root !in olds
    requires forall b :: b in sb.Free() ==> sb.rootDirBlock < b < sb.nrBlocks
    modifies sb`nrFree, sb`shutdown, sb`faults, sb.bfree, sb.pending
    ensures sb.Valid() && (old(sb.faults) == [] ==> sb.faults == [] && !sb.shutdown)
    ensures r.Ok? ==>
        && !sb.shutdown && |r.value| == LeafCount(|s|) && Distinct(r.value) && root !in r.value
        && (forall i :: 0 <= i < |r.value| ==> sb.rootDirBlock < r.value[i] < sb.nrBlocks)
        && (forall i :: 0 <= i < |r.value| && i < |olds| ==> r.value[i] == olds[i])
        && OwnBlocksUnused(s, root, r.value)
        && sb.Free() == old(sb.Free()) - SetOf(r.value) && SetOf(r.value) <= old(sb.Free()) + SetOf(olds)
    ensures r.Err? ==> r.error == ENOSPC || r.error == EUCLEAN
    ensures r.Err? && !sb.shutdown ==> sb.Free() <= old(sb.Free())
    ensures r.Err? && old(sb.faults) == [] ==> sb.Free() == old(sb.Free())
    ensures old(sb.faults) == [] && DataApart(s, old(sb.Free()), root, olds) ==>
        && (r.Ok? <==> LeafCount(|s|) <= |olds| + |old(sb.Free()) - sb.busy|)
        && (r.Err? ==> r.error == ENOSPC)
  {
    hide NoEmpties, OwnBlocksUnused, BitSet, SetOf, Distinct, Usable, LeafCount, BitsOk, DataApart;
    var want := LeafCount(|s|);
    ghost var free0 := sb.Free();
    var kept := if |olds| < want then |olds| else want;
    var got, ok := AllocLeaves(sb, want - kept);
    if !ok {
      ReturnLeaves(sb, got, free0);
      return Err(ENOSPC);
    }
    var leaves := olds[..kept] + got;
    NewLeafSet(olds, kept, got, free0);
    LeavesInside(olds, kept, got, root, free0);
    if DataApart(s, free0, root, olds) {
      ApartFromNew(s, free0, root, olds, leaves);
    }
    var hit := OverlapsOwn(s, root, leaves);
    if hit {
      ReturnLeaves(sb, got, free0);
      return Err(EUCLEAN);
    }
    return Ok(leaves);
  }

  /** The second half: leaves first, then the root that names them. */
  method PublishTree(sb: SbInfo, dev: Device, root: nat, s: seq<Extent>, leaves: seq<nat>, reused: nat) returns (ok: bool)
    requires |s| <= MAX_FILE_EXTENTS && |leaves| == LeafCount(|s|) && Distinct(leaves) && root !in leaves
    requires root in dev.disk && forall i :: 0 <= i < |leaves| ==> leaves[i] in dev.disk
    modifies dev, sb`faults, sb`shutdown
    ensures ok ==> Load(dev.disk, root) == Ok(Loaded(s, leaves))
    ensures SameOutside(old(dev.disk), dev.disk, root, leaves, leaves)
    ensures sb.shutdown == (old(sb.shutdown) || !ok)
    ensures old(sb.faults) == [] ==> ok && sb.faults == []
  {
    hide Load, LeavesWritten, RootFor, Distinct, LeafCount, BitsOk;
    ok := WriteLeaves(sb, dev, s, leaves, reused);
    if !ok {
      return;
    }
    RootWriteKeepsLeaves(dev.disk, s, leaves, root, RootFor(s, leaves));
    dev.disk := dev.disk[root := RootFor(s, leaves)];
    LoadAfterWrite(dev.disk, root, s, leaves);
    ok := sb.Persist();
  }

  lemma FreshOwned(sb: SbInfo, got: seq<nat>, free0: set<nat>)
    requires Distinct(got) && SetOf(got) <= free0 && SetOf(got) !! sb.Free()
    requires forall b :: b in free0 ==> sb.rootDirBlock < b < sb.nrBlocks
    ensures OwnedLeaves(sb, got)
  {
    forall i | 0 <= i < |got| ensures sb.rootDirBlock < got[i] < sb.nrBlocks {
      assert got[i] in SetOf(got);
    }
  }

  lemma LeavesInside(olds: seq<nat>, n: nat, got: seq<nat>, root: nat, free0: set<nat>)
    requires n <= |olds| && SetOf(got) <= free0 && root !in free0 && root !in olds
    ensures root !in olds[..n] + got
    ensures forall i :: 0 <= i < |olds[..n] + got| ==>
      (olds[..n] + got)[i] in olds || (olds[..n] + got)[i] in free0
    ensures SetOf(olds[..n] + got) <= free0 + SetOf(olds)
  {
    forall i | 0 <= i < |olds[..n] + got|
      ensures (olds[..n] + got)[i] in olds || (olds[..n] + got)[i] in free0
    {
      if i >= n {
        assert got[i - n] in SetOf(got);
      }
    }
  }

  lemma RootWriteKeepsLeaves(disk: Disk, s: seq<Extent>, leaves: seq<nat>, root: nat, b: Block)
    requires |leaves| == LeafCount(|s|) && LeavesWritten(disk, s, leaves, |leaves|) && root !in leaves
    ensures LeavesWritten(disk[root := b], s, leaves, |leaves|)
  {
  }

  /**
   * Why a sync of n extents fails on a healthy volume, if it does: they do not fit a tree, or
   * the leaf blocks that are missing cannot be had.
   */
  ghost function SyncError(n: nat, leaves: nat, room: nat): Option<Errno> {
    if n > MAX_FILE_EXTENTS then Some(EFBIG)
    else if LeafCount(n) > leaves + room then Some(ENOSPC)
    else None
  }

  lemma FewerFit(n: nat, m: nat, leaves: nat, room: nat)
    requires n <= m && SyncError(m, leaves, room).None?
    ensures SyncError(n, leaves, room).None? && forall more: nat :: more >= room ==> SyncError(n, leaves, more).None?
  {
  }

  ghost function ErrorOf<T>(r: Result<T>): Option<Errno> {
    if r.Ok? then None else Some(r.error)
  }

  /** The body of a sync, once the list is normalised and fits: take leaves, write, drop the surplus. */
  method RebuildTree(sb: SbInfo, dev: Device, root: nat, olds: seq<nat>, s: seq<Extent>) returns (r: Result<seq<nat>>)
    requires sb.Valid() && !sb.shutdown && OwnedLeaves(sb, olds) && NoEmpties(s) && |s| <= MAX_FILE_EXTENTS
    requires 0 < root < sb.nrBlocks && root !in sb.Free() && root !in olds
    requires forall b: nat :: b < sb.nrBlocks ==> b in dev.disk
    requires forall b :: b in sb.Free() ==> sb.rootDirBlock < b < sb.nrBlocks
    modifies sb`nrFree, sb`shutdown, sb`faults, sb.bfree, sb.pending, dev
    ensures sb.Valid() && (old(sb.faults) == [] ==> sb.faults == [] && !sb.shutdown)
    ensures r.Ok? ==>
        && Load(dev.disk, root) == Ok(Loaded(s, r.value)) && OwnBlocksUnused(s, root, r.value)
        && OwnedLeaves(sb, r.value) && root !in r.value
        && sb.Free() == old(sb.Free()) + SetOf(olds) - SetOf(r.value)
        && SetOf(r.value) <= old(sb.Free()) + SetOf(olds)
        && SameOutside(old(dev.disk), dev.disk, root, r.value, r.value)
    ensures r.Err? ==> r.error != EFBIG
    ensures r.Err? && !sb.shutdown ==> dev.disk == old(dev.disk) && sb.Free() <= old(sb.Free())
    ensures r.Err? && old(sb.faults) == [] ==> sb.Free() == old(sb.Free())
    ensures old(sb.faults) == [] && DataApart(s, old(sb.Free()), root, olds) ==>
        && (r.Ok? <==> LeafCount(|s|) <= |olds| + |old(sb.Free()) - sb.busy|)
        && (r.Err? ==> r.error == ENOSPC)
  {
    hide NoEmpties, Load, OwnBlocksUnused, BitSet, SetOf, Distinct, SameOutside, LeafCount, BitsOk, DataApart;
    var acquired := AcquireLeaves(sb, root, olds, s);
    if acquired.Err? {
      return Err(acquired.error);
    }
    var leaves := acquired.value;
    var kept := if |olds| < |leaves| then |olds| else |leaves|;
    SurplusLeaves(sb, olds, leaves, kept, old(sb.Free()));
    var ok := PublishTree(sb, dev, root, s, leaves, |olds|);
    if !ok {
      return Err(EIO);
    }
    ok := RetireBlocks(sb, olds[kept..], true);
    if !ok {
      sb.shutdown := true;
      return Err(ENOSPC);
    }
    return Ok(leaves);
  }

  /**
   * simplefs_file_sync_extents.  On success the tree on disk loads back as exactly the
   * normalised list, and every block that joined or left the tree moved between the
   * allocator and the tree.  A failure that changed no metadata changes nothing; any other
   * failure leaves the volume shut down.
   */
  method SyncExtents(sb: SbInfo, dev: Device, ci: InodeInfo, buf: ExtentBuffer) returns (r: Result<()>)
    requires SyncReady(sb, dev, ci, buf)
    modifies sb`nrFree, sb`shutdown, sb`faults, sb.bfree, sb.pending, dev, ci`blocks, buf
    ensures sb.Valid() && (old(sb.shutdown) ==> sb.shutdown)
    ensures Canonical(buf.extents) && SameMeaning(old(buf.extents), buf.extents)
    ensures r.Ok? ==>
        && Load(dev.disk, ci.root) == Ok(Loaded(buf.extents, buf.leafBlocks))
        && OwnBlocksUnused(buf.extents, ci.root, buf.leafBlocks)
        && OwnedLeaves(sb, buf.leafBlocks) && ci.root !in buf.leafBlocks
    ensures r.Ok? ==>
        && ci.blocks + |old(buf.leafBlocks)| == old(ci.blocks) + |buf.leafBlocks|
        && sb.Free() == old(sb.Free()) + SetOf(old(buf.leafBlocks)) - SetOf(buf.leafBlocks)
        && SetOf(buf.leafBlocks) <= old(sb.Free()) + SetOf(old(buf.leafBlocks))
    ensures r.Err? ==> buf.leafBlocks == old(buf.leafBlocks) && ci.blocks == old(ci.blocks)
    ensures r.Err? && !sb.shutdown ==> dev.disk == old(dev.disk) && sb.Free() <= old(sb.Free())
    ensures old(sb.faults) == [] ==> sb.faults == [] && sb.shutdown == old(sb.shutdown)
    ensures r.Err? && old(sb.faults) == [] ==> sb.Free() == old(sb.Free())
    ensures r == Err(EFBIG) <==> |buf.extents| > MAX_FILE_EXTENTS
    ensures r.Ok? ==> SameOutside(old(dev.disk), dev.disk, ci.root, buf.leafBlocks, buf.leafBlocks)
    ensures Tidy(old(buf.extents)) ==> buf.extents == Settled(old(buf.extents))
    ensures old(sb.shutdown) ==> r.Err?
    // Without a fault it succeeds if and only if the list fits a tree and its leaves can be had.
    ensures old(sb.Healthy()) && DataApart(old(buf.extents), old(sb.Free()), ci.root, old(buf.leafBlocks)) ==>
        && (r.Ok? <==>
              && |buf.extents| <= MAX_FILE_EXTENTS
              && LeafCount(|buf.extents|) <= |old(buf.leafBlocks)| + |old(sb.Free()) - sb.busy|)
        && (r.Err? ==> r.error == if |buf.extents| > MAX_FILE_EXTENTS then EFBIG else ENOSPC)
  {
    hide SameMeaning, Disjoint, NoEmpties, Ascending, Load, OwnBlocksUnused, BitSet, SetOf, Distinct, SameOutside,
      LeafCount, BitsOk, DataApart, Tidy, Settled, SortedByBlock, EmptiesAtZero, MergeBlocked, FullyMerged, MergeList;
    buf.Normalize();
    var s := buf.extents;
    if DataApart(old(buf.extents), old(sb.Free()), ci.root, old(buf.leafBlocks)) {
      ApartSame(old(buf.extents), s, sb.Free(), ci.root, buf.leafBlocks);
    }
    if |s| > MAX_FILE_EXTENTS {
      return Err(EFBIG);
    }
    if sb.shutdown {
      return Err(EIO);
    }
    var leaves := RebuildTree(sb, dev, ci.root, buf.leafBlocks, s);
    if leaves.Err? {
      return Err(leaves.error);
    }
    ci.blocks := ci.blocks + |leaves.value| - |buf.leafBlocks|;
    buf.leafBlocks := leaves.value;
    return Ok(());
  }
}
