/**
 * Whole file operations (simplefs_file.c, simplefs_inode.c): load the extent tree, edit
 * the list, allocate or free blocks, publish the new tree.
 */
module FileOps {
  import opened Wrappers
  import opened Extents
  import opened ExtentBuffers
  import opened Bitmaps
  import opened ExtentTree
  import opened Surgery
  import opened Unwritten

  const MAX_FILE_BLOCKS: nat := MAX_EXTENT_BLOCKS * MAX_FILE_EXTENTS

  // ---------- adding a mapping ----------

  /** `after` maps len more blocks from iblock on, to bno onward; nothing else changed. */
  ghost predicate Extended(after: seq<Extent>, before: seq<Extent>, iblock: nat, len: nat, bno: nat, flag: bool) {
    && (forall b: nat :: Lookup(after, b) ==
          if iblock <= b < iblock + len then Some(Loc(bno + (b - iblock), flag)) else Lookup(before, b))
    && (forall x: nat :: Uses(after, x) == Uses(before, x) + if InRun(x, bno, len) then 1 else 0)
    && Total(after) == Total(before) + len
  }

  ghost predicate Hole(s: seq<Extent>, lo: nat, len: nat) {
    forall b: nat :: lo <= b < lo + len ==> Lookup(s, b).None?
  }

  lemma InsertIsCanonical(s: seq<Extent>, idx: nat, e: Extent)
    requires Canonical(s) && idx <= |s| && !e.Empty()
    requires forall k :: 0 <= k < idx ==> s[k].End() <= e.block
    requires forall k :: idx <= k < |s| ==> e.End() <= s[k].block
    ensures Canonical(s[..idx] + [e] + s[idx..])
  {
    var t := s[..idx] + [e] + s[idx..];
    assert forall k :: 0 <= k < |t| ==> t[k] == if k < idx then s[k] else if k == idx then e else s[k - 1];
  }

  /** A new extent put into a hole. */
  lemma InsertExtends(s: seq<Extent>, idx: nat, e: Extent)
    requires Canonical(s) && idx <= |s| && !e.Empty()
    requires forall k :: 0 <= k < idx ==> s[k].End() <= e.block
    requires forall k :: idx <= k < |s| ==> e.End() <= s[k].block
    ensures Extended(s[..idx] + [e] + s[idx..], s, e.block, e.Len(), e.start, e.unwritten)
    ensures Hole(s, e.block, e.Len())
  {
    hide Lookup, Uses, Total;
    var a, c := s[..idx], s[idx..];
    var t := a + [e] + c;
    assert s == a + c;
    forall b: nat
      ensures Lookup(t, b) == if e.Covers(b) then Some(e.At(b)) else Lookup(s, b)
      ensures e.Covers(b) ==> Lookup(s, b).None?
    {
      LookupAround(a, [e], c, b);
      LookupConcat(a, c, b);
      LookupOne(e, b);
      if e.Covers(b) {
        LookupMiss(s, b);
      }
    }
    forall x: nat ensures Uses(t, x) == Uses(s, x) + e.Uses(x) {
      UsesConcat(a + [e], c, x);
      UsesConcat(a, [e], x);
      UsesConcat(a, c, x);
      UsesOne(e, x);
    }
    TotalConcat(a + [e], c);
    TotalConcat(a, [e]);
    TotalConcat(a, c);
    TotalOne(e);
  }

  /** An extent lengthened into the hole behind it. */
  lemma GrowExtends(s: seq<Extent>, idx: nat, n: nat)
    requires Canonical(s) && idx < |s| && 0 < n && s[idx].Len() + n <= MAX_EXTENT_BLOCKS
    requires idx + 1 < |s| ==> s[idx].End() + n <= s[idx + 1].block
    ensures var e := s[idx];
      var t := s[idx := e.(rawLen := e.Len() + n)];
      && Canonical(t) && Extended(t, s, e.End(), n, e.start + e.Len(), e.unwritten) && Hole(s, e.End(), n)
  {
    hide Lookup, Uses, Total, Extended, Hole, SameMeaning, Mergeable;
    var e := s[idx];
    var tail := Extent(e.End(), n, e.start + e.Len(), e.unwritten);
    RoomBehind(s, idx, n);
    InsertExtends(s, idx + 1, tail);
    hide Canonical;
    var g := e.(rawLen := e.Len() + n);
    var t := s[idx := g];
    assert Mergeable(e, tail) by {
      TailMerges(e, n);
    }
    MergeKeepsMeaning(e, tail);
    ReplaceKeepsMeaning(s[..idx], [e, tail], [g], s[idx + 1..]);
    assert s[..idx + 1] + [tail] + s[idx + 1..] == s[..idx] + [e, tail] + s[idx + 1..];
    assert t == s[..idx] + [g] + s[idx + 1..];
    ExtendedSame(s[..idx + 1] + [tail] + s[idx + 1..], t, s, e.End(), n, e.start + e.Len(), e.unwritten);
  }

  lemma TailMerges(e: Extent, n: nat)
    requires 0 < n && e.Len() + n <= MAX_EXTENT_BLOCKS
    ensures Mergeable(e, Extent(e.End(), n, e.start + e.Len(), e.unwritten))
  {
  }

  lemma RoomBehind(s: seq<Extent>, idx: nat, n: nat)
    requires Canonical(s) && idx < |s| && 0 < n && s[idx].Len() + n <= MAX_EXTENT_BLOCKS
    requires idx + 1 < |s| ==> s[idx].End() + n <= s[idx + 1].block
    ensures forall k :: idx + 1 <= k < |s| ==> s[idx].End() + n <= s[k].block
    ensures forall k :: 0 <= k <= idx ==> s[k].End() <= s[idx].End()
    ensures Canonical(s[idx := s[idx].(rawLen := s[idx].Len() + n)])
  {
    forall k | idx + 1 <= k < |s| ensures s[idx].End() + n <= s[k].block {
      if k > idx + 1 {
        assert s[idx + 1].End() <= s[k].block && !s[idx + 1].Empty();
      }
    }
    forall k | 0 <= k <= idx ensures s[k].End() <= s[idx].End() {
      if k < idx {
        assert s[k].End() <= s[idx].block;
      }
    }
  }

  lemma ExtendedSame(a: seq<Extent>, a': seq<Extent>, before: seq<Extent>, iblock: nat, len: nat, bno: nat, flag: bool)
    requires Extended(a, before, iblock, len, bno, flag) && SameMeaning(a, a')
    ensures Extended(a', before, iblock, len, bno, flag)
  {
    forall b: nat ensures Lookup(a', b) == Lookup(a, b) {
    }
  }

  // ---------- who owns what ----------

  ghost function DataSet(s: seq<Extent>): set<nat> {
    if s == [] then {} else (if s[0].Empty() then {} else RunSet(s[0].start, s[0].Len())) + DataSet(s[1..])
  }

  lemma {:induction false} DataSetUses(s: seq<Extent>, x: nat)
    ensures x in DataSet(s) <==> Uses(s, x) > 0
  {
    if s != [] {
      DataSetUses(s[1..], x);
    }
  }

  /** The blocks behind an extent tree's root. */
  ghost function TreeBlocks(l: Loaded): set<nat> {
    DataSet(l.extents) + SetOf(l.leaves)
  }

  /** Data blocks are allocated data-area blocks, used once, and not blocks of the tree. */
  ghost predicate DataOwned(free: set<nat>, rootDirBlock: nat, nrBlocks: nat, root: nat, leaves: seq<nat>, s: seq<Extent>) {
    && (forall x: nat :: Uses(s, x) <= 1)
    && (forall x :: x in DataSet(s) ==> rootDirBlock < x < nrBlocks && x != root)
    && DataSet(s) !! free && DataSet(s) !! SetOf(leaves)
  }

  /** On this disk the root loads as l, and no block behind it is free or shared. */
  ghost predicate Owns(free: set<nat>, rootDirBlock: nat, nrBlocks: nat, disk: Disk, root: nat, blocks: nat, l: Loaded) {
    && (forall b: nat :: b < nrBlocks ==> b in disk)
    && (forall b :: b in free ==> rootDirBlock < b < nrBlocks)
    && Load(disk, root) == Ok(l) && Canonical(l.extents)
    && LeavesOwned(free, rootDirBlock, nrBlocks, l.leaves)
    && 0 < root < nrBlocks && root !in free && root !in l.leaves
    && DataOwned(free, rootDirBlock, nrBlocks, root, l.leaves, l.extents)
    && |l.leaves| + Total(l.extents) <= blocks
  }

  /** The inode's tree loads as l, and the inode owns every block of it. */
  ghost predicate FileOk(sb: SbInfo, dev: Device, ci: InodeInfo, l: Loaded)
    reads sb, sb.bfree, sb.pending, dev, ci
  {
    sb.Valid() && Owns(sb.Free(), sb.rootDirBlock, sb.nrBlocks, dev.disk, ci.root, ci.blocks, l)
  }

  /** What a file keeps while the allocator only loses blocks. */
  lemma OwnsShrinks(free: set<nat>, free': set<nat>, rootDirBlock: nat, nrBlocks: nat, disk: Disk, root: nat,
                    blocks: nat, blocks': nat, l: Loaded)
    requires Owns(free, rootDirBlock, nrBlocks, disk, root, blocks, l) && free' <= free && blocks <= blocks'
    ensures Owns(free', rootDirBlock, nrBlocks, disk, root, blocks', l)
  {
  }

  lemma SameDataSet(s: seq<Extent>, t: seq<Extent>)
    requires forall x: nat :: Uses(s, x) == Uses(t, x)
    ensures DataSet(s) == DataSet(t)
  {
    forall x: nat ensures x in DataSet(s) <==> x in DataSet(t) {
      DataSetUses(s, x);
      DataSetUses(t, x);
    }
  }

  lemma SameMeaningUses(s: seq<Extent>, t: seq<Extent>)
    requires SameMeaning(s, t)
    ensures (forall x: nat :: Uses(s, x) == Uses(t, x)) && Total(s) == Total(t) && DataSet(s) == DataSet(t)
  {
    SameDataSet(s, t);
  }

  lemma ExtendedData(after: seq<Extent>, before: seq<Extent>, iblock: nat, len: nat, bno: nat, flag: bool)
    requires Extended(after, before, iblock, len, bno, flag)
    ensures DataSet(after) == DataSet(before) + RunSet(bno, len)
  {
    forall x: nat ensures x in DataSet(after) <==> x in DataSet(before) + RunSet(bno, len) {
      DataSetUses(after, x);
      DataSetUses(before, x);
    }
  }

  /** A candidate list whose blocks the inode already owns can be published. */
  method Publish(sb: SbInfo, dev: Device, ci: InodeInfo, buf: ExtentBuffer) returns (r: Result<()>)
    requires sb.Valid() && Disjoint(buf.extents) && OwnedLeaves(sb, buf.leafBlocks)
    requires forall b: nat :: b < sb.nrBlocks ==> b in dev.disk
    requires forall b :: b in sb.Free() ==> sb.rootDirBlock < b < sb.nrBlocks
    requires 0 < ci.root < sb.nrBlocks && ci.root !in sb.Free() && ci.root !in buf.leafBlocks
    requires DataOwned(sb.Free(), sb.rootDirBlock, sb.nrBlocks, ci.root, buf.leafBlocks, buf.extents)
    requires |buf.leafBlocks| + Total(buf.extents) <= ci.blocks
    modifies sb`nrFree, sb`shutdown, sb`faults, sb.bfree, sb.pending, dev, ci`blocks, buf
    ensures sb.Valid() && (old(sb.shutdown) ==> sb.shutdown)
    ensures SameMeaning(old(buf.extents), buf.extents)
    ensures r.Ok? ==>
        && FileOk(sb, dev, ci, Loaded(buf.extents, buf.leafBlocks))
        && ci.blocks + |old(buf.leafBlocks)| == old(ci.blocks) + |buf.leafBlocks|
        && sb.Free() == old(sb.Free()) + SetOf(old(buf.leafBlocks)) - SetOf(buf.leafBlocks)
        && SetOf(buf.leafBlocks) <= old(sb.Free()) + SetOf(old(buf.leafBlocks))
        && SameOutside(old(dev.disk), dev.disk, ci.root, buf.leafBlocks, buf.leafBlocks)
    ensures r.Err? ==> ci.blocks == old(ci.blocks) && buf.leafBlocks == old(buf.leafBlocks)
    ensures old(sb.faults) == [] ==> sb.faults == [] && sb.shutdown == old(sb.shutdown) && (r.Err? ==> sb.Free() == old(sb.Free()))
    ensures r.Err? && !sb.shutdown ==> dev.disk == old(dev.disk) && sb.Free() <= old(sb.Free())
    ensures r.Err? && !sb.shutdown && old(sb.faults) == [] ==> sb.Free() == old(sb.Free())
    ensures Tidy(old(buf.extents)) ==> buf.extents == Settled(old(buf.extents))
    ensures Canonical(old(buf.extents)) ==> buf.extents == MergeList(old(buf.extents))
    ensures old(sb.shutdown) ==> r.Err?
    ensures old(sb.Healthy()) ==>
        ErrorOf(r) == SyncError(|buf.extents|, |old(buf.leafBlocks)|, |old(sb.Free()) - sb.busy|)
  {
    hide SameMeaning, Disjoint, NoEmpties, Ascending, Load, OwnBlocksUnused, BitSet, SetOf, Distinct, DataSet,
      SameOutside, BitsOk, DataApart, Tidy, Settled, MergeList, LeafCount, Canonical;
    ghost var s, olds, free0 := buf.extents, buf.leafBlocks, sb.Free();
    OwnedApart(free0, sb.rootDirBlock, sb.nrBlocks, ci.root, olds, s);
    if Canonical(s) {
      CanonicalSettles(s);
    }
    r := SyncExtents(sb, dev, ci, buf);
    if r.Ok? {
      SameMeaningUses(s, buf.extents);
      PublishedOwned(free0, sb.Free(), sb.rootDirBlock, sb.nrBlocks, ci.root, olds, buf.leafBlocks, s, buf.extents);
      SameOutsideKeys(old(dev.disk), dev.disk, ci.root, buf.leafBlocks);
    }
  }

  lemma OwnedApart(free: set<nat>, rootDirBlock: nat, nrBlocks: nat, root: nat, leaves: seq<nat>, s: seq<Extent>)
    requires DataOwned(free, rootDirBlock, nrBlocks, root, leaves, s)
    ensures DataApart(s, free, root, leaves)
  {
    DataSetUses(s, root);
    forall j | 0 <= j < |leaves| ensures Uses(s, leaves[j]) == 0 {
      DataSetUses(s, leaves[j]);
      assert leaves[j] in SetOf(leaves);
    }
    forall x | x in free ensures Uses(s, x) == 0 {
      DataSetUses(s, x);
    }
  }

  lemma SameOutsideKeys(d: Disk, e: Disk, root: nat, leaves: seq<nat>)
    requires SameOutside(d, e, root, leaves, leaves)
    ensures d.Keys == e.Keys
  {
  }

  lemma PublishedOwned(free0: set<nat>, free: set<nat>, rootDirBlock: nat, nrBlocks: nat, root: nat,
                       olds: seq<nat>, leaves: seq<nat>, s: seq<Extent>, t: seq<Extent>)
    requires DataOwned(free0, rootDirBlock, nrBlocks, root, olds, s) && LeavesOwned(free0, rootDirBlock, nrBlocks, olds)
    requires (forall x: nat :: Uses(s, x) == Uses(t, x)) && DataSet(s) == DataSet(t)
    requires OwnBlocksUnused(t, root, leaves) && free == free0 + SetOf(olds) - SetOf(leaves)
    requires forall b :: b in free0 ==> rootDirBlock < b < nrBlocks
    requires root !in free0 && root !in olds
    ensures DataOwned(free, rootDirBlock, nrBlocks, root, leaves, t)
    ensures forall b :: b in free ==> rootDirBlock < b < nrBlocks
    ensures root !in free
  {
    forall x | x in SetOf(leaves) ensures x !in DataSet(t) {
      var j :| 0 <= j < |leaves| && leaves[j] == x;
      DataSetUses(t, x);
    }
  }

  /** The buffer every operation on a file begins with. */
  method OpenBuffer(dev: Device, root: nat, ghost l: Loaded) returns (buf: ExtentBuffer)
    requires Load(dev.disk, root) == Ok(l)
    ensures fresh(buf) && buf.extents == l.extents && buf.leafBlocks == l.leaves
  {
    hide Load;
    var loaded := LoadExtents(dev.disk, root);
    buf := new ExtentBuffer(loaded.value.extents, loaded.value.leaves);
  }

  // ---------- allocating ----------

  /** There is not one block that the allocator could hand out. */
  ghost predicate NoBlockUsable(free: set<nat>, busy: set<nat>) {
    forall at: nat :: !Usable(free, busy, at, 1)
  }

  /** No run of len blocks can be had anywhere. */
  ghost predicate NoRun(free: set<nat>, busy: set<nat>, len: nat) {
    forall at: nat :: !Usable(free, busy, at, len)
  }

  /** The lengths tried for a request: want, want / 2, want / 4, and so on down to 1. */
  ghost function Halvings(want: nat): set<nat> {
    if want == 0 then {} else {want} + Halvings(want / 2)
  }

  lemma {:induction false} HalvingBounds(want: nat, h: nat)
    ensures h in Halvings(want) ==> 0 < h <= want
    ensures want > 0 ==> 1 in Halvings(want)
  {
    if want > 0 {
      HalvingBounds(want / 2, h);
    }
  }

  lemma {:induction false} HalvingsNest(want: nat, len: nat, h: nat)
    requires len in Halvings(want) && h in Halvings(want)
    ensures h in Halvings(len) || h > len
    ensures len > 1 ==> len / 2 in Halvings(want)
  {
    HalvingBounds(want / 2, h);
    HalvingBounds(want / 2, len);
    if len == want {
    } else if h == want {
      HalvingsNest(want / 2, len, len);
    } else {
      HalvingsNest(want / 2, len, h);
    }
  }

  /** Every longer length was refused. */
  ghost predicate Refused(free: set<nat>, busy: set<nat>, want: nat, len: nat) {
    forall h :: h in Halvings(want) && h > len ==> NoRun(free, busy, h)
  }

  lemma RefusedNext(free: set<nat>, busy: set<nat>, want: nat, len: nat)
    requires len in Halvings(want) && Refused(free, busy, want, len) && NoRun(free, busy, len)
    ensures Refused(free, busy, want, len / 2)
  {
    hide NoRun;
    forall h | h in Halvings(want) && h > len / 2 ensures NoRun(free, busy, h) {
      HalvingsNest(want, len, h);
      HalvingBounds(len / 2, h);
    }
  }

  /** The run the allocator hands out: of the longest length that fits anywhere, the first. */
  ghost predicate BestRun(free: set<nat>, busy: set<nat>, want: nat, bno: nat, len: nat) {
    && len in Halvings(want) && Refused(free, busy, want, len)
    && Usable(free, busy, bno, len) && NoneUsableBefore(free, busy, len, bno)
  }

  /** There is only one. */
  lemma BestRunIsUnique(free: set<nat>, busy: set<nat>, want: nat, bno: nat, len: nat, bno': nat, len': nat)
    requires BestRun(free, busy, want, bno, len) && BestRun(free, busy, want, bno', len')
    ensures bno == bno' && len == len'
  {
    hide Usable;
  }

  /** get_free_blocks with the request halved until something fits. */
  method AllocateRun(sb: SbInfo, want: nat) returns (bno: nat, len: nat)
    requires sb.Valid()
    modifies sb`nrFree, sb`shutdown, sb`faults, sb.bfree, sb.pending
    ensures sb.Valid() && (old(sb.shutdown) ==> sb.shutdown)
    ensures old(sb.faults) == [] ==> sb.faults == [] && sb.shutdown == old(sb.shutdown)
    ensures sb.Free() <= old(sb.Free())
    ensures bno > 0 ==> !sb.shutdown && 0 < len <= want && RunSet(bno, len) <= old(sb.Free())
                        && sb.Free() == old(sb.Free()) - RunSet(bno, len)
    ensures bno == 0 && !sb.shutdown ==> sb.Free() == old(sb.Free())
    ensures bno == 0 && !sb.shutdown && want > 0 ==> NoBlockUsable(sb.Free(), sb.busy)
    ensures bno > 0 ==> !NoBlockUsable(old(sb.Free()), sb.busy)
    ensures bno > 0 ==> BestRun(old(sb.Free()), sb.busy, want, bno, len)
  {
    hide BitSet, RunSet, Usable, NoneUsableBefore, BitsOk, Halvings, Refused;
    len := want;
    WantIsTried(old(sb.Free()), sb.busy, want);
    bno := sb.GetFreeBlocks(len);
    while bno == 0 && len > 1
      invariant sb.Valid() && (old(sb.shutdown) ==> sb.shutdown) && len <= want && (want > 0 ==> len > 0)
      invariant old(sb.faults) == [] ==> sb.faults == [] && sb.shutdown == old(sb.shutdown)
      invariant sb.Free() <= old(sb.Free())
      invariant bno == 0 && !sb.shutdown ==> sb.Free() == old(sb.Free())
      invariant bno == 0 && !sb.shutdown && len > 0 ==> forall at: nat :: !Usable(sb.Free(), sb.busy, at, len)
      invariant bno > 0 ==> !sb.shutdown && 0 < len && Usable(old(sb.Free()), sb.busy, bno, len)
                            && sb.Free() == old(sb.Free()) - RunSet(bno, len)
      invariant want > 0 ==> len in Halvings(want)
      invariant want > 0 && !sb.shutdown ==> Refused(old(sb.Free()), sb.busy, want, len)
      invariant bno > 0 ==> NoneUsableBefore(old(sb.Free()), sb.busy, len, bno)
      decreases len, bno == 0
    {
      if !sb.shutdown {
        RefusedNext(old(sb.Free()), sb.busy, want, len);
      }
      HalvingsNest(want, len, len);
      len := len / 2;
      bno := sb.GetFreeBlocks(len);
    }
    if bno > 0 {
      UsableRun(old(sb.Free()), sb.busy, bno, len);
    }
  }

  lemma WantIsTried(free: set<nat>, busy: set<nat>, want: nat)
    ensures want > 0 ==> want in Halvings(want) && Refused(free, busy, want, want)
  {
    forall h | h in Halvings(want) ensures h <= want {
      HalvingBounds(want, h);
    }
  }

  lemma UsableRun(free: set<nat>, busy: set<nat>, at: nat, len: nat)
    requires Usable(free, busy, at, len)
    ensures RunSet(at, len) <= free
    ensures len > 0 ==> !NoBlockUsable(free, busy) && Usable(free, busy, at, 1)
  {
    assert len > 0 ==> Usable(free, busy, at, 1);
  }

  /** The run by which an extent grows into the blocks from `at` on: the longest length that fits there. */
  ghost predicate BestGrowth(free: set<nat>, busy: set<nat>, at: nat, want: nat, len: nat) {
    len in Halvings(want) && Usable(free, busy, at, len) && GrowthRefused(free, busy, at, want, len)
  }

  lemma BestGrowthIsUnique(free: set<nat>, busy: set<nat>, at: nat, want: nat, len: nat, len': nat)
    requires BestGrowth(free, busy, at, want, len) && BestGrowth(free, busy, at, want, len')
    ensures len == len'
  {
    hide Usable;
  }

  ghost predicate GrowthRefused(free: set<nat>, busy: set<nat>, at: nat, want: nat, len: nat) {
    forall h :: h in Halvings(want) && h > len ==> !Usable(free, busy, at, h)
  }

  lemma GrowthRefusedNext(free: set<nat>, busy: set<nat>, at: nat, want: nat, len: nat)
    requires len in Halvings(want) && GrowthRefused(free, busy, at, want, len) && !Usable(free, busy, at, len)
    ensures GrowthRefused(free, busy, at, want, len / 2)
  {
    hide Usable;
    forall h | h in Halvings(want) && h > len / 2 ensures !Usable(free, busy, at, h) {
      HalvingsNest(want, len, h);
      HalvingBounds(len / 2, h);
    }
  }

  lemma NothingRefused(free: set<nat>, busy: set<nat>, at: nat, want: nat)
    ensures GrowthRefused(free, busy, at, want, want) && (want > 0 ==> want in Halvings(want))
  {
    forall h | h in Halvings(want) ensures h <= want {
      HalvingBounds(want, h);
    }
  }

  /** Blocks that can be had lie inside the volume, and block 0 is not one of them. */
  lemma UsableInside(sb: SbInfo, at: nat, len: nat)
    requires sb.Valid() && len > 0 && Usable(sb.Free(), sb.busy, at, len)
    ensures 0 < at && at + len <= sb.nrBlocks
  {
    ReservedZero(sb.bfree[..], sb.pending[..], sb.nrFree);
    hide BitsOk;
    assert at in sb.Free() && at + len - 1 in sb.Free();
  }

  /** The growth loop of simplefs_get_block: the blocks right behind an extent, halving on refusal. */
  method GrowRun(sb: SbInfo, at: nat, want: nat) returns (len: nat)
    requires sb.Valid()
    modifies sb`nrFree, sb`shutdown, sb`faults, sb.bfree, sb.pending
    ensures sb.Valid() && (old(sb.shutdown) ==> sb.shutdown)
    ensures old(sb.faults) == [] ==> sb.faults == [] && sb.shutdown == old(sb.shutdown)
    ensures len <= want && sb.Free() <= old(sb.Free())
    ensures len > 0 ==> !sb.shutdown && RunSet(at, len) <= old(sb.Free())
                        && sb.Free() == old(sb.Free()) - RunSet(at, len)
    ensures len == 0 && !sb.shutdown ==> sb.Free() == old(sb.Free())
    ensures len > 0 ==> !NoBlockUsable(old(sb.Free()), sb.busy) && Usable(old(sb.Free()), sb.busy, at, 1)
    ensures len == 0 && want > 0 && !sb.shutdown ==> !Usable(old(sb.Free()), sb.busy, at, 1)
    ensures len > 0 ==> BestGrowth(old(sb.Free()), sb.busy, at, want, len)
  {
    hide BitSet, RunSet, Usable, BitsOk, Halvings, GrowthRefused;
    len := want;
    NothingRefused(sb.Free(), sb.busy, at, want);
    while len > 0
      invariant len > 0 ==> len in Halvings(want)
      invariant want > 0 && !sb.shutdown ==> GrowthRefused(old(sb.Free()), sb.busy, at, want, len)
      invariant sb.Valid() && (old(sb.shutdown) ==> sb.shutdown) && len <= want
      invariant old(sb.faults) == [] ==> sb.faults == [] && sb.shutdown == old(sb.shutdown)
      invariant sb.Free() <= old(sb.Free())
      invariant !sb.shutdown ==> sb.Free() == old(sb.Free())
    {
      if !sb.shutdown && Usable(old(sb.Free()), sb.busy, at, len) {
        UsableInside(sb, at, len);
      }
      var taken := sb.TakeExactBlocks(at, len);
      if taken {
        UsableRun(old(sb.Free()), sb.busy, at, len);
        return;
      }
      if !sb.shutdown {
        GrowthRefusedNext(old(sb.Free()), sb.busy, at, want, len);
      }
      HalvingsNest(want, len, len);
      len := len / 2;
    }
    if want > 0 && !sb.shutdown {
      AllRefused(old(sb.Free()), sb.busy, at, want);
    }
  }

  lemma AllRefused(free: set<nat>, busy: set<nat>, at: nat, want: nat)
    requires want > 0 && GrowthRefused(free, busy, at, want, 0)
    ensures !Usable(free, busy, at, 1)
  {
    hide Usable;
    HalvingBounds(want, 1);
  }

  // ---------- simplefs_get_block ----------

  /** What simplefs_get_block reports: len blocks from bno on; len 0 is a hole. */
  datatype Mapped = Mapped(len: nat, bno: nat, isNew: bool, unwritten: bool)

  lemma ExtendedOwned(free0: set<nat>, rootDirBlock: nat, nrBlocks: nat, root: nat, l: Loaded, t: seq<Extent>,
                      iblock: nat, bno: nat, len: nat, flag: bool)
    requires DataOwned(free0, rootDirBlock, nrBlocks, root, l.leaves, l.extents) && SetOf(l.leaves) !! free0
    requires root !in free0 && forall b :: b in free0 ==> rootDirBlock < b < nrBlocks
    requires RunSet(bno, len) <= free0 && Extended(t, l.extents, iblock, len, bno, flag)
    ensures DataOwned(free0 - RunSet(bno, len), rootDirBlock, nrBlocks, root, l.leaves, t)
  {
    ExtendedData(t, l.extents, iblock, len, bno, flag);
    forall x: nat ensures Uses(t, x) <= 1 {
      DataSetUses(l.extents, x);
      if InRun(x, bno, len) {
        assert x in RunSet(bno, len);
      }
    }
  }

  /** The allocator's books after a tree grew by `run` and exchanged its leaves. */
  lemma ExtendedBalance(free0: set<nat>, free2: set<nat>, l: Loaded, l': Loaded, run: set<nat>)
    requires TreeBlocks(l) !! free0 && DataSet(l.extents) !! SetOf(l.leaves) && run <= free0
    requires DataSet(l'.extents) == DataSet(l.extents) + run
    requires DataSet(l'.extents) !! SetOf(l'.leaves)
    requires free2 == (free0 - run) + SetOf(l.leaves) - SetOf(l'.leaves)
    ensures free2 == free0 + TreeBlocks(l) - TreeBlocks(l')
  {
    hide DataSet, SetOf;
  }

  lemma ExtendedTotal(after: seq<Extent>, before: seq<Extent>, iblock: nat, len: nat, bno: nat, flag: bool)
    requires Extended(after, before, iblock, len, bno, flag)
    ensures Total(after) == Total(before) + len
  {
  }

  /** A successful mapping of new blocks onto a hole. */
  ghost predicate NewMapping(sb: SbInfo, dev: Device, ci: InodeInfo, l: Loaded, l': Loaded,
                             iblock: nat, flag: bool, m: Mapped, free0: set<nat>, blocks0: nat)
    reads sb, sb.bfree, sb.pending, dev, ci
  {
    && m.isNew && m.len > 0 && m.unwritten == flag && RunSet(m.bno, m.len) <= free0
    && Hole(l.extents, iblock, m.len)
    && Extended(l'.extents, l.extents, iblock, m.len, m.bno, flag)
    && FileOk(sb, dev, ci, l')
    && sb.Free() == free0 + TreeBlocks(l) - TreeBlocks(l')
    && ci.blocks + |l.leaves| == blocks0 + |l'.leaves| + m.len
  }

  /** Without a fault a request that publishes list t is answered by m if and only if t can be published. */
  ghost predicate AnswersAs(r: Result<Mapped>, m: Mapped, l: Loaded, l': Loaded, t: seq<Extent>, room: nat) {
    && ErrorOf(r) == SyncError(|MergeList(t)|, |l.leaves|, room)
    && (r.Ok? ==> r.value == m && l'.extents == MergeList(t))
  }

  lemma FileFacts(free: set<nat>, rootDirBlock: nat, nrBlocks: nat, disk: Disk, root: nat, blocks: nat, l: Loaded)
    requires Owns(free, rootDirBlock, nrBlocks, disk, root, blocks, l)
    ensures Canonical(l.extents) && root !in free
    ensures forall b :: b in free ==> rootDirBlock < b < nrBlocks
    ensures TreeBlocks(l) !! free && DataSet(l.extents) !! SetOf(l.leaves)
  {
  }

  /** Publish a list that maps one run more than l, a run just taken from the allocator. */
  method PublishExtension(sb: SbInfo, dev: Device, ci: InodeInfo, buf: ExtentBuffer, ghost l: Loaded,
                          iblock: nat, len: nat, bno: nat, flag: bool, ghost free0: set<nat>) returns (r: Result<()>)
    requires sb.Valid() && Owns(free0, sb.rootDirBlock, sb.nrBlocks, dev.disk, ci.root, ci.blocks, l)
    requires RunSet(bno, len) <= free0 && sb.Free() == free0 - RunSet(bno, len)
    requires buf.leafBlocks == l.leaves && Canonical(buf.extents)
    requires Extended(buf.extents, l.extents, iblock, len, bno, flag)
    modifies sb`nrFree, sb`shutdown, sb`faults, sb.bfree, sb.pending, dev, ci`blocks, buf
    ensures sb.Valid() && (old(sb.shutdown) ==> sb.shutdown)
    ensures r.Ok? ==>
        && FileOk(sb, dev, ci, Loaded(buf.extents, buf.leafBlocks))
        && Extended(buf.extents, l.extents, iblock, len, bno, flag)
        && ci.blocks + |l.leaves| == old(ci.blocks) + |buf.leafBlocks| + len
        && sb.Free() == old(sb.Free()) + SetOf(l.leaves) - SetOf(buf.leafBlocks)
    ensures r.Err? ==> ci.blocks == old(ci.blocks) + len
    ensures old(sb.faults) == [] ==> sb.faults == [] && sb.shutdown == old(sb.shutdown) && (r.Err? ==> sb.Free() == old(sb.Free()))
    ensures r.Err? && !sb.shutdown ==> dev.disk == old(dev.disk) && sb.Free() <= old(sb.Free())
    ensures buf.extents == MergeList(old(buf.extents))
    ensures old(sb.Healthy()) ==> ErrorOf(r) == SyncError(|buf.extents|, |l.leaves|, |old(sb.Free()) - sb.busy|)
  {
    hide SameMeaning, Load, BitSet, SetOf, Distinct, DataSet, RunSet, Extended, Uses, SameOutside, BitsOk, MergeList,
      SyncError, Tidy, Settled;
    ExtendedOwned(free0, sb.rootDirBlock, sb.nrBlocks, ci.root, l, buf.extents, iblock, bno, len, flag);
    ExtendedTotal(buf.extents, l.extents, iblock, len, bno, flag);
    ghost var t := buf.extents;
    ci.blocks := ci.blocks + len;
    r := Publish(sb, dev, ci, buf);
    ExtendedSame(t, buf.extents, l.extents, iblock, len, bno, flag);
  }

  /** Publish an extension by a run just taken from the allocator. */
  method FinishNewMapping(sb: SbInfo, dev: Device, ci: InodeInfo, buf: ExtentBuffer, ghost l: Loaded,
                          iblock: nat, len: nat, bno: nat, flag: bool, ghost free0: set<nat>)
      returns (r: Result<Mapped>, ghost l': Loaded)
    requires sb.Valid() && Owns(free0, sb.rootDirBlock, sb.nrBlocks, dev.disk, ci.root, ci.blocks, l)
    requires len > 0 && RunSet(bno, len) <= free0 && sb.Free() == free0 - RunSet(bno, len)
    requires buf.leafBlocks == l.leaves && Canonical(buf.extents) && Hole(l.extents, iblock, len)
    requires Extended(buf.extents, l.extents, iblock, len, bno, flag)
    modifies sb`nrFree, sb`shutdown, sb`faults, sb.bfree, sb.pending, dev, ci`blocks, buf
    ensures sb.Valid() && (old(sb.shutdown) ==> sb.shutdown)
    ensures r.Ok? ==> NewMapping(sb, dev, ci, l, l', iblock, flag, r.value, free0, old(ci.blocks)) && r.value.len == len
    ensures r.Err? ==> ci.blocks == old(ci.blocks) + len
    ensures old(sb.faults) == [] ==> sb.faults == [] && sb.shutdown == old(sb.shutdown) && (r.Err? ==> sb.Free() == old(sb.Free()))
    ensures r.Err? && !sb.shutdown ==> dev.disk == old(dev.disk) && sb.Free() <= old(sb.Free())
    ensures old(sb.Healthy()) ==>
        AnswersAs(r, Mapped(len, bno, true, flag), l, l', old(buf.extents), |old(sb.Free()) - sb.busy|)
  {
    hide Owns, TreeBlocks, Canonical, BitSet, SetOf, DataSet, RunSet, Extended, Hole, BitsOk, MergeList, SyncError;
    FileFacts(free0, sb.rootDirBlock, sb.nrBlocks, dev.disk, ci.root, ci.blocks, l);
    var ret := PublishExtension(sb, dev, ci, buf, l, iblock, len, bno, flag, free0);
    l' := Loaded(buf.extents, buf.leafBlocks);
    if ret.Ok? {
      FileFacts(sb.Free(), sb.rootDirBlock, sb.nrBlocks, dev.disk, ci.root, ci.blocks, l');
      ExtendedData(l'.extents, l.extents, iblock, len, bno, flag);
      ExtendedBalance(free0, sb.Free(), l, l', RunSet(bno, len));
      r := Ok(Mapped(len, bno, true, flag));
    } else {
      r := Err(ret.error);
    }
  }

  /** The hole at iblock is right behind e, and the block right behind e's can be had. */
  ghost predicate GrowsInto(e: Extent, iblock: nat, flag: bool, free: set<nat>, busy: set<nat>) {
    && !e.Empty() && e.unwritten == flag && e.End() == iblock && e.Len() < MAX_EXTENT_BLOCKS
    && Usable(free, busy, e.start + e.Len(), 1)
  }

  ghost predicate NoGrowth(s: seq<Extent>, iblock: nat, flag: bool, free: set<nat>, busy: set<nat>) {
    forall k :: 0 <= k < |s| ==> !GrowsInto(s[k], iblock, flag, free, busy)
  }

  /** What a failure leaves marked used: the run by which an extent was to grow, and it is counted. */
  ghost predicate LostRun(s: seq<Extent>, iblock: nat, flag: bool, free0: set<nat>, busy: set<nat>, free: set<nat>, taken: int) {
    exists k :: 0 <= k < |s| && GrowsInto(s[k], iblock, flag, free0, busy)
                && taken > 0 && free == free0 - RunSet(s[k].start + s[k].Len(), taken)
  }

  /** The extent before the hole grows by the best run behind it. */
  ghost predicate GrowsBy(r: Result<Mapped>, l: Loaded, l': Loaded, k: nat, want: nat, len: nat, free: set<nat>,
                          busy: set<nat>)
    requires k < |l.extents|
  {
    var e := l.extents[k];
    var at := e.start + e.Len();
    && BestGrowth(free, busy, at, want, len)
    && AnswersAs(r, Mapped(len, at, true, e.unwritten), l, l', l.extents[k := e.(rawLen := e.Len() + len)],
                 |free - RunSet(at, len) - busy|)
  }

  ghost predicate GrowsAt(r: Result<Mapped>, l: Loaded, l': Loaded, k: nat, want: nat, free: set<nat>, busy: set<nat>)
    requires k < |l.extents|
  {
    exists len: nat :: GrowsBy(r, l, l', k, want, len, free, busy)
  }

  /** An extent of its own is put into the hole, for the best run there is. */
  ghost predicate PutsAt(r: Result<Mapped>, l: Loaded, l': Loaded, k: nat, iblock: nat, want: nat, flag: bool,
                         free: set<nat>, busy: set<nat>)
    requires k <= |l.extents|
  {
    exists bno: nat, len: nat :: BestRun(free, busy, want, bno, len)
      && AnswersAs(r, Mapped(len, bno, true, flag), l, l', l.extents[..k] + [Extent(iblock, len, bno, flag)] + l.extents[k..],
                   |free - RunSet(bno, len) - busy|)
  }

  /** The run behind an extent; with `exact` it is zeroed on the device, and put back when that fails. */
  method ReserveGrowth(sb: SbInfo, at: nat, want: nat, exact: bool) returns (len: nat, bad: bool)
    requires sb.Valid() && 0 < want
    modifies sb`nrFree, sb`shutdown, sb`faults, sb.bfree, sb.pending
    ensures sb.Valid() && (old(sb.shutdown) ==> sb.shutdown) && len <= want && sb.Free() <= old(sb.Free())
    ensures old(sb.faults) == [] ==> !bad && sb.faults == [] && sb.shutdown == old(sb.shutdown)
    ensures bad ==> len > 0
    ensures len > 0 && !bad ==> RunSet(at, len) <= old(sb.Free()) && sb.Free() == old(sb.Free()) - RunSet(at, len)
    ensures len > 0 ==> BestGrowth(old(sb.Free()), sb.busy, at, want, len) && Usable(old(sb.Free()), sb.busy, at, 1)
                        && !NoBlockUsable(old(sb.Free()), sb.busy)
    ensures len == 0 && !sb.shutdown ==> sb.Free() == old(sb.Free()) && !Usable(old(sb.Free()), sb.busy, at, 1)
  {
    hide BitSet, RunSet, BitsOk, NoBlockUsable, Usable, BestGrowth;
    len := GrowRun(sb, at, want);
    bad := false;
    if len > 0 && exact {
      bad := sb.NextFault();
      if bad {
        sb.PutBlocks(at, len);
      }
    }
  }

  /** Extent idx, lengthened by a run just taken from the allocator. */
  method GrowBy(sb: SbInfo, dev: Device, ci: InodeInfo, buf: ExtentBuffer, ghost l: Loaded, idx: nat, iblock: nat,
                len: nat, ghost free0: set<nat>) returns (r: Result<Mapped>, ghost l': Loaded)
    requires sb.Valid() && Owns(free0, sb.rootDirBlock, sb.nrBlocks, dev.disk, ci.root, ci.blocks, l)
    requires buf.extents == l.extents && buf.leafBlocks == l.leaves
    requires idx < |l.extents| && l.extents[idx].End() == iblock && l.extents[idx].Len() + len <= MAX_EXTENT_BLOCKS && 0 < len
    requires idx + 1 < |l.extents| ==> iblock + len <= l.extents[idx + 1].block
    requires var at := l.extents[idx].start + l.extents[idx].Len();
      RunSet(at, len) <= free0 && sb.Free() == free0 - RunSet(at, len)
    modifies sb`nrFree, sb`shutdown, sb`faults, sb.bfree, sb.pending, dev, ci`blocks, buf
    ensures sb.Valid() && (old(sb.shutdown) ==> sb.shutdown)
    ensures r.Ok? ==>
        && r.value.len == len
        && NewMapping(sb, dev, ci, l, l', iblock, l.extents[idx].unwritten, r.value, free0, old(ci.blocks))
    ensures r.Err? ==> ci.blocks == old(ci.blocks) + len
    ensures old(sb.faults) == [] ==> sb.faults == [] && sb.shutdown == old(sb.shutdown) && (r.Err? ==> sb.Free() == old(sb.Free()))
    ensures r.Err? && !sb.shutdown ==> FileOk(sb, dev, ci, l) && dev.disk == old(dev.disk) && sb.Free() <= free0
    ensures old(sb.Healthy()) ==>
        var e := l.extents[idx];
        AnswersAs(r, Mapped(len, e.start + e.Len(), true, e.unwritten), l, l', l.extents[idx := e.(rawLen := e.Len() + len)],
                  |old(sb.Free()) - sb.busy|)
  {
    hide Owns, NewMapping, Canonical, BitSet, RunSet, Extended, Hole, BitsOk, AnswersAs;
    ghost var blocks0, disk0 := ci.blocks, dev.disk;
    FileFacts(free0, sb.rootDirBlock, sb.nrBlocks, dev.disk, ci.root, ci.blocks, l);
    var prev := buf.extents[idx];
    GrowExtends(l.extents, idx, len);
    buf.extents := buf.extents[idx := prev.(rawLen := prev.Len() + len)];
    r, l' := FinishNewMapping(sb, dev, ci, buf, l, iblock, len, prev.start + prev.Len(), prev.unwritten, free0);
    if r.Err? && !sb.shutdown {
      OwnsShrinks(free0, sb.Free(), sb.rootDirBlock, sb.nrBlocks, disk0, ci.root, blocks0, ci.blocks, l);
    }
  }

  /** simplefs_get_block, hole behind an extent of the same kind: lengthen that extent. */
  method MapByGrowing(sb: SbInfo, dev: Device, ci: InodeInfo, buf: ExtentBuffer, ghost l: Loaded,
                      idx: nat, iblock: nat, want: nat, exact: bool) returns (r: Option<Result<Mapped>>, ghost l': Loaded)
    requires FileOk(sb, dev, ci, l) && buf.extents == l.extents && buf.leafBlocks == l.leaves
    requires idx < |l.extents| && l.extents[idx].End() == iblock && l.extents[idx].Len() + want <= MAX_EXTENT_BLOCKS && 0 < want
    requires idx + 1 < |l.extents| ==> iblock + want <= l.extents[idx + 1].block
    modifies sb`nrFree, sb`shutdown, sb`faults, sb.bfree, sb.pending, dev, ci`blocks, buf
    ensures sb.Valid() && (old(sb.shutdown) ==> sb.shutdown)
    ensures r.Some? && r.value.Ok? ==>
        NewMapping(sb, dev, ci, l, l', iblock, l.extents[idx].unwritten, r.value.value, old(sb.Free()), old(ci.blocks))
        && r.value.value.len <= want
    ensures !sb.shutdown && (r.None? || r.value.Err?) ==>
        FileOk(sb, dev, ci, l) && sb.Free() <= old(sb.Free()) && dev.disk == old(dev.disk)
    ensures r.None? ==> buf.extents == l.extents && buf.leafBlocks == l.leaves && ci.blocks == old(ci.blocks)
                        && FileOk(sb, dev, ci, l) && sb.Free() <= old(sb.Free()) && dev.disk == old(dev.disk)
    ensures r.None? && !sb.shutdown ==> sb.Free() == old(sb.Free())
    ensures old(sb.faults) == [] && r.None? ==> sb.faults == [] && sb.shutdown == old(sb.shutdown)
    ensures old(sb.faults) == [] && r.Some? && r.value.Err? ==>
        && ci.blocks > old(ci.blocks) && !NoBlockUsable(old(sb.Free()), sb.busy) && sb.shutdown == old(sb.shutdown)
        && LostRun(l.extents, iblock, l.extents[idx].unwritten, old(sb.Free()), sb.busy, sb.Free(), ci.blocks - old(ci.blocks))
    ensures r.None? && !sb.shutdown ==> !GrowsInto(l.extents[idx], iblock, l.extents[idx].unwritten, old(sb.Free()), sb.busy)
    ensures r.Some? && old(sb.Healthy()) ==>
        && GrowsInto(l.extents[idx], iblock, l.extents[idx].unwritten, old(sb.Free()), sb.busy)
        && GrowsAt(r.value, l, l', idx, want, old(sb.Free()), sb.busy)
  {
    hide Owns, NewMapping, BitSet, RunSet, BitsOk, NoBlockUsable, Usable, LostRun, AnswersAs, BestGrowth, Canonical,
      GrowsAt, GrowsInto, Extent.Len, Extent.End, Extent.Empty;
    l' := l;
    ghost var free0, blocks0 := sb.Free(), ci.blocks;
    FileFacts(free0, sb.rootDirBlock, sb.nrBlocks, dev.disk, ci.root, ci.blocks, l);
    var prev := buf.extents[idx];
    var at := prev.start + prev.Len();
    var len, bad := ReserveGrowth(sb, at, want, exact);
    OwnsShrinks(free0, sb.Free(), sb.rootDirBlock, sb.nrBlocks, dev.disk, ci.root, blocks0, blocks0, l);
    SolidAt(l.extents, idx);
    Enters(prev, iblock, free0, sb.busy);
    if len == 0 {
      return None, l;
    }
    if bad {
      return Some(Err(EIO)), l;
    }
    ghost var free1 := sb.Free();
    var ret;
    ret, l' := GrowBy(sb, dev, ci, buf, l, idx, iblock, len, free0);
    r := Some(ret);
    if old(sb.Healthy()) {
      GrewBy(ret, l, l', idx, want, len, free0, free1, sb.busy);
    }
    if ret.Err? && old(sb.faults) == [] {
      RunIsLost(l.extents, idx, iblock, free0, sb.busy, sb.Free(), len);
    }
  }

  lemma Enters(e: Extent, iblock: nat, free: set<nat>, busy: set<nat>)
    requires !e.Empty() && e.End() == iblock && e.Len() < MAX_EXTENT_BLOCKS
    ensures GrowsInto(e, iblock, e.unwritten, free, busy) <==> Usable(free, busy, e.start + e.Len(), 1)
  {
    hide Usable;
  }

  lemma GrewBy(r: Result<Mapped>, l: Loaded, l': Loaded, k: nat, want: nat, len: nat, free0: set<nat>, free1: set<nat>,
               busy: set<nat>)
    requires k < |l.extents|
    requires var e := l.extents[k];
      var at := e.start + e.Len();
      && BestGrowth(free0, busy, at, want, len) && free1 == free0 - RunSet(at, len)
      && AnswersAs(r, Mapped(len, at, true, e.unwritten), l, l', l.extents[k := e.(rawLen := e.Len() + len)], |free1 - busy|)
    ensures GrowsAt(r, l, l', k, want, free0, busy)
  {
    hide BestGrowth, AnswersAs, RunSet;
    assert GrowsBy(r, l, l', k, want, len, free0, busy);
  }

  lemma RunIsLost(s: seq<Extent>, idx: nat, iblock: nat, free0: set<nat>, busy: set<nat>, free: set<nat>, taken: int)
    requires idx < |s| && GrowsInto(s[idx], iblock, s[idx].unwritten, free0, busy)
    requires taken > 0 && free == free0 - RunSet(s[idx].start + s[idx].Len(), taken)
    ensures LostRun(s, iblock, s[idx].unwritten, free0, busy, free, taken)
  {
  }

  lemma SolidAt(s: seq<Extent>, idx: nat)
    requires Canonical(s) && idx < |s|
    ensures !s[idx].Empty()
  {
  }

  /** simplefs_get_block, any other hole: allocate a run and insert an extent for it. */
  method MapByAllocating(sb: SbInfo, dev: Device, ci: InodeInfo, buf: ExtentBuffer, ghost l: Loaded,
                         idx: nat, iblock: nat, want: nat, flag: bool) returns (r: Result<Mapped>, ghost l': Loaded)
    requires FileOk(sb, dev, ci, l) && buf.extents == l.extents && buf.leafBlocks == l.leaves
    requires idx <= |l.extents| && 0 < want <= MAX_EXTENT_BLOCKS
    requires forall k :: 0 <= k < idx ==> l.extents[k].End() <= iblock
    requires forall k :: idx <= k < |l.extents| ==> iblock + want <= l.extents[k].block
    modifies sb`nrFree, sb`shutdown, sb`faults, sb.bfree, sb.pending, dev, ci`blocks, buf
    ensures sb.Valid() && (old(sb.shutdown) ==> sb.shutdown)
    ensures r.Ok? ==> NewMapping(sb, dev, ci, l, l', iblock, flag, r.value, old(sb.Free()), old(ci.blocks))
                      && r.value.len <= want && !old(sb.shutdown)
    ensures !sb.shutdown && r.Err? ==>
        FileOk(sb, dev, ci, l) && sb.Free() <= old(sb.Free()) && dev.disk == old(dev.disk)
    ensures r.Err? && old(sb.faults) == [] && !old(sb.shutdown) ==>
        (ci.blocks == old(ci.blocks) <==> NoBlockUsable(old(sb.Free()), sb.busy))
    ensures r.Err? && old(sb.faults) == [] && !old(sb.shutdown) ==> !sb.shutdown && sb.Free() == old(sb.Free())
    ensures old(sb.Healthy()) ==>
        if NoBlockUsable(old(sb.Free()), sb.busy) then r == Err(ENOSPC)
        else PutsAt(r, l, l', idx, iblock, want, flag, old(sb.Free()), sb.busy)
  {
    hide Owns, NewMapping, Canonical, BitSet, RunSet, Extended, Hole, Usable, BitsOk, NoBlockUsable, AnswersAs, BestRun;
    l' := l;
    ghost var free0, blocks0, disk0 := sb.Free(), ci.blocks, dev.disk;
    FileFacts(free0, sb.rootDirBlock, sb.nrBlocks, dev.disk, ci.root, ci.blocks, l);
    var bno, len := AllocateRun(sb, want);
    OwnsShrinks(free0, sb.Free(), sb.rootDirBlock, sb.nrBlocks, dev.disk, ci.root, blocks0, blocks0, l);
    if bno == 0 {
      return Err(ENOSPC), l;
    }
    var ext := Extent(iblock, len, bno, flag);
    InsertIsCanonical(l.extents, idx, ext);
    InsertExtends(l.extents, idx, ext);
    buf.InsertExtent(idx, ext);
    r, l' := FinishNewMapping(sb, dev, ci, buf, l, iblock, len, bno, flag, free0);
    if r.Err? {
      if old(sb.faults) == [] && !sb.shutdown {
        RunFreeable(sb, free0, bno, len);
      }
      sb.PutBlocks(bno, len);
      if !sb.shutdown {
        OwnsShrinks(free0, sb.Free(), sb.rootDirBlock, sb.nrBlocks, disk0, ci.root, blocks0, ci.blocks, l);
      }
    }
  }

  lemma RunFreeable(sb: SbInfo, free0: set<nat>, bno: nat, len: nat)
    requires sb.Valid() && !sb.shutdown && len > 0 && RunSet(bno, len) <= free0 && RunSet(bno, len) !! sb.Free()
    requires forall b :: b in free0 ==> sb.rootDirBlock < b < sb.nrBlocks
    ensures sb.Freeable(bno, len)
  {
    hide BitsOk;
    assert bno in RunSet(bno, len) && bno + len - 1 in RunSet(bno, len);
    forall k | bno <= k < bno + len ensures !sb.bfree[k] {
      assert k in RunSet(bno, len) && k !in sb.Free();
    }
  }

  // ---------- a block that is already mapped ----------

  /** The answer describes consecutive mapped blocks exactly as the map does. */
  ghost predicate Answers(s: seq<Extent>, iblock: nat, m: Mapped) {
    && m.len > 0 && !m.isNew
    && forall b: nat :: iblock <= b < iblock + m.len ==> Lookup(s, b) == Some(Loc(m.bno + (b - iblock), m.unwritten))
  }

  /** The answer is the whole rest of the extent that covers iblock. */
  ghost predicate RestOf(s: seq<Extent>, iblock: nat, m: Mapped) {
    exists k :: 0 <= k < |s| && s[k].Covers(iblock)
      && m == Mapped(s[k].Len() - (iblock - s[k].block), s[k].start + (iblock - s[k].block), false, s[k].unwritten)
  }

  /** l.extents with the blocks from iblock on, up to maxblocks of extent k, switched to written. */
  ghost function Converted(s: seq<Extent>, k: nat, iblock: nat, maxblocks: nat): seq<Extent>
    requires k < |s| && s[k].Covers(iblock)
  {
    s[..k] + FlagCut(s[k], iblock, maxblocks, false) + s[k + 1..]
  }

  /** Without a fault a conversion succeeds if and only if the switched list can be published. */
  ghost predicate ConvertsAt(r: Result<Mapped>, l: Loaded, l': Loaded, k: nat, iblock: nat, maxblocks: nat, room: nat)
    requires k < |l.extents| && l.extents[k].Covers(iblock)
  {
    var t := MergeList(Converted(l.extents, k, iblock, maxblocks));
    ErrorOf(r) == SyncError(|t|, |l.leaves|, room) && (r.Ok? ==> l'.extents == t && RestOf(t, iblock, r.value))
  }

  function Rest(e: Extent, iblock: nat): Mapped
    requires e.Covers(iblock)
  {
    Mapped(e.Len() - (iblock - e.block), e.start + (iblock - e.block), false, e.unwritten)
  }

  lemma AnswerFrom(s: seq<Extent>, idx: nat, iblock: nat)
    requires Canonical(s) && idx < |s| && s[idx].Covers(iblock)
    ensures Answers(s, iblock, Rest(s[idx], iblock)) && RestOf(s, iblock, Rest(s[idx], iblock))
  {
    var e := s[idx];
    forall b: nat | iblock <= b < e.End()
      ensures Lookup(s, b) == Some(Loc(e.start + (b - e.block), e.unwritten))
    {
      LookupAt(s, idx, b);
    }
  }

  lemma FlaggedSame(a: seq<Extent>, a': seq<Extent>, before: seq<Extent>, lo: nat, hi: nat, flag: bool)
    requires Flagged(a, before, lo, hi, flag) && SameMeaning(a, a')
    ensures Flagged(a', before, lo, hi, flag)
  {
    forall b: nat ensures Lookup(a', b) == Lookup(a, b) {
    }
  }

  lemma FlaggedData(after: seq<Extent>, before: seq<Extent>, lo: nat, hi: nat, flag: bool)
    requires Flagged(after, before, lo, hi, flag)
    ensures DataSet(after) == DataSet(before) && Total(after) == Total(before)
    ensures forall x: nat :: Uses(after, x) == Uses(before, x)
    ensures forall b: nat :: Lookup(after, b).Some? <==> Lookup(before, b).Some?
  {
    SameDataSet(after, before);
  }

  lemma ReflagBalance(free0: set<nat>, free: set<nat>, l: Loaded, l': Loaded)
    requires TreeBlocks(l) !! free0 && DataSet(l.extents) !! SetOf(l.leaves) && DataSet(l'.extents) == DataSet(l.extents)
    requires DataSet(l'.extents) !! SetOf(l'.leaves) && free == free0 + SetOf(l.leaves) - SetOf(l'.leaves)
    ensures free == free0 + TreeBlocks(l) - TreeBlocks(l')
  {
    hide DataSet, SetOf;
  }

  /** Publish a list that differs from l only in which blocks are unwritten. */
  method PublishReflagged(sb: SbInfo, dev: Device, ci: InodeInfo, buf: ExtentBuffer, ghost l: Loaded,
                          ghost lo: nat, ghost hi: nat, ghost flag: bool) returns (r: Result<()>)
    requires FileOk(sb, dev, ci, l) && buf.leafBlocks == l.leaves && Canonical(buf.extents)
    requires Flagged(buf.extents, l.extents, lo, hi, flag)
    modifies sb`nrFree, sb`shutdown, sb`faults, sb.bfree, sb.pending, dev, ci`blocks, buf
    ensures sb.Valid() && (old(sb.shutdown) ==> sb.shutdown)
    ensures r.Ok? ==>
        && FileOk(sb, dev, ci, Loaded(buf.extents, buf.leafBlocks))
        && Flagged(buf.extents, l.extents, lo, hi, flag)
        && sb.Free() == old(sb.Free()) + TreeBlocks(l) - TreeBlocks(Loaded(buf.extents, buf.leafBlocks))
        && ci.blocks + |l.leaves| == old(ci.blocks) + |buf.leafBlocks|
    ensures r.Err? && !sb.shutdown ==>
        FileOk(sb, dev, ci, l) && sb.Free() <= old(sb.Free()) && dev.disk == old(dev.disk)
    ensures r.Err? ==> ci.blocks == old(ci.blocks)
    ensures r.Err? && old(sb.faults) == [] ==> sb.shutdown == old(sb.shutdown) && sb.Free() == old(sb.Free())
    ensures buf.extents == MergeList(old(buf.extents))
    ensures old(sb.Healthy()) ==> ErrorOf(r) == SyncError(|buf.extents|, |l.leaves|, |old(sb.Free()) - sb.busy|)
  {
    hide SameMeaning, Load, BitSet, SetOf, Distinct, DataSet, Flagged, Uses, SameOutside, BitsOk, MergeList, SyncError,
      Tidy, Settled;
    ghost var free0, blocks0, disk0, t := sb.Free(), ci.blocks, dev.disk, buf.extents;
    FlaggedData(buf.extents, l.extents, lo, hi, flag);
    r := Publish(sb, dev, ci, buf);
    FlaggedSame(t, buf.extents, l.extents, lo, hi, flag);
    if r.Ok? {
      FlaggedData(buf.extents, l.extents, lo, hi, flag);
      ReflagBalance(free0, sb.Free(), l, Loaded(buf.extents, buf.leafBlocks));
    } else if !sb.shutdown {
      OwnsShrinks(free0, sb.Free(), sb.rootDirBlock, sb.nrBlocks, disk0, ci.root, blocks0, ci.blocks, l);
    }
  }

  /** The unwritten conversion simplefs_get_block makes before it answers. */
  method ConvertFound(sb: SbInfo, dev: Device, ci: InodeInfo, buf: ExtentBuffer, ghost l: Loaded,
                      idx: nat, iblock: nat, maxblocks: nat) returns (r: Result<Mapped>)
    requires FileOk(sb, dev, ci, l) && buf.extents == l.extents && buf.leafBlocks == l.leaves && 0 < maxblocks
    requires idx < |l.extents| && l.extents[idx].Covers(iblock) && l.extents[idx].unwritten
    modifies sb`nrFree, sb`shutdown, sb`faults, sb.bfree, sb.pending, dev, ci`blocks, buf
    ensures sb.Valid() && (old(sb.shutdown) ==> sb.shutdown)
    ensures r.Ok? ==>
        && FileOk(sb, dev, ci, Loaded(buf.extents, buf.leafBlocks))
        && Flagged(buf.extents, l.extents, iblock, Min(iblock + maxblocks, l.extents[idx].End()), false)
        && sb.Free() == old(sb.Free()) + TreeBlocks(l) - TreeBlocks(Loaded(buf.extents, buf.leafBlocks))
        && Answers(buf.extents, iblock, r.value)
        && ci.blocks + |l.leaves| == old(ci.blocks) + |buf.leafBlocks|
    ensures r.Err? && !sb.shutdown ==>
        FileOk(sb, dev, ci, l) && sb.Free() <= old(sb.Free()) && dev.disk == old(dev.disk)
    ensures r.Err? ==> ci.blocks == old(ci.blocks)
    ensures r.Err? && old(sb.faults) == [] ==> sb.shutdown == old(sb.shutdown) && sb.Free() == old(sb.Free())
    ensures old(sb.Healthy()) ==>
        ConvertsAt(r, l, Loaded(buf.extents, buf.leafBlocks), idx, iblock, maxblocks, |old(sb.Free()) - sb.busy|)
  {
    hide Owns, BitSet, TreeBlocks, Flagged, FlagCut, Answers, Ascending, NoEmpties, BitsOk, MergeList, SyncError;
    FileFacts(sb.Free(), sb.rootDirBlock, sb.nrBlocks, dev.disk, ci.root, ci.blocks, l);
    FlagStep(l.extents, idx, iblock, maxblocks, false);
    ghost var hi := Min(iblock + maxblocks, l.extents[idx].End());
    FlagExtent(buf, idx, iblock, maxblocks, false);
    var ret := PublishReflagged(sb, dev, ci, buf, l, iblock, hi, false);
    if ret.Err? {
      return Err(ret.error);
    }
    FileFacts(sb.Free(), sb.rootDirBlock, sb.nrBlocks, dev.disk, ci.root, ci.blocks, Loaded(buf.extents, buf.leafBlocks));
    FlaggedData(buf.extents, l.extents, iblock, hi, false);
    LookupCovered(l.extents, idx, iblock);
    var found, at := buf.FindExtent(iblock);
    AnswerFrom(buf.extents, at, iblock);
    return Ok(Rest(buf.extents[at], iblock));
  }

  lemma LookupCovered(s: seq<Extent>, idx: nat, b: nat)
    requires Canonical(s) && idx < |s| && s[idx].Covers(b)
    ensures Lookup(s, b) == Some(s[idx].At(b))
  {
    LookupAt(s, idx, b);
  }

  /** The extent right before a hole, when simplefs_get_block may lengthen it. */
  predicate Growable(s: seq<Extent>, idx: nat, iblock: nat, flag: bool) {
    && 0 < idx <= |s|
    && var prev := s[idx - 1];
       !prev.Empty() && prev.unwritten == flag && prev.End() == iblock && prev.Len() < MAX_EXTENT_BLOCKS
  }

  /** How far the hole at iblock goes: to the end of the request, of the longest extent or of the hole. */
  ghost predicate HoleRun(s: seq<Extent>, iblock: nat, maxblocks: nat, want: nat) {
    && 0 < want <= maxblocks && want <= MAX_EXTENT_BLOCKS && Hole(s, iblock, want)
    && (want == maxblocks || want == MAX_EXTENT_BLOCKS || Lookup(s, iblock + want).Some?)
  }

  /** Where an extent for iblock belongs in the list. */
  ghost predicate PlaceOf(s: seq<Extent>, iblock: nat, k: nat) {
    && k <= |s| && (forall j :: 0 <= j < k ==> s[j].End() <= iblock)
    && (forall j :: k <= j < |s| ==> iblock < s[j].block)
  }

  /** The extent that ends at the hole is lengthened. */
  ghost predicate HoleGrown(r: Result<Mapped>, l: Loaded, l': Loaded, iblock: nat, maxblocks: nat, flag: bool,
                            free: set<nat>, busy: set<nat>) {
    exists k: nat, want: nat :: k < |l.extents| && GrowsInto(l.extents[k], iblock, flag, free, busy)
      && HoleRun(l.extents, iblock, maxblocks, want)
      && GrowsAt(r, l, l', k, Min(want, MAX_EXTENT_BLOCKS - l.extents[k].Len()), free, busy)
  }

  /** The hole gets an extent of its own. */
  ghost predicate HoleFilled(r: Result<Mapped>, l: Loaded, l': Loaded, iblock: nat, maxblocks: nat, flag: bool,
                             free: set<nat>, busy: set<nat>) {
    exists k: nat, want: nat :: PlaceOf(l.extents, iblock, k) && HoleRun(l.extents, iblock, maxblocks, want)
      && PutsAt(r, l, l', k, iblock, want, flag, free, busy)
  }

  lemma RunOfHole(s: seq<Extent>, idx: nat, iblock: nat, maxblocks: nat, want: nat)
    requires Canonical(s) && PlaceOf(s, iblock, idx) && 0 < maxblocks
    requires want == (if idx < |s| && s[idx].block < iblock + Min(maxblocks, MAX_EXTENT_BLOCKS) then s[idx].block - iblock
                      else Min(maxblocks, MAX_EXTENT_BLOCKS))
    ensures HoleRun(s, iblock, maxblocks, want)
  {
    hide Lookup;
    FitsBefore(s, idx, iblock, want);
    forall b: nat | iblock <= b < iblock + want ensures Lookup(s, b).None? {
      LookupMiss(s, b);
    }
    if want < Min(maxblocks, MAX_EXTENT_BLOCKS) {
      LookupAt(s, idx, iblock + want);
    }
  }

  /** simplefs_get_block on a hole, with create set. */
  method MapHole(sb: SbInfo, dev: Device, ci: InodeInfo, buf: ExtentBuffer, ghost l: Loaded, idx: nat, iblock: nat,
                 maxblocks: nat, exact: bool, flag: bool) returns (r: Result<Mapped>, ghost l': Loaded)
    requires FileOk(sb, dev, ci, l) && buf.extents == l.extents && buf.leafBlocks == l.leaves
    requires idx <= |l.extents| && 0 < maxblocks
    requires forall k :: 0 <= k < idx ==> l.extents[k].End() <= iblock
    requires forall k :: idx <= k < |l.extents| ==> iblock < l.extents[k].block
    modifies sb`nrFree, sb`shutdown, sb`faults, sb.bfree, sb.pending, dev, ci`blocks, buf
    ensures sb.Valid() && (old(sb.shutdown) ==> sb.shutdown)
    ensures r.Ok? ==> NewMapping(sb, dev, ci, l, l', iblock, flag, r.value, old(sb.Free()), old(ci.blocks))
                      && r.value.len <= maxblocks
    ensures !sb.shutdown && r.Err? ==>
        FileOk(sb, dev, ci, l) && sb.Free() <= old(sb.Free()) && dev.disk == old(dev.disk)
    ensures r.Err? && old(sb.faults) == [] && !old(sb.shutdown) ==>
        (ci.blocks == old(ci.blocks) <==> NoBlockUsable(old(sb.Free()), sb.busy))
    ensures r.Err? && old(sb.faults) == [] && !old(sb.shutdown) ==> !sb.shutdown
    ensures r.Err? && old(sb.faults) == [] && !old(sb.shutdown) ==>
        || LostRun(l.extents, iblock, flag, old(sb.Free()), sb.busy, sb.Free(), ci.blocks - old(ci.blocks))
        || (sb.Free() == old(sb.Free()) && NoGrowth(l.extents, iblock, flag, old(sb.Free()), sb.busy))
    ensures old(sb.Healthy()) ==>
        if NoBlockUsable(old(sb.Free()), sb.busy) then r == Err(ENOSPC)
        else if NoGrowth(l.extents, iblock, flag, old(sb.Free()), sb.busy) then
          HoleFilled(r, l, l', iblock, maxblocks, flag, old(sb.Free()), sb.busy)
        else HoleGrown(r, l, l', iblock, maxblocks, flag, old(sb.Free()), sb.busy)
  {
    hide Owns, NewMapping, BitSet, BitsOk, NoBlockUsable, Usable, LostRun, Canonical, RunSet, GrowsInto, GrowsAt, PutsAt,
      HoleRun, Extent.Len, Extent.End, Extent.Empty;
    FileFacts(sb.Free(), sb.rootDirBlock, sb.nrBlocks, dev.disk, ci.root, ci.blocks, l);
    var want := Min(maxblocks, MAX_EXTENT_BLOCKS);
    if idx < |buf.extents| && buf.extents[idx].block < iblock + want {
      want := buf.extents[idx].block - iblock;
    }
    FitsBefore(l.extents, idx, iblock, want);
    RunOfHole(l.extents, idx, iblock, maxblocks, want);
    assert PlaceOf(l.extents, iblock, idx);
    if Growable(buf.extents, idx, iblock, flag) {
      var grow := Min(want, MAX_EXTENT_BLOCKS - buf.extents[idx - 1].Len());
      var grown;
      grown, l' := MapByGrowing(sb, dev, ci, buf, l, idx - 1, iblock, grow, exact);
      if grown.Some? {
        if old(sb.Healthy()) {
          GrowsNow(l.extents, idx - 1, iblock, flag, old(sb.Free()), sb.busy);
        }
        return grown.value, l';
      }
    }
    if old(sb.faults) == [] && !old(sb.shutdown) {
      OnlyGrowable(l.extents, idx, iblock, flag, old(sb.Free()), sb.busy);
    }
    r, l' := MapByAllocating(sb, dev, ci, buf, l, idx, iblock, want, flag);
  }

  lemma GrowsNow(s: seq<Extent>, k: nat, iblock: nat, flag: bool, free: set<nat>, busy: set<nat>)
    requires k < |s| && GrowsInto(s[k], iblock, flag, free, busy)
    ensures !NoGrowth(s, iblock, flag, free, busy) && !NoBlockUsable(free, busy)
  {
    hide Usable;
  }

  /** Only the extent right before the hole can grow into it. */
  lemma OnlyGrowable(s: seq<Extent>, idx: nat, iblock: nat, flag: bool, free: set<nat>, busy: set<nat>)
    requires Canonical(s) && idx <= |s| && (forall k :: idx <= k < |s| ==> iblock < s[k].block)
    requires forall k :: 0 <= k < idx ==> s[k].End() <= iblock
    requires Growable(s, idx, iblock, flag) ==> !GrowsInto(s[idx - 1], iblock, flag, free, busy)
    ensures NoGrowth(s, iblock, flag, free, busy)
  {
    hide Usable;
    forall k | 0 <= k < |s| ensures !GrowsInto(s[k], iblock, flag, free, busy) {
      if k < idx - 1 {
        assert s[k].End() <= s[idx - 1].block < s[idx - 1].End() <= iblock;
      }
    }
  }

  lemma FitsBefore(s: seq<Extent>, idx: nat, iblock: nat, want: nat)
    requires Canonical(s) && idx <= |s| && (idx < |s| ==> iblock + want <= s[idx].block)
    ensures forall k :: idx <= k < |s| ==> iblock + want <= s[k].block
  {
    forall k | idx <= k < |s| ensures iblock + want <= s[k].block {
      if k > idx {
        assert s[idx].End() <= s[k].block;
      }
    }
  }

  /** simplefs_get_block */
  method GetBlock(sb: SbInfo, dev: Device, ci: InodeInfo, iblock: nat, maxblocks: nat, create: bool, exact: bool,
                  createUnwritten: bool, convertUnwritten: bool, ghost l: Loaded)
      returns (r: Result<Mapped>, ghost l': Loaded)
    requires FileOk(sb, dev, ci, l) && 0 < maxblocks
    modifies sb`nrFree, sb`shutdown, sb`faults, sb.bfree, sb.pending, dev, ci`blocks
    ensures sb.Valid() && (old(sb.shutdown) ==> sb.shutdown)
    ensures iblock >= MAX_FILE_BLOCKS ==> r == Err(EFBIG)
    ensures r.Ok? && Lookup(l.extents, iblock).None? && create ==>
        NewMapping(sb, dev, ci, l, l', iblock, createUnwritten, r.value, old(sb.Free()), old(ci.blocks))
        && r.value.len <= maxblocks
    ensures r.Ok? && Lookup(l.extents, iblock).None? && !create ==> l' == l && r.value == Mapped(0, 0, false, false)
    ensures r.Ok? && Lookup(l.extents, iblock).Some? ==>
        && FileOk(sb, dev, ci, l') && Answers(l'.extents, iblock, r.value)
        && sb.Free() == old(sb.Free()) + TreeBlocks(l) - TreeBlocks(l')
    ensures r.Ok? && Lookup(l.extents, iblock).Some? ==>
        if create && convertUnwritten && Lookup(l.extents, iblock).value.unwritten then
          exists k :: 0 <= k < |l.extents| && l.extents[k].Covers(iblock)
                      && Flagged(l'.extents, l.extents, iblock, Min(iblock + maxblocks, l.extents[k].End()), false)
        else l' == l
    ensures r.Ok? && old(ci.Counts(l)) ==> ci.Counts(l')
    ensures r.Ok? && !create ==> dev.disk == old(dev.disk) && sb.Free() == old(sb.Free()) && ci.blocks == old(ci.blocks)
    ensures r.Err? && !sb.shutdown ==>
        FileOk(sb, dev, ci, l) && sb.Free() <= old(sb.Free()) && dev.disk == old(dev.disk)
    // A failure without a device fault keeps i_blocks exactly when no run had been taken.
    ensures r.Err? && old(sb.faults) == [] && !old(sb.shutdown) ==>
        (ci.blocks == old(ci.blocks) <==>
         iblock >= MAX_FILE_BLOCKS || Lookup(l.extents, iblock).Some? || NoBlockUsable(old(sb.Free()), sb.busy))
    // And it leaves blocks marked used exactly when it had lengthened an extent.
    ensures r.Err? && old(sb.faults) == [] && !old(sb.shutdown) ==>
        && !sb.shutdown
        && if iblock >= MAX_FILE_BLOCKS || Lookup(l.extents, iblock).Some? then sb.Free() == old(sb.Free())
           else || LostRun(l.extents, iblock, createUnwritten, old(sb.Free()), sb.busy, sb.Free(), ci.blocks - old(ci.blocks))
                || (sb.Free() == old(sb.Free()) && NoGrowth(l.extents, iblock, createUnwritten, old(sb.Free()), sb.busy))
    // A plain lookup always succeeds, and a mapped block is answered by the whole rest of its extent.
    ensures iblock < MAX_FILE_BLOCKS && Lookup(l.extents, iblock).None? && !create ==> r.Ok?
    ensures iblock < MAX_FILE_BLOCKS && Lookup(l.extents, iblock).Some?
            && !(create && convertUnwritten && Lookup(l.extents, iblock).value.unwritten) ==>
        r.Ok? && RestOf(l.extents, iblock, r.value)
    // Without a fault the other requests succeed exactly when the list they make can be published.
    ensures old(sb.Healthy()) && iblock < MAX_FILE_BLOCKS && Lookup(l.extents, iblock).Some?
            && create && convertUnwritten && Lookup(l.extents, iblock).value.unwritten ==>
        exists k :: 0 <= k < |l.extents| && l.extents[k].Covers(iblock)
                    && ConvertsAt(r, l, l', k, iblock, maxblocks, |old(sb.Free()) - sb.busy|)
    ensures old(sb.Healthy()) && iblock < MAX_FILE_BLOCKS && Lookup(l.extents, iblock).None? && create ==>
        if NoBlockUsable(old(sb.Free()), sb.busy) then r == Err(ENOSPC)
        else if NoGrowth(l.extents, iblock, createUnwritten, old(sb.Free()), sb.busy) then
          HoleFilled(r, l, l', iblock, maxblocks, createUnwritten, old(sb.Free()), sb.busy)
        else HoleGrown(r, l, l', iblock, maxblocks, createUnwritten, old(sb.Free()), sb.busy)
  {
    hide Owns, NewMapping, BitSet, Answers, Flagged, TreeBlocks, BitsOk, NoBlockUsable, LostRun, NoGrowth, HoleGrown,
      HoleFilled, ConvertsAt, RestOf, Rest, Lookup, Extent.Len, Extent.End, Extent.Empty, RunSet, GrowsInto;
    l' := l;
    if iblock >= MAX_FILE_BLOCKS {
      return Err(EFBIG), l;
    }
    FileFacts(sb.Free(), sb.rootDirBlock, sb.nrBlocks, dev.disk, ci.root, ci.blocks, l);
    LoadsAs(sb.Free(), sb.rootDirBlock, sb.nrBlocks, dev.disk, ci.root, ci.blocks, l);
    var buf := OpenBuffer(dev, ci.root, l);
    var found, idx := buf.FindExtent(iblock);
    if !found {
      if !create {
        return Ok(Mapped(0, 0, false, false)), l;
      }
      ghost var blocks0 := ci.blocks;
      r, l' := MapHole(sb, dev, ci, buf, l, idx, iblock, maxblocks, exact, createUnwritten);
      if r.Ok? {
        NewMappingCounts(sb, dev, ci, l, l', iblock, createUnwritten, r.value, old(sb.Free()), blocks0);
      }
      return;
    }
    var e := buf.extents[idx];
    if create && convertUnwritten && e.unwritten {
      r := ConvertFound(sb, dev, ci, buf, l, idx, iblock, maxblocks);
      l' := Loaded(buf.extents, buf.leafBlocks);
      if r.Ok? {
        FlaggedData(l'.extents, l.extents, iblock, Min(iblock + maxblocks, e.End()), false);
      }
      return;
    }
    AnswerFrom(l.extents, idx, iblock);
    FreeUnchanged(sb.Free(), l);
    return Ok(Rest(e, iblock)), l;
  }

  /** When one extent more needs no new leaf, a free block is enough to map a hole. */
  lemma HoleIsServed(r: Result<Mapped>, l: Loaded, l': Loaded, iblock: nat, maxblocks: nat, flag: bool,
                     free: set<nat>, busy: set<nat>)
    requires SyncError(|l.extents| + 1, |l.leaves|, 0).None?
    requires HoleGrown(r, l, l', iblock, maxblocks, flag, free, busy) || HoleFilled(r, l, l', iblock, maxblocks, flag, free, busy)
    ensures r.Ok?
  {
    hide HoleRun, GrowsInto, BestGrowth, BestRun, RunSet, MergeList, SyncError, Extent.Len, GrowsAt, PutsAt;
    if HoleGrown(r, l, l', iblock, maxblocks, flag, free, busy) {
      var k: nat, want: nat :| k < |l.extents| && GrowsInto(l.extents[k], iblock, flag, free, busy)
        && HoleRun(l.extents, iblock, maxblocks, want)
        && GrowsAt(r, l, l', k, Min(want, MAX_EXTENT_BLOCKS - l.extents[k].Len()), free, busy);
      GrowthIsServed(r, l, l', k, Min(want, MAX_EXTENT_BLOCKS - l.extents[k].Len()), free, busy);
    } else {
      var k: nat, want: nat :| PlaceOf(l.extents, iblock, k) && HoleRun(l.extents, iblock, maxblocks, want)
        && k <= |l.extents| && PutsAt(r, l, l', k, iblock, want, flag, free, busy);
      PutIsServed(r, l, l', k, iblock, want, flag, free, busy);
    }
  }

  lemma GrowthIsServed(r: Result<Mapped>, l: Loaded, l': Loaded, k: nat, want: nat, free: set<nat>, busy: set<nat>)
    requires SyncError(|l.extents| + 1, |l.leaves|, 0).None? && k < |l.extents| && GrowsAt(r, l, l', k, want, free, busy)
    ensures r.Ok?
  {
    hide BestGrowth, RunSet, MergeList, SyncError;
    var len: nat :| GrowsBy(r, l, l', k, want, len, free, busy);
    var t := l.extents[k := l.extents[k].(rawLen := l.extents[k].Len() + len)];
    MergeListShrinks(t);
    FewerFit(|MergeList(t)|, |l.extents| + 1, |l.leaves|, 0);
  }

  lemma PutIsServed(r: Result<Mapped>, l: Loaded, l': Loaded, k: nat, iblock: nat, want: nat, flag: bool,
                    free: set<nat>, busy: set<nat>)
    requires SyncError(|l.extents| + 1, |l.leaves|, 0).None? && k <= |l.extents|
    requires PutsAt(r, l, l', k, iblock, want, flag, free, busy)
    ensures r.Ok?
  {
    hide BestRun, RunSet, MergeList, SyncError;
    var bno: nat, len: nat :| BestRun(free, busy, want, bno, len)
      && AnswersAs(r, Mapped(len, bno, true, flag), l, l', l.extents[..k] + [Extent(iblock, len, bno, flag)] + l.extents[k..],
                   |free - RunSet(bno, len) - busy|);
    var t := l.extents[..k] + [Extent(iblock, len, bno, flag)] + l.extents[k..];
    MergeListShrinks(t);
    FewerFit(|MergeList(t)|, |l.extents| + 1, |l.leaves|, 0);
  }

  /** A conversion makes at most two extents more. */
  lemma ConversionIsServed(r: Result<Mapped>, l: Loaded, l': Loaded, k: nat, iblock: nat, maxblocks: nat, room: nat)
    requires SyncError(|l.extents| + 2, |l.leaves|, room).None?
    requires k < |l.extents| && l.extents[k].Covers(iblock) && ConvertsAt(r, l, l', k, iblock, maxblocks, room)
    ensures r.Ok?
  {
    hide MergeList, SyncError, RestOf;
    var t := Converted(l.extents, k, iblock, maxblocks);
    MergeListShrinks(t);
    FewerFit(|MergeList(t)|, |l.extents| + 2, |l.leaves|, room);
  }

  lemma NewMappingCounts(sb: SbInfo, dev: Device, ci: InodeInfo, l: Loaded, l': Loaded,
                         iblock: nat, flag: bool, m: Mapped, free0: set<nat>, blocks0: nat)
    requires NewMapping(sb, dev, ci, l, l', iblock, flag, m, free0, blocks0)
    ensures ci.blocks + |l.leaves| + Total(l.extents) == blocks0 + |l'.leaves| + Total(l'.extents)
  {
    ExtendedTotal(l'.extents, l.extents, iblock, m.len, m.bno, flag);
  }

  lemma LoadsAs(free: set<nat>, rootDirBlock: nat, nrBlocks: nat, disk: Disk, root: nat, blocks: nat, l: Loaded)
    requires Owns(free, rootDirBlock, nrBlocks, disk, root, blocks, l)
    ensures Load(disk, root) == Ok(l)
  {
  }

  lemma FreeUnchanged(free: set<nat>, l: Loaded)
    requires TreeBlocks(l) !! free
    ensures free == free + TreeBlocks(l) - TreeBlocks(l)
  {
  }
}
