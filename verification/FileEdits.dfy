/**
 * Punch, truncate, collapse and insert as whole operations: the edited tree is published
 * first, and only then do the blocks it dropped go back to the allocator.
 */
module FileEdits {
  import opened Wrappers
  import opened Extents
  import opened ExtentBuffers
  import opened Bitmaps
  import opened ExtentTree
  import opened Surgery
  import opened FileOps
  import opened ZeroRanges

  lemma {:induction false} RangeSetUses(rs: seq<Range>, x: nat)
    ensures x in RangeSet(rs) <==> RangeUses(rs, x) > 0
  {
    if rs != [] {
      RangeSetUses(rs[..|rs| - 1], x);
    }
  }

  lemma {:induction false} PrefixUses(rs: seq<Range>, n: nat, x: nat)
    requires n <= |rs|
    ensures RangeUses(rs[..n], x) <= RangeUses(rs, x)
    decreases |rs| - n
  {
    if n == |rs| {
      assert rs[..n] == rs;
    } else {
      PrefixUses(rs, n + 1, x);
      assert rs[..n + 1] == rs[..n] + [rs[n]];
      RangeSnoc(rs[..n], rs[n], x);
    }
  }

  /** Ranges that can be handed to the allocator one after the other. */
  ghost predicate Returnable(rs: seq<Range>, free: set<nat>, rootDirBlock: nat, nrBlocks: nat) {
    && (forall x: nat :: RangeUses(rs, x) <= 1)
    && RangeSet(rs) !! free
    && forall x :: x in RangeSet(rs) ==> rootDirBlock < x < nrBlocks
  }

  lemma NextRange(rs: seq<Range>, n: nat, free: set<nat>, rootDirBlock: nat, nrBlocks: nat)
    requires Returnable(rs, free, rootDirBlock, nrBlocks) && n < |rs|
    ensures RangeSet(rs[..n + 1]) == RangeSet(rs[..n]) + RunSet(rs[n].start, rs[n].len)
    ensures RunSet(rs[n].start, rs[n].len) !! free + RangeSet(rs[..n])
    ensures forall x :: x in RunSet(rs[n].start, rs[n].len) ==> rootDirBlock < x < nrBlocks
  {
    assert rs[..n + 1] == rs[..n] + [rs[n]];
    RangeSetSnoc(rs[..n], rs[n]);
    forall x: nat | x in RunSet(rs[n].start, rs[n].len)
      ensures x !in free + RangeSet(rs[..n]) && rootDirBlock < x < nrBlocks
    {
      PrefixUses(rs, n + 1, x);
      RangeSnoc(rs[..n], rs[n], x);
      RangeSetUses(rs[..n], x);
      RangeSetUses(rs, x);
    }
  }

  /** put_blocks over the recorded ranges. */
  method PutRanges(sb: SbInfo, rs: seq<Range>)
    requires sb.Valid() && Returnable(rs, sb.Free(), sb.rootDirBlock, sb.nrBlocks)
    modifies sb`nrFree, sb`shutdown, sb`faults, sb.bfree, sb.pending
    ensures sb.Valid() && (old(sb.shutdown) ==> sb.shutdown)
    ensures old(sb.faults) == [] ==> sb.faults == [] && sb.shutdown == old(sb.shutdown)
    ensures old(sb.Free()) <= sb.Free() <= old(sb.Free()) + RangeSet(rs)
    ensures !sb.shutdown ==> sb.Free() == old(sb.Free()) + RangeSet(rs)
  {
    hide BitSet, RunSet, RangeSet, Returnable, RangeUses, SbInfo.Valid, BitsOk;
    ghost var free0 := sb.Free();
    var n := 0;
    NoRangeSet(rs);
    while n < |rs|
      invariant 0 <= n <= |rs| && sb.Valid() && (old(sb.shutdown) ==> sb.shutdown)
      invariant old(sb.faults) == [] ==> sb.faults == [] && sb.shutdown == old(sb.shutdown)
      invariant free0 <= sb.Free() <= free0 + RangeSet(rs[..n])
      invariant !sb.shutdown ==> sb.Free() == free0 + RangeSet(rs[..n])
    {
      NextRange(rs, n, free0, sb.rootDirBlock, sb.nrBlocks);
      InsideData(rs[n].start, rs[n].len, sb.rootDirBlock, sb.nrBlocks);
      ghost var free, run := sb.Free(), RunSet(rs[n].start, rs[n].len);
      sb.PutBlocks(rs[n].start, rs[n].len);
      assert sb.Free() == free + run || (sb.Free() == free && (sb.shutdown || run == {}));
      GrowBetween(free0, RangeSet(rs[..n]), run, free, sb.Free());
      n := n + 1;
    }
    assert rs[..n] == rs;
  }

  lemma GrowBetween(free0: set<nat>, got: set<nat>, run: set<nat>, free: set<nat>, free': set<nat>)
    requires free0 <= free <= free0 + got && (free' == free + run || free' == free)
    ensures free0 <= free' <= free0 + (got + run)
    ensures free == free0 + got && free' == free + run ==> free' == free0 + (got + run)
  {
  }

  lemma NoRangeSet(rs: seq<Range>)
    ensures RangeSet(rs[..0]) == {}
  {
  }

  lemma InsideData(start: nat, len: nat, rootDirBlock: nat, nrBlocks: nat)
    requires forall x :: x in RunSet(start, len) ==> rootDirBlock < x < nrBlocks
    ensures len > 0 ==> 0 < start && start + len <= nrBlocks && !InRun(rootDirBlock, start, len)
    ensures len == 0 ==> RunSet(start, len) == {}
  {
    if len > 0 {
      assert start in RunSet(start, len) && start + len - 1 in RunSet(start, len);
    }
  }

  // ---------- ownership of an edited list ----------

  lemma EditData(after: seq<Extent>, before: seq<Extent>, ed: Edit, freed: seq<Range>)
    requires EditOf(after, before, ed, freed) && forall x: nat :: Uses(before, x) <= 1
    ensures DataSet(before) == DataSet(after) + RangeSet(freed) && DataSet(after) !! RangeSet(freed)
    ensures forall x: nat :: Uses(after, x) <= 1 && RangeUses(freed, x) <= 1
  {
    forall x: nat
      ensures x in DataSet(before) <==> x in DataSet(after) || x in RangeSet(freed)
      ensures !(x in DataSet(after) && x in RangeSet(freed))
      ensures Uses(after, x) <= 1 && RangeUses(freed, x) <= 1
    {
      assert Uses(before, x) == Uses(after, x) + RangeUses(freed, x);
      DataSetUses(before, x);
      DataSetUses(after, x);
      RangeSetUses(freed, x);
    }
  }

  lemma EditSame(after: seq<Extent>, after': seq<Extent>, before: seq<Extent>, ed: Edit, freed: seq<Range>)
    requires EditOf(after, before, ed, freed) && SameMeaning(after, after')
    ensures EditOf(after', before, ed, freed)
  {
    forall b: nat ensures Lookup(after, b) == Lookup(after', b) {
    }
  }

  lemma AscendingDisjoint(s: seq<Extent>)
    requires Ascending(s)
    ensures Disjoint(s)
  {
  }

  lemma OwnsGrows(free: set<nat>, more: set<nat>, rootDirBlock: nat, nrBlocks: nat, disk: Disk, root: nat,
                  blocks: nat, blocks': nat, l: Loaded)
    requires Owns(free, rootDirBlock, nrBlocks, disk, root, blocks, l)
    requires more !! TreeBlocks(l) && root !in more && forall x :: x in more ==> rootDirBlock < x < nrBlocks
    requires |l.leaves| + Total(l.extents) <= blocks'
    ensures Owns(free + more, rootDirBlock, nrBlocks, disk, root, blocks', l)
  {
  }

  lemma EditBalance(free0: set<nat>, free1: set<nat>, l: Loaded, l': Loaded, dropped: set<nat>)
    requires TreeBlocks(l) !! free0 && DataSet(l.extents) !! SetOf(l.leaves)
    requires DataSet(l.extents) == DataSet(l'.extents) + dropped && DataSet(l'.extents) !! dropped
    requires dropped !! SetOf(l'.leaves) && DataSet(l'.extents) !! SetOf(l'.leaves)
    requires free1 == free0 + SetOf(l.leaves) - SetOf(l'.leaves)
    ensures dropped !! free1 && dropped !! TreeBlocks(l')
    ensures free1 + dropped == free0 + TreeBlocks(l) - TreeBlocks(l')
  {
    hide DataSet, SetOf;
  }

  /** A successful edit of the file behind inode ci. */
  ghost predicate Edited(sb: SbInfo, dev: Device, ci: InodeInfo, l: Loaded, l': Loaded, ed: Edit,
                         free0: set<nat>, blocks0: nat)
    reads sb, sb.bfree, sb.pending, dev, ci
  {
    && FileOk(sb, dev, ci, l') && Reindexed(l'.extents, l.extents, ed)
    && DataSet(l'.extents) <= DataSet(l.extents)
    && ci.blocks + |l.leaves| + Total(l.extents) == blocks0 + |l'.leaves| + Total(l'.extents)
    && (!sb.shutdown ==> sb.Free() == free0 + TreeBlocks(l) - TreeBlocks(l'))
  }

  /** Without a fault the edit succeeds if and only if the list it leaves can be published. */
  ghost predicate EditAnswer(r: Result<()>, l: Loaded, l': Loaded, ed: Edit, room: nat)
    requires WellFormedEdit(ed)
  {
    && ErrorOf(r) == SyncError(|Settled(CutAll(l.extents, ed))|, |l.leaves|, room)
    && (r.Ok? ==> l'.extents == Settled(CutAll(l.extents, ed)))
  }

  /** An edit needs at most one extent more, and a truncation fits where the file did. */
  lemma EditFits(disk: Disk, root: nat, l: Loaded, ed: Edit, room: nat)
    requires Load(disk, root) == Ok(l) && Canonical(l.extents) && WellFormedEdit(ed)
    ensures SyncError(|l.extents| + 1, |l.leaves|, room).None? || ed.Truncate? ==>
      SyncError(|Settled(CutAll(l.extents, ed))|, |l.leaves|, room).None?
  {
    hide Load, Settled, CutAll, LeafCount;
    LoadedFits(disk, root, l);
    CutAllSize(l.extents, ed);
    SettledShrinks(CutAll(l.extents, ed));
    hide SyncError;
    var n := if ed.Truncate? then |l.extents| else |l.extents| + 1;
    assert SyncError(|l.extents|, |l.leaves|, room).None? by {
      NoMoreLeaves(|l.extents|, |l.leaves|, room);
    }
    if SyncError(n, |l.leaves|, room).None? {
      FewerFit(|Settled(CutAll(l.extents, ed))|, n, |l.leaves|, room);
    }
  }

  lemma NoMoreLeaves(n: nat, leaves: nat, room: nat)
    requires n <= MAX_FILE_EXTENTS && LeafCount(n) <= leaves
    ensures SyncError(n, leaves, room).None?
  {
  }

  /** Publish the edited list, then free what it dropped. */
  method FinishEdit(sb: SbInfo, dev: Device, ci: InodeInfo, buf: ExtentBuffer, ghost l: Loaded, ghost ed: Edit,
                    freed: seq<Range>, blocksFreed: nat) returns (r: Result<()>, ghost l': Loaded)
    requires FileOk(sb, dev, ci, l) && buf.leafBlocks == l.leaves && Ascending(buf.extents)
    requires EditOf(buf.extents, l.extents, ed, freed) && blocksFreed == RangeTotal(freed)
    modifies sb`nrFree, sb`shutdown, sb`faults, sb.bfree, sb.pending, dev, ci`blocks, buf
    ensures sb.Valid() && (old(sb.shutdown) ==> sb.shutdown)
    ensures r.Ok? ==> Edited(sb, dev, ci, l, l', ed, old(sb.Free()), old(ci.blocks))
    ensures r.Err? && !sb.shutdown ==>
        FileOk(sb, dev, ci, l) && sb.Free() <= old(sb.Free()) && dev.disk == old(dev.disk)
    ensures Tidy(old(buf.extents)) ==> l'.extents == Settled(old(buf.extents))
    ensures old(sb.Healthy()) ==>
        && sb.Healthy() && ErrorOf(r) == SyncError(|l'.extents|, |l.leaves|, |old(sb.Free()) - sb.busy|)
        && (r.Err? ==> sb.Free() == old(sb.Free()) && ci.blocks == old(ci.blocks))
  {
    hide BitSet, SetOf, DataSet, RangeSet, Uses, RangeUses, EditOf, Owns, SameMeaning, Disjoint, SameOutside, Load,
      Lookup, RangeTotal, Total, BitsOk, Tidy, Settled, MergeList, SyncError, Canonical;
    ghost var free0, blocks0, disk0, t := sb.Free(), ci.blocks, dev.disk, buf.extents;
    OwnsParts(free0, sb.rootDirBlock, sb.nrBlocks, disk0, ci.root, blocks0, l);
    EditData(t, l.extents, ed, freed);
    EditTotal(t, l.extents, ed, freed);
    AscendingDisjoint(t);
    r := Publish(sb, dev, ci, buf);
    l' := Loaded(buf.extents, buf.leafBlocks);
    if r.Err? {
      if !sb.shutdown {
        OwnsShrinks(free0, sb.Free(), sb.rootDirBlock, sb.nrBlocks, disk0, ci.root, blocks0, ci.blocks, l);
      }
      return;
    }
    EditSame(t, l'.extents, l.extents, ed, freed);
    EditData(l'.extents, l.extents, ed, freed);
    EditTotal(l'.extents, l.extents, ed, freed);
    ReleaseDropped(sb, dev, ci, l, l', freed, blocksFreed, free0);
  }

  lemma EditTotal(after: seq<Extent>, before: seq<Extent>, ed: Edit, freed: seq<Range>)
    requires EditOf(after, before, ed, freed)
    ensures Total(before) == Total(after) + RangeTotal(freed) && Reindexed(after, before, ed)
  {
  }

  lemma OwnsParts(free: set<nat>, rootDirBlock: nat, nrBlocks: nat, disk: Disk, root: nat, blocks: nat, l: Loaded)
    requires Owns(free, rootDirBlock, nrBlocks, disk, root, blocks, l)
    ensures root !in free && root !in l.leaves && 0 < root < nrBlocks && root !in DataSet(l.extents)
    ensures (forall b :: b in free ==> rootDirBlock < b < nrBlocks) && forall b: nat :: b < nrBlocks ==> b in disk
    ensures LeavesOwned(free, rootDirBlock, nrBlocks, l.leaves)
    ensures DataOwned(free, rootDirBlock, nrBlocks, root, l.leaves, l.extents)
    ensures TreeBlocks(l) !! free && DataSet(l.extents) !! SetOf(l.leaves)
    ensures |l.leaves| + Total(l.extents) <= blocks
  {
  }

  /** The freeing half of an edit. */
  method ReleaseDropped(sb: SbInfo, dev: Device, ci: InodeInfo, ghost l: Loaded, ghost l': Loaded,
                        freed: seq<Range>, blocksFreed: nat, ghost free0: set<nat>)
    requires FileOk(sb, dev, ci, l') && TreeBlocks(l) !! free0 && DataSet(l.extents) !! SetOf(l.leaves)
    requires DataSet(l.extents) == DataSet(l'.extents) + RangeSet(freed) && DataSet(l'.extents) !! RangeSet(freed)
    requires forall x :: x in DataSet(l.extents) ==> sb.rootDirBlock < x < sb.nrBlocks && x != ci.root
    requires forall x: nat :: RangeUses(freed, x) <= 1
    requires sb.Free() == free0 + SetOf(l.leaves) - SetOf(l'.leaves) && SetOf(l'.leaves) !! RangeSet(freed)
    requires |l'.leaves| + Total(l'.extents) + blocksFreed <= ci.blocks
    modifies sb`nrFree, sb`shutdown, sb`faults, sb.bfree, sb.pending, ci`blocks
    ensures sb.Valid() && (old(sb.shutdown) ==> sb.shutdown) && FileOk(sb, dev, ci, l')
    ensures ci.blocks == old(ci.blocks) - blocksFreed
    ensures old(sb.faults) == [] ==> sb.faults == [] && sb.shutdown == old(sb.shutdown)
    ensures !sb.shutdown ==> sb.Free() == free0 + TreeBlocks(l) - TreeBlocks(l')
  {
    hide BitSet, SetOf, DataSet, RangeSet, RangeUses, Owns, TreeBlocks, Returnable, Total, BitsOk;
    ghost var free1 := sb.Free();
    ReleaseFacts(free0, free1, l, l', freed, sb.rootDirBlock, sb.nrBlocks, dev.disk, ci.root, ci.blocks);
    PutRanges(sb, freed);
    OwnsReleased(free1, sb.Free(), RangeSet(freed), sb.rootDirBlock, sb.nrBlocks, dev.disk, ci.root, ci.blocks, ci.blocks - blocksFreed, l');
    ci.blocks := ci.blocks - blocksFreed;
  }

  lemma ReleaseFacts(free0: set<nat>, free1: set<nat>, l: Loaded, l': Loaded, freed: seq<Range>, rootDirBlock: nat, nrBlocks: nat,
                     disk: Disk, root: nat, blocks: nat)
    requires Owns(free1, rootDirBlock, nrBlocks, disk, root, blocks, l')
    requires TreeBlocks(l) !! free0 && DataSet(l.extents) !! SetOf(l.leaves)
    requires DataSet(l.extents) == DataSet(l'.extents) + RangeSet(freed) && DataSet(l'.extents) !! RangeSet(freed)
    requires forall x :: x in DataSet(l.extents) ==> rootDirBlock < x < nrBlocks && x != root
    requires forall x: nat :: RangeUses(freed, x) <= 1
    requires free1 == free0 + SetOf(l.leaves) - SetOf(l'.leaves) && SetOf(l'.leaves) !! RangeSet(freed)
    ensures Returnable(freed, free1, rootDirBlock, nrBlocks) && RangeSet(freed) !! TreeBlocks(l')
    ensures forall x :: x in RangeSet(freed) ==> rootDirBlock < x < nrBlocks && x != root
    ensures free1 + RangeSet(freed) == free0 + TreeBlocks(l) - TreeBlocks(l')
  {
    hide SetOf, DataSet, RangeSet, RangeUses, Owns, TreeBlocks, Total;
    OwnsParts(free1, rootDirBlock, nrBlocks, disk, root, blocks, l');
    EditBalance(free0, free1, l, l', RangeSet(freed));
  }

  lemma OwnsReleased(free1: set<nat>, free2: set<nat>, dropped: set<nat>, rootDirBlock: nat, nrBlocks: nat, disk: Disk,
                     root: nat, blocks: nat, blocks': nat, l: Loaded)
    requires Owns(free1, rootDirBlock, nrBlocks, disk, root, blocks, l) && free1 <= free2 <= free1 + dropped
    requires dropped !! TreeBlocks(l) && forall x :: x in dropped ==> rootDirBlock < x < nrBlocks && x != root
    requires |l.leaves| + Total(l.extents) <= blocks'
    ensures Owns(free2, rootDirBlock, nrBlocks, disk, root, blocks', l)
  {
    hide TreeBlocks, Total, Owns;
    var got := free2 - free1;
    assert free2 == free1 + got;
    OwnsGrows(free1, got, rootDirBlock, nrBlocks, disk, root, blocks, blocks', l);
  }

  // ---------- the four operations ----------

  /** An edit that drops nothing leaves the file as it is. */
  lemma NothingDropped(after: seq<Extent>, before: seq<Extent>, ed: Edit, freed: seq<Range>)
    requires Canonical(before) && EditOf(after, before, ed, freed) && RangeTotal(freed) == 0
    requires ed.Punch? || ed.Truncate?
    ensures Reindexed(before, before, ed)
  {
    forall b: nat
      ensures Lookup(before, b) == if ed.Src(b).Some? then Lookup(before, ed.Src(b).value) else None
    {
      if ed.Src(b).None? && Lookup(before, b).Some? {
        var x := Lookup(before, b).value.phys;
        FreedIsRemovedImage(after, before, ed, freed, x);
        EmptyRanges(freed, x);
      }
    }
  }

  ghost predicate RemovesNothing(s: seq<Extent>, ed: Edit) {
    forall b: nat :: ed.Removes(b) ==> Lookup(s, b).None?
  }

  /** Nothing is freed exactly when no removed block was mapped. */
  lemma FreesNothing(after: seq<Extent>, before: seq<Extent>, ed: Edit, freed: seq<Range>)
    requires Canonical(before) && EditOf(after, before, ed, freed)
    ensures RangeTotal(freed) == 0 <==> RemovesNothing(before, ed)
  {
    hide EditOf, Lookup, Canonical;
    if RangeTotal(freed) == 0 {
      forall b: nat | ed.Removes(b) ensures Lookup(before, b).None? {
        if Lookup(before, b).Some? {
          var x := Lookup(before, b).value.phys;
          FreedIsRemovedImage(after, before, ed, freed, x);
          EmptyRanges(freed, x);
        }
      }
    } else {
      var x := SomeRange(freed);
      FreedIsRemovedImage(after, before, ed, freed, x);
    }
  }

  lemma {:induction false} SomeRange(rs: seq<Range>) returns (x: nat)
    requires RangeTotal(rs) > 0
    ensures RangeUses(rs, x) > 0
  {
    var n := |rs| - 1;
    if rs[n].len > 0 {
      x := rs[n].start;
    } else {
      x := SomeRange(rs[..n]);
    }
  }

  lemma {:induction false} EmptyRanges(rs: seq<Range>, x: nat)
    requires RangeTotal(rs) == 0
    ensures RangeUses(rs, x) == 0
  {
    if rs != [] {
      EmptyRanges(rs[..|rs| - 1], x);
    }
  }

  lemma UneditedFile(sb: SbInfo, dev: Device, ci: InodeInfo, l: Loaded, ed: Edit)
    requires FileOk(sb, dev, ci, l) && Reindexed(l.extents, l.extents, ed)
    ensures Edited(sb, dev, ci, l, l, ed, sb.Free(), ci.blocks)
  {
    hide BitSet, DataSet, SetOf, Load, Uses, Total, Lookup;
    OwnsParts(sb.Free(), sb.rootDirBlock, sb.nrBlocks, dev.disk, ci.root, ci.blocks, l);
  }

  lemma EditedCounts(sb: SbInfo, dev: Device, ci: InodeInfo, l: Loaded, l': Loaded, ed: Edit, free0: set<nat>, blocks0: nat)
    requires Edited(sb, dev, ci, l, l', ed, free0, blocks0)
    ensures ci.blocks + |l.leaves| + Total(l.extents) == blocks0 + |l'.leaves| + Total(l'.extents)
  {
  }

  lemma CutIsTidy(s: seq<Extent>, ed: Edit)
    requires Canonical(s) && WellFormedEdit(ed) && (ed.Punch? || ed.Truncate?)
    ensures Ascending(CutAll(s, ed)) ==> Tidy(CutAll(s, ed))
  {
    hide CutAll;
    CutAllTidy(s, ed);
  }

  lemma RebuiltTidy(s: seq<Extent>, ed: Edit)
    requires Canonical(s) && WellFormedEdit(ed) && (ed.Collapse? || ed.Insert?) && Ascending(CutAll(s, ed))
    ensures Canonical(CutAll(s, ed)) && Tidy(CutAll(s, ed))
  {
    hide CutAll, MergeList, Settled, Tidy;
    CutAllSolid(s, ed);
    CanonicalSettles(CutAll(s, ed));
  }

  /** Normalising a list without empty records twice is normalising it once. */
  lemma SettledTwice(t: seq<Extent>)
    requires Canonical(t) && Canonical(Settled(t))
    ensures Tidy(Settled(t)) && Settled(Settled(t)) == Settled(t)
  {
    hide MergeList, Settled, Tidy, Ascending, NoEmpties;
    CanonicalSettles(t);
    MergedFully(t);
    MergedIsFixed(MergeList(t));
    CanonicalSettles(MergeList(t));
  }

  /** simplefs_fallocate_punch_hole on the full blocks [lo, hi). */
  method PunchHole(sb: SbInfo, dev: Device, ci: InodeInfo, lo: nat, hi: nat, ghost l: Loaded)
      returns (r: Result<()>, ghost l': Loaded)
    requires FileOk(sb, dev, ci, l) && lo < hi
    modifies sb`nrFree, sb`shutdown, sb`faults, sb.bfree, sb.pending, dev, ci`blocks
    ensures sb.Valid() && (old(sb.shutdown) ==> sb.shutdown)
    ensures r.Ok? ==> Edited(sb, dev, ci, l, l', Punch(lo, hi), old(sb.Free()), old(ci.blocks))
    ensures r.Ok? && old(ci.Counts(l)) ==> ci.Counts(l')
    ensures r.Err? && !sb.shutdown ==>
        FileOk(sb, dev, ci, l) && sb.Free() <= old(sb.Free()) && dev.disk == old(dev.disk)
    ensures old(sb.Healthy()) ==>
        if RemovesNothing(l.extents, Punch(lo, hi)) then r.Ok? && l' == l
        else EditAnswer(r, l, l', Punch(lo, hi), |old(sb.Free()) - sb.busy|)
    ensures old(sb.Healthy()) && SyncError(|l.extents| + 1, |l.leaves|, |old(sb.Free()) - sb.busy|).None? ==> r.Ok?
    ensures old(sb.Healthy()) ==> sb.Healthy()
    ensures old(sb.Healthy()) && r.Err? ==> sb.Free() == old(sb.Free()) && ci.blocks == old(ci.blocks)
  {
    hide BitSet, EditOf, Owns, Edited, Ascending, BitsOk, CutAll, Settled, SyncError, Tidy, RemovesNothing, MergeList, Load;
    OwnsFacts(sb.Free(), sb.rootDirBlock, sb.nrBlocks, dev.disk, ci.root, ci.blocks, l);
    EditFits(dev.disk, ci.root, l, Punch(lo, hi), |sb.Free() - sb.busy|);
    var buf := OpenBuffer(dev, ci.root, l);
    var freed, blocksFreed := PunchExtents(buf, lo, hi);
    CutIsTidy(l.extents, Punch(lo, hi));
    FreesNothing(buf.extents, l.extents, Punch(lo, hi), freed);
    if blocksFreed > 0 {
      r, l' := FinishEdit(sb, dev, ci, buf, l, Punch(lo, hi), freed, blocksFreed);
    } else {
      NothingDropped(buf.extents, l.extents, Punch(lo, hi), freed);
      UneditedFile(sb, dev, ci, l, Punch(lo, hi));
      r, l' := Ok(()), l;
    }
    if r.Ok? {
      EditedCounts(sb, dev, ci, l, l', Punch(lo, hi), old(sb.Free()), old(ci.blocks));
    }
  }

  /** simplefs_truncate to n blocks, where the extents are cut. */
  method TruncateBlocks(sb: SbInfo, dev: Device, ci: InodeInfo, n: nat, ghost l: Loaded)
      returns (r: Result<()>, ghost l': Loaded)
    requires FileOk(sb, dev, ci, l)
    modifies sb`nrFree, sb`shutdown, sb`faults, sb.bfree, sb.pending, dev, ci`blocks
    ensures sb.Valid() && (old(sb.shutdown) ==> sb.shutdown)
    ensures r.Ok? ==> Edited(sb, dev, ci, l, l', Truncate(n), old(sb.Free()), old(ci.blocks))
    ensures r.Ok? && old(ci.Counts(l)) ==> ci.Counts(l')
    ensures r.Err? && !sb.shutdown ==>
        FileOk(sb, dev, ci, l) && sb.Free() <= old(sb.Free()) && dev.disk == old(dev.disk)
    ensures old(sb.Healthy()) ==>
        if RemovesNothing(l.extents, Truncate(n)) then r.Ok? && l' == l
        else EditAnswer(r, l, l', Truncate(n), |old(sb.Free()) - sb.busy|)
    ensures old(sb.Healthy()) ==> r.Ok?
    ensures old(sb.Healthy()) ==> sb.Healthy()
    ensures old(sb.Healthy()) && r.Err? ==> sb.Free() == old(sb.Free()) && ci.blocks == old(ci.blocks)
  {
    hide BitSet, EditOf, Owns, Edited, Ascending, BitsOk, CutAll, Settled, SyncError, Tidy, RemovesNothing, MergeList, Load;
    OwnsFacts(sb.Free(), sb.rootDirBlock, sb.nrBlocks, dev.disk, ci.root, ci.blocks, l);
    EditFits(dev.disk, ci.root, l, Truncate(n), |sb.Free() - sb.busy|);
    var buf := OpenBuffer(dev, ci.root, l);
    var freed, blocksFreed := TruncateExtents(buf, n);
    CutIsTidy(l.extents, Truncate(n));
    FreesNothing(buf.extents, l.extents, Truncate(n), freed);
    if blocksFreed > 0 {
      r, l' := FinishEdit(sb, dev, ci, buf, l, Truncate(n), freed, blocksFreed);
    } else {
      NothingDropped(buf.extents, l.extents, Truncate(n), freed);
      UneditedFile(sb, dev, ci, l, Truncate(n));
      r, l' := Ok(()), l;
    }
    if r.Ok? {
      EditedCounts(sb, dev, ci, l, l', Truncate(n), old(sb.Free()), old(ci.blocks));
    }
  }

  /** simplefs_fallocate_collapse on the blocks [lo, hi): the rebuilt list inherits the leaves. */
  method CollapseRange(sb: SbInfo, dev: Device, ci: InodeInfo, lo: nat, hi: nat, ghost l: Loaded)
      returns (r: Result<()>, ghost l': Loaded)
    requires FileOk(sb, dev, ci, l) && lo < hi
    modifies sb`nrFree, sb`shutdown, sb`faults, sb.bfree, sb.pending, dev, ci`blocks
    ensures sb.Valid() && (old(sb.shutdown) ==> sb.shutdown)
    ensures r.Ok? ==> Edited(sb, dev, ci, l, l', Collapse(lo, hi), old(sb.Free()), old(ci.blocks))
    ensures r.Ok? && old(ci.Counts(l)) ==> ci.Counts(l')
    ensures r.Err? && !sb.shutdown ==>
        FileOk(sb, dev, ci, l) && sb.Free() <= old(sb.Free()) && dev.disk == old(dev.disk)
    ensures old(sb.Healthy()) ==> EditAnswer(r, l, l', Collapse(lo, hi), |old(sb.Free()) - sb.busy|)
    ensures old(sb.Healthy()) && SyncError(|l.extents| + 1, |l.leaves|, |old(sb.Free()) - sb.busy|).None? ==> r.Ok?
    ensures old(sb.Healthy()) ==> sb.Healthy()
    ensures old(sb.Healthy()) && r.Err? ==> sb.Free() == old(sb.Free()) && ci.blocks == old(ci.blocks)
  {
    hide BitSet, EditOf, Owns, Edited, SameMeaning, BitsOk, CutAll, Settled, SyncError, MergeList, Load;
    OwnsFacts(sb.Free(), sb.rootDirBlock, sb.nrBlocks, dev.disk, ci.root, ci.blocks, l);
    EditFits(dev.disk, ci.root, l, Collapse(lo, hi), |sb.Free() - sb.busy|);
    var buf := OpenBuffer(dev, ci.root, l);
    var rebuilt, freed, blocksFreed := CollapseExtents(buf, lo, hi);
    var newBuf := new ExtentBuffer(rebuilt, []);
    RebuiltTidy(l.extents, Collapse(lo, hi));
    newBuf.Normalize();
    SettledTwice(rebuilt);
    EditSame(rebuilt, newBuf.extents, l.extents, Collapse(lo, hi), freed);
    newBuf.leafBlocks := buf.leafBlocks;
    r, l' := FinishEdit(sb, dev, ci, newBuf, l, Collapse(lo, hi), freed, blocksFreed);
    if r.Ok? {
      EditedCounts(sb, dev, ci, l, l', Collapse(lo, hi), old(sb.Free()), old(ci.blocks));
    }
  }

  /** simplefs_fallocate_insert of len blocks at `at`. */
  method InsertRange(sb: SbInfo, dev: Device, ci: InodeInfo, at: nat, len: nat, ghost l: Loaded)
      returns (r: Result<()>, ghost l': Loaded)
    requires FileOk(sb, dev, ci, l)
    modifies sb`nrFree, sb`shutdown, sb`faults, sb.bfree, sb.pending, dev, ci`blocks
    ensures sb.Valid() && (old(sb.shutdown) ==> sb.shutdown)
    ensures r.Ok? ==> Edited(sb, dev, ci, l, l', Insert(at, len), old(sb.Free()), old(ci.blocks))
    ensures r.Ok? && old(ci.Counts(l)) ==> ci.Counts(l')
    ensures r.Err? && !sb.shutdown ==>
        FileOk(sb, dev, ci, l) && sb.Free() <= old(sb.Free()) && dev.disk == old(dev.disk)
    ensures old(sb.Healthy()) ==> EditAnswer(r, l, l', Insert(at, len), |old(sb.Free()) - sb.busy|)
    ensures old(sb.Healthy()) && SyncError(|l.extents| + 1, |l.leaves|, |old(sb.Free()) - sb.busy|).None? ==> r.Ok?
    ensures old(sb.Healthy()) ==> sb.Healthy()
    ensures old(sb.Healthy()) && r.Err? ==> sb.Free() == old(sb.Free()) && ci.blocks == old(ci.blocks)
  {
    hide BitSet, EditOf, Owns, Edited, SameMeaning, BitsOk, CutAll, Settled, SyncError, MergeList, Load;
    OwnsFacts(sb.Free(), sb.rootDirBlock, sb.nrBlocks, dev.disk, ci.root, ci.blocks, l);
    EditFits(dev.disk, ci.root, l, Insert(at, len), |sb.Free() - sb.busy|);
    var buf := OpenBuffer(dev, ci.root, l);
    var rebuilt := InsertExtents(buf, at, len);
    var newBuf := new ExtentBuffer(rebuilt, []);
    RebuiltTidy(l.extents, Insert(at, len));
    newBuf.Normalize();
    SettledTwice(rebuilt);
    EditSame(rebuilt, newBuf.extents, l.extents, Insert(at, len), []);
    newBuf.leafBlocks := buf.leafBlocks;
    r, l' := FinishEdit(sb, dev, ci, newBuf, l, Insert(at, len), [], 0);
    if r.Ok? {
      EditedCounts(sb, dev, ci, l, l', Insert(at, len), old(sb.Free()), old(ci.blocks));
    }
  }
}
