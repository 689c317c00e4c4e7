/**
 * simplefs_zero_range_full_blocks (simplefs_file.c): one pass that turns every block of a
 * range into an unwritten one, allocating the holes on the way.
 */
module ZeroRanges {
  import opened Wrappers
  import opened Extents
  import opened ExtentBuffers
  import opened Bitmaps
  import opened ExtentTree
  import opened Unwritten
  import opened FileOps

  /**
   * [lo, hi) is mapped and unwritten throughout; a block mapped before is where it was;
   * outside the range nothing changed.
   */
  ghost predicate Zeroed(after: seq<Extent>, before: seq<Extent>, lo: nat, hi: nat) {
    forall b: nat ::
      if lo <= b < hi then
        && Lookup(after, b).Some? && Lookup(after, b).value.unwritten
        && (Lookup(before, b).Some? ==> Lookup(after, b).value.phys == Lookup(before, b).value.phys)
      else Lookup(after, b) == Lookup(before, b)
  }

  ghost function RangeSet(rs: seq<Range>): set<nat> {
    if rs == [] then {} else RangeSet(rs[..|rs| - 1]) + RunSet(rs[|rs| - 1].start, rs[|rs| - 1].len)
  }

  lemma RangeSetSnoc(rs: seq<Range>, r: Range)
    ensures RangeSet(rs + [r]) == RangeSet(rs) + RunSet(r.start, r.len)
    ensures RangeTotal(rs + [r]) == RangeTotal(rs) + r.len
  {
    assert (rs + [r])[..|rs|] == rs;
  }

  /** What the loop keeps about the list and about the blocks it took. */
  ghost predicate ZeroProgress(s: seq<Extent>, l: Loaded, lo: nat, block: nat, taken: seq<Range>,
                               free0: set<nat>, free: set<nat>, rootDirBlock: nat, nrBlocks: nat, root: nat) {
    && Canonical(s) && Zeroed(s, l.extents, lo, block)
    && DataSet(s) == DataSet(l.extents) + RangeSet(taken)
    && Total(s) == Total(l.extents) + RangeTotal(taken)
    && DataOwned(free, rootDirBlock, nrBlocks, root, l.leaves, s)
    && RangeSet(taken) <= free0 && free == free0 - RangeSet(taken)
    && lo <= block && |taken| <= block - lo
  }

  lemma ZeroStart(l: Loaded, lo: nat, free0: set<nat>, rootDirBlock: nat, nrBlocks: nat, disk: Disk, root: nat, blocks: nat)
    requires Owns(free0, rootDirBlock, nrBlocks, disk, root, blocks, l)
    ensures ZeroProgress(l.extents, l, lo, lo, [], free0, free0, rootDirBlock, nrBlocks, root)
  {
  }

  lemma ZeroedTrans(s: seq<Extent>, t: seq<Extent>, orig: seq<Extent>, lo: nat, block: nat, end: nat)
    requires Zeroed(s, orig, lo, block) && lo <= block <= end
    requires forall b: nat :: !(block <= b < end) ==> Lookup(t, b) == Lookup(s, b)
    requires forall b: nat :: block <= b < end ==> Lookup(t, b).Some? && Lookup(t, b).value.unwritten
    requires forall b: nat :: block <= b < end && Lookup(s, b).Some? ==> Lookup(t, b).value.phys == Lookup(s, b).value.phys
    ensures Zeroed(t, orig, lo, end)
  {
    forall b: nat ensures
      if lo <= b < end then
        && Lookup(t, b).Some? && Lookup(t, b).value.unwritten
        && (Lookup(orig, b).Some? ==> Lookup(t, b).value.phys == Lookup(orig, b).value.phys)
      else Lookup(t, b) == Lookup(orig, b)
    {
      assert Lookup(s, b) == Lookup(s, b);
    }
  }

  /** An extent that covers `block`: switched to unwritten from there on, up to last. */
  lemma ZeroFound(s: seq<Extent>, orig: seq<Extent>, idx: nat, lo: nat, block: nat, last: nat)
    requires Canonical(s) && Zeroed(s, orig, lo, block) && lo <= block < last && idx < |s| && s[idx].Covers(block)
    ensures var end := Min(s[idx].End(), last);
      var t := if s[idx].unwritten then s else s[..idx] + FlagCut(s[idx], block, end - block, true) + s[idx + 1..];
      && Canonical(t) && Zeroed(t, orig, lo, end)
      && (forall x: nat :: Uses(t, x) == Uses(s, x)) && Total(t) == Total(s)
  {
    hide Zeroed, FlagCut, Uses, Total;
    var end := Min(s[idx].End(), last);
    forall b: nat | block <= b < end ensures Lookup(s, b) == Some(s[idx].At(b)) {
      LookupAt(s, idx, b);
    }
    if s[idx].unwritten {
      ZeroedTrans(s, s, orig, lo, block, end);
    } else {
      FlagStep(s, idx, block, end - block, true);
      ZeroedTrans(s, s[..idx] + FlagCut(s[idx], block, end - block, true) + s[idx + 1..], orig, lo, block, end);
    }
  }

  lemma ZeroFoundProgress(s: seq<Extent>, l: Loaded, idx: nat, lo: nat, block: nat, last: nat, taken: seq<Range>,
                          free0: set<nat>, free: set<nat>, rootDirBlock: nat, nrBlocks: nat, root: nat)
    requires ZeroProgress(s, l, lo, block, taken, free0, free, rootDirBlock, nrBlocks, root)
    requires block < last && idx < |s| && s[idx].Covers(block)
    ensures var end := Min(s[idx].End(), last);
      var t := if s[idx].unwritten then s else s[..idx] + FlagCut(s[idx], block, end - block, true) + s[idx + 1..];
      ZeroProgress(t, l, lo, end, taken, free0, free, rootDirBlock, nrBlocks, root)
  {
    hide Zeroed, FlagCut, Lookup, Uses, Total, DataSet;
    ZeroFound(s, l.extents, idx, lo, block, last);
    var end := Min(s[idx].End(), last);
    var t := if s[idx].unwritten then s else s[..idx] + FlagCut(s[idx], block, end - block, true) + s[idx + 1..];
    SameDataSet(s, t);
    assert forall x: nat :: Uses(t, x) <= 1;
    assert DataOwned(free, rootDirBlock, nrBlocks, root, l.leaves, t);
  }

  /** Free blocks are data blocks, and none of the tree. */
  ghost predicate FreeApart(free: set<nat>, leaves: seq<nat>, root: nat, rootDirBlock: nat, nrBlocks: nat) {
    SetOf(leaves) !! free && root !in free && forall b :: b in free ==> rootDirBlock < b < nrBlocks
  }

  /** A hole at `block`: a fresh unwritten extent put there. */
  lemma ZeroHoleProgress(s: seq<Extent>, l: Loaded, idx: nat, lo: nat, block: nat, taken: seq<Range>, bno: nat, len: nat,
                         free0: set<nat>, free: set<nat>, rootDirBlock: nat, nrBlocks: nat, root: nat)
    requires ZeroProgress(s, l, lo, block, taken, free0, free, rootDirBlock, nrBlocks, root)
    requires FreeApart(free0, l.leaves, root, rootDirBlock, nrBlocks)
    requires 0 < bno && 0 < len <= MAX_EXTENT_BLOCKS && RunSet(bno, len) <= free && idx <= |s|
    requires forall k :: 0 <= k < idx ==> s[k].End() <= block
    requires forall k :: idx <= k < |s| ==> block + len <= s[k].block
    ensures ZeroProgress(s[..idx] + [Extent(block, len, bno, true)] + s[idx..], l, lo, block + len, taken + [Range(bno, len)],
                         free0, free - RunSet(bno, len), rootDirBlock, nrBlocks, root)
  {
    hide Zeroed, Lookup, Uses, Total, DataSet, RunSet, Extended, Hole, SetOf, Ascending, NoEmpties;
    var e := Extent(block, len, bno, true);
    var t := s[..idx] + [e] + s[idx..];
    InsertIsCanonical(s, idx, e);
    InsertExtends(s, idx, e);
    ExtendedData(t, s, block, len, bno, true);
    ExtendedOwned(free, rootDirBlock, nrBlocks, root, Loaded(s, l.leaves), t, block, bno, len, true);
    ExtendedTotal(t, s, block, len, bno, true);
    RangeSetSnoc(taken, Range(bno, len));
    ExtendedZeroes(s, t, l.extents, lo, block, len, bno);
  }

  lemma ExtendedZeroes(s: seq<Extent>, t: seq<Extent>, orig: seq<Extent>, lo: nat, block: nat, len: nat, bno: nat)
    requires Extended(t, s, block, len, bno, true) && Hole(s, block, len) && Zeroed(s, orig, lo, block) && lo <= block
    ensures Zeroed(t, orig, lo, block + len)
  {
    ZeroedTrans(s, t, orig, lo, block, block + len);
  }

  // ---------- how many blocks and extents a pass takes ----------

  /** How many blocks of [lo, hi) are not mapped. */
  ghost function Holes(s: seq<Extent>, lo: nat, hi: nat): nat {
    if hi <= lo then 0 else Holes(s, lo, hi - 1) + if Lookup(s, hi - 1).None? then 1 else 0
  }

  lemma {:induction false} HolesFilled(s: seq<Extent>, lo: nat, mid: nat, hi: nat)
    requires lo <= mid <= hi
    ensures Hole(s, mid, hi - mid) ==> Holes(s, lo, hi) == Holes(s, lo, mid) + (hi - mid)
    ensures (forall b: nat :: mid <= b < hi ==> Lookup(s, b).Some?) ==> Holes(s, lo, hi) == Holes(s, lo, mid)
    ensures Holes(s, lo, mid) <= Holes(s, lo, hi)
    ensures mid < hi && Lookup(s, mid).None? ==> Holes(s, lo, mid) < Holes(s, lo, hi)
  {
    if mid < hi {
      HolesFilled(s, lo, mid, hi - 1);
    }
  }

  /** The runs are not empty and share no block. */
  ghost predicate RunsApart(rs: seq<Range>) {
    forall n :: 0 <= n < |rs| ==> rs[n].len > 0 && RunSet(rs[n].start, rs[n].len) !! RangeSet(rs[..n])
  }

  lemma {:induction false} ApartSize(rs: seq<Range>)
    requires RunsApart(rs)
    ensures |RangeSet(rs)| == RangeTotal(rs)
  {
    hide RunSet;
    if rs != [] {
      var n := |rs| - 1;
      ApartPrefix(rs, n);
      ApartSize(rs[..n]);
      RunSetSize(rs[n].start, rs[n].len);
      var a, b := RangeSet(rs[..n]), RunSet(rs[n].start, rs[n].len);
      assert |a + b| == |a| + |b|;
    }
  }

  lemma ApartPrefix(rs: seq<Range>, n: nat)
    requires RunsApart(rs) && n <= |rs|
    ensures RunsApart(rs[..n])
  {
    hide RunSet, RangeSet;
    assert forall k :: 0 <= k < n ==> rs[..n][..k] == rs[..k];
  }

  lemma ApartNext(rs: seq<Range>, r: Range)
    requires RunsApart(rs) && r.len > 0 && RunSet(r.start, r.len) !! RangeSet(rs)
    ensures RunsApart(rs + [r])
  {
    hide RunSet, RangeSet;
    var t := rs + [r];
    forall n | 0 <= n < |t| ensures t[n].len > 0 && RunSet(t[n].start, t[n].len) !! RangeSet(t[..n]) {
      if n < |rs| {
        assert t[..n] == rs[..n];
      } else {
        assert t[..n] == rs;
      }
    }
  }

  /** No extent begins before b and ends behind it. */
  ghost predicate Unstraddled(s: seq<Extent>, b: nat) {
    forall k :: 0 <= k < |s| ==> !(s[k].block < b < s[k].End())
  }

  lemma EndsThere(s: seq<Extent>, k: nat)
    requires Canonical(s) && k < |s|
    ensures Unstraddled(s, s[k].End())
  {
    forall j | 0 <= j < |s| ensures !(s[j].block < s[k].End() < s[j].End()) {
      if j < k {
        assert s[j].End() <= s[k].block;
      } else if j > k {
        assert s[k].End() <= s[j].block;
      }
    }
  }

  /** The blocks taken so far, and how long the list may have grown. */
  ghost predicate ZeroBooks(s: seq<Extent>, orig: seq<Extent>, first: nat, block: nat, last: nat, taken: seq<Range>,
                            busy: set<nat>) {
    && RangeTotal(taken) == Holes(orig, first, block) && RunsApart(taken) && RangeSet(taken) !! busy
    && |s| <= |orig| + |taken| + (if block > first then 1 else 0) + (if block >= last then 1 else 0)
    && (first < block < last ==> Unstraddled(s, block))
  }

  lemma NoBooks(orig: seq<Extent>, first: nat, last: nat, busy: set<nat>)
    ensures ZeroBooks(orig, orig, first, first, last, [], busy)
  {
  }

  lemma FoundKeepsBooks(s: seq<Extent>, orig: seq<Extent>, idx: nat, first: nat, block: nat, last: nat, taken: seq<Range>,
                        busy: set<nat>)
    requires ZeroBooks(s, orig, first, block, last, taken, busy) && Canonical(s) && Zeroed(s, orig, first, block)
    requires first <= block < last && idx < |s| && s[idx].Covers(block)
    ensures var end := Min(s[idx].End(), last);
      var t := if s[idx].unwritten then s else s[..idx] + FlagCut(s[idx], block, end - block, true) + s[idx + 1..];
      Canonical(t) ==> ZeroBooks(t, orig, first, end, last, taken, busy)
  {
    hide RunsApart, RangeSet, RangeTotal, Lookup, Holes;
    var e := s[idx];
    var end := Min(e.End(), last);
    forall b: nat | block <= b < end ensures Lookup(orig, b).Some? {
      LookupAt(s, idx, b);
    }
    HolesFilled(orig, first, block, end);
    var t := if e.unwritten then s else s[..idx] + FlagCut(e, block, end - block, true) + s[idx + 1..];
    assert e.block < block ==> block == first;
    if Canonical(t) && end < last {
      if e.unwritten {
        EndsThere(t, idx);
      } else {
        var k := idx + if e.block < block then 1 else 0;
        assert t[k].End() == end;
        EndsThere(t, k);
      }
    }
  }

  lemma HoleKeepsBooks(s: seq<Extent>, orig: seq<Extent>, idx: nat, first: nat, block: nat, last: nat, taken: seq<Range>,
                       range: Range, free: set<nat>, busy: set<nat>)
    requires ZeroBooks(s, orig, first, block, last, taken, busy) && Zeroed(s, orig, first, block)
    requires first <= block && 0 < range.len <= last - block && range.len <= MAX_EXTENT_BLOCKS && Hole(s, block, range.len)
    requires Usable(free, busy, range.start, range.len) && free !! RangeSet(taken) && idx <= |s|
    ensures var t := s[..idx] + [Extent(block, range.len, range.start, true)] + s[idx..];
      Canonical(t) ==> ZeroBooks(t, orig, first, block + range.len, last, taken + [range], busy)
  {
    hide RunsApart, RangeSet, RangeTotal, Lookup, Canonical, Holes, RunSet, Usable;
    var t := s[..idx] + [Extent(block, range.len, range.start, true)] + s[idx..];
    var end := block + range.len;
    forall b: nat | block <= b < end ensures Lookup(orig, b).None? {
    }
    HolesFilled(orig, first, block, end);
    UsableIsApart(free, busy, range.start, range.len);
    ApartNext(taken, range);
    RangeSetSnoc(taken, range);
    if Canonical(t) {
      assert t[idx].End() == end;
      EndsThere(t, idx);
    }
  }

  lemma UsableIsApart(free: set<nat>, busy: set<nat>, at: nat, len: nat)
    requires Usable(free, busy, at, len)
    ensures RunSet(at, len) <= free && RunSet(at, len) !! busy
  {
  }

  /** A pass that ran out had taken every block there was to have. */
  lemma AllTaken(free0: set<nat>, busy: set<nat>, taken: seq<Range>)
    requires RunsApart(taken) && RangeSet(taken) !! busy && RangeSet(taken) <= free0
    ensures RangeTotal(taken) <= |free0 - busy|
    ensures |free0 - RangeSet(taken) - busy| == |free0 - busy| - RangeTotal(taken)
    ensures NoBlockUsable(free0 - RangeSet(taken), busy) ==> RangeTotal(taken) == |free0 - busy|
  {
    hide RunsApart, RangeSet, RangeTotal;
    ApartSize(taken);
    var got, all := RangeSet(taken), free0 - busy;
    SplitSize(got, all);
    assert free0 - got - busy == all - got;
    if NoBlockUsable(free0 - got, busy) {
      forall b | b in all ensures b in got {
        assert !Usable(free0 - got, busy, b, 1);
      }
      assert all == got;
    }
  }

  lemma BooksFacts(s: seq<Extent>, orig: seq<Extent>, first: nat, block: nat, last: nat, taken: seq<Range>, busy: set<nat>,
                   free0: set<nat>)
    requires ZeroBooks(s, orig, first, block, last, taken, busy) && RangeSet(taken) <= free0
    ensures RangeTotal(taken) == Holes(orig, first, block) <= |free0 - busy| && RunsApart(taken) && RangeSet(taken) !! busy
    ensures |s| <= |orig| + |taken| + 2
    ensures NoBlockUsable(free0 - RangeSet(taken), busy) ==> RangeTotal(taken) == |free0 - busy|
  {
    hide RunsApart, RangeSet, RangeTotal, Holes, NoBlockUsable;
    AllTaken(free0, busy, taken);
  }

  lemma NextIsHole(s: seq<Extent>, orig: seq<Extent>, idx: nat, first: nat, block: nat, last: nat)
    requires Zeroed(s, orig, first, block) && first <= block < last && idx <= |s|
    requires forall k :: 0 <= k < idx ==> s[k].End() <= block
    requires forall k :: idx <= k < |s| ==> block < s[k].block
    ensures Holes(orig, first, block) < Holes(orig, first, last)
  {
    hide Lookup;
    LookupMiss(s, block);
    HolesFilled(orig, first, block, last);
  }

  lemma SplitSize(a: set<nat>, b: set<nat>)
    requires a <= b
    ensures |a| <= |b| && |b - a| == |b| - |a|
  {
    assert b == a + (b - a);
  }

  /** One turn of the loop on a hole. */
  method ZeroHole(sb: SbInfo, buf: ExtentBuffer, idx: nat, block: nat, last: nat,
                  ghost l: Loaded, ghost lo: nat, taken: seq<Range>, ghost free0: set<nat>, ghost root: nat)
      returns (ok: bool, range: Range)
    requires sb.Valid() && block < last && idx <= |buf.extents|
    requires ZeroProgress(buf.extents, l, lo, block, taken, free0, sb.Free(), sb.rootDirBlock, sb.nrBlocks, root)
    requires lo <= block && ZeroBooks(buf.extents, l.extents, lo, block, last, taken, sb.busy)
    requires FreeApart(free0, l.leaves, root, sb.rootDirBlock, sb.nrBlocks)
    requires forall k :: 0 <= k < idx ==> buf.extents[k].End() <= block
    requires forall k :: idx <= k < |buf.extents| ==> block < buf.extents[k].block
    modifies sb`nrFree, sb`shutdown, sb`faults, sb.bfree, sb.pending, buf`extents
    ensures sb.Valid() && (old(sb.shutdown) ==> sb.shutdown) && sb.Free() <= old(sb.Free())
    ensures ok ==>
        && 0 < range.len <= last - block && !sb.shutdown
        && ZeroProgress(buf.extents, l, lo, block + range.len, taken + [range], free0, sb.Free(), sb.rootDirBlock, sb.nrBlocks, root)
        && ZeroBooks(buf.extents, l.extents, lo, block + range.len, last, taken + [range], sb.busy)
    ensures old(sb.faults) == [] ==> sb.faults == [] && sb.shutdown == old(sb.shutdown)
    ensures !ok ==> buf.extents == old(buf.extents) && Holes(l.extents, lo, block) < Holes(l.extents, lo, last)
    ensures !ok && !sb.shutdown ==> sb.Free() == old(sb.Free()) && NoBlockUsable(sb.Free(), sb.busy)
  {
    hide Usable, BitSet, RunSet, SetOf, Zeroed, DataSet, BitsOk, NoBlockUsable, Hole, Refused, Halvings, NoneUsableBefore,
      ZeroBooks, ZeroProgress, Holes, RangeSet, Canonical, Lookup, FreeApart;
    ProgressCanonical(buf.extents, l, lo, block, taken, free0, sb.Free(), sb.rootDirBlock, sb.nrBlocks, root);
    NextIsHole(buf.extents, l.extents, idx, lo, block, last);
    var want := last - block;
    if idx < |buf.extents| && buf.extents[idx].block < block + want {
      want := buf.extents[idx].block - block;
    }
    want := Min(want, MAX_EXTENT_BLOCKS);
    FitsBefore(buf.extents, idx, block, want);
    ghost var free1 := sb.Free();
    var bno, len := AllocateRun(sb, want);
    range := Range(bno, len);
    if bno == 0 {
      return false, range;
    }
    ZeroHoleProgress(buf.extents, l, idx, lo, block, taken, bno, len, free0, free1, sb.rootDirBlock, sb.nrBlocks, root);
    HoleThere(buf.extents, idx, block, len);
    HoleKeepsBooks(buf.extents, l.extents, idx, lo, block, last, taken, range, free1, sb.busy);
    buf.InsertExtent(idx, Extent(block, len, bno, true));
    ProgressCanonical(buf.extents, l, lo, block + len, taken + [range], free0, sb.Free(), sb.rootDirBlock, sb.nrBlocks, root);
    return true, range;
  }

  lemma HoleThere(s: seq<Extent>, idx: nat, block: nat, len: nat)
    requires Canonical(s) && idx <= |s| && forall k :: 0 <= k < idx ==> s[k].End() <= block
    requires forall k :: idx <= k < |s| ==> block + len <= s[k].block
    ensures Hole(s, block, len)
  {
    hide Lookup;
    forall b: nat | block <= b < block + len ensures Lookup(s, b).None? {
      LookupMiss(s, b);
    }
  }

  /** One turn of the loop on an extent. */
  method ZeroMapped(sb: SbInfo, buf: ExtentBuffer, idx: nat, block: nat, last: nat,
                    ghost l: Loaded, ghost lo: nat, ghost taken: seq<Range>, ghost free0: set<nat>, ghost root: nat)
      returns (end: nat)
    requires lo <= block < last && idx < |buf.extents| && buf.extents[idx].Covers(block)
    requires ZeroProgress(buf.extents, l, lo, block, taken, free0, sb.Free(), sb.rootDirBlock, sb.nrBlocks, root)
    requires ZeroBooks(buf.extents, l.extents, lo, block, last, taken, sb.busy)
    modifies buf`extents
    ensures block < end <= last
    ensures ZeroProgress(buf.extents, l, lo, end, taken, free0, sb.Free(), sb.rootDirBlock, sb.nrBlocks, root)
    ensures ZeroBooks(buf.extents, l.extents, lo, end, last, taken, sb.busy)
  {
    hide ZeroProgress, ZeroBooks, BitSet, FlagCut, Canonical, Zeroed, RangeSet;
    end := Min(buf.extents[idx].End(), last);
    ZeroFoundProgress(buf.extents, l, idx, lo, block, last, taken, free0, sb.Free(), sb.rootDirBlock, sb.nrBlocks, root);
    ProgressCanonical(buf.extents, l, lo, block, taken, free0, sb.Free(), sb.rootDirBlock, sb.nrBlocks, root);
    FoundKeepsBooks(buf.extents, l.extents, idx, lo, block, last, taken, sb.busy);
    if !buf.extents[idx].unwritten {
      FlagExtent(buf, idx, block, end - block, true);
    }
    ProgressCanonical(buf.extents, l, lo, end, taken, free0, sb.Free(), sb.rootDirBlock, sb.nrBlocks, root);
  }

  /** One turn of the loop. */
  method ZeroTurn(sb: SbInfo, ci: InodeInfo, buf: ExtentBuffer, block: nat, last: nat, ghost l: Loaded, ghost lo: nat,
                  taken: seq<Range>, ghost free0: set<nat>) returns (ok: bool, end: nat, more: seq<Range>)
    requires sb.Valid() && lo <= block < last && FreeApart(free0, l.leaves, ci.root, sb.rootDirBlock, sb.nrBlocks)
    requires ZeroProgress(buf.extents, l, lo, block, taken, free0, sb.Free(), sb.rootDirBlock, sb.nrBlocks, ci.root)
    requires ZeroBooks(buf.extents, l.extents, lo, block, last, taken, sb.busy)
    modifies sb`nrFree, sb`shutdown, sb`faults, sb.bfree, sb.pending, buf`extents, ci`blocks
    ensures sb.Valid() && (old(sb.shutdown) ==> sb.shutdown) && sb.Free() <= free0
    ensures old(sb.faults) == [] ==> sb.faults == [] && sb.shutdown == old(sb.shutdown)
    ensures block <= end <= last && (ok ==> block < end)
    ensures ZeroBooks(buf.extents, l.extents, lo, end, last, more, sb.busy) && |more| <= end - lo && RangeSet(more) <= free0
    ensures ok || !sb.shutdown ==>
        ZeroProgress(buf.extents, l, lo, end, more, free0, sb.Free(), sb.rootDirBlock, sb.nrBlocks, ci.root)
    ensures ci.blocks - RangeTotal(more) == old(ci.blocks) - RangeTotal(taken)
    ensures !ok ==> Holes(l.extents, lo, end) < Holes(l.extents, lo, last)
    ensures !ok && !sb.shutdown ==> NoBlockUsable(sb.Free(), sb.busy)
  {
    hide ZeroProgress, BitSet, SetOf, FlagCut, RangeTotal, RangeSet, Canonical, BitsOk, ZeroBooks, RunsApart, Zeroed, Hole,
      Usable, NoBlockUsable, Lookup, Holes, Extent.Len, Extent.End, Extent.Covers, FreeApart;
    ProgressCanonical(buf.extents, l, lo, block, taken, free0, sb.Free(), sb.rootDirBlock, sb.nrBlocks, ci.root);
    var found, idx := buf.FindExtent(block);
    if found {
      end := ZeroMapped(sb, buf, idx, block, last, l, lo, taken, free0, ci.root);
      return true, end, taken;
    }
    var got, range := ZeroHole(sb, buf, idx, block, last, l, lo, taken, free0, ci.root);
    if !got {
      return false, block, taken;
    }
    RangeSetSnoc(taken, range);
    ci.blocks := ci.blocks + range.len;
    ok, end, more := true, block + range.len, taken + [range];
    ProgressCanonical(buf.extents, l, lo, end, more, free0, sb.Free(), sb.rootDirBlock, sb.nrBlocks, ci.root);
  }

  /** The rollback after a failed sync: every run taken is offered back to the allocator. */
  method GiveBack(sb: SbInfo, ci: InodeInfo, taken: seq<Range>, ghost free0: set<nat>)
    requires sb.Valid() && RangeSet(taken) <= free0 && RangeTotal(taken) <= ci.blocks
    modifies sb`nrFree, sb`shutdown, sb`faults, sb.bfree, sb.pending, ci`blocks
    ensures sb.Valid() && (old(sb.shutdown) ==> sb.shutdown)
    ensures old(sb.Free()) <= free0 ==> sb.Free() <= free0
    ensures ci.blocks == old(ci.blocks) - RangeTotal(taken)
    ensures old(sb.faults) == [] ==> sb.faults == [] && sb.shutdown == old(sb.shutdown)
    ensures old(sb.Healthy()) && Restorable(taken, old(sb.Free()), free0, sb.rootDirBlock, sb.nrBlocks) ==> sb.Free() == free0
  {
    hide BitSet, RunSet, BitsOk, RangeSet, RangeTotal, RunsApart;
    var n := |taken|;
    assert taken[..n] == taken;
    ghost var sure := sb.Healthy() && Restorable(taken, sb.Free(), free0, sb.rootDirBlock, sb.nrBlocks);
    while n > 0
      invariant 0 <= n <= |taken| && sb.Valid() && (old(sb.shutdown) ==> sb.shutdown)
      invariant (old(sb.Free()) <= free0 ==> sb.Free() <= free0) && RangeSet(taken[..n]) <= free0
      invariant RangeTotal(taken[..n]) <= ci.blocks
      invariant ci.blocks == old(ci.blocks) - RangeTotal(taken) + RangeTotal(taken[..n])
      invariant old(sb.faults) == [] ==> sb.faults == [] && sb.shutdown == old(sb.shutdown)
      invariant sure ==> sb.Healthy() && sb.Free() == free0 - RangeSet(taken[..n])
    {
      n := n - 1;
      assert taken[..n + 1] == taken[..n] + [taken[n]];
      RangeSetSnoc(taken[..n], taken[n]);
      if sure {
        LastRun(taken, n, free0);
        RunFreeable(sb, free0, taken[n].start, taken[n].len);
      }
      sb.PutBlocks(taken[n].start, taken[n].len);
      ci.blocks := ci.blocks - taken[n].len;
    }
    NoneLeftToReturn(taken);
  }

  /** The runs are what the allocator lacks of free0. */
  ghost predicate Restorable(taken: seq<Range>, free: set<nat>, free0: set<nat>, rootDirBlock: nat, nrBlocks: nat) {
    && RunsApart(taken) && RangeSet(taken) <= free0 && free == free0 - RangeSet(taken)
    && forall b :: b in free0 ==> rootDirBlock < b < nrBlocks
  }

  lemma LastRun(taken: seq<Range>, n: nat, free0: set<nat>)
    requires RunsApart(taken) && n < |taken| && RangeSet(taken[..n + 1]) <= free0
    ensures taken[n].len > 0 && RunSet(taken[n].start, taken[n].len) <= free0
    ensures RunSet(taken[n].start, taken[n].len) !! RangeSet(taken[..n])
  {
    hide RunSet, RangeSet;
    assert taken[..n + 1] == taken[..n] + [taken[n]];
    RangeSetSnoc(taken[..n], taken[n]);
  }

  lemma NoneLeftToReturn(taken: seq<Range>)
    ensures RangeSet(taken[..0]) == {} && RangeTotal(taken[..0]) == 0
  {
  }

  /** The loop over the range. */
  method ZeroPass(sb: SbInfo, ci: InodeInfo, buf: ExtentBuffer, first: nat, last: nat, ghost l: Loaded, ghost free0: set<nat>)
      returns (ok: bool, taken: seq<Range>)
    requires sb.Valid() && first < last && sb.Free() == free0 && buf.extents == l.extents
    requires ZeroProgress(buf.extents, l, first, first, [], free0, free0, sb.rootDirBlock, sb.nrBlocks, ci.root)
    requires FreeApart(free0, l.leaves, ci.root, sb.rootDirBlock, sb.nrBlocks)
    modifies sb`nrFree, sb`shutdown, sb`faults, sb.bfree, sb.pending, buf`extents, ci`blocks
    ensures sb.Valid() && (old(sb.shutdown) ==> sb.shutdown) && sb.Free() <= free0
    ensures |taken| <= last - first && ci.blocks == old(ci.blocks) + RangeTotal(taken)
    ensures ok ==> ZeroProgress(buf.extents, l, first, last, taken, free0, sb.Free(), sb.rootDirBlock, sb.nrBlocks, ci.root)
    ensures old(sb.faults) == [] ==> sb.faults == [] && sb.shutdown == old(sb.shutdown)
    ensures buf.leafBlocks == old(buf.leafBlocks) && RunsApart(taken) && RangeSet(taken) <= free0 && RangeSet(taken) !! sb.busy
    ensures !sb.shutdown ==> sb.Free() == free0 - RangeSet(taken)
    ensures !sb.shutdown ==> (ok <==> Holes(l.extents, first, last) <= |free0 - sb.busy|)
    ensures ok ==> RangeTotal(taken) == Holes(l.extents, first, last) && |buf.extents| <= |l.extents| + |taken| + 2
    ensures !ok && !sb.shutdown ==> RangeTotal(taken) == |free0 - sb.busy|
  {
    hide ZeroProgress, BitSet, SetOf, RangeTotal, RangeSet, Canonical, BitsOk, ZeroBooks, RunsApart, Zeroed, NoBlockUsable,
      Holes, FreeApart;
    taken := [];
    NothingTaken();
    NoBooks(l.extents, first, last, sb.busy);
    ok := true;
    var block := first;
    while ok && block < last
      invariant first <= block <= last && sb.Valid() && (old(sb.shutdown) ==> sb.shutdown) && sb.Free() <= free0
      invariant ok || !sb.shutdown ==>
          ZeroProgress(buf.extents, l, first, block, taken, free0, sb.Free(), sb.rootDirBlock, sb.nrBlocks, ci.root)
      invariant ci.blocks == old(ci.blocks) + RangeTotal(taken)
      invariant ZeroBooks(buf.extents, l.extents, first, block, last, taken, sb.busy)
      invariant |taken| <= block - first && RangeSet(taken) <= free0
      invariant old(sb.faults) == [] ==> sb.faults == [] && sb.shutdown == old(sb.shutdown)
      invariant !ok ==> Holes(l.extents, first, block) < Holes(l.extents, first, last)
      invariant !ok && !sb.shutdown ==> NoBlockUsable(sb.Free(), sb.busy)
      decreases ok, last - block
    {
      ok, block, taken := ZeroTurn(sb, ci, buf, block, last, l, first, taken, free0);
    }
    if !sb.shutdown {
      ProgressCanonical(buf.extents, l, first, block, taken, free0, sb.Free(), sb.rootDirBlock, sb.nrBlocks, ci.root);
    }
    BooksFacts(buf.extents, l.extents, first, block, last, taken, sb.busy, free0);
  }

  /** simplefs_zero_range_full_blocks; `taken` is its record of allocations. */
  method ZeroRange(sb: SbInfo, dev: Device, ci: InodeInfo, first: nat, last: nat, ghost l: Loaded)
      returns (r: Result<()>, taken: seq<Range>, ghost t: seq<Extent>, ghost l': Loaded)
    requires FileOk(sb, dev, ci, l) && first < last
    modifies sb`nrFree, sb`shutdown, sb`faults, sb.bfree, sb.pending, dev, ci`blocks
    ensures sb.Valid() && (old(sb.shutdown) ==> sb.shutdown)
    ensures |taken| <= last - first
    ensures r.Ok? ==>
        && FileOk(sb, dev, ci, l') && Zeroed(l'.extents, l.extents, first, last)
        && sb.Free() == old(sb.Free()) + TreeBlocks(l) - TreeBlocks(l')
        && ci.blocks + |l.leaves| == old(ci.blocks) + |l'.leaves| + RangeTotal(taken)
        && RangeSet(taken) <= old(sb.Free()) && DataSet(l'.extents) == DataSet(l.extents) + RangeSet(taken)
    ensures r.Ok? && old(ci.Counts(l)) ==> ci.Counts(l')
    ensures r.Err? && !sb.shutdown ==>
        FileOk(sb, dev, ci, l) && sb.Free() <= old(sb.Free()) && dev.disk == old(dev.disk)
    ensures RunsApart(taken) && RangeSet(taken) <= old(sb.Free())
    ensures old(sb.Healthy()) ==> sb.Healthy()
    // Without a fault: too few blocks for the holes is an error that keeps every block it took.
    ensures old(sb.Healthy()) && Holes(l.extents, first, last) > |old(sb.Free()) - sb.busy| ==>
        && r == Err(ENOSPC) && RangeTotal(taken) == |old(sb.Free()) - sb.busy|
        && sb.Free() == old(sb.Free()) - RangeSet(taken) && ci.blocks == old(ci.blocks) + RangeTotal(taken)
    // Otherwise it takes one block for each hole, and succeeds if and only if its list t can be published.
    ensures old(sb.Healthy()) && Holes(l.extents, first, last) <= |old(sb.Free()) - sb.busy| ==>
        && RangeTotal(taken) == Holes(l.extents, first, last)
        && Canonical(t) && Zeroed(t, l.extents, first, last) && |t| <= |l.extents| + |taken| + 2
        && ErrorOf(r) == SyncError(|MergeList(t)|, |l.leaves|, |old(sb.Free()) - sb.busy| - RangeTotal(taken))
        && (r.Ok? ==> l'.extents == MergeList(t))
        && (r.Err? ==> sb.Free() == old(sb.Free()) && ci.blocks == old(ci.blocks))
    // It needs at most one extent for each hole and one at either end.
    ensures old(sb.Healthy()) && Holes(l.extents, first, last) <= |old(sb.Free()) - sb.busy|
            && SyncError(|l.extents| + Holes(l.extents, first, last) + 2, |l.leaves|, 0).None? ==>
        r.Ok?
  {
    hide Owns, ZeroProgress, Zeroed, BitSet, RunSet, SetOf, DataSet, FlagCut, TreeBlocks, RangeTotal, RangeSet, BitsOk,
      Holes, RunsApart, MergeList, SyncError, Canonical, Load, FreeApart;
    ghost var free0, blocks0, disk0 := sb.Free(), ci.blocks, dev.disk;
    taken, t, l' := [], l.extents, l;
    StartFacts(free0, sb.rootDirBlock, sb.nrBlocks, dev.disk, ci.root, ci.blocks, l);
    var buf := OpenBuffer(dev, ci.root, l);
    ZeroStart(l, first, free0, sb.rootDirBlock, sb.nrBlocks, dev.disk, ci.root, ci.blocks);
    var ok;
    ok, taken := ZeroPass(sb, ci, buf, first, last, l, free0);
    t := buf.extents;
    if !ok {
      OwnsShrinks(free0, sb.Free(), sb.rootDirBlock, sb.nrBlocks, disk0, ci.root, blocks0, ci.blocks, l);
      return Err(ENOSPC), taken, t, l;
    }
    ProgressCanonical(buf.extents, l, first, last, taken, free0, sb.Free(), sb.rootDirBlock, sb.nrBlocks, ci.root);
    r, l' := PublishZeroed(sb, dev, ci, buf, l, first, last, taken, free0, blocks0);
    ZeroFits(t, l, taken, |free0 - sb.busy| - RangeTotal(taken));
  }

  lemma {:induction false} FewRuns(taken: seq<Range>)
    requires RunsApart(taken)
    ensures |taken| <= RangeTotal(taken)
  {
    hide RangeSet, RunSet;
    if taken != [] {
      ApartPrefix(taken, |taken| - 1);
      FewRuns(taken[..|taken| - 1]);
    }
  }

  lemma ZeroFits(t: seq<Extent>, l: Loaded, taken: seq<Range>, room: nat)
    requires |t| <= |l.extents| + |taken| + 2 && RunsApart(taken)
    ensures SyncError(|l.extents| + RangeTotal(taken) + 2, |l.leaves|, 0).None? ==>
      SyncError(|MergeList(t)|, |l.leaves|, room).None?
  {
    hide MergeList, SyncError, RangeTotal, RunsApart;
    FewRuns(taken);
    MergeListShrinks(t);
    var n := |l.extents| + RangeTotal(taken) + 2;
    if SyncError(n, |l.leaves|, 0).None? {
      FewerFit(|MergeList(t)|, n, |l.leaves|, 0);
    }
  }

  lemma TakenIsRestorable(s: seq<Extent>, l: Loaded, lo: nat, hi: nat, taken: seq<Range>, free0: set<nat>, free: set<nat>,
                          rootDirBlock: nat, nrBlocks: nat, disk: Disk, root: nat, blocks: nat, busy: set<nat>)
    requires Owns(free0, rootDirBlock, nrBlocks, disk, root, blocks, l) && RunsApart(taken) && RangeSet(taken) !! busy
    requires ZeroProgress(s, l, lo, hi, taken, free0, free, rootDirBlock, nrBlocks, root)
    ensures Restorable(taken, free, free0, rootDirBlock, nrBlocks) && RangeSet(taken) <= free0 && free <= free0
    ensures RangeTotal(taken) <= |free0 - busy| && |free - busy| == |free0 - busy| - RangeTotal(taken)
  {
    hide Owns, ZeroProgress, RangeSet, RunsApart, RangeTotal;
    ProgressCanonical(s, l, lo, hi, taken, free0, free, rootDirBlock, nrBlocks, root);
    OwnsFacts(free0, rootDirBlock, nrBlocks, disk, root, blocks, l);
    AllTaken(free0, busy, taken);
  }

  /** The sync of a zeroed list, and the way back when it fails. */
  method PublishZeroed(sb: SbInfo, dev: Device, ci: InodeInfo, buf: ExtentBuffer, ghost l: Loaded, ghost first: nat,
                       ghost last: nat, taken: seq<Range>, ghost free0: set<nat>, ghost blocks0: nat)
      returns (r: Result<()>, ghost l': Loaded)
    requires sb.Valid() && Owns(free0, sb.rootDirBlock, sb.nrBlocks, dev.disk, ci.root, blocks0, l)
    requires buf.leafBlocks == l.leaves && ci.blocks == blocks0 + RangeTotal(taken) && RunsApart(taken)
    requires ZeroProgress(buf.extents, l, first, last, taken, free0, sb.Free(), sb.rootDirBlock, sb.nrBlocks, ci.root)
    requires RangeSet(taken) !! sb.busy
    modifies sb`nrFree, sb`shutdown, sb`faults, sb.bfree, sb.pending, dev, ci`blocks, buf
    ensures sb.Valid() && (old(sb.shutdown) ==> sb.shutdown)
    ensures r.Ok? ==>
        && FileOk(sb, dev, ci, l') && Zeroed(l'.extents, l.extents, first, last)
        && sb.Free() == free0 + TreeBlocks(l) - TreeBlocks(l')
        && ci.blocks + |l.leaves| == old(ci.blocks) + |l'.leaves|
        && DataSet(l'.extents) == DataSet(l.extents) + RangeSet(taken)
        && Total(l'.extents) == Total(l.extents) + RangeTotal(taken)
    ensures r.Err? ==> ci.blocks == blocks0
    ensures r.Err? && !sb.shutdown ==> FileOk(sb, dev, ci, l) && dev.disk == old(dev.disk) && sb.Free() <= free0
    ensures l'.extents == MergeList(old(buf.extents)) && RangeTotal(taken) <= |free0 - sb.busy|
    ensures old(sb.Healthy()) ==>
        && sb.Healthy() && ErrorOf(r) == SyncError(|l'.extents|, |l.leaves|, |free0 - sb.busy| - RangeTotal(taken))
        && (r.Err? ==> sb.Free() == free0)
  {
    hide Owns, ZeroProgress, Zeroed, BitSet, RunSet, SetOf, DataSet, TreeBlocks, RangeTotal, RangeSet, BitsOk, RunsApart,
      MergeList, SyncError, Canonical, Restorable;
    ghost var disk0 := dev.disk;
    TakenIsRestorable(buf.extents, l, first, last, taken, free0, sb.Free(), sb.rootDirBlock, sb.nrBlocks, dev.disk, ci.root,
                      blocks0, sb.busy);
    r, l' := FinishZero(sb, dev, ci, buf, l, first, last, taken, free0, blocks0);
    if r.Err? {
      GiveBack(sb, ci, taken, free0);
      if !sb.shutdown {
        OwnsShrinks(free0, sb.Free(), sb.rootDirBlock, sb.nrBlocks, disk0, ci.root, blocks0, ci.blocks, l);
      }
    }
  }

  lemma NothingTaken()
    ensures RangeTotal([]) == 0 && RangeSet([]) == {}
  {
  }

  lemma OwnsFacts(free: set<nat>, rootDirBlock: nat, nrBlocks: nat, disk: Disk, root: nat, blocks: nat, l: Loaded)
    requires Owns(free, rootDirBlock, nrBlocks, disk, root, blocks, l)
    ensures Load(disk, root) == Ok(l) && Canonical(l.extents) && root !in free && root !in l.leaves && 0 < root < nrBlocks
    ensures (forall b :: b in free ==> rootDirBlock < b < nrBlocks) && forall b: nat :: b < nrBlocks ==> b in disk
    ensures LeavesOwned(free, rootDirBlock, nrBlocks, l.leaves) && SetOf(l.leaves) !! free
    ensures TreeBlocks(l) !! free && DataSet(l.extents) !! SetOf(l.leaves)
    ensures |l.leaves| + Total(l.extents) <= blocks
  {
  }

  lemma StartFacts(free: set<nat>, rootDirBlock: nat, nrBlocks: nat, disk: Disk, root: nat, blocks: nat, l: Loaded)
    requires Owns(free, rootDirBlock, nrBlocks, disk, root, blocks, l)
    ensures Load(disk, root) == Ok(l) && FreeApart(free, l.leaves, root, rootDirBlock, nrBlocks)
  {
  }

  lemma ProgressCanonical(s: seq<Extent>, l: Loaded, lo: nat, block: nat, taken: seq<Range>,
                          free0: set<nat>, free: set<nat>, rootDirBlock: nat, nrBlocks: nat, root: nat)
    requires ZeroProgress(s, l, lo, block, taken, free0, free, rootDirBlock, nrBlocks, root)
    ensures Canonical(s) && |taken| <= block - lo && free <= free0 && RangeSet(taken) <= free0
    ensures Zeroed(s, l.extents, lo, block) && free == free0 - RangeSet(taken) && free !! RangeSet(taken)
  {
  }

  /** Publish the zeroed list. */
  method FinishZero(sb: SbInfo, dev: Device, ci: InodeInfo, buf: ExtentBuffer, ghost l: Loaded, ghost first: nat,
                    ghost last: nat, ghost taken: seq<Range>, ghost free0: set<nat>, ghost blocks0: nat)
      returns (r: Result<()>, ghost l': Loaded)
    requires sb.Valid() && Owns(free0, sb.rootDirBlock, sb.nrBlocks, dev.disk, ci.root, blocks0, l)
    requires buf.leafBlocks == l.leaves && ci.blocks == blocks0 + RangeTotal(taken)
    requires ZeroProgress(buf.extents, l, first, last, taken, free0, sb.Free(), sb.rootDirBlock, sb.nrBlocks, ci.root)
    modifies sb`nrFree, sb`shutdown, sb`faults, sb.bfree, sb.pending, dev, ci`blocks, buf
    ensures sb.Valid() && (old(sb.shutdown) ==> sb.shutdown)
    ensures r.Ok? ==>
        && FileOk(sb, dev, ci, l') && Zeroed(l'.extents, l.extents, first, last)
        && sb.Free() == free0 + TreeBlocks(l) - TreeBlocks(l')
        && ci.blocks + |l.leaves| == old(ci.blocks) + |l'.leaves|
        && DataSet(l'.extents) == DataSet(l.extents) + RangeSet(taken)
        && Total(l'.extents) == Total(l.extents) + RangeTotal(taken)
    ensures r.Err? ==> ci.blocks == old(ci.blocks)
    ensures r.Err? && !sb.shutdown ==> dev.disk == old(dev.disk) && sb.Free() <= old(sb.Free())
    ensures l'.extents == MergeList(old(buf.extents))
    ensures old(sb.Healthy()) ==>
        && sb.Healthy() && ErrorOf(r) == SyncError(|l'.extents|, |l.leaves|, |old(sb.Free()) - sb.busy|)
        && (r.Err? ==> sb.Free() == old(sb.Free()))
  {
    hide Zeroed, BitSet, RunSet, SetOf, DataSet, Uses, Lookup, RangeSet, RangeTotal, Load, Distinct, SameMeaning,
      SameOutside, BitsOk, MergeList, SyncError, Tidy, Settled;
    OwnsFacts(free0, sb.rootDirBlock, sb.nrBlocks, dev.disk, ci.root, blocks0, l);
    ghost var t := buf.extents;
    FewerFree(free0, sb.Free(), sb.rootDirBlock, sb.nrBlocks, l.leaves);
    r := Publish(sb, dev, ci, buf);
    l' := Loaded(buf.extents, buf.leafBlocks);
    if r.Ok? {
      SameMeaningUses(t, buf.extents);
      ZeroedSame(t, buf.extents, l.extents, first, last);
      ExtendedBalance(free0, sb.Free(), l, l', RangeSet(taken));
    }
  }

  lemma FewerFree(free0: set<nat>, free: set<nat>, rootDirBlock: nat, nrBlocks: nat, leaves: seq<nat>)
    requires LeavesOwned(free0, rootDirBlock, nrBlocks, leaves) && free <= free0
    ensures LeavesOwned(free, rootDirBlock, nrBlocks, leaves)
  {
  }

  lemma ZeroedSame(s: seq<Extent>, t: seq<Extent>, orig: seq<Extent>, lo: nat, hi: nat)
    requires Zeroed(s, orig, lo, hi) && SameMeaning(s, t)
    ensures Zeroed(t, orig, lo, hi)
  {
    forall b: nat ensures Lookup(s, b) == Lookup(t, b) {
    }
  }
}
