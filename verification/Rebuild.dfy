/**
 * simplefs_rebuild_block_bitmap (simplefs_super.c): recompute the free bitmap from the
 * inode table and every extent tree, refusing any block with two owners.
 */
module Rebuild {
  import opened Wrappers
  import opened Extents
  import opened Bitmaps
  import opened ExtentTree
  import opened FileOps

  datatype Kind = Regular | Directory | Symlink | Special

  datatype DiskInode = DiskInode(kind: Kind, eiBlock: nat, xattrBlock: nat)

  /** Fixed metadata [0, metaEnd) and, when there is one, the journal tail. */
  datatype Geometry = Geometry(nrBlocks: nat, metaEnd: nat, journalPresent: bool, journalStart: nat) {
    ghost function Reserved(): set<nat> {
      set b: nat | b < nrBlocks && IsReserved(b)
    }

    predicate IsReserved(b: nat) {
      b < metaEnd || (journalPresent && journalStart <= b)
    }
  }

  // ---------- what an inode claims, in the order it is marked ----------

  function BlocksOf(e: Extent): seq<nat> {
    if e.Empty() then [] else seq(e.Len(), i requires 0 <= i < e.Len() => e.start + i)
  }

  function DataList(s: seq<Extent>): seq<nat> {
    if s == [] then [] else DataList(s[..|s| - 1]) + BlocksOf(s[|s| - 1])
  }

  predicate HasTree(di: DiskInode) {
    (di.kind.Regular? || di.kind.Directory?) && di.eiBlock != 0
  }

  predicate Loadable(disk: Disk, di: DiskInode) {
    HasTree(di) ==> Load(disk, di.eiBlock).Ok?
  }

  function TreeList(disk: Disk, root: nat): seq<nat> {
    [root] + if Load(disk, root).Ok? then Load(disk, root).value.leaves + DataList(Load(disk, root).value.extents) else []
  }

  function BodyList(disk: Disk, di: DiskInode): seq<nat> {
    if HasTree(di) then TreeList(disk, di.eiBlock)
    else if di.kind.Symlink? && di.eiBlock != 0 then [di.eiBlock]
    else []
  }

  function XattrList(di: DiskInode): seq<nat> {
    if di.xattrBlock != 0 then [di.xattrBlock] else []
  }

  function ClaimList(disk: Disk, di: DiskInode): seq<nat> {
    BodyList(disk, di) + XattrList(di)
  }

  /** All claims of the allocated inodes 1 .. n. */
  function AllClaims(disk: Disk, inodes: seq<DiskInode>, ifree: seq<bool>, n: nat): seq<nat>
    requires n < |inodes| == |ifree|
  {
    if n == 0 then []
    else AllClaims(disk, inodes, ifree, n - 1) + if ifree[n] then [] else ClaimList(disk, inodes[n])
  }

  /** The list can be marked on top of `used`: in range, not used yet, no block twice. */
  ghost predicate Fits(used: set<nat>, n: nat, bs: seq<nat>) {
    Distinct(bs) && forall i :: 0 <= i < |bs| ==> 0 < bs[i] < n && bs[i] !in used
  }

  lemma FitsConcat(used: set<nat>, n: nat, a: seq<nat>, c: seq<nat>)
    ensures Fits(used, n, a + c) <==> Fits(used, n, a) && Fits(used + SetOf(a), n, c)
    ensures SetOf(a + c) == SetOf(a) + SetOf(c)
  {
    var ac := a + c;
    if Fits(used, n, ac) {
      forall i | 0 <= i < |a| ensures 0 < a[i] < n && a[i] !in used && forall j :: i < j < |a| ==> a[i] != a[j] {
        assert ac[i] == a[i] && forall j :: i < j < |a| ==> ac[j] == a[j];
      }
      forall i | 0 <= i < |c| ensures 0 < c[i] < n && c[i] !in used + SetOf(a) && forall j :: i < j < |c| ==> c[i] != c[j] {
        assert ac[|a| + i] == c[i] && forall j :: i < j < |c| ==> ac[|a| + j] == c[j];
        assert forall j :: 0 <= j < |a| ==> ac[j] == a[j];
      }
    }
    if Fits(used, n, a) && Fits(used + SetOf(a), n, c) {
      forall i, j | 0 <= i < j < |ac| ensures ac[i] != ac[j] {
        if i < |a| <= j {
          assert ac[i] in SetOf(a) && ac[j] == c[j - |a|];
        }
      }
    }
  }

  lemma FitsOne(used: set<nat>, n: nat, b: nat)
    ensures Fits(used, n, [b]) <==> 0 < b < n && b !in used
    ensures SetOf([b]) == {b}
  {
    assert [b][0] == b;
  }

  lemma FitsNone(used: set<nat>, n: nat)
    ensures Fits(used, n, []) && SetOf([]) == {}
  {
  }

  // ---------- marking ----------

  /** simplefs_rebuild_mark_block */
  method MarkBlock(used: array<bool>, b: nat) returns (ok: bool)
    modifies used
    ensures ok <==> Fits(old(BitSet(used[..])), used.Length, [b])
    ensures ok ==> BitSet(used[..]) == old(BitSet(used[..])) + SetOf([b])
  {
    FitsOne(BitSet(used[..]), used.Length, b);
    if b == 0 || b >= used.Length || used[b] {
      return false;
    }
    ghost var s := used[..];
    used[b] := true;
    assert BitSet(used[..]) == BitSet(s) + {b} by {
      assert used[..] == s[b := true];
    }
    return true;
  }

  /** simplefs_rebuild_mark_range on a non-empty extent. */
  method MarkExtent(used: array<bool>, e: Extent) returns (ok: bool)
    requires !e.Empty()
    modifies used
    ensures ok <==> Fits(old(BitSet(used[..])), used.Length, BlocksOf(e))
    ensures ok ==> BitSet(used[..]) == old(BitSet(used[..])) + SetOf(BlocksOf(e))
  {
    hide Fits, BitSet, SetOf;
    ghost var u0 := BitSet(used[..]);
    ghost var bs := BlocksOf(e);
    if e.start >= used.Length || e.Len() > used.Length - e.start {
      RangeTooLong(u0, used.Length, e);
      return false;
    }
    var i := 0;
    FitsNone(u0, used.Length);
    assert bs[..0] == [];
    while i < e.Len()
      invariant 0 <= i <= e.Len()
      invariant Fits(u0, used.Length, bs[..i]) && BitSet(used[..]) == u0 + SetOf(bs[..i])
    {
      assert bs[..i + 1] == bs[..i] + [bs[i]] && bs == bs[..i + 1] + bs[i + 1..];
      FitsConcat(u0, used.Length, bs[..i], [bs[i]]);
      FitsConcat(u0, used.Length, bs[..i + 1], bs[i + 1..]);
      var marked := MarkBlock(used, e.start + i);
      if !marked {
        return false;
      }
      i := i + 1;
    }
    assert bs[..i] == bs;
    return true;
  }

  lemma RangeTooLong(used: set<nat>, n: nat, e: Extent)
    requires !e.Empty() && (e.start >= n || e.Len() > n - e.start)
    ensures !Fits(used, n, BlocksOf(e))
  {
    var bs := BlocksOf(e);
    assert bs[e.Len() - 1] == e.start + (e.Len() - 1) >= n;
  }

  /** The extent loop of simplefs_rebuild_scan_file. */
  method MarkExtents(used: array<bool>, s: seq<Extent>) returns (ok: bool)
    modifies used
    ensures ok <==> Fits(old(BitSet(used[..])), used.Length, DataList(s))
    ensures ok ==> BitSet(used[..]) == old(BitSet(used[..])) + SetOf(DataList(s))
  {
    hide Fits, BitSet, SetOf, BlocksOf;
    ghost var u0 := BitSet(used[..]);
    var i := 0;
    FitsNone(u0, used.Length);
    while i < |s|
      invariant 0 <= i <= |s|
      invariant Fits(u0, used.Length, DataList(s[..i])) && BitSet(used[..]) == u0 + SetOf(DataList(s[..i]))
    {
      assert s[..i + 1][..i] == s[..i];
      assert DataList(s[..i + 1]) == DataList(s[..i]) + BlocksOf(s[i]);
      FitsConcat(u0, used.Length, DataList(s[..i]), BlocksOf(s[i]));
      if !s[i].Empty() {
        var marked := MarkExtent(used, s[i]);
        if !marked {
          FitsPrefix(u0, used.Length, s, i + 1);
          return false;
        }
      } else {
        NoBlocksOf(s[i]);
        FitsNone(u0 + SetOf(DataList(s[..i])), used.Length);
      }
      i := i + 1;
    }
    assert s[..i] == s;
    return true;
  }

  lemma NoBlocksOf(e: Extent)
    requires e.Empty()
    ensures BlocksOf(e) == []
  {
  }

  lemma {:induction false} FitsPrefix(used: set<nat>, n: nat, s: seq<Extent>, i: nat)
    requires i <= |s| && !Fits(used, n, DataList(s[..i]))
    ensures !Fits(used, n, DataList(s))
    decreases |s| - i
  {
    hide Fits, SetOf, BlocksOf;
    if i == |s| {
      assert s[..i] == s;
    } else {
      assert s[..i + 1][..i] == s[..i];
      assert DataList(s[..i + 1]) == DataList(s[..i]) + BlocksOf(s[i]);
      FitsConcat(used, n, DataList(s[..i]), BlocksOf(s[i]));
      FitsPrefix(used, n, s, i + 1);
    }
  }

  /** The leaf loop of simplefs_rebuild_scan_file. */
  method MarkLeaves(used: array<bool>, leaves: seq<nat>) returns (ok: bool)
    modifies used
    ensures ok <==> Fits(old(BitSet(used[..])), used.Length, leaves)
    ensures ok ==> BitSet(used[..]) == old(BitSet(used[..])) + SetOf(leaves)
  {
    hide Fits, BitSet, SetOf;
    ghost var u0 := BitSet(used[..]);
    var i := 0;
    FitsNone(u0, used.Length);
    assert leaves[..0] == [];
    while i < |leaves|
      invariant 0 <= i <= |leaves|
      invariant Fits(u0, used.Length, leaves[..i]) && BitSet(used[..]) == u0 + SetOf(leaves[..i])
    {
      assert leaves[..i + 1] == leaves[..i] + [leaves[i]] && leaves == leaves[..i + 1] + leaves[i + 1..];
      FitsConcat(u0, used.Length, leaves[..i], [leaves[i]]);
      FitsConcat(u0, used.Length, leaves[..i + 1], leaves[i + 1..]);
      var marked := MarkBlock(used, leaves[i]);
      if !marked {
        return false;
      }
      i := i + 1;
    }
    assert leaves[..i] == leaves;
    return true;
  }

  /** simplefs_rebuild_scan_file (and _scan_dir, which is the same). */
  method ScanTree(used: array<bool>, disk: Disk, root: nat) returns (ok: bool)
    modifies used
    ensures ok <==> Load(disk, root).Ok? && Fits(old(BitSet(used[..])), used.Length, TreeList(disk, root))
    ensures ok ==> BitSet(used[..]) == old(BitSet(used[..])) + SetOf(TreeList(disk, root))
  {
    hide Fits, BitSet, SetOf, Load, DataList;
    ghost var u0, n := BitSet(used[..]), used.Length;
    ok := MarkBlock(used, root);
    if Load(disk, root).Ok? {
      FitsConcat(u0, n, [root], Load(disk, root).value.leaves + DataList(Load(disk, root).value.extents));
      FitsConcat(u0 + SetOf([root]), n, Load(disk, root).value.leaves, DataList(Load(disk, root).value.extents));
    }
    if !ok {
      return;
    }
    var loaded := LoadExtents(disk, root);
    if loaded.Err? {
      return false;
    }
    ok := MarkLeaves(used, loaded.value.leaves);
    if !ok {
      return;
    }
    ok := MarkExtents(used, loaded.value.extents);
  }

  /** One turn of the inode loop. */
  method ScanInode(used: array<bool>, disk: Disk, di: DiskInode) returns (ok: bool)
    modifies used
    ensures ok <==> Loadable(disk, di) && Fits(old(BitSet(used[..])), used.Length, ClaimList(disk, di))
    ensures ok ==> BitSet(used[..]) == old(BitSet(used[..])) + SetOf(ClaimList(disk, di))
  {
    hide Fits, BitSet, SetOf, Load, TreeList;
    ghost var u0, n := BitSet(used[..]), used.Length;
    FitsConcat(u0, n, BodyList(disk, di), XattrList(di));
    FitsNone(u0, n);
    FitsNone(u0 + SetOf(BodyList(disk, di)), n);
    assert u0 + SetOf([]) == u0;
    ok := true;
    if HasTree(di) {
      ok := ScanTree(used, disk, di.eiBlock);
    } else if di.kind.Symlink? && di.eiBlock != 0 {
      ok := MarkBlock(used, di.eiBlock);
    }
    if ok && di.xattrBlock != 0 {
      ok := MarkBlock(used, di.xattrBlock);
    }
  }

  ghost predicate AllLoadable(disk: Disk, inodes: seq<DiskInode>, ifree: seq<bool>, n: nat)
    requires n < |inodes| == |ifree|
  {
    forall i :: 1 <= i <= n && !ifree[i] ==> Loadable(disk, inodes[i])
  }

  lemma {:induction false} ClaimsPrefix(used: set<nat>, n: nat, disk: Disk, inodes: seq<DiskInode>, ifree: seq<bool>, i: nat, m: nat)
    requires i <= m < |inodes| == |ifree|
    ensures Fits(used, n, AllClaims(disk, inodes, ifree, m)) ==> Fits(used, n, AllClaims(disk, inodes, ifree, i))
    decreases m - i
  {
    hide Fits, ClaimList, SetOf;
    if i < m {
      ClaimsPrefix(used, n, disk, inodes, ifree, i, m - 1);
      FitsConcat(used, n, AllClaims(disk, inodes, ifree, m - 1), if ifree[m] then [] else ClaimList(disk, inodes[m]));
    }
  }

  /** The table is consistent: every tree loads, and no block has two owners or a bad number. */
  ghost predicate Consistent(g: Geometry, disk: Disk, inodes: seq<DiskInode>, ifree: seq<bool>)
    requires 0 < |inodes| == |ifree|
  {
    && AllLoadable(disk, inodes, ifree, |inodes| - 1)
    && Fits(g.Reserved(), g.nrBlocks, AllClaims(disk, inodes, ifree, |inodes| - 1))
  }

  /** Marks the reserved regions in an empty bitmap. */
  method MarkReserved(g: Geometry) returns (used: array<bool>)
    ensures fresh(used) && used.Length == g.nrBlocks && BitSet(used[..]) == g.Reserved()
  {
    used := new bool[g.nrBlocks](_ => false);
    var b := 0;
    while b < g.nrBlocks
      invariant 0 <= b <= g.nrBlocks && used.Length == g.nrBlocks && fresh(used)
      invariant forall k :: 0 <= k < b ==> used[k] == g.IsReserved(k)
    {
      used[b] := b < g.metaEnd || (g.journalPresent && g.journalStart <= b);
      b := b + 1;
    }
    assert BitSet(used[..]) == g.Reserved();
  }

  /**
   * simplefs_rebuild_block_bitmap.  It succeeds exactly on consistent tables, and then the
   * free blocks are those that are neither reserved nor claimed.
   */
  method RebuildBlockBitmap(g: Geometry, disk: Disk, inodes: seq<DiskInode>, ifree: seq<bool>)
      returns (ok: bool, free: seq<bool>, nrFree: nat)
    requires 0 < |inodes| == |ifree|
    ensures ok <==> Consistent(g, disk, inodes, ifree)
    ensures ok ==> |free| == g.nrBlocks && nrFree == |BitSet(free)|
    ensures ok ==> forall b: nat :: b in BitSet(free) <==>
        b < g.nrBlocks && b !in g.Reserved() && b !in AllClaims(disk, inodes, ifree, |inodes| - 1)
  {
    hide Fits, SetOf, ClaimList;
    free, nrFree := [], 0;
    var used := MarkReserved(g);
    ghost var u0 := g.Reserved();
    FitsNone(u0, g.nrBlocks);
    var ino := 1;
    while ino < |inodes|
      invariant 1 <= ino <= |inodes| && used.Length == g.nrBlocks && fresh(used)
      invariant AllLoadable(disk, inodes, ifree, ino - 1)
      invariant Fits(u0, g.nrBlocks, AllClaims(disk, inodes, ifree, ino - 1))
      invariant BitSet(used[..]) == u0 + SetOf(AllClaims(disk, inodes, ifree, ino - 1))
    {
      ghost var before := AllClaims(disk, inodes, ifree, ino - 1);
      FitsConcat(u0, g.nrBlocks, before, if ifree[ino] then [] else ClaimList(disk, inodes[ino]));
      FitsNone(u0 + SetOf(before), g.nrBlocks);
      if !ifree[ino] {
        var marked := ScanInode(used, disk, inodes[ino]);
        if !marked {
          ClaimsPrefix(u0, g.nrBlocks, disk, inodes, ifree, ino, |inodes| - 1);
          return false, free, nrFree;
        }
      }
      ino := ino + 1;
    }
    var taken := used[..];
    free := seq(g.nrBlocks, i requires 0 <= i < g.nrBlocks => !taken[i]);
    nrFree := BitmapWeight(free);
    ComplementBits(taken, free);
    MembersOf(AllClaims(disk, inodes, ifree, |inodes| - 1));
    return true, free, nrFree;
  }

  lemma ComplementBits(s: seq<bool>, t: seq<bool>)
    requires |s| == |t| && forall i :: 0 <= i < |s| ==> t[i] == !s[i]
    ensures forall b: nat :: b in BitSet(t) <==> b < |s| && b !in BitSet(s)
  {
  }

  lemma MembersOf(bs: seq<nat>)
    ensures forall b :: b in SetOf(bs) <==> b in bs
  {
  }
}
