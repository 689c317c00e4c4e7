/**
 * The in-memory extent buffer and its normalisation (simplefs_extent.c).
 */
module ExtentBuffers {
  import opened Wrappers
  import opened Extents

  /** The test that lets simplefs_file_normalize_extents fuse two neighbours. */
  predicate Mergeable(cur: Extent, next: Extent) {
    && cur.unwritten == next.unwritten
    && cur.End() == next.block
    && cur.start + cur.Len() == next.start
    && cur.Len() + next.Len() <= MAX_EXTENT_BLOCKS
  }

  function Merged(cur: Extent, next: Extent): Extent {
    cur.(rawLen := cur.Len() + next.Len())
  }

  /** The merge pass as a function of the sorted list. */
  ghost function MergeList(s: seq<Extent>): seq<Extent>
    decreases |s|
  {
    if s == [] then []
    else if s[0].Empty() then MergeList(s[1..])
    else if |s| > 1 && Mergeable(s[0], s[1]) then MergeList([Merged(s[0], s[1])] + s[2..])
    else [s[0]] + MergeList(s[1..])
  }

  ghost predicate SortedByBlock(s: seq<Extent>) {
    forall i, j :: 0 <= i < j < |s| ==> s[i].block <= s[j].block
  }

  ghost predicate FullyMerged(s: seq<Extent>) {
    forall i :: 0 < i < |s| ==> !Mergeable(s[i - 1], s[i])
  }

  /** Same logical map, and every physical block used equally often. */
  ghost predicate SameMeaning(s: seq<Extent>, t: seq<Extent>) {
    && (forall b: nat :: Lookup(s, b) == Lookup(t, b))
    && (forall x: nat :: Uses(s, x) == Uses(t, x))
    && Total(s) == Total(t)
  }

  ghost function Swapped(s: seq<Extent>, i: nat, j: nat): seq<Extent>
    requires i < j < |s|
  {
    s[i := s[j]][j := s[i]]
  }

  lemma SwapKeepsDisjoint(s: seq<Extent>, i: nat, j: nat)
    requires i < j < |s| && Disjoint(s)
    ensures Disjoint(Swapped(s, i, j))
  {
    var t := Swapped(s, i, j);
    var at := k => if k == i then j else if k == j then i else k;
    forall p, q | 0 <= p < q < |t| && !t[p].Empty() && !t[q].Empty()
      ensures t[p].End() <= t[q].block || t[q].End() <= t[p].block
    {
      assert t[p] == s[at(p)] && t[q] == s[at(q)];
    }
  }

  lemma SwapKeepsUses(s: seq<Extent>, i: nat, j: nat, x: nat)
    requires i < j < |s|
    ensures Uses(s, x) == Uses(Swapped(s, i, j), x) && Total(s) == Total(Swapped(s, i, j))
  {
    UsesUpdate(s, i, s[j], x);
    UsesUpdate(s[i := s[j]], j, s[i], x);
  }

  lemma SwapKeepsMeaning(s: seq<Extent>, i: nat, j: nat)
    requires i < j < |s| && Disjoint(s)
    ensures SameMeaning(s, Swapped(s, i, j))
  {
    var t := Swapped(s, i, j);
    SwapKeepsDisjoint(s, i, j);
    SwapKeepsUses(s, i, j, 0);
    forall x: nat ensures Uses(s, x) == Uses(t, x) {
      SwapKeepsUses(s, i, j, x);
    }
    assert s[i] == t[j] && s[j] == t[i];
    assert forall k :: 0 <= k < |s| && k != i && k != j ==> s[k] == t[k];
    forall b: nat ensures Lookup(s, b) == Lookup(t, b) {
      SameRecordsSameMeaning(s, t, b);
    }
  }

  lemma SameMeaningTrans(s: seq<Extent>, t: seq<Extent>, u: seq<Extent>)
    requires SameMeaning(s, t) && SameMeaning(t, u)
    ensures SameMeaning(s, u)
  {
  }

  lemma {:induction false} UsesUpdate(s: seq<Extent>, i: nat, e: Extent, x: nat)
    requires i < |s|
    ensures Uses(s[i := e], x) + s[i].Uses(x) == Uses(s, x) + e.Uses(x)
    ensures Total(s[i := e]) + s[i].Size() == Total(s) + e.Size()
  {
    if i > 0 {
      UsesUpdate(s[1..], i - 1, e, x);
      assert s[i := e][1..] == s[1..][i - 1 := e];
    } else {
      assert s[i := e][1..] == s[1..];
    }
  }

  /** Replacing a middle part by one that means the same keeps the meaning of the whole. */
  lemma ReplaceKeepsMeaning(a: seq<Extent>, b: seq<Extent>, c: seq<Extent>, d: seq<Extent>)
    requires SameMeaning(b, c)
    ensures SameMeaning(a + b + d, a + c + d)
  {
    TotalConcat(a + b, d);
    TotalConcat(a + c, d);
    TotalConcat(a, b);
    TotalConcat(a, c);
    forall x: nat ensures Uses(a + b + d, x) == Uses(a + c + d, x) {
      UsesConcat(a + b, d, x);
      UsesConcat(a + c, d, x);
      UsesConcat(a, b, x);
      UsesConcat(a, c, x);
    }
    forall x: nat ensures Lookup(a + b + d, x) == Lookup(a + c + d, x) {
      LookupConcat(a + b, d, x);
      LookupConcat(a + c, d, x);
      LookupConcat(a, b, x);
      LookupConcat(a, c, x);
    }
  }

  lemma MergeKeepsMeaning(cur: Extent, next: Extent)
    requires !cur.Empty() && Mergeable(cur, next)
    ensures SameMeaning([cur, next], [Merged(cur, next)])
  {
    assert [cur, next] == [cur] + [next];
    TotalConcat([cur], [next]);
    TotalOne(Merged(cur, next));
    forall x: nat ensures Uses([cur, next], x) == Uses([Merged(cur, next)], x) {
      UsesConcat([cur], [next], x);
      UsesOne(Merged(cur, next), x);
    }
    forall b: nat ensures Lookup([cur, next], b) == Lookup([Merged(cur, next)], b) {
      LookupConcat([cur], [next], b);
      LookupOne(cur, b);
      LookupOne(next, b);
      LookupOne(Merged(cur, next), b);
    }
  }

  lemma DropEmptyKeepsMeaning(e: Extent)
    requires e.Empty()
    ensures SameMeaning([e], [])
  {
    assert [e][1..] == [];
    forall b: nat ensures Lookup([e], b) == Lookup([], b) {
      LookupOne(e, b);
    }
  }

  // ---------- steps of the sort ----------

  /** Positions before i hold the least remaining keys; i holds the least key of [i, j). */
  ghost predicate LeastUpTo(s: seq<Extent>, i: nat, j: nat) {
    && (forall p, q :: 0 <= p < i && p < q < |s| ==> s[p].block <= s[q].block)
    && (forall q :: i < q < j && q < |s| ==> s[i].block <= s[q].block)
  }

  lemma SameMeaningRefl(s: seq<Extent>)
    ensures SameMeaning(s, s)
  {
  }

  lemma LeastUpToZero(s: seq<Extent>)
    ensures LeastUpTo(s, 0, 1)
  {
  }

  lemma LeastUpToNext(s: seq<Extent>, i: nat, j: nat)
    requires i < j < |s| && LeastUpTo(s, i, j) && s[i].block <= s[j].block
    ensures LeastUpTo(s, i, j + 1)
  {
  }

  lemma LeastUpToDone(s: seq<Extent>, i: nat)
    requires i < |s| && LeastUpTo(s, i, |s|)
    ensures LeastUpTo(s, i + 1, i + 2)
  {
  }

  lemma LeastUpToSorted(s: seq<Extent>)
    requires LeastUpTo(s, |s|, |s| + 1)
    ensures SortedByBlock(s)
  {
  }

  lemma SortStep(orig: seq<Extent>, s: seq<Extent>, i: nat, j: nat)
    requires i < j < |s| && Disjoint(s) && SameMeaning(orig, s) && LeastUpTo(s, i, j)
    requires s[i].block > s[j].block
    ensures Disjoint(Swapped(s, i, j)) && SameMeaning(orig, Swapped(s, i, j))
    ensures LeastUpTo(Swapped(s, i, j), i, j + 1)
    ensures NoEmpties(s) ==> NoEmpties(Swapped(s, i, j))
  {
    SwapKeepsDisjoint(s, i, j);
    SwapKeepsMeaning(s, i, j);
    SameMeaningTrans(orig, s, Swapped(s, i, j));
    SwapKeepsLeast(s, i, j);
  }

  lemma SwapKeepsLeast(s: seq<Extent>, i: nat, j: nat)
    requires i < j < |s| && LeastUpTo(s, i, j) && s[i].block > s[j].block
    ensures LeastUpTo(Swapped(s, i, j), i, j + 1)
  {
    var t := Swapped(s, i, j);
    forall p, q | 0 <= p < i && p < q < |t| ensures t[p].block <= t[q].block {
      assert t[p] == s[p] && t[q] == s[if q == i then j else if q == j then i else q];
    }
  }

  // ---------- steps of the merge pass ----------

  ghost predicate MergedUpTo(s: seq<Extent>, i: nat) {
    forall k :: 0 < k <= i && k < |s| ==> !Mergeable(s[k - 1], s[k])
  }

  lemma MergedUpToZero(s: seq<Extent>)
    ensures MergedUpTo(s, 0) && NoEmpties(s[..0])
  {
  }

  lemma AdvanceStep(s: seq<Extent>, i: nat)
    requires i < |s| && NoEmpties(s[..i]) && !s[i].Empty()
    requires i + 1 == |s| || !Mergeable(s[i], s[i + 1])
    ensures NoEmpties(s[..i + 1])
    ensures MergedUpTo(s, i) ==> MergedUpTo(s, i + 1)
    ensures s[..i + 1] + MergeList(s[i + 1..]) == s[..i] + MergeList(s[i..])
  {
    assert s[..i + 1] == s[..i] + [s[i]];
    assert s[i..][1..] == s[i + 1..];
  }

  lemma DropStep(orig: seq<Extent>, s: seq<Extent>, i: nat)
    requires i < |s| && s[i].Empty() && SortedByBlock(s) && Disjoint(s) && SameMeaning(orig, s)
    ensures var t := s[..i] + s[i + 1..];
      SortedByBlock(t) && Disjoint(t) && SameMeaning(orig, t) && t[..i] == s[..i] && !NoEmpties(s)
      && MergeList(t[i..]) == MergeList(s[i..])
  {
    var t := s[..i] + s[i + 1..];
    assert s == s[..i] + [s[i]] + s[i + 1..] && t == s[..i] + [] + s[i + 1..];
    DropEmptyKeepsMeaning(s[i]);
    ReplaceKeepsMeaning(s[..i], [s[i]], [], s[i + 1..]);
    SameMeaningTrans(orig, s, t);
    DropKeepsOrder(s, i);
    assert t[i..] == s[i..][1..];
  }

  lemma DropKeepsOrder(s: seq<Extent>, i: nat)
    requires i < |s| && SortedByBlock(s) && Disjoint(s)
    ensures SortedByBlock(s[..i] + s[i + 1..]) && Disjoint(s[..i] + s[i + 1..])
  {
    var t := s[..i] + s[i + 1..];
    assert forall k :: 0 <= k < |t| ==> t[k] == s[if k < i then k else k + 1];
  }

  lemma MergeStep(orig: seq<Extent>, s: seq<Extent>, t: seq<Extent>, i: nat)
    requires i + 1 < |s| && !s[i].Empty() && Mergeable(s[i], s[i + 1])
    requires SortedByBlock(s) && Disjoint(s) && SameMeaning(orig, s)
    requires t == s[i := Merged(s[i], s[i + 1])][..i + 1] + s[i := Merged(s[i], s[i + 1])][i + 2..]
    ensures SortedByBlock(t) && Disjoint(t) && SameMeaning(orig, t) && t[..i] == s[..i]
    ensures MergeList(t[i..]) == MergeList(s[i..])
    ensures NoEmpties(s) ==> NoEmpties(t)
    ensures MergedUpTo(s, i) ==> MergedUpTo(t, i)
  {
    var m := Merged(s[i], s[i + 1]);
    assert s == s[..i] + [s[i], s[i + 1]] + s[i + 2..];
    assert t == s[..i] + [m] + s[i + 2..];
    MergeKeepsMeaning(s[i], s[i + 1]);
    ReplaceKeepsMeaning(s[..i], [s[i], s[i + 1]], [m], s[i + 2..]);
    SameMeaningTrans(orig, s, t);
    MergeKeepsOrder(s, t, i);
    assert t[i..] == [m] + s[i..][2..];
  }

  lemma MergeKeepsOrder(s: seq<Extent>, t: seq<Extent>, i: nat)
    requires i + 1 < |s| && !s[i].Empty() && Mergeable(s[i], s[i + 1])
    requires SortedByBlock(s) && Disjoint(s)
    requires t == s[..i] + [Merged(s[i], s[i + 1])] + s[i + 2..]
    ensures SortedByBlock(t) && Disjoint(t)
    ensures NoEmpties(s) ==> NoEmpties(t)
    ensures MergedUpTo(s, i) ==> MergedUpTo(t, i)
  {
    MergeKeepsProgress(s, t, i);
    MergeKeepsSorted(s, t, i);
    MergeKeepsDisjoint(s, t, i);
  }

  lemma MergeKeepsSorted(s: seq<Extent>, t: seq<Extent>, i: nat)
    requires i + 1 < |s| && SortedByBlock(s) && t == s[..i] + [Merged(s[i], s[i + 1])] + s[i + 2..]
    ensures SortedByBlock(t)
  {
    assert forall k :: 0 <= k < |t| ==> t[k].block == s[if k <= i then k else k + 1].block;
  }

  lemma MergeKeepsDisjoint(s: seq<Extent>, t: seq<Extent>, i: nat)
    requires i + 1 < |s| && !s[i].Empty() && Mergeable(s[i], s[i + 1])
    requires SortedByBlock(s) && Disjoint(s) && t == s[..i] + [Merged(s[i], s[i + 1])] + s[i + 2..]
    ensures Disjoint(t)
  {
    var m := Merged(s[i], s[i + 1]);
    assert forall k :: 0 <= k < |t| ==> t[k] == if k < i then s[k] else if k == i then m else s[k + 1];
    forall p, q | 0 <= p < q < |t| && !t[p].Empty() && !t[q].Empty()
      ensures t[p].End() <= t[q].block || t[q].End() <= t[p].block
    {
      if q == i {
        assert s[p].block <= s[i].block;
        assert s[p].End() <= s[i].block;
      } else if p == i {
        assert s[i].block <= s[q + 1].block && s[i + 1].block <= s[q + 1].block;
        assert s[i].End() <= s[q + 1].block;
        assert !s[i + 1].Empty() ==> s[i + 1].End() <= s[q + 1].block;
      }
    }
  }

  lemma MergeKeepsProgress(s: seq<Extent>, t: seq<Extent>, i: nat)
    requires i + 1 < |s| && !s[i].Empty() && Mergeable(s[i], s[i + 1])
    requires t == s[..i] + [Merged(s[i], s[i + 1])] + s[i + 2..]
    ensures NoEmpties(s) ==> NoEmpties(t)
    ensures MergedUpTo(s, i) ==> MergedUpTo(t, i)
  {
    if MergedUpTo(s, i) && i > 0 {
      assert !Mergeable(s[i - 1], s[i]);
    }
  }

  lemma MergeDone(s: seq<Extent>)
    requires SortedByBlock(s) && Disjoint(s) && NoEmpties(s[..|s|])
    ensures Canonical(s) && s[..|s|] + MergeList(s[|s|..]) == s
    ensures MergedUpTo(s, |s|) ==> FullyMerged(s)
  {
    assert s[..|s|] == s;
    forall i, j | 0 <= i < j < |s| ensures s[i].End() <= s[j].block {
      assert !s[i].Empty() && !s[j].Empty();
    }
  }

  /**
   * A cleared record between two fusable neighbours keeps them apart: punching and
   * truncating leave such records, so full merging is promised for lists without them.
   */
  lemma ClearedRecordBlocksMerge()
    ensures var a, b := Extent(0, 4, 10, false), Extent(4, 4, 14, false);
      && SortedByBlock([a, CLEARED, b]) && Disjoint([a, CLEARED, b])
      && MergeList([a, CLEARED, b]) == [a, b] && Mergeable(a, b)
  {
    var a, b := Extent(0, 4, 10, false), Extent(4, 4, 14, false);
    assert [a, CLEARED, b][1..] == [CLEARED, b];
    assert [CLEARED, b][1..] == [b];
    assert MergeList([b]) == [b];
    assert MergeList([CLEARED, b]) == [b];
  }

  // ---------- exactly when the merge pass leaves a mergeable pair ----------

  /** The first chunk of a merged list begins as the list does and is no shorter. */
  lemma {:induction false} MergedHead(s: seq<Extent>)
    requires s != [] && NoEmpties(s)
    ensures var m := MergeList(s);
      && m != [] && m[0].block == s[0].block && m[0].start == s[0].start && m[0].unwritten == s[0].unwritten
      && m[0].Len() >= s[0].Len()
    decreases |s|
  {
    if |s| > 1 && Mergeable(s[0], s[1]) {
      MergedHead([Merged(s[0], s[1])] + s[2..]);
    }
  }

  lemma {:induction false} MergedFully(s: seq<Extent>)
    requires NoEmpties(s)
    ensures FullyMerged(MergeList(s))
    decreases |s|
  {
    if |s| > 1 && Mergeable(s[0], s[1]) {
      MergedFully([Merged(s[0], s[1])] + s[2..]);
    } else if |s| > 1 {
      MergedFully(s[1..]);
      MergedHead(s[1..]);
    }
  }

  lemma PrependFullyMerged(a: Extent, m: seq<Extent>)
    ensures FullyMerged([a] + m) <==> FullyMerged(m) && (m == [] || !Mergeable(a, m[0]))
  {
    var t := [a] + m;
    assert m != [] ==> t[0] == a && t[1] == m[0];
    assert forall i :: 0 < i < |m| ==> t[i] == m[i - 1] && t[i + 1] == m[i];
    if FullyMerged(t) {
      forall i | 0 < i < |m| ensures !Mergeable(m[i - 1], m[i]) {
        assert !Mergeable(t[i + 1 - 1], t[i + 1]);
      }
    }
  }

  function SkipEmpty(s: seq<Extent>): seq<Extent> {
    if s != [] && s[0].Empty() then SkipEmpty(s[1..]) else s
  }

  lemma {:induction false} SkipEmptyMerges(s: seq<Extent>)
    ensures MergeList(SkipEmpty(s)) == MergeList(s)
    ensures SkipEmpty(s) == [] || exists k :: 0 <= k < |s| && SkipEmpty(s) == s[k..]
  {
    if s != [] && s[0].Empty() {
      SkipEmptyMerges(s[1..]);
      if SkipEmpty(s) != [] {
        var k :| 0 <= k < |s[1..]| && SkipEmpty(s[1..]) == s[1..][k..];
        assert s[1..][k..] == s[k + 1..];
      }
    } else if s != [] {
      assert s[0..] == s;
    }
  }

  /** Empty records are cleared ones, as punch and truncate leave them. */
  ghost predicate EmptiesAtZero(s: seq<Extent>) {
    forall i :: 0 <= i < |s| && s[i].Empty() ==> s[i].block == 0
  }

  /** y continues x, logically and physically. */
  predicate Adjoins(x: Extent, y: Extent) {
    x.unwritten == y.unwritten && x.End() == y.block && x.start + x.Len() == y.start
  }

  function LenSum(s: seq<Extent>): nat {
    if s == [] then 0 else LenSum(s[..|s| - 1]) + s[|s| - 1].Len()
  }

  /** The first k records continue each other and together fit one extent. */
  ghost predicate Chain(s: seq<Extent>, k: nat) {
    0 < k <= |s| && (forall i :: 0 < i < k ==> Adjoins(s[i - 1], s[i])) && LenSum(s[..k]) <= MAX_EXTENT_BLOCKS
  }

  ghost predicate LongestChain(s: seq<Extent>, k: nat) {
    Chain(s, k) && !Chain(s, k + 1)
  }

  /**
   * The first extent stands right before an empty record.  The first record behind the empty
   * ones continues it, and together with the longest chain there it would fit one extent.
   */
  ghost predicate MergeBlocked(s: seq<Extent>) {
    s != [] &&
    if s[0].Empty() then MergeBlocked(s[1..])
    else |s| > 1 && s[1].Empty() && KeptApart(s[0], SkipEmpty(s[1..]))
  }

  ghost predicate KeptApart(a: Extent, rest: seq<Extent>) {
    && rest != [] && Adjoins(a, rest[0])
    && exists k: nat :: LongestChain(rest, k) && a.Len() + LenSum(rest[..k]) <= MAX_EXTENT_BLOCKS
  }

  lemma LenSumSnoc(s: seq<Extent>, k: nat)
    requires k < |s|
    ensures LenSum(s[..k + 1]) == LenSum(s[..k]) + s[k].Len()
  {
    assert s[..k + 1][..k] == s[..k];
  }

  lemma {:induction false} ChainShorter(s: seq<Extent>, k: nat, j: nat)
    requires Chain(s, k) && 0 < j <= k
    ensures Chain(s, j)
    decreases k
  {
    if j < k {
      LenSumSnoc(s, k - 1);
      ChainShorter(s, k - 1, j);
    }
  }

  lemma LongestIsUnique(s: seq<Extent>, k: nat, j: nat)
    requires LongestChain(s, k) && LongestChain(s, j)
    ensures k == j
  {
    hide Chain;
    if k < j {
      ChainLonger(s, j);
      ChainShorter(s, j, k + 1);
    } else if j < k {
      ChainLonger(s, k);
      ChainShorter(s, k, j + 1);
    }
  }

  lemma ChainLonger(s: seq<Extent>, k: nat)
    requires Chain(s, k)
    ensures 0 < k <= |s|
  {
  }

  /** Joining the first two records of a chain leaves a chain. */
  lemma {:induction false} JoinedSum(s: seq<Extent>, t: seq<Extent>, j: nat)
    requires |s| > 1 && Mergeable(s[0], s[1]) && t == [Merged(s[0], s[1])] + s[2..] && 0 < j <= |t|
    ensures LenSum(t[..j]) == LenSum(s[..j + 1])
    decreases j
  {
    LenSumSnoc(t, j - 1);
    LenSumSnoc(s, j);
    if j == 1 {
      LenSumSnoc(s, 0);
      assert s[..0] == [] && t[..0] == [];
    } else {
      JoinedSum(s, t, j - 1);
    }
  }

  lemma JoinedChain(s: seq<Extent>, t: seq<Extent>, j: nat)
    requires |s| > 1 && Mergeable(s[0], s[1]) && t == [Merged(s[0], s[1])] + s[2..] && 0 < j
    ensures Chain(t, j) <==> Chain(s, j + 1)
  {
    hide LenSum;
    if j <= |t| {
      JoinedSum(s, t, j);
      assert forall i :: 0 < i < |t| ==> t[i] == s[i + 1];
      if Chain(t, j) {
        forall i | 0 < i < j + 1 ensures Adjoins(s[i - 1], s[i]) {
          assert i > 1 ==> Adjoins(t[i - 2], t[i - 1]);
        }
      }
      if Chain(s, j + 1) {
        forall i | 0 < i < j ensures Adjoins(t[i - 1], t[i]) {
          assert Adjoins(s[i], s[i + 1]);
        }
      }
    }
  }

  /** The first chunk of a merged list is the longest chain it begins with. */
  lemma {:induction false} ChunkIsLongestChain(s: seq<Extent>) returns (k: nat)
    requires s != [] && NoEmpties(s)
    ensures LongestChain(s, k) && MergeList(s) != [] && MergeList(s)[0].Len() == LenSum(s[..k])
    decreases |s|
  {
    LenSumSnoc(s, 0);
    assert s[..0] == [];
    if |s| > 1 && Mergeable(s[0], s[1]) {
      var t := [Merged(s[0], s[1])] + s[2..];
      var j := ChunkIsLongestChain(t);
      JoinedChain(s, t, j);
      JoinedChain(s, t, j + 1);
      JoinedSum(s, t, j);
      k := j + 1;
    } else {
      k := 1;
      if |s| > 1 {
        LenSumSnoc(s, 1);
        assert Chain(s, 2) ==> Adjoins(s[1 - 1], s[1]);
      }
    }
  }

  /** So it could be merged with a if and only if the input says so. */
  lemma KeptApartIff(a: Extent, rest: seq<Extent>)
    requires rest != [] && NoEmpties(rest)
    ensures MergeList(rest) != [] && (Mergeable(a, MergeList(rest)[0]) <==> KeptApart(a, rest))
  {
    hide LenSum, MergeList;
    MergedHead(rest);
    var k := ChunkIsLongestChain(rest);
    if KeptApart(a, rest) {
      var j: nat :| LongestChain(rest, j) && a.Len() + LenSum(rest[..j]) <= MAX_EXTENT_BLOCKS;
      LongestIsUnique(rest, j, k);
    }
  }

  lemma NoEmptiesBehind(s: seq<Extent>, k: nat)
    requires SortedByBlock(s) && Disjoint(s) && 0 < k < |s| && !s[0].Empty() && !s[k].Empty()
    requires EmptiesAtZero(s)
    ensures NoEmpties(s[k..])
  {
    forall i | k <= i < |s| ensures !s[i].Empty() {
      assert s[k].block <= s[i].block || i == k;
      assert s[0].block <= s[k].block;
    }
  }

  /**
   * For a sorted disjoint buffer whose empty records are cleared ones, the merge pass leaves
   * no mergeable neighbours if and only if no cleared record stands in the way of the extent
   * at block 0.
   */
  lemma {:induction false} FullyMergedIffNotBlocked(s: seq<Extent>)
    requires SortedByBlock(s) && Disjoint(s) && EmptiesAtZero(s)
    ensures FullyMerged(MergeList(s)) <==> !MergeBlocked(s)
  {
    if s != [] && s[0].Empty() {
      FullyMergedIffNotBlocked(s[1..]);
    } else if |s| > 1 && s[1].Empty() {
      var rest := SkipEmpty(s[1..]);
      SkipEmptyMerges(s[1..]);
      SkippedIsSolid(s);
      MergedFully(rest);
      assert MergeList(s) == [s[0]] + MergeList(s[1..]);
      PrependFullyMerged(s[0], MergeList(s[1..]));
      if rest != [] {
        KeptApartIff(s[0], rest);
      }
    } else if |s| > 1 {
      NoEmptiesBehind(s, 1);
      assert NoEmpties(s) by {
        forall i | 0 <= i < |s| ensures !s[i].Empty() {
          assert i > 0 ==> s[i] == s[1..][i - 1];
        }
      }
      MergedFully(s);
    }
  }

  lemma SkippedIsSolid(s: seq<Extent>)
    requires SortedByBlock(s) && Disjoint(s) && |s| > 1 && !s[0].Empty()
    requires EmptiesAtZero(s)
    ensures NoEmpties(SkipEmpty(s[1..]))
  {
    SkipEmptyMerges(s[1..]);
    var rest := SkipEmpty(s[1..]);
    if rest != [] {
      var k :| 0 <= k < |s[1..]| && rest == s[1..][k..];
      assert rest == s[k + 1..];
      SkipsToSolid(s[1..]);
      assert rest[0] == s[k + 1];
      NoEmptiesBehind(s, k + 1);
    }
  }

  lemma {:induction false} SkipsToSolid(s: seq<Extent>)
    ensures SkipEmpty(s) != [] ==> !SkipEmpty(s)[0].Empty()
  {
    if s != [] && s[0].Empty() {
      SkipsToSolid(s[1..]);
    }
  }

  // ---------- the normalised list as a function of the buffer ----------

  /** The records that are not empty. */
  function Solid(s: seq<Extent>): seq<Extent> {
    if s == [] then [] else if s[0].Empty() then Solid(s[1..]) else [s[0]] + Solid(s[1..])
  }

  /** What the edits leave: in order, up to cleared records; only the first extent can be at block 0. */
  ghost predicate Tidy(s: seq<Extent>) {
    && Ascending(s) && EmptiesAtZero(s)
    && forall k :: 0 < k < |s| && !s[k].Empty() ==> s[k].block > 0
  }

  /** The list a buffer settles to: cleared records keep the extent at block 0 out of the merge. */
  ghost function Settled(s: seq<Extent>): seq<Extent> {
    var solid := Solid(s);
    if s != [] && !s[0].Empty() && s[0].block == 0 && |solid| < |s| then [s[0]] + MergeList(solid[1..])
    else MergeList(solid)
  }

  /** The same records, whatever their order. */
  ghost predicate SameRecords(s: seq<Extent>, t: seq<Extent>) {
    |s| == |t| && forall e :: e in s <==> e in t
  }

  lemma SameRecordsRefl(s: seq<Extent>)
    ensures SameRecords(s, s)
  {
  }

  lemma SameRecordsTrans(s: seq<Extent>, t: seq<Extent>, u: seq<Extent>)
    requires SameRecords(s, t) && SameRecords(t, u)
    ensures SameRecords(s, u)
  {
  }

  lemma SwapKeepsRecords(s: seq<Extent>, i: nat, j: nat)
    requires i < j < |s|
    ensures SameRecords(s, Swapped(s, i, j))
  {
    var t := Swapped(s, i, j);
    forall e | e in s ensures e in t {
      var k :| 0 <= k < |s| && s[k] == e;
      assert t[if k == i then j else if k == j then i else k] == e;
    }
    forall e | e in t ensures e in s {
      var k :| 0 <= k < |t| && t[k] == e;
      assert s[if k == i then j else if k == j then i else k] == e;
    }
  }

  lemma {:induction false} SolidRecords(s: seq<Extent>, e: Extent)
    ensures e in Solid(s) <==> e in s && !e.Empty()
  {
    if s != [] {
      SolidRecords(s[1..], e);
      assert s == [s[0]] + s[1..];
    }
  }

  lemma {:induction false} SolidCanonical(s: seq<Extent>)
    requires Ascending(s)
    ensures Canonical(Solid(s)) && |Solid(s)| <= |s|
    ensures |Solid(s)| == |s| <==> NoEmpties(s)
    ensures NoEmpties(s) ==> Solid(s) == s
  {
    if s != [] {
      TailOf(s);
      SolidCanonical(s[1..]);
      if !s[0].Empty() {
        FirstEndsBefore(s);
        PrependCanonical(s[0], Solid(s[1..]));
      }
    }
  }

  lemma TailOf(s: seq<Extent>)
    requires s != []
    ensures Ascending(s) ==> Ascending(s[1..])
    ensures NoEmpties(s) <==> !s[0].Empty() && NoEmpties(s[1..])
  {
    assert forall k :: 0 < k < |s| ==> s[k] == s[1..][k - 1];
  }

  lemma FirstEndsBefore(s: seq<Extent>)
    requires s != [] && Ascending(s) && !s[0].Empty()
    ensures forall k :: 0 <= k < |Solid(s[1..])| ==> s[0].End() <= Solid(s[1..])[k].block
  {
    hide Solid;
    var t := Solid(s[1..]);
    forall k | 0 <= k < |t| ensures s[0].End() <= t[k].block {
      SolidRecords(s[1..], t[k]);
      var j :| 0 <= j < |s[1..]| && s[1..][j] == t[k];
      assert s[j + 1] == t[k];
    }
  }

  lemma PrependCanonical(e: Extent, t: seq<Extent>)
    requires Canonical(t) && !e.Empty() && forall k :: 0 <= k < |t| ==> e.End() <= t[k].block
    ensures Canonical([e] + t)
  {
  }

  /** An ascending list is determined by its records. */
  lemma {:induction false} CanonicalIsUnique(a: seq<Extent>, b: seq<Extent>)
    requires Canonical(a) && Canonical(b) && forall e :: e in a <==> e in b
    ensures a == b
  {
    BothEmpty(a, b);
    if a != [] {
      assert a[0] in b && b[0] in a;
      SameFirst(a, b);
      forall e ensures e in a[1..] <==> e in b[1..] {
        RestRecords(a, e);
        RestRecords(b, e);
      }
      CanonicalIsUnique(a[1..], b[1..]);
    }
  }

  lemma BothEmpty(a: seq<Extent>, b: seq<Extent>)
    requires forall e :: e in a <==> e in b
    ensures a == [] <==> b == []
  {
    if a != [] {
      assert a[0] in b;
    }
    if b != [] {
      assert b[0] in a;
    }
  }

  lemma SameFirst(a: seq<Extent>, b: seq<Extent>)
    requires Canonical(a) && Canonical(b) && a != [] && b != [] && a[0] in b && b[0] in a
    ensures a[0] == b[0]
  {
    var k :| 0 <= k < |b| && b[k] == a[0];
    var m :| 0 <= m < |a| && a[m] == b[0];
    assert !a[0].Empty() && !b[0].Empty();
  }

  lemma RestRecords(a: seq<Extent>, e: Extent)
    requires Canonical(a) && a != []
    ensures e in a[1..] <==> e in a && e != a[0]
  {
    assert a == [a[0]] + a[1..];
    if e in a[1..] {
      var k :| 0 <= k < |a[1..]| && a[1..][k] == e;
      assert a[k + 1] == e && !a[0].Empty() && !e.Empty();
    }
  }

  /** Empty records at the front are passed over. */
  lemma {:induction false} LeadingEmpties(v: seq<Extent>)
    requires SortedByBlock(v) && EmptiesAtZero(v) && forall k :: 0 <= k < |v| && !v[k].Empty() ==> v[k].block > 0
    ensures MergeList(v) == MergeList(Solid(v))
  {
    if v != [] && v[0].Empty() {
      LeadingEmpties(v[1..]);
    } else if v != [] {
      NoEmptiesSolid(v);
    }
  }

  lemma {:induction false} NoEmptiesSolid(v: seq<Extent>)
    requires v != [] ==> SortedByBlock(v) && EmptiesAtZero(v) && !v[0].Empty() && v[0].block > 0
    ensures Solid(v) == v
  {
    if |v| > 1 {
      assert v[0].block <= v[1].block;
      NoEmptiesSolid(v[1..]);
    } else if |v| == 1 {
      assert v[1..] == [];
    }
  }

  lemma SortedAscending(s: seq<Extent>)
    requires SortedByBlock(s) && Disjoint(s)
    ensures Ascending(s)
  {
    forall i, j | 0 <= i < j < |s| && !s[i].Empty() && !s[j].Empty() ensures s[i].End() <= s[j].block {
      assert s[i].block <= s[j].block;
    }
  }

  lemma SortedSolid(t: seq<Extent>, u: seq<Extent>)
    requires Tidy(t) && SortedByBlock(u) && Disjoint(u) && SameRecords(t, u)
    ensures Solid(u) == Solid(t) && EmptiesAtZero(u) && (NoEmpties(u) <==> NoEmpties(t))
  {
    SortedAscending(u);
    SolidCanonical(t);
    SolidCanonical(u);
    forall e ensures e in Solid(t) <==> e in Solid(u) {
      SolidRecords(t, e);
      SolidRecords(u, e);
    }
    CanonicalIsUnique(Solid(t), Solid(u));
    forall k | 0 <= k < |u| && u[k].Empty() ensures u[k].block == 0 {
      assert u[k] in t;
    }
  }

  /** Sorting and merging a tidy buffer gives the settled list. */
  lemma SortedSettles(t: seq<Extent>, u: seq<Extent>)
    requires Tidy(t) && SortedByBlock(u) && Disjoint(u) && SameRecords(t, u)
    requires t != [] && t[0].block == 0 ==> u[0] == t[0]
    ensures MergeList(u) == Settled(t)
  {
    hide Disjoint;
    SortedSolid(t, u);
    SolidCanonical(t);
    if NoEmpties(t) {
      SortedAscending(u);
      SolidCanonical(u);
    } else if !t[0].Empty() && t[0].block == 0 {
      FirstStandsAlone(t, u);
    } else {
      forall k | 0 <= k < |u| && !u[k].Empty() ensures u[k].block > 0 {
        assert u[k] in t;
        var j :| 0 <= j < |t| && t[j] == u[k];
      }
      LeadingEmpties(u);
    }
  }

  lemma FirstStandsAlone(t: seq<Extent>, u: seq<Extent>)
    requires Tidy(t) && SortedByBlock(u) && Disjoint(u) && SameRecords(t, u) && !NoEmpties(t)
    requires t != [] && t[0].block == 0 && !t[0].Empty() && u[0] == t[0]
    ensures MergeList(u) == [t[0]] + MergeList(Solid(t)[1..])
  {
    SortedSolid(t, u);
    var p :| 0 <= p < |u| && u[p].Empty();
    assert u[1].block <= u[p].block || p == 1;
    SortedAscending(u);
    assert u[1].Empty();
    assert forall k :: 0 <= k < |u[1..]| ==> u[1..][k] == u[k + 1];
    LeadingEmpties(u[1..]);
    assert Solid(u) == [u[0]] + Solid(u[1..]);
  }

  lemma CanonicalSettles(s: seq<Extent>)
    requires Canonical(s)
    ensures Tidy(s) && Settled(s) == MergeList(s)
  {
    SolidCanonical(s);
  }

  lemma {:induction false} MergeListShrinks(s: seq<Extent>)
    ensures |MergeList(s)| <= |s|
    decreases |s|
  {
    if s == [] {
    } else if s[0].Empty() {
      MergeListShrinks(s[1..]);
    } else if |s| > 1 && Mergeable(s[0], s[1]) {
      MergeListShrinks([Merged(s[0], s[1])] + s[2..]);
    } else {
      MergeListShrinks(s[1..]);
    }
  }

  lemma {:induction false} SolidShrinks(s: seq<Extent>)
    ensures |Solid(s)| <= |s|
  {
    if s != [] {
      SolidShrinks(s[1..]);
    }
  }

  lemma SettledShrinks(s: seq<Extent>)
    ensures |Settled(s)| <= |s|
  {
    var solid := Solid(s);
    SolidShrinks(s);
    MergeListShrinks(solid);
    if solid != [] {
      MergeListShrinks(solid[1..]);
    }
  }

  /** A list with nothing to merge is left alone. */
  lemma {:induction false} MergedIsFixed(s: seq<Extent>)
    requires NoEmpties(s) && FullyMerged(s)
    ensures MergeList(s) == s
  {
    if |s| > 1 {
      assert !Mergeable(s[1 - 1], s[1]);
      forall i | 0 < i < |s[1..]| ensures !Mergeable(s[1..][i - 1], s[1..][i]) {
        assert !Mergeable(s[i + 1 - 1], s[i + 1]);
      }
      MergedIsFixed(s[1..]);
    } else if |s| == 1 {
      assert s[1..] == [];
    }
  }

  class ExtentBuffer {
    var extents: seq<Extent>
    var leafBlocks: seq<nat>

    constructor (extents: seq<Extent>, leafBlocks: seq<nat>)
      ensures this.extents == extents && this.leafBlocks == leafBlocks
    {
      this.extents := extents;
      this.leafBlocks := leafBlocks;
    }

    /** simplefs_file_find_extent: the covering extent, or the place to insert one. */
    method FindExtent(iblock: nat) returns (found: bool, idx: nat)
      requires Canonical(extents)
      ensures found <==> Lookup(extents, iblock).Some?
      ensures found ==> idx < |extents| && extents[idx].Covers(iblock)
                        && Lookup(extents, iblock) == Some(extents[idx].At(iblock))
      ensures !found ==> idx <= |extents|
                         && (forall k :: 0 <= k < idx ==> extents[k].End() <= iblock)
                         && (forall k :: idx <= k < |extents| ==> iblock < extents[k].block)
    {
      var i := 0;
      while i < |extents|
        invariant 0 <= i <= |extents|
        invariant forall k :: 0 <= k < i ==> extents[k].End() <= iblock
      {
        if iblock < extents[i].block {
          LookupMiss(extents, iblock);
          return false, i;
        }
        if iblock < extents[i].End() {
          LookupAt(extents, i, iblock);
          return true, i;
        }
        i := i + 1;
      }
      LookupMiss(extents, iblock);
      return false, |extents|;
    }

    /** simplefs_file_insert_extent: append, then shift the tail up by one. */
    method InsertExtent(idx: nat, ext: Extent)
      requires idx <= |extents|
      modifies this`extents
      ensures extents == old(extents)[..idx] + [ext] + old(extents)[idx..]
    {
      extents := extents + [ext];
      if idx < |extents| - 1 {
        extents := extents[..idx + 1] + extents[idx..|extents| - 1];
      }
      extents := extents[idx := ext];
    }

    /** simplefs_file_remove_extent */
    method RemoveExtent(idx: nat) returns (ok: bool)
      modifies this`extents
      ensures ok <==> idx < |old(extents)|
      ensures ok ==> extents == old(extents)[..idx] + old(extents)[idx + 1..]
      ensures !ok ==> extents == old(extents)
    {
      if idx >= |extents| {
        return false;
      }
      extents := extents[..idx] + extents[idx + 1..];
      return true;
    }

    /** The exchange sort that opens simplefs_file_normalize_extents. */
    method SortByBlock()
      requires Disjoint(extents)
      modifies this`extents
      ensures |extents| == |old(extents)|
      ensures SortedByBlock(extents) && Disjoint(extents)
      ensures SameMeaning(old(extents), extents)
      ensures NoEmpties(old(extents)) ==> NoEmpties(extents)
      ensures SortedByBlock(old(extents)) ==> extents == old(extents)
      ensures SameRecords(old(extents), extents)
      ensures extents != [] && old(extents)[0].block == 0 ==> extents[0] == old(extents)[0]
    {
      hide SameMeaning, Disjoint, NoEmpties, LeastUpTo, SameRecords;
      SameMeaningRefl(extents);
      SameRecordsRefl(extents);
      var n := |extents|;
      var i := 0;
      LeastUpToZero(extents);
      while i < n
        invariant 0 <= i <= n == |extents|
        invariant Disjoint(extents) && SameMeaning(old(extents), extents)
        invariant NoEmpties(old(extents)) ==> NoEmpties(extents)
        invariant SortedByBlock(old(extents)) ==> extents == old(extents)
        invariant SameRecords(old(extents), extents)
        invariant n > 0 && old(extents)[0].block == 0 ==> extents[0] == old(extents)[0]
        invariant LeastUpTo(extents, i, i + 1)
      {
        var j := i + 1;
        while j < n
          invariant i < j <= n == |extents|
          invariant Disjoint(extents) && SameMeaning(old(extents), extents)
          invariant NoEmpties(old(extents)) ==> NoEmpties(extents)
          invariant SortedByBlock(old(extents)) ==> extents == old(extents)
          invariant SameRecords(old(extents), extents)
          invariant n > 0 && old(extents)[0].block == 0 ==> extents[0] == old(extents)[0]
          invariant LeastUpTo(extents, i, j)
        {
          ghost var was := extents;
          if extents[i].block > extents[j].block {
            extents := extents[i := extents[j]][j := extents[i]];
            SortStep(old(extents), was, i, j);
            SwapKeepsRecords(was, i, j);
            SameRecordsTrans(old(extents), was, extents);
          } else {
            LeastUpToNext(was, i, j);
          }
          j := j + 1;
        }
        LeastUpToDone(extents, i);
        i := i + 1;
      }
      LeastUpToSorted(extents);
    }

    /** The merge pass that closes simplefs_file_normalize_extents. */
    method MergePass()
      requires SortedByBlock(extents) && Disjoint(extents)
      modifies this`extents
      ensures Canonical(extents) && |extents| <= |old(extents)|
      ensures SameMeaning(old(extents), extents)
      ensures extents == MergeList(old(extents))
      ensures NoEmpties(old(extents)) ==> FullyMerged(extents)
    {
      hide SameMeaning, Disjoint, SortedByBlock, NoEmpties, MergedUpTo, Ascending, FullyMerged, Mergeable, MergeList;
      SameMeaningRefl(extents);
      MergedUpToZero(extents);
      assert extents[..0] + MergeList(extents[0..]) == MergeList(extents) by {
        assert extents[0..] == extents;
      }
      var i := 0;
      while i < |extents|
        invariant 0 <= i <= |extents| <= |old(extents)|
        invariant SortedByBlock(extents) && Disjoint(extents)
        invariant SameMeaning(old(extents), extents)
        invariant NoEmpties(extents[..i])
        invariant extents[..i] + MergeList(extents[i..]) == MergeList(old(extents))
        invariant NoEmpties(old(extents)) ==> NoEmpties(extents) && MergedUpTo(extents, i)
        decreases |extents| - i
      {
        var cur := extents[i];
        ghost var was := extents;
        if cur.Empty() {
          var ok := RemoveExtent(i);
          DropStep(old(extents), was, i);
          continue;
        }
        if i + 1 < |extents| && Mergeable(cur, extents[i + 1]) {
          extents := extents[i := Merged(cur, extents[i + 1])];
          var ok := RemoveExtent(i + 1);
          MergeStep(old(extents), was, extents, i);
          continue;
        }
        AdvanceStep(extents, i);
        i := i + 1;
      }
      MergeDone(extents);
    }

    /** simplefs_file_normalize_extents */
    method Normalize()
      requires Disjoint(extents)
      modifies this`extents
      ensures Canonical(extents) && |extents| <= |old(extents)|
      ensures SameMeaning(old(extents), extents)
      ensures NoEmpties(old(extents)) ==> FullyMerged(extents)
      ensures SortedByBlock(old(extents)) ==> extents == MergeList(old(extents))
      ensures SortedByBlock(old(extents)) && EmptiesAtZero(old(extents)) ==>
        (FullyMerged(extents) <==> !MergeBlocked(old(extents)))
      ensures Tidy(old(extents)) ==> extents == Settled(old(extents))
    {
      hide SameMeaning, Disjoint, SortedByBlock, NoEmpties, EmptiesAtZero, FullyMerged, MergeList, MergeBlocked,
        SameRecords, Settled, Ascending;
      if SortedByBlock(extents) && EmptiesAtZero(extents) {
        FullyMergedIffNotBlocked(extents);
      }
      SortByBlock();
      if old(Tidy(extents)) {
        SortedSettles(old(extents), extents);
      }
      ghost var sorted := extents;
      MergePass();
      SameMeaningTrans(old(extents), sorted, extents);
    }
  }
}
