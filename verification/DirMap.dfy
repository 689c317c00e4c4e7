/**
 * How a directory's extents name its blocks (simplefs_dir_index.c): the walk that lists them
 * in order, and the batches in which an empty directory gives them back.
 */
module DirMaps {
  import opened Wrappers
  import opened Extents

  const MAX_DIR_BLOCKS: nat := 0xFFFF_FFFF / 4096
  const TRIM_BATCH: nat := 16

  /** The blocks of a list, as the walk counts them. */
  function Span(m: seq<Extent>): nat {
    if m == [] then 0 else Span(m[..|m| - 1]) + m[|m| - 1].Len()
  }

  /** The walk accepts extent k: written, on the device, and right behind the ones before it. */
  predicate GoodAt(m: seq<Extent>, device: nat, k: nat)
    requires k < |m|
  {
    && m[k].Len() > 0 && !m[k].unwritten && m[k].block == Span(m[..k])
    && m[k].start < device && m[k].Len() <= device - m[k].start
  }

  ghost predicate WalkableTo(m: seq<Extent>, device: nat, n: nat) {
    n <= |m| && forall k :: 0 <= k < n ==> GoodAt(m, device, k) && Span(m[..k + 1]) <= MAX_DIR_BLOCKS
  }

  ghost predicate Walkable(m: seq<Extent>, device: nat) {
    WalkableTo(m, device, |m|)
  }

  /** The first extent the walk does not accept, and the error it gives. */
  ghost predicate FailsAt(m: seq<Extent>, device: nat, k: nat, error: Errno) {
    && k < |m| && WalkableTo(m, device, k)
    && if GoodAt(m, device, k) then Span(m[..k + 1]) > MAX_DIR_BLOCKS && error == ENOSPC else error == EFSCORRUPTED
  }

  /** `blocks` has the blocks of e where e says they belong. */
  ghost predicate Places(blocks: seq<nat>, e: Extent) {
    e.End() <= |blocks| && forall b :: e.block <= b < e.End() ==> blocks[b] == e.start + (b - e.block)
  }

  /** `blocks` are the blocks of the first n extents, in order. */
  ghost predicate Lists(blocks: seq<nat>, m: seq<Extent>, n: nat) {
    n <= |m| && |blocks| == Span(m[..n]) && forall k :: 0 <= k < n ==> Places(blocks, m[k])
  }

  lemma SpanSnoc(m: seq<Extent>, n: nat)
    requires n < |m|
    ensures Span(m[..n + 1]) == Span(m[..n]) + m[n].Len()
  {
    assert m[..n + 1][..n] == m[..n];
  }

  lemma WalkMore(m: seq<Extent>, device: nat, n: nat)
    requires WalkableTo(m, device, n) && n < |m| && GoodAt(m, device, n) && Span(m[..n + 1]) <= MAX_DIR_BLOCKS
    ensures WalkableTo(m, device, n + 1)
  {
  }

  lemma GoodFollows(m: seq<Extent>, device: nat, k: nat)
    requires k < |m| && GoodAt(m, device, k)
    ensures m[k].block == Span(m[..k])
  {
  }

  lemma EmptySpan()
    ensures Span([]) == 0
  {
  }

  lemma ListsMore(blocks: seq<nat>, m: seq<Extent>, n: nat)
    requires Lists(blocks, m, n) && n < |m| && m[n].block == Span(m[..n])
    ensures Lists(blocks + seq(m[n].Len(), j => m[n].start + j), m, n + 1)
  {
    SpanSnoc(m, n);
  }

  /** Every extent lies below the span. */
  lemma {:induction false} EndsInSpan(m: seq<Extent>, device: nat, n: nat, k: nat)
    requires WalkableTo(m, device, n) && k < n
    ensures m[k].End() <= Span(m[..n])
  {
    SpanSnoc(m, n - 1);
    assert GoodAt(m, device, n - 1);
    if k < n - 1 {
      EndsInSpan(m, device, n - 1, k);
    }
  }

  /** Every block below the span lies in some extent. */
  lemma {:induction false} SpanCovered(m: seq<Extent>, device: nat, n: nat, b: nat) returns (k: nat)
    requires WalkableTo(m, device, n) && b < Span(m[..n])
    ensures k < n && m[k].block <= b < m[k].End()
  {
    assert m[..0] == [];
    SpanSnoc(m, n - 1);
    assert GoodAt(m, device, n - 1);
    if b >= Span(m[..n - 1]) {
      k := n - 1;
    } else {
      k := SpanCovered(m, device, n - 1, b);
    }
  }

  /** The list the walk makes is the map the extents denote. */
  lemma ListIsLookup(blocks: seq<nat>, m: seq<Extent>, device: nat, b: nat)
    requires Walkable(m, device) && Lists(blocks, m, |m|)
    ensures Lookup(m, b).Some? ==> b < |blocks| && Lookup(m, b) == Some(Loc(blocks[b], false))
    ensures NoEmpties(m) && b < |blocks| ==> Lookup(m, b).Some?
  {
    hide Span, Lookup;
    assert m[..|m|] == m;
    var i := LookupWitness(m, b);
    if Lookup(m, b).Some? {
      assert Places(blocks, m[i]) && GoodAt(m, device, i);
    } else if NoEmpties(m) && b < |blocks| {
      SpanMapped(m, device, b);
    }
  }

  lemma SpanMapped(m: seq<Extent>, device: nat, b: nat)
    requires Walkable(m, device) && NoEmpties(m) && b < Span(m)
    ensures Lookup(m, b).Some?
  {
    hide GoodAt, Lookup;
    assert m[..|m|] == m;
    var k := SpanCovered(m, device, |m|, b);
    assert m[k].Covers(b);
    var i := LookupWitness(m, b);
  }

  // ---------- giving blocks back from the tail ----------

  /** The list without its last blocks, at most sixteen of the last extent. */
  function CutTail(m: seq<Extent>): seq<Extent>
    requires m != []
  {
    var e := m[|m| - 1];
    if e.Len() <= TRIM_BATCH then m[..|m| - 1] else m[|m| - 1 := e.(rawLen := e.Len() - TRIM_BATCH)]
  }

  /** The blocks that go. */
  function Tail(m: seq<Extent>): Range
    requires m != []
  {
    var e := m[|m| - 1];
    var count := if e.Len() < TRIM_BATCH then e.Len() else TRIM_BATCH;
    Range(e.start + e.Len() - count, count)
  }

  /** What is left of m once the ranges have been given back. */
  ghost predicate TrimmedTo(m: seq<Extent>, rest: seq<Extent>, freed: seq<Range>) {
    && (forall b: nat :: Lookup(rest, b) == if b < Span(rest) then Lookup(m, b) else None)
    && RangeTotal(freed) + Span(rest) == Span(m)
    && (forall i :: 0 <= i < |freed| ==> freed[i].len <= TRIM_BATCH)
    && (NoEmpties(m) ==> NoEmpties(rest) && forall x: nat :: Uses(m, x) == Uses(rest, x) + RangeUses(freed, x))
  }

  lemma LookupInSpan(m: seq<Extent>, device: nat, b: nat)
    requires Walkable(m, device)
    ensures b >= Span(m) ==> Lookup(m, b).None?
  {
    assert m[..|m|] == m;
    var i := LookupWitness(m, b);
    if Lookup(m, b).Some? {
      EndsInSpan(m, device, |m|, i);
    }
  }

  lemma NothingTrimmed(m: seq<Extent>, device: nat)
    requires Walkable(m, device)
    ensures TrimmedTo(m, m, [])
  {
    forall b: nat ensures Lookup(m, b) == if b < Span(m) then Lookup(m, b) else None {
      LookupInSpan(m, device, b);
    }
  }

  lemma CutWalks(m: seq<Extent>, device: nat)
    requires Walkable(m, device) && m != []
    ensures Walkable(CutTail(m), device) && Span(CutTail(m)) + Tail(m).len == Span(m) && Tail(m).len > 0
  {
    var n := |m| - 1;
    var rest := CutTail(m);
    SpanSnoc(m, n);
    assert m[..|m|] == m && GoodAt(m, device, n);
    forall k | 0 <= k < |rest| ensures GoodAt(rest, device, k) && Span(rest[..k + 1]) <= MAX_DIR_BLOCKS {
      assert GoodAt(m, device, k) && Span(m[..k + 1]) <= MAX_DIR_BLOCKS;
      assert rest[..k] == m[..k];
      SpanSnoc(m, k);
      SpanSnoc(rest, k);
    }
    if |rest| == |m| {
      SpanSnoc(rest, n);
      assert rest[..n + 1] == rest && rest[..n] == m[..n];
    }
  }

  lemma CutUses(m: seq<Extent>, x: nat)
    requires m != [] && NoEmpties(m)
    ensures NoEmpties(CutTail(m))
    ensures Uses(m, x) == Uses(CutTail(m), x) + if InRun(x, Tail(m).start, Tail(m).len) then 1 else 0
  {
    var n := |m| - 1;
    var e := m[n];
    assert m == m[..n] + [e];
    UsesConcat(m[..n], [e], x);
    UsesOne(e, x);
    if e.Len() > TRIM_BATCH {
      var cut := e.(rawLen := e.Len() - TRIM_BATCH);
      assert CutTail(m) == m[..n] + [cut];
      UsesConcat(m[..n], [cut], x);
      UsesOne(cut, x);
    }
  }

  lemma CutLookup(m: seq<Extent>, device: nat, b: nat)
    requires Walkable(m, device) && m != []
    ensures Lookup(CutTail(m), b) == if b < Span(CutTail(m)) then Lookup(m, b) else None
  {
    var n := |m| - 1;
    var e, rest := m[n], CutTail(m);
    assert m == m[..n] + [e] && m[..|m|] == m && GoodAt(m, device, n);
    CutWalks(m, device);
    LookupInSpan(rest, device, b);
    LookupConcat(m[..n], [e], b);
    LookupOne(e, b);
    SpanSnoc(m, n);
    if |rest| == |m| {
      var cut := e.(rawLen := e.Len() - TRIM_BATCH);
      assert rest == m[..n] + [cut];
      LookupConcat(m[..n], [cut], b);
      LookupOne(cut, b);
    }
  }

  lemma TrimBatch(m: seq<Extent>, rest: seq<Extent>, freed: seq<Range>, device: nat)
    requires TrimmedTo(m, rest, freed) && Walkable(rest, device) && rest != []
    ensures TrimmedTo(m, CutTail(rest), freed + [Tail(rest)])
  {
    hide Lookup, Uses, RangeUses, RangeTotal, Span, CutTail, Tail, Walkable;
    var next, more := CutTail(rest), freed + [Tail(rest)];
    CutWalks(rest, device);
    RangeSnoc(freed, Tail(rest), 0);
    forall b: nat ensures Lookup(next, b) == if b < Span(next) then Lookup(m, b) else None {
      CutLookup(rest, device, b);
    }
    TailShort(rest);
    if NoEmpties(m) {
      CutUses(rest, 0);
      forall x: nat ensures Uses(m, x) == Uses(next, x) + RangeUses(more, x) {
        CutUses(rest, x);
        RangeSnoc(freed, Tail(rest), x);
      }
    }
  }

  lemma TailShort(m: seq<Extent>)
    requires m != []
    ensures Tail(m).len <= TRIM_BATCH
  {
  }
}
