/**
 * Punch, truncate, collapse and insert (simplefs_file.c, simplefs_inode.c): the loops that
 * edit an extent list in place or rebuild it, and the map operations they amount to.
 */
module Surgery {
  import opened Wrappers
  import opened Extents
  import opened ExtentBuffers

  /** Punch [lo, hi); truncate to n blocks; collapse [lo, hi); insert len blocks at `at`. */
  datatype Edit =
    | Punch(lo: nat, hi: nat)
    | Truncate(n: nat)
    | Collapse(lo: nat, hi: nat)
    | Insert(at: nat, len: nat)
  {
    /** The old logical block that block b of the edited file shows, if any. */
    function Src(b: nat): Option<nat> {
      match this
      case Punch(lo, hi) => if lo <= b < hi then None else Some(b)
      case Truncate(n) => if b < n then Some(b) else None
      case Collapse(lo, hi) => if b < lo || hi <= lo then Some(b) else Some(b + (hi - lo))
      case Insert(at, len) => if b < at then Some(b) else if b < at + len then None else Some(b - len)
    }

    /** The old logical blocks the edit unmaps. */
    predicate Removes(b: nat) {
      match this
      case Punch(lo, hi) => lo <= b < hi
      case Truncate(n) => n <= b
      case Collapse(lo, hi) => lo <= b < hi
      case Insert(_, _) => false
    }

    /** Where an old block boundary ends up. */
    function Moved(b: nat): nat {
      match this
      case Punch(_, _) => b
      case Truncate(_) => b
      case Collapse(lo, hi) => if b <= lo || hi <= lo then b else if b < hi then lo else b - (hi - lo)
      case Insert(at, len) => if b <= at then b else b + len
    }
  }

  /** What the callers guarantee of the block range. */
  predicate WellFormedEdit(ed: Edit) {
    match ed
    case Punch(lo, hi) => lo < hi
    case Truncate(_) => true
    case Collapse(lo, hi) => lo < hi
    case Insert(_, _) => true
  }

  ghost predicate Reindexed(after: seq<Extent>, before: seq<Extent>, ed: Edit) {
    forall b: nat :: Lookup(after, b) == if ed.Src(b).Some? then Lookup(before, ed.Src(b).value) else None
  }

  /** How often the edit drops physical block x. */
  function Dropped(s: seq<Extent>, ed: Edit, x: nat): nat {
    if s == [] then 0
    else Dropped(s[1..], ed, x) + if s[0].Uses(x) == 1 && ed.Removes(s[0].block + (x - s[0].start)) then 1 else 0
  }

  /**
   * `after` is the edited form of `before`, and `freed` lists what it no longer needs: every
   * physical block is either still used or freed, as often as it was used before, and
   * the freed ones are exactly those the removed logical blocks lived on.
   */
  ghost predicate EditOf(after: seq<Extent>, before: seq<Extent>, ed: Edit, freed: seq<Range>) {
    && Reindexed(after, before, ed)
    && (forall x: nat :: Uses(before, x) == Uses(after, x) + RangeUses(freed, x))
    && (forall x: nat :: RangeUses(freed, x) == Dropped(before, ed, x))
    && Total(before) == Total(after) + RangeTotal(freed)
    && |freed| <= |before|
  }

  ghost predicate Between(s: seq<Extent>, lo: nat, hi: nat) {
    forall i :: 0 <= i < |s| && !s[i].Empty() ==> lo <= s[i].block && s[i].End() <= hi
  }

  // ---------- composing edits of consecutive parts ----------

  lemma {:induction false} DroppedConcat(s: seq<Extent>, t: seq<Extent>, ed: Edit, x: nat)
    ensures Dropped(s + t, ed, x) == Dropped(s, ed, x) + Dropped(t, ed, x)
  {
    if s == [] {
      assert s + t == t;
    } else {
      assert (s + t)[1..] == s[1..] + t;
      DroppedConcat(s[1..], t, ed, x);
    }
  }

  lemma ReindexedConcat(n1: seq<Extent>, o1: seq<Extent>, n2: seq<Extent>, o2: seq<Extent>, ed: Edit)
    requires Reindexed(n1, o1, ed) && Reindexed(n2, o2, ed)
    ensures Reindexed(n1 + n2, o1 + o2, ed)
  {
    forall b: nat
      ensures Lookup(n1 + n2, b) == if ed.Src(b).Some? then Lookup(o1 + o2, ed.Src(b).value) else None
    {
      LookupConcat(n1, n2, b);
      if ed.Src(b).Some? {
        LookupConcat(o1, o2, ed.Src(b).value);
      }
    }
  }

  lemma EditOfConcat(n1: seq<Extent>, o1: seq<Extent>, f1: seq<Range>,
                     n2: seq<Extent>, o2: seq<Extent>, f2: seq<Range>, ed: Edit)
    requires EditOf(n1, o1, ed, f1) && EditOf(n2, o2, ed, f2) && |f2| <= 1
    ensures EditOf(n1 + n2, o1 + o2, ed, f1 + f2)
  {
    hide Reindexed, Lookup, Dropped;
    ReindexedConcat(n1, o1, n2, o2, ed);
    TotalConcat(n1, n2);
    TotalConcat(o1, o2);
    RangesConcat(f1, f2, 0);
    forall x: nat
      ensures Uses(o1 + o2, x) == Uses(n1 + n2, x) + RangeUses(f1 + f2, x)
      ensures RangeUses(f1 + f2, x) == Dropped(o1 + o2, ed, x)
    {
      UsesConcat(n1, n2, x);
      UsesConcat(o1, o2, x);
      DroppedConcat(o1, o2, ed, x);
      RangesConcat(f1, f2, x);
    }
  }

  lemma RangesConcat(f1: seq<Range>, f2: seq<Range>, x: nat)
    requires |f2| <= 1
    ensures RangeUses(f1 + f2, x) == RangeUses(f1, x) + RangeUses(f2, x)
    ensures RangeTotal(f1 + f2) == RangeTotal(f1) + RangeTotal(f2)
  {
    if f2 == [] {
      assert f1 + f2 == f1;
    } else {
      RangeSnoc(f1, f2[0], x);
      RangeSnoc([], f2[0], x);
      assert f2 == [f2[0]] == [] + [f2[0]];
    }
  }

  lemma AscendingConcat(s: seq<Extent>, t: seq<Extent>, lo: nat, mid: nat, mid': nat, hi: nat)
    requires Ascending(s) && Ascending(t) && Between(s, lo, mid) && Between(t, mid', hi)
    requires lo <= mid <= mid' <= hi
    ensures Ascending(s + t) && Between(s + t, lo, hi)
  {
    var u := s + t;
    forall i, j | 0 <= i < j < |u| && !u[i].Empty() && !u[j].Empty() ensures u[i].End() <= u[j].block {
      if i < |s| <= j {
        assert u[i] == s[i] && u[j] == t[j - |s|];
      }
    }
  }

  // ---------- one extent ----------

  datatype Cutting = Cutting(pieces: seq<Extent>, freed: seq<Range>)

  function Part(e: Extent, from: nat, len: nat, to: nat): Extent
    requires e.block <= from
  {
    Extent(to, len, e.start + (from - e.block), e.unwritten)
  }

  function PunchCut(lo: nat, hi: nat, e: Extent): Cutting
    requires lo < hi
  {
    if e.End() <= lo || e.block >= hi then Cutting([e], [])
    else if e.block >= lo && e.End() <= hi then Cutting([CLEARED], [Range(e.start, e.Len())])
    else if e.block < lo && e.End() > hi then
      Cutting([e.(rawLen := lo - e.block), Part(e, hi, e.End() - hi, hi)],
              [Range(e.start + (lo - e.block), hi - lo)])
    else if e.block < lo then
      Cutting([e.(rawLen := lo - e.block)], [Range(e.start + (lo - e.block), e.End() - lo)])
    else
      Cutting([Part(e, hi, e.End() - hi, hi)], [Range(e.start, hi - e.block)])
  }

  function TruncateCut(n: nat, e: Extent): Cutting {
    if e.block >= n then Cutting([CLEARED], [Range(e.start, e.Len())])
    else if e.End() > n then Cutting([e.(rawLen := n - e.block)], [Range(e.start + (n - e.block), e.End() - n)])
    else Cutting([e], [])
  }

  function CollapseCut(lo: nat, hi: nat, e: Extent): Cutting
    requires lo < hi
  {
    if e.End() <= lo then Cutting([e], [])
    else if e.block >= hi then Cutting([Part(e, e.block, e.Len(), e.block - (hi - lo))], [])
    else if e.block < lo && e.End() > hi then
      Cutting([Part(e, e.block, lo - e.block, e.block), Part(e, hi, e.End() - hi, lo)],
              [Range(e.start + (lo - e.block), hi - lo)])
    else if e.block < lo then
      Cutting([Part(e, e.block, lo - e.block, e.block)], [Range(e.start + (lo - e.block), e.End() - lo)])
    else if e.End() > hi then
      Cutting([Part(e, hi, e.End() - hi, lo)], [Range(e.start, hi - e.block)])
    else Cutting([], [Range(e.start, e.Len())])
  }

  function InsertCut(at: nat, len: nat, e: Extent): Cutting {
    if e.End() <= at then Cutting([e], [])
    else if e.block >= at then Cutting([Part(e, e.block, e.Len(), e.block + len)], [])
    else Cutting([Part(e, e.block, at - e.block, e.block), Part(e, at, e.End() - at, at + len)], [])
  }

  /** What each loop makes of one non-empty extent. */
  function Cut(ed: Edit, e: Extent): Cutting
    requires WellFormedEdit(ed)
  {
    match ed
    case Punch(lo, hi) => PunchCut(lo, hi, e)
    case Truncate(n) => TruncateCut(n, e)
    case Collapse(lo, hi) => CollapseCut(lo, hi, e)
    case Insert(at, len) => InsertCut(at, len, e)
  }

  ghost predicate ReindexedAt(c: Cutting, e: Extent, ed: Edit, b: nat) {
    Lookup(c.pieces, b) == if ed.Src(b).Some? then Lookup([e], ed.Src(b).value) else None
  }

  lemma PunchReindexes(lo: nat, hi: nat, e: Extent, b: nat)
    requires !e.Empty() && lo < hi
    ensures ReindexedAt(PunchCut(lo, hi, e), e, Punch(lo, hi), b)
  {
    hide Lookup;
    LookupShort(PunchCut(lo, hi, e).pieces, b);
    LookupShort([e], b);
  }

  lemma TruncateReindexes(n: nat, e: Extent, b: nat)
    requires !e.Empty()
    ensures ReindexedAt(TruncateCut(n, e), e, Truncate(n), b)
  {
    hide Lookup;
    LookupShort(TruncateCut(n, e).pieces, b);
    LookupShort([e], b);
  }

  lemma CollapseReindexes(lo: nat, hi: nat, e: Extent, b: nat)
    requires !e.Empty() && lo < hi
    ensures ReindexedAt(CollapseCut(lo, hi, e), e, Collapse(lo, hi), b)
  {
    hide Lookup;
    LookupShort(CollapseCut(lo, hi, e).pieces, b);
    LookupShort([e], if b < lo then b else b + (hi - lo));
  }

  lemma InsertReindexes(at: nat, len: nat, e: Extent, b: nat)
    requires !e.Empty()
    ensures ReindexedAt(InsertCut(at, len, e), e, Insert(at, len), b)
  {
    hide Lookup;
    LookupShort(InsertCut(at, len, e).pieces, b);
    if b >= at + len {
      LookupShort([e], b - len);
    } else {
      LookupShort([e], b);
    }
  }

  lemma CutReindexes(ed: Edit, e: Extent)
    requires !e.Empty() && WellFormedEdit(ed)
    ensures Reindexed(Cut(ed, e).pieces, [e], ed)
  {
    hide Lookup, PunchCut, TruncateCut, CollapseCut, InsertCut;
    forall b: nat
      ensures Lookup(Cut(ed, e).pieces, b) == if ed.Src(b).Some? then Lookup([e], ed.Src(b).value) else None
    {
      assert ReindexedAt(Cut(ed, e), e, ed, b) by {
        match ed
        case Punch(lo, hi) => PunchReindexes(lo, hi, e, b);
        case Truncate(n) => TruncateReindexes(n, e, b);
        case Collapse(lo, hi) => CollapseReindexes(lo, hi, e, b);
        case Insert(at, len) => InsertReindexes(at, len, e, b);
      }
    }
  }

  lemma LookupShort(p: seq<Extent>, b: nat)
    requires |p| <= 2
    ensures Lookup(p, b) ==
      if |p| > 0 && p[0].Covers(b) then Some(p[0].At(b))
      else if |p| > 1 && p[1].Covers(b) then Some(p[1].At(b)) else None
  {
    if |p| == 2 {
      assert p[1..] == [p[1]];
      LookupOne(p[1], b);
    } else if |p| == 1 {
      assert p == [p[0]];
      LookupOne(p[0], b);
    }
  }

  lemma UsesShort(p: seq<Extent>, x: nat)
    requires |p| <= 2
    ensures Uses(p, x) == (if |p| > 0 then p[0].Uses(x) else 0) + if |p| > 1 then p[1].Uses(x) else 0
    ensures Total(p) == (if |p| > 0 then p[0].Size() else 0) + if |p| > 1 then p[1].Size() else 0
  {
    if |p| == 2 {
      assert p[1..] == [p[1]];
      UsesOne(p[1], x);
      TotalOne(p[1]);
    } else if |p| == 1 {
      assert p == [p[0]];
      UsesOne(p[0], x);
      TotalOne(p[0]);
    }
  }

  lemma RangesShort(f: seq<Range>, x: nat)
    requires |f| <= 1
    ensures RangeUses(f, x) == if |f| > 0 && InRun(x, f[0].start, f[0].len) then 1 else 0
    ensures RangeTotal(f) == if |f| > 0 then f[0].len else 0
  {
    if |f| == 1 {
      assert f == [] + [f[0]];
      RangeSnoc([], f[0], x);
    }
  }

  lemma DroppedOne(e: Extent, ed: Edit, x: nat)
    ensures Dropped([e], ed, x) == if e.Uses(x) == 1 && ed.Removes(e.block + (x - e.start)) then 1 else 0
  {
    assert [e][1..] == [];
  }

  ghost predicate ConservedAt(c: Cutting, e: Extent, ed: Edit, x: nat) {
    && Uses([e], x) == Uses(c.pieces, x) + RangeUses(c.freed, x)
    && RangeUses(c.freed, x) == Dropped([e], ed, x)
    && Total([e]) == Total(c.pieces) + RangeTotal(c.freed)
  }

  lemma PunchConserves(lo: nat, hi: nat, e: Extent, x: nat)
    requires !e.Empty() && lo < hi
    ensures ConservedAt(PunchCut(lo, hi, e), e, Punch(lo, hi), x)
  {
    hide Uses, RangeUses, Total, RangeTotal, Dropped;
    var c := PunchCut(lo, hi, e);
    UsesShort(c.pieces, x);
    UsesShort([e], x);
    RangesShort(c.freed, x);
    DroppedOne(e, Punch(lo, hi), x);
  }

  lemma TruncateConserves(n: nat, e: Extent, x: nat)
    requires !e.Empty()
    ensures ConservedAt(TruncateCut(n, e), e, Truncate(n), x)
  {
    hide Uses, RangeUses, Total, RangeTotal, Dropped;
    var c := TruncateCut(n, e);
    UsesShort(c.pieces, x);
    UsesShort([e], x);
    RangesShort(c.freed, x);
    DroppedOne(e, Truncate(n), x);
  }

  lemma CollapseConserves(lo: nat, hi: nat, e: Extent, x: nat)
    requires !e.Empty() && lo < hi
    ensures ConservedAt(CollapseCut(lo, hi, e), e, Collapse(lo, hi), x)
  {
    hide Uses, RangeUses, Total, RangeTotal, Dropped;
    var c := CollapseCut(lo, hi, e);
    UsesShort(c.pieces, x);
    UsesShort([e], x);
    RangesShort(c.freed, x);
    DroppedOne(e, Collapse(lo, hi), x);
  }

  lemma InsertConserves(at: nat, len: nat, e: Extent, x: nat)
    requires !e.Empty()
    ensures ConservedAt(InsertCut(at, len, e), e, Insert(at, len), x)
  {
    hide Uses, RangeUses, Total, RangeTotal, Dropped;
    var c := InsertCut(at, len, e);
    UsesShort(c.pieces, x);
    UsesShort([e], x);
    RangesShort(c.freed, x);
    DroppedOne(e, Insert(at, len), x);
  }

  lemma CutConserves(ed: Edit, e: Extent, x: nat)
    requires !e.Empty() && WellFormedEdit(ed)
    ensures ConservedAt(Cut(ed, e), e, ed, x)
  {
    hide ConservedAt, PunchCut, TruncateCut, CollapseCut, InsertCut;
    match ed
    case Punch(lo, hi) => PunchConserves(lo, hi, e, x);
    case Truncate(n) => TruncateConserves(n, e, x);
    case Collapse(lo, hi) => CollapseConserves(lo, hi, e, x);
    case Insert(at, len) => InsertConserves(at, len, e, x);
  }

  lemma CutPlaces(ed: Edit, e: Extent)
    requires !e.Empty() && WellFormedEdit(ed)
    ensures var c := Cut(ed, e);
      && Ascending(c.pieces) && Between(c.pieces, ed.Moved(e.block), ed.Moved(e.End()))
      && |c.pieces| <= 2 && |c.freed| <= 1
  {
    hide Ascending, Between;
    CutOrder(ed, e);
  }

  lemma CutOrder(ed: Edit, e: Extent)
    requires !e.Empty() && WellFormedEdit(ed)
    ensures Ascending(Cut(ed, e).pieces) && Between(Cut(ed, e).pieces, ed.Moved(e.block), ed.Moved(e.End()))
  {
    hide PunchCut, TruncateCut, CollapseCut, InsertCut;
    match ed
    case Punch(lo, hi) => PunchOrder(lo, hi, e);
    case Truncate(n) => TruncateOrder(n, e);
    case Collapse(lo, hi) => CollapseOrder(lo, hi, e);
    case Insert(at, len) => InsertOrder(at, len, e);
  }

  lemma PunchOrder(lo: nat, hi: nat, e: Extent)
    requires !e.Empty() && lo < hi
    ensures Ascending(PunchCut(lo, hi, e).pieces) && Between(PunchCut(lo, hi, e).pieces, e.block, e.End())
  {
  }

  lemma TruncateOrder(n: nat, e: Extent)
    requires !e.Empty()
    ensures Ascending(TruncateCut(n, e).pieces) && Between(TruncateCut(n, e).pieces, Truncate(n).Moved(e.block), Truncate(n).Moved(e.End()))
  {
  }

  lemma CollapseOrder(lo: nat, hi: nat, e: Extent)
    requires !e.Empty() && lo < hi
    ensures var ed := Collapse(lo, hi);
      Ascending(CollapseCut(lo, hi, e).pieces) && Between(CollapseCut(lo, hi, e).pieces, ed.Moved(e.block), ed.Moved(e.End()))
  {
  }

  lemma InsertOrder(at: nat, len: nat, e: Extent)
    requires !e.Empty()
    ensures var ed := Insert(at, len);
      Ascending(InsertCut(at, len, e).pieces) && Between(InsertCut(at, len, e).pieces, ed.Moved(e.block), ed.Moved(e.End()))
  {
  }

  lemma CutIsEdit(ed: Edit, e: Extent)
    requires !e.Empty() && WellFormedEdit(ed)
    ensures EditOf(Cut(ed, e).pieces, [e], ed, Cut(ed, e).freed)
  {
    hide Reindexed, Lookup, Uses, Dropped, RangeUses, Cut, RangeTotal, Total;
    CutReindexes(ed, e);
    CutConserves(ed, e, 0);
    CutPlaces(ed, e);
    forall x: nat
      ensures Uses([e], x) == Uses(Cut(ed, e).pieces, x) + RangeUses(Cut(ed, e).freed, x)
      ensures RangeUses(Cut(ed, e).freed, x) == Dropped([e], ed, x)
    {
      CutConserves(ed, e, x);
    }
  }

  // ---------- the loops ----------

  function Limit(s: seq<Extent>): nat {
    if s == [] then 0 else s[|s| - 1].End()
  }

  /** What every loop keeps: the part done so far is the edited form of the part read so far. */
  ghost predicate Progress(done: seq<Extent>, before: seq<Extent>, ed: Edit, freed: seq<Range>) {
    && EditOf(done, before, ed, freed)
    && Ascending(done) && Between(done, 0, ed.Moved(Limit(before)))
  }

  lemma ProgressStart(ed: Edit)
    ensures Progress([], [], ed, [])
  {
  }

  lemma ProgressStep(done: seq<Extent>, all: seq<Extent>, k: nat, ed: Edit, freed: seq<Range>)
    requires Canonical(all) && k < |all| && WellFormedEdit(ed)
    requires Progress(done, all[..k], ed, freed)
    ensures Progress(done + Cut(ed, all[k]).pieces, all[..k + 1], ed, freed + Cut(ed, all[k]).freed)
  {
    hide EditOf, Cut;
    var e := all[k];
    var c := Cut(ed, e);
    CutIsEdit(ed, e);
    CutPlaces(ed, e);
    assert all[..k + 1] == all[..k] + [e];
    EditOfConcat(done, all[..k], freed, c.pieces, [e], c.freed, ed);
    var lim := Limit(all[..k]);
    assert lim <= e.block;
    AscendingConcat(done, c.pieces, 0, ed.Moved(lim), ed.Moved(e.block), ed.Moved(e.End()));
  }

  lemma ProgressDone(done: seq<Extent>, before: seq<Extent>, ed: Edit, freed: seq<Range>)
    requires Progress(done, before, ed, freed)
    ensures EditOf(done, before, ed, freed) && Ascending(done)
  {
  }

  /** The list each loop leaves: the pieces of every extent, in order. */
  ghost function CutAll(s: seq<Extent>, ed: Edit): seq<Extent>
    requires WellFormedEdit(ed)
  {
    if s == [] then [] else CutAll(s[..|s| - 1], ed) + Cut(ed, s[|s| - 1]).pieces
  }

  lemma CutOneMore(all: seq<Extent>, k: nat, ed: Edit)
    requires WellFormedEdit(ed) && k < |all|
    ensures CutAll(all[..k + 1], ed) == CutAll(all[..k], ed) + Cut(ed, all[k]).pieces
  {
    hide Cut;
    assert all[..k + 1][..k] == all[..k];
  }

  /** Where the edit may split an extent; truncating splits none. */
  function SplitPoint(ed: Edit): nat {
    match ed
    case Punch(lo, hi) => lo
    case Truncate(n) => 0
    case Collapse(lo, hi) => lo
    case Insert(at, len) => at
  }

  lemma CutSize(ed: Edit, e: Extent)
    requires WellFormedEdit(ed)
    ensures |Cut(ed, e).pieces| <= if e.block < SplitPoint(ed) < e.End() then 2 else 1
  {
  }

  /** No edit makes more than one extent more, and truncating makes none. */
  lemma {:induction false} CutAllSize(s: seq<Extent>, ed: Edit)
    requires Canonical(s) && WellFormedEdit(ed)
    ensures |CutAll(s, ed)| <= |s| + if SplitPoint(ed) < Limit(s) then 1 else 0
    ensures ed.Truncate? ==> |CutAll(s, ed)| <= |s|
  {
    hide Cut;
    if s != [] {
      var n := |s| - 1;
      CutAllSize(s[..n], ed);
      CutSize(ed, s[n]);
      if n > 0 {
        assert s[n - 1].End() <= s[n].block;
      }
    }
  }

  lemma CutPieces(ed: Edit, e: Extent)
    requires WellFormedEdit(ed) && !e.Empty() && (ed.Punch? || ed.Truncate?)
    ensures var p := Cut(ed, e).pieces;
      && 1 <= |p| <= 2 && (|p| == 2 ==> p[1].block > 0)
      && forall k :: 0 <= k < |p| ==> if p[k].Empty() then p[k].block == 0 else p[k].block >= e.block
  {
  }

  /** Punching and truncating leave cleared records only, each at block 0. */
  lemma {:induction false} CutAllTidy(s: seq<Extent>, ed: Edit)
    requires Canonical(s) && WellFormedEdit(ed) && (ed.Punch? || ed.Truncate?)
    ensures EmptiesAtZero(CutAll(s, ed)) && (s != [] ==> CutAll(s, ed) != [])
    ensures forall k :: 0 < k < |CutAll(s, ed)| && !CutAll(s, ed)[k].Empty() ==> CutAll(s, ed)[k].block > 0
  {
    hide Cut;
    if s != [] {
      var n := |s| - 1;
      var a, p := CutAll(s[..n], ed), Cut(ed, s[n]).pieces;
      CutAllTidy(s[..n], ed);
      CutPieces(ed, s[n]);
      if n > 0 {
        assert s[0].End() <= s[n].block;
      } else {
        assert a == [];
      }
      var t := a + p;
      forall k | 0 <= k < |t|
        ensures t[k].Empty() ==> t[k].block == 0
        ensures k > 0 && !t[k].Empty() ==> t[k].block > 0
      {
        if k >= |a| {
          assert t[k] == p[k - |a|];
        }
      }
    }
  }

  lemma SolidPieces(ed: Edit, e: Extent)
    requires WellFormedEdit(ed) && !e.Empty() && (ed.Collapse? || ed.Insert?)
    ensures NoEmpties(Cut(ed, e).pieces)
  {
  }

  /** Collapsing and inserting rebuild the list without an empty record. */
  lemma {:induction false} CutAllSolid(s: seq<Extent>, ed: Edit)
    requires NoEmpties(s) && WellFormedEdit(ed) && (ed.Collapse? || ed.Insert?)
    ensures NoEmpties(CutAll(s, ed))
  {
    hide Cut;
    if s != [] {
      CutAllSolid(s[..|s| - 1], ed);
      SolidPieces(ed, s[|s| - 1]);
    }
  }

  /** The extent loop of simplefs_fallocate_punch_hole. */
  method PunchExtents(buf: ExtentBuffer, lo: nat, hi: nat) returns (freed: seq<Range>, blocksFreed: nat)
    requires Canonical(buf.extents) && lo < hi
    modifies buf`extents
    ensures EditOf(buf.extents, old(buf.extents), Punch(lo, hi), freed)
    ensures Ascending(buf.extents) && blocksFreed == RangeTotal(freed)
    ensures buf.extents == CutAll(old(buf.extents), Punch(lo, hi))
  {
    hide Progress, EditOf, Ascending, NoEmpties, RangeTotal, CutAll;
    NoneCut(Punch(lo, hi));
    freed, blocksFreed := [], 0;
    ghost var all := buf.extents;
    ghost var k := 0;
    var i := 0;
    ProgressStart(Punch(lo, hi));
    NoRanges();
    assert buf.extents[..0] == [] && all[..0] == [];
    while i < |buf.extents|
      invariant 0 <= k <= |all| && 0 <= i <= |buf.extents|
      invariant buf.extents[i..] == all[k..]
      invariant Progress(buf.extents[..i], all[..k], Punch(lo, hi), freed)
      invariant buf.extents[..i] == CutAll(all[..k], Punch(lo, hi))
      invariant blocksFreed == RangeTotal(freed)
      decreases |all| - k
    {
      var e := buf.extents[i];
      ghost var done, rest := buf.extents[..i], buf.extents[i + 1..];
      assert e == all[k] by { assert buf.extents[i..][0] == all[k..][0]; }
      assert rest == all[k + 1..] by { assert buf.extents[i..][1..] == all[k..][1..]; }
      ProgressStep(done, all, k, Punch(lo, hi), freed);
      CutOneMore(all, k, Punch(lo, hi));
      ghost var c := Cut(Punch(lo, hi), e);
      RangesAdd(freed, c.freed);
      ghost var was := freed;
      if e.End() <= lo || e.block >= hi {
      } else if e.block >= lo && e.End() <= hi {
        freed := freed + [Range(e.start, e.Len())];
        blocksFreed := blocksFreed + e.Len();
        buf.extents := buf.extents[i := CLEARED];
      } else if e.block < lo && e.End() > hi {
        var headLen, midLen, tailLen := lo - e.block, hi - lo, e.End() - hi;
        freed := freed + [Range(e.start + headLen, midLen)];
        blocksFreed := blocksFreed + midLen;
        buf.extents := buf.extents[i := e.(rawLen := headLen)];
        var tail := Extent(hi, tailLen, e.start + headLen + midLen, e.unwritten);
        buf.InsertExtent(i + 1, tail);
        i := i + 1;
      } else if e.block < lo {
        var keep := lo - e.block;
        freed := freed + [Range(e.start + keep, e.Len() - keep)];
        blocksFreed := blocksFreed + (e.Len() - keep);
        buf.extents := buf.extents[i := e.(rawLen := keep)];
      } else {
        var skip := hi - e.block;
        freed := freed + [Range(e.start, skip)];
        blocksFreed := blocksFreed + skip;
        buf.extents := buf.extents[i := e.(block := hi, start := e.start + skip, rawLen := e.Len() - skip)];
      }
      i := i + 1;
      k := k + 1;
      assert freed == was + c.freed;
      assert buf.extents[..i] == done + c.pieces && buf.extents[i..] == rest;
    }
    assert buf.extents[..i] == buf.extents && all[..k] == all;
    ProgressDone(buf.extents, all, Punch(lo, hi), freed);
  }

  /** The extent loop of simplefs_truncate. */
  method TruncateExtents(buf: ExtentBuffer, n: nat) returns (freed: seq<Range>, blocksFreed: nat)
    requires Canonical(buf.extents)
    modifies buf`extents
    ensures EditOf(buf.extents, old(buf.extents), Truncate(n), freed)
    ensures Ascending(buf.extents) && blocksFreed == RangeTotal(freed)
    ensures buf.extents == CutAll(old(buf.extents), Truncate(n))
  {
    hide Progress, EditOf, Ascending, NoEmpties, RangeTotal, CutAll;
    NoneCut(Truncate(n));
    freed, blocksFreed := [], 0;
    ghost var all := buf.extents;
    var i := 0;
    ProgressStart(Truncate(n));
    NoRanges();
    assert buf.extents[..0] == [] && all[..0] == [];
    while i < |buf.extents|
      invariant 0 <= i <= |buf.extents| == |all|
      invariant buf.extents[i..] == all[i..]
      invariant Progress(buf.extents[..i], all[..i], Truncate(n), freed)
      invariant buf.extents[..i] == CutAll(all[..i], Truncate(n))
      invariant blocksFreed == RangeTotal(freed)
    {
      var e := buf.extents[i];
      ghost var done, rest, was := buf.extents[..i], buf.extents[i + 1..], freed;
      assert e == all[i] by { assert buf.extents[i..][0] == all[i..][0]; }
      assert rest == all[i + 1..] by { assert buf.extents[i..][1..] == all[i..][1..]; }
      ProgressStep(done, all, i, Truncate(n), freed);
      CutOneMore(all, i, Truncate(n));
      ghost var c := Cut(Truncate(n), e);
      RangesAdd(freed, c.freed);
      if e.block >= n {
        freed := freed + [Range(e.start, e.Len())];
        blocksFreed := blocksFreed + e.Len();
        buf.extents := buf.extents[i := CLEARED];
      } else if e.End() > n {
        var keep := n - e.block;
        freed := freed + [Range(e.start + keep, e.Len() - keep)];
        blocksFreed := blocksFreed + (e.Len() - keep);
        buf.extents := buf.extents[i := e.(rawLen := keep)];
      }
      i := i + 1;
      assert freed == was + c.freed;
      assert buf.extents[..i] == done + c.pieces && buf.extents[i..] == rest;
    }
    assert buf.extents[..i] == buf.extents && all[..i] == all;
    ProgressDone(buf.extents, all, Truncate(n), freed);
  }

  /** simplefs_append_extent_slice */
  function Slice(s: seq<Extent>, src: Extent, logical: nat, len: nat, phys: nat): seq<Extent> {
    if len == 0 then s else s + [Extent(logical, len, phys, src.unwritten)]
  }

  /** The rebuild loop of simplefs_fallocate_collapse. */
  method CollapseExtents(buf: ExtentBuffer, lo: nat, hi: nat)
      returns (rebuilt: seq<Extent>, freed: seq<Range>, blocksFreed: nat)
    requires Canonical(buf.extents) && lo < hi
    ensures EditOf(rebuilt, buf.extents, Collapse(lo, hi), freed)
    ensures Ascending(rebuilt) && blocksFreed == RangeTotal(freed)
    ensures rebuilt == CutAll(buf.extents, Collapse(lo, hi))
  {
    hide Progress, EditOf, Ascending, RangeTotal, CutAll;
    NoneCut(Collapse(lo, hi));
    rebuilt, freed, blocksFreed := [], [], 0;
    var n := hi - lo;
    var i := 0;
    ProgressStart(Collapse(lo, hi));
    NoRanges();
    assert buf.extents[..0] == [];
    while i < |buf.extents|
      invariant 0 <= i <= |buf.extents|
      invariant Progress(rebuilt, buf.extents[..i], Collapse(lo, hi), freed)
      invariant rebuilt == CutAll(buf.extents[..i], Collapse(lo, hi))
      invariant blocksFreed == RangeTotal(freed)
    {
      var e := buf.extents[i];
      ghost var done, was := rebuilt, freed;
      ProgressStep(done, buf.extents, i, Collapse(lo, hi), freed);
      CutOneMore(buf.extents, i, Collapse(lo, hi));
      ghost var c := Cut(Collapse(lo, hi), e);
      RangesAdd(freed, c.freed);
      if e.End() <= lo {
        rebuilt := rebuilt + [e];
      } else if e.block >= hi {
        rebuilt := Slice(rebuilt, e, e.block - n, e.Len(), e.start);
      } else {
        if e.block < lo {
          rebuilt := Slice(rebuilt, e, e.block, lo - e.block, e.start);
        }
        var os := if e.block > lo then e.block else lo;
        var oe := if e.End() < hi then e.End() else hi;
        if oe > os {
          freed := freed + [Range(e.start + (os - e.block), oe - os)];
          blocksFreed := blocksFreed + (oe - os);
        }
        if e.End() > hi {
          rebuilt := Slice(rebuilt, e, hi - n, e.End() - hi, e.start + (hi - e.block));
        }
      }
      i := i + 1;
      assert freed == was + c.freed;
      assert rebuilt == done + c.pieces;
    }
    assert buf.extents[..i] == buf.extents;
    ProgressDone(rebuilt, buf.extents, Collapse(lo, hi), freed);
  }

  /** The rebuild loop of simplefs_fallocate_insert. */
  method InsertExtents(buf: ExtentBuffer, at: nat, len: nat) returns (rebuilt: seq<Extent>)
    requires Canonical(buf.extents)
    ensures EditOf(rebuilt, buf.extents, Insert(at, len), [])
    ensures Ascending(rebuilt) && rebuilt == CutAll(buf.extents, Insert(at, len))
  {
    hide Progress, EditOf, Ascending, CutAll;
    NoneCut(Insert(at, len));
    rebuilt := [];
    var i := 0;
    ProgressStart(Insert(at, len));
    assert buf.extents[..0] == [];
    while i < |buf.extents|
      invariant 0 <= i <= |buf.extents|
      invariant Progress(rebuilt, buf.extents[..i], Insert(at, len), [])
      invariant rebuilt == CutAll(buf.extents[..i], Insert(at, len))
    {
      var e := buf.extents[i];
      ghost var done := rebuilt;
      ProgressStep(done, buf.extents, i, Insert(at, len), []);
      CutOneMore(buf.extents, i, Insert(at, len));
      ghost var c := Cut(Insert(at, len), e);
      if e.End() <= at {
        rebuilt := rebuilt + [e];
      } else if e.block >= at {
        rebuilt := Slice(rebuilt, e, e.block + len, e.Len(), e.start);
      } else {
        rebuilt := Slice(rebuilt, e, e.block, at - e.block, e.start);
        rebuilt := Slice(rebuilt, e, at + len, e.End() - at, e.start + (at - e.block));
      }
      i := i + 1;
      assert c.freed == [] && [] + c.freed == c.freed;
      assert rebuilt == done + c.pieces;
    }
    assert buf.extents[..i] == buf.extents;
    ProgressDone(rebuilt, buf.extents, Insert(at, len), []);
  }

  lemma NoneCut(ed: Edit)
    requires WellFormedEdit(ed)
    ensures CutAll([], ed) == []
  {
  }

  lemma NoRanges()
    ensures RangeTotal([]) == 0
  {
  }

  lemma RangesAdd(f1: seq<Range>, f2: seq<Range>)
    requires |f2| <= 1
    ensures RangeTotal(f1 + f2) == RangeTotal(f1) + if f2 == [] then 0 else f2[0].len
  {
    RangesConcat(f1, f2, 0);
    RangesShort(f2, 0);
  }

  // ---------- what the edits mean together ----------

  /** A freed block is exactly one that some removed logical block was mapped to. */
  lemma FreedIsRemovedImage(after: seq<Extent>, before: seq<Extent>, ed: Edit, freed: seq<Range>, x: nat)
    requires Canonical(before) && EditOf(after, before, ed, freed)
    ensures RangeUses(freed, x) > 0 <==>
      exists b: nat :: ed.Removes(b) && Lookup(before, b).Some? && Lookup(before, b).value.phys == x
  {
    hide EditOf, Lookup;
    assert RangeUses(freed, x) == Dropped(before, ed, x) by { EditDrops(after, before, ed, freed, x); }
    if Dropped(before, ed, x) > 0 {
      var i := DroppedWitness(before, ed, x);
      var b := before[i].block + (x - before[i].start);
      LookupAt(before, i, b);
      assert ed.Removes(b) && Lookup(before, b).Some? && Lookup(before, b).value.phys == x;
    }
    if b: nat :| ed.Removes(b) && Lookup(before, b).Some? && Lookup(before, b).value.phys == x {
      var i := LookupWitness(before, b);
      DroppedAt(before, ed, x, i);
    }
  }

  lemma EditDrops(after: seq<Extent>, before: seq<Extent>, ed: Edit, freed: seq<Range>, x: nat)
    requires EditOf(after, before, ed, freed)
    ensures RangeUses(freed, x) == Dropped(before, ed, x)
  {
  }

  lemma {:induction false} DroppedWitness(s: seq<Extent>, ed: Edit, x: nat) returns (i: nat)
    requires Dropped(s, ed, x) > 0
    ensures i < |s| && s[i].Uses(x) == 1 && ed.Removes(s[i].block + (x - s[i].start))
  {
    if s[0].Uses(x) == 1 && ed.Removes(s[0].block + (x - s[0].start)) {
      i := 0;
    } else {
      i := DroppedWitness(s[1..], ed, x);
      i := i + 1;
    }
  }

  lemma {:induction false} DroppedAt(s: seq<Extent>, ed: Edit, x: nat, i: nat)
    requires i < |s| && s[i].Uses(x) == 1 && ed.Removes(s[i].block + (x - s[i].start))
    ensures Dropped(s, ed, x) > 0
  {
    if i > 0 {
      DroppedAt(s[1..], ed, x, i - 1);
    }
  }

  /** Inserting a gap and collapsing it again shows the original file, and frees nothing. */
  lemma InsertThenCollapse(s: seq<Extent>, t: seq<Extent>, u: seq<Extent>, at: nat, len: nat, freed: seq<Range>)
    requires len > 0 && Canonical(t)
    requires EditOf(t, s, Insert(at, len), []) && EditOf(u, t, Collapse(at, at + len), freed)
    ensures SameMeaning(s, u) && RangeTotal(freed) == 0
  {
    forall b: nat ensures Lookup(u, b) == Lookup(s, b) {
      assert Collapse(at, at + len).Src(b) == Some(if b < at then b else b + len);
    }
    forall x: nat ensures RangeUses(freed, x) == 0 {
      FreedIsRemovedImage(u, t, Collapse(at, at + len), freed, x);
      forall b: nat | Collapse(at, at + len).Removes(b) ensures Lookup(t, b).None? {
        assert Insert(at, len).Src(b).None?;
      }
    }
    forall x: nat ensures RangeUses([], x) == 0 {}
    SameUsesSameTotal(freed, []);
  }

  /** Collapsing a range and re-inserting a gap there is punching it, frees included. */
  lemma CollapseThenInsertIsPunch(s: seq<Extent>, t: seq<Extent>, u: seq<Extent>, p: seq<Extent>,
                                  lo: nat, hi: nat, f: seq<Range>, g: seq<Range>)
    requires lo < hi
    requires EditOf(t, s, Collapse(lo, hi), f) && EditOf(u, t, Insert(lo, hi - lo), [])
    requires EditOf(p, s, Punch(lo, hi), g)
    ensures SameMeaning(u, p)
    ensures forall x: nat :: RangeUses(f, x) == RangeUses(g, x)
  {
    forall b: nat ensures Lookup(u, b) == Lookup(p, b) {
      assert Insert(lo, hi - lo).Src(b) ==
        if b < lo then Some(b) else if b < hi then None else Some(b - (hi - lo));
    }
    forall x: nat
      ensures RangeUses(f, x) == RangeUses(g, x) && Uses(u, x) == Uses(p, x)
    {
      SameRangeSameDrops(s, lo, hi, x);
      NoRangeUses(x);
    }
    SameUsesSameTotal(f, g);
  }

  // Block-by-block equality of two range lists gives equality of their totals.

  function SumUses(rs: seq<Range>, n: nat): nat {
    if n == 0 then 0 else SumUses(rs, n - 1) + RangeUses(rs, n - 1)
  }

  function Clip(r: Range, n: nat): nat {
    if n <= r.start then 0 else if n - r.start < r.len then n - r.start else r.len
  }

  function Bound(rs: seq<Range>): nat {
    if rs == [] then 0
    else
      var last := rs[|rs| - 1];
      if last.start + last.len > Bound(rs[..|rs| - 1]) then last.start + last.len else Bound(rs[..|rs| - 1])
  }

  lemma {:induction false} SumUsesSnoc(rs: seq<Range>, n: nat)
    requires rs != []
    ensures SumUses(rs, n) == SumUses(rs[..|rs| - 1], n) + Clip(rs[|rs| - 1], n)
  {
    if n > 0 {
      SumUsesSnoc(rs, n - 1);
    }
  }

  lemma {:induction false} SumUsesIsTotal(rs: seq<Range>, n: nat)
    requires Bound(rs) <= n
    ensures SumUses(rs, n) == RangeTotal(rs)
  {
    if rs == [] {
      NoSum(n);
    } else {
      SumUsesSnoc(rs, n);
      SumUsesIsTotal(rs[..|rs| - 1], n);
    }
  }

  lemma {:induction false} NoSum(n: nat)
    ensures SumUses([], n) == 0
  {
    if n > 0 {
      NoSum(n - 1);
    }
  }

  lemma {:induction false} SameSums(f: seq<Range>, g: seq<Range>, n: nat)
    requires forall x: nat :: RangeUses(f, x) == RangeUses(g, x)
    ensures SumUses(f, n) == SumUses(g, n)
  {
    if n > 0 {
      SameSums(f, g, n - 1);
    }
  }

  lemma SameUsesSameTotal(f: seq<Range>, g: seq<Range>)
    requires forall x: nat :: RangeUses(f, x) == RangeUses(g, x)
    ensures RangeTotal(f) == RangeTotal(g)
  {
    hide RangeUses, SumUses;
    var n := Bound(f) + Bound(g);
    SumUsesIsTotal(f, n);
    SumUsesIsTotal(g, n);
    SameSums(f, g, n);
  }

  lemma NoRangeUses(x: nat)
    ensures RangeUses([], x) == 0
  {
  }

  lemma {:induction false} SameRangeSameDrops(s: seq<Extent>, lo: nat, hi: nat, x: nat)
    ensures Dropped(s, Collapse(lo, hi), x) == Dropped(s, Punch(lo, hi), x)
  {
    if s != [] {
      SameRangeSameDrops(s[1..], lo, hi, x);
    }
  }
}
