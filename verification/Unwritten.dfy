/**
 * Switching blocks between written and unwritten (simplefs_file.c): splitting one extent
 * around the switched part, and the rescanning loop that converts a whole range.
 */
module Unwritten {
  import opened Wrappers
  import opened Extents
  import opened ExtentBuffers

  /** `after` is `before` with the blocks of [lo, hi) that are mapped switched to `flag`. */
  ghost predicate Flagged(after: seq<Extent>, before: seq<Extent>, lo: nat, hi: nat, flag: bool) {
    && (forall b: nat :: Lookup(after, b) == Switched(Lookup(before, b), lo <= b < hi, flag))
    && (forall x: nat :: Uses(after, x) == Uses(before, x))
    && Total(after) == Total(before)
  }

  function Switched(l: Option<Loc>, inside: bool, flag: bool): Option<Loc> {
    if l.Some? && inside then Some(Loc(l.value.phys, flag)) else l
  }

  function Min(a: nat, b: nat): nat {
    if a < b then a else b
  }

  /** The one to three extents that replace e when [iblock, iblock + mapLen) is switched. */
  function FlagCut(e: Extent, iblock: nat, mapLen: nat, flag: bool): seq<Extent>
    requires e.block <= iblock < e.End()
  {
    var head := iblock - e.block;
    var len := Min(mapLen, e.Len() - head);
    var tail := e.Len() - head - len;
    (if head > 0 then [Extent(e.block, head, e.start, e.unwritten)] else []) +
    [Extent(iblock, len, e.start + head, flag)] +
    (if tail > 0 then [Extent(iblock + len, tail, e.start + head + len, e.unwritten)] else [])
  }

  lemma LookupThree(a: seq<Extent>, m: Extent, c: seq<Extent>, b: nat)
    requires |a| <= 1 && |c| <= 1
    ensures Lookup(a + [m] + c, b) ==
      if |a| > 0 && a[0].Covers(b) then Some(a[0].At(b))
      else if m.Covers(b) then Some(m.At(b))
      else if |c| > 0 && c[0].Covers(b) then Some(c[0].At(b)) else None
  {
    LookupConcat(a + [m], c, b);
    LookupConcat(a, [m], b);
    LookupOne(m, b);
    if |a| > 0 {
      LookupOne(a[0], b);
      assert a == [a[0]];
    }
    if |c| > 0 {
      LookupOne(c[0], b);
      assert c == [c[0]];
    }
  }

  lemma UsesThree(a: seq<Extent>, m: Extent, c: seq<Extent>, x: nat)
    requires |a| <= 1 && |c| <= 1
    ensures Uses(a + [m] + c, x) == (if |a| > 0 then a[0].Uses(x) else 0) + m.Uses(x) + if |c| > 0 then c[0].Uses(x) else 0
    ensures Total(a + [m] + c) == (if |a| > 0 then a[0].Size() else 0) + m.Size() + if |c| > 0 then c[0].Size() else 0
  {
    UsesConcat(a + [m], c, x);
    UsesConcat(a, [m], x);
    TotalConcat(a + [m], c);
    TotalConcat(a, [m]);
    UsesOne(m, x);
    TotalOne(m);
    if |a| > 0 {
      assert a == [a[0]];
    }
    if |c| > 0 {
      assert c == [c[0]];
    }
  }

  lemma FlagCutLookup(e: Extent, iblock: nat, mapLen: nat, flag: bool, b: nat)
    requires !e.Empty() && e.block <= iblock < e.End() && mapLen > 0
    ensures Lookup(FlagCut(e, iblock, mapLen, flag), b) ==
      Switched(Lookup([e], b), iblock <= b < Min(iblock + mapLen, e.End()), flag)
  {
    hide Lookup;
    var head := iblock - e.block;
    var len := Min(mapLen, e.Len() - head);
    var tail := e.Len() - head - len;
    LookupThree(if head > 0 then [Extent(e.block, head, e.start, e.unwritten)] else [],
                Extent(iblock, len, e.start + head, flag),
                if tail > 0 then [Extent(iblock + len, tail, e.start + head + len, e.unwritten)] else [], b);
    LookupThree([], e, [], b);
    assert [] + [e] + [] == [e];
  }

  lemma FlagCutUses(e: Extent, iblock: nat, mapLen: nat, flag: bool, x: nat)
    requires !e.Empty() && e.block <= iblock < e.End() && mapLen > 0
    ensures Uses(FlagCut(e, iblock, mapLen, flag), x) == Uses([e], x)
    ensures Total(FlagCut(e, iblock, mapLen, flag)) == Total([e])
  {
    hide Uses, Total;
    var head := iblock - e.block;
    var len := Min(mapLen, e.Len() - head);
    var tail := e.Len() - head - len;
    UsesThree(if head > 0 then [Extent(e.block, head, e.start, e.unwritten)] else [],
              Extent(iblock, len, e.start + head, flag),
              if tail > 0 then [Extent(iblock + len, tail, e.start + head + len, e.unwritten)] else [], x);
    UsesThree([], e, [], x);
    assert [] + [e] + [] == [e];
  }

  lemma FlagCutCanonical(e: Extent, iblock: nat, mapLen: nat, flag: bool)
    requires !e.Empty() && e.block <= iblock < e.End() && mapLen > 0
    ensures var p := FlagCut(e, iblock, mapLen, flag);
      Canonical(p) && forall i :: 0 <= i < |p| ==> e.block <= p[i].block && p[i].End() <= e.End()
  {
  }

  /** Replacing one extent of a canonical list by canonical pieces inside its span. */
  lemma ReplaceCanonical(s: seq<Extent>, i: nat, p: seq<Extent>)
    requires Canonical(s) && i < |s| && Canonical(p)
    requires forall k :: 0 <= k < |p| ==> s[i].block <= p[k].block && p[k].End() <= s[i].End()
    ensures Canonical(s[..i] + p + s[i + 1..])
  {
    var t := s[..i] + p + s[i + 1..];
    assert forall k :: 0 <= k < |t| ==>
      t[k] == if k < i then s[k] else if k < i + |p| then p[k - i] else s[k - |p| + 1];
    forall k, j | 0 <= k < j < |t| ensures t[k].End() <= t[j].block {
      if k < i {
        assert s[k].End() <= s[i].block;
      } else if j >= i + |p| {
        assert s[i].End() <= s[j - |p| + 1].block;
      }
    }
  }

  /** One switch, seen from the whole list. */
  lemma FlagStep(s: seq<Extent>, i: nat, iblock: nat, mapLen: nat, flag: bool)
    requires Canonical(s) && i < |s| && s[i].block <= iblock < s[i].End() && mapLen > 0
    ensures var t := s[..i] + FlagCut(s[i], iblock, mapLen, flag) + s[i + 1..];
      Canonical(t) && Flagged(t, s, iblock, Min(iblock + mapLen, s[i].End()), flag)
  {
    hide FlagCut, Lookup, Uses, Total, Switched;
    var e := s[i];
    var p := FlagCut(e, iblock, mapLen, flag);
    var t := s[..i] + p + s[i + 1..];
    assert s == s[..i] + [e] + s[i + 1..];
    FlagCutCanonical(e, iblock, mapLen, flag);
    ReplaceCanonical(s, i, p);
    FlagCutUses(e, iblock, mapLen, flag, 0);
    UsesAround(s[..i], p, [e], s[i + 1..], 0);
    forall x: nat ensures Uses(t, x) == Uses(s, x) {
      FlagCutUses(e, iblock, mapLen, flag, x);
      UsesAround(s[..i], p, [e], s[i + 1..], x);
    }
    forall b: nat
      ensures Lookup(t, b) == Switched(Lookup(s, b), iblock <= b < Min(iblock + mapLen, e.End()), flag)
    {
      FlagStepAt(s, i, iblock, mapLen, flag, b);
    }
  }

  lemma FlagStepAt(s: seq<Extent>, i: nat, iblock: nat, mapLen: nat, flag: bool, b: nat)
    requires Canonical(s) && i < |s| && s[i].block <= iblock < s[i].End() && mapLen > 0
    ensures Lookup(s[..i] + FlagCut(s[i], iblock, mapLen, flag) + s[i + 1..], b) ==
      Switched(Lookup(s, b), iblock <= b < Min(iblock + mapLen, s[i].End()), flag)
  {
    hide FlagCut, Lookup;
    var e := s[i];
    assert s == s[..i] + [e] + s[i + 1..];
    FlagCutLookup(e, iblock, mapLen, flag, b);
    LookupAround(s[..i], FlagCut(e, iblock, mapLen, flag), s[i + 1..], b);
    LookupAround(s[..i], [e], s[i + 1..], b);
    LookupOne(e, b);
    if e.Covers(b) {
      LookupMiss(s[..i], b);
    }
  }

  lemma UsesAround(a: seq<Extent>, p: seq<Extent>, q: seq<Extent>, c: seq<Extent>, x: nat)
    requires Uses(p, x) == Uses(q, x) && Total(p) == Total(q)
    ensures Uses(a + p + c, x) == Uses(a + q + c, x) && Total(a + p + c) == Total(a + q + c)
  {
    UsesConcat(a + p, c, x);
    UsesConcat(a + q, c, x);
    UsesConcat(a, p, x);
    UsesConcat(a, q, x);
    TotalConcat(a + p, c);
    TotalConcat(a + q, c);
    TotalConcat(a, p);
    TotalConcat(a, q);
  }

  lemma LookupAround(a: seq<Extent>, p: seq<Extent>, c: seq<Extent>, b: nat)
    ensures Lookup(a + p + c, b) ==
      if Lookup(a, b).Some? then Lookup(a, b) else if Lookup(p, b).Some? then Lookup(p, b) else Lookup(c, b)
  {
    LookupConcat(a + p, c, b);
    LookupConcat(a, p, b);
  }

  /** simplefs_convert_unwritten_extent (flag false) and simplefs_mark_unwritten_extent (true). */
  method FlagExtent(buf: ExtentBuffer, idx: nat, iblock: nat, mapLen: nat, flag: bool)
    requires idx < |buf.extents| && buf.extents[idx].block <= iblock < buf.extents[idx].End()
    modifies buf`extents
    ensures buf.extents ==
      if old(buf.extents)[idx].unwritten == flag then old(buf.extents)
      else old(buf.extents)[..idx] + FlagCut(old(buf.extents)[idx], iblock, mapLen, flag) + old(buf.extents)[idx + 1..]
  {
    var orig := buf.extents[idx];
    var at := idx;
    if orig.unwritten == flag {
      return;
    }
    hide FlagCut;
    ghost var pre, post := buf.extents[..idx], buf.extents[idx + 1..];
    var headLen := iblock - orig.block;
    var len := Min(mapLen, orig.Len() - headLen);
    var tailLen := orig.Len() - headLen - len;
    var mid := Extent(iblock, len, orig.start + headLen, false);
    ReplaceAt(buf.extents, idx, mid);
    buf.extents := buf.extents[idx := mid];
    ghost var before, after := pre, post;
    if headLen > 0 {
      var head := Extent(orig.block, headLen, orig.start, !flag);
      InsertFront(pre, mid, post, head);
      buf.InsertExtent(at, head);
      at := at + 1;
      before := pre + [head];
    }
    assert buf.extents == before + [mid] + post && |before| == at;
    if tailLen > 0 {
      var tail := Extent(iblock + len, tailLen, orig.start + headLen + len, !flag);
      InsertBehind(before, mid, post, tail);
      buf.InsertExtent(at + 1, tail);
      after := [tail] + post;
    }
    assert buf.extents == before + [mid] + after;
    UpdateBetween(before, mid, after, mid.(unwritten := flag));
    buf.extents := buf.extents[at := buf.extents[at].(unwritten := flag)];
    FlagPieces(orig, iblock, mapLen, flag);
    Assembled(pre, headLen, Extent(orig.block, headLen, orig.start, !flag), mid.(unwritten := flag), tailLen,
              Extent(iblock + len, tailLen, orig.start + headLen + len, !flag), post);
  }

  lemma ReplaceAt(s: seq<Extent>, idx: nat, m: Extent)
    requires idx < |s|
    ensures s[idx := m] == s[..idx] + [m] + s[idx + 1..]
  {
  }

  lemma InsertFront(a: seq<Extent>, m: Extent, c: seq<Extent>, e: Extent)
    ensures var s := a + [m] + c; s[..|a|] + [e] + s[|a|..] == (a + [e]) + [m] + c
  {
    var s := a + [m] + c;
    assert s[..|a|] == a && s[|a|..] == [m] + c;
  }

  lemma InsertBehind(a: seq<Extent>, m: Extent, c: seq<Extent>, e: Extent)
    ensures var s := a + [m] + c; s[..|a| + 1] + [e] + s[|a| + 1..] == a + [m] + ([e] + c)
  {
    var s := a + [m] + c;
    assert s[..|a| + 1] == a + [m] && s[|a| + 1..] == c;
  }

  lemma UpdateBetween(a: seq<Extent>, m: Extent, c: seq<Extent>, m': Extent)
    ensures (a + [m] + c)[|a|] == m && (a + [m] + c)[|a| := m'] == a + [m'] + c
  {
  }

  lemma Assembled(pre: seq<Extent>, headLen: nat, head: Extent, m: Extent, tailLen: nat, tail: Extent, post: seq<Extent>)
    ensures (if headLen > 0 then pre + [head] else pre) + [m] + (if tailLen > 0 then [tail] + post else post) ==
      pre + ((if headLen > 0 then [head] else []) + [m] + (if tailLen > 0 then [tail] else [])) + post
  {
  }

  lemma FlagPieces(e: Extent, iblock: nat, mapLen: nat, flag: bool)
    requires e.block <= iblock < e.End() && e.unwritten != flag
    ensures var head := iblock - e.block;
      var len := Min(mapLen, e.Len() - head);
      var tail := e.Len() - head - len;
      FlagCut(e, iblock, mapLen, flag) ==
        (if head > 0 then [Extent(e.block, head, e.start, !flag)] else []) + [Extent(iblock, len, e.start + head, flag)] +
        (if tail > 0 then [Extent(iblock + len, tail, e.start + head + len, !flag)] else [])
  {
  }

  // ---------- converting a range ----------

  /** Nothing of e is left to convert in [lo, hi). */
  predicate Converted(e: Extent, lo: nat, hi: nat) {
    !e.unwritten || e.End() <= lo || e.block >= hi
  }

  /** How many unwritten blocks of [lo, hi) are left: what each conversion uses up. */
  function Left(s: seq<Extent>, lo: nat, hi: nat): nat {
    if s == [] then 0 else LeftOf(s[0], lo, hi) + Left(s[1..], lo, hi)
  }

  function LeftOf(e: Extent, lo: nat, hi: nat): nat {
    if Converted(e, lo, hi) then 0
    else
      var from := if e.block > lo then e.block else lo;
      var to := Min(e.End(), hi);
      if from < to then to - from else 0
  }

  lemma {:induction false} LeftConcat(s: seq<Extent>, t: seq<Extent>, lo: nat, hi: nat)
    ensures Left(s + t, lo, hi) == Left(s, lo, hi) + Left(t, lo, hi)
  {
    if s == [] {
      assert s + t == t;
    } else {
      assert (s + t)[1..] == s[1..] + t;
      LeftConcat(s[1..], t, lo, hi);
    }
  }

  /** Some blocks of [lo, hi) have been switched from unwritten to written, nothing else changed. */
  ghost predicate PartlyWritten(after: seq<Extent>, before: seq<Extent>, lo: nat, hi: nat) {
    && (forall b: nat :: Lookup(after, b) == Lookup(before, b)
                         || Lookup(after, b) == Switched(Lookup(before, b), lo <= b < hi, false))
    && (forall x: nat :: Uses(after, x) == Uses(before, x))
    && Total(after) == Total(before)
  }

  lemma ConvertStep(orig: seq<Extent>, s: seq<Extent>, i: nat, lo: nat, hi: nat)
    requires lo < hi && Canonical(s) && i < |s| && PartlyWritten(s, orig, lo, hi) && !Converted(s[i], lo, hi)
    ensures var from := if s[i].block > lo then s[i].block else lo;
      var t := s[..i] + FlagCut(s[i], from, Min(s[i].End(), hi) - from, false) + s[i + 1..];
      && Canonical(t) && PartlyWritten(t, orig, lo, hi)
      && Left(t, lo, hi) < Left(s, lo, hi)
      && (i == 0 || Converted(s[0], lo, hi) ==> Converted(t[0], lo, hi))
  {
    hide FlagCut, Lookup, Left, Uses, Total;
    var e := s[i];
    var from := if e.block > lo then e.block else lo;
    var n := Min(e.End(), hi) - from;
    var p := FlagCut(e, from, n, false);
    FlagStep(s, i, from, n, false);
    FlagCutLeft(e, from, n, lo, hi);
    LeftConcat(s[..i] + p, s[i + 1..], lo, hi);
    LeftConcat(s[..i], p, lo, hi);
    LeftConcat(s[..i] + [e], s[i + 1..], lo, hi);
    LeftConcat(s[..i], [e], lo, hi);
    assert s == s[..i] + [e] + s[i + 1..];
  }

  lemma FlagCutLeft(e: Extent, from: nat, n: nat, lo: nat, hi: nat)
    requires lo < hi && !e.Empty() && !Converted(e, lo, hi)
    requires from == (if e.block > lo then e.block else lo) && n == Min(e.End(), hi) - from
    ensures var p := FlagCut(e, from, n, false);
      && p != [] && Converted(p[0], lo, hi)
      && Left(p, lo, hi) < Left([e], lo, hi)
  {
    var p := FlagCut(e, from, n, false);
    assert [e][1..] == [];
    assert LeftOf(e, lo, hi) == n > 0;
    assert forall k :: 0 <= k < |p| ==> LeftOf(p[k], lo, hi) == 0;
    NothingLeft(p, lo, hi);
  }

  lemma {:induction false} NothingLeft(p: seq<Extent>, lo: nat, hi: nat)
    requires forall k :: 0 <= k < |p| ==> LeftOf(p[k], lo, hi) == 0
    ensures Left(p, lo, hi) == 0
  {
    if p != [] {
      NothingLeft(p[1..], lo, hi);
    }
  }

  lemma ConvertDone(s: seq<Extent>, orig: seq<Extent>, lo: nat, hi: nat)
    requires Canonical(s) && PartlyWritten(s, orig, lo, hi)
    requires forall k :: 0 <= k < |s| ==> Converted(s[k], lo, hi)
    ensures Flagged(s, orig, lo, hi, false)
  {
    forall b: nat ensures Lookup(s, b) == Switched(Lookup(orig, b), lo <= b < hi, false) {
      var i := LookupWitness(s, b);
    }
  }

  lemma NonEmptyAt(s: seq<Extent>, i: nat)
    requires NoEmpties(s) && i < |s|
    ensures !s[i].Empty()
  {
  }

  lemma EmptyRange(s: seq<Extent>, lo: nat, hi: nat)
    requires lo >= hi
    ensures Flagged(s, s, lo, hi, false)
  {
  }

  lemma PartlyWrittenStart(s: seq<Extent>, lo: nat, hi: nat)
    ensures PartlyWritten(s, s, lo, hi)
  {
  }

  /**
   * The scan of simplefs_convert_unwritten_range.  After each conversion the loop sets its
   * index to 0 and the loop header moves it to 1, so position 0 is never looked at again.
   */
  method ConvertUnwrittenRange(buf: ExtentBuffer, lo: nat, hi: nat)
    requires Canonical(buf.extents)
    modifies buf`extents
    ensures Canonical(buf.extents) && Flagged(buf.extents, old(buf.extents), lo, hi, false)
  {
    hide PartlyWritten, Flagged, FlagCut, Left, NoEmpties, Ascending;
    PartlyWrittenStart(buf.extents, lo, hi);
    if lo >= hi {
      EmptyRange(buf.extents, lo, hi);
      return;
    }
    var i := 0;
    while i < |buf.extents|
      invariant Canonical(buf.extents) && PartlyWritten(buf.extents, old(buf.extents), lo, hi)
      invariant forall k :: 0 <= k < i && k < |buf.extents| ==> Converted(buf.extents[k], lo, hi)
      decreases Left(buf.extents, lo, hi), |buf.extents| - i
    {
      var e := buf.extents[i];
      if !e.unwritten || e.End() <= lo || e.block >= hi {
        i := i + 1;
        continue;
      }
      var mapStart := if e.block > lo then e.block else lo;
      var mapLen := Min(e.End(), hi) - mapStart;
      NonEmptyAt(buf.extents, i);
      ConvertStep(old(buf.extents), buf.extents, i, lo, hi);
      FlagExtent(buf, i, mapStart, mapLen, false);
      i := 0;
      i := i + 1;
    }
    ConvertDone(buf.extents, old(buf.extents), lo, hi);
  }
}
