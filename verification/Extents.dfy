/** Failure-aware results shared by the whole model. */
module Wrappers {
  datatype Option<+T> = None | Some(value: T)

  /** The negative errno values the modelled code returns. */
  datatype Errno =
    | EIO | EINVAL | EFSCORRUPTED | EFBIG | ENOSPC | EUCLEAN | EROFS
    | ENOENT | EEXIST | ENAMETOOLONG | ENOTEMPTY | ENOTDIR | EISDIR
    | ENODATA | ERANGE | E2BIG

  datatype Result<+T> = Ok(value: T) | Err(error: Errno)
}

/**
 * Extent records and what a list of them means (simplefs.h).
 *
 * A list denotes a partial map from logical block to location, given by `Lookup`, and
 * it uses physical block x exactly `Uses(s, x)` times, `Total(s)` blocks in all.
 * Everything the project says about extent surgery is said about these functions.
 */
module Extents {
  import opened Wrappers

  const MAX_EXTENT_BLOCKS: nat := 8192

  /** Where a mapped logical block lives, and whether reading it must return zeros. */
  datatype Loc = Loc(phys: nat, unwritten: bool)

  /** `rawLen` is the low 31 bits of ee_len and `unwritten` its high bit. */
  datatype Extent = Extent(block: nat, rawLen: nat, start: nat, unwritten: bool) {
    function Len(): nat {
      if rawLen > MAX_EXTENT_BLOCKS then MAX_EXTENT_BLOCKS else rawLen
    }

    function End(): nat {
      block + Len()
    }

    predicate Empty() {
      start == 0 || Len() == 0
    }

    predicate Covers(b: nat) {
      !Empty() && block <= b < End()
    }

    function At(b: nat): Loc
      requires Covers(b)
    {
      Loc(start + (b - block), unwritten)
    }

    /** How often this extent uses physical block x: 0 or 1. */
    function Uses(x: nat): nat {
      if !Empty() && InRun(x, start, Len()) then 1 else 0
    }

    function Size(): nat {
      if Empty() then 0 else Len()
    }
  }

  /** The record simplefs_extent_clear leaves behind. */
  const CLEARED := Extent(0, 0, 0, false)

  datatype Range = Range(start: nat, len: nat)

  function Lookup(s: seq<Extent>, b: nat): Option<Loc> {
    if s == [] then None
    else if s[0].Covers(b) then Some(s[0].At(b))
    else Lookup(s[1..], b)
  }

  predicate InRun(x: nat, start: nat, len: nat) {
    start <= x < start + len
  }

  function Uses(s: seq<Extent>, x: nat): nat {
    if s == [] then 0 else s[0].Uses(x) + Uses(s[1..], x)
  }

  function Total(s: seq<Extent>): nat {
    if s == [] then 0 else s[0].Size() + Total(s[1..])
  }

  function RangeUses(rs: seq<Range>, x: nat): nat {
    if rs == [] then 0
    else RangeUses(rs[..|rs| - 1], x) + if InRun(x, rs[|rs| - 1].start, rs[|rs| - 1].len) then 1 else 0
  }

  function RangeTotal(rs: seq<Range>): nat {
    if rs == [] then 0 else RangeTotal(rs[..|rs| - 1]) + rs[|rs| - 1].len
  }

  /** No logical block is covered twice. */
  ghost predicate Disjoint(s: seq<Extent>) {
    forall i, j :: 0 <= i < j < |s| && !s[i].Empty() && !s[j].Empty() ==>
      s[i].End() <= s[j].block || s[j].End() <= s[i].block
  }

  /** Ascending and disjoint, ignoring cleared records. */
  ghost predicate Ascending(s: seq<Extent>) {
    forall i, j :: 0 <= i < j < |s| && !s[i].Empty() && !s[j].Empty() ==> s[i].End() <= s[j].block
  }

  ghost predicate NoEmpties(s: seq<Extent>) {
    forall i :: 0 <= i < |s| ==> !s[i].Empty()
  }

  /** What a published extent list looks like. */
  ghost predicate Canonical(s: seq<Extent>) {
    NoEmpties(s) && Ascending(s)
  }

  // ---------- lists ----------

  lemma {:induction false} LookupConcat(s: seq<Extent>, t: seq<Extent>, b: nat)
    ensures Lookup(s + t, b) == if Lookup(s, b).Some? then Lookup(s, b) else Lookup(t, b)
  {
    if s == [] {
      assert s + t == t;
    } else {
      assert (s + t)[1..] == s[1..] + t;
      LookupConcat(s[1..], t, b);
    }
  }

  lemma {:induction false} UsesConcat(s: seq<Extent>, t: seq<Extent>, x: nat)
    ensures Uses(s + t, x) == Uses(s, x) + Uses(t, x)
  {
    if s == [] {
      assert s + t == t;
    } else {
      assert (s + t)[1..] == s[1..] + t;
      UsesConcat(s[1..], t, x);
    }
  }

  lemma {:induction false} TotalConcat(s: seq<Extent>, t: seq<Extent>)
    ensures Total(s + t) == Total(s) + Total(t)
  {
    if s == [] {
      assert s + t == t;
    } else {
      assert (s + t)[1..] == s[1..] + t;
      TotalConcat(s[1..], t);
    }
  }

  lemma UsesOne(e: Extent, x: nat)
    ensures Uses([e], x) == e.Uses(x)
  {
    assert [e][1..] == [];
  }

  lemma TotalOne(e: Extent)
    ensures Total([e]) == e.Size()
  {
    assert [e][1..] == [];
  }

  lemma RangeSnoc(rs: seq<Range>, r: Range, x: nat)
    ensures RangeUses(rs + [r], x) == RangeUses(rs, x) + if InRun(x, r.start, r.len) then 1 else 0
    ensures RangeTotal(rs + [r]) == RangeTotal(rs) + r.len
  {
    assert (rs + [r])[..|rs|] == rs;
  }

  lemma LookupOne(e: Extent, b: nat)
    ensures Lookup([e], b) == if e.Covers(b) then Some(e.At(b)) else None
  {
  }

  /** A hit names the extent that covers the block, and a miss means none does. */
  lemma {:induction false} LookupWitness(s: seq<Extent>, b: nat) returns (i: nat)
    ensures Lookup(s, b).Some? ==> i < |s| && s[i].Covers(b) && Lookup(s, b) == Some(s[i].At(b))
    ensures Lookup(s, b).None? ==> forall k :: 0 <= k < |s| ==> !s[k].Covers(b)
  {
    if s == [] || s[0].Covers(b) {
      i := 0;
    } else {
      var j := LookupWitness(s[1..], b);
      i := j + 1;
      if Lookup(s, b).None? {
        forall k | 0 <= k < |s| ensures !s[k].Covers(b) {
          if k > 0 {
            assert s[k] == s[1..][k - 1];
          }
        }
      }
    }
  }

  lemma LookupAt(s: seq<Extent>, i: nat, b: nat)
    requires Disjoint(s) && i < |s| && s[i].Covers(b)
    ensures Lookup(s, b) == Some(s[i].At(b))
  {
    var j := LookupWitness(s, b);
  }

  lemma LookupMiss(s: seq<Extent>, b: nat)
    requires forall k :: 0 <= k < |s| ==> !s[k].Covers(b)
    ensures Lookup(s, b).None?
  {
    var j := LookupWitness(s, b);
  }

  /** Two lists over the same records mean the same thing, whatever their order. */
  lemma SameRecordsSameMeaning(s: seq<Extent>, t: seq<Extent>, b: nat)
    requires Disjoint(s) && Disjoint(t)
    requires forall k :: 0 <= k < |s| && !s[k].Empty() ==> s[k] in t
    requires forall k :: 0 <= k < |t| && !t[k].Empty() ==> t[k] in s
    ensures Lookup(s, b) == Lookup(t, b)
  {
    var i := LookupWitness(s, b);
    var j := LookupWitness(t, b);
    if Lookup(s, b).Some? {
      var k :| 0 <= k < |t| && t[k] == s[i];
      LookupAt(t, k, b);
    }
  }

  lemma {:induction false} UsesBound(s: seq<Extent>, x: nat, i: nat)
    requires i < |s|
    ensures s[i].Uses(x) <= Uses(s, x)
  {
    if i > 0 {
      UsesBound(s[1..], x, i - 1);
    }
  }

  /** A used block lies in some extent of the list. */
  lemma {:induction false} UsesWitness(s: seq<Extent>, x: nat) returns (i: nat)
    requires Uses(s, x) > 0
    ensures i < |s| && s[i].Uses(x) == 1
  {
    if s[0].Uses(x) == 1 {
      i := 0;
    } else {
      i := UsesWitness(s[1..], x);
      i := i + 1;
    }
  }
}
