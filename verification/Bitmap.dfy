/**
 * The block allocator (simplefs_bitmap.h): a free bitmap and its counter, a bitmap of
 * blocks waiting to be discarded, and blocks an open journal transaction still holds.
 */
module Bitmaps {
  import opened Wrappers
  import opened Extents

  ghost function RunSet(start: nat, len: nat): set<nat> {
    set x: nat | start <= x < start + len && InRun(x, start, len)
  }

  lemma {:induction false} RunSetSize(start: nat, len: nat)
    ensures |RunSet(start, len)| == len
  {
    if len == 0 {
      assert RunSet(start, 0) == {};
    } else {
      RunSetSize(start, len - 1);
      assert RunSet(start, len) == RunSet(start, len - 1) + {start + len - 1};
    }
  }

  lemma RemoveRun(free: set<nat>, start: nat, len: nat)
    requires RunSet(start, len) <= free
    ensures |free - RunSet(start, len)| == |free| - len
  {
    RunSetSize(start, len);
    assert free == (free - RunSet(start, len)) + RunSet(start, len);
  }

  lemma AddRun(free: set<nat>, start: nat, len: nat)
    requires RunSet(start, len) !! free
    ensures |free + RunSet(start, len)| == |free| + len
  {
    RunSetSize(start, len);
  }

  ghost predicate RunSetBits(s: seq<bool>, at: nat, len: nat) {
    at + len <= |s| && forall k :: at <= k < at + len ==> s[k]
  }

  ghost predicate SameExcept(s: seq<bool>, t: seq<bool>, at: nat, len: nat, v: bool) {
    && |s| == |t| && at + len <= |s|
    && forall k :: 0 <= k < |s| ==> t[k] == if InRun(k, at, len) then v else s[k]
  }

  /** find_next_bit: the first set bit at or after `from`, or the size. */
  method FindNextBit(bits: array<bool>, from: nat) returns (r: nat)
    requires from <= bits.Length
    ensures from <= r <= bits.Length
    ensures forall k :: from <= k < r ==> !bits[k]
    ensures r < bits.Length ==> bits[r]
  {
    r := from;
    while r < bits.Length && !bits[r]
      invariant from <= r <= bits.Length
      invariant forall k :: from <= k < r ==> !bits[k]
    {
      r := r + 1;
    }
  }

  /** bitmap_set and bitmap_clear */
  method WriteBits(bits: array<bool>, at: nat, len: nat, v: bool)
    requires at + len <= bits.Length
    modifies bits
    ensures SameExcept(old(bits[..]), bits[..], at, len, v)
  {
    var i := 0;
    while i < len
      invariant 0 <= i <= len
      invariant SameExcept(old(bits[..]), bits[..], at, i, v)
    {
      bits[at + i] := v;
      i := i + 1;
    }
  }

  /** `count` set bits end at prev, no longer run does, and nothing is set from there to bit. */
  ghost predicate RunEndsAt(s: seq<bool>, start: nat, prev: nat, count: nat, bit: nat) {
    && start <= bit <= |s|
    && (count == 0 ==> prev == 0 && forall k :: start <= k < bit ==> !s[k])
    && (count > 0 ==>
          && start + count <= prev + 1 <= bit
          && (forall k :: prev + 1 - count <= k <= prev ==> s[k])
          && (prev + 1 - count == start || !s[prev - count])
          && forall k :: prev < k < bit ==> !s[k])
  }

  ghost predicate NoRunBefore(s: seq<bool>, start: nat, len: nat, bit: nat) {
    forall at: nat :: start <= at && at + len <= bit ==> !RunSetBits(s, at, len)
  }

  lemma ExtendRun(s: seq<bool>, start: nat, prev: nat, count: nat, bit: nat, len: nat)
    requires bit < |s| && s[bit] && RunEndsAt(s, start, prev, count, bit)
    requires count < len && NoRunBefore(s, start, len, bit)
    ensures var c := if bit == 0 || prev != bit - 1 then 1 else count + 1;
      && RunEndsAt(s, start, bit, c, bit + 1)
      && (c < len ==> NoRunBefore(s, start, len, bit + 1))
      && (c == len ==> bit + 1 >= start + len && RunSetBits(s, bit + 1 - len, len))
  {
    var c := if bit == 0 || prev != bit - 1 then 1 else count + 1;
    if c < len {
      forall at: nat | start <= at && at + len <= bit + 1 ensures !RunSetBits(s, at, len) {
        if at + len == bit + 1 {
          assert !s[bit - c];
        }
      }
    }
  }

  lemma SkipClear(s: seq<bool>, start: nat, prev: nat, count: nat, bit: nat, bit': nat, len: nat)
    requires RunEndsAt(s, start, prev, count, bit) && NoRunBefore(s, start, len, bit) && count < len
    requires bit <= bit' <= |s| && forall k :: bit <= k < bit' ==> !s[k]
    ensures RunEndsAt(s, start, prev, count, bit') && NoRunBefore(s, start, len, bit')
  {
    forall at: nat | start <= at && at + len <= bit' ensures !RunSetBits(s, at, len) {
      if at + len > bit {
        assert !s[at + len - 1];
      }
    }
  }

  /**
   * get_first_free_bits_from: take the first run of len set bits at or after start.
   * The caller reserves bit 0, so 0 can mean that there is none.
   */
  method GetFirstFreeBitsFrom(bits: array<bool>, len: nat, start: nat) returns (r: nat)
    requires bits.Length > 0 && !bits[0] && start <= bits.Length
    modifies bits
    ensures r == 0 ==> bits[..] == old(bits[..])
    ensures r == 0 && len > 0 ==> NoRunBefore(old(bits[..]), start, len, bits.Length)
    ensures r > 0 ==> len > 0 && start <= r && RunSetBits(old(bits[..]), r, len)
                      && NoRunBefore(old(bits[..]), start, len, r + len - 1)
                      && SameExcept(old(bits[..]), bits[..], r, len, false)
  {
    hide RunEndsAt, NoRunBefore, RunSetBits;
    if len == 0 {
      return 0;
    }
    ghost var s := bits[..];
    var prev: nat, count: nat := 0, 0;
    var bit := FindNextBit(bits, start);
    assert RunEndsAt(s, start, prev, count, bit) && NoRunBefore(s, start, len, bit) by {
      NothingScanned(s, start, len);
      SkipClear(s, start, 0, 0, start, bit, len);
    }
    while bit < bits.Length
      invariant bits[..] == s
      invariant bit <= bits.Length && (bit < bits.Length ==> bits[bit])
      invariant RunEndsAt(s, start, prev, count, bit) && NoRunBefore(s, start, len, bit)
      invariant count < len
      decreases bits.Length - bit
    {
      ExtendRun(s, start, prev, count, bit, len);
      if bit == 0 || prev != bit - 1 {
        count := 0;
      }
      prev := bit;
      count := count + 1;
      if count == len {
        RunWithinBounds(s, bit + 1 - len, len);
        ReservedBit(s, bit + 1 - len, len);
        WriteBits(bits, bit + 1 - len, len, false);
        return bit + 1 - len;
      }
      var next := FindNextBit(bits, bit + 1);
      SkipClear(s, start, prev, count, bit + 1, next, len);
      bit := next;
    }
    return 0;
  }

  lemma NothingScanned(s: seq<bool>, start: nat, len: nat)
    requires start <= |s| && len > 0
    ensures RunEndsAt(s, start, 0, 0, start) && NoRunBefore(s, start, len, start)
  {
  }

  lemma RunWithinBounds(s: seq<bool>, at: nat, len: nat)
    requires RunSetBits(s, at, len)
    ensures at + len <= |s|
  {
  }

  lemma ReservedBit(s: seq<bool>, at: nat, len: nat)
    requires |s| > 0 && !s[0] && RunSetBits(s, at, len) && len > 0
    ensures at > 0
  {
  }

  // ---------- bitmaps as sets ----------

  ghost function BitSet(s: seq<bool>): set<nat> {
    set k: nat | k < |s| && s[k]
  }

  lemma ClearedBits(s: seq<bool>, t: seq<bool>, at: nat, len: nat)
    requires SameExcept(s, t, at, len, false)
    ensures BitSet(t) == BitSet(s) - RunSet(at, len) && |s| == |t|
    ensures forall k :: 0 <= k < |s| && t[k] ==> s[k]
    ensures RunSetBits(s, at, len) ==> RunSet(at, len) <= BitSet(s) && |BitSet(t)| == |BitSet(s)| - len
  {
    assert BitSet(t) == BitSet(s) - RunSet(at, len);
    if RunSetBits(s, at, len) {
      RemoveRun(BitSet(s), at, len);
    }
  }

  lemma SettledBits(s: seq<bool>, t: seq<bool>, at: nat, len: nat)
    requires SameExcept(s, t, at, len, true)
    ensures BitSet(t) == BitSet(s) + RunSet(at, len) && |s| == |t|
    ensures forall k :: 0 <= k < |s| && !InRun(k, at, len) && t[k] ==> s[k]
    ensures RunSet(at, len) !! BitSet(s) ==> |BitSet(t)| == |BitSet(s)| + len
  {
    assert BitSet(t) == BitSet(s) + RunSet(at, len);
    if RunSet(at, len) !! BitSet(s) {
      AddRun(BitSet(s), at, len);
    }
  }

  lemma Restored(s: seq<bool>, t: seq<bool>, u: seq<bool>, at: nat, len: nat)
    requires RunSetBits(s, at, len) && SameExcept(s, t, at, len, false) && SameExcept(t, u, at, len, true)
    ensures u == s
  {
  }

  /** A run that is free and that no journal transaction holds. */
  ghost predicate Usable(free: set<nat>, busy: set<nat>, at: nat, len: nat) {
    forall k :: at <= k < at + len ==> k in free && k !in busy
  }

  ghost predicate NoneUsableBefore(free: set<nat>, busy: set<nat>, len: nat, end: nat) {
    forall at: nat :: at < end ==> !Usable(free, busy, at, len)
  }

  lemma NotFreeNotUsable(free: set<nat>, busy: set<nat>, at: nat, len: nat)
    requires !(RunSet(at, len) <= free)
    ensures !Usable(free, busy, at, len)
  {
    var k :| k in RunSet(at, len) && k !in free;
  }

  lemma FreeIsUsable(free: set<nat>, busy: set<nat>, at: nat, len: nat)
    requires RunSet(at, len) <= free
    ensures Usable(free, busy, at, len) <==> !exists k :: at <= k < at + len && k in busy
  {
    forall k: nat | at <= k < at + len ensures k in free {
      assert k in RunSet(at, len);
    }
  }

  lemma UsableIsRun(s: seq<bool>, busy: set<nat>, at: nat, len: nat)
    requires Usable(BitSet(s), busy, at, len) && len > 0
    ensures RunSetBits(s, at, len)
  {
    assert at + len - 1 in BitSet(s);
    forall k | at <= k < at + len ensures s[k] {
      assert k in BitSet(s);
    }
  }

  lemma RejectCandidate(s: seq<bool>, busy: set<nat>, search: nat, r: nat, len: nat)
    requires NoneUsableBefore(BitSet(s), busy, len, search)
    requires search <= r && len > 0 && NoRunBefore(s, search, len, r + len - 1)
    ensures NoneUsableBefore(BitSet(s), busy, len, r)
    ensures !Usable(BitSet(s), busy, r, len) ==> NoneUsableBefore(BitSet(s), busy, len, r + 1)
  {
    forall at: nat | at < r ensures !Usable(BitSet(s), busy, at, len) {
      if Usable(BitSet(s), busy, at, len) {
        UsableIsRun(s, busy, at, len);
      }
    }
  }

  lemma NoCandidate(s: seq<bool>, busy: set<nat>, search: nat, len: nat)
    requires NoneUsableBefore(BitSet(s), busy, len, search)
    requires len > 0 && NoRunBefore(s, search, len, |s|)
    ensures forall at: nat :: !Usable(BitSet(s), busy, at, len)
  {
    forall at: nat ensures !Usable(BitSet(s), busy, at, len) {
      if Usable(BitSet(s), busy, at, len) {
        UsableIsRun(s, busy, at, len);
      }
    }
  }

  /** bitmap_weight */
  method BitmapWeight(bits: seq<bool>) returns (n: nat)
    ensures n == |BitSet(bits)|
  {
    n := 0;
    var i := 0;
    assert BitSet(bits[..0]) == {};
    while i < |bits|
      invariant 0 <= i <= |bits| && n == |BitSet(bits[..i])|
    {
      assert BitSet(bits[..i + 1]) == BitSet(bits[..i]) + if bits[i] then {i} else {};
      if bits[i] {
        n := n + 1;
      }
      i := i + 1;
    }
    assert bits[..i] == bits;
  }

  /** The test loops: whether every bit of the run has value v. */
  method BitsAre(bits: array<bool>, at: nat, len: nat, v: bool) returns (ok: bool)
    requires at + len <= bits.Length
    ensures ok <==> forall k :: at <= k < at + len ==> bits[k] == v
    ensures v ==> (ok <==> RunSet(at, len) <= BitSet(bits[..])) && (ok ==> RunSetBits(bits[..], at, len))
    ensures !v ==> (ok <==> RunSet(at, len) !! BitSet(bits[..]))
  {
    var i := 0;
    while i < len
      invariant 0 <= i <= len
      invariant forall k :: at <= k < at + i ==> bits[k] == v
    {
      if bits[at + i] != v {
        assert at + i in RunSet(at, len) && (at + i in BitSet(bits[..]) <==> !v);
        return false;
      }
      i := i + 1;
    }
    return true;
  }

  /** Block 0 is never free, the counter counts, and what waits to be discarded is free. */
  ghost predicate BitsOk(s: seq<bool>, p: seq<bool>, n: nat) {
    |s| > 0 && !s[0] && n == |BitSet(s)| && BitSet(p) <= BitSet(s)
  }

  lemma TakeKeepsBits(s: seq<bool>, s': seq<bool>, p: seq<bool>, p': seq<bool>, n: nat, at: nat, len: nat)
    requires BitsOk(s, p, n) && RunSetBits(s, at, len)
    requires SameExcept(s, s', at, len, false) && SameExcept(p, p', at, len, false)
    ensures n >= len && BitsOk(s', p', n - len)
    ensures BitSet(s') == BitSet(s) - RunSet(at, len) && BitSet(p') == BitSet(p) - RunSet(at, len)
  {
    hide RunSet, BitSet, RunSetBits;
    ClearedBits(s, s', at, len);
    ClearedBits(p, p', at, len);
  }

  lemma PutKeepsBits(s: seq<bool>, s': seq<bool>, p: seq<bool>, p': seq<bool>, n: nat, at: nat, len: nat, discard: bool)
    requires BitsOk(s, p, n) && RunSet(at, len) !! BitSet(s) && at > 0
    requires SameExcept(s, s', at, len, true) && (if discard then SameExcept(p, p', at, len, true) else p' == p)
    ensures BitsOk(s', p', n + len)
    ensures BitSet(s') == BitSet(s) + RunSet(at, len) && BitSet(p') == BitSet(p) + if discard then RunSet(at, len) else {}
  {
    hide RunSet, BitSet;
    SettledBits(s, s', at, len);
    if discard {
      SettledBits(p, p', at, len);
    }
  }

  /** The superblock state the allocator works on. */
  class SbInfo {
    const nrBlocks: nat
    /** First block after the fixed metadata: the extent root of the root directory. */
    const rootDirBlock: nat
    /** Bit set means free. */
    const bfree: array<bool>
    const pending: array<bool>
    const discard: bool
    /** Blocks a journal transaction still owns or has revoked. */
    var busy: set<nat>
    var nrFree: nat
    var shutdown: bool
    /** Outcomes of the journal writes to come, true for a failure; none left means success. */
    var faults: seq<bool>

    ghost predicate Valid()
      reads this, bfree, pending
    {
      && bfree.Length == nrBlocks && pending.Length == nrBlocks && bfree != pending
      && 0 < rootDirBlock < nrBlocks && BitsOk(bfree[..], pending[..], nrFree)
    }

    /** Not shut down, and no device fault to come. */
    ghost predicate Healthy()
      reads this
    {
      !shutdown && faults == []
    }

    ghost function Free(): set<nat>
      reads bfree
    {
      BitSet(bfree[..])
    }

    ghost function Pending(): set<nat>
      reads pending
    {
      BitSet(pending[..])
    }

    /** Whether the next journal operation fails. */
    method NextFault() returns (bad: bool)
      modifies this`faults
      ensures old(faults) == [] ==> !bad && faults == []
      ensures old(faults) != [] ==> bad == old(faults)[0] && faults == old(faults)[1..]
    {
      bad := faults != [] && faults[0];
      if faults != [] {
        faults := faults[1..];
      }
    }

    /** A journal write: on failure simplefs_journal_fail latches the shutdown state. */
    method Persist() returns (ok: bool)
      modifies this`faults, this`shutdown
      ensures shutdown == (old(shutdown) || !ok)
      ensures old(faults) == [] ==> ok && faults == []
      ensures old(faults) != [] ==> ok == !old(faults)[0] && faults == old(faults)[1..]
    {
      var bad := NextFault();
      ok := !bad;
      if bad {
        shutdown := true;
      }
    }

    /** simplefs_journal_prepare_new_blocks: -EAGAIN when some block is still held. */
    method PrepareNewBlocks(bno: nat, len: nat) returns (again: bool)
      ensures again <==> exists k :: bno <= k < bno + len && k in busy
    {
      var i := 0;
      while i < len
        invariant 0 <= i <= len
        invariant forall k :: bno <= k < bno + i ==> k !in busy
      {
        if bno + i in busy {
          return true;
        }
        i := i + 1;
      }
      return false;
    }
  
    constructor (rootDirBlock: nat, freeBits: seq<bool>, discard: bool)
      requires 0 < rootDirBlock < |freeBits| && !freeBits[0]
      ensures Valid() && nrBlocks == |freeBits| && this.rootDirBlock == rootDirBlock && this.discard == discard
      ensures Free() == BitSet(freeBits) && Pending() == {} && busy == {} && !shutdown && faults == []
      ensures fresh(bfree) && fresh(pending)
    {
      var weight := BitmapWeight(freeBits);
      nrBlocks := |freeBits|;
      this.rootDirBlock := rootDirBlock;
      this.discard := discard;
      bfree := new bool[|freeBits|](i requires 0 <= i < |freeBits| => freeBits[i]);
      pending := new bool[|freeBits|](_ => false);
      busy, nrFree, shutdown, faults := {}, weight, false, [];
      new;
      assert bfree[..] == freeBits;
      assert BitSet(pending[..]) == {};
    }

    /** simplefs_take_exact_blocks: this run or nothing. */
    method TakeExactBlocks(bno: nat, len: nat) returns (ok: bool)
      requires Valid()
      modifies this`nrFree, this`shutdown, this`faults, bfree, pending
      ensures Valid() && (old(shutdown) ==> shutdown)
      ensures old(faults) == [] ==> faults == [] && shutdown == old(shutdown)
      ensures ok ==> 0 < bno && 0 < len && bno + len <= nrBlocks && !shutdown
      ensures !shutdown ==> (ok <==> 0 < bno && 0 < len && bno + len <= nrBlocks && Usable(old(Free()), busy, bno, len))
      ensures ok ==> Free() == old(Free()) - RunSet(bno, len) && Pending() == old(Pending()) - RunSet(bno, len)
      ensures !ok && (!shutdown || old(shutdown)) ==> Free() == old(Free()) && Pending() == old(Pending())
      ensures shutdown && !old(shutdown) ==> !ok && Free() == old(Free()) - RunSet(bno, len)
    {
      hide SameExcept, Usable, RunSet, RunSetBits, BitSet, BitsOk;
      if bno == 0 || len == 0 || bno >= nrBlocks || len > nrBlocks - bno || shutdown {
        return false;
      }
      ghost var s, p := bfree[..], pending[..];
      var free := BitsAre(bfree, bno, len, true);
      if !free {
        NotFreeNotUsable(BitSet(s), busy, bno, len);
        return false;
      }
      FreeIsUsable(BitSet(s), busy, bno, len);
      WriteBits(bfree, bno, len, false);
      var again := PrepareNewBlocks(bno, len);
      if again {
        ghost var t := bfree[..];
        WriteBits(bfree, bno, len, true);
        Restored(s, t, bfree[..], bno, len);
        return false;
      }
      WriteBits(pending, bno, len, false);
      TakeKeepsBits(s, bfree[..], p, pending[..], nrFree, bno, len);
      nrFree := nrFree - len;
      ok := Persist();
    }

    /** Whether __simplefs_put_blocks accepts the run instead of warning and leaving it. */
    ghost predicate Freeable(bno: nat, len: nat)
      reads this, bfree
    {
      && !shutdown && 0 < bno && 0 < len && bno + len <= nrBlocks
      && !InRun(rootDirBlock, bno, len) && RunSet(bno, len) !! Free()
    }

    /** __simplefs_put_blocks */
    method PutBlocks(bno: nat, len: nat)
      requires Valid()
      modifies this`nrFree, this`shutdown, this`faults, bfree, pending
      ensures Valid() && (old(shutdown) ==> shutdown)
      ensures old(faults) == [] ==> faults == [] && shutdown == old(shutdown)
      ensures old(Freeable(bno, len)) ==>
          && Free() == old(Free()) + RunSet(bno, len)
          && Pending() == old(Pending()) + if discard then RunSet(bno, len) else {}
      ensures !old(Freeable(bno, len)) ==>
          Free() == old(Free()) && Pending() == old(Pending()) && shutdown == old(shutdown)
    {
      hide SameExcept, RunSet, BitSet, BitsOk;
      if shutdown {
        return;
      }
      if bno == 0 || len == 0 || bno >= nrBlocks || len > nrBlocks - bno {
        return;
      }
      if bno <= rootDirBlock < bno + len {
        return;
      }
      ghost var s, p := bfree[..], pending[..];
      var used := BitsAre(bfree, bno, len, false);
      if !used {
        return;
      }
      WriteBits(bfree, bno, len, true);
      nrFree := nrFree + len;
      if discard {
        WriteBits(pending, bno, len, true);
      }
      PutKeepsBits(s, bfree[..], p, pending[..], nrFree - len, bno, len, discard);
      var ok := Persist();
    }

    /** __simplefs_get_free_blocks: first-fit over the runs the journal does not hold. */
    method GetFreeBlocks(len: nat) returns (ret: nat)
      requires Valid()
      modifies this`nrFree, this`shutdown, this`faults, bfree, pending
      ensures Valid() && (old(shutdown) ==> shutdown)
      ensures old(faults) == [] ==> faults == [] && shutdown == old(shutdown)
      ensures ret > 0 ==>
          && len > 0 && !shutdown && ret + len <= nrBlocks && Usable(old(Free()), busy, ret, len)
          && NoneUsableBefore(old(Free()), busy, len, ret)
          && Free() == old(Free()) - RunSet(ret, len)
          && Pending() == old(Pending()) - RunSet(ret, len)
      ensures ret == 0 && (!shutdown || old(shutdown)) ==> Free() == old(Free()) && Pending() == old(Pending())
      ensures ret == 0 && !shutdown && len > 0 ==> forall at: nat :: !Usable(Free(), busy, at, len)
      ensures shutdown && !old(shutdown) ==>
          exists at: nat :: Free() == old(Free()) - RunSet(at, len)
    {
      hide NoneUsableBefore, NoRunBefore, RunSetBits, SameExcept, BitSet, BitsOk, RunSet, Usable;
      if shutdown || len == 0 {
        return 0;
      }
      ghost var s, p := bfree[..], pending[..];
      ReservedZero(s, p, nrFree);
      var search := 0;
      NothingBefore(BitSet(s), busy, len);
      while true
        invariant search <= nrBlocks && bfree[..] == s && pending[..] == p && !shutdown
        invariant Valid() && faults == old(faults)
        invariant NoneUsableBefore(BitSet(s), busy, len, search)
        decreases nrBlocks - search
      {
        ret := GetFirstFreeBitsFrom(bfree, len, search);
        if ret == 0 {
          NoCandidate(s, busy, search, len);
          return;
        }
        RunWithinBounds(s, ret, len);
        RunIsFree(s, ret, len);
        FreeIsUsable(BitSet(s), busy, ret, len);
        RejectCandidate(s, busy, search, ret, len);
        var again := PrepareNewBlocks(ret, len);
        if again {
          ghost var t := bfree[..];
          WriteBits(bfree, ret, len, true);
          Restored(s, t, bfree[..], ret, len);
          search := ret + 1;
          continue;
        }
        WriteBits(pending, ret, len, false);
        TakeKeepsBits(s, bfree[..], p, pending[..], nrFree, ret, len);
        nrFree := nrFree - len;
        var ok := Persist();
        if !ok {
          ret := 0;
        }
        return;
      }
    }
  }

  lemma ReservedZero(s: seq<bool>, p: seq<bool>, n: nat)
    requires BitsOk(s, p, n)
    ensures |s| > 0 && !s[0]
  {
  }

  lemma RunIsFree(s: seq<bool>, at: nat, len: nat)
    requires RunSetBits(s, at, len)
    ensures RunSet(at, len) <= BitSet(s)
  {
  }

  lemma NothingBefore(free: set<nat>, busy: set<nat>, len: nat)
    ensures NoneUsableBefore(free, busy, len, 0)
  {
  }
}
