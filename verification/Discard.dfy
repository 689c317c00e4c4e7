/**
 * Online discard (simplefs_super.c, simplefs_journal.c): which blocks are handed to the
 * device, in which units, and why no recovered state can miss their contents.
 */
module Discard {
  import opened Wrappers
  import opened Extents
  import opened Bitmaps

  const BLOCK_BYTES: nat := 4096

  // ---------- the kernel's round_up and round_down ----------

  /** x & ~m */
  function AndNot(x: nat, m: nat): nat {
    if x == 0 then 0 else 2 * AndNot(x / 2, m / 2) + if x % 2 == 1 && m % 2 == 0 then 1 else 0
  }

  /** x | m */
  function Or(x: nat, m: nat): nat {
    if x == 0 then m else 2 * Or(x / 2, m / 2) + if x % 2 == 1 || m % 2 == 1 then 1 else 0
  }

  function RoundDown(x: nat, y: nat): nat
    requires y > 0
  {
    AndNot(x, y - 1)
  }

  /** ((x - 1) | (y - 1)) + 1 in unsigned arithmetic. */
  function RoundUp(x: nat, y: nat): nat
    requires y > 0
  {
    if x == 0 then 0 else Or(x - 1, y - 1) + 1
  }

  function Pow2(k: nat): nat {
    if k == 0 then 1 else 2 * Pow2(k - 1)
  }

  ghost predicate IsPow2(y: nat) {
    exists k: nat :: Pow2(k) == y
  }

  lemma {:induction false} AndNotBelow(x: nat, m: nat)
    ensures AndNot(x, m) <= x
  {
    if x > 0 {
      AndNotBelow(x / 2, m / 2);
    }
  }

  lemma {:induction false} OrAbove(x: nat, m: nat)
    ensures Or(x, m) >= x
  {
    if x > 0 {
      OrAbove(x / 2, m / 2);
    }
  }

  lemma {:induction false} Pow2Positive(k: nat)
    ensures Pow2(k) >= 1
  {
    if k > 0 {
      Pow2Positive(k - 1);
    }
  }

  /** With a power of two, clearing the low bits goes to the multiple below, setting them to just before the next. */
  lemma {:induction false} MaskLowBits(x: nat, k: nat) returns (q: nat)
    ensures Pow2(k) >= 1 && AndNot(x, Pow2(k) - 1) == q * Pow2(k) && Or(x, Pow2(k) - 1) == q * Pow2(k) + (Pow2(k) - 1)
    ensures q * Pow2(k) <= x < q * Pow2(k) + Pow2(k)
  {
    hide AndNot, Or;
    Pow2Positive(k);
    if k == 0 {
      q := x;
      NoMask(x);
    } else {
      var h := Pow2(k - 1);
      Pow2Positive(k - 1);
      q := MaskLowBits(x / 2, k - 1);
      MaskStep(x, h, q * h);
      DoubleProduct(q, h);
    }
  }

  lemma DoubleProduct(q: nat, h: nat)
    ensures q * (2 * h) == 2 * (q * h)
  {
  }

  /** One bit more of the mask. */
  lemma MaskStep(x: nat, h: nat, m: nat)
    requires h >= 1 && AndNot(x / 2, h - 1) == m && Or(x / 2, h - 1) == m + (h - 1) && m <= x / 2 < m + h
    ensures AndNot(x, 2 * h - 1) == 2 * m && Or(x, 2 * h - 1) == 2 * m + (2 * h - 1) && 2 * m <= x < 2 * m + 2 * h
  {
    hide AndNot, Or;
    BitByBit(x, 2 * h - 1);
    assert (2 * h - 1) / 2 == h - 1 && (2 * h - 1) % 2 == 1;
    assert 2 * (x / 2) <= x <= 2 * (x / 2) + 1;
  }

  lemma BitByBit(x: nat, m: nat)
    ensures AndNot(x, m) == if x == 0 then 0 else 2 * AndNot(x / 2, m / 2) + if x % 2 == 1 && m % 2 == 0 then 1 else 0
    ensures Or(x, m) == if x == 0 then m else 2 * Or(x / 2, m / 2) + if x % 2 == 1 || m % 2 == 1 then 1 else 0
  {
  }

  lemma {:induction false} NoMask(x: nat)
    ensures AndNot(x, 0) == x && Or(x, 0) == x
  {
    if x > 0 {
      NoMask(x / 2);
    }
  }

  predicate Times(q: nat, y: nat, a: nat) {
    q * y == a
  }

  /** y divides a. */
  ghost predicate Multiple(a: nat, y: nat) {
    exists q: nat :: Times(q, y, a)
  }

  lemma DownToMultiple(x: nat, k: nat)
    ensures Pow2(k) > 0 && Multiple(RoundDown(x, Pow2(k)), Pow2(k))
    ensures RoundDown(x, Pow2(k)) <= x < RoundDown(x, Pow2(k)) + Pow2(k)
  {
    var q := MaskLowBits(x, k);
    assert Times(q, Pow2(k), RoundDown(x, Pow2(k)));
  }

  lemma UpToMultiple(x: nat, k: nat)
    ensures Pow2(k) > 0 && Multiple(RoundUp(x, Pow2(k)), Pow2(k))
    ensures x <= RoundUp(x, Pow2(k)) < x + Pow2(k)
  {
    Pow2Positive(k);
    if x == 0 {
      assert Times(0, Pow2(k), 0);
    } else {
      var q := MaskLowBits(x - 1, k);
      assert (q + 1) * Pow2(k) == q * Pow2(k) + Pow2(k);
      assert Times(q + 1, Pow2(k), RoundUp(x, Pow2(k)));
    }
  }

  // A mask that is not all ones misses some multiples.

  lemma {:induction false} HighBitKept(k: nat, m: nat)
    requires m < Pow2(k)
    ensures AndNot(Pow2(k), m) == Pow2(k)
  {
    if k > 0 {
      HighBitKept(k - 1, m / 2);
    }
  }

  /** Only powers of two divide a power of two. */
  lemma {:induction false} DivisorOfPow2(y: nat, q: nat, k: nat)
    requires y * q == Pow2(k)
    ensures IsPow2(y)
  {
    if k == 0 {
      UnitProduct(y, q);
      assert Pow2(0) == y;
    } else if q % 2 == 0 {
      var h := q / 2;
      assert q == 2 * h;
      assert y * q == 2 * (y * h);
      DivisorOfPow2(y, h, k - 1);
    } else {
      OddMultiple(y, q);
      var h := y / 2;
      assert y == 2 * h;
      assert y * q == 2 * (h * q);
      DivisorOfPow2(h, q, k - 1);
      var j: nat :| Pow2(j) == h;
      assert Pow2(j + 1) == y;
    }
  }

  lemma UnitProduct(y: nat, q: nat)
    requires y * q == 1
    ensures y == 1
  {
    assert q >= 1 && y >= 1;
    assert y * q == y + y * (q - 1);
  }

  lemma TwoFactorsLess(y: nat, q: nat)
    requires q >= 2
    ensures y * q == y * (q - 2) + 2 * y
  {
  }

  lemma SameParity(a: nat, y: nat)
    ensures (a + 2 * y) % 2 == a % 2
  {
  }

  lemma {:induction false} OddMultiple(y: nat, q: nat)
    requires q % 2 == 1
    ensures (y * q) % 2 == y % 2
    decreases q
  {
    if q > 1 {
      OddMultiple(y, q - 2);
      TwoFactorsLess(y, q);
      SameParity(y * (q - 2), y);
    }
  }

  lemma {:induction false} NextPow2(y: nat) returns (k: nat)
    requires y > 0
    ensures y <= Pow2(k)
  {
    if y == 1 {
      k := 0;
    } else {
      k := NextPow2(y - 1);
      Pow2Positive(k);
      k := k + 1;
    }
  }

  // ---------- bytes and blocks ----------

  /** The granularity the device advertises, in 4096-byte blocks and at least one. */
  function GranBlocks(granularity: nat): (g: nat)
    ensures g >= 1 && BLOCK_BYTES * g >= granularity && (granularity > BLOCK_BYTES ==> BLOCK_BYTES * (g - 1) < granularity)
  {
    ((if granularity > BLOCK_BYTES then granularity else BLOCK_BYTES) + (BLOCK_BYTES - 1)) / BLOCK_BYTES
  }

  lemma TwiceProduct(p: nat, q: nat)
    ensures p * (2 * q) == 2 * (p * q)
  {
  }

  lemma {:induction false} Pow2Sum(a: nat, b: nat)
    ensures Pow2(a + b) == Pow2(a) * Pow2(b)
  {
    if b > 0 {
      Pow2Sum(a, b - 1);
      TwiceProduct(Pow2(a), Pow2(b - 1));
    }
  }

  lemma BlockIsPow2()
    ensures Pow2(12) == BLOCK_BYTES
  {
    assert Pow2(6) == 64;
    Pow2Sum(6, 6);
  }

  /** A power of two of bytes is a power of two of blocks, or divides the block. */
  lemma GranOfPow2(j: nat)
    ensures Pow2(j) > 0
    ensures j <= 12 ==> GranBlocks(Pow2(j)) == 1 && BLOCK_BYTES == Pow2(12 - j) * Pow2(j)
    ensures j > 12 ==> GranBlocks(Pow2(j)) == Pow2(j - 12) && Pow2(j) == Pow2(j - 12) * BLOCK_BYTES
  {
    Pow2Positive(j);
    BlockIsPow2();
    if j <= 12 {
      Pow2Sum(12 - j, j);
      Pow2Positive(12 - j);
      ProductOrder(1, Pow2(12 - j), Pow2(j));
    } else {
      Pow2Sum(j - 12, 12);
      Pow2Positive(j - 12);
    }
  }

  lemma ScaledMultiple(a: nat, h: nat)
    requires Multiple(a, h)
    ensures Multiple(BLOCK_BYTES * a, h * BLOCK_BYTES)
  {
    var q: nat :| Times(q, h, a);
    assert q * (h * BLOCK_BYTES) == (q * h) * BLOCK_BYTES;
    assert Times(q, h * BLOCK_BYTES, BLOCK_BYTES * a);
  }

  lemma BlocksOfUnits(x: nat, c: nat, g: nat)
    requires BLOCK_BYTES == c * g
    ensures Multiple(BLOCK_BYTES * x, g)
  {
    assert (x * c) * g == x * (c * g);
    assert Times(x * c, g, BLOCK_BYTES * x);
  }

  /** Both ends of a rounded run are on unit boundaries of the device, in bytes. */
  ghost predicate WholeUnits(x: nat, granularity: nat) {
    && Multiple(BLOCK_BYTES * RoundDown(x, GranBlocks(granularity)), granularity)
    && Multiple(BLOCK_BYTES * RoundUp(x, GranBlocks(granularity)), granularity)
  }

  lemma Pow2RoundsToUnits(j: nat, x: nat)
    ensures WholeUnits(x, Pow2(j))
  {
    hide Multiple, RoundDown, RoundUp;
    GranOfPow2(j);
    var g := GranBlocks(Pow2(j));
    if j <= 12 {
      BlocksOfUnits(RoundDown(x, g), Pow2(12 - j), Pow2(j));
      BlocksOfUnits(RoundUp(x, g), Pow2(12 - j), Pow2(j));
    } else {
      DownToMultiple(x, j - 12);
      UpToMultiple(x, j - 12);
      ScaledMultiple(RoundDown(x, g), Pow2(j - 12));
      ScaledMultiple(RoundUp(x, g), Pow2(j - 12));
    }
  }

  /** A power of two of blocks above the unit survives the rounding, so its bytes tell. */
  lemma Pow2Survives(granularity: nat) returns (k: nat)
    requires granularity > 0
    ensures GranBlocks(granularity) < Pow2(k) && RoundDown(Pow2(k), GranBlocks(granularity)) == Pow2(k)
    ensures Multiple(BLOCK_BYTES * Pow2(k), granularity) ==> IsPow2(granularity)
  {
    var g := GranBlocks(granularity);
    k := NextPow2(g + 1);
    HighBitKept(k, g - 1);
    if Multiple(BLOCK_BYTES * Pow2(k), granularity) {
      var q: nat :| Times(q, granularity, BLOCK_BYTES * Pow2(k));
      BlockIsPow2();
      Pow2Sum(12, k);
      assert granularity * q == q * granularity;
      DivisorOfPow2(granularity, q, 12 + k);
    }
  }

  /**
   * "Never send a partial edge unit" is true of the mask arithmetic if and only if the
   * granularity the device advertises, in bytes, is a power of two.
   */
  lemma AlignedIffPowerOfTwo(granularity: nat)
    requires granularity > 0
    ensures (forall x: nat :: WholeUnits(x, granularity)) <==> IsPow2(granularity)
  {
    hide Multiple, RoundDown, RoundUp;
    if IsPow2(granularity) {
      var j: nat :| Pow2(j) == granularity;
      forall x: nat ensures WholeUnits(x, granularity) {
        Pow2RoundsToUnits(j, x);
      }
    } else {
      var k := Pow2Survives(granularity);
      assert !WholeUnits(Pow2(k), granularity);
    }
  }

  /** A 192 KiB unit is 48 blocks; the pending run [1, 65) sends blocks 48 .. 63, a third of a unit. */
  lemma PartialUnitSent()
    ensures GranBlocks(196608) == 48 && RoundUp(1, 48) == 48 && RoundDown(65, 48) == 64 && !Multiple(BLOCK_BYTES * 64, 196608)
  {
    assert Or(0, 47) == 47;
    assert AndNot(65, 47) == 64 by {
      assert AndNot(1, 0) == 1;
      assert AndNot(2, 1) == 2;
      assert AndNot(4, 2) == 4;
      assert AndNot(8, 5) == 8;
      assert AndNot(16, 11) == 16;
      assert AndNot(32, 23) == 32;
    }
    forall q: nat ensures !Times(q, 196608, 262144) {
    }
  }

  /** A 6 KiB unit is two blocks, a power of two of blocks, and still the run [2, 4) starts inside a unit. */
  lemma PowerOfTwoBlocksIsNotEnough()
    ensures GranBlocks(6144) == 2 && RoundUp(2, 2) == 2 && RoundDown(4, 2) == 4 && !Multiple(BLOCK_BYTES * 2, 6144)
  {
    assert Or(1, 1) == 1;
    assert AndNot(4, 1) == 4 by {
      assert AndNot(1, 0) == 1 && AndNot(2, 0) == 2;
    }
    forall q: nat ensures !Times(q, 6144, 8192) {
    }
  }

  // ---------- the scan ----------

  /** Pending and free. */
  ghost predicate Both(p: seq<bool>, f: seq<bool>, k: nat) {
    k < |p| == |f| && p[k] && f[k]
  }

  /** The aligned unit of x lies wholly in pending free space. */
  ghost predicate WholeUnit(p: seq<bool>, f: seq<bool>, g: nat, x: nat)
    requires g > 0
  {
    forall k: nat :: RoundDown(x, g) <= k < RoundDown(x, g) + g ==> Both(p, f, k)
  }

  lemma {:induction false} ProductOrder(q: nat, r: nat, y: nat)
    requires q <= r
    ensures q * y <= r * y
  {
    if q < r {
      ProductOrder(q, r - 1, y);
      assert r * y == (r - 1) * y + y;
    }
  }

  lemma MultipleGap(a: nat, c: nat, y: nat)
    requires Multiple(a, y) && Multiple(c, y) && a < c
    ensures a + y <= c
  {
    var q: nat :| Times(q, y, a);
    var r: nat :| Times(r, y, c);
    if r <= q {
      ProductOrder(r, q, y);
      assert false;
    }
    ProductOrder(q + 1, r, y);
    assert (q + 1) * y == q * y + y;
  }

  lemma NextMultiple(a: nat, y: nat)
    requires Multiple(a, y)
    ensures Multiple(a + y, y)
  {
    var q: nat :| Times(q, y, a);
    assert (q + 1) * y == q * y + y;
    assert Times(q + 1, y, a + y);
  }

  /** [b, e) is a maximal run of pending free blocks. */
  ghost predicate MaximalRun(p: seq<bool>, f: seq<bool>, b: nat, e: nat) {
    && b < e && (forall k: nat :: b <= k < e ==> Both(p, f, k))
    && (b == 0 || !Both(p, f, b - 1)) && !Both(p, f, e)
  }

  /** Inside a maximal run, exactly the blocks between the two rounded ends sit in whole units. */
  lemma UnitInRun(p: seq<bool>, f: seq<bool>, b: nat, e: nat, g: nat, x: nat)
    requires g > 0 && IsPow2(g) && MaximalRun(p, f, b, e) && b <= x < e
    ensures WholeUnit(p, f, g, x) <==> RoundUp(b, g) <= x < RoundDown(e, g)
  {
    hide Multiple, RoundUp, RoundDown;
    var k: nat :| Pow2(k) == g;
    DownToMultiple(x, k);
    DownToMultiple(e, k);
    UpToMultiple(b, k);
    var u := RoundDown(x, g);
    NextMultiple(u, g);
    if RoundUp(b, g) <= x < RoundDown(e, g) {
      if u < RoundUp(b, g) {
        MultipleGap(u, RoundUp(b, g), g);
        assert false;
      }
      MultipleGap(u, RoundDown(e, g), g);
    } else if WholeUnit(p, f, g, x) {
      WholeUnitInside(p, f, b, e, g, x, u);
      if x < RoundUp(b, g) {
        MultipleGap(u, RoundUp(b, g), g);
      } else {
        MultipleGap(RoundDown(e, g), u + g, g);
      }
      assert false;
    }
  }

  lemma WholeUnitInside(p: seq<bool>, f: seq<bool>, b: nat, e: nat, g: nat, x: nat, u: nat)
    requires g > 0 && MaximalRun(p, f, b, e) && b <= x < e && u == RoundDown(x, g) && u <= x < u + g
    requires WholeUnit(p, f, g, x)
    ensures b <= u && u + g <= e
  {
    assert b > 0 ==> !Both(p, f, b - 1);
  }

  ghost function RunsSet(runs: seq<(nat, nat)>): set<nat> {
    set i: nat, x: nat | i < |runs| && runs[i].0 <= x < runs[i].0 + runs[i].1 && InRun(x, runs[i].0, runs[i].1) :: x
  }

  lemma RunsSnoc(runs: seq<(nat, nat)>, r: (nat, nat))
    ensures RunsSet(runs + [r]) == RunsSet(runs) + RunSet(r.0, r.1)
  {
    var both := runs + [r];
    forall x: nat | x in RunsSet(runs) + RunSet(r.0, r.1) ensures x in RunsSet(both) {
      if x in RunSet(r.0, r.1) {
        assert both[|runs|] == r && InRun(x, both[|runs|].0, both[|runs|].1);
      } else {
        var i: nat :| i < |runs| && runs[i].0 <= x < runs[i].0 + runs[i].1 && InRun(x, runs[i].0, runs[i].1);
        assert both[i] == runs[i];
      }
    }
  }

  /** A device command starts and ends on unit boundaries of the device. */
  ghost predicate AlignedRuns(runs: seq<(nat, nat)>, granularity: nat) {
    forall i :: 0 <= i < |runs| ==>
      Multiple(BLOCK_BYTES * runs[i].0, granularity) && Multiple(BLOCK_BYTES * (runs[i].0 + runs[i].1), granularity)
  }

  /** What holds when every block below `block` has been dealt with. */
  ghost predicate ScanDone(p0: seq<bool>, f: seq<bool>, p: seq<bool>, sent: set<nat>, block: nat, g: nat)
    requires g > 0
  {
    && |p0| == |f| == |p| && block <= |p|
    && (forall k :: 0 <= k < |p| ==> p[k] == (p0[k] && k !in sent && (k < block ==> f[k])))
    && (forall x :: x in sent ==> x < block && Both(p0, f, x))
    && (block > 0 && Both(p0, f, block) ==> !Both(p0, f, block - 1))
    && (IsPow2(g) ==> forall x: nat :: x < block ==> (x in sent <==> WholeUnit(p0, f, g, x)))
  }

  lemma SkipBlocks(p0: seq<bool>, f: seq<bool>, p: seq<bool>, sent: set<nat>, block: nat, block': nat, g: nat)
    requires g > 0 && ScanDone(p0, f, p, sent, block, g)
    requires block <= block' <= |p| && forall k :: block <= k < block' ==> !p[k]
    ensures ScanDone(p0, f, p, sent, block', g)
  {
    forall x: nat | block <= x < block' ensures !Both(p0, f, x) && x !in sent && (IsPow2(g) ==> !WholeUnit(p0, f, g, x)) {
      assert !p[x];
      NotWhole(p0, f, g, x);
    }
  }

  lemma NotWhole(p: seq<bool>, f: seq<bool>, g: nat, x: nat)
    requires g > 0 && !Both(p, f, x)
    ensures IsPow2(g) ==> !WholeUnit(p, f, g, x)
  {
    if IsPow2(g) {
      var k: nat :| Pow2(k) == g;
      DownToMultiple(x, k);
    }
  }

  lemma ClearUsed(p0: seq<bool>, f: seq<bool>, p: seq<bool>, sent: set<nat>, block: nat, g: nat)
    requires g > 0 && ScanDone(p0, f, p, sent, block, g) && block < |p| && !f[block]
    ensures ScanDone(p0, f, p[block := false], sent, block + 1, g)
  {
    NotWhole(p0, f, g, block);
  }

  lemma RoundInside(b: nat, e: nat, g: nat)
    requires g > 0
    ensures b <= RoundUp(b, g) && RoundDown(e, g) <= e
  {
    AndNotBelow(e, g - 1);
    if b > 0 {
      OrAbove(b - 1, g - 1);
    }
  }

  lemma SendRun(p0: seq<bool>, f: seq<bool>, p: seq<bool>, p': seq<bool>, sent: set<nat>, sent': set<nat>,
                b: nat, e: nat, g: nat)
    requires g > 0 && ScanDone(p0, f, p, sent, b, g) && b < e <= |p|
    requires forall k :: b <= k < e ==> p[k] && f[k]
    requires e < |p| ==> !p[e] || !f[e]
    requires |p'| == |p| && forall k :: 0 <= k < |p| ==> p'[k] == (p[k] && !(RoundUp(b, g) <= k < RoundDown(e, g)))
    requires forall x: nat :: x in sent' <==> x in sent || RoundUp(b, g) <= x < RoundDown(e, g)
    ensures ScanDone(p0, f, p', sent', e, g)
  {
    hide RoundUp, RoundDown, WholeUnit, IsPow2;
    RoundInside(b, e, g);
    assert forall k: nat :: b <= k < e ==> Both(p0, f, k) by {
      assert forall k: nat :: b <= k < e ==> p[k] && f[k];
    }
    assert MaximalRun(p0, f, b, e) by {
      assert e < |p| ==> p[e] == (p0[e] && e !in sent);
    }
    if IsPow2(g) {
      forall x: nat | x < e ensures x in sent' <==> WholeUnit(p0, f, g, x) {
        if x >= b {
          UnitInRun(p0, f, b, e, g, x);
        }
      }
    }
  }

  /** simplefs_issue_pending_discards; `runs` is what the device was told, as start and length. */
  method IssuePendingDiscards(sb: SbInfo, granularity: nat) returns (ok: bool, runs: seq<(nat, nat)>)
    requires sb.bfree.Length == sb.nrBlocks && sb.pending.Length == sb.nrBlocks && sb.bfree != sb.pending
    modifies sb.pending, sb`faults
    ensures RunsSet(runs) <= old(sb.Pending()) * sb.Free()
    ensures old(sb.Pending()) * sb.Free() - RunsSet(runs) <= sb.Pending() <= old(sb.Pending()) - RunsSet(runs)
    ensures ok && sb.discard ==> sb.Pending() <= sb.Free()
    ensures IsPow2(granularity) ==> AlignedRuns(runs, granularity)
    ensures IsPow2(GranBlocks(granularity)) && ok && sb.discard ==>
        forall x: nat :: x in RunsSet(runs) <==> WholeUnit(old(sb.pending[..]), sb.bfree[..], GranBlocks(granularity), x)
    ensures old(sb.faults) == [] ==> ok && sb.faults == []
  {
    hide ScanDone, WholeUnit, IsPow2, RunsSet, RoundUp, RoundDown, Multiple, SameExcept;
    runs := [];
    NothingSent();
    if !sb.discard {
      return true, runs;
    }
    var g := GranBlocks(granularity);
    ghost var p0, f := sb.pending[..], sb.bfree[..];
    var block := 0;
    ScanStart(p0, f, g);
    while block < sb.nrBlocks
      invariant block <= sb.nrBlocks && sb.bfree[..] == f
      invariant ScanDone(p0, f, sb.pending[..], RunsSet(runs), block, g)
      invariant IsPow2(granularity) ==> AlignedRuns(runs, granularity)
      invariant old(sb.faults) == [] ==> sb.faults == []
    {
      ghost var p := sb.pending[..];
      var next := FindNextBit(sb.pending, block);
      SkipBlocks(p0, f, p, RunsSet(runs), block, next, g);
      block := next;
      if block >= sb.nrBlocks {
        break;
      }
      if !sb.bfree[block] {
        sb.pending[block] := false;
        assert sb.pending[..] == p[block := false];
        ClearUsed(p0, f, p, RunsSet(runs), block, g);
        block := block + 1;
        continue;
      }
      var end := block + 1;
      while end < sb.nrBlocks && sb.pending[end] && sb.bfree[end]
        invariant block < end <= sb.nrBlocks
        invariant forall k :: block <= k < end ==> sb.pending[k] && sb.bfree[k]
      {
        end := end + 1;
      }
      var from, to := RoundUp(block, g), RoundDown(end, g);
      RoundInside(block, end, g);
      if from >= to {
        SendRun(p0, f, p, p, RunsSet(runs), RunsSet(runs), block, end, g);
        block := end;
        continue;
      }
      var bad := sb.NextFault();
      if bad {
        ScanResult(p0, f, p, RunsSet(runs), block, g);
        return false, runs;
      }
      WriteBits(sb.pending, from, to - from, false);
      ghost var sent := RunsSet(runs);
      ExtendRuns(runs, from, to, block, end, granularity);
      runs := runs + [(from, to - from)];
      AddedRun(sent, RunsSet(runs), from, to);
      ClearedRange(p, sb.pending[..], from, to);
      SendRun(p0, f, p, sb.pending[..], sent, RunsSet(runs), block, end, g);
      block := end;
    }
    ScanResult(p0, f, sb.pending[..], RunsSet(runs), block, g);
    return true, runs;
  }

  lemma NothingSent()
    ensures RunsSet([]) == {}
  {
  }

  lemma ScanStart(p: seq<bool>, f: seq<bool>, g: nat)
    requires g > 0 && |p| == |f|
    ensures ScanDone(p, f, p, {}, 0, g)
  {
  }

  lemma ExtendRuns(runs: seq<(nat, nat)>, from: nat, to: nat, b: nat, e: nat, granularity: nat)
    requires var g := GranBlocks(granularity); from == RoundUp(b, g) && to == RoundDown(e, g) && from < to
    ensures RunsSet(runs + [(from, to - from)]) == RunsSet(runs) + RunSet(from, to - from)
    ensures IsPow2(granularity) && AlignedRuns(runs, granularity) ==> AlignedRuns(runs + [(from, to - from)], granularity)
  {
    hide RunsSet, RoundUp, RoundDown, Multiple;
    RunsSnoc(runs, (from, to - from));
    if IsPow2(granularity) {
      var j: nat :| Pow2(j) == granularity;
      Pow2RoundsToUnits(j, b);
      Pow2RoundsToUnits(j, e);
    }
  }

  lemma AddedRun(sent: set<nat>, sent': set<nat>, from: nat, to: nat)
    requires from < to && sent' == sent + RunSet(from, to - from)
    ensures forall x: nat :: x in sent' <==> x in sent || from <= x < to
  {
  }

  lemma ClearedRange(p: seq<bool>, p': seq<bool>, from: nat, to: nat)
    requires from < to && SameExcept(p, p', from, to - from, false)
    ensures |p'| == |p| && forall k :: 0 <= k < |p| ==> p'[k] == (p[k] && !(from <= k < to))
  {
  }

  lemma ScanResult(p0: seq<bool>, f: seq<bool>, p: seq<bool>, sent: set<nat>, block: nat, g: nat)
    requires g > 0 && ScanDone(p0, f, p, sent, block, g)
    ensures sent <= BitSet(p0) * BitSet(f)
    ensures BitSet(p0) * BitSet(f) - sent <= BitSet(p) <= BitSet(p0) - sent
    ensures block == |p| ==> BitSet(p) <= BitSet(f)
    ensures block == |p| && IsPow2(g) ==> forall x: nat :: x in sent <==> WholeUnit(p0, f, g, x)
  {
    hide WholeUnit, IsPow2;
    if block == |p| && IsPow2(g) {
      forall x: nat ensures x in sent <==> WholeUnit(p0, f, g, x) {
        if x >= |p| {
          NotWhole(p0, f, g, x);
        }
      }
    }
  }
}
