/**
 * Discards against crashes, with a journal (simplefs_journal.c, simplefs_bitmap.h): the
 * handle mutex serialises metadata changes, commits and the discard scan. A crash throws
 * away everything since the last commit, but not what the device has already dropped. The
 * device drops whole units of its own: every unit a command touches is gone.
 */
module DiscardCrash {
  import opened Extents
  import opened Bitmaps
  import opened Discard

  /** The free bitmap and the blocks that metadata refers to. */
  datatype Image = Image(free: set<nat>, refs: set<nat>)

  /** Who holds the journal's handle mutex. */
  datatype Mutex = Nobody | Handle | Discarding

  datatype State = State(
    memory: Image,
    committed: Image,
    pending: set<nat>,
    mutex: Mutex,
    /** Lost on the device, and not handed out again since. */
    dropped: set<nat>,
    /** The device's size in blocks and its discard unit in bytes. */
    size: nat,
    gran: nat)

  datatype Step =
    | StartHandle
    | StopHandle
    /** get_free_blocks and take_exact_blocks */
    | Allocate(blocks: set<nat>)
    /** An inode, a tree or a directory now points at the blocks. */
    | Refer(blocks: set<nat>)
    /** put_blocks, after the reference is gone */
    | Release(blocks: set<nat>)
    /** The journal commits on its own. */
    | Commit
    /** force_commit: the commit, and then the scan under the same mutex */
    | ForceCommit
    /** One sb_issue_discard for the pending free run [b, e) */
    | Issue(b: nat, e: nat)
    | EndScan
    | Crash

  /** Unit q of the device overlaps the blocks [from, to). */
  ghost predicate Overlaps(q: nat, gran: nat, from: nat, to: nat) {
    q * gran < BLOCK_BYTES * to && BLOCK_BYTES * from < q * gran + gran
  }

  /** Some unit that the command for [from, to) touches holds part of block x. */
  ghost predicate Touches(from: nat, to: nat, gran: nat, x: nat) {
    exists q: nat :: Overlaps(q, gran, from, to) && Overlaps(q, gran, x, x + 1)
  }

  /** The blocks whose contents one sb_issue_discard for the pending run [b, e) takes away. */
  ghost function Lost(s: State, b: nat, e: nat): set<nat> {
    var from, to := RoundUp(b, GranBlocks(s.gran)), RoundDown(e, GranBlocks(s.gran));
    if from < to then set x: nat | x < s.size && Touches(from, to, s.gran, x) else {}
  }

  /** The blocks the command names. */
  ghost function Sent(s: State, b: nat, e: nat): set<nat> {
    var from, to := RoundUp(b, GranBlocks(s.gran)), RoundDown(e, GranBlocks(s.gran));
    if from < to then RunSet(from, to - from) else {}
  }

  ghost predicate Enabled(s: State, step: Step) {
    match step
    case StartHandle => s.mutex.Nobody?
    case StopHandle => s.mutex.Handle?
    case Allocate(blocks) => s.mutex.Handle? && blocks <= s.memory.free
    case Refer(blocks) => s.mutex.Handle? && blocks !! s.memory.free
    case Release(blocks) => s.mutex.Handle? && blocks !! s.memory.free
    case Commit => s.mutex.Nobody?
    case ForceCommit => s.mutex.Nobody?
    case Issue(b, e) => s.mutex.Discarding? && b < e <= s.size && RunSet(b, e - b) <= s.pending * s.memory.free
    case EndScan => s.mutex.Discarding?
    case Crash => true
  }

  ghost function Do(s: State, step: Step): State
    requires Enabled(s, step)
  {
    match step
    case StartHandle => s.(mutex := Handle)
    case StopHandle => s.(mutex := Nobody)
    case Allocate(blocks) =>
      s.(memory := s.memory.(free := s.memory.free - blocks), pending := s.pending - blocks, dropped := s.dropped - blocks)
    case Refer(blocks) => s.(memory := s.memory.(refs := s.memory.refs + blocks))
    case Release(blocks) =>
      s.(memory := Image(s.memory.free + blocks, s.memory.refs - blocks), pending := s.pending + blocks)
    case Commit => s.(committed := s.memory)
    case ForceCommit => s.(committed := s.memory, mutex := Discarding)
    case Issue(b, e) => s.(pending := s.pending - Sent(s, b, e), dropped := s.dropped + Lost(s, b, e))
    case EndScan => s.(mutex := Nobody)
    case Crash => s.(memory := s.committed, pending := {}, mutex := Nobody)
  }

  ghost predicate Inv(s: State) {
    && s.memory.refs !! s.memory.free && s.committed.refs !! s.committed.free
    && s.pending <= s.memory.free
    && s.dropped <= s.memory.free * s.committed.free
    && (s.mutex.Discarding? ==> s.committed == s.memory)
  }

  /** Rounding the ends inwards never leaves the run. */
  lemma SentInside(s: State, b: nat, e: nat)
    requires b < e
    ensures Sent(s, b, e) <= RunSet(b, e - b)
  {
    hide RoundUp, RoundDown;
    RoundInside(b, e, GranBlocks(s.gran));
  }

  /** Between two unit boundaries a command touches no block but its own. */
  lemma AlignedTouchesItself(from: nat, to: nat, gran: nat, x: nat)
    requires Multiple(BLOCK_BYTES * from, gran) && Multiple(BLOCK_BYTES * to, gran) && Touches(from, to, gran, x)
    ensures from <= x < to
  {
    var q: nat :| Overlaps(q, gran, from, to) && Overlaps(q, gran, x, x + 1);
    assert Times(q, gran, q * gran) && Multiple(q * gran, gran);
    MultipleGap(q * gran, BLOCK_BYTES * to, gran);
    NextMultiple(q * gran, gran);
    MultipleGap(BLOCK_BYTES * from, q * gran + gran, gran);
  }

  /** A boundary inside a unit: the command touches the block behind it. */
  lemma StrayTouch(from: nat, to: nat, gran: nat)
    requires gran > 0 && from < to && !Multiple(BLOCK_BYTES * to, gran)
    ensures Touches(from, to, gran, to)
  {
    var q := UnitBelow(BLOCK_BYTES * to, gran);
    assert !Times(q, gran, BLOCK_BYTES * to);
    assert Overlaps(q, gran, from, to) && Overlaps(q, gran, to, to + 1);
  }

  lemma {:induction false} UnitBelow(a: nat, gran: nat) returns (q: nat)
    requires gran > 0
    ensures q * gran <= a < q * gran + gran
    decreases a
  {
    if a < gran {
      q := 0;
    } else {
      q := UnitBelow(a - gran, gran);
      assert (q + 1) * gran == q * gran + gran;
      q := q + 1;
    }
  }

  /** No command takes away a block outside the run it names. */
  ghost predicate SparesNeighbours(gran: nat) {
    forall b: nat, e: nat, x: nat ::
      var from, to := RoundUp(b, GranBlocks(gran)), RoundDown(e, GranBlocks(gran));
      from < to && Touches(from, to, gran, x) ==> from <= x < to
  }

  /**
   * Neighbouring live blocks are safe from every command if and only if the unit, in bytes,
   * is a power of two.
   */
  lemma SparesNeighboursIffPowerOfTwo(gran: nat)
    requires gran > 0
    ensures SparesNeighbours(gran) <==> IsPow2(gran)
  {
    hide RoundUp, RoundDown, Touches, Multiple;
    var g := GranBlocks(gran);
    if IsPow2(gran) {
      var j: nat :| Pow2(j) == gran;
      forall b: nat, e: nat, x: nat | RoundUp(b, g) < RoundDown(e, g) && Touches(RoundUp(b, g), RoundDown(e, g), gran, x)
        ensures RoundUp(b, g) <= x < RoundDown(e, g)
      {
        Pow2RoundsToUnits(j, b);
        Pow2RoundsToUnits(j, e);
        AlignedTouchesItself(RoundUp(b, g), RoundDown(e, g), gran, x);
      }
    } else {
      var k := Pow2Survives(gran);
      RoundUpOne(g);
      StrayTouch(RoundUp(1, g), Pow2(k), gran);
      assert !SparesNeighbours(gran);
    }
  }

  lemma RoundUpOne(g: nat)
    requires g > 0
    ensures RoundUp(1, g) == g
  {
  }

  /** With 48-block units the pending run [1, 65) sends blocks 48 .. 63 and takes block 80 with them. */
  lemma PartialUnitLosesLiveBlock(s: State)
    requires Inv(s) && s.gran == 196608 && s.size == 100 && Enabled(s, Issue(1, 65)) && 80 in s.memory.refs
    ensures 80 in Do(s, Issue(1, 65)).dropped && 80 in Do(s, Issue(1, 65)).memory.refs
  {
    PartialUnitSent();
    assert Overlaps(1, 196608, 48, 64) && Overlaps(1, 196608, 80, 81);
    assert Touches(48, 64, 196608, 80);
  }

  lemma LostIsSent(s: State, b: nat, e: nat)
    requires IsPow2(s.gran) && s.gran > 0
    ensures Lost(s, b, e) <= Sent(s, b, e)
  {
    hide RoundUp, RoundDown, Touches, IsPow2;
    SparesNeighboursIffPowerOfTwo(s.gran);
  }

  lemma StepKeepsInv(s: State, step: Step)
    requires Inv(s) && Enabled(s, step) && s.gran > 0 && IsPow2(s.gran)
    ensures Inv(Do(s, step))
  {
    hide RunSet, Sent, Lost, IsPow2;
    if step.Issue? {
      SentInside(s, step.b, step.e);
      LostIsSent(s, step.b, step.e);
    }
  }

  ghost predicate Run(states: seq<State>, steps: seq<Step>) {
    && |states| == |steps| + 1
    && forall i :: 0 <= i < |steps| ==> Enabled(states[i], steps[i]) && states[i + 1] == Do(states[i], steps[i])
  }

  /** Mounted after mkfs or after recovery: nothing is pending and nothing newer than the log. */
  ghost predicate Mounted(s: State) {
    && s.memory == s.committed && s.memory.refs !! s.memory.free
    && s.pending == {} && s.dropped == {} && s.mutex.Nobody? && s.gran > 0
  }

  lemma {:induction false} RunKeepsInv(states: seq<State>, steps: seq<Step>, i: nat)
    requires Run(states, steps) && Mounted(states[0]) && i <= |steps| && IsPow2(states[0].gran)
    ensures Inv(states[i]) && states[i].gran == states[0].gran
  {
    hide IsPow2;
    if i > 0 {
      RunKeepsInv(states, steps, i - 1);
      StepKeepsInv(states[i - 1], steps[i - 1]);
    }
  }

  /**
   * In every run on a device whose unit is a power of two: pending blocks are free; a discard
   * takes away only blocks that are free both in memory and in the committed bitmap, whole
   * units of them; and neither the running system nor the state a crash would recover refers
   * to a block the device has dropped.
   */
  lemma EveryRunKeepsContents(states: seq<State>, steps: seq<Step>, i: nat)
    requires Run(states, steps) && Mounted(states[0]) && i <= |steps| && IsPow2(states[0].gran)
    ensures states[i].pending <= states[i].memory.free
    ensures states[i].memory.refs !! states[i].dropped
    ensures Do(states[i], Crash).memory.refs !! Do(states[i], Crash).dropped
    ensures i < |steps| && steps[i].Issue? ==>
        && Lost(states[i], steps[i].b, steps[i].e) <= states[i].memory.free * states[i].committed.free
        && WholeUnits(steps[i].b, states[0].gran) && WholeUnits(steps[i].e, states[0].gran)
  {
    hide RunSet, Sent, Lost, WholeUnits, IsPow2;
    RunKeepsInv(states, steps, i);
    if i < |steps| && steps[i].Issue? {
      SentInside(states[i], steps[i].b, steps[i].e);
      LostIsSent(states[i], steps[i].b, steps[i].e);
      AlignedIffPowerOfTwo(states[0].gran);
    }
  }

  /** The mutex is what makes it true: a discard before the commit would hit the recovered state. */
  lemma EarlyDiscardLosesData(s: State, b: nat)
    requires Inv(s) && s.mutex.Handle? && b in s.memory.refs && b in s.committed.refs
    ensures var t := Do(s, Release({b}));
      && b in t.pending * t.memory.free && b in Do(t, Crash).memory.refs
  {
  }

  /** A scan over the allocator's bitmaps is a sequence of enabled steps of this machine. */
  lemma ScanIsEnabled(s: State, b: nat, e: nat, p: seq<bool>, f: seq<bool>)
    requires s.mutex.Discarding? && s.size == |p| && s.pending == BitSet(p) && s.memory.free == BitSet(f)
    requires MaximalRun(p, f, b, e)
    ensures Enabled(s, Issue(b, e))
  {
    assert Both(p, f, e - 1);
    forall k | k in RunSet(b, e - b) ensures k in s.pending * s.memory.free {
      assert Both(p, f, k);
    }
  }

  // ---------- what a commit is for ----------

  ghost predicate NoCommitBetween(steps: seq<Step>, i: nat, j: nat) {
    forall k :: i < k < j && k < |steps| ==> !steps[k].Commit? && !steps[k].ForceCommit?
  }

  lemma {:induction false} CommittedStays(states: seq<State>, steps: seq<Step>, i: nat, j: nat)
    requires Run(states, steps) && i < j <= |steps| && NoCommitBetween(steps, i, j)
    ensures states[j].committed == states[i + 1].committed
    decreases j
  {
    hide Sent, Lost;
    if i + 1 < j {
      CommittedStays(states, steps, i, j - 1);
    }
  }

  /** A crash goes back to what was in memory at the last commit. */
  lemma CommitSurvivesCrash(states: seq<State>, steps: seq<Step>, i: nat, j: nat)
    requires Run(states, steps) && i < j < |steps| && NoCommitBetween(steps, i, j)
    requires (steps[i].Commit? || steps[i].ForceCommit?) && steps[j].Crash?
    ensures states[j + 1].memory == states[i].memory
  {
    hide Sent, Lost, NoCommitBetween;
    CommittedStays(states, steps, i, j);
  }

  ghost predicate Goes(s: State, steps: seq<Step>, s': State)
    decreases |steps|
  {
    if steps == [] then s' == s else Enabled(s, steps[0]) && Goes(Do(s, steps[0]), steps[1..], s')
  }

  lemma GoesFirst(s: State, step: Step, rest: seq<Step>, s': State)
    requires Enabled(s, step) && Goes(Do(s, step), rest, s')
    ensures Goes(s, [step] + rest, s')
  {
    hide Enabled, Do;
    assert ([step] + rest)[1..] == rest;
  }

  /** Blocks allocated, referred to and committed under the mutex are there after a crash. */
  lemma CommittedBlocksSurvive(s: State, bs: set<nat>) returns (s': State)
    requires s.mutex.Nobody? && bs <= s.memory.free
    ensures Goes(s, [StartHandle, Allocate(bs), Refer(bs), StopHandle, Commit, Crash], s')
    ensures s'.memory == Image(s.memory.free - bs, s.memory.refs + bs) && bs !! s'.dropped
  {
    var s1 := Do(s, StartHandle);
    var s2 := Do(s1, Allocate(bs));
    var s3 := Do(s2, Refer(bs));
    var s4 := Do(s3, StopHandle);
    var s5 := Do(s4, Commit);
    s' := Do(s5, Crash);
    hide Enabled, Do;
    assert Goes(s', [], s');
    GoesFirst(s5, Crash, [], s');
    GoesFirst(s4, Commit, [Crash], s');
    GoesFirst(s3, StopHandle, [Commit, Crash], s');
    GoesFirst(s2, Refer(bs), [StopHandle, Commit, Crash], s');
    GoesFirst(s1, Allocate(bs), [Refer(bs), StopHandle, Commit, Crash], s');
    GoesFirst(s, StartHandle, [Allocate(bs), Refer(bs), StopHandle, Commit, Crash], s');
  }

  /** A run that is released and committed is discarded by the scan that follows, all of it that is whole units. */
  lemma ReleasedRunIsDiscarded(s: State, b: nat, e: nat) returns (s': State)
    requires s.mutex.Nobody? && b < e <= s.size && RunSet(b, e - b) !! s.memory.free
    ensures Goes(s, [StartHandle, Release(RunSet(b, e - b)), StopHandle, ForceCommit, Issue(b, e), EndScan], s')
    ensures s'.memory == s'.committed == Image(s.memory.free + RunSet(b, e - b), s.memory.refs - RunSet(b, e - b))
    ensures s'.pending == s.pending + RunSet(b, e - b) - Sent(s, b, e) && s'.dropped == s.dropped + Lost(s, b, e)
    ensures s'.mutex.Nobody?
  {
    hide RunSet, Sent, Lost;
    var bs := RunSet(b, e - b);
    var s1 := Do(s, StartHandle);
    var s2 := Do(s1, Release(bs));
    var s3 := Do(s2, StopHandle);
    var s4 := Do(s3, ForceCommit);
    var s5 := Do(s4, Issue(b, e));
    s' := Do(s5, EndScan);
    SameUnits(s, s4, b, e);
    hide Enabled, Do;
    assert Goes(s', [], s');
    GoesFirst(s5, EndScan, [], s');
    GoesFirst(s4, Issue(b, e), [EndScan], s');
    GoesFirst(s3, ForceCommit, [Issue(b, e), EndScan], s');
    GoesFirst(s2, StopHandle, [ForceCommit, Issue(b, e), EndScan], s');
    GoesFirst(s1, Release(bs), [StopHandle, ForceCommit, Issue(b, e), EndScan], s');
    GoesFirst(s, StartHandle, [Release(bs), StopHandle, ForceCommit, Issue(b, e), EndScan], s');
  }

  lemma SameUnits(s: State, t: State, b: nat, e: nat)
    requires t.size == s.size && t.gran == s.gran
    ensures Sent(s, b, e) == Sent(t, b, e) && Lost(s, b, e) == Lost(t, b, e)
  {
  }
}
