/**
 * The recovery marker over mounts, crashes and unmounts (simplefs_journal.c,
 * simplefs_super.c). The marker lives in the superblock, and the superblock is also ordinary
 * journalled metadata, so stale images of it pass through the log. JBD2 is taken as a list
 * of committed transactions that replay in order.
 */
module Lifecycle {
  /** A metadata block; `dirty` is s_needs_recovery and means something in block 0 only. */
  datatype Block = Block(data: nat, dirty: bool)

  type Image = map<nat, Block>

  const SUPER: nat := 0

  ghost function Replayed(home: Image, log: seq<Image>): Image {
    if log == [] then home else Replayed(home, log[..|log| - 1]) + log[|log| - 1]
  }

  /** The metadata without the marker. */
  ghost function Metadata(m: Image): map<nat, nat> {
    map b | b in m :: m[b].data
  }

  ghost predicate Logged(log: seq<Image>, b: nat) {
    exists i :: 0 <= i < |log| && b in log[i]
  }

  /**
   * Where a mount stands. `ro` is the mount's own read-only flag. Frozen is a writable mount
   * that has been remounted read-only: the journal goes on committing. Unmounting goes
   * through Committing, Checkpointing, Cleaning and Cleaned.
   */
  datatype Phase =
    | Down
    | Replaying(ro: bool)
    | Marking(ro: bool)
    | Marked(ro: bool)
    | Up(ro: bool)
    | Frozen
    | Protected
    | Committing
    | Checkpointing
    | Cleaning
    | Cleaned

  datatype State = State(
    /** Durable. */
    home: Image,
    log: seq<Image>,
    /** What the last commit record stands for. */
    committed: Image,
    /** Volatile. */
    phase: Phase,
    needsRecovery: bool,
    memory: Image,
    running: Image,
    shutdown: bool,
    aborted: bool)

  datatype Step =
    | Mount(readOnly: bool)
    | ReplayBlock(b: nat)
    | ReplayEnd
    | WriteMarker
    | MountDone
    | MountFails
    | MountProtected
    /** The file system has no reconfigure operation, so a remount only flips the flag. */
    | RemountReadOnly
    | RemountWritable
    | Update(b: nat, data: nat)
    | Commit
    | WriteHome(b: nat)
    | TrimLog
    | Shutdown(abort: bool)
    | Unmount
    | UnmountCommits
    | UnmountCheckpoints
    | ClearMarker
    | Detach
    | Crash

  ghost predicate Writable(p: Phase) {
    p == Up(false) || p.Frozen? || p.Committing? || p.Checkpointing? || p.Cleaning?
  }

  ghost predicate Enabled(s: State, step: Step) {
    match step
    case Mount(_) => s.phase.Down?
    case ReplayBlock(b) => s.phase.Replaying? && b in s.home && b in Replayed(s.home, s.log)
    case ReplayEnd => s.phase.Replaying? && s.home == Replayed(s.home, s.log)
    case WriteMarker => s.phase.Marking? && SUPER in s.home
    case MountDone => s.phase.Marked?
    case MountFails => s.phase.Replaying? || s.phase.Marking? || s.phase.Marked?
    case MountProtected => s.phase.Down? && SUPER in s.home && !s.home[SUPER].dirty
    case RemountReadOnly => s.phase == Up(false)
    case RemountWritable => s.phase == Up(true) || s.phase.Frozen?
    case Update(b, _) => s.phase == Up(false) && !s.aborted && b in s.memory
    case Commit => Writable(s.phase) && !s.aborted
    case WriteHome(b) => Writable(s.phase) && !s.aborted && b in s.home && b in Replayed(s.home, s.log)
    // A transaction leaves the log once its blocks are at home or logged again later.
    case TrimLog => Writable(s.phase) && !s.aborted && s.log != []
      && forall b :: b in s.log[0] ==> Logged(s.log[1..], b) || (b in s.home && s.home[b] == s.log[0][b])
    case Shutdown(_) => s.phase.Up? || Writable(s.phase)
    case Unmount => s.phase == Up(false) && !s.shutdown
    case UnmountCommits => s.phase.Committing? && !s.aborted
    case UnmountCheckpoints => s.phase.Checkpointing? && !s.aborted && s.log == [] && s.running == map[]
    case ClearMarker => s.phase.Cleaning? && SUPER in s.home
    case Detach => s.phase.Up? || s.phase.Protected? || s.phase.Cleaned? || Writable(s.phase)
    case Crash => true
  }

  /** simplefs_journal_set_needs_recovery: nothing when the mount already knows that value. */
  ghost function SetMarker(s: State, dirty: bool): State
    requires SUPER in s.home
  {
    if s.needsRecovery == dirty then s
    else s.(home := s.home[SUPER := s.home[SUPER].(dirty := dirty)], needsRecovery := dirty)
  }

  /** A commit record for the running transaction, if there is anything in it. */
  ghost function Committed(s: State): State {
    if s.running == map[] then s else s.(log := s.log + [s.running], committed := s.committed + s.running, running := map[])
  }

  /** Everything in memory is gone. */
  ghost function Lost(s: State): State {
    s.(phase := Down, memory := map[], running := map[], shutdown := false, aborted := false)
  }

  ghost function Do(s: State, step: Step): State
    requires Enabled(s, step)
  {
    match step
    case Mount(readOnly) =>
      s.(phase := Replaying(readOnly), needsRecovery := SUPER in s.home && s.home[SUPER].dirty)
    case ReplayBlock(b) => s.(home := s.home[b := Replayed(s.home, s.log)[b]])
    case ReplayEnd => s.(log := [], phase := Marking(s.phase.ro))
    case WriteMarker => SetMarker(s, !s.phase.ro).(phase := Marked(s.phase.ro))
    case MountDone => s.(phase := Up(s.phase.ro), memory := s.home, running := map[])
    case MountFails => Lost(s)
    case MountProtected => s.(phase := Protected, memory := s.home)
    case RemountReadOnly => s.(phase := Frozen)
    case RemountWritable => s.(phase := Up(false))
    case Update(b, data) =>
      var image := Block(data, s.memory[b].dirty);
      s.(memory := s.memory[b := image], running := s.running[b := image])
    case Commit => Committed(s)
    case WriteHome(b) => s.(home := s.home[b := Replayed(s.home, s.log)[b]])
    case TrimLog => s.(log := s.log[1..])
    case Shutdown(abort) => s.(shutdown := true, aborted := s.aborted || abort)
    case Unmount => s.(phase := Committing)
    case UnmountCommits => Committed(s).(phase := Checkpointing)
    case UnmountCheckpoints => s.(phase := Cleaning)
    case ClearMarker => SetMarker(s, false).(phase := Cleaned)
    case Detach => Lost(s)
    case Crash => Lost(s)
  }

  // ---------- replay ----------

  /** Replay takes each block from the last transaction that holds it, or from its home. */
  lemma {:induction false} ReplayedAt(home: Image, log: seq<Image>, b: nat)
    ensures b in Replayed(home, log) <==> b in home || Logged(log, b)
    ensures !Logged(log, b) && b in home ==> Replayed(home, log)[b] == home[b]
  {
    if log != [] {
      var rest := log[..|log| - 1];
      ReplayedAt(home, rest, b);
      assert Logged(log, b) <==> Logged(rest, b) || b in log[|log| - 1] by {
        if i :| 0 <= i < |rest| && b in rest[i] {
          assert b in log[i];
        }
        if b in log[|log| - 1] {
          assert Logged(log, b);
        }
      }
    }
  }

  /** A logged block replays to the same value whatever its home holds. */
  lemma {:induction false} ReplayedLogged(h1: Image, h2: Image, log: seq<Image>, b: nat)
    requires Logged(log, b)
    ensures b in Replayed(h1, log) && b in Replayed(h2, log) && Replayed(h1, log)[b] == Replayed(h2, log)[b]
  {
    if b !in log[|log| - 1] {
      var i :| 0 <= i < |log| && b in log[i];
      assert b in log[..|log| - 1][i];
      ReplayedLogged(h1, h2, log[..|log| - 1], b);
    }
  }

  /** Writing a committed block home, in replay or in a checkpoint, changes no replay. */
  lemma WriteHomeKeepsReplay(home: Image, log: seq<Image>, b: nat)
    requires b in home && b in Replayed(home, log)
    ensures Replayed(home[b := Replayed(home, log)[b]], log) == Replayed(home, log)
  {
    var home' := home[b := Replayed(home, log)[b]];
    forall x: nat
      ensures x in Replayed(home', log) <==> x in Replayed(home, log)
      ensures x in Replayed(home, log) ==> Replayed(home', log)[x] == Replayed(home, log)[x]
    {
      ReplayedAt(home, log, x);
      ReplayedAt(home', log, x);
      if Logged(log, x) {
        ReplayedLogged(home, home', log, x);
      }
    }
  }

  lemma {:induction false} ReplayFirst(home: Image, log: seq<Image>)
    requires log != []
    ensures Replayed(home, log) == Replayed(home + log[0], log[1..])
  {
    if |log| > 1 {
      ReplayFirst(home, log[..|log| - 1]);
      assert log[..|log| - 1][1..] == log[1..][..|log| - 2];
    }
  }

  lemma TrimKeepsReplay(home: Image, log: seq<Image>)
    requires log != []
    requires forall b :: b in log[0] ==> Logged(log[1..], b) || (b in home && home[b] == log[0][b])
    ensures Replayed(home, log[1..]) == Replayed(home, log)
  {
    ReplayFirst(home, log);
    var home' := home + log[0];
    forall x: nat
      ensures x in Replayed(home', log[1..]) <==> x in Replayed(home, log[1..])
      ensures x in Replayed(home, log[1..]) ==> Replayed(home', log[1..])[x] == Replayed(home, log[1..])[x]
    {
      ReplayedAt(home, log[1..], x);
      ReplayedAt(home', log[1..], x);
      if Logged(log[1..], x) {
        ReplayedLogged(home, home', log[1..], x);
      }
    }
  }

  lemma CommitReplay(home: Image, log: seq<Image>, tx: Image)
    ensures Replayed(home, log + [tx]) == Replayed(home, log) + tx
  {
    assert (log + [tx])[..|log|] == log;
  }

  // ---------- the invariant ----------

  ghost predicate DirtyImages(log: seq<Image>) {
    forall i :: 0 <= i < |log| && SUPER in log[i] ==> log[i][SUPER].dirty
  }

  ghost predicate PhaseOk(s: State)
    requires SUPER in s.home
  {
    && (s.phase.Replaying? ==> s.needsRecovery == s.home[SUPER].dirty)
    && (s.phase.Marking? ==> s.log == [] && s.needsRecovery == s.home[SUPER].dirty)
    && (s.phase.Marked? ==> s.log == [] && s.needsRecovery == s.home[SUPER].dirty == !s.phase.ro)
    && (s.phase == Up(true) ==> s.log == [] && !s.home[SUPER].dirty && s.memory == s.home && s.running == map[])
    && (Writable(s.phase) ==>
          && s.needsRecovery && s.home[SUPER].dirty
          && s.running.Keys <= s.home.Keys && s.memory.Keys == s.home.Keys && s.memory[SUPER].dirty
          && (SUPER in s.running ==> s.running[SUPER].dirty)
          && s.memory == Replayed(s.home, s.log) + s.running)
    && (s.phase.Cleaning? ==> s.log == [] && s.running == map[])
  }

  ghost predicate Inv(s: State)
  {
    && SUPER in s.home && s.home.Keys == s.committed.Keys
    && (forall i :: 0 <= i < |s.log| ==> s.log[i].Keys <= s.home.Keys)
    && DirtyImages(s.log)
    && Metadata(Replayed(s.home, s.log)) == Metadata(s.committed)
    && (!s.home[SUPER].dirty ==> s.log == [])
    && PhaseOk(s)
  }

  lemma ReplayKeys(home: Image, log: seq<Image>)
    requires forall i :: 0 <= i < |log| ==> log[i].Keys <= home.Keys
    ensures Replayed(home, log).Keys == home.Keys
  {
    forall b: nat ensures b in Replayed(home, log) <==> b in home {
      ReplayedAt(home, log, b);
    }
  }

  /** The marker that replay leaves behind is dirty if home or any logged superblock is. */
  lemma {:induction false} ReplayMarker(home: Image, log: seq<Image>)
    requires SUPER in home && DirtyImages(log) && home[SUPER].dirty
    ensures SUPER in Replayed(home, log) && Replayed(home, log)[SUPER].dirty
  {
    if log != [] {
      ReplayMarker(home, log[..|log| - 1]);
    }
  }

  lemma MarkerIsNotMetadata(m: Image, dirty: bool)
    requires SUPER in m
    ensures Metadata(m[SUPER := m[SUPER].(dirty := dirty)]) == Metadata(m)
  {
  }

  lemma MetadataMerge(a: Image, b: Image, tx: Image)
    requires Metadata(a) == Metadata(b)
    ensures Metadata(a + tx) == Metadata(b + tx)
  {
    assert forall x :: x in a <==> x in Metadata(a);
    assert forall x :: x in b <==> x in Metadata(b);
    forall x | x in Metadata(a + tx) ensures Metadata(a + tx)[x] == Metadata(b + tx)[x] {
      if x !in tx {
        assert Metadata(a)[x] == Metadata(b)[x];
      }
    }
  }

  lemma EmptyLog(home: Image)
    ensures Replayed(home, []) == home && DirtyImages([])
  {
  }

  lemma MountStep(s: State, step: Step)
    requires Inv(s) && Enabled(s, step)
    requires step.Mount? || step.ReplayEnd? || step.WriteMarker? || step.MountDone? || step.MountFails? || step.MountProtected?
    ensures Inv(Do(s, step))
  {
    hide Metadata, Replayed, DirtyImages;
    EmptyLog(s.home);
    if step.WriteMarker? {
      MarkerIsNotMetadata(s.home, !s.phase.ro);
      EmptyLog(Do(s, step).home);
    }
  }

  lemma WriteHomeStep(s: State, step: Step)
    requires Inv(s) && Enabled(s, step) && (step.WriteHome? || step.ReplayBlock?)
    ensures Inv(Do(s, step))
  {
    hide Metadata, Replayed, DirtyImages;
    EmptyLog(s.home);
    ReplayKeys(s.home, s.log);
    WriteHomeKeepsReplay(s.home, s.log, step.b);
    if s.home[SUPER].dirty {
      ReplayMarker(s.home, s.log);
    }
  }

  lemma UpdateStep(s: State, step: Step)
    requires Inv(s) && Enabled(s, step) && step.Update?
    ensures Inv(Do(s, step))
  {
    hide Metadata, Replayed;
  }

  lemma CommitStep(s: State)
    requires Inv(s) && Writable(s.phase)
    ensures var t := Committed(s);
      && Inv(t) && t.running == map[]
  {
    hide Metadata, Replayed;
    CommitReplay(s.home, s.log, s.running);
    MetadataMerge(Replayed(s.home, s.log), s.committed, s.running);
  }

  lemma TrimStep(s: State)
    requires Inv(s) && Enabled(s, TrimLog)
    ensures Inv(Do(s, TrimLog))
  {
    hide Metadata, Replayed, Logged, DirtyImages;
    TrimKeepsReplay(s.home, s.log);
    FewerDirtyImages(s.log);
  }

  lemma FewerDirtyImages(log: seq<Image>)
    requires DirtyImages(log) && log != []
    ensures DirtyImages(log[1..])
  {
  }

  lemma ClearMarkerStep(s: State)
    requires Inv(s) && Enabled(s, ClearMarker)
    ensures Inv(Do(s, ClearMarker))
  {
    hide Metadata, Replayed, DirtyImages;
    MarkerIsNotMetadata(s.home, false);
    EmptyLog(s.home);
    EmptyLog(Do(s, ClearMarker).home);
  }

  lemma UnmountStep(s: State, step: Step)
    requires Inv(s) && Enabled(s, step)
    requires step.Unmount? || step.UnmountCommits? || step.UnmountCheckpoints? || step.ClearMarker?
    ensures Inv(Do(s, step))
  {
    hide Metadata, Replayed, DirtyImages;
    if step.UnmountCommits? {
      CommitStep(s);
    } else if step.ClearMarker? {
      ClearMarkerStep(s);
    }
  }

  /** A remount to writable finds the marker dirty. */
  ghost predicate Careful(s: State, step: Step) {
    step.RemountWritable? ==> SUPER in s.home && s.home[SUPER].dirty
  }

  lemma StepKeepsInv(s: State, step: Step)
    requires Inv(s) && Enabled(s, step) && Careful(s, step)
    ensures Inv(Do(s, step))
  {
    hide Metadata, Replayed, DirtyImages;
    match step
    case WriteHome(_) => WriteHomeStep(s, step);
    case ReplayBlock(_) => WriteHomeStep(s, step);
    case Update(_, _) => UpdateStep(s, step);
    case Commit => CommitStep(s);
    case TrimLog => TrimStep(s);
    case Shutdown(_) =>
    case RemountReadOnly =>
    case RemountWritable =>
    case Detach =>
    case Crash =>
    case _ =>
      if step.Unmount? || step.UnmountCommits? || step.UnmountCheckpoints? || step.ClearMarker? {
        UnmountStep(s, step);
      } else {
        MountStep(s, step);
      }
  }

  ghost predicate Run(states: seq<State>, steps: seq<Step>) {
    && |states| == |steps| + 1
    && forall i :: 0 <= i < |steps| ==>
         Enabled(states[i], steps[i]) && Careful(states[i], steps[i]) && states[i + 1] == Do(states[i], steps[i])
  }

  /** mkfs leaves a clean marker and an empty log. */
  ghost predicate Formatted(s: State) {
    && s.phase.Down? && SUPER in s.home && !s.home[SUPER].dirty && s.log == [] && s.committed == s.home
  }

  lemma {:induction false} RunKeepsInv(states: seq<State>, steps: seq<Step>, i: nat)
    requires Run(states, steps) && Formatted(states[0]) && i <= |steps|
    ensures Inv(states[i])
  {
    if i > 0 {
      RunKeepsInv(states, steps, i - 1);
      StepKeepsInv(states[i - 1], steps[i - 1]);
    } else {
      assert Replayed(states[0].home, []) == states[0].home;
    }
  }

  /** The promise of the marker fails here. */
  ghost predicate MarkerLies(s: State) {
    SUPER in s.home && !s.home[SUPER].dirty && s.log != []
  }

  /** One update and one commit after a remount to writable. */
  ghost predicate BreaksAfterRemount(s: State, data: nat) {
    && Enabled(s, RemountWritable)
    && var s1 := Do(s, RemountWritable);
    && Enabled(s1, Update(SUPER, data))
    && var s2 := Do(s1, Update(SUPER, data));
    && Enabled(s2, Commit) && MarkerLies(Do(s2, Commit)) && MarkerLies(Lost(Do(s2, Commit)))
  }

  lemma CleanRemountBreaks(s: State, data: nat)
    requires s.phase == Up(true) && s.log == [] && SUPER in s.home && !s.home[SUPER].dirty && s.memory == s.home && !s.aborted
    ensures BreaksAfterRemount(s, data)
  {
    var s1 := Do(s, RemountWritable);
    var s2 := Do(s1, Update(SUPER, data));
    assert SUPER in s2.running;
  }

  /** Such a mount is reached from any formatted volume: it need only be mounted read-only. */
  lemma CleanReadOnlyMountIsReached(s: State, data: nat) returns (states: seq<State>, steps: seq<Step>)
    requires Formatted(s) && !s.aborted
    ensures Run(states, steps) && states[0] == s && BreaksAfterRemount(states[|steps|], data)
  {
    EmptyLog(s.home);
    var s1 := s.(phase := Replaying(true), needsRecovery := false);
    var s2 := s1.(phase := Marking(true));
    var s3 := s2.(phase := Marked(true));
    var s4 := s3.(phase := Up(true), memory := s.home, running := map[]);
    assert Moves(s, Mount(true), s1);
    assert Moves(s1, ReplayEnd, s2);
    assert Moves(s2, WriteMarker, s3);
    assert Moves(s3, MountDone, s4);
    hide Moves, Enabled, Do;
    states, steps := [s, s1, s2, s3, s4], [Mount(true), ReplayEnd, WriteMarker, MountDone];
    FourMoves(states, steps);
    CleanRemountBreaks(s4, data);
  }

  ghost predicate Moves(s: State, step: Step, s': State) {
    Enabled(s, step) && Careful(s, step) && s' == Do(s, step)
  }

  lemma FourMoves(states: seq<State>, steps: seq<Step>)
    requires |states| == 5 && |steps| == 4
    requires Moves(states[0], steps[0], states[1]) && Moves(states[1], steps[1], states[2])
    requires Moves(states[2], steps[2], states[3]) && Moves(states[3], steps[3], states[4])
    ensures Run(states, steps)
  {
    hide Enabled, Do, Careful;
  }

  /**
   * A remount to writable keeps the promise, in all that follows, if and only if the marker is
   * dirty: on a mount that came up read-only, the next update and commit break it, and a
   * crash leaves it broken.
   */
  lemma RemountKeepsPromiseIffDirty(s: State, data: nat)
    requires Inv(s) && Enabled(s, RemountWritable) && !s.aborted
    ensures s.home[SUPER].dirty ==> Inv(Do(s, RemountWritable))
    ensures !s.home[SUPER].dirty ==> BreaksAfterRemount(s, data)
  {
    hide Metadata, Replayed, DirtyImages, BreaksAfterRemount;
    if s.home[SUPER].dirty {
      StepKeepsInv(s, RemountWritable);
    } else {
      CleanRemountBreaks(s, data);
    }
  }

  /**
   * Over any run of mounts, remounts that find the marker dirty, updates, crashes at any
   * step, shutdowns and unmounts: a clean marker on the device means that the log is empty
   * and home holds the last commit.
   */
  lemma CleanMeansCheckpointed(states: seq<State>, steps: seq<Step>, i: nat)
    requires Run(states, steps) && Formatted(states[0]) && i <= |steps|
    ensures SUPER in states[i].home
    ensures !states[i].home[SUPER].dirty ==>
        states[i].log == [] && Metadata(states[i].home) == Metadata(states[i].committed)
  {
    RunKeepsInv(states, steps, i);
  }

  /** Mounting a write-protected device without replay shows exactly the last commit. */
  lemma ProtectedMountIsSound(states: seq<State>, steps: seq<Step>, i: nat)
    requires Run(states, steps) && Formatted(states[0]) && i < |steps| && steps[i].MountProtected?
    ensures Metadata(states[i + 1].memory) == Metadata(states[i].committed)
  {
    CleanMeansCheckpointed(states, steps, i);
  }

  /** Replay brings back exactly the last commit, whatever crashes came before, and a mount starts from it. */
  lemma ReplayRestoresCommit(states: seq<State>, steps: seq<Step>, i: nat)
    requires Run(states, steps) && Formatted(states[0]) && i < |steps|
    ensures steps[i].ReplayEnd? ==> Metadata(states[i + 1].home) == Metadata(states[i].committed)
    ensures steps[i].MountDone? ==> Metadata(states[i + 1].memory) == Metadata(states[i].committed)
  {
    RunKeepsInv(states, steps, i);
    if steps[i].MountDone? {
      assert Replayed(states[i].home, []) == states[i].home;
    }
  }

  /** Nothing but a commit moves the state that recovery returns to: crashes and shutdowns lose no commit. */
  lemma OnlyCommitsMove(s: State, step: Step)
    requires Inv(s) && Enabled(s, step) && Careful(s, step) && !step.Commit? && !step.UnmountCommits?
    ensures Metadata(Replayed(Do(s, step).home, Do(s, step).log)) == Metadata(Replayed(s.home, s.log))
  {
    hide Metadata, Replayed, DirtyImages, PhaseOk;
    StepKeepsInv(s, step);
  }

  /** An unmount of a system that is not shut down ends clean, and with every update in place. */
  lemma CleanUnmount(s: State)
    requires Inv(s) && s.phase.Cleaning?
    ensures var t := Do(s, ClearMarker);
      && !t.home[SUPER].dirty && Metadata(t.home) == Metadata(s.memory)
  {
    assert Replayed(s.home, []) == s.home;
    MarkerIsNotMetadata(s.home, false);
    assert s.memory == s.home;
  }

  // ---------- what a commit is for ----------

  /** A commit covers everything in memory. */
  lemma CommitCoversMemory(s: State)
    requires Inv(s) && Writable(s.phase)
    ensures Metadata(Committed(s).committed) == Metadata(s.memory)
  {
    hide Metadata, Replayed, DirtyImages;
    MetadataMerge(Replayed(s.home, s.log), s.committed, s.running);
    if s.running == map[] {
      assert s.committed + s.running == s.committed;
    }
  }

  ghost predicate NoCommitBetween(steps: seq<Step>, i: nat, j: nat) {
    forall k :: i < k < j && k < |steps| ==> !steps[k].Commit? && !steps[k].UnmountCommits?
  }

  lemma {:induction false} CommittedStays(states: seq<State>, steps: seq<Step>, i: nat, j: nat)
    requires Run(states, steps) && i < j <= |steps| && NoCommitBetween(steps, i, j)
    ensures states[j].committed == states[i + 1].committed
    decreases j
  {
    hide Enabled, Do, Careful;
    if i + 1 < j {
      CommittedStays(states, steps, i, j - 1);
      OnlyCommitsRecord(states[j - 1], steps[j - 1]);
    }
  }

  lemma OnlyCommitsRecord(s: State, step: Step)
    requires Enabled(s, step) && !step.Commit? && !step.UnmountCommits?
    ensures Do(s, step).committed == s.committed
  {
    hide Replayed, Logged;
  }

  /**
   * What was in memory at a commit is what the next mount shows, whatever happened in between,
   * crashes and half-finished mounts and unmounts included.
   */
  lemma CommitIsWhatMountsShow(states: seq<State>, steps: seq<Step>, i: nat, j: nat)
    requires Run(states, steps) && Formatted(states[0]) && i < j < |steps| && NoCommitBetween(steps, i, j)
    requires (steps[i].Commit? || steps[i].UnmountCommits?) && steps[j].MountDone?
    ensures Metadata(states[j + 1].memory) == Metadata(states[i].memory)
  {
    hide Metadata, Inv, Careful, Formatted, NoCommitBetween;
    RunKeepsInv(states, steps, i);
    CommitCoversMemory(states[i]);
    CommittedStays(states, steps, i, j);
    ReplayRestoresCommit(states, steps, j);
  }

  // ---------- mounts and unmounts can be completed ----------

  ghost predicate Goes(s: State, steps: seq<Step>, s': State)
    decreases |steps|
  {
    if steps == [] then s' == s
    else Enabled(s, steps[0]) && Careful(s, steps[0]) && Goes(Do(s, steps[0]), steps[1..], s')
  }

  ghost predicate Reaches(s: State, s': State) {
    exists steps :: Goes(s, steps, s')
  }

  lemma OneStep(s: State, step: Step, s': State)
    requires Moves(s, step, s')
    ensures Reaches(s, s')
  {
    hide Enabled, Careful, Do;
    assert [step][1..] == [];
    assert Goes(s, [step], s');
  }

  lemma Stays(s: State)
    ensures Reaches(s, s)
  {
    assert Goes(s, [], s);
  }

  lemma {:induction false} GoesOn(a: State, p: seq<Step>, b: State, q: seq<Step>, c: State)
    requires Goes(a, p, b) && Goes(b, q, c)
    ensures Goes(a, p + q, c)
    decreases |p|
  {
    hide Enabled, Careful, Do;
    if p == [] {
      assert p + q == q;
    } else {
      assert (p + q)[0] == p[0] && (p + q)[1..] == p[1..] + q;
      GoesOn(Do(a, p[0]), p[1..], b, q, c);
    }
  }

  lemma Onward(a: State, b: State, c: State)
    requires Reaches(a, b) && Reaches(b, c)
    ensures Reaches(a, c)
  {
    hide Goes;
    var p :| Goes(a, p, b);
    var q :| Goes(b, q, c);
    GoesOn(a, p, b, q, c);
  }

  lemma {:induction false} ReachesKeepsInv(s: State, steps: seq<Step>, s': State)
    requires Inv(s) && Goes(s, steps, s')
    ensures Inv(s')
    decreases |steps|
  {
    hide Inv, Enabled, Careful, Do;
    if steps != [] {
      StepKeepsInv(s, steps[0]);
      ReachesKeepsInv(Do(s, steps[0]), steps[1..], s');
    }
  }

  /** Blocks written home one by one, in replay or in a checkpoint. */
  lemma {:induction false} WritesHome(s: State, todo: set<nat>)
    requires s.phase.Replaying? || (Writable(s.phase) && !s.aborted)
    requires Replayed(s.home, s.log).Keys == s.home.Keys && todo <= s.home.Keys
    requires forall b :: b in s.home && b !in todo ==> s.home[b] == Replayed(s.home, s.log)[b]
    ensures Reaches(s, s.(home := Replayed(s.home, s.log)))
    decreases todo
  {
    hide Replayed, Reaches;
    var all := Replayed(s.home, s.log);
    if todo == {} {
      assert s.home == all;
      Stays(s);
    } else {
      var b :| b in todo;
      var s1 := s.(home := s.home[b := all[b]]);
      assert Moves(s, if s.phase.Replaying? then ReplayBlock(b) else WriteHome(b), s1);
      OneStep(s, if s.phase.Replaying? then ReplayBlock(b) else WriteHome(b), s1);
      WriteHomeKeepsReplay(s.home, s.log, b);
      WritesHome(s1, todo - {b});
      Onward(s, s1, s.(home := all));
    }
  }

  lemma LastCopyAtHome(log: seq<Image>, home: Image, b: nat)
    requires log != [] && b in log[0] && b in home && home == Replayed(home, log)
    ensures Logged(log[1..], b) || home[b] == log[0][b]
  {
    hide Replayed;
    if !Logged(log[1..], b) {
      ReplayFirst(home, log);
      ReplayedAt(home + log[0], log[1..], b);
    }
  }

  /** Once everything is at home the log can be trimmed to nothing. */
  lemma {:induction false} Trims(s: State)
    requires Writable(s.phase) && !s.aborted && s.home == Replayed(s.home, s.log)
    requires forall i :: 0 <= i < |s.log| ==> s.log[i].Keys <= s.home.Keys
    ensures Reaches(s, s.(log := []))
    decreases |s.log|
  {
    hide Replayed, Reaches, Logged;
    if s.log == [] {
      Stays(s);
    } else {
      forall b | b in s.log[0] ensures Logged(s.log[1..], b) || (b in s.home && s.home[b] == s.log[0][b]) {
        LastCopyAtHome(s.log, s.home, b);
      }
      var s1 := s.(log := s.log[1..]);
      assert Moves(s, TrimLog, s1);
      OneStep(s, TrimLog, s1);
      TrimKeepsReplay(s.home, s.log);
      Trims(s1);
      Onward(s, s1, s.(log := []));
    }
  }

  /** A mount can always be completed, and shows the last commit. */
  lemma MountCompletes(s: State, ro: bool) returns (s': State)
    requires Inv(s) && s.phase.Down?
    ensures Reaches(s, s') && Inv(s') && s'.phase == Up(ro) && s'.log == [] && Metadata(s'.memory) == Metadata(s.committed)
  {
    hide Reaches, Metadata, Replayed, DirtyImages, PhaseOk;
    ReplayKeys(s.home, s.log);
    var all := Replayed(s.home, s.log);
    var s1 := Do(s, Mount(ro));
    OneStep(s, Mount(ro), s1);
    var s2 := s1.(home := all);
    WritesHome(s1, s.home.Keys);
    Onward(s, s1, s2);
    HomeReplays(s.home, s.log);
    var s3 := s2.(log := [], phase := Marking(ro));
    assert Moves(s2, ReplayEnd, s3);
    OneStep(s2, ReplayEnd, s3);
    Onward(s, s2, s3);
    var s4 := Do(s3, WriteMarker);
    OneStep(s3, WriteMarker, s4);
    Onward(s, s3, s4);
    s' := Do(s4, MountDone);
    OneStep(s4, MountDone, s');
    Onward(s, s4, s');
    MarkerIsNotMetadata(all, !ro);
    ReachedInv(s, s');
  }

  lemma ReachedInv(s: State, s': State)
    requires Inv(s) && Reaches(s, s')
    ensures Inv(s')
  {
    hide Inv, Goes;
    var steps :| Goes(s, steps, s');
    ReachesKeepsInv(s, steps, s');
  }

  /** Replaying once more over a replayed home changes nothing. */
  lemma HomeReplays(home: Image, log: seq<Image>)
    requires forall i :: 0 <= i < |log| ==> log[i].Keys <= home.Keys
    ensures Replayed(Replayed(home, log), log) == Replayed(home, log)
  {
    hide Replayed;
    var all := Replayed(home, log);
    ReplayKeys(home, log);
    forall x: nat
      ensures x in Replayed(all, log) <==> x in all
      ensures x in all ==> Replayed(all, log)[x] == all[x]
    {
      ReplayedAt(all, log, x);
      ReplayedAt(home, log, x);
      if Logged(log, x) {
        ReplayedLogged(home, all, log, x);
      }
    }
  }

  lemma UnmountCommitsAll(s: State) returns (s': State)
    requires Inv(s) && s.phase == Up(false) && !s.shutdown && !s.aborted
    ensures Reaches(s, s') && Inv(s') && s'.phase.Checkpointing? && s'.running == map[] && !s'.aborted && s'.memory == s.memory
  {
    hide Reaches, Metadata, Replayed, DirtyImages, PhaseOk;
    var s1 := s.(phase := Committing);
    OneStep(s, Unmount, s1);
    s' := Committed(s1).(phase := Checkpointing);
    OneStep(s1, UnmountCommits, s');
    Onward(s, s1, s');
    ReachedInv(s, s');
  }

  lemma UnmountEmptiesLog(s: State) returns (s': State)
    requires Inv(s) && s.phase.Checkpointing? && s.running == map[] && !s.aborted
    ensures Reaches(s, s') && Inv(s') && s'.phase.Cleaning? && s'.memory == s.memory
  {
    hide Reaches, Metadata, Replayed, DirtyImages, PhaseOk;
    ReplayKeys(s.home, s.log);
    HomeReplays(s.home, s.log);
    var s1 := s.(home := Replayed(s.home, s.log));
    WritesHome(s, s.home.Keys);
    var s2 := s1.(log := []);
    Trims(s1);
    Onward(s, s1, s2);
    s' := s2.(phase := Cleaning);
    assert Moves(s2, UnmountCheckpoints, s');
    OneStep(s2, UnmountCheckpoints, s');
    Onward(s, s2, s');
    ReachedInv(s, s');
  }

  lemma UnmountClearsMarker(s: State) returns (s': State)
    requires Inv(s) && s.phase.Cleaning?
    ensures Reaches(s, s') && s'.phase.Down? && s'.log == [] && SUPER in s'.home && !s'.home[SUPER].dirty
    ensures Metadata(s'.home) == Metadata(s.memory)
  {
    hide Reaches, Metadata, Replayed, DirtyImages;
    CleanUnmount(s);
    var s1 := Do(s, ClearMarker);
    OneStep(s, ClearMarker, s1);
    s' := Lost(s1);
    OneStep(s1, Detach, s');
    Onward(s, s1, s');
  }

  /** So can an unmount: it ends with a clean marker, an empty log and every update at home. */
  lemma UnmountCompletes(s: State) returns (s': State)
    requires Inv(s) && s.phase == Up(false) && !s.shutdown && !s.aborted
    ensures Reaches(s, s') && s'.phase.Down? && s'.log == [] && SUPER in s'.home && !s'.home[SUPER].dirty
    ensures Metadata(s'.home) == Metadata(s.memory)
  {
    hide Reaches, Metadata, Inv;
    var s1 := UnmountCommitsAll(s);
    var s2 := UnmountEmptiesLog(s1);
    Onward(s, s1, s2);
    s' := UnmountClearsMarker(s2);
    Onward(s, s2, s');
  }

  // ---------- what stops a mount ----------

  /** A crash at any moment, a mount that fails and a detach lose nothing that was committed: the next mount shows it. */
  lemma StoppedMountRecovers(s: State, stop: Step, ro: bool) returns (s': State)
    requires Inv(s)
    requires match stop
      case Crash => true
      case MountFails => s.phase.Replaying? || s.phase.Marking? || s.phase.Marked?
      case Detach => s.phase.Up? || s.phase.Protected? || s.phase.Cleaned? || Writable(s.phase)
      case _ => false
    ensures Enabled(s, stop) && Do(s, stop).phase.Down? && Do(s, stop).memory == map[] && Do(s, stop).running == map[]
    ensures Reaches(Do(s, stop), s') && s'.phase == Up(ro) && Metadata(s'.memory) == Metadata(s.committed)
  {
    hide Metadata, Replayed, DirtyImages, Reaches;
    StepKeepsInv(s, stop);
    s' := MountCompletes(Do(s, stop), ro);
  }

  /** After a shutdown that aborts the journal nothing more reaches the device but what a detach or a crash leaves. */
  lemma ShutdownStops(s: State, abort: bool)
    requires Inv(s) && (s.phase.Up? || Writable(s.phase))
    ensures Enabled(s, Shutdown(abort))
    ensures var t := Do(s, Shutdown(abort));
      && Inv(t) && !Enabled(t, Unmount) && t.home == s.home && t.log == s.log
      && (abort ==> !Enabled(t, Commit) && !Enabled(t, TrimLog) && !Enabled(t, UnmountCommits)
                    && (forall b: nat, data: nat :: !Enabled(t, Update(b, data))) && forall b: nat :: !Enabled(t, WriteHome(b)))
  {
    hide Metadata, Replayed, Inv;
    assert Enabled(s, Shutdown(abort)) && Careful(s, Shutdown(abort));
    StepKeepsInv(s, Shutdown(abort));
    if abort {
      AbortedWritesNothing(Do(s, Shutdown(abort)));
    }
  }

  lemma AbortedWritesNothing(s: State)
    requires s.aborted
    ensures !Enabled(s, Commit) && !Enabled(s, TrimLog) && !Enabled(s, UnmountCommits)
    ensures (forall b: nat, data: nat :: !Enabled(s, Update(b, data))) && forall b: nat :: !Enabled(s, WriteHome(b))
  {
    hide Replayed;
  }

  /** A read-only remount stops updates but not commits, and a writable one takes it back. */
  lemma RemountRoundTrip(s: State)
    requires Inv(s) && s.phase == Up(false)
    ensures Enabled(s, RemountReadOnly)
    ensures var t := Do(s, RemountReadOnly);
      && (forall b: nat, data: nat :: !Enabled(t, Update(b, data))) && (!s.aborted ==> Enabled(t, Commit))
      && Enabled(t, RemountWritable) && Careful(t, RemountWritable) && Do(t, RemountWritable) == s
  {
    hide Metadata, Replayed, DirtyImages;
  }

  /** A clean volume can be mounted from a write-protected device. */
  lemma CleanMountsProtected(s: State)
    requires Inv(s) && s.phase.Down?
    ensures Enabled(s, MountProtected) <==> !s.home[SUPER].dirty
    ensures !s.home[SUPER].dirty ==> Metadata(Do(s, MountProtected).memory) == Metadata(s.committed)
  {
    hide Metadata;
    EmptyLog(s.home);
  }
}
