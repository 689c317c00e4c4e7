/**
 * No edit gets stuck: on a healthy journalled volume every plan can be carried through to
 * its end, from the moment the inode's tree is loaded until its spare blocks are back with
 * the allocator, and a commit then makes it last.
 */
module EditRuns {
  import opened Wrappers
  import opened Extents
  import opened ExtentTree
  import opened FileOps
  import opened Rebuild
  import P = Protocol
  import J = Journalled

  ghost predicate Goes(s: J.State, steps: seq<J.Step>, s': J.State)
    decreases |steps|
  {
    if steps == [] then s' == s else J.Enabled(s, steps[0]) && Goes(J.Do(s, steps[0]), steps[1..], s')
  }

  ghost predicate Reaches(s: J.State, s': J.State) {
    exists steps :: Goes(s, steps, s')
  }

  lemma Stays(s: J.State)
    ensures Reaches(s, s)
  {
    assert Goes(s, [], s);
  }

  lemma OneStep(s: J.State, st: J.Step, s': J.State)
    requires J.Enabled(s, st) && J.Do(s, st) == s'
    ensures Reaches(s, s')
  {
    hide J.Enabled, J.Do;
    assert [st][1..] == [];
    assert Goes(s, [st], s');
  }

  lemma {:induction false} GoesOn(a: J.State, p: seq<J.Step>, b: J.State, q: seq<J.Step>, c: J.State)
    requires Goes(a, p, b) && Goes(b, q, c)
    ensures Goes(a, p + q, c)
    decreases |p|
  {
    hide J.Enabled, J.Do;
    if p == [] {
      assert p + q == q;
    } else {
      assert (p + q)[0] == p[0] && (p + q)[1..] == p[1..] + q;
      GoesOn(J.Do(a, p[0]), p[1..], b, q, c);
    }
  }

  lemma Onward(a: J.State, b: J.State, c: J.State)
    requires Reaches(a, b) && Reaches(b, c)
    ensures Reaches(a, c)
  {
    hide Goes;
    var p :| Goes(a, p, b);
    var q :| Goes(b, q, c);
    GoesOn(a, p, b, q, c);
  }

  /** Inode i in another phase of its edit. */
  ghost function At(s: J.State, i: nat, p: P.Phase): J.State
    requires i in s.nodes
  {
    s.(nodes := s.nodes[i := s.nodes[i].(phase := p)])
  }

  ghost function Counted(s: J.State, i: nat, delta: int): J.State
    requires i in s.counts
  {
    s.(counts := s.counts[i := s.counts[i] + delta])
  }

  // ---------- the steps one by one ----------

  lemma Begins(s: J.State, i: nat)
    requires i in s.nodes && s.nodes[i].phase.Idle?
    ensures Reaches(s, At(s, i, P.Editing(P.NOTHING)))
  {
    OneStep(s, J.Plain(P.Begin(i)), At(s, i, P.Editing(P.NOTHING)));
  }

  lemma TakesData(s: J.State, i: nat, held: P.Held, data: set<nat>)
    requires i in s.nodes && i in s.counts && s.nodes[i].phase == P.Editing(held) && data <= s.free && !s.shutdown
    ensures Reaches(s, Counted(At(s, i, P.Editing(P.Held(held.data + data, held.leaves))).(free := s.free - data), i, |data|))
  {
    OneStep(s, J.Plain(P.Alloc(i, data)),
            Counted(At(s, i, P.Editing(P.Held(held.data + data, held.leaves))).(free := s.free - data), i, |data|));
  }

  lemma TakesLeaf(s: J.State, i: nat, held: P.Held, b: nat)
    requires i in s.nodes && s.nodes[i].phase == P.Editing(held) && b in s.free && !s.shutdown
    ensures Reaches(s, At(s, i, P.Editing(P.Held(held.data, held.leaves + {b}))).(free := s.free - {b}))
  {
    OneStep(s, J.Plain(P.AllocLeaf(i, b)), At(s, i, P.Editing(P.Held(held.data, held.leaves + {b}))).(free := s.free - {b}));
  }

  lemma Plans(s: J.State, i: nat, held: P.Held, plan: Loaded)
    requires i in s.nodes && s.nodes[i].phase == P.Editing(held) && P.PlanOk(s.nodes[i], held, plan)
    ensures Reaches(s, At(s, i, P.Leaves(held, plan, 0)))
  {
    hide P.PlanOk;
    OneStep(s, J.Plain(P.MakePlan(i, plan)), At(s, i, P.Leaves(held, plan, 0)));
  }

  lemma WritesLeaf(s: J.State, i: nat, held: P.Held, plan: Loaded, w: nat) returns (s': J.State)
    requires i in s.nodes && s.nodes[i].phase == P.Leaves(held, plan, w) && w < |plan.leaves| == LeafCount(|plan.extents|)
    ensures Reaches(s, s') && s' == At(s, i, P.Leaves(held, plan, w + 1)).(cache := s'.cache) && s.cache.Keys <= s'.cache.Keys
  {
    hide LeafCount, Chunk;
    s' := J.Do(s, J.WriteLeaf(i));
    OneStep(s, J.WriteLeaf(i), s');
  }

  lemma WritesRoot(s: J.State, i: nat, held: P.Held, plan: Loaded) returns (s': J.State)
    requires i in s.nodes && s.nodes[i].phase == P.Leaves(held, plan, |plan.leaves|)
    requires |plan.leaves| == LeafCount(|plan.extents|) && s.nodes[i].root in s.cache
    ensures var n := s.nodes[i];
      && Reaches(s, s')
      && s' == s.(cache := s'.cache,
                  nodes := s.nodes[i := P.Node(n.root, plan,
                    P.Retiring(SetOf(n.tree.leaves) + held.leaves - SetOf(plan.leaves),
                               DataSet(n.tree.extents) + held.data - DataSet(plan.extents), |n.tree.leaves|))])
  {
    hide LeafCount, RootFor, SetOf, DataSet;
    s' := J.Do(s, J.WriteRoot(i));
    OneStep(s, J.WriteRoot(i), s');
  }

  lemma Retires(s: J.State, i: nat, leaves: set<nat>, data: set<nat>, was: nat, b: nat)
    requires i in s.nodes && s.nodes[i].phase == P.Retiring(leaves, data, was) && b in leaves && !s.shutdown
    ensures Reaches(s, At(s, i, P.Retiring(leaves - {b}, data, was)).(free := s.free + {b}))
  {
    OneStep(s, J.Plain(P.Retire(i, b)), At(s, i, P.Retiring(leaves - {b}, data, was)).(free := s.free + {b}));
  }

  lemma CountsLeaves(s: J.State, i: nat, data: set<nat>, was: nat)
    requires i in s.nodes && i in s.counts && s.nodes[i].phase == P.Retiring({}, data, was)
    ensures Reaches(s, Counted(At(s, i, P.Releasing(data)), i, |s.nodes[i].tree.leaves| - was))
  {
    OneStep(s, J.Plain(P.CountLeaves(i)), Counted(At(s, i, P.Releasing(data)), i, |s.nodes[i].tree.leaves| - was));
  }

  lemma ReleasesData(s: J.State, i: nat, data: set<nat>)
    requires i in s.nodes && i in s.counts && s.nodes[i].phase == P.Releasing(data) && !s.shutdown
    ensures Reaches(s, Counted(At(s, i, P.Releasing({})).(free := s.free + data), i, -|data|))
  {
    assert data - data == {};
    OneStep(s, J.Plain(P.Release(i, data)), Counted(At(s, i, P.Releasing({})).(free := s.free + data), i, -|data|));
  }

  lemma Finishes(s: J.State, i: nat)
    requires i in s.nodes && s.nodes[i].phase.Releasing?
    ensures Reaches(s, At(s, i, P.Idle))
  {
    OneStep(s, J.Plain(P.Finish(i)), At(s, i, P.Idle));
  }

  // ---------- the loops ----------

  lemma SamePhase(s: J.State, i: nat, p: P.Phase)
    requires i in s.nodes && s.nodes[i].phase == p
    ensures At(s, i, p) == s
  {
  }

  lemma LastPhase(s: J.State, i: nat, p: P.Phase, q: P.Phase, free: set<nat>, free': set<nat>)
    requires i in s.nodes
    ensures At(At(s, i, p).(free := free), i, q).(free := free') == At(s, i, q).(free := free')
  {
  }

  lemma {:induction false} TakesLeaves(s: J.State, i: nat, held: P.Held, leaves: seq<nat>)
    requires i in s.nodes && s.nodes[i].phase == P.Editing(held) && !s.shutdown && Distinct(leaves) && SetOf(leaves) <= s.free
    ensures Reaches(s, At(s, i, P.Editing(P.Held(held.data, held.leaves + SetOf(leaves)))).(free := s.free - SetOf(leaves)))
    decreases |leaves|
  {
    hide Reaches;
    if leaves == [] {
      assert held.leaves + SetOf(leaves) == held.leaves && s.free - SetOf(leaves) == s.free;
      SamePhase(s, i, P.Editing(held));
      Stays(s);
    } else {
      var n := |leaves| - 1;
      NextBlock(leaves, n);
      assert leaves[..n + 1] == leaves;
      var some, b := SetOf(leaves[..n]), leaves[n];
      TakesLeaves(s, i, held, leaves[..n]);
      var s1 := At(s, i, P.Editing(P.Held(held.data, held.leaves + some))).(free := s.free - some);
      TakesLeaf(s1, i, P.Held(held.data, held.leaves + some), b);
      assert held.leaves + some + {b} == held.leaves + SetOf(leaves) && s.free - some - {b} == s.free - SetOf(leaves);
      LastPhase(s, i, s1.nodes[i].phase, P.Editing(P.Held(held.data, held.leaves + SetOf(leaves))), s1.free,
                s.free - SetOf(leaves));
      Onward(s, s1, At(s, i, P.Editing(P.Held(held.data, held.leaves + SetOf(leaves)))).(free := s.free - SetOf(leaves)));
    }
  }

  lemma {:induction false} WritesLeaves(s: J.State, i: nat, held: P.Held, plan: Loaded, w: nat) returns (s': J.State)
    requires i in s.nodes && s.nodes[i].phase == P.Leaves(held, plan, w) && w <= |plan.leaves| == LeafCount(|plan.extents|)
    ensures Reaches(s, s') && s' == At(s, i, P.Leaves(held, plan, |plan.leaves|)).(cache := s'.cache)
    ensures s.cache.Keys <= s'.cache.Keys
    decreases |plan.leaves| - w
  {
    hide Reaches, LeafCount;
    if w == |plan.leaves| {
      SamePhase(s, i, P.Leaves(held, plan, w));
      Stays(s);
      s' := s;
    } else {
      var s1 := WritesLeaf(s, i, held, plan, w);
      s' := WritesLeaves(s1, i, held, plan, w + 1);
      Onward(s, s1, s');
    }
  }

  lemma {:induction false} RetiresAll(s: J.State, i: nat, leaves: set<nat>, data: set<nat>, was: nat)
    requires i in s.nodes && s.nodes[i].phase == P.Retiring(leaves, data, was) && !s.shutdown
    ensures Reaches(s, At(s, i, P.Retiring({}, data, was)).(free := s.free + leaves))
    decreases leaves
  {
    hide Reaches;
    if leaves == {} {
      assert s.free + leaves == s.free;
      SamePhase(s, i, P.Retiring({}, data, was));
      Stays(s);
    } else {
      var b :| b in leaves;
      Retires(s, i, leaves, data, was, b);
      var s1 := At(s, i, P.Retiring(leaves - {b}, data, was)).(free := s.free + {b});
      RetiresAll(s1, i, leaves - {b}, data, was);
      assert s.free + {b} + (leaves - {b}) == s.free + leaves;
      LastPhase(s, i, s1.nodes[i].phase, P.Retiring({}, data, was), s1.free, s.free + leaves);
      Onward(s, s1, At(s, i, P.Retiring({}, data, was)).(free := s.free + leaves));
    }
  }

  // ---------- the whole edit ----------

  /** Up to the plan: the tree is loaded, and the edit has the blocks it needs. */
  lemma ComesToPlan(s: J.State, i: nat, data: set<nat>, leaves: seq<nat>, plan: Loaded) returns (s': J.State)
    requires i in s.nodes && i in s.counts && s.nodes[i].phase.Idle? && !s.shutdown
    requires data <= s.free && Distinct(leaves) && SetOf(leaves) <= s.free - data
    requires P.PlanOk(s.nodes[i], P.Held(data, SetOf(leaves)), plan)
    ensures Reaches(s, s')
    ensures s' == Counted(At(s, i, P.Leaves(P.Held(data, SetOf(leaves)), plan, 0)), i, |data|)
                    .(free := s.free - data - SetOf(leaves))
  {
    hide Reaches, P.PlanOk, SetOf, Distinct;
    var s1 := At(s, i, P.Editing(P.NOTHING));
    Begins(s, i);
    assert {} + data == data;
    var s2 := Counted(At(s1, i, P.Editing(P.Held(data, {}))).(free := s1.free - data), i, |data|);
    TakesData(s1, i, P.NOTHING, data);
    Onward(s, s1, s2);
    assert {} + SetOf(leaves) == SetOf(leaves);
    var s3 := At(s2, i, P.Editing(P.Held(data, SetOf(leaves)))).(free := s2.free - SetOf(leaves));
    TakesLeaves(s2, i, P.Held(data, {}), leaves);
    Onward(s, s2, s3);
    SamePlan(s.nodes[i], s3.nodes[i], P.Held(data, SetOf(leaves)), plan);
    s' := At(s3, i, P.Leaves(P.Held(data, SetOf(leaves)), plan, 0));
    Plans(s3, i, P.Held(data, SetOf(leaves)), plan);
    Onward(s, s3, s');
  }

  lemma SamePlan(n: P.Node, m: P.Node, held: P.Held, plan: Loaded)
    requires P.PlanOk(n, held, plan) && m.root == n.root && m.tree == n.tree
    ensures P.PlanOk(m, held, plan)
  {
  }

  /** From the plan on: leaves, root, spare leaves, spare data. */
  lemma ComesToEnd(s: J.State, i: nat, held: P.Held, plan: Loaded) returns (s': J.State)
    requires i in s.nodes && i in s.counts && s.nodes[i].phase == P.Leaves(held, plan, 0) && !s.shutdown
    requires |plan.leaves| == LeafCount(|plan.extents|) && s.nodes[i].root in s.cache
    ensures var n := s.nodes[i];
      var data := DataSet(n.tree.extents) + held.data - DataSet(plan.extents);
      && Reaches(s, s')
      && s' == s.(cache := s'.cache, nodes := s.nodes[i := P.Node(n.root, plan, P.Idle)],
                  free := s.free + (SetOf(n.tree.leaves) + held.leaves - SetOf(plan.leaves)) + data,
                  counts := s.counts[i := s.counts[i] + (|plan.leaves| - |n.tree.leaves|) - |data|])
  {
    hide Reaches, SetOf, DataSet, LeafCount;
    var n := s.nodes[i];
    var leaves := SetOf(n.tree.leaves) + held.leaves - SetOf(plan.leaves);
    var data := DataSet(n.tree.extents) + held.data - DataSet(plan.extents);
    var was := |n.tree.leaves|;
    var s1 := WritesLeaves(s, i, held, plan, 0);
    var s2 := WritesRoot(s1, i, held, plan);
    Onward(s, s1, s2);
    var s3 := At(s2, i, P.Retiring({}, data, was)).(free := s2.free + leaves);
    RetiresAll(s2, i, leaves, data, was);
    Onward(s, s2, s3);
    var s4 := Counted(At(s3, i, P.Releasing(data)), i, |plan.leaves| - was);
    CountsLeaves(s3, i, data, was);
    Onward(s, s3, s4);
    var s5 := Counted(At(s4, i, P.Releasing({})).(free := s4.free + data), i, -|data|);
    ReleasesData(s4, i, data);
    Onward(s, s4, s5);
    s' := At(s5, i, P.Idle);
    Finishes(s5, i);
    Onward(s, s5, s');
  }

  /** The allocator's books over a whole edit. */
  lemma EditBooks(free: set<nat>, l: Loaded, plan: Loaded, data: set<nat>, leaves: set<nat>)
    requires TreeBlocks(l) !! free && DataSet(l.extents) !! SetOf(l.leaves)
    requires data <= free && leaves <= free - data && DataSet(plan.extents) !! SetOf(plan.leaves)
    requires DataSet(plan.extents) <= DataSet(l.extents) + data && SetOf(plan.leaves) <= SetOf(l.leaves) + leaves
    ensures free + TreeBlocks(l) - TreeBlocks(plan) ==
      free - data - leaves + (SetOf(l.leaves) + leaves - SetOf(plan.leaves))
        + (DataSet(l.extents) + data - DataSet(plan.extents))
    ensures |data| - |DataSet(l.extents) + data - DataSet(plan.extents)| == |DataSet(plan.extents)| - |DataSet(l.extents)|
  {
    hide DataSet, SetOf;
    Balance(free, DataSet(l.extents), SetOf(l.leaves), data, leaves, DataSet(plan.extents), SetOf(plan.leaves));
    SizesMove(DataSet(l.extents), data, DataSet(plan.extents));
  }

  lemma Balance(free: set<nat>, a: set<nat>, p: set<nat>, data: set<nat>, leaves: set<nat>, b: set<nat>, q: set<nat>)
    requires a + p !! free && a !! p && data <= free && leaves <= free - data && b !! q && b <= a + data && q <= p + leaves
    ensures free - data - leaves + (p + leaves - q) + (a + data - b) == free + (a + p) - (b + q)
  {
    forall x: nat
      ensures x in free - data - leaves + (p + leaves - q) + (a + data - b) <==> x in free + (a + p) - (b + q)
    {
    }
  }

  lemma SizesMove(a: set<nat>, data: set<nat>, b: set<nat>)
    requires a !! data && b <= a + data
    ensures |data| - |a + data - b| == |b| - |a|
  {
    var all := a + data;
    assert all == (all - b) + b;
    assert |all| == |a| + |data| && |all| == |all - b| + |b|;
  }

  lemma {:induction false} StepsAreRun(v: J.Volume, steps: seq<J.Step>, s': J.State) returns (events: seq<J.Event>)
    requires Goes(v.now, steps, s')
    ensures J.Run(v, events, v.(now := s')) && forall e :: e in events ==> e.Takes?
    decreases |steps|
  {
    hide J.Enabled, J.Do;
    if steps == [] {
      events := [];
    } else {
      var next := v.(now := J.Do(v.now, steps[0]));
      var rest := StepsAreRun(next, steps[1..], s');
      events := [J.Takes(steps[0])] + rest;
      assert events[0] == J.Takes(steps[0]) && events[1..] == rest;
    }
  }

  /** What the invariant says of an idle inode. */
  lemma IdleFacts(s: J.State, i: nat)
    requires P.Inv(J.Eager(s)) && i in s.nodes && s.nodes[i].phase.Idle?
    ensures i in s.counts && s.nodes[i].root in s.cache
    ensures TreeBlocks(s.nodes[i].tree) !! s.free && DataSet(s.nodes[i].tree.extents) !! SetOf(s.nodes[i].tree.leaves)
    ensures Load(s.cache, s.nodes[i].root) == Ok(s.nodes[i].tree)
  {
    hide P.Inv, P.Meta, Load, DataSet, SetOf, LeafCount;
    P.InvNode(J.Eager(s), i);
    P.PublishedLoads(s.cache, s.nodes[i].root, s.nodes[i].tree);
  }

  lemma PlanFacts(n: P.Node, held: P.Held, plan: Loaded)
    requires P.PlanOk(n, held, plan)
    ensures |plan.leaves| == LeafCount(|plan.extents|) && DataSet(plan.extents) !! SetOf(plan.leaves)
    ensures DataSet(plan.extents) <= DataSet(n.tree.extents) + held.data
    ensures SetOf(plan.leaves) <= SetOf(n.tree.leaves) + held.leaves
  {
    hide DataSet, LeafCount;
    forall x | x in SetOf(plan.leaves) ensures x in SetOf(n.tree.leaves) + held.leaves {
      var j :| 0 <= j < |plan.leaves| && plan.leaves[j] == x;
      if j < |n.tree.leaves| {
        assert x in SetOf(n.tree.leaves);
      }
    }
  }

  /**
   * Every edit can be completed.  From any state of a volume that is not shut down, an idle
   * inode and any plan over its own blocks and free ones: there is a run, without a commit or
   * a crash, after which the root loads as the plan, every other inode is as it was, the free
   * blocks are exactly those the old tree gave up and the plan did not take, and the block
   * count has moved by the difference.
   */
  lemma EditCompletes(v: J.Volume, i: nat, data: set<nat>, leaves: seq<nat>, plan: Loaded)
      returns (events: seq<J.Event>, v': J.Volume)
    requires J.VolumeOk(v) && i in v.now.nodes && v.now.nodes[i].phase.Idle? && !v.now.shutdown
    requires data <= v.now.free && Distinct(leaves) && SetOf(leaves) <= v.now.free - data
    requires P.PlanOk(v.now.nodes[i], P.Held(data, SetOf(leaves)), plan)
    ensures J.Run(v, events, v') && (forall e :: e in events ==> e.Takes?) && J.VolumeOk(v')
    ensures v'.now.nodes == v.now.nodes[i := P.Node(v.now.nodes[i].root, plan, P.Idle)] && v'.now.sides == v.now.sides
    ensures Load(v'.now.cache, v.now.nodes[i].root) == Ok(plan)
    ensures v'.now.free == v.now.free + TreeBlocks(v.now.nodes[i].tree) - TreeBlocks(plan)
    ensures i in v.now.counts && v'.now.counts == v.now.counts[i := v.now.counts[i]
      + (|plan.leaves| + |DataSet(plan.extents)|)
      - (|v.now.nodes[i].tree.leaves| + |DataSet(v.now.nodes[i].tree.extents)|)]
  {
    hide Goes, P.Inv, P.PlanOk, SetOf, DataSet, Load, TreeBlocks, Distinct;
    IdleFacts(v.now, i);
    var s' := EditRunsThrough(v.now, i, data, leaves, plan);
    var steps :| Goes(v.now, steps, s');
    events := StepsAreRun(v, steps, s');
    v' := v.(now := s');
    J.RunKeepsOk(v, events, v');
    IdleFacts(s', i);
  }

  lemma EditRunsThrough(s: J.State, i: nat, data: set<nat>, leaves: seq<nat>, plan: Loaded) returns (s': J.State)
    requires i in s.nodes && i in s.counts && s.nodes[i].phase.Idle? && !s.shutdown && s.nodes[i].root in s.cache
    requires TreeBlocks(s.nodes[i].tree) !! s.free && DataSet(s.nodes[i].tree.extents) !! SetOf(s.nodes[i].tree.leaves)
    requires data <= s.free && Distinct(leaves) && SetOf(leaves) <= s.free - data
    requires P.PlanOk(s.nodes[i], P.Held(data, SetOf(leaves)), plan)
    ensures Reaches(s, s') && s'.sides == s.sides && s'.nodes == s.nodes[i := P.Node(s.nodes[i].root, plan, P.Idle)]
    ensures s'.free == s.free + TreeBlocks(s.nodes[i].tree) - TreeBlocks(plan)
    ensures s'.counts == s.counts[i := s.counts[i] + (|plan.leaves| + |DataSet(plan.extents)|)
      - (|s.nodes[i].tree.leaves| + |DataSet(s.nodes[i].tree.extents)|)]
  {
    hide Reaches, P.PlanOk, SetOf, DataSet, LeafCount, TreeBlocks, Distinct;
    PlanFacts(s.nodes[i], P.Held(data, SetOf(leaves)), plan);
    var s1 := ComesToPlan(s, i, data, leaves, plan);
    s' := ComesToEnd(s1, i, P.Held(data, SetOf(leaves)), plan);
    Onward(s, s1, s');
    EditBooks(s.free, s.nodes[i].tree, plan, data, SetOf(leaves));
  }

  /** And then it lasts: an edit completed and committed is what a later crash brings back. */
  lemma CommittedEditLasts(v: J.Volume, i: nat, data: set<nat>, leaves: seq<nat>, plan: Loaded)
      returns (events: seq<J.Event>, v': J.Volume)
    requires J.VolumeOk(v) && i in v.now.nodes && v.now.nodes[i].phase.Idle? && !v.now.shutdown
    requires data <= v.now.free && Distinct(leaves) && SetOf(leaves) <= v.now.free - data
    requires P.PlanOk(v.now.nodes[i], P.Held(data, SetOf(leaves)), plan)
    ensures J.Run(v, events, v') && J.VolumeOk(v')
    ensures J.Possible(v', J.Commit) ==>
      forall later, v'' :: J.Commit !in later && J.Run(v', [J.Commit] + later + [J.Crash], v'') ==>
        && i in v''.now.nodes && v''.now.nodes[i].root == v.now.nodes[i].root
        && Load(v''.now.cache, v.now.nodes[i].root) == Ok(plan)
        && v''.now.free == v.now.free + TreeBlocks(v.now.nodes[i].tree) - TreeBlocks(plan)
  {
    hide J.VolumeOk, J.Run, J.Possible, P.PlanOk, Load, TreeBlocks, SetOf, Distinct, DataSet;
    events, v' := EditCompletes(v, i, data, leaves, plan);
    if J.Possible(v', J.Commit) {
      forall later, v'' | J.Commit !in later && J.Run(v', [J.Commit] + later + [J.Crash], v'')
        ensures i in v''.now.nodes && v''.now.nodes[i].root == v.now.nodes[i].root
        ensures Load(v''.now.cache, v.now.nodes[i].root) == Ok(plan)
        ensures v''.now.free == v.now.free + TreeBlocks(v.now.nodes[i].tree) - TreeBlocks(plan)
      {
        J.CommitLasts(v', later, v'');
      }
    }
  }

  // ---------- eviction ----------

  /** The volume without inode i, its blocks free. */
  ghost function Without(s: J.State, i: nat): J.State {
    s.(nodes := s.nodes - {i}, sides := s.sides - {i}, counts := s.counts - {i}, free := s.free + P.Owned(J.Eager(s), i))
  }

  lemma StartsEviction(s: J.State, i: nat)
    requires i in s.sides && (i in s.nodes ==> s.nodes[i].phase.Idle?) && !s.shutdown && i !in s.records
    ensures var all := P.Owned(J.Eager(s), i);
      Reaches(s, s.(nodes := s.nodes - {i}, sides := s.sides - {i}, counts := s.counts - {i},
                    leaving := s.leaving[i := P.Evicted(J.Eager(s), i)], records := s.records[i := all]))
  {
    hide P.Owned, P.Evicted;
    OneStep(s, J.Plain(P.BeginEvict(i)), s.(nodes := s.nodes - {i}, sides := s.sides - {i}, counts := s.counts - {i},
                    leaving := s.leaving[i := P.Evicted(J.Eager(s), i)], records := s.records[i := P.Owned(J.Eager(s), i)]));
  }

  lemma PutsEvicted(s: J.State, i: nat, l: P.Leaving)
    requires i in s.leaving && s.leaving[i] == l && !s.shutdown
    ensures Reaches(s, s.(free := s.free + l.Left(), leaving := s.leaving[i := P.Leaving(l.had, {}, {})]))
  {
    assert l.data - l.Left() == {} && l.meta - l.Left() == {};
    OneStep(s, J.Plain(P.PutEvicted(i, l.Left())),
            s.(free := s.free + l.Left(), leaving := s.leaving[i := P.Leaving(l.had, {}, {})]));
  }

  lemma ClearsInode(s: J.State, i: nat)
    requires i in s.leaving
    ensures Reaches(s, s.(leaving := s.leaving - {i}, records := s.records - {i}))
  {
    OneStep(s, J.ClearInode(i), s.(leaving := s.leaving - {i}, records := s.records - {i}));
  }

  lemma AllOfIt(s: J.State, i: nat)
    requires i in s.sides && (i in s.nodes ==> s.nodes[i].phase.Idle?)
    ensures P.Evicted(J.Eager(s), i).Left() == P.Owned(J.Eager(s), i)
  {
  }

  lemma EvictionRuns(s: J.State, i: nat)
    requires i in s.sides && (i in s.nodes ==> s.nodes[i].phase.Idle?) && !s.shutdown && i !in s.records && i !in s.leaving
    ensures Reaches(s, Without(s, i))
  {
    hide Reaches, P.Owned, P.Evicted;
    var all := P.Owned(J.Eager(s), i);
    var l := P.Evicted(J.Eager(s), i);
    AllOfIt(s, i);
    var s1 := s.(nodes := s.nodes - {i}, sides := s.sides - {i}, counts := s.counts - {i},
                 leaving := s.leaving[i := l], records := s.records[i := all]);
    StartsEviction(s, i);
    var s2 := s1.(free := s1.free + all, leaving := s1.leaving[i := P.Leaving(l.had, {}, {})]);
    PutsEvicted(s1, i, l);
    Onward(s, s1, s2);
    ClearsInode(s2, i);
    assert s2.leaving - {i} == s.leaving && s2.records - {i} == s.records;
    Onward(s, s2, Without(s, i));
  }

  lemma NotLeaving(v: J.Volume, i: nat)
    requires J.VolumeOk(v) && i in v.now.sides
    ensures i !in v.now.leaving && i !in v.now.records
  {
    hide P.TreesOk, P.SidesOk, P.KindsOk, P.DirtyOk;
  }

  /** Every idle inode can be evicted, and then all its blocks are free and its number is too. */
  lemma EvictionCompletes(v: J.Volume, i: nat) returns (events: seq<J.Event>, v': J.Volume)
    requires J.VolumeOk(v) && i in v.now.sides && (i in v.now.nodes ==> v.now.nodes[i].phase.Idle?) && !v.now.shutdown
    ensures J.Run(v, events, v') && (forall e :: e in events ==> e.Takes?) && J.VolumeOk(v')
    ensures v' == v.(now := Without(v.now, i)) && P.NumberFree(J.Eager(v'.now), i)
  {
    hide Goes, P.Inv, P.Owned;
    NotLeaving(v, i);
    EvictionRuns(v.now, i);
    var steps :| Goes(v.now, steps, Without(v.now, i));
    events := StepsAreRun(v, steps, Without(v.now, i));
    v' := v.(now := Without(v.now, i));
    J.RunKeepsOk(v, events, v');
  }

  /** A new file starts empty, and evicting it gives back the volume there was before. */
  lemma CreateThenEvict(v: J.Volume, i: nat, kind: Kind, b: nat)
      returns (events: seq<J.Event>, v1: J.Volume, more: seq<J.Event>, v2: J.Volume)
    requires J.VolumeOk(v) && P.NumberFree(J.Eager(v.now), i) && P.HasTreeKind(kind) && b in v.now.free && !v.now.shutdown
    ensures J.Run(v, events, v1) && J.Run(v1, more, v2)
    ensures i in v1.now.nodes && Load(v1.now.cache, v1.now.nodes[i].root) == Ok(Loaded([], []))
    ensures v2.now.cache.Keys == v.now.cache.Keys && v2.now == v.now.(cache := v2.now.cache)
  {
    hide P.Inv, Load;
    FreeIsCached(v.now, b);
    var made := J.Create(i, kind, b);
    events := [J.Takes(made)];
    v1 := v.(now := J.Do(v.now, made));
    assert events[1..] == [];
    J.RunKeepsOk(v, events, v1);
    more, v2 := EvictionCompletes(v1, i);
    NewFileLoads(v1.now.cache, b);
    NewFileOwns(J.Eager(v1.now), i, b);
    assert v2.now.free == v.now.free;
    NumberUnused(v, i);
    assert v2.now.nodes == v.now.nodes && v2.now.sides == v.now.sides && v2.now.counts == v.now.counts;
  }

  lemma FreeIsCached(s: J.State, b: nat)
    requires P.Inv(J.Eager(s)) && b in s.free
    ensures b in s.cache
  {
    hide P.TreesOk, P.SidesOk, P.KindsOk, P.DirtyOk, P.LeavingOk;
  }

  lemma NewFileLoads(disk: Disk, b: nat)
    requires b in disk && disk[b] == Root(0, [], [])
    ensures Load(disk, b) == Ok(Loaded([], []))
  {
  }

  lemma NewFileOwns(s: P.State, i: nat, b: nat)
    requires i in s.nodes && s.nodes[i] == P.Node(b, Loaded([], []), P.Idle) && i in s.sides
    requires s.sides[i].link.None? && s.sides[i].xattr.None?
    ensures P.Owned(s, i) == {b}
  {
  }

  lemma NumberUnused(v: J.Volume, i: nat)
    requires J.VolumeOk(v) && P.NumberFree(J.Eager(v.now), i)
    ensures i !in v.now.counts
  {
    hide P.TreesOk, P.SidesOk, P.DirtyOk, P.LeavingOk;
  }

  // ---------- blocks beside the trees ----------

  /** Attribute, symlink and directory blocks can be written at any time, and every tree still loads as it did. */
  lemma SideBlocksAreWritable(v: J.Volume, i: nat, b: nat, content: Block)
    requires J.VolumeOk(v) && i in v.now.sides
    requires || b in P.SideBlocks(v.now.sides[i])
             || (i in v.now.nodes && P.IsDir(J.Eager(v.now), i) && b in P.DataBlocks(v.now.nodes[i]))
    ensures var st := if b in P.SideBlocks(v.now.sides[i]) then J.WriteSide(i, b, content) else J.WriteDir(i, b, content);
      && J.Enabled(v.now, st)
      && var t := J.Do(v.now, st);
      && t == v.now.(cache := v.now.cache[b := content]) && J.VolumeOk(v.(now := t))
      && forall k :: k in v.now.nodes && v.now.nodes[k].phase.Idle? ==>
           Load(t.cache, v.now.nodes[k].root) == Load(v.now.cache, v.now.nodes[k].root)
  {
    hide P.Inv, Load, P.SideBlocks, P.DataBlocks, P.MayPhase, P.MayInode, P.DoPhase, P.DoInode;
    SideBlockCached(v.now, i, b);
    var st := if b in P.SideBlocks(v.now.sides[i]) then J.WriteSide(i, b, content) else J.WriteDir(i, b, content);
    J.EventKeepsOk(v, J.Takes(st));
    var t := J.Do(v.now, st);
    forall k | k in v.now.nodes && v.now.nodes[k].phase.Idle?
      ensures Load(t.cache, v.now.nodes[k].root) == Load(v.now.cache, v.now.nodes[k].root)
    {
      IdleFacts(v.now, k);
      IdleFacts(t, k);
    }
  }

  lemma SideBlockCached(s: J.State, i: nat, b: nat)
    requires P.Inv(J.Eager(s)) && i in s.sides
    requires b in P.SideBlocks(s.sides[i]) || (i in s.nodes && b in P.DataBlocks(s.nodes[i]))
    ensures b in s.cache
  {
    hide P.Inv, P.NodeInv, P.SideBlocks, DataSet, SetOf;
    if b in P.SideBlocks(s.sides[i]) {
      SidesCached(s, i);
    } else {
      P.InvNode(J.Eager(s), i);
    }
  }

  lemma SidesCached(s: J.State, i: nat)
    requires P.Inv(J.Eager(s)) && i in s.sides
    ensures P.SideBlocks(s.sides[i]) <= s.cache.Keys
  {
    hide P.TreesOk, P.KindsOk, P.DirtyOk, P.LeavingOk, P.SideBlocks, P.Claim;
  }

  // ---------- the error exit ----------

  /** Inode i with blocks taken for an edit that is not planned yet. */
  ghost function Holding(s: J.State, i: nat, data: set<nat>, leaves: set<nat>): J.State
    requires i in s.nodes && i in s.counts
  {
    Counted(At(s, i, P.Editing(P.Held(data, leaves))), i, |data|).(free := s.free - data - leaves)
  }

  lemma PutsLeaf(s: J.State, i: nat, held: P.Held, b: nat)
    requires i in s.nodes && s.nodes[i].phase == P.Editing(held) && b in held.leaves && !s.shutdown
    ensures Reaches(s, At(s, i, P.Editing(P.Held(held.data, held.leaves - {b}))).(free := s.free + {b}))
  {
    OneStep(s, J.Plain(P.GiveBackLeaf(i, b)), At(s, i, P.Editing(P.Held(held.data, held.leaves - {b}))).(free := s.free + {b}));
  }

  lemma PutsData(s: J.State, i: nat, data: set<nat>, counted: bool)
    requires i in s.nodes && i in s.counts && s.nodes[i].phase == P.Editing(P.Held(data, {})) && !s.shutdown
    ensures Reaches(s, Counted(At(s, i, P.Editing(P.Held({}, {}))).(free := s.free + data), i, if counted then -|data| else 0))
  {
    hide Reaches;
    if counted {
      PutsCounted(s, i, data);
    } else {
      PutsUncounted(s, i, data);
    }
  }

  lemma PutsCounted(s: J.State, i: nat, data: set<nat>)
    requires i in s.nodes && i in s.counts && s.nodes[i].phase == P.Editing(P.Held(data, {})) && !s.shutdown
    ensures Reaches(s, Counted(At(s, i, P.Editing(P.Held({}, {}))).(free := s.free + data), i, -|data|))
  {
    hide Reaches, P.MayDisk, P.MayInode, P.DoDisk, P.DoInode;
    assert data - data == {};
    OneStep(s, J.Plain(P.GiveBack(i, data)), Counted(At(s, i, P.Editing(P.Held({}, {}))).(free := s.free + data), i, -|data|));
  }

  lemma PutsUncounted(s: J.State, i: nat, data: set<nat>)
    requires i in s.nodes && i in s.counts && s.nodes[i].phase == P.Editing(P.Held(data, {})) && !s.shutdown
    ensures Reaches(s, Counted(At(s, i, P.Editing(P.Held({}, {}))).(free := s.free + data), i, 0))
  {
    hide Reaches, P.MayDisk, P.MayInode, P.DoDisk, P.DoInode;
    assert data - data == {};
    assert s.counts[i := s.counts[i] + 0] == s.counts;
    OneStep(s, J.Plain(P.PutUncounted(i, data)), Counted(At(s, i, P.Editing(P.Held({}, {}))).(free := s.free + data), i, 0));
  }

  lemma Abandons(s: J.State, i: nat)
    requires i in s.nodes && s.nodes[i].phase.Editing?
    ensures Reaches(s, At(s, i, P.Idle))
  {
    OneStep(s, J.Plain(P.Abandon(i)), At(s, i, P.Idle));
  }

  lemma {:induction false} PutsLeaves(s: J.State, i: nat, data: set<nat>, leaves: set<nat>)
    requires i in s.nodes && s.nodes[i].phase == P.Editing(P.Held(data, leaves)) && !s.shutdown
    ensures Reaches(s, At(s, i, P.Editing(P.Held(data, {}))).(free := s.free + leaves))
    decreases leaves
  {
    hide Reaches;
    if leaves == {} {
      assert s.free + leaves == s.free;
      SamePhase(s, i, P.Editing(P.Held(data, {})));
      Stays(s);
    } else {
      var b :| b in leaves;
      PutsLeaf(s, i, P.Held(data, leaves), b);
      var s1 := At(s, i, P.Editing(P.Held(data, leaves - {b}))).(free := s.free + {b});
      PutsLeaves(s1, i, data, leaves - {b});
      assert s.free + {b} + (leaves - {b}) == s.free + leaves;
      LastPhase(s, i, s1.nodes[i].phase, P.Editing(P.Held(data, {})), s1.free, s.free + leaves);
      Onward(s, s1, At(s, i, P.Editing(P.Held(data, {}))).(free := s.free + leaves));
    }
  }

  /**
   * An edit that fails before it has a plan can put everything back, and the volume is as it
   * was; when the data is put without being counted, all but the block count is.
   */
  lemma EditIsUndone(s: J.State, i: nat, data: set<nat>, leaves: set<nat>, counted: bool)
    requires i in s.nodes && i in s.counts && s.nodes[i].phase.Idle? && !s.shutdown && data <= s.free && leaves <= s.free - data
    ensures Reaches(Holding(s, i, data, leaves), Counted(s, i, if counted then 0 else |data|))
  {
    hide Reaches;
    var h := Holding(s, i, data, leaves);
    PutsLeaves(h, i, data, leaves);
    var h1 := At(h, i, P.Editing(P.Held(data, {}))).(free := h.free + leaves);
    PutsData(h1, i, data, counted);
    var h2 := Counted(At(h1, i, P.Editing(P.Held({}, {}))).(free := h1.free + data), i, if counted then -|data| else 0);
    Onward(h, h1, h2);
    Abandons(h2, i);
    BackAgain(s, i, data, leaves, if counted then -|data| else 0);
    Onward(h, h2, Counted(s, i, if counted then 0 else |data|));
  }

  lemma BackAgain(s: J.State, i: nat, data: set<nat>, leaves: set<nat>, delta: int)
    requires i in s.nodes && i in s.counts && s.nodes[i].phase.Idle? && data <= s.free && leaves <= s.free - data
    ensures var h := Holding(s, i, data, leaves);
      var h1 := At(h, i, P.Editing(P.Held(data, {}))).(free := h.free + leaves);
      var h2 := Counted(At(h1, i, P.Editing(P.Held({}, {}))).(free := h1.free + data), i, delta);
      At(h2, i, P.Idle) == Counted(s, i, |data| + delta)
  {
    assert s.free - data - leaves + leaves + data == s.free;
    var h := Holding(s, i, data, leaves);
    var h1 := At(h, i, P.Editing(P.Held(data, {}))).(free := h.free + leaves);
    var h2 := Counted(At(h1, i, P.Editing(P.Held({}, {}))).(free := h1.free + data), i, delta);
    assert h2.nodes[i := h2.nodes[i].(phase := P.Idle)] == s.nodes;
  }

  /** After a journal failure nothing is allocated, put, retired, released or evicted any more. */
  lemma FailureStops(s: J.State, i: nat, bs: set<nat>, b: nat)
    ensures J.Enabled(s, J.Plain(P.Fail)) && J.Do(s, J.Plain(P.Fail)) == s.(shutdown := true)
    ensures var t := J.Do(s, J.Plain(P.Fail));
      && !J.Enabled(t, J.Plain(P.Alloc(i, bs))) && !J.Enabled(t, J.Plain(P.AllocLeaf(i, b)))
      && !J.Enabled(t, J.Plain(P.GiveBack(i, bs))) && !J.Enabled(t, J.Plain(P.Retire(i, b)))
      && !J.Enabled(t, J.Plain(P.Release(i, bs))) && !J.Enabled(t, J.Plain(P.PutEvicted(i, bs)))
  {
    FailShutsDown(s);
    hide J.Enabled, J.Do;
    StoppedTakesNone(s.(shutdown := true), i, bs, b);
    StoppedGivesNone(s.(shutdown := true), i, bs, b);
  }

  lemma FailShutsDown(s: J.State)
    ensures J.Enabled(s, J.Plain(P.Fail)) && J.Do(s, J.Plain(P.Fail)) == s.(shutdown := true)
  {
    hide P.MayPhase, P.DoPhase, P.MayInode, P.DoInode;
  }

  lemma StoppedTakesNone(s: J.State, i: nat, bs: set<nat>, b: nat)
    requires s.shutdown
    ensures !J.Enabled(s, J.Plain(P.Alloc(i, bs))) && !J.Enabled(s, J.Plain(P.AllocLeaf(i, b)))
    ensures !J.Enabled(s, J.Plain(P.GiveBack(i, bs)))
  {
    hide P.MayDisk, P.MayInode;
  }

  lemma StoppedGivesNone(s: J.State, i: nat, bs: set<nat>, b: nat)
    requires s.shutdown
    ensures !J.Enabled(s, J.Plain(P.Retire(i, b))) && !J.Enabled(s, J.Plain(P.Release(i, bs)))
    ensures !J.Enabled(s, J.Plain(P.PutEvicted(i, bs)))
  {
    hide P.MayDisk;
  }

  // ---------- other inodes, and file data ----------

  /** The volume with a new inode i that has no tree. */
  ghost function With(s: J.State, i: nat, d: P.Side): J.State {
    s.(sides := s.sides[i := d], free := s.free - P.SideBlocks(d), counts := s.counts[i := |P.SideBlocks(d)|])
  }

  lemma WithThenWithout(s: J.State, i: nat, d: P.Side)
    requires i !in s.nodes && i !in s.sides && i !in s.counts && P.SideBlocks(d) <= s.free
    ensures Without(With(s, i, d), i) == s
  {
    hide P.Owned, P.SideBlocks;
    var t := With(s, i, d);
    OwnsSides(J.Eager(t), i);
    assert t.nodes - {i} == s.nodes && t.sides - {i} == s.sides && t.counts - {i} == s.counts;
    assert t.free + P.SideBlocks(d) == s.free;
  }

  lemma MadeRuns(s: J.State, i: nat, kind: Kind, block: Option<nat>, xattr: Option<nat>)
    requires P.NumberFree(J.Eager(s), i) && !s.shutdown && (kind.Symlink? || (kind.Special? && block.None?))
    requires (block.Some? ==> block.value in s.free) && (xattr.Some? ==> xattr.value in s.free && xattr != block)
    ensures Reaches(s, With(s, i, P.Side(kind, block, xattr)))
  {
    hide Reaches;
    var s1 := With(s, i, P.Side(kind, block, None));
    MakesOther(s, i, kind, block);
    if xattr.Some? {
      TakesXattr(s1, i, xattr.value);
      XattrAdded(s, i, kind, block, xattr.value);
      Onward(s, s1, With(s, i, P.Side(kind, block, xattr)));
    }
  }

  lemma OneBlockMore(kind: Kind, block: Option<nat>, b: nat)
    requires block != Some(b)
    ensures var was, now := P.SideBlocks(P.Side(kind, block, None)), P.SideBlocks(P.Side(kind, block, Some(b)));
      now == was + {b} && |now| == |was| + 1
  {
  }

  lemma XattrAdded(s: J.State, i: nat, kind: Kind, block: Option<nat>, b: nat)
    requires block != Some(b)
    ensures var s1 := With(s, i, P.Side(kind, block, None));
      Counted(s1.(sides := s1.sides[i := s1.sides[i].(xattr := Some(b))], free := s1.free - {b}), i, 1)
        == With(s, i, P.Side(kind, block, Some(b)))
  {
    hide P.SideBlocks;
    OneBlockMore(kind, block, b);
    var s1, d := With(s, i, P.Side(kind, block, None)), P.Side(kind, block, Some(b));
    assert s1.sides[i := s1.sides[i].(xattr := Some(b))] == s.sides[i := d];
    assert s1.free - {b} == s.free - P.SideBlocks(d);
    assert s1.counts[i := s1.counts[i] + 1] == s.counts[i := |P.SideBlocks(d)|];
  }

  /** A new symlink or special inode, with an attribute block or not, leaves no trace when it is evicted. */
  lemma OtherKindsThenEvict(v: J.Volume, i: nat, kind: Kind, block: Option<nat>, xattr: Option<nat>)
      returns (events: seq<J.Event>, v1: J.Volume, more: seq<J.Event>, v2: J.Volume)
    requires J.VolumeOk(v) && P.NumberFree(J.Eager(v.now), i) && !v.now.shutdown
    requires (kind.Symlink? || (kind.Special? && block.None?)) && (block.Some? ==> block.value in v.now.free)
    requires xattr.Some? ==> xattr.value in v.now.free && xattr != block
    ensures J.Run(v, events, v1) && v1.now == With(v.now, i, P.Side(kind, block, xattr))
    ensures J.Run(v1, more, v2) && v2 == v
  {
    hide Reaches, P.Inv, J.Run, P.SideBlocks;
    var s1 := With(v.now, i, P.Side(kind, block, xattr));
    MadeRuns(v.now, i, kind, block, xattr);
    events := RunOf(v, s1);
    v1 := v.(now := s1);
    J.RunKeepsOk(v, events, v1);
    more, v2 := EvictionCompletes(v1, i);
    NumberUnused(v, i);
    SideBlocksFree(P.Side(kind, block, xattr), v.now.free);
    WithThenWithout(v.now, i, P.Side(kind, block, xattr));
  }

  lemma SideBlocksFree(d: P.Side, free: set<nat>)
    requires (d.link.Some? ==> d.link.value in free) && (d.xattr.Some? ==> d.xattr.value in free)
    ensures P.SideBlocks(d) <= free
  {
  }

  lemma MakesOther(s: J.State, i: nat, kind: Kind, block: Option<nat>)
    requires P.NumberFree(J.Eager(s), i) && !s.shutdown && (kind.Symlink? || (kind.Special? && block.None?))
    requires block.Some? ==> block.value in s.free
    ensures Reaches(s, With(s, i, P.Side(kind, block, None)))
  {
    hide Reaches;
    var d := P.Side(kind, block, None);
    assert P.SideBlocks(d) == (if block.Some? then {block.value} else {}) && |P.SideBlocks(d)| == if block.Some? then 1 else 0;
    assert s.free - {} == s.free;
    OneStep(s, J.Plain(if kind.Symlink? then P.CreateSymlink(i, block) else P.CreateSpecial(i)), With(s, i, d));
  }

  lemma TakesXattr(s: J.State, i: nat, b: nat)
    requires i in s.sides && i in s.counts && s.sides[i].xattr.None? && b in s.free && !s.shutdown
    ensures Reaches(s, Counted(s.(sides := s.sides[i := s.sides[i].(xattr := Some(b))], free := s.free - {b}), i, 1))
  {
    OneStep(s, J.Plain(P.TakeXattr(i, b)),
            Counted(s.(sides := s.sides[i := s.sides[i].(xattr := Some(b))], free := s.free - {b}), i, 1));
  }

  lemma RunOf(v: J.Volume, s': J.State) returns (events: seq<J.Event>)
    requires Reaches(v.now, s')
    ensures J.Run(v, events, v.(now := s')) && forall e :: e in events ==> e.Takes?
  {
    hide Goes, J.Run;
    var steps :| Goes(v.now, steps, s');
    events := StepsAreRun(v, steps, s');
  }

  lemma OwnsSides(s: P.State, i: nat)
    requires i in s.sides && i !in s.nodes
    ensures P.Owned(s, i) == P.SideBlocks(s.sides[i])
  {
    hide P.SideBlocks;
  }

  /** File data can be written on the device at any time, and no tree loads differently for it. */
  lemma DataIsWritable(s: P.State, i: nat, b: nat, content: Block)
    requires P.Inv(s) && i in s.nodes && b in DataSet(s.nodes[i].tree.extents) && !P.IsDir(s, i)
    ensures P.Enabled(s, P.WriteData(i, b, content))
    ensures var t := P.Do(s, P.WriteData(i, b, content));
      && t == s.(durable := s.durable[b := content]) && P.Inv(t)
      && forall k :: k in s.nodes && s.nodes[k].phase.Idle? && s.nodes[k].root !in s.unborn ==>
           Load(t.durable, s.nodes[k].root) == Load(s.durable, s.nodes[k].root) == Ok(s.nodes[k].tree)
  {
    hide P.Inv, Load, DataSet, P.Meta, SetOf, LeafCount;
    P.InvNode(s, i);
    P.StepKeepsInv(s, P.WriteData(i, b, content));
    var t := P.Do(s, P.WriteData(i, b, content));
    forall k | k in s.nodes && s.nodes[k].phase.Idle? && s.nodes[k].root !in s.unborn
      ensures Load(t.durable, s.nodes[k].root) == Load(s.durable, s.nodes[k].root) == Ok(s.nodes[k].tree)
    {
      P.InvNode(s, k);
      P.PublishedLoads(s.durable, s.nodes[k].root, s.nodes[k].tree);
      P.InvNode(t, k);
      P.PublishedLoads(t.durable, s.nodes[k].root, s.nodes[k].tree);
    }
  }
}
