/** Runs in which everything arrives in order: ordinary undo included, every flag converges. */
module OrderedRuns {
  import opened Identifiers
  import opened Operations
  import opened FugueShape
  import opened EngineState
  import opened OpSets
  import opened Replica
  import opened Convergence
  import opened Network
  import opened Runs
  import opened InOrder

  /** An arrival is a repetition, or comes after what it needs and after what its stream has brought so far. */
  ghost predicate InTurn(c: Config, a: Action) {
    a.Arrive? && a.r in c.replicas && a.r in c.received ==>
      a.op in c.received[a.r] || (Ready(c.replicas[a.r].tree, a.op) && Follows(c.received[a.r], a.op))
  }

  /** Every arrival of the run is. */
  ghost predicate AllInTurn(ids: set<nat>, acts: seq<Action>) {
    acts != [] ==>
      var before := RunOf(ids, acts[..|acts| - 1]);
      AllInTurn(ids, acts[..|acts| - 1]) && before.Some? && InTurn(before.value, acts[|acts| - 1])
  }

  // ------------------------------------------------------------------ one replica

  /** What a replica mints follows everything it has. */
  lemma MintFollows(s: State, p: set<Op>, o: Op)
    requires Ordered(s, p) && Mintable(s, o)
    ensures Follows(p, o) && o.id !in s.applied
  {
    AllAreApplied(s, p);
  }

  lemma MintOrdered(s: State, p: set<Op>, o: Op, t: State)
    requires Ordered(s, p) && Mintable(s, o) && Performed(s, o, t) && Core(t, p + {o})
    ensures Ordered(t, p + {o})
  {
    hide AllStanding, Follows, Effect;
    MintFollows(s, p, o);
    OneInOrder(s, p, o, t);
  }

  lemma SameOrdered(s: State, p: set<Op>, t: State)
    requires Ordered(s, p) && WF(t) && t.tree == s.tree && t.applied == s.applied && t.pending == s.pending
    ensures Ordered(t, p + {})
  {
    CoreClock(s, t, p);
    assert p + {} == p;
  }

  // ------------------------------------------------------------------ the network

  /** Every replica has received in order. */
  ghost predicate OrderedEverywhere(c: Config) {
    Inv(c) && forall r {:trigger At(c, r)} :: At(c, r) ==> Ordered(c.replicas[r], c.received[r])
  }

  lemma GrowOrdered(c: Config, r: nat, t: State, ops: set<Op>)
    requires OrderedEverywhere(c) && At(c, r) && Inv(Grow(c, r, t, ops)) && Ordered(t, c.received[r] + ops)
    ensures OrderedEverywhere(Grow(c, r, t, ops))
  {
    hide Inv, Ordered;
    var c' := Grow(c, r, t, ops);
    forall q | At(c', q) ensures Ordered(c'.replicas[q], c'.received[q]) {
      if q != r { assert At(c, q); }
    }
  }

  lemma CoreAt(c: Config, r: nat)
    requires Inv(c) && At(c, r)
    ensures Core(c.replicas[r], c.received[r])
  {
  }

  lemma MintEverywhere(c: Config, r: nat, o: Op, t: State)
    requires OrderedEverywhere(c) && At(c, r) && Mintable(c.replicas[r], o) && Performed(c.replicas[r], o, t)
    ensures OrderedEverywhere(Grow(c, r, t, {o}))
  {
    hide Mintable, Performed, Ordered, Core, PoolOk;
    MintInv(c, r, o, t);
    assert At(Grow(c, r, t, {o}), r);
    CoreAt(Grow(c, r, t, {o}), r);
    assert Ordered(c.replicas[r], c.received[r]);
    MintOrdered(c.replicas[r], c.received[r], o, t);
    GrowOrdered(c, r, t, {o});
  }

  lemma SameEverywhere(c: Config, r: nat, t: State)
    requires OrderedEverywhere(c) && At(c, r) && WF(t) && t.replica == r
    requires t.tree == c.replicas[r].tree && t.applied == c.replicas[r].applied && t.pending == c.replicas[r].pending
    ensures OrderedEverywhere(Grow(c, r, t, {}))
  {
    hide Ordered, PoolOk, Core;
    SameButStacks(c, r, t);
    SameOrdered(c.replicas[r], c.received[r], t);
    GrowOrdered(c, r, t, {});
  }

  lemma TypeOrdered(c: Config, r: nat, v: int, value: nat, bind: bool)
    requires OrderedEverywhere(c) && Enabled(c, TypeAt(r, v, value, bind))
    ensures OrderedEverywhere(Step(c, TypeAt(r, v, value, bind)))
  {
    hide Inv, Ordered, Mintable, Performed;
    var s := c.replicas[r];
    assert At(c, r);
    if 0 <= v <= NumVis(Flat(s.tree)) {
      InsertPerformed(s, v, value, bind);
      MintEverywhere(c, r, InsertOp(s, v, value, bind), LocalInsert(s, v, value, bind).value);
    } else {
      ReplicaNumber(c, r);
      SameEverywhere(c, r, s);
    }
  }

  lemma ReplicaNumber(c: Config, r: nat)
    requires Inv(c) && At(c, r)
    ensures c.replicas[r].replica == r && WF(c.replicas[r])
  {
  }

  ghost predicate ErasedOrdered(c: Config, r: nat, s: State, v: int, n: nat)
    requires WF(s) && r in c.received
  {
    OrderedEverywhere(Grow(c, r, DeleteRounds(s, v, n), SetOf(DeleteOps(s, v, n))))
  }

  lemma EraseOneOrdered(c: Config, r: nat, before: State, ops: seq<Op>, v: int)
    requires r in c.received && OrderedEverywhere(Grow(c, r, before, SetOf(ops))) && WF(before)
    ensures OrderedEverywhere(Grow(c, r, DeleteOne(before, v),
                                   SetOf(ops + if InRange(before, v) then [DeleteOp(before, v)] else [])))
  {
    hide OrderedEverywhere, Mintable, Performed;
    if InRange(before, v) {
      var c' := Grow(c, r, before, SetOf(ops));
      var op := DeleteOp(before, v);
      assert At(c', r);
      DeletePerformed(before, v);
      MintEverywhere(c', r, op, DeleteOne(before, v));
      GrowTwice(c, r, before, SetOf(ops), DeleteOne(before, v), {op});
      SetOfMore(ops, op);
    } else {
      assert ops + [] == ops;
    }
  }

  lemma {:induction false} EraseRoundsOrdered(c: Config, r: nat, s: State, v: int, n: nat)
    requires WF(s) && r in c.received && ErasedOrdered(c, r, s, v, 0)
    ensures ErasedOrdered(c, r, s, v, n)
  {
    hide OrderedEverywhere, WF, DeleteOne;
    if n > 0 {
      EraseRoundsOrdered(c, r, s, v, n - 1);
      EraseOneOrdered(c, r, DeleteRounds(s, v, n - 1), DeleteOps(s, v, n - 1), v);
    }
  }

  lemma EraseOrdered(c: Config, r: nat, v: int, count: int)
    requires OrderedEverywhere(c) && Enabled(c, EraseAt(r, v, count))
    ensures OrderedEverywhere(Step(c, EraseAt(r, v, count)))
  {
    hide Inv, Ordered;
    assert At(c, r);
    ReplicaNumber(c, r);
    SameEverywhere(c, r, ClearRedo(c.replicas[r]));
    assert SetOf([]) == {};
    EraseRoundsOrdered(c, r, ClearRedo(c.replicas[r]), v, if count < 0 then 0 else count);
  }

  lemma SteppingOrdered(c: Config, r: nat, t: State, outcome: Outcome)
    requires OrderedEverywhere(c) && At(c, r) && Stepping(c.replicas[r], t, outcome)
    ensures OrderedEverywhere(Grow(c, r, t, if outcome.Applied? then {outcome.op} else {}))
  {
    hide Inv, Ordered, Mintable, Performed, WF;
    ReplicaNumber(c, r);
    if outcome.Applied? { MintEverywhere(c, r, outcome.op, t); } else { SameEverywhere(c, r, t); }
  }

  lemma ArriveOrdered(c: Config, r: nat, op: Op, context: Option<Context>)
    requires OrderedEverywhere(c) && Enabled(c, Arrive(r, op, context)) && InTurn(c, Arrive(r, op, context))
    ensures OrderedEverywhere(Step(c, Arrive(r, op, context)))
  {
    hide Ordered, Core, ReplicaOk, ApplyRemote, Follows, PoolOk;
    assert At(c, r);
    ArriveInv(c, r, op, context);
    PoolHolds(c, r, op);
    assert Ordered(c.replicas[r], c.received[r]);
    ArrivesInOrder(c.replicas[r], c.received[r], op, context);
    GrowOrdered(c, r, ApplyRemote(c.replicas[r], op, context).state, {op});
  }

  lemma PoolHolds(c: Config, r: nat, op: Op)
    requires Inv(c) && At(c, r) && op in c.minted
    ensures Coherent(c.received[r] + {op})
  {
    PoolCoherent(c.minted);
    CoherentSub(c.minted, c.received[r] + {op});
  }

  lemma StepOrdered(c: Config, a: Action)
    requires OrderedEverywhere(c) && Enabled(c, a) && InTurn(c, a)
    ensures OrderedEverywhere(Step(c, a))
  {
    hide OrderedEverywhere, Undo, Redo, ApplyRemote, Stepping;
    assert At(c, a.r);
    match a
    case TypeAt(r, v, value, bind) => TypeOrdered(c, r, v, value, bind);
    case EraseAt(r, v, count) => EraseOrdered(c, r, v, count);
    case UndoAt(r) =>
      UndoSteps(c.replicas[r]);
      SteppingOrdered(c, r, Undo(c.replicas[r]).0, Undo(c.replicas[r]).1);
    case RedoAt(r) =>
      RedoSteps(c.replicas[r]);
      SteppingOrdered(c, r, Redo(c.replicas[r]).0, Redo(c.replicas[r]).1);
    case Arrive(r, op, context) => ArriveOrdered(c, r, op, context);
  }

  lemma InitialOrdered(ids: set<nat>)
    ensures OrderedEverywhere(Initial(ids))
  {
    InitialInv(ids);
    forall r | At(Initial(ids), r) ensures Ordered(Initial(ids).replicas[r], Initial(ids).received[r]) {
      FreshOrdered(r);
    }
  }

  lemma {:induction false} RunOrdered(ids: set<nat>, acts: seq<Action>)
    requires RunOf(ids, acts).Some? && AllInTurn(ids, acts)
    ensures OrderedEverywhere(RunOf(ids, acts).value)
  {
    hide OrderedEverywhere, Step, InTurn;
    if acts == [] {
      InitialOrdered(ids);
    } else {
      RunOrdered(ids, acts[..|acts| - 1]);
      StepOrdered(RunOf(ids, acts[..|acts| - 1]).value, acts[|acts| - 1]);
    }
  }

  /**
   * Convergence of the flags.  In every run in which everything arrives in order, two replicas that have
   * received the same hold back nothing and have the same tree, tombstones and attributions included, unless
   * the greatest delete of a node was taken back while another replica's was not.
   */
  lemma OrderedReplicasConverge(ids: set<nat>, acts: seq<Action>, r1: nat, r2: nat)
    requires RunOf(ids, acts).Some? && AllInTurn(ids, acts)
    ensures
      var c := RunOf(ids, acts).value;
      r1 in c.replicas && r2 in c.replicas && r1 in c.received && r2 in c.received
      && c.received[r1] == c.received[r2] ==>
        && c.replicas[r1].pending == [] && c.replicas[r2].pending == []
        && (TakenBackTogether(c.received[r1]) ==> c.replicas[r1].tree == c.replicas[r2].tree)
  {
    hide Inv, TakenBackTogether;
    RunOrdered(ids, acts);
    var c := RunOf(ids, acts).value;
    if At(c, r1) && At(c, r2) && c.received[r1] == c.received[r2] {
      assert Ordered(c.replicas[r1], c.received[r1]) && Ordered(c.replicas[r2], c.received[r2]);
      if TakenBackTogether(c.received[r1]) { OrderedAgree(c.replicas[r1], c.replicas[r2], c.received[r1]); }
    }
  }

  /** In particular, however often each replica undoes and redoes its own deletions of nodes nobody else deleted. */
  lemma OwnDeletionsConverge(ids: set<nat>, acts: seq<Action>, r1: nat, r2: nat)
    requires RunOf(ids, acts).Some? && AllInTurn(ids, acts)
    ensures
      var c := RunOf(ids, acts).value;
      r1 in c.replicas && r2 in c.replicas && r1 in c.received && r2 in c.received
      && c.received[r1] == c.received[r2]
      && (forall d, e :: d in c.minted && e in c.minted && d.Delete? && e.Delete? && d.target == e.target ==>
            d.id.r == e.id.r) ==>
        c.replicas[r1].tree == c.replicas[r2].tree
  {
    var c := RunOf(ids, acts).value;
    RunInv(ids, acts);
    OrderedReplicasConverge(ids, acts, r1, r2);
    if At(c, r1) {
      ReplicaAt(c, r1);
      if forall d, e :: d in c.minted && e in c.minted && d.Delete? && e.Delete? && d.target == e.target ==>
           d.id.r == e.id.r
      {
        OneDeleterEach(c.received[r1]);
      }
    }
  }
}
