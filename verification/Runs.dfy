/** What holds of every run of the network. */
module Runs {
  import opened Identifiers
  import opened Operations
  import opened FugueShape
  import opened EngineState
  import opened Collection
  import opened OpSets
  import opened Replica
  import opened Convergence
  import opened Network
  import CollectedReplica
  import opened Expand
  import opened LocalEdits
  import opened LocalRuns

  /** Where a list of actions leads from empty replicas, if each is enabled in its turn. */
  ghost function RunOf(ids: set<nat>, acts: seq<Action>): Option<Config> {
    if acts == [] then Some(Initial(ids))
    else
      var before := RunOf(ids, acts[..|acts| - 1]);
      if before.Some? && Enabled(before.value, acts[|acts| - 1])
      then Some(Step(before.value, acts[|acts| - 1])) else None
  }

  lemma {:induction false} RunInv(ids: set<nat>, acts: seq<Action>)
    requires RunOf(ids, acts).Some?
    ensures Inv(RunOf(ids, acts).value)
  {
    if acts == [] {
      InitialInv(ids);
    } else {
      RunInv(ids, acts[..|acts| - 1]);
      StepInv(RunOf(ids, acts[..|acts| - 1]).value, acts[|acts| - 1]);
    }
  }

  /** Undoing and redoing nothing, a run mints no undelete. */
  lemma {:induction false} NoUndeleteMinted(ids: set<nat>, acts: seq<Action>)
    requires RunOf(ids, acts).Some? && forall a :: a in acts ==> !a.UndoAt? && !a.RedoAt?
    ensures forall o :: o in RunOf(ids, acts).value.minted ==> !o.Undelete?
  {
    if acts != [] {
      var init, a := acts[..|acts| - 1], acts[|acts| - 1];
      NoUndeleteMinted(ids, init);
      assert a in acts;
      var c := RunOf(ids, init).value;
      if a.EraseAt? { OnlyDeletes(ClearRedo(c.replicas[a.r]), a.v, if a.count < 0 then 0 else a.count); }
    }
  }

  lemma {:induction false} OnlyDeletes(s: State, v: int, n: nat)
    requires WF(s)
    ensures forall o :: o in DeleteOps(s, v, n) ==> o.Delete?
  {
    if n > 0 { OnlyDeletes(s, v, n - 1); }
  }

  // ------------------------------------------------------------------ convergence

  lemma ReplicaAt(c: Config, r: nat)
    requires Inv(c) && r in c.replicas
    ensures r in c.received && ReplicaOk(c.replicas[r], c.received[r], c.minted, r)
  {
    assert At(c, r);
  }

  /**
   * Strong eventual consistency.  In every run, two replicas that have received (or minted) the
   * same operations have applied the same, hold back the same, and show the same nodes in the same
   * order; unless some greatest deletion of a node was undone by its own replica, every flag agrees too.
   */
  lemma ReplicasConverge(ids: set<nat>, acts: seq<Action>, r1: nat, r2: nat)
    requires RunOf(ids, acts).Some?
    ensures
      var c := RunOf(ids, acts).value;
      r1 in c.replicas && r2 in c.replicas && r1 in c.received && r2 in c.received
        && c.received[r1] == c.received[r2] ==>
        var s, t := c.replicas[r1], c.replicas[r2];
        && s.applied == t.applied && (forall o :: o in s.pending <==> o in t.pending)
        && Origins(Flat(s.tree)) == Origins(Flat(t.tree))
        && (Settled(Closure(c.received[r1])) ==> s.tree == t.tree)
  {
    RunInv(ids, acts);
    var c := RunOf(ids, acts).value;
    if r1 in c.replicas && r2 in c.replicas && c.received[r1] == c.received[r2] {
      ReplicaAt(c, r1);
      ReplicaAt(c, r2);
      SameReceivedSameDocument(c.replicas[r1], c.replicas[r2], c.received[r1]);
    }
  }

  /** Typing and erasing only: the whole trees agree, tombstones and attributions included. */
  lemma EditsConverge(ids: set<nat>, acts: seq<Action>, r1: nat, r2: nat)
    requires RunOf(ids, acts).Some? && forall a :: a in acts ==> !a.UndoAt? && !a.RedoAt?
    ensures
      var c := RunOf(ids, acts).value;
      r1 in c.replicas && r2 in c.replicas && r1 in c.received && r2 in c.received
        && c.received[r1] == c.received[r2] ==>
        c.replicas[r1].tree == c.replicas[r2].tree
  {
    var c := RunOf(ids, acts).value;
    RunInv(ids, acts);
    NoUndeleteMinted(ids, acts);
    ReplicasConverge(ids, acts, r1, r2);
    if r1 in c.replicas {
      ReplicaAt(c, r1);
      AppliedIsLeastClosure(c.replicas[r1], c.received[r1]);
      var a := Closure(c.received[r1]);
      forall x, m | Greatest(m, DeletesOf(a, x)) ensures !UndoneBy(a, x, m.r) { }
    }
  }

  // ------------------------------------------------------------------ the sibling order

  /**
   * Two siblings never come from one replica, so ignoring the counter still leaves a strict total
   * order; nothing is ever minted on the left of the root.
   */
  lemma SiblingsFromDistinctReplicas(ids: set<nat>, acts: seq<Action>, r: nat)
    requires RunOf(ids, acts).Some? && r in RunOf(ids, acts).value.replicas
    ensures
      var d := RunOf(ids, acts).value.replicas[r].tree;
      && (forall n, m :: n in Flat(d) && m in Flat(d) && n.id != m.id && n.parent == m.parent && n.side == m.side ==>
            n.id.r != m.id.r && (SiblingLess(n, m) <==> !SiblingLess(m, n)))
      && d.Trees? && d.left.Empty?
  {
    RunInv(ids, acts);
    var c := RunOf(ids, acts).value;
    ReplicaAt(c, r);
    var s := c.replicas[r];
    var a := AppliedOps(s, c.received[r]);
    BuiltOrigins(s.tree, a);
    forall n, m | n in Flat(s.tree) && m in Flat(s.tree) && n.id != m.id && n.parent == m.parent && n.side == m.side
      ensures n.id.r != m.id.r
    {
      assert Clash(n.Origin(), m.Origin()) ==> n.Origin() == m.Origin();
    }
    assert KidOps(a, None, L) == {};
    NoHeads(s.tree.left);
  }

  /** No arrival ever ties with a sibling already there: arrival order never decides. */
  lemma ArrivalNeverTies(ids: set<nat>, acts: seq<Action>, r: nat, op: Op, n: Node)
    requires RunOf(ids, acts).Some? && r in RunOf(ids, acts).value.replicas
    requires op in RunOf(ids, acts).value.minted && op.Insert? && op.id !in RunOf(ids, acts).value.replicas[r].applied
    requires n in Flat(RunOf(ids, acts).value.replicas[r].tree) && n.parent == op.parent && n.side == op.side
    ensures SiblingLess(n, NewNode(op)) <==> !SiblingLess(NewNode(op), n)
  {
    RunInv(ids, acts);
    var c := RunOf(ids, acts).value;
    ReplicaAt(c, r);
    var s := c.replicas[r];
    BuiltOrigins(s.tree, AppliedOps(s, c.received[r]));
    assert Clash(n.Origin(), op) ==> n.Origin() == op;
  }

  // ------------------------------------------------------------------ quiescence

  lemma {:induction false} AllApplied(s: State, m: set<Op>, o: Op)
    requires Core(s, m) && Drained(s) && PoolOk(m) && o in m
    ensures o in AppliedOps(s, m)
    decreases o.id.c
  {
    assert Caused(m, o);
    if Needs(o) != None {
      var i :| i in m && i.Insert? && Needs(o) == Some(i.id) && i.id.c < o.id.c;
      AllApplied(s, m, i);
    }
    assert Ready(s.tree, o);
  }

  /** A replica that has everything holds nothing back. */
  lemma NothingHeldBack(ids: set<nat>, acts: seq<Action>, r: nat)
    requires RunOf(ids, acts).Some? && r in RunOf(ids, acts).value.replicas
    ensures
      var c := RunOf(ids, acts).value;
      r in c.received && (c.received[r] == c.minted ==>
        c.replicas[r].pending == [] && forall o :: o in c.minted ==> o.id in c.replicas[r].applied)
  {
    RunInv(ids, acts);
    var c := RunOf(ids, acts).value;
    ReplicaAt(c, r);
    var s := c.replicas[r];
    if c.received[r] == c.minted {
      forall o | o in c.minted ensures o.id in s.applied { AllApplied(s, c.minted, o); }
      NoMembers(s.pending);
    }
  }

  /** No delete is the attribution of two nodes. */
  lemma AttributionsDistinct(ids: set<nat>, acts: seq<Action>, r: nat)
    requires RunOf(ids, acts).Some? && r in RunOf(ids, acts).value.replicas
    ensures DistinctAttributions(Flat(RunOf(ids, acts).value.replicas[r].tree))
  {
    RunInv(ids, acts);
    var c := RunOf(ids, acts).value;
    ReplicaAt(c, r);
    var s := c.replicas[r];
    var a := AppliedOps(s, c.received[r]);
    forall n, m | n in Flat(s.tree) && m in Flat(s.tree) && n.deletedBy.Some? && n.deletedBy == m.deletedBy
      ensures n.id == m.id
    {
      assert FlagOk(n, a) && FlagOk(m, a);
      var d :| d in a && d.Delete? && d.target == n.id && d.id == n.deletedBy.value;
      var e :| e in a && e.Delete? && e.target == m.id && e.id == m.deletedBy.value;
      assert Clash(d, e);
    }
  }

  /** So in every reachable replica collecting in two steps is collecting once. */
  lemma CollectingComposes(ids: set<nat>, acts: seq<Action>, r: nat, f1: nat, o1: Options, f2: nat, o2: Options)
    requires RunOf(ids, acts).Some? && r in RunOf(ids, acts).value.replicas
    requires f1 <= f2 && o1.nowMs <= o2.nowMs && o1.maxAgeMs == o2.maxAgeMs
      && o1.maxOpsPerReplica == o2.maxOpsPerReplica
    ensures
      var s := RunOf(ids, acts).value.replicas[r];
      Collect(Collect(s, f1, o1), f2, o2) == Collect(s, f2, o2)
  {
    RunInv(ids, acts);
    ReplicaAt(RunOf(ids, acts).value, r);
    AttributionsDistinct(ids, acts, r);
    CollectComposes(RunOf(ids, acts).value.replicas[r], f1, o1, f2, o2);
  }

  /**
   * In every run, a replica that collects goes on as if it had not, apart from the collected nodes, exactly if none of
   * the operations minted anywhere that it receives afterwards needs a collected node.
   */
  lemma CollectingUnseen(ids: set<nat>, acts: seq<Action>, r: nat, frontier: nat, o: Options, q: seq<Op>)
    requires RunOf(ids, acts).Some? && r in RunOf(ids, acts).value.replicas
    requires forall x :: x in q ==> x in RunOf(ids, acts).value.minted
    ensures
      var s := RunOf(ids, acts).value.replicas[r];
      && WF(s) && WF(Collect(s, frontier, o))
      && var c := Sweep(Flat(s.tree), Candidates(s, frontier, o));
      var t, v := Deliver(s, q), Deliver(Collect(s, frontier, o), q);
      && (v.applied == t.applied <==> CollectedReplica.Spares(s.applied, q, c))
      && (v.applied == t.applied ==>
            v.pending == t.pending && Text(v.tree) == Text(t.tree) && Flat(v.tree) == Without(Flat(t.tree), c))
  {
    hide RunOf, PoolOk, Core, Coherent, Drained, Deliver, Candidates, Collect;
    RunInv(ids, acts);
    var c := RunOf(ids, acts).value;
    ReplicaAt(c, r);
    PoolCoherent(c.minted);
    CoherentSub(c.minted, c.received[r] + SetOf(q));
    CollectedReplica.CollectingUnseenExactly(c.replicas[r], c.received[r], frontier, o, q);
  }

  // ------------------------------------------------------------------ local edits

  /** Nothing ever hangs on the left of the root, so typing is a plain splice at every position. */
  lemma TypingSplices(ids: set<nat>, acts: seq<Action>, r: nat, v: nat, value: nat, bind: bool)
    requires RunOf(ids, acts).Some? && r in RunOf(ids, acts).value.replicas
    ensures
      var s := RunOf(ids, acts).value.replicas[r];
      && WF(s)
      && (v <= NumVis(Flat(s.tree)) ==>
            var t := LocalInsert(s, v, value, bind);
            t.Some? && Text(t.value.tree) == Text(s.tree)[..v] + [value] + Text(s.tree)[v..])
  {
    hide WF, Core, Coherent, PoolOk;
    SiblingsFromDistinctReplicas(ids, acts, r);
    RunInv(ids, acts);
    var s := RunOf(ids, acts).value.replicas[r];
    ReplicaWF(RunOf(ids, acts).value, r);
    if v <= NumVis(Flat(s.tree)) { InsertSplices(s, v, value, bind); }
  }

  lemma ReplicaWF(c: Config, r: nat)
    requires Inv(c) && r in c.replicas
    ensures WF(c.replicas[r])
  {
    ReplicaAt(c, r);
  }

  /** And a burst of typing mints exactly what its run frame expands to. */
  lemma TypingIsItsRunFrame(ids: set<nat>, acts: seq<Action>, r: nat, v: nat, values: seq<nat>, bind: bool)
    requires RunOf(ids, acts).Some? && r in RunOf(ids, acts).value.replicas && values != []
    ensures
      var s := RunOf(ids, acts).value.replicas[r];
      && WF(s)
      && (v <= NumVis(Flat(s.tree)) ==>
            RunOps(s, v, values, bind) == Expanded(RunFrom(InsertOp(s, v, values[0], bind), values)))
  {
    hide WF, Core, Coherent, PoolOk;
    SiblingsFromDistinctReplicas(ids, acts, r);
    RunInv(ids, acts);
    var s := RunOf(ids, acts).value.replicas[r];
    ReplicaWF(RunOf(ids, acts).value, r);
    if v <= NumVis(Flat(s.tree)) { RunExpands(s, v, values, bind); }
  }

  // ------------------------------------------------------------------ undo stacks

  /** Every entry is an operation this replica minted and applied. */
  ghost predicate OwnStack(s: State, st: seq<Entry>) {
    forall e :: e in st ==> e.op.id.r == s.replica && e.op.id in s.applied
  }

  ghost predicate OwnStacks(s: State) {
    OwnStack(s, s.undoStack) && OwnStack(s, s.redoStack)
  }

  lemma {:induction false} DrainDownToStacks(s: State, i: nat)
    requires WF(s) && i <= |s.pending|
    ensures DrainDownTo(s, i).undoStack == s.undoStack && DrainDownTo(s, i).redoStack == s.redoStack
    decreases |s.pending| - i
  {
    if i < |s.pending| {
      DrainDownToStacks(s, i + 1);
      DrainStepStacks(DrainDownTo(s, i + 1), i);
    }
  }

  lemma DrainStepStacks(s: State, i: nat)
    requires WF(s) && i < |s.pending|
    ensures DrainStep(s, i).undoStack == s.undoStack && DrainStep(s, i).redoStack == s.redoStack
  {
  }

  lemma {:induction false} DrainStacks(s: State)
    requires WF(s)
    ensures Drain(s).undoStack == s.undoStack && Drain(s).redoStack == s.redoStack
    decreases |s.pending|
  {
    DrainDownToStacks(s, 0);
    var t := DrainDownTo(s, 0);
    if |t.pending| < |s.pending| { DrainStacks(t); }
  }

  lemma ArriveStacks(s: State, op: Op, context: Option<Context>)
    requires WF(s) && OwnStacks(s)
    ensures OwnStacks(ApplyRemote(s, op, context).state)
  {
    hide Drain, Unique;
    var s1 := RecordContext(s, op, context);
    ApplyRemoteKeeps(s, op, context);
    if op.id !in s1.applied && Ready(s1.tree, op) { DrainStacks(DoApply(s1, op)); }
  }

  lemma {:induction false} EraseStacks(s: State, v: int, n: nat)
    requires WF(s) && OwnStacks(s)
    ensures OwnStacks(DeleteRounds(s, v, n))
  {
    hide DeleteOne, Unique;
    if n > 0 {
      EraseStacks(s, v, n - 1);
      DeleteOneStacks(DeleteRounds(s, v, n - 1), v);
    }
  }

  lemma DeleteOneStacks(s: State, v: int)
    requires WF(s) && OwnStacks(s)
    ensures OwnStacks(DeleteOne(s, v))
  {
    hide Unique;
  }

  lemma StepStacks(s: State, e: Entry)
    requires WF(s) && OwnStacks(s)
    ensures
      var step := StepUndoRedo(s, e);
      && OwnStacks(step.state) && step.state.undoStack == s.undoStack && step.state.redoStack == s.redoStack
      && (step.pushed.Some? ==> OwnStack(step.state, [step.pushed.value]))
  {
    hide Unique;
  }

  lemma UndoStacks(s: State)
    requires WF(s) && OwnStacks(s)
    ensures OwnStacks(Undo(s).0) && OwnStacks(Redo(s).0)
  {
    hide StepUndoRedo, Unique;
    if s.undoStack != [] { StepStacks(PopUndo(s), Last(s.undoStack)); }
    if s.redoStack != [] { StepStacks(PopRedo(s), Last(s.redoStack)); }
  }

  lemma ActStacks(s: State, a: Action)
    requires WF(s) && OwnStacks(s)
    ensures OwnStacks(Act(s, a))
  {
    hide Undo, Redo, DeleteRounds, DeleteOps, ApplyRemote, Unique;
    match a
    case TypeAt(_, v, value, bind) => TypeStacks(s, v, value, bind);
    case EraseAt(_, v, count) => EraseStacks(ClearRedo(s), v, if count < 0 then 0 else count);
    case UndoAt(_) => UndoStacks(s);
    case RedoAt(_) => UndoStacks(s);
    case Arrive(_, op, context) => ArriveStacks(s, op, context);
  }

  lemma TypeStacks(s: State, v: int, value: nat, bind: bool)
    requires WF(s) && OwnStacks(s)
    ensures LocalInsert(s, v, value, bind).Some? ==> OwnStacks(LocalInsert(s, v, value, bind).value)
  {
    hide Unique;
  }

  /** In every run, undo and redo only ever concern operations of the replica's own, and never throw. */
  lemma {:induction false} StacksAreOwn(ids: set<nat>, acts: seq<Action>, r: nat)
    requires RunOf(ids, acts).Some? && r in RunOf(ids, acts).value.replicas
    ensures
      var s := RunOf(ids, acts).value.replicas[r];
      OwnStacks(s) && WF(s) && Undo(s).1 != Thrown && Redo(s).1 != Thrown
  {
    hide Act, Undo, Redo, Core, PoolOk, Unique, OwnStacks;
    RunInv(ids, acts);
    var c := RunOf(ids, acts).value;
    ReplicaWF(c, r);
    UndoRedoNeverThrow(c.replicas[r]);
    if acts == [] {
      FreshStacks(r);
    } else {
      var init, a := acts[..|acts| - 1], acts[|acts| - 1];
      StacksAreOwn(ids, init, r);
      if a.r == r { ActStacks(RunOf(ids, init).value.replicas[r], a); }
    }
  }

  lemma FreshStacks(r: nat)
    ensures OwnStacks(Fresh(r))
  {
  }
}
