/**
 * N replicas typing, erasing, undoing and redoing locally, and receiving any minted operation in
 * any order, any number of times.
 */
module Network {
  import opened Identifiers
  import opened Operations
  import opened FugueShape
  import opened FugueTrees
  import opened EngineState
  import opened OpSets
  import opened Replica
  import opened Convergence

  datatype Action =
    | TypeAt(r: nat, v: int, value: nat, bind: bool)
    | EraseAt(r: nat, v: int, count: int)
    | UndoAt(r: nat)
    | RedoAt(r: nat)
    | Arrive(r: nat, op: Op, context: Option<Context>)

  /** The replicas, what each has received or minted itself, and everything minted anywhere. */
  datatype Config = Config(replicas: map<nat, State>, received: map<nat, set<Op>>, minted: set<Op>)

  function Initial(ids: set<nat>): Config {
    Config(map r | r in ids :: Fresh(r), map r | r in ids :: {}, {})
  }

  ghost predicate Enabled(c: Config, a: Action) {
    && a.r in c.replicas && WF(c.replicas[a.r]) && c.received.Keys == c.replicas.Keys
    && (a.Arrive? ==> a.op in c.minted)
  }

  /** A replica's state after an action of its own. */
  function Act(s: State, a: Action): State
    requires WF(s)
  {
    match a
    case TypeAt(_, v, value, bind) =>
      var t := LocalInsert(s, v, value, bind); if t.Some? then t.value else s
    case EraseAt(_, v, count) => LocalDelete(s, v, count).0
    case UndoAt(_) => Undo(s).0
    case RedoAt(_) => Redo(s).0
    case Arrive(_, op, context) => ApplyRemote(s, op, context).state
  }

  /** The operations an action gives its replica. */
  ghost function NewOps(s: State, a: Action): set<Op>
    requires WF(s)
  {
    match a
    case TypeAt(_, v, value, bind) =>
      if 0 <= v <= NumVis(Flat(s.tree)) then {InsertOp(s, v, value, bind)} else {}
    case EraseAt(_, v, count) => SetOf(LocalDelete(s, v, count).1)
    case UndoAt(_) => if Undo(s).1.Applied? then {Undo(s).1.op} else {}
    case RedoAt(_) => if Redo(s).1.Applied? then {Redo(s).1.op} else {}
    case Arrive(_, op, _) => {op}
  }

  ghost function Grow(c: Config, r: nat, t: State, ops: set<Op>): Config
    requires r in c.received
  {
    Config(c.replicas[r := t], c.received[r := c.received[r] + ops], c.minted + ops)
  }

  ghost function Step(c: Config, a: Action): Config
    requires Enabled(c, a)
  {
    Grow(c, a.r, Act(c.replicas[a.r], a), NewOps(c.replicas[a.r], a))
  }

  // ------------------------------------------------------------------ the global invariant

  /**
   * Identifiers are unique; no replica made two inserts at the same parent and side; what an
   * operation needs was minted with a smaller counter; the root has right children only.
   */
  ghost predicate PoolOk(m: set<Op>) {
    && (forall a, b {:trigger Clash(a, b)} :: a in m && b in m && Clash(a, b) ==> a == b)
    && (forall o {:trigger Caused(m, o)} :: o in m ==> Caused(m, o))
    && (forall o :: o in m && o.Insert? && o.parent == None ==> o.side == R)
  }

  predicate SameSlot(a: Op, b: Op) {
    a.Insert? && b.Insert? && a.parent == b.parent && a.side == b.side && a.id.r == b.id.r
  }

  predicate Clash(a: Op, b: Op) {
    a.id == b.id || SameSlot(a, b)
  }

  ghost predicate Caused(m: set<Op>, o: Op) {
    Needs(o) == None || exists i :: i in m && i.Insert? && Needs(o) == Some(i.id) && i.id.c < o.id.c
  }

  /** A replica has applied all it minted. */
  ghost predicate Own(s: State, m: set<Op>) {
    forall o :: o in m && o.id.r == s.replica ==> o.id in s.applied
  }

  ghost predicate ReplicaOk(s: State, p: set<Op>, m: set<Op>, r: nat) {
    s.replica == r && Core(s, p) && Drained(s) && p <= m && Own(s, m)
  }

  predicate At(c: Config, r: nat) {
    r in c.replicas && r in c.received
  }

  ghost predicate Inv(c: Config) {
    && c.received.Keys == c.replicas.Keys && PoolOk(c.minted)
    && forall r {:trigger At(c, r)} :: At(c, r) ==> ReplicaOk(c.replicas[r], c.received[r], c.minted, r)
  }

  lemma PoolCoherent(m: set<Op>)
    requires PoolOk(m)
    ensures Coherent(m)
  {
    forall a, b | a in m && b in m && a.id == b.id ensures a == b { assert Clash(a, b); }
    forall a, b | a in m && b in m && SamePlace(a, b) ensures a == b { assert Clash(a, b); }
  }

  lemma InitialInv(ids: set<nat>)
    ensures Inv(Initial(ids))
  {
    forall r | r in ids { FreshCore(r); }
  }

  // ------------------------------------------------------------------ minting

  /** A local operation with the next identifier, applicable, and an insert only into an empty slot. */
  ghost predicate Mintable(s: State, o: Op) {
    && WF(s) && o.id == NextId(s) && Ready(s.tree, o)
    && (o.Insert? ==> Find(s.tree, o.parent).Kids(o.side).Empty? && (o.parent == None ==> o.side == R))
  }

  /** `t` is `s` after performing `o`, stacks aside. */
  ghost predicate Performed(s: State, o: Op, t: State)
    requires Mintable(s, o)
  {
    var u := Perform(Tick(s), o);
    WF(t) && t.replica == s.replica && t.tree == u.tree && t.applied == u.applied && t.pending == u.pending
  }

  /** Nothing minted carries, or needs, the next identifier of a replica. */
  lemma NextIsNew(s: State, m: set<Op>)
    requires PoolOk(m) && Own(s, m) && WF(s)
    ensures forall b :: b in m ==> b.id != NextId(s) && Needs(b) != Some(NextId(s))
  {
    forall b | b in m ensures b.id != NextId(s) { }
    forall b | b in m ensures Needs(b) != Some(NextId(s)) { assert Caused(m, b); }
  }

  /** A replica sees all its own inserts, so an empty slot holds none of them. */
  lemma SlotIsNew(s: State, p: set<Op>, m: set<Op>, o: Op)
    requires Core(s, p) && p <= m && Own(s, m) && PoolOk(m) && o.Insert? && Mintable(s, o)
    ensures forall b :: b in m ==> !SameSlot(b, o)
  {
    var a := AppliedOps(s, p);
    BuiltFind(s.tree, a, o.parent);
    assert HeadOps(Find(s.tree, o.parent).Kids(o.side)) == KidOps(a, o.parent, o.side);
    assert forall b :: b in a ==> b !in KidOps(a, o.parent, o.side);
    forall b | b in m && b.id.r == s.replica ensures b in a {
      assert Named(a, b.id);
      var b' :| b' in a && b'.id == b.id;
      assert Clash(b, b');
    }
  }

  lemma NewCaused(s: State, p: set<Op>, m: set<Op>, o: Op)
    requires Core(s, p) && p <= m && Mintable(s, o)
    ensures Caused(m, o)
  {
    if Needs(o) != None {
      var a := AppliedOps(s, p);
      assert Inserted(a, Needs(o).value);
      var i :| i in a && i.Insert? && i.id == Needs(o).value;
      assert i in m && i.id in s.applied;
    }
  }

  lemma PoolMore(m: set<Op>, o: Op)
    requires PoolOk(m) && Caused(m, o) && (o.Insert? && o.parent == None ==> o.side == R)
    requires forall b :: b in m ==> b.id != o.id && !SameSlot(b, o)
    ensures PoolOk(m + {o})
  {
    forall b | b in m + {o} ensures Caused(m + {o}, b) { assert Caused(m, b); }
    forall a, b | a in m + {o} && b in m + {o} && Clash(a, b) ensures a == b {
      assert SameSlot(a, b) ==> SameSlot(b, a);
    }
  }

  lemma MintPool(s: State, p: set<Op>, m: set<Op>, o: Op)
    requires Core(s, p) && p <= m && Own(s, m) && PoolOk(m) && Mintable(s, o)
    ensures PoolOk(m + {o})
  {
    NextIsNew(s, m);
    NewCaused(s, p, m, o);
    if o.Insert? { SlotIsNew(s, p, m, o); }
    PoolMore(m, o);
  }

  lemma MintCore(s: State, p: set<Op>, o: Op, t: State)
    requires Core(s, p) && Mintable(s, o) && Performed(s, o, t) && Coherent(p + {o})
    ensures Core(t, p + {o})
  {
    CoreClock(s, Tick(s), p);
    PerformCore(Tick(s), o, p);
    CoreClock(Perform(Tick(s), o), t, p + {o});
  }

  /** A new identifier nothing waits for makes nothing in the buffer ready. */
  lemma MintDrained(s: State, m: set<Op>, o: Op, t: State)
    requires Drained(s) && Mintable(s, o) && Performed(s, o, t)
    requires forall b :: b in s.pending ==> b in m
    requires forall b :: b in m ==> b.id != o.id && Needs(b) != Some(o.id)
    ensures Drained(t)
  {
    EffectDoc(Tick(s), o);
    forall b | b in t.pending ensures b.id !in t.applied && !Ready(t.tree, b) {
      assert b in m;
      assert !Ready(s.tree, b);
    }
  }

  lemma MintSelf(s: State, p: set<Op>, m: set<Op>, r: nat, o: Op, t: State)
    requires ReplicaOk(s, p, m, r) && PoolOk(m) && PoolOk(m + {o}) && Mintable(s, o) && Performed(s, o, t)
    ensures ReplicaOk(t, p + {o}, m + {o}, r)
  {
    PoolCoherent(m + {o});
    CoherentSub(m + {o}, p + {o});
    MintCore(s, p, o, t);
    NextIsNew(s, m);
    MintDrained(s, m, o, t);
  }

  lemma MintInv(c: Config, r: nat, o: Op, t: State)
    requires Inv(c) && At(c, r) && Mintable(c.replicas[r], o) && Performed(c.replicas[r], o, t)
    ensures Inv(Grow(c, r, t, {o}))
  {
    MintPool(c.replicas[r], c.received[r], c.minted, o);
    MintSelf(c.replicas[r], c.received[r], c.minted, r, o, t);
    GrowInv(c, r, t, {o});
  }

  /** The other replicas do not notice. */
  lemma GrowInv(c: Config, r: nat, t: State, ops: set<Op>)
    requires Inv(c) && At(c, r) && PoolOk(c.minted + ops)
    requires ReplicaOk(t, c.received[r] + ops, c.minted + ops, r)
    requires forall o :: o in ops ==> o.id.r == r || o in c.minted
    ensures Inv(Grow(c, r, t, ops))
  {
    var c' := Grow(c, r, t, ops);
    forall q | At(c', q) ensures ReplicaOk(c'.replicas[q], c'.received[q], c'.minted, q) {
      if q != r { assert At(c, q); }
    }
  }

  // ------------------------------------------------------------------ the actions

  /** Stacks play no part in the invariant. */
  lemma SameButStacks(c: Config, r: nat, t: State)
    requires Inv(c) && At(c, r) && WF(t) && t.replica == r
    requires t.tree == c.replicas[r].tree && t.applied == c.replicas[r].applied && t.pending == c.replicas[r].pending
    ensures Inv(Grow(c, r, t, {}))
  {
    CoreClock(c.replicas[r], t, c.received[r]);
    assert c.received[r] + {} == c.received[r] && c.minted + {} == c.minted;
    GrowInv(c, r, t, {});
  }

  /** With nothing left of the root, a placement at the root is on its right. */
  lemma InsertMintable(s: State, v: int, value: nat, bind: bool)
    requires WF(s) && 0 <= v <= NumVis(Flat(s.tree))
    ensures Mintable(s, InsertOp(s, v, value, bind))
  {
    PlacementPresent(s.tree, LeftOrigin(s.tree, v));
  }

  lemma InsertPerformed(s: State, v: int, value: nat, bind: bool)
    requires WF(s) && 0 <= v <= NumVis(Flat(s.tree))
    ensures Mintable(s, InsertOp(s, v, value, bind)) && LocalInsert(s, v, value, bind).Some?
    ensures Performed(s, InsertOp(s, v, value, bind), LocalInsert(s, v, value, bind).value)
  {
    InsertMintable(s, v, value, bind);
  }

  lemma TypeInv(c: Config, r: nat, v: int, value: nat, bind: bool)
    requires Inv(c) && Enabled(c, TypeAt(r, v, value, bind))
    ensures Inv(Step(c, TypeAt(r, v, value, bind)))
  {
    var s := c.replicas[r];
    assert At(c, r);
    if 0 <= v <= NumVis(Flat(s.tree)) {
      InsertPerformed(s, v, value, bind);
      MintInv(c, r, InsertOp(s, v, value, bind), LocalInsert(s, v, value, bind).value);
    } else {
      SameButStacks(c, r, s);
    }
  }

  lemma GrowTwice(c: Config, r: nat, t: State, x: set<Op>, u: State, y: set<Op>)
    requires r in c.received
    ensures Grow(Grow(c, r, t, x), r, u, y) == Grow(c, r, u, x + y)
  {
    assert c.replicas[r := t][r := u] == c.replicas[r := u];
    assert c.received[r] + x + y == c.received[r] + (x + y);
    assert c.minted + x + y == c.minted + (x + y);
  }

  lemma DeletePerformed(s: State, v: int)
    requires WF(s) && InRange(s, v)
    ensures Mintable(s, DeleteOp(s, v)) && Performed(s, DeleteOp(s, v), DeleteOne(s, v))
  {
    VisInFlat(Flat(s.tree), v);
    DocKeys(s.tree);
  }

  lemma SetOfMore(q: seq<Op>, op: Op)
    ensures SetOf(q + [op]) == SetOf(q) + {op} && SetOf(q + []) == SetOf(q)
  {
    assert q + [] == q;
    assert (q + [op])[|q|] == op;
    assert forall i :: 0 <= i < |q| ==> (q + [op])[i] == q[i];
  }

  /** One more round of an erasure. */
  lemma EraseRound(c: Config, r: nat, before: State, ops: seq<Op>, v: int)
    requires r in c.received && Inv(Grow(c, r, before, SetOf(ops))) && WF(before)
    ensures Inv(Grow(c, r, DeleteOne(before, v),
                     SetOf(ops + if InRange(before, v) then [DeleteOp(before, v)] else [])))
  {
    if InRange(before, v) {
      var c' := Grow(c, r, before, SetOf(ops));
      var op := DeleteOp(before, v);
      assert At(c', r);
      DeletePerformed(before, v);
      MintInv(c', r, op, DeleteOne(before, v));
      GrowTwice(c, r, before, SetOf(ops), DeleteOne(before, v), {op});
      SetOfMore(ops, op);
    } else {
      assert ops + [] == ops;
    }
  }

  ghost predicate ErasedInv(c: Config, r: nat, s: State, v: int, n: nat)
    requires WF(s) && r in c.received
  {
    Inv(Grow(c, r, DeleteRounds(s, v, n), SetOf(DeleteOps(s, v, n))))
  }

  lemma EraseMore(c: Config, r: nat, s: State, v: int, n: nat)
    requires WF(s) && r in c.received && n > 0 && ErasedInv(c, r, s, v, n - 1)
    ensures ErasedInv(c, r, s, v, n)
  {
    EraseRound(c, r, DeleteRounds(s, v, n - 1), DeleteOps(s, v, n - 1), v);
  }

  lemma {:induction false} EraseRoundsInv(c: Config, r: nat, s: State, v: int, n: nat)
    requires WF(s) && r in c.received && ErasedInv(c, r, s, v, 0)
    ensures ErasedInv(c, r, s, v, n)
  {
    hide ErasedInv, WF;
    if n > 0 {
      EraseRoundsInv(c, r, s, v, n - 1);
      EraseMore(c, r, s, v, n);
    }
  }

  lemma EraseInv(c: Config, r: nat, v: int, count: int)
    requires Inv(c) && Enabled(c, EraseAt(r, v, count))
    ensures Inv(Step(c, EraseAt(r, v, count)))
  {
    assert At(c, r);
    SameButStacks(c, r, ClearRedo(c.replicas[r]));
    assert SetOf([]) == {};
    EraseRoundsInv(c, r, ClearRedo(c.replicas[r]), v, if count < 0 then 0 else count);
  }

  /** From `s` to `t` either nothing but the stacks changed, or the reversal was minted and applied. */
  ghost predicate Stepping(s: State, t: State, outcome: Outcome) {
    && WF(s) && WF(t)
    && (outcome.Applied? ==> Mintable(s, outcome.op) && Performed(s, outcome.op, t))
    && (!outcome.Applied? ==>
          t.replica == s.replica && t.tree == s.tree && t.applied == s.applied && t.pending == s.pending)
  }

  lemma EntrySteps(s: State, e: Entry)
    requires WF(s)
    ensures Stepping(s, StepUndoRedo(s, e).state, StepUndoRedo(s, e).outcome)
  {
  }

  /** Stacks on either side do not matter. */
  lemma SteppingStacks(s: State, s': State, t: State, t': State, outcome: Outcome)
    requires Stepping(s', t', outcome) && WF(s) && WF(t)
    requires s'.(undoStack := s.undoStack, redoStack := s.redoStack) == s
    requires t'.(undoStack := t.undoStack, redoStack := t.redoStack) == t
    ensures Stepping(s, t, outcome)
  {
  }

  lemma UndoSteps(s: State)
    requires WF(s)
    ensures Stepping(s, Undo(s).0, Undo(s).1)
  {
    if s.undoStack != [] {
      EntrySteps(PopUndo(s), Last(s.undoStack));
      SteppingStacks(s, PopUndo(s), Undo(s).0, StepUndoRedo(PopUndo(s), Last(s.undoStack)).state, Undo(s).1);
    }
  }

  lemma RedoSteps(s: State)
    requires WF(s)
    ensures Stepping(s, Redo(s).0, Redo(s).1)
  {
    if s.redoStack != [] {
      EntrySteps(PopRedo(s), Last(s.redoStack));
      SteppingStacks(s, PopRedo(s), Redo(s).0, StepUndoRedo(PopRedo(s), Last(s.redoStack)).state, Redo(s).1);
    }
  }

  lemma SteppingInv(c: Config, r: nat, t: State, outcome: Outcome)
    requires Inv(c) && At(c, r) && Stepping(c.replicas[r], t, outcome)
    ensures Inv(Grow(c, r, t, if outcome.Applied? then {outcome.op} else {}))
  {
    if outcome.Applied? { MintInv(c, r, outcome.op, t); } else { SameButStacks(c, r, t); }
  }

  lemma UndoInv(c: Config, r: nat)
    requires Inv(c) && Enabled(c, UndoAt(r))
    ensures Inv(Step(c, UndoAt(r)))
  {
    hide Stepping, PoolOk, ReplicaOk;
    assert At(c, r);
    UndoSteps(c.replicas[r]);
    SteppingInv(c, r, Undo(c.replicas[r]).0, Undo(c.replicas[r]).1);
  }

  lemma RedoInv(c: Config, r: nat)
    requires Inv(c) && Enabled(c, RedoAt(r))
    ensures Inv(Step(c, RedoAt(r)))
  {
    hide Stepping, PoolOk, ReplicaOk;
    assert At(c, r);
    RedoSteps(c.replicas[r]);
    SteppingInv(c, r, Redo(c.replicas[r]).0, Redo(c.replicas[r]).1);
  }

  lemma ArriveSelf(s: State, p: set<Op>, m: set<Op>, r: nat, op: Op, context: Option<Context>)
    requires ReplicaOk(s, p, m, r) && PoolOk(m) && op in m
    ensures ReplicaOk(ApplyRemote(s, op, context).state, p + {op}, m, r)
  {
    PoolCoherent(m);
    CoherentSub(m, p + {op});
    ApplyRemoteCore(s, op, context, p);
    ApplyRemoteKeeps(s, op, context);
  }

  lemma ArriveInv(c: Config, r: nat, op: Op, context: Option<Context>)
    requires Inv(c) && Enabled(c, Arrive(r, op, context))
    ensures Inv(Step(c, Arrive(r, op, context)))
  {
    hide ReplicaOk, PoolOk;
    assert At(c, r);
    ArriveSelf(c.replicas[r], c.received[r], c.minted, r, op, context);
    ArriveGrow(c, r, ApplyRemote(c.replicas[r], op, context).state, op);
  }

  lemma ArriveGrow(c: Config, r: nat, t: State, op: Op)
    requires Inv(c) && At(c, r) && op in c.minted && ReplicaOk(t, c.received[r] + {op}, c.minted, r)
    ensures Inv(Grow(c, r, t, {op}))
  {
    assert c.minted + {op} == c.minted;
    GrowInv(c, r, t, {op});
  }

  lemma {:induction false} DrainDownToKeeps(s: State, i: nat)
    requires WF(s) && i <= |s.pending|
    ensures DrainDownTo(s, i).replica == s.replica && s.applied <= DrainDownTo(s, i).applied
    decreases |s.pending| - i
  {
    if i < |s.pending| {
      DrainDownToKeeps(s, i + 1);
      DrainStepKeeps(DrainDownTo(s, i + 1), i);
    }
  }

  lemma DrainStepKeeps(s: State, i: nat)
    requires WF(s) && i < |s.pending|
    ensures DrainStep(s, i).replica == s.replica && s.applied <= DrainStep(s, i).applied
  {
  }

  lemma {:induction false} DrainKeeps(s: State)
    requires WF(s)
    ensures Drain(s).replica == s.replica && s.applied <= Drain(s).applied
    decreases |s.pending|
  {
    DrainDownToKeeps(s, 0);
    var t := DrainDownTo(s, 0);
    if |t.pending| < |s.pending| { DrainKeeps(t); }
  }

  lemma ApplyRemoteKeeps(s: State, op: Op, context: Option<Context>)
    requires WF(s)
    ensures ApplyRemote(s, op, context).state.replica == s.replica
    ensures s.applied <= ApplyRemote(s, op, context).state.applied
  {
    var s1 := RecordContext(s, op, context);
    if op.id !in s1.applied && Ready(s1.tree, op) { DrainKeeps(DoApply(s1, op)); }
  }

  lemma StepInv(c: Config, a: Action)
    requires Inv(c) && Enabled(c, a)
    ensures Inv(Step(c, a))
  {
    match a
    case TypeAt(r, v, value, bind) => TypeInv(c, r, v, value, bind);
    case EraseAt(r, v, count) => EraseInv(c, r, v, count);
    case UndoAt(r) => UndoInv(c, r);
    case RedoAt(r) => RedoInv(c, r);
    case Arrive(r, op, context) => ArriveInv(c, r, op, context);
  }
}
