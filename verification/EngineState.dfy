/** The engine as a value: what each of its operations does to the whole state. */
module EngineState {
  import opened Identifiers
  import opened Operations
  import opened FugueShape
  import opened FugueTrees

  /** Sequence number and arrival time of a delete, for garbage collection. */
  datatype Context = Context(seqno: nat, atMs: int)

  datatype Entry = Entry(op: Op, hadEffect: bool)
  {
    function Target(): Id {
      if op.Insert? then op.id else op.target
    }
  }

  datatype State = State(
    replica: nat, clock: nat, tree: Forest, applied: set<Id>, pending: seq<Op>,
    deleteContext: map<Id, Context>, maxCounter: map<nat, nat>,
    undoStack: seq<Entry>, redoStack: seq<Entry>)

  function Fresh(replica: nat): (s: State)
    ensures WF(s)
  {
    State(replica, 0, EmptyDoc, {}, [], map[], map[], [], [])
  }

  /** Only entries that had an effect may hold an insert. */
  predicate StackOk(st: seq<Entry>) {
    forall e :: e in st && e.op.Insert? ==> e.hadEffect
  }

  predicate WF(s: State) {
    && IsDoc(s.tree)
    && (forall k :: k in Keys(s.tree) && k.Some? ==> k.value in s.applied)
    && (forall id :: id in s.applied ==> id.c <= s.clock)
    && StackOk(s.undoStack) && StackOk(s.redoStack)
  }

  // ------------------------------------------------------------------ applying one operation

  predicate Ready(tree: Forest, op: Op) {
    if op.Insert? then op.parent in Keys(tree) else Some(op.target) in Keys(tree)
  }

  function NodeAt(tree: Forest, id: Id): Node
    requires IsDoc(tree) && Some(id) in Keys(tree)
  {
    DocFind(tree, Some(id));
    Find(tree, Some(id)).top.value
  }

  /** Attribution of a tombstone: the greatest delete wins. */
  function MaxWins(who: Option<Id>, d: Id): Id {
    if who.None? || CompareIds(d, who.value) > 0 then d else who.value
  }

  /** An undelete by `u` takes effect only on its own replica's deletion. */
  predicate Revives(who: Option<Id>, u: Id) {
    who.Some? && who.value.r == u.r
  }

  function Effect(tree: Forest, op: Op): Forest
    requires IsDoc(tree) && Ready(tree, op)
  {
    match op
    case Insert(_, _, _, _, _) => Attach(tree, NewNode(op))
    case Delete(id, target) =>
      SetFlags(tree, Some(target), true, Some(MaxWins(NodeAt(tree, target).deletedBy, id)))
    case Undelete(id, target) =>
      if Revives(NodeAt(tree, target).deletedBy, id) then SetFlags(tree, Some(target), false, None) else tree
  }

  /** What an undelete that takes effect drops from the garbage collector's table. */
  function EffectContext(s: State, op: Op): map<Id, Context>
    requires IsDoc(s.tree) && Ready(s.tree, op)
  {
    if op.Undelete? && Revives(NodeAt(s.tree, op.target).deletedBy, op.id)
    then s.deleteContext - {NodeAt(s.tree, op.target).deletedBy.value} else s.deleteContext
  }

  /** The tree and the collector's table after an operation. */
  function Affected(s: State, op: Op): State
    requires IsDoc(s.tree) && Ready(s.tree, op)
  {
    s.(tree := Effect(s.tree, op), deleteContext := EffectContext(s, op))
  }

  lemma EffectDoc(s: State, op: Op)
    requires WF(s) && Ready(s.tree, op) && op.id !in s.applied
    ensures IsDoc(Effect(s.tree, op))
    ensures Keys(Effect(s.tree, op)) == Keys(s.tree) + if op.Insert? then {Some(op.id)} else {}
  {
    match op
    case Insert(_, _, _, _, _) => AttachDoc(s.tree, NewNode(op));
    case Delete(id, target) =>
      SetFlagsDoc(s.tree, Some(target), true, Some(MaxWins(NodeAt(s.tree, target).deletedBy, id)));
    case Undelete(id, target) => SetFlagsDoc(s.tree, Some(target), false, None);
  }

  /** Applying locally: no clock observation, no per-replica counter. */
  function Perform(s: State, op: Op): (s': State)
    requires WF(s) && Ready(s.tree, op) && op.id !in s.applied && op.id.c <= s.clock
    ensures WF(s')
  {
    EffectDoc(s, op);
    Affected(s, op).(applied := s.applied + {op.id})
  }

  function Max(a: nat, b: nat): nat {
    if a < b then b else a
  }

  function Observe(s: State, op: Op): (s': State)
    ensures s'.tree == s.tree && s'.applied == s.applied && op.id.c <= s'.clock
    ensures WF(s) ==> WF(s')
  {
    s.(clock := Max(s.clock, op.id.c),
       maxCounter := if op.id.r in s.maxCounter && op.id.c <= s.maxCounter[op.id.r] then s.maxCounter
                     else s.maxCounter[op.id.r := op.id.c])
  }

  function DoApply(s: State, op: Op): (s': State)
    requires WF(s) && Ready(s.tree, op) && op.id !in s.applied
    ensures WF(s')
  {
    Perform(Observe(s, op), op)
  }

  // ------------------------------------------------------------------ remote operations

  /** What a sweep does at buffer position `i`: discard a duplicate, apply, or leave. */
  function DrainStep(s: State, i: nat): (s': State)
    requires WF(s) && i < |s.pending|
    ensures WF(s') && |s'.pending| <= |s.pending| <= |s'.pending| + 1
    ensures |s'.pending| == |s.pending| ==> s' == s
  {
    var op := s.pending[i];
    if op.id in s.applied then s.(pending := SeqRemove(s.pending, i))
    else if Ready(s.tree, op) then DoApply(s, op).(pending := SeqRemove(s.pending, i))
    else s
  }

  /** The state once a backward sweep has done the positions from the end down to `i`. */
  function DrainDownTo(s: State, i: nat): (s': State)
    requires WF(s) && i <= |s.pending|
    ensures WF(s') && i <= |s'.pending| <= |s.pending|
    ensures |s'.pending| == |s.pending| ==> s' == s
    decreases |s.pending| - i
  {
    if i == |s.pending| then s else DrainStep(DrainDownTo(s, i + 1), i)
  }

  lemma DrainDownToStep(s: State, i: nat, t: State)
    requires WF(s) && i < |s.pending| && t == DrainDownTo(s, i + 1)
    ensures WF(t) && i < |t.pending| && DrainStep(t, i) == DrainDownTo(s, i)
  {
  }

  /** Sweeps until one makes no progress. */
  function Drain(s: State): (s': State)
    requires WF(s)
    ensures WF(s')
    decreases |s.pending|
  {
    var t := DrainDownTo(s, 0);
    if |t.pending| == |s.pending| then t else Drain(t)
  }

  function RecordContext(s: State, op: Op, context: Option<Context>): State {
    if op.Delete? && context.Some? then s.(deleteContext := s.deleteContext[op.id := context.value]) else s
  }

  datatype Delivery = Delivery(state: State, buffered: bool)

  function ApplyRemote(s: State, op: Op, context: Option<Context>): (r: Delivery)
    requires WF(s)
    ensures WF(r.state)
  {
    var s1 := RecordContext(s, op, context);
    if op.id in s1.applied then Delivery(s1, false)
    else if Ready(s1.tree, op) then Delivery(Drain(DoApply(s1, op)), false)
    else Delivery(s1.(pending := s1.pending + [op]), true)
  }

  // ------------------------------------------------------------------ local operations

  /** The identifier the next local operation gets. */
  function NextId(s: State): Id {
    Id(s.clock + 1, s.replica)
  }

  /** Minting advances the clock by exactly one. */
  function Tick(s: State): (s': State)
    requires WF(s)
    ensures WF(s') && NextId(s) !in s'.applied
  {
    s.(clock := s.clock + 1)
  }

  function PushUndo(s: State, e: Entry): (s': State)
    requires WF(s) && (e.op.Insert? ==> e.hadEffect)
    ensures WF(s')
  {
    s.(undoStack := s.undoStack + [e])
  }

  function PushRedo(s: State, e: Entry): (s': State)
    requires WF(s) && (e.op.Insert? ==> e.hadEffect)
    ensures WF(s')
  {
    s.(redoStack := s.redoStack + [e])
  }

  /** A new local operation starts a new branch of history. */
  function ClearRedo(s: State): (s': State)
    requires WF(s)
    ensures WF(s')
  {
    s.(redoStack := [])
  }

  function InsertOp(s: State, v: int, value: nat, bind: bool): Op
    requires WF(s) && 0 <= v <= NumVis(Flat(s.tree))
  {
    var p := PlacementAt(s.tree, LeftOrigin(s.tree, v));
    Insert(NextId(s), value, p.parent, p.side, bind)
  }

  lemma PlacementPresent(d: Forest, k: Key)
    requires IsDoc(d) && k in Keys(d)
    ensures PlacementAt(d, k).parent in Keys(d)
    ensures Find(d, PlacementAt(d, k).parent).Kids(PlacementAt(d, k).side).Empty?
  {
    var r := Find(d, k).right;
    if r.Trees? {
      DocFind(d, k);
      LeftmostPresent(r, k, R);
      var m := Leftmost(r).value;
      FindWithin(d, k);
      FindSub(d, k, Some(m.id));
    }
  }

  lemma {:induction false} LeftmostPresent(f: Forest, p: Key, s: Side)
    requires f.Trees? && Unique(f) && Placed(f, p, s)
    ensures Leftmost(f).Some? && Some(Leftmost(f).value.id) in Keys(f)
    ensures Find(f, Some(Leftmost(f).value.id)).left.Empty?
  {
    if f.left.Trees? { LeftmostPresent(f.left, f.TopKey(), L); }
  }

  /** `None` where the operation is refused: the position is out of range. */
  function LocalInsert(s: State, v: int, value: nat, bind: bool): (r: Option<State>)
    requires WF(s)
    ensures r.Some? ==> WF(r.value)
  {
    if 0 <= v <= NumVis(Flat(s.tree)) then
      var op := InsertOp(s, v, value, bind);
      PlacementPresent(s.tree, LeftOrigin(s.tree, v));
      Some(ClearRedo(PushUndo(Perform(Tick(s), op), Entry(op, true))))
    else None
  }

  predicate InRange(s: State, v: int) {
    0 <= v < NumVis(Flat(s.tree))
  }

  function DeleteOp(s: State, v: int): Op
    requires InRange(s, v)
  {
    Delete(NextId(s), Vis(Flat(s.tree))[v].id)
  }

  /** Deletes the visible node at `v`, if there is one. */
  function DeleteOne(s: State, v: int): (s': State)
    requires WF(s)
    ensures WF(s')
  {
    if !InRange(s, v) then s
    else
      var op := DeleteOp(s, v);
      VisInFlat(Flat(s.tree), v);
      DocKeys(s.tree);
      PushUndo(Perform(Tick(s), op), Entry(op, true))
  }

  /** The state after `n` rounds of deleting at `v`. */
  function DeleteRounds(s: State, v: int, n: nat): (s': State)
    requires WF(s)
    ensures WF(s')
  {
    if n == 0 then s else DeleteOne(DeleteRounds(s, v, n - 1), v)
  }

  /** The operations those rounds mint. */
  function DeleteOps(s: State, v: int, n: nat): seq<Op>
    requires WF(s)
  {
    if n == 0 then []
    else
      var before := DeleteRounds(s, v, n - 1);
      DeleteOps(s, v, n - 1) + if InRange(before, v) then [DeleteOp(before, v)] else []
  }

  function LocalDelete(s: State, v: int, count: int): (r: (State, seq<Op>))
    requires WF(s)
    ensures WF(r.0)
  {
    var n := if count < 0 then 0 else count;
    (DeleteRounds(ClearRedo(s), v, n), DeleteOps(ClearRedo(s), v, n))
  }

  /** Once the position is out of range, further rounds do nothing. */
  lemma {:induction false} DeleteRoundsStop(s: State, v: int, k: nat, n: nat)
    requires WF(s) && k <= n && !InRange(DeleteRounds(s, v, k), v)
    ensures DeleteRounds(s, v, n) == DeleteRounds(s, v, k) && DeleteOps(s, v, n) == DeleteOps(s, v, k)
  {
    if k < n { DeleteRoundsStop(s, v, k, n - 1); }
  }

  // ------------------------------------------------------------------ undo and redo

  datatype Outcome = NothingToDo | Unavailable | Thrown | Applied(op: Op)

  /** The inverse of an entry that had an effect, a repetition of one that had none. */
  function Reversal(e: Entry, id: Id): Option<Op> {
    if e.hadEffect then
      match e.op
      case Insert(_, _, _, _, _) => Some(Delete(id, e.op.id))
      case Delete(_, target) => Some(Undelete(id, target))
      case Undelete(_, target) => Some(Delete(id, target))
    else
      match e.op
      case Insert(_, _, _, _, _) => None
      case Delete(_, target) => Some(Delete(id, target))
      case Undelete(_, target) => Some(Undelete(id, target))
  }

  function Last(st: seq<Entry>): Entry
    requires st != []
  {
    st[|st| - 1]
  }

  function PopUndo(s: State): (s': State)
    requires WF(s) && s.undoStack != []
    ensures WF(s')
  {
    s.(undoStack := s.undoStack[..|s.undoStack| - 1])
  }

  function PopRedo(s: State): (s': State)
    requires WF(s) && s.redoStack != []
    ensures WF(s')
  {
    s.(redoStack := s.redoStack[..|s.redoStack| - 1])
  }

  /** Applies the reversal of `e`; the entry it leaves for the other stack. */
  function Reverse(s: State, e: Entry): (r: (State, Entry))
    requires WF(s) && Some(e.Target()) in Keys(s.tree) && Reversal(e, NextId(s)).Some?
    ensures WF(r.0) && !r.1.op.Insert?
  {
    var op := Reversal(e, NextId(s)).value;
    var done := Perform(Tick(s), op);
    EffectDoc(Tick(s), op);
    (done, Entry(op, NodeAt(s.tree, e.Target()).deleted != NodeAt(done.tree, e.Target()).deleted))
  }

  datatype Stepped = Stepped(state: State, outcome: Outcome, pushed: Option<Entry>)

  /** What undo and redo share, once `e` is popped. */
  function StepUndoRedo(s: State, e: Entry): (r: Stepped)
    requires WF(s)
    ensures WF(r.state) && (r.pushed.Some? ==> !r.pushed.value.op.Insert?)
  {
    if Some(e.Target()) !in Keys(s.tree) then Stepped(s, Unavailable, None)
    else if Reversal(e, NextId(s)).None? then Stepped(s, Thrown, None)
    else var (done, e') := Reverse(s, e); Stepped(done, Applied(e'.op), Some(e'))
  }

  function Undo(s: State): (r: (State, Outcome))
    requires WF(s)
    ensures WF(r.0)
  {
    if s.undoStack == [] then (s, NothingToDo)
    else
      var step := StepUndoRedo(PopUndo(s), Last(s.undoStack));
      (if step.pushed.Some? then PushRedo(step.state, step.pushed.value) else step.state, step.outcome)
  }

  function Redo(s: State): (r: (State, Outcome))
    requires WF(s)
    ensures WF(r.0)
  {
    if s.redoStack == [] then (s, NothingToDo)
    else
      var step := StepUndoRedo(PopRedo(s), Last(s.redoStack));
      (if step.pushed.Some? then PushUndo(step.state, step.pushed.value) else step.state, step.outcome)
  }

  /** The "repeatSameKind on an insert" throw cannot be reached. */
  lemma UndoRedoNeverThrow(s: State)
    requires WF(s)
    ensures Undo(s).1 != Thrown && Redo(s).1 != Thrown
  {
    if s.undoStack != [] { assert Last(s.undoStack) in s.undoStack; }
    if s.redoStack != [] { assert Last(s.redoStack) in s.redoStack; }
  }
}
