/** One replica: mutable fields, each method proved to take the state where `EngineState` says. */
module Engines {
  import opened Identifiers
  import opened Operations
  import opened FugueShape
  import opened FugueTrees
  import opened EngineState
  import opened Collection
  import opened Histories

  datatype CollectResult = CollectResult(collectedCount: nat, incomplete: bool)

  class Engine {
    const replicaId: nat
    const tree: FugueTree
    var clock: nat
    var applied: set<Id>
    var pending: seq<Op>
    var deleteContext: map<Id, Context>
    var maxCounterByReplica: map<nat, nat>
    var undoStack: seq<Entry>
    var redoStack: seq<Entry>

    ghost function Abs(): State
      reads this, tree
    {
      State(replicaId, clock, tree.shape, applied, pending, deleteContext, maxCounterByReplica, undoStack, redoStack)
    }

    ghost predicate Valid()
      reads this, tree
    {
      tree.Valid() && WF(Abs())
    }

    constructor (replica: nat)
      ensures Valid() && Abs() == Fresh(replica) && fresh(tree)
    {
      replicaId := replica;
      tree := new FugueTree();
      clock, applied, pending := 0, {}, [];
      deleteContext, maxCounterByReplica := map[], map[];
      undoStack, redoStack := [], [];
    }

    method Nodes() returns (nodes: seq<Node>)
      requires Valid()
      ensures nodes == Flat(tree.shape)
    {
      nodes := tree.ToArray();
    }

    /** The materialised document. */
    method Text() returns (text: seq<nat>)
      requires Valid()
      ensures text == FugueShape.Text(tree.shape)
    {
      var nodes := tree.ToArray();
      text := Values(Vis(nodes));
    }

    method Mint() returns (id: Id)
      requires Valid()
      modifies this`clock
      ensures Valid() && Abs() == Tick(old(Abs())) && id == NextId(old(Abs()))
    {
      clock := clock + 1;
      id := Id(clock, replicaId);
    }

    method IsReady(op: Op) returns (b: bool)
      requires Valid()
      ensures b <==> Ready(tree.shape, op)
    {
      if op.Insert? {
        b := op.parent.None? || tree.HasIdentifier(op.parent.value);
      } else {
        b := tree.HasIdentifier(op.target);
      }
    }

    method ApplyInsert(op: Op)
      requires Valid() && op.Insert? && Ready(tree.shape, op) && op.id !in applied
      modifies tree
      ensures tree.Valid() && Abs() == Affected(old(Abs()), op)
    {
      var ok := tree.Attach(op.id, op.value, op.bind, op.parent, op.side);
    }

    method ApplyDelete(op: Op)
      requires Valid() && op.Delete? && Ready(tree.shape, op)
      modifies tree
      ensures tree.Valid() && Abs() == Affected(old(Abs()), op)
    {
      var node := tree.NodeByIdentifier(op.target);
      var ok := tree.SetDeleted(op.target, true, Some(MaxWins(node.value.deletedBy, op.id)));
    }

    /** Also drops what the garbage collector knew of the deletion that is undone. */
    method ApplyUndelete(op: Op)
      requires Valid() && op.Undelete? && Ready(tree.shape, op)
      modifies this`deleteContext, tree
      ensures tree.Valid() && Abs() == Affected(old(Abs()), op)
    {
      var node := tree.NodeByIdentifier(op.target);
      if Revives(node.value.deletedBy, op.id) {
        deleteContext := deleteContext - {node.value.deletedBy.value};
        var ok := tree.SetDeleted(op.target, false, None);
      }
    }

    method ApplyToTree(op: Op)
      requires Valid() && Ready(tree.shape, op) && op.id !in applied
      modifies this`deleteContext, tree
      ensures tree.Valid() && Abs() == Affected(old(Abs()), op)
    {
      match op {
        case Insert(_, _, _, _, _) => ApplyInsert(op);
        case Delete(_, _) => ApplyDelete(op);
        case Undelete(_, _) => ApplyUndelete(op);
      }
    }

    /** A locally minted operation, already on the clock. */
    method PerformLocal(op: Op)
      requires Valid() && Ready(tree.shape, op) && op.id !in applied && op.id.c <= clock
      modifies this`deleteContext, this`applied, tree
      ensures Valid() && Abs() == Perform(old(Abs()), op)
    {
      ghost var s := Abs();
      ghost var goal := Perform(s, op);
      ApplyToTree(op);
      applied := applied + {op.id};
      assert Abs() == goal;
    }

    method Observe(op: Op)
      requires Valid()
      modifies this`clock, this`maxCounterByReplica
      ensures Valid() && Abs() == EngineState.Observe(old(Abs()), op)
    {
      clock := Max(clock, op.id.c);
      if op.id.r !in maxCounterByReplica || op.id.c > maxCounterByReplica[op.id.r] {
        maxCounterByReplica := maxCounterByReplica[op.id.r := op.id.c];
      }
      assert Abs() == EngineState.Observe(old(Abs()), op);
    }

    method Apply(op: Op)
      requires Valid() && Ready(tree.shape, op) && op.id !in applied
      modifies this`clock, this`maxCounterByReplica, this`deleteContext, this`applied, tree
      ensures Valid() && Abs() == DoApply(old(Abs()), op)
    {
      Observe(op);
      PerformLocal(op);
    }

    /** Discards or applies the buffered operation at `i`, if it can. */
    method TryPending(i: nat)
      requires Valid() && i < |pending|
      modifies this`clock, this`maxCounterByReplica, this`deleteContext, this`applied, this`pending, tree
      ensures Valid() && Abs() == DrainStep(old(Abs()), i)
    {
      var op := pending[i];
      if op.id in applied {
        pending := SeqRemove(pending, i);
        return;
      }
      var ready := IsReady(op);
      if ready {
        Apply(op);
        ghost var done := Abs();
        pending := SeqRemove(pending, i);
        assert Abs() == done.(pending := SeqRemove(done.pending, i));
      }
    }

    /** One backward sweep over the buffer, splicing in place. */
    method SweepPending()
      requires Valid()
      modifies this`clock, this`maxCounterByReplica, this`deleteContext, this`applied, this`pending, tree
      ensures Valid() && Abs() == DrainDownTo(old(Abs()), 0)
    {
      var i := |pending|;
      while i > 0
        invariant 0 <= i <= |old(pending)| && Valid()
        invariant Abs() == DrainDownTo(old(Abs()), i)
      {
        i := i - 1;
        DrainDownToStep(old(Abs()), i, Abs());
        TryPending(i);
      }
    }

    /** Sweeps until a sweep splices nothing out. */
    method DrainPending()
      requires Valid()
      modifies this`clock, this`maxCounterByReplica, this`deleteContext, this`applied, this`pending, tree
      ensures Valid() && Abs() == Drain(old(Abs()))
    {
      var progressed := true;
      while progressed
        invariant Valid() && Drain(Abs()) == Drain(old(Abs()))
        invariant !progressed ==> Drain(Abs()) == Abs()
        decreases |pending|, progressed
      {
        var n := |pending|;
        SweepPending();
        progressed := |pending| < n;
      }
    }

    method ApplyRemote(op: Op, context: Option<Context>) returns (buffered: bool)
      requires Valid()
      modifies this, tree
      ensures Valid()
      ensures Delivery(Abs(), buffered) == EngineState.ApplyRemote(old(Abs()), op, context)
    {
      if op.Delete? && context.Some? {
        deleteContext := deleteContext[op.id := context.value];
      }
      assert Abs() == RecordContext(old(Abs()), op, context);
      if op.id in applied {
        return false;
      }
      var ready := IsReady(op);
      if ready {
        Apply(op);
        DrainPending();
        return false;
      }
      pending := pending + [op];
      return true;
    }

    method SetDeleteContext(id: Id, context: Context)
      requires Valid()
      modifies this`deleteContext
      ensures Valid() && Abs() == old(Abs()).(deleteContext := old(deleteContext)[id := context])
    {
      deleteContext := deleteContext[id := context];
    }

    /** The first buffered operation with this identifier, or the end of the buffer. */
    method FindPending(id: Id) returns (i: nat)
      ensures i <= |pending| && (i < |pending| ==> pending[i].id == id)
      ensures forall j :: 0 <= j < i ==> pending[j].id != id
    {
      i := 0;
      while i < |pending| && pending[i].id != id
        invariant i <= |pending| && forall j :: 0 <= j < i ==> pending[j].id != id
      {
        i := i + 1;
      }
    }

    /** Drops the first buffered operation with this identifier. */
    method RejectPending(id: Id) returns (found: bool)
      requires Valid()
      modifies this`pending
      ensures Valid()
      ensures found <==> exists i :: 0 <= i < |old(pending)| && old(pending)[i].id == id
      ensures if found then exists i :: 0 <= i < |old(pending)| && old(pending)[i].id == id
                              && (forall j :: 0 <= j < i ==> old(pending)[j].id != id)
                              && pending == SeqRemove(old(pending), i)
              else pending == old(pending)
    {
      var i := FindPending(id);
      if i == |pending| {
        return false;
      }
      ghost var s := Abs();
      pending := SeqRemove(pending, i);
      assert Abs() == s.(pending := SeqRemove(s.pending, i));
      return true;
    }

    /** Reverts an own insert, only while nothing hangs from it. */
    method TryRevertLocalInsert(id: Id) returns (reverted: bool)
      requires Valid()
      modifies tree
      ensures Valid()
      ensures reverted <==> Some(id) in old(Keys(tree.shape)) && Find(old(tree.shape), Some(id)).left.Empty?
                            && Find(old(tree.shape), Some(id)).right.Empty?
      ensures tree.shape == if reverted then Prune(old(tree.shape), {Some(id)}) else old(tree.shape)
    {
      var node := tree.TryRemoveLeaf(id);
      reverted := node.Some?;
      if reverted { PruneLeafKeys(old(tree.shape), Some(id)); }
    }

    method ResolveCaret(id: Option<Id>) returns (count: int)
      requires Valid()
      ensures count == if id == None || id !in Keys(tree.shape) then 0 else NumVis(UpTo(tree.shape, id))
    {
      count := tree.VisibleIndexRightOf(id);
    }

    /** `None` where the operation is refused: the position is out of range. */
    method LocalInsert(visibleIndex: int, value: nat, bind: bool) returns (op: Option<Op>)
      requires Valid()
      modifies this, tree
      ensures Valid()
      ensures op.Some? <==> 0 <= visibleIndex <= NumVis(Flat(old(tree.shape)))
      ensures op.Some? ==> op.value == InsertOp(old(Abs()), visibleIndex, value, bind)
                           && Some(Abs()) == EngineState.LocalInsert(old(Abs()), visibleIndex, value, bind)
      ensures op.Some? ==> EngineState.Redo(Abs()) == (Abs(), NothingToDo)
      ensures op.None? ==> Abs() == old(Abs())
    {
      hide Effect, EffectContext, FugueTrees.FugueTree.Valid, Unique, Placed, Flat, Vis, EngineState.Redo;
      var placement := tree.DecidePlacement(visibleIndex);
      if placement.None? {
        return None;
      }
      ghost var s := Abs();
      PlacementPresent(s.tree, LeftOrigin(s.tree, visibleIndex));
      var id := Mint();
      var o := Insert(id, value, placement.value.parent, placement.value.side, bind);
      assert o == InsertOp(s, visibleIndex, value, bind);
      PerformLocal(o);
      PushUndoEntry(Entry(o, true));
      ghost var done := Abs();
      redoStack := [];
      assert Abs() == ClearRedo(done);
      TypingEndsRedo(s, visibleIndex, value, bind);
      return Some(o);
    }

    method LocalDelete(visibleIndex: int, count: int) returns (ops: seq<Op>)
      requires Valid()
      modifies this, tree
      ensures Valid()
      ensures (Abs(), ops) == EngineState.LocalDelete(old(Abs()), visibleIndex, count)
      ensures EngineState.Redo(Abs()) == (Abs(), NothingToDo)
    {
      hide EngineState.Redo;
      ghost var s := Abs();
      redoStack := [];
      assert Abs() == ClearRedo(s);
      ops := DeleteVisibleRun(visibleIndex, if count < 0 then 0 else count);
      ErasingEndsRedo(s, visibleIndex, count);
    }

    method DeleteVisibleRun(visibleIndex: int, count: nat) returns (ops: seq<Op>)
      requires Valid()
      modifies this`clock, this`deleteContext, this`applied, this`undoStack, tree
      ensures Valid()
      ensures Abs() == DeleteRounds(old(Abs()), visibleIndex, count)
      ensures ops == DeleteOps(old(Abs()), visibleIndex, count)
    {
      ops := [];
      var k := 0;
      while k < count
        invariant k <= count && Valid()
        invariant Abs() == DeleteRounds(old(Abs()), visibleIndex, k)
        invariant ops == DeleteOps(old(Abs()), visibleIndex, k)
      {
        var op := DeleteVisible(visibleIndex);
        if op.None? {
          DeleteRoundsStop(old(Abs()), visibleIndex, k, count);
          return;
        }
        ops := ops + [op.value];
        k := k + 1;
      }
    }

    /** Mints, applies and records the deletion of the visible node at `visibleIndex`, if there is one. */
    method DeleteVisible(visibleIndex: int) returns (op: Option<Op>)
      requires Valid()
      modifies this`clock, this`deleteContext, this`applied, this`undoStack, tree
      ensures Valid() && Abs() == DeleteOne(old(Abs()), visibleIndex)
      ensures op == if InRange(old(Abs()), visibleIndex) then Some(DeleteOp(old(Abs()), visibleIndex)) else None
    {
      var target := tree.NodeAtVisible(visibleIndex);
      if target.None? {
        return None;
      }
      VisInFlat(Flat(tree.shape), visibleIndex);
      DocKeys(tree.shape);
      var id := Mint();
      var o := Delete(id, target.value.id);
      PerformLocal(o);
      PushUndoEntry(Entry(o, true));
      return Some(o);
    }

    /** The part undo and redo share: mint the reversal of a popped entry and apply it. */
    method ReverseEntry(e: Entry) returns (op: Op, hadEffect: bool)
      requires Valid() && Some(e.Target()) in Keys(tree.shape) && Reversal(e, NextId(Abs())).Some?
      modifies this`clock, this`deleteContext, this`applied, tree
      ensures Valid() && (Abs(), Entry(op, hadEffect)) == Reverse(old(Abs()), e)
    {
      hide Effect, EffectContext, FugueTrees.FugueTree.Valid, Unique, Placed;
      var id := Mint();
      op := Reversal(e, id).value;
      var before := tree.NodeByIdentifier(e.Target());
      EffectDoc(Abs(), op);
      PerformLocal(op);
      var after := tree.NodeByIdentifier(e.Target());
      hadEffect := before.value.deleted != after.value.deleted;
    }

    method StepUndoRedo(e: Entry) returns (outcome: Outcome, pushed: Option<Entry>)
      requires Valid() && (e.op.Insert? ==> e.hadEffect)
      modifies this`clock, this`deleteContext, this`applied, tree
      ensures Valid() && Stepped(Abs(), outcome, pushed) == EngineState.StepUndoRedo(old(Abs()), e) && outcome != Thrown
    {
      if !tree.HasIdentifier(e.Target()) {
        return Unavailable, None;
      }
      var op, hadEffect := ReverseEntry(e);
      return Applied(op), Some(Entry(op, hadEffect));
    }

    method PopUndoEntry() returns (e: Entry)
      requires Valid() && undoStack != []
      modifies this`undoStack
      ensures Valid() && Abs() == PopUndo(old(Abs())) && e == Last(old(undoStack))
    {
      e := Last(undoStack);
      undoStack := undoStack[..|undoStack| - 1];
      assert Abs() == PopUndo(old(Abs()));
    }

    method PopRedoEntry() returns (e: Entry)
      requires Valid() && redoStack != []
      modifies this`redoStack
      ensures Valid() && Abs() == PopRedo(old(Abs())) && e == Last(old(redoStack))
    {
      e := Last(redoStack);
      redoStack := redoStack[..|redoStack| - 1];
      assert Abs() == PopRedo(old(Abs()));
    }

    method PushUndoEntry(e: Entry)
      requires Valid() && (e.op.Insert? ==> e.hadEffect)
      modifies this`undoStack
      ensures Valid() && Abs() == PushUndo(old(Abs()), e)
    {
      undoStack := undoStack + [e];
      assert Abs() == PushUndo(old(Abs()), e);
    }

    method PushRedoEntry(e: Entry)
      requires Valid() && (e.op.Insert? ==> e.hadEffect)
      modifies this`redoStack
      ensures Valid() && Abs() == PushRedo(old(Abs()), e)
    {
      redoStack := redoStack + [e];
      assert Abs() == PushRedo(old(Abs()), e);
    }

    /** Never the "repeatSameKind on an insert" throw. */
    method Undo() returns (outcome: Outcome)
      requires Valid()
      modifies this, tree
      ensures Valid() && (Abs(), outcome) == EngineState.Undo(old(Abs())) && outcome != Thrown
    {
      if undoStack == [] {
        return NothingToDo;
      }
      var e := PopUndoEntry();
      var pushed;
      outcome, pushed := StepUndoRedo(e);
      if pushed.Some? {
        PushRedoEntry(pushed.value);
      }
    }

    method Redo() returns (outcome: Outcome)
      requires Valid()
      modifies this, tree
      ensures Valid() && (Abs(), outcome) == EngineState.Redo(old(Abs())) && outcome != Thrown
    {
      if redoStack == [] {
        return NothingToDo;
      }
      var e := PopRedoEntry();
      var pushed;
      outcome, pushed := StepUndoRedo(e);
      if pushed.Some? {
        PushUndoEntry(pushed.value);
      }
    }

    // ---------------------------------------------------------------- garbage collection

    method CheckCandidate(node: Node, frontier: nat, o: Options) returns (b: bool)
      requires Valid()
      ensures b <==> IsCandidate(Abs(), frontier, o, node)
    {
      hide FugueTree.Valid, WF;
      if !node.deleted || node.deletedBy.None? || node.deletedBy.value !in deleteContext {
        return false;
      }
      var who := node.deletedBy.value;
      var context := deleteContext[who];
      var seen := if who.r in maxCounterByReplica then maxCounterByReplica[who.r] else who.c;
      var agedOut := o.nowMs - context.atMs >= o.maxAgeMs;
      var outpaced := seen - who.c >= o.maxOpsPerReplica;
      return context.seqno <= frontier && (agedOut || outpaced);
    }

    method SelectCandidates(allNodes: seq<Node>, frontier: nat, o: Options) returns (c: set<Key>)
      requires Valid() && allNodes == Flat(tree.shape)
      ensures c == Candidates(Abs(), frontier, o)
    {
      hide IsCandidate, FugueTree.Valid, WF;
      c := {};
      var i := 0;
      while i < |allNodes|
        invariant i <= |allNodes|
        invariant c == CandidatesAmong(Abs(), frontier, o, allNodes[..i])
      {
        CandidatesNext(Abs(), frontier, o, allNodes, i);
        var candidate := CheckCandidate(allNodes[i], frontier, o);
        if candidate {
          c := c + {Some(allNodes[i].id)};
        }
        i := i + 1;
      }
      assert allNodes[..i] == allNodes;
    }

    /** The fixpoint sweep; `expired(i)` says whether the time budget is used up after sweep `i`. */
    static method SweepAnchored(allNodes: seq<Node>, candidates: set<Key>, expired: nat -> bool)
      returns (collectible: set<Key>, incomplete: bool)
      ensures incomplete <==> CutShort(allNodes, candidates, expired)
      ensures !incomplete ==> collectible == Sweep(allNodes, candidates)
    {
      hide Sweep, Passes, Anchored, CutShort;
      collectible := candidates;
      incomplete := false;
      var changed := true;
      var pass: nat := 0;
      PassNext(allNodes, candidates, 0);
      while changed
        invariant Sweep(allNodes, collectible) == Sweep(allNodes, candidates)
        invariant collectible == Passes(allNodes, candidates, pass) && forall j: nat :: j < pass ==> !expired(j)
        invariant !changed ==> Sweep(allNodes, collectible) == collectible && !CutShort(allNodes, candidates, expired)
        invariant !incomplete
        decreases |collectible|, changed
      {
        PassNext(allNodes, candidates, pass);
        SweepNext(allNodes, collectible);
        var anchored := AnchoredBy(allNodes, collectible);
        var kept := collectible - anchored;
        changed := kept != collectible;
        if changed {
          SmallerSet(kept, collectible);
        } else {
          NotCutShort(allNodes, candidates, expired, pass);
        }
        collectible := kept;
        if expired(pass) {
          if changed {
            CutHere(allNodes, candidates, expired, pass);
          }
          incomplete := changed;
          break;
        }
        pass := pass + 1;
      }
    }

    static method AnchoredBy(allNodes: seq<Node>, collectible: set<Key>) returns (anchored: set<Key>)
      ensures anchored == Anchored(allNodes, collectible)
    {
      anchored := {};
      var i := 0;
      while i < |allNodes|
        invariant i <= |allNodes| && anchored == Anchored(allNodes[..i], collectible)
      {
        if Some(allNodes[i].id) !in collectible && allNodes[i].parent.Some? {
          anchored := anchored + {allNodes[i].parent};
        }
        assert allNodes[..i + 1] == allNodes[..i] + [allNodes[i]];
        i := i + 1;
      }
      assert allNodes[..i] == allNodes;
    }

    /** Unlinks one node and forgets its deletion's context; never the tree's throw. */
    method RemoveCollected(k: Key)
      requires Valid() && k in Keys(tree.shape) && k.Some?
      requires Find(tree.shape, k).left.Empty? && Find(tree.shape, k).right.Empty?
      modifies this`deleteContext, tree
      ensures Valid() && Find(old(tree.shape), k).top.Some?
      ensures
        var who := Find(old(tree.shape), k).top.value.deletedBy;
        Abs() == old(Abs()).(tree := Prune(old(tree.shape), {k}),
                             deleteContext := old(deleteContext) - if who.Some? then {who.value} else {})
    {
      PruneLeafKeys(tree.shape, k);
      DocFind(tree.shape, k);
      ghost var s := Abs();
      var r := tree.Remove(k.value);
      deleteContext := deleteContext - if r.node.deletedBy.Some? then {r.node.deletedBy.value} else {};
      assert Abs() == s.(tree := Prune(s.tree, {k}), deleteContext := deleteContext);
    }

    /** One pass over what remained at its start, in any order. */
    method RemovePass(allNodes: seq<Node>, remaining: set<Key>, ghost s: State, ghost c: set<Key>)
      returns (left: set<Key>)
      requires Valid() && Removing(s, c, remaining, Abs()) && allNodes == Flat(s.tree)
      modifies this`deleteContext, tree
      ensures Valid() && Removing(s, c, left, Abs()) && left <= remaining
      ensures remaining != {} ==> left != remaining
    {
      left := remaining;
      var snapshot := remaining;
      while snapshot != {}
        invariant Valid() && Removing(s, c, left, Abs()) && snapshot <= left <= remaining
        invariant left == remaining ==> forall k :: k in remaining - snapshot ==> HasChildIn(allNodes, left, k)
        decreases |snapshot|
      {
        var key :| key in snapshot;
        SmallerSet(snapshot - {key}, snapshot);
        snapshot := snapshot - {key};
        if !HasChildIn(allNodes, left, key) {
          RemovingLeaf(s, c, left, Abs(), key);
          RemovingStep(s, c, left, Abs(), key);
          RemoveCollected(key);
          left := left - {key};
        }
      }
      if remaining != {} { var k := SomeLeafRemains(s, c, remaining); }
    }

    /** Leaves first, until nothing remains. */
    method RemoveAll(allNodes: seq<Node>, collectible: set<Key>)
      requires Valid() && Removable(Abs(), collectible) && allNodes == Flat(tree.shape)
      modifies this`deleteContext, tree
      ensures Valid() && Abs() == Collected(old(Abs()), collectible)
    {
      RemovingStarts(Abs(), collectible);
      var remaining, removedThisPass := collectible, true;
      while remaining != {} && removedThisPass
        invariant Valid() && Removing(old(Abs()), collectible, remaining, Abs()) && removedThisPass
        decreases |remaining|
      {
        var left := RemovePass(allNodes, remaining, old(Abs()), collectible);
        SmallerSet(left, remaining);
        removedThisPass := left != remaining;
        remaining := left;
      }
      assert collectible - remaining == collectible;
    }

    method Collect(frontier: nat, o: Options, expired: nat -> bool) returns (r: CollectResult)
      requires Valid()
      modifies this`deleteContext, tree
      ensures Valid()
      ensures if r.incomplete then r.collectedCount == 0 && Abs() == old(Abs())
              else && Abs() == Collection.Collect(old(Abs()), frontier, o)
                   && r.collectedCount == |Sweep(Flat(old(tree.shape)), Candidates(old(Abs()), frontier, o))|
      ensures r.incomplete <==>
                CutShort(Flat(old(tree.shape)), Candidates(old(Abs()), frontier, o), expired)
    {
      var allNodes := tree.ToArray();
      var candidates := SelectCandidates(allNodes, frontier, o);
      ghost var s := Abs();
      SweepRemovable(s, frontier, o);
      if candidates == {} {
        CollectedNothing(s);
        NotCutShort(allNodes, candidates, expired, 0);
        return CollectResult(0, false);
      }
      var collectible, incomplete := SweepAnchored(allNodes, candidates, expired);
      if incomplete {
        return CollectResult(0, true);
      }
      RemoveAll(allNodes, collectible);
      return CollectResult(|collectible|, false);
    }
  }

  lemma PruneLeafKeys(d: Forest, k: Key)
    requires IsDoc(d) && k in Keys(d) && k.Some? && Find(d, k).left.Empty? && Find(d, k).right.Empty?
    ensures IsDoc(Prune(d, {k})) && Keys(Prune(d, {k})) <= Keys(d)
  {
    PruneLeaf(d, k);
    PruneDoc(d, {k});
  }
}
