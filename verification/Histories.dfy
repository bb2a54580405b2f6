/** What every operation of a replica does to its undo and redo history, its clock and the counters it notes. */
module Histories {
  import opened Identifiers
  import opened Operations
  import opened FugueShape
  import opened EngineState

  /** There is nothing to redo. */
  predicate RedoEnded(s: State)
    requires WF(s)
  {
    Redo(s) == (s, NothingToDo)
  }

  /** Typing ends the redo history. */
  lemma TypingEndsRedo(s: State, v: int, value: nat, bind: bool)
    requires WF(s) && LocalInsert(s, v, value, bind).Some?
    ensures RedoEnded(LocalInsert(s, v, value, bind).value)
  {
    hide Effect, EffectContext, IsDoc;
  }

  lemma DeletingKeepsRedo(s: State, v: int)
    requires WF(s)
    ensures DeleteOne(s, v).redoStack == s.redoStack && DeleteOne(s, v).maxCounter == s.maxCounter
    ensures DeleteOne(s, v).clock == s.clock + (if InRange(s, v) then 1 else 0)
    ensures DeleteOne(s, v).replica == s.replica
  {
    hide Effect, EffectContext, IsDoc, Vis;
  }

  lemma {:induction false} RoundsKeepRedo(s: State, v: int, n: nat)
    requires WF(s)
    ensures
      var t, ops := DeleteRounds(s, v, n), DeleteOps(s, v, n);
      && t.redoStack == s.redoStack && t.maxCounter == s.maxCounter && t.replica == s.replica
      && t.clock == s.clock + |ops|
      && forall i :: 0 <= i < |ops| ==> ops[i].id == Id(s.clock + 1 + i, s.replica)
  {
    hide DeleteOne, WF, InRange;
    if n > 0 {
      RoundsKeepRedo(s, v, n - 1);
      DeletingKeepsRedo(DeleteRounds(s, v, n - 1), v);
    }
  }

  /** So does erasing, even of nothing. */
  lemma ErasingEndsRedo(s: State, v: int, count: int)
    requires WF(s)
    ensures RedoEnded(LocalDelete(s, v, count).0)
  {
    hide DeleteRounds, DeleteOps, WF;
    RoundsKeepRedo(ClearRedo(s), v, if count < 0 then 0 else count);
  }

  /** Local edits mint the next identifiers of the replica, one after the other, and note no counter. */
  lemma EditsMintNext(s: State, v: int, value: nat, bind: bool, count: int)
    requires WF(s)
    ensures LocalInsert(s, v, value, bind).Some? ==>
      var t := LocalInsert(s, v, value, bind).value;
      && 0 <= v <= NumVis(Flat(s.tree)) && InsertOp(s, v, value, bind).id == Id(s.clock + 1, s.replica)
      && t.clock == s.clock + 1 && t.maxCounter == s.maxCounter && t.replica == s.replica
    ensures
      var (t, ops) := LocalDelete(s, v, count);
      && t.clock == s.clock + |ops| && t.maxCounter == s.maxCounter && t.replica == s.replica
      && forall i :: 0 <= i < |ops| ==> ops[i].id == Id(s.clock + 1 + i, s.replica)
  {
    hide Effect, EffectContext, IsDoc, DeleteRounds, DeleteOps, Vis;
    RoundsKeepRedo(ClearRedo(s), v, if count < 0 then 0 else count);
  }

  // ------------------------------------------------------------------ undo and redo

  /** What undo and redo mint for an entry: the opposite of what had an effect, the same again of what had none. */
  ghost predicate Answers(e: Entry, id: Id, op: Op) {
    match op
    case Insert(_, _, _, _, _) => false
    case Delete(_, _) =>
      op == Delete(id, e.Target()) && if e.hadEffect then !e.op.Delete? else e.op.Delete?
    case Undelete(_, _) =>
      op == Undelete(id, e.Target()) && if e.hadEffect then e.op.Delete? else e.op.Undelete?
  }

  /** One press: nothing to do, a node that is gone, or an operation minted against the last entry. */
  ghost predicate Pressed(s: State, from: seq<Entry>, outcome: Outcome) {
    if from == [] then outcome == NothingToDo
    else
      var e := from[|from| - 1];
      if Some(e.Target()) !in Keys(s.tree) then outcome == Unavailable
      else outcome.Applied? && Answers(e, Id(s.clock + 1, s.replica), outcome.op)
  }

  lemma StepAnswers(s: State, e: Entry)
    requires WF(s) && (e.op.Insert? ==> e.hadEffect)
    ensures
      var step := StepUndoRedo(s, e);
      && (Some(e.Target()) !in Keys(s.tree) ==> step == Stepped(s, Unavailable, None))
      && (Some(e.Target()) in Keys(s.tree) ==>
            && step.outcome.Applied? && Answers(e, Id(s.clock + 1, s.replica), step.outcome.op)
            && step.pushed.Some? && step.pushed.value.op == step.outcome.op
            && step.state.clock == s.clock + 1 && step.state.maxCounter == s.maxCounter
            && step.state.undoStack == s.undoStack && step.state.redoStack == s.redoStack)
  {
    hide Effect, EffectContext, IsDoc;
  }

  /** Undo answers the last entry of the undo history and moves the answer to the redo history. */
  lemma UndoPresses(s: State)
    requires WF(s)
    ensures
      var (t, outcome) := Undo(s);
      && Pressed(s, s.undoStack, outcome)
      && (s.undoStack == [] ==> t == s)
      && (s.undoStack != [] ==> t.undoStack == s.undoStack[..|s.undoStack| - 1])
      && (outcome.Unavailable? ==> t == s.(undoStack := t.undoStack))
      && (outcome.Applied? ==>
            && |t.redoStack| == |s.redoStack| + 1 && t.redoStack[..|s.redoStack|] == s.redoStack
            && t.redoStack[|s.redoStack|].op == outcome.op && t.clock == s.clock + 1 && t.maxCounter == s.maxCounter)
  {
    hide StepUndoRedo, IsDoc;
    if s.undoStack != [] {
      assert Last(s.undoStack) in s.undoStack;
      StepAnswers(PopUndo(s), Last(s.undoStack));
    }
  }

  /** Redo likewise, the other way. */
  lemma RedoPresses(s: State)
    requires WF(s)
    ensures
      var (t, outcome) := Redo(s);
      && Pressed(s, s.redoStack, outcome)
      && (s.redoStack == [] ==> t == s)
      && (s.redoStack != [] ==> t.redoStack == s.redoStack[..|s.redoStack| - 1])
      && (outcome.Unavailable? ==> t == s.(redoStack := t.redoStack))
      && (outcome.Applied? ==>
            && |t.undoStack| == |s.undoStack| + 1 && t.undoStack[..|s.undoStack|] == s.undoStack
            && t.undoStack[|s.undoStack|].op == outcome.op && t.clock == s.clock + 1 && t.maxCounter == s.maxCounter)
  {
    hide StepUndoRedo, IsDoc;
    if s.redoStack != [] {
      assert Last(s.redoStack) in s.redoStack;
      StepAnswers(PopRedo(s), Last(s.redoStack));
    }
  }

  // ------------------------------------------------------------------ remote operations

  ghost predicate SameHistory(s: State, t: State) {
    t.undoStack == s.undoStack && t.redoStack == s.redoStack
  }

  lemma StepHistory(s: State, i: nat)
    requires WF(s) && i < |s.pending|
    ensures SameHistory(s, DrainStep(s, i))
  {
    hide IsDoc, Effect, EffectContext;
  }

  lemma {:induction false} DownToHistory(s: State, i: nat)
    requires WF(s) && i <= |s.pending|
    ensures SameHistory(s, DrainDownTo(s, i))
    decreases |s.pending| - i
  {
    hide WF, DrainStep;
    if i < |s.pending| {
      DownToHistory(s, i + 1);
      StepHistory(DrainDownTo(s, i + 1), i);
    }
  }

  lemma {:induction false} DrainHistory(s: State)
    requires WF(s)
    ensures SameHistory(s, Drain(s))
    decreases |s.pending|
  {
    hide WF, DrainDownTo;
    DownToHistory(s, 0);
    var t := DrainDownTo(s, 0);
    if |t.pending| < |s.pending| { DrainHistory(t); }
  }

  /** Other replicas' operations leave both histories as they are. */
  lemma RemoteKeepsHistory(s: State, op: Op, context: Option<Context>)
    requires WF(s)
    ensures SameHistory(s, ApplyRemote(s, op, context).state)
  {
    hide IsDoc, Effect, EffectContext, Drain;
    var s1 := RecordContext(s, op, context);
    if op.id !in s1.applied && Ready(s1.tree, op) { DrainHistory(DoApply(s1, op)); }
  }
}
