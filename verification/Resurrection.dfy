/**
 * Undo and redo against another replica's deletion.  The documentation promises that they never bring
 * such text back.  They can; this module says exactly when, and shows a run in which they do.
 */
module Resurrection {
  import opened Identifiers
  import opened Operations
  import opened FugueShape
  import opened FugueTrees
  import opened EngineState
  import opened Collection
  import opened Replica
  import opened FlagOrder
  import opened Network
  import opened Runs
  import opened UndoRedo

  // ------------------------------------------------------------------ other replicas' deletions

  /** A node another replica deleted last. */
  ghost predicate Theirs(s: State, x: Id) {
    && WF(s) && Some(x) in Keys(s.tree) && NodeAt(s.tree, x).deleted
    && !Revives(NodeAt(s.tree, x).deletedBy, NextId(s))
  }

  /** Reversing an entry revives a node exactly if it undeletes and the node's last deletion is one's own. */
  lemma RevivesExactly(s: State, e: Entry)
    requires WF(s) && Some(e.Target()) in Keys(s.tree) && Reversal(e, NextId(s)).Some?
    requires NodeAt(s.tree, e.Target()).deleted
    ensures
      var t := StepUndoRedo(s, e).state;
      && Some(e.Target()) in Keys(t.tree)
      && (!NodeAt(t.tree, e.Target()).deleted <==> Reversal(e, NextId(s)).value.Undelete? && !Theirs(s, e.Target()))
  {
    var op := Reversal(e, NextId(s)).value;
    EffectNodeAt(s, op, e.Target());
  }

  /** A reversal that repeats an operation without effect: the node afterwards. */
  lemma Repeats(s: State, e: Entry)
    requires WF(s) && Some(e.Target()) in Keys(s.tree) && Reversal(e, NextId(s)).Some?
    ensures
      var op, step := Reversal(e, NextId(s)).value, StepUndoRedo(s, e);
      && Some(e.Target()) in Keys(step.state.tree)
      && NodeAt(step.state.tree, e.Target()) == Reflagged(NodeAt(s.tree, e.Target()), op)
      && step.pushed
           == Some(Entry(op, NodeAt(s.tree, e.Target()).deleted != Reflagged(NodeAt(s.tree, e.Target()), op).deleted))
      && step.state.undoStack == s.undoStack && step.state.redoStack == s.redoStack
      && step.state.clock == s.clock + 1 && step.state.replica == s.replica
  {
    EffectNodeAt(s, Reversal(e, NextId(s)).value, e.Target());
  }

  /** A node `x` this replica typed and erased, and another replica then erased with the greater identifier `theirs`. */
  ghost predicate ErasedByBoth(s: State, x: Id, theirs: Id) {
    && Theirs(s, x) && NodeAt(s.tree, x).deletedBy == Some(theirs) && theirs.c <= s.clock
    && |s.undoStack| >= 2
    && s.undoStack[|s.undoStack| - 1].op.Delete? && s.undoStack[|s.undoStack| - 1].op.target == x
    && s.undoStack[|s.undoStack| - 2].op.Insert? && s.undoStack[|s.undoStack| - 2].op.id == x
    && s.undoStack[|s.undoStack| - 1].hadEffect
  }

  /** The first undo has no effect. */
  lemma FirstUndo(s: State, x: Id, theirs: Id)
    requires ErasedByBoth(s, x, theirs)
    ensures
      var t := Undo(s).0;
      && WF(t) && Some(x) in Keys(t.tree) && NodeAt(t.tree, x) == NodeAt(s.tree, x)
      && t.clock == s.clock + 1 && t.replica == s.replica && t.undoStack == s.undoStack[..|s.undoStack| - 1]
      && |t.redoStack| > 0 && Last(t.redoStack).op.Undelete? && Last(t.redoStack).op.target == x
        && !Last(t.redoStack).hadEffect
  {
    Repeats(PopUndo(s), Last(s.undoStack));
  }

  /** The second deletes the deleted node again, and takes the attribution over. */
  lemma SecondUndo(s: State, x: Id)
    requires Theirs(s, x) && NodeAt(s.tree, x).deletedBy.Some? && NodeAt(s.tree, x).deletedBy.value.c <= s.clock
    requires s.undoStack != [] && Last(s.undoStack).op.Insert? && Last(s.undoStack).op.id == x
    ensures
      var t := Undo(s).0;
      && WF(t) && Some(x) in Keys(t.tree) && NodeAt(t.tree, x).deleted && NodeAt(t.tree, x).deletedBy == Some(NextId(s))
      && t.clock == s.clock + 1 && t.replica == s.replica
      && |t.redoStack| == |s.redoStack| + 1 && t.redoStack[..|s.redoStack|] == s.redoStack
      && Last(t.redoStack).op.Delete? && Last(t.redoStack).op.target == x && !Last(t.redoStack).hadEffect
  {
    LastIn(s.undoStack);
    Repeats(PopUndo(s), Last(s.undoStack));
  }

  /** The first redo repeats that delete. */
  lemma FirstRedo(s: State, x: Id)
    requires WF(s) && Some(x) in Keys(s.tree) && NodeAt(s.tree, x).deleted
    requires NodeAt(s.tree, x).deletedBy.Some? && NodeAt(s.tree, x).deletedBy.value.c <= s.clock
    requires s.redoStack != [] && Last(s.redoStack).op.Delete? && Last(s.redoStack).op.target == x
      && !Last(s.redoStack).hadEffect
    ensures
      var t := Redo(s).0;
      && WF(t) && Some(x) in Keys(t.tree) && NodeAt(t.tree, x).deleted && NodeAt(t.tree, x).deletedBy == Some(NextId(s))
      && t.clock == s.clock + 1 && t.replica == s.replica && t.redoStack == s.redoStack[..|s.redoStack| - 1]
  {
    Repeats(PopRedo(s), Last(s.redoStack));
  }

  /** The second redo repeats the undelete, which now succeeds. */
  lemma SecondRedo(s: State, x: Id)
    requires WF(s) && Some(x) in Keys(s.tree) && NodeAt(s.tree, x).deleted
      && Revives(NodeAt(s.tree, x).deletedBy, NextId(s))
    requires s.redoStack != [] && Last(s.redoStack).op.Undelete? && Last(s.redoStack).op.target == x
      && !Last(s.redoStack).hadEffect
    ensures var t := Redo(s).0; WF(t) && Some(x) in Keys(t.tree) && !NodeAt(t.tree, x).deleted
  {
    Repeats(PopRedo(s), Last(s.redoStack));
  }

  /**
   * Undoing twice and redoing twice brings back text another replica deleted: the entries without
   * effect are repeated, but the repeated delete takes the attribution over.
   */
  lemma RedoResurrects(s: State, x: Id, theirs: Id)
    requires ErasedByBoth(s, x, theirs)
    ensures WF(Undos(s, 2))
    ensures var t := Redos(Undos(s, 2), 2); Some(x) in Keys(t.tree) && !NodeAt(t.tree, x).deleted
  {
    hide Undo, Redo;
    FirstUndo(s, x, theirs);
    var s1 := Undo(s).0;
    SecondUndo(s1, x);
    var s2 := Undo(s1).0;
    FirstRedo(s2, x);
    var s3 := Redo(s2).0;
    SecondRedo(s3, x);
    assert Undos(s, 0) == s;
    assert Undos(s, 1) == s1;
    assert Undos(s, 2) == s2;
    assert Redos(s2, 2) == Redos(s3, 1) == Redos(Redo(s3).0, 0);
  }

  // ------------------------------------------------------------------ any undos and redos

  /** One undo, or one redo. */
  function Press(s: State, undo: bool): (t: State)
    requires WF(s)
    ensures WF(t)
  {
    if undo then Undo(s).0 else Redo(s).0
  }

  /** A sequence of undos (`true`) and redos (`false`). */
  function Replay(s: State, presses: seq<bool>): (t: State)
    requires WF(s)
    ensures WF(t)
    decreases |presses|
  {
    if presses == [] then s else Replay(Press(s, presses[0]), presses[1..])
  }

  /** The stack an undo or a redo pops. */
  function Stack(s: State, undo: bool): seq<Entry> {
    if undo then s.undoStack else s.redoStack
  }

  /** Reversing `e` deletes `x`, or undeletes it. */
  predicate Aims(e: Entry, x: Id, deletes: bool) {
    && e.Target() == x && Reversal(e, Id(0, 0)).Some?
    && Reversal(e, Id(0, 0)).value.Delete? == deletes
  }

  ghost predicate Among(st: seq<Entry>, x: Id, deletes: bool) {
    exists e :: e in st && Aims(e, x, deletes)
  }

  /** One of the two stacks holds an entry whose reversal deletes (undeletes) `x`. */
  ghost predicate Holds(s: State, x: Id, deletes: bool) {
    Among(s.undoStack, x, deletes) || Among(s.redoStack, x, deletes)
  }

  ghost predicate Dead(s: State, x: Id) {
    WF(s) && Some(x) in Keys(s.tree) && NodeAt(s.tree, x).deleted
  }

  ghost predicate Alive(s: State, x: Id) {
    WF(s) && Some(x) in Keys(s.tree) && !NodeAt(s.tree, x).deleted
  }

  /** Deleted, and attributed to this replica. */
  ghost predicate Ours(s: State, x: Id) {
    Dead(s, x) && Revives(NodeAt(s.tree, x).deletedBy, NextId(s))
  }

  /** The clock has seen the deletion. */
  ghost predicate Dated(s: State, x: Id)
    requires WF(s) && Some(x) in Keys(s.tree)
  {
    NodeAt(s.tree, x).deletedBy.Some? ==> NodeAt(s.tree, x).deletedBy.value.c <= s.clock
  }

  /** Reversing an entry for another node. */
  lemma StepElsewhere(s: State, e: Entry, x: Id)
    requires WF(s) && Some(x) in Keys(s.tree) && e.Target() != x
    ensures
      var step := StepUndoRedo(s, e);
      && Some(x) in Keys(step.state.tree) && NodeAt(step.state.tree, x) == NodeAt(s.tree, x)
      && step.state.undoStack == s.undoStack && step.state.redoStack == s.redoStack
      && step.state.replica == s.replica && step.state.clock >= s.clock
      && (step.pushed.Some? ==> step.pushed.value.Target() != x)
  {
    if Some(e.Target()) in Keys(s.tree) && Reversal(e, NextId(s)).Some? {
      EffectNodeAt(s, Reversal(e, NextId(s)).value, x);
    }
  }

  /** `t` is `s` after reversing `e`, which was on one of the stacks. */
  ghost predicate Reversed(s: State, e: Entry, t: State, x: Id) {
    && (Alive(t, x) || Dead(t, x))
    && (Alive(t, x) <==> Aims(e, x, false) && Ours(s, x))
    && (Dead(t, x) && Ours(s, x) ==> Ours(t, x))
    && (Ours(t, x) ==> Ours(s, x) || Aims(e, x, true))
    && (Dead(s, x) && Dated(s, x) ==> Dated(t, x) && (Aims(e, x, true) ==> Ours(t, x)))
  }

  /** What `e` leaves on the other stack aims as it did, unless the node was revived. */
  ghost predicate Passed(e: Entry, pushed: Option<Entry>, x: Id) {
    forall deletes :: (pushed.Some? && Aims(pushed.value, x, deletes)) <==> Aims(e, x, deletes)
  }

  lemma IdAt(s: State, x: Id)
    requires WF(s) && Some(x) in Keys(s.tree)
    ensures NodeAt(s.tree, x).id == x
  {
  }

  lemma StepReverses(s: State, e: Entry, x: Id)
    requires Dead(s, x) && (e.op.Insert? ==> e.hadEffect)
    ensures
      var step := StepUndoRedo(s, e);
      && Reversed(s, e, step.state, x) && (Dead(step.state, x) ==> Passed(e, step.pushed, x))
      && step.state.undoStack == s.undoStack && step.state.redoStack == s.redoStack
  {
    hide StepUndoRedo, WF, NodeAt;
    IdAt(s, x);
    if e.Target() == x {
      Repeats(s, e);
      RevivesExactly(s, e);
    } else {
      StepElsewhere(s, e, x);
    }
  }

  lemma Alike(s: State, s': State, x: Id)
    requires WF(s) && WF(s') && s.tree == s'.tree && s.clock == s'.clock && s.replica == s'.replica
    ensures (Dead(s, x) <==> Dead(s', x)) && (Alive(s, x) <==> Alive(s', x)) && (Ours(s, x) <==> Ours(s', x))
    ensures Some(x) in Keys(s.tree) ==> (Dated(s, x) <==> Dated(s', x))
  {
  }

  lemma ReversedMoves(s: State, s': State, e: Entry, t: State, t': State, x: Id)
    requires Reversed(s', e, t, x) && WF(s) && WF(s') && WF(t) && WF(t') && s.tree == s'.tree && t.tree == t'.tree
    requires s.clock == s'.clock && t.clock == t'.clock && s.replica == s'.replica && t.replica == t'.replica
    ensures Reversed(s, e, t', x)
  {
    hide WF, NodeAt, Aims, Revives;
    Alike(s, s', x);
    Alike(t, t', x);
  }

  /** What one press does to the fate of a deleted node. */
  lemma Pressed(s: State, undo: bool, x: Id)
    requires Dead(s, x) && Stack(s, undo) != []
    ensures
      var t, st := Press(s, undo), Stack(s, undo);
      && Reversed(s, Last(st), t, x)
      && Stack(t, undo) == st[..|st| - 1]
      && (Dead(t, x) ==> forall deletes :: Holds(t, x, deletes) <==> Holds(s, x, deletes))
  {
    hide StepUndoRedo, Reversed, Aims;
    var st := Stack(s, undo);
    var p := if undo then PopUndo(s) else PopRedo(s);
    LastIn(st);
    StepReverses(p, Last(st), x);
    var step := StepUndoRedo(p, Last(st));
    var t := Press(s, undo);
    ReversedMoves(s, p, Last(st), step.state, t, x);
    if Dead(t, x) { Exchanged(st, Stack(s, !undo), Stack(t, !undo), step.pushed, x); }
  }

  /** An entry passed from one stack to the other leaves the aims on the two stacks as they were. */
  lemma Exchanged(popped: seq<Entry>, pushed: seq<Entry>, pushed': seq<Entry>, e': Option<Entry>, x: Id)
    requires popped != [] && Passed(Last(popped), e', x) && pushed' == pushed + if e'.Some? then [e'.value] else []
    ensures forall deletes :: Among(popped[..|popped| - 1], x, deletes) || Among(pushed', x, deletes)
                         <==> Among(popped, x, deletes) || Among(pushed, x, deletes)
  {
    hide Aims;
    var init := popped[..|popped| - 1];
    assert popped == init + [Last(popped)];
    forall deletes
      ensures Among(popped, x, deletes) <==> Among(init, x, deletes) || Aims(Last(popped), x, deletes)
    {
      AmongMore(init, Last(popped), x, deletes);
    }
    if e'.Some? {
      forall deletes ensures Among(pushed', x, deletes) <==> Among(pushed, x, deletes) || Aims(e'.value, x, deletes) {
        AmongMore(pushed, e'.value, x, deletes);
      }
    }
  }

  lemma AmongMore(st: seq<Entry>, e: Entry, x: Id, deletes: bool)
    ensures Among(st + [e], x, deletes) <==> Among(st, x, deletes) || Aims(e, x, deletes)
  {
    hide Aims;
    assert e in st + [e];
    assert forall o :: o in st ==> o in st + [e];
  }

  lemma EmptyPress(s: State, undo: bool)
    requires WF(s) && Stack(s, undo) == []
    ensures Press(s, undo) == s
  {
  }

  /** A node deleted by another replica, all of whose entries aim alike, stays deleted. */
  lemma {:induction false} StaysDead(s: State, presses: seq<bool>, x: Id, deletes: bool)
    requires Dead(s, x) && !Holds(s, x, deletes) && (deletes ==> !Ours(s, x))
    ensures Dead(Replay(s, presses), x)
    decreases |presses|
  {
    hide Press, Reversed, Aims, WF, NodeAt, Alive, Ours;
    if presses != [] {
      var t := Press(s, presses[0]);
      if Stack(s, presses[0]) == [] {
        EmptyPress(s, presses[0]);
      } else {
        NotRevived(s, presses[0], x, deletes);
      }
      StaysDead(t, presses[1..], x, deletes);
    }
  }

  lemma NotRevived(s: State, undo: bool, x: Id, deletes: bool)
    requires Dead(s, x) && Stack(s, undo) != [] && !Holds(s, x, deletes) && (deletes ==> !Ours(s, x))
    ensures
      var t := Press(s, undo);
      Dead(t, x) && !Holds(t, x, deletes) && (deletes ==> !Ours(t, x))
  {
    hide Press, Aims, WF, NodeAt, Alive, Ours;
    Pressed(s, undo, x);
    LastIn(Stack(s, undo));
    assert Aims(Last(Stack(s, undo)), x, deletes) ==> Among(Stack(s, undo), x, deletes);
  }

  /** Pressing one key until an entry that deletes (undeletes) `x` is popped. */
  lemma {:induction false} Reach(s: State, undo: bool, x: Id, deletes: bool) returns (presses: seq<bool>)
    requires Dead(s, x) && Dated(s, x) && Among(Stack(s, undo), x, deletes) && (deletes || Ours(s, x))
    ensures
      var t := Replay(s, presses);
      Alive(t, x) || (deletes && Ours(t, x) && Dated(t, x) && forall k :: Holds(t, x, k) <==> Holds(s, x, k))
    decreases |Stack(s, undo)|
  {
    hide Press, Aims, WF, NodeAt, Alive, Ours, Dated;
    var t, st := Press(s, undo), Stack(s, undo);
    Pressed(s, undo, x);
    presses := [undo];
    assert Replay(s, [undo]) == Replay(t, []) == t;
    if Dead(t, x) && !Aims(Last(st), x, deletes) {
      AmongMore(st[..|st| - 1], Last(st), x, deletes);
      assert st == st[..|st| - 1] + [Last(st)];
      var more := Reach(t, undo, x, deletes);
      presses := [undo] + more;
      assert presses[1..] == more;
    }
  }

  lemma {:induction false} ReplayMore(s: State, a: seq<bool>, b: seq<bool>)
    requires WF(s)
    ensures Replay(s, a + b) == Replay(Replay(s, a), b)
    decreases |a|
  {
    if a == [] {
      assert a + b == b;
    } else {
      assert (a + b)[1..] == a[1..] + b;
      ReplayMore(Press(s, a[0]), a[1..], b);
    }
  }

  lemma BothAims(s: State, x: Id) returns (presses: seq<bool>)
    requires Dead(s, x) && Dated(s, x) && Holds(s, x, true) && Holds(s, x, false)
    ensures Alive(Replay(s, presses), x)
  {
    hide Aims, WF, NodeAt, Alive, Dated, Among;
    presses := Reach(s, Among(s.undoStack, x, true), x, true);
    var t := Replay(s, presses);
    if !Alive(t, x) {
      OursDead(t, x);
      var more := Reach(t, Among(t.undoStack, x, false), x, false);
      ReplayMore(s, presses, more);
      presses := presses + more;
    }
  }

  lemma OursDead(s: State, x: Id)
    requires Ours(s, x)
    ensures Dead(s, x)
  {
  }

  /**
   * When undo and redo can resurrect what another replica deleted: some sequence of them brings the node
   * back if and only if the two stacks hold an entry whose reversal deletes the node and an entry whose
   * reversal undeletes it.
   */
  lemma ResurrectsExactly(s: State, x: Id)
    requires Theirs(s, x) && Dated(s, x)
    ensures (exists presses :: Alive(Replay(s, presses), x)) <==> Holds(s, x, true) && Holds(s, x, false)
  {
    hide Press, Aims, Holds, Dated;
    forall presses, deletes | !Holds(s, x, deletes) ensures !Alive(Replay(s, presses), x) {
      StaysDead(s, presses, x, deletes);
    }
    if Holds(s, x, true) && Holds(s, x, false) {
      var presses := BothAims(s, x);
      assert Alive(Replay(s, presses), x);
    }
  }

  /** In every run the clock has seen every deletion, so the condition decides at every reachable replica. */
  lemma RunResurrectsExactly(ids: set<nat>, acts: seq<Action>, r: nat, x: Id)
    requires RunOf(ids, acts).Some? && r in RunOf(ids, acts).value.replicas
    requires Theirs(RunOf(ids, acts).value.replicas[r], x)
    ensures
      var s := RunOf(ids, acts).value.replicas[r];
      (exists presses :: Alive(Replay(s, presses), x)) <==> Holds(s, x, true) && Holds(s, x, false)
  {
    RunInv(ids, acts);
    var c := RunOf(ids, acts).value;
    ReplicaAt(c, r);
    DeletionsDated(c.replicas[r], c.received[r], x);
    ResurrectsExactly(c.replicas[r], x);
  }

  lemma DeletionsDated(s: State, p: set<Op>, x: Id)
    requires Core(s, p) && Some(x) in Keys(s.tree)
    ensures Dated(s, x)
  {
    DocNodeBack(s.tree, x);
    var n := NodeAt(s.tree, x);
    assert FlagOk(n, AppliedOps(s, p));
  }

  // ------------------------------------------------------------------ a run that resurrects

  /** A document of one node. */
  function LoneDoc(n: Node): Forest {
    Trees(None, Empty, Leaf(n), Empty)
  }

  function FirstInsert(p: nat, value: nat, bind: bool): Op {
    Insert(Id(1, p), value, None, R, bind)
  }

  lemma LoneParts(n: Node)
    requires n.parent == None && n.side == R
    ensures IsDoc(LoneDoc(n)) && Keys(LoneDoc(n)) == {None, Some(n.id)} && Flat(LoneDoc(n)) == [n]
    ensures NodeAt(LoneDoc(n), n.id) == n
  {
    assert Find(LoneDoc(n), Some(n.id)) == Find(Leaf(n), Some(n.id)) == Leaf(n);
  }

  /** Replica `p` after typing the first character. */
  function Typist(p: nat, value: nat, bind: bool): State {
    var ins := FirstInsert(p, value, bind);
    State(p, 1, LoneDoc(NewNode(ins)), {ins.id}, [], map[], map[], [Entry(ins, true)], [])
  }

  lemma TypesFirst(p: nat, value: nat, bind: bool)
    ensures InsertOp(Fresh(p), 0, value, bind) == FirstInsert(p, value, bind)
    ensures LocalInsert(Fresh(p), 0, value, bind) == Some(Typist(p, value, bind))
  {
    var s := Fresh(p);
    assert LeftOrigin(s.tree, 0) == None && PlacementAt(s.tree, None) == Placement(None, R);
    var ins := FirstInsert(p, value, bind);
    assert Attach(EmptyDoc, NewNode(ins)) == LoneDoc(NewNode(ins));
    assert {} + {ins.id} == {ins.id} && [] + [Entry(ins, true)] == [Entry(ins, true)];
    assert Perform(Tick(s), ins) == Typist(p, value, bind).(undoStack := []);
  }

  /** Replica `q` after that character has arrived. */
  function Reader(q: nat, p: nat, value: nat, bind: bool): State {
    var ins := FirstInsert(p, value, bind);
    State(q, 1, LoneDoc(NewNode(ins)), {ins.id}, [], map[], map[p := 1], [], [])
  }

  lemma FirstArrives(q: nat, p: nat, value: nat, bind: bool)
    ensures ApplyRemote(Fresh(q), FirstInsert(p, value, bind), None).state == Reader(q, p, value, bind)
  {
    var s, ins := Fresh(q), FirstInsert(p, value, bind);
    assert Attach(EmptyDoc, NewNode(ins)) == LoneDoc(NewNode(ins));
    assert DoApply(s, ins) == Reader(q, p, value, bind);
    DrainNothing(DoApply(s, ins));
  }

  /** A replica erases the one character it shows. */
  function Erased(s: State, n: Node): State {
    var op := Delete(NextId(s), n.id);
    s.(clock := s.clock + 1, tree := LoneDoc(n.(deleted := true, deletedBy := Some(op.id))),
       applied := s.applied + {op.id}, undoStack := s.undoStack + [Entry(op, true)], redoStack := [])
  }

  lemma ErasesFirst(s: State, n: Node)
    requires WF(s) && s.tree == LoneDoc(n) && n.parent == None && n.side == R && !n.deleted && n.deletedBy == None
    ensures InRange(s, 0) && DeleteOp(s, 0) == Delete(NextId(s), n.id)
    ensures DeleteOne(s, 0) == Erased(s, n).(redoStack := s.redoStack)
  {
    LoneParts(n);
    assert Vis([n]) == [n];
    assert SetFlags(LoneDoc(n), Some(n.id), true, Some(NextId(s)))
        == LoneDoc(n.(deleted := true, deletedBy := Some(NextId(s))));
  }

  lemma ErasesLone(s: State, n: Node)
    requires WF(s) && s.tree == LoneDoc(n) && n.parent == None && n.side == R && !n.deleted && n.deletedBy == None
    ensures LocalDelete(s, 0, 1) == (Erased(s, n), [Delete(NextId(s), n.id)])
  {
    hide DeleteOne, InRange, DeleteOp, WF, IsDoc;
    var s1 := ClearRedo(s);
    ErasesFirst(s1, n);
    assert DeleteRounds(s1, 0, 0) == s1 && DeleteOps(s1, 0, 0) == [];
    assert DeleteRounds(s1, 0, 1) == DeleteOne(s1, 0);
    assert DeleteOps(s1, 0, 1) == [] + [DeleteOp(s1, 0)] == [Delete(NextId(s), n.id)];
  }

  /** A delete of that character arrives. */
  lemma DeleteArrives(s: State, n: Node, d: Op)
    requires WF(s) && s.tree == LoneDoc(n) && n.parent == None && n.side == R && s.pending == []
    requires d.Delete? && d.target == n.id && d.id !in s.applied
    ensures
      var t := ApplyRemote(s, d, None).state;
      && t.replica == s.replica && t.clock == Max(s.clock, d.id.c) && t.undoStack == s.undoStack
      && t.tree == LoneDoc(n.(deleted := true, deletedBy := Some(MaxWins(n.deletedBy, d.id))))
  {
    LoneParts(n);
    assert SetFlags(LoneDoc(n), Some(n.id), true, Some(MaxWins(n.deletedBy, d.id)))
        == LoneDoc(n.(deleted := true, deletedBy := Some(MaxWins(n.deletedBy, d.id))));
    DrainNothing(DoApply(s, d));
  }

  /** Both replicas erase the character, and the greater delete reaches the one that typed it. */
  function Quarrel(p: nat, q: nat, value: nat, bind: bool): seq<Action> {
    [TypeAt(p, 0, value, bind), Arrive(q, FirstInsert(p, value, bind), None), EraseAt(q, 0, 1), EraseAt(p, 0, 1),
     Arrive(p, Delete(Id(2, q), Id(1, p)), None)]
  }

  /** Two undos and two redos at the replica that typed it. */
  function BackAndForth(p: nat): seq<Action> {
    [UndoAt(p), UndoAt(p), RedoAt(p), RedoAt(p)]
  }

  lemma RunMore(ids: set<nat>, acts: seq<Action>, a: Action)
    requires RunOf(ids, acts).Some? && Network.Enabled(RunOf(ids, acts).value, a)
    ensures RunOf(ids, acts + [a]) == Some(Network.Step(RunOf(ids, acts).value, a))
  {
    assert (acts + [a])[..|acts|] == acts;
  }

  /** The run so far: the two replicas' states, and some of what was minted. */
  ghost predicate Stands(p: nat, q: nat, acts: seq<Action>, sp: State, sq: State, minted: set<Op>) {
    p != q && RunOf({p, q}, acts).Some? &&
    var c := RunOf({p, q}, acts).value;
    && c.replicas == map[p := sp, q := sq] && c.received.Keys == {p, q} && minted <= c.minted && WF(sp) && WF(sq)
  }

  lemma StandsNext(p: nat, q: nat, acts: seq<Action>, sp: State, sq: State, minted: set<Op>, a: Action)
    requires Stands(p, q, acts, sp, sq, minted) && a.r in {p, q} && (a.Arrive? ==> a.op in minted)
    requires WF(Act(if a.r == p then sp else sq, a))
    ensures
      if a.r == p then Stands(p, q, acts + [a], Act(sp, a), sq, minted + NewOps(sp, a))
      else Stands(p, q, acts + [a], sp, Act(sq, a), minted + NewOps(sq, a))
  {
    hide Act, NewOps, WF, RunOf, Network.Step;
    RunMore({p, q}, acts, a);
    StepReplicas(RunOf({p, q}, acts).value, p, q, sp, sq, a);
  }

  lemma StepReplicas(c: Config, p: nat, q: nat, sp: State, sq: State, a: Action)
    requires p != q && Network.Enabled(c, a) && a.r in {p, q} && c.replicas == map[p := sp, q := sq]
    ensures Network.Step(c, a).received.Keys == c.received.Keys
    ensures Network.Step(c, a).replicas
         == if a.r == p then map[p := Act(sp, a), q := sq] else map[p := sp, q := Act(sq, a)]
    ensures Network.Step(c, a).minted == c.minted + NewOps(if a.r == p then sp else sq, a)
  {
    hide Act, NewOps, WF;
  }

  lemma StandsStart(p: nat, q: nat)
    requires p != q
    ensures Stands(p, q, [], Fresh(p), Fresh(q), {})
  {
  }

  /** An action of `p` from a standing run: what it leads to, and what is minted. */
  lemma TypesThere(p: nat, q: nat, value: nat, bind: bool)
    requires p != q
    ensures Stands(p, q, [TypeAt(p, 0, value, bind)], Typist(p, value, bind), Fresh(q), {FirstInsert(p, value, bind)})
  {
    hide Stands, RunOf, LocalInsert, InsertOp;
    var a, ins := TypeAt(p, 0, value, bind), FirstInsert(p, value, bind);
    StandsStart(p, q);
    TypesFirst(p, value, bind);
    StandsNext(p, q, [], Fresh(p), Fresh(q), {}, a);
    assert [] + [a] == [a] && {} + {ins} == {ins} && NewOps(Fresh(p), a) == {ins};
  }

  lemma ArrivesThere(p: nat, q: nat, value: nat, bind: bool, acts: seq<Action>)
    requires Stands(p, q, acts, Typist(p, value, bind), Fresh(q), {FirstInsert(p, value, bind)})
    ensures
      var ins := FirstInsert(p, value, bind);
      Stands(p, q, acts + [Arrive(q, ins, None)], Typist(p, value, bind), Reader(q, p, value, bind), {ins})
  {
    hide Stands, RunOf, ApplyRemote, Typist, Reader;
    var ins := FirstInsert(p, value, bind);
    FirstArrives(q, p, value, bind);
    ApartIds(p, q, acts, Typist(p, value, bind), Fresh(q), {ins});
    StandsNext(p, q, acts, Typist(p, value, bind), Fresh(q), {ins}, Arrive(q, ins, None));
    assert {ins} + {ins} == {ins};
  }

  lemma ApartIds(p: nat, q: nat, acts: seq<Action>, sp: State, sq: State, minted: set<Op>)
    requires Stands(p, q, acts, sp, sq, minted)
    ensures p != q && WF(sp) && WF(sq)
  {
  }

  /** Erasing the one character, at either replica. */
  lemma EraseStands(p: nat, q: nat, acts: seq<Action>, sp: State, sq: State, minted: set<Op>, r: nat, n: Node)
    requires Stands(p, q, acts, sp, sq, minted) && r in {p, q}
    requires
      var s := if r == p then sp else sq;
      s.tree == LoneDoc(n) && n.parent == None && n.side == R && !n.deleted && n.deletedBy == None
    ensures
      var s := if r == p then sp else sq;
      var minted' := minted + {Delete(NextId(s), n.id)};
      if r == p then Stands(p, q, acts + [EraseAt(r, 0, 1)], Erased(sp, n), sq, minted')
      else Stands(p, q, acts + [EraseAt(r, 0, 1)], sp, Erased(sq, n), minted')
  {
    hide Stands, RunOf, LocalDelete, Erased, LoneDoc, WF;
    var s := if r == p then sp else sq;
    ApartIds(p, q, acts, sp, sq, minted);
    ErasesLone(s, n);
    StandsNext(p, q, acts, sp, sq, minted, EraseAt(r, 0, 1));
    assert NewOps(s, EraseAt(r, 0, 1)) == {Delete(NextId(s), n.id)};
  }

  /** Both have erased it. */
  lemma BothErase(p: nat, q: nat, value: nat, bind: bool)
    requires p != q
    ensures
      var n := NewNode(FirstInsert(p, value, bind));
      Stands(p, q, Quarrel(p, q, value, bind)[..4], Erased(Typist(p, value, bind), n),
        Erased(Reader(q, p, value, bind), n),
        {FirstInsert(p, value, bind), Delete(Id(2, q), Id(1, p)), Delete(Id(2, p), Id(1, p))})
  {
    hide Stands, RunOf, Erased;
    var ins := FirstInsert(p, value, bind);
    var n, sp, sq := NewNode(ins), Typist(p, value, bind), Reader(q, p, value, bind);
    TypesThere(p, q, value, bind);
    ArrivesThere(p, q, value, bind, [TypeAt(p, 0, value, bind)]);
    EraseStands(p, q, [TypeAt(p, 0, value, bind)] + [Arrive(q, ins, None)], sp, sq, {ins}, q, n);
    var acts := [TypeAt(p, 0, value, bind)] + [Arrive(q, ins, None)] + [EraseAt(q, 0, 1)];
    var minted := {ins} + {Delete(Id(2, q), Id(1, p))};
    EraseStands(p, q, acts, sp, Erased(sq, n), minted, p, n);
    assert acts + [EraseAt(p, 0, 1)] == Quarrel(p, q, value, bind)[..4];
    assert minted + {Delete(Id(2, p), Id(1, p))} == {ins, Delete(Id(2, q), Id(1, p)), Delete(Id(2, p), Id(1, p))};
  }

  /** The state the quarrel leaves at `p`. */
  lemma Quarrelled(p: nat, q: nat, value: nat, bind: bool)
    requires p < q
    ensures
      var s := Erased(Typist(p, value, bind), NewNode(FirstInsert(p, value, bind)));
      WF(s) && ErasedByBoth(ApplyRemote(s, Delete(Id(2, q), Id(1, p)), None).state, Id(1, p), Id(2, q))
  {
    hide ApplyRemote;
    var n, d := NewNode(FirstInsert(p, value, bind)), Delete(Id(2, q), Id(1, p));
    var s := Erased(Typist(p, value, bind), n);
    var m := n.(deleted := true, deletedBy := Some(Id(2, p)));
    LoneParts(m);
    DeleteArrives(s, m, d);
    LoneParts(m.(deletedBy := Some(Id(2, q))));
  }

  /** The quarrel is a run. */
  lemma QuarrelStands(p: nat, q: nat, value: nat, bind: bool) returns (sp: State, sq: State, minted: set<Op>)
    requires p < q
    ensures Stands(p, q, Quarrel(p, q, value, bind), sp, sq, minted) && ErasedByBoth(sp, Id(1, p), Id(2, q))
  {
    hide Stands, RunOf, Erased, ErasedByBoth, ApplyRemote;
    var n, d, acts := NewNode(FirstInsert(p, value, bind)), Delete(Id(2, q), Id(1, p)), Quarrel(p, q, value, bind);
    BothErase(p, q, value, bind);
    Quarrelled(p, q, value, bind);
    var s := Erased(Typist(p, value, bind), n);
    sp, sq := ApplyRemote(s, d, None).state, Erased(Reader(q, p, value, bind), n);
    var before := {FirstInsert(p, value, bind), d, Delete(Id(2, p), Id(1, p))};
    StandsNext(p, q, acts[..4], s, sq, before, Arrive(p, d, None));
    minted := before + {d};
    assert acts[..4] + [Arrive(p, d, None)] == acts;
  }

  lemma PressStands(p: nat, q: nat, acts: seq<Action>, sp: State, sq: State, minted: set<Op>, undo: bool)
    returns (minted': set<Op>)
    requires Stands(p, q, acts, sp, sq, minted)
    ensures WF(sp) && Stands(p, q, acts + [if undo then UndoAt(p) else RedoAt(p)], Press(sp, undo), sq, minted')
  {
    hide Stands, RunOf, Undo, Redo, WF;
    var a := if undo then UndoAt(p) else RedoAt(p);
    ApartIds(p, q, acts, sp, sq, minted);
    StandsNext(p, q, acts, sp, sq, minted, a);
    minted' := minted + NewOps(sp, a);
  }

  lemma PressesStand(p: nat, q: nat, acts: seq<Action>, sp: State, sq: State, minted: set<Op>)
    returns (minted': set<Op>)
    requires Stands(p, q, acts, sp, sq, minted)
    ensures WF(sp) && Stands(p, q, acts + BackAndForth(p), Redos(Undos(sp, 2), 2), sq, minted')
  {
    hide Stands, RunOf, Undo, Redo, WF;
    var m1 := PressStands(p, q, acts, sp, sq, minted, true);
    var s1, a1 := Press(sp, true), acts + [UndoAt(p)];
    var m2 := PressStands(p, q, a1, s1, sq, m1, true);
    var s2, a2 := Press(s1, true), a1 + [UndoAt(p)];
    var m3 := PressStands(p, q, a2, s2, sq, m2, false);
    var s3, a3 := Press(s2, false), a2 + [RedoAt(p)];
    minted' := PressStands(p, q, a3, s3, sq, m3, false);
    assert Undos(sp, 1) == s1 && Undos(sp, 2) == s2;
    assert Redos(s2, 2) == Redos(s3, 1) == Redos(Press(s3, false), 0);
    assert acts + BackAndForth(p) == a3 + [RedoAt(p)];
  }

  lemma BothBefore(sp: State, x: Id, theirs: Id)
    requires ErasedByBoth(sp, x, theirs)
    ensures Theirs(sp, x) && NodeAt(sp.tree, x).deletedBy == Some(theirs)
    ensures Alive(Redos(Undos(sp, 2), 2), x)
  {
    RedoResurrects(sp, x, theirs);
  }

  /**
   * Two replicas, nine actions: `p` types a character, both erase it, the greater delete of `q` reaches
   * `p`, and two undos and two redos at `p` show the character again.
   */
  lemma RunResurrects(p: nat, q: nat, value: nat, bind: bool)
    requires p < q
    ensures
      var acts := Quarrel(p, q, value, bind);
      && RunOf({p, q}, acts).Some? && RunOf({p, q}, acts + BackAndForth(p)).Some?
      && var before, after := RunOf({p, q}, acts).value, RunOf({p, q}, acts + BackAndForth(p)).value;
      && p in before.replicas && Theirs(before.replicas[p], Id(1, p))
      && NodeAt(before.replicas[p].tree, Id(1, p)).deletedBy == Some(Id(2, q))
      && p in after.replicas && Alive(after.replicas[p], Id(1, p))
  {
    hide RunOf, Quarrel, Undos, Redos, Alive, ErasedByBoth;
    var sp, sq, m := QuarrelStands(p, q, value, bind);
    BothBefore(sp, Id(1, p), Id(2, q));
    var m' := PressesStand(p, q, Quarrel(p, q, value, bind), sp, sq, m);
  }
}
