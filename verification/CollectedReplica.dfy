/** A replica that collected, next to the same replica had it not: what deliveries do to the two. */
module CollectedReplica {
  import opened Identifiers
  import opened Operations
  import opened FugueShape
  import opened FugueTrees
  import opened EngineState
  import opened Collection
  import opened OpSets
  import opened Replica
  import opened Convergence

  // ------------------------------------------------------------------ pruning and the tree operations

  lemma {:induction false} FirstOfPruned(f: Forest, n: Node, c: set<Key>)
    requires AllAfter(n, f)
    ensures InsertSorted(Prune(f, c), n) == Trees(Some(n), Empty, Empty, Prune(f, c))
  {
    if f.Trees? { FirstOfPruned(f.rest, n, c); }
  }

  lemma {:induction false} PruneInsertSorted(f: Forest, n: Node, c: set<Key>)
    requires Sorted(f) && Some(n.id) !in c
    ensures Prune(InsertSorted(f, n), c) == InsertSorted(Prune(f, c), n)
  {
    if f.Trees? {
      if SiblingLess(n, f.top.value) {
        AllAfterThrough(n, f.top.value, f.rest);
        FirstOfPruned(f, n, c);
      } else {
        PruneInsertSorted(f.rest, n, c);
      }
    }
  }

  /** In sorted sibling lists, a new leaf lands in the same place whether or not some siblings are gone. */
  lemma {:induction false} PruneAttach(f: Forest, n: Node, c: set<Key>, ops: set<Op>)
    requires Built(f, ops) && Some(n.id) !in c && n.parent !in c
    ensures Prune(Attach(f, n), c) == Attach(Prune(f, c), n)
  {
    if f.Trees? {
      PruneAttach(f.left, n, c, ops);
      PruneAttach(f.right, n, c, ops);
      PruneAttach(f.rest, n, c, ops);
      AttachHeads(f.left, n);
      AttachHeads(f.right, n);
      PruneInsertSorted(Attach(f.left, n), n, c);
      PruneInsertSorted(Attach(f.right, n), n, c);
    }
  }

  lemma {:induction false} PruneSetFlags(f: Forest, k: Key, deleted: bool, who: Option<Id>, c: set<Key>)
    ensures Prune(SetFlags(f, k, deleted, who), c) == SetFlags(Prune(f, c), k, deleted, who)
  {
    if f.Trees? {
      PruneSetFlags(f.left, k, deleted, who, c);
      PruneSetFlags(f.right, k, deleted, who, c);
      PruneSetFlags(f.rest, k, deleted, who, c);
    }
  }

  // ------------------------------------------------------------------ two replicas

  /** `c` is made of deleted nodes of the tree and closed under children. */
  ghost predicate Gone(tree: Forest, c: set<Key>) {
    && ChildClosed(Flat(tree), c) && c <= Keys(tree) && None !in c
    && forall n :: n in Flat(tree) && Some(n.id) in c ==> n.deleted
  }

  /** `u` is `s` without the nodes of `c`; nothing that waits needs one of them. */
  ghost predicate Twin(s: State, u: State, c: set<Key>) {
    && WF(s) && WF(u) && u == s.(tree := Prune(s.tree, c), deleteContext := u.deleteContext)
    && Gone(s.tree, c) && Keys(u.tree) == Keys(s.tree) - c
    && forall o :: o in s.pending ==> Needs(o) !in c
  }

  lemma SurvivorAt(tree: Forest, c: set<Key>, id: Id)
    requires IsDoc(tree) && Gone(tree, c) && Some(id) in Keys(tree) && Some(id) !in c
    ensures IsDoc(Prune(tree, c)) && Some(id) in Keys(Prune(tree, c)) && NodeAt(Prune(tree, c), id) == NodeAt(tree, id)
  {
    ClosedDoc(tree, c);
    WithoutMembers(Flat(tree), c);
    DocNodeBack(Prune(tree, c), id);
    DocNode(tree, NodeAt(Prune(tree, c), id));
  }

  /** An operation that needs nothing of `c` does the same to both trees. */
  lemma EffectPruned(tree: Forest, c: set<Key>, op: Op, ops: set<Op>)
    requires IsDoc(tree) && Ready(tree, op) && Gone(tree, c) && Built(tree, ops) && Needs(op) !in c && Some(op.id) !in c
    ensures IsDoc(Prune(tree, c)) && Ready(Prune(tree, c), op)
    ensures Effect(Prune(tree, c), op) == Prune(Effect(tree, op), c)
  {
    ClosedDoc(tree, c);
    match op
    case Insert(_, _, _, _, _) => PruneAttach(tree, NewNode(op), c, ops);
    case Delete(id, target) =>
      SurvivorAt(tree, c, target);
      PruneSetFlags(tree, Some(target), true, Some(MaxWins(NodeAt(tree, target).deletedBy, id)), c);
    case Undelete(id, target) =>
      SurvivorAt(tree, c, target);
      PruneSetFlags(tree, Some(target), false, None, c);
  }

  lemma GoneAfter(s: State, c: set<Key>, op: Op)
    requires WF(s) && Ready(s.tree, op) && op.id !in s.applied && Gone(s.tree, c) && Needs(op) !in c
    ensures Gone(Effect(s.tree, op), c)
  {
    hide Unique, Placed, Effect;
    EffectDoc(s, op);
    forall m | m in Flat(Effect(s.tree, op))
      ensures m.parent.Some? && m.parent in c ==> Some(m.id) in c
      ensures Some(m.id) in c ==> m.deleted
    {
      EffectNodes(s.tree, op, m);
      if op.Insert? && m == NewNode(op) {
        assert Some(op.id) !in Keys(s.tree);
      } else {
        var n :| n in Flat(s.tree) && m == Reflagged(n, op);
      }
    }
  }

  lemma CoreBuilt(s: State, p: set<Op>)
    requires Core(s, p)
    ensures Built(s.tree, AppliedOps(s, p))
  {
  }

  lemma NewNotGone(s: State, c: set<Key>, op: Op)
    requires WF(s) && Gone(s.tree, c) && op.id !in s.applied
    ensures Some(op.id) !in c
  {
  }

  lemma DoApplyTwin(s: State, u: State, c: set<Key>, op: Op, p: set<Op>)
    requires Twin(s, u, c) && Core(s, p) && Ready(s.tree, op) && op.id !in s.applied && Needs(op) !in c
    ensures Ready(u.tree, op) && Twin(DoApply(s, op), DoApply(u, op), c)
  {
    hide IsDoc, StackOk, Effect, EffectContext, Core, Gone, Ready, Built, Prune;
    CoreBuilt(s, p);
    NewNotGone(s, c, op);
    EffectPruned(s.tree, c, op, AppliedOps(s, p));
    GoneAfter(s, c, op);
    EffectDoc(s, op);
    EffectDoc(u, op);
  }

  lemma SpliceTwin(s: State, u: State, c: set<Key>, i: nat)
    requires Twin(s, u, c) && i < |s.pending|
    ensures Twin(s.(pending := SeqRemove(s.pending, i)), u.(pending := SeqRemove(u.pending, i)), c)
  {
    hide IsDoc, StackOk, Gone;
    RemoveMembers(s.pending, i);
  }

  lemma ReadyTwin(s: State, u: State, c: set<Key>, op: Op)
    requires Twin(s, u, c) && Needs(op) !in c
    ensures Ready(u.tree, op) <==> Ready(s.tree, op)
  {
    hide IsDoc, StackOk, Gone;
  }

  lemma DrainStepTwin(s: State, u: State, c: set<Key>, i: nat, p: set<Op>)
    requires Twin(s, u, c) && Core(s, p) && i < |s.pending|
    ensures Twin(DrainStep(s, i), DrainStep(u, i), c)
  {
    hide WF, Gone, Core, DoApply, Ready;
    var op := s.pending[i];
    assert op in s.pending;
    TwinWF(s, u, c);
    if op.id in s.applied {
      SpliceTwin(s, u, c, i);
    } else {
      ReadyTwin(s, u, c, op);
      if Ready(s.tree, op) {
        DoApplyTwin(s, u, c, op, p);
        SamePending(s, op);
        SamePending(u, op);
        SpliceTwin(DoApply(s, op), DoApply(u, op), c, i);
      }
    }
  }

  lemma SamePending(s: State, op: Op)
    requires WF(s) && Ready(s.tree, op) && op.id !in s.applied
    ensures DoApply(s, op).pending == s.pending
  {
  }

  lemma TwinWF(s: State, u: State, c: set<Key>)
    requires Twin(s, u, c)
    ensures WF(s) && WF(u) && u.pending == s.pending && u.applied == s.applied
  {
  }

  lemma {:induction false} DownToTwin(s: State, u: State, c: set<Key>, i: nat, p: set<Op>)
    requires WF(s) && WF(u) && Twin(s, u, c) && Core(s, p) && i <= |s.pending| == |u.pending|
    ensures Twin(DrainDownTo(s, i), DrainDownTo(u, i), c)
    decreases |s.pending| - i
  {
    hide DrainStep, WF, Twin, Core;
    if i < |s.pending| {
      DownToTwin(s, u, c, i + 1, p);
      DrainDownToCore(s, i + 1, p);
      DrainStepTwin(DrainDownTo(s, i + 1), DrainDownTo(u, i + 1), c, i, p);
    }
  }

  lemma {:induction false} DrainTwin(s: State, u: State, c: set<Key>, p: set<Op>)
    requires WF(s) && WF(u) && Twin(s, u, c) && Core(s, p)
    ensures Twin(Drain(s), Drain(u), c)
    decreases |s.pending|
  {
    hide DrainDownTo, WF, Twin, Core;
    TwinWF(s, u, c);
    DownToTwin(s, u, c, 0, p);
    DrainDownToCore(s, 0, p);
    var t, v := DrainDownTo(s, 0), DrainDownTo(u, 0);
    TwinWF(t, v, c);
    if |t.pending| < |s.pending| { DrainTwin(t, v, c, p); }
  }

  lemma ApplyTwin(s: State, u: State, c: set<Key>, op: Op, p: set<Op>)
    requires Twin(s, u, c) && Core(s, p) && Coherent(p + {op}) && (op.id in s.applied || Needs(op) !in c)
    ensures WF(s) && WF(u)
    ensures Twin(ApplyRemote(s, op, None).state, ApplyRemote(u, op, None).state, c)
  {
    hide WF, Gone, Core, DoApply, Drain, Ready, Coherent;
    TwinWF(s, u, c);
    if op.id !in s.applied {
      ReadyTwin(s, u, c, op);
      if Ready(s.tree, op) {
        DoApplyTwin(s, u, c, op, p);
        DoApplyCore(s, op, p);
        TwinWF(DoApply(s, op), DoApply(u, op), c);
        DrainTwin(DoApply(s, op), DoApply(u, op), c, p + {op});
      } else {
        BufferTwin(s, u, c, op);
      }
    }
  }

  lemma BufferTwin(s: State, u: State, c: set<Key>, op: Op)
    requires Twin(s, u, c) && Needs(op) !in c
    ensures Twin(s.(pending := s.pending + [op]), u.(pending := u.pending + [op]), c)
  {
    hide IsDoc, StackOk, Gone;
  }

  /** Nothing new that is delivered needs a node of `c`. */
  ghost predicate Spares(applied: set<Id>, q: seq<Op>, c: set<Key>) {
    forall o :: o in q && o.id !in applied ==> Needs(o) !in c
  }

  lemma {:induction false} DeliverTwin(s: State, u: State, c: set<Key>, p: set<Op>, q: seq<Op>)
    requires WF(s) && WF(u) && Twin(s, u, c) && Core(s, p) && Drained(s) && Coherent(p + SetOf(q))
    requires Spares(s.applied, q, c)
    ensures Twin(Deliver(s, q), Deliver(u, q), c)
    decreases |q|
  {
    hide WF, Twin, Core, Drained, Coherent, ApplyRemote;
    if q != [] {
      var init, op := q[..|q| - 1], q[|q| - 1];
      assert q == init + [op] && op in q;
      assert p + SetOf(q) == (p + SetOf(init)) + {op};
      CoherentSub(p + SetOf(q), p + SetOf(init));
      DeliverTwin(s, u, c, p, init);
      DeliverCore(s, p, init);
      MoreReceived(s, p, Deliver(s, init), p + SetOf(init));
      ApplyTwin(Deliver(s, init), Deliver(u, init), c, op, p + SetOf(init));
    }
  }

  // ------------------------------------------------------------------ an operation that needs a collected node

  /** `k` is gone for good, and `x`, which needs it, is not applied. */
  ghost predicate Barred(u: State, k: Id, x: Op) {
    && WF(u) && Some(k) !in Keys(u.tree) && k in u.applied && x.id !in u.applied && Needs(x) == Some(k)
    && forall o :: o in u.pending && o.id == x.id ==> o == x
  }

  lemma BarredApply(u: State, k: Id, x: Op, op: Op)
    requires Barred(u, k, x) && Ready(u.tree, op) && op.id !in u.applied && (op.id == x.id ==> op == x)
    ensures Barred(DoApply(u, op), k, x) && DoApply(u, op).pending == u.pending
  {
    hide IsDoc, StackOk, Effect;
    assert op != x;
    EffectDoc(u, op);
  }

  lemma BarredLess(u: State, k: Id, x: Op, q: seq<Op>)
    requires Barred(u, k, x) && forall o :: o in q ==> o in u.pending || o == x || o.id != x.id
    ensures Barred(u.(pending := q), k, x)
  {
    hide IsDoc, StackOk;
  }

  lemma BarredFacts(u: State, k: Id, x: Op)
    requires Barred(u, k, x)
    ensures WF(u) && x.id !in u.applied && forall o :: o in u.pending && o.id == x.id ==> o == x
  {
  }

  lemma BarredStep(u: State, k: Id, x: Op, i: nat)
    requires Barred(u, k, x) && i < |u.pending|
    ensures WF(u) && Barred(DrainStep(u, i), k, x)
  {
    hide Barred, WF, DoApply, Ready;
    BarredFacts(u, k, x);
    var op := u.pending[i];
    assert op in u.pending;
    RemoveMembers(u.pending, i);
    if op.id in u.applied {
      BarredLess(u, k, x, SeqRemove(u.pending, i));
    } else if Ready(u.tree, op) {
      BarredApply(u, k, x, op);
      BarredLess(DoApply(u, op), k, x, SeqRemove(u.pending, i));
    }
  }

  lemma {:induction false} BarredDownTo(u: State, k: Id, x: Op, i: nat)
    requires WF(u) && Barred(u, k, x) && i <= |u.pending|
    ensures Barred(DrainDownTo(u, i), k, x)
    decreases |u.pending| - i
  {
    hide Barred, WF, DrainStep;
    if i < |u.pending| {
      BarredDownTo(u, k, x, i + 1);
      BarredStep(DrainDownTo(u, i + 1), k, x, i);
    }
  }

  lemma {:induction false} BarredDrain(u: State, k: Id, x: Op)
    requires WF(u) && Barred(u, k, x)
    ensures Barred(Drain(u), k, x)
    decreases |u.pending|
  {
    hide Barred, WF, DrainDownTo;
    BarredDownTo(u, k, x, 0);
    var t := DrainDownTo(u, 0);
    if |t.pending| < |u.pending| { BarredDrain(t, k, x); }
  }

  lemma BarredRemote(u: State, k: Id, x: Op, op: Op)
    requires WF(u) && Barred(u, k, x) && (op.id == x.id ==> op == x)
    ensures Barred(ApplyRemote(u, op, None).state, k, x)
  {
    hide Barred, WF, Drain, DoApply, Ready;
    BarredFacts(u, k, x);
    if op.id !in u.applied {
      if Ready(u.tree, op) {
        BarredApply(u, k, x, op);
        BarredDrain(DoApply(u, op), k, x);
      } else {
        BarredLess(u, k, x, u.pending + [op]);
      }
    }
  }

  lemma {:induction false} BarredDeliver(u: State, k: Id, x: Op, q: seq<Op>)
    requires WF(u) && Barred(u, k, x) && forall o :: o in q && o.id == x.id ==> o == x
    ensures Barred(Deliver(u, q), k, x)
    decreases |q|
  {
    hide Barred, WF, ApplyRemote;
    if q != [] {
      var init, op := q[..|q| - 1], q[|q| - 1];
      assert op in q && forall o :: o in init ==> o in q;
      BarredDeliver(u, k, x, init);
      BarredRemote(Deliver(u, init), k, x, op);
    }
  }

  // ------------------------------------------------------------------ any deliveries

  lemma CollectedTwin(s: State, p: set<Op>, c: set<Key>)
    requires Core(s, p) && Drained(s) && Gone(s.tree, c)
    ensures Twin(s, Collected(s, c), c)
  {
    hide Unique, Placed, Matches, Coherent;
    ClosedDoc(s.tree, c);
    PruneKept(s, c);
  }

  lemma PruneKept(s: State, c: set<Key>)
    requires WF(s) && Gone(s.tree, c)
    ensures WF(Collected(s, c))
  {
    ClosedDoc(s.tree, c);
  }

  lemma SweepGone(s: State, frontier: nat, o: Options)
    requires WF(s)
    ensures Gone(s.tree, Sweep(Flat(s.tree), Candidates(s, frontier, o)))
  {
    hide Unique, Placed;
    var c := Sweep(Flat(s.tree), Candidates(s, frontier, o));
    SweepRemovable(s, frontier, o);
    NodesUnique(s.tree);
    SweepGreatest(Flat(s.tree), Candidates(s, frontier, o));
    forall n | n in Flat(s.tree) && Some(n.id) in c ensures n.deleted {
      assert Some(n.id) in Candidates(s, frontier, o);
    }
  }

  lemma TwinShows(s: State, u: State, c: set<Key>)
    requires Twin(s, u, c)
    ensures u.applied == s.applied && u.pending == s.pending
    ensures Flat(u.tree) == Without(Flat(s.tree), c) && Text(u.tree) == Text(s.tree)
  {
    hide Unique, Placed;
    ClosedDoc(s.tree, c);
    WithoutVisible(Flat(s.tree), c);
  }

  /** The twin that did not collect applies what needs a collected node; the other never does. */
  lemma NeedsCollected(s: State, p: set<Op>, c: set<Key>, q: seq<Op>, x: Op)
    requires Core(s, p) && Drained(s) && Coherent(p + SetOf(q)) && Gone(s.tree, c)
    requires x in q && x.id !in s.applied && Needs(x) in c
    ensures WF(s) && WF(Collected(s, c))
    ensures x.id in Deliver(s, q).applied && x.id !in Deliver(Collected(s, c), q).applied
  {
    hide WF, Matches, Drained, Deliver;
    CollectedTwin(s, p, c);
    TwinWF(s, Collected(s, c), c);
    DeliverCore(s, p, q);
    MoreReceived(s, p, Deliver(s, q), p + SetOf(q));
    CollectedInserted(s, p, c, x);
    AppliedIsLeastClosure(Deliver(s, q), p + SetOf(q));
    assert Supported(AppliedOps(Deliver(s, q), p + SetOf(q)), x);
    BarredStarts(s, p, c, q, x);
    BarredDeliver(Collected(s, c), Needs(x).value, x, q);
    BarredFacts(Deliver(Collected(s, c), q), Needs(x).value, x);
  }

  lemma CollectedInserted(s: State, p: set<Op>, c: set<Key>, x: Op)
    requires Core(s, p) && Gone(s.tree, c) && Needs(x) in c
    ensures Needs(x).Some? && Inserted(AppliedOps(s, p), Needs(x).value)
  {
    hide WF, Built, FlagsOk, Coherent;
  }

  lemma BarredStarts(s: State, p: set<Op>, c: set<Key>, q: seq<Op>, x: Op)
    requires Core(s, p) && Coherent(p + SetOf(q)) && Twin(s, Collected(s, c), c)
    requires x in q && x.id !in s.applied && Needs(x) in c
    ensures Needs(x).Some? && Barred(Collected(s, c), Needs(x).value, x)
  {
    hide IsDoc, StackOk, Built, FlagsOk;
    forall o | o in s.pending && o.id == x.id ensures o == x { assert o in p + SetOf(q) && x in p + SetOf(q); }
  }

  /**
   * Collecting is unseen: whatever is delivered afterwards, the replica that collected applies what it would have
   * applied otherwise, and shows the same text, in the same order without the collected nodes, exactly if nothing new
   * that is delivered needs a collected node.
   */
  lemma CollectingUnseenExactly(s: State, p: set<Op>, frontier: nat, o: Options, q: seq<Op>)
    requires Core(s, p) && Drained(s) && Coherent(p + SetOf(q))
    ensures WF(s) && WF(Collect(s, frontier, o))
    ensures
      var c := Sweep(Flat(s.tree), Candidates(s, frontier, o));
      var t, v := Deliver(s, q), Deliver(Collect(s, frontier, o), q);
      && (v.applied == t.applied <==> Spares(s.applied, q, c))
      && (Spares(s.applied, q, c) ==>
            v.pending == t.pending && Text(v.tree) == Text(t.tree) && Flat(v.tree) == Without(Flat(t.tree), c))
  {
    hide Core, WF, Gone, Twin, Drained, Coherent, Deliver, Candidates;
    var c := Sweep(Flat(s.tree), Candidates(s, frontier, o));
    CoreWF(s, p);
    SweepGone(s, frontier, o);
    CollectedTwin(s, p, c);
    var u := Collected(s, c);
    TwinWF(s, u, c);
    if Spares(s.applied, q, c) {
      DeliverTwin(s, u, c, p, q);
      TwinShows(Deliver(s, q), Deliver(u, q), c);
    } else {
      var x :| x in q && x.id !in s.applied && Needs(x) in c;
      NeedsCollected(s, p, c, q, x);
    }
  }

  lemma CoreWF(s: State, p: set<Op>)
    requires Core(s, p)
    ensures WF(s)
  {
  }
}
