/**
 * Delivery order and the deletion flags.  Inserts and deletes commute; an undelete need not commute
 * with a smaller delete.  This module says exactly when the order is immaterial.
 */
module FlagOrder {
  import opened Identifiers
  import opened Operations
  import opened FugueShape
  import opened EngineState
  import opened Collection
  import opened OpSets
  import opened Replica
  import opened Convergence

  /** With nothing to discard or apply, draining changes nothing. */
  lemma DrainNothing(s: State)
    requires WF(s) && Drained(s)
    ensures Drain(s) == s
  {
    SweepNothing(s, 0);
  }

  lemma {:induction false} SweepNothing(s: State, i: nat)
    requires WF(s) && Drained(s) && i <= |s.pending|
    ensures DrainDownTo(s, i) == s
    decreases |s.pending| - i
  {
    if i < |s.pending| {
      SweepNothing(s, i + 1);
      assert s.pending[i] in s.pending;
    }
  }

  /** A flag operation on a node that is there takes effect at once, on that node's flags only. */
  lemma DeliverFlag(s: State, op: Op)
    requires WF(s) && Drained(s) && !op.Insert? && Ready(s.tree, op) && op.id !in s.applied
    requires forall o :: o in s.pending ==> o.id != op.id
    ensures
      var t := ApplyRemote(s, op, None).state;
      && Drained(t) && t.pending == s.pending && t.applied == s.applied + {op.id} && Keys(t.tree) == Keys(s.tree)
      && NodeAt(t.tree, op.target) == Reflagged(NodeAt(s.tree, op.target), op)
  {
    EffectDoc(s, op);
    var u := DoApply(s, op);
    forall o | o in u.pending ensures o.id !in u.applied && !Ready(u.tree, o) { assert o in s.pending; }
    DrainNothing(u);
    EffectFlagsAt(s.tree, op);
  }

  lemma EffectFlagsAt(tree: Forest, op: Op)
    requires IsDoc(tree) && !op.Insert? && Ready(tree, op)
    ensures IsDoc(Effect(tree, op)) && Some(op.target) in Keys(Effect(tree, op))
    ensures NodeAt(Effect(tree, op), op.target) == Reflagged(NodeAt(tree, op.target), op)
  {
    var n := NodeAt(tree, op.target);
    if op.Delete? {
      SetFlagsDoc(tree, Some(op.target), true, Some(MaxWins(n.deletedBy, op.id)));
      FindSetFlags(tree, Some(op.target), true, Some(MaxWins(n.deletedBy, op.id)), Some(op.target));
    } else {
      SetFlagsDoc(tree, Some(op.target), false, None);
      FindSetFlags(tree, Some(op.target), false, None, Some(op.target));
    }
    DocFind(tree, Some(op.target));
  }

  // ------------------------------------------------------------------ two orders that differ

  function Omit(q: seq<Op>, a: Op, b: Op): seq<Op> {
    if q == [] then [] else (if q[0] == a || q[0] == b then [] else [q[0]]) + Omit(q[1..], a, b)
  }

  lemma {:induction false} OmitSet(q: seq<Op>, a: Op, b: Op)
    ensures SetOf(Omit(q, a, b)) == SetOf(q) - {a, b}
  {
    if q != [] {
      OmitSet(q[1..], a, b);
      assert SetOf(q) == {q[0]} + SetOf(q[1..]) by { assert q == [q[0]] + q[1..]; }
      SetOfMoreFront(if q[0] == a || q[0] == b then [] else [q[0]], Omit(q[1..], a, b));
    } else {
      assert SetOf(q) == {};
    }
  }

  lemma SetOfMoreFront(q: seq<Op>, w: seq<Op>)
    ensures SetOf(q + w) == SetOf(q) + SetOf(w)
  {
    assert forall o :: o in q + w <==> o in q || o in w;
  }

  lemma DeliverTwo(s: State, q: seq<Op>, a: Op, b: Op)
    requires WF(s)
    ensures Deliver(s, q + [a, b])
         == ApplyRemote(ApplyRemote(Deliver(s, q), a, None).state, b, None).state
  {
    hide ApplyRemote, WF;
    assert (q + [a, b])[..|q| + 1] == q + [a];
    assert (q + [a])[..|q|] == q;
  }

  /** The state before a greatest delete `d` of a node and an undelete `u` of it by the same replica. */
  ghost predicate Unsettled(s: State, p: set<Op>, d: Op, u: Op) {
    && Core(s, p) && Drained(s) && Coherent(p + {d, u}) && d !in p && u !in p
    && d.Delete? && u.Undelete? && d.target == u.target && d.id.r == u.id.r
    && forall o :: o in p && o.Delete? && o.target == d.target ==> Precedes(o.id, d.id)
  }

  lemma NewHere(s: State, p: set<Op>, o: Op)
    requires Core(s, p) && Coherent(p + {o}) && o !in p
    ensures o.id !in s.applied && forall b :: b in s.pending ==> b.id != o.id
  {
    assert o.id in s.applied ==> Named(AppliedOps(s, p), o.id);
  }

  /** What matters of an unsettled state: both operations are new and the delete outranks the attribution. */
  ghost predicate Duel(s: State, d: Op, u: Op) {
    && WF(s) && Drained(s) && d.Delete? && u.Undelete? && d.target == u.target && d.id.r == u.id.r && d.id != u.id
    && Ready(s.tree, d) && d.id !in s.applied && u.id !in s.applied
    && (forall o :: o in s.pending ==> o.id != d.id && o.id != u.id)
    && MaxWins(NodeAt(s.tree, d.target).deletedBy, d.id) == d.id
  }

  lemma UnsettledDuel(s: State, p: set<Op>, d: Op, u: Op)
    requires Unsettled(s, p, d, u) && Ready(s.tree, d)
    ensures Duel(s, d, u)
  {
    CoherentSub(p + {d, u}, p + {d});
    CoherentSub(p + {d, u}, p + {u});
    NewHere(s, p, d);
    NewHere(s, p, u);
    assert d in p + {d, u} && u in p + {d, u};
    DocNodeBack(s.tree, d.target);
    assert FlagOk(NodeAt(s.tree, d.target), AppliedOps(s, p));
  }

  /** Delete then undelete: the node ends live. */
  lemma EndsLive(s: State, d: Op, u: Op)
    requires Duel(s, d, u)
    ensures
      var t := ApplyRemote(ApplyRemote(s, d, None).state, u, None).state;
      Some(d.target) in Keys(t.tree) && NodeAt(t.tree, d.target).deletedBy == None
  {
    DeliverFlag(s, d);
    DeliverFlag(ApplyRemote(s, d, None).state, u);
  }

  /** Undelete then delete: the node ends deleted. */
  lemma EndsDeleted(s: State, d: Op, u: Op)
    requires Duel(s, d, u)
    ensures
      var t := ApplyRemote(ApplyRemote(s, u, None).state, d, None).state;
      Some(d.target) in Keys(t.tree) && NodeAt(t.tree, d.target).deletedBy == Some(d.id)
  {
    DeliverFlag(s, u);
    DeliverFlag(ApplyRemote(s, u, None).state, d);
  }

  /** A delete whose target never arrived stays in the buffer, and so does its undelete. */
  lemma NeverArrived(s: State, p: set<Op>, d: Op, u: Op)
    requires Unsettled(s, p, d, u) && !Ready(s.tree, d)
    ensures d.id !in ApplyRemote(ApplyRemote(s, d, None).state, u, None).state.applied
  {
    CoherentSub(p + {d, u}, p + {d});
    CoherentSub(p + {d, u}, p + {u});
    NewHere(s, p, d);
    NewHere(s, p, u);
  }

  lemma OrdersDiffer(s: State, p: set<Op>, d: Op, u: Op)
    requires Unsettled(s, p, d, u) && Ready(s.tree, d)
    ensures ApplyRemote(ApplyRemote(s, d, None).state, u, None).state.tree
         != ApplyRemote(ApplyRemote(s, u, None).state, d, None).state.tree
  {
    UnsettledDuel(s, p, d, u);
    EndsLive(s, d, u);
    EndsDeleted(s, d, u);
  }

  /** `d` is the greatest of the deletes of its node in `q`, and `u` an undelete by the same replica. */
  ghost predicate Pair(q: seq<Op>, d: Op, u: Op) {
    && Coherent(SetOf(q)) && d in q && u in q && d.Delete? && u.Undelete?
    && d.target == u.target && d.id.r == u.id.r
    && forall o :: o in q && o.Delete? && o.target == d.target && o != d ==> Precedes(o.id, d.id)
  }

  /** The state after everything but `d` and `u`. */
  lemma AllButTwo(r: nat, q: seq<Op>, d: Op, u: Op)
    requires Pair(q, d, u)
    ensures Unsettled(Deliver(Fresh(r), Omit(q, d, u)), SetOf(q) - {d, u}, d, u)
  {
    var e := Omit(q, d, u);
    OmitSet(q, d, u);
    var p := SetOf(q) - {d, u};
    assert p + {d, u} == SetOf(q) && {} + p == p;
    CoherentSub(SetOf(q), p);
    FreshCore(r);
    DeliverCore(Fresh(r), {}, e);
  }

  lemma SetOfTwo(q: seq<Op>, e: seq<Op>, d: Op, u: Op)
    requires d in q && u in q && SetOf(e) == SetOf(q) - {d, u}
    ensures SetOf(e + [d, u]) == SetOf(q) && SetOf(e + [u, d]) == SetOf(q)
  {
    SetOfMoreFront(e, [d, u]);
    SetOfMoreFront(e, [u, d]);
  }

  lemma SameApplied(r: nat, q: seq<Op>, w: seq<Op>)
    requires Coherent(SetOf(q)) && SetOf(w) == SetOf(q)
    ensures Deliver(Fresh(r), q).applied == Deliver(Fresh(r), w).applied
  {
    DeliveryOrderIrrelevant(r, q, r, w);
  }

  lemma HeldBack(r: nat, q: seq<Op>, d: Op, u: Op)
    requires Pair(q, d, u)
    ensures !Ready(Deliver(Fresh(r), Omit(q, d, u)).tree, d) ==>
              d.id !in Deliver(Fresh(r), Omit(q, d, u) + [d, u]).applied
  {
    AllButTwo(r, q, d, u);
    DeliverTwo(Fresh(r), Omit(q, d, u), d, u);
    if !Ready(Deliver(Fresh(r), Omit(q, d, u)).tree, d) {
      NeverArrived(Deliver(Fresh(r), Omit(q, d, u)), SetOf(q) - {d, u}, d, u);
    }
  }

  lemma TargetPresent(r: nat, q: seq<Op>, d: Op, u: Op)
    requires Pair(q, d, u) && d.id in Deliver(Fresh(r), q).applied
    ensures Ready(Deliver(Fresh(r), Omit(q, d, u)).tree, d)
  {
    HeldBack(r, q, d, u);
    OmitSet(q, d, u);
    SetOfTwo(q, Omit(q, d, u), d, u);
    SameApplied(r, q, Omit(q, d, u) + [d, u]);
  }

  lemma DifferAfter(r: nat, q: seq<Op>, d: Op, u: Op)
    requires Pair(q, d, u) && Ready(Deliver(Fresh(r), Omit(q, d, u)).tree, d)
    ensures Deliver(Fresh(r), Omit(q, d, u) + [d, u]).tree != Deliver(Fresh(r), Omit(q, d, u) + [u, d]).tree
  {
    AllButTwo(r, q, d, u);
    OrdersDiffer(Deliver(Fresh(r), Omit(q, d, u)), SetOf(q) - {d, u}, d, u);
    DeliverTwo(Fresh(r), Omit(q, d, u), d, u);
    DeliverTwo(Fresh(r), Omit(q, d, u), u, d);
  }

  /** Everything but `d` and `u`, then these two in one order or the other. */
  lemma TwoOrders(r: nat, q: seq<Op>, d: Op, u: Op) returns (w1: seq<Op>, w2: seq<Op>)
    requires Pair(q, d, u) && d.id in Deliver(Fresh(r), q).applied
    ensures SetOf(w1) == SetOf(q) && SetOf(w2) == SetOf(q)
    ensures Deliver(Fresh(r), w1).tree != Deliver(Fresh(r), w2).tree
  {
    w1, w2 := Omit(q, d, u) + [d, u], Omit(q, d, u) + [u, d];
    OmitSet(q, d, u);
    SetOfTwo(q, Omit(q, d, u), d, u);
    TargetPresent(r, q, d, u);
    DifferAfter(r, q, d, u);
  }

  /** A set is unsettled just when it holds such a pair. */
  lemma UnsettledPair(ops: set<Op>) returns (d: Op, u: Op)
    requires !Settled(ops)
    ensures d in ops && u in ops && d.Delete? && u.Undelete? && d.target == u.target && d.id.r == u.id.r
    ensures forall o :: o in ops && o.Delete? && o.target == d.target && o.id != d.id ==> Precedes(o.id, d.id)
  {
    var x, m :| Greatest(m, DeletesOf(ops, x)) && UndoneBy(ops, x, m.r);
    d :| d in ops && d.Delete? && d.target == x && d.id == m;
    u :| u in ops && u.Undelete? && u.target == x && u.id.r == m.r;
    forall o | o in ops && o.Delete? && o.target == x && o.id != m ensures Precedes(o.id, m) {
      assert o.id in DeletesOf(ops, x);
    }
  }

  /** Any delete of a node that is there was applied. */
  lemma DeletesApplied(s: State, p: set<Op>, d: Op)
    requires Core(s, p) && Drained(s) && d in AppliedOps(s, p) && d.Delete?
    ensures forall o :: o in p && o.Delete? && o.target == d.target ==> o in AppliedOps(s, p)
  {
    assert Needs(d) in Keys(s.tree);
    assert forall o :: o in p && o.Delete? && o.target == d.target ==> Ready(s.tree, o);
  }

  /**
   * Exactly when the order of delivery is immaterial: no order and repetition of the same operations
   * gives another tree if and only if, in their least causally closed part, no greatest delete of a node
   * comes from a replica that also undeleted the node.
   */
  lemma OrderImmaterialJustWhenSettled(r: nat, q: seq<Op>)
    requires Coherent(SetOf(q))
    ensures (forall w :: SetOf(w) == SetOf(q) ==> Deliver(Fresh(r), w).tree == Deliver(Fresh(r), q).tree)
       <==> Settled(Closure(SetOf(q)))
  {
    var p, s := SetOf(q), Deliver(Fresh(r), q);
    FreshCore(r);
    assert {} + p == p;
    DeliverCore(Fresh(r), {}, q);
    AppliedIsLeastClosure(s, p);
    forall w | SetOf(w) == p && Settled(Closure(p)) ensures Deliver(Fresh(r), w).tree == s.tree {
      DeliveryOrderIrrelevant(r, q, r, w);
    }
    if !Settled(Closure(p)) {
      var d, u := UnsettledPair(Closure(p));
      DeletesApplied(s, p, d);
      var w1, w2 := TwoOrders(r, q, d, u);
      assert Deliver(Fresh(r), w1).tree != s.tree || Deliver(Fresh(r), w2).tree != s.tree;
    }
  }

  // ------------------------------------------------------------------ a smallest example

  lemma OneInsert(r: nat, ins: Op)
    requires ins.Insert? && ins.parent == None
    ensures
      var s := Deliver(Fresh(r), [ins]);
      && Drained(s) && s.pending == [] && s.applied == {ins.id} && Some(ins.id) in Keys(s.tree)
      && NodeAt(s.tree, ins.id) == NewNode(ins)
  {
    var u := DoApply(Fresh(r), ins);
    assert [ins][..0] == [];
    FindNew(EmptyDoc, NewNode(ins));
    AttachDoc(EmptyDoc, NewNode(ins));
    DrainNothing(u);
  }

  /** Two flag operations in a row on one node. */
  lemma TwoFlags(s: State, a: Op, b: Op)
    requires WF(s) && s.pending == [] && !a.Insert? && !b.Insert? && a.target == b.target && a.id != b.id
    requires Ready(s.tree, a) && a.id !in s.applied && b.id !in s.applied
    ensures
      var t := ApplyRemote(ApplyRemote(s, a, None).state, b, None).state;
      && Some(a.target) in Keys(t.tree)
      && NodeAt(t.tree, a.target) == Reflagged(Reflagged(NodeAt(s.tree, a.target), a), b)
  {
    DeliverFlag(s, a);
    DeliverFlag(ApplyRemote(s, a, None).state, b);
  }

  lemma DeliverSingle(s: State, op: Op)
    requires WF(s)
    ensures Deliver(s, [op]) == ApplyRemote(s, op, None).state
  {
    hide ApplyRemote;
    assert [op][..0] == [];
    assert Deliver(s, []) == s;
  }

  lemma ThreeFlags(s: State, d: Op, a: Op, b: Op)
    requires WF(s) && s.pending == [] && d.Delete? && !a.Insert? && !b.Insert? && a.target == b.target == d.target
    requires a.id != d.id && b.id != d.id && a.id != b.id && Ready(s.tree, d)
    requires d.id !in s.applied && a.id !in s.applied && b.id !in s.applied
    ensures
      var t := Deliver(s, [d] + [a, b]);
      && Some(d.target) in Keys(t.tree)
      && NodeAt(t.tree, d.target) == Reflagged(Reflagged(Reflagged(NodeAt(s.tree, d.target), d), a), b)
  {
    hide ApplyRemote, Reflagged, Deliver, MaxWins;
    DeliverSingle(s, d);
    DeliverFlag(s, d);
    TwoFlags(Deliver(s, [d]), a, b);
    DeliverTwo(s, [d], a, b);
  }

  lemma {:induction false} DeliverMore(s: State, q: seq<Op>, w: seq<Op>)
    requires WF(s)
    ensures Deliver(s, q + w) == Deliver(Deliver(s, q), w)
    decreases |w|
  {
    if w == [] {
      assert q + w == q;
    } else {
      assert (q + w)[..|q + w| - 1] == q + w[..|w| - 1];
      DeliverMore(s, q, w[..|w| - 1]);
    }
  }

  /** A replica's undelete and a delete smaller than its own, of the same visible node, do not commute. */
  lemma UndeleteNeedNotCommute(s: State, d1: Op, d2: Op, u: Op)
    requires WF(s) && s.pending == [] && d1.Delete? && d2.Delete? && u.Undelete? && d1.target == d2.target == u.target
    requires Ready(s.tree, d1) && NodeAt(s.tree, d1.target).deletedBy == None
    requires d1.id.r == u.id.r && d1.id != u.id && d2.id != u.id && Precedes(d2.id, d1.id)
    requires d1.id !in s.applied && d2.id !in s.applied && u.id !in s.applied
    ensures Ready(Deliver(s, [d1] + [d2, u]).tree, d1) && !NodeAt(Deliver(s, [d1] + [d2, u]).tree, d1.target).deleted
    ensures Ready(Deliver(s, [d1] + [u, d2]).tree, d1) && NodeAt(Deliver(s, [d1] + [u, d2]).tree, d1.target).deleted
  {
    DocNodeBack(s.tree, d1.target);
    ThreeFlags(s, d1, d2, u);
    ThreeFlags(s, d1, u, d2);
  }

  lemma FourOps(ins: Op, d1: Op, d2: Op, u: Op)
    requires ins.Insert? && d1.Delete? && d2.Delete? && u.Undelete?
    requires ins.id !in {d1.id, d2.id, u.id} && d1.id != u.id && d2.id != u.id && d1.id != d2.id
    ensures Coherent(SetOf([ins, d1, d2, u])) && SetOf([ins, d1, d2, u]) == SetOf([ins, d1, u, d2])
  {
    assert forall o :: o in [ins, d1, d2, u] <==> o in [ins, d1, u, d2];
  }

  /**
   * A failing input, at any replica: a character, its deletion, then a smaller deletion and an undelete
   * by the first deleter.  Delivered in the one order the character shows, in the other it does not.
   */
  lemma FourInTwoOrders(r: nat, ins: Op, d1: Op, d2: Op, u: Op)
    requires ins.Insert? && ins.parent == None && d1 == Delete(d1.id, ins.id) && d2 == Delete(d2.id, ins.id)
    requires u == Undelete(u.id, ins.id) && d1.id.r == u.id.r && Precedes(d2.id, d1.id)
    requires ins.id !in {d1.id, d2.id, u.id} && d1.id != u.id && d2.id != u.id
    ensures Coherent(SetOf([ins, d1, d2, u])) && SetOf([ins, d1, d2, u]) == SetOf([ins, d1, u, d2])
    ensures
      var s, t := Deliver(Fresh(r), [ins, d1, d2, u]), Deliver(Fresh(r), [ins, d1, u, d2]);
      && Some(ins.id) in Keys(s.tree) && !NodeAt(s.tree, ins.id).deleted
      && Some(ins.id) in Keys(t.tree) && NodeAt(t.tree, ins.id).deleted
  {
    hide Deliver, Drained, WF, IsDoc, NodeAt, SetOf, Coherent;
    FourOps(ins, d1, d2, u);
    OneInsert(r, ins);
    UndeleteNeedNotCommute(Deliver(Fresh(r), [ins]), d1, d2, u);
    DeliverMore(Fresh(r), [ins], [d1] + [d2, u]);
    DeliverMore(Fresh(r), [ins], [d1] + [u, d2]);
    assert [ins] + ([d1] + [d2, u]) == [ins, d1, d2, u];
    assert [ins] + ([d1] + [u, d2]) == [ins, d1, u, d2];
  }
}
