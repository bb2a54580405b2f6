/** What a drained replica holds depends only on the set of operations it received. */
module Convergence {
  import opened Identifiers
  import opened Operations
  import opened FugueShape
  import opened EngineState
  import opened OpSets
  import opened Replica

  /** What `op` needs is the root or inserted by `x`. */
  ghost predicate Supported(x: set<Op>, op: Op) {
    Needs(op) == None || Inserted(x, Needs(op).value)
  }

  /** `x` holds every operation of `p` whose need it supports. */
  ghost predicate CausallyClosed(p: set<Op>, x: set<Op>) {
    x <= p && forall o :: o in p && Supported(x, o) ==> o in x
  }

  ghost predicate InEveryClosed(p: set<Op>, op: Op) {
    forall x :: CausallyClosed(p, x) ==> op in x
  }

  /** The least causally closed part: what can be built from the root with the operations alone. */
  ghost function Closure(p: set<Op>): set<Op> {
    set o | o in p && InEveryClosed(p, o)
  }

  lemma {:induction false} KeysSupported(f: Forest, k: Key, s: Side, a: set<Op>, p: set<Op>, x: set<Op>)
    requires Placed(f, k, s) && Built(f, a) && a <= p && CausallyClosed(p, x) && (k == None || Inserted(x, k.value))
    ensures forall j :: j in Keys(f) ==> j.Some? && Inserted(x, j.value)
  {
    if f.Trees? {
      var o := f.top.value.Origin();
      assert o in p && Supported(x, o);
      assert Inserted(x, o.id);
      KeysSupported(f.left, f.TopKey(), L, a, p, x);
      KeysSupported(f.right, f.TopKey(), R, a, p, x);
      KeysSupported(f.rest, k, s, a, p, x);
    }
  }

  /** A drained replica has applied exactly the least causally closed part of what it received. */
  lemma AppliedIsLeastClosure(s: State, p: set<Op>)
    requires Core(s, p) && Drained(s)
    ensures CausallyClosed(p, AppliedOps(s, p))
    ensures forall x :: CausallyClosed(p, x) ==> AppliedOps(s, p) <= x
    ensures AppliedOps(s, p) == Closure(p)
  {
    var a := AppliedOps(s, p);
    forall x | CausallyClosed(p, x) ensures a <= x {
      KeysSupported(s.tree.left, None, L, a, p, x);
      KeysSupported(s.tree.right, None, R, a, p, x);
      forall o | o in a ensures o in x {
        assert Needs(o) in Keys(s.tree);
        assert Supported(x, o);
      }
    }
    forall o | o in p && Supported(a, o) ensures o in a { assert Ready(s.tree, o); }
  }

  /** A drained replica that received more has applied at least as much. */
  lemma MoreReceived(s: State, p: set<Op>, t: State, q: set<Op>)
    requires Core(s, p) && Drained(s) && Core(t, q) && Drained(t) && p <= q
    ensures AppliedOps(s, p) <= AppliedOps(t, q) && s.applied <= t.applied
  {
    hide WF, Matches, Coherent;
    var y := AppliedOps(t, q);
    AppliedIsLeastClosure(s, p);
    AppliedIsLeastClosure(t, q);
    forall o | o in p && Supported(p * y, o) ensures o in p * y {
      assert Supported(y, o);
    }
    assert CausallyClosed(p, p * y);
    forall id | id in s.applied ensures id in t.applied {
      assert Named(AppliedOps(s, p), id);
    }
  }

  /** The order and the immutable part of every node; with settled deletions, every node. */
  lemma TreesAgree(d: Forest, e: Forest, ops: set<Op>)
    requires IsDoc(d) && IsDoc(e) && Matches(d, ops) && Matches(e, ops)
    ensures SameShape(d, e) && Origins(Flat(d)) == Origins(Flat(e))
    ensures Settled(ops) ==> d == e
  {
    DocsSame(d, e, ops);
    SameShapeOrder(d, e);
    if Settled(ops) {
      forall n, m | n in Flat(d) && m in Flat(e) && n.id == m.id
        ensures n.deletedBy == m.deletedBy && n.deleted == m.deleted
      {
        FlagsDetermined(n, m, ops);
      }
      SameShapeSameFlags(d, e);
    }
  }

  /**
   * Two drained replicas that received the same operations: the same applied, the same waiting,
   * the same nodes in the same order and, when the deletions are settled, the same flags.
   */
  lemma SameReceivedSameDocument(s: State, t: State, p: set<Op>)
    requires Core(s, p) && Drained(s) && Core(t, p) && Drained(t)
    ensures s.applied == t.applied
    ensures forall o :: o in s.pending <==> o in t.pending
    ensures Origins(Flat(s.tree)) == Origins(Flat(t.tree))
    ensures Settled(Closure(p)) ==> s.tree == t.tree
  {
    AppliedIsLeastClosure(s, p);
    AppliedIsLeastClosure(t, p);
    assert AppliedOps(s, p) == AppliedOps(t, p);
    forall id ensures id in s.applied <==> id in t.applied {
      assert Named(AppliedOps(s, p), id) <==> Named(AppliedOps(t, p), id);
      assert id in s.applied ==> Named(AppliedOps(s, p), id);
      assert id in t.applied ==> Named(AppliedOps(t, p), id);
    }
    TreesAgree(s.tree, t.tree, AppliedOps(s, p));
  }

  // ------------------------------------------------------------------ any delivery order

  function Deliver(s: State, q: seq<Op>): (s': State)
    requires WF(s)
    ensures WF(s')
  {
    if q == [] then s else ApplyRemote(Deliver(s, q[..|q| - 1]), q[|q| - 1], None).state
  }

  ghost function SetOf(q: seq<Op>): set<Op> {
    set o | o in q
  }

  lemma CoherentSub(p: set<Op>, x: set<Op>)
    requires Coherent(p) && x <= p
    ensures Coherent(x)
  {
  }

  lemma {:induction false} DeliverCore(s: State, p: set<Op>, q: seq<Op>)
    requires Core(s, p) && Drained(s) && Coherent(p + SetOf(q))
    ensures Core(Deliver(s, q), p + SetOf(q)) && Drained(Deliver(s, q))
  {
    if q == [] {
      assert p + SetOf(q) == p;
    } else {
      var init, op := q[..|q| - 1], q[|q| - 1];
      assert q == init + [op];
      assert p + SetOf(q) == (p + SetOf(init)) + {op};
      CoherentSub(p + SetOf(q), p + SetOf(init));
      DeliverCore(s, p, init);
      ApplyRemoteCore(Deliver(s, init), op, None, p + SetOf(init));
    }
  }

  /**
   * Any operations with distinct identifiers and sibling ranks, delivered in any two orders with
   * any repetitions, leave two replicas with the same applied set and the same document order.
   */
  lemma DeliveryOrderIrrelevant(r1: nat, q1: seq<Op>, r2: nat, q2: seq<Op>)
    requires SetOf(q1) == SetOf(q2) && Coherent(SetOf(q1))
    ensures
      var s, t := Deliver(Fresh(r1), q1), Deliver(Fresh(r2), q2);
      && s.applied == t.applied && (forall o :: o in s.pending <==> o in t.pending)
      && Origins(Flat(s.tree)) == Origins(Flat(t.tree))
      && (Settled(Closure(SetOf(q1))) ==> s.tree == t.tree)
  {
    FreshCore(r1);
    FreshCore(r2);
    assert {} + SetOf(q1) == SetOf(q1) && {} + SetOf(q2) == SetOf(q2);
    DeliverCore(Fresh(r1), {}, q1);
    DeliverCore(Fresh(r2), {}, q2);
    SameReceivedSameDocument(Deliver(Fresh(r1), q1), Deliver(Fresh(r2), q2), SetOf(q1));
  }
}
