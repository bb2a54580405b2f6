/**
 * Delivery in order: what an operation needs comes before it, and each replica's deletes and undeletes of
 * a node come in the order it made them.  Then far more sets of operations have one outcome, and this
 * module says exactly which.
 */
module InOrder {
  import opened Identifiers
  import opened Operations
  import opened FugueShape
  import opened EngineState
  import opened Collection
  import opened OpSets
  import opened Replica
  import opened Convergence
  import opened FlagOrder

  // ------------------------------------------------------------------ flags under order

  /** Two flag operations on one node by one replica. */
  predicate SameStream(a: Op, b: Op) {
    !a.Insert? && !b.Insert? && a.target == b.target && a.id.r == b.id.r
  }

  /** Everything in `a` of the stream of `op` was made before it. */
  ghost predicate Follows(a: set<Op>, op: Op) {
    forall o :: o in a && SameStream(o, op) ==> o.id.c < op.id.c
  }

  /** The replica that made `d` has undeleted the node since. */
  ghost predicate TakenBack(a: set<Op>, x: Id, d: Id) {
    exists u :: u in a && u.Undelete? && u.target == x && u.id.r == d.r && u.id.c > d.c
  }

  /** If the greatest delete of a node was taken back, all were. */
  ghost predicate TakenBackTogether(a: set<Op>) {
    forall x, m, d :: Greatest(m, DeletesOf(a, x)) && d in DeletesOf(a, x) && TakenBack(a, x, m) ==> TakenBack(a, x, d)
  }

  /** A node's attribution stands: nobody took it back, and the greatest delete is it unless taken back. */
  ghost predicate Standing(n: Node, a: set<Op>) {
    && (n.deletedBy.Some? ==> n.deletedBy.value in DeletesOf(a, n.id) && !TakenBack(a, n.id, n.deletedBy.value))
    && forall m :: Greatest(m, DeletesOf(a, n.id)) && !TakenBack(a, n.id, m) ==> n.deletedBy == Some(m)
  }

  ghost predicate AllStanding(d: Forest, a: set<Op>) {
    forall n :: n in Flat(d) ==> Standing(n, a)
  }

  /** Then the flags of a node are a function of the operations. */
  lemma StandingDetermined(n: Node, m: Node, a: set<Op>)
    requires Standing(n, a) && Standing(m, a) && n.id == m.id && TakenBackTogether(a)
    ensures n.deletedBy == m.deletedBy
  {
    if DeletesOf(a, n.id) != {} {
      var g := GreatestExists(DeletesOf(a, n.id));
      assert Greatest(g, DeletesOf(a, n.id));
    }
  }

  /** Nodes deleted by one replica each never disagree. */
  lemma OneDeleterEach(a: set<Op>)
    requires forall d, e :: d in a && e in a && d.Delete? && e.Delete? && d.target == e.target ==> d.id.r == e.id.r
    ensures TakenBackTogether(a)
  {
    forall x, m, d | Greatest(m, DeletesOf(a, x)) && d in DeletesOf(a, x) && TakenBack(a, x, m)
      ensures TakenBack(a, x, d)
    {
      var u :| u in a && u.Undelete? && u.target == x && u.id.r == m.r && u.id.c > m.c;
      assert m == d || Precedes(d, m);
    }
  }

  lemma TakenBackMore(a: set<Op>, op: Op, x: Id, d: Id)
    ensures TakenBack(a + {op}, x, d)
       <==> TakenBack(a, x, d) || (op.Undelete? && op.target == x && op.id.r == d.r && op.id.c > d.c)
  {
  }

  lemma DeletesMore(a: set<Op>, op: Op, x: Id)
    ensures DeletesOf(a + {op}, x) == DeletesOf(a, x) + if op.Delete? && op.target == x then {op.id} else {}
  {
  }

  /** A deletion in order is new to its node and not taken back. */
  lemma DeleteStands(n: Node, op: Op, a: set<Op>)
    requires Standing(n, a) && Follows(a, op) && op.Delete? && op.target == n.id && op.id !in DeletesOf(a, n.id)
    ensures Standing(Reflagged(n, op), a + {op})
  {
    var a', x, t := a + {op}, n.id, Reflagged(n, op);
    DeletesMore(a, op, x);
    forall d ensures TakenBack(a', x, d) <==> TakenBack(a, x, d) { TakenBackMore(a, op, x, d); }
    assert !TakenBack(a, x, op.id);
    forall m | Greatest(m, DeletesOf(a', x)) && !TakenBack(a', x, m) ensures t.deletedBy == Some(m) {
      if m == op.id {
        assert n.deletedBy.Some? ==> n.deletedBy.value in DeletesOf(a', x);
      } else {
        assert Greatest(m, DeletesOf(a, x));
        assert op.id in DeletesOf(a', x);
      }
    }
  }

  lemma UndeleteStands(n: Node, op: Op, a: set<Op>)
    requires Standing(n, a) && Follows(a, op) && op.Undelete? && op.target == n.id
    ensures Standing(Reflagged(n, op), a + {op})
  {
    var a', x, t := a + {op}, n.id, Reflagged(n, op);
    DeletesMore(a, op, x);
    forall d ensures TakenBack(a', x, d) <==> TakenBack(a, x, d) || (op.id.r == d.r && op.id.c > d.c) {
      TakenBackMore(a, op, x, d);
    }
    forall m | Greatest(m, DeletesOf(a', x)) && !TakenBack(a', x, m) ensures t.deletedBy == Some(m) {
      assert Greatest(m, DeletesOf(a, x));
      var d :| d in a && d.Delete? && d.target == x && d.id == m;
      assert SameStream(d, op) <==> m.r == op.id.r;
    }
  }

  lemma ElsewhereStands(n: Node, op: Op, a: set<Op>)
    requires Standing(n, a) && (op.Insert? || op.target != n.id)
    ensures Standing(n, a + {op})
  {
    DeletesMore(a, op, n.id);
    forall d ensures TakenBack(a + {op}, n.id, d) <==> TakenBack(a, n.id, d) { TakenBackMore(a, op, n.id, d); }
  }

  lemma ReflaggedStands(n: Node, op: Op, a: set<Op>)
    requires Standing(n, a) && Follows(a, op) && op !in a && Coherent(a + {op})
    ensures Standing(Reflagged(n, op), a + {op})
  {
    hide Standing;
    if op.Insert? || op.target != n.id {
      ElsewhereStands(n, op, a);
    } else if op.Delete? {
      NewDelete(op, a, n.id);
      DeleteStands(n, op, a);
    } else {
      UndeleteStands(n, op, a);
    }
  }

  lemma NewDelete(op: Op, a: set<Op>, x: Id)
    requires op !in a && Coherent(a + {op})
    ensures op.id !in DeletesOf(a, x)
  {
  }

  lemma LeafStands(op: Op, a: set<Op>)
    requires op.Insert? && forall o :: o in a ==> Needs(o) != Some(op.id)
    ensures Standing(NewNode(op), a + {op})
  {
    assert DeletesOf(a + {op}, op.id) == {};
  }

  lemma EffectStands(s: State, op: Op, a: set<Op>)
    requires WF(s) && Ready(s.tree, op) && op.id !in s.applied && AllStanding(s.tree, a)
    requires op !in a && Coherent(a + {op})
    requires Follows(a, op) && forall o {:trigger Needs(o)} :: o in a ==> Needs(o) in Keys(s.tree)
    ensures AllStanding(Effect(s.tree, op), a + {op})
  {
    hide Standing, Effect, Follows;
    forall m | m in Flat(Effect(s.tree, op)) ensures Standing(m, a + {op}) {
      EffectNodes(s.tree, op, m);
      if op.Insert? && m == NewNode(op) {
        LeafStands(op, a);
      } else {
        var n :| n in Flat(s.tree) && m == Reflagged(n, op);
        ReflaggedStands(n, op, a);
      }
    }
  }

  // ------------------------------------------------------------------ replicas that receive in order

  /** A replica to which everything came in order: nothing waits and every attribution stands. */
  ghost predicate Ordered(s: State, p: set<Op>) {
    Core(s, p) && s.pending == [] && AllStanding(s.tree, p)
  }

  lemma AllAreApplied(s: State, p: set<Op>)
    requires Core(s, p) && s.pending == []
    ensures AppliedOps(s, p) == p && Drained(s)
  {
  }

  lemma FreshOrdered(r: nat)
    ensures Ordered(Fresh(r), {})
  {
    FreshCore(r);
    assert Flat(EmptyDoc) == [];
  }

  /** An operation in order, applied in whatever way. */
  lemma OneInOrder(s: State, p: set<Op>, op: Op, t: State)
    requires Ordered(s, p) && Ready(s.tree, op) && op.id !in s.applied && Follows(p, op) && Coherent(p + {op})
    requires Core(t, p + {op}) && t.tree == Effect(s.tree, op) && t.pending == []
    ensures Ordered(t, p + {op})
  {
    hide Effect, AllStanding, Follows;
    AllAreApplied(s, p);
    NewToSet(s, p, op);
    EffectStands(s, op, p);
  }

  lemma NewToSet(s: State, p: set<Op>, op: Op)
    requires Core(s, p) && s.pending == [] && op.id !in s.applied
    ensures op !in p && forall o {:trigger Needs(o)} :: o in p ==> Needs(o) in Keys(s.tree)
  {
    AllAreApplied(s, p);
  }

  /** One arrival in order: a repetition, or an operation that is ready and follows its stream. */
  lemma ArrivesInOrder(s: State, p: set<Op>, op: Op, context: Option<Context>)
    requires Ordered(s, p) && Coherent(p + {op}) && (op in p || (Ready(s.tree, op) && Follows(p, op)))
    ensures Ordered(ApplyRemote(s, op, context).state, p + {op})
  {
    hide DoApply, AllStanding, Follows, Matches;
    AllAreApplied(s, p);
    var s1 := RecordContext(s, op, context);
    ApplyRemoteCore(s, op, context, p);
    if op.id in s1.applied {
      SameId(s, p, op);
      assert p + {op} == p;
    } else {
      DoneAtOnce(s1, op);
      OneInOrder(s, p, op, ApplyRemote(s, op, context).state);
    }
  }

  lemma SameId(s: State, p: set<Op>, op: Op)
    requires Core(s, p) && Coherent(p + {op}) && op.id in s.applied
    ensures op in p
  {
    assert Named(AppliedOps(s, p), op.id);
  }

  lemma DoneAtOnce(s: State, op: Op)
    requires WF(s) && s.pending == [] && Ready(s.tree, op) && op.id !in s.applied
    ensures Drain(DoApply(s, op)) == DoApply(s, op) && DoApply(s, op).tree == Effect(s.tree, op)
    ensures DoApply(s, op).pending == []
  {
    DrainNothing(DoApply(s, op));
  }

  /** Two replicas to which the same came in order. */
  lemma OrderedAgree(s: State, t: State, p: set<Op>)
    requires Ordered(s, p) && Ordered(t, p) && TakenBackTogether(p)
    ensures s.tree == t.tree
  {
    AllAreApplied(s, p);
    AllAreApplied(t, p);
    DocsSame(s.tree, t.tree, p);
    forall n, m | n in Flat(s.tree) && m in Flat(t.tree) && n.id == m.id
      ensures n.deletedBy == m.deletedBy && n.deleted == m.deleted
    {
      assert FlagOk(n, p) && FlagOk(m, p);
      StandingDetermined(n, m, p);
    }
    SameShapeSameFlags(s.tree, t.tree);
  }

  // ------------------------------------------------------------------ sequences in order

  /** Every operation is a repetition, or comes after what it needs and after what its stream holds so far. */
  ghost predicate InSequence(q: seq<Op>) {
    q != [] ==>
      var init, op := q[..|q| - 1], q[|q| - 1];
      InSequence(init) && (op in init || (Supported(SetOf(init), op) && Follows(SetOf(init), op)))
  }

  lemma SupportedReady(s: State, p: set<Op>, op: Op)
    requires Core(s, p) && s.pending == [] && Supported(p, op)
    ensures Ready(s.tree, op)
  {
    AllAreApplied(s, p);
    if Needs(op) != None {
      var i :| i in p && i.Insert? && i.id == Needs(op).value;
    }
  }

  lemma {:induction false} InSequenceOrdered(r: nat, q: seq<Op>)
    requires InSequence(q) && Coherent(SetOf(q))
    ensures Ordered(Deliver(Fresh(r), q), SetOf(q))
  {
    hide Ordered, Follows;
    if q == [] {
      FreshOrdered(r);
      assert SetOf(q) == {};
    } else {
      var init, op := q[..|q| - 1], q[|q| - 1];
      SetOfLast(init, op);
      assert q == init + [op];
      CoherentSub(SetOf(q), SetOf(init));
      InSequenceOrdered(r, init);
      var s := Deliver(Fresh(r), init);
      if op !in init { OrderedReady(s, SetOf(init), op); }
      ArrivesInOrder(s, SetOf(init), op, None);
    }
  }

  lemma OrderedReady(s: State, p: set<Op>, op: Op)
    requires Ordered(s, p) && Supported(p, op)
    ensures Ready(s.tree, op)
  {
    SupportedReady(s, p, op);
  }

  lemma SetOfLast(q: seq<Op>, op: Op)
    ensures SetOf(q + [op]) == SetOf(q) + {op}
  {
    SetOfMoreFront(q, [op]);
    assert SetOf([op]) == {op};
  }

  /** The first occurrences of the operations that pass. */
  function Firsts(q: seq<Op>, f: Op -> bool): seq<Op> {
    if q == [] then []
    else
      var init, op := q[..|q| - 1], q[|q| - 1];
      Firsts(init, f) + if f(op) && op !in init then [op] else []
  }

  lemma {:induction false} FirstsMembers(q: seq<Op>, f: Op -> bool)
    ensures forall o :: o in Firsts(q, f) <==> o in q && f(o)
  {
    if q != [] {
      var init, op := q[..|q| - 1], q[|q| - 1];
      FirstsMembers(init, f);
      assert q == init + [op];
    }
  }

  /** Each operation follows the earlier ones of its stream. */
  ghost predicate StreamsRise(q: seq<Op>) {
    q != [] ==> StreamsRise(q[..|q| - 1]) && Follows(SetOf(q[..|q| - 1]), q[|q| - 1])
  }

  lemma RiseMore(q: seq<Op>, op: Op)
    requires StreamsRise(q) && Follows(SetOf(q), op)
    ensures StreamsRise(q + [op])
  {
    hide Follows;
    assert (q + [op])[..|q|] == q;
  }

  lemma SequenceMore(q: seq<Op>, op: Op)
    requires InSequence(q) && (op in q || (Supported(SetOf(q), op) && Follows(SetOf(q), op)))
    ensures InSequence(q + [op])
  {
    hide Follows, Supported;
    assert (q + [op])[..|q|] == q;
  }

  /** One more operation that passes, or that does not. */
  lemma FirstsMore(init: seq<Op>, op: Op, f: Op -> bool)
    ensures Firsts(init + [op], f) == if f(op) && op !in init then Firsts(init, f) + [op] else Firsts(init, f)
    ensures SetOf(Firsts(init, f)) <= SetOf(init)
  {
    assert (init + [op])[..|init|] == init;
    FirstsMembers(init, f);
  }

  lemma {:induction false} FirstsRise(q: seq<Op>, f: Op -> bool)
    requires InSequence(q)
    ensures StreamsRise(Firsts(q, f))
    decreases |q|
  {
    hide Firsts;
    if q == [] {
      assert StreamsRise([]);
      assert Firsts(q, f) == [] by { FirstsNone(f); }
    } else {
      var init, op := q[..|q| - 1], q[|q| - 1];
      assert q == init + [op];
      FirstsRise(init, f);
      FirstsMore(init, op, f);
      if f(op) && op !in init { RiseMore(Firsts(init, f), op); }
    }
  }

  lemma FirstsNone(f: Op -> bool)
    ensures Firsts([], f) == []
  {
  }

  /** Leaving out flag operations leaves a sequence in order. */
  lemma {:induction false} FirstsInSequence(q: seq<Op>, f: Op -> bool)
    requires InSequence(q) && forall o: Op :: o.Insert? ==> f(o)
    ensures InSequence(Firsts(q, f))
    decreases |q|
  {
    hide Firsts, Supported;
    if q == [] {
      FirstsNone(f);
    } else {
      var init, op := q[..|q| - 1], q[|q| - 1];
      assert q == init + [op];
      FirstsInSequence(init, f);
      FirstsMore(init, op, f);
      if f(op) && op !in init {
        FirstsMembers(init, f);
        SupportedKept(SetOf(init), SetOf(Firsts(init, f)), op);
        SequenceMore(Firsts(init, f), op);
      }
    }
  }

  lemma SupportedKept(x: set<Op>, y: set<Op>, op: Op)
    requires Supported(x, op) && forall o :: o in x && o.Insert? ==> o in y
    ensures Supported(y, op)
  {
    if Needs(op) != None {
      var i :| i in x && i.Insert? && i.id == Needs(op).value;
      assert i in y;
    }
  }

  lemma NewStream(a: seq<Op>, b: seq<Op>, op: Op)
    requires Follows(SetOf(b), op) && forall p :: p in a ==> !SameStream(p, op)
    ensures Follows(SetOf(a + b), op)
  {
  }

  /** Flag operations after everything else, of streams of their own. */
  lemma {:induction false} AppendInSequence(a: seq<Op>, b: seq<Op>)
    requires InSequence(a) && StreamsRise(b)
    requires forall o :: o in b ==> Supported(SetOf(a), o)
    requires forall o, p :: o in b && p in a ==> !SameStream(p, o)
    ensures InSequence(a + b)
    decreases |b|
  {
    hide Follows, Supported, SetOf;
    if b == [] {
      assert a + b == a;
    } else {
      var init, op := b[..|b| - 1], b[|b| - 1];
      assert b == init + [op];
      assert op in b && forall o :: o in init ==> o in b;
      AppendInSequence(a, init);
      SetOfMoreFront(a, init);
      SupportedKept(SetOf(a), SetOf(a + init), op);
      NewStream(a, init, op);
      SequenceMore(a + init, op);
      assert a + b == (a + init) + [op];
    }
  }

  // ------------------------------------------------------------------ two orders that differ

  lemma FlagArrives(s: State, p: set<Op>, op: Op)
    requires Ordered(s, p) && !op.Insert? && Supported(p, op) && op !in p && Coherent(p + {op})
    ensures
      var t := ApplyRemote(s, op, None).state;
      && Some(op.target) in Keys(s.tree) && Some(op.target) in Keys(t.tree)
      && NodeAt(t.tree, op.target) == Reflagged(NodeAt(s.tree, op.target), op)
  {
    SupportedReady(s, p, op);
    if op.id in s.applied { SameId(s, p, op); }
    DeliverFlag(s, op);
  }

  /** The attribution of `x` after a sequence. */
  ghost function After(r: nat, q: seq<Op>, x: Id): Option<Id> {
    var t := Deliver(Fresh(r), q).tree;
    if Some(x) in Keys(t) then NodeAt(t, x).deletedBy else None
  }

  lemma AfterOne(r: nat, q: seq<Op>, op: Op)
    requires InSequence(q + [op]) && Coherent(SetOf(q + [op])) && !op.Insert? && op !in q
    ensures After(r, q + [op], op.target) == FlagStep(After(r, q, op.target), op)
  {
    hide Ordered;
    assert (q + [op])[..|q|] == q;
    SetOfLast(q, op);
    CoherentSub(SetOf(q + [op]), SetOf(q));
    InSequenceOrdered(r, q);
    FlagArrives(Deliver(Fresh(r), q), SetOf(q), op);
    IdHere(Deliver(Fresh(r), q), op.target);
  }

  lemma IdHere(s: State, x: Id)
    requires WF(s) && Some(x) in Keys(s.tree)
    ensures NodeAt(s.tree, x).id == x
  {
  }

  /** One more round of undeletes by the replica whose delete stands takes it back for good. */
  lemma {:induction false} UndeletesEnd(r: nat, a: seq<Op>, b: seq<Op>, x: Id, m: Id)
    requires InSequence(a + b) && Coherent(SetOf(a + b)) && After(r, a, x) == Some(m) && b != []
    requires forall o :: o in b ==> o.Undelete? && o.target == x && o.id.r == m.r && o !in a
    requires StreamsRise(b)
    ensures After(r, a + b, x) == None
    decreases |b|
  {
    hide After, Coherent;
    var init, op := b[..|b| - 1], b[|b| - 1];
    assert b == init + [op] && a + b == (a + init) + [op] && op in b;
    assert (a + b)[..|a + init|] == a + init;
    SetOfLast(a + init, op);
    CoherentSub(SetOf(a + b), SetOf(a + init));
    assert op in init ==> SameStream(op, op);
    AfterOne(r, a + init, op);
    hide InSequence, StreamsRise;
    if init == [] {
      assert a + init == a;
    } else {
      UndeletesEnd(r, a, init, x, m);
    }
  }

  /** Deletes leave the node deleted. */
  lemma {:induction false} DeletesEnd(r: nat, a: seq<Op>, b: seq<Op>, x: Id)
    requires InSequence(a + b) && Coherent(SetOf(a + b)) && b != []
    requires forall o :: o in b ==> o.Delete? && o.target == x && o !in a
    requires StreamsRise(b)
    ensures After(r, a + b, x) != None
  {
    hide After;
    var init, op := b[..|b| - 1], b[|b| - 1];
    assert b == init + [op] && a + b == (a + init) + [op] && op in b;
    assert (a + b)[..|a + init|] == a + init;
    SetOfLast(a + init, op);
    assert op in init ==> SameStream(op, op);
    AfterOne(r, a + init, op);
  }

  lemma {:induction false} RiseBetween(q: seq<Op>, i: nat, j: nat)
    requires StreamsRise(q) && i < j < |q| && SameStream(q[i], q[j])
    ensures q[i].id.c < q[j].id.c
    decreases |q|
  {
    var init := q[..|q| - 1];
    if j < |init| {
      RiseBetween(init, i, j);
    } else {
      assert init[i] in init;
    }
  }

  lemma {:induction false} RiseFrom(q: seq<Op>, j: nat)
    requires StreamsRise(q) && j <= |q|
    ensures StreamsRise(q[j..])
    decreases |q|
  {
    if j < |q| {
      var init := q[..|q| - 1];
      RiseFrom(init, j);
      assert q[j..] == init[j..] + [q[|q| - 1]];
      assert forall o :: o in init[j..] ==> o in init;
      RiseMore(init[j..], q[|q| - 1]);
    }
  }

  lemma {:induction false} SequencePrefix(a: seq<Op>, b: seq<Op>)
    requires InSequence(a + b)
    ensures InSequence(a)
    decreases |b|
  {
    if b == [] {
      assert a + b == a;
    } else {
      assert (a + b)[..|a + b| - 1] == a + b[..|b| - 1];
      SequencePrefix(a, b[..|b| - 1]);
    }
  }

  lemma {:induction false} SequenceSupports(q: seq<Op>, o: Op)
    requires InSequence(q) && o in q
    ensures Supported(SetOf(q), o)
  {
    var init, op := q[..|q| - 1], q[|q| - 1];
    assert q == init + [op];
    if o in init { SequenceSupports(init, o); }
    SupportedKept(SetOf(init), SetOf(q), o);
  }

  predicate OnNode(o: Op, x: Id) {
    !o.Insert? && o.target == x
  }

  /** Everything in `q` but the flag operations on `x`. */
  function Base(q: seq<Op>, x: Id): seq<Op> {
    Firsts(q, (o: Op) => !OnNode(o, x))
  }

  /** The flag operations on `x` by one replica. */
  function By(q: seq<Op>, x: Id, r: nat): seq<Op> {
    Firsts(q, (o: Op) => OnNode(o, x) && o.id.r == r)
  }

  /** The flag operations on `x` by neither of two replicas. */
  function ByOthers(q: seq<Op>, x: Id, r: nat, r': nat): seq<Op> {
    Firsts(q, (o: Op) => OnNode(o, x) && o.id.r != r && o.id.r != r')
  }

  lemma PartsOf(q: seq<Op>, x: Id, r: nat, r': nat)
    requires InSequence(q)
    ensures InSequence(Base(q, x))
    ensures StreamsRise(By(q, x, r)) && StreamsRise(By(q, x, r')) && StreamsRise(ByOthers(q, x, r, r'))
    ensures forall o :: o in Base(q, x) <==> o in q && !OnNode(o, x)
    ensures forall o :: o in By(q, x, r) <==> o in q && OnNode(o, x) && o.id.r == r
    ensures forall o :: o in By(q, x, r') <==> o in q && OnNode(o, x) && o.id.r == r'
    ensures forall o :: o in ByOthers(q, x, r, r') <==> o in q && OnNode(o, x) && o.id.r != r && o.id.r != r'
  {
    FirstsInSequence(q, (o: Op) => !OnNode(o, x));
    FirstsMembers(q, (o: Op) => !OnNode(o, x));
    FirstsRise(q, (o: Op) => OnNode(o, x) && o.id.r == r);
    FirstsMembers(q, (o: Op) => OnNode(o, x) && o.id.r == r);
    FirstsRise(q, (o: Op) => OnNode(o, x) && o.id.r == r');
    FirstsMembers(q, (o: Op) => OnNode(o, x) && o.id.r == r');
    FirstsRise(q, (o: Op) => OnNode(o, x) && o.id.r != r && o.id.r != r');
    FirstsMembers(q, (o: Op) => OnNode(o, x) && o.id.r != r && o.id.r != r');
  }

  /** Flag operations on `x` of streams not in `a` go behind it. */
  lemma Behind(q: seq<Op>, x: Id, a: seq<Op>, b: seq<Op>)
    requires InSequence(q) && InSequence(a) && StreamsRise(b)
    requires forall o :: o in q && !OnNode(o, x) ==> o in a
    requires forall o :: o in b ==> o in q && OnNode(o, x)
    requires forall o, p :: o in b && p in a && OnNode(p, x) ==> o.id.r != p.id.r
    ensures InSequence(a + b)
  {
    forall o | o in b ensures Supported(SetOf(a), o) {
      SequenceSupports(q, o);
      SupportedKept(SetOf(q), SetOf(a), o);
    }
    AppendInSequence(a, b);
  }

  /** The greatest delete `m` of `x` was taken back, the delete `d` was not. */
  ghost predicate Disputed(q: seq<Op>, x: Id, m: Id, d: Id) {
    && InSequence(q) && Coherent(SetOf(q)) && m.r != d.r
    && Greatest(m, DeletesOf(SetOf(q), x)) && d in DeletesOf(SetOf(q), x)
    && TakenBack(SetOf(q), x, m) && !TakenBack(SetOf(q), x, d)
  }

  /** The replica of `m` comes last. */
  function MineLast(q: seq<Op>, x: Id, m: Id, d: Id): seq<Op> {
    Base(q, x) + ByOthers(q, x, m.r, d.r) + By(q, x, d.r) + By(q, x, m.r)
  }

  /** The replica of `d` comes last. */
  function TheirsLast(q: seq<Op>, x: Id, m: Id, d: Id): seq<Op> {
    Base(q, x) + ByOthers(q, x, m.r, d.r) + By(q, x, m.r) + By(q, x, d.r)
  }

  lemma BothInSequence(q: seq<Op>, x: Id, m: Id, d: Id)
    requires InSequence(q) && m.r != d.r
    ensures InSequence(MineLast(q, x, m, d)) && SetOf(MineLast(q, x, m, d)) == SetOf(q)
    ensures InSequence(TheirsLast(q, x, m, d)) && SetOf(TheirsLast(q, x, m, d)) == SetOf(q)
  {
    hide InSequence, StreamsRise, Base, By, ByOthers, OnNode;
    PartsOf(q, x, m.r, d.r);
    var b, o, mine, theirs := Base(q, x), ByOthers(q, x, m.r, d.r), By(q, x, m.r), By(q, x, d.r);
    Behind(q, x, b, o);
    Behind(q, x, b + o, theirs);
    Behind(q, x, b + o + theirs, mine);
    Behind(q, x, b + o, mine);
    Behind(q, x, b + o + mine, theirs);
  }

  /** `mine` holds the operations of `p` on `x` by replica `r`, each after the earlier ones. */
  ghost predicate StreamOf(mine: seq<Op>, p: set<Op>, x: Id, r: nat) {
    StreamsRise(mine) && forall o :: o in mine <==> o in p && OnNode(o, x) && o.id.r == r
  }

  lemma ByIsStream(q: seq<Op>, x: Id, r: nat)
    requires InSequence(q)
    ensures StreamOf(By(q, x, r), SetOf(q), x, r)
  {
    hide InSequence, OnNode;
    FirstsRise(q, (o: Op) => OnNode(o, x) && o.id.r == r);
    FirstsMembers(q, (o: Op) => OnNode(o, x) && o.id.r == r);
  }

  lemma StreamAt(mine: seq<Op>, p: set<Op>, x: Id, r: nat, k: nat)
    requires StreamOf(mine, p, x, r) && k < |mine|
    ensures mine[k] in p && OnNode(mine[k], x) && mine[k].id.r == r
  {
    assert mine[k] in mine;
  }

  lemma StreamHas(mine: seq<Op>, p: set<Op>, x: Id, r: nat, o: Op) returns (k: nat)
    requires StreamOf(mine, p, x, r) && o in p && OnNode(o, x) && o.id.r == r
    ensures k < |mine| && mine[k] == o
  {
    k :| 0 <= k < |mine| && mine[k] == o;
  }

  lemma StreamGrows(mine: seq<Op>, p: set<Op>, x: Id, r: nat, i: nat, k: nat)
    requires StreamOf(mine, p, x, r) && i < k < |mine|
    ensures mine[i].id.c < mine[k].id.c
  {
    StreamAt(mine, p, x, r, i);
    StreamAt(mine, p, x, r, k);
    RiseBetween(mine, i, k);
  }

  /** Where a delete stands among its replica's operations. */
  lemma DeleteAt(mine: seq<Op>, p: set<Op>, x: Id, d: Id) returns (j: nat)
    requires StreamOf(mine, p, x, d.r) && d in DeletesOf(p, x)
    ensures j < |mine| && mine[j] == Delete(d, x)
  {
    hide StreamOf;
    var o :| o in p && o.Delete? && o.target == x && o.id == d;
    j := StreamHas(mine, p, x, d.r, o);
  }

  /** The tail of one replica's operations does not occur before. */
  lemma TailApart(mine: seq<Op>, p: set<Op>, x: Id, r: nat, a: seq<Op>, j: nat)
    requires StreamOf(mine, p, x, r) && j <= |mine|
    requires forall o :: o in a && OnNode(o, x) ==> o.id.r != r
    ensures forall o :: o in mine[j..] ==> o !in a + mine[..j]
  {
    hide StreamOf;
    forall o | o in mine[j..] ensures o !in a + mine[..j] {
      var k :| 0 <= k < |mine[j..]| && mine[j..][k] == o;
      assert mine[j + k] == o;
      StreamAt(mine, p, x, r, j + k);
      if o in mine[..j] {
        var i :| 0 <= i < |mine[..j]| && mine[..j][i] == o;
        StreamGrows(mine, p, x, r, i, j + k);
      }
    }
  }

  /** Up to its own place the greatest delete is not taken back. */
  lemma NotYetTakenBack(mine: seq<Op>, p: set<Op>, x: Id, m: Id, a: seq<Op>, j: nat)
    requires StreamOf(mine, p, x, m.r) && j < |mine| && mine[j] == Delete(m, x)
    requires forall o :: o in a && OnNode(o, x) ==> o.id.r != m.r
    ensures !TakenBack(SetOf(a + mine[..j + 1]), x, m)
  {
    hide StreamOf;
    var w := a + mine[..j + 1];
    forall u | u in w && u.Undelete? && u.target == x && u.id.r == m.r ensures u.id.c <= m.c {
      assert u !in a;
      var i :| 0 <= i < |mine[..j + 1]| && mine[..j + 1][i] == u;
      if i < j { StreamGrows(mine, p, x, m.r, i, j); }
    }
  }

  lemma GreatestPart(p: set<Op>, y: set<Op>, x: Id, m: Id)
    requires Greatest(m, DeletesOf(p, x)) && y <= p && Delete(m, x) in y
    ensures Greatest(m, DeletesOf(y, x))
  {
    assert forall d :: d in DeletesOf(y, x) ==> d in DeletesOf(p, x);
  }

  lemma StandsAtItsPlace(r: nat, mine: seq<Op>, p: set<Op>, x: Id, m: Id, a: seq<Op>, j: nat)
    requires StreamOf(mine, p, x, m.r) && j < |mine| && mine[j] == Delete(m, x)
    requires Coherent(p) && Greatest(m, DeletesOf(p, x)) && SetOf(a) <= p
    requires forall o :: o in a && OnNode(o, x) ==> o.id.r != m.r
    requires InSequence(a + mine[..j + 1])
    ensures After(r, a + mine[..j + 1], x) == Some(m)
  {
    hide Ordered, Greatest, Coherent, InSequence, StreamOf;
    var w := a + mine[..j + 1];
    PartWithin(mine, p, x, m.r, a, j);
    CoherentSub(p, SetOf(w));
    InSequenceOrdered(r, w);
    GreatestPart(p, SetOf(w), x, m);
    NotYetTakenBack(mine, p, x, m, a, j);
    StandsThere(Deliver(Fresh(r), w), SetOf(w), x, m);
  }

  lemma PartWithin(mine: seq<Op>, p: set<Op>, x: Id, r: nat, a: seq<Op>, j: nat)
    requires StreamOf(mine, p, x, r) && j < |mine| && SetOf(a) <= p
    ensures SetOf(a + mine[..j + 1]) <= p && mine[j] in SetOf(a + mine[..j + 1])
  {
    var w := a + mine[..j + 1];
    assert w[|a| + j] == mine[j];
    forall o | o in w ensures o in p {
      if o in a { assert o in SetOf(a); } else { assert o in mine; }
    }
  }

  lemma StandsThere(s: State, p: set<Op>, x: Id, m: Id)
    requires Ordered(s, p) && Greatest(m, DeletesOf(p, x)) && !TakenBack(p, x, m)
    ensures Some(x) in Keys(s.tree) && NodeAt(s.tree, x).deletedBy == Some(m)
  {
    AllAreApplied(s, p);
    var d :| d in p && d.Delete? && d.target == x && d.id == m;
    assert Needs(d) == Some(x);
    DocNodeBack(s.tree, x);
  }

  /** After the greatest delete its replica only undeletes. */
  lemma LaterUndeletes(mine: seq<Op>, p: set<Op>, x: Id, m: Id, j: nat)
    requires StreamOf(mine, p, x, m.r) && j < |mine| && mine[j] == Delete(m, x)
    requires Greatest(m, DeletesOf(p, x)) && TakenBack(p, x, m)
    ensures mine[j + 1..] != []
    ensures forall o :: o in mine[j + 1..] ==> o.Undelete? && o.target == x && o.id.r == m.r
  {
    hide StreamOf;
    var u :| u in p && u.Undelete? && u.target == x && u.id.r == m.r && u.id.c > m.c;
    var k := StreamHas(mine, p, x, m.r, u);
    if k < j { StreamGrows(mine, p, x, m.r, k, j); }
    forall o | o in mine[j + 1..] ensures o.Undelete? && o.target == x && o.id.r == m.r {
      var i :| 0 <= i < |mine[j + 1..]| && mine[j + 1..][i] == o;
      assert mine[j + 1 + i] == o;
      StreamAt(mine, p, x, m.r, j + 1 + i);
      StreamGrows(mine, p, x, m.r, j, j + 1 + i);
      assert o.Delete? ==> o.id in DeletesOf(p, x);
    }
  }

  /** After a delete never taken back its replica only deletes. */
  lemma LaterDeletes(mine: seq<Op>, p: set<Op>, x: Id, d: Id, j: nat)
    requires StreamOf(mine, p, x, d.r) && j < |mine| && mine[j] == Delete(d, x) && !TakenBack(p, x, d)
    ensures forall o :: o in mine[j..] ==> o.Delete? && o.target == x
  {
    hide StreamOf;
    forall o | o in mine[j..] ensures o.Delete? && o.target == x {
      var i :| 0 <= i < |mine[j..]| && mine[j..][i] == o;
      assert mine[j + i] == o;
      StreamAt(mine, p, x, d.r, j + i);
      if i > 0 { StreamGrows(mine, p, x, d.r, j, j + i); }
    }
  }

  lemma EndsTakenBack(r: nat, q: seq<Op>, x: Id, m: Id, d: Id)
    requires Disputed(q, x, m, d)
    ensures After(r, MineLast(q, x, m, d), x) == None
  {
    hide By, Base, ByOthers, After, InSequence, StreamsRise, Greatest, TakenBack, Coherent, DeletesOf;
    var mine, a := By(q, x, m.r), Base(q, x) + ByOthers(q, x, m.r, d.r) + By(q, x, d.r);
    var p := SetOf(q);
    BothInSequence(q, x, m, d);
    BeforeMine(q, x, m.r, d.r);
    ByIsStream(q, x, m.r);
    assert StreamsRise(mine);
    hide StreamOf, SetOf;
    GreatestIn(m, DeletesOf(p, x));
    var j := DeleteAt(mine, p, x, m);
    CutTail(a, mine, j + 1);
    SequencePrefix(a + mine[..j + 1], mine[j + 1..]);
    StandsAtItsPlace(r, mine, p, x, m, a, j);
    TailApart(mine, p, x, m.r, a, j + 1);
    RiseFrom(mine, j + 1);
    LaterUndeletes(mine, p, x, m, j);
    UndeletesEnd(r, a + mine[..j + 1], mine[j + 1..], x, m);
  }

  lemma GreatestIn(m: Id, ids: set<Id>)
    requires Greatest(m, ids)
    ensures m in ids
  {
  }

  lemma BeforeMine(q: seq<Op>, x: Id, r: nat, r': nat)
    requires InSequence(q) && r != r'
    ensures
      var a, b := Base(q, x) + ByOthers(q, x, r, r') + By(q, x, r'), Base(q, x) + ByOthers(q, x, r, r') + By(q, x, r);
      && SetOf(a) <= SetOf(q) && (forall o :: o in a && OnNode(o, x) ==> o.id.r != r)
      && SetOf(b) <= SetOf(q) && (forall o :: o in b && OnNode(o, x) ==> o.id.r != r')
  {
    hide By, Base, ByOthers, InSequence, StreamsRise;
    PartsOf(q, x, r, r');
  }

  lemma CutTail<T>(a: seq<T>, b: seq<T>, j: nat)
    requires j <= |b|
    ensures a + b == (a + b[..j]) + b[j..]
  {
  }

  lemma EndsDeletedStill(r: nat, q: seq<Op>, x: Id, m: Id, d: Id)
    requires Disputed(q, x, m, d)
    ensures After(r, TheirsLast(q, x, m, d), x) != None
  {
    hide By, Base, ByOthers, After, InSequence, StreamsRise, Greatest, TakenBack, Coherent, DeletesOf;
    var theirs, a := By(q, x, d.r), Base(q, x) + ByOthers(q, x, m.r, d.r) + By(q, x, m.r);
    var p := SetOf(q);
    BothInSequence(q, x, m, d);
    BeforeMine(q, x, m.r, d.r);
    ByIsStream(q, x, d.r);
    assert StreamsRise(theirs);
    hide StreamOf, SetOf;
    var j := DeleteAt(theirs, p, x, d);
    CutTail(a, theirs, j);
    TailApart(theirs, p, x, d.r, a, j);
    RiseFrom(theirs, j);
    LaterDeletes(theirs, p, x, d, j);
    DeletesEnd(r, a + theirs[..j], theirs[j..], x);
  }

  /**
   * Exactly when the order does not matter: all ways to deliver the same operations in order, with any
   * repetitions, give the same tree if and only if for every node whose greatest delete its replica took back
   * every delete was taken back.
   */
  lemma OrderedOrdersAgreeExactly(r: nat, q: seq<Op>)
    requires InSequence(q) && Coherent(SetOf(q))
    ensures (forall w :: InSequence(w) && SetOf(w) == SetOf(q) ==>
               Deliver(Fresh(r), w).tree == Deliver(Fresh(r), q).tree)
       <==> TakenBackTogether(SetOf(q))
  {
    hide Ordered, InSequence;
    InSequenceOrdered(r, q);
    forall w | InSequence(w) && SetOf(w) == SetOf(q) && TakenBackTogether(SetOf(q))
      ensures Deliver(Fresh(r), w).tree == Deliver(Fresh(r), q).tree
    {
      InSequenceOrdered(r, w);
      OrderedAgree(Deliver(Fresh(r), w), Deliver(Fresh(r), q), SetOf(q));
    }
    if !TakenBackTogether(SetOf(q)) {
      var x, m, d :| Greatest(m, DeletesOf(SetOf(q), x)) && d in DeletesOf(SetOf(q), x)
                     && TakenBack(SetOf(q), x, m) && !TakenBack(SetOf(q), x, d);
      SameReplicaTakesBack(SetOf(q), x, m, d);
      BothInSequence(q, x, m, d);
      EndsTakenBack(r, q, x, m, d);
      EndsDeletedStill(r, q, x, m, d);
      var w1, w2 := MineLast(q, x, m, d), TheirsLast(q, x, m, d);
      assert Deliver(Fresh(r), w1).tree != Deliver(Fresh(r), w2).tree;
    }
  }

  lemma SameReplicaTakesBack(a: set<Op>, x: Id, m: Id, d: Id)
    requires Greatest(m, DeletesOf(a, x)) && d in DeletesOf(a, x) && TakenBack(a, x, m) && !TakenBack(a, x, d)
    ensures m.r != d.r
  {
    var u :| u in a && u.Undelete? && u.target == x && u.id.r == m.r && u.id.c > m.c;
    assert d != m ==> Precedes(d, m);
  }
}
