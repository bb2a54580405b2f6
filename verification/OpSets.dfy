/** A tree as a function of the set of operations applied, whatever their order. */
module OpSets {
  import opened Identifiers
  import opened Operations
  import opened FugueShape

  /** Identifiers name one operation; no two inserts have the same place among siblings. */
  ghost predicate Coherent(p: set<Op>) {
    && (forall a, b :: a in p && b in p && a.id == b.id ==> a == b)
    && (forall a, b :: a in p && b in p && SamePlace(a, b) ==> a == b)
  }

  predicate SamePlace(a: Op, b: Op) {
    && a.Insert? && b.Insert? && a.parent == b.parent && a.side == b.side
    && a.bind == b.bind && a.id.r == b.id.r
  }

  /** The key an operation needs before it can be applied. */
  function Needs(op: Op): Key {
    if op.Insert? then op.parent else Some(op.target)
  }

  predicate RankLess(a: Op, b: Op)
    requires a.Insert? && b.Insert?
  {
    if a.bind != b.bind then a.bind else a.id.r < b.id.r
  }

  ghost function KidOps(ops: set<Op>, k: Key, s: Side): set<Op> {
    set o | o in ops && o.Insert? && o.parent == k && o.side == s
  }

  ghost function HeadOps(f: Forest): (r: set<Op>)
    ensures forall o :: o in r ==> o.Insert?
  {
    if f.Empty? then {} else (if f.top.Some? then {f.top.value.Origin()} else {}) + HeadOps(f.rest)
  }

  ghost predicate AllAfter(n: Node, f: Forest) {
    f.Trees? ==> f.top.Some? && SiblingLess(n, f.top.value) && AllAfter(n, f.rest)
  }

  ghost predicate Sorted(f: Forest) {
    f.Trees? ==> f.top.Some? && AllAfter(f.top.value, f.rest) && Sorted(f.rest)
  }

  /** Every sibling list holds exactly the inserts made there, in strict sibling order. */
  ghost predicate Built(f: Forest, ops: set<Op>) {
    f.Trees? ==>
      && (f.top.Some? ==> f.top.value.Origin() in ops)
      && HeadOps(f.left) == KidOps(ops, f.TopKey(), L) && Sorted(f.left)
      && HeadOps(f.right) == KidOps(ops, f.TopKey(), R) && Sorted(f.right)
      && Built(f.left, ops) && Built(f.right, ops) && Built(f.rest, ops)
  }

  lemma BuiltEmpty()
    ensures Built(EmptyDoc, {})
  {
    assert KidOps({}, None, L) == {} && KidOps({}, None, R) == {};
  }

  // ------------------------------------------------------------------ growth

  lemma {:induction false} AllAfterMember(n: Node, f: Forest, o: Op)
    requires AllAfter(n, f) && o in HeadOps(f)
    ensures RankLess(n.Origin(), o)
  {
    if o != f.top.value.Origin() { AllAfterMember(n, f.rest, o); }
  }

  lemma {:induction false} AllAfterInsert(m: Node, f: Forest, n: Node)
    requires AllAfter(m, f) && SiblingLess(m, n)
    ensures AllAfter(m, InsertSorted(f, n))
  {
    if f.Trees? && !SiblingLess(n, f.top.value) { AllAfterInsert(m, f.rest, n); }
  }

  lemma {:induction false} AllAfterThrough(n: Node, m: Node, f: Forest)
    requires SiblingLess(n, m) && AllAfter(m, f)
    ensures AllAfter(n, f)
  {
    if f.Trees? { AllAfterThrough(n, m, f.rest); }
  }

  /** Sorted insertion keeps the strict order when the new rank is not taken. */
  lemma {:induction false} InsertSortedSorted(f: Forest, n: Node)
    requires Sorted(f) && forall o :: o in HeadOps(f) ==> !(o.bind == n.bind && o.id.r == n.id.r)
    ensures Sorted(InsertSorted(f, n)) && HeadOps(InsertSorted(f, n)) == HeadOps(f) + {n.Origin()}
  {
    if f.Trees? {
      assert f.top.value.Origin() in HeadOps(f);
      if SiblingLess(n, f.top.value) {
        AllAfterThrough(n, f.top.value, f.rest);
      } else {
        InsertSortedSorted(f.rest, n);
        AllAfterInsert(f.top.value, f.rest, n);
      }
    }
  }

  lemma {:induction false} AttachHeads(f: Forest, n: Node)
    ensures HeadOps(Attach(f, n)) == HeadOps(f)
    ensures Sorted(f) ==> Sorted(Attach(f, n))
    ensures forall m :: AllAfter(m, f) ==> AllAfter(m, Attach(f, n))
  {
    if f.Trees? { AttachHeads(f.rest, n); }
  }

  lemma {:induction false} InsertSortedBuilt(f: Forest, n: Node, ops: set<Op>)
    requires Built(f, ops) && n.Origin() in ops
    requires KidOps(ops, Some(n.id), L) == {} && KidOps(ops, Some(n.id), R) == {}
    ensures Built(InsertSorted(f, n), ops)
  {
    if f.Trees? { InsertSortedBuilt(f.rest, n, ops); }
  }

  lemma KidOpsMore(ops: set<Op>, op: Op, k: Key, s: Side)
    ensures KidOps(ops + {op}, k, s)
         == KidOps(ops, k, s) + if op.Insert? && op.parent == k && op.side == s then {op} else {}
  {
  }

  /** The sibling list the new leaf goes into. */
  lemma InsertBuilt(kids: Forest, n: Node, ops: set<Op>)
    requires Built(kids, ops + {n.Origin()}) && Sorted(kids) && HeadOps(kids) == KidOps(ops, n.parent, n.side)
    requires Coherent(ops + {n.Origin()}) && n.Origin() !in ops
    requires forall o :: o in ops + {n.Origin()} && o.Insert? ==> o.parent != Some(n.id)
    ensures Built(InsertSorted(kids, n), ops + {n.Origin()}) && Sorted(InsertSorted(kids, n))
    ensures HeadOps(InsertSorted(kids, n)) == KidOps(ops + {n.Origin()}, n.parent, n.side)
  {
    var op := n.Origin();
    forall o | o in HeadOps(kids) ensures !(o.bind == n.bind && o.id.r == n.id.r) {
      assert SamePlace(o, op) ==> o == op;
    }
    InsertSortedSorted(kids, n);
    assert KidOps(ops + {op}, Some(n.id), L) == {} && KidOps(ops + {op}, Some(n.id), R) == {};
    InsertSortedBuilt(kids, n, ops + {op});
    KidOpsMore(ops, op, n.parent, n.side);
  }

  /** `f` holds the inserts made at (`k`, `s`), and what hangs below them. */
  ghost predicate KidsBuilt(f: Forest, ops: set<Op>, k: Key, s: Side) {
    Built(f, ops) && Sorted(f) && HeadOps(f) == KidOps(ops, k, s)
  }

  lemma AttachKids(f: Forest, n: Node, ops: set<Op>, k: Key, s: Side)
    requires KidsBuilt(f, ops, k, s) && Built(Attach(f, n), ops + {n.Origin()})
    requires Coherent(ops + {n.Origin()}) && n.Origin() !in ops
    requires forall o :: o in ops + {n.Origin()} && o.Insert? ==> o.parent != Some(n.id)
    ensures KidsBuilt(if k == n.parent && s == n.side then InsertSorted(Attach(f, n), n) else Attach(f, n),
                      ops + {n.Origin()}, k, s)
  {
    AttachHeads(f, n);
    KidOpsMore(ops, n.Origin(), k, s);
    if k == n.parent && s == n.side { InsertBuilt(Attach(f, n), n, ops); }
  }

  lemma {:induction false} AttachBuilt(f: Forest, n: Node, ops: set<Op>)
    requires Built(f, ops) && Coherent(ops + {n.Origin()}) && n.Origin() !in ops
    requires forall o :: o in ops + {n.Origin()} && o.Insert? ==> o.parent != Some(n.id)
    ensures Built(Attach(f, n), ops + {n.Origin()})
  {
    if f.Trees? {
      AttachBuilt(f.left, n, ops);
      AttachBuilt(f.right, n, ops);
      AttachBuilt(f.rest, n, ops);
      AttachKids(f.left, n, ops, f.TopKey(), L);
      AttachKids(f.right, n, ops, f.TopKey(), R);
    }
  }

  lemma {:induction false} SetFlagsHeads(f: Forest, k: Key, deleted: bool, who: Option<Id>)
    ensures HeadOps(SetFlags(f, k, deleted, who)) == HeadOps(f)
    ensures Sorted(f) ==> Sorted(SetFlags(f, k, deleted, who))
    ensures forall m :: AllAfter(m, f) ==> AllAfter(m, SetFlags(f, k, deleted, who))
  {
    if f.Trees? {
      SetFlagsHeads(f.rest, k, deleted, who);
      forall m | AllAfter(m, f.rest)
        ensures AllAfter(Flagged(Some(m), k, deleted, who).value, SetFlags(f.rest, k, deleted, who)) {
        AllAfterFlagged(m, SetFlags(f.rest, k, deleted, who), k, deleted, who);
      }
    }
  }

  lemma {:induction false} AllAfterFlagged(m: Node, f: Forest, k: Key, deleted: bool, who: Option<Id>)
    requires AllAfter(m, f)
    ensures AllAfter(Flagged(Some(m), k, deleted, who).value, f)
  {
    if f.Trees? { AllAfterFlagged(m, f.rest, k, deleted, who); }
  }

  /** Flags do not enter: only what never changes of a node does. */
  lemma {:induction false} SetFlagsBuilt(f: Forest, k: Key, deleted: bool, who: Option<Id>, ops: set<Op>)
    requires Built(f, ops)
    ensures Built(SetFlags(f, k, deleted, who), ops)
  {
    if f.Trees? {
      SetFlagsBuilt(f.left, k, deleted, who, ops);
      SetFlagsBuilt(f.right, k, deleted, who, ops);
      SetFlagsBuilt(f.rest, k, deleted, who, ops);
      SetFlagsHeads(f.left, k, deleted, who);
      SetFlagsHeads(f.right, k, deleted, who);
    }
  }

  /** More operations that are no inserts change nothing. */
  lemma {:induction false} BuiltMore(f: Forest, ops: set<Op>, op: Op)
    requires Built(f, ops) && !op.Insert?
    ensures Built(f, ops + {op})
  {
    if f.Trees? {
      BuiltMore(f.left, ops, op);
      BuiltMore(f.right, ops, op);
      BuiltMore(f.rest, ops, op);
      forall s: Side ensures KidOps(ops + {op}, f.TopKey(), s) == KidOps(ops, f.TopKey(), s) { }
    }
  }

  lemma {:induction false} BuiltFind(f: Forest, ops: set<Op>, k: Key)
    requires Built(f, ops) && k in Keys(f)
    ensures Built(Find(f, k), ops)
  {
    if k == f.TopKey() { }
    else if k in Keys(f.left) { BuiltFind(f.left, ops, k); }
    else if k in Keys(f.right) { BuiltFind(f.right, ops, k); }
    else { BuiltFind(f.rest, ops, k); }
  }

  lemma {:induction false} BuiltOrigins(f: Forest, ops: set<Op>)
    requires Built(f, ops)
    ensures forall n :: n in Flat(f) ==> n.Origin() in ops
  {
    if f.Trees? {
      BuiltOrigins(f.left, ops);
      BuiltOrigins(f.right, ops);
      BuiltOrigins(f.rest, ops);
    }
  }

  // ------------------------------------------------------------------ uniqueness

  /** Equal up to the deletion flags. */
  ghost predicate SameShape(f: Forest, g: Forest) {
    if f.Empty? || g.Empty? then f.Empty? && g.Empty?
    else
      && (f.top.Some? <==> g.top.Some?)
      && (f.top.Some? ==> f.top.value.Origin() == g.top.value.Origin())
      && SameShape(f.left, g.left) && SameShape(f.right, g.right) && SameShape(f.rest, g.rest)
  }

  /** Two sibling lists built from the same operations are the same. */
  lemma {:induction false} BuiltSame(f: Forest, g: Forest, ops: set<Op>)
    requires Built(f, ops) && Built(g, ops) && Sorted(f) && Sorted(g) && HeadOps(f) == HeadOps(g)
    ensures SameShape(f, g)
  {
    NoHeads(f);
    NoHeads(g);
    if f.Trees? {
      var a := f.top.value.Origin();
      assert a in HeadOps(g);
      var b := g.top.value.Origin();
      assert b in HeadOps(f);
      if a != b {
        AllAfterMember(f.top.value, f.rest, b);
        AllAfterMember(g.top.value, g.rest, a);
      }
      HeadNotInRest(f);
      HeadNotInRest(g);
      assert HeadOps(f.rest) == HeadOps(f) - {a} && HeadOps(g.rest) == HeadOps(g) - {b};
      BuiltSame(f.rest, g.rest, ops);
      BuiltSame(f.left, g.left, ops);
      BuiltSame(f.right, g.right, ops);
    }
  }

  lemma NoHeads(f: Forest)
    requires Sorted(f)
    ensures f.Empty? <==> HeadOps(f) == {}
  {
    if f.Trees? { assert f.top.value.Origin() in HeadOps(f); }
  }

  lemma HeadNotInRest(f: Forest)
    requires f.Trees? && Sorted(f)
    ensures f.top.value.Origin() !in HeadOps(f.rest)
  {
    if f.top.value.Origin() in HeadOps(f.rest) { AllAfterMember(f.top.value, f.rest, f.top.value.Origin()); }
  }

  /** Two documents built from the same operations have the same shape. */
  lemma DocsSame(d: Forest, e: Forest, ops: set<Op>)
    requires IsDoc(d) && IsDoc(e) && Built(d, ops) && Built(e, ops)
    ensures SameShape(d, e)
  {
    BuiltSame(d.left, e.left, ops);
    BuiltSame(d.right, e.right, ops);
  }

  function Origins(ns: seq<Node>): seq<Op> {
    seq(|ns|, i requires 0 <= i < |ns| => ns[i].Origin())
  }

  lemma OriginsConcat(a: seq<Node>, b: seq<Node>)
    ensures Origins(a + b) == Origins(a) + Origins(b)
  {
  }

  /** Same shape: same nodes in the same document order. */
  lemma {:induction false} SameShapeOrder(f: Forest, g: Forest)
    requires SameShape(f, g)
    ensures Origins(Flat(f)) == Origins(Flat(g))
  {
    if f.Trees? {
      SameShapeOrder(f.left, g.left);
      SameShapeOrder(f.right, g.right);
      SameShapeOrder(f.rest, g.rest);
      assert Origins(f.Self()) == Origins(g.Self());
      OriginsConcat(Flat(f.left), f.Self());
      OriginsConcat(Flat(f.left) + f.Self(), Flat(f.right));
      OriginsConcat(Flat(f.left) + f.Self() + Flat(f.right), Flat(f.rest));
      OriginsConcat(Flat(g.left), g.Self());
      OriginsConcat(Flat(g.left) + g.Self(), Flat(g.right));
      OriginsConcat(Flat(g.left) + g.Self() + Flat(g.right), Flat(g.rest));
    }
  }

  /** Nodes with one identifier have the same flags. */
  ghost predicate SameFlags(a: seq<Node>, b: seq<Node>) {
    forall n, m :: n in a && m in b && n.id == m.id ==> n.deletedBy == m.deletedBy && n.deleted == m.deleted
  }

  lemma SameFlagsParts(f: Forest, g: Forest)
    requires f.Trees? && g.Trees? && SameFlags(Flat(f), Flat(g))
    ensures SameFlags(Flat(f.left), Flat(g.left)) && SameFlags(Flat(f.right), Flat(g.right))
    ensures SameFlags(Flat(f.rest), Flat(g.rest)) && SameFlags(f.Self(), g.Self())
  {
    FlatMembers(f);
    FlatMembers(g);
    SameFlagsSub(Flat(f), Flat(g), Flat(f.left), Flat(g.left));
    SameFlagsSub(Flat(f), Flat(g), Flat(f.right), Flat(g.right));
    SameFlagsSub(Flat(f), Flat(g), Flat(f.rest), Flat(g.rest));
    SameFlagsSub(Flat(f), Flat(g), f.Self(), g.Self());
  }

  lemma SameFlagsSub(a: seq<Node>, b: seq<Node>, x: seq<Node>, y: seq<Node>)
    requires SameFlags(a, b) && (forall n :: n in x ==> n in a) && (forall n :: n in y ==> n in b)
    ensures SameFlags(x, y)
  {
  }

  /** Same shape and, node by node, the same flags: the same tree. */
  lemma {:induction false} SameShapeSameFlags(f: Forest, g: Forest)
    requires SameShape(f, g) && SameFlags(Flat(f), Flat(g))
    ensures f == g
  {
    if f.Trees? {
      SameFlagsParts(f, g);
      SameShapeSameFlags(f.left, g.left);
      SameShapeSameFlags(f.right, g.right);
      SameShapeSameFlags(f.rest, g.rest);
      if f.top.Some? { assert f.top.value in f.Self() && g.top.value in g.Self(); }
    }
  }

  lemma FlatMembers(f: Forest)
    requires f.Trees?
    ensures forall n :: n in Flat(f) <==>
      f.top == Some(n) || n in Flat(f.left) || n in Flat(f.right) || n in Flat(f.rest)
  {
    if f.top.Some? { assert f.top.value in f.Self(); }
  }
}
