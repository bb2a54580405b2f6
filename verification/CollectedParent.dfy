/** Typing beside a collected tombstone: a replica that kept it may hang its next character from it. */
module CollectedParent {
  import opened Identifiers
  import opened Operations
  import opened FugueShape
  import opened FugueTrees
  import opened EngineState
  import opened Collection
  import opened OpSets
  import opened Replica
  import opened Convergence
  import opened CollectedReplica
  import opened FlagOrder
  import Network

  /** To the right of `k` something hangs, and the first node of it is collected. */
  ghost predicate Shielded(tree: Forest, k: Key, c: set<Key>)
    requires k in Keys(tree)
  {
    var r := Find(tree, k).right;
    r.Trees? && Leftmost(r).Some? && Some(Leftmost(r).value.id) in c
  }

  /** What a character typed at `v` hangs from is collected exactly if the place is shielded. */
  lemma ParentCollected(tree: Forest, v: int, c: set<Key>)
    requires IsDoc(tree) && 0 <= v <= NumVis(Flat(tree)) && Gone(tree, c)
    ensures PlacementAt(tree, LeftOrigin(tree, v)).parent in c <==> Shielded(tree, LeftOrigin(tree, v), c)
    ensures PlacementAt(tree, LeftOrigin(tree, v)).parent in Keys(tree)
  {
    hide Unique, Placed;
    var k := LeftOrigin(tree, v);
    PlacementPresent(tree, k);
    if v > 0 {
      VisInFlat(Flat(tree), v - 1);
      assert !Vis(Flat(tree))[v - 1].deleted;
      NodesUnique(tree);
    }
  }

  lemma DeliverOne(s: State, op: Op)
    requires WF(s)
    ensures Deliver(s, [op]) == ApplyRemote(s, op, None).state
  {
    assert [op][..0] == [];
    assert Deliver(s, []) == s;
  }

  /**
   * A replica collects, and another one with the same document that did not types at `v`: the character reaches the
   * first one's document exactly if what hangs right of the place does not start with a collected node.
   */
  lemma TypingReachesExactly(s: State, p: set<Op>, frontier: nat, o: Options, t: State, v: int, value: nat, bind: bool)
    requires Core(s, p) && Drained(s) && WF(t) && t.tree == s.tree && 0 <= v <= NumVis(Flat(s.tree))
    requires InsertOp(t, v, value, bind).id !in s.applied && Coherent(p + {InsertOp(t, v, value, bind)})
    ensures WF(Collect(s, frontier, o))
    ensures
      var op, c := InsertOp(t, v, value, bind), Sweep(Flat(s.tree), Candidates(s, frontier, o));
      && op.id in Deliver(s, [op]).applied
      && (op.id in Deliver(Collect(s, frontier, o), [op]).applied <==> !Shielded(s.tree, LeftOrigin(s.tree, v), c))
  {
    hide Core, WF, Gone, Drained, Coherent, Deliver, Candidates, Shielded, LeftOrigin, PlacementAt;
    var op, c := InsertOp(t, v, value, bind), Sweep(Flat(s.tree), Candidates(s, frontier, o));
    CoreWF(s, p);
    DocOf(s);
    SweepGone(s, frontier, o);
    ParentCollected(s.tree, v, c);
    assert p + SetOf([op]) == p + {op};
    CollectingUnseenExactly(s, p, frontier, o, [op]);
    ReadyApplied(s, op);
    if Needs(op) in c { NeedsCollected(s, p, c, [op], op); }
  }

  lemma DocOf(s: State)
    requires WF(s)
    ensures IsDoc(s.tree)
  {
  }

  lemma ReadyApplied(s: State, op: Op)
    requires WF(s) && Ready(s.tree, op) && op.id !in s.applied
    ensures op.id in Deliver(s, [op]).applied
  {
    hide Unique, Placed, Effect, Drain, Deliver;
    DeliverOne(s, op);
    Network.DrainKeeps(DoApply(s, op));
  }

  // ------------------------------------------------------------------ an instance

  /** Two characters, the second typed after the first, and its deletion. */
  ghost predicate TypedAndErased(a: Op, x: Op, d: Op) {
    && a.Insert? && x.Insert? && d.Delete? && a.id == Id(1, 1) && x.id == Id(2, 1) && d.id == Id(3, 1)
    && a.parent == None && a.side == R && x.parent == Some(a.id) && x.side == R && d.target == x.id
  }

  /** The document they make: the first character, and the second below it as a tombstone. */
  function ErasedDoc(a: Op, x: Op, d: Op): Forest
    requires a.Insert? && x.Insert?
  {
    var gone := NewNode(x).(deleted := true, deletedBy := Some(d.id));
    Trees(None, Empty, Trees(Some(NewNode(a)), Empty, Leaf(gone), Empty), Empty)
  }

  /** With nothing waiting, a ready operation is just applied. */
  lemma AppliesReady(s: State, op: Op, context: Option<Context>)
    requires WF(s) && s.pending == [] && Ready(s.tree, op) && op.id !in s.applied
    ensures ApplyRemote(s, op, context).state == DoApply(RecordContext(s, op, context), op)
  {
    hide Unique, Placed, Effect;
    DrainNothing(DoApply(RecordContext(s, op, context), op));
  }

  /** The document before the deletion. */
  function TypedDoc(a: Op, x: Op): Forest
    requires a.Insert? && x.Insert?
  {
    Trees(None, Empty, Trees(Some(NewNode(a)), Empty, Leaf(NewNode(x)), Empty), Empty)
  }

  function FirstDoc(a: Op): Forest
    requires a.Insert?
  {
    Trees(None, Empty, Leaf(NewNode(a)), Empty)
  }

  lemma FirstEffect(a: Op)
    requires a.Insert? && a.parent == None && a.side == R
    ensures IsDoc(EmptyDoc) && Ready(EmptyDoc, a) && Effect(EmptyDoc, a) == FirstDoc(a)
  {
    assert Attach(Empty, NewNode(a)) == Empty;
  }

  lemma SecondEffect(a: Op, x: Op, d: Op)
    requires TypedAndErased(a, x, d) && IsDoc(FirstDoc(a))
    ensures Ready(FirstDoc(a), x) && Effect(FirstDoc(a), x) == TypedDoc(a, x)
  {
    assert Attach(Empty, NewNode(x)) == Empty;
    assert Attach(Leaf(NewNode(a)), NewNode(x)) == Trees(Some(NewNode(a)), Empty, Leaf(NewNode(x)), Empty);
  }

  lemma LeafFlagged(n: Node, d: Id)
    ensures Keys(Leaf(n)) == {Some(n.id)} && Find(Leaf(n), Some(n.id)) == Leaf(n)
    ensures SetFlags(Leaf(n), Some(n.id), true, Some(d)) == Leaf(n.(deleted := true, deletedBy := Some(d)))
  {
  }

  lemma ThirdEffect(a: Op, x: Op, d: Op)
    requires TypedAndErased(a, x, d) && IsDoc(TypedDoc(a, x))
    ensures Ready(TypedDoc(a, x), d) && Effect(TypedDoc(a, x), d) == ErasedDoc(a, x, d)
  {
    var below := Trees(Some(NewNode(a)), Empty, Leaf(NewNode(x)), Empty);
    var gone := Leaf(NewNode(x).(deleted := true, deletedBy := Some(d.id)));
    LeafFlagged(NewNode(x), d.id);
    assert Keys(below) == {Some(a.id), Some(x.id)};
    assert Find(below, Some(x.id)) == Leaf(NewNode(x)) && Find(TypedDoc(a, x), Some(x.id)) == Leaf(NewNode(x));
    assert SetFlags(Empty, Some(x.id), true, Some(d.id)) == Empty;
    assert SetFlags(below, Some(x.id), true, Some(d.id)) == Trees(Some(NewNode(a)), Empty, gone, Empty);
    assert MaxWins(NodeAt(TypedDoc(a, x), x.id).deletedBy, d.id) == d.id;
  }

  /** After one of the three operations: nothing waits, the tree and the identifiers are as given. */
  ghost predicate Stands(s: State, r: nat, tree: Forest, applied: set<Id>, clock: nat, p: set<Op>) {
    && WF(s) && s.replica == r && s.tree == tree && s.applied == applied && s.pending == [] && s.clock == clock
    && Core(s, p) && Drained(s)
  }

  lemma StandsNext(s: State, r: nat, applied: set<Id>, clock: nat, p: set<Op>, op: Op, context: Option<Context>)
    requires Stands(s, r, s.tree, applied, clock, p) && Ready(s.tree, op) && op.id !in applied && op.id.c == clock + 1
    requires Coherent(p + {op})
    ensures Stands(ApplyRemote(s, op, context).state, r, Effect(s.tree, op), applied + {op.id}, clock + 1, p + {op})
  {
    hide Unique, Placed, Effect, Matches;
    AppliesReady(s, op, context);
    ApplyRemoteCore(s, op, context, p);
  }

  lemma ErasedCoherent(a: Op, x: Op, d: Op)
    requires TypedAndErased(a, x, d)
    ensures Coherent({} + {a}) && Coherent({} + {a} + {x}) && Coherent({} + {a} + {x} + {d})
  {
  }

  /** The two characters delivered in turn. */
  function Typed(r: nat, a: Op, x: Op): State {
    ApplyRemote(ApplyRemote(Fresh(r), a, None).state, x, None).state
  }

  /** And the deletion, with its commit record if there is one. */
  function Erased(r: nat, a: Op, x: Op, d: Op, context: Option<Context>): State {
    ApplyRemote(Typed(r, a, x), d, context).state
  }

  lemma TypedStands(r: nat, a: Op, x: Op, d: Op)
    requires TypedAndErased(a, x, d)
    ensures Stands(Typed(r, a, x), r, TypedDoc(a, x), {} + {a.id} + {x.id}, 2, {} + {a} + {x})
  {
    hide Stands, Coherent, ApplyRemote, Effect, Ready, IsDoc;
    FreshStands(r);
    ErasedCoherent(a, x, d);
    FirstEffect(a);
    StandsNext(Fresh(r), r, {}, 0, {}, a, None);
    var s1 := ApplyRemote(Fresh(r), a, None).state;
    StandsTree(s1, r, FirstDoc(a), {} + {a.id}, 1, {} + {a});
    SecondEffect(a, x, d);
    StandsNext(s1, r, {} + {a.id}, 1, {} + {a}, x, None);
  }

  lemma ErasedStands(r: nat, a: Op, x: Op, d: Op, context: Option<Context>)
    requires TypedAndErased(a, x, d)
    ensures Stands(Erased(r, a, x, d, context), r, ErasedDoc(a, x, d), {} + {a.id} + {x.id} + {d.id}, 3,
      {} + {a} + {x} + {d})
    ensures
      var s := Erased(r, a, x, d, context);
      context.Some? ==> d.id in s.deleteContext && s.deleteContext[d.id] == context.value
  {
    hide Stands, Coherent, ApplyRemote, Effect, Ready, IsDoc, Typed;
    TypedStands(r, a, x, d);
    ErasedCoherent(a, x, d);
    var s, applied, p := Typed(r, a, x), {} + {a.id} + {x.id}, {} + {a} + {x};
    StandsTree(s, r, TypedDoc(a, x), applied, 2, p);
    ThirdEffect(a, x, d);
    StandsNext(s, r, applied, 2, p, d, context);
    if context.Some? { DeleteRecords(s, r, applied, 2, p, d, context.value); }
  }

  lemma StandsTree(s: State, r: nat, tree: Forest, applied: set<Id>, clock: nat, p: set<Op>)
    requires Stands(s, r, tree, applied, clock, p)
    ensures WF(s) && IsDoc(s.tree) && s.tree == tree
  {
  }

  lemma FreshStands(r: nat)
    ensures Stands(Fresh(r), r, EmptyDoc, {}, 0, {})
  {
    FreshCore(r);
  }

  lemma DeleteRecords(s: State, r: nat, applied: set<Id>, clock: nat, p: set<Op>, d: Op, context: Context)
    requires Stands(s, r, s.tree, applied, clock, p) && Ready(s.tree, d) && d.id !in applied && d.Delete?
    ensures
      var t := ApplyRemote(s, d, Some(context)).state;
      d.id in t.deleteContext && t.deleteContext[d.id] == context
  {
    hide Unique, Placed, Core, Effect;
    AppliesReady(s, d, Some(context));
  }

  /** The tombstone is a candidate and nothing anchors it. */
  lemma ErasedSwept(s: State, a: Op, x: Op, d: Op, o: Options)
    requires TypedAndErased(a, x, d) && s.tree == ErasedDoc(a, x, d) && o.maxAgeMs <= o.nowMs
    requires d.id in s.deleteContext && s.deleteContext[d.id] == Context(3, 0)
    ensures Sweep(Flat(s.tree), Candidates(s, 3, o)) == {Some(x.id)}
  {
    var gone := NewNode(x).(deleted := true, deletedBy := Some(d.id));
    FlatErased(a, x, d);
    assert IsCandidate(s, 3, o, gone) && !IsCandidate(s, 3, o, NewNode(a));
    var nodes, c := [NewNode(a), gone], {Some(x.id)};
    assert Candidates(s, 3, o) == c;
    assert Anchored(nodes, c) == {};
    SweepNext(nodes, c);
  }

  lemma FlatErased(a: Op, x: Op, d: Op)
    requires TypedAndErased(a, x, d)
    ensures Flat(ErasedDoc(a, x, d)) == [NewNode(a), NewNode(x).(deleted := true, deletedBy := Some(d.id))]
  {
    var gone := NewNode(x).(deleted := true, deletedBy := Some(d.id));
    assert Flat(Leaf(gone)) == [gone];
    assert Flat(Trees(Some(NewNode(a)), Empty, Leaf(gone), Empty)) == [NewNode(a), gone];
  }

  /** Behind the first character the place is shielded by the tombstone. */
  lemma ErasedShielded(a: Op, x: Op, d: Op)
    requires TypedAndErased(a, x, d) && IsDoc(ErasedDoc(a, x, d))
    ensures NumVis(Flat(ErasedDoc(a, x, d))) == 1 && LeftOrigin(ErasedDoc(a, x, d), 1) == Some(a.id)
    ensures PlacementAt(ErasedDoc(a, x, d), Some(a.id)) == Placement(Some(x.id), L)
    ensures Shielded(ErasedDoc(a, x, d), Some(a.id), {Some(x.id)})
  {
    var doc := ErasedDoc(a, x, d);
    var gone := NewNode(x).(deleted := true, deletedBy := Some(d.id));
    FlatErased(a, x, d);
    VisOne(NewNode(a));
    VisOne(gone);
    VisConcat([NewNode(a)], [gone]);
    assert Flat(doc) == [NewNode(a)] + [gone];
    assert Vis(Flat(doc)) == [NewNode(a)];
    assert Keys(Leaf(gone)) == {Some(x.id)};
    assert Find(doc, Some(a.id)) == Trees(Some(NewNode(a)), Empty, Leaf(gone), Empty);
  }

  /**
   * Two characters are typed and the second is erased; every replica has seen that, and the coordinator collects the
   * tombstone. The next character another replica types behind the first hangs from the tombstone, and waits at the
   * coordinator for a node that never comes back.
   */
  lemma TypedBehindCollected(a: Op, x: Op, d: Op, r: nat, value: nat, bind: bool, o: Options)
    requires TypedAndErased(a, x, d) && r > 1 && o.maxAgeMs <= o.nowMs
    ensures WF(Collect(Erased(0, a, x, d, Some(Context(3, 0))), 3, o))
    ensures
      var s, t := Erased(0, a, x, d, Some(Context(3, 0))), Erased(r, a, x, d, None);
      && t.tree == s.tree && t.applied == s.applied && NumVis(Flat(t.tree)) == 1
      && var op := InsertOp(t, 1, value, bind);
      && op.parent == Some(x.id)
      && op.id in Deliver(s, [op]).applied && op.id !in Deliver(Collect(s, 3, o), [op]).applied
  {
    hide Stands, ApplyRemote, Deliver, Erased, ErasedDoc, Collect, Core, WF, Drained, InsertOp, NumVis;
    var s, t := Erased(0, a, x, d, Some(Context(3, 0))), Erased(r, a, x, d, None);
    var p, applied := {} + {a} + {x} + {d}, {} + {a.id} + {x.id} + {d.id};
    ErasedStands(0, a, x, d, Some(Context(3, 0)));
    ErasedStands(r, a, x, d, None);
    StandsAll(s, 0, ErasedDoc(a, x, d), applied, 3, p);
    StandsAll(t, r, ErasedDoc(a, x, d), applied, 3, p);
    TypesBehind(a, x, d, t, value, bind);
    BehindCollected(s, t, a, x, d, p, value, bind, o);
  }

  /** What is typed behind the first character. */
  lemma TypesBehind(a: Op, x: Op, d: Op, t: State, value: nat, bind: bool)
    requires TypedAndErased(a, x, d) && WF(t) && t.tree == ErasedDoc(a, x, d) && t.clock == 3
    ensures NumVis(Flat(t.tree)) == 1
    ensures InsertOp(t, 1, value, bind) == Insert(Id(4, t.replica), value, Some(x.id), L, bind)
  {
    hide LeftOrigin, PlacementAt, ErasedDoc, Shielded, NumVis;
    DocOf(t);
    ErasedShielded(a, x, d);
  }

  lemma BehindCollected(s: State, t: State, a: Op, x: Op, d: Op, p: set<Op>, value: nat, bind: bool, o: Options)
    requires TypedAndErased(a, x, d) && o.maxAgeMs <= o.nowMs && p == {} + {a} + {x} + {d}
    requires Core(s, p) && Drained(s) && WF(s) && WF(t) && s.tree == t.tree == ErasedDoc(a, x, d)
    requires s.applied == {} + {a.id} + {x.id} + {d.id} && t.clock == 3 && t.replica > 1
    requires d.id in s.deleteContext && s.deleteContext[d.id] == Context(3, 0)
    ensures NumVis(Flat(t.tree)) == 1 && WF(Collect(s, 3, o))
    ensures
      var op := InsertOp(t, 1, value, bind);
      op.id in Deliver(s, [op]).applied && op.id !in Deliver(Collect(s, 3, o), [op]).applied
  {
    hide WF, Core, Drained, Coherent, Deliver, LeftOrigin, PlacementAt, Candidates, Sweep, Shielded, ErasedDoc, Collect,
      NumVis, InsertOp;
    DocOf(s);
    TypesBehind(a, x, d, t, value, bind);
    ErasedShielded(a, x, d);
    ErasedSwept(s, a, x, d, o);
    FourCoherent(a, x, d, InsertOp(t, 1, value, bind));
    TypingReachesExactly(s, p, 3, o, t, 1, value, bind);
  }

  lemma StandsAll(s: State, r: nat, tree: Forest, applied: set<Id>, clock: nat, p: set<Op>)
    requires Stands(s, r, tree, applied, clock, p)
    ensures WF(s) && Core(s, p) && Drained(s) && IsDoc(s.tree)
    ensures s.tree == tree && s.applied == applied && s.replica == r && s.clock == clock
  {
    hide Core, Drained;
  }

  lemma FourCoherent(a: Op, x: Op, d: Op, op: Op)
    requires TypedAndErased(a, x, d) && op.Insert? && op.id.c == 4 && op.parent == Some(x.id)
    ensures Coherent({} + {a} + {x} + {d} + {op})
  {
  }
}
