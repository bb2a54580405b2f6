/** One replica and the set of operations it has received: what every engine operation keeps. */
module Replica {
  import opened Identifiers
  import opened Operations
  import opened FugueShape
  import opened FugueTrees
  import opened EngineState
  import opened Collection
  import opened OpSets

  /** The received operations that are applied. */
  ghost function AppliedOps(s: State, p: set<Op>): set<Op> {
    set o | o in p && o.id in s.applied
  }

  ghost predicate Named(ops: set<Op>, id: Id) {
    exists o :: o in ops && o.id == id
  }

  ghost predicate Inserted(ops: set<Op>, id: Id) {
    exists o :: o in ops && o.Insert? && o.id == id
  }

  lemma NoMembers<T(!new)>(q: seq<T>)
    ensures (forall x :: x !in q) ==> q == []
  {
    if |q| > 0 { assert q[0] in q; }
  }

  // ------------------------------------------------------------------ flags

  ghost function DeletesOf(ops: set<Op>, x: Id): set<Id> {
    set o | o in ops && o.Delete? && o.target == x :: o.id
  }

  ghost predicate Greatest(m: Id, ids: set<Id>) {
    m in ids && forall x :: x in ids && x != m ==> Precedes(x, m)
  }

  /** Some undelete of `x` was minted by replica `r`. */
  ghost predicate UndoneBy(ops: set<Op>, x: Id, r: nat) {
    exists o :: o in ops && o.Undelete? && o.target == x && o.id.r == r
  }

  /** No greatest deletion is undone by its own replica. */
  ghost predicate Settled(ops: set<Op>) {
    forall x, m :: Greatest(m, DeletesOf(ops, x)) ==> !UndoneBy(ops, x, m.r)
  }

  /** A node's flags against the operations applied. */
  ghost predicate FlagOk(n: Node, ops: set<Op>) {
    && (n.deleted <==> n.deletedBy.Some?)
    && (n.deletedBy.Some? ==> n.deletedBy.value in DeletesOf(ops, n.id))
    && forall m :: Greatest(m, DeletesOf(ops, n.id)) && !UndoneBy(ops, n.id, m.r) ==> n.deletedBy == Some(m)
  }

  /** Settled sets determine the flags. */
  lemma FlagsDetermined(n: Node, m: Node, ops: set<Op>)
    requires FlagOk(n, ops) && FlagOk(m, ops) && n.id == m.id && Settled(ops)
    ensures n.deletedBy == m.deletedBy && n.deleted == m.deleted
  {
    if DeletesOf(ops, n.id) != {} {
      var g := GreatestExists(DeletesOf(ops, n.id));
      assert Greatest(g, DeletesOf(ops, n.id));
    }
  }

  // ------------------------------------------------------------------ the invariant

  ghost predicate FlagsOk(d: Forest, ops: set<Op>) {
    forall n :: n in Flat(d) ==> FlagOk(n, ops)
  }

  /** The tree is the one the operations make. */
  ghost predicate Matches(tree: Forest, ops: set<Op>) {
    && Built(tree, ops) && FlagsOk(tree, ops)
    && (forall o :: o in ops && o.Insert? ==> Some(o.id) in Keys(tree))
    && (forall id {:trigger Inserted(ops, id)} :: Some(id) in Keys(tree) ==> Inserted(ops, id))
    && forall o {:trigger Needs(o)} :: o in ops ==> Needs(o) in Keys(tree)
  }

  /** The tree matches the applied operations; the rest of what was received waits. */
  ghost predicate Core(s: State, p: set<Op>) {
    var a := AppliedOps(s, p);
    && WF(s) && Coherent(p) && Matches(s.tree, a)
    && (forall id {:trigger Named(a, id)} :: id in s.applied ==> Named(a, id))
    && (forall o :: o in s.pending ==> o in p)
    && (forall o :: o in p ==> o in a || o in s.pending)
  }

  /** Nothing in the buffer could be applied or discarded. */
  ghost predicate Drained(s: State) {
    forall o :: o in s.pending ==> o.id !in s.applied && !Ready(s.tree, o)
  }

  lemma FreshCore(r: nat)
    ensures Core(Fresh(r), {}) && Drained(Fresh(r))
  {
    assert AppliedOps(Fresh(r), {}) == {};
    BuiltEmpty();
    assert Flat(EmptyDoc) == [];
  }

  // ------------------------------------------------------------------ applying one operation

  lemma EffectBuilt(s: State, op: Op, a: set<Op>)
    requires WF(s) && Ready(s.tree, op) && op.id !in s.applied && Built(s.tree, a) && op !in a && Coherent(a + {op})
    requires forall o {:trigger Needs(o)} :: o in a ==> o.id in s.applied && Needs(o) in Keys(s.tree)
    ensures Built(Effect(s.tree, op), a + {op})
  {
    match op
    case Insert(_, _, _, _, _) =>
      forall o | o in a + {op} && o.Insert? ensures o.parent != Some(op.id) { assert Needs(o) in Keys(s.tree); }
      AttachBuilt(s.tree, NewNode(op), a);
    case Delete(id, target) =>
      SetFlagsBuilt(s.tree, Some(target), true, Some(MaxWins(NodeAt(s.tree, target).deletedBy, id)), a);
      BuiltMore(Effect(s.tree, op), a, op);
    case Undelete(_, target) =>
      SetFlagsBuilt(s.tree, Some(target), false, None, a);
      BuiltMore(Effect(s.tree, op), a, op);
  }

  /** What a flag operation does to the flags of the node it names. */
  function FlagStep(who: Option<Id>, op: Op): Option<Id> {
    match op
    case Insert(_, _, _, _, _) => who
    case Delete(id, _) => Some(MaxWins(who, id))
    case Undelete(id, _) => if Revives(who, id) then None else who
  }

  function Reflagged(n: Node, op: Op): Node {
    if op.Insert? || n.id != op.target || (op.Undelete? && !Revives(n.deletedBy, op.id)) then n
    else n.(deleted := op.Delete?, deletedBy := FlagStep(n.deletedBy, op))
  }

  /** The nodes after an operation: the old ones, with the target's flags stepped, and a new leaf. */
  lemma EffectNodes(tree: Forest, op: Op, m: Node)
    requires IsDoc(tree) && Ready(tree, op) && m in Flat(Effect(tree, op))
    ensures (op.Insert? && m == NewNode(op)) || exists n :: n in Flat(tree) && m == Reflagged(n, op)
  {
    hide Unique, Placed, Keys, Attach, SetFlags;
    match op
    case Insert(_, _, _, _, _) =>
      var i := AttachSplit(tree, NewNode(op));
      if m != NewNode(op) { assert m in Flat(tree) && m == Reflagged(m, op); }
    case Delete(id, target) =>
      var who := Some(MaxWins(NodeAt(tree, target).deletedBy, id));
      FlatSetFlags(tree, Some(target), true, who);
      var i :| 0 <= i < |Flat(tree)| && m == FlagAll(Flat(tree), Some(target), true, who)[i];
      DocNode(tree, Flat(tree)[i]);
      assert m == Reflagged(Flat(tree)[i], op);
    case Undelete(id, target) =>
      if Revives(NodeAt(tree, target).deletedBy, id) {
        FlatSetFlags(tree, Some(target), false, None);
        var i :| 0 <= i < |Flat(tree)| && m == FlagAll(Flat(tree), Some(target), false, None)[i];
        DocNode(tree, Flat(tree)[i]);
        assert m == Reflagged(Flat(tree)[i], op);
      } else {
        DocNode(tree, m);
        assert m == Reflagged(m, op);
      }
  }

  /** Stepping a node's flags keeps them right against one operation more. */
  lemma ReflaggedOk(n: Node, op: Op, a: set<Op>)
    requires FlagOk(n, a) && op !in a && Coherent(a + {op})
    ensures FlagOk(Reflagged(n, op), a + {op})
  {
    var a' := a + {op};
    var x := n.id;
    var isDelete := op.Delete? && op.target == x;
    assert DeletesOf(a', x) == DeletesOf(a, x) + if isDelete then {op.id} else {};
    assert forall r :: UndoneBy(a, x, r) ==> UndoneBy(a', x, r);
    assert op.Undelete? && op.target == x ==> UndoneBy(a', x, op.id.r);
    forall m | Greatest(m, DeletesOf(a', x)) && !UndoneBy(a', x, m.r)
      ensures Reflagged(n, op).deletedBy == Some(m)
    {
      if isDelete {
        assert m != op.id ==> Greatest(m, DeletesOf(a, x));
      } else {
        assert Greatest(m, DeletesOf(a, x));
      }
    }
  }

  lemma NewNodeOk(op: Op, a: set<Op>)
    requires op.Insert? && forall o :: o in a ==> Needs(o) != Some(op.id)
    ensures FlagOk(NewNode(op), a + {op})
  {
    assert DeletesOf(a + {op}, op.id) == {};
  }

  lemma EffectFlags(s: State, op: Op, a: set<Op>)
    requires WF(s) && Ready(s.tree, op) && op.id !in s.applied && FlagsOk(s.tree, a) && op !in a && Coherent(a + {op})
    requires forall o {:trigger Needs(o)} :: o in a ==> Needs(o) in Keys(s.tree)
    ensures FlagsOk(Effect(s.tree, op), a + {op})
  {
    forall m | m in Flat(Effect(s.tree, op)) ensures FlagOk(m, a + {op}) {
      EffectNodes(s.tree, op, m);
      if op.Insert? && m == NewNode(op) {
        NewNodeOk(op, a);
      } else {
        var n :| n in Flat(s.tree) && m == Reflagged(n, op);
        ReflaggedOk(n, op, a);
      }
    }
  }

  /** The counters play no part in the invariant. */
  lemma CoreClock(s: State, t: State, p: set<Op>)
    requires Core(s, p) && WF(t)
    requires t.tree == s.tree && t.applied == s.applied && t.pending == s.pending
    ensures Core(t, p)
  {
    assert AppliedOps(t, p) == AppliedOps(s, p);
  }

  lemma AppliedAfter(s: State, t: State, op: Op, p: set<Op>)
    requires Coherent(p + {op}) && op.id !in s.applied && t.applied == s.applied + {op.id}
    ensures op !in AppliedOps(s, p) && AppliedOps(t, p + {op}) == AppliedOps(s, p) + {op}
  {
    forall o | o in p + {op} && o.id in t.applied ensures o in AppliedOps(s, p) + {op} {
      if o.id == op.id { assert o == op; }
    }
  }

  lemma EffectMatches(s: State, op: Op, a: set<Op>)
    requires WF(s) && Ready(s.tree, op) && op.id !in s.applied && op !in a && Coherent(a + {op})
    requires Matches(s.tree, a) && forall o :: o in a ==> o.id in s.applied
    ensures Matches(Effect(s.tree, op), a + {op})
  {
    EffectBuilt(s, op, a);
    EffectFlags(s, op, a);
    EffectDoc(s, op);
    forall id | Some(id) in Keys(Effect(s.tree, op)) ensures Inserted(a + {op}, id) {
      if id == op.id {
        assert op in a + {op};
      } else {
        assert Inserted(a, id);
      }
    }
  }

  lemma PerformCore(s: State, op: Op, p: set<Op>)
    requires Core(s, p) && Ready(s.tree, op) && op.id !in s.applied && op.id.c <= s.clock && Coherent(p + {op})
    ensures Core(Perform(s, op), p + {op})
  {
    var a := AppliedOps(s, p);
    AppliedAfter(s, Perform(s, op), op, p);
    EffectMatches(s, op, a);
    forall id | id in s.applied + {op.id} ensures Named(a + {op}, id) {
      if id == op.id { assert op in a + {op}; } else { assert Named(a, id); }
    }
  }

  lemma DoApplyCore(s: State, op: Op, p: set<Op>)
    requires Core(s, p) && Ready(s.tree, op) && op.id !in s.applied && Coherent(p + {op})
    ensures Core(DoApply(s, op), p + {op})
  {
    CoreClock(s, Observe(s, op), p);
    PerformCore(Observe(s, op), op, p);
  }

  // ------------------------------------------------------------------ draining

  lemma RemoveMembers(q: seq<Op>, i: nat)
    requires i < |q|
    ensures forall o :: o in SeqRemove(q, i) ==> o in q
    ensures forall o :: o in q && o != q[i] ==> o in SeqRemove(q, i)
  {
    forall o | o in q && o != q[i] ensures o in SeqRemove(q, i) {
      var j :| 0 <= j < |q| && q[j] == o;
      assert o == SeqRemove(q, i)[if j < i then j else j - 1];
    }
  }

  lemma SpliceCore(s: State, i: nat, p: set<Op>)
    requires Core(s, p) && i < |s.pending| && s.pending[i].id in s.applied
    ensures Core(s.(pending := SeqRemove(s.pending, i)), p)
  {
    var t := s.(pending := SeqRemove(s.pending, i));
    RemoveMembers(s.pending, i);
    assert AppliedOps(t, p) == AppliedOps(s, p);
    assert s.pending[i] in p;
  }

  lemma DrainStepCore(s: State, i: nat, p: set<Op>)
    requires Core(s, p) && i < |s.pending|
    ensures Core(DrainStep(s, i), p)
  {
    var op := s.pending[i];
    assert op in p && p + {op} == p;
    if op.id in s.applied {
      SpliceCore(s, i, p);
    } else if Ready(s.tree, op) {
      DoApplyCore(s, op, p);
      SpliceCore(DoApply(s, op), i, p);
    }
  }

  lemma {:induction false} DrainDownToCore(s: State, i: nat, p: set<Op>)
    requires Core(s, p) && i <= |s.pending|
    ensures Core(DrainDownTo(s, i), p)
    decreases |s.pending| - i
  {
    if i < |s.pending| {
      DrainDownToCore(s, i + 1, p);
      DrainStepCore(DrainDownTo(s, i + 1), i, p);
    }
  }

  /** A sweep without progress saw nothing to discard or apply. */
  lemma {:induction false} NoProgress(s: State, i: nat)
    requires WF(s) && i <= |s.pending| && |DrainDownTo(s, i).pending| == |s.pending|
    ensures forall j :: i <= j < |s.pending| ==> s.pending[j].id !in s.applied && !Ready(s.tree, s.pending[j])
    decreases |s.pending| - i
  {
    hide WF, DoApply, Ready;
    if i < |s.pending| {
      NoProgress(s, i + 1);
      assert DrainDownTo(s, i + 1) == s;
    }
  }

  /** Draining ends with nothing left to do, and loses nothing received. */
  lemma {:induction false} DrainCore(s: State, p: set<Op>)
    requires Core(s, p)
    ensures Core(Drain(s), p) && Drained(Drain(s))
    decreases |s.pending|
  {
    DrainDownToCore(s, 0, p);
    var t := DrainDownTo(s, 0);
    if |t.pending| == |s.pending| { NoProgress(s, 0); } else { DrainCore(t, p); }
  }

  lemma ApplyRemoteCore(s: State, op: Op, context: Option<Context>, p: set<Op>)
    requires Core(s, p) && Drained(s) && Coherent(p + {op})
    ensures Core(ApplyRemote(s, op, context).state, p + {op}) && Drained(ApplyRemote(s, op, context).state)
  {
    hide DoApply, Drain, Matches, Unique, Placed;
    var s1 := RecordContext(s, op, context);
    CoreClock(s, s1, p);
    if op.id in s1.applied {
      assert Named(AppliedOps(s1, p), op.id);
      var o :| o in AppliedOps(s1, p) && o.id == op.id;
      assert o == op && p + {op} == p;
    } else if Ready(s1.tree, op) {
      DoApplyCore(s1, op, p);
      DrainCore(DoApply(s1, op), p + {op});
    } else {
      var t := s1.(pending := s1.pending + [op]);
      assert AppliedOps(t, p + {op}) == AppliedOps(s1, p);
      assert Core(t, p + {op});
    }
  }
}
