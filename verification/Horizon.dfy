/** Which tombstones a collection takes: the undo horizon in time and in operations. */
module Horizon {
  import opened Identifiers
  import opened Operations
  import opened FugueShape
  import opened EngineState
  import opened Collection
  import opened Convergence

  // ------------------------------------------------------------------ what goes

  /** Deleted, its commit recorded within the frontier, and far enough back in time or in operations. */
  ghost predicate PastHorizon(s: State, frontier: nat, o: Options, n: Node) {
    && n.deleted && n.deletedBy.Some? && n.deletedBy.value in s.deleteContext
    && var w := n.deletedBy.value; var record := s.deleteContext[w];
    && record.seqno <= frontier
    && (o.nowMs - record.atMs >= o.maxAgeMs
        || (if w.r in s.maxCounter then s.maxCounter[w.r] else w.c) >= w.c + o.maxOpsPerReplica)
  }

  /** What hangs from members of a subtree is in it. */
  lemma SubtreeClosed(d: Forest, k: Key)
    requires IsDoc(d) && k in Keys(d)
    ensures ChildClosed(Flat(d), Keys(Find(d, k)))
  {
    hide Unique, Placed;
    forall m | m in Flat(d) && m.parent.Some? && m.parent in Keys(Find(d, k)) ensures Some(m.id) in Keys(Find(d, k)) {
      ChildBelow(d, m);
      DocUnique(d);
      FindSub(d, k, m.parent);
      DocFind(d, k);
      FindWithin(Find(d, k), m.parent);
    }
  }

  lemma DocUnique(d: Forest)
    requires IsDoc(d)
    ensures Unique(d)
  {
  }

  /** A set closed under children that holds a node holds its whole subtree. */
  lemma ClosedHoldsSubtree(d: Forest, k: Key, c: set<Key>)
    requires IsDoc(d) && k in Keys(d) && k.Some? && k in c && ChildClosed(Flat(d), c)
    ensures Keys(Find(d, k)) <= c
  {
    hide Unique;
    DocFind(d, k);
    var t := Find(d, k);
    FlatContext(d, k);
    assert forall n :: n in Flat(t) ==> n in Flat(d);
    assert Flat(t) == Flat(t.left) + t.Self() + Flat(t.right) + Flat(t.rest);
    ClosedBelowIfChildClosed(t.left, k, L, Flat(d), c);
    ClosedBelowIfChildClosed(t.right, k, R, Flat(d), c);
  }

  lemma AmongCandidates(s: State, frontier: nat, o: Options, n: Node)
    requires WF(s) && n in Flat(s.tree)
    ensures Some(n.id) in Candidates(s, frontier, o) <==> PastHorizon(s, frontier, o, n)
  {
    hide Unique, Placed;
    NodesUnique(s.tree);
    assert IsCandidate(s, frontier, o, n) <==> PastHorizon(s, frontier, o, n);
  }

  /** The nodes of a subtree carry its keys. */
  lemma SubtreeNodes(d: Forest, k: Key)
    requires IsDoc(d) && k in Keys(d) && k.Some?
    ensures forall m :: m in Flat(Find(d, k)) ==> m in Flat(d) && Some(m.id) in Keys(Find(d, k))
    ensures forall j :: j in Keys(Find(d, k)) ==> exists m :: m in Flat(Find(d, k)) && j == Some(m.id)
  {
    DocFind(d, k);
    FlatContext(d, k);
    TreeNodes(Find(d, k), k);
  }

  lemma TreeNodes(t: Forest, k: Key)
    requires t.Trees? && t.TopKey() == k && k.Some? && t.rest.Empty? && Placed(t.left, k, L) && Placed(t.right, k, R)
    ensures forall m :: m in Flat(t) ==> Some(m.id) in Keys(t)
    ensures forall j :: j in Keys(t) ==> exists m :: m in Flat(t) && j == Some(m.id)
  {
    FlatKeys(t.left, k, L);
    FlatKeys(t.right, k, R);
    hide Placed;
    assert Flat(t) == Flat(t.left) + t.Self() + Flat(t.right) + Flat(t.rest);
    assert t.top.value in t.Self();
  }

  lemma KeysAfter(s: State, frontier: nat, o: Options)
    requires WF(s)
    ensures
      var c := Sweep(Flat(s.tree), Candidates(s, frontier, o));
      && c <= Candidates(s, frontier, o) && ChildClosed(Flat(s.tree), c) && None !in c
      && Keys(Collect(s, frontier, o).tree) == Keys(s.tree) - c
  {
    hide Unique, Placed, IsCandidate, Sweep;
    SweepGreatest(Flat(s.tree), Candidates(s, frontier, o));
    ClosedDoc(s.tree, Sweep(Flat(s.tree), Candidates(s, frontier, o)));
  }

  /** A node leaves the document exactly if it and everything below it is past the horizon. */
  lemma CollectsExactly(s: State, frontier: nat, o: Options, n: Node)
    requires WF(s) && n in Flat(s.tree)
    ensures Some(n.id) in Keys(s.tree)
    ensures Some(n.id) !in Keys(Collect(s, frontier, o).tree)
       <==> forall m :: m in Flat(Find(s.tree, Some(n.id))) ==> PastHorizon(s, frontier, o, m)
  {
    hide Unique, Placed, IsCandidate, Sweep, PastHorizon, Candidates, Collect;
    var k, c0 := Some(n.id), Candidates(s, frontier, o);
    var c := Sweep(Flat(s.tree), c0);
    DocNode(s.tree, n);
    KeysAfter(s, frontier, o);
    SubtreeNodes(s.tree, k);
    var below := Keys(Find(s.tree, k));
    forall m | m in Flat(Find(s.tree, k)) ensures Some(m.id) in c0 <==> PastHorizon(s, frontier, o, m) {
      AmongCandidates(s, frontier, o, m);
    }
    FindWithin(s.tree, k);
    if k in c {
      ClosedHoldsSubtree(s.tree, k, c);
    } else if forall m :: m in Flat(Find(s.tree, k)) ==> PastHorizon(s, frontier, o, m) {
      SubtreeClosed(s.tree, k);
      SweepGreatest(Flat(s.tree), c0);
    }
  }

  lemma ChildlessAlone(d: Forest, n: Node)
    requires IsDoc(d) && n in Flat(d) && forall m :: m in Flat(d) ==> m.parent != Some(n.id)
    ensures Some(n.id) in Keys(d) && Flat(Find(d, Some(n.id))) == [n]
  {
    hide Unique, Placed;
    DocNode(d, n);
    NoKids(d, Some(n.id));
    var t := Find(d, Some(n.id));
    assert t.top == Some(n) && t.rest.Empty?;
  }

  lemma OnlyItself(s: State, frontier: nat, o: Options, n: Node)
    ensures (forall m :: m in [n] ==> PastHorizon(s, frontier, o, m)) <==> PastHorizon(s, frontier, o, n)
    ensures PastHorizon(s, frontier, o, n) <==>
      && n.deleted && n.deletedBy.Some? && n.deletedBy.value in s.deleteContext
      && var w := n.deletedBy.value; var record := s.deleteContext[w];
      && record.seqno <= frontier
      && (o.nowMs - record.atMs >= o.maxAgeMs
          || (if w.r in s.maxCounter then s.maxCounter[w.r] else w.c) >= w.c + o.maxOpsPerReplica)
  {
  }

  /**
   * A childless tombstone is collected exactly if its deletion's commit is recorded within the frontier and it lies
   * back far enough in time or in operations of the replica that deleted it; a node that is shown never is.
   */
  lemma ChildlessGoes(s: State, frontier: nat, o: Options, n: Node)
    requires WF(s) && n in Flat(s.tree) && forall m :: m in Flat(s.tree) ==> m.parent != Some(n.id)
    ensures Some(n.id) in Keys(s.tree)
    ensures Some(n.id) !in Keys(Collect(s, frontier, o).tree) <==>
      && n.deleted && n.deletedBy.Some? && n.deletedBy.value in s.deleteContext
      && var w := n.deletedBy.value; var record := s.deleteContext[w];
      && record.seqno <= frontier
      && (o.nowMs - record.atMs >= o.maxAgeMs
          || (if w.r in s.maxCounter then s.maxCounter[w.r] else w.c) >= w.c + o.maxOpsPerReplica)
  {
    hide Unique, Placed, Collect, PastHorizon;
    CollectsExactly(s, frontier, o, n);
    ChildlessAlone(s.tree, n);
    OnlyItself(s, frontier, o, n);
  }

  // ------------------------------------------------------------------ where the counters come from

  /** Every replica's highest counter among the operations applied is noted, and the clock is the highest of all. */
  ghost predicate Counted(s: State) {
    && (forall id :: id in s.applied ==> id.r in s.maxCounter && id.c <= s.maxCounter[id.r] && id.c <= s.clock)
    && (forall x :: x in s.maxCounter ==> Id(s.maxCounter[x], x) in s.applied)
    && (s.clock > 0 ==> exists id :: id in s.applied && id.c == s.clock)
  }

  lemma FreshCounted(r: nat)
    ensures Counted(Fresh(r))
  {
  }

  lemma DoApplyCounted(s: State, op: Op)
    requires WF(s) && Counted(s) && Ready(s.tree, op) && op.id !in s.applied
    ensures Counted(DoApply(s, op))
  {
    hide IsDoc, StackOk, Effect, EffectContext, Ready;
    var t := DoApply(s, op);
    assert op.id in t.applied && t.clock == Max(s.clock, op.id.c);
    forall x | x in t.maxCounter ensures Id(t.maxCounter[x], x) in t.applied {
      if x == op.id.r { assert t.maxCounter[x] == op.id.c ==> Id(t.maxCounter[x], x) == op.id; }
    }
  }

  lemma SameCounted(s: State, t: State)
    requires Counted(s) && t.applied == s.applied && t.maxCounter == s.maxCounter && t.clock == s.clock
    ensures Counted(t)
  {
  }

  lemma StepCounted(s: State, i: nat)
    requires WF(s) && Counted(s) && i < |s.pending|
    ensures Counted(DrainStep(s, i))
  {
    hide Counted, WF, DoApply, Ready;
    var op := s.pending[i];
    if op.id in s.applied {
      SameCounted(s, DrainStep(s, i));
    } else if Ready(s.tree, op) {
      DoApplyCounted(s, op);
      SameCounted(DoApply(s, op), DrainStep(s, i));
    }
  }

  lemma {:induction false} DownToCounted(s: State, i: nat)
    requires WF(s) && Counted(s) && i <= |s.pending|
    ensures Counted(DrainDownTo(s, i))
    decreases |s.pending| - i
  {
    hide Counted, WF, DrainStep;
    if i < |s.pending| {
      DownToCounted(s, i + 1);
      StepCounted(DrainDownTo(s, i + 1), i);
    }
  }

  lemma {:induction false} DrainCounted(s: State)
    requires WF(s) && Counted(s)
    ensures Counted(Drain(s))
    decreases |s.pending|
  {
    hide Counted, WF, DrainDownTo;
    DownToCounted(s, 0);
    var t := DrainDownTo(s, 0);
    if |t.pending| < |s.pending| { DrainCounted(t); }
  }

  lemma RecordedWF(s: State, op: Op, context: Option<Context>)
    requires WF(s)
    ensures WF(RecordContext(s, op, context))
  {
  }

  lemma RemoteCounted(s: State, op: Op, context: Option<Context>)
    requires WF(s) && Counted(s)
    ensures Counted(ApplyRemote(s, op, context).state)
  {
    hide Counted, WF, Drain, DoApply, Ready;
    var s1 := RecordContext(s, op, context);
    RecordedWF(s, op, context);
    SameCounted(s, s1);
    if op.id in s1.applied {
    } else if Ready(s1.tree, op) {
      DoApplyCounted(s1, op);
      DrainCounted(DoApply(s1, op));
    } else {
      SameCounted(s1, s1.(pending := s1.pending + [op]));
    }
  }

  /**
   * After any deliveries the counter noted for a replica is the greatest among its applied operations, none is noted
   * where there is none, and the clock is the greatest counter of all.
   */
  lemma {:induction false} DeliveredCounters(r: nat, q: seq<Op>)
    ensures Counted(Deliver(Fresh(r), q))
    decreases |q|
  {
    hide Counted, ApplyRemote;
    if q == [] {
      FreshCounted(r);
    } else {
      DeliveredCounters(r, q[..|q| - 1]);
      RemoteCounted(Deliver(Fresh(r), q[..|q| - 1]), q[|q| - 1], None);
    }
  }

  /** So the half in operations is met once the deleting replica is that many counters past the deletion. */
  lemma NotedMeans(s: State, w: Id, more: int)
    requires Counted(s) && w in s.applied
    ensures w.r in s.maxCounter
    ensures s.maxCounter[w.r] >= w.c + more <==> exists id :: id in s.applied && id.r == w.r && id.c >= w.c + more
  {
    assert Id(s.maxCounter[w.r], w.r) in s.applied;
  }
}
