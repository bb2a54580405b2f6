/** Rebuilding a replica from the nodes of a snapshot, and going on from there. */
module Seed {
  import opened Identifiers
  import opened Operations
  import opened FugueShape
  import opened FugueTrees
  import opened EngineState
  import opened Collection
  import opened OpSets
  import opened Replica
  import opened Convergence

  /** The tombstones' winning deletes, in snapshot order. */
  function WinningDeletes(nodes: seq<Node>): seq<Op>
    requires forall n :: n in nodes && n.deleted ==> n.deletedBy.Some?
  {
    if nodes == [] then []
    else
      assert nodes[0] in nodes;
      (if nodes[0].deleted then [Delete(nodes[0].deletedBy.value, nodes[0].id)] else []) + WinningDeletes(nodes[1..])
  }

  /** What a snapshot is replayed as: every node's insert, then the winning delete of every tombstone. */
  function SeedOps(nodes: seq<Node>): seq<Op>
    requires forall n :: n in nodes && n.deleted ==> n.deletedBy.Some?
  {
    Origins(nodes) + WinningDeletes(nodes)
  }

  lemma {:induction false} WinningDeletesSet(nodes: seq<Node>)
    requires forall n :: n in nodes && n.deleted ==> n.deletedBy.Some?
    ensures forall o :: o in WinningDeletes(nodes) <==>
              exists n :: n in nodes && n.deleted && o == Delete(n.deletedBy.value, n.id)
  {
    if nodes != [] {
      WinningDeletesSet(nodes[1..]);
      assert nodes == [nodes[0]] + nodes[1..];
      forall o ensures o in WinningDeletes(nodes) <==>
                         exists n :: n in nodes && n.deleted && o == Delete(n.deletedBy.value, n.id) {
        if o in WinningDeletes(nodes[1..]) {
          var n :| n in nodes[1..] && n.deleted && o == Delete(n.deletedBy.value, n.id);
          assert n in nodes;
        }
        assert nodes[0] in nodes;
      }
    }
  }

  lemma OriginsSet(nodes: seq<Node>)
    ensures forall o :: o in Origins(nodes) <==> exists n :: n in nodes && o == n.Origin()
  {
    forall o | o in Origins(nodes) ensures exists n :: n in nodes && o == n.Origin() {
      var i :| 0 <= i < |nodes| && Origins(nodes)[i] == o;
      assert nodes[i] in nodes;
    }
    forall n | n in nodes ensures n.Origin() in Origins(nodes) {
      var i :| 0 <= i < |nodes| && nodes[i] == n;
      assert Origins(nodes)[i] == n.Origin();
    }
  }

  // ------------------------------------------------------------------ the same operations

  ghost function Inserts(ops: set<Op>): set<Op> {
    set o | o in ops && o.Insert?
  }

  /** The shape depends on the inserts alone. */
  lemma {:induction false} BuiltInserts(f: Forest, a: set<Op>, b: set<Op>)
    requires Built(f, a) && Inserts(a) == Inserts(b)
    ensures Built(f, b)
  {
    if f.Trees? {
      BuiltInserts(f.left, a, b);
      BuiltInserts(f.right, a, b);
      BuiltInserts(f.rest, a, b);
      forall s: Side ensures KidOps(a, f.TopKey(), s) == KidOps(b, f.TopKey(), s) {
        forall o ensures o in KidOps(a, f.TopKey(), s) <==> o in KidOps(b, f.TopKey(), s) {
          assert o in Inserts(a) <==> o in Inserts(b);
        }
      }
      if f.top.Some? { assert f.top.value.Origin() in Inserts(a); }
    }
  }

  /** The seed of a replica's document consists of operations the replica applied. */
  lemma SeedIsApplied(s: State, p: set<Op>, o: Op)
    requires Core(s, p) && (forall n :: n in Flat(s.tree) && n.deleted ==> n.deletedBy.Some?)
    requires o in SeedOps(Flat(s.tree))
    ensures o in AppliedOps(s, p)
  {
    var a := AppliedOps(s, p);
    BuiltOrigins(s.tree, a);
    OriginsSet(Flat(s.tree));
    WinningDeletesSet(Flat(s.tree));
    if o !in Origins(Flat(s.tree)) {
      var n :| n in Flat(s.tree) && n.deleted && o == Delete(n.deletedBy.value, n.id);
      assert FlagOk(n, a);
      var d :| d in a && d.Delete? && d.target == n.id && d.id == n.deletedBy.value;
      assert d == o;
    }
  }

  /** The seed holds every insert the replica applied. */
  lemma SeedHasInserts(s: State, p: set<Op>, o: Op)
    requires Core(s, p) && (forall n :: n in Flat(s.tree) && n.deleted ==> n.deletedBy.Some?)
    requires o in AppliedOps(s, p) && o.Insert?
    ensures o in SeedOps(Flat(s.tree))
  {
    var a := AppliedOps(s, p);
    BuiltOrigins(s.tree, a);
    OriginsSet(Flat(s.tree));
    DocNodeBack(s.tree, o.id);
    var n := NodeAt(s.tree, o.id);
    assert n.Origin() in a && n.Origin().id == o.id;
    assert n.Origin() == o;
  }

  ghost predicate Seedable(s: State, p: set<Op>) {
    Core(s, p) && forall n :: n in Flat(s.tree) && n.deleted ==> n.deletedBy.Some?
  }

  lemma CoreSeedable(s: State, p: set<Op>)
    requires Core(s, p)
    ensures Seedable(s, p)
  {
    forall n | n in Flat(s.tree) && n.deleted ensures n.deletedBy.Some? { assert FlagOk(n, AppliedOps(s, p)); }
  }

  /** Seed and applied operations have the same inserts. */
  lemma SameInserts(s: State, p: set<Op>)
    requires Seedable(s, p)
    ensures Inserts(SetOf(SeedOps(Flat(s.tree)))) == Inserts(AppliedOps(s, p))
    ensures SetOf(SeedOps(Flat(s.tree))) <= AppliedOps(s, p)
  {
    forall o | o in SeedOps(Flat(s.tree)) ensures o in AppliedOps(s, p) { SeedIsApplied(s, p, o); }
    forall o | o in AppliedOps(s, p) && o.Insert? ensures o in SeedOps(Flat(s.tree)) { SeedHasInserts(s, p, o); }
  }

  // ------------------------------------------------------------------ the same tree

  /** A drained replica that received the seed applied all of it. */
  lemma SeedApplied(s: State, p: set<Op>, t: State, q: set<Op>)
    requires Seedable(s, p) && q == SetOf(SeedOps(Flat(s.tree))) && Core(t, q) && Drained(t)
    ensures AppliedOps(t, q) == q && t.pending == []
  {
    var a, x := AppliedOps(s, p), AppliedOps(t, q);
    SameInserts(s, p);
    AppliedIsLeastClosure(t, q);
    BuiltInserts(s.tree, a, Inserts(q));
    assert Inserts(Inserts(q)) == Inserts(q) && Inserts(a) == Inserts(q);
    KeysSupported(s.tree.left, None, L, Inserts(q), q, x);
    KeysSupported(s.tree.right, None, R, Inserts(q), q, x);
    forall o | o in q ensures o in x {
      assert o in a;
      assert Needs(o) in Keys(s.tree);
      assert Supported(x, o);
    }
    assert forall o :: o in t.pending ==> o in q;
    NoMembers(t.pending);
  }

  /** A tombstone of the original is one of the rebuilt document, with its attribution; nothing else is. */
  lemma SeedFlags(s: State, p: set<Op>, t: State, q: set<Op>, n: Node, m: Node)
    requires Seedable(s, p) && q == SetOf(SeedOps(Flat(s.tree))) && FlagOk(m, q)
    requires n in Flat(s.tree) && m.id == n.id
    ensures m.deletedBy == n.deletedBy && m.deleted == n.deleted
  {
    hide Unique, Placed, Built;
    WinningDeletesSet(Flat(s.tree));
    OriginsSet(Flat(s.tree));
    NodesUnique(s.tree);
    assert FlagOk(n, AppliedOps(s, p));
    if n.deleted {
      var d := Delete(n.deletedBy.value, n.id);
      assert d in q;
      assert DeletesOf(q, n.id) == {n.deletedBy.value};
      assert Greatest(n.deletedBy.value, DeletesOf(q, n.id));
      assert !UndoneBy(q, n.id, n.deletedBy.value.r);
    } else {
      assert DeletesOf(q, n.id) == {};
    }
  }

  /** Any replica that received exactly the seed of a document, in any order, holds that document. */
  lemma SeedRebuilds(s: State, p: set<Op>, t: State, q: set<Op>)
    requires Seedable(s, p) && q == SetOf(SeedOps(Flat(s.tree))) && Core(t, q) && Drained(t)
    ensures t.tree == s.tree && t.pending == [] && AppliedOps(t, q) == q
  {
    var a := AppliedOps(s, p);
    SeedApplied(s, p, t, q);
    SameInserts(s, p);
    BuiltInserts(t.tree, q, a);
    DocsSame(s.tree, t.tree, a);
    forall n, m | n in Flat(s.tree) && m in Flat(t.tree) && n.id == m.id
      ensures n.deletedBy == m.deletedBy && n.deleted == m.deleted
    {
      SeedFlags(s, p, t, q, n, m);
    }
    SameShapeSameFlags(s.tree, t.tree);
  }

  /** Seeding a fresh replica from the nodes of a document rebuilds it and leaves nothing waiting. */
  lemma SeedingRebuilds(s: State, p: set<Op>, r: nat)
    requires Core(s, p)
    ensures Seedable(s, p)
    ensures
      var t := Deliver(Fresh(r), SeedOps(Flat(s.tree)));
      t.tree == s.tree && t.pending == [] && (forall id :: id in t.applied ==> id in s.applied)
  {
    CoreSeedable(s, p);
    SameInserts(s, p);
    var q := SetOf(SeedOps(Flat(s.tree)));
    CoherentSub(p, q);
    FreshCore(r);
    assert {} + q == q;
    DeliverCore(Fresh(r), {}, SeedOps(Flat(s.tree)));
    var t := Deliver(Fresh(r), SeedOps(Flat(s.tree)));
    SeedRebuilds(s, p, t, q);
    forall id | id in t.applied ensures id in s.applied { assert Named(AppliedOps(t, q), id); }
  }

  // ------------------------------------------------------------------ going on

  /** Two replicas that differ only in what they remember of the identifiers in `past`. */
  ghost predicate Alike(s: State, t: State, past: set<Id>) {
    && WF(s) && WF(t) && s.tree == t.tree && s.pending == t.pending
    && (forall id :: id !in past ==> (id in s.applied <==> id in t.applied))
    && (forall o :: o in s.pending ==> o.id !in past)
  }

  lemma DoApplyAlike(s: State, t: State, past: set<Id>, op: Op)
    requires Alike(s, t, past) && op.id !in past && Ready(s.tree, op) && op.id !in s.applied
    ensures Alike(DoApply(s, op), DoApply(t, op), past)
  {
    hide Unique, Placed;
  }

  lemma SpliceAlike(s: State, t: State, past: set<Id>, i: nat)
    requires Alike(s, t, past) && i < |s.pending|
    ensures Alike(s.(pending := SeqRemove(s.pending, i)), t.(pending := SeqRemove(t.pending, i)), past)
  {
    hide Unique, Placed;
    RemoveMembers(s.pending, i);
  }

  lemma DrainStepAlike(s: State, t: State, past: set<Id>, i: nat)
    requires Alike(s, t, past) && i < |s.pending|
    ensures Alike(DrainStep(s, i), DrainStep(t, i), past)
  {
    hide Unique, Placed, Effect, EffectContext;
    var op := s.pending[i];
    assert op in s.pending;
    if op.id in s.applied {
      SpliceAlike(s, t, past, i);
    } else if Ready(s.tree, op) {
      DoApplyAlike(s, t, past, op);
      SpliceAlike(DoApply(s, op), DoApply(t, op), past, i);
    }
  }

  lemma {:induction false} DrainDownToAlike(s: State, t: State, past: set<Id>, i: nat)
    requires WF(s) && WF(t) && Alike(s, t, past) && i <= |s.pending| == |t.pending|
    ensures Alike(DrainDownTo(s, i), DrainDownTo(t, i), past)
    decreases |s.pending| - i
  {
    hide Unique, DrainStep, WF;
    if i < |s.pending| {
      DrainDownToAlike(s, t, past, i + 1);
      DrainStepAlike(DrainDownTo(s, i + 1), DrainDownTo(t, i + 1), past, i);
    }
  }

  lemma {:induction false} DrainAlike(s: State, t: State, past: set<Id>)
    requires WF(s) && WF(t) && Alike(s, t, past)
    ensures Alike(Drain(s), Drain(t), past)
    decreases |s.pending|
  {
    hide Unique, DrainDownTo, WF;
    DrainDownToAlike(s, t, past, 0);
    var u, v := DrainDownTo(s, 0), DrainDownTo(t, 0);
    if |u.pending| < |s.pending| { DrainAlike(u, v, past); }
  }

  /** A new operation does the same to both, whatever its commit record. */
  lemma ApplyAlike(s: State, t: State, past: set<Id>, op: Op, c: Option<Context>, e: Option<Context>)
    requires Alike(s, t, past) && op.id !in past
    ensures Alike(ApplyRemote(s, op, c).state, ApplyRemote(t, op, e).state, past)
  {
    hide Unique, Placed, Drain, Effect, EffectContext;
    var s1, t1 := RecordContext(s, op, c), RecordContext(t, op, e);
    assert Alike(s1, t1, past);
    if op.id !in s1.applied && Ready(s1.tree, op) {
      DoApplyAlike(s1, t1, past, op);
      DrainAlike(DoApply(s1, op), DoApply(t1, op), past);
    }
  }

  // ------------------------------------------------------------------ snapshot and log suffix

  datatype LogEntry = LogEntry(seqno: nat, op: Op, atMs: int)

  function Ops(log: seq<LogEntry>): seq<Op> {
    seq(|log|, i requires 0 <= i < |log| => log[i].op)
  }

  /** Applying a log suffix with its commit records. */
  function Resume(s: State, log: seq<LogEntry>): (t: State)
    requires WF(s)
    ensures WF(t)
  {
    if log == [] then s
    else
      var e := log[|log| - 1];
      ApplyRemote(Resume(s, log[..|log| - 1]), e.op, Some(Context(e.seqno, e.atMs))).state
  }

  lemma {:induction false} ResumeAlike(s: State, t: State, past: set<Id>, log: seq<LogEntry>)
    requires WF(s) && WF(t) && Alike(s, t, past) && forall e :: e in log ==> e.op.id !in past
    ensures Alike(Deliver(s, Ops(log)), Resume(t, log), past)
  {
    hide Unique, ApplyRemote, WF, Alike;
    if log == [] {
      assert Ops(log) == [];
    } else {
      var init, e := log[..|log| - 1], log[|log| - 1];
      assert Ops(log)[..|log| - 1] == Ops(init);
      assert e in log;
      ResumeAlike(s, t, past, init);
      ApplyAlike(Deliver(s, Ops(init)), Resume(t, init), past, e.op, None, Some(Context(e.seqno, e.atMs)));
    }
  }

  lemma {:induction false} DeliverConcat(s: State, a: seq<Op>, b: seq<Op>)
    requires WF(s)
    ensures Deliver(s, a + b) == Deliver(Deliver(s, a), b)
    decreases |b|
  {
    hide Unique, ApplyRemote, WF;
    if b == [] {
      assert a + b == a;
    } else {
      assert (a + b)[..|a + b| - 1] == a + b[..|b| - 1];
      DeliverConcat(s, a, b[..|b| - 1]);
    }
  }

  /** What a restarted coordinator holds; `None` where it refuses to start. */
  function WarmStart(r: nat, snapshot: Option<seq<Node>>, suffix: seq<LogEntry>): Option<State>
    requires snapshot.Some? ==> forall n :: n in snapshot.value && n.deleted ==> n.deletedBy.Some?
  {
    var t := Resume(if snapshot.Some? then Deliver(Fresh(r), SeedOps(snapshot.value)) else Fresh(r), suffix);
    if t.pending == [] then Some(t) else None
  }

  /** A snapshot's replica and the one seeded from it, before the suffix. */
  lemma SeededAlike(g: nat, prefix: seq<Op>, r: nat)
    requires Coherent(SetOf(prefix)) && Deliver(Fresh(g), prefix).pending == []
    ensures
      var s := Deliver(Fresh(g), prefix);
      && (forall n :: n in Flat(s.tree) && n.deleted ==> n.deletedBy.Some?)
      && Alike(s, Deliver(Fresh(r), SeedOps(Flat(s.tree))), s.applied)
      && forall id :: id in s.applied ==> Named(SetOf(prefix), id)
  {
    var s := Deliver(Fresh(g), prefix);
    FreshCore(g);
    assert {} + SetOf(prefix) == SetOf(prefix);
    DeliverCore(Fresh(g), {}, prefix);
    SeedingRebuilds(s, SetOf(prefix), r);
    forall id | id in s.applied ensures Named(SetOf(prefix), id) {
      assert Named(AppliedOps(s, SetOf(prefix)), id);
    }
  }

  /**
   * Starting from the nodes a log prefix left (nothing waiting) and applying the rest of the log is
   * replaying the whole log: the same tree, the same buffer, and a start refused exactly when the
   * full replay leaves something waiting.
   */
  lemma WarmStartIsReplay(g: nat, prefix: seq<Op>, r: nat, suffix: seq<LogEntry>)
    requires Coherent(SetOf(prefix)) && Deliver(Fresh(g), prefix).pending == []
    requires forall e, o :: e in suffix && o in prefix ==> e.op.id != o.id
    ensures
      var s, full := Deliver(Fresh(g), prefix), Deliver(Fresh(g), prefix + Ops(suffix));
      && (forall n :: n in Flat(s.tree) && n.deleted ==> n.deletedBy.Some?)
      && var w := WarmStart(r, Some(Flat(s.tree)), suffix);
      && (w.Some? <==> full.pending == [])
      && (w.Some? ==> w.value.tree == full.tree)
  {
    hide Unique, Placed, ApplyRemote, Core, Coherent;
    var s := Deliver(Fresh(g), prefix);
    SeededAlike(g, prefix, r);
    forall e | e in suffix ensures e.op.id !in s.applied {
      assert e.op.id in s.applied ==> Named(SetOf(prefix), e.op.id);
    }
    ResumeAlike(s, Deliver(Fresh(r), SeedOps(Flat(s.tree))), s.applied, suffix);
    DeliverConcat(Fresh(g), prefix, Ops(suffix));
  }
}
