/** Seeding an engine from a snapshot's nodes by replaying them as remote operations. */
module SnapshotSeed {
  import opened Identifiers
  import opened Operations
  import opened FugueShape
  import opened EngineState
  import opened OpSets
  import opened Convergence
  import opened Seed
  import opened Engines
  import opened Replica
  import SnapshotBody
  import Texts
  import Bytes

  lemma ResumeNone(s: State)
    requires WF(s)
    ensures Resume(s, []) == s
  {
  }

  lemma DeliverNone(s: State)
    requires WF(s)
    ensures Deliver(s, []) == s
  {
  }

  lemma DeliverNext(s: State, q: seq<Op>, op: Op)
    requires WF(s)
    ensures Deliver(s, q + [op]) == ApplyRemote(Deliver(s, q), op, None).state
  {
    assert (q + [op])[..|q|] == q;
  }

  lemma WinningDeletesNext(nodes: seq<Node>, i: nat)
    requires i < |nodes| && forall n :: n in nodes && n.deleted ==> n.deletedBy.Some?
    ensures forall n :: (n in nodes[..i] || n in nodes[..i + 1]) && n.deleted ==> n.deletedBy.Some?
    ensures WinningDeletes(nodes[..i + 1])
         == WinningDeletes(nodes[..i]) + if nodes[i].deleted then [Delete(nodes[i].deletedBy.value, nodes[i].id)]
           else []
  {
    WinningDeletesConcat(nodes[..i], [nodes[i]]);
    assert nodes[..i + 1] == nodes[..i] + [nodes[i]];
    assert [nodes[i]][1..] == [];
  }

  lemma {:induction false} WinningDeletesConcat(a: seq<Node>, b: seq<Node>)
    requires forall n :: n in a + b && n.deleted ==> n.deletedBy.Some?
    ensures forall n :: (n in a || n in b) && n.deleted ==> n.deletedBy.Some?
    ensures WinningDeletes(a + b) == WinningDeletes(a) + WinningDeletes(b)
  {
    assert forall n :: n in a || n in b ==> n in a + b;
    if a == [] {
      assert a + b == b;
    } else {
      assert (a + b)[1..] == a[1..] + b;
      assert forall n :: n in a[1..] + b ==> n in a + b;
      WinningDeletesConcat(a[1..], b);
    }
  }

  method ReplayInserts(engine: Engine, nodes: seq<Node>)
    requires engine.Valid()
    modifies engine, engine.tree
    ensures engine.Valid() && engine.Abs() == Deliver(old(engine.Abs()), Origins(nodes))
  {
    hide Unique, EngineState.ApplyRemote, Deliver, WF, FugueTrees.FugueTree.Valid;
    ghost var start := engine.Abs();
    DeliverNone(start);
    assert Origins(nodes[..0]) == [];
    for i := 0 to |nodes|
      invariant engine.Valid() && WF(start) && engine.Abs() == Deliver(start, Origins(nodes[..i]))
    {
      var node := nodes[i];
      assert Origins(nodes[..i + 1]) == Origins(nodes[..i]) + [node.Origin()];
      DeliverNext(start, Origins(nodes[..i]), node.Origin());
      var _ := engine.ApplyRemote(Insert(node.id, node.value, node.parent, node.side, node.bind), None);
    }
    assert nodes[..|nodes|] == nodes;
  }

  method ReplayTombstones(engine: Engine, nodes: seq<Node>)
    requires engine.Valid() && forall n :: n in nodes && n.deleted ==> n.deletedBy.Some?
    modifies engine, engine.tree
    ensures engine.Valid() && engine.Abs() == Deliver(old(engine.Abs()), WinningDeletes(nodes))
  {
    hide Unique, EngineState.ApplyRemote;
    ghost var start := engine.Abs();
    assert WinningDeletes(nodes[..0]) == [];
    for i := 0 to |nodes|
      invariant engine.Valid() && WF(start) && forall n :: n in nodes[..i] && n.deleted ==> n.deletedBy.Some?
      invariant engine.Abs() == Deliver(start, WinningDeletes(nodes[..i]))
    {
      var node := nodes[i];
      WinningDeletesNext(nodes, i);
      ghost var sofar := WinningDeletes(nodes[..i]);
      if node.deleted {
        DeliverNext(start, sofar, Delete(node.deletedBy.value, node.id));
        var _ := engine.ApplyRemote(Delete(node.deletedBy.value, node.id), None);
      } else {
        assert sofar + [] == sofar;
      }
    }
    assert nodes[..|nodes|] == nodes;
  }

  /** Every node as an insert, then every tombstone's winning delete; the engine buffers what comes early. */
  method ReplaySnapshotNodesInto(engine: Engine, nodes: seq<Node>)
    requires engine.Valid() && forall n :: n in nodes && n.deleted ==> n.deletedBy.Some?
    modifies engine, engine.tree
    ensures engine.Valid() && engine.Abs() == Deliver(old(engine.Abs()), SeedOps(nodes))
  {
    ghost var start := engine.Abs();
    ReplayInserts(engine, nodes);
    ReplayTombstones(engine, nodes);
    DeliverConcat(start, Origins(nodes), WinningDeletes(nodes));
  }

  method SeedEngineFromSnapshot(replicaId: nat, nodes: seq<Node>) returns (engine: Engine)
    requires forall n :: n in nodes && n.deleted ==> n.deletedBy.Some?
    ensures fresh(engine) && fresh(engine.tree) && engine.Valid()
    ensures engine.Abs() == Deliver(Fresh(replicaId), SeedOps(nodes))
  {
    engine := new Engine(replicaId);
    ReplaySnapshotNodesInto(engine, nodes);
  }

  lemma ResumeNext(s: State, log: seq<LogEntry>, e: LogEntry)
    requires WF(s)
    ensures Resume(s, log + [e]) == ApplyRemote(Resume(s, log), e.op, Some(Context(e.seqno, e.atMs))).state
  {
    assert (log + [e])[..|log|] == log;
  }

  /** A coordinator's start: seed the fresh engine, replay the rest of the log, refuse if anything waits. */
  method WarmStartEngine(engine: Engine, snapshotNodes: Option<seq<Node>>, suffixOps: seq<LogEntry>) returns (ok: bool)
    requires engine.Valid() && engine.Abs() == Fresh(engine.replicaId)
    requires snapshotNodes.Some? ==> forall n :: n in snapshotNodes.value && n.deleted ==> n.deletedBy.Some?
    modifies engine, engine.tree
    ensures engine.Valid()
    ensures WarmStart(engine.replicaId, snapshotNodes, suffixOps) == if ok then Some(engine.Abs()) else None
  {
    hide EngineState.ApplyRemote, FugueTrees.FugueTree.Valid, WF, Resume;
    ResumeNone(engine.Abs());
    if snapshotNodes.Some? {
      ReplaySnapshotNodesInto(engine, snapshotNodes.value);
    }
    ghost var seeded := engine.Abs();
    ResumeNone(seeded);
    for i := 0 to |suffixOps|
      invariant engine.Valid() && WF(seeded) && engine.Abs() == Resume(seeded, suffixOps[..i])
    {
      var e := suffixOps[i];
      assert suffixOps[..i + 1] == suffixOps[..i] + [e];
      ResumeNext(seeded, suffixOps[..i], e);
      var _ := engine.ApplyRemote(e.op, Some(Context(e.seqno, e.atMs)));
    }
    assert suffixOps[..|suffixOps|] == suffixOps;
    ok := engine.pending == [];
  }

  /**
   * Sending a document as a snapshot body, decoding it and seeding a fresh replica rebuilds the document; the body
   * decodes to the document's nodes if and only if they hold characters only.
   */
  lemma TransferRebuilds(s: State, p: set<Op>, r: nat)
    requires Core(s, p) && SnapshotBody.Sendable(Flat(s.tree))
    ensures Seedable(s, p)
    ensures SnapshotBody.DecodedBody(SnapshotBody.BodyBytes(SnapshotBody.Group(Flat(s.tree)))) == Bytes.Ok(Flat(s.tree))
       <==> Texts.AllScalars(SnapshotBody.ValuesOf(Flat(s.tree)))
    ensures
      var t := Deliver(Fresh(r), SeedOps(Flat(s.tree)));
      t.tree == s.tree && t.pending == []
  {
    hide Core, SnapshotBody.BodyBytes, SnapshotBody.Group, SnapshotBody.DecodedBody, SnapshotBody.AllEncodable;
    SnapshotBody.SnapshotRoundTrip(Flat(s.tree));
    SeedingRebuilds(s, p, r);
  }
}
