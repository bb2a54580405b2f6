/** The coordinator of one open document: the write path, the sweep and the commit queue over mutable state. */
module Coordinators {
  import opened Identifiers
  import opened Operations
  import opened FugueTrees
  import opened Convergence
  import opened EngineState
  import opened Intake
  import opened Coordination
  import opened Eviction
  import opened Commits
  import opened Durability
  import opened Engines
  import opened Seed
  import opened SnapshotSeed

  const SERVER_REPLICA_ID: nat := 0

  datatype RejectReason = DocumentLocked | PermissionDenied | IdentityMismatch | RateLimited

  datatype Reply = Ignored | Rejected(reason: RejectReason) | Accepted(fast: bool)

  lemma TakeMore(s: State, ops: seq<Op>, i: nat)
    requires WF(s) && i < |ops|
    ensures
      var before := TakeAll(s, ops[..i]);
      var d := ApplyRemote(before.state, ops[i], None);
      TakeAll(s, ops[..i + 1]) == Taken(d.state, before.buffered + [d.buffered])
  {
    assert ops[..i + 1] == ops[..i] + [ops[i]];
    TakeAllNext(s, ops[..i], ops[i]);
  }

  lemma RecordMore(origins: map<Id, Origin>, ops: seq<Op>, op: Op, origin: Origin)
    ensures RecordOrigins(origins, ops + [op], origin) == RecordOrigins(origins, ops, origin)[op.id := origin]
  {
    assert IdsOf(ops + [op]) == IdsOf(ops) + {op.id} by {
      assert forall o :: o in ops + [op] <==> o in ops || o == op;
    }
  }

  lemma RecordNothing(origins: map<Id, Origin>, origin: Origin)
    ensures RecordOrigins(origins, [], origin) == origins
  {
  }

  lemma {:induction false} DepartedConcat(a: seq<Op>, b: seq<Op>, ids: set<Id>)
    ensures Departed(a + b, ids) == Departed(a, ids) + Departed(b, ids)
  {
    if a == [] {
      assert a + b == b;
    } else {
      assert (a + b)[1..] == a[1..] + b;
      DepartedConcat(a[1..], b, ids);
      RegroupPrefix3(if a[0].id in ids then [] else [a[0]], Departed(a[1..], ids), Departed(b, ids));
    }
  }

  lemma DepartedMore(q: seq<Op>, i: nat, ids: set<Id>)
    requires i < |q|
    ensures Departed(q[..i + 1], ids) == Departed(q[..i], ids) + if q[i].id in ids then [] else [q[i]]
  {
    assert q[..i + 1] == q[..i] + [q[i]] && [q[i]][1..] == [];
    DepartedConcat(q[..i], [q[i]], ids);
  }

  lemma {:induction false} DepartedDistinct(q: seq<Op>, ids: set<Id>)
    requires DistinctIds(q)
    ensures DistinctIds(Departed(q, ids)) && forall o :: o in Departed(q, ids) ==> o in q
  {
    if q != [] {
      var d := Departed(q[1..], ids);
      DepartedDistinct(q[1..], ids);
      assert q == [q[0]] + q[1..];
      forall j | 0 <= j < |d| ensures d[j].id != q[0].id {
        assert d[j] in q[1..];
        var k :| 0 <= k < |q[1..]| && q[1..][k] == d[j];
        assert q[k + 1] == d[j];
      }
    }
  }

  lemma WithOriginsMore(q: seq<Op>, i: nat, origins: map<Id, Origin>)
    requires i < |q|
    ensures WithOrigins(q[..i + 1], origins)
         == WithOrigins(q[..i], origins) + if q[i].id in origins then [Sent(q[i], origins[q[i].id])] else []
  {
    assert q[..i + 1] == q[..i] + [q[i]] && [q[i]][1..] == [];
    WithOriginsConcat(q[..i], [q[i]], origins);
  }

  lemma IdsOfMore(q: seq<Op>, i: nat)
    requires i < |q|
    ensures IdsOf(q[..i + 1]) == IdsOf(q[..i]) + {q[i].id}
    ensures DistinctIds(q) ==> q[i].id !in IdsOf(q[..i])
  {
    assert q[..i + 1] == q[..i] + [q[i]];
    assert forall o :: o in q[..i + 1] <==> o in q[..i] || o == q[i];
  }

  lemma RecordDeletesMore(s: State, finals: seq<Final>, i: nat, nowMs: int)
    requires i < |finals|
    ensures
      var before, f := RecordDeletes(s, finals[..i], nowMs), finals[i];
      RecordDeletes(s, finals[..i + 1], nowMs)
        == if f.sent.op.Delete?
           then before.(deleteContext := before.deleteContext[f.sent.op.id := Context(f.seqno, nowMs)]) else before
  {
    assert finals[..i + 1][..i] == finals[..i];
  }

  class Coordinator {
    const engine: Engine
    var currentSeq: nat
    var lastCommittedSeq: nat
    var pendingOpOrigin: map<Id, Origin>
    var pendingFirstSeenAtMs: map<Id, int>
    /** Every commit ever queued; the first `|settled|` of them have been executed. */
    var commitQueue: seq<Commit>
    var settled: seq<bool>
    ghost var finalized: seq<Final>
    ghost var evicted: seq<Sent>
    ghost var accepted: seq<Sent>
    ghost var durable: seq<Final>
    var acked: seq<Final>

    ghost function Abs(): Server
      reads this, engine, engine.tree
    {
      Server(engine.Abs(), currentSeq, pendingOpOrigin, pendingFirstSeenAtMs, commitQueue, finalized, evicted, accepted)
    }

    ghost function Desk(): Desk
      reads this, engine, engine.tree
    {
      Commits.Desk(Abs(), settled, lastCommittedSeq, durable, acked)
    }

    ghost predicate Valid()
      reads this, engine, engine.tree
    {
      engine.Valid() && |settled| <= |commitQueue|
    }

    constructor ()
      ensures Valid() && fresh(engine) && fresh(engine.tree)
      ensures Desk() == Opened(Fresh(SERVER_REPLICA_ID), 0)
    {
      engine := new Engine(SERVER_REPLICA_ID);
      currentSeq, lastCommittedSeq := 0, 0;
      pendingOpOrigin, pendingFirstSeenAtMs := map[], map[];
      commitQueue, settled := [], [];
      finalized, evicted, accepted, durable, acked := [], [], [], [], [];
    }

    /** Seeds the new coordinator's engine and takes up the persisted numbering; refuses if anything waits. */
    method WarmStart(snapshotNodes: Option<seq<Node>>, suffixOps: seq<LogEntry>, persistedSeq: nat) returns (ok: bool)
      requires Valid() && Desk() == Opened(Fresh(engine.replicaId), 0)
      requires snapshotNodes.Some? ==> forall n :: n in snapshotNodes.value && n.deleted ==> n.deletedBy.Some?
      modifies this, engine, engine.tree
      ensures Valid()
      ensures ok <==> Seed.WarmStart(engine.replicaId, snapshotNodes, suffixOps).Some?
      ensures ok ==> Desk() == Opened(Seed.WarmStart(engine.replicaId, snapshotNodes, suffixOps).value, persistedSeq)
      ensures ok ==> Quiet(engine.Abs()) && engine.pending == []
    {
      hide FugueTrees.FugueTree.Valid, Resume, Deliver;
      ok := WarmStartEngine(engine, snapshotNodes, suffixOps);
      if ok {
        currentSeq, lastCommittedSeq := persistedSeq, persistedSeq;
      }
    }

    /** What the write path and the sweep leave alone. */
    twostate predicate SettlementUnchanged()
      reads this
    {
      settled == old(settled) && lastCommittedSeq == old(lastCommittedSeq) && durable == old(durable)
        && acked == old(acked)
    }

    /** Applies the operations in order and notes the sender of every one buffered. */
    method ApplyMessage(ops: seq<Op>, origin: Origin) returns (buffered: seq<bool>)
      requires engine.Valid()
      modifies this`pendingOpOrigin, engine, engine.tree
      ensures engine.Valid() && |buffered| == |ops|
      ensures Taken(engine.Abs(), buffered) == TakeAll(old(engine.Abs()), ops)
      ensures pendingOpOrigin == RecordOrigins(old(pendingOpOrigin), Picked(ops, buffered, true), origin)
    {
      hide EngineState.ApplyRemote, FugueTrees.FugueTree.Valid, TakeAll, RecordOrigins, WF;
      ghost var start := engine.Abs();
      ghost var before := pendingOpOrigin;
      buffered := [];
      TakeNone(start);
      RecordNothing(before, origin);
      assert ops[..0] == [];
      for i := 0 to |ops|
        invariant engine.Valid() && WF(start) && |buffered| == i
        invariant Taken(engine.Abs(), buffered) == TakeAll(start, ops[..i])
        invariant pendingOpOrigin == RecordOrigins(before, Picked(ops[..i], buffered, true), origin)
      {
        TakeMore(start, ops, i);
        var b := engine.ApplyRemote(ops[i], None);
        PickedMore(ops[..i], buffered, ops[i], b);
        assert ops[..i + 1] == ops[..i] + [ops[i]];
        if b {
          RecordMore(before, Picked(ops[..i], buffered, true), ops[i], origin);
          pendingOpOrigin := pendingOpOrigin[ops[i].id := origin];
        } else {
          assert Picked(ops[..i], buffered, true) + [] == Picked(ops[..i], buffered, true);
        }
        buffered := buffered + [b];
      }
      assert ops[..|ops|] == ops;
    }

    /** The buffer as a map by identifier. */
    method PendingBefore() returns (before: seq<Op>)
      ensures before == ById(engine.pending)
    {
      before := [];
      for i := 0 to |engine.pending|
        invariant before == ById(engine.pending[..i])
      {
        assert engine.pending[..i + 1][..i] == engine.pending[..i];
        before := Upsert(before, engine.pending[i]);
      }
      assert engine.pending[..|engine.pending|] == engine.pending;
    }

    /** The buffered operations that left the buffer, in their old order. */
    method SideEffects(before: seq<Op>) returns (freed: seq<Op>)
      ensures freed == Departed(before, IdsOf(engine.pending))
    {
      var still := IdsOf(engine.pending);
      freed := [];
      for i := 0 to |before|
        invariant freed == Departed(before[..i], still)
      {
        DepartedMore(before, i, still);
        if before[i].id !in still {
          freed := freed + [before[i]];
        }
      }
      assert before[..|before|] == before;
    }

    /** Gives every finalized delete its commit record. */
    method RecordContexts(finals: seq<Final>, nowMs: int)
      requires engine.Valid()
      modifies engine
      ensures engine.Valid() && engine.Abs() == RecordDeletes(old(engine.Abs()), finals, nowMs)
    {
      hide FugueTrees.FugueTree.Valid, WF;
      ghost var start := engine.Abs();
      assert finals[..0] == [];
      for i := 0 to |finals|
        invariant engine.Valid() && engine.Abs() == RecordDeletes(start, finals[..i], nowMs)
      {
        RecordDeletesMore(start, finals, i, nowMs);
        var f := finals[i];
        if f.sent.op.Delete? {
          engine.SetDeleteContext(f.sent.op.id, Context(f.seqno, nowMs));
        }
      }
      assert finals[..|finals|] == finals;
    }

    /** Queues a commit behind every earlier one. */
    method EnqueueCommit(c: Commit)
      modifies this`commitQueue
      ensures commitQueue == old(commitQueue) + [c]
    {
      commitQueue := commitQueue + [c];
    }

    method RunFastPath(ops: seq<Op>, origin: Origin, nowMs: int)
      requires Valid()
      modifies this, engine
      ensures Valid() && Abs() == FastPath(old(Abs()), ops, origin, nowMs)
      ensures SettlementUnchanged()
    {
      hide RecordDeletes, FugueTrees.FugueTree.Valid, WF;
      var startSeq := currentSeq + 1;
      var items := SentBy(ops, origin);
      var finals := Numbered(items, currentSeq);
      RecordContexts(finals, nowMs);
      currentSeq := currentSeq + |ops|;
      finalized := finalized + finals;
      EnqueueCommit(Commit(startSeq, ops, origin));
    }

    /** Looks the senders of freed operations up and takes them off the record. */
    method TakeOrigins(freed: seq<Op>) returns (items: seq<Sent>)
      requires DistinctIds(freed)
      modifies this`pendingOpOrigin
      ensures items == WithOrigins(freed, old(pendingOpOrigin))
      ensures pendingOpOrigin == old(pendingOpOrigin) - IdsOf(freed)
    {
      ghost var start := pendingOpOrigin;
      items := [];
      assert IdsOf(freed[..0]) == {};
      for i := 0 to |freed|
        invariant items == WithOrigins(freed[..i], start) && pendingOpOrigin == start - IdsOf(freed[..i])
      {
        WithOriginsMore(freed, i, start);
        IdsOfMore(freed, i);
        var key := freed[i].id;
        if key in pendingOpOrigin {
          items := items + [Sent(freed[i], pendingOpOrigin[key])];
        }
        pendingOpOrigin := pendingOpOrigin - {key};
      }
      assert freed[..|freed|] == freed;
    }

    method RunSlowPath(ready: seq<Op>, freed: seq<Op>, origin: Origin, nowMs: int)
      requires Valid() && DistinctIds(freed)
      modifies this, engine
      ensures Valid() && Abs() == SlowPath(old(Abs()), ready, freed, origin, nowMs)
      ensures SettlementUnchanged()
    {
      hide RecordDeletes, FugueTrees.FugueTree.Valid, WF, WithOrigins;
      var resolved := TakeOrigins(freed);
      var items := SentBy(ready, origin) + resolved;
      var finals := Numbered(items, currentSeq);
      RecordContexts(finals, nowMs);
      currentSeq := currentSeq + |items|;
      finalized := finalized + finals;
      QueueEach(finals);
    }

    /** One commit for each finalized operation, in order. */
    method QueueEach(finals: seq<Final>)
      modifies this`commitQueue
      ensures commitQueue == old(commitQueue) + OneCommitEach(finals)
    {
      ghost var start := commitQueue;
      for i := 0 to |finals|
        invariant commitQueue == start + OneCommitEach(finals)[..i]
      {
        EnqueueCommit(Commit(finals[i].seqno, [finals[i].sent.op], finals[i].sent.origin));
      }
    }

    /** Everything after the checks: no other message can come in between. */
    method AcceptMessage(ops: seq<Op>, origin: Origin, nowMs: int) returns (fast: bool)
      requires Valid()
      modifies this, engine, engine.tree
      ensures Valid() && Abs() == Accept(old(Abs()), ops, origin, nowMs)
      ensures SettlementUnchanged()
    {
      hide TakeAll, FastPath, SlowPath, RecordOrigins, Picked, Departed, ById, FugueTrees.FugueTree.Valid, WF;
      var pendingBefore := PendingBefore();
      ByIdExact(engine.pending);
      var buffered := ApplyMessage(ops, origin);
      accepted := accepted + SentBy(ops, origin);
      var freed := SideEffects(pendingBefore);
      DepartedDistinct(pendingBefore, IdsOf(engine.pending));
      fast := Picked(ops, buffered, true) == [] && freed == [];
      if fast {
        RunFastPath(ops, origin, nowMs);
      } else {
        RunSlowPath(Picked(ops, buffered, false), freed, origin, nowMs);
      }
    }

    method ProcessIncomingOperation(m: Message, origin: Origin, locked: bool, authorized: bool, withinRate: bool,
      nowMs: int)
      returns (reply: Reply)
      requires Valid()
      modifies this, engine, engine.tree
      ensures Valid() && SettlementUnchanged()
      ensures reply.Ignored? <==> ToOperations(m) == []
      ensures Abs() == if reply.Accepted? then Process(old(Abs()), m, origin, nowMs) else old(Abs())
      ensures ToOperations(m) != [] ==>
        var own := ToOperations(m)[0].id.r == origin.replica;
        && (reply.Accepted? <==> !locked && authorized && own && withinRate)
        && (reply == Rejected(DocumentLocked) <==> locked)
        && (reply == Rejected(PermissionDenied) <==> !locked && !authorized)
        && (reply == Rejected(IdentityMismatch) <==> !locked && authorized && !own)
        && (reply == Rejected(RateLimited) <==> !locked && authorized && own && !withinRate)
      ensures reply.Accepted? ==>
        FirstIsOwn(ToOperations(m), origin) && forall o :: o in ToOperations(m) ==> o.id.r == origin.replica
    {
      hide Accept, FugueTrees.FugueTree.Valid, WF;
      var ops := ToOperations(m);
      if ops == [] {
        return Ignored;
      }
      if locked {
        return Rejected(DocumentLocked);
      }
      if !authorized {
        return Rejected(PermissionDenied);
      }
      if ops[0].id.r != origin.replica {
        return Rejected(IdentityMismatch);
      }
      if !withinRate {
        return Rejected(RateLimited);
      }
      AllAreOwn(m, origin);
      var fast := AcceptMessage(ops, origin, nowMs);
      reply := Accepted(fast);
    }

    /** The store's answer to the oldest commit still outstanding. */
    method SettleCommit(ok: bool)
      requires Valid() && |settled| < |commitQueue|
      modifies this`settled, this`lastCommittedSeq, this`durable
      ensures Valid() && Desk() == Commits.Step(old(Desk()), if ok then CommitSucceeds else CommitFails)
    {
      hide Process, Sweep, FugueTrees.FugueTree.Valid, WF;
      var c := commitQueue[|settled|];
      settled := settled + [ok];
      if ok {
        lastCommittedSeq := if c.ops == [] then c.startSeq else c.startSeq + |c.ops| - 1;
        durable := durable + Entries(c);
      }
    }

    /** Acknowledges a commit, only ever after it succeeded. */
    method Acknowledge(k: nat)
      requires Valid() && k < |settled| && settled[k]
      modifies this`acked
      ensures Valid() && Desk() == Commits.Step(old(Desk()), Event.Acknowledge(k))
    {
      acked := acked + Entries(commitQueue[k]);
    }

    // ---------------------------------------------------------------- the sweep

    /** Gives one buffered operation up. */
    method EvictPending(op: Op)
      requires Valid()
      modifies this`pendingFirstSeenAtMs, this`pendingOpOrigin, this`evicted, engine
      ensures Valid() && Abs() == EvictOne(old(Abs()), op)
    {
      hide FugueTrees.FugueTree.Valid, WithOrigins, WF;
      ghost var q := engine.pending;
      var found := engine.RejectPending(op.id);
      RejectedEither(q, op.id, found, engine.pending);
      evicted := evicted + WithOrigins([op], pendingOpOrigin);
      pendingFirstSeenAtMs := pendingFirstSeenAtMs - {op.id};
      pendingOpOrigin := pendingOpOrigin - {op.id};
    }

    /** The age half: a snapshot of the buffer is walked, so that evictions do not skip anything. */
    method AgeSweep(snapshot: seq<Op>, nowMs: int, timeoutMs: int)
      requires Valid()
      modifies this`pendingFirstSeenAtMs, this`pendingOpOrigin, this`evicted, engine
      ensures Valid() && Abs() == AgePass(old(Abs()), snapshot, nowMs, timeoutMs)
    {
      hide FugueTrees.FugueTree.Valid, EvictOne, WF;
      ghost var start := Abs();
      assert snapshot[..0] == [];
      for i := 0 to |snapshot|
        invariant Valid() && Abs() == AgePass(start, snapshot[..i], nowMs, timeoutMs)
      {
        var op := snapshot[i];
        assert snapshot[..i + 1][..i] == snapshot[..i];
        if op.id !in pendingFirstSeenAtMs {
          pendingFirstSeenAtMs := pendingFirstSeenAtMs[op.id := nowMs];
        } else if nowMs - pendingFirstSeenAtMs[op.id] >= timeoutMs {
          EvictPending(op);
        }
      }
      assert snapshot[..|snapshot|] == snapshot;
    }

    method PruneTracking(still: set<Id>)
      requires Valid()
      modifies this`pendingFirstSeenAtMs, this`pendingOpOrigin
      ensures Valid() && Abs() == Prune(old(Abs()), still)
    {
      pendingFirstSeenAtMs := map k | k in pendingFirstSeenAtMs && k in still :: pendingFirstSeenAtMs[k];
      pendingOpOrigin := map k | k in pendingOpOrigin && k in still :: pendingOpOrigin[k];
    }

    method EvictEach(victims: seq<Op>)
      requires Valid()
      modifies this`pendingFirstSeenAtMs, this`pendingOpOrigin, this`evicted, engine
      ensures Valid() && Abs() == EvictAll(old(Abs()), victims)
    {
      hide FugueTrees.FugueTree.Valid, EvictOne, WF;
      ghost var start := Abs();
      assert victims[..0] == [];
      for i := 0 to |victims|
        invariant Valid() && Abs() == EvictAll(start, victims[..i])
      {
        assert victims[..i + 1][..i] == victims[..i];
        EvictPending(victims[i]);
      }
      assert victims[..|victims|] == victims;
    }

    /** The size half: the operations noticed first go first. */
    method SizeSweep(nowMs: int, maxPending: nat)
      requires Valid()
      modifies this`pendingFirstSeenAtMs, this`pendingOpOrigin, this`evicted, engine
      ensures Valid() && Abs() == SizePass(old(Abs()), nowMs, maxPending)
    {
      hide FugueTrees.FugueTree.Valid, EvictOne, WF, EvictAll;
      var order := OldestFirst(engine.pending, pendingFirstSeenAtMs, nowMs);
      var overflow := Overflow(engine.pending, maxPending);
      EvictEach(order[..if overflow <= |order| then overflow else |order|]);
    }

    method RunOfflineWindow(nowMs: int, timeoutMs: int, maxPending: nat)
      requires Valid()
      modifies this`pendingFirstSeenAtMs, this`pendingOpOrigin, this`evicted, engine
      ensures Valid() && Abs() == Sweep(old(Abs()), nowMs, timeoutMs, maxPending)
    {
      hide FugueTrees.FugueTree.Valid, AgePass, SizePass, WF;
      var snapshot := engine.pending;
      AgeSweep(snapshot, nowMs, timeoutMs);
      PruneTracking(IdsOf(snapshot));
      SizeSweep(nowMs, maxPending);
    }
  }

  /** What the engine's own removal leaves. */
  lemma RejectedEither(q: seq<Op>, id: Id, found: bool, after: seq<Op>)
    requires found <==> exists i :: 0 <= i < |q| && q[i].id == id
    requires
      if found then
        exists i ::
          && 0 <= i < |q| && q[i].id == id && (forall j :: 0 <= j < i ==> q[j].id != id)
          && after == SeqRemove(q, i)
      else after == q
    ensures after == Eviction.Rejected(q, id)
  {
    if found {
      var i :| 0 <= i < |q| && q[i].id == id && (forall j :: 0 <= j < i ==> q[j].id != id) && after == SeqRemove(q, i);
      RejectedAt(q, i);
    } else {
      RejectedAbsent(q, id);
    }
  }

  lemma TakeNone(s: State)
    requires WF(s)
    ensures TakeAll(s, []) == Taken(s, [])
  {
  }
}
