/** A run in which a client that reconnects misses an operation that was numbered and is durable later. */
module InFlight {
  import opened Identifiers
  import opened Operations
  import opened FugueShape
  import opened EngineState
  import opened OpSets
  import opened Replica
  import opened Convergence
  import opened Seed
  import opened Intake
  import opened Coordination
  import opened Commits
  import opened Durability
  import opened NumberOrder
  import opened Gaps
  import opened LogDocument
  import opened Catchup
  import opened Rejoin

  /** Two characters at the start of an empty document, by two senders. */
  ghost predicate ByTwo(a: Op, oa: Origin, b: Op, ob: Origin) {
    && a.Insert? && b.Insert? && a.parent == None && b.parent == None
    && a.id.r == oa.replica && b.id.r == ob.replica && oa.replica != ob.replica
  }

  /** Both are accepted, and the commit of the first is through when the client comes. */
  function Before(a: Op, oa: Origin, b: Op, ob: Origin, nowMs: int): seq<Event> {
    [Receive(One(a), oa, nowMs), Receive(One(b), ob, nowMs), CommitSucceeds]
  }

  /** Two operations were numbered 1 and 2, in commits of their own, and nothing was executed yet. */
  ghost predicate Queued(d: Desk, a: Op, b: Op) {
    var cs, fs := d.server.commits, d.server.finalized;
    && |cs| >= 2 && |fs| == 2 && fs[0].sent.op == a && fs[1].sent.op == b && fs[0].seqno == 1
    && d.server.currentSeq == 2
    && Entries(cs[0]) == [fs[0]] && Entries(cs[1]) == [fs[1]] && EndSeq(cs[0]) == 1
    && d.done == [] && d.durable == []
  }

  lemma TookQueued(d: Desk, a: Op, b: Op)
    requires Took(d, [a, b])
    ensures Queued(d, a, b) && |d.server.finalized| == 2 && d.server.finalized[1].sent.op == b
  {
    hide Quiet, Conserved, AllEntries, Entries;
    var cs, fs := d.server.commits, d.server.finalized;
    assert |FinalOps(fs)| == |fs| == 2;
    assert FinalOps(fs)[0] == fs[0].sent.op && FinalOps(fs)[1] == fs[1].sent.op;
    assert Lined(cs, fs, 0);
    CommitAt(cs, fs, 0, 0);
    CommitAt(cs, fs, 0, 1);
    assert fs[0..1] == [fs[0]] && fs[1..2] == [fs[1]];
    NothingDone(d);
  }

  lemma NothingDone(d: Desk)
    requires d.done == [] && d.durable == Succeeded(d.server.commits, d.done)
    ensures d.durable == []
  {
  }

  lemma Committed(d: Desk, a: Op, b: Op)
    requires Queued(d, a, b)
    ensures Enabled(d, CommitSucceeds) && Enabled(Commits.Step(d, CommitSucceeds), CommitSucceeds)
    ensures
      var t := Commits.Step(d, CommitSucceeds);
      && t.server == d.server && t.done == [true] && t.lastCommitted == 1 && CatchUp(t, 1) == []
      && Commits.Step(t, CommitSucceeds).durable == d.server.finalized
      && Commits.Step(t, CommitSucceeds).server == d.server
  {
    hide Entries, EndSeq, FinalOps;
    var fs := d.server.finalized;
    assert [fs[0]] + [fs[1]] == fs && [] + [fs[0]] == [fs[0]];
    BetweenNone([fs[0]], 1, 1);
  }

  lemma BothTaken(a: Op, oa: Origin, b: Op, ob: Origin, nowMs: int)
    requires ByTwo(a, oa, b, ob)
    ensures
      var run := DeskRun(Opened(Fresh(0), 0), [Receive(One(a), oa, nowMs), Receive(One(b), ob, nowMs)]);
      run.Some? && Took(run.value, [a, b])
  {
    hide Orderly, Enabled, Commits.Step, Took, Process;
    var ra, rb := Receive(One(a), oa, nowMs), Receive(One(b), ob, nowMs);
    var d0 := Opened(Fresh(0), 0);
    TookNone();
    RootMessage(d0, [], a, oa, nowMs);
    RunNext(d0, [], ra);
    assert [] + [ra] == [ra] && [] + [a] == [a];
    Gaps.NotAmong(a, b);
    RootMessage(Commits.Step(d0, ra), [a], b, ob, nowMs);
    RunNext(d0, [ra], rb);
    assert [ra] + [rb] == [ra, rb] && [a] + [b] == [a, b];
  }

  /** The client received the first operation, and holds it. */
  lemma HoldsFirst(r: nat, a: Op, finalized: seq<Final>)
    requires a.Insert? && a.parent == None && |finalized| > 0 && finalized[0].sent.op == a
    ensures
      var c := Deliver(Fresh(r), [a]);
      Holds(c, {a}, {}, finalized, 1) && {a} == Logged({}, finalized[..1])
  {
    hide WF, Matches, Drained, Deliver;
    var c := Deliver(Fresh(r), [a]);
    FreshCore(r);
    assert {} + SetOf([a]) == {a};
    DeliverCore(Fresh(r), {}, [a]);
    AppliedIsLeastClosure(c, {a});
    assert Supported(AppliedOps(c, {a}), a);
    assert {a} <= AppliedOps(c, {a});
    CoreSeedable(c, {a});
    FinalOpsHas(finalized);
    assert FinalOps(finalized[..1]) == [a];
  }

  lemma NeverSent(a: Op, oa: Origin, b: Op, ob: Origin, nowMs: int, r0: nat, r: nat, d: Desk)
    requires ByTwo(a, oa, b, ob) && Took(d, [a, b]) && Queued(d, a, b)
    requires
      var run := DeskRun(Opened(Fresh(0), 0), Before(a, oa, b, ob, nowMs));
      run.Some? && run.value == Commits.Step(d, CommitSucceeds)
    ensures forall n :: n in Flat(Deliver(Fresh(r0), [a]).tree) && n.deleted ==> n.deletedBy.Some?
    ensures b.id !in Rejoined(Deliver(Fresh(r0), [a]), r, [], []).applied
  {
    hide Orderly, Rejoined, Deliver, Core, WF, Process, CatchUp, DeskRun, Holds, Coherent, Logged, Settled, AsArrived,
      Entries, EndSeq, GapsBelow, SeedOps;
    var events, sv := Before(a, oa, b, ob, nowMs), d.server;
    var c := Deliver(Fresh(r0), [a]);
    Committed(d, a, b);
    HoldsFirst(r0, a, sv.finalized);
    HoldsSeedable(c, {a}, {}, sv.finalized, 1);
    FreshCore(0);
    TwoCoherent(a, oa, b, ob, OpsOf(sv.accepted));
    assert events + [] == events && sv.finalized[2..] == [];
    NoRows(Commits.Step(d, CommitSucceeds), 1);
    RejoinsExactly(Fresh(0), 0, events, [], {}, c, {a}, r, 1, [], (o: Op) => 0);
  }

  lemma HoldsSeedable(c: State, x: set<Op>, p0: set<Op>, finalized: seq<Final>, k: nat)
    requires k <= |finalized| && Holds(c, x, p0, finalized, k)
    ensures Seedable(c, x)
  {
  }

  lemma TwoCoherent(a: Op, oa: Origin, b: Op, ob: Origin, accepted: seq<Op>)
    requires ByTwo(a, oa, b, ob) && accepted == [a, b]
    ensures Coherent({} + SetOf(accepted))
  {
    assert {} + SetOf(accepted) == {a, b};
  }

  lemma NoRows(d: Desk, fromSeq: nat)
    requires CatchUp(d, fromSeq) == []
    ensures Split([], RowsOf(CatchUp(d, fromSeq), (o: Op) => 0))
  {
  }

  /**
   * The client reports 1 while operation 2 is numbered but not committed: the catch-up is empty, operation 2 was
   * relayed before the client came, and although it is committed afterwards nothing brings it to the client unless it
   * reconnects again.
   */
  lemma InFlightMissed(a: Op, oa: Origin, b: Op, ob: Origin, nowMs: int, r0: nat, r: nat)
    requires ByTwo(a, oa, b, ob)
    ensures
      var start := Opened(Fresh(0), 0);
      var run, later := DeskRun(start, Before(a, oa, b, ob, nowMs)),
        DeskRun(start, Before(a, oa, b, ob, nowMs) + [CommitSucceeds]);
      && run.Some? && later.Some? && CatchUp(run.value, 1) == []
      && later.value.server.finalized == run.value.server.finalized
      && later.value.durable == later.value.server.finalized
      && |later.value.durable| == 2 && later.value.durable[1].sent.op == b
      && (forall n :: n in Flat(Deliver(Fresh(r0), [a]).tree) && n.deleted ==> n.deletedBy.Some?)
      && b.id !in Rejoined(Deliver(Fresh(r0), [a]), r, [], []).applied
  {
    hide Orderly, Enabled, Commits.Step, Took, Process, CatchUp, Rejoined, Deliver, Holds, Coherent, Logged, Core,
      Queued;
    var start, two := Opened(Fresh(0), 0), [Receive(One(a), oa, nowMs), Receive(One(b), ob, nowMs)];
    BothTaken(a, oa, b, ob, nowMs);
    var d2 := DeskRun(start, two).value;
    TookQueued(d2, a, b);
    Committed(d2, a, b);
    RunNext(start, two, CommitSucceeds);
    assert two + [CommitSucceeds] == Before(a, oa, b, ob, nowMs);
    RunNext(start, Before(a, oa, b, ob, nowMs), CommitSucceeds);
    NeverSent(a, oa, b, ob, nowMs, r0, r, d2);
  }
}
