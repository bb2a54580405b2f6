/** A run in which the commit mark passes an operation that was never made durable. */
module Gaps {
  import opened Identifiers
  import opened Operations
  import opened FugueShape
  import opened EngineState
  import opened Intake
  import opened Coordination
  import opened Commits
  import opened Durability
  import opened NumberOrder

  /** Two characters at the start of an empty document, by one sender. */
  ghost predicate Two(a: Op, b: Op, origin: Origin) {
    && a.Insert? && b.Insert? && a.parent == None && b.parent == None && a.id != b.id
    && a.id.r == b.id.r == origin.replica
  }

  /** Both are accepted, the first commit fails, and the second succeeds. */
  function GapEvents(a: Op, b: Op, origin: Origin, nowMs: int): seq<Event> {
    [Receive(One(a), origin, nowMs), Receive(One(b), origin, nowMs), CommitFails, CommitSucceeds]
  }

  /** A coordinator that numbered what arrived, as it arrived. */
  ghost predicate Took(d: Desk, ops: seq<Op>) {
    && Orderly(d, 0) && AsArrived(d.server) && OpsOf(d.server.accepted) == ops && d.done == []
    && None in Keys(d.server.engine.tree) && |d.server.commits| >= |ops|
    && forall id :: id in d.server.engine.applied ==> HasId(ops, id)
  }

  lemma TookNone()
    ensures Took(Opened(Fresh(0), 0), [])
  {
    OpenedOrderly(Fresh(0), 0);
  }

  lemma RootMessage(d: Desk, ops: seq<Op>, op: Op, origin: Origin, nowMs: int)
    requires Took(d, ops) && op.Insert? && op.parent == None && op.id.r == origin.replica && !HasId(ops, op.id)
    ensures Enabled(d, Receive(One(op), origin, nowMs))
    ensures Took(Commits.Step(d, Receive(One(op), origin, nowMs)), ops + [op])
  {
    hide Sound, Process, Quiet, AllEntries, WF;
    var sv := d.server;
    SoundQuiet(sv, 0);
    assert ToOperations(One(op)) == [op];
    CausalOne(Keys(sv.engine.tree), op);
    StepOrderly(d, Receive(One(op), origin, nowMs), 0);
    MessageAsArrived(sv, One(op), origin, nowMs, 0);
    AcceptsAll(sv, One(op), origin, nowMs, 0);
    NumberingCausalExactly(sv, One(op), origin, nowMs, 0);
    OneMoreCommit(sv, op, origin, nowMs);
    AppliedOf(sv, op, origin, nowMs);
  }

  lemma AppliedOf(sv: Server, op: Op, origin: Origin, nowMs: int)
    requires Sound(sv, 0) && FreshFor(sv, One(op), origin) && sv.engine.pending == []
    ensures WF(sv.engine)
    ensures forall id :: id in Process(sv, One(op), origin, nowMs).engine.applied ==>
      id in sv.engine.applied || id == op.id
  {
    hide Conserved, SeqsOk, AllEntries, Accept, Numbered, Quiet, TakeAll, Picked, Waiting, Resolved, WithOrigins,
      SentBy, OriginsAfter, AllNew;
    SoundQuiet(sv, 0);
    AcceptOutcome(sv, One(op), origin, nowMs, 0);
    var r := TakeAll(sv.engine, [op]);
    assert ToOperations(One(op)) == [op];
    PickedMembers([op], r.buffered);
  }

  lemma OneMoreCommit(sv: Server, op: Op, origin: Origin, nowMs: int)
    requires Sound(sv, 0) && FreshFor(sv, One(op), origin)
    ensures WF(sv.engine)
    ensures |Process(sv, One(op), origin, nowMs).finalized| > |sv.finalized| ==>
              |Process(sv, One(op), origin, nowMs).commits| > |sv.commits|
  {
    hide Process, Quiet, Conserved;
    SoundQuiet(sv, 0);
    var t := Process(sv, One(op), origin, nowMs);
    ProcessSound(sv, One(op), origin, nowMs, 0);
    ProcessAppends(sv, One(op), origin, nowMs);
    assert |t.commits| == |sv.commits| ==> t.commits == t.commits[..|sv.commits|] == sv.commits;
  }

  /**
   * The gap: a commit fails and the next succeeds, so the mark says two operations are durable when only the second is.
   */
  lemma GapRun(a: Op, b: Op, origin: Origin, nowMs: int)
    requires Two(a, b, origin)
    ensures
      var run := DeskRun(Opened(Fresh(0), 0), GapEvents(a, b, origin, nowMs));
      && run.Some? && var d := run.value;
      && d.done == [false, true] && d.lastCommitted == 2 && FinalOps(d.server.finalized) == [a, b]
      && |d.server.finalized| == 2 && d.durable == [d.server.finalized[1]]
      && d.durable != d.server.finalized[..d.lastCommitted]
  {
    hide Orderly, Enabled, Commits.Step, Took, Process;
    var ra, rb := Receive(One(a), origin, nowMs), Receive(One(b), origin, nowMs);
    var d0 := Opened(Fresh(0), 0);
    TookNone();
    RootMessage(d0, [], a, origin, nowMs);
    RunNext(d0, [], ra);
    assert [] + [ra] == [ra] && [] + [a] == [a];
    var d1 := Commits.Step(d0, ra);
    NotAmong(a, b);
    RootMessage(d1, [a], b, origin, nowMs);
    RunNext(d0, [ra], rb);
    assert [ra] + [rb] == [ra, rb] && [a] + [b] == [a, b];
    var d2 := Commits.Step(d1, rb);
    Settle(d2, a, b);
    RunNext(d0, [ra, rb], CommitFails);
    assert [ra, rb] + [CommitFails] == [ra, rb, CommitFails];
    RunNext(d0, [ra, rb, CommitFails], CommitSucceeds);
    assert [ra, rb, CommitFails] + [CommitSucceeds] == GapEvents(a, b, origin, nowMs);
  }

  lemma NotAmong(a: Op, b: Op)
    requires a.id != b.id
    ensures !HasId([a], b.id)
  {
  }

  lemma RunNext(start: Desk, events: seq<Event>, e: Event)
    requires DeskRun(start, events).Some? && Enabled(DeskRun(start, events).value, e)
    ensures DeskRun(start, events + [e]) == Some(Commits.Step(DeskRun(start, events).value, e))
  {
    assert (events + [e])[..|events|] == events;
  }

  /** A failure and a success after two accepted operations. */
  lemma Settle(d: Desk, a: Op, b: Op)
    requires Took(d, [a, b])
    ensures Enabled(d, CommitFails) && Enabled(Commits.Step(d, CommitFails), CommitSucceeds)
    ensures
      var t := Commits.Step(Commits.Step(d, CommitFails), CommitSucceeds);
      && t.done == [false, true] && t.lastCommitted == 2 && FinalOps(t.server.finalized) == [a, b]
      && |t.server.finalized| == 2 && t.durable == [t.server.finalized[1]]
      && t.durable != t.server.finalized[..t.lastCommitted]
  {
    hide Quiet, Conserved, AllEntries;
    var cs, fs := d.server.commits, d.server.finalized;
    assert |FinalOps(fs)| == |fs| == 2;
    CommitAt(cs, fs, 0, 0);
    CommitAt(cs, fs, 0, 1);
    assert fs[1..2] == [fs[1]];
    assert d.durable == [];
  }
}
