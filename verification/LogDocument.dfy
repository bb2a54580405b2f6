/** The coordinator's document is the one its log makes, whatever waits or was given up. */
module LogDocument {
  import opened Identifiers
  import opened Operations
  import opened FugueShape
  import opened EngineState
  import opened OpSets
  import opened Replica
  import opened Convergence
  import opened Intake
  import opened Coordination
  import opened Eviction
  import opened Commits
  import opened Durability
  import opened NumberOrder

  /** What the start held and what was numbered since. */
  ghost function Logged(p0: set<Op>, finalized: seq<Final>): set<Op> {
    p0 + SetOf(FinalOps(finalized))
  }

  ghost function Had(p0: set<Op>, sv: Server): set<Op> {
    Logged(p0, sv.finalized) + SetOf(sv.engine.pending)
  }

  /** The engine holds the log, all of it applied, and the buffer; nothing numbered was there at the start. */
  ghost predicate Follows(sv: Server, start: set<Id>, p0: set<Op>) {
    && Core(sv.engine, Had(p0, sv)) && Had(p0, sv) <= p0 + SetOf(OpsOf(sv.accepted))
    && (forall o :: o in Logged(p0, sv.finalized) ==> o.id in sv.engine.applied)
    && start <= sv.engine.applied && forall o :: o in OpsOf(sv.accepted) ==> o.id !in start
  }

  lemma {:induction false} TakeAllDelivers(s: State, ops: seq<Op>)
    requires WF(s)
    ensures TakeAll(s, ops).state == Deliver(s, ops)
    decreases |ops|
  {
    hide ApplyRemote, WF;
    if ops != [] { TakeAllDelivers(s, ops[..|ops| - 1]); }
  }

  lemma FinalOpsHas(finalized: seq<Final>)
    ensures forall f :: f in finalized ==> f.sent.op in FinalOps(finalized)
    ensures forall o :: o in FinalOps(finalized) ==> exists f :: f in finalized && f.sent.op == o
  {
    forall f | f in finalized ensures f.sent.op in FinalOps(finalized) {
      var i :| 0 <= i < |finalized| && finalized[i] == f;
      assert FinalOps(finalized)[i] == f.sent.op;
    }
    forall o | o in FinalOps(finalized) ensures exists f :: f in finalized && f.sent.op == o {
      var i :| 0 <= i < |FinalOps(finalized)| && FinalOps(finalized)[i] == o;
      assert finalized[i] in finalized;
    }
  }

  /** A message splits into what is numbered and what waits. */
  lemma NothingLost(s: State, ops: seq<Op>, r: Taken, added: seq<Op>)
    requires TookIn(s, ops, r)
    requires added == Picked(ops, r.buffered, false) + Resolved(s.pending, r.state.applied)
    ensures SetOf(added) + SetOf(r.state.pending) == SetOf(s.pending) + SetOf(ops)
  {
    hide Quiet, Picked, Waiting, Resolved;
    PickedMembers(ops, r.buffered);
    WaitingMembers(s.pending, r.state.applied);
  }

  lemma HadAfter(p0: set<Op>, sv: Server, ops: seq<Op>, added: seq<Op>, t: Server)
    requires FinalOps(t.finalized) == FinalOps(sv.finalized) + added
    requires SetOf(added) + SetOf(t.engine.pending) == SetOf(sv.engine.pending) + SetOf(ops)
    ensures Had(p0, t) == Had(p0, sv) + SetOf(ops)
  {
    hide FinalOps;
    forall o ensures o in Had(p0, t) <==> o in Had(p0, sv) + SetOf(ops) {
      assert o in SetOf(added) + SetOf(t.engine.pending) <==> o in SetOf(sv.engine.pending) + SetOf(ops);
    }
  }

  lemma AcceptFollows(sv: Server, m: Message, origin: Origin, nowMs: int, base: nat, start: set<Id>, p0: set<Op>)
    requires Sound(sv, base) && FreshFor(sv, m, origin) && WF(sv.engine) && Follows(sv, start, p0)
    requires Coherent(p0 + SetOf(OpsOf(sv.accepted) + ToOperations(m)))
    requires ToOperations(m) != []
    ensures Core(Process(sv, m, origin, nowMs).engine, Had(p0, Process(sv, m, origin, nowMs)))
    ensures Had(p0, Process(sv, m, origin, nowMs)) == Had(p0, sv) + SetOf(ToOperations(m))
    ensures sv.engine.applied <= Process(sv, m, origin, nowMs).engine.applied
  {
    hide Core, Conserved, SeqsOk, TakeAll, Picked, Resolved, Waiting, Numbered, SentBy, WithOrigins, IdsOf, AllNew,
      Misordered, Causal, WF, Clean, Drained, Coherent, FinalOps, Had, DistinctIds, KeysOf, OriginsAfter, AllEntries;
    var ops, t := ToOperations(m), Process(sv, m, origin, nowMs);
    var r := TakeAll(sv.engine, ops);
    AcceptOutcome(sv, m, origin, nowMs, base);
    NumberingCausalExactly(sv, m, origin, nowMs, base);
    NothingLost(sv.engine, ops, r, Newly(sv.engine, ops));
    HadAfter(p0, sv, ops, Newly(sv.engine, ops), t);
    TakeAllDelivers(sv.engine, ops);
    SoundQuiet(sv, base);
    WithinMore(p0, OpsOf(sv.accepted), ops, Had(p0, sv));
    CoherentSub(p0 + SetOf(OpsOf(sv.accepted) + ops), Had(p0, sv) + SetOf(ops));
    DeliverCore(sv.engine, Had(p0, sv), ops);
    ContextWF(r.state, t.engine);
    CoreClock(r.state, t.engine, Had(p0, t));
  }

  lemma ContextWF(s: State, t: State)
    requires WF(s) && t == s.(deleteContext := t.deleteContext)
    ensures WF(t)
  {
  }

  lemma WithinMore(p0: set<Op>, accepted: seq<Op>, ops: seq<Op>, had: set<Op>)
    requires had <= p0 + SetOf(accepted)
    ensures had + SetOf(ops) <= p0 + SetOf(accepted + ops)
  {
  }

  lemma ReceiveFollows(sv: Server, m: Message, origin: Origin, nowMs: int, base: nat, start: set<Id>, p0: set<Op>)
    requires Sound(sv, base) && FreshFor(sv, m, origin) && WF(sv.engine) && Follows(sv, start, p0)
    requires Coherent(p0 + SetOf(OpsOf(Process(sv, m, origin, nowMs).accepted)))
    ensures Follows(Process(sv, m, origin, nowMs), start, p0)
  {
    hide Core, Conserved, SeqsOk, IdsOf, WF, Clean, Drained, Coherent, Had, DistinctIds, Process, Quiet;
    var ops, t := ToOperations(m), Process(sv, m, origin, nowMs);
    if ops == [] {
      NothingReceived(sv, m, origin, nowMs);
    } else {
      AcceptsAll(sv, m, origin, nowMs, base);
      AcceptFollows(sv, m, origin, nowMs, base, start, p0);
      ProcessSound(sv, m, origin, nowMs, base);
      WithinMore(p0, OpsOf(sv.accepted), ops, Had(p0, sv));
      LoggedApplied(sv, t, p0);
    }
  }

  lemma NothingReceived(sv: Server, m: Message, origin: Origin, nowMs: int)
    requires WF(sv.engine) && ToOperations(m) == []
    ensures Process(sv, m, origin, nowMs) == sv
  {
  }

  lemma LoggedApplied(sv: Server, t: Server, p0: set<Op>)
    requires forall o :: o in Logged(p0, sv.finalized) ==> o.id in sv.engine.applied
    requires sv.engine.applied <= t.engine.applied && forall f :: f in t.finalized ==> f.sent.op.id in t.engine.applied
    ensures forall o :: o in Logged(p0, t.finalized) ==> o.id in t.engine.applied
  {
    hide FinalOps;
    FinalOpsHas(t.finalized);
  }

  /** Giving up waiting operations leaves the rest of what is held. */
  lemma CoreDrop(s: State, t: State, l: set<Op>)
    requires Core(s, l + SetOf(s.pending)) && WF(t) && Clean(s)
    requires forall o :: o in l ==> o.id in s.applied
    requires t.tree == s.tree && t.applied == s.applied && forall o :: o in t.pending ==> o in s.pending
    ensures Core(t, l + SetOf(t.pending)) && AppliedOps(t, l + SetOf(t.pending)) == l
  {
    hide WF, Matches, DistinctIds;
    var p, q := l + SetOf(s.pending), l + SetOf(t.pending);
    assert AppliedOps(s, p) == l && AppliedOps(t, q) == l;
    assert q <= p;
  }

  lemma SweepFollows(sv: Server, nowMs: int, timeoutMs: int, maxPending: nat, base: nat, start: set<Id>, p0: set<Op>)
    requires Sound(sv, base) && Follows(sv, start, p0)
    ensures Follows(Sweep(sv, nowMs, timeoutMs, maxPending), start, p0)
  {
    hide Core, Conserved, SeqsOk, IdsOf, WF, DistinctIds, Drained, Sweep;
    var t := Sweep(sv, nowMs, timeoutMs, maxPending);
    SweepExact(sv, nowMs, timeoutMs, maxPending, base);
    SweepBuffer(sv, nowMs, timeoutMs, maxPending);
    CoreDrop(sv.engine, t.engine, Logged(p0, sv.finalized));
  }

  lemma StepFollows(d: Desk, e: Event, base: nat, start: set<Id>, p0: set<Op>)
    requires Orderly(d, base) && Enabled(d, e) && Follows(d.server, start, p0)
    requires Coherent(p0 + SetOf(OpsOf(Commits.Step(d, e).server.accepted)))
    ensures Follows(Commits.Step(d, e).server, start, p0)
  {
    hide Follows, Sound, Coherent, Process, Sweep, FreshFor, WF;
    match e
    case Receive(m, origin, nowMs) => ReceiveFollows(d.server, m, origin, nowMs, base, start, p0);
    case SweepAt(nowMs, timeoutMs, maxPending) =>
      SweepFollows(d.server, nowMs, timeoutMs, maxPending, base, start, p0);
    case CommitSucceeds =>
    case CommitFails =>
    case Acknowledge(_) =>
  }

  lemma OpenedFollows(engine: State, base: nat, p0: set<Op>)
    requires Core(engine, p0) && engine.pending == []
    ensures Follows(Opened(engine, base).server, engine.applied, p0)
  {
    hide WF, Matches;
    var sv := Opened(engine, base).server;
    assert FinalOps([]) == [] && OpsOf([]) == [];
    assert Had(p0, sv) == p0 && Logged(p0, sv.finalized) == p0;
  }

  lemma {:induction false} RunFollows(engine: State, base: nat, events: seq<Event>, p0: set<Op>)
    requires Quiet(engine) && engine.pending == [] && DeskRun(Opened(engine, base), events).Some?
    requires Core(engine, p0)
      && Coherent(p0 + SetOf(OpsOf(DeskRun(Opened(engine, base), events).value.server.accepted)))
    ensures Follows(DeskRun(Opened(engine, base), events).value.server, engine.applied, p0)
  {
    hide Quiet, Enabled, Commits.Step, Orderly, InOrder, Follows, Core, Coherent;
    if events == [] {
      OpenedFollows(engine, base, p0);
    } else {
      var init := events[..|events| - 1];
      LastEvent(Opened(engine, base), events);
      RunOrderly(engine, base, init);
      var d := DeskRun(Opened(engine, base), init).value;
      AcceptedGrows(d, events[|events| - 1], base);
      PrefixSub(p0, OpsOf(d.server.accepted), OpsOf(DeskRun(Opened(engine, base), events).value.server.accepted));
      RunFollows(engine, base, init, p0);
      StepFollows(d, events[|events| - 1], base, engine.applied, p0);
    }
  }

  lemma PrefixSub(p0: set<Op>, a: seq<Op>, b: seq<Op>)
    requires a <= b && Coherent(p0 + SetOf(b))
    ensures Coherent(p0 + SetOf(a))
  {
    hide Coherent;
    assert forall o :: o in a ==> o in b;
    CoherentSub(p0 + SetOf(b), p0 + SetOf(a));
  }

  /** The engine without its buffer holds exactly the log, all of it applied. */
  lemma LogHeld(sv: Server, base: nat, start: set<Id>, p0: set<Op>)
    requires Sound(sv, base) && Follows(sv, start, p0)
    ensures
      var w, l := sv.engine.(pending := []), Logged(p0, sv.finalized);
      Core(w, l) && AppliedOps(w, l) == l && Drained(w) && Coherent(l)
  {
    hide Core, Conserved, SeqsOk, IdsOf, DistinctIds;
    var w, l := sv.engine.(pending := []), Logged(p0, sv.finalized);
    CoreDrop(sv.engine, w, l);
    assert l + SetOf(w.pending) == l;
    CoreCoherent(w, l);
  }

  lemma CoreCoherent(s: State, p: set<Op>)
    requires Core(s, p)
    ensures Coherent(p)
  {
  }

  /**
   * In every run, any replica that received the operations of the start and those numbered since, in any order, holds
   * the coordinator's document and has nothing waiting; its flags too when the deletions are settled.
   */
  lemma LogIsDocument(engine: State, base: nat, events: seq<Event>, p0: set<Op>, t: State)
    requires Quiet(engine) && engine.pending == [] && DeskRun(Opened(engine, base), events).Some?
    requires Core(engine, p0)
      && Coherent(p0 + SetOf(OpsOf(DeskRun(Opened(engine, base), events).value.server.accepted)))
    requires Core(t, Logged(p0, DeskRun(Opened(engine, base), events).value.server.finalized)) && Drained(t)
    ensures
      var sv := DeskRun(Opened(engine, base), events).value.server;
      && t.applied == sv.engine.applied && t.pending == []
      && Origins(Flat(t.tree)) == Origins(Flat(sv.engine.tree))
      && (Settled(Logged(p0, sv.finalized)) ==> t.tree == sv.engine.tree)
  {
    hide DeskRun, Quiet, Core, Coherent, Drained, Follows, Settled, Sound;
    var sv := DeskRun(Opened(engine, base), events).value.server;
    var w, l := sv.engine.(pending := []), Logged(p0, sv.finalized);
    RunOrderly(engine, base, events);
    RunFollows(engine, base, events, p0);
    LogHeld(sv, base, engine.applied, p0);
    SameReceivedSameDocument(t, w, l);
    AppliedIsLeastClosure(w, l);
    NoMembers(t.pending);
  }
}
