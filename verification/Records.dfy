/** The commit records of deletes: each carries its delete's own number and stays as long as the tombstone. */
module Records {
  import opened Identifiers
  import opened Operations
  import opened FugueShape
  import opened EngineState
  import opened Collection
  import opened OpSets
  import opened Replica
  import opened Convergence
  import opened Horizon
  import opened Intake
  import opened Coordination
  import opened Commits
  import opened Durability
  import opened NumberOrder
  import opened LogDocument
  import opened Rejoin
  import Eviction

  // ------------------------------------------------------------------ numbering

  /** At place `i` a delete, and no later one under the same identifier. */
  ghost predicate LastDelete(finals: seq<Final>, i: int) {
    && 0 <= i < |finals| && finals[i].sent.op.Delete?
    && forall j :: i < j < |finals| && finals[j].sent.op.Delete? ==> finals[j].sent.op.id != finals[i].sent.op.id
  }

  ghost predicate DeletesId(finals: seq<Final>, id: Id) {
    exists f :: f in finals && f.sent.op.Delete? && f.sent.op.id == id
  }

  /** Numbering notes each delete under its number and the time, and nothing else. */
  ghost predicate Noted(s: State, t: State, finals: seq<Final>, nowMs: int) {
    && (forall i :: LastDelete(finals, i) ==>
          finals[i].sent.op.id in t.deleteContext
          && t.deleteContext[finals[i].sent.op.id] == Context(finals[i].seqno, nowMs))
    && forall id :: !DeletesId(finals, id) ==>
         (id in t.deleteContext <==> id in s.deleteContext)
         && (id in t.deleteContext ==> t.deleteContext[id] == s.deleteContext[id])
  }

  lemma NotedNone(s: State, nowMs: int)
    ensures Noted(s, s, [], nowMs)
  {
  }

  lemma NotedNext(s: State, t: State, init: seq<Final>, f: Final, u: State, nowMs: int)
    requires Noted(s, t, init, nowMs)
    requires u.deleteContext == if f.sent.op.Delete? then t.deleteContext[f.sent.op.id := Context(f.seqno, nowMs)]
                                else t.deleteContext
    ensures Noted(s, u, init + [f], nowMs)
  {
    var finals := init + [f];
    forall i | LastDelete(finals, i)
      ensures finals[i].sent.op.id in u.deleteContext
        && u.deleteContext[finals[i].sent.op.id] == Context(finals[i].seqno, nowMs)
    {
      if i < |init| { StillLast(init, f, i); }
    }
    forall id | !DeletesId(finals, id)
      ensures (id in u.deleteContext <==> id in s.deleteContext)
        && (id in u.deleteContext ==> u.deleteContext[id] == s.deleteContext[id])
    {
      OthersBefore(init, f, id);
    }
  }

  lemma StillLast(init: seq<Final>, f: Final, i: nat)
    requires LastDelete(init + [f], i) && i < |init|
    ensures LastDelete(init, i) && (init + [f])[i] == init[i]
    ensures f.sent.op.Delete? ==> f.sent.op.id != init[i].sent.op.id
  {
    var finals := init + [f];
    assert finals[|init|] == f;
    forall j | i < j < |init| && init[j].sent.op.Delete? ensures init[j].sent.op.id != init[i].sent.op.id {
      assert finals[j] == init[j];
    }
  }

  lemma OthersBefore(init: seq<Final>, f: Final, id: Id)
    requires !DeletesId(init + [f], id)
    ensures !DeletesId(init, id) && !(f.sent.op.Delete? && f.sent.op.id == id)
  {
    assert f in init + [f] && forall g :: g in init ==> g in init + [f];
  }

  lemma {:induction false} RecordingNotes(s: State, finals: seq<Final>, nowMs: int)
    ensures Noted(s, RecordDeletes(s, finals, nowMs), finals, nowMs)
  {
    hide Noted;
    if finals == [] {
      NotedNone(s, nowMs);
    } else {
      var init, f := finals[..|finals| - 1], finals[|finals| - 1];
      RecordingNotes(s, init, nowMs);
      NotedNext(s, RecordDeletes(s, init, nowMs), init, f, RecordDeletes(s, finals, nowMs), nowMs);
      assert init + [f] == finals;
    }
  }

  // ------------------------------------------------------------------ applying forgets, but never changes

  /** Records only ever go. */
  ghost predicate Forgets(s: State, t: State) {
    forall id :: id in t.deleteContext ==> id in s.deleteContext && t.deleteContext[id] == s.deleteContext[id]
  }

  lemma ForgetsTrans(s: State, t: State, u: State)
    requires Forgets(s, t) && Forgets(t, u)
    ensures Forgets(s, u)
  {
  }

  lemma StepForgets(s: State, i: nat)
    requires WF(s) && i < |s.pending|
    ensures Forgets(s, DrainStep(s, i))
  {
    hide IsDoc, Effect;
  }

  lemma {:induction false} DownToForgets(s: State, i: nat)
    requires WF(s) && i <= |s.pending|
    ensures Forgets(s, DrainDownTo(s, i))
    decreases |s.pending| - i
  {
    hide WF, DrainStep, Forgets;
    if i < |s.pending| {
      DownToForgets(s, i + 1);
      StepForgets(DrainDownTo(s, i + 1), i);
      ForgetsTrans(s, DrainDownTo(s, i + 1), DrainDownTo(s, i));
    } else {
      ForgetsNothing(s, s);
    }
  }

  lemma ForgetsNothing(s: State, t: State)
    requires t.deleteContext == s.deleteContext
    ensures Forgets(s, t)
  {
  }

  lemma {:induction false} DrainForgets(s: State)
    requires WF(s)
    ensures Forgets(s, Drain(s))
    decreases |s.pending|
  {
    hide WF, DrainDownTo, Forgets;
    DownToForgets(s, 0);
    var t := DrainDownTo(s, 0);
    if |t.pending| < |s.pending| {
      DrainForgets(t);
      ForgetsTrans(s, t, Drain(t));
    }
  }

  lemma RemoteForgets(s: State, op: Op)
    requires WF(s)
    ensures Forgets(s, ApplyRemote(s, op, None).state)
  {
    hide IsDoc, Effect, Drain;
    if op.id !in s.applied && Ready(s.tree, op) { DrainForgets(DoApply(s, op)); }
  }

  lemma {:induction false} MessageForgets(s: State, ops: seq<Op>)
    requires WF(s)
    ensures Forgets(s, TakeAll(s, ops).state)
    decreases |ops|
  {
    hide WF, ApplyRemote, Forgets;
    if ops == [] {
      ForgetsNothing(s, s);
    } else {
      var init := ops[..|ops| - 1];
      MessageForgets(s, init);
      RemoteForgets(TakeAll(s, init).state, ops[|ops| - 1]);
      ForgetsTrans(s, TakeAll(s, init).state, TakeAll(s, ops).state);
    }
  }

  // ------------------------------------------------------------------ one message

  lemma FinalizeAdds(sv: Server, items: seq<Sent>, commits: seq<Commit>, nowMs: int)
    ensures
      var t := Finalize(sv, items, commits, nowMs);
      && sv.finalized <= t.finalized
      && Noted(sv.engine, t.engine, t.finalized[|sv.finalized|..], nowMs)
  {
    hide Noted, RecordDeletes;
    var finals := Numbered(items, sv.currentSeq);
    RecordingNotes(sv.engine, finals, nowMs);
    assert (sv.finalized + finals)[|sv.finalized|..] == finals;
  }

  /**
   * What one message does to the commit records: applying it may only drop some, and numbering it gives every delete
   * numbered its own number and the time, and leaves every other record as it was.
   */
  lemma MessageNotes(sv: Server, m: Message, origin: Origin, nowMs: int)
    requires WF(sv.engine)
    ensures
      var t, applied := Process(sv, m, origin, nowMs), TakeAll(sv.engine, ToOperations(m)).state;
      && sv.finalized <= t.finalized && Forgets(sv.engine, applied)
      && Noted(applied, t.engine, t.finalized[|sv.finalized|..], nowMs)
  {
    hide Noted, TakeAll, Finalize, Departed, ById, Picked, SlowItems, WF, Forgets, RecordOrigins;
    var ops := ToOperations(m);
    MessageForgets(sv.engine, ops);
    var r := TakeAll(sv.engine, ops);
    if ops == [] {
      NothingApplied(sv.engine);
      NotedNone(sv.engine, nowMs);
      assert sv.finalized[|sv.finalized|..] == [];
    } else {
      var waiting := Picked(ops, r.buffered, true);
      var freed := Departed(ById(sv.engine.pending), IdsOf(r.state.pending));
      var sv1 := sv.(engine := r.state, origins := RecordOrigins(sv.origins, waiting, origin),
                     accepted := sv.accepted + SentBy(ops, origin));
      var ready := Picked(ops, r.buffered, false);
      FinalizeAdds(sv1, SentBy(ops, origin), [Commit(sv1.currentSeq + 1, ops, origin)], nowMs);
      var items := SlowItems(sv1, ready, freed, origin);
      FinalizeAdds(sv1.(origins := sv1.origins - IdsOf(freed)), items,
                   OneCommitEach(Numbered(items, sv1.currentSeq)), nowMs);
    }
  }

  lemma NothingApplied(s: State)
    requires WF(s)
    ensures TakeAll(s, []).state == s
  {
  }

  // ------------------------------------------------------------------ as long as the tombstone does

  /** Every node attributed to one of the deletes `ids` has its record, and they are applied. */
  ghost predicate Marked(s: State, ids: set<Id>) {
    && ids <= s.applied
    && forall n :: n in Flat(s.tree) && n.deletedBy.Some? && n.deletedBy.value in ids ==>
         n.deletedBy.value in s.deleteContext
  }

  lemma CoreAttributions(s: State, p: set<Op>)
    requires Core(s, p)
    ensures DistinctAttributions(Flat(s.tree))
  {
    hide WF, Built;
    var a := AppliedOps(s, p);
    forall n, m | n in Flat(s.tree) && m in Flat(s.tree) && n.deletedBy.Some? && n.deletedBy == m.deletedBy
      ensures n.id == m.id
    {
      assert FlagOk(n, a) && FlagOk(m, a);
      var d :| d in a && d.Delete? && d.target == n.id && d.id == n.deletedBy.value;
      var e :| e in a && e.Delete? && e.target == m.id && e.id == m.deletedBy.value;
      assert d == e;
    }
  }

  /** What an operation leaves of a node's attribution: the old one, its own identifier, or none. */
  lemma AttributionAfter(s: State, p: set<Op>, op: Op, m: Node)
    requires Core(s, p) && Ready(s.tree, op) && op.id !in s.applied && m in Flat(Effect(s.tree, op))
    requires m.deletedBy.Some? && m.deletedBy.value != op.id
    ensures exists n :: n in Flat(s.tree) && n.deletedBy == m.deletedBy
    ensures m.deletedBy.value in s.deleteContext ==> m.deletedBy.value in EffectContext(s, op)
  {
    hide Unique, Placed, Matches, Coherent, Effect;
    EffectNodes(s.tree, op, m);
    CoreAttributions(s, p);
    var n :| n in Flat(s.tree) && m == Reflagged(n, op);
    assert n.deletedBy == m.deletedBy;
    if op.Undelete? {
      DocNodeBack(s.tree, op.target);
      DocNode(s.tree, n);
    }
  }

  lemma DoApplyMarked(s: State, p: set<Op>, op: Op, ids: set<Id>)
    requires Core(s, p) && Marked(s, ids) && Ready(s.tree, op) && op.id !in s.applied
    ensures Marked(DoApply(s, op), ids)
  {
    hide IsDoc, StackOk, Matches, Coherent, Effect, EffectContext;
    var t := DoApply(s, op);
    var o := Observe(s, op);
    CoreClock(s, o, p);
    forall m | m in Flat(t.tree) && m.deletedBy.Some? && m.deletedBy.value in ids
      ensures m.deletedBy.value in t.deleteContext
    {
      AttributionAfter(o, p, op, m);
    }
  }

  lemma SameMarked(s: State, t: State, ids: set<Id>)
    requires Marked(s, ids) && t.tree == s.tree && t.applied == s.applied && t.deleteContext == s.deleteContext
    ensures Marked(t, ids)
  {
  }

  lemma StepMarked(s: State, p: set<Op>, i: nat, ids: set<Id>)
    requires Core(s, p) && Marked(s, ids) && i < |s.pending|
    ensures Marked(DrainStep(s, i), ids)
  {
    hide Core, Marked, WF, DoApply, Ready;
    CoreWF(s, p);
    var op := s.pending[i];
    if op.id in s.applied {
      SameMarked(s, DrainStep(s, i), ids);
    } else if Ready(s.tree, op) {
      DoApplyMarked(s, p, op, ids);
      SameMarked(DoApply(s, op), DrainStep(s, i), ids);
    }
  }

  lemma CoreWF(s: State, p: set<Op>)
    requires Core(s, p)
    ensures WF(s)
  {
  }

  lemma {:induction false} DownToMarked(s: State, p: set<Op>, i: nat, ids: set<Id>)
    requires WF(s) && Core(s, p) && Marked(s, ids) && i <= |s.pending|
    ensures Marked(DrainDownTo(s, i), ids)
    decreases |s.pending| - i
  {
    hide Core, Marked, WF, DrainStep;
    if i < |s.pending| {
      DownToMarked(s, p, i + 1, ids);
      DrainDownToCore(s, i + 1, p);
      StepMarked(DrainDownTo(s, i + 1), p, i, ids);
    }
  }

  lemma {:induction false} DrainMarked(s: State, p: set<Op>, ids: set<Id>)
    requires WF(s) && Core(s, p) && Marked(s, ids)
    ensures Marked(Drain(s), ids)
    decreases |s.pending|
  {
    hide Core, Marked, WF, DrainDownTo;
    DownToMarked(s, p, 0, ids);
    DrainDownToCore(s, 0, p);
    var t := DrainDownTo(s, 0);
    if |t.pending| < |s.pending| { DrainMarked(t, p, ids); }
  }

  lemma RemoteMarked(s: State, p: set<Op>, op: Op, ids: set<Id>)
    requires WF(s) && Core(s, p) && Coherent(p + {op}) && Marked(s, ids)
    ensures Marked(ApplyRemote(s, op, None).state, ids)
  {
    hide Core, Marked, WF, Drain, DoApply, Ready, Coherent;
    if op.id in s.applied {
    } else if Ready(s.tree, op) {
      DoApplyMarked(s, p, op, ids);
      DoApplyCore(s, op, p);
      DrainMarked(DoApply(s, op), p + {op}, ids);
    } else {
      SameMarked(s, s.(pending := s.pending + [op]), ids);
    }
  }

  lemma {:induction false} DeliverMarked(s: State, p: set<Op>, q: seq<Op>, ids: set<Id>)
    requires WF(s) && Core(s, p) && Drained(s) && Coherent(p + SetOf(q)) && Marked(s, ids)
    ensures Marked(Deliver(s, q), ids)
    decreases |q|
  {
    hide Core, Marked, WF, Drained, Coherent, ApplyRemote;
    if q != [] {
      var init, op := q[..|q| - 1], q[|q| - 1];
      assert q == init + [op] && p + SetOf(q) == (p + SetOf(init)) + {op};
      CoherentSub(p + SetOf(q), p + SetOf(init));
      DeliverMarked(s, p, init, ids);
      DeliverCore(s, p, init);
      RemoteMarked(Deliver(s, init), p + SetOf(init), op, ids);
    }
  }

  // ------------------------------------------------------------------ every run

  ghost function DeletesIn(finals: seq<Final>): set<Id> {
    set f | f in finals && f.sent.op.Delete? :: f.sent.op.id
  }

  /** Deletes numbered so far: their records carry their numbers, and are there while a node is attributed to them. */
  ghost predicate Recorded(sv: Server) {
    && (forall f :: f in sv.finalized && f.sent.op.Delete? && f.sent.op.id in sv.engine.deleteContext ==>
          sv.engine.deleteContext[f.sent.op.id].seqno == f.seqno)
    && Marked(sv.engine, DeletesIn(sv.finalized))
  }

  lemma AllLast(sv: Server, n: nat, i: nat)
    requires Conserved(sv) && DistinctIds(OpsOf(sv.accepted)) && n + i < |sv.finalized|
    requires sv.finalized[n + i].sent.op.Delete?
    ensures LastDelete(sv.finalized[n..], i)
  {
    hide Conserved, DistinctIds;
    var finals := sv.finalized[n..];
    forall j | i < j < |finals| && finals[j].sent.op.Delete? ensures finals[j].sent.op.id != finals[i].sent.op.id {
      NumberedOnce(sv, n + i, n + j);
    }
  }

  /** An old entry's identifier is not among the new ones. */
  lemma OldNotNew(sv: Server, n: nat, f: Final)
    requires Conserved(sv) && DistinctIds(OpsOf(sv.accepted)) && n <= |sv.finalized| && f in sv.finalized[..n]
    ensures !DeletesId(sv.finalized[n..], f.sent.op.id)
  {
    hide Conserved, DistinctIds;
    var i :| 0 <= i < n && sv.finalized[..n][i] == f;
    forall g | g in sv.finalized[n..] ensures g.sent.op.id != f.sent.op.id {
      var j :| 0 <= j < |sv.finalized[n..]| && sv.finalized[n..][j] == g;
      NumberedOnce(sv, i, n + j);
    }
  }

  /** One record after numbering. */
  lemma RecordAfterNumbering(s: State, t: Server, n: nat, f: Final, nowMs: int)
    requires Conserved(t) && DistinctIds(OpsOf(t.accepted)) && n <= |t.finalized|
    requires Noted(s, t.engine, t.finalized[n..], nowMs) && f in t.finalized && f.sent.op.Delete?
    ensures
      var id := f.sent.op.id;
      if f in t.finalized[n..] then
        id in t.engine.deleteContext && t.engine.deleteContext[id] == Context(f.seqno, nowMs)
      else (id in t.engine.deleteContext <==> id in s.deleteContext)
           && (id in t.engine.deleteContext ==> t.engine.deleteContext[id] == s.deleteContext[id])
  {
    hide Conserved, DistinctIds;
    if f in t.finalized[n..] {
      var i :| 0 <= i < |t.finalized[n..]| && t.finalized[n..][i] == f;
      AllLast(t, n, i);
    } else {
      assert t.finalized == t.finalized[..n] + t.finalized[n..];
      OldNotNew(t, n, f);
    }
  }

  lemma NumberingRecorded(sv: Server, s: State, t: Server, nowMs: int)
    requires Recorded(sv) && Forgets(sv.engine, s) && Marked(s, DeletesIn(sv.finalized))
    requires Conserved(t) && DistinctIds(OpsOf(t.accepted)) && sv.finalized <= t.finalized
    requires Noted(s, t.engine, t.finalized[|sv.finalized|..], nowMs)
    requires t.engine.tree == s.tree && t.engine.applied == s.applied
    requires forall f :: f in t.finalized ==> f.sent.op.id in t.engine.applied
    ensures Recorded(t)
  {
    hide Conserved, DistinctIds, Noted;
    var n := |sv.finalized|;
    forall f | f in t.finalized && f.sent.op.Delete?
      ensures f.sent.op.id in t.engine.deleteContext ==> t.engine.deleteContext[f.sent.op.id].seqno == f.seqno
      ensures f !in t.finalized[n..] ==> f in sv.finalized
      ensures forall m :: m in Flat(s.tree) && m.deletedBy == Some(f.sent.op.id) ==>
                f.sent.op.id in t.engine.deleteContext
    {
      RecordAfterNumbering(s, t, n, f, nowMs);
      if f !in t.finalized[n..] {
        OldFinal(sv, t, f);
        assert f.sent.op.id in DeletesIn(sv.finalized);
      }
    }
  }

  lemma OldFinal(sv: Server, t: Server, f: Final)
    requires sv.finalized <= t.finalized && f in t.finalized && f !in t.finalized[|sv.finalized|..]
    ensures f in sv.finalized
  {
    assert t.finalized == sv.finalized + t.finalized[|sv.finalized|..];
  }

  lemma ReceiveRecorded(sv: Server, m: Message, origin: Origin, nowMs: int, base: nat, start: set<Id>, p0: set<Op>)
    requires Sound(sv, base) && FreshFor(sv, m, origin) && WF(sv.engine) && Follows(sv, start, p0) && Recorded(sv)
    requires Coherent(p0 + SetOf(OpsOf(Process(sv, m, origin, nowMs).accepted)))
    ensures Recorded(Process(sv, m, origin, nowMs))
  {
    hide Core, Conserved, SeqsOk, IdsOf, WF, Clean, Drained, Coherent, Had, DistinctIds, Process, Marked, Noted;
    hide Forgets, Recorded, TakeAll, AllNew;
    var ops, t := ToOperations(m), Process(sv, m, origin, nowMs);
    var s := TakeAll(sv.engine, ops).state;
    MessageNotes(sv, m, origin, nowMs);
    ProcessSound(sv, m, origin, nowMs, base);
    AcceptsAll(sv, m, origin, nowMs, base);
    WithinMore(p0, OpsOf(sv.accepted), ops, Had(p0, sv));
    CoherentSub(p0 + SetOf(OpsOf(t.accepted)), Had(p0, sv) + SetOf(ops));
    TakeAllDelivers(sv.engine, ops);
    RecordedMarked(sv);
    DeliverMarked(sv.engine, Had(p0, sv), ops, DeletesIn(sv.finalized));
    AppliedAsTaken(sv, m, origin, nowMs);
    NumberingRecorded(sv, s, t, nowMs);
  }

  lemma RecordedMarked(sv: Server)
    requires Recorded(sv)
    ensures Marked(sv.engine, DeletesIn(sv.finalized))
  {
  }

  /** Numbering changes nothing but the records. */
  lemma AppliedAsTaken(sv: Server, m: Message, origin: Origin, nowMs: int)
    requires WF(sv.engine)
    ensures
      var t, s := Process(sv, m, origin, nowMs), TakeAll(sv.engine, ToOperations(m)).state;
      t.engine == s.(deleteContext := t.engine.deleteContext)
  {
    hide TakeAll, Departed, ById, Picked, SlowItems, WF, RecordOrigins, RecordDeletes;
    var ops := ToOperations(m);
    if ops == [] {
      NothingApplied(sv.engine);
    } else {
      var r := TakeAll(sv.engine, ops);
      var sv1 := sv.(engine := r.state, origins := RecordOrigins(sv.origins, Picked(ops, r.buffered, true), origin),
                     accepted := sv.accepted + SentBy(ops, origin));
      RecordDeletesKeeps(r.state, Numbered(SentBy(ops, origin), sv.currentSeq), nowMs);
      var freed := Departed(ById(sv.engine.pending), IdsOf(r.state.pending));
      RecordDeletesKeeps(r.state,
        Numbered(SlowItems(sv1, Picked(ops, r.buffered, false), freed, origin), sv.currentSeq), nowMs);
    }
  }

  lemma StepRecorded(d: Desk, e: Event, base: nat, start: set<Id>, p0: set<Op>)
    requires Orderly(d, base) && Enabled(d, e) && Follows(d.server, start, p0) && Recorded(d.server)
    requires Coherent(p0 + SetOf(OpsOf(Commits.Step(d, e).server.accepted)))
    ensures Recorded(Commits.Step(d, e).server)
  {
    hide Follows, Sound, Coherent, Process, Eviction.Sweep, FreshFor, WF, Recorded;
    match e
    case Receive(m, origin, nowMs) => ReceiveRecorded(d.server, m, origin, nowMs, base, start, p0);
    case SweepAt(nowMs, timeoutMs, maxPending) =>
      SweepBuffer(d.server, nowMs, timeoutMs, maxPending);
      SameRecorded(d.server, Eviction.Sweep(d.server, nowMs, timeoutMs, maxPending));
    case CommitSucceeds =>
    case CommitFails =>
    case Acknowledge(_) =>
  }

  lemma SameRecorded(sv: Server, t: Server)
    requires Recorded(sv) && t.finalized == sv.finalized && t.engine == sv.engine.(pending := t.engine.pending)
    ensures Recorded(t)
  {
  }

  lemma OpenedRecorded(engine: State, base: nat)
    ensures Recorded(Opened(engine, base).server)
  {
  }

  lemma {:induction false} RunRecorded(engine: State, base: nat, events: seq<Event>, p0: set<Op>)
    requires Quiet(engine) && engine.pending == [] && DeskRun(Opened(engine, base), events).Some?
    requires Core(engine, p0)
      && Coherent(p0 + SetOf(OpsOf(DeskRun(Opened(engine, base), events).value.server.accepted)))
    ensures Recorded(DeskRun(Opened(engine, base), events).value.server)
  {
    hide Quiet, Enabled, Commits.Step, Orderly, InOrder, Follows, Core, Coherent, Recorded;
    if events == [] {
      OpenedRecorded(engine, base);
    } else {
      var init := events[..|events| - 1];
      LastEvent(Opened(engine, base), events);
      RunOrderly(engine, base, init);
      var d := DeskRun(Opened(engine, base), init).value;
      AcceptedGrows(d, events[|events| - 1], base);
      PrefixSub(p0, OpsOf(d.server.accepted), OpsOf(DeskRun(Opened(engine, base), events).value.server.accepted));
      RunRecorded(engine, base, init, p0);
      RunFollows(engine, base, init, p0);
      StepRecorded(d, events[|events| - 1], base, engine.applied, p0);
    }
  }

  // ------------------------------------------------------------------ and the counters

  lemma {:induction false} MessageCounted(s: State, ops: seq<Op>)
    requires WF(s) && Counted(s)
    ensures Counted(TakeAll(s, ops).state)
    decreases |ops|
  {
    hide WF, ApplyRemote, Counted;
    if ops != [] {
      MessageCounted(s, ops[..|ops| - 1]);
      RemoteCounted(TakeAll(s, ops[..|ops| - 1]).state, ops[|ops| - 1], None);
    }
  }

  lemma StepCounts(d: Desk, e: Event)
    requires Enabled(d, e) && Counted(d.server.engine)
    ensures Counted(Commits.Step(d, e).server.engine)
  {
    hide Process, Eviction.Sweep, FreshFor, WF, Counted;
    match e
    case Receive(m, origin, nowMs) =>
      AppliedAsTaken(d.server, m, origin, nowMs);
      MessageCounted(d.server.engine, ToOperations(m));
      SameCounted(TakeAll(d.server.engine, ToOperations(m)).state, Process(d.server, m, origin, nowMs).engine);
    case SweepAt(nowMs, timeoutMs, maxPending) =>
      SweepBuffer(d.server, nowMs, timeoutMs, maxPending);
      SameCounted(d.server.engine, Eviction.Sweep(d.server, nowMs, timeoutMs, maxPending).engine);
    case CommitSucceeds =>
    case CommitFails =>
    case Acknowledge(_) =>
  }

  lemma {:induction false} RunCounted(engine: State, base: nat, events: seq<Event>)
    requires Counted(engine) && DeskRun(Opened(engine, base), events).Some?
    ensures Counted(DeskRun(Opened(engine, base), events).value.server.engine)
  {
    hide Enabled, Commits.Step, InOrder, Counted;
    if events != [] {
      LastEvent(Opened(engine, base), events);
      RunCounted(engine, base, events[..|events| - 1]);
      StepCounts(DeskRun(Opened(engine, base), events[..|events| - 1]).value, events[|events| - 1]);
    }
  }

  // ------------------------------------------------------------------ what a collection takes

  /** What a run leaves for a delete it numbered, and for a node attributed to it. */
  lemma NumberedRecord(engine: State, base: nat, events: seq<Event>, p0: set<Op>, f: Final, n: Node)
    requires Quiet(engine) && engine.pending == [] && DeskRun(Opened(engine, base), events).Some?
    requires Core(engine, p0)
      && Coherent(p0 + SetOf(OpsOf(DeskRun(Opened(engine, base), events).value.server.accepted)))
    requires f in DeskRun(Opened(engine, base), events).value.server.finalized && f.sent.op.Delete?
    requires n in Flat(DeskRun(Opened(engine, base), events).value.server.engine.tree)
      && n.deletedBy == Some(f.sent.op.id)
    ensures
      var s := DeskRun(Opened(engine, base), events).value.server.engine;
      && WF(s) && n.deleted && f.sent.op.id in s.applied
      && f.sent.op.id in s.deleteContext && s.deleteContext[f.sent.op.id].seqno == f.seqno
  {
    hide DeskRun, Quiet, Coherent, SeqsOk, Conserved, DistinctIds;
    RunOrderly(engine, base, events);
    RunRecorded(engine, base, events, p0);
    RunFollows(engine, base, events, p0);
    var sv := DeskRun(Opened(engine, base), events).value.server;
    AttributedDeleted(sv.engine, Had(p0, sv), n);
    assert f.sent.op.id in DeletesIn(sv.finalized);
  }

  lemma AttributedDeleted(s: State, p: set<Op>, n: Node)
    requires Core(s, p) && n in Flat(s.tree) && n.deletedBy.Some?
    ensures n.deleted && WF(s)
  {
    assert FlagOk(n, AppliedOps(s, p));
  }

  /**
   * In every run, and whenever a collection is done, a tombstone whose deletion the run numbered survives every
   * frontier below that number: a replica that is not past it still has the node to hang things from.
   */
  lemma NotBelowItsNumber(engine: State, base: nat, events: seq<Event>, p0: set<Op>, f: Final, n: Node, frontier: nat,
    o: Options)
    requires Quiet(engine) && engine.pending == [] && DeskRun(Opened(engine, base), events).Some?
    requires Core(engine, p0)
      && Coherent(p0 + SetOf(OpsOf(DeskRun(Opened(engine, base), events).value.server.accepted)))
    requires f in DeskRun(Opened(engine, base), events).value.server.finalized && f.sent.op.Delete?
    requires n in Flat(DeskRun(Opened(engine, base), events).value.server.engine.tree)
      && n.deletedBy == Some(f.sent.op.id)
    requires frontier < f.seqno
    ensures Some(n.id) in Keys(Collect(DeskRun(Opened(engine, base), events).value.server.engine, frontier, o).tree)
  {
    hide DeskRun, Quiet, Core, Coherent, Collect, WF;
    NumberedRecord(engine, base, events, p0, f, n);
    var s := DeskRun(Opened(engine, base), events).value.server.engine;
    CollectsExactly(s, frontier, o, n);
    InItsSubtree(s, n);
  }

  lemma InItsSubtree(s: State, n: Node)
    requires WF(s) && n in Flat(s.tree)
    ensures Some(n.id) in Keys(s.tree) && n in Flat(Find(s.tree, Some(n.id)))
  {
    DocNode(s.tree, n);
    var t := Find(s.tree, Some(n.id));
    assert t.top.value in t.Self();
    assert t.top.value in Flat(t);
  }

  /**
   * And a childless one goes exactly once the frontier has reached its deletion's own number and the deletion lies
   * back far enough, in time or in operations applied from the replica that deleted it.
   */
  lemma TombstoneGoesExactly(engine: State, base: nat, events: seq<Event>, p0: set<Op>, f: Final, n: Node,
    frontier: nat, o: Options)
    requires Quiet(engine) && engine.pending == [] && DeskRun(Opened(engine, base), events).Some?
    requires Counted(engine) && Core(engine, p0)
      && Coherent(p0 + SetOf(OpsOf(DeskRun(Opened(engine, base), events).value.server.accepted)))
    requires f in DeskRun(Opened(engine, base), events).value.server.finalized && f.sent.op.Delete?
    requires
      var nodes := Flat(DeskRun(Opened(engine, base), events).value.server.engine.tree);
      n in nodes && n.deletedBy == Some(f.sent.op.id) && forall m :: m in nodes ==> m.parent != Some(n.id)
    ensures
      var s, w := DeskRun(Opened(engine, base), events).value.server.engine, f.sent.op.id;
      && w in s.deleteContext
      && (Some(n.id) !in Keys(Collect(s, frontier, o).tree) <==>
            && f.seqno <= frontier
            && (o.nowMs - s.deleteContext[w].atMs >= o.maxAgeMs
                || exists id :: id in s.applied && id.r == w.r && id.c >= w.c + o.maxOpsPerReplica))
  {
    hide DeskRun, Quiet, Core, Coherent, Collect, WF, Counted;
    NumberedRecord(engine, base, events, p0, f, n);
    RunCounted(engine, base, events);
    var s := DeskRun(Opened(engine, base), events).value.server.engine;
    ChildlessGoes(s, frontier, o, n);
    NotedMeans(s, f.sent.op.id, o.maxOpsPerReplica);
  }
}
