/** Operations sent again: one already applied is numbered a second time, one still waiting is not. */
module Resent {
  import opened Identifiers
  import opened Operations
  import opened FugueShape
  import opened FugueTrees
  import opened EngineState
  import opened OpSets
  import opened FlagOrder
  import opened Intake
  import opened Coordination
  import opened NumberOrder

  lemma TakeOne(s: State, op: Op)
    requires WF(s)
    ensures var d := ApplyRemote(s, op, None);
      TakeAll(s, [op]) == Taken(d.state, [d.buffered])
      && Picked([op], [d.buffered], true) == (if d.buffered then [op] else [])
      && Picked([op], [d.buffered], false) == (if d.buffered then [] else [op])
  {
    hide ApplyRemote;
    assert [op][..0] == [];
  }

  lemma {:induction false} NothingDeparted(q: seq<Op>, ids: set<Id>)
    requires forall o :: o in q ==> o.id in ids
    ensures Departed(q, ids) == []
  {
    if q != [] { NothingDeparted(q[1..], ids); }
  }

  lemma NothingLeft(q: seq<Op>, more: seq<Op>)
    ensures Departed(ById(q), IdsOf(q + more)) == []
  {
    ByIdExact(q);
    forall o | o in ById(q) ensures o.id in IdsOf(q + more) {
      assert o.id in IdsOf(ById(q));
      var p :| p in q && p.id == o.id;
      assert p in q + more;
    }
    NothingDeparted(ById(q), IdsOf(q + more));
  }

  /** An applied operation sent again changes nothing in the document, but is numbered and committed anew. */
  lemma AppliedNumberedAgain(sv: Server, op: Op, origin: Origin, nowMs: int)
    requires WF(sv.engine) && op.id in sv.engine.applied
    ensures
      var t := Process(sv, One(op), origin, nowMs);
      && t.engine == sv.engine.(deleteContext := t.engine.deleteContext)
      && t.finalized == sv.finalized + [Final(sv.currentSeq + 1, Sent(op, origin))]
      && t.commits == sv.commits + [Commit(sv.currentSeq + 1, [op], origin)]
      && t.currentSeq == sv.currentSeq + 1
  {
    hide TakeAll, Picked, Departed, ById, DoApply, Drain, WF;
    TakeOne(sv.engine, op);
    assert sv.engine.pending + [] == sv.engine.pending;
    NothingLeft(sv.engine.pending, []);
    RecordDeletesKeeps(sv.engine, Numbered(SentBy([op], origin), sv.currentSeq), nowMs);
    assert SentBy([op], origin) == [Sent(op, origin)];
  }

  /** A waiting operation sent again is not numbered: it waits a second time, now for its new sender. */
  lemma WaitingWaitsTwice(sv: Server, op: Op, origin: Origin, nowMs: int)
    requires WF(sv.engine) && op.id !in sv.engine.applied && !Ready(sv.engine.tree, op)
    ensures
      var t := Process(sv, One(op), origin, nowMs);
      && t.engine == sv.engine.(pending := sv.engine.pending + [op])
      && t.finalized == sv.finalized && t.currentSeq == sv.currentSeq && t.commits == sv.commits
      && t.origins == sv.origins[op.id := origin]
  {
    hide TakeAll, Picked, Departed, ById, DoApply, Drain, WF;
    TakeOne(sv.engine, op);
    NothingLeft(sv.engine.pending, [op]);
    assert IdsOf([op]) == {op.id};
    assert IdsOf([]) == {};
  }

  /** The sweep applies one of two copies and discards the other. */
  lemma CopiesDrain(u: State, op: Op)
    requires WF(u) && u.pending == [op, op] && op.id !in u.applied && Ready(u.tree, op)
    ensures Drain(u) == DoApply(u, op).(pending := [])
  {
    hide DoApply, WF, Effect, Ready;
    var v := DrainStep(u, 1);
    assert DrainDownTo(u, 2) == u && DrainDownTo(u, 1) == v;
    assert SeqRemove([op, op], 1) == [op] && SeqRemove([op], 0) == [];
    AppliesIt(u, op);
    assert v.pending == [op] && op.id in v.applied;
    var w := DrainStep(v, 0);
    assert w == DoApply(u, op).(pending := []) && DrainDownTo(u, 0) == w;
    DrainNothing(w);
  }

  lemma AppliesIt(u: State, op: Op)
    requires WF(u) && op.id !in u.applied && Ready(u.tree, op)
    ensures op.id in DoApply(u, op).applied && DoApply(u, op).pending == u.pending
  {
  }

  lemma Unblocks(s: State, ins: Op, op: Op)
    requires WF(s) && ins.Insert? && ins.id !in s.applied && Ready(s.tree, ins) && Needs(op) == Some(ins.id)
    requires op.id !in s.applied && ins.id != op.id
    ensures DoApply(s, ins).pending == s.pending && op.id !in DoApply(s, ins).applied && Ready(DoApply(s, ins).tree, op)
  {
    hide Unique, Placed, Effect;
    EffectDoc(s, ins);
  }

  /** An operation that waits twice is set free, and numbered, once, for its last sender. */
  lemma FreedOnce(sv: Server, ins: Op, op: Op, origin: Origin, nowMs: int)
    requires WF(sv.engine) && sv.engine.pending == [op, op] && op.id !in sv.engine.applied && op.id in sv.origins
    requires ins.Insert? && ins.id !in sv.engine.applied && Ready(sv.engine.tree, ins) && ins.id != op.id
    requires Needs(op) == Some(ins.id)
    ensures
      var t := Process(sv, One(ins), origin, nowMs);
      && t.engine.pending == [] && op.id in t.engine.applied && op.id !in t.origins
      && t.finalized == sv.finalized
           + [Final(sv.currentSeq + 1, Sent(ins, origin)), Final(sv.currentSeq + 2, Sent(op, sv.origins[op.id]))]
  {
    hide TakeAll, Picked, Departed, ById, Drain, WF, DoApply, Ready, RecordDeletes, SlowItems, IdsOf, RecordOrigins;
    var s := sv.engine;
    var u := DoApply(s, ins);
    Unblocks(s, ins, op);
    CopiesDrain(u, op);
    AppliesIt(u, op);
    TakeOne(s, ins);
    TwoCopies(op);
    var sv1 := sv.(engine := Drain(u), accepted := sv.accepted + SentBy([ins], origin));
    TwoItems(sv1, ins, op, origin);
    var items := SlowItems(sv1, [ins], [op], origin);
    RecordDeletesKeeps(Drain(u), Numbered(items, sv.currentSeq), nowMs);
    NothingRecorded(sv.origins, origin);
  }

  lemma NothingRecorded(origins: map<Id, Origin>, origin: Origin)
    ensures RecordOrigins(origins, [], origin) == origins && IdsOf([]) == {}
  {
  }

  lemma TwoItems(sv: Server, ins: Op, op: Op, origin: Origin)
    requires op.id in sv.origins
    ensures SlowItems(sv, [ins], [op], origin) == [Sent(ins, origin), Sent(op, sv.origins[op.id])]
  {
    assert [op][1..] == [];
    assert WithOrigins([op], sv.origins) == [Sent(op, sv.origins[op.id])] + [] == [Sent(op, sv.origins[op.id])];
    assert SentBy([ins], origin) == [Sent(ins, origin)];
  }

  lemma TwoCopies(op: Op)
    ensures ById([op, op]) == [op] && Departed([op], IdsOf([])) == [op] && IdsOf([op]) == {op.id}
  {
    assert [op, op][..1] == [op] && [op][..0] == [] && [op][1..] == [];
    assert ById([op]) == [op];
  }

  // ------------------------------------------------------------------ the account

  /** The account by operations alone, whoever sent them. */
  function Accounted(sv: Server): multiset<Op> {
    multiset(FinalOps(sv.finalized)) + multiset(sv.engine.pending) + multiset(OpsOf(sv.evicted))
  }

  lemma OneMore(sv: Server, op: Op, origin: Origin)
    ensures OpsOf(sv.accepted + SentBy([op], origin)) == OpsOf(sv.accepted) + [op]
    ensures sv.accepted + SentBy([op], origin) == sv.accepted + [Sent(op, origin)]
  {
  }

  lemma NumberedMore(sv: Server, n: nat, op: Op, origin: Origin)
    ensures SentOf(sv.finalized + [Final(n, Sent(op, origin))]) == SentOf(sv.finalized) + [Sent(op, origin)]
    ensures FinalOps(sv.finalized + [Final(n, Sent(op, origin))]) == FinalOps(sv.finalized) + [op]
    ensures AllEntries(sv.commits + [Commit(n, [op], origin)]) == AllEntries(sv.commits) + [Final(n, Sent(op, origin))]
  {
    var c := Commit(n, [op], origin);
    assert (sv.commits + [c])[..|sv.commits|] == sv.commits;
    assert Entries(c) == [Final(n, Sent(op, origin))];
  }

  /**
   * Numbering an applied operation again keeps the account, the numbers and the commits in step, and a log that was
   * causal stays so.
   */
  lemma AgainStaysSound(sv: Server, op: Op, origin: Origin, nowMs: int, base: nat, keys: set<Key>)
    requires WF(sv.engine) && op.id in sv.engine.applied && Conserved(sv) && SeqsOk(sv, base)
    requires Needs(op) in Keys(sv.engine.tree) && Keys(sv.engine.tree) == keys + KeysOf(FinalOps(sv.finalized))
    ensures
      var t := Process(sv, One(op), origin, nowMs);
      && Conserved(t) && SeqsOk(t, base)
      && (Causal(keys, FinalOps(t.finalized)) <==> Causal(keys, FinalOps(sv.finalized)))
  {
    hide Process, WithOrigins, WF, Causal, KeysOf, AllEntries, SentBy, FinalOps;
    var t := Process(sv, One(op), origin, nowMs);
    AppliedNumberedAgain(sv, op, origin, nowMs);
    AgainRest(sv, op, origin, nowMs);
    NumberedMore(sv, sv.currentSeq + 1, op, origin);
    CausalConcat(keys, FinalOps(sv.finalized), [op]);
    CausalOne(keys + KeysOf(FinalOps(sv.finalized)), op);
    ConservedOne(sv, t, Sent(op, origin));
  }

  lemma ConservedOne(sv: Server, t: Server, x: Sent)
    requires Conserved(sv) && t.accepted == sv.accepted + [x] && SentOf(t.finalized) == SentOf(sv.finalized) + [x]
    requires WithOrigins(t.engine.pending, t.origins) == WithOrigins(sv.engine.pending, sv.origins)
    requires t.evicted == sv.evicted
    ensures Conserved(t)
  {
    hide WithOrigins, SentOf;
  }

  lemma AgainRest(sv: Server, op: Op, origin: Origin, nowMs: int)
    requires WF(sv.engine) && op.id in sv.engine.applied
    ensures
      var t := Process(sv, One(op), origin, nowMs);
      t.origins == sv.origins && t.evicted == sv.evicted && t.accepted == sv.accepted + [Sent(op, origin)]
  {
    hide TakeAll, Picked, Departed, ById, DoApply, Drain, WF, RecordDeletes;
    TakeOne(sv.engine, op);
    assert sv.engine.pending + [] == sv.engine.pending;
    NothingLeft(sv.engine.pending, []);
    NothingRecorded(sv.origins, origin);
    OneMore(sv, op, origin);
  }

  /** A copy that waits keeps the account by operations; with the senders it is kept only if the sender is the same. */
  lemma CopyAccounted(sv: Server, op: Op, origin: Origin, nowMs: int)
    requires WF(sv.engine) && op.id !in sv.engine.applied && !Ready(sv.engine.tree, op)
    requires Conserved(sv) && DistinctIds(sv.engine.pending) && sv.origins.Keys == IdsOf(sv.engine.pending)
    requires op in sv.engine.pending && multiset(OpsOf(sv.accepted)) == Accounted(sv)
    ensures op.id in sv.origins
    ensures
      var t := Process(sv, One(op), origin, nowMs);
      && multiset(OpsOf(t.accepted)) == Accounted(t)
      && (Conserved(t) <==> sv.origins[op.id] == origin)
  {
    hide Process, WF, FinalOps, OpsOf, Conserved, IdsOf, SentBy, WithOrigins;
    var t := Process(sv, One(op), origin, nowMs);
    WaitingWaitsTwice(sv, op, origin, nowMs);
    CopyRest(sv, op, origin, nowMs);
    OneMore(sv, op, origin);
    InIds(sv.engine.pending, op);
    CopySenders(sv, t, op, origin);
  }

  lemma InIds(q: seq<Op>, op: Op)
    requires op in q
    ensures op.id in IdsOf(q)
  {
  }

  lemma CopyRest(sv: Server, op: Op, origin: Origin, nowMs: int)
    requires WF(sv.engine) && op.id !in sv.engine.applied && !Ready(sv.engine.tree, op)
    ensures
      var t := Process(sv, One(op), origin, nowMs);
      t.accepted == sv.accepted + SentBy([op], origin) && t.evicted == sv.evicted
  {
    hide TakeAll, Picked, Departed, ById, DoApply, Drain, WF;
    TakeOne(sv.engine, op);
  }

  lemma CopySenders(sv: Server, t: Server, op: Op, origin: Origin)
    requires Conserved(sv) && DistinctIds(sv.engine.pending) && op in sv.engine.pending && op.id in sv.origins
    requires t.accepted == sv.accepted + [Sent(op, origin)] && t.finalized == sv.finalized && t.evicted == sv.evicted
    requires t.engine.pending == sv.engine.pending + [op] && t.origins == sv.origins[op.id := origin]
    ensures Conserved(t) <==> sv.origins[op.id] == origin
  {
    hide SentOf, DistinctIds;
    var q, x, was := sv.engine.pending, Sent(op, origin), Sent(op, sv.origins[op.id]);
    WithOriginsConcat(q, [op], t.origins);
    WithOriginsOne(op, t.origins);
    if sv.origins[op.id] == origin {
      assert t.origins == sv.origins;
    } else {
      SenderGone(q, t.origins, op, was);
      SenderThere(q, sv.origins, op);
      assert multiset(t.accepted)[was] == multiset(sv.accepted)[was];
    }
  }

  lemma WithOriginsOne(op: Op, origins: map<Id, Origin>)
    requires op.id in origins
    ensures WithOrigins([op], origins) == [Sent(op, origins[op.id])]
  {
    assert [op][1..] == [];
  }

  lemma SenderGone(q: seq<Op>, origins: map<Id, Origin>, op: Op, x: Sent)
    requires op.id in origins && x.op == op && x.origin != origins[op.id]
    ensures multiset(WithOrigins(q, origins))[x] == 0
  {
    WithOriginsMembers(q, origins);
  }

  lemma {:induction false} SenderThere(q: seq<Op>, origins: map<Id, Origin>, op: Op)
    requires op in q && op.id in origins
    ensures multiset(WithOrigins(q, origins))[Sent(op, origins[op.id])] >= 1
  {
    if q[0] != op {
      SenderThere(q[1..], origins, op);
    } else {
      assert WithOrigins(q, origins)[0] == Sent(op, origins[op.id]);
    }
  }

  /** Of an operation that waited twice, one copy is numbered and the other drops out of the account. */
  lemma FreedLosesOne(sv: Server, ins: Op, op: Op, origin: Origin, nowMs: int)
    requires WF(sv.engine) && sv.engine.pending == [op, op] && op.id !in sv.engine.applied && op.id in sv.origins
    requires ins.Insert? && ins.id !in sv.engine.applied && Ready(sv.engine.tree, ins) && ins.id != op.id
    requires Needs(op) == Some(ins.id) && multiset(OpsOf(sv.accepted)) == Accounted(sv)
    ensures
      var t := Process(sv, One(ins), origin, nowMs);
      multiset(OpsOf(t.accepted)) == Accounted(t) + multiset{op}
  {
    hide Process, WF, OpsOf, FinalOps;
    var t := Process(sv, One(ins), origin, nowMs);
    FreedOnce(sv, ins, op, origin, nowMs);
    FreedRest(sv, ins, origin, nowMs);
    OneMore(sv, ins, origin);
    TwoMore(sv, ins, op, origin);
    assert multiset([op, op]) == multiset{op, op};
  }

  lemma FreedRest(sv: Server, ins: Op, origin: Origin, nowMs: int)
    requires WF(sv.engine)
    ensures
      var t := Process(sv, One(ins), origin, nowMs);
      t.accepted == sv.accepted + SentBy([ins], origin) && t.evicted == sv.evicted
  {
    hide TakeAll, Picked, Departed, ById, WF, RecordDeletes, SlowItems, RecordOrigins;
  }

  lemma TwoMore(sv: Server, ins: Op, op: Op, origin: Origin)
    requires op.id in sv.origins
    ensures FinalOps(sv.finalized + [Final(sv.currentSeq + 1, Sent(ins, origin)),
                                     Final(sv.currentSeq + 2, Sent(op, sv.origins[op.id]))])
         == FinalOps(sv.finalized) + [ins, op]
  {
  }
}
