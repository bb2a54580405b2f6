/** Which operations one message gets numbered, in which order, and how they are grouped into commits. */
module Grouping {
  import opened Identifiers
  import opened Operations
  import opened EngineState
  import opened Intake
  import opened Coordination

  /** What of `q` does not wait among `kept`, in order. */
  function Out(q: seq<Op>, kept: seq<Op>): seq<Op> {
    if q == [] then []
    else
      var rest := Out(q[1..], kept);
      if exists o :: o in kept && o.id == q[0].id then rest else [q[0]] + rest
  }

  lemma {:induction false} DepartedIsOut(q: seq<Op>, kept: seq<Op>)
    ensures Departed(q, IdsOf(kept)) == Out(q, kept)
  {
    if q != [] {
      DepartedIsOut(q[1..], kept);
      assert q[0].id in IdsOf(kept) <==> exists o :: o in kept && o.id == q[0].id;
    }
  }

  lemma {:induction false} OutConcat(a: seq<Op>, b: seq<Op>, kept: seq<Op>)
    ensures Out(a + b, kept) == Out(a, kept) + Out(b, kept)
  {
    if a == [] {
      assert a + b == b;
    } else {
      assert (a + b)[1..] == a[1..] + b;
      OutConcat(a[1..], b, kept);
    }
  }

  lemma {:induction false} PickedIsOut(ops: seq<Op>, flags: seq<bool>, kept: seq<Op>)
    requires |ops| == |flags|
    requires forall o :: o in Picked(ops, flags, true) ==> HasId(kept, o.id)
    requires forall o :: o in Picked(ops, flags, false) ==> !HasId(kept, o.id)
    ensures Out(ops, kept) == Picked(ops, flags, false)
  {
    if ops != [] {
      var n := |ops| - 1;
      var init, op := ops[..n], ops[n];
      PickedIsOut(init, flags[..n], kept);
      OutConcat(init, [op], kept);
      assert ops == init + [op] && [op][1..] == [];
      assert flags[n] ==> op in Picked(ops, flags, true);
      assert !flags[n] ==> op in Picked(ops, flags, false);
      assert HasId(kept, op.id) <==> exists o :: o in kept && o.id == op.id;
    }
  }

  lemma {:induction false} OutAll(ops: seq<Op>, kept: seq<Op>)
    requires Out(ops, kept) == ops
    ensures forall o :: o in ops ==> !HasId(kept, o.id)
  {
    if ops != [] {
      OutShort(ops[1..], kept);
      OutAll(ops[1..], kept);
    }
  }

  lemma {:induction false} OutShort(q: seq<Op>, kept: seq<Op>)
    ensures |Out(q, kept)| <= |q|
  {
    if q != [] { OutShort(q[1..], kept); }
  }

  // ------------------------------------------------------------------ one message

  /** What is ready of the message in its order, from its sender; then what it set free, each from its own sender. */
  ghost predicate NumberedInOrder(sv: Server, ready: seq<Op>, freed: seq<Op>, origin: Origin, finals: seq<Final>) {
    var n := sv.currentSeq + 1;
    && |finals| == |ready| + |freed|
    && (forall i :: 0 <= i < |ready| ==> finals[i] == Final(n + i, Sent(ready[i], origin)))
    && forall i :: 0 <= i < |freed| ==>
         freed[i].id in sv.origins
         && finals[|ready| + i] == Final(n + |ready| + i, Sent(freed[i], sv.origins[freed[i].id]))
  }

  /** One commit for a message that is ready as a whole and sets nothing free, one for each operation otherwise. */
  ghost predicate Committed(ops: seq<Op>, origin: Origin, whole: bool, finals: seq<Final>, commits: seq<Commit>) {
    if whole then finals != [] && commits == [Commit(finals[0].seqno, ops, origin)]
    else
      && |commits| == |finals|
      && forall i :: 0 <= i < |finals| ==>
           commits[i] == Commit(finals[i].seqno, [finals[i].sent.op], finals[i].sent.origin)
  }

  lemma {:induction false} AllWithOrigins(q: seq<Op>, origins: map<Id, Origin>)
    requires forall o :: o in q ==> o.id in origins
    ensures |WithOrigins(q, origins)| == |q|
    ensures forall i :: 0 <= i < |q| ==>
              q[i].id in origins && WithOrigins(q, origins)[i] == Sent(q[i], origins[q[i].id])
  {
    if q != [] {
      assert q[0] in q && forall o :: o in q[1..] ==> o in q;
      AllWithOrigins(q[1..], origins);
    }
  }

  lemma ItemsInOrder(sv: Server, ready: seq<Op>, freed: seq<Op>, origin: Origin)
    requires forall o :: o in freed ==> o.id in sv.origins
    ensures NumberedInOrder(sv, ready, freed, origin,
              Numbered(SentBy(ready, origin) + WithOrigins(freed, sv.origins), sv.currentSeq))
  {
    AllWithOrigins(freed, sv.origins);
    forall i | 0 <= i < |freed| ensures freed[i].id in sv.origins { assert freed[i] in freed; }
  }

  lemma {:induction false} OutMembers(q: seq<Op>, kept: seq<Op>)
    ensures forall o :: o in Out(q, kept) ==> o in q
  {
    if q != [] {
      OutMembers(q[1..], kept);
      assert forall o :: o in q <==> o == q[0] || o in q[1..];
    }
  }

  /** What stays waiting of a message and of the buffer. */
  lemma Sides(s: State, ops: seq<Op>, r: Taken)
    requires Quiet(s) && TookIn(s, ops, r)
    ensures Picked(ops, r.buffered, false) == Out(ops, r.state.pending)
    ensures Departed(ById(s.pending), IdsOf(r.state.pending)) == Out(s.pending, r.state.pending)
    ensures Picked(ops, r.buffered, true) == [] <==> Out(ops, r.state.pending) == ops
  {
    hide Quiet, Waiting, Picked, IdsOf, Out, Departed, ById;
    var kept := r.state.pending;
    forall o | o in Picked(ops, r.buffered, true) ensures HasId(kept, o.id) { assert o in kept; }
    QuietUnapplied(r.state);
    forall o | o in Picked(ops, r.buffered, false) ensures !HasId(kept, o.id) { }
    PickedIsOut(ops, r.buffered, kept);
    QuietById(s);
    DepartedIsOut(s.pending, kept);
    if Picked(ops, r.buffered, true) == [] {
      AllPicked(ops, r.buffered);
    } else {
      PickedMembers(ops, r.buffered);
      var w := Picked(ops, r.buffered, true)[0];
      assert w in ops && HasId(kept, w.id);
      if Out(ops, kept) == ops { OutAll(ops, kept); }
    }
  }

  lemma QuietUnapplied(s: State)
    requires Quiet(s)
    ensures forall o :: o in s.pending ==> o.id !in s.applied
  {
  }

  lemma CommitsOf(sv: Server, ops: seq<Op>, origin: Origin, nowMs: int)
    requires WF(sv.engine)
    ensures
      var r := TakeAll(sv.engine, ops);
      var freed, t := Departed(ById(sv.engine.pending), IdsOf(r.state.pending)), Accept(sv, ops, origin, nowMs);
      && t.engine.pending == r.state.pending
      && |sv.commits| <= |t.commits| && |sv.finalized| <= |t.finalized|
      && t.commits[|sv.commits|..]
           == if Picked(ops, r.buffered, true) == [] && freed == [] then [Commit(sv.currentSeq + 1, ops, origin)]
              else OneCommitEach(t.finalized[|sv.finalized|..])
  {
    hide TakeAll, Picked, Departed, ById, WF, RecordDeletes, Numbered, SentBy, WithOrigins, OneCommitEach, IdsOf,
      RecordOrigins;
    var r := TakeAll(sv.engine, ops);
    var freed, t := Departed(ById(sv.engine.pending), IdsOf(r.state.pending)), Accept(sv, ops, origin, nowMs);
    RecordsOnly(sv, ops, origin, nowMs);
    var finals := t.finalized[|sv.finalized|..];
    assert |t.finalized| >= |sv.finalized|;
  }

  lemma RecordsOnly(sv: Server, ops: seq<Op>, origin: Origin, nowMs: int)
    requires WF(sv.engine)
    ensures Accept(sv, ops, origin, nowMs).engine.pending == TakeAll(sv.engine, ops).state.pending
  {
    hide TakeAll, Picked, Departed, ById, WF, Numbered, SentBy, WithOrigins, OneCommitEach, IdsOf, RecordOrigins;
    forall s: State, finals ensures RecordDeletes(s, finals, nowMs).pending == s.pending {
      RecordDeletesKeeps(s, finals, nowMs);
    }
  }

  /**
   * One message: what it makes ready is numbered first, in its order, and what it sets free after that, in the order
   * of the buffer.  If it was ready as a whole and set nothing free, there is one commit with all of it; otherwise
   * every operation numbered has its own.
   */
  lemma Grouped(sv: Server, m: Message, origin: Origin, nowMs: int, base: nat)
    requires Sound(sv, base) && FreshFor(sv, m, origin) && ToOperations(m) != []
    ensures
      var t, ops := Process(sv, m, origin, nowMs), ToOperations(m);
      var ready, freed := Out(ops, t.engine.pending), Out(sv.engine.pending, t.engine.pending);
      && sv.finalized <= t.finalized && |sv.commits| <= |t.commits|
      && NumberedInOrder(sv, ready, freed, origin, t.finalized[|sv.finalized|..])
      && Committed(ops, origin, ready == ops && freed == [], t.finalized[|sv.finalized|..], t.commits[|sv.commits|..])
  {
    hide TookIn, Out, Process, Accept, Conserved, SeqsOk, Quiet, Picked, Departed, ById, Resolved, WithOrigins, SentBy,
      Numbered, NumberedInOrder, Committed, FreshFor;
    var ops := ToOperations(m);
    SoundQuiet(sv, base);
    var r, t := TakeAll(sv.engine, ops), Process(sv, m, origin, nowMs);
    Accepts(sv, m, origin, nowMs);
    AcceptOutcome(sv, m, origin, nowMs, base);
    CommitsOf(sv, ops, origin, nowMs);
    Sides(sv.engine, ops, r);
    Items(sv, m, r, origin, t, base);
    GroupedAs(sv, ops, r.buffered, origin, t);
  }

  lemma Accepts(sv: Server, m: Message, origin: Origin, nowMs: int)
    requires WF(sv.engine) && ToOperations(m) != []
    ensures Process(sv, m, origin, nowMs) == Accept(sv, ToOperations(m), origin, nowMs)
  {
    hide Accept;
  }

  lemma Items(sv: Server, m: Message, r: Taken, origin: Origin, t: Server, base: nat)
    requires Sound(sv, base) && FreshFor(sv, m, origin) && TookIn(sv.engine, ToOperations(m), r)
    requires Coordination.Outcome(sv, ToOperations(m), r, origin, t) && t.engine.pending == r.state.pending
    requires Picked(ToOperations(m), r.buffered, false) == Out(ToOperations(m), r.state.pending)
    requires Departed(ById(sv.engine.pending), IdsOf(r.state.pending)) == Out(sv.engine.pending, r.state.pending)
    ensures sv.finalized <= t.finalized
    ensures NumberedInOrder(sv, Out(ToOperations(m), t.engine.pending), Out(sv.engine.pending, t.engine.pending),
              origin, t.finalized[|sv.finalized|..])
  {
    hide TookIn, Out, Conserved, SeqsOk, Quiet, Picked, Departed, ById, Resolved, WithOrigins, SentBy, Numbered,
      NumberedInOrder, AllNew;
    var ops := ToOperations(m);
    SoundQuiet(sv, base);
    QuietById(sv.engine);
    FreedIsResolved(sv.engine, ops, r);
    var ready, freed := Out(ops, r.state.pending), Out(sv.engine.pending, r.state.pending);
    OutMembers(sv.engine.pending, r.state.pending);
    ItemsInOrder(sv, ready, freed, origin);
    var items := SentBy(ready, origin) + WithOrigins(freed, sv.origins);
    assert t.finalized[|sv.finalized|..] == Numbered(items, sv.currentSeq);
  }

  lemma GroupedAs(sv: Server, ops: seq<Op>, buffered: seq<bool>, origin: Origin, t: Server)
    requires |buffered| == |ops| && ops != []
    requires |sv.commits| <= |t.commits| && |sv.finalized| <= |t.finalized|
    requires
      var ready, freed := Out(ops, t.engine.pending), Out(sv.engine.pending, t.engine.pending);
      && NumberedInOrder(sv, ready, freed, origin, t.finalized[|sv.finalized|..])
      && (Picked(ops, buffered, true) == [] <==> ready == ops)
      && t.commits[|sv.commits|..]
           == if Picked(ops, buffered, true) == [] && freed == [] then [Commit(sv.currentSeq + 1, ops, origin)]
              else OneCommitEach(t.finalized[|sv.finalized|..])
    ensures
      var ready, freed := Out(ops, t.engine.pending), Out(sv.engine.pending, t.engine.pending);
      Committed(ops, origin, ready == ops && freed == [], t.finalized[|sv.finalized|..], t.commits[|sv.commits|..])
  {
    hide Out, Picked;
  }
}
