/** A document's coordinator as a value: accepting messages, finalizing operations, evicting. */
module Coordination {
  import opened Identifiers
  import opened Operations
  import opened EngineState
  import opened Replica
  import opened Intake

  /** Who submitted an operation. */
  datatype Origin = Origin(session: nat, replica: nat)

  datatype Sent = Sent(op: Op, origin: Origin)

  /** A finalized operation: it has a sequence number, and was relayed and queued for commit. */
  datatype Final = Final(seqno: nat, sent: Sent)

  /** One call of the store: operations with consecutive sequence numbers from `startSeq` on. */
  datatype Commit = Commit(startSeq: nat, ops: seq<Op>, origin: Origin)

  /**
   * `finalized`, `evicted` and `accepted` are histories; the rest is what the coordinator keeps.
   */
  datatype Server = Server(
    engine: State, currentSeq: nat, origins: map<Id, Origin>, firstSeen: map<Id, int>, commits: seq<Commit>,
    finalized: seq<Final>, evicted: seq<Sent>, accepted: seq<Sent>)

  function IdsOf(q: seq<Op>): set<Id> {
    set o | o in q :: o.id
  }

  /** The operations of `before` that are not in `after` any more, in the order of `before`. */
  function Departed(before: seq<Op>, after: set<Id>): seq<Op> {
    if before == [] then [] else (if before[0].id in after then [] else [before[0]]) + Departed(before[1..], after)
  }

  /** A map keeps its first place for an identifier and its last value. */
  function Upsert(q: seq<Op>, op: Op): seq<Op> {
    if q == [] then [op]
    else if q[0].id == op.id then [op] + q[1..]
    else [q[0]] + Upsert(q[1..], op)
  }

  /** A buffer as a map by identifier, in insertion order: an operation sent again counts once. */
  function ById(q: seq<Op>): seq<Op> {
    if q == [] then [] else Upsert(ById(q[..|q| - 1]), q[|q| - 1])
  }

  function SentBy(ops: seq<Op>, origin: Origin): seq<Sent> {
    seq(|ops|, i requires 0 <= i < |ops| => Sent(ops[i], origin))
  }

  /** With their recorded origins; an operation without one is skipped. */
  function WithOrigins(ops: seq<Op>, origins: map<Id, Origin>): seq<Sent> {
    if ops == [] then []
    else (if ops[0].id in origins then [Sent(ops[0], origins[ops[0].id])] else []) + WithOrigins(ops[1..], origins)
  }

  function RecordOrigins(origins: map<Id, Origin>, ops: seq<Op>, origin: Origin): map<Id, Origin> {
    map k | k in origins.Keys + IdsOf(ops) :: if k in IdsOf(ops) then origin else origins[k]
  }

  function Numbered(items: seq<Sent>, after: nat): seq<Final> {
    seq(|items|, i requires 0 <= i < |items| => Final(after + 1 + i, items[i]))
  }

  /** Commit records for the collector: every delete gets its sequence number. */
  function RecordDeletes(s: State, items: seq<Final>, nowMs: int): State {
    if items == [] then s
    else
      var before := RecordDeletes(s, items[..|items| - 1], nowMs);
      var f := items[|items| - 1];
      if f.sent.op.Delete?
      then before.(deleteContext := before.deleteContext[f.sent.op.id := Context(f.seqno, nowMs)]) else before
  }

  function OneCommitEach(items: seq<Final>): seq<Commit> {
    seq(|items|, i requires 0 <= i < |items| => Commit(items[i].seqno, [items[i].sent.op], items[i].sent.origin))
  }

  /** Numbers the items and queues the given commits. */
  function Finalize(sv: Server, items: seq<Sent>, commits: seq<Commit>, nowMs: int): Server {
    var finals := Numbered(items, sv.currentSeq);
    sv.(engine := RecordDeletes(sv.engine, finals, nowMs),
        currentSeq := sv.currentSeq + |items|,
        commits := sv.commits + commits,
        finalized := sv.finalized + finals)
  }

  /** Everything in the message was ready and set nothing else free: one commit for the whole message. */
  function FastPath(sv: Server, ops: seq<Op>, origin: Origin, nowMs: int): Server {
    Finalize(sv, SentBy(ops, origin), [Commit(sv.currentSeq + 1, ops, origin)], nowMs)
  }

  /** What is ready of the message, then what it set free with its own sender; one commit each. */
  function SlowItems(sv: Server, ready: seq<Op>, freed: seq<Op>, origin: Origin): seq<Sent> {
    SentBy(ready, origin) + WithOrigins(freed, sv.origins)
  }

  function SlowPath(sv: Server, ready: seq<Op>, freed: seq<Op>, origin: Origin, nowMs: int): Server {
    var items := SlowItems(sv, ready, freed, origin);
    Finalize(sv.(origins := sv.origins - IdsOf(freed)), items, OneCommitEach(Numbered(items, sv.currentSeq)), nowMs)
  }

  /** The synchronous part of one admitted message; a message without operations does nothing. */
  function Process(sv: Server, m: Message, origin: Origin, nowMs: int): Server
    requires WF(sv.engine)
  {
    if ToOperations(m) == [] then sv else Accept(sv, ToOperations(m), origin, nowMs)
  }

  function Accept(sv: Server, ops: seq<Op>, origin: Origin, nowMs: int): Server
    requires WF(sv.engine)
  {
    var r := TakeAll(sv.engine, ops);
    var waiting := Picked(ops, r.buffered, true);
    var freed := Departed(ById(sv.engine.pending), IdsOf(r.state.pending));
    var sv1 := sv.(engine := r.state, origins := RecordOrigins(sv.origins, waiting, origin),
                   accepted := sv.accepted + SentBy(ops, origin));
    if waiting == [] && freed == [] then FastPath(sv1, ops, origin, nowMs)
    else SlowPath(sv1, Picked(ops, r.buffered, false), freed, origin, nowMs)
  }

  // ------------------------------------------------------------------ the invariant

  function SentOf(finals: seq<Final>): seq<Sent> {
    seq(|finals|, i requires 0 <= i < |finals| => finals[i].sent)
  }

  function OpsOf(items: seq<Sent>): seq<Op> {
    seq(|items|, i requires 0 <= i < |items| => items[i].op)
  }

  /** The sequence numbers a commit covers, with their operations. */
  function Entries(c: Commit): seq<Final> {
    seq(|c.ops|, i requires 0 <= i < |c.ops| => Final(c.startSeq + i, Sent(c.ops[i], c.origin)))
  }

  function AllEntries(cs: seq<Commit>): seq<Final> {
    if cs == [] then [] else AllEntries(cs[..|cs| - 1]) + Entries(cs[|cs| - 1])
  }

  /** Sequence numbers are handed out contiguously after `base`, and committed in that order. */
  ghost predicate SeqsOk(sv: Server, base: nat) {
    && sv.currentSeq == base + |sv.finalized|
    && (forall i :: 0 <= i < |sv.finalized| ==> sv.finalized[i].seqno == base + 1 + i)
    && AllEntries(sv.commits) == sv.finalized
  }

  /** Every accepted operation, with its sender, is finalized, waiting or evicted, and only once. */
  ghost predicate Conserved(sv: Server) {
    multiset(sv.accepted)
      == multiset(SentOf(sv.finalized)) + multiset(WithOrigins(sv.engine.pending, sv.origins)) + multiset(sv.evicted)
  }

  /** What is finalized is applied; what is evicted or accepted twice does not exist. */
  ghost predicate Sound(sv: Server, base: nat) {
    && Quiet(sv.engine) && SeqsOk(sv, base) && Conserved(sv)
    && sv.origins.Keys == IdsOf(sv.engine.pending)
    && DistinctIds(OpsOf(sv.accepted))
    && (forall f :: f in sv.finalized ==> f.sent.op.id in sv.engine.applied)
    && (forall x :: x in sv.accepted ==> x.op.id.r == x.origin.replica)
  }

  // ------------------------------------------------------------------ bookkeeping lemmas

  lemma IdsOfFirst(op: Op, q: seq<Op>)
    ensures IdsOf([op] + q) == {op.id} + IdsOf(q)
  {
    assert forall o :: o in [op] + q <==> o == op || o in q;
  }

  lemma IdsOfLast(q: seq<Op>, op: Op)
    ensures IdsOf(q + [op]) == IdsOf(q) + {op.id}
  {
    assert forall o :: o in q + [op] <==> o in q || o == op;
  }

  lemma IdsOfAt(q: seq<Op>, id: Id)
    ensures id in IdsOf(q) <==> exists i :: 0 <= i < |q| && q[i].id == id
  {
    forall i | 0 <= i < |q| ensures q[i].id in IdsOf(q) { assert q[i] in q; }
  }

  lemma DistinctFirst(op: Op, q: seq<Op>)
    ensures DistinctIds([op] + q) <==> DistinctIds(q) && op.id !in IdsOf(q)
  {
    hide IdsOf;
    IdsOfAt(q, op.id);
    var w := [op] + q;
    if DistinctIds(w) {
      forall i, j | 0 <= i < j < |q| ensures q[i].id != q[j].id { assert w[i + 1] == q[i] && w[j + 1] == q[j]; }
      forall i | 0 <= i < |q| ensures q[i].id != op.id { assert w[0] == op && w[i + 1] == q[i]; }
    }
    if DistinctIds(q) && op.id !in IdsOf(q) {
      forall i, j | 0 <= i < j < |w| ensures w[i].id != w[j].id { assert w[j] == q[j - 1]; }
    }
  }

  lemma DistinctLast(q: seq<Op>, op: Op)
    ensures DistinctIds(q + [op]) <==> DistinctIds(q) && op.id !in IdsOf(q)
  {
    hide IdsOf;
    IdsOfAt(q, op.id);
    var w := q + [op];
    if DistinctIds(w) {
      forall i, j | 0 <= i < j < |q| ensures q[i].id != q[j].id { assert w[i] == q[i] && w[j] == q[j]; }
      forall i | 0 <= i < |q| ensures q[i].id != op.id { assert w[|q|] == op && w[i] == q[i]; }
    }
    if DistinctIds(q) && op.id !in IdsOf(q) {
      forall i, j | 0 <= i < j < |w| ensures w[i].id != w[j].id { assert w[i] == q[i]; }
    }
  }

  lemma NothingDistinct()
    ensures DistinctIds([]) && IdsOf([]) == {}
  {
  }

  lemma {:induction false} UpsertOne(q: seq<Op>, op: Op)
    requires DistinctIds(q)
    ensures DistinctIds(Upsert(q, op)) && IdsOf(Upsert(q, op)) == IdsOf(q) + {op.id}
    ensures op.id !in IdsOf(q) ==> Upsert(q, op) == q + [op]
  {
    hide IdsOf, DistinctIds;
    if q == [] {
      IdsOfLast(q, op);
      DistinctLast(q, op);
      NothingDistinct();
      assert q + [op] == [op];
    } else {
      var rest := q[1..];
      assert q == [q[0]] + rest;
      DistinctFirst(q[0], rest);
      IdsOfFirst(q[0], rest);
      if q[0].id == op.id {
        DistinctFirst(op, rest);
        IdsOfFirst(op, rest);
      } else {
        UpsertOne(rest, op);
        DistinctFirst(q[0], Upsert(rest, op));
        IdsOfFirst(q[0], Upsert(rest, op));
        assert [q[0]] + (rest + [op]) == q + [op];
      }
    }
  }

  /** The map has each identifier of the buffer once; a buffer without repetition is its own map. */
  lemma {:induction false} ByIdExact(q: seq<Op>)
    ensures DistinctIds(ById(q)) && IdsOf(ById(q)) == IdsOf(q)
    ensures DistinctIds(q) ==> ById(q) == q
  {
    hide IdsOf, DistinctIds, Upsert;
    if q == [] {
      assert ById(q) == q;
      NothingDistinct();
    } else {
      var init, op := q[..|q| - 1], q[|q| - 1];
      ByIdExact(init);
      UpsertOne(ById(init), op);
      assert q == init + [op];
      IdsOfLast(init, op);
      DistinctLast(init, op);
    }
  }

  lemma {:induction false} DepartedResolved(before: seq<Op>, after: set<Id>, applied: set<Id>)
    requires forall o :: o in before ==> (o.id in after <==> o.id !in applied)
    ensures Departed(before, after) == Resolved(before, applied)
  {
    if before != [] {
      assert before[0] in before && forall o :: o in before[1..] ==> o in before;
      DepartedResolved(before[1..], after, applied);
    }
  }

  lemma WaitingResolvedCons(o: Op, q: seq<Op>, applied: set<Id>)
    ensures Waiting([o] + q, applied) == (if o.id in applied then [] else [o]) + Waiting(q, applied)
    ensures Resolved([o] + q, applied) == (if o.id in applied then [o] else []) + Resolved(q, applied)
  {
    assert ([o] + q)[1..] == q;
  }

  lemma {:induction false} WithOriginsSplit(q: seq<Op>, applied: set<Id>, origins: map<Id, Origin>)
    ensures multiset(WithOrigins(q, origins))
         == multiset(WithOrigins(Waiting(q, applied), origins)) + multiset(WithOrigins(Resolved(q, applied), origins))
  {
    if q != [] {
      WithOriginsSplit(q[1..], applied, origins);
      assert q == [q[0]] + q[1..];
      SplitCons(q[0], q[1..], applied, origins);
    }
  }

  lemma SplitCons(o: Op, q: seq<Op>, applied: set<Id>, origins: map<Id, Origin>)
    requires multiset(WithOrigins(q, origins))
          == multiset(WithOrigins(Waiting(q, applied), origins)) + multiset(WithOrigins(Resolved(q, applied), origins))
    ensures multiset(WithOrigins([o] + q, origins))
         == multiset(WithOrigins(Waiting([o] + q, applied), origins))
           + multiset(WithOrigins(Resolved([o] + q, applied), origins))
  {
    hide WithOrigins, Waiting, Resolved;
    WaitingResolvedCons(o, q, applied);
    WithOriginsCons(o, q, origins);
    WithOriginsCons(o, Waiting(q, applied), origins);
    WithOriginsCons(o, Resolved(q, applied), origins);
    assert [] + Waiting(q, applied) == Waiting(q, applied) && [] + Resolved(q, applied) == Resolved(q, applied);
  }

  lemma WithOriginsCons(o: Op, q: seq<Op>, origins: map<Id, Origin>)
    ensures WithOrigins([o] + q, origins)
         == (if o.id in origins then [Sent(o, origins[o.id])] else []) + WithOrigins(q, origins)
  {
    assert ([o] + q)[1..] == q;
  }

  lemma {:induction false} WithOriginsConcat(a: seq<Op>, b: seq<Op>, origins: map<Id, Origin>)
    ensures WithOrigins(a + b, origins) == WithOrigins(a, origins) + WithOrigins(b, origins)
  {
    if a == [] {
      assert a + b == b;
    } else {
      assert a + b == [a[0]] + (a[1..] + b) && a == [a[0]] + a[1..];
      WithOriginsCons(a[0], a[1..] + b, origins);
      WithOriginsConcat(a[1..], b, origins);
    }
  }

  /** Only the operations' own records matter. */
  lemma {:induction false} WithOriginsSame(q: seq<Op>, f: map<Id, Origin>, g: map<Id, Origin>)
    requires forall o :: o in q ==> o.id in f && o.id in g && f[o.id] == g[o.id]
    ensures WithOrigins(q, f) == WithOrigins(q, g)
  {
    if q != [] {
      assert q[0] in q && forall o :: o in q[1..] ==> o in q;
      WithOriginsSame(q[1..], f, g);
    }
  }

  lemma {:induction false} WithOriginsAll(q: seq<Op>, origins: map<Id, Origin>, origin: Origin)
    requires forall o :: o in q ==> o.id in origins && origins[o.id] == origin
    ensures WithOrigins(q, origins) == SentBy(q, origin)
  {
    if q != [] {
      assert q[0] in q && forall o :: o in q[1..] ==> o in q;
      WithOriginsAll(q[1..], origins, origin);
      assert SentBy(q, origin) == [Sent(q[0], origin)] + SentBy(q[1..], origin);
    }
  }

  lemma {:induction false} PickedSplit(ops: seq<Op>, flags: seq<bool>, origin: Origin)
    requires |ops| == |flags|
    ensures multiset(SentBy(ops, origin))
         == multiset(SentBy(Picked(ops, flags, true), origin)) + multiset(SentBy(Picked(ops, flags, false), origin))
  {
    if ops != [] {
      var n := |ops| - 1;
      PickedSplit(ops[..n], flags[..n], origin);
      assert SentBy(ops, origin) == SentBy(ops[..n], origin) + [Sent(ops[n], origin)];
      SentByMore(Picked(ops[..n], flags[..n], true), ops[n], origin);
      SentByMore(Picked(ops[..n], flags[..n], false), ops[n], origin);
      assert flags[n] ==> Picked(ops, flags, false) == Picked(ops[..n], flags[..n], false);
      assert !flags[n] ==> Picked(ops, flags, true) == Picked(ops[..n], flags[..n], true);
    }
  }

  lemma SentByMore(q: seq<Op>, o: Op, origin: Origin)
    ensures SentBy(q + [o], origin) == SentBy(q, origin) + [Sent(o, origin)]
  {
  }

  // ------------------------------------------------------------------ sequence numbers

  lemma EntriesOfMessage(ops: seq<Op>, origin: Origin, after: nat)
    ensures Entries(Commit(after + 1, ops, origin)) == Numbered(SentBy(ops, origin), after)
  {
  }

  lemma {:induction false} AllEntriesConcat(a: seq<Commit>, b: seq<Commit>)
    ensures AllEntries(a + b) == AllEntries(a) + AllEntries(b)
    decreases |b|
  {
    if b == [] {
      assert a + b == a;
    } else {
      assert (a + b)[..|a + b| - 1] == a + b[..|b| - 1];
      AllEntriesConcat(a, b[..|b| - 1]);
      RegroupPrefix3(AllEntries(a), AllEntries(b[..|b| - 1]), Entries(b[|b| - 1]));
    }
  }

  lemma RegroupPrefix3<T>(p: seq<T>, a: seq<T>, b: seq<T>)
    ensures p + (a + b) == (p + a) + b
  {
  }

  lemma {:induction false} EntriesOneEach(items: seq<Final>)
    ensures AllEntries(OneCommitEach(items)) == items
  {
    if items != [] {
      var n := |items| - 1;
      EntriesOneEach(items[..n]);
      assert OneCommitEach(items)[..n] == OneCommitEach(items[..n]);
      assert Entries(OneCommitEach(items)[n]) == [items[n]];
    }
  }

  lemma {:induction false} RecordDeletesKeeps(s: State, items: seq<Final>, nowMs: int)
    ensures RecordDeletes(s, items, nowMs) == s.(deleteContext := RecordDeletes(s, items, nowMs).deleteContext)
  {
    if items != [] { RecordDeletesKeeps(s, items[..|items| - 1], nowMs); }
  }

  lemma QuietContext(s: State, c: map<Id, Context>)
    requires Quiet(s)
    ensures Quiet(s.(deleteContext := c))
  {
  }

  lemma NothingFreed(sv: Server, ops: seq<Op>, origin: Origin)
    ensures SlowItems(sv, ops, [], origin) == SentBy(ops, origin) && sv.origins - IdsOf([]) == sv.origins
  {
    assert SentBy(ops, origin) + [] == SentBy(ops, origin);
  }

  lemma SameEntries(cs: seq<Commit>, ops: seq<Op>, origin: Origin, after: nat)
    ensures AllEntries(cs + [Commit(after + 1, ops, origin)])
         == AllEntries(cs + OneCommitEach(Numbered(SentBy(ops, origin), after)))
  {
    hide Entries, Numbered, SentBy, OneCommitEach;
    EntriesOfMessage(ops, origin, after);
    EntriesOneEach(Numbered(SentBy(ops, origin), after));
    AllEntriesConcat(cs, [Commit(after + 1, ops, origin)]);
    AllEntriesConcat(cs, OneCommitEach(Numbered(SentBy(ops, origin), after)));
    AllEntriesOne(Commit(after + 1, ops, origin));
  }

  /** The fast path is the slow path, but for the grouping of its commits. */
  lemma FastIsSlow(sv: Server, ops: seq<Op>, origin: Origin, nowMs: int)
    ensures
      var fast, slow := FastPath(sv, ops, origin, nowMs), SlowPath(sv, ops, [], origin, nowMs);
      fast == slow.(commits := fast.commits) && AllEntries(fast.commits) == AllEntries(slow.commits)
  {
    hide AllEntries, Numbered, SentBy, SlowItems, RecordDeletes, OneCommitEach, IdsOf;
    NothingFreed(sv, ops, origin);
    SameEntries(sv.commits, ops, origin, sv.currentSeq);
  }

  lemma AllEntriesOne(c: Commit)
    ensures AllEntries([c]) == Entries(c)
  {
    assert [c][..0] == [];
    assert AllEntries([]) + Entries(c) == Entries(c);
  }

  // ------------------------------------------------------------------ a message

  /** The identity check: the first operation names the sender's replica. */
  predicate FirstIsOwn(ops: seq<Op>, origin: Origin) {
    ops != [] ==> ops[0].id.r == origin.replica
  }

  /** One message, one minting replica: checking the first operation checks them all. */
  lemma AllAreOwn(m: Message, origin: Origin)
    requires FirstIsOwn(ToOperations(m), origin)
    ensures forall o :: o in ToOperations(m) ==> o.id.r == origin.replica
  {
    var ops := ToOperations(m);
    forall o | o in ops ensures o.id.r == origin.replica {
      var i :| 0 <= i < |ops| && ops[i] == o;
      assert ops[i].id.r == ops[0].id.r;
    }
  }

  /** The message's operations are new to the whole history, and it passed the identity check. */
  ghost predicate FreshFor(sv: Server, m: Message, origin: Origin) {
    && AllNew(sv.engine, ToOperations(m)) && FirstIsOwn(ToOperations(m), origin)
    && forall o :: o in ToOperations(m) ==> !HasId(OpsOf(sv.accepted), o.id)
  }

  /** What the buffer gives up, and what it keeps and gains, by identifiers. */
  lemma FreedIsResolved(s: State, ops: seq<Op>, r: Taken)
    requires Quiet(s) && TookIn(s, ops, r) && AllNew(s, ops)
    ensures Departed(s.pending, IdsOf(r.state.pending)) == Resolved(s.pending, r.state.applied)
    ensures forall o, w :: o in s.pending && w in Picked(ops, r.buffered, true) ==> o.id != w.id
  {
    WaitingMembers(s.pending, r.state.applied);
    PickedMembers(ops, r.buffered);
    forall o, w | o in s.pending && w in Picked(ops, r.buffered, true) ensures o.id != w.id {
      assert New(s, w);
      assert HasId(s.pending, o.id);
    }
    forall o | o in s.pending ensures o.id in IdsOf(r.state.pending) <==> o.id !in r.state.applied {
      if o.id in IdsOf(r.state.pending) {
        var w :| w in r.state.pending && w.id == o.id;
        assert w !in Picked(ops, r.buffered, true);
        assert w in Waiting(s.pending, r.state.applied);
      } else {
        assert o !in Waiting(s.pending, r.state.applied);
      }
    }
    DepartedResolved(s.pending, IdsOf(r.state.pending), r.state.applied);
  }

  /** Origins after a message. */
  function OriginsAfter(origins: map<Id, Origin>, waiting: seq<Op>, freed: seq<Op>, origin: Origin): map<Id, Origin> {
    RecordOrigins(origins, waiting, origin) - IdsOf(freed)
  }

  lemma OriginsKeys(s: State, ops: seq<Op>, r: Taken, origins: map<Id, Origin>, origin: Origin)
    requires Quiet(s) && TookIn(s, ops, r) && AllNew(s, ops) && origins.Keys == IdsOf(s.pending)
    ensures OriginsAfter(origins, Picked(ops, r.buffered, true), Resolved(s.pending, r.state.applied), origin).Keys
         == IdsOf(r.state.pending)
  {
    hide Quiet;
    FreedIsResolved(s, ops, r);
    WaitingMembers(s.pending, r.state.applied);
    var waiting, freed := Picked(ops, r.buffered, true), Resolved(s.pending, r.state.applied);
    var after := OriginsAfter(origins, waiting, freed, origin);
    forall id ensures id in after.Keys <==> id in IdsOf(r.state.pending) {
      if id in IdsOf(r.state.pending) {
        var o :| o in r.state.pending && o.id == id;
        if o in waiting { } else { assert o in s.pending && o in Waiting(s.pending, r.state.applied); }
      }
      if id in after.Keys && id !in IdsOf(waiting) {
        var o :| o in s.pending && o.id == id;
        assert o !in freed;
        assert o in Waiting(s.pending, r.state.applied) && o in r.state.pending;
      }
      if id in after.Keys && id in IdsOf(waiting) {
        var o :| o in waiting && o.id == id;
        assert o in r.state.pending;
      }
    }
  }

  /** Which record an operation has afterwards. */
  lemma RecordAfter(q: seq<Op>, applied: set<Id>, waiting: seq<Op>, origins: map<Id, Origin>, origin: Origin)
    requires origins.Keys == IdsOf(q) && forall o, w :: o in q && w in waiting ==> o.id != w.id
    requires forall w :: w in waiting ==> w.id !in applied
    ensures
      var after := OriginsAfter(origins, waiting, Resolved(q, applied), origin);
      && (forall o :: o in Waiting(q, applied) ==> o.id in origins && o.id in after && after[o.id] == origins[o.id])
      && (forall o :: o in waiting ==> o.id in after && after[o.id] == origin)
      && forall o :: o in Resolved(q, applied) ==>
           o.id in origins && o.id in RecordOrigins(origins, waiting, origin)
             && RecordOrigins(origins, waiting, origin)[o.id] == origins[o.id]
  {
    WaitingMembers(q, applied);
    assert forall o :: o in q ==> o.id in IdsOf(q);
    assert forall o :: o in q ==> o.id !in IdsOf(waiting);
    assert forall o :: o in waiting ==> o.id in IdsOf(waiting);
    assert forall id: Id :: id !in applied ==> id !in IdsOf(Resolved(q, applied));
  }

  /** The waiting operations with their senders, after a message. */
  lemma PendingSentAfter(q: seq<Op>, applied: set<Id>, waiting: seq<Op>, origins: map<Id, Origin>, origin: Origin)
    requires origins.Keys == IdsOf(q) && forall o, w :: o in q && w in waiting ==> o.id != w.id
    requires forall w :: w in waiting ==> w.id !in applied
    ensures
      var freed := Resolved(q, applied);
      var after := OriginsAfter(origins, waiting, freed, origin);
      && WithOrigins(freed, RecordOrigins(origins, waiting, origin)) == WithOrigins(freed, origins)
      && multiset(WithOrigins(Waiting(q, applied) + waiting, after)) + multiset(WithOrigins(freed, origins))
           == multiset(WithOrigins(q, origins)) + multiset(SentBy(waiting, origin))
  {
    hide Waiting, Resolved, OriginsAfter, RecordOrigins, IdsOf, WithOrigins, SentBy;
    var freed, kept := Resolved(q, applied), Waiting(q, applied);
    var after := OriginsAfter(origins, waiting, freed, origin);
    RecordAfter(q, applied, waiting, origins, origin);
    WithOriginsConcat(kept, waiting, after);
    WithOriginsSame(kept, after, origins);
    WithOriginsSame(freed, RecordOrigins(origins, waiting, origin), origins);
    WithOriginsAll(waiting, after, origin);
    WithOriginsSplit(q, applied, origins);
  }

  // ------------------------------------------------------------------ conservation

  lemma SentOfNumbered(finals: seq<Final>, items: seq<Sent>, after: nat)
    ensures SentOf(finals + Numbered(items, after)) == SentOf(finals) + items
  {
  }

  /** What `Process` puts together, whichever path it takes. */
  ghost predicate Outcome(sv: Server, ops: seq<Op>, r: Taken, origin: Origin, t: Server)
    requires |r.buffered| == |ops|
  {
    var waiting, ready, freed := Picked(ops, r.buffered, true), Picked(ops, r.buffered, false),
      Resolved(sv.engine.pending, r.state.applied);
    var items := SentBy(ready, origin) + WithOrigins(freed, sv.origins);
    && t.engine == r.state.(deleteContext := t.engine.deleteContext)
    && t.currentSeq == sv.currentSeq + |items| && t.finalized == sv.finalized + Numbered(items, sv.currentSeq)
    && t.origins == OriginsAfter(sv.origins, waiting, freed, origin) && t.evicted == sv.evicted
    && t.accepted == sv.accepted + SentBy(ops, origin) && t.firstSeen == sv.firstSeen
    && AllEntries(t.commits) == AllEntries(sv.commits) + Numbered(items, sv.currentSeq)
  }

  lemma OutcomeConserved(sv: Server, ops: seq<Op>, r: Taken, origin: Origin, t: Server)
    requires Conserved(sv) && |r.buffered| == |ops| && Outcome(sv, ops, r, origin, t)
    requires sv.origins.Keys == IdsOf(sv.engine.pending)
    requires forall o, w :: o in sv.engine.pending && w in Picked(ops, r.buffered, true) ==> o.id != w.id
    requires forall w :: w in Picked(ops, r.buffered, true) ==> w.id !in r.state.applied
    requires r.state.pending == Waiting(sv.engine.pending, r.state.applied) + Picked(ops, r.buffered, true)
    ensures Conserved(t)
  {
    hide Waiting, Resolved, OriginsAfter, IdsOf, WithOrigins, SentBy, Numbered, AllEntries, Picked, SentOf;
    var waiting, ready, freed := Picked(ops, r.buffered, true), Picked(ops, r.buffered, false),
      Resolved(sv.engine.pending, r.state.applied);
    var items := SentBy(ready, origin) + WithOrigins(freed, sv.origins);
    SentOfNumbered(sv.finalized, items, sv.currentSeq);
    PickedSplit(ops, r.buffered, origin);
    PendingSentAfter(sv.engine.pending, r.state.applied, waiting, sv.origins, origin);
    Balance(multiset(sv.accepted), multiset(SentOf(sv.finalized)), multiset(WithOrigins(sv.engine.pending, sv.origins)),
            multiset(sv.evicted), multiset(SentBy(waiting, origin)), multiset(SentBy(ready, origin)),
            multiset(WithOrigins(freed, sv.origins)), multiset(WithOrigins(r.state.pending, t.origins)));
    assert t.engine.pending == r.state.pending;
  }

  /** The books balance. */
  lemma Balance<T(!new)>(accepted: multiset<T>, finals: multiset<T>, pending: multiset<T>, evicted: multiset<T>,
                   waiting: multiset<T>, ready: multiset<T>, freed: multiset<T>, after: multiset<T>)
    requires accepted == finals + pending + evicted && after + freed == pending + waiting
    ensures accepted + (waiting + ready) == (finals + (ready + freed)) + after + evicted
  {
    forall x ensures (accepted + (waiting + ready))[x] == ((finals + (ready + freed)) + after + evicted)[x] {
      assert (after + freed)[x] == (pending + waiting)[x];
    }
  }

  lemma OutcomeSeqs(sv: Server, ops: seq<Op>, r: Taken, origin: Origin, t: Server, base: nat)
    requires SeqsOk(sv, base) && |r.buffered| == |ops| && Outcome(sv, ops, r, origin, t)
    ensures SeqsOk(t, base)
  {
    hide WithOrigins, SentBy, AllEntries, Picked, OriginsAfter, Resolved;
  }

  lemma DistinctAccepted(accepted: seq<Sent>, ops: seq<Op>, origin: Origin)
    requires DistinctIds(OpsOf(accepted)) && DistinctIds(ops) && forall o :: o in ops ==> !HasId(OpsOf(accepted), o.id)
    ensures DistinctIds(OpsOf(accepted + SentBy(ops, origin)))
  {
    var a := OpsOf(accepted);
    assert OpsOf(accepted + SentBy(ops, origin)) == a + ops;
    forall i, j | 0 <= i < j < |a + ops| ensures (a + ops)[i].id != (a + ops)[j].id {
      if i < |a| && j >= |a| {
        assert ops[j - |a|] in ops && a[i] in a;
      }
    }
  }

  lemma ItemFrom(ready: seq<Op>, origin: Origin, freed: seq<Op>, origins: map<Id, Origin>, i: nat)
    requires i < |SentBy(ready, origin) + WithOrigins(freed, origins)|
    ensures var x := (SentBy(ready, origin) + WithOrigins(freed, origins))[i]; x.op in ready || x.op in freed
  {
    hide WithOrigins;
    WithOriginsMembers(freed, origins);
    if i < |ready| {
      assert ready[i] in ready;
    } else {
      assert WithOrigins(freed, origins)[i - |ready|] in WithOrigins(freed, origins);
    }
  }

  lemma OutcomeApplied(sv: Server, ops: seq<Op>, r: Taken, origin: Origin, t: Server)
    requires TookIn(sv.engine, ops, r) && Outcome(sv, ops, r, origin, t)
      && (forall f :: f in sv.finalized ==> f.sent.op.id in sv.engine.applied)
    ensures forall f :: f in t.finalized ==> f.sent.op.id in t.engine.applied
  {
    hide AllEntries, OriginsAfter, Quiet, Picked, Resolved, Waiting, WithOrigins, SentBy;
    var ready, freed := Picked(ops, r.buffered, false), Resolved(sv.engine.pending, r.state.applied);
    var items := SentBy(ready, origin) + WithOrigins(freed, sv.origins);
    WaitingMembers(sv.engine.pending, r.state.applied);
    WithOriginsMembers(freed, sv.origins);
    forall f | f in t.finalized ensures f.sent.op.id in t.engine.applied {
      if f !in sv.finalized {
        var i :| 0 <= i < |items| && f == Numbered(items, sv.currentSeq)[i];
        ItemFrom(ready, origin, freed, sv.origins, i);
      }
    }
  }

  lemma {:induction false} WithOriginsMembers(q: seq<Op>, origins: map<Id, Origin>)
    ensures forall x :: x in WithOrigins(q, origins) ==> x.op in q && x.op.id in origins && x.origin == origins[x.op.id]
  {
    if q != [] {
      WithOriginsMembers(q[1..], origins);
      assert q[0] in q && forall o :: o in q[1..] ==> o in q;
    }
  }

  /** Both paths put together the same thing. */
  lemma AcceptOutcome(sv: Server, m: Message, origin: Origin, nowMs: int, base: nat)
    requires Sound(sv, base) && FreshFor(sv, m, origin)
    ensures
      var ops := ToOperations(m);
      var r := TakeAll(sv.engine, ops);
      TookIn(sv.engine, ops, r) && Outcome(sv, ops, r, origin, Accept(sv, ops, origin, nowMs))
  {
    hide Quiet, TookIn, AllEntries, Conserved, SeqsOk;
    SoundQuiet(sv, base);
    MessageTaken(sv.engine, m);
    var ops := ToOperations(m);
    var r := TakeAll(sv.engine, ops);
    OutcomeOf(sv, ops, r, origin, Accept(sv, ops, origin, nowMs), nowMs);
  }

  lemma SoundQuiet(sv: Server, base: nat)
    requires Sound(sv, base)
    ensures WF(sv.engine) && Quiet(sv.engine)
  {
  }

  lemma AllPicked(ops: seq<Op>, flags: seq<bool>)
    requires |ops| == |flags| && Picked(ops, flags, true) == []
    ensures Picked(ops, flags, false) == ops
  {
    if ops != [] {
      AllPicked(ops[..|ops| - 1], flags[..|ops| - 1]);
    }
  }

  lemma QuietById(s: State)
    requires Quiet(s)
    ensures ById(s.pending) == s.pending
  {
    ByIdExact(s.pending);
  }

  lemma OutcomeOf(sv: Server, ops: seq<Op>, r: Taken, origin: Origin, t: Server, nowMs: int)
    requires |r.buffered| == |ops|
    requires Quiet(sv.engine) && TookIn(sv.engine, ops, r) && AllNew(sv.engine, ops)
      && sv.origins.Keys == IdsOf(sv.engine.pending)
    requires
      var waiting, freed := Picked(ops, r.buffered, true), Departed(ById(sv.engine.pending), IdsOf(r.state.pending));
      var sv1 := sv.(engine := r.state, origins := RecordOrigins(sv.origins, waiting, origin),
                     accepted := sv.accepted + SentBy(ops, origin));
      t == if waiting == [] && freed == [] then FastPath(sv1, ops, origin, nowMs)
           else SlowPath(sv1, Picked(ops, r.buffered, false), freed, origin, nowMs)
    ensures Outcome(sv, ops, r, origin, t)
  {
    hide Quiet, TookIn, AllEntries, RecordDeletes, WithOrigins, Waiting, Resolved, Departed, ById, Picked, SentBy,
      Numbered, OneCommitEach, RecordOrigins, IdsOf;
    var waiting, ready := Picked(ops, r.buffered, true), Picked(ops, r.buffered, false);
    var freed := Departed(ById(sv.engine.pending), IdsOf(r.state.pending));
    var sv1 := sv.(engine := r.state, origins := RecordOrigins(sv.origins, waiting, origin),
                   accepted := sv.accepted + SentBy(ops, origin));
    QuietById(sv.engine);
    FreedIsResolved(sv.engine, ops, r);
    PickedPart(sv, ops, r, origin);
    if waiting == [] && freed == [] {
      AllPicked(ops, r.buffered);
      FastIsSlow(sv1, ops, origin, nowMs);
    }
    var items := SlowItems(sv1, ready, freed, origin);
    var slow := SlowPath(sv1, ready, freed, origin, nowMs);
    EntriesOneEach(Numbered(items, sv.currentSeq));
    AllEntriesConcat(sv.commits, OneCommitEach(Numbered(items, sv.currentSeq)));
    RecordDeletesKeeps(r.state, Numbered(items, sv.currentSeq), nowMs);
  }

  lemma PickedPart(sv: Server, ops: seq<Op>, r: Taken, origin: Origin)
    requires Quiet(sv.engine) && TookIn(sv.engine, ops, r) && AllNew(sv.engine, ops)
      && sv.origins.Keys == IdsOf(sv.engine.pending)
    ensures
      var waiting, freed := Picked(ops, r.buffered, true), Resolved(sv.engine.pending, r.state.applied);
      WithOrigins(freed, RecordOrigins(sv.origins, waiting, origin)) == WithOrigins(freed, sv.origins)
  {
    hide Quiet, WithOrigins, Waiting, Resolved;
    FreedIsResolved(sv.engine, ops, r);
    PendingSentAfter(sv.engine.pending, r.state.applied, Picked(ops, r.buffered, true), sv.origins, origin);
  }

  /**
   * One message: every accepted operation stays accounted for, with its own sender; the sequence
   * numbers stay contiguous; and the origins recorded are exactly those of the waiting operations.
   */
  lemma ProcessSound(sv: Server, m: Message, origin: Origin, nowMs: int, base: nat)
    requires Sound(sv, base) && FreshFor(sv, m, origin)
    ensures Sound(Process(sv, m, origin, nowMs), base)
  {
    hide Accept, Quiet, AllEntries, Picked, SentBy, IdsOf, Waiting, Resolved, WithOrigins, AllNew;
    var ops := ToOperations(m);
    if ops != [] {
      AcceptOutcome(sv, m, origin, nowMs, base);
      SoundQuiet(sv, base);
      AllAreOwn(m, origin);
      SoundAfter(sv, ops, TakeAll(sv.engine, ops), origin, Accept(sv, ops, origin, nowMs), base);
    }
  }

  lemma SoundAfter(sv: Server, ops: seq<Op>, r: Taken, origin: Origin, t: Server, base: nat)
    requires Sound(sv, base) && TookIn(sv.engine, ops, r) && AllNew(sv.engine, ops) && Outcome(sv, ops, r, origin, t)
    requires forall o :: o in ops ==> o.id.r == origin.replica && !HasId(OpsOf(sv.accepted), o.id)
    ensures Sound(t, base)
  {
    hide Clean, Drained, WF, AllEntries, Picked, IdsOf, Waiting, Resolved, WithOrigins, SeqsOk, Conserved, New,
      OriginsAfter;
    FreedIsResolved(sv.engine, ops, r);
    OriginsKeys(sv.engine, ops, r, sv.origins, origin);
    OutcomeConserved(sv, ops, r, origin, t);
    OutcomeSeqs(sv, ops, r, origin, t, base);
    OutcomeApplied(sv, ops, r, origin, t);
    DistinctAccepted(sv.accepted, ops, origin);
    QuietContext(r.state, t.engine.deleteContext);
    forall x | x in t.accepted ensures x.op.id.r == x.origin.replica {
      if x !in sv.accepted {
        var i :| 0 <= i < |ops| && SentBy(ops, origin)[i] == x;
        assert ops[i] in ops;
      }
    }
  }
}
