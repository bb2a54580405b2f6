/**
 * A client that reconnects: it rebuilds its engine from its own nodes, applies the catch-up chunk by chunk, and then
 * what is relayed live.
 */
module Rejoin {
  import opened Identifiers
  import opened Operations
  import opened FugueShape
  import opened EngineState
  import opened Collection
  import opened OpSets
  import opened Replica
  import opened Convergence
  import opened Seed
  import opened Intake
  import opened Coordination
  import opened Commits
  import opened Durability
  import opened NumberOrder
  import opened LogDocument
  import opened Catchup
  import Eviction

  // ------------------------------------------------------------------ chunks

  /** The rows of a catch-up, with the lengths of their encodings. */
  function RowsOf(fs: seq<Final>, size: Op -> nat): seq<Row> {
    seq(|fs|, i requires 0 <= i < |fs| => Row(fs[i].seqno, fs[i].sent.op, size(fs[i].sent.op)))
  }

  function RowOps(rows: seq<Row>): seq<Op> {
    seq(|rows|, i requires 0 <= i < |rows| => rows[i].op)
  }

  /** Applying one chunk after the other. */
  function DeliverChunks(s: State, chunks: seq<Chunk>): (t: State)
    requires WF(s)
    ensures WF(t)
    decreases |chunks|
  {
    if chunks == [] then s else DeliverChunks(Deliver(s, chunks[0].ops), chunks[1..])
  }

  lemma {:induction false} ChunksDeliver(s: State, pieces: seq<seq<Row>>)
    requires WF(s) && forall p :: p in pieces ==> p != []
    ensures DeliverChunks(s, ChunksOf(pieces)) == Deliver(s, RowOps(Joined(pieces)))
    decreases |pieces|
  {
    hide ApplyRemote, WF, Deliver;
    if pieces == [] {
      DeliverNone(s);
    } else {
      assert pieces[0] in pieces && forall p :: p in pieces[1..] ==> p in pieces;
      ChunksDeliver(Deliver(s, RowOps(pieces[0])), pieces[1..]);
      DeliverConcat(s, RowOps(pieces[0]), RowOps(Joined(pieces[1..])));
      assert RowOps(Joined(pieces)) == RowOps(pieces[0]) + RowOps(Joined(pieces[1..]));
      assert ChunksOf(pieces) == [ChunkOf(pieces[0])] + ChunksOf(pieces[1..]);
      assert ChunksOf(pieces)[1..] == ChunksOf(pieces[1..]) && ChunksOf(pieces)[0].ops == RowOps(pieces[0]);
    }
  }

  lemma DeliverNone(s: State)
    requires WF(s)
    ensures Deliver(s, RowOps([])) == s
  {
  }

  // ------------------------------------------------------------------ rebuilding

  /**
   * A drained replica that received some of the operations of a fully applied set, among them every insert, applied
   * all of them and has the same nodes in the same order; it has the same flags too if the deletions are settled and
   * it received every greatest one.
   */
  lemma RebuiltFrom(w: State, l: set<Op>, u: State, part: set<Op>)
    requires Core(w, l) && AppliedOps(w, l) == l && Core(u, part) && Drained(u)
    requires part <= l && Inserts(part) == Inserts(l)
    ensures AppliedOps(u, part) == part && u.pending == []
    ensures Origins(Flat(u.tree)) == Origins(Flat(w.tree))
    ensures Settled(l) && HoldsGreatest(part, l) ==> u.tree == w.tree
  {
    AllApplied(w, l, u, part);
    BuiltInserts(u.tree, part, l);
    DocsSame(w.tree, u.tree, l);
    SameShapeOrder(w.tree, u.tree);
    if Settled(l) && HoldsGreatest(part, l) {
      forall n, m | n in Flat(w.tree) && m in Flat(u.tree) && n.id == m.id
        ensures n.deletedBy == m.deletedBy && n.deleted == m.deleted
      {
        SameFlag(n, l, m, part);
      }
      SameShapeSameFlags(w.tree, u.tree);
    }
  }

  /** Every greatest deletion is among the part. */
  ghost predicate HoldsGreatest(part: set<Op>, l: set<Op>) {
    forall y, m :: Greatest(m, DeletesOf(l, y)) ==> m in DeletesOf(part, y)
  }

  lemma AllApplied(w: State, l: set<Op>, u: State, part: set<Op>)
    requires Core(w, l) && AppliedOps(w, l) == l && Core(u, part) && Drained(u)
    requires part <= l && Inserts(part) == Inserts(l)
    ensures AppliedOps(u, part) == part && u.pending == []
  {
    var x := AppliedOps(u, part);
    AppliedIsLeastClosure(u, part);
    BuiltInserts(w.tree, l, Inserts(part));
    KeysSupported(w.tree.left, None, L, Inserts(part), part, x);
    KeysSupported(w.tree.right, None, R, Inserts(part), part, x);
    forall o | o in part ensures o in x {
      assert Needs(o) in Keys(w.tree);
      assert Supported(x, o);
    }
    NoMembers(u.pending);
  }

  lemma SameFlag(n: Node, l: set<Op>, m: Node, part: set<Op>)
    requires FlagOk(n, l) && FlagOk(m, part) && n.id == m.id && part <= l
    requires Settled(l) && HoldsGreatest(part, l)
    ensures n.deletedBy == m.deletedBy && n.deleted == m.deleted
  {
    assert DeletesOf(part, n.id) <= DeletesOf(l, n.id);
    if DeletesOf(l, n.id) != {} {
      var g := GreatestExists(DeletesOf(l, n.id));
      assert Greatest(g, DeletesOf(l, n.id));
      assert Greatest(g, DeletesOf(part, n.id));
      assert !UndoneBy(l, n.id, g.r);
      assert !UndoneBy(part, n.id, g.r);
    }
  }

  /** What a client holds of the log: the first `k` operations, applied, and possibly later ones. */
  ghost predicate Holds(c: State, x: set<Op>, p0: set<Op>, finalized: seq<Final>, k: nat)
    requires k <= |finalized|
  {
    && Seedable(c, x) && x <= Logged(p0, finalized)
    && Logged(p0, finalized[..k]) <= AppliedOps(c, x)
  }

  /** The seed and what is sent make up the log as far as the document goes. */
  lemma SeedAndRest(c: State, x: set<Op>, p: set<Op>, more: set<Op>, l: set<Op>)
    requires Seedable(c, x) && p <= AppliedOps(c, x) && x <= l && l == p + more
    ensures
      var part := SetOf(SeedOps(Flat(c.tree))) + more;
      part <= l && Inserts(part) == Inserts(l) && (Settled(l) ==> HoldsGreatest(part, l))
  {
    hide Core;
    var q, a := SetOf(SeedOps(Flat(c.tree))), AppliedOps(c, x);
    SameInserts(c, x);
    forall o | o in l && o.Insert? ensures o in q + more {
      if o in p { assert o in Inserts(a) && o in Inserts(q); }
    }
    if Settled(l) {
      forall y, m | Greatest(m, DeletesOf(l, y)) ensures m in DeletesOf(q + more, y) {
        var o :| o in l && o.Delete? && o.target == y && o.id == m;
        if o in p { GreatestSeeded(c, x, l, o); }
      }
    }
  }

  lemma GreatestSeeded(c: State, x: set<Op>, l: set<Op>, o: Op)
    requires Seedable(c, x) && AppliedOps(c, x) <= l && o in AppliedOps(c, x) && o.Delete?
    requires Greatest(o.id, DeletesOf(l, o.target)) && !UndoneBy(l, o.target, o.id.r)
    ensures o in SeedOps(Flat(c.tree))
  {
    hide Unique, Placed, Built;
    var a := AppliedOps(c, x);
    assert Needs(o) in Keys(c.tree);
    DocNodeBack(c.tree, o.target);
    var n := NodeAt(c.tree, o.target);
    assert FlagOk(n, a) && n.id == o.target;
    assert o.id in DeletesOf(a, o.target) && DeletesOf(a, o.target) <= DeletesOf(l, o.target);
    assert Greatest(o.id, DeletesOf(a, o.target)) && !UndoneBy(a, o.target, o.id.r);
    WinningDeletesSet(Flat(c.tree));
    assert o == Delete(n.deletedBy.value, n.id);
  }

  // ------------------------------------------------------------------ the log grows

  lemma ProcessFinals(sv: Server, m: Message, origin: Origin, nowMs: int)
    requires WF(sv.engine)
    ensures sv.finalized <= Process(sv, m, origin, nowMs).finalized
  {
    hide TakeAll, Departed, Picked, RecordDeletes, WF, Numbered, SlowItems, ById;
  }

  lemma StepFinals(d: Desk, e: Event)
    requires Enabled(d, e)
    ensures d.server.finalized <= Commits.Step(d, e).server.finalized
  {
    hide Process, Eviction.Sweep, FreshFor, WF;
    match e
    case Receive(m, origin, nowMs) => ProcessFinals(d.server, m, origin, nowMs);
    case SweepAt(nowMs, timeoutMs, maxPending) => SweepBuffer(d.server, nowMs, timeoutMs, maxPending);
    case CommitSucceeds =>
    case CommitFails =>
    case Acknowledge(_) =>
  }

  lemma {:induction false} RunGrows(start: Desk, events: seq<Event>, more: seq<Event>)
    requires DeskRun(start, events + more).Some?
    ensures DeskRun(start, events).Some?
      && DeskRun(start, events).value.server.finalized <= DeskRun(start, events + more).value.server.finalized
    decreases |more|
  {
    hide Enabled, Commits.Step, InOrder;
    if more == [] {
      assert events + more == events;
    } else {
      var all := events + more;
      assert all[..|all| - 1] == events + more[..|more| - 1];
      LastEvent(start, all);
      RunGrows(start, events, more[..|more| - 1]);
      StepFinals(DeskRun(start, all[..|all| - 1]).value, all[|all| - 1]);
    }
  }

  // ------------------------------------------------------------------ no operation is numbered twice

  lemma FinalizedAccepted(sv: Server, f: Final)
    requires Conserved(sv) && f in sv.finalized
    ensures f.sent in sv.accepted && f.sent.op in OpsOf(sv.accepted)
  {
    var i :| 0 <= i < |sv.finalized| && sv.finalized[i] == f;
    assert SentOf(sv.finalized)[i] == f.sent;
    assert f.sent in multiset(SentOf(sv.finalized));
    assert f.sent in multiset(sv.accepted);
    var j :| 0 <= j < |sv.accepted| && sv.accepted[j] == f.sent;
    assert OpsOf(sv.accepted)[j] == f.sent.op;
  }

  lemma NumberedOnce(sv: Server, i: nat, j: nat)
    requires Conserved(sv) && DistinctIds(OpsOf(sv.accepted)) && i < j < |sv.finalized|
    ensures sv.finalized[i].sent.op.id != sv.finalized[j].sent.op.id
  {
    hide Conserved, WithOrigins;
    var a, b := sv.finalized[i].sent, sv.finalized[j].sent;
    FinalizedAccepted(sv, sv.finalized[i]);
    FinalizedAccepted(sv, sv.finalized[j]);
    if a.op.id == b.op.id {
      SameIdSameSent(sv.accepted, a, b);
      AcceptedOnce(sv.accepted, a);
      Eviction.TwiceIn(SentOf(sv.finalized), i, j);
      NoMoreThanAccepted(sv, a);
    }
  }

  lemma NoMoreThanAccepted(sv: Server, a: Sent)
    requires Conserved(sv)
    ensures multiset(SentOf(sv.finalized))[a] <= multiset(sv.accepted)[a]
  {
  }

  lemma SameIdSameSent(items: seq<Sent>, a: Sent, b: Sent)
    requires DistinctIds(OpsOf(items)) && a in items && b in items && a.op.id == b.op.id
    ensures a == b
  {
    var i :| 0 <= i < |items| && items[i] == a;
    var j :| 0 <= j < |items| && items[j] == b;
    assert OpsOf(items)[i].id == OpsOf(items)[j].id;
  }

  // ------------------------------------------------------------------ what a catch-up misses

  /** Nothing committed after a failure above `fromSeq`, and nothing numbered whose commit is still to come. */
  ghost predicate Complete(d: Desk, fromSeq: nat)
    requires |d.done| <= |d.server.commits|
  {
    GapsBelow(d.server.commits, d.done, fromSeq) && d.lastCommitted == d.server.currentSeq
  }

  /** Otherwise something numbered above `fromSeq` is not sent. */
  lemma SomethingMissed(d: Desk, base: nat, fromSeq: nat) returns (x: nat)
    requires Orderly(d, base) && base <= fromSeq <= d.lastCommitted && !Complete(d, fromSeq)
    ensures fromSeq - base <= x < |d.server.finalized| && d.server.finalized[x] !in CatchUp(d, fromSeq)
  {
    hide Quiet, Conserved, Entries, AllEntries, Succeeded, Watermark, Between;
    var cs, finalized := d.server.commits, d.server.finalized;
    assert Lined(cs, finalized, base);
    SucceededWithin(cs, finalized, base, d.done);
    if d.lastCommitted != d.server.currentSeq {
      x := d.lastCommitted - base;
      EntriesPrefix(cs, |d.done|);
      BetweenBounds(d.durable, fromSeq, d.lastCommitted, finalized[x]);
    } else {
      var i, j :| 0 <= i < j < |d.done| && !d.done[i] && d.done[j] && EndSeq(cs[i]) > fromSeq;
      CommitAt(cs, finalized, base, i);
      x := |AllEntries(cs[..i + 1])| - 1;
      FailedNotDurable(cs, finalized, base, d.done, i, x);
      BetweenWithin(d.durable, fromSeq, d.lastCommitted, finalized[x]);
    }
  }

  lemma {:induction false} BetweenBounds(rows: seq<Final>, lo: nat, hi: nat, f: Final)
    ensures f in Between(rows, lo, hi) ==> lo < f.seqno <= hi
  {
    if rows != [] { BetweenBounds(rows[..|rows| - 1], lo, hi, f); }
  }

  // ------------------------------------------------------------------ the client afterwards

  /** The engine rebuilt from the client's nodes, after the chunks of the catch-up and what is relayed then. */
  function Rejoined(c: State, r: nat, chunks: seq<Chunk>, relayed: seq<Final>): State
    requires forall n :: n in Flat(c.tree) && n.deleted ==> n.deletedBy.Some?
  {
    Deliver(DeliverChunks(Deliver(Fresh(r), SeedOps(Flat(c.tree))), chunks), FinalOps(relayed))
  }

  lemma RowOpsOf(fs: seq<Final>, size: Op -> nat)
    ensures RowOps(RowsOf(fs, size)) == FinalOps(fs)
  {
  }

  lemma RejoinedIs(c: State, x: set<Op>, r: nat, pieces: seq<seq<Row>>, fs: seq<Final>, size: Op -> nat,
    relayed: seq<Final>)
    requires Seedable(c, x) && Split(pieces, RowsOf(fs, size)) && forall p :: p in pieces ==> p != []
    ensures Rejoined(c, r, ChunksOf(pieces), relayed)
         == Deliver(Fresh(r), SeedOps(Flat(c.tree)) + FinalOps(fs + relayed))
  {
    hide ApplyRemote, WF, Deliver, Core, FinalOps, RowOps, RowsOf, DeliverChunks, ChunksOf, SeedOps;
    var start := Deliver(Fresh(r), SeedOps(Flat(c.tree)));
    ChunksDeliver(start, pieces);
    RowOpsOf(fs, size);
    DeliverConcat(start, FinalOps(fs), FinalOps(relayed));
    FinalOpsConcat(fs, relayed);
    DeliverConcat(Fresh(r), SeedOps(Flat(c.tree)), FinalOps(fs + relayed));
  }

  lemma ReceivedCore(r: nat, a: seq<Op>, b: seq<Op>, l: set<Op>)
    requires Coherent(l) && SetOf(a) + SetOf(b) <= l
    ensures var u := Deliver(Fresh(r), a + b); Core(u, SetOf(a) + SetOf(b)) && Drained(u)
  {
    hide Core, Coherent, Drained, Deliver;
    FreshCore(r);
    CoherentSub(l, SetOf(a) + SetOf(b));
    assert {} + SetOf(a + b) == SetOf(a) + SetOf(b);
    DeliverCore(Fresh(r), {}, a + b);
  }

  /** Everything sent: the document of the log. */
  lemma AllSent(c: State, x: set<Op>, r: nat, p: set<Op>, got: seq<Op>, w: State, l: set<Op>)
    requires Seedable(c, x) && p <= AppliedOps(c, x) && x <= l && l == p + SetOf(got)
    requires Core(w, l) && AppliedOps(w, l) == l && Coherent(l)
    ensures
      var u := Deliver(Fresh(r), SeedOps(Flat(c.tree)) + got);
      && u.pending == [] && Origins(Flat(u.tree)) == Origins(Flat(w.tree)) && (Settled(l) ==> u.tree == w.tree)
      && forall o :: o in got ==> o.id in u.applied
  {
    hide Core, Coherent, Drained, Deliver, Settled, SeedOps, HoldsGreatest;
    var part := SetOf(SeedOps(Flat(c.tree))) + SetOf(got);
    SeedAndRest(c, x, p, SetOf(got), l);
    ReceivedCore(r, SeedOps(Flat(c.tree)), got, l);
    var u := Deliver(Fresh(r), SeedOps(Flat(c.tree)) + got);
    RebuiltFrom(w, l, u, part);
    assert forall o :: o in got ==> o in part && o in AppliedOps(u, part);
  }

  /** What is neither seeded nor sent is not there. */
  lemma NotSent(c: State, x: set<Op>, r: nat, got: seq<Op>, l: set<Op>, o: Op)
    requires Seedable(c, x) && x <= l && Coherent(l) && SetOf(got) <= l && o in l && o !in x && o !in got
    ensures o.id !in Deliver(Fresh(r), SeedOps(Flat(c.tree)) + got).applied
  {
    hide WF, Matches, Drained, Deliver, SeedOps;
    var q := SetOf(SeedOps(Flat(c.tree)));
    SameInserts(c, x);
    ReceivedCore(r, SeedOps(Flat(c.tree)), got, l);
    AppliedReceived(Deliver(Fresh(r), SeedOps(Flat(c.tree)) + got), q + SetOf(got));
  }

  lemma AppliedReceived(u: State, p: set<Op>)
    requires Core(u, p)
    ensures forall id :: id in u.applied ==> Named(p, id)
  {
    hide WF, Matches;
    forall id | id in u.applied ensures Named(p, id) { assert Named(AppliedOps(u, p), id); }
  }

  lemma LoggedSplit(p0: set<Op>, fs: seq<Final>, k: nat)
    requires k <= |fs|
    ensures Logged(p0, fs) == Logged(p0, fs[..k]) + SetOf(FinalOps(fs[k..]))
  {
    hide FinalOps;
    FinalOpsConcat(fs[..k], fs[k..]);
    assert fs == fs[..k] + fs[k..];
  }

  /** The place in the log of what is missing is not sent later either. */
  lemma NeitherSent(sv: Server, base: nat, k: nat, n: nat, rows: seq<Final>, i: nat)
    requires SeqsOk(sv, base) && Conserved(sv) && DistinctIds(OpsOf(sv.accepted))
    requires k <= i < n <= |sv.finalized| && sv.finalized[i] !in rows && forall f :: f in rows ==> f in sv.finalized
    ensures sv.finalized[i].sent.op !in FinalOps(rows + sv.finalized[n..])
    ensures sv.finalized[i].sent.op !in FinalOps(sv.finalized[..k])
  {
    hide Conserved, FinalOps, SeqsOk, DistinctIds;
    var o := sv.finalized[i].sent.op;
    forall j | 0 <= j < |sv.finalized| && j != i ensures sv.finalized[j].sent.op != o {
      if j < i { NumberedOnce(sv, j, i); } else { NumberedOnce(sv, i, j); }
    }
    forall f | f in sv.finalized && f != sv.finalized[i] ensures f.sent.op != o {
      var j :| 0 <= j < |sv.finalized| && sv.finalized[j] == f;
    }
    forall f | f in sv.finalized[n..] ensures f.sent.op != o {
      var j :| 0 <= j < |sv.finalized[n..]| && sv.finalized[n..][j] == f;
      assert sv.finalized[n + j] == f;
    }
    forall f | f in sv.finalized[..k] ensures f.sent.op != o {
      var j :| 0 <= j < k && sv.finalized[j] == f;
    }
    FinalOpsHas(rows + sv.finalized[n..]);
    FinalOpsHas(sv.finalized[..k]);
  }

  /** What the engine without its buffer, the log and the numbering are like once the coordinator ran on. */
  ghost predicate Told(sv: Server, base: nat, start: set<Id>, p0: set<Op>, w: State, l: set<Op>) {
    && SeqsOk(sv, base) && Conserved(sv) && DistinctIds(OpsOf(sv.accepted))
    && w == sv.engine.(pending := []) && l == Logged(p0, sv.finalized)
    && Core(w, l) && AppliedOps(w, l) == l && Coherent(l)
    && (forall o :: o in p0 ==> o.id in start) && forall o :: o in OpsOf(sv.accepted) ==> o.id !in start
  }

  lemma RunTold(engine: State, base: nat, events: seq<Event>, p0: set<Op>)
    requires Quiet(engine) && engine.pending == [] && DeskRun(Opened(engine, base), events).Some?
    requires Core(engine, p0)
      && Coherent(p0 + SetOf(OpsOf(DeskRun(Opened(engine, base), events).value.server.accepted)))
    ensures
      var sv := DeskRun(Opened(engine, base), events).value.server;
      Told(sv, base, engine.applied, p0, sv.engine.(pending := []), Logged(p0, sv.finalized))
  {
    hide DeskRun, Quiet, Core, Coherent, Drained, SeqsOk, Conserved, DistinctIds, Had;
    var sv := DeskRun(Opened(engine, base), events).value.server;
    RunOrderly(engine, base, events);
    RunFollows(engine, base, events, p0);
    LogHeld(sv, base, engine.applied, p0);
    StartApplied(engine, p0);
  }

  lemma StartApplied(engine: State, p0: set<Op>)
    requires Core(engine, p0) && engine.pending == []
    ensures forall o :: o in p0 ==> o.id in engine.applied
  {
    hide WF, Matches, Coherent;
  }

  /** With every row up to the end of the log at the time sent, the client ends with the coordinator's document. */
  lemma CompleteRejoins(sv: Server, base: nat, start: set<Id>, p0: set<Op>, w: State, l: set<Op>, k: nat, n: nat,
    c: State, x: set<Op>, r: nat, rows: seq<Final>)
    requires Told(sv, base, start, p0, w, l) && k <= n <= |sv.finalized| && rows == sv.finalized[k..n]
    requires Seedable(c, x) && x <= l && Logged(p0, sv.finalized[..k]) <= AppliedOps(c, x)
    ensures
      var u := Deliver(Fresh(r), SeedOps(Flat(c.tree)) + FinalOps(rows + sv.finalized[n..]));
      && u.pending == [] && Origins(Flat(u.tree)) == Origins(Flat(w.tree)) && (Settled(l) ==> u.tree == w.tree)
      && forall i :: k <= i < |sv.finalized| ==> sv.finalized[i].sent.op.id in u.applied
  {
    hide Core, Coherent, Drained, Deliver, Settled, SeedOps, FinalOps, SeqsOk, Conserved, DistinctIds, Logged;
    assert rows + sv.finalized[n..] == sv.finalized[k..];
    LoggedSplit(p0, sv.finalized, k);
    AllSent(c, x, r, Logged(p0, sv.finalized[..k]), FinalOps(sv.finalized[k..]), w, l);
    FinalOpsHas(sv.finalized[k..]);
    forall i | k <= i < |sv.finalized| ensures sv.finalized[i].sent.op in FinalOps(sv.finalized[k..]) {
      assert sv.finalized[k..][i - k] == sv.finalized[i];
    }
  }

  /** With a row missing, the client lacks its operation unless it held it all along. */
  lemma MissingStays(sv: Server, base: nat, start: set<Id>, p0: set<Op>, w: State, l: set<Op>, k: nat, n: nat,
    c: State, x: set<Op>, r: nat, rows: seq<Final>, i: nat)
    requires Told(sv, base, start, p0, w, l) && k <= i < n <= |sv.finalized|
    requires sv.finalized[i] !in rows && forall f :: f in rows ==> f in sv.finalized
    requires Seedable(c, x) && x == Logged(p0, sv.finalized[..k])
    ensures sv.finalized[i].sent.op.id
        !in Deliver(Fresh(r), SeedOps(Flat(c.tree)) + FinalOps(rows + sv.finalized[n..])).applied
  {
    hide Core, Coherent, Drained, Deliver, Settled, SeedOps, FinalOps, SeqsOk, Conserved, DistinctIds;
    var o, got := sv.finalized[i].sent.op, FinalOps(rows + sv.finalized[n..]);
    NeitherSent(sv, base, k, n, rows, i);
    FinalizedAccepted(sv, sv.finalized[i]);
    FinalOpsHas(sv.finalized);
    FinalOpsHas(rows + sv.finalized[n..]);
    assert SetOf(got) <= l;
    FinalOpsHas(sv.finalized[..k]);
    NotSent(c, x, r, got, l, o);
  }

  /** Where a client stands when it reconnects: the coordinator's run so far, the number it reports, what it holds. */
  ghost predicate Rejoining(d: Desk, base: nat, p0: set<Op>, fromSeq: nat, c: State, x: set<Op>) {
    && |d.done| <= |d.server.commits| && base <= fromSeq <= d.lastCommitted <= base + |d.server.finalized|
    && Holds(c, x, p0, d.server.finalized, fromSeq - base)
  }

  /** Every operation numbered above `fromSeq` is applied. */
  ghost predicate HasRest(u: State, finalized: seq<Final>, k: nat) {
    forall i :: k <= i < |finalized| ==> finalized[i].sent.op.id in u.applied
  }

  /** The catch-up's rows, against the log at the time. */
  lemma RowsSent(engine: State, base: nat, events: seq<Event>, fromSeq: nat)
    requires Quiet(engine) && engine.pending == [] && DeskRun(Opened(engine, base), events).Some?
    requires base <= fromSeq <= DeskRun(Opened(engine, base), events).value.lastCommitted
    ensures
      var d := DeskRun(Opened(engine, base), events).value;
      && |d.done| <= |d.server.commits| && fromSeq - base <= |d.server.finalized|
      && (forall f :: f in CatchUp(d, fromSeq) ==> f in d.server.finalized)
      && (Complete(d, fromSeq) ==> CatchUp(d, fromSeq) == d.server.finalized[fromSeq - base..])
      && (!Complete(d, fromSeq) ==>
            exists i :: fromSeq - base <= i < |d.server.finalized| && d.server.finalized[i] !in CatchUp(d, fromSeq))
  {
    hide DeskRun, Quiet, Conserved, AllEntries, CatchUp, GapsBelow;
    CatchUpExactly(engine, base, events, fromSeq);
    RunOrderly(engine, base, events);
    DurableWithin(engine, base, events);
    var d := DeskRun(Opened(engine, base), events).value;
    RowsDurable(d, fromSeq);
    if !Complete(d, fromSeq) {
      var i := SomethingMissed(d, base, fromSeq);
    }
  }

  lemma RowsDurable(d: Desk, fromSeq: nat)
    ensures forall f :: f in CatchUp(d, fromSeq) ==> f in d.durable
  {
    forall f | f in CatchUp(d, fromSeq) ensures f in d.durable {
      BetweenWithin(d.durable, fromSeq, d.lastCommitted, f);
    }
  }

  /**
   * A client reconnects at any point of any run, rebuilds its engine from its nodes, applies the catch-up in chunks
   * and then what is numbered and relayed while the run goes on. If no commit succeeded behind a failed one above
   * its number, and no numbered operation was still waiting for its commit, it ends with the coordinator's document;
   * and for a client that held nothing above its number this is exactly when it gets every operation.
   */
  lemma RejoinsExactly(engine: State, base: nat, events: seq<Event>, more: seq<Event>, p0: set<Op>, c: State,
    x: set<Op>, r: nat, fromSeq: nat, pieces: seq<seq<Row>>, size: Op -> nat)
    requires Quiet(engine) && engine.pending == [] && Core(engine, p0)
    requires DeskRun(Opened(engine, base), events).Some? && DeskRun(Opened(engine, base), events + more).Some?
    requires Coherent(p0 + SetOf(OpsOf(DeskRun(Opened(engine, base), events + more).value.server.accepted)))
    requires Rejoining(DeskRun(Opened(engine, base), events).value, base, p0, fromSeq, c, x)
    requires Split(pieces, RowsOf(CatchUp(DeskRun(Opened(engine, base), events).value, fromSeq), size))
      && forall p :: p in pieces ==> p != []
    ensures
      var d := DeskRun(Opened(engine, base), events).value;
      var sv := DeskRun(Opened(engine, base), events + more).value.server;
      && |d.server.finalized| <= |sv.finalized|
      && var u := Rejoined(c, r, ChunksOf(pieces), sv.finalized[|d.server.finalized|..]);
      && (Complete(d, fromSeq) ==>
            && u.pending == [] && Origins(Flat(u.tree)) == Origins(Flat(sv.engine.tree))
            && (Settled(Logged(p0, sv.finalized)) ==> u.tree == sv.engine.tree))
      && (Complete(d, fromSeq) ==> HasRest(u, sv.finalized, fromSeq - base))
      && (x == Logged(p0, d.server.finalized[..fromSeq - base]) && HasRest(u, sv.finalized, fromSeq - base) ==>
            Complete(d, fromSeq))
  {
    hide DeskRun, Quiet, Core, Coherent, Settled, Complete, CatchUp, Rejoined, FinalOps, RowsOf, ChunksOf, Split, Told,
      Logged, Seedable;
    var d := DeskRun(Opened(engine, base), events).value;
    var sv := DeskRun(Opened(engine, base), events + more).value.server;
    var k, n, rows := fromSeq - base, |d.server.finalized|, CatchUp(d, fromSeq);
    RunGrows(Opened(engine, base), events, more);
    assert sv.finalized[..n] == d.server.finalized && sv.finalized[..k] == d.server.finalized[..k];
    RowsSent(engine, base, events, fromSeq);
    RunTold(engine, base, events + more, p0);
    RejoinedIs(c, x, r, pieces, rows, size, sv.finalized[n..]);
    HoldsLater(c, x, p0, d.server.finalized, sv.finalized, k);
    var w, l := sv.engine.(pending := []), Logged(p0, sv.finalized);
    if Complete(d, fromSeq) {
      assert rows == sv.finalized[k..n];
      CompleteRejoins(sv, base, engine.applied, p0, w, l, k, n, c, x, r, rows);
    } else if x == Logged(p0, d.server.finalized[..k]) {
      var i :| k <= i < n && d.server.finalized[i] !in rows;
      assert sv.finalized[i] == d.server.finalized[i];
      MissingStays(sv, base, engine.applied, p0, w, l, k, n, c, x, r, rows, i);
    }
  }

  lemma HoldsLater(c: State, x: set<Op>, p0: set<Op>, now: seq<Final>, later: seq<Final>, k: nat)
    requires now <= later && k <= |now| && Holds(c, x, p0, now, k)
    ensures x <= Logged(p0, later) && Logged(p0, later[..k]) <= AppliedOps(c, x)
  {
    hide FinalOps, AppliedOps;
    LoggedSplit(p0, later, |now|);
    assert later[..|now|] == now && later[..k] == now[..k];
  }
}
