/** The commit queue: first in, first out; what is durable, what is acknowledged, what catch-up promises. */
module Commits {
  import opened Operations
  import opened EngineState
  import opened Intake
  import opened Coordination
  import opened Eviction

  /**
   * The coordinator, how the commits executed so far ended (in order), the highest sequence number
   * known committed, and the operations made durable and acknowledged.
   */
  datatype Desk = Desk(server: Server, done: seq<bool>, lastCommitted: nat, durable: seq<Final>, acked: seq<Final>)

  datatype Event =
    | Receive(message: Message, origin: Origin, nowMs: int)
    | SweepAt(nowMs: int, timeoutMs: int, maxPending: nat)
    | CommitSucceeds
    | CommitFails
    | Acknowledge(k: nat)

  function EndSeq(c: Commit): nat {
    if c.ops == [] then c.startSeq else c.startSeq + |c.ops| - 1
  }

  ghost predicate Enabled(d: Desk, e: Event) {
    match e
    case Receive(m, origin, _) => WF(d.server.engine) && FreshFor(d.server, m, origin)
    case SweepAt(_, _, _) => true
    case CommitSucceeds => |d.done| < |d.server.commits|
    case CommitFails => |d.done| < |d.server.commits|
    case Acknowledge(k) => k < |d.done| <= |d.server.commits| && d.done[k]
  }

  /** Commits are executed strictly in the order they were queued. */
  function Step(d: Desk, e: Event): Desk
    requires Enabled(d, e)
  {
    match e
    case Receive(m, origin, nowMs) => d.(server := Process(d.server, m, origin, nowMs))
    case SweepAt(nowMs, timeoutMs, maxPending) => d.(server := Sweep(d.server, nowMs, timeoutMs, maxPending))
    case CommitSucceeds =>
      var c := d.server.commits[|d.done|];
      d.(done := d.done + [true], lastCommitted := EndSeq(c), durable := d.durable + Entries(c))
    case CommitFails => d.(done := d.done + [false])
    case Acknowledge(k) => d.(acked := d.acked + Entries(d.server.commits[k]))
  }

  // ------------------------------------------------------------------ the invariant

  /** What the successful ones among the first commits covered, in order. */
  function Succeeded(cs: seq<Commit>, done: seq<bool>): seq<Final>
    requires |done| <= |cs|
  {
    if done == [] then []
    else
      var n := |done| - 1;
      Succeeded(cs, done[..n]) + if done[n] then Entries(cs[n]) else []
  }

  /** The end of the last successful one. */
  function Watermark(cs: seq<Commit>, done: seq<bool>, base: nat): nat
    requires |done| <= |cs|
  {
    if done == [] then base
    else if done[|done| - 1] then EndSeq(cs[|done| - 1])
    else Watermark(cs, done[..|done| - 1], base)
  }

  ghost predicate Nonempty(cs: seq<Commit>) {
    forall c :: c in cs ==> c.ops != []
  }

  ghost predicate Orderly(d: Desk, base: nat) {
    && Sound(d.server, base) && Nonempty(d.server.commits) && |d.done| <= |d.server.commits|
    && d.durable == Succeeded(d.server.commits, d.done)
    && d.lastCommitted == Watermark(d.server.commits, d.done, base)
    && forall f :: f in d.acked ==> f in d.durable
  }

  /** Later commits leave the account of the executed ones alone. */
  lemma {:induction false} SameSoFar(cs: seq<Commit>, more: seq<Commit>, done: seq<bool>, base: nat)
    requires |done| <= |cs|
    ensures Succeeded(cs + more, done) == Succeeded(cs, done)
      && Watermark(cs + more, done, base) == Watermark(cs, done, base)
  {
    if done != [] {
      SameSoFar(cs, more, done[..|done| - 1], base);
      assert (cs + more)[|done| - 1] == cs[|done| - 1];
    }
  }

  /** Messages and sweeps only ever append commits, and none without operations. */
  ghost predicate Appends(cs: seq<Commit>, ds: seq<Commit>) {
    |cs| <= |ds| && ds[..|cs|] == cs && Nonempty(ds[|cs|..])
  }

  lemma FinalizeAppends(sv: Server, items: seq<Sent>, commits: seq<Commit>, nowMs: int)
    requires Nonempty(commits)
    ensures Appends(sv.commits, Finalize(sv, items, commits, nowMs).commits)
  {
    var ds := Finalize(sv, items, commits, nowMs).commits;
    assert ds[..|sv.commits|] == sv.commits && ds[|sv.commits|..] == commits;
  }

  lemma ProcessAppends(sv: Server, m: Message, origin: Origin, nowMs: int)
    requires WF(sv.engine)
    ensures Appends(sv.commits, Process(sv, m, origin, nowMs).commits)
  {
    hide TakeAll, Departed, Picked, RecordDeletes, WF, Numbered, SlowItems;
    if ToOperations(m) == [] {
      assert sv.commits[|sv.commits|..] == [];
    } else {
      AcceptAppends(sv, ToOperations(m), origin, nowMs);
    }
  }

  lemma AcceptAppends(sv: Server, ops: seq<Op>, origin: Origin, nowMs: int)
    requires WF(sv.engine) && ops != []
    ensures Appends(sv.commits, Accept(sv, ops, origin, nowMs).commits)
  {
    hide TakeAll, Departed, Picked, RecordDeletes, WF, Appends, Finalize;
    var r := TakeAll(sv.engine, ops);
    var waiting := Picked(ops, r.buffered, true);
    var freed := Departed(ById(sv.engine.pending), IdsOf(r.state.pending));
    var sv1 := sv.(engine := r.state, origins := RecordOrigins(sv.origins, waiting, origin),
                   accepted := sv.accepted + SentBy(ops, origin));
    if waiting == [] && freed == [] {
      FinalizeAppends(sv1, SentBy(ops, origin), [Commit(sv1.currentSeq + 1, ops, origin)], nowMs);
    } else {
      var items := SlowItems(sv1, Picked(ops, r.buffered, false), freed, origin);
      var sv2 := sv1.(origins := sv1.origins - IdsOf(freed));
      FinalizeAppends(sv2, items, OneCommitEach(Numbered(items, sv1.currentSeq)), nowMs);
    }
  }

  /** Nothing of what was accepted, numbered or queued changes, nor the tree; an empty buffer stays empty. */
  ghost predicate OnlyBuffer(sv: Server, t: Server) {
    && t.commits == sv.commits && t.finalized == sv.finalized && t.accepted == sv.accepted
    && t.engine == sv.engine.(pending := t.engine.pending)
    && (sv.engine.pending == [] ==> t.engine.pending == [])
  }

  lemma {:induction false} EvictAllBuffer(sv: Server, victims: seq<Op>)
    ensures OnlyBuffer(sv, EvictAll(sv, victims))
  {
    if victims != [] { EvictAllBuffer(sv, victims[..|victims| - 1]); }
  }

  lemma {:induction false} AgePassBuffer(sv: Server, q: seq<Op>, nowMs: int, timeoutMs: int)
    ensures OnlyBuffer(sv, AgePass(sv, q, nowMs, timeoutMs))
  {
    if q != [] { AgePassBuffer(sv, q[..|q| - 1], nowMs, timeoutMs); }
  }

  lemma SweepBuffer(sv: Server, nowMs: int, timeoutMs: int, maxPending: nat)
    ensures OnlyBuffer(sv, Sweep(sv, nowMs, timeoutMs, maxPending))
  {
    hide AgePass, EvictAll, OldestFirst;
    AgePassBuffer(sv, sv.engine.pending, nowMs, timeoutMs);
    var p := Prune(AgePass(sv, sv.engine.pending, nowMs, timeoutMs), IdsOf(sv.engine.pending));
    var order := OldestFirst(p.engine.pending, p.firstSeen, nowMs);
    var n := Overflow(p.engine.pending, maxPending);
    EvictAllBuffer(p, order[..if n <= |order| then n else |order|]);
  }

  /** The same executed commits, after the queue grew. */
  lemma OrderlyGrows(d: Desk, sv: Server, base: nat)
    requires Orderly(d, base) && Sound(sv, base) && Appends(d.server.commits, sv.commits)
    ensures Orderly(d.(server := sv), base)
  {
    hide Sound, Succeeded, Watermark;
    var cs, ds := d.server.commits, sv.commits;
    var more := ds[|cs|..];
    assert ds == cs + more;
    SameSoFar(cs, more, d.done, base);
    forall c | c in ds ensures c.ops != [] { assert c in cs || c in more; }
  }

  lemma {:induction false} SucceededHas(cs: seq<Commit>, done: seq<bool>, k: nat)
    requires k < |done| <= |cs| && done[k]
    ensures forall f :: f in Entries(cs[k]) ==> f in Succeeded(cs, done)
  {
    if k < |done| - 1 { SucceededHas(cs, done[..|done| - 1], k); }
  }

  lemma DoneMore(cs: seq<Commit>, done: seq<bool>, ok: bool, base: nat)
    requires |done| < |cs|
    ensures Succeeded(cs, done + [ok]) == Succeeded(cs, done) + (if ok then Entries(cs[|done|]) else [])
    ensures Watermark(cs, done + [ok], base) == if ok then EndSeq(cs[|done|]) else Watermark(cs, done, base)
  {
    assert (done + [ok])[..|done|] == done;
  }

  lemma StepOrderly(d: Desk, e: Event, base: nat)
    requires Orderly(d, base) && Enabled(d, e)
    ensures Orderly(Step(d, e), base)
  {
    hide Quiet, Conserved, SeqsOk, Process, Sweep, Entries;
    match e
    case Receive(m, origin, nowMs) =>
      ProcessSound(d.server, m, origin, nowMs, base);
      ProcessAppends(d.server, m, origin, nowMs);
      OrderlyGrows(d, Process(d.server, m, origin, nowMs), base);
    case SweepAt(nowMs, timeoutMs, maxPending) =>
      SweepExact(d.server, nowMs, timeoutMs, maxPending, base);
      SweepBuffer(d.server, nowMs, timeoutMs, maxPending);
      SameCommits(d.server.commits);
      OrderlyGrows(d, Sweep(d.server, nowMs, timeoutMs, maxPending), base);
    case CommitSucceeds => DoneMore(d.server.commits, d.done, true, base);
    case CommitFails => DoneMore(d.server.commits, d.done, false, base);
    case Acknowledge(k) => SucceededHas(d.server.commits, d.done, k);
  }

  lemma SameCommits(cs: seq<Commit>)
    ensures Appends(cs, cs)
  {
    assert cs[|cs|..] == [];
  }
}
