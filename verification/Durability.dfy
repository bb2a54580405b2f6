/** What holds of every interleaving of messages, sweeps, commits and acknowledgements. */
module Durability {
  import opened Identifiers
  import opened Operations
  import opened EngineState
  import opened Replica
  import opened Intake
  import opened Coordination
  import opened Eviction
  import opened Commits

  /** A coordinator after a warm start: nothing waiting, everything up to `base` durable. */
  function Opened(engine: State, base: nat): Desk {
    Desk(Server(engine, base, map[], map[], [], [], [], []), [], base, [], [])
  }

  ghost function DeskRun(start: Desk, events: seq<Event>): Option<Desk> {
    if events == [] then Some(start)
    else
      var before := DeskRun(start, events[..|events| - 1]);
      if before.Some? && Enabled(before.value, events[|events| - 1])
      then Some(Commits.Step(before.value, events[|events| - 1])) else None
  }

  lemma OpenedOrderly(engine: State, base: nat)
    requires Quiet(engine) && engine.pending == []
    ensures Orderly(Opened(engine, base), base)
  {
    hide Quiet;
    assert AllEntries([]) == [] && SentOf([]) == [];
  }

  lemma {:induction false} RunOrderly(engine: State, base: nat, events: seq<Event>)
    requires Quiet(engine) && engine.pending == [] && DeskRun(Opened(engine, base), events).Some?
    ensures Orderly(DeskRun(Opened(engine, base), events).value, base)
  {
    hide Orderly, Enabled, Commits.Step;
    if events == [] {
      OpenedOrderly(engine, base);
    } else {
      RunOrderly(engine, base, events[..|events| - 1]);
      StepOrderly(DeskRun(Opened(engine, base), events[..|events| - 1]).value, events[|events| - 1], base);
    }
  }

  // ------------------------------------------------------------------ every operation accounted for

  /** Exactly one of the three. */
  predicate OneOf(a: bool, b: bool, c: bool) {
    (a || b || c) && !(a && b) && !(a && c) && !(b && c)
  }

  lemma AcceptedOnce(items: seq<Sent>, x: Sent)
    requires DistinctIds(OpsOf(items)) && x in items
    ensures multiset(items)[x] == 1
  {
    var i :| 0 <= i < |items| && items[i] == x;
    assert items == items[..i] + [x] + items[i + 1..];
    forall j | 0 <= j < |items| && j != i ensures items[j] != x {
      assert OpsOf(items)[j].id != OpsOf(items)[i].id;
    }
    assert x !in items[..i] && x !in items[i + 1..];
  }

  /**
   * In every run an accepted operation is finalized, waiting or evicted, one of the three, under the
   * sender who submitted it; and nothing else is any of these.
   */
  lemma AcceptedPartitioned(engine: State, base: nat, events: seq<Event>, x: Sent)
    requires Quiet(engine) && engine.pending == [] && DeskRun(Opened(engine, base), events).Some?
    ensures
      var sv := DeskRun(Opened(engine, base), events).value.server;
      var finalized, waiting, evicted := x in SentOf(sv.finalized), x in WithOrigins(sv.engine.pending, sv.origins),
        x in sv.evicted;
      if x in sv.accepted then OneOf(finalized, waiting, evicted) else !finalized && !waiting && !evicted
  {
    hide DeskRun, Quiet, SeqsOk, WithOrigins;
    RunOrderly(engine, base, events);
    var sv := DeskRun(Opened(engine, base), events).value.server;
    var a, f, w, v := multiset(sv.accepted), multiset(SentOf(sv.finalized)),
      multiset(WithOrigins(sv.engine.pending, sv.origins)), multiset(sv.evicted);
    if x in sv.accepted { AcceptedOnce(sv.accepted, x); }
    assert a[x] == (f + w + v)[x] == f[x] + w[x] + v[x];
    assert x in SentOf(sv.finalized) <==> f[x] > 0;
    assert x in WithOrigins(sv.engine.pending, sv.origins) <==> w[x] > 0;
    assert x in sv.evicted <==> v[x] > 0;
    assert x in sv.accepted <==> a[x] > 0;
  }

  /** A waiting operation's sender is always on record, so an operation set free is never skipped. */
  lemma OriginNeverMissing(engine: State, base: nat, events: seq<Event>)
    requires Quiet(engine) && engine.pending == [] && DeskRun(Opened(engine, base), events).Some?
    ensures
      var sv := DeskRun(Opened(engine, base), events).value.server;
      && sv.origins.Keys == IdsOf(sv.engine.pending)
      && |WithOrigins(sv.engine.pending, sv.origins)| == |sv.engine.pending|
  {
    hide DeskRun, Quiet, SeqsOk, Conserved;
    RunOrderly(engine, base, events);
    var sv := DeskRun(Opened(engine, base), events).value.server;
    assert forall o :: o in sv.engine.pending ==> o.id in IdsOf(sv.engine.pending);
    WithOriginsLength(sv.engine.pending, sv.origins);
  }

  lemma {:induction false} WithOriginsLength(q: seq<Op>, origins: map<Id, Origin>)
    requires forall o :: o in q ==> o.id in origins
    ensures |WithOrigins(q, origins)| == |q|
  {
    if q != [] {
      assert q[0] in q && forall o :: o in q[1..] ==> o in q;
      WithOriginsLength(q[1..], origins);
    }
  }

  /** Sequence numbers are contiguous, one per finalized operation, and none belongs to a waiting one. */
  lemma SequenceNumbers(engine: State, base: nat, events: seq<Event>)
    requires Quiet(engine) && engine.pending == [] && DeskRun(Opened(engine, base), events).Some?
    ensures
      var sv := DeskRun(Opened(engine, base), events).value.server;
      && sv.currentSeq == base + |sv.finalized|
      && (forall i :: 0 <= i < |sv.finalized| ==> sv.finalized[i].seqno == base + 1 + i)
      && (forall f, o :: f in sv.finalized && o in sv.engine.pending ==> f.sent.op.id != o.id)
  {
    hide DeskRun, Conserved, WF, Drained;
    RunOrderly(engine, base, events);
  }

  // ------------------------------------------------------------------ the durable prefix

  /** Once a commit fails, no later one succeeds. */
  ghost predicate NoneAfterFailure(done: seq<bool>) {
    forall i, j :: 0 <= i < j < |done| && done[j] ==> done[i]
  }

  /** The commits and the numbering fit together. */
  ghost predicate Lined(cs: seq<Commit>, finalized: seq<Final>, base: nat) {
    && AllEntries(cs) == finalized && Nonempty(cs)
    && forall i :: 0 <= i < |finalized| ==> finalized[i].seqno == base + 1 + i
  }

  lemma EntriesPrefix(cs: seq<Commit>, k: nat)
    requires k <= |cs|
    ensures |AllEntries(cs[..k])| <= |AllEntries(cs)| && AllEntries(cs)[..|AllEntries(cs[..k])|] == AllEntries(cs[..k])
  {
    assert cs == cs[..k] + cs[k..];
    AllEntriesConcat(cs[..k], cs[k..]);
  }

  lemma EntriesNext(cs: seq<Commit>, k: nat)
    requires k < |cs|
    ensures AllEntries(cs[..k + 1]) == AllEntries(cs[..k]) + Entries(cs[k])
  {
    assert cs[..k + 1][..k] == cs[..k];
  }

  /** A commit covers the finalized operations at its own place. */
  lemma CommitAt(cs: seq<Commit>, finalized: seq<Final>, base: nat, k: nat)
    requires Lined(cs, finalized, base) && k < |cs|
    ensures
      var from, to := |AllEntries(cs[..k])|, |AllEntries(cs[..k + 1])|;
      from < to <= |finalized| && Entries(cs[k]) == finalized[from..to] && EndSeq(cs[k]) == base + to
  {
    EntriesNext(cs, k);
    EntriesPrefix(cs, k + 1);
    EntriesPrefix(cs, k);
    assert cs[k] in cs;
    var from, to := |AllEntries(cs[..k])|, |AllEntries(cs[..k + 1])|;
    assert Entries(cs[k]) == AllEntries(cs[..k + 1])[from..];
    assert finalized[to - 1] == AllEntries(cs[..k + 1])[to - 1] == Entries(cs[k])[|cs[k].ops| - 1];
  }

  /** Numbered after `base`, up to `to`, as in the list of finalized operations. */
  ghost predicate Places(fs: seq<Final>, finalized: seq<Final>, base: nat, to: nat) {
    to <= |finalized| && forall f :: f in fs ==> base < f.seqno <= base + to && f == finalized[f.seqno - base - 1]
  }

  lemma PlacesSlice(finalized: seq<Final>, base: nat, from: nat, to: nat)
    requires from <= to <= |finalized| && forall i :: 0 <= i < |finalized| ==> finalized[i].seqno == base + 1 + i
    ensures Places(finalized[from..to], finalized, base, to)
  {
    forall f | f in finalized[from..to] ensures base < f.seqno <= base + to && f == finalized[f.seqno - base - 1] {
      var i :| 0 <= i < |finalized[from..to]| && finalized[from..to][i] == f;
      assert finalized[from + i] == f;
    }
  }

  lemma PlacesBoth(fs: seq<Final>, gs: seq<Final>, finalized: seq<Final>, base: nat, n: nat, to: nat)
    requires Places(fs, finalized, base, n) && Places(gs, finalized, base, to) && n <= to
    ensures Places(fs + gs, finalized, base, to)
  {
  }

  /** What succeeded is among what was executed, and the mark is within it. */
  lemma {:induction false} SucceededWithin(cs: seq<Commit>, finalized: seq<Final>, base: nat, done: seq<bool>)
    requires Lined(cs, finalized, base) && |done| <= |cs|
    ensures Places(Succeeded(cs, done), finalized, base, |AllEntries(cs[..|done|])|)
    ensures base <= Watermark(cs, done, base) <= base + |AllEntries(cs[..|done|])|
    ensures forall f :: f in Succeeded(cs, done) ==> f.seqno <= Watermark(cs, done, base)
  {
    hide Entries, AllEntries, Places;
    EntriesPrefix(cs, |done|);
    if done == [] {
      PlacesNone(finalized, base, |AllEntries(cs[..0])|);
    } else {
      var n := |done| - 1;
      SucceededWithin(cs, finalized, base, done[..n]);
      CommitAt(cs, finalized, base, n);
      var from, to := |AllEntries(cs[..n])|, |AllEntries(cs[..n + 1])|;
      PlacesSlice(finalized, base, from, to);
      PlacesBoth(Succeeded(cs, done[..n]), if done[n] then Entries(cs[n]) else [], finalized, base, from, to);
      PlacesBound(Succeeded(cs, done), finalized, base, to);
    }
  }

  lemma PlacesNone(finalized: seq<Final>, base: nat, to: nat)
    requires to <= |finalized|
    ensures Places([], finalized, base, to)
  {
  }

  lemma PlacesBound(fs: seq<Final>, finalized: seq<Final>, base: nat, to: nat)
    requires Places(fs, finalized, base, to)
    ensures forall f :: f in fs ==> f.seqno <= base + to
  {
  }

  /** All successes: everything executed is durable. */
  lemma {:induction false} AllSucceeded(cs: seq<Commit>, done: seq<bool>)
    requires |done| <= |cs| && forall i :: 0 <= i < |done| ==> done[i]
    ensures Succeeded(cs, done) == AllEntries(cs[..|done|])
  {
    if done != [] {
      var n := |done| - 1;
      AllSucceeded(cs, done[..n]);
      EntriesNext(cs, n);
    } else {
      assert cs[..0] == [];
    }
  }

  /** Without a success after a failure, the durable operations are the prefix up to the mark. */
  lemma {:induction false} PrefixIfOrdered(cs: seq<Commit>, finalized: seq<Final>, base: nat, done: seq<bool>)
    requires Lined(cs, finalized, base) && |done| <= |cs| && NoneAfterFailure(done)
    ensures
      var n := Watermark(cs, done, base) - base;
      0 <= n <= |finalized| && Succeeded(cs, done) == finalized[..n]
  {
    hide Entries;
    SucceededWithin(cs, finalized, base, done);
    if done != [] {
      var n := |done| - 1;
      if done[n] {
        AllSucceeded(cs, done);
        CommitAt(cs, finalized, base, n);
        EntriesPrefix(cs, |done|);
      } else {
        assert NoneAfterFailure(done[..n]);
        PrefixIfOrdered(cs, finalized, base, done[..n]);
      }
    }
  }

  /** No operation of a failed commit is durable. */
  lemma {:induction false} FailedNotDurable(cs: seq<Commit>, finalized: seq<Final>, base: nat, done: seq<bool>,
    k: nat, x: nat)
    requires Lined(cs, finalized, base) && k < |done| <= |cs| && !done[k]
    requires |AllEntries(cs[..k])| <= x < |AllEntries(cs[..k + 1])|
    ensures x < |finalized| && finalized[x] !in Succeeded(cs, done)
  {
    hide Entries, AllEntries, Watermark, Places;
    CommitAt(cs, finalized, base, k);
    var n := |done| - 1;
    SucceededWithin(cs, finalized, base, done[..n]);
    PlacesBound(Succeeded(cs, done[..n]), finalized, base, |AllEntries(cs[..n])|);
    if k < n {
      FailedNotDurable(cs, finalized, base, done[..n], k, x);
      CommitAt(cs, finalized, base, n);
      Monotone(cs, k + 1, n);
      LaterNumbered(cs, finalized, base, n, x);
    }
  }

  /** The entries of a commit are numbered above every entry of the earlier ones. */
  lemma LaterNumbered(cs: seq<Commit>, finalized: seq<Final>, base: nat, n: nat, x: nat)
    requires Lined(cs, finalized, base) && n < |cs| && x < |AllEntries(cs[..n])|
    ensures x < |finalized| && forall g :: g in Entries(cs[n]) ==> g.seqno > finalized[x].seqno
  {
    hide Entries;
    CommitAt(cs, finalized, base, n);
    var from, to := |AllEntries(cs[..n])|, |AllEntries(cs[..n + 1])|;
    forall g | g in Entries(cs[n]) ensures g.seqno > finalized[x].seqno {
      var i :| 0 <= i < |finalized[from..to]| && finalized[from..to][i] == g;
      assert finalized[from + i] == g;
    }
  }

  lemma Monotone(cs: seq<Commit>, j: nat, k: nat)
    requires j <= k <= |cs|
    ensures |AllEntries(cs[..j])| <= |AllEntries(cs[..k])|
  {
    assert cs[..k][..j] == cs[..j];
    EntriesPrefix(cs[..k], j);
  }

  /** A success moves the mark past every earlier commit. */
  lemma {:induction false} MarkAfterSuccess(cs: seq<Commit>, finalized: seq<Final>, base: nat, done: seq<bool>, j: nat)
    requires Lined(cs, finalized, base) && j < |done| <= |cs| && done[j]
    ensures Watermark(cs, done, base) >= base + |AllEntries(cs[..j + 1])|
  {
    hide Entries;
    var n := |done| - 1;
    if done[n] {
      CommitAt(cs, finalized, base, n);
      Monotone(cs, j + 1, n + 1);
    } else {
      MarkAfterSuccess(cs, finalized, base, done[..n], j);
    }
  }

  /**
   * In every interleaving the operations up to the mark are all durable exactly if no commit
   * succeeded after one had failed.
   */
  lemma GapFreeExactly(engine: State, base: nat, events: seq<Event>)
    requires Quiet(engine) && engine.pending == [] && DeskRun(Opened(engine, base), events).Some?
    ensures
      var d := DeskRun(Opened(engine, base), events).value;
      && base <= d.lastCommitted <= base + |d.server.finalized|
      && (d.durable == d.server.finalized[..d.lastCommitted - base] <==> NoneAfterFailure(d.done))
  {
    hide DeskRun, Quiet, Conserved, Entries, AllEntries, Succeeded, Watermark;
    RunOrderly(engine, base, events);
    var d := DeskRun(Opened(engine, base), events).value;
    var cs, finalized := d.server.commits, d.server.finalized;
    assert Lined(cs, finalized, base);
    SucceededWithin(cs, finalized, base, d.done);
    if NoneAfterFailure(d.done) {
      PrefixIfOrdered(cs, finalized, base, d.done);
    } else {
      var i, j :| 0 <= i < j < |d.done| && d.done[j] && !d.done[i];
      CommitAt(cs, finalized, base, i);
      FailedNotDurable(cs, finalized, base, d.done, i, |AllEntries(cs[..i])|);
      MarkAfterSuccess(cs, finalized, base, d.done, j);
      Monotone(cs, i + 1, j + 1);
      var f := finalized[|AllEntries(cs[..i])|];
      assert f == finalized[..d.lastCommitted - base][|AllEntries(cs[..i])|];
    }
  }

  /** A durable operation is finalized, and durability follows the numbering. */
  lemma DurableWithin(engine: State, base: nat, events: seq<Event>)
    requires Quiet(engine) && engine.pending == [] && DeskRun(Opened(engine, base), events).Some?
    ensures
      var d := DeskRun(Opened(engine, base), events).value;
      forall f :: f in d.durable ==> f in d.server.finalized && f.seqno <= d.lastCommitted <= d.server.currentSeq
  {
    hide DeskRun, Quiet, Conserved, Entries, AllEntries, Succeeded, Watermark;
    RunOrderly(engine, base, events);
    var d := DeskRun(Opened(engine, base), events).value;
    assert Lined(d.server.commits, d.server.finalized, base);
    SucceededWithin(d.server.commits, d.server.finalized, base, d.done);
  }

  // ------------------------------------------------------------------ catch-up

  /** The rows a catch-up from `fromSeq` sends: what the store has in (`fromSeq`, mark]. */
  function CatchUp(d: Desk, fromSeq: nat): seq<Final> {
    Between(d.durable, fromSeq, d.lastCommitted)
  }

  function Between(rows: seq<Final>, lo: nat, hi: nat): seq<Final> {
    if rows == [] then []
    else
      var n := |rows| - 1;
      Between(rows[..n], lo, hi) + if lo < rows[n].seqno <= hi then [rows[n]] else []
  }

  lemma {:induction false} BetweenPrefix(rows: seq<Final>, base: nat, lo: nat, hi: nat)
    requires base <= lo <= base + |rows| <= hi
    requires forall i :: 0 <= i < |rows| ==> rows[i].seqno == base + 1 + i
    ensures Between(rows, lo, hi) == rows[lo - base..]
  {
    if rows != [] {
      var n := |rows| - 1;
      if lo == base + |rows| {
        BetweenNone(rows, lo, hi);
      } else {
        BetweenPrefix(rows[..n], base, lo, hi);
      }
    }
  }

  lemma {:induction false} BetweenNone(rows: seq<Final>, lo: nat, hi: nat)
    requires forall i :: 0 <= i < |rows| ==> rows[i].seqno <= lo
    ensures Between(rows, lo, hi) == []
  {
    if rows != [] { BetweenNone(rows[..|rows| - 1], lo, hi); }
  }

  lemma {:induction false} BetweenConcat(a: seq<Final>, b: seq<Final>, lo: nat, hi: nat)
    ensures Between(a + b, lo, hi) == Between(a, lo, hi) + Between(b, lo, hi)
  {
    if b == [] {
      assert a + b == a;
    } else {
      var n := |b| - 1;
      assert (a + b)[..|a + b| - 1] == a + b[..n];
      BetweenConcat(a, b[..n], lo, hi);
    }
  }

  lemma {:induction false} BetweenWithin(rows: seq<Final>, lo: nat, hi: nat, f: Final)
    ensures f in Between(rows, lo, hi) ==> f in rows
  {
    if rows != [] { BetweenWithin(rows[..|rows| - 1], lo, hi, f); }
  }

  /** The finalized operations numbered above `lo`, of the first `to`. */
  function Above(finalized: seq<Final>, base: nat, lo: nat, to: nat): seq<Final>
    requires base <= lo && to <= |finalized|
  {
    if lo - base <= to then finalized[lo - base..to] else []
  }

  /** What one commit adds to a catch-up from `lo`. */
  lemma BetweenCommit(finalized: seq<Final>, base: nat, lo: nat, hi: nat, from: nat, to: nat)
    requires from < to <= |finalized| && base <= lo && base + to <= hi
    requires forall i :: 0 <= i < |finalized| ==> finalized[i].seqno == base + 1 + i
    ensures var low := if lo < base + from then from else lo - base;
      Between(finalized[from..to], lo, hi) == if low <= to then finalized[low..to] else []
  {
    var rows := finalized[from..to];
    if lo >= base + to {
      BetweenNone(rows, lo, hi);
    } else if lo >= base + from {
      BetweenPrefix(rows, base + from, lo, hi);
    } else {
      BetweenPrefix(rows, base + from, base + from, hi);
      BetweenLower(rows, lo, base + from, hi);
    }
  }

  lemma {:induction false} BetweenLower(rows: seq<Final>, lo: nat, lo': nat, hi: nat)
    requires lo <= lo' && forall i :: 0 <= i < |rows| ==> rows[i].seqno > lo'
    ensures Between(rows, lo, hi) == Between(rows, lo', hi)
  {
    if rows != [] { BetweenLower(rows[..|rows| - 1], lo, lo', hi); }
  }

  /** Every failed commit ends at or below `lo`. */
  ghost predicate FailuresBelow(cs: seq<Commit>, done: seq<bool>, lo: nat)
    requires |done| <= |cs|
  {
    forall i :: 0 <= i < |done| && !done[i] ==> EndSeq(cs[i]) <= lo
  }

  lemma FailuresMore(cs: seq<Commit>, done: seq<bool>, lo: nat)
    requires done != [] && |done| <= |cs|
    ensures var n := |done| - 1;
      FailuresBelow(cs, done, lo) <==> FailuresBelow(cs, done[..n], lo) && (done[n] || EndSeq(cs[n]) <= lo)
  {
    var n := |done| - 1;
    assert forall i :: 0 <= i < n ==> done[..n][i] == done[i];
  }

  /** An earlier failure ends before a later commit starts. */
  lemma EarlierEnds(cs: seq<Commit>, finalized: seq<Final>, base: nat, done: seq<bool>, lo: nat)
    requires Lined(cs, finalized, base) && |done| <= |cs| && lo >= base + |AllEntries(cs[..|done|])|
    ensures FailuresBelow(cs, done, lo)
  {
    forall i | 0 <= i < |done| && !done[i] ensures EndSeq(cs[i]) <= lo {
      CommitAt(cs, finalized, base, i);
      Monotone(cs, i + 1, |done|);
    }
  }

  /** The durable rows above `lo` are all the executed ones above `lo` exactly if every failure ends below. */
  lemma {:induction false} RowsAbove(cs: seq<Commit>, finalized: seq<Final>, base: nat, done: seq<bool>, lo: nat,
    hi: nat)
    requires Lined(cs, finalized, base) && |done| <= |cs| && base <= lo
    requires base + |AllEntries(cs[..|done|])| <= hi
    ensures |AllEntries(cs[..|done|])| <= |finalized|
    ensures Between(Succeeded(cs, done), lo, hi) == Above(finalized, base, lo, |AllEntries(cs[..|done|])|)
       <==> FailuresBelow(cs, done, lo)
  {
    hide Entries, AllEntries, Between, FailuresBelow;
    EntriesPrefix(cs, |done|);
    if done == [] {
      RowsNone(cs, finalized, base, lo, hi);
    } else {
      var n := |done| - 1;
      var from, to := |AllEntries(cs[..n])|, |AllEntries(cs[..n + 1])|;
      CommitAt(cs, finalized, base, n);
      RowsAbove(cs, finalized, base, done[..n], lo, hi);
      FailuresMore(cs, done, lo);
      var rows := Succeeded(cs, done[..n]);
      if done[n] {
        BetweenConcat(rows, Entries(cs[n]), lo, hi);
        BetweenCommit(finalized, base, lo, hi, from, to);
      } else {
        SucceededWithin(cs, finalized, base, done[..n]);
        LastMissing(rows, finalized, base, lo, hi, from, to);
        assert Succeeded(cs, done) == rows + [] == rows;
      }
      if lo >= base + from { EarlierEnds(cs, finalized, base, done[..n], lo); }
      AboveMore(finalized, base, lo, from, to, Between(rows, lo, hi));
    }
  }

  lemma RowsNone(cs: seq<Commit>, finalized: seq<Final>, base: nat, lo: nat, hi: nat)
    requires base <= lo
    ensures |AllEntries(cs[..0])| == 0
    ensures Between(Succeeded(cs, []), lo, hi) == Above(finalized, base, lo, 0) && FailuresBelow(cs, [], lo)
  {
  }

  /** Rows numbered up to `from` cannot be all those above `lo` and up to `to`. */
  lemma LastMissing(rows: seq<Final>, finalized: seq<Final>, base: nat, lo: nat, hi: nat, from: nat, to: nat)
    requires Places(rows, finalized, base, from) && from < to <= |finalized| && base <= lo
    requires forall i :: 0 <= i < |finalized| ==> finalized[i].seqno == base + 1 + i
    ensures lo < base + to ==> Between(rows, lo, hi) != Above(finalized, base, lo, to)
    ensures lo >= base + from ==> Between(rows, lo, hi) == []
  {
    if lo < base + to {
      BetweenWithin(rows, lo, hi, finalized[to - 1]);
      assert finalized[to - 1] == Above(finalized, base, lo, to)[to - 1 - (lo - base)];
    }
    if lo >= base + from {
      forall i | 0 <= i < |rows| ensures rows[i].seqno <= lo { assert rows[i] in rows; }
      BetweenNone(rows, lo, hi);
    }
  }

  lemma AboveMore(finalized: seq<Final>, base: nat, lo: nat, from: nat, to: nat, rows: seq<Final>)
    requires from < to <= |finalized| && base <= lo
    ensures lo < base + from ==> (rows + finalized[from..to] == Above(finalized, base, lo, to)
                             <==> rows == Above(finalized, base, lo, from))
    ensures lo >= base + from ==> Above(finalized, base, lo, from) == []
  {
    if lo < base + from {
      var a := Above(finalized, base, lo, from);
      assert Above(finalized, base, lo, to) == a + finalized[from..to];
      if rows + finalized[from..to] == a + finalized[from..to] {
        assert |rows| == |a|;
        assert rows == (rows + finalized[from..to])[..|rows|];
        assert a == (a + finalized[from..to])[..|a|];
      }
    }
  }

  /** Every commit that failed before a later success ends at or below `lo`. */
  ghost predicate GapsBelow(cs: seq<Commit>, done: seq<bool>, lo: nat)
    requires |done| <= |cs|
  {
    forall i, j :: 0 <= i < j < |done| && !done[i] && done[j] ==> EndSeq(cs[i]) <= lo
  }

  lemma {:induction false} CatchUpRows(cs: seq<Commit>, finalized: seq<Final>, base: nat, done: seq<bool>, lo: nat)
    requires Lined(cs, finalized, base) && |done| <= |cs| && base <= lo <= Watermark(cs, done, base)
    ensures Watermark(cs, done, base) - base <= |finalized|
    ensures Between(Succeeded(cs, done), lo, Watermark(cs, done, base))
         == finalized[lo - base..Watermark(cs, done, base) - base]
       <==> GapsBelow(cs, done, lo)
  {
    hide Entries, AllEntries, Between;
    SucceededWithin(cs, finalized, base, done);
    if done == [] {
      RowsNone(cs, finalized, base, lo, base);
    } else {
      var n := |done| - 1;
      if done[n] {
        CommitAt(cs, finalized, base, n);
        RowsAbove(cs, finalized, base, done, lo, Watermark(cs, done, base));
      } else {
        CatchUpRows(cs, finalized, base, done[..n], lo);
        assert forall i :: 0 <= i < n ==> done[..n][i] == done[i];
        assert GapsBelow(cs, done, lo) <==> GapsBelow(cs, done[..n], lo);
        assert Succeeded(cs, done) == Succeeded(cs, done[..n]) + [] == Succeeded(cs, done[..n]);
      }
    }
  }

  /**
   * In every interleaving a catch-up sends every operation it promises exactly if each commit that failed
   * before a later success ends at or below the number the catch-up starts from.
   */
  lemma CatchUpExactly(engine: State, base: nat, events: seq<Event>, fromSeq: nat)
    requires Quiet(engine) && engine.pending == [] && DeskRun(Opened(engine, base), events).Some?
    ensures
      var d := DeskRun(Opened(engine, base), events).value;
      && |d.done| <= |d.server.commits| && base <= d.lastCommitted <= base + |d.server.finalized|
      && (base <= fromSeq <= d.lastCommitted ==>
            (CatchUp(d, fromSeq) == d.server.finalized[fromSeq - base..d.lastCommitted - base]
             <==> GapsBelow(d.server.commits, d.done, fromSeq)))
  {
    hide DeskRun, Quiet, Conserved, Between, Entries, AllEntries, GapsBelow;
    GapFreeExactly(engine, base, events);
    RunOrderly(engine, base, events);
    var d := DeskRun(Opened(engine, base), events).value;
    assert Lined(d.server.commits, d.server.finalized, base);
    if base <= fromSeq <= d.lastCommitted {
      CatchUpRows(d.server.commits, d.server.finalized, base, d.done, fromSeq);
    }
  }

  /** So it is complete from anywhere as long as no commit succeeded after a failed one. */
  lemma CatchUpComplete(engine: State, base: nat, events: seq<Event>, fromSeq: nat)
    requires Quiet(engine) && engine.pending == [] && DeskRun(Opened(engine, base), events).Some?
    ensures
      var d := DeskRun(Opened(engine, base), events).value;
      NoneAfterFailure(d.done) && base <= fromSeq <= d.lastCommitted ==>
        d.lastCommitted - base <= |d.server.finalized|
        && CatchUp(d, fromSeq) == d.server.finalized[fromSeq - base..d.lastCommitted - base]
  {
    hide DeskRun, Quiet, CatchUp;
    CatchUpExactly(engine, base, events, fromSeq);
  }

  // ------------------------------------------------------------------ acknowledgements

  lemma {:induction false} DurableGrows(start: Desk, events: seq<Event>, more: seq<Event>)
    requires DeskRun(start, events + more).Some?
    ensures DeskRun(start, events).Some?
    ensures DeskRun(start, events).value.durable <= DeskRun(start, events + more).value.durable
    decreases |more|
  {
    hide Enabled, Process, Sweep, Entries, EndSeq;
    if more == [] {
      assert events + more == events;
    } else {
      assert (events + more)[..|events + more| - 1] == events + more[..|more| - 1];
      DurableGrows(start, events, more[..|more| - 1]);
    }
  }

  lemma {:induction false} BetweenHas(rows: seq<Final>, lo: nat, hi: nat, f: Final)
    requires f in rows && lo < f.seqno <= hi
    ensures f in Between(rows, lo, hi)
  {
    var n := |rows| - 1;
    if f in rows[..n] {
      BetweenHas(rows[..n], lo, hi, f);
    } else {
      assert f == rows[n];
    }
  }

  /**
   * Once an operation is acknowledged, then however the run goes on it stays durable and applied, numbered within the
   * mark, and in every catch-up that starts below it.
   */
  lemma AcknowledgedStays(engine: State, base: nat, events: seq<Event>, more: seq<Event>, f: Final, fromSeq: nat)
    requires Quiet(engine) && engine.pending == [] && DeskRun(Opened(engine, base), events + more).Some?
    requires DeskRun(Opened(engine, base), events).Some? && f in DeskRun(Opened(engine, base), events).value.acked
    ensures
      var e := DeskRun(Opened(engine, base), events + more).value;
      && f in e.durable && f in e.server.finalized && f.sent.op.id in e.server.engine.applied
      && f.seqno <= e.lastCommitted <= e.server.currentSeq
      && (fromSeq < f.seqno ==> f in CatchUp(e, fromSeq))
  {
    hide DeskRun, Quiet, Conserved, SeqsOk, Succeeded, Watermark, Between;
    RunOrderly(engine, base, events);
    RunOrderly(engine, base, events + more);
    DurableGrows(Opened(engine, base), events, more);
    DurableWithin(engine, base, events + more);
    var e := DeskRun(Opened(engine, base), events + more).value;
    if fromSeq < f.seqno { BetweenHas(e.durable, fromSeq, e.lastCommitted, f); }
  }
}
