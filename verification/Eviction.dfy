/** Bounding the buffer: operations that waited too long, or that are too many, are given up. */
module Eviction {
  import opened Identifiers
  import opened Operations
  import opened FugueTrees
  import opened EngineState
  import opened Replica
  import opened Intake
  import opened Coordination

  // ------------------------------------------------------------------ one operation

  /** The buffer without the first operation with this identifier. */
  function Rejected(q: seq<Op>, id: Id): seq<Op> {
    if q == [] then [] else if q[0].id == id then q[1..] else [q[0]] + Rejected(q[1..], id)
  }

  function EvictOne(sv: Server, op: Op): Server {
    sv.(engine := sv.engine.(pending := Rejected(sv.engine.pending, op.id)),
        firstSeen := sv.firstSeen - {op.id},
        origins := sv.origins - {op.id},
        evicted := sv.evicted + WithOrigins([op], sv.origins))
  }

  lemma {:induction false} RejectedAt(q: seq<Op>, i: nat)
    requires i < |q| && forall j :: 0 <= j < i ==> q[j].id != q[i].id
    ensures Rejected(q, q[i].id) == SeqRemove(q, i)
  {
    if i == 0 {
      assert SeqRemove(q, 0) == q[1..];
    } else {
      assert q[1..][i - 1] == q[i];
      RejectedAt(q[1..], i - 1);
      assert SeqRemove(q, i) == [q[0]] + SeqRemove(q[1..], i - 1);
    }
  }

  lemma {:induction false} RejectedAbsent(q: seq<Op>, id: Id)
    requires !HasId(q, id)
    ensures Rejected(q, id) == q
  {
    if q != [] {
      assert q[0] in q && forall o :: o in q[1..] ==> o in q;
      RejectedAbsent(q[1..], id);
    }
  }

  /** Without repetitions, this drops exactly the operation named. */
  lemma RejectedIs(q: seq<Op>, op: Op)
    requires DistinctIds(q) && op in q
    ensures Rejected(q, op.id) == Waiting(q, {op.id}) && |Rejected(q, op.id)| == |q| - 1
    ensures Resolved(q, {op.id}) == [op]
  {
    var i :| 0 <= i < |q| && q[i] == op;
    RejectedAt(q, i);
    RemoveOne(q, i, {});
    assert {} + {op.id} == {op.id};
    ResolvedOne(q, i);
  }

  lemma {:induction false} ResolvedOne(q: seq<Op>, i: nat)
    requires DistinctIds(q) && i < |q|
    ensures Resolved(q, {q[i].id}) == [q[i]]
  {
    if i == 0 {
      ResolvedNone(q[1..], q[0].id);
    } else {
      assert q[1..][i - 1] == q[i] && q[0].id != q[i].id;
      ResolvedOne(q[1..], i - 1);
    }
  }

  lemma {:induction false} ResolvedNone(q: seq<Op>, id: Id)
    requires forall j :: 0 <= j < |q| ==> q[j].id != id
    ensures Resolved(q, {id}) == []
  {
    if q != [] { ResolvedNone(q[1..], id); }
  }

  lemma EvictQuiet(s: State, op: Op)
    requires Quiet(s) && op in s.pending
    ensures Quiet(s.(pending := Rejected(s.pending, op.id)))
  {
    RejectedIs(s.pending, op);
    WaitingDistinct(s.pending, {op.id});
    WaitingMembers(s.pending, {op.id});
  }

  lemma EvictConserved(sv: Server, op: Op)
    requires Conserved(sv) && DistinctIds(sv.engine.pending) && op in sv.engine.pending && op.id in sv.origins
    ensures Conserved(EvictOne(sv, op))
  {
    hide SentOf;
    var q := sv.engine.pending;
    RejectedIs(q, op);
    WithOriginsSplit(q, {op.id}, sv.origins);
    WaitingMembers(q, {op.id});
    WithOriginsRest(Waiting(q, {op.id}), sv.origins, op.id);
  }

  lemma {:induction false} WithOriginsRest(q: seq<Op>, origins: map<Id, Origin>, id: Id)
    requires forall o :: o in q ==> o.id != id
    ensures WithOrigins(q, origins - {id}) == WithOrigins(q, origins)
  {
    if q != [] {
      assert q[0] in q && forall o :: o in q[1..] ==> o in q;
      WithOriginsRest(q[1..], origins, id);
    }
  }

  lemma EvictOrigins(q: seq<Op>, op: Op, origins: map<Id, Origin>)
    requires DistinctIds(q) && op in q && origins.Keys == IdsOf(q)
    ensures (origins - {op.id}).Keys == IdsOf(Rejected(q, op.id))
  {
    RejectedIs(q, op);
    WaitingMembers(q, {op.id});
    forall id ensures id in (origins - {op.id}).Keys <==> id in IdsOf(Rejected(q, op.id)) {
      if id in IdsOf(q) && id != op.id {
        var o :| o in q && o.id == id;
        assert o in Rejected(q, op.id);
      }
    }
  }

  /** Giving up a waiting operation keeps everything accounted for. */
  lemma EvictSound(sv: Server, op: Op, base: nat)
    requires Sound(sv, base) && op in sv.engine.pending
    ensures Sound(EvictOne(sv, op), base)
    ensures EvictOne(sv, op).engine.pending == Waiting(sv.engine.pending, {op.id})
    ensures |EvictOne(sv, op).engine.pending| == |sv.engine.pending| - 1
  {
    hide Conserved, Drained, AllEntries, WF;
    assert op.id in IdsOf(sv.engine.pending);
    RejectedIs(sv.engine.pending, op);
    EvictQuiet(sv.engine, op);
    EvictConserved(sv, op);
    EvictOrigins(sv.engine.pending, op, sv.origins);
  }

  // ------------------------------------------------------------------ by age

  predicate Expired(firstSeen: map<Id, int>, id: Id, nowMs: int, timeoutMs: int) {
    id in firstSeen && nowMs - firstSeen[id] >= timeoutMs
  }

  /** One operation of the buffer's snapshot: first noticed, still in its grace period, or given up. */
  function AgeStep(sv: Server, op: Op, nowMs: int, timeoutMs: int): Server {
    if op.id !in sv.firstSeen then sv.(firstSeen := sv.firstSeen[op.id := nowMs])
    else if nowMs - sv.firstSeen[op.id] < timeoutMs then sv
    else EvictOne(sv, op)
  }

  function AgePass(sv: Server, q: seq<Op>, nowMs: int, timeoutMs: int): Server {
    if q == [] then sv else AgeStep(AgePass(sv, q[..|q| - 1], nowMs, timeoutMs), q[|q| - 1], nowMs, timeoutMs)
  }

  /** What the pass over `q` has done to an operation of the buffer. */
  ghost predicate Aged(sv: Server, q: seq<Op>, t: Server, nowMs: int, timeoutMs: int) {
    && (forall o :: o in t.engine.pending ==> o in sv.engine.pending)
    && (forall o :: o in sv.engine.pending ==>
          (o in t.engine.pending <==> !(HasId(q, o.id) && Expired(sv.firstSeen, o.id, nowMs, timeoutMs))))
    && (forall o :: o in t.engine.pending ==>
          if o.id in sv.firstSeen then o.id in t.firstSeen && t.firstSeen[o.id] == sv.firstSeen[o.id]
          else if HasId(q, o.id) then o.id in t.firstSeen && t.firstSeen[o.id] == nowMs
          else o.id !in t.firstSeen)
  }

  lemma SoundClean(sv: Server, base: nat)
    requires Sound(sv, base)
    ensures DistinctIds(sv.engine.pending) && sv.origins.Keys == IdsOf(sv.engine.pending)
  {
  }

  lemma SameIdSameOp(q: seq<Op>, a: Op, b: Op)
    requires DistinctIds(q) && a in q && b in q && a.id == b.id
    ensures a == b
  {
    var i :| 0 <= i < |q| && q[i] == a;
    var j :| 0 <= j < |q| && q[j] == b;
    assert i == j;
  }

  lemma HasIdMore(init: seq<Op>, op: Op)
    ensures forall id :: HasId(init + [op], id) <==> HasId(init, id) || id == op.id
  {
    assert op in init + [op] && forall o :: o in init ==> o in init + [op];
    forall id | HasId(init + [op], id) ensures HasId(init, id) || id == op.id {
      var o :| o in init + [op] && o.id == id;
      assert o in init || o == op;
    }
  }

  lemma AgedEvicted(sv: Server, init: seq<Op>, t: Server, op: Op, nowMs: int, timeoutMs: int)
    requires Aged(sv, init, t, nowMs, timeoutMs) && DistinctIds(sv.engine.pending) && op in sv.engine.pending
    requires op in t.engine.pending && !HasId(init, op.id) && Expired(t.firstSeen, op.id, nowMs, timeoutMs)
    requires EvictOne(t, op).engine.pending == Waiting(t.engine.pending, {op.id})
    ensures Aged(sv, init + [op], EvictOne(t, op), nowMs, timeoutMs)
  {
    HasIdMore(init, op);
    WaitingMembers(t.engine.pending, {op.id});
    forall o | o in sv.engine.pending && o.id == op.id ensures o == op { SameIdSameOp(sv.engine.pending, o, op); }
  }

  lemma AgedNoted(sv: Server, init: seq<Op>, t: Server, op: Op, nowMs: int, timeoutMs: int)
    requires Aged(sv, init, t, nowMs, timeoutMs) && DistinctIds(sv.engine.pending) && op in sv.engine.pending
    requires op in t.engine.pending && !HasId(init, op.id) && !Expired(t.firstSeen, op.id, nowMs, timeoutMs)
    ensures Aged(sv, init + [op], AgeStep(t, op, nowMs, timeoutMs), nowMs, timeoutMs)
  {
    HasIdMore(init, op);
    forall o | o in sv.engine.pending && o.id == op.id ensures o == op { SameIdSameOp(sv.engine.pending, o, op); }
  }

  lemma AgedMore(sv: Server, init: seq<Op>, t: Server, op: Op, nowMs: int, timeoutMs: int, base: nat)
    requires Aged(sv, init, t, nowMs, timeoutMs) && Sound(t, base) && DistinctIds(sv.engine.pending)
    requires op in t.engine.pending && op in sv.engine.pending && !HasId(init, op.id)
    ensures Aged(sv, init + [op], AgeStep(t, op, nowMs, timeoutMs), nowMs, timeoutMs)
    ensures Sound(AgeStep(t, op, nowMs, timeoutMs), base)
  {
    hide Sound, Aged, EvictOne;
    if Expired(t.firstSeen, op.id, nowMs, timeoutMs) {
      EvictSound(t, op, base);
      AgedEvicted(sv, init, t, op, nowMs, timeoutMs);
    } else {
      SoundFirstSeen(t, t.firstSeen[op.id := nowMs], base);
      AgedNoted(sv, init, t, op, nowMs, timeoutMs);
    }
  }

  lemma SoundFirstSeen(sv: Server, firstSeen: map<Id, int>, base: nat)
    requires Sound(sv, base)
    ensures Sound(sv.(firstSeen := firstSeen), base)
  {
    hide Quiet;
  }

  lemma AgedNone(sv: Server, nowMs: int, timeoutMs: int)
    ensures Aged(sv, [], sv, nowMs, timeoutMs)
  {
  }

  /** The pass gives up exactly what was noticed long enough ago, and notes the rest. */
  lemma {:induction false} AgePassExact(sv: Server, q: seq<Op>, nowMs: int, timeoutMs: int, base: nat)
    requires Sound(sv, base) && DistinctIds(q) && forall o :: o in q ==> o in sv.engine.pending
    ensures Sound(AgePass(sv, q, nowMs, timeoutMs), base)
    ensures Aged(sv, q, AgePass(sv, q, nowMs, timeoutMs), nowMs, timeoutMs)
  {
    hide Sound, Aged, AgeStep;
    if q == [] {
      AgedNone(sv, nowMs, timeoutMs);
    } else {
      var init, op := q[..|q| - 1], q[|q| - 1];
      assert q == init + [op] && forall o :: o in init ==> o in q;
      AgePassExact(sv, init, nowMs, timeoutMs, base);
      NotAmong(init, op);
      SoundClean(sv, base);
      StillThere(sv, init, AgePass(sv, init, nowMs, timeoutMs), op, nowMs, timeoutMs);
      AgedMore(sv, init, AgePass(sv, init, nowMs, timeoutMs), op, nowMs, timeoutMs, base);
    }
  }

  lemma NotAmong(init: seq<Op>, op: Op)
    requires DistinctIds(init + [op])
    ensures !HasId(init, op.id)
  {
    assert (init + [op])[|init|] == op;
    forall o | o in init ensures o.id != op.id {
      var i :| 0 <= i < |init| && init[i] == o;
      assert (init + [op])[i] == o;
    }
  }

  lemma StillThere(sv: Server, init: seq<Op>, t: Server, op: Op, nowMs: int, timeoutMs: int)
    requires Aged(sv, init, t, nowMs, timeoutMs) && op in sv.engine.pending && !HasId(init, op.id)
    ensures op in t.engine.pending
  {
  }

  // ------------------------------------------------------------------ pruning

  /** Forgets what is not in the buffer any more. */
  function Prune(sv: Server, ids: set<Id>): Server {
    sv.(firstSeen := map k | k in sv.firstSeen && k in ids :: sv.firstSeen[k],
        origins := map k | k in sv.origins && k in ids :: sv.origins[k])
  }

  /** Origins are never pruned: they are kept for waiting operations only. */
  lemma PruneKeepsOrigins(sv: Server, ids: set<Id>, base: nat)
    requires Sound(sv, base) && IdsOf(sv.engine.pending) <= ids
    ensures Prune(sv, ids).origins == sv.origins && Sound(Prune(sv, ids), base)
  {
    assert Prune(sv, ids).origins == sv.origins;
    SoundFirstSeen(sv, Prune(sv, ids).firstSeen, base);
  }

  // ------------------------------------------------------------------ by size

  function SeenAt(firstSeen: map<Id, int>, op: Op, nowMs: int): int {
    if op.id in firstSeen then firstSeen[op.id] else nowMs
  }

  /** Stable insertion: after every operation seen no later. */
  function InsertByAge(sorted: seq<Op>, op: Op, firstSeen: map<Id, int>, nowMs: int): seq<Op> {
    if sorted == [] then [op]
    else if SeenAt(firstSeen, sorted[0], nowMs) > SeenAt(firstSeen, op, nowMs) then [op] + sorted
    else [sorted[0]] + InsertByAge(sorted[1..], op, firstSeen, nowMs)
  }

  function OldestFirst(q: seq<Op>, firstSeen: map<Id, int>, nowMs: int): seq<Op> {
    if q == [] then [] else InsertByAge(OldestFirst(q[..|q| - 1], firstSeen, nowMs), q[|q| - 1], firstSeen, nowMs)
  }

  ghost predicate AgeSorted(q: seq<Op>, firstSeen: map<Id, int>, nowMs: int) {
    forall i, j :: 0 <= i < j < |q| ==> SeenAt(firstSeen, q[i], nowMs) <= SeenAt(firstSeen, q[j], nowMs)
  }

  lemma {:induction false} InsertByAgeMembers(q: seq<Op>, op: Op, firstSeen: map<Id, int>, nowMs: int)
    ensures multiset(InsertByAge(q, op, firstSeen, nowMs)) == multiset(q) + multiset{op}
    ensures forall o :: o in InsertByAge(q, op, firstSeen, nowMs) ==> o in q || o == op
  {
    hide SeenAt;
    if q != [] {
      assert q == [q[0]] + q[1..];
      InsertByAgeMembers(q[1..], op, firstSeen, nowMs);
    }
  }

  lemma AgeSortedCons(x: Op, q: seq<Op>, firstSeen: map<Id, int>, nowMs: int)
    requires AgeSorted(q, firstSeen, nowMs)
    requires forall o :: o in q ==> SeenAt(firstSeen, x, nowMs) <= SeenAt(firstSeen, o, nowMs)
    ensures AgeSorted([x] + q, firstSeen, nowMs)
  {
    hide SeenAt;
    var r := [x] + q;
    forall i, j | 0 <= i < j < |r| ensures SeenAt(firstSeen, r[i], nowMs) <= SeenAt(firstSeen, r[j], nowMs) {
      assert r[j] == q[j - 1] && q[j - 1] in q;
    }
  }

  lemma AgeSortedTail(q: seq<Op>, firstSeen: map<Id, int>, nowMs: int)
    requires AgeSorted(q, firstSeen, nowMs) && q != []
    ensures AgeSorted(q[1..], firstSeen, nowMs)
    ensures forall o :: o in q ==> SeenAt(firstSeen, q[0], nowMs) <= SeenAt(firstSeen, o, nowMs)
  {
    hide SeenAt;
  }

  lemma {:induction false} InsertByAgeSorted(q: seq<Op>, op: Op, firstSeen: map<Id, int>, nowMs: int)
    requires AgeSorted(q, firstSeen, nowMs)
    ensures AgeSorted(InsertByAge(q, op, firstSeen, nowMs), firstSeen, nowMs)
    ensures multiset(InsertByAge(q, op, firstSeen, nowMs)) == multiset(q) + multiset{op}
  {
    hide SeenAt, AgeSorted;
    InsertByAgeMembers(q, op, firstSeen, nowMs);
    if q == [] {
      AgeSortedOne(op, firstSeen, nowMs);
    } else {
      AgeSortedTail(q, firstSeen, nowMs);
      if SeenAt(firstSeen, q[0], nowMs) > SeenAt(firstSeen, op, nowMs) {
        AgeSortedCons(op, q, firstSeen, nowMs);
      } else {
        var rest := InsertByAge(q[1..], op, firstSeen, nowMs);
        InsertByAgeSorted(q[1..], op, firstSeen, nowMs);
        InsertByAgeMembers(q[1..], op, firstSeen, nowMs);
        AgeSortedCons(q[0], rest, firstSeen, nowMs);
      }
    }
  }

  lemma AgeSortedOne(op: Op, firstSeen: map<Id, int>, nowMs: int)
    ensures AgeSorted([op], firstSeen, nowMs)
  {
  }

  lemma {:induction false} OldestFirstSorted(q: seq<Op>, firstSeen: map<Id, int>, nowMs: int)
    ensures AgeSorted(OldestFirst(q, firstSeen, nowMs), firstSeen, nowMs)
    ensures multiset(OldestFirst(q, firstSeen, nowMs)) == multiset(q)
  {
    if q != [] {
      OldestFirstSorted(q[..|q| - 1], firstSeen, nowMs);
      InsertByAgeSorted(OldestFirst(q[..|q| - 1], firstSeen, nowMs), q[|q| - 1], firstSeen, nowMs);
      assert q == q[..|q| - 1] + [q[|q| - 1]];
    }
  }

  function EvictAll(sv: Server, victims: seq<Op>): Server {
    if victims == [] then sv else EvictOne(EvictAll(sv, victims[..|victims| - 1]), victims[|victims| - 1])
  }

  function Overflow(q: seq<Op>, maxPending: nat): nat {
    if |q| <= maxPending then 0 else |q| - maxPending
  }

  function SizePass(sv: Server, nowMs: int, maxPending: nat): Server {
    var q := sv.engine.pending;
    var order := OldestFirst(q, sv.firstSeen, nowMs);
    EvictAll(sv, order[..if Overflow(q, maxPending) <= |order| then Overflow(q, maxPending) else |order|])
  }

  function Sweep(sv: Server, nowMs: int, timeoutMs: int, maxPending: nat): Server {
    var q := sv.engine.pending;
    SizePass(Prune(AgePass(sv, q, nowMs, timeoutMs), IdsOf(q)), nowMs, maxPending)
  }

  lemma {:induction false} EvictAllSound(sv: Server, victims: seq<Op>, base: nat)
    requires Sound(sv, base) && DistinctIds(victims) && forall o :: o in victims ==> o in sv.engine.pending
    ensures
      var t := EvictAll(sv, victims);
      && Sound(t, base) && |t.engine.pending| == |sv.engine.pending| - |victims|
      && (forall o :: o in t.engine.pending <==> o in sv.engine.pending && !HasId(victims, o.id))
  {
    hide Sound, EvictOne, Waiting;
    if victims != [] {
      var init, op := victims[..|victims| - 1], victims[|victims| - 1];
      assert victims == init + [op] && forall o :: o in init ==> o in victims;
      EvictAllSound(sv, init, base);
      NotAmong(init, op);
      HasIdMore(init, op);
      var t := EvictAll(sv, init);
      assert op in victims && op in t.engine.pending;
      EvictSound(t, op, base);
      WaitingMembers(t.engine.pending, {op.id});
    }
  }

  lemma {:induction false} SameElementsDistinct(a: seq<Op>, b: seq<Op>)
    requires multiset(a) == multiset(b) && DistinctIds(a)
    ensures DistinctIds(b) && |a| == |b|
    ensures forall o :: o in a <==> o in b
  {
    assert forall o :: o in a <==> o in multiset(a);
    assert forall o :: o in b <==> o in multiset(b);
    assert |multiset(a)| == |a| && |multiset(b)| == |b|;
    forall i, j | 0 <= i < j < |b| ensures b[i].id != b[j].id {
      assert b[i] in a && b[j] in a;
      if b[i].id == b[j].id {
        SameIdSameOp(a, b[i], b[j]);
        TwiceIn(b, i, j);
        OnceIn(a, b[i]);
      }
    }
  }

  lemma TwiceIn<T>(q: seq<T>, i: nat, j: nat)
    requires i < j < |q| && q[i] == q[j]
    ensures multiset(q)[q[i]] >= 2
  {
    assert q == q[..i] + [q[i]] + q[i + 1..j] + [q[j]] + q[j + 1..];
  }

  lemma OnceIn(q: seq<Op>, o: Op)
    requires DistinctIds(q) && o in q
    ensures multiset(q)[o] == 1
  {
    var i :| 0 <= i < |q| && q[i] == o;
    assert q == q[..i] + [o] + q[i + 1..];
    assert o !in q[..i] && o !in q[i + 1..];
  }

  /** The size pass leaves at most the cap, and gives up nothing seen later than something it keeps. */
  lemma SizePassExact(sv: Server, nowMs: int, maxPending: nat, base: nat)
    requires Sound(sv, base)
    ensures
      var t := SizePass(sv, nowMs, maxPending);
      && Sound(t, base) && |t.engine.pending| == |sv.engine.pending| - Overflow(sv.engine.pending, maxPending)
      && (forall o :: o in t.engine.pending ==> o in sv.engine.pending)
      && (forall gone, kept :: gone in sv.engine.pending && gone !in t.engine.pending && kept in t.engine.pending ==>
            SeenAt(sv.firstSeen, gone, nowMs) <= SeenAt(sv.firstSeen, kept, nowMs))
  {
    hide Quiet, Conserved, SeqsOk, EvictAll, OldestFirst;
    var q, n := sv.engine.pending, Overflow(sv.engine.pending, maxPending);
    var order := OldestFirst(q, sv.firstSeen, nowMs);
    OldestFirstSorted(q, sv.firstSeen, nowMs);
    SoundClean(sv, base);
    SameElementsDistinct(q, order);
    var victims := order[..n];
    assert forall o :: o in victims ==> o in order;
    EvictAllSound(sv, victims, base);
    var t := EvictAll(sv, victims);
    forall gone, kept | gone in q && gone !in t.engine.pending && kept in t.engine.pending
      ensures SeenAt(sv.firstSeen, gone, nowMs) <= SeenAt(sv.firstSeen, kept, nowMs)
    {
      OlderFirst(order, n, gone, kept, sv.firstSeen, nowMs);
    }
  }

  lemma AmongFirst(order: seq<Op>, n: nat, j: nat)
    requires n <= |order| && j < |order|
    ensures j < n ==> HasId(order[..n], order[j].id)
  {
    if j < n {
      assert order[..n][j] == order[j];
    }
  }

  lemma OlderFirst(order: seq<Op>, n: nat, gone: Op, kept: Op, firstSeen: map<Id, int>, nowMs: int)
    requires AgeSorted(order, firstSeen, nowMs) && DistinctIds(order) && n <= |order| && gone in order && kept in order
    requires HasId(order[..n], gone.id) && !HasId(order[..n], kept.id)
    ensures SeenAt(firstSeen, gone, nowMs) <= SeenAt(firstSeen, kept, nowMs)
  {
    var g :| g in order[..n] && g.id == gone.id;
    assert g in order;
    SameIdSameOp(order, g, gone);
    var i :| 0 <= i < n && order[i] == gone;
    var j :| 0 <= j < |order| && order[j] == kept;
    AmongFirst(order, n, j);
  }

  // ------------------------------------------------------------------ the sweep

  /**
   * A sweep keeps everything accounted for and bounds the buffer in age and size: nothing noticed
   * long enough ago is left, at most the cap is left, and nothing new is given up for its age.
   */
  lemma SweepExact(sv: Server, nowMs: int, timeoutMs: int, maxPending: nat, base: nat)
    requires Sound(sv, base)
    ensures
      var t := Sweep(sv, nowMs, timeoutMs, maxPending);
      && Sound(t, base) && |t.engine.pending| <= maxPending
      && (forall o :: o in t.engine.pending ==>
            o in sv.engine.pending && !Expired(sv.firstSeen, o.id, nowMs, timeoutMs))
      && (|sv.engine.pending| <= maxPending ==>
            forall o :: o in sv.engine.pending && !Expired(sv.firstSeen, o.id, nowMs, timeoutMs)
              ==> o in t.engine.pending)
  {
    hide Quiet, Conserved, SeqsOk, AgePass, SizePass;
    var q := sv.engine.pending;
    SoundClean(sv, base);
    AgePassExact(sv, q, nowMs, timeoutMs, base);
    var a := AgePass(sv, q, nowMs, timeoutMs);
    forall o | o in a.engine.pending ensures o.id in IdsOf(q) { assert o in q; }
    PruneKeepsOrigins(a, IdsOf(q), base);
    var p := Prune(a, IdsOf(q));
    SizePassExact(p, nowMs, maxPending, base);
    forall o | o in q ensures HasId(q, o.id) { }
    if |q| <= maxPending {
      SoundClean(a, base);
      FewerLeft(q, a.engine.pending);
      AllKept(p, SizePass(p, nowMs, maxPending), base);
    }
  }

  lemma {:induction false} FewerLeft(q: seq<Op>, r: seq<Op>)
    requires DistinctIds(q) && DistinctIds(r) && forall o :: o in r ==> o in q
    ensures |r| <= |q|
  {
    IdsCount(q);
    IdsCount(r);
    SubsetCount(IdsOf(r), IdsOf(q));
  }

  lemma SubsetCount<T>(a: set<T>, b: set<T>)
    requires a <= b
    ensures |a| <= |b|
  {
    assert b == a + (b - a);
  }

  lemma IdsMore(init: seq<Op>, op: Op)
    requires !HasId(init, op.id)
    ensures IdsOf(init + [op]) == IdsOf(init) + {op.id} && op.id !in IdsOf(init)
  {
    forall id ensures id in IdsOf(init + [op]) <==> id in IdsOf(init) + {op.id} {
      HasIdMore(init, op);
      assert id in IdsOf(init + [op]) <==> HasId(init + [op], id);
      assert id in IdsOf(init) <==> HasId(init, id);
    }
  }

  lemma {:induction false} IdsCount(q: seq<Op>)
    requires DistinctIds(q)
    ensures |IdsOf(q)| == |q|
  {
    if q != [] {
      var init, op := q[..|q| - 1], q[|q| - 1];
      assert q == init + [op];
      IdsCount(init);
      NotAmong(init, op);
      IdsMore(init, op);
    }
  }

  /** Nothing over the cap: nothing given up. */
  lemma AllKept(p: Server, t: Server, base: nat)
    requires Sound(p, base) && Sound(t, base) && |t.engine.pending| == |p.engine.pending|
    requires forall o :: o in t.engine.pending ==> o in p.engine.pending
    ensures forall o :: o in p.engine.pending ==> o in t.engine.pending
  {
    hide Quiet, Conserved, SeqsOk;
    SoundClean(p, base);
    SoundClean(t, base);
    IdsCount(p.engine.pending);
    IdsCount(t.engine.pending);
    SameCount(IdsOf(t.engine.pending), IdsOf(p.engine.pending));
    forall o | o in p.engine.pending ensures o in t.engine.pending {
      assert o.id in IdsOf(t.engine.pending);
      var w :| w in t.engine.pending && w.id == o.id;
      SameIdSameOp(p.engine.pending, w, o);
    }
  }

  lemma SameCount<T>(a: set<T>, b: set<T>)
    requires a <= b && |a| == |b|
    ensures a == b
  {
    assert b == a + (b - a);
  }
}
