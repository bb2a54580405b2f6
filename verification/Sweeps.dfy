/** What one sweep of the offline window gives up, in figures. */
module Sweeps {
  import opened Identifiers
  import opened Operations
  import opened Intake
  import opened Coordination
  import opened Eviction

  /** Noticed at least `timeoutMs` ago. */
  predicate Overdue(firstSeen: map<Id, int>, id: Id, nowMs: int, timeoutMs: int) {
    id in firstSeen && nowMs - firstSeen[id] >= timeoutMs
  }

  /** What is not overdue, in the order of the buffer. */
  function Young(q: seq<Op>, firstSeen: map<Id, int>, nowMs: int, timeoutMs: int): seq<Op> {
    if q == [] then []
    else
      var rest := Young(q[1..], firstSeen, nowMs, timeoutMs);
      if Overdue(firstSeen, q[0].id, nowMs, timeoutMs) then rest else [q[0]] + rest
  }

  /** When it was noticed: in this sweep, if not before. */
  function Noticed(firstSeen: map<Id, int>, id: Id, nowMs: int): int {
    if id in firstSeen then firstSeen[id] else nowMs
  }

  // ------------------------------------------------------------------ by age

  ghost function DueIds(q: seq<Op>, firstSeen: map<Id, int>, nowMs: int, timeoutMs: int): set<Id> {
    set o | o in q && Overdue(firstSeen, o.id, nowMs, timeoutMs) :: o.id
  }

  /** The notes after a pass over `q`. */
  ghost predicate SeenAfter(was: map<Id, int>, q: seq<Op>, now: map<Id, int>, nowMs: int, timeoutMs: int) {
    forall id ::
      && (id in now <==> if id in was then !(HasId(q, id) && Overdue(was, id, nowMs, timeoutMs)) else HasId(q, id))
      && (id in now ==> now[id] == Noticed(was, id, nowMs))
  }

  lemma SeenMore(was: map<Id, int>, init: seq<Op>, now: map<Id, int>, op: Op, next: map<Id, int>, nowMs: int,
    timeoutMs: int)
    requires SeenAfter(was, init, now, nowMs, timeoutMs) && !HasId(init, op.id)
    requires
      next == if op.id !in now then now[op.id := nowMs]
              else if nowMs - now[op.id] < timeoutMs then now
              else now - {op.id}
    ensures SeenAfter(was, init + [op], next, nowMs, timeoutMs)
  {
    HasIdMore(init, op);
    hide HasId;
    assert op.id in now <==> op.id in was;
  }

  lemma {:induction false} PassSeen(sv: Server, q: seq<Op>, nowMs: int, timeoutMs: int)
    requires DistinctIds(q)
    ensures SeenAfter(sv.firstSeen, q, AgePass(sv, q, nowMs, timeoutMs).firstSeen, nowMs, timeoutMs)
  {
    hide SeenAfter;
    if q == [] {
      SeenNone(sv.firstSeen, nowMs, timeoutMs);
    } else {
      var init, op := q[..|q| - 1], q[|q| - 1];
      assert q == init + [op];
      PassSeen(sv, init, nowMs, timeoutMs);
      NotAmong(init, op);
      var t := AgePass(sv, init, nowMs, timeoutMs);
      SeenMore(sv.firstSeen, init, t.firstSeen, op, AgeStep(t, op, nowMs, timeoutMs).firstSeen, nowMs, timeoutMs);
    }
  }

  lemma SeenNone(was: map<Id, int>, nowMs: int, timeoutMs: int)
    ensures SeenAfter(was, [], was, nowMs, timeoutMs)
  {
  }

  lemma {:induction false} WaitingBoth(q: seq<Op>, a: set<Id>, b: set<Id>)
    ensures Waiting(Waiting(q, a), b) == Waiting(q, a + b)
  {
    if q != [] {
      var w := Waiting(q[1..], a);
      WaitingBoth(q[1..], a, b);
      if q[0].id !in a { assert ([q[0]] + w)[1..] == w; } else { assert [] + w == w; }
    }
  }

  lemma DueMore(init: seq<Op>, op: Op, firstSeen: map<Id, int>, nowMs: int, timeoutMs: int)
    ensures DueIds(init + [op], firstSeen, nowMs, timeoutMs)
         == DueIds(init, firstSeen, nowMs, timeoutMs)
            + if Overdue(firstSeen, op.id, nowMs, timeoutMs) then {op.id} else {}
  {
    assert forall o :: o in init + [op] <==> o in init || o == op;
  }

  lemma StepLeaves(t: Server, op: Op, nowMs: int, timeoutMs: int, base: nat)
    requires Sound(t, base) && op in t.engine.pending
    ensures AgeStep(t, op, nowMs, timeoutMs).engine.pending
         == if Overdue(t.firstSeen, op.id, nowMs, timeoutMs) then Waiting(t.engine.pending, {op.id})
            else t.engine.pending
  {
    hide Sound, EvictOne;
    EvictSound(t, op, base);
  }

  lemma {:induction false} PassLeaves(sv: Server, q: seq<Op>, nowMs: int, timeoutMs: int, base: nat)
    requires Sound(sv, base) && DistinctIds(q) && forall o :: o in q ==> o in sv.engine.pending
    ensures AgePass(sv, q, nowMs, timeoutMs).engine.pending
         == Waiting(sv.engine.pending, DueIds(q, sv.firstSeen, nowMs, timeoutMs))
  {
    hide Sound, AgeStep, Aged, Waiting, DueIds;
    if q == [] {
      WaitingAll(sv.engine.pending, {});
      NoneDue(sv.firstSeen, nowMs, timeoutMs);
    } else {
      var init, op := q[..|q| - 1], q[|q| - 1];
      assert q == init + [op] && forall o :: o in init ==> o in q;
      PassLeaves(sv, init, nowMs, timeoutMs, base);
      AgePassExact(sv, init, nowMs, timeoutMs, base);
      NotAmong(init, op);
      SoundClean(sv, base);
      var t, due := AgePass(sv, init, nowMs, timeoutMs), DueIds(init, sv.firstSeen, nowMs, timeoutMs);
      StillThere(sv, init, t, op, nowMs, timeoutMs);
      PassSeen(sv, init, nowMs, timeoutMs);
      SeenAs(sv.firstSeen, init, t.firstSeen, op.id, nowMs, timeoutMs);
      StepLeaves(t, op, nowMs, timeoutMs, base);
      DueMore(init, op, sv.firstSeen, nowMs, timeoutMs);
      WaitingBoth(sv.engine.pending, due, {op.id});
      assert due + {} == due;
    }
  }

  lemma NoneDue(firstSeen: map<Id, int>, nowMs: int, timeoutMs: int)
    ensures DueIds([], firstSeen, nowMs, timeoutMs) == {}
  {
  }

  /** The pass has not touched the note of an operation it has not come to. */
  lemma SeenAs(was: map<Id, int>, q: seq<Op>, now: map<Id, int>, id: Id, nowMs: int, timeoutMs: int)
    requires SeenAfter(was, q, now, nowMs, timeoutMs) && !HasId(q, id)
    ensures Overdue(now, id, nowMs, timeoutMs) == Overdue(was, id, nowMs, timeoutMs)
  {
  }

  lemma {:induction false} DueLeaves(q: seq<Op>, due: set<Id>, firstSeen: map<Id, int>, nowMs: int, timeoutMs: int)
    requires forall o :: o in q ==> (o.id in due <==> Overdue(firstSeen, o.id, nowMs, timeoutMs))
    ensures Waiting(q, due) == Young(q, firstSeen, nowMs, timeoutMs)
  {
    if q != [] {
      assert q[0] in q && forall o :: o in q[1..] ==> o in q;
      DueLeaves(q[1..], due, firstSeen, nowMs, timeoutMs);
    }
  }

  /** The age pass over the whole buffer. */
  lemma AgePassLeaves(sv: Server, nowMs: int, timeoutMs: int, base: nat)
    requires Sound(sv, base)
    ensures AgePass(sv, sv.engine.pending, nowMs, timeoutMs).engine.pending
         == Young(sv.engine.pending, sv.firstSeen, nowMs, timeoutMs)
  {
    hide Sound;
    var q := sv.engine.pending;
    SoundClean(sv, base);
    PassLeaves(sv, q, nowMs, timeoutMs, base);
    DueLeaves(q, DueIds(q, sv.firstSeen, nowMs, timeoutMs), sv.firstSeen, nowMs, timeoutMs);
  }

  // ------------------------------------------------------------------ by size

  ghost predicate Sooner(q: seq<Op>, a: Op, b: Op) {
    exists i, j :: 0 <= i < j < |q| && q[i] == a && q[j] == b
  }

  /** Noticed earlier, or at the same time and ahead in the buffer. */
  ghost predicate Older(q: seq<Op>, firstSeen: map<Id, int>, nowMs: int, a: Op, b: Op) {
    var m, n := Noticed(firstSeen, a.id, nowMs), Noticed(firstSeen, b.id, nowMs);
    m < n || (m == n && Sooner(q, a, b))
  }

  ghost predicate Ranked(order: seq<Op>, q: seq<Op>, firstSeen: map<Id, int>, nowMs: int) {
    forall i, j :: 0 <= i < j < |order| ==> Older(q, firstSeen, nowMs, order[i], order[j])
  }

  /** Where one operation is inserted, the ones behind it were noticed later. */
  lemma {:induction false} InsertedAt(sorted: seq<Op>, op: Op, firstSeen: map<Id, int>, nowMs: int) returns (k: nat)
    requires AgeSorted(sorted, firstSeen, nowMs)
    ensures k <= |sorted| && InsertByAge(sorted, op, firstSeen, nowMs) == sorted[..k] + [op] + sorted[k..]
    ensures forall i :: 0 <= i < k ==> Noticed(firstSeen, sorted[i].id, nowMs) <= Noticed(firstSeen, op.id, nowMs)
    ensures forall i :: k <= i < |sorted| ==> Noticed(firstSeen, op.id, nowMs) < Noticed(firstSeen, sorted[i].id, nowMs)
  {
    if sorted == [] || Noticed(firstSeen, sorted[0].id, nowMs) > Noticed(firstSeen, op.id, nowMs) {
      k := 0;
      forall i | 0 <= i < |sorted|
        ensures Noticed(firstSeen, op.id, nowMs) < Noticed(firstSeen, sorted[i].id, nowMs)
      {
        assert i > 0 ==> SeenAt(firstSeen, sorted[0], nowMs) <= SeenAt(firstSeen, sorted[i], nowMs);
      }
    } else {
      var rest := sorted[1..];
      k := InsertedAt(rest, op, firstSeen, nowMs);
      assert sorted[..k + 1] == [sorted[0]] + rest[..k] && sorted[k + 1..] == rest[k..];
      k := k + 1;
    }
  }

  lemma SoonerMore(q: seq<Op>, op: Op, a: Op, b: Op)
    ensures Sooner(q, a, b) ==> Sooner(q + [op], a, b)
    ensures a in q ==> Sooner(q + [op], a, op)
  {
    if Sooner(q, a, b) {
      var i, j :| 0 <= i < j < |q| && q[i] == a && q[j] == b;
      assert (q + [op])[i] == a && (q + [op])[j] == b;
    }
    if a in q {
      var i :| 0 <= i < |q| && q[i] == a;
      assert (q + [op])[i] == a && (q + [op])[|q|] == op;
    }
  }

  lemma RankedMore(order: seq<Op>, q: seq<Op>, op: Op, k: nat, firstSeen: map<Id, int>, nowMs: int)
    requires Ranked(order, q, firstSeen, nowMs) && k <= |order| && forall o :: o in order ==> o in q
    requires forall i :: 0 <= i < k ==> Noticed(firstSeen, order[i].id, nowMs) <= Noticed(firstSeen, op.id, nowMs)
    requires forall i :: k <= i < |order| ==> Noticed(firstSeen, op.id, nowMs) < Noticed(firstSeen, order[i].id, nowMs)
    ensures Ranked(order[..k] + [op] + order[k..], q + [op], firstSeen, nowMs)
  {
    hide Sooner, Noticed;
    var r := order[..k] + [op] + order[k..];
    forall i, j | 0 <= i < j < |r| ensures Older(q + [op], firstSeen, nowMs, r[i], r[j]) {
      SoonerMore(q, op, r[i], r[j]);
      var m, n := if i < k then i else i - 1, if j < k then j else j - 1;
      if i == k {
        assert r[j] == order[n];
      } else if j == k {
        assert r[i] == order[m] && order[m] in q;
      } else {
        assert r[i] == order[m] && r[j] == order[n];
        assert Older(q, firstSeen, nowMs, order[m], order[n]);
      }
    }
  }

  lemma {:induction false} OldestFirstRanked(q: seq<Op>, firstSeen: map<Id, int>, nowMs: int)
    ensures Ranked(OldestFirst(q, firstSeen, nowMs), q, firstSeen, nowMs)
    ensures forall o :: o in OldestFirst(q, firstSeen, nowMs) ==> o in q
  {
    hide Ranked, AgeSorted, InsertByAge;
    if q == [] {
      RankedNone(firstSeen, nowMs);
    } else {
      var init, op := q[..|q| - 1], q[|q| - 1];
      assert q == init + [op];
      var order := OldestFirst(init, firstSeen, nowMs);
      OldestFirstRanked(init, firstSeen, nowMs);
      OldestFirstSorted(init, firstSeen, nowMs);
      var k := InsertedAt(order, op, firstSeen, nowMs);
      RankedMore(order, init, op, k, firstSeen, nowMs);
      InsertByAgeMembers(order, op, firstSeen, nowMs);
    }
  }

  lemma RankedNone(firstSeen: map<Id, int>, nowMs: int)
    ensures Ranked([], [], firstSeen, nowMs)
  {
  }

  lemma {:induction false} EvictAllSeen(sv: Server, victims: seq<Op>)
    ensures
      var now := EvictAll(sv, victims).firstSeen;
      forall id :: (id in now <==> id in sv.firstSeen && !HasId(victims, id))
        && (id in now ==> now[id] == sv.firstSeen[id])
  {
    if victims != [] {
      var init, op := victims[..|victims| - 1], victims[|victims| - 1];
      assert victims == init + [op];
      EvictAllSeen(sv, init);
      HasIdMore(init, op);
      hide HasId;
    }
  }

  /** Every operation of the buffer is noted, and nothing else. */
  ghost predicate NotedAll(sv: Server) {
    forall id :: id in sv.firstSeen <==> HasId(sv.engine.pending, id)
  }

  lemma Separated(order: seq<Op>, n: nat, q: seq<Op>, firstSeen: map<Id, int>, nowMs: int, a: Op, b: Op)
    requires Ranked(order, q, firstSeen, nowMs) && DistinctIds(order) && n <= |order| && a in order && b in order
    requires HasId(order[..n], a.id) && !HasId(order[..n], b.id)
    ensures Older(q, firstSeen, nowMs, a, b)
  {
    hide Older;
    var g :| g in order[..n] && g.id == a.id;
    assert g in order;
    SameIdSameOp(order, g, a);
    var i :| 0 <= i < n && order[i] == a;
    var j :| 0 <= j < |order| && order[j] == b;
    AmongFirst(order, n, j);
  }

  lemma SizePassMembers(sv: Server, nowMs: int, maxPending: nat, base: nat)
    requires Sound(sv, base) && |sv.engine.pending| > maxPending
    ensures
      var q := sv.engine.pending;
      var order, n := OldestFirst(q, sv.firstSeen, nowMs), |q| - maxPending;
      && DistinctIds(order) && n <= |order| && (forall o :: o in order <==> o in q)
      && Ranked(order, q, sv.firstSeen, nowMs) && DistinctIds(q)
      && SizePass(sv, nowMs, maxPending) == EvictAll(sv, order[..n])
      && |SizePass(sv, nowMs, maxPending).engine.pending| == maxPending
      && (forall o :: o in SizePass(sv, nowMs, maxPending).engine.pending <==> o in q && !HasId(order[..n], o.id))
  {
    hide Sound, EvictAll, OldestFirst, Ranked, AgeSorted, HasId;
    var q := sv.engine.pending;
    var order, n := OldestFirst(q, sv.firstSeen, nowMs), |q| - maxPending;
    OldestFirstSorted(q, sv.firstSeen, nowMs);
    OldestFirstRanked(q, sv.firstSeen, nowMs);
    SoundClean(sv, base);
    SameElementsDistinct(q, order);
    var victims := order[..n];
    assert forall o :: o in victims ==> o in order;
    EvictAllSound(sv, victims, base);
  }

  lemma KeptIds(q: seq<Op>, victims: seq<Op>, kept: seq<Op>)
    requires forall o :: o in kept <==> o in q && !HasId(victims, o.id)
    ensures forall id :: HasId(kept, id) <==> HasId(q, id) && !HasId(victims, id)
  {
    forall id ensures HasId(kept, id) <==> HasId(q, id) && !HasId(victims, id) {
      if HasId(q, id) && !HasId(victims, id) {
        var o :| o in q && o.id == id;
        assert o in kept;
      }
    }
  }

  lemma SizePassLeaves(sv: Server, nowMs: int, maxPending: nat, base: nat)
    requires Sound(sv, base) && NotedAll(sv)
    ensures
      var q, t := sv.engine.pending, SizePass(sv, nowMs, maxPending);
      && |t.engine.pending| == (if |q| <= maxPending then |q| else maxPending)
      && (forall o :: o in t.engine.pending ==> o in q)
      && (forall a, b :: a in q && a !in t.engine.pending && b in t.engine.pending ==>
            Older(q, sv.firstSeen, nowMs, a, b))
      && NotedAll(t) && (forall id :: id in t.firstSeen ==> t.firstSeen[id] == sv.firstSeen[id])
      && (|q| <= maxPending ==> t == sv)
  {
    hide Sound, EvictAll, OldestFirst, Ranked, DistinctIds, HasId, Older;
    var q, t := sv.engine.pending, SizePass(sv, nowMs, maxPending);
    if |q| <= maxPending {
      NoVictims(sv);
      assert OldestFirst(q, sv.firstSeen, nowMs)[..0] == [];
    } else {
      SizePassMembers(sv, nowMs, maxPending, base);
      var order, n := OldestFirst(q, sv.firstSeen, nowMs), |q| - maxPending;
      forall a, b | a in q && a !in t.engine.pending && b in t.engine.pending
        ensures Older(q, sv.firstSeen, nowMs, a, b)
      {
        Separated(order, n, q, sv.firstSeen, nowMs, a, b);
      }
      EvictAllSeen(sv, order[..n]);
      KeptIds(q, order[..n], t.engine.pending);
    }
  }

  lemma NoVictims(sv: Server)
    ensures EvictAll(sv, []) == sv
  {
  }

  // ------------------------------------------------------------------ the sweep

  lemma AfterAge(sv: Server, nowMs: int, timeoutMs: int, base: nat)
    requires Sound(sv, base)
    ensures
      var q := sv.engine.pending;
      var p, young := Prune(AgePass(sv, q, nowMs, timeoutMs), IdsOf(q)), Young(q, sv.firstSeen, nowMs, timeoutMs);
      && Sound(p, base) && p.engine.pending == young && NotedAll(p)
      && (forall id :: id in p.firstSeen ==> p.firstSeen[id] == Noticed(sv.firstSeen, id, nowMs))
  {
    hide Sound, AgePass, Aged, Young;
    var q := sv.engine.pending;
    var a := AgePass(sv, q, nowMs, timeoutMs);
    SoundClean(sv, base);
    AgePassLeaves(sv, nowMs, timeoutMs, base);
    AgePassExact(sv, q, nowMs, timeoutMs, base);
    PassSeen(sv, q, nowMs, timeoutMs);
    YoungIds(q, sv.firstSeen, nowMs, timeoutMs);
    PruneKeepsOrigins(a, IdsOf(q), base);
  }

  lemma {:induction false} YoungMembers(q: seq<Op>, firstSeen: map<Id, int>, nowMs: int, timeoutMs: int)
    ensures forall o :: o in Young(q, firstSeen, nowMs, timeoutMs)
              <==> o in q && !Overdue(firstSeen, o.id, nowMs, timeoutMs)
  {
    if q != [] {
      YoungMembers(q[1..], firstSeen, nowMs, timeoutMs);
      assert forall o :: o in q <==> o == q[0] || o in q[1..];
    }
  }

  lemma YoungIds(q: seq<Op>, firstSeen: map<Id, int>, nowMs: int, timeoutMs: int)
    ensures IdsOf(Young(q, firstSeen, nowMs, timeoutMs)) <= IdsOf(q)
    ensures forall id :: HasId(Young(q, firstSeen, nowMs, timeoutMs), id)
              <==> HasId(q, id) && !Overdue(firstSeen, id, nowMs, timeoutMs)
  {
    hide Overdue;
    YoungMembers(q, firstSeen, nowMs, timeoutMs);
  }

  /**
   * A sweep gives up what was noticed `timeoutMs` ago or earlier; of the rest, if it is more than `maxPending`, as
   * many as there are too many, the longest waiting first, and of those noticed together the first in the buffer.
   * It notes what it sees for the first time, and forgets what is gone.
   */
  lemma SweepExactly(sv: Server, nowMs: int, timeoutMs: int, maxPending: nat, base: nat)
    requires Sound(sv, base)
    ensures
      var t, young := Sweep(sv, nowMs, timeoutMs, maxPending), Young(sv.engine.pending, sv.firstSeen, nowMs, timeoutMs);
      && |t.engine.pending| == (if |young| <= maxPending then |young| else maxPending)
      && (forall o :: o in t.engine.pending ==> o in young)
      && (|young| <= maxPending ==> t.engine.pending == young)
      && (forall a, b :: a in young && a !in t.engine.pending && b in t.engine.pending ==>
            Older(young, sv.firstSeen, nowMs, a, b))
      && (forall id :: id in t.firstSeen <==> HasId(t.engine.pending, id))
      && (forall id :: id in t.firstSeen ==> t.firstSeen[id] == Noticed(sv.firstSeen, id, nowMs))
  {
    hide Sound, AgePass, SizePass, Young, Older;
    var q := sv.engine.pending;
    var p := Prune(AgePass(sv, q, nowMs, timeoutMs), IdsOf(q));
    var young, t := p.engine.pending, SizePass(p, nowMs, maxPending);
    AfterAge(sv, nowMs, timeoutMs, base);
    SizePassLeaves(p, nowMs, maxPending, base);
    forall a, b | a in young && a !in t.engine.pending && b in t.engine.pending
      ensures Older(young, sv.firstSeen, nowMs, a, b)
    {
      SameAges(young, p.firstSeen, sv.firstSeen, nowMs, a, b);
    }
  }

  lemma SameAges(q: seq<Op>, f: map<Id, int>, g: map<Id, int>, nowMs: int, a: Op, b: Op)
    requires (forall id :: id in f <==> HasId(q, id)) && forall id :: id in f ==> f[id] == Noticed(g, id, nowMs)
    requires a in q && b in q && Older(q, f, nowMs, a, b)
    ensures Older(q, g, nowMs, a, b)
  {
    hide Sooner;
    assert HasId(q, a.id) && HasId(q, b.id);
  }
}
