/** What one message sets free: the least part of the buffer and the message that what is there supports. */
module Release {
  import opened Identifiers
  import opened Operations
  import opened FugueShape
  import opened FugueTrees
  import opened EngineState
  import opened OpSets
  import opened Replica
  import opened Convergence
  import opened Intake

  // ------------------------------------------------------------------ the least closed part

  /** What `op` needs is among the keys or inserted by `x`. */
  ghost predicate Supports(keys: set<Key>, x: set<Op>, op: Op) {
    Needs(op) in keys || (Needs(op).Some? && Inserted(x, Needs(op).value))
  }

  /** `x` holds every operation of the pool that it supports. */
  ghost predicate ClosedOver(keys: set<Key>, pool: set<Op>, x: set<Op>) {
    x <= pool && forall o :: o in pool && Supports(keys, x, o) ==> o in x
  }

  ghost predicate InEveryClosed(keys: set<Key>, pool: set<Op>, op: Op) {
    forall x :: ClosedOver(keys, pool, x) ==> op in x
  }

  /** The least such part: what can be applied, starting from the keys. */
  ghost function Freed(keys: set<Key>, pool: set<Op>): set<Op> {
    set o | o in pool && InEveryClosed(keys, pool, o)
  }

  ghost predicate OneEach(pool: set<Op>) {
    forall a, b :: a in pool && b in pool && a.id == b.id ==> a == b
  }

  /** Along the way from `s`, nothing outside a closed part `x` is applied, and what is applied is in place. */
  ghost predicate Applying(s: State, pool: set<Op>, x: set<Op>, u: State) {
    && WF(u) && Keys(s.tree) <= Keys(u.tree)
    && (forall k :: k in Keys(u.tree) && k !in Keys(s.tree) ==> k.Some? && Inserted(x, k.value))
    && (forall o :: o in pool && o.id in u.applied ==> Done(u, x, o))
    && (forall o :: o in u.pending ==> o in pool)
  }

  ghost predicate Done(u: State, x: set<Op>, o: Op) {
    o in x && Needs(o) in Keys(u.tree) && Needs(o) != Some(o.id) && (o.Insert? ==> Some(o.id) in Keys(u.tree))
  }

  lemma ApplyingOne(s: State, pool: set<Op>, x: set<Op>, u: State, op: Op)
    requires Applying(s, pool, x, u) && ClosedOver(Keys(s.tree), pool, x) && OneEach(pool)
    requires op in pool && op.id !in u.applied && Ready(u.tree, op)
    ensures Applying(s, pool, x, DoApply(u, op))
  {
    hide Effect, IsDoc;
    EffectDoc(u, op);
    assert Supports(Keys(s.tree), x, op);
    var t := DoApply(u, op);
    assert op in x;
    forall k | k in Keys(t.tree) && k !in Keys(s.tree) ensures k.Some? && Inserted(x, k.value) {
      if k !in Keys(u.tree) { assert k == Some(op.id); }
    }
    forall o | o in pool && o.id in t.applied ensures Done(t, x, o) {
      if o.id == op.id { assert o == op; }
    }
  }

  /** The buffer may shrink. */
  lemma ApplyingLess(s: State, pool: set<Op>, x: set<Op>, u: State, q: seq<Op>)
    requires Applying(s, pool, x, u) && forall o :: o in q ==> o in u.pending
    ensures Applying(s, pool, x, u.(pending := q))
  {
    hide IsDoc, StackOk;
  }

  lemma ApplyingStep(s: State, pool: set<Op>, x: set<Op>, u: State, i: nat)
    requires Applying(s, pool, x, u) && ClosedOver(Keys(s.tree), pool, x) && OneEach(pool) && i < |u.pending|
    ensures WF(u) && Applying(s, pool, x, DrainStep(u, i))
  {
    hide Applying, DoApply, ClosedOver;
    ApplyingWF(s, pool, x, u);
    var op := u.pending[i];
    RemoveMembers(u.pending, i);
    assert op in u.pending;
    if op.id in u.applied {
      ApplyingLess(s, pool, x, u, SeqRemove(u.pending, i));
    } else if Ready(u.tree, op) {
      ApplyingOne(s, pool, x, u, op);
      SamePending(u, op);
      ApplyingLess(s, pool, x, DoApply(u, op), SeqRemove(u.pending, i));
    }
  }

  lemma SamePending(u: State, op: Op)
    requires WF(u) && Ready(u.tree, op) && op.id !in u.applied
    ensures DoApply(u, op).pending == u.pending
  {
  }

  lemma {:induction false} ApplyingDownTo(s: State, pool: set<Op>, x: set<Op>, u: State, i: nat)
    requires Applying(s, pool, x, u) && ClosedOver(Keys(s.tree), pool, x) && OneEach(pool) && i <= |u.pending|
    ensures Applying(s, pool, x, DrainDownTo(u, i))
    decreases |u.pending| - i
  {
    hide DrainStep, Applying;
    assert WF(u) by { ApplyingWF(s, pool, x, u); }
    if i < |u.pending| {
      ApplyingDownTo(s, pool, x, u, i + 1);
      ApplyingStep(s, pool, x, DrainDownTo(u, i + 1), i);
    }
  }

  lemma ApplyingWF(s: State, pool: set<Op>, x: set<Op>, u: State)
    requires Applying(s, pool, x, u)
    ensures WF(u) && forall o :: o in u.pending ==> o in pool
  {
  }

  lemma {:induction false} ApplyingDrain(s: State, pool: set<Op>, x: set<Op>, u: State)
    requires Applying(s, pool, x, u) && ClosedOver(Keys(s.tree), pool, x) && OneEach(pool)
    ensures Applying(s, pool, x, Drain(u))
    decreases |u.pending|
  {
    hide DrainDownTo, Applying;
    ApplyingWF(s, pool, x, u);
    ApplyingDownTo(s, pool, x, u, 0);
    var t := DrainDownTo(u, 0);
    if |t.pending| != |u.pending| {
      ApplyingDrain(s, pool, x, t);
    }
  }

  lemma ApplyingRemote(s: State, pool: set<Op>, x: set<Op>, u: State, op: Op)
    requires Applying(s, pool, x, u) && ClosedOver(Keys(s.tree), pool, x) && OneEach(pool) && op in pool
    ensures WF(u) && Applying(s, pool, x, ApplyRemote(u, op, None).state)
  {
    hide DoApply, Drain;
    if op.id in u.applied {
    } else if Ready(u.tree, op) {
      ApplyingOne(s, pool, x, u, op);
      ApplyingDrain(s, pool, x, DoApply(u, op));
    }
  }

  lemma {:induction false} ApplyingAll(s: State, pool: set<Op>, x: set<Op>, ops: seq<Op>)
    requires WF(s) && Applying(s, pool, x, s) && ClosedOver(Keys(s.tree), pool, x) && OneEach(pool)
    requires forall o :: o in ops ==> o in pool
    ensures Applying(s, pool, x, TakeAll(s, ops).state)
    decreases |ops|
  {
    hide Applying, ApplyRemote;
    if ops != [] {
      var init, op := ops[..|ops| - 1], ops[|ops| - 1];
      assert op in ops && forall o :: o in init ==> o in ops;
      ApplyingAll(s, pool, x, init);
      ApplyingRemote(s, pool, x, TakeAll(s, init).state, op);
    }
  }

  // ------------------------------------------------------------------ a message

  lemma NewDistinct(s: State, ops: seq<Op>)
    requires Clean(s) && AllNew(s, ops)
    ensures DistinctIds(s.pending + ops)
  {
    var q, n := s.pending + ops, |s.pending|;
    forall i, j | 0 <= i < j < |q| ensures q[i].id != q[j].id {
      if i < n <= j {
        assert q[j] == ops[j - n] && ops[j - n] in ops && New(s, q[j]);
        assert q[i] in s.pending && HasId(s.pending, q[i].id);
      } else if n <= i {
        assert q[i] == ops[i - n] && q[j] == ops[j - n];
      }
    }
  }

  lemma DistinctOneEach(q: seq<Op>)
    requires DistinctIds(q)
    ensures OneEach(SetOf(q))
  {
    forall a, b | a in q && b in q && a.id == b.id ensures a == b {
      var i :| 0 <= i < |q| && q[i] == a;
      var j :| 0 <= j < |q| && q[j] == b;
    }
  }

  lemma NewPool(s: State, ops: seq<Op>)
    requires Quiet(s) && AllNew(s, ops)
    ensures OneEach(SetOf(s.pending + ops))
    ensures forall o :: o in SetOf(s.pending + ops) <==> o in s.pending || o in ops
    ensures forall o :: o in SetOf(s.pending + ops) ==> o.id !in s.applied && Some(o.id) !in Keys(s.tree)
  {
    hide IsDoc, StackOk;
    NewDistinct(s, ops);
    DistinctOneEach(s.pending + ops);
  }

  lemma ApplyingStart(s: State, ops: seq<Op>, x: set<Op>)
    requires Quiet(s) && AllNew(s, ops)
    ensures Applying(s, SetOf(s.pending + ops), x, s)
  {
    NewPool(s, ops);
  }

  /** What a message applies, of itself and of the buffer, is exactly what is set free. */
  lemma FreedExactly(s: State, ops: seq<Op>, r: Taken)
    requires WF(s) && Quiet(s) && AllNew(s, ops) && r == TakeAll(s, ops) && TookIn(s, ops, r)
    ensures
      var pool := SetOf(s.pending + ops);
      var free := Freed(Keys(s.tree), pool);
      && (forall o :: o in pool ==> (o.id in r.state.applied <==> o in free))
      && Applying(s, pool, free, r.state) && ClosedOver(Keys(s.tree), pool, free)
  {
    hide Applying, TakeAll, Quiet, AllNew;
    var keys, pool := Keys(s.tree), SetOf(s.pending + ops);
    NewPool(s, ops);
    var done := set o | o in pool && o.id in r.state.applied;
    forall x | ClosedOver(keys, pool, x) ensures Applying(s, pool, x, r.state) && done <= x {
      ApplyingStart(s, ops, x);
      ApplyingAll(s, pool, x, ops);
      DoneWithin(s, pool, x, r.state);
    }
    AllClosed(keys, pool);
    DoneClosed(s, ops, r, done);
    assert Freed(keys, pool) == done;
  }

  lemma AllClosed(keys: set<Key>, pool: set<Op>)
    ensures ClosedOver(keys, pool, pool)
  {
  }

  lemma DoneWithin(s: State, pool: set<Op>, x: set<Op>, u: State)
    requires Applying(s, pool, x, u)
    ensures forall o :: o in pool && o.id in u.applied ==> o in x
  {
  }

  lemma DoneClosed(s: State, ops: seq<Op>, r: Taken, done: set<Op>)
    requires TookIn(s, ops, r) && Quiet(s) && AllNew(s, ops)
    requires var pool := SetOf(s.pending + ops);
             Applying(s, pool, pool, r.state) && done == set o | o in pool && o.id in r.state.applied
    ensures ClosedOver(Keys(s.tree), SetOf(s.pending + ops), done)
  {
    hide WF, Clean;
    var pool := SetOf(s.pending + ops);
    forall o | o in pool && Supports(Keys(s.tree), done, o) ensures o in done {
      StillWaits(s, ops, r, o);
      if Needs(o) !in Keys(s.tree) {
        var i :| i in done && i.Insert? && i.id == Needs(o).value;
        assert i in pool && i.id in r.state.applied;
        assert Done(r.state, pool, i);
      }
      assert Ready(r.state.tree, o);
    }
  }

  lemma StillWaits(s: State, ops: seq<Op>, r: Taken, o: Op)
    requires TookIn(s, ops, r) && o in s.pending + ops
    ensures o.id !in r.state.applied ==> o in r.state.pending
  {
    WaitingMembers(s.pending, r.state.applied);
    PickedMembers(ops, r.buffered);
  }
}
