/**
 * Sequence numbers follow the buffer, not causality: the order of a log need not be one a replica could apply
 * directly.
 */
module NumberOrder {
  import opened Identifiers
  import opened Operations
  import opened EngineState
  import opened OpSets
  import opened Replica
  import opened Convergence
  import opened Intake
  import opened Coordination
  import opened FugueShape
  import opened Expand
  import opened Release
  import Eviction
  import opened Commits
  import opened Durability

  // ------------------------------------------------------------------ causal lists

  function KeyOf(op: Op): set<Key> {
    if op.Insert? then {Some(op.id)} else {}
  }

  function KeysOf(ops: seq<Op>): set<Key> {
    if ops == [] then {} else KeyOf(ops[0]) + KeysOf(ops[1..])
  }

  /**
   * Every operation needs a key that was there or that an earlier one inserted: applying them in this order never
   * waits.
   */
  ghost predicate Causal(keys: set<Key>, ops: seq<Op>)
    decreases |ops|
  {
    ops == [] || (Needs(ops[0]) in keys && Causal(keys + KeyOf(ops[0]), ops[1..]))
  }

  lemma {:induction false} KeysOfConcat(a: seq<Op>, b: seq<Op>)
    ensures KeysOf(a + b) == KeysOf(a) + KeysOf(b)
  {
    if a == [] {
      assert a + b == b;
    } else {
      assert (a + b)[1..] == a[1..] + b;
      KeysOfConcat(a[1..], b);
    }
  }

  lemma {:induction false} CausalConcat(keys: set<Key>, a: seq<Op>, b: seq<Op>)
    ensures Causal(keys, a + b) <==> Causal(keys, a) && Causal(keys + KeysOf(a), b)
    decreases |a|
  {
    if a == [] {
      assert a + b == b && keys + KeysOf(a) == keys;
    } else {
      assert (a + b)[1..] == a[1..] + b;
      CausalConcat(keys + KeyOf(a[0]), a[1..], b);
      assert keys + KeyOf(a[0]) + KeysOf(a[1..]) == keys + KeysOf(a);
    }
  }

  lemma {:induction false} KeysOfMembers(ops: seq<Op>)
    ensures forall o :: o in ops && o.Insert? ==> Some(o.id) in KeysOf(ops)
    ensures forall k :: k in KeysOf(ops) ==> k.Some? && Inserted(SetOf(ops), k.value)
  {
    if ops != [] {
      KeysOfMembers(ops[1..]);
      assert ops[0] in ops;
      forall k | k in KeysOf(ops) ensures k.Some? && Inserted(SetOf(ops), k.value) {
        if k in KeysOf(ops[1..]) {
          var o :| o in SetOf(ops[1..]) && o.Insert? && o.id == k.value;
          assert o in SetOf(ops);
        } else {
          assert ops[0] in SetOf(ops);
        }
      }
    }
  }

  /** Read position by position: what each operation needs was there, or an earlier operation inserted it. */
  lemma {:induction false} CausalReads(keys: set<Key>, ops: seq<Op>)
    ensures Causal(keys, ops) <==> forall i :: 0 <= i < |ops| ==> Needs(ops[i]) in keys + KeysOf(ops[..i])
    decreases |ops|
  {
    if ops != [] {
      var h, t := ops[0], ops[1..];
      var keys' := keys + KeyOf(h);
      CausalReads(keys', t);
      assert KeysOf(ops[..0]) == {};
      forall i | 0 < i < |ops| ensures keys + KeysOf(ops[..i]) == keys' + KeysOf(t[..i - 1]) && ops[i] == t[i - 1] {
        assert ops[..i][1..] == t[..i - 1];
      }
      if forall i :: 0 <= i < |ops| ==> Needs(ops[i]) in keys + KeysOf(ops[..i]) {
        forall j | 0 <= j < |t| ensures Needs(t[j]) in keys' + KeysOf(t[..j]) {
          assert Needs(ops[j + 1]) in keys + KeysOf(ops[..j + 1]);
        }
      }
    }
  }

  /** Operations that only need what is there are causal in any order. */
  lemma {:induction false} AllThere(keys: set<Key>, ops: seq<Op>)
    requires forall o :: o in ops ==> Needs(o) in keys
    ensures Causal(keys, ops)
    decreases |ops|
  {
    if ops != [] {
      AllThere(keys + KeyOf(ops[0]), ops[1..]);
    }
  }

  /** A chain is causal once its first operation is. */
  lemma {:induction false} ChainCausal(keys: set<Key>, ops: seq<Op>)
    requires Chained(ops) && ops != [] && Needs(ops[0]) in keys && ops[0].Insert?
    ensures Causal(keys, ops)
    decreases |ops|
  {
    if |ops| > 1 {
      var tail := ops[1..];
      assert HangsAt(ops, 1);
      forall i | 0 < i < |tail| ensures HangsAt(tail, i) { assert HangsAt(ops, i + 1); }
      ChainCausal(keys + KeyOf(ops[0]), tail);
    }
  }

  // ------------------------------------------------------------------ freed operations, in buffer order

  /** Somewhere in the buffer an operation waits before the insert it needs, and that insert is set free. */
  ghost predicate Inverted(q: seq<Op>, free: set<Op>) {
    exists i, j :: InvertedAt(q, free, i, j)
  }

  ghost predicate InvertedAt(q: seq<Op>, free: set<Op>, i: int, j: int) {
    0 <= i < j < |q| && q[j] in free && q[j].Insert? && Needs(q[i]) == Some(q[j].id)
  }

  lemma {:induction false} AllWait(q: seq<Op>, applied: set<Id>)
    requires forall o :: o in q ==> o.id !in applied
    ensures Waiting(q, applied) == q && Resolved(q, applied) == []
  {
    if q != [] {
      AllWait(q[1..], applied);
    }
  }

  /** What is free in the buffer is supported by the keys or by free inserts of the buffer. */
  ghost predicate SelfSupported(keys: set<Key>, q: seq<Op>, free: set<Op>) {
    && (forall o :: o in q ==> Some(o.id) !in keys)
    && (forall o :: o in q && o in free ==> SupportedIn(keys, q, free, o))
    && (forall o :: o in q && o !in free ==> !SupportedIn(keys, q, free, o))
  }

  ghost predicate SupportedIn(keys: set<Key>, q: seq<Op>, free: set<Op>, o: Op) {
    Needs(o) in keys || exists i :: i in q && i in free && i.Insert? && Needs(o) == Some(i.id)
  }

  lemma InvertedTail(q: seq<Op>, free: set<Op>)
    requires q != []
    ensures Inverted(q[1..], free) ==> Inverted(q, free)
    ensures Inverted(q, free) ==> Inverted(q[1..], free) || exists j :: InvertedAt(q, free, 0, j)
  {
    if Inverted(q[1..], free) {
      var i, j :| InvertedAt(q[1..], free, i, j);
      assert InvertedAt(q, free, i + 1, j + 1);
    }
    if Inverted(q, free) {
      var i, j :| InvertedAt(q, free, i, j);
      if i > 0 { assert InvertedAt(q[1..], free, i - 1, j - 1); }
    }
  }

  lemma RestSupported(keys: set<Key>, q: seq<Op>, free: set<Op>)
    requires q != [] && DistinctIds(q) && SelfSupported(keys, q, free) && (q[0] in free ==> Needs(q[0]) in keys)
    ensures DistinctIds(q[1..]) && forall o :: o in q[1..] ==> o in q && o.id != q[0].id
    ensures SelfSupported(if q[0] in free then keys + KeyOf(q[0]) else keys, q[1..], free)
  {
    var h, t := q[0], q[1..];
    var keys' := if h in free then keys + KeyOf(h) else keys;
    forall o | o in t ensures o in q && o.id != h.id {
      var k :| 0 <= k < |t| && t[k] == o;
      assert q[k + 1] == o;
    }
    assert forall i, j :: 0 <= i < j < |t| ==> t[i] == q[i + 1] && t[j] == q[j + 1];
    assert h in q;
    forall o | o in t && o in free ensures SupportedIn(keys', t, free, o) {
      assert SupportedIn(keys, q, free, o);
      if Needs(o) !in keys' {
        var i :| i in q && i in free && i.Insert? && Needs(o) == Some(i.id);
        assert i in t;
      }
    }
    forall o | o in t && o !in free ensures !SupportedIn(keys', t, free, o) {
      assert !SupportedIn(keys, q, free, o);
    }
  }

  lemma FirstNeverInverted(keys: set<Key>, q: seq<Op>, free: set<Op>, j: int)
    requires SelfSupported(keys, q, free) && q != [] && (q[0] in free ==> Needs(q[0]) in keys)
    ensures !InvertedAt(q, free, 0, j)
  {
    if 0 < j < |q| && q[j] in free && q[j].Insert? {
      assert q[j] in q && q[0] in q;
      assert Needs(q[0]) == Some(q[j].id) ==> SupportedIn(keys, q, free, q[0]);
    }
  }

  /**
   * What is set free is causal in buffer order if and only if nothing free waited behind an operation that needs
   * it.
   */
  lemma {:induction false} BufferCausal(keys: set<Key>, q: seq<Op>, free: set<Op>, applied: set<Id>)
    requires DistinctIds(q) && SelfSupported(keys, q, free)
    requires forall o :: o in q ==> (o.id in applied <==> o in free)
    requires forall o :: o in q && o in free ==> Needs(o) != Some(o.id)
    ensures Causal(keys, Resolved(q, applied)) <==> !Inverted(q, free)
    decreases |q|
  {
    hide SelfSupported, SupportedIn, InvertedAt;
    if q == [] {
      NothingInverted(free);
    } else {
      var h, t := q[0], q[1..];
      assert h in q;
      InvertedTail(q, free);
      if h in free && Needs(h) !in keys {
        FirstInverted(keys, q, free);
        assert Resolved(q, applied) == [h] + Resolved(t, applied);
      } else {
        RestSupported(keys, q, free);
        forall j ensures !InvertedAt(q, free, 0, j) { FirstNeverInverted(keys, q, free, j); }
        BufferCausal(if h in free then keys + KeyOf(h) else keys, t, free, applied);
        if h in free {
          CausalConcat(keys, [h], Resolved(t, applied));
          CausalOne(keys, h);
          assert Resolved(q, applied) == [h] + Resolved(t, applied);
        } else {
          assert Resolved(q, applied) == [] + Resolved(t, applied) == Resolved(t, applied);
        }
      }
    }
  }

  lemma CausalOne(keys: set<Key>, op: Op)
    ensures Causal(keys, [op]) <==> Needs(op) in keys
    ensures KeysOf([op]) == KeyOf(op)
  {
    assert [op][1..] == [];
  }

  lemma NothingInverted(free: set<Op>)
    ensures !Inverted([], free)
  {
  }

  lemma FirstInverted(keys: set<Key>, q: seq<Op>, free: set<Op>)
    requires q != [] && SelfSupported(keys, q, free) && q[0] in free && Needs(q[0]) !in keys
    requires Needs(q[0]) != Some(q[0].id)
    ensures Inverted(q, free)
  {
    assert q[0] in q && SupportedIn(keys, q, free, q[0]);
    var i :| i in q && i in free && i.Insert? && Needs(q[0]) == Some(i.id);
    var j :| 0 <= j < |q| && q[j] == i;
    assert InvertedAt(q, free, 0, j);
  }

  // ------------------------------------------------------------------ one message

  /** The inversion that one message brings out, read off the tree, the buffer and the message. */
  ghost predicate Misordered(s: State, ops: seq<Op>) {
    Inverted(s.pending, Freed(Keys(s.tree), SetOf(s.pending + ops)))
  }

  /** What a message and the buffer hold, once the message is taken in. */
  ghost predicate Released(s: State, ops: seq<Op>, r: Taken, free: set<Op>) {
    && |r.buffered| == |ops| && TookIn(s, ops, r)
    && free == Freed(Keys(s.tree), SetOf(s.pending + ops))
    && (forall o :: o in s.pending || o in ops ==> (o.id in r.state.applied <==> o in free))
    && Applying(s, SetOf(s.pending + ops), free, r.state) && ClosedOver(Keys(s.tree), SetOf(s.pending + ops), free)
    && (forall o :: o in s.pending || o in ops ==> Some(o.id) !in Keys(s.tree))
    && (forall o :: o in Picked(ops, r.buffered, false) <==> o in ops && o in free)
    && DistinctIds(s.pending + ops)
  }

  lemma MessageReleases(s: State, m: Message)
    requires WF(s) && Quiet(s) && AllNew(s, ToOperations(m))
    ensures
      var ops := ToOperations(m);
      Released(s, ops, TakeAll(s, ops), Freed(Keys(s.tree), SetOf(s.pending + ops)))
  {
    hide TakeAll, Freed, ClosedOver, Applying;
    var ops := ToOperations(m);
    MessageTaken(s, m);
    NewPool(s, ops);
    BufferDistinct(s, ops);
    FreedExactly(s, ops, TakeAll(s, ops));
    PickedMembers(ops, TakeAll(s, ops).buffered);
  }

  lemma BufferDistinct(s: State, ops: seq<Op>)
    requires Quiet(s) && AllNew(s, ops)
    ensures DistinctIds(s.pending + ops) && DistinctIds(s.pending)
  {
    NewDistinct(s, ops);
  }

  /** Nothing is freed by a message none of whose needs is there. */
  lemma NothingFreed(s: State, ops: seq<Op>)
    requires Quiet(s) && forall o :: o in ops ==> Needs(o) !in Keys(s.tree)
    ensures Freed(Keys(s.tree), SetOf(s.pending + ops)) == {}
  {
    hide WF, Clean;
    var pool := SetOf(s.pending + ops);
    forall o | o in pool ensures !Supports(Keys(s.tree), {}, o) {
      assert o in s.pending || o in ops;
    }
    assert ClosedOver(Keys(s.tree), pool, {});
  }

  /** Operations that insert nothing free only what is supported by the tree itself. */
  lemma FlagsFree(s: State, ops: seq<Op>)
    requires Quiet(s) && forall o :: o in ops ==> !o.Insert?
    ensures forall o :: o in Freed(Keys(s.tree), SetOf(s.pending + ops)) ==> Needs(o) in Keys(s.tree)
  {
    hide WF, Clean;
    var pool := SetOf(s.pending + ops);
    var x := set o | o in pool && Needs(o) in Keys(s.tree);
    forall i | i in x ensures !i.Insert? {
      assert i in s.pending || i in ops;
    }
    assert ClosedOver(Keys(s.tree), pool, x);
  }

  /** What is ready of a message is causal in its own order. */
  lemma ReadyCausal(s: State, m: Message, r: Taken)
    requires WF(s) && Quiet(s) && AllNew(s, ToOperations(m)) && r == TakeAll(s, ToOperations(m))
    requires Released(s, ToOperations(m), r, Freed(Keys(s.tree), SetOf(s.pending + ToOperations(m))))
    ensures Causal(Keys(s.tree), Picked(ToOperations(m), r.buffered, false))
  {
    hide Quiet, AllNew, TakeAll, Freed, Applying, ClosedOver, TookIn, WF, Picked;
    var ops, keys := ToOperations(m), Keys(s.tree);
    var ready := Picked(ops, r.buffered, false);
    if forall o :: o in ops ==> Needs(o) !in keys {
      NothingFreed(s, ops);
      assert forall o :: o !in ready;
      NoMembers(ready);
    } else {
      match m
      case One(op) =>
        AllThere(keys, ready);
      case Run(run) =>
        RunReady(s, run, r);
      case Batch(batch) =>
        FlagsFree(s, ops);
        AllThere(keys, ready);
    }
  }

  lemma RunReady(s: State, run: InsertRun, r: Taken)
    requires WF(s) && Quiet(s) && AllNew(s, Expanded(run)) && r == TakeAll(s, Expanded(run))
    requires Released(s, Expanded(run), r, Freed(Keys(s.tree), SetOf(s.pending + Expanded(run))))
    requires exists o :: o in Expanded(run) && Needs(o) in Keys(s.tree)
    ensures Causal(Keys(s.tree), Picked(Expanded(run), r.buffered, false))
  {
    hide Quiet, AllNew, TakeAll, Freed, Applying, ClosedOver, TookIn, Picked, Expanded, WF;
    var ops, keys := Expanded(run), Keys(s.tree);
    RunChained(run);
    assert ops != [];
    FirstThere(s, ops);
    assert ops[0] in ops;
    TookChain(s, ops);
    if Picked(ops, r.buffered, true) == [] {
      AllPicked(ops, r.buffered);
      ChainCausal(keys, ops);
    }
  }

  /** Only the first of a chain of new inserts can need something that is there. */
  lemma FirstThere(s: State, ops: seq<Op>)
    requires Chained(ops) && exists o :: o in ops && Needs(o) in Keys(s.tree)
    requires forall o :: o in ops ==> o.Insert? && Some(o.id) !in Keys(s.tree)
    ensures Needs(ops[0]) in Keys(s.tree)
  {
    var o :| o in ops && Needs(o) in Keys(s.tree);
    var k :| 0 <= k < |ops| && ops[k] == o;
    forall i | 0 < i < |ops| ensures Needs(ops[i]) !in Keys(s.tree) {
      assert HangsAt(ops, i) && ops[i - 1] in ops;
    }
  }

  /** A free operation is of the buffer or the message, and is supported by the tree or by another free one. */
  lemma FreeIsSupported(s: State, ops: seq<Op>, r: Taken, free: set<Op>, o: Op)
    requires Released(s, ops, r, free) && o in free
    ensures o in s.pending || o in ops
    ensures Needs(o) != Some(o.id) && (Needs(o) in Keys(s.tree) || (Needs(o).Some? && Inserted(free, Needs(o).value)))
  {
    hide TookIn, Picked, WF, Freed;
    assert o in SetOf(s.pending + ops);
    assert Done(r.state, free, o);
  }

  /** One that is not free is not supported. */
  lemma HeldIsNot(s: State, ops: seq<Op>, r: Taken, free: set<Op>, o: Op)
    requires Released(s, ops, r, free) && o in s.pending && o !in free
    ensures !Supports(Keys(s.tree), free, o)
  {
    hide TookIn, Picked, WF, Freed, Applying;
    assert o in SetOf(s.pending + ops);
  }

  lemma InReady(s: State, ops: seq<Op>, r: Taken, free: set<Op>)
    requires Released(s, ops, r, free)
    ensures forall o :: o in Picked(ops, r.buffered, false) <==> o in ops && o in free
    ensures forall o :: o in s.pending ==>
      Some(o.id) !in Keys(s.tree) && Some(o.id) !in KeysOf(Picked(ops, r.buffered, false))
    ensures forall o :: o in s.pending ==> (o.id in r.state.applied <==> o in free)
  {
    hide TookIn, Picked, WF, Freed, Applying, ClosedOver;
    var ready, pool := Picked(ops, r.buffered, false), SetOf(s.pending + ops);
    KeysOfMembers(ready);
    forall o | o in s.pending ensures Some(o.id) !in KeysOf(ready) {
      if Some(o.id) in KeysOf(ready) {
        var i :| i in ready && i.Insert? && i.id == o.id;
        FreshOfBuffer(s.pending, ops, o, i);
      }
    }
  }

  lemma FreshOfBuffer(p: seq<Op>, ops: seq<Op>, o: Op, i: Op)
    requires DistinctIds(p + ops) && o in p && i in ops
    ensures o.id != i.id
  {
    var j :| 0 <= j < |p| && p[j] == o;
    var k :| 0 <= k < |ops| && ops[k] == i;
    assert (p + ops)[j] == o && (p + ops)[|p| + k] == i;
  }

  lemma SupportsInserted(keys: set<Key>, free: set<Op>, o: Op)
    ensures forall i :: i in free && i.Insert? && Needs(o) == Some(i.id) ==> Supports(keys, free, o)
  {
  }

  /** Behind the ready ones, the freed ones are supported by what is there and by each other. */
  lemma FreedSupported(s: State, ops: seq<Op>, r: Taken, free: set<Op>)
    requires |r.buffered| == |ops| && Released(s, ops, r, free)
    ensures SelfSupported(Keys(s.tree) + KeysOf(Picked(ops, r.buffered, false)), s.pending, free)
    ensures forall o :: o in s.pending && o in free ==> Needs(o) != Some(o.id)
  {
    hide Released, Picked, KeysOf;
    var q, ready := s.pending, Picked(ops, r.buffered, false);
    var keys := Keys(s.tree) + KeysOf(ready);
    InReady(s, ops, r, free);
    KeysOfMembers(ready);
    forall o | o in q && o in free ensures SupportedIn(keys, q, free, o) && Needs(o) != Some(o.id) {
      FreeIsSupported(s, ops, r, free, o);
      if Needs(o) !in keys {
        var i :| i in free && i.Insert? && i.id == Needs(o).value;
        FreeIsSupported(s, ops, r, free, i);
        assert i in ops ==> i in ready;
      }
    }
    forall o | o in q && o !in free ensures !SupportedIn(keys, q, free, o) {
      HeldIsNot(s, ops, r, free, o);
      SupportsInserted(Keys(s.tree), free, o);
      assert forall i :: i in ready ==> i in free;
    }
  }

  /** Ready operations, then freed ones in buffer order: causal if and only if the buffer is not misordered. */
  lemma NumberedCausal(s: State, m: Message)
    requires WF(s) && Quiet(s) && AllNew(s, ToOperations(m))
    ensures
      var ops := ToOperations(m);
      var r := TakeAll(s, ops);
      var added := Picked(ops, r.buffered, false) + Resolved(s.pending, r.state.applied);
      && (Causal(Keys(s.tree), added) <==> !Misordered(s, ops))
      && Keys(r.state.tree) == Keys(s.tree) + KeysOf(added)
  {
    hide Quiet, AllNew, TakeAll, Freed, Applying, ClosedOver, TookIn, Picked, Resolved, Inverted, SelfSupported, WF;
    var ops, keys := ToOperations(m), Keys(s.tree);
    var r, free := TakeAll(s, ops), Freed(keys, SetOf(s.pending + ops));
    var ready, freed := Picked(ops, r.buffered, false), Resolved(s.pending, r.state.applied);
    MessageReleases(s, m);
    BufferDistinct(s, ops);
    ReadyCausal(s, m, r);
    InReady(s, ops, r, free);
    FreedSupported(s, ops, r, free);
    BufferCausal(keys + KeysOf(ready), s.pending, free, r.state.applied);
    CausalConcat(keys, ready, freed);
    NewKeys(s, ops, r, free);
  }

  lemma NewKeys(s: State, ops: seq<Op>, r: Taken, free: set<Op>)
    requires Released(s, ops, r, free)
    ensures Keys(r.state.tree) == Keys(s.tree)
      + KeysOf(Picked(ops, r.buffered, false) + Resolved(s.pending, r.state.applied))
  {
    hide TookIn, Picked, WF, Freed, ClosedOver;
    var pool, added := SetOf(s.pending + ops), Picked(ops, r.buffered, false) + Resolved(s.pending, r.state.applied);
    WaitingMembers(s.pending, r.state.applied);
    KeysOfMembers(added);
    forall k | k in Keys(r.state.tree) && k !in Keys(s.tree) ensures k in KeysOf(added) {
      var i :| i in free && i.Insert? && i.id == k.value;
      FreeIsSupported(s, ops, r, free, i);
      assert i in added;
    }
    forall k | k in KeysOf(added) ensures k in Keys(r.state.tree) {
      var i :| i in added && i.Insert? && i.id == k.value;
      assert i in pool && Done(r.state, free, i);
    }
  }

  // ------------------------------------------------------------------ at the server

  /** The operations numbered, in the order of their numbers. */
  function FinalOps(finals: seq<Final>): seq<Op> {
    OpsOf(SentOf(finals))
  }

  lemma FinalOpsConcat(a: seq<Final>, b: seq<Final>)
    ensures FinalOps(a + b) == FinalOps(a) + FinalOps(b)
  {
  }

  lemma {:induction false} OpsOfWithOrigins(q: seq<Op>, origins: map<Id, Origin>)
    requires forall o :: o in q ==> o.id in origins
    ensures OpsOf(WithOrigins(q, origins)) == q
  {
    if q != [] {
      assert q[0] in q && forall o :: o in q[1..] ==> o in q;
      OpsOfWithOrigins(q[1..], origins);
      var rest := WithOrigins(q[1..], origins);
      assert WithOrigins(q, origins) == [Sent(q[0], origins[q[0].id])] + rest;
      assert OpsOf([Sent(q[0], origins[q[0].id])] + rest) == [q[0]] + OpsOf(rest);
    }
  }

  lemma NumberedOps(ready: seq<Op>, origin: Origin, freed: seq<Op>, origins: map<Id, Origin>, after: nat)
    requires forall o :: o in freed ==> o.id in origins
    ensures FinalOps(Numbered(SentBy(ready, origin) + WithOrigins(freed, origins), after)) == ready + freed
  {
    OpsOfWithOrigins(freed, origins);
    var w := WithOrigins(freed, origins);
    assert OpsOf(SentBy(ready, origin) + w) == ready + OpsOf(w);
    assert SentOf(Numbered(SentBy(ready, origin) + w, after)) == SentBy(ready, origin) + w;
  }

  /** `t` numbers `added` after what `sv` had numbered. */
  ghost predicate Numbers(sv: Server, t: Server, added: seq<Op>) {
    FinalOps(t.finalized) == FinalOps(sv.finalized) + added
      && Keys(t.engine.tree) == Keys(sv.engine.tree) + KeysOf(added)
  }

  /** Which operations a message numbers: the ready ones, then the freed ones in buffer order. */
  function Newly(s: State, ops: seq<Op>): seq<Op>
    requires WF(s)
  {
    var r := TakeAll(s, ops);
    Picked(ops, r.buffered, false) + Resolved(s.pending, r.state.applied)
  }

  /**
   * A message's operations and those it sets free are numbered in causal order if and only if, in the buffer before
   * it came, no operation waited in front of the insert it needs while that insert is set free.
   */
  lemma NumberingCausalExactly(sv: Server, m: Message, origin: Origin, nowMs: int, base: nat)
    requires Sound(sv, base) && FreshFor(sv, m, origin)
    ensures WF(sv.engine)
    ensures
      var added := Newly(sv.engine, ToOperations(m));
      && Numbers(sv, Process(sv, m, origin, nowMs), added)
      && (Causal(Keys(sv.engine.tree), added) <==> !Misordered(sv.engine, ToOperations(m)))
  {
    hide Conserved, SeqsOk, Misordered, Causal, TakeAll, Picked, Resolved, KeysOf, Quiet, AllNew, TookIn, Numbered,
      SentBy, WithOrigins, IdsOf;
    SoundQuiet(sv, base);
    var s, ops := sv.engine, ToOperations(m);
    var r := TakeAll(s, ops);
    NumberedCausal(s, m);
    if ops == [] {
      NothingTaken(s);
    } else {
      AcceptOutcome(sv, m, origin, nowMs, base);
      var ready, freed := Picked(ops, r.buffered, false), Resolved(s.pending, r.state.applied);
      FreedHaveOrigins(s.pending, r.state.applied, sv.origins);
      NumberedOps(ready, origin, freed, sv.origins, sv.currentSeq);
      FinalOpsConcat(sv.finalized, Numbered(SentBy(ready, origin) + WithOrigins(freed, sv.origins), sv.currentSeq));
    }
  }

  lemma FreedHaveOrigins(q: seq<Op>, applied: set<Id>, origins: map<Id, Origin>)
    requires origins.Keys == IdsOf(q)
    ensures forall o :: o in Resolved(q, applied) ==> o.id in origins
  {
    WaitingMembers(q, applied);
    assert forall o :: o in q ==> o.id in IdsOf(q);
  }

  lemma NothingTaken(s: State)
    requires WF(s) && Quiet(s)
    ensures Newly(s, []) == [] && TakeAll(s, []).state == s
  {
    AllWait(s.pending, s.applied);
  }

  // ------------------------------------------------------------------ every run

  /** No message of the run brought an inversion out. */
  ghost predicate NeverMisordered(start: Desk, events: seq<Event>)
    requires DeskRun(start, events).Some?
  {
    events == [] || (NeverMisordered(start, events[..|events| - 1]) && InOrder(start, events))
  }

  ghost predicate InOrder(start: Desk, events: seq<Event>)
    requires events != [] && DeskRun(start, events).Some?
  {
    var before, e := DeskRun(start, events[..|events| - 1]).value, events[|events| - 1];
    e.Receive? ==> !Misordered(before.server.engine, ToOperations(e.message))
  }

  /** One event, on a causal or an acausal log. */
  lemma EventCausal(keys: set<Key>, d: Desk, e: Event, base: nat)
    requires Orderly(d, base) && Enabled(d, e)
    requires Keys(d.server.engine.tree) == keys + KeysOf(FinalOps(d.server.finalized))
    ensures
      var t := Commits.Step(d, e);
      && Keys(t.server.engine.tree) == keys + KeysOf(FinalOps(t.server.finalized))
      && (Causal(keys, FinalOps(t.server.finalized))
          <==> Causal(keys, FinalOps(d.server.finalized))
               && (e.Receive? ==> !Misordered(d.server.engine, ToOperations(e.message))))
  {
    hide Sound, Causal, KeysOf, Process, Eviction.Sweep, Misordered, FreshFor, FinalOps, Newly, WF;
    match e
    case Receive(m, origin, nowMs) =>
      var before := FinalOps(d.server.finalized);
      NumberingCausalExactly(d.server, m, origin, nowMs, base);
      var added := Newly(d.server.engine, ToOperations(m));
      CausalConcat(keys, before, added);
      KeysOfConcat(before, added);
    case SweepAt(nowMs, timeoutMs, maxPending) => SweepBuffer(d.server, nowMs, timeoutMs, maxPending);
    case CommitSucceeds =>
    case CommitFails =>
    case Acknowledge(_) =>
  }

  /**
   * Over a whole run the numbering is causal, every operation after the insert it needs, if and only if no message
   * ever set an insert free behind an operation that waited for it.
   */
  lemma {:induction false} RunCausalExactly(engine: State, base: nat, events: seq<Event>)
    requires Quiet(engine) && engine.pending == [] && DeskRun(Opened(engine, base), events).Some?
    ensures
      var d := DeskRun(Opened(engine, base), events).value;
      && (Causal(Keys(engine.tree), FinalOps(d.server.finalized)) <==> NeverMisordered(Opened(engine, base), events))
      && Keys(d.server.engine.tree) == Keys(engine.tree) + KeysOf(FinalOps(d.server.finalized))
  {
    hide Quiet, Enabled, Commits.Step, Orderly, InOrder;
    if events == [] {
      NothingNumbered(Keys(engine.tree));
    } else {
      var init := events[..|events| - 1];
      RunCausalExactly(engine, base, init);
      RunOrderly(engine, base, init);
      LastEvent(Opened(engine, base), events);
      EventCausal(Keys(engine.tree), DeskRun(Opened(engine, base), init).value, events[|events| - 1], base);
    }
  }

  lemma NothingNumbered(keys: set<Key>)
    ensures Causal(keys, FinalOps([])) && keys + KeysOf(FinalOps([])) == keys
  {
  }

  lemma LastEvent(start: Desk, events: seq<Event>)
    requires events != [] && DeskRun(start, events).Some?
    ensures
      var before, e := DeskRun(start, events[..|events| - 1]), events[|events| - 1];
      && before.Some? && Enabled(before.value, e) && DeskRun(start, events).value == Commits.Step(before.value, e)
      && (InOrder(start, events) <==> (e.Receive? ==> !Misordered(before.value.server.engine, ToOperations(e.message))))
  {
  }

  /** Operations that come in causal order are all free at once. */
  lemma {:induction false} CausalAllFree(keys: set<Key>, now: set<Key>, pool: set<Op>, x: set<Op>, ops: seq<Op>)
    requires Causal(now, ops) && ClosedOver(keys, pool, x) && forall o :: o in ops ==> o in pool
    requires forall k :: k in now ==> k in keys || (k.Some? && Inserted(x, k.value))
    ensures forall o :: o in ops ==> o in x
    decreases |ops|
  {
    if ops != [] {
      assert ops[0] in ops && Supports(keys, x, ops[0]);
      forall k | k in now + KeyOf(ops[0]) ensures k in keys || (k.Some? && Inserted(x, k.value)) {
        assert ops[0] in x;
      }
      assert forall o :: o in ops[1..] ==> o in ops;
      CausalAllFree(keys, now + KeyOf(ops[0]), pool, x, ops[1..]);
    }
  }

  /** A message in causal order, with nothing waiting, is applied and numbered as it is. */
  lemma CausalMessage(s: State, m: Message)
    requires WF(s) && Quiet(s) && AllNew(s, ToOperations(m)) && s.pending == [] && Causal(Keys(s.tree), ToOperations(m))
    ensures TakeAll(s, ToOperations(m)).state.pending == [] && Newly(s, ToOperations(m)) == ToOperations(m)
    ensures !Misordered(s, ToOperations(m))
  {
    hide TakeAll, Applying, ClosedOver, Causal, Quiet, AllNew, WF, Inverted, Picked, Freed;
    var ops := ToOperations(m);
    var r, pool := TakeAll(s, ops), SetOf(s.pending + ops);
    var free := Freed(Keys(s.tree), pool);
    MessageReleases(s, m);
    assert s.pending + ops == ops;
    CausalAllFree(Keys(s.tree), Keys(s.tree), pool, free, ops);
    PickedMembers(ops, r.buffered);
    NoMembers(Picked(ops, r.buffered, true));
    AllPicked(ops, r.buffered);
    assert ops + [] == ops;
    BufferInverts(s.pending, free);
  }

  lemma BufferInverts(q: seq<Op>, free: set<Op>)
    requires q == []
    ensures !Inverted(q, free)
  {
  }

  /** Nothing waits, and the numbering is the order of arrival. */
  ghost predicate AsArrived(sv: Server) {
    sv.engine.pending == [] && FinalOps(sv.finalized) == OpsOf(sv.accepted)
  }

  lemma MessageAsArrived(sv: Server, m: Message, origin: Origin, nowMs: int, base: nat)
    requires Sound(sv, base) && FreshFor(sv, m, origin) && AsArrived(sv)
      && Causal(Keys(sv.engine.tree), ToOperations(m))
    ensures WF(sv.engine) && AsArrived(Process(sv, m, origin, nowMs)) && !Misordered(sv.engine, ToOperations(m))
  {
    hide Conserved, SeqsOk, Misordered, Causal, TakeAll, Picked, Resolved, KeysOf, Quiet, AllNew, TookIn, Numbered,
      SentBy, WithOrigins, IdsOf, Newly;
    SoundQuiet(sv, base);
    var ops := ToOperations(m);
    NumberingCausalExactly(sv, m, origin, nowMs, base);
    CausalMessage(sv.engine, m);
    if ops == [] {
      assert OpsOf(sv.accepted) + [] == OpsOf(sv.accepted);
    } else {
      AcceptOutcome(sv, m, origin, nowMs, base);
      AcceptedMore(sv.accepted, ops, origin);
    }
  }

  lemma AcceptedMore(accepted: seq<Sent>, ops: seq<Op>, origin: Origin)
    ensures OpsOf(accepted + SentBy(ops, origin)) == OpsOf(accepted) + ops
  {
  }

  lemma EventAsArrived(keys: set<Key>, d: Desk, e: Event, base: nat)
    requires Orderly(d, base) && Enabled(d, e) && AsArrived(d.server)
    requires Keys(d.server.engine.tree) == keys + KeysOf(FinalOps(d.server.finalized))
    requires Causal(keys, OpsOf(Commits.Step(d, e).server.accepted))
    ensures AsArrived(Commits.Step(d, e).server)
    ensures e.Receive? ==> !Misordered(d.server.engine, ToOperations(e.message))
  {
    hide Sound, Causal, KeysOf, Process, Eviction.Sweep, Misordered, FreshFor, FinalOps, WF;
    match e
    case Receive(m, origin, nowMs) =>
      AcceptsAll(d.server, m, origin, nowMs, base);
      CausalConcat(keys, OpsOf(d.server.accepted), ToOperations(m));
      MessageAsArrived(d.server, m, origin, nowMs, base);
    case SweepAt(nowMs, timeoutMs, maxPending) => SweepBuffer(d.server, nowMs, timeoutMs, maxPending);
    case CommitSucceeds =>
    case CommitFails =>
    case Acknowledge(_) =>
  }

  lemma AcceptsAll(sv: Server, m: Message, origin: Origin, nowMs: int, base: nat)
    requires Sound(sv, base) && FreshFor(sv, m, origin)
    ensures WF(sv.engine) && OpsOf(Process(sv, m, origin, nowMs).accepted) == OpsOf(sv.accepted) + ToOperations(m)
  {
    hide Conserved, SeqsOk, TakeAll, Picked, Resolved, Quiet, TookIn, Numbered, SentBy, WithOrigins, IdsOf;
    SoundQuiet(sv, base);
    if ToOperations(m) == [] {
      assert OpsOf(sv.accepted) + [] == OpsOf(sv.accepted);
    } else {
      AcceptOutcome(sv, m, origin, nowMs, base);
      AcceptedMore(sv.accepted, ToOperations(m), origin);
    }
  }

  lemma AcceptedGrows(d: Desk, e: Event, base: nat)
    requires Orderly(d, base) && Enabled(d, e)
    ensures OpsOf(d.server.accepted) <= OpsOf(Commits.Step(d, e).server.accepted)
  {
    hide Sound, Process, Eviction.Sweep, FreshFor, WF;
    match e
    case Receive(m, origin, nowMs) => AcceptsAll(d.server, m, origin, nowMs, base);
    case SweepAt(nowMs, timeoutMs, maxPending) => SweepBuffer(d.server, nowMs, timeoutMs, maxPending);
    case CommitSucceeds =>
    case CommitFails =>
    case Acknowledge(_) =>
  }

  lemma CausalPrefix(keys: set<Key>, a: seq<Op>, b: seq<Op>)
    requires a <= b && Causal(keys, b)
    ensures Causal(keys, a)
  {
    CausalConcat(keys, a, b[|a|..]);
    assert a + b[|a|..] == b;
  }

  /**
   * If every operation arrives after the insert it needs, nothing ever waits and the numbering is the order of
   * arrival.
   */
  lemma {:induction false} CausalArrival(engine: State, base: nat, events: seq<Event>)
    requires Quiet(engine) && engine.pending == [] && DeskRun(Opened(engine, base), events).Some?
    requires Causal(Keys(engine.tree), OpsOf(DeskRun(Opened(engine, base), events).value.server.accepted))
    ensures AsArrived(DeskRun(Opened(engine, base), events).value.server)
    ensures NeverMisordered(Opened(engine, base), events)
  {
    hide Quiet, Enabled, Commits.Step, Orderly, InOrder, Causal, AsArrived;
    if events == [] {
      OpenedAsArrived(engine, base);
    } else {
      var init := events[..|events| - 1];
      LastEvent(Opened(engine, base), events);
      RunOrderly(engine, base, init);
      RunCausalExactly(engine, base, init);
      var d := DeskRun(Opened(engine, base), init).value;
      AcceptedGrows(d, events[|events| - 1], base);
      CausalPrefix(Keys(engine.tree), OpsOf(d.server.accepted),
        OpsOf(DeskRun(Opened(engine, base), events).value.server.accepted));
      CausalArrival(engine, base, init);
      EventAsArrived(Keys(engine.tree), d, events[|events| - 1], base);
    }
  }

  lemma OpenedAsArrived(engine: State, base: nat)
    requires engine.pending == []
    ensures AsArrived(Opened(engine, base).server)
  {
  }

  /** Three characters, each hanging from the one before. */
  ghost predicate Line(a: Op, b: Op, c: Op) {
    && a.Insert? && b.Insert? && c.Insert? && Coherent({a, b, c})
    && a.parent == None && b.parent == Some(a.id) && c.parent == Some(b.id)
    && a.id != b.id && a.id != c.id && b.id != c.id
  }

  lemma ClosedLine(a: Op, b: Op, c: Op, x: set<Op>)
    requires Line(a, b, c) && CausallyClosed({a, b, c}, x)
    ensures x == {a, b, c}
  {
    assert Supported(x, a);
    assert a in x;
    assert Inserted(x, a.id);
    assert Supported(x, b);
    assert b in x;
    assert Inserted(x, b.id);
    assert Supported(x, c);
  }

  // ------------------------------------------------------------------ at the server

  /** One message of one operation: numbered together with what it sets free, those in buffer order; or held back. */
  ghost predicate Step(sv: Server, op: Op, origin: Origin, t: Server) {
    var freed := WithOrigins(Resolved(sv.engine.pending, t.engine.applied), sv.origins);
    var now := op.id in t.engine.applied;
    && t.engine.pending == Waiting(sv.engine.pending, t.engine.applied) + (if now then [] else [op])
    && t.finalized == sv.finalized + Numbered((if now then [Sent(op, origin)] else []) + freed, sv.currentSeq)
    && t.currentSeq == sv.currentSeq + (if now then 1 else 0) + |freed|
    && t.accepted == sv.accepted + [Sent(op, origin)]
    && t.origins
         == OriginsAfter(sv.origins, if now then [] else [op], Resolved(sv.engine.pending, t.engine.applied), origin)
  }

  lemma CoreContext(s: State, p: set<Op>, c: map<Id, Context>)
    requires Core(s, p) && Drained(s)
    ensures Core(s.(deleteContext := c), p) && Drained(s.(deleteContext := c))
  {
  }

  lemma PickedOne(op: Op, flags: seq<bool>)
    requires |flags| == 1
    ensures Picked([op], flags, true) == if flags[0] then [op] else []
    ensures Picked([op], flags, false) == if flags[0] then [] else [op]
  {
    assert [op][..0] == [] && flags[..0] == [];
    assert Picked([], [], true) == [] && Picked([], [], false) == [];
  }

  lemma StepOfOutcome(sv: Server, op: Op, r: Taken, origin: Origin, t: Server)
    requires |r.buffered| == 1 && Coordination.Outcome(sv, [op], r, origin, t) && TookIn(sv.engine, [op], r)
    ensures Step(sv, op, origin, t)
  {
    hide Resolved, Waiting, WithOrigins, OriginsAfter, Numbered, AllEntries, Quiet, Picked;
    PickedOne(op, r.buffered);
    assert op in [op];
    assert SentBy([op], origin) == [Sent(op, origin)] && SentBy([], origin) == [];
    var freed := WithOrigins(Resolved(sv.engine.pending, r.state.applied), sv.origins);
    assert [] + freed == freed;
  }

  lemma OneMessage(sv: Server, op: Op, origin: Origin, nowMs: int, base: nat, p: set<Op>)
    requires Sound(sv, base) && FreshFor(sv, One(op), origin) && Core(sv.engine, p) && Coherent(p + {op})
    ensures
      var t := Process(sv, One(op), origin, nowMs);
      && Sound(t, base) && Core(t.engine, p + {op}) && Drained(t.engine) && Step(sv, op, origin, t)
  {
    hide Core, Conserved, SeqsOk, TookIn, Drain, Coherent, Accept, Coordination.Outcome, Step, Process, ApplyRemote;
    var r := TakeAll(sv.engine, [op]);
    var t := Process(sv, One(op), origin, nowMs);
    ProcessSound(sv, One(op), origin, nowMs, base);
    AcceptOutcome(sv, One(op), origin, nowMs, base);
    ProcessOne(sv, op, origin, nowMs);
    ApplyRemoteCore(sv.engine, op, None, p);
    OneTaken(sv.engine, op);
    EngineOf(sv, op, r, origin, t);
    CoreContext(r.state, p + {op}, t.engine.deleteContext);
    StepOfOutcome(sv, op, r, origin, t);
  }

  lemma ProcessOne(sv: Server, op: Op, origin: Origin, nowMs: int)
    requires WF(sv.engine)
    ensures Process(sv, One(op), origin, nowMs) == Accept(sv, [op], origin, nowMs)
    ensures ToOperations(One(op)) == [op]
  {
  }

  lemma OneTaken(s: State, op: Op)
    requires WF(s)
    ensures TakeAll(s, [op]).state == ApplyRemote(s, op, None).state
  {
    TakeAllNext(s, [], op);
    assert [] + [op] == [op];
  }

  lemma EngineOf(sv: Server, op: Op, r: Taken, origin: Origin, t: Server)
    requires |r.buffered| == 1 && Coordination.Outcome(sv, [op], r, origin, t)
    ensures t.engine == r.state.(deleteContext := t.engine.deleteContext)
  {
  }

  // ------------------------------------------------------------------ the counterexample

  lemma NothingSupported(s: State, p: set<Op>)
    requires Core(s, p) && Drained(s) && forall o :: o in p ==> Needs(o).Some?
    ensures forall o :: o in p ==> o.id !in s.applied
  {
    AppliedIsLeastClosure(s, p);
    forall o | o in p ensures !Supported({}, o) {
    }
    assert CausallyClosed(p, {});
    assert AppliedOps(s, p) <= {};
    forall o | o in p ensures o.id !in s.applied {
      assert o in AppliedOps(s, p) <==> o.id in s.applied;
    }
  }

  /** Nothing numbered yet, and everything accepted so far waits, in the order `q`. */
  ghost predicate Holding(sv: Server, q: seq<Op>, origin: Origin) {
    && Sound(sv, 0) && Core(sv.engine, SetOf(q)) && Drained(sv.engine)
    && sv.engine.pending == q && (forall o :: o in q ==> o.id !in sv.engine.applied)
    && sv.finalized == [] && sv.currentSeq == 0 && sv.accepted == SentBy(q, origin)
    && forall o :: o in q ==> o.id in sv.origins && sv.origins[o.id] == origin
  }

  lemma HoldingFresh(origin: Origin)
    ensures Holding(Opened(Fresh(0), 0).server, [], origin)
  {
    FreshCore(0);
    assert SetOf([]) == {};
    OpenedOrderly(Fresh(0), 0);
    assert SentBy([], origin) == [];
  }

  lemma OpsOfSentBy(q: seq<Op>, origin: Origin)
    ensures OpsOf(SentBy(q, origin)) == q
  {
  }

  lemma NewHere(sv: Server, q: seq<Op>, op: Op, origin: Origin)
    requires Holding(sv, q, origin) && (forall o :: o in q ==> o.id != op.id)
    requires op.id !in sv.engine.applied && op.id.r == origin.replica
    ensures FreshFor(sv, One(op), origin)
  {
    hide Sound, Core, Drained;
    OpsOfSentBy(q, origin);
  }

  lemma NotApplied(s: State, p: set<Op>, op: Op)
    requires Core(s, p) && forall o :: o in p ==> o.id != op.id
    ensures op.id !in s.applied
  {
    hide WF, Matches, Coherent;
    assert op.id in s.applied ==> Named(AppliedOps(s, p), op.id);
  }

  /** One more operation nothing here can support. */
  lemma HoldOne(sv: Server, q: seq<Op>, op: Op, origin: Origin, nowMs: int)
    requires Holding(sv, q, origin) && Coherent(SetOf(q) + {op}) && op.id.r == origin.replica
    requires (forall o :: o in q ==> o.id != op.id) && forall o :: o in SetOf(q) + {op} ==> Needs(o).Some?
    ensures WF(sv.engine) && Holding(Process(sv, One(op), origin, nowMs), q + [op], origin)
  {
    hide Sound, Core, Drained, Coherent, Process, FreshFor, Waiting, Resolved, WithOrigins, Numbered, SentBy;
    var p := SetOf(q) + {op};
    assert SetOf(q + [op]) == p;
    assert WF(sv.engine) by { SoundQuiet(sv, 0); }
    NotApplied(sv.engine, SetOf(q), op);
    NewHere(sv, q, op, origin);
    OneMessage(sv, op, origin, nowMs, 0, SetOf(q));
    var t := Process(sv, One(op), origin, nowMs);
    NothingSupported(t.engine, p);
    assert op in p && forall o :: o in q ==> o in p;
    AllWait(q, t.engine.applied);
    SentOneMore(q, op, origin);
    NoneNumbered(sv.origins);
  }

  lemma SentOneMore(q: seq<Op>, op: Op, origin: Origin)
    ensures SentBy(q, origin) + [Sent(op, origin)] == SentBy(q + [op], origin)
  {
  }

  lemma NoneNumbered(origins: map<Id, Origin>)
    ensures WithOrigins([], origins) == [] && Numbered([] + WithOrigins([], origins), 0) == []
  {
  }

  lemma BothFreed(b: Op, c: Op, applied: set<Id>, origins: map<Id, Origin>, origin: Origin)
    requires b.id in applied && c.id in applied && b.id in origins && c.id in origins
    requires origins[b.id] == origin && origins[c.id] == origin
    ensures Waiting([c, b], applied) == []
    ensures WithOrigins(Resolved([c, b], applied), origins) == [Sent(c, origin), Sent(b, origin)]
  {
    assert [c, b][1..] == [b] && [b][1..] == [];
    assert Resolved([b], applied) == [b] + Resolved([], applied);
    assert Waiting([b], applied) == [] + Waiting([], applied);
    assert Resolved([c, b], applied) == [c] + Resolved([b], applied);
    assert WithOrigins([b], origins) == [Sent(b, origin)];
    assert ([c] + [b])[1..] == [b];
  }

  lemma AllFreed(sv: Server, a: Op, b: Op, c: Op, origin: Origin, nowMs: int)
    requires Holding(sv, [c, b], origin) && Line(a, b, c) && a.id.r == origin.replica
    ensures WF(sv.engine)
    ensures
      var t := Process(sv, One(a), origin, nowMs);
      && t.finalized == [Final(1, Sent(a, origin)), Final(2, Sent(c, origin)), Final(3, Sent(b, origin))]
      && t.engine.pending == []
  {
    hide Sound, Core, Drained, Coherent, Process, FreshFor;
    var q, p := [c, b], {a, b, c};
    assert SetOf(q) + {a} == p;
    assert WF(sv.engine) by { SoundQuiet(sv, 0); }
    NotApplied(sv.engine, SetOf(q), a);
    NewHere(sv, q, a, origin);
    OneMessage(sv, a, origin, nowMs, 0, SetOf(q));
    var t := Process(sv, One(a), origin, nowMs);
    AppliedIsLeastClosure(t.engine, p);
    ClosedLine(a, b, c, AppliedOps(t.engine, p));
    assert a in p && b in p && c in p;
    assert a.id in t.engine.applied && b.id in t.engine.applied && c.id in t.engine.applied;
    assert b in q && c in q;
    BothFreed(b, c, t.engine.applied, sv.origins, origin);
    var items := [Sent(a, origin)] + [Sent(c, origin), Sent(b, origin)];
    assert Numbered(items, 0) == [Final(1, Sent(a, origin)), Final(2, Sent(c, origin)), Final(3, Sent(b, origin))];
  }

  /**
   * Three characters arrive, each hanging from the next to come.  The last arrival sets the other two free, and
   * they are numbered in the order they waited in: the third character comes before the second it hangs from.
   */
  lemma NumberingNeedNotBeCausal(a: Op, b: Op, c: Op, origin: Origin, nowMs: int)
    requires Line(a, b, c) && a.id.r == b.id.r == c.id.r == origin.replica
    ensures
      var sv := Opened(Fresh(0), 0).server;
      && WF(sv.engine) && var s1 := Process(sv, One(c), origin, nowMs);
      && WF(s1.engine) && var s2 := Process(s1, One(b), origin, nowMs);
      && WF(s2.engine) && var t := Process(s2, One(a), origin, nowMs);
      && t.finalized == [Final(1, Sent(a, origin)), Final(2, Sent(c, origin)), Final(3, Sent(b, origin))]
      && t.engine.pending == [] && !Causal(Keys(sv.engine.tree), FinalOps(t.finalized))
  {
    hide Holding, Process, Coherent;
    var sv := Opened(Fresh(0), 0).server;
    HoldingFresh(origin);
    SubLine(a, b, c);
    HoldOne(sv, [], c, origin, nowMs);
    assert [] + [c] == [c];
    var s1 := Process(sv, One(c), origin, nowMs);
    HoldOne(s1, [c], b, origin, nowMs);
    assert [c] + [b] == [c, b];
    AllFreed(Process(s1, One(b), origin, nowMs), a, b, c, origin, nowMs);
    OutOfOrder(a, b, c, origin);
  }

  lemma OutOfOrder(a: Op, b: Op, c: Op, origin: Origin)
    requires Line(a, b, c)
    ensures !Causal(Keys(EmptyDoc), FinalOps([Final(1, Sent(a, origin)), Final(2, Sent(c, origin)),
      Final(3, Sent(b, origin))]))
  {
    var ops := [a, c, b];
    assert FinalOps([Final(1, Sent(a, origin)), Final(2, Sent(c, origin)), Final(3, Sent(b, origin))]) == ops;
    assert ops[1..] == [c, b];
    assert Keys(EmptyDoc) == {None};
  }

  lemma SubLine(a: Op, b: Op, c: Op)
    requires Line(a, b, c)
    ensures SetOf([]) + {c} == {c} && SetOf([c]) + {b} == {b, c}
    ensures Coherent({c}) && Coherent({b, c})
  {
  }
}
