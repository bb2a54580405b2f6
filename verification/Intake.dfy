/** What delivering operations does to the buffer: nothing is lost, nothing is invented. */
module Intake {
  import opened Identifiers
  import opened Operations
  import opened FugueShape
  import opened FugueTrees
  import opened EngineState
  import opened Replica
  import opened FlagOrder
  import opened Expand

  /** The operations of `q` not applied yet, in order. */
  function Waiting(q: seq<Op>, applied: set<Id>): seq<Op> {
    if q == [] then [] else (if q[0].id in applied then [] else [q[0]]) + Waiting(q[1..], applied)
  }

  /** The operations of `q` applied by now, in order. */
  function Resolved(q: seq<Op>, applied: set<Id>): seq<Op> {
    if q == [] then [] else (if q[0].id in applied then [q[0]] else []) + Resolved(q[1..], applied)
  }

  ghost predicate DistinctIds(q: seq<Op>) {
    forall i, j :: 0 <= i < j < |q| ==> q[i].id != q[j].id
  }

  ghost predicate HasId(q: seq<Op>, id: Id) {
    exists o :: o in q && o.id == id
  }

  lemma {:induction false} WaitingMembers(q: seq<Op>, applied: set<Id>)
    ensures forall o :: o in Waiting(q, applied) <==> o in q && o.id !in applied
    ensures forall o :: o in Resolved(q, applied) <==> o in q && o.id in applied
  {
    if q != [] {
      WaitingMembers(q[1..], applied);
      assert q == [q[0]] + q[1..];
    }
  }

  lemma {:induction false} WaitingConcat(a: seq<Op>, b: seq<Op>, applied: set<Id>)
    ensures Waiting(a + b, applied) == Waiting(a, applied) + Waiting(b, applied)
  {
    if a == [] {
      assert a + b == b;
    } else {
      assert (a + b)[1..] == a[1..] + b;
      WaitingConcat(a[1..], b, applied);
      RegroupPrefix(if a[0].id in applied then [] else [a[0]], Waiting(a[1..], applied), Waiting(b, applied));
    }
  }

  lemma {:induction false} WaitingAll(q: seq<Op>, applied: set<Id>)
    requires forall o :: o in q ==> o.id !in applied
    ensures Waiting(q, applied) == q
  {
    if q != [] {
      assert q[0] in q;
      WaitingAll(q[1..], applied);
    }
  }

  lemma {:induction false} WaitingTwice(q: seq<Op>, a: set<Id>, b: set<Id>)
    requires a <= b
    ensures Waiting(Waiting(q, a), b) == Waiting(q, b)
  {
    if q != [] {
      WaitingTwice(q[1..], a, b);
      if q[0].id !in a {
        assert (Waiting(q, a))[1..] == Waiting(q[1..], a) && Waiting(q, a)[0] == q[0];
      } else {
        assert Waiting(q, a) == Waiting(q[1..], a);
      }
    }
  }

  lemma {:induction false} WaitingDistinct(q: seq<Op>, applied: set<Id>)
    requires DistinctIds(q)
    ensures DistinctIds(Waiting(q, applied))
  {
    if q != [] {
      var w := Waiting(q[1..], applied);
      WaitingDistinct(q[1..], applied);
      WaitingMembers(q[1..], applied);
      forall j | 0 <= j < |w| ensures w[j].id != q[0].id {
        assert w[j] in q[1..];
        var k :| 0 <= k < |q[1..]| && q[1..][k] == w[j];
        assert q[k + 1] == w[j];
      }
    }
  }

  /** A buffer from which exactly the operations applied meanwhile are gone. */
  ghost predicate Progress(s: State, t: State) {
    && s.applied <= t.applied && t.pending == Waiting(s.pending, t.applied)
    && forall id :: id in t.applied && id !in s.applied ==> HasId(s.pending, id)
  }

  /** A clean buffer: each operation once, and none that was applied. */
  ghost predicate Clean(s: State) {
    DistinctIds(s.pending) && forall o :: o in s.pending ==> o.id !in s.applied
  }

  lemma ProgressTrans(s: State, t: State, u: State)
    requires Progress(s, t) && Progress(t, u)
    ensures Progress(s, u)
  {
    WaitingTwice(s.pending, t.applied, u.applied);
    WaitingMembers(s.pending, t.applied);
    forall id | id in u.applied && id !in s.applied ensures HasId(s.pending, id) {
      if id !in t.applied {
        assert HasId(t.pending, id);
        var o :| o in t.pending && o.id == id;
        assert o in s.pending;
      }
    }
  }

  lemma ProgressClean(s: State, t: State)
    requires Clean(s) && Progress(s, t)
    ensures Clean(t)
  {
    WaitingDistinct(s.pending, t.applied);
    WaitingMembers(s.pending, t.applied);
  }

  lemma ProgressNone(s: State)
    requires Clean(s)
    ensures Progress(s, s)
  {
    WaitingAll(s.pending, s.applied);
  }

  /** Removing one operation from a list without repetitions. */
  lemma {:induction false} RemoveOne(q: seq<Op>, i: nat, applied: set<Id>)
    requires DistinctIds(q) && i < |q| && forall o :: o in q ==> o.id !in applied
    ensures SeqRemove(q, i) == Waiting(q, applied + {q[i].id})
  {
    hide Waiting;
    var x := q[i];
    assert q == q[..i] + [x] + q[i + 1..];
    WaitingConcat(q[..i] + [x], q[i + 1..], applied + {x.id});
    WaitingConcat(q[..i], [x], applied + {x.id});
    forall o | o in q[..i] ensures o.id !in applied + {x.id} {
      var j :| 0 <= j < i && q[j] == o;
    }
    forall o | o in q[i + 1..] ensures o.id !in applied + {x.id} {
      var j :| 0 <= j < |q[i + 1..]| && q[i + 1..][j] == o;
      assert q[i + 1 + j] == o;
    }
    WaitingAll(q[..i], applied + {x.id});
    WaitingAll(q[i + 1..], applied + {x.id});
    WaitingGone(x, applied + {x.id});
    assert q[..i] + [] + q[i + 1..] == q[..i] + q[i + 1..];
  }

  lemma WaitingGone(x: Op, applied: set<Id>)
    requires x.id in applied
    ensures Waiting([x], applied) == []
  {
    assert [x][1..] == [];
  }

  lemma StepProgress(s: State, i: nat)
    requires WF(s) && Clean(s) && i < |s.pending|
    ensures Progress(s, DrainStep(s, i))
  {
    hide Unique, Effect;
    var op := s.pending[i];
    assert op in s.pending;
    if Ready(s.tree, op) {
      RemoveOne(s.pending, i, s.applied);
      assert HasId(s.pending, op.id);
    } else {
      ProgressNone(s);
    }
  }

  lemma {:induction false} DownToProgress(s: State, i: nat)
    requires WF(s) && Clean(s) && i <= |s.pending|
    ensures Progress(s, DrainDownTo(s, i))
    decreases |s.pending| - i
  {
    hide Unique, DrainStep, Progress;
    if i == |s.pending| {
      ProgressNone(s);
    } else {
      DownToProgress(s, i + 1);
      var t := DrainDownTo(s, i + 1);
      ProgressClean(s, t);
      StepProgress(t, i);
      ProgressTrans(s, t, DrainStep(t, i));
    }
  }

  /** Draining removes from the buffer exactly what it applies. */
  lemma {:induction false} DrainProgress(s: State)
    requires WF(s) && Clean(s)
    ensures Progress(s, Drain(s)) && Drained(Drain(s))
    decreases |s.pending|
  {
    hide Unique, DrainDownTo, Progress, Ready;
    DownToProgress(s, 0);
    var t := DrainDownTo(s, 0);
    if |t.pending| == |s.pending| {
      NoProgress(s, 0);
      NothingLeft(s);
    } else {
      ProgressClean(s, t);
      DrainProgress(t);
      ProgressTrans(s, t, Drain(t));
    }
  }

  lemma NothingLeft(s: State)
    requires forall j :: 0 <= j < |s.pending| ==> s.pending[j].id !in s.applied && !Ready(s.tree, s.pending[j])
    ensures Drained(s)
  {
  }

  // ------------------------------------------------------------------ one operation

  /** New to a replica: neither applied nor buffered. */
  ghost predicate New(s: State, op: Op) {
    op.id !in s.applied && !HasId(s.pending, op.id)
  }

  /** The buffer is clean and holds nothing that could be applied. */
  ghost predicate Quiet(s: State) {
    WF(s) && Clean(s) && Drained(s)
  }

  /** A new operation is buffered, or applied together with the buffered ones it sets free. */
  ghost predicate Arrived(s: State, op: Op, t: State, buffered: bool) {
    && Quiet(t)
    && (buffered ==> t == s.(pending := s.pending + [op]) && !Ready(s.tree, op))
    && (!buffered ==> (
          && Ready(s.tree, op) && op.id in t.applied && s.applied <= t.applied
          && t.pending == Waiting(s.pending, t.applied)
          && forall id :: id in t.applied && id !in s.applied ==> id == op.id || HasId(s.pending, id)))
  }

  lemma BufferedQuiet(s: State, op: Op)
    requires Quiet(s) && New(s, op) && !Ready(s.tree, op)
    ensures Quiet(s.(pending := s.pending + [op]))
  {
    hide Unique;
    var q := s.pending + [op];
    forall i, j | 0 <= i < j < |q| ensures q[i].id != q[j].id {
      if j == |s.pending| { assert s.pending[i] in s.pending; }
    }
  }

  lemma DoApplyClean(s: State, op: Op)
    requires Quiet(s) && New(s, op) && Ready(s.tree, op)
    ensures WF(DoApply(s, op)) && Clean(DoApply(s, op)) && DoApply(s, op).pending == s.pending
    ensures DoApply(s, op).applied == s.applied + {op.id}
  {
    hide Unique, Effect;
  }

  lemma ArriveOne(s: State, op: Op)
    requires Quiet(s) && New(s, op)
    ensures Arrived(s, op, ApplyRemote(s, op, None).state, ApplyRemote(s, op, None).buffered)
  {
    hide Unique, Effect, Drain, DoApply, Ready, Clean, Drained;
    if Ready(s.tree, op) {
      DoApplyClean(s, op);
      var u := DoApply(s, op);
      DrainProgress(u);
      ProgressClean(u, Drain(u));
    } else {
      BufferedQuiet(s, op);
    }
  }

  // ------------------------------------------------------------------ one message

  /** What arrives in one frame, expanded. */
  datatype Message = One(op: Op) | Run(run: InsertRun) | Batch(batch: DeleteBatch)

  function ToOperations(m: Message): seq<Op> {
    match m
    case One(op) => [op]
    case Run(run) => Expanded(run)
    case Batch(batch) => ExpandDeleteBatch(batch)
  }

  datatype Taken = Taken(state: State, buffered: seq<bool>)

  /** Applying the operations of a message one after the other. */
  function TakeAll(s: State, ops: seq<Op>): (r: Taken)
    requires WF(s)
    ensures WF(r.state) && |r.buffered| == |ops|
  {
    if ops == [] then Taken(s, [])
    else
      var before := TakeAll(s, ops[..|ops| - 1]);
      var d := ApplyRemote(before.state, ops[|ops| - 1], None);
      Taken(d.state, before.buffered + [d.buffered])
  }

  /** The operations whose flag is `which`. */
  function Picked(ops: seq<Op>, flags: seq<bool>, which: bool): seq<Op>
    requires |ops| == |flags|
  {
    if ops == [] then []
    else
      var n := |ops| - 1;
      Picked(ops[..n], flags[..n], which) + if flags[n] == which then [ops[n]] else []
  }

  lemma {:induction false} PickedMembers(ops: seq<Op>, flags: seq<bool>)
    requires |ops| == |flags|
    ensures forall o :: o in ops <==> o in Picked(ops, flags, true) || o in Picked(ops, flags, false)
  {
    if ops != [] {
      var n := |ops| - 1;
      PickedMembers(ops[..n], flags[..n]);
      assert ops == ops[..n] + [ops[n]];
    }
  }

  /** After a message: the buffer lost what was set free and gained what is not ready; nothing else. */
  ghost predicate TookIn(s: State, ops: seq<Op>, r: Taken) {
    && |r.buffered| == |ops| && Quiet(r.state) && s.applied <= r.state.applied
    && r.state.pending == Waiting(s.pending, r.state.applied) + Picked(ops, r.buffered, true)
    && (forall o :: o in Picked(ops, r.buffered, false) ==> o.id in r.state.applied)
    && (forall o :: o in Picked(ops, r.buffered, true) ==> o.id !in r.state.applied)
    && forall id :: id in r.state.applied && id !in s.applied ==>
         HasId(Picked(ops, r.buffered, false), id) || HasId(s.pending, id)
  }

  /** New to a replica, and without repetitions. */
  ghost predicate AllNew(s: State, ops: seq<Op>) {
    DistinctIds(ops) && forall o :: o in ops ==> New(s, o)
  }

  lemma TookNothing(s: State)
    requires Quiet(s)
    ensures TookIn(s, [], Taken(s, []))
  {
    WaitingAll(s.pending, s.applied);
    assert s.pending + [] == s.pending;
  }

  /** The next operation is still new. */
  lemma StillNew(s: State, ops: seq<Op>, r: Taken, op: Op)
    requires TookIn(s, ops, r) && AllNew(s, ops + [op])
    ensures New(r.state, op) && AllNew(s, ops)
  {
    hide DistinctIds, Waiting, Picked, Resolved;
    AllNewInit(s, ops, op);
    PickedMembers(ops, r.buffered);
    WaitingMembers(s.pending, r.state.applied);
    assert op in ops + [op];
    assert forall o :: o in Picked(ops, r.buffered, false) ==> o.id != op.id;
    assert forall o :: o in r.state.pending ==> o in s.pending || o in ops;
  }

  lemma PickedMore(ops: seq<Op>, flags: seq<bool>, op: Op, flag: bool)
    requires |ops| == |flags|
    ensures forall which :: Picked(ops + [op], flags + [flag], which)
                         == Picked(ops, flags, which) + if flag == which then [op] else []
  {
    assert (ops + [op])[..|ops|] == ops && (flags + [flag])[..|ops|] == flags;
  }

  /** The buffer after one more operation. */
  lemma BufferOneMore(s: State, ops: seq<Op>, r: Taken, op: Op, t: State, buffered: bool)
    requires TookIn(s, ops, r) && Arrived(r.state, op, t, buffered) && s.applied <= t.applied
    requires forall o :: o in Picked(ops, r.buffered, true) ==> o.id !in t.applied
    ensures t.pending == Waiting(s.pending, t.applied) + (Picked(ops, r.buffered, true) + if buffered then [op] else [])
  {
    hide Quiet, Picked;
    var was := Picked(ops, r.buffered, true);
    if buffered {
      assert (Waiting(s.pending, t.applied) + was) + [op] == Waiting(s.pending, t.applied) + (was + [op]);
    } else {
      WaitingConcat(Waiting(s.pending, r.state.applied), was, t.applied);
      WaitingTwice(s.pending, r.state.applied, t.applied);
      WaitingAll(was, t.applied);
      assert was + [] == was;
    }
  }

  /** One more operation, provided what the message already buffered stays buffered. */
  lemma TookOneMore(s: State, ops: seq<Op>, r: Taken, op: Op, t: State, buffered: bool)
    requires TookIn(s, ops, r) && AllNew(s, ops + [op]) && Arrived(r.state, op, t, buffered)
    requires forall o :: o in Picked(ops, r.buffered, true) ==> o.id !in t.applied
    ensures TookIn(s, ops + [op], Taken(t, r.buffered + [buffered]))
  {
    hide Quiet, Waiting, Picked;
    var now := Picked(ops, r.buffered, false);
    StillNew(s, ops, r, op);
    PickedMore(ops, r.buffered, op, buffered);
    BufferOneMore(s, ops, r, op, t, buffered);
    assert now + [] == now;
    if !buffered {
      forall id | id in t.applied && id !in s.applied ensures HasId(now + [op], id) || HasId(s.pending, id) {
        NewlyApplied(s, ops, r, op, t, id);
      }
    }
  }

  lemma NewlyApplied(s: State, ops: seq<Op>, r: Taken, op: Op, t: State, id: Id)
    requires TookIn(s, ops, r) && Arrived(r.state, op, t, false) && id in t.applied && id !in s.applied
    requires forall o :: o in Picked(ops, r.buffered, true) ==> o.id !in t.applied
    ensures HasId(Picked(ops, r.buffered, false) + [op], id) || HasId(s.pending, id)
  {
    hide Quiet;
    var now := Picked(ops, r.buffered, false);
    if id == op.id {
      assert op in now + [op];
    } else if id in r.state.applied {
      if HasId(now, id) {
        var o :| o in now && o.id == id;
        assert o in now + [op];
      }
    } else {
      assert HasId(r.state.pending, id);
      var o :| o in r.state.pending && o.id == id;
      WaitingMembers(s.pending, r.state.applied);
      assert o in s.pending;
    }
  }

  // ------------------------------------------------------------------ the kinds of message

  lemma TakeAllNext(s: State, ops: seq<Op>, op: Op)
    requires WF(s)
    ensures
      var before := TakeAll(s, ops);
      var d := ApplyRemote(before.state, op, None);
      TakeAll(s, ops + [op]) == Taken(d.state, before.buffered + [d.buffered])
  {
    assert (ops + [op])[..|ops|] == ops;
  }

  lemma TookOne(s: State, op: Op)
    requires Quiet(s) && AllNew(s, [op])
    ensures TookIn(s, [op], TakeAll(s, [op]))
  {
    hide ApplyRemote, Arrived, Quiet, AllNew;
    TookNothing(s);
    QuietNew(s, op);
    ArriveOne(s, op);
    TakeAllNext(s, [], op);
    var d := ApplyRemote(s, op, None);
    assert [] + [op] == [op];
    TookOneMore(s, [], Taken(s, []), op, d.state, d.buffered);
  }

  lemma QuietNew(s: State, op: Op)
    requires Quiet(s) && AllNew(s, [op])
    ensures WF(s) && New(s, op)
  {
    assert op in [op];
  }

  /** A flag operation sets nothing free. */
  lemma FlagAlone(s: State, op: Op)
    requires Quiet(s) && New(s, op) && !op.Insert?
    ensures ApplyRemote(s, op, None).state.applied <= s.applied + {op.id}
  {
    if Ready(s.tree, op) {
      forall o | o in s.pending ensures o.id != op.id { assert HasId(s.pending, o.id); }
      DeliverFlag(s, op);
    }
  }

  lemma {:induction false} TookFlags(s: State, ops: seq<Op>)
    requires WF(s) && Quiet(s) && AllNew(s, ops) && forall o :: o in ops ==> !o.Insert?
    ensures TookIn(s, ops, TakeAll(s, ops))
    decreases |ops|
  {
    hide ApplyRemote, Arrived, Quiet, New, WF;
    if ops == [] {
      TookNothing(s);
    } else {
      var init, op := ops[..|ops| - 1], ops[|ops| - 1];
      assert ops == init + [op];
      AllNewInit(s, init, op);
      TookFlags(s, init);
      var r := TakeAll(s, init);
      StillNew(s, init, r, op);
      ArriveOne(r.state, op);
      FlagAlone(r.state, op);
      PickedMembers(init, r.buffered);
      var d := ApplyRemote(r.state, op, None);
      TookOneMore(s, init, r, op, d.state, d.buffered);
    }
  }

  lemma AllNewInit(s: State, init: seq<Op>, op: Op)
    requires AllNew(s, init + [op])
    ensures AllNew(s, init) && op in init + [op] && forall o :: o in init ==> o in init + [op] && o.id != op.id
  {
    assert (init + [op])[|init|] == op;
    assert forall i :: 0 <= i < |init| ==> (init + [op])[i] == init[i];
    forall o | o in init ensures o in init + [op] && o.id != op.id {
      var i :| 0 <= i < |init| && init[i] == o;
      assert (init + [op])[i] == o;
    }
  }

  lemma {:induction false} DownToKeys(s: State, i: nat)
    requires WF(s) && i <= |s.pending|
    ensures Keys(s.tree) <= Keys(DrainDownTo(s, i).tree)
    decreases |s.pending| - i
  {
    hide Unique, DrainStep;
    if i < |s.pending| {
      DownToKeys(s, i + 1);
      StepKeys(DrainDownTo(s, i + 1), i);
    }
  }

  lemma StepKeys(s: State, i: nat)
    requires WF(s) && i < |s.pending|
    ensures Keys(s.tree) <= Keys(DrainStep(s, i).tree)
  {
    hide Unique, Effect;
    var op := s.pending[i];
    if op.id !in s.applied && Ready(s.tree, op) { EffectDoc(s, op); }
  }

  lemma {:induction false} DrainKeys(s: State)
    requires WF(s)
    ensures Keys(s.tree) <= Keys(Drain(s).tree)
    decreases |s.pending|
  {
    hide Unique, DrainDownTo;
    DownToKeys(s, 0);
    var t := DrainDownTo(s, 0);
    if |t.pending| < |s.pending| { DrainKeys(t); }
  }

  /** An insert that is not buffered is in the tree. */
  lemma InsertLandsInTree(s: State, op: Op)
    requires WF(s) && op.id !in s.applied && op.Insert? && Ready(s.tree, op)
    ensures Some(op.id) in Keys(ApplyRemote(s, op, None).state.tree)
  {
    hide Unique, Drain, Effect;
    EffectDoc(s, op);
    DrainKeys(DoApply(s, op));
  }

  /** Every operation hangs on the one before. */
  ghost predicate Chained(ops: seq<Op>) {
    forall i :: 0 < i < |ops| ==> HangsAt(ops, i)
  }

  predicate HangsAt(ops: seq<Op>, i: nat)
    requires 0 < i < |ops|
  {
    ops[i].Insert? && ops[i].parent == Some(ops[i - 1].id)
  }

  /** A chain is applied as a whole, or waits as a whole. */
  ghost predicate AllOrNone(s: State, ops: seq<Op>, r: Taken) {
    && TookIn(s, ops, r) && ops != []
    && (Picked(ops, r.buffered, true) == [] || Picked(ops, r.buffered, false) == [])
    && (Picked(ops, r.buffered, true) == [] ==> Some(ops[|ops| - 1].id) in Keys(r.state.tree))
    && (Picked(ops, r.buffered, false) == [] ==> r.state.tree == s.tree && r.state.applied == s.applied)
  }

  lemma FirstOfChain(s: State, op: Op)
    requires Quiet(s) && AllNew(s, [op]) && op.Insert?
    ensures AllOrNone(s, [op], TakeAll(s, [op]))
  {
    hide ApplyRemote, AllNew, Quiet;
    TookOne(s, op);
    QuietNew(s, op);
    ArriveOne(s, op);
    TakeAllNext(s, [], op);
    var d := ApplyRemote(s, op, None);
    assert [] + [op] == [op];
    PickedMore([], [], op, d.buffered);
    if !d.buffered { InsertLandsInTree(s, op); }
  }

  /** The next of a chain shares the fate of the ones before. */
  lemma NextOfChain(s: State, ops: seq<Op>, r: Taken, op: Op)
    requires AllOrNone(s, ops, r) && AllNew(s, ops + [op]) && WF(s) && r == TakeAll(s, ops)
    requires op.Insert? && op.parent == Some(ops[|ops| - 1].id)
    ensures AllOrNone(s, ops + [op], TakeAll(s, ops + [op]))
  {
    hide ApplyRemote, Quiet, Clean, Drained;
    var last := ops[|ops| - 1];
    StillNew(s, ops, r, op);
    QuietWF(r.state);
    ArriveOne(r.state, op);
    TakeAllNext(s, ops, op);
    var d := ApplyRemote(r.state, op, None);
    PickedMore(ops, r.buffered, op, d.buffered);
    PickedMembers(ops, r.buffered);
    assert last in ops && (ops + [op])[|ops| - 1] == last && last in ops + [op];
    if Picked(ops, r.buffered, true) == [] {
      InsertLandsInTree(r.state, op);
      TookOneMore(s, ops, r, op, d.state, d.buffered);
    } else {
      assert Some(last.id) !in Keys(s.tree);
      TookOneMore(s, ops, r, op, d.state, d.buffered);
    }
  }

  lemma QuietWF(s: State)
    requires Quiet(s)
    ensures WF(s)
  {
  }

  lemma {:induction false} TookChain(s: State, ops: seq<Op>)
    requires WF(s) && Quiet(s) && AllNew(s, ops) && Chained(ops) && ops != [] && ops[0].Insert?
    ensures AllOrNone(s, ops, TakeAll(s, ops))
    decreases |ops|
  {
    hide AllOrNone, Quiet, New, WF, TakeAll;
    if |ops| == 1 {
      assert ops == [ops[0]];
      FirstOfChain(s, ops[0]);
    } else {
      var n := |ops| - 1;
      assert ops == ops[..n] + [ops[n]];
      AllNewInit(s, ops[..n], ops[n]);
      assert forall i :: 0 < i < n ==> HangsAt(ops, i) && HangsAt(ops[..n], i);
      TookChain(s, ops[..n]);
      assert HangsAt(ops, n);
      NextOfChain(s, ops[..n], TakeAll(s, ops[..n]), ops[n]);
    }
  }

  lemma RunChained(m: InsertRun)
    ensures Chained(Expanded(m)) && forall o :: o in Expanded(m) ==> o.Insert?
  {
    forall i | 0 < i < |Expanded(m)| ensures HangsAt(Expanded(m), i) { }
  }

  /**
   * Whatever kind of message arrives, what it buffered is still buffered at its end: nothing of it is
   * set free by a later part of the same message, so nothing falls between the two paths.
   */
  lemma MessageTaken(s: State, m: Message)
    requires WF(s) && Quiet(s) && AllNew(s, ToOperations(m))
    ensures TookIn(s, ToOperations(m), TakeAll(s, ToOperations(m)))
  {
    hide Quiet, AllNew, TookIn, TakeAll, WF;
    match m
    case One(op) => TookOne(s, op);
    case Run(run) =>
      RunChained(run);
      if Expanded(run) == [] {
        TookEmpty(s);
      } else {
        TookChain(s, Expanded(run));
        ChainTook(s, Expanded(run), TakeAll(s, Expanded(run)));
      }
    case Batch(batch) => TookFlags(s, ExpandDeleteBatch(batch));
  }

  lemma TookEmpty(s: State)
    requires WF(s) && Quiet(s)
    ensures TookIn(s, [], TakeAll(s, []))
  {
    TookNothing(s);
  }

  lemma ChainTook(s: State, ops: seq<Op>, r: Taken)
    requires AllOrNone(s, ops, r)
    ensures TookIn(s, ops, r)
  {
  }
}
