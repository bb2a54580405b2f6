/** Bursts of local edits: erasing several characters, typing several characters. */
module LocalRuns {
  import opened Identifiers
  import opened Operations
  import opened FugueShape
  import opened FugueTrees
  import opened EngineState
  import opened Collection
  import opened Expand
  import opened LocalEdits

  function Ids(ns: seq<Node>): seq<Id> {
    seq(|ns|, i requires 0 <= i < |ns| => ns[i].id)
  }

  // ------------------------------------------------------------------ erasing

  /** One round on nodes `lo..hi` already erased. */
  lemma OneMoreErased(ns: seq<Node>, before: State, lo: nat, hi: nat, c: nat)
    requires WF(before) && Distinct(ns) && hi < NumVis(ns) && before.clock == c + hi - lo
    requires Erased(ns, Flat(before.tree), lo, hi, c, before.replica)
    ensures InRange(before, lo) && DeleteOp(before, lo) == Delete(Id(c + 1 + hi - lo, before.replica), Vis(ns)[hi].id)
    ensures Erased(ns, Flat(DeleteOne(before, lo).tree), lo, hi + 1, c, before.replica)
    ensures DeleteOne(before, lo).clock == before.clock + 1 && DeleteOne(before, lo).replica == before.replica
  {
    hide Unique, Placed, Flat, Vis;
    var ms := Flat(before.tree);
    var n := Vis(ns)[hi];
    assert Vis(ms)[lo] == n;
    VisInFlat(ms, lo);
    DocNode(before.tree, n);
    FlatSetFlags(before.tree, Some(n.id), true, Some(MaxWins(n.deletedBy, NextId(before))));
    EraseStep(ns, ms, lo, hi, c, before.replica);
  }

  /** `t` is `s` with `n` visible nodes erased from `v` on. */
  ghost predicate ErasedTo(s: State, v: nat, n: nat, t: State) {
    && WF(t) && t.clock == s.clock + n && t.replica == s.replica
    && Erased(Flat(s.tree), Flat(t.tree), v, v + n, s.clock, s.replica)
  }

  /** What one batch frame of the identifiers `ids`, minted from clock `c` on, expands to. */
  function Batch(c: nat, r: nat, ids: seq<Id>): seq<Op> {
    ExpandDeleteBatch(DeleteBatch(r, c + 1, ids))
  }

  lemma BatchMore(c: nat, r: nat, ns: seq<Node>, v: nat, n: nat)
    requires 0 < n && v + n <= |ns|
    ensures Batch(c, r, Ids(ns[v..v + n])) == Batch(c, r, Ids(ns[v..v + n - 1]))
      + [Delete(Id(c + n, r), ns[v + n - 1].id)]
  {
  }

  lemma BatchNone(c: nat, r: nat, ns: seq<Node>, v: nat, n: nat)
    requires n == 0 && v <= |ns|
    ensures Batch(c, r, Ids(ns[v..v + n])) == []
  {
  }

  lemma ErasedNone(s: State, v: nat)
    requires WF(s) && v <= NumVis(Flat(s.tree))
    ensures ErasedTo(s, v, 0, s)
  {
    var ns := Flat(s.tree);
    assert Vis(ns) == Vis(ns)[..v] + Vis(ns)[v..];
  }

  lemma ErasedNext(s: State, v: nat, n: nat, t: State)
    requires WF(s) && WF(t) && 0 < n && v + n <= NumVis(Flat(s.tree)) && ErasedTo(s, v, n - 1, t)
    ensures ErasedTo(s, v, n, DeleteOne(t, v))
  {
    hide Erased, DeleteOne, WF, Flat, Vis;
    TreeDistinct(s);
    OneMoreErased(Flat(s.tree), t, v, v + n - 1, s.clock);
  }

  lemma TreeDistinct(s: State)
    requires WF(s)
    ensures Distinct(Flat(s.tree))
  {
    DocDistinct(s.tree);
  }

  lemma {:induction false} RoundsErase(s: State, v: nat, n: nat)
    requires WF(s) && v + n <= NumVis(Flat(s.tree))
    ensures ErasedTo(s, v, n, DeleteRounds(s, v, n))
  {
    hide ErasedTo, DeleteOne, WF, Flat, Vis;
    if n == 0 {
      ErasedNone(s, v);
    } else {
      RoundsErase(s, v, n - 1);
      ErasedNext(s, v, n, DeleteRounds(s, v, n - 1));
    }
  }

  lemma BatchNext(c: nat, r: nat, vis: seq<Node>, v: nat, n: nat, x: seq<Op>, y: seq<Op>)
    requires v + n < |vis| && y == x + [Delete(Id(c + 1 + n, r), vis[v + n].id)]
    requires x == Batch(c, r, Ids(vis[v..v + n]))
    ensures y == Batch(c, r, Ids(vis[v..v + n + 1]))
  {
    BatchMore(c, r, vis, v, n + 1);
  }

  lemma RoundTarget(s: State, v: nat, n: nat)
    requires WF(s) && v + n < NumVis(Flat(s.tree))
    ensures var t := DeleteRounds(s, v, n);
            InRange(t, v) && DeleteOp(t, v) == Delete(Id(s.clock + 1 + n, s.replica), Vis(Flat(s.tree))[v + n].id)
  {
    hide Erased, DeleteRounds, DeleteOne, Unique;
    RoundsErase(s, v, n);
    DocDistinct(s.tree);
    OneMoreErased(Flat(s.tree), DeleteRounds(s, v, n), v, v + n, s.clock);
  }

  lemma NextOp(s: State, v: nat, n: nat, op: Op)
    requires WF(s) && 0 < n && InRange(DeleteRounds(s, v, n - 1), v) && op == DeleteOp(DeleteRounds(s, v, n - 1), v)
    ensures DeleteOps(s, v, n) == DeleteOps(s, v, n - 1) + [op]
  {
  }

  ghost predicate OpsAre(s: State, v: nat, n: nat, ops: seq<Op>) {
    v + n <= NumVis(Flat(s.tree)) && ops == Batch(s.clock, s.replica, Ids(Vis(Flat(s.tree))[v..v + n]))
  }

  lemma OpsNext(s: State, v: nat, m: nat, n: nat, x: seq<Op>, op: Op)
    requires OpsAre(s, v, m, x) && v + m < NumVis(Flat(s.tree)) && n == m + 1
    requires op == Delete(Id(s.clock + 1 + m, s.replica), Vis(Flat(s.tree))[v + m].id)
    ensures OpsAre(s, v, n, x + [op])
  {
    BatchNext(s.clock, s.replica, Vis(Flat(s.tree)), v, m, x, x + [op]);
  }

  lemma {:induction false} RoundOps(s: State, v: nat, n: nat)
    requires WF(s) && v + n <= NumVis(Flat(s.tree))
    ensures OpsAre(s, v, n, DeleteOps(s, v, n))
  {
    if n == 0 {
      BatchNone(s.clock, s.replica, Vis(Flat(s.tree)), v, n);
    } else {
      var m := n - 1;
      RoundOps(s, v, m);
      RoundTarget(s, v, m);
      var op := DeleteOp(DeleteRounds(s, v, m), v);
      NextOp(s, v, n, op);
      OpsNext(s, v, m, n, DeleteOps(s, v, m), op);
    }
  }

  function Min(a: int, b: int): int {
    if a < b then a else b
  }

  /** `t` is `s` without its visible nodes `lo..hi`; `ops` is what a batch frame of their identifiers expands to. */
  ghost predicate Deleted(s: State, lo: nat, hi: nat, t: State, ops: seq<Op>) {
    && Erased(Flat(s.tree), Flat(t.tree), lo, hi, s.clock, s.replica)
    && ops == Batch(s.clock, s.replica, Ids(Vis(Flat(s.tree))[lo..hi]))
    && Text(t.tree) == Text(s.tree)[..lo] + Text(s.tree)[hi..]
  }

  lemma RoundsDelete(s: State, v: nat, n: nat)
    requires WF(s) && v + n <= NumVis(Flat(s.tree))
    ensures Deleted(s, v, v + n, DeleteRounds(s, v, n), DeleteOps(s, v, n))
  {
    hide DeleteRounds, DeleteOps, WF;
    RoundsErase(s, v, n);
    RoundOps(s, v, n);
    ErasedText(Flat(s.tree), Flat(DeleteRounds(s, v, n).tree), v, v + n, s.clock, s.replica);
  }

  /** Rounds past the end of the document do nothing. */
  lemma RoundsClamped(s: State, v: nat, n: nat)
    requires WF(s) && v < NumVis(Flat(s.tree))
    ensures
      var k := Min(n, NumVis(Flat(s.tree)) - v);
      DeleteRounds(s, v, n) == DeleteRounds(s, v, k) && DeleteOps(s, v, n) == DeleteOps(s, v, k)
  {
    hide DeleteRounds, DeleteOps, WF;
    var k := Min(n, NumVis(Flat(s.tree)) - v);
    RoundsErase(s, v, k);
    if k < n { DeleteRoundsStop(s, v, k, n); }
  }

  /**
   * Erasing `count` from visible position `v` tombstones exactly the visible nodes from `v` on,
   * clamped at the end, and returns what one batch frame of their identifiers expands to; out of
   * range it only forgets the redo history.
   */
  lemma LocalDeleteErases(s: State, v: int, count: int)
    requires WF(s)
    ensures !InRange(s, v) || count <= 0 ==> LocalDelete(s, v, count) == (ClearRedo(s), [])
    ensures InRange(s, v) && count > 0 ==>
      Deleted(s, v, v + Min(count, NumVis(Flat(s.tree)) - v), LocalDelete(s, v, count).0, LocalDelete(s, v, count).1)
  {
    hide Deleted, DeleteRounds, DeleteOps;
    var s0 := ClearRedo(s);
    NoRounds(s0, v);
    if !InRange(s, v) {
      DeleteRoundsStop(s0, v, 0, if count < 0 then 0 else count);
    } else if count > 0 {
      RoundsClamped(s0, v, count);
      RoundsDelete(s0, v, Min(count, NumVis(Flat(s.tree)) - v));
      DeletedFrom(s0, s, v, v + Min(count, NumVis(Flat(s.tree)) - v), LocalDelete(s, v, count).0,
        LocalDelete(s, v, count).1);
    }
  }

  lemma NoRounds(s: State, v: int)
    requires WF(s)
    ensures DeleteRounds(s, v, 0) == s && DeleteOps(s, v, 0) == []
  {
  }

  lemma DeletedFrom(s: State, s': State, lo: nat, hi: nat, t: State, ops: seq<Op>)
    requires Deleted(s, lo, hi, t, ops) && s.tree == s'.tree && s.clock == s'.clock && s.replica == s'.replica
    ensures Deleted(s', lo, hi, t, ops)
  {
  }

  lemma ErasedText(ns: seq<Node>, ms: seq<Node>, lo: nat, hi: nat, c: nat, r: nat)
    requires Erased(ns, ms, lo, hi, c, r)
    ensures Values(Vis(ms)) == Values(Vis(ns))[..lo] + Values(Vis(ns))[hi..]
  {
  }

  // ------------------------------------------------------------------ typing

  /** Typing `values` one by one at `v`, `v + 1`, ...: the state and the operations minted. */
  function TypeOne(s: State, v: nat, value: nat, bind: bool): (t: State)
    requires WF(s) && v <= NumVis(Flat(s.tree))
    ensures WF(t) && NumVis(Flat(t.tree)) == NumVis(Flat(s.tree)) + 1
  {
    InsertLands(s, v, value, bind);
    LocalInsert(s, v, value, bind).value
  }

  function TypeRun(s: State, v: nat, values: seq<nat>, bind: bool): (t: State)
    requires WF(s) && v <= NumVis(Flat(s.tree))
    ensures WF(t) && NumVis(Flat(t.tree)) == NumVis(Flat(s.tree)) + |values|
    decreases |values|
  {
    if values == [] then s
    else
      var n := |values| - 1;
      TypeOne(TypeRun(s, v, values[..n], bind), v + n, values[n], bind)
  }

  /** The operations those inserts mint. */
  function RunOps(s: State, v: nat, values: seq<nat>, bind: bool): seq<Op>
    requires WF(s) && v <= NumVis(Flat(s.tree))
    decreases |values|
  {
    if values == [] then []
    else
      var n := |values| - 1;
      RunOps(s, v, values[..n], bind) + [InsertOp(TypeRun(s, v, values[..n], bind), v + n, values[n], bind)]
  }

  function RunFrom(op: Op, values: seq<nat>): InsertRun
    requires op.Insert?
  {
    InsertRun(op.id, op.parent, op.side, op.bind, values)
  }

  /** The last character typed sits at visible position `at`, with nothing to its right yet. */
  ghost predicate Typed(u: State, last: Id, at: nat) {
    && WF(u) && at < NumVis(Flat(u.tree)) && Vis(Flat(u.tree))[at].id == last
    && Some(last) in Keys(u.tree) && Find(u.tree, Some(last)).right.Empty?
    && NextId(u) == Id(last.c + 1, last.r)
  }

  lemma TypedAfter(u: State, v: nat, value: nat, bind: bool)
    requires WF(u) && v <= NumVis(Flat(u.tree)) && (v > 0 || NumVis(Flat(u.tree.left)) == 0)
    ensures Typed(TypeOne(u, v, value, bind), NextId(u), v)
  {
    InsertSplices(u, v, value, bind);
    var n := NewNode(InsertOp(u, v, value, bind));
    PlacementPresent(u.tree, LeftOrigin(u.tree, v));
    FindNew(u.tree, n);
  }

  lemma TypedNext(u: State, last: Id, at: nat, value: nat, bind: bool)
    requires at > 0 && Typed(u, last, at - 1)
    ensures InsertOp(u, at, value, bind) == Insert(Id(last.c + 1, last.r), value, Some(last), R, bind)
    ensures Typed(TypeOne(u, at, value, bind), Id(last.c + 1, last.r), at)
  {
    TypedAfter(u, at, value, bind);
  }

  lemma ChainOne(s: State, v: nat, value: nat, bind: bool)
    requires WF(s) && v <= NumVis(Flat(s.tree))
    ensures TypeRun(s, v, [value], bind) == TypeOne(s, v, value, bind)
    ensures RunOps(s, v, [value], bind) == [InsertOp(s, v, value, bind)]
  {
    assert [value][..0] == [];
  }

  lemma TypeRunMore(s: State, v: nat, values: seq<nat>, bind: bool, n: nat)
    requires WF(s) && v <= NumVis(Flat(s.tree)) && n == |values| - 1
    ensures TypeRun(s, v, values, bind) == TypeOne(TypeRun(s, v, values[..n], bind), v + n, values[n], bind)
  {
    hide TypeOne, WF;
  }

  lemma RunOpsMore(s: State, v: nat, values: seq<nat>, bind: bool, n: nat)
    requires WF(s) && v <= NumVis(Flat(s.tree)) && n == |values| - 1
    ensures RunOps(s, v, values, bind)
         == RunOps(s, v, values[..n], bind) + [InsertOp(TypeRun(s, v, values[..n], bind), v + n, values[n], bind)]
  {
    hide TypeRun, InsertOp, WF;
  }

  lemma TypedMore(s: State, v: nat, values: seq<nat>, bind: bool, n: nat)
    requires WF(s) && v <= NumVis(Flat(s.tree)) && 0 < n == |values| - 1
    requires Typed(TypeRun(s, v, values[..n], bind), Id(s.clock + n, s.replica), v + n - 1)
    ensures Typed(TypeRun(s, v, values, bind), Id(s.clock + |values|, s.replica), v + |values| - 1)
  {
    hide Typed, WF, TypeOne, TypeRun, Flat, Vis;
    TypeRunMore(s, v, values, bind, n);
    TypedNext(TypeRun(s, v, values[..n], bind), Id(s.clock + n, s.replica), v + n, values[n], bind);
  }

  lemma TypedStarts(s: State, v: nat, values: seq<nat>, bind: bool)
    requires WF(s) && v <= NumVis(Flat(s.tree)) && (v > 0 || NumVis(Flat(s.tree.left)) == 0) && |values| == 1
    ensures Typed(TypeRun(s, v, values, bind), Id(s.clock + 1, s.replica), v)
  {
    hide Typed, TypeOne;
    assert values == [values[0]];
    ChainOne(s, v, values[0], bind);
    TypedAfter(s, v, values[0], bind);
  }

  /** After every character the next one has an empty place to hang on. */
  lemma {:induction false} TypedRun(s: State, v: nat, values: seq<nat>, bind: bool)
    requires WF(s) && v <= NumVis(Flat(s.tree)) && (v > 0 || NumVis(Flat(s.tree.left)) == 0) && values != []
    ensures Typed(TypeRun(s, v, values, bind), Id(s.clock + |values|, s.replica), v + |values| - 1)
    decreases |values|
  {
    hide Typed, TypeOne, TypeRun;
    var n := |values| - 1;
    if n == 0 {
      TypedStarts(s, v, values, bind);
    } else {
      TypedRun(s, v, values[..n], bind);
      TypedMore(s, v, values, bind, n);
    }
  }

  lemma LastOfRun(s: State, v: nat, values: seq<nat>, bind: bool)
    requires WF(s) && v <= NumVis(Flat(s.tree)) && (v > 0 || NumVis(Flat(s.tree.left)) == 0) && |values| >= 2
    ensures var n := |values| - 1;
            InsertOp(TypeRun(s, v, values[..n], bind), v + n, values[n], bind)
              == RunOp(RunFrom(InsertOp(s, v, values[0], bind), values), n)
  {
    hide Typed, WF, TypeOne, TypeRun, RunOps, Flat, Vis, LeftOrigin, PlacementAt;
    var n := |values| - 1;
    TypedRun(s, v, values[..n], bind);
    TypedNext(TypeRun(s, v, values[..n], bind), Id(s.clock + n, s.replica), v + n, values[n], bind);
  }

  lemma ChainGrows(s: State, v: nat, values: seq<nat>, bind: bool, n: nat, op: Op, ops: seq<Op>)
    requires WF(s) && v <= NumVis(Flat(s.tree)) && (v > 0 || NumVis(Flat(s.tree.left)) == 0) && 0 < n == |values| - 1
    requires op == InsertOp(s, v, values[0], bind) && ops == RunOps(s, v, values[..n], bind)
    requires ops == Expanded(RunFrom(op, values[..n]))
    ensures RunOps(s, v, values, bind) == Expanded(RunFrom(op, values))
  {
    hide Expanded, WF, TypeOne, TypeRun, LandingIndex, Flat, Vis, RunOps;
    RunOpsMore(s, v, values, bind, n);
    LastOfRun(s, v, values, bind);
    ExpandedNext(op, values, n, ops, InsertOp(TypeRun(s, v, values[..n], bind), v + n, values[n], bind));
  }

  /** Every character after the first hangs on the right of the one before it. */
  lemma {:induction false} RunChains(s: State, v: nat, values: seq<nat>, bind: bool)
    requires WF(s) && v <= NumVis(Flat(s.tree)) && (v > 0 || NumVis(Flat(s.tree.left)) == 0) && values != []
    ensures RunOps(s, v, values, bind) == Expanded(RunFrom(InsertOp(s, v, values[0], bind), values))
    decreases |values|
  {
    hide Expanded, RunFrom, TypeOne, TypeRun, LandingIndex, RunOps, InsertOp;
    var n := |values| - 1;
    if n == 0 {
      ChainStarts(s, v, values, bind);
    } else {
      RunChains(s, v, values[..n], bind);
      ChainGrows(s, v, values, bind, n, InsertOp(s, v, values[0], bind), RunOps(s, v, values[..n], bind));
    }
  }

  lemma ChainStarts(s: State, v: nat, values: seq<nat>, bind: bool)
    requires WF(s) && v <= NumVis(Flat(s.tree)) && |values| == 1
    ensures RunOps(s, v, values, bind) == Expanded(RunFrom(InsertOp(s, v, values[0], bind), values))
  {
    assert values == [values[0]];
    ChainOne(s, v, values[0], bind);
    ExpandedOne(InsertOp(s, v, values[0], bind), values);
  }

  lemma ExpandedOne(op: Op, values: seq<nat>)
    requires op.Insert? && |values| == 1 && op.value == values[0]
    ensures Expanded(RunFrom(op, values)) == [op]
  {
  }

  lemma ExpandedNext(op: Op, values: seq<nat>, n: nat, ops: seq<Op>, last: Op)
    requires op.Insert? && 0 < n == |values| - 1 && ops == Expanded(RunFrom(op, values[..n]))
    requires last == RunOp(RunFrom(op, values), n)
    ensures ops + [last] == Expanded(RunFrom(op, values))
  {
  }

  lemma {:induction false} RunOpsStart(s: State, v: nat, values: seq<nat>, bind: bool)
    requires WF(s) && v <= NumVis(Flat(s.tree)) && |values| >= 2
    ensures RunOps(s, v, values[..2], bind) <= RunOps(s, v, values, bind)
    decreases |values|
  {
    hide TypeOne, TypeRun, Unique;
    if |values| == 2 {
      assert values[..2] == values;
    } else {
      var init := values[..|values| - 1];
      assert init[..2] == values[..2];
      RunOpsStart(s, v, init, bind);
    }
  }

  lemma TwoOps(s: State, a: nat, b: nat, bind: bool)
    requires WF(s)
    ensures RunOps(s, 0, [a, b], bind) == [InsertOp(s, 0, a, bind), InsertOp(TypeOne(s, 0, a, bind), 1, b, bind)]
  {
    hide TypeOne, Unique, InsertOp;
    ChainOne(s, 0, a, bind);
    assert [a, b][..1] == [a];
  }

  /** At the start, behind something visible, the second character does not hang on the first. */
  lemma OneTyped(s: State, v: nat, value: nat, bind: bool)
    requires WF(s) && v <= NumVis(Flat(s.tree))
    ensures LocalInsert(s, v, value, bind) == Some(TypeOne(s, v, value, bind))
  {
    InsertLands(s, v, value, bind);
  }

  lemma SecondElsewhere(s: State, a: nat, b: nat, bind: bool)
    requires WF(s) && NumVis(Flat(s.tree.left)) > 0
    ensures
      var op := InsertOp(TypeOne(s, 0, a, bind), 1, b, bind);
      !(op.parent == Some(NextId(s)) && op.side == R)
  {
    hide TypeOne, LocalInsert;
    InsertLands(s, 0, a, bind);
    OneTyped(s, 0, a, bind);
    var u := TypeOne(s, 0, a, bind);
    VisInFlat(Flat(s.tree), 0);
    DocKeys(s.tree);
    assert Vis(Flat(u.tree))[0] == Vis(Flat(s.tree))[0];
    assert NextId(s) !in s.applied;
  }

  lemma FirstTwo<T>(q: seq<T>)
    requires |q| >= 2
    ensures q[..2] == [q[0], q[1]]
  {
  }

  lemma SecondOp(s: State, values: seq<nat>, bind: bool)
    requires WF(s) && |values| >= 2
    ensures |RunOps(s, 0, values, bind)| >= 2
    ensures RunOps(s, 0, values, bind)[1] == InsertOp(TypeOne(s, 0, values[0], bind), 1, values[1], bind)
  {
    RunOpsStart(s, 0, values, bind);
    FirstTwo(values);
    TwoOps(s, values[0], values[1], bind);
  }

  lemma RunBreaks(s: State, values: seq<nat>, bind: bool)
    requires WF(s) && NumVis(Flat(s.tree.left)) > 0 && |values| >= 2
    ensures RunOps(s, 0, values, bind) != Expanded(RunFrom(InsertOp(s, 0, values[0], bind), values))
  {
    SecondOp(s, values, bind);
    SecondElsewhere(s, values[0], values[1], bind);
    SecondOfRun(RunOps(s, 0, values, bind), InsertOp(s, 0, values[0], bind), values);
  }

  lemma SecondOfRun(ops: seq<Op>, op: Op, values: seq<nat>)
    requires op.Insert? && |values| >= 2 && |ops| >= 2 && ops[1].Insert?
    requires !(ops[1].parent == Some(op.id) && ops[1].side == R)
    ensures ops != Expanded(RunFrom(op, values))
  {
    assert Expanded(RunFrom(op, values))[1] == RunOp(RunFrom(op, values), 1);
  }

  /**
   * A typed burst is its run frame, expanded, exactly unless a burst of two or more starts the
   * document behind something visible on the left of the root.
   */
  lemma RunExpands(s: State, v: nat, values: seq<nat>, bind: bool)
    requires WF(s) && v <= NumVis(Flat(s.tree)) && values != []
    ensures RunOps(s, v, values, bind) == Expanded(RunFrom(InsertOp(s, v, values[0], bind), values))
       <==> |values| == 1 || v > 0 || NumVis(Flat(s.tree.left)) == 0
  {
    hide Expanded, RunFrom, TypeOne, TypeRun, RunOps, InsertOp;
    if v > 0 || NumVis(Flat(s.tree.left)) == 0 {
      RunChains(s, v, values, bind);
    } else if |values| == 1 {
      ChainStarts(s, v, values, bind);
    } else {
      RunBreaks(s, values, bind);
    }
  }
}
