/** Garbage collection: which tombstones a complete sweep removes, and what is left. */
module Collection {
  import opened Identifiers
  import opened Operations
  import opened FugueShape
  import opened FugueTrees
  import opened EngineState

  datatype Options = Options(nowMs: int, maxAgeMs: int, maxOpsPerReplica: int)

  /** Highest counter seen from the deleting replica. */
  function SeenCounter(s: State, who: Id): nat {
    if who.r in s.maxCounter then s.maxCounter[who.r] else who.c
  }

  /** Deleted, causally stable, and past the undo horizon. */
  predicate IsCandidate(s: State, frontier: nat, o: Options, n: Node) {
    && n.deleted && n.deletedBy.Some? && n.deletedBy.value in s.deleteContext
    && s.deleteContext[n.deletedBy.value].seqno <= frontier
    && (o.nowMs - s.deleteContext[n.deletedBy.value].atMs >= o.maxAgeMs
        || SeenCounter(s, n.deletedBy.value) - n.deletedBy.value.c >= o.maxOpsPerReplica)
  }

  function Candidates(s: State, frontier: nat, o: Options): set<Key> {
    CandidatesAmong(s, frontier, o, Flat(s.tree))
  }

  function CandidatesAmong(s: State, frontier: nat, o: Options, nodes: seq<Node>): set<Key> {
    set n | n in nodes && IsCandidate(s, frontier, o, n) :: Some(n.id)
  }

  lemma CandidatesNext(s: State, frontier: nat, o: Options, nodes: seq<Node>, i: nat)
    requires i < |nodes|
    ensures CandidatesAmong(s, frontier, o, nodes[..0]) == {} && nodes[..|nodes|] == nodes
    ensures CandidatesAmong(s, frontier, o, nodes[..i + 1])
         == CandidatesAmong(s, frontier, o, nodes[..i])
            + if IsCandidate(s, frontier, o, nodes[i]) then {Some(nodes[i].id)} else {}
  {
    hide IsCandidate;
    assert nodes[..i + 1] == nodes[..i] + [nodes[i]];
  }

  /** Parents that a surviving node still refers to. */
  function Anchored(nodes: seq<Node>, c: set<Key>): set<Key> {
    set n | n in nodes && Some(n.id) !in c && n.parent.Some? :: n.parent
  }

  /** Drops anchored members until none is left. */
  function Sweep(nodes: seq<Node>, c: set<Key>): (r: set<Key>)
    ensures r <= c
    decreases |c|
  {
    var c' := c - Anchored(nodes, c);
    if c' == c then c else
      SmallerSet(c', c);
      Sweep(nodes, c')
  }

  /** What is left after `i` passes of the sweep. */
  function Passes(nodes: seq<Node>, c: set<Key>, i: nat): (r: set<Key>)
    ensures r <= c
  {
    if i == 0 then c else Passes(nodes, c, i - 1) - Anchored(nodes, Passes(nodes, c, i - 1))
  }

  /** The budget ran out right after a pass that still dropped something. */
  ghost predicate CutShort(nodes: seq<Node>, c: set<Key>, expired: nat -> bool) {
    exists i: nat :: CutAfter(nodes, c, expired, i)
  }

  ghost predicate CutAfter(nodes: seq<Node>, c: set<Key>, expired: nat -> bool, i: nat) {
    && expired(i) && (forall j: nat :: j < i ==> !expired(j))
    && Passes(nodes, c, i + 1) != Passes(nodes, c, i)
  }

  /** Once a pass drops nothing, no later one does. */
  lemma {:induction false} PassesStay(nodes: seq<Node>, c: set<Key>, i: nat, j: nat)
    requires i <= j && Passes(nodes, c, i + 1) == Passes(nodes, c, i)
    ensures Passes(nodes, c, j) == Passes(nodes, c, i)
    decreases j
  {
    if i < j {
      PassesStay(nodes, c, i, j - 1);
    }
  }

  lemma PassNext(nodes: seq<Node>, c: set<Key>, i: nat)
    ensures Passes(nodes, c, 0) == c
    ensures Passes(nodes, c, i + 1) == Passes(nodes, c, i) - Anchored(nodes, Passes(nodes, c, i))
  {
  }

  /** A pass leads to the same end of the sweep, and is its end if it drops nothing. */
  lemma SweepNext(nodes: seq<Node>, c: set<Key>)
    ensures Sweep(nodes, c - Anchored(nodes, c)) == Sweep(nodes, c)
    ensures c - Anchored(nodes, c) == c ==> Sweep(nodes, c) == c
  {
  }

  lemma CutHere(nodes: seq<Node>, c: set<Key>, expired: nat -> bool, i: nat)
    requires CutAfter(nodes, c, expired, i)
    ensures CutShort(nodes, c, expired)
  {
  }

  lemma NotCutShort(nodes: seq<Node>, c: set<Key>, expired: nat -> bool, pass: nat)
    requires Passes(nodes, c, pass + 1) == Passes(nodes, c, pass)
    requires forall j: nat :: j < pass ==> !expired(j)
    ensures !CutShort(nodes, c, expired)
  {
    forall i: nat ensures !CutAfter(nodes, c, expired, i) {
      if i >= pass {
        PassesStay(nodes, c, pass, i);
        PassesStay(nodes, c, pass, i + 1);
      }
    }
  }

  lemma SmallerSet<T>(a: set<T>, b: set<T>)
    requires a < b
    ensures |a| < |b|
  {
    assert b == a + (b - a);
    assert b - a != {};
  }

  /** With every member, all its children. */
  predicate ChildClosed(nodes: seq<Node>, c: set<Key>) {
    forall n :: n in nodes && n.parent.Some? && n.parent in c ==> Some(n.id) in c
  }

  /** The sweep keeps exactly the greatest subset closed under children. */
  lemma {:induction false} SweepGreatest(nodes: seq<Node>, c: set<Key>)
    ensures Sweep(nodes, c) <= c && ChildClosed(nodes, Sweep(nodes, c))
    ensures forall x: set<Key> :: x <= c && ChildClosed(nodes, x) ==> x <= Sweep(nodes, c)
    decreases |c|
  {
    var a := Anchored(nodes, c);
    var c' := c - a;
    if c' == c {
      forall n | n in nodes && n.parent.Some? && n.parent in c ensures Some(n.id) in c {
        assert n.parent !in a;
        assert Some(n.id) in c || n.parent in a;
      }
    } else {
      SmallerSet(c', c);
      SweepGreatest(nodes, c');
      forall x: set<Key> | x <= c && ChildClosed(nodes, x) ensures x <= c' {
        forall k | k in x ensures k in c' { }
      }
    }
  }

  function Attributions(nodes: seq<Node>, c: set<Key>): set<Id> {
    set n | n in nodes && Some(n.id) in c && n.deletedBy.Some? :: n.deletedBy.value
  }

  /** The state after a complete collection that removes `c`. */
  function Collected(s: State, c: set<Key>): State {
    s.(tree := Prune(s.tree, c), deleteContext := s.deleteContext - Attributions(Flat(s.tree), c))
  }

  function Collect(s: State, frontier: nat, o: Options): State {
    Collected(s, Sweep(Flat(s.tree), Candidates(s, frontier, o)))
  }

  // ------------------------------------------------------------------ closed sets and the tree

  lemma {:induction false} ClosedBelowIfChildClosed(f: Forest, p: Key, s: Side, nodes: seq<Node>, c: set<Key>)
    requires Placed(f, p, s) && ChildClosed(nodes, c) && (forall n :: n in Flat(f) ==> n in nodes)
    ensures ClosedBelow(f, c)
    ensures p in c && p.Some? ==> Keys(f) <= c
  {
    if f.Trees? {
      assert f.top.value in f.Self();
      ClosedBelowIfChildClosed(f.left, f.TopKey(), L, nodes, c);
      ClosedBelowIfChildClosed(f.right, f.TopKey(), R, nodes, c);
      ClosedBelowIfChildClosed(f.rest, p, s, nodes, c);
    }
  }

  lemma ClosedDoc(d: Forest, c: set<Key>)
    requires IsDoc(d) && ChildClosed(Flat(d), c) && None !in c
    ensures ClosedBelow(d, c) && IsDoc(Prune(d, c)) && Keys(Prune(d, c)) == Keys(d) - c
    ensures Flat(Prune(d, c)) == Without(Flat(d), c)
  {
    ClosedBelowIfChildClosed(d.left, None, L, Flat(d), c);
    ClosedBelowIfChildClosed(d.right, None, R, Flat(d), c);
    PruneDoc(d, c);
    FlatPrune(d, c);
  }

  lemma {:induction false} WithoutMembers(ns: seq<Node>, c: set<Key>)
    ensures forall n :: n in Without(ns, c) <==> n in ns && Some(n.id) !in c
  {
    if ns != [] { WithoutMembers(ns[1..], c); }
  }

  lemma {:induction false} WithoutVisible(ns: seq<Node>, c: set<Key>)
    requires forall n :: n in ns && Some(n.id) in c ==> n.deleted
    ensures Vis(Without(ns, c)) == Vis(ns)
  {
    if ns != [] {
      WithoutVisible(ns[1..], c);
      var head := if Some(ns[0].id) in c then [] else [ns[0]];
      VisConcat(head, Without(ns[1..], c));
      assert Vis([ns[0]]) == if ns[0].deleted then [] else [ns[0]];
    }
  }

  lemma {:induction false} PruneTwice(f: Forest, c1: set<Key>, c2: set<Key>)
    ensures Prune(Prune(f, c1), c2) == Prune(f, c1 + c2)
  {
    if f.Trees? {
      PruneTwice(f.left, c1, c2);
      PruneTwice(f.right, c1, c2);
      PruneTwice(f.rest, c1, c2);
    }
  }

  /** What a collection leaves: the candidates that go, the survivors, their order and the text. */
  lemma CollectKeeps(s: State, frontier: nat, o: Options)
    requires WF(s)
    ensures
      var c := Sweep(Flat(s.tree), Candidates(s, frontier, o));
      && Flat(Collect(s, frontier, o).tree) == Without(Flat(s.tree), c)
      && Text(Collect(s, frontier, o).tree) == Text(s.tree)
      && (forall n :: n in Flat(s.tree) && Some(n.id) !in c && n.parent.Some? ==> n.parent !in c)
    ensures WF(Collect(s, frontier, o))
  {
    var c0 := Candidates(s, frontier, o);
    var c := Sweep(Flat(s.tree), c0);
    SweepGreatest(Flat(s.tree), c0);
    ClosedDoc(s.tree, c);
    NodesUnique(s.tree);
    forall n | n in Flat(s.tree) && Some(n.id) in c ensures n.deleted {
      assert Some(n.id) in c0;
    }
    WithoutVisible(Flat(s.tree), c);
  }

  // ------------------------------------------------------------------ node identity

  /** In a document, an identifier names one node. */
  lemma NodesUnique(d: Forest)
    requires IsDoc(d)
    ensures forall n, m :: n in Flat(d) && m in Flat(d) && n.id == m.id ==> n == m
  {
    NodesFound(d.left, None, L);
    NodesFound(d.right, None, R);
    FlatKeys(d.left, None, L);
    FlatKeys(d.right, None, R);
  }

  lemma {:induction false} NodesFound(f: Forest, p: Key, s: Side)
    requires Unique(f) && Placed(f, p, s)
    ensures forall n :: n in Flat(f) ==> Some(n.id) in Keys(f) && Find(f, Some(n.id)).top == Some(n)
  {
    if f.Trees? {
      NodesFound(f.left, f.TopKey(), L);
      NodesFound(f.right, f.TopKey(), R);
      NodesFound(f.rest, p, s);
      forall n | n in Flat(f) ensures Some(n.id) in Keys(f) && Find(f, Some(n.id)).top == Some(n) {
        FlatMembers(f, n);
        OnlyHere(f, Some(n.id));
      }
    }
  }

  lemma DocNode(d: Forest, n: Node)
    requires IsDoc(d) && n in Flat(d)
    ensures Some(n.id) in Keys(d) && NodeAt(d, n.id) == n
  {
    NodesFound(d.left, None, L);
    NodesFound(d.right, None, R);
  }

  lemma DocNodeBack(d: Forest, id: Id)
    requires IsDoc(d) && Some(id) in Keys(d)
    ensures NodeAt(d, id) in Flat(d) && NodeAt(d, id).id == id
  {
    DocFind(d, Some(id));
    FlatContext(d, Some(id));
    var t := Find(d, Some(id));
    assert t.top.value in t.Self();
    assert t.top.value in Flat(t);
  }

  // ------------------------------------------------------------------ composition

  /** No delete is recorded on two nodes. */
  predicate DistinctAttributions(nodes: seq<Node>) {
    forall n, m :: n in nodes && m in nodes && n.deletedBy.Some? && n.deletedBy == m.deletedBy ==> n.id == m.id
  }

  lemma CandidatesMonotone(s: State, f1: nat, o1: Options, f2: nat, o2: Options)
    requires f1 <= f2 && o1.nowMs <= o2.nowMs && o1.maxAgeMs == o2.maxAgeMs
      && o1.maxOpsPerReplica == o2.maxOpsPerReplica
    ensures Candidates(s, f1, o1) <= Candidates(s, f2, o2)
  {
    forall n | n in Flat(s.tree) && IsCandidate(s, f1, o1, n) ensures IsCandidate(s, f2, o2, n) { }
  }

  /** The later candidates are the same but for the nodes already gone. */
  lemma CandidatesAfter(s: State, c: set<Key>, f2: nat, o2: Options)
    requires WF(s) && ChildClosed(Flat(s.tree), c) && None !in c && DistinctAttributions(Flat(s.tree))
    ensures Candidates(Collected(s, c), f2, o2) == Candidates(s, f2, o2) - c
  {
    var t := Collected(s, c);
    ClosedDoc(s.tree, c);
    WithoutMembers(Flat(s.tree), c);
    NodesUnique(s.tree);
    forall n | n in Flat(t.tree) ensures IsCandidate(t, f2, o2, n) <==> IsCandidate(s, f2, o2, n) {
      assert forall m :: m in Flat(s.tree) && Some(m.id) in c && m.deletedBy.Some? ==> m.deletedBy != n.deletedBy;
    }
  }

  /** Sweeping what an earlier sweep left. */
  lemma SweepAfterSweep(nodes: seq<Node>, k1: set<Key>, k2: set<Key>)
    requires k1 <= k2
    ensures Sweep(nodes, k1) <= Sweep(nodes, k2)
    ensures Sweep(Without(nodes, Sweep(nodes, k1)), k2 - Sweep(nodes, k1)) == Sweep(nodes, k2) - Sweep(nodes, k1)
  {
    var c1, c2 := Sweep(nodes, k1), Sweep(nodes, k2);
    SweepGreatest(nodes, k1);
    SweepGreatest(nodes, k2);
    var rest := Without(nodes, c1);
    WithoutMembers(nodes, c1);
    SweepGreatest(rest, k2 - c1);
    var d := Sweep(rest, k2 - c1);
    assert ChildClosed(rest, c2 - c1);
    assert c2 - c1 <= d;
    assert ChildClosed(nodes, d + c1);
    assert d + c1 <= c2;
  }

  /** Collecting a closed set and then more is collecting both. */
  lemma CollectedTwice(s: State, c1: set<Key>, c2: set<Key>)
    requires ClosedBelow(s.tree, c1) && None !in c1 && c1 <= c2
    ensures Collected(Collected(s, c1), c2 - c1) == Collected(s, c2)
  {
    FlatPrune(s.tree, c1);
    PruneTwice(s.tree, c1, c2 - c1);
    assert c1 + (c2 - c1) == c2;
    AttributionsSplit(Flat(s.tree), c1, c2);
  }

  /** Collecting at one frontier and time and again at a later one is collecting once at the later. */
  lemma CollectComposes(s: State, f1: nat, o1: Options, f2: nat, o2: Options)
    requires WF(s) && DistinctAttributions(Flat(s.tree))
    requires f1 <= f2 && o1.nowMs <= o2.nowMs && o1.maxAgeMs == o2.maxAgeMs
      && o1.maxOpsPerReplica == o2.maxOpsPerReplica
    ensures Collect(Collect(s, f1, o1), f2, o2) == Collect(s, f2, o2)
  {
    var nodes := Flat(s.tree);
    var k1, k2 := Candidates(s, f1, o1), Candidates(s, f2, o2);
    CandidatesMonotone(s, f1, o1, f2, o2);
    SweepAfterSweep(nodes, k1, k2);
    var c1, c2 := Sweep(nodes, k1), Sweep(nodes, k2);
    SweepGreatest(nodes, k1);
    CandidatesAfter(s, c1, f2, o2);
    ClosedDoc(s.tree, c1);
    CollectedTwice(s, c1, c2);
  }

  lemma AttributionsSplit(nodes: seq<Node>, c1: set<Key>, c2: set<Key>)
    requires c1 <= c2
    ensures Attributions(nodes, c1) + Attributions(Without(nodes, c1), c2 - c1) == Attributions(nodes, c2)
  {
    WithoutMembers(nodes, c1);
  }

  // ------------------------------------------------------------------ leaves first

  /** `c` may be removed from `s`: present, deleted nodes only, and closed under children. */
  ghost predicate Removable(s: State, c: set<Key>) {
    && WF(s) && ChildClosed(Flat(s.tree), c)
    && forall k :: k in c ==> k.Some? && k in Keys(s.tree)
  }

  /** Part of `c` is gone, `remaining` is not, and what is gone is itself closed. */
  ghost predicate Removing(s: State, c: set<Key>, remaining: set<Key>, now: State) {
    && Removable(s, c) && remaining <= c && ChildClosed(Flat(s.tree), c - remaining)
    && now == Collected(s, c - remaining)
  }

  predicate HasChildIn(nodes: seq<Node>, remaining: set<Key>, k: Key) {
    exists n :: n in nodes && n.parent == k && Some(n.id) in remaining
  }

  lemma SweepRemovable(s: State, frontier: nat, o: Options)
    requires WF(s)
    ensures Removable(s, Sweep(Flat(s.tree), Candidates(s, frontier, o)))
  {
    SweepGreatest(Flat(s.tree), Candidates(s, frontier, o));
    DocKeys(s.tree);
  }

  lemma CollectedNothing(s: State)
    ensures Collected(s, {}) == s
  {
    PruneAbsent(s.tree, {});
    assert Attributions(Flat(s.tree), {}) == {};
  }

  lemma RemovingStarts(s: State, c: set<Key>)
    requires Removable(s, c)
    ensures Removing(s, c, c, s)
  {
    assert c - c == {};
    CollectedNothing(s);
  }

  /** In a document, a node hanging from `k` is below `k`. */
  lemma ChildBelow(d: Forest, n: Node)
    requires IsDoc(d) && n in Flat(d)
    ensures n.parent in Keys(d) && Some(n.id) in Keys(Find(d, n.parent)) && n.parent != Some(n.id)
  {
    DocNode(d, n);
    DocInSiblings(d, Some(n.id));
    var kids := Find(d, n.parent).Kids(n.side);
    var i :| 0 <= i < |Heads(kids)| && Heads(kids)[i] == Some(n.id);
    KidAt(d, n.parent, n.side, i);
    FindWithin(d, Some(n.id));
    FindWithin(d, n.parent);
  }

  lemma KidInFlat(d: Forest, k: Key, s: Side) returns (n: Node)
    requires IsDoc(d) && k in Keys(d) && Find(d, k).Kids(s).Trees?
    ensures n in Flat(d) && n.parent == k
  {
    KidAt(d, k, s, 0);
    var h := Heads(Find(d, k).Kids(s))[0];
    n := Find(d, h).top.value;
    DocNodeBack(d, n.id);
  }

  lemma NoKids(d: Forest, k: Key)
    requires IsDoc(d) && k in Keys(d) && forall n :: n in Flat(d) ==> n.parent != k
    ensures Find(d, k).left.Empty? && Find(d, k).right.Empty?
  {
    if Find(d, k).left.Trees? { var n := KidInFlat(d, k, L); }
    if Find(d, k).right.Trees? { var n := KidInFlat(d, k, R); }
  }

  /** A remaining node without remaining children is a leaf of the current tree. */
  lemma RemovingLeaf(s: State, c: set<Key>, remaining: set<Key>, now: State, k: Key)
    requires Removing(s, c, remaining, now) && k in remaining && !HasChildIn(Flat(s.tree), remaining, k)
    ensures IsDoc(now.tree) && k in Keys(now.tree) && Find(now.tree, k).left.Empty? && Find(now.tree, k).right.Empty?
  {
    ClosedDoc(s.tree, c - remaining);
    WithoutMembers(Flat(s.tree), c - remaining);
    assert forall n :: n in Flat(s.tree) && n.parent == k ==> Some(n.id) in c && Some(n.id) !in remaining;
    NoKids(now.tree, k);
  }

  /** Removing that leaf, and its deletion's context, keeps the shape of the process. */
  lemma RemovingStep(s: State, c: set<Key>, remaining: set<Key>, now: State, k: Key)
    requires Removing(s, c, remaining, now) && k in remaining && !HasChildIn(Flat(s.tree), remaining, k)
    ensures IsDoc(now.tree) && k in Keys(now.tree) && Find(now.tree, k).top.Some?
    ensures
      var who := Find(now.tree, k).top.value.deletedBy;
      Removing(s, c, remaining - {k},
               now.(tree := Prune(now.tree, {k}),
                    deleteContext := now.deleteContext - if who.Some? then {who.value} else {}))
  {
    RemovingLeaf(s, c, remaining, now, k);
    var r := c - remaining;
    DocFind(now.tree, k);
    var n := Find(now.tree, k).top.value;
    SurvivorNode(s, r, k.value);
    assert c - (remaining - {k}) == r + {k};
    PruneTwice(s.tree, r, {k});
    AttributionsOne(Flat(s.tree), r, n);
    ClosedStep(Flat(s.tree), c, remaining, k);
  }

  lemma ClosedStep(nodes: seq<Node>, c: set<Key>, remaining: set<Key>, k: Key)
    requires ChildClosed(nodes, c) && ChildClosed(nodes, c - remaining) && k in remaining && remaining <= c
    requires !HasChildIn(nodes, remaining, k)
    ensures ChildClosed(nodes, c - (remaining - {k}))
  {
    forall m | m in nodes && m.parent.Some? && m.parent in c - (remaining - {k})
      ensures Some(m.id) in c - (remaining - {k})
    {
      assert m.parent == k ==> Some(m.id) !in remaining;
    }
  }

  /** A surviving node is unchanged. */
  lemma SurvivorNode(s: State, r: set<Key>, id: Id)
    requires WF(s) && ChildClosed(Flat(s.tree), r) && None !in r
    ensures IsDoc(Prune(s.tree, r))
    ensures Some(id) in Keys(Prune(s.tree, r)) ==>
      var n := NodeAt(Prune(s.tree, r), id);
      n in Flat(s.tree) && n.id == id && Some(id) !in r && forall m :: m in Flat(s.tree) && m.id == id ==> m == n
  {
    ClosedDoc(s.tree, r);
    if Some(id) in Keys(Prune(s.tree, r)) {
      DocNodeBack(Prune(s.tree, r), id);
      WithoutMembers(Flat(s.tree), r);
      NodesUnique(s.tree);
    }
  }

  lemma AttributionsOne(nodes: seq<Node>, r: set<Key>, n: Node)
    requires n in nodes && forall m :: m in nodes && m.id == n.id ==> m == n
    ensures Attributions(nodes, r + {Some(n.id)})
         == Attributions(nodes, r) + if n.deletedBy.Some? then {n.deletedBy.value} else {}
  {
  }

  lemma {:induction false} LowestOf(f: Forest, r: set<Key>) returns (k: Key)
    requires Unique(f) && Keys(f) * r != {}
    ensures k in Keys(f) * r && Keys(Find(f, k)) * r == {k}
  {
    if Keys(f.left) * r != {} { k := LowestOf(f.left, r); }
    else if Keys(f.right) * r != {} { k := LowestOf(f.right, r); }
    else if f.TopKey() in r { k := f.TopKey(); }
    else { k := LowestOf(f.rest, r); }
  }

  /** Some remaining node has no remaining child. */
  lemma SomeLeafRemains(s: State, c: set<Key>, remaining: set<Key>) returns (k: Key)
    requires Removable(s, c) && remaining <= c && remaining != {}
    ensures k in remaining && !HasChildIn(Flat(s.tree), remaining, k)
  {
    var x :| x in remaining;
    assert x in Keys(s.tree) * remaining;
    k := LowestOf(s.tree, remaining);
    forall n | n in Flat(s.tree) && n.parent == k ensures Some(n.id) !in remaining {
      ChildBelow(s.tree, n);
      assert Some(n.id) !in Keys(Find(s.tree, k)) * remaining;
    }
  }
}
