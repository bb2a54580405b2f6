/** Local edits on the materialised document: plain sequence edits, but for one case at the start. */
module LocalEdits {
  import opened Identifiers
  import opened Operations
  import opened FugueShape
  import opened FugueTrees
  import opened EngineState

  // ------------------------------------------------------------------ positions are unambiguous

  predicate Distinct(ns: seq<Node>) {
    forall i, j :: 0 <= i < j < |ns| ==> ns[i].id != ns[j].id
  }

  predicate Among(ns: seq<Node>, ks: set<Key>) {
    forall n :: n in ns ==> Some(n.id) in ks
  }

  lemma DistinctConcat(a: seq<Node>, ka: set<Key>, b: seq<Node>, kb: set<Key>)
    requires Distinct(a) && Among(a, ka) && Distinct(b) && Among(b, kb) && ka !! kb
    ensures Distinct(a + b) && Among(a + b, ka + kb)
  {
    forall i, j | 0 <= i < j < |a + b| ensures (a + b)[i].id != (a + b)[j].id {
      if i < |a| && j >= |a| { assert (a + b)[i] in a && (a + b)[j] in b; }
    }
  }

  /** The nodes of a well-placed forest carry distinct identifiers. */
  lemma {:induction false} FlatDistinct(f: Forest, p: Key, s: Side)
    requires Unique(f) && Placed(f, p, s)
    ensures Distinct(Flat(f)) && Among(Flat(f), Keys(f))
  {
    if f.Trees? {
      FlatDistinct(f.left, f.TopKey(), L);
      FlatDistinct(f.right, f.TopKey(), R);
      FlatDistinct(f.rest, p, s);
      FlatDistinctHere(f);
    }
  }

  lemma FlatDistinctHere(f: Forest)
    requires f.Trees? && Unique(f)
    requires Distinct(Flat(f.left)) && Among(Flat(f.left), Keys(f.left))
    requires Distinct(Flat(f.right)) && Among(Flat(f.right), Keys(f.right))
    requires Distinct(Flat(f.rest)) && Among(Flat(f.rest), Keys(f.rest))
    ensures Distinct(Flat(f)) && Among(Flat(f), Keys(f))
  {
    var l, r, t := Flat(f.left), Flat(f.right), Flat(f.rest);
    var kl, kr, kt := Keys(f.left), Keys(f.right), Keys(f.rest);
    DistinctConcat(l, kl, f.Self(), {f.TopKey()});
    DistinctConcat(l + f.Self(), kl + {f.TopKey()}, r, kr);
    DistinctConcat(l + f.Self() + r, kl + {f.TopKey()} + kr, t, kt);
    assert kl + {f.TopKey()} + kr + kt == Keys(f);
  }

  lemma DocDistinct(d: Forest)
    requires IsDoc(d)
    ensures Distinct(Flat(d))
  {
    FlatDistinct(d.left, None, L);
    FlatDistinct(d.right, None, R);
    assert Flat(d.rest) == [];
    FlatDistinctHere(d);
  }

  lemma {:induction false} VisDistinct(ns: seq<Node>)
    requires Distinct(ns)
    ensures Distinct(Vis(ns))
  {
    if ns != [] {
      var tail := ns[1..];
      VisDistinct(tail);
      forall j | 0 <= j < NumVis(tail) ensures Vis(tail)[j].id != ns[0].id {
        VisInFlat(tail, j);
      }
    }
  }

  lemma VisAround(before: seq<Node>, n: Node, after: seq<Node>)
    requires !n.deleted
    ensures Vis(before + [n]) == Vis(before) + [n] && Vis(before + [n] + after) == Vis(before) + [n] + Vis(after)
  {
    VisOne(n);
    VisConcat3(before, [n], after);
    VisConcat(before, [n]);
  }

  lemma SameNode(ns: seq<Node>, n: Node, at: nat)
    requires Distinct(ns) && n in ns && at < |ns| && ns[at].id == n.id
    ensures ns[at] == n
  {
    var i :| 0 <= i < |ns| && ns[i] == n;
    assert i == at;
  }

  /** Around a visible node of a list without repetitions. */
  lemma VisibleAt(before: seq<Node>, n: Node, after: seq<Node>, i: nat)
    requires Distinct(before + [n] + after) && !n.deleted
    requires i < NumVis(before + [n] + after) && Vis(before + [n] + after)[i].id == n.id
    ensures NumVis(before) == i
  {
    VisAround(before, n, after);
    VisDistinct(before + [n] + after);
    assert (Vis(before) + [n] + Vis(after))[NumVis(before)] == n;
  }

  /** The visible prefix of a prefix that ends with the visible node at `i`. */
  lemma VisiblePrefix(ns: seq<Node>, cut: nat, i: nat)
    requires Distinct(ns) && 0 < cut <= |ns| && i < NumVis(ns) && ns[cut - 1].id == Vis(ns)[i].id
    ensures Vis(ns[..cut]) == Vis(ns)[..i + 1] && Vis(ns[cut..]) == Vis(ns)[i + 1..]
  {
    hide Vis, Distinct;
    var n := Vis(ns)[i];
    VisInFlat(ns, i);
    SameNode(ns, n, cut - 1);
    var before, after := ns[..cut - 1], ns[cut..];
    assert ns == before + [n] + after && ns[..cut] == before + [n];
    VisibleAt(before, n, after, i);
    VisAround(before, n, after);
    CutJoined(Vis(before), n, Vis(after), i);
  }

  lemma CutJoined<T>(a: seq<T>, x: T, b: seq<T>, i: nat)
    requires i == |a|
    ensures (a + [x] + b)[..i + 1] == a + [x] && (a + [x] + b)[i + 1..] == b
  {
  }

  // ------------------------------------------------------------------ where an insert lands

  /** Looking for `j` from `k` down. */
  lemma {:induction false} BeforeSub(f: Forest, k: Key, j: Key)
    requires Unique(f) && k in Keys(f) && j in Keys(Find(f, k))
    ensures j in Keys(f) && Before(f, j) == Before(f, k) + Before(Find(f, k), j)
  {
    FindWithin(f, k);
    if f.TopKey() == k {
      assert Before(f, k) == [];
      if j != k && j !in Keys(f.left) { }
    } else {
      FindKeysWithin(f, k);
      if k in Keys(f.left) {
        BeforeSub(f.left, k, j);
      } else if k in Keys(f.right) {
        BeforeSub(f.right, k, j);
        RegroupPrefix(Flat(f.left) + f.Self(), Before(f.right, k), Before(Find(f, k), j));
      } else {
        BeforeSub(f.rest, k, j);
        RegroupPrefix(Flat(f.left) + f.Self() + Flat(f.right), Before(f.rest, k), Before(Find(f, k), j));
      }
    }
  }

  /** Nothing of a sibling list precedes its leftmost node. */
  lemma {:induction false} BeforeLeftmost(f: Forest, p: Key, s: Side)
    requires f.Trees? && Unique(f) && Placed(f, p, s)
    ensures Leftmost(f).Some? && Some(Leftmost(f).value.id) in Keys(f) && Before(f, Some(Leftmost(f).value.id)) == []
  {
    if f.left.Trees? { BeforeLeftmost(f.left, f.TopKey(), L); }
  }

  lemma FlatAlone(t: Forest)
    requires t.Trees? && t.rest.Empty?
    ensures Flat(t) == Flat(t.left) + t.Self() + Flat(t.right)
  {
  }

  /** A new leaf with no sibling on its side becomes the whole list. */
  lemma AttachOnly(t: Forest, n: Node)
    requires t.Trees? && Unique(t) && t.rest.Empty? && t.TopKey() == n.parent && t.Kids(n.side).Empty?
    ensures Attach(t, n) == if n.side == L then t.(left := Leaf(n)) else t.(right := Leaf(n))
    ensures Flat(Leaf(n)) == [n]
  {
    AttachCases(t, n);
    LeafFlat(n);
  }

  lemma AttachRight(d: Forest, n: Node)
    requires IsDoc(d) && n.parent in Keys(d) && Find(d, n.parent).right.Empty? && n.side == R
    ensures Flat(Attach(d, n)) == UpTo(d, n.parent) + [n] + After(d, n.parent)
    ensures Flat(d) == UpTo(d, n.parent) + After(d, n.parent)
  {
    FlatAttach(d, n);
    FlatContext(d, n.parent);
    DocFind(d, n.parent);
    var t := Find(d, n.parent);
    AttachOnly(t, n);
    FlatAlone(t);
    FlatAlone(t.(right := Leaf(n)));
    AroundRight(Before(d, n.parent), Flat(t.left), t.Self(), [n], After(d, n.parent));
  }

  lemma AroundRight<T>(b: seq<T>, l: seq<T>, s: seq<T>, x: seq<T>, a: seq<T>)
    ensures b + (l + s + x) + a == (b + l + s) + x + a && b + (l + s + []) + a == (b + l + s) + a
  {
  }

  lemma AttachLeft(d: Forest, n: Node) returns (rest: seq<Node>)
    requires IsDoc(d) && n.parent in Keys(d) && Find(d, n.parent).left.Empty? && n.side == L
    ensures Flat(Attach(d, n)) == Before(d, n.parent) + [n] + rest && Flat(d) == Before(d, n.parent) + rest
  {
    FlatAttach(d, n);
    FlatContext(d, n.parent);
    DocFind(d, n.parent);
    var t := Find(d, n.parent);
    AttachOnly(t, n);
    FlatAlone(t);
    FlatAlone(t.(left := Leaf(n)));
    rest := t.Self() + Flat(t.right) + After(d, n.parent);
    AroundLeft(Before(d, n.parent), [n], t.Self(), Flat(t.right), After(d, n.parent));
  }

  lemma AroundLeft<T>(b: seq<T>, l: seq<T>, s: seq<T>, r: seq<T>, a: seq<T>)
    ensures b + (l + s + r) + a == b + l + (s + r + a) && b + ([] + s + r) + a == b + (s + r + a)
  {
  }

  /** Wherever a placement hangs the new node, it directly follows its left origin, tombstones included. */
  lemma LandsAfterOrigin(d: Forest, k: Key, n: Node)
    requires IsDoc(d) && k in Keys(d) && n.parent == PlacementAt(d, k).parent && n.side == PlacementAt(d, k).side
    ensures |UpTo(d, k)| <= |Flat(d)| && Flat(d)[..|UpTo(d, k)|] == UpTo(d, k)
    ensures Flat(Attach(d, n)) == SeqInsert(Flat(d), |UpTo(d, k)|, n)
  {
    PlacementPresent(d, k);
    DocFind(d, k);
    if Find(d, k).right.Empty? {
      AttachRight(d, n);
    } else {
      BeforeRightOrigin(d, k);
      var rest := AttachLeft(d, n);
    }
  }

  /** What precedes the leftmost node on the right of `k` is what ends with `k`. */
  lemma BeforeRightOrigin(d: Forest, k: Key)
    requires IsDoc(d) && k in Keys(d) && Find(d, k).right.Trees?
    ensures Leftmost(Find(d, k).right).Some? && Some(Leftmost(Find(d, k).right).value.id) in Keys(d)
    ensures Before(d, Some(Leftmost(Find(d, k).right).value.id)) == UpTo(d, k)
  {
    var t := Find(d, k);
    DocFind(d, k);
    BeforeLeftmost(t.right, k, R);
    var m := Some(Leftmost(t.right).value.id);
    BeforeSub(d, k, m);
    assert Before(t, m) == Flat(t.left) + t.Self() + [];
    RegroupPrefix(Before(d, k), Flat(t.left), t.Self());
  }

  // ------------------------------------------------------------------ inserting

  /** Where the new node becomes visible. */
  function LandingIndex(d: Forest, v: nat): nat
    requires d.Trees?
  {
    if v == 0 then NumVis(Flat(d.left)) else v
  }

  /** The document cut after the left origin of a position, and the visible document cut at the landing index. */
  ghost predicate CutsAt(d: Forest, cut: nat, w: nat) {
    && cut <= |Flat(d)| && w <= NumVis(Flat(d))
    && Vis(Flat(d)[..cut]) == Vis(Flat(d))[..w] && Vis(Flat(d)[cut..]) == Vis(Flat(d))[w..]
  }

  lemma CutAtStart(d: Forest)
    requires IsDoc(d)
    ensures UpTo(d, None) == Flat(d.left) && CutsAt(d, |Flat(d.left)|, NumVis(Flat(d.left)))
  {
    var l, r := Flat(d.left), Flat(d.right);
    FlatAlone(d);
    assert Flat(d) == l + r;
    assert (l + r)[..|l|] == l && (l + r)[|l|..] == r;
    VisConcat(l, r);
  }

  lemma CutAfter(d: Forest, i: nat)
    requires IsDoc(d) && i < NumVis(Flat(d))
    ensures Some(Vis(Flat(d))[i].id) in Keys(d) && CutsAt(d, |UpTo(d, Some(Vis(Flat(d))[i].id))|, i + 1)
  {
    VisInFlat(Flat(d), i);
    DocKeys(d);
    var k := Some(Vis(Flat(d))[i].id);
    UpToIsPrefix(d, k);
    DocDistinct(d);
    VisiblePrefix(Flat(d), |UpTo(d, k)|, i);
  }

  lemma PrefixVisible(d: Forest, v: nat)
    requires IsDoc(d) && v <= NumVis(Flat(d))
    ensures CutsAt(d, |UpTo(d, LeftOrigin(d, v))|, LandingIndex(d, v))
  {
    if v == 0 { CutAtStart(d); } else { CutAfter(d, v - 1); }
  }

  /** The nodes and the visible nodes after a local insert. */
  lemma InsertLands(s: State, v: nat, value: nat, bind: bool)
    requires WF(s) && v <= NumVis(Flat(s.tree))
    ensures
      var t, n := LocalInsert(s, v, value, bind), NewNode(InsertOp(s, v, value, bind));
      var cut, w := |UpTo(s.tree, LeftOrigin(s.tree, v))|, LandingIndex(s.tree, v);
      && t.Some? && cut <= |Flat(s.tree)| && Flat(t.value.tree) == SeqInsert(Flat(s.tree), cut, n)
      && w <= NumVis(Flat(s.tree)) && Vis(Flat(t.value.tree)) == SeqInsert(Vis(Flat(s.tree)), w, n)
  {
    var n := NewNode(InsertOp(s, v, value, bind));
    LandsAfterOrigin(s.tree, LeftOrigin(s.tree, v), n);
    PrefixVisible(s.tree, v);
    SeqInsertVisible(Flat(s.tree), |UpTo(s.tree, LeftOrigin(s.tree, v))|, n);
    VisOne(n);
  }

  lemma SpliceText(vis: seq<Node>, w: nat, n: Node)
    requires w <= |vis|
    ensures Values(SeqInsert(vis, w, n)) == Values(vis)[..w] + [n.value] + Values(vis)[w..]
  {
  }

  /** The text after an insert: the character is spliced in where it lands. */
  lemma InsertTextLands(s: State, v: nat, value: nat, bind: bool)
    requires WF(s) && v <= NumVis(Flat(s.tree))
    ensures LocalInsert(s, v, value, bind).Some? && LandingIndex(s.tree, v) <= |Text(s.tree)|
    ensures
      var w := LandingIndex(s.tree, v);
      Text(LocalInsert(s, v, value, bind).value.tree) == Text(s.tree)[..w] + [value] + Text(s.tree)[w..]
  {
    InsertLands(s, v, value, bind);
    SpliceText(Vis(Flat(s.tree)), LandingIndex(s.tree, v), NewNode(InsertOp(s, v, value, bind)));
  }

  /**
   * Inserting at visible position `v` splices the new node in at `v`, exactly unless `v` is the start
   * and something visible hangs on the left of the root.
   */
  lemma InsertSplices(s: State, v: nat, value: nat, bind: bool)
    requires WF(s) && v <= NumVis(Flat(s.tree))
    ensures LocalInsert(s, v, value, bind).Some?
    ensures
      var d, n := LocalInsert(s, v, value, bind).value.tree, NewNode(InsertOp(s, v, value, bind));
      Vis(Flat(d)) == SeqInsert(Vis(Flat(s.tree)), v, n) <==> v > 0 || NumVis(Flat(s.tree.left)) == 0
    ensures v > 0 || NumVis(Flat(s.tree.left)) == 0 ==>
      Text(LocalInsert(s, v, value, bind).value.tree) == Text(s.tree)[..v] + [value] + Text(s.tree)[v..]
  {
    InsertLands(s, v, value, bind);
    var n := NewNode(InsertOp(s, v, value, bind));
    var vis, w := Vis(Flat(s.tree)), LandingIndex(s.tree, v);
    SpliceText(vis, w, n);
    if w != v {
      VisInFlat(Flat(s.tree), 0);
      DocKeys(s.tree);
      assert NextId(s) !in s.applied;
      assert SeqInsert(vis, w, n)[0] == vis[0] && SeqInsert(vis, v, n)[0] == n;
      assert vis[0].id != n.id;
    }
  }

  // ------------------------------------------------------------------ erasing

  lemma FlagAllPrefix(ns: seq<Node>, k: Key, deleted: bool, who: Option<Id>)
    requires forall n :: n in ns ==> Some(n.id) != k
    ensures FlagAll(ns, k, deleted, who) == ns
  {
    forall i | 0 <= i < |ns| ensures FlagAll(ns, k, deleted, who)[i] == ns[i] { assert ns[i] in ns; }
  }

  /** Flagging one node changes that node only. */
  lemma FlagOne(before: seq<Node>, n: Node, after: seq<Node>, who: Option<Id>)
    requires Distinct(before + [n] + after)
    ensures FlagAll(before + [n] + after, Some(n.id), true, who)
         == before + [n.(deleted := true, deletedBy := who)] + after
  {
    var ns, k := before + [n] + after, Some(n.id);
    assert forall i :: 0 <= i < |before| ==> ns[i] == before[i];
    assert ns[|before|] == n;
    assert forall i :: 0 <= i < |after| ==> ns[|before| + 1 + i] == after[i];
    FlagAllConcat(before + [n], after, k, true, who);
    FlagAllConcat(before, [n], k, true, who);
    FlagAllPrefix(before, k, true, who);
    FlagAllPrefix(after, k, true, who);
    assert FlagAll([n], k, true, who) == [n.(deleted := true, deletedBy := who)];
  }

  lemma VisSkip(before: seq<Node>, m: Node, after: seq<Node>)
    requires m.deleted
    ensures Vis(before + [m] + after) == Vis(before) + Vis(after)
  {
    VisConcat3(before, [m], after);
    VisOne(m);
    DropEmpty(Vis(before), Vis([m]), Vis(after));
  }

  lemma DropEmpty<T>(a: seq<T>, e: seq<T>, b: seq<T>)
    requires e == []
    ensures a + e + b == a + b
  {
  }

  lemma OneMore<T>(a: seq<T>, x: T, t: seq<T>, v: nat)
    requires v < |t| && a + [x] == t[..v + 1]
    ensures a == t[..v]
  {
    assert a == (a + [x])[..v];
  }

  lemma VisAt(ns: seq<Node>, v: nat) returns (at: nat)
    requires Distinct(ns) && v < NumVis(ns)
    ensures at < |ns| && ns[at] == Vis(ns)[v] && ns == ns[..at] + [ns[at]] + ns[at + 1..]
    ensures Vis(ns[..at]) == Vis(ns)[..v] && Vis(ns[at + 1..]) == Vis(ns)[v + 1..]
  {
    hide Vis, Distinct;
    VisInFlat(ns, v);
    at :| 0 <= at < |ns| && ns[at] == Vis(ns)[v];
    VisiblePrefix(ns, at + 1, v);
    assert ns[..at + 1] == ns[..at] + [ns[at]];
    VisAround(ns[..at], ns[at], []);
    OneMore(Vis(ns[..at]), ns[at], Vis(ns), v);
  }

  /** Flagging the visible node at `v` takes it, and nothing else, out of the visible document. */
  lemma VisErase(ns: seq<Node>, v: nat, who: Option<Id>)
    requires Distinct(ns) && v < NumVis(ns)
    ensures Vis(FlagAll(ns, Some(Vis(ns)[v].id), true, who)) == Vis(ns)[..v] + Vis(ns)[v + 1..]
  {
    var at := VisAt(ns, v);
    var n := ns[at];
    FlagOne(ns[..at], n, ns[at + 1..], who);
    VisSkip(ns[..at], n.(deleted := true, deletedBy := who), ns[at + 1..]);
  }

  /**
   * From `ns` to `ms` exactly the visible nodes `lo..hi` became tombstones, attributed to deletes by
   * replica `r` with the counters after `c`.
   */
  ghost predicate Erased(ns: seq<Node>, ms: seq<Node>, lo: nat, hi: nat, c: nat, r: nat) {
    && lo <= hi <= NumVis(ns) && |ms| == |ns|
    && Vis(ms) == Vis(ns)[..lo] + Vis(ns)[hi..]
    && forall i :: 0 <= i < |ns| ==> ms[i] == ErasedNode(ns, ns[i], lo, hi, c, r)
  }

  function ErasedNode(ns: seq<Node>, n: Node, lo: nat, hi: nat, c: nat, r: nat): Node
    requires lo <= hi <= NumVis(ns)
  {
    if hi == lo then n
    else if Vis(ns)[hi - 1].id == n.id then
      n.(deleted := true, deletedBy := Some(MaxWins(n.deletedBy, Id(c + hi - lo, r))))
    else ErasedNode(ns, n, lo, hi - 1, c, r)
  }

  lemma {:induction false} NotErased(ns: seq<Node>, n: Node, lo: nat, hi: nat, c: nat, r: nat)
    requires lo <= hi <= NumVis(ns) && forall j :: lo <= j < hi ==> Vis(ns)[j].id != n.id
    ensures ErasedNode(ns, n, lo, hi, c, r) == n
  {
    if hi > lo { NotErased(ns, n, lo, hi - 1, c, r); }
  }

  lemma {:induction false} ErasedKeepsId(ns: seq<Node>, n: Node, lo: nat, hi: nat, c: nat, r: nat)
    requires lo <= hi <= NumVis(ns)
    ensures ErasedNode(ns, n, lo, hi, c, r).Origin() == n.Origin()
  {
    if hi > lo { ErasedKeepsId(ns, n, lo, hi - 1, c, r); }
  }

  lemma ErasedDistinct(ns: seq<Node>, ms: seq<Node>, lo: nat, hi: nat, c: nat, r: nat)
    requires Distinct(ns) && Erased(ns, ms, lo, hi, c, r)
    ensures Distinct(ms) && forall i :: 0 <= i < |ns| ==> ms[i].id == ns[i].id
  {
    forall i | 0 <= i < |ns| ensures ms[i].id == ns[i].id {
      ErasedKeepsId(ns, ns[i], lo, hi, c, r);
      assert ms[i].Origin().id == ns[i].Origin().id;
    }
  }

  lemma EraseStepVis(ns: seq<Node>, ms: seq<Node>, lo: nat, hi: nat, who: Option<Id>)
    requires Distinct(ms) && lo <= hi < NumVis(ns) && Vis(ms) == Vis(ns)[..lo] + Vis(ns)[hi..]
    ensures Vis(FlagAll(ms, Some(Vis(ns)[hi].id), true, who)) == Vis(ns)[..lo] + Vis(ns)[hi + 1..]
  {
    assert Vis(ms)[lo] == Vis(ns)[hi];
    VisErase(ms, lo, who);
  }

  lemma EraseStepNode(ns: seq<Node>, i: nat, lo: nat, hi: nat, c: nat, r: nat)
    requires Distinct(ns) && lo <= hi < NumVis(ns) && i < |ns|
    ensures
      var n := Vis(ns)[hi];
      ErasedNode(ns, ns[i], lo, hi + 1, c, r)
        == Flagged(Some(ErasedNode(ns, ns[i], lo, hi, c, r)), Some(n.id), true,
                   Some(MaxWins(n.deletedBy, Id(c + 1 + hi - lo, r)))).value
  {
    var n := Vis(ns)[hi];
    ErasedKeepsId(ns, ns[i], lo, hi, c, r);
    if ns[i].id == n.id {
      VisInFlat(ns, hi);
      SameNode(ns, n, i);
      VisDistinct(ns);
      NotErased(ns, ns[i], lo, hi, c, r);
    }
  }

  lemma EraseStep(ns: seq<Node>, ms: seq<Node>, lo: nat, hi: nat, c: nat, r: nat)
    requires Distinct(ns) && Erased(ns, ms, lo, hi, c, r) && hi < NumVis(ns)
    ensures
      var n := Vis(ns)[hi];
      Erased(ns, FlagAll(ms, Some(n.id), true, Some(MaxWins(n.deletedBy, Id(c + 1 + hi - lo, r)))), lo, hi + 1, c, r)
  {
    var n := Vis(ns)[hi];
    ErasedDistinct(ns, ms, lo, hi, c, r);
    EraseStepVis(ns, ms, lo, hi, Some(MaxWins(n.deletedBy, Id(c + 1 + hi - lo, r))));
    forall i | 0 <= i < |ns| { EraseStepNode(ns, i, lo, hi, c, r); }
  }
}
