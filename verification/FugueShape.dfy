/**
 * The Fugue tree as an inductive value.  A forest is a list of sibling trees in sibling order
 * (first tree, then `rest`); a document is one tree whose top is the root sentinel (`None`).
 */
module FugueShape {
  import opened Identifiers
  import opened Operations

  datatype Forest =
    | Empty
    | Trees(top: Option<Node>, left: Forest, right: Forest, rest: Forest)
  {
    function TopKey(): Key
      requires Trees?
    {
      if top.None? then None else Some(top.value.id)
    }

    /** The first tree without its right siblings. */
    function Alone(): Forest
      requires Trees?
    {
      this.(rest := Empty)
    }

    /** The top node as it appears in the document order; the root sentinel does not. */
    function Self(): seq<Node>
      requires Trees?
    {
      if top.None? then [] else [top.value]
    }

    function Kids(s: Side): Forest
      requires Trees?
    {
      if s == L then left else right
    }
  }

  function Leaf(n: Node): Forest {
    Trees(Some(n), Empty, Empty, Empty)
  }

  const EmptyDoc: Forest := Trees(None, Empty, Empty, Empty)

  /** In-order traversal: left children, self, right children. */
  function Flat(f: Forest): seq<Node> {
    if f.Empty? then [] else Flat(f.left) + f.Self() + Flat(f.right) + Flat(f.rest)
  }

  function Keys(f: Forest): set<Key> {
    if f.Empty? then {} else {f.TopKey()} + Keys(f.left) + Keys(f.right) + Keys(f.rest)
  }

  /** The identifiers of the sibling trees, in sibling order. */
  function Heads(f: Forest): seq<Key> {
    if f.Empty? then [] else [f.TopKey()] + Heads(f.rest)
  }

  predicate Apart(a: set<Key>, b: set<Key>) {
    forall k {:trigger k in a, k in b} :: !(k in a && k in b)
  }

  /** No key occurs twice. */
  predicate Unique(f: Forest) {
    f.Trees? ==>
      && f.TopKey() !in Keys(f.left) && f.TopKey() !in Keys(f.right) && f.TopKey() !in Keys(f.rest)
      && Apart(Keys(f.left), Keys(f.right))
      && Apart(Keys(f.left), Keys(f.rest))
      && Apart(Keys(f.right), Keys(f.rest))
      && Unique(f.left) && Unique(f.right) && Unique(f.rest)
  }

  /** Every node carries the parent and side of the place where it hangs. */
  predicate Placed(f: Forest, parent: Key, side: Side) {
    f.Trees? ==>
      && f.top.Some? && f.top.value.parent == parent && f.top.value.side == side
      && Placed(f.left, f.TopKey(), L) && Placed(f.right, f.TopKey(), R)
      && Placed(f.rest, parent, side)
  }

  predicate IsDoc(d: Forest) {
    && d.Trees? && d.top.None? && d.rest.Empty?
    && Unique(d) && Placed(d.left, None, L) && Placed(d.right, None, R)
  }

  /** The tree hanging at key `k`. */
  function Find(f: Forest, k: Key): (r: Forest)
    requires k in Keys(f)
    ensures r.Trees? && r.TopKey() == k && r.rest.Empty?
  {
    if f.TopKey() == k then f.Alone()
    else if k in Keys(f.left) then Find(f.left, k)
    else if k in Keys(f.right) then Find(f.right, k)
    else Find(f.rest, k)
  }

  /** What precedes the tree at `k` in the document order. */
  function Before(f: Forest, k: Key): seq<Node>
    requires k in Keys(f)
  {
    if f.TopKey() == k then []
    else if k in Keys(f.left) then Before(f.left, k)
    else if k in Keys(f.right) then Flat(f.left) + f.Self() + Before(f.right, k)
    else Flat(f.left) + f.Self() + Flat(f.right) + Before(f.rest, k)
  }

  /** What follows the tree at `k` in the document order. */
  function After(f: Forest, k: Key): seq<Node>
    requires k in Keys(f)
  {
    if f.TopKey() == k then Flat(f.rest)
    else if k in Keys(f.left) then After(f.left, k) + f.Self() + Flat(f.right) + Flat(f.rest)
    else if k in Keys(f.right) then After(f.right, k) + Flat(f.rest)
    else After(f.rest, k)
  }

  /** The keys from `k` up to the top of `f`. */
  function Ancestors(f: Forest, k: Key): set<Key>
    requires k in Keys(f)
  {
    if f.TopKey() == k then {k}
    else if k in Keys(f.left) then {f.TopKey()} + Ancestors(f.left, k)
    else if k in Keys(f.right) then {f.TopKey()} + Ancestors(f.right, k)
    else Ancestors(f.rest, k)
  }

  // ------------------------------------------------------------------ visible nodes

  function Vis(ns: seq<Node>): seq<Node> {
    if ns == [] then [] else (if ns[0].deleted then [] else [ns[0]]) + Vis(ns[1..])
  }

  function NumVis(ns: seq<Node>): nat {
    |Vis(ns)|
  }

  function Values(ns: seq<Node>): seq<nat> {
    seq(|ns|, i requires 0 <= i < |ns| => ns[i].value)
  }

  /** The materialised document. */
  function Text(f: Forest): seq<nat> {
    Values(Vis(Flat(f)))
  }

  lemma VisOne(n: Node)
    ensures Vis([n]) == if n.deleted then [] else [n]
  {
    assert [n][1..] == [];
  }

  lemma LeafFlat(n: Node)
    ensures Flat(Leaf(n)) == [n] && NumVis([n]) == if n.deleted then 0 else 1
  {
    assert Flat(Leaf(n)) == [] + [n] + [] + [];
    VisOne(n);
  }

  lemma {:induction false} VisConcat(a: seq<Node>, b: seq<Node>)
    ensures Vis(a + b) == Vis(a) + Vis(b)
  {
    if a == [] {
      assert a + b == b;
    } else {
      assert (a + b)[1..] == a[1..] + b;
      VisConcat(a[1..], b);
    }
  }

  lemma VisConcat3(a: seq<Node>, b: seq<Node>, c: seq<Node>)
    ensures Vis(a + b + c) == Vis(a) + Vis(b) + Vis(c)
  {
    VisConcat(a + b, c);
    VisConcat(a, b);
  }

  lemma VisFlat(f: Forest)
    requires f.Trees?
    ensures Vis(Flat(f)) == Vis(Flat(f.left)) + Vis(f.Self()) + Vis(Flat(f.right)) + Vis(Flat(f.rest))
  {
    VisConcat(Flat(f.left) + f.Self() + Flat(f.right), Flat(f.rest));
    VisConcat3(Flat(f.left), f.Self(), Flat(f.right));
  }

  // ------------------------------------------------------------------ updates

  /** Before the first sibling that `n` is less than, else at the end. */
  function InsertSorted(f: Forest, n: Node): Forest {
    if f.Empty? then Leaf(n)
    else if f.top.Some? && SiblingLess(n, f.top.value) then Trees(Some(n), Empty, Empty, f)
    else f.(rest := InsertSorted(f.rest, n))
  }

  /** Hangs the new leaf `n` at its parent. */
  function Attach(f: Forest, n: Node): Forest {
    if f.Empty? then Empty
    else
      var l, r := Attach(f.left, n), Attach(f.right, n);
      var here := f.TopKey() == n.parent;
      Trees(f.top,
            if here && n.side == L then InsertSorted(l, n) else l,
            if here && n.side == R then InsertSorted(r, n) else r,
            Attach(f.rest, n))
  }

  function Flagged(top: Option<Node>, k: Key, deleted: bool, who: Option<Id>): Option<Node> {
    if top.Some? && Some(top.value.id) == k
    then Some(top.value.(deleted := deleted, deletedBy := who)) else top
  }

  function SetFlags(f: Forest, k: Key, deleted: bool, who: Option<Id>): Forest {
    if f.Empty? then Empty
    else Trees(Flagged(f.top, k, deleted, who), SetFlags(f.left, k, deleted, who),
               SetFlags(f.right, k, deleted, who), SetFlags(f.rest, k, deleted, who))
  }

  /** Cuts off every tree whose top is in `c`. */
  function Prune(f: Forest, c: set<Key>): Forest {
    if f.Empty? then Empty
    else if f.TopKey() in c then Prune(f.rest, c)
    else Trees(f.top, Prune(f.left, c), Prune(f.right, c), Prune(f.rest, c))
  }

  // ------------------------------------------------------------------ finding

  lemma {:induction false} FindWithin(f: Forest, k: Key)
    requires k in Keys(f)
    ensures k in Keys(Find(f, k)) && Keys(Find(f, k)) <= Keys(f)
  {
    if f.TopKey() == k { }
    else if k in Keys(f.left) { FindWithin(f.left, k); }
    else if k in Keys(f.right) { FindWithin(f.right, k); }
    else { FindWithin(f.rest, k); }
  }

  lemma {:induction false} FindSub(f: Forest, k: Key, j: Key)
    requires Unique(f) && k in Keys(f) && j in Keys(Find(f, k))
    ensures Keys(Find(f, k)) <= Keys(f) && Find(Find(f, k), j) == Find(f, j)
  {
    if f.TopKey() == k {
      if j != k && j !in Keys(f.left) { }
    }
    else if k in Keys(f.left) { FindSub(f.left, k, j); }
    else if k in Keys(f.right) { FindSub(f.right, k, j); }
    else { FindSub(f.rest, k, j); }
  }

  lemma {:induction false} FindUnique(f: Forest, k: Key)
    requires Unique(f) && k in Keys(f)
    ensures Unique(Find(f, k))
  {
    if f.TopKey() == k { }
    else if k in Keys(f.left) { FindUnique(f.left, k); }
    else if k in Keys(f.right) { FindUnique(f.right, k); }
    else { FindUnique(f.rest, k); }
  }

  lemma {:induction false} FindPlaced(f: Forest, k: Key, p: Key, s: Side)
    requires Placed(f, p, s) && k in Keys(f)
    ensures k.Some? && Find(f, k).top.Some?
    ensures Placed(Find(f, k).left, k, L) && Placed(Find(f, k).right, k, R)
    ensures Find(f, k).top.value.parent in Keys(f) + {p}
  {
    if f.TopKey() == k { }
    else if k in Keys(f.left) { FindPlaced(f.left, k, f.TopKey(), L); }
    else if k in Keys(f.right) { FindPlaced(f.right, k, f.TopKey(), R); }
    else { FindPlaced(f.rest, k, p, s); }
  }

  lemma DocFind(d: Forest, k: Key)
    requires IsDoc(d) && k in Keys(d)
    ensures Unique(Find(d, k))
    ensures k.Some? <==> Find(d, k).top.Some?
    ensures Placed(Find(d, k).left, k, L) && Placed(Find(d, k).right, k, R)
    ensures k.Some? ==> Find(d, k).top.value.parent in Keys(d)
  {
    FindUnique(d, k);
    if k != None {
      if k in Keys(d.left) { FindPlaced(d.left, k, None, L); }
      else { FindPlaced(d.right, k, None, R); }
    }
  }

  lemma RegroupLeft<T>(b: seq<T>, m: seq<T>, a: seq<T>, s: seq<T>, r: seq<T>, t: seq<T>)
    ensures (b + m + a) + s + r + t == b + m + (a + s + r + t)
  {
  }

  lemma RegroupRight<T>(l: seq<T>, s: seq<T>, b: seq<T>, m: seq<T>, a: seq<T>, t: seq<T>)
    ensures l + s + (b + m + a) + t == (l + s + b) + m + (a + t)
  {
  }

  lemma RegroupRest<T>(p: seq<T>, b: seq<T>, m: seq<T>, a: seq<T>)
    ensures p + (b + m + a) == (p + b) + m + a
  {
  }

  /** The document order around a subtree. */
  lemma {:induction false} FlatContext(f: Forest, k: Key)
    requires k in Keys(f)
    ensures Flat(f) == Before(f, k) + Flat(Find(f, k)) + After(f, k)
  {
    if f.TopKey() == k { }
    else if k in Keys(f.left) {
      FlatContext(f.left, k);
      var b, m, a := Before(f.left, k), Flat(Find(f.left, k)), After(f.left, k);
      RegroupLeft(b, m, a, f.Self(), Flat(f.right), Flat(f.rest));
    }
    else if k in Keys(f.right) {
      FlatContext(f.right, k);
      var b, m, a := Before(f.right, k), Flat(Find(f.right, k)), After(f.right, k);
      RegroupRight(Flat(f.left), f.Self(), b, m, a, Flat(f.rest));
    }
    else {
      FlatContext(f.rest, k);
      var b, m, a := Before(f.rest, k), Flat(Find(f.rest, k)), After(f.rest, k);
      RegroupRest(Flat(f.left) + f.Self() + Flat(f.right), b, m, a);
    }
  }

  lemma FlatMembers(f: Forest, n: Node)
    requires f.Trees?
    ensures n in Flat(f) <==> n in Flat(f.left) || f.top == Some(n) || n in Flat(f.right) || n in Flat(f.rest)
  {
  }

  lemma {:induction false} FlatKeys(f: Forest, p: Key, s: Side)
    requires Placed(f, p, s)
    ensures forall k :: k in Keys(f) <==> exists n :: n in Flat(f) && k == Some(n.id)
  {
    if f.Trees? {
      FlatKeys(f.left, f.TopKey(), L);
      FlatKeys(f.right, f.TopKey(), R);
      FlatKeys(f.rest, p, s);
      FlatKeysHere(f);
    }
  }

  lemma FlatKeysHere(f: Forest)
    requires f.Trees? && f.top.Some?
    requires forall k :: k in Keys(f.left) <==> exists n :: n in Flat(f.left) && k == Some(n.id)
    requires forall k :: k in Keys(f.right) <==> exists n :: n in Flat(f.right) && k == Some(n.id)
    requires forall k :: k in Keys(f.rest) <==> exists n :: n in Flat(f.rest) && k == Some(n.id)
    ensures forall k :: k in Keys(f) <==> exists n :: n in Flat(f) && k == Some(n.id)
  {
    hide Flat;
    FlatMembers(f, f.top.value);
    forall n ensures n in Flat(f) ==> Some(n.id) in Keys(f) { FlatMembers(f, n); }
    forall k | k in Keys(f) ensures exists n :: n in Flat(f) && k == Some(n.id) {
      if k in Keys(f.left) {
        var n :| n in Flat(f.left) && k == Some(n.id);
        FlatMembers(f, n);
      } else if k in Keys(f.right) {
        var n :| n in Flat(f.right) && k == Some(n.id);
        FlatMembers(f, n);
      } else if k in Keys(f.rest) {
        var n :| n in Flat(f.rest) && k == Some(n.id);
        FlatMembers(f, n);
      }
    }
  }

  // ------------------------------------------------------------------ attaching

  function SeqInsert<T>(s: seq<T>, i: nat, x: T): seq<T>
    requires i <= |s|
  {
    s[..i] + [x] + s[i..]
  }

  lemma SeqInsertShift<T>(p: seq<T>, s: seq<T>, q: seq<T>, i: nat, x: T)
    requires i <= |s|
    ensures p + SeqInsert(s, i, x) + q == SeqInsert(p + s + q, |p| + i, x)
  {
  }

  lemma {:induction false} InsertSortedKeys(f: Forest, n: Node)
    ensures Keys(InsertSorted(f, n)) == Keys(f) + {Some(n.id)}
    ensures Placed(f, n.parent, n.side) ==> Placed(InsertSorted(f, n), n.parent, n.side)
  {
    if f.Trees? { InsertSortedKeys(f.rest, n); }
  }

  lemma {:induction false} InsertSortedUnique(f: Forest, n: Node)
    requires Unique(f) && Some(n.id) !in Keys(f)
    ensures Unique(InsertSorted(f, n))
  {
    if f.Trees? {
      InsertSortedUnique(f.rest, n);
      InsertSortedKeys(f.rest, n);
    }
  }

  lemma GainsFirst(f: Forest, n: Node)
    ensures GainsAt(f, Trees(Some(n), Empty, Empty, f), n, 0)
  {
    assert Flat(Trees(Some(n), Empty, Empty, f)) == [n] + Flat(f);
  }

  lemma {:induction false} InsertSortedSplit(f: Forest, n: Node) returns (i: nat)
    ensures GainsAt(f, InsertSorted(f, n), n, i)
  {
    if f.Empty? || (f.top.Some? && SiblingLess(n, f.top.value)) {
      i := 0;
      GainsFirst(f, n);
    } else {
      hide GainsAt, Flat;
      i := InsertSortedSplit(f.rest, n);
      GainsInRest(f, InsertSorted(f.rest, n), n, i);
      i := |Flat(f.left) + f.Self() + Flat(f.right)| + i;
    }
  }

  lemma {:induction false} AttachAbsent(f: Forest, n: Node)
    requires n.parent !in Keys(f)
    ensures Attach(f, n) == f
  {
    if f.Trees? {
      AttachAbsent(f.left, n);
      AttachAbsent(f.right, n);
      AttachAbsent(f.rest, n);
    }
  }

  /** Attaching changes one tree of a forest with unique keys. */
  lemma AttachCases(f: Forest, n: Node)
    requires Unique(f) && n.parent in Keys(f)
    ensures Attach(f, n) ==
      if f.TopKey() == n.parent then
        (if n.side == L then f.(left := InsertSorted(f.left, n)) else f.(right := InsertSorted(f.right, n)))
      else if n.parent in Keys(f.left) then f.(left := Attach(f.left, n))
      else if n.parent in Keys(f.right) then f.(right := Attach(f.right, n))
      else f.(rest := Attach(f.rest, n))
  {
    if n.parent !in Keys(f.left) { AttachAbsent(f.left, n); }
    if n.parent !in Keys(f.right) { AttachAbsent(f.right, n); }
    if n.parent !in Keys(f.rest) { AttachAbsent(f.rest, n); }
  }

  lemma {:induction false} AttachKeys(f: Forest, n: Node)
    requires Unique(f) && n.parent in Keys(f)
    ensures Keys(Attach(f, n)) == Keys(f) + {Some(n.id)}
  {
    AttachCases(f, n);
    if f.TopKey() == n.parent { InsertSortedKeys(f.Kids(n.side), n); }
    else if n.parent in Keys(f.left) { AttachKeys(f.left, n); }
    else if n.parent in Keys(f.right) { AttachKeys(f.right, n); }
    else { AttachKeys(f.rest, n); }
  }

  lemma {:induction false} AttachUnique(f: Forest, n: Node)
    requires Unique(f) && n.parent in Keys(f) && Some(n.id) !in Keys(f)
    ensures Unique(Attach(f, n))
  {
    AttachCases(f, n);
    if f.TopKey() == n.parent {
      InsertSortedKeys(f.Kids(n.side), n);
      InsertSortedUnique(f.Kids(n.side), n);
    }
    else if n.parent in Keys(f.left) { AttachKeys(f.left, n); AttachUnique(f.left, n); }
    else if n.parent in Keys(f.right) { AttachKeys(f.right, n); AttachUnique(f.right, n); }
    else { AttachKeys(f.rest, n); AttachUnique(f.rest, n); }
  }

  /** `g` is `f` with `n` inserted at position `i` of its document order. */
  ghost predicate GainsAt(f: Forest, g: Forest, n: Node, i: nat) {
    i <= |Flat(f)| && Flat(g) == SeqInsert(Flat(f), i, n)
  }

  lemma Assoc4<T>(l: seq<T>, s: seq<T>, r: seq<T>, t: seq<T>)
    ensures l + s + r + t == [] + l + (s + r + t)
  {
  }

  lemma GainsInLeft(f: Forest, g: Forest, n: Node, i: nat)
    requires f.Trees? && GainsAt(f.left, g, n, i)
    ensures GainsAt(f, f.(left := g), n, i)
  {
    var l := Flat(f.left);
    SeqInsertShift([], l, f.Self() + Flat(f.right) + Flat(f.rest), i, n);
    Assoc4(l, f.Self(), Flat(f.right), Flat(f.rest));
    Assoc4(Flat(g), f.Self(), Flat(f.right), Flat(f.rest));
  }

  lemma FlatSides(f: Forest)
    requires f.Trees?
    ensures Flat(f) == (Flat(f.left) + f.Self()) + Flat(f.right) + Flat(f.rest)
  {
  }

  lemma GainsInRight(f: Forest, g: Forest, n: Node, i: nat)
    requires f.Trees? && GainsAt(f.right, g, n, i)
    ensures GainsAt(f, f.(right := g), n, |Flat(f.left) + f.Self()| + i)
  {
    hide Flat;
    SeqInsertShift(Flat(f.left) + f.Self(), Flat(f.right), Flat(f.rest), i, n);
    FlatSides(f);
    FlatSides(f.(right := g));
  }

  lemma GainsInRest(f: Forest, g: Forest, n: Node, i: nat)
    requires f.Trees? && GainsAt(f.rest, g, n, i)
    ensures GainsAt(f, f.(rest := g), n, |Flat(f.left) + f.Self() + Flat(f.right)| + i)
  {
    var p := Flat(f.left) + f.Self() + Flat(f.right);
    SeqInsertShift(p, Flat(f.rest), [], i, n);
    assert p + Flat(f.rest) + [] == Flat(f);
    assert p + SeqInsert(Flat(f.rest), i, n) + [] == Flat(f.(rest := g));
  }

  lemma AttachHereSplit(f: Forest, n: Node) returns (i: nat)
    requires f.Trees?
    ensures
      var g := if n.side == L then f.(left := InsertSorted(f.left, n)) else f.(right := InsertSorted(f.right, n));
      GainsAt(f, g, n, i)
  {
    hide GainsAt, Flat, InsertSorted;
    i := InsertSortedSplit(f.Kids(n.side), n);
    if n.side == L {
      GainsInLeft(f, InsertSorted(f.left, n), n, i);
    } else {
      GainsInRight(f, InsertSorted(f.right, n), n, i);
      i := |Flat(f.left) + f.Self()| + i;
    }
  }

  /** The document order gains exactly the new node. */
  lemma {:induction false} AttachSplit(f: Forest, n: Node) returns (i: nat)
    requires Unique(f) && n.parent in Keys(f)
    ensures GainsAt(f, Attach(f, n), n, i)
  {
    hide GainsAt, Apart, Flat, Attach, Keys, InsertSorted;
    AttachCases(f, n);
    KeysSplit(f, n.parent);
    if n.parent == f.TopKey() {
      i := AttachHereSplit(f, n);
    } else if n.parent in Keys(f.left) {
      i := AttachSplit(f.left, n);
      GainsInLeft(f, Attach(f.left, n), n, i);
    } else if n.parent in Keys(f.right) {
      i := AttachSplit(f.right, n);
      GainsInRight(f, Attach(f.right, n), n, i);
      i := |Flat(f.left) + f.Self()| + i;
    } else {
      i := AttachSplit(f.rest, n);
      GainsInRest(f, Attach(f.rest, n), n, i);
      i := |Flat(f.left) + f.Self() + Flat(f.right)| + i;
    }
  }

  lemma SeqInsertVisible(ns: seq<Node>, i: nat, n: Node)
    requires i <= |ns|
    ensures |SeqInsert(ns, i, n)| == |ns| + 1
    ensures Vis(SeqInsert(ns, i, n)) == Vis(ns[..i]) + Vis([n]) + Vis(ns[i..])
    ensures Vis(ns) == Vis(ns[..i]) + Vis(ns[i..])
  {
    VisConcat3(ns[..i], [n], ns[i..]);
    VisConcat(ns[..i], ns[i..]);
    assert ns[..i] + ns[i..] == ns;
  }

  /** Sizes after attaching a live node. */
  lemma AttachSizes(f: Forest, n: Node)
    requires Unique(f) && !n.deleted
    ensures |Flat(Attach(f, n))| == |Flat(f)| + if n.parent in Keys(f) then 1 else 0
    ensures NumVis(Flat(Attach(f, n))) == NumVis(Flat(f)) + if n.parent in Keys(f) then 1 else 0
  {
    if n.parent in Keys(f) {
      var i := AttachSplit(f, n);
      SeqInsertVisible(Flat(f), i, n);
    } else {
      AttachAbsent(f, n);
    }
  }

  lemma {:induction false} AttachPlaced(f: Forest, n: Node, p: Key, s: Side)
    requires Placed(f, p, s)
    ensures Placed(Attach(f, n), p, s)
  {
    if f.Trees? {
      AttachPlaced(f.left, n, f.TopKey(), L);
      AttachPlaced(f.right, n, f.TopKey(), R);
      AttachPlaced(f.rest, n, p, s);
      InsertSortedKeys(Attach(f.left, n), n);
      InsertSortedKeys(Attach(f.right, n), n);
    }
  }

  lemma AttachDoc(d: Forest, n: Node)
    requires IsDoc(d) && Some(n.id) !in Keys(d) && n.parent in Keys(d)
    ensures IsDoc(Attach(d, n)) && Keys(Attach(d, n)) == Keys(d) + {Some(n.id)}
  {
    AttachKeys(d, n);
    AttachUnique(d, n);
    AttachPlaced(d.left, n, None, L);
    AttachPlaced(d.right, n, None, R);
    InsertSortedKeys(Attach(d.left, n), n);
    InsertSortedKeys(Attach(d.right, n), n);
  }

  lemma {:induction false} FindInsertSorted(f: Forest, n: Node, j: Key)
    requires Unique(f) && Some(n.id) !in Keys(f) && j in Keys(f) + {Some(n.id)}
    ensures j in Keys(InsertSorted(f, n))
    ensures Find(InsertSorted(f, n), j) == if j == Some(n.id) then Leaf(n) else Find(f, j)
  {
    InsertSortedKeys(f, n);
    if f.Trees? && !(f.top.Some? && SiblingLess(n, f.top.value)) {
      if j in Keys(f.rest) + {Some(n.id)} { FindInsertSorted(f.rest, n, j); }
    }
  }

  /** Attaching commutes with looking up: every old key keeps its place. */
  lemma {:induction false} FindAttach(f: Forest, n: Node, j: Key)
    requires Unique(f) && Some(n.id) !in Keys(f) && n.parent in Keys(f) && j in Keys(f)
    ensures j in Keys(Attach(f, n)) && Find(Attach(f, n), j) == Attach(Find(f, j), n)
    decreases f, 1
  {
    AttachCases(f, n);
    AttachKeys(f, n);
    if j == f.TopKey() {
      if j != n.parent {
        if n.parent !in Keys(f.left) + Keys(f.right) { AttachAbsent(f.Alone(), n); } else { AttachCases(f.Alone(), n); }
      } else { AttachCases(f.Alone(), n); }
    } else {
      FindAttachBelow(f, n, j);
    }
  }

  lemma {:induction false} FindAttachBelow(f: Forest, n: Node, j: Key)
    requires Unique(f) && Some(n.id) !in Keys(f) && n.parent in Keys(f) && j in Keys(f) && j != f.TopKey()
    ensures j in Keys(Attach(f, n)) && Find(Attach(f, n), j) == Attach(Find(f, j), n)
    decreases f, 0
  {
    AttachCases(f, n);
    AttachKeys(f, n);
    FindKeysWithin(f, j);
    if f.TopKey() == n.parent {
      InsertSortedKeys(f.Kids(n.side), n);
      if j in Keys(f.Kids(n.side)) { FindInsertSorted(f.Kids(n.side), n, j); }
      AttachAbsent(Find(f, j), n);
    } else if n.parent in Keys(f.left) {
      AttachKeys(f.left, n);
      if j in Keys(f.left) { FindAttach(f.left, n, j); } else { AttachAbsent(Find(f, j), n); }
    } else if n.parent in Keys(f.right) {
      AttachKeys(f.right, n);
      if j in Keys(f.right) { FindAttach(f.right, n, j); } else { AttachAbsent(Find(f, j), n); }
    } else {
      AttachKeys(f.rest, n);
      if j in Keys(f.rest) { FindAttach(f.rest, n, j); } else { AttachAbsent(Find(f, j), n); }
    }
  }

  lemma FindKeysWithin(f: Forest, j: Key)
    requires j in Keys(f) && j != f.TopKey()
    ensures Keys(Find(f, j)) <=
      if j in Keys(f.left) then Keys(f.left) else if j in Keys(f.right) then Keys(f.right) else Keys(f.rest)
  {
    if j in Keys(f.left) { FindWithin(f.left, j); }
    else if j in Keys(f.right) { FindWithin(f.right, j); }
    else { FindWithin(f.rest, j); }
  }

  lemma {:induction false} FindNew(f: Forest, n: Node)
    requires Unique(f) && Some(n.id) !in Keys(f) && n.parent in Keys(f)
    ensures Some(n.id) in Keys(Attach(f, n)) && Find(Attach(f, n), Some(n.id)) == Leaf(n)
  {
    AttachCases(f, n);
    AttachKeys(f, n);
    if n.parent == f.TopKey() {
      InsertSortedKeys(f.Kids(n.side), n);
      FindInsertSorted(f.Kids(n.side), n, Some(n.id));
    } else if n.parent in Keys(f.left) { AttachKeys(f.left, n); FindNew(f.left, n); }
    else if n.parent in Keys(f.right) { AttachKeys(f.right, n); FindNew(f.right, n); }
    else { AttachKeys(f.rest, n); FindNew(f.rest, n); }
  }

  lemma KeysSplit(f: Forest, j: Key)
    ensures j in Keys(f) <==>
      f.Trees? && (j == f.TopKey() || j in Keys(f.left) || j in Keys(f.right) || j in Keys(f.rest))
  {
  }

  lemma AloneUnique(f: Forest)
    requires Unique(f) && f.Trees?
    ensures Unique(f.Alone()) && f.TopKey() in Keys(f) && f.TopKey() in Keys(f.Alone())
  {
  }

  lemma FlatAttachHere(f: Forest, n: Node)
    requires Unique(f) && f.Trees? && n.parent == f.TopKey()
    ensures Flat(Attach(f, n)) == Flat(Attach(f.Alone(), n)) + Flat(f.rest)
  {
    hide InsertSorted, Attach, Unique, Keys;
    AloneUnique(f);
    AttachCases(f, n);
    AttachCases(f.Alone(), n);
  }

  lemma AroundLeft(f: Forest, g: Forest, k: Key, m: seq<Node>)
    requires f.Trees? && k != f.TopKey() && k in Keys(f) && k in Keys(f.left)
    requires Flat(g) == Before(f.left, k) + m + After(f.left, k)
    ensures Flat(f.(left := g)) == Before(f, k) + m + After(f, k)
  {
    hide Keys;
    RegroupLeft(Before(f.left, k), m, After(f.left, k), f.Self(), Flat(f.right), Flat(f.rest));
  }

  lemma AroundRight(f: Forest, g: Forest, k: Key, m: seq<Node>)
    requires f.Trees? && k != f.TopKey() && k in Keys(f) && k !in Keys(f.left) && k in Keys(f.right)
    requires Flat(g) == Before(f.right, k) + m + After(f.right, k)
    ensures Flat(f.(right := g)) == Before(f, k) + m + After(f, k)
  {
    hide Keys;
    RegroupRight(Flat(f.left), f.Self(), Before(f.right, k), m, After(f.right, k), Flat(f.rest));
  }

  lemma AroundRest(f: Forest, g: Forest, k: Key, m: seq<Node>)
    requires f.Trees? && k != f.TopKey() && k in Keys(f)
    requires k !in Keys(f.left) && k !in Keys(f.right) && k in Keys(f.rest)
    requires Flat(g) == Before(f.rest, k) + m + After(f.rest, k)
    ensures Flat(f.(rest := g)) == Before(f, k) + m + After(f, k)
  {
    hide Keys;
    RegroupRest(Flat(f.left) + f.Self() + Flat(f.right), Before(f.rest, k), m, After(f.rest, k));
  }

  /** The document order around an attachment. */
  lemma {:induction false} FlatAttach(f: Forest, n: Node)
    requires Unique(f) && n.parent in Keys(f)
    ensures Flat(Attach(f, n)) == Before(f, n.parent) + Flat(Attach(Find(f, n.parent), n)) + After(f, n.parent)
  {
    hide InsertSorted, Attach, Keys, Apart, Flat;
    AttachCases(f, n);
    KeysSplit(f, n.parent);
    var m := Flat(Attach(Find(f, n.parent), n));
    if n.parent == f.TopKey() {
      FlatAttachHere(f, n);
    } else if n.parent in Keys(f.left) {
      FlatAttach(f.left, n);
      AroundLeft(f, Attach(f.left, n), n.parent, m);
    } else if n.parent in Keys(f.right) {
      FlatAttach(f.right, n);
      AroundRight(f, Attach(f.right, n), n.parent, m);
    } else {
      FlatAttach(f.rest, n);
      AroundRest(f, Attach(f.rest, n), n.parent, m);
    }
  }

  // ------------------------------------------------------------------ flags

  lemma {:induction false} SetFlagsFacts(f: Forest, k: Key, deleted: bool, who: Option<Id>)
    ensures Keys(SetFlags(f, k, deleted, who)) == Keys(f)
    ensures Heads(SetFlags(f, k, deleted, who)) == Heads(f)
    ensures Unique(f) ==> Unique(SetFlags(f, k, deleted, who))
    ensures |Flat(SetFlags(f, k, deleted, who))| == |Flat(f)|
  {
    SetFlagsKeys(f, k, deleted, who);
    SetFlagsUnique(f, k, deleted, who);
  }

  lemma {:induction false} SetFlagsUnique(f: Forest, k: Key, deleted: bool, who: Option<Id>)
    ensures Unique(f) ==> Unique(SetFlags(f, k, deleted, who))
  {
    hide Keys, Apart, Flat, Heads;
    SetFlagsKeys(f, k, deleted, who);
    if f.Trees? {
      SetFlagsKeys(f.left, k, deleted, who);
      SetFlagsKeys(f.right, k, deleted, who);
      SetFlagsKeys(f.rest, k, deleted, who);
      SetFlagsUnique(f.left, k, deleted, who);
      SetFlagsUnique(f.right, k, deleted, who);
      SetFlagsUnique(f.rest, k, deleted, who);
    }
  }

  lemma {:induction false} SetFlagsKeys(f: Forest, k: Key, deleted: bool, who: Option<Id>)
    ensures Keys(SetFlags(f, k, deleted, who)) == Keys(f)
    ensures Heads(SetFlags(f, k, deleted, who)) == Heads(f)
    ensures |Flat(SetFlags(f, k, deleted, who))| == |Flat(f)|
  {
    if f.Trees? {
      SetFlagsKeys(f.left, k, deleted, who);
      SetFlagsKeys(f.right, k, deleted, who);
      SetFlagsKeys(f.rest, k, deleted, who);
    }
  }

  lemma {:induction false} SetFlagsPlaced(f: Forest, k: Key, deleted: bool, who: Option<Id>, p: Key, s: Side)
    requires Placed(f, p, s)
    ensures Placed(SetFlags(f, k, deleted, who), p, s)
  {
    if f.Trees? {
      SetFlagsPlaced(f.left, k, deleted, who, f.TopKey(), L);
      SetFlagsPlaced(f.right, k, deleted, who, f.TopKey(), R);
      SetFlagsPlaced(f.rest, k, deleted, who, p, s);
    }
  }

  lemma SetFlagsDoc(d: Forest, k: Key, deleted: bool, who: Option<Id>)
    requires IsDoc(d)
    ensures IsDoc(SetFlags(d, k, deleted, who)) && Keys(SetFlags(d, k, deleted, who)) == Keys(d)
  {
    SetFlagsFacts(d, k, deleted, who);
    SetFlagsPlaced(d.left, k, deleted, who, None, L);
    SetFlagsPlaced(d.right, k, deleted, who, None, R);
  }

  lemma {:induction false} FindSetFlags(f: Forest, k: Key, deleted: bool, who: Option<Id>, j: Key)
    requires j in Keys(f)
    ensures j in Keys(SetFlags(f, k, deleted, who))
    ensures Find(SetFlags(f, k, deleted, who), j) == SetFlags(Find(f, j), k, deleted, who)
  {
    hide Unique, Flat, Heads, Keys;
    SetFlagsFacts(f, k, deleted, who);
    KeysSplit(f, j);
    SetFlagsFacts(f.left, k, deleted, who);
    SetFlagsFacts(f.right, k, deleted, who);
    if j == f.TopKey() { }
    else if j in Keys(f.left) { FindSetFlags(f.left, k, deleted, who, j); }
    else if j in Keys(f.right) { FindSetFlags(f.right, k, deleted, who, j); }
    else { FindSetFlags(f.rest, k, deleted, who, j); }
  }

  /** The node list after a flag change: same list, the flags of `k` replaced. */
  function FlagAll(ns: seq<Node>, k: Key, deleted: bool, who: Option<Id>): seq<Node> {
    seq(|ns|, i requires 0 <= i < |ns| => Flagged(Some(ns[i]), k, deleted, who).value)
  }

  lemma FlagAllConcat(a: seq<Node>, b: seq<Node>, k: Key, deleted: bool, who: Option<Id>)
    ensures FlagAll(a + b, k, deleted, who) == FlagAll(a, k, deleted, who) + FlagAll(b, k, deleted, who)
  {
  }

  lemma {:induction false} FlatSetFlags(f: Forest, k: Key, deleted: bool, who: Option<Id>)
    ensures Flat(SetFlags(f, k, deleted, who)) == FlagAll(Flat(f), k, deleted, who)
  {
    if f.Trees? {
      FlatSetFlags(f.left, k, deleted, who);
      FlatSetFlags(f.right, k, deleted, who);
      FlatSetFlags(f.rest, k, deleted, who);
      assert SetFlags(f, k, deleted, who).Self() == FlagAll(f.Self(), k, deleted, who);
      FlagAllConcat(Flat(f.left), f.Self(), k, deleted, who);
      FlagAllConcat(Flat(f.left) + f.Self(), Flat(f.right), k, deleted, who);
      FlagAllConcat(Flat(f.left) + f.Self() + Flat(f.right), Flat(f.rest), k, deleted, who);
    }
  }

  lemma {:induction false} SetFlagsAbsent(f: Forest, k: Key, deleted: bool, who: Option<Id>)
    requires k !in Keys(f) || k == None
    ensures SetFlags(f, k, deleted, who) == f
  {
    if f.Trees? {
      SetFlagsAbsent(f.left, k, deleted, who);
      SetFlagsAbsent(f.right, k, deleted, who);
      SetFlagsAbsent(f.rest, k, deleted, who);
    }
  }

  /** How many visible nodes a flag change adds. */
  function VisibleDelta(was: bool, now: bool): int {
    if was == now then 0 else if now then -1 else 1
  }

  lemma TopVisible(top: Option<Node>, k: Key, deleted: bool, who: Option<Id>)
    ensures
      var g := Trees(Flagged(top, k, deleted, who), Empty, Empty, Empty);
      var f := Trees(top, Empty, Empty, Empty);
      NumVis(g.Self()) == NumVis(f.Self())
        + if top.Some? && Some(top.value.id) == k then VisibleDelta(top.value.deleted, deleted) else 0
  {
    if top.Some? {
      VisOne(top.value);
      VisOne(Flagged(top, k, deleted, who).value);
    }
  }

  lemma {:induction false} SetFlagsVisible(f: Forest, k: Key, deleted: bool, who: Option<Id>)
    requires Unique(f) && k in Keys(f) && Find(f, k).top.Some?
    ensures NumVis(Flat(SetFlags(f, k, deleted, who)))
         == NumVis(Flat(f)) + VisibleDelta(Find(f, k).top.value.deleted, deleted)
  {
    VisFlat(f);
    VisFlat(SetFlags(f, k, deleted, who));
    hide Flat, Vis;
    TopVisible(f.top, k, deleted, who);
    if k != f.TopKey() {
      if k in Keys(f.left) { SetFlagsVisible(f.left, k, deleted, who); }
      else { SetFlagsAbsent(f.left, k, deleted, who); }
      if k in Keys(f.right) { SetFlagsVisible(f.right, k, deleted, who); }
      else { SetFlagsAbsent(f.right, k, deleted, who); }
      if k in Keys(f.rest) { SetFlagsVisible(f.rest, k, deleted, who); }
      else { SetFlagsAbsent(f.rest, k, deleted, who); }
    } else {
      SetFlagsAbsent(f.left, k, deleted, who);
      SetFlagsAbsent(f.right, k, deleted, who);
      SetFlagsAbsent(f.rest, k, deleted, who);
    }
  }

  // ------------------------------------------------------------------ ancestors

  lemma {:induction false} AncestorsWithin(f: Forest, k: Key)
    requires k in Keys(f)
    ensures Ancestors(f, k) <= Keys(f)
  {
    if k == f.TopKey() { }
    else if k in Keys(f.left) { AncestorsWithin(f.left, k); }
    else if k in Keys(f.right) { AncestorsWithin(f.right, k); }
    else { AncestorsWithin(f.rest, k); }
  }

  lemma {:induction false} AncestorOf(f: Forest, k: Key, j: Key)
    requires Unique(f) && k in Keys(f) && j in Keys(f)
    ensures j in Ancestors(f, k) <==> k in Keys(Find(f, j))
  {
    if j != f.TopKey() { FindKeysWithin(f, j); }
    if k == f.TopKey() { }
    else if k in Keys(f.left) {
      AncestorsWithin(f.left, k);
      if j in Keys(f.left) { AncestorOf(f.left, k, j); }
    } else if k in Keys(f.right) {
      AncestorsWithin(f.right, k);
      if j in Keys(f.right) { AncestorOf(f.right, k, j); }
    } else {
      AncestorsWithin(f.rest, k);
      if j in Keys(f.rest) { AncestorOf(f.rest, k, j); }
    }
  }

  /** A key's ancestors are exactly the keys whose subtree holds it. */
  lemma AncestorsChar(f: Forest, k: Key)
    requires Unique(f) && k in Keys(f)
    ensures Ancestors(f, k) <= Keys(f)
    ensures forall j :: j in Keys(f) ==> (j in Ancestors(f, k) <==> k in Keys(Find(f, j)))
  {
    AncestorsWithin(f, k);
    forall j | j in Keys(f) { AncestorOf(f, k, j); }
  }

  /** Within one sibling list: one step up leads to the parent, or out of the list. */
  lemma {:induction false} AncestorsUp(f: Forest, k: Key, p: Key, s: Side)
    requires Unique(f) && Placed(f, p, s) && k in Keys(f) && p !in Keys(f)
    ensures k.Some? && Find(f, k).top.Some?
    ensures var q := Find(f, k).top.value.parent;
            if q == p then Ancestors(f, k) == {k}
            else q in Keys(f) && k !in Ancestors(f, q) && Ancestors(f, k) == {k} + Ancestors(f, q)
  {
    FindPlaced(f, k, p, s);
    if k == f.TopKey() { }
    else if k in Keys(f.left) { AncestorsUp(f.left, k, f.TopKey(), L); }
    else if k in Keys(f.right) { AncestorsUp(f.right, k, f.TopKey(), R); }
    else { AncestorsUp(f.rest, k, p, s); }
  }

  lemma DocAncestorsUp(d: Forest, k: Key)
    requires IsDoc(d) && k in Keys(d) && k != None
    ensures Find(d, k).top.Some?
    ensures var q := Find(d, k).top.value.parent;
            q in Keys(d) && k !in Ancestors(d, q) && Ancestors(d, k) == {k} + Ancestors(d, q)
  {
    if k in Keys(d.left) { AncestorsUp(d.left, k, None, L); }
    else { AncestorsUp(d.right, k, None, R); }
    if Find(d, k).top.value.parent != None { AncestorsChar(d, Find(d, k).top.value.parent); }
  }

  // ------------------------------------------------------------------ cutting

  /** `c` holds, with any key of `f`, everything below it. */
  predicate ClosedBelow(f: Forest, c: set<Key>) {
    f.Trees? ==>
      && (f.TopKey() in c ==> Keys(f.left) <= c && Keys(f.right) <= c)
      && ClosedBelow(f.left, c) && ClosedBelow(f.right, c) && ClosedBelow(f.rest, c)
  }

  function Without(ns: seq<Node>, c: set<Key>): seq<Node> {
    if ns == [] then [] else (if Some(ns[0].id) in c then [] else [ns[0]]) + Without(ns[1..], c)
  }

  lemma {:induction false} WithoutConcat(a: seq<Node>, b: seq<Node>, c: set<Key>)
    ensures Without(a + b, c) == Without(a, c) + Without(b, c)
  {
    if a == [] {
      assert a + b == b;
    } else {
      assert (a + b)[1..] == a[1..] + b;
      WithoutConcat(a[1..], b, c);
    }
  }

  lemma {:induction false} PruneKeys(f: Forest, c: set<Key>)
    requires ClosedBelow(f, c)
    ensures Keys(Prune(f, c)) == Keys(f) - c
    ensures Unique(f) ==> Unique(Prune(f, c))
  {
    if f.Trees? {
      PruneKeys(f.left, c);
      PruneKeys(f.right, c);
      PruneKeys(f.rest, c);
    }
  }

  lemma {:induction false} PrunePlaced(f: Forest, c: set<Key>, p: Key, s: Side)
    requires Placed(f, p, s)
    ensures Placed(Prune(f, c), p, s)
  {
    if f.Trees? {
      PrunePlaced(f.left, c, f.TopKey(), L);
      PrunePlaced(f.right, c, f.TopKey(), R);
      PrunePlaced(f.rest, c, p, s);
    }
  }

  lemma PruneDoc(d: Forest, c: set<Key>)
    requires IsDoc(d) && ClosedBelow(d, c) && None !in c
    ensures IsDoc(Prune(d, c)) && Keys(Prune(d, c)) == Keys(d) - c
  {
    PruneKeys(d, c);
    PrunePlaced(d.left, c, None, L);
    PrunePlaced(d.right, c, None, R);
  }

  lemma {:induction false} FindPrune(f: Forest, c: set<Key>, j: Key)
    requires ClosedBelow(f, c) && j in Keys(f) - c
    ensures ClosedBelow(Find(f, j), c)
    ensures j in Keys(Prune(f, c)) && Find(Prune(f, c), j) == Prune(Find(f, j), c)
  {
    PruneKeys(f, c);
    PruneKeys(f.left, c);
    PruneKeys(f.right, c);
    if f.TopKey() == j { }
    else if j in Keys(f.left) { FindPrune(f.left, c, j); }
    else if j in Keys(f.right) { FindPrune(f.right, c, j); }
    else { FindPrune(f.rest, c, j); }
  }

  lemma {:induction false} WithoutAll(f: Forest, c: set<Key>)
    requires Keys(f) <= c
    ensures Without(Flat(f), c) == []
  {
    if f.Trees? {
      WithoutAll(f.left, c);
      WithoutAll(f.right, c);
      WithoutAll(f.rest, c);
      WithoutFlat(f, c);
    }
  }

  lemma WithoutFlat(f: Forest, c: set<Key>)
    requires f.Trees?
    ensures Without(Flat(f), c)
         == Without(Flat(f.left), c) + Without(f.Self(), c) + Without(Flat(f.right), c) + Without(Flat(f.rest), c)
  {
    WithoutConcat(Flat(f.left), f.Self(), c);
    WithoutConcat(Flat(f.left) + f.Self(), Flat(f.right), c);
    WithoutConcat(Flat(f.left) + f.Self() + Flat(f.right), Flat(f.rest), c);
  }

  /** Cutting a closed set removes exactly its nodes from the document order. */
  lemma {:induction false} FlatPrune(f: Forest, c: set<Key>)
    requires ClosedBelow(f, c) && None !in c
    ensures Flat(Prune(f, c)) == Without(Flat(f), c)
  {
    if f.Trees? {
      FlatPrune(f.left, c);
      FlatPrune(f.right, c);
      FlatPrune(f.rest, c);
      WithoutFlat(f, c);
      if f.TopKey() in c {
        WithoutAll(f.left, c);
        WithoutAll(f.right, c);
        assert Without(f.Self(), c) == [];
        assert [] + [] + [] + Without(Flat(f.rest), c) == Without(Flat(f.rest), c);
      } else {
        assert Without(f.Self(), c) == f.Self();
        assert Prune(f, c).Self() == f.Self();
      }
    }
  }

  lemma {:induction false} PruneAbsent(f: Forest, c: set<Key>)
    requires Keys(f) !! c
    ensures Prune(f, c) == f
  {
    if f.Trees? {
      PruneAbsent(f.left, c);
      PruneAbsent(f.right, c);
      PruneAbsent(f.rest, c);
    }
  }

  /** Cutting one leaf. */
  /** Pruning `k` takes exactly its node away, if it is there. */
  ghost predicate Shed(f: Forest, k: Key, dead: bool) {
    && ClosedBelow(f, {k})
    && |Flat(Prune(f, {k}))| == |Flat(f)| - (if k in Keys(f) then 1 else 0)
    && NumVis(Flat(Prune(f, {k}))) == NumVis(Flat(f)) - (if k in Keys(f) && !dead then 1 else 0)
  }

  lemma ShedAbsent(f: Forest, k: Key, dead: bool)
    requires k !in Keys(f)
    ensures Shed(f, k, dead)
  {
    PruneAbsent(f, {k});
    ClosedBelowAbsent(f, {k});
  }

  lemma ShedTop(f: Forest, k: Key)
    requires Unique(f) && f.Trees? && f.TopKey() == k && k.Some? && f.left.Empty? && f.right.Empty?
    ensures Shed(f, k, f.top.value.deleted)
  {
    hide Apart;
    PruneAbsent(f.rest, {k});
    ClosedBelowAbsent(f.rest, {k});
    assert ClosedBelow(Empty, {k}) && Keys(Empty) == {};
    VisFlat(f);
    LeafFlat(f.top.value);
    assert Vis(Flat(Empty)) == [] && f.Self() == [f.top.value];
    VisOne(f.top.value);
  }

  lemma SumsUp(f: Forest)
    requires f.Trees?
    ensures |Flat(f)| == |Flat(f.left)| + |f.Self()| + |Flat(f.right)| + |Flat(f.rest)|
    ensures NumVis(Flat(f)) == NumVis(Flat(f.left)) + NumVis(f.Self()) + NumVis(Flat(f.right)) + NumVis(Flat(f.rest))
  {
    VisFlat(f);
  }

  lemma ShedBelow(f: Forest, k: Key, dead: bool)
    requires Unique(f) && f.Trees? && f.TopKey() != k && k in Keys(f)
    requires Shed(f.left, k, dead) && Shed(f.right, k, dead) && Shed(f.rest, k, dead)
    ensures Shed(f, k, dead)
  {
    hide Unique, Keys, Flat, Vis;
    var g := Prune(f, {k});
    KeysSplit(f, k);
    OnlyHere(f, k);
    SumsUp(f);
    SumsUp(g);
  }

  lemma {:induction false} ShedLeaf(f: Forest, k: Key)
    requires Unique(f) && k in Keys(f) && k.Some? && Find(f, k).left.Empty? && Find(f, k).right.Empty?
    ensures Shed(f, k, Find(f, k).top.value.deleted)
  {
    hide Shed, Apart;
    if f.TopKey() == k {
      ShedTop(f, k);
    } else {
      var dead := Find(f, k).top.value.deleted;
      if k in Keys(f.left) { ShedLeaf(f.left, k); } else { ShedAbsent(f.left, k, dead); }
      OnlyHere(f, k);
      if k in Keys(f.right) { ShedLeaf(f.right, k); } else { ShedAbsent(f.right, k, dead); }
      if k in Keys(f.rest) { ShedLeaf(f.rest, k); } else { ShedAbsent(f.rest, k, dead); }
      ShedBelow(f, k, dead);
    }
  }

  lemma OnlyHere(f: Forest, k: Key)
    requires Unique(f) && f.Trees?
    ensures k in Keys(f.left) ==> k !in Keys(f.right) && k !in Keys(f.rest)
    ensures k in Keys(f.right) ==> k !in Keys(f.rest)
  {
    hide Keys;
  }

  lemma PruneLeaf(f: Forest, k: Key)
    requires Unique(f) && k in Keys(f) && k.Some? && Find(f, k).left.Empty? && Find(f, k).right.Empty?
    ensures ClosedBelow(f, {k})
    ensures |Flat(Prune(f, {k}))| == |Flat(f)| - 1
    ensures NumVis(Flat(Prune(f, {k}))) == NumVis(Flat(f)) - if Find(f, k).top.value.deleted then 0 else 1
  {
    ShedLeaf(f, k);
  }

  lemma {:induction false} ClosedBelowAbsent(f: Forest, c: set<Key>)
    requires Keys(f) !! c
    ensures ClosedBelow(f, c)
  {
    if f.Trees? {
      ClosedBelowAbsent(f.left, c);
      ClosedBelowAbsent(f.right, c);
      ClosedBelowAbsent(f.rest, c);
    }
  }

  // ------------------------------------------------------------------ sibling lists

  /** The sibling list from its `i`-th tree on. */
  function Drop(f: Forest, i: nat): (g: Forest)
    requires i <= |Heads(f)|
    ensures Heads(g) == Heads(f)[i..]
  {
    if i == 0 then f else Drop(f.rest, i - 1)
  }

  lemma {:induction false} DropStep(f: Forest, i: nat)
    requires i < |Heads(f)|
    ensures Drop(f, i).Trees? && Drop(f, i).rest == Drop(f, i + 1)
  {
    if i > 0 { DropStep(f.rest, i - 1); }
  }

  lemma {:induction false} DropFind(f: Forest, i: nat)
    requires Unique(f) && i < |Heads(f)|
    ensures Heads(f)[i] in Keys(f)
    ensures Drop(f, i).Trees? && Drop(f, i).TopKey() == Heads(f)[i]
    ensures Find(f, Heads(f)[i]) == Drop(f, i).Alone()
  {
    if i > 0 {
      DropFind(f.rest, i - 1);
      assert Heads(f)[i] == Heads(f.rest)[i - 1];
    }
  }

  lemma {:induction false} DropPlaced(f: Forest, i: nat, p: Key, s: Side)
    requires Placed(f, p, s) && i <= |Heads(f)|
    ensures Placed(Drop(f, i), p, s)
  {
    if i > 0 { DropPlaced(f.rest, i - 1, p, s); }
  }

  /** The `i`-th child of `p` on side `s`. */
  lemma KidAt(d: Forest, p: Key, s: Side, i: nat)
    requires IsDoc(d) && p in Keys(d) && i < |Heads(Find(d, p).Kids(s))|
    ensures var kids := Find(d, p).Kids(s); var k := Heads(kids)[i];
            && k in Keys(d) && k.Some? && Find(d, k) == Drop(kids, i).Alone()
            && Find(d, k).top.Some? && Find(d, k).top.value.parent == p && Find(d, k).top.value.side == s
            && Keys(Find(d, k)) < Keys(Find(d, p))
  {
    DocFind(d, p);
    var c := Find(d, p);
    var kids := c.Kids(s);
    var k := Heads(kids)[i];
    DropFind(kids, i);
    DropPlaced(kids, i, p, s);
    assert k in Keys(kids) && Keys(kids) <= Keys(c) && k != p;
    assert Find(c, k) == Find(kids, k);
    FindSub(d, p, k);
    FindWithin(kids, k);
    FindWithin(d, p);
    assert p !in Keys(Find(d, k));
  }

  lemma {:induction false} HeadsAttach(f: Forest, n: Node)
    ensures Heads(Attach(f, n)) == Heads(f)
  {
    if f.Trees? { HeadsAttach(f.rest, n); }
  }

  /** The position the linear scan stops at. */
  function InsertIndex(f: Forest, n: Node): (i: nat)
    ensures i <= |Heads(f)|
  {
    if f.Empty? || (f.top.Some? && SiblingLess(n, f.top.value)) then 0 else 1 + InsertIndex(f.rest, n)
  }

  lemma {:induction false} HeadsInsertSorted(f: Forest, n: Node)
    ensures Heads(InsertSorted(f, n)) == SeqInsert(Heads(f), InsertIndex(f, n), Some(n.id))
  {
    if f.Trees? && !(f.top.Some? && SiblingLess(n, f.top.value)) {
      HeadsInsertSorted(f.rest, n);
      SeqInsertShift([f.TopKey()], Heads(f.rest), [], InsertIndex(f.rest, n), Some(n.id));
      assert [f.TopKey()] + Heads(f.rest) + [] == Heads(f);
    }
  }

  /** One step of the scan for the insertion point. */
  lemma {:induction false} InsertIndexScan(f: Forest, n: Node, i: nat)
    requires i < |Heads(f)| && i <= InsertIndex(f, n)
    ensures Drop(f, i).Trees?
    ensures i == InsertIndex(f, n) <==> Drop(f, i).top.Some? && SiblingLess(n, Drop(f, i).top.value)
  {
    if i > 0 { InsertIndexScan(f.rest, n, i - 1); }
  }

  /** The leftmost node of the first tree. */
  function Leftmost(f: Forest): Option<Node> {
    if f.Empty? then None else if f.left.Empty? then f.top else Leftmost(f.left)
  }

  // ------------------------------------------------------------------ positions

  /** What precedes the child `k` of `t` (on side `s`) within `t`. */
  function Within(t: Forest, s: Side, k: Key): seq<Node>
    requires t.Trees? && k in Keys(t.Kids(s))
  {
    if s == L then Before(t.left, k) else Flat(t.left) + t.Self() + Before(t.right, k)
  }

  lemma RegroupPrefix<T>(p: seq<T>, a: seq<T>, b: seq<T>)
    ensures p + (a + b) == (p + a) + b
  {
  }

  lemma {:induction false} BeforeUp(f: Forest, k: Key, p: Key, s: Side)
    requires Unique(f) && Placed(f, p, s) && k in Keys(f) && p !in Keys(f)
    requires Find(f, k).top.Some? && Find(f, k).top.value.parent != p
    ensures var n := Find(f, k).top.value;
            && n.parent in Keys(f) && k in Keys(Find(f, n.parent).Kids(n.side))
            && Before(f, k) == Before(f, n.parent) + Within(Find(f, n.parent), n.side, k)
  {
    hide Flat, Heads;
    var n := Find(f, k).top.value;
    if k in Keys(f.left) {
      if n.parent == f.TopKey() { HeadSide(f.left, k, f.TopKey(), L); } else { BeforeUp(f.left, k, f.TopKey(), L); }
    } else if k in Keys(f.right) {
      if n.parent == f.TopKey() { HeadSide(f.right, k, f.TopKey(), R); } else {
        BeforeUp(f.right, k, f.TopKey(), R);
        RegroupPrefix(Flat(f.left) + f.Self(), Before(f.right, n.parent), Within(Find(f.right, n.parent), n.side, k));
      }
    } else {
      BeforeUp(f.rest, k, p, s);
      RegroupPrefix(Flat(f.left) + f.Self() + Flat(f.right), Before(f.rest, n.parent),
                    Within(Find(f.rest, n.parent), n.side, k));
    }
  }

  /** A node naming the list's own parent is one of the list's heads, on its side. */
  lemma {:induction false} HeadSide(f: Forest, k: Key, p: Key, s: Side)
    requires Unique(f) && Placed(f, p, s) && k in Keys(f) && p !in Keys(f)
    requires Find(f, k).top.Some? && Find(f, k).top.value.parent == p
    ensures Find(f, k).top.value.side == s && k in Heads(f)
  {
    if k == f.TopKey() { }
    else if k in Keys(f.left) { FindPlaced(f.left, k, f.TopKey(), L); }
    else if k in Keys(f.right) { FindPlaced(f.right, k, f.TopKey(), R); }
    else { HeadSide(f.rest, k, p, s); }
  }

  /** A node's place among the children of its parent. */
  ghost predicate ChildAt(d: Forest, k: Key, n: Node) {
    && k in Keys(d) && n.parent in Keys(d) && k in Keys(Find(d, n.parent).Kids(n.side))
    && k in Heads(Find(d, n.parent).Kids(n.side))
  }

  lemma TopBeforeUp(d: Forest, k: Key, s: Side)
    requires IsDoc(d) && k in Keys(d) && k in Keys(d.Kids(s)) && Find(d, k) == Find(d.Kids(s), k)
    requires Find(d, k).top.Some? && Find(d, k).top.value.parent == None
    requires s == R ==> k !in Keys(d.left)
    ensures ChildAt(d, k, Find(d, k).top.value)
    ensures Before(d, k) == Before(d, None) + Within(d, Find(d, k).top.value.side, k)
  {
    HeadSide(d.Kids(s), k, None, s);
  }

  lemma DeepBeforeUp(d: Forest, k: Key, s: Side)
    requires IsDoc(d) && k in Keys(d) && k in Keys(d.Kids(s)) && Find(d, k) == Find(d.Kids(s), k)
    requires Find(d, k).top.Some? && Find(d, k).top.value.parent != None
    requires s == R ==> k !in Keys(d.left)
    ensures ChildAt(d, k, Find(d, k).top.value)
    ensures var n := Find(d, k).top.value;
      Before(d, k) == Before(d, n.parent) + Within(Find(d, n.parent), n.side, k)
  {
    hide Flat;
    var n := Find(d, k).top.value;
    BeforeUp(d.Kids(s), k, None, s);
    assert n.parent in Keys(d.Kids(s)) && (s == R ==> n.parent !in Keys(d.left));
    RegroupPrefix(Flat(d.left) + d.Self(), Before(d.Kids(s), n.parent), Within(Find(d.Kids(s), n.parent), n.side, k));
    KidHead(d, k, n);
  }

  lemma KidHead(d: Forest, k: Key, n: Node)
    requires IsDoc(d) && k in Keys(d) && n.parent in Keys(d) && k in Keys(Find(d, n.parent).Kids(n.side))
    requires Find(d, k).top == Some(n)
    ensures k in Heads(Find(d, n.parent).Kids(n.side))
  {
    hide Flat, Before;
    DocFind(d, n.parent);
    var t := Find(d, n.parent);
    FindSub(d, n.parent, k);
    FindUnique(d, n.parent);
    HeadSide(t.Kids(n.side), k, n.parent, n.side);
  }

  lemma DocBeforeUp(d: Forest, k: Key)
    requires IsDoc(d) && k in Keys(d) && k.Some?
    ensures Find(d, k).top.Some? && ChildAt(d, k, Find(d, k).top.value)
    ensures var n := Find(d, k).top.value;
      Before(d, k) == Before(d, n.parent) + Within(Find(d, n.parent), n.side, k)
  {
    hide Flat, Before, Within, Heads;
    DocFind(d, k);
    var s := if k in Keys(d.left) then L else R;
    if Find(d, k).top.value.parent == None {
      TopBeforeUp(d, k, s);
    } else {
      DeepBeforeUp(d, k, s);
    }
  }

  /** The visible nodes at or before `k`, tombstone or not. */
  function UpTo(d: Forest, k: Key): seq<Node>
    requires k in Keys(d)
  {
    Before(d, k) + Flat(Find(d, k).left) + Find(d, k).Self()
  }

  /** `UpTo` is the document order cut off right after `k`. */
  lemma UpToIsPrefix(d: Forest, k: Key)
    requires IsDoc(d) && k in Keys(d) && k.Some?
    ensures 0 < |UpTo(d, k)| <= |Flat(d)| && UpTo(d, k) == Flat(d)[..|UpTo(d, k)|]
    ensures Some(Flat(d)[|UpTo(d, k)| - 1].id) == k
  {
    FlatContext(d, k);
    DocFind(d, k);
    var t := Find(d, k);
    CutAfterOne(Before(d, k), Flat(t.left), t.top.value, Flat(t.right), After(d, k));
  }

  lemma CutAfterOne<T>(b: seq<T>, l: seq<T>, x: T, r: seq<T>, a: seq<T>)
    ensures
      var u, whole := b + l + [x], b + (l + [x] + r + []) + a;
      0 < |u| <= |whole| && u == whole[..|u|] && whole[|u| - 1] == x
  {
  }
}
