/** The document order, from what each character carries: its parent, its side, whether it binds, and who typed it. */
module DocumentOrder {
  import opened Identifiers
  import opened Operations
  import opened FugueShape
  import opened EngineState
  import opened OpSets
  import opened LocalEdits
  import opened Replica
  import opened Network
  import opened Runs

  /** `x` stands somewhere before `y`. */
  ghost predicate Ahead(ns: seq<Node>, x: Key, y: Key) {
    exists i, j :: 0 <= i < j < |ns| && Some(ns[i].id) == x && Some(ns[j].id) == y
  }

  ghost predicate Stands(ns: seq<Node>, x: Key) {
    exists i :: 0 <= i < |ns| && Some(ns[i].id) == x
  }

  lemma AheadAcross(u: seq<Node>, v: seq<Node>, x: Key, y: Key)
    requires Stands(u, x) && Stands(v, y)
    ensures Ahead(u + v, x, y)
  {
    var i :| 0 <= i < |u| && Some(u[i].id) == x;
    var j :| 0 <= j < |v| && Some(v[j].id) == y;
    assert (u + v)[i] == u[i] && (u + v)[|u| + j] == v[j];
  }

  lemma AheadWithin(u: seq<Node>, m: seq<Node>, v: seq<Node>, x: Key, y: Key)
    requires Ahead(m, x, y)
    ensures Ahead(u + m + v, x, y)
  {
    var i, j :| 0 <= i < j < |m| && Some(m[i].id) == x && Some(m[j].id) == y;
    assert (u + m + v)[|u| + i] == m[i] && (u + m + v)[|u| + j] == m[j];
  }

  lemma StandsWithin(u: seq<Node>, m: seq<Node>, v: seq<Node>, x: Key)
    requires Stands(m, x)
    ensures Stands(u + m + v, x)
  {
    var i :| 0 <= i < |m| && Some(m[i].id) == x;
    assert (u + m + v)[|u| + i] == m[i];
  }

  // ------------------------------------------------------------------ the four parts of a list of trees

  /** A list of sibling trees that hang at (`p`, `s`). */
  predicate Hung(f: Forest, p: Key, s: Side) {
    Unique(f) && Placed(f, p, s) && p !in Keys(f)
  }

  lemma KeyStands(f: Forest, p: Key, s: Side, x: Key)
    requires Placed(f, p, s) && x in Keys(f)
    ensures Stands(Flat(f), x)
  {
    FlatKeys(f, p, s);
    var n :| n in Flat(f) && x == Some(n.id);
    var i :| 0 <= i < |Flat(f)| && Flat(f)[i] == n;
  }

  lemma KeyOf(f: Forest, p: Key, s: Side, n: Node)
    requires Placed(f, p, s) && n in Flat(f)
    ensures Some(n.id) in Keys(f)
  {
    FlatKeys(f, p, s);
  }

  lemma Regrouped(l: seq<Node>, t: seq<Node>, r: seq<Node>, q: seq<Node>)
    ensures l + t + r + q == (l + t) + (r + q) && l + t + r + q == [] + l + (t + r + q)
    ensures l + t + r + q == (l + t) + r + q && l + t + r + q == (l + t + r) + q + []
  {
  }

  lemma Parts(f: Forest, p: Key, s: Side)
    requires Hung(f, p, s) && f.Trees?
    ensures f.top.Some? && f.TopKey() == Some(f.top.value.id)
    ensures Hung(f.left, f.TopKey(), L) && Hung(f.right, f.TopKey(), R) && Hung(f.rest, p, s)
    ensures Flat(f) == (Flat(f.left) + [f.top.value]) + (Flat(f.right) + Flat(f.rest))
    ensures Flat(f) == [] + Flat(f.left) + ([f.top.value] + Flat(f.right) + Flat(f.rest))
    ensures Flat(f) == (Flat(f.left) + [f.top.value]) + Flat(f.right) + Flat(f.rest)
    ensures Flat(f) == (Flat(f.left) + [f.top.value] + Flat(f.right)) + Flat(f.rest) + []
  {
    Regrouped(Flat(f.left), [f.top.value], Flat(f.right), Flat(f.rest));
  }

  /** Where a character is found, and everything below it. */
  lemma Home(f: Forest, p: Key, s: Side, n: Node, x: Key)
    requires Hung(f, p, s) && f.Trees? && n in Flat(f)
    requires x in Keys(f) && Some(n.id) in Ancestors(f, x)
    ensures (n == f.top.value && x !in Keys(f.rest))
         || (n in Flat(f.left) && x in Keys(f.left) && Some(n.id) in Ancestors(f.left, x))
         || (n in Flat(f.right) && x in Keys(f.right) && Some(n.id) in Ancestors(f.right, x))
         || (n in Flat(f.rest) && x in Keys(f.rest) && Some(n.id) in Ancestors(f.rest, x))
  {
    hide Flat;
    FugueShape.FlatMembers(f, n);
    if n in Flat(f.left) { KeyOf(f.left, f.TopKey(), L, n); }
    if n in Flat(f.right) { KeyOf(f.right, f.TopKey(), R, n); }
    if n in Flat(f.rest) { KeyOf(f.rest, p, s, n); }
    if x in Keys(f.left) { AncestorsWithin(f.left, x); }
    else if x in Keys(f.right) { AncestorsWithin(f.right, x); }
    else if x in Keys(f.rest) { AncestorsWithin(f.rest, x); }
  }

  lemma {:induction false} ParentHome(f: Forest, p: Key, s: Side, n: Node)
    requires Placed(f, p, s) && n in Flat(f)
    ensures (n.parent == p && n.side == s) || n.parent in Keys(f)
  {
    FugueShape.FlatMembers(f, n);
    if n in Flat(f.left) { ParentHome(f.left, f.TopKey(), L, n); }
    else if n in Flat(f.right) { ParentHome(f.right, f.TopKey(), R, n); }
    else if n in Flat(f.rest) { ParentHome(f.rest, p, s, n); }
  }

  // ------------------------------------------------------------------ siblings

  /** Left before right; on one side binding characters first, then the smaller replica. */
  predicate ComesFirst(a: Node, b: Node) {
    if a.side != b.side then a.side == L else if a.bind != b.bind then a.bind else a.id.r < b.id.r
  }

  ghost predicate SortedAll(f: Forest) {
    f.Trees? ==> Sorted(f.left) && Sorted(f.right) && SortedAll(f.left) && SortedAll(f.right) && SortedAll(f.rest)
  }

  lemma {:induction false} BuiltSorted(f: Forest, ops: set<Op>)
    requires Built(f, ops)
    ensures SortedAll(f)
  {
    if f.Trees? {
      BuiltSorted(f.left, ops);
      BuiltSorted(f.right, ops);
      BuiltSorted(f.rest, ops);
    }
  }

  lemma {:induction false} NotAfter(n: Node, f: Forest, p: Key, s: Side, m: Node)
    requires AllAfter(n, f) && Placed(f, p, s) && p !in Keys(f) && m in Flat(f) && m.parent == p
    ensures SiblingLess(n, m)
  {
    FugueShape.FlatMembers(f, m);
    if m in Flat(f.left) { ParentHome(f.left, f.TopKey(), L, m); }
    else if m in Flat(f.right) { ParentHome(f.right, f.TopKey(), R, m); }
    else if m in Flat(f.rest) { NotAfter(n, f.rest, p, s, m); }
  }

  /** Where two siblings are found. */
  lemma Pairing(f: Forest, p: Key, s: Side, a: Node, b: Node)
    requires Hung(f, p, s) && f.Trees? && a in Flat(f) && b in Flat(f) && a.parent == b.parent && a != b
    ensures (a in Flat(f.left) && b in Flat(f.left)) || (a in Flat(f.right) && b in Flat(f.right))
         || (a in Flat(f.rest) && b in Flat(f.rest))
         || (a == f.top.value && b in Flat(f.rest) && b.parent == p)
         || (b == f.top.value && a in Flat(f.rest) && a.parent == p)
         || (a in Flat(f.left) && b in Flat(f.right) && a.side == L && b.side == R)
         || (b in Flat(f.left) && a in Flat(f.right) && b.side == L && a.side == R)
  {
    Parents(f, p, s, a);
    Parents(f, p, s, b);
  }

  /** Where a character's parent is, by where the character is. */
  lemma Parents(f: Forest, p: Key, s: Side, n: Node)
    requires Hung(f, p, s) && f.Trees? && n in Flat(f)
    ensures n == f.top.value || n in Flat(f.left) || n in Flat(f.right) || n in Flat(f.rest)
    ensures n == f.top.value ==> n.parent == p && n.side == s
    ensures n in Flat(f.left) ==> (n.parent == f.TopKey() && n.side == L) || n.parent in Keys(f.left)
    ensures n in Flat(f.right) ==> (n.parent == f.TopKey() && n.side == R) || n.parent in Keys(f.right)
    ensures n in Flat(f.rest) ==> (n.parent == p && n.side == s) || n.parent in Keys(f.rest)
  {
    FugueShape.FlatMembers(f, n);
    if n in Flat(f.left) { ParentHome(f.left, f.TopKey(), L, n); }
    if n in Flat(f.right) { ParentHome(f.right, f.TopKey(), R, n); }
    if n in Flat(f.rest) { ParentHome(f.rest, p, s, n); }
  }

  /** A character is in one part only. */
  lemma OnePart(f: Forest, p: Key, s: Side, n: Node)
    requires Hung(f, p, s) && f.Trees?
    ensures !(n in Flat(f.left) && n in Flat(f.right)) && !(n in Flat(f.left) && n in Flat(f.rest))
    ensures !(n in Flat(f.right) && n in Flat(f.rest))
    ensures n == f.top.value ==> n !in Flat(f.left) && n !in Flat(f.right) && n !in Flat(f.rest)
  {
    hide Flat;
    if n in Flat(f.left) { KeyOf(f.left, f.TopKey(), L, n); }
    if n in Flat(f.right) { KeyOf(f.right, f.TopKey(), R, n); }
    if n in Flat(f.rest) { KeyOf(f.rest, p, s, n); }
  }

  lemma {:induction false} SiblingsAhead(f: Forest, p: Key, s: Side, a: Node, b: Node, x: Key, y: Key)
    requires Hung(f, p, s) && Sorted(f) && SortedAll(f)
    requires a in Flat(f) && b in Flat(f) && a.parent == b.parent && a != b && ComesFirst(a, b)
    requires x in Keys(f) && Some(a.id) in Ancestors(f, x) && y in Keys(f) && Some(b.id) in Ancestors(f, y)
    ensures Ahead(Flat(f), x, y)
  {
    hide Hung, Sorted, AllAfter, SortedAll, Flat, Ancestors, Ahead, Stands;
    FromParts(f, p, s);
    Parts(f, p, s);
    Pairing(f, p, s, a, b);
    OnePart(f, p, s, a);
    OnePart(f, p, s, b);
    Home(f, p, s, a, x);
    Home(f, p, s, b, y);
    if a in Flat(f.left) && b in Flat(f.left) {
      SiblingsAhead(f.left, f.TopKey(), L, a, b, x, y);
      AheadWithin([], Flat(f.left), [f.top.value] + Flat(f.right) + Flat(f.rest), x, y);
    } else if a in Flat(f.right) && b in Flat(f.right) {
      SiblingsAhead(f.right, f.TopKey(), R, a, b, x, y);
      AheadWithin(Flat(f.left) + [f.top.value], Flat(f.right), Flat(f.rest), x, y);
    } else if a in Flat(f.rest) && b in Flat(f.rest) {
      SiblingsAhead(f.rest, p, s, a, b, x, y);
      AheadWithin(Flat(f.left) + [f.top.value] + Flat(f.right), Flat(f.rest), [], x, y);
    } else if a == f.top.value {
      TopStands(f, p, s, x);
      KeyStands(f.rest, p, s, y);
      AheadAcross(Flat(f.left) + [f.top.value] + Flat(f.right), Flat(f.rest), x, y);
    } else if b == f.top.value {
      NotAfter(b, f.rest, p, s, a);
      Parents(f, p, s, a);
      Parents(f, p, s, b);
    } else if a in Flat(f.left) {
      LeftRight(f, p, s, x, y);
    }
  }

  lemma FromParts(f: Forest, p: Key, s: Side)
    requires Hung(f, p, s) && Sorted(f) && SortedAll(f) && f.Trees?
    ensures Sorted(f.left) && SortedAll(f.left) && Sorted(f.right) && SortedAll(f.right)
    ensures Sorted(f.rest) && SortedAll(f.rest) && f.top.Some? && AllAfter(f.top.value, f.rest)
    ensures Placed(f.rest, p, s) && p !in Keys(f.rest)
  {
  }

  lemma Trio(l: seq<Node>, t: seq<Node>, r: seq<Node>)
    ensures [] + l + (t + r) == l + t + r && (l + t) + r + [] == l + t + r
  {
  }

  /** What is no tree further on stands in the first one. */
  lemma TopStands(f: Forest, p: Key, s: Side, x: Key)
    requires Hung(f, p, s) && f.Trees? && x in Keys(f) && x !in Keys(f.rest)
    ensures Stands(Flat(f.left) + [f.top.value] + Flat(f.right), x)
  {
    hide Stands, Flat;
    var l, t, r := Flat(f.left), [f.top.value], Flat(f.right);
    Trio(l, t, r);
    if x in Keys(f.left) {
      KeyStands(f.left, f.TopKey(), L, x);
      StandsWithin([], l, t + r, x);
    } else if x in Keys(f.right) {
      KeyStands(f.right, f.TopKey(), R, x);
      StandsWithin(l + t, r, [], x);
    } else {
      TopItself(f.top.value);
      StandsWithin(l, t, r, x);
    }
  }

  lemma TopItself(n: Node)
    ensures Stands([n], Some(n.id))
  {
    assert [n][0] == n;
  }

  lemma LeftRight(f: Forest, p: Key, s: Side, x: Key, y: Key)
    requires Hung(f, p, s) && f.Trees? && x in Keys(f.left) && y in Keys(f.right)
    ensures Ahead(Flat(f), x, y)
  {
    hide Stands, Ahead, Flat;
    Parts(f, p, s);
    KeyStands(f.left, f.TopKey(), L, x);
    KeyStands(f.right, f.TopKey(), R, y);
    StandsWithin([], Flat(f.left), [f.top.value], x);
    assert [] + Flat(f.left) + [f.top.value] == Flat(f.left) + [f.top.value];
    StandsWithin([], Flat(f.right), Flat(f.rest), y);
    assert [] + Flat(f.right) + Flat(f.rest) == Flat(f.right) + Flat(f.rest);
    AheadAcross(Flat(f.left) + [f.top.value], Flat(f.right) + Flat(f.rest), x, y);
  }

  // ------------------------------------------------------------------ a character and what hangs from it

  lemma {:induction false} ParentAhead(f: Forest, p: Key, s: Side, n: Node, x: Key)
    requires Hung(f, p, s) && n in Flat(f) && n.parent in Keys(f) && x in Keys(f) && Some(n.id) in Ancestors(f, x)
    ensures if n.side == L then Ahead(Flat(f), x, n.parent) else Ahead(Flat(f), n.parent, x)
  {
    hide Hung, Flat, Ancestors, Ahead, Stands;
    Parts(f, p, s);
    Parents(f, p, s, n);
    NoneTwice(f, p, s);
    OnePart(f, p, s, n);
    Home(f, p, s, n, x);
    if n in Flat(f.left) && n.parent in Keys(f.left) {
      ParentAhead(f.left, f.TopKey(), L, n, x);
      Either(n, [], Flat(f.left), [f.top.value] + Flat(f.right) + Flat(f.rest), x);
    } else if n in Flat(f.right) && n.parent in Keys(f.right) {
      ParentAhead(f.right, f.TopKey(), R, n, x);
      Either(n, Flat(f.left) + [f.top.value], Flat(f.right), Flat(f.rest), x);
    } else if n in Flat(f.rest) {
      ParentAhead(f.rest, p, s, n, x);
      Either(n, Flat(f.left) + [f.top.value] + Flat(f.right), Flat(f.rest), [], x);
    } else if n in Flat(f.left) {
      LeftTop(f, p, s, x);
    } else {
      TopRight(f, p, s, x);
    }
  }

  lemma NoneTwice(f: Forest, p: Key, s: Side)
    requires Hung(f, p, s) && f.Trees?
    ensures p !in Keys(f) && f.TopKey() !in Keys(f.left) && f.TopKey() !in Keys(f.right) && f.TopKey() !in Keys(f.rest)
    ensures forall k ::
              k in Keys(f) <==> k == f.TopKey() || k in Keys(f.left) || k in Keys(f.right) || k in Keys(f.rest)
  {
  }

  lemma Either(n: Node, u: seq<Node>, m: seq<Node>, v: seq<Node>, x: Key)
    requires if n.side == L then Ahead(m, x, n.parent) else Ahead(m, n.parent, x)
    ensures if n.side == L then Ahead(u + m + v, x, n.parent) else Ahead(u + m + v, n.parent, x)
  {
    hide Ahead;
    if n.side == L { AheadWithin(u, m, v, x, n.parent); } else { AheadWithin(u, m, v, n.parent, x); }
  }

  lemma LeftTop(f: Forest, p: Key, s: Side, x: Key)
    requires Hung(f, p, s) && f.Trees? && x in Keys(f.left)
    ensures Ahead(Flat(f), x, f.TopKey())
  {
    hide Stands, Ahead, Flat, Hung;
    Parts(f, p, s);
    KeyStandsHung(f.left, f.TopKey(), L, x);
    TopItself(f.top.value);
    AheadAcross(Flat(f.left), [f.top.value], x, f.TopKey());
    AheadWithin([], Flat(f.left) + [f.top.value], Flat(f.right) + Flat(f.rest), x, f.TopKey());
    Leading(Flat(f.left) + [f.top.value], Flat(f.right) + Flat(f.rest));
  }

  lemma TopRight(f: Forest, p: Key, s: Side, x: Key)
    requires Hung(f, p, s) && f.Trees? && x in Keys(f.right)
    ensures Ahead(Flat(f), f.TopKey(), x)
  {
    hide Stands, Ahead, Flat, Hung;
    Parts(f, p, s);
    KeyStandsHung(f.right, f.TopKey(), R, x);
    TopItself(f.top.value);
    AheadAcross([f.top.value], Flat(f.right), f.TopKey(), x);
    AheadWithin(Flat(f.left), [f.top.value] + Flat(f.right), Flat(f.rest), f.TopKey(), x);
    Middle(Flat(f.left), [f.top.value], Flat(f.right), Flat(f.rest));
  }

  lemma KeyStandsHung(f: Forest, p: Key, s: Side, x: Key)
    requires Hung(f, p, s) && x in Keys(f)
    ensures Stands(Flat(f), x)
  {
    KeyStands(f, p, s, x);
  }

  lemma Leading(a: seq<Node>, b: seq<Node>)
    ensures [] + a + b == a + b
  {
  }

  lemma Middle(l: seq<Node>, t: seq<Node>, r: seq<Node>, q: seq<Node>)
    ensures l + (t + r) + q == (l + t) + r + q
  {
  }

  // ------------------------------------------------------------------ every pair is decided

  /** `n` is `x` or stands above it in the tree. */
  ghost predicate Over(f: Forest, n: Node, x: Key)
    requires x in Keys(f)
  {
    n in Flat(f) && Some(n.id) in Ancestors(f, x)
  }

  lemma OverUp(f: Forest, p: Key, s: Side, n: Node, x: Key)
    requires Hung(f, p, s) && f.Trees?
    ensures x in Keys(f.left) && Over(f.left, n, x) ==> Over(f, n, x)
    ensures x in Keys(f.right) && Over(f.right, n, x) ==> Over(f, n, x)
    ensures x in Keys(f.rest) && Over(f.rest, n, x) ==> Over(f, n, x)
  {
    hide Flat;
    FugueShape.FlatMembers(f, n);
  }

  lemma TopOver(f: Forest, p: Key, s: Side, x: Key)
    requires Hung(f, p, s) && f.Trees? && x in Keys(f) && x !in Keys(f.rest)
    ensures Over(f, f.top.value, x) && f.top.value.parent == p
  {
    hide Flat;
    FugueShape.FlatMembers(f, f.top.value);
  }

  /** The sibling in the list that stands over `x`. */
  lemma {:induction false} HeadOver(f: Forest, p: Key, s: Side, x: Key) returns (n: Node)
    requires Hung(f, p, s) && x in Keys(f)
    ensures Over(f, n, x) && n.parent == p && n.side == s
  {
    if x in Keys(f.rest) {
      n := HeadOver(f.rest, p, s, x);
      OverUp(f, p, s, n, x);
    } else {
      n := f.top.value;
      TopOver(f, p, s, x);
    }
  }

  /** Two characters of which neither stands over the other stand below two siblings. */
  lemma {:induction false} Siblings(f: Forest, p: Key, s: Side, x: Key, y: Key) returns (a: Node, b: Node)
    requires Hung(f, p, s) && x in Keys(f) && y in Keys(f) && x !in Ancestors(f, y) && y !in Ancestors(f, x)
    ensures Over(f, a, x) && Over(f, b, y) && a.parent == b.parent && a != b
  {
    hide Hung, Over;
    Parts(f, p, s);
    NoneTwice(f, p, s);
    Steps(f, p, s, x);
    Steps(f, p, s, y);
    var top := f.top.value;
    if x in Keys(f.left) && y in Keys(f.left) {
      a, b := Siblings(f.left, f.TopKey(), L, x, y);
    } else if x in Keys(f.right) && y in Keys(f.right) {
      a, b := Siblings(f.right, f.TopKey(), R, x, y);
    } else if x in Keys(f.rest) && y in Keys(f.rest) {
      a, b := Siblings(f.rest, p, s, x, y);
    } else if y in Keys(f.rest) {
      a := top;
      b := HeadOver(f.rest, p, s, y);
      TopOver(f, p, s, x);
      TopNotRest(f, p, s, b, y);
    } else if x in Keys(f.rest) {
      a := HeadOver(f.rest, p, s, x);
      b := top;
      TopOver(f, p, s, y);
      TopNotRest(f, p, s, a, x);
    } else if x in Keys(f.left) {
      a := HeadOver(f.left, f.TopKey(), L, x);
      b := HeadOver(f.right, f.TopKey(), R, y);
    } else {
      a := HeadOver(f.right, f.TopKey(), R, x);
      b := HeadOver(f.left, f.TopKey(), L, y);
    }
    OverUp(f, p, s, a, x);
    OverUp(f, p, s, b, y);
  }

  /** The way up from `x`, by where it is. */
  lemma Steps(f: Forest, p: Key, s: Side, x: Key)
    requires Hung(f, p, s) && x in Keys(f)
    ensures x == f.TopKey() || x in Keys(f.left) || x in Keys(f.right) || x in Keys(f.rest)
    ensures x in Keys(f.left) ==> Ancestors(f, x) == {f.TopKey()} + Ancestors(f.left, x)
    ensures x in Keys(f.right) ==> Ancestors(f, x) == {f.TopKey()} + Ancestors(f.right, x)
    ensures x in Keys(f.rest) ==> Ancestors(f, x) == Ancestors(f.rest, x)
    ensures x == f.TopKey() ==> Ancestors(f, x) == {x}
    ensures x in Keys(f.rest) ==> x !in Keys(f.left) && x !in Keys(f.right)
  {
  }

  lemma TopNotRest(f: Forest, p: Key, s: Side, n: Node, x: Key)
    requires Hung(f, p, s) && f.Trees? && x in Keys(f.rest) && Over(f.rest, n, x)
    ensures n != f.top.value
  {
    OnePart(f, p, s, n);
  }

  /** Below `y` some child of it stands over `x`. */
  lemma {:induction false} ChildOver(f: Forest, p: Key, s: Side, x: Key, y: Key) returns (n: Node)
    requires Hung(f, p, s) && x in Keys(f) && y in Ancestors(f, x) && x != y
    ensures Over(f, n, x) && n.parent == y
  {
    hide Hung, Over;
    Parts(f, p, s);
    NoneTwice(f, p, s);
    Steps(f, p, s, x);
    if x in Keys(f.left) {
      if y == f.TopKey() { n := HeadOver(f.left, y, L, x); } else { n := ChildOver(f.left, f.TopKey(), L, x, y); }
    } else if x in Keys(f.right) {
      if y == f.TopKey() { n := HeadOver(f.right, y, R, x); } else { n := ChildOver(f.right, f.TopKey(), R, x, y); }
    } else {
      n := ChildOver(f.rest, p, s, x, y);
    }
    OverUp(f, p, s, n, x);
  }

  // ------------------------------------------------------------------ the whole document

  lemma DocRegrouped(l: seq<Node>, r: seq<Node>)
    ensures l + [] + r + [] == l + r && [] + l + r == l + r && l + r + [] == l + r
  {
  }

  lemma DocParts(d: Forest)
    requires IsDoc(d)
    ensures Hung(d.left, None, L) && Hung(d.right, None, R)
    ensures Flat(d) == Flat(d.left) + Flat(d.right)
    ensures [] + Flat(d.left) + Flat(d.right) == Flat(d) && Flat(d.left) + Flat(d.right) + [] == Flat(d)
  {
    DocRegrouped(Flat(d.left), Flat(d.right));
    assert Flat(d.rest) == [];
    hide Flat;
  }

  lemma DocHome(d: Forest, n: Node, x: Key)
    requires IsDoc(d) && n in Flat(d) && x in Keys(d) && Some(n.id) in Ancestors(d, x)
    ensures (n in Flat(d.left) && x in Keys(d.left) && Some(n.id) in Ancestors(d.left, x))
         || (n in Flat(d.right) && x in Keys(d.right) && Some(n.id) in Ancestors(d.right, x))
  {
    hide Flat;
    FugueShape.FlatMembers(d, n);
    assert d.rest.Empty?;
    NothingFlat(d.rest);
    if n in Flat(d.left) { KeyOf(d.left, None, L, n); }
    if n in Flat(d.right) { KeyOf(d.right, None, R, n); }
    if x in Keys(d.left) { AncestorsWithin(d.left, x); }
    else if x in Keys(d.right) { AncestorsWithin(d.right, x); }
  }

  lemma NothingFlat(f: Forest)
    requires f.Empty?
    ensures Flat(f) == []
  {
  }

  lemma DocAhead(d: Forest, a: Node, b: Node, x: Key, y: Key)
    requires IsDoc(d) && SortedAll(d) && a in Flat(d) && b in Flat(d) && x in Keys(d) && y in Keys(d)
    requires a.parent == b.parent && a != b && ComesFirst(a, b)
    requires Some(a.id) in Ancestors(d, x) && Some(b.id) in Ancestors(d, y)
    ensures Ahead(Flat(d), x, y)
  {
    hide Hung, Sorted, AllAfter, Flat, Ancestors, Ahead, Stands;
    DocParts(d);
    DocHome(d, a, x);
    DocHome(d, b, y);
    SortedSides(d);
    if a in Flat(d.left) && b in Flat(d.left) && x in Keys(d.left) && y in Keys(d.left) {
      SiblingsAhead(d.left, None, L, a, b, x, y);
      AheadWithin([], Flat(d.left), Flat(d.right), x, y);
    } else if a in Flat(d.right) && b in Flat(d.right) && x in Keys(d.right) && y in Keys(d.right) {
      SiblingsAhead(d.right, None, R, a, b, x, y);
      AheadWithin(Flat(d.left), Flat(d.right), [], x, y);
    } else if a in Flat(d.left) && x in Keys(d.left) {
      KeyStandsHung(d.left, None, L, x);
      KeyStandsHung(d.right, None, R, y);
      AheadAcross(Flat(d.left), Flat(d.right), x, y);
    } else {
      RightThenLeft(d, a, b);
    }
  }

  lemma SortedSides(d: Forest)
    requires d.Trees? && SortedAll(d)
    ensures Sorted(d.left) && SortedAll(d.left) && Sorted(d.right) && SortedAll(d.right)
  {
  }

  lemma RightThenLeft(d: Forest, a: Node, b: Node)
    requires IsDoc(d) && a in Flat(d.right) && b in Flat(d.left) && a.parent == b.parent
    ensures a.side == R && b.side == L
  {
    ParentHome(d.right, None, R, a);
    ParentHome(d.left, None, L, b);
  }

  lemma NotBoth(ns: seq<Node>, x: Key, y: Key)
    requires Distinct(ns) && Ahead(ns, x, y)
    ensures !Ahead(ns, y, x)
  {
  }

  /** Distinct siblings are told apart. */
  lemma OneFirst(d: Forest, ops: set<Op>, a: Node, b: Node)
    requires IsDoc(d) && Built(d, ops) && Coherent(ops) && a in Flat(d) && b in Flat(d)
    requires a.parent == b.parent && a != b
    ensures ComesFirst(a, b) <==> !ComesFirst(b, a)
  {
    hide Built, IsDoc, Flat;
    BuiltOrigins(d, ops);
    DocDistinct(d);
    if a.side == b.side && a.bind == b.bind && a.id.r == b.id.r {
      assert SamePlace(a.Origin(), b.Origin());
      var i :| 0 <= i < |Flat(d)| && Flat(d)[i] == a;
      var j :| 0 <= j < |Flat(d)| && Flat(d)[j] == b;
    }
  }

  /**
   * What hangs from one sibling stands before what hangs from another exactly if the one comes first: left children
   * before right ones, on one side binding ones before the others, and then by replica.
   */
  lemma SiblingsOrder(d: Forest, ops: set<Op>, a: Node, b: Node, x: Key, y: Key)
    requires IsDoc(d) && Built(d, ops) && Coherent(ops)
    requires a in Flat(d) && b in Flat(d) && a.parent == b.parent && a != b
    requires x in Keys(d) && Some(a.id) in Ancestors(d, x) && y in Keys(d) && Some(b.id) in Ancestors(d, y)
    ensures Ahead(Flat(d), x, y) <==> ComesFirst(a, b)
  {
    hide Built, Coherent, IsDoc, Flat, Ancestors, Ahead, ComesFirst, Distinct;
    BuiltSorted(d, ops);
    hide SortedAll;
    DocDistinct(d);
    OneFirst(d, ops, a, b);
    if ComesFirst(a, b) {
      DocAhead(d, a, b, x, y);
    } else {
      DocAhead(d, b, a, y, x);
      NotBoth(Flat(d), y, x);
    }
  }

  /** What hangs left of a character stands before it, what hangs right of it behind it. */
  lemma SidesOrder(d: Forest, n: Node, x: Key)
    requires IsDoc(d) && n in Flat(d) && n.parent != None && x in Keys(d) && Some(n.id) in Ancestors(d, x)
    ensures if n.side == L then Ahead(Flat(d), x, n.parent) else Ahead(Flat(d), n.parent, x)
  {
    hide Hung, Flat, Ancestors, Ahead;
    DocParts(d);
    DocHome(d, n, x);
    if n in Flat(d.left) && x in Keys(d.left) && Some(n.id) in Ancestors(d.left, x) {
      ParentInside(d.left, None, L, n);
      ParentAhead(d.left, None, L, n, x);
      Either(n, [], Flat(d.left), Flat(d.right), x);
    } else {
      ParentInside(d.right, None, R, n);
      ParentAhead(d.right, None, R, n, x);
      Either(n, Flat(d.left), Flat(d.right), [], x);
    }
  }

  lemma ParentInside(f: Forest, p: Key, s: Side, n: Node)
    requires Hung(f, p, s) && n in Flat(f) && n.parent != p
    ensures n.parent in Keys(f)
  {
    ParentHome(f, p, s, n);
  }

  /** So the order of any two characters is decided: one stands over the other, or siblings stand over both. */
  lemma OrderDecided(d: Forest, x: Key, y: Key)
    requires IsDoc(d) && x in Keys(d) && y in Keys(d) && x != None && y != None && x != y
    ensures
      || (exists n :: n in Flat(d) && n.parent == y && Some(n.id) in Ancestors(d, x))
      || (exists n :: n in Flat(d) && n.parent == x && Some(n.id) in Ancestors(d, y))
      || (exists a, b :: a in Flat(d) && b in Flat(d) && a.parent == b.parent && a != b
            && Some(a.id) in Ancestors(d, x) && Some(b.id) in Ancestors(d, y))
  {
    if y in Ancestors(d, x) {
      var n := DocChildOver(d, x, y);
    } else if x in Ancestors(d, y) {
      var n := DocChildOver(d, y, x);
    } else {
      var a, b := DocSiblings(d, x, y);
    }
  }

  lemma DocOver(d: Forest, n: Node, x: Key)
    requires IsDoc(d) && x in Keys(d)
    ensures x in Keys(d.left) && Over(d.left, n, x) ==> Over(d, n, x)
    ensures x in Keys(d.right) && Over(d.right, n, x) ==> Over(d, n, x)
    ensures x in Keys(d.left) ==> Ancestors(d, x) == {None} + Ancestors(d.left, x)
    ensures x in Keys(d.right) ==> Ancestors(d, x) == {None} + Ancestors(d.right, x)
    ensures x != None ==> x in Keys(d.left) || x in Keys(d.right)
  {
    hide Flat;
    FugueShape.FlatMembers(d, n);
  }

  lemma DocChildOver(d: Forest, x: Key, y: Key) returns (n: Node)
    requires IsDoc(d) && x in Keys(d) && x != None && y != None && y in Ancestors(d, x) && x != y
    ensures n in Flat(d) && n.parent == y && Some(n.id) in Ancestors(d, x)
  {
    hide Hung, Flat, Ancestors;
    DocParts(d);
    DocOver(d, Node(Id(0, 0), 0, None, L, false, false, None), x);
    if x in Keys(d.left) { n := ChildOver(d.left, None, L, x, y); } else { n := ChildOver(d.right, None, R, x, y); }
    DocOver(d, n, x);
  }

  lemma DocSiblings(d: Forest, x: Key, y: Key) returns (a: Node, b: Node)
    requires IsDoc(d) && x in Keys(d) && y in Keys(d) && x != None && y != None
    requires x !in Ancestors(d, y) && y !in Ancestors(d, x)
    ensures Over(d, a, x) && Over(d, b, y) && a.parent == b.parent && a != b
  {
    hide Hung, Flat, Ancestors, Over;
    DocParts(d);
    var none := Node(Id(0, 0), 0, None, L, false, false, None);
    DocOver(d, none, x);
    DocOver(d, none, y);
    if x in Keys(d.left) && y in Keys(d.left) {
      a, b := Siblings(d.left, None, L, x, y);
    } else if x in Keys(d.right) && y in Keys(d.right) {
      a, b := Siblings(d.right, None, R, x, y);
    } else if x in Keys(d.left) {
      a := HeadOver(d.left, None, L, x);
      b := HeadOver(d.right, None, R, y);
    } else {
      a := HeadOver(d.right, None, R, x);
      b := HeadOver(d.left, None, L, y);
    }
    DocOver(d, a, x);
    DocOver(d, b, y);
  }

  lemma CoreOrder(s: State, p: set<Op>, a: Node, b: Node, x: Key, y: Key)
    requires Core(s, p) && a in Flat(s.tree) && b in Flat(s.tree) && a.parent == b.parent && a != b
    requires x in Keys(s.tree) && Some(a.id) in Ancestors(s.tree, x)
    requires y in Keys(s.tree) && Some(b.id) in Ancestors(s.tree, y)
    ensures Ahead(Flat(s.tree), x, y) <==> ComesFirst(a, b)
  {
    hide Flat, Ancestors, Ahead, ComesFirst, Built, IsDoc;
    SiblingsOrder(s.tree, AppliedOps(s, p), a, b, x, y);
  }

  /** In every run, at every replica. */
  lemma RunOrder(ids: set<nat>, acts: seq<Action>, r: nat, a: Node, b: Node, x: Key, y: Key)
    requires RunOf(ids, acts).Some? && r in RunOf(ids, acts).value.replicas
    requires
      var d := RunOf(ids, acts).value.replicas[r].tree;
      && d.Trees? && a in Flat(d) && b in Flat(d) && a.parent == b.parent && a != b
      && x in Keys(d) && Some(a.id) in Ancestors(d, x) && y in Keys(d) && Some(b.id) in Ancestors(d, y)
    ensures Ahead(Flat(RunOf(ids, acts).value.replicas[r].tree), x, y) <==> ComesFirst(a, b)
  {
    hide Flat, Ancestors, Ahead, ComesFirst, Core, RunOf, Inv;
    var c := RunOf(ids, acts).value;
    RunInv(ids, acts);
    ReplicaAt(c, r);
    CoreOrder(c.replicas[r], c.received[r], a, b, x, y);
  }
}
