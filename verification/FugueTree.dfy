/** The tree as the engine stores it: id-keyed records with sibling arrays and subtree sizes. */
module FugueTrees {
  import opened Identifiers
  import opened Operations
  import opened FugueShape

  datatype Rec = Rec(top: Option<Node>, leftChildren: seq<Key>, rightChildren: seq<Key>,
                     visibleSize: int, totalSize: int)
  {
    function Children(s: Side): seq<Key> {
      if s == L then leftChildren else rightChildren
    }

    function WithChildren(s: Side, ks: seq<Key>): Rec {
      if s == L then this.(leftChildren := ks) else this.(rightChildren := ks)
    }

    function Resized(deltaTotal: int, deltaVisible: int): Rec {
      this.(totalSize := totalSize + deltaTotal, visibleSize := visibleSize + deltaVisible)
    }
  }

  /** What the record of a subtree's top must hold. */
  function RecOf(t: Forest): Rec
    requires t.Trees?
  {
    Rec(t.top, Heads(t.left), Heads(t.right), NumVis(Flat(t)), |Flat(t)|)
  }

  datatype Placement = Placement(parent: Key, side: Side)

  /** The spec of `decidePlacement`: the node left of the position, or the root. */
  function LeftOrigin(d: Forest, v: int): (k: Key)
    requires IsDoc(d) && 0 <= v <= NumVis(Flat(d))
    ensures k in Keys(d)
  {
    if v == 0 then None
    else
      VisInFlat(Flat(d), v - 1);
      DocKeys(d);
      Some(Vis(Flat(d))[v - 1].id)
  }

  function PlacementAt(d: Forest, k: Key): Placement
    requires k in Keys(d)
  {
    var r := Find(d, k).right;
    if r.Empty? || Leftmost(r).None? then Placement(k, R) else Placement(Some(Leftmost(r).value.id), L)
  }

  datatype Removal = Missing | HasChildren | Removed(node: Node)

  datatype Frame = Frame(side: Side, childIndex: nat)

  ghost predicate FrameOk(d: Forest, k: Key, fr: Frame) {
    k in Keys(d) && fr.childIndex <= |Heads(Find(d, k).Kids(fr.side))|
  }

  /** What the traversal still has to emit for one stack frame. */
  ghost function FrameRest(d: Forest, k: Key, fr: Frame): seq<Node>
    requires FrameOk(d, k, fr)
  {
    var t := Find(d, k);
    if fr.side == L then Flat(Drop(t.left, fr.childIndex)) + t.Self() + Flat(t.right)
    else Flat(Drop(t.right, fr.childIndex))
  }

  /** Loop steps of the traversal for a whole sibling list, and for one stack frame. */
  ghost function Steps(f: Forest): nat {
    if f.Empty? then 0 else 3 + Steps(f.left) + Steps(f.right) + Steps(f.rest)
  }

  ghost function FrameSteps(d: Forest, k: Key, fr: Frame): nat
    requires FrameOk(d, k, fr)
  {
    var t := Find(d, k);
    if fr.side == L then 2 + Steps(Drop(t.left, fr.childIndex)) + Steps(t.right)
    else 1 + Steps(Drop(t.right, fr.childIndex))
  }

  /** The traversal stack together with the node each frame belongs to, innermost first. */
  datatype Trail = Bottom | Level(key: Key, frame: Frame, outer: Trail)

  ghost predicate TrailOk(d: Forest, t: Trail) {
    t.Level? ==>
      && FrameOk(d, t.key, t.frame) && TrailOk(d, t.outer)
      && if t.outer.Bottom? then t.key == None
         else Find(d, t.key).top.Some? && Find(d, t.key).top.value.parent == t.outer.key
  }

  ghost function Frames(t: Trail): seq<Frame> {
    if t.Bottom? then [] else Frames(t.outer) + [t.frame]
  }

  ghost function TrailRest(d: Forest, t: Trail): seq<Node>
    requires TrailOk(d, t)
  {
    if t.Bottom? then [] else FrameRest(d, t.key, t.frame) + TrailRest(d, t.outer)
  }

  ghost function TrailSteps(d: Forest, t: Trail): nat
    requires TrailOk(d, t)
  {
    if t.Bottom? then 0 else FrameSteps(d, t.key, t.frame) + TrailSteps(d, t.outer)
  }

  lemma FramePush(d: Forest, k: Key, fr: Frame)
    requires IsDoc(d) && FrameOk(d, k, fr) && fr.childIndex < |Heads(Find(d, k).Kids(fr.side))|
    ensures
      var child := Heads(Find(d, k).Kids(fr.side))[fr.childIndex];
      var next := Frame(fr.side, fr.childIndex + 1);
      && FrameOk(d, child, Frame(L, 0)) && FrameOk(d, k, next)
      && Find(d, child).top.Some? && Find(d, child).top.value.parent == k
      && |Flat(Find(d, child))| > 0
      && FrameRest(d, k, fr) == FrameRest(d, child, Frame(L, 0)) + FrameRest(d, k, next)
      && FrameSteps(d, k, fr) == FrameSteps(d, child, Frame(L, 0)) + FrameSteps(d, k, next) + 1
  {
    var kids := Find(d, k).Kids(fr.side);
    KidAt(d, k, fr.side, fr.childIndex);
    DropStep(kids, fr.childIndex);
    var t := Drop(kids, fr.childIndex);
    FirstOfList(t);
    if fr.side == L {
      Regroup3(Flat(t.Alone()), Flat(t.rest), Find(d, k).Self(), Flat(Find(d, k).right));
    }
  }

  lemma FirstOfList(t: Forest)
    requires t.Trees? && t.top.Some?
    ensures Flat(t.Alone()) == Flat(t.left) + t.Self() + Flat(t.right) && |Flat(t.Alone())| > 0
    ensures Flat(t) == Flat(t.Alone()) + Flat(t.rest)
  {
    assert Flat(t.Alone()) == Flat(t.left) + t.Self() + Flat(t.right);
    assert t.top.value in t.Self();
  }

  lemma Regroup3<T>(a: seq<T>, b: seq<T>, c: seq<T>, e: seq<T>)
    ensures (a + b) + c + e == a + (b + c + e)
  {
  }

  lemma FrameDone(d: Forest, k: Key, fr: Frame)
    requires IsDoc(d) && FrameOk(d, k, fr) && fr.childIndex == |Heads(Find(d, k).Kids(fr.side))|
    ensures Drop(Find(d, k).Kids(fr.side), fr.childIndex).Empty?
    ensures fr.side == R ==> FrameRest(d, k, fr) == [] && FrameSteps(d, k, fr) == 1
    ensures fr.side == L ==> FrameRest(d, k, fr) == Find(d, k).Self() + FrameRest(d, k, Frame(R, 0))
                             && FrameSteps(d, k, fr) == 1 + FrameSteps(d, k, Frame(R, 0))
  {
    assert |Heads(Drop(Find(d, k).Kids(fr.side), fr.childIndex))| == 0;
  }

  lemma TrailStart(d: Forest)
    requires IsDoc(d)
    ensures var t := Level(None, Frame(L, 0), Bottom); TrailOk(d, t) && TrailRest(d, t) == Flat(d)
  {
    var t := Level(None, Frame(L, 0), Bottom);
    assert FrameOk(d, None, t.frame);
    assert TrailRest(d, Bottom) == [];
    assert Flat(d) == Flat(d.left) + d.Self() + Flat(d.right);
    assert FrameRest(d, None, t.frame) == Flat(d.left) + d.Self() + Flat(d.right);
  }

  lemma TrailPush(d: Forest, t: Trail)
    requires IsDoc(d) && t.Level? && TrailOk(d, t) && t.frame.childIndex < |Heads(Find(d, t.key).Kids(t.frame.side))|
    ensures
      var child := Heads(Find(d, t.key).Kids(t.frame.side))[t.frame.childIndex];
      var t' := Level(child, Frame(L, 0), t.(frame := Frame(t.frame.side, t.frame.childIndex + 1)));
      && child in Keys(d) && |Flat(Find(d, child))| > 0
      && TrailOk(d, t') && TrailRest(d, t') == TrailRest(d, t) && TrailSteps(d, t') < TrailSteps(d, t)
  {
    FramePush(d, t.key, t.frame);
  }

  lemma TrailDone(d: Forest, t: Trail)
    requires IsDoc(d) && t.Level? && TrailOk(d, t) && t.frame.childIndex == |Heads(Find(d, t.key).Kids(t.frame.side))|
    ensures
      var t' := if t.frame.side == L then t.(frame := Frame(R, 0)) else t.outer;
      && TrailOk(d, t') && TrailSteps(d, t') < TrailSteps(d, t)
      && TrailRest(d, t) == if t.frame.side == L then Find(d, t.key).Self() + TrailRest(d, t') else TrailRest(d, t')
  {
    FrameDone(d, t.key, t.frame);
  }

  /** The traversal's state: what is emitted and what the stack still holds make up the document. */
  ghost predicate Traversal(d: Forest, current: Key, stack: seq<Frame>, t: Trail, out: seq<Node>) {
    t.Level? && t.key == current && stack == Frames(t) && TrailOk(d, t) && out + TrailRest(d, t) == Flat(d)
  }

  lemma TraversalPush(d: Forest, current: Key, stack: seq<Frame>, t: Trail, out: seq<Node>) returns (t': Trail)
    requires IsDoc(d) && Traversal(d, current, stack, t, out)
    requires t.frame.childIndex < |Heads(Find(d, current).Kids(t.frame.side))|
    ensures |stack| > 0 && stack[|stack| - 1] == t.frame
    ensures
      var child := Heads(Find(d, current).Kids(t.frame.side))[t.frame.childIndex];
      var next := Frame(t.frame.side, t.frame.childIndex + 1);
      && child in Keys(d) && |Flat(Find(d, child))| > 0
      && Traversal(d, child, stack[..|stack| - 1] + [next] + [Frame(L, 0)], t', out)
      && TrailSteps(d, t') < TrailSteps(d, t)
  {
    TrailPush(d, t);
    var child := Heads(Find(d, current).Kids(t.frame.side))[t.frame.childIndex];
    t' := Level(child, Frame(L, 0), t.(frame := Frame(t.frame.side, t.frame.childIndex + 1)));
  }

  lemma TraversalDone(d: Forest, current: Key, stack: seq<Frame>, t: Trail, out: seq<Node>) returns (t': Trail)
    requires IsDoc(d) && Traversal(d, current, stack, t, out)
    requires t.frame.childIndex == |Heads(Find(d, current).Kids(t.frame.side))|
    ensures |stack| > 0 && stack[|stack| - 1] == t.frame
    ensures
      if t.frame.side == L then
        && Traversal(d, current, stack[..|stack| - 1] + [Frame(R, 0)], t', out + Find(d, current).Self())
        && TrailSteps(d, t') < TrailSteps(d, t)
      else if current == None then out == Flat(d)
      else
        && Find(d, current).top.Some?
        && Traversal(d, Find(d, current).top.value.parent, stack[..|stack| - 1], t', out)
        && TrailSteps(d, t') < TrailSteps(d, t)
  {
    TrailDone(d, t);
    t' := if t.frame.side == L then t.(frame := Frame(R, 0)) else t.outer;
    if t.frame.side == L {
      var self := Find(d, current).Self();
      assert out + (self + TrailRest(d, t')) == (out + self) + TrailRest(d, t');
    } else if current == None {
      DocFind(d, None);
      assert t.outer.Bottom?;
      assert out + [] == out;
    }
  }

  /** Position `rest` of what is left of a scan is position `remaining` of the whole. */
  ghost predicate ScanAt(whole: seq<Node>, left: seq<Node>, remaining: nat, rest: int) {
    && 0 <= rest && remaining - rest == |whole| - |left|
    && |left| <= |whole| && left == whole[|whole| - |left|..]
  }

  ghost predicate ChildHolds(d: Forest, p: Key, s: Side, remaining: nat, child: Key, rest: nat)
    requires p in Keys(d)
  {
    && child in Keys(d) && child.Some? && Keys(Find(d, child)) < Keys(Find(d, p))
    && rest < NumVis(Flat(Find(d, child))) && remaining < NumVis(Flat(Find(d, p).Kids(s)))
    && Vis(Flat(Find(d, child)))[rest] == Vis(Flat(Find(d, p).Kids(s)))[remaining]
  }

  lemma ScanSplit(whole: seq<Node>, left: seq<Node>, child: seq<Node>, next: seq<Node>, remaining: nat, rest: int)
    requires ScanAt(whole, left, remaining, rest) && left == child + next
    ensures if rest < |child| then remaining < |whole| && child[rest] == whole[remaining]
            else ScanAt(whole, next, remaining, rest - |child|)
  {
    if rest < |child| { assert left[rest] == whole[|whole| - |left| + rest]; }
  }

  lemma DescendStep(d: Forest, p: Key, s: Side, i: nat, remaining: nat, rest: int)
    requires IsDoc(d) && p in Keys(d) && i < |Heads(Find(d, p).Kids(s))|
    requires ScanAt(Vis(Flat(Find(d, p).Kids(s))), Vis(Flat(Drop(Find(d, p).Kids(s), i))), remaining, rest)
    ensures Heads(Find(d, p).Kids(s))[i] in Keys(d)
    ensures
      var kids := Find(d, p).Kids(s);
      var k := Heads(kids)[i];
      var v := NumVis(Flat(Find(d, k)));
      if rest < v then ChildHolds(d, p, s, remaining, k, rest)
      else ScanAt(Vis(Flat(kids)), Vis(Flat(Drop(kids, i + 1))), remaining, rest - v)
  {
    var kids := Find(d, p).Kids(s);
    KidAt(d, p, s, i);
    DropStep(kids, i);
    var t := Drop(kids, i);
    VisAlone(t);
    ScanSplit(Vis(Flat(kids)), Vis(Flat(t)), Vis(Flat(t.Alone())), Vis(Flat(t.rest)), remaining, rest);
  }

  lemma VisAlone(t: Forest)
    requires t.Trees?
    ensures Vis(Flat(t)) == Vis(Flat(t.Alone())) + Vis(Flat(t.rest))
  {
    assert Flat(t.Alone()) == Flat(t.left) + t.Self() + Flat(t.right);
    VisConcat(Flat(t.left) + t.Self() + Flat(t.right), Flat(t.rest));
  }

  /** Which part of a tree holds its visible position `i`. */
  lemma VisParts(t: Forest, i: nat)
    requires t.Trees? && t.rest.Empty? && i < NumVis(Flat(t))
    ensures
      var a, s := NumVis(Flat(t.left)), NumVis(t.Self());
      && NumVis(Flat(t)) == a + s + NumVis(Flat(t.right))
      && Vis(Flat(t))[i] == if i < a then Vis(Flat(t.left))[i]
                            else if i < a + s then Vis(t.Self())[i - a]
                            else Vis(Flat(t.right))[i - a - s]
  {
    assert Flat(t) == Flat(t.left) + t.Self() + Flat(t.right);
    VisConcat3(Flat(t.left), t.Self(), Flat(t.right));
  }

  /** Visible position `remaining` of the tree at `cur` is position `rest` of the tree at `child`, below it. */
  ghost predicate Holds(d: Forest, cur: Key, remaining: nat, child: Key, rest: nat)
    requires cur in Keys(d)
  {
    && child in Keys(d) && Keys(Find(d, child)) < Keys(Find(d, cur))
    && rest < NumVis(Flat(Find(d, child))) && remaining < NumVis(Flat(Find(d, cur)))
    && Vis(Flat(Find(d, child)))[rest] == Vis(Flat(Find(d, cur)))[remaining]
  }

  /** Where the visible positions of the children on one side start. */
  function KidsOffset(t: Forest, s: Side): nat
    requires t.Trees?
  {
    if s == L then 0 else NumVis(Flat(t.left)) + NumVis(t.Self())
  }

  lemma VisAtKid(t: Forest, s: Side, j: nat, i: nat)
    requires t.Trees? && t.rest.Empty? && j < NumVis(Flat(t.Kids(s))) && i == j + KidsOffset(t, s)
    ensures i < NumVis(Flat(t)) && Vis(Flat(t))[i] == Vis(Flat(t.Kids(s)))[j]
  {
    assert Flat(t) == Flat(t.left) + t.Self() + Flat(t.right);
    VisConcat3(Flat(t.left), t.Self(), Flat(t.right));
  }

  lemma ChildToNode(d: Forest, cur: Key, s: Side, remaining: nat, inKids: nat, child: Key, rest: nat)
    requires cur in Keys(d) && ChildHolds(d, cur, s, inKids, child, rest)
    requires remaining == inKids + KidsOffset(Find(d, cur), s)
    ensures Holds(d, cur, remaining, child, rest)
  {
    VisAtKid(Find(d, cur), s, inKids, remaining);
  }

  lemma VisSelf(t: Forest)
    requires t.Trees?
    ensures Vis(t.Self()) == if t.top.Some? && !t.top.value.deleted then t.Self() else []
  {
  }

  lemma {:induction false} VisInFlat(ns: seq<Node>, i: nat)
    requires i < NumVis(ns)
    ensures Vis(ns)[i] in ns && !Vis(ns)[i].deleted
  {
    if !ns[0].deleted {
      if i > 0 { VisInFlat(ns[1..], i - 1); }
    } else {
      VisInFlat(ns[1..], i);
    }
  }

  /** The keys of a document: the root and the nodes of its order. */
  lemma DocKeys(d: Forest)
    requires IsDoc(d)
    ensures forall n :: n in Flat(d) ==> Some(n.id) in Keys(d)
    ensures forall k :: k in Keys(d) && k != None ==> exists n :: n in Flat(d) && k == Some(n.id)
  {
    FlatKeys(d.left, None, L);
    FlatKeys(d.right, None, R);
  }

  /** `m` with the size deltas added at the keys of `ks`. */
  function Adjusted(m: map<Key, Rec>, ks: set<Key>, deltaTotal: int, deltaVisible: int): map<Key, Rec> {
    map k | k in m :: if k in ks then m[k].Resized(deltaTotal, deltaVisible) else m[k]
  }

  lemma AdjustedStep(m: map<Key, Rec>, ks: set<Key>, k: Key, deltaTotal: int, deltaVisible: int)
    requires k in m && k !in ks
    ensures var m' := Adjusted(m, ks, deltaTotal, deltaVisible);
            m'[k := m'[k].Resized(deltaTotal, deltaVisible)] == Adjusted(m, ks + {k}, deltaTotal, deltaVisible)
  {
  }

  lemma AdjustedByNothing(m: map<Key, Rec>, ks: set<Key>)
    ensures Adjusted(m, ks, 0, 0) == m
  {
  }

  method IndexOf(ks: seq<Key>, k: Key) returns (i: nat)
    requires k in ks
    ensures i < |ks| && ks[i] == k && k !in ks[..i]
  {
    i := 0;
    while ks[i] != k
      invariant i < |ks| && k !in ks[..i]
      decreases |ks| - i
    {
      i := i + 1;
    }
  }

  class FugueTree {
    var nodes: map<Key, Rec>
    ghost var shape: Forest

    ghost predicate Valid()
      reads this
    {
      IsDoc(shape) && Describes(nodes, shape)
    }

    constructor ()
      ensures Valid() && shape == EmptyDoc
    {
      nodes := map[None := Rec(None, [], [], 0, 0)];
      shape := EmptyDoc;
    }

    method Size() returns (total: int, visible: int)
      requires Valid()
      ensures total == |Flat(shape)| && visible == NumVis(Flat(shape))
    {
      total, visible := nodes[None].totalSize, nodes[None].visibleSize;
    }

    predicate HasIdentifier(id: Id)
      reads this
    {
      Some(id) in nodes
    }

    method NodeByIdentifier(id: Id) returns (node: Option<Node>)
      requires Valid()
      ensures node.Some? <==> Some(id) in Keys(shape)
      ensures node.Some? ==> node == Find(shape, Some(id)).top && node.value.id == id
    {
      if Some(id) in nodes {
        DocFind(shape, Some(id));
        node := nodes[Some(id)].top;
      } else {
        node := None;
      }
    }

    /** Adds the deltas to `start` and everything above it. */
    method UpdateSize(start: Key, deltaTotal: int, deltaVisible: int)
      requires IsDoc(shape) && nodes.Keys == Keys(shape) && start in Keys(shape)
      requires forall k :: k in Keys(shape) ==> nodes[k].top == Find(shape, k).top
      modifies this`nodes
      ensures nodes == Adjusted(old(nodes), Ancestors(shape, start), deltaTotal, deltaVisible)
    {
      hide Ancestors, Keys, Find, Placed, Apart;
      var anc: Option<Key> := Some(start);
      ghost var done: set<Key> := {};
      AncestorsChar(shape, start);
      assert nodes == Adjusted(nodes, {}, deltaTotal, deltaVisible);
      while anc.Some?
        invariant nodes == Adjusted(old(nodes), done, deltaTotal, deltaVisible)
        invariant anc.None? ==> done == Ancestors(shape, start)
        invariant anc.Some? ==> anc.value in Keys(shape) && done !! Ancestors(shape, anc.value)
                                && done + Ancestors(shape, anc.value) == Ancestors(shape, start)
        decreases if anc.None? then {} else Ancestors(shape, anc.value)
      {
        var k := anc.value;
        AncestorsChar(shape, k);
        FindWithin(shape, k);
        AdjustedStep(old(nodes), done, k, deltaTotal, deltaVisible);
        done := done + {k};
        nodes := nodes[k := nodes[k].Resized(deltaTotal, deltaVisible)];
        if k == None {
          RootAncestors(shape);
          anc := None;
        } else {
          DocAncestorsUp(shape, k);
          anc := Some(nodes[k].top.value.parent);
        }
      }
    }

    /** Splices the new leaf into its parent's sibling array; sizes are still to be updated. */
    method Link(node: Node)
      requires Valid() && Some(node.id) !in Keys(shape) && node.parent in Keys(shape)
      modifies this`nodes
      ensures nodes == Linked(old(nodes), node, InsertIndex(Find(shape, node.parent).Kids(node.side), node))
    {
      var siblings := nodes[node.parent].Children(node.side);
      ghost var kids := Find(shape, node.parent).Kids(node.side);
      assert siblings == Heads(kids);
      var i := 0;
      while i < |siblings|
        invariant 0 <= i <= InsertIndex(kids, node)
        invariant nodes == old(nodes)
      {
        KidAt(shape, node.parent, node.side, i);
        InsertIndexScan(kids, node, i);
        assert siblings[i] in nodes && nodes[siblings[i]].top == Drop(kids, i).top;
        if SiblingLess(node, nodes[siblings[i]].top.value) {
          break;
        }
        i := i + 1;
      }
      assert node.parent in nodes && nodes[node.parent].Children(node.side) == siblings;
      nodes := nodes[Some(node.id) := Rec(Some(node), [], [], 0, 0)];
      nodes := nodes[node.parent := nodes[node.parent].WithChildren(node.side, SeqInsert(siblings, i, Some(node.id)))];
    }

    /** `ok` is false where the operation is refused: the parent is not present. */
    method Attach(id: Id, value: nat, bind: bool, parent: Key, side: Side) returns (ok: bool)
      requires Valid() && Some(id) !in Keys(shape)
      modifies this
      ensures Valid()
      ensures ok <==> parent in old(Keys(shape))
      ensures shape == if ok then FugueShape.Attach(old(shape), Node(id, value, parent, side, bind, false, None))
        else old(shape)
    {
      if parent !in nodes {
        return false;
      }
      var node := Node(id, value, parent, side, bind, false, None);
      Link(node);
      ghost var was := shape;
      shape := FugueShape.Attach(was, node);
      AttachRecords(was, node, old(nodes));
      UpdateSize(Some(id), 1, 1);
      return true;
    }

    /** `ok` is false where the operation is refused: no such node. */
    method SetDeleted(id: Id, deleted: bool, who: Option<Id>) returns (ok: bool)
      requires Valid()
      modifies this
      ensures Valid()
      ensures ok <==> Some(id) in old(Keys(shape))
      ensures shape == if ok then SetFlags(old(shape), Some(id), deleted, who) else old(shape)
    {
      var k := Some(id);
      if k !in nodes {
        return false;
      }
      SetFlagsRecords(shape, k, deleted, who, nodes);
      var was := nodes[k].top.value.deleted;
      nodes := nodes[k := nodes[k].(top := Flagged(nodes[k].top, k, deleted, who))];
      shape := SetFlags(shape, k, deleted, who);
      if was != deleted {
        UpdateSize(k, 0, if deleted then -1 else 1);
      } else {
        AdjustedByNothing(nodes, Ancestors(shape, k));
      }
      return true;
    }

    /** Splices a leaf out of its parent's sibling array, repairs the sizes and drops its record. */
    method Unlink(k: Key) returns (node: Node)
      requires Valid() && k in Keys(shape) && k.Some?
      requires Find(shape, k).left.Empty? && Find(shape, k).right.Empty?
      modifies this
      ensures Valid()
      ensures Find(old(shape), k).top == Some(node) && shape == Prune(old(shape), {k})
    {
      DocInSiblings(shape, k);
      node := nodes[k].top.value;
      var siblings := nodes[node.parent].Children(node.side);
      var i := IndexOf(siblings, k);
      assert LeafAt(shape, k, node, i);
      UnlinkedFacts(shape, node, i, nodes);
      UnlinkRecords(shape, node, i, nodes);
      nodes := nodes[node.parent := nodes[node.parent].WithChildren(node.side, SeqRemove(siblings, i))];
      UpdateSize(k, -1, if node.deleted then 0 else -1);
      nodes := nodes - {k};
      shape := Prune(shape, {k});
    }

    /** `HasChildren` is where the operation is refused. */
    method Remove(id: Id) returns (r: Removal)
      requires Valid()
      modifies this
      ensures Valid()
      ensures r.Missing? <==> Some(id) !in old(Keys(shape))
      ensures !r.Removed? ==> shape == old(shape)
      ensures r.Removed? ==> Find(old(shape), Some(id)) == Leaf(r.node) && shape == Prune(old(shape), {Some(id)})
      ensures r.HasChildren? ==> Some(id) in Keys(shape)
                                 && (Find(shape, Some(id)).left.Trees? || Find(shape, Some(id)).right.Trees?)
    {
      if Some(id) !in nodes {
        return Missing;
      }
      if nodes[Some(id)].leftChildren != [] || nodes[Some(id)].rightChildren != [] {
        return HasChildren;
      }
      var node := Unlink(Some(id));
      return Removed(node);
    }

    /** The same removal, refusing instead of throwing. */
    method TryRemoveLeaf(id: Id) returns (node: Option<Node>)
      requires Valid()
      modifies this
      ensures Valid()
      ensures node.Some? <==> Some(id) in old(Keys(shape)) && Find(old(shape), Some(id)).left.Empty?
                              && Find(old(shape), Some(id)).right.Empty?
      ensures if node.Some? then Find(old(shape), Some(id)) == Leaf(node.value)
        && shape == Prune(old(shape), {Some(id)})
              else shape == old(shape)
    {
      if Some(id) !in nodes {
        return None;
      }
      if nodes[Some(id)].leftChildren != [] || nodes[Some(id)].rightChildren != [] {
        return None;
      }
      var n := Unlink(Some(id));
      return Some(n);
    }

    /**
     * Scans one sibling array for the visible position `remaining`: the child that holds it and
     * the position within that child, or no child and what is left of the position.
     */
    method Descend(p: Key, s: Side, remaining: nat) returns (child: Option<Key>, rest: nat)
      requires Valid() && p in Keys(shape)
      ensures child.None? ==> rest + NumVis(Flat(Find(shape, p).Kids(s))) == remaining
      ensures child.Some? ==>
        remaining < NumVis(Flat(Find(shape, p).Kids(s))) && ChildHolds(shape, p, s, remaining, child.value, rest)
    {
      var children := nodes[p].Children(s);
      ghost var kids := Find(shape, p).Kids(s);
      assert children == Heads(kids);
      rest := remaining;
      var i := 0;
      while i < |children|
        invariant i <= |children|
        invariant ScanAt(Vis(Flat(kids)), Vis(Flat(Drop(kids, i))), remaining, rest)
      {
        DescendStep(shape, p, s, i, remaining, rest);
        assert nodes[children[i]] == RecOf(Find(shape, children[i]));
        if rest < nodes[children[i]].visibleSize {
          return Some(children[i]), rest;
        }
        rest := rest - nodes[children[i]].visibleSize;
        i := i + 1;
      }
      assert Drop(kids, i).Empty?;
      NothingVisible();
      assert Vis(Flat(Empty)) == [];
      child := None;
    }

    /** One level of the walk: this node itself, or the child and the position to go on with. */
    method WalkNode(cur: Key, remaining: nat) returns (child: Option<Key>, rest: nat)
      requires Valid() && cur in Keys(shape) && remaining < NumVis(Flat(Find(shape, cur)))
      ensures child.None? ==> Find(shape, cur).top == Some(Vis(Flat(Find(shape, cur)))[remaining])
      ensures child.Some? ==> Holds(shape, cur, remaining, child.value, rest)
    {
      VisParts(Find(shape, cur), remaining);
      VisSelf(Find(shape, cur));
      var rec := nodes[cur];
      child, rest := Descend(cur, L, remaining);
      if child.Some? {
        ChildToNode(shape, cur, L, remaining, remaining, child.value, rest);
        return;
      }
      if rec.top.Some? && !rec.top.value.deleted {
        if rest == 0 {
          return None, 0;
        }
        rest := rest - 1;
      }
      ghost var inKids := rest;
      child, rest := Descend(cur, R, rest);
      if child.Some? { ChildToNode(shape, cur, R, remaining, inKids, child.value, rest); }
    }

    method NodeAtVisible(visibleIndex: int) returns (node: Option<Node>)
      requires Valid()
      ensures node == if 0 <= visibleIndex < NumVis(Flat(shape)) then Some(Vis(Flat(shape))[visibleIndex]) else None
    {
      if visibleIndex < 0 || visibleIndex >= nodes[None].visibleSize {
        return None;
      }
      var cur, remaining: nat := None, visibleIndex;
      while true
        invariant cur in Keys(shape) && remaining < NumVis(Flat(Find(shape, cur)))
        invariant Vis(Flat(Find(shape, cur)))[remaining] == Vis(Flat(shape))[visibleIndex]
        decreases Keys(Find(shape, cur))
      {
        var child, rest := WalkNode(cur, remaining);
        if child.None? {
          return nodes[cur].top;
        }
        cur, remaining := child.value, rest;
      }
    }

    /** The leftmost descendant of a node. */
    method LeftmostDescendant(k: Key) returns (leftmost: Key)
      requires Valid() && k in Keys(shape) && k.Some?
      ensures leftmost in Keys(shape) && leftmost.Some?
      ensures Leftmost(Find(shape, k)) == Find(shape, leftmost).top && Find(shape, leftmost).left.Empty?
    {
      leftmost := k;
      while nodes[leftmost].leftChildren != []
        invariant leftmost in Keys(shape) && leftmost.Some?
        invariant Leftmost(Find(shape, leftmost)) == Leftmost(Find(shape, k))
        decreases Keys(Find(shape, leftmost))
      {
        KidAt(shape, leftmost, L, 0);
        ghost var kids := Find(shape, leftmost).left;
        assert Leftmost(kids) == Leftmost(kids.Alone());
        leftmost := nodes[leftmost].leftChildren[0];
      }
      DocFind(shape, leftmost);
    }

    /** `None` where the operation is refused: no visible node left of the position. */
    method DecidePlacement(visibleIndex: int) returns (placement: Option<Placement>)
      requires Valid()
      ensures placement == if 0 <= visibleIndex <= NumVis(Flat(shape))
                           then Some(PlacementAt(shape, LeftOrigin(shape, visibleIndex))) else None
    {
      hide Flat, Vis, Unique, Placed, Apart;
      var leftOrigin: Key := None;
      if visibleIndex != 0 {
        var n := NodeAtVisible(visibleIndex - 1);
        if n.None? {
          return None;
        }
        leftOrigin := Some(n.value.id);
      }
      assert leftOrigin == LeftOrigin(shape, visibleIndex);
      if nodes[leftOrigin].rightChildren == [] {
        return Some(Placement(leftOrigin, R));
      }
      KidAt(shape, leftOrigin, R, 0);
      ghost var kids := Find(shape, leftOrigin).right;
      assert Leftmost(kids) == Leftmost(kids.Alone());
      var rightOrigin := LeftmostDescendant(nodes[leftOrigin].rightChildren[0]);
      DocFind(shape, rightOrigin);
      return Some(Placement(rightOrigin, L));
    }

    /** In-order traversal with an explicit stack. */
    method ToArray() returns (out: seq<Node>)
      requires Valid()
      ensures out == Flat(shape)
    {
      var current: Key := None;
      var stack := [Frame(L, 0)];
      ghost var trail := Level(None, Frame(L, 0), Bottom);
      out := [];
      TrailStart(shape);
      while true
        invariant Traversal(shape, current, stack, trail, out)
        decreases TrailSteps(shape, trail)
      {
        var n := |stack| - 1;
        assert stack == Frames(trail.outer) + [trail.frame];
        var top := stack[n];
        var rec := nodes[current];
        assert rec == RecOf(Find(shape, current));
        var children := rec.Children(top.side);
        if top.childIndex == |children| {
          trail := TraversalDone(shape, current, stack, trail, out);
          if top.side == L {
            if rec.top.Some? {
              out := out + [rec.top.value];
            } else {
              assert out + [] == out;
            }
            stack := stack[..n] + [Frame(R, 0)];
          } else {
            if current == None {
              return;
            }
            current := rec.top.value.parent;
            stack := stack[..n];
          }
        } else {
          trail := TraversalPush(shape, current, stack, trail, out);
          var child := children[top.childIndex];
          stack := stack[..n] + [Frame(top.side, top.childIndex + 1)];
          assert nodes[child] == RecOf(Find(shape, child));
          if nodes[child].totalSize > 0 {
            current := child;
            stack := stack + [Frame(L, 0)];
          }
        }
      }
    }

    /** Visible nodes in all children of `p` on side `s`. */
    method SumAll(p: Key, s: Side) returns (sum: int)
      requires Valid() && p in Keys(shape)
      ensures sum == NumVis(Flat(Find(shape, p).Kids(s)))
    {
      var children := nodes[p].Children(s);
      hide IsDoc, Vis, Flat, Ancestors, Keys;
      ghost var kids := Find(shape, p).Kids(s);
      assert children == Heads(kids);
      sum := 0;
      var i := 0;
      while i < |children|
        invariant i <= |children| && sum + NumVis(Flat(Drop(kids, i))) == NumVis(Flat(kids))
      {
        KidAt(shape, p, s, i);
        DropStep(kids, i);
        VisAlone(Drop(kids, i));
        assert nodes[children[i]] == RecOf(Find(shape, children[i]));
        sum := sum + nodes[children[i]].visibleSize;
        i := i + 1;
      }
      assert Drop(kids, i).Empty?;
    }

    /** Visible nodes in the children of `p` on side `s` that come before `stop`. */
    method SumBefore(p: Key, s: Side, stop: Key) returns (sum: int)
      requires Valid() && p in Keys(shape) && stop in Heads(Find(shape, p).Kids(s))
      ensures stop in Keys(Find(shape, p).Kids(s)) && sum == NumVis(Before(Find(shape, p).Kids(s), stop))
    {
      hide SumAt, IsDoc, Vis, Flat, Heads, Before, Keys, Drop;
      var children := nodes[p].Children(s);
      ghost var kids := Find(shape, p).Kids(s);
      assert children == Heads(kids);
      SumStarts(kids, stop);
      sum := 0;
      var i := 0;
      while i < |children|
        invariant i <= |children| && SumAt(kids, i, stop, sum)
      {
        SumStep(shape, p, s, i, stop, sum);
        if children[i] == stop {
          break;
        }
        assert nodes[children[i]] == RecOf(Find(shape, children[i]));
        sum := sum + nodes[children[i]].visibleSize;
        i := i + 1;
      }
      SumStep(shape, p, s, i, stop, sum);
    }

    /** The caret position right of `id`; 0 for the document start or an unknown node. */
    method VisibleIndexRightOf(id: Option<Id>) returns (count: int)
      requires Valid()
      ensures count == if id == None || id !in Keys(shape) then 0 else NumVis(UpTo(shape, id))
    {
      if id == None || id !in nodes {
        return 0;
      }
      count := SumAll(id, L);
      if !nodes[id].top.value.deleted {
        count := count + 1;
      }
      UpToCount(shape, id);
      var cur: Key := id;
      while cur != None
        invariant cur in Keys(shape) && count + NumVis(Before(shape, cur)) == NumVis(UpTo(shape, id))
        decreases Ancestors(shape, cur)
      {
        DocBeforeUp(shape, cur);
        DocAncestorsUp(shape, cur);
        var node := nodes[cur].top.value;
        WithinCount(shape, cur);
        if node.side == L {
          var before := SumBefore(node.parent, L, cur);
          count := count + before;
        } else {
          var lefts := SumAll(node.parent, L);
          count := count + lefts;
          if nodes[node.parent].top.Some? && !nodes[node.parent].top.value.deleted {
            count := count + 1;
          }
          var before := SumBefore(node.parent, R, cur);
          count := count + before;
        }
        cur := node.parent;
      }
    }
  }

  lemma {:induction false} HeadsAreKeys(f: Forest)
    ensures forall k :: k in Heads(f) ==> k in Keys(f)
  {
    if f.Trees? { HeadsAreKeys(f.rest); }
  }

  /** `sum` is the visible count of the trees before `stop` among the first `i`. */
  ghost predicate SumAt(kids: Forest, i: nat, stop: Key, sum: int) {
    && i <= |Heads(kids)| && stop in Heads(Drop(kids, i)) && stop in Keys(Drop(kids, i)) && stop in Keys(kids)
    && sum + NumVis(Before(Drop(kids, i), stop)) == NumVis(Before(kids, stop))
  }

  lemma NothingVisible()
    ensures NumVis(Flat(Empty)) == 0
  {
  }

  lemma SumStarts(kids: Forest, stop: Key)
    requires stop in Heads(kids)
    ensures SumAt(kids, 0, stop, 0) && stop in Keys(kids)
  {
    HeadsAreKeys(kids);
  }

  lemma SumStep(d: Forest, p: Key, s: Side, i: nat, stop: Key, sum: int)
    requires IsDoc(d) && p in Keys(d) && SumAt(Find(d, p).Kids(s), i, stop, sum)
    ensures
      var kids := Find(d, p).Kids(s);
      && i < |Heads(kids)| && Heads(kids)[i] in Keys(d)
      && (Heads(kids)[i] == stop ==> sum == NumVis(Before(kids, stop)))
      && (Heads(kids)[i] != stop ==> SumAt(kids, i + 1, stop, sum + NumVis(Flat(Find(d, Heads(kids)[i])))))
  {
    var kids := Find(d, p).Kids(s);
    KidAt(d, p, s, i);
    DropStep(kids, i);
    DocFind(d, p);
    if Heads(kids)[i] != stop { BeforeNext(kids, i, stop); }
  }

  lemma BeforeNext(kids: Forest, i: nat, stop: Key)
    requires Unique(kids) && i < |Heads(kids)| && Heads(kids)[i] != stop && stop in Heads(kids)[i..]
    ensures Drop(kids, i).Trees? && Drop(kids, i).rest == Drop(kids, i + 1)
    ensures stop in Heads(Drop(kids, i + 1)) && stop in Keys(Drop(kids, i + 1)) && stop in Keys(Drop(kids, i))
    ensures NumVis(Before(Drop(kids, i), stop))
      == NumVis(Flat(Drop(kids, i).Alone())) + NumVis(Before(Drop(kids, i + 1), stop))
  {
    DropStep(kids, i);
    DropFind(kids, i);
    DropUnique(kids, i);
    var t := Drop(kids, i);
    HeadsAreKeys(t.rest);
    assert Heads(t) == [t.TopKey()] + Heads(t.rest);
    assert Flat(t.Alone()) == Flat(t.left) + t.Self() + Flat(t.right);
    VisConcat(Flat(t.left) + t.Self() + Flat(t.right), Before(t.rest, stop));
  }

  lemma {:induction false} DropUnique(f: Forest, i: nat)
    requires Unique(f) && i <= |Heads(f)|
    ensures Unique(Drop(f, i))
  {
    if i > 0 { DropUnique(f.rest, i - 1); }
  }

  lemma UpToCount(d: Forest, k: Key)
    requires IsDoc(d) && k in Keys(d) && k.Some?
    ensures Find(d, k).top.Some?
    ensures NumVis(UpTo(d, k)) == NumVis(Before(d, k)) + NumVis(Flat(Find(d, k).left))
                                  + if Find(d, k).top.value.deleted then 0 else 1
    ensures NumVis(Before(d, None)) == 0
  {
    DocFind(d, k);
    VisSelf(Find(d, k));
    VisConcat3(Before(d, k), Flat(Find(d, k).left), Find(d, k).Self());
  }

  /** The visible count of what precedes a node, split at its parent. */
  lemma WithinCount(d: Forest, k: Key)
    requires IsDoc(d) && k in Keys(d) && k.Some?
    ensures Find(d, k).top.Some?
    ensures var n := Find(d, k).top.value;
            && n.parent in Keys(d) && k in Keys(Find(d, n.parent).Kids(n.side))
            && var t := Find(d, n.parent);
               NumVis(Before(d, k)) == NumVis(Before(d, n.parent)) + NumVis(Before(t.Kids(n.side), k))
                 + if n.side == L then 0
                   else NumVis(Flat(t.left)) + if t.top.Some? && !t.top.value.deleted then 1 else 0
  {
    DocBeforeUp(d, k);
    var n := Find(d, k).top.value;
    var t := Find(d, n.parent);
    VisConcat(Before(d, n.parent), Within(t, n.side, k));
    VisSelf(t);
    if n.side == R { VisConcat3(Flat(t.left), t.Self(), Before(t.right, k)); }
  }

  ghost function Linked(m: map<Key, Rec>, n: Node, i: nat): map<Key, Rec>
    requires n.parent in m && i <= |m[n.parent].Children(n.side)|
  {
    m[Some(n.id) := Rec(Some(n), [], [], 0, 0)]
     [n.parent := m[n.parent].WithChildren(n.side, SeqInsert(m[n.parent].Children(n.side), i, Some(n.id)))]
  }

  /** `m` describes the tree `d`. */
  ghost predicate Describes(m: map<Key, Rec>, d: Forest) {
    m.Keys == Keys(d) && forall k {:trigger m[k]} :: k in Keys(d) ==> m[k] == RecOf(Find(d, k))
  }

  /** `k`'s record is right but for the sizes on the path from `start` up. */
  ghost predicate SizesDue(m: map<Key, Rec>, e: Forest, start: Key, total: int, visible: int, k: Key)
    requires start in Keys(e)
  {
    && k in m && k in Keys(e) && m[k].top == Find(e, k).top
    && RecOf(Find(e, k)) == if k in Ancestors(e, start) then m[k].Resized(total, visible) else m[k]
  }

  lemma SizesDueDescribes(m: map<Key, Rec>, e: Forest, start: Key, total: int, visible: int)
    requires start in Keys(e) && m.Keys == Keys(e)
    requires forall k :: k in m ==> SizesDue(m, e, start, total, visible, k)
    ensures forall k :: k in m ==> m[k].top == Find(e, k).top
    ensures Describes(Adjusted(m, Ancestors(e, start), total, visible), e)
  {
  }

  lemma RecAttach(t: Forest, n: Node)
    requires t.Trees? && Unique(t) && Some(n.id) !in Keys(t) && !n.deleted
    ensures RecOf(Attach(t, n)) ==
      if n.parent !in Keys(t) then RecOf(t)
      else if n.parent == t.TopKey() then
        RecOf(t)
        .WithChildren(n.side, SeqInsert(Heads(t.Kids(n.side)), InsertIndex(t.Kids(n.side), n), Some(n.id)))
        .Resized(1, 1)
      else RecOf(t).Resized(1, 1)
  {
    AttachSizes(t, n);
    if n.parent !in Keys(t) {
      AttachAbsent(t, n);
    } else {
      AttachCases(t, n);
      HeadsInsertSorted(t.Kids(n.side), n);
      HeadsAttach(t.left, n);
      HeadsAttach(t.right, n);
    }
  }

  /** Who gains the new leaf as a descendant. */
  lemma AttachAncestors(d: Forest, n: Node, k: Key)
    requires IsDoc(d) && Some(n.id) !in Keys(d) && n.parent in Keys(d) && k in Keys(d)
    ensures Some(n.id) in Keys(Attach(d, n))
    ensures k in Ancestors(Attach(d, n), Some(n.id)) <==> n.parent in Keys(Find(d, k))
  {
    AttachDoc(d, n);
    AncestorsChar(Attach(d, n), Some(n.id));
    FindAttach(d, n, k);
    FindUnique(d, k);
    FindWithin(d, k);
    if n.parent in Keys(Find(d, k)) { AttachKeys(Find(d, k), n); } else { AttachAbsent(Find(d, k), n); }
  }

  lemma RootAncestors(d: Forest)
    requires IsDoc(d)
    ensures None in Keys(d) && Ancestors(d, None) == {None}
  {
  }

  lemma NewRecord(d: Forest, n: Node, m: map<Key, Rec>)
    requires IsDoc(d) && Some(n.id) !in Keys(d) && n.parent in Keys(d) && !n.deleted && Describes(m, d)
    ensures Some(n.id) in Keys(Attach(d, n))
    ensures SizesDue(Linked(m, n, InsertIndex(Find(d, n.parent).Kids(n.side), n)), Attach(d, n), Some(n.id), 1, 1,
                     Some(n.id))
  {
    hide Vis, Apart, Placed, InsertSorted, Attach;
    AttachDoc(d, n);
    FindNew(d, n);
    assert m[n.parent] == RecOf(Find(d, n.parent));
    AncestorsChar(Attach(d, n), Some(n.id));
    LeafFlat(n);
  }

  lemma LinkedOld(m: map<Key, Rec>, n: Node, i: nat, k: Key)
    requires n.parent in m && i <= |m[n.parent].Children(n.side)| && k in m && k != Some(n.id)
    ensures k in Linked(m, n, i)
    ensures Linked(m, n, i)[k] == if k != n.parent then m[k]
              else m[k].WithChildren(n.side, SeqInsert(m[k].Children(n.side), i, Some(n.id)))
  {
  }

  lemma OldRecord(d: Forest, n: Node, m: map<Key, Rec>, k: Key)
    requires IsDoc(d) && Some(n.id) !in Keys(d) && n.parent in Keys(d) && !n.deleted && Describes(m, d) && k in Keys(d)
    ensures Some(n.id) in Keys(Attach(d, n))
    ensures SizesDue(Linked(m, n, InsertIndex(Find(d, n.parent).Kids(n.side), n)), Attach(d, n), Some(n.id), 1, 1, k)
  {
    hide Vis, Apart, Placed, InsertSorted, Attach, Flat, Heads, Ancestors, NumVis, InsertIndex;
    assert m[n.parent] == RecOf(Find(d, n.parent));
    assert m[k] == RecOf(Find(d, k));
    LinkedOld(m, n, InsertIndex(Find(d, n.parent).Kids(n.side), n), k);
    hide Linked, Keys, RecOf;
    FindAttach(d, n, k);
    FindUnique(d, k);
    FindWithin(d, k);
    RecAttach(Find(d, k), n);
    AttachAncestors(d, n, k);
  }

  lemma AttachRecord(d: Forest, n: Node, m: map<Key, Rec>, k: Key)
    requires IsDoc(d) && Some(n.id) !in Keys(d) && n.parent in Keys(d) && !n.deleted && Describes(m, d)
    requires k in Keys(d) + {Some(n.id)}
    ensures Some(n.id) in Keys(Attach(d, n))
    ensures SizesDue(Linked(m, n, InsertIndex(Find(d, n.parent).Kids(n.side), n)), Attach(d, n), Some(n.id), 1, 1, k)
  {
    hide SizesDue, Attach, Linked, Find, Keys;
    if k == Some(n.id) { NewRecord(d, n, m); } else { OldRecord(d, n, m, k); }
  }

  lemma LinkedKeys(m: map<Key, Rec>, n: Node, i: nat)
    requires n.parent in m && i <= |m[n.parent].Children(n.side)|
    ensures Linked(m, n, i).Keys == m.Keys + {Some(n.id)}
  {
  }

  lemma AttachRecords(d: Forest, n: Node, m: map<Key, Rec>)
    requires IsDoc(d) && Some(n.id) !in Keys(d) && n.parent in Keys(d) && !n.deleted && Describes(m, d)
    ensures IsDoc(Attach(d, n)) && Some(n.id) in Keys(Attach(d, n))
    ensures var m' := Linked(m, n, InsertIndex(Find(d, n.parent).Kids(n.side), n));
            && m'.Keys == Keys(Attach(d, n))
            && (forall k :: k in m' ==> m'[k].top == Find(Attach(d, n), k).top)
            && Describes(Adjusted(m', Ancestors(Attach(d, n), Some(n.id)), 1, 1), Attach(d, n))
  {
    AttachDoc(d, n);
    assert m[n.parent] == RecOf(Find(d, n.parent));
    var i := InsertIndex(Find(d, n.parent).Kids(n.side), n);
    LinkedKeys(m, n, i);
    var m' := Linked(m, n, i);
    forall k | k in m'
      ensures SizesDue(m', Attach(d, n), Some(n.id), 1, 1, k)
    {
      AttachRecord(d, n, m, k);
    }
    SizesDueDescribes(m', Attach(d, n), Some(n.id), 1, 1);
  }

  lemma RecSetFlags(t: Forest, k: Key, deleted: bool, who: Option<Id>)
    requires t.Trees? && Unique(t) && (k in Keys(t) ==> Find(t, k).top.Some?)
    ensures RecOf(SetFlags(t, k, deleted, who)) ==
      if k !in Keys(t) then RecOf(t)
      else RecOf(t).(top := Flagged(t.top, k, deleted, who)).Resized(0,
        VisibleDelta(Find(t, k).top.value.deleted, deleted))
  {
    SetFlagsFacts(t.left, k, deleted, who);
    SetFlagsFacts(t.right, k, deleted, who);
    SetFlagsFacts(t, k, deleted, who);
    if k in Keys(t) { SetFlagsVisible(t, k, deleted, who); } else { SetFlagsAbsent(t, k, deleted, who); }
  }

  lemma SetFlagsRecord(d: Forest, k: Key, deleted: bool, who: Option<Id>, m: map<Key, Rec>, j: Key)
    requires IsDoc(d) && k in Keys(d) && k.Some? && Describes(m, d) && j in Keys(d) && Find(d, k).top.Some?
    ensures k in Keys(SetFlags(d, k, deleted, who))
    ensures SizesDue(m[k := m[k].(top := Flagged(m[k].top, k, deleted, who))], SetFlags(d, k, deleted, who), k,
                     0, VisibleDelta(Find(d, k).top.value.deleted, deleted), j)
  {
    hide Flat, Vis, NumVis, Heads, Apart, Placed, Ancestors, SetFlags, VisibleDelta;
    SetFlagsDoc(d, k, deleted, who);
    FindSetFlags(d, k, deleted, who, j);
    FindUnique(d, j);
    DocFind(d, j);
    assert m[j] == RecOf(Find(d, j)) && m[k] == RecOf(Find(d, k));
    if k in Keys(Find(d, j)) { FindSub(d, j, k); }
    RecSetFlags(Find(d, j), k, deleted, who);
    AncestorsChar(SetFlags(d, k, deleted, who), k);
    SetFlagsFacts(Find(d, j), k, deleted, who);
  }

  lemma SetFlagsRecords(d: Forest, k: Key, deleted: bool, who: Option<Id>, m: map<Key, Rec>)
    requires IsDoc(d) && k in Keys(d) && k.Some? && Describes(m, d)
    ensures Find(d, k).top.Some?
    ensures IsDoc(SetFlags(d, k, deleted, who)) && k in Keys(SetFlags(d, k, deleted, who))
    ensures var m' := m[k := m[k].(top := Flagged(m[k].top, k, deleted, who))];
            && m'.Keys == Keys(SetFlags(d, k, deleted, who))
            && (forall j :: j in m' ==> m'[j].top == Find(SetFlags(d, k, deleted, who), j).top)
            && Describes(Adjusted(m', Ancestors(SetFlags(d, k, deleted, who), k),
                                  0, VisibleDelta(Find(d, k).top.value.deleted, deleted)), SetFlags(d, k, deleted, who))
  {
    DocFind(d, k);
    SetFlagsDoc(d, k, deleted, who);
    var m' := m[k := m[k].(top := Flagged(m[k].top, k, deleted, who))];
    assert m'.Keys == m.Keys;
    forall j | j in m'
      ensures SizesDue(m', SetFlags(d, k, deleted, who), k, 0, VisibleDelta(Find(d, k).top.value.deleted, deleted), j)
    {
      SetFlagsRecord(d, k, deleted, who, m, j);
    }
    SizesDueDescribes(m', SetFlags(d, k, deleted, who), k, 0, VisibleDelta(Find(d, k).top.value.deleted, deleted));
  }

  // ------------------------------------------------------------------ unlinking a leaf

  lemma SkipLater<T>(x: T, q: seq<T>, i: nat)
    requires 0 < i <= |q|
    ensures ([x] + q)[..i] + ([x] + q)[i + 1..] == [x] + (q[..i - 1] + q[i..])
  {
  }

  lemma {:induction false} HeadsPrune(f: Forest, k: Key, i: nat)
    requires Unique(f) && i < |Heads(f)| && Heads(f)[i] == k
    ensures Heads(Prune(f, {k})) == Heads(f)[..i] + Heads(f)[i + 1..]
  {
    if i == 0 {
      PruneAbsent(f.rest, {k});
    } else {
      HeadsPrune(f.rest, k, i - 1);
      DropFind(f.rest, i - 1);
      SkipLater(f.TopKey(), Heads(f.rest), i);
    }
  }

  lemma {:induction false} HeadsPruneAbsent(f: Forest, k: Key)
    requires k !in Heads(f)
    ensures Heads(Prune(f, {k})) == Heads(f)
  {
    if f.Trees? { HeadsPruneAbsent(f.rest, k); }
  }

  /** Every node is in the sibling array of its parent, on its side. */
  lemma {:induction false} InSiblings(f: Forest, k: Key, p: Key, s: Side)
    requires Unique(f) && Placed(f, p, s) && k in Keys(f) && p !in Keys(f)
    ensures Find(f, k).top.Some?
    ensures var n := Find(f, k).top.value;
            if n.parent == p then n.side == s && k in Heads(f)
            else n.parent in Keys(f) && k in Heads(Find(f, n.parent).Kids(n.side))
  {
    if f.TopKey() == k { }
    else if k in Keys(f.left) { InSiblings(f.left, k, f.TopKey(), L); }
    else if k in Keys(f.right) { InSiblings(f.right, k, f.TopKey(), R); }
    else { InSiblings(f.rest, k, p, s); }
  }

  lemma DocInSiblings(d: Forest, k: Key)
    requires IsDoc(d) && k in Keys(d) && k.Some?
    ensures Find(d, k).top.Some?
    ensures var n := Find(d, k).top.value; n.parent in Keys(d) && k in Heads(Find(d, n.parent).Kids(n.side))
  {
    if k in Keys(d.left) { InSiblings(d.left, k, None, L); } else { InSiblings(d.right, k, None, R); }
  }

  /** `k` is a leaf of `d`: node `n`, at index `i` of its sibling array. */
  ghost predicate LeafAt(d: Forest, k: Key, n: Node, i: nat) {
    && k in Keys(d) && k.Some? && Find(d, k) == Leaf(n) && n.parent in Keys(d)
    && var sibs := Heads(Find(d, n.parent).Kids(n.side)); i < |sibs| && sibs[i] == k
  }

  function SeqRemove<T>(s: seq<T>, i: nat): seq<T>
    requires i < |s|
  {
    s[..i] + s[i + 1..]
  }

  ghost function Unlinked(m: map<Key, Rec>, n: Node, i: nat): map<Key, Rec>
    requires n.parent in m && i < |m[n.parent].Children(n.side)|
  {
    m[n.parent := m[n.parent].WithChildren(n.side, SeqRemove(m[n.parent].Children(n.side), i))]
  }

  lemma KidsOfParent(d: Forest, n: Node, i: nat, j: Key, s: Side)
    requires IsDoc(d) && LeafAt(d, Some(n.id), n, i) && j in Keys(d)
    ensures Some(n.id) in Heads(Find(d, j).Kids(s)) ==> j == n.parent && s == n.side
  {
    var hs := Heads(Find(d, j).Kids(s));
    if Some(n.id) in hs {
      var x :| 0 <= x < |hs| && hs[x] == Some(n.id);
      KidAt(d, j, s, x);
    }
  }

  lemma RecPrune(t: Forest, k: Key, s: Side, i: nat)
    requires t.Trees? && Unique(t) && k in Keys(t) && k != t.TopKey() && k.Some?
    requires Find(t, k).top.Some? && Find(t, k).left.Empty? && Find(t, k).right.Empty?
    requires k !in Heads(t.Kids(if s == L then R else L))
    requires k in Heads(t.Kids(s)) ==> i < |Heads(t.Kids(s))| && Heads(t.Kids(s))[i] == k
    ensures Prune(t, {k}).Trees?
    ensures RecOf(Prune(t, {k})) ==
      (if k in Heads(t.Kids(s)) then RecOf(t).WithChildren(s, SeqRemove(Heads(t.Kids(s)), i)) else RecOf(t))
      .Resized(-1, if Find(t, k).top.value.deleted then 0 else -1)
  {
    PruneLeaf(t, k);
    if k in Heads(t.Kids(s)) { HeadsPrune(t.Kids(s), k, i); } else { HeadsPruneAbsent(t.Kids(s), k); }
    HeadsPruneAbsent(t.Kids(if s == L then R else L), k);
  }

  lemma UnlinkAbove(d: Forest, n: Node, i: nat, m: map<Key, Rec>, j: Key)
    requires IsDoc(d) && LeafAt(d, Some(n.id), n, i) && Describes(m, d) && j in Keys(d) && j != Some(n.id)
    requires Some(n.id) in Keys(Find(d, j))
    ensures Prune(Find(d, j), {Some(n.id)}).Trees?
    ensures RecOf(Prune(Find(d, j), {Some(n.id)})) == Unlinked(m, n, i)[j].Resized(-1, if n.deleted then 0 else -1)
  {
    hide Flat, Heads, Prune, Apart, Placed, Vis;
    var t := Find(d, j);
    FindUnique(d, j);
    assert m[j] == RecOf(t) && m[n.parent] == RecOf(Find(d, n.parent));
    KidsOfParent(d, n, i, j, L);
    KidsOfParent(d, n, i, j, R);
    FindSub(d, j, Some(n.id));
    RecPrune(t, Some(n.id), n.side, i);
  }

  lemma UnlinkElsewhere(d: Forest, n: Node, i: nat, m: map<Key, Rec>, j: Key)
    requires IsDoc(d) && LeafAt(d, Some(n.id), n, i) && Describes(m, d) && j in Keys(d)
    requires Some(n.id) !in Keys(Find(d, j))
    ensures Prune(Find(d, j), {Some(n.id)}) == Find(d, j) && RecOf(Find(d, j)) == Unlinked(m, n, i)[j]
  {
    PruneAbsent(Find(d, j), {Some(n.id)});
    assert m[j] == RecOf(Find(d, j)) && m[n.parent] == RecOf(Find(d, n.parent));
    if j == n.parent { KidAt(d, j, n.side, i); }
  }

  lemma UnlinkRecord(d: Forest, n: Node, i: nat, m: map<Key, Rec>, j: Key)
    requires IsDoc(d) && LeafAt(d, Some(n.id), n, i) && Describes(m, d) && j in Keys(d) && j != Some(n.id)
    ensures ClosedBelow(d, {Some(n.id)}) && j in Keys(Prune(d, {Some(n.id)}))
    ensures RecOf(Find(Prune(d, {Some(n.id)}), j))
         == if j in Ancestors(d, Some(n.id)) then Unlinked(m, n, i)[j].Resized(-1, if n.deleted then 0 else -1)
            else Unlinked(m, n, i)[j]
  {
    AncestorsChar(d, Some(n.id));
    if Some(n.id) in Keys(Find(d, j)) { UnlinkAbove(d, n, i, m, j); } else { UnlinkElsewhere(d, n, i, m, j); }
    PruneLeaf(d, Some(n.id));
    FindPrune(d, {Some(n.id)}, j);
  }

  lemma UnlinkedFacts(d: Forest, n: Node, i: nat, m: map<Key, Rec>)
    requires LeafAt(d, Some(n.id), n, i) && Describes(m, d)
    ensures n.parent in m && i < |m[n.parent].Children(n.side)| && Unlinked(m, n, i).Keys == Keys(d)
    ensures forall j :: j in Keys(d) ==> Unlinked(m, n, i)[j].top == Find(d, j).top
  {
    assert m[n.parent] == RecOf(Find(d, n.parent));
    assert Unlinked(m, n, i).Keys == m.Keys;
  }

  lemma UnlinkRecords(d: Forest, n: Node, i: nat, m: map<Key, Rec>)
    requires IsDoc(d) && LeafAt(d, Some(n.id), n, i) && Describes(m, d)
    requires n.parent in m && i < |m[n.parent].Children(n.side)| && Unlinked(m, n, i).Keys == Keys(d)
    ensures IsDoc(Prune(d, {Some(n.id)})) && Keys(Prune(d, {Some(n.id)})) == Keys(d) - {Some(n.id)}
    ensures Describes(Adjusted(Unlinked(m, n, i), Ancestors(d, Some(n.id)), -1,
      if n.deleted then 0 else -1) - {Some(n.id)},
                      Prune(d, {Some(n.id)}))
  {
    hide Flat, Vis, Heads, Apart, Placed, Unique, Prune;
    PruneLeaf(d, Some(n.id));
    PruneDoc(d, {Some(n.id)});
    var e := Prune(d, {Some(n.id)});
    var m2 := Adjusted(Unlinked(m, n, i), Ancestors(d, Some(n.id)), -1, if n.deleted then 0 else -1) - {Some(n.id)};
    assert m2.Keys == Keys(d) - {Some(n.id)};
    forall j | j in Keys(d) - {Some(n.id)}
      ensures j in Keys(e) && m2[j] == RecOf(Find(e, j))
    {
      UnlinkRecord(d, n, i, m, j);
    }
  }
}
