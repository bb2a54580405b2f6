/** The render index: the document's visible characters cut into runs, each shown by one DOM text node. */
module RenderIndex {
  import opened Identifiers
  import opened Utf16

  const RUN_MAX_SCALARS := 512

  /** A DOM text node: which node it is, and its string. */
  datatype TextNode = TextNode(id: nat, data: seq<Unit>)

  datatype RenderRun = RenderRun(textNode: TextNode, startVis: nat, scalarLen: nat, utf16Len: nat)

  /** The characters a run shows. */
  function Shows(r: RenderRun): seq<CodePoint> {
    CodePoints(r.textNode.data)
  }

  /** The characters all the runs show, in order. */
  function View(runs: seq<RenderRun>): seq<CodePoint> {
    if runs == [] then [] else Shows(runs[0]) + View(runs[1..])
  }

  /** The strings of all the text nodes, joined. */
  function Joined(runs: seq<RenderRun>): seq<Unit> {
    if runs == [] then [] else runs[0].textNode.data + Joined(runs[1..])
  }

  /** A run's two lengths describe its text node. */
  predicate Measured(r: RenderRun) {
    r.scalarLen == |Shows(r)| && r.utf16Len == |r.textNode.data|
  }

  /** Every run is measured and starts where the one before it ends, the first at `at`. */
  predicate Exact(runs: seq<RenderRun>, at: nat) {
    runs == [] || (runs[0].startVis == at && Measured(runs[0]) && Exact(runs[1..], at + runs[0].scalarLen))
  }

  /** A run shows between 1 and 512 scalar values. */
  ghost predicate Sized(r: RenderRun) {
    0 < |Shows(r)| <= 512 && Scalars(Shows(r))
  }

  ghost predicate AllSized(runs: seq<RenderRun>) {
    forall r :: r in runs ==> Sized(r)
  }

  // ------------------------------------------------------------------ runs side by side

  lemma {:induction false} ViewConcat(a: seq<RenderRun>, b: seq<RenderRun>)
    ensures View(a + b) == View(a) + View(b)
  {
    hide CodePoints, Shows;
    if a == [] {
      assert a + b == b;
    } else {
      var head, tail := Shows(a[0]), a[1..];
      ViewConcat(tail, b);
      assert (a + b)[1..] == tail + b && (a + b)[0] == a[0];
      assert head + (View(tail) + View(b)) == (head + View(tail)) + View(b);
    }
  }

  lemma {:induction false} ExactConcat(a: seq<RenderRun>, b: seq<RenderRun>, at: nat)
    ensures Exact(a + b, at) <==> Exact(a, at) && Exact(b, at + |View(a)|)
  {
    if a == [] {
      assert a + b == b;
    } else {
      assert (a + b)[1..] == a[1..] + b;
      if Measured(a[0]) {
        ExactConcat(a[1..], b, at + a[0].scalarLen);
      }
    }
  }

  /** A run inside an exact index: where it starts, and what stands before and after it. */
  lemma RunAt(runs: seq<RenderRun>, i: nat, at: nat)
    requires Exact(runs, at) && i < |runs|
    ensures runs == runs[..i] + [runs[i]] + runs[i + 1..]
    ensures Measured(runs[i]) && runs[i].startVis == at + |View(runs[..i])|
    ensures Exact(runs[..i], at) && Exact(runs[i + 1..], runs[i].startVis + runs[i].scalarLen)
    ensures View(runs) == View(runs[..i]) + Shows(runs[i]) + View(runs[i + 1..])
  {
    var a, b := runs[..i], runs[i..];
    assert runs == a + b;
    assert b[1..] == runs[i + 1..];
    ExactConcat(a, b, at);
    ViewConcat(a, b);
  }

  /** The converse: runs put together around a middle. */
  lemma Assemble(a: seq<RenderRun>, m: seq<RenderRun>, b: seq<RenderRun>, at: nat)
    requires Exact(a, at) && Exact(m, at + |View(a)|) && Exact(b, at + |View(a)| + |View(m)|)
    ensures Exact(a + m + b, at)
    ensures View(a + m + b) == View(a) + View(m) + View(b)
  {
    ExactConcat(a, m, at);
    ViewConcat(a, m);
    ExactConcat(a + m, b, at);
    ViewConcat(a + m, b);
  }

  lemma ViewOne(r: RenderRun)
    ensures View([r]) == Shows(r)
  {
    assert [r][1..] == [];
  }

  lemma ExactOne(r: RenderRun, at: nat)
    requires Measured(r) && r.startVis == at
    ensures Exact([r], at)
  {
    assert [r][1..] == [];
  }

  /** Starts never go down along an exact index, and no later run starts before an earlier one ends. */
  lemma Ascending(runs: seq<RenderRun>, i: nat, j: nat)
    requires Exact(runs, 0) && i < j < |runs|
    ensures runs[i].startVis + runs[i].scalarLen <= runs[j].startVis
  {
    RunAt(runs, i, 0);
    RunAt(runs, j, 0);
    RunAt(runs[..j], i, 0);
    assert runs[..j][..i] == runs[..i];
  }

  /** The end of the last run. */
  function TotalVisibleLength(runs: seq<RenderRun>): nat {
    if runs == [] then 0 else runs[|runs| - 1].startVis + runs[|runs| - 1].scalarLen
  }

  /** It is the length of the whole view. */
  lemma TotalIsViewLength(runs: seq<RenderRun>)
    requires Exact(runs, 0)
    ensures TotalVisibleLength(runs) == |View(runs)|
  {
    if runs != [] {
      RunAt(runs, |runs| - 1, 0);
    }
  }

  /** Run `i` is the last one that starts at or before position `v`. */
  ghost predicate LastStart(runs: seq<RenderRun>, i: nat, v: int) {
    && i < |runs|
    && runs[i].startVis <= v
    && forall j :: i < j < |runs| ==> v < runs[j].startVis
  }

  /** The run that holds a position: at a boundary between two runs, the later one. */
  method FindRunForVis(runs: seq<RenderRun>, v: int) returns (found: Option<nat>)
    requires Exact(runs, 0)
    ensures found.Some? <==> runs != [] && 0 <= v <= |View(runs)|
    ensures found.Some? ==> LastStart(runs, found.value, v)
    ensures found.Some? ==> v <= runs[found.value].startVis + runs[found.value].scalarLen
  {
    if |runs| == 0 {
      return None;
    }
    TotalIsViewLength(runs);
    var lo, hi := 0, |runs| - 1;
    while lo < hi
      invariant 0 <= lo <= hi < |runs|
      invariant lo == 0 || runs[lo].startVis <= v
      invariant forall j :: hi < j < |runs| ==> v < runs[j].startVis
    {
      var mid := (lo + hi + 1) / 2;
      if runs[mid].startVis <= v {
        lo := mid;
      } else {
        LaterStarts(runs, mid);
        hi := mid - 1;
      }
    }
    RunAt(runs, lo, 0);
    if lo + 1 < |runs| {
      Touching(runs, lo);
    }
    if v < runs[lo].startVis || v > runs[lo].startVis + runs[lo].scalarLen {
      return None;
    }
    return Some(lo);
  }

  lemma LaterStarts(runs: seq<RenderRun>, i: nat)
    requires Exact(runs, 0) && i < |runs|
    ensures forall j :: i <= j < |runs| ==> runs[i].startVis <= runs[j].startVis
  {
    forall j | i < j < |runs| ensures runs[i].startVis <= runs[j].startVis {
      Ascending(runs, i, j);
    }
  }

  lemma Touching(runs: seq<RenderRun>, i: nat)
    requires Exact(runs, 0) && i + 1 < |runs|
    ensures runs[i + 1].startVis == runs[i].startVis + runs[i].scalarLen
    ensures runs[i + 1].startVis <= |View(runs)|
  {
    RunAt(runs, i, 0);
    RunAt(runs, i + 1, 0);
    assert runs[i + 1..][0] == runs[i + 1];
  }

  // ------------------------------------------------------------------ DOM positions

  datatype DomNode = Root | Text(id: nat)

  datatype DomPosition = DomPosition(node: DomNode, offset: nat)

  /** The text nodes of an index are different nodes. */
  ghost predicate Distinct(runs: seq<RenderRun>) {
    forall i, j :: 0 <= i < j < |runs| ==> runs[i].textNode.id != runs[j].textNode.id
  }

  /** The position `offset` code units into a text node is the document position `v`. */
  ghost predicate Denotes(runs: seq<RenderRun>, id: nat, offset: int, v: int) {
    exists i: nat, k: nat :: DenotesIn(runs, i, k, id, offset, v)
  }

  ghost predicate DenotesIn(runs: seq<RenderRun>, i: nat, k: nat, id: nat, offset: int, v: int) {
    && i < |runs| && runs[i].textNode.id == id
    && k <= |Shows(runs[i])| && Cut(runs[i].textNode.data, k) == offset
    && v == runs[i].startVis + k
  }

  /** A DOM position denotes at most one document position. */
  lemma DenotesOne(runs: seq<RenderRun>, id: nat, offset: int, v: int, w: int)
    requires Distinct(runs) && Denotes(runs, id, offset, v) && Denotes(runs, id, offset, w)
    ensures v == w
  {
    var i: nat, k: nat :| DenotesIn(runs, i, k, id, offset, v);
    var j: nat, l: nat :| DenotesIn(runs, j, l, id, offset, w);
    CutInjective(runs[i].textNode.data, k, l);
  }

  /** A document position to a DOM position, never inside a surrogate pair; the root itself when there is no text. */
  method VisToDom(runs: seq<RenderRun>, v: int) returns (r: Option<DomPosition>)
    requires Exact(runs, 0)
    ensures r.Some? <==> 0 <= v <= |View(runs)|
    ensures r.Some? && runs == [] ==> r.value == DomPosition(Root, 0)
    ensures r.Some? && runs != [] ==> r.value.node.Text? && Denotes(runs, r.value.node.id, r.value.offset, v)
    ensures r.Some? && runs != [] ==>
      exists i: nat :: LastStart(runs, i, v) && runs[i].textNode.id == r.value.node.id
                  && !InsideSurrogatePair(runs[i].textNode.data, r.value.offset)
  {
    TotalIsViewLength(runs);
    var total := TotalVisibleLength(runs);
    if v < 0 || v > total {
      return None;
    }
    if |runs| == 0 {
      return Some(DomPosition(Root, 0));
    }
    var found := FindRunForVis(runs, v);
    var run := runs[found.value];
    RunAt(runs, found.value, 0);
    var localScalar := v - run.startVis;
    var utf16Offset := ScalarToUtf16(run.textNode.data, localScalar);
    CutsAvoidPairs(run.textNode.data, localScalar);
    assert DenotesIn(runs, found.value, localScalar, run.textNode.id, utf16Offset.value, v);
    return Some(DomPosition(Text(run.textNode.id), utf16Offset.value));
  }

  ghost predicate Unplaced(runs: seq<RenderRun>, id: nat, offset: int) {
    forall i :: 0 <= i < |runs| && runs[i].textNode.id == id ==>
      offset < 0 || offset > |runs[i].textNode.data| || InsideSurrogatePair(runs[i].textNode.data, offset)
  }

  /** The run a text node belongs to, searched from the front. */
  method RunOfNode(runs: seq<RenderRun>, id: nat) returns (found: Option<nat>)
    ensures found.Some? ==> found.value < |runs| && runs[found.value].textNode.id == id
    ensures found.Some? ==> forall j :: 0 <= j < found.value ==> runs[j].textNode.id != id
    ensures found.None? ==> forall j :: 0 <= j < |runs| ==> runs[j].textNode.id != id
  {
    var i := 0;
    while i < |runs|
      invariant i <= |runs| && forall j :: 0 <= j < i ==> runs[j].textNode.id != id
    {
      if runs[i].textNode.id == id {
        return Some(i);
      }
      i := i + 1;
    }
    return None;
  }

  /**
   * A text node position back to a document position. It fails only for a node of no run, an offset past the
   * node's end, or one inside a surrogate pair.
   */
  method TextToVis(runs: seq<RenderRun>, id: nat, offset: int) returns (r: Option<nat>)
    requires Distinct(runs)
    ensures r.Some? ==> Denotes(runs, id, offset, r.value)
    ensures r.None? <==> Unplaced(runs, id, offset)
  {
    var runIndex := RunOfNode(runs, id);
    if runIndex.None? {
      return None;
    }
    var run := runs[runIndex.value];
    var localScalar := Utf16ToScalar(run.textNode.data, offset);
    if localScalar.None? {
      return None;
    }
    assert DenotesIn(runs, runIndex.value, localScalar.value, id, offset, run.startVis + localScalar.value);
    return Some(run.startVis + localScalar.value);
  }

  /** A child of the root: a text node, or an element the browser put in. */
  datatype Child = TextChild(id: nat) | ElementChild

  /** How many characters a child stands for: an element, or a text node of no run, for none. */
  function LengthOf(runs: seq<RenderRun>, c: Child): nat {
    if runs == [] || c.ElementChild? then 0
    else if runs[0].textNode.id == c.id then runs[0].scalarLen
    else LengthOf(runs[1..], c)
  }

  function LengthOfAll(runs: seq<RenderRun>, cs: seq<Child>): nat {
    if cs == [] then 0 else LengthOfAll(runs, cs[..|cs| - 1]) + LengthOf(runs, cs[|cs| - 1])
  }

  lemma {:induction false} LengthOfRun(runs: seq<RenderRun>, i: nat)
    requires i < |runs| && forall j :: 0 <= j < i ==> runs[j].textNode.id != runs[i].textNode.id
    ensures LengthOf(runs, TextChild(runs[i].textNode.id)) == runs[i].scalarLen
  {
    if i > 0 {
      LengthOfRun(runs[1..], i - 1);
    }
  }

  lemma {:induction false} LengthOfStranger(runs: seq<RenderRun>, id: nat)
    requires forall j :: 0 <= j < |runs| ==> runs[j].textNode.id != id
    ensures LengthOf(runs, TextChild(id)) == 0
  {
    if runs != [] {
      LengthOfStranger(runs[1..], id);
    }
  }

  /** An element position, counted in children: the characters of the children before it. */
  method NormalizeElementPosition(runs: seq<RenderRun>, children: seq<Child>, offset: int) returns (r: Option<nat>)
    ensures r.Some? <==> offset >= 0
    ensures r.Some? ==>
      r.value == LengthOfAll(runs, if offset <= |children| then children[..offset] else children)
  {
    if offset < 0 {
      return None;
    }
    var vis, i := 0, 0;
    var limit := if offset <= |children| then offset else |children|;
    while i < limit
      invariant 0 <= i <= limit && vis == LengthOfAll(runs, children[..i])
    {
      assert children[..i + 1][..i] == children[..i];
      if children[i].TextChild? {
        var run := RunOfNode(runs, children[i].id);
        if run.Some? {
          LengthOfRun(runs, run.value);
          vis := vis + runs[run.value].scalarLen;
        } else {
          LengthOfStranger(runs, children[i].id);
        }
      }
      i := i + 1;
    }
    assert offset > |children| ==> children[..limit] == children;
    return Some(vis);
  }

  /** The text nodes among some children, in order. */
  function TextIds(cs: seq<Child>): seq<nat> {
    if cs == [] then []
    else TextIds(cs[..|cs| - 1]) + if cs[|cs| - 1].TextChild? then [cs[|cs| - 1].id] else []
  }

  function NodeIds(runs: seq<RenderRun>): seq<nat> {
    seq(|runs|, i requires 0 <= i < |runs| => runs[i].textNode.id)
  }

  /** Whatever elements stand between them, children that show the first `i` runs end where run `i` starts. */
  lemma {:induction false} ElementPositionIsRunStart(runs: seq<RenderRun>, cs: seq<Child>, i: nat)
    requires Exact(runs, 0) && Distinct(runs) && i <= |runs| && TextIds(cs) == NodeIds(runs[..i])
    ensures LengthOfAll(runs, cs) == |View(runs[..i])|
    decreases |cs|
  {
    if cs == [] {
      assert |NodeIds(runs[..i])| == 0;
    } else {
      var init, last := cs[..|cs| - 1], cs[|cs| - 1];
      if last.ElementChild? {
        assert TextIds(cs) == TextIds(init);
        ElementPositionIsRunStart(runs, init, i);
      } else {
        LastTextChild(runs, TextIds(init), last.id, i);
        ElementPositionIsRunStart(runs, init, i - 1);
        LengthOfRun(runs, i - 1);
        RunAt(runs, i - 1, 0);
        ViewOne(runs[i - 1]);
        ViewConcat(runs[..i - 1], [runs[i - 1]]);
        assert runs[..i] == runs[..i - 1] + [runs[i - 1]];
      }
    }
  }

  lemma LastTextChild(runs: seq<RenderRun>, before: seq<nat>, id: nat, i: nat)
    requires i <= |runs| && before + [id] == NodeIds(runs[..i])
    ensures i > 0 && id == runs[i - 1].textNode.id && before == NodeIds(runs[..i - 1])
  {
    assert |NodeIds(runs[..i])| == i;
    assert (before + [id])[i - 1] == id;
    assert before == NodeIds(runs[..i])[..i - 1];
  }

  /** Any DOM position back to a document position. */
  method DomToVis(runs: seq<RenderRun>, children: seq<Child>, pos: DomPosition) returns (r: Option<nat>)
    requires Distinct(runs)
    ensures pos.node.Root? ==> r == Some(LengthOfAll(runs,
      if pos.offset <= |children| then children[..pos.offset] else children))
    ensures pos.node.Text? && r.Some? ==> Denotes(runs, pos.node.id, pos.offset, r.value)
    ensures pos.node.Text? ==> (r.None? <==> Unplaced(runs, pos.node.id, pos.offset))
  {
    if pos.node.Text? {
      r := TextToVis(runs, pos.node.id, pos.offset);
    } else {
      r := NormalizeElementPosition(runs, children, pos.offset);
    }
  }

  /** Going to the DOM and back is the identity on every position, in the empty document too. */
  method ThereAndBack(runs: seq<RenderRun>, children: seq<Child>, v: nat) returns (pos: DomPosition, back: Option<nat>)
    requires Exact(runs, 0) && Distinct(runs) && v <= |View(runs)|
    ensures back == Some(v)
    ensures if runs == [] then pos == DomPosition(Root, 0)
            else pos.node.Text? && Denotes(runs, pos.node.id, pos.offset, v)
  {
    var there := VisToDom(runs, v);
    pos := there.value;
    back := DomToVis(runs, children, pos);
    if runs == [] {
      assert children[..0] == [];
    } else {
      Placed(runs, pos.node.id, pos.offset, v);
      DenotesOne(runs, pos.node.id, pos.offset, v, back.value);
    }
  }

  /** A position that denotes something is not refused. */
  lemma Placed(runs: seq<RenderRun>, id: nat, offset: int, v: int)
    requires Denotes(runs, id, offset, v)
    ensures !Unplaced(runs, id, offset)
  {
    var i: nat, k: nat :| DenotesIn(runs, i, k, id, offset, v);
    CutsAvoidPairs(runs[i].textNode.data, k);
  }

  /** The end of a run and the start of the next are two DOM positions for one document position. */
  lemma BoundaryTwice(runs: seq<RenderRun>, i: nat)
    requires Exact(runs, 0) && i + 1 < |runs|
    ensures var v := runs[i + 1].startVis;
      && Denotes(runs, runs[i].textNode.id, |runs[i].textNode.data|, v)
      && Denotes(runs, runs[i + 1].textNode.id, 0, v)
  {
    Touching(runs, i);
    RunAt(runs, i, 0);
    CutEnd(runs[i].textNode.data);
    assert DenotesIn(runs, i, |Shows(runs[i])|, runs[i].textNode.id, |runs[i].textNode.data|, runs[i + 1].startVis);
    assert DenotesIn(runs, i + 1, 0, runs[i + 1].textNode.id, 0, runs[i + 1].startVis);
  }
}
