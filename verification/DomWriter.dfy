/** The editor's text nodes, patched in place so that they always show the document. */
module DomWriters {
  import opened Identifiers
  import opened RenderIndex
  import opened Utf16

  datatype Patch = Done | NotMounted | OutOfRange | Inconsistent

  // ------------------------------------------------------------------ chunks and runs

  function Unchunked(chunks: seq<seq<CodePoint>>): seq<CodePoint> {
    if chunks == [] then [] else Unchunked(chunks[..|chunks| - 1]) + chunks[|chunks| - 1]
  }

  /** A chunk fits one run. */
  ghost predicate Fits(chunk: seq<CodePoint>) {
    0 < |chunk| <= RUN_MAX_SCALARS && Scalars(chunk)
  }

  /** A new text node showing some characters. */
  function NewRun(id: nat, chunk: seq<CodePoint>, vis: nat): RenderRun {
    RenderRun(TextNode(id, Encode(chunk)), vis, |chunk|, |Encode(chunk)|)
  }

  lemma NewRunShows(id: nat, chunk: seq<CodePoint>, vis: nat)
    requires Scalars(chunk)
    ensures Shows(NewRun(id, chunk, vis)) == chunk && Measured(NewRun(id, chunk, vis))
    ensures Fits(chunk) ==> Sized(NewRun(id, chunk, vis))
  {
    ScalarsWhole(chunk);
    CodePointsEncode(chunk);
  }

  lemma PieceShows(id: nat, chunk: seq<CodePoint>, vis: nat)
    requires Fits(chunk)
    ensures Shows(NewRun(id, chunk, vis)) == chunk && Measured(NewRun(id, chunk, vis)) && Sized(NewRun(id, chunk, vis))
  {
    NewRunShows(id, chunk, vis);
  }

  lemma NoRuns(at: nat)
    ensures Exact([], at) && AllSized([]) && View([]) == []
  {
  }

  lemma SizedMore(runs: seq<RenderRun>, r: RenderRun)
    requires AllSized(runs) && Sized(r)
    ensures AllSized(runs + [r])
  {
    hide Sized;
  }

  lemma UnchunkedMore(chunks: seq<seq<CodePoint>>, c: nat)
    requires c < |chunks|
    ensures Unchunked(chunks[..c + 1]) == Unchunked(chunks[..c]) + chunks[c]
  {
    assert chunks[..c + 1][..c] == chunks[..c];
  }

  lemma ScalarsWhole(cs: seq<CodePoint>)
    requires Scalars(cs)
    ensures Whole(cs)
  {
    forall i | 0 <= i < |cs| ensures !IsHigh(cs[i]) {
      assert cs[i] in cs;
    }
  }

  /** Cuts characters into pieces of at most 512. */
  method Chunked(scalars: seq<CodePoint>) returns (chunks: seq<seq<CodePoint>>)
    requires Scalars(scalars)
    ensures Unchunked(chunks) == scalars
    ensures forall c :: c in chunks ==> Fits(c)
    ensures forall j :: 0 <= j < |chunks| - 1 ==> |chunks[j]| == 512
  {
    chunks := [];
    var i := 0;
    while i < |scalars|
      invariant 0 <= i <= |scalars|
      invariant Unchunked(chunks) == scalars[..i]
      invariant forall c :: c in chunks ==> Fits(c)
      invariant i < |scalars| ==> forall j :: 0 <= j < |chunks| ==> |chunks[j]| == RUN_MAX_SCALARS
      invariant forall j :: 0 <= j < |chunks| - 1 ==> |chunks[j]| == RUN_MAX_SCALARS
    {
      var end := if i + RUN_MAX_SCALARS < |scalars| then i + RUN_MAX_SCALARS else |scalars|;
      ghost var before := chunks;
      var chunk := scalars[i..end];
      chunks := chunks + [chunk];
      assert chunks[..|chunks| - 1] == before;
      assert scalars[..i] + chunk == scalars[..end];
      i := end;
    }
    assert scalars[..i] == scalars;
  }

  /** A run with some characters cut out of its text node. */
  method CutFromRun(run: RenderRun, localScalar: nat, deletable: nat) returns (patched: RenderRun)
    requires Measured(run) && Scalars(Shows(run)) && localScalar + deletable <= |Shows(run)|
    ensures Measured(patched) && patched.startVis == run.startVis && patched.textNode.id == run.textNode.id
    ensures Shows(patched) == Shows(run)[..localScalar] + Shows(run)[localScalar + deletable..]
  {
    hide CodePoints, Cut;
    var utf16Start := ScalarToUtf16(run.textNode.data, localScalar);
    var utf16End := ScalarToUtf16(run.textNode.data, localScalar + deletable);
    var newData := run.textNode.data[..utf16Start.value] + run.textNode.data[utf16End.value..];
    CutCharacters(run.textNode.data, localScalar, localScalar + deletable);
    patched := RenderRun(TextNode(run.textNode.id, newData), run.startVis, run.scalarLen - deletable, |newData|);
  }

  // ------------------------------------------------------------------ runs on the page

  /** The root's children are exactly the runs' text nodes in order, all different, all made so far. */
  ghost predicate Drawn(runs: seq<RenderRun>, children: seq<nat>, created: nat) {
    && |children| == |runs|
    && (forall i :: 0 <= i < |runs| ==> children[i] == runs[i].textNode.id)
    && DifferentBelow(children, created)
  }

  lemma DrawnDistinct(runs: seq<RenderRun>, children: seq<nat>, created: nat)
    requires Drawn(runs, children, created)
    ensures Distinct(runs)
  {
    forall i, j | 0 <= i < j < |runs| ensures runs[i].textNode.id != runs[j].textNode.id {
      assert children[i] != children[j];
    }
  }

  /** The runs after an insertion, moved along. */
  function Shifted(runs: seq<RenderRun>, n: nat): (rs: seq<RenderRun>)
    ensures |rs| == |runs|
    ensures forall i :: 0 <= i < |runs| ==> rs[i] == runs[i].(startVis := runs[i].startVis + n)
  {
    seq(|runs|, i requires 0 <= i < |runs| => runs[i].(startVis := runs[i].startVis + n))
  }

  lemma {:induction false} ShiftedExact(runs: seq<RenderRun>, n: nat, at: nat)
    requires Exact(runs, at)
    ensures Exact(Shifted(runs, n), at + n)
  {
    if runs != [] {
      ShiftedExact(runs[1..], n, at + runs[0].scalarLen);
      assert Shifted(runs, n)[1..] == Shifted(runs[1..], n);
    }
  }

  /** What the runs show depends on their text nodes alone. */
  lemma {:induction false} SameNodesSameView(a: seq<RenderRun>, b: seq<RenderRun>)
    requires |a| == |b|
    requires forall i :: 0 <= i < |a| ==> a[i].textNode == b[i].textNode
    ensures View(a) == View(b) && Joined(a) == Joined(b)
  {
    hide CodePoints;
    if a != [] {
      var c, d := a[1..], b[1..];
      forall i | 0 <= i < |c| ensures c[i].textNode == d[i].textNode {
        assert c[i] == a[i + 1] && d[i] == b[i + 1];
      }
      SameNodesSameView(c, d);
    }
  }

  /** Joining the text nodes' strings loses nothing of what they show. */
  lemma {:induction false} JoinedShowsView(runs: seq<RenderRun>)
    requires AllSized(runs)
    ensures CodePoints(Joined(runs)) == View(runs)
  {
    hide CodePoints;
    if runs == [] {
      CodePointsOfNothing();
    } else {
      assert Sized(runs[0]);
      JoinedShowsView(runs[1..]);
      Concat(runs[0].textNode.data, Joined(runs[1..]));
    }
  }

  lemma CodePointsOfNothing()
    ensures CodePoints([]) == []
  {
  }

  /** Cutting three pieces inside the middle one. */
  lemma CutMiddle<T>(a: seq<T>, m: seq<T>, b: seq<T>, v: nat, k: nat)
    requires k <= |m| && v == |a| + k
    ensures (a + m + b)[..v] == a + m[..k] && (a + m + b)[v..] == m[k..] + b
  {
  }

  lemma SplicedMiddle<T>(a: seq<T>, m: seq<T>, b: seq<T>, v: nat, k: nat, t: seq<T>)
    requires k <= |m| && v == |a| + k
    ensures a + (m[..k] + t + m[k..]) + b == (a + m + b)[..v] + t + (a + m + b)[v..]
  {
    CutMiddle(a, m, b, v, k);
  }

  lemma CutOut<T>(a: seq<T>, m: seq<T>, b: seq<T>, v: nat, k: nat, n: nat)
    requires k + n <= |m| && v == |a| + k
    ensures a + (m[..k] + m[k + n..]) + b == (a + m + b)[..v] + (a + m + b)[v + n..]
  {
    CutMiddle(a, m, b, v, k);
    CutMiddle(a, m, b, v + n, k + n);
  }

  /** Splicing a string at a character start splices its characters. */
  lemma SplicedCharacters(data: seq<Unit>, k: nat, text: seq<Unit>)
    requires k <= |CodePoints(data)| && Scalars(CodePoints(data)) && Scalars(CodePoints(text))
    ensures CodePoints(data[..Cut(data, k)] + text + data[Cut(data, k)..])
         == CodePoints(data)[..k] + CodePoints(text) + CodePoints(data)[k..]
  {
    hide CodePoints;
    var o := Cut(data, k);
    CutPrefix(data, k);
    CutSplits(data, k);
    Concat(data[..o], text);
    Concat(data[..o] + text, data[o..]);
  }

  /** Cutting a string between two character starts cuts its characters. */
  lemma CutCharacters(data: seq<Unit>, k: nat, l: nat)
    requires k <= l <= |CodePoints(data)| && Scalars(CodePoints(data))
    ensures CodePoints(data[..Cut(data, k)] + data[Cut(data, l)..]) == CodePoints(data)[..k] + CodePoints(data)[l..]
  {
    hide CodePoints;
    CutPrefix(data, k);
    CutSplits(data, l);
    Concat(data[..Cut(data, k)], data[Cut(data, l)..]);
  }

  // ------------------------------------------------------------------ the writer

  class DomWriter {
    var mounted: bool
    var runs: seq<RenderRun>
    /** The root element's child nodes. */
    var children: seq<nat>
    /** How many text nodes have been made. */
    var created: nat
    var assertionsEnabled: bool

    ghost predicate Valid()
      reads this
    {
      && Drawn(runs, children, created)
      && Exact(runs, 0)
      && AllSized(runs)
    }

    constructor ()
      ensures Valid() && !mounted && assertionsEnabled && runs == []
    {
      mounted, runs, children, created, assertionsEnabled := false, [], [], 0, true;
    }

    method MaterializedText() returns (text: seq<Unit>)
      ensures text == Joined(runs)
    {
      text := [];
      var i := 0;
      assert runs[0..] == runs;
      while i < |runs|
        invariant i <= |runs|
        invariant text + Joined(runs[i..]) == Joined(runs)
      {
        var before := text;
        text := text + runs[i].textNode.data;
        assert runs[i..][1..] == runs[i + 1..];
        assert before + (runs[i].textNode.data + Joined(runs[i + 1..])) == text + Joined(runs[i + 1..]);
        i := i + 1;
      }
    }

    /** The run-time assertion decides exactly whether the text is as expected and every run is measured and placed. */
    method AssertConsistent(expected: Option<seq<Unit>>) returns (ok: bool)
      ensures ok <==> !assertionsEnabled || ((expected.Some? ==> expected.value == Joined(runs)) && Exact(runs, 0))
    {
      if !assertionsEnabled {
        return true;
      }
      var actual := MaterializedText();
      if expected.Some? && actual != expected.value {
        return false;
      }
      var expectedVis: nat, i := 0, 0;
      assert runs[0..] == runs;
      while i < |runs|
        invariant i <= |runs|
        invariant Exact(runs, 0) <==> Exact(runs[i..], expectedVis)
      {
        assert runs[i..][0] == runs[i] && runs[i..][1..] == runs[i + 1..];
        if runs[i].startVis != expectedVis || !Measured(runs[i]) {
          return false;
        }
        expectedVis := expectedVis + runs[i].scalarLen;
        i := i + 1;
      }
      return true;
    }

    /** Appends a new text node at the end of the editor. */
    method AppendRun(chunk: seq<CodePoint>, vis: nat)
      requires Valid() && vis == |View(runs)| && Fits(chunk)
      modifies this`runs, this`children, this`created
      ensures Valid() && View(runs) == old(View(runs)) + chunk
      ensures |runs| == |old(runs)| + 1 && runs[..|old(runs)|] == old(runs) && runs[|old(runs)|].scalarLen == |chunk|
      ensures children == old(children) + [old(created)]
    {
      var run := NewRun(created, chunk, vis);
      NewRunShows(created, chunk, vis);
      RunsMore(runs, run, 0);
      children := children + [created];
      runs := runs + [run];
      created := created + 1;
    }

    method AppendRunsForText(text: seq<Unit>, startVis: nat)
      requires Valid() && startVis == |View(runs)| && Scalars(CodePoints(text))
      modifies this`runs, this`children, this`created
      ensures Valid() && View(runs) == old(View(runs)) + CodePoints(text)
      ensures old(children) <= children && |old(runs)| <= |runs|
      ensures forall j :: |old(runs)| <= j < |runs| - 1 ==> runs[j].scalarLen == 512
    {
      hide CodePoints, View, Exact, AllSized, Sized, Drawn;
      var scalars := CodePoints(text);
      var vis, i := startVis, 0;
      while i < |scalars|
        invariant 0 <= i <= |scalars|
        invariant Valid() && vis == |View(runs)|
        invariant View(runs) == old(View(runs)) + scalars[..i]
        invariant old(children) <= children && |old(runs)| <= |runs|
        invariant forall j :: |old(runs)| <= j < |runs| - 1 ==> runs[j].scalarLen == 512
        invariant i < |scalars| && |old(runs)| < |runs| ==> runs[|runs| - 1].scalarLen == 512
      {
        var end := if i + RUN_MAX_SCALARS < |scalars| then i + RUN_MAX_SCALARS else |scalars|;
        var chunk := scalars[i..end];
        ghost var before := runs;
        AppendRun(chunk, vis);
        assert forall j :: 0 <= j < |before| ==> runs[j] == runs[..|before|][j];
        assert scalars[..i] + chunk == scalars[..end];
        vis := vis + |chunk|;
        i := end;
      }
      assert scalars[..i] == scalars;
    }

    /** Replaces the whole editor by `initialText`. */
    method Mount(initialText: seq<Unit>) returns (outcome: Patch)
      requires Scalars(CodePoints(initialText))
      modifies this
      ensures Valid() && mounted && outcome == Done && assertionsEnabled == old(assertionsEnabled)
      ensures View(runs) == CodePoints(initialText)
      ensures forall j :: 0 <= j < |runs| - 1 ==> runs[j].scalarLen == 512
    {
      mounted, children, runs := true, [], [];
      if |initialText| > 0 {
        AppendRunsForText(initialText, 0);
      }
      var ok := AssertConsistent(None);
      outcome := if ok then Done else Inconsistent;
    }

    /** Puts a new text node right after another one among the root's children. */
    method InsertAfter(ghost k: nat, ref: nat, id: nat)
      requires k < |children| && children[k] == ref
      requires forall i, j :: 0 <= i < j < |children| ==> children[i] != children[j]
      modifies this`children
      ensures children == old(children)[..k + 1] + [id] + old(children)[k + 1..]
    {
      var i := 0;
      while children[i] != ref
        invariant 0 <= i <= k
        decreases k - i
      {
        i := i + 1;
      }
      children := children[..i + 1] + [id] + children[i + 1..];
    }

    method RemoveChild(ghost k: nat, id: nat)
      requires k < |children| && children[k] == id
      requires forall i, j :: 0 <= i < j < |children| ==> children[i] != children[j]
      modifies this`children
      ensures children == old(children)[..k] + old(children)[k + 1..]
    {
      var i := 0;
      while children[i] != id
        invariant 0 <= i <= k
        decreases k - i
      {
        i := i + 1;
      }
      children := children[..i] + children[i + 1..];
    }

    /** Moves every run from `from` on along by `n` positions. */
    method ShiftFrom(from: nat, n: nat)
      requires from <= |runs|
      modifies this`runs
      ensures runs == old(runs)[..from] + Shifted(old(runs)[from..], n)
    {
      var i := from;
      while i < |runs|
        invariant from <= i <= |runs| == |old(runs)|
        invariant forall j :: 0 <= j < from ==> runs[j] == old(runs)[j]
        invariant forall j :: from <= j < i ==> runs[j] == old(runs)[j].(startVis := old(runs)[j].startVis + n)
        invariant forall j :: i <= j < |runs| ==> runs[j] == old(runs)[j]
      {
        runs := runs[i := runs[i].(startVis := runs[i].startVis + n)];
        i := i + 1;
      }
    }

    /** Recomputes every run's start. */
    method RenumberStartVis()
      requires forall r :: r in runs ==> Measured(r)
      modifies this`runs
      ensures |runs| == |old(runs)| && Exact(runs, 0)
      ensures forall j :: 0 <= j < |runs| ==> runs[j] == old(runs)[j].(startVis := runs[j].startVis)
    {
      var vis, i := 0, 0;
      while i < |runs|
        invariant 0 <= i <= |runs| == |old(runs)|
        invariant Exact(runs[..i], 0) && vis == |View(runs[..i])|
        invariant forall j :: 0 <= j < i ==> runs[j] == old(runs)[j].(startVis := runs[j].startVis)
        invariant forall j :: i <= j < |runs| ==> runs[j] == old(runs)[j]
      {
        assert runs[i] in old(runs);
        ghost var done := runs[..i];
        var run := runs[i].(startVis := vis);
        RunsMore(done, run, 0);
        runs := runs[i := run];
        assert runs[..i + 1] == done + [run];
        vis := vis + run.scalarLen;
        i := i + 1;
      }
      assert runs[..i] == runs;
    }

    /** Puts text nodes for all chunks but the first after child `at`, in order, and gives their runs. */
    method InsertPieces(at: nat, chunks: seq<seq<CodePoint>>, start: nat) returns (newRuns: seq<RenderRun>)
      requires at < |children| && DifferentBelow(children, created)
      requires chunks != [] && forall c :: c in chunks ==> Fits(c)
      modifies this`children, this`created
      ensures Exact(newRuns, start) && AllSized(newRuns) && chunks[0] + View(newRuns) == Unchunked(chunks)
      ensures PiecesIn(old(children), children, at, newRuns, old(created)) && created == old(created) + |newRuns|
    {
      hide CodePoints, Grown, Exact, View, Sized, AllSized, Unchunked, Shows, Fits, DifferentBelow;
      newRuns := [];
      NoRuns(start);
      var vis, c, refNode := start, 1, children[at];
      FlatOne(chunks);
      NothingGrown(children, at, created);
      while c < |chunks|
        invariant 1 <= c <= |chunks| && created == old(created) + |newRuns|
        invariant PiecesIn(old(children), children, at, newRuns, old(created))
        invariant refNode == children[at + |newRuns|]
        invariant Exact(newRuns, start) && AllSized(newRuns)
        invariant vis == start + |View(newRuns)|
        invariant chunks[0] + View(newRuns) == Unchunked(chunks[..c])
      {
        var piece := NewRun(created, chunks[c], vis);
        assert chunks[c] in chunks;
        PieceShows(created, chunks[c], vis);
        GrownDifferent(old(children), children, at, |newRuns|, old(created));
        GrownMore(old(children), children, at, |newRuns|, old(created));
        InsertAfter(at + |newRuns|, refNode, created);
        refNode := created;
        RunsMore(newRuns, piece, start);
        SizedMore(newRuns, piece);
        UnchunkedMore(chunks, c);
        assert chunks[0] + (View(newRuns) + chunks[c]) == (chunks[0] + View(newRuns)) + chunks[c];
        newRuns := newRuns + [piece];
        created := created + 1;
        vis := vis + piece.scalarLen;
        c := c + 1;
      }
      assert chunks[..c] == chunks;
    }

    /** Cuts one run into runs of at most 512, keeping its text node for the first piece. */
    method SplitOversizedRun(runIndex: nat)
      requires runIndex < |runs| && Drawn(runs, children, created)
      requires OneLoose(runs, runIndex) && runs[runIndex].scalarLen > RUN_MAX_SCALARS
      modifies this`runs, this`children, this`created
      ensures Valid() && View(runs) == old(View(runs))
      ensures exists n: nat :: Grown(old(children), children, runIndex, n, old(created))
    {
      hide CodePoints, Grown, DifferentBelow, Exact, View, Unchunked, Sized;
      var run := runs[runIndex];
      RunAt(runs, runIndex, 0);
      var chunks := Chunked(CodePoints(run.textNode.data));
      FlatNonempty(chunks);
      assert chunks[0] in chunks;
      var first := NewRun(run.textNode.id, chunks[0], run.startVis);
      NewRunShows(run.textNode.id, chunks[0], run.startVis);
      runs := runs[runIndex := first];
      var newRuns := InsertPieces(runIndex, chunks, run.startVis + first.scalarLen);
      runs := runs[..runIndex + 1] + newRuns + runs[runIndex + 1..];
      GrownDrawn(old(runs), old(children), old(created), runIndex, first, newRuns, children);
      SplitRuns(old(runs), runIndex, first, newRuns);
      SplitResult(old(runs), runIndex, first, newRuns);
    }

    /** Patches one run's text node with `text` put in at a position inside it, and moves the later runs along. */
    method InsertIntoRun(runIndex: nat, visOffset: nat, text: seq<Unit>)
      requires Valid() && runIndex < |runs| && Scalars(CodePoints(text))
      requires runs[runIndex].startVis <= visOffset <= runs[runIndex].startVis + runs[runIndex].scalarLen
      modifies this`runs
      ensures Drawn(runs, children, created) && Stretched(old(runs), runs, runIndex, visOffset, CodePoints(text))
    {
      hide CodePoints, DifferentBelow, Exact, View, Shifted, Cut;
      var run := runs[runIndex];
      RunAt(runs, runIndex, 0);
      var localScalar := visOffset - run.startVis;
      var utf16Offset := ScalarToUtf16(run.textNode.data, localScalar);
      var newData := run.textNode.data[..utf16Offset.value] + text + run.textNode.data[utf16Offset.value..];
      var insertedScalarLen := |CodePoints(text)|;
      var patched := RenderRun(TextNode(run.textNode.id, newData), run.startVis, run.scalarLen + insertedScalarLen,
        |newData|);
      runs := runs[runIndex := patched];
      ShiftFrom(runIndex + 1, insertedScalarLen);
      assert run in old(runs);
      SplicedCharacters(run.textNode.data, localScalar, text);
      Stretch(old(runs), runIndex, visOffset, CodePoints(text), patched, runs);
      ShiftedDrawn(old(runs), children, created, runIndex, patched, insertedScalarLen, runs);
    }

    /**
     * Inserts text at a document position. What the editor then shows is the old view with the text spliced in;
     * an out of range position changes nothing; the assertion fails just when the caller's own text differs.
     */
    method InsertText(visOffset: int, text: seq<Unit>, expected: Option<seq<Unit>>) returns (outcome: Patch)
      requires Valid() && Scalars(CodePoints(text))
      modifies this`runs, this`children, this`created
      ensures Valid() && Kept(old(children), children)
      ensures outcome.NotMounted? <==> !mounted
      ensures outcome.OutOfRange? <==> mounted && text != [] && !(0 <= visOffset <= |old(View(runs))|)
      ensures outcome.Inconsistent? ==> assertionsEnabled && expected.Some? && CodePoints(expected.value) != View(runs)
      ensures outcome.Done? && text != [] && assertionsEnabled && expected.Some?
        ==> CodePoints(expected.value) == View(runs)
      ensures mounted && 0 <= visOffset <= |old(View(runs))| ==> Spliced(old(runs), runs, visOffset, CodePoints(text))
      ensures !(mounted && 0 <= visOffset <= |old(View(runs))|) ==> runs == old(runs)
    {
      if !mounted {
        return NotMounted;
      }
      if |text| == 0 {
        return Done;
      }
      TotalIsViewLength(runs);
      var total := TotalVisibleLength(runs);
      if visOffset < 0 || visOffset > total {
        return OutOfRange;
      }
      SpliceAt(visOffset, text);
      if expected.Some? {
        JoinedTells(runs, expected);
      }
      var ok := AssertConsistent(expected);
      outcome := if ok then Done else Inconsistent;
    }

    method SpliceAt(visOffset: nat, text: seq<Unit>)
      requires Valid() && Scalars(CodePoints(text)) && visOffset <= |View(runs)|
      modifies this`runs, this`children, this`created
      ensures Valid() && Kept(old(children), children)
      ensures Spliced(old(runs), runs, visOffset, CodePoints(text))
    {
      hide CodePoints, DifferentBelow, Exact, Sized;
      if |runs| == 0 {
        AppendRunsForText(text, 0);
      } else {
        var found := FindRunForVis(runs, visOffset);
        InsertIntoRun(found.value, visOffset, text);
        if runs[found.value].scalarLen > RUN_MAX_SCALARS {
          SplitOversizedRun(found.value);
        } else {
          SmallEnough(runs, found.value);
        }
      }
    }

    /** Puts a shortened run in its place; one that shows nothing any more goes, with its text node. */
    method PatchRun(runIndex: nat, patched: RenderRun)
      requires Drawn(runs, children, created) && runIndex < |runs| && patched.textNode.id == runs[runIndex].textNode.id
      modifies this`runs, this`children
      ensures runs == Patched(old(runs), runIndex, patched)
      ensures children
           == if patched.scalarLen != 0 then old(children)
              else old(children)[..runIndex] + old(children)[runIndex + 1..]
    {
      hide Drawn;
      DrawnDifferent(runs, children, created);
      runs := runs[runIndex := patched];
      if patched.scalarLen == 0 {
        RemoveChild(runIndex, patched.textNode.id);
        WithoutPatched(old(runs), runIndex, patched);
        runs := runs[..runIndex] + runs[runIndex + 1..];
      }
    }

    /** Deletes from the run that holds `visOffset` as much as it has of what remains, and renumbers. */
    method DeleteFromRun(visOffset: nat, remaining: nat) returns (deletable: nat)
      requires Valid() && remaining > 0 && visOffset + remaining <= |View(runs)|
      modifies this`runs, this`children
      ensures Valid() && 0 < deletable <= remaining
      ensures Erased(old(runs), runs, visOffset, deletable)
      ensures forall c :: c in children ==> c in old(children)
    {
      hide CodePoints, Drawn, Exact, View, Sized, LastStart, AllSized, Cut, Shows;
      NonemptyView(runs);
      var found := FindRunForVis(runs, visOffset);
      var runIndex := found.value;
      var run := runs[runIndex];
      RunAt(runs, runIndex, 0);
      RunReaches(runs, runIndex, visOffset);
      var localScalar := visOffset - run.startVis;
      deletable := if run.scalarLen - localScalar < remaining then run.scalarLen - localScalar else remaining;
      SizedAt(runs, runIndex);
      var patched := CutFromRun(run, localScalar, deletable);
      PatchRun(runIndex, patched);
      CutRun(old(runs), runIndex, visOffset, deletable, patched);
      RenumberStartVis();
      Renumbered(Patched(old(runs), runIndex, patched), runs);
      PatchedDrawn(old(runs), old(children), created, runIndex, patched, runs, children);
    }

    /**
     * Deletes `count` characters from a document position on. What the editor then shows is the old view without
     * them; a range that does not fit changes nothing; no text node is made or moved.
     */
    method DeleteRange(visOffset: int, count: int, expected: Option<seq<Unit>>) returns (outcome: Patch)
      requires Valid()
      modifies this`runs, this`children
      ensures Valid() && forall c :: c in children ==> c in old(children)
      ensures outcome.NotMounted? <==> !mounted
      ensures outcome.OutOfRange? <==>
        mounted && count > 0 && !(0 <= visOffset && visOffset + count <= |old(View(runs))|)
      ensures outcome.Inconsistent? ==> assertionsEnabled && expected.Some? && CodePoints(expected.value) != View(runs)
      ensures outcome.Done? && count > 0 && assertionsEnabled && expected.Some?
        ==> CodePoints(expected.value) == View(runs)
      ensures mounted && count > 0 && 0 <= visOffset && visOffset + count <= |old(View(runs))| ==>
        Erased(old(runs), runs, visOffset, count)
      ensures !(mounted && count > 0 && 0 <= visOffset && visOffset + count <= |old(View(runs))|) ==> runs == old(runs)
    {
      if !mounted {
        return NotMounted;
      }
      if count <= 0 {
        return Done;
      }
      TotalIsViewLength(runs);
      var total := TotalVisibleLength(runs);
      if visOffset < 0 || visOffset + count > total {
        return OutOfRange;
      }
      EraseAt(visOffset, count);
      if expected.Some? {
        JoinedTells(runs, expected);
      }
      var ok := AssertConsistent(expected);
      outcome := if ok then Done else Inconsistent;
    }

    method EraseAt(visOffset: nat, count: nat)
      requires Valid() && visOffset + count <= |View(runs)|
      modifies this`runs, this`children
      ensures Valid() && Erased(old(runs), runs, visOffset, count)
      ensures forall c :: c in children ==> c in old(children)
    {
      hide CodePoints, DifferentBelow, Exact, View, Sized;
      ErasedNone(runs, visOffset);
      var remaining := count;
      ghost var gone := 0;
      while remaining > 0
        invariant gone + remaining == count && Valid()
        invariant Erased(old(runs), runs, visOffset, gone)
        invariant forall c :: c in children ==> c in old(children)
        decreases remaining
      {
        ghost var before := runs;
        ErasedLength(old(runs), runs, visOffset, gone);
        var deletable := DeleteFromRun(visOffset, remaining);
        ErasedMore(old(runs), before, runs, visOffset, gone, deletable);
        gone := gone + deletable;
        remaining := remaining - deletable;
      }
    }

    /** Every position the editor shows has a DOM position among its own text nodes, which leads back to it. */
    method Locate(v: nat) returns (pos: DomPosition, back: Option<nat>)
      requires Valid() && v <= |View(runs)|
      ensures back == Some(v)
      ensures if runs == [] then pos == DomPosition(Root, 0)
              else pos.node.Text? && pos.node.id in children && Denotes(runs, pos.node.id, pos.offset, v)
    {
      DrawnDistinct(runs, children, created);
      var onPage := seq(|children|, i requires 0 <= i < |children| reads this => TextChild(children[i]));
      pos, back := ThereAndBack(runs, onPage, v);
    }
  }

  /** What the new runs show is what the old ones showed with some characters put in at `v`. */
  ghost predicate Spliced(before: seq<RenderRun>, after: seq<RenderRun>, v: nat, cs: seq<CodePoint>) {
    v <= |View(before)| && View(after) == View(before)[..v] + cs + View(before)[v..]
  }

  /** As many runs as before, of which one, possibly too long now, took the new characters. */
  ghost predicate Stretched(before: seq<RenderRun>, after: seq<RenderRun>, i: nat, v: nat, cs: seq<CodePoint>) {
    && i < |after| == |before|
    && Spliced(before, after, v, cs)
    && OneLoose(after, i)
  }

  /** An exact index whose runs all have a legal size, except that run `i` may be too long. */
  ghost predicate OneLoose(runs: seq<RenderRun>, i: nat) {
    && i < |runs|
    && Exact(runs, 0)
    && Scalars(Shows(runs[i])) && 0 < |Shows(runs[i])|
    && AllSized(runs[..i]) && AllSized(runs[i + 1..])
  }

  lemma SmallEnough(runs: seq<RenderRun>, i: nat)
    requires OneLoose(runs, i) && runs[i].scalarLen <= RUN_MAX_SCALARS
    ensures AllSized(runs)
  {
    RunAt(runs, i, 0);
  }

  lemma ScalarsSplice(m: seq<CodePoint>, k: nat, cs: seq<CodePoint>)
    requires k <= |m| && Scalars(m) && Scalars(cs)
    ensures Scalars(m[..k] + cs + m[k..])
  {
  }

  /** Putting characters into run `i` and moving the later runs along splices the view. */
  lemma Stretch(runs: seq<RenderRun>, i: nat, v: nat, cs: seq<CodePoint>, patched: RenderRun, result: seq<RenderRun>)
    requires Exact(runs, 0) && AllSized(runs) && i < |runs| && Scalars(cs)
    requires 0 <= v - runs[i].startVis <= |Shows(runs[i])|
    requires var k := v - runs[i].startVis; Shows(patched) == Shows(runs[i])[..k] + cs + Shows(runs[i])[k..]
    requires Measured(patched) && patched.startVis == runs[i].startVis
    requires result == runs[i := patched][..i + 1] + Shifted(runs[i := patched][i + 1..], |cs|)
    ensures Stretched(runs, result, i, v, cs)
  {
    hide CodePoints, Exact, View, Shifted, Sized, Scalars;
    RunAt(runs, i, 0);
    var before, after, k := runs[..i], runs[i + 1..], v - runs[i].startVis;
    var moved := Shifted(after, |cs|);
    StretchedParts(runs, i, patched, moved, result);
    StretchedSizes(runs, i, k, cs, patched);
    ShiftedExact(after, |cs|, runs[i].startVis + runs[i].scalarLen);
    SameNodesSameView(moved, after);
    ExactOne(patched, patched.startVis);
    ViewOne(patched);
    Assemble(before, [patched], moved, 0);
    SplicedMiddle(View(before), Shows(runs[i]), View(after), v, k, cs);
    ShiftedSized(after, |cs|);
  }

  lemma StretchedSizes(runs: seq<RenderRun>, i: nat, k: nat, cs: seq<CodePoint>, patched: RenderRun)
    requires AllSized(runs) && i < |runs| && Scalars(cs) && k <= |Shows(runs[i])|
    requires Shows(patched) == Shows(runs[i])[..k] + cs + Shows(runs[i])[k..]
    ensures Scalars(Shows(patched)) && 0 < |Shows(patched)|
    ensures AllSized(runs[..i]) && AllSized(runs[i + 1..])
  {
    hide CodePoints;
    assert runs[i] in runs;
    ScalarsSplice(Shows(runs[i]), k, cs);
  }

  lemma StretchedParts<T>(runs: seq<T>, i: nat, patched: T, moved: seq<T>, result: seq<T>)
    requires i < |runs| && |moved| == |runs| - i - 1
    requires result == runs[i := patched][..i + 1] + moved
    ensures runs[i := patched][i + 1..] == runs[i + 1..]
    ensures result == runs[..i] + [patched] + moved
    ensures i < |result| == |runs| && result[i] == patched && result[..i] == runs[..i] && result[i + 1..] == moved
  {
  }

  lemma ShiftedDrawn(
    runs: seq<RenderRun>, children: seq<nat>, created: nat, i: nat, patched: RenderRun, n: nat, result: seq<RenderRun>
  )
    requires Drawn(runs, children, created) && i < |runs| && patched.textNode.id == runs[i].textNode.id
    requires result == runs[i := patched][..i + 1] + Shifted(runs[i := patched][i + 1..], n)
    ensures Drawn(result, children, created)
  {
    hide DifferentBelow;
    forall j | 0 <= j < |result| ensures children[j] == result[j].textNode.id {
      assert result[j].textNode.id == runs[j].textNode.id;
    }
  }

  /** Nothing of the root's children went away or changed places; new ones stand together. */
  ghost predicate Kept(before: seq<nat>, children: seq<nat>) {
    before == [] || children == before || exists at: nat, n: nat, from: nat :: Grown(before, children, at, n, from)
  }

  lemma JoinedTells(runs: seq<RenderRun>, expected: Option<seq<Unit>>)
    requires AllSized(runs) && expected.Some?
    ensures expected.value == Joined(runs) <==> CodePoints(expected.value) == View(runs)
  {
    JoinedShowsView(runs);
    EncodeCodePoints(Joined(runs));
    EncodeCodePoints(expected.value);
  }

  lemma ShiftedSized(runs: seq<RenderRun>, n: nat)
    requires AllSized(runs)
    ensures AllSized(Shifted(runs, n))
  {
    forall r | r in Shifted(runs, n) ensures Sized(r) {
      var i :| 0 <= i < |runs| && Shifted(runs, n)[i] == r;
      assert runs[i] in runs;
    }
  }

  lemma SplitResult<T>(runs: seq<T>, i: nat, first: T, extra: seq<T>)
    requires i < |runs|
    ensures runs[i := first][..i + 1] + extra + runs[i := first][i + 1..]
      == runs[..i] + ([first] + extra) + runs[i + 1..]
  {
    assert runs[i := first][..i + 1] == runs[..i] + [first];
    assert runs[i := first][i + 1..] == runs[i + 1..];
  }

  /** Cutting a run into pieces that show the same characters changes nothing of what is seen. */
  lemma SplitRuns(runs: seq<RenderRun>, i: nat, first: RenderRun, extra: seq<RenderRun>)
    requires OneLoose(runs, i) && Measured(first) && Sized(first) && first.startVis == runs[i].startVis
    requires Exact(extra, first.startVis + first.scalarLen) && AllSized(extra)
    requires Shows(first) + View(extra) == Shows(runs[i])
    ensures Exact(runs[..i] + ([first] + extra) + runs[i + 1..], 0)
    ensures View(runs[..i] + ([first] + extra) + runs[i + 1..]) == View(runs)
    ensures AllSized(runs[..i] + ([first] + extra) + runs[i + 1..])
  {
    hide CodePoints, Sized, Exact, View;
    RunAt(runs, i, 0);
    ExactOne(first, first.startVis);
    ViewOne(first);
    ExactConcat([first], extra, first.startVis);
    ViewConcat([first], extra);
    Assemble(runs[..i], [first] + extra, runs[i + 1..], 0);
  }

  lemma NothingGrown(children: seq<nat>, at: nat, from: nat)
    requires at < |children|
    ensures Grown(children, children, at, 0, from)
  {
  }

  lemma RunsMore(runs: seq<RenderRun>, r: RenderRun, at: nat)
    requires Exact(runs, at) && Measured(r) && r.startVis == at + |View(runs)|
    ensures Exact(runs + [r], at) && View(runs + [r]) == View(runs) + Shows(r)
  {
    ExactOne(r, r.startVis);
    ViewOne(r);
    ExactConcat(runs, [r], at);
    ViewConcat(runs, [r]);
  }

  lemma FlatNonempty(chunks: seq<seq<CodePoint>>)
    ensures Unchunked(chunks) != [] ==> chunks != []
  {
  }

  lemma FlatOne(chunks: seq<seq<CodePoint>>)
    requires chunks != []
    ensures Unchunked(chunks[..1]) == chunks[0]
  {
    assert chunks[..1][..0] == [];
  }

  /**
   * Child `i` is an old one, at its old place or moved along by `n`, or one of `n` new ones counting up from
   * `from`.
   */
  ghost predicate GrownEntry(before: seq<nat>, children: seq<nat>, at: nat, n: nat, from: nat, i: nat)
    requires i < |children| == |before| + n && at < |before|
  {
    if i <= at then children[i] == before[i]
    else if i <= at + n then children[i] == from + (i - at - 1)
    else children[i] == before[i - n]
  }

  /** The root's children with `n` new text nodes put in after position `at`. */
  ghost predicate Grown(before: seq<nat>, children: seq<nat>, at: nat, n: nat, from: nat) {
    && at < |before|
    && |children| == |before| + n
    && (forall i :: 0 <= i < |children| ==> GrownEntry(before, children, at, n, from, i))
  }

  /** The new text nodes are those of `extra`, in order. */
  ghost predicate PiecesIn(before: seq<nat>, children: seq<nat>, at: nat, extra: seq<RenderRun>, from: nat) {
    && at < |before|
    && |children| == |before| + |extra|
    && Grown(before, children, at, |extra|, from)
    && forall j :: 0 <= j < |extra| ==> extra[j].textNode.id == from + j
  }

  ghost predicate DifferentBelow(ids: seq<nat>, bound: nat) {
    && (forall i, j :: 0 <= i < j < |ids| ==> ids[i] != ids[j])
    && (forall i :: 0 <= i < |ids| ==> ids[i] < bound)
  }

  lemma GrownDifferent(before: seq<nat>, children: seq<nat>, at: nat, n: nat, from: nat)
    requires Grown(before, children, at, n, from) && DifferentBelow(before, from)
    ensures DifferentBelow(children, from + n)
  {
    forall i | 0 <= i < |children| ensures children[i] < from + n {
      assert GrownEntry(before, children, at, n, from, i);
    }
    forall i, j | 0 <= i < j < |children| ensures children[i] != children[j] {
      assert GrownEntry(before, children, at, n, from, i);
      assert GrownEntry(before, children, at, n, from, j);
    }
  }

  lemma GrownMore(before: seq<nat>, children: seq<nat>, at: nat, n: nat, from: nat)
    requires Grown(before, children, at, n, from)
    ensures Grown(before, children[..at + n + 1] + [from + n] + children[at + n + 1..], at, n + 1, from)
  {
    var k := n + 1;
    var more := children[..at + n + 1] + [from + n] + children[at + n + 1..];
    forall i | 0 <= i < |more| ensures GrownEntry(before, more, at, k, from, i) {
      if i <= at + n {
        assert GrownEntry(before, children, at, n, from, i);
      } else if i > at + n + 1 {
        assert GrownEntry(before, children, at, n, from, i - 1);
      }
    }
  }

  lemma GrownDrawn(
    runs: seq<RenderRun>, children: seq<nat>, created: nat, at: nat, first: RenderRun, extra: seq<RenderRun>,
      grown: seq<nat>
  )
    requires Drawn(runs, children, created) && at < |runs| && first.textNode.id == runs[at].textNode.id
    requires PiecesIn(children, grown, at, extra, created)
    ensures Drawn(runs[..at] + ([first] + extra) + runs[at + 1..], grown, created + |extra|)
    ensures grown[..at + 1] == children[..at + 1]
    ensures grown[at + 1 + |extra|..] == children[at + 1..]
  {
    var all := runs[..at] + ([first] + extra) + runs[at + 1..];
    GrownDifferent(children, grown, at, |extra|, created);
    forall i | 0 <= i < |all| ensures grown[i] == all[i].textNode.id {
      assert GrownEntry(children, grown, at, |extra|, created, i);
    }
    forall i | 0 <= i < at + 1 ensures grown[i] == children[i] {
      assert GrownEntry(children, grown, at, |extra|, created, i);
    }
    forall i | at + 1 + |extra| <= i < |grown| ensures grown[i] == children[i - |extra|] {
      assert GrownEntry(children, grown, at, |extra|, created, i);
    }
  }

  // ------------------------------------------------------------------ deleting

  /** What the new runs show is what the old ones showed without `n` characters from `v` on. */
  ghost predicate Erased(before: seq<RenderRun>, after: seq<RenderRun>, v: nat, n: nat) {
    v + n <= |View(before)| && View(after) == View(before)[..v] + View(before)[v + n..]
  }

  lemma NonemptyView(runs: seq<RenderRun>)
    ensures View(runs) != [] ==> runs != []
  {
  }

  /** A position before the end is strictly inside the run found for it. */
  lemma RunReaches(runs: seq<RenderRun>, i: nat, v: nat)
    requires Exact(runs, 0) && LastStart(runs, i, v) && v < |View(runs)|
    ensures v < runs[i].startVis + runs[i].scalarLen
  {
    if i + 1 < |runs| {
      Touching(runs, i);
    } else {
      TotalIsViewLength(runs);
    }
  }

  /** The runs once run `i` is patched, without it if it is empty now. */
  function Patched(runs: seq<RenderRun>, i: nat, patched: RenderRun): seq<RenderRun>
    requires i < |runs|
  {
    if patched.scalarLen == 0 then runs[..i] + runs[i + 1..] else runs[i := patched]
  }

  lemma ScalarsCut(m: seq<CodePoint>, k: nat, l: nat)
    requires k <= l <= |m| && Scalars(m)
    ensures Scalars(m[..k] + m[l..])
  {
  }

  /** Cutting characters out of run `i` cuts them out of the view, whether or not the run survives. */
  lemma CutRun(runs: seq<RenderRun>, i: nat, v: nat, n: nat, patched: RenderRun)
    requires Exact(runs, 0) && AllSized(runs) && i < |runs|
    requires runs[i].startVis <= v && v + n <= runs[i].startVis + |Shows(runs[i])|
    requires var k := v - runs[i].startVis; Shows(patched) == Shows(runs[i])[..k] + Shows(runs[i])[k + n..]
    requires Measured(patched)
    ensures Erased(runs, Patched(runs, i, patched), v, n)
    ensures forall r :: r in Patched(runs, i, patched) ==> Measured(r) && Sized(r)
  {
    hide CodePoints, Exact, View, Sized;
    RunAt(runs, i, 0);
    var before, after, k := runs[..i], runs[i + 1..], v - runs[i].startVis;
    ViewOne(patched);
    ViewConcat(before, [patched]);
    ViewConcat(before + [patched], after);
    ViewConcat(before, after);
    CutOut(View(before), Shows(runs[i]), View(after), v, k, n);
    UpdateParts(runs, i, patched);
    assert Shows(patched) == [] ==> View(before) + Shows(patched) == View(before);
    CutSizes(runs, i, k, n, patched);
  }

  lemma UpdateParts<T>(runs: seq<T>, i: nat, patched: T)
    requires i < |runs|
    ensures runs[i := patched] == runs[..i] + [patched] + runs[i + 1..]
  {
  }

  lemma CutSizes(runs: seq<RenderRun>, i: nat, k: nat, n: nat, patched: RenderRun)
    requires Exact(runs, 0) && AllSized(runs) && i < |runs| && k + n <= |Shows(runs[i])|
    requires Shows(patched) == Shows(runs[i])[..k] + Shows(runs[i])[k + n..] && Measured(patched)
    ensures forall r :: r in Patched(runs, i, patched) ==> Measured(r) && Sized(r)
  {
    hide CodePoints, Exact;
    AllMeasured(runs);
    assert runs[i] in runs && Sized(runs[i]);
    ScalarsCut(Shows(runs[i]), k, k + n);
  }

  lemma AllMeasured(runs: seq<RenderRun>)
    requires Exact(runs, 0)
    ensures forall r :: r in runs ==> Measured(r)
  {
    forall r | r in runs ensures Measured(r) {
      var i :| 0 <= i < |runs| && runs[i] == r;
      RunAt(runs, i, 0);
    }
  }

  /** New starts change neither what is shown nor the sizes. */
  lemma Renumbered(runs: seq<RenderRun>, result: seq<RenderRun>)
    requires |result| == |runs| && AllSized(runs)
    requires forall j :: 0 <= j < |runs| ==> result[j] == runs[j].(startVis := result[j].startVis)
    ensures View(result) == View(runs) && AllSized(result)
  {
    SameNodesSameView(result, runs);
    forall r | r in result ensures Sized(r) {
      var j :| 0 <= j < |result| && result[j] == r;
      assert runs[j] in runs;
    }
  }

  lemma PatchedDrawn(
    runs: seq<RenderRun>, children: seq<nat>, created: nat, i: nat, patched: RenderRun, result: seq<RenderRun>,
      kept: seq<nat>
  )
    requires Drawn(runs, children, created) && i < |runs| && patched.textNode.id == runs[i].textNode.id
    requires |result| == |Patched(runs, i, patched)|
    requires forall j :: 0 <= j < |result| ==> result[j].textNode == Patched(runs, i, patched)[j].textNode
    requires kept == if patched.scalarLen == 0 then children[..i] + children[i + 1..] else children
    ensures Drawn(result, kept, created)
    ensures forall c :: c in kept ==> c in children
  {
    forall j | 0 <= j < |result| ensures kept[j] == result[j].textNode.id {
      assert result[j].textNode == Patched(runs, i, patched)[j].textNode;
    }
  }

  lemma WithoutPatched(runs: seq<RenderRun>, i: nat, patched: RenderRun)
    requires i < |runs|
    ensures runs[i := patched][..i] == runs[..i] && runs[i := patched][i + 1..] == runs[i + 1..]
  {
  }

  lemma DrawnDifferent(runs: seq<RenderRun>, children: seq<nat>, created: nat)
    requires Drawn(runs, children, created)
    ensures |children| == |runs|
    ensures forall i, j :: 0 <= i < j < |children| ==> children[i] != children[j]
    ensures forall i :: 0 <= i < |runs| ==> children[i] == runs[i].textNode.id
  {
  }

  lemma ErasedNone(runs: seq<RenderRun>, v: nat)
    requires v <= |View(runs)|
    ensures Erased(runs, runs, v, 0)
  {
  }

  lemma ErasedMore(a: seq<RenderRun>, b: seq<RenderRun>, c: seq<RenderRun>, v: nat, m: nat, n: nat)
    requires Erased(a, b, v, m) && Erased(b, c, v, n)
    ensures Erased(a, c, v, m + n)
  {
    hide View;
    CutAgain(View(a), View(b), v, m, n);
  }

  lemma CutAgain<T>(a: seq<T>, b: seq<T>, v: nat, m: nat, n: nat)
    requires v + m <= |a| && b == a[..v] + a[v + m..] && v + n <= |b|
    ensures v + (m + n) <= |a| && b[..v] + b[v + n..] == a[..v] + a[v + (m + n)..]
  {
  }

  lemma ErasedLength(a: seq<RenderRun>, b: seq<RenderRun>, v: nat, n: nat)
    requires Erased(a, b, v, n)
    ensures |View(b)| == |View(a)| - n
  {
  }

  lemma SizedAt(runs: seq<RenderRun>, i: nat)
    requires AllSized(runs) && i < |runs|
    ensures Scalars(Shows(runs[i]))
  {
    assert runs[i] in runs;
  }
}
