/** A keystroke: the engine takes the edit first, then the editor is patched and compared with the engine's text. */
module Keystrokes {
  import opened Identifiers
  import opened FugueShape
  import opened EngineState
  import opened Engines
  import opened FugueTrees
  import opened LocalEdits
  import LocalRuns
  import opened Utf16
  import opened RenderIndex
  import opened DomWriters

  /** The editor shows exactly the engine's text. */
  ghost predicate InStep(e: Engine, w: DomWriter)
    reads e, e.tree, w
  {
    e.Valid() && w.Valid() && w.mounted && View(w.runs) == FugueShape.Text(e.tree.shape)
  }

  lemma {:induction false} ViewScalars(runs: seq<RenderRun>)
    requires AllSized(runs)
    ensures Scalars(View(runs))
  {
    hide CodePoints;
    if runs != [] {
      assert Sized(runs[0]);
      ViewScalars(runs[1..]);
    }
  }

  /** The engine's text as a string. */
  method Materialized(e: Engine, ghost cs: seq<CodePoint>) returns (text: seq<Unit>)
    requires e.Valid() && FugueShape.Text(e.tree.shape) == cs && Scalars(cs)
    ensures CodePoints(text) == cs
  {
    var values := e.Text();
    assert values == cs;
    text := Encode(values);
    ScalarsWhole(cs);
    CodePointsEncode(cs);
  }

  lemma TextLength(s: State)
    ensures |FugueShape.Text(s.tree)| == NumVis(Flat(s.tree))
  {
  }

  /** The text once `cs` is typed at `at`, when the first character lands at `w` and the others follow by position. */
  function TypedText(t: seq<nat>, w: nat, at: nat, cs: seq<nat>): seq<nat>
    requires w <= |t| && at <= |t|
  {
    if cs == [] then t
    else
      var u := t[..w] + [cs[0]] + t[w..];
      u[..at + 1] + cs[1..] + u[at + 1..]
  }

  /** Where the first character lands at its position, that is a plain splice. */
  lemma TypedPlain(t: seq<nat>, at: nat, cs: seq<nat>)
    requires at <= |t|
    ensures TypedText(t, at, at, cs) == t[..at] + cs + t[at..]
  {
  }

  lemma TypedFirst(t: seq<nat>, w: nat, at: nat, c: nat)
    requires w <= |t| && at <= |t|
    ensures TypedText(t, w, at, [c]) == t[..w] + [c] + t[w..]
  {
  }

  /** One more character typed after those already there. */
  lemma TypedMore(t: seq<nat>, w: nat, at: nat, cs: seq<nat>, i: nat)
    requires w <= |t| && at <= |t| && 0 < i < |cs|
    ensures
      var u := TypedText(t, w, at, cs[..i]);
      && |u| == |t| + i
      && TypedText(t, w, at, cs[..i + 1]) == u[..at + i] + [cs[i]] + u[at + i..]
  {
    var u0 := t[..w] + [cs[0]] + t[w..];
    var u := TypedText(t, w, at, cs[..i]);
    assert cs[..i + 1][1..] == cs[1..i] + [cs[i]] && cs[..i][1..] == cs[1..i];
    assert u == u0[..at + 1] + cs[1..i] + u0[at + 1..];
    assert u[..at + i] == u0[..at + 1] + cs[1..i] && u[at + i..] == u0[at + 1..];
  }

  /** Types one character; a position past the end is refused and changes nothing. */
  method LocalInsertOne(e: Engine, at: int, value: nat, bind: bool) returns (taken: bool)
    requires e.Valid()
    modifies e, e.tree
    ensures e.Valid()
    ensures taken <==> 0 <= at <= |old(FugueShape.Text(e.tree.shape))|
    ensures !taken ==> e.Abs() == old(e.Abs())
    ensures taken ==>
      var w := LandingIndex(old(e.tree.shape), at);
      && w <= |old(FugueShape.Text(e.tree.shape))|
      && FugueShape.Text(e.tree.shape) ==
         old(FugueShape.Text(e.tree.shape))[..w] + [value] + old(FugueShape.Text(e.tree.shape))[w..]
  {
    hide WF, FugueShape.Text, LocalInsert, InsertOp, FugueTree.Valid, LandingIndex;
    TextLength(e.Abs());
    if 0 <= at <= NumVis(Flat(e.tree.shape)) {
      InsertTextLands(e.Abs(), at, value, bind);
    }
    var op := e.LocalInsert(at, value, bind);
    taken := op.Some?;
  }

  lemma Lands(e: Engine, at: nat)
    requires e.Valid()
    ensures e.tree.shape.Trees?
    ensures at > 0 || NumVis(Flat(e.tree.shape.left)) == 0 ==> LandingIndex(e.tree.shape, at) == at
    ensures at <= |FugueShape.Text(e.tree.shape)| ==>
      LandingIndex(e.tree.shape, at) <= |FugueShape.Text(e.tree.shape)|
  {
    if at <= NumVis(Flat(e.tree.shape)) { InsertTextLands(e.Abs(), at, 0, false); }
  }

  /** Types the characters one by one, each at the position behind the one before. */
  method LocalInsertText(e: Engine, at: int, cs: seq<CodePoint>, continues: CodePoint -> bool) returns (taken: bool)
    requires e.Valid()
    modifies e, e.tree
    ensures e.Valid()
    ensures taken <==> cs == [] || 0 <= at <= |old(FugueShape.Text(e.tree.shape))|
    ensures !taken || cs == [] ==> e.Abs() == old(e.Abs())
    ensures taken && cs != [] ==>
      var t, w := old(FugueShape.Text(e.tree.shape)), LandingIndex(old(e.tree.shape), at);
      && w <= |t| && FugueShape.Text(e.tree.shape) == TypedText(t, w, at, cs)
      && (at > 0 || NumVis(Flat(old(e.tree.shape).left)) == 0 ==>
            FugueShape.Text(e.tree.shape) == t[..at] + cs + t[at..])
  {
    hide FugueShape.Text, Engine.Valid, NumVis, TypedText, LandingIndex;
    if cs == [] {
      return true;
    }
    ghost var t, d := FugueShape.Text(e.tree.shape), e.tree.shape;
    if at >= 0 { Lands(e, at); }
    taken := LocalInsertOne(e, at, cs[0], continues(cs[0]));
    if !taken {
      return;
    }
    ghost var w := LandingIndex(d, at);
    var i := 1;
    TypedFirst(t, w, at, cs[0]);
    assert cs[..1] == [cs[0]];
    while i < |cs|
      invariant 1 <= i <= |cs| && e.Valid()
      invariant FugueShape.Text(e.tree.shape) == TypedText(t, w, at, cs[..i])
    {
      TypedMore(t, w, at, cs, i);
      Lands(e, at + i);
      var more := LocalInsertOne(e, at + i, cs[i], continues(cs[i]));
      i := i + 1;
    }
    assert cs[..i] == cs;
    TypedPlain(t, at, cs);
  }

  /**
   * Typing or pasting: the editor splices the characters at the place, the engine types them there.  Both show the
   * same afterwards, and the comparison with the engine's text does not fail, unless something visible hangs left of
   * the root and the place is 0.  Out of range, neither side changes.
   */
  method InsertTextAt(e: Engine, w: DomWriter, at: int, text: seq<Unit>, continues: CodePoint -> bool)
    returns (outcome: Patch)
    requires InStep(e, w) && Scalars(CodePoints(text))
    modifies e, e.tree, w
    ensures e.Valid() && w.Valid() && w.mounted
    ensures outcome.OutOfRange? <==> text != [] && !(0 <= at <= |old(View(w.runs))|)
    ensures outcome.OutOfRange? || text == [] ==> InStep(e, w) && e.Abs() == old(e.Abs()) && w.runs == old(w.runs)
    ensures 0 <= at <= |old(View(w.runs))| ==>
      && View(w.runs) == old(View(w.runs))[..at] + CodePoints(text) + old(View(w.runs))[at..]
      && LandingIndex(old(e.tree.shape), at) <= |old(View(w.runs))|
      && FugueShape.Text(e.tree.shape)
         == TypedText(old(View(w.runs)), LandingIndex(old(e.tree.shape), at), at, CodePoints(text))
    ensures at > 0 || NumVis(Flat(old(e.tree.shape).left)) == 0 ==> InStep(e, w) && !outcome.Inconsistent?
  {
    hide FugueShape.Text, CodePoints, DomWriter.Valid, AllSized, Engine.Valid, NumVis, View, TypedText, LandingIndex;
    ghost var before, d := View(w.runs), e.tree.shape;
    NothingTyped(text);
    if at >= 0 { Lands(e, at); }
    if |text| == 0 {
      if 0 <= at <= |before| { NoneTyped(before, LandingIndex(d, at), at); }
      return Done;
    }
    var taken := LocalInsertText(e, at, CodePoints(text), continues);
    if !taken {
      return OutOfRange;
    }
    WriterScalars(w);
    ghost var typed := TypedPoints(before, LandingIndex(d, at), at, CodePoints(text));
    var expected := Materialized(e, typed);
    outcome := w.InsertText(at, text, Some(expected));
  }

  lemma NothingTyped(text: seq<Unit>)
    ensures CodePoints(text) == [] <==> text == []
  {
  }

  lemma WriterScalars(w: DomWriter)
    requires w.Valid()
    ensures Scalars(View(w.runs))
  {
    ViewScalars(w.runs);
  }

  lemma NoneTyped(t: seq<nat>, w: nat, at: nat)
    requires w <= |t| && at <= |t|
    ensures TypedText(t, w, at, []) == t[..at] + [] + t[at..]
  {
  }

  /** Text typed into characters is characters. */
  lemma TypedPoints(t: seq<CodePoint>, w: nat, at: nat, cs: seq<CodePoint>) returns (u: seq<CodePoint>)
    requires w <= |t| && at <= |t| && Scalars(t) && Scalars(cs)
    ensures u == TypedText(t, w, at, cs) && Scalars(u)
  {
    if cs == [] {
      u := t;
    } else {
      var first := t[..w] + [cs[0]] + t[w..];
      u := first[..at + 1] + cs[1..] + first[at + 1..];
    }
  }

  /** The text without the characters from `at` on, as many of the `count` as there are. */
  function CutText<T>(t: seq<T>, at: int, count: int): seq<T> {
    if 0 <= at < |t| && count > 0 then t[..at] + t[if at + count <= |t| then at + count else |t|..] else t
  }

  method LocalDelete(e: Engine, at: int, count: int)
    requires e.Valid()
    modifies e, e.tree
    ensures e.Valid()
    ensures FugueShape.Text(e.tree.shape) == CutText(old(FugueShape.Text(e.tree.shape)), at, count)
  {
    hide WF, FugueShape.Text, EngineState.LocalDelete, LocalEdits.Erased, FugueTree.Valid;
    TextLength(e.Abs());
    LocalRuns.LocalDeleteErases(e.Abs(), at, count);
    var ops := e.LocalDelete(at, count);
  }

  /**
   * Deleting.  The editor refuses a range that does not fit, where the engine deletes what there is of it; so the
   * two stay in step if and only if the range does not start inside the document and end past it.
   */
  method DeleteRangeAt(e: Engine, w: DomWriter, at: int, count: int) returns (outcome: Patch)
    requires InStep(e, w)
    modifies e, e.tree, w
    ensures e.Valid() && w.Valid() && w.mounted
    ensures InStep(e, w) <==> !(0 <= at < |old(View(w.runs))| < at + count)
    ensures outcome == if count <= 0 || 0 <= at <= at + count <= |old(View(w.runs))| then Done else OutOfRange
    ensures FugueShape.Text(e.tree.shape) == CutText(old(View(w.runs)), at, count)
    ensures View(w.runs) == if outcome.Done? then CutText(old(View(w.runs)), at, count) else old(View(w.runs))
  {
    hide FugueShape.Text, CodePoints, DomWriter.Valid, AllSized, Engine.Valid, View;
    ghost var before := View(w.runs);
    if count <= 0 {
      return Done;
    }
    LocalDelete(e, at, count);
    WriterScalars(w);
    ScalarsCut(before, at, count);
    var expected := Materialized(e, CutText(before, at, count));
    outcome := w.DeleteRange(at, count, Some(expected));
  }

  lemma ScalarsCut(t: seq<CodePoint>, at: int, count: int)
    requires Scalars(t)
    ensures Scalars(CutText(t, at, count))
    ensures 0 <= at < |t| < at + count ==> CutText(t, at, count) != t
  {
    assert 0 <= at < |t| < at + count ==> |CutText(t, at, count)| == at;
  }
}
