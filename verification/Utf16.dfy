/**
 * UTF-16 code units, which the DOM counts, against Unicode code points, which the document counts.
 * A string is any sequence of code units; iterating it pairs a high surrogate with the low one after it.
 */
module Utf16 {
  import opened Identifiers
  import Utf8

  type Unit = u: nat | u < 0x10000

  type CodePoint = c: nat | c <= 0x10FFFF

  predicate IsHigh(u: nat) {
    0xD800 <= u <= 0xDBFF
  }

  predicate IsLow(u: nat) {
    0xDC00 <= u <= 0xDFFF
  }

  /** How many code units the first character of a string takes. */
  function Width(u: seq<Unit>): (w: nat)
    requires u != []
    ensures 1 <= w <= 2 && w <= |u|
  {
    if |u| > 1 && IsHigh(u[0]) && IsLow(u[1]) then 2 else 1
  }

  /** The character two surrogates stand for. */
  function Paired(high: nat, low: nat): CodePoint
    requires IsHigh(high) && IsLow(low)
  {
    0x10000 + (high - 0xD800) * 0x400 + (low - 0xDC00)
  }

  function First(u: seq<Unit>): CodePoint
    requires u != []
  {
    if Width(u) == 2 then Paired(u[0], u[1]) else u[0]
  }

  /** What iterating a string yields. */
  function CodePoints(u: seq<Unit>): (cs: seq<CodePoint>)
    ensures |cs| <= |u| && (cs == [] <==> u == [])
  {
    if u == [] then [] else [First(u)] + CodePoints(u[Width(u)..])
  }

  function Units(c: CodePoint): (u: seq<Unit>)
    ensures 1 <= |u| <= 2
  {
    if c < 0x10000 then [c] else [0xD800 + (c - 0x10000) / 0x400, 0xDC00 + (c - 0x10000) % 0x400]
  }

  /** The string of some characters, joined. */
  function Encode(cs: seq<CodePoint>): seq<Unit> {
    if cs == [] then [] else Units(cs[0]) + Encode(cs[1..])
  }

  /** A character of the first plane is one code unit; any other a high surrogate and a low one, ten bits each. */
  lemma UnitsForm(c: CodePoint)
    ensures c <= 0xFFFF ==> Units(c) == [c]
    ensures c > 0xFFFF ==>
      && |Units(c)| == 2 && 0xD800 <= Units(c)[0] <= 0xDBFF && 0xDC00 <= Units(c)[1] <= 0xDFFF
      && c == 0x10000 + (Units(c)[0] as int - 0xD800) * 1024 + (Units(c)[1] as int - 0xDC00)
  {
  }

  ghost predicate Scalars(cs: seq<CodePoint>) {
    forall c :: c in cs ==> Utf8.IsScalar(c)
  }

  /** No lone high surrogate stands right before a lone low one. */
  ghost predicate Whole(cs: seq<CodePoint>) {
    forall i :: 0 <= i < |cs| - 1 && IsHigh(cs[i]) ==> !IsLow(cs[i + 1])
  }

  // ------------------------------------------------------------------ strings and characters

  lemma UnitsFirst(c: CodePoint, rest: seq<Unit>)
    requires IsHigh(c) && rest != [] ==> !IsLow(rest[0])
    ensures Width(Units(c) + rest) == |Units(c)| && First(Units(c) + rest) == c
    ensures (Units(c) + rest)[|Units(c)|..] == rest
  {
    if c >= 0x10000 {
      var d := c - 0x10000;
      assert d / 0x400 * 0x400 + d % 0x400 == d;
      assert (Units(c) + rest)[0] == 0xD800 + d / 0x400 && (Units(c) + rest)[1] == 0xDC00 + d % 0x400;
    }
  }

  /** Iterating a string and joining what comes out gives the string, lone surrogates and all. */
  lemma {:induction false} EncodeCodePoints(u: seq<Unit>)
    ensures Encode(CodePoints(u)) == u
  {
    if u != [] {
      var w := Width(u);
      EncodeCodePoints(u[w..]);
      assert CodePoints(u)[1..] == CodePoints(u[w..]);
      assert Units(First(u)) == u[..w];
      assert u == u[..w] + u[w..];
    }
  }

  lemma {:induction false} CodePointsWhole(u: seq<Unit>)
    ensures Whole(CodePoints(u))
    ensures u != [] && IsLow(CodePoints(u)[0]) ==> IsLow(u[0])
  {
    if u != [] {
      var w := Width(u);
      CodePointsWhole(u[w..]);
      var cs := CodePoints(u);
      forall i | 0 <= i < |cs| - 1 && IsHigh(cs[i])
        ensures !IsLow(cs[i + 1])
      {
        if i > 0 {
          assert cs[i] == CodePoints(u[w..])[i - 1] && cs[i + 1] == CodePoints(u[w..])[i];
        } else {
          assert cs[1] == CodePoints(u[w..])[0];
        }
      }
    }
  }

  lemma WholeTail(cs: seq<CodePoint>)
    requires Whole(cs) && cs != []
    ensures Whole(cs[1..])
    ensures |cs| > 1 && IsHigh(cs[0]) ==> !IsLow(cs[1..][0])
  {
    var tail := cs[1..];
    forall i | 0 <= i < |tail| - 1 && IsHigh(tail[i]) ensures !IsLow(tail[i + 1]) {
      assert tail[i] == cs[i + 1] && tail[i + 1] == cs[i + 2];
    }
    if |cs| > 1 && IsHigh(cs[0]) {
      assert !IsLow(cs[0 + 1]);
    }
  }

  lemma CodePointsStep(c: CodePoint, rest: seq<Unit>)
    requires IsHigh(c) && rest != [] ==> !IsLow(rest[0])
    ensures CodePoints(Units(c) + rest) == [c] + CodePoints(rest)
    ensures IsLow((Units(c) + rest)[0]) ==> IsLow(c)
  {
    UnitsFirst(c, rest);
  }

  lemma {:induction false} CodePointsEncode(cs: seq<CodePoint>)
    requires Whole(cs)
    ensures CodePoints(Encode(cs)) == cs
    ensures cs != [] && IsLow(Encode(cs)[0]) ==> IsLow(cs[0])
  {
    hide CodePoints, Units, Whole;
    if cs == [] {
      NoCharacters();
    } else {
      var tail := cs[1..];
      WholeTail(cs);
      CodePointsEncode(tail);
      CodePointsStep(cs[0], Encode(tail));
      assert cs == [cs[0]] + tail;
    }
  }

  lemma NoCharacters()
    ensures CodePoints([]) == []
  {
  }

  /** Joining characters and iterating gives them back exactly when no two lone surrogates meet in the right order. */
  lemma JoinSurvivesJustWhenWhole(cs: seq<CodePoint>)
    ensures CodePoints(Encode(cs)) == cs <==> Whole(cs)
  {
    if Whole(cs) {
      CodePointsEncode(cs);
    } else {
      CodePointsWhole(Encode(cs));
    }
  }

  lemma FirstOfConcat(a: seq<Unit>, b: seq<Unit>)
    requires a != [] && (Width(a) == 1 ==> !IsHigh(a[0]))
    ensures Width(a + b) == Width(a) && First(a + b) == First(a)
    ensures (a + b)[Width(a)..] == a[Width(a)..] + b
  {
    assert (a + b)[0] == a[0];
  }

  /** Two strings put side by side keep their characters when the first is well formed. */
  lemma {:induction false} Concat(a: seq<Unit>, b: seq<Unit>)
    requires Scalars(CodePoints(a))
    ensures CodePoints(a + b) == CodePoints(a) + CodePoints(b)
  {
    hide First, Width;
    if a == [] {
      assert a + b == b;
    } else {
      var tail := a[Width(a)..];
      assert CodePoints(a) == [First(a)] + CodePoints(tail);
      FirstIsScalar(a);
      FirstOfConcat(a, b);
      Concat(tail, b);
      assert [First(a)] + (CodePoints(tail) + CodePoints(b)) == ([First(a)] + CodePoints(tail)) + CodePoints(b);
    }
  }

  lemma FirstIsScalar(a: seq<Unit>)
    requires a != [] && Scalars(CodePoints(a))
    ensures Width(a) == 1 ==> !IsHigh(a[0])
    ensures Scalars(CodePoints(a[Width(a)..]))
  {
    assert CodePoints(a)[0] == First(a) && First(a) in CodePoints(a);
    forall c | c in CodePoints(a[Width(a)..]) ensures Utf8.IsScalar(c) {
      assert c in CodePoints(a);
    }
  }

  // ------------------------------------------------------------------ character offsets and unit offsets

  /** The code unit at which character `k` of a string starts. */
  function Cut(u: seq<Unit>, k: nat): (o: nat)
    requires k <= |CodePoints(u)|
    ensures o <= |u|
    decreases k
  {
    if k == 0 then 0 else Width(u) + Cut(u[Width(u)..], k - 1)
  }

  /** Cutting there splits the characters after the first `k`. */
  lemma {:induction false} CutSplits(u: seq<Unit>, k: nat)
    requires k <= |CodePoints(u)|
    ensures CodePoints(u[Cut(u, k)..]) == CodePoints(u)[k..]
    decreases k
  {
    hide First, Width;
    if k == 0 {
      assert u[0..] == u;
    } else {
      var w := Width(u);
      var v := u[w..];
      CutSplits(v, k - 1);
      DropAgain(u, w, Cut(v, k - 1));
      assert CodePoints(u)[k..] == CodePoints(v)[k - 1..];
    }
  }

  lemma DropAgain<T>(u: seq<T>, w: nat, o: nat)
    requires w + o <= |u|
    ensures u[w..][o..] == u[w + o..]
  {
  }

  lemma {:induction false} CutPrefix(u: seq<Unit>, k: nat)
    requires k <= |CodePoints(u)| && Scalars(CodePoints(u))
    ensures CodePoints(u[..Cut(u, k)]) == CodePoints(u)[..k]
    decreases k
  {
    if k > 0 {
      var w := Width(u);
      var v := u[w..];
      assert CodePoints(u) == [First(u)] + CodePoints(v);
      forall c | c in CodePoints(v) ensures Utf8.IsScalar(c) {
        assert c in CodePoints(u);
      }
      CutPrefix(v, k - 1);
      var p := u[..Cut(u, k)];
      assert p[0] == u[0];
      assert p[w..] == v[..Cut(v, k - 1)];
      assert First(u) in CodePoints(u);
      assert Width(p) == w && First(p) == First(u);
      assert CodePoints(u)[..k] == [First(u)] + CodePoints(v)[..k - 1];
    }
  }

  lemma {:induction false} CutStep(u: seq<Unit>, k: nat)
    requires k < |CodePoints(u)|
    ensures Cut(u, k) < |u|
    ensures Cut(u, k + 1) == Cut(u, k) + Width(u[Cut(u, k)..])
    decreases k
  {
    var w := Width(u);
    if k == 0 {
      assert u[0..] == u;
      assert Cut(u[w..], 0) == 0;
    } else {
      CutStep(u[w..], k - 1);
      assert u[w..][Cut(u[w..], k - 1)..] == u[Cut(u, k)..];
    }
  }

  lemma {:induction false} CutAscends(u: seq<Unit>, j: nat, k: nat)
    requires j < k <= |CodePoints(u)|
    ensures Cut(u, j) < Cut(u, k)
    decreases k
  {
    CutStep(u, k - 1);
    if j < k - 1 {
      CutAscends(u, j, k - 1);
    }
  }

  lemma CutEnd(u: seq<Unit>)
    ensures Cut(u, |CodePoints(u)|) == |u|
  {
    CutSplits(u, |CodePoints(u)|);
    var o := Cut(u, |CodePoints(u)|);
    assert CodePoints(u[o..]) == [];
  }

  /** Whether an offset falls between the two halves of a pair, read off the neighbouring code units alone. */
  predicate InsideSurrogatePair(u: seq<Unit>, offset: int) {
    0 < offset < |u| && IsHigh(u[offset - 1]) && IsLow(u[offset])
  }

  /** Character starts are never inside a pair. */
  lemma {:induction false} CutsAvoidPairs(u: seq<Unit>, k: nat)
    requires k <= |CodePoints(u)|
    ensures !InsideSurrogatePair(u, Cut(u, k))
    decreases k
  {
    if k > 0 {
      var w := Width(u);
      var v, o := u[w..], Cut(u[w..], k - 1);
      CutsAvoidPairs(v, k - 1);
      PairsShift(u, w, o);
    }
  }

  lemma PairsShift(u: seq<Unit>, w: nat, o: nat)
    requires u != [] && w == Width(u) && w + o <= |u|
    ensures InsideSurrogatePair(u, w + o) <==> InsideSurrogatePair(u[w..], o)
  {
    if 0 < o && w + o < |u| {
      assert u[w..][o - 1] == u[w + o - 1] && u[w..][o] == u[w + o];
    }
  }

  /** Every other offset is. */
  lemma {:induction false} OffsetIsCut(u: seq<Unit>, offset: nat) returns (k: nat)
    requires offset <= |u| && !InsideSurrogatePair(u, offset)
    ensures k <= |CodePoints(u)| && Cut(u, k) == offset
    decreases |u|
  {
    if offset == 0 {
      k := 0;
    } else {
      var w := Width(u);
      assert offset >= w;
      PairsShift(u, w, offset - w);
      var j := OffsetIsCut(u[w..], offset - w);
      k := j + 1;
    }
  }

  /** The code unit offset of a character offset; nothing past the end or before the start. */
  method ScalarToUtf16(text: seq<Unit>, scalarOffset: int) returns (r: Option<nat>)
    ensures r.Some? <==> 0 <= scalarOffset <= |CodePoints(text)|
    ensures r.Some? ==> r.value == Cut(text, scalarOffset)
  {
    if scalarOffset < 0 {
      return None;
    }
    var utf16, scalar := 0, 0;
    while utf16 < |text|
      invariant scalar <= |CodePoints(text)| && scalar <= scalarOffset
      invariant utf16 == Cut(text, scalar)
      decreases |text| - utf16
    {
      CutSplits(text, scalar);
      if scalar == scalarOffset {
        return Some(utf16);
      }
      CutStep(text, scalar);
      utf16 := utf16 + Width(text[utf16..]);
      scalar := scalar + 1;
    }
    CutSplits(text, scalar);
    if scalar == scalarOffset {
      return Some(utf16);
    }
    return None;
  }

  /** The character offset of a code unit offset; nothing inside a surrogate pair or out of range. */
  method Utf16ToScalar(text: seq<Unit>, utf16Offset: int) returns (r: Option<nat>)
    ensures r.Some? <==> 0 <= utf16Offset <= |text| && !InsideSurrogatePair(text, utf16Offset)
    ensures r.Some? ==> r.value <= |CodePoints(text)| && Cut(text, r.value) == utf16Offset
  {
    if utf16Offset < 0 {
      return None;
    }
    var utf16, scalar := 0, 0;
    while utf16 < |text|
      invariant scalar <= |CodePoints(text)| && utf16 <= utf16Offset
      invariant utf16 == Cut(text, scalar)
      decreases |text| - utf16
    {
      CutSplits(text, scalar);
      if utf16 == utf16Offset {
        CutsAvoidPairs(text, scalar);
        return Some(scalar);
      }
      CutStep(text, scalar);
      var width := Width(text[utf16..]);
      if utf16Offset < utf16 + width {
        assert text[utf16..][0] == text[utf16] && text[utf16..][1] == text[utf16 + 1];
        return None;
      }
      utf16 := utf16 + width;
      scalar := scalar + 1;
    }
    CutSplits(text, scalar);
    if utf16 == utf16Offset {
      return Some(scalar);
    }
    return None;
  }

  lemma CutInjective(u: seq<Unit>, j: nat, k: nat)
    requires j <= |CodePoints(u)| && k <= |CodePoints(u)|
    ensures Cut(u, j) == Cut(u, k) ==> j == k
  {
    if j < k {
      CutAscends(u, j, k);
    } else if k < j {
      CutAscends(u, k, j);
    }
  }

  // ------------------------------------------------------------------ splicing strings

  lemma {:induction false} EncodeConcat(a: seq<CodePoint>, b: seq<CodePoint>)
    ensures Encode(a + b) == Encode(a) + Encode(b)
  {
    hide Units;
    if a == [] {
      assert a + b == b;
    } else {
      assert (a + b)[1..] == a[1..] + b;
      EncodeConcat(a[1..], b);
      assert Units(a[0]) + (Encode(a[1..]) + Encode(b)) == (Units(a[0]) + Encode(a[1..])) + Encode(b);
    }
  }

  /** Up to a character start a string is the characters before it, joined. */
  lemma CutEncodes(u: seq<Unit>, k: nat)
    requires k <= |CodePoints(u)|
    ensures u[..Cut(u, k)] == Encode(CodePoints(u)[..k]) && u[Cut(u, k)..] == Encode(CodePoints(u)[k..])
  {
    hide CodePoints, Cut, Encode;
    var cs, o := CodePoints(u), Cut(u, k);
    EncodeCodePoints(u);
    EncodeCodePoints(u[o..]);
    CutSplits(u, k);
    EncodeConcat(cs[..k], cs[k..]);
    assert cs == cs[..k] + cs[k..];
    SamePrefix(u, o, Encode(cs[..k]));
  }

  lemma SamePrefix<T>(u: seq<T>, o: nat, p: seq<T>)
    requires o <= |u| && u == p + u[o..]
    ensures p == u[..o]
  {
    assert |p| == o;
    assert p == (p + u[o..])[..o];
  }

  lemma {:induction false} FirstUnit(cs: seq<CodePoint>)
    ensures cs != [] ==> Encode(cs) != [] && (IsLow(Encode(cs)[0]) <==> IsLow(cs[0]))
    ensures cs != [] && IsLow(cs[0]) ==> Encode(cs)[1..] == Encode(cs[1..])
  {
  }

  /** Two lone surrogates that meet become one character. */
  lemma {:induction false} JoinNeverLonger(cs: seq<CodePoint>)
    ensures |CodePoints(Encode(cs))| <= |cs|
    ensures |CodePoints(Encode(cs))| == |cs| ==> CodePoints(Encode(cs)) == cs
    decreases |cs|
  {
    hide CodePoints, Units;
    if cs == [] {
      NoCharacters();
    } else {
      var tail := cs[1..];
      FirstUnit(tail);
      if tail != [] && IsHigh(cs[0]) && IsLow(tail[0]) {
        JoinNeverLonger(tail[1..]);
        SwallowsTwo(cs[0], Encode(tail));
      } else {
        JoinNeverLonger(tail);
        CodePointsStep(cs[0], Encode(tail));
        assert cs == [cs[0]] + tail;
      }
    }
  }

  lemma SwallowsTwo(high: CodePoint, rest: seq<Unit>)
    requires IsHigh(high) && rest != [] && IsLow(rest[0])
    ensures |CodePoints(Units(high) + rest)| == 1 + |CodePoints(rest[1..])|
  {
    var u := Units(high) + rest;
    assert u[0] == high && u[1] == rest[0] && u[2..] == rest[1..];
  }

  /**
   * Putting a string into another at a character start, whatever lone surrogates they hold: the result has the
   * characters of both, in order, and as many as both together, exactly when no lone high surrogate meets a lone
   * low one at the two joints.
   */
  lemma SpliceSurvivesJustWhenWhole(u: seq<Unit>, k: nat, text: seq<Unit>)
    requires k <= |CodePoints(u)|
    ensures
      var spliced := u[..Cut(u, k)] + text + u[Cut(u, k)..];
      var cs := CodePoints(u)[..k] + CodePoints(text) + CodePoints(u)[k..];
      && (CodePoints(spliced) == cs <==> Whole(cs))
      && (|CodePoints(spliced)| == |CodePoints(u)| + |CodePoints(text)| <==> Whole(cs))
  {
    hide CodePoints, Cut, Encode, Whole;
    var a, b, c := CodePoints(u)[..k], CodePoints(text), CodePoints(u)[k..];
    CutEncodes(u, k);
    EncodeCodePoints(text);
    EncodeConcat(a, b);
    EncodeConcat(a + b, c);
    JoinSurvivesJustWhenWhole(a + b + c);
    JoinNeverLonger(a + b + c);
  }
}
