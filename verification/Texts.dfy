/** The text the wire carries for some character values: joined into a string, then encoded as UTF-8. */
module Texts {
  import Utf8
  import Utf16

  /** What `U+FFFD` stands for: something that is not a character. */
  const REPLACEMENT_CHARACTER := 0xFFFD

  /** Values a string can be made of; others are refused. */
  predicate Pointed(vs: seq<nat>) {
    forall i :: 0 <= i < |vs| ==> vs[i] <= 0x10FFFF
  }

  predicate AllScalars(vs: seq<nat>) {
    forall v :: v in vs ==> Utf8.IsScalar(v)
  }

  /** No high surrogate stands right before a low one. */
  ghost predicate Whole(vs: seq<nat>) {
    Pointed(vs) && Utf16.Whole(vs)
  }

  function Repair(v: nat): nat {
    if Utf8.IsScalar(v) then v else REPLACEMENT_CHARACTER
  }

  function RepairAll(vs: seq<nat>): (rs: seq<nat>)
    ensures AllScalars(rs) && |rs| == |vs|
  {
    seq(|vs|, i requires 0 <= i < |vs| => Repair(vs[i]))
  }

  /** Adjacent surrogates pair up in the string; the encoder replaces those left alone. */
  function Repaired(vs: seq<nat>): (rs: seq<nat>)
    requires Pointed(vs)
    ensures AllScalars(rs)
  {
    RepairAll(Utf16.CodePoints(Utf16.Encode(vs)))
  }

  lemma ScalarsSame(vs: seq<nat>)
    requires AllScalars(vs)
    ensures RepairAll(vs) == vs
  {
    forall i | 0 <= i < |vs| ensures RepairAll(vs)[i] == vs[i] { assert vs[i] in vs; }
  }

  lemma ScalarsWhole(vs: seq<nat>)
    requires AllScalars(vs)
    ensures Whole(vs)
  {
    forall i | 0 <= i < |vs| ensures Utf8.IsScalar(vs[i]) { assert vs[i] in vs; }
  }

  /**
   * Values that pair up nowhere stay as many as they were, each replaced on its own if it is no character; values
   * that pair up become fewer.
   */
  lemma RepairedExactly(vs: seq<nat>)
    requires Pointed(vs)
    ensures |Repaired(vs)| <= |vs|
    ensures |Repaired(vs)| == |vs| <==> Whole(vs)
    ensures Whole(vs) ==> Repaired(vs) == RepairAll(vs)
  {
    Utf16.JoinSurvivesJustWhenWhole(vs);
    Utf16.JoinNeverLonger(vs);
  }

  /** Exactly the characters are carried unchanged. */
  lemma CarriedUnchanged(vs: seq<nat>)
    requires Pointed(vs)
    ensures Repaired(vs) == vs <==> AllScalars(vs)
  {
    if AllScalars(vs) {
      ScalarsWhole(vs);
      RepairedExactly(vs);
      ScalarsSame(vs);
    }
  }

  /** Repairing is done once. */
  lemma RepairedTwice(vs: seq<nat>)
    requires Pointed(vs)
    ensures Pointed(Repaired(vs)) && Repaired(Repaired(vs)) == Repaired(vs)
  {
    CarriedUnchanged(Repaired(vs));
  }

  lemma Scalars(vs: seq<nat>)
    requires AllScalars(vs)
    ensures Pointed(vs) && Repaired(vs) == vs && Whole(vs)
  {
    ScalarsWhole(vs);
    CarriedUnchanged(vs);
  }
}
