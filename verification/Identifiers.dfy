/** Operation identifiers: a Lamport counter and a replica id, with their total order. */
module Identifiers {

  datatype Option<+T> = None | Some(value: T)

  datatype Id = Id(c: nat, r: nat)

  /** Where a node hangs: `None` is the document root, `Some(id)` an ordinary node. */
  type Key = Option<Id>

  function CompareIds(a: Id, b: Id): int {
    if a.c != b.c then a.c - b.c else a.r - b.r
  }

  predicate Precedes(a: Id, b: Id) {
    CompareIds(a, b) < 0
  }

  /** The comparison is a strict total order, and only equal identifiers compare as 0. */
  lemma CompareIdsTotalOrder(a: Id, b: Id, c: Id)
    ensures CompareIds(a, b) == 0 <==> a == b
    ensures Precedes(a, b) || a == b || Precedes(b, a)
    ensures !(Precedes(a, b) && Precedes(b, a))
    ensures Precedes(a, b) && Precedes(b, c) ==> Precedes(a, c)
  {
  }

  /** A nonempty finite set of identifiers has a greatest element. */
  lemma {:induction false} GreatestExists(s: set<Id>) returns (m: Id)
    requires s != {}
    ensures m in s && forall x :: x in s && x != m ==> Precedes(x, m)
    decreases |s|
  {
    m :| m in s;
    if s != {m} {
      var rest := s - {m};
      assert rest + {m} == s;
      var m' := GreatestExists(rest);
      assert forall x :: x in s ==> x == m || x in rest;
      if Precedes(m, m') { m := m'; }
    }
  }
}
