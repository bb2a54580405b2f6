/** Run frames: one message for many single-character operations. */
module Expand {
  import opened Identifiers
  import opened Operations

  datatype InsertRun = InsertRun(firstId: Id, firstParent: Key, firstSide: Side, bind: bool, values: seq<nat>)

  datatype DeleteBatch = DeleteBatch(minter: nat, atFirst: nat, targets: seq<Id>)

  /** The `j`-th operation of a run: the first as the run says, every other right of the one before. */
  function RunOp(m: InsertRun, j: nat): Op
    requires j < |m.values|
  {
    Insert(Id(m.firstId.c + j, m.firstId.r), m.values[j],
           if j == 0 then m.firstParent else Some(Id(m.firstId.c + j - 1, m.firstId.r)),
           if j == 0 then m.firstSide else R,
           m.bind)
  }

  function Expanded(m: InsertRun): seq<Op> {
    seq(|m.values|, j requires 0 <= j < |m.values| => RunOp(m, j))
  }

  method ExpandInsertRun(m: InsertRun) returns (ops: seq<Op>)
    ensures ops == Expanded(m) && |ops| == |m.values|
    ensures ops != [] ==> ops[0] == Insert(m.firstId, m.values[0], m.firstParent, m.firstSide, m.bind)
    ensures forall j :: 0 < j < |ops| ==>
              ops[j] == Insert(Id(m.firstId.c + j, m.firstId.r), m.values[j], Some(ops[j - 1].id), R, m.bind)
  {
    ops := [];
    for j := 0 to |m.values|
      invariant ops == Expanded(m)[..j]
    {
      var id := Id(m.firstId.c + j, m.firstId.r);
      var parent := m.firstParent;
      var side := m.firstSide;
      if j > 0 {
        parent := Some(Id(m.firstId.c + j - 1, m.firstId.r));
        side := R;
      }
      ops := ops + [Insert(id, m.values[j], parent, side, m.bind)];
    }
  }

  function ExpandDeleteBatch(m: DeleteBatch): seq<Op> {
    seq(|m.targets|, i requires 0 <= i < |m.targets| => Delete(Id(m.atFirst + i, m.minter), m.targets[i]))
  }
}
