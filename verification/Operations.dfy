/** The engine's three operations and the public view of a node. */
module Operations {
  import opened Identifiers

  datatype Side = L | R

  datatype Op =
    | Insert(id: Id, value: nat, parent: Key, side: Side, bind: bool)
    | Delete(id: Id, target: Id)
    | Undelete(id: Id, target: Id)

  datatype Node = Node(
    id: Id, value: nat, parent: Key, side: Side, bind: bool,
    deleted: bool, deletedBy: Option<Id>)
  {
    /** The insert that created this node: everything about it that never changes. */
    function Origin(): Op {
      Insert(id, value, parent, side, bind)
    }
  }

  function NewNode(op: Op): Node
    requires op.Insert?
  {
    Node(op.id, op.value, op.parent, op.side, op.bind, false, None)
  }

  /** Sibling order: cluster-continuing nodes first, then by replica; the counter plays no part. */
  predicate SiblingLess(a: Node, b: Node) {
    if a.bind != b.bind then a.bind else a.id.r < b.id.r
  }
}
