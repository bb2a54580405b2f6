/** Snapshot bodies: nodes in document order, run-length encoded as typing chains. */
module SnapshotBody {
  import opened Identifiers
  import opened Operations
  import opened Bytes
  import opened Varint
  import opened Texts
  import opened Utf8
  import opened Primitives

  /** `next` continues the chain that ends with `prev`. */
  predicate CanChainAfter(prev: Node, next: Node) {
    && next.id == Id(prev.id.c + 1, prev.id.r)
    && next.parent == Some(prev.id) && next.side == R
    && next.bind == prev.bind && next.deleted == prev.deleted && next.deletedBy == prev.deletedBy
  }

  predicate LinkedAt(block: seq<Node>, j: nat)
    requires 0 < j < |block|
  {
    CanChainAfter(block[j - 1], block[j])
  }

  predicate IsChain(block: seq<Node>) {
    block != [] && forall j :: 0 < j < |block| ==> LinkedAt(block, j)
  }

  function Flatten(blocks: seq<seq<Node>>): seq<Node> {
    if blocks == [] then [] else blocks[0] + Flatten(blocks[1..])
  }

  // ------------------------------------------------------------------ grouping

  /** The length of the chain `nodes` starts with. */
  function ChainLength(nodes: seq<Node>): (n: nat)
    requires nodes != []
    ensures 0 < n <= |nodes|
  {
    if |nodes| == 1 || !CanChainAfter(nodes[0], nodes[1]) then 1 else 1 + ChainLength(nodes[1..])
  }

  function Group(nodes: seq<Node>): seq<seq<Node>>
    decreases |nodes|
  {
    if nodes == [] then [] else [nodes[..ChainLength(nodes)]] + Group(nodes[ChainLength(nodes)..])
  }

  /** Chains covering `nodes` of which no two neighbours could be joined. */
  predicate MaximalChains(blocks: seq<seq<Node>>, nodes: seq<Node>) {
    && Flatten(blocks) == nodes
    && (forall b :: b in blocks ==> IsChain(b))
    && Unjoinable(blocks)
  }

  predicate BreaksAt(blocks: seq<seq<Node>>, i: nat)
    requires 0 < i < |blocks|
  {
    var a, b := blocks[i - 1], blocks[i];
    a != [] && b != [] && !CanChainAfter(a[|a| - 1], b[0])
  }

  predicate Unjoinable(blocks: seq<seq<Node>>) {
    forall i :: 0 < i < |blocks| ==> BreaksAt(blocks, i)
  }

  lemma {:induction false} ChainLengthChain(nodes: seq<Node>)
    requires nodes != []
    ensures IsChain(nodes[..ChainLength(nodes)])
    ensures var n := ChainLength(nodes); n < |nodes| ==> !CanChainAfter(nodes[n - 1], nodes[n])
  {
    if !(|nodes| == 1 || !CanChainAfter(nodes[0], nodes[1])) {
      ChainLengthChain(nodes[1..]);
      var b, t := nodes[..ChainLength(nodes)], nodes[1..][..ChainLength(nodes[1..])];
      assert b == [nodes[0]] + t;
      forall j | 0 < j < |b| ensures LinkedAt(b, j) {
        if j > 1 { assert b[j - 1] == t[j - 2] && b[j] == t[j - 1] && LinkedAt(t, j - 1); }
      }
    }
  }

  lemma MaximalCons(b: seq<Node>, blocks: seq<seq<Node>>, rest: seq<Node>)
    requires IsChain(b) && MaximalChains(blocks, rest)
    requires rest != [] ==> blocks != [] && blocks[0] != [] && blocks[0][0] == rest[0]
    requires rest != [] ==> !CanChainAfter(b[|b| - 1], rest[0])
    requires rest == [] ==> blocks == []
    ensures MaximalChains([b] + blocks, b + rest)
  {
    hide CanChainAfter, LinkedAt;
    var more := [b] + blocks;
    assert more[1..] == blocks;
    forall i | 0 < i < |more| ensures BreaksAt(more, i) {
      assert more[i] == blocks[i - 1];
      if i > 1 { assert BreaksAt(blocks, i - 1) && more[i - 1] == blocks[i - 2]; }
    }
  }

  lemma {:induction false} GroupMaximal(nodes: seq<Node>)
    ensures MaximalChains(Group(nodes), nodes)
    decreases |nodes|
  {
    if nodes != [] {
      var n := ChainLength(nodes);
      var rest := nodes[n..];
      ChainLengthChain(nodes);
      GroupMaximal(rest);
      hide ChainLength, CanChainAfter, IsChain, MaximalChains;
      assert nodes == nodes[..n] + rest;
      assert rest != [] ==> Group(rest)[0] == rest[..ChainLength(rest)];
      MaximalCons(nodes[..n], Group(rest), rest);
    }
  }

  /** A chain that nothing continues is the chain `nodes` starts with. */
  lemma {:induction false} ChainLengthIs(nodes: seq<Node>, n: nat)
    requires 0 < n <= |nodes| && IsChain(nodes[..n]) && (n < |nodes| ==> !CanChainAfter(nodes[n - 1], nodes[n]))
    ensures ChainLength(nodes) == n
  {
    if n > 1 {
      assert LinkedAt(nodes[..n], 1);
      var tail := nodes[1..][..n - 1];
      forall j | 0 < j < |tail| ensures LinkedAt(tail, j) { assert LinkedAt(nodes[..n], j + 1); }
      ChainLengthIs(nodes[1..], n - 1);
    }
  }

  /** The first block is the chain the nodes start with, and the others group the rest. */
  lemma FirstMaximal(blocks: seq<seq<Node>>, nodes: seq<Node>)
    requires MaximalChains(blocks, nodes) && blocks != []
    ensures nodes != [] && |blocks[0]| == ChainLength(nodes) <= |nodes|
    ensures nodes[..|blocks[0]|] == blocks[0] && MaximalChains(blocks[1..], nodes[|blocks[0]|..])
  {
    hide CanChainAfter, ChainLength;
    var b, rest := blocks[0], blocks[1..];
    assert b in blocks && forall c :: c in rest ==> c in blocks;
    assert nodes == b + Flatten(rest);
    assert nodes[..|b|] == b && nodes[|b|..] == Flatten(rest);
    if rest != [] {
      assert rest[0] in rest && Flatten(rest)[0] == rest[0][0];
      assert BreaksAt(blocks, 1);
    }
    ChainLengthIs(nodes, |b|);
    forall i | 0 < i < |rest| ensures BreaksAt(rest, i) { assert BreaksAt(blocks, i + 1); }
  }

  /** There is only one such grouping. */
  lemma {:induction false} MaximalUnique(blocks: seq<seq<Node>>, nodes: seq<Node>)
    requires MaximalChains(blocks, nodes)
    ensures blocks == Group(nodes)
    decreases |blocks|
  {
    hide MaximalChains, ChainLength;
    if blocks == [] {
      NothingGrouped(nodes);
    } else {
      FirstMaximal(blocks, nodes);
      MaximalUnique(blocks[1..], nodes[|blocks[0]|..]);
      assert blocks == [blocks[0]] + blocks[1..];
    }
  }

  lemma NothingGrouped(nodes: seq<Node>)
    requires MaximalChains([], nodes)
    ensures nodes == []
  {
  }

  lemma {:induction false} FlattenConcat(a: seq<seq<Node>>, b: seq<seq<Node>>)
    ensures Flatten(a + b) == Flatten(a) + Flatten(b)
  {
    if a == [] {
      assert a + b == b;
    } else {
      assert (a + b)[1..] == a[1..] + b;
      FlattenConcat(a[1..], b);
    }
  }

  /** What the grouping loop keeps: finished blocks and the one being built. */
  ghost predicate Grouping(done: seq<seq<Node>>, current: seq<Node>, nodes: seq<Node>) {
    if current == [] then done == [] && nodes == [] else MaximalChains(done + [current], nodes)
  }

  lemma ChainGrows(block: seq<Node>, node: Node)
    requires IsChain(block) && CanChainAfter(block[|block| - 1], node)
    ensures IsChain(block + [node])
  {
    forall j | 0 < j < |block + [node]| ensures LinkedAt(block + [node], j) {
      if j < |block| { assert LinkedAt(block, j); }
    }
  }

  /** Replacing the last block by one with the same first node. */
  lemma LastBlockGrows(done: seq<seq<Node>>, a: seq<Node>, b: seq<Node>)
    requires a != [] && b != [] && a[0] == b[0] && Unjoinable(done + [a])
    ensures Unjoinable(done + [b])
  {
    forall i | 0 < i < |done + [b]| ensures BreaksAt(done + [b], i) { assert BreaksAt(done + [a], i); }
  }

  lemma BlockAdded(done: seq<seq<Node>>, node: Node)
    requires Unjoinable(done)
    requires done != [] ==> done[|done| - 1] != [] && !CanChainAfter(done[|done| - 1][|done[|done| - 1]| - 1], node)
    ensures Unjoinable(done + [[node]])
  {
    forall i | 0 < i < |done + [[node]]| ensures BreaksAt(done + [[node]], i) {
      if i < |done| { assert BreaksAt(done, i); }
    }
  }

  lemma FlattenLast(done: seq<seq<Node>>, b: seq<Node>)
    ensures Flatten(done + [b]) == Flatten(done) + b
  {
    FlattenConcat(done, [b]);
    FlattenOne(b);
  }

  lemma AllChains(done: seq<seq<Node>>, b: seq<Node>)
    ensures (forall c :: c in done + [b] ==> IsChain(c)) <==> (forall c :: c in done ==> IsChain(c)) && IsChain(b)
  {
    assert forall c :: c in done + [b] <==> c in done || c == b;
  }

  lemma GroupingGrows(done: seq<seq<Node>>, current: seq<Node>, nodes: seq<Node>, node: Node)
    requires Grouping(done, current, nodes) && current != [] && CanChainAfter(current[|current| - 1], node)
    ensures Grouping(done, current + [node], nodes + [node])
  {
    hide CanChainAfter, Flatten, IsChain, Unjoinable;
    FlattenLast(done, current);
    FlattenLast(done, current + [node]);
    AllChains(done, current);
    AllChains(done, current + [node]);
    ChainGrows(current, node);
    LastBlockGrows(done, current, current + [node]);
    assert Flatten(done) + current + [node] == Flatten(done) + (current + [node]);
  }

  lemma GroupingTurns(done: seq<seq<Node>>, current: seq<Node>, nodes: seq<Node>, node: Node)
    requires Grouping(done, current, nodes) && (current != [] ==> !CanChainAfter(current[|current| - 1], node))
    ensures Grouping(if current == [] then done else done + [current], [node], nodes + [node])
  {
    hide CanChainAfter;
    var was := if current == [] then done else done + [current];
    FlattenLast(was, [node]);
    AllChains(was, [node]);
    BlockAdded(was, node);
  }

  lemma FlattenOne(b: seq<Node>)
    ensures Flatten([b]) == b
  {
    assert [b][1..] == [];
  }

  method GroupIntoChainBlocks(nodes: seq<Node>) returns (blocks: seq<seq<Node>>)
    ensures blocks == Group(nodes)
  {
    blocks := [];
    var current: seq<Node> := [];
    for i := 0 to |nodes|
      invariant Grouping(blocks, current, nodes[..i])
    {
      var node := nodes[i];
      assert nodes[..i + 1] == nodes[..i] + [node];
      if current != [] && CanChainAfter(current[|current| - 1], node) {
        GroupingGrows(blocks, current, nodes[..i], node);
        current := current + [node];
      } else {
        GroupingTurns(blocks, current, nodes[..i], node);
        if |current| > 0 {
          blocks := blocks + [current];
        }
        current := [node];
      }
    }
    assert nodes[..|nodes|] == nodes;
    if |current| > 0 {
      blocks := blocks + [current];
      MaximalUnique(blocks, nodes);
    }
  }

  // ------------------------------------------------------------------ one block

  /** Bit 0 parent present, 1 right side, 2 bind, 3 deleted, 4 attribution present; 5 to 7 are reserved. */
  function Flags(n: Node): nat {
    (if n.parent.Some? then 0x01 else 0) + (if n.side == R then 0x02 else 0) + (if n.bind then 0x04 else 0)
      + (if n.deleted then 0x08 else 0) + (if n.deletedBy.Some? then 0x10 else 0)
  }

  const KNOWN_FLAG_BITS: nat := 0x1F

  predicate Bit(flags: nat, weight: nat)
    requires weight > 0
  {
    flags / weight % 2 == 1
  }

  lemma FlagsBits(n: Node)
    ensures
      var f := Flags(n);
      && f <= KNOWN_FLAG_BITS
      && (Bit(f, 1) <==> n.parent.Some?) && (Bit(f, 2) <==> n.side == R) && (Bit(f, 4) <==> n.bind)
      && (Bit(f, 8) <==> n.deleted) && (Bit(f, 16) <==> n.deletedBy.Some?)
  {
  }

  function ValuesOf(block: seq<Node>): seq<nat> {
    seq(|block|, i requires 0 <= i < |block| => block[i].value)
  }

  function HeadBytes(first: Node, count: nat): seq<Byte> {
    [Flags(first)] + (StampBytes(first.id) + (VarintBytes(count) + OptionalStampBytes(first.parent)))
  }

  function TextBytes(values: seq<nat>): seq<Byte>
    requires Pointed(values)
  {
    VarintBytes(|Encode(Repaired(values))|) + Encode(Repaired(values))
  }

  predicate PointedValues(block: seq<Node>) {
    Pointed(ValuesOf(block))
  }

  /** The nodes with what is no character replaced, one by one. */
  function RepairedNodes(nodes: seq<Node>): seq<Node> {
    seq(|nodes|, i requires 0 <= i < |nodes| => nodes[i].(value := Repair(nodes[i].value)))
  }

  function BlockBytes(block: seq<Node>): seq<Byte>
    requires block != [] && PointedValues(block)
  {
    HeadBytes(block[0], |block|) + (TextBytes(ValuesOf(block)) + OptionalStampBytes(block[0].deletedBy))
  }

  /** Nothing in the block exceeds what a varint may carry. */
  predicate Encodable(block: seq<Node>) {
    && block != [] && PointedValues(block)
    && SafeId(block[0].id) && SafeKey(block[0].parent) && SafeKey(block[0].deletedBy)
    && |block| <= MAX_SAFE_INTEGER && |Encode(Repaired(ValuesOf(block)))| <= MAX_SAFE_INTEGER
  }

  datatype Head = Head(flags: Byte, id: Id, count: nat, parent: Key)

  function ParseHead(bs: seq<Byte>): (p: Parsed<Head>)
    ensures Fits(p, bs)
  {
    if bs == [] then Bad(TruncatedFrame)
    else if bs[0] > KNOWN_FLAG_BITS then Bad(ReservedFlagBitsSet)
    else
      var id := ParseStamp(bs[1..]);
      if id.Bad? then Bad(id.error)
      else
        var rest := bs[1..][id.used..];
        var count := ParseVarint(rest);
        if count.Bad? then Bad(count.error)
        else if count.value < 1 then Bad(BlockTooShort)
        else
          var parent := ParseOptionalStamp(rest[count.used..], Bit(bs[0], 1));
          if parent.Bad? then Bad(parent.error)
          else Got(Head(bs[0], id.value, count.value, parent.value), 1 + id.used + count.used + parent.used)
  }

  function ParseText(bs: seq<Byte>, count: nat): (p: Parsed<seq<nat>>)
    ensures Fits(p, bs) && (p.Got? ==> |p.value| == count)
  {
    var length := ParseVarint(bs);
    if length.Bad? then Bad(length.error)
    else
      var utf8 := ParseBytes(bs[length.used..], length.value);
      if utf8.Bad? then Bad(utf8.error)
      else
        var values := Decode(utf8.value);
        if values.None? then Bad(InvalidUtf8)
        else if |values.value| != count then Bad(RunLengthMismatch)
        else Got(values.value, length.used + utf8.used)
  }

  /** The nodes a block stands for. */
  function Unrolled(head: Head, values: seq<nat>, deletedBy: Key): seq<Node> {
    seq(|values|, j requires 0 <= j < |values| => UnrolledAt(head, values, deletedBy, j))
  }

  function UnrolledAt(head: Head, values: seq<nat>, deletedBy: Key, j: nat): Node
    requires j < |values|
  {
    Node(Id(head.id.c + j, head.id.r), values[j],
         if j == 0 then head.parent else Some(Id(head.id.c + j - 1, head.id.r)),
         if j == 0 && !Bit(head.flags, 2) then L else R,
         Bit(head.flags, 4), Bit(head.flags, 8), deletedBy)
  }

  function ParseBlock(bs: seq<Byte>): (p: Parsed<seq<Node>>)
    ensures Fits(p, bs)
  {
    var head := ParseHead(bs);
    if head.Bad? then Bad(head.error)
    else
      var rest := bs[head.used..];
      var text := ParseText(rest, head.value.count);
      if text.Bad? then Bad(text.error)
      else
        var deletedBy := ParseOptionalStamp(rest[text.used..], Bit(head.value.flags, 16));
        if deletedBy.Bad? then Bad(deletedBy.error)
        else Got(Unrolled(head.value, text.value, deletedBy.value), head.used + text.used + deletedBy.used)
  }

  lemma HeadRoundTrip(first: Node, count: nat, tail: seq<Byte>)
    requires SafeId(first.id) && SafeKey(first.parent) && 0 < count <= MAX_SAFE_INTEGER
    ensures ParseHead(HeadBytes(first, count) + tail)
         == Got(Head(Flags(first), first.id, count, first.parent), |HeadBytes(first, count)|)
  {
    hide VarintBytes, StampBytes, OptionalStampBytes, ParseStamp, ParseVarint, ParseOptionalStamp;
    FlagsBits(first);
    var s, v, o := StampBytes(first.id), VarintBytes(count), OptionalStampBytes(first.parent);
    After([Flags(first)], s + (v + o), tail);
    After(s, v + o, tail);
    After(v, o, tail);
    StampRoundTrip(first.id, v + o + tail);
    VarintRoundTrip(count, o + tail);
    OptionalStampRoundTrip(first.parent, tail);
  }

  /** A text reads back repaired; if surrogates paired up in it, its length gives it away and it is refused. */
  lemma TextRoundTrip(values: seq<nat>, tail: seq<Byte>)
    requires Pointed(values) && |Encode(Repaired(values))| <= MAX_SAFE_INTEGER
    ensures ParseText(TextBytes(values) + tail, |values|)
         == if Whole(values) then Got(RepairAll(values), |TextBytes(values)|) else Bad(RunLengthMismatch)
  {
    hide VarintBytes, Encode, Decode, ParseVarint, Repaired, Whole;
    RepairedExactly(values);
    var utf8 := Encode(Repaired(values));
    After(VarintBytes(|utf8|), utf8, tail);
    VarintRoundTrip(|utf8|, utf8 + tail);
    EncodeDecode(Repaired(values));
    assert (utf8 + tail)[..|utf8|] == utf8;
  }

  /** In a chain everything follows from the first node and the values. */
  lemma {:induction false} ChainAt(block: seq<Node>, j: nat)
    requires IsChain(block) && j < |block|
    ensures block[j].id == Id(block[0].id.c + j, block[0].id.r)
    ensures block[j].bind == block[0].bind && block[j].deleted == block[0].deleted
      && block[j].deletedBy == block[0].deletedBy
    ensures j > 0 ==> block[j].side == R && block[j].parent == Some(Id(block[0].id.c + j - 1, block[0].id.r))
  {
    if j > 0 {
      ChainAt(block, j - 1);
      assert LinkedAt(block, j);
    }
  }

  lemma UnrolledIsChain(block: seq<Node>)
    requires IsChain(block)
    ensures
      var head := Head(Flags(block[0]), block[0].id, |block|, block[0].parent);
      Unrolled(head, ValuesOf(block), block[0].deletedBy) == block
  {
    var first := block[0];
    var head := Head(Flags(first), first.id, |block|, first.parent);
    FlagsBits(first);
    forall j | 0 <= j < |block| ensures UnrolledAt(head, ValuesOf(block), first.deletedBy, j) == block[j] {
      ChainAt(block, j);
      assert ValuesOf(block)[j] == block[j].value;
    }
  }

  lemma RepairedChain(block: seq<Node>)
    requires IsChain(block)
    ensures IsChain(RepairedNodes(block)) && ValuesOf(RepairedNodes(block)) == RepairAll(ValuesOf(block))
    ensures Flags(RepairedNodes(block)[0]) == Flags(block[0])
  {
    var r := RepairedNodes(block);
    forall j | 0 < j < |r| ensures LinkedAt(r, j) { assert LinkedAt(block, j); }
  }

  /** A block reads back repaired, or is refused if surrogates pair up in it. */
  lemma BlockRoundTrip(block: seq<Node>, tail: seq<Byte>)
    requires IsChain(block) && Encodable(block)
    ensures ParseBlock(BlockBytes(block) + tail)
         == if Whole(ValuesOf(block)) then Got(RepairedNodes(block), |BlockBytes(block)|) else Bad(RunLengthMismatch)
  {
    hide HeadBytes, TextBytes, ParseHead, ParseText, Unrolled, OptionalStampBytes, ParseOptionalStamp, Encode,
      IsChain, Flags, Whole;
    var first := block[0];
    var h, t, d := HeadBytes(first, |block|), TextBytes(ValuesOf(block)), OptionalStampBytes(first.deletedBy);
    After(h, t + d, tail);
    After(t, d, tail);
    HeadRoundTrip(first, |block|, t + d + tail);
    TextRoundTrip(ValuesOf(block), d + tail);
    OptionalStampRoundTrip(first.deletedBy, tail);
    FlagsBits(first);
    RepairedChain(block);
    UnrolledIsChain(RepairedNodes(block));
  }

  // ------------------------------------------------------------------ the whole body

  predicate AllEncodable(blocks: seq<seq<Node>>) {
    forall b :: b in blocks ==> Encodable(b)
  }

  function BlocksBytes(blocks: seq<seq<Node>>): seq<Byte>
    requires AllEncodable(blocks)
  {
    if blocks == [] then [] else assert blocks[0] in blocks; BlockBytes(blocks[0]) + BlocksBytes(blocks[1..])
  }

  function BodyBytes(blocks: seq<seq<Node>>): seq<Byte>
    requires AllEncodable(blocks)
  {
    VarintBytes(|blocks|) + BlocksBytes(blocks)
  }

  function ParseBlocks(bs: seq<Byte>, n: nat): (p: Parsed<seq<Node>>)
    ensures Fits(p, bs)
    decreases n
  {
    if n == 0 then Got([], 0)
    else
      var block := ParseBlock(bs);
      if block.Bad? then Bad(block.error)
      else
        var more := ParseBlocks(bs[block.used..], n - 1);
        if more.Bad? then Bad(more.error) else Got(block.value + more.value, block.used + more.used)
  }

  function DecodedBody(bs: seq<Byte>): Result<seq<Node>> {
    var count := ParseVarint(bs);
    if count.Bad? then Err(count.error)
    else
      var nodes := ParseBlocks(bs[count.used..], count.value);
      if nodes.Bad? then Err(nodes.error)
      else if count.used + nodes.used != |bs| then Err(TrailingBytes)
      else Ok(nodes.value)
  }

  /** Surrogates pair up in no block. */
  ghost predicate AllWhole(blocks: seq<seq<Node>>) {
    forall b :: b in blocks ==> Whole(ValuesOf(b))
  }

  lemma AllWholeFirst(blocks: seq<seq<Node>>)
    requires blocks != []
    ensures AllWhole(blocks) <==> Whole(ValuesOf(blocks[0])) && AllWhole(blocks[1..])
  {
    assert blocks == [blocks[0]] + blocks[1..];
  }

  lemma RepairedBoth(a: seq<Node>, b: seq<Node>)
    ensures RepairedNodes(a + b) == RepairedNodes(a) + RepairedNodes(b)
  {
  }

  lemma {:induction false} BlocksRoundTrip(blocks: seq<seq<Node>>, tail: seq<Byte>)
    requires AllEncodable(blocks) && forall b :: b in blocks ==> IsChain(b)
    ensures ParseBlocks(BlocksBytes(blocks) + tail, |blocks|)
         == if AllWhole(blocks) then Got(RepairedNodes(Flatten(blocks)), |BlocksBytes(blocks)|)
           else Bad(RunLengthMismatch)
  {
    hide ParseBlock, BlockBytes, IsChain, PointedValues, Whole, AllWhole, RepairedNodes;
    if blocks == [] {
      NoBlocks();
    } else {
      var b, rest := blocks[0], blocks[1..];
      assert b in blocks && forall c :: c in rest ==> c in blocks;
      After(BlockBytes(b), BlocksBytes(rest), tail);
      BlockRoundTrip(b, BlocksBytes(rest) + tail);
      BlocksRoundTrip(rest, tail);
      AllWholeFirst(blocks);
      RepairedBoth(b, Flatten(rest));
    }
  }

  lemma NoBlocks()
    ensures AllWhole([]) && RepairedNodes([]) == []
  {
  }

  /**
   * Whatever the grouping into chains, decoding gives back the nodes, with what is no character replaced; the body
   * is refused exactly if surrogates pair up in some block.
   */
  lemma AnyGroupingRoundTrips(blocks: seq<seq<Node>>)
    requires AllEncodable(blocks) && (forall b :: b in blocks ==> IsChain(b)) && |blocks| <= MAX_SAFE_INTEGER
    ensures DecodedBody(BodyBytes(blocks))
         == if AllWhole(blocks) then Ok(RepairedNodes(Flatten(blocks))) else Err(RunLengthMismatch)
  {
    hide ParseBlocks, BlocksBytes, VarintBytes, ParseVarint, AllWhole;
    VarintRoundTrip(|blocks|, BlocksBytes(blocks));
    BlocksRoundTrip(blocks, []);
    assert BlocksBytes(blocks) + [] == BlocksBytes(blocks);
    assert BodyBytes(blocks)[|VarintBytes(|blocks|)|..] == BlocksBytes(blocks);
  }

  lemma {:induction false} FlattenScalars(blocks: seq<seq<Node>>)
    requires AllScalars(ValuesOf(Flatten(blocks)))
    ensures AllWhole(blocks)
  {
    hide Whole;
    if blocks != [] {
      var b, rest := blocks[0], Flatten(blocks[1..]);
      assert ValuesOf(Flatten(blocks)) == ValuesOf(b) + ValuesOf(rest);
      Scalars(ValuesOf(b));
      FlattenScalars(blocks[1..]);
      AllWholeFirst(blocks);
    }
  }

  /** Repairing changes nothing exactly if there are only characters. */
  lemma RepairedSame(nodes: seq<Node>)
    ensures RepairedNodes(nodes) == nodes <==> AllScalars(ValuesOf(nodes))
  {
    if RepairedNodes(nodes) == nodes {
      forall v | v in ValuesOf(nodes) ensures IsScalar(v) {
        var i :| 0 <= i < |nodes| && ValuesOf(nodes)[i] == v;
        assert RepairedNodes(nodes)[i].value == Repair(nodes[i].value);
      }
    }
    if AllScalars(ValuesOf(nodes)) {
      forall i | 0 <= i < |nodes| ensures RepairedNodes(nodes)[i] == nodes[i] {
        assert ValuesOf(nodes)[i] in ValuesOf(nodes);
      }
    }
  }

  predicate Sendable(nodes: seq<Node>) {
    AllEncodable(Group(nodes)) && |Group(nodes)| <= MAX_SAFE_INTEGER
  }

  /**
   * With the encoder's own grouping, a snapshot gives back exactly its nodes if and only if they hold characters
   * only.
   */
  lemma SnapshotRoundTrip(nodes: seq<Node>)
    requires Sendable(nodes)
    ensures DecodedBody(BodyBytes(Group(nodes)))
         == if AllWhole(Group(nodes)) then Ok(RepairedNodes(nodes)) else Err(RunLengthMismatch)
    ensures DecodedBody(BodyBytes(Group(nodes))) == Ok(nodes) <==> AllScalars(ValuesOf(nodes))
  {
    hide DecodedBody, BodyBytes, AllWhole, RepairedNodes, AllScalars;
    GroupMaximal(nodes);
    AnyGroupingRoundTrips(Group(nodes));
    RepairedSame(nodes);
    if AllScalars(ValuesOf(nodes)) { FlattenScalars(Group(nodes)); }
  }

  /** A failing input: two typed code units that are the halves of one character. */
  lemma HalvesRefused(a: Node, b: Node)
    requires CanChainAfter(a, b) && 0xD800 <= a.value <= 0xDBFF && 0xDC00 <= b.value <= 0xDFFF
    requires SafeId(a.id) && SafeKey(a.parent) && SafeKey(a.deletedBy)
    ensures Sendable([a, b]) && DecodedBody(BodyBytes(Group([a, b]))) == Err(RunLengthMismatch)
  {
    var block, values := [a, b], [a.value, b.value];
    assert ChainLength([a, b]) == 2;
    assert [a, b][2..] == [] && [a, b][..2] == block;
    assert Group([a, b]) == [block] + [] == [block];
    assert ValuesOf(block) == values && Pointed(values);
    EncodeLength(Repaired(values));
    RepairedExactly(values);
    SnapshotRoundTrip([a, b]);
    assert !Whole(values);
    assert block in [block];
  }

  // ------------------------------------------------------------------ encoding again

  function RepairedBlocks(blocks: seq<seq<Node>>): seq<seq<Node>> {
    seq(|blocks|, i requires 0 <= i < |blocks| => RepairedNodes(blocks[i]))
  }

  /** The grouping pays no attention to values. */
  lemma {:induction false} ChainLengthRepaired(nodes: seq<Node>)
    requires nodes != []
    ensures ChainLength(RepairedNodes(nodes)) == ChainLength(nodes)
  {
    var r := RepairedNodes(nodes);
    if |nodes| > 1 && CanChainAfter(nodes[0], nodes[1]) {
      assert r[1..] == RepairedNodes(nodes[1..]);
      ChainLengthRepaired(nodes[1..]);
    }
  }

  lemma RepairedParts(nodes: seq<Node>, n: nat)
    requires n <= |nodes|
    ensures RepairedNodes(nodes)[..n] == RepairedNodes(nodes[..n])
    ensures RepairedNodes(nodes)[n..] == RepairedNodes(nodes[n..])
    ensures RepairedNodes(nodes) == [] <==> nodes == []
  {
  }

  lemma RepairedCons(b: seq<Node>, rest: seq<seq<Node>>)
    ensures RepairedBlocks([b] + rest) == [RepairedNodes(b)] + RepairedBlocks(rest)
  {
    hide RepairedNodes;
  }

  lemma {:induction false} GroupRepaired(nodes: seq<Node>)
    ensures Group(RepairedNodes(nodes)) == RepairedBlocks(Group(nodes))
    decreases |nodes|
  {
    if nodes != [] {
      hide ChainLength, RepairedNodes, RepairedBlocks;
      var n := ChainLength(nodes);
      ChainLengthRepaired(nodes);
      GroupRepaired(nodes[n..]);
      RepairedParts(nodes, n);
      RepairedCons(nodes[..n], Group(nodes[n..]));
    }
  }

  /** A whole block and its repair have the same bytes. */
  lemma BlockBytesRepaired(block: seq<Node>)
    requires IsChain(block) && Encodable(block) && Whole(ValuesOf(block))
    ensures Encodable(RepairedNodes(block)) && BlockBytes(RepairedNodes(block)) == BlockBytes(block)
  {
    hide Repaired, Whole, IsChain, Encode;
    RepairedChain(block);
    RepairedExactly(ValuesOf(block));
    RepairedTwice(ValuesOf(block));
  }

  lemma {:induction false} BlocksBytesRepaired(blocks: seq<seq<Node>>)
    requires AllEncodable(blocks) && (forall b :: b in blocks ==> IsChain(b)) && AllWhole(blocks)
    ensures AllEncodable(RepairedBlocks(blocks)) && BlocksBytes(RepairedBlocks(blocks)) == BlocksBytes(blocks)
  {
    hide BlockBytes, Encodable, IsChain, Whole, RepairedNodes;
    if blocks != [] {
      var b, rest := blocks[0], blocks[1..];
      assert b in blocks && forall c :: c in rest ==> c in blocks;
      BlockBytesRepaired(b);
      BlocksBytesRepaired(rest);
      RepairedCons(b, rest);
      assert blocks == [b] + rest;
      assert RepairedBlocks(blocks)[1..] == RepairedBlocks(rest);
    }
  }

  /**
   * Whatever a snapshot decodes to encodes to the same bytes again: a document that goes through any number of
   * snapshots changes at the first at most.
   */
  lemma ReencodesAlike(nodes: seq<Node>)
    requires Sendable(nodes) && DecodedBody(BodyBytes(Group(nodes))).Ok?
    ensures var decoded := DecodedBody(BodyBytes(Group(nodes))).value;
      && Sendable(decoded) && BodyBytes(Group(decoded)) == BodyBytes(Group(nodes))
      && DecodedBody(BodyBytes(Group(decoded))) == Ok(decoded)
  {
    hide DecodedBody, BlocksBytes, AllEncodable, AllWhole, MaximalChains;
    SnapshotRoundTrip(nodes);
    GroupChains(nodes);
    GroupRepaired(nodes);
    BlocksBytesRepaired(Group(nodes));
  }

  lemma GroupChains(nodes: seq<Node>)
    ensures forall b :: b in Group(nodes) ==> IsChain(b)
  {
    GroupMaximal(nodes);
  }

  // ------------------------------------------------------------------ the encoder

  method EncodeText(writer: ByteWriter, values: seq<nat>) returns (ok: bool)
    modifies writer
    ensures ok <==> Pointed(values) && |Encode(Repaired(values))| <= MAX_SAFE_INTEGER
    ensures ok ==> writer.bytes == old(writer.bytes) + TextBytes(values)
  {
    hide VarintBytes, Encode, Repaired;
    ghost var start := writer.bytes;
    if !Pointed(values) {
      return false;
    }
    var utf8 := Encode(Repaired(values));
    ok := WriteVarint(writer, |utf8|);
    if ok {
      writer.WriteBytes(utf8);
      After(start, VarintBytes(|utf8|), utf8);
    }
  }

  method EncodeHead(writer: ByteWriter, first: Node, count: nat) returns (ok: bool)
    modifies writer
    ensures ok <==> SafeId(first.id) && count <= MAX_SAFE_INTEGER && SafeKey(first.parent)
    ensures ok ==> writer.bytes == old(writer.bytes) + HeadBytes(first, count)
  {
    hide VarintBytes, StampBytes, OptionalStampBytes;
    ghost var start := writer.bytes;
    var flags := 0;
    if first.parent.Some? { flags := flags + 0x01; }
    if first.side == R { flags := flags + 0x02; }
    if first.bind { flags := flags + 0x04; }
    if first.deleted { flags := flags + 0x08; }
    if first.deletedBy.Some? { flags := flags + 0x10; }
    assert flags == Flags(first) && flags % 256 == flags;
    writer.WriteByte(flags);
    ok := EncodeStamp(writer, first.id);
    if ok {
      ok := WriteVarint(writer, count);
      if ok {
        ok := EncodeOptionalStamp(writer, first.parent);
        Joined4(start, [Flags(first)], StampBytes(first.id), VarintBytes(count), OptionalStampBytes(first.parent));
      }
    }
  }

  lemma Joined4<T>(s: seq<T>, a: seq<T>, b: seq<T>, c: seq<T>, d: seq<T>)
    ensures s + a + b + c + d == s + (a + (b + (c + d)))
  {
  }

  method EncodeBlock(writer: ByteWriter, block: seq<Node>) returns (ok: bool)
    requires block != []
    modifies writer
    ensures ok <==> Encodable(block)
    ensures ok ==> writer.bytes == old(writer.bytes) + BlockBytes(block)
  {
    hide HeadBytes, TextBytes, OptionalStampBytes, Encode, Repaired;
    ghost var start := writer.bytes;
    var first := block[0];
    ok := EncodeHead(writer, first, |block|);
    if ok {
      ok := EncodeText(writer, ValuesOf(block));
      if ok {
        ok := EncodeOptionalStamp(writer, first.deletedBy);
        Joined4(start, HeadBytes(first, |block|), TextBytes(ValuesOf(block)), OptionalStampBytes(first.deletedBy), []);
        assert OptionalStampBytes(first.deletedBy) + [] == OptionalStampBytes(first.deletedBy);
        assert writer.bytes + [] == writer.bytes || !ok;
      }
    }
  }

  lemma {:induction false} BlocksBytesNext(blocks: seq<seq<Node>>, b: seq<Node>)
    requires AllEncodable(blocks + [b])
    ensures AllEncodable(blocks) && Encodable(b) && BlocksBytes(blocks + [b]) == BlocksBytes(blocks) + BlockBytes(b)
  {
    hide BlockBytes, PointedValues, Repaired;
    assert b in blocks + [b] && forall c :: c in blocks ==> c in blocks + [b];
    if blocks == [] {
      assert [b][1..] == [];
      assert BlockBytes(b) + [] == BlockBytes(b);
    } else {
      assert (blocks + [b])[1..] == blocks[1..] + [b] && blocks[0] in blocks;
      assert forall c :: c in blocks[1..] + [b] ==> c in blocks + [b];
      BlocksBytesNext(blocks[1..], b);
      assert BlockBytes(blocks[0]) + (BlocksBytes(blocks[1..]) + BlockBytes(b))
          == (BlockBytes(blocks[0]) + BlocksBytes(blocks[1..])) + BlockBytes(b);
    }
  }

  method EncodeBlocks(writer: ByteWriter, blocks: seq<seq<Node>>) returns (ok: bool)
    requires forall b :: b in blocks ==> b != []
    modifies writer
    ensures ok <==> AllEncodable(blocks)
    ensures ok ==> writer.bytes == old(writer.bytes) + BlocksBytes(blocks)
  {
    hide BlockBytes, PointedValues;
    ghost var start := writer.bytes;
    assert BlocksBytes([]) == [];
    for i := 0 to |blocks|
      invariant AllEncodable(blocks[..i]) && writer.bytes == start + BlocksBytes(blocks[..i])
    {
      assert blocks[i] in blocks && blocks[..i + 1] == blocks[..i] + [blocks[i]];
      var good := EncodeBlock(writer, blocks[i]);
      if !good {
        return false;
      }
      BlocksBytesNext(blocks[..i], blocks[i]);
      assert start + BlocksBytes(blocks[..i]) + BlockBytes(blocks[i]) == start + BlocksBytes(blocks[..i + 1]);
    }
    assert blocks[..|blocks|] == blocks;
    ok := true;
  }

  lemma {:induction false} GroupNonempty(nodes: seq<Node>)
    ensures forall b :: b in Group(nodes) ==> b != []
    decreases |nodes|
  {
    if nodes != [] { GroupNonempty(nodes[ChainLength(nodes)..]); }
  }

  /** `None` where the operation is refused: a value no string can hold, or something beyond the safe integers. */
  method EncodeStructureSnapshotBody(nodes: seq<Node>) returns (bytes: Option<seq<Byte>>)
    ensures bytes.Some? <==> Sendable(nodes)
    ensures bytes.Some? ==> bytes.value == BodyBytes(Group(nodes))
  {
    var writer := new ByteWriter();
    var blocks := GroupIntoChainBlocks(nodes);
    GroupNonempty(nodes);
    var ok := WriteVarint(writer, |blocks|);
    if !ok {
      return None;
    }
    assert writer.bytes == VarintBytes(|blocks|);
    ok := EncodeBlocks(writer, blocks);
    if !ok {
      return None;
    }
    bytes := Some(writer.bytes);
  }

  // ------------------------------------------------------------------ the decoder

  method DecodeHead(reader: ByteReader) returns (r: Result<Head>)
    requires reader.Valid()
    modifies reader
    ensures reader.Valid() && old(reader.offset) <= reader.offset
    ensures Took(ParseHead(old(reader.Rest())), r, old(reader.offset), reader.offset)
  {
    hide ParseStamp, ParseVarint, ParseOptionalStamp;
    ghost var start := reader.Rest();
    var flags := reader.ReadByte();
    if flags.Err? {
      return Err(flags.error);
    }
    if flags.value > KNOWN_FLAG_BITS {
      return Err(ReservedFlagBitsSet);
    }
    assert reader.Rest() == start[1..];
    var id := DecodeStamp(reader);
    if id.Err? {
      return Err(id.error);
    }
    ghost var rest := start[1..][ParseStamp(start[1..]).used..];
    assert reader.Rest() == rest;
    var count := ReadVarint(reader);
    if count.Err? {
      return Err(count.error);
    }
    if count.value < 1 {
      return Err(BlockTooShort);
    }
    assert reader.Rest() == rest[ParseVarint(rest).used..];
    var parent := DecodeOptionalStamp(reader, Bit(flags.value, 1));
    if parent.Err? {
      return Err(parent.error);
    }
    r := Ok(Head(flags.value, id.value, count.value, parent.value));
  }

  method DecodeText(reader: ByteReader, count: nat) returns (r: Result<seq<nat>>)
    requires reader.Valid()
    modifies reader
    ensures reader.Valid() && old(reader.offset) <= reader.offset
    ensures Took(ParseText(old(reader.Rest()), count), r, old(reader.offset), reader.offset)
  {
    hide ParseVarint, Decode;
    ghost var start := reader.Rest();
    var length := ReadVarint(reader);
    if length.Err? {
      return Err(length.error);
    }
    assert reader.Rest() == start[ParseVarint(start).used..];
    var utf8 := reader.ReadBytes(length.value);
    if utf8.Err? {
      return Err(utf8.error);
    }
    var values := Decode(utf8.value);
    if values.None? {
      return Err(InvalidUtf8);
    }
    if |values.value| != count {
      return Err(RunLengthMismatch);
    }
    r := Ok(values.value);
  }

  method DecodeBlock(reader: ByteReader) returns (r: Result<seq<Node>>)
    requires reader.Valid()
    modifies reader
    ensures reader.Valid() && old(reader.offset) <= reader.offset
    ensures Took(ParseBlock(old(reader.Rest())), r, old(reader.offset), reader.offset)
  {
    hide ParseHead, ParseText, ParseOptionalStamp;
    ghost var start := reader.Rest();
    var head := DecodeHead(reader);
    if head.Err? {
      return Err(head.error);
    }
    ghost var rest := start[ParseHead(start).used..];
    assert reader.Rest() == rest;
    var text := DecodeText(reader, head.value.count);
    if text.Err? {
      return Err(text.error);
    }
    assert reader.Rest() == rest[ParseText(rest, head.value.count).used..];
    var deletedBy := DecodeOptionalStamp(reader, Bit(head.value.flags, 16));
    if deletedBy.Err? {
      return Err(deletedBy.error);
    }
    var nodes := UnrollBlock(head.value, text.value, deletedBy.value);
    r := Ok(nodes);
  }

  method UnrollBlock(head: Head, values: seq<nat>, deletedBy: Key) returns (nodes: seq<Node>)
    ensures nodes == Unrolled(head, values, deletedBy)
  {
    nodes := [];
    for j := 0 to |values|
      invariant |nodes| == j && forall i :: 0 <= i < j ==> nodes[i] == UnrolledAt(head, values, deletedBy, i)
    {
      hide Bit;
      var parent := head.parent;
      var side := if Bit(head.flags, 2) then R else L;
      if j > 0 {
        parent := Some(Id(head.id.c + j - 1, head.id.r));
        side := R;
      }
      nodes := nodes + [Node(Id(head.id.c + j, head.id.r), values[j], parent, side,
                             Bit(head.flags, 4), Bit(head.flags, 8), deletedBy)];
    }
  }

  /** Blocks read so far, and the ones still to read. */
  ghost function Continued(nodes: seq<Node>, used: nat, more: Parsed<seq<Node>>): Parsed<seq<Node>> {
    if more.Bad? then more else Got(nodes + more.value, used + more.used)
  }

  lemma ContinuedStep(nodes: seq<Node>, used: nat, bs: seq<Byte>, n: nat)
    requires n > 0 && ParseBlock(bs).Got?
    ensures
      var b := ParseBlock(bs);
      Continued(nodes, used, ParseBlocks(bs, n))
        == Continued(nodes + b.value, used + b.used, ParseBlocks(bs[b.used..], n - 1))
  {
    hide ParseBlock;
    var b := ParseBlock(bs);
    var more := ParseBlocks(bs[b.used..], n - 1);
    if more.Got? { assert nodes + (b.value + more.value) == (nodes + b.value) + more.value; }
  }

  method DecodeBlocks(reader: ByteReader, blockCount: nat) returns (r: Result<seq<Node>>)
    requires reader.Valid()
    modifies reader
    ensures reader.Valid() && old(reader.offset) <= reader.offset
    ensures Took(ParseBlocks(old(reader.Rest()), blockCount), r, old(reader.offset), reader.offset)
  {
    hide ParseBlock;
    ghost var start := reader.Rest();
    var nodes: seq<Node> := [];
    ContinuedStart(ParseBlocks(start, blockCount));
    for b := 0 to blockCount
      invariant reader.Valid() && old(reader.offset) <= reader.offset
      invariant ParseBlocks(start, blockCount)
             == Continued(nodes, reader.offset - old(reader.offset), ParseBlocks(reader.Rest(), blockCount - b))
    {
      ghost var bs := reader.Rest();
      ghost var used := reader.offset - old(reader.offset);
      var block := DecodeBlock(reader);
      if block.Err? {
        return Err(block.error);
      }
      ContinuedStep(nodes, used, bs, blockCount - b);
      assert reader.Rest() == bs[ParseBlock(bs).used..];
      nodes := nodes + block.value;
    }
    assert nodes + [] == nodes;
    r := Ok(nodes);
  }

  lemma ContinuedStart(p: Parsed<seq<Node>>)
    ensures Continued([], 0, p) == p
  {
    if p.Got? { assert [] + p.value == p.value; }
  }

  method DecodeStructureSnapshotBody(bytes: seq<Byte>) returns (r: Result<seq<Node>>)
    ensures r == DecodedBody(bytes)
  {
    hide ParseBlocks, ParseVarint;
    var reader := new ByteReader(bytes);
    var blockCount := ReadVarint(reader);
    if blockCount.Err? {
      return Err(blockCount.error);
    }
    assert reader.Rest() == bytes[ParseVarint(bytes).used..];
    r := DecodeBlocks(reader, blockCount.value);
    if r.Err? {
      return;
    }
    var done := reader.AtEnd();
    if !done {
      r := Err(TrailingBytes);
    }
  }
}
