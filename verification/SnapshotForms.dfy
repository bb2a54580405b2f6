/** Snapshot bodies, byte by byte. */
module SnapshotForms {
  import opened Identifiers
  import opened Operations
  import opened Bytes
  import opened Varint
  import Utf8
  import opened Texts
  import opened Primitives
  import opened SnapshotBody
  import opened FrameForms

  // ------------------------------------------------------------------ blocks

  /** `b` was typed right behind `a` by the same replica, and shares everything but its identifier and value. */
  predicate Continues(a: Node, b: Node) {
    && b.id.r == a.id.r && b.id.c == a.id.c + 1
    && b.parent == Some(a.id) && b.side == R
    && b.bind == a.bind && b.deleted == a.deleted && b.deletedBy == a.deletedBy
  }

  predicate ContinuesAt(nodes: seq<Node>, j: nat)
    requires 0 < j < |nodes|
  {
    Continues(nodes[j - 1], nodes[j])
  }

  predicate Typed(block: seq<Node>) {
    block != [] && forall j :: 0 < j < |block| ==> ContinuesAt(block, j)
  }

  /** The last node of one block is not continued by the first of the next. */
  predicate PartedAt(blocks: seq<seq<Node>>, i: nat)
    requires 0 < i < |blocks|
  {
    var a, b := blocks[i - 1], blocks[i];
    a != [] && b != [] && !Continues(a[|a| - 1], b[0])
  }

  /** A snapshot lists its nodes in order; a node shares the block of the one before it exactly if it continues it. */
  lemma GroupsExactly(nodes: seq<Node>)
    ensures
      var blocks := Group(nodes);
      && Flatten(blocks) == nodes && (forall b :: b in blocks ==> Typed(b))
      && (forall i :: 0 < i < |blocks| ==> PartedAt(blocks, i))
  {
    var blocks := Group(nodes);
    GroupMaximal(nodes);
    forall b | b in blocks ensures Typed(b) { ChainTyped(b); }
    forall i | 0 < i < |blocks| ensures PartedAt(blocks, i) { assert BreaksAt(blocks, i); }
  }

  lemma ChainTyped(b: seq<Node>)
    ensures Typed(b) <==> IsChain(b)
  {
    if IsChain(b) {
      forall j | 0 < j < |b| ensures ContinuesAt(b, j) { assert LinkedAt(b, j); }
    }
    if Typed(b) {
      forall j | 0 < j < |b| ensures LinkedAt(b, j) { assert ContinuesAt(b, j); }
    }
  }

  // ------------------------------------------------------------------ bytes

  predicate Plain(block: seq<Node>) {
    && 0 < |block| < 128 && (forall n :: n in block ==> Small(n.value))
    && SmallId(block[0].id) && SmallKey(block[0].parent) && SmallKey(block[0].deletedBy)
  }

  /**
   * A block: the flags parent 1, right side 2, binding 4, deleted 8, attributed 16; the identifier of the first node;
   * how many nodes; its parent if it has one; how many bytes of text; the text; who deleted them if anyone.
   */
  function Block(block: seq<Node>): seq<nat>
    requires block != []
  {
    var n := block[0];
    var flags := (if n.parent.None? then 0 else 1) + (if n.side == L then 0 else 2) + (if n.bind then 4 else 0)
      + (if n.deleted then 8 else 0) + if n.deletedBy.None? then 0 else 16;
    [flags, n.id.c, n.id.r, |block|] + Pair(n.parent) + [|block|] + ValuesOf(block) + Pair(n.deletedBy)
  }

  function Pair(k: Key): seq<nat> {
    if k.None? then [] else [k.value.c, k.value.r]
  }

  lemma BlockHead(n: Node, count: nat)
    requires SmallId(n.id) && SmallKey(n.parent) && Small(count)
    ensures
      var flags := (if n.parent.None? then 0 else 1) + (if n.side == L then 0 else 2) + (if n.bind then 4 else 0)
        + (if n.deleted then 8 else 0) + if n.deletedBy.None? then 0 else 16;
      HeadBytes(n, count) == [flags, n.id.c, n.id.r, count] + Pair(n.parent)
  {
    hide VarintBytes, StampBytes, OptionalStampBytes;
    TwoBytes(n.id);
    OneByte(count);
    PlainKey(n.parent);
  }

  lemma PlainValues(block: seq<Node>)
    requires Plain(block)
    ensures forall v :: v in ValuesOf(block) ==> Small(v)
  {
    forall v | v in ValuesOf(block) ensures Small(v) {
      var i :| 0 <= i < |block| && ValuesOf(block)[i] == v;
      assert block[i] in block;
    }
  }

  lemma BlockForm(block: seq<Node>)
    requires Plain(block)
    ensures Encodable(block) && BlockBytes(block) == Block(block) && AllScalars(ValuesOf(block))
  {
    hide VarintBytes, StampBytes, OptionalStampBytes, HeadBytes, TextBytes, Utf8.Encode, Repaired, SafeId, SmallId;
    var n, values := block[0], ValuesOf(block);
    PlainValues(block);
    PlainTextBytes(values);
    BlockHead(n, |block|);
    PlainKey(n.parent);
    PlainKey(n.deletedBy);
    TwoBytes(n.id);
  }

  function Blocks(blocks: seq<seq<Node>>): seq<nat> {
    if blocks == [] then []
    else (if blocks[0] == [] then [] else Block(blocks[0])) + Blocks(blocks[1..])
  }

  lemma {:induction false} BlocksForm(blocks: seq<seq<Node>>)
    requires forall b :: b in blocks ==> Plain(b)
    ensures AllEncodable(blocks) && BlocksBytes(blocks) == Blocks(blocks) && AllScalars(ValuesOf(Flatten(blocks)))
  {
    hide BlockBytes, Block, Encodable, AllScalars;
    if blocks != [] {
      var b, rest := blocks[0], blocks[1..];
      assert b in blocks && forall c :: c in blocks ==> c == b || c in rest;
      BlockForm(b);
      BlocksForm(rest);
      BothScalars(b, Flatten(rest));
    } else {
      NoValues();
    }
  }

  lemma NoValues()
    ensures AllScalars(ValuesOf(Flatten([])))
  {
  }

  lemma BothScalars(a: seq<Node>, b: seq<Node>)
    requires AllScalars(ValuesOf(a)) && AllScalars(ValuesOf(b))
    ensures AllScalars(ValuesOf(a + b))
  {
    assert ValuesOf(a + b) == ValuesOf(a) + ValuesOf(b);
  }

  /** A snapshot: how many blocks, and the blocks; reading it gives the nodes back. */
  lemma SnapshotForm(nodes: seq<Node>)
    requires |Group(nodes)| < 128 && forall b :: b in Group(nodes) ==> Plain(b)
    ensures
      var blocks := Group(nodes);
      && Sendable(nodes) && BodyBytes(blocks) == [|blocks|] + Blocks(blocks)
      && DecodedBody(BodyBytes(blocks)) == Ok(nodes)
  {
    hide BlocksBytes, Blocks, Group, DecodedBody, AllEncodable, AllScalars;
    OneByte(|Group(nodes)|);
    BlocksForm(Group(nodes));
    GroupMaximal(nodes);
    SnapshotRoundTrip(nodes);
  }

  /** A typed run is one block. */
  lemma RunIsOneBlock(nodes: seq<Node>)
    requires Typed(nodes)
    ensures Group(nodes) == [nodes]
  {
    ChainTyped(nodes);
    assert nodes[..|nodes|] == nodes && nodes[|nodes|..] == [];
    ChainLengthIs(nodes, |nodes|);
    assert Group([]) == [];
  }

  // ------------------------------------------------------------------ refusals

  /** Nothing may follow the blocks. */
  lemma TrailingRefused(nodes: seq<Node>, tail: seq<Byte>)
    requires Sendable(nodes) && AllScalars(ValuesOf(nodes)) && tail != []
    ensures DecodedBody(BodyBytes(Group(nodes)) + tail) == Err(TrailingBytes)
  {
    hide ParseBlocks, BlocksBytes, VarintBytes, ParseVarint, AllWhole, AllScalars, RepairedNodes, Group, IsChain,
      AllEncodable;
    var blocks := Group(nodes);
    GroupMaximal(nodes);
    FlattenScalars(blocks);
    After(VarintBytes(|blocks|), BlocksBytes(blocks), tail);
    VarintRoundTrip(|blocks|, BlocksBytes(blocks) + tail);
    BlocksRoundTrip(blocks, tail);
  }

  lemma FirstBlockRefused(n: Byte, block: seq<Byte>)
    requires 0 < n < 128 && ParseBlock(block).Bad?
    ensures DecodedBody([n] + block) == Err(ParseBlock(block).error)
  {
    hide ParseBlock, ParseVarint;
    ReadByteForm(n, block);
  }

  /** A bit above the fifth among the flags of a block. */
  lemma FlagsRefused(n: Byte, flags: Byte, rest: seq<Byte>)
    requires 0 < n < 128 && flags >= 32
    ensures DecodedBody([n, flags] + rest) == Err(ReservedFlagBitsSet)
  {
    hide ParseStamp, ParseVarint, ParseOptionalStamp, ParseText, DecodedBody;
    FirstBlockRefused(n, [flags] + rest);
    assert [n, flags] + rest == [n] + ([flags] + rest);
  }

  /** A block of no nodes. */
  lemma EmptyRefused(n: Byte, flags: Byte, id: Id, rest: seq<Byte>)
    requires 0 < n < 128 && flags < 32 && SmallId(id)
    ensures DecodedBody([n, flags, id.c, id.r, 0] + rest) == Err(BlockTooShort)
  {
    hide ParseStamp, ParseVarint, ParseOptionalStamp, ParseText, DecodedBody;
    var block: seq<Byte> := [flags, id.c, id.r, 0] + rest;
    assert block[1..] == [id.c, id.r] + ([0] + rest);
    ReadPairForm(id.c, id.r, [0] + rest);
    ReadByteForm(0, rest);
    FirstBlockRefused(n, block);
    assert [n, flags, id.c, id.r, 0] + rest == [n] + block;
  }

  /** A block of another number of characters than of nodes. */
  lemma CountRefused(n: Byte, flags: Byte, id: Id, count: Byte, values: seq<Byte>)
    requires 0 < n < 128 && flags < 32 && flags % 2 == 0 && SmallId(id) && 0 < count < 128
    requires |values| < 128 && |values| != count && forall v :: v in values ==> Small(v)
    ensures
      var bs: seq<Byte> := [n, flags, id.c, id.r, count, |values|] + values;
      DecodedBody(bs) == Err(RunLengthMismatch)
  {
    hide ParseStamp, ParseVarint, ParseText, DecodedBody, TextBytes;
    PlainTextBytes(values);
    TextCounted(values, count);
    var text := TextBytes(values);
    var block: seq<Byte> := [flags, id.c, id.r, count] + text;
    assert block[1..] == [id.c, id.r] + ([count] + text);
    ReadPairForm(id.c, id.r, [count] + text);
    ReadByteForm(count, text);
    assert block[4..] == text;
    FirstBlockRefused(n, block);
    CountedBytes(n, flags, id.c, id.r, count, values);
  }

  lemma CountedBytes(n: nat, flags: nat, c: nat, r: nat, count: nat, values: seq<nat>)
    ensures [n] + ([flags, c, r, count] + ([|values|] + values)) == [n, flags, c, r, count, |values|] + values
  {
  }
}
