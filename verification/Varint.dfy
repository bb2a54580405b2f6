/** LEB128 (section 7.6 of DWARF 5): unsigned integers in groups of seven bits, low group first. */
module Varint {
  import opened Bytes

  const MAX_SAFE_INTEGER: nat := 9007199254740991

  const MAX_VARINT_BYTES: nat := 10

  function VarintBytes(v: nat): (bs: seq<Byte>)
    ensures |bs| > 0
  {
    if v < 128 then [v] else [128 + v % 128] + VarintBytes(v / 128)
  }

  /** The groups from the `n`-th on. */
  function ParseGroups(bs: seq<Byte>, n: nat): (p: Parsed<nat>)
    ensures Fits(p, bs)
    decreases |bs|
  {
    if n >= MAX_VARINT_BYTES then Bad(VarintOverflow)
    else if bs == [] then Bad(TruncatedFrame)
    else if bs[0] < 128 then Got(bs[0], 1)
    else
      var more := ParseGroups(bs[1..], n + 1);
      if more.Bad? then more else Got(bs[0] - 128 + 128 * more.value, 1 + more.used)
  }

  function ParseVarint(bs: seq<Byte>): (p: Parsed<nat>)
    ensures Fits(p, bs) && (p.Got? ==> p.value <= MAX_SAFE_INTEGER)
  {
    var p := ParseGroups(bs, 0);
    if p.Got? && p.value > MAX_SAFE_INTEGER then Bad(VarintOverflow) else p
  }

  /** The value that groups of seven bits stand for, the low group first. */
  function GroupsValue(bs: seq<Byte>): nat {
    if bs == [] then 0 else bs[0] % 128 + 128 * GroupsValue(bs[1..])
  }

  /**
   * The bytes of a value: its groups of seven bits, the low one first, the high bit set on all but the last, and no
   * empty group at the end.
   */
  lemma {:induction false} VarintForm(v: nat)
    ensures
      var bs, last := VarintBytes(v), |VarintBytes(v)| - 1;
      && GroupsValue(bs) == v && bs[last] < 128 && (forall i :: 0 <= i < last ==> bs[i] >= 128)
      && (last > 0 ==> bs[last] > 0)
    ensures v < 128 ==> VarintBytes(v) == [v]
  {
    var bs := VarintBytes(v);
    if v >= 128 {
      VarintForm(v / 128);
      var rest := VarintBytes(v / 128);
      assert bs == [128 + v % 128] + rest && bs[1..] == rest;
      assert |rest| == 1 ==> rest == [v / 128];
    } else {
      assert bs[1..] == [];
    }
  }

  /** How many bytes in front have the high bit set. */
  function Continued(bs: seq<Byte>): (k: nat)
    ensures k <= |bs|
  {
    if bs == [] || bs[0] < 128 then 0 else 1 + Continued(bs[1..])
  }

  lemma {:induction false} GroupsExactly(bs: seq<Byte>, n: nat)
    requires n <= 10
    ensures
      var k := Continued(bs);
      ParseGroups(bs, n) ==
        if n + k >= 10 then Bad(VarintOverflow)
        else if k == |bs| then Bad(TruncatedFrame)
        else Got(GroupsValue(bs[..k + 1]), k + 1)
    decreases |bs|
  {
    if n < 10 && bs != [] && bs[0] >= 128 {
      var k := Continued(bs[1..]);
      GroupsExactly(bs[1..], n + 1);
      if k < |bs| - 1 { assert bs[..k + 2][1..] == bs[1..][..k + 1]; }
    } else if bs != [] && bs[0] < 128 {
      assert bs[..1][1..] == [];
    }
  }

  /**
   * Every outcome of reading: ten bytes with the high bit set are too many, fewer with nothing behind them are too few,
   * and a value past the safe integers is refused.
   */
  lemma ReadExactly(bs: seq<Byte>)
    ensures
      var k := Continued(bs);
      ParseVarint(bs) ==
        if k >= 10 then Bad(VarintOverflow)
        else if k == |bs| then Bad(TruncatedFrame)
        else if GroupsValue(bs[..k + 1]) > 9007199254740991 then Bad(VarintOverflow)
        else Got(GroupsValue(bs[..k + 1]), k + 1)
  {
    hide ParseGroups, GroupsValue;
    GroupsExactly(bs, 0);
  }

  function Pow128(k: nat): nat {
    if k == 0 then 1 else 128 * Pow128(k - 1)
  }

  /** `k` groups suffice below `128^k`. */
  lemma {:induction false} VarintShort(v: nat, k: nat)
    requires v < Pow128(k) && k > 0
    ensures |VarintBytes(v)| <= k
  {
    if v >= 128 {
      VarintShort(v / 128, k - 1);
    }
  }

  /** Every safe integer takes at most eight bytes, under the reader's cap of ten. */
  lemma VarintAtMostEight(v: nat)
    requires v <= MAX_SAFE_INTEGER
    ensures |VarintBytes(v)| <= 8
  {
    assert Pow128(8) == 72057594037927936 by {
      assert Pow128(2) == 16384;
      assert Pow128(4) == 16384 * 16384;
      assert Pow128(6) == 16384 * 16384 * 16384;
    }
    VarintShort(v, 8);
  }

  /** Reading back what was written, whatever follows: so no encoding is a prefix of another. */
  lemma {:induction false} GroupsRoundTrip(v: nat, tail: seq<Byte>, n: nat)
    requires n + |VarintBytes(v)| <= MAX_VARINT_BYTES
    ensures ParseGroups(VarintBytes(v) + tail, n) == Got(v, |VarintBytes(v)|)
    decreases v
  {
    var bs := VarintBytes(v) + tail;
    if v >= 128 {
      GroupsRoundTrip(v / 128, tail, n + 1);
      assert bs[1..] == VarintBytes(v / 128) + tail;
      assert bs[0] == 128 + v % 128;
    }
  }

  lemma VarintRoundTrip(v: nat, tail: seq<Byte>)
    requires v <= MAX_SAFE_INTEGER
    ensures ParseVarint(VarintBytes(v) + tail) == Got(v, |VarintBytes(v)|)
    ensures |VarintBytes(v)| <= 8
  {
    VarintAtMostEight(v);
    GroupsRoundTrip(v, tail, 0);
  }

  /** `ok` is false where the operation is refused: negative, or beyond the safe integers. */
  method WriteVarint(writer: ByteWriter, value: int) returns (ok: bool)
    modifies writer
    ensures ok <==> 0 <= value <= 9007199254740991
    ensures writer.bytes == old(writer.bytes) + if ok then VarintBytes(value) else []
  {
    if value < 0 || value > MAX_SAFE_INTEGER {
      assert writer.bytes == writer.bytes + [];
      return false;
    }
    hide VarintBytes;
    var v := value;
    ghost var done: seq<Byte> := [];
    while true
      invariant v >= 0 && done + VarintBytes(v) == VarintBytes(value)
      invariant writer.bytes == old(writer.bytes) + done
      decreases v
    {
      var low7 := v % 128;
      VarintNext(done, v);
      v := v / 128;
      if v == 0 {
        writer.WriteByte(low7);
        return true;
      }
      writer.WriteByte(low7 + 128);
      done := done + [low7 + 128];
    }
  }

  /** The next byte of an encoding: the last one, or a group with the continuation bit. */
  lemma VarintNext(done: seq<Byte>, v: nat)
    ensures v / 128 == 0 ==> done + VarintBytes(v) == done + [v % 128]
    ensures v / 128 > 0 ==> done + VarintBytes(v) == (done + [v % 128 + 128]) + VarintBytes(v / 128)
  {
  }

  /** Reading on from `k` groups that make `result`. */
  ghost function Onward(result: nat, k: nat, rest: Parsed<nat>): Parsed<nat> {
    if rest.Bad? then rest else Got(result + Pow128(k) * rest.value, k + rest.used)
  }

  lemma OnwardStart(bs: seq<Byte>)
    ensures Onward(0, 0, ParseGroups(bs, 0)) == ParseGroups(bs, 0)
  {
  }

  lemma OnwardEnds(result: nat, k: nat, bs: seq<Byte>)
    ensures k >= MAX_VARINT_BYTES ==> Onward(result, k, ParseGroups(bs, k)) == Bad(VarintOverflow)
    ensures k < MAX_VARINT_BYTES && bs == [] ==> Onward(result, k, ParseGroups(bs, k)) == Bad(TruncatedFrame)
    ensures k < MAX_VARINT_BYTES && bs != [] && bs[0] < 128 ==>
              Onward(result, k, ParseGroups(bs, k)) == Got(result + bs[0] * Pow128(k), k + 1)
  {
  }

  /** One more group with the continuation bit. */
  lemma OnwardStep(result: nat, k: nat, bs: seq<Byte>)
    requires k < MAX_VARINT_BYTES && bs != []
    ensures (bs[0] % 128) * Pow128(k) >= 0
    ensures bs[0] >= 128 ==>
              Onward(result, k, ParseGroups(bs, k))
                == Onward(result + (bs[0] % 128) * Pow128(k), k + 1, ParseGroups(bs[1..], k + 1))
  {
    var more := ParseGroups(bs[1..], k + 1);
    if bs[0] >= 128 && more.Got? {
      Spread(Pow128(k), bs[0] - 128, more.value);
    }
  }

  lemma Spread(p: nat, b: nat, v: nat)
    ensures p * (b + 128 * v) == b * p + (128 * p) * v
  {
  }

  method ReadVarint(reader: ByteReader) returns (r: Result<nat>)
    requires reader.Valid()
    modifies reader
    ensures reader.Valid() && old(reader.offset) <= reader.offset
    ensures Took(ParseVarint(old(reader.Rest())), r, old(reader.offset), reader.offset)
  {
    ghost var start := reader.Rest();
    hide ParseGroups;
    var result: nat, multiplier: nat, bytesRead: nat := 0, 1, 0;
    OnwardStart(start);
    while true
      invariant reader.Valid() && reader.offset == old(reader.offset) + bytesRead
      invariant bytesRead <= MAX_VARINT_BYTES && multiplier == Pow128(bytesRead)
      invariant ParseGroups(start, 0) == Onward(result, bytesRead, ParseGroups(reader.Rest(), bytesRead))
      decreases MAX_VARINT_BYTES - bytesRead
    {
      ghost var bs := reader.Rest();
      OnwardEnds(result, bytesRead, bs);
      if bytesRead >= MAX_VARINT_BYTES {
        return Err(VarintOverflow);
      }
      var next := reader.ReadByte();
      if next.Err? {
        return Err(next.error);
      }
      assert reader.Rest() == bs[1..];
      OnwardStep(result, bytesRead, bs);
      result := result + (next.value % 128) * multiplier;
      multiplier := multiplier * 128;
      bytesRead := bytesRead + 1;
      if next.value < 128 {
        break;
      }
    }
    if result > MAX_SAFE_INTEGER {
      return Err(VarintOverflow);
    }
    r := Ok(result);
  }
}
