/** UTF-8 (section 3 of RFC 3629) over Unicode scalar values, with a strict decoder. */
module Utf8 {
  import opened Bytes
  import opened Identifiers

  predicate IsScalar(v: nat) {
    v <= 0x10FFFF && !(0xD800 <= v <= 0xDFFF)
  }

  function EncodeScalar(v: nat): (bs: seq<Byte>)
    requires IsScalar(v)
    ensures 0 < |bs| <= 4
  {
    if v < 0x80 then [v]
    else if v < 0x800 then [0xC0 + v / 64, 0x80 + v % 64]
    else if v < 0x10000 then [0xE0 + v / 64 / 64, 0x80 + v / 64 % 64, 0x80 + v % 64]
    else [0xF0 + v / 64 / 64 / 64, 0x80 + v / 64 / 64 % 64, 0x80 + v / 64 % 64, 0x80 + v % 64]
  }

  function Encode(vs: seq<nat>): seq<Byte>
    requires forall v :: v in vs ==> IsScalar(v)
  {
    if vs == [] then [] else assert vs[0] in vs; EncodeScalar(vs[0]) + Encode(vs[1..])
  }

  /** One byte below 0x80; otherwise the lead byte says how many follow, and each of those carries six bits. */
  lemma ScalarForm(v: nat)
    requires IsScalar(v)
    ensures
      var bs := EncodeScalar(v);
      && (v <= 0x7F ==> bs == [v])
      && (0x80 <= v <= 0x7FF ==>
            && |bs| == 2 && 0xC2 <= bs[0] <= 0xDF && 0x80 <= bs[1] <= 0xBF
            && v == (bs[0] as int - 0xC0) * 0x40 + (bs[1] as int - 0x80))
      && (0x800 <= v <= 0xFFFF ==>
            && |bs| == 3 && 0xE0 <= bs[0] <= 0xEF && 0x80 <= bs[1] <= 0xBF && 0x80 <= bs[2] <= 0xBF
            && v == (bs[0] as int - 0xE0) * 0x1000 + (bs[1] as int - 0x80) * 0x40 + (bs[2] as int - 0x80))
      && (0x10000 <= v ==>
            && |bs| == 4 && 0xF0 <= bs[0] <= 0xF4 && 0x80 <= bs[1] <= 0xBF && 0x80 <= bs[2] <= 0xBF
            && 0x80 <= bs[3] <= 0xBF
            && v == (bs[0] as int - 0xF0) * 0x40000 + (bs[1] as int - 0x80) * 0x1000
                      + (bs[2] as int - 0x80) * 0x40 + (bs[3] as int - 0x80))
  {
  }

  predicate IsContinuation(b: Byte) {
    0x80 <= b < 0xC0
  }

  /** Six more bits. */
  function Join(high: nat, b: Byte): nat
    requires IsContinuation(b)
  {
    high * 64 + (b - 0x80)
  }

  /** The first character: overlong forms, surrogates and values beyond the last plane are refused. */
  function DecodeScalar(bs: seq<Byte>): (p: Parsed<nat>)
    ensures Fits(p, bs) && (p.Got? ==> p.used > 0)
  {
    if bs == [] then Bad(InvalidUtf8)
    else if bs[0] < 0x80 then Got(bs[0], 1)
    else if 0xC0 <= bs[0] < 0xE0 && |bs| >= 2 && IsContinuation(bs[1]) then
      var v := Join(bs[0] - 0xC0, bs[1]);
      if v < 0x80 then Bad(InvalidUtf8) else Got(v, 2)
    else if 0xE0 <= bs[0] < 0xF0 && |bs| >= 3 && IsContinuation(bs[1]) && IsContinuation(bs[2]) then
      var v := Join(Join(bs[0] - 0xE0, bs[1]), bs[2]);
      if v < 0x800 || !IsScalar(v) then Bad(InvalidUtf8) else Got(v, 3)
    else if 0xF0 <= bs[0] < 0xF8 && |bs| >= 4 && IsContinuation(bs[1]) && IsContinuation(bs[2])
      && IsContinuation(bs[3]) then
      var v := Join(Join(Join(bs[0] - 0xF0, bs[1]), bs[2]), bs[3]);
      if v < 0x10000 || !IsScalar(v) then Bad(InvalidUtf8) else Got(v, 4)
    else Bad(InvalidUtf8)
  }

  function Decode(bs: seq<Byte>): Option<seq<nat>>
    decreases |bs|
  {
    if bs == [] then Some([])
    else
      var p := DecodeScalar(bs);
      if p.Bad? then None
      else
        var more := Decode(bs[p.used..]);
        if more.None? then None else Some([p.value] + more.value)
  }

  lemma ScalarRoundTrip(v: nat, tail: seq<Byte>)
    requires IsScalar(v)
    ensures DecodeScalar(EncodeScalar(v) + tail) == Got(v, |EncodeScalar(v)|)
  {
  }

  /** Decoding gives back exactly the encoded characters. */
  lemma {:induction false} EncodeDecode(vs: seq<nat>)
    requires forall v :: v in vs ==> IsScalar(v)
    ensures Decode(Encode(vs)) == Some(vs)
  {
    if vs != [] {
      assert vs[0] in vs;
      var first, rest := EncodeScalar(vs[0]), Encode(vs[1..]);
      ScalarRoundTrip(vs[0], rest);
      EncodeDecode(vs[1..]);
      assert (first + rest)[|first|..] == rest;
      assert vs == [vs[0]] + vs[1..];
    }
  }

  lemma JoinSplit(high: nat, b: Byte)
    requires IsContinuation(b)
    ensures Join(high, b) / 64 == high && 0x80 + Join(high, b) % 64 == b
  {
  }

  lemma ScalarCanonical(bs: seq<Byte>)
    requires DecodeScalar(bs).Got?
    ensures var p := DecodeScalar(bs); IsScalar(p.value) && bs[..p.used] == EncodeScalar(p.value)
  {
    if bs[0] < 0x80 {
      assert bs[..1] == [bs[0]];
    } else if bs[0] < 0xE0 {
      Canonical2(bs);
    } else if bs[0] < 0xF0 {
      Canonical3(bs);
    } else {
      Canonical4(bs);
    }
  }

  lemma Canonical2(bs: seq<Byte>)
    requires DecodeScalar(bs).Got? && 0x80 <= bs[0] < 0xE0
    ensures var p := DecodeScalar(bs); IsScalar(p.value) && p.used == 2 && bs[..2] == EncodeScalar(p.value)
  {
    JoinSplit(bs[0] - 0xC0, bs[1]);
    assert bs[..2] == [bs[0], bs[1]];
  }

  lemma Canonical3(bs: seq<Byte>)
    requires DecodeScalar(bs).Got? && 0xE0 <= bs[0] < 0xF0
    ensures var p := DecodeScalar(bs); IsScalar(p.value) && p.used == 3 && bs[..3] == EncodeScalar(p.value)
  {
    JoinSplit(bs[0] - 0xE0, bs[1]);
    JoinSplit(Join(bs[0] - 0xE0, bs[1]), bs[2]);
    assert bs[..3] == [bs[0], bs[1], bs[2]];
  }

  lemma Canonical4(bs: seq<Byte>)
    requires DecodeScalar(bs).Got? && 0xF0 <= bs[0]
    ensures var p := DecodeScalar(bs); IsScalar(p.value) && p.used == 4 && bs[..4] == EncodeScalar(p.value)
  {
    JoinSplit(bs[0] - 0xF0, bs[1]);
    JoinSplit(Join(bs[0] - 0xF0, bs[1]), bs[2]);
    JoinSplit(Join(Join(bs[0] - 0xF0, bs[1]), bs[2]), bs[3]);
    assert bs[..4] == [bs[0], bs[1], bs[2], bs[3]];
  }

  /** The decoder accepts nothing but encodings: there is one encoding of every text. */
  lemma {:induction false} DecodeEncode(bs: seq<Byte>)
    requires Decode(bs).Some?
    ensures (forall v :: v in Decode(bs).value ==> IsScalar(v)) && Encode(Decode(bs).value) == bs
    decreases |bs|
  {
    hide DecodeScalar, EncodeScalar;
    if bs != [] {
      var p := DecodeScalar(bs);
      ScalarCanonical(bs);
      DecodeEncode(bs[p.used..]);
      assert bs == bs[..p.used] + bs[p.used..];
      assert Decode(bs).value[1..] == Decode(bs[p.used..]).value;
    }
  }

  lemma {:induction false} EncodeLength(vs: seq<nat>)
    requires forall v :: v in vs ==> IsScalar(v)
    ensures |Encode(vs)| <= 4 * |vs|
  {
    if vs != [] { EncodeLength(vs[1..]); }
  }
}
