/** Stamps: the wire form of identifiers. */
module Primitives {
  import opened Identifiers
  import opened Bytes
  import opened Varint

  function StampBytes(id: Id): seq<Byte> {
    VarintBytes(id.c) + VarintBytes(id.r)
  }

  /** Absent stamps are signalled elsewhere and take no bytes. */
  function OptionalStampBytes(id: Key): seq<Byte> {
    if id.None? then [] else StampBytes(id.value)
  }

  predicate SafeId(id: Id) {
    id.c <= MAX_SAFE_INTEGER && id.r <= MAX_SAFE_INTEGER
  }

  predicate SafeKey(id: Key) {
    id.Some? ==> SafeId(id.value)
  }

  function ParseStamp(bs: seq<Byte>): (p: Parsed<Id>)
    ensures Fits(p, bs) && (p.Got? ==> SafeId(p.value))
  {
    var c := ParseVarint(bs);
    if c.Bad? then Bad(c.error)
    else
      var r := ParseVarint(bs[c.used..]);
      if r.Bad? then Bad(r.error) else Got(Id(c.value, r.value), c.used + r.used)
  }

  function ParseOptionalStamp(bs: seq<Byte>, present: bool): (p: Parsed<Key>)
    ensures Fits(p, bs) && (p.Got? ==> SafeKey(p.value))
  {
    if !present then Got(None, 0)
    else
      var p := ParseStamp(bs);
      if p.Bad? then Bad(p.error) else Got(Some(p.value), p.used)
  }

  /** The bytes after a prefix. */
  lemma After<T>(a: seq<T>, b: seq<T>, c: seq<T>)
    ensures (a + b) + c == a + (b + c) && ((a + b) + c)[|a|..] == b + c
  {
  }

  lemma StampRoundTrip(id: Id, tail: seq<Byte>)
    requires SafeId(id)
    ensures ParseStamp(StampBytes(id) + tail) == Got(id, |StampBytes(id)|)
  {
    After(VarintBytes(id.c), VarintBytes(id.r), tail);
    VarintRoundTrip(id.c, VarintBytes(id.r) + tail);
    VarintRoundTrip(id.r, tail);
  }

  lemma OptionalStampRoundTrip(id: Key, tail: seq<Byte>)
    requires SafeKey(id)
    ensures ParseOptionalStamp(OptionalStampBytes(id) + tail, id.Some?) == Got(id, |OptionalStampBytes(id)|)
  {
    if id.Some? { StampRoundTrip(id.value, tail); }
  }

  method EncodeStamp(writer: ByteWriter, id: Id) returns (ok: bool)
    modifies writer
    ensures ok <==> SafeId(id)
    ensures ok ==> writer.bytes == old(writer.bytes) + StampBytes(id)
  {
    ghost var start := writer.bytes;
    ok := WriteVarint(writer, id.c);
    if ok {
      ok := WriteVarint(writer, id.r);
      if ok { After(start, VarintBytes(id.c), VarintBytes(id.r)); }
    }
  }

  method DecodeStamp(reader: ByteReader) returns (r: Result<Id>)
    requires reader.Valid()
    modifies reader
    ensures reader.Valid() && old(reader.offset) <= reader.offset
    ensures Took(ParseStamp(old(reader.Rest())), r, old(reader.offset), reader.offset)
  {
    ghost var start := reader.Rest();
    var c := ReadVarint(reader);
    if c.Err? {
      return Err(c.error);
    }
    assert reader.Rest() == start[ParseVarint(start).used..];
    var rr := ReadVarint(reader);
    if rr.Err? {
      return Err(rr.error);
    }
    r := Ok(Id(c.value, rr.value));
  }

  method EncodeOptionalStamp(writer: ByteWriter, id: Key) returns (ok: bool)
    modifies writer
    ensures ok <==> SafeKey(id)
    ensures ok ==> writer.bytes == old(writer.bytes) + OptionalStampBytes(id)
  {
    if id.Some? {
      ok := EncodeStamp(writer, id.value);
    } else {
      assert writer.bytes == writer.bytes + [];
      ok := true;
    }
  }

  method DecodeOptionalStamp(reader: ByteReader, present: bool) returns (r: Result<Key>)
    requires reader.Valid()
    modifies reader
    ensures reader.Valid() && old(reader.offset) <= reader.offset
    ensures Took(ParseOptionalStamp(old(reader.Rest()), present), r, old(reader.offset), reader.offset)
  {
    if !present {
      return Ok(None);
    }
    var s := DecodeStamp(reader);
    r := if s.Err? then Err(s.error) else Ok(Some(s.value));
  }
}
