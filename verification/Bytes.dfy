/** A growable byte sink and a bounds-checked cursor over a frame. */
module Bytes {

  type Byte = b: nat | b < 256

  datatype DecodeError =
    | TruncatedFrame | VarintOverflow | ReservedFlagBitsSet | BlockTooShort
    | InvalidUtf8 | InvalidScalar | RunLengthMismatch | TrailingBytes
    | UnsupportedProtocolVersion | UnsupportedChannel | UnknownMessageType | MessageNotValidFromClient
    | NonzeroClientSeq | RunTooShort | BatchTooShort | UnknownRejectReason

  datatype Result<+T> = Ok(value: T) | Err(error: DecodeError)

  /** What reading from the front of some bytes gives: a value and how many bytes it took. */
  datatype Parsed<+T> = Got(value: T, used: nat) | Bad(error: DecodeError)

  /** A read from a cursor that moved from `before` to `after` did what parsing says. */
  ghost predicate Took<T>(p: Parsed<T>, r: Result<T>, before: nat, after: nat) {
    match p
    case Got(v, used) => r == Ok(v) && after == before + used
    case Bad(e) => r == Err(e)
  }

  /** A parse that only ever takes bytes that are there. */
  ghost predicate Fits<T>(p: Parsed<T>, bs: seq<Byte>) {
    p.Got? ==> p.used <= |bs|
  }

  class ByteWriter {
    var bytes: seq<Byte>

    constructor ()
      ensures bytes == []
    {
      bytes := [];
    }

    method WriteByte(b: nat)
      modifies this
      ensures bytes == old(bytes) + [b % 256]
    {
      bytes := bytes + [b % 256];
    }

    method WriteBytes(chunk: seq<Byte>)
      modifies this
      ensures bytes == old(bytes) + chunk
    {
      for i := 0 to |chunk|
        invariant bytes == old(bytes) + chunk[..i]
      {
        bytes := bytes + [chunk[i]];
      }
    }
  }

  function ParseByte(bs: seq<Byte>): (p: Parsed<Byte>)
    ensures Fits(p, bs)
  {
    if bs == [] then Bad(TruncatedFrame) else Got(bs[0], 1)
  }

  function ParseBytes(bs: seq<Byte>, n: nat): (p: Parsed<seq<Byte>>)
    ensures Fits(p, bs)
  {
    if n > |bs| then Bad(TruncatedFrame) else Got(bs[..n], n)
  }

  class ByteReader {
    const bytes: seq<Byte>
    var offset: nat

    ghost predicate Valid()
      reads this
    {
      offset <= |bytes|
    }

    /** The bytes still to be read. */
    ghost function Rest(): seq<Byte>
      requires Valid()
      reads this
    {
      bytes[offset..]
    }

    constructor (frame: seq<Byte>)
      ensures Valid() && bytes == frame && offset == 0
    {
      bytes, offset := frame, 0;
    }

    method ReadByte() returns (r: Result<Byte>)
      requires Valid()
      modifies this
      ensures Valid() && old(offset) <= offset && Took(ParseByte(old(Rest())), r, old(offset), offset)
    {
      if offset >= |bytes| {
        return Err(TruncatedFrame);
      }
      r := Ok(bytes[offset]);
      offset := offset + 1;
    }

    method ReadBytes(n: nat) returns (r: Result<seq<Byte>>)
      requires Valid()
      modifies this
      ensures Valid() && old(offset) <= offset && Took(ParseBytes(old(Rest()), n), r, old(offset), offset)
    {
      if offset + n > |bytes| {
        return Err(TruncatedFrame);
      }
      assert bytes[offset..][..n] == bytes[offset..offset + n];
      r := Ok(bytes[offset..offset + n]);
      offset := offset + n;
    }

    method AtEnd() returns (b: bool)
      requires Valid()
      ensures b <==> Rest() == []
    {
      b := offset == |bytes|;
    }
  }
}
