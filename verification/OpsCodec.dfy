/** The OPS encoders and decoders as they run: a writer that grows, a reader that moves on, a loop for every list. */
module OpsCodec {
  import opened Identifiers
  import opened Operations
  import opened Bytes
  import opened Varint
  import opened Primitives
  import opened SnapshotBody
  import opened OpsFrames

  // ------------------------------------------------------------------ encoding

  lemma {:induction false} ListBytesNext<T>(xs: seq<T>, x: T, enc: T -> seq<Byte>)
    ensures ListBytes(xs + [x], enc) == ListBytes(xs, enc) + enc(x)
  {
    if xs == [] {
      assert [x][1..] == [];
      assert ListBytes([x], enc) == enc(x) + [];
    } else {
      assert (xs + [x])[1..] == xs[1..] + [x];
      ListBytesNext(xs[1..], x, enc);
    }
  }

  /** Bytes written after `i` items, and after one more. */
  lemma WroteNext<T>(start: seq<Byte>, xs: seq<T>, i: nat, enc: T -> seq<Byte>)
    requires i < |xs|
    ensures xs[..i + 1] == xs[..i] + [xs[i]]
    ensures start + ListBytes(xs[..i], enc) + enc(xs[i]) == start + ListBytes(xs[..i + 1], enc)
  {
    assert xs[..i + 1] == xs[..i] + [xs[i]];
    ListBytesNext(xs[..i], xs[i], enc);
  }

  method EncodeTargets(writer: ByteWriter, targets: seq<Id>) returns (ok: bool)
    modifies writer
    ensures ok <==> AllSafe(targets)
    ensures ok ==> writer.bytes == old(writer.bytes) + ListBytes(targets, StampBytes)
  {
    hide StampBytes, SafeId;
    for i := 0 to |targets|
      invariant AllSafe(targets[..i]) && writer.bytes == old(writer.bytes) + ListBytes(targets[..i], StampBytes)
    {
      var good := EncodeStamp(writer, targets[i]);
      if !good {
        return false;
      }
      WroteNext(old(writer.bytes), targets, i, StampBytes);
    }
    assert targets[..|targets|] == targets;
    ok := true;
  }

  method EncodeAck(writer: ByteWriter, a: Ack) returns (ok: bool)
    modifies writer
    ensures ok <==> a.ackSeq <= MAX_SAFE_INTEGER && SafeId(a.ackedId)
    ensures ok ==> writer.bytes == old(writer.bytes) + AckBytes(a)
  {
    hide StampBytes, VarintBytes;
    ghost var start := writer.bytes;
    ok := WriteVarint(writer, a.ackSeq);
    if ok {
      ok := EncodeStamp(writer, a.ackedId);
      if ok { After(start, VarintBytes(a.ackSeq), StampBytes(a.ackedId)); }
    }
  }

  method EncodeAcks(writer: ByteWriter, acks: seq<Ack>) returns (ok: bool)
    modifies writer
    ensures ok <==> SafeAcks(acks)
    ensures ok ==> writer.bytes == old(writer.bytes) + ListBytes(acks, AckBytes)
  {
    hide AckBytes, SafeId;
    for i := 0 to |acks|
      invariant SafeAcks(acks[..i]) && writer.bytes == old(writer.bytes) + ListBytes(acks[..i], AckBytes)
    {
      var good := EncodeAck(writer, acks[i]);
      if !good {
        assert acks[i] in acks;
        return false;
      }
      WroteNext(old(writer.bytes), acks, i, AckBytes);
    }
    assert acks[..|acks|] == acks;
    ok := true;
  }

  method EncodeReject(writer: ByteWriter, r: Reject) returns (ok: bool)
    modifies writer
    ensures ok <==> SafeId(r.rejectedId)
    ensures ok ==> writer.bytes == old(writer.bytes) + RejectBytes(r)
  {
    hide StampBytes;
    ghost var start := writer.bytes;
    ok := EncodeStamp(writer, r.rejectedId);
    if ok {
      writer.WriteByte(ReasonByte(r.reason));
      After(start, StampBytes(r.rejectedId), [ReasonByte(r.reason)]);
    }
  }

  method EncodeRejects(writer: ByteWriter, rejects: seq<Reject>) returns (ok: bool)
    modifies writer
    ensures ok <==> SafeRejects(rejects)
    ensures ok ==> writer.bytes == old(writer.bytes) + ListBytes(rejects, RejectBytes)
  {
    hide RejectBytes, SafeId;
    for i := 0 to |rejects|
      invariant SafeRejects(rejects[..i]) && writer.bytes == old(writer.bytes) + ListBytes(rejects[..i], RejectBytes)
    {
      var good := EncodeReject(writer, rejects[i]);
      if !good {
        assert rejects[i] in rejects;
        return false;
      }
      WroteNext(old(writer.bytes), rejects, i, RejectBytes);
    }
    assert rejects[..|rejects|] == rejects;
    ok := true;
  }

  method EncodeInsertHead(writer: ByteWriter, seqNo: nat, id: Id, parent: Key, side: Side, bind: bool)
    returns (ok: bool)
    modifies writer
    ensures ok <==> seqNo <= MAX_SAFE_INTEGER && SafeId(id) && SafeKey(parent)
    ensures ok ==> writer.bytes == old(writer.bytes) + InsertHeadBytes(seqNo, id, parent, side, bind)
  {
    hide VarintBytes, StampBytes, OptionalStampBytes;
    ghost var start := writer.bytes;
    ok := WriteVarint(writer, seqNo);
    if ok {
      var flags := 0;
      if parent.Some? { flags := flags + 0x01; }
      if side == R { flags := flags + 0x02; }
      if bind { flags := flags + 0x04; }
      assert flags == InsertFlags(parent, side, bind) && flags % 256 == flags;
      writer.WriteByte(flags);
      ok := EncodeStamp(writer, id);
      if ok {
        ok := EncodeOptionalStamp(writer, parent);
        Joined4(start, VarintBytes(seqNo), [flags], StampBytes(id), OptionalStampBytes(parent));
      }
    }
  }

  method EncodeOpInsertPayload(writer: ByteWriter, m: OpsMessage) returns (ok: bool)
    requires m.OpInsert?
    modifies writer
    ensures ok <==> Framed(m)
    ensures ok ==> writer.bytes == old(writer.bytes) + InsertBytes(m)
  {
    hide VarintBytes, InsertHeadBytes;
    ghost var start := writer.bytes;
    ok := EncodeInsertHead(writer, m.seqNo, m.id, m.parent, m.side, m.bind);
    if ok {
      ok := WriteVarint(writer, m.value);
      After(start, InsertHeadBytes(m.seqNo, m.id, m.parent, m.side, m.bind), VarintBytes(m.value));
    }
  }

  method EncodeOpInsertRunPayload(writer: ByteWriter, m: OpsMessage) returns (ok: bool)
    requires m.OpInsertRun?
    modifies writer
    ensures ok <==> Framed(m)
    ensures ok ==> writer.bytes == old(writer.bytes) + RunBytes(m)
  {
    hide VarintBytes, InsertHeadBytes, TextBytes;
    ghost var start := writer.bytes;
    if |m.values| < 2 {
      return false;
    }
    ok := EncodeInsertHead(writer, m.seqNo, m.firstId, m.firstParent, m.firstSide, m.bind);
    if ok {
      ok := WriteVarint(writer, |m.values|);
      if ok {
        ok := EncodeText(writer, m.values);
        if ok {
          Joined3(start, InsertHeadBytes(m.seqNo, m.firstId, m.firstParent, m.firstSide, m.bind),
                  VarintBytes(|m.values|), TextBytes(m.values));
        }
      }
    }
  }

  lemma Joined3<T>(s: seq<T>, a: seq<T>, b: seq<T>, c: seq<T>)
    ensures s + a + b + c == s + (a + (b + c))
  {
  }

  /** Deletes and undeletes share their layout. */
  method EncodeMark(writer: ByteWriter, m: Mark) returns (ok: bool)
    modifies writer
    ensures ok <==> m.seqNo <= MAX_SAFE_INTEGER && SafeId(m.target) && SafeId(m.id)
    ensures ok ==> writer.bytes == old(writer.bytes) + MarkBytes(m)
  {
    hide VarintBytes, StampBytes;
    ghost var start := writer.bytes;
    ok := WriteVarint(writer, m.seqNo);
    if ok {
      ok := EncodeStamp(writer, m.target);
      if ok {
        ok := EncodeStamp(writer, m.id);
        Joined3(start, VarintBytes(m.seqNo), StampBytes(m.target), StampBytes(m.id));
      }
    }
  }

  method EncodeOpDeleteBatchPayload(writer: ByteWriter, m: OpsMessage) returns (ok: bool)
    requires m.OpDeleteBatch?
    modifies writer
    ensures ok <==> Framed(m)
    ensures ok ==> writer.bytes == old(writer.bytes) + BatchBytes(m)
  {
    hide VarintBytes, ListBytes;
    ghost var start := writer.bytes;
    if |m.targets| < 2 {
      return false;
    }
    ok := WriteVarint(writer, m.seqNo);
    if ok {
      ok := WriteVarint(writer, m.author);
      if ok {
        ok := WriteVarint(writer, m.atFirst);
        if ok {
          ok := WriteVarint(writer, |m.targets|);
          if ok {
            ok := EncodeTargets(writer, m.targets);
            Joined5(start, VarintBytes(m.seqNo), VarintBytes(m.author), VarintBytes(m.atFirst),
                    VarintBytes(|m.targets|), ListBytes(m.targets, StampBytes));
          }
        }
      }
    }
  }

  lemma Joined5<T>(s: seq<T>, a: seq<T>, b: seq<T>, c: seq<T>, d: seq<T>, e: seq<T>)
    ensures s + a + b + c + d + e == s + (a + (b + (c + (d + e))))
  {
  }

  method EncodeOpAckPayload(writer: ByteWriter, m: OpsMessage) returns (ok: bool)
    requires m.OpAck?
    modifies writer
    ensures ok <==> Framed(m)
    ensures ok ==> writer.bytes == old(writer.bytes) + AcksBytes(m)
  {
    hide VarintBytes, ListBytes;
    ghost var start := writer.bytes;
    ok := WriteVarint(writer, |m.acks|);
    if ok {
      ok := EncodeAcks(writer, m.acks);
      After(start, VarintBytes(|m.acks|), ListBytes(m.acks, AckBytes));
    }
  }

  method EncodeOpRejectPayload(writer: ByteWriter, m: OpsMessage) returns (ok: bool)
    requires m.OpReject?
    modifies writer
    ensures ok <==> Framed(m)
    ensures ok ==> writer.bytes == old(writer.bytes) + RejectsBytes(m)
  {
    hide VarintBytes, ListBytes, TextBytes;
    ghost var start := writer.bytes;
    ok := WriteVarint(writer, |m.rejects|);
    if ok {
      ok := EncodeRejects(writer, m.rejects);
      if ok {
        ok := EncodeText(writer, m.detail);
        if ok {
          Joined3(start, VarintBytes(|m.rejects|), ListBytes(m.rejects, RejectBytes), TextBytes(m.detail));
        }
      }
    }
  }

  method EncodePayload(writer: ByteWriter, m: OpsMessage) returns (ok: bool)
    modifies writer
    ensures ok <==> Framed(m)
    ensures ok ==> writer.bytes == old(writer.bytes) + PayloadBytes(m)
  {
    hide InsertBytes, RunBytes, MarkBytes, BatchBytes, AcksBytes, RejectsBytes;
    match m {
      case OpInsert(_, _, _, _, _, _) =>
        ok := EncodeOpInsertPayload(writer, m);
      case OpInsertRun(_, _, _, _, _, _) =>
        ok := EncodeOpInsertRunPayload(writer, m);
      case OpDelete(seqNo, id, target) =>
        ok := EncodeMark(writer, Mark(seqNo, target, id));
      case OpDeleteBatch(_, _, _, _) =>
        ok := EncodeOpDeleteBatchPayload(writer, m);
      case OpUndelete(seqNo, id, target) =>
        ok := EncodeMark(writer, Mark(seqNo, target, id));
      case OpAck(_) =>
        ok := EncodeOpAckPayload(writer, m);
      case OpReject(_, _) =>
        ok := EncodeOpRejectPayload(writer, m);
    }
  }

  /**
   * `None` where the operation is refused: a run or batch of fewer than two, a value no string can hold, or
   * something beyond the safe integers.
   */
  method EncodeFrame(m: OpsMessage) returns (bytes: Option<seq<Byte>>)
    ensures bytes.Some? <==> Framed(m)
    ensures bytes.Some? ==> bytes.value == FrameBytes(m)
  {
    hide PayloadBytes, Framed;
    var writer := new ByteWriter();
    writer.WriteByte(PROTOCOL_VERSION);
    writer.WriteByte(CHANNEL_OPS);
    writer.WriteByte(MessageTypeOf(m));
    assert writer.bytes == [PROTOCOL_VERSION, CHANNEL_OPS, MessageTypeOf(m)];
    var ok := EncodePayload(writer, m);
    bytes := if ok then Some(writer.bytes) else None;
  }

  // ------------------------------------------------------------------ decoding

  /** Items read so far, and the ones still to read. */
  ghost function ReadOn<T>(items: seq<T>, used: nat, more: Parsed<seq<T>>): Parsed<seq<T>> {
    if more.Bad? then more else Got(items + more.value, used + more.used)
  }

  lemma ReadOnStart<T>(p: Parsed<seq<T>>)
    ensures ReadOn([], 0, p) == p
  {
    if p.Got? { assert [] + p.value == p.value; }
  }

  lemma ReadOnStep<T>(items: seq<T>, used: nat, bs: seq<Byte>, n: nat, parse: seq<Byte> -> Parsed<T>)
    requires StaysInside(parse) && n > 0
    ensures parse(bs).Bad? ==> ReadOn(items, used, ParseList(bs, n, parse)) == Bad(parse(bs).error)
    ensures Fits(parse(bs), bs)
    ensures parse(bs).Got? ==>
      ReadOn(items, used, ParseList(bs, n, parse))
        == ReadOn(items + [parse(bs).value], used + parse(bs).used, ParseList(bs[parse(bs).used..], n - 1, parse))
  {
    assert Fits(parse(bs), bs);
    if parse(bs).Got? {
      var more := ParseList(bs[parse(bs).used..], n - 1, parse);
      if more.Got? { assert items + ([parse(bs).value] + more.value) == (items + [parse(bs).value]) + more.value; }
    }
  }

  lemma ReadOnEnd<T>(items: seq<T>, used: nat, bs: seq<Byte>, parse: seq<Byte> -> Parsed<T>)
    requires StaysInside(parse)
    ensures ReadOn(items, used, ParseList(bs, 0, parse)) == Got(items, used)
  {
    assert items + [] == items;
  }

  /** What is left after `used` bytes more. */
  lemma Moved(reader: ByteReader, bs: seq<Byte>, before: nat, used: nat)
    requires reader.Valid() && before + used == reader.offset && bs == reader.bytes[before..]
    ensures used <= |bs| && reader.Rest() == bs[used..]
  {
  }

  lemma ItemsStayInside()
    ensures StaysInside(ParseStamp) && StaysInside(ParseAck) && StaysInside(ParseReject)
  {
    hide ParseStamp, ParseAck, ParseReject;
  }

  method DecodeTargets(reader: ByteReader, count: nat) returns (r: Result<seq<Id>>)
    requires reader.Valid()
    modifies reader
    ensures reader.Valid() && old(reader.offset) <= reader.offset
    ensures Took(ParseList(old(reader.Rest()), count, ParseStamp), r, old(reader.offset), reader.offset)
  {
    hide ParseStamp, ParseList, ReadOn, StaysInside, Fits;
    ItemsStayInside();
    ghost var start := reader.Rest();
    var items: seq<Id> := [];
    ReadOnStart(ParseList(start, count, ParseStamp));
    for i := 0 to count
      invariant reader.Valid() && old(reader.offset) <= reader.offset
      invariant ParseList(start, count, ParseStamp)
             == ReadOn(items, reader.offset - old(reader.offset), ParseList(reader.Rest(), count - i, ParseStamp))
    {
      ghost var bs, before := reader.Rest(), reader.offset;
      ReadOnStep(items, before - old(reader.offset), bs, count - i, ParseStamp);
      var item := DecodeStamp(reader);
      if item.Err? {
        return Err(item.error);
      }
      Moved(reader, bs, before, ParseStamp(bs).used);
      items := items + [item.value];
    }
    ReadOnEnd(items, reader.offset - old(reader.offset), reader.Rest(), ParseStamp);
    r := Ok(items);
  }

  method DecodeAck(reader: ByteReader) returns (r: Result<Ack>)
    requires reader.Valid()
    modifies reader
    ensures reader.Valid() && old(reader.offset) <= reader.offset
    ensures Took(ParseAck(old(reader.Rest())), r, old(reader.offset), reader.offset)
  {
    hide ParseVarint, ParseStamp;
    ghost var start := reader.Rest();
    var ackSeq := ReadVarint(reader);
    if ackSeq.Err? {
      return Err(ackSeq.error);
    }
    assert reader.Rest() == start[ParseVarint(start).used..];
    var id := DecodeStamp(reader);
    r := if id.Err? then Err(id.error) else Ok(Ack(ackSeq.value, id.value));
  }

  method DecodeAcks(reader: ByteReader, count: nat) returns (r: Result<seq<Ack>>)
    requires reader.Valid()
    modifies reader
    ensures reader.Valid() && old(reader.offset) <= reader.offset
    ensures Took(ParseList(old(reader.Rest()), count, ParseAck), r, old(reader.offset), reader.offset)
  {
    hide ParseAck, ParseList, ReadOn, StaysInside, Fits;
    ItemsStayInside();
    ghost var start := reader.Rest();
    var items: seq<Ack> := [];
    ReadOnStart(ParseList(start, count, ParseAck));
    for i := 0 to count
      invariant reader.Valid() && old(reader.offset) <= reader.offset
      invariant ParseList(start, count, ParseAck)
             == ReadOn(items, reader.offset - old(reader.offset), ParseList(reader.Rest(), count - i, ParseAck))
    {
      ghost var bs, before := reader.Rest(), reader.offset;
      ReadOnStep(items, before - old(reader.offset), bs, count - i, ParseAck);
      var item := DecodeAck(reader);
      if item.Err? {
        return Err(item.error);
      }
      Moved(reader, bs, before, ParseAck(bs).used);
      items := items + [item.value];
    }
    ReadOnEnd(items, reader.offset - old(reader.offset), reader.Rest(), ParseAck);
    r := Ok(items);
  }

  method DecodeReject(reader: ByteReader) returns (r: Result<Reject>)
    requires reader.Valid()
    modifies reader
    ensures reader.Valid() && old(reader.offset) <= reader.offset
    ensures Took(ParseReject(old(reader.Rest())), r, old(reader.offset), reader.offset)
  {
    hide ParseStamp;
    ghost var start := reader.Rest();
    var id := DecodeStamp(reader);
    if id.Err? {
      return Err(id.error);
    }
    assert reader.Rest() == start[ParseStamp(start).used..];
    var reason := reader.ReadByte();
    if reason.Err? {
      return Err(reason.error);
    }
    var known := ReasonOf(reason.value);
    r := if known.None? then Err(UnknownRejectReason) else Ok(Reject(id.value, known.value));
  }

  method DecodeRejects(reader: ByteReader, count: nat) returns (r: Result<seq<Reject>>)
    requires reader.Valid()
    modifies reader
    ensures reader.Valid() && old(reader.offset) <= reader.offset
    ensures Took(ParseList(old(reader.Rest()), count, ParseReject), r, old(reader.offset), reader.offset)
  {
    hide ParseReject, ParseList, ReadOn, StaysInside, Fits;
    ItemsStayInside();
    ghost var start := reader.Rest();
    var items: seq<Reject> := [];
    ReadOnStart(ParseList(start, count, ParseReject));
    for i := 0 to count
      invariant reader.Valid() && old(reader.offset) <= reader.offset
      invariant ParseList(start, count, ParseReject)
             == ReadOn(items, reader.offset - old(reader.offset), ParseList(reader.Rest(), count - i, ParseReject))
    {
      ghost var bs, before := reader.Rest(), reader.offset;
      ReadOnStep(items, before - old(reader.offset), bs, count - i, ParseReject);
      var item := DecodeReject(reader);
      if item.Err? {
        return Err(item.error);
      }
      Moved(reader, bs, before, ParseReject(bs).used);
      items := items + [item.value];
    }
    ReadOnEnd(items, reader.offset - old(reader.offset), reader.Rest(), ParseReject);
    r := Ok(items);
  }

  method ReadAndCheckSeq(reader: ByteReader, fromClient: bool) returns (r: Result<nat>)
    requires reader.Valid()
    modifies reader
    ensures reader.Valid() && old(reader.offset) <= reader.offset
    ensures Took(ParseSeq(old(reader.Rest()), fromClient), r, old(reader.offset), reader.offset)
  {
    hide ParseVarint;
    r := ReadVarint(reader);
    if r.Ok? && fromClient && r.value != 0 {
      r := Err(NonzeroClientSeq);
    }
  }

  method DecodeInsertHead(reader: ByteReader, fromClient: bool) returns (r: Result<InsertHead>)
    requires reader.Valid()
    modifies reader
    ensures reader.Valid() && old(reader.offset) <= reader.offset
    ensures Took(ParseInsertHead(old(reader.Rest()), fromClient), r, old(reader.offset), reader.offset)
  {
    hide ParseSeq, ParseStamp, ParseOptionalStamp;
    ghost var start := reader.Rest();
    var seqNo := ReadAndCheckSeq(reader, fromClient);
    if seqNo.Err? {
      return Err(seqNo.error);
    }
    ghost var rest := start[ParseSeq(start, fromClient).used..];
    assert reader.Rest() == rest;
    var flags := reader.ReadByte();
    if flags.Err? {
      return Err(flags.error);
    }
    if flags.value > INSERT_FLAGS_KNOWN_BITS {
      return Err(ReservedFlagBitsSet);
    }
    assert reader.Rest() == rest[1..];
    var id := DecodeStamp(reader);
    if id.Err? {
      return Err(id.error);
    }
    assert reader.Rest() == rest[1..][ParseStamp(rest[1..]).used..];
    var parent := DecodeOptionalStamp(reader, Bit(flags.value, 1));
    r := if parent.Err? then Err(parent.error) else Ok(InsertHead(seqNo.value, flags.value, id.value, parent.value));
  }

  method DecodeOpInsertPayload(reader: ByteReader, fromClient: bool) returns (r: Result<OpsMessage>)
    requires reader.Valid()
    modifies reader
    ensures reader.Valid() && old(reader.offset) <= reader.offset
    ensures Took(ParseInsert(old(reader.Rest()), fromClient), r, old(reader.offset), reader.offset)
  {
    hide ParseInsertHead, ParseVarint;
    ghost var start := reader.Rest();
    var head := DecodeInsertHead(reader, fromClient);
    if head.Err? {
      return Err(head.error);
    }
    assert reader.Rest() == start[ParseInsertHead(start, fromClient).used..];
    var value := ReadVarint(reader);
    if value.Err? {
      return Err(value.error);
    }
    var h := head.value;
    r := Ok(OpInsert(h.seqNo, h.id, h.parent, if Bit(h.flags, 2) then R else L, Bit(h.flags, 4), value.value));
  }

  method DecodeOpInsertRunPayload(reader: ByteReader, fromClient: bool) returns (r: Result<OpsMessage>)
    requires reader.Valid()
    modifies reader
    ensures reader.Valid() && old(reader.offset) <= reader.offset
    ensures Took(ParseRun(old(reader.Rest()), fromClient), r, old(reader.offset), reader.offset)
  {
    hide ParseInsertHead, ParseVarint, ParseText;
    ghost var start := reader.Rest();
    var head := DecodeInsertHead(reader, fromClient);
    if head.Err? {
      return Err(head.error);
    }
    ghost var rest := start[ParseInsertHead(start, fromClient).used..];
    assert reader.Rest() == rest;
    var count := ReadVarint(reader);
    if count.Err? {
      return Err(count.error);
    }
    if count.value < 2 {
      return Err(RunTooShort);
    }
    assert reader.Rest() == rest[ParseVarint(rest).used..];
    var text := DecodeText(reader, count.value);
    if text.Err? {
      return Err(text.error);
    }
    var h := head.value;
    r := Ok(OpInsertRun(h.seqNo, h.id, h.parent, if Bit(h.flags, 2) then R else L, Bit(h.flags, 4), text.value));
  }

  method DecodeMark(reader: ByteReader, fromClient: bool) returns (r: Result<Mark>)
    requires reader.Valid()
    modifies reader
    ensures reader.Valid() && old(reader.offset) <= reader.offset
    ensures Took(ParseMark(old(reader.Rest()), fromClient), r, old(reader.offset), reader.offset)
  {
    hide ParseSeq, ParseStamp;
    ghost var start := reader.Rest();
    var seqNo := ReadAndCheckSeq(reader, fromClient);
    if seqNo.Err? {
      return Err(seqNo.error);
    }
    ghost var rest := start[ParseSeq(start, fromClient).used..];
    assert reader.Rest() == rest;
    var target := DecodeStamp(reader);
    if target.Err? {
      return Err(target.error);
    }
    assert reader.Rest() == rest[ParseStamp(rest).used..];
    var id := DecodeStamp(reader);
    r := if id.Err? then Err(id.error) else Ok(Mark(seqNo.value, target.value, id.value));
  }

  method DecodeBatchHead(reader: ByteReader, fromClient: bool) returns (r: Result<BatchHead>)
    requires reader.Valid()
    modifies reader
    ensures reader.Valid() && old(reader.offset) <= reader.offset
    ensures Took(ParseBatchHead(old(reader.Rest()), fromClient), r, old(reader.offset), reader.offset)
  {
    hide ParseSeq, ParseVarint;
    ghost var start := reader.Rest();
    var seqNo := ReadAndCheckSeq(reader, fromClient);
    if seqNo.Err? {
      return Err(seqNo.error);
    }
    ghost var b := start[ParseSeq(start, fromClient).used..];
    assert reader.Rest() == b;
    var author := ReadVarint(reader);
    if author.Err? {
      return Err(author.error);
    }
    ghost var c := b[ParseVarint(b).used..];
    assert reader.Rest() == c;
    var atFirst := ReadVarint(reader);
    if atFirst.Err? {
      return Err(atFirst.error);
    }
    assert reader.Rest() == c[ParseVarint(c).used..];
    var count := ReadVarint(reader);
    if count.Err? {
      return Err(count.error);
    }
    r := if count.value < 2 then Err(BatchTooShort)
         else Ok(BatchHead(seqNo.value, author.value, atFirst.value, count.value));
  }

  method DecodeOpDeleteBatchPayload(reader: ByteReader, fromClient: bool) returns (r: Result<OpsMessage>)
    requires reader.Valid()
    modifies reader
    ensures reader.Valid() && old(reader.offset) <= reader.offset
    ensures Took(ParseBatch(old(reader.Rest()), fromClient), r, old(reader.offset), reader.offset)
  {
    hide ParseBatchHead, ParseList;
    ghost var start := reader.Rest();
    var head := DecodeBatchHead(reader, fromClient);
    if head.Err? {
      return Err(head.error);
    }
    assert reader.Rest() == start[ParseBatchHead(start, fromClient).used..];
    var targets := DecodeTargets(reader, head.value.count);
    r := if targets.Err? then Err(targets.error)
         else Ok(OpDeleteBatch(head.value.seqNo, head.value.author, head.value.atFirst, targets.value));
  }

  method DecodeOpAckPayload(reader: ByteReader) returns (r: Result<OpsMessage>)
    requires reader.Valid()
    modifies reader
    ensures reader.Valid() && old(reader.offset) <= reader.offset
    ensures Took(ParseAcks(old(reader.Rest())), r, old(reader.offset), reader.offset)
  {
    hide ParseVarint, ParseList, ParseAck;
    ghost var start := reader.Rest();
    var count := ReadVarint(reader);
    if count.Err? {
      return Err(count.error);
    }
    assert reader.Rest() == start[ParseVarint(start).used..];
    var acks := DecodeAcks(reader, count.value);
    r := if acks.Err? then Err(acks.error) else Ok(OpAck(acks.value));
  }

  method DecodeDetail(reader: ByteReader) returns (r: Result<seq<nat>>)
    requires reader.Valid()
    modifies reader
    ensures reader.Valid() && old(reader.offset) <= reader.offset
    ensures Took(ParseDetail(old(reader.Rest())), r, old(reader.offset), reader.offset)
  {
    hide ParseVarint, Utf8.DecodeScalar;
    ghost var start := reader.Rest();
    var length := ReadVarint(reader);
    if length.Err? {
      return Err(length.error);
    }
    ghost var rest := start[ParseVarint(start).used..];
    assert reader.Rest() == rest;
    if length.value == 0 {
      assert rest[..0] == [];
      return Ok([]);
    }
    var utf8 := reader.ReadBytes(length.value);
    if utf8.Err? {
      return Err(utf8.error);
    }
    var detail := Utf8.Decode(utf8.value);
    r := if detail.None? then Err(InvalidUtf8) else Ok(detail.value);
  }

  method DecodeOpRejectPayload(reader: ByteReader) returns (r: Result<OpsMessage>)
    requires reader.Valid()
    modifies reader
    ensures reader.Valid() && old(reader.offset) <= reader.offset
    ensures Took(ParseRejects(old(reader.Rest())), r, old(reader.offset), reader.offset)
  {
    hide ParseVarint, ParseList, ParseReject, ParseDetail;
    ghost var start := reader.Rest();
    var count := ReadVarint(reader);
    if count.Err? {
      return Err(count.error);
    }
    ghost var rest := start[ParseVarint(start).used..];
    assert reader.Rest() == rest;
    var rejects := DecodeRejects(reader, count.value);
    if rejects.Err? {
      return Err(rejects.error);
    }
    assert reader.Rest() == rest[ParseList(rest, count.value, ParseReject).used..];
    var detail := DecodeDetail(reader);
    r := if detail.Err? then Err(detail.error) else Ok(OpReject(rejects.value, detail.value));
  }

  method DecodePayload(reader: ByteReader, messageType: Byte, fromClient: bool) returns (r: Result<OpsMessage>)
    requires reader.Valid()
    modifies reader
    ensures reader.Valid() && old(reader.offset) <= reader.offset
    ensures Took(ParsePayload(messageType, old(reader.Rest()), fromClient), r, old(reader.offset), reader.offset)
  {
    hide ParseInsert, ParseRun, ParseMark, ParseBatch, ParseAcks, ParseRejects;
    if messageType == 0x01 {
      r := DecodeOpInsertPayload(reader, fromClient);
    } else if messageType == 0x02 {
      r := DecodeOpInsertRunPayload(reader, fromClient);
    } else if messageType == 0x03 {
      var m := DecodeMark(reader, fromClient);
      r := if m.Err? then Err(m.error) else Ok(OpDelete(m.value.seqNo, m.value.id, m.value.target));
    } else if messageType == 0x04 {
      r := DecodeOpDeleteBatchPayload(reader, fromClient);
    } else if messageType == 0x05 {
      var m := DecodeMark(reader, fromClient);
      r := if m.Err? then Err(m.error) else Ok(OpUndelete(m.value.seqNo, m.value.id, m.value.target));
    } else if messageType == 0x10 {
      r := DecodeOpAckPayload(reader);
    } else if messageType == 0x11 {
      r := DecodeOpRejectPayload(reader);
    } else {
      r := Err(UnknownMessageType);
    }
  }

  /** Behind the three bytes of the head. */
  lemma DecodedBehind(bytes: seq<Byte>, fromClient: bool, r: Result<OpsMessage>, offset: nat)
    requires |bytes| >= 3 && bytes[0] == PROTOCOL_VERSION && bytes[1] == CHANNEL_OPS
    requires !(fromClient && ServerOnly(bytes[2]))
    requires Took(ParsePayload(bytes[2], bytes[3..], fromClient), r, 3, offset)
    ensures DecodedFrame(bytes, fromClient) == if r.Ok? && offset != |bytes| then Err(TrailingBytes) else r
  {
    hide ParsePayload, ServerOnly;
  }

  lemma ByteTaken(bytes: seq<Byte>, at: nat, r: Result<Byte>, offset: nat)
    requires at <= |bytes| && Took(ParseByte(bytes[at..]), r, at, offset)
    ensures r == if at < |bytes| then Ok(bytes[at]) else Err(TruncatedFrame)
    ensures r.Ok? ==> offset == at + 1
  {
  }

  method DecodeFrame(bytes: seq<Byte>, fromClient: bool) returns (r: Result<OpsMessage>)
    ensures r == DecodedFrame(bytes, fromClient)
  {
    hide ParsePayload, Took, ServerOnly, ParseByte;
    var reader := new ByteReader(bytes);
    var protocolVersion := reader.ReadByte();
    ByteTaken(bytes, 0, protocolVersion, reader.offset);
    if protocolVersion.Err? {
      return Err(protocolVersion.error);
    }
    if protocolVersion.value != PROTOCOL_VERSION {
      return Err(UnsupportedProtocolVersion);
    }
    var channel := reader.ReadByte();
    ByteTaken(bytes, 1, channel, reader.offset);
    if channel.Err? {
      return Err(channel.error);
    }
    if channel.value != CHANNEL_OPS {
      return Err(UnsupportedChannel);
    }
    var messageType := reader.ReadByte();
    ByteTaken(bytes, 2, messageType, reader.offset);
    if messageType.Err? {
      return Err(messageType.error);
    }
    if fromClient && ServerOnly(messageType.value) {
      return Err(MessageNotValidFromClient);
    }
    r := DecodePayload(reader, messageType.value, fromClient);
    DecodedBehind(bytes, fromClient, r, reader.offset);
    if r.Ok? {
      var done := reader.AtEnd();
      if !done {
        r := Err(TrailingBytes);
      }
    }
  }
}
