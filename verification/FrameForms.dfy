/** The frames of the OPS channel, byte by byte. */
module FrameForms {
  import opened Identifiers
  import opened Operations
  import opened Bytes
  import opened Varint
  import opened Primitives
  import Utf8
  import opened SnapshotBody
  import opened Texts
  import opened OpsFrames

  /** Small enough for one byte on the wire. */
  predicate Small(v: nat) {
    v < 128
  }

  predicate SmallId(id: Id) {
    Small(id.c) && Small(id.r)
  }

  predicate SmallKey(k: Key) {
    k.Some? ==> SmallId(k.value)
  }

  lemma OneByte(v: nat)
    requires Small(v)
    ensures VarintBytes(v) == [v]
  {
  }

  lemma TwoBytes(id: Id)
    requires SmallId(id)
    ensures StampBytes(id) == [id.c, id.r] && SafeId(id)
  {
    OneByte(id.c);
    OneByte(id.r);
  }

  lemma PlainKey(k: Key)
    requires SmallKey(k)
    ensures OptionalStampBytes(k) == (if k.None? then [] else [k.value.c, k.value.r]) && SafeKey(k)
  {
    if k.Some? { TwoBytes(k.value); }
  }

  // ------------------------------------------------------------------ the envelope

  /** Version 1, channel 1, and the type of the message. */
  lemma Envelope(m: OpsMessage)
    requires Framed(m)
    ensures
      var bs := FrameBytes(m);
      && |bs| >= 3 && bs[0] == 0x01 && bs[1] == 0x01
      && (m.OpInsert? ==> bs[2] == 0x01) && (m.OpInsertRun? ==> bs[2] == 0x02) && (m.OpDelete? ==> bs[2] == 0x03)
      && (m.OpDeleteBatch? ==> bs[2] == 0x04) && (m.OpUndelete? ==> bs[2] == 0x05)
      && (m.OpAck? ==> bs[2] == 0x10) && (m.OpReject? ==> bs[2] == 0x11)
  {
    hide PayloadBytes, Framed;
  }

  /** Acknowledgements and rejections are not taken from a client, nor operations it numbered itself. */
  lemma Reads(m: OpsMessage, fromClient: bool)
    requires Framed(m) && InCharacters(m)
    ensures DecodedFrame(FrameBytes(m), fromClient)
         == if fromClient && (m.OpAck? || m.OpReject?) then Err(MessageNotValidFromClient)
            else if fromClient && m.seqNo != 0 then Err(NonzeroClientSeq)
            else Ok(m)
  {
    hide FrameBytes, DecodedFrame, Framed, InCharacters, Whole;
    FrameRoundTrip(m, [], fromClient);
    assert FrameBytes(m) + [] == FrameBytes(m);
  }

  /** No frame has another one at its start. */
  lemma TrailingRefused(m: OpsMessage, tail: seq<Byte>)
    requires Framed(m) && InCharacters(m) && tail != []
    ensures DecodedFrame(FrameBytes(m) + tail, false) == Err(TrailingBytes)
  {
    hide FrameBytes, DecodedFrame, Framed, InCharacters, Whole;
    FrameRoundTrip(m, tail, false);
    FrameRoundTrip(m, [], false);
    assert FrameBytes(m) + [] == FrameBytes(m);
  }

  // ------------------------------------------------------------------ marks

  /** A delete: number, target, then the delete's own identifier; an undelete differs in its type only. */
  lemma MarkForm(seqNo: nat, id: Id, target: Id, fromClient: bool)
    requires Small(seqNo) && SmallId(id) && SmallId(target)
    ensures Framed(OpDelete(seqNo, id, target)) && Framed(OpUndelete(seqNo, id, target))
    ensures FrameBytes(OpDelete(seqNo, id, target)) == [0x01, 0x01, 0x03, seqNo, target.c, target.r, id.c, id.r]
    ensures FrameBytes(OpUndelete(seqNo, id, target)) == [0x01, 0x01, 0x05, seqNo, target.c, target.r, id.c, id.r]
    ensures DecodedFrame([0x01, 0x01, 0x03, seqNo, target.c, target.r, id.c, id.r], fromClient)
         == if fromClient && seqNo != 0 then Err(NonzeroClientSeq) else Ok(OpDelete(seqNo, id, target))
    ensures DecodedFrame([0x01, 0x01, 0x05, seqNo, target.c, target.r, id.c, id.r], fromClient)
         == if fromClient && seqNo != 0 then Err(NonzeroClientSeq) else Ok(OpUndelete(seqNo, id, target))
  {
    hide VarintBytes, StampBytes, DecodedFrame;
    OneByte(seqNo);
    TwoBytes(id);
    TwoBytes(target);
    Reads(OpDelete(seqNo, id, target), fromClient);
    Reads(OpUndelete(seqNo, id, target), fromClient);
  }

  // ------------------------------------------------------------------ inserts

  lemma HeadForm(seqNo: nat, id: Id, parent: Key, side: Side, bind: bool)
    requires Small(seqNo) && SmallId(id) && SmallKey(parent)
    ensures
      var flags := (if parent.None? then 0 else 1) + (if side == L then 0 else 2) + (if bind then 4 else 0);
      InsertHeadBytes(seqNo, id, parent, side, bind)
        == [seqNo, flags, id.c, id.r] + if parent.None? then [] else [parent.value.c, parent.value.r]
  {
    hide VarintBytes, StampBytes, OptionalStampBytes;
    OneByte(seqNo);
    TwoBytes(id);
    PlainKey(parent);
  }

  /** An insert: number, flags, identifier, the parent if there is one, the character. */
  lemma InsertForm(seqNo: nat, id: Id, parent: Key, side: Side, bind: bool, value: nat, fromClient: bool)
    requires Small(seqNo) && SmallId(id) && SmallKey(parent) && Small(value)
    ensures Framed(OpInsert(seqNo, id, parent, side, bind, value))
    ensures
      var flags := (if parent.None? then 0 else 1) + (if side == L then 0 else 2) + (if bind then 4 else 0);
      var bs := [0x01, 0x01, 0x01, seqNo, flags, id.c, id.r]
        + (if parent.None? then [] else [parent.value.c, parent.value.r]) + [value];
      && FrameBytes(OpInsert(seqNo, id, parent, side, bind, value)) == bs
      && DecodedFrame(bs, fromClient)
           == if fromClient && seqNo != 0 then Err(NonzeroClientSeq)
              else Ok(OpInsert(seqNo, id, parent, side, bind, value))
  {
    hide VarintBytes, StampBytes, OptionalStampBytes, InsertHeadBytes, DecodedFrame;
    var m := OpInsert(seqNo, id, parent, side, bind, value);
    PlainKey(parent);
    TwoBytes(id);
    HeadForm(seqNo, id, parent, side, bind);
    OneByte(value);
    Reads(m, fromClient);
  }

  /** Characters below 128 are their own bytes. */
  lemma {:induction false} PlainText(vs: seq<nat>)
    requires forall v :: v in vs ==> Small(v)
    ensures Pointed(vs) && AllScalars(vs) && Utf8.Encode(vs) == vs
  {
    assert forall i :: 0 <= i < |vs| ==> vs[i] in vs;
    if vs != [] {
      assert forall v :: v in vs[1..] ==> v in vs;
      PlainText(vs[1..]);
      assert vs == [vs[0]] + vs[1..];
    }
  }

  lemma PlainTextBytes(vs: seq<nat>)
    requires |vs| < 128 && forall v :: v in vs ==> Small(v)
    ensures Pointed(vs) && AllScalars(vs) && FitsText(vs) && TextBytes(vs) == [|vs|] + vs
  {
    hide VarintBytes, Repaired, Utf8.Encode, Pointed, AllScalars;
    PlainText(vs);
    CarriedUnchanged(vs);
    OneByte(|vs|);
  }

  lemma RunPayload(seqNo: nat, id: Id, parent: Key, side: Side, bind: bool, values: seq<nat>)
    requires Small(seqNo) && SmallId(id) && SmallKey(parent)
    requires |values| < 128 && forall v :: v in values ==> Small(v)
    ensures Pointed(values)
    ensures
      var flags := (if parent.None? then 0 else 1) + (if side == L then 0 else 2) + (if bind then 4 else 0);
      RunBytes(OpInsertRun(seqNo, id, parent, side, bind, values)) == [seqNo, flags, id.c, id.r]
        + (if parent.None? then [] else [parent.value.c, parent.value.r]) + [|values|, |values|] + values
  {
    hide VarintBytes, InsertHeadBytes, TextBytes;
    HeadForm(seqNo, id, parent, side, bind);
    OneByte(|values|);
    PlainTextBytes(values);
  }

  /** A run: the head of an insert, the number of characters, the number of bytes, the bytes. */
  lemma RunForm(seqNo: nat, id: Id, parent: Key, side: Side, bind: bool, values: seq<nat>, fromClient: bool)
    requires Small(seqNo) && SmallId(id) && SmallKey(parent)
    requires 2 <= |values| < 128 && forall v :: v in values ==> Small(v)
    ensures Framed(OpInsertRun(seqNo, id, parent, side, bind, values))
    ensures
      var flags := (if parent.None? then 0 else 1) + (if side == L then 0 else 2) + (if bind then 4 else 0);
      var bs := [0x01, 0x01, 0x02, seqNo, flags, id.c, id.r]
        + (if parent.None? then [] else [parent.value.c, parent.value.r]) + [|values|, |values|] + values;
      && FrameBytes(OpInsertRun(seqNo, id, parent, side, bind, values)) == bs
      && DecodedFrame(bs, fromClient)
           == if fromClient && seqNo != 0 then Err(NonzeroClientSeq)
              else Ok(OpInsertRun(seqNo, id, parent, side, bind, values))
  {
    hide RunBytes, StampBytes, DecodedFrame, FitsText, AllScalars, SafeId;
    var m := OpInsertRun(seqNo, id, parent, side, bind, values);
    PlainKey(parent);
    TwoBytes(id);
    PlainTextBytes(values);
    RunPayload(seqNo, id, parent, side, bind, values);
    Reads(m, fromClient);
  }

  // ------------------------------------------------------------------ lists

  function Pairs(ids: seq<Id>): seq<nat> {
    if ids == [] then [] else [ids[0].c, ids[0].r] + Pairs(ids[1..])
  }

  lemma {:induction false} PairsForm(ids: seq<Id>)
    requires forall id :: id in ids ==> SmallId(id)
    ensures ListBytes(ids, StampBytes) == Pairs(ids) && AllSafe(ids)
  {
    hide StampBytes, SafeId;
    if ids != [] {
      assert ids[0] in ids && forall id :: id in ids ==> id == ids[0] || id in ids[1..];
      TwoBytes(ids[0]);
      PairsForm(ids[1..]);
    }
  }

  lemma FourFirst(a: nat, b: nat, c: nat, d: nat, rest: seq<nat>)
    ensures [a] + ([b] + ([c] + ([d] + rest))) == [a, b, c, d] + rest
  {
    assert [a] + ([b] + ([c] + ([d] + rest))) == ([a] + [b] + [c] + [d]) + rest;
  }

  lemma BatchPayload(seqNo: nat, author: nat, atFirst: nat, targets: seq<Id>)
    requires Small(seqNo) && Small(author) && Small(atFirst) && |targets| < 128
    requires forall t :: t in targets ==> SmallId(t)
    ensures BatchBytes(OpDeleteBatch(seqNo, author, atFirst, targets))
         == [seqNo, author, atFirst, |targets|] + Pairs(targets)
  {
    hide VarintBytes, StampBytes, ListBytes, Pairs;
    OneByte(seqNo);
    OneByte(author);
    OneByte(atFirst);
    OneByte(|targets|);
    PairsForm(targets);
    FourFirst(seqNo, author, atFirst, |targets|, Pairs(targets));
  }

  /** A batch: number, author, the first counter, how many, and the targets. */
  lemma BatchForm(seqNo: nat, author: nat, atFirst: nat, targets: seq<Id>, fromClient: bool)
    requires Small(seqNo) && Small(author) && Small(atFirst) && 2 <= |targets| < 128
    requires forall t :: t in targets ==> SmallId(t)
    ensures Framed(OpDeleteBatch(seqNo, author, atFirst, targets))
    ensures
      var bs := [0x01, 0x01, 0x04, seqNo, author, atFirst, |targets|] + Pairs(targets);
      && FrameBytes(OpDeleteBatch(seqNo, author, atFirst, targets)) == bs
      && DecodedFrame(bs, fromClient)
           == if fromClient && seqNo != 0 then Err(NonzeroClientSeq)
              else Ok(OpDeleteBatch(seqNo, author, atFirst, targets))
  {
    hide BatchBytes, DecodedFrame, ListBytes, SafeId, SmallId, AllSafe, Pairs;
    var m := OpDeleteBatch(seqNo, author, atFirst, targets);
    PairsForm(targets);
    BatchPayload(seqNo, author, atFirst, targets);
    Reads(m, fromClient);
  }

  predicate SmallAck(a: Ack) {
    Small(a.ackSeq) && SmallId(a.ackedId)
  }

  function Acked(acks: seq<Ack>): seq<nat> {
    if acks == [] then [] else [acks[0].ackSeq, acks[0].ackedId.c, acks[0].ackedId.r] + Acked(acks[1..])
  }

  lemma AckedOne(a: Ack)
    requires SmallAck(a)
    ensures AckBytes(a) == [a.ackSeq, a.ackedId.c, a.ackedId.r] && a.ackSeq <= MAX_SAFE_INTEGER && SafeId(a.ackedId)
  {
    hide VarintBytes, StampBytes;
    OneByte(a.ackSeq);
    TwoBytes(a.ackedId);
  }

  lemma {:induction false} AckedForm(acks: seq<Ack>)
    requires forall a :: a in acks ==> SmallAck(a)
    ensures ListBytes(acks, AckBytes) == Acked(acks) && SafeAcks(acks)
  {
    hide StampBytes, VarintBytes, SafeId;
    if acks != [] {
      assert acks[0] in acks && forall a :: a in acks ==> a == acks[0] || a in acks[1..];
      AckedForm(acks[1..]);
      AckedOne(acks[0]);
      hide AckBytes, SmallAck;
    }
  }

  /** Acknowledgements: how many, and for each the number and the identifier; none is taken from a client. */
  lemma AckForm(acks: seq<Ack>)
    requires |acks| < 128 && forall a :: a in acks ==> SmallAck(a)
    ensures Framed(OpAck(acks))
    ensures
      var bs := [0x01, 0x01, 0x10, |acks|] + Acked(acks);
      && FrameBytes(OpAck(acks)) == bs && DecodedFrame(bs, false) == Ok(OpAck(acks))
      && DecodedFrame(bs, true) == Err(MessageNotValidFromClient)
  {
    hide VarintBytes, AckBytes, DecodedFrame, ListBytes, SmallAck, SafeAcks, Acked;
    OneByte(|acks|);
    AckedForm(acks);
    Reads(OpAck(acks), false);
    Reads(OpAck(acks), true);
  }

  function Code(reason: RejectReason): Byte {
    match reason
    case PermissionDenied => 0x01
    case SessionExpired => 0x02
    case IdentityMismatch => 0x03
    case Malformed => 0x04
    case RateLimited => 0x05
    case OfflineWindowExceeded => 0x06
    case DocumentLocked => 0x07
  }

  function Rejected(rejects: seq<Reject>): seq<nat> {
    if rejects == [] then []
    else [rejects[0].rejectedId.c, rejects[0].rejectedId.r, Code(rejects[0].reason)] + Rejected(rejects[1..])
  }

  lemma RejectedOne(r: Reject)
    requires SmallId(r.rejectedId)
    ensures RejectBytes(r) == [r.rejectedId.c, r.rejectedId.r, Code(r.reason)] && SafeId(r.rejectedId)
  {
    TwoBytes(r.rejectedId);
  }

  lemma {:induction false} RejectedForm(rejects: seq<Reject>)
    requires forall r :: r in rejects ==> SmallId(r.rejectedId)
    ensures ListBytes(rejects, RejectBytes) == Rejected(rejects) && SafeRejects(rejects)
  {
    hide StampBytes, SafeId;
    if rejects != [] {
      assert rejects[0] in rejects && forall r :: r in rejects ==> r == rejects[0] || r in rejects[1..];
      RejectedForm(rejects[1..]);
      RejectedOne(rejects[0]);
      hide RejectBytes, Code, SmallId;
    }
  }

  lemma Sections(a: nat, items: seq<nat>, b: nat, rest: seq<nat>)
    ensures [a] + (items + ([b] + rest)) == [a] + items + [b] + rest
    ensures [0x01, 0x01, 0x11] + ([a] + items + [b] + rest) == [0x01, 0x01, 0x11, a] + items + [b] + rest
  {
    assert [0x01, 0x01, 0x11, a] == [0x01, 0x01, 0x11] + [a];
  }

  lemma RejectPayload(rejects: seq<Reject>, detail: seq<nat>)
    requires |rejects| < 128 && |detail| < 128 && forall v :: v in detail ==> Small(v)
    requires forall r :: r in rejects ==> SmallId(r.rejectedId)
    ensures Pointed(detail)
    ensures RejectsBytes(OpReject(rejects, detail)) == [|rejects|] + Rejected(rejects) + [|detail|] + detail
  {
    hide VarintBytes, ListBytes, RejectBytes, TextBytes, Rejected;
    OneByte(|rejects|);
    RejectedForm(rejects);
    PlainTextBytes(detail);
    Sections(|rejects|, Rejected(rejects), |detail|, detail);
  }

  lemma RejectFrame(rejects: seq<Reject>, detail: seq<nat>)
    requires |rejects| < 128 && SafeRejects(rejects) && Pointed(detail) && FitsText(detail)
    ensures
      var m := OpReject(rejects, detail);
      Framed(m) && FrameBytes(m) == [0x01, 0x01, 0x11] + RejectsBytes(m)
  {
    hide RejectsBytes, SafeRejects, FitsText, Pointed;
  }

  /** Rejections: how many, for each the identifier and the reason, then the length of the detail and its bytes. */
  lemma RejectForm(rejects: seq<Reject>, detail: seq<nat>)
    requires |rejects| < 128 && |detail| < 128 && forall v :: v in detail ==> Small(v)
    requires forall r :: r in rejects ==> SmallId(r.rejectedId)
    ensures Framed(OpReject(rejects, detail))
    ensures
      var bs := [0x01, 0x01, 0x11, |rejects|] + Rejected(rejects) + [|detail|] + detail;
      && FrameBytes(OpReject(rejects, detail)) == bs && DecodedFrame(bs, false) == Ok(OpReject(rejects, detail))
      && DecodedFrame(bs, true) == Err(MessageNotValidFromClient)
  {
    hide RejectsBytes, DecodedFrame, SmallId, SafeRejects, Rejected, FitsText, AllScalars, Pointed, FrameBytes, Framed;
    PlainTextBytes(detail);
    RejectedForm(rejects);
    RejectPayload(rejects, detail);
    RejectFrame(rejects, detail);
    Sections(|rejects|, Rejected(rejects), |detail|, detail);
    Reads(OpReject(rejects, detail), false);
    Reads(OpReject(rejects, detail), true);
  }

  // ------------------------------------------------------------------ limits

  /** Every number written into the frame of a message, text apart. */
  function Numbers(m: OpsMessage): seq<nat> {
    match m
    case OpInsert(seqNo, id, parent, _, _, value) =>
      [seqNo, id.c, id.r, value] + if parent.None? then [] else [parent.value.c, parent.value.r]
    case OpInsertRun(seqNo, id, parent, _, _, values) =>
      [seqNo, id.c, id.r, |values|] + if parent.None? then [] else [parent.value.c, parent.value.r]
    case OpDelete(seqNo, id, target) => [seqNo, target.c, target.r, id.c, id.r]
    case OpUndelete(seqNo, id, target) => [seqNo, target.c, target.r, id.c, id.r]
    case OpDeleteBatch(seqNo, author, atFirst, targets) => [seqNo, author, atFirst, |targets|] + Pairs(targets)
    case OpAck(acks) => [|acks|] + Acked(acks)
    case OpReject(rejects, _) => [|rejects|] + Rejected(rejects)
  }

  /** Text is joined into a string of code points, and its UTF-8 has a length. */
  predicate TextFits(vs: seq<nat>) {
    && (forall i :: 0 <= i < |vs| ==> vs[i] <= 0x10FFFF)
    && |Utf8.Encode(Repaired(vs))| <= 9007199254740991
  }

  predicate AllBelow(vs: seq<nat>) {
    forall v :: v in vs ==> v <= 9007199254740991
  }

  lemma BelowBoth(a: seq<nat>, b: seq<nat>)
    ensures AllBelow(a + b) <==> AllBelow(a) && AllBelow(b)
  {
    assert forall v :: v in a + b <==> v in a || v in b;
  }

  lemma BelowTwo(a: nat, b: nat)
    ensures AllBelow([a, b]) <==> a <= MAX_SAFE_INTEGER && b <= MAX_SAFE_INTEGER
  {
    assert a in [a, b] && b in [a, b];
  }

  lemma BelowKey(k: Key)
    ensures AllBelow(if k.None? then [] else [k.value.c, k.value.r]) <==> SafeKey(k)
  {
    if k.Some? { BelowTwo(k.value.c, k.value.r); }
  }

  lemma BelowFour(a: nat, b: nat, c: nat, d: nat)
    ensures AllBelow([a, b, c, d])
       <==> a <= MAX_SAFE_INTEGER && b <= MAX_SAFE_INTEGER && c <= MAX_SAFE_INTEGER && d <= MAX_SAFE_INTEGER
  {
    BelowTwo(a, b);
    BelowTwo(c, d);
    BelowBoth([a, b], [c, d]);
    assert [a, b, c, d] == [a, b] + [c, d];
  }

  lemma BelowThree(a: nat, b: nat, c: nat)
    ensures AllBelow([a, b, c]) <==> a <= MAX_SAFE_INTEGER && b <= MAX_SAFE_INTEGER && c <= MAX_SAFE_INTEGER
  {
    assert a in [a, b, c] && b in [a, b, c] && c in [a, b, c];
  }

  lemma BelowOne(a: nat)
    ensures AllBelow([a]) <==> a <= MAX_SAFE_INTEGER
  {
    assert a in [a];
  }

  lemma SafeFirst(ids: seq<Id>)
    requires ids != []
    ensures AllSafe(ids) <==> SafeId(ids[0]) && AllSafe(ids[1..])
  {
    assert forall id :: id in ids <==> id == ids[0] || id in ids[1..];
  }

  lemma {:induction false} PairsBelow(ids: seq<Id>)
    ensures AllBelow(Pairs(ids)) <==> AllSafe(ids)
  {
    hide AllBelow, AllSafe;
    if ids == [] {
      NoneBelow();
    } else {
      PairsBelow(ids[1..]);
      SafeFirst(ids);
      BelowTwo(ids[0].c, ids[0].r);
      BelowBoth([ids[0].c, ids[0].r], Pairs(ids[1..]));
    }
  }

  lemma NoneBelow()
    ensures AllBelow([]) && AllSafe([]) && SafeAcks([]) && SafeRejects([])
  {
  }

  lemma SafeAckFirst(acks: seq<Ack>)
    requires acks != []
    ensures SafeAcks(acks)
       <==> acks[0].ackSeq <= MAX_SAFE_INTEGER && SafeId(acks[0].ackedId) && SafeAcks(acks[1..])
  {
    assert forall a :: a in acks <==> a == acks[0] || a in acks[1..];
  }

  lemma {:induction false} AckedBelow(acks: seq<Ack>)
    ensures AllBelow(Acked(acks)) <==> SafeAcks(acks)
  {
    hide AllBelow, SafeAcks;
    if acks == [] {
      NoneBelow();
    } else {
      var a := acks[0];
      AckedBelow(acks[1..]);
      SafeAckFirst(acks);
      BelowThree(a.ackSeq, a.ackedId.c, a.ackedId.r);
      BelowBoth([a.ackSeq, a.ackedId.c, a.ackedId.r], Acked(acks[1..]));
    }
  }

  lemma SafeRejectFirst(rejects: seq<Reject>)
    requires rejects != []
    ensures SafeRejects(rejects) <==> SafeId(rejects[0].rejectedId) && SafeRejects(rejects[1..])
  {
    assert forall r :: r in rejects <==> r == rejects[0] || r in rejects[1..];
  }

  lemma {:induction false} RejectedBelow(rejects: seq<Reject>)
    ensures AllBelow(Rejected(rejects)) <==> SafeRejects(rejects)
  {
    hide AllBelow, SafeRejects;
    if rejects == [] {
      NoneBelow();
    } else {
      var r := rejects[0];
      RejectedBelow(rejects[1..]);
      SafeRejectFirst(rejects);
      BelowThree(r.rejectedId.c, r.rejectedId.r, Code(r.reason));
      BelowBoth([r.rejectedId.c, r.rejectedId.r, Code(r.reason)], Rejected(rejects[1..]));
    }
  }

  /**
   * Which messages a frame can be made of: every number is at most 2^53 - 1, runs and batches have two members at
   * least, and text fits.
   */
  lemma FramedExactly(m: OpsMessage)
    ensures Framed(m)
       <==> && AllBelow(Numbers(m))
            && (m.OpInsertRun? ==> |m.values| >= 2 && TextFits(m.values))
            && (m.OpDeleteBatch? ==> |m.targets| >= 2)
            && (m.OpReject? ==> TextFits(m.detail))
  {
    hide AllBelow, Pairs, Acked, Rejected, Repaired, Utf8.Encode;
    match m {
      case OpInsert(seqNo, id, parent, _, _, value) =>
        BelowKey(parent);
        BelowFour(seqNo, id.c, id.r, value);
        BelowBoth([seqNo, id.c, id.r, value], if parent.None? then [] else [parent.value.c, parent.value.r]);
      case OpInsertRun(seqNo, id, parent, _, _, values) =>
        BelowKey(parent);
        BelowFour(seqNo, id.c, id.r, |values|);
        BelowBoth([seqNo, id.c, id.r, |values|], if parent.None? then [] else [parent.value.c, parent.value.r]);
      case OpDelete(seqNo, id, target) => MarkBelow(seqNo, id, target);
      case OpUndelete(seqNo, id, target) => MarkBelow(seqNo, id, target);
      case OpDeleteBatch(seqNo, author, atFirst, targets) =>
        PairsBelow(targets);
        BelowFour(seqNo, author, atFirst, |targets|);
        BelowBoth([seqNo, author, atFirst, |targets|], Pairs(targets));
      case OpAck(acks) =>
        AckedBelow(acks);
        BelowOne(|acks|);
        BelowBoth([|acks|], Acked(acks));
      case OpReject(rejects, _) =>
        RejectedBelow(rejects);
        BelowOne(|rejects|);
        BelowBoth([|rejects|], Rejected(rejects));
    }
  }

  lemma MarkBelow(seqNo: nat, id: Id, target: Id)
    ensures AllBelow([seqNo, target.c, target.r, id.c, id.r])
       <==> seqNo <= MAX_SAFE_INTEGER && SafeId(id) && SafeId(target)
  {
    BelowOne(seqNo);
    BelowFour(target.c, target.r, id.c, id.r);
    BelowBoth([seqNo], [target.c, target.r, id.c, id.r]);
    assert [seqNo] + [target.c, target.r, id.c, id.r] == [seqNo, target.c, target.r, id.c, id.r];
  }

  // ------------------------------------------------------------------ refusals

  lemma ReadByteForm(v: Byte, rest: seq<Byte>)
    requires v < 128
    ensures ParseVarint([v] + rest) == Got(v, 1) && ([v] + rest)[1..] == rest
  {
  }

  lemma ReadPairForm(c: Byte, r: Byte, rest: seq<Byte>)
    requires c < 128 && r < 128
    ensures ParseStamp([c, r] + rest) == Got(Id(c, r), 2) && ([c, r] + rest)[2..] == rest
  {
    hide ParseVarint;
    assert [c, r] + rest == [c] + ([r] + rest);
    ReadByteForm(c, [r] + rest);
    ReadByteForm(r, rest);
  }

  /** What is refused at the envelope, in the order of the checks. */
  lemma EnvelopeRefused(bs: seq<Byte>, fromClient: bool)
    ensures bs == [] ==> DecodedFrame(bs, fromClient) == Err(TruncatedFrame)
    ensures bs != [] && bs[0] != 0x01 ==> DecodedFrame(bs, fromClient) == Err(UnsupportedProtocolVersion)
    ensures bs == [0x01] ==> DecodedFrame(bs, fromClient) == Err(TruncatedFrame)
    ensures |bs| > 1 && bs[0] == 0x01 && bs[1] != 0x01 ==> DecodedFrame(bs, fromClient) == Err(UnsupportedChannel)
    ensures bs == [0x01, 0x01] ==> DecodedFrame(bs, fromClient) == Err(TruncatedFrame)
    ensures |bs| > 2 && bs[0] == 0x01 && bs[1] == 0x01 && bs[2] !in [0x01, 0x02, 0x03, 0x04, 0x05, 0x10, 0x11] ==>
              DecodedFrame(bs, fromClient) == Err(UnknownMessageType)
  {
    hide ParseInsert, ParseRun, ParseMark, ParseBatch, ParseAcks, ParseRejects;
  }

  /** A bit above the third among the flags of an insert or a run. */
  lemma FlagsRefused(kind: Byte, flags: Byte, rest: seq<Byte>, fromClient: bool)
    requires (kind == 0x01 || kind == 0x02) && flags >= 8
    ensures DecodedFrame([0x01, 0x01, kind, 0, flags] + rest, fromClient) == Err(ReservedFlagBitsSet)
  {
    hide ParseVarint, ParseStamp, ParseOptionalStamp, ParseText;
    var bs := [0x01, 0x01, kind, 0, flags] + rest;
    assert bs[3..] == [0] + ([flags] + rest);
    ReadByteForm(0, [flags] + rest);
  }

  /** A run of fewer than two characters, or of more or fewer than it announces. */
  lemma RunRefused(flags: Byte, id: Id, count: Byte, values: seq<Byte>)
    requires flags < 8 && flags % 2 == 0 && SmallId(id) && count < 128
    requires |values| < 128 && (count < 2 || |values| != count) && forall v :: v in values ==> Small(v)
    ensures
      var bs: seq<Byte> := [0x01, 0x01, 0x02, 0, flags, id.c, id.r, count, |values|] + values;
      DecodedFrame(bs, false) == Err(if count < 2 then RunTooShort else RunLengthMismatch)
  {
    hide ParseRun, TextBytes, Pointed;
    PlainTextBytes(values);
    var head: seq<Byte> := [0, flags, id.c, id.r];
    RunShort(flags, id, count, values);
    RunFrame(head + ([count] + TextBytes(values)));
    Joined(flags, id.c, id.r, count, values);
  }

  lemma Joined(flags: nat, c: nat, r: nat, count: nat, values: seq<nat>)
    ensures [0x01, 0x01, 0x02] + ([0, flags, c, r] + ([count] + ([|values|] + values)))
         == [0x01, 0x01, 0x02, 0, flags, c, r, count, |values|] + values
  {
  }

  lemma RunFrame(payload: seq<Byte>)
    requires ParseRun(payload, false).Bad?
    ensures DecodedFrame([0x01, 0x01, 0x02] + payload, false) == Err(ParseRun(payload, false).error)
  {
    hide ParseRun;
    assert ([0x01, 0x01, 0x02] + payload)[3..] == payload;
  }

  lemma RunShort(flags: Byte, id: Id, count: Byte, values: seq<nat>)
    requires flags < 8 && flags % 2 == 0 && SmallId(id) && count < 128
    requires |values| < 128 && (count < 2 || |values| != count) && forall v :: v in values ==> Small(v)
    ensures Pointed(values)
    ensures ParseRun([0, flags, id.c, id.r] + ([count] + TextBytes(values)), false)
         == Bad(if count < 2 then RunTooShort else RunLengthMismatch)
  {
    hide ParseVarint, ParseInsertHead, ParseText, TextBytes;
    PlainTextBytes(values);
    if |values| != count { TextCounted(values, count); }
    RunHead(flags, id, [count] + TextBytes(values));
    ReadByteForm(count, TextBytes(values));
  }

  lemma RunHead(flags: Byte, id: Id, rest: seq<Byte>)
    requires flags < 8 && flags % 2 == 0 && SmallId(id)
    ensures
      var bs: seq<Byte> := [0, flags, id.c, id.r] + rest;
      ParseInsertHead(bs, false) == Got(InsertHead(0, flags, id, None), 4) && bs[4..] == rest
  {
    hide ParseVarint, ParseStamp;
    var bs: seq<Byte> := [0, flags, id.c, id.r] + rest;
    assert bs == [0] + ([flags, id.c, id.r] + rest) && bs[1..] == [flags] + ([id.c, id.r] + rest);
    assert bs[1..][1..] == [id.c, id.r] + rest;
    ReadByteForm(0, bs[1..]);
    ReadPairForm(id.c, id.r, rest);
  }

  lemma TextCounted(values: seq<nat>, count: nat)
    requires |values| < 128 && |values| != count && forall v :: v in values ==> Small(v)
    ensures Pointed(values) && ParseText(TextBytes(values), count) == Bad(RunLengthMismatch)
  {
    hide ParseVarint, Utf8.Decode, Utf8.Encode, Repaired;
    PlainText(values);
    PlainTextBytes(values);
    ReadByteForm(|values|, values);
    Utf8.EncodeDecode(values);
    assert values[..|values|] == values;
  }

  /** A batch of fewer than two targets. */
  lemma BatchRefused(author: Byte, atFirst: Byte, count: Byte, rest: seq<Byte>)
    requires author < 128 && atFirst < 128 && count < 2
    ensures DecodedFrame([0x01, 0x01, 0x04, 0, author, atFirst, count] + rest, false) == Err(BatchTooShort)
  {
    hide ParseVarint, ParseList;
    var bs := [0x01, 0x01, 0x04, 0, author, atFirst, count] + rest;
    assert bs[3..] == [0] + ([author] + ([atFirst] + ([count] + rest)));
    ReadByteForm(0, [author] + ([atFirst] + ([count] + rest)));
    ReadByteForm(author, [atFirst] + ([count] + rest));
    ReadByteForm(atFirst, [count] + rest);
    ReadByteForm(count, rest);
  }

  /** A reason no number of which is known. */
  lemma ReasonRefused(id: Id, reason: Byte, rest: seq<Byte>)
    requires SmallId(id) && (reason == 0 || reason > 7)
    ensures DecodedFrame([0x01, 0x01, 0x11, 1, id.c, id.r, reason] + rest, false) == Err(UnknownRejectReason)
  {
    hide ParseVarint, ParseStamp;
    var bs: seq<Byte> := [0x01, 0x01, 0x11, 1, id.c, id.r, reason] + rest;
    assert bs[3..] == [1] + ([id.c, id.r] + ([reason] + rest));
    ReadByteForm(1, [id.c, id.r] + ([reason] + rest));
    ReadPairForm(id.c, id.r, [reason] + rest);
    FirstRefused([id.c, id.r] + ([reason] + rest));
  }

  lemma FirstRefused(bs: seq<Byte>)
    requires ParseReject(bs).Bad?
    ensures ParseList(bs, 1, ParseReject) == Bad(ParseReject(bs).error)
  {
    hide ParseReject;
  }
}
