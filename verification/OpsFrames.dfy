/** The frames of the OPS channel: a three byte envelope and one of seven payloads. */
module OpsFrames {
  import opened Identifiers
  import opened Operations
  import opened Bytes
  import opened Varint
  import opened Primitives
  import Utf8
  import opened SnapshotBody
  import opened Texts

  datatype RejectReason =
    | PermissionDenied | SessionExpired | IdentityMismatch | Malformed
    | RateLimited | OfflineWindowExceeded | DocumentLocked

  datatype Ack = Ack(ackSeq: nat, ackedId: Id)

  datatype Reject = Reject(rejectedId: Id, reason: RejectReason)

  datatype OpsMessage =
    | OpInsert(seqNo: nat, id: Id, parent: Key, side: Side, bind: bool, value: nat)
    | OpInsertRun(seqNo: nat, firstId: Id, firstParent: Key, firstSide: Side, bind: bool, values: seq<nat>)
    | OpDelete(seqNo: nat, id: Id, target: Id)
    | OpDeleteBatch(seqNo: nat, author: nat, atFirst: nat, targets: seq<Id>)
    | OpUndelete(seqNo: nat, id: Id, target: Id)
    | OpAck(acks: seq<Ack>)
    | OpReject(rejects: seq<Reject>, detail: seq<nat>)

  const PROTOCOL_VERSION: Byte := 0x01
  const CHANNEL_OPS: Byte := 0x01

  function MessageTypeOf(m: OpsMessage): Byte {
    match m
    case OpInsert(_, _, _, _, _, _) => 0x01
    case OpInsertRun(_, _, _, _, _, _) => 0x02
    case OpDelete(_, _, _) => 0x03
    case OpDeleteBatch(_, _, _, _) => 0x04
    case OpUndelete(_, _, _) => 0x05
    case OpAck(_) => 0x10
    case OpReject(_, _) => 0x11
  }

  /** Acknowledgements and rejections only ever travel from the server. */
  predicate ServerOnly(messageType: Byte) {
    messageType == 0x10 || messageType == 0x11
  }

  /** What a side may send: only the server numbers operations, acknowledges and rejects. */
  predicate Legal(m: OpsMessage, fromClient: bool) {
    fromClient ==> !m.OpAck? && !m.OpReject? && m.seqNo == 0
  }

  predicate FitsText(vs: seq<nat>) {
    Pointed(vs) && |Utf8.Encode(Repaired(vs))| <= MAX_SAFE_INTEGER
  }

  predicate AllSafe(ids: seq<Id>) {
    forall id :: id in ids ==> SafeId(id)
  }

  predicate SafeAcks(acks: seq<Ack>) {
    forall a :: a in acks ==> a.ackSeq <= MAX_SAFE_INTEGER && SafeId(a.ackedId)
  }

  predicate SafeRejects(rejects: seq<Reject>) {
    forall r :: r in rejects ==> SafeId(r.rejectedId)
  }

  /** A message that can be framed: safe integers, text a string can hold, at least two members in a run or batch. */
  predicate Framed(m: OpsMessage) {
    match m
    case OpInsert(seqNo, id, parent, _, _, value) =>
      seqNo <= MAX_SAFE_INTEGER && SafeId(id) && SafeKey(parent) && value <= MAX_SAFE_INTEGER
    case OpInsertRun(seqNo, id, parent, _, _, values) =>
      seqNo <= MAX_SAFE_INTEGER && SafeId(id) && SafeKey(parent) && 2 <= |values| <= MAX_SAFE_INTEGER
        && FitsText(values)
    case OpDelete(seqNo, id, target) => seqNo <= MAX_SAFE_INTEGER && SafeId(id) && SafeId(target)
    case OpDeleteBatch(seqNo, author, atFirst, targets) =>
      && seqNo <= MAX_SAFE_INTEGER && author <= MAX_SAFE_INTEGER && atFirst <= MAX_SAFE_INTEGER
      && 2 <= |targets| <= MAX_SAFE_INTEGER && AllSafe(targets)
    case OpUndelete(seqNo, id, target) => seqNo <= MAX_SAFE_INTEGER && SafeId(id) && SafeId(target)
    case OpAck(acks) => |acks| <= MAX_SAFE_INTEGER && SafeAcks(acks)
    case OpReject(rejects, detail) => |rejects| <= MAX_SAFE_INTEGER && SafeRejects(rejects) && FitsText(detail)
  }

  /** A message whose text is characters. */
  predicate InCharacters(m: OpsMessage) {
    (m.OpInsertRun? ==> AllScalars(m.values)) && (m.OpReject? ==> AllScalars(m.detail))
  }

  /** A message a frame carries unchanged. */
  predicate Carried(m: OpsMessage) {
    Framed(m) && InCharacters(m)
  }

  /** The message as the frame carries it. */
  function CarriedAs(m: OpsMessage): OpsMessage
    requires Framed(m)
  {
    match m
    case OpInsertRun(_, _, _, _, _, _) => m.(values := RepairAll(m.values))
    case OpReject(_, _) => m.(detail := Repaired(m.detail))
    case _ => m
  }

  lemma CarriedAsIs(m: OpsMessage)
    requires Framed(m)
    ensures CarriedAs(m) == m <==> InCharacters(m)
    ensures m.OpInsertRun? && InCharacters(m) ==> Whole(m.values)
  {
    if m.OpInsertRun? && InCharacters(m) {
      ScalarsSame(m.values);
      ScalarsWhole(m.values);
    }
    if m.OpReject? { CarriedUnchanged(m.detail); }
  }

  // ------------------------------------------------------------------ counted lists

  function ListBytes<T>(xs: seq<T>, enc: T -> seq<Byte>): seq<Byte> {
    if xs == [] then [] else enc(xs[0]) + ListBytes(xs[1..], enc)
  }

  ghost predicate StaysInside<T>(parse: seq<Byte> -> Parsed<T>) {
    forall bs :: Fits(parse(bs), bs)
  }

  function ParseList<T>(bs: seq<Byte>, n: nat, parse: seq<Byte> -> Parsed<T>): (p: Parsed<seq<T>>)
    requires StaysInside(parse)
    ensures Fits(p, bs) && (p.Got? ==> |p.value| == n)
    decreases n
  {
    if n == 0 then Got([], 0)
    else
      var first := parse(bs);
      assert Fits(parse(bs), bs);
      if first.Bad? then Bad(first.error)
      else
        var more := ParseList(bs[first.used..], n - 1, parse);
        if more.Bad? then Bad(more.error) else Got([first.value] + more.value, first.used + more.used)
  }

  /** Reading an item back off the front, whatever follows it. */
  ghost predicate ReadsBack<T>(x: T, enc: T -> seq<Byte>, parse: seq<Byte> -> Parsed<T>) {
    forall tail :: parse(enc(x) + tail) == Got(x, |enc(x)|)
  }

  lemma {:induction false} ListRoundTrip<T>(xs: seq<T>, enc: T -> seq<Byte>, parse: seq<Byte> -> Parsed<T>,
    tail: seq<Byte>)
    requires StaysInside(parse) && forall x :: x in xs ==> ReadsBack(x, enc, parse)
    ensures ParseList(ListBytes(xs, enc) + tail, |xs|, parse) == Got(xs, |ListBytes(xs, enc)|)
  {
    if xs != [] {
      assert xs[0] in xs && forall y :: y in xs[1..] ==> y in xs;
      var rest := ListBytes(xs[1..], enc);
      After(enc(xs[0]), rest, tail);
      assert ReadsBack(xs[0], enc, parse);
      assert parse(enc(xs[0]) + (rest + tail)) == Got(xs[0], |enc(xs[0])|);
      ListRoundTrip(xs[1..], enc, parse, tail);
      assert xs == [xs[0]] + xs[1..];
    }
  }

  /** Everything a list parser yields was yielded by the item parser. */
  lemma {:induction false} ListItems<T>(bs: seq<Byte>, n: nat, parse: seq<Byte> -> Parsed<T>, ok: T -> bool)
    requires StaysInside(parse) && ParseList(bs, n, parse).Got?
    requires forall b :: parse(b).Got? ==> ok(parse(b).value)
    ensures forall x :: x in ParseList(bs, n, parse).value ==> ok(x)
    decreases n
  {
    if n > 0 {
      ListItems(bs[parse(bs).used..], n - 1, parse, ok);
    }
  }

  // ------------------------------------------------------------------ pieces of payloads

  function AckBytes(a: Ack): seq<Byte> {
    VarintBytes(a.ackSeq) + StampBytes(a.ackedId)
  }

  function ParseAck(bs: seq<Byte>): (p: Parsed<Ack>)
    ensures Fits(p, bs) && (p.Got? ==> p.value.ackSeq <= MAX_SAFE_INTEGER && SafeId(p.value.ackedId))
  {
    var ackSeq := ParseVarint(bs);
    if ackSeq.Bad? then Bad(ackSeq.error)
    else
      var id := ParseStamp(bs[ackSeq.used..]);
      if id.Bad? then Bad(id.error) else Got(Ack(ackSeq.value, id.value), ackSeq.used + id.used)
  }

  function ReasonByte(r: RejectReason): Byte {
    match r
    case PermissionDenied => 0x01
    case SessionExpired => 0x02
    case IdentityMismatch => 0x03
    case Malformed => 0x04
    case RateLimited => 0x05
    case OfflineWindowExceeded => 0x06
    case DocumentLocked => 0x07
  }

  function ReasonOf(b: Byte): Option<RejectReason> {
    if b == 0x01 then Some(PermissionDenied)
    else if b == 0x02 then Some(SessionExpired)
    else if b == 0x03 then Some(IdentityMismatch)
    else if b == 0x04 then Some(Malformed)
    else if b == 0x05 then Some(RateLimited)
    else if b == 0x06 then Some(OfflineWindowExceeded)
    else if b == 0x07 then Some(DocumentLocked)
    else None
  }

  function RejectBytes(r: Reject): seq<Byte> {
    StampBytes(r.rejectedId) + [ReasonByte(r.reason)]
  }

  function ParseReject(bs: seq<Byte>): (p: Parsed<Reject>)
    ensures Fits(p, bs) && (p.Got? ==> SafeId(p.value.rejectedId))
  {
    var id := ParseStamp(bs);
    if id.Bad? then Bad(id.error)
    else
      var reason := ParseByte(bs[id.used..]);
      if reason.Bad? then Bad(reason.error)
      else if ReasonOf(reason.value).None? then Bad(UnknownRejectReason)
      else Got(Reject(id.value, ReasonOf(reason.value).value), id.used + reason.used)
  }

  /** A client's operations carry sequence number 0. */
  function ParseSeq(bs: seq<Byte>, fromClient: bool): (p: Parsed<nat>)
    ensures Fits(p, bs) && (p.Got? ==> p.value <= MAX_SAFE_INTEGER && (fromClient ==> p.value == 0))
  {
    var p := ParseVarint(bs);
    if p.Got? && fromClient && p.value != 0 then Bad(NonzeroClientSeq) else p
  }

  /** Bit 0 parent present, 1 right side, 2 bind; the others are reserved. */
  function InsertFlags(parent: Key, side: Side, bind: bool): Byte {
    (if parent.Some? then 0x01 else 0) + (if side == R then 0x02 else 0) + (if bind then 0x04 else 0)
  }

  const INSERT_FLAGS_KNOWN_BITS: nat := 0x07

  datatype InsertHead = InsertHead(seqNo: nat, flags: Byte, id: Id, parent: Key)

  function InsertHeadBytes(seqNo: nat, id: Id, parent: Key, side: Side, bind: bool): seq<Byte> {
    VarintBytes(seqNo) + ([InsertFlags(parent, side, bind)] + (StampBytes(id) + OptionalStampBytes(parent)))
  }

  function ParseInsertHead(bs: seq<Byte>, fromClient: bool): (p: Parsed<InsertHead>)
    ensures Fits(p, bs)
    ensures p.Got? ==> p.value.seqNo <= MAX_SAFE_INTEGER && SafeId(p.value.id) && SafeKey(p.value.parent)
    ensures p.Got? && fromClient ==> p.value.seqNo == 0
  {
    var seqNo := ParseSeq(bs, fromClient);
    if seqNo.Bad? then Bad(seqNo.error)
    else
      var rest := bs[seqNo.used..];
      if rest == [] then Bad(TruncatedFrame)
      else if rest[0] > INSERT_FLAGS_KNOWN_BITS then Bad(ReservedFlagBitsSet)
      else
        var id := ParseStamp(rest[1..]);
        if id.Bad? then Bad(id.error)
        else
          var parent := ParseOptionalStamp(rest[1..][id.used..], Bit(rest[0], 1));
          if parent.Bad? then Bad(parent.error)
          else Got(InsertHead(seqNo.value, rest[0], id.value, parent.value), seqNo.used + 1 + id.used + parent.used)
  }

  datatype Mark = Mark(seqNo: nat, target: Id, id: Id)

  function MarkBytes(m: Mark): seq<Byte> {
    VarintBytes(m.seqNo) + (StampBytes(m.target) + StampBytes(m.id))
  }

  function ParseMark(bs: seq<Byte>, fromClient: bool): (p: Parsed<Mark>)
    ensures Fits(p, bs)
    ensures p.Got? ==> p.value.seqNo <= MAX_SAFE_INTEGER && SafeId(p.value.target) && SafeId(p.value.id)
    ensures p.Got? && fromClient ==> p.value.seqNo == 0
  {
    var seqNo := ParseSeq(bs, fromClient);
    if seqNo.Bad? then Bad(seqNo.error)
    else
      var rest := bs[seqNo.used..];
      var target := ParseStamp(rest);
      if target.Bad? then Bad(target.error)
      else
        var id := ParseStamp(rest[target.used..]);
        if id.Bad? then Bad(id.error)
        else Got(Mark(seqNo.value, target.value, id.value), seqNo.used + target.used + id.used)
  }

  // ------------------------------------------------------------------ payloads

  function InsertBytes(m: OpsMessage): seq<Byte>
    requires m.OpInsert?
  {
    InsertHeadBytes(m.seqNo, m.id, m.parent, m.side, m.bind) + VarintBytes(m.value)
  }

  function ParseInsert(bs: seq<Byte>, fromClient: bool): (p: Parsed<OpsMessage>)
    ensures Fits(p, bs) && (p.Got? ==> p.value.OpInsert? && Carried(p.value) && Legal(p.value, fromClient))
  {
    var head := ParseInsertHead(bs, fromClient);
    if head.Bad? then Bad(head.error)
    else
      var value := ParseVarint(bs[head.used..]);
      if value.Bad? then Bad(value.error)
      else
        var h := head.value;
        Got(OpInsert(h.seqNo, h.id, h.parent, if Bit(h.flags, 2) then R else L, Bit(h.flags, 4), value.value),
            head.used + value.used)
  }

  function RunBytes(m: OpsMessage): seq<Byte>
    requires m.OpInsertRun? && Pointed(m.values)
  {
    InsertHeadBytes(m.seqNo, m.firstId, m.firstParent, m.firstSide, m.bind)
      + (VarintBytes(|m.values|) + TextBytes(m.values))
  }

  function ParseRun(bs: seq<Byte>, fromClient: bool): (p: Parsed<OpsMessage>)
    ensures Fits(p, bs)
  {
    var head := ParseInsertHead(bs, fromClient);
    if head.Bad? then Bad(head.error)
    else
      var rest := bs[head.used..];
      var count := ParseVarint(rest);
      if count.Bad? then Bad(count.error)
      else if count.value < 2 then Bad(RunTooShort)
      else
        var text := ParseText(rest[count.used..], count.value);
        if text.Bad? then Bad(text.error)
        else
          var h := head.value;
          Got(OpInsertRun(h.seqNo, h.id, h.parent, if Bit(h.flags, 2) then R else L, Bit(h.flags, 4), text.value),
              head.used + count.used + text.used)
  }

  function BatchBytes(m: OpsMessage): seq<Byte>
    requires m.OpDeleteBatch?
  {
    VarintBytes(m.seqNo)
      + (VarintBytes(m.author) + (VarintBytes(m.atFirst)
        + (VarintBytes(|m.targets|) + ListBytes(m.targets, StampBytes))))
  }

  datatype BatchHead = BatchHead(seqNo: nat, author: nat, atFirst: nat, count: nat)

  function ParseBatchHead(bs: seq<Byte>, fromClient: bool): (p: Parsed<BatchHead>)
    ensures Fits(p, bs)
    ensures p.Got? ==> p.value.seqNo <= MAX_SAFE_INTEGER && p.value.author <= MAX_SAFE_INTEGER
    ensures p.Got? ==> p.value.atFirst <= MAX_SAFE_INTEGER && 2 <= p.value.count <= MAX_SAFE_INTEGER
    ensures p.Got? && fromClient ==> p.value.seqNo == 0
  {
    var seqNo := ParseSeq(bs, fromClient);
    if seqNo.Bad? then Bad(seqNo.error)
    else
      var b := bs[seqNo.used..];
      var author := ParseVarint(b);
      if author.Bad? then Bad(author.error)
      else
        var c := b[author.used..];
        var atFirst := ParseVarint(c);
        if atFirst.Bad? then Bad(atFirst.error)
        else
          var count := ParseVarint(c[atFirst.used..]);
          if count.Bad? then Bad(count.error)
          else if count.value < 2 then Bad(BatchTooShort)
          else Got(BatchHead(seqNo.value, author.value, atFirst.value, count.value),
                   seqNo.used + author.used + atFirst.used + count.used)
  }

  function ParseBatch(bs: seq<Byte>, fromClient: bool): (p: Parsed<OpsMessage>)
    ensures Fits(p, bs)
  {
    var head := ParseBatchHead(bs, fromClient);
    if head.Bad? then Bad(head.error)
    else
      var targets := ParseList(bs[head.used..], head.value.count, ParseStamp);
      if targets.Bad? then Bad(targets.error)
      else Got(OpDeleteBatch(head.value.seqNo, head.value.author, head.value.atFirst, targets.value),
        head.used + targets.used)
  }

  function AcksBytes(m: OpsMessage): seq<Byte>
    requires m.OpAck?
  {
    VarintBytes(|m.acks|) + ListBytes(m.acks, AckBytes)
  }

  function ParseAcks(bs: seq<Byte>): (p: Parsed<OpsMessage>)
    ensures Fits(p, bs)
  {
    var count := ParseVarint(bs);
    if count.Bad? then Bad(count.error)
    else
      var acks := ParseList(bs[count.used..], count.value, ParseAck);
      if acks.Bad? then Bad(acks.error) else Got(OpAck(acks.value), count.used + acks.used)
  }

  function RejectsBytes(m: OpsMessage): seq<Byte>
    requires m.OpReject? && Pointed(m.detail)
  {
    VarintBytes(|m.rejects|) + (ListBytes(m.rejects, RejectBytes) + TextBytes(m.detail))
  }

  /** A detail text has a byte length but no character count. */
  function ParseDetail(bs: seq<Byte>): (p: Parsed<seq<nat>>)
    ensures Fits(p, bs)
  {
    var length := ParseVarint(bs);
    if length.Bad? then Bad(length.error)
    else
      var utf8 := ParseBytes(bs[length.used..], length.value);
      if utf8.Bad? then Bad(utf8.error)
      else
        var detail := Utf8.Decode(utf8.value);
        if detail.None? then Bad(InvalidUtf8) else Got(detail.value, length.used + utf8.used)
  }

  function ParseRejects(bs: seq<Byte>): (p: Parsed<OpsMessage>)
    ensures Fits(p, bs)
  {
    var count := ParseVarint(bs);
    if count.Bad? then Bad(count.error)
    else
      var rest := bs[count.used..];
      var rejects := ParseList(rest, count.value, ParseReject);
      if rejects.Bad? then Bad(rejects.error)
      else
        var detail := ParseDetail(rest[rejects.used..]);
        if detail.Bad? then Bad(detail.error)
        else Got(OpReject(rejects.value, detail.value), count.used + rejects.used + detail.used)
  }

  function PayloadBytes(m: OpsMessage): seq<Byte>
    requires Framed(m)
  {
    match m
    case OpInsert(_, _, _, _, _, _) => InsertBytes(m)
    case OpInsertRun(_, _, _, _, _, _) => RunBytes(m)
    case OpDelete(seqNo, id, target) => MarkBytes(Mark(seqNo, target, id))
    case OpDeleteBatch(_, _, _, _) => BatchBytes(m)
    case OpUndelete(seqNo, id, target) => MarkBytes(Mark(seqNo, target, id))
    case OpAck(_) => AcksBytes(m)
    case OpReject(_, _) => RejectsBytes(m)
  }

  function ParsePayload(messageType: Byte, bs: seq<Byte>, fromClient: bool): (p: Parsed<OpsMessage>)
    ensures Fits(p, bs)
  {
    if messageType == 0x01 then ParseInsert(bs, fromClient)
    else if messageType == 0x02 then ParseRun(bs, fromClient)
    else if messageType == 0x03 then
      var m := ParseMark(bs, fromClient);
      if m.Bad? then Bad(m.error) else Got(OpDelete(m.value.seqNo, m.value.id, m.value.target), m.used)
    else if messageType == 0x04 then ParseBatch(bs, fromClient)
    else if messageType == 0x05 then
      var m := ParseMark(bs, fromClient);
      if m.Bad? then Bad(m.error) else Got(OpUndelete(m.value.seqNo, m.value.id, m.value.target), m.used)
    else if messageType == 0x10 then ParseAcks(bs)
    else if messageType == 0x11 then ParseRejects(bs)
    else Bad(UnknownMessageType)
  }

  // ------------------------------------------------------------------ frames

  function FrameBytes(m: OpsMessage): seq<Byte>
    requires Framed(m)
  {
    [PROTOCOL_VERSION, CHANNEL_OPS, MessageTypeOf(m)] + PayloadBytes(m)
  }

  function DecodedFrame(bs: seq<Byte>, fromClient: bool): Result<OpsMessage> {
    if |bs| == 0 then Err(TruncatedFrame)
    else if bs[0] != PROTOCOL_VERSION then Err(UnsupportedProtocolVersion)
    else if |bs| == 1 then Err(TruncatedFrame)
    else if bs[1] != CHANNEL_OPS then Err(UnsupportedChannel)
    else if |bs| == 2 then Err(TruncatedFrame)
    else if fromClient && ServerOnly(bs[2]) then Err(MessageNotValidFromClient)
    else
      var p := ParsePayload(bs[2], bs[3..], fromClient);
      if p.Bad? then Err(p.error)
      else if p.used != |bs| - 3 then Err(TrailingBytes)
      else Ok(p.value)
  }

  // ------------------------------------------------------------------ reading back what was written

  lemma AckReadsBack(a: Ack)
    requires a.ackSeq <= MAX_SAFE_INTEGER && SafeId(a.ackedId)
    ensures ReadsBack(a, AckBytes, ParseAck)
  {
    hide VarintBytes, StampBytes, ParseVarint, ParseStamp;
    forall tail ensures ParseAck(AckBytes(a) + tail) == Got(a, |AckBytes(a)|) {
      After(VarintBytes(a.ackSeq), StampBytes(a.ackedId), tail);
      VarintRoundTrip(a.ackSeq, StampBytes(a.ackedId) + tail);
      StampRoundTrip(a.ackedId, tail);
    }
  }

  lemma RejectReadsBack(r: Reject)
    requires SafeId(r.rejectedId)
    ensures ReadsBack(r, RejectBytes, ParseReject)
  {
    hide StampBytes, ParseStamp;
    forall tail ensures ParseReject(RejectBytes(r) + tail) == Got(r, |RejectBytes(r)|) {
      After(StampBytes(r.rejectedId), [ReasonByte(r.reason)], tail);
      StampRoundTrip(r.rejectedId, [ReasonByte(r.reason)] + tail);
    }
  }

  lemma StampReadsBack(id: Id)
    requires SafeId(id)
    ensures ReadsBack(id, StampBytes, ParseStamp)
  {
    forall tail ensures ParseStamp(StampBytes(id) + tail) == Got(id, |StampBytes(id)|) {
      StampRoundTrip(id, tail);
    }
  }

  lemma SeqRoundTrip(seqNo: nat, tail: seq<Byte>, fromClient: bool)
    requires seqNo <= MAX_SAFE_INTEGER
    ensures ParseSeq(VarintBytes(seqNo) + tail, fromClient)
         == if fromClient && seqNo != 0 then Bad(NonzeroClientSeq) else Got(seqNo, |VarintBytes(seqNo)|)
  {
    VarintRoundTrip(seqNo, tail);
  }

  lemma InsertFlagsBits(parent: Key, side: Side, bind: bool)
    ensures
      var f := InsertFlags(parent, side, bind);
      f <= INSERT_FLAGS_KNOWN_BITS && (Bit(f, 1) <==> parent.Some?) && (Bit(f, 2) <==> side == R)
        && (Bit(f, 4) <==> bind)
  {
  }

  lemma InsertHeadRoundTrip(seqNo: nat, id: Id, parent: Key, side: Side, bind: bool, tail: seq<Byte>, fromClient: bool)
    requires seqNo <= MAX_SAFE_INTEGER && SafeId(id) && SafeKey(parent)
    ensures
      var bs := InsertHeadBytes(seqNo, id, parent, side, bind);
      ParseInsertHead(bs + tail, fromClient)
        == if fromClient && seqNo != 0 then Bad(NonzeroClientSeq)
           else Got(InsertHead(seqNo, InsertFlags(parent, side, bind), id, parent), |bs|)
  {
    hide VarintBytes, StampBytes, OptionalStampBytes, ParseSeq, ParseStamp, ParseOptionalStamp;
    InsertFlagsBits(parent, side, bind);
    var q, f, s, o := VarintBytes(seqNo), [InsertFlags(parent, side, bind)], StampBytes(id), OptionalStampBytes(parent);
    After(q, f + (s + o), tail);
    After(f, s + o, tail);
    After(s, o, tail);
    SeqRoundTrip(seqNo, f + (s + o) + tail, fromClient);
    StampRoundTrip(id, o + tail);
    OptionalStampRoundTrip(parent, tail);
  }

  lemma MarkRoundTrip(m: Mark, tail: seq<Byte>, fromClient: bool)
    requires m.seqNo <= MAX_SAFE_INTEGER && SafeId(m.target) && SafeId(m.id)
    ensures ParseMark(MarkBytes(m) + tail, fromClient)
         == if fromClient && m.seqNo != 0 then Bad(NonzeroClientSeq) else Got(m, |MarkBytes(m)|)
  {
    hide VarintBytes, StampBytes, ParseSeq, ParseStamp;
    var q, t, i := VarintBytes(m.seqNo), StampBytes(m.target), StampBytes(m.id);
    After(q, t + i, tail);
    After(t, i, tail);
    SeqRoundTrip(m.seqNo, t + i + tail, fromClient);
    StampRoundTrip(m.target, i + tail);
    StampRoundTrip(m.id, tail);
  }

  /** What decoding an encoded payload gives: the message, or why its sender may not send it. */
  ghost predicate Answered(p: Parsed<OpsMessage>, m: OpsMessage, fromClient: bool, size: nat) {
    p == if Legal(m, fromClient) then Got(m, size) else Bad(NonzeroClientSeq)
  }

  lemma InsertRoundTrip(m: OpsMessage, tail: seq<Byte>, fromClient: bool)
    requires m.OpInsert? && Carried(m)
    ensures Answered(ParseInsert(InsertBytes(m) + tail, fromClient), m, fromClient, |InsertBytes(m)|)
  {
    hide VarintBytes, InsertHeadBytes, ParseInsertHead, ParseVarint;
    var h, v := InsertHeadBytes(m.seqNo, m.id, m.parent, m.side, m.bind), VarintBytes(m.value);
    After(h, v, tail);
    InsertHeadRoundTrip(m.seqNo, m.id, m.parent, m.side, m.bind, v + tail, fromClient);
    InsertFlagsBits(m.parent, m.side, m.bind);
    VarintRoundTrip(m.value, tail);
  }

  /** A run reads back repaired; a run in which surrogates pair up is refused for its length. */
  lemma RunRoundTrip(m: OpsMessage, tail: seq<Byte>, fromClient: bool)
    requires m.OpInsertRun? && Framed(m)
    ensures ParseRun(RunBytes(m) + tail, fromClient)
         == if !Legal(m, fromClient) then Bad(NonzeroClientSeq)
            else if Whole(m.values) then Got(CarriedAs(m), |RunBytes(m)|)
            else Bad(RunLengthMismatch)
  {
    hide VarintBytes, InsertHeadBytes, ParseInsertHead, ParseVarint, TextBytes, ParseText, Whole;
    var h := InsertHeadBytes(m.seqNo, m.firstId, m.firstParent, m.firstSide, m.bind);
    var n, t := VarintBytes(|m.values|), TextBytes(m.values);
    After(h, n + t, tail);
    After(n, t, tail);
    InsertHeadRoundTrip(m.seqNo, m.firstId, m.firstParent, m.firstSide, m.bind, n + t + tail, fromClient);
    InsertFlagsBits(m.firstParent, m.firstSide, m.bind);
    VarintRoundTrip(|m.values|, t + tail);
    TextRoundTrip(m.values, tail);
  }

  lemma BatchHeadRoundTrip(h: BatchHead, tail: seq<Byte>, fromClient: bool)
    requires h.seqNo <= MAX_SAFE_INTEGER && h.author <= MAX_SAFE_INTEGER
    requires h.atFirst <= MAX_SAFE_INTEGER && 2 <= h.count <= MAX_SAFE_INTEGER
    ensures
      var q, b, a, n := VarintBytes(h.seqNo), VarintBytes(h.author), VarintBytes(h.atFirst), VarintBytes(h.count);
      ParseBatchHead(q + (b + (a + (n + tail))), fromClient)
        == if fromClient && h.seqNo != 0 then Bad(NonzeroClientSeq) else Got(h, |q| + |b| + |a| + |n|)
  {
    hide VarintBytes, ParseSeq, ParseVarint;
    var q, b, a, n := VarintBytes(h.seqNo), VarintBytes(h.author), VarintBytes(h.atFirst), VarintBytes(h.count);
    SeqRoundTrip(h.seqNo, b + (a + (n + tail)), fromClient);
    VarintRoundTrip(h.author, a + (n + tail));
    VarintRoundTrip(h.atFirst, n + tail);
    VarintRoundTrip(h.count, tail);
    Behind(q, b + (a + (n + tail)));
    Behind(b, a + (n + tail));
    Behind(a, n + tail);
  }

  lemma BatchRoundTrip(m: OpsMessage, tail: seq<Byte>, fromClient: bool)
    requires m.OpDeleteBatch? && Carried(m)
    ensures Answered(ParseBatch(BatchBytes(m) + tail, fromClient), m, fromClient, |BatchBytes(m)|)
  {
    hide VarintBytes, ParseBatchHead, ListBytes, ParseList;
    var t := ListBytes(m.targets, StampBytes);
    BatchHeadRoundTrip(BatchHead(m.seqNo, m.author, m.atFirst, |m.targets|), t + tail, fromClient);
    forall id | id in m.targets ensures ReadsBack(id, StampBytes, ParseStamp) { StampReadsBack(id); }
    ListRoundTrip(m.targets, StampBytes, ParseStamp, tail);
    BehindFour(VarintBytes(m.seqNo), VarintBytes(m.author), VarintBytes(m.atFirst), VarintBytes(|m.targets|), t, tail);
  }

  lemma BehindFour<T>(q: seq<T>, b: seq<T>, a: seq<T>, n: seq<T>, t: seq<T>, tail: seq<T>)
    ensures (q + (b + (a + (n + t)))) + tail == q + (b + (a + (n + (t + tail))))
    ensures (q + (b + (a + (n + (t + tail)))))[|q| + |b| + |a| + |n|..] == t + tail
  {
  }

  lemma Behind<T>(a: seq<T>, b: seq<T>)
    ensures (a + b)[|a|..] == b
  {
  }

  lemma AcksRoundTrip(m: OpsMessage, tail: seq<Byte>)
    requires m.OpAck? && Carried(m)
    ensures ParseAcks(AcksBytes(m) + tail) == Got(m, |AcksBytes(m)|)
  {
    hide VarintBytes, ParseVarint, ListBytes, ParseList, ParseAck, AckBytes, ReadsBack;
    var n, a := VarintBytes(|m.acks|), ListBytes(m.acks, AckBytes);
    After(n, a, tail);
    VarintRoundTrip(|m.acks|, a + tail);
    forall x | x in m.acks ensures ReadsBack(x, AckBytes, ParseAck) { AckReadsBack(x); }
    ListRoundTrip(m.acks, AckBytes, ParseAck, tail);
  }

  lemma DetailRoundTrip(detail: seq<nat>, tail: seq<Byte>)
    requires FitsText(detail)
    ensures ParseDetail(TextBytes(detail) + tail) == Got(Repaired(detail), |TextBytes(detail)|)
  {
    hide VarintBytes, ParseVarint, Repaired;
    var utf8 := Utf8.Encode(Repaired(detail));
    After(VarintBytes(|utf8|), utf8, tail);
    VarintRoundTrip(|utf8|, utf8 + tail);
    Utf8.EncodeDecode(Repaired(detail));
    assert (utf8 + tail)[..|utf8|] == utf8;
  }

  lemma RejectsRoundTrip(m: OpsMessage, tail: seq<Byte>)
    requires m.OpReject? && Framed(m)
    ensures ParseRejects(RejectsBytes(m) + tail) == Got(CarriedAs(m), |RejectsBytes(m)|)
  {
    hide Repaired, VarintBytes, ParseVarint, ListBytes, ParseList, ParseReject, RejectBytes, ReadsBack, TextBytes,
      ParseDetail;
    var n, r, d := VarintBytes(|m.rejects|), ListBytes(m.rejects, RejectBytes), TextBytes(m.detail);
    After(n, r + d, tail);
    After(r, d, tail);
    VarintRoundTrip(|m.rejects|, r + d + tail);
    forall x | x in m.rejects ensures ReadsBack(x, RejectBytes, ParseReject) { RejectReadsBack(x); }
    ListRoundTrip(m.rejects, RejectBytes, ParseReject, d + tail);
    DetailRoundTrip(m.detail, tail);
  }

  /** What reading an encoded payload gives, whatever follows it. */
  lemma PayloadRoundTrip(m: OpsMessage, tail: seq<Byte>, fromClient: bool)
    requires Framed(m) && (fromClient ==> !m.OpAck? && !m.OpReject?)
    ensures ParsePayload(MessageTypeOf(m), PayloadBytes(m) + tail, fromClient) ==
      if !Legal(m, fromClient) then Bad(NonzeroClientSeq)
      else if m.OpInsertRun? && !Whole(m.values) then Bad(RunLengthMismatch)
      else Got(CarriedAs(m), |PayloadBytes(m)|)
  {
    hide InsertBytes, ParseInsert, RunBytes, ParseRun, MarkBytes, ParseMark, BatchBytes, ParseBatch;
    hide AcksBytes, ParseAcks, RejectsBytes, ParseRejects, Whole, Repaired, AllScalars;
    match m {
      case OpInsert(_, _, _, _, _, _) => InsertRoundTrip(m, tail, fromClient);
      case OpInsertRun(_, _, _, _, _, _) => RunRoundTrip(m, tail, fromClient);
      case OpDelete(seqNo, id, target) => MarkRoundTrip(Mark(seqNo, target, id), tail, fromClient);
      case OpDeleteBatch(_, _, _, _) => BatchRoundTrip(m, tail, fromClient);
      case OpUndelete(seqNo, id, target) => MarkRoundTrip(Mark(seqNo, target, id), tail, fromClient);
      case OpAck(_) => AcksRoundTrip(m, tail);
      case OpReject(_, _) => RejectsRoundTrip(m, tail);
    }
  }

  /**
   * Decoding an encoded frame gives back the message, with no byte left over and what is no character replaced,
   * unless its sender may not send it or surrogates pair up in a run.  It is the same message if and only if its
   * sender may send it and its text is characters.  With anything behind it, a frame is refused.
   */
  lemma FrameRoundTrip(m: OpsMessage, tail: seq<Byte>, fromClient: bool)
    requires Framed(m)
    ensures DecodedFrame(FrameBytes(m) + tail, fromClient) ==
      if fromClient && ServerOnly(MessageTypeOf(m)) then Err(MessageNotValidFromClient)
      else if !Legal(m, fromClient) then Err(NonzeroClientSeq)
      else if m.OpInsertRun? && !Whole(m.values) then Err(RunLengthMismatch)
      else if tail != [] then Err(TrailingBytes)
      else Ok(CarriedAs(m))
    ensures DecodedFrame(FrameBytes(m), fromClient) == Ok(m) <==> Legal(m, fromClient) && InCharacters(m)
  {
    hide ParsePayload, PayloadBytes, Whole, Repaired, AllScalars, Framed;
    FrameRead(m, tail, fromClient);
    FrameRead(m, [], fromClient);
    assert FrameBytes(m) + [] == FrameBytes(m);
    CarriedAsIs(m);
  }

  lemma FrameRead(m: OpsMessage, tail: seq<Byte>, fromClient: bool)
    requires Framed(m)
    ensures DecodedFrame(FrameBytes(m) + tail, fromClient) ==
      if fromClient && ServerOnly(MessageTypeOf(m)) then Err(MessageNotValidFromClient)
      else if !Legal(m, fromClient) then Err(NonzeroClientSeq)
      else if m.OpInsertRun? && !Whole(m.values) then Err(RunLengthMismatch)
      else if tail != [] then Err(TrailingBytes)
      else Ok(CarriedAs(m))
  {
    hide ParsePayload, PayloadBytes, Whole, CarriedAs, Framed;
    After([PROTOCOL_VERSION, CHANNEL_OPS, MessageTypeOf(m)], PayloadBytes(m), tail);
    if !(fromClient && ServerOnly(MessageTypeOf(m))) {
      PayloadRoundTrip(m, tail, fromClient);
    }
  }

  // ------------------------------------------------------------------ what a decoder lets through

  lemma ParsedText(bs: seq<Byte>, count: nat)
    requires ParseText(bs, count).Got?
    ensures FitsText(ParseText(bs, count).value) && AllScalars(ParseText(bs, count).value)
  {
    var length := ParseVarint(bs);
    Utf8.DecodeEncode(ParseBytes(bs[length.used..], length.value).value);
    Scalars(ParseText(bs, count).value);
  }

  lemma ParsedDetail(bs: seq<Byte>)
    requires ParseDetail(bs).Got?
    ensures FitsText(ParseDetail(bs).value) && AllScalars(ParseDetail(bs).value)
  {
    var length := ParseVarint(bs);
    Utf8.DecodeEncode(ParseBytes(bs[length.used..], length.value).value);
    Scalars(ParseDetail(bs).value);
  }

  lemma ParsedRun(bs: seq<Byte>, fromClient: bool)
    requires ParseRun(bs, fromClient).Got?
    ensures var m := ParseRun(bs, fromClient).value; m.OpInsertRun? && Carried(m) && Legal(m, fromClient)
  {
    hide ParseText, ParseVarint, FitsText;
    var rest := bs[ParseInsertHead(bs, fromClient).used..];
    var count := ParseVarint(rest);
    ParsedText(rest[count.used..], count.value);
  }

  lemma ParsedBatch(bs: seq<Byte>, fromClient: bool)
    requires ParseBatch(bs, fromClient).Got?
    ensures var m := ParseBatch(bs, fromClient).value; m.OpDeleteBatch? && Carried(m) && Legal(m, fromClient)
  {
    hide ParseList, ParseBatchHead, ParseStamp;
    var head := ParseBatchHead(bs, fromClient);
    ListItems(bs[head.used..], head.value.count, ParseStamp, (id: Id) => SafeId(id));
  }

  lemma ParsedAcks(bs: seq<Byte>)
    requires ParseAcks(bs).Got?
    ensures var m := ParseAcks(bs).value; m.OpAck? && Carried(m)
  {
    hide ParseList, ParseVarint, ParseAck;
    var count := ParseVarint(bs);
    ListItems(bs[count.used..], count.value, ParseAck, (a: Ack) => a.ackSeq <= MAX_SAFE_INTEGER && SafeId(a.ackedId));
  }

  lemma ParsedRejects(bs: seq<Byte>)
    requires ParseRejects(bs).Got?
    ensures var m := ParseRejects(bs).value; m.OpReject? && Carried(m)
  {
    hide ParseList, ParseVarint, ParseReject, ParseDetail, FitsText;
    var count := ParseVarint(bs);
    var rest := bs[count.used..];
    ListItems(rest, count.value, ParseReject, (r: Reject) => SafeId(r.rejectedId));
    ParsedDetail(rest[ParseList(rest, count.value, ParseReject).used..]);
  }

  /** Whatever bytes arrive, an accepted message is one its sender may send and a frame can carry. */
  lemma AcceptedIsLegal(bs: seq<Byte>, fromClient: bool)
    requires DecodedFrame(bs, fromClient).Ok?
    ensures var m := DecodedFrame(bs, fromClient).value; Carried(m) && Legal(m, fromClient) && bs[2] == MessageTypeOf(m)
  {
    hide ParseInsert, ParseRun, ParseMark, ParseBatch, ParseAcks, ParseRejects;
    var payload := bs[3..];
    if bs[2] == 0x02 {
      ParsedRun(payload, fromClient);
    } else if bs[2] == 0x04 {
      ParsedBatch(payload, fromClient);
    } else if bs[2] == 0x10 {
      ParsedAcks(payload);
    } else if bs[2] == 0x11 {
      ParsedRejects(payload);
    }
  }
}
