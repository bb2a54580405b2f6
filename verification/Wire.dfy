/**
 * Operations to wire messages and back: as few messages as possible, and exactly the same operations at the far
 * end.
 */
module Wire {
  import opened Identifiers
  import opened Operations
  import opened Bytes
  import opened Varint
  import opened Primitives
  import Utf8
  import opened OpsFrames
  import opened Texts
  import opened Expand
  import Intake

  /** The operations a message stands for; acknowledgements and rejections stand for none. */
  function ToOperations(m: OpsMessage): seq<Op> {
    match m
    case OpInsert(_, id, parent, side, bind, value) =>
      Intake.ToOperations(Intake.One(Insert(id, value, parent, side, bind)))
    case OpInsertRun(_, id, parent, side, bind, values) =>
      Intake.ToOperations(Intake.Run(InsertRun(id, parent, side, bind, values)))
    case OpDelete(_, id, target) => Intake.ToOperations(Intake.One(Delete(id, target)))
    case OpDeleteBatch(_, author, atFirst, targets) =>
      Intake.ToOperations(Intake.Batch(DeleteBatch(author, atFirst, targets)))
    case OpUndelete(_, id, target) => Intake.ToOperations(Intake.One(Undelete(id, target)))
    case OpAck(_) => []
    case OpReject(_, _) => []
  }

  /** What a list of messages stands for. */
  function Delivered(ms: seq<OpsMessage>): seq<Op> {
    if ms == [] then [] else Delivered(ms[..|ms| - 1]) + ToOperations(ms[|ms| - 1])
  }

  // ------------------------------------------------------------------ where messages must end

  /** `next` is what a run would continue `prev` with. */
  predicate ContinuesRun(next: Op, prev: Op) {
    && next.Insert? && prev.Insert?
    && next.bind == prev.bind && next.side == R && next.parent == Some(prev.id)
    && next.id.r == prev.id.r && next.id.c == prev.id.c + 1
  }

  /** `next` is a delete a batch would continue `prev` with. */
  predicate ContinuesBatch(next: Op, prev: Op) {
    next.Delete? && prev.Delete? && next.id.r == prev.id.r && next.id.c == prev.id.c + 1
  }

  predicate Joins(prev: Op, next: Op) {
    ContinuesRun(next, prev) || ContinuesBatch(next, prev)
  }

  /** How many stretches there are in which every operation joins the one before. */
  function Pieces(ops: seq<Op>): nat {
    if ops == [] then 0
    else if |ops| == 1 then 1
    else Pieces(ops[1..]) + if Joins(ops[0], ops[1]) then 0 else 1
  }

  predicate JoinsAt(ops: seq<Op>, j: nat)
    requires 0 < j < |ops|
  {
    Joins(ops[j - 1], ops[j])
  }

  predicate OneStretch(ops: seq<Op>) {
    ops != [] && forall j :: 0 < j < |ops| ==> JoinsAt(ops, j)
  }

  lemma {:induction false} StretchIsOnePiece(ops: seq<Op>)
    requires OneStretch(ops)
    ensures Pieces(ops) == 1
  {
    if |ops| > 1 {
      assert JoinsAt(ops, 1);
      var tail := ops[1..];
      forall j | 0 < j < |tail| ensures JoinsAt(tail, j) { assert JoinsAt(ops, j + 1); }
      StretchIsOnePiece(tail);
    }
  }

  lemma {:induction false} PiecesConcat(a: seq<Op>, b: seq<Op>)
    requires a != [] && b != []
    ensures Pieces(a + b) == Pieces(a) + Pieces(b) - if Joins(a[|a| - 1], b[0]) then 1 else 0
    ensures Pieces(a) >= 1 && Pieces(b) >= 1
  {
    SomePiece(b);
    if |a| == 1 {
      assert (a + b)[1..] == b;
    } else {
      PiecesConcat(a[1..], b);
      assert (a + b)[1..] == a[1..] + b;
      assert (a + b)[1] == a[1];
    }
  }

  lemma {:induction false} SomePiece(ops: seq<Op>)
    requires ops != []
    ensures Pieces(ops) >= 1
  {
    if |ops| > 1 { SomePiece(ops[1..]); }
  }

  /** Whatever a message stands for is one stretch. */
  lemma MessageIsStretch(m: OpsMessage)
    requires ToOperations(m) != []
    ensures OneStretch(ToOperations(m))
  {
    var ops := ToOperations(m);
    forall j | 0 < j < |ops| ensures JoinsAt(ops, j) {
    }
  }

  /** So no list of messages for the same operations is shorter than the number of stretches. */
  lemma {:induction false} NeverFewerMessages(ms: seq<OpsMessage>)
    ensures Pieces(Delivered(ms)) <= |ms|
  {
    if ms != [] {
      var init, last := ms[..|ms| - 1], ToOperations(ms[|ms| - 1]);
      NeverFewerMessages(init);
      if last == [] {
        assert Delivered(init) + last == Delivered(init);
      } else {
        MessageIsStretch(ms[|ms| - 1]);
        StretchIsOnePiece(last);
        if Delivered(init) == [] {
          assert Delivered(init) + last == last;
        } else {
          PiecesConcat(Delivered(init), last);
        }
      }
    }
  }

  // ------------------------------------------------------------------ coalescing

  /** A message as a client sends it: unnumbered, and a run or batch only for two or more. */
  ghost predicate ClientForm(m: OpsMessage) {
    && Legal(m, true)
    && (m.OpInsertRun? ==> |m.values| >= 2)
    && (m.OpDeleteBatch? ==> |m.targets| >= 2)
  }

  /** The messages stand for exactly these operations, and there are as few of them as can be. */
  ghost predicate Coalesced(ms: seq<OpsMessage>, ops: seq<Op>) {
    Delivered(ms) == ops && |ms| == Pieces(ops) && forall m :: m in ms ==> ClientForm(m)
  }

  lemma CoalescedNothing()
    ensures Coalesced([], [])
  {
  }

  lemma OneMoreDelivered(ms: seq<OpsMessage>, m: OpsMessage)
    ensures Delivered(ms + [m]) == Delivered(ms) + ToOperations(m)
  {
    assert (ms + [m])[..|ms|] == ms;
  }

  /** One more message for the next stretch, which nothing before continues. */
  lemma CoalescedMore(ms: seq<OpsMessage>, ops: seq<Op>, m: OpsMessage, group: seq<Op>)
    requires Coalesced(ms, ops) && ToOperations(m) == group && OneStretch(group) && ClientForm(m)
    requires ops != [] ==> !Joins(ops[|ops| - 1], group[0])
    ensures Coalesced(ms + [m], ops + group)
  {
    OneMoreDelivered(ms, m);
    StretchIsOnePiece(group);
    if ops == [] {
      assert ops + group == group;
    } else {
      PiecesConcat(ops, group);
    }
  }

  lemma {:induction false} DeliveredConcat(a: seq<OpsMessage>, b: seq<OpsMessage>)
    ensures Delivered(a + b) == Delivered(a) + Delivered(b)
  {
    hide ToOperations;
    if b == [] {
      assert a + b == a;
    } else {
      var init := b[..|b| - 1];
      DeliveredConcat(a, init);
      assert (a + b)[..|a + b| - 1] == a + init && (a + b)[|a + b| - 1] == b[|b| - 1];
      assert Delivered(a) + (Delivered(init) + ToOperations(b[|b| - 1]))
          == (Delivered(a) + Delivered(init)) + ToOperations(b[|b| - 1]);
    }
  }

  lemma CoalescedConcat(ms: seq<OpsMessage>, ops: seq<Op>, more: seq<OpsMessage>, group: seq<Op>)
    requires Coalesced(ms, ops) && Coalesced(more, group) && group != []
    requires ops != [] ==> !Joins(ops[|ops| - 1], group[0])
    ensures Coalesced(ms + more, ops + group)
  {
    DeliveredConcat(ms, more);
    if ops == [] {
      assert ops + group == group;
    } else {
      PiecesConcat(ops, group);
    }
  }

  function ValueOf(o: Op): nat
    requires o.Insert?
  {
    o.value
  }

  function Values(ops: seq<Op>): seq<nat>
    requires forall o :: o in ops ==> o.Insert?
  {
    seq(|ops|, i requires 0 <= i < |ops| && ops[i] in ops => ValueOf(ops[i]))
  }

  /** In a stretch of inserts everything follows from the first and the values. */
  lemma {:induction false} RunAt(group: seq<Op>, j: nat)
    requires OneStretch(group) && j < |group| && forall o :: o in group ==> o.Insert?
    ensures group[j] == RunOp(InsertRun(group[0].id, group[0].parent, group[0].side, group[0].bind, Values(group)), j)
  {
    if j > 0 {
      RunAt(group, j - 1);
      assert JoinsAt(group, j);
      assert group[j] in group;
    }
  }

  lemma RunExpands(group: seq<Op>)
    requires OneStretch(group) && forall o :: o in group ==> o.Insert?
    ensures Expanded(InsertRun(group[0].id, group[0].parent, group[0].side, group[0].bind, Values(group))) == group
  {
    forall j | 0 <= j < |group|
      ensures RunOp(InsertRun(group[0].id, group[0].parent, group[0].side, group[0].bind, Values(group)), j) == group[j]
    {
      RunAt(group, j);
    }
  }

  lemma StretchGrows(group: seq<Op>, next: Op)
    requires OneStretch(group) && Joins(group[|group| - 1], next)
    ensures OneStretch(group + [next])
  {
    forall j | 0 < j < |group + [next]| ensures JoinsAt(group + [next], j) {
      if j < |group| { assert JoinsAt(group, j); }
    }
  }

  lemma OneAlone(ops: seq<Op>, i: nat)
    requires i < |ops|
    ensures OneStretch(ops[i..i + 1])
  {
  }

  lemma SliceMore<T>(s: seq<T>, i: nat, j: nat)
    requires i < j < |s|
    ensures s[i..j + 1] == s[i..j] + [s[j]] && s[i..j][|s[i..j]| - 1] == s[j - 1]
  {
  }

  lemma SliceJoin<T>(s: seq<T>, i: nat, j: nat)
    requires i < j <= |s|
    ensures s[..i] + s[i..j] == s[..j] && s[i..j][0] == s[i]
    ensures forall x :: x in s[i..j] ==> x in s
  {
  }

  /** One message for a stretch of inserts: a run for two or more. */
  method RunMessage(group: seq<Op>) returns (message: OpsMessage)
    requires OneStretch(group) && forall o :: o in group ==> o.Insert?
    ensures ToOperations(message) == group && ClientForm(message)
  {
    var first := group[0];
    assert first in group;
    if |group| >= 2 {
      RunExpands(group);
      message := OpInsertRun(0, first.id, first.parent, first.side, first.bind, Values(group));
    } else {
      assert group == [first];
      message := OpInsert(0, first.id, first.parent, first.side, first.bind, first.value);
    }
  }

  /** Inserts to runs: every maximal chain becomes one message. */
  method OperationsToRunMessages(ops: seq<Op>) returns (messages: seq<OpsMessage>)
    requires forall o :: o in ops ==> o.Insert?
    ensures Coalesced(messages, ops)
  {
    hide OneStretch, Coalesced, Joins, ToOperations, ClientForm;
    messages := [];
    var i := 0;
    CoalescedNothing();
    while i < |ops|
      invariant 0 <= i <= |ops| && Coalesced(messages, ops[..i])
      invariant 0 < i < |ops| ==> !Joins(ops[i - 1], ops[i])
    {
      var j := i + 1;
      OneAlone(ops, i);
      while j < |ops| && ContinuesRun(ops[j], ops[j - 1])
        invariant i < j <= |ops| && OneStretch(ops[i..j])
      {
        JoinsAsRun(ops[j - 1], ops[j]);
        SliceMore(ops, i, j);
        StretchGrows(ops[i..j], ops[j]);
        j := j + 1;
      }
      var group := ops[i..j];
      SliceJoin(ops, i, j);
      var message := RunMessage(group);
      CoalescedMore(messages, ops[..i], message, group);
      if j < |ops| {
        assert ops[j] in ops && ops[j - 1] in ops;
        JoinsAsRun(ops[j - 1], ops[j]);
      }
      messages := messages + [message];
      i := j;
    }
    assert ops[..i] == ops;
  }

  lemma JoinsAsRun(prev: Op, next: Op)
    requires prev.Insert? && next.Insert?
    ensures Joins(prev, next) <==> ContinuesRun(next, prev)
  {
  }

  lemma JoinsAsBatch(prev: Op, next: Op)
    requires prev.Delete? && next.Delete?
    ensures Joins(prev, next) <==> ContinuesBatch(next, prev)
  {
  }

  function Targets(ops: seq<Op>): seq<Id>
    requires forall o :: o in ops ==> o.Delete?
  {
    seq(|ops|, i requires 0 <= i < |ops| => assert ops[i] in ops; ops[i].target)
  }

  lemma {:induction false} BatchAt(group: seq<Op>, j: nat)
    requires OneStretch(group) && j < |group| && forall o :: o in group ==> o.Delete?
    ensures group[j] == Delete(Id(group[0].id.c + j, group[0].id.r), Targets(group)[j])
  {
    assert group[j] in group;
    if j > 0 {
      BatchAt(group, j - 1);
      assert JoinsAt(group, j);
    }
  }

  lemma BatchExpands(group: seq<Op>)
    requires OneStretch(group) && forall o :: o in group ==> o.Delete?
    ensures ExpandDeleteBatch(DeleteBatch(group[0].id.r, group[0].id.c, Targets(group))) == group
  {
    forall j | 0 <= j < |group|
      ensures Delete(Id(group[0].id.c + j, group[0].id.r), Targets(group)[j]) == group[j]
    {
      BatchAt(group, j);
    }
  }

  /** One message for a stretch of deletes: a batch for two or more. */
  method BatchMessage(group: seq<Op>) returns (message: OpsMessage)
    requires OneStretch(group) && forall o :: o in group ==> o.Delete?
    ensures ToOperations(message) == group && ClientForm(message)
  {
    var first := group[0];
    assert first in group;
    if |group| >= 2 {
      BatchExpands(group);
      message := OpDeleteBatch(0, first.id.r, first.id.c, Targets(group));
    } else {
      assert group == [first];
      message := OpDelete(0, first.id, first.target);
    }
  }

  /** Deletes to batches: every maximal stretch of one author's consecutive counters becomes one message. */
  method DeleteOperationsToMessages(ops: seq<Op>) returns (messages: seq<OpsMessage>)
    requires forall o :: o in ops ==> o.Delete?
    ensures Coalesced(messages, ops)
  {
    hide OneStretch, Coalesced, Joins, ToOperations, ClientForm;
    messages := [];
    var i := 0;
    CoalescedNothing();
    while i < |ops|
      invariant 0 <= i <= |ops| && Coalesced(messages, ops[..i])
      invariant 0 < i < |ops| ==> !Joins(ops[i - 1], ops[i])
    {
      var j := i + 1;
      OneAlone(ops, i);
      while j < |ops| && ops[j].id.r == ops[i].id.r && ops[j].id.c == ops[j - 1].id.c + 1
        invariant i < j <= |ops| && OneStretch(ops[i..j]) && ops[j - 1].id.r == ops[i].id.r
      {
        JoinsAsBatch(ops[j - 1], ops[j]);
        SliceMore(ops, i, j);
        StretchGrows(ops[i..j], ops[j]);
        j := j + 1;
      }
      var group := ops[i..j];
      SliceJoin(ops, i, j);
      var message := BatchMessage(group);
      CoalescedMore(messages, ops[..i], message, group);
      if j < |ops| {
        assert ops[j] in ops && ops[j - 1] in ops;
        JoinsAsBatch(ops[j - 1], ops[j]);
      }
      messages := messages + [message];
      i := j;
    }
    assert ops[..i] == ops;
  }

  predicate SameKind(a: Op, b: Op) {
    (a.Insert? && b.Insert?) || (a.Delete? && b.Delete?) || (a.Undelete? && b.Undelete?)
  }

  lemma KindsDoNotJoin(prev: Op, next: Op)
    requires !SameKind(prev, next) || prev.Undelete?
    ensures !Joins(prev, next)
  {
  }

  method UndeletesToMessages(ops: seq<Op>) returns (messages: seq<OpsMessage>)
    requires forall o :: o in ops ==> o.Undelete?
    ensures Coalesced(messages, ops)
  {
    hide Pieces, Delivered, Joins;
    messages := [];
    CoalescedNothing();
    for k := 0 to |ops|
      invariant Coalesced(messages, ops[..k])
    {
      var op := ops[k];
      if k > 0 {
        KindsDoNotJoin(ops[k - 1], op);
      }
      CoalescedMore(messages, ops[..k], OpUndelete(0, op.id, op.target), [op]);
      assert ops[..k + 1] == ops[..k] + [op];
      messages := messages + [OpUndelete(0, op.id, op.target)];
    }
    assert ops[..|ops|] == ops;
  }

  /**
   * Any list of operations, of any kinds and from any authors, becomes messages that stand for exactly these
   * operations in this order, and no list of messages for them is shorter.
   */
  method OperationsToWireMessages(ops: seq<Op>) returns (messages: seq<OpsMessage>)
    ensures Delivered(messages) == ops
    ensures forall m :: m in messages ==> ClientForm(m)
    ensures forall ms :: Delivered(ms) == ops ==> |messages| <= |ms|
  {
    hide Pieces, Delivered, Joins, ClientForm;
    messages := [];
    var i := 0;
    CoalescedNothing();
    while i < |ops|
      invariant 0 <= i <= |ops| && Coalesced(messages, ops[..i])
      invariant 0 < i < |ops| ==> !Joins(ops[i - 1], ops[i])
    {
      var j := i + 1;
      while j < |ops| && SameKind(ops[j], ops[i])
        invariant i < j <= |ops| && forall k :: i <= k < j ==> SameKind(ops[k], ops[i])
      {
        j := j + 1;
      }
      var group := ops[i..j];
      var more;
      if ops[i].Insert? {
        more := OperationsToRunMessages(group);
      } else if ops[i].Delete? {
        more := DeleteOperationsToMessages(group);
      } else {
        more := UndeletesToMessages(group);
      }
      CoalescedConcat(messages, ops[..i], more, group);
      assert ops[..i] + group == ops[..j];
      if j < |ops| {
        KindsDoNotJoin(ops[j - 1], ops[j]);
      }
      messages := messages + more;
      i := j;
    }
    assert ops[..i] == ops;
    forall ms | Delivered(ms) == ops ensures |messages| <= |ms| {
      NeverFewerMessages(ms);
    }
  }

  // ------------------------------------------------------------------ over the wire

  /** An operation a frame can carry. */
  predicate SafeOp(o: Op) {
    match o
    case Insert(id, value, parent, _, _) => SafeId(id) && SafeKey(parent) && Utf8.IsScalar(value)
    case Delete(id, target) => SafeId(id) && SafeId(target)
    case Undelete(id, target) => SafeId(id) && SafeId(target)
  }

  ghost predicate SafeOps(ops: seq<Op>) {
    forall o :: o in ops ==> SafeOp(o)
  }

  function FramesOf(ms: seq<OpsMessage>): seq<seq<Byte>>
    requires forall m :: m in ms ==> Framed(m)
  {
    seq(|ms|, i requires 0 <= i < |ms| => assert ms[i] in ms; FrameBytes(ms[i]))
  }

  /** What the server makes of a client's frames, one after the other; nothing once one is refused. */
  function Received(frames: seq<seq<Byte>>): Option<seq<Op>> {
    if frames == [] then Some([])
    else
      var before := Received(frames[..|frames| - 1]);
      var last := DecodedFrame(frames[|frames| - 1], true);
      if before.None? || last.Err? then None else Some(before.value + ToOperations(last.value))
  }

  lemma {:induction false} FramesDeliver(ms: seq<OpsMessage>)
    requires forall m :: m in ms ==> Framed(m) && InCharacters(m) && Legal(m, true)
    ensures Received(FramesOf(ms)) == Some(Delivered(ms))
  {
    hide Framed, InCharacters, Legal, DecodedFrame, FrameBytes, ToOperations;
    if ms != [] {
      var init, last := ms[..|ms| - 1], ms[|ms| - 1];
      assert last in ms;
      FramesDeliver(init);
      FrameRoundTrip(last, [], true);
      assert FramesOf(ms)[..|ms| - 1] == FramesOf(init);
    }
  }

  /** Messages for safe operations fit into frames. */
  lemma SafeIsCarried(m: OpsMessage)
    requires ClientForm(m) && SafeOps(ToOperations(m)) && 4 * |ToOperations(m)| <= MAX_SAFE_INTEGER
    ensures Framed(m) && InCharacters(m)
  {
    var ops := ToOperations(m);
    match m {
      case OpInsert(_, _, _, _, _, _) =>
        assert ops[0] in ops;
      case OpInsertRun(_, _, _, _, _, values) =>
        assert ops[0] in ops;
        forall v | v in values ensures Utf8.IsScalar(v) {
          var k :| 0 <= k < |values| && values[k] == v;
          assert ops[k] in ops && ops[k].value == v;
        }
        Utf8.EncodeLength(values);
        Scalars(values);
      case OpDelete(_, _, _) =>
        assert ops[0] in ops;
      case OpDeleteBatch(_, _, _, targets) =>
        assert ops[0] in ops;
        forall t | t in targets ensures SafeId(t) {
          var k :| 0 <= k < |targets| && targets[k] == t;
          assert ops[k] in ops && ops[k].target == t;
        }
      case OpUndelete(_, _, _) =>
        assert ops[0] in ops;
    }
  }

  lemma {:induction false} PartsOf(ms: seq<OpsMessage>)
    ensures forall m :: m in ms ==> |ToOperations(m)| <= |Delivered(ms)|
    ensures forall m, o :: m in ms && o in ToOperations(m) ==> o in Delivered(ms)
  {
    if ms != [] {
      var init := ms[..|ms| - 1];
      PartsOf(init);
      assert forall m :: m in ms ==> m in init || m == ms[|ms| - 1];
    }
  }

  /** From operations to frames and back: exactly the operations, in order, from any list of safe ones. */
  lemma WireRoundTrip(ops: seq<Op>, ms: seq<OpsMessage>)
    requires Delivered(ms) == ops && (forall m :: m in ms ==> ClientForm(m))
    requires SafeOps(ops) && 4 * |ops| <= MAX_SAFE_INTEGER
    ensures (forall m :: m in ms ==> Framed(m) && InCharacters(m)) && Received(FramesOf(ms)) == Some(ops)
  {
    hide ToOperations, Framed, InCharacters;
    PartsOf(ms);
    forall m | m in ms ensures Framed(m) && InCharacters(m) {
      SafeIsCarried(m);
    }
    FramesDeliver(ms);
  }
}
