/** The commit records of a coordinator that was started from a snapshot and a log suffix. */
module WarmRecords {
  import opened Identifiers
  import opened Operations
  import opened FugueShape
  import opened EngineState
  import opened Collection
  import opened OpSets
  import opened Replica
  import opened Convergence
  import opened Seed
  import opened Horizon
  import opened Intake
  import opened LogDocument
  import opened Records

  /** Every record is that of a delete in the log. */
  ghost predicate FromLog(s: State, log: seq<LogEntry>) {
    forall d :: d in s.deleteContext ==> HasRecord(log, d, s.deleteContext[d])
  }

  ghost predicate HasRecord(log: seq<LogEntry>, d: Id, record: Context) {
    exists e :: e in log && e.op.Delete? && e.op.id == d && record == Context(e.seqno, e.atMs)
  }

  /** The deletes `ids` have records while a node is attributed to them or they still wait. */
  ghost predicate Kept(s: State, ids: set<Id>) {
    && (forall n :: n in Flat(s.tree) && n.deletedBy.Some? && n.deletedBy.value in ids ==>
          n.deletedBy.value in s.deleteContext)
    && forall o :: o in s.pending && o.Delete? && o.id in ids && o.id !in s.applied ==> o.id in s.deleteContext
  }

  lemma AttributionsApplied(s: State, p: set<Op>)
    requires Core(s, p)
    ensures forall n :: n in Flat(s.tree) && n.deletedBy.Some? ==> n.deletedBy.value in s.applied
  {
    hide WF, Built, Coherent;
    forall n | n in Flat(s.tree) && n.deletedBy.Some? ensures n.deletedBy.value in s.applied {
      assert FlagOk(n, AppliedOps(s, p));
    }
  }

  /** An identifier not applied yet keeps its record. */
  lemma StillRecorded(s: State, p: set<Op>, op: Op, d: Id)
    requires Core(s, p) && Ready(s.tree, op) && d !in s.applied && d in s.deleteContext
    ensures d in EffectContext(s, op)
  {
    hide Matches, Coherent, IsDoc;
    AttributionsApplied(s, p);
    if op.Undelete? {
      DocNodeBack(s.tree, op.target);
    }
  }

  lemma DoApplyKept(s: State, p: set<Op>, op: Op, ids: set<Id>)
    requires Core(s, p) && Kept(s, ids) && Ready(s.tree, op) && op.id !in s.applied
    requires op.Delete? && op.id in ids ==> op.id in s.deleteContext
    ensures Kept(DoApply(s, op), ids)
  {
    hide IsDoc, StackOk, Matches, Coherent, Effect, EffectContext;
    var t := DoApply(s, op);
    var o := Observe(s, op);
    CoreClock(s, o, p);
    forall m | m in Flat(t.tree) && m.deletedBy.Some? && m.deletedBy.value in ids
      ensures m.deletedBy.value in t.deleteContext
    {
      if m.deletedBy.value == op.id {
        OwnAttribution(o, p, op, m);
        StillRecorded(o, p, op, op.id);
      } else {
        AttributionAfter(o, p, op, m);
      }
    }
    forall w | w in t.pending && w.Delete? && w.id in ids && w.id !in t.applied ensures w.id in t.deleteContext {
      StillRecorded(o, p, op, w.id);
    }
  }

  /** Only a delete attributes nodes to itself. */
  lemma OwnAttribution(s: State, p: set<Op>, op: Op, m: Node)
    requires Core(s, p) && Ready(s.tree, op) && op.id !in s.applied && m in Flat(Effect(s.tree, op))
    requires m.deletedBy == Some(op.id)
    ensures op.Delete?
  {
    hide Unique, Placed, Matches, Coherent, Effect;
    EffectNodes(s.tree, op, m);
    AttributionsApplied(s, p);
    if !op.Insert? {
      var n :| n in Flat(s.tree) && m == Reflagged(n, op);
    }
  }

  lemma FewerKept(s: State, t: State, ids: set<Id>)
    requires Kept(s, ids) && t.tree == s.tree && t.applied == s.applied && t.deleteContext == s.deleteContext
    requires forall o :: o in t.pending ==> o in s.pending
    ensures Kept(t, ids)
  {
  }

  lemma StepKept(s: State, p: set<Op>, i: nat, ids: set<Id>)
    requires Core(s, p) && Kept(s, ids) && i < |s.pending|
    ensures Kept(DrainStep(s, i), ids)
  {
    hide Core, Kept, WF, DoApply, Ready;
    CoreWF(s, p);
    var op := s.pending[i];
    RemoveMembers(s.pending, i);
    if op.id in s.applied {
      FewerKept(s, DrainStep(s, i), ids);
    } else if Ready(s.tree, op) {
      WaitingRecorded(s, op, ids);
      DoApplyKept(s, p, op, ids);
      SameBuffer(s, op);
      FewerKept(DoApply(s, op), DrainStep(s, i), ids);
    }
  }

  lemma WaitingRecorded(s: State, op: Op, ids: set<Id>)
    requires Kept(s, ids) && op in s.pending && op.id !in s.applied
    ensures op.Delete? && op.id in ids ==> op.id in s.deleteContext
  {
  }

  lemma SameBuffer(s: State, op: Op)
    requires WF(s) && Ready(s.tree, op) && op.id !in s.applied
    ensures DoApply(s, op).pending == s.pending
  {
  }

  lemma {:induction false} DownToKept(s: State, p: set<Op>, i: nat, ids: set<Id>)
    requires WF(s) && Core(s, p) && Kept(s, ids) && i <= |s.pending|
    ensures Kept(DrainDownTo(s, i), ids)
    decreases |s.pending| - i
  {
    hide Core, Kept, WF, DrainStep;
    if i < |s.pending| {
      DownToKept(s, p, i + 1, ids);
      DrainDownToCore(s, i + 1, p);
      StepKept(DrainDownTo(s, i + 1), p, i, ids);
    }
  }

  lemma {:induction false} DrainKept(s: State, p: set<Op>, ids: set<Id>)
    requires WF(s) && Core(s, p) && Kept(s, ids)
    ensures Kept(Drain(s), ids)
    decreases |s.pending|
  {
    hide Core, Kept, WF, DrainDownTo;
    DownToKept(s, p, 0, ids);
    DrainDownToCore(s, 0, p);
    var t := DrainDownTo(s, 0);
    if |t.pending| < |s.pending| { DrainKept(t, p, ids); }
  }

  function DeleteId(op: Op): set<Id> {
    if op.Delete? then {op.id} else {}
  }

  lemma RecordedKept(s: State, op: Op, context: Context, ids: set<Id>)
    requires Kept(s, ids)
    ensures
      var s1 := RecordContext(s, op, Some(context));
      Kept(s1, ids + DeleteId(op)) && (op.Delete? ==> op.id in s1.deleteContext)
  {
  }

  lemma EntryKept(s: State, p: set<Op>, op: Op, context: Context, ids: set<Id>)
    requires WF(s) && Core(s, p) && Coherent(p + {op}) && Kept(s, ids)
    ensures Kept(ApplyRemote(s, op, Some(context)).state, ids + DeleteId(op))
  {
    hide Core, Kept, WF, Drain, DoApply, Ready, Coherent;
    var s1 := RecordContext(s, op, Some(context));
    RecordedWF(s, op, Some(context));
    RecordedKept(s, op, context, ids);
    CoreClock(s, s1, p);
    if op.id in s1.applied {
    } else if Ready(s1.tree, op) {
      DoApplyKept(s1, p, op, ids + DeleteId(op));
      DoApplyCore(s1, op, p);
      CoreWF(DoApply(s1, op), p + {op});
      DrainKept(DoApply(s1, op), p + {op}, ids + DeleteId(op));
    } else {
      BufferedKept(s1, op, ids + DeleteId(op));
    }
  }

  lemma BufferedKept(s: State, op: Op, ids: set<Id>)
    requires Kept(s, ids) && (op.Delete? ==> op.id in s.deleteContext)
    ensures Kept(s.(pending := s.pending + [op]), ids)
  {
  }

  ghost function LogDeletes(log: seq<LogEntry>): set<Id> {
    set e | e in log && e.op.Delete? :: e.op.id
  }

  lemma EntryFromLog(s: State, init: seq<LogEntry>, e: LogEntry)
    requires WF(s) && FromLog(s, init)
    ensures FromLog(ApplyRemote(s, e.op, Some(Context(e.seqno, e.atMs))).state, init + [e])
  {
    hide Effect, IsDoc, Drain, Ready;
    var s1 := RecordContext(s, e.op, Some(Context(e.seqno, e.atMs)));
    MoreLog(s, s1, init, e);
    if e.op.id !in s1.applied && Ready(s1.tree, e.op) {
      var u := DoApply(s1, e.op);
      DrainForgets(u);
    }
  }

  lemma MoreLog(s: State, s1: State, init: seq<LogEntry>, e: LogEntry)
    requires FromLog(s, init) && s1 == RecordContext(s, e.op, Some(Context(e.seqno, e.atMs)))
    ensures FromLog(s1, init + [e])
  {
    var log := init + [e];
    assert e in log && forall g :: g in init ==> g in log;
    forall d | d in s1.deleteContext ensures HasRecord(log, d, s1.deleteContext[d]) {
      if !(e.op.Delete? && e.op.id == d) { assert HasRecord(init, d, s.deleteContext[d]); }
    }
  }

  lemma {:induction false} ResumeRecords(s: State, p: set<Op>, log: seq<LogEntry>)
    requires WF(s) && Core(s, p) && Drained(s) && Coherent(p + SetOf(Ops(log))) && s.deleteContext == map[]
    ensures FromLog(Resume(s, log), log) && Kept(Resume(s, log), LogDeletes(log))
    ensures Core(Resume(s, log), p + SetOf(Ops(log))) && Drained(Resume(s, log))
    decreases |log|
  {
    hide Core, WF, Drained, Coherent, ApplyRemote, Kept, FromLog;
    if log == [] {
      assert Ops(log) == [] && p + SetOf(Ops(log)) == p && Resume(s, log) == s;
      NothingRecorded(s);
    } else {
      var init, e := log[..|log| - 1], log[|log| - 1];
      assert log == init + [e] && Ops(log) == Ops(init) + [e.op];
      assert p + SetOf(Ops(log)) == (p + SetOf(Ops(init))) + {e.op};
      CoherentSub(p + SetOf(Ops(log)), p + SetOf(Ops(init)));
      ResumeRecords(s, p, init);
      var t := Resume(s, init);
      ApplyRemoteCore(t, e.op, Some(Context(e.seqno, e.atMs)), p + SetOf(Ops(init)));
      EntryKept(t, p + SetOf(Ops(init)), e.op, Context(e.seqno, e.atMs), LogDeletes(init));
      EntryFromLog(t, init, e);
      assert LogDeletes(log) == LogDeletes(init) + DeleteId(e.op);
    }
  }

  lemma NothingRecorded(s: State)
    requires s.deleteContext == map[]
    ensures FromLog(s, []) && Kept(s, LogDeletes([]))
  {
  }

  lemma SeededEmpty(r: nat, q: seq<Op>)
    ensures Deliver(Fresh(r), q).deleteContext == map[]
  {
    hide Deliver, TakeAll;
    TakeAllDelivers(Fresh(r), q);
    MessageForgets(Fresh(r), q);
    assert Fresh(r).deleteContext == map[];
    assert forall d :: d !in Deliver(Fresh(r), q).deleteContext;
  }

  /**
   * After a warm start a tombstone whose winning delete is in the replayed suffix has that entry's number and time on
   * record, and any other has none, so no collection takes it.
   */
  lemma WarmRecordsExactly(r: nat, snapshot: seq<Node>, suffix: seq<LogEntry>, n: Node)
    requires forall m :: m in snapshot && m.deleted ==> m.deletedBy.Some?
    requires Coherent(SetOf(SeedOps(snapshot)) + SetOf(Ops(suffix)))
    requires forall e, g :: e in suffix && g in suffix && e.op.id == g.op.id ==> e == g
    requires WarmStart(r, Some(snapshot), suffix).Some?
      && n in Flat(WarmStart(r, Some(snapshot), suffix).value.tree) && n.deletedBy.Some?
    ensures
      var w, d := WarmStart(r, Some(snapshot), suffix).value, n.deletedBy.value;
      && (d in w.deleteContext <==> d in LogDeletes(suffix))
      && forall e :: e in suffix && e.op == Delete(d, n.id) ==>
           d in w.deleteContext && w.deleteContext[d] == Context(e.seqno, e.atMs)
  {
    hide Core, WF, Drained, Coherent, Deliver, Resume, SeedOps;
    var s, p := Deliver(Fresh(r), SeedOps(snapshot)), SetOf(SeedOps(snapshot));
    FreshCore(r);
    assert {} + p == p;
    CoherentSub(p + SetOf(Ops(suffix)), p);
    DeliverCore(Fresh(r), {}, SeedOps(snapshot));
    SeededEmpty(r, SeedOps(snapshot));
    ResumeRecords(s, p, suffix);
    var w, d := Resume(s, suffix), n.deletedBy.value;
    if d in w.deleteContext { assert HasRecord(suffix, d, w.deleteContext[d]); }
  }
}
