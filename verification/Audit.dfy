/** Replaying the persisted log from the start, and locating the first snapshot that disagrees with it. */
module Audit {
  import opened Identifiers
  import opened FugueShape
  import opened EngineState
  import opened Convergence
  import opened Seed
  import opened Engines
  import opened SnapshotSeed

  predicate SeqOrdered(log: seq<LogEntry>) {
    forall i, j :: 0 <= i < j < |log| ==> log[i].seqno < log[j].seqno
  }

  /** How many entries of the log come before the first beyond `through`. */
  function CutOff(log: seq<LogEntry>, through: nat): (n: nat)
    ensures n <= |log|
  {
    if log == [] || log[0].seqno > through then 0 else 1 + CutOff(log[1..], through)
  }

  /** In a log ordered by sequence number these are exactly the entries up to `through`. */
  lemma {:induction false} CutOffExact(log: seq<LogEntry>, through: nat)
    requires SeqOrdered(log)
    ensures forall i :: 0 <= i < |log| ==> (log[i].seqno <= through <==> i < CutOff(log, through))
  {
    if log != [] && log[0].seqno <= through {
      CutOffExact(log[1..], through);
      forall i | 0 < i < |log| ensures log[i].seqno <= through <==> i < CutOff(log, through) {
        assert log[i] == log[1..][i - 1];
      }
    }
  }

  lemma CutOffStops(log: seq<LogEntry>, through: nat, i: nat)
    requires i < |log| && i <= CutOff(log, through)
    ensures i == CutOff(log, through) <==> log[i].seqno > through
  {
    if i > 0 { CutOffStops(log[1..], through, i - 1); }
  }

  /** The state a full replay of the log up to `through` reaches. */
  function Genesis(log: seq<LogEntry>, through: nat): State {
    Deliver(Fresh(0), Ops(log[..CutOff(log, through)]))
  }

  method ReplayThrough(log: seq<LogEntry>, through: nat) returns (engine: Engine)
    ensures fresh(engine) && fresh(engine.tree) && engine.Valid() && engine.Abs() == Genesis(log, through)
  {
    hide Unique, EngineState.ApplyRemote;
    engine := new Engine(0);
    var i := 0;
    assert Ops(log[..0]) == [];
    while i < |log|
      invariant i <= CutOff(log, through) && fresh(engine) && fresh(engine.tree)
      invariant engine.Valid() && engine.Abs() == Deliver(Fresh(0), Ops(log[..i]))
    {
      CutOffStops(log, through, i);
      if log[i].seqno > through {
        break;
      }
      assert Ops(log[..i + 1]) == Ops(log[..i]) + [log[i].op];
      DeliverNext(Fresh(0), Ops(log[..i]), log[i].op);
      var _ := engine.ApplyRemote(log[i].op, None);
      i := i + 1;
    }
  }

  datatype Snapshot = Snapshot(seqno: nat, content: seq<nat>)

  /** A snapshot shows what a full replay through its own sequence number shows. */
  predicate Matches(log: seq<LogEntry>, snap: Snapshot) {
    Text(Genesis(log, snap.seqno).tree) == snap.content
  }

  /** `matches` in the bisection: replay and compare. */
  method CheckSnapshot(log: seq<LogEntry>, snap: Snapshot) returns (same: bool)
    ensures same <==> Matches(log, snap)
  {
    var engine := ReplayThrough(log, snap.seqno);
    var text := engine.Text();
    same := text == snap.content;
  }

  /**
   * Called when the last snapshot disagrees.  The one found disagrees, and the one before it (if
   * any) agrees; so it is the first that disagrees whenever agreement is never regained.
   */
  method BisectSnapshotDivergence(log: seq<LogEntry>, snapshots: seq<Snapshot>) returns (firstBad: nat)
    requires snapshots != [] && !Matches(log, snapshots[|snapshots| - 1])
    ensures firstBad < |snapshots| && !Matches(log, snapshots[firstBad])
    ensures firstBad > 0 ==> Matches(log, snapshots[firstBad - 1])
    ensures (forall i, j :: 0 <= i < j < |snapshots| && !Matches(log, snapshots[i]) ==> !Matches(log, snapshots[j])) ==>
              forall i :: 0 <= i < |snapshots| ==> (Matches(log, snapshots[i]) <==> i < firstBad)
  {
    var lo, hi := 0, |snapshots| - 1;
    firstBad := |snapshots| - 1;
    while lo <= hi
      invariant 0 <= lo <= hi + 1 <= |snapshots| && firstBad < |snapshots|
      invariant firstBad == hi + 1 || (firstBad == hi && hi == |snapshots| - 1)
      invariant !Matches(log, snapshots[firstBad]) && (lo > 0 ==> Matches(log, snapshots[lo - 1]))
      decreases hi - lo
    {
      var mid := (lo + hi) / 2;
      var same := CheckSnapshot(log, snapshots[mid]);
      if same {
        lo := mid + 1;
      } else {
        firstBad := mid;
        hi := mid - 1;
      }
    }
  }
}
