/** Where the replicas' guarantees stop: a run in which one local apply fails. */
module ReplicaLimits {
  import opened ByteStrings
  import opened Wrappers
  import opened EngineSpec
  import opened EngineRuns
  import opened EngineCrash
  import opened RaftLog
  import opened RaftSnapshots
  import opened Replicas

  const KEY: Bytes := [1]
  const VALUE: Bytes := [2]
  const WRITE: Op := Op.Put(KEY, VALUE)

  ghost function Data(): Bytes
  {
    WriteIsValid();
    EncodeOp(WRITE)
  }

  lemma WriteIsValid()
    ensures OpError(WRITE) == None && EntryOp(EncodeOp(WRITE)) == Ok(WRITE)
  {
    EntryOpRoundTrip(WRITE);
  }

  /** Two replicas on equal databases; what they and the clients look like along the run. */
  ghost function Two(log: seq<Bytes>, r0: Replica, r1: Replica, writes: map<nat, Write>, gets: map<nat, Read>): Sys
  {
    Sys(log, [r0, r1], {}, writes, gets)
  }

  /** The write is committed, applied and acknowledged at node 0 and fails at node 1, which then leads and serves a
      read. */
  ghost function Trace(e: Engine): seq<Sys>
    requires Inv(e)
  {
    var d := Data();
    var before, failed := Replica(e, 0, 0, {}, {}), Replica(e, 1, 0, {0}, {0});
    var ahead := Replica(ApplyEntry(e, d), 1, 0, {}, {});
    var value := BytesOf(EngineSpec.Get(e, KEY));
    [Two([], before, before, map[], map[]),
     Two([], before, before, map[0 := Pending(d, 0)], map[]),
     Two([d], before, before, map[0 := Committed(d, 0, 0)], map[]),
     Two([d], ahead, before, map[0 := Committed(d, 0, 0)], map[]),
     Two([d], ahead, failed, map[0 := Committed(d, 0, 0)], map[]),
     Two([d], ahead, failed, map[0 := Acked(d, 0)], map[]),
     Two([d], ahead, failed, map[0 := Acked(d, 0)], map[1 := Checked(1, KEY, 1, {0})]),
     Two([d], ahead, failed, map[0 := Acked(d, 0)], map[1 := Fenced(1, KEY, 1, {0}, 1)]),
     Two([d], ahead, failed, map[0 := Acked(d, 0)], map[1 := Ready(1, KEY, 1, {0})]),
     Two([d], ahead, failed, map[0 := Acked(d, 0)], map[1 := Done(KEY, 1, {0}, 1, {0}, value)])]
  }

  function Acts(e: Engine): seq<Act>
  {
    [Submit(0, 0, WRITE), Commit(0), Apply(0), ApplyFailed(1, e), Ack(0), StartRead(1, 1, KEY), Fence(1),
        FenceDone(1), Answer(1)]
  }

  ghost predicate Moves(s: Sys, act: Act, s': Sys)
  {
    Engines(s) && Enabled(s, act) && s' == Next(s, act)
  }

  lemma FailureWithoutEffect(e: Engine)
    requires Inv(e)
    ensures Failed(e, WRITE, e)
  {
    hide Inv, View;
    WriteIsValid();
    var r := OpRecord(WRITE);
    assert e.store.wal + Codec.Layout(r)[..0] == e.store.wal;
    assert e.store == PartLog(e, r, 0);
  }

  lemma WriteMoves(e: Engine)
    requires Inv(e)
    ensures Moves(Trace(e)[0], Acts(e)[0], Trace(e)[1]) && Moves(Trace(e)[1], Acts(e)[1], Trace(e)[2])
  {
    hide Inv, EncodeOp, ApplyEntry, EngineSpec.Get;
    WriteIsValid();
  }

  lemma ApplyMoves(e: Engine)
    requires Inv(e) && Roomy(e)
    ensures Moves(Trace(e)[2], Acts(e)[2], Trace(e)[3])
  {
    hide Inv, EncodeOp, EntryOp, ApplyEntry, EngineSpec.Get, Failed, Roomy, Step, OpError, View;
    ApplyEntryRefines(e, Data());
  }

  lemma FailMoves(e: Engine)
    requires Inv(e) && Roomy(e) && Abs(e) == map[]
    ensures Moves(Trace(e)[3], Acts(e)[3], Trace(e)[4])
  {
    hide Inv, EncodeOp, EntryOp, ApplyEntry, EngineSpec.Get, Failed, Roomy, Step, OpError, Abs, MissedAfter;
    WriteIsValid();
    FailureWithoutEffect(e);
    ApplyEntryRefines(e, Data());
    assert NextOp(Trace(e)[3], 1) == Some(WRITE);
    MissesWrite(e);
    assert Replica(e, 0, 0, {}, {}).failed + {0} == {0};
  }

  lemma MissesWrite(e: Engine)
    requires Abs(e) == map[]
    ensures MissedAfter(Replica(e, 0, 0, {}, {}), Data(), e) == {0}
  {
    hide EncodeOp, EntryOp, Abs, Data;
    LogOfOne();
    var written: map<Bytes, Bytes> := map[KEY := VALUE];
    assert KEY in written;
  }

  lemma AckMoves(e: Engine)
    requires Inv(e) && Roomy(e)
    ensures Moves(Trace(e)[4], Acts(e)[4], Trace(e)[5])
  {
    hide Inv, EncodeOp, EntryOp, ApplyEntry, EngineSpec.Get, Failed, Roomy, Step, OpError, View;
    ApplyEntryRefines(e, Data());
  }

  lemma OneAcked(s: Sys)
    requires s.writes.Keys == {0} && s.writes[0].Acked?
    ensures AckedPositions(s) == {s.writes[0].index}
  {
    assert forall q :: q in s.writes <==> q == 0;
  }

  lemma StartMoves(e: Engine)
    requires Inv(e) && Roomy(e)
    ensures Moves(Trace(e)[5], Acts(e)[5], Trace(e)[6])
  {
    hide Inv, EncodeOp, EntryOp, ApplyEntry, EngineSpec.Get, Failed, Roomy, Step, OpError, View;
    ApplyEntryRefines(e, Data());
    OneAcked(Trace(e)[5]);
  }

  lemma FenceMoves(e: Engine)
    requires Inv(e) && Roomy(e)
    ensures Moves(Trace(e)[6], Acts(e)[6], Trace(e)[7])
  {
    hide Inv, EncodeOp, EntryOp, ApplyEntry, EngineSpec.Get, Failed, Roomy, Step, OpError, View;
    ApplyEntryRefines(e, Data());
  }

  lemma FenceDoneMoves(e: Engine)
    requires Inv(e) && Roomy(e)
    ensures Moves(Trace(e)[7], Acts(e)[7], Trace(e)[8])
  {
    hide Inv, EncodeOp, EntryOp, ApplyEntry, EngineSpec.Get, Failed, Roomy, Step, OpError, View;
    ApplyEntryRefines(e, Data());
  }

  lemma AnswerMoves(e: Engine)
    requires Inv(e) && Roomy(e)
    ensures Moves(Trace(e)[8], Acts(e)[8], Trace(e)[9])
  {
    hide Inv, EncodeOp, EntryOp, ApplyEntry, EngineSpec.Get, Failed, Roomy, Step, OpError, View;
    ApplyEntryRefines(e, Data());
  }

  lemma TraceRuns(e: Engine)
    requires Good(e) && Abs(e) == map[]
    ensures Runs(Trace(e), Acts(e))
  {
    hide Good, Roomy, Tidy, Durable, Inv, Abs, Data, ApplyEntry, EngineSpec.Get, Engines, Enabled, Next;
    GoodParts(e);
    WriteMoves(e);
    ApplyMoves(e);
    FailMoves(e);
    AckMoves(e);
    StartMoves(e);
    FenceMoves(e);
    FenceDoneMoves(e);
    AnswerMoves(e);
  }

  lemma GoodParts(e: Engine)
    requires Good(e)
    ensures Inv(e) && Roomy(e) && Sound(e)
  {
  }

  /** One failed apply is enough to part two replicas until the log is applied anew: both have applied all of it, one
      answers the acknowledged write, and the other, though it leads and has passed its barrier, does not. */
  lemma FailedApplyDiverges(e: Engine)
    requires Good(e) && Abs(e) == map[]
    ensures Runs(Trace(e), Acts(e))
    ensures var s := Trace(e)[9];
            && s.replicas[0].applied == s.replicas[1].applied == |s.log| && LogState(s.log) == map[KEY := VALUE]
            && BytesOf(EngineSpec.Get(s.replicas[0].engine, KEY)) == VALUE
            && BytesOf(EngineSpec.Get(s.replicas[1].engine, KEY)) == []
            && s.writes[0].Acked? && s.gets[1].Done? && s.writes[0].index in s.gets[1].before && s.gets[1].value == []
  {
    hide Good, Roomy, Tidy, Durable, Inv, Abs, ApplyEntry, EngineSpec.Get, EncodeOp, EntryOp, OpError, Runs;
    TraceRuns(e);
    GoodParts(e);
    WriteIsValid();
    ApplyEntryRefines(e, Data());
    GetReadsFlat(e, KEY);
    GetReadsFlat(ApplyEntry(e, Data()), KEY);
    LogOfOne();
  }

  lemma LogOfOne()
    ensures LogState([Data()]) == FlatApply(map[], Data()) == map[KEY := VALUE]
  {
    hide EncodeOp, EntryOp;
    WriteIsValid();
    assert [Data()][..0] == [];
  }
}
