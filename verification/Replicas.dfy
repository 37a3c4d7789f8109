/** Replicas, clients and one committed log as a step model: leaders may change at any time, replicas may stop at any
    byte, flush, compact, snapshot and restart as they like and fail at all of it, and a read is fenced by a barrier
    before it touches the local database. */
module Replicas {
  import opened ByteStrings
  import opened Wrappers
  import MemTables
  import opened EngineSpec
  import opened EngineRuns
  import opened EngineCrash
  import opened RaftLog
  import opened RaftSnapshots

  /** One node's database, the number of log entries its state machine has applied since it last started from a snapshot
      or from scratch, and, as history only, the longest prefix its files may already have held then, the entries whose
      apply reported an I/O error, and those of them that did not take effect: raft counts all of them as applied, and
      only the response carries the error. */
  datatype Replica = Replica(engine: Engine, applied: nat, hi: nat, missed: set<nat>, failed: set<nat>)

  /** A snapshot taken of a flushed engine; its files are SnapshotOf(source). */
  datatype Snap = Snap(source: Engine, index: nat, hi: nat, missed: set<nat>)

  datatype Write =
    | Pending(data: Bytes, node: nat)
    | Committed(data: Bytes, node: nat, index: nat)
    | Acked(data: Bytes, index: nat)

  /** A read records the log length when it started and the positions of the writes acknowledged by then. */
  datatype Read =
    | Checked(node: nat, key: Bytes, start: nat, before: set<nat>)
    | Fenced(node: nat, key: Bytes, start: nat, before: set<nat>, fence: nat)
    | Ready(node: nat, key: Bytes, start: nat, before: set<nat>)
    | Done(key: Bytes, start: nat, before: set<nat>, at: nat, missed: set<nat>, value: Bytes)

  datatype Sys = Sys(log: seq<Bytes>, replicas: seq<Replica>, snaps: set<Snap>, writes: map<nat, Write>,
      gets: map<nat, Read>)

  datatype Act =
    | Submit(req: nat, node: nat, op: Op)             // RaftStore.Put or Delete at a node that believes it leads
    | Commit(req: nat)                                // the entry takes the next log position
    | CommitOther(data: Bytes)                        // an entry from elsewhere
    | Apply(node: nat)                                // FSM.Apply of the next entry
    | ApplyFailed(node: nat, e: Engine)               // FSM.Apply of the next entry reports an I/O error and leaves e
    | Ack(req: nat)                                   // the apply future returns success to the client
    | StartRead(req: nat, node: nat, key: Bytes)      // RaftStore.Get passes checkLeader
    | Fence(req: nat)                                 // node.Barrier is issued
    | FenceDone(req: nat)                             // node.Barrier returns
    | Answer(req: nat)                                // db.Get
    | Maintain(node: nat, op: Op)                     // Flush or Compact
    | MaintainFailed(node: nat, op: Op, e: Engine)    // Flush, Compact or FSM.Snapshot reports an I/O error, leaves e
    | TakeSnapshot(node: nat)                         // FSM.Snapshot
    | Install(node: nat, snap: Snap)                  // FSM.Restore
    | Restart(node: nat, op: Op, left: Store, limit: nat, e: Engine)  // stopped inside op, reopened as e

  // ----- invariant -----

  ghost predicate ReplicaOk(log: seq<Bytes>, r: Replica)
  {
    Sound(r.engine) && Reflects(Abs(r.engine), log, r.applied, r.hi, r.missed)
  }

  ghost predicate SnapOk(log: seq<Bytes>, s: Snap)
  {
    Inv(s.source) && Tidy(s.source) && s.source.mem == map[] && Reflects(Abs(s.source), log, s.index, s.hi, s.missed)
  }

  ghost predicate WriteOk(log: seq<Bytes>, w: Write)
  {
    !w.Pending? ==> w.index < |log| && log[w.index] == w.data
  }

  ghost predicate ReadOk(log: seq<Bytes>, replicas: seq<Replica>, r: Read)
  {
    && r.start <= |log|
    && (forall w :: w in r.before ==> w < r.start)
    && (!r.Done? ==> r.node < |replicas|)
    && match r
       case Checked(_, _, _, _) => true
       case Fenced(_, _, start, _, fence) => start <= fence <= |log|
       case Ready(node, _, start, _) => start <= replicas[node].applied
       case Done(key, start, _, at, missed, value) =>
         && start <= at <= |log|
         && (Touched(log[..at], key) && !Missing(log[..at], missed, key) ==>
             value == ReadFlat(LogState(log[..at]), key))
  }

  ghost predicate ReplicasOk(log: seq<Bytes>, replicas: seq<Replica>)
  {
    forall i :: 0 <= i < |replicas| ==> ReplicaOk(log, replicas[i])
  }

  ghost predicate SnapsOk(log: seq<Bytes>, snaps: set<Snap>)
  {
    forall s :: s in snaps ==> SnapOk(log, s)
  }

  ghost predicate WritesOk(log: seq<Bytes>, writes: map<nat, Write>)
  {
    forall q :: q in writes ==> WriteOk(log, writes[q])
  }

  ghost predicate ReadsOk(log: seq<Bytes>, replicas: seq<Replica>, gets: map<nat, Read>)
  {
    forall q :: q in gets ==> ReadOk(log, replicas, gets[q])
  }

  ghost predicate SysInv(s: Sys)
  {
    ReplicasOk(s.log, s.replicas) && SnapsOk(s.log, s.snaps) && WritesOk(s.log, s.writes)
        && ReadsOk(s.log, s.replicas, s.gets)
  }

  // ----- steps -----

  ghost predicate Engines(s: Sys)
  {
    forall i :: 0 <= i < |s.replicas| ==> Inv(s.replicas[i].engine)
  }

  function NextOp(s: Sys, node: nat): Option<Op>
    requires node < |s.replicas|
  {
    var a := s.replicas[node].applied;
    if a < |s.log| && EntryOp(s.log[a]).Ok? then Some(EntryOp(s.log[a]).value) else None
  }

  ghost predicate Enabled(s: Sys, act: Act)
    requires Engines(s)
  {
    match act
    case Submit(req, node, op) =>
      req !in s.writes && node < |s.replicas| && (op.Put? || op.Delete?) && OpError(op) == None
    case Commit(req) => req in s.writes && s.writes[req].Pending?
    case CommitOther(_) => true
    case Apply(node) => node < |s.replicas| && s.replicas[node].applied < |s.log|
    case ApplyFailed(node, e) =>
      node < |s.replicas| && NextOp(s, node).Some? && Failed(s.replicas[node].engine, NextOp(s, node).value, e)
          && Roomy(e)
    case Ack(req) =>
      && req in s.writes && s.writes[req].Committed? && s.writes[req].node < |s.replicas|
      && s.writes[req].index < s.replicas[s.writes[req].node].applied
      && s.writes[req].index !in s.replicas[s.writes[req].node].failed
    case StartRead(req, node, key) => req !in s.gets && node < |s.replicas| && key != []
    case Fence(req) => req in s.gets && s.gets[req].Checked?
    case FenceDone(req) =>
      req in s.gets && s.gets[req].Fenced? && s.gets[req].node < |s.replicas|
      && s.gets[req].fence <= s.replicas[s.gets[req].node].applied
    case Answer(req) => req in s.gets && s.gets[req].Ready? && s.gets[req].node < |s.replicas|
    case Maintain(node, op) => node < |s.replicas| && (op.Flush? || op.Compact?)
    case MaintainFailed(node, op, e) =>
      node < |s.replicas| && (op.Flush? || op.Compact? || op.Snapshot?) && Failed(s.replicas[node].engine, op, e)
          && Roomy(e)
    case TakeSnapshot(node) => node < |s.replicas|
    case Install(node, snap) =>
      node < |s.replicas| && snap in s.snaps && s.replicas[node].applied <= snap.index && |snap.source.tables| <= 10000
    case Restart(node, op, left, limit, e) =>
      && node < |s.replicas|
      && (op.Flush? || op.Compact? || op.Snapshot? || NextOp(s, node) == Some(op))
      && MayHappen(s.replicas[node].engine, Crash(op, left, limit), e)
      && Happens(s.replicas[node].engine, Crash(op, left, limit), e)
  }

  ghost function AckedPositions(s: Sys): set<nat>
  {
    set q | q in s.writes && s.writes[q].Acked? :: s.writes[q].index
  }

  /** Requests in progress at a node do not survive its process. */
  function DropReads(gets: map<nat, Read>, node: nat): map<nat, Read>
  {
    map q | q in gets && (gets[q].Done? || gets[q].node != node) :: gets[q]
  }

  ghost function SetReplica(s: Sys, node: nat, r: Replica): Sys
    requires node < |s.replicas|
  {
    s.(replicas := s.replicas[node := r])
  }

  /** An apply that reported an error and left e has missed its entry unless e shows it. */
  ghost function MissedAfter(r: Replica, data: Bytes, e: Engine): set<nat>
  {
    if Abs(e) == FlatApply(Abs(r.engine), data) then r.missed else r.missed + {r.applied}
  }

  ghost function Next(s: Sys, act: Act): Sys
    requires Engines(s) && Enabled(s, act)
  {
    match act
    case Submit(req, node, op) => s.(writes := s.writes[req := Pending(EncodeOp(op), node)])
    case Commit(req) =>
      var w := s.writes[req];
      s.(log := s.log + [w.data], writes := s.writes[req := Committed(w.data, w.node, |s.log|)])
    case CommitOther(data) => s.(log := s.log + [data])
    case Apply(node) =>
      var r := s.replicas[node];
      SetReplica(s, node, r.(engine := ApplyEntry(r.engine, s.log[r.applied]), applied := r.applied + 1))
    case ApplyFailed(node, e) =>
      var r := s.replicas[node];
      SetReplica(s, node, Replica(e, r.applied + 1, r.hi, MissedAfter(r, s.log[r.applied], e), r.failed + {r.applied}))
    case Ack(req) =>
      var w := s.writes[req];
      s.(writes := s.writes[req := Acked(w.data, w.index)])
    case StartRead(req, node, key) => s.(gets := s.gets[req := Checked(node, key, |s.log|, AckedPositions(s))])
    case Fence(req) =>
      var r := s.gets[req];
      s.(gets := s.gets[req := Fenced(r.node, r.key, r.start, r.before, |s.log|)])
    case FenceDone(req) =>
      var r := s.gets[req];
      s.(gets := s.gets[req := Ready(r.node, r.key, r.start, r.before)])
    case Answer(req) =>
      var r := s.gets[req];
      var value := BytesOf(EngineSpec.Get(s.replicas[r.node].engine, r.key));
      var p := s.replicas[r.node];
      s.(gets := s.gets[req := Done(r.key, r.start, r.before, p.applied, p.missed, value)])
    case Maintain(node, op) =>
      var r := s.replicas[node];
      SetReplica(s, node, r.(engine := Step(r.engine, op)))
    case MaintainFailed(node, _, e) =>
      var r := s.replicas[node];
      SetReplica(s, node, r.(engine := e))
    case TakeSnapshot(node) =>
      var r := s.replicas[node];
      var e := Step(r.engine, Op.Snapshot);
      SetReplica(s, node, r.(engine := e)).(snaps := s.snaps + {Snap(e, r.applied, r.hi, r.missed)})
    case Install(node, snap) =>
      var e := Restored(s.replicas[node].engine.limit, SnapshotOf(snap.source));
      SetReplica(s, node, Replica(e, snap.index, snap.hi, snap.missed, s.replicas[node].failed))
    case Restart(node, op, _, _, e) =>
      var r := s.replicas[node];
      var top := if op.Put? || op.Delete? then r.applied + 1 else r.applied;
      SetReplica(s, node, Replica(e, 0, if top > r.hi then top else r.hi, {}, {})).(gets := DropReads(s.gets, node))
  }

  // ----- every step keeps the invariant -----

  lemma InvEngines(s: Sys)
    requires SysInv(s)
    ensures Engines(s)
  {
    hide Reflects, Inv;
  }

  lemma LongerReplica(log: seq<Bytes>, r: Replica, data: Bytes)
    requires ReplicaOk(log, r)
    ensures ReplicaOk(log + [data], r)
  {
    hide Sound, Reflects, Abs;
    ReflectsLonger(Abs(r.engine), log, r.applied, r.hi, r.missed, data);
  }

  lemma LongerRead(log: seq<Bytes>, replicas: seq<Replica>, r: Read, data: Bytes)
    requires ReadOk(log, replicas, r)
    ensures ReadOk(log + [data], replicas, r)
  {
    hide Touched, LogState, Version;
    if r.Done? {
      assert (log + [data])[..r.at] == log[..r.at];
    }
  }

  /** A longer log takes nothing back. */
  lemma LongerLog(s: Sys, data: Bytes)
    requires SysInv(s)
    ensures SysInv(s.(log := s.log + [data]))
  {
    hide ReplicaOk, ReadOk, Reflects, Inv;
    forall i | 0 <= i < |s.replicas| ensures ReplicaOk(s.log + [data], s.replicas[i]) {
      LongerReplica(s.log, s.replicas[i], data);
    }
    forall sn | sn in s.snaps ensures SnapOk(s.log + [data], sn) {
      ReflectsLonger(Abs(sn.source), s.log, sn.index, sn.hi, sn.missed, data);
    }
    forall q | q in s.gets ensures ReadOk(s.log + [data], s.replicas, s.gets[q]) {
      LongerRead(s.log, s.replicas, s.gets[q], data);
    }
  }

  /** Replacing a replica by a good one that is no further behind keeps the system good. */
  lemma ReplicaForward(s: Sys, node: nat, r: Replica)
    requires SysInv(s) && node < |s.replicas| && ReplicaOk(s.log, r) && s.replicas[node].applied <= r.applied
    ensures SysInv(SetReplica(s, node, r))
  {
    hide ReplicaOk, SnapsOk, WritesOk, Touched, LogState;
    var s' := SetReplica(s, node, r);
    forall q | q in s.gets ensures ReadOk(s.log, s'.replicas, s.gets[q]) {
      assert ReadOk(s.log, s.replicas, s.gets[q]);
    }
  }

  /** A replica may also start over if its requests in progress are dropped. */
  lemma ReplicaRestarted(s: Sys, node: nat, r: Replica)
    requires SysInv(s) && node < |s.replicas| && ReplicaOk(s.log, r)
    ensures SysInv(SetReplica(s, node, r).(gets := DropReads(s.gets, node)))
  {
    hide ReplicaOk, SnapsOk, WritesOk, Touched, LogState;
    var s' := SetReplica(s, node, r);
    forall q | q in DropReads(s.gets, node) ensures ReadOk(s.log, s'.replicas, s.gets[q]) {
      assert ReadOk(s.log, s.replicas, s.gets[q]);
    }
  }

  lemma OneWrite(s: Sys, req: nat, w: Write)
    requires SysInv(s) && WriteOk(s.log, w)
    ensures SysInv(s.(writes := s.writes[req := w]))
  {
    hide ReplicasOk, SnapsOk, ReadsOk, WriteOk;
  }

  lemma OneRead(s: Sys, req: nat, r: Read)
    requires SysInv(s) && ReadOk(s.log, s.replicas, r)
    ensures SysInv(s.(gets := s.gets[req := r]))
  {
    hide ReplicasOk, SnapsOk, WritesOk, ReadOk;
  }

  lemma StepCommit(s: Sys, req: nat)
    requires SysInv(s) && Engines(s) && Enabled(s, Commit(req))
    ensures SysInv(Next(s, Commit(req)))
  {
    hide SysInv, Inv;
    var w := s.writes[req];
    LongerLog(s, w.data);
    OneWrite(s.(log := s.log + [w.data]), req, Committed(w.data, w.node, |s.log|));
  }

  lemma StepAck(s: Sys, req: nat)
    requires SysInv(s) && Engines(s) && Enabled(s, Ack(req))
    ensures SysInv(Next(s, Ack(req)))
  {
    hide ReplicasOk, SnapsOk, ReadsOk, Inv;
    assert WriteOk(s.log, s.writes[req]);
    OneWrite(s, req, Acked(s.writes[req].data, s.writes[req].index));
  }

  lemma AckedBelow(s: Sys)
    requires SysInv(s)
    ensures forall w :: w in AckedPositions(s) ==> w < |s.log|
  {
    hide ReplicasOk, SnapsOk, ReadsOk;
    forall w | w in AckedPositions(s) ensures w < |s.log| {
      var q :| q in s.writes && s.writes[q].Acked? && w == s.writes[q].index;
      assert WriteOk(s.log, s.writes[q]);
    }
  }

  lemma StepApply(s: Sys, node: nat)
    requires SysInv(s) && Engines(s) && Enabled(s, Apply(node))
    ensures SysInv(Next(s, Apply(node)))
  {
    hide SysInv, Sound, Reflects, Abs, Inv, ApplyEntry;
    var r := s.replicas[node];
    var data := s.log[r.applied];
    GoodReplica(s, node);
    ReflectsApply(Abs(r.engine), s.log, r.applied, r.hi, r.missed);
    ApplyEntryRefines(r.engine, data);
    ReplicaForward(s, node, r.(engine := ApplyEntry(r.engine, data), applied := r.applied + 1));
  }

  /** An apply that failed leaves its entry missed unless it took effect all the same. */
  lemma StepApplyFailed(s: Sys, node: nat, e: Engine)
    requires SysInv(s) && Engines(s) && Enabled(s, ApplyFailed(node, e))
    ensures SysInv(Next(s, ApplyFailed(node, e)))
  {
    hide SysInv, Reflects, Abs, Inv, Failed, Roomy, OpError;
    var r := s.replicas[node];
    GoodReplica(s, node);
    FailedFields(r.engine, NextOp(s, node).value, e);
    FailedShows(r.engine, NextOp(s, node).value, e);
    if Abs(e) == FlatApply(Abs(r.engine), s.log[r.applied]) {
      ReflectsApply(Abs(r.engine), s.log, r.applied, r.hi, r.missed);
    } else {
      ReflectsMiss(Abs(r.engine), Abs(e), s.log, r.applied, r.hi, r.missed);
    }
    var missed := MissedAfter(r, s.log[r.applied], e);
    ReplicaForward(s, node, Replica(e, r.applied + 1, r.hi, missed, r.failed + {r.applied}));
  }

  lemma StepMaintainFailed(s: Sys, node: nat, op: Op, e: Engine)
    requires SysInv(s) && Engines(s) && Enabled(s, MaintainFailed(node, op, e))
    ensures SysInv(Next(s, MaintainFailed(node, op, e)))
  {
    hide SysInv, Reflects, Abs, Inv, Failed, Roomy;
    var r := s.replicas[node];
    GoodReplica(s, node);
    FailedFields(r.engine, op, e);
    FailedShows(r.engine, op, e);
    ReplicaForward(s, node, r.(engine := e));
  }

  lemma GoodReplica(s: Sys, node: nat)
    requires SysInv(s) && node < |s.replicas|
    ensures ReplicaOk(s.log, s.replicas[node])
  {
    hide ReplicaOk;
  }

  lemma StepMaintain(s: Sys, node: nat, op: Op)
    requires SysInv(s) && Engines(s) && Enabled(s, Maintain(node, op))
    ensures SysInv(Next(s, Maintain(node, op)))
  {
    hide SysInv, Sound, Reflects, Abs, Inv, Step;
    var r := s.replicas[node];
    GoodReplica(s, node);
    StepRefines(r.engine, op);
    ReplicaForward(s, node, r.(engine := Step(r.engine, op)));
  }

  lemma StepTakeSnapshot(s: Sys, node: nat)
    requires SysInv(s) && Engines(s) && Enabled(s, TakeSnapshot(node))
    ensures SysInv(Next(s, TakeSnapshot(node)))
  {
    hide SysInv, Sound, Reflects, Abs, Inv, TriggerFlush, Tidy;
    var r := s.replicas[node];
    GoodReplica(s, node);
    StepRefines(r.engine, Op.Snapshot);
    FlushKeeps(r.engine);
    var e := Step(r.engine, Op.Snapshot);
    ReplicaForward(s, node, r.(engine := e));
    OneSnap(SetReplica(s, node, r.(engine := e)), Snap(e, r.applied, r.hi, r.missed));
  }

  lemma OneSnap(s: Sys, sn: Snap)
    requires SysInv(s) && SnapOk(s.log, sn)
    ensures SysInv(s.(snaps := s.snaps + {sn}))
  {
    hide ReplicasOk, WritesOk, ReadsOk, SnapOk;
  }

  lemma StepInstall(s: Sys, node: nat, sn: Snap)
    requires SysInv(s) && Engines(s) && Enabled(s, Install(node, sn))
    ensures SysInv(Next(s, Install(node, sn)))
  {
    hide SysInv, Reflects, View, Live, Inv, Tidy, SnapshotOf, Restored;
    var r := s.replicas[node];
    GoodReplica(s, node);
    GoodSnap(s, sn);
    SnapshotRestores(sn.source, r.engine.limit);
    RestoredLimit(r.engine.limit, SnapshotOf(sn.source));
    MemTables.TotalZero(map[]);
    ReplicaForward(s, node,
        Replica(Restored(r.engine.limit, SnapshotOf(sn.source)), sn.index, sn.hi, sn.missed, r.failed));
  }

  lemma GoodSnap(s: Sys, sn: Snap)
    requires SysInv(s) && sn in s.snaps
    ensures SnapOk(s.log, sn)
  {
    hide SnapOk;
  }

  lemma RestoredLimit(limit: nat, files: map<Bytes, Bytes>)
    ensures Restored(limit, files).limit == limit && Restored(limit, files).mem == map[]
  {
  }

  lemma StepRestart(s: Sys, node: nat, op: Op, left: Store, limit: nat, e: Engine)
    requires SysInv(s) && Engines(s) && Enabled(s, Restart(node, op, left, limit, e))
    ensures SysInv(Next(s, Restart(node, op, left, limit, e)))
  {
    hide SysInv, Sound, Reflects, Abs, Inv, Happens, MayHappen, FlatStep;
    var r := s.replicas[node];
    GoodReplica(s, node);
    ReflectsBounds(Abs(r.engine), s.log, r.applied, r.hi, r.missed);
    var took := EventRefines(r.engine, Crash(op, left, limit), e);
    var top := if op.Put? || op.Delete? then r.applied + 1 else r.applied;
    if (op.Put? || op.Delete?) && took {
      ReflectsApply(Abs(r.engine), s.log, r.applied, r.hi, r.missed);
      ReflectsRestart(Abs(e), s.log, r.applied + 1, r.hi, r.missed);
    } else {
      QuietStep(Abs(r.engine), op);
      ReflectsRestart(Abs(e), s.log, r.applied, r.hi, r.missed);
      ReflectsHigher(Abs(e), s.log, if r.applied > r.hi then r.applied else r.hi, if top > r.hi then top else r.hi);
    }
    ReplicaRestarted(s, node, Replica(e, 0, if top > r.hi then top else r.hi, {}, {}));
  }

  lemma QuietStep(m: map<Bytes, Bytes>, op: Op)
    ensures !op.Put? && !op.Delete? ==> FlatStep(m, op) == m
  {
  }

  lemma ReflectsHigher(m: map<Bytes, Bytes>, log: seq<Bytes>, hi: nat, hi': nat)
    requires Reflects(m, log, 0, hi, {}) && hi <= hi' <= |log|
    ensures Reflects(m, log, 0, hi', {})
  {
    hide Touches, ApplyAll, Missing;
    forall key | key in m && !Touched(log[..0], key) ensures Touched(log[..hi'], key) {
      TouchedPrefix(log, hi, hi', key);
    }
  }

  lemma ReflectsBounds(m: map<Bytes, Bytes>, log: seq<Bytes>, a: nat, hi: nat, missed: set<nat>)
    requires Reflects(m, log, a, hi, missed)
    ensures a <= |log| && hi <= |log|
  {
  }

  lemma ReflectsRead(m: map<Bytes, Bytes>, log: seq<Bytes>, a: nat, hi: nat, missed: set<nat>, key: Bytes)
    requires Reflects(m, log, a, hi, missed)
    ensures Touched(log[..a], key) && !Missing(log[..a], missed, key) ==>
            ReadFlat(m, key) == ReadFlat(LogState(log[..a]), key)
  {
    hide Touched, LogState, Missing;
    if Touched(log[..a], key) && !Missing(log[..a], missed, key) {
      assert SameAt(m, LogState(log[..a]), key);
    }
  }

  /** The local read behind a barrier. */
  lemma StepAnswer(s: Sys, req: nat)
    requires SysInv(s) && Engines(s) && Enabled(s, Answer(req))
    ensures SysInv(Next(s, Answer(req)))
  {
    hide SysInv, Reflects, Abs, Inv, EngineSpec.Get, Touched, LogState, Tidy, Roomy;
    var r := s.gets[req];
    var p := s.replicas[r.node];
    GoodReplica(s, r.node);
    GoodRead(s, req);
    GetReadsFlat(p.engine, r.key);
    ReflectsRead(Abs(p.engine), s.log, p.applied, p.hi, p.missed, r.key);
    ReflectsBounds(Abs(p.engine), s.log, p.applied, p.hi, p.missed);
    var value := BytesOf(EngineSpec.Get(p.engine, r.key));
    OneRead(s, req, Done(r.key, r.start, r.before, p.applied, p.missed, value));
  }

  lemma GoodRead(s: Sys, req: nat)
    requires SysInv(s) && req in s.gets
    ensures ReadOk(s.log, s.replicas, s.gets[req])
  {
    hide ReadOk;
  }

  lemma StepRead(s: Sys, act: Act)
    requires SysInv(s) && Engines(s) && Enabled(s, act) && (act.StartRead? || act.Fence? || act.FenceDone?)
    ensures SysInv(Next(s, act))
  {
    hide SysInv, Inv, AckedPositions, Touched, LogState;
    match act
    case StartRead(req, node, key) =>
      AckedBelow(s);
      OneRead(s, req, Checked(node, key, |s.log|, AckedPositions(s)));
    case Fence(req) =>
      var r := s.gets[req];
      GoodRead(s, req);
      OneRead(s, req, Fenced(r.node, r.key, r.start, r.before, |s.log|));
    case FenceDone(req) =>
      var r := s.gets[req];
      GoodRead(s, req);
      OneRead(s, req, Ready(r.node, r.key, r.start, r.before));
  }

  lemma StepSubmit(s: Sys, req: nat, node: nat, op: Op)
    requires SysInv(s) && Engines(s) && Enabled(s, Submit(req, node, op))
    ensures SysInv(Next(s, Submit(req, node, op)))
  {
    hide SysInv, Inv, EncodeOp, OpError;
    OneWrite(s, req, Pending(EncodeOp(op), node));
  }

  /** Every step of the system keeps its invariant. */
  lemma NextKeeps(s: Sys, act: Act)
    requires SysInv(s) && Engines(s) && Enabled(s, act)
    ensures SysInv(Next(s, act)) && Engines(Next(s, act))
  {
    hide SysInv, Engines, Enabled, Next;
    match act {
      case Submit(req, node, op) => StepSubmit(s, req, node, op);
      case Commit(req) => StepCommit(s, req);
      case CommitOther(data) => StepCommitOther(s, data);
      case Apply(node) => StepApply(s, node);
      case ApplyFailed(node, e) => StepApplyFailed(s, node, e);
      case Ack(req) => StepAck(s, req);
      case StartRead(_, _, _) => StepRead(s, act);
      case Fence(_) => StepRead(s, act);
      case FenceDone(_) => StepRead(s, act);
      case Answer(req) => StepAnswer(s, req);
      case Maintain(node, op) => StepMaintain(s, node, op);
      case MaintainFailed(node, op, e) => StepMaintainFailed(s, node, op, e);
      case TakeSnapshot(node) => StepTakeSnapshot(s, node);
      case Install(node, snap) => StepInstall(s, node, snap);
      case Restart(node, op, left, limit, e) => StepRestart(s, node, op, left, limit, e);
    }
    InvEngines(Next(s, act));
  }

  lemma StepCommitOther(s: Sys, data: Bytes)
    requires SysInv(s) && Engines(s) && Enabled(s, CommitOther(data))
    ensures SysInv(Next(s, CommitOther(data)))
  {
    hide SysInv, Inv;
    LongerLog(s, data);
  }

  // ----- runs -----

  /** Fresh databases, an empty log, nobody waiting. */
  ghost predicate Init(s: Sys)
  {
    && s.log == [] && s.snaps == {} && s.writes == map[] && s.gets == map[]
    && forall i :: 0 <= i < |s.replicas| ==>
         s.replicas[i].applied == 0 && s.replicas[i].hi == 0 && s.replicas[i].missed == s.replicas[i].failed == {}
             && Good(s.replicas[i].engine) && Abs(s.replicas[i].engine) == map[]
  }

  ghost predicate Runs(trace: seq<Sys>, acts: seq<Act>)
  {
    && |trace| == |acts| + 1 && Init(trace[0])
    && forall i :: 0 <= i < |acts| ==>
        Engines(trace[i]) && Enabled(trace[i], acts[i]) && trace[i + 1] == Next(trace[i], acts[i])
  }

  lemma InitOk(s: Sys)
    requires Init(s)
    ensures SysInv(s)
  {
    hide Sound, Durable, Reflects, Abs;
    ReflectsEmpty([]);
  }

  lemma {:induction false} RunsKeep(trace: seq<Sys>, acts: seq<Act>, n: nat)
    requires Runs(trace, acts) && n <= |acts|
    ensures |trace| == |acts| + 1 && SysInv(trace[n]) && Engines(trace[n])
  {
    hide SysInv, Engines, Enabled, Next, Init;
    if n == 0 {
      InitOk(trace[0]);
      InvEngines(trace[0]);
    } else {
      RunsKeep(trace, acts, n - 1);
      NextKeeps(trace[n - 1], acts[n - 1]);
    }
  }

  predicate NoFailedApply(acts: seq<Act>)
  {
    forall i :: 0 <= i < |acts| ==> !acts[i].ApplyFailed?
  }

  /** No replica, no snapshot and no answer has anything missing. */
  ghost predicate NothingMissed(s: Sys)
  {
    && (forall i :: 0 <= i < |s.replicas| ==> s.replicas[i].missed == {})
    && (forall sn :: sn in s.snaps ==> sn.missed == {})
    && (forall q :: q in s.gets && s.gets[q].Done? ==> s.gets[q].missed == {})
  }

  lemma NextMissesNothing(s: Sys, act: Act)
    requires NothingMissed(s) && Engines(s) && Enabled(s, act) && !act.ApplyFailed?
    ensures NothingMissed(Next(s, act))
  {
    hide Inv, Step, ApplyEntry, SnapshotOf, Restored, EngineSpec.Get, AckedPositions, MayHappen, Happens, Failed,
         EncodeOp, OpError;
  }

  lemma {:induction false} RunMissesNothing(trace: seq<Sys>, acts: seq<Act>, n: nat)
    requires Runs(trace, acts) && n <= |acts| && NoFailedApply(acts)
    ensures NothingMissed(trace[n])
  {
    hide NothingMissed, Engines, Enabled, Next;
    if n == 0 {
      InitMissesNothing(trace[0]);
    } else {
      RunMissesNothing(trace, acts, n - 1);
      NextMissesNothing(trace[n - 1], acts[n - 1]);
    }
  }

  lemma InitMissesNothing(s: Sys)
    requires Init(s)
    ensures NothingMissed(s)
  {
    hide Good, Abs;
  }

  /** Reads see acknowledged writes: in every run, a read that has returned answers from a log prefix that contains
      every write acknowledged before it started. For a key such a write is on, the answer is that prefix's value, so
      the version it shows is at least as new as each of those writes, unless the answering node has failed to apply the
      prefix's last entry on the key; in a run without failed applies always. */
  lemma ReadsSeeAcknowledgedWrites(trace: seq<Sys>, acts: seq<Act>, n: nat, q: nat, w: nat)
    requires Runs(trace, acts) && n <= |acts|
    requires q in trace[n].gets && trace[n].gets[q].Done? && w in trace[n].gets[q].before
    requires w < |trace[n].log| && Touches(trace[n].log[w], trace[n].gets[q].key)
    ensures var s, r := trace[n], trace[n].gets[q];
            && w < r.at <= |s.log|
            && w < Version(s.log[..r.at], r.key)
            && (Version(s.log[..r.at], r.key) - 1 !in r.missed || NoFailedApply(acts) ==>
                  r.value == ReadFlat(LogState(s.log[..r.at]), r.key))
  {
    hide SysInv, Runs, Touches, LogState, Touched, NoFailedApply;
    if NoFailedApply(acts) {
      RunMissesNothing(trace, acts, n);
    }
    RunsKeep(trace, acts, n);
    var s, r := trace[n], trace[n].gets[q];
    GoodRead(s, q);
    assert s.log[..r.at][w] == s.log[w];
    VersionSees(s.log[..r.at], w, r.key);
  }

  /** What has been read or started reading since an earlier point of the run. */
  ghost predicate Since(s: Sys, s': Sys)
  {
    && |s.log| <= |s'.log|
    && (forall q :: q in s'.gets && q !in s.gets ==> |s.log| <= s'.gets[q].start)
    && (forall q :: q in s.gets && s.gets[q].Done? ==> q in s'.gets && s'.gets[q] == s.gets[q])
  }

  lemma NextSince(s: Sys, act: Act)
    requires Engines(s) && Enabled(s, act)
    ensures Since(s, Next(s, act))
  {
    hide Inv, Step, ApplyEntry, SnapshotOf, Restored, EngineSpec.Get, AckedPositions, MayHappen, Happens, Failed,
         EncodeOp, OpError, MissedAfter;
  }

  lemma SinceTransitive(s0: Sys, s1: Sys, s2: Sys)
    requires Since(s0, s1) && Since(s1, s2)
    requires forall q :: q in s1.gets && q in s2.gets ==> s2.gets[q].start == s1.gets[q].start
    ensures Since(s0, s2)
  {
  }

  lemma StartStays(s: Sys, act: Act)
    requires Engines(s) && Enabled(s, act)
    ensures forall q :: q in s.gets && q in Next(s, act).gets ==> Next(s, act).gets[q].start == s.gets[q].start
  {
    hide Inv, Step, ApplyEntry, SnapshotOf, Restored, EngineSpec.Get, AckedPositions, MayHappen, Happens, Failed,
         EncodeOp, OpError, MissedAfter;
  }

  lemma {:induction false} RunSince(trace: seq<Sys>, acts: seq<Act>, m: nat, n: nat)
    requires Runs(trace, acts) && m <= n <= |acts|
    ensures Since(trace[m], trace[n])
    decreases n - m
  {
    hide Engines, Enabled, Next, Init, Since;
    if m == n {
      SinceSame(trace[m]);
    } else {
      RunSince(trace, acts, m, n - 1);
      NextSince(trace[n - 1], acts[n - 1]);
      StartStays(trace[n - 1], acts[n - 1]);
      SinceTransitive(trace[m], trace[n - 1], trace[n]);
    }
  }

  lemma SinceSame(s: Sys)
    ensures Since(s, s)
  {
  }

  /** Reads move forward: one that starts after another has returned, at whatever node, answers from at least as long a
      prefix of the log, so its version of any key is at least as new. */
  lemma ReadsMoveForward(trace: seq<Sys>, acts: seq<Act>, m: nat, n: nat, q: nat, q': nat, key: Bytes)
    requires Runs(trace, acts) && m <= n <= |acts|
    requires q in trace[m].gets && trace[m].gets[q].Done?
    requires q' !in trace[m].gets && q' in trace[n].gets && trace[n].gets[q'].Done?
    ensures var at, at' := trace[m].gets[q].at, trace[n].gets[q'].at;
            at <= at' <= |trace[n].log| && Version(trace[n].log[..at], key) <= Version(trace[n].log[..at'], key)
  {
    hide SysInv, Runs, Touches, LogState, Touched, Since, Version, Missing;
    RunsKeep(trace, acts, m);
    RunsKeep(trace, acts, n);
    RunSince(trace, acts, m, n);
    GoodRead(trace[m], q);
    GoodRead(trace[n], q');
    SinceParts(trace[m], trace[n], q');
    VersionGrows(trace[n].log, trace[m].gets[q].at, trace[n].gets[q'].at, key);
  }

  lemma SinceParts(s: Sys, s': Sys, q: nat)
    requires Since(s, s') && q in s'.gets && q !in s.gets
    ensures |s.log| <= |s'.log| && |s.log| <= s'.gets[q].start
  {
  }

  /** Convergence: replicas that have applied the same prefix, and again everything they had persisted, hold the log's
      state and answer alike on every key whose last entry neither of them failed to apply, whatever they flushed,
      compacted, snapshotted, restored or lost in restarts; in a run without failed applies on every key. */
  lemma ReplicasConverge(trace: seq<Sys>, acts: seq<Act>, n: nat, i: nat, j: nat, key: Bytes)
    requires Runs(trace, acts) && n <= |acts| && i < |trace[n].replicas| && j < |trace[n].replicas|
    requires trace[n].replicas[i].applied == trace[n].replicas[j].applied
    requires trace[n].replicas[i].hi <= trace[n].replicas[i].applied
             && trace[n].replicas[j].hi <= trace[n].replicas[j].applied
    ensures trace[n].replicas[i].applied <= |trace[n].log|
    ensures var s, a := trace[n], trace[n].replicas[i].applied;
            NoFailedApply(acts) || !(Missing(s.log[..a], s.replicas[i].missed, key)
                || Missing(s.log[..a], s.replicas[j].missed, key)) ==>
              && BytesOf(EngineSpec.Get(s.replicas[i].engine, key)) == ReadFlat(LogState(s.log[..a]), key)
              && BytesOf(EngineSpec.Get(s.replicas[j].engine, key)) == ReadFlat(LogState(s.log[..a]), key)
    ensures var s, a := trace[n], trace[n].replicas[i].applied;
            NoFailedApply(acts) || s.replicas[i].missed == {} ==> Abs(s.replicas[i].engine) == LogState(s.log[..a])
  {
    hide SysInv, Runs, Abs, Reflects, LogState, EngineSpec.Get, Inv, Roomy, Version, NoFailedApply;
    RunsKeep(trace, acts, n);
    if NoFailedApply(acts) {
      RunMissesNothing(trace, acts, n);
    }
    var s := trace[n];
    forall k | k == i || k == j ensures k < |s.replicas| && s.replicas[k].applied <= |s.log|
                                ensures s.replicas[k].missed == {} ==>
                                        Abs(s.replicas[k].engine) == LogState(s.log[..s.replicas[k].applied])
                                ensures !Missing(s.log[..s.replicas[k].applied], s.replicas[k].missed, key) ==>
                                          BytesOf(EngineSpec.Get(s.replicas[k].engine, key))
                                          == ReadFlat(LogState(s.log[..s.replicas[k].applied]), key) {
      GoodReplica(s, k);
      var p := s.replicas[k];
      ReflectsBounds(Abs(p.engine), s.log, p.applied, p.hi, p.missed);
      ReflectsCaughtUp(Abs(p.engine), s.log, p.applied, p.hi, p.missed);
      GetReadsFlat(p.engine, key);
    }
  }
}
