/** Applying log entries to a database, and continuing a log on top of a restored snapshot. */
module RaftSnapshots {
  import opened ByteStrings
  import opened Wrappers
  import MemTables
  import opened EngineSpec
  import opened EngineRuns
  import opened RaftLog

  /** FSM.Apply on the engine. */
  ghost function ApplyEntry(e: Engine, data: Bytes): Engine
    requires Inv(e)
  {
    if EntryOp(data).Ok? then Step(e, EntryOp(data).value) else e
  }

  /** An entry does to the flat map what the log's meaning says. */
  lemma ApplyEntryRefines(e: Engine, data: Bytes)
    requires Sound(e)
    ensures Sound(ApplyEntry(e, data)) && Abs(ApplyEntry(e, data)) == FlatApply(Abs(e), data)
    ensures Tidy(e) ==> Tidy(ApplyEntry(e, data))
  {
    hide Inv, Roomy, Tidy, Abs, Step, OpError;
    if EntryOp(data).Ok? {
      StepRefines(e, EntryOp(data).value);
    }
  }

  ghost function ApplyEntries(e: Engine, log: seq<Bytes>): (r: Engine)
    requires Sound(e)
    ensures Sound(r) && Abs(r) == ApplyAll(Abs(e), log)
  {
    if log == [] then e else
      var before := ApplyEntries(e, log[..|log| - 1]);
      ApplyEntryRefines(before, log[|log| - 1]);
      ApplyEntry(before, log[|log| - 1])
  }

  /** Snapshot plus tail is the whole log: a snapshot taken where prefix i has been applied, restored into any database
      whatever it held, and then the entries from i on, give what the whole log gives an empty database. */
  lemma SnapshotPlusTail(e: Engine, target: Engine, log: seq<Bytes>, i: nat)
    requires Sound(e) && i <= |log| && Abs(e) == LogState(log[..i]) && |Step(e, Op.Snapshot).tables| <= 10000
    requires Sound(target)
    ensures var r := Restored(target.limit, SnapshotOf(Step(e, Op.Snapshot)));
            && LoadError(SnapshotOf(Step(e, Op.Snapshot)), SstFiles(SnapshotOf(Step(e, Op.Snapshot)))) == None
            && Sound(r) && Abs(ApplyEntries(r, log[i..])) == LogState(log)
            && forall key :: BytesOf(Get(ApplyEntries(r, log[i..]), key)) == ReadFlat(LogState(log), key)
  {
    hide Inv, Tidy, Roomy, View, Live, TriggerFlush, SnapshotOf, Restored, ApplyEntries, SstFiles, ApplyAll, Get;
    SnapshotIsFlush(e);
    var f := Step(e, Op.Snapshot);
    SnapshotRestores(f, target.limit);
    RestoredRoomy(target, SnapshotOf(f));
    var r := Restored(target.limit, SnapshotOf(f));
    ApplyAllSplit(map[], log, i);
    var done := ApplyEntries(r, log[i..]);
    forall key ensures BytesOf(Get(done, key)) == ReadFlat(Abs(done), key) {
      GetReadsFlat(done, key);
    }
  }

  lemma SnapshotIsFlush(e: Engine)
    requires Inv(e)
    ensures var f := Step(e, Op.Snapshot); Inv(f) && Tidy(f) && f.mem == map[] && View(f) == View(e)
  {
    hide Inv, Tidy, View, TriggerFlush;
    FlushKeeps(e);
  }

  lemma RestoredRoomy(target: Engine, files: map<Bytes, Bytes>)
    requires Roomy(target)
    ensures Roomy(Restored(target.limit, files))
  {
    MemTables.TotalZero(map[]);
  }
}
