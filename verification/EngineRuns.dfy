/** Whole runs of the engine refine one flat last-writer-wins map. */
module EngineRuns {
  import opened ByteStrings
  import opened Wrappers
  import opened TableNames
  import opened Codec
  import opened RecordLog
  import opened MemTables
  import opened EngineSpec

  /** Reading through the layers is reading the flat map; a tombstone and an unknown key both read as no bytes. */
  lemma GetReadsFlat(e: Engine, key: Bytes)
    requires Inv(e)
    ensures BytesOf(Get(e, key)) == ReadFlat(Abs(e), key)
  {
    hide TablesView, CleanTable, Leftover, NoForeignTable, Total, SstName;
    ViewValid(e);
  }

  lemma ViewValid(e: Engine)
    requires Inv(e)
    ensures ValidMap(TablesView(e.store.dir, e.tables)) && ValidMap(View(e))
  {
    hide TablesView, Leftover, NoForeignTable, Total, SstName, AscendingRecords;
    TablesViewValid(e.store.dir, e.tables);
  }

  // ----- Put and Delete -----

  /** The record fits beside what the MemTable holds: 2^64 bytes would not fit in the process. */
  ghost predicate Fits(e: Engine, r: Record)
  {
    Total(e.mem[r.key := r]) < UINT64
  }

  lemma LoggedParts(e: Engine, r: Record)
    requires Valid(r)
    ensures Logged(e, r) == Engine(e.limit, Store(e.store.wal + Layout(r), e.store.dir), e.mem[r.key := r], e.tables)
  {
    hide Layout;
  }

  /** What is in the WAL matters only to the next Open. */
  lemma WalIrrelevant(e: Engine, wal: Bytes)
    requires Inv(e)
    ensures var e1 := e.(store := e.store.(wal := wal)); Inv(e1) && View(e1) == View(e) && (Tidy(e) ==> Tidy(e1))
  {
    hide SstName, IsSst, CleanTable, Leftover, Total, ValidMap, TablesView;
  }

  lemma LoggedDurable(e: Engine, r: Record)
    requires Durable(e) && Valid(r)
    ensures Durable(Logged(e, r))
  {
    hide Parse, Layout, Fold;
    ParseOne(r, []);
    assert Layout(r) + [] == Layout(r);
    ParseEmpty();
    var recs := Parse(e.store.wal).recs;
    ParseAppend(e.store.wal, Layout(r));
    assert [r] + [] == [r];
    FoldSnoc(recs, r);
  }

  lemma LoggedInv(e: Engine, r: Record)
    requires Inv(e) && Valid(r) && Fits(e, r)
    ensures Inv(Logged(e, r)) && View(Logged(e, r)) == View(e)[r.key := r]
    ensures Tidy(e) ==> Tidy(Logged(e, r))
  {
    hide TablesInv, NoForeignTable, SstName, Total, Valid, Contents, TablesView, AllValid, AscendingRecords;
  }

  /** Put and Delete: the view gains exactly the new record, whether or not a flush follows. */
  lemma WriteRecordKeeps(e: Engine, r: Record)
    requires Inv(e) && Valid(r) && Fits(e, r)
    ensures Inv(WriteRecord(e, r)) && View(WriteRecord(e, r)) == View(e)[r.key := r]
    ensures Tidy(e) ==> Tidy(WriteRecord(e, r))
    ensures Durable(e) ==> Durable(WriteRecord(e, r))
    ensures WriteRecord(e, r).limit == e.limit && (e.limit > 0 ==> Total(WriteRecord(e, r).mem) < e.limit)
  {
    hide Inv, Tidy, Durable, View;
    InvBasics(e);
    LoggedInv(e, r);
    if Durable(e) {
      LoggedDurable(e, r);
    }
    FlushKeeps(Logged(e, r));
    TotalZero(map[]);
  }

  lemma LiveUpdate(v: map<Bytes, Record>, r: Record)
    ensures Live(v[r.key := r]) == if r.typ == TYPE_PUT then Live(v)[r.key := r.value] else Live(v) - {r.key}
  {
  }

  // ----- Compact -----

  lemma LivePuts(v: map<Bytes, Record>, mem: map<Bytes, Record>)
    ensures Live(PutsOnly(v) + mem) == Live(v + mem)
  {
  }

  lemma CompactedLive(e: Engine) returns (f: Engine, live: map<Bytes, Record>)
    requires Inv(e)
    ensures Inv(f) && f == TriggerFlush(e) && f.mem == map[] && Abs(f) == Abs(e)
    ensures live == PutsOnly(TablesView(f.store.dir, f.tables)) && ValidMap(live) && Live(live) == Abs(f)
  {
    hide CleanTable, Leftover, NoForeignTable, Total, SstName, Parse, TablesView, Flushed, Valid;
    FlushKeeps(e);
    f := TriggerFlush(e);
    ViewValid(f);
    live := PutsOnly(TablesView(f.store.dir, f.tables));
    LivePuts(TablesView(f.store.dir, f.tables), map[]);
    assert live + map[] == live;
  }

  /** The single table a compaction leaves. */
  lemma OneTable(dir: map<Bytes, Bytes>, live: map<Bytes, Record>)
    requires ValidMap(live) && SstName(0) in dir && dir[SstName(0)] == FlushFile(live)
    ensures TablesInv(dir, [SstName(0)]) && TablesView(dir, [SstName(0)]) == live
  {
    hide SstName, FlushFile, CleanTable, Contents, TablesView, ValidMap;
    FlushFileContents(live);
    AddTable(dir, [], SstName(0), FlushFile(live));
    NoTables(dir);
    assert dir[SstName(0) := FlushFile(live)] == dir;
    assert [] + [SstName(0)] == [SstName(0)];
    assert map[] + live == live;
    assert [SstName(0)] == Names(1);
  }

  lemma ReplacedTables(f: Engine, live: map<Bytes, Record>)
    requires Inv(f) && Tidy(f) && ValidMap(live)
    ensures var c := Replaced(f, live);
            && c == f.(store := Store(f.store.wal, c.store.dir), tables := if live == map[] then [] else [SstName(0)])
            && (live != map[] ==> SstName(0) in c.store.dir && c.store.dir[SstName(0)] == FlushFile(live))
            && forall name :: name in c.store.dir && IsSst(name) ==> name in c.tables
  {
    hide SstName, IsSst, CleanTable, Leftover, Total, ValidMap, FlushFile;
    assert forall i :: 0 <= i < |f.tables| ==> f.tables[i] in Elements(f.tables);
  }

  lemma NoTables(dir: map<Bytes, Bytes>)
    ensures TablesInv(dir, []) && TablesView(dir, []) == map[] && Names(0) == []
  {
  }

  lemma ReplacedKeeps(f: Engine, live: map<Bytes, Record>)
    requires Inv(f) && Tidy(f) && f.mem == map[] && ValidMap(live)
    ensures Inv(Replaced(f, live)) && Tidy(Replaced(f, live)) && View(Replaced(f, live)) == live
  {
    hide SstName, IsSst, CleanTable, Leftover, Total, TablesView, ValidMap, FlushFile, Replaced, TablesInv;
    var c := Replaced(f, live);
    ReplacedTables(f, live);
    NextNameIsNew(0);
    NextNameIsNew(1);
    if live == map[] {
      NoTables(c.store.dir);
    } else {
      OneTable(c.store.dir, live);
      assert c.tables == Names(1);
    }
    assert live + map[] == live;
  }

  /** A compaction keeps the flat map and leaves at most one table. */
  lemma CompactedKeeps(e: Engine)
    requires Inv(e)
    ensures Inv(Compacted(e)) && Tidy(Compacted(e)) && Abs(Compacted(e)) == Abs(e) && |Compacted(e).tables| <= 1
    ensures Durable(e) || e.mem != map[] ==> Durable(Compacted(e))
    ensures Compacted(e).mem == map[] && Compacted(e).limit == e.limit
  {
    hide Inv, Tidy, Parse, Fold, TablesView, SstName, IsSst, FlushFile;
    var f, live := CompactedLive(e);
    FlushKeeps(e);
    if f.tables != [] {
      ReplacedKeeps(f, live);
    }
  }

  // ----- Open -----

  lemma DirectoryListsTables(dir: map<Bytes, Bytes>, n: nat)
    requires n <= 10000 && NoForeignTable(dir, n) && forall i :: 0 <= i < n ==> SstName(i) in dir
    ensures SstFiles(dir) == Names(n)
  {
    hide SstName, IsSst, Ascending;
    DirectoryOrder(n);
    forall name ensures name in Elements(Names(n)) <==> name in dir && IsSst(name) {
      if name in Names(n) {
        var i :| 0 <= i < n && Names(n)[i] == name;
        NameGivesBackId(i);
      }
    }
    assert Elements(Names(n)) == set name | name in dir && IsSst(name);
  }

  /** Loading stops at the first file that is not whole. */
  lemma {:induction false} LoadErrorAt(dir: map<Bytes, Bytes>, names: seq<Bytes>)
    requires forall i :: 0 <= i < |names| - 1 ==> Parse(File(dir, names[i])).tail == Clean
    ensures names == [] || Parse(File(dir, names[|names| - 1])).tail == Clean ==> LoadError(dir, names) == None
    ensures names != [] && Parse(File(dir, names[|names| - 1])).tail == Torn ==>
            LoadError(dir, names) == Some(ErrIncompleteRecord)
  {
    hide Parse;
    if |names| > 1 {
      LoadErrorAt(dir, names[1..]);
    }
  }

  lemma NormalizedValid(recs: seq<Record>)
    requires AllValid(recs)
    ensures Normalized(recs) == recs
  {
  }

  /** What Open makes of whole tables and a WAL whose records are valid, torn tail or not. */
  lemma OpenWhole(limit: nat, s: Store, n: nat)
    requires n <= 10000 && TablesInv(s.dir, Names(n)) && NoForeignTable(s.dir, n)
    requires !Parse(s.wal).tail.Bad? && AllValid(Parse(s.wal).recs)
    ensures Open(limit, s) == Ok(Engine(NormalizeLimit(limit), s, Fold(Parse(s.wal).recs), Names(n)))
  {
    hide SstName, Parse, Fold, Valid, SstFiles, AscendingRecords, NoForeignTable, Normalized;
    assert forall i :: 0 <= i < n ==> Names(n)[i] == SstName(i);
    DirectoryListsTables(s.dir, n);
    LoadErrorAt(s.dir, Names(n));
    NormalizedValid(Parse(s.wal).recs);
  }

  /** The whole records of the WAL rebuild the MemTable; a torn tail may follow them. */
  ghost predicate WalHolds(e: Engine)
  {
    var p := Parse(e.store.wal);
    !p.tail.Bad? && AllValid(p.recs) && Fold(p.recs) == e.mem
  }

  lemma DurableHolds(e: Engine)
    requires Durable(e)
    ensures WalHolds(e)
  {
  }

  /** Reopening the files of an engine whose WAL rebuilds its MemTable, torn tail or not. */
  lemma ReopenKeeps(e: Engine, limit: nat)
    requires Inv(e) && Tidy(e) && WalHolds(e) && |e.tables| <= 10000
    ensures Open(limit, e.store) == Ok(e.(limit := NormalizeLimit(limit)))
  {
    hide Parse, Fold, CleanTable, Leftover, Total, NoForeignTable, SstName, AllValid;
    assert e.tables == Names(|e.tables|);
    OpenWhole(limit, e.store, |e.tables|);
  }

  // ----- snapshots -----

  /** Restoring a snapshot of a flushed engine gives an engine that shows the same, whatever the target held. */
  lemma SnapshotRestores(e: Engine, limit: nat)
    requires Inv(e) && Tidy(e) && e.mem == map[] && |e.tables| <= 10000
    ensures var r := Restored(limit, SnapshotOf(e));
            && LoadError(SnapshotOf(e), SstFiles(SnapshotOf(e))) == None
            && Inv(r) && Tidy(r) && Durable(r) && r.tables == e.tables && View(r) == View(e)
  {
    hide Parse, Fold, SstName, IsSst, AscendingRecords, TablesView, Total, SstFiles, Inv, Open;
    var n, files := |e.tables|, SnapshotOf(e);
    InvBasics(e);
    SnapshotFiles(e);
    ParseEmpty();
    FoldEmpty();
    OpenWhole(1, Store([], files), n);
    var r := Restored(limit, files);
    OpenTables(1, Store([], files));
    assert r.tables == Names(n);
    TablesViewSame(e.store.dir, files, e.tables);
    SnapshotInv(e, r);
  }

  lemma OpenTables(limit: nat, s: Store)
    ensures Open(limit, s).Ok? ==>
            Open(limit, s).value.tables == SstFiles(s.dir) && LoadError(s.dir, SstFiles(s.dir)) == None
  {
    hide LoadError, SstFiles, ReplayError, Replayed;
  }

  lemma SnapshotFiles(e: Engine)
    requires Inv(e) && Tidy(e)
    ensures var files := SnapshotOf(e);
            && files.Keys == Elements(e.tables) && TablesInv(files, e.tables) && NoForeignTable(files, |e.tables|)
            && forall i :: 0 <= i < |e.tables| ==> File(files, e.tables[i]) == File(e.store.dir, e.tables[i])
  {
    hide SstName, IsSst, CleanTable, Leftover, Total, ValidMap;
    var files := SnapshotOf(e);
    forall i | 0 <= i < |e.tables| ensures e.tables[i] in files && files[e.tables[i]] == e.store.dir[e.tables[i]] {
      NameGivesBackId(i);
      assert e.tables[i] == SstName(i);
    }
  }

  lemma SnapshotInv(e: Engine, r: Engine)
    requires Inv(e) && r.tables == e.tables && TablesInv(r.store.dir, r.tables)
             && NoForeignTable(r.store.dir, |r.tables|) && r.mem == map[]
    ensures Inv(r) && Tidy(r)
  {
    hide TablesInv, SstName, IsSst, Leftover;
    NextNameIsNew(|r.tables|);
    TotalZero(map[]);
  }

  // ----- runs -----

  /** The MemTable limits under which a uint64 counts the MemTable exactly. */
  ghost predicate Roomy(e: Engine)
  {
    0 < e.limit <= MAX_LIMIT && Total(e.mem) < MAX_LIMIT
  }

  /** What holds between operations, even after a crash that tore the WAL or an operation that failed. */
  ghost predicate Sound(e: Engine)
  {
    Inv(e) && Roomy(e)
  }

  /** The state a run without crashes and failures is in. */
  ghost predicate Good(e: Engine)
  {
    Sound(e) && Tidy(e) && Durable(e)
  }

  lemma RoomyFits(e: Engine, r: Record)
    requires Roomy(e) && Valid(r)
    ensures Fits(e, r)
  {
    TotalUpdate(e.mem, r.key, r);
  }

  lemma OpRecordValid(op: Op)
    requires (op.Put? || op.Delete?) && OpError(op) == None
    ensures Valid(OpRecord(op))
  {
  }

  /** Whether this step may be taken: reopening needs something to flush or a WAL that rebuilds the MemTable, a limit in
      range, and at most 10000 tables when the directory is listed. */
  ghost predicate MayStep(e: Engine, op: Op)
    requires Inv(e)
  {
    InvBasics(e);
    op.Reopen? ==>
      && (WalHolds(e) || e.mem != map[])
      && NormalizeLimit(op.limit) <= MAX_LIMIT && |TriggerFlush(e).tables| <= 10000
  }

  lemma StepWrite(e: Engine, op: Op)
    requires Sound(e) && (op.Put? || op.Delete?) && OpError(op) == None
    ensures Sound(Step(e, op)) && Abs(Step(e, op)) == FlatStep(Abs(e), op)
    ensures (Tidy(e) ==> Tidy(Step(e, op))) && (Durable(e) ==> Durable(Step(e, op)))
  {
    hide Inv, Tidy, Durable, View, CheckEncodePara, WriteRecord, Live;
    var r := OpRecord(op);
    OpRecordValid(op);
    RoomyFits(e, r);
    WriteRecordKeeps(e, r);
    LiveUpdate(View(e), r);
    assert r.typ == TYPE_PUT <==> op.Put?;
  }

  lemma StepReopen(e: Engine, op: Op)
    requires Sound(e) && op.Reopen? && MayStep(e, op)
    ensures Sound(Step(e, op)) && Abs(Step(e, op)) == FlatStep(Abs(e), op)
    ensures Tidy(Step(e, op)) && WalHolds(Step(e, op)) && (Durable(e) || e.mem != map[] ==> Durable(Step(e, op)))
  {
    hide Inv, Tidy, Durable, WalHolds, View, Live, TriggerFlush, Open;
    InvBasics(e);
    var f := TriggerFlush(e);
    FlushKeeps(e);
    FlushHolds(e);
    ReopenKeeps(f, op.limit);
    LimitIrrelevant(f, NormalizeLimit(op.limit));
    TotalZero(map[]);
    assert Abs(f) == Abs(e);
  }

  lemma StepQuiet(e: Engine, op: Op)
    requires Sound(e) && (op.Flush? || op.Compact? || op.Snapshot?)
    ensures Sound(Step(e, op)) && Abs(Step(e, op)) == Abs(e) && Tidy(Step(e, op))
    ensures Durable(e) || e.mem != map[] ==> Durable(Step(e, op))
    ensures WalHolds(e) || e.mem != map[] ==> WalHolds(Step(e, op))
  {
    hide Inv, Tidy, Durable, WalHolds, View, Live, TriggerFlush, Compacted;
    TotalZero(map[]);
    FlushKeeps(e);
    FlushHolds(e);
    CompactedKeeps(e);
    CompactedHolds(e);
  }

  /** Every operation does to the flat map what its name says and keeps the engine sound;
      the WAL goes on holding the MemTable, and any flush of something makes it do so again. */
  lemma StepRefines(e: Engine, op: Op)
    requires Sound(e) && MayStep(e, op)
    ensures Sound(Step(e, op)) && Abs(Step(e, op)) == FlatStep(Abs(e), op)
    ensures (Tidy(e) ==> Tidy(Step(e, op))) && (Durable(e) ==> Durable(Step(e, op)))
    ensures !op.Put? && !op.Delete? ==> Tidy(Step(e, op)) && (e.mem != map[] ==> Durable(Step(e, op)))
    ensures !op.Put? && !op.Delete? && (WalHolds(e) || e.mem != map[]) ==> WalHolds(Step(e, op))
  {
    hide Inv, Tidy, Durable, WalHolds, CheckEncodePara, WriteRecord, Live, TriggerFlush, Open, Compacted;
    if OpError(op) == None {
      if op.Put? || op.Delete? {
        StepWrite(e, op);
      } else if op.Reopen? {
        StepReopen(e, op);
      } else {
        StepQuiet(e, op);
      }
    }
  }

  /** A flush leaves a WAL that rebuilds the MemTable. */
  lemma FlushHolds(e: Engine)
    requires Inv(e)
    ensures WalHolds(e) || e.mem != map[] ==> WalHolds(TriggerFlush(e))
  {
    hide Inv, Tidy, Durable, WalHolds, TriggerFlush;
    InvBasics(e);
    FlushKeeps(e);
    if e.mem == map[] {
      NoFlush(e);
    } else {
      DurableHolds(TriggerFlush(e));
    }
  }

  lemma NoFlush(e: Engine)
    requires ValidMap(e.mem) && e.mem == map[]
    ensures TriggerFlush(e) == e
  {
  }

  lemma CompactedHolds(e: Engine)
    requires Inv(e)
    ensures WalHolds(e) || e.mem != map[] ==> WalHolds(Compacted(e))
  {
    hide Inv, Parse, Fold, AllValid, TriggerFlush, SstName, FlushFile, TablesView;
    FlushHolds(e);
    FlushKeeps(e);
  }

  lemma LimitIrrelevant(e: Engine, limit: nat)
    requires Inv(e) && Tidy(e)
    ensures Inv(e.(limit := limit)) && Tidy(e.(limit := limit)) && View(e.(limit := limit)) == View(e)
    ensures (Durable(e) ==> Durable(e.(limit := limit))) && (WalHolds(e) ==> WalHolds(e.(limit := limit)))
  {
    hide SstName, IsSst, CleanTable, Leftover, Total, ValidMap, Parse, Fold, TablesView, AllValid;
  }

  ghost predicate MayRun(e: Engine, ops: seq<Op>)
    requires Good(e)
    decreases |ops|
  {
    ops == [] || (MayStep(e, ops[0]) && (StepRefines(e, ops[0]); MayRun(Step(e, ops[0]), ops[1..])))
  }

  ghost function Run(e: Engine, ops: seq<Op>): Engine
    requires Good(e) && MayRun(e, ops)
    decreases |ops|
  {
    if ops == [] then e else
      StepRefines(e, ops[0]);
      Run(Step(e, ops[0]), ops[1..])
  }

  function FlatRun(m: map<Bytes, Bytes>, ops: seq<Op>): map<Bytes, Bytes>
    decreases |ops|
  {
    if ops == [] then m else FlatRun(FlatStep(m, ops[0]), ops[1..])
  }

  /** Whole-run refinement: after any run, every read returns what the flat map holds. */
  lemma {:induction false} RunRefines(e: Engine, ops: seq<Op>)
    requires Good(e) && MayRun(e, ops)
    ensures Good(Run(e, ops)) && Abs(Run(e, ops)) == FlatRun(Abs(e), ops)
    ensures forall key :: BytesOf(Get(Run(e, ops), key)) == ReadFlat(FlatRun(Abs(e), ops), key)
    decreases |ops|
  {
    hide Step, Inv, Tidy, Durable, Roomy, Abs, Get, MayStep;
    if ops == [] {
      forall key ensures BytesOf(Get(e, key)) == ReadFlat(Abs(e), key) {
        GetReadsFlat(e, key);
      }
    } else {
      StepRefines(e, ops[0]);
      RunRefines(Step(e, ops[0]), ops[1..]);
    }
  }

  /** A fresh directory is a good start. */
  lemma EmptyIsGood(limit: nat)
    requires NormalizeLimit(limit) <= MAX_LIMIT
    ensures Open(limit, Store([], map[])).Ok? && Good(Open(limit, Store([], map[])).value)
    ensures Abs(Open(limit, Store([], map[])).value) == map[]
  {
    var e := Engine(NormalizeLimit(limit), Store([], map[]), map[], []);
    EndOfFile([]);
    TotalZero(map[]);
    assert [] == Names(0);
    assert Inv(e) && Tidy(e) && Durable(e);
    DurableHolds(e);
    ReopenKeeps(e, limit);
  }
}
