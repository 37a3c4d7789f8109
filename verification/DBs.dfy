/** The database object: every method does to the files, the MemTable and the table list what the engine model says. */
module DBs {
  import opened ByteStrings
  import opened Wrappers
  import opened TableNames
  import opened Codec
  import opened RecordLog
  import opened MemTables
  import opened EngineSpec
  import opened EngineRuns
  import opened EngineCrash
  import opened Disks
  import opened Wals
  import opened SSTables
  import opened Compactions

  lemma {:induction false} WriteSplit(recs: seq<Record>, i: nat)
    requires AllValid(recs) && i <= |recs|
    ensures AllValid(recs[..i]) && AllValid(recs[i..]) && Write(recs) == Write(recs[..i]) + Write(recs[i..])
  {
    hide Layout;
    if i == 0 {
      assert recs[0..] == recs && recs[..0] == [];
    } else {
      WriteSplit(recs[1..], i - 1);
      assert recs[1..][..i - 1] == recs[..i][1..] && recs[1..][i - 1..] == recs[i..];
    }
  }

  /** What is on file after i whole records and k bytes of the next one is a beginning of the whole file. */
  lemma PartOfWrite(recs: seq<Record>, i: nat, k: nat)
    requires AllValid(recs) && i < |recs| && k <= |Layout(recs[i])|
    ensures AllValid(recs[..i]) && Write(recs[..i]) + Layout(recs[i])[..k] <= Write(recs)
  {
    hide Layout;
    WriteSplit(recs, i);
    assert recs[i..][0] == recs[i];
    assert Write(recs[i..]) == Layout(recs[i]) + Write(recs[i..][1..]);
  }

  lemma WholeWrite(recs: seq<Record>, i: nat)
    requires AllValid(recs) && i < |recs|
    ensures AllValid(recs[..i]) && AllValid(recs[..i + 1]) && Write(recs[..i + 1]) == Write(recs[..i]) + Layout(recs[i])
  {
    hide Layout, Codec.Valid;
    assert recs[..i + 1] == recs[..i] + [recs[i]];
    WriteAppend(recs[..i], recs[i]);
  }

  /** The disk of e with some bytes under the next table's name. */
  function WithFile(e: Engine, part: Bytes): Store
  {
    e.store.(dir := e.store.dir[SstName(|e.tables|) := part])
  }

  /** Part of e's next table is on disk. */
  ghost predicate AtPart(e: Engine, part: Bytes, s: Store)
    requires ValidMap(e.mem)
  {
    part <= FlushFile(e.mem) && s == WithFile(e, part)
  }

  /** All states since `seen0` are states a flush of e can be interrupted in. */
  ghost predicate SeenFlush(seen0: set<Store>, e: Engine, seen: set<Store>)
    requires ValidMap(e.mem)
  {
    forall s :: s in seen ==> s in seen0 || FlushImage(e, s)
  }

  lemma PartIsImage(e: Engine, part: Bytes)
    requires ValidMap(e.mem) && e.mem != map[] && part <= FlushFile(e.mem)
    ensures FlushImage(e, WithFile(e, part)) && WithFile(e, part) == PartTable(e, |part|)
  {
    hide FlushFile, SstName, TriggerFlush;
    assert FlushFile(e.mem)[..|part|] == part;
    assert WithFile(e, part) == PartTable(e, |part|);
  }

  /** Everything an append of record i can leave behind is part of the table. */
  lemma AppendImages(e: Engine, recs: seq<Record>, i: nat)
    requires ValidMap(e.mem) && e.mem != map[] && AllValid(recs) && recs == SortedRecords(e.mem) && i < |recs|
             && AllValid(recs[..i])
    ensures var s := WithFile(e, Write(recs[..i]));
            forall t :: t in FilePrefixes(s, SstName(|e.tables|), Layout(recs[i])) ==> FlushImage(e, t)
    ensures forall k :: 0 <= k <= |Layout(recs[i])| ==> Write(recs[..i]) + Layout(recs[i])[..k] <= FlushFile(e.mem)
  {
    hide Layout, Write, SstName, SortedRecords, ValidMap, FlushImage;
    var w, data, name := Write(recs[..i]), Layout(recs[i]), SstName(|e.tables|);
    forall k | 0 <= k <= |data| ensures w + data[..k] <= FlushFile(e.mem) {
      PartOfWrite(recs, i, k);
    }
    var s := WithFile(e, w);
    forall t | t in FilePrefixes(s, name, data) ensures FlushImage(e, t) {
      var k :| 0 <= k <= |data| && t == s.(dir := s.dir[name := File(s.dir, name) + data[..k]]);
      assert t == WithFile(e, w + data[..k]);
      PartIsImage(e, w + data[..k]);
    }
  }

  lemma AppendedWhole(e: Engine, w: Bytes, data: Bytes, s: Store)
    requires s == WithFile(e, w).(dir := WithFile(e, w).dir[SstName(|e.tables|) := w + data])
    ensures s == WithFile(e, w + data)
  {
    hide SstName;
  }

  /** Append one record of a flush to its table. */
  method FlushOne(disk: Disk, writer: SSTableWriter, ghost e: Engine, recs: seq<Record>, i: nat,
      ghost seen0: set<Store>)
    returns (err: Option<Error>)
    requires writer.disk == disk && !writer.closed && writer.path == SstName(|e.tables|)
    requires ValidMap(e.mem) && e.mem != map[] && AllValid(recs) && recs == SortedRecords(e.mem) && i < |recs|
             && AllValid(recs[..i])
    requires disk.Image() == WithFile(e, Write(recs[..i])) && SeenFlush(seen0, e, disk.seen)
    modifies disk, disk.calls
    ensures disk.Failures() >= old(disk.Failures())
    ensures err.Some? <==> disk.Failures() > old(disk.Failures())
    ensures SeenFlush(seen0, e, disk.seen)
    ensures err == None ==> AllValid(recs[..i + 1]) && disk.Image() == WithFile(e, Write(recs[..i + 1]))
    ensures err.Some? ==> err == Some(ErrIO) && exists part :: AtPart(e, part, disk.Image())
  {
    hide Layout, Write, SstName, SortedRecords, ValidMap, FlushImage, FlushFile, AllValid, WithFile, FilePrefixes;
    AppendImages(e, recs, i);
    WholeWrite(recs, i);
    ghost var w, dir0 := Write(recs[..i]), disk.dir;
    assert writer.path in disk.dir && disk.dir[writer.path] == w by { WithFileHas(e, w); }
    ValidRecord(recs, i);
    err := writer.Append(recs[i]);
    if err.Some? {
      ghost var n :| 0 <= n <= |Layout(recs[i])|
          && disk.dir == dir0[writer.path := dir0[writer.path] + Layout(recs[i])[..n]];
      AppendedWhole(e, w, Layout(recs[i])[..n], disk.Image());
      assert AtPart(e, w + Layout(recs[i])[..n], disk.Image());
    } else {
      AppendedWhole(e, w, Layout(recs[i]), disk.Image());
    }
  }

  lemma ValidRecord(recs: seq<Record>, i: nat)
    requires AllValid(recs) && i < |recs|
    ensures Codec.Valid(recs[i])
  {
  }

  lemma WithFileHas(e: Engine, w: Bytes)
    ensures SstName(|e.tables|) in WithFile(e, w).dir && WithFile(e, w).dir[SstName(|e.tables|)] == w
  {
  }

  /** CreateSSTableWriter on the next table's name. */
  method StartTable(disk: Disk, name: Bytes, ghost e: Engine) returns (ok: bool)
    requires ValidMap(e.mem) && e.mem != map[] && name == SstName(|e.tables|) && disk.Image() == e.store
    modifies disk, disk.calls
    ensures disk.Failures() == old(disk.Failures()) + if ok then 0 else 1
    ensures SeenFlush(old(disk.seen), e, disk.seen)
    ensures ok ==> disk.Image() == WithFile(e, [])
    ensures !ok ==> disk.Image() == e.store || AtPart(e, [], disk.Image())
  {
    hide SstName, FlushImage, FlushFile;
    PartIsImage(e, []);
    StoreIsImage(e);
    ok := disk.CreateFile(name);
    assert disk.Image() == e.store || disk.Image() == WithFile(e, []);
  }

  /** The first half of triggerFlush: create the next table and write the MemTable's records to it in key order. */
  method WriteTable(disk: Disk, memtable: MemTable, name: Bytes, ghost e: Engine) returns (err: Option<Error>)
    requires ValidMap(e.mem) && e.mem != map[] && name == SstName(|e.tables|)
    requires memtable.records == e.mem && disk.Image() == e.store
    modifies disk, disk.calls
    ensures disk.Failures() >= old(disk.Failures())
    ensures err.Some? <==> disk.Failures() > old(disk.Failures())
    ensures SeenFlush(old(disk.seen), e, disk.seen)
    ensures err == None ==> disk.Image() == WithFile(e, FlushFile(e.mem))
    ensures err.Some? ==>
            err == Some(ErrIO) && (disk.Image() == e.store || exists part :: AtPart(e, part, disk.Image()))
  {
    hide *;
    ghost var seen0 := disk.seen;
    var created := StartTable(disk, name, e);
    if !created {
      return Some(ErrIO);
    }
    var writer := new SSTableWriter(disk, name);
    var recs := memtable.ForEachRecord();
    FlushFileIsWrite(e.mem);
    NothingWritten();
    assert recs[..0] == [];
    for i := 0 to |recs|
      invariant !writer.closed && AllValid(recs[..i]) && disk.Failures() == old(disk.Failures())
      invariant disk.Image() == WithFile(e, Write(recs[..i])) && SeenFlush(seen0, e, disk.seen)
    {
      err := FlushOne(disk, writer, e, recs, i, seen0);
      if err.Some? {
        return;
      }
    }
    assert recs[..|recs|] == recs;
    writer.Close();
    err := None;
  }

  lemma FlushFileIsWrite(m: map<Bytes, Record>)
    requires ValidMap(m)
    ensures AllValid(SortedRecords(m)) && FlushFile(m) == Write(SortedRecords(m))
  {
    hide Write;
    SortedRecordsAscend(m);
  }

  lemma StoreIsImage(e: Engine)
    requires ValidMap(e.mem)
    ensures FlushImage(e, e.store)
  {
  }

  /** A table only half written changes nothing the engine shows. */
  lemma PartState(e: Engine, part: Bytes, s: Store)
    requires Inv(e) && e.mem != map[] && AtPart(e, part, s)
    ensures Inv(e.(store := s)) && View(e.(store := s)) == View(e)
  {
    hide Inv, View, FlushFile, SstName;
    InvBasics(e);
    PartIsImage(e, part);
    PartTableState(e, |part|);
  }

  /** Nor does a whole one that has joined the table list while the MemTable still holds its records. */
  lemma JoinedState(e: Engine, wal: Bytes)
    requires Inv(e) && e.mem != map[]
    ensures var e1 := Engine(e.limit, WithFile(e, FlushFile(e.mem)).(wal := wal), e.mem,
            e.tables + [SstName(|e.tables|)]);
            Inv(e1) && View(e1) == View(e)
  {
    hide Inv, View, FlushFile, SstName, CleanTable;
    InvBasics(e);
    var f := FlushFile(e.mem);
    FlushFileContents(e.mem);
    assert AtPart(e, f, WithFile(e, f));
    PartState(e, f, WithFile(e, f));
    CleanTail(f);
    LeftoverHidden(e.(store := WithFile(e, f)));
    WalIrrelevant(e.(store := WithFile(e, f), tables := e.tables + [SstName(|e.tables|)]), wal);
  }

  lemma CleanTail(file: Bytes)
    requires CleanTable(file)
    ensures Parse(file).tail == Clean
  {
  }

  lemma AfterReset(e: Engine, s: Store, seen0: set<Store>, seen: set<Store>)
    requires ValidMap(e.mem) && e.mem != map[]
    requires s == WithFile(e, FlushFile(e.mem)) || s == WithFile(e, FlushFile(e.mem)).(wal := [])
    requires SeenFlush(seen0, e, seen)
    ensures SeenFlush(seen0, e, seen + {s}) && FlushImage(e, s)
  {
    hide FlushFile, WithFile, FlushImage;
    PartIsImage(e, FlushFile(e.mem));
    ResetIsFlushed(e);
  }

  lemma ResetIsFlushed(e: Engine)
    requires ValidMap(e.mem)
    ensures Flushed(e) ==
            Engine(e.limit, WithFile(e, FlushFile(e.mem)).(wal := []), map[], e.tables + [SstName(|e.tables|)])
    ensures e.mem != map[] ==> EngineSpec.TriggerFlush(e) == Flushed(e)
    ensures e.mem != map[] ==> FlushImage(e, WithFile(e, FlushFile(e.mem)).(wal := []))
  {
  }

  class DB {
    const disk: Disk
    var memTableSize: nat
    var memtable: MemTable
    var sstablesNum: nat
    var sstables: seq<SSTable>
    var wal: WAL
    var closed: bool

    /** The engine state this object is in. */
    ghost function Model(): Engine
      reads this, disk, memtable, sstables
    {
      Engine(memTableSize, disk.Image(), memtable.records, Paths(sstables))
    }

    /** The representation invariant of an open database. */
    ghost predicate Valid()
      reads this, disk, memtable, sstables, wal
    {
      && wal.disk == disk && !wal.isClosed && memtable.Accounted() && sstablesNum == |sstables|
      && TablesOpen(disk, sstables) && Inv(Model())
    }

    constructor (disk: Disk, memTableSize: nat, memtable: MemTable, sstables: seq<SSTable>, wal: WAL)
      ensures this.disk == disk && this.memTableSize == memTableSize && this.memtable == memtable && !closed
      ensures this.sstables == sstables && sstablesNum == |sstables| && this.wal == wal
    {
      this.disk, this.memTableSize, this.memtable := disk, memTableSize, memtable;
      this.sstables, sstablesNum, this.wal, closed := sstables, |sstables|, wal, false;
    }

    /** triggerFlush: write the MemTable to the next table, open it, add it to the list, empty the WAL, empty the
        MemTable. Wherever it fails, what the engine shows stays the same. */
    method TriggerFlush() returns (err: Option<Error>)
      requires !closed && Valid()
      modifies this, disk, disk.calls, memtable
      ensures disk.Failures() >= old(disk.Failures())
      ensures err.Some? <==> disk.Failures() > old(disk.Failures())
      ensures Valid() && !closed && wal == old(wal) && memtable == old(memtable)
      ensures err == None ==> Model() == EngineSpec.TriggerFlush(old(Model()))
      ensures err.Some? ==>
              err == Some(ErrIO) && View(Model()) == View(old(Model())) && memtable.records == old(memtable.records)
                            && FlushImage(old(Model()), Model().store)
      ensures Model().limit == old(Model().limit)
      ensures SeenFlush(old(disk.seen), old(Model()), disk.seen)
      ensures forall i :: 0 <= i < |sstables| ==> sstables[i] in old(sstables) || fresh(sstables[i])
    {
      hide *;
      ghost var e, seen0 := Model(), disk.seen;
      ValidParts(this);
      if memtable.size == 0 {
        NothingToFlush(e, seen0);
        return None;
      }
      var sst := FlushTable(e);
      if sst.Err? {
        ModelParts(this);
        return Some(sst.error);
      }
      sstables := sstables + [sst.value];
      sstablesNum := sstablesNum + 1;
      err := ResetWal(e, seen0);
      if err.Some? {
        ModelParts(this);
        return;
      }
      memtable.Reset();
      ResetIsFlushed(e);
      ImageFields(disk);
      MakeValid(this, Flushed(e));
    }

    /** triggerFlush up to the opening of the new table. */
    method FlushTable(ghost e: Engine) returns (r: Result<SSTable>)
      requires !closed && Valid() && e == Model() && ValidMap(e.mem) && e.mem != map[]
      modifies disk, disk.calls
      ensures disk.Failures() >= old(disk.Failures())
      ensures r.Err? <==> disk.Failures() > old(disk.Failures())
      ensures SeenFlush(old(disk.seen), e, disk.seen)
      ensures r.Err? ==> r == Err(ErrIO) && Valid() && View(Model()) == View(e) && Model().limit == e.limit
                         && FlushImage(e, disk.Image())
      ensures r.Ok? ==>
                && fresh(r.value) && disk.Image() == WithFile(e, FlushFile(e.mem))
                    && TablesOn(disk.dir, disk, sstables + [r.value])
                && Paths(sstables + [r.value]) == e.tables + [SstName(|e.tables|)]
    {
      hide *;
      ValidParts(this);
      ImageFields(disk);
      var newSstId := sstablesNum;
      var name := SstName(newSstId);
      var err := WriteTable(disk, memtable, name, e);
      ImageFields(disk);
      if err.Some? {
        FailedWrite(e, disk, sstables);
        MakeValid(this, e.(store := disk.Image()));
        return Err(err.value);
      }
      WholeTable(e, disk, sstables);
      var found := disk.Try();
      if !found {
        FailedWrite(e, disk, sstables);
        MakeValid(this, e.(store := disk.Image()));
        return Err(ErrIO);
      }
      r := OpenSSTable(disk, newSstId, name);
      TablesOpenPush(disk, sstables, r.value);
    }

    /** The Wal.Reset of triggerFlush, with the new table already in the list. */
    method ResetWal(ghost e: Engine, ghost seen0: set<Store>) returns (err: Option<Error>)
      requires !closed && Inv(e) && ValidMap(e.mem) && e.mem != map[] && wal.disk == disk && !wal.isClosed
               && memtable.Accounted()
      requires memTableSize == e.limit && memtable.records == e.mem && disk.Image() == WithFile(e, FlushFile(e.mem))
      requires Paths(sstables) == e.tables + [SstName(|e.tables|)] && sstablesNum == |sstables|
               && TablesOn(disk.dir, disk, sstables)
      requires SeenFlush(seen0, e, disk.seen)
      modifies disk, disk.calls
      ensures disk.Failures() >= old(disk.Failures())
      ensures err.Some? <==> disk.Failures() > old(disk.Failures())
      ensures SeenFlush(seen0, e, disk.seen) && TablesOn(disk.dir, disk, sstables) && Inv(Flushed(e))
      ensures err == None ==>
                && disk.Image() == Flushed(e).store && Flushed(e).tables == Paths(sstables)
                && Flushed(e).limit == memTableSize
      ensures err.Some? ==> err == Some(ErrIO) && Valid() && View(Model()) == View(e) && Model().limit == e.limit
                            && FlushImage(e, disk.Image())
    {
      hide *;
      ghost var s0, seen1 := disk.Image(), disk.seen;
      ImageFields(disk);
      FlushedKeeps(e);
      err := wal.Reset();
      ImageFields(disk);
      assert disk.Image() == s0.(wal := disk.wal);
      AfterReset(e, disk.Image(), seen0, seen1);
      if err.Some? {
        JoinedState(e, disk.wal);
        MakeValid(this, Engine(e.limit, disk.Image(), e.mem, Paths(sstables)));
      } else {
        ResetIsFlushed(e);
      }
    }

    /** The common body of Put and Delete: log the record, apply it to the MemTable, flush a MemTable that has reached
        its limit. */
    method WriteOp(op: Op) returns (err: Option<Error>)
      requires !closed && Valid() && (op.Put? || op.Delete?) && op.key != [] && Fits(Model(), OpRecord(op))
      modifies this, disk, disk.calls, memtable
      ensures disk.Failures() >= old(disk.Failures())
      ensures err == Some(ErrIO) <==> disk.Failures() > old(disk.Failures())
      ensures Valid() && !closed && wal == old(wal) && memtable == old(memtable)
      ensures Outcome(old(Model()), op, err, Model(), old(disk.seen), disk.seen)
    {
      hide *;
      ghost var e, seen0, r := Model(), disk.seen, OpRecord(op);
      ValidParts(this);
      ImageFields(disk);
      OpRecordFields(op);
      err := LogRecord(wal, if op.Put? then Record(TYPE_PUT, op.key, op.value) else Record(TYPE_DELETE, op.key, []), e);
      ImageFields(disk);
      LoggedSeen(e, op, seen0, disk.seen);
      if err.Some? {
        RefusedWrite(e, op, err, disk.Image(), seen0, disk.seen);
        MakeValid(this, e.(store := disk.Image()));
        return;
      }
      var e0;
      if op.Put? {
        e0 := memtable.Put(op.key, op.value);
      } else {
        e0 := memtable.Delete(op.key);
      }
      LoggedInv(e, r);
      LoggedParts(e, r);
      assert TablesOn(disk.dir, disk, sstables);
      MakeValid(this, Logged(e, r));
      InvMemFits(Logged(e, r));
      InvBasics(Logged(e, r));
      CounterExact(memtable);
      ghost var seen1 := disk.seen;
      if memtable.size >= memTableSize {
        err := TriggerFlush();
        ValidParts(this);
        FlushedWrite(e, op, err, Model(), seen0, seen1, disk.seen);
      } else {
        UnflushedWrite(e, op, seen0, seen1);
      }
    }

    /** DB.Put. */
    method Put(key: Bytes, value: Bytes) returns (err: Option<Error>)
      requires closed || (Valid() && Fits(Model(), Record(TYPE_PUT, key, value)))
      modifies this, disk, disk.calls, memtable
      ensures disk.Failures() >= old(disk.Failures())
      ensures err == Some(ErrIO) <==> disk.Failures() > old(disk.Failures())
      ensures closed == old(closed) && (closed || Valid())
      ensures key == [] ==> err == Some(ErrEmptyKey)
      ensures key != [] && closed ==> err == Some(ErrDbClosed)
      ensures key == [] || closed ==> Model() == old(Model()) && disk.seen == old(disk.seen)
      ensures key != [] && !closed ==>
              Outcome(old(Model()), Op.Put(key, value), err, Model(), old(disk.seen), disk.seen)
    {
      hide Inv, TablesOn, Outcome, Fits;
      if |key| == 0 {
        return Some(ErrEmptyKey);
      }
      if closed {
        return Some(ErrDbClosed);
      }
      err := WriteOp(Op.Put(key, value));
    }

    /** DB.Delete. */
    method Delete(key: Bytes) returns (err: Option<Error>)
      requires closed || (Valid() && Fits(Model(), Record(TYPE_DELETE, key, [])))
      modifies this, disk, disk.calls, memtable
      ensures disk.Failures() >= old(disk.Failures())
      ensures err == Some(ErrIO) <==> disk.Failures() > old(disk.Failures())
      ensures closed == old(closed) && (closed || Valid())
      ensures key == [] ==> err == Some(ErrEmptyKey)
      ensures key != [] && closed ==> err == Some(ErrDbClosed)
      ensures key == [] || closed ==> Model() == old(Model()) && disk.seen == old(disk.seen)
      ensures key != [] && !closed ==> Outcome(old(Model()), Op.Delete(key), err, Model(), old(disk.seen), disk.seen)
    {
      hide Inv, TablesOn, Outcome, Fits;
      if |key| == 0 {
        return Some(ErrEmptyKey);
      }
      if closed {
        return Some(ErrDbClosed);
      }
      err := WriteOp(Op.Delete(key));
    }

    /** DB.Flush. */
    method Flush() returns (err: Option<Error>)
      requires closed || Valid()
      modifies this, disk, disk.calls, memtable
      ensures disk.Failures() >= old(disk.Failures())
      ensures err == Some(ErrIO) <==> disk.Failures() > old(disk.Failures())
      ensures closed == old(closed) && (closed || Valid())
      ensures closed ==> err == Some(ErrDbClosed) && Model() == old(Model()) && disk.seen == old(disk.seen)
      ensures !closed ==> Outcome(old(Model()), Op.Flush, err, Model(), old(disk.seen), disk.seen)
    {
      hide *;
      if closed {
        return Some(ErrDbClosed);
      }
      ghost var e, seen0 := Model(), disk.seen;
      ValidParts(this);
      err := TriggerFlush();
      ValidParts(this);
      FlushOutcome(e, Op.Flush, err, Model(), seen0, disk.seen);
    }

    /** DB.Compact: flush, merge all tables into a scratch file, then swap: close and remove the old tables, rename the
        new one. A failure up to the end of the merge changes nothing the engine shows, and until the swap begins the
        disk is in states Open recovers from. */
    method Compact() returns (err: Option<Error>)
      requires closed || Valid()
      modifies this, disk, disk.calls, memtable, sstables
      ensures disk.Failures() >= old(disk.Failures())
      ensures err == Some(ErrIO) <==> disk.Failures() > old(disk.Failures())
      ensures closed == old(closed) && (closed || Valid())
      ensures closed ==> err == Some(ErrDbClosed) && Model() == old(Model()) && disk.seen == old(disk.seen)
      ensures !closed && err == None ==> Model() == Step(old(Model()), Op.Compact)
      ensures !closed && err.Some? ==>
                && err == Some(ErrIO) && Failed(old(Model()), Op.Compact, Model())
                    && View(Model()) == View(old(Model()))
      ensures !closed && err.Some? ==>
                forall s :: s in disk.seen ==> s in old(disk.seen) || CrashImage(old(Model()), Op.Compact, s)
      ensures !closed ==> forall s :: s in disk.seen ==> s in old(disk.seen) || CompactImage(old(Model()), s)
    {
      hide *;
      if closed {
        return Some(ErrDbClosed);
      }
      ghost var e, seen0 := Model(), disk.seen;
      ValidParts(this);
      err := TriggerFlush();
      ghost var seen1 := disk.seen;
      ValidParts(this);
      FlushSeen(e, seen0, disk.seen);
      UnswappedSeen(e, seen0, disk.seen);
      if err.Some? {
        FailedCompact(e, Model());
        return;
      }
      ghost var f := Model();
      FlushKeeps(e);
      CompactStep(e);
      if |sstables| == 0 {
        return;
      }
      var oldPaths := Paths(sstables);
      ImageFields(disk);
      MergeReady(f, disk, sstables);
      var newSst := Compactions.Run(disk, sstables, COMPACT_TMP);
      ImageFields(disk);
      OnlyFileIsMerge(f, disk.Image());
      MergeSeen(e, seen0, seen1, disk.seen);
      ghost var seen2 := disk.seen;
      if newSst.Err? {
        ghost var s1 := disk.Image();
        disk.RemoveFile(COMPACT_TMP);
        ImageFields(disk);
        ScratchRemoved(f, s1, disk.Image());
        FailedMerge(f, disk, sstables);
        MergeSeenOne(e, seen0, seen2, disk.Image());
        UnswappedSeen(e, seen0, disk.seen);
        MakeValid(this, f.(store := disk.Image()));
        FailedCompact(e, Model());
        return Some(newSst.error);
      }
      if newSst.value.Some? {
        newSst.value.value.Close();
      }
      SwapTables(newSst.value.Some?, oldPaths, f, LiveRecords(f.store.dir, f.tables));
      SwappedSeen(e, seen0, seen2, LiveRecords(f.store.dir, f.tables), disk.seen);
    }

    /** DB.CreateSnapshot: flush, then copy every table's file. */
    method CreateSnapshot() returns (r: Result<map<Bytes, Bytes>>)
      requires closed || Valid()
      modifies this, disk, disk.calls, memtable
      ensures disk.Failures() >= old(disk.Failures())
      ensures r == Err(ErrIO) <==> disk.Failures() > old(disk.Failures())
      ensures closed == old(closed) && (closed || Valid())
      ensures closed ==> r == Err(ErrDbClosed) && Model() == old(Model()) && disk.seen == old(disk.seen)
      ensures !closed ==> forall s :: s in disk.seen ==> s in old(disk.seen) || CrashImage(old(Model()), Op.Snapshot, s)
      ensures !closed && r.Ok? ==> Model() == Step(old(Model()), Op.Snapshot) && r.value == SnapshotOf(Model())
      ensures !closed && r.Err? ==>
                r == Err(ErrIO) && Failed(old(Model()), Op.Snapshot, Model()) && View(Model()) == View(old(Model()))
    {
      hide *;
      if closed {
        return Err(ErrDbClosed);
      }
      ghost var e, seen0 := Model(), disk.seen;
      ValidParts(this);
      FlushKeeps(e);
      var err := TriggerFlush();
      ValidParts(this);
      FlushOutcome(e, Op.Snapshot, err, Model(), seen0, disk.seen);
      OutcomeParts(e, Op.Snapshot, err, Model(), seen0, disk.seen);
      if err.Some? {
        return Err(err.value);
      }
      FailedCopy(e);
      r := CopyTables();
    }

    /** The loop of CreateSnapshot. */
    method CopyTables() returns (r: Result<map<Bytes, Bytes>>)
      requires !closed && Valid()
      modifies disk.calls
      ensures disk.Failures() >= old(disk.Failures())
      ensures r.Err? <==> disk.Failures() > old(disk.Failures())
      ensures r.Err? ==> r == Err(ErrIO)
      ensures r.Ok? ==> r.value == SnapshotOf(Model())
    {
      hide Inv, TablesOpen, CopiedFiles, IsSst, IndexFrom;
      var files: map<Bytes, Bytes> := map[];
      NoneCopied(disk.dir);
      assert Paths(sstables)[..0] == [];
      for i := 0 to |sstables|
        invariant files == CopiedFiles(disk.dir, Paths(sstables)[..i]) && disk.Failures() == old(disk.Failures())
      {
        TableAt(disk, sstables, i);
        assert Paths(sstables)[..i + 1] == Paths(sstables)[..i] + [sstables[i].path];
        OneCopied(disk.dir, Paths(sstables)[..i], sstables[i].path);
        var ok := disk.Try();
        if !ok {
          return Err(ErrIO);
        }
        if IsSst(sstables[i].path) {
          files := files[sstables[i].path := disk.dir[sstables[i].path]];
        }
      }
      assert Paths(sstables)[..|sstables|] == Paths(sstables);
      ImageFields(disk);
      r := Ok(files);
    }

    /** DB.RestoreSnapshot: drop everything this database holds, then load the snapshot's tables. */
    method RestoreSnapshot(files: map<Bytes, Bytes>) returns (err: Option<Error>)
      requires closed || Valid()
      modifies this, disk, wal, sstables
      ensures closed == old(closed)
      ensures closed ==> err == Some(ErrDbClosed) && Model() == old(Model())
      ensures !closed ==> err == RestoreError(files)
      ensures !closed && err == None ==> Model() == Restored(old(Model()).limit, files)
      ensures !closed && err == None && Inv(Restored(old(Model()).limit, files)) ==> Valid()
    {
      hide *;
      if closed {
        return Some(ErrDbClosed);
      }
      ghost var limit := memTableSize;
      ModelParts(this);
      CloseTables(sstables);
      sstables, sstablesNum := [], 0;
      wal.Close();
      RestoreErrorParts(files);
      if exists name :: name in files && !IsSst(name) {
        disk.ReplaceAll(map[]);
        return Some(ErrInvalidPara);
      }
      err := LoadRestored(files);
      ModelParts(this);
      RestoredParts(limit, files);
      if err == None && Inv(Restored(limit, files)) {
        MakeValid(this, Restored(limit, files));
      }
    }

    /** RestoreSnapshot from the extraction of the files on. */
    method LoadRestored(files: map<Bytes, Bytes>) returns (err: Option<Error>)
      modifies this, disk
      ensures closed == old(closed) && memTableSize == old(memTableSize)
      ensures err == LoadError(files, SstFiles(files))
      ensures err == None ==>
                && disk.Image() == Store([], files) && memtable.records == map[] && memtable.Accounted()
                    && wal.disk == disk && !wal.isClosed
                && Paths(sstables) == SstFiles(files) && sstablesNum == |sstables| && TablesOn(files, disk, sstables)
    {
      hide *;
      disk.ReplaceAll(files);
      ImageFields(disk);
      wal := new WAL(disk);
      memtable := new MemTable();
      var tables := LoadSstables(disk);
      if tables.Err? {
        return Some(tables.error);
      }
      sstables, sstablesNum := tables.value, |tables.value|;
      err := None;
    }

    /** DB.Close: flush (a failure is only logged), close the tables and the WAL. Unless a system call fails, the files
        are those of the flushed engine; otherwise what stays on disk is what an engine showing the same would leave,
        in a state a flush can be interrupted in. */
    method Close() returns (err: Option<Error>, ghost left: Engine)
      requires closed || Valid()
      modifies this, disk, disk.calls, memtable, sstables, wal
      ensures disk.Failures() >= old(disk.Failures())
      ensures closed && err == None
      ensures old(closed) ==> disk.Image() == old(disk.Image())
      ensures !old(closed) ==> wal.isClosed && forall i :: 0 <= i < |sstables| ==> sstables[i].closed
      ensures !old(closed) ==> Inv(left) && View(left) == View(old(Model())) && left.store == disk.Image()
      ensures !old(closed) && disk.Failures() == old(disk.Failures()) ==>
                disk.Image() == EngineSpec.TriggerFlush(old(Model())).store
      ensures !old(closed) ==> CrashImage(old(Model()), Op.Flush, disk.Image())
      ensures !old(closed) ==>
                forall s :: s in disk.seen ==> s in old(disk.seen) || CrashImage(old(Model()), Op.Flush, s)
    {
      hide *;
      left := Model();
      if closed {
        return None, left;
      }
      ghost var e := left;
      ValidParts(this);
      FlushKeeps(e);
      ghost var seen0 := disk.seen;
      var failed := TriggerFlush();
      left := Model();
      ValidParts(this);
      FlushOutcome(e, Op.Flush, failed, left, seen0, disk.seen);
      FlushImages(e, failed, left, seen0, disk.seen);
      CloseTables(sstables);
      wal.Close();
      closed := true;
      err := None;
    }

    /** The swap of Compact, in the source's order. */
    method SwapTables(wrote: bool, oldPaths: seq<Bytes>, ghost f: Engine, ghost live: map<Bytes, Record>)
      requires !closed && memTableSize == f.limit && memtable.records == f.mem == map[] && oldPaths == f.tables
      requires wal.disk == disk && !wal.isClosed && memtable.Accounted()
      requires Inv(f) && Tidy(f) && ValidMap(live) && (wrote <==> live != map[])
      requires MergeImage(f, disk.Image()) && COMPACT_TMP !in oldPaths
      requires if wrote then COMPACT_TMP in disk.dir && disk.dir[COMPACT_TMP] == FlushFile(live)
               else COMPACT_TMP !in disk.dir
      modifies this, disk, sstables
      ensures !closed && Valid() && Model() == Replaced(f, live)
      ensures SeenSwap(old(disk.seen), f, live, disk.seen)
    {
      hide *;
      CloseTables(sstables);
      ghost var d := disk.dir;
      ImageFields(disk);
      MergeImageParts(f, disk.Image());
      ElementsIn(oldPaths, COMPACT_TMP);
      ghost var seen0 := disk.seen;
      RemoveTables(oldPaths, f);
      ReplacedKeeps(f, live);
      if !wrote {
        SwappedOut(f, live, d);
        SwapRemoved(seen0, f, live, disk.seen);
        sstables, sstablesNum := [], 0;
      } else {
        SwappedIn(f, live, d);
        SwapRemoved(seen0, f, live, disk.seen);
        ghost var seen1 := disk.seen;
        disk.RenameFile(COMPACT_TMP, SstName(0));
        ReplacedOpens(f, live);
        var reopened := OpenSSTable(disk, 0, SstName(0));
        ImageFields(disk);
        SwapRenamed(seen0, f, live, seen1, disk.seen, disk.Image());
        NoTablesOpen(disk);
        TablesOpenPush(disk, [], reopened.value);
        assert [] + [reopened.value] == [reopened.value] && [] + [SstName(0)] == [SstName(0)];
        sstables, sstablesNum := [reopened.value], 1;
      }
      ImageFields(disk);
      NoTablesOpen(disk);
      MakeValid(this, Replaced(f, live));
    }

    method RemoveTables(oldPaths: seq<Bytes>, ghost f: Engine)
      requires oldPaths == f.tables && MergeImage(f, disk.Image())
      modifies disk
      ensures disk.wal == old(disk.wal) && disk.dir == old(disk.dir) - Elements(oldPaths)
      ensures SeenRemoved(old(disk.seen), f, disk.seen)
    {
      hide *;
      ghost var s0 := disk.Image();
      ImageFields(disk);
      RemoveStart(oldPaths, disk.dir);
      NothingRemoved(disk.seen, f);
      for i := 0 to |oldPaths|
        invariant disk.wal == old(disk.wal) && disk.dir == old(disk.dir) - Elements(oldPaths[..i])
        invariant SeenRemoved(old(disk.seen), f, disk.seen)
      {
        ghost var seen1 := disk.seen;
        disk.RemoveFile(oldPaths[i]);
        ImageFields(disk);
        assert oldPaths[..i + 1] == oldPaths[..i] + [oldPaths[i]];
        ElementsAppend(oldPaths[..i], oldPaths[i]);
        RemovedIsSwap(f, s0, i + 1, disk.Image());
        OneMoreRemoved(old(disk.seen), f, seen1, i + 1, disk.Image());
      }
      assert oldPaths[..|oldPaths|] == oldPaths;
    }

    /** DB.Get: the MemTable first, then the tables from the newest to the oldest. */
    method Get(key: Bytes) returns (r: Result<Option<Bytes>>)
      requires closed || Valid()
      ensures key == [] ==> r == Err(ErrEmptyKey)
      ensures key != [] && closed ==> r == Err(ErrDbClosed)
      ensures key != [] && !closed ==> r == Ok(EngineSpec.Get(Model(), key))
    {
      hide Inv, Contents, TablesView, TablesOpen;
      if |key| == 0 {
        return Err(ErrEmptyKey);
      }
      if closed {
        return Err(ErrDbClosed);
      }
      var rec := memtable.Get(key);
      if rec.Some? {
        return Ok(Some(rec.value.value));
      }
      ghost var paths := Paths(sstables);
      assert paths[..|paths|] == paths;
      var i: nat := sstablesNum;
      while i > 0
        invariant i <= |sstables|
        invariant key in TablesView(disk.dir, paths) <==> key in TablesView(disk.dir, paths[..i])
        invariant key in TablesView(disk.dir, paths) ==>
                  TablesView(disk.dir, paths)[key] == TablesView(disk.dir, paths[..i])[key]
      {
        i := i - 1;
        TableAt(disk, sstables, i);
        TablesViewLast(disk.dir, paths, i);
        var found := sstables[i].Get(key);
        assert found.Ok?;
        if found.value.Some? {
          return Ok(Some(found.value.value.value));
        }
      }
      NoTables(disk.dir);
      r := Ok(None);
    }
  }

  lemma NoneCopied(dir: map<Bytes, Bytes>)
    ensures CopiedFiles(dir, []) == map[]
  {
  }

  lemma OneCopied(dir: map<Bytes, Bytes>, paths: seq<Bytes>, path: Bytes)
    requires path in dir
    ensures CopiedFiles(dir, paths + [path]) == if IsSst(path) then CopiedFiles(dir, paths)[path := dir[path]]
            else CopiedFiles(dir, paths)
  {
    hide IsSst;
  }

  /** loadSstables: open the *.sst files in directory order; the first that does not open refuses them all. */
  method LoadSstables(disk: Disk) returns (r: Result<seq<SSTable>>)
    ensures r.Err? ==> LoadError(disk.dir, SstFiles(disk.dir)) == Some(r.error)
    ensures r.Ok? ==>
              && LoadError(disk.dir, SstFiles(disk.dir)) == None
              && (forall i :: 0 <= i < |r.value| ==> fresh(r.value[i]))
              && Paths(r.value) == SstFiles(disk.dir) && TablesOn(disk.dir, disk, r.value)
  {
    hide *;
    var names := ListKeys(set n | n in disk.dir && IsSst(n));
    names := SortKeys(names);
    SstFilesAre(disk.dir);
    var tables: seq<SSTable> := [];
    NoTablesOpen(disk);
    assert names[0..] == names && names[..0] == [];
    for i := 0 to |names|
      invariant LoadError(disk.dir, names) == LoadError(disk.dir, names[i..])
      invariant forall j :: 0 <= j < |tables| ==> fresh(tables[j])
      invariant Paths(tables) == names[..i] && TablesOn(disk.dir, disk, tables)
    {
      SstFileAt(disk.dir, i);
      var nameWithoutExt := names[i][..|names[i]| - 4];
      var id := if Digits(nameWithoutExt) then Atoi(nameWithoutExt) else 0;
      LoadErrorStep(disk.dir, names[i..]);
      assert names[i..][0] == names[i] && names[i..][1..] == names[i + 1..];
      var t := OpenSSTable(disk, id, names[i]);
      if t.Err? {
        return Err(t.error);
      }
      TablesOpenPush(disk, tables, t.value);
      assert names[..i + 1] == names[..i] + [names[i]];
      tables := tables + [t.value];
    }
    assert names[|names|..] == [] && names[..|names|] == names;
    LoadErrorNone(disk.dir);
    r := Ok(tables);
  }

  lemma SstFilesAre(dir: map<Bytes, Bytes>)
    ensures SstFiles(dir) == Sorted(set n | n in dir && IsSst(n))
  {
  }

  lemma SstFileAt(dir: map<Bytes, Bytes>, i: nat)
    requires i < |SstFiles(dir)|
    ensures SstFiles(dir)[i] in dir && IsSst(SstFiles(dir)[i]) && |SstFiles(dir)[i]| >= 4
  {
    ElementsAt(SstFiles(dir), i);
  }

  lemma LoadErrorStep(dir: map<Bytes, Bytes>, names: seq<Bytes>)
    requires names != [] && names[0] in dir
    ensures LoadError(dir, names) == if LoadError(dir, [names[0]]) == None then LoadError(dir, names[1..])
            else LoadError(dir, [names[0]])
  {
    hide Parse;
    OneFile(dir, names[0]);
  }

  lemma LoadErrorNone(dir: map<Bytes, Bytes>)
    ensures LoadError(dir, []) == None
  {
  }

  /** What makes RestoreSnapshot fail: a foreign file name, or a table that does not open. */
  ghost function RestoreError(files: map<Bytes, Bytes>): Option<Error>
  {
    if exists name :: name in files && !IsSst(name) then Some(ErrInvalidPara) else LoadError(files, SstFiles(files))
  }

  lemma RestoreErrorParts(files: map<Bytes, Bytes>)
    ensures RestoreError(files) ==
            if exists name :: name in files && !IsSst(name) then Some(ErrInvalidPara)
            else LoadError(files, SstFiles(files))
  {
    hide IsSst, LoadError, SstFiles;
  }

  lemma RestoredParts(limit: nat, files: map<Bytes, Bytes>)
    ensures Restored(limit, files) == Engine(limit, Store([], files), map[], SstFiles(files))
  {
  }

  lemma ModelParts(db: DB)
    ensures db.Model() == Engine(db.memTableSize, db.disk.Image(), db.memtable.records, Paths(db.sstables))
  {
  }

  /** Open: load the tables, open the WAL, replay it into a fresh MemTable. */
  method OpenDB(disk: Disk, limit: nat) returns (r: Result<DB>)
    ensures r.Ok? <==> EngineSpec.Open(limit, disk.Image()).Ok?
    ensures r.Err? ==> EngineSpec.Open(limit, disk.Image()) == Err(r.error)
    ensures r.Ok? ==>
              && fresh(r.value) && r.value.disk == disk && !r.value.closed
              && EngineSpec.Open(limit, disk.Image()) == Ok(r.value.Model())
              && (Inv(r.value.Model()) ==> r.value.Valid())
  {
    hide *;
    ImageFields(disk);
    OpenParts(limit, disk.Image());
    var sstables := LoadSstables(disk);
    if sstables.Err? {
      return Err(sstables.error);
    }
    var wal := new WAL(disk);
    var memtable := new MemTable();
    var err := wal.Replay(memtable);
    if err.Some? {
      return Err(err.value);
    }
    ContinueEmpty(disk.wal);
    var db := new DB(disk, NormalizeLimit(limit), memtable, sstables.value, wal);
    ModelParts(db);
    if Inv(db.Model()) {
      MakeValid(db, db.Model());
    }
    r := Ok(db);
  }

  /** Close and Open on the same files, the reopening step of a run: unless a system call fails, the new database is in
      the state that step leads to. After a failure it is what Open makes of an interrupted flush. */
  method ReopenDB(db: DB, limit: nat) returns (r: Result<DB>)
    requires !db.closed && db.Valid()
    modifies db, db.disk, db.disk.calls, db.memtable, db.sstables, db.wal
    ensures db.closed && (r.Ok? ==> fresh(r.value) && r.value.disk == db.disk && !r.value.closed)
    ensures CrashImage(old(db.Model()), Op.Flush, db.disk.Image())
    ensures EngineSpec.Open(limit, db.disk.Image()) == if r.Ok? then Ok(r.value.Model()) else Err(r.error)
    ensures db.disk.Failures() == old(db.disk.Failures()) && MayStep(old(db.Model()), Op.Reopen(limit)) ==>
              r.Ok? && r.value.Valid() && r.value.Model() == Step(old(db.Model()), Op.Reopen(limit))
  {
    hide *;
    ghost var e := db.Model();
    ValidParts(db);
    var err;
    ghost var left;
    err, left := db.Close();
    if MayStep(e, Op.Reopen(limit)) {
      ReopenStep(e, limit);
    }
    r := OpenDB(db.disk, limit);
  }

  lemma ReopenStep(e: Engine, limit: nat)
    requires Inv(e) && ValidMap(e.mem) && MayStep(e, Op.Reopen(limit))
    ensures EngineSpec.Open(limit, EngineSpec.TriggerFlush(e).store) == Ok(Step(e, Op.Reopen(limit)))
    ensures Inv(Step(e, Op.Reopen(limit)))
  {
    hide Inv, Tidy, Durable, WalHolds, View, EngineSpec.TriggerFlush, EngineSpec.Open;
    var f := EngineSpec.TriggerFlush(e);
    FlushKeeps(e);
    FlushHolds(e);
    ReopenKeeps(f, limit);
    LimitIrrelevant(f, NormalizeLimit(limit));
  }

  lemma OpenParts(limit: nat, s: Store)
    ensures EngineSpec.Open(limit, s) ==
            if LoadError(s.dir, SstFiles(s.dir)).Some? then Err(LoadError(s.dir, SstFiles(s.dir)).value)
            else if ReplayError(s.wal).Some? then Err(ReplayError(s.wal).value)
            else Ok(Engine(NormalizeLimit(limit), s, Replayed(s.wal), SstFiles(s.dir)))
  {
    hide Parse, SstFiles, LoadError, ReplayError, Replayed;
  }

  lemma ContinueEmpty(wal: Bytes)
    ensures Continue(map[], Parse(wal).recs) == Replayed(wal)
  {
    hide Parse, Fold;
    assert map[] + Fold(Normalized(Parse(wal).recs)) == Fold(Normalized(Parse(wal).recs));
  }

  /** closeSstables. */
  method CloseTables(tables: seq<SSTable>)
    modifies tables
    ensures forall i :: 0 <= i < |tables| ==> tables[i].closed
  {
    for i := 0 to |tables|
      invariant forall j :: 0 <= j < i ==> tables[j].closed
    {
      tables[i].Close();
    }
  }

  /** Every table is open on its file in this directory. */
  ghost predicate TablesOn(dir: map<Bytes, Bytes>, disk: Disk, tables: seq<SSTable>)
    reads tables
  {
    forall i :: 0 <= i < |tables| ==>
      && tables[i].disk == disk && !tables[i].closed && tables[i].path in dir
      && tables[i].size == |dir[tables[i].path]| && tables[i].index == IndexFrom(dir[tables[i].path], 0)
  }

  ghost predicate TablesOpen(disk: Disk, tables: seq<SSTable>)
    reads disk, tables
  {
    TablesOn(disk.dir, disk, tables)
  }

  lemma TablesAgree(dir: map<Bytes, Bytes>, dir': map<Bytes, Bytes>, disk: Disk, tables: seq<SSTable>)
    requires TablesOn(dir, disk, tables)
    requires forall i :: 0 <= i < |tables| && tables[i].path in dir ==>
             tables[i].path in dir' && dir'[tables[i].path] == dir[tables[i].path]
    ensures TablesOn(dir', disk, tables)
  {
    hide IndexFrom;
  }

  lemma TableAt(disk: Disk, tables: seq<SSTable>, i: nat)
    requires TablesOpen(disk, tables) && i < |tables|
    ensures tables[i].disk == disk && tables[i].Current()
  {
  }

  lemma TablesViewLast(dir: map<Bytes, Bytes>, paths: seq<Bytes>, i: nat)
    requires i < |paths|
    ensures TablesView(dir, paths[..i + 1]) == TablesView(dir, paths[..i]) + Contents(File(dir, paths[i]))
  {
    hide Contents, TablesView;
    assert paths[..i + 1] == paths[..i] + [paths[i]];
    TablesViewPush(dir, paths[..i], paths[i]);
  }

  lemma ValidParts(db: DB)
    requires db.Valid()
    ensures var e := db.Model();
            && e == Engine(db.memTableSize, db.disk.Image(), db.memtable.records, Paths(db.sstables))
            && Inv(e) && ValidMap(e.mem) && |e.tables| == |db.sstables| == db.sstablesNum
            && db.wal.disk == db.disk && !db.wal.isClosed && db.memtable.Accounted()
            && TablesOn(e.store.dir, db.disk, db.sstables)
            && (db.memtable.size == 0 <==> e.mem == map[])
  {
    hide TablesInv, Leftover, NoForeignTable, ValidMap, SstName, Total, TablesOn;
    InvMemFits(db.Model());
    InvBasics(db.Model());
    CounterExact(db.memtable);
  }

  lemma MakeValid(db: DB, e: Engine)
    requires db.memTableSize == e.limit && db.disk.Image() == e.store && db.memtable.records == e.mem
             && Paths(db.sstables) == e.tables
    requires Inv(e) && db.wal.disk == db.disk && !db.wal.isClosed && db.memtable.Accounted()
             && db.sstablesNum == |db.sstables|
    requires TablesOn(e.store.dir, db.disk, db.sstables)
    ensures db.Valid() && db.Model() == e
  {
    hide Inv, TablesOn;
  }

  lemma InvMemFits(e: Engine)
    requires Inv(e)
    ensures Total(e.mem) < UINT64
  {
  }

  lemma NothingToFlush(e: Engine, seen: set<Store>)
    requires ValidMap(e.mem) && e.mem == map[]
    ensures EngineSpec.TriggerFlush(e) == e && SeenFlush(seen, e, seen)
  {
  }

  /** The files the live tables are on are not the one a flush writes. */
  lemma OthersUntouched(e: Engine, part: Bytes, disk: Disk, tables: seq<SSTable>)
    requires Inv(e) && Paths(tables) == e.tables && TablesOn(e.store.dir, disk, tables)
    ensures TablesOn(WithFile(e, part).dir, disk, tables)
  {
    hide SstName, TablesOn, Inv;
    InvBasics(e);
    forall i | 0 <= i < |tables| && tables[i].path in e.store.dir
      ensures tables[i].path in WithFile(e, part).dir
              && WithFile(e, part).dir[tables[i].path] == e.store.dir[tables[i].path] {
      assert e.tables[i] == tables[i].path;
    }
    TablesAgree(e.store.dir, WithFile(e, part).dir, disk, tables);
  }

  lemma FailedWrite(e: Engine, disk: Disk, tables: seq<SSTable>)
    requires Inv(e) && ValidMap(e.mem) && e.mem != map[] && Paths(tables) == e.tables
             && TablesOn(e.store.dir, disk, tables)
    requires disk.Image() == e.store || exists part :: AtPart(e, part, disk.Image())
    ensures Inv(e.(store := disk.Image())) && View(e.(store := disk.Image())) == View(e)
    ensures TablesOn(disk.Image().dir, disk, tables) && FlushImage(e, disk.Image())
  {
    hide Inv, View, WithFile, TablesOn, FlushImage, FlushFile;
    StoreIsImage(e);
    if disk.Image() != e.store {
      var part :| AtPart(e, part, disk.Image());
      PartState(e, part, disk.Image());
      PartIsImage(e, part);
      OthersUntouched(e, part, disk, tables);
    }
  }

  /** A whole new table can be opened, and the others are as they were. */
  lemma WholeTable(e: Engine, disk: Disk, tables: seq<SSTable>)
    requires Inv(e) && ValidMap(e.mem) && e.mem != map[] && Paths(tables) == e.tables
             && TablesOn(e.store.dir, disk, tables)
    requires disk.Image() == WithFile(e, FlushFile(e.mem))
    ensures SstName(|e.tables|) in disk.dir && LoadError(disk.dir, [SstName(|e.tables|)]) == None
    ensures TablesOn(disk.dir, disk, tables) && AtPart(e, FlushFile(e.mem), disk.Image())
  {
    hide Inv, FlushFile, SstName, TablesOn;
    MergedFileOpens(disk.dir, SstName(|e.tables|), e.mem);
    OthersUntouched(e, FlushFile(e.mem), disk, tables);
  }

  lemma TablesOpenPush(disk: Disk, tables: seq<SSTable>, t: SSTable)
    requires TablesOn(disk.dir, disk, tables) && t.disk == disk && t.Current()
    ensures TablesOn(disk.dir, disk, tables + [t]) && Paths(tables + [t]) == Paths(tables) + [t.path]
  {
    hide IndexFrom;
  }

  lemma CompactStep(e: Engine)
    requires Inv(e) && ValidMap(e.mem)
    ensures Step(e, Op.Compact) == Compacted(e)
    ensures var f := EngineSpec.TriggerFlush(e);
            && Inv(f) && Tidy(f) && f.mem == map[] && ValidMap(LiveRecords(f.store.dir, f.tables))
            && Compacted(e) == if f.tables == [] then f else Replaced(f, LiveRecords(f.store.dir, f.tables))
  {
    hide Inv, Tidy, TablesView, Replaced, EngineSpec.TriggerFlush;
    FlushKeeps(e);
    ViewValid(EngineSpec.TriggerFlush(e));
    LiveValid(EngineSpec.TriggerFlush(e).store.dir, EngineSpec.TriggerFlush(e).tables);
  }

  /** The tables of an engine can be merged into the scratch file. */
  lemma MergeReady(f: Engine, disk: Disk, tables: seq<SSTable>)
    requires Inv(f) && Paths(tables) == f.tables && f.store.dir == disk.dir && TablesOn(disk.dir, disk, tables)
    ensures Mergeable(disk, tables) && !SomeClosed(tables) && COMPACT_TMP !in Paths(tables) && COMPACT_TMP != []
  {
    hide SstName, IsSst, Parse, AscendingRecords, AllValid, Inv, IndexFrom;
    TmpIsNotSst();
    forall i | 0 <= i < |tables| ensures CleanTable(disk.dir[tables[i].path]) && tables[i].path != COMPACT_TMP {
      TableFiles(f, i);
      assert f.tables[i] == tables[i].path;
    }
  }

  lemma OnlyFileIsMerge(f: Engine, s: Store)
    ensures OnlyFile(f.store, COMPACT_TMP, s) <==> MergeImage(f, s)
  {
  }

  lemma FlushSeen(e: Engine, seen0: set<Store>, seen: set<Store>)
    requires Inv(e) && ValidMap(e.mem) && SeenFlush(seen0, e, seen)
    ensures forall s :: s in seen ==> s in seen0 || CrashImage(e, Op.Compact, s)
  {
    hide Inv, FlushImage;
  }

  lemma MergeSeen(e: Engine, seen0: set<Store>, seen1: set<Store>, seen: set<Store>)
    requires Inv(e) && ValidMap(e.mem) && forall s :: s in seen1 ==> s in seen0 || CrashImage(e, Op.Compact, s)
    requires SeenOnlyFile(seen1, EngineSpec.TriggerFlush(e).store, COMPACT_TMP, seen)
    ensures forall s :: s in seen ==> s in seen0 || CrashImage(e, Op.Compact, s)
  {
    hide Inv, FlushImage, EngineSpec.TriggerFlush;
  }

  lemma MergeSeenOne(e: Engine, seen0: set<Store>, seen1: set<Store>, s: Store)
    requires Inv(e) && ValidMap(e.mem) && forall t :: t in seen1 ==> t in seen0 || CrashImage(e, Op.Compact, t)
    requires MergeImage(EngineSpec.TriggerFlush(e), s)
    ensures forall t :: t in seen1 + {s} ==> t in seen0 || CrashImage(e, Op.Compact, t)
  {
    hide Inv, FlushImage, EngineSpec.TriggerFlush;
  }

  /** Since `seen0`, the disk has been in states the removal of the old tables goes through. */
  ghost predicate SeenRemoved(seen0: set<Store>, f: Engine, seen: set<Store>)
  {
    forall s :: s in seen ==> s in seen0 || exists i :: 0 <= i <= |f.tables| && SwapImage(f, i, s)
  }

  /** Since `seen0`, the disk has been in states the swap goes through. */
  ghost predicate SeenSwap(seen0: set<Store>, f: Engine, live: map<Bytes, Record>, seen: set<Store>)
    requires ValidMap(live)
  {
    forall s :: s in seen ==>
      || s in seen0 || s == Replaced(f, live).store
      || exists i :: 0 <= i <= |f.tables| && SwapImage(f, i, s)
  }

  lemma NothingRemoved(seen: set<Store>, f: Engine)
    ensures SeenRemoved(seen, f, seen)
  {
  }

  lemma RemoveStart(names: seq<Bytes>, dir: map<Bytes, Bytes>)
    ensures dir - Elements(names[..0]) == dir
  {
  }

  lemma RemovedIsSwap(f: Engine, s0: Store, i: nat, s: Store)
    requires MergeImage(f, s0) && i <= |f.tables| && s == s0.(dir := s0.dir - Elements(f.tables[..i]))
    ensures SwapImage(f, i, s)
  {
    hide Elements;
    var gone := Elements(f.tables[..i]);
    assert s0.dir - gone - {COMPACT_TMP} == s0.dir - {COMPACT_TMP} - gone;
    assert f.store.dir - gone - {COMPACT_TMP} == f.store.dir - {COMPACT_TMP} - gone;
  }

  lemma OneMoreRemoved(seen0: set<Store>, f: Engine, seen1: set<Store>, i: nat, s: Store)
    requires SeenRemoved(seen0, f, seen1) && i <= |f.tables| && SwapImage(f, i, s)
    ensures SeenRemoved(seen0, f, seen1 + {s})
  {
    hide SwapImage;
  }

  lemma SwapRemoved(seen0: set<Store>, f: Engine, live: map<Bytes, Record>, seen: set<Store>)
    requires ValidMap(live) && SeenRemoved(seen0, f, seen)
    ensures SeenSwap(seen0, f, live, seen)
  {
    hide SwapImage, Replaced;
  }

  lemma SwapRenamed(seen0: set<Store>, f: Engine, live: map<Bytes, Record>, seen1: set<Store>, seen: set<Store>,
      s: Store)
    requires ValidMap(live) && SeenSwap(seen0, f, live, seen1) && seen == seen1 + {s} && s == Replaced(f, live).store
    ensures SeenSwap(seen0, f, live, seen)
  {
    hide SwapImage, Replaced;
  }

  lemma UnswappedSeen(e: Engine, seen0: set<Store>, seen: set<Store>)
    requires Inv(e) && forall s :: s in seen ==> s in seen0 || CrashImage(e, Op.Compact, s)
    ensures forall s :: s in seen ==> s in seen0 || CompactImage(e, s)
  {
    hide Inv, CrashImage, SwapImage, EngineSpec.TriggerFlush, Compacted;
  }

  lemma SwappedSeen(e: Engine, seen0: set<Store>, seen2: set<Store>, live: map<Bytes, Record>, seen: set<Store>)
    requires Inv(e) && ValidMap(e.mem) && forall s :: s in seen2 ==> s in seen0 || CrashImage(e, Op.Compact, s)
    requires ValidMap(live) && Replaced(EngineSpec.TriggerFlush(e), live) == Compacted(e)
    requires SeenSwap(seen2, EngineSpec.TriggerFlush(e), live, seen)
    ensures forall s :: s in seen ==> s in seen0 || CompactImage(e, s)
  {
    hide Inv, CrashImage, SwapImage, EngineSpec.TriggerFlush, Compacted, Replaced;
  }

  lemma FlushImages(e: Engine, err: Option<Error>, e': Engine, seen0: set<Store>, seen: set<Store>)
    requires Inv(e) && Outcome(e, Op.Flush, err, e', seen0, seen)
    ensures CrashImage(e, Op.Flush, e'.store)
    ensures forall s :: s in seen ==> s in seen0 || CrashImage(e, Op.Flush, s)
  {
    hide Inv, View, EngineSpec.TriggerFlush;
    InvBasics(e);
  }

  lemma ScratchRemoved(f: Engine, s: Store, t: Store)
    requires MergeImage(f, s) && t == s.(dir := s.dir - {COMPACT_TMP})
    ensures MergeImage(f, t)
  {
    assert t.dir - {COMPACT_TMP} == s.dir - {COMPACT_TMP};
  }

  lemma MergeImageParts(f: Engine, s: Store)
    requires MergeImage(f, s)
    ensures s.wal == f.store.wal && s.dir - {COMPACT_TMP} == f.store.dir - {COMPACT_TMP}
  {
  }

  lemma ElementsIn(s: seq<Bytes>, x: Bytes)
    ensures x in Elements(s) <==> x in s
  {
  }

  lemma NoTablesOpen(disk: Disk)
    ensures TablesOn(disk.dir, disk, []) && Paths([]) == []
  {
  }

  /** The swap with nothing live: the old tables are gone. */
  lemma SwappedOut(f: Engine, live: map<Bytes, Record>, d: map<Bytes, Bytes>)
    requires ValidMap(live) && live == map[] && d - {COMPACT_TMP} == f.store.dir - {COMPACT_TMP} && COMPACT_TMP !in d
    ensures Replaced(f, live) == f.(store := f.store.(dir := d - Elements(f.tables)), tables := [])
  {
    hide SstName, FlushFile, Elements;
    assert d == f.store.dir - {COMPACT_TMP};
    assert f.store.dir - {COMPACT_TMP} - Elements(f.tables) == f.store.dir - Elements(f.tables) - {COMPACT_TMP};
  }

  /** The swap with a merged file: it has taken the first table's name. */
  lemma SwappedIn(f: Engine, live: map<Bytes, Record>, d: map<Bytes, Bytes>)
    requires ValidMap(live) && live != map[] && d - {COMPACT_TMP} == f.store.dir - {COMPACT_TMP}
    requires COMPACT_TMP in d && d[COMPACT_TMP] == FlushFile(live) && COMPACT_TMP !in Elements(f.tables)
    ensures var e := d - Elements(f.tables);
            && COMPACT_TMP in e && SstName(0) != COMPACT_TMP
            && Replaced(f, live) ==
                f.(store := f.store.(dir := e[SstName(0) := e[COMPACT_TMP]] - {COMPACT_TMP}), tables := [SstName(0)])
  {
    hide SstName, FlushFile, Elements;
    TmpIsNotSst();
    var e := d - Elements(f.tables);
    var rest := f.store.dir - Elements(f.tables) - {COMPACT_TMP};
    assert rest == d - {COMPACT_TMP} - Elements(f.tables);
    assert e - {COMPACT_TMP} == rest;
    assert e[SstName(0) := FlushFile(live)] - {COMPACT_TMP} == rest[SstName(0) := FlushFile(live)];
  }

  /** A compacted engine's one table opens. */
  lemma ReplacedOpens(f: Engine, live: map<Bytes, Record>)
    requires Inv(f) && Tidy(f) && ValidMap(live) && live != map[]
    ensures var dir := Replaced(f, live).store.dir; SstName(0) in dir && LoadError(dir, [SstName(0)]) == None
  {
    hide Inv, Tidy, FlushFile, SstName, Replaced;
    ReplacedTables(f, live);
    MergedFileOpens(Replaced(f, live).store.dir, SstName(0), live);
  }

  /** A merge that failed has touched nothing but its scratch file. */
  lemma FailedMerge(f: Engine, disk: Disk, tables: seq<SSTable>)
    requires Inv(f) && Tidy(f) && Paths(tables) == f.tables && TablesOn(f.store.dir, disk, tables)
             && COMPACT_TMP !in Paths(tables)
    requires MergeImage(f, disk.Image())
    ensures Inv(f.(store := disk.Image())) && View(f.(store := disk.Image())) == View(f)
    ensures TablesOn(disk.Image().dir, disk, tables)
  {
    hide Inv, Tidy, View, TablesOn;
    ScratchState(f, disk.Image());
    forall i | 0 <= i < |tables| && tables[i].path in f.store.dir
      ensures tables[i].path in disk.dir && disk.dir[tables[i].path] == f.store.dir[tables[i].path] {
      assert Paths(tables)[i] == tables[i].path;
      OtherFilesSame(disk.Image(), f.store, tables[i].path);
    }
    TablesAgree(f.store.dir, disk.dir, disk, tables);
  }

  /** What an operation does: a refused one nothing; a completed one its step; one that an I/O error stopped shows the
      state before it or, for a write that had been logged, after it. All the while the disk was in a state Open
      recovers from. */
  ghost predicate Outcome(e: Engine, op: Op, err: Option<Error>, e': Engine, seen0: set<Store>, seen: set<Store>)
    requires Inv(e)
  {
    && Inv(e') && e'.limit == e.limit
    && (OpError(op).Some? ==> err == OpError(op) && e' == e)
    && (err == None ==> e' == Step(e, op))
    && (OpError(op) == None && err.Some? ==> err == Some(ErrIO) && Failed(e, op, e'))
    && (forall s :: s in seen ==> s in seen0 || CrashImage(e, op, s))
  }

  lemma OpRecordFields(op: Op)
    requires (op.Put? || op.Delete?) && op.key != []
    ensures OpRecord(op) == (if op.Put? then Record(TYPE_PUT, op.key, op.value) else Record(TYPE_DELETE, op.key, []))
    ensures OpRecord(op).key == op.key && OpError(op) == CheckEncodePara(OpRecord(op))
    ensures Codec.Valid(OpRecord(op)) <==> OpError(op) == None
  {
    hide CheckEncodePara;
  }

  lemma LoggedSeen(e: Engine, op: Op, seen0: set<Store>, seen: set<Store>)
    requires Inv(e) && (op.Put? || op.Delete?)
    requires OpError(op) == None && Codec.Valid(OpRecord(op)) ==>
             seen == seen0 + WalPrefixes(e.store, Layout(OpRecord(op)))
    requires OpError(op).Some? ==> seen == seen0
    ensures OpError(op).Some? || Codec.Valid(OpRecord(op)) ==>
            forall s :: s in seen ==> s in seen0 || CrashImage(e, op, s)
  {
    hide Inv, Layout, FlushImage, Logged;
    InvBasics(e);
    if OpError(op) == None && Codec.Valid(OpRecord(op)) {
      var r := OpRecord(op);
      forall s | s in WalPrefixes(e.store, Layout(r)) ensures CrashImage(e, op, s) {
        var n :| 0 <= n <= |Layout(r)| && s == e.store.(wal := e.store.wal + Layout(r)[..n]);
        assert s == PartLog(e, r, n);
      }
    }
  }

  /** WAL.Append, seen from the engine. */
  method LogRecord(wal: WAL, r: Record, ghost e: Engine) returns (err: Option<Error>)
    requires !wal.isClosed && wal.disk.Image() == e.store
    modifies wal.disk, wal.disk.calls
    ensures wal.disk.Failures() >= old(wal.disk.Failures())
    ensures err == Some(ErrIO) <==> wal.disk.Failures() > old(wal.disk.Failures())
    ensures if err == None then Codec.Valid(r) && wal.disk.Image() == Logged(e, r).store
            else FailedLog(e, r, err, wal.disk.Image())
    ensures wal.disk.dir == old(wal.disk.dir)
    ensures if Codec.Valid(r) then wal.disk.seen == old(wal.disk.seen) + WalPrefixes(e.store, Layout(r))
            else wal.disk.seen == old(wal.disk.seen)
  {
    hide Layout;
    err := wal.Append(r);
    if err.Some? && Codec.Valid(r) {
      ghost var n :| 0 <= n <= |Layout(r)| && wal.disk.wal == e.store.wal + Layout(r)[..n];
      assert wal.disk.Image() == PartLog(e, r, n);
    }
  }

  /** What WAL.Append can leave behind when it reports an error. */
  ghost predicate FailedLog(e: Engine, r: Record, err: Option<Error>, s: Store)
  {
    if Codec.Valid(r) then err == Some(ErrIO) && exists n :: 0 <= n <= |Layout(r)| && s == PartLog(e, r, n)
    else err == CheckEncodePara(r) && s == e.store
  }

  lemma RefusedWrite(e: Engine, op: Op, err: Option<Error>, s: Store, seen0: set<Store>, seen: set<Store>)
    requires Inv(e) && (op.Put? || op.Delete?) && op.key != [] && err.Some? && FailedLog(e, OpRecord(op), err, s)
    requires forall t :: t in seen ==> t in seen0 || CrashImage(e, op, t)
    ensures Inv(e.(store := s)) && Outcome(e, op, err, e.(store := s), seen0, seen) && s.dir == e.store.dir
  {
    hide Inv, CrashImage, View, Layout, CheckEncodePara;
    OpRecordFields(op);
    WalIrrelevant(e, s.wal);
    RefusedImage(e, op, err, s);
  }

  lemma RefusedImage(e: Engine, op: Op, err: Option<Error>, s: Store)
    requires Inv(e) && (op.Put? || op.Delete?) && op.key != [] && err.Some? && FailedLog(e, OpRecord(op), err, s)
    ensures OpError(op) == None ==> CrashImage(e, op, s)
  {
    hide Inv, Layout, CheckEncodePara, FlushImage, Logged;
    OpRecordFields(op);
    InvBasics(e);
  }

  lemma FailedCompact(e: Engine, e': Engine)
    requires Inv(e) && Inv(e') && ValidMap(e.mem) && e'.limit == e.limit && View(e') == View(e)
    requires FlushImage(e, e'.store) || MergeImage(EngineSpec.TriggerFlush(e), e'.store)
    ensures Failed(e, Op.Compact, e')
  {
    hide Inv, View, FlushImage, MergeImage, EngineSpec.TriggerFlush;
  }

  lemma FailedCopy(e: Engine)
    requires Inv(e) && ValidMap(e.mem)
    ensures var f := EngineSpec.TriggerFlush(e);
            Step(e, Op.Snapshot) == f && Failed(e, Op.Snapshot, f) && View(f) == View(e)
  {
    hide Inv, View, EngineSpec.TriggerFlush;
    FlushKeeps(e);
  }

  lemma UnflushedWrite(e: Engine, op: Op, seen0: set<Store>, seen: set<Store>)
    requires Inv(e) && (op.Put? || op.Delete?) && OpError(op) == None && Fits(e, OpRecord(op))
             && Codec.Valid(OpRecord(op))
    requires Total(Logged(e, OpRecord(op)).mem) < e.limit
    requires forall s :: s in seen ==> s in seen0 || CrashImage(e, op, s)
    ensures Outcome(e, op, None, Logged(e, OpRecord(op)), seen0, seen)
  {
    hide Inv, CrashImage, View, Logged;
    LoggedInv(e, OpRecord(op));
    LoggedParts(e, OpRecord(op));
  }

  lemma FlushedWrite(e: Engine, op: Op, err: Option<Error>, e': Engine, seen0: set<Store>, seen1: set<Store>,
      seen: set<Store>)
    requires Inv(e) && (op.Put? || op.Delete?) && OpError(op) == None && Fits(e, OpRecord(op))
             && Codec.Valid(OpRecord(op))
    requires ValidMap(Logged(e, OpRecord(op)).mem) && Total(Logged(e, OpRecord(op)).mem) >= e.limit
    requires forall s :: s in seen1 ==> s in seen0 || CrashImage(e, op, s)
    requires SeenFlush(seen1, Logged(e, OpRecord(op)), seen)
    requires Inv(e') && e'.limit == e.limit
    requires err == None ==> e' == EngineSpec.TriggerFlush(Logged(e, OpRecord(op)))
    requires err.Some? ==> err == Some(ErrIO) && View(e') == View(Logged(e, OpRecord(op)))
                           && FlushImage(Logged(e, OpRecord(op)), e'.store)
    ensures Outcome(e, op, err, e', seen0, seen)
  {
    hide Inv, View, Logged, FlushImage;
    LoggedInv(e, OpRecord(op));
    InvBasics(e);
    FlushImagesOfWrite(e, op);
  }

  lemma FlushImagesOfWrite(e: Engine, op: Op)
    requires Inv(e) && (op.Put? || op.Delete?) && OpError(op) == None && Codec.Valid(OpRecord(op))
    requires ValidMap(Logged(e, OpRecord(op)).mem) && Total(Logged(e, OpRecord(op)).mem) >= e.limit
    ensures forall s :: FlushImage(Logged(e, OpRecord(op)), s) ==> CrashImage(e, op, s)
  {
    hide Inv, Logged, FlushImage;
    InvBasics(e);
  }

  lemma OutcomeParts(e: Engine, op: Op, err: Option<Error>, e': Engine, seen0: set<Store>, seen: set<Store>)
    requires Inv(e) && op.Snapshot? && Outcome(e, op, err, e', seen0, seen)
    ensures err == None ==> e' == Step(e, op)
    ensures err.Some? ==> err == Some(ErrIO) && Failed(e, op, e') && View(e') == View(e)
    ensures forall s :: s in seen ==> s in seen0 || CrashImage(e, op, s)
  {
    hide Inv, Step, View, CrashImage;
  }

  lemma FlushOutcome(e: Engine, op: Op, err: Option<Error>, e': Engine, seen0: set<Store>, seen: set<Store>)
    requires Inv(e) && ValidMap(e.mem) && (op.Flush? || op.Snapshot?) && Inv(e') && e'.limit == e.limit
             && SeenFlush(seen0, e, seen)
    requires err == None ==> e' == EngineSpec.TriggerFlush(e)
    requires err.Some? ==> err == Some(ErrIO) && View(e') == View(e) && FlushImage(e, e'.store)
    ensures Outcome(e, op, err, e', seen0, seen)
  {
    hide Inv, View, FlushImage, EngineSpec.TriggerFlush;
  }
}
