/** The engine as a state machine on values: what every operation makes of the WAL, the table files and the MemTable. */
module EngineSpec {
  import opened ByteStrings
  import opened Wrappers
  import opened TableNames
  import opened Codec
  import opened RecordLog
  import opened MemTables

  const DEFAULT_MEMTABLE_SIZE := 4 * 1024 * 1024

  /** MemTableSize values for which a MemTable below the limit has room for one more record in a uint64. */
  const MAX_LIMIT := UINT64 - 0x4_0000_0000

  /** What outlives the process: the WAL file and the directory of tables. */
  datatype Store = Store(wal: Bytes, dir: map<Bytes, Bytes>)

  datatype Engine = Engine(limit: nat, store: Store, mem: map<Bytes, Record>, tables: seq<Bytes>)

  // ----- reading -----

  function File(dir: map<Bytes, Bytes>, name: Bytes): Bytes
  {
    if name in dir then dir[name] else []
  }

  /** The last record of each key in a table file. */
  function Contents(file: Bytes): map<Bytes, Record>
  {
    Fold(Parse(file).recs)
  }

  /** Later tables hide earlier ones. */
  function TablesView(dir: map<Bytes, Bytes>, tables: seq<Bytes>): map<Bytes, Record>
  {
    if tables == [] then map[] else
      TablesView(dir, tables[..|tables| - 1]) + Contents(File(dir, tables[|tables| - 1]))
  }

  function View(e: Engine): map<Bytes, Record>
  {
    TablesView(e.store.dir, e.tables) + e.mem
  }

  function PutsOnly(m: map<Bytes, Record>): map<Bytes, Record>
  {
    map k | k in m && m[k].typ == TYPE_PUT :: m[k]
  }

  /** The flat map a layered view stands for. */
  function Live(m: map<Bytes, Record>): map<Bytes, Bytes>
  {
    map k | k in m && m[k].typ == TYPE_PUT :: m[k].value
  }

  function Abs(e: Engine): map<Bytes, Bytes>
  {
    Live(View(e))
  }

  /** DB.Get: None is Go's nil, Some([]) the empty slice of a tombstone. */
  function Get(e: Engine, key: Bytes): Option<Bytes>
  {
    if key in View(e) then Some(View(e)[key].value) else None
  }

  function BytesOf(r: Option<Bytes>): Bytes
  {
    if r.Some? then r.value else []
  }

  function ReadFlat(m: map<Bytes, Bytes>, key: Bytes): Bytes
  {
    if key in m then m[key] else []
  }

  // ----- operations -----

  datatype Op =
    | Put(key: Bytes, value: Bytes)
    | Delete(key: Bytes)
    | Flush
    | Compact
    | Snapshot
    | Reopen(limit: nat)

  ghost function FlushFile(m: map<Bytes, Record>): Bytes
    requires ValidMap(m)
  {
    SortedRecordsAscend(m);
    Write(SortedRecords(m))
  }

  /** triggerFlush when there is something to flush. */
  ghost function Flushed(e: Engine): Engine
    requires ValidMap(e.mem)
  {
    var name := SstName(|e.tables|);
    Engine(e.limit, Store([], e.store.dir[name := FlushFile(e.mem)]), map[], e.tables + [name])
  }

  ghost function TriggerFlush(e: Engine): Engine
    requires ValidMap(e.mem)
  {
    if e.mem == map[] then e else Flushed(e)
  }

  /** The record reaches the WAL and the MemTable. */
  function Logged(e: Engine, r: Record): Engine
    requires Valid(r)
  {
    e.(store := e.store.(wal := e.store.wal + Layout(r)), mem := e.mem[r.key := r])
  }

  ghost function WriteRecord(e: Engine, r: Record): Engine
    requires Valid(r) && ValidMap(e.mem)
  {
    var logged := Logged(e, r);
    if Total(logged.mem) >= e.limit then TriggerFlush(logged) else logged
  }

  /** Every table goes; one table of live records, if there are any, takes the first name. */
  ghost function Replaced(f: Engine, live: map<Bytes, Record>): Engine
    requires ValidMap(live)
  {
    var rest := f.store.dir - Elements(f.tables) - {COMPACT_TMP};
    if live == map[] then f.(store := f.store.(dir := rest), tables := [])
    else f.(store := f.store.(dir := rest[SstName(0) := FlushFile(live)]), tables := [SstName(0)])
  }

  ghost function Compacted(e: Engine): Engine
    requires Inv(e)
  {
    FlushKeeps(e);
    var f := TriggerFlush(e);
    TablesViewValid(f.store.dir, f.tables);
    if f.tables == [] then f else Replaced(f, PutsOnly(TablesView(f.store.dir, f.tables)))
  }

  /** loadSstables: the *.sst files in directory order; the first unreadable one refuses the whole load. */
  ghost function SstFiles(dir: map<Bytes, Bytes>): seq<Bytes>
  {
    Sorted(set n | n in dir && IsSst(n))
  }

  function LoadError(dir: map<Bytes, Bytes>, names: seq<Bytes>): Option<Error>
  {
    if names == [] then None else
      match Parse(File(dir, names[0])).tail
      case Clean => LoadError(dir, names[1..])
      case Torn => Some(ErrIncompleteRecord)
      case Bad(e) => Some(e)
  }

  /** The callback of Open drops whatever value a Delete record carries. */
  function Normal(r: Record): Record
  {
    if r.typ == TYPE_PUT then r else Record(TYPE_DELETE, r.key, [])
  }

  function Normalized(recs: seq<Record>): (r: seq<Record>)
    ensures |r| == |recs| && forall i :: 0 <= i < |r| ==> r[i] == Normal(recs[i])
  {
    seq(|recs|, i requires 0 <= i < |recs| => Normal(recs[i]))
  }

  /** WAL replay: every whole record; a torn tail is ignored, foreign bytes refuse. */
  function ReplayError(wal: Bytes): Option<Error>
  {
    var t := Parse(wal).tail;
    if t.Bad? then Some(t.error) else None
  }

  function Replayed(wal: Bytes): map<Bytes, Record>
  {
    Fold(Normalized(Parse(wal).recs))
  }

  function NormalizeLimit(limit: nat): nat
  {
    if limit == 0 then DEFAULT_MEMTABLE_SIZE else limit
  }

  ghost function Open(limit: nat, s: Store): Result<Engine>
  {
    var names := SstFiles(s.dir);
    if LoadError(s.dir, names).Some? then Err(LoadError(s.dir, names).value)
    else if ReplayError(s.wal).Some? then Err(ReplayError(s.wal).value)
    else Ok(Engine(NormalizeLimit(limit), s, Replayed(s.wal), names))
  }

  /** What copying these tables' files amounts to. */
  function CopiedFiles(dir: map<Bytes, Bytes>, tables: seq<Bytes>): map<Bytes, Bytes>
  {
    map name | name in tables && name in dir && IsSst(name) :: dir[name]
  }

  /** The files a snapshot carries: the live tables of a flushed engine. */
  function SnapshotOf(e: Engine): map<Bytes, Bytes>
  {
    CopiedFiles(e.store.dir, e.tables)
  }

  /** Whatever has happened on disk, only the one named file has changed. */
  ghost predicate OnlyFile(before: Store, name: Bytes, s: Store)
  {
    s.wal == before.wal && s.dir - {name} == before.dir - {name}
  }

  /** RestoreSnapshot: the snapshot's files are the table directory, the WAL and the MemTable are empty. */
  ghost function Restored(limit: nat, files: map<Bytes, Bytes>): Engine
  {
    Engine(limit, Store([], files), map[], SstFiles(files))
  }

  /** What an operation answers when it does nothing. */
  function OpError(op: Op): Option<Error>
  {
    match op
    case Put(k, v) => if k == [] then Some(ErrEmptyKey) else CheckEncodePara(Record(TYPE_PUT, k, v))
    case Delete(k) => if k == [] then Some(ErrEmptyKey) else CheckEncodePara(Record(TYPE_DELETE, k, []))
    case _ => None
  }

  function OpRecord(op: Op): Record
    requires op.Put? || op.Delete?
  {
    if op.Put? then Record(TYPE_PUT, op.key, op.value) else Record(TYPE_DELETE, op.key, [])
  }

  ghost function Step(e: Engine, op: Op): Engine
    requires Inv(e)
  {
    if OpError(op).Some? then e else
    match op
    case Put(_, _) => WriteRecord(e, OpRecord(op))
    case Delete(_) => WriteRecord(e, OpRecord(op))
    case Flush => TriggerFlush(e)
    case Snapshot => TriggerFlush(e)
    case Compact => Compacted(e)
    case Reopen(limit) =>
      var r := Open(limit, TriggerFlush(e).store);
      if r.Ok? then r.value else e
  }

  /** The same operations on one flat map. */
  function FlatStep(m: map<Bytes, Bytes>, op: Op): map<Bytes, Bytes>
  {
    if OpError(op).Some? then m else
    match op
    case Put(k, v) => m[k := v]
    case Delete(k) => m - {k}
    case _ => m
  }

  // ----- invariants -----

  /** A table file a flush or a compaction has written. */
  ghost predicate CleanTable(file: Bytes)
  {
    Parse(file).tail == Clean && AscendingRecords(Parse(file).recs) && AllValid(Parse(file).recs)
  }

  /** What an interrupted flush may have left under the next table's name: part of what the MemTable still holds. */
  ghost predicate Leftover(file: Bytes, mem: map<Bytes, Record>)
  {
    mem != map[] && (Parse(file).tail == Clean || Parse(file).tail == Torn)
    && AscendingRecords(Parse(file).recs) && AllValid(Parse(file).recs) && Contents(file).Keys <= mem.Keys
  }

  ghost predicate TablesInv(dir: map<Bytes, Bytes>, tables: seq<Bytes>)
  {
    tables == Names(|tables|) && forall i :: 0 <= i < |tables| ==> tables[i] in dir && CleanTable(dir[tables[i]])
  }

  ghost predicate NoForeignTable(dir: map<Bytes, Bytes>, n: nat)
  {
    forall name :: name in dir && IsSst(name) ==> name in Names(n)
  }

  /** What every operation keeps, failed ones included. */
  ghost predicate Inv(e: Engine)
  {
    && TablesInv(e.store.dir, e.tables)
    && ValidMap(e.mem)
    && Total(e.mem) < UINT64
    && NoForeignTable(e.store.dir, |e.tables| + 1)
    && (SstName(|e.tables|) in e.store.dir ==> Leftover(e.store.dir[SstName(|e.tables|)], e.mem))
  }

  /** The live tables are the only tables on disk. */
  ghost predicate Tidy(e: Engine)
  {
    NoForeignTable(e.store.dir, |e.tables|)
  }

  /** The WAL holds exactly the MemTable and no torn tail. */
  ghost predicate Durable(e: Engine)
  {
    Parse(e.store.wal).tail == Clean && AllValid(Parse(e.store.wal).recs) && Fold(Parse(e.store.wal).recs) == e.mem
  }

  lemma InvBasics(e: Engine)
    requires Inv(e)
    ensures ValidMap(e.mem) && e.tables == Names(|e.tables|) && SstName(|e.tables|) !in e.tables
    ensures TablesInv(e.store.dir, e.tables)
  {
    hide SstName, CleanTable, Leftover, IsSst;
    NextNameIsNew(|e.tables|);
  }

  lemma TableFiles(e: Engine, i: nat)
    requires Inv(e) && i < |e.tables|
    ensures e.tables[i] == SstName(i) && SstName(i) in e.store.dir && CleanTable(e.store.dir[SstName(i)])
  {
    hide SstName, CleanTable, Leftover, IsSst;
  }

  // ----- the view -----

  lemma {:induction false} TablesViewSame(dir: map<Bytes, Bytes>, dir': map<Bytes, Bytes>, tables: seq<Bytes>)
    requires forall i :: 0 <= i < |tables| ==> File(dir, tables[i]) == File(dir', tables[i])
    ensures TablesView(dir, tables) == TablesView(dir', tables)
  {
    hide Contents;
    if tables != [] {
      TablesViewSame(dir, dir', tables[..|tables| - 1]);
    }
  }

  lemma TablesViewPush(dir: map<Bytes, Bytes>, tables: seq<Bytes>, name: Bytes)
    ensures TablesView(dir, tables + [name]) == TablesView(dir, tables) + Contents(File(dir, name))
  {
    hide Contents;
    assert (tables + [name])[..|tables|] == tables;
  }

  lemma {:induction false} TablesViewValid(dir: map<Bytes, Bytes>, tables: seq<Bytes>)
    requires forall i :: 0 <= i < |tables| ==> tables[i] in dir && AllValid(Parse(dir[tables[i]]).recs)
    ensures ValidMap(TablesView(dir, tables))
  {
    hide Parse, Fold, Valid;
    if tables != [] {
      var n := |tables| - 1;
      TablesViewValid(dir, tables[..n]);
      FoldValid(Parse(dir[tables[n]]).recs);
    }
  }

  lemma FlushFileContents(m: map<Bytes, Record>)
    requires ValidMap(m)
    ensures CleanTable(FlushFile(m)) && Parse(FlushFile(m)).recs == SortedRecords(m) && Contents(FlushFile(m)) == m
  {
    hide Parse, Fold, Valid, Less, Write;
    SortedRecordsAscend(m);
    ParseWrite(SortedRecords(m));
    FoldSortedRecords(m);
  }

  lemma NextNameIsNew(n: nat)
    ensures SstName(n) !in Names(n) && IsSst(SstName(n)) && Names(n + 1) == Names(n) + [SstName(n)]
  {
    hide SstName;
    NameGivesBackId(n);
    if SstName(n) in Names(n) {
      var i :| 0 <= i < n && Names(n)[i] == SstName(n);
      NamesInjective(i, n);
    }
  }

  /** A new table hides what is under it, provided its name is new. */
  lemma AddTable(dir: map<Bytes, Bytes>, tables: seq<Bytes>, name: Bytes, file: Bytes)
    requires name !in tables
    ensures TablesView(dir[name := file], tables + [name]) == TablesView(dir, tables) + Contents(file)
  {
    hide Contents, TablesView;
    assert forall i :: 0 <= i < |tables| ==> tables[i] in tables;
    TablesViewSame(dir, dir[name := file], tables);
    TablesViewPush(dir[name := file], tables, name);
  }

  lemma FlushedView(e: Engine)
    requires ValidMap(e.mem) && SstName(|e.tables|) !in e.tables
    ensures View(Flushed(e)) == View(e)
  {
    hide SstName, ValidMap, FlushFile, CleanTable, Contents, TablesView;
    FlushFileContents(e.mem);
    AddTable(e.store.dir, e.tables, SstName(|e.tables|), FlushFile(e.mem));
    assert View(e) + map[] == View(e);
  }

  lemma FlushedTables(e: Engine)
    requires Inv(e)
    ensures TablesInv(Flushed(e).store.dir, Flushed(e).tables)
    ensures NoForeignTable(Flushed(e).store.dir, |e.tables| + 1)
  {
    hide SstName, FlushFile, CleanTable, Leftover, IsSst, ValidMap, Total;
    NextNameIsNew(|e.tables|);
    FlushFileContents(e.mem);
  }

  /** A flush keeps the view, leaves nothing behind and empties the WAL. */
  lemma FlushedKeeps(e: Engine)
    requires Inv(e)
    ensures Inv(Flushed(e)) && Tidy(Flushed(e)) && Durable(Flushed(e)) && View(Flushed(e)) == View(e)
  {
    hide SstName, FlushFile, TablesInv, Leftover, IsSst, View, Decode;
    var n, f := |e.tables|, Flushed(e);
    InvBasics(e);
    FlushedView(e);
    FlushedTables(e);
    NextNameIsNew(n);
    NextNameIsNew(n + 1);
    EndOfFile([]);
    assert SstName(n + 1) !in f.store.dir;
  }

  /** triggerFlush keeps the view and the durability of the MemTable. */
  lemma FlushKeeps(e: Engine)
    requires Inv(e)
    ensures Inv(TriggerFlush(e)) && View(TriggerFlush(e)) == View(e)
    ensures Tidy(TriggerFlush(e)) && TriggerFlush(e).mem == map[] && TriggerFlush(e).limit == e.limit
    ensures Durable(e) || e.mem != map[] ==> Durable(TriggerFlush(e))
  {
    hide SstName, CleanTable, Parse, IsSst, Fold;
    NextNameIsNew(|e.tables|);
    if e.mem != map[] {
      FlushedKeeps(e);
    }
  }
}
