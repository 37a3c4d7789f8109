/** Where the engine's guarantees stop: what a torn tail, an interrupted swap and a five-digit table name do. */
module EngineLimits {
  import opened ByteStrings
  import opened Wrappers
  import opened TableNames
  import opened Codec
  import opened RecordLog
  import opened MemTables
  import opened EngineSpec
  import opened EngineRuns
  import opened EngineCrash

  // ----- a write that failed and comes back -----

  /** An append that wrote n bytes and then reported an error: the write does not show, and it comes back when the
      database is opened again exactly if all of it had been written. */
  lemma FailedWriteComesBack(e: Engine, op: Op, n: nat, limit: nat)
    requires Good(e) && |e.tables| <= 10000 && (op.Put? || op.Delete?) && OpError(op) == None && Valid(OpRecord(op))
    requires n <= |Layout(OpRecord(op))|
    ensures var e' := e.(store := PartLog(e, OpRecord(op), n));
            && Failed(e, op, e') && Abs(e') == Abs(e)
            && Open(limit, e'.store).Ok?
            && Abs(Open(limit, e'.store).value) == if n < |Layout(OpRecord(op))| then Abs(e) else FlatStep(Abs(e), op)
  {
    hide Inv, Tidy, Durable, Roomy, Parse, Layout, View, Live, Open;
    WalIrrelevant(e, PartLog(e, OpRecord(op), n).wal);
    LogPrefixRecovers(e, op, n, limit);
  }

  // ----- the swap of a compaction -----

  /** No key's newest record is a Put in one of the first i tables. */
  ghost predicate NothingLiveBelow(f: Engine, i: nat)
    requires i <= |f.tables|
  {
    var low, high := TablesView(f.store.dir, f.tables[..i]), TablesView(f.store.dir, f.tables[i..]);
    forall k :: k in low && k !in high ==> low[k].typ != TYPE_PUT
  }

  lemma {:induction false} TablesViewSplit(dir: map<Bytes, Bytes>, tables: seq<Bytes>, i: nat)
    requires i <= |tables|
    ensures TablesView(dir, tables) == TablesView(dir, tables[..i]) + TablesView(dir, tables[i..])
  {
    hide Contents, TablesView;
    NoTables(dir);
    if i == |tables| {
      assert tables[..i] == tables && tables[i..] == [];
    } else {
      var n := |tables| - 1;
      assert tables[..n][..i] == tables[..i] && tables[..n] + [tables[n]] == tables
             && tables[..n][i..] + [tables[n]] == tables[i..];
      TablesViewSplit(dir, tables[..n], i);
      TablesViewPush(dir, tables[..n], tables[n]);
      TablesViewPush(dir, tables[..n][i..], tables[n]);
    }
  }

  lemma LiveSplit(low: map<Bytes, Record>, high: map<Bytes, Record>)
    ensures Live(high) == Live(low + high) <==> forall k :: k in low && k !in high ==> low[k].typ != TYPE_PUT
  {
    if Live(high) == Live(low + high) {
      forall k | k in low && k !in high ensures low[k].typ != TYPE_PUT {
        assert k !in Live(high);
        assert k in low + high && (low + high)[k] == low[k];
      }
    }
  }

  /** Which tables the swap has left. */
  lemma SwapLeaves(f: Engine, i: nat, s: Store)
    requires Inv(f) && Tidy(f) && i <= |f.tables| && SwapImage(f, i, s)
    ensures s.wal == f.store.wal
    ensures forall name :: name in s.dir && IsSst(name) <==> name in f.tables[i..]
    ensures forall name :: name in f.tables[i..] ==>
            name in f.store.dir && s.dir[name] == f.store.dir[name] && CleanTable(s.dir[name])
  {
    hide SstName, IsSst, CleanTable, Leftover, Total, ValidMap;
    TmpIsNotSst();
    var gone := f.store.(dir := f.store.dir - Elements(f.tables[..i]));
    forall name ensures name in s.dir && IsSst(name) <==> name in f.tables[i..]
                ensures name in f.tables[i..] ==>
                          name in s.dir && name in f.store.dir && s.dir[name] == f.store.dir[name]
                              && CleanTable(s.dir[name]) {
      if name != COMPACT_TMP {
        OtherFilesSame(s, gone, name);
      }
      if name in f.tables[i..] {
        var j :| 0 <= j < |f.tables| - i && f.tables[i..][j] == name;
        NameGivesBackId(i + j);
        NotBefore(f, i, name);
      } else if name in f.tables {
        assert name in f.tables[..i];
      }
    }
  }

  lemma NotBefore(f: Engine, i: nat, name: Bytes)
    requires f.tables == Names(|f.tables|) && i <= |f.tables| && name in f.tables[i..]
    ensures name !in f.tables[..i]
  {
    hide SstName;
    var j :| 0 <= j < |f.tables| - i && f.tables[i..][j] == name;
    if name in f.tables[..i] {
      var k :| 0 <= k < i && f.tables[..i][k] == name;
      NamesInjective(k, i + j);
    }
  }

  lemma LastNamesAscend(n: nat, i: nat)
    requires i <= n && (n <= 10000 || i == n)
    ensures Ascending(Names(n)[i..])
  {
    hide SstName, Less;
    var left := Names(n)[i..];
    forall j, k | 0 <= j < k < |left| ensures Less(left[j], left[k]) {
      NamesOrdered(i + j, i + k);
    }
  }

  /** What is left is loaded in order. */
  lemma SwapListing(f: Engine, i: nat, s: Store)
    requires Inv(f) && Tidy(f) && i <= |f.tables| && SwapImage(f, i, s) && (|f.tables| <= 10000 || i == |f.tables|)
    ensures SstFiles(s.dir) == f.tables[i..] && LoadError(s.dir, SstFiles(s.dir)) == None
  {
    hide Inv, Tidy, SwapImage, SstName, IsSst, Ascending, AscendingRecords, AllValid, Parse;
    SwapLeaves(f, i, s);
    var left := f.tables[i..];
    InvBasics(f);
    LastNamesAscend(|f.tables|, i);
    assert Elements(left) == set n | n in s.dir && IsSst(n);
    AscendingUnique(left, SstFiles(s.dir));
    forall j | 0 <= j < |left| ensures Parse(File(s.dir, left[j])).tail == Clean {
      assert left[j] in left;
    }
    LoadErrorAt(s.dir, left);
  }

  /** A compaction stopped in its swap, wherever: the next Open succeeds with the tables not yet removed. The flat map
      is kept exactly when no key's newest record is a Put in a removed table; and the next flush then takes a live
      table's name, and truncates it, exactly when some but at most half of the tables are gone. */
  lemma InterruptedSwap(e: Engine, i: nat, s: Store, limit: nat)
    requires Inv(e) && ValidMap(e.mem) && (Durable(e) || e.mem != map[])
    requires var f := TriggerFlush(e); i <= |f.tables| && SwapImage(f, i, s) && (|f.tables| <= 10000 || i == |f.tables|)
    ensures var f, o := TriggerFlush(e), Open(limit, s);
            && o.Ok? && o.value.tables == f.tables[i..] && o.value.mem == map[]
            && View(o.value) == TablesView(f.store.dir, f.tables[i..])
            && (Abs(o.value) == Abs(e) <==> NothingLiveBelow(f, i))
            && (SstName(|o.value.tables|) in o.value.tables <==> 0 < i && 2 * i <= |f.tables|)
  {
    hide Inv, Tidy, TriggerFlush, Open, Parse, Fold, AllValid, SstName, Live, TablesView, SstFiles, SwapImage,
         LoadError;
    FlushKeeps(e);
    var f := TriggerFlush(e);
    SwapListing(f, i, s);
    SwapLeaves(f, i, s);
    SwapOpens(f, s, limit);
    var all, left := TablesView(f.store.dir, f.tables), TablesView(f.store.dir, f.tables[i..]);
    assert all + map[] == all && left + map[] == left;
    TablesViewSame(f.store.dir, s.dir, f.tables[i..]);
    TablesViewSplit(f.store.dir, f.tables, i);
    LiveSplit(TablesView(f.store.dir, f.tables[..i]), TablesView(f.store.dir, f.tables[i..]));
    NextNameClash(f, i);
  }

  lemma SwapOpens(f: Engine, s: Store, limit: nat)
    requires Durable(f) && f.mem == map[] && s.wal == f.store.wal && LoadError(s.dir, SstFiles(s.dir)) == None
    ensures Open(limit, s) == Ok(Engine(NormalizeLimit(limit), s, map[], SstFiles(s.dir)))
  {
    hide Parse, Fold, SstFiles, LoadError, Valid;
    NormalizedValid(Parse(s.wal).recs);
  }

  lemma NextNameClash(f: Engine, i: nat)
    requires Inv(f) && i <= |f.tables|
    ensures SstName(|f.tables| - i) in f.tables[i..] <==> 0 < i && 2 * i <= |f.tables|
  {
    hide SstName, CleanTable, Leftover, IsSst;
    var n := |f.tables|;
    if 0 < i && 2 * i <= n {
      assert f.tables[i..][n - 2 * i] == SstName(n - i);
    }
    if SstName(n - i) in f.tables[i..] {
      var j :| 0 <= j < n - i && f.tables[i..][j] == SstName(n - i);
      NamesInjective(i + j, n - i);
    }
  }

  /** A flush under a live table's name replaces that table's records. */
  lemma FlushOverLive(e: Engine, j: nat)
    requires j < |e.tables| && e.tables[j] == SstName(|e.tables|) && ValidMap(e.mem)
    ensures File(Flushed(e).store.dir, Flushed(e).tables[j]) == FlushFile(e.mem)
    ensures Contents(File(Flushed(e).store.dir, Flushed(e).tables[j])) == e.mem
  {
    hide SstName, FlushFile, Contents, CleanTable;
    FlushFileContents(e.mem);
  }

  // ----- more than 10000 tables -----

  /** Reopening keeps the tables in order exactly up to 10000 of them. */
  lemma ReopenOrder(e: Engine, limit: nat)
    requires Inv(e) && Tidy(e) && Durable(e)
    ensures Open(limit, e.store).Ok?
    ensures Open(limit, e.store).value.tables == e.tables <==> |e.tables| <= 10000
  {
    hide Parse, Fold, SstName, IsSst, Leftover, Total, AllValid, AscendingRecords, TablesView, Valid, SstFiles;
    var n := |e.tables|;
    InvBasics(e);
    FilesAreTables(e);
    DirectoryOrder(n);
    var names := SstFiles(e.store.dir);
    forall i | 0 <= i < |names| ensures Parse(File(e.store.dir, names[i])).tail == Clean {
      assert names[i] in Elements(names);
    }
    LoadErrorAt(e.store.dir, names);
  }

  lemma FilesAreTables(e: Engine)
    requires Inv(e) && Tidy(e)
    ensures Elements(Names(|e.tables|)) == Elements(e.tables)
    ensures SstFiles(e.store.dir) == Sorted(Elements(Names(|e.tables|)))
    ensures forall name :: name in SstFiles(e.store.dir) ==> name in e.tables
  {
    hide SstName, IsSst, CleanTable, Leftover, Total, ValidMap, Ascending;
    var n := |e.tables|;
    forall name ensures name in Elements(Names(n)) <==> name in e.store.dir && IsSst(name) {
      if name in Names(n) {
        var i :| 0 <= i < n && Names(n)[i] == name;
        NameGivesBackId(i);
        assert e.tables[i] == name;
      }
    }
    assert Elements(Names(n)) == set name | name in e.store.dir && IsSst(name);
    forall name | name in SstFiles(e.store.dir) ensures name in e.tables {
      assert name in Elements(SstFiles(e.store.dir));
    }
  }

  /** The last table that has the key decides. */
  lemma {:induction false} LastHolder(dir: map<Bytes, Bytes>, names: seq<Bytes>, q: nat, key: Bytes)
    requires q < |names| && key in Contents(File(dir, names[q]))
    requires forall j :: q < j < |names| ==> key !in Contents(File(dir, names[j]))
    ensures key in TablesView(dir, names) && TablesView(dir, names)[key] == Contents(File(dir, names[q]))[key]
  {
    hide Contents;
    if q < |names| - 1 {
      LastHolder(dir, names[..|names| - 1], q, key);
    }
  }

  /** Past 10000 tables, a key that only tables 9999 and 10000 hold reads its older record after reopening. */
  lemma ReopenPastTheBoundReadsOld(e: Engine, key: Bytes, limit: nat)
    requires Inv(e) && Tidy(e) && Durable(e) && |e.tables| > 10000 && e.mem == map[]
    requires forall j: nat :: j < |e.tables| ==>
             (key in Contents(File(e.store.dir, SstName(j))) <==> j == 9999 || j == 10000)
    ensures Get(e, key) == Some(Contents(File(e.store.dir, SstName(10000)))[key].value)
    ensures Open(limit, e.store).Ok?
    ensures Get(Open(limit, e.store).value, key) == Some(Contents(File(e.store.dir, SstName(9999)))[key].value)
  {
    hide Inv, Tidy, Durable, SstName, Contents, Less, SstFiles, TablesView, Open;
    var n := |e.tables|;
    InvBasics(e);
    LastHolder(e.store.dir, e.tables, 10000, key);
    ReopenOrder(e, limit);
    OpenMemEmpty(e, limit);
    NinetyNineLast(e, key);
  }

  /** Of the two tables that hold the key, the directory lists number 9999 last. */
  lemma NinetyNineLast(e: Engine, key: Bytes)
    requires Inv(e) && Tidy(e) && |e.tables| > 10000
    requires forall j: nat :: j < |e.tables| ==>
               (key in Contents(File(e.store.dir, SstName(j))) <==> j == 9999 || j == 10000)
    ensures var names := SstFiles(e.store.dir);
            && key in TablesView(e.store.dir, names)
            && TablesView(e.store.dir, names)[key] == Contents(File(e.store.dir, SstName(9999)))[key]
  {
    hide Inv, Tidy, SstName, Contents, Less, SstFiles, TablesView;
    var n, names := |e.tables|, SstFiles(e.store.dir);
    FilesAreTables(e);
    ElementsAt(Names(n), 9999);
    var q := IndexOf(names, SstName(9999));
    forall j | q < j < |names| ensures key !in Contents(File(e.store.dir, names[j])) {
      ElementsAt(names, j);
      var x := IndexOf(Names(n), names[j]);
      AfterNinetyNine(names, q, j);
    }
    LastHolder(e.store.dir, names, q, key);
  }

  lemma AfterNinetyNine(names: seq<Bytes>, q: nat, j: nat)
    requires Ascending(names) && q < j < |names| && names[q] == SstName(9999)
    ensures names[j] != SstName(9999) && names[j] != SstName(10000)
  {
    hide SstName, Less;
    TenThousandSortsLow();
    LessAsymmetric(SstName(10000), SstName(9999));
    LessIrreflexive(SstName(9999));
  }

  lemma OpenMemEmpty(e: Engine, limit: nat)
    requires Durable(e) && Open(limit, e.store).Ok?
    ensures var r := Open(limit, e.store).value;
            r.mem == e.mem && r.store == e.store && r.tables == SstFiles(e.store.dir)
  {
    hide Parse, Fold, SstFiles, LoadError, Valid;
    NormalizedValid(Parse(e.store.wal).recs);
  }

  lemma IndexOf(s: seq<Bytes>, x: Bytes) returns (i: nat)
    requires x in Elements(s)
    ensures i < |s| && s[i] == x
  {
    i :| 0 <= i < |s| && s[i] == x;
  }

  // ----- a run that gets there -----

  const OLD: Record := Record(TYPE_PUT, [7], [1])
  const NEW: Record := Record(TYPE_PUT, [7], [2])
  const OTHER: Record := Record(TYPE_PUT, [8], [3])

  /** The one record of table j. */
  function Only(j: nat): Record
  {
    if j == 9999 then OLD else if j == 10000 then NEW else OTHER
  }

  /** n tables have been flushed, each holding its one record. */
  ghost predicate Built(e: Engine, n: nat)
  {
    && Good(e) && e.limit == DEFAULT_MEMTABLE_SIZE && e.mem == map[] && |e.tables| == n
    && forall j: nat :: j < n ==> Contents(File(e.store.dir, SstName(j))) == map[Only(j).key := Only(j)]
  }

  function TableOps(j: nat): seq<Op>
  {
    [Op.Put(Only(j).key, Only(j).value), Flush]
  }

  lemma {:induction false} RunSnoc(e: Engine, ops: seq<Op>, op: Op)
    requires Good(e) && MayRun(e, ops) && (RunRefines(e, ops); MayStep(Run(e, ops), op))
    ensures MayRun(e, ops + [op]) && (RunRefines(e, ops); Run(e, ops + [op]) == Step(Run(e, ops), op))
    decreases |ops|
  {
    hide MayStep, Step, Inv, Tidy, Durable, Roomy;
    RunRefines(e, ops);
    if ops == [] {
      assert ops + [op] == [op] && [op][1..] == [];
      StepRefinesGood(e, op);
    } else {
      StepRefinesGood(e, ops[0]);
      RunSnoc(Step(e, ops[0]), ops[1..], op);
      assert (ops + [op])[1..] == ops[1..] + [op];
    }
  }

  lemma StepRefinesGood(e: Engine, op: Op)
    requires Good(e) && MayStep(e, op)
    ensures Good(Step(e, op))
  {
    hide Sound, Tidy, Durable, Step;
    StepRefines(e, op);
  }

  lemma SmallRecord(j: nat)
    ensures Valid(Only(j)) && Only(j).typ == TYPE_PUT && Cost(Only(j)) <= 11
    ensures TableOps(j)[0].Put? && OpError(TableOps(j)[0]) == None && OpRecord(TableOps(j)[0]) == Only(j)
  {
  }

  /** Put into an empty MemTable far below its limit: nothing is flushed. */
  lemma OnePut(e: Engine, j: nat)
    requires Good(e) && e.mem == map[] && e.limit == DEFAULT_MEMTABLE_SIZE
    ensures Step(e, TableOps(j)[0]) == Logged(e, Only(j)) && Logged(e, Only(j)).mem == map[Only(j).key := Only(j)]
  {
    hide Valid, Layout, Inv, Tidy, Durable, Only, TableOps, OpRecord, OpError;
    SmallRecord(j);
    TotalUpdate(map[], Only(j).key, Only(j));
    TotalZero(map[]);
  }

  lemma FlushBuilds(e: Engine, l: Engine, n: nat)
    requires Built(e, n) && Inv(l) && l.mem == map[Only(n).key := Only(n)]
    requires l.limit == e.limit && l.tables == e.tables && l.store.dir == e.store.dir && Good(Step(l, Flush))
    ensures Built(Step(l, Flush), n + 1)
  {
    hide Good, Inv, Only, SstName, Contents, FlushFile, Valid;
    InvBasics(l);
    FlushFileContents(l.mem);
    assert Step(l, Flush) == Flushed(l);
    var dir' := Flushed(l).store.dir;
    forall j: nat | j < n + 1 ensures Contents(File(dir', SstName(j))) == map[Only(j).key := Only(j)] {
      if j < n && SstName(j) == SstName(n) {
        NamesInjective(j, n);
      }
    }
  }

  /** One more table. */
  lemma BuildOne(e: Engine, n: nat)
    requires Built(e, n)
    ensures MayStep(e, TableOps(n)[0]) && Good(Step(e, TableOps(n)[0])) && MayStep(Step(e, TableOps(n)[0]), Flush)
    ensures Built(Step(Step(e, TableOps(n)[0]), Flush), n + 1)
  {
    hide Inv, Tidy, Durable, Roomy, Only, OpRecord, OpError, SstName, Contents, FlushFile, Step, Logged, Layout;
    SmallRecord(n);
    StepRefinesGood(e, TableOps(n)[0]);
    OnePut(e, n);
    var l := Step(e, TableOps(n)[0]);
    StepRefinesGood(l, Flush);
    LoggedParts(e, Only(n));
    FlushBuilds(e, l, n);
  }

  lemma {:induction false} BuildRun(e: Engine, n: nat) returns (ops: seq<Op>)
    requires Built(e, 0)
    ensures MayRun(e, ops) && Built(Run(e, ops), n)
  {
    hide Built, MayStep, Step, Inv, Tidy, Durable, Roomy, Sound;
    BuiltGood(e, 0);
    if n == 0 {
      ops := [];
    } else {
      ops := BuildRun(e, n - 1);
      BuildOne(Run(e, ops), n - 1);
      RunSnoc(e, ops, TableOps(n - 1)[0]);
      RunSnoc(e, ops + [TableOps(n - 1)[0]], Flush);
      ops := ops + [TableOps(n - 1)[0]] + [Flush];
    }
  }

  lemma BuiltGood(e: Engine, n: nat)
    requires Built(e, n)
    ensures Good(e)
  {
  }

  /** For every number of tables past 10000 some run of puts and flushes ends with that many tables and a key whose
      newest value reopening loses to an older one. */
  lemma EveryBoundIsPassed(n: nat, limit: nat) returns (e: Engine, ops: seq<Op>)
    requires n > 10000
    ensures Open(0, Store([], map[])) == Ok(e) && Good(e) && MayRun(e, ops)
    ensures var f := Run(e, ops);
            && |f.tables| == n && Get(f, [7]) == Some([2])
            && Open(limit, f.store).Ok? && Get(Open(limit, f.store).value, [7]) == Some([1])
  {
    hide Inv, Tidy, Durable, Roomy, SstName, Contents, Open, Get;
    EmptyIsGood(0);
    e := Open(0, Store([], map[])).value;
    EmptyIsBuilt();
    ops := BuildRun(e, n);
    ReopenPastTheBoundReadsOld(Run(e, ops), [7], limit);
  }

  lemma EmptyIsBuilt()
    ensures Open(0, Store([], map[])).Ok? && Built(Open(0, Store([], map[])).value, 0)
  {
    hide Inv, Tidy, Durable, Roomy, Contents, Parse, SstFiles, LoadError;
    EmptyIsGood(0);
    ParseEmpty();
    NoSstFiles();
  }

  lemma NoSstFiles()
    ensures SstFiles(map[]) == [] && LoadError(map[], []) == None
  {
  }

  // ----- a run that an interrupted swap harms -----

  /** The files after i old tables have been removed, whatever the scratch file holds. */
  ghost function SwapFiles(f: Engine, i: nat, scratch: Bytes): Store
    requires i <= |f.tables|
  {
    f.store.(dir := (f.store.dir - Elements(f.tables[..i]))[COMPACT_TMP := scratch])
  }

  lemma SwapFilesAreImage(f: Engine, i: nat, scratch: Bytes)
    requires i <= |f.tables|
    ensures SwapImage(f, i, SwapFiles(f, i, scratch))
  {
  }

  /** Two flushed tables, both holding OTHER. */
  lemma TwoTables(e: Engine, i: nat)
    requires Built(e, 2) && i <= 2
    ensures Inv(e) && ValidMap(e.mem) && Durable(e) && TriggerFlush(e) == e
    ensures View(e) == map[OTHER.key := OTHER]
    ensures TablesView(e.store.dir, e.tables[i..]) == if i == 2 then map[] else map[OTHER.key := OTHER]
  {
    hide Inv, Tidy, Durable, Roomy, SstName, Contents;
    InvBasics(e);
    var one: map<Bytes, Record> := map[OTHER.key := OTHER];
    assert Contents(File(e.store.dir, SstName(0))) == one && Contents(File(e.store.dir, SstName(1))) == one;
    assert e.tables == [SstName(0)] + [SstName(1)];
    NoTables(e.store.dir);
    TablesViewPush(e.store.dir, [], SstName(0));
    TablesViewPush(e.store.dir, [], SstName(1));
    TablesViewPush(e.store.dir, [SstName(0)], SstName(1));
    assert [] + [SstName(0)] == [SstName(0)] && [] + [SstName(1)] == [SstName(1)];
    assert e.tables[0..] == e.tables && e.tables[1..] == [SstName(1)] && e.tables[2..] == [];
    assert one + one == one && map[] + one == one && one + map[] == one;
  }

  /** A run of puts and flushes after which a compaction stopped in its swap has lost what was there. */
  lemma SwapCanLose(scratch: Bytes, limit: nat) returns (e: Engine, ops: seq<Op>, s: Store)
    ensures Open(0, Store([], map[])) == Ok(e) && Good(e) && MayRun(e, ops)
    ensures var f := Run(e, ops);
            && |f.tables| == 2 && SwapImage(f, 2, s) && Get(f, [8]) == Some([3])
            && Open(limit, s).Ok? && Get(Open(limit, s).value, [8]) == None
  {
    hide Inv, Tidy, Durable, Roomy, SstName, Contents, Open, Built, TriggerFlush, TablesView, SwapImage, SwapFiles;
    EmptyIsGood(0);
    e := Open(0, Store([], map[])).value;
    EmptyIsBuilt();
    ops := BuildRun(e, 2);
    var f := Run(e, ops);
    BuiltTables(f, 2);
    TwoTables(f, 2);
    s := SwapFiles(f, 2, scratch);
    SwapFilesAreImage(f, 2, scratch);
    InterruptedSwap(f, 2, s, limit);
  }

  lemma BuiltTables(e: Engine, n: nat)
    requires Built(e, n)
    ensures |e.tables| == n && e.mem == map[]
  {
  }

  /** And one after which it has lost nothing yet, but the next flush takes a live table's name and loses it. */
  lemma NextFlushCanLose(scratch: Bytes, limit: nat) returns (e: Engine, ops: seq<Op>, s: Store, o: Engine)
    ensures Open(0, Store([], map[])) == Ok(e) && Good(e) && MayRun(e, ops)
    ensures var f := Run(e, ops);
            && |f.tables| == 2 && SwapImage(f, 1, s) && Get(f, [8]) == Some([3])
            && Open(limit, s) == Ok(o) && Get(o, [8]) == Some([3])
    ensures Valid(OLD) && ValidMap(Logged(o, OLD).mem)
    ensures Get(Logged(o, OLD), [8]) == Some([3]) && Get(TriggerFlush(Logged(o, OLD)), [8]) == None
  {
    hide Inv, Tidy, Durable, Roomy, SstName, Contents, Open, Built, TablesView, SwapImage, SwapFiles, Flushed, Layout;
    EmptyIsGood(0);
    e := Open(0, Store([], map[])).value;
    EmptyIsBuilt();
    ops := BuildRun(e, 2);
    var f := Run(e, ops);
    BuiltTables(f, 2);
    TwoTables(f, 1);
    s := SwapFiles(f, 1, scratch);
    SwapFilesAreImage(f, 1, scratch);
    InterruptedSwap(f, 1, s, limit);
    o := Open(limit, s).value;
    FlushOnlyTable(f, o);
  }

  /** The one remaining table is overwritten and listed twice. */
  lemma FlushOnlyTable(f: Engine, o: Engine)
    requires Inv(f) && |f.tables| == 2 && o.tables == f.tables[1..] && o.mem == map[]
    requires View(o) == map[OTHER.key := OTHER]
    ensures Valid(OLD) && ValidMap(Logged(o, OLD).mem)
    ensures Get(Logged(o, OLD), [8]) == Some([3]) && Get(TriggerFlush(Logged(o, OLD)), [8]) == None
  {
    hide Inv, SstName, Contents, Layout, FlushFile;
    InvBasics(f);
    var l := Logged(o, OLD);
    var one: map<Bytes, Record> := map[OLD.key := OLD];
    LoggedParts(o, OLD);
    assert l.mem == one && OLD.key in l.mem;
    assert l.tables == [SstName(1)];
    FlushOverLive(l, 0);
    var g := TriggerFlush(l);
    assert g.tables == [SstName(1)] + [SstName(1)] && [] + [SstName(1)] == [SstName(1)];
    NoTables(g.store.dir);
    TablesViewPush(g.store.dir, [], SstName(1));
    TablesViewPush(g.store.dir, [SstName(1)], SstName(1));
  }
}
