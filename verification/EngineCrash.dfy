/** What a process that stops in the middle of an operation leaves on disk, and what the next Open makes of it. */
module EngineCrash {
  import opened ByteStrings
  import opened Wrappers
  import opened TableNames
  import opened Codec
  import opened RecordLog
  import opened MemTables
  import opened EngineSpec
  import opened EngineRuns

  // ----- crash images -----

  /** The first n bytes of the new table are on disk; the WAL is still whole. */
  ghost function PartTable(e: Engine, n: nat): Store
    requires ValidMap(e.mem) && n <= |FlushFile(e.mem)|
  {
    e.store.(dir := e.store.dir[SstName(|e.tables|) := FlushFile(e.mem)[..n]])
  }

  /** triggerFlush stopped before it began, while writing the table, before or after truncating the WAL. */
  ghost predicate FlushImage(e: Engine, s: Store)
    requires ValidMap(e.mem)
  {
    || s == e.store
    || (e.mem != map[] && exists n :: 0 <= n <= |FlushFile(e.mem)| && s == PartTable(e, n))
    || s == TriggerFlush(e).store
  }

  /** The first n bytes of the record have reached the WAL. */
  function PartLog(e: Engine, r: Record, n: nat): Store
    requires Valid(r) && n <= |Layout(r)|
  {
    e.store.(wal := e.store.wal + Layout(r)[..n])
  }

  ghost predicate WriteImage(e: Engine, r: Record, s: Store)
    requires Valid(r) && ValidMap(e.mem)
  {
    || (exists n :: 0 <= n <= |Layout(r)| && s == PartLog(e, r, n))
    || (Total(Logged(e, r).mem) >= e.limit && FlushImage(Logged(e, r), s))
  }

  /** The merge has done whatever it does with its scratch file; the swap has not begun. */
  ghost predicate MergeImage(f: Engine, s: Store)
  {
    OnlyFile(f.store, COMPACT_TMP, s)
  }

  /** Where the disk can be when an operation is interrupted (for Compact: before its swap of files). */
  ghost predicate CrashImage(e: Engine, op: Op, s: Store)
    requires Inv(e)
  {
    if OpError(op).Some? then s == e.store
    else match op
      case Put(_, _) => WriteImage(e, OpRecord(op), s)
      case Delete(_) => WriteImage(e, OpRecord(op), s)
      case Compact => FlushImage(e, s) || MergeImage(TriggerFlush(e), s)
      case _ => FlushImage(e, s)
  }

  /** The files after i of the old tables have been removed and before the new one is renamed. */
  ghost predicate SwapImage(f: Engine, i: nat, s: Store)
    requires i <= |f.tables|
  {
    OnlyFile(f.store.(dir := f.store.dir - Elements(f.tables[..i])), COMPACT_TMP, s)
  }

  /** Where the disk can be during a compaction, its swap included: before, after i of the old tables are gone,
      after. */
  ghost predicate CompactImage(e: Engine, s: Store)
    requires Inv(e)
  {
    InvBasics(e);
    var f := TriggerFlush(e);
    || CrashImage(e, Op.Compact, s) || s == Compacted(e).store
    || exists i :: 0 <= i <= |f.tables| && SwapImage(f, i, s)
  }

  // ----- recovery -----

  /** Under the name after n tables there is a file that ends inside a record: a flush was stopped there. */
  ghost predicate TornTable(n: nat, s: Store)
  {
    SstName(n) in s.dir && Parse(s.dir[SstName(n)]).tail == Torn
  }

  /** The result of reopening: refused exactly if the table after the live ones is torn, and otherwise the same view on
      top of the surviving files. */
  ghost predicate Recovered(r: Result<Engine>, e: Engine, limit: nat)
  {
    match r
    case Err(error) => error == ErrIncompleteRecord && TornTable(|e.tables|, e.store)
    case Ok(e') =>
      && !TornTable(|e.tables|, e.store)
      && Inv(e') && Tidy(e') && View(e') == View(e) && e'.store == e.store && e'.mem == e.mem
      && e'.limit == NormalizeLimit(limit) && WalHolds(e')
      && (Parse(e.store.wal).tail == Clean ==> Durable(e'))
  }

  lemma RecoverTidy(limit: nat, e: Engine)
    requires Inv(e) && Tidy(e) && WalHolds(e) && |e.tables| <= 10000
    ensures Recovered(Open(limit, e.store), e, limit) && Open(limit, e.store).Ok?
  {
    hide Inv, Parse, Fold, TablesInv, SstName, AllValid, View, Open, IsSst;
    InvBasics(e);
    NextNameIsNew(|e.tables|);
    ReopenKeeps(e, limit);
    LimitIrrelevant(e, NormalizeLimit(limit));
  }

  /** A leftover that reads as whole becomes a table under what the MemTable still holds. */
  lemma LeftoverHidden(e: Engine)
    requires Inv(e) && SstName(|e.tables|) in e.store.dir && Parse(e.store.dir[SstName(|e.tables|)]).tail == Clean
    ensures var e' := e.(tables := e.tables + [SstName(|e.tables|)]);
            Inv(e') && Tidy(e') && View(e') == View(e)
  {
    hide Parse, Fold, SstName, IsSst, Valid, TablesView, AscendingRecords, Total;
    var n := |e.tables|;
    var file := e.store.dir[SstName(n)];
    NextNameIsNew(n);
    NextNameIsNew(n + 1);
    TablesViewPush(e.store.dir, e.tables, SstName(n));
    assert Contents(file) + e.mem == e.mem;
    assert TablesView(e.store.dir, e.tables) + Contents(file) + e.mem == TablesView(e.store.dir, e.tables) + e.mem;
  }

  /** A leftover that is torn makes Open refuse. */
  lemma RefusesTornTable(limit: nat, e: Engine)
    requires Inv(e) && |e.tables| < 10000
    requires SstName(|e.tables|) in e.store.dir && Parse(e.store.dir[SstName(|e.tables|)]).tail == Torn
    ensures Open(limit, e.store) == Err(ErrIncompleteRecord)
  {
    hide Parse, SstName, Inv, SstFiles, AllValid, AscendingRecords;
    var n := |e.tables|;
    var dir := e.store.dir;
    forall i | 0 <= i < n ensures SstName(i) in dir && Parse(dir[SstName(i)]).tail == Clean {
      TableFiles(e, i);
    }
    ListsLeftover(e);
    LoadErrorAt(dir, Names(n + 1));
  }

  lemma ListsLeftover(e: Engine)
    requires Inv(e) && |e.tables| < 10000 && SstName(|e.tables|) in e.store.dir
    ensures SstFiles(e.store.dir) == Names(|e.tables| + 1)
  {
    hide SstName, IsSst, CleanTable, Leftover, SstFiles, Total, ValidMap;
    DirectoryListsTables(e.store.dir, |e.tables| + 1);
  }

  lemma LeftoverThere(e: Engine)
    requires Inv(e) && !Tidy(e)
    ensures SstName(|e.tables|) in e.store.dir && Leftover(e.store.dir[SstName(|e.tables|)], e.mem)
  {
    hide SstName, IsSst, CleanTable, Leftover;
    NextNameIsNew(|e.tables|);
  }

  lemma RecoverLeftover(limit: nat, e: Engine)
    requires Inv(e) && !Tidy(e) && WalHolds(e) && |e.tables| < 10000
    ensures Recovered(Open(limit, e.store), e, limit)
  {
    hide Parse, Fold, SstName, Inv, Tidy, AllValid, View, AscendingRecords, Contents, Open;
    var n := |e.tables|;
    LeftoverThere(e);
    if Parse(e.store.dir[SstName(n)]).tail == Clean {
      LeftoverHidden(e);
      RecoverTidy(limit, e.(tables := e.tables + [SstName(n)]));
    } else {
      RefusesTornTable(limit, e);
    }
  }

  /** Open after a crash: refused exactly if a flush was stopped inside its table, and otherwise nothing is lost. */
  lemma Recover(limit: nat, e: Engine)
    requires Inv(e) && WalHolds(e) && |e.tables| + (if Tidy(e) then 0 else 1) <= 10000
    ensures Recovered(Open(limit, e.store), e, limit)
    ensures Tidy(e) ==> Open(limit, e.store).Ok?
  {
    hide Inv, WalHolds, Open, Recovered;
    if Tidy(e) {
      RecoverTidy(limit, e);
    } else {
      RecoverLeftover(limit, e);
    }
  }

  // ----- every crash image is a state of some engine -----

  lemma PartTableState(e: Engine, n: nat)
    requires Inv(e) && e.mem != map[] && n <= |FlushFile(e.mem)|
    ensures Inv(e.(store := PartTable(e, n))) && View(e.(store := PartTable(e, n))) == View(e)
  {
    hide FlushFile, Leftover, SstName, IsSst, CleanTable, TablesView, Total;
    var name, dir' := SstName(|e.tables|), PartTable(e, n).dir;
    InvBasics(e);
    NextNameIsNew(|e.tables|);
    PartIsLeftover(e.mem, n);
    assert forall i :: 0 <= i < |e.tables| ==> e.tables[i] in e.tables;
    TablesViewSame(e.store.dir, dir', e.tables);
  }

  lemma PartIsLeftover(mem: map<Bytes, Record>, n: nat)
    requires ValidMap(mem) && mem != map[] && n <= |FlushFile(mem)|
    ensures Leftover(FlushFile(mem)[..n], mem)
  {
    hide Parse, Fold, Write, Less, Valid;
    var recs := SortedRecords(mem);
    SortedRecordsAscend(mem);
    var m := ParseCut(recs, n);
    FoldPrefix(recs, m);
    FoldSortedRecords(mem);
  }

  lemma FlushImageState(e: Engine, s: Store) returns (e1: Engine)
    requires Inv(e) && WalHolds(e) && FlushImage(e, s)
    ensures Inv(e1) && WalHolds(e1) && View(e1) == View(e) && e1.store == s && |e1.tables| <= |e.tables| + 1
    ensures |e1.tables| > |e.tables| ==> Tidy(e1)
    ensures TornTable(|e.tables|, s) <==> TornTable(|e1.tables|, s)
  {
    hide Inv, Tidy, Durable, View, FlushFile, Parse, AllValid, Fold, SstName, TornTable;
    InvBasics(e);
    if s == e.store {
      e1 := e;
    } else if s == TriggerFlush(e).store {
      e1 := TriggerFlush(e);
      FlushKeeps(e);
      DurableHolds(e1);
      NoneTorn(e, e1);
    } else {
      var n :| 0 <= n <= |FlushFile(e.mem)| && s == PartTable(e, n);
      e1 := e.(store := s);
      PartTableState(e, n);
    }
  }

  /** A table that is live is not torn, and a tidy engine has none after those. */
  lemma NoneTorn(e: Engine, e1: Engine)
    requires Inv(e1) && Tidy(e1) && |e.tables| <= |e1.tables|
    ensures !TornTable(|e.tables|, e1.store) && !TornTable(|e1.tables|, e1.store)
  {
    hide Parse, SstName, IsSst, Leftover, Total, ValidMap, AllValid, AscendingRecords;
    NextNameIsNew(|e1.tables|);
    if |e.tables| < |e1.tables| {
      TableFiles(e1, |e.tables|);
    }
  }

  lemma PartLogState(e: Engine, r: Record, n: nat) returns (e1: Engine)
    requires Inv(e) && Durable(e) && Valid(r) && Fits(e, r) && n <= |Layout(r)|
    ensures Inv(e1) && WalHolds(e1) && e1.store == PartLog(e, r, n) && e1.tables == e.tables
    ensures n < |Layout(r)| ==> View(e1) == View(e)
    ensures n == |Layout(r)| ==> View(e1) == View(e)[r.key := r]
    ensures Tidy(e) ==> Tidy(e1)
  {
    hide Parse, Fold, Layout, TablesInv, Leftover, NoForeignTable, AllValid, Total, TablesView, SstName;
    if n == |Layout(r)| {
      e1 := Logged(e, r);
      LoggedInv(e, r);
      LoggedDurable(e, r);
      DurableHolds(e1);
      assert Layout(r)[..n] == Layout(r);
    } else {
      e1 := e.(store := PartLog(e, r, n));
      if n == 0 {
        assert e.store.wal + Layout(r)[..0] == e.store.wal;
      } else {
        ParseTorn(r, n);
        ParseAppend(e.store.wal, Layout(r)[..n]);
        assert Parse(e.store.wal).recs + [] == Parse(e.store.wal).recs;
      }
    }
  }

  /** The outcome of stopping anywhere in one operation of an engine of n tables: reopening is refused exactly if table
      n is torn, and otherwise shows the state before or after the operation. */
  ghost predicate Survives(r: Result<Engine>, n: nat, before: map<Bytes, Bytes>, after: map<Bytes, Bytes>, limit: nat,
      s: Store)
  {
    match r
    case Err(error) => error == ErrIncompleteRecord && TornTable(n, s)
    case Ok(e') =>
      && !TornTable(n, s)
      && Inv(e') && Tidy(e') && WalHolds(e') && e'.limit == NormalizeLimit(limit) && e'.store == s
      && (Abs(e') == before || Abs(e') == after)
      && (Parse(s.wal).tail == Clean ==> Durable(e'))
  }

  lemma SurvivesWrite(e: Engine, op: Op, s: Store, limit: nat)
    requires Inv(e) && Durable(e) && |e.tables| < 10000
    requires (op.Put? || op.Delete?) && OpError(op) == None && Fits(e, OpRecord(op)) && Valid(OpRecord(op))
    requires WriteImage(e, OpRecord(op), s)
    ensures Survives(Open(limit, s), |e.tables|, Abs(e), FlatStep(Abs(e), op), limit, s)
  {
    hide Inv, Tidy, Durable, WalHolds, View, Live, Open, Valid, Parse, Layout, FlushImage, TornTable;
    var r := OpRecord(op);
    InvBasics(e);
    LiveUpdate(View(e), r);
    assert Live(View(e)[r.key := r]) == FlatStep(Abs(e), op);
    var e1;
    if n :| 0 <= n <= |Layout(r)| && s == PartLog(e, r, n) {
      e1 := PartLogState(e, r, n);
    } else {
      LoggedInv(e, r);
      LoggedDurable(e, r);
      DurableHolds(Logged(e, r));
      e1 := FlushImageState(Logged(e, r), s);
    }
    Recover(limit, e1);
  }

  lemma OtherFilesSame(s: Store, t: Store, name: Bytes)
    requires s.dir - {COMPACT_TMP} == t.dir - {COMPACT_TMP} && name != COMPACT_TMP
    ensures name in s.dir <==> name in t.dir
    ensures name in s.dir ==> s.dir[name] == t.dir[name]
  {
    assert name in s.dir <==> name in s.dir - {COMPACT_TMP};
    assert name in t.dir <==> name in t.dir - {COMPACT_TMP};
  }

  lemma ScratchState(f: Engine, s: Store)
    requires Inv(f) && Tidy(f) && MergeImage(f, s)
    ensures var f1 := f.(store := s);
            Inv(f1) && Tidy(f1) && View(f1) == View(f) && (WalHolds(f) ==> WalHolds(f1))
  {
    hide SstName, IsSst, CleanTable, Leftover, TablesView, Total, Parse, Fold, AllValid, ValidMap;
    TmpIsNotSst();
    forall name | name != COMPACT_TMP ensures name in s.dir <==> name in f.store.dir
                                      ensures name in s.dir ==> s.dir[name] == f.store.dir[name] {
      OtherFilesSame(s, f.store, name);
    }
    assert forall i :: 0 <= i < |f.tables| ==> f.tables[i] == SstName(i);
    TablesViewSame(f.store.dir, s.dir, f.tables);
    NextNameIsNew(|f.tables|);
  }

  lemma SurvivesFlush(e: Engine, op: Op, s: Store, limit: nat)
    requires Inv(e) && WalHolds(e) && |e.tables| < 10000
    requires !op.Put? && !op.Delete? && CrashImage(e, op, s)
    ensures Survives(Open(limit, s), |e.tables|, Abs(e), Abs(e), limit, s)
  {
    hide Inv, Tidy, Durable, WalHolds, View, Live, Open, Parse, FlushImage, TornTable;
    InvBasics(e);
    var e1;
    if FlushImage(e, s) {
      e1 := FlushImageState(e, s);
    } else {
      FlushKeeps(e);
      FlushHolds(e);
      ScratchState(TriggerFlush(e), s);
      e1 := TriggerFlush(e).(store := s);
      FlushAddsOne(e);
      NoneTorn(e, e1);
    }
    Recover(limit, e1);
  }

  lemma FlushAddsOne(e: Engine)
    requires ValidMap(e.mem)
    ensures |e.tables| <= |TriggerFlush(e).tables| <= |e.tables| + 1
  {
  }

  lemma {:induction false} NormalizedCosts(recs: seq<Record>)
    ensures Costs(Normalized(recs)) <= Costs(recs)
  {
    if recs != [] {
      assert Normalized(recs)[1..] == Normalized(recs[1..]);
      NormalizedCosts(recs[1..]);
    }
  }

  /** A replayed MemTable is no bigger than the WAL it came from. */
  lemma ReplayedTotal(wal: Bytes)
    ensures Total(Replayed(wal)) <= |wal|
  {
    FoldTotal(Normalized(Parse(wal).recs));
    NormalizedCosts(Parse(wal).recs);
    ParseCosts(wal);
  }

  /** What the WAL must hold for a crash in this operation to be recovered from: to stop inside an append, exactly the
      MemTable; elsewhere a torn tail does no harm. */
  ghost predicate MayStop(e: Engine, op: Op)
  {
    if (op.Put? || op.Delete?) && OpError(op) == None then Durable(e) else WalHolds(e)
  }

  /** Crash safety of every operation: at any byte, the next Open refuses exactly if a flush was stopped inside its
      table, and otherwise shows the state just before or just after. */
  lemma CrashSafe(e: Engine, op: Op, s: Store, limit: nat)
    requires Inv(e) && Roomy(e) && MayStop(e, op) && |e.tables| < 10000 && CrashImage(e, op, s)
    ensures Survives(Open(limit, s), |e.tables|, Abs(e), FlatStep(Abs(e), op), limit, s)
  {
    hide Inv, Tidy, Durable, WalHolds, Abs, Open, Parse, WriteImage, FlushImage, Roomy, TornTable;
    if OpError(op) == None && (op.Put? || op.Delete?) {
      OpRecordValid(op);
      RoomyFits(e, OpRecord(op));
      SurvivesWrite(e, op, s, limit);
    } else if OpError(op).Some? {
      CrashBefore(e, limit);
    } else {
      SurvivesFlush(e, op, s, limit);
    }
  }

  lemma CrashBefore(e: Engine, limit: nat)
    requires Inv(e) && WalHolds(e) && |e.tables| < 10000
    ensures Survives(Open(limit, e.store), |e.tables|, Abs(e), Abs(e), limit, e.store)
  {
    SurvivesFlush(e, Op.Flush, e.store, limit);
  }

  /** A crash inside an append is always recovered from: before the last byte the operation has not happened, with the
      last byte it has. */
  lemma LogPrefixRecovers(e: Engine, op: Op, n: nat, limit: nat)
    requires Good(e) && |e.tables| <= 10000 && (op.Put? || op.Delete?) && OpError(op) == None && Valid(OpRecord(op))
    requires n <= |Layout(OpRecord(op))|
    ensures var o := Open(limit, PartLog(e, OpRecord(op), n));
            && o.Ok? && Inv(o.value) && Tidy(o.value) && WalHolds(o.value)
            && Abs(o.value) == if n < |Layout(OpRecord(op))| then Abs(e) else FlatStep(Abs(e), op)
  {
    hide Inv, Tidy, Durable, WalHolds, Roomy, View, Live, Open, Layout, TornTable, Parse;
    var r := OpRecord(op);
    RoomyFits(e, r);
    LiveUpdate(View(e), r);
    var e1 := PartLogState(e, r, n);
    Recover(limit, e1);
  }

  /** A crash inside a flush makes every later Open refuse exactly if the table file ends inside a record. */
  lemma PartTableRefusesIff(e: Engine, n: nat, limit: nat)
    requires Inv(e) && WalHolds(e) && |e.tables| < 10000 && e.mem != map[] && n <= |FlushFile(e.mem)|
    ensures Open(limit, PartTable(e, n)) == Err(ErrIncompleteRecord) <==> Parse(FlushFile(e.mem)[..n]).tail == Torn
    ensures var o := Open(limit, PartTable(e, n)); o.Ok? ==> View(o.value) == View(e)
  {
    hide Inv, Tidy, View, Open, FlushFile, Parse, SstName, Fold, AllValid;
    InvBasics(e);
    PartTableState(e, n);
    Recover(limit, e.(store := PartTable(e, n)));
  }

  /** Every flush can be stopped so: after its first byte. */
  lemma FirstByteRefuses(e: Engine, limit: nat)
    requires Inv(e) && WalHolds(e) && |e.tables| < 10000 && e.mem != map[]
    ensures |FlushFile(e.mem)| > 1 && Open(limit, PartTable(e, 1)) == Err(ErrIncompleteRecord)
  {
    hide Inv, WalHolds, Open, Parse, FlushFile, PartTable;
    InvBasics(e);
    FirstByteTorn(e.mem);
    PartTableRefusesIff(e, 1, limit);
  }

  lemma FirstByteTorn(m: map<Bytes, Record>)
    requires ValidMap(m) && m != map[]
    ensures |FlushFile(m)| > 1 && Parse(FlushFile(m)[..1]).tail == Torn
  {
    hide Parse, Layout, Write, Fold, SortedRecords, AscendingRecords;
    var recs := SortedRecords(m);
    SortedRecordsAscend(m);
    FoldSortedRecords(m);
    FoldEmpty();
    WriteFirst(recs, |recs|);
    assert Write(recs)[..1] == Layout(recs[0])[..1];
    ParseTorn(recs[0], 1);
  }

  // ----- operations that fail -----

  /** What an operation that reports an I/O error leaves: an engine that shows the state before it or, for a write that
      had been logged, after it, on files that a crash in the operation could have left as well. */
  ghost predicate Failed(e: Engine, op: Op, e': Engine)
    requires Inv(e)
  {
    && OpError(op) == None && !op.Reopen?
    && Inv(e') && e'.limit == e.limit && CrashImage(e, op, e'.store)
    && (View(e') == View(e) || ((op.Put? || op.Delete?) && View(e') == View(e)[op.key := OpRecord(op)]))
  }

  /** To the flat map a failed operation happened or did not. */
  lemma FailedShows(e: Engine, op: Op, e': Engine)
    requires Inv(e) && Failed(e, op, e')
    ensures Abs(e') == Abs(e) || ((op.Put? || op.Delete?) && Abs(e') == FlatStep(Abs(e), op))
  {
    hide Inv, CrashImage, CheckEncodePara, View, Live;
    if View(e') != View(e) {
      LiveUpdate(View(e), OpRecord(op));
    }
  }

  /** Stopping after a failed operation is no worse than stopping inside it. */
  lemma FailedThenReopened(e: Engine, op: Op, e': Engine, limit: nat)
    requires Inv(e) && Roomy(e) && MayStop(e, op) && |e.tables| < 10000 && Failed(e, op, e')
    ensures Survives(Open(limit, e'.store), |e.tables|, Abs(e), FlatStep(Abs(e), op), limit, e'.store)
  {
    hide *;
    FailedFields(e, op, e');
    CrashSafe(e, op, e'.store, limit);
  }

  lemma FailedFields(e: Engine, op: Op, e': Engine)
    requires Inv(e) && Failed(e, op, e')
    ensures Inv(e') && e'.limit == e.limit && OpError(op) == None && CrashImage(e, op, e'.store)
  {
    hide Inv, CrashImage, View;
  }

  // ----- runs with failures and crashes -----

  datatype Event =
    | Do(op: Op)
    | Fail(op: Op)                            // reported an I/O error
    | Crash(op: Op, left: Store, limit: nat)  // stopped inside op, left these files, reopened

  ghost predicate Happens(e: Engine, ev: Event, e': Engine)
    requires Inv(e)
  {
    match ev
    case Do(op) => e' == Step(e, op)
    case Fail(op) => Failed(e, op, e')
    case Crash(op, left, limit) => CrashImage(e, op, left) && Open(limit, left) == Ok(e')
  }

  /** A crash is recovered from when the WAL holds what it must for the operation and the tables number fewer than
      10000. While flushes fail the MemTable grows; a process that can go on has room for it. */
  ghost predicate MayHappen(e: Engine, ev: Event, e': Engine)
    requires Inv(e)
  {
    match ev
    case Do(op) => MayStep(e, op)
    case Fail(_) => Roomy(e')
    case Crash(op, left, limit) =>
      MayStop(e, op) && |e.tables| < 10000 && NormalizeLimit(limit) <= MAX_LIMIT && |left.wal| < MAX_LIMIT
  }

  /** What the flat map makes of an event when a failed or interrupted operation did or did not take effect. */
  function FlatEvent(m: map<Bytes, Bytes>, ev: Event, took: bool): map<Bytes, Bytes>
  {
    if ev.Do? || took then FlatStep(m, ev.op) else m
  }

  lemma EventRefines(e: Engine, ev: Event, e': Engine) returns (took: bool)
    requires Sound(e) && MayHappen(e, ev, e') && Happens(e, ev, e')
    ensures Sound(e') && Abs(e') == FlatEvent(Abs(e), ev, took)
    ensures ev.Do? ==> (Tidy(e) ==> Tidy(e')) && (Durable(e) ==> Durable(e'))
    ensures ev.Crash? ==> Tidy(e') && WalHolds(e') && (Parse(ev.left.wal).tail == Clean ==> Durable(e'))
  {
    hide Inv, Tidy, Durable, WalHolds, Abs, Open, Parse, CrashImage, Step, Failed, MayStop;
    match ev
    case Do(op) =>
      took := true;
      StepRefines(e, op);
    case Fail(op) =>
      FailedFields(e, op, e');
      FailedShows(e, op, e');
      took := Abs(e') == FlatStep(Abs(e), op);
    case Crash(op, left, limit) =>
      CrashSafe(e, op, left, limit);
      took := Abs(e') == FlatStep(Abs(e), op);
      ReplayedTotal(left.wal);
      OpenMem(limit, left);
  }

  lemma OpenMem(limit: nat, s: Store)
    ensures Open(limit, s).Ok? ==> Open(limit, s).value.mem == Replayed(s.wal) && Open(limit, s).value.limit > 0
  {
    hide Parse, Replayed, SstFiles, LoadError, ReplayError;
  }

  function FlatEvents(m: map<Bytes, Bytes>, evs: seq<Event>, took: seq<bool>): map<Bytes, Bytes>
    requires |took| == |evs|
  {
    if evs == [] then m else
      var n := |evs| - 1;
      FlatEvent(FlatEvents(m, evs[..n], took[..n]), evs[n], took[n])
  }

  /** es is a history of the events evs. */
  ghost predicate History(es: seq<Engine>, evs: seq<Event>)
  {
    |es| == |evs| + 1 && Sound(es[0])
    && forall i :: 0 <= i < |evs| ==>
        Inv(es[i]) && MayHappen(es[i], evs[i], es[i + 1]) && Happens(es[i], evs[i], es[i + 1])
  }

  /** Runs with failures and crashes anywhere: the engine always shows some flat history in which each failed or
      interrupted operation happened entirely or not at all, and every completed one happened. */
  lemma {:induction false} CrashRunRefines(es: seq<Engine>, evs: seq<Event>) returns (took: seq<bool>)
    requires History(es, evs)
    ensures |took| == |evs| && Sound(es[|evs|]) && Abs(es[|evs|]) == FlatEvents(Abs(es[0]), evs, took)
    decreases |evs|
  {
    hide Sound, Abs, Inv, MayHappen, Happens;
    if evs == [] {
      took := [];
    } else {
      var n := |evs| - 1;
      assert History(es[..n + 1], evs[..n]);
      var before := CrashRunRefines(es[..n + 1], evs[..n]);
      var last := EventRefines(es[n], evs[n], es[n + 1]);
      took := before + [last];
      assert took[..n] == before;
    }
  }
}
