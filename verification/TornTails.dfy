/** Replay does not cut a torn tail off, and Append writes behind it: exactly when a write survives, and what becomes of
    one that does not. */
module TornTails {
  import opened ByteStrings
  import opened Wrappers
  import opened TableNames
  import opened Codec
  import opened RecordLog
  import opened MemTables
  import opened EngineSpec
  import opened EngineRuns
  import opened EngineCrash

  // ----- the log -----

  /** An appended record is read back behind the others exactly when the log had no torn tail. */
  lemma AppendReadsIff(w: Bytes, r: Record)
    requires AllValid(Parse(w).recs) && Valid(r)
    ensures Parse(w + Layout(r)) == Parsed(Parse(w).recs + [r], Clean) <==> Parse(w).tail == Clean
  {
    hide Parse, Layout;
    var recs := Parse(w).recs;
    if Parse(w).tail == Clean {
      ParseOne(r, []);
      ParseEmpty();
      assert Layout(r) + [] == Layout(r) && [r] + [] == [r];
      ParseAppend(w, Layout(r));
    } else if Parse(w + Layout(r)) == Parsed(recs + [r], Clean) {
      WriteAppend(recs, r);
      WriteParse(w + Layout(r));
      assert w == (w + Layout(r))[..|w|] == Write(recs);
      ParseWrite(recs);
    }
  }

  /** What the reader makes of a torn record whose header is whole and of the bytes that came after it. */
  function Mixed(t: Record, n: nat, later: Bytes): Record
    requires Valid(t) && HEADER_SIZE <= n < |Layout(t)| <= n + |later|
  {
    var body := (Layout(t)[..n] + later)[HEADER_SIZE..|Layout(t)|];
    Record(t.typ, body[..|t.key|], body[|t.key|..])
  }

  lemma CutSlice(s: Bytes, a: nat, k: nat, v: nat)
    requires a + k + v <= |s|
    ensures s[a..a + k + v][..k] == s[a..a + k] && s[a..a + k + v][k..] == s[a + k..a + k + v]
  {
  }

  lemma DecodeMixed(t: Record, n: nat, later: Bytes)
    requires Valid(t) && HEADER_SIZE <= n < |Layout(t)| <= n + |later|
    ensures Decode(Layout(t)[..n] + later) == Decoded(Ok(Mixed(t, n, later)), |Layout(t)|)
  {
    var s := Layout(t)[..n] + later;
    LayoutHeader(t, []);
    assert Layout(t) + [] == Layout(t);
    assert s[0] == Layout(t)[0] && s[1..5] == Layout(t)[1..5] && s[5..9] == Layout(t)[5..9];
    BigEndianRoundTrip(|t.key|);
    BigEndianRoundTrip(|t.value|);
    CutSlice(s, HEADER_SIZE, |t.key|, |t.value|);
  }

  /** Behind a torn record whose header is whole, a later record is lost if it is shorter than what is missing;
      otherwise it is used up to complete the torn one, and reading goes on in the middle of it. */
  lemma BehindWholeHeader(w: Bytes, t: Record, n: nat, r: Record)
    requires Parse(w).tail == Clean && Valid(t) && Valid(r) && HEADER_SIZE <= n < |Layout(t)|
    ensures var missing := |Layout(t)| - n;
            if |Layout(r)| < missing then Parse(w + Layout(t)[..n] + Layout(r)) == Parsed(Parse(w).recs, Torn)
            else
              var rest := Parse(Layout(r)[missing..]);
              Parse(w + Layout(t)[..n] + Layout(r)) ==
                  Parsed(Parse(w).recs + ([Mixed(t, n, Layout(r))] + rest.recs), rest.tail)
  {
    hide Layout, Decode;
    var tail := Layout(t)[..n] + Layout(r);
    assert w + Layout(t)[..n] + Layout(r) == w + tail;
    ParseAppend(w, tail);
    if |Layout(r)| < |Layout(t)| - n {
      TornStaysTorn(t, n, Layout(r));
      assert Parse(w).recs + [] == Parse(w).recs;
    } else {
      DecodeMixed(t, n, Layout(r));
      assert tail[|Layout(t)|..] == Layout(r)[|Layout(t)| - n..];
    }
  }

  lemma SecondByteIsNoType(r: Record)
    requires Valid(r) && |r.key| < 0x100_0000
    ensures Decode(Layout(r)[1..]).res == Err(ErrInvalidType)
  {
    LayoutHeader(r, []);
    assert Layout(r)[1..][0] == BigEndian(|r.key|)[0] == 0;
  }

  /** One byte short, any ordinary record behind it leaves foreign bytes. */
  lemma OneByteShort(w: Bytes, t: Record, r: Record)
    requires Parse(w).tail == Clean && Valid(t) && Valid(r) && |r.key| < 0x100_0000
    ensures Parse(w + Layout(t)[..|Layout(t)| - 1] + Layout(r)).tail == Bad(ErrInvalidType)
  {
    hide Layout, Decode;
    SecondByteIsNoType(r);
    BehindWholeHeader(w, t, |Layout(t)| - 1, r);
  }

  /** Foreign bytes stay foreign whatever is appended. */
  lemma {:induction false} BadStays(s: Bytes, later: Bytes)
    requires Parse(s).tail.Bad?
    ensures Parse(s + later) == Parse(s)
    decreases |s|
  {
    var d := Decode(s);
    if d.res.Ok? {
      DecodeExtends(s, later);
      assert (s + later)[d.used..] == s[d.used..] + later;
      BadStays(s[d.used..], later);
    } else {
      assert (s + later)[1..5] == s[1..5] && (s + later)[5..9] == s[5..9];
    }
  }

  // ----- records nothing torn can hide in -----

  /** No proper beginning of s is also an end of it. */
  ghost predicate Unbordered(s: Bytes)
  {
    forall n :: 0 < n < |s| ==> s[n..] != s[..|s| - n]
  }

  lemma {:induction false} RecordsFit(s: Bytes, r: Record)
    requires r in Parse(s).recs
    ensures HEADER_SIZE + |r.key| + |r.value| <= |s|
    decreases |s|
  {
    hide Decode;
    var d := Decode(s);
    if r != d.res.value {
      RecordsFit(s[d.used..], r);
    }
  }

  lemma WholeFirst(torn: Bytes, later: Bytes)
    requires Decode(torn + later).res.Ok? && Decode(torn + later).used <= |torn|
    ensures Decode(torn).res.Ok?
  {
    hide Decode;
    var u := Decode(torn + later).used;
    PrefixDecodes(torn + later);
    assert (torn + later)[..u] == torn[..u] && torn[..u] + torn[u..] == torn;
    DecodeExtends(torn[..u], torn[u..]);
  }

  lemma NotFirst(torn: Bytes, s: Bytes)
    requires Unbordered(s) && 0 < |torn| < |s|
    ensures (torn + s)[..|s|] != s
  {
    assert (torn + s)[..|s|][|torn|..] == s[..|s| - |torn|];
  }

  /** Behind a torn tail such a record is not read back at all. */
  lemma NotReadBack(torn: Bytes, r: Record)
    requires Valid(r) && Unbordered(Layout(r)) && torn != [] && Decode(torn).res.Err?
    ensures r !in Parse(torn + Layout(r)).recs
  {
    hide Decode, Layout;
    var s := torn + Layout(r);
    var d := Decode(s);
    if d.res.Ok? {
      if d.used <= |torn| {
        WholeFirst(torn, Layout(r));
      }
      if r in Parse(s[d.used..]).recs {
        RecordsFit(s[d.used..], r);
      }
      if r == d.res.value {
        EncodeDecode(s);
        NotFirst(torn, Layout(r));
      }
    }
  }

  /** Two records a store can always be given, one of which changes what it shows. */
  const PROBE_KEY: Bytes := [5]

  function Probe(value: Bytes): Record
  {
    Record(TYPE_PUT, PROBE_KEY, value)
  }

  lemma ProbeLayout(value: Bytes)
    requires value == [] || value == [0]
    ensures Valid(Probe(value))
    ensures Layout(Probe(value)) == [1, 0, 0, 0, 1, 0, 0, 0, |value| as byte, 5] + value
  {
  }

  lemma DiffersAt(s: Bytes, n: nat, i: nat)
    requires n + i < |s| && s[n + i] != s[i]
    ensures s[n..] != s[..|s| - n]
  {
    assert s[n..][i] == s[n + i] && s[..|s| - n][i] == s[i];
  }

  lemma ProbesUnbordered(value: Bytes)
    requires value == [] || value == [0]
    ensures Valid(Probe(value)) && Unbordered(Layout(Probe(value)))
  {
    hide Layout;
    ProbeLayout(value);
    var s := Layout(Probe(value));
    forall n | 0 < n < |s| ensures s[n..] != s[..|s| - n] {
      DiffersAt(s, n, if n == 4 then 4 + |value| else if n == 8 then 1 else 0);
    }
  }

  // ----- the engine -----

  lemma {:induction false} SplitTail(w: Bytes) returns (whole: Bytes, torn: Bytes)
    requires Parse(w).tail == Torn
    ensures w == whole + torn && Parse(whole) == Parsed(Parse(w).recs, Clean)
    ensures torn != [] && Decode(torn).res == Err(ErrIncompleteRecord)
    decreases |w|
  {
    hide Decode;
    var d := Decode(w);
    if d.res.Ok? {
      var whole', torn' := SplitTail(w[d.used..]);
      whole, torn := w[..d.used] + whole', torn';
      PrefixDecodes(w);
      DecodeExtends(w[..d.used], whole');
      assert whole[d.used..] == whole';
    } else {
      whole, torn := [], w;
      EndOfFile(w);
      ParseEmpty();
    }
  }

  /** Logged, acknowledged, and there again, with everything else, if the process stops before the next flush. */
  ghost predicate Survived(e: Engine, r: Record, limit: nat)
    requires Valid(r)
  {
    var o := Open(limit, Logged(e, r).store);
    o.Ok? && View(o.value) == View(e)[r.key := r]
  }

  /** What e is while its WAL may have a torn tail: the whole records are the MemTable. */
  ghost predicate Holding(e: Engine)
  {
    Inv(e) && Tidy(e) && Roomy(e) && WalHolds(e) && |e.tables| <= 10000
  }

  lemma CleanSurvives(e: Engine, r: Record, limit: nat)
    requires Holding(e) && Valid(r) && Parse(e.store.wal).tail == Clean
    ensures Survived(e, r, limit)
  {
    hide Inv, Tidy, Parse, Fold, AllValid, View, Open, Logged, Valid;
    RoomyFits(e, r);
    LoggedInv(e, r);
    LoggedDurable(e, r);
    DurableHolds(Logged(e, r));
    LoggedParts(e, r);
    RecoverTidy(limit, Logged(e, r));
  }

  lemma OpenedView(e: Engine, wal: Bytes, limit: nat)
    requires Inv(e) && Tidy(e) && |e.tables| <= 10000
    ensures var o := Open(limit, Store(wal, e.store.dir));
            o.Ok? ==> View(o.value) == TablesView(e.store.dir, e.tables) + Replayed(wal)
  {
    hide SstName, IsSst, Parse, Fold, TablesView, AllValid, AscendingRecords, Leftover, Total, SstFiles, LoadError,
         Replayed;
    InvBasics(e);
    DirectoryListsTables(e.store.dir, |e.tables|);
  }

  /** What replay makes of a log with a torn tail and a record behind it. */
  lemma ReplayedBehindTorn(e: Engine, r: Record) returns (more: map<Bytes, Record>)
    requires WalHolds(e) && Parse(e.store.wal).tail == Torn && Valid(r) && r.typ == TYPE_PUT && Unbordered(Layout(r))
    ensures Replayed(e.store.wal + Layout(r)) == e.mem + more && (r.key in more ==> more[r.key] != r)
  {
    hide Decode, Parse, Fold, Layout, Unbordered;
    var whole, torn := SplitTail(e.store.wal);
    var recs, extra := Parse(e.store.wal).recs, Parse(torn + Layout(r)).recs;
    NotReadBack(torn, r);
    ParseAppend(whole, torn + Layout(r));
    assert e.store.wal + Layout(r) == whole + (torn + Layout(r));
    assert Normalized(recs + extra) == Normalized(recs) + Normalized(extra);
    NormalizedValid(recs);
    FoldAppend(recs, Normalized(extra));
    more := Fold(Normalized(extra));
    if r.key in more {
      var i := FoldFrom(Normalized(extra), r.key);
      assert extra[i] in extra;
    }
  }

  lemma TornForgets(e: Engine, r: Record, limit: nat)
    requires Holding(e) && Parse(e.store.wal).tail == Torn && Valid(r) && r.typ == TYPE_PUT && Unbordered(Layout(r))
    requires r.key in View(e) ==> View(e)[r.key] != r
    ensures !Survived(e, r, limit)
  {
    hide Inv, Tidy, Parse, Open, Layout, TablesView, Unbordered, Roomy, Replayed;
    LoggedParts(e, r);
    OpenedView(e, e.store.wal + Layout(r), limit);
    var more := ReplayedBehindTorn(e, r);
    var tables := TablesView(e.store.dir, e.tables);
    assert r.key in tables + (e.mem + more) ==> (tables + (e.mem + more))[r.key] != r;
  }

  /** Every write survives the next Open exactly when the log has no torn tail. */
  lemma WritesSurviveIff(e: Engine, limit: nat)
    requires Holding(e)
    ensures (forall r :: Valid(r) ==> Survived(e, r, limit)) <==> Parse(e.store.wal).tail == Clean
  {
    hide Holding, Survived, Parse, Valid, View, Layout, Unbordered;
    if Parse(e.store.wal).tail == Clean {
      forall r | Valid(r) ensures Survived(e, r, limit) {
        CleanSurvives(e, r, limit);
      }
    } else {
      HoldingTorn(e);
      ProbesUnbordered([]);
      ProbesUnbordered([0]);
      var r := if PROBE_KEY in View(e) && View(e)[PROBE_KEY] == Probe([]) then Probe([0]) else Probe([]);
      TornForgets(e, r, limit);
    }
  }

  lemma HoldingTorn(e: Engine)
    requires Holding(e)
    ensures !Parse(e.store.wal).tail.Bad?
  {
    hide Inv, Tidy, Roomy, Parse, Fold;
  }

  // ----- the ways a write behind a torn tail is lost -----

  /** A log whose last append of torn stopped after n bytes. */
  ghost predicate TornAt(e: Engine, w: Bytes, torn: Record, n: nat)
  {
    && Parse(w).tail == Clean && AllValid(Parse(w).recs) && Fold(Parse(w).recs) == e.mem
    && Valid(torn) && HEADER_SIZE <= n < |Layout(torn)| && e.store.wal == w + Layout(torn)[..n]
  }

  /** Shorter than what the torn record misses, the write is gone without a trace. */
  lemma SilentlyLost(e: Engine, w: Bytes, torn: Record, n: nat, r: Record, limit: nat)
    requires Inv(e) && Tidy(e) && |e.tables| <= 10000 && TornAt(e, w, torn, n)
    requires Valid(r) && n + |Layout(r)| < |Layout(torn)|
    ensures Open(limit, Logged(e, r).store).Ok? && View(Open(limit, Logged(e, r).store).value) == View(e)
  {
    hide Parse, Fold, Layout, Inv, Tidy, AllValid, TablesView, Open;
    BehindWholeHeader(w, torn, n, r);
    LoggedParts(e, r);
    WalIrrelevant(e, Logged(e, r).store.wal);
    RecoverTidy(limit, e.(store := Logged(e, r).store));
  }

  /** One byte short, the write makes this and, until a flush empties the log, every later Open refuse. */
  lemma RefusedFromThenOn(e: Engine, w: Bytes, torn: Record, r: Record, later: Bytes, limit: nat)
    requires Inv(e) && Tidy(e) && |e.tables| <= 10000 && Valid(torn) && TornAt(e, w, torn, |Layout(torn)| - 1)
    requires Valid(r) && |r.key| < 0x100_0000
    ensures Open(limit, Store(Logged(e, r).store.wal + later, e.store.dir)) == Err(ErrInvalidType)
  {
    hide Parse, Fold, Layout, AllValid, SstName, IsSst, AscendingRecords, Leftover, Total, SstFiles;
    OneByteShort(w, torn, r);
    LoggedParts(e, r);
    BadStays(Logged(e, r).store.wal, later);
    InvBasics(e);
    DirectoryListsTables(e.store.dir, |e.tables|);
    LoadErrorAt(e.store.dir, e.tables);
  }

  /** Exactly as long as what the torn record misses, it is read as that record's value, which nobody wrote. */
  lemma ReadsForged(e: Engine, w: Bytes, torn: Record, n: nat, r: Record, limit: nat)
    requires Inv(e) && Tidy(e) && |e.tables| <= 10000 && TornAt(e, w, torn, n)
    requires Valid(r) && torn.typ == TYPE_PUT && n + |Layout(r)| == |Layout(torn)|
    ensures var o, forged := Open(limit, Logged(e, r).store), Mixed(torn, n, Layout(r));
            o.Ok? && View(o.value) == View(e)[forged.key := forged]
  {
    hide Parse, Layout, AllValid, Inv, Tidy, TablesView, Open, Fold;
    BehindWholeHeader(w, torn, n, r);
    LoggedParts(e, r);
    var forged, recs := Mixed(torn, n, Layout(r)), Parse(w).recs;
    assert Layout(r)[|Layout(r)|..] == [];
    ParseEmpty();
    assert [forged] + [] == [forged];
    var wal := Logged(e, r).store.wal;
    assert Parse(wal) == Parsed(recs + [forged], Clean);
    NormalizedValid(recs);
    assert Normalized(recs + [forged]) == recs + [forged];
    FoldSnoc(recs, forged);
    OpensClean(e, wal, limit);
    OpenedView(e, wal, limit);
  }

  lemma OpensClean(e: Engine, wal: Bytes, limit: nat)
    requires Inv(e) && Tidy(e) && |e.tables| <= 10000 && Parse(wal).tail == Clean
    ensures Open(limit, Store(wal, e.store.dir)).Ok?
  {
    hide Parse, AllValid, SstName, IsSst, AscendingRecords, Leftover, Total, SstFiles, Replayed;
    InvBasics(e);
    DirectoryListsTables(e.store.dir, |e.tables|);
    LoadErrorAt(e.store.dir, e.tables);
  }

  /** An empty store whose first write, of torn, stopped after n bytes. */
  ghost function FirstWriteTorn(torn: Record, n: nat): Engine
    requires Valid(torn) && n <= |Layout(torn)|
  {
    Engine(DEFAULT_MEMTABLE_SIZE, Store(Layout(torn)[..n], map[]), map[], [])
  }

  lemma FirstWriteTornIs(torn: Record, n: nat)
    requires Valid(torn) && HEADER_SIZE <= n < |Layout(torn)|
    ensures Inv(FirstWriteTorn(torn, n)) && Tidy(FirstWriteTorn(torn, n))
            && TornAt(FirstWriteTorn(torn, n), [], torn, n)
    ensures View(FirstWriteTorn(torn, n)) == map[]
  {
    hide Layout, Decode;
    ParseEmpty();
    TotalZero(map[]);
    assert Names(0) == [];
    assert [] + Layout(torn)[..n] == Layout(torn)[..n];
  }

  /** A store for each of the three outcomes of one and the same later write: lost, refused, forged. */
  lemma EachHappens(limit: nat) returns (lost: Engine, refused: Engine, forged: Engine, r: Record)
    ensures Valid(r) && r.typ == TYPE_PUT
    ensures Open(limit, lost.store).Ok? && Open(limit, refused.store).Ok? && Open(limit, forged.store).Ok?
    ensures var o := Open(limit, Logged(lost, r).store); o.Ok? && Get(o.value, r.key) == None
    ensures Open(limit, Logged(refused, r).store) == Err(ErrInvalidType)
    ensures var o := Open(limit, Logged(forged, r).store);
            o.Ok? && Get(o.value, r.key) == None && Get(o.value, [7]) == Some(Layout(r))
  {
    hide Layout, Parse, Inv, Tidy, TornAt, Open, Logged, Mixed;
    r := Record(TYPE_PUT, [5], []);
    var ten: Bytes := [0, 0, 0, 0, 0, 0, 0, 0, 0, 0];
    var long, short := Record(TYPE_PUT, [7], ten), Record(TYPE_PUT, [7], [0]);
    lost, refused, forged := FirstWriteTorn(long, 9), FirstWriteTorn(short, 10), FirstWriteTorn(long, 10);
    FirstWriteTornIs(long, 9);
    FirstWriteTornIs(short, 10);
    FirstWriteTornIs(long, 10);
    StillOpens(lost, [], long, 9, limit);
    StillOpens(refused, [], short, 10, limit);
    StillOpens(forged, [], long, 10, limit);
    SilentlyLost(lost, [], long, 9, r, limit);
    RefusedFromThenOn(refused, [], short, r, [], limit);
    LoggedParts(refused, r);
    assert Logged(refused, r).store.wal + [] == Logged(refused, r).store.wal;
    ReadsForged(forged, [], long, 10, r, limit);
    MixedValue(long, 10, Layout(r));
  }

  lemma StillOpens(e: Engine, w: Bytes, torn: Record, n: nat, limit: nat)
    requires Inv(e) && Tidy(e) && |e.tables| <= 10000 && TornAt(e, w, torn, n)
    ensures Open(limit, e.store).Ok?
  {
    hide Parse, Fold, Layout, Inv, Tidy, AllValid, Open;
    ParseTorn(torn, n);
    ParseAppend(w, Layout(torn)[..n]);
    assert Parse(w).recs + [] == Parse(w).recs;
    RecoverTidy(limit, e);
  }

  /** Torn right behind its key, a record takes the later bytes for its whole value. */
  lemma MixedValue(t: Record, n: nat, later: Bytes)
    requires Valid(t) && n == HEADER_SIZE + |t.key| < |Layout(t)| == n + |later|
    ensures Mixed(t, n, later) == Record(t.typ, t.key, later)
  {
    LayoutHeader(t, []);
    assert Layout(t) + [] == Layout(t);
    assert Layout(t)[9..n] == Layout(t)[9..][..|t.key|] == t.key;
    assert (Layout(t)[..n] + later)[9..|Layout(t)|] == Layout(t)[9..n] + later;
  }
}
