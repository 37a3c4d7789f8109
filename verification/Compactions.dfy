/** compact.Run: the k-way merge over iterators and a heap. */
module Compactions {
  import opened ByteStrings
  import opened Wrappers
  import opened Codec
  import opened RecordLog
  import opened EngineSpec
  import opened Disks
  import opened SSTables
  import opened RecordHeaps
  import opened MergeSpec

  /** The iterators of a merge: one per table, each with its own descriptor, all on files that are clean from here
      on. */
  ghost predicate Streams(iters: seq<Iterator>, p: Pending)
    reads iters, set i | 0 <= i < |iters| :: iters[i].reader
  {
    && |iters| == |p|
    && (forall i, j :: 0 <= i < j < |iters| ==> iters[i] != iters[j] && iters[i].reader != iters[j].reader)
    && (forall i :: 0 <= i < |iters| ==> iters[i].Streaming() && iters[i].Loaded() && iters[i].Pending() == p[i])
  }

  /** The heap holds the first pending record of every table that has one. */
  ghost function Heads(iters: seq<Iterator>, p: Pending): set<HeapItem>
    requires |iters| == |p|
  {
    set i | 0 <= i < |p| && p[i] != [] :: HeapItem(p[i][0], i, iters[i])
  }

  ghost predicate Holds(items: seq<HeapItem>, iters: seq<Iterator>, p: Pending)
    requires |iters| == |p|
  {
    IsHeap(items) && multiset(items) == multiset(Heads(iters, p))
  }

  lemma HeadsAdvanced(iters: seq<Iterator>, p: Pending, t: nat)
    requires |iters| == |p| && t < |p| && p[t] != []
    ensures var item, q := HeapItem(p[t][0], t, iters[t]), Advanced(p, t);
            && item in Heads(iters, p)
            && multiset(Heads(iters, q)) == multiset(Heads(iters, p)) - multiset{item}
                                          + (if q[t] == [] then multiset{}
                                              else multiset{HeapItem(q[t][0], t, iters[t])})
  {
    var item, q := HeapItem(p[t][0], t, iters[t]), Advanced(p, t);
    var rest := Heads(iters, p) - {item};
    assert forall x :: x in rest ==> x.tableID != t;
    assert Heads(iters, q) == rest + (if q[t] == [] then {} else {HeapItem(q[t][0], t, iters[t])});
  }

  /** Stepping one iterator of a merge. */
  method StepIterator(iters: seq<Iterator>, t: nat, ghost p: Pending)
    requires |iters| == |p| && Streams(iters, p) && t < |p| && p[t] != []
    modifies iters[t], iters[t].reader
    ensures Streams(iters, Advanced(p, t)) && iters[t].err == None
    ensures iters[t].Valid() <==> Advanced(p, t)[t] != []
    ensures iters[t].Valid() ==> iters[t].cur == Advanced(p, t)[t][0]
  {
    hide Parse;
    iters[t].Next();
  }

  /** advance: step the item's iterator, push its next record if it has one. */
  method Advance(h: RecordHeap, item: HeapItem, iters: seq<Iterator>, ghost p: Pending)
    returns (err: Option<Error>, ghost q: Pending)
    requires |iters| == |p| && Streams(iters, p)
    requires item.tableID < |p| && p[item.tableID] != []
             && item == HeapItem(p[item.tableID][0], item.tableID, iters[item.tableID])
    requires IsHeap(h.items) && multiset(h.items) == multiset(Heads(iters, p)) - multiset{item}
    modifies h, iters, set i | 0 <= i < |iters| :: iters[i].reader
    ensures |iters| == |q| && err == None && q == Advanced(p, item.tableID) && Streams(iters, q)
            && Holds(h.items, iters, q)
  {
    hide AtMost, Heads, Parse, Streams, IsHeap;
    q := Advanced(p, item.tableID);
    HeadsAdvanced(iters, p, item.tableID);
    StepIterator(iters, item.tableID, p);
    err := item.iter.err;
    if item.iter.Valid() {
      h.Push(HeapItem(item.iter.cur, item.tableID, item.iter));
    }
  }

  lemma HeadInHeap(items: seq<HeapItem>, iters: seq<Iterator>, p: Pending, i: nat) returns (k: nat)
    requires |iters| == |p| && Holds(items, iters, p) && i < |p| && p[i] != []
    ensures k < |items| && items[k] == HeapItem(p[i][0], i, iters[i])
  {
    var item := HeapItem(p[i][0], i, iters[i]);
    assert item in multiset(Heads(iters, p));
    assert item in multiset(items);
    k :| 0 <= k < |items| && items[k] == item;
  }

  lemma HeapItemIsHead(items: seq<HeapItem>, iters: seq<Iterator>, p: Pending, k: nat)
    requires |iters| == |p| && Holds(items, iters, p) && k < |items|
    ensures var x := items[k];
            x.tableID < |p| && p[x.tableID] != [] && x == HeapItem(p[x.tableID][0], x.tableID, iters[x.tableID])
  {
    assert items[k] in multiset(items);
    assert items[k] in Heads(iters, p);
  }

  /** Compared with the root of the heap, a pending head has a greater key, or the same key and no newer table. */
  lemma RootAgainstHead(items: seq<HeapItem>, iters: seq<Iterator>, p: Pending, i: nat)
    requires |iters| == |p| && Holds(items, iters, p) && items != [] && i < |p| && p[i] != []
    ensures var x := items[0];
            Less(x.rec.key, p[i][0].key) || (p[i][0].key == x.rec.key && i <= x.tableID)
  {
    hide Less, Heads;
    var k := HeadInHeap(items, iters, p, i);
    RootIsFirst(items, k);
    LessTotal(items[0].rec.key, p[i][0].key);
  }

  lemma RootIsLeast(items: seq<HeapItem>, iters: seq<Iterator>, p: Pending)
    requires |iters| == |p| && Holds(items, iters, p) && items != []
    ensures NotBelow(p, items[0].rec.key)
    ensures forall i :: items[0].tableID < i < |p| && p[i] != [] ==> p[i][0].key != items[0].rec.key
  {
    hide Less, Holds;
    forall i | 0 <= i < |p| && p[i] != []
      ensures Less(items[0].rec.key, p[i][0].key) || (p[i][0].key == items[0].rec.key && i <= items[0].tableID) {
      RootAgainstHead(items, iters, p, i);
    }
    LessIrreflexive(items[0].rec.key);
  }

  /** Some tables that had key first have stepped over it, the others are where they were. */
  ghost predicate PartlyCleared(p: Pending, q: Pending, key: Bytes)
  {
    |q| == |p|
    && forall i :: 0 <= i < |p| ==> q[i] == p[i] || (p[i] != [] && p[i][0].key == key && q[i] == p[i][1..])
  }

  lemma PartlyNone(p: Pending, key: Bytes)
    ensures PartlyCleared(p, p, key)
  {
  }

  lemma PartlyStep(p: Pending, q: Pending, key: Bytes, t: nat)
    requires AllAscending(p) && PartlyCleared(p, q, key) && t < |q| && q[t] != [] && q[t][0].key == key
    ensures PartlyCleared(p, Advanced(q, t), key)
  {
    hide Less;
    if q[t] != p[t] {
      assert q[t][0] == p[t][1];
      LessIrreflexive(key);
    }
  }

  lemma PartlyDone(p: Pending, q: Pending, key: Bytes)
    requires PartlyCleared(p, q, key) && forall i :: 0 <= i < |q| && q[i] != [] ==> q[i][0].key != key
    ensures Cleared(p, q, key)
  {
    forall i | 0 <= i < |p| ensures q[i] == if p[i] != [] && p[i][0].key == key then p[i][1..] else p[i] {
      if q[i] == p[i] && p[i] != [] {
        assert p[i][0].key != key;
      }
    }
  }

  /** When the root's key is not key any more, no pending head's is. */
  lemma NoHeadLeft(items: seq<HeapItem>, iters: seq<Iterator>, p: Pending, q: Pending, key: Bytes)
    requires |iters| == |q| && Holds(items, iters, q)
    requires AllAscending(p) && NotBelow(p, key) && PartlyCleared(p, q, key)
    requires items == [] || items[0].rec.key != key
    ensures forall i :: 0 <= i < |q| && q[i] != [] ==> q[i][0].key != key
  {
    hide Less, Holds;
    forall i | 0 <= i < |q| && q[i] != [] ensures q[i][0].key != key {
      var k := HeadInHeap(items, iters, q, i);
      RootAgainstHead(items, iters, q, i);
      HeapItemIsHead(items, iters, q, 0);
      PartlyNotBelow(p, q, key, items[0].tableID);
      if q[i][0].key == key {
        LessAsymmetric(items[0].rec.key, key);
      }
    }
  }

  lemma PartlyNotBelow(p: Pending, q: Pending, key: Bytes, i: nat)
    requires AllAscending(p) && NotBelow(p, key) && PartlyCleared(p, q, key) && i < |q| && q[i] != []
    ensures q[i][0].key == key || Less(key, q[i][0].key)
  {
    hide Less;
    if q[i] != p[i] {
      assert q[i][0] == p[i][1];
    }
  }

  /** heap.Pop and advance. */
  method PopAdvance(h: RecordHeap, iters: seq<Iterator>, ghost p: Pending)
    returns (item: HeapItem, err: Option<Error>, ghost q: Pending)
    requires |iters| == |p| && Streams(iters, p) && Holds(h.items, iters, p) && h.items != []
    modifies h, iters, set i | 0 <= i < |iters| :: iters[i].reader
    ensures item == old(h.items)[0] && item.tableID < |p| && p[item.tableID] != [] && item.rec == p[item.tableID][0]
    ensures q == Advanced(p, item.tableID) && Unread(q) < Unread(p)
    ensures |iters| == |q| && err == None && Streams(iters, q) && Holds(h.items, iters, q)
  {
    hide AtMost, Heads, Streams, IsHeap, Unread;
    HeapItemIsHead(h.items, iters, p, 0);
    item := h.Pop();
    UnreadAdvanced(p, item.tableID);
    err, q := Advance(h, item, iters, p);
  }

  /** One round of Run: pop the least key's newest record, advance its table, then pop and advance the key's older
      records. */
  method Round(h: RecordHeap, iters: seq<Iterator>, ghost p: Pending)
    returns (latest: Record, err: Option<Error>, ghost q: Pending)
    requires |iters| == |p| && Streams(iters, p) && AllAscending(p) && Holds(h.items, iters, p) && h.items != []
    modifies h, iters, set i | 0 <= i < |iters| :: iters[i].reader
    ensures |iters| == |q| && err == None && Streams(iters, q) && AllAscending(q) && Holds(h.items, iters, q)
            && Unread(q) < Unread(p)
    ensures NotBelow(p, latest.key) && latest.key in Overlay(p) && Overlay(p)[latest.key] == latest
    ensures Cleared(p, q, latest.key)
  {
    hide *;
    RootIsLeast(h.items, iters, p);
    var first;
    first, err, q := PopAdvance(h, iters, p);
    latest := first.rec;
    NewestHead(p, latest.key, first.tableID);
    PartlyNone(p, latest.key);
    PartlyStep(p, p, latest.key, first.tableID);
    while |h.items| > 0 && h.items[0].rec.key == latest.key
      invariant |iters| == |q| && err == None && Streams(iters, q) && Holds(h.items, iters, q)
      invariant PartlyCleared(p, q, latest.key) && Unread(q) < Unread(p)
      decreases Unread(q)
    {
      ghost var before := q;
      var item;
      item, err, q := PopAdvance(h, iters, q);
      PartlyStep(p, before, latest.key, item.tableID);
    }
    NoHeadLeft(h.items, iters, p, q, latest.key);
    PartlyDone(p, q, latest.key);
    ClearedOverlay(p, q, latest.key);
  }

  // ----- the whole merge -----

  ghost function TableRecords(dir: map<Bytes, Bytes>, paths: seq<Bytes>): (p: Pending)
    ensures |p| == |paths| && forall i :: 0 <= i < |p| ==> p[i] == Parse(File(dir, paths[i])).recs
  {
    seq(|paths|, i requires 0 <= i < |paths| => Parse(File(dir, paths[i])).recs)
  }

  lemma {:induction false} OverlayIsView(dir: map<Bytes, Bytes>, paths: seq<Bytes>)
    ensures Overlay(TableRecords(dir, paths)) == TablesView(dir, paths)
  {
    hide Parse, Fold;
    if paths != [] {
      var n := |paths| - 1;
      assert TableRecords(dir, paths)[..n] == TableRecords(dir, paths[..n]);
      OverlayIsView(dir, paths[..n]);
    }
  }

  function Paths(tables: seq<SSTable>): (paths: seq<Bytes>)
    reads tables
    ensures |paths| == |tables| && forall i :: 0 <= i < |tables| ==> paths[i] == tables[i].path
  {
    seq(|tables|, i requires 0 <= i < |tables| reads tables => tables[i].path)
  }

  /** A file whose records are whole and have strictly ascending keys. */
  ghost predicate AscendingFile(file: Bytes)
  {
    Parse(file).tail == Clean && AscendingRecords(Parse(file).recs)
  }

  /** Tables of one disk, each closed or open on an ascending file. */
  ghost predicate Mergeable(disk: Disk, tables: seq<SSTable>)
    reads disk, tables
  {
    forall i :: 0 <= i < |tables| ==>
      && tables[i].disk == disk
      && (tables[i].closed || (tables[i].Current() && AscendingFile(disk.dir[tables[i].path])))
  }

  ghost predicate SomeClosed(tables: seq<SSTable>)
    reads tables
  {
    exists i :: 0 <= i < |tables| && tables[i].closed
  }

  lemma HeadsExtended(iters: seq<Iterator>, p: Pending, it: Iterator, recs: seq<Record>)
    requires |iters| == |p|
    ensures multiset(Heads(iters + [it], p + [recs])) ==
            multiset(Heads(iters, p)) + (if recs == [] then multiset{} else multiset{HeapItem(recs[0], |p|, it)})
  {
    var iters', p' := iters + [it], p + [recs];
    forall x ensures x in Heads(iters, p) ==> x in Heads(iters', p') && x.tableID < |p| {
      if x in Heads(iters, p) {
        var i :| 0 <= i < |p| && p[i] != [] && x == HeapItem(p[i][0], i, iters[i]);
        assert p'[i] != [] && x == HeapItem(p'[i][0], i, iters'[i]);
      }
    }
    forall x ensures x in Heads(iters', p') ==>
        x in Heads(iters, p) || (recs != [] && x == HeapItem(recs[0], |p|, it)) {
      if x in Heads(iters', p') {
        var i :| 0 <= i < |p'| && p'[i] != [] && x == HeapItem(p'[i][0], i, iters'[i]);
      }
    }
    if recs != [] {
      assert p'[|p|] != [] && HeapItem(recs[0], |p|, it) == HeapItem(p'[|p|][0], |p|, iters'[|p|]);
      assert Heads(iters', p') == Heads(iters, p) + {HeapItem(recs[0], |p|, it)};
    } else {
      assert Heads(iters', p') == Heads(iters, p);
    }
  }

  lemma StreamsExtended(iters: seq<Iterator>, p: Pending, it: Iterator, recs: seq<Record>)
    requires |iters| == |p| && Streams(iters, p)
    requires forall i :: 0 <= i < |iters| ==> iters[i] != it && iters[i].reader != it.reader
    requires it.Streaming() && it.Loaded() && it.Pending() == recs
    ensures Streams(iters + [it], p + [recs])
  {
    hide Parse;
  }

  /** One turn of Run's first loop: open an iterator on a table and push its first record, if it has one. */
  method AddIterator(t: SSTable, h: RecordHeap, iters: seq<Iterator>, ghost p: Pending) returns (r: Result<Iterator>)
    requires t.closed || (t.Current() && AscendingFile(t.disk.dir[t.path]))
    requires |iters| == |p| && Streams(iters, p) && Holds(h.items, iters, p)
    modifies h, t.disk.calls
    ensures t.disk.Failures() >= old(t.disk.Failures())
    ensures r == Err(ErrIO) <==> t.disk.Failures() > old(t.disk.Failures())
    ensures r.Err? ==> r == Err(if t.closed then ErrFileClosed else ErrIO)
    ensures r.Ok? ==>
              !t.closed &&
              var iters', p' := iters + [r.value], p + [Parse(t.disk.dir[t.path]).recs];
              fresh(r.value) && fresh(r.value.reader) && Streams(iters', p') && Holds(h.items, iters', p')
  {
    hide AtMost, Heads, Parse, AscendingRecords, AllValid;
    r := t.NewIterator();
    if r.Err? {
      return;
    }
    var it := r.value;
    ghost var recs := Parse(t.disk.dir[t.path]).recs;
    HeadsExtended(iters, p, it, recs);
    StreamsExtended(iters, p, it, recs);
    if it.Valid() {
      h.Push(HeapItem(it.cur, |iters|, it));
    }
  }

  /** The first loop of Run. */
  method OpenIterators(disk: Disk, sstables: seq<SSTable>, h: RecordHeap)
    returns (err: Option<Error>, iters: seq<Iterator>, ghost p: Pending)
    requires Mergeable(disk, sstables) && h.items == []
    modifies h, disk.calls
    ensures disk.Failures() >= old(disk.Failures())
    ensures err == Some(ErrIO) <==> disk.Failures() > old(disk.Failures())
    ensures err.Some? ==> err == Some(ErrIO) || (err == Some(ErrFileClosed) && SomeClosed(sstables))
    ensures err == None ==>
              && !SomeClosed(sstables) && |iters| == |p| && p == TableRecords(disk.dir, Paths(sstables))
              && (forall i :: 0 <= i < |iters| ==> fresh(iters[i]) && fresh(iters[i].reader))
              && Streams(iters, p) && Holds(h.items, iters, p)
  {
    hide AtMost, Heads, Parse, AscendingRecords, AllValid, Streams, Holds, AscendingFile;
    iters, p := [], [];
    NoHeads();
    for i := 0 to |sstables|
      invariant |iters| == |p| == i && p == TableRecords(disk.dir, Paths(sstables))[..i]
      invariant forall j :: 0 <= j < i ==> fresh(iters[j]) && fresh(iters[j].reader) && !sstables[j].closed
      invariant Streams(iters, p) && Holds(h.items, iters, p) && disk.Failures() == old(disk.Failures())
    {
      var it := AddIterator(sstables[i], h, iters, p);
      if it.Err? {
        return Some(it.error), [], [];
      }
      iters, p := iters + [it.value], p + [Parse(disk.dir[sstables[i].path]).recs];
    }
    err := None;
  }

  lemma NoHeads()
    ensures Streams([], []) && Holds([], [], [])
  {
    assert Heads([], []) == {};
  }

  /** Since its disk looked like before, only the one named file has changed. */
  ghost predicate SeenOnlyFile(seen0: set<Store>, before: Store, name: Bytes, seen: set<Store>)
  {
    forall s :: s in seen ==> s in seen0 || OnlyFile(before, name, s)
  }

  lemma PrefixesOnlyFile(before: Store, name: Bytes, now: Store, data: Bytes)
    requires OnlyFile(before, name, now)
    ensures forall s :: s in FilePrefixes(now, name, data) ==> OnlyFile(before, name, s)
  {
    forall s | s in FilePrefixes(now, name, data) ensures OnlyFile(before, name, s) {
      var n :| 0 <= n <= |data| && s == now.(dir := now.dir[name := File(now.dir, name) + data[..n]]);
      assert s.dir - {name} == now.dir - {name};
    }
  }

  /** Write one record of the merge. */
  method WriteOne(disk: Disk, writer: SSTableWriter, r: Record, ghost out: seq<Record>, ghost before: Store,
      ghost seen0: set<Store>)
    returns (err: Option<Error>)
    requires writer.disk == disk && !writer.closed && writer.path in disk.dir && Codec.Valid(r) && AllValid(out)
    requires disk.dir[writer.path] == Write(out)
    requires OnlyFile(before, writer.path, disk.Image()) && SeenOnlyFile(seen0, before, writer.path, disk.seen)
    modifies disk, disk.calls
    ensures disk.Failures() >= old(disk.Failures())
    ensures err.Some? <==> disk.Failures() > old(disk.Failures())
    ensures err.Some? ==> err == Some(ErrIO)
    ensures writer.path in disk.dir && OnlyFile(before, writer.path, disk.Image())
            && SeenOnlyFile(seen0, before, writer.path, disk.seen)
    ensures err == None ==> AllValid(out + [r]) && disk.dir[writer.path] == Write(out + [r])
  {
    hide Layout, Write;
    PrefixesOnlyFile(before, writer.path, disk.Image(), Layout(r));
    WriteAppend(out, r);
    err := writer.Append(r);
  }

  /** The second loop of Run: until the heap is empty, take the next key's newest record and write it if it is a Put. */
  method WriteMerge(disk: Disk, writer: SSTableWriter, h: RecordHeap, iters: seq<Iterator>, ghost p0: Pending,
      ghost before: Store, ghost seen0: set<Store>)
    returns (err: Option<Error>, wrote: bool)
    requires writer.disk == disk && !writer.closed && writer.path in disk.dir && disk.dir[writer.path] == []
    requires |iters| == |p0| && Streams(iters, p0) && AllAscending(p0) && Holds(h.items, iters, p0)
             && ValidMap(PutsOnly(Overlay(p0)))
    requires OnlyFile(before, writer.path, disk.Image()) && SeenOnlyFile(seen0, before, writer.path, disk.seen)
    modifies disk, disk.calls, h, iters, set i | 0 <= i < |iters| :: iters[i].reader
    ensures disk.Failures() >= old(disk.Failures())
    ensures err.Some? <==> disk.Failures() > old(disk.Failures())
    ensures err.Some? ==> err == Some(ErrIO)
    ensures writer.path in disk.dir && OnlyFile(before, writer.path, disk.Image())
            && SeenOnlyFile(seen0, before, writer.path, disk.seen)
    ensures err == None ==>
            (wrote <==> PutsOnly(Overlay(p0)) != map[]) && disk.dir[writer.path] == FlushFile(PutsOnly(Overlay(p0)))
  {
    hide *;
    err, wrote := None, false;
    ghost var p, all, out := p0, Overlay(p0), [];
    MergeStart(p0);
    NothingWritten();
    while |h.items| > 0
      invariant |iters| == |p| && Streams(iters, p) && AllAscending(p) && Holds(h.items, iters, p)
      invariant Merging(all, p, out) && AllValid(out) && (wrote <==> out != [])
      invariant disk.Failures() == old(disk.Failures())
      invariant writer.path in disk.dir && disk.dir[writer.path] == Write(out)
      invariant OnlyFile(before, writer.path, disk.Image()) && SeenOnlyFile(seen0, before, writer.path, disk.seen)
      decreases Unread(p)
    {
      var latest, e;
      ghost var q;
      latest, e, q := Round(h, iters, p);
      MergeRound(all, p, q, out, latest);
      if latest.typ == TYPE_PUT {
        LatestKept(all, p, out, latest);
        ValidAt(PutsOnly(all), latest.key);
        var w := WriteOne(disk, writer, latest, out, before, seen0);
        if w.Some? {
          return w, wrote;
        }
        wrote := true;
        out := out + [latest];
      }
      p := q;
    }
    NoneLeft(h.items, iters, p);
    MergeDone(all, p, out);
    OutIsFlushFile(out, PutsOnly(all));
  }

  lemma NothingWritten()
    ensures AllValid([]) && Write([]) == []
  {
  }

  lemma ValidAt(m: map<Bytes, Record>, k: Bytes)
    requires ValidMap(m) && k in m
    ensures Codec.Valid(m[k])
  {
  }

  lemma OutIsFlushFile(out: seq<Record>, m: map<Bytes, Record>)
    requires ValidMap(m) && out == SortedRecords(m) && AllValid(out)
    ensures Write(out) == FlushFile(m)
  {
  }

  lemma NoneLeft(items: seq<HeapItem>, iters: seq<Iterator>, p: Pending)
    requires |iters| == |p| && Holds(items, iters, p) && items == []
    ensures forall i :: 0 <= i < |p| ==> p[i] == []
  {
    hide Holds;
    forall i | 0 <= i < |p| ensures p[i] == [] {
      if p[i] != [] {
        var k := HeadInHeap(items, iters, p, i);
      }
    }
  }

  /** What the tables of a merge stand for. */
  ghost function LiveRecords(dir: map<Bytes, Bytes>, paths: seq<Bytes>): map<Bytes, Record>
  {
    PutsOnly(TablesView(dir, paths))
  }

  /** Whatever a file holds, the Puts read from it are records the codec accepts. */
  lemma {:induction false} ParsedPutsValid(s: Bytes, r: Record)
    requires r in Parse(s).recs && r.typ == TYPE_PUT
    ensures Codec.Valid(r)
    decreases |s|
  {
    hide Decode;
    var d := Decode(s);
    if r == d.res.value {
      EncodeDecode(s);
    } else {
      ParsedPutsValid(s[d.used..], r);
    }
  }

  lemma {:induction false} LiveValid(dir: map<Bytes, Bytes>, paths: seq<Bytes>)
    ensures ValidMap(PutsOnly(TablesView(dir, paths)))
  {
    hide Parse, Fold, Codec.Valid;
    if paths != [] {
      var n := |paths| - 1;
      LiveValid(dir, paths[..n]);
      var recs := Parse(File(dir, paths[n])).recs;
      forall k | k in Fold(recs) ensures Fold(recs)[k].key == k
                                 ensures Fold(recs)[k].typ == TYPE_PUT ==> Codec.Valid(Fold(recs)[k]) {
        var i := FoldFrom(recs, k);
        if recs[i].typ == TYPE_PUT {
          ParsedPutsValid(File(dir, paths[n]), recs[i]);
        }
      }
      forall k | k in TablesView(dir, paths) && TablesView(dir, paths)[k].typ == TYPE_PUT
        ensures TablesView(dir, paths)[k].key == k && Codec.Valid(TablesView(dir, paths)[k]) {
        if k !in Fold(recs) {
          assert k in PutsOnly(TablesView(dir, paths[..n]));
        }
      }
    }
  }

  lemma LiveIs(dir: map<Bytes, Bytes>, paths: seq<Bytes>)
    ensures LiveRecords(dir, paths) == PutsOnly(TablesView(dir, paths))
  {
  }

  lemma MergeInputs(disk: Disk, sstables: seq<SSTable>)
    requires Mergeable(disk, sstables) && !SomeClosed(sstables)
    ensures var p := TableRecords(disk.dir, Paths(sstables));
            && AllAscending(p) && Overlay(p) == TablesView(disk.dir, Paths(sstables))
            && PutsOnly(Overlay(p)) == LiveRecords(disk.dir, Paths(sstables))
  {
    hide Parse, Fold, Less, Codec.Valid, Overlay, TablesView;
    OverlayIsView(disk.dir, Paths(sstables));
  }

  /** Run: merge the tables into one new file. It returns no table exactly when no key is live; otherwise the new
      table's file holds, in ascending key order, the newest record of every key whose newest record is a Put. A failure
      leaves the tables alone. */
  method Run(disk: Disk, sstables: seq<SSTable>, outputPath: Bytes) returns (r: Result<Option<SSTable>>)
    requires Mergeable(disk, sstables) && outputPath !in Paths(sstables)
    modifies disk, disk.calls
    ensures disk.Failures() >= old(disk.Failures())
    ensures r == Err(ErrIO) <==> disk.Failures() > old(disk.Failures()) || (outputPath == [] && !SomeClosed(sstables))
    ensures OnlyFile(old(disk.Image()), outputPath, disk.Image())
    ensures SeenOnlyFile(old(disk.seen), old(disk.Image()), outputPath, disk.seen)
    ensures r.Err? ==> r == Err(ErrIO) || (r == Err(ErrFileClosed) && SomeClosed(sstables))
    ensures r.Ok? ==> !SomeClosed(sstables)
    ensures r.Ok? ==> (r.value == None <==> LiveRecords(old(disk.dir), old(Paths(sstables))) == map[])
    ensures r.Ok? && r.value == None ==> disk.dir == old(disk.dir) - {outputPath}
    ensures r.Ok? && r.value.Some? ==>
              && fresh(r.value.value) && r.value.value.path == outputPath && outputPath in disk.dir
              && ValidMap(LiveRecords(old(disk.dir), old(Paths(sstables))))
              && disk.dir[outputPath] == FlushFile(LiveRecords(old(disk.dir), old(Paths(sstables))))
  {
    hide *;
    LiveValid(disk.dir, Paths(sstables));
    ghost var before, seen0, live := disk.Image(), disk.seen, LiveRecords(disk.dir, Paths(sstables));
    ImageFields(disk);
    OnlyFileStart(before, seen0, outputPath);
    var h := new RecordHeap();
    var openErr, iters;
    ghost var p;
    openErr, iters, p := OpenIterators(disk, sstables, h);
    if openErr.Some? {
      return Err(openErr.value);
    }
    MergeInputs(disk, sstables);
    LiveIs(disk.dir, Paths(sstables));
    var err, wrote := WriteOutput(disk, outputPath, h, iters, p, before, seen0);
    if err.Some? {
      return Err(err.value);
    }
    if !wrote {
      return Ok(None);
    }
    var sst := OpenMerged(disk, outputPath, live, before, seen0);
    r := if sst.Err? then Err(sst.error) else Ok(Some(sst.value));
  }

  /** Create the output, write the merge to it, and remove it again if that failed or there was nothing to write. */
  method WriteOutput(disk: Disk, name: Bytes, h: RecordHeap, iters: seq<Iterator>, ghost p: Pending,
      ghost before: Store, ghost seen0: set<Store>)
    returns (err: Option<Error>, wrote: bool)
    requires disk.Image() == before && disk.seen == seen0
    requires |iters| == |p| && Streams(iters, p) && AllAscending(p) && Holds(h.items, iters, p)
             && ValidMap(PutsOnly(Overlay(p)))
    modifies disk, disk.calls, h, iters, set i | 0 <= i < |iters| :: iters[i].reader
    ensures disk.Failures() >= old(disk.Failures())
    ensures err.Some? <==> disk.Failures() > old(disk.Failures()) || name == []
    ensures err.Some? ==> err == Some(ErrIO)
    ensures OnlyFile(before, name, disk.Image()) && SeenOnlyFile(seen0, before, name, disk.seen)
    ensures err == None ==> (wrote <==> PutsOnly(Overlay(p)) != map[])
    ensures err == None && !wrote ==> disk.dir == before.dir - {name}
    ensures err == None && wrote ==> name in disk.dir && disk.dir[name] == FlushFile(PutsOnly(Overlay(p)))
  {
    hide *;
    ImageFields(disk);
    var created := disk.CreateFile(name);
    CreatedOnlyFile(before, seen0, name, disk);
    if !created {
      return Some(ErrIO), false;
    }
    var writer := new SSTableWriter(disk, name);
    err, wrote := WriteMerge(disk, writer, h, iters, p, before, seen0);
    writer.Close();
    if err.Some? || !wrote {
      Discard(disk, name, before, seen0);
    }
  }

  /** The sstable.Open at the end of Run. */
  method OpenMerged(disk: Disk, name: Bytes, ghost live: map<Bytes, Record>, ghost before: Store,
      ghost seen0: set<Store>)
    returns (r: Result<SSTable>)
    requires ValidMap(live) && name != [] && name in disk.dir && disk.dir[name] == FlushFile(live)
    requires OnlyFile(before, name, disk.Image()) && SeenOnlyFile(seen0, before, name, disk.seen)
    modifies disk, disk.calls
    ensures disk.Failures() >= old(disk.Failures())
    ensures r.Err? <==> disk.Failures() > old(disk.Failures())
    ensures r.Err? ==> r == Err(ErrIO)
    ensures OnlyFile(before, name, disk.Image()) && SeenOnlyFile(seen0, before, name, disk.seen)
    ensures r.Ok? ==> fresh(r.value) && r.value.path == name && disk.dir == old(disk.dir)
  {
    hide *;
    var found := disk.Try();
    if !found {
      Discard(disk, name, before, seen0);
      return Err(ErrIO);
    }
    MergedFileOpens(disk.dir, name, live);
    r := OpenSSTable(disk, 0, name);
  }

  /** os.Remove of the output. */
  method Discard(disk: Disk, name: Bytes, ghost before: Store, ghost seen0: set<Store>)
    requires OnlyFile(before, name, disk.Image()) && SeenOnlyFile(seen0, before, name, disk.seen)
    modifies disk
    ensures OnlyFile(before, name, disk.Image()) && SeenOnlyFile(seen0, before, name, disk.seen)
    ensures disk.dir == before.dir - {name}
  {
    disk.RemoveFile(name);
    assert disk.dir - {name} == disk.dir;
  }

  lemma ImageFields(disk: Disk)
    ensures disk.Image() == Store(disk.wal, disk.dir)
  {
  }

  lemma OnlyFileStart(before: Store, seen0: set<Store>, name: Bytes)
    ensures OnlyFile(before, name, before) && SeenOnlyFile(seen0, before, name, seen0)
  {
  }

  lemma CreatedOnlyFile(before: Store, seen0: set<Store>, name: Bytes, disk: Disk)
    requires disk.wal == before.wal && (disk.dir == before.dir || disk.dir == before.dir[name := []])
    requires disk.seen == seen0 + {disk.Image()}
    ensures OnlyFile(before, name, disk.Image()) && SeenOnlyFile(seen0, before, name, disk.seen)
  {
    assert before.dir[name := []] - {name} == before.dir - {name};
  }

  lemma MergedFileOpens(dir: map<Bytes, Bytes>, name: Bytes, live: map<Bytes, Record>)
    requires ValidMap(live) && name in dir && dir[name] == FlushFile(live)
    ensures LoadError(dir, [name]) == None
  {
    hide FlushFile, AscendingRecords, AllValid, Parse;
    FlushFileContents(live);
    OneFile(dir, name);
  }
}
