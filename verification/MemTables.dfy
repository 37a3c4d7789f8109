/** The MemTable: the newest record of every key written since the last flush, with its size in bytes. */
module MemTables {
  import opened ByteStrings
  import opened Wrappers
  import opened Codec
  import opened RecordLog

  const UINT64 := 0x1_0000_0000_0000_0000

  function Cost(r: Record): nat
  {
    HEADER_SIZE + |r.key| + |r.value|
  }

  /** The exact number of bytes the records of a table occupy in a file. */
  ghost function Total(m: map<Bytes, Record>): nat
  {
    if m == map[] then 0 else
      var k :| k in m;
      Cost(m[k]) + Total(m - {k})
  }

  lemma {:induction false} TotalRemove(m: map<Bytes, Record>, k: Bytes)
    requires k in m
    ensures Total(m) == Cost(m[k]) + Total(m - {k})
    decreases |m|
  {
    var j :| j in m && Total(m) == Cost(m[j]) + Total(m - {j});
    if j != k {
      TotalRemove(m - {j}, k);
      TotalRemove(m - {k}, j);
      assert m - {j} - {k} == m - {k} - {j};
    }
  }

  lemma TotalUpdate(m: map<Bytes, Record>, k: Bytes, r: Record)
    ensures Total(m[k := r]) == Cost(r) + Total(m) - (if k in m then Cost(m[k]) else 0)
    ensures k in m ==> Cost(m[k]) <= Total(m)
  {
    TotalRemove(m[k := r], k);
    assert m[k := r] - {k} == m - {k};
    if k in m {
      TotalRemove(m, k);
    } else {
      assert m - {k} == m;
    }
  }

  /** Nothing to flush exactly when there is no record. */
  lemma TotalZero(m: map<Bytes, Record>)
    ensures Total(m) == 0 <==> m == map[]
  {
  }

  /** Sorting by key and writing out takes exactly Total bytes. */
  lemma {:induction false} WriteTakesTotal(recs: seq<Record>)
    requires AllValid(recs) && AscendingRecords(recs)
    ensures |Write(recs)| == Total(Fold(recs))
  {
    hide Layout, Less;
    if recs != [] {
      var n := |recs| - 1;
      var last := recs[n];
      assert recs == recs[..n] + [last];
      WriteAppend(recs[..n], last);
      WriteTakesTotal(recs[..n]);
      TotalUpdate(Fold(recs[..n]), last.key, last);
      if last.key in Fold(recs[..n]) {
        var i := FoldFrom(recs[..n], last.key);
        LessIrreflexive(last.key);
      }
    }
  }

  ghost function Costs(recs: seq<Record>): nat
  {
    if recs == [] then 0 else Cost(recs[0]) + Costs(recs[1..])
  }

  lemma {:induction false} CostsSnoc(recs: seq<Record>, r: Record)
    ensures Costs(recs + [r]) == Costs(recs) + Cost(r)
  {
    if recs == [] {
      assert recs + [r] == [r];
    } else {
      assert (recs + [r])[1..] == recs[1..] + [r];
      CostsSnoc(recs[1..], r);
    }
  }

  /** Overwritten records only make a table smaller than the log it was replayed from. */
  lemma {:induction false} FoldTotal(recs: seq<Record>)
    ensures Total(Fold(recs)) <= Costs(recs)
  {
    if recs != [] {
      var n := |recs| - 1;
      assert recs == recs[..n] + [recs[n]];
      FoldTotal(recs[..n]);
      CostsSnoc(recs[..n], recs[n]);
      TotalUpdate(Fold(recs[..n]), recs[n].key, recs[n]);
    }
  }

  lemma {:induction false} ParseCosts(s: Bytes)
    ensures Costs(Parse(s).recs) <= |s|
    decreases |s|
  {
    var d := Decode(s);
    if d.res.Ok? {
      ParseCosts(s[d.used..]);
      assert Parse(s).recs[1..] == Parse(s[d.used..]).recs;
    }
  }

  class MemTable {
    var records: map<Bytes, Record>
    var size: nat  // a uint64: updated modulo 2^64

    /** The accounting invariant; it holds whether or not the counter wraps. */
    ghost predicate Accounted()
      reads this
    {
      size == Total(records) % UINT64
    }

    constructor ()
      ensures records == map[] && size == 0 && Accounted()
    {
      records, size := map[], 0;
    }

    /** insertToMemtable: take the old record's bytes off, put the new one's on. */
    method Insert(r: Record)
      requires Accounted()
      modifies this
      ensures Accounted() && records == old(records)[r.key := r]
    {
      ghost var off := if r.key in records then Cost(records[r.key]) else 0;
      TotalUpdate(records, r.key, r);
      Recount(Total(records), off, Cost(r));
      if r.key in records {
        size := Minus(size, Cost(records[r.key]));
      }
      records := records[r.key := r];
      size := Plus(size, Cost(r));
    }

    method Put(key: Bytes, value: Bytes) returns (err: Option<Error>)
      requires Accounted()
      modifies this
      ensures Accounted()
      ensures if key == [] then err == Some(ErrEmptyKey) && records == old(records)
              else err == None && records == old(records)[key := Record(TYPE_PUT, key, value)]
    {
      if |key| == 0 {
        return Some(ErrEmptyKey);
      }
      Insert(Record(TYPE_PUT, key, value));
      err := None;
    }

    method Delete(key: Bytes) returns (err: Option<Error>)
      requires Accounted()
      modifies this
      ensures Accounted()
      ensures if key == [] then err == Some(ErrEmptyKey) && records == old(records)
              else err == None && records == old(records)[key := Record(TYPE_DELETE, key, [])]
    {
      if |key| == 0 {
        return Some(ErrEmptyKey);
      }
      Insert(Record(TYPE_DELETE, key, []));
      err := None;
    }

    function Get(key: Bytes): (r: Option<Record>)
      reads this
    {
      if key in records then Some(records[key]) else None
    }

    /** ForEachRecord: sort the keys and visit their records in that order. */
    method ForEachRecord() returns (visited: seq<Record>)
      ensures visited == SortedRecords(records)
    {
      hide Ascending, Elements;
      var keysList := ListKeys(records.Keys);
      var sorted := SortKeys(keysList);
      visited := [];
      ghost var all := SortedRecords(records);
      for i := 0 to |sorted|
        invariant visited == all[..i]
      {
        ElementsAt(sorted, i);
        visited := visited + [records[sorted[i]]];
      }
    }

    method Reset()
      modifies this
      ensures records == map[] && size == 0 && Accounted()
    {
      records, size := map[], 0;
    }
  }

  /** uint64 addition and subtraction. */
  function Plus(a: nat, b: nat): nat
  {
    (a + b) % UINT64
  }

  function Minus(a: nat, b: nat): nat
  {
    (a - b) % UINT64
  }

  lemma Recount(total: nat, off: nat, on: nat)
    requires off <= total
    ensures Plus(Minus(total % UINT64, off), on) == (total - off + on) % UINT64
    ensures Plus(total % UINT64, on) == (total + on) % UINT64
  {
    MinusMod(total, off);
    PlusMod(total - off, on);
    PlusMod(total, on);
  }

  lemma PlusMod(x: nat, on: nat)
    ensures Plus(x % UINT64, on) == (x + on) % UINT64
  {
    var q := x / UINT64;
    assert x % UINT64 + on == (x + on) - q * UINT64;
    ModShift(x + on, q);
  }

  lemma MinusMod(total: nat, cost: nat)
    requires cost <= total
    ensures Minus(total % UINT64, cost) == (total - cost) % UINT64
  {
    var q := total / UINT64;
    assert total % UINT64 - cost == (total - cost) - q * UINT64;
    ModShift(total - cost, q);
  }

  lemma {:induction false} ModShift(x: int, q: nat)
    ensures (x - q * UINT64) % UINT64 == x % UINT64
  {
    if q > 0 {
      ModShift(x, q - 1);
    }
  }

  /** Below 2^64 bytes the counter is exact: it never underflows, and it reads 0 only when there is nothing to flush. */
  lemma CounterExact(m: MemTable)
    requires m.Accounted() && Total(m.records) < UINT64
    ensures m.size == Total(m.records)
    ensures m.size == 0 <==> m.records == map[]
    ensures forall k :: k in m.records ==> Cost(m.records[k]) <= m.size
  {
    TotalZero(m.records);
    forall k | k in m.records ensures Cost(m.records[k]) <= m.size {
      TotalRemove(m.records, k);
    }
  }
}
