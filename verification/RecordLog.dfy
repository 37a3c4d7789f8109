/** Files of concatenated records: what a reader finds in them, whole or cut anywhere, and the map they stand for. */
module RecordLog {
  import opened ByteStrings
  import opened Wrappers
  import opened Codec

  /** How the scan of a file ended: at the end, inside a record, or at bytes that are no record. */
  datatype Tail = Clean | Torn | Bad(error: Error)

  datatype Parsed = Parsed(recs: seq<Record>, tail: Tail)

  /** Decode from the front until it fails. */
  function Parse(s: Bytes): (p: Parsed)
    decreases |s|
  {
    var d := Decode(s);
    match d.res
    case Ok(r) =>
      var rest := Parse(s[d.used..]);
      Parsed([r] + rest.recs, rest.tail)
    case Err(EOF) => Parsed([], Clean)
    case Err(ErrIncompleteRecord) => Parsed([], Torn)
    case Err(e) => Parsed([], Bad(e))
  }

  ghost predicate AllValid(recs: seq<Record>)
  {
    forall i :: 0 <= i < |recs| ==> Valid(recs[i])
  }

  /** The file a sequence of appends leaves behind. */
  ghost function Write(recs: seq<Record>): Bytes
    requires AllValid(recs)
  {
    if recs == [] then [] else Layout(recs[0]) + Write(recs[1..])
  }

  lemma DecodeExtends(a: Bytes, b: Bytes)
    requires Decode(a).res.Ok?
    ensures Decode(a + b) == Decode(a)
  {
    var s := a + b;
    assert s[1..5] == a[1..5] && s[5..9] == a[5..9];
    var k, v := FromBigEndian(a[1..5]), FromBigEndian(a[5..9]);
    assert s[9..9 + k] == a[9..9 + k] && s[9 + k..9 + k + v] == a[9 + k..9 + k + v];
  }

  lemma PrefixDecodes(s: Bytes)
    requires Decode(s).res.Ok?
    ensures Decode(s[..Decode(s).used]) == Decode(s)
  {
    var d := Decode(s);
    var t := s[..d.used];
    assert t[1..5] == s[1..5] && t[5..9] == s[5..9];
    var k, v := FromBigEndian(s[1..5]), FromBigEndian(s[5..9]);
    assert t[9..9 + k] == s[9..9 + k] && t[9 + k..9 + k + v] == s[9 + k..9 + k + v];
  }

  lemma ParseEmpty()
    ensures Parse([]) == Parsed([], Clean)
  {
  }

  lemma EndOfFile(a: Bytes)
    ensures Decode(a).res == Err(EOF) <==> a == []
  {
  }

  lemma {:induction false} ParseAppend(a: Bytes, b: Bytes)
    requires Parse(a).tail == Clean
    ensures Parse(a + b) == Parsed(Parse(a).recs + Parse(b).recs, Parse(b).tail)
    decreases |a|
  {
    hide Decode;
    var d := Decode(a);
    if d.res.Err? {
      EndOfFile(a);
      assert a + b == b;
    } else {
      DecodeExtends(a, b);
      assert (a + b)[d.used..] == a[d.used..] + b;
      ParseAppend(a[d.used..], b);
      assert [d.res.value] + (Parse(a[d.used..]).recs + Parse(b).recs) == Parse(a).recs + Parse(b).recs;
    }
  }

  lemma ParseOne(r: Record, s: Bytes)
    requires Valid(r)
    ensures Parse(Layout(r) + s) == Parsed([r] + Parse(s).recs, Parse(s).tail)
  {
    DecodeEncode(r, s);
  }

  lemma {:induction false} ParseWrite(recs: seq<Record>)
    requires AllValid(recs)
    ensures Parse(Write(recs)) == Parsed(recs, Clean)
  {
    hide Layout, Decode;
    EndOfFile([]);
    if recs != [] {
      ParseWrite(recs[1..]);
      ParseOne(recs[0], Write(recs[1..]));
      assert recs == [recs[0]] + recs[1..];
    }
  }

  lemma {:induction false} WriteAppend(recs: seq<Record>, r: Record)
    requires AllValid(recs) && Valid(r)
    ensures AllValid(recs + [r]) && Write(recs + [r]) == Write(recs) + Layout(r)
  {
    hide Layout;
    if recs == [] {
      assert recs + [r] == [r];
      assert Write([r]) == Layout(r) + Write([]);
    } else {
      assert (recs + [r])[1..] == recs[1..] + [r];
      WriteAppend(recs[1..], r);
    }
  }

  /** Parsing undoes writing and writing undoes parsing: a clean file is the writing of its records. */
  lemma {:induction false} WriteParse(s: Bytes)
    requires Parse(s).tail == Clean && AllValid(Parse(s).recs)
    ensures Write(Parse(s).recs) == s
    decreases |s|
  {
    hide Decode, Layout;
    var d := Decode(s);
    if d.res.Err? {
      EndOfFile(s);
    } else {
      var rest := Parse(s[d.used..]);
      assert Parse(s).recs[0] == d.res.value && Parse(s).recs[1..] == rest.recs;
      assert forall i :: 0 <= i < |rest.recs| ==> rest.recs[i] == Parse(s).recs[i + 1];
      EncodeDecode(s);
      WriteParse(s[d.used..]);
      assert s == s[..d.used] + s[d.used..];
    }
  }

  lemma ParseTorn(r: Record, n: nat)
    requires Valid(r) && 0 < n < |Layout(r)|
    ensures Parse(Layout(r)[..n]) == Parsed([], Torn)
  {
    TornRecord(r, n);
  }

  /** A file cut at any byte still yields, in order, exactly the records that are whole; it reads as clean exactly at a
      boundary. */
  lemma {:induction false} ParseCut(recs: seq<Record>, n: nat) returns (m: nat)
    requires AllValid(recs) && n <= |Write(recs)|
    ensures m <= |recs| && Parse(Write(recs)[..n]).recs == recs[..m]
    ensures Parse(Write(recs)[..n]).tail == (if n == |Write(recs[..m])| then Clean else Torn)
    ensures |Write(recs[..m])| <= n && (m < |recs| ==> n < |Write(recs[..m + 1])|)
  {
    hide Decode, Layout, Parse, Write;
    WriteNothing();
    if recs == [] || n == 0 {
      ParseEmpty();
      m := 0;
      if recs != [] {
        WriteFirst(recs, 1);
      }
    } else {
      var first := Layout(recs[0]);
      WriteFirst(recs, |recs|);
      if n < |first| {
        m := 0;
        assert Write(recs)[..n] == first[..n];
        ParseTorn(recs[0], n);
        WriteFirst(recs, 1);
      } else {
        var k := ParseCut(recs[1..], n - |first|);
        m := k + 1;
        assert Write(recs)[..n] == first + Write(recs[1..])[..n - |first|];
        ParseOne(recs[0], Write(recs[1..])[..n - |first|]);
        assert [recs[0]] + recs[1..][..k] == recs[..m];
        WriteFirst(recs, m);
        if m < |recs| {
          WriteFirst(recs, m + 1);
        }
      }
    }
  }

  lemma WriteNothing()
    ensures Write([]) == []
  {
  }

  lemma WriteFirst(recs: seq<Record>, i: nat)
    requires AllValid(recs) && 1 <= i <= |recs|
    ensures Write(recs[..i]) == Layout(recs[0]) + Write(recs[1..][..i - 1])
    ensures i == |recs| ==> Write(recs) == Layout(recs[0]) + Write(recs[1..])
  {
    hide Layout;
    assert recs[..i][1..] == recs[1..][..i - 1];
  }

  /** A scan of s that has produced done and still has rest before it. */
  ghost predicate Scanned(s: Bytes, done: seq<Record>, rest: Bytes)
  {
    Parse(s) == Parsed(done + Parse(rest).recs, Parse(rest).tail)
  }

  lemma ScanStart(s: Bytes)
    ensures Scanned(s, [], s)
  {
    assert [] + Parse(s).recs == Parse(s).recs;
  }

  lemma ScanStep(s: Bytes, done: seq<Record>, rest: Bytes)
    requires Scanned(s, done, rest)
    ensures var d := Decode(rest);
            if d.res.Ok? then
              Scanned(s, done + [d.res.value], rest[d.used..]) && d.used > 0 && d.res.value.key != []
            else
              && Parse(s).recs == done
              && Parse(s).tail == (if d.res.error == EOF then Clean
                                   else if d.res.error == ErrIncompleteRecord then Torn
                                   else Bad(d.res.error))
  {
    var d := Decode(rest);
    if d.res.Ok? {
      EncodeDecode(rest);
      assert done + ([d.res.value] + Parse(rest[d.used..]).recs) == done + [d.res.value] + Parse(rest[d.used..]).recs;
    } else {
      assert done + [] == done;
    }
  }

  // ----- the map a sequence of records stands for -----

  /** Later records replace earlier ones with the same key. */
  function Fold(recs: seq<Record>): (m: map<Bytes, Record>)
  {
    if recs == [] then map[] else
      var n := |recs| - 1;
      Fold(recs[..n])[recs[n].key := recs[n]]
  }

  lemma FoldEmpty()
    ensures Fold([]) == map[]
  {
  }

  lemma FoldSnoc(recs: seq<Record>, r: Record)
    ensures Fold(recs + [r]) == Fold(recs)[r.key := r]
  {
    assert (recs + [r])[..|recs|] == recs;
  }

  lemma {:induction false} FoldAppend(a: seq<Record>, b: seq<Record>)
    ensures Fold(a + b) == Fold(a) + Fold(b)
  {
    if b == [] {
      assert a + b == a;
    } else {
      var n := |b| - 1;
      assert (a + b)[..|a| + n] == a + b[..n];
      FoldAppend(a, b[..n]);
    }
  }

  /** Fold keeps, for each key, its last record. */
  lemma {:induction false} FoldIsLast(recs: seq<Record>, k: Bytes)
    ensures k in Fold(recs) <==> exists i :: 0 <= i < |recs| && recs[i].key == k
    ensures k in Fold(recs) ==>
              exists i :: 0 <= i < |recs| && recs[i].key == k && Fold(recs)[k] == recs[i]
                          && forall j :: i < j < |recs| ==> recs[j].key != k
  {
    if recs != [] {
      var n := |recs| - 1;
      FoldIsLast(recs[..n], k);
      assert forall i :: 0 <= i < n ==> recs[..n][i] == recs[i];
      if recs[n].key == k {
        assert Fold(recs)[k] == recs[n];
      } else if k in Fold(recs[..n]) {
        var i :| 0 <= i < n && recs[..n][i].key == k && Fold(recs[..n])[k] == recs[..n][i]
                 && forall j :: i < j < n ==> recs[..n][j].key != k;
        assert recs[i].key == k && Fold(recs)[k] == recs[i] && forall j :: i < j < |recs| ==> recs[j].key != k;
      }
    }
  }

  /** Each key leads to a record of that key that the codec accepts. */
  ghost predicate ValidMap(m: map<Bytes, Record>)
  {
    forall k :: k in m ==> m[k].key == k && Valid(m[k])
  }

  lemma {:induction false} FoldValid(recs: seq<Record>)
    requires AllValid(recs)
    ensures ValidMap(Fold(recs))
  {
    if recs != [] {
      FoldValid(recs[..|recs| - 1]);
    }
  }

  ghost predicate AscendingRecords(recs: seq<Record>)
  {
    forall i, j :: 0 <= i < j < |recs| ==> Less(recs[i].key, recs[j].key)
  }

  /** The records of a map in ascending key order. */
  ghost function SortedRecords(m: map<Bytes, Record>): (recs: seq<Record>)
    ensures |recs| == |Sorted(m.Keys)|
    ensures forall i :: 0 <= i < |recs| ==> Sorted(m.Keys)[i] in m && recs[i] == m[Sorted(m.Keys)[i]]
  {
    var ks := Sorted(m.Keys);
    assert forall i :: 0 <= i < |ks| ==> ks[i] in Elements(ks);
    seq(|ks|, i requires 0 <= i < |ks| => m[ks[i]])
  }

  lemma SortedRecordsAscend(m: map<Bytes, Record>)
    requires ValidMap(m)
    ensures AscendingRecords(SortedRecords(m)) && AllValid(SortedRecords(m))
    ensures forall i :: 0 <= i < |SortedRecords(m)| ==> SortedRecords(m)[i].key == Sorted(m.Keys)[i]
  {
    hide Less, Valid;
  }

  /** In a list of ascending keys every record is the last one of its key. */
  lemma {:induction false} FoldAt(recs: seq<Record>, i: nat)
    requires AscendingRecords(recs) && i < |recs|
    ensures recs[i].key in Fold(recs) && Fold(recs)[recs[i].key] == recs[i]
  {
    hide Less;
    var n := |recs| - 1;
    if i < n {
      FoldAt(recs[..n], i);
      LessAsymmetric(recs[i].key, recs[n].key);
    }
  }

  lemma {:induction false} FoldFrom(recs: seq<Record>, k: Bytes) returns (i: nat)
    requires k in Fold(recs)
    ensures i < |recs| && recs[i].key == k && Fold(recs)[k] == recs[i]
  {
    i := |recs| - 1;
    if recs[i].key != k {
      i := FoldFrom(recs[..i], k);
    }
  }

  /** Sorting a map's records loses nothing. */
  lemma FoldSortedRecords(m: map<Bytes, Record>)
    requires ValidMap(m)
    ensures Fold(SortedRecords(m)) == m
  {
    hide Fold, Less, Valid;
    var recs, ks := SortedRecords(m), Sorted(m.Keys);
    SortedRecordsAscend(m);
    forall k ensures k in Fold(recs) <==> k in m
             ensures k in m ==> Fold(recs)[k] == m[k] {
      if k in m {
        assert k in Elements(ks);
        var i :| 0 <= i < |ks| && ks[i] == k;
        FoldAt(recs, i);
      } else if k in Fold(recs) {
        var i := FoldFrom(recs, k);
      }
    }
  }

  /** An ascending list is determined by its map. */
  lemma AscendingRecordsUnique(recs: seq<Record>)
    requires AscendingRecords(recs)
    ensures recs == SortedRecords(Fold(recs))
  {
    hide Fold, Less;
    var ks := seq(|recs|, i requires 0 <= i < |recs| => recs[i].key);
    forall k ensures k in Elements(ks) <==> k in Fold(recs) {
      if k in Fold(recs) {
        var i := FoldFrom(recs, k);
        assert ks[i] == k;
      }
      if k in ks {
        var i :| 0 <= i < |ks| && ks[i] == k;
        FoldAt(recs, i);
      }
    }
    AscendingUnique(ks, Sorted(Fold(recs).Keys));
    forall i | 0 <= i < |recs| ensures Fold(recs)[ks[i]] == recs[i] {
      FoldAt(recs, i);
    }
  }

  /** A cut of an ascending file holds a part of its map. */
  lemma FoldPrefix(recs: seq<Record>, m: nat)
    requires AscendingRecords(recs) && m <= |recs|
    ensures AscendingRecords(recs[..m])
    ensures Fold(recs[..m]).Keys <= Fold(recs).Keys
    ensures forall k :: k in Fold(recs[..m]) ==> Fold(recs[..m])[k] == Fold(recs)[k]
  {
    hide Fold, Less;
    forall k | k in Fold(recs[..m]) ensures k in Fold(recs) && Fold(recs[..m])[k] == Fold(recs)[k] {
      var i := FoldFrom(recs[..m], k);
      FoldAt(recs, i);
    }
  }
}
