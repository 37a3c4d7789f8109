/** Table files: the writer, the offset index, point reads, ordered visits and streaming reads. */
module SSTables {
  import opened ByteStrings
  import opened Wrappers
  import opened Codec
  import opened RecordLog
  import opened EngineSpec
  import opened Disks

  // ----- the offset index -----

  /** For each key the offset of its last record in s, which starts at offset base of its file. */
  ghost function IndexFrom(s: Bytes, base: nat): map<Bytes, nat>
    decreases |s|
  {
    var d := Decode(s);
    if d.res.Err? then map[] else map[d.res.value.key := base] + IndexFrom(s[d.used..], base + d.used)
  }

  ghost predicate IsBoundary(file: Bytes, offset: nat)
  {
    offset <= |file| && Parse(file[..offset]).tail == Clean
  }

  /** Record r begins at this boundary of the file. */
  ghost predicate BeginsAt(file: Bytes, offset: int, r: Record)
  {
    0 <= offset && IsBoundary(file, offset) && Decode(file[offset..]).res == Ok(r)
  }

  lemma BeginsShift(s: Bytes, offset: nat, r: Record)
    requires Decode(s).res.Ok? && BeginsAt(s[Decode(s).used..], offset, r)
    ensures BeginsAt(s, Decode(s).used + offset, r)
  {
    hide Decode;
    var u := Decode(s).used;
    PrefixDecodes(s);
    ParseOnePrefix(s[..u], Decode(s).res.value);
    ParseAppend(s[..u], s[u..][..offset]);
    assert s[..u] + s[u..][..offset] == s[..u + offset];
    assert s[u..][offset..] == s[u + offset..];
  }

  lemma ParseOnePrefix(t: Bytes, r: Record)
    requires Decode(t) == Decoded(Ok(r), |t|)
    ensures Parse(t).tail == Clean
  {
    assert t[|t|..] == [];
  }

  lemma {:induction false} FoldFirst(r: Record, rest: seq<Record>)
    ensures Fold([r] + rest) == map[r.key := r] + Fold(rest)
  {
    FoldAppend([r], rest);
    FoldSnoc([], r);
    assert [] + [r] == [r];
  }

  /** The index agrees with the scan: it knows the scanned keys, and at each one's offset, a record boundary, its last
      record begins. */
  lemma {:induction false} IndexAgrees(s: Bytes, base: nat, key: Bytes)
    ensures key in IndexFrom(s, base) <==> key in Contents(s)
    ensures key in Contents(s) ==>
              BeginsAt(s, IndexFrom(s, base)[key] - base, Contents(s)[key]) && Contents(s)[key].key == key
    decreases |s|
  {
    hide Decode, Fold, BeginsAt;
    var d := Decode(s);
    if d.res.Err? {
      FoldEmpty();
    } else {
      var r, rest := d.res.value, s[d.used..];
      IndexAgrees(rest, base + d.used, key);
      FoldFirst(r, Parse(rest).recs);
      if key in Contents(rest) {
        IndexAbove(rest, base + d.used, key);
        BeginsShift(s, IndexFrom(rest, base + d.used)[key] - base - d.used, Contents(rest)[key]);
      } else if key == r.key {
        BeginsAtStart(s);
      }
    }
  }

  lemma {:induction false} IndexAbove(s: Bytes, base: nat, key: Bytes)
    requires key in IndexFrom(s, base)
    ensures IndexFrom(s, base)[key] >= base
    decreases |s|
  {
    hide Decode;
    var d := Decode(s);
    if key in IndexFrom(s[d.used..], base + d.used) {
      IndexAbove(s[d.used..], base + d.used, key);
    }
  }

  lemma BeginsAtStart(s: Bytes)
    requires Decode(s).res.Ok?
    ensures BeginsAt(s, 0, Decode(s).res.value)
  {
    assert s[0..] == s;
  }

  class SSTable {
    const disk: Disk
    var id: nat
    var path: Bytes
    var size: nat
    var index: map<Bytes, nat>
    var closed: bool

    /** The table is open on a file whose bytes its index describes. */
    ghost predicate Current()
      reads this, disk
    {
      !closed && path in disk.dir && size == |disk.dir[path]| && index == IndexFrom(disk.dir[path], 0)
    }

    constructor (disk: Disk, id: nat, path: Bytes, size: nat, index: map<Bytes, nat>)
      ensures this.disk == disk && this.id == id && this.path == path && this.size == size && this.index == index
              && !closed
    {
      this.disk, this.id, this.path, this.size, this.index, this.closed := disk, id, path, size, index, false;
    }

    /** Get: look the offset up and decode there. */
    method Get(key: Bytes) returns (r: Result<Option<Record>>)
      requires closed || Current()
      ensures closed ==> r == Err(ErrFileClosed)
      ensures !closed && key == [] ==> r == Err(ErrInvalidPara)
      ensures !closed && key != [] ==>
                var m := Contents(disk.dir[path]);
                r == Ok(if key in m then Some(m[key]) else None)
    {
      hide Decode, Contents, IndexFrom, Parse;
      if closed {
        return Err(ErrFileClosed);
      }
      if |key| == 0 {
        return Err(ErrInvalidPara);
      }
      IndexAgrees(disk.dir[path], 0, key);
      if key !in index {
        return Ok(None);
      }
      var offset := index[key];
      var reader := new Reader(disk.dir[path][offset..size]);
      assert disk.dir[path][offset..size] == disk.dir[path][offset..];
      var rec := DecodeFrom(reader);
      r := Ok(Some(rec.value));
    }

    /** ForEachRecord: one visit per key, in key order, with the key's last record. */
    method ForEachRecord() returns (err: Option<Error>, visited: seq<Record>)
      requires closed || Current()
      ensures closed ==> visited == [] && err == if index == map[] then None else Some(ErrFileClosed)
      ensures !closed ==> err == None && visited == SortedRecords(Contents(disk.dir[path]))
    {
      hide Decode, Contents, IndexFrom, Ascending, Elements, Parse, BeginsAt;
      if closed {
        return if |index| == 0 then None else Some(ErrFileClosed), [];
      }
      ghost var m := Contents(disk.dir[path]);
      IndexKeys(disk.dir[path]);
      KeysNotEmpty(disk.dir[path]);
      var keysList := ListKeys(index.Keys);
      keysList := SortKeys(keysList);
      visited := [];
      ghost var all := SortedRecords(m);
      for i := 0 to |keysList|
        invariant visited == all[..i]
      {
        ElementsAt(keysList, i);
        var rec := Get(keysList[i]);
        visited := visited + [rec.value.value];
      }
      err := None;
    }

    /** NewIterator: a second descriptor on the same file, advanced to the first record. */
    method NewIterator() returns (r: Result<Iterator>)
      requires closed || Current()
      modifies disk.calls
      ensures closed ==> r == Err(ErrFileClosed)
      ensures !closed && r.Err? ==> r == Err(ErrIO)
      ensures disk.Failures() >= old(disk.Failures())
      ensures r == Err(ErrIO) <==> disk.Failures() > old(disk.Failures())
      ensures r.Ok? ==> fresh(r.value) && fresh(r.value.reader)
      ensures r.Ok? ==>
                var p, it := Parse(disk.dir[path]), r.value;
                && it.reader.InBounds() && !it.closed
                && if p.recs != [] then it.valid && it.err == None && it.cur == p.recs[0]
                   else !it.valid && it.err == TailError(p.tail)
      ensures r.Ok? && Parse(disk.dir[path]).tail == Clean ==>
                r.value.Streaming() && r.value.Loaded() && r.value.Pending() == Parse(disk.dir[path]).recs
    {
      hide Parse;
      if closed {
        return Err(ErrFileClosed);
      }
      var ok := disk.Try();
      if !ok {
        return Err(ErrIO);
      }
      var it := new Iterator(disk.dir[path]);
      assert [] + Parse(disk.dir[path]).recs == Parse(disk.dir[path]).recs;
      it.Next();
      r := Ok(it);
    }

    method Close()
      modifies this
      ensures closed
    {
      id, path, closed := 0, [], true;
    }
  }

  lemma IndexKeys(file: Bytes)
    ensures IndexFrom(file, 0).Keys == Contents(file).Keys
  {
    hide IndexFrom, Contents;
    forall k ensures k in IndexFrom(file, 0) <==> k in Contents(file) {
      IndexAgrees(file, 0, k);
    }
  }

  lemma KeysNotEmpty(file: Bytes)
    ensures [] !in Contents(file)
  {
    hide Decode, Parse, Fold;
    if [] in Contents(file) {
      IndexAgrees(file, 0, []);
      EncodeDecode(file[IndexFrom(file, 0)[[]]..]);
    }
  }

  /** The error a scan that ends like this reports. */
  function TailError(t: Tail): Option<Error>
  {
    match t
    case Clean => None
    case Torn => Some(ErrIncompleteRecord)
    case Bad(e) => Some(e)
  }

  class Iterator {
    const reader: Reader
    var cur: Record
    var valid: bool
    var err: Option<Error>
    var closed: bool

    /** Open on a file that is clean from here on. */
    ghost predicate Streaming()
      reads this, reader
    {
      !closed && err == None && reader.InBounds() && Parse(reader.Rest()).tail == Clean
    }

    /** The records not yet consumed, the current one first. */
    ghost function Pending(): seq<Record>
      requires reader.InBounds()
      reads this, reader
    {
      (if valid then [cur] else []) + Parse(reader.Rest()).recs
    }

    /** The current record is there as long as any record is left. */
    ghost predicate Loaded()
      requires reader.InBounds()
      reads this, reader
    {
      valid <==> Pending() != []
    }

    constructor (file: Bytes)
      ensures fresh(reader) && reader.InBounds() && reader.Rest() == file
      ensures !valid && err == None && !closed
    {
      reader := new Reader(file);
      cur, valid, err, closed := Record(TYPE_PUT, [], []), false, None, false;
    }

    predicate Valid()
      reads this
    {
      !closed && err == None && valid
    }

    /** Next: step over the current record; a torn or foreign record becomes the iterator's error. */
    method Next()
      requires reader.InBounds()
      modifies this, reader
      ensures reader.InBounds() && closed == old(closed)
      ensures old(closed || err.Some?) ==>
              valid == old(valid) && cur == old(cur) && err == old(err) && closed == old(closed)
      ensures old(Streaming()) ==>
                && Streaming() && Loaded()
                && Pending() == if old(valid) then old(Pending())[1..] else old(Pending())
      // on any file: the next record in parse order, or the end, or how the parse fails
      ensures old(!closed && err == None) ==>
                var p := Parse(old(reader.Rest()));
                if p.recs != [] then valid && err == None && cur == p.recs[0]
                    && Parse(reader.Rest()) == Parsed(p.recs[1..], p.tail)
                else !valid && err == TailError(p.tail)
    {
      hide Decode;
      if closed || err.Some? {
        return;
      }
      ghost var rest := reader.Rest();
      EndOfFile(rest);
      var rec := DecodeFrom(reader);
      if rec == Err(EOF) {
        valid := false;
        return;
      }
      if rec.Err? {
        err, valid := Some(rec.error), false;
        return;
      }
      cur, valid := rec.value, true;
    }

    method Close()
      modifies this
      ensures closed && !valid
    {
      valid, closed := false, true;
    }
  }

  class SSTableWriter {
    const disk: Disk
    const path: Bytes
    var closed: bool

    constructor (disk: Disk, path: Bytes)
      ensures this.disk == disk && this.path == path && !closed
    {
      this.disk, this.path, closed := disk, path, false;
    }

    /** Append: one record's layout at the end of the file, or an error with any part of it written. */
    method Append(r: Record) returns (err: Option<Error>)
      requires path in disk.dir
      modifies disk, disk.calls
      ensures disk.wal == old(disk.wal)
      ensures disk.Failures() >= old(disk.Failures())
      ensures err == Some(ErrIO) <==> disk.Failures() > old(disk.Failures())
      ensures closed ==> err == Some(ErrFileClosed)
      ensures !closed && !Codec.Valid(r) ==> err == CheckEncodePara(r)
      ensures closed || !Codec.Valid(r) ==> disk.dir == old(disk.dir) && disk.seen == old(disk.seen)
      ensures !closed && Codec.Valid(r) ==>
              disk.seen == old(disk.seen) + FilePrefixes(old(disk.Image()), path, Layout(r))
      ensures err == None ==> Codec.Valid(r) && disk.dir == old(disk.dir)[path := old(disk.dir)[path] + Layout(r)]
      ensures err.Some? && !closed && Codec.Valid(r) ==>
                err == Some(ErrIO)
                && exists n :: 0 <= n <= |Layout(r)|
                    && disk.dir == old(disk.dir)[path := old(disk.dir)[path] + Layout(r)[..n]]
    {
      hide Layout;
      if closed {
        return Some(ErrFileClosed);
      }
      var data := Encode(r);
      if data.Err? {
        return Some(data.error);
      }
      var ok := disk.AppendFile(path, data.value);
      err := if ok then None else Some(ErrIO);
    }

    method Close()
      modifies this
      ensures closed
    {
      closed := true;
    }
  }

  /** On a file a flush or a compaction wrote, the ordered visits and the streaming reads give the same records. */
  lemma VisitsAreStream(file: Bytes)
    requires CleanTable(file)
    ensures SortedRecords(Contents(file)) == Parse(file).recs
  {
    AscendingRecordsUnique(Parse(file).recs);
  }

  /** Open: scan the whole file, recording offsets; refuse a missing file and one with a torn or foreign
      record. */
  method OpenSSTable(disk: Disk, id: nat, path: Bytes) returns (r: Result<SSTable>)
    ensures path == [] ==> r == Err(ErrInvalidPara)
    ensures path != [] && path !in disk.dir ==> r == Err(ErrIO)
    ensures path != [] && path in disk.dir ==> (r.Ok? <==> LoadError(disk.dir, [path]) == None)
    ensures path != [] && path in disk.dir && r.Err? ==> LoadError(disk.dir, [path]) == Some(r.error)
    ensures r.Ok? ==>
              && fresh(r.value) && r.value.disk == disk && r.value.id == id && r.value.path == path
              && r.value.Current()
  {
    hide Decode, Parse, Scanned, Indexed, IndexFrom;
    if path == [] {
      return Err(ErrInvalidPara);
    }
    if path !in disk.dir {
      return Err(ErrIO);
    }
    var file := disk.dir[path];
    OneFile(disk.dir, path);
    var reader := new Reader(file);
    var offset: nat := 0;
    var index: map<Bytes, nat> := map[];
    ghost var done: seq<Record> := [];
    ScanStart(file);
    IndexStart(file);
    while true
      invariant reader.InBounds() && fresh(reader)
      invariant Scanned(file, done, reader.Rest())
      invariant Indexed(file, index, reader.Rest(), offset)
      decreases |reader.Rest()|
    {
      ghost var rest := reader.Rest();
      ScanStep(file, done, rest);
      IndexStep(file, index, rest, offset);
      var rec := DecodeFrom(reader);
      if rec == Err(EOF) {
        break;
      } else if rec.Err? {
        return Err(rec.error);
      }
      done := done + [rec.value];
      index := index[rec.value.key := offset];
      offset := offset + HEADER_SIZE + |rec.value.key| + |rec.value.value|;
    }
    var t := new SSTable(disk, id, path, |file|, index);
    r := Ok(t);
  }

  /** The index built so far, completed by the rest of the file, is the index of the file. */
  ghost predicate Indexed(file: Bytes, index: map<Bytes, nat>, rest: Bytes, offset: nat)
  {
    index + IndexFrom(rest, offset) == IndexFrom(file, 0)
  }

  lemma IndexStart(file: Bytes)
    ensures Indexed(file, map[], file, 0)
  {
    assert map[] + IndexFrom(file, 0) == IndexFrom(file, 0);
  }

  lemma IndexStep(file: Bytes, index: map<Bytes, nat>, rest: Bytes, offset: nat)
    requires Indexed(file, index, rest, offset)
    ensures var d := Decode(rest);
            if d.res.Ok? then Indexed(file, index[d.res.value.key := offset], rest[d.used..], offset + d.used)
            else index == IndexFrom(file, 0)
  {
    hide Decode;
    if Decode(rest).res.Err? {
      assert index + map[] == index;
    }
  }

  lemma OneFile(dir: map<Bytes, Bytes>, path: Bytes)
    requires path in dir
    ensures LoadError(dir, [path]) == TailError(Parse(dir[path]).tail)
  {
    hide Parse;
  }
}
