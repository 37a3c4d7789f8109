/** The write-ahead log over its file. */
module Wals {
  import opened ByteStrings
  import opened Wrappers
  import opened Codec
  import opened RecordLog
  import opened MemTables
  import opened EngineSpec
  import opened Disks

  class WAL {
    const disk: Disk
    var isClosed: bool

    constructor (disk: Disk)
      ensures this.disk == disk && !isClosed
    {
      this.disk, isClosed := disk, false;
    }

    /** Append: nothing is written for a closed log or a record the codec refuses;
        otherwise the whole layout is, or a system call has failed, which is reported, and any part of it may have
        been. */
    method Append(r: Record) returns (err: Option<Error>)
      modifies disk, disk.calls
      ensures disk.dir == old(disk.dir)
      ensures disk.Failures() >= old(disk.Failures())
      ensures err == Some(ErrIO) <==> disk.Failures() > old(disk.Failures())
      ensures isClosed ==> err == Some(ErrFileClosed)
      ensures !isClosed && !Valid(r) ==> err == CheckEncodePara(r)
      ensures isClosed || !Valid(r) ==> disk.wal == old(disk.wal) && disk.seen == old(disk.seen)
      ensures !isClosed && Valid(r) ==> disk.seen == old(disk.seen) + WalPrefixes(old(disk.Image()), Layout(r))
      ensures err == None ==> Valid(r) && disk.wal == old(disk.wal) + Layout(r)
      ensures err.Some? && !isClosed && Valid(r) ==>
                err == Some(ErrIO) && exists n :: 0 <= n <= |Layout(r)| && disk.wal == old(disk.wal) + Layout(r)[..n]
    {
      hide Layout;
      if isClosed {
        return Some(ErrFileClosed);
      }
      var data := Encode(r);
      if data.Err? {
        return Some(data.error);
      }
      var ok := disk.AppendWal(data.value);
      err := if ok then None else Some(ErrIO);
    }

    /** Replay into a MemTable: decode from the start, apply each record, stop quietly at a torn tail, refuse foreign
        bytes. */
    method Replay(m: MemTable) returns (err: Option<Error>)
      requires m.Accounted()
      modifies m
      ensures m.Accounted()
      ensures isClosed ==> err == Some(ErrFileClosed) && m.records == old(m.records)
      ensures !isClosed ==> err == ReplayError(disk.wal) && m.records == Continue(old(m.records), Parse(disk.wal).recs)
    {
      hide Decode, Parse, Continue, Scanned;
      if isClosed {
        return Some(ErrFileClosed);
      }
      var r := new Reader(disk.wal);
      ghost var m0, done := m.records, [];
      ContinueNone(m0);
      ScanStart(disk.wal);
      while true
        invariant m.Accounted() && r.InBounds() && fresh(r)
        invariant Scanned(disk.wal, done, r.Rest())
        invariant m.records == Continue(m0, done)
        decreases |r.Rest()|
      {
        ScanStep(disk.wal, done, r.Rest());
        var rec := DecodeFrom(r);
        if rec.Err? {
          return if rec.error == EOF || rec.error == ErrIncompleteRecord then None else Some(rec.error);
        }
        ApplyRecord(m, rec.value);
        ContinueSnoc(m0, done, rec.value);
        done := done + [rec.value];
      }
    }

    method Reset() returns (err: Option<Error>)
      modifies disk, disk.calls
      ensures disk.dir == old(disk.dir)
      ensures disk.Failures() >= old(disk.Failures())
      ensures err == Some(ErrIO) <==> disk.Failures() > old(disk.Failures())
      ensures isClosed ==> err == Some(ErrFileClosed) && disk.wal == old(disk.wal) && disk.seen == old(disk.seen)
      ensures !isClosed ==> disk.seen == old(disk.seen) + {disk.Image()}
      ensures err == None ==> disk.wal == []
      ensures !isClosed && err.Some? ==> err == Some(ErrIO) && (disk.wal == old(disk.wal) || disk.wal == [])
    {
      if isClosed {
        return Some(ErrFileClosed);
      }
      var ok := disk.TruncateWal();
      err := if ok then None else Some(ErrIO);
    }

    method Close()
      modifies this
      ensures isClosed
    {
      isClosed := true;
    }
  }

  /** The callback Open passes to Replay. */
  method ApplyRecord(m: MemTable, r: Record)
    requires m.Accounted() && r.key != []
    modifies m
    ensures m.Accounted() && m.records == old(m.records)[r.key := Normal(r)]
  {
    if r.typ == TYPE_PUT {
      var _ := m.Put(r.key, r.value);
    } else {
      var _ := m.Delete(r.key);
    }
  }

  /** Records applied on top of what a MemTable already holds. */
  ghost function Continue(m: map<Bytes, Record>, recs: seq<Record>): map<Bytes, Record>
  {
    m + Fold(Normalized(recs))
  }

  lemma ContinueSnoc(m: map<Bytes, Record>, recs: seq<Record>, r: Record)
    ensures Continue(m, recs + [r]) == Continue(m, recs)[r.key := Normal(r)]
  {
    assert Normalized(recs + [r]) == Normalized(recs) + [Normal(r)];
    FoldSnoc(Normalized(recs), Normal(r));
  }

  lemma ContinueNone(m: map<Bytes, Record>)
    ensures Continue(m, []) == m
  {
    assert Normalized([]) == [];
  }
}
