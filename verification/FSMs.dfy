/** The raft state machine over the database. */
module FSMs {
  import opened ByteStrings
  import opened Wrappers
  import opened Codec
  import opened EngineSpec
  import opened EngineRuns
  import opened RaftLog
  import opened DBs

  class FSM {
    const db: DB

    constructor (db: DB)
      ensures this.db == db
    {
      this.db := db;
    }

    /** Room in the MemTable for whatever the entry writes. */
    ghost predicate HasRoom(data: Bytes)
      reads this, db, db.disk, db.memtable, db.sstables
    {
      EntryOp(data).Ok? ==> Fits(db.Model(), OpRecord(EntryOp(data).value))
    }

    /** Apply: decode the command and run it on the database. An entry that does not decode answers its error and
        changes nothing. */
    method Apply(data: Bytes) returns (err: Option<Error>)
      requires db.closed || (db.Valid() && HasRoom(data))
      modifies db, db.disk, db.disk.calls, db.memtable
      ensures db.disk.Failures() >= old(db.disk.Failures())
      ensures err == Some(ErrIO) <==> db.disk.Failures() > old(db.disk.Failures())
      ensures db.closed == old(db.closed) && (db.closed || db.Valid())
      ensures EntryOp(data).Err? ==> err == Some(EntryOp(data).error) && db.Model() == old(db.Model())
      ensures EntryOp(data).Ok? && db.closed ==> err == Some(ErrDbClosed) && db.Model() == old(db.Model())
      ensures EntryOp(data).Ok? && !db.closed ==>
                Outcome(old(db.Model()), EntryOp(data).value, err, db.Model(), old(db.disk.seen), db.disk.seen)
    {
      hide Inv, Outcome, CheckEncodePara, TablesOn, Decode, EntryOp, OpRecord, OpError, Step;
      EntryOpCases(data);
      var reader := new Reader(data);
      var cmd := DecodeFrom(reader);
      if cmd.Err? {
        return Some(cmd.error);
      }
      if cmd.value.typ == TYPE_PUT {
        err := db.Put(cmd.value.key, cmd.value.value);
      } else {
        err := db.Delete(cmd.value.key);
      }
    }

    /** Snapshot. */
    method Snapshot() returns (r: Result<map<Bytes, Bytes>>)
      requires db.closed || db.Valid()
      modifies db, db.disk, db.disk.calls, db.memtable
      ensures db.disk.Failures() >= old(db.disk.Failures())
      ensures r == Err(ErrIO) <==> db.disk.Failures() > old(db.disk.Failures())
      ensures db.closed == old(db.closed) && (db.closed || db.Valid())
      ensures db.closed ==> r == Err(ErrDbClosed) && db.Model() == old(db.Model())
      ensures !db.closed && r.Ok? ==>
                db.Model() == Step(old(db.Model()), Op.Snapshot) && r.value == SnapshotOf(db.Model())
      ensures !db.closed && r.Err? ==> r == Err(ErrIO) && View(db.Model()) == View(old(db.Model()))
    {
      hide *;
      r := db.CreateSnapshot();
    }

    /** Restore. */
    method Restore(files: map<Bytes, Bytes>) returns (err: Option<Error>)
      requires db.closed || db.Valid()
      modifies db, db.disk, db.wal, db.sstables
      ensures db.closed == old(db.closed)
      ensures db.closed ==> err == Some(ErrDbClosed) && db.Model() == old(db.Model())
      ensures !db.closed ==> err == RestoreError(files)
      ensures !db.closed && err == None ==> db.Model() == Restored(old(db.Model()).limit, files)
      ensures !db.closed && err == None && Inv(Restored(old(db.Model()).limit, files)) ==> db.Valid()
    {
      hide *;
      err := db.RestoreSnapshot(files);
    }
  }
}
