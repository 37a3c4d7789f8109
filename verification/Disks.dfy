/** The files of one database: the WAL and the table directory, with every way a write can fall short. */
module Disks {
  import opened ByteStrings
  import opened EngineSpec

  /** All prefixes of an append that a crash or a failed write can leave behind. */
  function WalPrefixes(s: Store, data: Bytes): set<Store>
  {
    set n | 0 <= n <= |data| :: s.(wal := s.wal + data[..n])
  }

  function FilePrefixes(s: Store, name: Bytes, data: Bytes): set<Store>
  {
    set n | 0 <= n <= |data| :: s.(dir := s.dir[name := File(s.dir, name) + data[..n]])
  }

  /** How many of the first n system calls fail. */
  ghost function FailuresAmong(succeeds: nat -> bool, n: nat): nat
  {
    if n == 0 then 0 else FailuresAmong(succeeds, n - 1) + if succeeds(n - 1) then 0 else 1
  }

  /** Calls that all succeed leave the number of failures as it was; a number that has grown means that one of the
      calls made since has failed. */
  lemma {:induction false} FailuresAreReal(succeeds: nat -> bool, from: nat, to: nat)
    requires from <= to
    ensures FailuresAmong(succeeds, from) <= FailuresAmong(succeeds, to)
    ensures FailuresAmong(succeeds, from) < FailuresAmong(succeeds, to) <==>
            exists n :: from <= n < to && !succeeds(n)
  {
    if from < to {
      FailuresAreReal(succeeds, from, to - 1);
    }
  }

  /** The system calls of one process. Which of them succeed is the environment's choice, made once and for all: the
      program finds out call by call and cannot change it. */
  class SystemCalls {
    const succeeds: nat -> bool
    var made: nat

    constructor (succeeds: nat -> bool)
      ensures this.succeeds == succeeds && made == 0
    {
      this.succeeds, made := succeeds, 0;
    }

    /** The failures so far. */
    ghost function Failures(): nat
      reads this
    {
      FailuresAmong(succeeds, made)
    }

    method Next() returns (ok: bool)
      modifies this
      ensures made == old(made) + 1 && ok == succeeds(old(made))
      ensures Failures() == old(Failures()) + if ok then 0 else 1
    {
      ok := succeeds(made);
      made := made + 1;
    }
  }

  class Disk {
    const calls: SystemCalls
    var wal: Bytes
    var dir: map<Bytes, Bytes>

    /** Every content the disk has had: the states a crash can find it in. */
    ghost var seen: set<Store>

    ghost function Image(): Store
      reads this
    {
      Store(wal, dir)
    }

    /** The system calls that have failed so far. */
    ghost function Failures(): nat
      reads calls
    {
      calls.Failures()
    }

    constructor (s: Store, calls: SystemCalls)
      ensures this.calls == calls && Image() == s && seen == {s}
    {
      this.calls, wal, dir, seen := calls, s.wal, s.dir, {s};
    }

    /** Any system call that changes nothing on disk: it may fail. */
    method Try() returns (ok: bool)
      modifies calls
      ensures Failures() == old(Failures()) + if ok then 0 else 1
    {
      ok := calls.Next();
    }

    /** Write then Sync; a failed call may have written any part, or all, of the data. */
    method AppendWal(data: Bytes) returns (ok: bool)
      modifies this, calls
      ensures Failures() == old(Failures()) + if ok then 0 else 1
      ensures dir == old(dir) && seen == old(seen) + WalPrefixes(old(Image()), data)
      ensures if ok then wal == old(wal) + data else exists n :: 0 <= n <= |data| && wal == old(wal) + data[..n]
    {
      seen := seen + WalPrefixes(Image(), data);
      ok := calls.Next();
      if ok {
        wal := wal + data;
      } else {
        var n :| 0 <= n <= |data|;
        wal := wal + data[..n];
      }
    }

    /** Truncate, Seek and Sync; a failed call may have truncated. */
    method TruncateWal() returns (ok: bool)
      modifies this, calls
      ensures Failures() == old(Failures()) + if ok then 0 else 1
      ensures dir == old(dir) && seen == old(seen) + {Image()}
      ensures if ok then wal == [] else wal == old(wal) || wal == []
    {
      ok := calls.Next();
      var done: bool := *;
      if ok || done {
        wal := [];
      }
      seen := seen + {Image()};
    }

    /** Open with O_CREATE|O_TRUNC; a failed call may have created the file. No file has an empty name. */
    method CreateFile(name: Bytes) returns (ok: bool)
      modifies this, calls
      ensures wal == old(wal) && seen == old(seen) + {Image()}
      ensures Failures() == old(Failures()) + if ok || name == [] then 0 else 1
      ensures if ok then name != [] && dir == old(dir)[name := []]
              else dir == old(dir) || (name != [] && dir == old(dir)[name := []])
    {
      ok := false;
      var done: bool := false;
      if name != [] {
        ok := calls.Next();
        done := *;
      }
      if ok || done {
        dir := dir[name := []];
      }
      seen := seen + {Image()};
    }

    method AppendFile(name: Bytes, data: Bytes) returns (ok: bool)
      requires name in dir
      modifies this, calls
      ensures Failures() == old(Failures()) + if ok then 0 else 1
      ensures wal == old(wal) && seen == old(seen) + FilePrefixes(old(Image()), name, data)
      ensures if ok then dir == old(dir)[name := old(dir)[name] + data]
              else exists n :: 0 <= n <= |data| && dir == old(dir)[name := old(dir)[name] + data[..n]]
    {
      seen := seen + FilePrefixes(Image(), name, data);
      ok := calls.Next();
      if ok {
        dir := dir[name := dir[name] + data];
      } else {
        var n :| 0 <= n <= |data|;
        dir := dir[name := dir[name] + data[..n]];
      }
    }

    /** os.Remove of one file; a file that is not there is no error to the callers. */
    method RemoveFile(name: Bytes)
      modifies this
      ensures wal == old(wal) && dir == old(dir) - {name} && seen == old(seen) + {Image()}
    {
      dir := dir - {name};
      seen := seen + {Image()};
    }

    method RenameFile(from: Bytes, to: Bytes)
      requires from in dir && from != to
      modifies this
      ensures wal == old(wal) && dir == old(dir)[to := old(dir)[from]] - {from} && seen == old(seen) + {Image()}
    {
      dir := dir[to := dir[from]] - {from};
      seen := seen + {Image()};
    }

    /** Replace the whole table directory and the WAL (RemoveAll, the files of a snapshot, a new WAL). */
    method ReplaceAll(files: map<Bytes, Bytes>)
      modifies this
      ensures wal == [] && dir == files && seen == old(seen) + {Image()}
    {
      wal, dir := [], files;
      seen := seen + {Image()};
    }
  }
}
