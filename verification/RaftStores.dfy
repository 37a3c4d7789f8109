/** The raft-backed store a server runs requests against, and the errors that travel from it to a client. */
module RaftStores {
  import opened ByteStrings
  import opened Wrappers
  import opened Codec
  import opened EngineSpec
  import opened RaftLog
  import opened LeaderHints
  import opened DBs
  import EngineRuns

  /** What a store operation can answer. Raft is an error of the raft library (lost leadership after submission
      included), Local one of the database or the state machine. */
  datatype StoreError =
    | NotLeader(id: string, addr: string)
    | Context(message: string)
    | Raft(message: string)
    | Local(error: Error)

  /** Node.Apply fails with an error of raft or of the state machine. */
  type ApplyError = e: StoreError | e.Raft? || e.Local? witness Raft("")

  /** The environment of a raft node, chosen once and for all: what is answered to the n-th question put to the node
      (whether it leads, how a command or a barrier ends), whom it takes for the leader after n questions, and whether
      the context of a request has ended by then. */
  datatype Answers = Answers(
    leads: nat -> bool,
    applied: nat -> Option<ApplyError>,
    fenced: nat -> Option<string>,
    leader: nat -> (string, string),
    ended: nat -> Option<string>)

  /** What a store asks of its raft node: whether it leads, with its answer; a command; a barrier, and whether it
      returned. */
  datatype Ask = LeaderCheck(leads: bool) | Command | Fence(ok: bool)

  /** The raft node of a group as the store sees it. Everything asked of it is recorded. */
  class RaftNode {
    const env: Answers
    /** The commands handed to raft through this store's group, whether or not they commit. */
    var submitted: seq<Bytes>
    /** Everything asked of it, in order. */
    var asked: seq<Ask>

    constructor (env: Answers)
      ensures this.env == env && submitted == [] && asked == []
    {
      this.env, submitted, asked := env, [], [];
    }

    method IsLeader() returns (leads: bool)
      modifies this`asked
      ensures leads == env.leads(old(|asked|)) && asked == old(asked) + [LeaderCheck(leads)]
    {
      leads := env.leads(|asked|);
      asked := asked + [LeaderCheck(leads)];
    }

    method Leader() returns (id: string, addr: string)
      ensures (id, addr) == env.leader(|asked|)
    {
      var named := env.leader(|asked|);
      id, addr := named.0, named.1;
    }

    /** Node.Apply: submit; the answer is raft's or the state machine's. */
    method Apply(data: Bytes) returns (err: Option<StoreError>)
      modifies this`submitted, this`asked
      ensures submitted == old(submitted) + [data] && asked == old(asked) + [Command]
      ensures err == env.applied(old(|asked|))
    {
      err := env.applied(|asked|);
      submitted, asked := submitted + [data], asked + [Command];
    }

    method Barrier() returns (err: Option<StoreError>)
      modifies this`asked
      ensures asked == old(asked) + [Fence(err == None)]
      ensures err == match env.fenced(old(|asked|)) case None => None case Some(m) => Some(Raft(m))
    {
      var failure := env.fenced(|asked|);
      asked := asked + [Fence(failure == None)];
      err := if failure == None then None else Some(Raft(failure.value));
    }
  }

  /** How checkLeader and the context check before it end when n questions have been asked: None for a leader. */
  function LeaderAnswer(env: Answers, n: nat): Option<StoreError>
  {
    if env.ended(n).Some? then Some(Context(env.ended(n).value))
    else if env.leads(n) then None
    else Some(NotLeader(env.leader(n + 1).0, env.leader(n + 1).1))
  }

  /** How a Put or Delete is answered that comes when n questions have been asked: by the first of these obstacles. */
  function WriteAnswer(env: Answers, op: Op, n: nat): Option<StoreError>
    requires op.Put? || op.Delete?
  {
    if op.key == [] then Some(Local(ErrEmptyKey))
    else if LeaderAnswer(env, n).Some? then LeaderAnswer(env, n)
    else if OpError(op).Some? then Some(Local(OpError(op).value))
    else if env.ended(n + 1).Some? then Some(Context(env.ended(n + 1).value))
    else env.applied(n + 1)
  }

  /** A write is answered NotLeader exactly by a node that, asked in time, says it does not lead, and the answer then
      carries the leader this node names; it succeeds exactly if it is accepted, asked in time of a node that says it
      leads, and then commits and applies. */
  lemma WriteAnswered(env: Answers, op: Op, n: nat)
    requires op.Put? || op.Delete?
    ensures var a := WriteAnswer(env, op, n);
            && (a.Some? && a.value.NotLeader? <==> op.key != [] && env.ended(n) == None && !env.leads(n))
            && (a.Some? && a.value.NotLeader? ==> (a.value.id, a.value.addr) == env.leader(n + 1))
            && (a == None <==>
                OpError(op) == None && env.ended(n) == None && env.leads(n) && env.ended(n + 1) == None
                && env.applied(n + 1) == None)
  {
    hide Codec.Layout;
  }

  lemma AsksDiffer(asked: seq<Ask>)
    ensures asked + [LeaderCheck(true)] != asked + [LeaderCheck(false)] && asked != asked + [LeaderCheck(false)]
    ensures forall a ::
              asked + [LeaderCheck(true)] + [a] == asked + [LeaderCheck(true), a] != asked + [LeaderCheck(false)]
  {
    assert (asked + [LeaderCheck(true)])[|asked|] == LeaderCheck(true);
    assert (asked + [LeaderCheck(false)])[|asked|] == LeaderCheck(false);
    forall a
      ensures asked + [LeaderCheck(true)] + [a] == asked + [LeaderCheck(true), a] != asked + [LeaderCheck(false)] {
      assert asked + [LeaderCheck(true)] + [a] == asked + [LeaderCheck(true), a];
    }
  }

  class RaftStore {
    const node: RaftNode
    const db: DB

    constructor (node: RaftNode, db: DB)
      ensures this.node == node && this.db == db
    {
      this.node, this.db := node, db;
    }

    /** ctx.Err and timeoutFromContext: a request whose context has ended answers that. */
    method ContextError() returns (err: Option<StoreError>)
      ensures err == match node.env.ended(|node.asked|) case None => None case Some(m) => Some(Context(m))
      ensures err.Some? ==> err == LeaderAnswer(node.env, |node.asked|)
    {
      var end := node.env.ended(|node.asked|);
      err := if end == None then None else Some(Context(end.value));
    }

    /** checkLeader: a node that does not lead names the one it takes for the leader. */
    method CheckLeader() returns (err: Option<StoreError>)
      modifies node`asked
      ensures err == None <==> node.env.leads(old(|node.asked|))
      ensures node.env.ended(old(|node.asked|)) == None ==> err == LeaderAnswer(node.env, old(|node.asked|))
      ensures node.asked == old(node.asked) + [LeaderCheck(err == None)]
      ensures err.Some? ==>
              err.value.NotLeader? && (err.value.id, err.value.addr) == node.env.leader(old(|node.asked|) + 1)
    {
      var leads := node.IsLeader();
      if leads {
        return None;
      }
      var id, addr := node.Leader();
      err := Some(NotLeader(id, addr));
    }

    /** Put and Delete: one submission at most, and none at all when the answer is NotLeader or the command is
        refused. */
    method Submit(op: Op) returns (err: Option<StoreError>)
      requires op.Put? || op.Delete?
      modifies node
      ensures err == WriteAnswer(node.env, op, old(|node.asked|))
      ensures op.key == [] ==> err == Some(Local(ErrEmptyKey))
      ensures node.submitted == old(node.submitted)
              || (OpError(op) == None && node.submitted == old(node.submitted) + [EncodeOp(op)])
      ensures err == None ==> OpError(op) == None && node.submitted == old(node.submitted) + [EncodeOp(op)]
      ensures err.Some? && (err.value.NotLeader? || err.value.Context?) ==> node.submitted == old(node.submitted)
      // only a node that has just said it leads is given a command; NotLeader answers for one that says it does not
      ensures old(node.asked) <= node.asked
      ensures node.submitted != old(node.submitted) ==> node.asked == old(node.asked) + [LeaderCheck(true), Command]
      ensures err.Some? && err.value.NotLeader? <==> node.asked == old(node.asked) + [LeaderCheck(false)]
    {
      hide Layout, CheckEncodePara;
      AsksDiffer(node.asked);
      if |op.key| == 0 {
        return Some(Local(ErrEmptyKey));
      }
      err := ContextError();
      if err.Some? {
        return;
      }
      err := CheckLeader();
      if err.Some? {
        return;
      }
      var data := Encode(if op.Put? then Record(TYPE_PUT, op.key, op.value) else Record(TYPE_DELETE, op.key, []));
      if data.Err? {
        return Some(Local(data.error));
      }
      err := ContextError();
      if err.Some? {
        return;
      }
      err := node.Apply(data.value);
    }

    /** Get: leader check, then a barrier, then the local database. Nothing else keeps a leader from answering. */
    method Get(key: Bytes) returns (err: Option<StoreError>, value: Option<Bytes>)
      requires db.closed || db.Valid()
      modifies node
      ensures var env, n := node.env, old(|node.asked|);
              && (key == [] ==> err == Some(Local(ErrEmptyKey)))
              && (key != [] && LeaderAnswer(env, n).Some? ==> err == LeaderAnswer(env, n))
              && (key != [] && LeaderAnswer(env, n) == None && env.ended(n + 1).Some? ==>
                  err == Some(Context(env.ended(n + 1).value)))
              && (key != [] && LeaderAnswer(env, n) == None && env.ended(n + 1) == None && env.fenced(n + 1).Some? ==>
                  err == Some(Raft(env.fenced(n + 1).value)))
              && (key != [] && LeaderAnswer(env, n) == None && env.ended(n + 1) == None && env.fenced(n + 1) == None ==>
                  err == if db.closed then Some(Local(ErrDbClosed)) else None)
      ensures node.submitted == old(node.submitted)
      ensures err == None ==> node.asked == old(node.asked) + [LeaderCheck(true), Fence(true)]
      ensures err.Some? && err.value.NotLeader? <==> node.asked == old(node.asked) + [LeaderCheck(false)]
      ensures err == None ==> !db.closed && value == EngineSpec.Get(db.Model(), key)
      ensures key == [] ==> err == Some(Local(ErrEmptyKey)) && node.asked == old(node.asked)
    {
      hide Inv, EngineSpec.Get, TablesOn;
      AsksDiffer(node.asked);
      value := None;
      if |key| == 0 {
        return Some(Local(ErrEmptyKey)), None;
      }
      err := ContextError();
      if err.Some? {
        return;
      }
      err := CheckLeader();
      if err.Some? {
        return;
      }
      err := ContextError();
      if err.Some? {
        return;
      }
      err := node.Barrier();
      if err.Some? {
        return;
      }
      var r := db.Get(key);
      if r.Err? {
        return Some(Local(r.error)), None;
      }
      value := r.value;
    }

    /** Flush: local to this node; nothing is submitted. Only the context, the leadership, a closed database or a failed
        system call keep it from happening. */
    method Flush() returns (err: Option<StoreError>)
      requires db.closed || db.Valid()
      modifies db, db.disk, db.disk.calls, db.memtable, node
      ensures db.disk.Failures() >= old(db.disk.Failures())
      ensures var answer := LeaderAnswer(node.env, old(|node.asked|));
              var failed := db.disk.Failures() > old(db.disk.Failures());
              && (answer.Some? ==> err == answer && !failed)
              && (answer == None ==>
                  err == if old(db.closed) then Some(Local(ErrDbClosed))
                         else if failed then Some(Local(ErrIO)) else None)
      ensures node.submitted == old(node.submitted)
      ensures err.Some? && err.value.NotLeader? <==> node.asked == old(node.asked) + [LeaderCheck(false)]
      ensures node.asked != old(node.asked) + [LeaderCheck(true)] ==> err.Some? && db.Model() == old(db.Model())
      ensures db.closed == old(db.closed) && (db.closed || db.Valid())
      ensures err == None ==> !db.closed && db.Model() == Step(old(db.Model()), Op.Flush)
      ensures !db.closed ==> View(db.Model()) == View(old(db.Model()))
    {
      hide *;
      AsksDiffer(node.asked);
      ghost var e := db.Model();
      err := ContextError();
      if err.Some? {
        return;
      }
      err := CheckLeader();
      if err.Some? {
        return;
      }
      ghost var seen0 := db.disk.seen;
      if !db.closed {
        ValidParts(db);
      }
      var r := db.Flush();
      if !db.closed {
        FlushShowsSame(e, r, db.Model(), seen0, db.disk.seen);
      }
      err := if r.Some? then Some(Local(r.value)) else None;
    }

    /** Compact: local to this node as well. */
    method Compact() returns (err: Option<StoreError>)
      requires db.closed || db.Valid()
      modifies db, db.disk, db.disk.calls, db.memtable, db.sstables, node
      ensures db.disk.Failures() >= old(db.disk.Failures())
      ensures var answer := LeaderAnswer(node.env, old(|node.asked|));
              var failed := db.disk.Failures() > old(db.disk.Failures());
              && (answer.Some? ==> err == answer && !failed)
              && (answer == None ==>
                  err == if old(db.closed) then Some(Local(ErrDbClosed))
                         else if failed then Some(Local(ErrIO)) else None)
      ensures node.submitted == old(node.submitted)
      ensures err.Some? && err.value.NotLeader? <==> node.asked == old(node.asked) + [LeaderCheck(false)]
      ensures node.asked != old(node.asked) + [LeaderCheck(true)] ==> err.Some? && db.Model() == old(db.Model())
      ensures db.closed == old(db.closed) && (db.closed || db.Valid())
      ensures err == None ==> !db.closed && db.Model() == Step(old(db.Model()), Op.Compact)
      ensures !db.closed ==> Abs(db.Model()) == Abs(old(db.Model()))
    {
      hide *;
      AsksDiffer(node.asked);
      ghost var e := db.Model();
      err := ContextError();
      if err.Some? {
        return;
      }
      err := CheckLeader();
      if err.Some? {
        return;
      }
      if !db.closed {
        ValidParts(db);
      }
      var r := db.Compact();
      if !db.closed {
        CompactShowsSame(e, r, db.Model());
      }
      err := if r.Some? then Some(Local(r.value)) else None;
    }
  }

  lemma FlushShowsSame(e: Engine, err: Option<Error>, e': Engine, seen0: set<Store>, seen: set<Store>)
    requires Inv(e) && Outcome(e, Op.Flush, err, e', seen0, seen)
    ensures View(e') == View(e) && (err == None ==> e' == Step(e, Op.Flush))
    ensures err == None || err == Some(ErrIO)
  {
    hide Inv, View, TriggerFlush;
    FlushKeeps(e);
  }

  lemma CompactShowsSame(e: Engine, err: Option<Error>, e': Engine)
    requires Inv(e)
    requires if err == None then e' == Step(e, Op.Compact) else View(e') == View(e)
    ensures Abs(e') == Abs(e)
  {
    hide Inv, View, Compacted;
    EngineRuns.CompactedKeeps(e);
  }

  // ----- the way to the client -----

  datatype Code = InvalidArgument | FailedPrecondition | Unavailable | Internal

  /** A gRPC status. */
  datatype Status = Status(code: Code, message: string)

  /** StoreError.Error. */
  function Message(e: StoreError, quote: string -> string): string
  {
    match e
    case NotLeader(id, addr) => ErrorText(id, addr, quote)
    case Context(m) => m
    case Raft(m) => m
    case Local(error) => ErrorMessage(error)
  }

  function ErrorMessage(e: Error): string
  {
    match e
    case EOF => "EOF"
    case ErrInvalidPara => "invalid para"
    case ErrInvalidType => "invalid type"
    case ErrEmptyKey => "empty key"
    case ErrUnexpectedValue => "delete record should not have value"
    case ErrRecordTooLarge => "record too large"
    case ErrIncompleteRecord => "incomplete record"
    case ErrFileClosed => "file is closed"
    case ErrDbClosed => "db is closed"
    case ErrIO => "input/output error"
  }

  /** The server's mapError. */
  function ServerStatus(e: StoreError, quote: string -> string): Status
  {
    if e == Local(ErrEmptyKey) then Status(InvalidArgument, Message(e, quote))
    else if e == Local(ErrDbClosed) then Status(FailedPrecondition, Message(e, quote))
    else if e.NotLeader? then Status(Unavailable, Message(e, quote))
    else Status(Internal, Message(e, quote))
  }

  /** What a routed client makes of an answer. */
  datatype ClientError = LeaderElsewhere(id: string, addr: string) | Rpc(status: Status)

  /** The client's mapError. */
  function ClientView(s: Status): ClientError
  {
    if s.code != Unavailable || !(PREFIX <= s.message) then Rpc(s)
    else
      var hint := ParseLeaderHint(s.message);
      LeaderElsewhere(hint.0, hint.1)
  }

  /** The client takes an answer for "not leader" exactly when the store answered NotLeader, however %q prints. */
  lemma NotLeaderTravels(e: StoreError, quote: string -> string)
    ensures ClientView(ServerStatus(e, quote)).LeaderElsewhere? <==> e.NotLeader?
    ensures ServerStatus(e, quote).code == Unavailable <==> e.NotLeader?
    ensures ServerStatus(e, quote).message == Message(e, quote)
  {
    if e.NotLeader? {
      assert PREFIX <= PREFIX + ": leader id=" + quote(e.id) + " addr=" + quote(e.addr);
    }
  }
}
