/** The routed client: the leader cache, the replica walk and the retries of one call. */
module RoutedClients {
  import opened ByteStrings
  import opened Wrappers
  import opened EngineSpec
  import opened RaftLog
  import opened LeaderHints
  import opened RaftStores
  import HashRings
  import Routers
  import C = ClusterConfigs

  type NodeID = C.NodeID
  type GroupID = C.GroupID

  /** How one attempt of a call ended. */
  datatype Answer =
    | DialFailed
    | Accepted
    | Elsewhere(id: string, addr: string)  // a NotLeader answer
    | Refused(status: Status)

  datatype Attempt = Attempt(node: NodeID, answer: Answer)

  datatype CallError =
    | Routing(error: HashRings.RingError)
    | ContextEnded
    | NoReplicas
    | Dialing
    | NotLeading(id: string, addr: string)
    | Failed(status: Status)

  /** The error an attempt ends a call with, if it is the last one. */
  function ErrorOf(a: Answer): Option<CallError>
  {
    match a
    case Accepted => None
    case DialFailed => Some(Dialing)
    case Elsewhere(id, addr) => Some(NotLeading(id, addr))
    case Refused(status) => Some(Failed(status))
  }

  predicate Retryable(a: Answer)
  {
    a.DialFailed? || a.Elsewhere?
  }

  /** The shape of every call: first the cached leader or the first replica, then the replica list in turn, one attempt
      after another until one is not retryable, at most once round the list and one more. */
  ghost predicate Walk(trace: seq<Attempt>, replicas: seq<NodeID>)
  {
    && replicas != [] && |trace| <= |replicas| + 1
    && (forall i :: 1 <= i < |trace| ==> trace[i].node == replicas[i % |replicas|])
    && (forall i :: 0 <= i < |trace| - 1 ==> Retryable(trace[i].answer))
  }

  /** The walk has stopped: at an answer that is not retryable or at the end of its attempts. */
  ghost predicate Finished(trace: seq<Attempt>, replicas: seq<NodeID>)
  {
    Walk(trace, replicas) && trace != [] && (Retryable(trace[|trace| - 1].answer) ==> |trace| == |replicas| + 1)
  }

  /** A walk that goes on: every attempt so far was retryable. */
  ghost predicate Walking(trace: seq<Attempt>, replicas: seq<NodeID>)
  {
    Walk(trace, replicas) && forall i :: 0 <= i < |trace| ==> Retryable(trace[i].answer)
  }

  lemma WalkStep(trace: seq<Attempt>, replicas: seq<NodeID>, a: Attempt)
    requires Walking(trace, replicas) && |trace| <= |replicas|
    requires |trace| > 0 ==> a.node == replicas[|trace| % |replicas|]
    ensures Retryable(a.answer) ==> Walking(trace + [a], replicas)
    ensures Retryable(a.answer) && |trace| == |replicas| ==> Finished(trace + [a], replicas)
    ensures !Retryable(a.answer) ==> Finished(trace + [a], replicas)
  {
  }

  /** Attempts 1 to n of a full walk visit every one of the n replicas, each exactly once. */
  lemma FullWalkCovers(trace: seq<Attempt>, replicas: seq<NodeID>, k: nat) returns (i: nat)
    requires Walk(trace, replicas) && |trace| == |replicas| + 1 && k < |replicas|
    ensures 1 <= i <= |replicas| && i % |replicas| == k && trace[i].node == replicas[k]
    ensures forall j :: 1 <= j <= |replicas| && j % |replicas| == k ==> j == i
  {
    i := if k == 0 then |replicas| else k;
  }

  /** If some replica accepts whenever it is asked and every other attempt is retryable, the call ends accepted, and by
      that replica. */
  lemma StableReplicaFound(trace: seq<Attempt>, replicas: seq<NodeID>, stable: NodeID)
    requires Finished(trace, replicas) && stable in replicas
    requires forall i :: 0 <= i < |trace| ==>
             if trace[i].node == stable then trace[i].answer.Accepted? else Retryable(trace[i].answer)
    ensures trace[|trace| - 1] == Attempt(stable, Accepted)
  {
    var last := |trace| - 1;
    if Retryable(trace[last].answer) {
      var k :| 0 <= k < |replicas| && replicas[k] == stable;
      var i := FullWalkCovers(trace, replicas, k);
      assert trace[i].answer.Accepted?;
    }
  }

  // ----- the environment -----

  /** What becomes of the things a call does over the network, chosen once and for all: whether the n-th of them, if it
      is a dial of this node, connects; if it is a message, a request or an answer, arrives, and what the transport
      reports if it does not; if it is a look at the call's context, finds it ended. */
  datatype Links = Links(
    connects: (NodeID, nat) -> bool,
    carries: nat -> bool,
    failure: nat -> Status,
    ended: nat -> bool)

  class Network {
    const env: Links
    var now: nat
    /** The nodes requests were sent to, in order. */
    var sent: seq<NodeID>

    constructor (env: Links)
      ensures this.env == env && now == 0 && sent == []
    {
      this.env, now, sent := env, 0, [];
    }

    method ContextEnded() returns (ended: bool)
      modifies this`now
      ensures now == old(now) + 1 && ended == env.ended(old(now))
    {
      ended := env.ended(now);
      now := now + 1;
    }

    method Dial(node: NodeID) returns (connected: bool)
      modifies this`now
      ensures now == old(now) + 1 && connected == env.connects(node, old(now))
    {
      connected := env.connects(node, now);
      now := now + 1;
    }

    method SendRequest(node: NodeID) returns (arrives: bool)
      modifies this
      ensures now == old(now) + 1 && sent == old(sent) + [node] && arrives == env.carries(old(now))
    {
      arrives := env.carries(now);
      now, sent := now + 1, sent + [node];
    }

    method CarryAnswer() returns (arrives: bool)
      modifies this`now
      ensures now == old(now) + 1 && arrives == env.carries(old(now))
    {
      arrives := env.carries(now);
      now := now + 1;
    }
  }

  /** A transport failure, which does not speak in the store's words. */
  function Lost(env: Links, n: nat): Status
  {
    var s := env.failure(n);
    if PREFIX <= s.message then Status(s.code, "transport: " + s.message) else s
  }

  /** What a client is to make of a store's answer: a NotLeader answer sends it elsewhere, with the hint its text holds;
      any other failure is passed on. */
  function ClientAnswer(err: Option<StoreError>, quote: string -> string): Answer
  {
    match err
    case None => Accepted
    case Some(NotLeader(id, addr)) =>
      var hint := ParseLeaderHint(ErrorText(id, addr, quote));
      Elsewhere(hint.0, hint.1)
    case Some(e) => Refused(ServerStatus(e, quote))
  }

  /** The answer to a write sent as the t-th event on the network to a store that has asked its node n questions. */
  function CallAnswer(links: Links, env: Answers, op: Op, quote: string -> string, t: nat, n: nat): Answer
    requires op.Put? || op.Delete?
  {
    if !links.carries(t) then Refused(Lost(links, t))
    else if !links.carries(t + 1) then Refused(Lost(links, t + 1))
    else ClientAnswer(WriteAnswer(env, op, n), quote)
  }

  lemma AnswerWords(err: Option<StoreError>, quote: string -> string)
    ensures ClientAnswer(err, quote).Accepted? <==> err == None
    ensures ClientAnswer(err, quote).Elsewhere? <==> err.Some? && err.value.NotLeader?
  {
    hide ErrorText, ParseLeaderHint, ServerStatus;
  }

  /** If no message is lost, the client is sent elsewhere exactly by a node that, asked in time, says it does not lead,
      and if the leader that node names prints plainly, its id is the one read and its address is read as far as the
      text allows. It is served exactly by a node that says it leads and through which the command commits. */
  lemma CallAnswered(links: Links, env: Answers, op: Op, quote: string -> string, t: nat, n: nat)
    requires (op.Put? || op.Delete?) && links.carries(t) && links.carries(t + 1)
    ensures var a := CallAnswer(links, env, op, quote, t, n);
            && (a.Elsewhere? <==> op.key != [] && env.ended(n) == None && !env.leads(n))
            && (a.Accepted? <==>
                OpError(op) == None && env.ended(n) == None && env.leads(n) && env.ended(n + 1) == None
                && env.applied(n + 1) == None)
    ensures var a, (id, addr) := CallAnswer(links, env, op, quote, t, n), env.leader(n + 1);
            a.Elsewhere? && Plain(id) && Plain(addr) && quote(id) == Quoted(id) && quote(addr) == Quoted(addr) ==>
              a == Elsewhere(id, AddressRead(id, addr))
  {
    hide Codec.CheckEncodePara, ErrorText, ParseLeaderHint, ServerStatus;
    WriteAnswered(env, op, n);
    var id, addr := env.leader(n + 1).0, env.leader(n + 1).1;
    if Plain(id) && Plain(addr) && quote(id) == Quoted(id) && quote(addr) == Quoted(addr) {
      HintRoundTrip(id, addr, quote);
    }
  }

  // ----- the stores behind the nodes -----

  /** Every node runs its own raft node. */
  ghost predicate Apart(remotes: map<NodeID, RaftStore>)
  {
    forall a, b :: a in remotes && b in remotes && a != b ==> remotes[a].node != remotes[b].node
  }

  ghost function RaftNodes(remotes: map<NodeID, RaftStore>): set<RaftNode>
  {
    set n | n in remotes :: remotes[n].node
  }

  /** What has been submitted at each node. */
  ghost function Submissions(remotes: map<NodeID, RaftStore>): map<NodeID, seq<Bytes>>
    reads RaftNodes(remotes)
  {
    map n | n in remotes :: remotes[n].node.submitted
  }

  /** The command has been submitted once more, at node n. */
  ghost predicate OneMore(was: map<NodeID, seq<Bytes>>, now: map<NodeID, seq<Bytes>>, n: NodeID, command: Bytes)
  {
    n in was && now == was[n := was[n] + [command]]
  }

  ghost predicate OneMoreSomewhere(was: map<NodeID, seq<Bytes>>, now: map<NodeID, seq<Bytes>>, command: Bytes)
  {
    exists n :: OneMore(was, now, n, command)
  }

  /** A moment in a call: the events on the network so far, and the questions each node has been asked. */
  datatype Moment = Moment(now: nat, asked: map<NodeID, nat>)

  ghost function At(network: Network, remotes: map<NodeID, RaftStore>): Moment
    reads network, RaftNodes(remotes)
  {
    Moment(network.now, map n | n in remotes :: |remotes[n].node.asked|)
  }

  ghost predicate Later(m: Moment, m': Moment)
  {
    m.now <= m'.now && m'.asked.Keys == m.asked.Keys && forall n :: n in m.asked ==> m.asked[n] <= m'.asked[n]
  }

  /** The environment accounts for an attempt made between two moments: a node that could not be reached is undeclared
      or a dial of it failed; any other answer is that of this node's store to one request sent then. */
  ghost predicate Explained(a: Attempt, nodes: set<NodeID>, links: Links, remotes: map<NodeID, RaftStore>, op: Op,
      quote: string -> string, m: Moment, m': Moment)
    requires op.Put? || op.Delete?
  {
    if a.answer.DialFailed? then
      a.node !in nodes || exists t: nat :: m.now <= t < m'.now && !links.connects(a.node, t)
    else
      && a.node in nodes && a.node in remotes && a.node in m.asked && a.node in m'.asked
      && exists t: nat, n: nat :: m.now <= t < m'.now && m.asked[a.node] <= n <= m'.asked[a.node]
          && a.answer == CallAnswer(links, remotes[a.node].node.env, op, quote, t, n)
  }

  ghost predicate AllExplained(trace: seq<Attempt>, nodes: set<NodeID>, links: Links, remotes: map<NodeID, RaftStore>,
      op: Op, quote: string -> string, m: Moment, m': Moment)
    requires op.Put? || op.Delete?
  {
    forall i :: 0 <= i < |trace| ==> Explained(trace[i], nodes, links, remotes, op, quote, m, m')
  }

  lemma DialExplained(node: NodeID, nodes: set<NodeID>, links: Links, remotes: map<NodeID, RaftStore>, op: Op,
      quote: string -> string, m: Moment, m': Moment)
    requires op.Put? || op.Delete?
    requires node !in nodes || (m.now < m'.now && !links.connects(node, m.now))
    ensures Explained(Attempt(node, DialFailed), nodes, links, remotes, op, quote, m, m')
  {
  }

  lemma CallExplained(node: NodeID, answer: Answer, nodes: set<NodeID>, links: Links, remotes: map<NodeID, RaftStore>,
      op: Op, quote: string -> string, m: Moment, m1: Moment, m': Moment)
    requires (op.Put? || op.Delete?) && !answer.DialFailed? && Later(m, m1) && Later(m1, m') && m1.now < m'.now
    requires node in nodes && node in remotes && node in m1.asked
    requires answer == CallAnswer(links, remotes[node].node.env, op, quote, m1.now, m1.asked[node])
    ensures Explained(Attempt(node, answer), nodes, links, remotes, op, quote, m, m') && Later(m, m')
  {
    hide CallAnswer;
  }

  lemma NotADial(links: Links, env: Answers, op: Op, quote: string -> string, t: nat, n: nat)
    requires op.Put? || op.Delete?
    ensures !CallAnswer(links, env, op, quote, t, n).DialFailed?
  {
    hide WriteAnswer, Lost, ServerStatus, ErrorText, ParseLeaderHint;
  }

  lemma ExplainedLater(a: Attempt, nodes: set<NodeID>, links: Links, remotes: map<NodeID, RaftStore>, op: Op,
      quote: string -> string, m0: Moment, m: Moment, m': Moment, m1: Moment)
    requires (op.Put? || op.Delete?) && Explained(a, nodes, links, remotes, op, quote, m, m')
    requires Later(m0, m) && Later(m', m1)
    ensures Explained(a, nodes, links, remotes, op, quote, m0, m1)
  {
    hide CallAnswer;
  }

  lemma AllExplainedStep(trace: seq<Attempt>, a: Attempt, nodes: set<NodeID>, links: Links,
      remotes: map<NodeID, RaftStore>, op: Op, quote: string -> string, m0: Moment, m: Moment, m': Moment)
    requires op.Put? || op.Delete?
    requires AllExplained(trace, nodes, links, remotes, op, quote, m0, m) && Later(m0, m) && Later(m, m')
    requires Explained(a, nodes, links, remotes, op, quote, m, m')
    ensures AllExplained(trace + [a], nodes, links, remotes, op, quote, m0, m') && Later(m0, m')
  {
    hide Explained;
    forall i | 0 <= i < |trace| ensures Explained(trace[i], nodes, links, remotes, op, quote, m0, m') {
      ExplainedLater(trace[i], nodes, links, remotes, op, quote, m0, m0, m, m');
    }
    ExplainedLater(a, nodes, links, remotes, op, quote, m0, m, m', m');
  }

  /** The nodes of the attempts that got as far as sending a request. */
  function Requests(trace: seq<Attempt>): seq<NodeID>
  {
    if trace == [] then []
    else
      var last := trace[|trace| - 1];
      Requests(trace[..|trace| - 1]) + if last.answer.DialFailed? then [] else [last.node]
  }

  lemma RequestsStep(trace: seq<Attempt>, a: Attempt)
    ensures Requests(trace + [a]) == Requests(trace) + if a.answer.DialFailed? then [] else [a.node]
  {
    assert (trace + [a])[..|trace|] == trace;
  }

  /** From m on no message is lost, no request runs out of time, and whatever is handed to raft commits and applies. */
  ghost predicate Reliable(links: Links, remotes: map<NodeID, RaftStore>, m: Moment)
  {
    && (forall t: nat :: m.now <= t ==> links.carries(t))
    && forall r, n: nat :: r in remotes && r in m.asked && m.asked[r] <= n ==>
         remotes[r].node.env.ended(n) == None && remotes[r].node.env.applied(n) == None
  }

  /** From m on the node can be dialed and leads. */
  ghost predicate LeadsFrom(leader: NodeID, links: Links, remotes: map<NodeID, RaftStore>, m: Moment)
  {
    && leader in remotes && leader in m.asked
    && (forall t: nat :: m.now <= t ==> links.connects(leader, t))
    && forall n: nat :: m.asked[leader] <= n ==> remotes[leader].node.env.leads(n)
  }

  /** From m on the node says it does not lead. */
  ghost predicate FollowsFrom(node: NodeID, remotes: map<NodeID, RaftStore>, m: Moment)
  {
    node in remotes && node in m.asked ==> forall n: nat :: m.asked[node] <= n ==> !remotes[node].node.env.leads(n)
  }

  /** While nothing is lost, a declared leader accepts whatever reaches it, and any attempt ends accepted by a node that
      leads or can be followed by another. */
  lemma AttemptAnswered(a: Attempt, nodes: set<NodeID>, links: Links, remotes: map<NodeID, RaftStore>, op: Op,
      quote: string -> string, m: Moment, m': Moment)
    requires (op.Put? || op.Delete?) && OpError(op) == None && Reliable(links, remotes, m)
    requires Explained(a, nodes, links, remotes, op, quote, m, m')
    ensures a.answer.Accepted? || Retryable(a.answer)
    ensures a.node in nodes && LeadsFrom(a.node, links, remotes, m) ==> a.answer.Accepted?
    ensures FollowsFrom(a.node, remotes, m) ==> !a.answer.Accepted?
  {
    hide CallAnswer, OpError;
    if !a.answer.DialFailed? {
      var env := remotes[a.node].node.env;
      var t: nat, n: nat :| m.now <= t < m'.now && m.asked[a.node] <= n <= m'.asked[a.node]
                            && a.answer == CallAnswer(links, env, op, quote, t, n);
      CallAnswered(links, env, op, quote, t, n);
      NoEmptyKey(op);
    }
  }

  lemma NoEmptyKey(op: Op)
    requires (op.Put? || op.Delete?) && OpError(op) == None
    ensures op.key != []
  {
  }

  /** A call of a group with a declared leader that can be reached and stays the leader ends accepted as long as nothing
      is lost, wherever the other replicas' answers send it; and if no other node leads, by that leader. */
  lemma LeaderServes(trace: seq<Attempt>, replicas: seq<NodeID>, leader: NodeID, nodes: set<NodeID>, links: Links,
      remotes: map<NodeID, RaftStore>, op: Op, quote: string -> string, m: Moment, m': Moment)
    requires (op.Put? || op.Delete?) && OpError(op) == None && Reliable(links, remotes, m)
    requires Finished(trace, replicas) && AllExplained(trace, nodes, links, remotes, op, quote, m, m')
    requires leader in replicas && leader in nodes && LeadsFrom(leader, links, remotes, m)
    ensures trace[|trace| - 1].answer.Accepted?
    ensures (forall n :: n != leader ==> FollowsFrom(n, remotes, m)) ==> trace[|trace| - 1] == Attempt(leader, Accepted)
  {
    hide OpError, Reliable, Explained, LeadsFrom, FollowsFrom;
    var last := |trace| - 1;
    AttemptAnswered(trace[last], nodes, links, remotes, op, quote, m, m');
    if Retryable(trace[last].answer) {
      var k :| 0 <= k < |replicas| && replicas[k] == leader;
      var i := FullWalkCovers(trace, replicas, k);
      AttemptAnswered(trace[i], nodes, links, remotes, op, quote, m, m');
    }
  }

  /** What a call promises whenever nothing is lost and one of the replicas is a leader that can be reached. */
  ghost predicate Served(err: Option<CallError>, trace: seq<Attempt>, replicas: seq<NodeID>, nodes: set<NodeID>,
      links: Links, remotes: map<NodeID, RaftStore>, op: Op, m: Moment)
  {
    forall leader :: OpError(op) == None && Reliable(links, remotes, m) && leader in replicas && leader in nodes
                     && LeadsFrom(leader, links, remotes, m) ==>
                       && err == None && trace != []
                       && ((forall n :: n != leader ==> FollowsFrom(n, remotes, m)) ==>
                           trace[|trace| - 1].node == leader)
  }

  lemma WalkServes(err: Option<CallError>, trace: seq<Attempt>, replicas: seq<NodeID>, nodes: set<NodeID>, links: Links,
      remotes: map<NodeID, RaftStore>, op: Op, quote: string -> string, m: Moment, m': Moment)
    requires op.Put? || op.Delete?
    requires Finished(trace, replicas) && AllExplained(trace, nodes, links, remotes, op, quote, m, m')
    requires err == ErrorOf(trace[|trace| - 1].answer)
    ensures Served(err, trace, replicas, nodes, links, remotes, op, m)
  {
    hide OpError, Reliable, AllExplained, LeadsFrom, FollowsFrom;
    forall leader | OpError(op) == None && Reliable(links, remotes, m) && leader in replicas && leader in nodes
                    && LeadsFrom(leader, links, remotes, m)
      ensures err == None && trace != []
      ensures (forall n :: n != leader ==> FollowsFrom(n, remotes, m)) ==> trace[|trace| - 1].node == leader {
      LeaderServes(trace, replicas, leader, nodes, links, remotes, op, quote, m, m');
    }
  }

  class RoutedClient {
    const router: Routers.Router
    const nodes: map<NodeID, C.Node>
    const groups: map<GroupID, seq<NodeID>>
    const raftAddrNode: map<GroupID, map<string, NodeID>>
    var leaders: map<GroupID, NodeID>
    var clients: set<NodeID>

    constructor (router: Routers.Router, nodes: map<NodeID, C.Node>, groups: map<GroupID, seq<NodeID>>,
                 raftAddrNode: map<GroupID, map<string, NodeID>>)
      ensures this.router == router && this.nodes == nodes && this.groups == groups && this.raftAddrNode == raftAddrNode
      ensures leaders == map[] && clients == {}
    {
      this.router := router;
      this.nodes, this.groups, this.raftAddrNode := nodes, groups, raftAddrNode;
      leaders, clients := map[], {};
    }

    /** Connections are only ever made to declared nodes. */
    ghost predicate Valid()
      reads this
    {
      router.Valid() && clients <= nodes.Keys
    }

    /** Whatever concurrent calls do to the caches while this one does not hold the lock. */
    method Interfere()
      requires clients <= nodes.Keys
      modifies this
      ensures clients <= nodes.Keys
    {
      leaders := *;
      var now: set<NodeID> :| now <= nodes.Keys;
      clients := now;
    }

    method PickNode(group: GroupID, replicas: seq<NodeID>, attempt: nat) returns (node: NodeID)
      requires replicas != []
      ensures attempt > 0 ==> node == replicas[attempt % |replicas|]
      ensures attempt == 0 ==> node == if group in leaders && leaders[group] != "" then leaders[group] else replicas[0]
    {
      if attempt == 0 {
        if group in leaders && leaders[group] != "" {
          return leaders[group];
        }
      }
      node := replicas[attempt % |replicas|];
    }

    /** clientForNode: a cached connection, or a new one to a declared node; the lock is free while dialing. It fails
        only for an undeclared node or with the dial. */
    method ClientForNode(node: NodeID, network: Network) returns (ok: bool)
      requires clients <= nodes.Keys
      modifies this, network`now
      ensures ok <==> old(node in clients) || (node in nodes && network.env.connects(node, old(network.now)))
      ensures network.now == old(network.now) + if old(node in clients) || node !in nodes then 0 else 1
      ensures clients <= nodes.Keys
      ensures ok ==> node in clients
      ensures old(node in clients) ==> ok && leaders == old(leaders)
      ensures old(node !in clients) && node !in nodes ==> !ok
    {
      if node in clients {
        return true;
      }
      if node !in nodes {
        return false;
      }
      var dialed := network.Dial(node);
      Interfere();
      if !dialed {
        return false;
      }
      if node in clients {
        return true;
      }
      clients := clients + {node};
      ok := true;
    }

    method SetLeader(group: GroupID, node: NodeID)
      modifies this`leaders
      ensures leaders == old(leaders)[group := node]
    {
      leaders := leaders[group := node];
    }

    method ClearLeader(group: GroupID, node: NodeID)
      modifies this`leaders
      ensures leaders == if group in old(leaders) && old(leaders)[group] == node then old(leaders) - {group}
                         else old(leaders)
    {
      if group in leaders && leaders[group] == node {
        leaders := leaders - {group};
      }
    }

    /** The node a hint names: by id, or by raft address if the id is empty; only a declared node counts. */
    function HintedNode(group: GroupID, id: string, addr: string): Option<NodeID>
    {
      var byAddr := group in raftAddrNode && addr in raftAddrNode[group];
      var node := if id != "" then id else if addr != "" && byAddr then raftAddrNode[group][addr] else "";
      if node != "" && node in nodes then Some(node) else None
    }

    method UpdateLeaderFromHint(group: GroupID, id: string, addr: string) returns (updated: bool)
      modifies this`leaders
      ensures updated <==> HintedNode(group, id, addr).Some?
      ensures leaders == if updated then old(leaders)[group := HintedNode(group, id, addr).value] else old(leaders)
    {
      var node := id;
      if node == "" && addr != "" {
        node := if group in raftAddrNode && addr in raftAddrNode[group] then raftAddrNode[group][addr] else "";
      }
      if node == "" {
        return false;
      }
      if node !in nodes {
        return false;
      }
      SetLeader(group, node);
      updated := true;
    }

    /** One remote Put or Delete: the store's answer as the client maps it, or a transport failure before or after the
        server ran it. */
    method Call(remote: RaftStore, node: NodeID, op: Op, quote: string -> string, network: Network)
      returns (answer: Answer)
      requires op.Put? || op.Delete?
      modifies remote.node, network
      ensures answer == CallAnswer(network.env, remote.node.env, op, quote, old(network.now), old(|remote.node.asked|))
      ensures old(network.now) < network.now && network.sent == old(network.sent) + [node]
      ensures old(remote.node.asked) <= remote.node.asked
      ensures !network.env.carries(old(network.now)) ==> remote.node.asked == old(remote.node.asked)
      ensures var log, log' := old(remote.node.submitted), remote.node.submitted;
              && (log' == log || (OpError(op) == None && log' == log + [EncodeOp(op)]))
              && (answer.Elsewhere? ==> log' == log)
              && (answer.Accepted? ==> OpError(op) == None && log' == log + [EncodeOp(op)])
    {
      hide Codec.CheckEncodePara, EncodeOp, WriteAnswer, LeaderAnswer, Mapped, Lost, ClientAnswer, ServerStatus;
      AnswerWords(WriteAnswer(remote.node.env, op, |remote.node.asked|), quote);
      var arrives := network.SendRequest(node);
      if !arrives {
        LostIsRpc(network.env, network.now - 1);
        return Mapped(Lost(network.env, network.now - 1));
      }
      var err := remote.Submit(op);
      var returns' := network.CarryAnswer();
      if !returns' {
        LostIsRpc(network.env, network.now - 1);
        return Mapped(Lost(network.env, network.now - 1));
      }
      if err == None {
        return Accepted;
      }
      MappedAnswer(err.value, quote);
      answer := Mapped(ServerStatus(err.value, quote));
    }

    /** Call at one of the nodes: what it submits it submits there. */
    method CallAt(remotes: map<NodeID, RaftStore>, node: NodeID, op: Op, quote: string -> string, network: Network)
      returns (answer: Answer)
      requires (op.Put? || op.Delete?) && Apart(remotes) && node in remotes
      modifies RaftNodes(remotes), network
      ensures answer == CallAnswer(network.env, remotes[node].node.env, op, quote, old(network.now),
                            old(|remotes[node].node.asked|))
      ensures old(network.now) < network.now && network.sent == old(network.sent) + [node]
      ensures Later(old(At(network, remotes)), At(network, remotes)) && !answer.DialFailed?
      ensures Submissions(remotes) == old(Submissions(remotes))
              || (OpError(op) == None && OneMore(old(Submissions(remotes)), Submissions(remotes), node, EncodeOp(op)))
      ensures answer.Elsewhere? ==> Submissions(remotes) == old(Submissions(remotes))
      ensures answer.Accepted? ==>
              OpError(op) == None && OneMore(old(Submissions(remotes)), Submissions(remotes), node, EncodeOp(op))
    {
      hide EncodeOp, OpError, CallAnswer;
      NotADial(network.env, remotes[node].node.env, op, quote, network.now, |remotes[node].node.asked|);
      answer := Call(remotes[node], node, op, quote, network);
    }

    /** Connect to a node and call it. */
    method Reach(remotes: map<NodeID, RaftStore>, node: NodeID, op: Op, quote: string -> string, network: Network)
      returns (answer: Answer)
      requires (op.Put? || op.Delete?) && Valid() && nodes.Keys <= remotes.Keys && Apart(remotes)
      modifies this, network, RaftNodes(remotes)
      ensures Valid()
      ensures Explained(Attempt(node, answer), nodes.Keys, network.env, remotes, op, quote,
                  old(At(network, remotes)), At(network, remotes))
      ensures Later(old(At(network, remotes)), At(network, remotes))
      ensures network.sent == old(network.sent) + if answer.DialFailed? then [] else [node]
      ensures Submissions(remotes) == old(Submissions(remotes))
              || (OpError(op) == None && node in remotes
                  && OneMore(old(Submissions(remotes)), Submissions(remotes), node, EncodeOp(op)))
      ensures Retryable(answer) ==> Submissions(remotes) == old(Submissions(remotes))
      ensures answer.Accepted? ==> OpError(op) == None && node in remotes
                                   && OneMore(old(Submissions(remotes)), Submissions(remotes), node, EncodeOp(op))
    {
      hide EncodeOp, OpError, Submissions, OneMore, Apart, CallAnswer, Explained, Later;
      ghost var m := At(network, remotes);
      var connected := ClientForNode(node, network);
      OnlyTimePassed(m, At(network, remotes));
      if !connected {
        DialExplained(node, nodes.Keys, network.env, remotes, op, quote, m, At(network, remotes));
        return DialFailed;
      }
      ghost var m1 := At(network, remotes);
      answer := CallAt(remotes, node, op, quote, network);
      CallExplained(node, answer, nodes.Keys, network.env, remotes, op, quote, m, m1, At(network, remotes));
    }

    /** What the leader cache says of a group after an attempt: the node that accepted; the declared node a NotLeader
        answer named; otherwise at least not the node that failed. An answer that ends the call in an error leaves no
        trace in it. */
    ghost predicate CacheAfter(group: GroupID, last: Attempt)
      reads this
    {
      match last.answer
      case Accepted => group in leaders && leaders[group] == last.node
      case DialFailed => group in leaders ==> leaders[group] != last.node
      case Elsewhere(id, addr) =>
        if HintedNode(group, id, addr).Some?
        then group in leaders && leaders[group] == HintedNode(group, id, addr).value
        else group in leaders ==> leaders[group] != last.node
      case Refused(_) => true
    }

    /** What an attempt does to the leader cache. */
    method Learn(group: GroupID, a: Attempt)
      modifies this`leaders
      ensures CacheAfter(group, a)
      ensures forall g :: g != group ==>
              (g in leaders <==> g in old(leaders)) && (g in leaders ==> leaders[g] == old(leaders)[g])
    {
      match a.answer {
        case DialFailed =>
          ClearLeader(group, a.node);
        case Accepted =>
          SetLeader(group, a.node);
        case Elsewhere(id, addr) =>
          var updated := UpdateLeaderFromHint(group, id, addr);
          if !updated {
            ClearLeader(group, a.node);
          }
        case Refused(_) =>
      }
    }

    /** One turn of withGroupClient's loop: pick a node, connect, call, and put what was learned into the leader
        cache. */
    method TryNode(group: GroupID, replicas: seq<NodeID>, attempt: nat, op: Op, remotes: map<NodeID, RaftStore>,
        quote: string -> string, network: Network)
      returns (a: Attempt)
      requires (op.Put? || op.Delete?) && Valid() && nodes.Keys <= remotes.Keys && Apart(remotes) && replicas != []
      modifies this, network, RaftNodes(remotes)
      ensures Valid() && CacheAfter(group, a)
      ensures Explained(a, nodes.Keys, network.env, remotes, op, quote, old(At(network, remotes)), At(network, remotes))
      ensures Later(old(At(network, remotes)), At(network, remotes))
      ensures network.sent == old(network.sent) + if a.answer.DialFailed? then [] else [a.node]
      ensures attempt > 0 ==> a.node == replicas[attempt % |replicas|]
      ensures Submissions(remotes) == old(Submissions(remotes))
              || (OpError(op) == None && a.node in remotes
                  && OneMore(old(Submissions(remotes)), Submissions(remotes), a.node, EncodeOp(op)))
      ensures Retryable(a.answer) ==> Submissions(remotes) == old(Submissions(remotes))
      ensures a.answer.Accepted? ==> OpError(op) == None && a.node in remotes
                                     && OneMore(old(Submissions(remotes)), Submissions(remotes), a.node, EncodeOp(op))
    {
      hide EncodeOp, OpError, Submissions, OneMore, Apart, CacheAfter, Explained, Later, At;
      Interfere();
      var node := PickNode(group, replicas, attempt);
      Interfere();
      var answer := Reach(remotes, node, op, quote, network);
      Interfere();
      a := Attempt(node, answer);
      Learn(group, a);
    }

    /** ctx.Err at the start of a call. */
    method LookAtContext(ghost remotes: map<NodeID, RaftStore>, network: Network) returns (ended: bool)
      modifies network`now
      ensures ended == network.env.ended(old(network.now))
      ensures Later(old(At(network, remotes)), At(network, remotes))
    {
      ghost var m := At(network, remotes);
      ended := network.ContextEnded();
      OnlyTimePassed(m, At(network, remotes));
    }

    /** withGroupClient. Its attempts form a finished walk; the last one decides the answer and what the leader cache
        then says; and over all its attempts at most one command is submitted, at one node. */
    method WithGroupClient(group: GroupID, op: Op, remotes: map<NodeID, RaftStore>, quote: string -> string,
        network: Network)
      returns (err: Option<CallError>, trace: seq<Attempt>)
      requires (op.Put? || op.Delete?) && Valid() && nodes.Keys <= remotes.Keys && Apart(remotes)
      modifies this, network, RaftNodes(remotes)
      ensures Valid()
      ensures AllExplained(trace, nodes.Keys, network.env, remotes, op, quote, old(At(network, remotes)),
                  At(network, remotes))
      ensures network.sent == old(network.sent) + Requests(trace)
      ensures !network.env.ended(old(network.now)) ==>
                Served(err, trace, if group in groups then groups[group] else [], nodes.Keys, network.env, remotes, op,
                    old(At(network, remotes)))
      ensures err == Some(ContextEnded) <==> network.env.ended(old(network.now))
      ensures group !in groups || groups[group] == [] ==> err.Some? && trace == []
      ensures trace == [] ==>
              err == Some(ContextEnded) || (err == Some(NoReplicas) && (group !in groups || groups[group] == []))
      ensures trace != [] ==> group in groups && Finished(trace, groups[group])
      ensures trace != [] ==> err == ErrorOf(trace[|trace| - 1].answer) && CacheAfter(group, trace[|trace| - 1])
      ensures Submissions(remotes) == old(Submissions(remotes))
              || (OpError(op) == None
                  && OneMoreSomewhere(old(Submissions(remotes)), Submissions(remotes), EncodeOp(op)))
      ensures err == None ==> OpError(op) == None && trace[|trace| - 1].node in remotes
                              && OneMore(old(Submissions(remotes)), Submissions(remotes), trace[|trace| - 1].node,
                                  EncodeOp(op))
    {
      hide EncodeOp, OpError, Walk, Walking, Finished, Submissions, OneMore, Apart, CacheAfter, Explained, AllExplained,
           Later, Served, Requests, At;
      trace := [];
      ghost var m0 := At(network, remotes);
      NothingTried(nodes.Keys, network.env, remotes, op, quote, m0);
      var ended := LookAtContext(remotes, network);
      if ended {
        return Some(ContextEnded), [];
      }
      var replicas := if group in groups then groups[group] else [];
      if |replicas| == 0 {
        NoneServed(Some(NoReplicas), [], nodes.Keys, network.env, remotes, op, m0);
        return Some(NoReplicas), [];
      }
      var attempts := |replicas| + 1;
      var lastErr := None;
      NoStepsYet(replicas);
      for attempt := 0 to attempts
        invariant |trace| == attempt && Walking(trace, replicas) && (attempt == attempts ==> Finished(trace, replicas))
        invariant attempt > 0 ==>
                    && lastErr == ErrorOf(trace[attempt - 1].answer) && lastErr.Some?
                    && CacheAfter(group, trace[attempt - 1])
        invariant Submissions(remotes) == old(Submissions(remotes)) && Valid()
        invariant AllExplained(trace, nodes.Keys, network.env, remotes, op, quote, m0, At(network, remotes))
        invariant Later(m0, At(network, remotes)) && network.sent == old(network.sent) + Requests(trace)
      {
        ghost var m := At(network, remotes);
        var a := TryNode(group, replicas, attempt, op, remotes, quote, network);
        WalkStep(trace, replicas, a);
        AllExplainedStep(trace, a, nodes.Keys, network.env, remotes, op, quote, m0, m, At(network, remotes));
        RequestsStep(trace, a);
        trace := trace + [a];
        lastErr := ErrorOf(a.answer);
        if !Retryable(a.answer) {
          WalkServes(lastErr, trace, replicas, nodes.Keys, network.env, remotes, op, quote, m0, At(network, remotes));
          return lastErr, trace;
        }
      }
      WalkServes(lastErr, trace, replicas, nodes.Keys, network.env, remotes, op, quote, m0, At(network, remotes));
      err := lastErr;
    }

    /** Put and Delete: route the key, then call its group. */
    method Submit(op: Op, remotes: map<NodeID, RaftStore>, quote: string -> string, network: Network)
      returns (err: Option<CallError>, trace: seq<Attempt>)
      requires (op.Put? || op.Delete?) && Valid() && nodes.Keys <= remotes.Keys && Apart(remotes)
      modifies this, network, RaftNodes(remotes)
      ensures Valid()
      ensures AllExplained(trace, nodes.Keys, network.env, remotes, op, quote, old(At(network, remotes)),
                  At(network, remotes))
      ensures network.sent == old(network.sent) + Requests(trace)
      ensures op.key != [] && !network.env.ended(old(network.now)) ==> var group := router.Route(op.key).group;
              Served(err, trace, if group in groups then groups[group] else [], nodes.Keys, network.env, remotes, op,
                  old(At(network, remotes)))
      ensures op.key != [] ==> (err == Some(ContextEnded) <==> network.env.ended(old(network.now)))
      ensures op.key == [] ==> err == Some(Routing(HashRings.RingError.ErrEmptyKey)) && trace == []
      ensures trace != [] ==> op.key != [] && var group := router.Route(op.key).group;
              && group in groups && Finished(trace, groups[group])
              && err == ErrorOf(trace[|trace| - 1].answer) && CacheAfter(group, trace[|trace| - 1])
      ensures trace == [] && op.key != [] ==> var group := router.Route(op.key).group;
              err == Some(ContextEnded) || (err == Some(NoReplicas) && (group !in groups || groups[group] == []))
      ensures Submissions(remotes) == old(Submissions(remotes))
              || (OpError(op) == None
                  && OneMoreSomewhere(old(Submissions(remotes)), Submissions(remotes), EncodeOp(op)))
      ensures err == None ==> OpError(op) == None && trace[|trace| - 1].node in remotes
                              && OneMore(old(Submissions(remotes)), Submissions(remotes), trace[|trace| - 1].node,
                                  EncodeOp(op))
    {
      hide EncodeOp, OpError, Finished, Submissions, OneMore, Apart, Explained, Served, At;
      var route := router.RouteKey(op.key);
      if route.Err? {
        return Some(Routing(route.error)), [];
      }
      err, trace := WithGroupClient(route.value.group, op, remotes, quote, network);
    }
  }

  // ----- construction -----

  /** The client knows exactly the configuration's nodes; each group's replicas in their listed order; and for each
      group which of them has which raft address. */
  ghost predicate Knows(client: RoutedClient, c: C.Config)
  {
    && C.Routes(c, client.router)
    && client.nodes.Keys == C.NodeIDs(c.nodes) && (forall n :: n in c.nodes ==> client.nodes[n.id] == n)
    && client.groups.Keys == C.GroupIDs(c.groups) && client.raftAddrNode.Keys == C.GroupIDs(c.groups)
    && (forall g :: g in c.groups ==>
        client.groups[g.id] == ReplicaList(g.replicas) && AddrsOf(client.raftAddrNode[g.id], g.replicas))
  }

  function ReplicaList(replicas: seq<C.GroupReplica>): seq<NodeID>
  {
    seq(|replicas|, i requires 0 <= i < |replicas| => replicas[i].nodeID)
  }

  ghost predicate AddrsOf(m: map<string, NodeID>, replicas: seq<C.GroupReplica>)
  {
    m.Keys == C.RaftAddrs(replicas) && forall r :: r in replicas ==> m[r.raftAddr] == r.nodeID
  }

  /** The loop over the nodes. */
  method IndexNodes(nodes: seq<C.Node>) returns (m: map<NodeID, C.Node>)
    requires C.ValidNodes(nodes)
    ensures m.Keys == C.NodeIDs(nodes) && forall n :: n in nodes ==> m[n.id] == n
  {
    m := map[];
    for i := 0 to |nodes|
      invariant m.Keys == C.NodeIDs(nodes[..i]) && forall k :: 0 <= k < i ==>
                nodes[k].id in m && m[nodes[k].id] == nodes[k]
    {
      assert nodes[..i + 1] == nodes[..i] + [nodes[i]];
      m := m[nodes[i].id := nodes[i]];
    }
    assert nodes[..|nodes|] == nodes;
  }

  /** The loop over one group's replicas. */
  method IndexReplicas(replicas: seq<C.GroupReplica>, ghost declared: set<NodeID>)
    returns (list: seq<NodeID>, addrs: map<string, NodeID>)
    requires C.ValidReplicas(replicas, declared)
    ensures list == ReplicaList(replicas) && AddrsOf(addrs, replicas)
  {
    list, addrs := [], map[];
    for i := 0 to |replicas|
      invariant list == ReplicaList(replicas[..i]) && addrs.Keys == C.RaftAddrs(replicas[..i])
      invariant forall k :: 0 <= k < i ==>
                replicas[k].raftAddr in addrs && addrs[replicas[k].raftAddr] == replicas[k].nodeID
    {
      assert replicas[..i + 1] == replicas[..i] + [replicas[i]];
      list := list + [replicas[i].nodeID];
      addrs := addrs[replicas[i].raftAddr := replicas[i].nodeID];
    }
    assert replicas[..|replicas|] == replicas;
  }

  /** The loop over the groups. */
  method IndexGroups(groups: seq<C.Group>, ghost declared: set<NodeID>)
    returns (lists: map<GroupID, seq<NodeID>>, addrs: map<GroupID, map<string, NodeID>>)
    requires C.ValidGroups(groups, declared)
    ensures lists.Keys == C.GroupIDs(groups) && addrs.Keys == C.GroupIDs(groups)
    ensures forall g :: g in groups ==> lists[g.id] == ReplicaList(g.replicas) && AddrsOf(addrs[g.id], g.replicas)
  {
    hide AddrsOf, ReplicaList, C.ValidReplicas;
    lists, addrs := map[], map[];
    for i := 0 to |groups|
      invariant lists.Keys == C.GroupIDs(groups[..i]) && addrs.Keys == C.GroupIDs(groups[..i])
      invariant forall k :: 0 <= k < i ==>
                  && groups[k].id in lists && lists[groups[k].id] == ReplicaList(groups[k].replicas)
                  && groups[k].id in addrs && AddrsOf(addrs[groups[k].id], groups[k].replicas)
    {
      assert groups[..i + 1] == groups[..i] + [groups[i]];
      var list, byAddr := IndexReplicas(groups[i].replicas, declared);
      lists, addrs := lists[groups[i].id := list], addrs[groups[i].id := byAddr];
    }
    assert groups[..|groups|] == groups;
  }

  datatype SetupError = SetupEnded | NoDialer | BadConfig(error: C.ConfigError)

  /** newRoutedClient: with a live context and a dialer it succeeds exactly on the valid configurations. */
  method NewRoutedClient(live: bool, dialer: bool, c: C.Config, hash: Bytes -> nat)
    returns (client: RoutedClient?, err: Option<SetupError>)
    ensures !live ==> err == Some(SetupEnded)
    ensures live && !dialer ==> err == Some(NoDialer)
    ensures live && dialer ==> (err == None <==> C.ValidConfig(c))
    ensures live && dialer && err.Some? ==> err.value.BadConfig? && C.Justified(c, err.value.error)
    ensures err == None <==> client != null
    ensures client != null ==>
            fresh(client) && client.Valid() && Knows(client, c) && client.leaders == map[] && client.clients == {}
  {
    hide C.Routes, C.RoutesLast, C.Last, C.ValidNodes, C.ValidGroups, C.ValidRoutes, AddrsOf, ReplicaList;
    client := null;
    if !live {
      return null, Some(SetupEnded);
    }
    if !dialer {
      return null, Some(NoDialer);
    }
    var invalid := C.Validate(c, hash);
    if invalid.Some? {
      return null, Some(BadConfig(invalid.value));
    }
    err := None;
    C.GroupsNamed(c);
    var router := C.NewRouter(c, hash);
    C.UniqueRoutes(c, router.value);
    var nodes := IndexNodes(c.nodes);
    var groups, addrs := IndexGroups(c.groups, C.NodeIDs(c.nodes));
    RoutesValid(c, router.value);
    client := new RoutedClient(router.value, nodes, groups, addrs);
  }

  /** For a client of a valid configuration: the group of a non-empty key has replicas, all of them nodes it can dial,
      and a NotLeader answer that names a replica by id, or by raft address alone, is understood as naming that
      replica. */
  lemma EveryKeyServed(client: RoutedClient, c: C.Config, key: Bytes) returns (g: C.Group)
    requires C.ValidConfig(c) && Knows(client, c) && key != []
    ensures g in c.groups && g.id == client.router.Route(key).group
    ensures g.id in client.groups && client.groups[g.id] != [] && forall n :: n in client.groups[g.id] ==>
            n in client.nodes
    ensures forall r, addr :: r in g.replicas ==> client.HintedNode(g.id, r.nodeID, addr) == Some(r.nodeID)
    ensures forall r :: r in g.replicas ==> client.HintedNode(g.id, "", r.raftAddr) == Some(r.nodeID)
  {
    hide C.ValidConfig;
    g := C.TotalRouting(c, client.router, key);
    ReplicasNamed(c, g);
  }

  lemma RoutesValid(c: C.Config, router: Routers.Router)
    requires C.Routes(c, router)
    ensures router.Valid()
  {
  }

  lemma ReplicasNamed(c: C.Config, g: C.Group)
    requires C.ValidConfig(c) && g in c.groups
    ensures forall r :: r in g.replicas ==> r.nodeID != "" && r.nodeID in C.NodeIDs(c.nodes)
    ensures forall r :: r in g.replicas ==> r.raftAddr != "" && r.raftAddr in C.RaftAddrs(g.replicas)
  {
    var i :| 0 <= i < |c.groups| && c.groups[i] == g;
    assert C.ValidReplicas(g.replicas, C.NodeIDs(c.nodes));
  }

  lemma NoStepsYet(replicas: seq<NodeID>)
    requires replicas != []
    ensures Walking([], replicas)
  {
  }

  /** Before the first attempt there is nothing to account for. */
  lemma NothingTried(nodes: set<NodeID>, links: Links, remotes: map<NodeID, RaftStore>, op: Op, quote: string -> string,
      m: Moment)
    requires op.Put? || op.Delete?
    ensures forall m' :: AllExplained([], nodes, links, remotes, op, quote, m, m')
    ensures Requests([]) == []
  {
  }

  lemma OnlyTimePassed(m: Moment, m': Moment)
    requires m.now <= m'.now && m'.asked == m.asked
    ensures Later(m, m')
  {
  }

  lemma NoneServed(err: Option<CallError>, trace: seq<Attempt>, nodes: set<NodeID>, links: Links,
      remotes: map<NodeID, RaftStore>, op: Op, m: Moment)
    ensures Served(err, trace, [], nodes, links, remotes, op, m)
  {
  }

  /** The client's mapError, as an answer. */
  function Mapped(s: Status): Answer
  {
    match ClientView(s)
    case LeaderElsewhere(id, addr) => Elsewhere(id, addr)
    case Rpc(status) => Refused(status)
  }

  lemma LostIsRpc(env: Links, n: nat)
    ensures Mapped(Lost(env, n)) == Refused(Lost(env, n))
  {
    if PREFIX <= env.failure(n).message {
      assert ("transport: " + env.failure(n).message)[0] == 't';
    }
  }

  /** The server's mapping to a status and the client's mapping back lose nothing a call depends on. */
  lemma MappedAnswer(e: StoreError, quote: string -> string)
    ensures Mapped(ServerStatus(e, quote)) == ClientAnswer(Some(e), quote)
  {
    hide ParseLeaderHint;
    NotLeaderTravels(e, quote);
  }
}
