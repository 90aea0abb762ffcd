/** The RIC, its E2 agents and the channels between them, as interleaved atomic steps: any number of
    callers of the request procedures, one FIFO channel each way per agent, and received messages that
    the thread pool of the RIC handles in any order. */
module E2System {
  import opened AgentProcedures
  import opened E2ap
  import opened Ledger
  import opened Maps
  import opened RicProcedures
  import opened PendingEvents

  /** How far one thread is inside a request procedure. */
  datatype Call =
    | Idle
    | Reserved(req: Request, node: nat)           // the identifier is taken
    | Timed(req: Request, node: nat, fd: int)     // the timer is registered as well
    | Unsent(req: Request, node: nat)             // the pending event is inserted as well
  {
    /** Inside a subscription or control procedure. */
    predicate Requesting() {
      !Idle? && !req.SubscriptionDeleteReq?
    }
  }

  /** A request on its way to an agent. `subscribed` is bookkeeping of the model: whether the identifier
      was subscribed at that agent when the request was sent. */
  datatype Queued = Queued(req: Request, subscribed: bool)

  /** An agent with its channels. `want` is bookkeeping of the model: the identifiers whose subscription
      was sent to the agent and whose delete was not. */
  datatype Node = Node(down: seq<Queued>, up: seq<Reply>, agent: AgentState, want: set<GenId>)

  /** `tasks` are received messages not handled yet, `closing` timers whose pending event is extracted
      and which are not closed yet, `next` the index of the next identifier allocation, and `born` the
      latest allocation index of each identifier handed out. */
  datatype Sys = Sys(ric: RicState, calls: seq<Call>, nodes: seq<Node>, tasks: seq<Reply>, closing: set<int>,
                     next: nat, born: map<nat, nat>)

  datatype Action =
    | Allocate(t: nat, node: nat, template: Request)
    | CreateTimer(t: nat, fd: int)
    | Insert(t: nat)
    | Send(t: nat)
    | StartDelete(t: nat, node: nat, id: GenId, fd: int)
    | AgentReceive(n: nat, isPeriodic: bool, fd: int)
    | AgentIndicate(n: nat, id: GenId)
    | RicReceive(n: nat)
    | Handle(i: nat, fd: int)
    | Close(fd: int)

  /** An identifier in use: a subscription or control is pending or on its way to be, or a subscription
      was not deleted yet. */
  ghost predicate LivePending(s: Sys, r: nat)
  {
    exists fd :: && fd in s.ric.pending && s.ric.pending[fd].kind != SubscriptionDeleteRequest
                 && s.ric.pending[fd].id.req == r
  }

  ghost predicate LiveCall(s: Sys, r: nat)
  {
    exists t :: 0 <= t < |s.calls| && s.calls[t].Requesting() && s.calls[t].req.id.req == r
  }

  ghost predicate LiveSubscription(s: Sys, r: nat)
  {
    exists n, id :: 0 <= n < |s.nodes| && id in s.nodes[n].want && id.req == r
  }

  ghost predicate Live(s: Sys, r: nat)
  {
    LivePending(s, r) || LiveCall(s, r) || LiveSubscription(s, r)
  }

  /** No live identifier was handed out a multiple of 65536 allocations ago. */
  ghost predicate NoneReturns(s: Sys)
  {
    forall r :: Live(s, r) && r in s.born ==> (s.next - s.born[r]) % ID_SPACE != 0
  }

  /** The request with the next identifier of the counter. */
  function Numbered(s: Sys, template: Request): Request
  {
    template.(id := WithReqId(template.id, ToUint16(s.ric.reqId)))
  }

  /** A (kind, identifier) pair that is pending, or of a subscription or control on its way to be. */
  ghost predicate PairInUse(s: Sys, key: Event)
  {
    || key in s.ric.pending.Values
    || exists t :: 0 <= t < |s.calls| && s.calls[t].Requesting() && s.calls[t].req.Key() == key
  }

  /** The pair of the request is not in use, nor is its identifier subscribed at the node. */
  ghost predicate PairUnused(s: Sys, req: Request, node: nat)
    requires node < |s.nodes|
  {
    !PairInUse(s, req.Key()) && (req.SubscriptionReq? ==> req.id !in s.nodes[node].want)
  }

  /** An agent that an assertion stops takes no further step, so `AgentReceive` is the delete whose
      extraction meets the right entry. */
  ghost predicate Enabled(s: Sys, a: Action)
  {
    match a
    case Allocate(t, node, template) =>
      && t < |s.calls| && s.calls[t].Idle? && node < |s.nodes|
      && !template.SubscriptionDeleteReq? && template.id.req < ID_SPACE
      && PairUnused(s, Numbered(s, template), node)
    case CreateTimer(t, fd) => t < |s.calls| && s.calls[t].Reserved? && fd !in s.ric.epoll
    case Insert(t) => t < |s.calls| && s.calls[t].Timed?
    case Send(t) => t < |s.calls| && s.calls[t].Unsent? && s.calls[t].node < |s.nodes|
    case StartDelete(t, node, id, fd) =>
      t < |s.calls| && s.calls[t].Idle? && node < |s.nodes| && fd !in s.ric.epoll
    case AgentReceive(n, isPeriodic, fd) =>
      && n < |s.nodes| && s.nodes[n].down != []
      && var m, ag := s.nodes[n].down[0].req, s.nodes[n].agent;
         && (m.SubscriptionReq? && isPeriodic ==> fd > 0 && fd !in ag.epoll)
         && (m.SubscriptionDeleteReq? && m.id !in ag.aperiodic && m.id in ag.periodic.Values ==>
               fd in ag.periodic && ag.periodic[fd] == m.id)
    case AgentIndicate(n, id) => n < |s.nodes| && id in Ids(s.nodes[n].agent)
    case RicReceive(n) => n < |s.nodes| && s.nodes[n].up != []
    case Handle(i, fd) =>
      && i < |s.tasks|
      && (!s.tasks[i].Indication? ==> fd in s.ric.pending && s.ric.pending[fd] == s.tasks[i].Key())
    case Close(fd) => fd in s.closing
  }

  function AgentStep(ag: AgentState, m: Request, isPeriodic: bool, fd: int): AgentState
  {
    match m
    case SubscriptionReq(id) => if isPeriodic then SubscribePeriodic(ag, id, fd) else SubscribeAperiodic(ag, id)
    case SubscriptionDeleteReq(id) =>
      if id in ag.aperiodic then StopAperiodic(ag, id)
      else if id in ag.periodic.Values then StopPeriodic(ag, fd)
      else ag
    case ControlReq(_) => ag
  }

  /** What a request does to a set of subscribed identifiers. */
  function Effect(ids: set<GenId>, m: Request): set<GenId>
  {
    match m
    case SubscriptionReq(id) => ids + {id}
    case SubscriptionDeleteReq(id) => ids - {id}
    case ControlReq(_) => ids
  }

  // The steps.

  function DoAllocate(s: Sys, t: nat, node: nat, template: Request): Sys
    requires t < |s.calls|
  {
    s.(ric := TakeReqId(s.ric), next := s.next + 1, born := s.born[ToUint16(s.ric.reqId) := s.next],
       calls := s.calls[t := Reserved(Numbered(s, template), node)])
  }

  function DoCreateTimer(s: Sys, t: nat, fd: int): Sys
    requires t < |s.calls| && s.calls[t].Reserved?
  {
    s.(ric := AddTimer(s.ric, fd), calls := s.calls[t := Timed(s.calls[t].req, s.calls[t].node, fd)])
  }

  function DoInsert(s: Sys, t: nat): Sys
    requires t < |s.calls| && s.calls[t].Timed?
  {
    var c := s.calls[t];
    s.(ric := InsertPending(s.ric, c.fd, c.req.Key()), calls := s.calls[t := Unsent(c.req, c.node)])
  }

  function WithSent(n: Node, req: Request): Node
  {
    n.(down := n.down + [Queued(req, req.id in n.want)], want := Effect(n.want, req))
  }

  function DoSend(s: Sys, t: nat): Sys
    requires t < |s.calls| && s.calls[t].Unsent? && s.calls[t].node < |s.nodes|
  {
    var c := s.calls[t];
    s.(calls := s.calls[t := Idle], nodes := s.nodes[c.node := WithSent(s.nodes[c.node], c.req)])
  }

  /** Nothing happens when the delete is already pending. */
  function DoStartDelete(s: Sys, t: nat, node: nat, id: GenId, fd: int): Sys
    requires t < |s.calls|
  {
    var req := SubscriptionDeleteReq(id);
    if req.Key() in s.ric.pending.Values then s
    else s.(ric := InsertPending(AddTimer(s.ric, fd), fd, req.Key()), calls := s.calls[t := Unsent(req, node)])
  }

  function WithReceived(n: Node, isPeriodic: bool, fd: int): Node
    requires n.down != []
  {
    var req := n.down[0].req;
    n.(down := n.down[1..], up := n.up + [req.Answer()], agent := AgentStep(n.agent, req, isPeriodic, fd))
  }

  function DoAgentReceive(s: Sys, n: nat, isPeriodic: bool, fd: int): Sys
    requires n < |s.nodes| && s.nodes[n].down != []
  {
    s.(nodes := s.nodes[n := WithReceived(s.nodes[n], isPeriodic, fd)])
  }

  function DoAgentIndicate(s: Sys, n: nat, id: GenId): Sys
    requires n < |s.nodes|
  {
    s.(nodes := s.nodes[n := s.nodes[n].(up := s.nodes[n].up + [Indication(id)])])
  }

  function DoRicReceive(s: Sys, n: nat): Sys
    requires n < |s.nodes| && s.nodes[n].up != []
  {
    s.(nodes := s.nodes[n := s.nodes[n].(up := s.nodes[n].up[1..])], tasks := s.tasks + [s.nodes[n].up[0]])
  }

  function DoHandle(s: Sys, i: nat, fd: int): Sys
    requires i < |s.tasks|
  {
    var rest := s.tasks[..i] + s.tasks[i + 1..];
    if s.tasks[i].Indication? then s.(tasks := rest)
    else s.(tasks := rest, ric := ExtractPending(s.ric, fd), closing := s.closing + {fd})
  }

  function DoClose(s: Sys, fd: int): Sys
  {
    s.(ric := RemoveFd(s.ric, fd), closing := s.closing - {fd})
  }

  ghost function Apply(s: Sys, a: Action): Sys
    requires Enabled(s, a)
  {
    match a
    case Allocate(t, node, template) => DoAllocate(s, t, node, template)
    case CreateTimer(t, fd) => DoCreateTimer(s, t, fd)
    case Insert(t) => DoInsert(s, t)
    case Send(t) => DoSend(s, t)
    case StartDelete(t, node, id, fd) => DoStartDelete(s, t, node, id, fd)
    case AgentReceive(n, isPeriodic, fd) => DoAgentReceive(s, n, isPeriodic, fd)
    case AgentIndicate(n, id) => DoAgentIndicate(s, n, id)
    case RicReceive(n) => DoRicReceive(s, n)
    case Handle(i, fd) => DoHandle(s, i, fd)
    case Close(fd) => DoClose(s, fd)
  }

  ghost function Next(s: Sys, a: Action): Sys
  {
    if Enabled(s, a) then Apply(s, a) else s
  }

  // Requests and answers in transit

  ghost function QueuedKeys(q: Queued): Keys
  {
    multiset{q.req.Key()}
  }

  ghost function ReplyKeys(m: Reply): Keys
  {
    if m.Indication? then multiset{} else multiset{m.Key()}
  }

  ghost function CallKeys(c: Call): Keys
  {
    if c.Unsent? then multiset{c.req.Key()} else multiset{}
  }

  ghost function NodeKeys(n: Node): Keys
  {
    Sum(n.down, QueuedKeys) + Sum(n.up, ReplyKeys)
  }

  /** The keys of all requests about to be sent, requests and answers in channels, and unhandled answers. */
  ghost function InTransit(s: Sys): Keys
  {
    Sum(s.calls, CallKeys) + Sum(s.nodes, NodeKeys) + Sum(s.tasks, ReplyKeys)
  }

  /** Each pending event has exactly one request or answer in transit, and nothing else is in transit. */
  ghost predicate LedgerInv(s: Sys)
  {
    && Injective(s.ric.pending)
    && InTransit(s) == multiset(s.ric.pending.Values)
  }

  // Timers

  ghost function TimedFds(calls: seq<Call>): set<int>
  {
    set t | 0 <= t < |calls| && calls[t].Timed? :: calls[t].fd
  }

  ghost predicate FdInv(s: Sys)
  {
    var p := s.ric.pending.Keys;
    && s.ric.epoll == {s.ric.sctp} + p + s.closing + TimedFds(s.calls)
    && s.ric.sctp !in p + s.closing + TimedFds(s.calls)
    && p !! s.closing && p !! TimedFds(s.calls) && s.closing !! TimedFds(s.calls)
    && forall t, u | 0 <= t < |s.calls| && 0 <= u < |s.calls| && s.calls[t].Timed? && s.calls[u].Timed? ::
         s.calls[t].fd == s.calls[u].fd ==> t == u
  }

  // Identifiers

  ghost predicate Claiming(c: Call)
  {
    c.Reserved? || c.Timed?
  }

  ghost predicate BornInv(s: Sys)
  {
    && s.ric.reqId == Counter(s.next)
    && (forall r :: r in s.born ==> s.born[r] < s.next && ReqIdAt(s.born[r]) == r)
    && (forall r :: Live(s, r) ==> r in s.born)
  }

  /** Every call is for a known node; no two calls have one pair; a claimed pair is not pending; and what is
      about to be subscribed at a node is not subscribed there. */
  ghost predicate PairInv(s: Sys)
  {
    && (forall t :: 0 <= t < |s.calls| && !s.calls[t].Idle? ==> s.calls[t].node < |s.nodes|)
    && (forall t :: 0 <= t < |s.calls| && Claiming(s.calls[t]) ==>
                    s.calls[t].Requesting() && s.calls[t].req.Key() !in s.ric.pending.Values)
    && (forall t, u | && 0 <= t < |s.calls| && 0 <= u < |s.calls|
                      && s.calls[t].Requesting() && s.calls[u].Requesting() ::
          s.calls[t].req.Key() == s.calls[u].req.Key() ==> t == u)
    && (forall t :: 0 <= t < |s.calls| && s.calls[t].Requesting() && s.calls[t].req.SubscriptionReq? ==>
                    s.calls[t].req.id !in s.nodes[s.calls[t].node].want)
  }

  // Subscriptions

  ghost function Replay(ids: set<GenId>, ms: seq<Queued>): set<GenId>
  {
    if ms == [] then ids else Effect(Replay(ids, ms[..|ms| - 1]), ms[|ms| - 1].req)
  }

  /** Handling the queued requests in order takes the agent to `want`; each queued request will meet its
      identifier subscribed exactly when it was subscribed at sending, and no subscription will. */
  ghost predicate NodeInv(n: Node)
  {
    && FdsAgree(n.agent) && IdsUnique(n.agent)
    && Replay(Ids(n.agent), n.down) == n.want
    && (forall j :: 0 <= j < |n.down| ==>
                      (n.down[j].subscribed <==> n.down[j].req.id in Replay(Ids(n.agent), n.down[..j])))
    && (forall j :: 0 <= j < |n.down| && n.down[j].req.SubscriptionReq? ==> !n.down[j].subscribed)
  }

  ghost predicate NodesInv(s: Sys)
  {
    forall n :: 0 <= n < |s.nodes| ==> NodeInv(s.nodes[n])
  }

  ghost predicate Inv(s: Sys)
  {
    LedgerInv(s) && FdInv(s) && BornInv(s) && PairInv(s) && NodesInv(s)
  }
}
