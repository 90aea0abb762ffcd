/** The E2 agent: indication timers, the pending setup request and the dispatch of ready descriptors. */
module AgentProcedures {
  import opened E2ap
  import opened Maps
  import opened PendingEvents

  /** `periodic` is the left tree of the indication map without its entries under key 0, which are the
      aperiodic subscriptions in `aperiodic`. */
  datatype AgentState = AgentState(sctp: int, pipe: int, epoll: set<int>, pending: map<int, Kind>,
                         periodic: map<int, GenId>, aperiodic: multiset<GenId>, transId: nat)

  /** The identifiers in the right tree of the indication map. */
  ghost function Ids(a: AgentState): set<GenId>
  {
    a.periodic.Values + set id | id in a.aperiodic
  }

  // The steps of the handlers.

  function SubscribePeriodic(a: AgentState, id: GenId, fd: int): AgentState
  {
    a.(periodic := a.periodic[fd := id], epoll := a.epoll + {fd})
  }

  function SubscribeAperiodic(a: AgentState, id: GenId): AgentState
  {
    a.(aperiodic := a.aperiodic + multiset{id})
  }

  function StopPeriodic(a: AgentState, fd: int): AgentState
  {
    a.(periodic := a.periodic - {fd}, epoll := a.epoll - {fd})
  }

  function StopAperiodic(a: AgentState, id: GenId): AgentState
  {
    a.(aperiodic := a.aperiodic - multiset{id})
  }

  function AddSetupPending(a: AgentState, fd: int): AgentState
  {
    a.(pending := a.pending[fd := SetupRequest], epoll := a.epoll + {fd})
  }

  function StopSetupPending(a: AgentState, fd: int): AgentState
  {
    a.(pending := a.pending - {fd}, epoll := a.epoll - {fd}, transId := 0)
  }

  function GenerateSetup(a: AgentState): AgentState
  {
    a.(transId := a.transId + 1)
  }

  /** All aperiodic subscriptions share left key 0, and extraction asserts that the entry it meets there
      is the one asked for. It cannot meet another one. */
  ghost predicate StopIndSafe(a: AgentState, id: GenId)
  {
    id in a.aperiodic ==> forall other :: other in a.aperiodic ==> other == id
  }

  /** What the descriptors of the agent are for. */
  ghost predicate FdsAgree(a: AgentState)
  {
    && a.epoll == {a.sctp, a.pipe} + a.pending.Keys + a.periodic.Keys
    && a.sctp != a.pipe
    && {a.sctp, a.pipe} !! a.pending.Keys
    && {a.sctp, a.pipe} !! a.periodic.Keys
    && a.pending.Keys !! a.periodic.Keys
    && forall fd :: fd in a.epoll ==> fd > 0
  }

  /** Adding a subscription adds its identifier. */
  lemma SubscribeAddsId(a: AgentState, id: GenId, fd: int)
    requires FdsAgree(a) && fd > 0 && fd !in a.epoll
    ensures FdsAgree(SubscribePeriodic(a, id, fd))
    ensures Ids(SubscribePeriodic(a, id, fd)) == Ids(a) + {id}
    ensures Ids(SubscribeAperiodic(a, id)) == Ids(a) + {id}
    ensures Injective(a.periodic) && id !in Ids(a) ==> Injective(SubscribePeriodic(a, id, fd).periodic)
  {
    InsertInjective(a.periodic, fd, id);
  }

  /** No identifier is subscribed twice. */
  ghost predicate IdsUnique(a: AgentState)
  {
    && Injective(a.periodic)
    && (forall id :: a.aperiodic[id] <= 1)
    && forall id :: id in a.aperiodic ==> id !in a.periodic.Values
  }

  /** Identifiers stay unique exactly when the new one is. */
  lemma SubscribeKeepsUniqueIffNew(a: AgentState, id: GenId, fd: int)
    requires FdsAgree(a) && IdsUnique(a) && fd > 0 && fd !in a.epoll
    ensures IdsUnique(SubscribePeriodic(a, id, fd)) <==> id !in Ids(a)
    ensures IdsUnique(SubscribeAperiodic(a, id)) <==> id !in Ids(a)
  {
    InsertInjective(a.periodic, fd, id);
    assert id in a.aperiodic ==> SubscribeAperiodic(a, id).aperiodic[id] > 1;
    assert SubscribePeriodic(a, id, fd).aperiodic == a.aperiodic;
  }

  lemma StopRemovesId(a: AgentState, id: GenId, fd: int)
    requires FdsAgree(a) && IdsUnique(a)
    ensures fd in a.periodic && a.periodic[fd] == id ==>
              var b := StopPeriodic(a, fd); FdsAgree(b) && IdsUnique(b) && Ids(b) == Ids(a) - {id}
    ensures id in a.aperiodic ==>
              var b := StopAperiodic(a, id); FdsAgree(b) && IdsUnique(b) && Ids(b) == Ids(a) - {id}
  {
    if fd in a.periodic && a.periodic[fd] == id {
      ExtractInjective(a.periodic, fd);
    }
    if id in a.aperiodic {
      assert a.aperiodic == multiset{id} + (a.aperiodic - multiset{id});
    }
  }

  datatype AsyncEvent =
    | CheckStopToken
    | NetworkEvent
    | AperiodicIndication
    | IndicationEvent(id: GenId)
    | PendingTimeout(kind: Kind)

  /** The assertions on the way to the branch that a ready descriptor takes. */
  ghost predicate Dispatches(a: AgentState, fd: int)
  {
    fd in {a.sctp, a.pipe} || fd in a.periodic || (|a.pending| == 1 && fd in a.pending)
  }

  /** What a delete comes to: an answer, or the failed assertion of the extraction. */
  datatype DeleteOutcome = Answered(ans: Reply) | OtherEntryMet

  class E2Agent {
    const sctp: int
    const pipe: int
    var epoll: set<int>
    var pending: map<int, Kind>
    var periodic: map<int, GenId>
    var aperiodic: multiset<GenId>
    var transId: nat
    var setupsSent: nat

    ghost function State(): AgentState
      reads this
    {
      AgentState(sctp, pipe, epoll, pending, periodic, aperiodic, transId)
    }

    constructor (sctp: int, pipe: int)
      requires 0 < sctp && 0 < pipe && sctp != pipe
      ensures State() == AgentState(sctp, pipe, {sctp, pipe}, map[], map[], multiset{}, 0) && setupsSent == 0
      ensures FdsAgree(State())
    {
      this.sctp, this.pipe, epoll := sctp, pipe, {sctp, pipe};
      pending, periodic, aperiodic, transId, setupsSent := map[], map[], multiset{}, 0, 0;
    }

    method Start(timer: int)
      requires FdsAgree(State()) && timer > 0 && timer !in epoll
      modifies this
      ensures State() == AddSetupPending(GenerateSetup(old(State())), timer) && FdsAgree(State())
      ensures transId == old(transId) + 1 && setupsSent == old(setupsSent) + 1
    {
      transId := transId + 1;
      epoll := epoll + {timer};
      pending := pending[timer := SetupRequest];
      setupsSent := setupsSent + 1;
    }

    /** `isPeriodic` is what the service model answers. */
    method HandleSubscriptionRequest(id: GenId, isPeriodic: bool, timer: int) returns (ans: Reply)
      requires FdsAgree(State()) && timer > 0 && timer !in epoll
      modifies this
      ensures ans == SubscriptionResp(id) && FdsAgree(State()) && setupsSent == old(setupsSent)
      ensures State() == if isPeriodic then SubscribePeriodic(old(State()), id, timer)
                         else SubscribeAperiodic(old(State()), id)
      ensures Ids(State()) == old(Ids(State())) + {id}
    {
      SubscribeAddsId(State(), id, timer);
      if isPeriodic {
        epoll := epoll + {timer};
        periodic := periodic[timer := id];
      } else {
        aperiodic := aperiodic + multiset{id};
      }
      ans := SubscriptionResp(id);
    }

    /** An unknown identifier is answered like a known one. Under key 0 the left tree may meet any aperiodic
        entry. */
    method HandleSubscriptionDeleteRequest(id: GenId) returns (out: DeleteOutcome)
      modifies this
      ensures setupsSent == old(setupsSent)
      ensures out == Answered(SubscriptionDeleteResp(id)) || (out == OtherEntryMet && !old(StopIndSafe(State(), id)))
      ensures id !in old(Ids(State())) || out == OtherEntryMet ==> State() == old(State())
      ensures id in old(Ids(State())) && out.Answered? ==>
                || (id in old(aperiodic) && State() == StopAperiodic(old(State()), id))
                || exists fd :: && fd in old(periodic) && old(periodic)[fd] == id
                                && State() == StopPeriodic(old(State()), fd)
      ensures old(FdsAgree(State())) ==> FdsAgree(State())
      ensures old(FdsAgree(State()) && IdsUnique(State())) && out.Answered? ==>
                IdsUnique(State()) && Ids(State()) == old(Ids(State())) - {id}
    {
      ghost var was := State();
      if {
        case id in aperiodic =>
          var met :| met in aperiodic;
          if met != id {
            return OtherEntryMet;
          }
          aperiodic := aperiodic - multiset{id};
          assert State() == StopAperiodic(was, id);
          if FdsAgree(was) && IdsUnique(was) {
            StopRemovesId(was, id, 0);
          }
        case id in periodic.Values =>
          ghost var _ := KeyWithValue(periodic, id);
          var fd :| fd in periodic && periodic[fd] == id;
          periodic := periodic - {fd};
          epoll := epoll - {fd};
          assert State() == StopPeriodic(was, fd);
          if FdsAgree(was) && IdsUnique(was) {
            StopRemovesId(was, id, fd);
          }
        case id !in aperiodic && id !in periodic.Values =>
      }
      out := Answered(SubscriptionDeleteResp(id));
    }

    /** What the handler of a setup response asserts. */
    ghost predicate TakesSetupResponse()
      reads this
    {
      SetupRequest in pending.Values && transId > 0
    }

    /** After it no response is taken until the next request, and nothing is pending if one timer was. */
    method HandleSetupResponse()
      requires FdsAgree(State()) && TakesSetupResponse()
      modifies this
      ensures exists fd :: && fd in old(pending) && old(pending)[fd] == SetupRequest
                           && State() == StopSetupPending(old(State()), fd)
      ensures FdsAgree(State()) && setupsSent == old(setupsSent)
      ensures !TakesSetupResponse() && |pending| == |old(pending)| - 1
    {
      ghost var _ := KeyWithValue(pending, SetupRequest);
      var fd :| fd in pending && pending[fd] == SetupRequest;
      assert pending.Keys == (pending - {fd}).Keys + {fd};
      pending := pending - {fd};
      epoll := epoll - {fd};
      transId := 0;
    }

    method HandleShutdown(timer: int)
      requires FdsAgree(State()) && timer > 0 && timer !in epoll
      modifies this
      ensures State() == AddSetupPending(old(State()), timer) && FdsAgree(State())
      ensures setupsSent == old(setupsSent)
    {
      epoll := epoll + {timer};
      pending := pending[timer := SetupRequest];
    }

    /** The event loop on an expired timer, which it asserts to be for a setup request. Another request is
        sent under the same timer, so a response is taken now. */
    method HandlePendingTimeout(fd: int)
      requires FdsAgree(State()) && fd in pending && pending[fd] == SetupRequest
      modifies this
      ensures FdsAgree(State()) && fd in pending && pending == old(pending) && epoll == old(epoll)
      ensures periodic == old(periodic) && aperiodic == old(aperiodic)
      ensures TakesSetupResponse() && transId == old(transId) + 1 && setupsSent == old(setupsSent) + 1
      ensures State() == GenerateSetup(old(State()))
    {
      assert pending[fd] in pending.Values;
      transId := transId + 1;
      setupsSent := setupsSent + 1;
    }

    /** Classifies a ready descriptor; -1 stands for a round without one. */
    method NextAsyncEvent(fd: int) returns (e: AsyncEvent)
      requires FdsAgree(State())
      requires fd == -1 || Dispatches(State(), fd)
      ensures e == CheckStopToken <==> fd == -1
      ensures e == NetworkEvent <==> fd == sctp
      ensures e == AperiodicIndication <==> fd == pipe
      ensures forall id :: e == IndicationEvent(id) <==> fd in periodic && periodic[fd] == id
      ensures forall k :: e == PendingTimeout(k) <==> fd in pending && pending[fd] == k
    {
      if fd == -1 {
        assert fd !in epoll;
        e := CheckStopToken;
      } else if fd == sctp {
        e := NetworkEvent;
      } else if fd == pipe {
        e := AperiodicIndication;
      } else if fd in periodic {
        e := IndicationEvent(periodic[fd]);
      } else {
        assert |pending| == 1;
        e := PendingTimeout(pending[fd]);
      }
    }
  }
}
