/** Runs of one agent's event loop: when every ready descriptor can be dispatched and every setup answer
    finds the timer it stops. */
module AgentRuns {
  import opened AgentProcedures
  import opened PendingEvents

  /** What the loop meets. `fd` is a new timer, or the key that the lookup of a handler finds: for a delete
      the key beside the identifier in the right tree, which is 0 for an aperiodic subscription. `met` is
      the entry that the left tree then meets under key 0. */
  datatype LoopEvent =
    | SetupResponse(fd: int)
    | Shutdown(fd: int)
    | SetupTimeout(fd: int)
    | Subscription(id: GenId, isPeriodic: bool, fd: int)
    | Delete(id: GenId, fd: int, met: GenId)

  /** What the operating system and the trees guarantee about `fd`. */
  ghost predicate Possible(a: AgentState, e: LoopEvent)
  {
    match e
    case SetupResponse(fd) => a.pending != map[] ==> fd in a.pending
    case Shutdown(fd) => fd > 0 && fd !in a.epoll
    case SetupTimeout(fd) => fd in a.pending
    case Subscription(_, isPeriodic, fd) => isPeriodic ==> fd > 0 && fd !in a.epoll
    case Delete(id, fd, met) =>
      id in Ids(a) ==>
        || (fd in a.periodic && a.periodic[fd] == id)
        || (fd == 0 && id in a.aperiodic && met in a.aperiodic)
  }

  datatype Outcome = Ok(a: AgentState) | AssertionFailed

  /** One round of the loop, with the assertions of the dispatch and of the handler. */
  ghost function Handle(a: AgentState, e: LoopEvent): Outcome
  {
    match e
    case SetupResponse(fd) =>
      if fd in a.pending && a.pending[fd] == SetupRequest && a.transId > 0 then Ok(StopSetupPending(a, fd))
      else AssertionFailed
    case Shutdown(fd) => Ok(AddSetupPending(a, fd))
    case SetupTimeout(fd) =>
      if |a.pending| == 1 && fd in a.pending && a.pending[fd] == SetupRequest then Ok(GenerateSetup(a))
      else AssertionFailed
    case Subscription(id, isPeriodic, fd) =>
      Ok(if isPeriodic then SubscribePeriodic(a, id, fd) else SubscribeAperiodic(a, id))
    case Delete(id, fd, met) =>
      if id !in Ids(a) then Ok(a)
      else if fd != 0 then Ok(StopPeriodic(a, fd))
      else if met == id then Ok(StopAperiodic(a, id))
      else AssertionFailed
  }

  ghost function Exec(a0: AgentState, es: seq<LoopEvent>): Outcome
  {
    if es == [] then Ok(a0)
    else
      match Exec(a0, es[..|es| - 1])
      case AssertionFailed => AssertionFailed
      case Ok(a) => Handle(a, es[|es| - 1])
  }

  ghost predicate PossibleRun(a0: AgentState, es: seq<LoopEvent>)
  {
    es != [] ==>
      && PossibleRun(a0, es[..|es| - 1])
      && (Exec(a0, es[..|es| - 1]).Ok? ==> Possible(Exec(a0, es[..|es| - 1]).a, es[|es| - 1]))
  }

  /** Every descriptor the agent waits on takes a branch of the dispatch. */
  ghost predicate DispatchTotal(a: AgentState)
  {
    forall fd :: fd in a.epoll ==> Dispatches(a, fd)
  }

  /** No assertion fails in the run, and none would fail whichever descriptor became ready in between. */
  ghost predicate Safe(a0: AgentState, es: seq<LoopEvent>)
  {
    && (es != [] ==> Safe(a0, es[..|es| - 1]))
    && Exec(a0, es).Ok? && DispatchTotal(Exec(a0, es).a)
  }

  // What the RIC side has to respect

  /** A setup response is awaited from the start and from each shutdown on. */
  predicate Awaiting(es: seq<LoopEvent>)
  {
    if es == [] then true
    else
      match es[|es| - 1]
      case SetupResponse(_) => false
      case Shutdown(_) => true
      case _ => Awaiting(es[..|es| - 1])
  }

  /** A setup request was sent since the last response; after a shutdown the timer has to expire first. */
  predicate RequestSent(es: seq<LoopEvent>)
  {
    if es == [] then true
    else
      match es[|es| - 1]
      case SetupResponse(_) => false
      case SetupTimeout(_) => true
      case _ => RequestSent(es[..|es| - 1])
  }

  /** The aperiodic subscriptions that were made and not stopped. */
  function Aperiodic(es: seq<LoopEvent>): multiset<GenId>
  {
    if es == [] then multiset{}
    else
      var before := Aperiodic(es[..|es| - 1]);
      match es[|es| - 1]
      case Subscription(id, isPeriodic, _) => if isPeriodic then before else before + multiset{id}
      case Delete(id, fd, _) => if fd == 0 then before - multiset{id} else before
      case _ => before
  }

  /** Setup responses answer an awaited request, shutdowns follow a setup response, and the delete of an
      aperiodic subscription meets the entry of that subscription. */
  predicate Orderly(es: seq<LoopEvent>)
  {
    es != [] ==>
      var before := es[..|es| - 1];
      && Orderly(before)
      && match es[|es| - 1]
         case SetupResponse(_) => Awaiting(before) && RequestSent(before)
         case Shutdown(_) => !Awaiting(before)
         case Delete(id, fd, met) => fd == 0 && id in Aperiodic(before) ==> met == id
         case _ => true
  }

  ghost predicate Started(a: AgentState)
  {
    && FdsAgree(a) && a.periodic == map[] && a.aperiodic == multiset{} && a.transId == 1
    && OneSetupTimer(a.pending)
  }

  ghost predicate OneSetupTimer(pending: map<int, Kind>)
  {
    exists fd :: pending == map[fd := SetupRequest]
  }

  ghost predicate Inv(a: AgentState, es: seq<LoopEvent>)
  {
    && FdsAgree(a)
    && (if Awaiting(es) then OneSetupTimer(a.pending) else a.pending == map[])
    && (a.transId > 0 <==> RequestSent(es))
    && a.aperiodic == Aperiodic(es)
  }

  lemma InvIsTotal(a: AgentState, es: seq<LoopEvent>)
    requires Inv(a, es)
    ensures DispatchTotal(a)
  {
    if Awaiting(es) {
      var timer :| a.pending == map[timer := SetupRequest];
      forall fd | fd in a.epoll ensures Dispatches(a, fd) {
        assert fd in a.pending ==> fd == timer;
      }
    }
  }

  lemma TwoTimersAreStuck(a: AgentState, fd: int)
    requires FdsAgree(a) && fd !in a.epoll && OneSetupTimer(a.pending)
    ensures !DispatchTotal(AddSetupPending(a, fd))
  {
    var b := AddSetupPending(a, fd);
    var timer :| a.pending == map[timer := SetupRequest];
    assert timer in a.epoll;
    assert b.pending.Keys == {timer, fd};
    assert |b.pending| == |b.pending.Keys| == 2;
    assert fd in b.epoll && !Dispatches(b, fd);
  }

  lemma HandleShutdown(a: AgentState, es: seq<LoopEvent>, fd: int)
    requires Inv(a, es) && Possible(a, Shutdown(fd))
    ensures !Awaiting(es) ==> FdsAgree(AddSetupPending(a, fd)) && OneSetupTimer(AddSetupPending(a, fd).pending)
    ensures Awaiting(es) ==> !DispatchTotal(AddSetupPending(a, fd))
  {
    if Awaiting(es) {
      TwoTimersAreStuck(a, fd);
    } else {
      assert AddSetupPending(a, fd).pending == map[fd := SetupRequest];
    }
  }

  lemma HandleSetupResponse(a: AgentState, es: seq<LoopEvent>, fd: int)
    requires Inv(a, es) && Possible(a, SetupResponse(fd))
    ensures Awaiting(es) && RequestSent(es) <==> Handle(a, SetupResponse(fd)).Ok?
    ensures Handle(a, SetupResponse(fd)).Ok? ==>
              FdsAgree(StopSetupPending(a, fd)) && StopSetupPending(a, fd).pending == map[]
  {
    if Awaiting(es) {
      var timer :| a.pending == map[timer := SetupRequest];
      assert a.pending - {timer} == map[];
    }
  }

  lemma History(es: seq<LoopEvent>, e: LoopEvent)
    ensures Awaiting(es + [e]) == if e.SetupResponse? then false else if e.Shutdown? then true else Awaiting(es)
    ensures RequestSent(es + [e]) ==
            if e.SetupResponse? then false else if e.SetupTimeout? then true else RequestSent(es)
    ensures Orderly(es + [e]) <==>
              && Orderly(es)
              && (e.SetupResponse? ==> Awaiting(es) && RequestSent(es))
              && (e.Shutdown? ==> !Awaiting(es))
              && (e.Delete? && e.fd == 0 && e.id in Aperiodic(es) ==> e.met == e.id)
    ensures Aperiodic(es + [e]) ==
            if e.Subscription? && !e.isPeriodic then Aperiodic(es) + multiset{e.id}
            else if e.Delete? && e.fd == 0 then Aperiodic(es) - multiset{e.id}
            else Aperiodic(es)
  {
    assert (es + [e])[..|es + [e]| - 1] == es;
  }

  lemma HandleSubscription(a: AgentState, e: LoopEvent)
    requires FdsAgree(a) && Possible(a, e) && e.Subscription?
    ensures Handle(a, e).Ok? && FdsAgree(Handle(a, e).a)
    ensures Handle(a, e).a.pending == a.pending && Handle(a, e).a.transId == a.transId
    ensures Handle(a, e).a.aperiodic == if e.isPeriodic then a.aperiodic else a.aperiodic + multiset{e.id}
  {
    if e.isPeriodic {
      SubscribeAddsId(a, e.id, e.fd);
    }
  }

  lemma HandleDelete(a: AgentState, e: LoopEvent)
    requires FdsAgree(a) && Possible(a, e) && e.Delete?
    ensures Handle(a, e).Ok? <==> (e.fd == 0 && e.id in a.aperiodic ==> e.met == e.id)
    ensures var out := Handle(a, e);
            out.Ok? ==>
              && FdsAgree(out.a) && out.a.pending == a.pending && out.a.transId == a.transId
              && out.a.aperiodic == if e.fd == 0 then a.aperiodic - multiset{e.id} else a.aperiodic
  {
    assert 0 !in a.periodic by {
      assert 0 in a.periodic ==> 0 in a.epoll;
    }
    assert e.id in a.aperiodic ==> e.id in Ids(a);
  }

  lemma HandleStep(a: AgentState, es: seq<LoopEvent>, e: LoopEvent)
    requires Inv(a, es) && Possible(a, e) && Orderly(es)
    ensures Orderly(es + [e]) ==> Handle(a, e).Ok? && Inv(Handle(a, e).a, es + [e])
    ensures !Orderly(es + [e]) ==> Handle(a, e).AssertionFailed? || !DispatchTotal(Handle(a, e).a)
  {
    History(es, e);
    match e {
      case SetupResponse(fd) => HandleSetupResponse(a, es, fd);
      case Shutdown(fd) => HandleShutdown(a, es, fd);
      case SetupTimeout(fd) =>
      case Subscription(_, _, _) => HandleSubscription(a, e);
      case Delete(_, _, _) => HandleDelete(a, e);
    }
  }

  /** A run of the loop is safe exactly when the setup responses, shutdowns and deletes in it are orderly. */
  lemma {:induction false} SafeIffOrderly(a0: AgentState, es: seq<LoopEvent>)
    requires Started(a0) && PossibleRun(a0, es)
    ensures Safe(a0, es) <==> Orderly(es)
    ensures Orderly(es) ==> Exec(a0, es).Ok? && Inv(Exec(a0, es).a, es)
  {
    if es == [] {
      InvIsTotal(a0, es);
    } else {
      var before, e := es[..|es| - 1], es[|es| - 1];
      assert es == before + [e];
      SafeIffOrderly(a0, before);
      if Orderly(before) {
        var a := Exec(a0, before).a;
        HandleStep(a, before, e);
        if Orderly(es) {
          InvIsTotal(Handle(a, e).a, es);
        }
      }
    }
  }

  /** In an orderly run the descriptors are the socket, the pipe, the setup timer while a response is
      awaited and the periodic subscriptions; each takes exactly one branch, its own. */
  lemma OneBranchPerFd(a0: AgentState, es: seq<LoopEvent>)
    requires Started(a0) && PossibleRun(a0, es) && Orderly(es)
    ensures Exec(a0, es).Ok?
    ensures var a := Exec(a0, es).a;
            && (if Awaiting(es) then OneSetupTimer(a.pending) else a.pending == map[])
            && forall fd :: fd in a.epoll ==>
                 && Dispatches(a, fd)
                 && (fd in {a.sctp, a.pipe} ==> fd !in a.periodic && fd !in a.pending)
                 && (fd in a.periodic ==> fd !in a.pending)
  {
    SafeIffOrderly(a0, es);
  }

  // What the events do to the identifiers that the agent holds

  lemma SubscriptionAdds(a: AgentState, id: GenId, isPeriodic: bool, fd: int)
    requires FdsAgree(a) && Possible(a, Subscription(id, isPeriodic, fd))
    ensures var b := Handle(a, Subscription(id, isPeriodic, fd)).a;
            && Ids(b) == Ids(a) + {id}
            && b.periodic == if isPeriodic then a.periodic[fd := id] else a.periodic
  {
    if isPeriodic {
      SubscribeAddsId(a, id, fd);
    }
  }

  /** A delete that does not fail removes its identifier and no other. */
  lemma DeleteRemoves(a: AgentState, id: GenId, fd: int, met: GenId)
    requires FdsAgree(a) && IdsUnique(a) && Possible(a, Delete(id, fd, met))
    requires Handle(a, Delete(id, fd, met)).Ok?
    ensures Ids(Handle(a, Delete(id, fd, met)).a) == Ids(a) - {id}
  {
    if id in Ids(a) {
      StopRemovesId(a, id, fd);
    }
  }

  // Deletes of aperiodic subscriptions

  /** Whatever the trees find for it, the delete passes. */
  ghost predicate DeletePasses(a: AgentState, id: GenId)
  {
    forall fd, met :: Possible(a, Delete(id, fd, met)) ==> Handle(a, Delete(id, fd, met)).Ok?
  }

  ghost predicate NoOther(ids: multiset<GenId>, id: GenId)
  {
    id in ids ==> forall other :: other in ids ==> other == id
  }

  /** Where nothing is known of the shape of the tree, so that it may meet any entry under key 0, a delete is
      sure to pass exactly when its subscription is not aperiodic or is the only aperiodic one, which the
      sender can tell from what it has subscribed and deleted. */
  lemma DeletePassesIffNoOther(a0: AgentState, es: seq<LoopEvent>, id: GenId)
    requires Started(a0) && PossibleRun(a0, es) && Orderly(es)
    ensures Exec(a0, es).Ok?
    ensures DeletePasses(Exec(a0, es).a, id) <==> NoOther(Aperiodic(es), id)
    ensures NoOther(Aperiodic(es), id) <==> StopIndSafe(Exec(a0, es).a, id)
  {
    SafeIffOrderly(a0, es);
    var a := Exec(a0, es).a;
    if NoOther(Aperiodic(es), id) {
      forall fd, met | Possible(a, Delete(id, fd, met)) ensures Handle(a, Delete(id, fd, met)).Ok? {
        HandleDelete(a, Delete(id, fd, met));
      }
    } else {
      var other :| other in a.aperiodic && other != id;
      assert Possible(a, Delete(id, 0, other));
      HandleDelete(a, Delete(id, 0, other));
    }
  }

  /** Of two aperiodic subscriptions the second cannot be deleted first: the tree puts an equal key to the
      right and meets the node nearest the root, which is the first. */
  lemma TwoAperiodicCanFail(a0: AgentState, id: GenId, other: GenId)
    requires Started(a0) && id != other
    ensures var es := [Subscription(id, false, 0), Subscription(other, false, 0), Delete(other, 0, id)];
            PossibleRun(a0, es) && Exec(a0, es).AssertionFailed? && Orderly(es[..2])
  {
    var e1, e2, e3 := Subscription(id, false, 0), Subscription(other, false, 0), Delete(other, 0, id);
    var es := [e1, e2, e3];
    assert es[..2] == [e1, e2] && [e1, e2][..1] == [e1] && [e1][..0] == [];
    assert PossibleRun(a0, []) && Exec(a0, []) == Ok(a0);
    assert PossibleRun(a0, [e1]) && Exec(a0, [e1]) == Ok(SubscribeAperiodic(a0, id));
    assert PossibleRun(a0, [e1, e2]);
    var a := SubscribeAperiodic(SubscribeAperiodic(a0, id), other);
    assert Exec(a0, [e1, e2]) == Ok(a) && id in a.aperiodic && other in a.aperiodic;
    HandleDelete(a, e3);
  }
}
