/** The near-RT RIC: request identifiers, pending events and their timers. */
module RicProcedures {
  import opened E2ap
  import opened Maps
  import opened PendingEvents

  const FIRST_REQ_ID := 1021
  const ID_SPACE := 0x1_0000

  /** Wrap-around of a 32-bit two's complement integer. */
  function ToInt32(x: int): (r: int)
    ensures -0x8000_0000 <= r < 0x8000_0000 && (x - r) % 0x1_0000_0000 == 0
  {
    (x + 0x8000_0000) % 0x1_0000_0000 - 0x8000_0000
  }

  function ToUint16(x: int): (r: nat)
    ensures r < 65536 && (x - r) % 65536 == 0
  {
    x % ID_SPACE
  }

  /** Storing a 16-bit value through a 16-bit pointer to a 32-bit field keeps the upper half. */
  function WithReqId(id: GenId, r: nat): (id': GenId)
    ensures id'.func == id.func && id'.inst == id.inst
    ensures r < 65536 ==> id'.req % 65536 == r && id'.req / 65536 == id.req / 65536
  {
    id.(req := id.req / ID_SPACE * ID_SPACE + r)
  }

  /** The state that the request procedures work on; every `fd` in `pending` is a timer. */
  datatype RicState = RicState(sctp: int, reqId: int, pending: map<int, Event>, epoll: set<int>)

  /** Apart from the SCTP socket, the RIC waits on exactly the timers of its pending events. */
  ghost predicate TimersAgree(r: RicState)
  {
    && r.sctp !in r.pending
    && r.epoll == {r.sctp} + r.pending.Keys
  }

  // The atomic steps that the request procedures are made of.

  function TakeReqId(r: RicState): RicState { r.(reqId := ToInt32(r.reqId + 1)) }

  function AddTimer(r: RicState, fd: int): RicState { r.(epoll := r.epoll + {fd}) }

  function InsertPending(r: RicState, fd: int, ev: Event): RicState { r.(pending := r.pending[fd := ev]) }

  function ExtractPending(r: RicState, fd: int): RicState { r.(pending := r.pending - {fd}) }

  function RemoveFd(r: RicState, fd: int): RicState { r.(epoll := r.epoll - {fd}) }

  // Request identifiers

  /** The counter after `n` allocations. */
  ghost function Counter(n: nat): int
  {
    if n == 0 then FIRST_REQ_ID else ToInt32(Counter(n - 1) + 1)
  }

  /** The identifier that the allocation with index `n` hands out. */
  ghost function ReqIdAt(n: nat): nat
  {
    ToUint16(Counter(n))
  }

  lemma WrapKeepsLowBits(x: int)
    ensures ToInt32(x) % ID_SPACE == x % ID_SPACE
  {
    var k := (x + 0x8000_0000) / 0x1_0000_0000;
    assert ToInt32(x) == x - k * 0x1_0000 * ID_SPACE;
  }

  lemma Successor(x: int)
    ensures (x + 1) % ID_SPACE == (x % ID_SPACE + 1) % ID_SPACE
  {
  }

  /** The 32-bit wrap-around of the counter is invisible in the 16-bit identifiers. */
  lemma {:induction false} ReqIdAtClosedForm(n: nat)
    ensures ReqIdAt(n) == (1021 + n) % 65536
  {
    if n > 0 {
      ReqIdAtClosedForm(n - 1);
      WrapKeepsLowBits(Counter(n - 1) + 1);
      Successor(Counter(n - 1));
      Successor(FIRST_REQ_ID + n - 1);
    }
  }

  /** Two allocations hand out the same identifier exactly when a multiple of 65536 lies between them. */
  lemma ReqIdsCollide(i: nat, j: nat)
    ensures ReqIdAt(i) == ReqIdAt(j) <==> (i - j) % 65536 == 0
  {
    ReqIdAtClosedForm(i);
    ReqIdAtClosedForm(j);
    Congruent(FIRST_REQ_ID + i, FIRST_REQ_ID + j);
  }

  /** Identifiers have four digits for the first 8979 allocations and the last 21 of each turn. */
  lemma FourDigitAllocations(n: nat)
    ensures 1000 <= ReqIdAt(n) <= 9999 <==> n % 65536 <= 8978 || n % 65536 >= 65515
  {
    ReqIdAtClosedForm(n);
    var m := n % 65536;
    assert (1021 + n) % 65536 == if m < 64515 then 1021 + m else m - 64515;
  }

  lemma Congruent(a: int, b: int)
    ensures a % ID_SPACE == b % ID_SPACE <==> (a - b) % ID_SPACE == 0
  {
  }

  datatype AsyncEvent = CheckStopToken | Network | PendingEvent(ev: Event)

  class NearRic {
    const sctp: int
    var reqId: int
    var pending: map<int, Event>
    var epoll: set<int>
    var sent: seq<(nat, Request)>

    constructor (sctp: int)
      ensures State() == RicState(sctp, FIRST_REQ_ID, map[], {sctp}) && sent == []
      ensures Valid()
    {
      this.sctp := sctp;
      reqId, pending, epoll, sent := FIRST_REQ_ID, map[], {sctp}, [];
    }

    ghost function State(): RicState
      reads this
    {
      RicState(sctp, reqId, pending, epoll)
    }

    ghost predicate Valid()
      reads this
    {
      TimersAgree(State()) && Injective(pending)
    }

    method FwdRicSubscriptionRequest(node: nat, template: GenId, timer: int) returns (id: nat)
      requires Valid() && timer !in epoll
      modifies this
      ensures id == ToUint16(old(reqId))
      ensures sent == old(sent) + [(node, SubscriptionReq(WithReqId(template, id)))]
      ensures State() == InsertPending(AddTimer(TakeReqId(old(State())), timer), timer,
                                       Event(SubscriptionRequest, WithReqId(template, id)))
      ensures TimersAgree(State())
      ensures Valid() <==> Event(SubscriptionRequest, WithReqId(template, id)) !in old(pending).Values
    {
      id := ToUint16(reqId);
      reqId := ToInt32(reqId + 1);
      var ev := Event(SubscriptionRequest, WithReqId(template, id));
      InsertInjective(pending, timer, ev);
      epoll := epoll + {timer};
      pending := pending[timer := ev];
      sent := sent + [(node, SubscriptionReq(ev.id))];
    }

    method FwdRicControlRequest(node: nat, template: GenId, timer: int) returns (id: nat)
      requires Valid() && timer !in epoll
      modifies this
      ensures id == ToUint16(old(reqId))
      ensures sent == old(sent) + [(node, ControlReq(WithReqId(template, id)))]
      ensures State() == InsertPending(AddTimer(TakeReqId(old(State())), timer), timer,
                                       Event(ControlRequest, WithReqId(template, id)))
      ensures TimersAgree(State())
      ensures Valid() <==> Event(ControlRequest, WithReqId(template, id)) !in old(pending).Values
    {
      id := ToUint16(reqId);
      reqId := ToInt32(reqId + 1);
      var ev := Event(ControlRequest, WithReqId(template, id));
      InsertInjective(pending, timer, ev);
      epoll := epoll + {timer};
      pending := pending[timer := ev];
      sent := sent + [(node, ControlReq(ev.id))];
    }

    /** A delete that is already pending is not sent again. */
    method FwdRicSubscriptionRequestDelete(node: nat, id: GenId, timer: int)
      requires Valid() && timer !in epoll
      modifies this
      ensures Valid()
      ensures Event(SubscriptionDeleteRequest, id) in old(pending).Values ==>
                State() == old(State()) && sent == old(sent)
      ensures Event(SubscriptionDeleteRequest, id) !in old(pending).Values ==>
                && State() == InsertPending(AddTimer(old(State()), timer), timer,
                                            Event(SubscriptionDeleteRequest, id))
                && sent == old(sent) + [(node, SubscriptionDeleteReq(id))]
    {
      var ev := Event(SubscriptionDeleteRequest, id);
      if ev in pending.Values {
        return;
      }
      InsertInjective(pending, timer, ev);
      epoll := epoll + {timer};
      pending := pending[timer := ev];
      sent := sent + [(node, SubscriptionDeleteReq(id))];
    }

    /** The tree lookup asserts that the event is there. */
    method StopPendingEvent(ev: Event)
      requires Valid() && ev in pending.Values
      modifies this
      ensures Valid() && sent == old(sent)
      ensures exists fd :: && fd in old(pending) && old(pending)[fd] == ev
                           && State() == RemoveFd(ExtractPending(old(State()), fd), fd)
    {
      ghost var _ := KeyWithValue(pending, ev);
      var fd :| fd in pending && pending[fd] == ev;
      ExtractInjective(pending, fd);
      pending := pending - {fd};
      epoll := epoll - {fd};
    }

    /** The subscription, subscription delete and control answers; indications leave this state alone. */
    method HandleReply(m: Reply)
      requires Valid()
      requires !m.Indication? ==> m.Key() in pending.Values
      modifies this
      ensures Valid() && sent == old(sent) && reqId == old(reqId)
      ensures m.Indication? ==> State() == old(State())
      ensures !m.Indication? ==> pending.Values == old(pending).Values - {m.Key()}
      ensures m.SubscriptionResp? ==> Event(SubscriptionRequest, m.id) !in pending.Values
      ensures m.SubscriptionDeleteResp? ==> Event(SubscriptionDeleteRequest, m.id) !in pending.Values
      ensures m.ControlAck? ==> Event(ControlRequest, m.id) !in pending.Values
      ensures !m.Indication? ==> pending.Keys < old(pending).Keys
      ensures forall fd :: fd in pending ==> fd in old(pending) && pending[fd] == old(pending)[fd]
    {
      if !m.Indication? {
        ghost var was := pending;
        StopPendingEvent(m.Key());
        ghost var fd :| fd in was && was[fd] == m.Key() && pending == was - {fd};
        ExtractInjective(was, fd);
        assert fd in was.Keys && fd !in pending.Keys;
      }
    }

    /** Classifies the ready file descriptors, at most 64 of them; an empty round only polls the stop token. */
    method NextAsioEvent(ready: seq<int>) returns (evs: seq<AsyncEvent>)
      requires Valid() && |ready| <= 64
      requires forall i :: 0 <= i < |ready| ==> ready[i] in epoll
      ensures ready == [] ==> evs == [CheckStopToken]
      ensures ready != [] ==> |evs| == |ready|
      ensures ready != [] ==> forall i :: 0 <= i < |ready| ==>
                && (evs[i] == Network <==> ready[i] == sctp)
                && (forall ev :: evs[i] == PendingEvent(ev) <==> ready[i] in pending && pending[ready[i]] == ev)
    {
      if ready == [] {
        return [CheckStopToken];
      }
      evs := [];
      for i := 0 to |ready|
        invariant |evs| == i
        invariant forall j :: 0 <= j < i ==>
                    && (evs[j] == Network <==> ready[j] == sctp)
                    && (forall ev :: evs[j] == PendingEvent(ev) <==>
                                     ready[j] in pending && pending[ready[j]] == ev)
      {
        if ready[i] == sctp {
          evs := evs + [Network];
        } else {
          // the socket is the only registered descriptor without a pending event
          evs := evs + [PendingEvent(pending[ready[i]])];
        }
      }
    }
  }
}
