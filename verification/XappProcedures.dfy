/** The parts of an xApp that its UI thread and its event loop share: active procedures, pending events
    and the monitor that blocks the UI thread. */
module XappProcedures {
  import opened Maps
  import opened PendingEvents

  datatype Option<T> = None | Some(value: T)

  datatype ProcType = SubscriptionActive | ControlActive

  datatype Procedure = Procedure(kind: ProcType, id: GenId, node: nat)

  /** Active procedures. The key handed out is the request identifier, which the stored identifier lacks
      until the first lookup. */
  class ActiveProcedures {
    var reg: map<nat, Procedure>
    var keyId: nat

    ghost predicate Valid()
      reads this
    {
      1 <= keyId && forall k :: k in reg ==> 1 <= k < keyId
    }

    constructor ()
      ensures Valid() && reg == map[] && keyId == 1
    {
      reg, keyId := map[], 1;
    }

    method Add(kind: ProcType, id: GenId, node: nat) returns (reqId: nat)
      requires Valid()
      modifies this
      ensures Valid() && reqId == old(keyId) && keyId == old(keyId) + 1
      ensures reqId !in old(reg) && reg == old(reg)[reqId := Procedure(kind, id, node)]
    {
      reqId := keyId;
      reg := reg[reqId := Procedure(kind, id, node)];
      keyId := keyId + 1;
    }

    /** Completes the stored identifier with the request identifier. */
    method Find(reqId: nat) returns (ans: Option<Procedure>)
      requires Valid()
      modifies this
      ensures Valid() && keyId == old(keyId)
      ensures reqId !in old(reg) ==> ans == None && reg == old(reg)
      ensures reqId in old(reg) ==>
                && ans == Some(old(reg)[reqId].(id := old(reg)[reqId].id.(req := reqId)))
                && reg == old(reg)[reqId := ans.value]
    {
      if reqId !in reg {
        return None;
      }
      var p := reg[reqId];
      reg := reg[reqId := p.(id := p.id.(req := reqId))];
      ans := Some(reg[reqId]);
    }

    method Remove(reqId: nat)
      requires Valid() && reqId in reg
      modifies this
      ensures Valid() && reg == old(reg) - {reqId} && keyId == old(keyId)
    {
      reg := reg - {reqId};
    }
  }

  ghost predicate OnePerKind(pending: map<int, Event>)
  {
    forall f, g :: f in pending && g in pending && pending[f].kind == pending[g].kind ==> f == g
  }

  /** The right tree of the xApp compares kinds only. Looking up an event that is there finds that event,
      whichever equal-kind entry the tree holds first, exactly when no kind is pending twice. */
  lemma KindLookupIsExactIffOnePerKind(pending: map<int, Event>)
    requires Injective(pending)
    ensures OnePerKind(pending) <==>
              forall ev, fd | && ev in pending.Values && fd in pending
                              && CmpPendingEvent(ev.kind, pending[fd].kind) == 0 ::
                pending[fd] == ev
  {
    if OnePerKind(pending) {
      forall ev, fd | ev in pending.Values && fd in pending && CmpPendingEvent(ev.kind, pending[fd].kind) == 0
        ensures pending[fd] == ev
      {
        var g := KeyWithValue(pending, ev);
        KindComparatorIgnoresId(ev, pending[fd]);
      }
    } else {
      var f, g :| f in pending && g in pending && pending[f].kind == pending[g].kind && f != g;
      assert pending[f] in pending.Values;
      KindComparatorIgnoresId(pending[f], pending[g]);
    }
  }

  lemma AddKeepsOnePerKind(pending: map<int, Event>, fd: int, ev: Event)
    requires fd !in pending
    ensures OnePerKind(pending[fd := ev]) <==>
              OnePerKind(pending) && forall f :: f in pending ==> pending[f].kind != ev.kind
  {
    var p := pending[fd := ev];
    assert p[fd] == ev;
    assert forall f :: f in pending ==> f in p && p[f] == pending[f];
  }

  class PendingEventsXapp {
    var pending: map<int, Event>

    constructor ()
      ensures pending == map[]
    {
      pending := map[];
    }

    method Add(fd: int, ev: Event)
      requires fd > 0 && fd !in pending
      modifies this
      ensures pending == old(pending)[fd := ev]
      ensures OnePerKind(pending) <==>
                old(OnePerKind(pending)) && forall f :: f in old(pending) ==> old(pending)[f].kind != ev.kind
    {
      AddKeepsOnePerKind(pending, fd, ev);
      pending := pending[fd := ev];
    }

    /** Full equality of kind and identifier. */
    method FindEvent(ev: Event) returns (found: bool)
      ensures found <==> exists fd :: fd in pending && pending[fd] == ev
    {
      found := ev in pending.Values;
      if found {
        ghost var fd := KeyWithValue(pending, ev);
      }
    }

    /** Extraction by the kind-only comparator, which asserts that an entry is there. */
    method RemoveEvent(ev: Event) returns (fd: int)
      requires exists f :: f in pending && pending[f].kind == ev.kind
      modifies this
      ensures fd in old(pending) && old(pending)[fd].kind == ev.kind && pending == old(pending) - {fd}
      ensures |old(pending)| == |pending| + 1
      ensures old(OnePerKind(pending)) && ev in old(pending).Values ==> old(pending)[fd] == ev
    {
      fd :| fd in pending && pending[fd].kind == ev.kind;
      if ev in pending.Values {
        ghost var g := KeyWithValue(pending, ev);
      }
      assert pending.Keys == (pending - {fd}).Keys + {fd};
      pending := pending - {fd};
    }
  }

  /** What ends one timed wait on the condition variable: nothing, a signal that ran meanwhile, or the
      deadline. */
  datatype Wakeup = Spurious | Signalled | TimedOut

  class SyncUi {
    var flagSync: bool
    var msgAck: bool

    constructor ()
      ensures !flagSync && !msgAck
    {
      flagSync, msgAck := false, false;
    }

    method Signal()
      modifies this
      ensures flagSync && msgAck
    {
      flagSync, msgAck := true, true;
    }

    /** The flags are reset first, so only a signal among the wake-ups counts. The wait returns normally
        exactly when the first wake-up that is not spurious is a signal. */
    method CondWait(wakeups: seq<Wakeup>) returns (ok: bool)
      requires exists i :: 0 <= i < |wakeups| && wakeups[i] != Spurious
      modifies this
      ensures ok <==> exists i :: && 0 <= i < |wakeups| && wakeups[i] == Signalled
                                  && forall j :: 0 <= j < i ==> wakeups[j] == Spurious
      ensures flagSync == msgAck == ok
    {
      flagSync, msgAck := false, false;
      var timedOut := false;
      ghost var last :| 0 <= last < |wakeups| && wakeups[last] != Spurious;
      var i := 0;
      while !flagSync && !timedOut
        invariant 0 <= i <= last + 1
        invariant flagSync == msgAck && !(flagSync && timedOut)
        invariant !flagSync && !timedOut ==> i <= last && forall j :: 0 <= j < i ==> wakeups[j] == Spurious
        invariant flagSync || timedOut ==>
                    && 0 < i && wakeups[i - 1] == (if flagSync then Signalled else TimedOut)
                    && forall j :: 0 <= j < i - 1 ==> wakeups[j] == Spurious
        decreases last + 1 - i
      {
        match wakeups[i] {
          case Signalled => Signal();
          case TimedOut => timedOut := true;
          case Spurious =>
        }
        i := i + 1;
      }
      ok := flagSync;
    }
  }
}
