/** One xApp with one synchronous caller: the UI thread, the event loop and the iApp that answers every
    request once, interleaved at their locks, system calls and messages. */
module XappRuns {
  import opened Maps
  import opened PendingEvents
  import opened XappProcedures

  const MAX_REQ_ID := 0x1_0000

  datatype Op = Report | Control | Remove

  function KindOf(op: Op): Kind
  {
    match op
    case Report => E42SubscriptionRequest
    case Control => E42ControlRequest
    case Remove => E42SubscriptionDeleteRequest
  }

  /** The UI thread. Report and control insert the pending event and then send; remove sends first. */
  datatype Ui =
    | Ready
    | Begun(op: Op, id: GenId)                 // the active procedure is known
    | TimerMade(op: Op, id: GenId, fd: int)
    | Added(op: Op, id: GenId)                 // the pending event is there, not sent yet
    | SentFirst(id: GenId)                     // remove: sent, no timer yet
    | Calling(op: Op, id: GenId)               // sent and pending, about to wait
    | Blocked(op: Op, id: GenId)               // flags reset, in the wait loop
    | Woken(op: Op, id: GenId)                 // the wait loop saw the flag
    | Aborted                                  // the deadline passed and an assertion failed

  datatype Loop = Idle | Matched(ev: Event) | Extracted(fd: int) | Closed

  datatype Reply = Reply(kind: Kind, req: nat)

  /** `subscribed` is bookkeeping of the model: the reports that returned and were not removed. */
  datatype Xapp = Xapp(sctp: int, epoll: set<int>, pending: map<int, Event>, reg: map<nat, GenId>, keyId: nat,
                       connected: bool, flag: bool, ack: bool, ui: Ui, loop: Loop,
                       outbox: seq<Event>, inbox: seq<Reply>, setupsOut: nat, setupsIn: nat, subscribed: set<nat>)

  datatype Action =
    | StartReport(func: nat)
    | StartControl(func: nat)
    | StartRemove(req: nat)
    | MakeTimer(fd: int)
    | Insert
    | Send
    | ResetFlags
    | Wake
    | Timeout
    | Return
    | IappAnswer(i: nat)
    | IappSetup
    | Match
    | Extract(fd: int)
    | CloseTimer
    | Signal
    | SetupResponse(fd: int)
    | SetupTimeout

  // The UI thread

  function StartNew(s: Xapp, op: Op, func: nat): Xapp
  {
    if s.ui.Ready? && s.keyId < MAX_REQ_ID
    then s.(reg := s.reg[s.keyId := GenId(0, 0, func)], keyId := s.keyId + 1,
            ui := Begun(op, GenId(s.keyId, 0, func)))
    else s
  }

  function DoStartRemove(s: Xapp, r: nat): Xapp
  {
    if s.ui.Ready? && r in s.reg
    then s.(reg := s.reg[r := s.reg[r].(req := r)], ui := Begun(Remove, s.reg[r].(req := r)))
    else s
  }

  function DoMakeTimer(s: Xapp, fd: int): Xapp
  {
    if fd in s.epoll then s
    else
      match s.ui
      case Begun(op, id) =>
        if op == Remove then s else s.(epoll := s.epoll + {fd}, ui := TimerMade(op, id, fd))
      case SentFirst(id) => s.(epoll := s.epoll + {fd}, ui := TimerMade(Remove, id, fd))
      case _ => s
  }

  function DoInsert(s: Xapp): Xapp
  {
    match s.ui
    case TimerMade(op, id, fd) =>
      s.(pending := s.pending[fd := Event(KindOf(op), id)],
         ui := if op == Remove then Calling(op, id) else Added(op, id))
    case _ => s
  }

  function DoSend(s: Xapp): Xapp
  {
    match s.ui
    case Added(op, id) => s.(outbox := s.outbox + [Event(KindOf(op), id)], ui := Calling(op, id))
    case Begun(op, id) =>
      if op == Remove then s.(outbox := s.outbox + [Event(KindOf(op), id)], ui := SentFirst(id)) else s
    case _ => s
  }

  function DoResetFlags(s: Xapp): Xapp
  {
    if s.ui.Calling? then s.(flag := false, ack := false, ui := Blocked(s.ui.op, s.ui.id)) else s
  }

  /** A wake-up without the flag goes back to waiting. */
  function DoWake(s: Xapp): Xapp
  {
    if s.ui.Blocked? && s.flag then s.(ui := Woken(s.ui.op, s.ui.id)) else s
  }

  /** The acknowledgement is asserted; a report stays active. */
  function DoReturn(s: Xapp): Xapp
  {
    if s.ui.Woken? && s.ack
    then
      var r := s.ui.id.req;
      match s.ui.op
      case Report => s.(ui := Ready, subscribed := s.subscribed + {r})
      case Control => s.(ui := Ready, reg := s.reg - {r})
      case Remove => s.(ui := Ready, reg := s.reg - {r}, subscribed := s.subscribed - {r})
    else s
  }

  // The iApp and the event loop

  function DoIappAnswer(s: Xapp, i: nat): Xapp
  {
    if i < |s.outbox|
    then s.(outbox := s.outbox[..i] + s.outbox[i + 1..],
            inbox := s.inbox + [Reply(s.outbox[i].kind, s.outbox[i].id.req)])
    else s
  }

  /** Finds the active procedure of the answer and completes its identifier. */
  function DoMatch(s: Xapp): Xapp
  {
    if s.loop.Idle? && s.inbox != [] && s.inbox[0].req in s.reg
    then
      var id := s.reg[s.inbox[0].req].(req := s.inbox[0].req);
      s.(inbox := s.inbox[1..], reg := s.reg[s.inbox[0].req := id], loop := Matched(Event(s.inbox[0].kind, id)))
    else s
  }

  /** `fd` is any entry of the kind: the comparator looks at nothing else. */
  function DoExtract(s: Xapp, fd: int): Xapp
  {
    if s.loop.Matched? && fd in s.pending && s.pending[fd].kind == s.loop.ev.kind
    then s.(pending := s.pending - {fd}, loop := Extracted(fd))
    else s
  }

  function DoCloseTimer(s: Xapp): Xapp
  {
    if s.loop.Extracted? then s.(epoll := s.epoll - {s.loop.fd}, loop := Closed) else s
  }

  function DoSignal(s: Xapp): Xapp
  {
    if s.loop.Closed? then s.(flag := true, ack := true, loop := Idle) else s
  }

  /** Only the first setup response counts. */
  function DoSetupResponse(s: Xapp, fd: int): Xapp
  {
    if s.loop.Idle? && s.setupsIn > 0
    then
      if s.connected then s.(setupsIn := s.setupsIn - 1)
      else if fd in s.pending && s.pending[fd].kind == E42SetupRequest
      then s.(setupsIn := s.setupsIn - 1, pending := s.pending - {fd}, epoll := s.epoll - {fd}, connected := true)
      else s
    else s
  }

  function DoSetupTimeout(s: Xapp): Xapp
  {
    if s.loop.Idle? && !s.connected then s.(setupsOut := s.setupsOut + 1) else s
  }

  function Next(s: Xapp, a: Action): Xapp
  {
    if s.ui.Aborted? then s
    else
      match a
      case StartReport(func) => StartNew(s, Report, func)
      case StartControl(func) => StartNew(s, Control, func)
      case StartRemove(r) => DoStartRemove(s, r)
      case MakeTimer(fd) => DoMakeTimer(s, fd)
      case Insert => DoInsert(s)
      case Send => DoSend(s)
      case ResetFlags => DoResetFlags(s)
      case Wake => DoWake(s)
      case Timeout => if s.ui.Blocked? then s.(ui := Aborted) else s
      case Return => DoReturn(s)
      case IappAnswer(i) => DoIappAnswer(s, i)
      case IappSetup => if s.setupsOut > 0 then s.(setupsOut := s.setupsOut - 1, setupsIn := s.setupsIn + 1) else s
      case Match => DoMatch(s)
      case Extract(fd) => DoExtract(s, fd)
      case CloseTimer => DoCloseTimer(s)
      case Signal => DoSignal(s)
      case SetupResponse(fd) => DoSetupResponse(s, fd)
      case SetupTimeout => DoSetupTimeout(s)
  }

  /** The setup request is sent and pending before the loop starts. */
  ghost predicate Init(s: Xapp)
  {
    exists fd :: && fd != s.sctp
                 && s == Xapp(s.sctp, {s.sctp, fd}, map[fd := Event(E42SetupRequest, GenId(0, 0, 0))], map[], 1,
                              false, false, false, Ready, Idle, [], [], 1, 0, {})
  }

  // The invariant

  /** The event of the call in progress. */
  function Asked(ui: Ui): Event
    requires !ui.Ready? && !ui.Aborted?
  {
    if ui.SentFirst? then Event(KindOf(Remove), ui.id) else Event(KindOf(ui.op), ui.id)
  }

  ghost predicate Quiet(s: Xapp)
  {
    s.outbox == [] && s.inbox == [] && s.loop == Idle
  }

  /** The request or its answer is on the way, once. */
  ghost predicate OnTheWay(s: Xapp, ev: Event)
  {
    || (s.outbox == [ev] && s.inbox == [] && s.loop == Idle)
    || (s.outbox == [] && s.inbox == [Reply(ev.kind, ev.id.req)] && s.loop == Idle)
    || (s.outbox == [] && s.inbox == [] && s.loop == Matched(ev))
  }

  /** The answer is handled, up to the signal. */
  ghost predicate Handling(s: Xapp)
  {
    s.outbox == [] && s.inbox == [] && (s.loop.Extracted? || s.loop.Closed?)
  }

  ghost predicate CallInv(s: Xapp)
  {
    var here := !s.ui.Ready? && !s.ui.Aborted? && Asked(s.ui) in s.pending.Values;
    match s.ui
    case Ready => Quiet(s)
    case Begun(_, _) => Quiet(s) && !here
    case TimerMade(op, _, _) => (if op == Remove then OnTheWay(s, Asked(s.ui)) else Quiet(s)) && !here
    case Added(op, _) => op != Remove && Quiet(s) && here
    case SentFirst(_) => OnTheWay(s, Asked(s.ui)) && !here
    case Calling(_, _) => if here then OnTheWay(s, Asked(s.ui)) else Handling(s) || Quiet(s)
    case Blocked(_, _) =>
      if here then OnTheWay(s, Asked(s.ui)) && !s.flag else (Handling(s) && !s.flag) || Quiet(s)
    case Woken(_, _) => Quiet(s) && !here && s.flag
    case Aborted => true
  }

  ghost predicate PendingInv(s: Xapp)
  {
    && OnePerKind(s.pending)
    && (forall fd :: fd in s.pending ==>
          || s.pending[fd].kind == E42SetupRequest
          || (!s.ui.Ready? && !s.ui.Aborted? && s.pending[fd] == Asked(s.ui)))
    && (s.connected <==> forall fd :: fd in s.pending ==> s.pending[fd].kind != E42SetupRequest)
  }

  ghost predicate FdInv(s: Xapp)
  {
    var made := if s.ui.TimerMade? then {s.ui.fd} else {};
    var gone := if s.loop.Extracted? then {s.loop.fd} else {};
    && s.epoll == {s.sctp} + s.pending.Keys + made + gone
    && s.sctp !in s.pending.Keys + made + gone
    && s.pending.Keys !! made && s.pending.Keys !! gone && made !! gone
  }

  ghost predicate RegInv(s: Xapp)
  {
    && s.flag == s.ack
    && (forall r :: r in s.reg ==> r < s.keyId)
    && (!s.ui.Ready? && !s.ui.Aborted? ==>
          s.ui.id.req in s.reg && s.reg[s.ui.id.req].(req := s.ui.id.req) == s.ui.id)
    && (!s.ui.Aborted? ==> s.reg.Keys == s.subscribed + Claimed(s.ui) && s.subscribed !! Claimed(s.ui))
    && (!s.ui.Ready? && !s.ui.Aborted? && Claimed(s.ui) == {} ==> s.ui.id.req in s.subscribed)
  }

  /** The request identifier of a report or control call in progress. */
  function Claimed(ui: Ui): set<nat>
  {
    if ui.Ready? || ui.Aborted? || ui.SentFirst? || ui.op == Remove then {} else {ui.id.req}
  }

  ghost predicate Inv(s: Xapp)
  {
    s.ui.Aborted? || (CallInv(s) && PendingInv(s) && FdInv(s) && RegInv(s))
  }

  lemma InitInv(s: Xapp)
    requires Init(s)
    ensures Inv(s)
  {
    var fd :| && fd != s.sctp
              && s == Xapp(s.sctp, {s.sctp, fd}, map[fd := Event(E42SetupRequest, GenId(0, 0, 0))], map[], 1,
                           false, false, false, Ready, Idle, [], [], 1, 0, {});
    assert s.pending[fd].kind == E42SetupRequest;
  }

  /** Between calls nothing but the setup request can be pending. */
  lemma NotPendingBeforeStart(s: Xapp, ev: Event)
    requires PendingInv(s) && s.ui.Ready? && ev.kind != E42SetupRequest
    ensures ev !in s.pending.Values
  {
    if ev in s.pending.Values {
      var fd := KeyWithValue(s.pending, ev);
    }
  }

  lemma StartInv(s: Xapp, a: Action)
    requires Inv(s) && !s.ui.Aborted? && (a.StartReport? || a.StartControl? || a.StartRemove?)
    ensures Inv(Next(s, a))
  {
    var t := Next(s, a);
    if t.ui.Begun? && s.ui.Ready? {
      NotPendingBeforeStart(s, Asked(t.ui));
      assert PendingInv(t);
      assert RegInv(t);
    }
  }

  lemma InsertInv(s: Xapp)
    requires Inv(s) && s.ui.TimerMade?
    ensures Inv(DoInsert(s))
  {
    var ev, fd, t := Asked(s.ui), s.ui.fd, DoInsert(s);
    assert fd !in s.pending;
    forall f | f in s.pending ensures s.pending[f].kind != ev.kind {
      assert s.pending[f] in s.pending.Values;
    }
    AddKeepsOnePerKind(s.pending, fd, ev);
    InsertInjective(s.pending, fd, ev);
    assert t.pending == s.pending[fd := ev];
    assert PendingInv(t) by {
      assert forall f :: f in s.pending ==> f in t.pending && t.pending[f] == s.pending[f];
    }
  }

  lemma MakeTimerInv(s: Xapp, fd: int)
    requires Inv(s) && !s.ui.Aborted?
    ensures Inv(DoMakeTimer(s, fd))
  {
  }

  lemma SendInv(s: Xapp)
    requires Inv(s) && !s.ui.Aborted?
    ensures Inv(DoSend(s))
  {
  }

  lemma WaitInv(s: Xapp, a: Action)
    requires Inv(s) && !s.ui.Aborted? && (a.ResetFlags? || a.Wake? || a.Timeout? || a.Return?)
    ensures Inv(Next(s, a))
  {
  }

  lemma ValuesOfRest(s: Xapp, fd: int)
    requires OnePerKind(s.pending) && fd in s.pending
    ensures (s.pending - {fd}).Values == s.pending.Values - {s.pending[fd]}
  {
    assert Injective(s.pending) by {
      forall f, g | f in s.pending && g in s.pending && s.pending[f] == s.pending[g] ensures f == g {
        assert s.pending[f].kind == s.pending[g].kind;
      }
    }
    ExtractInjective(s.pending, fd);
  }

  lemma ExtractInv(s: Xapp, fd: int)
    requires Inv(s) && !s.ui.Aborted?
    ensures Inv(DoExtract(s, fd))
  {
    var t := DoExtract(s, fd);
    if t != s {
      assert s.pending[fd] in s.pending.Values;
      assert s.pending[fd] == Asked(s.ui);
      ValuesOfRest(s, fd);
      assert CallInv(t);
      if !s.connected {
        var g :| g in s.pending && s.pending[g].kind == E42SetupRequest;
        assert g in t.pending && t.pending[g].kind == E42SetupRequest;
      }
      assert PendingInv(t);
      assert FdInv(t);
    }
  }

  ghost predicate Connects(s: Xapp, fd: int)
  {
    s.loop.Idle? && s.setupsIn > 0 && !s.connected && fd in s.pending && s.pending[fd].kind == E42SetupRequest
  }

  lemma ConnectingKeepsPending(s: Xapp, fd: int)
    requires PendingInv(s) && Connects(s, fd)
    ensures PendingInv(DoSetupResponse(s, fd))
  {
  }

  /** The call in progress does not notice that the setup request is answered. */
  lemma ConnectingKeepsCall(s: Xapp, fd: int)
    requires CallInv(s) && PendingInv(s) && Connects(s, fd)
    ensures CallInv(DoSetupResponse(s, fd))
  {
    ValuesOfRest(s, fd);
  }

  lemma SetupResponseInv(s: Xapp, fd: int)
    requires Inv(s) && !s.ui.Aborted?
    ensures Inv(DoSetupResponse(s, fd))
  {
    if Connects(s, fd) {
      ConnectingKeepsPending(s, fd);
      ConnectingKeepsCall(s, fd);
    }
  }

  lemma IappInv(s: Xapp, a: Action)
    requires Inv(s) && !s.ui.Aborted? && (a.IappAnswer? || a.IappSetup? || a.SetupTimeout?)
    ensures Inv(Next(s, a))
  {
  }

  lemma LoopInv(s: Xapp, a: Action)
    requires Inv(s) && !s.ui.Aborted? && (a.Match? || a.CloseTimer? || a.Signal?)
    ensures Inv(Next(s, a))
  {
  }

  lemma NextInv(s: Xapp, a: Action)
    requires Inv(s)
    ensures Inv(Next(s, a))
  {
    if !s.ui.Aborted? {
      match a {
        case StartReport(_) => StartInv(s, a);
        case StartControl(_) => StartInv(s, a);
        case StartRemove(_) => StartInv(s, a);
        case Insert => if s.ui.TimerMade? { InsertInv(s); }
        case Extract(fd) => ExtractInv(s, fd);
        case SetupResponse(fd) => SetupResponseInv(s, fd);
        case MakeTimer(fd) => MakeTimerInv(s, fd);
        case Send => SendInv(s);
        case ResetFlags => WaitInv(s, a);
        case Wake => WaitInv(s, a);
        case Timeout => WaitInv(s, a);
        case Return => WaitInv(s, a);
        case Match => LoopInv(s, a);
        case CloseTimer => LoopInv(s, a);
        case Signal => LoopInv(s, a);
        case _ => IappInv(s, a);
      }
    }
  }
}
