/** Aperiodic indications of an agent: producers push into a queue and then write the decimal request
    identifier into a pipe; the event loop wakes up on the edge-triggered pipe, empties the queue and reads
    four bytes for each item. */
module WakeupPipe {
  import opened Runs

  const READ_SIZE := 4

  /** Characters written for an identifier. */
  function Digits(id: nat): (n: nat)
    ensures n >= 1
  {
    if id < 10 then 1 else 1 + Digits(id / 10)
  }

  function Pow10(n: nat): (p: nat)
    ensures p >= 1
  {
    if n == 0 then 1 else 10 * Pow10(n - 1)
  }

  /** Decimal digits without leading zeros. */
  lemma {:induction false} DigitsAreDecimal(id: nat)
    ensures id < Pow10(Digits(id)) && (id > 0 ==> Pow10(Digits(id) - 1) <= id)
  {
    if id < 10 {
      assert Pow10(1) == 10 * Pow10(0);
    } else {
      DigitsAreDecimal(id / 10);
    }
  }

  lemma DigitsIsFour(id: nat)
    ensures Digits(id) == 4 <==> 1000 <= id <= 9999
  {
    assert Digits(id) == if id < 10 then 1 else 1 + Digits(id / 10);
    assert id >= 10 ==> Digits(id / 10) == if id / 10 < 10 then 1 else 1 + Digits(id / 10 / 10);
    assert id >= 100 ==> Digits(id / 10 / 10) == if id / 10 / 10 < 10 then 1 else 1 + Digits(id / 10 / 10 / 10);
    assert id >= 1000 ==> Digits(id / 10 / 10 / 10) == if id / 10 / 10 / 10 < 10 then 1
                                                       else 1 + Digits(id / 10 / 10 / 10 / 10);
  }

  datatype Loop =
    | Waiting                    // in epoll_wait
    | Woken                      // the pipe was reported, the queue is not emptied yet
    | Reading(items: seq<nat>)   // one read is left for each of the items

  /** `unwritten` are the producers between push and write, `edge` an event that epoll has not reported. */
  datatype State = State(queue: seq<nat>, unwritten: multiset<nat>, bytes: nat, edge: bool, loop: Loop)

  datatype Action = Push(id: nat) | Write(id: nat) | Wake | Pop | Read

  function Min(a: nat, b: nat): nat { if a < b then a else b }

  /** A read blocks on an empty pipe, and epoll does not report a pipe that is no longer readable. */
  function Next(allowed: nat -> bool, s: State, a: Action): State
  {
    match a
    case Push(id) =>
      if allowed(id) then s.(queue := s.queue + [id], unwritten := s.unwritten + multiset{id}) else s
    case Write(id) =>
      if id in s.unwritten
      then s.(unwritten := s.unwritten - multiset{id}, bytes := s.bytes + Digits(id), edge := true)
      else s
    case Wake =>
      if s.loop.Waiting? && s.edge then s.(edge := false, loop := if s.bytes > 0 then Woken else Waiting) else s
    case Pop =>
      if s.loop.Woken? && s.queue != [] then s.(queue := [], loop := Reading(s.queue)) else s
    case Read =>
      if s.loop.Reading? && s.loop.items != [] && s.bytes > 0
      then s.(bytes := s.bytes - Min(READ_SIZE, s.bytes),
              loop := if |s.loop.items| == 1 then Waiting else Reading(s.loop.items[1..]))
      else s
  }

  predicate Init(s: State)
  {
    s == State([], multiset{}, 0, false, Waiting)
  }

  /** The queue is empty although the pipe woke the loop. */
  predicate EmptyQueueFails(s: State)
  {
    s.loop.Woken? && s.queue == []
  }

  /** The next read returns a single byte. */
  predicate ReadFails(s: State)
  {
    s.loop.Reading? && s.loop.items != [] && s.bytes == 1
  }

  /** The loop blocks in a read that no producer is about to satisfy. */
  predicate Deadlocked(s: State)
  {
    s.loop.Reading? && s.loop.items != [] && s.bytes == 0 && s.unwritten == multiset{}
  }

  /** The loop sleeps on a queued item that no producer is about to announce. */
  predicate Stranded(s: State)
  {
    s.loop.Waiting? && !s.edge && s.queue != [] && s.unwritten == multiset{}
  }

  predicate Good(s: State)
  {
    !EmptyQueueFails(s) && !ReadFails(s) && !Deadlocked(s) && !Stranded(s)
  }

  function Unread(s: State): nat
  {
    if s.loop.Reading? then |s.loop.items| else 0
  }

  /** Every item still owns four bytes, written or to be written. */
  ghost predicate Inv(s: State)
  {
    && (forall id :: id in s.unwritten ==> Digits(id) == 4)
    && s.bytes + 4 * |s.unwritten| == 4 * (|s.queue| + Unread(s))
    && (s.loop.Woken? ==> s.bytes > 0)
    && (s.loop.Reading? ==> s.loop.items != [])
    && (!s.edge && !s.loop.Woken? ==> s.bytes <= 4 * Unread(s))
  }

  lemma InvIsGood(s: State)
    requires Inv(s)
    ensures Good(s)
    ensures s.loop.Reading? && s.bytes == 0 ==> s.unwritten != multiset{}
    ensures s.loop.Waiting? && !s.edge ==> |s.queue| == |s.unwritten|
  {
  }

  lemma NextInv(allowed: nat -> bool, s: State, a: Action)
    requires Inv(s) && forall id :: allowed(id) ==> Digits(id) == 4
    ensures Inv(Next(allowed, s, a))
  {
    if a.Write? && a.id in s.unwritten {
      assert |s.unwritten - multiset{a.id}| == |s.unwritten| - 1;
    }
  }

  ghost predicate InAnyRun(allowed: nat -> bool, s: State)
  {
    Reachable(Init, (s1, a) => Next(allowed, s1, a), s)
  }

  /** With four-digit identifiers bytes and items stay in step under any number of producers. */
  lemma FourDigitsKeepStep(allowed: nat -> bool, s: State)
    requires forall id :: allowed(id) ==> Digits(id) == 4
    requires InAnyRun(allowed, s)
    ensures s.bytes + 4 * |s.unwritten| == 4 * (|s.queue| + Unread(s))
    ensures Good(s)
    ensures s.loop.Reading? && s.bytes == 0 ==> s.unwritten != multiset{}
    ensures s.loop.Waiting? && !s.edge ==> |s.queue| == |s.unwritten|
  {
    forall s1, a | Inv(s1) ensures Inv(Next(allowed, s1, a)) { NextInv(allowed, s1, a); }
    ReachableKeeps(Init, (s1, a) => Next(allowed, s1, a), Inv, s);
    InvIsGood(s);
  }

  // The items themselves

  function PushedBy(allowed: nat -> bool, s: State, a: Action): seq<nat>
  {
    if a.Push? && allowed(a.id) then [a.id] else []
  }

  /** The item whose bytes a read takes. */
  function ReadBy(s: State, a: Action): seq<nat>
  {
    if a.Read? && s.loop.Reading? && s.loop.items != [] && s.bytes > 0 then [s.loop.items[0]] else []
  }

  function NotRead(s: State): seq<nat>
  {
    (if s.loop.Reading? then s.loop.items else []) + s.queue
  }

  /** The loop goes through the items in the order in which they were pushed, each of them once. */
  lemma ItemsAreReadInOrder(allowed: nat -> bool, s: State, acts: seq<Action>)
    ensures NotRead(s) + Trace((s1, a) => Next(allowed, s1, a), (s1, a) => PushedBy(allowed, s1, a), s, acts)
         == Trace((s1, a) => Next(allowed, s1, a), ReadBy, s, acts)
            + NotRead(Run((s1, a) => Next(allowed, s1, a), s, acts))
  {
    var next, put := (s1, a) => Next(allowed, s1, a), (s1, a) => PushedBy(allowed, s1, a);
    forall s1: State, a: Action ensures NotRead(s1) + put(s1, a) == ReadBy(s1, a) + NotRead(next(s1, a)) {
    }
    QueueKeepsOrder(next, NotRead, put, ReadBy, s, acts);
  }

  lemma After(allowed: nat -> bool, s: State, a: Action) returns (s': State)
    requires InAnyRun(allowed, s)
    ensures s' == Next(allowed, s, a) && InAnyRun(allowed, s')
  {
    var next := (s1, a1) => Next(allowed, s1, a1);
    s' := Next(allowed, s, a);
    ReachableThen(Init, next, s, [a]);
    assert Run(next, s, [a]) == Run(next, next(s, a), []);
  }

  /** The state after `n` producers have pushed and written. */
  lemma Announce(allowed: nat -> bool, id: nat, n: nat) returns (s: State)
    requires allowed(id)
    ensures InAnyRun(allowed, s)
    ensures s == State(seq(n, i => id), multiset{}, n * Digits(id), n > 0, Waiting)
  {
    if n == 0 {
      s := State([], multiset{}, 0, false, Waiting);
      assert Run((s1, a1) => Next(allowed, s1, a1), s, []) == s;
    } else {
      s := Announce(allowed, id, n - 1);
      s := After(allowed, s, Push(id));
      s := After(allowed, s, Write(id));
      assert (n - 1) * Digits(id) + Digits(id) == n * Digits(id);
    }
  }

  /** Fewer than four digits: reads take the bytes of later items. */
  lemma ShortIdFails(allowed: nat -> bool, id: nat) returns (s: State)
    requires allowed(id) && Digits(id) < 4
    ensures InAnyRun(allowed, s) && !Good(s)
  {
    s := Announce(allowed, id, Digits(id));
    s := After(allowed, s, Wake);
    s := After(allowed, s, Pop);
    if Digits(id) >= 2 {
      s := After(allowed, s, Read);
    }
    if Digits(id) == 3 {
      s := After(allowed, s, Read);
    }
  }

  /** More than four digits: bytes are left over, and an item popped before its bytes are written eats
      them; then its own bytes wake the loop for nothing. */
  lemma LongIdFails(allowed: nat -> bool, id: nat) returns (s: State)
    requires allowed(id) && Digits(id) > 4
    ensures InAnyRun(allowed, s) && !Good(s)
  {
    s := Announce(allowed, id, 1);
    s := After(allowed, s, Wake);
    s := After(allowed, s, Push(id));
    s := After(allowed, s, Pop);
    assert s.loop.items == [id, id];
    s := After(allowed, s, Read);
    assert s == State([], multiset{id}, Digits(id) - READ_SIZE, false, Reading([id]));
    if Digits(id) > 5 {
      s := After(allowed, s, Read);
      s := After(allowed, s, Write(id));
      s := After(allowed, s, Wake);
    }
  }

  /** The wake-up scheme works for a set of request identifiers exactly when all of them lie in
      1000..9999. */
  lemma WorksIffFourDigits(allowed: nat -> bool)
    ensures (forall s :: InAnyRun(allowed, s) ==> Good(s)) <==> (forall id :: allowed(id) ==> 1000 <= id <= 9999)
  {
    if id :| allowed(id) && !(1000 <= id <= 9999) {
      DigitsIsFour(id);
      var s;
      if Digits(id) < 4 {
        s := ShortIdFails(allowed, id);
      } else {
        s := LongIdFails(allowed, id);
      }
      assert InAnyRun(allowed, s) && !Good(s);
    } else {
      forall id | allowed(id) ensures Digits(id) == 4 { DigitsIsFour(id); }
      forall s | InAnyRun(allowed, s) ensures Good(s) { FourDigitsKeepStep(allowed, s); }
    }
  }

  /** The indications sent for the items whose service model has something to report. */
  function Reports(items: seq<nat>, hasValue: nat -> bool): seq<nat>
  {
    if items == [] then []
    else
      var last := items[|items| - 1];
      Reports(items[..|items| - 1], hasValue) + if hasValue(last) then [last] else []
  }

  /** The positions of exactly the items with a value, in order. */
  ghost predicate Picks(items: seq<nat>, hasValue: nat -> bool, idx: seq<nat>)
  {
    && (forall j, k :: 0 <= j < k < |idx| ==> idx[j] < idx[k])
    && (forall k :: 0 <= k < |idx| ==> idx[k] < |items|)
    && (forall i :: 0 <= i < |items| ==> (hasValue(items[i]) <==> i in idx))
  }

  ghost function Picked(items: seq<nat>, idx: seq<nat>): (s: seq<nat>)
    requires forall k :: 0 <= k < |idx| ==> idx[k] < |items|
    ensures |s| == |idx| && forall k :: 0 <= k < |idx| ==> s[k] == items[idx[k]]
  {
    seq(|idx|, k requires 0 <= k < |idx| => items[idx[k]])
  }

  lemma {:induction false} ReportsArePicked(items: seq<nat>, hasValue: nat -> bool) returns (idx: seq<nat>)
    ensures Picks(items, hasValue, idx) && Reports(items, hasValue) == Picked(items, idx)
  {
    if items == [] {
      idx := [];
    } else {
      var n := |items| - 1;
      var before := ReportsArePicked(items[..n], hasValue);
      idx := before + if hasValue(items[n]) then [n] else [];
      PicksOneMore(items, hasValue, before, idx);
      assert Picked(items, idx) == Picked(items[..n], before) + if hasValue(items[n]) then [items[n]] else [];
    }
  }

  lemma PicksOneMore(items: seq<nat>, hasValue: nat -> bool, before: seq<nat>, idx: seq<nat>)
    requires items != [] && Picks(items[..|items| - 1], hasValue, before)
    requires idx == before + if hasValue(items[|items| - 1]) then [|items| - 1] else []
    ensures Picks(items, hasValue, idx)
  {
    var n := |items| - 1;
    forall i | 0 <= i < |items| ensures hasValue(items[i]) <==> i in idx {
      if i < n {
        assert items[..n][i] == items[i];
        assert i in idx <==> i in before;
      } else {
        assert n !in before;
      }
    }
  }

  class AperiodicEvents {
    var queue: seq<nat>
    var bytes: nat
    var sent: seq<nat>

    constructor ()
      ensures queue == [] && bytes == 0 && sent == []
    {
      queue, bytes, sent := [], 0, [];
    }

    /** What a producer does; the two halves are separate steps of the machine above. */
    method AsyncEvent(id: nat)
      modifies this
      ensures queue == old(queue) + [id] && bytes == old(bytes) + Digits(id) && sent == old(sent)
    {
      queue := queue + [id];
      bytes := bytes + Digits(id);
    }

    /** Takes the items that are in the queue now; the loop asserts that there are some. */
    method TakeQueued() returns (items: seq<nat>)
      requires queue != []
      modifies this
      ensures items == old(queue) && queue == [] && bytes == old(bytes) && sent == old(sent)
    {
      var sz := |queue|;
      items := [];
      for i := 0 to sz
        invariant items + queue == old(queue) && |items| == i
        invariant bytes == old(bytes) && sent == old(sent)
      {
        items := items + [queue[0]];
        queue := queue[1..];
      }
    }

    /** One round of the loop over the taken items, with all their bytes already in the pipe. */
    method Process(items: seq<nat>, hasValue: nat -> bool)
      requires bytes >= 4 * |items|
      modifies this
      ensures bytes == old(bytes) - 4 * |items|
      ensures exists idx :: Picks(items, hasValue, idx) && sent == old(sent) + Picked(items, idx)
      ensures queue == old(queue)
    {
      for i := 0 to |items|
        invariant bytes == old(bytes) - 4 * i
        invariant sent == old(sent) + Reports(items[..i], hasValue) && queue == old(queue)
      {
        assert items[..i + 1][..i] == items[..i];
        if hasValue(items[i]) {
          sent := sent + [items[i]];
        }
        bytes := bytes - READ_SIZE;
      }
      assert items[..|items|] == items;
      ghost var idx := ReportsArePicked(items, hasValue);
    }
  }
}
