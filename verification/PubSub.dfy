/** The near-RT RIC's own listeners for indications, registered per RAN function. */
module PubSub {

  datatype Listener = StdoutListener | RedisListener | InfluxListener

  type Listeners = map<nat, seq<Listener>>

  predicate IsFront(m: Listeners, f: nat)
  {
    f in m && forall g :: g in m ==> f <= g
  }

  lemma {:induction false} FrontExists(m: Listeners) returns (f: nat)
    requires m != map[]
    ensures IsFront(m, f)
    decreases |m|
  {
    f :| f in m;
    var rest := m - {f};
    if rest != map[] {
      assert |m.Keys| == |rest.Keys| + 1 by {
        assert m.Keys == rest.Keys + {f};
      }
      var g := FrontExists(rest);
      assert forall h :: h in m ==> h == f || h in rest;
      if g < f {
        f := g;
      }
    } else {
      assert forall h :: h in m ==> h == f || h in rest;
    }
  }

  /** Every function has the same listeners in the same order. */
  ghost predicate AllAlike(m: Listeners)
  {
    forall f, g :: f in m && g in m ==> m[f] == m[g]
  }

  /** Publishing an indication of any function calls the listeners of that function, although it reads the
      front entry. */
  ghost predicate PublishesRight(m: Listeners)
  {
    forall f, g :: f in m && IsFront(m, g) ==> m[g] == m[f]
  }

  lemma PublishesRightIffAllAlike(m: Listeners)
    ensures PublishesRight(m) <==> AllAlike(m)
  {
    if m != map[] {
      var f := FrontExists(m);
    }
  }

  /** One listener more for one function of several makes publishing wrong for some function. */
  lemma OneMoreListenerBreaksPublishing(m: Listeners, f: nat, g: nat, l: Listener)
    requires PublishesRight(m) && f in m && g in m && f != g
    ensures !PublishesRight(m[f := m[f] + [l]])
  {
    PublishesRightIffAllAlike(m);
    PublishesRightIffAllAlike(m[f := m[f] + [l]]);
    var after := m[f := m[f] + [l]];
    assert |after[f]| == |after[g]| + 1;
  }

  function DefaultListeners(stdoutLog: bool): seq<Listener>
  {
    (if stdoutLog then [StdoutListener] else []) + [RedisListener, InfluxListener]
  }

  class RicPubSub {
    var pubSub: Listeners

    constructor ()
      ensures pubSub == map[]
    {
      pubSub := map[];
    }

    method RegisterListener(func: nat, l: Listener)
      modifies this
      ensures pubSub == old(pubSub)[func := (if func in old(pubSub) then old(pubSub)[func] else []) + [l]]
    {
      if func !in pubSub {
        assert [] + [l] == [l];
        pubSub := pubSub[func := [l]];
      } else {
        pubSub := pubSub[func := pubSub[func] + [l]];
      }
    }

    method RegisterDefaults(func: nat, stdoutLog: bool)
      requires func !in pubSub
      modifies this
      ensures pubSub == old(pubSub)[func := DefaultListeners(stdoutLog)]
    {
      if stdoutLog {
        RegisterListener(func, StdoutListener);
      }
      RegisterListener(func, RedisListener);
      RegisterListener(func, InfluxListener);
      assert pubSub[func] == DefaultListeners(stdoutLog);
    }

    /** `sms` are the keys of the loaded service models. */
    method LoadDefault(sms: seq<nat>, stdoutLog: bool)
      requires pubSub == map[]
      requires forall i, j :: 0 <= i < j < |sms| ==> sms[i] != sms[j]
      modifies this
      ensures forall f :: f in pubSub <==> f in sms
      ensures forall f :: f in pubSub ==>
                pubSub[f] == if stdoutLog then [StdoutListener, RedisListener, InfluxListener]
                             else [RedisListener, InfluxListener]
      ensures PublishesRight(pubSub)
    {
      for i := 0 to |sms|
        invariant forall f :: f in pubSub <==> f in sms[..i]
        invariant forall f :: f in pubSub ==> pubSub[f] == DefaultListeners(stdoutLog)
      {
        assert sms[i] !in sms[..i];
        RegisterDefaults(sms[i], stdoutLog);
        assert sms[..i + 1] == sms[..i] + [sms[i]];
      }
      assert sms[..|sms|] == sms;
      PublishesRightIffAllAlike(pubSub);
    }

    /** The listeners called for one indication, in order. */
    method PublishIndMsg(func: nat) returns (called: seq<Listener>)
      requires func in pubSub
      ensures exists f :: f in pubSub && (forall g :: g in pubSub ==> f <= g) && called == pubSub[f]
      ensures PublishesRight(pubSub) ==> called == pubSub[func]
    {
      ghost var least := FrontExists(pubSub);
      assert least in pubSub && forall g :: g in pubSub ==> least <= g;
      var front :| front in pubSub && forall g :: g in pubSub ==> front <= g;
      assert IsFront(pubSub, front);
      var listeners := pubSub[front];
      called := [];
      for i := 0 to |listeners|
        invariant called == listeners[..i]
      {
        called := called + [listeners[i]];
      }
      assert listeners[..|listeners|] == listeners;
    }
  }
}
