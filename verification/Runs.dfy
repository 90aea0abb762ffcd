/** Runs of a state machine. An action that is not possible in a state leaves the state as it is, so a
    run is any sequence of actions. */
module Runs {

  ghost function Run<S, A>(next: (S, A) -> S, s: S, acts: seq<A>): S
  {
    if acts == [] then s else Run(next, next(s, acts[0]), acts[1..])
  }

  ghost predicate Reachable<S(!new), A(!new)>(init: S -> bool, next: (S, A) -> S, s: S)
  {
    exists s0, acts :: init(s0) && Run(next, s0, acts) == s
  }

  lemma {:induction false} RunKeeps<S(!new), A(!new)>(next: (S, A) -> S, inv: S -> bool, s: S, acts: seq<A>)
    requires inv(s)
    requires forall s, a :: inv(s) ==> inv(next(s, a))
    ensures inv(Run(next, s, acts))
  {
    if acts != [] {
      RunKeeps(next, inv, next(s, acts[0]), acts[1..]);
    }
  }

  /** What holds initially and is kept by every step holds in every reachable state. */
  lemma ReachableKeeps<S(!new), A(!new)>(init: S -> bool, next: (S, A) -> S, inv: S -> bool, s: S)
    requires Reachable(init, next, s)
    requires forall s :: init(s) ==> inv(s)
    requires forall s, a :: inv(s) ==> inv(next(s, a))
    ensures inv(s)
  {
    var s0, acts :| init(s0) && Run(next, s0, acts) == s;
    RunKeeps(next, inv, s0, acts);
  }

  lemma {:induction false} RunConcat<S, A>(next: (S, A) -> S, s: S, a: seq<A>, b: seq<A>)
    ensures Run(next, s, a + b) == Run(next, Run(next, s, a), b)
  {
    if a == [] {
      assert a + b == b;
    } else {
      assert (a + b)[1..] == a[1..] + b;
      RunConcat(next, next(s, a[0]), a[1..], b);
    }
  }

  lemma ReachableThen<S(!new), A(!new)>(init: S -> bool, next: (S, A) -> S, s: S, acts: seq<A>)
    requires Reachable(init, next, s)
    ensures Reachable(init, next, Run(next, s, acts))
  {
    var s0, before :| init(s0) && Run(next, s0, before) == s;
    RunConcat(next, s0, before, acts);
  }

  /** No step of the run is of the given sort. */
  ghost predicate Never<S, A>(next: (S, A) -> S, sort: (S, A) -> bool, s: S, acts: seq<A>)
  {
    acts != [] ==> !sort(s, acts[0]) && Never(next, sort, next(s, acts[0]), acts[1..])
  }

  /** If only steps of sort `opens` can leave `closed`, and steps of sort `uses` cannot happen in it, then
      without the former there are none of the latter. */
  lemma {:induction false} NeverWithout<S(!new), A(!new)>(
      next: (S, A) -> S, closed: S -> bool, opens: (S, A) -> bool, uses: (S, A) -> bool, s: S, acts: seq<A>)
    requires closed(s)
    requires forall s, a :: closed(s) ==> !uses(s, a)
    requires forall s, a :: closed(s) && !opens(s, a) ==> closed(next(s, a))
    requires Never(next, opens, s, acts)
    ensures Never(next, uses, s, acts)
  {
    if acts != [] {
      NeverWithout(next, closed, opens, uses, next(s, acts[0]), acts[1..]);
    }
  }

  /** Some run leads from `s` to the goal. */
  ghost predicate Possible<S, A(!new)>(next: (S, A) -> S, goal: S -> bool, s: S)
  {
    exists acts: seq<A> :: goal(Run(next, s, acts))
  }

  lemma PossibleNow<S, A(!new)>(next: (S, A) -> S, goal: S -> bool, s: S)
    requires goal(s)
    ensures Possible(next, goal, s)
  {
    assert Run(next, s, []) == s;
  }

  lemma PossibleAfter<S, A(!new)>(next: (S, A) -> S, goal: S -> bool, s: S, a: A)
    requires Possible(next, goal, next(s, a))
    ensures Possible(next, goal, s)
  {
    var acts :| goal(Run(next, next(s, a), acts));
    assert ([a] + acts)[1..] == acts;
    assert Run(next, s, [a] + acts) == Run(next, next(s, a), acts);
  }

  /** What every step keeps away from the goal never gets there. */
  lemma ImpossibleWithin<S(!new), A(!new)>(next: (S, A) -> S, goal: S -> bool, trap: S -> bool, s: S)
    requires trap(s)
    requires forall s, a :: trap(s) ==> trap(next(s, a))
    requires forall s :: trap(s) ==> !goal(s)
    ensures !Possible(next, goal, s)
  {
    forall acts: seq<A> ensures !goal(Run(next, s, acts)) {
      RunKeeps(next, trap, s, acts);
    }
  }

  /** What the steps of a run show, one after the other. */
  ghost function Trace<S, A, T>(next: (S, A) -> S, shown: (S, A) -> seq<T>, s: S, acts: seq<A>): seq<T>
    decreases acts
  {
    if acts == [] then [] else shown(s, acts[0]) + Trace(next, shown, next(s, acts[0]), acts[1..])
  }

  /** A queue gives out what is put into it, in order. */
  lemma {:induction false} QueueKeepsOrder<S(!new), A(!new), T>(
      next: (S, A) -> S, queue: S -> seq<T>, put: (S, A) -> seq<T>, got: (S, A) -> seq<T>, s: S, acts: seq<A>)
    requires forall s, a :: queue(s) + put(s, a) == got(s, a) + queue(next(s, a))
    ensures queue(s) + Trace(next, put, s, acts) == Trace(next, got, s, acts) + queue(Run(next, s, acts))
    decreases acts
  {
    if acts != [] {
      var a, s1 := acts[0], next(s, acts[0]);
      QueueKeepsOrder(next, queue, put, got, s1, acts[1..]);
      var puts, gots, rest := Trace(next, put, s1, acts[1..]), Trace(next, got, s1, acts[1..]),
                              queue(Run(next, s1, acts[1..]));
      assert queue(s) + (put(s, a) + puts) == (queue(s) + put(s, a)) + puts == got(s, a) + (queue(s1) + puts);
      assert got(s, a) + (gots + rest) == (got(s, a) + gots) + rest;
    }
  }
}
