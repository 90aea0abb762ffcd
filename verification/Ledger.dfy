/** Adding up, over a sequence of places, the multiset of pending-event keys that each place holds. */
module Ledger {
  import opened PendingEvents

  type Keys = multiset<Event>

  ghost function Sum<T>(s: seq<T>, f: T -> Keys): Keys
  {
    if s == [] then multiset{} else Sum(s[..|s| - 1], f) + f(s[|s| - 1])
  }

  lemma {:induction false} SumConcat<T>(a: seq<T>, b: seq<T>, f: T -> Keys)
    ensures Sum(a + b, f) == Sum(a, f) + Sum(b, f)
  {
    if b == [] {
      assert a + b == a;
    } else {
      var n := |b| - 1;
      assert (a + b)[..|a + b| - 1] == a + b[..n];
      SumConcat(a, b[..n], f);
    }
  }

  lemma SumAppend<T>(s: seq<T>, x: T, f: T -> Keys)
    ensures Sum(s + [x], f) == Sum(s, f) + f(x)
  {
    assert (s + [x])[..|s|] == s;
  }

  /** Taking out one element, wherever it is, takes out exactly its keys. */
  lemma {:induction false} SumRemove<T>(s: seq<T>, i: nat, f: T -> Keys)
    requires i < |s|
    ensures Sum(s, f) == Sum(s[..i] + s[i + 1..], f) + f(s[i])
    decreases |s|
  {
    var n := |s| - 1;
    var rest := s[..i] + s[i + 1..];
    if i == n {
      assert rest == s[..n];
    } else {
      SumRemove(s[..n], i, f);
      assert rest[..|rest| - 1] == s[..n][..i] + s[..n][i + 1..];
    }
  }

  lemma SumPop<T>(s: seq<T>, f: T -> Keys)
    requires s != []
    ensures Sum(s, f) == f(s[0]) + Sum(s[1..], f)
  {
    SumRemove(s, 0, f);
    assert s[..0] + s[1..] == s[1..];
  }

  lemma SumUpdate<T>(s: seq<T>, i: nat, x: T, f: T -> Keys)
    requires i < |s|
    ensures Sum(s[i := x], f) + f(s[i]) == Sum(s, f) + f(x)
  {
    SumRemove(s, i, f);
    SumRemove(s[i := x], i, f);
    assert s[i := x][..i] + s[i := x][i + 1..] == s[..i] + s[i + 1..];
  }

  lemma SumContains<T>(s: seq<T>, i: nat, f: T -> Keys)
    requires i < |s|
    ensures f(s[i]) <= Sum(s, f)
  {
    SumRemove(s, i, f);
  }

  /** Two different places each contribute. */
  lemma SumContainsTwo<T>(s: seq<T>, i: nat, j: nat, f: T -> Keys)
    requires i < |s| && j < |s| && i != j
    ensures f(s[i]) + f(s[j]) <= Sum(s, f)
  {
    SumRemove(s, i, f);
    var rest := s[..i] + s[i + 1..];
    var k := if j < i then j else j - 1;
    assert rest[k] == s[j];
    SumContains(rest, k, f);
  }

  lemma {:induction false} SumOfNothing<T>(s: seq<T>, f: T -> Keys)
    requires forall i :: 0 <= i < |s| ==> f(s[i]) == multiset{}
    ensures Sum(s, f) == multiset{}
  {
    if s != [] {
      SumOfNothing(s[..|s| - 1], f);
    }
  }

  lemma {:induction false} SumWitness<T>(s: seq<T>, f: T -> Keys, key: Event) returns (i: nat)
    requires key in Sum(s, f)
    ensures i < |s| && key in f(s[i])
  {
    var n := |s| - 1;
    if key in f(s[n]) {
      i := n;
    } else {
      i := SumWitness(s[..n], f, key);
    }
  }
}
