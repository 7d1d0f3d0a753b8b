/**
 Threads of a protocol: where each stands in its code, and how many stand at one place.
 */
module Threads {
  /** How many threads stand at a place. */
  ghost function At<T>(pc: seq<T>, at: T): nat { multiset(pc)[at] }

  lemma Moved<T>(pc: seq<T>, t: nat, at: T, pc': seq<T>)
    requires t < |pc| && pc' == pc[t := at]
    ensures forall x :: At(pc', x) == At(pc, x) + (if x == at then 1 else 0) - (if x == pc[t] then 1 else 0)
    ensures forall x :: At(pc', x) >= 0
    ensures At(pc, pc[t]) > 0
  {
    assert pc[t] in multiset(pc);
  }

  lemma Last<T>(pc: seq<T>, n: nat, x: T)
    requires n + 1 == |pc|
    ensures At(pc, x) == At(pc[..n], x) + if pc[n] == x then 1 else 0
  {
    assert pc == pc[..n] + [pc[n]];
  }

  lemma NoneAt<T>(pc: seq<T>, x: T)
    ensures At(pc, x) == 0 <==> forall t :: 0 <= t < |pc| ==> pc[t] != x
  {
    assert x in multiset(pc) <==> x in pc;
  }

  /** Thread u comes before thread v in a wait queue. */
  ghost predicate Ahead(q: seq<nat>, u: nat, v: nat) {
    exists a, b :: 0 <= a < b < |q| && q[a] == u && q[b] == v
  }

  lemma AheadPush(q: seq<nat>, u: nat, v: nat, t: nat)
    requires Ahead(q, u, v) || (u in q && v == t)
    ensures Ahead(q + [t], u, v)
  {
    if a, b :| 0 <= a < b < |q| && q[a] == u && q[b] == v {
      assert (q + [t])[a] == u && (q + [t])[b] == v;
    } else {
      var a :| 0 <= a < |q| && q[a] == u;
      assert (q + [t])[a] == u && (q + [t])[|q|] == v;
    }
  }

  lemma AheadPop(q: seq<nat>, u: nat, v: nat)
    requires Ahead(q, u, v) && q[0] != u
    ensures Ahead(q[1..], u, v)
  {
    var a, b :| 0 <= a < b < |q| && q[a] == u && q[b] == v;
    assert q[1..][a - 1] == u && q[1..][b - 1] == v;
  }
}
