/** Totals over sequences, and how one update of the sequence moves them. */
module Sums {

  function Total<T>(s: seq<T>, weight: T -> nat): nat
  {
    if s == [] then 0 else weight(s[0]) + Total(s[1..], weight)
  }

  lemma {:induction false} TotalUpdate<T>(s: seq<T>, weight: T -> nat, i: nat, x: T)
    requires i < |s|
    ensures Total(s[i := x], weight) + weight(s[i]) == Total(s, weight) + weight(x)
  {
    if i == 0 {
      assert s[0 := x][1..] == s[1..];
    } else {
      assert s[i := x][1..] == s[1..][i - 1 := x];
      TotalUpdate(s[1..], weight, i - 1, x);
    }
  }

  lemma {:induction false} TotalAppend<T>(s: seq<T>, weight: T -> nat, x: T)
    ensures Total(s + [x], weight) == Total(s, weight) + weight(x)
  {
    if s == [] {
      assert (s + [x])[1..] == [];
    } else {
      assert (s + [x])[1..] == s[1..] + [x];
      TotalAppend(s[1..], weight, x);
    }
  }

  /** The naturals below n. */
  function Below(n: nat): (s: set<nat>)
    ensures |s| == n
    ensures forall k: nat :: k in s <==> k < n
  {
    if n == 0 then {} else Below(n - 1) + {n - 1}
  }
}
