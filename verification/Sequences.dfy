/** Sequences without duplicates. */
module Sequences {

  ghost predicate Distinct(s: seq<nat>) { forall i, j | 0 <= i < j < |s| :: s[i] != s[j] }

  ghost predicate SameBut(a: seq<nat>, b: seq<nat>, p: nat) { forall q | q != p :: q in a <==> q in b }

  /** The list without one element. */
  function Without(s: seq<nat>, q: nat): seq<nat> {
    if s == [] then [] else if s[0] == q then s[1..] else [s[0]] + Without(s[1..], q)
  }

  lemma {:induction false} WithoutIs(s: seq<nat>, q: nat)
    requires Distinct(s)
    ensures forall x :: x in Without(s, q) <==> x in s && x != q
    ensures |Without(s, q)| == |s| - (if q in s then 1 else 0)
    ensures Distinct(Without(s, q)) && SameBut(s, Without(s, q), q)
  {
    if s != [] {
      assert s == [s[0]] + s[1..];
      if s[0] != q {
        WithoutIs(s[1..], q);
        DistinctCons(s[0], Without(s[1..], q));
      }
    }
  }

  lemma DistinctCons(x: nat, s: seq<nat>)
    requires Distinct(s) && x !in s
    ensures Distinct([x] + s)
  {
  }
}
