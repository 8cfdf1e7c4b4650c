// Sets and sequences of indices, and their sizes.
module Sets {

  ghost function Elems(l: seq<nat>): set<nat> { set x | x in l }

  ghost predicate Distinct(l: seq<nat>) {
    forall i, j :: 0 <= i < j < |l| ==> l[i] != l[j]
  }

  lemma {:induction false} DistinctSize(l: seq<nat>)
    requires Distinct(l)
    ensures |Elems(l)| == |l|
  {
    if l != [] {
      DistinctSize(l[1..]);
      assert Elems(l) == Elems(l[1..]) + {l[0]};
      assert l[0] !in Elems(l[1..]);
    }
  }

  ghost function Below(n: nat): (b: set<nat>)
    ensures forall i :: i in b <==> 0 <= i < n
  {
    if n == 0 then {} else Below(n - 1) + {n - 1}
  }

  lemma {:induction false} BelowSize(n: nat)
    ensures |Below(n)| == n
  {
    if n > 0 { BelowSize(n - 1); }
  }

  lemma SameSizeSubset<T>(a: set<T>, b: set<T>)
    requires a <= b && |a| == |b|
    ensures a == b
  {
    if x :| x in b && x !in a {
      SubsetSize(a, b - {x});
    }
  }

  lemma {:induction false} SubsetSize<T>(a: set<T>, b: set<T>)
    requires a <= b
    ensures |a| <= |b|
  {
    if a != {} {
      var x :| x in a;
      SubsetSize(a - {x}, b - {x});
    }
  }
}
