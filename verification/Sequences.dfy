/**
 Sequences without repeats, the sectors of a file or the threads in a queue, and the size of sets.
 */
module Sequences {

  predicate NoDup(s: seq<nat>) { forall i, j :: 0 <= i < j < |s| ==> s[i] != s[j] }

  predicate Apart(a: seq<nat>, b: seq<nat>) { forall x :: x in a ==> x !in b }

  lemma NoDupConcat(a: seq<nat>, b: seq<nat>)
    ensures NoDup(a + b) <==> NoDup(a) && NoDup(b) && Apart(a, b)
  {
    var c := a + b;
    if NoDup(c) {
      forall i, j | 0 <= i < j < |a| ensures a[i] != a[j] { assert c[i] != c[j]; }
      forall i, j | 0 <= i < j < |b| ensures b[i] != b[j] { assert c[|a| + i] != c[|a| + j]; }
      forall x | x in a ensures x !in b {
        var i :| 0 <= i < |a| && a[i] == x;
        forall j | 0 <= j < |b| ensures b[j] != x { assert c[i] != c[|a| + j]; }
      }
    } else if NoDup(a) && NoDup(b) {
      var i, j :| 0 <= i < j < |c| && c[i] == c[j];
      assert c[i] in a && c[j] in b;
    }
  }

  lemma NoDupFront(q: seq<nat>)
    requires NoDup(q) && q != []
    ensures NoDup(q[1..]) && forall t :: t in q[1..] <==> t in q && t != q[0]
  {
    assert q == [q[0]] + q[1..];
    NoDupConcat([q[0]], q[1..]);
  }

  lemma NoDupBack(q: seq<nat>, t: nat)
    requires NoDup(q) && t !in q
    ensures NoDup(q + [t])
  {
    NoDupConcat(q, [t]);
  }

  lemma {:induction false} SubsetSize(a: set<nat>, b: set<nat>)
    requires a <= b
    ensures |a| <= |b|
    decreases |a|
  {
    if a != {} {
      var x :| x in a;
      SubsetSize(a - {x}, b - {x});
    }
  }

  /** The sequence without the first `c` in it. */
  function Without(q: seq<nat>, c: nat): (r: seq<nat>) {
    if q == [] then [] else if q[0] == c then q[1..] else [q[0]] + Without(q[1..], c)
  }

  lemma {:induction false} WithoutIs(q: seq<nat>, c: nat)
    requires NoDup(q) && c in q
    ensures NoDup(Without(q, c)) && forall d :: d in Without(q, c) <==> d in q && d != c
  {
    NoDupFront(q);
    if q[0] != c {
      WithoutIs(q[1..], c);
      NoDupConcat([q[0]], Without(q[1..], c));
    }
  }

  lemma {:induction false} WithoutSize(q: seq<nat>, c: nat)
    requires c in q
    ensures |Without(q, c)| == |q| - 1
  {
    if q[0] != c { WithoutSize(q[1..], c); }
  }
}
