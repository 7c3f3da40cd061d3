/**
 Natural merge sort on sequences: what `list_sort` does to the order of a list, for any
 strict weak order.  Module List proves that the pointer code computes these functions.
 */
module MergeRuns {
  import opened Powers

  /** Marks the triples that transitivity is wanted for. */
  predicate Compared<T>(a: T, b: T, c: T) {
    true
  }

  /** A strict weak order: asymmetric, and "not less" is transitive. */
  ghost predicate StrictWeak<T(!new)>(less: (T, T) -> bool) {
    && (forall a, b :: less(a, b) ==> !less(b, a))
    && (forall a, b, c {:trigger Compared(a, b, c)} :: !less(a, b) && !less(b, c) ==> !less(a, c))
  }

  lemma NotLess<T(!new)>(less: (T, T) -> bool, a: T, b: T, c: T)
    requires StrictWeak(less) && !less(a, b) && !less(b, c)
    ensures !less(a, c)
  {
    assert Compared(a, b, c);
  }

  lemma Between<T(!new)>(less: (T, T) -> bool, a: T, b: T, c: T)
    requires StrictWeak(less) && less(a, c)
    ensures less(a, b) || less(b, c)
  {
    assert Compared(a, b, c);
  }

  /** No element is less than its predecessor. */
  predicate Ordered<T>(s: seq<T>, less: (T, T) -> bool) {
    forall i :: 0 < i < |s| ==> !less(s[i], s[i - 1])
  }

  lemma {:induction false} OrderedPairs<T(!new)>(s: seq<T>, less: (T, T) -> bool, i: nat, j: nat)
    requires StrictWeak(less) && Ordered(s, less) && i <= j < |s|
    ensures !less(s[j], s[i])
    decreases j
  {
    if i < j {
      OrderedPairs(s, less, i, j - 1);
      NotLess(less, s[j], s[j - 1], s[i]);
    }
  }

  // ---------------------------------------------------------------------------------
  // Merging two runs
  // ---------------------------------------------------------------------------------

  function Merge<T>(a: seq<T>, b: seq<T>, less: (T, T) -> bool): (r: seq<T>)
    ensures |r| == |a| + |b|
    decreases |a| + |b|
  {
    if a == [] then b
    else if b == [] then a
    else if !less(b[0], a[0]) then [a[0]] + Merge(a[1..], b, less)
    else [b[0]] + Merge(a, b[1..], less)
  }

  /** The elements of `s` that the order cannot tell from `x`, in their order. */
  function Alike<T>(s: seq<T>, x: T, less: (T, T) -> bool): (r: seq<T>) {
    if s == [] then []
    else if !less(s[0], x) && !less(x, s[0]) then [s[0]] + Alike(s[1..], x, less)
    else Alike(s[1..], x, less)
  }

  lemma {:induction false} AlikeConcat<T>(a: seq<T>, b: seq<T>, x: T, less: (T, T) -> bool)
    ensures Alike(a + b, x, less) == Alike(a, x, less) + Alike(b, x, less)
  {
    if a == [] {
      assert a + b == b;
    } else {
      assert (a + b)[1..] == a[1..] + b;
      AlikeConcat(a[1..], b, x, less);
    }
  }

  lemma AlikeThree<T>(a: seq<T>, b: seq<T>, c: seq<T>, x: T, less: (T, T) -> bool)
    ensures Alike(a + (b + c), x, less) == Alike(a, x, less) + Alike(b, x, less) + Alike(c, x, less)
  {
    AlikeConcat(a, b + c, x, less);
    AlikeConcat(b, c, x, less);
  }

  lemma {:induction false} AlikeNone<T>(s: seq<T>, x: T, less: (T, T) -> bool)
    requires forall i :: 0 <= i < |s| ==> less(x, s[i])
    ensures Alike(s, x, less) == []
  {
    if s != [] {
      assert less(x, s[0]);
      AlikeNone(s[1..], x, less);
    }
  }

  /** An element that goes before an ordered run goes before all of it. */
  lemma BeforeRun<T(!new)>(a: seq<T>, y: T, x: T, less: (T, T) -> bool)
    requires StrictWeak(less) && Ordered(a, less) && a != [] && less(y, a[0]) && !less(y, x) && !less(x, y)
    ensures forall i :: 0 <= i < |a| ==> less(x, a[i])
  {
    forall i | 0 <= i < |a| ensures less(x, a[i]) {
      OrderedPairs(a, less, 0, i);
      Between(less, y, x, a[0]);
      Between(less, x, a[i], a[0]);
    }
  }

  lemma OrderedTail<T>(s: seq<T>, less: (T, T) -> bool)
    requires Ordered(s, less) && s != []
    ensures Ordered(s[1..], less)
  {
    forall i | 0 < i < |s[1..]| ensures !less(s[1..][i], s[1..][i - 1]) {
      assert s[1..][i] == s[i + 1] && s[1..][i - 1] == s[i];
    }
  }

  lemma AlikeCons<T>(y: T, s: seq<T>, x: T, less: (T, T) -> bool)
    ensures Alike([y] + s, x, less) == if !less(y, x) && !less(x, y) then [y] + Alike(s, x, less) else Alike(s, x, less)
  {
    assert ([y] + s)[1..] == s;
  }

  lemma Regroup<T>(y: T, a: seq<T>, b: seq<T>)
    ensures [y] + (a + b) == ([y] + a) + b
  {
  }

  lemma StableFirst<T>(y: T, a: seq<T>, b: seq<T>, m: seq<T>, x: T, less: (T, T) -> bool)
    requires Alike(m, x, less) == Alike(a, x, less) + Alike(b, x, less)
    ensures Alike([y] + m, x, less) == Alike([y] + a, x, less) + Alike(b, x, less)
  {
    AlikeCons(y, m, x, less);
    AlikeCons(y, a, x, less);
    Regroup(y, Alike(a, x, less), Alike(b, x, less));
  }

  lemma StableSecond<T>(y: T, a: seq<T>, b: seq<T>, m: seq<T>, x: T, less: (T, T) -> bool)
    requires Alike(m, x, less) == Alike(a, x, less) + Alike(b, x, less)
    requires !less(y, x) && !less(x, y) ==> Alike(a, x, less) == []
    ensures Alike([y] + m, x, less) == Alike(a, x, less) + Alike([y] + b, x, less)
  {
    AlikeCons(y, m, x, less);
    AlikeCons(y, b, x, less);
  }

  lemma Cons<T>(s: seq<T>)
    requires s != []
    ensures s == [s[0]] + s[1..]
  {
  }

  /** Merging keeps every class of alike elements in order: those of `a`, then those of `b`. */
  lemma {:induction false} MergeStable<T(!new)>(a: seq<T>, b: seq<T>, x: T, less: (T, T) -> bool)
    requires StrictWeak(less) && Ordered(a, less) && Ordered(b, less)
    ensures Alike(Merge(a, b, less), x, less) == Alike(a, x, less) + Alike(b, x, less)
    decreases |a| + |b|
  {
    if a == [] || b == [] {
    } else if !less(b[0], a[0]) {
      OrderedTail(a, less);
      MergeStable(a[1..], b, x, less);
      Cons(a);
      StableFirst(a[0], a[1..], b, Merge(a[1..], b, less), x, less);
    } else {
      OrderedTail(b, less);
      MergeStable(a, b[1..], x, less);
      if !less(b[0], x) && !less(x, b[0]) {
        BeforeRun(a, b[0], x, less);
        AlikeNone(a, x, less);
      }
      Cons(b);
      StableSecond(b[0], a, b[1..], Merge(a, b[1..], less), x, less);
    }
  }

  lemma PutFirst<T>(s: seq<T>)
    requires s != []
    ensures multiset(s) == multiset{s[0]} + multiset(s[1..])
  {
    assert s == [s[0]] + s[1..];
  }

  lemma {:induction false} MergePermutes<T>(a: seq<T>, b: seq<T>, less: (T, T) -> bool)
    ensures multiset(Merge(a, b, less)) == multiset(a) + multiset(b)
    decreases |a| + |b|
  {
    if a == [] || b == [] {
    } else if !less(b[0], a[0]) {
      MergePermutes(a[1..], b, less);
      PutFirst(a);
      PutFirst(Merge(a, b, less));
      assert Merge(a, b, less)[1..] == Merge(a[1..], b, less);
    } else {
      MergePermutes(a, b[1..], less);
      PutFirst(b);
      PutFirst(Merge(a, b, less));
      assert Merge(a, b, less)[1..] == Merge(a, b[1..], less);
    }
  }

  lemma OrderedCons<T>(x: T, s: seq<T>, less: (T, T) -> bool)
    requires Ordered(s, less) && (s != [] ==> !less(s[0], x))
    ensures Ordered([x] + s, less)
  {
    var r := [x] + s;
    forall i | 0 < i < |r| ensures !less(r[i], r[i - 1]) {
      if i > 1 { assert r[i] == s[i - 1] && r[i - 1] == s[i - 2]; }
    }
  }

  lemma {:induction false} MergeOrdered<T(!new)>(a: seq<T>, b: seq<T>, less: (T, T) -> bool)
    requires StrictWeak(less) && Ordered(a, less) && Ordered(b, less)
    ensures Ordered(Merge(a, b, less), less)
    decreases |a| + |b|
  {
    if a == [] || b == [] {
    } else if !less(b[0], a[0]) {
      OrderedTail(a, less);
      MergeOrdered(a[1..], b, less);
      if |a| > 1 { assert !less(a[1], a[0]); }
      OrderedCons(a[0], Merge(a[1..], b, less), less);
    } else {
      OrderedTail(b, less);
      MergeOrdered(a, b[1..], less);
      if |b| > 1 { assert !less(b[1], b[0]); }
      OrderedCons(b[0], Merge(a, b[1..], less), less);
    }
  }

  // ---------------------------------------------------------------------------------
  // Runs and passes
  // ---------------------------------------------------------------------------------

  lemma OrderedPrefix<T>(s: seq<T>, k: nat, less: (T, T) -> bool)
    requires k <= |s|
    ensures Ordered(s[..k], less) <==> forall i :: 0 < i < k ==> !less(s[i], s[i - 1])
  {
    var p := s[..k];
    if Ordered(p, less) {
      forall i | 0 < i < k ensures !less(s[i], s[i - 1]) { assert !less(p[i], p[i - 1]); }
    }
  }

  /** Where the run that goes through position `k - 1` ends. */
  function RunFrom<T>(s: seq<T>, k: nat, less: (T, T) -> bool): (r: nat)
    requires 1 <= k <= |s| && Ordered(s[..k], less)
    ensures k <= r <= |s| && Ordered(s[..r], less) && (r < |s| ==> less(s[r], s[r - 1]))
    decreases |s| - k
  {
    if k == |s| || less(s[k], s[k - 1]) then k
    else
      OrderedPrefix(s, k, less);
      OrderedPrefix(s, k + 1, less);
      RunFrom(s, k + 1, less)
  }

  /** The length of the first maximal run. */
  function RunLength<T>(s: seq<T>, less: (T, T) -> bool): (r: nat)
    requires s != []
    ensures 1 <= r <= |s| && Ordered(s[..r], less) && (r < |s| ==> less(s[r], s[r - 1]))
  {
    RunFrom(s, 1, less)
  }

  lemma RunLengthIs<T>(s: seq<T>, k: nat, less: (T, T) -> bool)
    requires 1 <= k <= |s| && Ordered(s[..k], less) && (k < |s| ==> less(s[k], s[k - 1]))
    ensures RunLength(s, less) == k
  {
    OrderedPrefix(s, k, less);
    OrderedPrefix(s, RunLength(s, less), less);
  }

  /** How many maximal runs a sequence consists of. */
  function Runs<T>(s: seq<T>, less: (T, T) -> bool): (n: nat)
    ensures n == 0 <==> s == []
  {
    if s == [] then 0 else 1 + Runs(s[RunLength(s, less)..], less)
  }

  /** One pass over the list: adjacent runs are merged two by two. */
  function Pass<T>(s: seq<T>, less: (T, T) -> bool): (r: seq<T>)
    ensures |r| == |s|
  {
    if s == [] then [] else
    var k := RunLength(s, less);
    if k == |s| then s else
    var t := s[k..];
    var l := RunLength(t, less);
    Merge(s[..k], t[..l], less) + Pass(t[l..], less)
  }

  /** The number of runs the pass counts as its output. */
  function OutputRuns<T>(s: seq<T>, less: (T, T) -> bool): (n: nat) {
    if s == [] then 0 else
    var k := RunLength(s, less);
    if k == |s| then 1 else
    var t := s[k..];
    1 + OutputRuns(t[RunLength(t, less)..], less)
  }

  lemma {:induction false} OutputHalves<T>(s: seq<T>, less: (T, T) -> bool)
    ensures OutputRuns(s, less) == (Runs(s, less) + 1) / 2
  {
    if s != [] && RunLength(s, less) < |s| {
      var t := s[RunLength(s, less)..];
      OutputHalves(t[RunLength(t, less)..], less);
    }
  }

  /** The two runs a pass merges first, and what is left. */
  lemma PassUnfolds<T>(s: seq<T>, less: (T, T) -> bool) returns (a: seq<T>, b: seq<T>, u: seq<T>)
    requires s != [] && RunLength(s, less) < |s|
    ensures s == a + (b + u) && a != [] && b != [] && Ordered(a, less) && Ordered(b, less)
    ensures OutputRuns(s, less) == 1 + OutputRuns(u, less)
    ensures Pass(s, less) == Merge(a, b, less) + Pass(u, less)
    ensures u != [] ==> less(u[0], b[|b| - 1])
  {
    var k := RunLength(s, less);
    var t := s[k..];
    var l := RunLength(t, less);
    a, b, u := s[..k], t[..l], t[l..];
    assert t == b + u && s == a + t;
  }

  lemma PassTwo<T>(a: seq<T>, b: seq<T>, u: seq<T>, less: (T, T) -> bool)
    requires a != [] && b != [] && RunLength(a + (b + u), less) == |a| && RunLength(b + u, less) == |b|
    ensures Pass(a + (b + u), less) == Merge(a, b, less) + Pass(u, less)
    ensures OutputRuns(a + (b + u), less) == 1 + OutputRuns(u, less)
  {
    var s := a + (b + u);
    assert s[..|a|] == a && s[|a|..] == b + u && (b + u)[..|b|] == b && (b + u)[|b|..] == u;
  }

  lemma {:induction false} PassStable<T(!new)>(s: seq<T>, x: T, less: (T, T) -> bool)
    requires StrictWeak(less)
    ensures Alike(Pass(s, less), x, less) == Alike(s, x, less)
    decreases |s|
  {
    if s != [] && RunLength(s, less) < |s| {
      var a, b, u := PassUnfolds(s, less);
      PassStable(u, x, less);
      MergeStable(a, b, x, less);
      AlikeConcat(Merge(a, b, less), Pass(u, less), x, less);
      AlikeThree(a, b, u, x, less);
    }
  }

  lemma {:induction false} PassPermutes<T>(s: seq<T>, less: (T, T) -> bool)
    ensures multiset(Pass(s, less)) == multiset(s)
    decreases |s|
  {
    if s != [] && RunLength(s, less) < |s| {
      var a, b, u := PassUnfolds(s, less);
      PassPermutes(u, less);
      MergePermutes(a, b, less);
    }
  }

  /** The first element of a pass is not greater than the first element it was given. */
  lemma PassFront<T(!new)>(s: seq<T>, p: seq<T>, less: (T, T) -> bool)
    requires StrictWeak(less) && s != [] && p == Pass(s, less)
    ensures !less(s[0], p[0])
  {
    var k := RunLength(s, less);
    if k < |s| {
      var t := s[k..];
      assert p[0] == Merge(s[..k], t[..RunLength(t, less)], less)[0];
    }
  }

  /** The last element of a merge is not less than the last element of the second run. */
  lemma {:induction false} MergeBack<T(!new)>(a: seq<T>, b: seq<T>, m: seq<T>, less: (T, T) -> bool)
    requires StrictWeak(less) && Ordered(a, less) && Ordered(b, less) && b != [] && m == Merge(a, b, less)
    ensures !less(m[|m| - 1], b[|b| - 1])
    decreases |a| + |b|
  {
    if a == [] {
    } else if !less(b[0], a[0]) {
      OrderedTail(a, less);
      MergeBack(a[1..], b, Merge(a[1..], b, less), less);
      LastOf(a[0], Merge(a[1..], b, less));
    } else if |b| == 1 {
      OrderedPairs(a, less, 0, |a| - 1);
      NotLess(less, a[|a| - 1], a[0], b[0]);
      LastOf(b[0], a);
    } else {
      OrderedTail(b, less);
      MergeBack(a, b[1..], Merge(a, b[1..], less), less);
      LastOf(b[0], Merge(a, b[1..], less));
    }
  }

  lemma LastOf<T>(x: T, s: seq<T>)
    requires s != []
    ensures ([x] + s)[|s|] == s[|s| - 1]
  {
  }

  lemma RunsJoin<T>(a: seq<T>, b: seq<T>, less: (T, T) -> bool)
    requires a != [] && Ordered(a, less) && (b != [] ==> less(b[0], a[|a| - 1]))
    ensures Runs(a + b, less) == 1 + Runs(b, less)
  {
    var s := a + b;
    assert s[..|a|] == a && s[|a|..] == b;
    RunLengthIs(s, |a|, less);
  }

  lemma StillLess<T(!new)>(less: (T, T) -> bool, p: T, u: T, b: T, m: T)
    requires StrictWeak(less) && !less(u, p) && less(u, b) && !less(m, b)
    ensures less(p, m)
  {
    Between(less, u, p, b);
    Between(less, p, m, b);
  }

  /** Two neighbouring runs of a pass's output cannot be joined. */
  lemma PassBoundary<T(!new)>(a: seq<T>, b: seq<T>, u: seq<T>, m: seq<T>, p: seq<T>, less: (T, T) -> bool)
    requires StrictWeak(less) && Ordered(a, less) && Ordered(b, less) && b != [] && u != [] && less(u[0], b[|b| - 1])
    requires m == Merge(a, b, less) && p == Pass(u, less)
    ensures less(p[0], m[|m| - 1])
  {
    PassFront(u, p, less);
    MergeBack(a, b, m, less);
    StillLess(less, p[0], u[0], b[|b| - 1], m[|m| - 1]);
  }

  /** A pass turns `r` maximal runs into exactly `r / 2`, rounded up, and counts them. */
  lemma {:induction false} PassHalves<T(!new)>(s: seq<T>, less: (T, T) -> bool)
    requires StrictWeak(less)
    ensures Runs(Pass(s, less), less) == OutputRuns(s, less) == (Runs(s, less) + 1) / 2
    decreases |s|
  {
    OutputHalves(s, less);
    if s != [] && RunLength(s, less) < |s| {
      var a, b, u := PassUnfolds(s, less);
      PassHalves(u, less);
      MergeOrdered(a, b, less);
      if u != [] {
        PassBoundary(a, b, u, Merge(a, b, less), Pass(u, less), less);
      }
      RunsJoin(Merge(a, b, less), Pass(u, less), less);
    }
  }

  // ---------------------------------------------------------------------------------
  // The whole sort
  // ---------------------------------------------------------------------------------

  /** Passes until one of them outputs at most one run. */
  ghost function Sort<T(!new)>(s: seq<T>, less: (T, T) -> bool): (r: seq<T>)
    requires StrictWeak(less)
    decreases Runs(s, less)
  {
    PassHalves(s, less);
    if OutputRuns(s, less) <= 1 then Pass(s, less) else Sort(Pass(s, less), less)
  }

  lemma OneRunOrdered<T>(s: seq<T>, less: (T, T) -> bool)
    requires Runs(s, less) <= 1
    ensures Ordered(s, less)
  {
    if s != [] {
      assert s[RunLength(s, less)..] == [];
      assert s[..RunLength(s, less)] == s;
    }
  }

  /** The result is ordered, a permutation, and stable. */
  lemma {:induction false} SortSorts<T(!new)>(s: seq<T>, less: (T, T) -> bool)
    requires StrictWeak(less)
    ensures Ordered(Sort(s, less), less)
    ensures multiset(Sort(s, less)) == multiset(s)
    ensures forall x :: Alike(Sort(s, less), x, less) == Alike(s, x, less)
    decreases Runs(s, less)
  {
    PassHalves(s, less);
    PassPermutes(s, less);
    forall x ensures Alike(Pass(s, less), x, less) == Alike(s, x, less) {
      PassStable(s, x, less);
    }
    if OutputRuns(s, less) <= 1 {
      OneRunOrdered(Pass(s, less), less);
    } else {
      SortSorts(Pass(s, less), less);
    }
  }

  /** The number of passes it takes to sort a list of `runs` runs, if each pass halves them. */
  function PassesFor(runs: nat): (n: nat) {
    if (runs + 1) / 2 <= 1 then 1 else 1 + PassesFor((runs + 1) / 2)
  }

  /** With at most 2^p runs to start from, p passes are enough (and one is always made). */
  lemma {:induction false} PassesLogarithmic(runs: nat, p: nat)
    requires runs <= Pow2(p)
    ensures PassesFor(runs) <= if p == 0 then 1 else p
  {
    if (runs + 1) / 2 > 1 {
      assert Pow2(0) == 1;
      assert p > 1;
      PassesLogarithmic((runs + 1) / 2, p - 1);
    }
  }

  // ---------------------------------------------------------------------------------
  // The stages of the loop
  // ---------------------------------------------------------------------------------

  /** After `passes` passes the list is `v`, and it is `done` if the last pass output at most one
      run; in the end it will be `goal`, after `total` passes. */
  datatype Stage<!T> = Stage(v: seq<T>, done: bool, passes: nat, less: (T, T) -> bool, goal: seq<T>, total: nat)

  ghost predicate SortsTo<T(!new)>(z: Stage<T>) {
    && StrictWeak(z.less)
    && z.goal == (if z.done then z.v else Sort(z.v, z.less))
    && z.total == z.passes + (if z.done then 0 else PassesFor(Runs(z.v, z.less)))
  }

  type Sorting<!T(!new)> = z: Stage<T> | SortsTo(z) ghost witness Stage([], true, 0, (a, b) => false, [], 0)

  ghost predicate SameSort<T(!new)>(z: Sorting<T>, y: Sorting<T>) {
    y.less == z.less && y.goal == z.goal && y.total == z.total
  }

  ghost function StagesLeft<T(!new)>(z: Sorting<T>): (n: nat) {
    if z.done then 0 else 1 + Runs(z.v, z.less)
  }

  ghost function Unsorted<T(!new)>(w: seq<T>, less: (T, T) -> bool): (z: Sorting<T>)
    requires StrictWeak(less)
  {
    Stage(w, false, 0, less, Sort(w, less), PassesFor(Runs(w, less)))
  }

  lemma SortOnce<T(!new)>(w: seq<T>, less: (T, T) -> bool)
    requires StrictWeak(less)
    ensures Sort(w, less) == if OutputRuns(w, less) <= 1 then Pass(w, less) else Sort(Pass(w, less), less)
  {
  }

  lemma HalvesOnce(r: nat, h: nat)
    requires h == (r + 1) / 2
    ensures PassesFor(r) == (if h <= 1 then 1 else 1 + PassesFor(h)) && (h > 1 ==> h < r)
  {
  }

  lemma CountOnce<T(!new)>(w: seq<T>, less: (T, T) -> bool)
    requires StrictWeak(less)
    ensures PassesFor(Runs(w, less)) == 1 + if OutputRuns(w, less) <= 1 then 0 else PassesFor(Runs(Pass(w, less), less))
    ensures OutputRuns(w, less) > 1 ==> Runs(Pass(w, less), less) < Runs(w, less)
  {
    PassHalves(w, less);
    HalvesOnce(Runs(w, less), OutputRuns(w, less));
  }

  ghost function NextPass<T(!new)>(z: Sorting<T>): (y: Sorting<T>)
    requires !z.done
  {
    SortOnce(z.v, z.less);
    CountOnce(z.v, z.less);
    z.(v := Pass(z.v, z.less), done := OutputRuns(z.v, z.less) <= 1, passes := z.passes + 1)
  }

  lemma FewerStages<T(!new)>(z: Sorting<T>)
    requires !z.done
    ensures StagesLeft(NextPass(z)) < StagesLeft(z)
  {
    CountOnce(z.v, z.less);
  }
}
