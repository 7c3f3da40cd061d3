/**
 The hash table: buckets are lists, elements are found by their hash and compared with `less`, and
 the number of buckets follows the number of elements.  Two elements are the same for the table if
 neither is less than the other.
 */
module HashTable {
  import opened Powers

  // ---------------------------------------------------------------------------------
  // The number of buckets
  // ---------------------------------------------------------------------------------

  /** `x & y`, bit by bit. */
  function BitAnd(x: nat, y: nat): (r: nat)
    ensures r <= x && r <= y
  {
    if x == 0 || y == 0 then 0 else 2 * BitAnd(x / 2, y / 2) + (x % 2) * (y % 2)
  }

  predicate HasBit(x: nat, i: nat) {
    if i == 0 then x % 2 == 1 else HasBit(x / 2, i - 1)
  }

  lemma {:induction false} NoBits(i: nat)
    ensures !HasBit(0, i)
  {
    if i > 0 { NoBits(i - 1); }
  }

  lemma {:induction false} BitAndBits(x: nat, y: nat, i: nat)
    ensures HasBit(BitAnd(x, y), i) <==> HasBit(x, i) && HasBit(y, i)
  {
    if x == 0 || y == 0 {
      NoBits(i);
    } else {
      var half := BitAnd(x / 2, y / 2);
      assert BitAnd(x, y) / 2 == half && BitAnd(x, y) % 2 == (x % 2) * (y % 2);
      if i > 0 { BitAndBits(x / 2, y / 2, i - 1); }
    }
  }

  lemma {:induction false} BitAndSelf(x: nat)
    ensures BitAnd(x, x) == x
  {
    if x > 0 { BitAndSelf(x / 2); }
  }

  /** `turn_off_least_1bit`. */
  function TurnOff(x: nat): (r: nat)
    ensures x > 0 ==> r < x
  {
    if x == 0 then 0 else BitAnd(x, x - 1)
  }

  /** It clears the lowest bit that is set. */
  lemma TurnOffBits(x: nat)
    requires x > 0
    ensures TurnOff(x) == if x % 2 == 1 then x - 1 else 2 * TurnOff(x / 2)
  {
    if x % 2 == 1 { BitAndSelf(x / 2); } else { assert (x - 1) / 2 == x / 2 - 1; }
  }

  lemma OneMoreBit(x: nat, m: nat, mask: nat)
    requires x > 0 && mask == 2 * m + 1
    ensures BitAnd(x, mask) == 2 * BitAnd(x / 2, m) + x % 2
  {
    assert mask / 2 == m && mask % 2 == 1;
  }

  lemma DoubledMultiple(q: nat, m: nat, n: nat, half: nat, low: nat, x: nat, bit: nat)
    requires half == q * m + low && x == 2 * half + bit && n == 2 * m
    ensures x == q * n + (2 * low + bit)
  {
    Commute(2, m);
    Times(q, m, 2);
  }

  /** What the mask takes off a number is a multiple of the number of buckets. */
  lemma {:induction false} MaskSplits(x: nat, k: nat) returns (q: nat)
    ensures x == q * Pow2(k) + BitAnd(x, Pow2(k) - 1)
    decreases k
  {
    if k == 0 || x == 0 {
      q := x;
    } else {
      var m := Pow2(k - 1);
      q := MaskSplits(x / 2, k - 1);
      OneMoreBit(x, m - 1, Pow2(k) - 1);
      DoubledMultiple(q, m, Pow2(k), x / 2, BitAnd(x / 2, m - 1), x, x % 2);
    }
  }

  lemma RemainderIs(x: nat, n: nat, q: nat, r: nat)
    requires n > 0 && x == q * n + r && r < n
    ensures x % n == r
  {
    QuotientIs(x, n, q);
  }

  /** So the mask that `find_bucket` applies to a hash gives its remainder. */
  lemma MaskIsRemainder(x: nat, k: nat)
    ensures BitAnd(x, Pow2(k) - 1) == x % Pow2(k)
  {
    var q := MaskSplits(x, k);
    RemainderIs(x, Pow2(k), q, BitAnd(x, Pow2(k) - 1));
  }

  /** The highest bit stays, unless it is the only one. */
  lemma {:induction false} TurnOffTop(x: nat, k: nat)
    requires Pow2(k) <= x < Pow2(k + 1)
    ensures if x == Pow2(k) then TurnOff(x) == 0 else TurnOff(x) >= Pow2(k)
    decreases k
  {
    TurnOffBits(x);
    if k > 0 {
      TurnOffTop(x / 2, k - 1);
    }
  }

  lemma {:induction false} TopBit(x: nat) returns (k: nat)
    requires x > 0
    ensures Pow2(k) <= x < Pow2(k + 1)
    decreases x
  {
    if x == 1 {
      k := 0;
    } else {
      var j := TopBit(x / 2);
      k := j + 1;
    }
  }

  /** The bucket count that `rehash` wants: the greatest power of two that is at most half the number
      of elements, and at least four. */
  method BucketCount(elements: nat) returns (n: nat, ghost k: nat)
    ensures n == Pow2(k) && k >= 2
    ensures elements >= 8 ==> 2 * n <= elements < 4 * n
    ensures elements < 8 ==> n == 4
  {
    n := elements / 2;
    if n < 4 { n := 4; }
    ghost var m := n;
    k := TopBit(m);
    assert Pow2(2) == 4 && Pow2(1) == 2;
    if k < 2 { Pow2Grows(k + 1, 2); }
    while !(n != 0 && TurnOff(n) == 0)
      invariant Pow2(k) <= n <= m < Pow2(k + 1)
      decreases n
    {
      TurnOffTop(n, k);
      n := TurnOff(n);
    }
    TurnOffTop(n, k);
  }

  // ---------------------------------------------------------------------------------
  // Buckets and what is in them
  // ---------------------------------------------------------------------------------

  datatype Keys<!E> = Keys(hash: E -> nat, less: (E, E) -> bool)

  predicate Same<E>(keys: Keys<E>, a: E, b: E) { !keys.less(a, b) && !keys.less(b, a) }

  /** What the table needs of its functions: being the same is an equivalence that the hash respects. */
  ghost predicate KeysOk<E(!new)>(keys: Keys<E>) {
    && (forall a :: Same(keys, a, a))
    && (forall a, b, c :: Same(keys, a, b) && Same(keys, b, c) ==> Same(keys, a, c))
    && (forall a, b :: Same(keys, a, b) ==> keys.hash(a) == keys.hash(b))
  }

  /** `find_bucket`. */
  function Index<E>(keys: Keys<E>, e: E, n: nat): (i: nat)
    requires n > 0
    ensures i < n
  {
    BitAnd(keys.hash(e), n - 1)
  }

  lemma IndexIsRemainder<E>(keys: Keys<E>, e: E, k: nat)
    ensures Index(keys, e, Pow2(k)) == keys.hash(e) % Pow2(k)
  {
    MaskIsRemainder(keys.hash(e), k);
  }

  /** No two elements of a list are the same. */
  predicate Different<E>(keys: Keys<E>, list: seq<E>) {
    forall i, j :: 0 <= i < j < |list| ==> !Same(keys, list[i], list[j])
  }

  ghost predicate Absent<E>(keys: Keys<E>, list: seq<E>, e: E) {
    forall x :: x in list ==> !Same(keys, x, e) && !Same(keys, e, x)
  }

  function Total<E>(buckets: seq<seq<E>>): (n: nat) {
    if buckets == [] then 0 else |buckets[0]| + Total(buckets[1..])
  }

  /** The buckets hold exactly the elements `elems`, each in its place. */
  ghost predicate Holds<E>(keys: Keys<E>, buckets: seq<seq<E>>, elems: seq<E>) {
    && buckets != []
    && (forall i, x :: 0 <= i < |buckets| && x in buckets[i] ==> Index(keys, x, |buckets|) == i && x in elems)
    && (forall x :: x in elems ==> x in buckets[Index(keys, x, |buckets|)])
    && (forall i :: 0 <= i < |buckets| ==> Different(keys, buckets[i]))
    && Different(keys, elems) && Total(buckets) == |elems|
  }

  lemma {:induction false} TotalAfter<E>(buckets: seq<seq<E>>, i: nat, list: seq<E>)
    requires i < |buckets|
    ensures Total(buckets[i := list]) == Total(buckets) + |list| - |buckets[i]|
  {
    if i > 0 {
      assert buckets[i := list][1..] == buckets[1..][i - 1 := list];
      TotalAfter(buckets[1..], i - 1, list);
    } else {
      assert buckets[i := list][1..] == buckets[1..];
    }
  }

  lemma DifferentFront<E>(keys: Keys<E>, list: seq<E>, e: E)
    requires Different(keys, list) && Absent(keys, list, e)
    ensures Different(keys, [e] + list)
  {
  }

  lemma DifferentBack<E>(keys: Keys<E>, list: seq<E>, e: E)
    requires Different(keys, list) && Absent(keys, list, e)
    ensures Different(keys, list + [e])
  {
  }

  /** An element that is not there, and none like it, goes to the front of its bucket. */
  lemma Adds<E(!new)>(keys: Keys<E>, buckets: seq<seq<E>>, elems: seq<E>, e: E)
    requires Holds(keys, buckets, elems) && Absent(keys, elems, e)
    ensures var i := Index(keys, e, |buckets|); Holds(keys, buckets[i := [e] + buckets[i]], elems + [e])
  {
    var i := Index(keys, e, |buckets|);
    var list := buckets[i];
    TotalAfter(buckets, i, [e] + list);
    assert Absent(keys, list, e);
    DifferentFront(keys, list, e);
    DifferentBack(keys, elems, e);
    var b := buckets[i := [e] + list];
    forall x | x in elems + [e] ensures x in b[Index(keys, x, |b|)] {
      if x in elems { assert x in buckets[Index(keys, x, |b|)]; }
    }
  }

  function RemoveAt<E>(list: seq<E>, j: nat): (r: seq<E>)
    requires j < |list|
    ensures |r| == |list| - 1
  {
    list[..j] + list[j + 1..]
  }

  lemma RemoveAtIs<E(!new)>(keys: Keys<E>, list: seq<E>, j: nat)
    requires KeysOk(keys) && Different(keys, list) && j < |list|
    ensures Different(keys, RemoveAt(list, j)) && forall x :: x in RemoveAt(list, j) <==> x in list && x != list[j]
  {
    var r := RemoveAt(list, j);
    forall x | x in list && x != list[j] ensures x in r {
      var k :| 0 <= k < |list| && list[k] == x;
      assert r[if k < j then k else k - 1] == x;
    }
    forall k | 0 <= k < |r| ensures r[k] in list && r[k] != list[j] {
      assert Same(keys, list[j], list[j]);
      assert r[k] == list[if k < j then k else k + 1];
    }
  }

  /** An element leaves its bucket. */
  lemma Drops<E(!new)>(keys: Keys<E>, buckets: seq<seq<E>>, elems: seq<E>, i: nat, j: nat, m: nat)
    requires KeysOk(keys) && Holds(keys, buckets, elems) && i < |buckets| && j < |buckets[i]| && m < |elems| &&
      elems[m] == buckets[i][j]
    ensures Holds(keys, buckets[i := RemoveAt(buckets[i], j)], RemoveAt(elems, m))
  {
    var e, list := elems[m], buckets[i];
    assert e in list;
    RemoveAtIs(keys, list, j);
    RemoveAtIs(keys, elems, m);
    TotalAfter(buckets, i, RemoveAt(list, j));
    var b := buckets[i := RemoveAt(list, j)];
    forall k, x | 0 <= k < |b| && x in b[k] ensures Index(keys, x, |b|) == k && x in RemoveAt(elems, m) {
      assert x in buckets[k];
    }
    forall x | x in RemoveAt(elems, m) ensures x in b[Index(keys, x, |b|)] { assert x in elems; }
  }

  /** The element `x` is in one of the first `i` buckets. */
  ghost predicate Before<E>(buckets: seq<seq<E>>, i: nat, x: E)
    requires i <= |buckets|
  {
    exists k :: 0 <= k < i && x in buckets[k]
  }

  /** `done` are the elements of the first `i` buckets and the first `j` of the next. */
  ghost predicate Walked<E(!new)>(keys: Keys<E>, buckets: seq<seq<E>>, i: nat, j: nat, done: seq<E>)
  {
    && i <= |buckets| && (if i < |buckets| then j <= |buckets[i]| else j == 0)
    && (forall x :: x in done <==> Before(buckets, i, x) || (i < |buckets| && x in buckets[i][..j]))
    && |done| == Total(buckets[..i]) + j && Different(keys, done)
  }

  lemma TotalNext<E>(buckets: seq<seq<E>>, i: nat)
    requires i < |buckets|
    ensures Total(buckets[..i + 1]) == Total(buckets[..i]) + |buckets[i]|
    decreases i
  {
    if i > 0 {
      assert buckets[..i + 1][1..] == buckets[1..][..i] && buckets[..i][1..] == buckets[1..][..i - 1];
      TotalNext(buckets[1..], i - 1);
    }
  }

  /** The next element of the walk is not like any before. */
  lemma NextIsNew<E(!new)>(keys: Keys<E>, buckets: seq<seq<E>>, elems: seq<E>, i: nat, j: nat, done: seq<E>)
    requires KeysOk(keys) && Holds(keys, buckets, elems) && Walked(keys, buckets, i, j, done) && i < |buckets| &&
      j < |buckets[i]|
    ensures Absent(keys, done, buckets[i][j])
  {
    var e := buckets[i][j];
    assert e in buckets[i];
    forall x | x in done ensures !Same(keys, x, e) && !Same(keys, e, x) {
      if Before(buckets, i, x) {
        var k :| 0 <= k < i && x in buckets[k];
        assert Index(keys, x, |buckets|) == k && Index(keys, e, |buckets|) == i;
      } else {
        var k :| 0 <= k < j && buckets[i][k] == x;
        assert !Same(keys, buckets[i][k], buckets[i][j]);
      }
    }
  }

  lemma WalksOn<E(!new)>(keys: Keys<E>, buckets: seq<seq<E>>, elems: seq<E>, i: nat, j: nat, done: seq<E>)
    requires KeysOk(keys) && Holds(keys, buckets, elems) && Walked(keys, buckets, i, j, done) && i < |buckets| &&
      j < |buckets[i]|
    ensures Walked(keys, buckets, i, j + 1, done + [buckets[i][j]])
  {
    NextIsNew(keys, buckets, elems, i, j, done);
    DifferentBack(keys, done, buckets[i][j]);
    assert buckets[i][..j + 1] == buckets[i][..j] + [buckets[i][j]];
  }

  lemma WalksOver<E(!new)>(keys: Keys<E>, buckets: seq<seq<E>>, i: nat, done: seq<E>)
    requires i < |buckets| && Walked(keys, buckets, i, |buckets[i]|, done)
    ensures Walked(keys, buckets, i + 1, 0, done)
  {
    TotalNext(buckets, i);
    assert buckets[i][..|buckets[i]|] == buckets[i];
    forall x ensures x in done <==> Before(buckets, i + 1, x) {
      if x in buckets[i] { assert Before(buckets, i + 1, x); }
      if Before(buckets, i, x) { assert Before(buckets, i + 1, x); }
    }
  }

  /** Who has walked over all buckets has seen every element exactly once. */
  lemma WalkedAll<E(!new)>(keys: Keys<E>, buckets: seq<seq<E>>, elems: seq<E>, done: seq<E>)
    requires Holds(keys, buckets, elems) && Walked(keys, buckets, |buckets|, 0, done)
    ensures |done| == |elems| && Different(keys, done) && forall x :: x in done <==> x in elems
  {
    assert buckets[..|buckets|] == buckets;
    forall x ensures x in done <==> x in elems {
      if x in elems { assert Before(buckets, |buckets|, x); }
    }
  }

  /** The order in which the elements are listed does not matter. */
  lemma HoldsAlso<E(!new)>(keys: Keys<E>, buckets: seq<seq<E>>, elems: seq<E>, elems': seq<E>)
    requires Holds(keys, buckets, elems) && Different(keys, elems') && |elems'| == |elems| &&
      forall x :: x in elems <==> x in elems'
    ensures Holds(keys, buckets, elems')
  {
  }

  // ---------------------------------------------------------------------------------
  // The table
  // ---------------------------------------------------------------------------------

  datatype Found<E> = Nothing | Found(e: E)

  ghost predicate PowerOfTwo(n: nat) { exists k :: k >= 2 && n == Pow2(k) }

  /** `find_elem`: where in the list an element like `e` is. */
  method FindElem<E(!new)>(keys: Keys<E>, list: seq<E>, e: E) returns (j: nat)
    ensures j <= |list|
    ensures j < |list| ==> Same(keys, list[j], e)
    ensures j == |list| ==> Absent(keys, list, e)
  {
    j := 0;
    while j < |list| && !(!keys.less(list[j], e) && !keys.less(e, list[j]))
      invariant j <= |list| && forall k :: 0 <= k < j ==> !Same(keys, list[k], e)
    {
      j := j + 1;
    }
  }

  /** If an element like `e` is anywhere, it is in the bucket of `e`. */
  lemma InItsBucket<E(!new)>(keys: Keys<E>, buckets: seq<seq<E>>, elems: seq<E>, e: E)
    requires KeysOk(keys) && Holds(keys, buckets, elems) && Absent(keys, buckets[Index(keys, e, |buckets|)], e)
    ensures Absent(keys, elems, e)
  {
    forall x | x in elems ensures !Same(keys, x, e) && !Same(keys, e, x) {
      if keys.hash(x) == keys.hash(e) { assert x in buckets[Index(keys, e, |buckets|)]; }
    }
  }

  /** New, empty buckets hold nothing. */
  lemma EmptyHolds<E(!new)>(keys: Keys<E>, buckets: seq<seq<E>>)
    requires buckets != [] && forall i :: 0 <= i < |buckets| ==> buckets[i] == []
    ensures Holds(keys, buckets, [])
  {
    EmptyTotal(buckets);
  }

  lemma {:induction false} EmptyTotal<E>(buckets: seq<seq<E>>)
    requires forall i :: 0 <= i < |buckets| ==> buckets[i] == []
    ensures Total(buckets) == 0
  {
    if buckets != [] { EmptyTotal(buckets[1..]); }
  }

  /** The loops of `rehash`: every element moves to the front of its new bucket. */
  method MoveAll<E(==, !new)>(keys: Keys<E>, from: seq<seq<E>>, n: nat, ghost elems: seq<E>)
    returns (buckets: seq<seq<E>>)
    requires KeysOk(keys) && Holds(keys, from, elems) && n > 0
    ensures |buckets| == n && Holds(keys, buckets, elems)
  {
    buckets := seq(n, i => []);
    EmptyHolds(keys, buckets);
    ghost var done := [];
    var i := 0;
    while i < |from|
      invariant i <= |from| && |buckets| == n && Walked(keys, from, i, 0, done) && Holds(keys, buckets, done)
    {
      var j := 0;
      while j < |from[i]|
        invariant j <= |from[i]| && |buckets| == n && Walked(keys, from, i, j, done) && Holds(keys, buckets, done)
      {
        var e := from[i][j];
        NextIsNew(keys, from, elems, i, j, done);
        WalksOn(keys, from, elems, i, j, done);
        Adds(keys, buckets, done, e);
        var b := Index(keys, e, n);
        buckets := buckets[b := [e] + buckets[b]];
        done := done + [e];
        j := j + 1;
      }
      WalksOver(keys, from, i, done);
      i := i + 1;
    }
    WalkedAll(keys, from, elems, done);
    HoldsAlso(keys, buckets, done, elems);
  }

  class Table<E(==, !new)> {
    const keys: Keys<E>
    var buckets: seq<seq<E>>
    var count: nat
    ghost var elems: seq<E>

    /** The table holds `elems`, no two of which are the same, in a power of two of buckets. */
    ghost predicate Valid()
      reads this
    {
      KeysOk(keys) && Holds(keys, buckets, elems) && count == |elems| && PowerOfTwo(|buckets|)
    }

    /** Between a quarter and half as many buckets as elements, and at least four. */
    predicate Balanced()
      reads this
    {
      if count < 8 then |buckets| == 4 else 2 * |buckets| <= count < 4 * |buckets|
    }

    constructor (keys: Keys<E>)
      requires KeysOk(keys)
      ensures Valid() && elems == [] && Balanced() && this.keys == keys
    {
      this.keys := keys;
      buckets, count, elems := [[], [], [], []], 0, [];
      new;
      EmptyHolds(keys, buckets);
      assert Pow2(2) == 4;
    }

    /** `rehash`; without memory for new buckets everything stays as it is. */
    method Rehash(memory: bool)
      requires Valid()
      modifies `buckets
      ensures Valid() && (memory ==> Balanced()) && (!memory ==> buckets == old(buckets))
    {
      var n;
      ghost var k;
      n, k := BucketCount(count);
      Pow2Grows(2, k);
      if n == |buckets| || !memory { return; }
      buckets := MoveAll(keys, buckets, n, elems);
    }

    /** `hash_find`. */
    method Find(e: E) returns (r: Found<E>)
      requires Valid()
      ensures r.Found? ==> r.e in elems && Same(keys, r.e, e)
      ensures r.Nothing? ==> Absent(keys, elems, e)
    {
      var list := buckets[Index(keys, e, |buckets|)];
      var j := FindElem(keys, list, e);
      if j < |list| {
        assert list[j] in list;
        r := Found(list[j]);
      } else {
        InItsBucket(keys, buckets, elems, e);
        r := Nothing;
      }
    }

    method InsertElem(e: E)
      requires Valid() && Absent(keys, elems, e)
      modifies this
      ensures Valid() && elems == old(elems) + [e]
    {
      var i := Index(keys, e, |buckets|);
      Adds(keys, buckets, elems, e);
      count := count + 1;
      buckets := buckets[i := [e] + buckets[i]];
      elems := elems + [e];
    }

    method RemoveElem(i: nat, j: nat)
      requires Valid() && i < |buckets| && j < |buckets[i]|
      modifies this
      ensures Valid() && forall x :: x in elems <==> x in old(elems) && x != old(buckets)[i][j]
      ensures |buckets| == |old(buckets)|
    {
      var e := buckets[i][j];
      assert e in buckets[i] && Index(keys, e, |buckets|) == i;
      assert e in elems;
      ghost var m :| 0 <= m < |elems| && elems[m] == e;
      Drops(keys, buckets, elems, i, j, m);
      RemoveAtIs(keys, elems, m);
      count := count - 1;
      buckets := buckets[i := RemoveAt(buckets[i], j)];
      elems := RemoveAt(elems, m);
    }

    /** `hash_insert`: an element like the new one stays, and is returned. */
    method Insert(e: E, memory: bool) returns (r: Found<E>)
      requires Valid()
      modifies this
      ensures Valid() && (memory ==> Balanced())
      ensures r.Nothing? ==> Absent(keys, old(elems), e) && elems == old(elems) + [e]
      ensures r.Found? ==> r.e in old(elems) && Same(keys, r.e, e) && elems == old(elems)
    {
      r := Find(e);
      if r.Nothing? {
        InsertElem(e);
      }
      Rehash(memory);
    }

    /** `hash_replace`: an element like the new one is taken out, and returned. */
    method Replace(e: E, memory: bool) returns (r: Found<E>)
      requires Valid()
      modifies this
      ensures Valid() && (memory ==> Balanced())
      ensures r.Nothing? ==> Absent(keys, old(elems), e) && forall x :: x in elems <==> x in old(elems) || x == e
      ensures r.Found? ==>
        r.e in old(elems) && Same(keys, r.e, e) && forall x :: x in elems <==> (x in old(elems) && x != r.e) || x == e
    {
      r := TakeOut(e);
      InsertElem(e);
      Rehash(memory);
    }

    /** An element like `e` is taken out, if there is one. */
    method TakeOut(e: E) returns (r: Found<E>)
      requires Valid()
      modifies this
      ensures Valid() && Absent(keys, elems, e)
      ensures r.Nothing? ==> elems == old(elems) && buckets == old(buckets)
      ensures r.Found? ==>
        r.e in old(elems) && Same(keys, r.e, e) && forall x :: x in elems <==> x in old(elems) && x != r.e
    {
      var i := Index(keys, e, |buckets|);
      var j := FindElem(keys, buckets[i], e);
      if j < |buckets[i]| {
        r := Found(buckets[i][j]);
        assert r.e in buckets[i];
        OnlyOne(keys, elems, r.e, e);
        RemoveElem(i, j);
      } else {
        InItsBucket(keys, buckets, elems, e);
        r := Nothing;
      }
    }

    /** `hash_delete`. */
    method Delete(e: E, memory: bool) returns (r: Found<E>)
      requires Valid()
      modifies this
      ensures Valid() && (r.Found? && memory ==> Balanced())
      ensures r.Nothing? ==> Absent(keys, old(elems), e) && elems == old(elems) && buckets == old(buckets)
      ensures r.Found? ==>
        r.e in old(elems) && Same(keys, r.e, e) && forall x :: x in elems <==> x in old(elems) && x != r.e
    {
      r := TakeOut(e);
      if r.Found? {
        Rehash(memory);
      }
    }

    /** `hash_next`: the place after place `j` of bucket `i`, the end if there is none. */
    method Next(i: nat, j: nat, ghost seen: seq<E>) returns (i': nat, j': nat)
      requires Valid() && i < |buckets| && Walked(keys, buckets, i, j, seen)
      ensures Walked(keys, buckets, i', j', seen) && (i' < |buckets| ==> j' < |buckets[i']|)
    {
      i', j' := i, j;
      while j' == |buckets[i']|
        invariant i' < |buckets| && Walked(keys, buckets, i', j', seen)
        decreases |buckets| - i'
      {
        WalksOver(keys, buckets, i', seen);
        i', j' := i' + 1, 0;
        if i' == |buckets| { return; }
      }
    }

    /** `hash_first` and then `hash_next` to the end: every element exactly once. */
    method Iterate() returns (seen: seq<E>)
      requires Valid()
      ensures |seen| == |elems| && Different(keys, seen) && forall x :: x in seen <==> x in elems
    {
      seen := [];
      var i: nat, j: nat := Next(0, 0, seen);
      while i < |buckets|
        invariant Walked(keys, buckets, i, j, seen) && (i < |buckets| ==> j < |buckets[i]|)
        decreases |elems| - |seen|
      {
        WalkBound(keys, buckets, elems, i, j, seen);
        WalksOn(keys, buckets, elems, i, j, seen);
        seen := seen + [buckets[i][j]];
        i, j := Next(i, j + 1, seen);
      }
      WalkedAll(keys, buckets, elems, seen);
    }
  }

  lemma OnlyOne<E(!new)>(keys: Keys<E>, elems: seq<E>, x: E, e: E)
    requires KeysOk(keys) && Different(keys, elems) && x in elems && Same(keys, x, e)
    ensures forall y :: y in elems && y != x ==> !Same(keys, y, e) && !Same(keys, e, y)
  {
    forall y | y in elems && y != x ensures !Same(keys, y, e) {
      var i :| 0 <= i < |elems| && elems[i] == x;
      var j :| 0 <= j < |elems| && elems[j] == y;
      assert Same(keys, e, x);
    }
  }

  lemma {:induction false} TotalPart<E>(buckets: seq<seq<E>>, i: nat)
    requires i <= |buckets|
    ensures Total(buckets[..i]) <= Total(buckets)
  {
    if i > 0 {
      assert buckets[..i][1..] == buckets[1..][..i - 1];
      TotalPart(buckets[1..], i - 1);
    }
  }

  lemma WalkBound<E(!new)>(keys: Keys<E>, buckets: seq<seq<E>>, elems: seq<E>, i: nat, j: nat, seen: seq<E>)
    requires Holds(keys, buckets, elems) && Walked(keys, buckets, i, j, seen) && i < |buckets| && j < |buckets[i]|
    ensures |seen| < |elems|
  {
    TotalNext(buckets, i);
    TotalPart(buckets, i + 1);
  }
}
