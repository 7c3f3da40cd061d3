/**
 Doubly linked lists with a head and a tail element, and `list_sort` on them: the `prev` and
 `next` fields are rewritten in place, against ghost sequences that say where each element
 stands.  `item` stands for whatever the element is embedded in; `less` compares items.
 */
module List {
  import opened MergeRuns

  class Elem<T> {
    const item: T
    var prev: Elem?<T>
    var next: Elem?<T>

    constructor (item: T)
      ensures this.item == item && prev == null && next == null
    {
      this.item, prev, next := item, null, null;
    }
  }

  /** `s` is a whole list, from head to tail: neighbours point at each other. */
  ghost predicate Linked<T>(s: seq<Elem<T>>)
    reads s
  {
    && |s| >= 2 && s[0].prev == null && s[|s| - 1].next == null
    && (forall i :: 0 <= i < |s| - 1 ==> s[i].next == s[i + 1])
    && (forall i :: 0 < i < |s| ==> s[i].prev == s[i - 1])
  }

  ghost predicate NoRepeats<T>(s: seq<Elem<T>>) {
    forall i, j :: 0 <= i < j < |s| ==> s[i] != s[j]
  }

  ghost function Items<T>(s: seq<Elem<T>>): (r: seq<T>)
    ensures |r| == |s| && forall i :: 0 <= i < |s| ==> r[i] == s[i].item
  {
    seq(|s|, i requires 0 <= i < |s| => s[i].item)
  }

  /** Where the element at `j` of that order stood before. */
  function Origin(j: nat, b: nat, f: nat, l: nat): (i: nat)
    requires b <= f <= l
    ensures i < l || i == j
  {
    if j < b || l <= j then j else if j < b + (l - f) then f + (j - b) else j - (l - f)
  }

  /** The order after the elements `f .. l` have moved to just before position `b`. */
  ghost function Moved<T>(s: seq<T>, b: nat, f: nat, l: nat): (t: seq<T>)
    requires b <= f <= l <= |s|
    ensures |t| == |s|
  {
    seq(|s|, j requires 0 <= j < |s| => s[Origin(j, b, f, l)])
  }

  lemma MovedFrom<T>(s: seq<T>, b: nat, f: nat, l: nat)
    requires b <= f <= l <= |s|
    ensures var t := Moved(s, b, f, l);
      forall j :: 0 <= j < |t| ==> Origin(j, b, f, l) < |s| && t[j] == s[Origin(j, b, f, l)]
  {
  }

  /** Whom the element at `i` points at after the six assignments of `list_splice`. */
  ghost function NewNext<T>(s: seq<T>, b: nat, f: nat, l: nat, i: nat): (e: T)
    requires 0 < b < f < l < |s| && i < |s| - 1
  {
    if i == f - 1 then s[l] else if i == l - 1 then s[b] else if i == b - 1 then s[f] else s[i + 1]
  }

  ghost function NewPrev<T>(s: seq<T>, b: nat, f: nat, l: nat, i: nat): (e: T)
    requires 0 < b < f < l < |s| && 0 < i < |s|
  {
    if i == l then s[f - 1] else if i == f then s[b - 1] else if i == b then s[l - 1] else s[i - 1]
  }

  lemma RelinkedNext<T>(s: seq<Elem<T>>, t: seq<Elem<T>>, b: nat, f: nat, l: nat)
    requires 0 < b < f < l < |s| && t == Moved(s, b, f, l)
    requires forall i :: 0 <= i < |s| - 1 ==> s[i].next == NewNext(s, b, f, l, i)
    ensures forall j :: 0 <= j < |t| - 1 ==> t[j].next == t[j + 1]
  {
    forall j | 0 <= j < |t| - 1 ensures t[j].next == t[j + 1] {
      var i := Origin(j, b, f, l);
      assert s[i].next == NewNext(s, b, f, l, i);
      assert t[j] == s[i] && t[j + 1] == s[Origin(j + 1, b, f, l)];
    }
  }

  lemma RelinkedPrev<T>(s: seq<Elem<T>>, t: seq<Elem<T>>, b: nat, f: nat, l: nat)
    requires 0 < b < f < l < |s| && t == Moved(s, b, f, l)
    requires forall i :: 0 < i < |s| ==> s[i].prev == NewPrev(s, b, f, l, i)
    ensures forall j :: 0 < j < |t| ==> t[j].prev == t[j - 1]
  {
    forall j | 0 < j < |t| ensures t[j].prev == t[j - 1] {
      var i := Origin(j, b, f, l);
      assert s[i].prev == NewPrev(s, b, f, l, i);
      assert t[j] == s[i] && t[j - 1] == s[Origin(j - 1, b, f, l)];
    }
  }

  /** These links are those of the moved order. */
  lemma Relinked<T>(s: seq<Elem<T>>, b: nat, f: nat, l: nat)
    requires 0 < b < f < l < |s|
    requires s[0].prev == null && s[|s| - 1].next == null
    requires forall i :: 0 <= i < |s| - 1 ==> s[i].next == NewNext(s, b, f, l, i)
    requires forall i :: 0 < i < |s| ==> s[i].prev == NewPrev(s, b, f, l, i)
    ensures Linked(Moved(s, b, f, l))
  {
    RelinkedNext(s, Moved(s, b, f, l), b, f, l);
    RelinkedPrev(s, Moved(s, b, f, l), b, f, l);
  }

  /** `at` says where in `s` an element stands. */
  ghost predicate Places<T>(s: seq<Elem<T>>, at: map<Elem<T>, int>) {
    forall i :: 0 <= i < |s| ==> s[i] in at && at[s[i]] == i
  }

  lemma PlacesOf<T>(s: seq<Elem<T>>) returns (at: map<Elem<T>, int>)
    requires NoRepeats(s)
    ensures Places(s, at)
  {
    at := map[];
    for i := 0 to |s|
      invariant forall j :: 0 <= j < i ==> s[j] in at && at[s[j]] == j
    {
      at := at[s[i] := i];
    }
  }

  /** The six assignments of `list_splice`. */
  method Relink<T>(before: Elem<T>, first: Elem<T>, last: Elem<T>, ghost s: seq<Elem<T>>, ghost at: map<Elem<T>, int>,
                   ghost b: nat, ghost f: nat, ghost l: nat)
    requires Places(s, at) && Linked(s) && 0 < b < f < l < |s|
    requires before == s[b] && first == s[f] && last == s[l - 1]
    modifies s
    ensures s[0].prev == null && s[|s| - 1].next == null
    ensures forall i :: 0 <= i < |s| - 1 ==> s[i].next == NewNext(s, b, f, l, i)
    ensures forall i :: 0 < i < |s| ==> s[i].prev == NewPrev(s, b, f, l, i)
  {
    assert last.next == s[l] && first.prev == s[f - 1] && before.prev == s[b - 1];
    first.prev.next := last.next;
    last.next.prev := first.prev;
    first.prev := before.prev;
    last.next := before;
    before.prev.next := first;
    before.prev := last;
  }

  /** `list_splice` inside one list: the elements `f .. l` of `s`, from `first` up to but not
      including `last`, move to just before `before`, which stands earlier, at `b`. */
  method Splice<T>(before: Elem<T>, first: Elem<T>, last: Elem<T>, ghost s: seq<Elem<T>>, ghost b: nat, ghost f: nat,
                   ghost l: nat)
    requires NoRepeats(s) && Linked(s) && 0 < b < f <= l < |s|
    requires before == s[b] && first == s[f] && last == s[l]
    modifies s
    ensures Linked(Moved(s, b, f, l))
  {
    if first == last {
      assert f == l;
      assert Moved(s, b, f, l) == s;
      return;
    }
    assert last.prev == s[l - 1];
    ghost var at := PlacesOf(s);
    Relink(before, first, last.prev, s, at, b, f, l);
    Relinked(s, b, f, l);
  }

  // ---------------------------------------------------------------------------------
  // Sorting
  // ---------------------------------------------------------------------------------

  /** The maximal run of `w[i..n]` that starts at `i` ends at `j`. */
  ghost predicate RunEnds<T>(w: seq<T>, i: nat, j: nat, n: nat, less: (T, T) -> bool) {
    && i < j <= n <= |w|
    && (forall q :: i < q < j ==> !less(w[q], w[q - 1]))
    && (j < n ==> less(w[j], w[j - 1]))
  }

  lemma RunEndsAt<T>(w: seq<T>, i: nat, j: nat, n: nat, less: (T, T) -> bool)
    requires RunEnds(w, i, j, n, less)
    ensures RunLength(w[i..n], less) == j - i
  {
    var r := w[i..n];
    forall q | 0 < q < j - i ensures !less(r[q], r[q - 1]) {
      assert r[q] == w[i + q] && r[q - 1] == w[i + q - 1];
    }
    OrderedPrefix(r, j - i, less);
    RunLengthIs(r, j - i, less);
  }

  /** `find_end_of_run` of `s[i..j]`. */
  method FindEndOfRun<T>(a: Elem<T>, b: Elem<T>, less: (T, T) -> bool, ghost s: seq<Elem<T>>, ghost i: nat,
                         ghost j: nat)
      returns (e: Elem<T>, ghost k: nat)
    requires NoRepeats(s) && Linked(s) && 0 < i < j < |s| && a == s[i] && b == s[j]
    ensures RunEnds(Items(s), i, k, j, less) && e == s[k]
  {
    ghost var w := Items(s);
    assert s[i].next == s[i + 1] && s[i + 1].prev == s[i];
    e, k := a.next, i + 1;
    while e != b && !less(e.item, e.prev.item)
      invariant i < k <= j && e == s[k] && e.prev == s[k - 1]
      invariant forall q :: i < q < k ==> !less(w[q], w[q - 1])
      decreases j - k
    {
      assert w[k] == s[k].item && w[k - 1] == s[k - 1].item;
      assert s[k].next == s[k + 1] && s[k + 1].prev == s[k];
      e, k := e.next, k + 1;
    }
  }

  /** `t` is `s` with the elements from `i` to `k` in another order. */
  ghost predicate Shuffled<T>(s: seq<Elem<T>>, t: seq<Elem<T>>, i: nat, k: nat) {
    && |t| == |s| && i <= k <= |s|
    && NoRepeats(t) && (forall q :: 0 <= q < |t| ==> t[q] in s)
    && (forall q :: 0 <= q < i || k <= q < |t| ==> t[q] == s[q])
  }

  lemma ShuffledMore<T>(s: seq<Elem<T>>, t: seq<Elem<T>>, i: nat, x: nat, y: nat, k: nat)
    requires Shuffled(s, t, i, k) && i <= x < y < k
    ensures Shuffled(s, Moved(t, x, y, y + 1), i, k)
  {
    MovedFrom(t, x, y, y + 1);
  }

  function MergeAfter<T>(front: seq<T>, a: seq<T>, b: seq<T>, less: (T, T) -> bool): (r: seq<T>) {
    front + Merge(a, b, less)
  }

  /** What is merged already, followed by the merge of the rest, is `target`. */
  ghost predicate MergesTo<T>(w: seq<T>, i: nat, x: nat, y: nat, k: nat, less: (T, T) -> bool, target: seq<T>) {
    && i <= x <= y <= k <= |w|
    && MergeAfter(w[i..x], w[x..y], w[y..k], less) == target
  }

  lemma MergeOne<T>(front: seq<T>, a: seq<T>, b: seq<T>, less: (T, T) -> bool)
    requires a != [] && b != []
    ensures MergeAfter(front, a, b, less) ==
      if !less(b[0], a[0]) then MergeAfter(front + [a[0]], a[1..], b, less)
      else MergeAfter(front + [b[0]], a, b[1..], less)
  {
  }

  /** The first run's element goes first: it stays where it is. */
  lemma TakeFirst<T>(w: seq<T>, i: nat, x: nat, y: nat, k: nat, less: (T, T) -> bool, target: seq<T>)
    requires MergesTo(w, i, x, y, k, less, target) && x < y < k && !less(w[y], w[x])
    ensures MergesTo(w, i, x + 1, y, k, less, target)
  {
    MergeOne(w[i..x], w[x..y], w[y..k], less);
    assert w[x + 1..y] == w[x..y][1..] && w[i..x + 1] == w[i..x] + [w[x]];
  }

  lemma MovedParts<T>(w: seq<T>, i: nat, x: nat, y: nat, k: nat)
    requires i <= x < y < k <= |w|
    ensures var w' := Moved(w, x, y, y + 1);
      w'[i..x + 1] == w[i..x] + [w[y]] && w'[x + 1..y + 1] == w[x..y] && w'[y + 1..k] == w[y..k][1..]
  {
    MovedFrom(w, x, y, y + 1);
  }

  /** The second run's element goes first: it moves. */
  lemma TakeSecond<T>(w: seq<T>, v: seq<T>, i: nat, x: nat, y: nat, k: nat, less: (T, T) -> bool, target: seq<T>)
    requires MergesTo(w, i, x, y, k, less, target) && x < y < k && less(w[y], w[x]) && v == Moved(w, x, y, y + 1)
    ensures MergesTo(v, i, x + 1, y + 1, k, less, target)
  {
    MovedParts(w, i, x, y, k);
    MergeOne(w[i..x], w[x..y], w[y..k], less);
  }

  lemma MovedItems<T>(t: seq<Elem<T>>, x: nat, y: nat)
    requires x < y < |t|
    ensures Items(Moved(t, x, y, y + 1)) == Moved(Items(t), x, y, y + 1)
  {
    MovedFrom(t, x, y, y + 1);
    MovedFrom(Items(t), x, y, y + 1);
  }

  /** The elements `s`, now in the order `t`, the same outside `i .. k`. */
  datatype Arrangement<!T> = Arrangement(s: seq<Elem<T>>, t: seq<Elem<T>>, i: nat, k: nat)

  type Order<!T> = o: Arrangement<T> | Shuffled(o.s, o.t, o.i, o.k) ghost witness Arrangement([], [], 0, 0)

  ghost function MoveOne<T>(o: Order<T>, x: nat, y: nat): (r: Order<T>)
    requires o.i <= x < y < o.k
  {
    ShuffledMore(o.s, o.t, o.i, x, y, o.k);
    o.(t := Moved(o.t, x, y, y + 1))
  }

  /** How far `inplace_merge` has come: in the order `o`, `a0` stands at `x` and `a1b0` at `y`, and
      the merge of what is left gives `target`. */
  datatype Work<!T> = Work(o: Order<T>, x: nat, y: nat, less: (T, T) -> bool, target: seq<T>)

  ghost predicate OnTrack<T>(m: Work<T>) {
    MergesTo(Items(m.o.t), m.o.i, m.x, m.y, m.o.k, m.less, m.target)
  }

  type Merging<!T> = m: Work<T> | OnTrack(m) ghost witness Work(Arrangement([], [], 0, 0), 0, 0, (a, b) => false, [])

  ghost predicate FirstGoes<T>(m: Merging<T>)
    requires m.x < m.y < m.o.k
  {
    !m.less(m.o.t[m.y].item, m.o.t[m.x].item)
  }

  ghost function Stay<T>(m: Merging<T>): (r: Merging<T>)
    requires m.x < m.y < m.o.k && FirstGoes(m)
  {
    TakeFirst(Items(m.o.t), m.o.i, m.x, m.y, m.o.k, m.less, m.target);
    m.(x := m.x + 1)
  }

  lemma MoveMerges<T>(m: Merging<T>, r: Order<T>)
    requires m.x < m.y < m.o.k && !FirstGoes(m) && r == MoveOne(m.o, m.x, m.y)
    ensures MergesTo(Items(r.t), m.o.i, m.x + 1, m.y + 1, m.o.k, m.less, m.target)
  {
    assert r.t == Moved(m.o.t, m.x, m.y, m.y + 1);
    MovedItems(m.o.t, m.x, m.y);
    TakeSecond(Items(m.o.t), Items(r.t), m.o.i, m.x, m.y, m.o.k, m.less, m.target);
  }

  ghost function Move<T>(m: Merging<T>): (r: Merging<T>)
    requires m.x < m.y < m.o.k && !FirstGoes(m)
  {
    MoveMerges(m, MoveOne(m.o, m.x, m.y));
    m.(o := MoveOne(m.o, m.x, m.y), x := m.x + 1, y := m.y + 1)
  }

  /** `r` is another stage of the merge that `m` is a stage of. */
  ghost predicate SameMerge<T>(m: Merging<T>, r: Merging<T>) {
    r.o.s == m.o.s && r.o.i == m.o.i && r.o.k == m.o.k && r.less == m.less && r.target == m.target
  }

  /** The links are those of `m`, and `a` and `b` stand where `m` says. */
  ghost predicate At<T>(m: Merging<T>, a: Elem<T>, b: Elem<T>)
    reads m.o.t
  {
    0 < m.o.i && m.o.k < |m.o.s| && Linked(m.o.t) && a == m.o.t[m.x] && b == m.o.t[m.y]
  }

  lemma Within<T>(m: Merging<T>, a: Elem<T>, b: Elem<T>, b1: Elem<T>)
    requires At(m, a, b) && b1 == m.o.s[m.o.k]
    ensures a != b <==> m.x != m.y
    ensures b != b1 <==> m.y != m.o.k
  {
  }

  lemma MovedAt<T>(t: seq<T>, x: nat, y: nat)
    requires x < y < |t| - 1
    ensures var t' := Moved(t, x, y, y + 1); t'[x + 1] == t[x] && t'[y + 1] == t[y + 1]
  {
  }

  lemma MergeEnds<T>(m: Merging<T>)
    requires m.x == m.y || m.y == m.o.k
    ensures Items(m.o.t)[m.o.i..m.o.k] == m.target
  {
    var w := Items(m.o.t);
    assert w[m.o.i..m.o.k] == w[m.o.i..m.x] + w[m.x..m.y] + w[m.y..m.o.k];
  }

  method MoveBefore<T>(a0: Elem<T>, a1b0: Elem<T>, ghost t: seq<Elem<T>>, ghost x: nat, ghost y: nat)
    returns (b: Elem<T>)
    requires NoRepeats(t) && Linked(t) && 0 < x < y < |t| - 1 && a0 == t[x] && a1b0 == t[y]
    modifies t
    ensures var t' := Moved(t, x, y, y + 1); Linked(t') && t'[x + 1] == a0 && t'[y + 1] == b
  {
    assert t[y].next == t[y + 1] && t[y + 1].prev == t[y];
    b := a1b0.next;
    Splice(a0, b.prev, b, t, x, y, y + 1);
    MovedAt(t, x, y);
  }

  lemma Stays<T>(m: Merging<T>, a: Elem<T>, b: Elem<T>)
    requires m.x < m.y < m.o.k && FirstGoes(m) && At(m, a, b)
    ensures a.next != null && At(Stay(m), a.next, b)
  {
    assert m.o.t[m.x].next == m.o.t[m.x + 1];
  }

  lemma Arrives<T>(m: Merging<T>, a: Elem<T>, b: Elem<T>)
    requires m.x < m.y < m.o.k && !FirstGoes(m) && 0 < m.o.i && m.o.k < |m.o.s|
    requires var t' := Moved(m.o.t, m.x, m.y, m.y + 1); Linked(t') && t'[m.x + 1] == a && t'[m.y + 1] == b
    ensures At(Move(m), a, b)
  {
    assert Move(m).o.t == Moved(m.o.t, m.x, m.y, m.y + 1);
  }

  method MoveStep<T>(a0: Elem<T>, a1b0: Elem<T>, ghost m: Merging<T>) returns (b: Elem<T>, ghost r: Merging<T>)
    requires At(m, a0, a1b0) && m.x < m.y < m.o.k && !FirstGoes(m)
    modifies m.o.t
    ensures SameMerge(m, r) && r.x == m.x + 1 && At(r, a0, b)
  {
    b := MoveBefore(a0, a1b0, m.o.t, m.x, m.y);
    Arrives(m, a0, b);
    r := Move(m);
  }

  /** One turn of the loop: `a0` stays in front, or `a1b0`'s element moves before it. */
  method MergeStep<T>(a0: Elem<T>, a1b0: Elem<T>, less: (T, T) -> bool, ghost m: Merging<T>)
      returns (a: Elem<T>, b: Elem<T>, ghost r: Merging<T>)
    requires At(m, a0, a1b0) && m.x < m.y < m.o.k && less == m.less
    modifies m.o.t
    ensures SameMerge(m, r) && r.x == m.x + 1 && At(r, a, b)
  {
    if !less(a1b0.item, a0.item) {
      Stays(m, a0, a1b0);
      return a0.next, a1b0, Stay(m);
    } else {
      b, r := MoveStep(a0, a1b0, m);
      a := a0;
    }
  }

  /** `inplace_merge` of `s[i..j]` with `s[j..k]`. */
  method InplaceMerge<T>(a0: Elem<T>, a1b0: Elem<T>, b1: Elem<T>, less: (T, T) -> bool,
                         ghost s: seq<Elem<T>>, ghost i: nat, ghost j: nat,
                         ghost k: nat) returns (ghost t: seq<Elem<T>>)
    requires NoRepeats(s) && Linked(s) && 0 < i < j < k < |s| && a0 == s[i] && a1b0 == s[j] && b1 == s[k]
    modifies s
    ensures Shuffled(s, t, i, k) && Linked(t)
    ensures Items(t)[i..k] == Merge(Items(s)[i..j], Items(s)[j..k], less)
  {
    var a, b := a0, a1b0;
    ghost var start: Merging<T> := Work(Arrangement(s, s, i, k), i, j, less,
      Merge(Items(s)[i..j], Items(s)[j..k], less));
    ghost var m := start;
    while a != b && b != b1
      invariant SameMerge(start, m) && At(m, a, b)
      decreases k - m.x
    {
      Within(m, a, b, b1);
      a, b, m := MergeStep(a, b, less, m);
    }
    Within(m, a, b, b1);
    MergeEnds(m);
    t := m.o.t;
  }

  /** What a pass leaves: the front it has put in order already, and the pass over the rest. */
  function PassAfter<T>(front: seq<T>, rest: seq<T>, less: (T, T) -> bool): (r: seq<T>) {
    front + Pass(rest, less)
  }

  lemma PassOne<T>(front: seq<T>, rest: seq<T>, m: seq<T>, u: seq<T>, less: (T, T) -> bool)
    requires Pass(rest, less) == m + Pass(u, less)
    ensures PassAfter(front, rest, less) == PassAfter(front + m, u, less)
  {
    Concats(front, m, Pass(u, less));
  }

  lemma Concats<T>(a: seq<T>, b: seq<T>, c: seq<T>)
    ensures a + (b + c) == (a + b) + c
  {
  }

  /** How far a pass over `w[lo..n]` has come: to position `i`, having counted `count` output runs;
      it will leave `target` and count `total`. */
  datatype Progress<!T> = Progress(w: seq<T>, lo: nat, i: nat, n: nat, count: nat, less: (T, T) -> bool, target: seq<T>,
                                   total: nat)

  ghost predicate PassesTo<T>(p: Progress<T>) {
    && p.lo <= p.i <= p.n <= |p.w|
    && PassAfter(p.w[p.lo..p.i], p.w[p.i..p.n], p.less) == p.target
    && p.count + OutputRuns(p.w[p.i..p.n], p.less) == p.total
  }

  type Passing<!T> = p: Progress<T> | PassesTo(p) ghost witness Progress([], 0, 0, 0, 0, (a, b) => false, [], 0)

  ghost function StartPass<T>(w: seq<T>, lo: nat, n: nat, less: (T, T) -> bool): (p: Passing<T>)
    requires lo <= n <= |w|
  {
    Progress(w, lo, lo, n, 0, less, Pass(w[lo..n], less), OutputRuns(w[lo..n], less))
  }

  lemma PassEnds<T>(p: Passing<T>)
    requires p.i == p.n
    ensures p.w[p.lo..p.n] == p.target && p.count == p.total
  {
  }

  /** The last run stays as it is. */
  lemma LastRun<T>(p: Passing<T>)
    requires RunEnds(p.w, p.i, p.n, p.n, p.less)
    ensures PassAfter(p.w[p.lo..p.n], [], p.less) == p.target && p.count + 1 == p.total
  {
    RunEndsAt(p.w, p.i, p.n, p.n, p.less);
    Slices(p.w, p.lo, p.i, p.n, p.n);
  }

  ghost function LastRuns<T>(p: Passing<T>): (r: Passing<T>)
    requires RunEnds(p.w, p.i, p.n, p.n, p.less)
  {
    LastRun(p);
    assert p.w[p.n..p.n] == [];
    p.(i := p.n, count := p.count + 1)
  }

  lemma Slices<T>(w: seq<T>, i: nat, j: nat, k: nat, n: nat)
    requires i <= j <= k <= n <= |w|
    ensures w[i..k] == w[i..j] + w[j..k] && w[j..n] == w[j..k] + w[k..n] && w[i..n] == w[i..j] + (w[j..k] + w[k..n])
  {
  }

  /** `v` is `w` with `w[i..j]` and `w[j..k]` merged. */
  ghost predicate Merged<T>(w: seq<T>, v: seq<T>, i: nat, j: nat, k: nat, less: (T, T) -> bool) {
    && i <= j <= k <= |w| == |v|
    && v[..i] == w[..i] && v[i..k] == Merge(w[i..j], w[j..k], less) && v[k..] == w[k..]
  }

  lemma MergedParts<T>(w: seq<T>, v: seq<T>, lo: nat, i: nat, j: nat, k: nat, n: nat, less: (T, T) -> bool)
    requires Merged(w, v, i, j, k, less) && lo <= i && k <= n <= |w|
    ensures v[lo..k] == w[lo..i] + Merge(w[i..j], w[j..k], less) && v[k..n] == w[k..n]
  {
    assert v[lo..i] == v[..i][lo..] && w[lo..i] == w[..i][lo..];
    assert v[k..n] == v[k..][..n - k] && w[k..n] == w[k..][..n - k];
    Slices(v, lo, i, k, n);
  }

  lemma TwoRuns<T>(p: Passing<T>, v: seq<T>, j: nat, k: nat)
    requires RunEnds(p.w, p.i, j, p.n, p.less) && RunEnds(p.w, j, k, p.n, p.less) && Merged(p.w, v, p.i, j, k, p.less)
    ensures PassAfter(v[p.lo..k], v[k..p.n], p.less) == p.target
    ensures p.count + 1 + OutputRuns(v[k..p.n], p.less) == p.total
  {
    RunEndsAt(p.w, p.i, j, p.n, p.less);
    RunEndsAt(p.w, j, k, p.n, p.less);
    Slices(p.w, p.i, j, k, p.n);
    PassTwo(p.w[p.i..j], p.w[j..k], p.w[k..p.n], p.less);
    PassOne(p.w[p.lo..p.i], p.w[p.i..p.n], Merge(p.w[p.i..j], p.w[j..k], p.less), p.w[k..p.n], p.less);
    MergedParts(p.w, v, p.lo, p.i, j, k, p.n, p.less);
  }

  /** Two runs are merged, and the pass goes on behind them. */
  ghost function NextRuns<T>(p: Passing<T>, v: seq<T>, j: nat, k: nat): (r: Passing<T>)
    requires RunEnds(p.w, p.i, j, p.n, p.less) && RunEnds(p.w, j, k, p.n, p.less) && Merged(p.w, v, p.i, j, k, p.less)
  {
    TwoRuns(p, v, j, k);
    p.(w := v, i := k, count := p.count + 1)
  }

  lemma ShuffledTwice<T>(s: seq<Elem<T>>, t: seq<Elem<T>>, u: seq<Elem<T>>, lo: nat, hi: nat, i: nat, k: nat)
    requires Shuffled(s, t, lo, hi) && Shuffled(t, u, i, k) && lo <= i && k <= hi
    ensures Shuffled(s, u, lo, hi)
  {
  }

  lemma MergedItems<T>(t: seq<Elem<T>>, u: seq<Elem<T>>, i: nat, j: nat, k: nat, less: (T, T) -> bool)
    requires Shuffled(t, u, i, k) && i <= j <= k && Items(u)[i..k] == Merge(Items(t)[i..j], Items(t)[j..k], less)
    ensures Merged(Items(t), Items(u), i, j, k, less)
  {
  }

  /** The order `t` is where the pass `p` over the elements of `s` has come to, `a0` being next. */
  ghost predicate Sweeps<T>(s: seq<Elem<T>>, t: seq<Elem<T>>, p: Passing<T>, a0: Elem<T>)
    reads t
  {
    && |s| >= 2 && Shuffled(s, t, 1, |s| - 1) && Linked(t)
    && p.lo == 1 && p.n == |s| - 1 && p.w == Items(t) && a0 == t[p.i]
  }

  /** Find two runs, the second of which may be missing, and merge them. */
  method MergeNext<T>(a0: Elem<T>, tail: Elem<T>, less: (T, T) -> bool,
                      ghost s: seq<Elem<T>>, ghost t: seq<Elem<T>>, ghost p: Passing<T>)
      returns (last: bool, b1: Elem<T>, ghost u: seq<Elem<T>>, ghost j: nat, ghost k: nat)
    requires Sweeps(s, t, p, a0) && tail == t[p.n] && p.i < p.n && less == p.less
    modifies t
    ensures Shuffled(s, u, 1, |s| - 1) && Linked(u)
    ensures RunEnds(p.w, p.i, j, p.n, less)
    ensures last <==> j == p.n
    ensures last ==> u == t && b1 == tail
    ensures !last ==> RunEnds(p.w, j, k, p.n, less) && Merged(p.w, Items(u), p.i, j, k, less) && b1 == u[k]
  {
    var a1b0;
    a1b0, j := FindEndOfRun(a0, tail, less, t, p.i, p.n);
    if a1b0 == tail {
      assert j == p.n;
      return true, tail, t, j, j;
    }
    b1, k := FindEndOfRun(a1b0, tail, less, t, j, p.n);
    u := InplaceMerge(a0, a1b0, b1, less, t, p.i, j, k);
    MergedItems(t, u, p.i, j, k, less);
    ShuffledTwice(s, t, u, 1, |s| - 1, p.i, k);
    last := false;
  }

  /** The items between head and tail. */
  ghost function Inner<T>(s: seq<Elem<T>>): (r: seq<T>)
    requires |s| >= 2
  {
    Items(s)[1..|s| - 1]
  }

  ghost predicate SamePass<T>(p: Passing<T>, r: Passing<T>) {
    r.lo == p.lo && r.n == p.n && r.less == p.less && r.target == p.target && r.total == p.total
  }

  /** One turn of the inner loop. */
  method PassStep<T>(a0: Elem<T>, tail: Elem<T>, less: (T, T) -> bool,
                     ghost s: seq<Elem<T>>, ghost t: seq<Elem<T>>, ghost p: Passing<T>)
      returns (b1: Elem<T>, ghost u: seq<Elem<T>>, ghost r: Passing<T>)
    requires Sweeps(s, t, p, a0) && tail == t[p.n] && p.i < p.n && less == p.less
    modifies t
    ensures Sweeps(s, u, r, b1) && SamePass(p, r) && r.i > p.i && r.count == p.count + 1
  {
    var last;
    ghost var j, k;
    last, b1, u, j, k := MergeNext(a0, tail, less, s, t, p);
    if last {
      r := LastRuns(p);
    } else {
      r := NextRuns(p, Items(u), j, k);
    }
  }

  /** One pass of `list_sort`, and the number of runs it outputs. */
  method OnePass<T>(head: Elem<T>, tail: Elem<T>, less: (T, T) -> bool, ghost s: seq<Elem<T>>)
    returns (count: nat, ghost t: seq<Elem<T>>)
    requires NoRepeats(s) && Linked(s) && head == s[0] && tail == s[|s| - 1]
    modifies s
    ensures Shuffled(s, t, 1, |s| - 1) && Linked(t)
    ensures Inner(t) == Pass(Inner(s), less) && count == OutputRuns(Inner(s), less)
  {
    ghost var start := StartPass(Items(s), 1, |s| - 1, less);
    ghost var p := start;
    t := s;
    count := 0;
    assert s[0].next == s[1];
    var a0: Elem<T> := head.next;
    while a0 != tail
      invariant Sweeps(s, t, p, a0) && SamePass(start, p) && count == p.count
      decreases |s| - p.i
    {
      count := count + 1;
      a0, t, p := PassStep(a0, tail, less, s, t, p);
    }
    PassEnds(p);
  }

  lemma EndsStay<T>(s: seq<Elem<T>>, t: seq<Elem<T>>, i: nat, k: nat)
    requires Shuffled(s, t, i, k) && 0 < i && k < |s|
    ensures NoRepeats(t) && t[0] == s[0] && t[|t| - 1] == s[|s| - 1]
  {
  }

  /** A list: its head, its tail, and the ghost order of all its elements between them. */
  class List<T(!new)> {
    const head: Elem<T>
    const tail: Elem<T>
    ghost var order: seq<Elem<T>>

    ghost predicate Valid()
      reads this, order
    {
      NoRepeats(order) && Linked(order) && head == order[0] && tail == order[|order| - 1]
    }

    ghost function Contents(): (r: seq<T>)
      requires Valid()
      reads this, order
    {
      Inner(order)
    }

    constructor (head: Elem<T>, tail: Elem<T>)
      requires head != tail
      modifies head, tail
      ensures Valid() && Contents() == [] && order == [head, tail]
    {
      this.head, this.tail, order := head, tail, [head, tail];
      new;
      head.prev, head.next := null, tail;
      tail.prev, tail.next := head, null;
    }

    /** One turn of the outer loop. */
    method SortPass(less: (T, T) -> bool) returns (count: nat)
      requires Valid()
      modifies `order, order
      ensures Valid() && Shuffled(old(order), order, 1, |order| - 1)
      ensures Contents() == Pass(old(Contents()), less) && count == OutputRuns(old(Contents()), less)
    {
      ghost var t;
      count, t := OnePass(head, tail, less, order);
      EndsStay(order, t, 1, |order| - 1);
      order := t;
    }

    /** `list_sort`, and the number of passes it makes. */
    method Sort(less: (T, T) -> bool) returns (ghost passes: nat)
      requires Valid() && StrictWeak(less)
      modifies `order, order
      ensures Valid() && Shuffled(old(order), order, 1, |order| - 1)
      ensures Contents() == MergeRuns.Sort(old(Contents()), less)
      ensures Ordered(Contents(), less) && multiset(Contents()) == multiset(old(Contents()))
      ensures forall x :: Alike(Contents(), x, less) == Alike(old(Contents()), x, less)
      ensures passes == PassesFor(Runs(old(Contents()), less))
    {
      ghost var s := order;
      ghost var start := Unsorted(Inner(s), less);
      ghost var z := start;
      var more := true;
      while more
        invariant Valid() && Shuffled(s, order, 1, |s| - 1)
        invariant Inner(order) == z.v && SameSort(start, z) && more == !z.done
        decreases StagesLeft(z)
      {
        ghost var t := order;
        var count := SortPass(less);
        ShuffledTwice(s, t, order, 1, |s| - 1, 1, |s| - 1);
        FewerStages(z);
        z := NextPass(z);
        more := count > 1;
      }
      SortSorts(Inner(s), less);
      passes := z.passes;
    }
  }
}
