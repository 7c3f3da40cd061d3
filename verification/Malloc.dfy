/**
 The kernel heap: descriptors for seven block sizes, each with a list of free blocks, carved out of
 one-page arenas, and runs of whole pages for larger requests.  An address is a number; a page is
 named by its number, so the address of page `a` is `a * PGSIZE`.
 */
module Malloc {
  import opened Sequences

  const PGSIZE: nat := 4096
  const HEADER: nat := 12
  const CLASSES: nat := 7

  /** `size_t` has 32 bits. */
  const WORDS: nat := 0x1_0000_0000

  type Word = n: nat | n < WORDS

  function Size(d: nat): (n: nat)
    requires d < CLASSES
  {
    [16, 32, 64, 128, 256, 512, 1024][d]
  }

  function PerArena(d: nat): (n: nat)
    requires d < CLASSES
  {
    (PGSIZE - HEADER) / Size(d)
  }

  /** `arena_to_block`. */
  function Block(a: nat, d: nat, i: nat): (b: nat)
    requires d < CLASSES
  {
    a * PGSIZE + HEADER + i * Size(d)
  }

  /** Blocks lie behind the header, inside the page. */
  lemma BlockInside(a: nat, d: nat, i: nat)
    requires d < CLASSES && i < PerArena(d)
    ensures a * PGSIZE + HEADER <= Block(a, d, i) && Block(a, d, i) + Size(d) <= (a + 1) * PGSIZE
    ensures Block(a, d, i) / PGSIZE == a
  {
    assert (i + 1) * Size(d) <= PGSIZE - HEADER;
  }

  lemma BlocksApart(a: nat, d: nat, i: nat, j: nat)
    requires d < CLASSES && i < j
    ensures Block(a, d, i) + Size(d) <= Block(a, d, j)
  {
    assert (j - i) * Size(d) >= Size(d);
  }

  datatype Arena = Small(d: nat, free: nat) | Big(pages: nat)

  /** `live` are the blocks handed out and not yet given back. */
  datatype Heap = Heap(arenas: map<nat, Arena>, lists: seq<seq<nat>>, live: set<nat>)

  /** Where in its arena a block of class `d` at address `b` would be. */
  function IndexOf(d: nat, b: nat): (i: int)
    requires d < CLASSES
  {
    (b % PGSIZE - HEADER) / Size(d)
  }

  predicate IsBlock(arenas: map<nat, Arena>, d: nat, b: nat)
    requires d < CLASSES
  {
    var a, i := b / PGSIZE, IndexOf(d, b);
    && a in arenas && arenas[a].Small? && arenas[a].d == d
    && 0 <= i < PerArena(d) && b == Block(a, d, i)
  }

  lemma BlockIsBlock(arenas: map<nat, Arena>, a: nat, d: nat, i: nat)
    requires d < CLASSES && i < PerArena(d) && a in arenas && arenas[a].Small? && arenas[a].d == d
    ensures IsBlock(arenas, d, Block(a, d, i)) && IndexOf(d, Block(a, d, i)) == i
  {
    BlockInside(a, d, i);
    var b := Block(a, d, i);
    assert b % PGSIZE == HEADER + i * Size(d);
  }

  // ---------------------------------------------------------------------------------
  // The heap between calls
  // ---------------------------------------------------------------------------------

  ghost function FreeIndices(list: seq<nat>, a: nat, d: nat): (f: set<nat>)
    requires d < CLASSES
  {
    set i | 0 <= i < PerArena(d) && Block(a, d, i) in list
  }

  /** A small arena counts its blocks on the free list, and has at least one block that is not. */
  ghost predicate SmallOk(list: seq<nat>, live: set<nat>, a: nat, d: nat, free: nat)
    requires d < CLASSES
  {
    && free == |FreeIndices(list, a, d)| && free < PerArena(d)
    && forall i :: 0 <= i < PerArena(d) ==> (Block(a, d, i) in live <==> Block(a, d, i) !in list)
  }

  function PagesOf(x: Arena): (n: nat) { if x.Small? then 1 else x.pages }

  /** The pages `a .. a + n` are not those of the arena `x` at `e`. */
  predicate Elsewhere(a: nat, n: nat, e: nat, x: Arena) { a + n <= e || e + PagesOf(x) <= a }

  ghost predicate ArenaOk(h: Heap, a: nat, x: Arena) {
    && a > 0
    && (forall e :: e in h.arenas && e != a ==> Elsewhere(a, PagesOf(x), e, h.arenas[e]))
    && (x.Small? ==> x.d < |h.lists| == CLASSES && SmallOk(h.lists[x.d], h.live, a, x.d, x.free))
    && (x.Big? ==> x.pages > 0 && a * PGSIZE + HEADER in h.live)
  }

  predicate ListOk(arenas: map<nat, Arena>, d: nat, list: seq<nat>)
    requires d < CLASSES
  {
    NoDup(list) && forall b :: b in list ==> IsBlock(arenas, d, b)
  }

  predicate LiveOk(arenas: map<nat, Arena>, b: nat) {
    && b / PGSIZE in arenas
    && match arenas[b / PGSIZE]
       case Small(d, _) => d < CLASSES && IsBlock(arenas, d, b)
       case Big(_) => b == b / PGSIZE * PGSIZE + HEADER
  }

  ghost predicate HeapOk(h: Heap) {
    && |h.lists| == CLASSES
    && (forall a :: a in h.arenas ==> ArenaOk(h, a, h.arenas[a]))
    && (forall d :: 0 <= d < CLASSES ==> ListOk(h.arenas, d, h.lists[d]))
    && (forall b :: b in h.live ==> LiveOk(h.arenas, b))
  }

  /** How many bytes a live block has. */
  function Room(h: Heap, b: nat): (n: int)
    requires LiveOk(h.arenas, b)
  {
    match h.arenas[b / PGSIZE]
    case Small(d, _) => Size(d)
    case Big(n) => n * PGSIZE - HEADER
  }

  /** Live blocks lie behind the header of their arena, inside its pages, and do not overlap. */
  lemma LiveInside(h: Heap, b: nat)
    requires HeapOk(h) && b in h.live
    ensures LiveOk(h.arenas, b)
    ensures var a := b / PGSIZE;
      a * PGSIZE + HEADER <= b && b + Room(h, b) <= (a + PagesOf(h.arenas[a])) * PGSIZE
  {
    var a := b / PGSIZE;
    assert LiveOk(h.arenas, b);
    match h.arenas[a]
    case Small(d, _) => BlockInside(a, d, IndexOf(d, b));
    case Big(n) => assert ArenaOk(h, a, h.arenas[a]);
  }

  lemma LiveDisjoint(h: Heap, b: nat, c: nat)
    requires HeapOk(h) && b in h.live && c in h.live && b < c
    ensures LiveOk(h.arenas, b) && b + Room(h, b) <= c
  {
    LiveInside(h, b);
    LiveInside(h, c);
    var a, e := b / PGSIZE, c / PGSIZE;
    if a == e {
      SameArena(h, b, c);
    } else {
      assert ArenaOk(h, a, h.arenas[a]);
      assert Elsewhere(a, PagesOf(h.arenas[a]), e, h.arenas[e]);
    }
  }

  lemma SameArena(h: Heap, b: nat, c: nat)
    requires HeapOk(h) && b in h.live && c in h.live && b < c && b / PGSIZE == c / PGSIZE
    ensures LiveOk(h.arenas, b) && b + Room(h, b) <= c
  {
    var a := b / PGSIZE;
    assert LiveOk(h.arenas, b) && LiveOk(h.arenas, c);
    match h.arenas[a]
    case Small(d, _) =>
      var i, j := IndexOf(d, b), IndexOf(d, c);
      if i < j { BlocksApart(a, d, i, j); } else if j < i { BlocksApart(a, d, j, i); }
    case Big(n) =>
  }

  /** An arena is held only while it has a live block. */
  lemma SomeLive(h: Heap, a: nat) returns (b: nat)
    requires HeapOk(h) && a in h.arenas
    ensures b in h.live && b / PGSIZE == a
  {
    assert ArenaOk(h, a, h.arenas[a]);
    match h.arenas[a]
    case Big(_) => b := a * PGSIZE + HEADER;
    case Small(d, _) =>
      var i := NotFree(h.lists[d], a, d);
      b := Block(a, d, i);
      BlockInside(a, d, i);
  }

  lemma NotFree(list: seq<nat>, a: nat, d: nat) returns (i: nat)
    requires d < CLASSES && |FreeIndices(list, a, d)| < PerArena(d)
    ensures i < PerArena(d) && Block(a, d, i) !in list
  {
    var f, all := FreeIndices(list, a, d), Upto(PerArena(d));
    assert f != all;
    assert f <= all;
    i :| i in all && i !in f;
  }

  /** A heap without live blocks holds no page, and its lists are empty. */
  lemma NothingHeld(h: Heap)
    requires HeapOk(h) && h.live == {}
    ensures h.arenas == map[] && forall d :: 0 <= d < CLASSES ==> h.lists[d] == []
  {
    assert h.arenas.Keys == {} by {
      if a :| a in h.arenas {
        var b := SomeLive(h, a);
      }
    }
    forall d | 0 <= d < CLASSES ensures h.lists[d] == [] {
      if h.lists[d] != [] { ListHasArena(h, d); }
    }
  }

  lemma ListHasArena(h: Heap, d: nat)
    requires HeapOk(h) && d < CLASSES && h.lists[d] != []
    ensures h.lists[d][0] / PGSIZE in h.arenas
  {
    assert ListOk(h.arenas, d, h.lists[d]);
    assert h.lists[d][0] in h.lists[d];
  }

  function Upto(n: nat): (s: set<nat>)
    ensures |s| == n && forall i :: i in s <==> 0 <= i < n
  {
    if n == 0 then {} else Upto(n - 1) + {n - 1}
  }

  // ---------------------------------------------------------------------------------
  // Taking and giving back
  // ---------------------------------------------------------------------------------

  function Keep(list: seq<nat>, out: set<nat>): (r: seq<nat>) {
    if list == [] then [] else if list[0] in out then Keep(list[1..], out) else [list[0]] + Keep(list[1..], out)
  }

  lemma {:induction false} KeepIs(list: seq<nat>, out: set<nat>)
    requires NoDup(list)
    ensures NoDup(Keep(list, out)) && forall b :: b in Keep(list, out) <==> b in list && b !in out
  {
    if list != [] {
      NoDupFront(list);
      KeepIs(list[1..], out);
      if list[0] !in out { NoDupConcat([list[0]], Keep(list[1..], out)); }
    }
  }

  ghost function BlocksOf(a: nat, d: nat, n: nat): (s: set<nat>)
    requires d < CLASSES
  {
    set i | 0 <= i < n :: Block(a, d, i)
  }

  /** All blocks of a new arena, in order. */
  function Carved(a: nat, d: nat): (list: seq<nat>)
    requires d < CLASSES
  {
    seq(PerArena(d), i requires 0 <= i => Block(a, d, i))
  }

  /** The first block of the free list is taken. */
  function Pop(h: Heap, d: nat): (r: Heap)
    requires d < CLASSES == |h.lists| && h.lists[d] != []
  {
    var b := h.lists[d][0];
    var a := b / PGSIZE;
    var free := if a in h.arenas && h.arenas[a].Small? && h.arenas[a].free > 0 then h.arenas[a].free - 1 else 0;
    Heap(h.arenas[a := Small(d, free)], h.lists[d := h.lists[d][1..]], h.live + {b})
  }

  /** A new arena is made of page `a`, and its first block is taken. */
  function Carve(h: Heap, d: nat, a: nat): (r: Heap)
    requires d < CLASSES == |h.lists|
  {
    Heap(h.arenas[a := Small(d, PerArena(d) - 1)], h.lists[d := Carved(a, d)[1..]], h.live + {Block(a, d, 0)})
  }

  /** Pages for a big block. */
  function TakeBig(h: Heap, a: nat, n: nat): (r: Heap) {
    h.(arenas := h.arenas[a := Big(n)], live := h.live + {a * PGSIZE + HEADER})
  }

  /** A block goes back to the free list; an arena with nothing but free blocks goes away. */
  ghost function Push(h: Heap, b: nat): (r: Heap)
    requires b / PGSIZE in h.arenas && h.arenas[b / PGSIZE].Small? && h.arenas[b / PGSIZE].d < CLASSES == |h.lists|
  {
    var a := b / PGSIZE;
    var d, free := h.arenas[a].d, h.arenas[a].free + 1;
    var list := [b] + h.lists[d];
    if free < PerArena(d) then Heap(h.arenas[a := Small(d, free)], h.lists[d := list], h.live - {b})
    else Heap(h.arenas - {a}, h.lists[d := Keep(list, BlocksOf(a, d, PerArena(d)))], h.live - {b})
  }

  function DropBig(h: Heap, b: nat): (r: Heap) {
    h.(arenas := h.arenas - {b / PGSIZE}, live := h.live - {b})
  }

  /** Blocks of different arenas, or with different indices, are different. */
  lemma OtherBlock(a: nat, e: nat, d: nat, i: nat, j: nat)
    requires d < CLASSES && i < PerArena(d) && j < PerArena(d) && (a != e || i != j)
    ensures Block(a, d, i) != Block(e, d, j)
  {
    BlockInside(a, d, i);
    BlockInside(e, d, j);
    if a == e {
      if i < j { BlocksApart(a, d, i, j); } else { BlocksApart(a, d, j, i); }
    }
  }

  lemma IndicesPop(list: seq<nat>, a: nat, d: nat, i: nat)
    requires d < CLASSES && i < PerArena(d) && NoDup(list) && list != [] && list[0] == Block(a, d, i)
    ensures FreeIndices(list[1..], a, d) == FreeIndices(list, a, d) - {i} && i in FreeIndices(list, a, d)
    ensures forall e :: e != a ==> FreeIndices(list[1..], e, d) == FreeIndices(list, e, d)
  {
    NoDupFront(list);
    assert list[0] in list;
    forall j | 0 <= j < PerArena(d) && j != i ensures Block(a, d, j) != list[0] { OtherBlock(a, a, d, j, i); }
    forall e, j | e != a && 0 <= j < PerArena(d) ensures Block(e, d, j) != list[0] { OtherBlock(e, a, d, j, i); }
  }

  lemma IndicesPush(list: seq<nat>, a: nat, d: nat, i: nat)
    requires d < CLASSES && i < PerArena(d) && Block(a, d, i) !in list
    ensures var list' := [Block(a, d, i)] + list;
      && FreeIndices(list', a, d) == FreeIndices(list, a, d) + {i} && i !in FreeIndices(list, a, d)
      && (forall e :: e != a ==> FreeIndices(list', e, d) == FreeIndices(list, e, d))
  {
    forall j | 0 <= j < PerArena(d) && j != i ensures Block(a, d, j) != Block(a, d, i) { OtherBlock(a, a, d, j, i); }
    forall e, j | e != a && 0 <= j < PerArena(d) ensures Block(e, d, j) != Block(a, d, i) { OtherBlock(e, a, d, j, i); }
  }

  /** Nothing differs outside the page `a`. */
  ghost predicate Outside(h: Heap, h': Heap, a: nat) {
    && |h.lists| == |h'.lists| == CLASSES
    && (forall e :: e != a ==> (e in h'.arenas <==> e in h.arenas))
    && (forall e :: e != a && e in h.arenas && e in h'.arenas ==> h'.arenas[e] == h.arenas[e])
    && (forall d, b :: 0 <= d < CLASSES && b / PGSIZE != a ==> (b in h'.lists[d] <==> b in h.lists[d]))
    && (forall b :: b / PGSIZE != a ==> (b in h'.live <==> b in h.live))
  }

  /** Inside the page, everything is as it should be. */
  ghost predicate Within(h': Heap, a: nat) {
    && |h'.lists| == CLASSES
    && (a in h'.arenas ==> ArenaOk(h', a, h'.arenas[a]))
    && (forall d :: 0 <= d < CLASSES ==> NoDup(h'.lists[d]))
    && (forall d, b :: 0 <= d < CLASSES && b in h'.lists[d] && b / PGSIZE == a ==> IsBlock(h'.arenas, d, b))
    && (forall b :: b in h'.live && b / PGSIZE == a ==> LiveOk(h'.arenas, b))
  }

  lemma SmallKept(list: seq<nat>, list': seq<nat>, live: set<nat>, live': set<nat>, e: nat, d: nat, free: nat)
    requires d < CLASSES && SmallOk(list, live, e, d, free)
    requires forall b :: b / PGSIZE == e ==> (b in list' <==> b in list)
    requires forall b :: b / PGSIZE == e ==> (b in live' <==> b in live)
    ensures SmallOk(list', live', e, d, free)
  {
    forall i | 0 <= i < PerArena(d) ensures Block(e, d, i) in list' <==> Block(e, d, i) in list {
      BlockInside(e, d, i);
    }
    forall i | 0 <= i < PerArena(d) ensures Block(e, d, i) in live' <==> Block(e, d, i) in live {
      BlockInside(e, d, i);
    }
    assert FreeIndices(list', e, d) == FreeIndices(list, e, d);
  }

  lemma ArenaKept(h: Heap, h': Heap, a: nat, e: nat)
    requires HeapOk(h) && Outside(h, h', a) && e != a && e in h'.arenas
    requires a in h'.arenas ==> ArenaOk(h', a, h'.arenas[a])
    ensures ArenaOk(h', e, h'.arenas[e])
  {
    var x := h.arenas[e];
    assert ArenaOk(h, e, x);
    if x.Small? { SmallKept(h.lists[x.d], h'.lists[x.d], h.live, h'.live, e, x.d, x.free); }
    if x.Big? { assert (e * PGSIZE + HEADER) / PGSIZE == e; }
  }

  lemma Rebuild(h: Heap, h': Heap, a: nat)
    requires HeapOk(h) && Outside(h, h', a) && Within(h', a)
    ensures HeapOk(h')
  {
    forall e | e in h'.arenas ensures ArenaOk(h', e, h'.arenas[e]) {
      if e != a { ArenaKept(h, h', a, e); }
    }
    forall d | 0 <= d < CLASSES ensures ListOk(h'.arenas, d, h'.lists[d]) {
      assert ListOk(h.arenas, d, h.lists[d]);
    }
    forall b | b in h'.live ensures LiveOk(h'.arenas, b) {
      if b / PGSIZE != a { assert LiveOk(h.arenas, b); }
    }
  }

  /** What is known of a block on a free list. */
  lemma OnList(h: Heap, d: nat, b: nat) returns (a: nat, i: nat)
    requires HeapOk(h) && d < CLASSES && b in h.lists[d]
    ensures a == b / PGSIZE && a in h.arenas && h.arenas[a].Small? && h.arenas[a].d == d
    ensures i < PerArena(d) && b == Block(a, d, i) && b !in h.live && ArenaOk(h, a, h.arenas[a])
  {
    assert ListOk(h.arenas, d, h.lists[d]);
    a, i := b / PGSIZE, IndexOf(d, b);
    assert ArenaOk(h, a, h.arenas[a]);
  }

  lemma PopCounts(list: seq<nat>, live: set<nat>, a: nat, d: nat, i: nat, free: nat)
    requires d < CLASSES && SmallOk(list, live, a, d, free) && NoDup(list) && list != []
    requires i < PerArena(d) && list[0] == Block(a, d, i)
    ensures free > 0 && SmallOk(list[1..], live + {list[0]}, a, d, free - 1)
  {
    IndicesPop(list, a, d, i);
    NoDupFront(list);
    forall j | 0 <= j < PerArena(d) && j != i ensures Block(a, d, j) != list[0] { OtherBlock(a, a, d, j, i); }
  }

  lemma PopKeeps(h: Heap, d: nat)
    requires HeapOk(h) && d < CLASSES && h.lists[d] != []
    ensures HeapOk(Pop(h, d)) && h.lists[d][0] !in h.live
  {
    var b, h' := h.lists[d][0], Pop(h, d);
    assert b in h.lists[d];
    var a, i := OnList(h, d, b);
    assert ListOk(h.arenas, d, h.lists[d]);
    PopCounts(h.lists[d], h.live, a, d, i, h.arenas[a].free);
    NoDupFront(h.lists[d]);
    forall k | 0 <= k < CLASSES ensures NoDup(h'.lists[k]) { assert ListOk(h.arenas, k, h.lists[k]); }
    forall k, c | 0 <= k < CLASSES && c in h'.lists[k] && c / PGSIZE == a ensures IsBlock(h'.arenas, k, c) {
      assert ListOk(h.arenas, k, h.lists[k]);
    }
    forall c | c in h'.live && c / PGSIZE == a ensures LiveOk(h'.arenas, c) {
      if c != b { assert LiveOk(h.arenas, c); }
    }
    Rebuild(h, h', a);
  }

  /** The page allocator hands out pages that are not in use, and never page zero. */
  ghost predicate PagesFree(h: Heap, a: nat, n: nat) {
    a > 0 && n > 0 && forall e :: e in h.arenas ==> Elsewhere(a, n, e, h.arenas[e])
  }

  lemma EmptyPage(h: Heap, a: nat, n: nat)
    requires HeapOk(h) && PagesFree(h, a, n)
    ensures a !in h.arenas && (forall d, b :: 0 <= d < CLASSES && b in h.lists[d] ==> b / PGSIZE != a)
    ensures forall b :: b in h.live ==> b / PGSIZE != a
  {
    forall e | e in h.arenas ensures e != a {
      assert ArenaOk(h, e, h.arenas[e]);
      assert Elsewhere(a, n, e, h.arenas[e]);
    }
    forall d, b | 0 <= d < CLASSES && b in h.lists[d] ensures b / PGSIZE != a {
      assert ListOk(h.arenas, d, h.lists[d]);
    }
    forall b | b in h.live ensures b / PGSIZE != a { assert LiveOk(h.arenas, b); }
  }

  lemma CarvedIs(a: nat, d: nat)
    requires d < CLASSES
    ensures NoDup(Carved(a, d)[1..]) && |FreeIndices(Carved(a, d)[1..], a, d)| == PerArena(d) - 1
    ensures forall i :: 0 <= i < PerArena(d) ==> (Block(a, d, i) in Carved(a, d)[1..] <==> i != 0)
    ensures forall b :: b in Carved(a, d)[1..] ==> exists i :: 0 <= i < PerArena(d) && b == Block(a, d, i)
  {
    var all := Carved(a, d);
    var list := all[1..];
    forall j, k | 0 <= j < k < |list| ensures list[j] != list[k] { OtherBlock(a, a, d, j + 1, k + 1); }
    forall i | 0 <= i < PerArena(d) ensures Block(a, d, i) in list <==> i != 0 {
      if i != 0 {
        assert list[i - 1] == Block(a, d, i);
      } else {
        forall k | 0 <= k < |list| ensures list[k] != Block(a, d, 0) { OtherBlock(a, a, d, k + 1, 0); }
      }
    }
    assert FreeIndices(list, a, d) == Upto(PerArena(d)) - {0};
  }

  lemma CarveKeeps(h: Heap, d: nat, a: nat)
    requires HeapOk(h) && d < CLASSES && h.lists[d] == [] && PagesFree(h, a, 1)
    ensures HeapOk(Carve(h, d, a)) && Block(a, d, 0) !in h.live
  {
    var h' := Carve(h, d, a);
    EmptyPage(h, a, 1);
    CarvedIs(a, d);
    BlockInside(a, d, 0);
    forall k | 0 <= k < CLASSES ensures NoDup(h'.lists[k]) { assert ListOk(h.arenas, k, h.lists[k]); }
    forall b | b in h'.lists[d] ensures IsBlock(h'.arenas, d, b) && b / PGSIZE == a {
      var i :| 0 <= i < PerArena(d) && b == Block(a, d, i);
      BlockIsBlock(h'.arenas, a, d, i);
    }
    BlockIsBlock(h'.arenas, a, d, 0);
    assert forall i :: 0 <= i < PerArena(d) && i != 0 ==> Block(a, d, i) !in h'.live by {
      forall i | 0 <= i < PerArena(d) && i != 0 ensures Block(a, d, i) !in h'.live {
        OtherBlock(a, a, d, i, 0);
        BlockInside(a, d, i);
      }
    }
    Rebuild(h, h', a);
  }

  lemma TakeBigKeeps(h: Heap, a: nat, n: nat)
    requires HeapOk(h) && PagesFree(h, a, n)
    ensures HeapOk(TakeBig(h, a, n)) && a * PGSIZE + HEADER !in h.live
  {
    var h' := TakeBig(h, a, n);
    EmptyPage(h, a, n);
    assert (a * PGSIZE + HEADER) / PGSIZE == a;
    forall k | 0 <= k < CLASSES ensures NoDup(h'.lists[k]) { assert ListOk(h.arenas, k, h.lists[k]); }
    Rebuild(h, h', a);
  }

  lemma AloneInBig(h: Heap, a: nat, c: nat)
    requires HeapOk(h) && a in h.arenas && h.arenas[a].Big? && c / PGSIZE == a
    ensures c in h.live ==> c == a * PGSIZE + HEADER
    ensures forall k :: 0 <= k < CLASSES ==> c !in h.lists[k]
  {
    if c in h.live { assert LiveOk(h.arenas, c); }
    forall k | 0 <= k < CLASSES ensures c !in h.lists[k] { assert ListOk(h.arenas, k, h.lists[k]); }
  }

  lemma DropBigKeeps(h: Heap, b: nat)
    requires HeapOk(h) && b in h.live && b / PGSIZE in h.arenas && h.arenas[b / PGSIZE].Big?
    ensures HeapOk(DropBig(h, b))
  {
    var a, h' := b / PGSIZE, DropBig(h, b);
    AloneInBig(h, a, b);
    forall k | 0 <= k < CLASSES ensures NoDup(h'.lists[k]) { assert ListOk(h.arenas, k, h.lists[k]); }
    forall c | c / PGSIZE == a ensures c !in h'.live && forall k :: 0 <= k < CLASSES ==> c !in h'.lists[k] {
      AloneInBig(h, a, c);
    }
    Rebuild(h, h', a);
  }

  /** What is known of a live block of a small arena. */
  lemma OfSmall(h: Heap, b: nat) returns (a: nat, d: nat, i: nat)
    requires HeapOk(h) && b in h.live && b / PGSIZE in h.arenas && h.arenas[b / PGSIZE].Small?
    ensures a == b / PGSIZE && d == h.arenas[a].d < CLASSES && i < PerArena(d) && b == Block(a, d, i)
    ensures SmallOk(h.lists[d], h.live, a, d, h.arenas[a].free) && b !in h.lists[d] && NoDup([b] + h.lists[d])
  {
    assert LiveOk(h.arenas, b);
    a := b / PGSIZE;
    d, i := h.arenas[a].d, IndexOf(h.arenas[a].d, b);
    assert ArenaOk(h, a, h.arenas[a]);
    assert ListOk(h.arenas, d, h.lists[d]);
    NoDupConcat([b], h.lists[d]);
  }

  lemma PushCounts(list: seq<nat>, live: set<nat>, a: nat, d: nat, i: nat, free: nat)
    requires d < CLASSES && SmallOk(list, live, a, d, free) && i < PerArena(d) && Block(a, d, i) in live &&
      free + 1 < PerArena(d)
    ensures SmallOk([Block(a, d, i)] + list, live - {Block(a, d, i)}, a, d, free + 1)
  {
    IndicesPush(list, a, d, i);
    forall j | 0 <= j < PerArena(d) && j != i ensures Block(a, d, j) != Block(a, d, i) { OtherBlock(a, a, d, j, i); }
  }

  /** With one block less than all of them free, there is one live block. */
  lemma LastLive(list: seq<nat>, live: set<nat>, a: nat, d: nat, i: nat, j: nat, free: nat)
    requires d < CLASSES && SmallOk(list, live, a, d, free) && free + 1 == PerArena(d)
    requires i < PerArena(d) && j < PerArena(d) && Block(a, d, i) in live && Block(a, d, j) in live
    ensures i == j
  {
    var f := FreeIndices(list, a, d);
    assert i !in f && j !in f;
    if i != j {
      assert |f + {i, j}| == |f| + 2;
      SubsetSize(f + {i, j}, Upto(PerArena(d)));
    }
  }

  lemma PushKeeps(h: Heap, b: nat)
    requires HeapOk(h) && b in h.live && b / PGSIZE in h.arenas && h.arenas[b / PGSIZE].Small?
    requires h.arenas[b / PGSIZE].d < CLASSES && h.arenas[b / PGSIZE].free + 1 < PerArena(h.arenas[b / PGSIZE].d)
    ensures HeapOk(Push(h, b))
  {
    var a, d, i := OfSmall(h, b);
    var h' := Push(h, b);
    PushCounts(h.lists[d], h.live, a, d, i, h.arenas[a].free);
    assert ArenaOk(h, a, h.arenas[a]);
    forall k | 0 <= k < CLASSES ensures NoDup(h'.lists[k]) { assert ListOk(h.arenas, k, h.lists[k]); }
    forall k, c | 0 <= k < CLASSES && c in h'.lists[k] && c / PGSIZE == a ensures IsBlock(h'.arenas, k, c) {
      if c == b && k == d { BlockIsBlock(h'.arenas, a, d, i); } else { assert ListOk(h.arenas, k, h.lists[k]); }
    }
    forall c | c in h'.live && c / PGSIZE == a ensures LiveOk(h'.arenas, c) { assert LiveOk(h.arenas, c); }
    Rebuild(h, h', a);
  }

  /** A block of class `d` in arena `a` is about to be given back as the last one of its arena. */
  ghost predicate IsLast(h: Heap, b: nat, a: nat, d: nat, i: nat) {
    && HeapOk(h) && b in h.live && a == b / PGSIZE && d < CLASSES && i < PerArena(d)
    && a in h.arenas && h.arenas[a].Small? && h.arenas[a].d == d && h.arenas[a].free + 1 == PerArena(d)
    && b == Block(a, d, i)
  }

  /** The lists without the blocks of arena `a`. */
  ghost predicate ListsLeft(h: Heap, h': Heap, a: nat) {
    && |h.lists| == |h'.lists| == CLASSES
    && (forall k :: 0 <= k < CLASSES ==> NoDup(h'.lists[k]))
    && (forall k, c :: 0 <= k < CLASSES && c in h'.lists[k] ==> c / PGSIZE != a)
    && (forall k, c :: 0 <= k < CLASSES && c / PGSIZE != a ==> (c in h'.lists[k] <==> c in h.lists[k]))
  }

  lemma PageLeaves(h: Heap, h': Heap, a: nat, b: nat)
    requires HeapOk(h) && h'.arenas == h.arenas - {a} && ListsLeft(h, h', a) && b / PGSIZE == a
    requires h'.live == h.live - {b} && forall c :: c in h'.live ==> c / PGSIZE != a
    ensures HeapOk(h')
  {
    Rebuild(h, h', a);
  }

  lemma ReleaseLists(h: Heap, b: nat, a: nat, d: nat, i: nat)
    requires IsLast(h, b, a, d, i)
    ensures ListsLeft(h, Push(h, b), a)
  {
    var h', list := Push(h, b), [b] + h.lists[d];
    var out := BlocksOf(a, d, PerArena(d));
    assert ListOk(h.arenas, d, h.lists[d]);
    KeepIs(list, out);
    forall k | 0 <= k < CLASSES ensures NoDup(h'.lists[k]) { assert ListOk(h.arenas, k, h.lists[k]); }
    forall c | c in out ensures c / PGSIZE == a {
      var j :| 0 <= j < PerArena(d) && c == Block(a, d, j);
      BlockInside(a, d, j);
    }
    forall k, c | 0 <= k < CLASSES && c in h'.lists[k] ensures c / PGSIZE != a {
      assert ListOk(h.arenas, k, h.lists[k]);
    }
  }

  lemma ReleaseLive(h: Heap, b: nat, a: nat, d: nat, i: nat, c: nat)
    requires IsLast(h, b, a, d, i) && c in h.live && c != b
    ensures c / PGSIZE != a
  {
    assert LiveOk(h.arenas, c);
    if c / PGSIZE == a { LastLive(h.lists[d], h.live, a, d, i, IndexOf(d, c), h.arenas[a].free); }
  }

  lemma ReleaseLast(h: Heap, b: nat, a: nat, d: nat, i: nat)
    requires IsLast(h, b, a, d, i)
    ensures HeapOk(Push(h, b))
  {
    var h' := Push(h, b);
    ReleaseLists(h, b, a, d, i);
    forall c | c in h'.live ensures c / PGSIZE != a { ReleaseLive(h, b, a, d, i, c); }
    PageLeaves(h, h', a, b);
  }

  lemma ReleaseKeeps(h: Heap, b: nat)
    requires HeapOk(h) && b in h.live && b / PGSIZE in h.arenas && h.arenas[b / PGSIZE].Small?
    requires h.arenas[b / PGSIZE].d < CLASSES && h.arenas[b / PGSIZE].free + 1 == PerArena(h.arenas[b / PGSIZE].d)
    ensures HeapOk(Push(h, b)) && b / PGSIZE !in Push(h, b).arenas
  {
    var a, d, i := OfSmall(h, b);
    ReleaseLast(h, b, a, d, i);
  }

  // ---------------------------------------------------------------------------------
  // Calls
  // ---------------------------------------------------------------------------------

  /** What the page allocator gives when it is asked. */
  datatype Offer = NoPages | Pages(a: nat)

  /** The first class from `d` on whose blocks have at least `size` bytes. */
  function ClassFrom(size: nat, d: nat): (r: nat)
    requires d <= CLASSES
    ensures d <= r <= CLASSES && (r < CLASSES ==> Size(r) >= size)
    ensures forall k :: d <= k < r ==> Size(k) < size
    decreases CLASSES - d
  {
    if d == CLASSES || Size(d) >= size then d else ClassFrom(size, d + 1)
  }

  /** The number of pages for a request that no class serves; the sum has 32 bits. */
  function PagesFor(size: Word): (n: nat) { (size + HEADER + PGSIZE - 1) % WORDS / PGSIZE }

  /** For the largest requests the sum wraps: to no pages at all, and for the last eleven to one. */
  lemma PagesFit(size: Word)
    ensures size <= WORDS - HEADER - PGSIZE ==> PagesFor(size) > 0 && PagesFor(size) * PGSIZE >= size + HEADER
    ensures WORDS - HEADER - PGSIZE < size <= WORDS - HEADER ==> PagesFor(size) == 0
    ensures size > WORDS - HEADER ==> PagesFor(size) == 1
  {
    var sum := size + HEADER + PGSIZE - 1;
    if sum >= WORDS { assert sum % WORDS == sum - WORDS; }
  }

  /** How many pages a call asks the page allocator for, if it asks. */
  function Wanted(size: Word): (n: nat) { if ClassFrom(size, 0) < CLASSES then 1 else PagesFor(size) }

  /** The page allocator gives free pages, or none; asked for no pages it gives none. */
  ghost predicate OfferOk(h: Heap, size: Word, offer: Offer) {
    offer.Pages? ==> Wanted(size) > 0 && PagesFree(h, offer.a, Wanted(size))
  }

  /** No block of class `d`, or no such class. */
  predicate NoneListed(h: Heap, d: nat)
    requires |h.lists| == CLASSES
  {
    d < CLASSES ==> h.lists[d] == []
  }

  /** A request for a block of class `d`, or for `n` pages if there is no such class. */
  function TakeBy(h: Heap, d: nat, n: nat, offer: Offer): (r: (Heap, nat))
    requires |h.lists| == CLASSES
  {
    if d < CLASSES && h.lists[d] != [] then (Pop(h, d), h.lists[d][0])
    else if offer.NoPages? then (h, 0)
    else if d < CLASSES then (Carve(h, d, offer.a), Block(offer.a, d, 0))
    else (TakeBig(h, offer.a, n), offer.a * PGSIZE + HEADER)
  }

  /** `malloc`: the heap afterwards, and the address, zero for the null pointer. */
  function Take(h: Heap, size: Word, offer: Offer): (r: (Heap, nat))
    requires |h.lists| == CLASSES
  {
    if size == 0 then (h, 0) else TakeBy(h, ClassFrom(size, 0), PagesFor(size), offer)
  }

  /** `free`. */
  ghost function Give(h: Heap, p: nat): (r: Heap)
    requires HeapOk(h) && (p == 0 || p in h.live)
  {
    if p == 0 then h
    else
      assert LiveOk(h.arenas, p);
      if h.arenas[p / PGSIZE].Small? then Push(h, p) else DropBig(h, p)
  }

  lemma PopRoom(h: Heap, d: nat)
    requires HeapOk(h) && d < CLASSES && h.lists[d] != []
    ensures var b := h.lists[d][0]; b != 0 && LiveOk(Pop(h, d).arenas, b) && Room(Pop(h, d), b) == Size(d)
  {
    var b := h.lists[d][0];
    assert b in h.lists[d];
    var a, i := OnList(h, d, b);
    BlockIsBlock(Pop(h, d).arenas, a, d, i);
  }

  lemma CarveRoom(h: Heap, d: nat, a: nat)
    requires |h.lists| == CLASSES && d < CLASSES
    ensures var b := Block(a, d, 0); b != 0 && LiveOk(Carve(h, d, a).arenas, b) && Room(Carve(h, d, a), b) == Size(d)
  {
    BlockInside(a, d, 0);
    BlockIsBlock(Carve(h, d, a).arenas, a, d, 0);
  }

  lemma BigRoom(h: Heap, a: nat, n: nat)
    requires n > 0
    ensures var b := a * PGSIZE + HEADER;
      b != 0 && LiveOk(TakeBig(h, a, n).arenas, b) && Room(TakeBig(h, a, n), b) == n * PGSIZE - HEADER
  {
    assert (a * PGSIZE + HEADER) / PGSIZE == a;
  }

  /** A block that was not in use is handed out, and all others stay. */
  ghost predicate Gives(h: Heap, h': Heap, p: nat) {
    HeapOk(h') && p != 0 && p !in h.live && h'.live == h.live + {p} && LiveOk(h'.arenas, p)
  }

  lemma PopGives(h: Heap, d: nat)
    requires HeapOk(h) && d < CLASSES && h.lists[d] != []
    ensures Gives(h, Pop(h, d), h.lists[d][0])
  {
    PopKeeps(h, d);
    PopRoom(h, d);
  }

  lemma CarveGives(h: Heap, d: nat, a: nat)
    requires HeapOk(h) && d < CLASSES && h.lists[d] == [] && PagesFree(h, a, 1)
    ensures Gives(h, Carve(h, d, a), Block(a, d, 0))
  {
    CarveKeeps(h, d, a);
    CarveRoom(h, d, a);
  }

  lemma BigGives(h: Heap, a: nat, n: nat)
    requires HeapOk(h) && n > 0 && PagesFree(h, a, n)
    ensures Gives(h, TakeBig(h, a, n), a * PGSIZE + HEADER)
  {
    TakeBigKeeps(h, a, n);
    BigRoom(h, a, n);
  }

  lemma ClassGives(h: Heap, d: nat, n: nat, offer: Offer)
    requires HeapOk(h) && d < CLASSES && (h.lists[d] == [] ==> offer.Pages? && PagesFree(h, offer.a, 1))
    ensures Gives(h, TakeBy(h, d, n, offer).0, TakeBy(h, d, n, offer).1)
  {
    if h.lists[d] != [] { PopGives(h, d); } else { CarveGives(h, d, offer.a); }
  }

  lemma TakeByKeeps(h: Heap, d: nat, n: nat, offer: Offer)
    requires HeapOk(h)
    requires offer.Pages? ==> var m := if d < CLASSES then 1 else n; m > 0 && PagesFree(h, offer.a, m)
    ensures var (h', p) := TakeBy(h, d, n, offer);
      if p != 0 then Gives(h, h', p) else h' == h && offer == NoPages && NoneListed(h, d)
  {
    if d < CLASSES {
      if h.lists[d] != [] || offer.Pages? { ClassGives(h, d, n, offer); }
    } else if offer.Pages? {
      BigGives(h, offer.a, n);
    }
  }

  /** `malloc` gives a block that was not in use and keeps all others; or the null pointer, if nothing is
      asked for or no block is free and no page to be had, and changes nothing. */
  lemma TakeKeeps(h: Heap, size: Word, offer: Offer)
    requires HeapOk(h) && OfferOk(h, size, offer)
    ensures var (h', p) := Take(h, size, offer);
      if p != 0 then Gives(h, h', p)
      else h' == h && (size == 0 || (offer == NoPages && NoneListed(h, ClassFrom(size, 0))))
  {
    TakeByKeeps(h, ClassFrom(size, 0), PagesFor(size), offer);
  }

  /** The room in what is given. */
  lemma TakeByRoom(h: Heap, d: nat, n: nat, offer: Offer)
    requires HeapOk(h) && (offer.Pages? && d >= CLASSES ==> n > 0) && TakeBy(h, d, n, offer).1 != 0
    ensures var (h', p) := TakeBy(h, d, n, offer);
      LiveOk(h'.arenas, p) && Room(h', p) == if d < CLASSES then Size(d) else n * PGSIZE - HEADER
  {
    if d < CLASSES && h.lists[d] != [] {
      PopRoom(h, d);
    } else if d < CLASSES {
      CarveRoom(h, d, offer.a);
    } else {
      BigRoom(h, offer.a, n);
    }
  }

  /** The pages have room for the request exactly if the request and the header together fit 32 bits. */
  lemma PagesHaveRoom(size: Word)
    requires PagesFor(size) > 0
    ensures PagesFor(size) * PGSIZE - HEADER >= size <==> size <= WORDS - HEADER
  {
    PagesFit(size);
  }

  /** So a block that `malloc` gives has room for the request exactly then. */
  lemma TakeRoom(h: Heap, size: Word, offer: Offer)
    requires HeapOk(h) && OfferOk(h, size, offer) && Take(h, size, offer).1 != 0
    ensures var (h', p) := Take(h, size, offer);
      LiveOk(h'.arenas, p) && (Room(h', p) >= size <==> size <= WORDS - HEADER)
  {
    TakeByRoom(h, ClassFrom(size, 0), PagesFor(size), offer);
    if ClassFrom(size, 0) == CLASSES { PagesHaveRoom(size); }
  }

  lemma GiveKeeps(h: Heap, p: nat)
    requires HeapOk(h) && (p == 0 || p in h.live)
    ensures HeapOk(Give(h, p)) && Give(h, p).live == h.live - (if p == 0 then {} else {p})
  {
    if p != 0 {
      assert LiveOk(h.arenas, p);
      var a := p / PGSIZE;
      assert ArenaOk(h, a, h.arenas[a]);
      if h.arenas[a].Big? {
        DropBigKeeps(h, p);
      } else if h.arenas[a].free + 1 < PerArena(h.arenas[a].d) {
        PushKeeps(h, p);
      } else {
        ReleaseKeeps(h, p);
      }
    }
  }

  /** The largest request, when a page is to be had: the block has 4084 bytes. */
  lemma LargestRequest(h: Heap, a: nat)
    requires HeapOk(h) && PagesFree(h, a, 1)
    ensures var size := WORDS - 1;
      && OfferOk(h, size, Pages(a))
      && var (h', p) := Take(h, size, Pages(a));
         p != 0 && LiveOk(h'.arenas, p) && Room(h', p) == PGSIZE - HEADER < size
  {
    PagesFit(WORDS - 1);
    TakeKeeps(h, WORDS - 1, Pages(a));
    BigRoom(h, a, 1);
  }

  lemma ListedHeld(h: Heap, d: nat)
    requires HeapOk(h) && d < CLASSES && h.lists[d] != []
    ensures h.lists[d][0] / PGSIZE in h.arenas
  {
    var b := h.lists[d][0];
    assert b in h.lists[d];
    var a, i := OnList(h, d, b);
  }

  /** The block is one of the smallest class that has room for the request, and a page is taken only if no
      block of that class is free. */
  lemma TakeFrugal(h: Heap, size: Word, offer: Offer, d: nat)
    requires HeapOk(h) && OfferOk(h, size, offer) && size > 0 && d == ClassFrom(size, 0) < CLASSES
    ensures var (h', p) := Take(h, size, offer);
      && (h.lists[d] != [] ==> p == h.lists[d][0] && h'.arenas.Keys == h.arenas.Keys)
      && (h.lists[d] == [] && offer.Pages? ==> h'.arenas.Keys == h.arenas.Keys + {offer.a})
      && (p != 0 ==> LiveOk(h'.arenas, p) && Room(h', p) == Size(d))
  {
    if h.lists[d] != [] {
      PopRoom(h, d);
      ListedHeld(h, d);
    } else if offer.Pages? {
      CarveRoom(h, d, offer.a);
    }
  }

  lemma BackAgain(arenas: map<nat, Arena>, a: nat, x: Arena)
    requires a in arenas
    ensures arenas[a := x][a := arenas[a]] == arenas
  {
  }

  lemma PushThenPop(h: Heap, p: nat, d: nat)
    requires |h.lists| == CLASSES && d < CLASSES && p in h.live && p / PGSIZE in h.arenas
    requires h.arenas[p / PGSIZE].Small? && h.arenas[p / PGSIZE].d == d && h.arenas[p / PGSIZE].free + 1 < PerArena(d)
    ensures Push(h, p).lists[d] == [p] + h.lists[d] && Pop(Push(h, p), d) == h
  {
    var x := h.arenas[p / PGSIZE];
    BackAgain(h.arenas, p / PGSIZE, Small(d, x.free + 1));
    assert ([p] + h.lists[d])[1..] == h.lists[d];
    assert h.live - {p} + {p} == h.live;
    assert h.lists[d := [p] + h.lists[d]][d := h.lists[d]] == h.lists;
  }

  /** A block that is given back while others of its arena are in use is the next to be handed out, and
      then everything is as before. */
  lemma FreeThenMalloc(h: Heap, p: nat, size: Word, offer: Offer)
    requires HeapOk(h) && p in h.live && p != 0 && LiveOk(h.arenas, p) && size > 0
    requires var x := h.arenas[p / PGSIZE];
      x.Small? && x.d == ClassFrom(size, 0) < CLASSES && x.free + 1 < PerArena(x.d)
    ensures Take(Give(h, p), size, offer) == (h, p)
  {
    PushThenPop(h, p, h.arenas[p / PGSIZE].d);
  }

  datatype Call = Malloc(size: Word, offer: Offer) | Free(p: nat)

  type Sound = h: Heap | HeapOk(h) ghost witness Heap(map[], seq(CLASSES, i => []), {})

  ghost predicate Allowed(h: Sound, c: Call) {
    match c
    case Malloc(size, offer) => OfferOk(h, size, offer)
    case Free(p) => p == 0 || p in h.live
  }

  ghost function After(h: Sound, c: Call): (r: Sound)
    requires Allowed(h, c)
  {
    match c
    case Malloc(size, offer) => TakeKeeps(h, size, offer); Take(h, size, offer).0
    case Free(p) => GiveKeeps(h, p); Give(h, p)
  }

  ghost predicate Possible(h: Sound, calls: seq<Call>)
    decreases |calls|
  {
    calls == [] || (Allowed(h, calls[0]) && Possible(After(h, calls[0]), calls[1..]))
  }

  ghost function Final(h: Sound, calls: seq<Call>): (r: Sound)
    requires Possible(h, calls)
    decreases |calls|
  {
    if calls == [] then h else Final(After(h, calls[0]), calls[1..])
  }

  /** The blocks that calls have returned and not given back since, after those in `live`. */
  ghost function InUse(live: set<nat>, h: Sound, calls: seq<Call>): (r: set<nat>)
    requires Possible(h, calls)
    decreases |calls|
  {
    if calls == [] then live
    else
      var next := match calls[0]
        case Malloc(size, offer) => live + ({Take(h, size, offer).1} - {0})
        case Free(p) => live - {p};
      InUse(next, After(h, calls[0]), calls[1..])
  }

  lemma CallInUse(h: Sound, c: Call)
    requires Allowed(h, c)
    ensures After(h, c).live == match c
      case Malloc(size, offer) => h.live + ({Take(h, size, offer).1} - {0})
      case Free(p) => h.live - {p}
  {
    match c
    case Malloc(size, offer) => TakeKeeps(h, size, offer);
    case Free(p) => GiveKeeps(h, p); NeverNull(h);
  }

  lemma NeverNull(h: Sound)
    ensures 0 !in h.live
  {
    if 0 in h.live { LiveInside(h, 0); }
  }

  /** The live blocks are those. */
  lemma {:induction false} LiveByCalls(h: Sound, calls: seq<Call>)
    requires Possible(h, calls)
    ensures Final(h, calls).live == InUse(h.live, h, calls)
    decreases |calls|
  {
    if calls != [] {
      CallInUse(h, calls[0]);
      LiveByCalls(After(h, calls[0]), calls[1..]);
    }
  }

  /** After any calls, live blocks lie inside the pages of their arena, behind its header, and no two
      of them overlap. */
  lemma BlocksSafe(h: Sound, calls: seq<Call>, b: nat, c: nat)
    requires Possible(h, calls) && b in Final(h, calls).live && c in Final(h, calls).live && b != c
    ensures var r := Final(h, calls);
      && LiveOk(r.arenas, b) && LiveOk(r.arenas, c) && (b + Room(r, b) <= c || c + Room(r, c) <= b)
      && (b / PGSIZE) * PGSIZE + HEADER <= b && b + Room(r, b) <= (b / PGSIZE + PagesOf(r.arenas[b / PGSIZE])) * PGSIZE
  {
    var r := Final(h, calls);
    LiveInside(r, b);
    LiveInside(r, c);
    if b < c { LiveDisjoint(r, b, c); } else { LiveDisjoint(r, c, b); }
  }

  /** A page is held exactly while it has a live block, so when everything has been given back, every
      page has been. */
  lemma PagesReturned(h: Sound, calls: seq<Call>, a: nat)
    requires Possible(h, calls)
    ensures a in Final(h, calls).arenas <==> exists b :: b in Final(h, calls).live && b / PGSIZE == a
    ensures Final(h, calls).live == {} ==> Final(h, calls).arenas == map[]
  {
    var r := Final(h, calls);
    if a in r.arenas { var b := SomeLive(r, a); }
    forall b | b in r.live ensures b / PGSIZE in r.arenas { assert LiveOk(r.arenas, b); }
    if r.live == {} { NothingHeld(r); }
  }
}
