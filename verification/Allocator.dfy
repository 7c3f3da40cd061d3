/**
 `malloc` and `free` on fields that they update in place: the table of arena headers, the free
 lists of the descriptors, and the set of blocks handed out, which only the proof looks at.
 */
module Allocator {
  import opened Malloc
  import opened Sequences

  datatype Descriptor = Descriptor(blockSize: nat, blocksPerArena: nat)

  /** `malloc_init`: seven descriptors, in a table that has room for ten. */
  method MallocInit() returns (descs: seq<Descriptor>)
    ensures |descs| == CLASSES <= 10
    ensures forall d :: 0 <= d < CLASSES ==> descs[d] == Descriptor(Size(d), PerArena(d))
  {
    descs := [];
    var blockSize := 16;
    while blockSize < PGSIZE / 2
      invariant |descs| <= CLASSES && blockSize == (if |descs| < CLASSES then Size(|descs|) else PGSIZE / 2)
      invariant forall d :: 0 <= d < |descs| ==> descs[d] == Descriptor(Size(d), PerArena(d))
      decreases CLASSES - |descs|
    {
      descs := descs + [Descriptor(blockSize, (PGSIZE - HEADER) / blockSize)];
      blockSize := blockSize * 2;
    }
  }

  class Allocator {
    var arenas: map<nat, Arena>
    var lists: seq<seq<nat>>
    ghost var live: set<nat>

    ghost function View(): (h: Heap)
      reads this
    {
      Heap(arenas, lists, live)
    }

    constructor ()
      ensures HeapOk(View()) && View() == Heap(map[], seq(CLASSES, i => []), {})
    {
      arenas, lists, live := map[], seq(CLASSES, i => []), {};
    }

    /** The loop of `malloc` that carves a new arena into blocks. */
    method CarveArena(d: nat, a: nat)
      requires d < CLASSES == |lists| && lists[d] == []
      modifies `lists
      ensures lists == old(lists)[d := Carved(a, d)]
    {
      var i := 0;
      while i < PerArena(d)
        invariant i <= PerArena(d) && |lists| == CLASSES && lists == old(lists)[d := Carved(a, d)[..i]]
      {
        assert Carved(a, d)[..i + 1] == Carved(a, d)[..i] + [Block(a, d, i)];
        lists := lists[d := lists[d] + [Block(a, d, i)]];
        i := i + 1;
      }
      assert Carved(a, d)[..i] == Carved(a, d);
    }

    method FindDescriptor(size: nat) returns (d: nat)
      ensures d == ClassFrom(size, 0)
    {
      d := 0;
      while d < CLASSES && Size(d) < size
        invariant d <= CLASSES && ClassFrom(size, d) == ClassFrom(size, 0)
      {
        d := d + 1;
      }
    }

    /** The end of `malloc`: the first block of the free list is taken. */
    method TakeFirst(d: nat) returns (p: nat)
      requires d < CLASSES == |lists| && lists[d] != []
      requires lists[d][0] / PGSIZE in arenas && arenas[lists[d][0] / PGSIZE].Small?
      requires arenas[lists[d][0] / PGSIZE].free > 0 && arenas[lists[d][0] / PGSIZE].d == d
      modifies this
      ensures p == old(lists)[d][0] && View() == Pop(old(View()), d)
    {
      p := lists[d][0];
      lists := lists[d := lists[d][1..]];
      var a := p / PGSIZE;
      arenas := arenas[a := arenas[a].(free := arenas[a].free - 1)];
      live := live + {p};
    }

    method MallocBlock(d: nat, offer: Offer) returns (p: nat)
      requires HeapOk(View()) && d < CLASSES && (offer.Pages? ==> PagesFree(View(), offer.a, 1))
      modifies this
      ensures old(lists)[d] != [] ==> p == old(lists)[d][0] && View() == Pop(old(View()), d)
      ensures old(lists)[d] == [] && offer == NoPages ==> p == 0 && View() == old(View())
      ensures old(lists)[d] == [] && offer.Pages? ==>
        p == Block(offer.a, d, 0) && View() == Carve(old(View()), d, offer.a)
    {
      ghost var h := View();
      if lists[d] == [] {
        if offer == NoPages { return 0; }
        arenas := arenas[offer.a := Small(d, PerArena(d))];
        CarveArena(d, offer.a);
        BlockInside(offer.a, d, 0);
        CarveThenPop(h, d, offer.a);
      } else {
        FirstFits(h, d);
      }
      p := TakeFirst(d);
    }

    method Malloc(size: Word, offer: Offer) returns (p: nat)
      requires HeapOk(View()) && OfferOk(View(), size, offer)
      modifies this
      ensures HeapOk(View()) && (View(), p) == Take(old(View()), size, offer)
    {
      ghost var h := View();
      if size == 0 { return 0; }
      var d := FindDescriptor(size);
      if d < CLASSES {
        p := MallocBlock(d, offer);
      } else if offer == NoPages {
        p := 0;
      } else {
        arenas := arenas[offer.a := Big(PagesFor(size))];
        p := offer.a * PGSIZE + HEADER;
        live := live + {p};
      }
      assert (View(), p) == Take(h, size, offer);
      TakeKeeps(h, size, offer);
    }

    /** The loop of `free` that takes the blocks of an arena off the free list. */
    method UnlistArena(d: nat, a: nat)
      requires d < CLASSES == |lists| && NoDup(lists[d])
      modifies `lists
      ensures lists == old(lists)[d := Keep(old(lists)[d], BlocksOf(a, d, PerArena(d)))]
    {
      ghost var list := lists[d];
      var i := 0;
      KeepNone(list, BlocksOf(a, d, 0));
      while i < PerArena(d)
        invariant i <= PerArena(d) && |lists| == CLASSES && lists == old(lists)[d := Keep(list, BlocksOf(a, d, i))]
      {
        WithoutKeep(list, BlocksOf(a, d, i), Block(a, d, i));
        assert BlocksOf(a, d, i + 1) == BlocksOf(a, d, i) + {Block(a, d, i)};
        lists := lists[d := Without(lists[d], Block(a, d, i))];
        i := i + 1;
      }
    }

    method FreeBlock(p: nat)
      requires p / PGSIZE in arenas && arenas[p / PGSIZE].Small? && arenas[p / PGSIZE].d < CLASSES == |lists|
      requires NoDup([p] + lists[arenas[p / PGSIZE].d])
      modifies this
      ensures View() == Push(old(View()), p)
    {
      var a := p / PGSIZE;
      var d := arenas[a].d;
      lists := lists[d := [p] + lists[d]];
      arenas := arenas[a := arenas[a].(free := arenas[a].free + 1)];
      live := live - {p};
      if arenas[a].free >= PerArena(d) {
        UnlistArena(d, a);
        arenas := arenas - {a};
      }
    }

    method Free(p: nat)
      requires HeapOk(View()) && (p == 0 || p in live)
      modifies this
      ensures HeapOk(View()) && View() == Give(old(View()), p)
    {
      ghost var h := View();
      GiveKeeps(h, p);
      if p != 0 {
        assert LiveOk(h.arenas, p);
        if arenas[p / PGSIZE].Small? {
          ghost var a, d, i := OfSmall(h, p);
          FreeBlock(p);
        } else {
          arenas, live := arenas - {p / PGSIZE}, live - {p};
        }
      }
    }
  }

  lemma FirstFits(h: Heap, d: nat)
    requires HeapOk(h) && d < CLASSES && h.lists[d] != []
    ensures var a := h.lists[d][0] / PGSIZE;
      a in h.arenas && h.arenas[a].Small? && h.arenas[a].d == d && h.arenas[a].free > 0
  {
    assert h.lists[d][0] in h.lists[d];
    var a, i := OnList(h, d, h.lists[d][0]);
    assert ListOk(h.arenas, d, h.lists[d]);
    PopCounts(h.lists[d], h.live, a, d, i, h.arenas[a].free);
  }

  /** Carving an arena and then taking its first block. */
  lemma CarveThenPop(h: Heap, d: nat, a: nat)
    requires |h.lists| == CLASSES && d < CLASSES
    ensures var mid := h.(arenas := h.arenas[a := Small(d, PerArena(d))], lists := h.lists[d := Carved(a, d)]);
      Pop(mid, d) == Carve(h, d, a)
  {
    BlockInside(a, d, 0);
  }

  lemma {:induction false} KeepNone(list: seq<nat>, out: set<nat>)
    requires out == {}
    ensures Keep(list, out) == list
  {
    if list != [] { KeepNone(list[1..], out); }
  }

  lemma {:induction false} WithoutKeep(list: seq<nat>, out: set<nat>, x: nat)
    requires NoDup(list)
    ensures Without(Keep(list, out), x) == Keep(list, out + {x})
  {
    if list != [] {
      NoDupFront(list);
      WithoutKeep(list[1..], out, x);
      if list[0] == x && x !in out {
        NotThere(list[1..], out, x);
      }
    }
  }

  lemma {:induction false} NotThere(list: seq<nat>, out: set<nat>, x: nat)
    requires x !in list
    ensures Keep(list, out) == Keep(list, out + {x})
  {
    if list != [] { NotThere(list[1..], out, x); }
  }
}
