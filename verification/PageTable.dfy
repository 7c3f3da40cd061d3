/**
 The two-level page table of a process.  Pages are named by number: a user page by the upper
 twenty bits of its address, a frame by the upper twenty bits of its physical address.  An entry is
 the number of a frame followed by twelve bits of flags.
 */
module PageTable {
  import opened Sequences

  const PGSIZE: nat := 4096
  const ENTRIES: nat := 1024
  const USER_SLOTS: nat := 768
  const USER_PAGES: nat := USER_SLOTS * ENTRIES

  const PTE_P: nat := 1
  const PTE_W: nat := 2
  const PTE_U: nat := 4

  // ---------------------------------------------------------------------------------
  // Entries
  // ---------------------------------------------------------------------------------

  function Present(e: nat): (b: bool) { e % 2 == 1 }

  function Writable(e: nat): (b: bool) { e / PTE_W % 2 == 1 }

  function ForUser(e: nat): (b: bool) { e / PTE_U % 2 == 1 }

  function Frame(e: nat): (f: nat) { e / PGSIZE }

  function PdeCreate(frame: nat): (e: nat) { frame * PGSIZE + PTE_U + PTE_P + PTE_W }

  function PteCreateUser(frame: nat, writable: bool): (e: nat) {
    frame * PGSIZE + PTE_P + (if writable then PTE_W else 0) + PTE_U
  }

  /** `*pte &= ~PTE_P`. */
  function NotPresent(e: nat): (r: nat) { if Present(e) then e - PTE_P else e }

  lemma Halves(k: nat, f: nat)
    ensures (2 * k + f) / 2 == k + f / 2 && (2 * k + f) % 2 == f % 2
  {
  }

  lemma Quarters(k: nat, f: nat)
    ensures (4 * k + f) / 4 == k + f / 4
  {
  }

  /** Flags are read back as they were set, and so is the frame. */
  lemma FlagsReadBack(frame: nat, flags: nat, e: nat)
    requires flags < 8 && e == frame * PGSIZE + flags
    ensures Present(e) == Present(flags) && Writable(e) == Writable(flags) && ForUser(e) == ForUser(flags)
    ensures Frame(e) == frame
  {
    Halves(frame * 2048, flags);
    Halves(frame * 1024, flags / 2);
    Halves(frame * 512, flags / 4);
    Quarters(frame * 1024, flags);
  }

  lemma EntryRoundTrip(frame: nat, writable: bool)
    ensures var e := PteCreateUser(frame, writable);
      && Present(e) && Frame(e) == frame && Writable(e) == writable && ForUser(e)
      && var r := NotPresent(e); !Present(r) && Frame(r) == frame && Writable(r) == writable && ForUser(r)
    ensures var e := PdeCreate(frame); Present(e) && Frame(e) == frame && e != 0 && Writable(e) && ForUser(e)
  {
    var e := PteCreateUser(frame, writable);
    var flags := PTE_P + (if writable then PTE_W else 0) + PTE_U;
    FlagsReadBack(frame, flags, e);
    FlagsReadBack(frame, flags - PTE_P, e - PTE_P);
    FlagsReadBack(frame, 7, PdeCreate(frame));
  }

  /** Numbers with flags added are words with flags set, if the flag bits were clear. */
  lemma EntryBits(a: bv32, e: bv32)
    ensures a & 0xFFF == 0 ==> a | 7 == a + 7 && a | 5 == a + 5
    ensures (a | 7) & 0xFFFF_F000 == a & 0xFFFF_F000
    ensures e & 1 == 1 ==> e & 0xFFFF_FFFE == e - 1
    ensures e & 1 == 0 ==> e & 0xFFFF_FFFE == e
  {
  }

  datatype Mapping = Unmapped | Mapped(frame: nat, writable: bool)

  // ---------------------------------------------------------------------------------
  // Directories
  // ---------------------------------------------------------------------------------

  function SlotOf(u: nat): (i: nat) { u / ENTRIES }

  function EntryOf(u: nat): (i: nat)
    ensures i < ENTRIES
  {
    u % ENTRIES
  }

  /** A page is found by the upper ten bits of its number and then by the lower ten. */
  lemma PageNumber(u: nat, i: nat, j: nat)
    requires j < ENTRIES
    ensures SlotOf(u) == i && EntryOf(u) == j <==> u == i * ENTRIES + j
  {
  }

  /** A user slot of the directory is empty or names a page table of its own. */
  predicate DirOk(dir: seq<nat>, tables: map<nat, seq<nat>>) {
    && |dir| == ENTRIES
    && (forall i :: 0 <= i < USER_SLOTS ==> dir[i] == 0 || (Present(dir[i]) && Frame(dir[i]) in tables))
    && (forall i, j :: 0 <= i < j < USER_SLOTS && dir[i] != 0 && dir[j] != 0 ==> Frame(dir[i]) != Frame(dir[j]))
    && (forall f :: f in tables ==> |tables[f]| == ENTRIES)
  }

  /** What the processor finds for a user page. */
  function View(dir: seq<nat>, tables: map<nat, seq<nat>>, u: nat): (m: Mapping)
    requires DirOk(dir, tables) && u < USER_PAGES
  {
    var e := dir[SlotOf(u)];
    if e == 0 then Unmapped
    else
      var pte := tables[Frame(e)][EntryOf(u)];
      if Present(pte) then Mapped(Frame(pte), Writable(pte)) else Unmapped
  }

  /** A new, empty page table in an empty slot changes nothing. */
  lemma NewTable(dir: seq<nat>, tables: map<nat, seq<nat>>, i: nat, f: nat, table: seq<nat>, u: nat)
    requires DirOk(dir, tables) && i < USER_SLOTS && dir[i] == 0 && f !in tables && u < USER_PAGES
    requires |table| == ENTRIES && forall k :: 0 <= k < ENTRIES ==> table[k] == 0
    ensures DirOk(dir[i := PdeCreate(f)], tables[f := table])
    ensures View(dir[i := PdeCreate(f)], tables[f := table], u) == View(dir, tables, u)
  {
    EntryRoundTrip(f, false);
  }

  function PutEntry(tables: map<nat, seq<nat>>, f: nat, k: nat, e: nat): (r: map<nat, seq<nat>>)
    requires f in tables && k < |tables[f]|
  {
    var table: seq<nat> := tables[f][k := e];
    tables[f := table]
  }

  /** Writing an entry changes what is found for its page, and for no other. */
  lemma SetEntry(dir: seq<nat>, tables: map<nat, seq<nat>>, u: nat, pte: nat, v: nat)
    requires DirOk(dir, tables) && u < USER_PAGES && v < USER_PAGES && dir[SlotOf(u)] != 0
    ensures var tables' := PutEntry(tables, Frame(dir[SlotOf(u)]), EntryOf(u), pte);
      && DirOk(dir, tables')
      && View(dir, tables', v) == if v != u then View(dir, tables, v)
                                  else if Present(pte) then Mapped(Frame(pte), Writable(pte)) else Unmapped
  {
  }

  predicate HasFrame(m: Mapping, f: nat) { m.Mapped? && m.frame == f }

  /** The page of the directory, its page tables and the frames that it maps are different pages. */
  ghost predicate Separate(dir: seq<nat>, tables: map<nat, seq<nat>>, page: nat)
    requires DirOk(dir, tables)
  {
    && (forall i :: 0 <= i < USER_SLOTS && dir[i] != 0 ==> Frame(dir[i]) != page)
    && (forall u :: 0 <= u < USER_PAGES ==> !HasFrame(View(dir, tables, u), page))
    && (forall u, i ::
      0 <= u < USER_PAGES && 0 <= i < USER_SLOTS && dir[i] != 0 ==> !HasFrame(View(dir, tables, u), Frame(dir[i])))
  }

  /** No frame is mapped at two pages. */
  ghost predicate Unshared(dir: seq<nat>, tables: map<nat, seq<nat>>)
    requires DirOk(dir, tables)
  {
    forall u, v, f ::
      0 <= u < v < USER_PAGES && HasFrame(View(dir, tables, u), f) ==> !HasFrame(View(dir, tables, v), f)
  }

  /** `page` is not yet in use: not the directory's, no page table's and not mapped. */
  ghost predicate NotInUse(dir: seq<nat>, tables: map<nat, seq<nat>>, page: nat, f: nat)
    requires DirOk(dir, tables)
  {
    && f != page
    && (forall i :: 0 <= i < USER_SLOTS && dir[i] != 0 ==> Frame(dir[i]) != f)
    && (forall u :: 0 <= u < USER_PAGES ==> !HasFrame(View(dir, tables, u), f))
  }

  /** `page` is where the directory itself is. */
  class Directory {
    const page: nat
    var dir: seq<nat>
    var tables: map<nat, seq<nat>>

    ghost predicate Valid()
      reads this
    {
      DirOk(dir, tables)
    }

    /** `pagedir_create`: the kernel's half of the initial directory, and no user mapping. */
    constructor (page: nat, initial: seq<nat>)
      requires |initial| == ENTRIES && forall i :: 0 <= i < USER_SLOTS ==> initial[i] == 0
      ensures Valid() && dir == initial && forall u :: 0 <= u < USER_PAGES ==> View(dir, tables, u) == Unmapped
      ensures this.page == page && Separate(dir, tables, page) && Unshared(dir, tables)
    {
      this.page := page;
      dir, tables := initial, map[];
    }

    /** `lookup_page`: whether there is a page table for `u`, afterwards. `offer` is what the page
        allocator gives if it is asked, zero for nothing. */
    method LookupPage(u: nat, create: bool, offer: nat) returns (found: bool)
      requires Valid() && u < USER_PAGES && offer !in tables
      modifies this
      ensures Valid() && (found <==> dir[SlotOf(u)] != 0)
      ensures found <==> old(dir)[SlotOf(u)] != 0 || (create && offer != 0)
      ensures (!create || !found) ==> dir == old(dir) && tables == old(tables)
      ensures forall v :: 0 <= v < USER_PAGES ==> View(dir, tables, v) == old(View(dir, tables, v))
      ensures dir[USER_SLOTS..] == old(dir[USER_SLOTS..])
      ensures forall i :: 0 <= i < USER_SLOTS ==>
        dir[i] == if !old(dir[SlotOf(u)] != 0) && found && i == SlotOf(u) then PdeCreate(offer) else old(dir)[i]
    {
      var i := SlotOf(u);
      if dir[i] == 0 {
        if !create || offer == 0 { return false; }
        var table := seq(ENTRIES, k => 0);
        forall v | 0 <= v < USER_PAGES
          ensures DirOk(dir[i := PdeCreate(offer)], tables[offer := table])
          ensures View(dir[i := PdeCreate(offer)], tables[offer := table], v) == View(dir, tables, v)
        {
          NewTable(dir, tables, i, offer, table, v);
        }
        NewTable(dir, tables, i, offer, table, u);
        tables := tables[offer := table];
        dir := dir[i := PdeCreate(offer)];
      }
      found := true;
    }

    method WriteEntry(u: nat, pte: nat)
      requires Valid() && u < USER_PAGES && dir[SlotOf(u)] != 0
      modifies `tables
      ensures Valid() && tables == PutEntry(old(tables), Frame(dir[SlotOf(u)]), EntryOf(u), pte)
      ensures forall v :: 0 <= v < USER_PAGES && v != u ==> View(dir, tables, v) == old(View(dir, tables, v))
      ensures View(dir, tables, u) == if Present(pte) then Mapped(Frame(pte), Writable(pte)) else Unmapped
    {
      forall v | 0 <= v < USER_PAGES
        ensures var tables' := PutEntry(tables, Frame(dir[SlotOf(u)]), EntryOf(u), pte);
          && DirOk(dir, tables')
          && View(dir, tables', v) == if v != u then View(dir, tables, v)
                                      else if Present(pte) then Mapped(Frame(pte), Writable(pte)) else Unmapped
      {
        SetEntry(dir, tables, u, pte, v);
      }
      SetEntry(dir, tables, u, pte, u);
      tables := PutEntry(tables, Frame(dir[SlotOf(u)]), EntryOf(u), pte);
    }

    /** `pagedir_set_page`: maps a page that was not mapped, or fails for lack of memory. */
    method SetPage(u: nat, frame: nat, writable: bool, offer: nat) returns (ok: bool)
      requires Valid() && u < USER_PAGES && offer !in tables && View(dir, tables, u) == Unmapped
      modifies this
      ensures Valid() && dir[USER_SLOTS..] == old(dir[USER_SLOTS..])
      ensures ok <==> old(dir)[SlotOf(u)] != 0 || offer != 0
      ensures forall v :: 0 <= v < USER_PAGES ==>
        View(dir, tables, v) == if ok && v == u then Mapped(frame, writable) else old(View(dir, tables, v))
      ensures old(Fresh(frame, offer)) ==> Separate(dir, tables, page) && Unshared(dir, tables)
    {
      ok := LookupPage(u, true, offer);
      if ok {
        EntryRoundTrip(frame, writable);
        EntryRoundTrip(offer, writable);
        WriteEntry(u, PteCreateUser(frame, writable));
      }
    }

    /** Pages are apart, and the frame and the offered page, if there is one, are two new ones, as those
        from the page allocator are. */
    ghost predicate Fresh(frame: nat, offer: nat)
      requires Valid()
      reads this
    {
      && Separate(dir, tables, page) && Unshared(dir, tables) && NotInUse(dir, tables, page, frame)
      && (offer != 0 ==> offer != frame && NotInUse(dir, tables, page, offer))
    }

    /** `pagedir_get_page`: the kernel address of the byte at offset `ofs` of the page, zero if it is
        not mapped. Physical memory starts at `base` in the kernel's address space. */
    method GetPage(u: nat, ofs: nat, base: nat) returns (k: nat)
      requires Valid() && u < USER_PAGES && ofs < PGSIZE && base > 0
      ensures k == match View(dir, tables, u) case Unmapped => 0 case Mapped(f, _) => base + f * PGSIZE + ofs
    {
      var e := dir[SlotOf(u)];
      if e == 0 { return 0; }
      var pte := tables[Frame(e)][EntryOf(u)];
      k := if Present(pte) then base + Frame(pte) * PGSIZE + ofs else 0;
    }

    /** `pagedir_clear_page`: unmaps a page, mapped or not. */
    method ClearPage(u: nat)
      requires Valid() && u < USER_PAGES
      modifies `tables
      ensures Valid()
      ensures forall v ::
        0 <= v < USER_PAGES ==> View(dir, tables, v) == if v == u then Unmapped else old(View(dir, tables, v))
      ensures old(Separate(dir, tables, page)) ==> Separate(dir, tables, page)
      ensures old(Unshared(dir, tables)) ==> Unshared(dir, tables)
    {
      var e := dir[SlotOf(u)];
      if e != 0 {
        var pte := tables[Frame(e)][EntryOf(u)];
        if Present(pte) {
          WriteEntry(u, NotPresent(pte));
        }
      }
    }

    /** The inner loop of `pagedir_destroy`: the frames of one page table. `users` are the user pages
        they are mapped at. */
    method FreeFrames(i: nat) returns (frames: seq<nat>, ghost users: seq<nat>)
      requires Valid() && i < USER_SLOTS && dir[i] != 0
      ensures Listed(dir, tables, i * ENTRIES, (i + 1) * ENTRIES, frames, users)
    {
      frames, users := [], [];
      var table := tables[Frame(dir[i])];
      var k := 0;
      while k < ENTRIES
        invariant k <= ENTRIES && Listed(dir, tables, i * ENTRIES, i * ENTRIES + k, frames, users)
      {
        ghost var u := i * ENTRIES + k;
        assert SlotOf(u) == i && EntryOf(u) == k;
        if Present(table[k]) {
          frames, users := frames + [Frame(table[k])], users + [u];
        }
        k := k + 1;
      }
    }

    /** `pagedir_destroy`: frees the frame of every mapped page, once for each page it is mapped at, every
        page table, and the page of the directory; `freed` are these in the order in which they go. */
    method Destroy() returns (freed: seq<nat>)
      requires Valid()
      ensures NoDup(freed) <==> Separate(dir, tables, page) && Unshared(dir, tables)
      ensures forall f: nat :: f in freed <==> f == page || IsTable(dir, f) || Maps(dir, tables, f)
    {
      freed := [];
      ghost var frames, users, tabs, slots: seq<nat> := [], [], [], [];
      var i := 0;
      while i < USER_SLOTS
        invariant FreedTo(dir, tables, i, freed, frames, users, tabs, slots)
      {
        if Present(dir[i]) {
          var more;
          ghost var at;
          more, at := FreeFrames(i);
          FreedNext(dir, tables, i, freed, frames, users, tabs, slots, more, at);
          freed := freed + more + [Frame(dir[i])];
          frames, users := frames + more, users + at;
          tabs, slots := tabs + [Frame(dir[i])], slots + [i];
        } else {
          FreedSkips(dir, tables, i, freed, frames, users, tabs, slots);
        }
        i := i + 1;
      }
      AllFreed(dir, tables, page, freed, frames, users, tabs, slots);
      freed := freed + [page];
    }
  }

  ghost predicate Maps(dir: seq<nat>, tables: map<nat, seq<nat>>, f: nat)
    requires DirOk(dir, tables)
  {
    exists u :: 0 <= u < USER_PAGES && HasFrame(View(dir, tables, u), f)
  }

  predicate Increasing(s: seq<nat>) { forall i, j :: 0 <= i < j < |s| ==> s[i] < s[j] }

  /** `users` are the mapped pages from `a` to `b`, each once, and `frames` their frames. */
  ghost predicate Listed(dir: seq<nat>, tables: map<nat, seq<nat>>, a: nat, b: nat, frames: seq<nat>, users: seq<nat>) {
    && DirOk(dir, tables) && a <= b <= USER_PAGES
    && |frames| == |users| && Increasing(users)
    && (forall u :: u in users <==> a <= u < b && View(dir, tables, u).Mapped?)
    && (forall i :: 0 <= i < |users| ==> users[i] < USER_PAGES && HasFrame(View(dir, tables, users[i]), frames[i]))
  }

  /** `slots` are the used slots among the first `n`, each once, and `freed` the page tables in them. */
  ghost predicate Slots(dir: seq<nat>, n: nat, freed: seq<nat>, slots: seq<nat>) {
    && n <= USER_SLOTS <= |dir| && |freed| == |slots| && Increasing(slots)
    && (forall i :: i in slots <==> 0 <= i < n && Present(dir[i]))
    && (forall k :: 0 <= k < |slots| ==> slots[k] < n && freed[k] == Frame(dir[slots[k]]))
  }

  lemma IncreasingJoin(u: seq<nat>, v: seq<nat>, b: nat)
    requires Increasing(u) && Increasing(v) && (forall x :: x in u ==> x < b) && (forall x :: x in v ==> b <= x)
    ensures Increasing(u + v)
  {
    forall i, j | 0 <= i < j < |u + v| ensures (u + v)[i] < (u + v)[j] {
      if i < |u| { assert u[i] in u; }
      if j >= |u| { assert v[j - |u|] in v; }
    }
  }

  lemma ListsJoin(dir: seq<nat>, tables: map<nat, seq<nat>>, a: nat, b: nat, c: nat, f: seq<nat>, u: seq<nat>,
                  g: seq<nat>, v: seq<nat>)
    requires Listed(dir, tables, a, b, f, u) && Listed(dir, tables, b, c, g, v)
    ensures Listed(dir, tables, a, c, f + g, u + v)
  {
    IncreasingJoin(u, v, b);
    forall i | 0 <= i < |u + v| ensures (u + v)[i] < USER_PAGES && HasFrame(View(dir, tables, (u + v)[i]), (f + g)[i]) {
      if i < |u| { assert u[i] < USER_PAGES; } else { assert v[i - |u|] < USER_PAGES; }
    }
  }

  lemma EmptySlot(dir: seq<nat>, tables: map<nat, seq<nat>>, i: nat, frames: seq<nat>, users: seq<nat>)
    requires i < USER_SLOTS && Listed(dir, tables, 0, i * ENTRIES, frames, users) && !Present(dir[i])
    ensures Listed(dir, tables, 0, (i + 1) * ENTRIES, frames, users)
  {
    assert dir[i] == 0;
    forall u | i * ENTRIES <= u < (i + 1) * ENTRIES ensures View(dir, tables, u) == Unmapped { assert SlotOf(u) == i; }
  }

  /** No page table is freed twice. */
  lemma TableOnce(dir: seq<nat>, tables: map<nat, seq<nat>>, freed: seq<nat>, slots: seq<nat>, j: nat, k: nat)
    requires DirOk(dir, tables) && Slots(dir, USER_SLOTS, freed, slots) && j < k < |freed|
    ensures freed[j] != freed[k]
  {
    assert slots[j] in slots && slots[k] in slots;
  }

  lemma SlotJoins(dir: seq<nat>, i: nat, tabs: seq<nat>, slots: seq<nat>)
    requires i < USER_SLOTS && Slots(dir, i, tabs, slots) && Present(dir[i])
    ensures Slots(dir, i + 1, tabs + [Frame(dir[i])], slots + [i])
  {
  }

  lemma Shuffled(freed: seq<nat>, frames: seq<nat>, tabs: seq<nat>, more: seq<nat>, t: nat)
    requires multiset(freed) == multiset(frames + tabs)
    ensures multiset(freed + more + [t]) == multiset(frames + more + (tabs + [t]))
  {
    assert multiset(frames + tabs) == multiset(frames) + multiset(tabs);
    assert multiset(frames + more + (tabs + [t])) ==
      multiset(frames) + multiset(more) + (multiset(tabs) + multiset([t]));
  }

  /** How often `x` is in `s`. */
  function Times(s: seq<nat>, x: nat): (n: nat) { multiset(s)[x] }

  ghost predicate Once(s: seq<nat>) { forall x: nat :: Times(s, x) <= 1 }

  lemma FirstCounts(s: seq<nat>, y: nat)
    requires s != []
    ensures Times(s, y) == (if s[0] == y then 1 else 0) + Times(s[1..], y)
    ensures y in s[1..] <==> Times(s[1..], y) > 0
  {
    assert s == [s[0]] + s[1..];
    assert multiset(s) == multiset{s[0]} + multiset(s[1..]);
  }

  /** What has been freed for the first `i` slots: `frames` and the page tables `tabs`, in some order. */
  ghost predicate FreedTo(dir: seq<nat>, tables: map<nat, seq<nat>>, i: nat, freed: seq<nat>, frames: seq<nat>,
                          users: seq<nat>, tabs: seq<nat>, slots: seq<nat>) {
    && i <= USER_SLOTS && Listed(dir, tables, 0, i * ENTRIES, frames, users) && Slots(dir, i, tabs, slots)
    && multiset(freed) == multiset(frames + tabs)
  }

  lemma FreedNext(dir: seq<nat>, tables: map<nat, seq<nat>>, i: nat, freed: seq<nat>, frames: seq<nat>, users: seq<nat>,
                  tabs: seq<nat>, slots: seq<nat>, more: seq<nat>, at: seq<nat>)
    requires FreedTo(dir, tables, i, freed, frames, users, tabs, slots) && i < USER_SLOTS && Present(dir[i])
    requires Listed(dir, tables, i * ENTRIES, (i + 1) * ENTRIES, more, at)
    ensures FreedTo(dir, tables, i + 1, freed + more + [Frame(dir[i])], frames + more, users + at,
                    tabs + [Frame(dir[i])], slots + [i])
  {
    ListsJoin(dir, tables, 0, i * ENTRIES, (i + 1) * ENTRIES, frames, users, more, at);
    SlotJoins(dir, i, tabs, slots);
    Shuffled(freed, frames, tabs, more, Frame(dir[i]));
  }

  lemma FreedSkips(dir: seq<nat>, tables: map<nat, seq<nat>>, i: nat, freed: seq<nat>, frames: seq<nat>,
                   users: seq<nat>, tabs: seq<nat>, slots: seq<nat>)
    requires FreedTo(dir, tables, i, freed, frames, users, tabs, slots) && i < USER_SLOTS && !Present(dir[i])
    ensures FreedTo(dir, tables, i + 1, freed, frames, users, tabs, slots)
  {
    EmptySlot(dir, tables, i, frames, users);
  }

  lemma {:induction false} NoRepeats(s: seq<nat>)
    ensures NoDup(s) <==> Once(s)
  {
    if s != [] {
      var x, rest := s[0], s[1..];
      NoRepeats(rest);
      assert s == [x] + rest;
      NoDupConcat([x], rest);
      assert x in [x];
      forall y: nat ensures Times(s, y) == (if x == y then 1 else 0) + Times(rest, y) { FirstCounts(s, y); }
      FirstCounts(s, x);
      if Once(s) {
        forall y: nat ensures Times(rest, y) <= 1 { assert Times(s, y) <= 1; }
        assert Times(s, x) <= 1;
      }
    }
  }

  lemma SameRepeats(s: seq<nat>, t: seq<nat>)
    requires multiset(s) == multiset(t)
    ensures NoDup(s) <==> NoDup(t)
    ensures forall x: nat :: x in s <==> x in t
  {
    NoRepeats(s);
    NoRepeats(t);
    forall x: nat ensures Times(s, x) == Times(t, x) {}
    forall x: nat ensures x in s <==> x in t { assert x in multiset(s) <==> x in multiset(t); }
  }

  lemma SharedRepeats(dir: seq<nat>, tables: map<nat, seq<nat>>, frames: seq<nat>, users: seq<nat>, u: nat, v: nat,
                      f: nat)
    requires Listed(dir, tables, 0, USER_PAGES, frames, users) && u < v < USER_PAGES
    requires HasFrame(View(dir, tables, u), f) && HasFrame(View(dir, tables, v), f)
    ensures !NoDup(frames)
  {
    assert u in users && v in users;
    var j :| 0 <= j < |users| && users[j] == u;
    var k :| 0 <= k < |users| && users[k] == v;
    assert frames[j] == f && frames[k] == f && j != k;
  }

  /** Frames are freed once each exactly if none is mapped at two pages. */
  lemma FramesOnce(dir: seq<nat>, tables: map<nat, seq<nat>>, frames: seq<nat>, users: seq<nat>)
    requires Listed(dir, tables, 0, USER_PAGES, frames, users)
    ensures NoDup(frames) <==> Unshared(dir, tables)
  {
    if !Unshared(dir, tables) {
      var u, v, f :| 0 <= u < v < USER_PAGES && HasFrame(View(dir, tables, u), f) && HasFrame(View(dir, tables, v), f);
      SharedRepeats(dir, tables, frames, users, u, v, f);
    }
    if !NoDup(frames) {
      var j, k :| 0 <= j < k < |frames| && frames[j] == frames[k];
      assert users[j] < users[k] && HasFrame(View(dir, tables, users[j]), frames[j]);
    }
  }

  lemma FrameListed(dir: seq<nat>, tables: map<nat, seq<nat>>, frames: seq<nat>, users: seq<nat>, f: nat)
    requires Listed(dir, tables, 0, USER_PAGES, frames, users)
    ensures f in frames <==> Maps(dir, tables, f)
  {
    if f in frames {
      var j :| 0 <= j < |frames| && frames[j] == f;
      assert HasFrame(View(dir, tables, users[j]), f);
    }
    if Maps(dir, tables, f) {
      var u :| 0 <= u < USER_PAGES && HasFrame(View(dir, tables, u), f);
      assert u in users;
      var j :| 0 <= j < |users| && users[j] == u;
      assert frames[j] == f;
    }
  }

  lemma TableListed(dir: seq<nat>, tables: map<nat, seq<nat>>, tabs: seq<nat>, slots: seq<nat>, f: nat)
    requires DirOk(dir, tables) && Slots(dir, USER_SLOTS, tabs, slots)
    ensures f in tabs <==> IsTable(dir, f)
  {
    if f in tabs {
      var k :| 0 <= k < |tabs| && tabs[k] == f;
      assert slots[k] in slots && dir[slots[k]] != 0;
    }
    if i :| 0 <= i < USER_SLOTS && dir[i] != 0 && Frame(dir[i]) == f {
      assert i in slots;
      var k :| 0 <= k < |slots| && slots[k] == i;
      assert tabs[k] == f;
    }
  }

  lemma TablesOnce(dir: seq<nat>, tables: map<nat, seq<nat>>, tabs: seq<nat>, slots: seq<nat>)
    requires DirOk(dir, tables) && Slots(dir, USER_SLOTS, tabs, slots)
    ensures NoDup(tabs)
  {
    forall j, k | 0 <= j < k < |tabs| ensures tabs[j] != tabs[k] {
      TableOnce(dir, tables, tabs, slots, j, k);
    }
  }

  predicate IsTable(dir: seq<nat>, f: nat) {
    |dir| == ENTRIES && exists i :: 0 <= i < USER_SLOTS && dir[i] != 0 && Frame(dir[i]) == f
  }

  /** The three lists are apart exactly if the pages are. */
  lemma ApartIs(dir: seq<nat>, tables: map<nat, seq<nat>>, page: nat, frames: seq<nat>, tabs: seq<nat>)
    requires DirOk(dir, tables)
    requires forall f: nat :: f in frames <==> Maps(dir, tables, f)
    requires forall f: nat :: f in tabs <==> IsTable(dir, f)
    ensures Apart(frames, tabs) && page !in frames && page !in tabs <==> Separate(dir, tables, page)
  {
    if Apart(frames, tabs) && page !in frames && page !in tabs {
      assert !Maps(dir, tables, page) && !IsTable(dir, page);
      forall u, i | 0 <= u < USER_PAGES && 0 <= i < USER_SLOTS && dir[i] != 0
        ensures !HasFrame(View(dir, tables, u), Frame(dir[i]))
      {
        assert IsTable(dir, Frame(dir[i]));
        assert Frame(dir[i]) in tabs && Frame(dir[i]) !in frames;
      }
    }
    if Separate(dir, tables, page) {
      forall f | f in frames ensures f !in tabs {
        assert Maps(dir, tables, f);
      }
    }
  }

  /** No page is freed twice exactly if no frame is mapped twice and all pages are apart. */
  lemma FreedOnce(dir: seq<nat>, tables: map<nat, seq<nat>>, page: nat, frames: seq<nat>, users: seq<nat>,
                  tabs: seq<nat>, slots: seq<nat>)
    requires Listed(dir, tables, 0, USER_PAGES, frames, users) && Slots(dir, USER_SLOTS, tabs, slots)
    ensures NoDup(frames + tabs + [page]) <==> Separate(dir, tables, page) && Unshared(dir, tables)
    ensures forall f: nat :: f in frames + tabs + [page] <==> f == page || IsTable(dir, f) || Maps(dir, tables, f)
  {
    FramesOnce(dir, tables, frames, users);
    TablesOnce(dir, tables, tabs, slots);
    NoDupConcat(frames, tabs);
    NoDupConcat(frames + tabs, [page]);
    forall f: nat ensures (f in frames <==> Maps(dir, tables, f)) && (f in tabs <==> IsTable(dir, f)) {
      FrameListed(dir, tables, frames, users, f);
      TableListed(dir, tables, tabs, slots, f);
    }
    ApartIs(dir, tables, page, frames, tabs);
    assert page in [page];
    assert Apart(frames + tabs, [page]) <==> page !in frames && page !in tabs;
  }

  lemma AllFreed(dir: seq<nat>, tables: map<nat, seq<nat>>, page: nat, freed: seq<nat>, frames: seq<nat>,
                 users: seq<nat>, tabs: seq<nat>, slots: seq<nat>)
    requires FreedTo(dir, tables, USER_SLOTS, freed, frames, users, tabs, slots)
    ensures NoDup(freed + [page]) <==> Separate(dir, tables, page) && Unshared(dir, tables)
    ensures forall f: nat :: f in freed + [page] <==> f == page || IsTable(dir, f) || Maps(dir, tables, f)
  {
    assert multiset(freed + [page]) == multiset(frames + tabs + [page]);
    SameRepeats(freed + [page], frames + tabs + [page]);
    FreedOnce(dir, tables, page, frames, users, tabs, slots);
  }

  /** An input where it is not so: frame 3 is mapped at pages 0 and 1, by a page table in frame 1. */
  function SharedDir(): (dir: seq<nat>)
    ensures |dir| == ENTRIES && dir[0] == PdeCreate(1) && forall i :: 0 < i < ENTRIES ==> dir[i] == 0
  {
    [PdeCreate(1)] + seq(ENTRIES - 1, i => 0)
  }

  function SharedTable(): (table: seq<nat>)
    ensures |table| == ENTRIES && table[0] == table[1] == PteCreateUser(3, true)
  {
    [PteCreateUser(3, true), PteCreateUser(3, true)] + seq(ENTRIES - 2, i => 0)
  }

  lemma SharedInput()
    ensures var dir, tables := SharedDir(), map[1 := SharedTable()];
      DirOk(dir, tables) && View(dir, tables, 0) == View(dir, tables, 1) == Mapped(3, true) && !Unshared(dir, tables)
  {
    var dir, tables := SharedDir(), map[1 := SharedTable()];
    EntryRoundTrip(1, true);
    EntryRoundTrip(3, true);
    assert SlotOf(0) == 0 && SlotOf(1) == 0 && EntryOf(0) == 0 && EntryOf(1) == 1;
    assert HasFrame(View(dir, tables, 0), 3) && HasFrame(View(dir, tables, 1), 3);
  }
}
