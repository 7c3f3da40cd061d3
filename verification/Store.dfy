/**
 The code of inode.c and free-map.c over the atomic disk that the buffer cache presents:
 the free map, the block index of a file, and the copy loops.
 */
module Store {
  import opened Sectors
  import opened Words
  import opened InodeIndex
  import opened Ledger
  import opened Sequences
  import opened Volume
  import opened Growth
  import opened FileBytes

  /** The number of bytes the next turn of the copy loops moves. */
  method ChunkSize(length: nat, offset: nat, size: nat) returns (n: int)
    ensures n <= size && offset + n <= length && offset % SECTOR_SIZE + n <= SECTOR_SIZE
    ensures size > 0 && offset < length ==> n > 0
    ensures n == size || offset + n == length || (offset + n) % SECTOR_SIZE == 0
    ensures offset < length ==> n == Chunk(length, offset, size)
  {
    var inodeLeft := length - offset;
    var sectorLeft := SECTOR_SIZE - offset % SECTOR_SIZE;
    var minLeft := if inodeLeft < sectorLeft then inodeLeft else sectorLeft;
    n := if size < minLeft then size else minLeft;
  }

  /** The sectors of a file behind its direct pointers, in the order `deallocate_file`
      releases them. */
  ghost function BehindDirect(d: Node, disk: seq<Sector>): (r: seq<nat>)
    requires TreeOk(d, disk)
  {
    var n := SectorCount(d.length);
    if n <= NUM_DIRECT then []
    else if n <= NUM_DIRECT + PER_INDEX then Unpack(disk[d.single])[..n - NUM_DIRECT] + [d.single]
    else
      var u := Unpack(disk[d.double])[0];
      Unpack(disk[d.single]) + [d.single] + (Unpack(disk[u])[..n - (NUM_DIRECT + PER_INDEX)] + [u] + [d.double])
  }

  ghost function ReleaseOrder(ino: nat, d: Node, disk: seq<Sector>): (r: seq<nat>)
    requires TreeOk(d, disk)
  {
    d.direct[..Min(SectorCount(d.length), NUM_DIRECT)] + BehindDirect(d, disk) + [ino]
  }

  lemma Reshuffled(ino: nat, a: seq<nat>, b: seq<nat>, s: seq<nat>, c: seq<nat>, t: seq<nat>, u: seq<nat>)
    requires NoDup([ino] + (a + b + c) + (s + t + u))
    ensures var r := a + b + s + c + u + t + [ino];
      NoDup(r) && forall k :: k in [ino] + (a + b + c) + (s + t + u) <==> k in r
  {
    var o, r := [ino] + (a + b + c) + (s + t + u), a + b + s + c + u + t + [ino];
    assert multiset(o) == multiset(r);
    Reordered(o, r);
  }

  ghost predicate SameElements(a: seq<nat>, b: seq<nat>) { NoDup(b) && forall k :: k in a <==> k in b }

  lemma OrderDirect(ino: nat, d: Node, disk: seq<Sector>)
    requires TreeOk(d, disk) && NoDup(Owned(ino, d, disk)) && SectorCount(d.length) <= NUM_DIRECT
    ensures SameElements(Owned(ino, d, disk), ReleaseOrder(ino, d, disk))
  {
    var D, none: seq<nat> := Data(d, disk), [];
    assert D + none + none == D && none + none + none == Index(d, disk);
    assert D + none + none + none + none + none + [ino] == ReleaseOrder(ino, d, disk);
    Reshuffled(ino, D, none, none, none, none, none);
  }

  lemma OrderSingle(ino: nat, d: Node, disk: seq<Sector>)
    requires TreeOk(d, disk) && NoDup(Owned(ino, d, disk))
    requires NUM_DIRECT < SectorCount(d.length) <= NUM_DIRECT + PER_INDEX
    ensures SameElements(Owned(ino, d, disk), ReleaseOrder(ino, d, disk))
  {
    var b, none: seq<nat> := Unpack(disk[d.single])[..SectorCount(d.length) - NUM_DIRECT], [];
    assert d.direct[..NUM_DIRECT] == d.direct;
    assert d.direct + b + none == Data(d, disk) && [d.single] + none + none == Index(d, disk);
    assert d.direct + b + [d.single] + none + none + none + [ino] == ReleaseOrder(ino, d, disk);
    Reshuffled(ino, d.direct, b, [d.single], none, none, none);
  }

  lemma OrderDouble(ino: nat, d: Node, disk: seq<Sector>)
    requires TreeOk(d, disk) && NoDup(Owned(ino, d, disk)) && SectorCount(d.length) > NUM_DIRECT + PER_INDEX
    ensures SameElements(Owned(ino, d, disk), ReleaseOrder(ino, d, disk))
  {
    var u := Unpack(disk[d.double])[0];
    var b, c := Unpack(disk[d.single]), Unpack(disk[u])[..SectorCount(d.length) - (NUM_DIRECT + PER_INDEX)];
    assert d.direct[..NUM_DIRECT] == d.direct;
    assert [d.single] + [d.double] + [u] == Index(d, disk);
    assert d.direct + b + [d.single] + c + [u] + [d.double] + [ino] == ReleaseOrder(ino, d, disk);
    Reshuffled(ino, d.direct, b, [d.single], c, [d.double], [u]);
  }

  lemma OrderOwned(ino: nat, d: Node, disk: seq<Sector>)
    requires TreeOk(d, disk) && NoDup(Owned(ino, d, disk))
    ensures SameElements(Owned(ino, d, disk), ReleaseOrder(ino, d, disk))
  {
    if SectorCount(d.length) <= NUM_DIRECT {
      OrderDirect(ino, d, disk);
    } else if SectorCount(d.length) <= NUM_DIRECT + PER_INDEX {
      OrderSingle(ino, d, disk);
    } else {
      OrderDouble(ino, d, disk);
    }
  }

  /** `Blocked`: the caller sleeps until the extension ends. */
  datatype ReadResult = Blocked | PastEnd | Got(bytes: seq<Byte>)

  datatype WriteResult = Stuck | Wrote(count: nat)

  /** The zeroed inode that `inode_create` starts from. */
  function NewNode(): (d: Node) {
    InodeDisk(0, 0, seq(NUM_DIRECT, _ => 0), 0, 0, INODE_MAGIC)
  }

  /** `off_t`, which has 32 bits and a sign, where it is not negative. */
  const OFFSETS: nat := 0x8000_0000

  type Offset = n: nat | n < OFFSETS

  /** The sum of two of them, in two's complement. */
  function Sum32(a: nat, b: nat): (r: int) { if a + b < OFFSETS then a + b else a + b - 2 * OFFSETS }

  /** The bytes from `offset` on, `size` of them or as many as there are. */
  function Window(c: seq<Byte>, offset: nat, size: nat): (r: seq<Byte>)
    ensures |r| == InRange(|c|, offset, size)
    ensures offset + size <= |c| ==> r == c[offset..offset + size]
  {
    if offset >= |c| then [] else c[offset..Min(offset + size, |c|)]
  }

  /** What has been read when the loop is at `at`, which may lie behind the end from the start. */
  ghost predicate ReadTo(c: seq<Byte>, offset: nat, at: nat, buffer: seq<Byte>) {
    offset <= at && if at <= |c| then buffer == c[offset..at] else at == offset && buffer == []
  }

  lemma ReadEnds(c: seq<Byte>, offset: nat, size: nat, at: nat, buffer: seq<Byte>)
    requires ReadTo(c, offset, at, buffer) && at <= offset + size && (at == offset + size || at >= |c|)
    ensures buffer == Window(c, offset, size)
  {
  }

  /** A read that is not refused is short exactly if the sum does not fit. */
  lemma ShortRead(c: seq<Byte>, offset: Offset, size: Offset)
    requires |c| < OFFSETS && Sum32(offset, size) <= |c|
    ensures |Window(c, offset, size)| < size <==> offset + size >= OFFSETS
  {
  }

  /** One byte at the last offset: it is read from an empty file without an error, and is not there. */
  lemma ShortReadInput()
    ensures Sum32(OFFSETS - 1, 1) <= 0 && Window([], OFFSETS - 1, 1) == []
  {
  }

  /** How many of `size` bytes at `offset` a file of `length` bytes has. */
  function InRange(length: nat, offset: nat, size: nat): (n: nat) {
    if offset >= length then 0 else Min(size, length - offset)
  }

  lemma PrefixStays(r: seq<Word>, ptrs: seq<Word>, count: nat, have: nat, gained: seq<nat>)
    requires have <= count <= |r| == |ptrs| && r[..count] == ptrs[..have] + gained
    ensures r[..have] == ptrs[..have]
  {
    assert r[..have] == r[..count][..have];
  }

  /** What the one index block behind the doubly indirect one takes. */
  function InnerNeeds(d: Node, want: nat): (n: int) {
    want - Have(d, NUM_DIRECT + PER_INDEX, want) + if SectorCount(d.length) > NUM_DIRECT + PER_INDEX then 0 else 1
  }

  lemma ShortDouble(used: seq<bool>, d: Node, m: nat, rest: nat, total: nat, first: seq<nat>, g: seq<nat>,
                    inner: seq<nat>, writable: bool)
    requires total == NUM_DIRECT + PER_INDEX + rest && 0 < rest &&
      m == Max(SectorCount(d.length), NUM_DIRECT + PER_INDEX) <= total
    requires |first| == if SectorCount(d.length) > NUM_DIRECT + PER_INDEX then 0 else 1
    requires Short(used, g + inner, InnerNeeds(d, rest), writable)
    ensures Short(used, g + (first + inner), Needed(m, total), writable)
  {
  }

  /** What became of a file that was to have `end` bytes: nothing if it had them, else it grew, or it
      did not and is marked as being extended. */
  ghost predicate MadeRoom(d: Node, disk: seq<Sector>, used: seq<bool>, end: nat, d': Node, extending: bool,
                           disk': seq<Sector>, used': seq<bool>, data: seq<nat>, index: seq<nat>) {
    && (end <= d.length ==> disk' == disk && used' == used && d' == d && !extending)
    && (end > d.length && !extending ==>
          d'.length == end && Grew(d, disk, d', disk', data, index) && Taken(used, used', data + index))
    && (extending ==> Failed(d, disk, used, d', disk', used', data))
  }

  /** There are sectors enough for a file of `length` bytes to reach `end`. */
  predicate RoomFor(length: nat, end: nat, used: seq<bool>) {
    end <= length || Needed(SectorCount(length), SectorCount(end)) <= Free(used)
  }

  /** An input where there is not: two sectors are asked for and one is free.  The write gets that
      one, fails at the next, and leaves the map full. */
  lemma NoRoomInput()
    ensures Free([true, false]) == 1 && !RoomFor(0, 2 * SECTOR_SIZE, [true, false])
  {
    var used := [true, false];
    assert FreeSectors(used) == {1};
  }

  /** An in-memory inode. */
  class Inode {
    const sector: nat
    var data: Node
    var openCnt: nat
    var removed: bool
    var extending: bool

    constructor (sector: nat, data: Node)
      ensures this.sector == sector && this.data == data && openCnt == 1 && !removed && !extending
    {
      this.sector, this.data := sector, data;
      openCnt, removed, extending := 1, false, false;
    }
  }

  class Store {
    var disk: seq<Sector>
    var used: seq<bool>
    /** The map can be written to its file.  If not, an allocation may fail. */
    var writable: bool

    // -------------------------------------------------------------------------------
    // The free map
    // -------------------------------------------------------------------------------

    /** `free_map_allocate (1, ...)`: the lowest free sector, unless none is free or the map
        cannot be written to its file. */
    method AllocateSector() returns (r: Option<nat>)
      modifies this`used
      ensures r.None? ==> used == old(used) && (writable ==> AllUsed(used))
      ensures r.Some? ==> Taken(old(used), used, [r.value]) && r.value < |old(used)|
      ensures r.Some? ==> forall k :: 0 <= k < r.value ==> old(used)[k]
    {
      var sector := 0;
      while sector < |used| && used[sector]
        invariant 0 <= sector <= |used|
        invariant forall k :: 0 <= k < sector ==> used[k]
      {
        sector := sector + 1;
      }
      if sector == |used| {
        return None;
      }
      used := used[sector := true];
      var persisted: bool := *;
      if !persisted && !writable {
        used := used[sector := false];
        return None;
      }
      return Some(sector);
    }

    /** `free_map_release (sector, 1)`, which asserts that the sector is in use. */
    method ReleaseSector(sector: nat)
      requires sector < |used| && used[sector]
      modifies this`used
      ensures used == old(used)[sector := false]
    {
      used := used[sector := false];
    }

    // -------------------------------------------------------------------------------
    // Growing a file
    // -------------------------------------------------------------------------------

    /** The loop that `allocate_file` runs over each array of pointers: blocks the file does
        not have yet get a fresh sector each. */
    method FillSegment(d: Node, base: nat, ptrs: seq<Word>, want: nat)
      returns (ok: bool, r: seq<Word>, ghost gained: seq<nat>)
      requires TreeOk(d, disk) && |used| == |disk| <= INVALID_SECTOR
      requires want <= |ptrs| && base + want <= MAX_SECTORS
      modifies this`used
      ensures |r| == |ptrs| && Taken(old(used), used, gained)
      ensures r[..Have(d, base, want)] == ptrs[..Have(d, base, want)]
      ensures ok ==> r[..want] == ptrs[..Have(d, base, want)] + gained
      ensures !ok ==> Short(used, gained, want - Have(d, base, want), writable)
    {
      ghost var have := Have(d, base, want);
      r, gained := ptrs, [];
      var count := 0;
      while count < want
        invariant 0 <= count <= want && |r| == |ptrs|
        invariant Taken(old(used), used, gained)
        invariant r[count..] == ptrs[count..]
        invariant r[..count] == ptrs[..if count < have then count else have] + gained
        invariant |gained| == count - (if count < have then count else have)
      {
        LookupFindsData(d, disk, (base + count) * SECTOR_SIZE);
        if ByteToSector(d, disk, (base + count) * SECTOR_SIZE).NoBlock? {
          assert count >= have;
          ghost var before := used;
          var s := AllocateSector();
          if s.None? {
            PrefixStays(r, ptrs, count, have, gained);
            return false, r, gained;
          }
          TakenTwice(old(used), before, used, gained, [s.value]);
          assert s.value < |disk|;
          r := r[count := s.value];
          gained := gained + [s.value];
        }
        count := count + 1;
      }
      ok := true;
    }
  
    /** The first loop of `allocate_file`. */
    method GrowDirect(d: Node, total: nat) returns (ok: bool, d': Node, ghost g: seq<nat>)
      requires TreeOk(d, disk) && |used| == |disk| <= INVALID_SECTOR
      requires SectorCount(d.length) <= total <= MAX_SECTORS
      modifies this`used
      ensures Taken(old(used), used, g)
      ensures ok ==> var n := SectorCount(d.length);
        Advances(d, disk, n, d', disk, Max(n, Min(total, NUM_DIRECT)), g, [])
      ensures !ok ==> PointersKept(d, d')
      ensures !ok ==>
        var n := SectorCount(d.length); Short(used, g, Needed(n, Max(n, Min(total, NUM_DIRECT))), writable)
    {
      ghost var n := SectorCount(d.length);
      var want := Min(total, NUM_DIRECT);
      var direct;
      ok, direct, g := FillSegment(d, 0, d.direct, want);
      d' := d.(direct := direct);
      if ok {
        if n <= NUM_DIRECT {
          DirectStage(d, disk, n, direct, want, g);
        } else {
          assert direct[..want] == direct && d.direct[..want] == d.direct;
          assert |direct| == |d.direct + g|;
        }
      }
    }

    /** The part of `allocate_file` that fills the singly indirect block. */
    method GrowSingle(d: Node, total: nat, ghost m: nat)
        returns (ok: bool, d': Node, ghost g: seq<nat>, ghost more: seq<nat>)
      requires Stands(d, disk, used, m) && NUM_DIRECT < total <= MAX_SECTORS
      requires m == Max(SectorCount(d.length), NUM_DIRECT) <= total
      modifies this`disk, this`used
      ensures Taken(old(used), used, g + more)
      ensures ok ==> Advances(d, old(disk), m, d', disk, Max(m, Min(total, NUM_DIRECT + PER_INDEX)), g, more)
      ensures !ok ==> disk == old(disk) && PointersKept(d, d')
      ensures !ok ==> Short(used, g + more, Needed(m, Max(m, Min(total, NUM_DIRECT + PER_INDEX))), writable)
    {
      ghost var n := SectorCount(d.length);
      d', g, more := d, [], [];
      LookupFindsData(d, disk, NUM_DIRECT * SECTOR_SIZE);
      if ByteToSector(d, disk, NUM_DIRECT * SECTOR_SIZE).NoBlock? {
        var s := AllocateSector();
        if s.None? {
          return false, d', g, more;
        }
        d' := d.(single := s.value);
        more := [s.value];
      }
      ghost var used1 := used;
      assert Taken(old(used), used1, more);
      var want := Min(total - NUM_DIRECT, PER_INDEX);
      KeptTree(d, disk, d');
      var ptrs;
      ok, ptrs, g := FillSegment(d', NUM_DIRECT, Unpack(disk[d'.single]), want);
      TakenSwap(old(used), used1, used, more, g);
      if ok {
        SingleFilled(d, disk, m, d'.single, ptrs, want, g);
        disk := disk[d'.single := Pack(ptrs)];
      }
    }

    /** One turn of the loop over the index blocks behind the doubly indirect one: the
        pointer to the block in `q`, and the pointers `p` of the block itself. */
    method FillInner(d: Node, q: seq<Word>, want: nat)
        returns (ok: bool, q': seq<Word>, p: seq<Word>, ghost g: seq<nat>, ghost more: seq<nat>)
      requires TreeOk(d, disk) && |used| == |disk| <= INVALID_SECTOR
      requires |q| == PER_INDEX && 0 < want <= PER_INDEX
      requires SectorCount(d.length) > NUM_DIRECT + PER_INDEX ==> q == Unpack(disk[d.double])
      modifies this`used
      ensures Taken(old(used), used, g + more) && |q'| == |p| == PER_INDEX
      ensures ok ==>
        && q' == q[0 := q'[0]] && q'[0] < |disk|
        && more == (if SectorCount(d.length) > NUM_DIRECT + PER_INDEX then [] else [q'[0]])
        && (more == [] ==> q' == q)
        && p[..want] == Unpack(disk[q'[0]])[..Have(d, NUM_DIRECT + PER_INDEX, want)] + g
      ensures !ok ==> Short(used, g + more, InnerNeeds(d, want), writable)
    {
      q', p, g, more := q, q, [], [];
      var first := NUM_DIRECT + PER_INDEX;
      LookupFindsData(d, disk, first * SECTOR_SIZE);
      if ByteToSector(d, disk, first * SECTOR_SIZE).NoBlock? {
        var u := AllocateSector();
        if u.None? {
          return false, q', p, g, more;
        }
        assert u.value < |disk|;
        q' := q[0 := u.value];
        more := [u.value];
      }
      ghost var used1 := used;
      assert Taken(old(used), used1, more);
      ok, p, g := FillSegment(d, first, Unpack(disk[q'[0]]), want);
      TakenSwap(old(used), used1, used, more, g);
    }

    /** The doubly indirect block itself, allocated when the file first needs it. */
    method TakeDouble(d: Node) returns (ok: bool, d': Node, ghost more: seq<nat>)
      requires TreeOk(d, disk) && |used| == |disk| <= INVALID_SECTOR
      modifies this`used
      ensures Taken(old(used), used, more) && PointersKept(d, d')
      ensures ok ==> d' == d.(double := d'.double) && d'.double < |disk|
      ensures ok ==> more == if SectorCount(d.length) > NUM_DIRECT + PER_INDEX then [] else [d'.double]
      ensures !ok ==>
        more == [] && Short(used, more, if SectorCount(d.length) > NUM_DIRECT + PER_INDEX then 0 else 1, writable)
    {
      ok, d', more := true, d, [];
      LookupFindsData(d, disk, (NUM_DIRECT + PER_INDEX) * SECTOR_SIZE);
      if ByteToSector(d, disk, (NUM_DIRECT + PER_INDEX) * SECTOR_SIZE).NoBlock? {
        var t := AllocateSector();
        if t.None? {
          return false, d', more;
        }
        d' := d.(double := t.value);
        more := [t.value];
      }
    }

    /** The part of `allocate_file` behind the doubly indirect block.  Its loop runs
        once for every 512 remaining sectors or part of them: once, up to 379 sectors. */
    method GrowDouble(d: Node, total: nat, ghost m: nat)
        returns (ok: bool, d': Node, ghost g: seq<nat>, ghost more: seq<nat>)
      requires Stands(d, disk, used, m) && NUM_DIRECT + PER_INDEX < total <= MAX_SECTORS
      requires m == Max(SectorCount(d.length), NUM_DIRECT + PER_INDEX) <= total
      modifies this`disk, this`used
      ensures Taken(old(used), used, g + more)
      ensures ok ==> Advances(d, old(disk), m, d', disk, total, g, more)
      ensures !ok ==> disk == old(disk) && PointersKept(d, d')
      ensures !ok ==> Short(used, g + more, Needed(m, total), writable)
    {
      var rest := total - (NUM_DIRECT + PER_INDEX);
      g := [];
      ok, d', more := TakeDouble(d);
      assert Taken(old(used), used, g + more) by { assert g + more == more; }
      if ok {
        ok, g, more := FillDouble(d, d', rest, total, m, old(used), more);
      }
    }

    /** The rest of that part, with the doubly indirect block in place. */
    method FillDouble(ghost d: Node, d': Node, rest: nat, ghost total: nat, ghost m: nat, ghost used0: seq<bool>,
                      ghost first: seq<nat>)
        returns (ok: bool, ghost g: seq<nat>, ghost more: seq<nat>)
      requires Stands(d, disk, used0, m) && total == NUM_DIRECT + PER_INDEX + rest && 0 < rest <= PER_INDEX
      requires m == Max(SectorCount(d.length), NUM_DIRECT + PER_INDEX) <= total
      requires d' == d.(double := d'.double) && PointersKept(d, d') && d'.double < |disk| && Taken(used0, used, first)
      requires first == if SectorCount(d.length) > NUM_DIRECT + PER_INDEX then [] else [d'.double]
      modifies this`disk, this`used
      ensures Taken(used0, used, g + more)
      ensures ok ==> Advances(d, old(disk), m, d', disk, total, g, more)
      ensures !ok ==> disk == old(disk) && Short(used, g + more, Needed(m, total), writable)
    {
      KeptTree(d, disk, d');
      assert (rest + SECTOR_SIZE - 1) / SECTOR_SIZE == 1;
      var q := Unpack(disk[d'.double]);
      var ptrs;
      ghost var inner;
      ok, q, ptrs, g, inner := FillInner(d', q, rest);
      TakenAfter(used0, old(used), used, first, g, inner);
      more := first + inner;
      if ok {
        DoubleFilled(d, disk, used0, m, d'.double, q, ptrs, rest, g, first, inner);
        disk := disk[q[0] := Pack(ptrs)];
        disk := disk[d'.double := Pack(q)];
      } else {
        ShortDouble(used, d, m, rest, total, first, g, inner, writable);
      }
    }
  
    /** The three parts, each from one point of an extension under way to the next. */
    method DirectStep(d: Node, total: nat) returns (ok: bool, d': Node, ghost data: seq<nat>)
      requires TreeOk(d, disk) && NoDup(Index(d, disk)) && |used| == |disk| <= INVALID_SECTOR
      requires forall k :: k in Index(d, disk) ==> k < |used| && used[k]
      requires SectorCount(d.length) <= total <= MAX_SECTORS
      modifies this`used
      ensures ok ==>
        Underway(d, disk, old(used), d', disk, used, Max(SectorCount(d.length), Min(total, NUM_DIRECT)), data, [])
      ensures !ok ==> Failed(d, disk, old(used), d', disk, used, data)
      ensures !ok ==> Short(used, data, Needed(SectorCount(d.length), total), writable)
    {
      ghost var n, used0, none: seq<nat> := SectorCount(d.length), used, [];
      Begin(d, disk);
      ok, d', data := GrowDirect(d, total);
      assert data + none == data && none + data == data && none + none == none;
      if ok {
        StageDone(d, disk, used0, d, disk, used0, n, none, none, d', disk, used, Max(n, Min(total, NUM_DIRECT)), data,
          none);
      } else {
        StageFails(d, disk, used0, d, disk, used0, n, none, none, d', used, data);
        NeededMore(n, Max(n, Min(total, NUM_DIRECT)), total);
      }
    }

    method SingleStep(ghost d0: Node, ghost disk0: seq<Sector>, ghost used0: seq<bool>,
                      d: Node, total: nat, ghost m: nat, ghost data0: seq<nat>, ghost index0: seq<nat>)
        returns (ok: bool, d': Node, ghost data: seq<nat>, ghost index: seq<nat>)
      requires Underway(d0, disk0, used0, d, disk, used, m, data0, index0)
      requires NUM_DIRECT < total <= MAX_SECTORS && m == Max(SectorCount(d.length), NUM_DIRECT) <= total
      modifies this`disk, this`used
      ensures ok ==> Underway(d0, disk0, used0, d', disk, used, Max(m, Min(total, NUM_DIRECT + PER_INDEX)), data, index)
      ensures !ok ==> Failed(d0, disk0, used0, d', disk, used, data)
      ensures !ok ==> Short(used, data, Needed(SectorCount(d0.length), total), writable)
    {
      ghost var g, more;
      UnderwayStands(d0, disk0, used0, d, disk, used, m, data0, index0);
      ok, d', g, more := GrowSingle(d, total, m);
      if ok {
        data, index := data0 + g, index0 + more;
        StageDone(d0, disk0, used0, d, old(disk), old(used), m, data0, index0, d', disk, used,
                  Max(m, Min(total, NUM_DIRECT + PER_INDEX)), g, more);
      } else {
        data, index := data0 + index0 + (g + more), [];
        StageFails(d0, disk0, used0, d, disk, old(used), m, data0, index0, d', used, g + more);
        ShortMore(d0, disk0, used0, d, disk, old(used), m, data0, index0, used, g + more,
                  Max(m, Min(total, NUM_DIRECT + PER_INDEX)), total, writable);
      }
    }

    method DoubleStep(ghost d0: Node, ghost disk0: seq<Sector>, ghost used0: seq<bool>,
                      d: Node, total: nat, ghost m: nat, ghost data0: seq<nat>, ghost index0: seq<nat>)
        returns (ok: bool, d': Node, ghost data: seq<nat>, ghost index: seq<nat>)
      requires Underway(d0, disk0, used0, d, disk, used, m, data0, index0)
      requires NUM_DIRECT + PER_INDEX < total <= MAX_SECTORS
      requires m == Max(SectorCount(d.length), NUM_DIRECT + PER_INDEX) <= total
      modifies this`disk, this`used
      ensures ok ==> Underway(d0, disk0, used0, d', disk, used, total, data, index)
      ensures !ok ==> Failed(d0, disk0, used0, d', disk, used, data)
      ensures !ok ==> Short(used, data, Needed(SectorCount(d0.length), total), writable)
    {
      ghost var g, more;
      UnderwayStands(d0, disk0, used0, d, disk, used, m, data0, index0);
      ok, d', g, more := GrowDouble(d, total, m);
      if ok {
        data, index := data0 + g, index0 + more;
        StageDone(d0, disk0, used0, d, old(disk), old(used), m, data0, index0, d', disk, used, total, g, more);
      } else {
        data, index := data0 + index0 + (g + more), [];
        StageFails(d0, disk0, used0, d, disk, old(used), m, data0, index0, d', used, g + more);
        ShortMore(d0, disk0, used0, d, disk, old(used), m, data0, index0, used, g + more, total, total, writable);
      }
    }

    /** The two parts after the direct pointers. */
    method IndirectSteps(ghost d0: Node, ghost disk0: seq<Sector>, ghost used0: seq<bool>,
                         d: Node, total: nat, ghost data0: seq<nat>)
        returns (ok: bool, d': Node, ghost data: seq<nat>, ghost index: seq<nat>)
      requires NUM_DIRECT < total <= MAX_SECTORS && SectorCount(d0.length) <= total && d.length == d0.length
      requires Underway(d0, disk0, used0, d, disk, used, Max(SectorCount(d0.length), NUM_DIRECT), data0, [])
      modifies this`disk, this`used
      ensures ok ==> Underway(d0, disk0, used0, d', disk, used, total, data, index)
      ensures !ok ==> Failed(d0, disk0, used0, d', disk, used, data)
      ensures !ok ==> Short(used, data, Needed(SectorCount(d0.length), total), writable)
    {
      ghost var n := SectorCount(d0.length);
      ok, d', data, index := SingleStep(d0, disk0, used0, d, total, Max(n, NUM_DIRECT), data0, []);
      if ok && total > NUM_DIRECT + PER_INDEX {
        ok, d', data, index := DoubleStep(d0, disk0, used0, d', total, Max(n, NUM_DIRECT + PER_INDEX), data, index);
      }
    }

    /** All parts, up to `total` blocks. */
    method AllocateBlocks(d: Node, total: nat) returns (ok: bool, d': Node, ghost data: seq<nat>, ghost index: seq<nat>)
      requires TreeOk(d, disk) && NoDup(Index(d, disk)) && |used| == |disk| <= INVALID_SECTOR
      requires forall k :: k in Index(d, disk) ==> k < |used| && used[k]
      requires SectorCount(d.length) <= total <= MAX_SECTORS
      modifies this`disk, this`used
      ensures ok ==> Underway(d, old(disk), old(used), d', disk, used, total, data, index)
      ensures !ok ==> Failed(d, old(disk), old(used), d', disk, used, data)
      ensures !ok ==> Short(used, data, Needed(SectorCount(d.length), total), writable)
    {
      ok, d', data := DirectStep(d, total);
      index := [];
      if ok && total > NUM_DIRECT {
        ok, d', data, index := IndirectSteps(d, disk, old(used), d', total, data);
      }
    }

    /** `allocate_file` up to the length `length`.  On success the file has grown by fresh
        sectors; on failure it is what it was, and the sectors already taken are lost. */
    method AllocateFile(d: Node, length: nat) returns (ok: bool, d': Node, ghost data: seq<nat>, ghost index: seq<nat>)
      requires TreeOk(d, disk) && NoDup(Index(d, disk)) && |used| == |disk| <= INVALID_SECTOR
      requires forall k :: k in Index(d, disk) ==> k < |used| && used[k]
      requires d.length <= length && SectorCount(length) <= MAX_SECTORS
      modifies this`disk, this`used
      ensures ok ==>
        d'.length == length && Grew(d, old(disk), d', disk, data, index) && Taken(old(used), used, data + index)
      ensures !ok ==> Failed(d, old(disk), old(used), d', disk, used, data)
      ensures ok ==> Needed(SectorCount(d.length), SectorCount(length)) <= Free(old(used))
      ensures !ok && writable ==>
        Needed(SectorCount(d.length), SectorCount(length)) > Free(old(used)) && Free(used) == 0
    {
      SectorsMonotone(d.length, length);
      ok, d', data, index := AllocateBlocks(d, SectorCount(length));
      if ok {
        Grown(d, old(disk), d', disk, length, data, index);
        d' := d'.(length := length);
        GrewBy(d, old(disk), d', disk, data, index);
        FreeAfter(old(used), used, data + index);
      } else {
        FreeAfter(old(used), used, data);
      }
    }

    // -------------------------------------------------------------------------------
    // Reading and writing an open file
    // -------------------------------------------------------------------------------

    /** `byte_to_sector`, for a byte the file has. */
    method SectorOf(d: Node, at: nat) returns (sector: nat)
      requires TreeOk(d, disk) && at < d.length
      ensures at / SECTOR_SIZE < |Data(d, disk)| && sector == Data(d, disk)[at / SECTOR_SIZE]
    {
      LookupFindsData(d, disk, at);
      BlockInRange(d.length, at);
      sector := ByteToSector(d, disk, at).sector;
    }

    /** One turn of the copy loop of `inode_read_at`. */
    method ReadChunk(d: Node, at: nat, size: nat) returns (bytes: seq<Byte>)
      requires TreeOk(d, disk) && at < d.length && at + size <= d.length && at % SECTOR_SIZE + size <= SECTOR_SIZE
      ensures bytes == Contents(d, disk)[at..at + size]
    {
      var sector := SectorOf(d, at);
      ChunkRead(d, disk, at, size);
      bytes := disk[sector][at % SECTOR_SIZE..at % SECTOR_SIZE + size];
    }

    /** One turn of the loop after the other: up to `at` everything has been read. */
    method ReadNext(d: Node, ghost c: seq<Byte>, buffer: seq<Byte>, offset: nat, at: nat, chunk: nat)
      returns (more: seq<Byte>)
      requires TreeOk(d, disk) && at < d.length && at + chunk <= d.length && at % SECTOR_SIZE + chunk <= SECTOR_SIZE
      requires c == Contents(d, disk) && ReadTo(c, offset, at, buffer)
      ensures ReadTo(c, offset, at + chunk, more)
    {
      var bytes := ReadChunk(d, at, chunk);
      SlicesJoin(c, offset, at, at + chunk);
      more := buffer + bytes;
    }

    /** The copy loop of `inode_read_at`: it stops at the end of the file. */
    method ReadBytes(d: Node, size: nat, offset: nat) returns (buffer: seq<Byte>)
      requires TreeOk(d, disk)
      ensures buffer == Window(Contents(d, disk), offset, size)
    {
      ghost var c := Contents(d, disk);
      var left, at := size, offset;
      buffer := [];
      while left > 0
        invariant at + left == offset + size && left >= 0 && ReadTo(c, offset, at, buffer)
      {
        var chunk := ChunkSize(d.length, at, left);
        if chunk <= 0 {
          break;
        }
        buffer := ReadNext(d, c, buffer, offset, at, chunk);
        left, at := left - chunk, at + chunk;
      }
      ReadEnds(c, offset, size, at, buffer);
    }

    method PutChunk(d: Node, bytes: seq<Byte>, at: nat)
      requires TreeOk(d, disk) && at < d.length && at % SECTOR_SIZE + |bytes| <= SECTOR_SIZE
      modifies this`disk
      ensures disk == ChunkDisk(d, old(disk), at, bytes)
    {
      var sector := SectorOf(d, at);
      disk := disk[sector := Splice(disk[sector], at % SECTOR_SIZE, bytes)];
    }

    /** One turn of the copy loop of `inode_write_at`. */
    method PutNext(d: Node, ghost disk0: seq<Sector>, ghost c: seq<Byte>, bytes: seq<Byte>, offset: nat, a: nat, b: nat)
      requires a < b <= |bytes| && offset + b <= |c| == d.length && (offset + a) % SECTOR_SIZE + (b - a) <= SECTOR_SIZE
      requires Rewritten(d, disk0, disk, Overlay(c, offset, bytes[..a]))
      requires Apart(Index(d, disk0), Data(d, disk0)) && NoDup(Data(d, disk0))
      modifies this`disk
      ensures Rewritten(d, disk0, disk, Overlay(c, offset, bytes[..b]))
    {
      RewriteNext(d, disk0, disk, c, offset, bytes, a, b);
      PutChunk(d, bytes[a..b], offset + a);
    }

    /** The copy loop of `inode_write_at`: it stops at the end of the file. */
    method WriteBytes(d: Node, bytes: seq<Byte>, offset: nat) returns (written: nat)
      requires TreeOk(d, disk) && Apart(Index(d, disk), Data(d, disk)) && NoDup(Data(d, disk))
      modifies this`disk
      ensures Rewritten(d, old(disk), disk, Overlay(Contents(d, old(disk)), offset, bytes))
      ensures written == InRange(d.length, offset, |bytes|)
    {
      ghost var disk0, c := disk, Contents(d, disk);
      written := 0;
      OverlayEnds(c, offset, bytes, |bytes|);
      assert bytes[..0] == [];
      while written < |bytes|
        invariant 0 <= written <= |bytes|
        invariant written > 0 ==> offset + written <= d.length
        invariant Rewritten(d, disk0, disk, Overlay(c, offset, bytes[..written]))
      {
        var chunk := ChunkSize(d.length, offset + written, |bytes| - written);
        if chunk <= 0 {
          break;
        }
        PutNext(d, disk0, c, bytes, offset, written, written + chunk);
        written := written + chunk;
      }
      OverlayEnds(c, offset, bytes, written);
    }
  
    // -------------------------------------------------------------------------------
    // Giving a file's sectors back
    // -------------------------------------------------------------------------------

    /** The loops of `deallocate_file` over one array of pointers. */
    method ReleaseRun(ptrs: seq<nat>)
      requires NoDup(ptrs) && forall k :: k in ptrs ==> k < |used| && used[k]
      modifies this`used
      ensures Released(old(used), used, ptrs)
    {
      var count := 0;
      while count < |ptrs|
        invariant 0 <= count <= |ptrs|
        invariant Released(old(used), used, ptrs[..count])
      {
        assert ptrs[count] in ptrs && ptrs[count] !in ptrs[..count];
        assert ptrs[..count + 1] == ptrs[..count] + [ptrs[count]];
        ReleaseSector(ptrs[count]);
        count := count + 1;
      }
      assert ptrs[..count] == ptrs;
    }

    /** One such loop inside `deallocate_file`, with `todo` still to follow. */
    method ReleaseNext(ptrs: seq<nat>, ghost used0: seq<bool>, ghost done: seq<nat>, ghost todo: seq<nat>)
        returns (ghost done': seq<nat>)
      requires Clearing(used0, used, done, done + ptrs + todo)
      modifies this`used
      ensures done' == done + ptrs && Clearing(used0, used, done', done' + todo)
    {
      ClearMore(used0, used, done, ptrs, done + ptrs + todo);
      ReleaseRun(ptrs);
      ClearedMore(used0, old(used), used, done, ptrs, done + ptrs + todo);
      done' := done + ptrs;
    }

    /** The part behind the doubly indirect pointer.  Like the loop of `allocate_file`, the
        one over index blocks runs once. */
    method ReleaseDouble(d: Node, rest: nat, ghost used0: seq<bool>, ghost done: seq<nat>, ghost todo: seq<nat>)
        returns (ghost done': seq<nat>)
      requires d.double < |disk| && Unpack(disk[d.double])[0] < |disk| && 0 < rest <= PER_INDEX
      requires var u := Unpack(disk[d.double])[0];
        Clearing(used0, used, done, done + (Unpack(disk[u])[..rest] + [u] + [d.double]) + todo)
      modifies this`used
      ensures var u := Unpack(disk[d.double])[0]; done' == done + (Unpack(disk[u])[..rest] + [u] + [d.double])
      ensures Clearing(used0, used, done', done' + todo)
    {
      assert (rest + SECTOR_SIZE - 1) / SECTOR_SIZE == 1;
      var inner := Unpack(disk[d.double])[0];
      var ptrs := Unpack(disk[inner])[..rest];
      ghost var last := [d.double] + todo;
      assert done + (ptrs + [inner] + [d.double]) + todo == done + ptrs + ([inner] + last);
      done' := ReleaseNext(ptrs, used0, done, [inner] + last);
      assert done' + ([inner] + last) == done' + [inner] + last;
      done' := ReleaseNext([inner], used0, done', last);
      assert done' + last == done' + [d.double] + todo;
      done' := ReleaseNext([d.double], used0, done', todo);
    }

    /** The part behind the direct pointers. */
    method ReleaseIndirect(d: Node, ghost used0: seq<bool>, ghost done: seq<nat>, ghost todo: seq<nat>)
        returns (ghost done': seq<nat>)
      requires TreeOk(d, disk) && Clearing(used0, used, done, done + BehindDirect(d, disk) + todo)
      modifies this`used
      ensures done' == done + BehindDirect(d, disk) && Clearing(used0, used, done', done' + todo)
    {
      done' := done;
      var n := SectorCount(d.length);
      if n > NUM_DIRECT {
        var ptrs := Unpack(disk[d.single])[..Min(n - NUM_DIRECT, PER_INDEX)];
        ghost var behind := BehindDirect(d, disk)[|ptrs| + 1..];
        assert BehindDirect(d, disk) == ptrs + [d.single] + behind;
        assert done + (ptrs + [d.single] + behind) + todo == done + ptrs + ([d.single] + (behind + todo));
        done' := ReleaseNext(ptrs, used0, done, [d.single] + (behind + todo));
        assert done' + ([d.single] + (behind + todo)) == done' + [d.single] + (behind + todo);
        done' := ReleaseNext([d.single], used0, done', behind + todo);
        assert done' + (behind + todo) == done' + behind + todo;
        if n > NUM_DIRECT + PER_INDEX {
          done' := ReleaseDouble(d, n - (NUM_DIRECT + PER_INDEX), used0, done', todo);
        }
      }
    }

    /** `deallocate_file`: every sector of the file is released, none of them twice, and no
        other. */
    method DeallocateFile(ino: nat, d: Node)
      requires TreeOk(d, disk) && NoDup(Owned(ino, d, disk))
      requires forall k :: k in Owned(ino, d, disk) ==> k < |used| && used[k]
      modifies this`used
      ensures Released(old(used), used, Owned(ino, d, disk))
    {
      ghost var used0, behind, done: seq<nat> := used, BehindDirect(d, disk), [];
      OrderOwned(ino, d, disk);
      var direct := d.direct[..Min(SectorCount(d.length), NUM_DIRECT)];
      assert direct + behind + [ino] == done + direct + (behind + [ino]);
      done := ReleaseNext(direct, used0, done, behind + [ino]);
      assert done + (behind + [ino]) == done + behind + [ino];
      done := ReleaseIndirect(d, used0, done, [ino]);
      assert done + [ino] == done + [ino] + [];
      done := ReleaseNext([ino], used0, done, []);
    }
  
    // -------------------------------------------------------------------------------
    // The operations on an inode
    // -------------------------------------------------------------------------------

    /** `inode_read_at`: the bytes asked for, or an error when they are not all there, as far as the sum
        of offset and size fits; see `ShortRead`. */
    method ReadAt(inode: Inode, size: Offset, offset: Offset) returns (r: ReadResult)
      requires TreeOk(inode.data, disk)
      ensures r == if inode.extending then Blocked
                   else if Sum32(offset, size) > inode.data.length then PastEnd
                   else Got(Window(Contents(inode.data, disk), offset, size))
    {
      if inode.extending {
        return Blocked;
      }
      if Sum32(offset, size) > inode.data.length {
        return PastEnd;
      }
      var buffer := ReadBytes(inode.data, size, offset);
      return Got(buffer);
    }

    /** `allocate_file` on an open inode.  A failure leaves `extending` set. */
    method Extend(inode: Inode, length: nat) returns (ghost data: seq<nat>, ghost index: seq<nat>)
      requires Intact(inode.sector, inode.data, disk, used)
      requires inode.data.length <= length && SectorCount(length) <= MAX_SECTORS
      modifies this`disk, this`used, inode`data, inode`extending
      ensures !inode.extending ==>
        && inode.data.length == length && Grew(old(inode.data), old(disk), inode.data, disk, data, index)
        && Taken(old(used), used, data + index) && Intact(inode.sector, inode.data, disk, used)
      ensures inode.extending ==> Failed(old(inode.data), old(disk), old(used), inode.data, disk, used, data)
      ensures !inode.extending ==>
        Needed(SectorCount(old(inode.data.length)), SectorCount(length)) <= Free(old(used))
      ensures inode.extending && writable ==>
        Needed(SectorCount(old(inode.data.length)), SectorCount(length)) > Free(old(used)) && Free(used) == 0
    {
      var d := inode.data;
      IntactParts(inode.sector, d, disk, used);
      inode.extending := true;
      var ok, d';
      ok, d', data, index := AllocateFile(d, length);
      inode.data := d';
      if ok {
        GrownIntact(inode.sector, d, old(disk), old(used), d', disk, used, data, index);
        inode.extending := false;
      }
    }
  
    /** The part of `inode_write_at` before the copying: a file that is too short is extended. */
    method MakeRoom(inode: Inode, end: nat) returns (ghost data: seq<nat>, ghost index: seq<nat>)
      requires Intact(inode.sector, inode.data, disk, used) && !inode.extending && SectorCount(end) <= MAX_SECTORS
      modifies this`disk, this`used, inode`data, inode`extending
      ensures Intact(inode.sector, inode.data, disk, used)
      ensures MadeRoom(old(inode.data), old(disk), old(used), end, inode.data, inode.extending, disk, used, data, index)
      ensures !inode.extending ==> RoomFor(old(inode.data.length), end, old(used))
      ensures inode.extending && writable ==> !RoomFor(old(inode.data.length), end, old(used)) && Free(used) == 0
    {
      data, index := [], [];
      if end > inode.data.length {
        data, index := Extend(inode, end);
        if inode.extending {
          FailedIntact(inode.sector, old(inode.data), old(disk), old(used), inode.data, disk, used, data);
        }
      }
    }

    /** `inode_write_at`.  `end` is where the bytes end, and `mid` the disk when the copying starts, after
        the file has grown by `data` and `index` or failed to. */
    method WriteAt(inode: Inode, bytes: seq<Byte>, offset: nat)
        returns (r: WriteResult, ghost end: nat, ghost mid: seq<Sector>, ghost data: seq<nat>, ghost index: seq<nat>)
      requires Intact(inode.sector, inode.data, disk, used) && SectorCount(offset + |bytes|) <= MAX_SECTORS
      modifies this`disk, this`used, inode`data, inode`extending
      ensures end == offset + |bytes|
      ensures r.Stuck? <==> old(inode.extending)
      ensures r.Stuck? ==> disk == old(disk) && used == old(used) && inode.data == old(inode.data) && inode.extending
      ensures r.Wrote? ==>
        MadeRoom(old(inode.data), old(disk), old(used), end, inode.data, inode.extending, mid, used, data, index)
      ensures r.Wrote? ==>
        && TreeOk(inode.data, mid)
        && Rewritten(inode.data, mid, disk, Overlay(Contents(inode.data, mid), offset, bytes))
        && r.count == InRange(inode.data.length, offset, |bytes|)
      ensures r.Wrote? && !inode.extending ==> RoomFor(old(inode.data.length), end, old(used))
      ensures r.Wrote? && inode.extending && writable ==>
        !RoomFor(old(inode.data.length), end, old(used)) && Free(used) == 0
    {
      end, mid, data, index := offset + |bytes|, disk, [], [];
      if inode.extending {
        return Stuck, end, mid, data, index;
      }
      data, index := MakeRoom(inode, offset + |bytes|);
      mid := disk;
      IntactParts(inode.sector, inode.data, disk, used);
      var written := WriteBytes(inode.data, bytes, offset);
      r := Wrote(written);
    }

    /** `filesys_create` up to the directory entry: an inode sector, then the blocks.  If these
        cannot be had, only the inode sector is given back. */
    method Create(length: nat)
        returns (r: Option<nat>, ghost sector: nat, ghost taken: seq<bool>, ghost d: Node, ghost mid: seq<Sector>,
          ghost full: seq<bool>, ghost data: seq<nat>, ghost index: seq<nat>)
      requires |used| == |disk| <= INVALID_SECTOR && SectorCount(length) <= MAX_SECTORS
      modifies this`disk, this`used
      ensures r.Some? ==>
        && r.value == sector < |disk| == |mid| && Taken(old(used), taken, [sector])
        && Grew(NewNode(), old(disk), d, mid, data, index) && Taken(taken, used, data + index)
        && d.length == length && disk == mid[sector := Encode(d)]
      ensures r.None? ==>
        (disk == old(disk) && used == old(used)) ||
        (&& sector < |full| && Taken(old(used), taken, [sector])
         && Failed(NewNode(), old(disk), taken, d, disk, full, data) && used == full[sector := false])
      ensures r.Some? ==> 1 + Needed(0, SectorCount(length)) <= Free(old(used))
      ensures r.None? && writable ==> 1 + Needed(0, SectorCount(length)) > Free(old(used))
    {
      sector, taken, d, mid, full, data, index := 0, used, NewNode(), disk, used, [], [];
      var s := AllocateSector();
      if s.None? {
        NoneFree(used);
        return None, sector, taken, d, mid, full, data, index;
      }
      sector, taken := s.value, used;
      FreeAfter(old(used), used, [s.value]);
      var ok, d';
      ok, d', data, index := AllocateFile(NewNode(), length);
      d, mid, full := d', disk, used;
      if ok {
        disk := disk[s.value := Encode(d')];
        r := s;
      } else {
        assert s.value in [s.value];
        ReleaseSector(s.value);
        r := None;
      }
    }

    /** `inode_close`. */
    method Close(inode: Inode)
      requires Intact(inode.sector, inode.data, disk, used) && inode.openCnt > 0
      modifies this`disk, this`used, inode`openCnt
      ensures inode.openCnt == old(inode.openCnt) - 1
      ensures inode.openCnt > 0 ==> disk == old(disk) && used == old(used)
      ensures inode.openCnt == 0 ==> inode.sector < |old(disk)| && disk == old(disk)[inode.sector := Encode(inode.data)]
      ensures inode.openCnt == 0 && !inode.removed ==> used == old(used)
      ensures inode.openCnt == 0 && inode.removed ==>
        Released(old(used), used, Owned(inode.sector, inode.data, old(disk)))
    {
      inode.openCnt := inode.openCnt - 1;
      if inode.openCnt == 0 {
        InodeFrame(inode.sector, inode.data, disk, used, Encode(inode.data));
        disk := disk[inode.sector := Encode(inode.data)];
        if inode.removed {
          DeallocateFile(inode.sector, inode.data);
        }
      }
    }
  }
}
