/**
 How `allocate_file` extends the block index: the direct pointers first, then the index
 block, then the block behind the doubly indirect pointer.  `Reached` is what holds between
 these stages.
 */
module Growth {
  import opened Sectors
  import opened Words
  import opened InodeIndex
  import opened Ledger
  import opened Sequences
  import opened Volume

  /** From inode `d0` on `disk0`, the first `m` blocks are mapped by `d` on `disk`: the old
      ones where they were, then the sectors `data`; `index` are the new index sectors. */
  ghost predicate Reached(d0: Node, disk0: seq<Sector>, d: Node, disk: seq<Sector>, m: nat,
                          data: seq<nat>, index: seq<nat>) {
    && TreeOk(d0, disk0) && SectorCount(d0.length) <= m
    && d == d0.(direct := d.direct, single := d.single, double := d.double)
    && IndexOk(d, disk, m)
    && DataOf(d, disk, m) == Data(d0, disk0) + data
    && IndexOf(d, disk, m) == Index(d0, disk0) + index
    && NoDup(IndexOf(d, disk, m))
    && AllBelow(DataOf(d, disk, m), |disk|)
    && SameBut(disk0, disk, IndexOf(d, disk, m))
  }

  lemma Prefix(d: Node, disk: seq<Sector>, n: nat, m: nat)
    requires n <= m && IndexOk(d, disk, m)
    ensures IndexOk(d, disk, n)
    ensures DataOf(d, disk, n) == DataOf(d, disk, m)[..n]
    ensures IndexOf(d, disk, n) <= IndexOf(d, disk, m)
    ensures |IndexOf(d, disk, n)| == if n <= NUM_DIRECT then 0 else if n <= NUM_DIRECT + PER_INDEX then 1 else 3
  {
  }

  /** Until the length is set, the inode still describes the old file. */
  lemma OldTree(d0: Node, disk0: seq<Sector>, d: Node, disk: seq<Sector>, m: nat, data: seq<nat>, index: seq<nat>)
    requires Reached(d0, disk0, d, disk, m, data, index)
    ensures TreeOk(d, disk) && Data(d, disk) == Data(d0, disk0) && Index(d, disk) == Index(d0, disk0)
  {
    var n := SectorCount(d.length);
    Prefix(d, disk, n, m);
    Prefix(d0, disk0, n, n);
    assert DataOf(d, disk, n) == Data(d0, disk0);
  }

  /** With the length set, the file has grown by what the stages took. */
  lemma Grown(d0: Node, disk0: seq<Sector>, d: Node, disk: seq<Sector>, length: nat, data: seq<nat>, index: seq<nat>)
    requires Reached(d0, disk0, d, disk, SectorCount(length), data, index)
    requires d0.length <= length < 0x8000_0000
    ensures Grew(d0, disk0, d.(length := length), disk, data, index)
  {
    var d' := d.(length := length);
    var m := SectorCount(length);
    assert DataOf(d', disk, m) == DataOf(d, disk, m);
    assert IndexOf(d', disk, m) == IndexOf(d, disk, m);
  }

  lemma TakenMore(used: seq<bool>, used': seq<bool>, used'': seq<bool>,
                  a: seq<nat>, c: seq<nat>, a': seq<nat>, c': seq<nat>)
    requires Taken(used, used', a + c) && Taken(used', used'', a' + c')
    ensures Taken(used, used'', (a + a') + (c + c'))
  {
    NoDupConcat(a, c);
    NoDupConcat(a', c');
    assert forall y :: y in a || y in c ==> y in a + c;
    assert forall y :: y in a' || y in c' ==> y in a' + c';
    NoDupConcat(a, a');
    NoDupConcat(c, c');
    NoDupConcat(a + a', c + c');
  }

  // ---------------------------------------------------------------------------------
  // The stages
  // ---------------------------------------------------------------------------------

  /** One stage: `g` are the data sectors it adds, `more` the index sectors. */
  ghost predicate Advances(d: Node, disk: seq<Sector>, m: nat, d': Node, disk': seq<Sector>, m': nat,
                           g: seq<nat>, more: seq<nat>) {
    && IndexOk(d, disk, m) && IndexOk(d', disk', m') && m <= m'
    && d' == d.(direct := d'.direct, single := d'.single, double := d'.double)
    && DataOf(d', disk', m') == DataOf(d, disk, m) + g
    && IndexOf(d', disk', m') == IndexOf(d, disk, m) + more
    && SameBut(disk, disk', IndexOf(d', disk', m'))
  }

  lemma Advance(d0: Node, disk0: seq<Sector>, d: Node, disk: seq<Sector>, m: nat, data: seq<nat>, index: seq<nat>,
                d': Node, disk': seq<Sector>, m': nat, g: seq<nat>, more: seq<nat>)
    requires Reached(d0, disk0, d, disk, m, data, index) && Advances(d, disk, m, d', disk', m', g, more)
    requires AllBelow(g, |disk|) && NoDup(more) && Apart(IndexOf(d, disk, m), more)
    ensures Reached(d0, disk0, d', disk', m', data + g, index + more)
  {
    Longer(DataOf(d, disk, m), Data(d0, disk0), data, g);
    Longer(IndexOf(d, disk, m), Index(d0, disk0), index, more);
    BelowConcat(DataOf(d, disk, m), g, |disk|);
    NoDupConcat(IndexOf(d, disk, m), more);
    SameButTwice(disk0, disk, disk', IndexOf(d, disk, m), more);
  }

  lemma Longer(a: seq<nat>, b: seq<nat>, c: seq<nat>, e: seq<nat>)
    requires a == b + c
    ensures a + e == b + (c + e)
  {
  }

  lemma SameButTwice(disk0: seq<Sector>, disk: seq<Sector>, disk': seq<Sector>, a: seq<nat>, more: seq<nat>)
    requires SameBut(disk0, disk, a) && SameBut(disk, disk', a + more)
    ensures SameBut(disk0, disk', a + more)
  {
  }

  lemma Begin(d: Node, disk: seq<Sector>)
    requires TreeOk(d, disk) && NoDup(Index(d, disk))
    ensures Reached(d, disk, d, disk, SectorCount(d.length), [], [])
  {
  }

  lemma DirectStage(d: Node, disk: seq<Sector>, m: nat, direct: seq<Word>, c: nat, g: seq<nat>)
    requires m <= c <= NUM_DIRECT == |direct| && direct[..c] == d.direct[..m] + g
    ensures Advances(d, disk, m, d.(direct := direct), disk, c, g, [])
  {
  }

  /** A new index block `s` maps the blocks after the direct ones. */
  lemma NewSingle(d: Node, disk: seq<Sector>, s: nat, p: seq<Word>, c: nat)
    requires 0 < c <= PER_INDEX == |p| && s < |disk| <= INVALID_SECTOR
    ensures Advances(d, disk, NUM_DIRECT, d.(single := s), disk[s := Pack(p)], NUM_DIRECT + c, p[..c], [s])
  {
    UnpackPack(p);
  }

  /** The index block in place is filled further. */
  lemma MoreSingle(d: Node, disk: seq<Sector>, m: nat, p: seq<Word>, c: nat, g: seq<nat>)
    requires NUM_DIRECT < m <= NUM_DIRECT + c && c <= PER_INDEX == |p| && d.single < |disk|
    requires p[..c] == Unpack(disk[d.single])[..m - NUM_DIRECT] + g
    ensures Advances(d, disk, m, d, disk[d.single := Pack(p)], NUM_DIRECT + c, g, [])
  {
    UnpackPack(p);
    var old' := Unpack(disk[d.single])[..m - NUM_DIRECT];
    assert d.direct + (old' + g) == d.direct + old' + g;
  }

  /** The index block is full already and is written back as it was. */
  lemma SameSingle(d: Node, disk: seq<Sector>, m: nat)
    requires IndexOk(d, disk, m) && m > NUM_DIRECT + PER_INDEX && NoDup(IndexOf(d, disk, m))
    ensures Advances(d, disk, m, d, disk[d.single := Pack(Unpack(disk[d.single]))], m, [], [])
  {
    UnpackPack(Unpack(disk[d.single]));
    var i := IndexOf(d, disk, m);
    assert i[0] != i[1] && i[0] != i[2];
  }

  /** A new doubly indirect block `t` whose first pointer is the new index block `u`. */
  lemma NewDouble(d: Node, disk: seq<Sector>, t: nat, u: nat, q: seq<Word>, p: seq<Word>, c: nat)
    requires d.single < |disk|
    requires t < |disk| <= INVALID_SECTOR && u < |disk| && t != u && t != d.single && u != d.single
    requires |q| == |p| == PER_INDEX && q[0] == u && 0 < c <= PER_INDEX
    ensures Advances(d, disk, NUM_DIRECT + PER_INDEX, d.(double := t), disk[u := Pack(p)][t := Pack(q)],
                     NUM_DIRECT + PER_INDEX + c, p[..c], [t, u])
  {
    UnpackPack(p);
    UnpackPack(q);
    assert Unpack(disk[d.single])[..PER_INDEX] == Unpack(disk[d.single]);
  }

  /** The index block behind the doubly indirect one is filled further. */
  lemma MoreDouble(d: Node, disk: seq<Sector>, m: nat, q: seq<Word>, p: seq<Word>, c: nat, g: seq<nat>)
    requires IndexOk(d, disk, m) && NoDup(IndexOf(d, disk, m))
    requires NUM_DIRECT + PER_INDEX < m <= NUM_DIRECT + PER_INDEX + c && c <= PER_INDEX == |p|
    requires q == Unpack(disk[d.double])
    requires p[..c] == Unpack(disk[q[0]])[..m - (NUM_DIRECT + PER_INDEX)] + g
    ensures Advances(d, disk, m, d, disk[q[0] := Pack(p)][d.double := Pack(q)], NUM_DIRECT + PER_INDEX + c, g, [])
  {
    UnpackPack(p);
    UnpackPack(q);
    var i := IndexOf(d, disk, m);
    assert i[0] != i[1] && i[0] != i[2] && i[1] != i[2];
    var front, old' := d.direct + Unpack(disk[d.single]), Unpack(disk[q[0]])[..m - (NUM_DIRECT + PER_INDEX)];
    assert front + (old' + g) == front + old' + g;
  }

  /** How many of the blocks `base .. base + want` a file already has. */
  function Have(d: Node, base: nat, want: nat): (n: nat)
    ensures n <= want
  {
    var n := SectorCount(d.length);
    if n <= base then 0 else if n - base < want then n - base else want
  }

  function Min(a: nat, b: nat): (m: nat) { if a < b then a else b }

  function Max(a: nat, b: nat): (m: nat) { if a < b then b else a }

  /** Between two stages of an extension that started from `d0`, `disk0` and `used0`. */
  ghost predicate Underway(d0: Node, disk0: seq<Sector>, used0: seq<bool>, d: Node, disk: seq<Sector>, used: seq<bool>,
                           m: nat, data: seq<nat>, index: seq<nat>) {
    && Reached(d0, disk0, d, disk, m, data, index)
    && Taken(used0, used, data + index)
    && |used0| == |disk0| <= INVALID_SECTOR
    && forall k :: k in Index(d0, disk0) ==> k < |used0| && used0[k]
  }

  /** After an extension that failed: the file is what it was, and `gained` is lost. */
  ghost predicate Failed(d0: Node, disk0: seq<Sector>, used0: seq<bool>, d: Node, disk: seq<Sector>, used: seq<bool>,
                         gained: seq<nat>) {
    && TreeOk(d0, disk0) && TreeOk(d, disk) && d.length == d0.length
    && Data(d, disk) == Data(d0, disk0) && Index(d, disk) == Index(d0, disk0)
    && SameBut(disk0, disk, Index(d0, disk0) + gained)
    && Taken(used0, used, gained)
  }

  /** What a stage relies on. */
  ghost predicate Stands(d: Node, disk: seq<Sector>, used: seq<bool>, m: nat) {
    && TreeOk(d, disk) && IndexOk(d, disk, m) && NoDup(IndexOf(d, disk, m))
    && |used| == |disk| <= INVALID_SECTOR
    && forall k :: k in IndexOf(d, disk, m) ==> k < |used| && used[k]
  }

  /** The pointers that the current length reaches are the same. */
  predicate PointersKept(d: Node, d': Node) {
    var n := SectorCount(d.length);
    && d' == d.(direct := d'.direct, single := d'.single, double := d'.double)
    && d'.direct[..Min(n, NUM_DIRECT)] == d.direct[..Min(n, NUM_DIRECT)]
    && (n > NUM_DIRECT ==> d'.single == d.single)
    && (n > NUM_DIRECT + PER_INDEX ==> d'.double == d.double)
  }

  lemma KeptTree(d: Node, disk: seq<Sector>, d': Node)
    requires TreeOk(d, disk) && PointersKept(d, d')
    ensures TreeOk(d', disk) && Data(d', disk) == Data(d, disk) && Index(d', disk) == Index(d, disk)
  {
    var n := SectorCount(d.length);
    assert d.direct[..NUM_DIRECT] == d.direct && d'.direct[..NUM_DIRECT] == d'.direct;
    assert DataOf(d', disk, n) == DataOf(d, disk, n);
  }

  lemma TakenSwap(used: seq<bool>, used': seq<bool>, used'': seq<bool>, more: seq<nat>, g: seq<nat>)
    requires Taken(used, used', more) && Taken(used', used'', g)
    ensures Taken(used, used'', g + more)
  {
    NoDupConcat(g, more);
  }

  lemma TakenAfter(used: seq<bool>, used': seq<bool>, used'': seq<bool>, more: seq<nat>, g: seq<nat>, inner: seq<nat>)
    requires Taken(used, used', more) && Taken(used', used'', g + inner)
    ensures Taken(used, used'', g + (more + inner))
    ensures Apart(more, inner) && forall k :: k in more + inner ==> k < |used| && !used[k]
  {
    assert [] + more == more && [] + g == g;
    TakenMore(used, used', used'', [], more, g, inner);
    NoDupConcat(g, more + inner);
    NoDupConcat(more, inner);
    assert forall k :: k in more + inner ==> k in g + (more + inner);
  }

  /** The index block `s` holds what `FillSegment` made of it. */
  lemma SingleFilled(d: Node, disk: seq<Sector>, m: nat, s: nat, p: seq<Word>, want: nat, g: seq<nat>)
    requires IndexOk(d, disk, m) && NoDup(IndexOf(d, disk, m)) && m == Max(SectorCount(d.length), NUM_DIRECT)
    requires s < |disk| <= INVALID_SECTOR && (m > NUM_DIRECT ==> s == d.single)
    requires 0 < want <= PER_INDEX == |p| && (m > NUM_DIRECT + want ==> want == PER_INDEX)
    requires var have := Have(d, NUM_DIRECT, want); p[..want] == Unpack(disk[s])[..have] + g
    ensures Advances(d, disk, m, d.(single := s), disk[s := Pack(p)], Max(m, NUM_DIRECT + want), g,
                     if m > NUM_DIRECT then [] else [s])
  {
    if m == NUM_DIRECT {
      assert p[..want] == g;
      NewSingle(d, disk, s, p, want);
    } else if m <= NUM_DIRECT + want {
      MoreSingle(d, disk, m, p, want, g);
    } else {
      assert p[..want] == p;
      assert Unpack(disk[s])[..want] == Unpack(disk[s]);
      assert |p| == |Unpack(disk[s])| + |g|;
      SameSingle(d, disk, m);
    }
  }

  /** The doubly indirect block `t` and its first index block hold what `FillInner` made of them. */
  lemma DoubleFilled(d: Node, disk: seq<Sector>, used: seq<bool>, m: nat, t: nat, q: seq<Word>, p: seq<Word>, want: nat,
                     g: seq<nat>, outer: seq<nat>, inner: seq<nat>)
    requires Stands(d, disk, used, m) && m == Max(SectorCount(d.length), NUM_DIRECT + PER_INDEX)
    requires t < |disk| && m <= NUM_DIRECT + PER_INDEX + want && 0 < want <= PER_INDEX
    requires |q| == |p| == PER_INDEX && q[0] < |disk|
    requires m > NUM_DIRECT + PER_INDEX ==> t == d.double && q == Unpack(disk[t]) && outer == inner == []
    requires m == NUM_DIRECT + PER_INDEX ==> outer == [t] && inner == [q[0]]
    requires Apart(outer, inner) && forall k :: k in outer + inner ==> k < |used| && !used[k]
    requires p[..want] == Unpack(disk[q[0]])[..Have(d, NUM_DIRECT + PER_INDEX, want)] + g
    ensures Advances(d, disk, m, d.(double := t), disk[q[0] := Pack(p)][t := Pack(q)], NUM_DIRECT + PER_INDEX + want, g,
                     outer + inner)
  {
    if m == NUM_DIRECT + PER_INDEX {
      assert p[..want] == g;
      assert IndexOf(d, disk, m) == [d.single];
      assert t in outer && q[0] in inner && [t] + [q[0]] == [t, q[0]];
      NewDouble(d, disk, t, q[0], q, p, want);
    } else {
      assert outer + inner == [];
      MoreDouble(d, disk, m, q, p, want, g);
    }
  }

  lemma UnderwayStands(d0: Node, disk0: seq<Sector>, used0: seq<bool>, d: Node, disk: seq<Sector>, used: seq<bool>,
                       m: nat, data: seq<nat>, index: seq<nat>)
    requires Underway(d0, disk0, used0, d, disk, used, m, data, index)
    ensures Stands(d, disk, used, m) && d.length == d0.length
  {
    OldTree(d0, disk0, d, disk, m, data, index);
    assert forall k :: k in index ==> k in data + index;
  }

  /** A stage fails after taking `lost`; pointers the old length does not reach may have changed. */
  lemma StageFails(d0: Node, disk0: seq<Sector>, used0: seq<bool>, d: Node, disk: seq<Sector>, used: seq<bool>,
                   m: nat, data: seq<nat>, index: seq<nat>, d': Node, used': seq<bool>, lost: seq<nat>)
    requires Underway(d0, disk0, used0, d, disk, used, m, data, index) && Taken(used, used', lost)
    requires PointersKept(d, d')
    ensures Failed(d0, disk0, used0, d', disk, used', data + index + lost)
  {
    OldTree(d0, disk0, d, disk, m, data, index);
    TakenTwice(used0, used, used', data + index, lost);
    KeptTree(d, disk, d');
  }

  /** A stage succeeds. */
  lemma StageDone(d0: Node, disk0: seq<Sector>, used0: seq<bool>, d: Node, disk: seq<Sector>, used: seq<bool>,
                  m: nat, data: seq<nat>, index: seq<nat>,
                  d': Node, disk': seq<Sector>, used': seq<bool>, m': nat, g: seq<nat>, more: seq<nat>)
    requires Underway(d0, disk0, used0, d, disk, used, m, data, index)
    requires Advances(d, disk, m, d', disk', m', g, more) && Taken(used, used', g + more)
    ensures Underway(d0, disk0, used0, d', disk', used', m', data + g, index + more)
  {
    TakenMore(used0, used, used', data, index, g, more);
    NoDupConcat(g, more);
    forall i | 0 <= i < |g| ensures g[i] < |disk| { assert g[i] in g + more; }
    assert forall k :: k in more ==> k in g + more;
    assert forall k :: k in index ==> k in data + index;
    Advance(d0, disk0, d, disk, m, data, index, d', disk', m', g, more);
  }

  // ---------------------------------------------------------------------------------
  // When there is room
  // ---------------------------------------------------------------------------------

  /** How many index sectors a file of `n` blocks has. */
  function IndexCount(n: nat): (r: nat) {
    if n <= NUM_DIRECT then 0 else if n <= NUM_DIRECT + PER_INDEX then 1 else 3
  }

  /** How many sectors it takes to grow from `n` blocks to `m`. */
  function Needed(n: nat, m: nat): (r: int) { m - n + IndexCount(m) - IndexCount(n) }

  lemma NeededMore(n: nat, m: nat, total: nat)
    requires m <= total
    ensures Needed(n, m) <= Needed(n, total)
  {
  }

  /** No sector was left when fewer than `need` had been taken, or the map could not be written. */
  ghost predicate Short(used: seq<bool>, gained: seq<nat>, need: int, writable: bool) {
    writable ==> AllUsed(used) && |gained| < need
  }

  lemma ShortMore(d0: Node, disk0: seq<Sector>, used0: seq<bool>, d: Node, disk: seq<Sector>, used: seq<bool>,
                  m: nat, data: seq<nat>, index: seq<nat>, used': seq<bool>, lost: seq<nat>, m': nat, total: nat,
                  writable: bool)
    requires Underway(d0, disk0, used0, d, disk, used, m, data, index) && m' <= total
    requires Short(used', lost, Needed(m, m'), writable)
    ensures Short(used', data + index + lost, Needed(SectorCount(d0.length), total), writable)
  {
    assert |IndexOf(d, disk, m)| == IndexCount(m) && |Index(d0, disk0)| == IndexCount(SectorCount(d0.length));
    NeededMore(m, m', total);
  }

  lemma GrewBy(d: Node, disk: seq<Sector>, d': Node, disk': seq<Sector>, data: seq<nat>, index: seq<nat>)
    requires Grew(d, disk, d', disk', data, index)
    ensures |data + index| == Needed(SectorCount(d.length), SectorCount(d'.length))
  {
    assert |Index(d, disk)| == IndexCount(SectorCount(d.length)) &&
      |Index(d', disk')| == IndexCount(SectorCount(d'.length));
  }
}
