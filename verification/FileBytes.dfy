/** One write into one data sector of a file, seen from the file's bytes. */
module FileBytes {
  import opened Sectors
  import opened Words
  import opened InodeIndex
  import opened Ledger
  import opened Sequences
  import opened Volume
  import opened Growth

  /** The disk after `bytes` are written at byte `pos` of the file, inside one sector. */
  function ChunkDisk(d: Node, disk: seq<Sector>, pos: nat, bytes: seq<Byte>): (r: seq<Sector>)
    requires TreeOk(d, disk) && pos < d.length && pos % SECTOR_SIZE + |bytes| <= SECTOR_SIZE
    ensures |r| == |disk|
  {
    BlockInRange(d.length, pos);
    var k := Data(d, disk)[pos / SECTOR_SIZE];
    disk[k := Splice(disk[k], pos % SECTOR_SIZE, bytes)]
  }

  lemma ChunkTree(d: Node, disk: seq<Sector>, pos: nat, bytes: seq<Byte>)
    requires TreeOk(d, disk) && pos < d.length && pos % SECTOR_SIZE + |bytes| <= SECTOR_SIZE
    requires Apart(Index(d, disk), Data(d, disk))
    ensures var disk' := ChunkDisk(d, disk, pos, bytes);
      && TreeOk(d, disk') && Data(d, disk') == Data(d, disk) && Index(d, disk') == Index(d, disk)
  {
    BlockInRange(d.length, pos);
    assert Data(d, disk)[pos / SECTOR_SIZE] in Data(d, disk);
    IndexFrame(d, disk, ChunkDisk(d, disk, pos, bytes));
  }

  lemma ChunkByte(pos: nat, len: nat, p: nat)
    requires pos % SECTOR_SIZE + len <= SECTOR_SIZE
    ensures pos <= p < pos + len ==>
      p / SECTOR_SIZE == pos / SECTOR_SIZE && p % SECTOR_SIZE == pos % SECTOR_SIZE + (p - pos)
    ensures p / SECTOR_SIZE == pos / SECTOR_SIZE ==>
      (pos <= p < pos + len <==> pos % SECTOR_SIZE <= p % SECTOR_SIZE < pos % SECTOR_SIZE + len)
  {
    var b, o := pos / SECTOR_SIZE, pos % SECTOR_SIZE;
    if pos <= p < pos + len {
      assert p == b * SECTOR_SIZE + (o + (p - pos));
    }
  }

  /** Exactly the bytes `pos .. pos + |bytes|` of the file change. */
  lemma ChunkContents(d: Node, disk: seq<Sector>, pos: nat, bytes: seq<Byte>)
    requires TreeOk(d, disk) && pos < d.length && pos % SECTOR_SIZE + |bytes| <= SECTOR_SIZE
    requires pos + |bytes| <= d.length
    requires Apart(Index(d, disk), Data(d, disk)) && NoDup(Data(d, disk))
    ensures TreeOk(d, ChunkDisk(d, disk, pos, bytes))
    ensures Contents(d, ChunkDisk(d, disk, pos, bytes)) == Splice(Contents(d, disk), pos, bytes)
  {
    ChunkTree(d, disk, pos, bytes);
    BlockInRange(d.length, pos);
    var disk' := ChunkDisk(d, disk, pos, bytes);
    var D := Data(d, disk);
    var k := D[pos / SECTOR_SIZE];
    var c, c' := Contents(d, disk), Contents(d, disk');
    forall p | 0 <= p < d.length ensures c'[p] == Splice(c, pos, bytes)[p] {
      BlockInRange(d.length, p);
      ChunkByte(pos, |bytes|, p);
      if p / SECTOR_SIZE != pos / SECTOR_SIZE {
        assert D[p / SECTOR_SIZE] != k;
      }
    }
  }

  lemma OwnParts(v: Volume, ino: nat)
    requires ino in v.files
    ensures var d := v.files[ino];
      && NoDup(Data(d, v.disk)) && NoDup(Index(d, v.disk)) && Apart(Index(d, v.disk), Data(d, v.disk))
      && ino !in Data(d, v.disk) && ino !in Index(d, v.disk)
    ensures forall k :: k in Books(v)[ino] ==> k < |v.used| && v.used[k]
  {
    var d := v.files[ino];
    var mine := Books(v)[ino];
    assert NoDup([ino] + Data(d, v.disk) + Index(d, v.disk));
    NoDupConcat([ino] + Data(d, v.disk), Index(d, v.disk));
    NoDupConcat([ino], Data(d, v.disk));
    assert forall k :: k in Data(d, v.disk) ==> k in [ino] + Data(d, v.disk);
    assert ino in [ino] + Data(d, v.disk);
    forall k | k in mine ensures k < |v.used| && v.used[k] {
      assert Has(Books(v), ino, k);
    }
  }

  /** Some of a file's own sectors change and its tree does not. */
  lemma TouchOwn(v: Volume, ino: nat, v': Device, where: seq<nat>)
    requires ino in v.files && forall k :: k in where ==> k in Books(v)[ino]
    requires v' == v.(disk := v'.disk) && SameBut(v.disk, v'.disk, where)
    requires TreeOk(v.files[ino], v'.disk) && Owned(ino, v.files[ino], v'.disk) == Books(v)[ino]
    ensures VolumeOk(v') && Books(v') == Books(v)
    ensures Files(v') == Files(v)[ino := Contents(v.files[ino], v'.disk)]
  {
    var none: seq<nat> := [];
    assert v.unowned + (set x | x in none) == v.unowned;
    assert v.files == v.files[ino := v.files[ino]];
    TouchKeeps(v, ino, v', where, none);
  }

  /** A file's inode sector belongs to no other file. */
  lemma InodesApart(v: Volume, ino: nat, i: nat)
    requires ino in v.files && i in v.files && i != ino
    ensures i !in Books(v)[ino]
  {
    assert Books(v)[i][0] == i;
    assert Has(Books(v), i, i);
    if i in Books(v)[ino] { assert Has(Books(v), ino, i); }
  }

  /** The disk with a file's data sectors, and those only, rewritten. */
  ghost predicate Rewritten(d: Node, disk: seq<Sector>, disk': seq<Sector>, c: seq<Byte>) {
    && TreeOk(d, disk) && TreeOk(d, disk') && Data(d, disk') == Data(d, disk) && Index(d, disk') == Index(d, disk)
    && SameBut(disk, disk', Data(d, disk))
    && Contents(d, disk') == c
  }

  lemma RewriteMore(d: Node, disk: seq<Sector>, disk': seq<Sector>, c: seq<Byte>, pos: nat, bytes: seq<Byte>)
    requires Rewritten(d, disk, disk', c) && pos < d.length
    requires pos % SECTOR_SIZE + |bytes| <= SECTOR_SIZE && pos + |bytes| <= d.length
    requires Apart(Index(d, disk), Data(d, disk)) && NoDup(Data(d, disk))
    ensures Rewritten(d, disk, ChunkDisk(d, disk', pos, bytes), Splice(c, pos, bytes))
  {
    ChunkContents(d, disk', pos, bytes);
    ChunkTree(d, disk', pos, bytes);
    BlockInRange(d.length, pos);
    assert Data(d, disk)[pos / SECTOR_SIZE] in Data(d, disk);
  }

  /** Writing inside one file changes that file's bytes and nothing else on the volume. */
  lemma WriteKeeps(v: Volume, ino: nat, v': Device, c: seq<Byte>)
    requires ino in v.files && v' == v.(disk := v'.disk)
    requires Rewritten(v.files[ino], v.disk, v'.disk, c)
    ensures VolumeOk(v') && Books(v') == Books(v) && Files(v') == Files(v)[ino := c]
  {
    var where := Data(v.files[ino], v.disk);
    assert forall k :: k in where ==> k in Books(v)[ino];
    TouchOwn(v, ino, v', where);
  }

  lemma DataNoInode(v: Volume, ino: nat, i: nat)
    requires ino in v.files && i in v.files
    ensures i !in Data(v.files[ino], v.disk)
  {
    OwnParts(v, ino);
    assert forall k :: k in Data(v.files[ino], v.disk) ==> k in Books(v)[ino];
    if i != ino { InodesApart(v, ino, i); }
  }

  lemma InodesKept(v: Volume, ino: nat, disk': seq<Sector>)
    requires ino in v.files && SameBut(v.disk, disk', Data(v.files[ino], v.disk))
    ensures forall i :: i in v.files ==> disk'[i] == v.disk[i]
  {
    forall i | i in v.files ensures disk'[i] == v.disk[i] {
      DataNoInode(v, ino, i);
    }
  }

  /** Writing a file's inode sector changes no file's bytes. */
  lemma InodeKeeps(v: Volume, ino: nat, s: Sector, v': Device)
    requires ino in v.files && v' == v.(disk := v.disk[ino := s])
    ensures VolumeOk(v') && Books(v') == Books(v) && Files(v') == Files(v)
  {
    var d := v.files[ino];
    OwnParts(v, ino);
    IndexFrame(d, v.disk, v'.disk);
    ContentsFrame(d, v.disk, v'.disk);
    assert Books(v)[ino][0] == ino;
    TouchOwn(v, ino, v', [ino]);
    SameAgain(Files(v), Files(v'), ino);
  }

  /** Bytes inside one sector, read there, are the file's bytes. */
  lemma ChunkRead(d: Node, disk: seq<Sector>, pos: nat, len: nat)
    requires TreeOk(d, disk) && pos < d.length && pos + len <= d.length && pos % SECTOR_SIZE + len <= SECTOR_SIZE
    ensures pos / SECTOR_SIZE < |Data(d, disk)|
    ensures disk[Data(d, disk)[pos / SECTOR_SIZE]][pos % SECTOR_SIZE..pos % SECTOR_SIZE + len] ==
      Contents(d, disk)[pos..pos + len]
  {
    BlockInRange(d.length, pos);
    var c := Contents(d, disk);
    var sector := disk[Data(d, disk)[pos / SECTOR_SIZE]];
    var o := pos % SECTOR_SIZE;
    forall p | pos <= p < pos + len ensures c[p] == sector[o + (p - pos)] {
      ChunkByte(pos, len, p);
    }
  }

  /** How many bytes the next turn of a copy loop moves. */
  function Chunk(length: nat, at: nat, size: nat): (n: nat)
    requires at < length
    ensures n <= size && at + n <= length && at % SECTOR_SIZE + n <= SECTOR_SIZE && (size > 0 ==> n > 0)
  {
    var left := SECTOR_SIZE - at % SECTOR_SIZE;
    var least := if length - at < left then length - at else left;
    if size < least then size else least
  }

  lemma SlicesJoin(c: seq<Byte>, a: nat, b: nat, e: nat)
    requires a <= b <= e <= |c|
    ensures c[a..b] + c[b..e] == c[a..e]
  {
  }

  /** `c` with the bytes of `bytes` laid over it from `offset` on, as far as `c` reaches. */
  function Overlay(c: seq<Byte>, offset: nat, bytes: seq<Byte>): (r: seq<Byte>)
    ensures |r| == |c|
    ensures forall p :: 0 <= p < |c| ==> r[p] == if offset <= p < offset + |bytes| then bytes[p - offset] else c[p]
  {
    seq(|c|, p requires 0 <= p < |c| => if offset <= p < offset + |bytes| then bytes[p - offset] else c[p])
  }

  lemma OverlayMore(c: seq<Byte>, offset: nat, bytes: seq<Byte>, a: nat, b: nat)
    requires a <= b <= |bytes| && offset + b <= |c|
    ensures Splice(Overlay(c, offset, bytes[..a]), offset + a, bytes[a..b]) == Overlay(c, offset, bytes[..b])
  {
  }

  lemma RewriteNext(d: Node, disk0: seq<Sector>, disk: seq<Sector>, c: seq<Byte>, offset: nat, bytes: seq<Byte>, a: nat,
                    b: nat)
    requires a < b <= |bytes| && offset + b <= |c| == d.length && (offset + a) % SECTOR_SIZE + (b - a) <= SECTOR_SIZE
    requires Rewritten(d, disk0, disk, Overlay(c, offset, bytes[..a]))
    requires Apart(Index(d, disk0), Data(d, disk0)) && NoDup(Data(d, disk0))
    ensures Rewritten(d, disk0, ChunkDisk(d, disk, offset + a, bytes[a..b]), Overlay(c, offset, bytes[..b]))
  {
    RewriteMore(d, disk0, disk, Overlay(c, offset, bytes[..a]), offset + a, bytes[a..b]);
    OverlayMore(c, offset, bytes, a, b);
  }

  lemma OverlayEnds(c: seq<Byte>, offset: nat, bytes: seq<Byte>, a: nat)
    requires a <= |bytes| && (a == |bytes| || offset + a >= |c|)
    ensures Overlay(c, offset, bytes[..a]) == Overlay(c, offset, bytes)
    ensures Overlay(c, offset, []) == c
  {
  }

  /** A file whose sectors are all different and all marked in the free map. */
  ghost predicate Intact(ino: nat, d: Node, disk: seq<Sector>, used: seq<bool>) {
    && TreeOk(d, disk) && NoDup(Owned(ino, d, disk)) && |used| == |disk| <= INVALID_SECTOR
    && forall k :: k in Owned(ino, d, disk) ==> k < |used| && used[k]
  }

  lemma IntactParts(ino: nat, d: Node, disk: seq<Sector>, used: seq<bool>)
    requires Intact(ino, d, disk, used)
    ensures NoDup(Data(d, disk)) && NoDup(Index(d, disk)) && Apart(Index(d, disk), Data(d, disk))
    ensures forall k :: k in Index(d, disk) ==> k < |used| && used[k]
  {
    NoDupConcat([ino] + Data(d, disk), Index(d, disk));
    NoDupConcat([ino], Data(d, disk));
    assert forall k :: k in Data(d, disk) ==> k in [ino] + Data(d, disk);
    assert forall k :: k in Index(d, disk) ==> k in Owned(ino, d, disk);
  }

  lemma GrownIntact(ino: nat, d: Node, disk: seq<Sector>, used: seq<bool>, d': Node, disk': seq<Sector>,
                    used': seq<bool>, data: seq<nat>, index: seq<nat>)
    requires Intact(ino, d, disk, used) && Grew(d, disk, d', disk', data, index) && Taken(used, used', data + index)
    ensures Intact(ino, d', disk', used')
  {
    NoDupGrow(ino, Data(d, disk), data, Index(d, disk), index);
  }

  lemma FailedIntact(ino: nat, d: Node, disk: seq<Sector>, used: seq<bool>, d': Node, disk': seq<Sector>,
                     used': seq<bool>, gained: seq<nat>)
    requires Intact(ino, d, disk, used) && Failed(d, disk, used, d', disk', used', gained)
    ensures Intact(ino, d', disk', used')
  {
  }

  /** Writing the inode's own sector leaves the tree alone. */
  lemma InodeFrame(ino: nat, d: Node, disk: seq<Sector>, used: seq<bool>, s: Sector)
    requires Intact(ino, d, disk, used)
    ensures ino < |disk| && Intact(ino, d, disk[ino := s], used)
    ensures Owned(ino, d, disk[ino := s]) == Owned(ino, d, disk)
  {
    assert Owned(ino, d, disk)[0] == ino;
    assert ino in Owned(ino, d, disk);
    NoDupConcat([ino] + Data(d, disk), Index(d, disk));
    assert ino in [ino] + Data(d, disk);
    IndexFrame(d, disk, disk[ino := s]);
  }

  /** The index blocks of a file are other sectors than the inodes of the rest. */
  lemma IndexNoInode(v: Volume, ino: nat)
    requires ino in v.files
    ensures forall i :: i in v.files && i != ino ==> i !in Index(v.files[ino], v.disk)
  {
    forall i | i in v.files && i != ino ensures i !in Index(v.files[ino], v.disk) {
      InodesApart(v, ino, i);
      assert forall k :: k in Index(v.files[ino], v.disk) ==> k in Books(v)[ino];
    }
  }

  lemma InodesUsed(v: Volume)
    ensures forall i :: i in v.files ==> v.used[i]
  {
    forall i | i in v.files ensures v.used[i] {
      assert Books(v)[i][0] == i;
      assert Has(Books(v), i, i);
    }
  }

  lemma FailContents(v: Volume, ino: nat, v': Device, gained: seq<nat>)
    requires ino in v.files && ino in v'.files
    requires Failed(v.files[ino], v.disk, v.used, v'.files[ino], v'.disk, v'.used, gained)
    ensures Contents(v'.files[ino], v'.disk) == Contents(v.files[ino], v.disk)
  {
    var d, d' := v.files[ino], v'.files[ino];
    OwnParts(v, ino);
    forall k | k in Data(d, v.disk) ensures v'.disk[k] == v.disk[k] {
      assert k in Books(v)[ino];
    }
    forall p | 0 <= p < d.length ensures Contents(d', v'.disk)[p] == Contents(d, v.disk)[p] {
      BlockInRange(d.length, p);
      assert Data(d, v.disk)[p / SECTOR_SIZE] in Data(d, v.disk);
    }
  }
}
