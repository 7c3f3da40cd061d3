/**
 The block index of an inode: 123 direct pointers, one index block and one block of index
 blocks.  `ByteToSector` is the lookup as the code performs it; `Data` is the list of data
 sectors it is meant to consult.
 */
module InodeIndex {
  import opened Sectors
  import opened Words

  const NUM_DIRECT: nat := 123
  const PER_INDEX: nat := 128
  const INODE_MAGIC: Word := 0x494e_4f44

  /** The largest file whose every block the lookup finds; see `ExactRange`. */
  const MAX_SECTORS: nat := 379

  datatype InodeDisk = InodeDisk(
    length: nat, isdir: Word, direct: seq<Word>, single: Word, double: Word, magic: Word)

  type Node = d: InodeDisk | |d.direct| == NUM_DIRECT && d.length < 0x8000_0000
    witness InodeDisk(0, 0, seq(NUM_DIRECT, _ => 0), 0, 0, 0)

  function SectorCount(length: nat): (n: nat) { (length + SECTOR_SIZE - 1) / SECTOR_SIZE }

  lemma SectorsMonotone(a: nat, b: nat)
    requires a <= b
    ensures SectorCount(a) <= SectorCount(b)
  {
  }

  // ---------------------------------------------------------------------------------
  // The inode's own sector
  // ---------------------------------------------------------------------------------

  function Encode(d: Node): (s: Sector) {
    Pack([d.length as Word, d.isdir] + d.direct + [d.single, d.double, d.magic])
  }

  /** A negative length, as a signed `off_t` would show it, is no inode. */
  function Decode(s: Sector): (r: Option<Node>) {
    var ws := Unpack(s);
    if ws[0] < 0x8000_0000 then
      Some(InodeDisk(ws[0], ws[1], ws[2..2 + NUM_DIRECT], ws[125], ws[126], ws[127]))
    else None
  }

  lemma DecodeEncode(d: Node)
    ensures Decode(Encode(d)) == Some(d)
  {
    UnpackPack([d.length as Word, d.isdir] + d.direct + [d.single, d.double, d.magic]);
  }

  // ---------------------------------------------------------------------------------
  // The lookup
  // ---------------------------------------------------------------------------------

  /** A sector, the error value -1, or an access outside an index block or the device. */
  datatype Lookup = At(sector: nat) | NoBlock | OutOfBounds

  function IndexAt(disk: seq<Sector>, block: nat, i: nat): (r: Lookup) {
    if block < |disk| && i < PER_INDEX then At(Unpack(disk[block])[i]) else OutOfBounds
  }

  function ByteToSector(d: Node, disk: seq<Sector>, pos: nat): (r: Lookup) {
    if pos < d.length then
      var block := pos / SECTOR_SIZE;
      if block < NUM_DIRECT then At(d.direct[block])
      else if block < NUM_DIRECT + PER_INDEX then IndexAt(disk, d.single, block - NUM_DIRECT)
      else
        var rest := block - (NUM_DIRECT + PER_INDEX);
        match IndexAt(disk, d.double, rest / PER_INDEX)
        case At(index) => IndexAt(disk, index, rest % SECTOR_SIZE)
        case other => other
    else NoBlock
  }

  // ---------------------------------------------------------------------------------
  // The sectors of a file
  // ---------------------------------------------------------------------------------

  /** The index blocks a file of `n` sectors needs are on the device. */
  predicate IndexOk(d: Node, disk: seq<Sector>, n: nat) {
    && n <= MAX_SECTORS
    && (n > NUM_DIRECT ==> d.single < |disk|)
    && (n > NUM_DIRECT + PER_INDEX ==> d.double < |disk| && Unpack(disk[d.double])[0] < |disk|)
  }

  /** The data sectors of the first `n` blocks, in file order. */
  function DataOf(d: Node, disk: seq<Sector>, n: nat): (r: seq<nat>)
    requires IndexOk(d, disk, n)
    ensures |r| == n
  {
    if n <= NUM_DIRECT then d.direct[..n]
    else if n <= NUM_DIRECT + PER_INDEX then d.direct + Unpack(disk[d.single])[..n - NUM_DIRECT]
    else d.direct + Unpack(disk[d.single]) + Unpack(disk[Unpack(disk[d.double])[0]])[..n - (NUM_DIRECT + PER_INDEX)]
  }

  /** The index sectors of a file of `n` blocks, in the order growth adds them. */
  function IndexOf(d: Node, disk: seq<Sector>, n: nat): (r: seq<nat>)
    requires IndexOk(d, disk, n)
  {
    if n <= NUM_DIRECT then []
    else if n <= NUM_DIRECT + PER_INDEX then [d.single]
    else [d.single, d.double, Unpack(disk[d.double])[0]]
  }

  predicate AllBelow(s: seq<nat>, n: nat) { forall i :: 0 <= i < |s| ==> s[i] < n }

  lemma BelowConcat(a: seq<nat>, b: seq<nat>, n: nat)
    ensures AllBelow(a + b, n) <==> AllBelow(a, n) && AllBelow(b, n)
  {
    if AllBelow(a + b, n) {
      forall i | 0 <= i < |b| ensures b[i] < n { assert b[i] == (a + b)[|a| + i]; }
      forall i | 0 <= i < |a| ensures a[i] < n { assert a[i] == (a + b)[i]; }
    }
  }

  predicate TreeOk(d: Node, disk: seq<Sector>) {
    var n := SectorCount(d.length);
    && IndexOk(d, disk, n)
    && AllBelow(DataOf(d, disk, n), |disk|)
  }

  function Data(d: Node, disk: seq<Sector>): (r: seq<nat>)
    requires TreeOk(d, disk)
    ensures |r| == SectorCount(d.length)
  {
    DataOf(d, disk, SectorCount(d.length))
  }

  function Index(d: Node, disk: seq<Sector>): (r: seq<nat>)
    requires TreeOk(d, disk)
    ensures forall i :: 0 <= i < |r| ==> r[i] < |disk|
  {
    IndexOf(d, disk, SectorCount(d.length))
  }

  /** The file's bytes, one after another. */
  function Contents(d: Node, disk: seq<Sector>): (r: seq<Byte>)
    requires TreeOk(d, disk)
    ensures |r| == d.length
    ensures forall p :: 0 <= p < d.length ==>
      p / SECTOR_SIZE < |Data(d, disk)| && r[p] == disk[Data(d, disk)[p / SECTOR_SIZE]][p % SECTOR_SIZE]
  {
    seq(d.length, p requires 0 <= p < d.length =>
      BlockInRange(d.length, p); disk[Data(d, disk)[p / SECTOR_SIZE]][p % SECTOR_SIZE])
  }

  lemma BlockInRange(length: nat, pos: nat)
    ensures pos < length ==> pos / SECTOR_SIZE < SectorCount(length)
  {
  }

  /** In range, the code's lookup finds the right data sector for every byte. */
  lemma LookupFindsData(d: Node, disk: seq<Sector>, pos: nat)
    requires TreeOk(d, disk)
    ensures ByteToSector(d, disk, pos) ==
      if pos < d.length then BlockInRange(d.length, pos); At(Data(d, disk)[pos / SECTOR_SIZE]) else NoBlock
  {
    BlockInRange(d.length, pos);
    var n, block := SectorCount(d.length), pos / SECTOR_SIZE;
    if pos >= d.length || block < NUM_DIRECT {
    } else if block < NUM_DIRECT + PER_INDEX {
      assert DataOf(d, disk, n)[block] == Unpack(disk[d.single])[block - NUM_DIRECT];
    } else {
      var rest := block - (NUM_DIRECT + PER_INDEX);
      assert rest / PER_INDEX == 0 && rest % SECTOR_SIZE == rest;
      assert DataOf(d, disk, n)[block] == Unpack(disk[Unpack(disk[d.double])[0]])[rest];
    }
  }

  /** The lookup stays inside its index blocks for every byte of a file exactly when the
      file has at most 379 sectors: the remainder by 512 where an index block has 128
      pointers runs past the end of the block from block 379 on. */
  lemma ExactRange(d: Node, disk: seq<Sector>)
    requires d.single < |disk| && d.double < |disk|
    requires forall i :: 0 <= i < PER_INDEX ==> Unpack(disk[d.double])[i] < |disk|
    ensures (forall pos :: 0 <= pos < d.length ==> !ByteToSector(d, disk, pos).OutOfBounds?)
      <==> SectorCount(d.length) <= MAX_SECTORS
  {
    if SectorCount(d.length) > MAX_SECTORS {
      var pos := MAX_SECTORS * SECTOR_SIZE;
      assert pos < d.length;
      assert ByteToSector(d, disk, pos).OutOfBounds?;
    } else {
      forall pos | 0 <= pos < d.length ensures !ByteToSector(d, disk, pos).OutOfBounds? {
        assert pos / SECTOR_SIZE < MAX_SECTORS;
      }
    }
  }

  /** The first byte it goes wrong at: byte 0 of block 379, in the smallest file that has one.  The
      byte before it is found. */
  lemma Block379(d: Node, disk: seq<Sector>)
    requires d.length == MAX_SECTORS * SECTOR_SIZE + 1 && d.double < |disk|
    requires Unpack(disk[d.double])[0] < |disk| && Unpack(disk[d.double])[1] < |disk|
    ensures ByteToSector(d, disk, d.length - 1) == OutOfBounds
    ensures ByteToSector(d, disk, d.length - 2) == At(Unpack(disk[Unpack(disk[d.double])[0]])[PER_INDEX - 1])
  {
  }
}
