/**
 All files of a device together: who owns which sector, and how that ownership changes.
 `files` gives the current inode of every file by its sector; `unowned` are the sectors in
 use that belong to no file (the two reserved ones, and any that a failed allocation lost).
 */
module Volume {
  import opened Sectors
  import opened Words
  import opened InodeIndex
  import opened Ledger
  import opened Sequences

  datatype Device = Device(disk: seq<Sector>, used: seq<bool>, files: map<nat, Node>, unowned: set<nat>)

  /** Every sector of a file: its inode, its data and its index blocks. */
  function Owned(ino: nat, d: Node, disk: seq<Sector>): (r: seq<nat>)
    requires TreeOk(d, disk)
  {
    [ino] + Data(d, disk) + Index(d, disk)
  }

  ghost predicate FilesOk(v: Device) {
    forall ino :: ino in v.files ==> ino < |v.disk| && TreeOk(v.files[ino], v.disk)
  }

  ghost function Books(v: Device): (r: map<nat, seq<nat>>)
    requires FilesOk(v)
    ensures r.Keys == v.files.Keys
  {
    map ino | ino in v.files :: Owned(ino, v.files[ino], v.disk)
  }

  ghost predicate VolumeOk(v: Device) {
    && |v.used| == |v.disk| <= INVALID_SECTOR
    && FilesOk(v)
    && LedgerOk(v.used, Books(v), v.unowned)
  }

  type Volume = v: Device | VolumeOk(v) ghost witness Device([], [], map[], {})

  /** What the files hold. */
  ghost function Files(v: Device): (r: map<nat, seq<Byte>>)
    requires FilesOk(v)
    ensures r.Keys == v.files.Keys
  {
    map ino | ino in v.files :: Contents(v.files[ino], v.disk)
  }

  // ---------------------------------------------------------------------------------
  // Frames
  // ---------------------------------------------------------------------------------

  /** The disks differ at most in the sectors of `where`. */
  predicate SameBut(disk: seq<Sector>, disk': seq<Sector>, where: seq<nat>) {
    |disk| == |disk'| && forall k :: 0 <= k < |disk| && k !in where ==> disk[k] == disk'[k]
  }

  lemma IndexFrame(d: Node, disk: seq<Sector>, disk': seq<Sector>)
    requires TreeOk(d, disk) && |disk'| == |disk|
    requires forall k :: k in Index(d, disk) ==> disk'[k] == disk[k]
    ensures TreeOk(d, disk') && Data(d, disk') == Data(d, disk) && Index(d, disk') == Index(d, disk)
  {
    var n := SectorCount(d.length);
    if n > NUM_DIRECT { assert Index(d, disk)[0] == d.single; }
    if n > NUM_DIRECT + PER_INDEX {
      assert Index(d, disk)[1] == d.double;
      assert Index(d, disk)[2] == Unpack(disk[d.double])[0];
    }
    assert DataOf(d, disk', n) == DataOf(d, disk, n);
  }

  lemma ContentsFrame(d: Node, disk: seq<Sector>, disk': seq<Sector>)
    requires TreeOk(d, disk) && |disk'| == |disk|
    requires forall k :: k in Index(d, disk) || k in Data(d, disk) ==> disk'[k] == disk[k]
    ensures TreeOk(d, disk') && Contents(d, disk') == Contents(d, disk)
  {
    IndexFrame(d, disk, disk');
  }

  /** A change confined to sectors that a file does not own leaves it as it was. */
  lemma OtherFile(ino: nat, d: Node, disk: seq<Sector>, disk': seq<Sector>, where: seq<nat>)
    requires TreeOk(d, disk) && SameBut(disk, disk', where) && Apart(where, Owned(ino, d, disk))
    ensures TreeOk(d, disk') && Owned(ino, d, disk') == Owned(ino, d, disk)
    ensures Contents(d, disk') == Contents(d, disk)
  {
    forall k | k in Index(d, disk) || k in Data(d, disk) ensures disk'[k] == disk[k] {
      assert k in Owned(ino, d, disk);
    }
    IndexFrame(d, disk, disk');
    ContentsFrame(d, disk, disk');
  }

  /** `v'` differs from `v` in the file `ino` and in sectors that no other file owns. */
  ghost predicate OnlyFile(v: Volume, ino: nat, v': Device, where: seq<nat>) {
    && ino in v'.files && v'.files == v.files[ino := v'.files[ino]]
    && ino < |v.disk| && TreeOk(v'.files[ino], v'.disk)
    && SameBut(v.disk, v'.disk, where)
    && forall i :: i in v.files && i != ino ==> Apart(where, Books(v)[i])
  }

  lemma OtherFileOf(v: Volume, ino: nat, v': Device, where: seq<nat>, i: nat)
    requires OnlyFile(v, ino, v', where) && i in v.files && i != ino
    ensures TreeOk(v.files[i], v'.disk)
    ensures Owned(i, v.files[i], v'.disk) == Books(v)[i]
    ensures Contents(v.files[i], v'.disk) == Files(v)[i]
  {
    OtherFile(i, v.files[i], v.disk, v'.disk, where);
  }

  lemma OtherFilesOk(v: Volume, ino: nat, v': Device, where: seq<nat>)
    requires OnlyFile(v, ino, v', where)
    ensures FilesOk(v')
  {
    forall i | i in v.files && i != ino ensures TreeOk(v.files[i], v'.disk) {
      OtherFileOf(v, ino, v', where, i);
    }
  }

  lemma EqualBut<T>(m: map<nat, T>, m': map<nat, T>, ino: nat)
    requires ino in m' && m'.Keys == m.Keys + {ino}
    requires forall i :: i in m && i != ino ==> m'[i] == m[i]
    ensures m' == m[ino := m'[ino]]
  {
  }

  lemma Without<T>(m: map<nat, T>, m': map<nat, T>, ino: nat)
    requires m'.Keys == m.Keys - {ino} && forall i :: i in m' ==> m'[i] == m[i]
    ensures m' == m - {ino}
  {
  }

  lemma SameAgain<T>(m: map<nat, T>, m': map<nat, T>, ino: nat)
    requires ino in m && ino in m' && m' == m[ino := m'[ino]] && m'[ino] == m[ino]
    ensures m' == m
  {
  }

  lemma OtherBook(v: Volume, ino: nat, v': Device, where: seq<nat>, i: nat)
    requires OnlyFile(v, ino, v', where) && FilesOk(v') && i in v.files && i != ino
    ensures Books(v')[i] == Books(v)[i] && Files(v')[i] == Files(v)[i]
  {
    OtherFileOf(v, ino, v', where, i);
    assert v'.files[i] == v.files[i];
  }

  lemma OtherBooks(v: Volume, ino: nat, v': Device, where: seq<nat>, b: map<nat, seq<nat>>, b': map<nat, seq<nat>>)
    requires OnlyFile(v, ino, v', where) && FilesOk(v') && b == Books(v) && b' == Books(v')
    ensures forall i :: i in b && i != ino ==> b'[i] == b[i]
  {
    forall i | i in b && i != ino ensures b'[i] == b[i] {
      OtherBook(v, ino, v', where, i);
    }
  }

  lemma OtherContents(v: Volume, ino: nat, v': Device, where: seq<nat>, f: map<nat, seq<Byte>>, f': map<nat, seq<Byte>>)
    requires OnlyFile(v, ino, v', where) && FilesOk(v') && f == Files(v) && f' == Files(v')
    ensures forall i :: i in f && i != ino ==> f'[i] == f[i]
  {
    forall i | i in f && i != ino ensures f'[i] == f[i] {
      OtherBook(v, ino, v', where, i);
    }
  }

  lemma OtherFiles(v: Volume, ino: nat, v': Device, where: seq<nat>)
    requires OnlyFile(v, ino, v', where)
    ensures FilesOk(v')
    ensures Books(v') == Books(v)[ino := Books(v')[ino]]
    ensures Files(v') == Files(v)[ino := Files(v')[ino]]
  {
    OtherFilesOk(v, ino, v', where);
    assert v'.files.Keys == v.files.Keys + {ino};
    OtherBooks(v, ino, v', where, Books(v), Books(v'));
    OtherContents(v, ino, v', where, Files(v), Files(v'));
    EqualBut(Books(v), Books(v'), ino);
    EqualBut(Files(v), Files(v'), ino);
  }

  // ---------------------------------------------------------------------------------
  // Changes of ownership
  // ---------------------------------------------------------------------------------

  /** A file grew by the sectors `data` and `index`, and only its index blocks changed. */
  ghost predicate Grew(d: Node, disk: seq<Sector>, d': Node, disk': seq<Sector>, data: seq<nat>, index: seq<nat>) {
    && TreeOk(d, disk) && TreeOk(d', disk') && d.length <= d'.length
    && Data(d', disk') == Data(d, disk) + data
    && Index(d', disk') == Index(d, disk) + index
    && SameBut(disk, disk', Index(d', disk'))
  }

  lemma OldBytesStay(d: Node, disk: seq<Sector>, d': Node, disk': seq<Sector>, data: seq<nat>, index: seq<nat>)
    requires Grew(d, disk, d', disk', data, index)
    requires Apart(Data(d, disk), Index(d', disk'))
    ensures Contents(d', disk')[..d.length] == Contents(d, disk)
  {
    forall p | 0 <= p < d.length ensures Contents(d', disk')[p] == Contents(d, disk)[p] {
      BlockInRange(d.length, p);
      assert Data(d, disk)[p / SECTOR_SIZE] == Data(d', disk')[p / SECTOR_SIZE];
    }
  }

  /** Growth with fresh sectors keeps the books, every old byte of the file and every other
      file. */
  lemma GrowKeeps(v: Volume, ino: nat, v': Device, data: seq<nat>, index: seq<nat>)
    requires ino in v.files && ino in v'.files
    requires v'.files == v.files[ino := v'.files[ino]] && v'.unowned == v.unowned
    requires Grew(v.files[ino], v.disk, v'.files[ino], v'.disk, data, index)
    requires Taken(v.used, v'.used, data + index)
    ensures VolumeOk(v')
    ensures Books(v') == Books(v)[ino := Books(v')[ino]]
    ensures Files(v') == Files(v)[ino := Files(v')[ino]]
    ensures Files(v')[ino][..v.files[ino].length] == Files(v)[ino]
  {
    var d, d' := v.files[ino], v'.files[ino];
    var mine := Books(v)[ino];
    assert Apart(mine, data + index) by {
      forall k | k in mine ensures k !in data + index { assert Has(Books(v), ino, k); }
    }
    NoDupGrow(ino, Data(d, v.disk), data, Index(d, v.disk), index);
    var now := Owned(ino, d', v'.disk);
    assert forall k :: k in Index(d', v'.disk) ==> k in now;
    forall i | i in v.files && i != ino ensures Apart(Index(d', v'.disk), Books(v)[i]) {
      NotAnothers(v, ino, i, now, data + index);
    }
    OtherFiles(v, ino, v', Index(d', v'.disk));
    OwnerGains(v.used, v'.used, Books(v), v.unowned, ino, now, data + index);
    OldBytesStay(d, v.disk, d', v'.disk, data, index);
  }

  lemma NotAnothers(v: Volume, ino: nat, i: nat, now: seq<nat>, gained: seq<nat>)
    requires ino in v.files && i in v.files && i != ino
    requires forall k :: k in now ==> k in Books(v)[ino] || k in gained
    requires forall k :: k in gained ==> k < |v.used| && !v.used[k]
    ensures Apart(now, Books(v)[i])
  {
    forall k | k in now ensures k !in Books(v)[i] {
      if k in Books(v)[ino] { assert Has(Books(v), ino, k); }
      if k in Books(v)[i] { assert Has(Books(v), i, k); }
    }
  }

  /** A change inside a file's own sectors (and sectors nobody had) that leaves its tree alone.
      Sectors gained without entering the tree are lost: they move to `unowned`. */
  lemma TouchKeeps(v: Volume, ino: nat, v': Device, where: seq<nat>, gained: seq<nat>)
    requires ino in v.files && ino in v'.files
    requires v'.files == v.files[ino := v'.files[ino]] && v'.unowned == v.unowned + set k | k in gained
    requires SameBut(v.disk, v'.disk, where) && TreeOk(v'.files[ino], v'.disk)
    requires Owned(ino, v'.files[ino], v'.disk) == Books(v)[ino]
    requires Taken(v.used, v'.used, gained)
    requires forall k :: k in where ==> k in Books(v)[ino] || k in gained
    ensures VolumeOk(v')
    ensures Books(v') == Books(v)
    ensures Files(v') == Files(v)[ino := Files(v')[ino]]
  {
    forall i | i in v.files && i != ino ensures Apart(where, Books(v)[i]) {
      NotAnothers(v, ino, i, where, gained);
    }
    OtherFiles(v, ino, v', where);
    assert Books(v')[ino] == Owned(ino, v'.files[ino], v'.disk);
    SameAgain(Books(v), Books(v'), ino);
    NobodyGains(v.used, v'.used, Books(v), v.unowned, gained);
  }

  /** A new, empty file on a sector that was free. */
  lemma AddKeeps(v: Volume, ino: nat, v': Device)
    requires Taken(v.used, v'.used, [ino]) && ino in v'.files && v'.files[ino].length == 0
    requires v'.disk == v.disk && v'.files == v.files[ino := v'.files[ino]] && v'.unowned == v.unowned
    ensures ino !in v.files && VolumeOk(v') && Files(v') == Files(v)[ino := []] && Books(v') == Books(v)[ino := [ino]]
  {
    assert ino in [ino];
    if ino in v.files { assert Has(Books(v), ino, Books(v)[ino][0]); }
    assert Owned(ino, v'.files[ino], v.disk) == [ino];
    OtherFiles(v, ino, v', []);
    OwnerGains(v.used, v'.used, Books(v), v.unowned, ino, [ino], [ino]);
    assert Files(v')[ino] == [];
  }

  /** A file disappears and its sectors, all of them and no others, become free. */
  lemma DropKeeps(v: Volume, ino: nat, v': Device)
    requires ino in v.files && Released(v.used, v'.used, Books(v)[ino])
    requires v'.disk == v.disk && v'.files == v.files - {ino} && v'.unowned == v.unowned
    ensures VolumeOk(v') && Files(v') == Files(v) - {ino} && Books(v') == Books(v) - {ino}
  {
    assert v'.files.Keys == v.files.Keys - {ino};
    OwnerLeaves(v.used, v'.used, Books(v), v.unowned, ino);
    Without(Books(v), Books(v'), ino);
    Without(Files(v), Files(v'), ino);
  }

  /** When no sector was ever lost, what is in use is what was reserved and what files hold. */
  lemma NothingLeft(v: Volume, reserved: set<nat>)
    requires v.files == map[] && v.unowned == reserved
    ensures forall k :: 0 <= k < |v.used| ==> (v.used[k] <==> k in reserved)
  {
  }
}
