/**
 The operations of module Store on a device with many files.  Each method is a call of the code, and
 its contract says which steps of module FileRuns the call was: so all that FileRuns and FileHistory
 say about runs holds of the code.
 */
module FileSystem {
  import opened Sectors
  import opened InodeIndex
  import opened Ledger
  import opened Sequences
  import opened Volume
  import opened Growth
  import opened FileBytes
  import opened Store
  import opened FileRuns
  import opened FileHistory

  ghost predicate Holds(store: Store, s: State)
    reads store
  {
    store.disk == s.v.disk && store.used == s.v.used
  }

  ghost function InMemory(inode: Inode): (r: OpenInode)
    reads inode
  {
    OpenInode(inode.data, inode.openCnt, inode.removed, inode.extending)
  }

  ghost predicate IsOpen(inode: Inode, s: State)
    reads inode
  {
    inode.sector in s.inodes && s.inodes[inode.sector] == InMemory(inode)
  }

  ghost function Checked(t: State): (s: Fs)
    requires Sound(t)
    ensures s == t
  {
    t
  }

  /** An open file of a sound state meets what the operations of Store demand. */
  lemma OpenIntact(s: Fs, ino: nat)
    requires ino in s.inodes
    ensures Intact(ino, s.inodes[ino].data, s.v.disk, s.v.used)
  {
    OwnParts(s.v, ino);
    assert NoDup(Books(s.v)[ino]);
  }

  // ---------------------------------------------------------------------------------
  // Create, open, remove, close
  // ---------------------------------------------------------------------------------

  method CreateFile(store: Store, ghost s: Fs, length: nat) returns (r: Option<nat>, ghost ino: nat, ghost s': Fs)
    requires Holds(store, s) && SectorCount(length) <= MAX_SECTORS
    modifies store`disk, store`used
    ensures Holds(store, s') && (r.Some? ==> r.value == ino) && Step(s, Op.Create(ino, length, r.Some?), s')
    ensures r.Some? ==> 1 + Needed(0, SectorCount(length)) <= Free(s.v.used)
    ensures r.None? && store.writable ==> 1 + Needed(0, SectorCount(length)) > Free(s.v.used)
  {
    ghost var taken, d, mid, full, data, index;
    r, ino, taken, d, mid, full, data, index := store.Create(length);
    s' := CreatedState(s, r, ino, length, taken, d, mid, store.disk, store.used, full, data, index);
  }

  /** The state after `Store.Create`. */
  lemma CreatedState(s: Fs, r: Option<nat>, ino: nat, length: nat, taken: seq<bool>, d: Node, mid: seq<Sector>,
                     disk: seq<Sector>,
                     used: seq<bool>, full: seq<bool>, data: seq<nat>, index: seq<nat>) returns (s': Fs)
    requires r.Some? ==>
      && r.value == ino < |disk| == |mid| && Taken(s.v.used, taken, [ino])
      && Grew(NewNode(), s.v.disk, d, mid, data, index) && Taken(taken, used, data + index)
      && d.length == length && disk == mid[ino := Encode(d)]
    requires r.None? ==>
      (disk == s.v.disk && used == s.v.used) ||
      (&& ino < |full| && Taken(s.v.used, taken, [ino])
       && Failed(NewNode(), s.v.disk, taken, d, disk, full, data) && used == full[ino := false])
    ensures s'.v.disk == disk && s'.v.used == used && Step(s, Op.Create(ino, length, r.Some?), s')
  {
    if r.Some? {
      var t := State(Device(disk, used, s.v.files[ino := d], s.v.unowned), s.inodes);
      assert Creates(s, ino, t, taken, mid, data, index);
      CreateSound(s, ino, t, taken, mid, data, index);
      s' := Checked(t);
    } else if disk == s.v.disk && used == s.v.used {
      s' := s;
    } else {
      var t := State(Device(disk, used, s.v.files, s.v.unowned + set k | k in data), s.inodes);
      assert FailsToCreate(s, ino, t, taken, d, full, data);
      FailedCreateSound(s, ino, t, taken, d, full, data);
      s' := Checked(t);
    }
  }

  /** `inode_open` of a file that nobody has open: its inode is read from its sector. */
  method OpenFile(store: Store, ghost s: Fs, sector: nat) returns (inode: Inode, ghost s': Fs)
    requires Holds(store, s) && sector in s.v.files && sector !in s.inodes
    ensures fresh(inode) && inode.sector == sector && Holds(store, s') && IsOpen(inode, s') &&
      Step(s, Op.Open(sector), s')
  {
    var node := Decode(store.disk[sector]);
    inode := new Inode(sector, node.value);
    ghost var t := s.(inodes := s.inodes[sector := OpenInode(node.value, 1, false, false)]);
    OpenSound(s, sector, t);
    s' := Checked(t);
  }

  /** `inode_open` of one that is open. */
  method Reopen(store: Store, inode: Inode, ghost s: Fs) returns (ghost s': Fs)
    requires Holds(store, s) && IsOpen(inode, s)
    modifies inode`openCnt
    ensures Holds(store, s') && IsOpen(inode, s') && Step(s, Op.Open(inode.sector), s')
  {
    inode.openCnt := inode.openCnt + 1;
    ghost var t := s.(inodes := s.inodes[inode.sector := InMemory(inode)]);
    OpenSound(s, inode.sector, t);
    s' := Checked(t);
  }

  method RemoveFile(store: Store, inode: Inode, ghost s: Fs) returns (ghost s': Fs)
    requires Holds(store, s) && IsOpen(inode, s)
    modifies inode`removed
    ensures Holds(store, s') && IsOpen(inode, s') && Step(s, Op.Remove(inode.sector), s')
  {
    inode.removed := true;
    ghost var t := s.(inodes := s.inodes[inode.sector := InMemory(inode)]);
    RemoveSound(s, inode.sector, t);
    s' := Checked(t);
  }

  /** The state after `Store.Close`. */
  lemma ClosedState(s: Fs, ino: nat, disk: seq<Sector>, used: seq<bool>) returns (s': Fs)
    requires ino in s.inodes && var i := s.inodes[ino];
      && ino < |s.v.disk|
      && (i.openCnt > 1 ==> disk == s.v.disk && used == s.v.used)
      && (i.openCnt == 1 ==> disk == s.v.disk[ino := Encode(i.data)])
      && (i.openCnt == 1 && !i.removed ==> used == s.v.used)
      && (i.openCnt == 1 && i.removed ==> Released(s.v.used, used, Books(s.v)[ino]))
    ensures s'.v.disk == disk && s'.v.used == used && Step(s, Op.Close(ino), s')
    ensures if s.inodes[ino].openCnt == 1 then ino !in s'.inodes
            else ino in s'.inodes && s'.inodes[ino] == s.inodes[ino].(openCnt := s.inodes[ino].openCnt - 1)
  {
    var i := s.inodes[ino];
    if i.openCnt > 1 {
      var t := s.(inodes := s.inodes[ino := i.(openCnt := i.openCnt - 1)]);
      LeaveSound(s, ino, t);
      s' := Checked(t);
    } else if i.removed {
      var t := State(Device(disk, used, s.v.files - {ino}, s.v.unowned), s.inodes - {ino});
      DeleteSound(s, ino, t);
      s' := Checked(t);
    } else {
      var t := State(s.v.(disk := disk), s.inodes - {ino});
      CloseSound(s, ino, t);
      s' := Checked(t);
    }
  }

  method CloseFile(store: Store, inode: Inode, ghost s: Fs) returns (ghost s': Fs)
    requires Holds(store, s) && IsOpen(inode, s)
    modifies store`disk, store`used, inode`openCnt
    ensures Holds(store, s') && Step(s, Op.Close(inode.sector), s')
    ensures if inode.openCnt == 0 then inode.sector !in s'.inodes else IsOpen(inode, s')
  {
    OpenIntact(s, inode.sector);
    store.Close(inode);
    assert inode.sector in s.v.files;
    s' := ClosedState(s, inode.sector, store.disk, store.used);
  }

  lemma CreatedThere(s: Fs, ino: nat, length: nat, s': Fs)
    requires Step(s, Op.Create(ino, length, true), s')
    ensures ino !in s.v.files && ino in s'.v.files && ino !in s'.inodes
  {
    StepOk(s, Op.Create(ino, length, true), s');
    LifeStep(s, Op.Create(ino, length, true), s', ino);
    assert ino !in Files(s.v);
  }

  lemma RunFront(s: Fs, op: Op, s': Fs, rest: Trace) returns (tr: Trace)
    requires Step(s, op, s') && Run(s', rest)
    ensures tr == [(op, s')] + rest && Run(s, tr) && Last(s, tr) == Last(s', rest)
  {
    tr := [(op, s')] + rest;
    StepOk(s, op, s');
    assert tr[1..] == rest;
  }

  lemma TwoOps(tr: Trace, ino: nat)
    requires |tr| == 2 && tr[0].0 == Op.Remove(ino) && tr[1].0 == Op.Close(ino)
    ensures NoCreation(tr[0..], ino)
  {
  }

  lemma ThreeOps(tr: Trace, ino: nat)
    requires |tr| == 3 && tr[0].0 == Op.Open(ino) && tr[1].0 == Op.Remove(ino) && tr[2].0 == Op.Close(ino)
    ensures NoFailure(tr) && OnlyOn(tr, ino)
  {
  }

  lemma RemovedAndClosed(s: Fs, ino: nat, s1: Fs, s2: Fs) returns (tr: Trace)
    requires Step(s, Op.Remove(ino), s1) && Step(s1, Op.Close(ino), s2) && ino !in s2.inodes
    ensures Run(s, tr) && Last(s, tr) == s2 && ino !in s2.v.files
    ensures |tr| == 2 && tr[0].0 == Op.Remove(ino) && tr[1].0 == Op.Close(ino)
  {
    var t := RunFront(s1, Op.Close(ino), s2, []);
    tr := RunFront(s, Op.Remove(ino), s1, t);
    TwoOps(tr, ino);
    RemovedIsDeleted(s, tr, 0, ino);
  }

  lemma AlsoFirst(tr: Trace, ino: nat)
    requires tr != [] && NoFailure(tr[1..]) && OnlyOn(tr[1..], ino) && !Fails(tr[0].0) && tr[0].0.ino == ino
    ensures NoFailure(tr) && OnlyOn(tr, ino)
  {
    assert forall i :: 0 < i < |tr| ==> tr[i] == tr[1..][i - 1];
  }

  lemma CreatedAndRemoved(s: Fs, ino: nat, length: nat, s1: Fs, rest: Trace) returns (tr: Trace)
    requires Step(s, Op.Create(ino, length, true), s1) && ino !in s.v.files
    requires Run(s1, rest) && NoFailure(rest) && OnlyOn(rest, ino) && ino !in Last(s1, rest).v.files
    ensures Run(s, tr) && Last(s, tr) == Last(s1, rest) && Last(s, tr).v.used == s.v.used
    ensures tr == [(Op.Create(ino, length, true), s1)] + rest
  {
    tr := RunFront(s, Op.Create(ino, length, true), s1, rest);
    AlsoFirst(tr, ino);
    FreeMapRestored(s, tr, ino);
  }

  /** A file that nobody else has open is removed and closed: it is gone. */
  method RemoveAndClose(store: Store, inode: Inode, ghost s: Fs) returns (ghost tr: Trace)
    requires Holds(store, s) && IsOpen(inode, s) && inode.openCnt == 1
    modifies store`disk, store`used, inode`openCnt, inode`removed
    ensures Run(s, tr) && Holds(store, Last(s, tr)) && inode.sector !in Last(s, tr).v.files
    ensures |tr| == 2 && tr[0].0 == Op.Remove(inode.sector) && tr[1].0 == Op.Close(inode.sector)
  {
    ghost var s1 := RemoveFile(store, inode, s);
    ghost var s2 := CloseFile(store, inode, s1);
    tr := RemovedAndClosed(s, inode.sector, s1, s2);
  }

  method OpenAndRemove(store: Store, ghost s: Fs, sector: nat) returns (ghost tr: Trace)
    requires Holds(store, s) && sector in s.v.files && sector !in s.inodes
    modifies store`disk, store`used
    ensures Run(s, tr) && Holds(store, Last(s, tr)) && sector !in Last(s, tr).v.files
    ensures |tr| == 3 && tr[0].0 == Op.Open(sector) && tr[1].0 == Op.Remove(sector) && tr[2].0 == Op.Close(sector)
  {
    ghost var s1;
    var inode;
    inode, s1 := OpenFile(store, s, sector);
    ghost var t := RemoveAndClose(store, inode, s1);
    tr := RunFront(s, Op.Open(sector), s1, t);
  }

  /** Four calls in a row, which succeed whenever there is room: the free map is what it was. */
  method CreateAndRemove(store: Store, ghost s: Fs, length: nat) returns (done: bool, ghost ino: nat, ghost tr: Trace)
    requires Holds(store, s) && SectorCount(length) <= MAX_SECTORS
    modifies store`disk, store`used
    ensures store.writable && 1 + Needed(0, SectorCount(length)) <= Free(s.v.used) ==> done
    ensures done ==> Run(s, tr) && |tr| == 4 && Holds(store, Last(s, tr)) && store.used == old(store.used)
    ensures done ==> tr[0].0 == Op.Create(ino, length, true) && tr[1].0 == Op.Open(ino)
    ensures done ==> tr[2].0 == Op.Remove(ino) && tr[3].0 == Op.Close(ino)
  {
    ghost var s1;
    var r;
    r, ino, s1 := CreateFile(store, s, length);
    done, tr := r.Some?, [];
    if done {
      CreatedThere(s, ino, length, s1);
      ghost var t := OpenAndRemove(store, s1, r.value);
      ThreeOps(t, ino);
      tr := CreatedAndRemoved(s, ino, length, s1, t);
    }
  }

  // ---------------------------------------------------------------------------------
  // Read and write
  // ---------------------------------------------------------------------------------

  /** `inode_read_at` returns what the state says. */
  method ReadFile(store: Store, inode: Inode, ghost s: Fs, size: Offset, offset: Offset) returns (r: ReadResult)
    requires Holds(store, s) && IsOpen(inode, s)
    ensures r == ReadOf(s, inode.sector, offset, size)
  {
    OpenIntact(s, inode.sector);
    r := store.ReadAt(inode, size, offset);
  }

  /** The state after the file was extended. */
  ghost function Extended(s: State, ino: nat, d: Node, disk: seq<Sector>, used: seq<bool>): (s': State)
    requires ino in s.inodes
  {
    State(Device(disk, used, s.v.files[ino := d], s.v.unowned),
      s.inodes[ino := s.inodes[ino].(data := d, extending := false)])
  }

  lemma ExtendedState(s: Fs, ino: nat, d: Node, disk: seq<Sector>, used: seq<bool>, data: seq<nat>, index: seq<nat>)
    requires ino in s.inodes
    requires Grew(s.inodes[ino].data, s.v.disk, d, disk, data, index) && Taken(s.v.used, used, data + index)
    ensures var s' := Extended(s, ino, d, disk, used); Sound(s') && Step(s, Op.Extend(ino, d.length, true), s')
  {
    var s' := Extended(s, ino, d, disk, used);
    assert Extends(s, ino, s', data, index);
    ExtendSound(s, ino, s', data, index);
  }

  /** The state after it was not. */
  ghost function Unextended(s: State, ino: nat, d: Node, disk: seq<Sector>, used: seq<bool>,
                            data: seq<nat>): (s': State)
    requires ino in s.inodes
  {
    State(Device(disk, used, s.v.files[ino := d], s.v.unowned + set k | k in data),
          s.inodes[ino := s.inodes[ino].(data := d, extending := true)])
  }

  lemma UnextendedState(s: Fs, ino: nat, length: nat, d: Node, disk: seq<Sector>, used: seq<bool>, data: seq<nat>)
    requires ino in s.inodes && Failed(s.inodes[ino].data, s.v.disk, s.v.used, d, disk, used, data)
    ensures var s' := Unextended(s, ino, d, disk, used, data); Sound(s') && Step(s, Op.Extend(ino, length, false), s')
  {
    var s' := Unextended(s, ino, d, disk, used, data);
    assert FailsToExtend(s, ino, s', data);
    FailSound(s, ino, s', data);
  }

  /** The state after the copying. */
  ghost function Copied(s: State, disk: seq<Sector>): (s': State) { s.(v := s.v.(disk := disk)) }

  lemma WrittenState(s: Fs, ino: nat, offset: nat, bytes: seq<Byte>, disk: seq<Sector>)
    requires ino in s.inodes
    requires Rewritten(s.inodes[ino].data, s.v.disk, disk,
      Overlay(Contents(s.inodes[ino].data, s.v.disk), offset, bytes))
    ensures Sound(Copied(s, disk)) && Step(s, Op.Write(ino, offset, bytes), Copied(s, disk))
  {
    assert Writes(s, ino, offset, bytes, Copied(s, disk));
    WriteSound(s, ino, offset, bytes, Copied(s, disk));
  }

  /** The first step of a write: the file is extended if it is too short, and `ok` says whether that
      went well. */
  ghost predicate RoomStep(s: Fs, ino: nat, end: nat, ok: bool, s': Fs) {
    && ino in s.inodes
    && if end <= s.inodes[ino].data.length then s' == s && ok else Step(s, Op.Extend(ino, end, ok), s')
  }

  ghost predicate RoomTo(s: Fs, ino: nat, end: nat, ok: bool, s': State) {
    exists s1: Fs :: s1 == s' && RoomStep(s, ino, end, ok, s1)
  }

  /** The state after that step, as the contract of `Store.WriteAt` describes it. */
  ghost function WithRoom(s: State, ino: nat, end: nat, d: Node, extending: bool, disk: seq<Sector>, used: seq<bool>,
                          data: seq<nat>): (s': State)
    requires ino in s.inodes
  {
    if end <= s.inodes[ino].data.length then s
    else if extending then Unextended(s, ino, d, disk, used, data)
    else Extended(s, ino, d, disk, used)
  }

  /** What the contract of `Store.WriteAt` says about the time before the copying. */
  ghost predicate HasRoom(s: State, ino: nat, end: nat, d: Node, extending: bool, disk: seq<Sector>, used: seq<bool>,
                          data: seq<nat>)
    requires ino in s.inodes
  {
    exists index: seq<nat> ::
      !s.inodes[ino].extending &&
        MadeRoom(s.inodes[ino].data, s.v.disk, s.v.used, end, d, extending, disk, used, data, index)
  }

  lemma RoomState(s: Fs, ino: nat, end: nat, d: Node, extending: bool, disk: seq<Sector>, used: seq<bool>,
                  data: seq<nat>)
    requires ino in s.inodes && HasRoom(s, ino, end, d, extending, disk, used, data)
    ensures RoomTo(s, ino, end, !extending, WithRoom(s, ino, end, d, extending, disk, used, data))
  {
    var s' := WithRoom(s, ino, end, d, extending, disk, used, data);
    var index: seq<nat> :| MadeRoom(s.inodes[ino].data, s.v.disk, s.v.used, end, d, extending, disk, used, data, index);
    if end <= s.inodes[ino].data.length {
    } else if extending {
      UnextendedState(s, ino, end, d, disk, used, data);
    } else {
      ExtendedState(s, ino, d, disk, used, data, index);
    }
    assert RoomStep(s, ino, end, !extending, Checked(s'));
  }

  predicate StandsAt(s: State, ino: nat, i: OpenInode, disk: seq<Sector>, used: seq<bool>) {
    s.v.disk == disk && s.v.used == used && ino in s.inodes && s.inodes[ino] == i
  }

  /** What the state then holds. */
  lemma RoomHolds(s: State, ino: nat, end: nat, d: Node, extending: bool, disk: seq<Sector>, used: seq<bool>,
                  data: seq<nat>)
    requires ino in s.inodes && HasRoom(s, ino, end, d, extending, disk, used, data)
    ensures StandsAt(WithRoom(s, ino, end, d, extending, disk, used, data), ino,
                     s.inodes[ino].(data := d, extending := extending), disk, used)
  {
  }

  /** What a write that extended a file well, or not, does to byte arrays: the file keeps its other
      bytes and gets the new ones as far as it reaches, which is all of them if `ok`. */
  ghost predicate Laid(c: seq<Byte>, offset: nat, bytes: seq<Byte>, end: nat, ok: bool, c': seq<Byte>) {
    && end == offset + |bytes|
    && |c'| == (if ok && end > |c| then end else |c|)
    && (forall p :: 0 <= p < |c| && !(offset <= p < end) ==> c'[p] == c[p])
    && (forall p :: offset <= p < end && p < |c'| ==> c'[p] == bytes[p - offset])
    && (ok ==> Shows(c', offset, bytes))
  }

  ghost predicate BytesLaid(f: map<nat, seq<Byte>>, ino: nat, offset: nat, bytes: seq<Byte>, end: nat, ok: bool,
                            f': map<nat, seq<Byte>>) {
    ino in f && ino in f' && f' == f[ino := f'[ino]] && Laid(f[ino], offset, bytes, end, ok, f'[ino])
  }

  lemma FlatWrite(f: map<nat, seq<Byte>>, f1: map<nat, seq<Byte>>, f': map<nat, seq<Byte>>, ino: nat, offset: nat,
                  bytes: seq<Byte>, end: nat, ok: bool)
    requires ino in f && end == offset + |bytes|
    requires if end <= |f[ino]| then f1 == f && ok else FlatStep(f, Op.Extend(ino, end, ok), f1)
    requires FlatStep(f1, Op.Write(ino, offset, bytes), f')
    ensures BytesLaid(f, ino, offset, bytes, end, ok, f')
  {
    assert f1[ino := f'[ino]] == f[ino := f'[ino]];
  }

  /** The bytes of the files after both steps of a write: those of this file are laid over, and no other
      file changes. */
  lemma WriteOnBytes(s: Fs, ino: nat, offset: nat, bytes: seq<Byte>, end: nat, ok: bool, s1: Fs, s': Fs)
    requires end == offset + |bytes|
    requires RoomStep(s, ino, end, ok, s1) && Step(s1, Op.Write(ino, offset, bytes), s')
    ensures BytesLaid(Files(s.v), ino, offset, bytes, end, ok, Files(s'.v))
  {
    if end > s.inodes[ino].data.length { StepOk(s, Op.Extend(ino, end, ok), s1); }
    StepOk(s1, Op.Write(ino, offset, bytes), s');
    FlatWrite(Files(s.v), Files(s1.v), Files(s'.v), ino, offset, bytes, end, ok);
  }

  /** The two steps of a write that ends at `end`, and what they do to the bytes. */
  ghost predicate WriteSteps(s: Fs, ino: nat, offset: nat, bytes: seq<Byte>, end: nat, ok: bool, s': State) {
    exists s1: Fs, s2: Fs :: IsWrite(s, ino, offset, bytes, end, ok, s1, s2, s')
  }

  ghost predicate IsWrite(s: Fs, ino: nat, offset: nat, bytes: seq<Byte>, end: nat, ok: bool, s1: Fs, s2: Fs,
                          s': State) {
    && s' == s2 && RoomStep(s, ino, end, ok, s1) && Step(s1, Op.Write(ino, offset, bytes), s2)
    && BytesLaid(Files(s.v), ino, offset, bytes, end, ok, Files(s2.v))
  }

  lemma WriteState(s: Fs, ino: nat, offset: nat, bytes: seq<Byte>, end: nat, ok: bool, s1: State, d: Node,
                   mid: seq<Sector>, disk: seq<Sector>)
    requires end == offset + |bytes|
    requires RoomTo(s, ino, end, ok, s1) && ino in s1.inodes && s1.inodes[ino].data == d && s1.v.disk == mid
    requires TreeOk(d, mid) && Rewritten(d, mid, disk, Overlay(Contents(d, mid), offset, bytes))
    ensures WriteSteps(s, ino, offset, bytes, end, ok, Copied(s1, disk))
  {
    WrittenState(s1, ino, offset, bytes, disk);
    WriteOnBytes(s, ino, offset, bytes, end, ok, s1, Copied(s1, disk));
    assert IsWrite(s, ino, offset, bytes, end, ok, s1, Copied(s1, disk), Copied(s1, disk));
  }

  /** What `Store.WriteAt` ensures is these steps. */
  lemma WriteIsSteps(s: Fs, ino: nat, offset: nat, bytes: seq<Byte>, end: nat, d: Node, extending: bool,
                     mid: seq<Sector>, disk: seq<Sector>, used: seq<bool>, data: seq<nat>, s1: State)
    requires end == offset + |bytes| && ino in s.inodes && HasRoom(s, ino, end, d, extending, mid, used, data)
    requires s1 == WithRoom(s, ino, end, d, extending, mid, used, data)
    requires StandsAt(s1, ino, s.inodes[ino].(data := d, extending := extending), mid, used)
    requires TreeOk(d, mid) && Rewritten(d, mid, disk, Overlay(Contents(d, mid), offset, bytes))
    ensures WriteSteps(s, ino, offset, bytes, end, !extending, Copied(s1, disk))
  {
    RoomState(s, ino, end, d, extending, mid, used, data);
    WriteState(s, ino, offset, bytes, end, !extending, s1, d, mid, disk);
  }

  /** What a call of `inode_write_at` that is not stuck has done, in the words of module Store. */
  ghost predicate HasWritten(s: State, ino: nat, offset: nat, bytes: seq<Byte>, end: nat, i: OpenInode,
                             mid: seq<Sector>, disk: seq<Sector>, used: seq<bool>, data: seq<nat>) {
    && end == offset + |bytes| && ino in s.inodes && i == s.inodes[ino].(data := i.data, extending := i.extending)
    && HasRoom(s, ino, end, i.data, i.extending, mid, used, data)
    && TreeOk(i.data, mid) && Rewritten(i.data, mid, disk, Overlay(Contents(i.data, mid), offset, bytes))
  }

  method CallWriteAt(store: Store, inode: Inode, ghost s: Fs, bytes: seq<Byte>, offset: nat)
      returns (r: WriteResult, ghost end: nat, ghost mid: seq<Sector>, ghost data: seq<nat>)
    requires Holds(store, s) && IsOpen(inode, s) && SectorCount(offset + |bytes|) <= MAX_SECTORS
    modifies store`disk, store`used, inode`data, inode`extending
    ensures r.Stuck? <==> old(inode.extending)
    ensures r.Stuck? ==> Holds(store, s) && IsOpen(inode, s)
    ensures r.Wrote? ==>
      HasWritten(s, inode.sector, offset, bytes, end, InMemory(inode), mid, store.disk, store.used, data)
  {
    OpenIntact(s, inode.sector);
    ghost var index;
    r, end, mid, data, index := store.WriteAt(inode, bytes, offset);
  }

  lemma WrittenIsSteps(s: Fs, ino: nat, offset: nat, bytes: seq<Byte>, end: nat, i: OpenInode, mid: seq<Sector>,
                     disk: seq<Sector>, used: seq<bool>, data: seq<nat>) returns (s': State)
    requires HasWritten(s, ino, offset, bytes, end, i, mid, disk, used, data)
    ensures StandsAt(s', ino, i, disk, used) && WriteSteps(s, ino, offset, bytes, end, !i.extending, s')
  {
    var s1 := WithRoom(s, ino, end, i.data, i.extending, mid, used, data);
    RoomHolds(s, ino, end, i.data, i.extending, mid, used, data);
    s' := Copied(s1, disk);
    WriteIsSteps(s, ino, offset, bytes, end, i.data, i.extending, mid, disk, used, data, s1);
  }

  /** `inode_write_at`: the two steps, unless an extension of the file has failed before. */
  method WriteFile(store: Store, inode: Inode, ghost s: Fs, bytes: seq<Byte>, offset: nat)
      returns (r: WriteResult, ghost end: nat, ghost s': State)
    requires Holds(store, s) && IsOpen(inode, s) && SectorCount(offset + |bytes|) <= MAX_SECTORS
    modifies store`disk, store`used, inode`data, inode`extending
    ensures Holds(store, s') && IsOpen(inode, s') && (r.Stuck? <==> old(inode.extending))
    ensures if r.Stuck? then s' == s else WriteSteps(s, inode.sector, offset, bytes, end, !inode.extending, s')
  {
    ghost var mid, data;
    r, end, mid, data := CallWriteAt(store, inode, s, bytes, offset);
    s' := s;
    if r.Wrote? {
      s' := WrittenIsSteps(s, inode.sector, offset, bytes, end, InMemory(inode), mid, store.disk, store.used, data);
    }
  }
}
