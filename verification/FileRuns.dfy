/**
 Runs of file-system operations over all files of a device.  A step is one operation of
 module Store; it relates the state before to the state after exactly as the operation's
 contract does.
 */
module FileRuns {
  import opened Sectors
  import opened Words
  import opened InodeIndex
  import opened Ledger
  import opened Volume
  import opened Growth
  import opened FileBytes
  import opened Store

  datatype OpenInode = OpenInode(data: Node, openCnt: nat, removed: bool, extending: bool)

  datatype State = State(v: Device, inodes: map<nat, OpenInode>)

  /** An open file's inode is the one in memory. */
  ghost predicate OpenOk(files: map<nat, Node>, inodes: map<nat, OpenInode>) {
    forall i :: i in inodes ==> i in files && files[i] == inodes[i].data && inodes[i].openCnt > 0
  }

  /** A closed file's inode is the one on disk. */
  ghost predicate ClosedOk(disk: seq<Sector>, files: map<nat, Node>, inodes: map<nat, OpenInode>) {
    forall i :: i in files && i !in inodes ==> i < |disk| && Decode(disk[i]) == Some(files[i])
  }

  ghost predicate Sound(s: State) {
    && VolumeOk(s.v)
    && OpenOk(s.v.files, s.inodes)
    && ClosedOk(s.v.disk, s.v.files, s.inodes)
  }

  type Fs = s: State | Sound(s) ghost witness State(Device([], [], map[], {}), map[])

  // ---------------------------------------------------------------------------------
  // Steps
  // ---------------------------------------------------------------------------------

  datatype Op =
    | Create(ino: nat, length: nat, ok: bool)
    | Open(ino: nat)
    | Extend(ino: nat, length: nat, ok: bool)
    | Write(ino: nat, offset: nat, bytes: seq<Byte>)
    | Read(ino: nat, offset: nat, size: nat)
    | Remove(ino: nat)
    | Close(ino: nat)

  /** `Store.Create` that succeeds. */
  ghost predicate Creates(s: Fs, ino: nat, s': State, taken: seq<bool>, mid: seq<Sector>, data: seq<nat>,
                          index: seq<nat>) {
    && ino < |mid| && ino in s'.v.files && var d := s'.v.files[ino];
    && Taken(s.v.used, taken, [ino])
    && Grew(NewNode(), s.v.disk, d, mid, data, index) && Taken(taken, s'.v.used, data + index)
    && s' == State(Device(mid[ino := Encode(d)], s'.v.used, s.v.files[ino := d], s.v.unowned), s.inodes)
  }

  /** `Store.Create` that fails after it took the inode sector. */
  ghost predicate FailsToCreate(s: Fs, ino: nat, s': State, taken: seq<bool>, d: Node, full: seq<bool>,
                                data: seq<nat>) {
    && ino < |full| && Taken(s.v.used, taken, [ino])
    && Failed(NewNode(), s.v.disk, taken, d, s'.v.disk, full, data)
    && s' == State(Device(s'.v.disk, full[ino := false], s.v.files, s.v.unowned + set k | k in data), s.inodes)
  }

  /** `Store.Extend` that succeeds. */
  ghost predicate Extends(s: Fs, ino: nat, s': State, data: seq<nat>, index: seq<nat>) {
    && ino in s.inodes && ino in s.v.files && ino in s'.v.files && var d := s'.v.files[ino];
    && Grew(s.v.files[ino], s.v.disk, d, s'.v.disk, data, index) && Taken(s.v.used, s'.v.used, data + index)
    && s' == State(Device(s'.v.disk, s'.v.used, s.v.files[ino := d], s.v.unowned),
                   s.inodes[ino := s.inodes[ino].(data := d, extending := false)])
  }

  /** `Store.Extend` that fails. */
  ghost predicate FailsToExtend(s: Fs, ino: nat, s': State, data: seq<nat>) {
    && ino in s.inodes && ino in s.v.files && ino in s'.v.files && var d := s'.v.files[ino];
    && Failed(s.v.files[ino], s.v.disk, s.v.used, d, s'.v.disk, s'.v.used, data)
    && s' == State(Device(s'.v.disk, s'.v.used, s.v.files[ino := d], s.v.unowned + set k | k in data),
                   s.inodes[ino := s.inodes[ino].(data := d, extending := true)])
  }

  /** The copy loop of `Store.WriteAt`. */
  ghost predicate Writes(s: Fs, ino: nat, offset: nat, bytes: seq<Byte>, s': State) {
    && ino in s.inodes && ino in s.v.files
    && Rewritten(s.v.files[ino], s.v.disk, s'.v.disk, Overlay(Files(s.v)[ino], offset, bytes))
    && s' == s.(v := s.v.(disk := s'.v.disk))
  }

  ghost predicate Opens(s: Fs, ino: nat, s': State) {
    && ino in s.v.files
    && if ino in s.inodes then
         s' == s.(inodes := s.inodes[ino := s.inodes[ino].(openCnt := s.inodes[ino].openCnt + 1)])
       else
         && ino < |s.v.disk| && Decode(s.v.disk[ino]).Some?
         && s' == s.(inodes := s.inodes[ino := OpenInode(Decode(s.v.disk[ino]).value, 1, false, false)])
  }

  ghost predicate Removes(s: Fs, ino: nat, s': State) {
    ino in s.inodes && s' == s.(inodes := s.inodes[ino := s.inodes[ino].(removed := true)])
  }

  /** `Store.Close` when others still have the file open. */
  ghost predicate Leaves(s: Fs, ino: nat, s': State) {
    && ino in s.inodes && s.inodes[ino].openCnt > 1
    && s' == s.(inodes := s.inodes[ino := s.inodes[ino].(openCnt := s.inodes[ino].openCnt - 1)])
  }

  /** The last `Store.Close` of a file, which deletes it if it was removed. */
  ghost predicate Closes(s: Fs, ino: nat, s': State) {
    && ino in s.inodes && ino in s.v.files && ino < |s.v.disk| && s.inodes[ino].openCnt == 1
    && var disk := s.v.disk[ino := Encode(s.v.files[ino])];
       if s.inodes[ino].removed then
         && Released(s.v.used, s'.v.used, Books(s.v)[ino])
         && s' == State(Device(disk, s'.v.used, s.v.files - {ino}, s.v.unowned), s.inodes - {ino})
       else s' == State(s.v.(disk := disk), s.inodes - {ino})
  }

  // ---------------------------------------------------------------------------------
  // Every step keeps the state sound
  // ---------------------------------------------------------------------------------

  lemma OpenAfter(files: map<nat, Node>, inodes: map<nat, OpenInode>, ino: nat, inode: OpenInode)
    requires OpenOk(files, inodes) && inode.openCnt > 0
    ensures OpenOk(files[ino := inode.data], inodes[ino := inode])
  {
  }

  /** A closed file's inode sector is not among the sectors that changed. */
  lemma ClosedAfter(disk: seq<Sector>, files: map<nat, Node>, inodes: map<nat, OpenInode>, ino: nat,
                    disk': seq<Sector>, d: Node, inode: OpenInode, where: seq<nat>)
    requires ClosedOk(disk, files, inodes) && ino in inodes && SameBut(disk, disk', where)
    requires forall i :: i in files && i != ino ==> i !in where
    ensures ClosedOk(disk', files[ino := d], inodes[ino := inode])
  {
  }

  lemma ClosedKept(disk: seq<Sector>, disk': seq<Sector>, files: map<nat, Node>, inodes: map<nat, OpenInode>)
    requires ClosedOk(disk, files, inodes) && |disk'| == |disk|
    requires forall i :: i in files ==> i < |disk| && disk'[i] == disk[i]
    ensures ClosedOk(disk', files, inodes)
  {
  }

  lemma ExtendSound(s: Fs, ino: nat, s': State, data: seq<nat>, index: seq<nat>)
    requires Extends(s, ino, s', data, index)
    ensures Sound(s')
    ensures Files(s'.v) == Files(s.v)[ino := Files(s'.v)[ino]] && Files(s.v)[ino] <= Files(s'.v)[ino]
    ensures Books(s'.v) == Books(s.v)[ino := Books(s'.v)[ino]]
  {
    GrowKeeps(s.v, ino, s'.v, data, index);
    IndexNoInode(s'.v, ino);
    OpenAfter(s.v.files, s.inodes, ino, s'.inodes[ino]);
    ClosedAfter(s.v.disk, s.v.files, s.inodes, ino, s'.v.disk, s'.v.files[ino], s'.inodes[ino],
      Index(s'.v.files[ino], s'.v.disk));
  }

  lemma WriteSound(s: Fs, ino: nat, offset: nat, bytes: seq<Byte>, s': State)
    requires Writes(s, ino, offset, bytes, s')
    ensures Sound(s') && Books(s'.v) == Books(s.v)
    ensures Files(s'.v) == Files(s.v)[ino := Overlay(Files(s.v)[ino], offset, bytes)]
  {
    WriteKeeps(s.v, ino, s'.v, Overlay(Files(s.v)[ino], offset, bytes));
    InodesKept(s.v, ino, s'.v.disk);
    ClosedKept(s.v.disk, s'.v.disk, s.v.files, s.inodes);
  }

  lemma FailSound(s: Fs, ino: nat, s': State, data: seq<nat>)
    requires FailsToExtend(s, ino, s', data)
    ensures Sound(s') && Files(s'.v) == Files(s.v) && Books(s'.v) == Books(s.v)
  {
    var v, v' := s.v, s'.v;
    var where := Index(v.files[ino], v.disk) + data;
    assert forall k :: k in Index(v.files[ino], v.disk) ==> k in Books(v)[ino];
    TouchKeeps(v, ino, v', where, data);
    FailContents(v, ino, v', data);
    SameAgain(Files(v), Files(v'), ino);
    IndexNoInode(v, ino);
    InodesUsed(v);
    OpenAfter(v.files, s.inodes, ino, s'.inodes[ino]);
    ClosedAfter(v.disk, v.files, s.inodes, ino, v'.disk, v'.files[ino], s'.inodes[ino], where);
  }

  lemma Reopened(disk: seq<Sector>, files: map<nat, Node>, inodes: map<nat, OpenInode>, ino: nat, inode: OpenInode)
    requires OpenOk(files, inodes) && ClosedOk(disk, files, inodes)
    requires ino in files && inode.data == files[ino] && inode.openCnt > 0
    ensures OpenOk(files, inodes[ino := inode]) && ClosedOk(disk, files, inodes[ino := inode])
  {
  }

  lemma Closed(disk: seq<Sector>, files: map<nat, Node>, inodes: map<nat, OpenInode>, ino: nat)
    requires OpenOk(files, inodes) && ClosedOk(disk, files, inodes) && ino in inodes && ino < |disk|
    ensures var disk' := disk[ino := Encode(files[ino])];
      && OpenOk(files, inodes - {ino}) && ClosedOk(disk', files, inodes - {ino})
      && OpenOk(files - {ino}, inodes - {ino}) && ClosedOk(disk', files - {ino}, inodes - {ino})
  {
    DecodeEncode(files[ino]);
  }

  lemma OpenSound(s: Fs, ino: nat, s': State)
    requires Opens(s, ino, s')
    ensures Sound(s') && s'.v == s.v
  {
    Reopened(s.v.disk, s.v.files, s.inodes, ino, s'.inodes[ino]);
  }

  lemma LeaveSound(s: Fs, ino: nat, s': State)
    requires Leaves(s, ino, s')
    ensures Sound(s') && s'.v == s.v
  {
    Reopened(s.v.disk, s.v.files, s.inodes, ino, s'.inodes[ino]);
  }

  lemma RemoveSound(s: Fs, ino: nat, s': State)
    requires Removes(s, ino, s')
    ensures Sound(s') && s'.v == s.v
  {
    Reopened(s.v.disk, s.v.files, s.inodes, ino, s'.inodes[ino]);
  }

  /** The last close of a file that stays. */
  lemma CloseSound(s: Fs, ino: nat, s': State)
    requires Closes(s, ino, s') && !s.inodes[ino].removed
    ensures Sound(s') && Files(s'.v) == Files(s.v) && Books(s'.v) == Books(s.v)
  {
    InodeKeeps(s.v, ino, Encode(s.v.files[ino]), s'.v);
    Closed(s.v.disk, s.v.files, s.inodes, ino);
  }

  /** The last close of a file that was removed. */
  lemma DeleteSound(s: Fs, ino: nat, s': State)
    requires Closes(s, ino, s') && s.inodes[ino].removed
    ensures Sound(s') && Files(s'.v) == Files(s.v) - {ino} && Books(s'.v) == Books(s.v) - {ino}
  {
    var v := s.v.(disk := s.v.disk[ino := Encode(s.v.files[ino])]);
    InodeKeeps(s.v, ino, Encode(s.v.files[ino]), v);
    DropKeeps(v, ino, s'.v);
    Closed(s.v.disk, s.v.files, s.inodes, ino);
  }

  lemma SetTwice<T>(m: map<nat, T>, m1: map<nat, T>, m2: map<nat, T>, ino: nat)
    requires ino in m1 && ino in m2 && m1 == m[ino := m1[ino]] && m2 == m1[ino := m2[ino]]
    ensures m2 == m[ino := m2[ino]]
  {
  }

  lemma SetAndDropped<T>(m: map<nat, T>, m1: map<nat, T>, m2: map<nat, T>, ino: nat)
    requires ino !in m && ino in m1 && m1 == m[ino := m1[ino]] && m2 == m1 - {ino}
    ensures m2 == m
  {
  }

  lemma CreateVolume(v: Volume, ino: nat, d0: Node, v1: Device, v2: Device, data: seq<nat>, index: seq<nat>)
    requires ino in v2.files && d0.length == 0 && Taken(v.used, v1.used, [ino])
    requires v1 == Device(v.disk, v1.used, v.files[ino := d0], v.unowned)
    requires v2 == Device(v2.disk, v2.used, v.files[ino := v2.files[ino]], v.unowned)
    requires Grew(d0, v.disk, v2.files[ino], v2.disk, data, index) && Taken(v1.used, v2.used, data + index)
    ensures VolumeOk(v2) && ino !in v.files
    ensures Files(v2) == Files(v)[ino := Files(v2)[ino]] && Books(v2) == Books(v)[ino := Books(v2)[ino]]
  {
    AddKeeps(v, ino, v1);
    SetTwiceFiles(v.files, ino, d0, v2.files[ino]);
    GrowKeeps(v1, ino, v2, data, index);
    SetTwice(Files(v), Files(v1), Files(v2), ino);
    SetTwice(Books(v), Books(v1), Books(v2), ino);
  }

  lemma SetTwiceFiles(files: map<nat, Node>, ino: nat, a: Node, b: Node)
    ensures files[ino := a][ino := b] == files[ino := b]
  {
  }

  lemma CreateSound(s: Fs, ino: nat, s': State, taken: seq<bool>, mid: seq<Sector>, data: seq<nat>, index: seq<nat>)
    requires Creates(s, ino, s', taken, mid, data, index)
    ensures Sound(s') && ino !in Files(s.v)
    ensures Files(s'.v) == Files(s.v)[ino := Files(s'.v)[ino]] && Books(s'.v) == Books(s.v)[ino := Books(s'.v)[ino]]
  {
    var d := s'.v.files[ino];
    var v1 := Device(s.v.disk, taken, s.v.files[ino := NewNode()], s.v.unowned);
    var v2 := Device(mid, s'.v.used, s.v.files[ino := d], s.v.unowned);
    CreateVolume(s.v, ino, NewNode(), v1, v2, data, index);
    InodeKeeps(v2, ino, Encode(d), s'.v);
    IndexNoInode(v2, ino);
    CreatedClosed(s.v.disk, s.v.files, s.inodes, ino, mid, d, Index(d, mid));
  }

  lemma CreatedClosed(disk: seq<Sector>, files: map<nat, Node>, inodes: map<nat, OpenInode>, ino: nat,
                      mid: seq<Sector>, d: Node, where: seq<nat>)
    requires OpenOk(files, inodes) && ClosedOk(disk, files, inodes)
    requires ino !in files && ino < |mid| && SameBut(disk, mid, where)
    requires forall i :: i in files && i != ino ==> i !in where
    ensures ClosedOk(mid[ino := Encode(d)], files[ino := d], inodes) && OpenOk(files[ino := d], inodes)
  {
    DecodeEncode(d);
  }

  lemma FailedAdd(v: Volume, ino: nat, d0: Node, v1: Device, v2: Device, data: seq<nat>)
    requires ino in v2.files && d0.length == 0 && Taken(v.used, v1.used, [ino])
    requires v1 == Device(v.disk, v1.used, v.files[ino := d0], v.unowned)
    requires v2 == Device(v2.disk, v2.used, v.files[ino := v2.files[ino]], v.unowned + set k | k in data)
    requires Failed(d0, v.disk, v1.used, v2.files[ino], v2.disk, v2.used, data)
    ensures VolumeOk(v2) && ino !in v.files
    ensures Books(v2) == Books(v)[ino := [ino]] && Files(v2) == Files(v)[ino := Files(v2)[ino]]
  {
    AddKeeps(v, ino, v1);
    SetTwiceFiles(v.files, ino, d0, v2.files[ino]);
    assert Index(d0, v.disk) + data == data;
    TouchKeeps(v1, ino, v2, data, data);
    SetTwice(Files(v), Files(v1), Files(v2), ino);
  }

  /** A file that owns nothing but its inode sector goes away again. */
  lemma DropBack(v: Volume, ino: nat, v2: Volume, v': Device)
    requires ino !in v.files && ino in v2.files && ino < |v2.used|
    requires v'.disk == v2.disk && v'.used == v2.used[ino := false] && v'.unowned == v2.unowned
    requires v'.files == v.files && v2.files - {ino} == v.files
    requires Books(v2) == Books(v)[ino := [ino]] && Files(v2) == Files(v)[ino := Files(v2)[ino]]
    ensures VolumeOk(v') && Files(v') == Files(v) && Books(v') == Books(v)
  {
    DropKeeps(v2, ino, v');
    SetAndDropped(Books(v), Books(v2), Books(v'), ino);
    SetAndDropped(Files(v), Files(v2), Files(v'), ino);
  }

  lemma FailedCreateVolume(v: Volume, ino: nat, d0: Node, v1: Device, v2: Device, v': Device, data: seq<nat>)
    requires ino in v2.files && d0.length == 0 && Taken(v.used, v1.used, [ino])
    requires v1 == Device(v.disk, v1.used, v.files[ino := d0], v.unowned)
    requires v2 == Device(v2.disk, v2.used, v.files[ino := v2.files[ino]], v.unowned + set k | k in data)
    requires Failed(d0, v.disk, v1.used, v2.files[ino], v2.disk, v2.used, data)
    requires ino < |v2.used| && v' == Device(v2.disk, v2.used[ino := false], v.files, v2.unowned)
    ensures VolumeOk(v') && Files(v') == Files(v) && Books(v') == Books(v)
  {
    FailedAdd(v, ino, d0, v1, v2, data);
    SetThenMinus(v.files, ino, v2.files[ino]);
    DropBack(v, ino, v2, v');
  }

  lemma SetThenMinus(files: map<nat, Node>, ino: nat, d: Node)
    requires ino !in files
    ensures files[ino := d] - {ino} == files
  {
  }

  lemma FailedCreateSound(s: Fs, ino: nat, s': State, taken: seq<bool>, d: Node, full: seq<bool>, data: seq<nat>)
    requires FailsToCreate(s, ino, s', taken, d, full, data)
    ensures Sound(s') && Files(s'.v) == Files(s.v) && Books(s'.v) == Books(s.v)
  {
    var v1 := Device(s.v.disk, taken, s.v.files[ino := NewNode()], s.v.unowned);
    var v2 := Device(s'.v.disk, full, s.v.files[ino := d], s'.v.unowned);
    FailedCreateVolume(s.v, ino, NewNode(), v1, v2, s'.v, data);
    InodesUsed(s.v);
    ClosedKept(s.v.disk, s'.v.disk, s.v.files, s.inodes);
  }

  // ---------------------------------------------------------------------------------
  // Any step
  // ---------------------------------------------------------------------------------

  ghost predicate CreateStep(s: Fs, ino: nat, length: nat, ok: bool, s': State) {
    if ok then
      exists taken, mid, data, index :: Creates(s, ino, s', taken, mid, data, index) && s'.v.files[ino].length == length
    else
      s' == s || exists taken, d, full, data :: FailsToCreate(s, ino, s', taken, d, full, data)
  }

  ghost predicate ExtendStep(s: Fs, ino: nat, length: nat, ok: bool, s': State) {
    if ok then exists data, index :: Extends(s, ino, s', data, index) && s'.v.files[ino].length == length
    else exists data :: FailsToExtend(s, ino, s', data)
  }

  ghost predicate Step(s: Fs, op: Op, s': State) {
    match op
    case Create(ino, length, ok) => CreateStep(s, ino, length, ok, s')
    case Open(ino) => Opens(s, ino, s')
    case Extend(ino, length, ok) => ExtendStep(s, ino, length, ok, s')
    case Write(ino, offset, bytes) => Writes(s, ino, offset, bytes, s')
    case Read(ino, _, _) => ino in s.inodes && s' == s
    case Remove(ino) => Removes(s, ino, s')
    case Close(ino) => Leaves(s, ino, s') || Closes(s, ino, s')
  }

  predicate Fails(op: Op) { (op.Create? || op.Extend?) && !op.ok }

  /** The close that deletes a file. */
  predicate LastOfRemoved(i: OpenInode) { i.openCnt == 1 && i.removed }

  /** The effect of an operation on a collection of plain byte arrays.  A new file's bytes,
      and those that growth adds, are whatever the disk held; a close may delete its file. */
  ghost predicate FlatStep(f: map<nat, seq<Byte>>, op: Op, f': map<nat, seq<Byte>>) {
    match op
    case Create(ino, length, ok) =>
      if ok then ino !in f && ino in f' && |f'[ino]| == length && f' == f[ino := f'[ino]] else f' == f
    case Extend(ino, length, ok) =>
      if ok then ino in f && ino in f' && |f'[ino]| == length && f[ino] <= f'[ino] && f' == f[ino := f'[ino]]
      else ino in f && f' == f
    case Write(ino, offset, bytes) => ino in f && f' == f[ino := Overlay(f[ino], offset, bytes)]
    case Close(ino) => f' == f || f' == f - {ino}
    case _ => f' == f
  }

  lemma CreateStepOk(s: Fs, ino: nat, length: nat, ok: bool, s': State)
    requires CreateStep(s, ino, length, ok, s')
    ensures Sound(s') && FlatStep(Files(s.v), Create(ino, length, ok), Files(s'.v))
    ensures Books(s'.v) - {ino} == Books(s.v) - {ino} && (ok ==> s'.v.unowned == s.v.unowned)
    ensures |s'.v.used| == |s.v.used|
  {
    if ok {
      var taken, mid, data, index :| Creates(s, ino, s', taken, mid, data, index) && s'.v.files[ino].length == length;
      CreateSound(s, ino, s', taken, mid, data, index);
      MinusSame(Books(s.v), Books(s'.v), ino);
    } else if s' != s {
      var taken, d, full, data :| FailsToCreate(s, ino, s', taken, d, full, data);
      FailedCreateSound(s, ino, s', taken, d, full, data);
    }
  }

  lemma MinusSame<T>(m: map<nat, T>, m': map<nat, T>, ino: nat)
    requires ino in m' && m' == m[ino := m'[ino]]
    ensures m' - {ino} == m - {ino}
  {
  }

  lemma MinusTwice<T>(m: map<nat, T>, m': map<nat, T>, ino: nat)
    requires m' == m - {ino}
    ensures m' - {ino} == m - {ino}
  {
  }

  lemma ExtendedOk(s: Fs, ino: nat, s': State, data: seq<nat>, index: seq<nat>)
    requires Extends(s, ino, s', data, index)
    ensures Sound(s') && FlatStep(Files(s.v), Extend(ino, s'.v.files[ino].length, true), Files(s'.v))
    ensures Books(s'.v) - {ino} == Books(s.v) - {ino}
  {
    ExtendSound(s, ino, s', data, index);
    MinusSame(Books(s.v), Books(s'.v), ino);
  }

  lemma ExtendStepOk(s: Fs, ino: nat, length: nat, ok: bool, s': State)
    requires ExtendStep(s, ino, length, ok, s')
    ensures Sound(s') && FlatStep(Files(s.v), Extend(ino, length, ok), Files(s'.v))
    ensures Books(s'.v) - {ino} == Books(s.v) - {ino} && (ok ==> s'.v.unowned == s.v.unowned)
    ensures |s'.v.used| == |s.v.used|
  {
    if ok {
      var data, index :| Extends(s, ino, s', data, index) && s'.v.files[ino].length == length;
      ExtendedOk(s, ino, s', data, index);
    } else {
      var data :| FailsToExtend(s, ino, s', data);
      FailSound(s, ino, s', data);
    }
  }

  lemma CloseStepOk(s: Fs, ino: nat, s': State)
    requires Closes(s, ino, s')
    ensures Sound(s') && (Files(s'.v) == Files(s.v) || Files(s'.v) == Files(s.v) - {ino})
    ensures Books(s'.v) - {ino} == Books(s.v) - {ino} && s'.v.unowned == s.v.unowned
    ensures |s'.v.used| == |s.v.used|
  {
    if s.inodes[ino].removed {
      DeleteSound(s, ino, s');
      MinusTwice(Books(s.v), Books(s'.v), ino);
    } else {
      CloseSound(s, ino, s');
    }
  }

  /** Any operation, on any sound state: the state stays sound, files change as byte arrays
      do, and no other file's sectors change hands.  Unless the operation fails, no sector is
      lost. */
  lemma StepOk(s: Fs, op: Op, s': State)
    requires Step(s, op, s')
    ensures Sound(s') && FlatStep(Files(s.v), op, Files(s'.v))
    ensures Books(s'.v) - {op.ino} == Books(s.v) - {op.ino}
    ensures |s'.v.used| == |s.v.used| && (!Fails(op) ==> s'.v.unowned == s.v.unowned)
    ensures op.Close? ==> op.ino in s.inodes && (op.ino in s'.v.files <==> !LastOfRemoved(s.inodes[op.ino]))
  {
    match op
    case Create(ino, length, ok) => CreateStepOk(s, ino, length, ok, s');
    case Open(ino) => OpenSound(s, ino, s');
    case Extend(ino, length, ok) => ExtendStepOk(s, ino, length, ok, s');
    case Write(ino, offset, bytes) => WriteSound(s, ino, offset, bytes, s');
    case Read(_, _, _) =>
    case Remove(ino) => RemoveSound(s, ino, s');
    case Close(ino) => if Leaves(s, ino, s') { LeaveSound(s, ino, s'); } else { CloseStepOk(s, ino, s'); }
  }
}
