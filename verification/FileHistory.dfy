/** What whole runs of file-system operations guarantee. */
module FileHistory {
  import opened Sectors
  import opened Ledger
  import opened Volume
  import opened FileBytes
  import opened Store
  import opened FileRuns

  /** Operations with the states they lead to. */
  type Trace = seq<(Op, State)>

  ghost predicate Run(s: Fs, tr: Trace)
    decreases |tr|
  {
    tr == [] || (Step(s, tr[0].0, tr[0].1) && (StepOk(s, tr[0].0, tr[0].1); Run(tr[0].1, tr[1..])))
  }

  ghost function Last(s: Fs, tr: Trace): (r: Fs)
    requires Run(s, tr)
    decreases |tr|
  {
    if tr == [] then s else (StepOk(s, tr[0].0, tr[0].1); Last(tr[0].1, tr[1..]))
  }

  predicate NoFailure(tr: Trace) { forall i :: 0 <= i < |tr| ==> !Fails(tr[i].0) }

  predicate OnlyOn(tr: Trace, ino: nat) { forall i :: 0 <= i < |tr| ==> tr[i].0.ino == ino }

  predicate NeverOn(tr: Trace, ino: nat) { forall i :: 0 <= i < |tr| ==> tr[i].0.ino != ino }

  lemma Rest(tr: Trace, ino: nat)
    requires tr != []
    ensures NoFailure(tr) ==> NoFailure(tr[1..])
    ensures OnlyOn(tr, ino) ==> OnlyOn(tr[1..], ino)
    ensures NeverOn(tr, ino) ==> NeverOn(tr[1..], ino)
  {
    assert forall i :: 0 <= i < |tr[1..]| ==> tr[1..][i] == tr[i + 1];
  }

  // ---------------------------------------------------------------------------------
  // Files do not disturb each other
  // ---------------------------------------------------------------------------------

  lemma FlatOther(f: map<nat, seq<Byte>>, op: Op, f': map<nat, seq<Byte>>, i: nat)
    requires FlatStep(f, op, f') && i != op.ino
    ensures (i in f <==> i in f') && (i in f ==> f'[i] == f[i])
  {
  }

  /** Operations on other files leave a file's bytes alone. */
  lemma {:induction false} FileIsolated(s: Fs, tr: Trace, i: nat)
    requires Run(s, tr) && NeverOn(tr, i)
    ensures var f, f' := Files(s.v), Files(Last(s, tr).v);
      (i in f <==> i in f') && (i in f ==> f'[i] == f[i])
    decreases |tr|
  {
    if tr != [] {
      var (op, s') := tr[0];
      StepOk(s, op, s');
      FlatOther(Files(s.v), op, Files(s'.v), i);
      Rest(tr, i);
      FileIsolated(s', tr[1..], i);
    }
  }

  // ---------------------------------------------------------------------------------
  // What was written is read back
  // ---------------------------------------------------------------------------------

  /** Nothing in the run writes into `lo .. hi` of the file, and the file is not deleted. */
  ghost predicate Quiet(s: Fs, tr: Trace, ino: nat, lo: nat, hi: nat)
    requires Run(s, tr)
    decreases |tr|
  {
    tr == [] ||
    (var (op, s') := tr[0];
     StepOk(s, op, s');
     && ino in s'.v.files
     && (op.Write? && op.ino == ino ==> hi <= op.offset || op.offset + |op.bytes| <= lo)
     && Quiet(s', tr[1..], ino, lo, hi))
  }

  predicate Shows(c: seq<Byte>, offset: nat, bytes: seq<Byte>) {
    offset + |bytes| <= |c| && forall p :: 0 <= p < |bytes| ==> c[offset + p] == bytes[p]
  }

  lemma ShownSlice(c: seq<Byte>, offset: nat, bytes: seq<Byte>)
    requires Shows(c, offset, bytes)
    ensures c[offset..offset + |bytes|] == bytes
  {
  }

  lemma FlatStays(f: map<nat, seq<Byte>>, op: Op, f': map<nat, seq<Byte>>, ino: nat, lo: nat, bytes: seq<Byte>)
    requires FlatStep(f, op, f') && ino in f && ino in f' && Shows(f[ino], lo, bytes)
    requires op.Write? && op.ino == ino ==> lo + |bytes| <= op.offset || op.offset + |op.bytes| <= lo
    ensures Shows(f'[ino], lo, bytes)
  {
    if op.ino != ino {
      FlatOther(f, op, f', ino);
    }
  }

  lemma {:induction false} BytesStay(s: Fs, tr: Trace, ino: nat, lo: nat, bytes: seq<Byte>)
    requires Run(s, tr) && Quiet(s, tr, ino, lo, lo + |bytes|)
    requires ino in s.v.files && Shows(Files(s.v)[ino], lo, bytes)
    ensures ino in Files(Last(s, tr).v) && Shows(Files(Last(s, tr).v)[ino], lo, bytes)
    decreases |tr|
  {
    if tr != [] {
      var (op, s') := tr[0];
      StepOk(s, op, s');
      FlatStays(Files(s.v), op, Files(s'.v), ino, lo, bytes);
      BytesStay(s', tr[1..], ino, lo, bytes);
    }
  }

  lemma ShownWindow(c: seq<Byte>, offset: nat, bytes: seq<Byte>)
    requires Shows(c, offset, bytes) && |c| < OFFSETS
    ensures Sum32(offset, |bytes|) <= |c| && Window(c, offset, |bytes|) == bytes
  {
    ShownSlice(c, offset, bytes);
  }

  /** `Store.ReadAt`. */
  ghost function ReadOf(s: Fs, ino: nat, offset: nat, size: nat): (r: ReadResult)
    requires ino in s.inodes
  {
    var c := Files(s.v)[ino];
    if s.inodes[ino].extending then Blocked
    else if Sum32(offset, size) > |c| then PastEnd
    else Got(Window(c, offset, size))
  }

  lemma ReadGets(s: Fs, ino: nat, offset: nat, bytes: seq<Byte>)
    requires ino in s.inodes && Shows(Files(s.v)[ino], offset, bytes)
    ensures ReadOf(s, ino, offset, |bytes|) == if s.inodes[ino].extending then Blocked else Got(bytes)
  {
    ShownWindow(Files(s.v)[ino], offset, bytes);
  }

  lemma FlatWritten(f: map<nat, seq<Byte>>, ino: nat, offset: nat, bytes: seq<Byte>, f': map<nat, seq<Byte>>)
    requires FlatStep(f, Write(ino, offset, bytes), f') && offset + |bytes| <= |f[ino]|
    ensures ino in f' && Shows(f'[ino], offset, bytes)
  {
  }

  /** A run that starts with a write inside the file: whatever other operations follow, a read
      of the same range returns the bytes written, until someone writes there again or deletes
      the file.  After a failed extension of the file it returns nothing. */
  lemma WrittenIsRead(s: Fs, tr: Trace, ino: nat, offset: nat, bytes: seq<Byte>)
    requires Run(s, tr) && tr != [] && tr[0].0 == Write(ino, offset, bytes)
    requires ino in s.v.files && offset + |bytes| <= |Files(s.v)[ino]|
    requires (StepOk(s, tr[0].0, tr[0].1); Quiet(tr[0].1, tr[1..], ino, offset, offset + |bytes|))
    requires ino in Last(s, tr).inodes
    ensures ReadOf(Last(s, tr), ino, offset, |bytes|) ==
      if Last(s, tr).inodes[ino].extending then Blocked else Got(bytes)
  {
    var (op, s') := tr[0];
    StepOk(s, op, s');
    FlatWritten(Files(s.v), ino, offset, bytes, Files(s'.v));
    BytesStay(s', tr[1..], ino, offset, bytes);
    ReadGets(Last(s, tr), ino, offset, bytes);
  }

  // ---------------------------------------------------------------------------------
  // The life of a file, by the operations alone
  // ---------------------------------------------------------------------------------

  /** Whether there is such a file, how often it is open, whether it was removed since, and whether the
      last attempt to extend it failed. */
  datatype Life = Life(there: bool, opens: nat, removed: bool, stuck: bool)

  function NextLife(l: Life, op: Op, ino: nat): (r: Life) {
    if op.ino != ino then l
    else
      match op
      case Create(_, _, ok) => if ok then Life(true, 0, false, false) else l
      case Open(_) => l.(opens := l.opens + 1)
      case Remove(_) => l.(removed := true)
      case Extend(_, _, ok) => l.(stuck := !ok)
      case Close(_) =>
        if l.opens > 1 then l.(opens := l.opens - 1) else Life(l.there && !l.removed, 0, false, false)
      case _ => l
  }

  function LifeAfter(l: Life, tr: Trace, ino: nat): (r: Life)
    decreases |tr|
  {
    if tr == [] then l else LifeAfter(NextLife(l, tr[0].0, ino), tr[1..], ino)
  }

  function LifeIn(files: set<nat>, inodes: map<nat, OpenInode>, ino: nat): (l: Life) {
    if ino in inodes then Life(ino in files, inodes[ino].openCnt, inodes[ino].removed, inodes[ino].extending)
    else Life(ino in files, 0, false, false)
  }

  ghost function LifeAt(s: State, ino: nat): (l: Life) { LifeIn(s.v.files.Keys, s.inodes, ino) }

  /** What an operation does to the set of files and the inodes in memory. */
  predicate TableStep(files: set<nat>, inodes: map<nat, OpenInode>, op: Op, files': set<nat>,
                      inodes': map<nat, OpenInode>) {
    match op
    case Create(ino, _, ok) =>
      inodes' == inodes && if ok then ino !in inodes && files' == files + {ino} else files' == files
    case Open(ino) =>
      && files' == files && ino in inodes'
      && inodes' == inodes[ino := inodes'[ino]]
      && inodes'[ino].removed == (ino in inodes && inodes[ino].removed)
      && inodes'[ino].extending == (ino in inodes && inodes[ino].extending)
      && inodes'[ino].openCnt == if ino in inodes then inodes[ino].openCnt + 1 else 1
    case Remove(ino) =>
      files' == files && ino in inodes && inodes' == inodes[ino := inodes[ino].(removed := true)]
    case Close(ino) =>
      && ino in inodes
      && if inodes[ino].openCnt > 1 then
           files' == files && inodes' == inodes[ino := inodes[ino].(openCnt := inodes[ino].openCnt - 1)]
         else files' == (if inodes[ino].removed then files - {ino} else files) && inodes' == inodes - {ino}
    case Extend(ino, _, ok) =>
      && files' == files && ino in inodes && ino in inodes' && inodes' == inodes[ino := inodes'[ino]]
      && inodes'[ino].removed == inodes[ino].removed && inodes'[ino].openCnt == inodes[ino].openCnt
      && inodes'[ino].extending == !ok
    case _ => files' == files && inodes' == inodes
  }

  lemma CreateTables(s: Fs, ino: nat, length: nat, ok: bool, s': State)
    requires CreateStep(s, ino, length, ok, s')
    ensures TableStep(s.v.files.Keys, s.inodes, Create(ino, length, ok), s'.v.files.Keys, s'.inodes)
  {
    if ok {
      CreateStepOk(s, ino, length, ok, s');
      assert ino !in Files(s.v);
    }
  }

  lemma OpenTables(s: Fs, ino: nat, s': State)
    requires Opens(s, ino, s')
    ensures TableStep(s.v.files.Keys, s.inodes, Open(ino), s'.v.files.Keys, s'.inodes)
  {
  }

  lemma ExtendedTables(s: Fs, ino: nat, length: nat, s': State, data: seq<nat>, index: seq<nat>)
    requires Extends(s, ino, s', data, index)
    ensures TableStep(s.v.files.Keys, s.inodes, Extend(ino, length, true), s'.v.files.Keys, s'.inodes)
  {
  }

  lemma UnextendedTables(s: Fs, ino: nat, length: nat, s': State, data: seq<nat>)
    requires FailsToExtend(s, ino, s', data)
    ensures TableStep(s.v.files.Keys, s.inodes, Extend(ino, length, false), s'.v.files.Keys, s'.inodes)
  {
  }

  lemma ExtendTables(s: Fs, ino: nat, length: nat, ok: bool, s': State)
    requires ExtendStep(s, ino, length, ok, s')
    ensures TableStep(s.v.files.Keys, s.inodes, Extend(ino, length, ok), s'.v.files.Keys, s'.inodes)
  {
    if ok {
      var data, index :| Extends(s, ino, s', data, index) && s'.v.files[ino].length == length;
      ExtendedTables(s, ino, length, s', data, index);
    } else {
      var data :| FailsToExtend(s, ino, s', data);
      UnextendedTables(s, ino, length, s', data);
    }
  }

  lemma CloseTables(s: Fs, ino: nat, s': State)
    requires Leaves(s, ino, s') || Closes(s, ino, s')
    ensures TableStep(s.v.files.Keys, s.inodes, Close(ino), s'.v.files.Keys, s'.inodes)
  {
  }

  lemma StepTables(s: Fs, op: Op, s': State)
    requires Step(s, op, s')
    ensures TableStep(s.v.files.Keys, s.inodes, op, s'.v.files.Keys, s'.inodes)
  {
    match op
    case Create(ino, length, ok) => CreateTables(s, ino, length, ok, s');
    case Open(ino) => OpenTables(s, ino, s');
    case Extend(ino, length, ok) => ExtendTables(s, ino, length, ok, s');
    case Close(ino) => CloseTables(s, ino, s');
    case _ =>
  }

  lemma TableLife(files: set<nat>, inodes: map<nat, OpenInode>, op: Op, files': set<nat>,
                  inodes': map<nat, OpenInode>, ino: nat)
    requires TableStep(files, inodes, op, files', inodes')
    ensures LifeIn(files', inodes', ino) == NextLife(LifeIn(files, inodes, ino), op, ino)
  {
  }

  lemma LifeStep(s: Fs, op: Op, s': State, ino: nat)
    requires Step(s, op, s')
    ensures LifeAt(s', ino) == NextLife(LifeAt(s, ino), op, ino)
  {
    StepTables(s, op, s');
    TableLife(s.v.files.Keys, s.inodes, op, s'.v.files.Keys, s'.inodes, ino);
  }

  /** After every run the files there are, the times they are open and the marks are those that the
      operations of the run call for. */
  lemma {:induction false} LivesByOperations(s: Fs, tr: Trace, ino: nat)
    requires Run(s, tr)
    ensures LifeAt(Last(s, tr), ino) == LifeAfter(LifeAt(s, ino), tr, ino)
    decreases |tr|
  {
    if tr != [] {
      var (op, s') := tr[0];
      StepOk(s, op, s');
      LifeStep(s, op, s', ino);
      LivesByOperations(s', tr[1..], ino);
    }
  }

  predicate NoCreation(tr: Trace, ino: nat) {
    forall i :: 0 <= i < |tr| ==> !(tr[i].0.Create? && tr[i].0.ok && tr[i].0.ino == ino)
  }

  predicate NoRemoval(tr: Trace, ino: nat) { forall i :: 0 <= i < |tr| ==> tr[i].0 != Remove(ino) }

  lemma RestToo(tr: Trace, ino: nat)
    requires tr != []
    ensures NoCreation(tr, ino) ==> NoCreation(tr[1..], ino)
    ensures NoRemoval(tr, ino) ==> NoRemoval(tr[1..], ino)
  {
    assert forall i :: 0 <= i < |tr[1..]| ==> tr[1..][i] == tr[i + 1];
  }

  /** The file is gone, or goes with its last close. */
  ghost predicate Goes(s: State, ino: nat) {
    if ino in s.inodes then s.inodes[ino].removed else ino !in s.v.files
  }

  lemma GoesOn(s: Fs, op: Op, s': State, ino: nat)
    requires Step(s, op, s') && Goes(s, ino) && !(op.Create? && op.ok && op.ino == ino)
    ensures Goes(s', ino)
  {
    LifeStep(s, op, s', ino);
  }

  lemma {:induction false} StillGoes(s: Fs, tr: Trace, ino: nat)
    requires Run(s, tr) && Goes(s, ino) && NoCreation(tr, ino)
    ensures Goes(Last(s, tr), ino)
    decreases |tr|
  {
    if tr != [] {
      var (op, s') := tr[0];
      StepOk(s, op, s');
      GoesOn(s, op, s', ino);
      RestToo(tr, ino);
      StillGoes(s', tr[1..], ino);
    }
  }

  /** A file that was removed, at any moment of a run, and that nobody has open any more is deleted,
      unless it was created again. */
  lemma {:induction false} RemovedIsDeleted(s: Fs, tr: Trace, i: nat, ino: nat)
    requires Run(s, tr) && i < |tr| && tr[i].0 == Remove(ino) && NoCreation(tr[i..], ino)
    requires ino !in Last(s, tr).inodes
    ensures ino !in Last(s, tr).v.files
    decreases |tr|
  {
    var (op, s') := tr[0];
    StepOk(s, op, s');
    if i == 0 {
      assert tr[0..] == tr;
      RestToo(tr, ino);
      LifeStep(s, op, s', ino);
      StillGoes(s', tr[1..], ino);
    } else {
      assert tr[1..][i - 1..] == tr[i..];
      RemovedIsDeleted(s', tr[1..], i - 1, ino);
    }
  }

  lemma KeptOn(s: Fs, op: Op, s': State, ino: nat)
    requires Step(s, op, s') && op != Remove(ino) && LifeAt(s, ino).there && !LifeAt(s, ino).removed
    ensures LifeAt(s', ino).there && !LifeAt(s', ino).removed
  {
    LifeStep(s, op, s', ino);
  }

  /** A file that nobody removes stays. */
  lemma {:induction false} KeptStays(s: Fs, tr: Trace, ino: nat)
    requires Run(s, tr) && NoRemoval(tr, ino) && LifeAt(s, ino).there && !LifeAt(s, ino).removed
    ensures ino in Last(s, tr).v.files
    decreases |tr|
  {
    if tr != [] {
      var (op, s') := tr[0];
      StepOk(s, op, s');
      KeptOn(s, op, s', ino);
      RestToo(tr, ino);
      KeptStays(s', tr[1..], ino);
    }
  }

  // ---------------------------------------------------------------------------------
  // Sectors are conserved
  // ---------------------------------------------------------------------------------

  /** Without a failed allocation no sector is ever lost. */
  lemma {:induction false} NothingLost(s: Fs, tr: Trace)
    requires Run(s, tr) && NoFailure(tr)
    ensures Last(s, tr).v.unowned == s.v.unowned && |Last(s, tr).v.used| == |s.v.used|
    decreases |tr|
  {
    if tr != [] {
      var (op, s') := tr[0];
      StepOk(s, op, s');
      Rest(tr, op.ino);
      NothingLost(s', tr[1..]);
    }
  }

  lemma {:induction false} OtherSectorsStay(s: Fs, tr: Trace, ino: nat)
    requires Run(s, tr) && OnlyOn(tr, ino)
    ensures Books(Last(s, tr).v) - {ino} == Books(s.v) - {ino}
    decreases |tr|
  {
    if tr != [] {
      var (op, s') := tr[0];
      StepOk(s, op, s');
      Rest(tr, ino);
      OtherSectorsStay(s', tr[1..], ino);
    }
  }

  lemma MinusAbsent<T>(m: map<nat, T>, ino: nat)
    requires ino !in m
    ensures m - {ino} == m
  {
  }

  /** A file that is created, grown and written in any way, and then removed and closed for
      the last time leaves the free map exactly as it found it. */
  lemma FreeMapRestored(s: Fs, tr: Trace, ino: nat)
    requires Run(s, tr) && NoFailure(tr) && OnlyOn(tr, ino)
    requires ino !in s.v.files && ino !in Last(s, tr).v.files
    ensures Last(s, tr).v.used == s.v.used
  {
    var s' := Last(s, tr);
    NothingLost(s, tr);
    OtherSectorsStay(s, tr, ino);
    MinusAbsent(Books(s.v), ino);
    MinusAbsent(Books(s'.v), ino);
    SameMap(s.v.used, s'.v.used, Books(s.v), s.v.unowned);
  }
}
