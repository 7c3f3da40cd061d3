/**
 Who may use an open inode when: readers, writers, one extender, and file handles that deny
 writes.  A step is a section of code that holds the inode's lock, or the time between two of them
 that matters; a sleeping thread is one in `cond_wait`, and a broadcast lets it look again.
 */
module InodeProtocol {
  import opened Semaphores
  import opened Sequences

  type HandleId = nat

  datatype Place =
    | Idle
    | ReadCheck(end: int)    // in the loop of inode_read_at, about to look at both conditions
    | ReadSleepExtending(end: int)
    | ReadMiddle(end: int)   // woken, about to look at the second condition only
    | ReadSleepWriters(end: int)
    | Reading
    | WriteCheck(end: int)   // in the loop of inode_write_at, having announced itself
    | WriteSleep(end: int)
    | Extending(end: int)    // in allocate_file, without the lock
    | Writing(end: int)
    | DenyCheck(h: HandleId)
    | DenySleep(h: HandleId)

  /** A handle is `Denying` from when `file_deny_write` sets its flag until the inode counts it. */
  datatype Handle = Allowing | Denying(t: Tid) | Denied

  /** `count` is `deny_write_cnt`. */
  datatype State = State(count: int, extending: bool, length: int, at: map<Tid, Place>, handles: map<HandleId, Handle>)

  datatype Action =
    | Open(t: Tid, h: HandleId)
    | Close(t: Tid, h: HandleId)
    | Read(t: Tid, end: int)
    | ReadTurn(t: Tid)
    | ReadTurnTwo(t: Tid)
    | ReadDone(t: Tid)
    | Write(t: Tid, end: int)
    | WriteTurn(t: Tid)
    | ExtendDone(t: Tid)
    | ExtendFails(t: Tid)
    | WriteDone(t: Tid)
    | Deny(t: Tid, h: HandleId)
    | DenyTurn(t: Tid)
    | Allow(t: Tid, h: HandleId)

  // ---------------------------------------------------------------------------------
  // Steps
  // ---------------------------------------------------------------------------------

  predicate Enabled(st: State, a: Action) {
    a.t in st.at &&
    match a
    case Open(t, h) => st.at[t] == Idle && h !in st.handles
    case Close(t, h) => st.at[t] == Idle && h in st.handles && !st.handles[h].Denying?
    case Read(t, _) => st.at[t] == Idle
    case ReadTurn(t) => st.at[t].ReadCheck?
    case ReadTurnTwo(t) => st.at[t].ReadMiddle?
    case ReadDone(t) => st.at[t] == Reading
    case Write(t, _) => st.at[t] == Idle
    case WriteTurn(t) => st.at[t].WriteCheck?
    case ExtendDone(t) => st.at[t].Extending?
    case ExtendFails(t) => st.at[t].Extending?
    case WriteDone(t) => st.at[t].Writing?
    case Deny(t, h) => st.at[t] == Idle && h in st.handles && !st.handles[h].Denying?
    case DenyTurn(t) => st.at[t].DenyCheck?
    case Allow(t, h) => st.at[t] == Idle && h in st.handles && !st.handles[h].Denying?
  }

  function Move(st: State, t: Tid, p: Place): (r: State) { st.(at := st.at[t := p]) }

  function WakeExtending(p: Place): (r: Place) {
    match p
    case ReadSleepExtending(e) => ReadMiddle(e)
    case WriteSleep(e) => WriteCheck(e)
    case _ => p
  }

  function WakeWriters(p: Place): (r: Place) {
    match p
    case ReadSleepWriters(e) => ReadCheck(e)
    case DenySleep(h) => DenyCheck(h)
    case _ => p
  }

  /** `cond_broadcast` on `until_not_extending`, and on `until_no_writers`. */
  function BroadcastNotExtending(at: map<Tid, Place>): (r: map<Tid, Place>) {
    map t | t in at :: WakeExtending(at[t])
  }

  function BroadcastNoWriters(at: map<Tid, Place>): (r: map<Tid, Place>) {
    map t | t in at :: WakeWriters(at[t])
  }

  /** A turn of the wait loop of `inode_read_at`, for a read that ends at `end`. */
  function ReadNext(st: State, end: int): (p: Place) {
    if st.extending then ReadSleepExtending(end)
    else if st.count < 0 then ReadSleepWriters(end)
    else if end > st.length then Idle
    else Reading
  }

  function AllowOnce(st: State, h: HandleId): (r: State)
    requires h in st.handles
  {
    if st.handles[h] == Denied then st.(count := st.count - 1, handles := st.handles[h := Allowing]) else st
  }

  function WriteDoneOnce(st: State, t: Tid): (r: State) {
    var at := st.at[t := Idle];
    st.(count := st.count + 1, at := if st.count + 1 == 0 then BroadcastNoWriters(at) else at)
  }

  function Apply(st: State, a: Action): (r: State)
    requires Enabled(st, a)
  {
    match a
    case Open(t, h) => st.(handles := st.handles[h := Allowing])
    case Close(t, h) => var r := AllowOnce(st, h); r.(handles := r.handles - {h})
    case Read(t, end) => Move(st, t, ReadCheck(end))
    case ReadTurn(t) => Move(st, t, ReadNext(st, st.at[t].end))
    case ReadTurnTwo(t) =>
      Move(st, t, if st.count < 0 then ReadSleepWriters(st.at[t].end) else ReadCheck(st.at[t].end))
    case ReadDone(t) => Move(st, t, Idle)
    case Write(t, end) => if st.count > 0 then st else Move(st.(count := st.count - 1), t, WriteCheck(end))
    case WriteTurn(t) =>
      var end := st.at[t].end;
      if st.extending then Move(st, t, WriteSleep(end))
      else if end > st.length then Move(st.(extending := true), t, Extending(end))
      else Move(st, t, Writing(end))
    case ExtendDone(t) =>
      var end := st.at[t].end;
      st.(length := end, extending := false, at := BroadcastNotExtending(st.at[t := Writing(end)]))
    case ExtendFails(t) => Move(st, t, Writing(st.at[t].end))
    case WriteDone(t) => WriteDoneOnce(st, t)
    case Deny(t, h) =>
      if st.handles[h] == Denied then st else Move(st.(handles := st.handles[h := Denying(t)]), t, DenyCheck(h))
    case DenyTurn(t) =>
      var h := st.at[t].h;
      if st.count < 0 then Move(st, t, DenySleep(h))
      else Move(st.(count := st.count + 1, handles := st.handles[h := Denied]), t, Idle)
    case Allow(t, h) => AllowOnce(st, h)
  }

  // ---------------------------------------------------------------------------------
  // The invariant
  // ---------------------------------------------------------------------------------

  predicate Writes(p: Place) { p.WriteCheck? || p.WriteSleep? || p.Extending? || p.Writing? }

  ghost function Writers(at: map<Tid, Place>): (w: set<Tid>) { set t | t in at && Writes(at[t]) }

  ghost function Extenders(at: map<Tid, Place>): (e: set<Tid>) { set t | t in at && at[t].Extending? }

  ghost function Deniers(handles: map<HandleId, Handle>): (d: set<HandleId>) {
    set h | h in handles && handles[h] == Denied
  }

  /** The count is the number of handles that deny minus the number of threads that write, and never
      are there both. */
  ghost predicate CountOk(st: State) {
    && st.count == |Deniers(st.handles)| - |Writers(st.at)|
    && (Deniers(st.handles) == {} || Writers(st.at) == {})
  }

  /** At most one thread extends, beyond the current end, and the flag is up while it does. */
  ghost predicate ExtendOk(st: State) {
    |Extenders(st.at)| <= 1 && forall t :: t in Extenders(st.at) ==> st.extending && st.at[t].end > st.length
  }

  /** Nobody sleeps whose condition has come true. */
  predicate SleepOk(st: State, p: Place) {
    match p
    case ReadSleepExtending(_) => st.extending
    case WriteSleep(_) => st.extending
    case ReadSleepWriters(_) => st.count < 0
    case DenySleep(h) => st.count < 0
    case _ => true
  }

  /** A thread about to deny is the one its handle is waiting for. */
  predicate DenyOk(handles: map<HandleId, Handle>, t: Tid, p: Place) {
    p.DenyCheck? || p.DenySleep? ==> p.h in handles && handles[p.h] == Denying(t)
  }

  ghost predicate Inv(st: State) {
    CountOk(st) && ExtendOk(st) && forall t :: t in st.at ==> SleepOk(st, st.at[t]) && DenyOk(st.handles, t, st.at[t])
  }

  // ---------------------------------------------------------------------------------
  // Every step keeps it
  // ---------------------------------------------------------------------------------

  lemma WritersAfter(at: map<Tid, Place>, t: Tid, p: Place)
    ensures Writers(at[t := p]) == if Writes(p) then Writers(at) + {t} else Writers(at) - {t}
  {
  }

  lemma ExtendersAfter(at: map<Tid, Place>, t: Tid, p: Place)
    ensures Extenders(at[t := p]) == if p.Extending? then Extenders(at) + {t} else Extenders(at) - {t}
  {
  }

  lemma DeniersAfter(handles: map<HandleId, Handle>, h: HandleId, x: Handle)
    ensures Deniers(handles[h := x]) == if x == Denied then Deniers(handles) + {h} else Deniers(handles) - {h}
  {
  }

  lemma WritersSame(at: map<Tid, Place>, t: Tid, p: Place)
    requires t in at && Writes(p) == Writes(at[t])
    ensures Writers(at[t := p]) == Writers(at)
  {
  }

  lemma ExtendersSame(at: map<Tid, Place>, t: Tid, p: Place)
    requires t in at && !p.Extending? && !at[t].Extending?
    ensures Extenders(at[t := p]) == Extenders(at)
  {
  }

  lemma DeniersSame(handles: map<HandleId, Handle>, h: HandleId, x: Handle)
    requires x != Denied && (h in handles ==> handles[h] != Denied)
    ensures Deniers(handles[h := x]) == Deniers(handles)
  {
  }

  /** A broadcast changes neither who writes nor who extends. */
  lemma BroadcastKeeps(at: map<Tid, Place>)
    ensures Writers(BroadcastNotExtending(at)) == Writers(at) && Extenders(BroadcastNotExtending(at)) == Extenders(at)
    ensures Writers(BroadcastNoWriters(at)) == Writers(at) && Extenders(BroadcastNoWriters(at)) == Extenders(at)
  {
  }

  /** A move that changes neither who writes nor who extends. */
  lemma PlainMove(st: State, t: Tid, p: Place)
    requires Inv(st) && t in st.at && Writes(p) == Writes(st.at[t]) && !p.Extending? && !st.at[t].Extending?
    requires SleepOk(st, p) && DenyOk(st.handles, t, p)
    ensures Inv(Move(st, t, p))
  {
    WritersSame(st.at, t, p);
    ExtendersSame(st.at, t, p);
  }

  lemma ReadTurnKeeps(st: State, t: Tid)
    requires Inv(st) && Enabled(st, ReadTurn(t))
    ensures Inv(Apply(st, ReadTurn(t)))
  {
    PlainMove(st, t, ReadNext(st, st.at[t].end));
  }

  /** A thread announces that it writes. */
  lemma WriteKeeps(st: State, t: Tid, end: int)
    requires Inv(st) && Enabled(st, Write(t, end)) && st.count <= 0
    ensures Inv(Apply(st, Write(t, end)))
  {
    var p := WriteCheck(end);
    WritersAfter(st.at, t, p);
    ExtendersSame(st.at, t, p);
    assert t !in Writers(st.at);
    assert Deniers(st.handles) == {};
  }

  lemma StartExtending(st: State, t: Tid)
    requires Inv(st) && Enabled(st, WriteTurn(t)) && !st.extending && st.at[t].end > st.length
    ensures Inv(Apply(st, WriteTurn(t)))
  {
    var p := Extending(st.at[t].end);
    WritersSame(st.at, t, p);
    ExtendersAfter(st.at, t, p);
    assert Extenders(st.at) == {};
  }

  lemma WriteTurnKeeps(st: State, t: Tid)
    requires Inv(st) && Enabled(st, WriteTurn(t))
    ensures Inv(Apply(st, WriteTurn(t)))
  {
    if st.extending {
      PlainMove(st, t, WriteSleep(st.at[t].end));
    } else if st.at[t].end > st.length {
      StartExtending(st, t);
    } else {
      PlainMove(st, t, Writing(st.at[t].end));
    }
  }

  /** The only extender stops extending. */
  lemma NoExtender(st: State, t: Tid, p: Place)
    requires Inv(st) && t in st.at && st.at[t].Extending? && p.Writing?
    ensures Extenders(st.at[t := p]) == {} && Writers(st.at[t := p]) == Writers(st.at)
  {
    WritersSame(st.at, t, p);
    ExtendersAfter(st.at, t, p);
    assert t in Extenders(st.at);
    assert |Extenders(st.at) - {t}| == 0;
  }

  lemma ExtendDoneKeeps(st: State, t: Tid)
    requires Inv(st) && Enabled(st, ExtendDone(t))
    ensures Inv(Apply(st, ExtendDone(t)))
  {
    NoExtender(st, t, Writing(st.at[t].end));
    BroadcastKeeps(st.at[t := Writing(st.at[t].end)]);
  }

  lemma ExtendFailsKeeps(st: State, t: Tid)
    requires Inv(st) && Enabled(st, ExtendFails(t))
    ensures Inv(Apply(st, ExtendFails(t)))
  {
    NoExtender(st, t, Writing(st.at[t].end));
  }

  lemma WriteDoneCounts(st: State, t: Tid)
    requires Inv(st) && Enabled(st, WriteDone(t))
    ensures CountOk(WriteDoneOnce(st, t)) && ExtendOk(WriteDoneOnce(st, t))
  {
    WritersAfter(st.at, t, Idle);
    ExtendersSame(st.at, t, Idle);
    BroadcastKeeps(st.at[t := Idle]);
    assert t in Writers(st.at) && Deniers(st.handles) == {};
  }

  lemma WriteDoneKeeps(st: State, t: Tid)
    requires Inv(st) && Enabled(st, WriteDone(t))
    ensures Inv(Apply(st, WriteDone(t)))
  {
    WriteDoneCounts(st, t);
  }

  lemma DenyKeeps(st: State, t: Tid, h: HandleId)
    requires Inv(st) && Enabled(st, Deny(t, h)) && st.handles[h] == Allowing
    ensures Inv(Apply(st, Deny(t, h)))
  {
    WritersSame(st.at, t, DenyCheck(h));
    ExtendersSame(st.at, t, DenyCheck(h));
    DeniersSame(st.handles, h, Denying(t));
  }

  lemma DenyCounts(st: State, t: Tid, h: HandleId)
    requires Inv(st) && Enabled(st, DenyTurn(t)) && st.count >= 0 && h == st.at[t].h
    ensures h in st.handles && st.handles[h] == Denying(t) && Writers(st.at[t := Idle]) == {}
    ensures |Deniers(st.handles[h := Denied])| == |Deniers(st.handles)| + 1
  {
    assert DenyOk(st.handles, t, st.at[t]);
    WritersSame(st.at, t, Idle);
    DeniersAfter(st.handles, h, Denied);
    assert Writers(st.at) == {};
    assert h !in Deniers(st.handles);
  }

  lemma DenyTurnKeeps(st: State, t: Tid)
    requires Inv(st) && Enabled(st, DenyTurn(t))
    ensures Inv(Apply(st, DenyTurn(t)))
  {
    if st.count < 0 {
      assert DenyOk(st.handles, t, st.at[t]);
      PlainMove(st, t, DenySleep(st.at[t].h));
    } else {
      DenyCounts(st, t, st.at[t].h);
      ExtendersSame(st.at, t, Idle);
    }
  }

  lemma AllowKeeps(st: State, h: HandleId)
    requires Inv(st) && h in st.handles && !st.handles[h].Denying?
    ensures Inv(AllowOnce(st, h)) && AllowOnce(st, h).handles[h] == Allowing
  {
    if st.handles[h] == Denied {
      DeniersAfter(st.handles, h, Allowing);
      assert h in Deniers(st.handles);
    }
  }

  lemma DropHandle(st: State, h: HandleId)
    requires Inv(st) && h in st.handles && st.handles[h] == Allowing
    ensures Inv(st.(handles := st.handles - {h}))
  {
    assert Deniers(st.handles - {h}) == Deniers(st.handles);
  }

  lemma OpenKeeps(st: State, h: HandleId)
    requires Inv(st) && h !in st.handles
    ensures Inv(st.(handles := st.handles[h := Allowing]))
  {
    DeniersSame(st.handles, h, Allowing);
  }

  lemma StepKeeps(st: State, a: Action)
    requires Inv(st) && Enabled(st, a)
    ensures Inv(Apply(st, a))
  {
    match a
    case Open(t, h) => OpenKeeps(st, h);
    case Close(t, h) => AllowKeeps(st, h); DropHandle(AllowOnce(st, h), h);
    case Read(t, end) => PlainMove(st, t, ReadCheck(end));
    case ReadTurn(t) => ReadTurnKeeps(st, t);
    case ReadTurnTwo(t) =>
      PlainMove(st, t, if st.count < 0 then ReadSleepWriters(st.at[t].end) else ReadCheck(st.at[t].end));
    case ReadDone(t) => PlainMove(st, t, Idle);
    case Write(t, end) => if st.count <= 0 { WriteKeeps(st, t, end); }
    case WriteTurn(t) => WriteTurnKeeps(st, t);
    case ExtendDone(t) => ExtendDoneKeeps(st, t);
    case ExtendFails(t) => ExtendFailsKeeps(st, t);
    case WriteDone(t) => WriteDoneKeeps(st, t);
    case Deny(t, h) => if st.handles[h] == Allowing { DenyKeeps(st, t, h); }
    case DenyTurn(t) => DenyTurnKeeps(st, t);
    case Allow(t, h) => AllowKeeps(st, h);
  }

  // ---------------------------------------------------------------------------------
  // Runs
  // ---------------------------------------------------------------------------------

  type Sound = st: State | Inv(st) ghost witness State(0, false, 0, map[], map[])

  ghost function After(st: Sound, a: Action): (r: Sound)
    requires Enabled(st, a)
  {
    StepKeeps(st, a);
    Apply(st, a)
  }

  ghost predicate Possible(st: Sound, run: seq<Action>)
    decreases |run|
  {
    run == [] || (Enabled(st, run[0]) && Possible(After(st, run[0]), run[1..]))
  }

  ghost function Final(st: Sound, run: seq<Action>): (r: Sound)
    requires Possible(st, run)
    decreases |run|
  {
    if run == [] then st else Final(After(st, run[0]), run[1..])
  }

  /** In no run does anybody write while a handle denies writing, and never do two threads extend. */
  lemma NeverBoth(st: Sound, run: seq<Action>)
    requires Possible(st, run)
    ensures var r := Final(st, run);
      && r.count == |Deniers(r.handles)| - |Writers(r.at)|
      && (|Deniers(r.handles)| == 0 || |Writers(r.at)| == 0)
      && |Extenders(r.at)| <= 1
  {
    var r := Final(st, run);
    assert Inv(r);
  }

  /** The assertions of `inode_allow_write` and `inode_deny_write` hold: a handle that denies is
      counted, and no more denials are counted than handles are open. */
  lemma AssertionsHold(st: Sound, h: HandleId)
    requires h in st.handles && st.handles[h] == Denied
    ensures 0 < st.count <= |st.handles|
  {
    assert h in Deniers(st.handles);
    assert Writers(st.at) == {};
    SubsetSize(Deniers(st.handles), st.handles.Keys);
  }

  /** The length never decreases. */
  lemma {:induction false} LengthGrows(st: Sound, run: seq<Action>)
    requires Possible(st, run)
    ensures st.length <= Final(st, run).length
    decreases |run|
  {
    if run != [] {
      if run[0].ExtendDone? { assert run[0].t in Extenders(st.at); }
      LengthGrows(After(st, run[0]), run[1..]);
    }
  }

  /** The flag is up exactly while somebody extends. */
  ghost predicate Honest(st: State) { st.extending <==> Extenders(st.at) != {} }

  /** The flag is up, and nobody is left to take it down. */
  ghost predicate Stuck(st: State) { st.extending && Extenders(st.at) == {} }

  /** Past all waiting, reading or writing. */
  predicate AtIt(p: Place) { p.Reading? || p.Writing? }

  lemma StuckStays(st: Sound, a: Action)
    requires Stuck(st) && Enabled(st, a)
    ensures Stuck(After(st, a))
  {
    assert a.t !in Extenders(st.at);
    BroadcastKeeps(st.at[a.t := Idle]);
  }

  lemma NotLetIn(st: Sound, a: Action, t: Tid)
    requires Stuck(st) && Enabled(st, a) && t in st.at && !AtIt(st.at[t])
    ensures t in After(st, a).at && !AtIt(After(st, a).at[t])
  {
    assert a.t !in Extenders(st.at);
  }

  lemma HonestStays(st: Sound, a: Action)
    requires Honest(st) && Enabled(st, a)
    ensures if a.ExtendFails? then Stuck(After(st, a)) else Honest(After(st, a))
  {
    var r := After(st, a);
    match a
    case ExtendFails(t) => NoExtender(st, t, Writing(st.at[t].end));
    case ExtendDone(t) => var p := Writing(st.at[t].end); NoExtender(st, t, p); BroadcastKeeps(st.at[t := p]);
    case WriteDone(t) => ExtendersSame(st.at, t, Idle); BroadcastKeeps(st.at[t := Idle]);
    case WriteTurn(t) =>
      if !st.extending && st.at[t].end > st.length {
        assert t in Extenders(r.at);
      } else {
        ExtendersSame(st.at, t, r.at[t]);
      }
    case Read(t, end) => ExtendersSame(st.at, t, ReadCheck(end));
    case ReadTurn(t) => ExtendersSame(st.at, t, r.at[t]);
    case ReadTurnTwo(t) => ExtendersSame(st.at, t, r.at[t]);
    case ReadDone(t) => ExtendersSame(st.at, t, Idle);
    case Write(t, _) => ExtendersSame(st.at, t, r.at[t]);
    case Deny(t, _) => ExtendersSame(st.at, t, r.at[t]);
    case DenyTurn(t) => ExtendersSame(st.at, t, r.at[t]);
    case Open(_, _) =>
    case Close(_, _) =>
    case Allow(_, _) =>
  }

  function Failures(run: seq<Action>): (n: nat) {
    if run == [] then 0 else (if run[0].ExtendFails? then 1 else 0) + Failures(run[1..])
  }

  /** A failed extension leaves the flag up for good; nothing else does. */
  lemma {:induction false} StuckExactly(st: Sound, run: seq<Action>)
    requires Possible(st, run) && (Honest(st) || Stuck(st))
    ensures Stuck(Final(st, run)) <==> Stuck(st) || Failures(run) > 0
    ensures !Stuck(Final(st, run)) ==> Honest(Final(st, run))
    decreases |run|
  {
    if run != [] {
      if Stuck(st) { StuckStays(st, run[0]); } else { HonestStays(st, run[0]); }
      StuckExactly(After(st, run[0]), run[1..]);
    }
  }

  /** And then no thread gets to read or write the inode any more that was not at it already. */
  lemma {:induction false} NobodyGetsThrough(st: Sound, run: seq<Action>, t: Tid)
    requires Possible(st, run) && Stuck(st) && t in st.at && !AtIt(st.at[t])
    ensures t in Final(st, run).at && !AtIt(Final(st, run).at[t])
    decreases |run|
  {
    if run != [] {
      StuckStays(st, run[0]);
      NotLetIn(st, run[0], t);
      NobodyGetsThrough(After(st, run[0]), run[1..], t);
    }
  }

  /** As long as no extension fails, a thread in a wait loop gets on as soon as it can: whoever
      sleeps waits for a thread that is still at work. */
  lemma SleepersWaitForSomebody(st: Sound, t: Tid) returns (u: Tid)
    requires Honest(st) && t in st.at &&
      (st.at[t].ReadSleepExtending? || st.at[t].WriteSleep? || st.at[t].ReadSleepWriters? || st.at[t].DenySleep?)
    ensures u in st.at && Writes(st.at[u])
    ensures st.at[t].ReadSleepExtending? || st.at[t].WriteSleep? ==> st.at[u].Extending?
  {
    assert SleepOk(st, st.at[t]);
    if st.at[t].ReadSleepExtending? || st.at[t].WriteSleep? {
      u :| u in Extenders(st.at);
    } else {
      assert Writers(st.at) != {};
      u :| u in Writers(st.at);
    }
  }

  lemma Prepend(st: Sound, a: Action, run: seq<Action>)
    requires Enabled(st, a) && Possible(After(st, a), run)
    ensures Possible(st, [a] + run) && Final(st, [a] + run) == Final(After(st, a), run)
    ensures Failures([a] + run) == (if a.ExtendFails? then 1 else 0) + Failures(run)
  {
    assert ([a] + run)[1..] == run;
  }

  predicate BothThere(st: State, t: Tid, u: Tid) { t in st.at && u in st.at && t != u }

  predicate Sleeps(st: State, t: Tid, u: Tid) {
    BothThere(st, t, u) && st.at[t] == Idle && st.at[u].ReadSleepExtending?
  }

  lemma ThenSleeps(st: Sound, t: Tid, u: Tid) returns (run: seq<Action>)
    requires BothThere(st, t, u) && st.extending && st.at[t] == Idle && st.at[u].ReadCheck?
    ensures Possible(st, run) && Sleeps(Final(st, run), t, u)
  {
    var rest := [];
    Prepend(st, ReadTurn(u), rest);
    run := [ReadTurn(u)] + rest;
  }

  lemma ThenReads(st: Sound, t: Tid, u: Tid, end: int) returns (run: seq<Action>)
    requires BothThere(st, t, u) && st.extending && st.at[t] == Idle && st.at[u] == Idle
    ensures Possible(st, run) && Sleeps(Final(st, run), t, u)
  {
    var rest := ThenSleeps(After(st, Read(u, end)), t, u);
    Prepend(st, Read(u, end), rest);
    run := [Read(u, end)] + rest;
  }

  lemma ThenDone(st: Sound, t: Tid, u: Tid, end: int) returns (run: seq<Action>)
    requires BothThere(st, t, u) && st.extending && st.at[t].Writing? && st.at[u] == Idle
    ensures Possible(st, run) && Sleeps(Final(st, run), t, u)
  {
    var rest := ThenReads(After(st, WriteDone(t)), t, u, end);
    Prepend(st, WriteDone(t), rest);
    run := [WriteDone(t)] + rest;
  }

  lemma ThenFails(st: Sound, t: Tid, u: Tid, end: int) returns (run: seq<Action>)
    requires BothThere(st, t, u) && st.extending && st.at[t].Extending? && st.at[u] == Idle
    ensures Possible(st, run) && Sleeps(Final(st, run), t, u) && Failures(run) > 0
  {
    var rest := ThenDone(After(st, ExtendFails(t)), t, u, end);
    Prepend(st, ExtendFails(t), rest);
    run := [ExtendFails(t)] + rest;
  }

  lemma ThenExtends(st: Sound, t: Tid, u: Tid, end: int) returns (run: seq<Action>)
    requires BothThere(st, t, u) && !st.extending && st.at[t].WriteCheck? && st.at[t].end > st.length &&
      st.at[u] == Idle
    ensures Possible(st, run) && Sleeps(Final(st, run), t, u) && Failures(run) > 0
  {
    var rest := ThenFails(After(st, WriteTurn(t)), t, u, end);
    Prepend(st, WriteTurn(t), rest);
    run := [WriteTurn(t)] + rest;
  }

  /** A run in which this happens, on any inode that nobody extends and no handle denies writes to: `t`
      writes past the end, the extension fails, and `u`, which reads after `t` is done, sleeps for good. */
  lemma FailureInput(st: Sound, t: Tid, u: Tid, end: int, to: int) returns (run: seq<Action>)
    requires BothThere(st, t, u) && st.at[t] == Idle && st.at[u] == Idle
    requires Honest(st) && st.count <= 0 && !st.extending && end > st.length
    ensures Possible(st, run) && Stuck(Final(st, run)) && Sleeps(Final(st, run), t, u)
  {
    var rest := ThenExtends(After(st, Write(t, end)), t, u, to);
    Prepend(st, Write(t, end), rest);
    run := [Write(t, end)] + rest;
    StuckExactly(st, run);
  }

  // ---------------------------------------------------------------------------------
  // Writes are inside the file
  // ---------------------------------------------------------------------------------

  predicate Inside(st: State, t: Tid) { t in st.at && st.at[t].Writing? ==> st.at[t].end <= st.length }

  lemma InsideStep(st: Sound, a: Action, t: Tid)
    requires Enabled(st, a) && Inside(st, t) && a != ExtendFails(t)
    ensures Inside(After(st, a), t)
  {
    if a.ExtendDone? { assert a.t in Extenders(st.at); }
  }

  /** A thread that copies its bytes finds the file long enough, unless its own extension has failed, */
  lemma {:induction false} WritesInside(st: Sound, run: seq<Action>, t: Tid)
    requires Possible(st, run) && Inside(st, t) && ExtendFails(t) !in run
    ensures Inside(Final(st, run), t)
    decreases |run|
  {
    if run != [] {
      InsideStep(st, run[0], t);
      WritesInside(After(st, run[0]), run[1..], t);
    }
  }

  /** and after that the file is too short. */
  lemma FailedIsOutside(st: Sound, t: Tid)
    requires Enabled(st, ExtendFails(t))
    ensures !Inside(After(st, ExtendFails(t)), t)
  {
    assert t in Extenders(st.at);
  }

  // ---------------------------------------------------------------------------------
  // Who is let in
  // ---------------------------------------------------------------------------------

  /** A read gets to the file if and only if nobody extends it or writes to it and the read ends inside it;
      it is refused if and only if only the last is missing. */
  lemma ReadLetIn(st: Sound, t: Tid)
    requires Enabled(st, ReadTurn(t)) && Honest(st)
    ensures var p := After(st, ReadTurn(t)).at[t]; var free := Extenders(st.at) == {} && Writers(st.at) == {};
      (p == Reading <==> free && st.at[t].end <= st.length) && (p == Idle <==> free && st.at[t].end > st.length)
  {
  }

  /** A write gets to the file if and only if nobody extends it and it is long enough, and begins to
      extend it if and only if only the last is missing. */
  lemma WriteLetIn(st: Sound, t: Tid)
    requires Enabled(st, WriteTurn(t)) && Honest(st)
    ensures var p, end := After(st, WriteTurn(t)).at[t], st.at[t].end;
      && (p == Writing(end) <==> Extenders(st.at) == {} && end <= st.length)
      && (p == Extending(end) <==> Extenders(st.at) == {} && end > st.length)
  {
  }

  /** A read begins, and a read or write that is done is over. */
  lemma BeginsAndEnds(st: Sound, t: Tid, end: int)
    ensures Enabled(st, Read(t, end)) ==> After(st, Read(t, end)).at == st.at[t := ReadCheck(end)]
    ensures Enabled(st, ReadDone(t)) ==> After(st, ReadDone(t)).at == st.at[t := Idle]
    ensures Enabled(st, WriteDone(t)) ==> After(st, WriteDone(t)).at[t] == Idle
  {
  }

  // ---------------------------------------------------------------------------------
  // Denials
  // ---------------------------------------------------------------------------------

  /** `file_deny_write` gets through exactly if nobody writes, and then the handle denies. */
  lemma DenyTakes(st: Sound, t: Tid)
    requires Enabled(st, DenyTurn(t))
    ensures var r, h := After(st, DenyTurn(t)), st.at[t].h;
      if Writers(st.at) == {} then r.at == st.at[t := Idle] && r.handles == st.handles[h := Denied]
      else r == Move(st, t, DenySleep(h)) && h in st.handles && st.handles[h] == Denying(t)
  {
    assert DenyOk(st.handles, t, st.at[t]);
  }

  lemma DenyBegins(st: Sound, t: Tid, h: HandleId)
    requires Enabled(st, Deny(t, h))
    ensures After(st, Deny(t, h)).at[t] == if st.handles[h] == Denied then Idle else DenyCheck(h)
  {
  }

  /** `file_allow_write` takes back the denial of its handle and no other. */
  lemma AllowUndoes(st: Sound, t: Tid, h: HandleId)
    requires Enabled(st, Allow(t, h))
    ensures var r := After(st, Allow(t, h));
      r.at == st.at && r.handles == st.handles[h := Allowing] && Deniers(r.handles) == Deniers(st.handles) - {h}
  {
    if st.handles[h] == Allowing { assert st.handles[h := Allowing] == st.handles; }
    DeniersAfter(st.handles, h, Allowing);
  }

  lemma CloseUndoes(st: Sound, t: Tid, h: HandleId)
    requires Enabled(st, Close(t, h))
    ensures var r := After(st, Close(t, h));
      r.at == st.at && r.handles == st.handles - {h} && Deniers(r.handles) == Deniers(st.handles) - {h}
  {
  }

  lemma DenialStays(st: Sound, a: Action, h: HandleId)
    requires Enabled(st, a) && h in st.handles && st.handles[h] == Denied
    requires !((a.Allow? || a.Close?) && a.h == h)
    ensures h in After(st, a).handles && After(st, a).handles[h] == Denied
  {
    if a.DenyTurn? { assert DenyOk(st.handles, a.t, st.at[a.t]); }
  }

  predicate KeepsDenial(run: seq<Action>, h: HandleId) {
    forall i :: 0 <= i < |run| ==> !((run[i].Allow? || run[i].Close?) && run[i].h == h)
  }

  /** As long as a handle denies, no write gets anywhere: until it allows again or is closed, nobody
      writes, and every write returns at once. */
  lemma {:induction false} DeniedMeansNoWrites(st: Sound, run: seq<Action>, h: HandleId, t: Tid, end: int)
    requires Possible(st, run) && h in st.handles && st.handles[h] == Denied && KeepsDenial(run, h)
    ensures var r := Final(st, run);
      h in r.handles && r.handles[h] == Denied && Writers(r.at) == {} &&
        (Enabled(r, Write(t, end)) ==> Apply(r, Write(t, end)) == r)
    decreases |run|
  {
    if run == [] {
      AssertionsHold(st, h);
      assert h in Deniers(st.handles);
    } else {
      DenialStays(st, run[0], h);
      assert forall i :: 0 <= i < |run[1..]| ==> run[1..][i] == run[i + 1];
      DeniedMeansNoWrites(After(st, run[0]), run[1..], h, t, end);
    }
  }

  /** And if no handle denies, every write is let in. */
  lemma WriteBegins(st: Sound, t: Tid, end: int)
    requires Enabled(st, Write(t, end)) && Deniers(st.handles) == {}
    ensures After(st, Write(t, end)).at == st.at[t := WriteCheck(end)]
  {
  }

  // ---------------------------------------------------------------------------------
  // Everyone can finish
  // ---------------------------------------------------------------------------------

  ghost function BusyOnes(at: map<Tid, Place>): (b: set<Tid>) { set t | t in at && at[t] != Idle }

  predicate IsCall(a: Action) { a.Open? || a.Close? || a.Read? || a.Write? || a.Deny? || a.Allow? }

  /** Nobody begins anything, and no extension fails. */
  predicate Finishing(run: seq<Action>) { forall i :: 0 <= i < |run| ==> !IsCall(run[i]) && !run[i].ExtendFails? }

  /** After the run thread `u` is idle, and whoever was idle still is. */
  ghost predicate Finishes(st: Sound, run: seq<Action>, u: Tid) {
    && Possible(st, run) && Finishing(run) && Honest(Final(st, run))
    && BusyOnes(Final(st, run).at) == BusyOnes(st.at) - {u}
  }

  lemma FinishAfter(st: Sound, a: Action, rest: seq<Action>, u: Tid) returns (run: seq<Action>)
    requires Enabled(st, a) && !IsCall(a) && !a.ExtendFails? && Finishes(After(st, a), rest, u)
    requires BusyOnes(After(st, a).at) == BusyOnes(st.at)
    ensures Finishes(st, run, u)
  {
    run := [a] + rest;
    Prepend(st, a, rest);
  }

  lemma FinishNow(st: Sound, a: Action, u: Tid) returns (run: seq<Action>)
    requires Enabled(st, a) && !IsCall(a) && !a.ExtendFails? && Honest(After(st, a))
    requires BusyOnes(After(st, a).at) == BusyOnes(st.at) - {u}
    ensures Finishes(st, run, u)
  {
    run := [a];
    Prepend(st, a, []);
    assert [a] + [] == run;
  }

  lemma BusyAfter(at: map<Tid, Place>, t: Tid, p: Place)
    requires t in at && at[t] != Idle
    ensures BusyOnes(at[t := p]) == if p == Idle then BusyOnes(at) - {t} else BusyOnes(at)
  {
  }

  lemma BusyBroadcast(at: map<Tid, Place>)
    ensures BusyOnes(BroadcastNotExtending(at)) == BusyOnes(at) == BusyOnes(BroadcastNoWriters(at))
  {
  }

  lemma WriterFinishes(st: Sound, u: Tid) returns (run: seq<Action>)
    requires Honest(st) && u in st.at && st.at[u].Writing?
    ensures Finishes(st, run, u)
  {
    HonestStays(st, WriteDone(u));
    BusyAfter(st.at, u, Idle);
    BusyBroadcast(st.at[u := Idle]);
    run := FinishNow(st, WriteDone(u), u);
  }

  lemma ExtendedStays(st: Sound, u: Tid)
    requires Honest(st) && u in st.at && st.at[u].Extending?
    ensures var r := After(st, ExtendDone(u));
      Honest(r) && BusyOnes(r.at) == BusyOnes(st.at) && u in r.at && r.at[u].Writing?
  {
    var p := Writing(st.at[u].end);
    HonestStays(st, ExtendDone(u));
    BusyAfter(st.at, u, p);
    BusyBroadcast(st.at[u := p]);
  }

  lemma ExtenderFinishes(st: Sound, u: Tid) returns (run: seq<Action>)
    requires Honest(st) && u in st.at && st.at[u].Extending?
    ensures Finishes(st, run, u)
  {
    ExtendedStays(st, u);
    var rest := WriterFinishes(After(st, ExtendDone(u)), u);
    run := FinishAfter(st, ExtendDone(u), rest, u);
  }

  lemma CheckerFinishes(st: Sound, u: Tid) returns (run: seq<Action>)
    requires Honest(st) && u in st.at && st.at[u].WriteCheck? && !st.extending
    ensures Finishes(st, run, u)
  {
    var r := After(st, WriteTurn(u));
    HonestStays(st, WriteTurn(u));
    BusyAfter(st.at, u, r.at[u]);
    var rest;
    if r.at[u].Extending? { rest := ExtenderFinishes(r, u); } else { rest := WriterFinishes(r, u); }
    run := FinishAfter(st, WriteTurn(u), rest, u);
  }

  lemma ReaderFinishes(st: Sound, u: Tid) returns (run: seq<Action>)
    requires Honest(st) && u in st.at && st.at[u] == Reading
    ensures Finishes(st, run, u)
  {
    HonestStays(st, ReadDone(u));
    BusyAfter(st.at, u, Idle);
    run := FinishNow(st, ReadDone(u), u);
  }

  lemma ReadCheckFinishes(st: Sound, u: Tid) returns (run: seq<Action>)
    requires Honest(st) && u in st.at && st.at[u].ReadCheck? && !st.extending && st.count >= 0
    ensures Finishes(st, run, u)
  {
    HonestStays(st, ReadTurn(u));
    if st.at[u].end > st.length {
      BusyAfter(st.at, u, Idle);
      run := FinishNow(st, ReadTurn(u), u);
    } else {
      BusyAfter(st.at, u, Reading);
      var rest := ReaderFinishes(After(st, ReadTurn(u)), u);
      run := FinishAfter(st, ReadTurn(u), rest, u);
    }
  }

  lemma ReadMiddleFinishes(st: Sound, u: Tid) returns (run: seq<Action>)
    requires Honest(st) && u in st.at && st.at[u].ReadMiddle? && !st.extending && st.count >= 0
    ensures Finishes(st, run, u)
  {
    HonestStays(st, ReadTurnTwo(u));
    BusyAfter(st.at, u, ReadCheck(st.at[u].end));
    var rest := ReadCheckFinishes(After(st, ReadTurnTwo(u)), u);
    run := FinishAfter(st, ReadTurnTwo(u), rest, u);
  }

  lemma DenierFinishes(st: Sound, u: Tid) returns (run: seq<Action>)
    requires Honest(st) && u in st.at && st.at[u].DenyCheck? && st.count >= 0
    ensures Finishes(st, run, u)
  {
    HonestStays(st, DenyTurn(u));
    BusyAfter(st.at, u, Idle);
    run := FinishNow(st, DenyTurn(u), u);
  }

  lemma NoWriters(st: Sound)
    requires st.count >= 0
    ensures Writers(st.at) == {}
  {
  }

  /** Somebody can finish: the extender, or else a writer, or else anybody. */
  lemma SomeoneFinishes(st: Sound) returns (u: Tid, run: seq<Action>)
    requires Honest(st) && BusyOnes(st.at) != {}
    ensures u in BusyOnes(st.at) && Finishes(st, run, u)
  {
    if st.extending {
      u :| u in Extenders(st.at);
      run := ExtenderFinishes(st, u);
    } else if st.count < 0 {
      assert Writers(st.at) != {};
      u :| u in Writers(st.at);
      assert SleepOk(st, st.at[u]) && u !in Extenders(st.at);
      if st.at[u].Writing? { run := WriterFinishes(st, u); } else { run := CheckerFinishes(st, u); }
    } else {
      u :| u in BusyOnes(st.at);
      assert SleepOk(st, st.at[u]) && u !in Extenders(st.at);
      NoWriters(st);
      assert u !in Writers(st.at);
      match st.at[u]
      case Reading => run := ReaderFinishes(st, u);
      case ReadCheck(_) => run := ReadCheckFinishes(st, u);
      case ReadMiddle(_) => run := ReadMiddleFinishes(st, u);
      case DenyCheck(_) => run := DenierFinishes(st, u);
    }
  }

  /** The run leads to `last`. */
  ghost predicate Leads(st: Sound, run: seq<Action>, last: Sound) { Possible(st, run) && Final(st, run) == last }

  lemma Unroll(st: Sound, run: seq<Action>, last: Sound) returns (next: Sound)
    requires run != [] && Leads(st, run, last)
    ensures Enabled(st, run[0]) && next == After(st, run[0]) && Leads(next, run[1..], last)
  {
    next := After(st, run[0]);
  }

  lemma Roll(st: Sound, a: Action, next: Sound, run: seq<Action>, last: Sound)
    requires Enabled(st, a) && next == After(st, a) && Leads(next, run, last)
    ensures Leads(st, [a] + run, last)
  {
    Prepend(st, a, run);
  }

  lemma FrontAgain(first: seq<Action>, rest: seq<Action>)
    requires first != []
    ensures [first[0]] + (first[1..] + rest) == first + rest
  {
  }

  lemma {:induction false} Append(st: Sound, first: seq<Action>, mid: Sound, rest: seq<Action>, last: Sound)
    requires Leads(st, first, mid) && Leads(mid, rest, last)
    ensures Leads(st, first + rest, last)
    decreases |first|
  {
    if first == [] {
      assert first + rest == rest;
    } else {
      var next := Unroll(st, first, mid);
      Append(next, first[1..], mid, rest, last);
      Roll(st, first[0], next, first[1..] + rest, last);
      FrontAgain(first, rest);
    }
  }

  /** As long as no extension has failed, everybody who is at the inode can finish, without anybody
      beginning anything else. */
  lemma {:induction false} EveryoneCanFinish(st: Sound) returns (run: seq<Action>)
    requires Honest(st)
    ensures Possible(st, run) && Finishing(run) && BusyOnes(Final(st, run).at) == {}
    decreases |BusyOnes(st.at)|
  {
    run := [];
    if BusyOnes(st.at) != {} {
      var u, first := SomeoneFinishes(st);
      var rest := EveryoneCanFinish(Final(st, first));
      run := first + rest;
      Append(st, first, Final(st, first), rest, Final(Final(st, first), rest));
    }
  }
}
