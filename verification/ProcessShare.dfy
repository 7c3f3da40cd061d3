/**
 How a parent learns its child's exit status: a record with a reference count of two, shared by
 `process_wait` or `process_exit` in the parent and `process_exit` in the child.  Each step touches
 the record once, and any process may run between any two steps.
 */
module ProcessShare {
  import opened Semaphores
  import opened Sequences

  datatype Holder = Nobody | Held(p: Tid)

  /** The record made for the child `c` is kept under the child's tid.  `parent` is the process that
      has it on its list. */
  datatype Share = Share(parent: Tid, lock: Holder, refcount: int, rvalue: int, sig: nat, freed: bool)

  /** Why a process gives up its reference: it has waited for the child, it exits before it has, or it
      is the child. */
  datatype Role = Waits | Abandons | Ends

  datatype Place =
    | Running
    | SigWait(c: Tid)                                        // in process_wait, in sema_down on sig
    | Locking(c: Tid, role: Role)
    | Locked(c: Tid, role: Role)                             // lock held, reference not given up yet
    | Storing(c: Tid)                                        // in exit_share, about to store the status
    | Raising(c: Tid)                                        // in exit_share, about to up sig
    | Unlocking(c: Tid, role: Role, last: bool, result: int)
    | Freeing(c: Tid, role: Role, result: int)
    | Exiting                                                // in the loop of process_exit
    | Gone

  datatype Process = Process(at: Place, children: seq<Tid>, status: int)

  datatype State = State(procs: map<Tid, Process>, shares: map<Tid, Share>)

  datatype Action =
    | Create(p: Tid, c: Tid)
    | Wait(p: Tid, c: Tid)
    | SigDown(p: Tid)
    | Lock(p: Tid)
    | Drop(p: Tid)
    | Store(p: Tid)
    | Raise(p: Tid)
    | Unlock(p: Tid)
    | Free(p: Tid)
    | Exit(p: Tid, status: int)
    | NextChild(p: Tid)

  // ---------------------------------------------------------------------------------
  // Steps
  // ---------------------------------------------------------------------------------

  predicate Enabled(st: State, a: Action) {
    a.p in st.procs &&
    var at := st.procs[a.p].at;
    match a
    case Create(p, c) => at == Running && c !in st.procs && c !in st.shares
    case Wait(p, c) => at == Running
    case SigDown(p) => at.SigWait? && at.c in st.shares && st.shares[at.c].sig > 0
    case Lock(p) => at.Locking? && at.c in st.shares && st.shares[at.c].lock == Nobody
    case Drop(p) => at.Locked? && at.c in st.shares
    case Store(p) => at.Storing? && at.c in st.shares
    case Raise(p) => at.Raising? && at.c in st.shares
    case Unlock(p) => at.Unlocking? && at.c in st.shares
    case Free(p) => at.Freeing? && at.c in st.shares
    case Exit(p, s) => at == Running
    case NextChild(p) => at == Exiting
  }

  function Goto(st: State, p: Tid, at: Place): (r: State)
    requires p in st.procs
  {
    st.(procs := st.procs[p := st.procs[p].(at := at)])
  }

  /** Where a process goes on when it is done with a record. */
  function Next(role: Role): (at: Place) {
    match role
    case Waits => Running
    case Abandons => Exiting
    case Ends => Gone
  }

  function DropOnce(st: State, p: Tid, c: Tid, role: Role): (r: State)
    requires p in st.procs && c in st.shares
  {
    var x := st.shares[c];
    var n := x.refcount - 1;
    var st' := st.(shares := st.shares[c := x.(refcount := n)]);
    if role == Ends && n != 0 then Goto(st', p, Storing(c))
    else Goto(st', p, Unlocking(c, role, n == 0, if role == Waits then x.rvalue else 0))
  }

  function Apply(st: State, a: Action): (r: State)
    requires Enabled(st, a)
  {
    var p := a.p;
    var x := st.procs[p];
    match a
    case Create(_, c) =>
      State(st.procs[c := Process(Running, [], -1)][p := x.(children := x.children + [c])],
            st.shares[c := Share(p, Nobody, 2, 0, 0, false)])
    case Wait(_, c) =>
      if c in x.children then st.(procs := st.procs[p := Process(SigWait(c), Without(x.children, c), x.status)]) else st
    case SigDown(_) => Goto(st.(shares := st.shares[x.at.c := st.shares[x.at.c].(sig := st.shares[x.at.c].sig - 1)]), p,
      Locking(x.at.c, Waits))
    case Lock(_) =>
      Goto(st.(shares := st.shares[x.at.c := st.shares[x.at.c].(lock := Held(p))]), p, Locked(x.at.c, x.at.role))
    case Drop(_) => DropOnce(st, p, x.at.c, x.at.role)
    case Store(_) =>
      Goto(st.(shares := st.shares[x.at.c := st.shares[x.at.c].(rvalue := x.status)]), p, Raising(x.at.c))
    case Raise(_) => Goto(st.(shares := st.shares[x.at.c := st.shares[x.at.c].(sig := st.shares[x.at.c].sig + 1)]), p,
      Unlocking(x.at.c, Ends, false, 0))
    case Unlock(_) =>
      Goto(st.(shares := st.shares[x.at.c := st.shares[x.at.c].(lock := Nobody)]), p,
           if x.at.last then Freeing(x.at.c, x.at.role, x.at.result) else Next(x.at.role))
    case Free(_) => Goto(st.(shares := st.shares[x.at.c := st.shares[x.at.c].(freed := true)]), p, Next(x.at.role))
    case Exit(_, s) => st.(procs := st.procs[p := Process(Exiting, x.children, s)])
    case NextChild(_) =>
      if x.children != []
      then st.(procs := st.procs[p := Process(Locking(x.children[0], Abandons), x.children[1..], x.status)])
      else Goto(st, p, if p in st.shares then Locking(p, Ends) else Gone)
  }

  /** The records a step reads or writes. */
  function Touched(st: State, a: Action): (s: set<Tid>)
    requires Enabled(st, a)
  {
    var x := st.procs[a.p];
    match a
    case Create(_, _) => set c | c in x.children
    case Wait(_, _) => set c | c in x.children
    case NextChild(_) => set c | c in x.children
    case Exit(_, _) => {}
    case SigDown(_) => {x.at.c}
    case Lock(_) => {x.at.c}
    case Drop(_) => {x.at.c}
    case Store(_) => {x.at.c}
    case Raise(_) => {x.at.c}
    case Unlock(_) => {x.at.c}
    case Free(_) => {x.at.c}
  }

  // ---------------------------------------------------------------------------------
  // The invariant
  // ---------------------------------------------------------------------------------

  function Count(b: bool): (n: nat) { if b then 1 else 0 }

  /** The process is busy with the record of `c`. */
  predicate BusyWith(at: Place, c: Tid) {
    (at.SigWait? || at.Locking? || at.Locked? || at.Storing? || at.Raising? || at.Unlocking? || at.Freeing?) &&
      at.c == c
  }

  predicate AsChild(at: Place) {
    at.Storing? || at.Raising? || ((at.Locking? || at.Locked? || at.Unlocking? || at.Freeing?) && at.role == Ends)
  }

  predicate Busy(at: Place) {
    at.SigWait? || at.Locking? || at.Locked? || at.Storing? || at.Raising? || at.Unlocking? || at.Freeing?
  }

  predicate HasLock(at: Place, c: Tid) {
    (at.Locked? || at.Storing? || at.Raising? || at.Unlocking?) && at.c == c
  }

  /** The parent has not given up its reference. */
  predicate ParentRef(q: Process, c: Tid) {
    c in q.children || q.at == SigWait(c) ||
      (q.at in {Locking(c, Waits), Locked(c, Waits), Locking(c, Abandons), Locked(c, Abandons)})
  }

  /** The child has not given up its reference. */
  predicate ChildRef(x: Process) {
    !(x.at == Gone || x.at.Storing? || x.at.Raising? || (x.at.Unlocking? && x.at.role == Ends) ||
      (x.at.Freeing? && x.at.role == Ends))
  }

  /** The parent has not got through the semaphore, and will try if it waits. */
  predicate NotDowned(q: Process, c: Tid) { c in q.children || q.at == SigWait(c) }

  /** The parent has got through the semaphore. */
  predicate Downed(at: Place, c: Tid) {
    BusyWith(at, c) && (at.Locking? || at.Locked? || at.Unlocking? || at.Freeing?) && at.role == Waits
  }

  /** The child has upped the semaphore, if anybody is to know. */
  predicate Raised(at: Place) { at == Gone || (at.Unlocking? && at.role == Ends) || (at.Freeing? && at.role == Ends) }

  predicate ProcessOk(shares: map<Tid, Share>, p: Tid, x: Process) {
    && NoDup(x.children)
    && (forall c :: c in x.children ==> c in shares && shares[c].parent == p && c != p)
    && (Busy(x.at) ==>
        && x.at.c in shares
        && (if AsChild(x.at) then x.at.c == p else x.at.c != p && shares[x.at.c].parent == p && x.at.c !in x.children))
  }

  predicate PlaceOk(s: Share, at: Place, c: Tid) {
    BusyWith(at, c) ==>
      && !s.freed
      && (at.Unlocking? ==> (at.last <==> s.refcount == 0))
      && (at.Freeing? ==> s.refcount == 0)
      && (at.Storing? || at.Raising? ==> s.refcount == 1)
  }

  /** `q` is the parent of the child `x`, and `s` their record. */
  predicate ShareOk(c: Tid, s: Share, q: Process, x: Process) {
    && s.refcount == Count(ParentRef(q, c)) + Count(ChildRef(x))
    && PlaceOk(s, q.at, c) && PlaceOk(s, x.at, c)
    && (s.freed ==> s.refcount == 0)
    && (s.refcount == 0 && !s.freed ==> BusyWith(q.at, c) || BusyWith(x.at, c))
    && (s.refcount == 0 ==> !(BusyWith(q.at, c) && BusyWith(x.at, c)))
    && (s.lock == Held(s.parent) <==> HasLock(q.at, c)) && (s.lock == Held(c) <==> HasLock(x.at, c))
    && (s.lock.Held? ==> s.lock.p in {s.parent, c})
    && s.sig <= 1 && (NotDowned(q, c) && Raised(x.at) ==> s.sig == 1) && (s.sig > 0 ==> Raised(x.at))
    && (s.sig > 0 || x.at.Raising? ==> s.rvalue == x.status)
    && (Downed(q.at, c) ==> Raised(x.at) && s.sig == 0 && s.rvalue == x.status)
    && (Downed(q.at, c) && (q.at.Unlocking? || q.at.Freeing?) ==> q.at.result == x.status)
  }

  predicate RecordOk(procs: map<Tid, Process>, c: Tid, s: Share) {
    c in procs && s.parent in procs && s.parent != c && ShareOk(c, s, procs[s.parent], procs[c])
  }

  ghost predicate Inv(st: State) {
    && (forall p :: p in st.procs ==> ProcessOk(st.shares, p, st.procs[p]))
    && (forall c :: c in st.shares ==> RecordOk(st.procs, c, st.shares[c]))
  }

  // ---------------------------------------------------------------------------------
  // Every step keeps it
  // ---------------------------------------------------------------------------------

  /** The parent does something that does not concern this child. */
  lemma ParentAway(d: Tid, s: Share, q: Process, q': Process, x: Process)
    requires ShareOk(d, s, q, x) && (d in q'.children <==> d in q.children) && !BusyWith(q.at, d) && !BusyWith(q'.at, d)
    ensures ShareOk(d, s, q', x)
  {
  }

  /** The child does something that does not concern its own record. */
  lemma ChildAway(d: Tid, s: Share, q: Process, x: Process, x': Process)
    requires ShareOk(d, s, q, x) && !AsChild(x.at) && !AsChild(x'.at) && x.at != Gone && x'.at != Gone
    requires !BusyWith(x.at, d) && !BusyWith(x'.at, d)
    ensures ShareOk(d, s, q, x')
  {
  }

  predicate OnlyWith(at: Place, c: Tid) { Busy(at) ==> at.c == c }

  /** What a step of `p` leaves of a record `d` that it does not concern. */
  lemma OtherShare(st: State, p: Tid, y: Process, d: Tid)
    requires Inv(st) && p in st.procs && d in st.shares
    requires !BusyWith(st.procs[p].at, d) && !BusyWith(y.at, d) && (d in y.children <==> d in st.procs[p].children)
    requires p == d ==> !AsChild(st.procs[p].at) && !AsChild(y.at) && st.procs[p].at != Gone && y.at != Gone
    ensures RecordOk(st.procs[p := y], d, st.shares[d])
  {
    var r := st.shares[d];
    assert RecordOk(st.procs, d, r);
    if r.parent == p {
      ParentAway(d, r, st.procs[p], y, st.procs[d]);
    } else if d == p {
      ChildAway(d, r, st.procs[r.parent], st.procs[d], y);
    }
  }

  lemma ProcessesKept(st: State, st': State, p: Tid, y: Process, c: Tid, s: Share)
    requires Inv(st) && c in st.shares && s.parent == st.shares[c].parent && ProcessOk(st.shares, p, y)
    requires st' == State(st.procs[p := y], st.shares[c := s])
    ensures forall q :: q in st'.procs ==> ProcessOk(st'.shares, q, st'.procs[q])
  {
    forall q | q in st'.procs ensures ProcessOk(st'.shares, q, st'.procs[q]) {
      if q != p { assert ProcessOk(st.shares, q, st.procs[q]); }
    }
  }

  /** A step of `p` that concerns no record but that of `c`. */
  lemma StepFrame(st: State, st': State, p: Tid, y: Process, c: Tid, s: Share)
    requires Inv(st) && p in st.procs && c in st.shares && s.parent == st.shares[c].parent && p in {c, s.parent}
    requires st' == State(st.procs[p := y], st.shares[c := s])
    requires ProcessOk(st.shares, p, y) && OnlyWith(st.procs[p].at, c) && OnlyWith(y.at, c)
    requires forall d :: d != c ==> (d in y.children <==> d in st.procs[p].children)
    requires p != c ==> !AsChild(st.procs[p].at) && !AsChild(y.at) && st.procs[p].at != Gone && y.at != Gone
    requires RecordOk(st'.procs, c, s)
    ensures Inv(st')
  {
    forall d | d in st'.shares ensures RecordOk(st'.procs, d, st'.shares[d]) {
      if d != c { OtherShare(st, p, y, d); }
    }
    ProcessesKept(st, st', p, y, c, s);
  }

  /** A step of `p` that concerns no record at all. */
  lemma StepAlone(st: State, st': State, p: Tid, y: Process)
    requires Inv(st) && p in st.procs && st' == st.(procs := st.procs[p := y])
    requires !Busy(st.procs[p].at) && !Busy(y.at) && y.children == st.procs[p].children
    requires p in st.shares ==> st.procs[p].at != Gone && y.at != Gone
    ensures Inv(st')
  {
    forall d | d in st'.shares ensures RecordOk(st'.procs, d, st'.shares[d]) {
      OtherShare(st, p, y, d);
    }
  }

  /** A step in which `p`, busy with `c`, goes elsewhere and changes the record. */
  lemma Moves(st: State, st': State, p: Tid, at: Place, c: Tid, s: Share)
    requires Inv(st) && p in st.procs && BusyWith(st.procs[p].at, c) && OnlyWith(at, c)
    requires st' == Goto(st.(shares := st.shares[c := s]), p, at)
    requires c in st.shares ==> s.parent == st.shares[c].parent && RecordOk(st'.procs, c, s)
    requires if AsChild(st.procs[p].at) then (AsChild(at) || at == Gone) else !AsChild(at) && at != Gone
    ensures Inv(st')
  {
    assert ProcessOk(st.shares, p, st.procs[p]);
    StepFrame(st, st', p, st.procs[p].(at := at), c, s);
  }

  /** Both sides of the record that `p` is busy with. */
  lemma Sides(st: State, p: Tid) returns (c: Tid, s: Share)
    requires Inv(st) && p in st.procs && Busy(st.procs[p].at)
    ensures c == st.procs[p].at.c && c in st.shares && s == st.shares[c] && RecordOk(st.procs, c, s)
    ensures if AsChild(st.procs[p].at) then p == c else p == s.parent
  {
    assert ProcessOk(st.shares, p, st.procs[p]);
    c := st.procs[p].at.c;
    s := st.shares[c];
  }

  lemma SigDownKeeps(st: State, p: Tid)
    requires Inv(st) && Enabled(st, SigDown(p))
    ensures Inv(Apply(st, SigDown(p)))
  {
    var c, s := Sides(st, p);
    Moves(st, Apply(st, SigDown(p)), p, Locking(c, Waits), c, s.(sig := s.sig - 1));
  }

  lemma LockKeeps(st: State, p: Tid)
    requires Inv(st) && Enabled(st, Lock(p))
    ensures Inv(Apply(st, Lock(p)))
  {
    var c, s := Sides(st, p);
    Moves(st, Apply(st, Lock(p)), p, Locked(c, st.procs[p].at.role), c, s.(lock := Held(p)));
  }

  lemma ParentDrops(c: Tid, s: Share, q: Process, x: Process, role: Role)
    requires ShareOk(c, s, q, x) && q.at == Locked(c, role) && role != Ends && c !in q.children && s.parent != c
    requires BusyWith(x.at, c) ==> AsChild(x.at)
    ensures var n := s.refcount - 1;
      ShareOk(c, s.(refcount := n), q.(at := Unlocking(c, role, n == 0, if role == Waits then s.rvalue else 0)), x)
  {
  }

  lemma ChildDrops(c: Tid, s: Share, q: Process, x: Process)
    requires ShareOk(c, s, q, x) && x.at == Locked(c, Ends) && s.parent != c
    requires BusyWith(q.at, c) ==> !AsChild(q.at) && c !in q.children
    ensures var n := s.refcount - 1;
      ShareOk(c, s.(refcount := n), q, x.(at := if n != 0 then Storing(c) else Unlocking(c, Ends, true, 0)))
  {
  }

  lemma ChildDropKeeps(st: State, p: Tid)
    requires Inv(st) && Enabled(st, Drop(p)) && st.procs[p].at.role == Ends
    ensures Inv(Apply(st, Drop(p)))
  {
    var c, s := Sides(st, p);
    assert ProcessOk(st.shares, s.parent, st.procs[s.parent]);
    ChildDrops(c, s, st.procs[s.parent], st.procs[c]);
    Moves(st, Apply(st, Drop(p)), p, if s.refcount != 1 then Storing(c) else Unlocking(c, Ends, true, 0), c,
      s.(refcount := s.refcount - 1));
  }

  lemma ParentDropKeeps(st: State, p: Tid)
    requires Inv(st) && Enabled(st, Drop(p)) && st.procs[p].at.role != Ends
    ensures Inv(Apply(st, Drop(p)))
  {
    var c, s := Sides(st, p);
    var role := st.procs[p].at.role;
    assert ProcessOk(st.shares, p, st.procs[p]) && ProcessOk(st.shares, c, st.procs[c]);
    ParentDrops(c, s, st.procs[p], st.procs[c], role);
    Moves(st, Apply(st, Drop(p)), p, Unlocking(c, role, s.refcount == 1, if role == Waits then s.rvalue else 0), c,
      s.(refcount := s.refcount - 1));
  }

  lemma StoreKeeps(st: State, p: Tid)
    requires Inv(st) && Enabled(st, Store(p))
    ensures Inv(Apply(st, Store(p)))
  {
    var c, s := Sides(st, p);
    Moves(st, Apply(st, Store(p)), p, Raising(c), c, s.(rvalue := st.procs[p].status));
  }

  lemma RaiseKeeps(st: State, p: Tid)
    requires Inv(st) && Enabled(st, Raise(p))
    ensures Inv(Apply(st, Raise(p)))
  {
    var c, s := Sides(st, p);
    Moves(st, Apply(st, Raise(p)), p, Unlocking(c, Ends, false, 0), c, s.(sig := s.sig + 1));
  }

  lemma UnlockKeeps(st: State, p: Tid)
    requires Inv(st) && Enabled(st, Unlock(p))
    ensures Inv(Apply(st, Unlock(p)))
  {
    var c, s := Sides(st, p);
    var st' := Apply(st, Unlock(p));
    Moves(st, st', p, st'.procs[p].at, c, s.(lock := Nobody));
  }

  lemma FreeKeeps(st: State, p: Tid)
    requires Inv(st) && Enabled(st, Free(p))
    ensures Inv(Apply(st, Free(p)))
  {
    var c, s := Sides(st, p);
    Moves(st, Apply(st, Free(p)), p, Next(st.procs[p].at.role), c, s.(freed := true));
  }

  /** A child leaves the list of its parent, which gets busy with it. */
  lemma TakesChild(st: State, st': State, p: Tid, y: Process, c: Tid)
    requires Inv(st) && p in st.procs && c in st.procs[p].children && st.procs[p].at in {Running, Exiting}
    requires NoDup(y.children) && (forall d :: d in y.children <==> d in st.procs[p].children && d != c)
    requires y.status == st.procs[p].status && y.at in {SigWait(c), Locking(c, Abandons)}
    requires st' == st.(procs := st.procs[p := y])
    ensures Inv(st')
  {
    assert ProcessOk(st.shares, p, st.procs[p]);
    assert RecordOk(st.procs, c, st.shares[c]);
    assert st.shares[c := st.shares[c]] == st.shares;
    StepFrame(st, st', p, y, c, st.shares[c]);
  }

  lemma WaitKeeps(st: State, p: Tid, c: Tid)
    requires Inv(st) && Enabled(st, Wait(p, c)) && c in st.procs[p].children
    ensures Inv(Apply(st, Wait(p, c)))
  {
    var st' := Apply(st, Wait(p, c));
    assert ProcessOk(st.shares, p, st.procs[p]);
    WithoutIs(st.procs[p].children, c);
    TakesChild(st, st', p, st'.procs[p], c);
  }

  lemma NextChildKeeps(st: State, p: Tid)
    requires Inv(st) && Enabled(st, NextChild(p)) && st.procs[p].children != []
    ensures Inv(Apply(st, NextChild(p)))
  {
    var st' := Apply(st, NextChild(p));
    var q := st.procs[p].children;
    assert ProcessOk(st.shares, p, st.procs[p]);
    NoDupFront(q);
    assert q[0] in q;
    TakesChild(st, st', p, st'.procs[p], q[0]);
  }

  lemma LastChildKeeps(st: State, p: Tid)
    requires Inv(st) && Enabled(st, NextChild(p)) && st.procs[p].children == []
    ensures Inv(Apply(st, NextChild(p)))
  {
    var st' := Apply(st, NextChild(p));
    assert ProcessOk(st.shares, p, st.procs[p]);
    if p in st.shares {
      assert RecordOk(st.procs, p, st.shares[p]);
      assert st.shares[p := st.shares[p]] == st.shares;
      StepFrame(st, st', p, st'.procs[p], p, st.shares[p]);
    } else {
      StepAlone(st, st', p, st'.procs[p]);
    }
  }

  lemma ExitKeeps(st: State, p: Tid, status: int)
    requires Inv(st) && Enabled(st, Exit(p, status))
    ensures Inv(Apply(st, Exit(p, status)))
  {
    var st' := Apply(st, Exit(p, status));
    StepAlone(st, st', p, st'.procs[p]);
  }

  lemma NewProcesses(st: State, st': State, p: Tid, c: Tid)
    requires Inv(st) && Enabled(st, Create(p, c)) && st' == Apply(st, Create(p, c))
    ensures forall q :: q in st'.procs ==> ProcessOk(st'.shares, q, st'.procs[q])
  {
    NoDupBack(st.procs[p].children, c);
    forall q | q in st'.procs ensures ProcessOk(st'.shares, q, st'.procs[q]) {
      if q != c { assert ProcessOk(st.shares, q, st.procs[q]); }
    }
  }

  lemma CreateKeeps(st: State, p: Tid, c: Tid)
    requires Inv(st) && Enabled(st, Create(p, c))
    ensures Inv(Apply(st, Create(p, c)))
  {
    var st' := Apply(st, Create(p, c));
    assert ProcessOk(st.shares, p, st.procs[p]);
    NewProcesses(st, st', p, c);
    forall d | d in st'.shares ensures RecordOk(st'.procs, d, st'.shares[d]) {
      if d != c { OtherShare(st, p, st'.procs[p], d); }
    }
  }

  lemma StepKeeps(st: State, a: Action)
    requires Inv(st) && Enabled(st, a)
    ensures Inv(Apply(st, a))
  {
    match a
    case Create(p, c) => CreateKeeps(st, p, c);
    case Wait(p, c) => if c in st.procs[p].children { WaitKeeps(st, p, c); }
    case SigDown(p) => SigDownKeeps(st, p);
    case Lock(p) => LockKeeps(st, p);
    case Drop(p) => if st.procs[p].at.role == Ends { ChildDropKeeps(st, p); } else { ParentDropKeeps(st, p); }
    case Store(p) => StoreKeeps(st, p);
    case Raise(p) => RaiseKeeps(st, p);
    case Unlock(p) => UnlockKeeps(st, p);
    case Free(p) => FreeKeeps(st, p);
    case Exit(p, s) => ExitKeeps(st, p, s);
    case NextChild(p) => if st.procs[p].children != [] { NextChildKeeps(st, p); } else { LastChildKeeps(st, p); }
  }

  // ---------------------------------------------------------------------------------
  // Runs
  // ---------------------------------------------------------------------------------

  type Sound = st: State | Inv(st) ghost witness State(map[], map[])

  ghost function After(st: Sound, a: Action): (r: Sound)
    requires Enabled(st, a)
  {
    StepKeeps(st, a);
    Apply(st, a)
  }

  ghost predicate Possible(st: Sound, run: seq<Action>)
    decreases |run|
  {
    run == [] || (Enabled(st, run[0]) && Possible(After(st, run[0]), run[1..]))
  }

  ghost function Final(st: Sound, run: seq<Action>): (r: Sound)
    requires Possible(st, run)
    decreases |run|
  {
    if run == [] then st else Final(After(st, run[0]), run[1..])
  }

  /** Whatever a step touches has not been freed. */
  lemma TouchesLive(st: Sound, a: Action, c: Tid)
    requires Enabled(st, a) && c in Touched(st, a)
    ensures c in st.shares && !st.shares[c].freed
  {
    assert ProcessOk(st.shares, a.p, st.procs[a.p]);
    assert RecordOk(st.procs, c, st.shares[c]);
  }

  /** So nothing is touched after it was freed, in any run. */
  lemma {:induction false} NeverTouchedAfterFree(st: Sound, run: seq<Action>, a: Action, c: Tid)
    requires Possible(st, run) && Enabled(Final(st, run), a) && c in Touched(Final(st, run), a)
    ensures c in Final(st, run).shares && !Final(st, run).shares[c].freed
  {
    TouchesLive(Final(st, run), a, c);
  }

  function FreesIt(st: State, a: Action, c: Tid): (n: nat) {
    Count(a.Free? && a.p in st.procs && st.procs[a.p].at.Freeing? && st.procs[a.p].at.c == c)
  }

  ghost function FreeCount(st: Sound, run: seq<Action>, c: Tid): (n: nat)
    requires Possible(st, run)
    decreases |run|
  {
    if run == [] then 0 else FreesIt(st, run[0], c) + FreeCount(After(st, run[0]), run[1..], c)
  }

  predicate Freed(st: State, c: Tid) { c in st.shares && st.shares[c].freed }

  lemma OnlyFreeFrees(st: State, a: Action, c: Tid)
    requires Enabled(st, a) && !a.Free?
    ensures Freed(Apply(st, a), c) == Freed(st, c)
  {
  }

  lemma FreeStep(st: Sound, a: Action, c: Tid)
    requires Enabled(st, a)
    ensures Count(Freed(Apply(st, a), c)) == Count(Freed(st, c)) + FreesIt(st, a, c)
  {
    if a.Free? { TouchesLive(st, a, st.procs[a.p].at.c); } else { OnlyFreeFrees(st, a, c); }
  }

  /** A record is freed at most once; it has been freed exactly if that has happened. */
  lemma {:induction false} FreedOnce(st: Sound, run: seq<Action>, c: Tid)
    requires Possible(st, run)
    ensures FreeCount(st, run, c) + Count(Freed(st, c)) == Count(Freed(Final(st, run), c)) <= 1
    decreases |run|
  {
    if run != [] {
      FreeStep(st, run[0], c);
      FreedOnce(After(st, run[0]), run[1..], c);
    }
  }

  /** And it has been freed once both sides are done with it. */
  lemma NoLeak(st: Sound, c: Tid)
    requires c in st.shares && c in st.procs && st.shares[c].parent in st.procs
    requires st.procs[c].at == Gone
    requires c !in st.procs[st.shares[c].parent].children && !BusyWith(st.procs[st.shares[c].parent].at, c)
    ensures st.shares[c].freed
  {
    assert RecordOk(st.procs, c, st.shares[c]);
  }

  datatype Outcome = Nothing | Returned(value: int)

  /** What `process_wait` returns at this step, if it does. */
  function WaitResult(st: State, a: Action): (r: Outcome)
    requires Enabled(st, a)
  {
    var x := st.procs[a.p];
    match a
    case Wait(_, c) => if c in x.children then Nothing else Returned(-1)
    case Unlock(_) => if x.at.role == Waits && !x.at.last then Returned(x.at.result) else Nothing
    case Free(_) => if x.at.role == Waits then Returned(x.at.result) else Nothing
    case _ => Nothing
  }

  /** A `process_wait` that has waited returns the status the child exited with. */
  lemma WaitReturnsStatus(st: Sound, a: Action)
    requires Enabled(st, a) && !a.Wait? && WaitResult(st, a).Returned?
    ensures Apply(st, a).procs[a.p].at == Running
    ensures var c := st.procs[a.p].at.c;
      c in st.procs && Raised(st.procs[c].at) && WaitResult(st, a) == Returned(st.procs[c].status)
  {
    var c, s := Sides(st, a.p);
  }

  /** A wait does not hang: once the child is gone, it gets through. */
  lemma WaitEnds(st: Sound, p: Tid, c: Tid)
    requires p in st.procs && st.procs[p].at == SigWait(c)
    ensures c in st.procs && (st.procs[c].at == Gone ==> Enabled(st, SigDown(p)))
  {
    var d, s := Sides(st, p);
  }

  /** Nor does the lock: whoever has it can go on. */
  lemma LockMovesOn(st: Sound, p: Tid) returns (a: Action)
    requires p in st.procs && st.procs[p].at.Locking? && !Enabled(st, Lock(p))
    ensures Enabled(st, a) && (a.Drop? || a.Store? || a.Raise? || a.Unlock?)
    ensures st.procs[p].at.c in st.shares && st.shares[st.procs[p].at.c].lock == Held(a.p)
  {
    var c, s := Sides(st, p);
    var q := s.lock.p;
    var at := st.procs[q].at;
    a := if at.Locked? then Drop(q) else if at.Storing? then Store(q) else if at.Raising? then Raise(q) else Unlock(q);
  }

  lemma NotAgain(st: Sound, a: Action, p: Tid, c: Tid)
    requires Enabled(st, a) && p in st.procs && c in st.procs && c !in st.procs[p].children
    ensures p in Apply(st, a).procs && c in Apply(st, a).procs && c !in Apply(st, a).procs[p].children
  {
    if a.Wait? && a.p == p && a.c in st.procs[p].children {
      assert ProcessOk(st.shares, p, st.procs[p]);
      WithoutIs(st.procs[p].children, a.c);
    }
  }

  /** After a wait for `c`, or if `c` never was a child, every later wait for it returns -1 at once:
      it finds nothing on the list and changes nothing. */
  lemma {:induction false} SecondWaitFails(st: Sound, run: seq<Action>, p: Tid, c: Tid)
    requires Possible(st, run) && p in st.procs && c in st.procs && c !in st.procs[p].children
    ensures var r := Final(st, run); var a := Wait(p, c);
      p in r.procs && c !in r.procs[p].children &&
        (Enabled(r, a) ==> WaitResult(r, a) == Returned(-1) && Apply(r, a) == r)
    decreases |run|
  {
    if run != [] {
      NotAgain(st, run[0], p, c);
      SecondWaitFails(After(st, run[0]), run[1..], p, c);
    }
  }

  // ---------------------------------------------------------------------------------
  // By the actions alone
  // ---------------------------------------------------------------------------------

  /** `process_exit` has begun. */
  predicate HasExited(at: Place) {
    || at == Exiting || at == Gone || AsChild(at)
    || ((at.Locking? || at.Locked? || at.Unlocking? || at.Freeing?) && at.role == Abandons)
  }

  /** In `process_wait`, for a child. */
  predicate Waiting(at: Place) {
    at.SigWait? || ((at.Locking? || at.Locked? || at.Unlocking? || at.Freeing?) && at.role == Waits)
  }

  /** The status that `c` exited with in a run, if it did. */
  function ExitStatus(run: seq<Action>, c: Tid): (r: Outcome) {
    if run == [] then Nothing
    else
      var a := run[|run| - 1];
      if a.Exit? && a.p == c then Returned(a.status) else ExitStatus(run[..|run| - 1], c)
  }

  datatype Target = NoTarget | Target(c: Tid)

  /** The process that `p` last called `process_wait` for in a run. */
  function LastWait(run: seq<Action>, p: Tid): (r: Target) {
    if run == [] then NoTarget
    else
      var a := run[|run| - 1];
      if a.Wait? && a.p == p then Target(a.c) else LastWait(run[..|run| - 1], p)
  }

  /** The processes that `p` started in a run and did not wait for, after those in `q`. */
  function Unwaited(q: seq<Tid>, run: seq<Action>, p: Tid): (r: seq<Tid>) {
    if run == [] then q
    else
      var a, before := run[|run| - 1], Unwaited(q, run[..|run| - 1], p);
      if a.p != p then before
      else if a.Create? then before + [a.c]
      else if a.Wait? then Without(before, a.c)
      else before
  }

  /** At start-up there are processes without children. */
  predicate Starts(st: State) {
    st.shares == map[] && forall p :: p in st.procs ==> st.procs[p].at == Running && st.procs[p].children == []
  }

  /** What the places of processes say about the run so far. */
  predicate Matches(procs: map<Tid, Process>, run: seq<Action>, p: Tid) {
    if p !in procs then ExitStatus(run, p) == Nothing && LastWait(run, p) == NoTarget && Unwaited([], run, p) == []
    else
      var x := procs[p];
      && ExitStatus(run, p) == (if HasExited(x.at) then Returned(x.status) else Nothing)
      && (Waiting(x.at) ==> LastWait(run, p) == Target(x.at.c))
      && (!HasExited(x.at) ==> x.children == Unwaited([], run, p))
  }

  lemma LastAction(run: seq<Action>, a: Action, p: Tid)
    ensures ExitStatus(run + [a], p) == if a.Exit? && a.p == p then Returned(a.status) else ExitStatus(run, p)
    ensures LastWait(run + [a], p) == if a.Wait? && a.p == p then Target(a.c) else LastWait(run, p)
    ensures Unwaited([], run + [a], p) ==
      if a.Create? && a.p == p then Unwaited([], run, p) + [a.c]
      else if a.Wait? && a.p == p then Without(Unwaited([], run, p), a.c)
      else Unwaited([], run, p)
  {
    assert (run + [a])[..|run|] == run;
  }

  /** What a step does to the process that takes it. */
  lemma OwnStep(st: State, a: Action)
    requires Enabled(st, a)
    ensures a.p in Apply(st, a).procs
    ensures var x, y := st.procs[a.p], Apply(st, a).procs[a.p];
      && HasExited(y.at) == (HasExited(x.at) || a.Exit?) && (a.Exit? ==> !HasExited(x.at))
      && y.status == (if a.Exit? then a.status else x.status)
      && (Waiting(y.at) ==> if a.Wait? then y.at.c == a.c else Waiting(x.at) && y.at.c == x.at.c)
      && (!HasExited(y.at) ==>
           y.children == if a.Create? then x.children + [a.c]
                         else if a.Wait? then Without(x.children, a.c)
                         else x.children)
  {
    if a.Wait? { NotThere(st.procs[a.p].children, a.c); }
  }

  lemma {:induction false} NotThere(q: seq<Tid>, c: Tid)
    ensures c !in q ==> Without(q, c) == q
  {
    if q != [] { NotThere(q[1..], c); }
  }

  /** And to others. */
  lemma OtherProcess(st: State, a: Action, p: Tid)
    requires Enabled(st, a) && p != a.p
    ensures if a.Create? && a.c == p then p !in st.procs && Apply(st, a).procs[p] == Process(Running, [], -1)
            else
              && (p in Apply(st, a).procs <==> p in st.procs)
              && (p in st.procs ==> Apply(st, a).procs[p] == st.procs[p])
  {
  }

  lemma StepMatches(st: State, run: seq<Action>, a: Action, p: Tid)
    requires Enabled(st, a) && Matches(st.procs, run, p)
    ensures Matches(Apply(st, a).procs, run + [a], p)
  {
    LastAction(run, a, p);
    if a.p == p { OwnStep(st, a); } else { OtherProcess(st, a, p); }
  }

  /** Whether a process has exited and with which status, whom it waits for, and which children are left
      to wait for, follow from the actions of the run. */
  lemma {:induction false} RunMatches(st: Sound, before: seq<Action>, run: seq<Action>, p: Tid)
    requires Possible(st, run) && Matches(st.procs, before, p)
    ensures Matches(Final(st, run).procs, before + run, p)
    decreases |run|
  {
    if run == [] {
      assert before + run == before;
    } else {
      StepMatches(st, before, run[0], p);
      RunMatches(After(st, run[0]), before + [run[0]], run[1..], p);
      assert before + [run[0]] + run[1..] == before + run;
    }
  }

  lemma NoHistory(st: State, p: Tid)
    requires Starts(st)
    ensures Matches(st.procs, [], p)
  {
  }

  lemma StartMatches(st: Sound, run: seq<Action>, p: Tid)
    requires Starts(st) && Possible(st, run)
    ensures Matches(Final(st, run).procs, run, p)
  {
    NoHistory(st, p);
    RunMatches(st, [], run, p);
    assert [] + run == run;
  }

  /** `process_wait`, in every run from start-up: a process that the caller did not start, or that it has
      waited for, gives -1 at once, and a child is waited for, */
  lemma WaitByActions(st: Sound, run: seq<Action>, p: Tid, c: Tid)
    requires Starts(st) && Possible(st, run) && Enabled(Final(st, run), Wait(p, c))
    ensures var r := Final(st, run);
      if c in Unwaited([], run, p)
      then WaitResult(r, Wait(p, c)) == Nothing && Apply(r, Wait(p, c)).procs[p].at == SigWait(c)
      else WaitResult(r, Wait(p, c)) == Returned(-1) && Apply(r, Wait(p, c)) == r
  {
    StartMatches(st, run, p);
  }

  /** and what a wait returns in the end is the status that the child has called `exit` with. */
  lemma StatusByActions(st: Sound, run: seq<Action>, a: Action)
    requires Starts(st) && Possible(st, run) && Enabled(Final(st, run), a)
    requires !a.Wait? && WaitResult(Final(st, run), a).Returned?
    ensures LastWait(run, a.p).Target? && ExitStatus(run, LastWait(run, a.p).c) == WaitResult(Final(st, run), a)
  {
    var r := Final(st, run);
    WaitReturnsStatus(r, a);
    StartMatches(st, run, a.p);
    StartMatches(st, run, r.procs[a.p].at.c);
  }

  // ---------------------------------------------------------------------------------
  // Everything ends
  // ---------------------------------------------------------------------------------

  /** The steps that begin something. */
  predicate IsCall(a: Action) { a.Create? || a.Wait? || a.Exit? }

  function ExitLeft(children: nat): (n: nat) { 8 * children + 8 }

  function Behind(role: Role, children: nat): (n: nat) { if role == Abandons then ExitLeft(children) else 0 }

  /** How many steps a process takes at most until it is back, or gone. */
  function Left(x: Process): (n: nat) {
    match x.at
    case Running => 0
    case Gone => 0
    case Exiting => ExitLeft(|x.children|)
    case SigWait(_) => 7
    case Locking(_, role) => 6 + Behind(role, |x.children|)
    case Locked(_, role) => 5 + Behind(role, |x.children|)
    case Storing(_) => 4
    case Raising(_) => 3
    case Unlocking(_, role, _, _) => 2 + Behind(role, |x.children|)
    case Freeing(_, role, _) => 1 + Behind(role, |x.children|)
  }

  lemma StepIsLess(st: State, a: Action)
    requires Enabled(st, a) && !IsCall(a)
    ensures a.p in Apply(st, a).procs && Left(Apply(st, a).procs[a.p]) < Left(st.procs[a.p])
  {
  }

  function StepsOf(run: seq<Action>, p: Tid): (n: nat) {
    if run == [] then 0 else Count(run[0].p == p) + StepsOf(run[1..], p)
  }

  predicate NoCalls(run: seq<Action>) { forall i :: 0 <= i < |run| ==> !IsCall(run[i]) }

  /** In every run without new calls every process takes a bounded number of steps. */
  lemma {:induction false} StepsBounded(st: Sound, run: seq<Action>, p: Tid)
    requires Possible(st, run) && NoCalls(run) && p in st.procs
    ensures p in Final(st, run).procs && StepsOf(run, p) + Left(Final(st, run).procs[p]) <= Left(st.procs[p])
    decreases |run|
  {
    if run != [] {
      if run[0].p == p { StepIsLess(st, run[0]); } else { OtherProcess(st, run[0], p); }
      assert forall i :: 0 <= i < |run[1..]| ==> run[1..][i] == run[i + 1];
      StepsBounded(After(st, run[0]), run[1..], p);
    }
  }

  /** Nobody can go on with what was begun. */
  ghost predicate AtRest(st: State) { forall a :: Enabled(st, a) ==> IsCall(a) }

  /** Whoever is halfway can go on, or waits for one that can. */
  lemma SomeStep(st: Sound, p: Tid) returns (a: Action)
    requires p in st.procs && (st.procs[p].at == Exiting || (Busy(st.procs[p].at) && !st.procs[p].at.SigWait?))
    ensures Enabled(st, a) && !IsCall(a)
  {
    var at := st.procs[p].at;
    if at == Exiting {
      a := NextChild(p);
    } else {
      var c, s := Sides(st, p);
      if at.Locking? && s.lock != Nobody {
        a := LockMovesOn(st, p);
      } else {
        a := if at.Locking? then Lock(p) else if at.Locked? then Drop(p) else if at.Storing? then Store(p)
             else if at.Raising? then Raise(p) else if at.Unlocking? then Unlock(p) else Free(p);
      }
    }
  }

  lemma NoneHalfway(st: Sound, p: Tid)
    requires AtRest(st) && p in st.procs
    ensures st.procs[p].at in {Running, Gone} || st.procs[p].at.SigWait?
  {
    if st.procs[p].at == Exiting || (Busy(st.procs[p].at) && !st.procs[p].at.SigWait?) {
      var a := SomeStep(st, p);
    }
  }

  /** And when it cannot go on, every process that has exited is gone, and whoever waits, waits for a child
      that has not exited. */
  lemma AllHasEnded(st: Sound, p: Tid)
    requires AtRest(st) && p in st.procs
    ensures HasExited(st.procs[p].at) ==> st.procs[p].at == Gone
    ensures Waiting(st.procs[p].at) ==>
      st.procs[p].at.SigWait? && st.procs[p].at.c in st.procs && !HasExited(st.procs[st.procs[p].at.c].at)
  {
    NoneHalfway(st, p);
    if st.procs[p].at.SigWait? {
      var c, s := Sides(st, p);
      NoneHalfway(st, c);
      WaitEnds(st, p, c);
      assert !Enabled(st, SigDown(p));
    }
  }
}
