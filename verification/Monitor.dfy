/**
 A lock and its condition variables, built on semaphores.  Each step is one atomic piece of
 `lock_acquire`, `lock_release`, `cond_wait` or `cond_signal`, and any thread may run between any
 two of them.  What a thread does with the lock while it holds it is left open.
 */
module Monitor {
  import opened Semaphores
  import opened Sequences

  type CondId = nat
  type WaitId = nat

  /** What the lock is acquired for: by `lock_acquire` itself, or by the end of a `cond_wait`. */
  datatype Goal = Enter | Return(w: WaitId)

  /** Where a thread is. */
  datatype Place =
    | Outside
    | Acquiring(goal: Goal)  // in sema_down on the lock's semaphore
    | Marking(goal: Goal)    // through it, holder not set yet
    | Inside
    | Queued(w: WaitId)      // in cond_wait, on the list, lock still held
    | Parting(w: WaitId)     // in cond_wait, holder cleared, lock's semaphore not upped yet
    | Leaving                // in lock_release, likewise
    | Sleeping(w: WaitId)    // in sema_down on its private semaphore
    | Signalling(w: WaitId)  // in cond_signal, `w` taken off the list, not upped yet

  datatype Holder = Nobody | Held(t: Tid)

  /** The life of one call of `cond_wait`. */
  datatype Phase = Listed(c: CondId) | Picked | Upped | Done

  datatype Waiter = Waiter(owner: Tid, sema: Sema, phase: Phase)

  datatype State = State(lock: Sema, holder: Holder, conds: map<CondId, seq<WaitId>>, waits: map<WaitId, Waiter>,
                         at: map<Tid, Place>)

  datatype Action =
    | Acquire(t: Tid)
    | TryAcquire(t: Tid)
    | LockDown(t: Tid)
    | Mark(t: Tid)
    | Release(t: Tid)
    | Wait(t: Tid, c: CondId, w: WaitId)
    | Part(t: Tid)
    | LockUp(t: Tid)
    | SleepDown(t: Tid)
    | Signal(t: Tid, c: CondId)
    | UpWaiter(t: Tid)

  // ---------------------------------------------------------------------------------
  // Steps
  // ---------------------------------------------------------------------------------

  predicate Enabled(st: State, a: Action) {
    a.t in st.at &&
    match a
    case Acquire(t) => st.at[t] == Outside
    case TryAcquire(t) => st.at[t] == Outside
    case LockDown(t) => st.at[t].Acquiring? && t !in st.lock.waiters
    case Mark(t) => st.at[t].Marking?
    case Release(t) => st.at[t] == Inside && st.holder == Held(t)
    case Wait(t, c, w) => st.at[t] == Inside && st.holder == Held(t) && c in st.conds && w !in st.waits
    case Part(t) => st.at[t].Queued?
    case LockUp(t) => st.at[t] == Leaving || st.at[t].Parting?
    case SleepDown(t) => st.at[t].Sleeping? && st.at[t].w in st.waits && t !in st.waits[st.at[t].w].sema.waiters
    case Signal(t, c) => st.at[t] == Inside && st.holder == Held(t) && c in st.conds
    case UpWaiter(t) => st.at[t].Signalling? && st.at[t].w in st.waits
  }

  /** `sema_up`: the first waiter, if any, leaves the list and may try again. */
  function SemaUp(s: Sema): (r: Sema) {
    Sema(s.value + 1, if s.waiters == [] then [] else s.waiters[1..])
  }

  function Move(st: State, t: Tid, p: Place): (r: State) {
    st.(at := st.at[t := p])
  }

  function LockDownOnce(st: State, t: Tid): (r: State)
    requires t in st.at && st.at[t].Acquiring?
  {
    if st.lock.value == 0 then st.(lock := Sema(0, st.lock.waiters + [t]))
    else Move(st.(lock := Sema(st.lock.value - 1, st.lock.waiters)), t, Marking(st.at[t].goal))
  }

  function SleepDownOnce(st: State, t: Tid): (r: State)
    requires t in st.at && st.at[t].Sleeping? && st.at[t].w in st.waits
  {
    var w := st.at[t].w;
    var x := st.waits[w];
    if x.sema.value == 0 then st.(waits := st.waits[w := x.(sema := Sema(0, x.sema.waiters + [t]))])
    else Move(st.(waits := st.waits[w := x.(sema := Sema(x.sema.value - 1, x.sema.waiters), phase := Done)]), t,
      Acquiring(Return(w)))
  }

  function SignalOnce(st: State, t: Tid, c: CondId): (r: State)
    requires c in st.conds
  {
    if st.conds[c] == [] then st
    else
      var w := st.conds[c][0];
      if w in st.waits then
        Move(st.(conds := st.conds[c := st.conds[c][1..]], waits := st.waits[w := st.waits[w].(phase := Picked)]), t,
          Signalling(w))
      else st
  }

  function Apply(st: State, a: Action): (r: State)
    requires Enabled(st, a)
  {
    match a
    case Acquire(t) => Move(st, t, Acquiring(Enter))
    case TryAcquire(t) =>
      if st.lock.value > 0 then Move(st.(lock := Sema(st.lock.value - 1, st.lock.waiters)), t, Marking(Enter)) else st
    case LockDown(t) => LockDownOnce(st, t)
    case Mark(t) => Move(st.(holder := Held(t)), t, Inside)
    case Release(t) => Move(st.(holder := Nobody), t, Leaving)
    case Wait(t, c, w) =>
      Move(st.(waits := st.waits[w := Waiter(t, Sema(0, []), Listed(c))], conds := st.conds[c := st.conds[c] + [w]]), t,
        Queued(w))
    case Part(t) => Move(st.(holder := Nobody), t, Parting(st.at[t].w))
    case LockUp(t) =>
      Move(st.(lock := SemaUp(st.lock)), t, if st.at[t] == Leaving then Outside else Sleeping(st.at[t].w))
    case SleepDown(t) => SleepDownOnce(st, t)
    case Signal(t, c) => SignalOnce(st, t, c)
    case UpWaiter(t) =>
      var w := st.at[t].w;
      Move(st.(waits := st.waits[w := st.waits[w].(sema := SemaUp(st.waits[w].sema), phase := Upped)]), t, Inside)
  }

  // ---------------------------------------------------------------------------------
  // The invariant
  // ---------------------------------------------------------------------------------

  /** From getting through the lock's semaphore to upping it. */
  predicate Uses(p: Place) {
    p.Marking? || p.Inside? || p.Queued? || p.Parting? || p.Leaving? || p.Signalling?
  }

  /** From setting the holder to clearing it. */
  predicate Holds(p: Place) {
    p.Inside? || p.Queued? || p.Signalling?
  }

  ghost function Users(at: map<Tid, Place>): (u: set<Tid>) {
    set t | t in at && Uses(at[t])
  }

  /** The semaphore's value and the threads in the critical section make one. */
  ghost predicate LockOk(st: State) {
    && st.lock.value + |Users(st.at)| == 1
    && (forall t :: t in st.at ==> (st.holder == Held(t) <==> Holds(st.at[t])))
    && (st.holder.Held? ==> st.holder.t in st.at)
    && NoDup(st.lock.waiters) && (forall t :: t in st.lock.waiters ==> t in st.at && st.at[t].Acquiring?)
  }

  predicate PlaceOk(waits: map<WaitId, Waiter>, t: Tid, p: Place) {
    match p
    case Queued(w) => w in waits && waits[w].owner == t && waits[w].phase.Listed?
    case Parting(w) => w in waits && waits[w].owner == t && waits[w].phase.Listed?
    case Sleeping(w) => w in waits && waits[w].owner == t && waits[w].phase != Done
    case Acquiring(g) => g.Return? ==> g.w in waits && waits[g.w].owner == t && waits[g.w].phase == Done
    case Marking(g) => g.Return? ==> g.w in waits && waits[g.w].owner == t && waits[g.w].phase == Done
    case Signalling(w) => w in waits && waits[w].phase == Picked
    case _ => true
  }

  predicate ListOk(waits: map<WaitId, Waiter>, c: CondId, list: seq<WaitId>) {
    NoDup(list) && forall w :: w in list ==> w in waits && waits[w].phase == Listed(c)
  }

  predicate BlockedOr(x: Waiter, p: Place, w: WaitId) {
    x.sema.waiters == [] || (x.sema.waiters == [x.owner] && p == Sleeping(w))
  }

  /** What the phase of a wait says about the list, the private semaphore and its owner. */
  ghost predicate WaitOk(conds: map<CondId, seq<WaitId>>, at: map<Tid, Place>, w: WaitId, x: Waiter) {
    x.owner in at &&
    var p := at[x.owner];
    match x.phase
    case Listed(c) => c in conds && w in conds[c] && x.sema.value == 0 && p in {Queued(w), Parting(w), Sleeping(w)} &&
      BlockedOr(x, p, w)
    case Picked => x.sema.value == 0 && p == Sleeping(w) && BlockedOr(x, p, w)
    case Upped => x.sema == Sema(1, []) && p == Sleeping(w)
    case Done => x.sema == Sema(0, [])
  }

  ghost predicate Inv(st: State) {
    && LockOk(st)
    && (forall t :: t in st.at ==> PlaceOk(st.waits, t, st.at[t]))
    && (forall c :: c in st.conds ==> ListOk(st.waits, c, st.conds[c]))
    && (forall w :: w in st.waits ==> WaitOk(st.conds, st.at, w, st.waits[w]))
  }

  // ---------------------------------------------------------------------------------
  // Every step keeps it
  // ---------------------------------------------------------------------------------

  lemma UsersAfter(at: map<Tid, Place>, t: Tid, p: Place)
    ensures Users(at[t := p]) == if Uses(p) then Users(at) + {t} else Users(at) - {t}
  {
  }

  /** At most one thread is in the critical section. */
  lemma OneUser(st: State, t: Tid, u: Tid)
    requires LockOk(st) && t in st.at && u in st.at && Uses(st.at[t]) && Uses(st.at[u])
    ensures t == u && st.lock.value == 0
  {
    var users := Users(st.at);
    assert t in users && u in users;
    if t != u {
      assert {t, u} <= users;
      SubsetSize({t, u}, users);
    } else {
      SubsetSize({t}, users);
    }
  }

  function Count(b: bool): (n: nat) { if b then 1 else 0 }

  /** The lock's part of the invariant when a thread moves. */
  lemma LockAfter(st: State, st': State, t: Tid, p: Place)
    requires LockOk(st) && t in st.at && st'.at == st.at[t := p]
    requires st'.lock.value + Count(Uses(p)) == st.lock.value + Count(Uses(st.at[t]))
    requires st'.holder == if Holds(p) then Held(t) else if Holds(st.at[t]) then Nobody else st.holder
    requires Holds(p) ==> Uses(st.at[t])
    requires NoDup(st'.lock.waiters) &&
      forall u :: u in st'.lock.waiters ==> u in st.lock.waiters && (u != t || p.Acquiring?)
    ensures LockOk(st')
  {
    UsersAfter(st.at, t, p);
    if t !in Users(st.at) {
      assert Users(st.at) - {t} == Users(st.at);
    } else {
      assert Users(st.at) + {t} == Users(st.at);
    }
    forall u | u in st'.at ensures st'.holder == Held(u) <==> Holds(st'.at[u]) {
      if u != t && Holds(st.at[u]) && Uses(st.at[t]) { OneUser(st, t, u); }
    }
  }

  /** A thread that is not in a `cond_wait` moves elsewhere: the waits do not notice. */
  lemma WaitsAfter(st: State, at': map<Tid, Place>, t: Tid, p: Place)
    requires Inv(st) && t in st.at && at' == st.at[t := p]
    requires !st.at[t].Queued? && !st.at[t].Parting? && !st.at[t].Sleeping?
    ensures forall w :: w in st.waits ==> WaitOk(st.conds, at', w, st.waits[w])
  {
  }

  ghost predicate Plain(p: Place) { !p.Queued? && !p.Parting? && !p.Sleeping? }

  /** A step that only moves a thread and changes the lock. */
  lemma PlainMove(st: State, st': State, t: Tid, p: Place)
    requires Inv(st) && t in st.at && Plain(st.at[t]) && PlaceOk(st.waits, t, p)
    requires st'.at == st.at[t := p] && st'.conds == st.conds && st'.waits == st.waits && LockOk(st')
    ensures Inv(st')
  {
    WaitsAfter(st, st'.at, t, p);
  }

  lemma AcquireKeeps(st: State, t: Tid)
    requires Inv(st) && Enabled(st, Acquire(t))
    ensures Inv(Apply(st, Acquire(t)))
  {
    var r := Apply(st, Acquire(t));
    LockAfter(st, r, t, Acquiring(Enter));
    PlainMove(st, r, t, Acquiring(Enter));
  }

  lemma TryAcquireKeeps(st: State, t: Tid)
    requires Inv(st) && Enabled(st, TryAcquire(t)) && st.lock.value > 0
    ensures Inv(Apply(st, TryAcquire(t)))
  {
    var r := Apply(st, TryAcquire(t));
    LockAfter(st, r, t, Marking(Enter));
    PlainMove(st, r, t, Marking(Enter));
  }

  lemma LockDownKeeps(st: State, t: Tid)
    requires Inv(st) && Enabled(st, LockDown(t))
    ensures Inv(Apply(st, LockDown(t)))
  {
    var r := Apply(st, LockDown(t));
    if st.lock.value == 0 {
      NoDupBack(st.lock.waiters, t);
    } else {
      var p := Marking(st.at[t].goal);
      LockAfter(st, r, t, p);
      assert PlaceOk(st.waits, t, st.at[t]);
      PlainMove(st, r, t, p);
    }
  }

  lemma MarkKeeps(st: State, t: Tid)
    requires Inv(st) && Enabled(st, Mark(t))
    ensures Inv(Apply(st, Mark(t)))
  {
    var r := Apply(st, Mark(t));
    LockAfter(st, r, t, Inside);
    PlainMove(st, r, t, Inside);
  }

  lemma ReleaseKeeps(st: State, t: Tid)
    requires Inv(st) && Enabled(st, Release(t))
    ensures Inv(Apply(st, Release(t)))
  {
    var r := Apply(st, Release(t));
    LockAfter(st, r, t, Leaving);
    PlainMove(st, r, t, Leaving);
  }

  lemma UpLock(st: State, st': State, t: Tid, p: Place)
    requires LockOk(st) && t in st.at && Uses(st.at[t]) && !Holds(st.at[t]) && !Uses(p) && !p.Acquiring?
    requires st'.at == st.at[t := p] && st'.lock == SemaUp(st.lock) && st'.holder == st.holder
    ensures LockOk(st')
  {
    if st.lock.waiters != [] { NoDupFront(st.lock.waiters); }
    LockAfter(st, st', t, p);
  }

  lemma LeaveKeeps(st: State, t: Tid)
    requires Inv(st) && Enabled(st, LockUp(t)) && st.at[t] == Leaving
    ensures Inv(Apply(st, LockUp(t)))
  {
    var r := Apply(st, LockUp(t));
    UpLock(st, r, t, Outside);
    PlainMove(st, r, t, Outside);
  }

  /** The place belongs to the wait `w`, or to none. */
  predicate WaitsIn(p: Place, w: WaitId) {
    p in {Queued(w), Parting(w), Sleeping(w)} || !(p.Queued? || p.Parting? || p.Sleeping?)
  }

  /** The waits other than `w` do not notice when a thread moves that is in `w` or in no wait. */
  lemma OtherWaits(st: State, at': map<Tid, Place>, t: Tid, p: Place, w: WaitId)
    requires Inv(st) && t in st.at && at' == st.at[t := p] && WaitsIn(st.at[t], w)
    ensures forall v :: v in st.waits && v != w ==> WaitOk(st.conds, at', v, st.waits[v])
  {
  }

  lemma WaitKeeps(st: State, t: Tid, c: CondId, w: WaitId)
    requires Inv(st) && Enabled(st, Wait(t, c, w))
    ensures Inv(Apply(st, Wait(t, c, w)))
  {
    var r := Apply(st, Wait(t, c, w));
    LockAfter(st, r, t, Queued(w));
    OtherWaits(st, r.at, t, Queued(w), w);
    assert ListOk(st.waits, c, st.conds[c]);
    NoDupBack(st.conds[c], w);
    forall v | v in r.waits ensures WaitOk(r.conds, r.at, v, r.waits[v]) {
      if v != w { assert WaitOk(st.conds, r.at, v, st.waits[v]); }
    }
  }

  lemma PartKeeps(st: State, t: Tid)
    requires Inv(st) && Enabled(st, Part(t))
    ensures Inv(Apply(st, Part(t)))
  {
    var r, w := Apply(st, Part(t)), st.at[t].w;
    LockAfter(st, r, t, Parting(w));
    assert PlaceOk(st.waits, t, st.at[t]);
    assert WaitOk(st.conds, st.at, w, st.waits[w]);
    OtherWaits(st, r.at, t, Parting(w), w);
  }

  lemma PartUpKeeps(st: State, t: Tid)
    requires Inv(st) && Enabled(st, LockUp(t)) && st.at[t].Parting?
    ensures Inv(Apply(st, LockUp(t)))
  {
    var r, w := Apply(st, LockUp(t)), st.at[t].w;
    UpLock(st, r, t, Sleeping(w));
    assert PlaceOk(st.waits, t, st.at[t]);
    assert WaitOk(st.conds, st.at, w, st.waits[w]);
    OtherWaits(st, r.at, t, Sleeping(w), w);
  }

  lemma SleepBlocks(st: State, t: Tid)
    requires Inv(st) && Enabled(st, SleepDown(t)) && st.waits[st.at[t].w].sema.value == 0
    ensures Inv(Apply(st, SleepDown(t)))
  {
    assert PlaceOk(st.waits, t, st.at[t]);
    assert WaitOk(st.conds, st.at, st.at[t].w, st.waits[st.at[t].w]);
  }

  lemma SleepEnds(st: State, t: Tid)
    requires Inv(st) && Enabled(st, SleepDown(t)) && st.waits[st.at[t].w].sema.value > 0
    ensures Inv(Apply(st, SleepDown(t)))
  {
    var r, w := Apply(st, SleepDown(t)), st.at[t].w;
    assert PlaceOk(st.waits, t, st.at[t]);
    assert WaitOk(st.conds, st.at, w, st.waits[w]);
    LockAfter(st, r, t, Acquiring(Return(w)));
    OtherWaits(st, r.at, t, Acquiring(Return(w)), w);
    forall u | u in r.at ensures PlaceOk(r.waits, u, r.at[u]) { assert PlaceOk(st.waits, u, st.at[u]); }
    forall c | c in r.conds ensures ListOk(r.waits, c, r.conds[c]) { assert ListOk(st.waits, c, st.conds[c]); }
  }

  /** Whoever is picked has given the lock away already, so it sleeps or is about to. */
  lemma PickedSleeps(st: State, t: Tid, w: WaitId)
    requires Inv(st) && t in st.at && st.at[t] == Inside && w in st.waits && st.waits[w].phase.Listed?
    ensures st.waits[w].owner != t && st.waits[w].owner in st.at && st.at[st.waits[w].owner] == Sleeping(w)
  {
    assert WaitOk(st.conds, st.at, w, st.waits[w]);
    if Uses(st.at[st.waits[w].owner]) { OneUser(st, t, st.waits[w].owner); }
  }

  lemma SignalWaits(st: State, r: State, t: Tid, c: CondId, w: WaitId)
    requires Inv(st) && Enabled(st, Signal(t, c)) && r == Apply(st, Signal(t, c)) && st.conds[c] != [] &&
      w == st.conds[c][0]
    ensures forall v :: v in r.waits ==> WaitOk(r.conds, r.at, v, r.waits[v])
  {
    assert ListOk(st.waits, c, st.conds[c]) && w in st.conds[c];
    PickedSleeps(st, t, w);
    NoDupFront(st.conds[c]);
    OtherWaits(st, r.at, t, Signalling(w), w);
    forall v | v in r.waits ensures WaitOk(r.conds, r.at, v, r.waits[v]) {
      assert WaitOk(st.conds, st.at, v, st.waits[v]);
      if v != w { assert WaitOk(st.conds, r.at, v, st.waits[v]); }
    }
  }

  lemma SignalLists(st: State, r: State, t: Tid, c: CondId)
    requires Inv(st) && Enabled(st, Signal(t, c)) && r == Apply(st, Signal(t, c)) && st.conds[c] != []
    ensures forall d :: d in r.conds ==> ListOk(r.waits, d, r.conds[d])
  {
    NoDupFront(st.conds[c]);
    assert ListOk(st.waits, c, st.conds[c]);
    forall d | d in r.conds ensures ListOk(r.waits, d, r.conds[d]) { assert ListOk(st.waits, d, st.conds[d]); }
  }

  lemma SignalKeeps(st: State, t: Tid, c: CondId)
    requires Inv(st) && Enabled(st, Signal(t, c)) && st.conds[c] != []
    ensures Inv(Apply(st, Signal(t, c)))
  {
    var w := st.conds[c][0];
    assert ListOk(st.waits, c, st.conds[c]) && w in st.conds[c];
    var r := Apply(st, Signal(t, c));
    SignalWaits(st, r, t, c, w);
    PickedSleeps(st, t, w);
    LockAfter(st, r, t, Signalling(w));
    SignalLists(st, r, t, c);
    forall u | u in r.at ensures PlaceOk(r.waits, u, r.at[u]) { assert PlaceOk(st.waits, u, st.at[u]); }
  }

  lemma UpWaiterKeeps(st: State, t: Tid)
    requires Inv(st) && Enabled(st, UpWaiter(t))
    ensures Inv(Apply(st, UpWaiter(t)))
  {
    var r, w := Apply(st, UpWaiter(t)), st.at[t].w;
    assert PlaceOk(st.waits, t, st.at[t]);
    assert WaitOk(st.conds, st.at, w, st.waits[w]);
    LockAfter(st, r, t, Inside);
    OtherWaits(st, r.at, t, Inside, w);
    forall u | u in r.at ensures PlaceOk(r.waits, u, r.at[u]) {
      assert PlaceOk(st.waits, u, st.at[u]);
      if u != t && Uses(st.at[u]) { OneUser(st, t, u); }
    }
    forall d | d in r.conds ensures ListOk(r.waits, d, r.conds[d]) { assert ListOk(st.waits, d, st.conds[d]); }
  }

  lemma StepKeeps(st: State, a: Action)
    requires Inv(st) && Enabled(st, a)
    ensures Inv(Apply(st, a))
  {
    match a
    case Acquire(t) => AcquireKeeps(st, t);
    case TryAcquire(t) => if st.lock.value > 0 { TryAcquireKeeps(st, t); }
    case LockDown(t) => LockDownKeeps(st, t);
    case Mark(t) => MarkKeeps(st, t);
    case Release(t) => ReleaseKeeps(st, t);
    case Wait(t, c, w) => WaitKeeps(st, t, c, w);
    case Part(t) => PartKeeps(st, t);
    case LockUp(t) => if st.at[t] == Leaving { LeaveKeeps(st, t); } else { PartUpKeeps(st, t); }
    case SleepDown(t) => if st.waits[st.at[t].w].sema.value == 0 { SleepBlocks(st, t); } else { SleepEnds(st, t); }
    case Signal(t, c) => if st.conds[c] != [] { SignalKeeps(st, t, c); }
    case UpWaiter(t) => UpWaiterKeeps(st, t);
  }

  // ---------------------------------------------------------------------------------
  // Runs
  // ---------------------------------------------------------------------------------

  predicate Possible(st: State, run: seq<Action>)
    decreases |run|
  {
    run == [] || (Enabled(st, run[0]) && Possible(Apply(st, run[0]), run[1..]))
  }

  function Final(st: State, run: seq<Action>): (r: State)
    requires Possible(st, run)
    decreases |run|
  {
    if run == [] then st else Final(Apply(st, run[0]), run[1..])
  }

  /** `lock_init` and `cond_init`. */
  ghost predicate Starts(st: State) {
    && st.lock == Sema(1, []) && st.holder == Nobody && st.waits == map[]
    && (forall c :: c in st.conds ==> st.conds[c] == [])
    && (forall t :: t in st.at ==> st.at[t] == Outside)
  }

  lemma StartsOk(st: State)
    requires Starts(st)
    ensures Inv(st)
  {
    assert Users(st.at) == {};
  }

  lemma {:induction false} RunKeeps(st: State, run: seq<Action>)
    requires Inv(st) && Possible(st, run)
    ensures Inv(Final(st, run))
    decreases |run|
  {
    if run != [] {
      StepKeeps(st, run[0]);
      RunKeeps(Apply(st, run[0]), run[1..]);
    }
  }

  /** After every run, the value of the lock's semaphore and the number of threads between getting
      through it and upping it make one: no two threads are in the critical section. */
  lemma MutualExclusion(st: State, run: seq<Action>, t: Tid, u: Tid)
    requires Starts(st) && Possible(st, run)
    ensures var r := Final(st, run);
      && r.lock.value + |Users(r.at)| == 1
      && (t in r.at && u in r.at && Uses(r.at[t]) && Uses(r.at[u]) ==> t == u)
      && (t in r.at ==> (r.holder == Held(t) <==> Holds(r.at[t])))
  {
    StartsOk(st);
    RunKeeps(st, run);
    var r := Final(st, run);
    if t in r.at && u in r.at && Uses(r.at[t]) && Uses(r.at[u]) { OneUser(r, t, u); }
  }

  // ---------------------------------------------------------------------------------
  // The lock moves on
  // ---------------------------------------------------------------------------------

  /** A thread on its way to the lock's semaphore, not asleep in it. */
  predicate Coming(st: State, t: Tid) { t in st.at && st.at[t].Acquiring? && t !in st.lock.waiters }

  /** While the lock is free and threads sleep for it, one is awake and coming for it. */
  ghost predicate Awake(st: State) {
    st.lock.value > 0 && st.lock.waiters != [] ==> exists t: Tid :: Coming(st, t)
  }

  lemma UpWakes(st: State, t: Tid)
    requires Inv(st) && Enabled(st, LockUp(t))
    ensures Awake(Apply(st, LockUp(t)))
  {
    if st.lock.waiters != [] {
      NoDupFront(st.lock.waiters);
      var u := st.lock.waiters[0];
      assert u in st.lock.waiters && u != t;
      assert Coming(Apply(st, LockUp(t)), u);
    }
  }

  lemma AwakeStep(st: State, a: Action)
    requires Inv(st) && Awake(st) && Enabled(st, a)
    ensures Awake(Apply(st, a))
  {
    var r := Apply(st, a);
    if a.LockUp? {
      UpWakes(st, a.t);
    } else if !a.LockDown? && !a.TryAcquire? && r.lock.value > 0 && r.lock.waiters != [] {
      assert r.lock == st.lock;
      var u: Tid :| Coming(st, u);
      assert Coming(r, u);
    }
  }

  lemma {:induction false} RunAwake(st: State, run: seq<Action>)
    requires Inv(st) && Awake(st) && Possible(st, run)
    ensures Inv(Final(st, run)) && Awake(Final(st, run))
    decreases |run|
  {
    if run != [] {
      StepKeeps(st, run[0]);
      AwakeStep(st, run[0]);
      RunAwake(Apply(st, run[0]), run[1..]);
    }
  }

  /** What the thread in the critical section can do next. */
  function NextUse(t: Tid, p: Place): (a: Action)
    requires Uses(p)
  {
    match p
    case Marking(_) => Mark(t)
    case Inside => Release(t)
    case Queued(_) => Part(t)
    case Signalling(_) => UpWaiter(t)
    case _ => LockUp(t)
  }

  /** How far a wait has come: 0 before it is picked, then picked, upped, and over. */
  function Stage(st: State, w: WaitId): (n: nat) {
    if w !in st.waits || st.waits[w].phase.Listed? then 0
    else if st.waits[w].phase == Picked then 1
    else if st.waits[w].phase == Upped then 2
    else 3
  }

  /** Whether a step takes `w` off its condition's list; whether it ups the semaphore of `w`. */
  predicate Picks(st: State, a: Action, w: WaitId) {
    a.Signal? && a.c in st.conds && st.conds[a.c] != [] && st.conds[a.c][0] == w
  }

  predicate UpsIt(st: State, a: Action, w: WaitId) {
    a.UpWaiter? && a.t in st.at && st.at[a.t] == Signalling(w)
  }

  lemma StageStep(st: State, a: Action, w: WaitId)
    requires Inv(st) && Enabled(st, a)
    ensures Stage(Apply(st, a), w) == Stage(st, w) || Stage(Apply(st, a), w) == Stage(st, w) + 1
    ensures Picks(st, a, w) <==> Stage(st, w) < 1 <= Stage(Apply(st, a), w)
    ensures UpsIt(st, a, w) <==> Stage(st, w) < 2 <= Stage(Apply(st, a), w)
  {
    assert PlaceOk(st.waits, a.t, st.at[a.t]);
    if a.Signal? {
      assert ListOk(st.waits, a.c, st.conds[a.c]);
      if st.conds[a.c] != [] { assert st.conds[a.c][0] in st.conds[a.c]; }
    } else if a.SleepDown? {
      assert WaitOk(st.conds, st.at, st.at[a.t].w, st.waits[st.at[a.t].w]);
    }
  }

  function PickCount(st: State, run: seq<Action>, w: WaitId): (n: nat)
    requires Possible(st, run)
    decreases |run|
  {
    if run == [] then 0 else Count(Picks(st, run[0], w)) + PickCount(Apply(st, run[0]), run[1..], w)
  }

  function UpCount(st: State, run: seq<Action>, w: WaitId): (n: nat)
    requires Possible(st, run)
    decreases |run|
  {
    if run == [] then 0 else Count(UpsIt(st, run[0], w)) + UpCount(Apply(st, run[0]), run[1..], w)
  }

  /** A wait goes through its stages in order, once: it is picked and upped at most once, and what is
      upped stays upped until its owner takes it. */
  lemma {:induction false} StagesCount(st: State, run: seq<Action>, w: WaitId)
    requires Inv(st) && Possible(st, run)
    ensures Stage(st, w) <= Stage(Final(st, run), w)
    ensures PickCount(st, run, w) == Count(Stage(Final(st, run), w) >= 1) - Count(Stage(st, w) >= 1)
    ensures UpCount(st, run, w) == Count(Stage(Final(st, run), w) >= 2) - Count(Stage(st, w) >= 2)
    decreases |run|
  {
    if run != [] {
      StepKeeps(st, run[0]);
      StageStep(st, run[0], w);
      StagesCount(Apply(st, run[0]), run[1..], w);
    }
  }

  /** A `cond_wait` that is about to return was dequeued by exactly one signal, its semaphore was
      upped exactly once, and it holds the lock when it returns. */
  lemma WaitReturns(st: State, run: seq<Action>, t: Tid, w: WaitId)
    requires Starts(st) && Possible(st, run)
    requires t in Final(st, run).at && Final(st, run).at[t] == Marking(Return(w))
    ensures PickCount(st, run, w) == 1 && UpCount(st, run, w) == 1
    ensures Enabled(Final(st, run), Mark(t))
    ensures var r := Apply(Final(st, run), Mark(t)); r.at[t] == Inside && r.holder == Held(t)
  {
    StartsOk(st);
    RunKeeps(st, run);
    StagesCount(st, run, w);
    assert PlaceOk(Final(st, run).waits, t, Final(st, run).at[t]);
  }

  /** A signal that comes after the lock was released and before the waiter sleeps is not lost: a
      waiter is blocked only while it has not been upped, and once upped it gets through. */
  lemma NoLostSignal(st: State, t: Tid, w: WaitId)
    requires Inv(st) && t in st.at && st.at[t] == Sleeping(w)
    ensures w in st.waits && st.waits[w].owner == t
    ensures t in st.waits[w].sema.waiters ==> Stage(st, w) < 2
    ensures Stage(st, w) == 2 ==> Enabled(st, SleepDown(t)) && Apply(st, SleepDown(t)).at[t] == Acquiring(Return(w))
  {
    assert PlaceOk(st.waits, t, st.at[t]);
    assert WaitOk(st.conds, st.at, w, st.waits[w]);
  }

  /** The waits put on the list of a condition by a run, and those taken off it, in order. */
  function Enqueued(run: seq<Action>, c: CondId): (q: seq<WaitId>) {
    if run == [] then []
    else (if run[0].Wait? && run[0].c == c then [run[0].w] else []) + Enqueued(run[1..], c)
  }

  function Dequeued(st: State, run: seq<Action>, c: CondId): (q: seq<WaitId>)
    requires Possible(st, run)
    decreases |run|
  {
    if run == [] then []
    else (if run[0].Signal? && run[0].c == c && c in st.conds && st.conds[c] != [] then [st.conds[c][0]] else [])
         + Dequeued(Apply(st, run[0]), run[1..], c)
  }

  lemma QueueStep(st: State, a: Action, c: CondId)
    requires Inv(st) && Enabled(st, a) && c in st.conds
    ensures c in Apply(st, a).conds
    ensures st.conds[c] + (if a.Wait? && a.c == c then [a.w] else [])
         == (if a.Signal? && a.c == c && st.conds[c] != [] then [st.conds[c][0]] else []) + Apply(st, a).conds[c]
  {
    if a.Signal? && a.c == c && st.conds[c] != [] {
      assert ListOk(st.waits, c, st.conds[c]) && st.conds[c][0] in st.conds[c];
    }
  }

  lemma Regroup(a: seq<WaitId>, b: seq<WaitId>, d: seq<WaitId>, e: seq<WaitId>, x: seq<WaitId>, y: seq<WaitId>,
                z: seq<WaitId>)
    requires a + b == d + e && e + x == y + z
    ensures a + (b + x) == (d + y) + z
  {
    assert a + (b + x) == (a + b) + x;
    assert (d + e) + x == d + (e + x);
    assert d + (y + z) == (d + y) + z;
  }

  /** Signals go out in the order in which the waits came in. */
  lemma {:induction false} FirstInFirstOut(st: State, run: seq<Action>, c: CondId)
    requires Inv(st) && Possible(st, run) && c in st.conds
    ensures c in Final(st, run).conds
    ensures st.conds[c] + Enqueued(run, c) == Dequeued(st, run, c) + Final(st, run).conds[c]
    decreases |run|
  {
    if run != [] {
      var a, next := run[0], Apply(st, run[0]);
      StepKeeps(st, a);
      QueueStep(st, a, c);
      FirstInFirstOut(next, run[1..], c);
      Regroup(st.conds[c], if a.Wait? && a.c == c then [a.w] else [],
              if a.Signal? && a.c == c && st.conds[c] != [] then [st.conds[c][0]] else [], next.conds[c],
              Enqueued(run[1..], c), Dequeued(next, run[1..], c), Final(st, run).conds[c]);
    }
  }

  type Good = st: State | Inv(st) ghost witness State(Sema(1, []), Nobody, map[], map[], map[])

  function After(st: Good, a: Action): (r: Good)
    requires Enabled(st, a)
  {
    StepKeeps(st, a);
    Apply(st, a)
  }

  lemma PicksFirst(st: Good, t: Tid, c: CondId)
    requires t in st.at && st.at[t] == Inside && c in st.conds && st.conds[c] != []
    ensures Enabled(st, Signal(t, c))
    ensures var r := After(st, Signal(t, c));
      r.at == st.at[t := Signalling(st.conds[c][0])] && r.conds == st.conds[c := st.conds[c][1..]]
  {
    assert ListOk(st.waits, c, st.conds[c]) && st.conds[c][0] in st.conds[c];
  }

  lemma UpsPicked(st: Good, t: Tid, w: WaitId)
    requires t in st.at && st.at[t] == Signalling(w)
    ensures Enabled(st, UpWaiter(t))
    ensures var r := After(st, UpWaiter(t)); r.at == st.at[t := Inside] && r.conds == st.conds && Stage(r, w) == 2
  {
    assert PlaceOk(st.waits, t, st.at[t]);
  }

  lemma StageGrows(st: Good, a: Action, w: WaitId)
    requires Enabled(st, a)
    ensures Stage(st, w) <= Stage(After(st, a), w)
  {
    StageStep(st, a, w);
  }

  lemma StagesGrow(st: Good, a: Action, r: Good)
    requires Enabled(st, a) && r == After(st, a)
    ensures forall w :: Stage(st, w) <= Stage(r, w)
  {
    forall w ensures Stage(st, w) <= Stage(r, w) { StageGrows(st, a, w); }
  }

  /** `cond_signal` with a list that is not empty: its first wait is upped. */
  method CondSignal(st: Good, t: Tid, c: CondId) returns (r: Good)
    requires t in st.at && st.at[t] == Inside && c in st.conds && st.conds[c] != []
    ensures r.at == st.at && r.conds == st.conds[c := st.conds[c][1..]] && Stage(r, st.conds[c][0]) == 2
    ensures forall w :: Stage(st, w) <= Stage(r, w)
  {
    PicksFirst(st, t, c);
    var mid := After(st, Signal(t, c));
    UpsPicked(mid, t, st.conds[c][0]);
    r := After(mid, UpWaiter(t));
    StagesGrow(st, Signal(t, c), mid);
    StagesGrow(mid, UpWaiter(t), r);
  }

  /** `cond_broadcast`: every wait on the list is upped, and the list is empty. */
  method CondBroadcast(st: Good, t: Tid, c: CondId) returns (r: Good)
    requires t in st.at && st.at[t] == Inside && c in st.conds
    ensures r.at == st.at && c in r.conds && r.conds[c] == []
    ensures forall w :: w in st.conds[c] ==> Stage(r, w) >= 2
  {
    r := st;
    ghost var all, k := st.conds[c], 0;
    while r.conds[c] != []
      invariant r.at == st.at && c in r.conds && k <= |all| && r.conds[c] == all[k..]
      invariant forall i :: 0 <= i < k ==> Stage(r, all[i]) >= 2
      decreases |all| - k
    {
      assert all[k..][0] == all[k] && all[k..][1..] == all[k + 1..];
      r := CondSignal(r, t, c);
      k := k + 1;
    }
  }

  // ---------------------------------------------------------------------------------
  // Broadcasts among other threads
  // ---------------------------------------------------------------------------------

  /** All that `t` does in the run is to signal condition `c`. */
  predicate Broadcasts(run: seq<Action>, t: Tid, c: CondId) {
    forall i :: 0 <= i < |run| && run[i].t == t ==> run[i] == Signal(t, c) || run[i] == UpWaiter(t)
  }

  /** A wait that is still on the list, about to be upped by `t`, or upped. */
  predicate OnItsWay(st: State, t: Tid, c: CondId, w: WaitId)
    requires t in st.at && c in st.conds
  {
    w in st.conds[c] || st.at[t] == Signalling(w) || Stage(st, w) >= 2
  }

  /** The thread that broadcasts is in the monitor. */
  predicate InMonitor(st: State, t: Tid, c: CondId) {
    t in st.at && c in st.conds && (st.at[t] == Inside || st.at[t].Signalling?)
  }

  lemma PickedOrLater(st: Good, r: Good, t: Tid, c: CondId, w: WaitId)
    requires InMonitor(st, t, c) && OnItsWay(st, t, c, w) && st.at[t] == Inside && st.conds[c] != []
    requires Enabled(st, Signal(t, c)) && r == After(st, Signal(t, c))
    requires r.at == st.at[t := Signalling(st.conds[c][0])] && r.conds == st.conds[c := st.conds[c][1..]]
    ensures InMonitor(r, t, c) && OnItsWay(r, t, c, w)
  {
    StageGrows(st, Signal(t, c), w);
    assert st.conds[c] == [st.conds[c][0]] + st.conds[c][1..];
  }

  /** Its own steps. */
  lemma OwnPick(st: Good, t: Tid, c: CondId, w: WaitId)
    requires InMonitor(st, t, c) && Enabled(st, Signal(t, c)) && OnItsWay(st, t, c, w)
    ensures InMonitor(After(st, Signal(t, c)), t, c) && OnItsWay(After(st, Signal(t, c)), t, c, w)
  {
    if st.conds[c] != [] {
      PicksFirst(st, t, c);
      PickedOrLater(st, After(st, Signal(t, c)), t, c, w);
    }
  }

  lemma OwnUp(st: Good, t: Tid, c: CondId, w: WaitId)
    requires InMonitor(st, t, c) && Enabled(st, UpWaiter(t)) && OnItsWay(st, t, c, w)
    ensures InMonitor(After(st, UpWaiter(t)), t, c) && OnItsWay(After(st, UpWaiter(t)), t, c, w)
  {
    StageGrows(st, UpWaiter(t), w);
    UpsPicked(st, t, st.at[t].w);
  }

  /** The steps of others: nobody else can signal while `t` has the lock. */
  lemma OtherStep(st: Good, t: Tid, c: CondId, a: Action, w: WaitId)
    requires InMonitor(st, t, c) && Enabled(st, a) && a.t != t && OnItsWay(st, t, c, w)
    ensures InMonitor(After(st, a), t, c) && OnItsWay(After(st, a), t, c, w)
  {
    StageGrows(st, a, w);
    assert Holds(st.at[t]) && st.holder == Held(t);
  }

  lemma {:induction false} BroadcastSteps(st: Good, run: seq<Action>, t: Tid, c: CondId, w: WaitId)
    requires Possible(st, run) && Broadcasts(run, t, c) && InMonitor(st, t, c) && OnItsWay(st, t, c, w)
    ensures InMonitor(Final(st, run), t, c) && OnItsWay(Final(st, run), t, c, w)
    decreases |run|
  {
    if run != [] {
      if run[0].t != t {
        OtherStep(st, t, c, run[0], w);
      } else if run[0] == Signal(t, c) {
        OwnPick(st, t, c, w);
      } else {
        OwnUp(st, t, c, w);
      }
      BroadcastSteps(After(st, run[0]), run[1..], t, c, w);
    }
  }

  /** `cond_broadcast` among other threads: whatever they do between its signals, when it finds the list
      empty, every wait that was on the list when it began has been upped. */
  lemma BroadcastRaisesAll(st: Good, run: seq<Action>, t: Tid, c: CondId, w: WaitId)
    requires Possible(st, run) && Broadcasts(run, t, c) && t in st.at && st.at[t] == Inside && c in st.conds &&
      w in st.conds[c]
    requires t in Final(st, run).at && Final(st, run).at[t] == Inside && c in Final(st, run).conds &&
      Final(st, run).conds[c] == []
    ensures Stage(Final(st, run), w) >= 2
  {
    BroadcastSteps(st, run, t, c, w);
  }

  // ---------------------------------------------------------------------------------
  // Everyone gets in
  // ---------------------------------------------------------------------------------

  /** `lock_release`: the lock is free, and the first thread asleep for it is awake. */
  lemma ReleaseHandsOver(st: Good, t: Tid)
    requires Enabled(st, Release(t))
    ensures Enabled(After(st, Release(t)), LockUp(t))
    ensures var r := After(After(st, Release(t)), LockUp(t));
      && r.at == st.at[t := Outside] && r.holder == Nobody && r.lock.value == 1
      && r.lock.waiters == if st.lock.waiters == [] then [] else st.lock.waiters[1..]
  {
    OneUser(st, t, t);
  }

  /** `cond_wait` puts the wait last on the list, */
  lemma WaitJoins(st: Good, t: Tid, c: CondId, w: WaitId)
    requires Enabled(st, Wait(t, c, w))
    ensures var r := After(st, Wait(t, c, w));
      r.at == st.at[t := Queued(w)] && r.conds == st.conds[c := st.conds[c] + [w]] && r.lock == st.lock
  {
  }

  /** and then hands the lock over like `lock_release`. */
  lemma WaitHandsOver(st: Good, t: Tid)
    requires Enabled(st, Part(t))
    ensures Enabled(After(st, Part(t)), LockUp(t))
    ensures var r := After(After(st, Part(t)), LockUp(t));
      && r.at == st.at[t := Sleeping(st.at[t].w)] && r.conds == st.conds && r.holder == Nobody && r.lock.value == 1
      && r.lock.waiters == if st.lock.waiters == [] then [] else st.lock.waiters[1..]
  {
    OneUser(st, t, t);
  }

  /** `lock_try_acquire` gets through exactly if nobody is in the critical section, and never sleeps. */
  lemma TryAcquires(st: Good, t: Tid)
    requires Enabled(st, TryAcquire(t))
    ensures var r := After(st, TryAcquire(t));
      if Users(st.at) == {} then r.at == st.at[t := Marking(Enter)] && r.lock.value == 0 else r == st
  {
    if u: Tid :| u in Users(st.at) { OneUser(st, u, u); }
  }

  /** Who falls asleep for the lock by a step, and who is woken. */
  function Asleep(st: State, a: Action): (q: seq<Tid>) {
    if a.LockDown? && st.lock.value == 0 then [a.t] else []
  }

  function Awoken(st: State, a: Action): (q: seq<Tid>) {
    if a.LockUp? && st.lock.waiters != [] then [st.lock.waiters[0]] else []
  }

  lemma LockQueueStep(st: State, a: Action)
    requires Enabled(st, a)
    ensures st.lock.waiters + Asleep(st, a) == Awoken(st, a) + Apply(st, a).lock.waiters
  {
  }

  /** The threads that fell asleep for the lock in a run, and those that were woken, in order. */
  function FellAsleep(st: State, run: seq<Action>): (q: seq<Tid>)
    requires Possible(st, run)
    decreases |run|
  {
    if run == [] then [] else Asleep(st, run[0]) + FellAsleep(Apply(st, run[0]), run[1..])
  }

  function WokenUp(st: State, run: seq<Action>): (q: seq<Tid>)
    requires Possible(st, run)
    decreases |run|
  {
    if run == [] then [] else Awoken(st, run[0]) + WokenUp(Apply(st, run[0]), run[1..])
  }

  /** Threads asleep for the lock are woken in the order in which they fell asleep. */
  lemma {:induction false} LockQueue(st: State, run: seq<Action>)
    requires Possible(st, run)
    ensures st.lock.waiters + FellAsleep(st, run) == WokenUp(st, run) + Final(st, run).lock.waiters
    decreases |run|
  {
    if run != [] {
      var next := Apply(st, run[0]);
      LockQueueStep(st, run[0]);
      LockQueue(next, run[1..]);
      Regroup(st.lock.waiters, Asleep(st, run[0]), Awoken(st, run[0]), next.lock.waiters,
              FellAsleep(next, run[1..]), WokenUp(next, run[1..]), Final(st, run).lock.waiters);
    }
  }

  /** A run in which nobody begins anything: threads that are at the lock, or have it, get on and leave. */
  predicate Finishing(run: seq<Action>) {
    forall i :: 0 <= i < |run| ==> !run[i].Acquire? && !run[i].TryAcquire? && !run[i].Wait? && !run[i].Signal?
  }

  ghost predicate GetsIn(st: State, run: seq<Action>, t: Tid) {
    && Possible(st, run) && Finishing(run)
    && t in Final(st, run).at && Final(st, run).at[t] == Inside && Final(st, run).holder == Held(t)
  }

  lemma GetsInAfter(st: Good, a: Action, rest: seq<Action>, t: Tid) returns (run: seq<Action>)
    requires Enabled(st, a) && Finishing([a]) && GetsIn(After(st, a), rest, t)
    ensures GetsIn(st, run, t)
  {
    run := [a] + rest;
    assert run[1..] == rest && [a][0] == a;
  }

  lemma Enters(st: Good, t: Tid) returns (run: seq<Action>)
    requires Coming(st, t) && st.lock.value > 0
    ensures GetsIn(st, run, t)
  {
    var st1 := After(st, LockDown(t));
    assert GetsIn(After(st1, Mark(t)), [], t);
    var rest := GetsInAfter(st1, Mark(t), [], t);
    run := GetsInAfter(st, LockDown(t), rest, t);
  }

  /** How many steps the thread in the critical section is from leaving it. */
  function UseLeft(p: Place): (n: nat) {
    match p
    case Marking(_) => 3
    case Signalling(_) => 3
    case Inside => 2
    case Queued(_) => 2
    case Parting(_) => 1
    case Leaving => 1
    case _ => 0
  }

  /** It takes such a step, and the others stay where they are. */
  lemma UserSteps(st: Good, u: Tid, a: Action)
    requires u in st.at && Uses(st.at[u]) && UseLeft(st.at[u]) > 1 && a == NextUse(u, st.at[u])
    ensures Enabled(st, a) && Finishing([a]) && After(st, a).lock == st.lock
    ensures var r := After(st, a); u in r.at && r.at == st.at[u := r.at[u]] && Uses(r.at[u])
    ensures UseLeft(After(st, a).at[u]) < UseLeft(st.at[u])
  {
    assert PlaceOk(st.waits, u, st.at[u]);
  }

  lemma UserLeaves(st: Good, u: Tid)
    requires u in st.at && Uses(st.at[u]) && UseLeft(st.at[u]) == 1
    ensures Enabled(st, LockUp(u)) && Awake(After(st, LockUp(u)))
    ensures var r := After(st, LockUp(u));
      && r.at == st.at[u := r.at[u]] && !r.at[u].Acquiring? && r.lock.value == 1
      && r.lock.waiters == if st.lock.waiters == [] then [] else st.lock.waiters[1..]
  {
    OneUser(st, u, u);
    UpWakes(st, u);
  }

  /** While `u` has the lock and `t` wants it. */
  lemma {:induction false} InAfterUser(st: Good, t: Tid, u: Tid) returns (run: seq<Action>)
    requires t in st.at && st.at[t].Acquiring? && u in st.at && Uses(st.at[u])
    ensures GetsIn(st, run, t)
    decreases |st.lock.waiters|, UseLeft(st.at[u])
  {
    if UseLeft(st.at[u]) > 1 {
      var a := NextUse(u, st.at[u]);
      UserSteps(st, u, a);
      var rest := InAfterUser(After(st, a), t, u);
      run := GetsInAfter(st, a, rest, t);
    } else {
      UserLeaves(st, u);
      var r := After(st, LockUp(u));
      var rest;
      if t !in r.lock.waiters { rest := Enters(r, t); } else { rest := InAfterNext(r, t); }
      run := GetsInAfter(st, LockUp(u), rest, t);
    }
  }

  /** While the lock is free and `t` sleeps for it. */
  lemma {:induction false} InAfterNext(st: Good, t: Tid) returns (run: seq<Action>)
    requires t in st.lock.waiters && st.lock.value > 0 && Awake(st)
    ensures GetsIn(st, run, t)
    decreases |st.lock.waiters|, 4
  {
    var u: Tid :| Coming(st, u);
    var r := After(st, LockDown(u));
    var rest := InAfterUser(r, t, u);
    run := GetsInAfter(st, LockDown(u), rest, t);
  }

  lemma CanGetIn(st: Good, t: Tid) returns (run: seq<Action>)
    requires Awake(st) && t in st.at && st.at[t].Acquiring?
    ensures GetsIn(st, run, t)
  {
    if st.lock.value == 0 {
      assert Users(st.at) != {};
      var u :| u in Users(st.at);
      run := InAfterUser(st, t, u);
    } else if t in st.lock.waiters {
      run := InAfterNext(st, t);
    } else {
      run := Enters(st, t);
    }
  }

  /** From every state that a run leads to, a thread that wants the lock can get it, with no thread doing
      more than to finish what it has begun and to release the lock. */
  lemma EveryoneGetsIn(st: State, run: seq<Action>, t: Tid) returns (more: seq<Action>)
    requires Starts(st) && Possible(st, run) && t in Final(st, run).at && Final(st, run).at[t].Acquiring?
    ensures GetsIn(Final(st, run), more, t)
  {
    StartsOk(st);
    RunAwake(st, run);
    more := CanGetIn(Final(st, run), t);
  }

  /** So `lock_acquire` succeeds in the end, whoever calls it and when. */
  lemma AcquireSucceeds(st: State, run: seq<Action>, t: Tid) returns (more: seq<Action>)
    requires Starts(st) && Possible(st, run) && t in Final(st, run).at && Final(st, run).at[t] == Outside
    ensures Enabled(Final(st, run), Acquire(t)) && GetsIn(Apply(Final(st, run), Acquire(t)), more, t)
  {
    StartsOk(st);
    RunAwake(st, run);
    AwakeStep(Final(st, run), Acquire(t));
    more := CanGetIn(After(Final(st, run), Acquire(t)), t);
  }

  /** A wait that was picked is upped already, or the thread that picked it is about to. */
  ghost predicate PickedHasHelp(st: State) {
    forall w :: w in st.waits && st.waits[w].phase == Picked ==>
      exists u: Tid :: u in st.at && st.at[u] == Signalling(w)
  }

  lemma HelpStep(st: State, a: Action)
    requires Inv(st) && PickedHasHelp(st) && Enabled(st, a)
    ensures PickedHasHelp(Apply(st, a))
  {
    var r := Apply(st, a);
    forall w | w in r.waits && r.waits[w].phase == Picked
      ensures exists u: Tid :: u in r.at && r.at[u] == Signalling(w)
    {
      if Picks(st, a, w) {
        assert ListOk(st.waits, a.c, st.conds[a.c]) && st.conds[a.c][0] in st.conds[a.c];
        assert r.at[a.t] == Signalling(w);
      } else {
        StageStep(st, a, w);
        var u: Tid :| u in st.at && st.at[u] == Signalling(w);
        assert r.at[u] == Signalling(w);
      }
    }
  }

  lemma {:induction false} RunHelps(st: State, run: seq<Action>)
    requires Inv(st) && PickedHasHelp(st) && Possible(st, run)
    ensures PickedHasHelp(Final(st, run))
    decreases |run|
  {
    if run != [] {
      StepKeeps(st, run[0]);
      HelpStep(st, run[0]);
      RunHelps(Apply(st, run[0]), run[1..]);
    }
  }

  lemma UppedGetsIn(st: Good, t: Tid, w: WaitId) returns (run: seq<Action>)
    requires Awake(st) && t in st.at && st.at[t] == Sleeping(w) && Stage(st, w) == 2
    ensures GetsIn(st, run, t)
  {
    NoLostSignal(st, t, w);
    AwakeStep(st, SleepDown(t));
    var rest := CanGetIn(After(st, SleepDown(t)), t);
    run := GetsInAfter(st, SleepDown(t), rest, t);
  }

  lemma UpAndIn(st: Good, t: Tid, u: Tid, w: WaitId) returns (run: seq<Action>)
    requires Awake(st) && t in st.at && st.at[t] == Sleeping(w) && u in st.at && st.at[u] == Signalling(w)
    ensures GetsIn(st, run, t)
  {
    UpsPicked(st, u, w);
    AwakeStep(st, UpWaiter(u));
    var rest := UppedGetsIn(After(st, UpWaiter(u)), t, w);
    run := GetsInAfter(st, UpWaiter(u), rest, t);
  }

  lemma PickedGetsIn(st: Good, t: Tid, w: WaitId) returns (run: seq<Action>)
    requires Awake(st) && PickedHasHelp(st) && t in st.at && st.at[t] == Sleeping(w) && Stage(st, w) >= 1
    ensures GetsIn(st, run, t)
  {
    assert PlaceOk(st.waits, t, st.at[t]);
    if Stage(st, w) == 2 {
      run := UppedGetsIn(st, t, w);
    } else {
      var u: Tid :| u in st.at && st.at[u] == Signalling(w);
      run := UpAndIn(st, t, u, w);
    }
  }

  /** A `cond_wait` that was signalled can return. */
  lemma SignalledGetsIn(st: State, run: seq<Action>, t: Tid, w: WaitId) returns (more: seq<Action>)
    requires Starts(st) && Possible(st, run) && t in Final(st, run).at && Final(st, run).at[t] == Sleeping(w)
    requires Stage(Final(st, run), w) >= 1
    ensures GetsIn(Final(st, run), more, t)
  {
    StartsOk(st);
    RunAwake(st, run);
    RunHelps(st, run);
    more := PickedGetsIn(Final(st, run), t, w);
  }
}
