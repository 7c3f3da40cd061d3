/**
 Threads, the ready list and semaphores.  A step is what the kernel does with interrupts off; a
 run is any list of steps, so every interleaving of any number of threads is covered.  Class Kernel
 holds the same state in fields and changes it as the C code does.
 */
module Scheduler {
  import opened Semaphores
  import opened Sequences

  type SemaId = nat

  datatype Status = Running | Ready | Blocked

  /** A thread is `Waiting` from when it joins the waiters of a semaphore until its `sema_down` gets
      through: blocked at first, then woken and on its way to try again. */
  datatype Task = Free | Waiting(sema: SemaId)

  datatype Thread = Thread(status: Status, task: Task)

  datatype State = State(idle: Tid, current: Tid, ready: seq<Tid>, threads: map<Tid, Thread>, semas: map<SemaId, Sema>)

  datatype Action =
    | Init(s: SemaId, value: nat)
    | Down(s: SemaId)
    | TryDown(s: SemaId)
    | Up(s: SemaId)
    | Yield
    | IdleSleeps
    | Create(t: Tid)
    | Exit

  // ---------------------------------------------------------------------------------
  // The state between steps
  // ---------------------------------------------------------------------------------

  /** The threads woken from `s` that have not tried again yet. */
  ghost function Woken(threads: map<Tid, Thread>, s: SemaId): (w: set<Tid>) {
    set t | t in threads && threads[t].task == Waiting(s) && threads[t].status != Blocked
  }

  ghost predicate IdleOk(st: State) {
    st.idle in st.threads && st.threads[st.idle].task == Free
  }

  /** The ready list holds exactly the ready threads, the idle thread apart. */
  ghost predicate ReadyOk(st: State) {
    && NoDup(st.ready)
    && forall t: Tid :: t in st.ready <==> t in st.threads && st.threads[t].status == Ready && t != st.idle
  }

  /** The waiters of a semaphore are exactly the threads blocked on it. */
  ghost predicate WaitersOk(threads: map<Tid, Thread>, idle: Tid, s: SemaId, waiters: seq<Tid>) {
    && NoDup(waiters)
    && forall t: Tid :: t in waiters <==> t in threads && t != idle && threads[t] == Thread(Blocked, Waiting(s))
  }

  /** No wakeup is lost: while threads wait, every unit of the value has a woken thread coming for it. */
  ghost predicate WakeupsOk(threads: map<Tid, Thread>, s: SemaId, sema: Sema) {
    sema.waiters != [] ==> sema.value <= |Woken(threads, s)|
  }

  ghost predicate SemaOk(threads: map<Tid, Thread>, idle: Tid, s: SemaId, sema: Sema) {
    WaitersOk(threads, idle, s, sema.waiters) && WakeupsOk(threads, s, sema)
  }

  ghost predicate SemasOk(st: State) {
    forall s :: s in st.semas ==> SemaOk(st.threads, st.idle, s, st.semas[s])
  }

  ghost predicate BlockedOk(st: State) {
    forall t :: t in st.threads && t != st.idle ==>
      && (st.threads[t].status == Blocked ==> st.threads[t].task.Waiting?)
      && (st.threads[t].task.Waiting? ==> st.threads[t].task.sema in st.semas)
  }

  ghost predicate Common(st: State) {
    IdleOk(st) && ReadyOk(st) && SemasOk(st) && BlockedOk(st)
  }

  /** Exactly one thread runs. */
  ghost predicate Inv(st: State) {
    && Common(st) && st.current in st.threads
    && forall t :: t in st.threads ==> (st.threads[t].status == Running <==> t == st.current)
  }

  /** The running thread has just given up the processor. */
  ghost predicate Unscheduled(st: State) {
    Common(st) && forall t :: t in st.threads ==> st.threads[t].status != Running
  }

  // ---------------------------------------------------------------------------------
  // Steps
  // ---------------------------------------------------------------------------------

  /** `schedule`: the front of the ready list runs, or the idle thread. */
  function Dispatch(st: State): (r: State) {
    var next := if st.ready == [] then st.idle else st.ready[0];
    var ready := if st.ready == [] then [] else st.ready[1..];
    var task := if next in st.threads then st.threads[next].task else Free;
    st.(current := next, ready := ready, threads := st.threads[next := Thread(Running, task)])
  }

  function Enabled(st: State, a: Action): (e: bool) {
    match a
    case Init(s, v) => s !in st.semas
    case Down(s) => s in st.semas && st.current in st.threads && st.current != st.idle &&
      st.threads[st.current].task in {Free, Waiting(s)}
    case TryDown(s) => s in st.semas
    case Up(s) => s in st.semas
    case Yield => st.current in st.threads
    case IdleSleeps => st.current == st.idle
    case Create(t) => t !in st.threads
    case Exit => st.current in st.threads && st.current != st.idle && st.threads[st.current].task == Free
  }

  /** One turn of the loop of `sema_down`. */
  function DownOnce(st: State, s: SemaId): (r: State)
    requires s in st.semas
  {
    var x := st.semas[s];
    if x.value == 0 then
      Dispatch(Blocking(st, s))
    else
      st.(semas := st.semas[s := Sema(x.value - 1, x.waiters)],
        threads := st.threads[st.current := Thread(Running, Free)])
  }

  function TryOnce(st: State, s: SemaId): (r: State)
    requires s in st.semas
  {
    var x := st.semas[s];
    if x.value > 0 then st.(semas := st.semas[s := Sema(x.value - 1, x.waiters)]) else st
  }

  /** `sema_up`: the waiter that came first becomes ready. */
  function UpOnce(st: State, s: SemaId): (r: State)
    requires s in st.semas
  {
    var x := st.semas[s];
    if x.waiters == [] then st.(semas := st.semas[s := Sema(x.value + 1, [])])
    else
      st.(semas := st.semas[s := Sema(x.value + 1, x.waiters[1..])],
          ready := st.ready + [x.waiters[0]],
          threads := st.threads[x.waiters[0] := Thread(Ready, Waiting(s))])
  }

  function YieldOnce(st: State): (r: State)
    requires st.current in st.threads
  {
    Dispatch(Yielding(st))
  }

  function Apply(st: State, a: Action): (r: State)
    requires Enabled(st, a)
  {
    match a
    case Init(s, v) => st.(semas := st.semas[s := Sema(v, [])])
    case Down(s) => DownOnce(st, s)
    case TryDown(s) => TryOnce(st, s)
    case Up(s) => UpOnce(st, s)
    case Yield => YieldOnce(st)
    case IdleSleeps => Dispatch(st.(threads := st.threads[st.idle := Thread(Blocked, Free)]))
    case Create(t) => st.(threads := st.threads[t := Thread(Ready, Free)], ready := st.ready + [t])
    case Exit => Dispatch(st.(threads := st.threads - {st.current}))
  }

  // ---------------------------------------------------------------------------------
  // Every step keeps the invariant
  // ---------------------------------------------------------------------------------

  /** What changing one thread does to the woken threads of a semaphore. */
  lemma WokenAfter(threads: map<Tid, Thread>, t: Tid, x: Thread, s: SemaId)
    ensures Woken(threads[t := x], s) ==
      if x.task == Waiting(s) && x.status != Blocked then Woken(threads, s) + {t} else Woken(threads, s) - {t}
  {
  }

  lemma DispatchReady(st: State)
    requires Unscheduled(st)
    ensures IdleOk(Dispatch(st)) && ReadyOk(Dispatch(st))
  {
    if st.ready != [] {
      NoDupFront(st.ready);
      assert st.ready[0] in st.ready;
    }
  }

  ghost predicate OnSema(threads: map<Tid, Thread>, t: Tid, s: SemaId, blocked: bool) {
    t in threads && threads[t].task == Waiting(s) && (threads[t].status == Blocked) == blocked
  }

  /** A semaphore whose waiting threads stay blocked or woken, as they were, is not affected. */
  lemma Unaffected(threads: map<Tid, Thread>, threads': map<Tid, Thread>, idle: Tid, s: SemaId, sema: Sema)
    requires SemaOk(threads, idle, s, sema)
    requires forall t, b :: OnSema(threads', t, s, b) <==> OnSema(threads, t, s, b)
    ensures SemaOk(threads', idle, s, sema)
  {
    forall t: Tid ensures t in Woken(threads', s) <==> t in Woken(threads, s) {
      assert OnSema(threads', t, s, false) <==> OnSema(threads, t, s, false);
    }
    assert Woken(threads', s) == Woken(threads, s);
    forall t: Tid
      ensures t in sema.waiters <==> t in threads' && t != idle && threads'[t] == Thread(Blocked, Waiting(s))
    {
      assert OnSema(threads', t, s, true) <==> OnSema(threads, t, s, true);
    }
  }

  /** A thread that is not blocked on a semaphore gets another status than blocked. */
  lemma SemasKept(st: State, st': State, t: Tid, x: Thread)
    requires SemasOk(st) && st'.semas == st.semas && st'.idle == st.idle && st'.threads == st.threads[t := x]
    requires t in st.threads && x.task == st.threads[t].task
    requires x.task == Free || (x.status != Blocked && st.threads[t].status != Blocked)
    ensures SemasOk(st')
  {
    forall s | s in st'.semas ensures SemaOk(st'.threads, st'.idle, s, st'.semas[s]) {
      Unaffected(st.threads, st'.threads, st.idle, s, st.semas[s]);
    }
  }

  lemma DispatchKeeps(st: State)
    requires Unscheduled(st)
    ensures Inv(Dispatch(st))
  {
    DispatchReady(st);
    assert st.ready != [] ==> st.ready[0] in st.ready;
    var next := Dispatch(st).current;
    SemasKept(st, Dispatch(st), next, Thread(Running, st.threads[next].task));
  }

  function Yielding(st: State): (r: State)
    requires st.current in st.threads
  {
    st.(ready := if st.current == st.idle then st.ready else st.ready + [st.current],
        threads := st.threads[st.current := Thread(Ready, st.threads[st.current].task)])
  }

  lemma YieldReady(st: State)
    requires Inv(st)
    ensures Unscheduled(Yielding(st))
  {
    NoDupBack(st.ready, st.current);
    SemasKept(st, Yielding(st), st.current, Yielding(st).threads[st.current]);
  }

  lemma YieldKeeps(st: State)
    requires Inv(st)
    ensures Inv(YieldOnce(st))
  {
    YieldReady(st);
    DispatchKeeps(Yielding(st));
  }

  lemma IdleSleepsKeeps(st: State)
    requires Inv(st) && st.current == st.idle
    ensures Inv(Apply(st, IdleSleeps))
  {
    var x := Thread(Blocked, Free);
    var mid := st.(threads := st.threads[st.idle := x]);
    SemasKept(st, mid, st.idle, x);
    DispatchKeeps(mid);
  }

  lemma ExitReady(st: State)
    requires Inv(st) && Enabled(st, Exit)
    ensures Unscheduled(st.(threads := st.threads - {st.current}))
  {
    var mid := st.(threads := st.threads - {st.current});
    forall s | s in st.semas ensures SemaOk(mid.threads, st.idle, s, st.semas[s]) {
      Unaffected(st.threads, mid.threads, st.idle, s, st.semas[s]);
    }
  }

  lemma ExitKeeps(st: State)
    requires Inv(st) && Enabled(st, Exit)
    ensures Inv(Apply(st, Exit))
  {
    ExitReady(st);
    DispatchKeeps(st.(threads := st.threads - {st.current}));
  }

  lemma CreateKeeps(st: State, t: Tid)
    requires Inv(st) && t !in st.threads
    ensures Inv(Apply(st, Create(t)))
  {
    var r := Apply(st, Create(t));
    NoDupBack(st.ready, t);
    forall s | s in st.semas ensures SemaOk(r.threads, st.idle, s, st.semas[s]) {
      Unaffected(st.threads, r.threads, st.idle, s, st.semas[s]);
    }
  }

  lemma InitKeeps(st: State, s: SemaId, v: nat)
    requires Inv(st) && s !in st.semas
    ensures Inv(Apply(st, Init(s, v)))
  {
  }

  /** The semaphores other than `s` are not affected by what a thread does that is not in one of them. */
  lemma OthersKept(st: State, threads': map<Tid, Thread>, t: Tid, x: Thread, s: SemaId)
    requires SemasOk(st) && t in st.threads && threads' == st.threads[t := x]
    requires st.threads[t].task in {Free, Waiting(s)} && x.task in {Free, Waiting(s)}
    ensures forall q :: q in st.semas && q != s ==> SemaOk(threads', st.idle, q, st.semas[q])
  {
    forall q | q in st.semas && q != s ensures SemaOk(threads', st.idle, q, st.semas[q]) {
      Unaffected(st.threads, threads', st.idle, q, st.semas[q]);
    }
  }

  /** `sema_down` finds the value zero: the running thread joins the waiters. */
  function Blocking(st: State, s: SemaId): (r: State)
    requires s in st.semas
  {
    st.(semas := st.semas[s := Sema(st.semas[s].value, st.semas[s].waiters + [st.current])],
        threads := st.threads[st.current := Thread(Blocked, Waiting(s))])
  }

  lemma JoinsWaiters(threads: map<Tid, Thread>, idle: Tid, t: Tid, s: SemaId, sema: Sema)
    requires SemaOk(threads, idle, s, sema) && sema.value == 0
    requires t in threads && t != idle && threads[t].status != Blocked
    ensures SemaOk(threads[t := Thread(Blocked, Waiting(s))], idle, s, Sema(sema.value, sema.waiters + [t]))
  {
    NoDupBack(sema.waiters, t);
    WokenAfter(threads, t, Thread(Blocked, Waiting(s)), s);
    if t !in Woken(threads, s) {
      assert Woken(threads, s) - {t} == Woken(threads, s);
    }
  }

  lemma BlockReady(st: State, s: SemaId)
    requires Inv(st) && Enabled(st, Down(s)) && st.semas[s].value == 0
    ensures Unscheduled(Blocking(st, s))
  {
    JoinsWaiters(st.threads, st.idle, st.current, s, st.semas[s]);
    OthersKept(st, Blocking(st, s).threads, st.current, Thread(Blocked, Waiting(s)), s);
  }

  lemma DownBlocks(st: State, s: SemaId)
    requires Inv(st) && Enabled(st, Down(s)) && st.semas[s].value == 0
    ensures Inv(DownOnce(st, s))
  {
    BlockReady(st, s);
    DispatchKeeps(Blocking(st, s));
  }

  /** A thread takes a unit: if it was woken for it, there is one woken thread less. */
  lemma TakesUnit(threads: map<Tid, Thread>, idle: Tid, t: Tid, s: SemaId, sema: Sema)
    requires SemaOk(threads, idle, s, sema) && sema.value > 0
    requires t in threads && threads[t].status != Blocked
    ensures SemaOk(threads[t := Thread(Running, Free)], idle, s, Sema(sema.value - 1, sema.waiters))
  {
    WokenAfter(threads, t, Thread(Running, Free), s);
    if t !in Woken(threads, s) {
      assert Woken(threads, s) - {t} == Woken(threads, s);
    }
  }

  /** `sema_down` finds the value positive and takes a unit of it. */
  lemma DownTakes(st: State, s: SemaId)
    requires Inv(st) && Enabled(st, Down(s)) && st.semas[s].value > 0
    ensures Inv(DownOnce(st, s))
  {
    var x := Thread(Running, Free);
    TakesUnit(st.threads, st.idle, st.current, s, st.semas[s]);
    OthersKept(st, st.threads[st.current := x], st.current, x, s);
  }

  lemma TryKeeps(st: State, s: SemaId)
    requires Inv(st) && s in st.semas
    ensures Inv(TryOnce(st, s))
  {
    assert SemaOk(st.threads, st.idle, s, st.semas[s]);
  }

  /** The first waiter is woken, and a unit is there for it. */
  lemma WakesFirst(threads: map<Tid, Thread>, idle: Tid, s: SemaId, sema: Sema)
    requires SemaOk(threads, idle, s, sema) && sema.waiters != []
    ensures SemaOk(threads[sema.waiters[0] := Thread(Ready, Waiting(s))], idle, s,
      Sema(sema.value + 1, sema.waiters[1..]))
  {
    var t := sema.waiters[0];
    assert t in sema.waiters;
    NoDupFront(sema.waiters);
    WokenAfter(threads, t, Thread(Ready, Waiting(s)), s);
    assert t !in Woken(threads, s);
  }

  lemma UpKeeps(st: State, s: SemaId)
    requires Inv(st) && s in st.semas
    ensures Inv(UpOnce(st, s))
  {
    var w := st.semas[s].waiters;
    assert SemaOk(st.threads, st.idle, s, st.semas[s]);
    if w != [] {
      var x := Thread(Ready, Waiting(s));
      assert w[0] in w;
      NoDupBack(st.ready, w[0]);
      WakesFirst(st.threads, st.idle, s, st.semas[s]);
      OthersKept(st, st.threads[w[0] := x], w[0], x, s);
    }
  }

  lemma StepKeeps(st: State, a: Action)
    requires Inv(st) && Enabled(st, a)
    ensures Inv(Apply(st, a))
  {
    match a
    case Init(s, v) => InitKeeps(st, s, v);
    case Down(s) => if st.semas[s].value == 0 { DownBlocks(st, s); } else { DownTakes(st, s); }
    case TryDown(s) => TryKeeps(st, s);
    case Up(s) => UpKeeps(st, s);
    case Yield => YieldKeeps(st);
    case IdleSleeps => IdleSleepsKeeps(st);
    case Create(t) => CreateKeeps(st, t);
    case Exit => ExitKeeps(st);
  }

  // ---------------------------------------------------------------------------------
  // Runs
  // ---------------------------------------------------------------------------------

  predicate Possible(st: State, run: seq<Action>)
    decreases |run|
  {
    run == [] || (Enabled(st, run[0]) && Possible(Apply(st, run[0]), run[1..]))
  }

  function Final(st: State, run: seq<Action>): (r: State)
    requires Possible(st, run)
    decreases |run|
  {
    if run == [] then st else Final(Apply(st, run[0]), run[1..])
  }

  /** After every run exactly one thread is running, the ready list holds exactly the ready threads,
      each semaphore's list exactly the threads blocked on it, and no wakeup is lost. */
  lemma {:induction false} RunKeeps(st: State, run: seq<Action>)
    requires Inv(st) && Possible(st, run)
    ensures Inv(Final(st, run))
    decreases |run|
  {
    if run != [] {
      StepKeeps(st, run[0]);
      RunKeeps(Apply(st, run[0]), run[1..]);
    }
  }

  lemma FirstIsBlocked(st: State, s: SemaId)
    requires Inv(st) && s in st.semas && st.semas[s].waiters != []
    ensures var t := st.semas[s].waiters[0]; t in st.threads && st.threads[t] == Thread(Blocked, Waiting(s))
  {
    assert SemaOk(st.threads, st.idle, s, st.semas[s]);
    assert st.semas[s].waiters[0] in st.semas[s].waiters;
  }

  /** So no thread is on two lists, or twice on one. */
  lemma OneList(st: State, t: Tid, s: SemaId, r: SemaId)
    requires Inv(st) && s in st.semas && r in st.semas
    ensures NoDup(st.ready) && NoDup(st.semas[s].waiters)
    ensures t in st.semas[s].waiters ==> t !in st.ready && t != st.current && (t in st.semas[r].waiters ==> r == s)
    ensures t in st.ready ==> t != st.current
  {
    assert SemaOk(st.threads, st.idle, s, st.semas[s]) && SemaOk(st.threads, st.idle, r, st.semas[r]);
  }

  /** While the value is positive and somebody waits, some thread that can run is coming for it. */
  lemma NoLostWakeup(st: State, s: SemaId) returns (t: Tid)
    requires Inv(st) && s in st.semas && st.semas[s].waiters != [] && st.semas[s].value > 0
    ensures t == st.current || t in st.ready
    ensures t in st.threads && st.threads[t].task == Waiting(s)
  {
    assert SemaOk(st.threads, st.idle, s, st.semas[s]);
    assert Woken(st.threads, s) != {};
    t :| t in Woken(st.threads, s);
  }

  /** Whether a step takes a unit of `s`, or adds one. */
  function Takes(st: State, a: Action, s: SemaId): (n: nat) {
    if (a == Down(s) || a == TryDown(s)) && s in st.semas && st.semas[s].value > 0 then 1 else 0
  }

  function Downs(st: State, run: seq<Action>, s: SemaId): (n: nat)
    requires Possible(st, run)
    decreases |run|
  {
    if run == [] then 0 else Takes(st, run[0], s) + Downs(Apply(st, run[0]), run[1..], s)
  }

  function Ups(run: seq<Action>, s: SemaId): (n: nat) {
    if run == [] then 0 else (if run[0] == Up(s) then 1 else 0) + Ups(run[1..], s)
  }

  /** The value is the initial value plus the ups minus the downs that got through. */
  lemma {:induction false} ValueCounts(st: State, run: seq<Action>, s: SemaId)
    requires Possible(st, run) && s in st.semas
    ensures s in Final(st, run).semas
    ensures Final(st, run).semas[s].value == st.semas[s].value + Ups(run, s) - Downs(st, run, s)
    decreases |run|
  {
    if run != [] {
      ValueCounts(Apply(st, run[0]), run[1..], s);
    }
  }

  /** Whether a step calls `schedule`. */
  predicate Switches(st: State, a: Action) {
    a.Yield? || a.IdleSleeps? || a.Exit? || (a.Down? && a.s in st.semas && st.semas[a.s].value == 0)
  }

  function Schedules(st: State, run: seq<Action>): (n: nat)
    requires Possible(st, run)
    decreases |run|
  {
    if run == [] then 0 else (if Switches(st, run[0]) then 1 else 0) + Schedules(Apply(st, run[0]), run[1..])
  }

  /** The ready list is a queue: only `schedule` takes from it, and only at the front. */
  lemma QueueStep(st: State, a: Action, k: nat)
    requires Enabled(st, a) && k < |st.ready|
    ensures var r := Apply(st, a).ready;
      if Switches(st, a) then k > 0 ==> k - 1 < |r| && r[k - 1] == st.ready[k] else k < |r| && r[k] == st.ready[k]
    ensures Switches(st, a) && k == 0 ==> Apply(st, a).current == st.ready[0]
  {
  }

  /** A thread with `k` threads ahead of it in the ready list is there until the next `k` calls of
      `schedule` are over, and the call after those dispatches it. */
  lemma {:induction false} RoundRobin(st: State, run: seq<Action>, a: Action, k: nat)
    requires Possible(st, run) && k < |st.ready| && Schedules(st, run) <= k
    ensures var r := Final(st, run); var left := k - Schedules(st, run);
      left < |r.ready| && r.ready[left] == st.ready[k]
    ensures Schedules(st, run) == k && Enabled(Final(st, run), a) && Switches(Final(st, run), a)
      ==> Apply(Final(st, run), a).current == st.ready[k]
    decreases |run|
  {
    if run == [] {
      if Enabled(st, a) { QueueStep(st, a, k); }
    } else {
      QueueStep(st, run[0], k);
      var next := Apply(st, run[0]);
      RoundRobin(next, run[1..], a, if Switches(st, run[0]) then k - 1 else k);
    }
  }

  // ---------------------------------------------------------------------------------
  // By the actions
  // ---------------------------------------------------------------------------------

  datatype Life = Absent | Present(task: Task)

  function LifeAt(st: State, t: Tid): (l: Life) {
    if t in st.threads then Present(st.threads[t].task) else Absent
  }

  /** A thread comes with its creation and goes with its exit.  It waits from a `sema_down` that finds the
      value zero until one that does not. */
  function NextLife(l: Life, st: State, a: Action, t: Tid): (r: Life)
    requires Enabled(st, a)
  {
    if a == Create(t) then Present(Free)
    else if st.current != t then l
    else if a.Exit? then Absent
    else if a.Down? then Present(if st.semas[a.s].value == 0 then Waiting(a.s) else Free)
    else l
  }

  function LifeAfter(l: Life, st: State, run: seq<Action>, t: Tid): (r: Life)
    requires Possible(st, run)
    decreases |run|
  {
    if run == [] then l else LifeAfter(NextLife(l, st, run[0], t), Apply(st, run[0]), run[1..], t)
  }

  lemma DispatchLife(st: State, t: Tid)
    requires Unscheduled(st)
    ensures LifeAt(Dispatch(st), t) == LifeAt(st, t)
  {
    if st.ready != [] { assert st.ready[0] in st.ready; }
  }

  lemma DownLife(st: State, s: SemaId, t: Tid)
    requires Inv(st) && Enabled(st, Down(s))
    ensures LifeAt(DownOnce(st, s), t) == NextLife(LifeAt(st, t), st, Down(s), t)
  {
    if st.semas[s].value == 0 {
      BlockReady(st, s);
      DispatchLife(Blocking(st, s), t);
    }
  }

  lemma UpLife(st: State, s: SemaId, t: Tid)
    requires Inv(st) && Enabled(st, Up(s))
    ensures LifeAt(UpOnce(st, s), t) == LifeAt(st, t)
  {
    if st.semas[s].waiters != [] { FirstIsBlocked(st, s); }
  }

  lemma YieldLife(st: State, t: Tid)
    requires Inv(st)
    ensures LifeAt(YieldOnce(st), t) == LifeAt(st, t)
  {
    YieldReady(st);
    DispatchLife(Yielding(st), t);
  }

  lemma ExitLife(st: State, t: Tid)
    requires Inv(st) && Enabled(st, Exit)
    ensures LifeAt(Apply(st, Exit), t) == if t == st.current then Absent else LifeAt(st, t)
  {
    ExitReady(st);
    DispatchLife(st.(threads := st.threads - {st.current}), t);
  }

  lemma IdleLife(st: State, t: Tid)
    requires Inv(st) && Enabled(st, IdleSleeps)
    ensures LifeAt(Apply(st, IdleSleeps), t) == LifeAt(st, t)
  {
    if st.ready != [] { assert st.ready[0] in st.ready; }
  }

  lemma LifeStep(st: State, a: Action, t: Tid)
    requires Inv(st) && Enabled(st, a)
    ensures LifeAt(Apply(st, a), t) == NextLife(LifeAt(st, t), st, a, t)
  {
    match a
    case Down(s) => DownLife(st, s, t);
    case Up(s) => UpLife(st, s, t);
    case Yield => YieldLife(st, t);
    case Exit => ExitLife(st, t);
    case IdleSleeps => IdleLife(st, t);
    case _ =>
  }

  /** After every run a thread is there if and only if it was there or was created, and has not exited
      since; and it is in a `sema_down` if and only if its last one has not got through. */
  lemma {:induction false} LivesByActions(st: State, run: seq<Action>, t: Tid)
    requires Inv(st) && Possible(st, run)
    ensures LifeAt(Final(st, run), t) == LifeAfter(LifeAt(st, t), st, run, t)
    decreases |run|
  {
    if run != [] {
      StepKeeps(st, run[0]);
      LifeStep(st, run[0], t);
      LivesByActions(Apply(st, run[0]), run[1..], t);
    }
  }

  /** A thread that has exited is not running, ready or waiting, until it is created again. */
  lemma {:induction false} ExitIsForGood(st: State, run: seq<Action>, t: Tid)
    requires Inv(st) && Possible(st, run) && Create(t) !in run && t !in st.threads
    ensures var r := Final(st, run);
      t !in r.threads && t != r.current && t !in r.ready && forall s :: s in r.semas ==> t !in r.semas[s].waiters
    decreases |run|
  {
    if run == [] {
      forall s | s in st.semas ensures t !in st.semas[s].waiters {
        assert SemaOk(st.threads, st.idle, s, st.semas[s]);
      }
    } else {
      StepKeeps(st, run[0]);
      LifeStep(st, run[0], t);
      ExitIsForGood(Apply(st, run[0]), run[1..], t);
    }
  }

  lemma ExitGoes(st: State)
    requires Inv(st) && Enabled(st, Exit)
    ensures Inv(Apply(st, Exit)) && st.current !in Apply(st, Exit).threads
  {
    StepKeeps(st, Exit);
    LifeStep(st, Exit, st.current);
  }

  /** Who joins the ready list by a step: a new thread, a thread that yields, or the first waiter. */
  function Joins(st: State, a: Action): (q: seq<Tid>)
    requires Enabled(st, a)
  {
    match a
    case Create(t) => [t]
    case Yield => if st.current == st.idle then [] else [st.current]
    case Up(s) => if st.semas[s].waiters == [] then [] else [st.semas[s].waiters[0]]
    case _ => []
  }

  /** Whom a step dispatches: nobody, the front of the list, or the idle thread if there is none. */
  function Dispatched(st: State, a: Action): (q: seq<Tid>)
    requires Enabled(st, a)
  {
    var q := st.ready + Joins(st, a);
    if !Switches(st, a) then [] else if q == [] then [st.idle] else [q[0]]
  }

  lemma DispatchStep(st: State, a: Action)
    requires Inv(st) && Enabled(st, a)
    ensures var q, r := st.ready + Joins(st, a), Apply(st, a);
      if Switches(st, a) then (r.ready == if q == [] then [] else q[1..]) && Dispatched(st, a) == [r.current]
      else r.ready == q && r.current == st.current
  {
  }

  function AllDispatched(st: State, run: seq<Action>): (q: seq<Tid>)
    requires Possible(st, run)
    decreases |run|
  {
    if run == [] then [] else Dispatched(st, run[0]) + AllDispatched(Apply(st, run[0]), run[1..])
  }

  /** The thread that runs is the one that was dispatched last. */
  lemma {:induction false} CurrentIsLast(st: State, run: seq<Action>)
    requires Inv(st) && Possible(st, run)
    ensures var q := AllDispatched(st, run);
      Final(st, run).current == if q == [] then st.current else q[|q| - 1]
    decreases |run|
  {
    if run != [] {
      StepKeeps(st, run[0]);
      DispatchStep(st, run[0]);
      CurrentIsLast(Apply(st, run[0]), run[1..]);
    }
  }

  /** Who falls asleep on `s` by a step, and who is woken from it. */
  function Sleeps(st: State, a: Action, s: SemaId): (q: seq<Tid>) {
    if a == Down(s) && s in st.semas && st.semas[s].value == 0 then [st.current] else []
  }

  function Wakes(st: State, a: Action, s: SemaId): (q: seq<Tid>) {
    if a == Up(s) && s in st.semas && st.semas[s].waiters != [] then [st.semas[s].waiters[0]] else []
  }

  function AllSleep(st: State, run: seq<Action>, s: SemaId): (q: seq<Tid>)
    requires Possible(st, run)
    decreases |run|
  {
    if run == [] then [] else Sleeps(st, run[0], s) + AllSleep(Apply(st, run[0]), run[1..], s)
  }

  function AllWake(st: State, run: seq<Action>, s: SemaId): (q: seq<Tid>)
    requires Possible(st, run)
    decreases |run|
  {
    if run == [] then [] else Wakes(st, run[0], s) + AllWake(Apply(st, run[0]), run[1..], s)
  }

  lemma WaiterStep(st: State, a: Action, s: SemaId)
    requires Enabled(st, a) && s in st.semas
    ensures s in Apply(st, a).semas
    ensures st.semas[s].waiters + Sleeps(st, a, s) == Wakes(st, a, s) + Apply(st, a).semas[s].waiters
  {
  }

  lemma Regroup(a: seq<Tid>, b: seq<Tid>, d: seq<Tid>, e: seq<Tid>, x: seq<Tid>, y: seq<Tid>, z: seq<Tid>)
    requires a + b == d + e && e + x == y + z
    ensures a + (b + x) == (d + y) + z
  {
    assert a + (b + x) == (a + b) + x;
    assert (d + e) + x == d + (e + x);
    assert d + (y + z) == (d + y) + z;
  }

  /** Threads are woken from a semaphore in the order in which they fell asleep on it. */
  lemma {:induction false} WokenInOrder(st: State, run: seq<Action>, s: SemaId)
    requires Possible(st, run) && s in st.semas
    ensures s in Final(st, run).semas
    ensures st.semas[s].waiters + AllSleep(st, run, s) == AllWake(st, run, s) + Final(st, run).semas[s].waiters
    decreases |run|
  {
    if run != [] {
      var next := Apply(st, run[0]);
      WaiterStep(st, run[0], s);
      WokenInOrder(next, run[1..], s);
      Regroup(st.semas[s].waiters, Sleeps(st, run[0], s), Wakes(st, run[0], s), next.semas[s].waiters,
              AllSleep(next, run[1..], s), AllWake(next, run[1..], s), Final(st, run).semas[s].waiters);
    }
  }

  /** A semaphore that a run initializes starts with the value given, and with nobody waiting. */
  lemma {:induction false} InitCounts(st: State, run: seq<Action>, s: SemaId, value: nat)
    requires Possible(st, run) && run != [] && run[0] == Init(s, value)
    ensures s in Final(st, run).semas
    ensures Final(st, run).semas[s].value == value + Ups(run, s) - Downs(st, run, s)
    ensures AllSleep(st, run, s) == AllWake(st, run, s) + Final(st, run).semas[s].waiters
  {
    var next := Apply(st, run[0]);
    ValueCounts(next, run[1..], s);
    WokenInOrder(next, run[1..], s);
    assert [] + AllSleep(next, run[1..], s) == AllSleep(next, run[1..], s);
    assert AllSleep(st, run, s) == AllSleep(next, run[1..], s) && AllWake(st, run, s) == AllWake(next, run[1..], s);
  }

  /** The state after start-up: one thread runs, the idle thread sleeps. */
  function Started(idle: Tid, main: Tid): (st: State)
    requires idle != main
  {
    State(idle, main, [], map[idle := Thread(Blocked, Free), main := Thread(Running, Free)], map[])
  }

  lemma StartedOk(idle: Tid, main: Tid, run: seq<Action>)
    requires idle != main && Possible(Started(idle, main), run)
    ensures Inv(Final(Started(idle, main), run))
  {
    RunKeeps(Started(idle, main), run);
  }
}
