/**
 The scheduling simulator: tasks arrive, threads run in bursts on one processor, wait for I/O, and
 wait in a FIFO queue.  Threads are named by their place in the machine's list of threads.
 */
module SchedulingLab {
  import opened Sequences

  datatype Task = Task(arrival: nat, total: nat, cpuBurst: nat -> nat, ioBurst: nat -> nat)

  /** `burst` is what remains of a burst, zero for none.  `io` and `finish` and `done` are not kept by
      the simulator: how long the thread has spent in I/O, and whether and when it finished. */
  datatype Thread = Thread(task: Task, elapsed: nat, lastQueued: nat, wait: int, burst: nat, wakeup: nat, io: nat,
                           finish: nat, done: bool)

  datatype Status = Cpu | Io(time: nat) | Done

  function Remaining(th: Thread): (n: int) { th.task.total - th.elapsed }

  function Min(a: int, b: int): (r: int) { if a < b then a else b }

  /** How long a thread runs, of `rest` left to run, in a burst of `burst` and a quantum of `q`, either
      of which is no limit if it is zero. */
  function RunLength(rest: int, burst: nat, q: nat): (n: int)
    ensures n <= rest && (burst > 0 ==> n <= burst) && (q > 0 ==> n <= q)
    ensures n == rest || (burst > 0 && n == burst) || (q > 0 && n == q)
  {
    var a := if q > 0 then Min(q, rest) else rest;
    if burst > 0 then Min(burst, a) else a
  }

  /** `Thread.run`. */
  method Run(th: Thread, q: nat) returns (r: Thread, runLen: nat, status: Status)
    requires th.elapsed <= th.task.total
    ensures r.elapsed == th.elapsed + runLen <= th.task.total
    ensures r == th.(elapsed := r.elapsed, burst := r.burst)
    ensures Remaining(th) > 0 ==> runLen > 0
    ensures q > 0 ==> runLen <= q
    ensures status == Done <==> r.elapsed == th.task.total
    ensures var b := if th.burst > 0 then th.burst else th.task.cpuBurst(th.elapsed);
      && runLen == RunLength(Remaining(th), b, q)
      && r.burst == (if b > 0 then b - runLen else 0)
      && (status != Done ==> status == if b > 0 && runLen == b then Io(th.task.ioBurst(r.elapsed)) else Cpu)
  {
    var rest := Remaining(th);
    var ioTime := 0;
    if th.burst > 0 {
      runLen := if q > 0 then Min(Min(q, th.burst), rest) else Min(th.burst, rest);
      r := th.(burst := th.burst - runLen, elapsed := th.elapsed + runLen);
      if r.burst > 0 { status := Cpu; } else { status := Io(th.task.ioBurst(r.elapsed)); }
    } else {
      var burst := th.task.cpuBurst(th.elapsed);
      if burst == 0 && q == 0 {
        runLen := rest;
      } else if burst == 0 {
        runLen := Min(q, rest);
      } else if q == 0 {
        runLen := Min(burst, rest);
      } else {
        runLen := Min(Min(q, burst), rest);
      }
      r := th.(elapsed := th.elapsed + runLen);
      if burst == 0 {
        status := Cpu;
      } else if runLen < burst {
        r := r.(burst := burst - runLen);
        status := Cpu;
      } else {
        status := Io(th.task.ioBurst(r.elapsed));
      }
    }
    if Remaining(r) <= 0 { status := Done; }
  }

  // ---------------------------------------------------------------------------------
  // Where the time goes
  // ---------------------------------------------------------------------------------

  /** All the time from the arrival of a thread up to `at` went into running, waiting and I/O. */
  predicate Accounted(th: Thread, at: int) {
    th.task.arrival + th.elapsed + th.wait + th.io == at
  }

  predicate Sane(th: Thread) { th.elapsed <= th.task.total && th.wait >= 0 }

  predicate Queued(th: Thread, time: int) { !th.done && th.lastQueued <= time && Accounted(th, th.lastQueued) }

  predicate Sleeping(th: Thread) { !th.done && Accounted(th, th.wakeup) }

  predicate Finished(th: Thread, time: int) {
    th.done && th.elapsed == th.task.total && th.finish <= time && Accounted(th, th.finish)
  }

  /** Every thread is in the queue, in I/O, running (`cur`), or finished, and its time is accounted for. */
  ghost predicate ThreadsOk(threads: seq<Thread>, queue: seq<nat>, io: seq<nat>, cur: int, time: int) {
    && NoDup(queue) && NoDup(io) && Apart(queue, io) && cur !in queue && cur !in io
    && (forall i :: i in queue ==> i < |threads| && Queued(threads[i], time))
    && (forall i :: i in io ==> i < |threads| && Sleeping(threads[i]))
    && (forall i ::
      0 <= i < |threads| ==> Sane(threads[i]) && (i in queue || i in io || i == cur || Finished(threads[i], time)))
  }

  /** Later tasks stand later, and all of them are still to come. */
  predicate FutureOk(future: seq<Task>) {
    forall i, j :: 0 <= i < j < |future| ==> future[i].arrival <= future[j].arrival
  }

  function TasksOf(threads: seq<Thread>): (r: seq<Task>)
    ensures |r| == |threads| && forall i :: 0 <= i < |r| ==> r[i] == threads[i].task
  {
    seq(|threads|, i requires 0 <= i < |threads| => threads[i].task)
  }

  /** What is left to do: for every thread that is not finished its remaining time and one. */
  function Load(threads: seq<Thread>): (n: int) {
    if threads == [] then 0
    else Load(threads[..|threads| - 1]) + (var th := threads[|threads| - 1]; if th.done then 0 else Remaining(th) + 1)
  }

  function Coming(future: seq<Task>): (n: nat) {
    if future == [] then 0 else future[0].total + 1 + Coming(future[1..])
  }

  lemma {:induction false} LoadAfter(threads: seq<Thread>, i: nat, th: Thread)
    requires i < |threads|
    ensures Load(threads[i := th]) == Load(threads)
      + (if th.done then 0 else Remaining(th) + 1) - (if threads[i].done then 0 else Remaining(threads[i]) + 1)
    decreases |threads|
  {
    var n := |threads| - 1;
    if i < n {
      assert threads[i := th][..n] == threads[..n][i := th];
      LoadAfter(threads[..n], i, th);
    } else {
      assert threads[i := th][..n] == threads[..n];
    }
  }

  /** The time that the threads have spent running. */
  function Spent(threads: seq<Thread>): (n: nat) {
    if threads == [] then 0 else Spent(threads[..|threads| - 1]) + threads[|threads| - 1].elapsed
  }

  /** The time that tasks need. */
  function Totals(tasks: seq<Task>): (n: nat) {
    if tasks == [] then 0 else Totals(tasks[..|tasks| - 1]) + tasks[|tasks| - 1].total
  }

  lemma {:induction false} SpentAfter(threads: seq<Thread>, i: nat, th: Thread)
    requires i < |threads|
    ensures Spent(threads[i := th]) == Spent(threads) + th.elapsed - threads[i].elapsed
    decreases |threads|
  {
    var n := |threads| - 1;
    if i < n {
      assert threads[i := th][..n] == threads[..n][i := th];
      SpentAfter(threads[..n], i, th);
    } else {
      assert threads[i := th][..n] == threads[..n];
    }
  }

  lemma SpentAppend(threads: seq<Thread>, th: Thread)
    ensures Spent(threads + [th]) == Spent(threads) + th.elapsed
  {
    assert (threads + [th])[..|threads|] == threads;
  }

  /** Threads that have run for the total time of their tasks have spent what the tasks need. */
  lemma {:induction false} AllSpent(threads: seq<Thread>)
    requires forall i :: 0 <= i < |threads| ==> threads[i].elapsed == threads[i].task.total
    ensures Spent(threads) == Totals(TasksOf(threads))
    decreases |threads|
  {
    if threads != [] {
      var n := |threads| - 1;
      AllSpent(threads[..n]);
      assert TasksOf(threads)[..n] == TasksOf(threads[..n]);
    }
  }

  lemma {:induction false} LoadPositive(threads: seq<Thread>)
    requires forall i :: 0 <= i < |threads| ==> Sane(threads[i])
    ensures Load(threads) >= 0
    decreases |threads|
  {
    if threads != [] { LoadPositive(threads[..|threads| - 1]); }
  }

  lemma JoinQueue(threads: seq<Thread>, queue: seq<nat>, io: seq<nat>, cur: int, time: int, th: Thread)
    requires ThreadsOk(threads, queue, io, cur, time) && Sane(th) && Queued(th, time) && cur < |threads|
    ensures ThreadsOk(threads + [th], queue + [|threads|], io, cur, time)
  {
    NoDupBack(queue, |threads|);
    forall i | 0 <= i < |threads + [th]|
      ensures Sane((threads + [th])[i]) &&
        (i in queue + [|threads|] || i in io || i == cur || Finished((threads + [th])[i], time)) {
      if i < |threads| { assert Sane(threads[i]); } else { assert (queue + [|threads|])[|queue|] == i; }
    }
  }

  lemma LoadAppend(threads: seq<Thread>, th: Thread)
    ensures Load(threads + [th]) == Load(threads) + (if th.done then 0 else Remaining(th) + 1)
  {
    assert (threads + [th])[..|threads|] == threads;
  }

  lemma FutureTail(future: seq<Task>)
    requires FutureOk(future) && future != []
    ensures FutureOk(future[1..]) && forall k :: 0 <= k < |future| ==> future[0].arrival <= future[k].arrival
  {
  }

  /** The running thread changes, and time may pass. */
  lemma CurrentChanges(threads: seq<Thread>, queue: seq<nat>, io: seq<nat>, cur: int, time: int, th: Thread, time': int)
    requires ThreadsOk(threads, queue, io, cur, time) && 0 <= cur < |threads| && Sane(th) && time <= time'
    ensures ThreadsOk(threads[cur := th], queue, io, cur, time')
  {
  }

  /** The front of the queue becomes the running thread. */
  lemma FrontRuns(threads: seq<Thread>, queue: seq<nat>, io: seq<nat>, time: int)
    requires ThreadsOk(threads, queue, io, -1, time) && queue != []
    ensures queue[0] < |threads| && Queued(threads[queue[0]], time) &&
      ThreadsOk(threads, queue[1..], io, queue[0], time)
  {
    assert queue[0] in queue;
    NoDupFront(queue);
  }

  /** The running thread joins the queue, goes into I/O, or finishes. */
  lemma CurrentQueues(threads: seq<Thread>, queue: seq<nat>, io: seq<nat>, cur: int, time: int)
    requires ThreadsOk(threads, queue, io, cur, time) && 0 <= cur < |threads| && Queued(threads[cur], time)
    ensures ThreadsOk(threads, queue + [cur], io, -1, time)
  {
    NoDupBack(queue, cur);
    assert (queue + [cur])[|queue|] == cur;
  }

  lemma CurrentSleeps(threads: seq<Thread>, queue: seq<nat>, io: seq<nat>, cur: int, time: int)
    requires ThreadsOk(threads, queue, io, cur, time) && 0 <= cur < |threads| && Sleeping(threads[cur])
    ensures ThreadsOk(threads, queue, io + [cur], -1, time)
  {
    NoDupBack(io, cur);
    assert (io + [cur])[|io|] == cur;
  }

  lemma CurrentFinishes(threads: seq<Thread>, queue: seq<nat>, io: seq<nat>, cur: int, time: int)
    requires ThreadsOk(threads, queue, io, cur, time) && 0 <= cur < |threads| && Finished(threads[cur], time)
    ensures ThreadsOk(threads, queue, io, -1, time)
  {
  }

  /** A thread in I/O is queued with the time it woke up. */
  lemma Wakes(threads: seq<Thread>, queue: seq<nat>, io: seq<nat>, cur: int, time: int, i: nat)
    requires ThreadsOk(threads, queue, io, cur, time) && i in io && threads[i].wakeup <= time
    ensures ThreadsOk(threads[i := threads[i].(lastQueued := threads[i].wakeup)], queue + [i], Without(io, i), cur,
      time)
  {
    NoDupBack(queue, i);
    WithoutIs(io, i);
    assert (queue + [i])[|queue|] == i;
  }

  function WakeupTimes(threads: seq<Thread>): (r: seq<nat>)
    ensures |r| == |threads| && forall i :: 0 <= i < |r| ==> r[i] == threads[i].wakeup
  {
    seq(|threads|, i requires 0 <= i < |threads| => threads[i].wakeup)
  }

  lemma TasksAppend(threads: seq<Thread>, th: Thread, future: seq<Task>)
    requires future != [] && th.task == future[0]
    ensures TasksOf(threads + [th]) + future[1..] == TasksOf(threads) + future
  {
    assert TasksOf(threads + [th]) == TasksOf(threads) + [th.task];
  }

  lemma TasksSame(threads: seq<Thread>, i: nat, th: Thread)
    requires i < |threads| && th.task == threads[i].task
    ensures TasksOf(threads[i := th]) == TasksOf(threads)
  {
  }

  lemma TimePasses(threads: seq<Thread>, queue: seq<nat>, io: seq<nat>, cur: int, time: int, time': int)
    requires ThreadsOk(threads, queue, io, cur, time) && time <= time'
    ensures ThreadsOk(threads, queue, io, cur, time')
  {
  }

  /** The first `k` of the threads that were in I/O have been looked at. */
  ghost predicate Looked(all: seq<nat>, io: seq<nat>, k: nat, wake: seq<nat>, time: int) {
    && k <= |all| && NoDup(io) && (forall j :: k <= j < |all| ==> all[j] in io)
    && (forall i :: i in io ==> i < |wake| && i in all && (i in all[..k] ==> wake[i] > time))
    && NoDup(all)
  }

  lemma LookedNext(all: seq<nat>, io: seq<nat>, k: nat, wake: seq<nat>, time: int)
    requires Looked(all, io, k, wake, time) && k < |all|
    ensures all[k] in io && |Without(io, all[k])| == |io| - 1
    ensures if wake[all[k]] <= time then Looked(all, Without(io, all[k]), k + 1, wake, time)
      else Looked(all, io, k + 1, wake, time)
  {
    assert all[..k + 1] == all[..k] + [all[k]];
    WithoutIs(io, all[k]);
    WithoutSize(io, all[k]);
  }

  class Machine {
    var time: nat
    var threads: seq<Thread>
    var queue: seq<nat>
    var io: seq<nat>
    var future: seq<Task>
    /** How long the processor has been idle. */
    ghost var idled: nat

    /** `cur` is the running thread, or -1. */
    ghost predicate Valid(cur: int)
      reads this
    {
      ThreadsOk(threads, queue, io, cur, time) && -1 <= cur < |threads| && FutureOk(future) &&
        time == Spent(threads) + idled
    }

    ghost function Work(): (n: int)
      reads this
    {
      Load(threads) + Coming(future)
    }

    /** All tasks, entered or still to come, in the order of their arrival. */
    ghost function All(): (r: seq<Task>)
      reads this
    {
      TasksOf(threads) + future
    }

    ghost predicate FutureAhead()
      reads this
    {
      forall k :: 0 <= k < |future| ==> future[k].arrival > time
    }

    ghost predicate SleepersAhead()
      reads this
    {
      forall i :: i in io && i < |threads| ==> threads[i].wakeup > time
    }

    /** A thread for the first task, which has arrived. */
    method EnterTask(ghost cur: int)
      requires Valid(cur) && future != [] && future[0].arrival <= time
      modifies `threads, `queue, `future
      ensures Valid(cur) && Work() == old(Work()) && All() == old(All()) && future == old(future)[1..]
      ensures queue == old(queue) + [|old(threads)|] && |threads| == |old(threads)| + 1 &&
        threads[..|old(threads)|] == old(threads)
    {
      var task := future[0];
      var th := Thread(task, 0, task.arrival, 0, 0, 0, 0, 0, false);
      JoinQueue(threads, queue, io, cur, time, th);
      LoadAppend(threads, th);
      SpentAppend(threads, th);
      TasksAppend(threads, th, future);
      FutureTail(future);
      queue := queue + [|threads|];
      threads := threads + [th];
      future := future[1..];
    }

    /** New threads for the tasks that have arrived; the tasks are sorted, so those come first. */
    method EnterTasks(ghost cur: int)
      requires Valid(cur)
      modifies `threads, `queue, `future
      ensures Valid(cur) && Work() == old(Work()) && All() == old(All())
      ensures FutureAhead() && |future| <= |old(future)| &&
        (|future| == |old(future)| ==> future == old(future) && queue == old(queue))
      ensures |queue| - |old(queue)| == |old(future)| - |future| && old(queue) <= queue
      ensures |threads| >= |old(threads)| && threads[..|old(threads)|] == old(threads)
    {
      while future != [] && future[0].arrival <= time
        invariant Valid(cur) && Work() == old(Work()) && All() == old(All())
        invariant |future| <= |old(future)| &&
          (|future| == |old(future)| ==> future == old(future) && queue == old(queue))
        invariant |queue| - |old(queue)| == |old(future)| - |future| && old(queue) <= queue
        invariant |threads| >= |old(threads)| && threads[..|old(threads)|] == old(threads)
        decreases |future|
      {
        EnterTask(cur);
      }
      if future != [] { FutureTail(future); }
    }

    method Wake(i: nat, ghost cur: int)
      requires Valid(cur) && i in io && i < |threads| && threads[i].wakeup <= time
      modifies `threads, `queue, `io
      ensures Valid(cur) && Work() == old(Work()) && All() == old(All())
      ensures io == Without(old(io), i) && queue == old(queue) + [i]
      ensures |threads| == |old(threads)| && WakeupTimes(threads) == old(WakeupTimes(threads))
      ensures 0 <= cur ==> threads[cur] == old(threads)[cur]
    {
      var th := threads[i].(lastQueued := threads[i].wakeup);
      Wakes(threads, queue, io, cur, time, i);
      LoadAfter(threads, i, th);
      SpentAfter(threads, i, th);
      TasksSame(threads, i, th);
      assert WakeupTimes(threads[i := th]) == WakeupTimes(threads);
      io := Without(io, i);
      threads := threads[i := th];
      queue := queue + [i];
    }

    /** Threads whose I/O is over are queued. */
    method Wakeups(ghost cur: int)
      requires Valid(cur)
      modifies `threads, `queue, `io
      ensures Valid(cur) && Work() == old(Work()) && All() == old(All()) && SleepersAhead()
      ensures |io| <= |old(io)| && (|io| == |old(io)| ==> io == old(io))
      ensures |queue| - |old(queue)| == |old(io)| - |io| && |threads| == |old(threads)| && old(queue) <= queue
      ensures WakeupTimes(threads) == old(WakeupTimes(threads))
      ensures 0 <= cur ==> threads[cur] == old(threads)[cur]
    {
      var all, k := io, 0;
      ghost var wake := WakeupTimes(threads);
      while k < |all|
        invariant k <= |all| && Valid(cur) && Work() == old(Work()) && All() == old(All())
        invariant |io| <= |all| && (|io| == |all| ==> io == all)
        invariant |queue| - |old(queue)| == |all| - |io| && |threads| == |old(threads)| && old(queue) <= queue
        invariant WakeupTimes(threads) == wake && (0 <= cur ==> threads[cur] == old(threads)[cur])
        invariant Looked(all, io, k, wake, time)
      {
        var i := all[k];
        LookedNext(all, io, k, wake, time);
        assert i in io;
        if threads[i].wakeup <= time {
          Wake(i, cur);
        }
        k := k + 1;
      }
      assert all[..k] == all;
    }

    ghost predicate SomeDue()
      reads this
    {
      (future != [] && future[0].arrival <= time) || exists i :: i in io && i < |threads| && threads[i].wakeup <= time
    }

    /** `_arrivals`: whatever is due goes into the queue. */
    method Arrivals(ghost cur: int)
      requires Valid(cur)
      modifies `threads, `queue, `io, `future
      ensures Valid(cur) && Work() == old(Work()) && All() == old(All()) && FutureAhead() && SleepersAhead()
      ensures |queue| + |future| + |io| == old(|queue| + |future| + |io|) && old(queue) <= queue
      ensures old(SomeDue()) ==> |queue| > |old(queue)|
      ensures 0 <= cur ==> threads[cur] == old(threads)[cur]
    {
      ghost var before := threads;
      EnterTasks(cur);
      ghost var mid := threads;
      Wakeups(cur);
      assert forall i :: 0 <= i < |before| ==> WakeupTimes(threads)[i] == WakeupTimes(mid)[i] == before[i].wakeup;
      assert 0 <= cur ==> mid[..|before|][cur] == before[cur];
    }

    /** `next_start`: when the next task arrives or the next I/O is over, zero if nothing is to come. */
    method NextStart() returns (t: nat)
      requires Valid(-1) && FutureAhead() && SleepersAhead()
      ensures t == 0 <==> future == [] && io == []
      ensures t != 0 ==> t > time
      ensures t != 0 ==>
        (forall k :: 0 <= k < |future| ==> t <= future[k].arrival) && (forall i :: i in io ==> t <= threads[i].wakeup)
      ensures t != 0 ==> (future != [] && future[0].arrival == t) || exists i :: i in io && threads[i].wakeup == t
    {
      t := 0;
      if future != [] {
        FutureTail(future);
        t := future[0].arrival;
      }
      var k := 0;
      while k < |io|
        invariant k <= |io| && (t == 0 <==> future == [] && k == 0) && (t != 0 ==> t > time)
        invariant t != 0 ==> (forall j :: 0 <= j < |future| ==> t <= future[j].arrival)
        invariant forall j :: 0 <= j < k && io[j] < |threads| ==> t <= threads[io[j]].wakeup
        invariant t != 0 ==> (future != [] && future[0].arrival == t) || exists i :: i in io && threads[i].wakeup == t
      {
        assert io[k] in io;
        if t == 0 || threads[io[k]].wakeup < t {
          t := threads[io[k]].wakeup;
        }
        k := k + 1;
      }
    }

    /** `idle`: time moves on to the next start, and somebody is ready then. */
    method Idle()
      requires Valid(-1) && FutureAhead() && SleepersAhead() && queue == [] && (future != [] || io != [])
      modifies this
      ensures Valid(-1) && FutureAhead() && SleepersAhead() && All() == old(All()) && Work() == old(Work())
      ensures |future| + |io| < old(|future| + |io|) && time > old(time) && idled == old(idled) + time - old(time)
      ensures forall k :: 0 <= k < |old(future)| ==> time <= old(future)[k].arrival
      ensures forall i :: i in old(io) ==> time <= old(threads)[i].wakeup
    {
      var t := NextStart();
      TimePasses(threads, queue, io, -1, time, t);
      idled := idled + (t - time);
      time := t;
      Arrivals(-1);
    }

    /** `dequeue`: the front of the queue has waited until now. */
    method Dequeue() returns (i: nat)
      requires Valid(-1) && queue != []
      modifies `threads, `queue
      ensures i < |threads| && Valid(i) && Accounted(threads[i], time) && !threads[i].done
      ensures i == old(queue)[0] && queue == old(queue)[1..]
      ensures Work() == old(Work()) && All() == old(All()) && (SleepersAhead() <==> old(SleepersAhead()))
    {
      FrontRuns(threads, queue, io, time);
      i := queue[0];
      var th := threads[i].(wait := threads[i].wait + (time - threads[i].lastQueued));
      CurrentChanges(threads, queue[1..], io, i, time, th, time);
      LoadAfter(threads, i, th);
      SpentAfter(threads, i, th);
      TasksSame(threads, i, th);
      queue := queue[1..];
      threads := threads[i := th];
    }

    /** The thread runs, and time with it. */
    method RunThread(i: nat, q: nat) returns (status: Status)
      requires i < |threads| && Valid(i) && Accounted(threads[i], time) && !threads[i].done
      modifies this
      ensures i < |threads| && Valid(i) && Accounted(threads[i], time) && !threads[i].done
      ensures FutureAhead() && SleepersAhead() && All() == old(All()) && idled == old(idled) && old(queue) <= queue
      ensures var th := old(threads)[i]; var b := if th.burst > 0 then th.burst else th.task.cpuBurst(th.elapsed);
        && time - old(time) == threads[i].elapsed - th.elapsed == RunLength(Remaining(th), b, q)
        && (status != Done ==>
             status == if b > 0 && time - old(time) == b then Io(th.task.ioBurst(threads[i].elapsed)) else Cpu)
      ensures status == Done <==> threads[i].elapsed == threads[i].task.total
      ensures if status == Done then Work() <= old(Work()) else Work() < old(Work())
    {
      var r, runLen, st := Run(threads[i], q);
      status := st;
      CurrentChanges(threads, queue, io, i, time, r, time + runLen);
      LoadAfter(threads, i, r);
      SpentAfter(threads, i, r);
      TasksSame(threads, i, r);
      threads := threads[i := r];
      time := time + runLen;
      Arrivals(i);
    }

    method Update(i: nat, th: Thread)
      requires i < |threads| && Valid(i) && Sane(th) && th.task == threads[i].task && th.elapsed == threads[i].elapsed
      modifies `threads
      ensures threads == old(threads)[i := th] && Valid(i) && All() == old(All())
      ensures Load(threads) - (if th.done then 0 else Remaining(th) + 1)
           == old(Load(threads)) - old(if threads[i].done then 0 else Remaining(threads[i]) + 1)
    {
      CurrentChanges(threads, queue, io, i, time, th, time);
      LoadAfter(threads, i, th);
      SpentAfter(threads, i, th);
      TasksSame(threads, i, th);
      threads := threads[i := th];
    }

    /** The end of a turn: the thread waits for I/O, is queued again, or has finished. */
    method Settle(i: nat, status: Status)
      requires i < |threads| && Valid(i) && Accounted(threads[i], time) && !threads[i].done && FutureAhead() &&
        SleepersAhead()
      requires status == Done ==> threads[i].elapsed == threads[i].task.total
      modifies `threads, `queue, `io
      ensures Valid(-1) && FutureAhead() && SleepersAhead() && All() == old(All())
      ensures if status == Done then Work() < old(Work()) else Work() == old(Work())
      ensures |threads| == |old(threads)| && if status == Done then
          queue == old(queue) && io == old(io) && threads[i].done && threads[i].finish == time
        else if status.Io? && status.time > 0 then
          queue == old(queue) && io == old(io) + [i] && threads[i].wakeup == time + status.time
        else queue == old(queue) + [i] && io == old(io) && threads[i].lastQueued == time
    {
      var th := threads[i];
      if status.Io? && status.time > 0 {
        th := th.(wakeup := time + status.time, io := th.io + status.time);
      } else if status != Done {
        th := th.(lastQueued := time);
      } else {
        th := th.(done := true, finish := time);
      }
      Update(i, th);
      if status.Io? && status.time > 0 {
        CurrentSleeps(threads, queue, io, i, time);
        io := io + [i];
      } else if status != Done {
        CurrentQueues(threads, queue, io, i, time);
        queue := queue + [i];
      } else {
        CurrentFinishes(threads, queue, io, i, time);
      }
    }

    /** The tasks come sorted by arrival. */
    constructor (tasks: seq<Task>)
      requires FutureOk(tasks)
      ensures Valid(-1) && FutureAhead() && SleepersAhead() && All() == tasks
    {
      time, threads, queue, io, future, idled := 0, [], [], [], tasks, 0;
      new;
      Arrivals(-1);
    }

    /** `scheduler`: it ends; by then every task has had a thread that ran for its total time, every
        moment of each thread's life was spent running, waiting or in I/O, and the time that has passed is
        what all tasks needed together and what the processor was idle, with nobody to run. */
    method Schedule(q: nat)
      requires Valid(-1) && FutureAhead() && SleepersAhead()
      modifies this
      ensures TasksOf(threads) == old(All()) && time == Totals(old(All())) + idled
      ensures forall i :: 0 <= i < |threads| ==> Sane(threads[i]) && Finished(threads[i], time)
    {
      LoadPositive(threads);
      var next := NextStart();
      while queue != [] || next != 0
        invariant Valid(-1) && FutureAhead() && SleepersAhead() && All() == old(All()) && Work() >= 0
        invariant next == 0 <==> future == [] && io == []
        decreases Work(), |future| + |io|
      {
        if queue == [] {
          Idle();
        } else {
          var i := Dequeue();
          var status := RunThread(i, q);
          Settle(i, status);
        }
        LoadPositive(threads);
        next := NextStart();
      }
      assert TasksOf(threads) + [] == TasksOf(threads);
      AllSpent(threads);
    }
  }
}
