/**
 The scheduler and the semaphores as the kernel keeps them: fields that each call updates in
 place.  Every method is proved to make the step of module Scheduler that stands for it.
 */
module Kernel {
  import opened Scheduler
  import opened Semaphores

  class Kernel {
    const idle: Tid
    var current: Tid
    var ready: seq<Tid>
    var threads: map<Tid, Thread>
    var semas: map<SemaId, Sema>

    ghost function View(): (st: State)
      reads this
    {
      State(idle, current, ready, threads, semas)
    }

    constructor (idle: Tid, main: Tid)
      requires idle != main
      ensures View() == Started(idle, main) && Inv(View())
    {
      this.idle, current, ready := idle, main, [];
      threads := map[idle := Thread(Blocked, Free), main := Thread(Running, Free)];
      semas := map[];
      new;
      StartedOk(idle, main, []);
    }

    method SetStatus(t: Tid, status: Status)
      requires t in threads
      modifies `threads
      ensures threads == old(threads)[t := old(threads)[t].(status := status)]
    {
      threads := threads[t := threads[t].(status := status)];
    }

    method NextThreadToRun() returns (next: Tid)
      modifies `ready
      ensures old(ready) == [] ==> next == idle && ready == []
      ensures old(ready) != [] ==> old(ready) == [next] + ready
    {
      if ready == [] {
        next := idle;
      } else {
        next := ready[0];
        ready := ready[1..];
      }
    }

    method Schedule()
      requires Unscheduled(View())
      modifies this
      ensures View() == Dispatch(old(View())) && Inv(View())
    {
      DispatchKeeps(View());
      assert ready != [] ==> ready[0] in ready;
      var next := NextThreadToRun();
      current := next;
      SetStatus(current, Running);
    }

    method ThreadUnblock(t: Tid)
      requires t in threads && threads[t].status == Blocked
      modifies `ready, `threads
      ensures ready == old(ready) + [t] && threads == old(threads)[t := old(threads)[t].(status := Ready)]
    {
      ready := ready + [t];
      SetStatus(t, Ready);
    }

    method ThreadYield()
      requires Inv(View())
      modifies this
      ensures View() == Apply(old(View()), Yield) && Inv(View())
    {
      ghost var st := View();
      if current != idle {
        ready := ready + [current];
      }
      SetStatus(current, Ready);
      assert View() == Yielding(st);
      YieldReady(st);
      Schedule();
    }

    method ThreadExit()
      requires Inv(View()) && Enabled(View(), Exit)
      modifies this
      ensures View() == Apply(old(View()), Exit) && Inv(View())
    {
      ExitReady(View());
      threads := threads - {current};
      Schedule();
    }

    method SemaTryDown(s: SemaId) returns (success: bool)
      requires Inv(View()) && s in semas
      modifies `semas
      ensures View() == Apply(old(View()), TryDown(s)) && Inv(View())
      ensures success <==> old(semas)[s].value > 0
    {
      StepKeeps(View(), TryDown(s));
      success := semas[s].value > 0;
      if success {
        semas := semas[s := semas[s].(value := semas[s].value - 1)];
      }
    }

    method SemaUp(s: SemaId)
      requires Inv(View()) && s in semas
      modifies this
      ensures View() == Apply(old(View()), Up(s)) && Inv(View())
    {
      ghost var st := View();
      if semas[s].waiters != [] {
        FirstIsBlocked(st, s);
        var t := semas[s].waiters[0];
        semas := semas[s := semas[s].(waiters := semas[s].waiters[1..])];
        ThreadUnblock(t);
      }
      semas := semas[s := semas[s].(value := semas[s].value + 1)];
      assert View() == UpOnce(st, s);
      StepKeeps(st, Up(s));
    }

    /** `sema_down` up to where it returns or gives up the processor; a thread that is woken comes
        here again. */
    method SemaDown(s: SemaId) returns (through: bool)
      requires Inv(View()) && Enabled(View(), Down(s))
      modifies this
      ensures View() == Apply(old(View()), Down(s)) && Inv(View())
      ensures through <==> old(semas)[s].value > 0
    {
      ghost var st := View();
      StepKeeps(st, Down(s));
      through := semas[s].value > 0;
      if !through {
        BlockReady(st, s);
        semas := semas[s := semas[s].(waiters := semas[s].waiters + [current])];
        threads := threads[current := Thread(Blocked, Waiting(s))];
        Schedule();
      } else {
        semas := semas[s := semas[s].(value := semas[s].value - 1)];
        threads := threads[current := threads[current].(task := Free)];
      }
    }
  }
}
