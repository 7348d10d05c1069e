/** The scheduler as it is written: global variables changed in place, each method one region with
    interrupts disabled. */
module Minithread {
  import opened MultilevelQueue
  import opened Scheduler

  /** What a thread is charged does not depend on how long its level has been served. */
  lemma UsedAside(s: State, used: nat)
    requires Formed(s)
    ensures var r := s.(used := used);
            && Formed(r) && s.cur < LEVELS
            && Charged(r).queues == s.queues && Charged(r).cur == s.cur && Charged(r).used == used
            && DemoteIfSpent(Charged(r)) == DemoteIfSpent(Charged(s)).(used := used)
            && DemoteIfSpent(Charged(s)).cur == s.cur
            && (Spent(Charged(r)) <==> Spent(Charged(s)))
            && (!Spent(Charged(s)) ==> DemoteIfSpent(Charged(r)) == Charged(r))
  {
  }

  class Kernel {
    const runnable: LevelQueues
    var level: map<Thread, nat>
    var quanta: map<Thread, int>
    var running: Thread
    var currLevel: nat
    var currLevelQuanta: nat
    ghost var blocked: set<Thread>

    ghost function Abstract(): State
      reads this, runnable
    {
      State(runnable.queues, level, quanta, running, currLevel, currLevelQuanta, blocked)
    }

    ghost predicate Valid()
      reads this, runnable
    {
      Inv(Abstract())
    }

    /** The quanta of the scheduler thread are whatever its memory held. */
    constructor (garbage: int)
      ensures Valid() && Initial(Abstract()) && fresh(runnable)
    {
      level, quanta := map[SCHEDULER := 0], map[SCHEDULER := garbage];
      running, currLevel, currLevelQuanta, blocked := SCHEDULER, 0, 0, {};
      runnable := new LevelQueues();
      new;
      InitialInv(Abstract());
    }

    lemma ValidFormed()
      requires Valid()
      ensures Formed(Abstract())
    {
    }

    method SwitchToNext()
      requires Formed(Abstract())
      modifies this, runnable
      ensures Abstract() == Dispatch(old(Abstract()))
    {
      var found := runnable.Dequeue(currLevel);
      match found
      case Found(first) =>
        if currLevel != level[first] {
          currLevel := level[first];
          currLevelQuanta := 0;
        }
        running := first;
      case Empty =>
        running := SCHEDULER;
    }

    /** The next thread is taken out of the queues before the running one goes in. */
    method YieldRunningThread()
      requires Formed(Abstract())
      modifies this, runnable
      ensures Abstract() == YieldRunning(old(Abstract()))
    {
      var temp, tempLevel := running, level[running];
      SwitchToNext();
      if temp != SCHEDULER {
        runnable.Enqueue(tempLevel, temp);
      }
    }

    method StopRunningThread()
      requires Formed(Abstract())
      modifies this, runnable
      ensures Abstract() == StopRunning(old(Abstract()))
    {
      ghost var temp := running;
      SwitchToNext();
      blocked := blocked + {temp};
    }

    method ChargeRunning()
      requires Formed(Abstract())
      modifies this`quanta
      ensures Abstract() == Charged(old(Abstract())) && Formed(Abstract())
    {
      quanta := quanta[running := quanta[running] + 1];
    }

    method DemoteRunning()
      requires Formed(Abstract())
      modifies this
      ensures Abstract() == DemoteIfSpent(old(Abstract())) && Formed(Abstract())
    {
      if quanta[running] == LevelQuantum(currLevel) {
        quanta := quanta[running := 0];
        level := level[running := if currLevel + 1 == LEVELS then currLevel else currLevel + 1];
      }
    }

    method MinithreadStop()
      requires Valid() && running != SCHEDULER
      modifies this, runnable
      ensures Valid() && Abstract() == Next(old(Abstract()), Stop)
    {
      hide Between, Places, QuantaLeft, InOwnQueues, AllQueued, LevelMax, LevelQuantum;
      ValidFormed();
      NextInv(Abstract(), Stop);
      ChargeRunning();
      DemoteRunning();
      StopRunningThread();
    }

    method MinithreadYield()
      requires Valid()
      modifies this, runnable
      ensures Valid() && Abstract() == Next(old(Abstract()), Yield)
    {
      hide Between, Places, QuantaLeft, InOwnQueues, AllQueued, LevelMax, LevelQuantum;
      ValidFormed();
      NextInv(Abstract(), Yield);
      DemoteRunning();
      YieldRunningThread();
    }

    method MinithreadStart(t: Thread)
      requires Valid() && t in blocked && t in level
      modifies this, runnable
      ensures Valid() && Abstract() == Started(old(Abstract()), t) && blocked == old(blocked) - {t}
    {
      BlockedKnown(Abstract());
      NextInv(Abstract(), Start(t));
      runnable.Enqueue(level[t], t);
      blocked := blocked - {t};
    }

    method MinithreadCreate(t: Thread)
      requires Valid() && t !in level
      modifies this
      ensures Valid() && Abstract() == Next(old(Abstract()), Create(t))
    {
      hide Inv;
      ValidFormed();
      NextInv(Abstract(), Create(t));
      level, quanta, blocked := level[t := 0], quanta[t := 0], blocked + {t};
    }

    method MoveOn()
      requires Formed(Abstract())
      modifies this`currLevel, this`currLevelQuanta
      ensures Abstract() == old(Abstract()).(cur := (old(currLevel) + 1) % LEVELS, used := 0) && Formed(Abstract())
    {
      currLevel := (currLevel + 1) % LEVELS;
      currLevelQuanta := 0;
    }

    method ImplementScheduler()
      requires Valid()
      modifies this, runnable
      ensures Valid() && Abstract() == Implement(old(Abstract()))
    {
      hide Inv, LevelMax, LevelQuantum, Charged, DemoteIfSpent, Formed, YieldRunning;
      ghost var s := Abstract();
      ValidFormed();
      ImplementInv(s);
      UsedAside(s, s.used + 1);
      currLevelQuanta := currLevelQuanta + 1;
      ChargeRunning();
      var scheduleNext := false;
      if currLevelQuanta == LevelMax(currLevel) {
        DemoteRunning();
        MoveOn();
        scheduleNext := true;
      } else if quanta[running] == LevelQuantum(currLevel) {
        DemoteRunning();
        scheduleNext := true;
      }
      if scheduleNext {
        YieldRunningThread();
      }
    }

    /** A clock interrupt: the alarms that are due, in order, then the scheduler. */
    method ClockHandler(woken: seq<Thread>)
      requires Valid() && Enabled(Abstract(), Tick(woken))
      modifies this, runnable
      ensures Valid() && Abstract() == Next(old(Abstract()), Tick(woken))
    {
      hide Inv, Started;
      NextInv(Abstract(), Tick(woken));
      ghost var s := Abstract();
      for k := 0 to |woken|
        invariant Valid() && Abstract() == AllStarted(s, woken[..k])
        invariant forall i | k <= i < |woken| :: woken[i] in blocked
      {
        assert woken[..k + 1][..k] == woken[..k];
        MinithreadStart(woken[k]);
      }
      assert woken[..|woken|] == woken;
      ImplementScheduler();
    }
  }
}
