/** Sleeping threads: the alarm queue and the scheduler together, driven by one clock. */
module Sleep {
  import Alarms
  import LinkedQueue
  import opened MultilevelQueue
  import opened Scheduler
  import opened BoundedWaiting
  import Minithread

  datatype System = System(clock: Alarms.Clock, sched: State)

  /** The running thread goes to sleep for so many milliseconds; the clock interrupts; anything else. */
  datatype Act = GoToSleep(delay: int) | Interrupt | Other(step: Step)

  function Sleepers(c: Alarms.Clock): set<Thread> {
    set e | e in c.pending :: e.data.thread
  }

  /** The threads whose alarms go off at the next tick, in order. */
  function Woken(c: Alarms.Clock): (woken: seq<Thread>)
    ensures |woken| == Alarms.Ready(c.pending, c.now + 1)
    ensures forall i | 0 <= i < |woken| :: woken[i] == c.pending[i].data.thread
  {
    seq(Alarms.Ready(c.pending, c.now + 1), i requires 0 <= i < |c.pending| => c.pending[i].data.thread)
  }

  /** What an act is to the scheduler. */
  function AsStep(s: System, act: Act): Step {
    match act
    case GoToSleep(_) => Stop
    case Interrupt => Tick(Woken(s.clock))
    case Other(step) => step
  }

  /** Other acts are no clock interrupts, and wake no thread that sleeps. */
  predicate Allowed(s: System, act: Act) {
    && Enabled(s.sched, AsStep(s, act))
    && (act.Other? ==> !act.step.Tick? && (act.step.Start? ==> act.step.t !in Sleepers(s.clock)))
  }

  function After(s: System, act: Act): System
    requires Allowed(s, act)
  {
    System(match act
           case GoToSleep(delay) => Alarms.Registered(s.clock, delay, s.sched.running)
           case Interrupt => Alarms.Ticked(s.clock)
           case Other(_) => s.clock,
           Next(s.sched, AsStep(s, act)))
  }

  // ---------------------------------------------------------------- the invariant

  /** Every alarm is for a thread that is blocked, and each thread has at most one. */
  ghost predicate Asleep(s: System) {
    && (forall e | e in s.clock.pending :: e.data.thread in s.sched.blocked)
    && forall e, f | e in s.clock.pending && f in s.clock.pending && e.data.thread == f.data.thread :: e == f
  }

  ghost predicate Joined(s: System) {
    Alarms.Inv(s.clock) && Inv(s.sched) && Asleep(s)
  }

  /** The delay is for a tick to come. */
  predicate Prompt(act: Act) {
    act.GoToSleep? ==> Alarms.Due(act.delay) >= 1
  }

  /** The clock may always interrupt: the threads whose alarms go off are blocked, and no two are the same. */
  lemma MayInterrupt(s: System)
    requires Joined(s)
    ensures Allowed(s, Interrupt)
  {
    hide Between;
    BlockedInLevel(s.sched);
    var c := s.clock;
    forall i, j | 0 <= i < j < |Woken(c)|
      ensures Woken(c)[i] != Woken(c)[j]
    {
      assert Alarms.Before(c.pending[i].data, c.pending[j].data);
      assert c.pending[i] in c.pending && c.pending[j] in c.pending;
    }
    forall t | t in Woken(c)
      ensures t in s.sched.blocked
    {
      var i :| 0 <= i < |Woken(c)| && Woken(c)[i] == t;
      assert c.pending[i] in c.pending;
    }
  }

  lemma BlockedInLevel(s: State)
    requires Inv(s)
    ensures Formed(s) && forall t | t in s.blocked :: t in s.level
  {
    BlockedKnown(s);
  }

  lemma SleepAsleep(s: System, delay: int)
    requires Joined(s) && Allowed(s, GoToSleep(delay))
    ensures Asleep(After(s, GoToSleep(delay)))
  {
    hide Alarms.Inv, Next, Enabled;
    BlockedAfter(s.sched, Stop);
    hide Inv;
    var a := Alarms.NewAlarm(s.clock, delay, s.sched.running);
    var entry := LinkedQueue.Entry(a, a.end);
    var s' := After(s, GoToSleep(delay));
    forall e | e in s'.clock.pending
      ensures e == entry || e in s.clock.pending
      ensures e.data.thread in s'.sched.blocked
    {
      Alarms.InsertMembers(s.clock.pending, entry, e);
    }
  }

  /** An alarm that has not gone off is for another thread than those that have. */
  lemma StillAsleep(s: System, e: Alarms.Pending)
    requires Joined(s) && e in Alarms.Ticked(s.clock).pending
    ensures e in s.clock.pending && e.data.thread !in Woken(s.clock)
  {
    var c := s.clock;
    var k := Alarms.Ready(c.pending, c.now + 1);
    var i :| 0 <= i < |c.pending[k..]| && c.pending[k..][i] == e;
    assert e == c.pending[k + i];
    forall j | 0 <= j < k
      ensures c.pending[j].data.thread != e.data.thread
    {
      assert Alarms.Before(c.pending[j].data, c.pending[k + i].data);
      assert c.pending[j] in c.pending;
    }
  }

  lemma InterruptAsleep(s: System)
    requires Joined(s) && Allowed(s, Interrupt)
    ensures Asleep(After(s, Interrupt))
  {
    BlockedAfter(s.sched, Tick(Woken(s.clock)));
    hide Next, Enabled, Alarms.Ticked, Inv, Alarms.Inv;
    var s' := After(s, Interrupt);
    forall e | e in s'.clock.pending
      ensures e in s.clock.pending && e.data.thread in s'.sched.blocked
    {
      StillAsleep(s, e);
    }
  }

  lemma OtherAsleep(s: System, step: Step)
    requires Inv(s.sched) && Asleep(s) && Allowed(s, Other(step))
    ensures Asleep(After(s, Other(step)))
  {
    BlockedAfter(s.sched, step);
    hide Next, Enabled, Inv;
    var s' := After(s, Other(step));
    forall e | e in s.clock.pending
      ensures e.data.thread in s'.sched.blocked
    {
      assert e.data.thread in Sleepers(s.clock);
    }
  }

  lemma AfterJoined(s: System, act: Act)
    requires Joined(s) && Allowed(s, act) && Prompt(act)
    ensures Joined(After(s, act))
  {
    hide Next, Enabled, Inv, Alarms.Inv, Alarms.Due, Asleep;
    NextInv(s.sched, AsStep(s, act));
    match act
    case GoToSleep(delay) =>
      Alarms.RegisterInv(s.clock, delay, s.sched.running);
      SleepAsleep(s, delay);
    case Interrupt =>
      Alarms.TickInv(s.clock);
      InterruptAsleep(s);
    case Other(step) => OtherAsleep(s, step);
  }

  // ---------------------------------------------------------------- runs

  ghost predicate Booted(s: System) {
    Initial(s.sched) && s.clock.pending == [] && s.clock.made == [] && s.clock.fired == []
  }

  ghost predicate IsLife(run: seq<System>, acts: seq<Act>) {
    && |run| == |acts| + 1 && Booted(run[0])
    && forall i | 0 <= i < |acts| :: Allowed(run[i], acts[i]) && run[i + 1] == After(run[i], acts[i])
  }

  lemma {:induction false} LifeJoined(run: seq<System>, acts: seq<Act>, i: nat)
    requires IsLife(run, acts) && i < |run| && forall j | 0 <= j < i :: Prompt(acts[j])
    ensures Joined(run[i])
  {
    hide Joined, After, Allowed, Prompt;
    if i == 0 {
      BootedJoined(run[0]);
    } else {
      LifeJoined(run, acts, i - 1);
      AfterJoined(run[i - 1], acts[i - 1]);
    }
  }

  lemma BootedJoined(s: System)
    requires Booted(s)
    ensures Joined(s)
  {
    InitialInv(s.sched);
    Alarms.EmptyInv(s.clock);
  }

  /** The run as the scheduler sees it. */
  function Scheds(run: seq<System>): (scheds: seq<State>)
    ensures |scheds| == |run| && forall i | 0 <= i < |run| :: scheds[i] == run[i].sched
  {
    seq(|run|, i requires 0 <= i < |run| => run[i].sched)
  }

  function Steps(run: seq<System>, acts: seq<Act>): (steps: seq<Step>)
    requires |run| == |acts| + 1
    ensures |steps| == |acts| && forall i | 0 <= i < |acts| :: steps[i] == AsStep(run[i], acts[i])
  {
    seq(|acts|, i requires 0 <= i < |acts| => AsStep(run[i], acts[i]))
  }

  lemma ScheduledRun(run: seq<System>, acts: seq<Act>)
    requires IsLife(run, acts)
    ensures Scheduler.IsRun(Scheds(run), Steps(run, acts)) && Initial(Scheds(run)[0])
  {
    hide Next, Enabled, Initial;
    var scheds, steps := Scheds(run), Steps(run, acts);
    forall i | 0 <= i < |steps|
      ensures Enabled(scheds[i], steps[i]) && scheds[i + 1] == Next(scheds[i], steps[i])
    {
      assert Allowed(run[i], acts[i]) && run[i + 1] == After(run[i], acts[i]);
    }
  }

  /** Clock interrupts among the acts from `i` on and before `k`. */
  function Interrupts(acts: seq<Act>, i: nat, k: nat): nat
    requires i <= k <= |acts|
    decreases k - i
  {
    if i == k then 0 else (if acts[i].Interrupt? then 1 else 0) + Interrupts(acts, i + 1, k)
  }

  lemma {:induction false} InterruptsAreTicks(run: seq<System>, acts: seq<Act>, i: nat, k: nat)
    requires IsLife(run, acts) && i <= k <= |acts|
    ensures Interrupts(acts, i, k) == Ticks(Steps(run, acts), i, k)
    decreases k - i
  {
    hide After, Next, Enabled;
    if i < k {
      InterruptsAreTicks(run, acts, i + 1, k);
      assert Allowed(run[i], acts[i]);
    }
  }

  lemma {:induction false} Time(run: seq<System>, acts: seq<Act>, i: nat, k: nat)
    requires IsLife(run, acts) && i <= k <= |acts|
    ensures run[k].clock.now == run[i].clock.now + Interrupts(acts, i, k)
    ensures run[i].clock.made <= run[k].clock.made
    decreases k - i
  {
    hide Next, Allowed, LinkedQueue.Inserted, Alarms.Drained;
    if i < k {
      Time(run, acts, i + 1, k);
      assert run[i + 1] == After(run[i], acts[i]);
    }
  }

  // ---------------------------------------------------------------- asleep until the alarm

  /** Until its tick a sleeper's alarm waits, and the sleeper neither runs nor is queued. */
  lemma Sleeping(run: seq<System>, acts: seq<Act>, i: nat, m: nat)
    requires IsLife(run, acts) && i < m < |run| && acts[i].GoToSleep? && forall j | 0 <= j < m :: Prompt(acts[j])
    requires run[m].clock.now < run[i].clock.now + Alarms.Due(acts[i].delay)
    ensures var t, a := run[i].sched.running, Alarms.NewAlarm(run[i].clock, acts[i].delay, run[i].sched.running);
            LinkedQueue.Entry(a, a.end) in run[m].clock.pending && t in run[m].sched.blocked
  {
    hide Next, Allowed, LinkedQueue.Inserted, Alarms.Due, Inv;
    var a := Alarms.NewAlarm(run[i].clock, acts[i].delay, run[i].sched.running);
    LifeJoined(run, acts, m);
    Time(run, acts, i + 1, m);
    assert run[i + 1] == After(run[i], acts[i]);
    assert run[m].clock.made[|run[i].clock.made|] == a;
    hide IsLife;
    assert Alarms.Accounted(run[m].clock, a);
  }

  /** At its tick the sleeper is among the threads woken, in one place only. */
  lemma WokenOnce(s: System, e: Alarms.Pending)
    requires Joined(s) && e in s.clock.pending && e.data.end == s.clock.now + 1
    ensures multiset(Woken(s.clock))[e.data.thread] == 1
  {
    var c := s.clock;
    var woken := Woken(c);
    MayInterrupt(s);
    var i :| 0 <= i < |c.pending| && c.pending[i] == e;
    if i >= |woken| {
      Alarms.LateLater(c, i);
    }
    hide Inv, Alarms.Inv, Asleep;
    DistinctOnce(woken, i);
  }

  lemma DistinctOnce(s: seq<Thread>, i: nat)
    requires i < |s| && forall a, b | 0 <= a < b < |s| :: s[a] != s[b]
    ensures multiset(s)[s[i]] == 1
  {
    assert s == s[..i] + [s[i]] + s[i + 1..];
    assert s[i] !in multiset(s[..i]) && s[i] !in multiset(s[i + 1..]);
  }

  /** The interrupt at which the clock reaches `due`. */
  lemma {:induction false} TickOf(run: seq<System>, acts: seq<Act>, i: nat, due: int) returns (j: nat)
    requires IsLife(run, acts) && i < |run| && run[i].clock.now < due <= run[|acts|].clock.now
    ensures i <= j < |acts| && acts[j].Interrupt? && run[j].clock.now + 1 == due
    decreases |run| - i
  {
    hide Next, Allowed, LinkedQueue.Inserted, Alarms.Drained;
    assert run[i + 1] == After(run[i], acts[i]);
    if run[i + 1].clock.now < due {
      j := TickOf(run, acts, i + 1, due);
    } else {
      j := i;
    }
  }

  /** A thread sleeps until its alarm's tick, is woken there, once, and is then no longer blocked. */
  lemma SleepsUntil(run: seq<System>, acts: seq<Act>, i: nat) returns (j: nat)
    requires IsLife(run, acts) && i < |acts| && acts[i].GoToSleep? && forall m | 0 <= m < |acts| :: Prompt(acts[m])
    requires Interrupts(acts, i, |acts|) >= Alarms.Due(acts[i].delay)
    ensures i < j < |acts| && acts[j].Interrupt? && Interrupts(acts, i, j + 1) == Alarms.Due(acts[i].delay)
    ensures var t := run[i].sched.running;
            && (forall m | i < m <= j :: t in run[m].sched.blocked)
            && multiset(Woken(run[j].clock))[t] == 1
            && t !in run[j + 1].sched.blocked && t in Users(run[j + 1].sched)
  {
    hide Next, Allowed, Alarms.Due, After, LinkedQueue.Inserted, Alarms.Drained, Inv, Joined;
    var t, due := run[i].sched.running, run[i].clock.now + Alarms.Due(acts[i].delay);
    assert Prompt(acts[i]);
    Time(run, acts, i, |acts|);
    j := TickOf(run, acts, i, due);
    Time(run, acts, i, j);
    InterruptsJoin(acts, i, j);
    forall m | i < m <= j
      ensures t in run[m].sched.blocked
    {
      Time(run, acts, m, j);
      Sleeping(run, acts, i, m);
    }
    LifeJoined(run, acts, j);
    Sleeping(run, acts, i, j);
    Wakes(run[j], LinkedQueue.Entry(Alarms.NewAlarm(run[i].clock, acts[i].delay, t), due));
    assert run[j + 1] == After(run[j], acts[j]);
  }

  lemma {:induction false} InterruptsJoin(acts: seq<Act>, i: nat, j: nat)
    requires i <= j < |acts|
    ensures Interrupts(acts, i, j + 1) == Interrupts(acts, i, j) + if acts[j].Interrupt? then 1 else 0
    decreases j - i
  {
    if i < j {
      InterruptsJoin(acts, i + 1, j);
    } else {
      assert Interrupts(acts, j + 1, j + 1) == 0;
    }
  }

  lemma Wakes(s: System, e: Alarms.Pending)
    requires Joined(s) && Allowed(s, Interrupt) && e in s.clock.pending && e.data.end == s.clock.now + 1
    ensures var s', t := After(s, Interrupt), e.data.thread;
            multiset(Woken(s.clock))[t] == 1 && t !in s'.sched.blocked && t in Users(s'.sched)
  {
    var woken := Woken(s.clock);
    WokenOnce(s, e);
    BlockedAfter(s.sched, Tick(woken));
    BlockedKnown(s.sched);
    UsersStay(s.sched, Tick(woken));
    hide Inv, Alarms.Inv, Next, Enabled;
    assert e.data.thread in multiset(woken);
  }

  // ---------------------------------------------------------------- and then running soon

  lemma {:induction false} UsersGrow(run: seq<System>, acts: seq<Act>, i: nat, k: nat)
    requires IsLife(run, acts) && i <= k < |run|
    ensures Users(run[i].sched) <= Users(run[k].sched)
    decreases k - i
  {
    hide Next, Users;
    if i < k {
      assert Allowed(run[i], acts[i]) && run[i + 1] == After(run[i], acts[i]);
      UsersStay(run[i].sched, AsStep(run[i], acts[i]));
      UsersGrow(run, acts, i + 1, k);
    }
  }

  /** A thread that is not blocked runs, or stands in a queue that is no longer than there are threads. */
  lemma Queued(s: State, t: Thread) returns (l: nat, p: nat)
    requires Inv(s) && t in Users(s) && t !in s.blocked && t != s.running
    ensures QueuedAt(s, l, p, t) && p < |Users(s)|
  {
    OnePlace(s, t);
    assert t in AllQueued(s.queues) by {
      assert multiset(s.blocked)[t] == 0;
    }
    l :| 0 <= l < LEVELS && t in s.queues[l];
    p :| 0 <= p < |s.queues[l]| && s.queues[l][p] == t;
    QueueWithin(s, l);
  }

  lemma QueueWithin(s: State, l: nat)
    requires Between(s) && l < LEVELS
    ensures |s.queues[l]| <= |Users(s)|
  {
    hide QuantaLeft, InOwnQueues;
    var rest := Places(s) - multiset(s.queues[l]);
    assert multiset(s.queues[l]) <= AllQueued(s.queues) <= Places(s);
    assert Places(s) == multiset(s.queues[l]) + rest;
    assert |multiset(Users(s))| == |Users(s)| && |multiset(s.queues[l])| == |s.queues[l]|;
  }

  lemma AwakeRuns(run: seq<System>, acts: seq<Act>, j: nat, t: Thread, users: nat) returns (k: nat)
    requires IsLife(run, acts) && j < |run| && t in Users(run[j].sched) && t !in run[j].sched.blocked
    requires |Users(run[j].sched)| <= users && Interrupts(acts, j, |acts|) >= ROUND * users
    ensures j <= k < |run| && run[k].sched.running == t && Interrupts(acts, j, k) <= ROUND * users
  {
    hide Initial, Next, Allowed;
    if run[j].sched.running == t {
      k := j;
    } else {
      ScheduledRun(run, acts);
      Scheduler.RunInv(Scheds(run), Steps(run, acts), j);
      hide IsLife, Inv, QueuedAt;
      var l, p := Queued(run[j].sched, t);
      InterruptsAreTicks(run, acts, j, |acts|);
      k := Runs(Scheds(run), Steps(run, acts), j, l, p, t);
      InterruptsAreTicks(run, acts, j, k);
    }
  }

  /** Sleeping as it is meant: the thread is blocked for exactly the ticks its delay rounds up to, is woken once, and
      runs within 160 further ticks for each thread there is, if the clock goes on that long. */
  lemma SleepsAndRuns(run: seq<System>, acts: seq<Act>, i: nat) returns (j: nat, k: nat)
    requires IsLife(run, acts) && i < |acts| && acts[i].GoToSleep? && forall m | 0 <= m < |acts| :: Prompt(acts[m])
    requires Interrupts(acts, i, |acts|) >= Alarms.Due(acts[i].delay) + ROUND * |Users(run[|acts|].sched)|
    ensures i < j < k < |run| && acts[j].Interrupt? && Interrupts(acts, i, j + 1) == Alarms.Due(acts[i].delay)
    ensures var t := run[i].sched.running;
            && (forall m | i < m <= j :: t in run[m].sched.blocked && t != run[m].sched.running)
            && multiset(Woken(run[j].clock))[t] == 1
            && run[k].sched.running == t && Interrupts(acts, j + 1, k) <= ROUND * |Users(run[|acts|].sched)|
  {
    hide Next, Allowed, Alarms.Due, After, Users, Prompt, Woken, Interrupts;
    var t := run[i].sched.running;
    j := SleepsUntil(run, acts, i);
    forall m | i < m <= j
      ensures t != run[m].sched.running
    {
      LifeJoined(run, acts, m);
      BlockedIdle(run[m].sched, t);
    }
    InterruptsSplit(acts, i, j + 1, |acts|);
    UsersGrow(run, acts, j + 1, |acts|);
    Fewer(Users(run[j + 1].sched), Users(run[|acts|].sched));
    k := AwakeRuns(run, acts, j + 1, t, |Users(run[|acts|].sched)|);
  }

  lemma BlockedIdle(s: State, t: Thread)
    requires Inv(s) && t in s.blocked
    ensures t != s.running
  {
    OnePlace(s, s.running);
    OnePlace(s, t);
  }

  lemma Fewer(a: set<Thread>, b: set<Thread>)
    requires a <= b
    ensures |a| <= |b|
  {
    assert b == a + (b - a);
  }

  lemma {:induction false} InterruptsSplit(acts: seq<Act>, i: nat, j: nat, k: nat)
    requires i <= j <= k <= |acts|
    ensures Interrupts(acts, i, k) == Interrupts(acts, i, j) + Interrupts(acts, j, k)
    decreases j - i
  {
    if i < j {
      InterruptsSplit(acts, i + 1, j, k);
    }
  }

  // ---------------------------------------------------------------- a delay for no tick to come

  /** An alarm for a tick that has passed stands first, and the threads with alarms are blocked. */
  ghost predicate Jammed(s: System) {
    Alarms.Stuck(s.clock) && Inv(s.sched) && forall e | e in s.clock.pending :: e.data.thread in s.sched.blocked
  }

  /** Then no alarm goes off and the sleepers stay blocked, to whom those are added that go to sleep later. */
  lemma AfterJammed(s: System, act: Act)
    requires Jammed(s) && Allowed(s, act)
    ensures Jammed(After(s, act)) && Sleepers(s.clock) <= Sleepers(After(s, act).clock)
    ensures act.GoToSleep? ==> s.sched.running in Sleepers(After(s, act).clock)
    ensures After(s, act).clock.fired == s.clock.fired
  {
    hide Next, Enabled, Inv;
    NextInv(s.sched, AsStep(s, act));
    match act
    case GoToSleep(delay) => SleepJammed(s, delay);
    case Interrupt => InterruptJammed(s);
    case Other(step) => OtherJammed(s, step);
  }

  lemma SleepJammed(s: System, delay: int)
    requires Jammed(s) && Allowed(s, GoToSleep(delay))
    ensures var s' := After(s, GoToSleep(delay));
            && Alarms.Stuck(s'.clock) && (forall e | e in s'.clock.pending :: e.data.thread in s'.sched.blocked)
            && Sleepers(s'.clock) == Sleepers(s.clock) + {s.sched.running} && s'.clock.fired == s.clock.fired
  {
    BlockedAfter(s.sched, Stop);
    hide Next, Enabled, Inv;
    Alarms.StuckStep(s.clock, Alarms.Register(delay, s.sched.running));
    var a, s' := Alarms.NewAlarm(s.clock, delay, s.sched.running), After(s, GoToSleep(delay));
    var entry := LinkedQueue.Entry(a, a.end);
    assert s'.clock.pending == LinkedQueue.Inserted(s.clock.pending, entry);
    hide Alarms.Stuck, LinkedQueue.Inserted;
    forall e
      ensures e in s'.clock.pending <==> e == entry || e in s.clock.pending
    {
      Alarms.InsertMembers(s.clock.pending, entry, e);
    }
    assert entry in s'.clock.pending;
  }

  lemma InterruptJammed(s: System)
    requires Jammed(s) && Allowed(s, Interrupt)
    ensures var s' := After(s, Interrupt);
            && Alarms.Stuck(s'.clock) && (forall e | e in s'.clock.pending :: e.data.thread in s'.sched.blocked)
            && s'.clock.pending == s.clock.pending && s'.clock.fired == s.clock.fired
  {
    BlockedAfter(s.sched, Tick(Woken(s.clock)));
    hide Next, Enabled, Inv;
    Alarms.StuckStep(s.clock, Alarms.Tick);
    assert Woken(s.clock) == [];
  }

  lemma OtherJammed(s: System, step: Step)
    requires Jammed(s) && Allowed(s, Other(step))
    ensures forall e | e in s.clock.pending :: e.data.thread in After(s, Other(step)).sched.blocked
  {
    BlockedAfter(s.sched, step);
    hide Next, Enabled, Inv;
    forall e | e in s.clock.pending
      ensures e.data.thread in After(s, Other(step)).sched.blocked
    {
      assert e.data.thread in Sleepers(s.clock);
    }
  }

  /** A delay that is not prompt jams the queue from then on. */
  lemma BadDelayJams(s: System, delay: int)
    requires Joined(s) && Allowed(s, GoToSleep(delay)) && Alarms.Due(delay) < 1
    ensures Jammed(After(s, GoToSleep(delay))) && s.sched.running in Sleepers(After(s, GoToSleep(delay)).clock)
  {
    NextInv(s.sched, Stop);
    SleepAsleep(s, delay);
    Alarms.DueRoundsUp(delay);
    Alarms.JamsIff(s.clock, delay, s.sched.running);
    hide Next, Enabled, Inv, Alarms.Inv, Alarms.Due;
    var a := Alarms.NewAlarm(s.clock, delay, s.sched.running);
    var entry := LinkedQueue.Entry(a, a.end);
    Alarms.InsertMembers(s.clock.pending, entry, entry);
    assert entry in After(s, GoToSleep(delay)).clock.pending;
  }

  lemma {:induction false} JammedOn(run: seq<System>, acts: seq<Act>, i: nat, m: nat)
    requires IsLife(run, acts) && i <= m < |run| && Jammed(run[i])
    ensures Jammed(run[m]) && Sleepers(run[i].clock) <= Sleepers(run[m].clock)
    ensures run[m].clock.fired == run[i].clock.fired
  {
    hide Jammed, After, Allowed, Sleepers;
    if i < m {
      JammedOn(run, acts, i, m - 1);
      AfterJammed(run[m - 1], acts[m - 1]);
    }
  }

  lemma JammedBlocked(s: System, t: Thread)
    requires Jammed(s) && t in Sleepers(s.clock)
    ensures t in s.sched.blocked
  {
  }

  /** After the first sleep for no tick to come, neither that sleeper nor any later one ever wakes again. */
  lemma SleepsForever(run: seq<System>, acts: seq<Act>, i: nat, j: nat, m: nat)
    requires IsLife(run, acts) && i <= j < m < |run| && acts[i].GoToSleep? && acts[j].GoToSleep?
    requires (forall h | 0 <= h < i :: Prompt(acts[h])) && !Prompt(acts[i])
    ensures run[j].sched.running in run[m].sched.blocked && run[m].clock.fired == run[i].clock.fired
  {
    hide Joined, Next, Allowed, Jammed, Alarms.Due, LinkedQueue.Inserted, Sleepers;
    LifeJoined(run, acts, i);
    assert Allowed(run[i], acts[i]) && run[i + 1] == After(run[i], acts[i]);
    BadDelayJams(run[i], acts[i].delay);
    JammedOn(run, acts, i + 1, m);
    if i < j {
      JammedOn(run, acts, i + 1, j);
      assert Allowed(run[j], acts[j]) && run[j + 1] == After(run[j], acts[j]);
      AfterJammed(run[j], acts[j]);
      JammedOn(run, acts, j + 1, m);
    }
    JammedBlocked(run[m], run[j].sched.running);
  }

  // ---------------------------------------------------------------- the code

  /** The threads an interrupt starts are those of the alarms it took off the queue. */
  lemma WokenAre(c: Alarms.Clock, woken: seq<Thread>)
    requires Alarms.WakesFor(Alarms.Ticked(c).fired, |c.fired|, woken)
    ensures woken == Woken(c)
  {
    var k := Alarms.Ready(c.pending, c.now + 1);
    forall i | 0 <= i < |woken|
      ensures woken[i] == Woken(c)[i]
    {
      assert Alarms.Ticked(c).fired[|c.fired| + i] == Alarms.Firings(c.pending[..k], c.now + 1)[i];
    }
  }

  ghost function Whole(alarms: Alarms.AlarmSystem, kernel: Minithread.Kernel): System
    reads alarms, alarms.queue, kernel, kernel.runnable
  {
    System(alarms.Abstract(), kernel.Abstract())
  }

  /** clock_handler: in every state that can come about it finds the threads it is to start blocked. */
  method ClockInterrupt(alarms: Alarms.AlarmSystem, kernel: Minithread.Kernel)
    requires alarms.Valid() && kernel.Valid() && Joined(Whole(alarms, kernel))
    modifies alarms, alarms.queue, kernel, kernel.runnable
    ensures alarms.Valid() && kernel.Valid() && Joined(Whole(alarms, kernel))
    ensures Allowed(old(Whole(alarms, kernel)), Interrupt)
    ensures Whole(alarms, kernel) == After(old(Whole(alarms, kernel)), Interrupt)
  {
    hide Inv, Alarms.Inv, Asleep, Next, Enabled, Alarms.Ticked, Woken;
    ghost var s := Whole(alarms, kernel);
    MayInterrupt(s);
    AfterJoined(s, Interrupt);
    var woken := alarms.ClockTick();
    WokenAre(s.clock, woken);
    kernel.ClockHandler(woken);
  }

  lemma MaySleep(s: System, delay: int)
    requires Formed(s.sched) && s.sched.running != SCHEDULER
    ensures Allowed(s, GoToSleep(delay))
  {
  }

  /** minithread_sleep_with_timeout, called by a user thread; `number` tells its alarm apart from the others. */
  method SleepWithTimeout(alarms: Alarms.AlarmSystem, kernel: Minithread.Kernel, delay: int, number: nat)
    requires alarms.Valid() && kernel.Valid() && kernel.running != SCHEDULER && number == |alarms.made|
    modifies alarms, alarms.queue, alarms.queue.spine, kernel, kernel.runnable
    ensures alarms.Valid() && kernel.Valid() && Allowed(old(Whole(alarms, kernel)), GoToSleep(delay))
    ensures Whole(alarms, kernel) == After(old(Whole(alarms, kernel)), GoToSleep(delay))
  {
    kernel.ValidFormed();
    MaySleep(Whole(alarms, kernel), delay);
    hide Inv, Formed, Next, Enabled, Allowed, Alarms.Registered;
    var a := alarms.RegisterAlarm(delay, number, kernel.running);
    kernel.MinithreadStop();
  }
}
