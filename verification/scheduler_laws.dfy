/** What the feedback scheduler is for: threads sink by the ticks they use, levels are served by turns, and giving up
    the processor gives it to another thread. */
module SchedulerLaws {
  import opened MultilevelQueue
  import opened Scheduler
  import opened BoundedWaiting

  // ---------------------------------------------------------------- threads sink by what they use

  /** The level of a thread that has been charged `c` times. */
  function LevelAfter(c: nat): nat {
    if c == 0 then 0 else if c <= 2 then 1 else if c <= 6 then 2 else 3
  }

  /** How often it has been charged on that level, since it came there or last used up its quantum. */
  function SinceThen(c: nat): nat {
    if c == 0 then 0 else if c <= 2 then c - 1 else if c <= 6 then c - 3 else (c - 7) % 8
  }

  /** A tick charges the thread it interrupts, and a thread that stops is charged for the tick it has begun. */
  predicate IsCharged(s: State, step: Step, t: Thread) {
    s.running == t && (step.Tick? || step.Stop?)
  }

  /** How often thread t is charged in the first `i` steps. */
  function TimesCharged(run: seq<State>, steps: seq<Step>, i: nat, t: Thread): nat
    requires |run| == |steps| + 1 && i <= |steps|
  {
    if i == 0 then 0
    else TimesCharged(run, steps, i - 1, t) + One(IsCharged(run[i - 1], steps[i - 1], t))
  }

  predicate Stands(s: State, t: Thread, c: nat) {
    && t in s.level && s.level[t] == LevelAfter(c)
    && t in s.quanta && s.quanta[t] == SinceThen(c)
  }

  /** A yield and a tick change levels and quanta by the charge alone. */
  lemma ImplementLevels(s: State)
    requires Formed(s)
    ensures var d, r := DemoteIfSpent(Charged(s)), Implement(s);
            r.level == d.level && r.quanta == d.quanta
  {
    hide Search, Enqueued, Dequeued, LevelMax, LevelQuantum;
  }

  /** What a step does to levels and quanta. */
  lemma StepLevels(s: State, step: Step)
    requires Inv(s) && Enabled(s, step)
    ensures var r := Next(s, step); var d := DemoteIfSpent(Charged(s));
            match step
            case Tick(_) => r.level == d.level && r.quanta == d.quanta
            case Stop => r.level == d.level && r.quanta == d.quanta
            case Yield => r.level == DemoteIfSpent(s).level && r.quanta == DemoteIfSpent(s).quanta
            case Start(_) => r.level == s.level && r.quanta == s.quanta
            case Create(t) => r.level == s.level[t := 0] && r.quanta == s.quanta[t := 0]
  {
    hide Search, Enqueued, Dequeued, LevelMax, LevelQuantum, Between, Implement;
    match step
    case Tick(woken) =>
      StartedBefore(s, woken);
      ImplementLevels(AllStarted(s, woken));
    case _ =>
  }

  /** The threads woken have no part in the charge. */
  lemma StartedBefore(s: State, woken: seq<Thread>)
    requires Formed(s) && forall t | t in woken :: t in s.level
    ensures var a, b := DemoteIfSpent(Charged(AllStarted(s, woken))), DemoteIfSpent(Charged(s));
            a.level == b.level && a.quanta == b.quanta
  {
    hide AllStarted, LevelQuantum;
  }

  lemma DemotedOthers(s: State, t: Thread)
    requires Formed(s) && t in s.level && t != s.running
    ensures var d := DemoteIfSpent(s);
            t in d.level && d.level[t] == s.level[t] && t in d.quanta && d.quanta[t] == s.quanta[t]
    ensures var d := DemoteIfSpent(Charged(s));
            t in d.level && d.level[t] == s.level[t] && t in d.quanta && d.quanta[t] == s.quanta[t]
  {
    hide LevelQuantum;
  }

  /** No step changes the level of another thread than the running one. */
  lemma OthersKeepLevel(s: State, step: Step, t: Thread)
    requires Inv(s) && Enabled(s, step) && t in s.level && t != s.running
    ensures var r := Next(s, step);
            t in r.level && r.level[t] == s.level[t] && t in r.quanta && r.quanta[t] == s.quanta[t]
  {
    StepLevels(s, step);
    DemotedOthers(s, t);
    hide Next, DemoteIfSpent, Charged, Between;
  }

  /** Nor does a step that does not charge the running thread change its level. */
  lemma UnchargedKeepsLevel(s: State, step: Step, t: Thread)
    requires Inv(s) && Enabled(s, step) && t in Users(s) && !IsCharged(s, step, t)
    ensures var r := Next(s, step);
            t in r.level && r.level[t] == s.level[t] && t in r.quanta && r.quanta[t] == s.quanta[t]
  {
    if t != s.running {
      OthersKeepLevel(s, step, t);
    } else {
      StepLevels(s, step);
      YieldFree(s);
      hide Next, DemoteIfSpent, Charged, Between;
    }
  }

  /** A charge moves the running thread on by one. */
  lemma ChargeStands(s: State, c: nat)
    requires Formed(s) && s.running in Users(s) && s.level[s.running] == s.cur && Stands(s, s.running, c)
    ensures Stands(DemoteIfSpent(Charged(s)), s.running, c + 1)
  {
  }

  lemma StepStands(s: State, step: Step, t: Thread, c: nat)
    requires Inv(s) && Enabled(s, step) && t in Users(s) && Stands(s, t, c)
    ensures Stands(Next(s, step), t, c + One(IsCharged(s, step, t)))
  {
    if IsCharged(s, step, t) {
      StepLevels(s, step);
      ChargeStands(s, c);
      hide Next, DemoteIfSpent, Charged, Between;
    } else {
      UnchargedKeepsLevel(s, step, t);
      hide Next, Between;
    }
  }

  lemma Appears(s: State, step: Step, t: Thread)
    requires Inv(s) && Enabled(s, step) && t in Users(Next(s, step)) && t !in Users(s)
    ensures Stands(Next(s, step), t, 0) && t != s.running
  {
    StepLevels(s, step);
    OnePlace(s, t);
    hide Next, Between;
  }

  lemma {:induction false} NotChargedYet(run: seq<State>, steps: seq<Step>, i: nat, t: Thread)
    requires IsRun(run, steps) && Initial(run[0]) && i < |run| && t !in Users(run[i]) && t != SCHEDULER
    ensures TimesCharged(run, steps, i, t) == 0
  {
    hide Next, Enabled, Initial, Inv;
    if i > 0 {
      UsersStay(run[i - 1], steps[i - 1]);
      NotChargedYet(run, steps, i - 1, t);
      RunInv(run, steps, i - 1);
      NotRunning(run[i - 1], t);
    }
  }

  lemma NotRunning(s: State, t: Thread)
    requires Inv(s) && t !in Users(s) && t != SCHEDULER
    ensures t != s.running
  {
    OnePlace(s, s.running);
  }

  /** In every run a thread's level says how often it has been charged since it was created: level 0 until the first
      time, 1 until the third, 2 until the seventh, and 3 from then on. */
  lemma {:induction false} Sinks(run: seq<State>, steps: seq<Step>, i: nat, t: Thread)
    requires IsRun(run, steps) && Initial(run[0]) && i < |run| && t in Users(run[i])
    ensures Stands(run[i], t, TimesCharged(run, steps, i, t))
  {
    hide Next, Enabled, Initial, Inv, Stands;
    if i == 0 {
      NobodyYet(run[0]);
    } else {
      var s, step := run[i - 1], steps[i - 1];
      RunInv(run, steps, i - 1);
      if t in Users(s) {
        Sinks(run, steps, i - 1, t);
        StepStands(s, step, t, TimesCharged(run, steps, i - 1, t));
      } else {
        NotChargedYet(run, steps, i - 1, t);
        Appears(s, step, t);
      }
    }
  }

  lemma NobodyYet(s: State)
    requires Initial(s)
    ensures Users(s) == {}
  {
  }

  // ---------------------------------------------------------------- the processor changes hands

  /** Thread t no longer runs, but stands last in the queue of its level. */
  predicate GaveWay(r: State, t: Thread) {
    r.running != t && t in r.level && r.level[t] < |r.queues|
    && var q := r.queues[r.level[t]]; q != [] && q[|q| - 1] == t
  }

  /** Giving up the processor gives it to another thread, or to the scheduler thread if there is none, and puts the
      caller last in the queue of its level. */
  lemma GivesWay(s: State)
    requires Between(s) && s.running != SCHEDULER
    ensures GaveWay(YieldRunning(s), s.running)
  {
    OnePlace(s, s.running);
    var j := Search(s.queues, s.cur, 0);
    if j < LEVELS {
      var found := Ahead(s.cur, j);
      QueuedIsIn(s.queues, found, s.queues[found][0]);
    }
    hide Search, Places, QuantaLeft, InOwnQueues;
  }

  /** The share of each level and the quantum on it. */
  const SHARES: seq<nat> := [80, 40, 24, 16]
  const QUANTA: seq<nat> := [1, 2, 4, 8]

  /** A user thread that yields gives way. */
  lemma YieldGivesWay(s: State)
    requires Inv(s) && s.running != SCHEDULER
    ensures GaveWay(Next(s, Yield), s.running)
  {
    YieldFree(s);
    hide YieldRunning;
    GivesWay(s);
  }

  /** A tick leaves the processor with the thread it interrupts exactly if neither the thread has used up its quantum
      nor its level its share; otherwise the thread gives way. */
  lemma TickGivesWay(s: State, woken: seq<Thread>)
    requires Inv(s) && Enabled(s, Tick(woken)) && s.running != SCHEDULER
    ensures var r := Next(s, Tick(woken));
            var keeps := s.quanta[s.running] + 1 < QUANTA[s.cur] && s.used + 1 < SHARES[s.cur];
            && (r.running == s.running <==> keeps)
            && (keeps ==> r.cur == s.cur && r.used == s.used + 1)
            && (!keeps ==> GaveWay(r, s.running))
  {
    BlockedKnown(s);
    AllStartedInv(s, woken);
    hide Between, AllStarted;
    TickGives(AllStarted(s, woken));
  }

  lemma TickGives(s: State)
    requires Inv(s) && s.running != SCHEDULER
    ensures var r := Implement(s);
            var keeps := s.quanta[s.running] + 1 < QUANTA[s.cur] && s.used + 1 < SHARES[s.cur];
            && (r.running == s.running <==> keeps)
            && (keeps ==> r.cur == s.cur && r.used == s.used + 1)
            && (!keeps ==> GaveWay(r, s.running))
  {
    SpentWhen(s);
    if s.used + 1 == LevelMax(s.cur) {
      ShareUsed(s);
    } else if Spent(Charged(s)) {
      QuantumUsed(s);
    } else {
      hide LevelQuantum, LevelMax, GaveWay;
    }
  }

  lemma ChargedRunning(s: State)
    requires Formed(s)
    ensures DemoteIfSpent(Charged(s)).running == s.running
  {
    hide LevelQuantum;
  }

  lemma ShareUsed(s: State)
    requires Inv(s) && s.running != SCHEDULER && s.used + 1 == LevelMax(s.cur)
    ensures GaveWay(Implement(s), s.running)
  {
    hide QuantaLeft, InOwnQueues, Places, YieldRunning, LevelQuantum, GaveWay;
    ChargeLeaves(s);
    ChargedRunning(s);
    var next := (s.cur + 1) % LEVELS;
    var d := DemoteIfSpent(Charged(s)).(cur := next, used := 0);
    assert Implement(s) == YieldRunning(d);
    ChargeBetween(s);
    BetweenRound(DemoteIfSpent(Charged(s)), next, 0);
    hide Between, DemoteIfSpent, Charged, Implement;
    GivesWay(d);
  }

  lemma QuantumUsed(s: State)
    requires Inv(s) && s.running != SCHEDULER && s.used + 1 != LevelMax(s.cur) && Spent(Charged(s))
    ensures GaveWay(Implement(s), s.running)
  {
    hide QuantaLeft, InOwnQueues, Places, YieldRunning, LevelQuantum, GaveWay;
    ChargeLeaves(s);
    ChargedRunning(s);
    var d := DemoteIfSpent(Charged(s)).(used := s.used + 1);
    assert Implement(s) == YieldRunning(d);
    ChargeBetween(s);
    BetweenRound(DemoteIfSpent(Charged(s)), s.cur, s.used + 1);
    hide Between, DemoteIfSpent, Charged, Implement;
    GivesWay(d);
  }

  lemma SpentWhen(s: State)
    requires Inv(s) && s.running != SCHEDULER
    ensures Spent(Charged(s)) <==> s.quanta[s.running] + 1 >= QUANTA[s.cur]
    ensures s.used + 1 == LevelMax(s.cur) <==> s.used + 1 >= SHARES[s.cur]
    ensures DemoteIfSpent(Charged(s)).running == s.running
  {
    OnePlace(s, s.running);
    assert QuantaLeft(s, s.running);
    hide Places, InOwnQueues;
  }

  // ---------------------------------------------------------------- threads woken

  /** Those of the threads whose level is `l`, in order. */
  function OnLevel(level: map<Thread, nat>, threads: seq<Thread>, l: nat): seq<Thread>
    requires forall t | t in threads :: t in level
  {
    if threads == [] then []
    else (if level[threads[0]] == l then [threads[0]] else []) + OnLevel(level, threads[1..], l)
  }

  lemma {:induction false} OnLevelMore(level: map<Thread, nat>, threads: seq<Thread>, t: Thread, l: nat)
    requires (forall u | u in threads :: u in level) && t in level
    ensures OnLevel(level, threads + [t], l) == OnLevel(level, threads, l) + if level[t] == l then [t] else []
  {
    if threads == [] {
      assert threads + [t] == [t];
    } else {
      OnLevelMore(level, threads[1..], t, l);
      assert (threads + [t])[1..] == threads[1..] + [t];
    }
  }

  /** The threads woken by a tick go to the ends of the queues of their levels, in the order in which their alarms go
      off. */
  lemma {:induction false} WokenInOrder(s: State, woken: seq<Thread>, l: nat)
    requires Formed(s) && (forall t | t in woken :: t in s.level) && l < 4
    ensures AllStarted(s, woken).queues[l] == s.queues[l] + OnLevel(s.level, woken, l)
    decreases |woken|
  {
    if woken != [] {
      var front, t := woken[..|woken| - 1], woken[|woken| - 1];
      WokenInOrder(s, front, l);
      OnLevelMore(s.level, front, t, l);
      assert front + [t] == woken;
      assert AllStarted(s, woken) == Started(AllStarted(s, front), t);
    }
  }

  // ---------------------------------------------------------------- levels take turns

  /** The first thread of the first level that has one, going round from `from`, runs; the scheduler thread if all are
      empty. */
  ghost predicate TakesTurn(queues: seq<seq<Thread>>, from: nat, r: State)
    requires |queues| == 4
  {
    && ((forall l | 0 <= l < 4 :: queues[l] == []) ==> r.running == SCHEDULER)
    && forall l | 0 <= l < 4 && queues[l] != [] && NoneBetween(queues, from, l) ::
         r.running == queues[l][0] && r.cur == l
  }

  /** Going round from level `from`, all levels before `l` are empty. */
  predicate NoneBetween(queues: seq<seq<Thread>>, from: nat, l: nat)
    requires |queues| == 4
  {
    forall i | 0 <= i < 4 :: (i - from) % 4 < (l - from) % 4 ==> queues[i] == []
  }

  lemma DispatchTurn(s: State)
    requires Between(s)
    ensures TakesTurn(s.queues, s.cur, Dispatch(s))
  {
    DispatchOwn(s);
    var d, j := Dispatch(s), Search(s.queues, s.cur, 0);
    if j == LEVELS {
      forall l | 0 <= l < 4
        ensures s.queues[l] == []
      {
        if s.queues[l] != [] {
          SearchFinds(s.queues, s.cur, l);
        }
      }
    } else {
      var found := Ahead(s.cur, j);
      assert s.queues[found][0] in s.queues[found];
      hide Places, QuantaLeft, Search;
      forall l | 0 <= l < 4 && s.queues[l] != [] && NoneBetween(s.queues, s.cur, l)
        ensures l == found
      {
        SearchStops(s.queues, s.cur, l);
      }
    }
  }

  lemma SearchStops(queues: seq<seq<Thread>>, from: nat, l: nat)
    requires Shaped(queues) && from < LEVELS && l < LEVELS && queues[l] != [] && NoneBetween(queues, from, l)
    ensures var j := Search(queues, from, 0); j < LEVELS && Ahead(from, j) == l
  {
    SearchFinds(queues, from, l);
    var j := Search(queues, from, 0);
    var i := Ahead(from, j);
    assert (i - from) % 4 == j;
  }

  /** A thread that stops or yields makes way for its own level first. */
  lemma StopTurn(s: State)
    requires Inv(s) && Enabled(s, Stop)
    ensures TakesTurn(s.queues, s.cur, Next(s, Stop))
  {
    var d := DemoteIfSpent(Charged(s));
    ChargeBetween(s);
    ChargeLeaves(s);
    hide Between, DemoteIfSpent, Charged;
    DispatchTurn(d);
  }

  lemma YieldRunningTurn(s: State)
    requires Between(s)
    ensures TakesTurn(s.queues, s.cur, YieldRunning(s))
  {
    DispatchTurn(s);
    hide Between, Dispatch, Enqueued;
  }

  lemma YieldTurn(s: State)
    requires Inv(s) && s.running != SCHEDULER
    ensures TakesTurn(s.queues, s.cur, Next(s, Yield))
  {
    YieldFree(s);
    hide YieldRunning;
    YieldRunningTurn(s);
  }

  /** A thread interrupted for the last time in its level's share makes way for the levels after its own first, one
      that has used up its quantum for its own; the threads just woken are in the queues already. */
  lemma TickTurn(s: State, woken: seq<Thread>)
    requires Inv(s) && Enabled(s, Tick(woken)) && s.running != SCHEDULER
    requires s.quanta[s.running] + 1 >= QUANTA[s.cur] || s.used + 1 >= SHARES[s.cur]
    ensures TakesTurn(AllStarted(s, woken).queues, if s.used + 1 >= SHARES[s.cur] then (s.cur + 1) % 4 else s.cur,
                      Next(s, Tick(woken)))
  {
    BlockedKnown(s);
    AllStartedInv(s, woken);
    hide Between, AllStarted;
    ImplementTurn(AllStarted(s, woken));
  }

  lemma ImplementTurn(s: State)
    requires Inv(s) && s.running != SCHEDULER
    requires s.quanta[s.running] + 1 >= QUANTA[s.cur] || s.used + 1 >= SHARES[s.cur]
    ensures TakesTurn(s.queues, if s.used + 1 >= SHARES[s.cur] then (s.cur + 1) % 4 else s.cur, Implement(s))
  {
    SpentWhen(s);
    if s.used + 1 == LevelMax(s.cur) {
      ShareTurn(s);
    } else {
      QuantumTurn(s);
    }
  }

  lemma ShareTurn(s: State)
    requires Inv(s) && s.running != SCHEDULER && s.used + 1 == LevelMax(s.cur)
    ensures TakesTurn(s.queues, (s.cur + 1) % 4, Implement(s))
  {
    hide QuantaLeft, InOwnQueues, Places, YieldRunning, LevelQuantum, TakesTurn;
    ChargeLeaves(s);
    var next := (s.cur + 1) % LEVELS;
    var d := DemoteIfSpent(Charged(s)).(cur := next, used := 0);
    assert Implement(s) == YieldRunning(d);
    ChargeBetween(s);
    BetweenRound(DemoteIfSpent(Charged(s)), next, 0);
    hide Between, DemoteIfSpent, Charged, Implement;
    YieldRunningTurn(d);
  }

  lemma QuantumTurn(s: State)
    requires Inv(s) && s.running != SCHEDULER && s.used + 1 != LevelMax(s.cur) && Spent(Charged(s))
    ensures TakesTurn(s.queues, s.cur, Implement(s))
  {
    hide QuantaLeft, InOwnQueues, Places, YieldRunning, LevelQuantum, TakesTurn;
    ChargeLeaves(s);
    var d := DemoteIfSpent(Charged(s)).(used := s.used + 1);
    assert Implement(s) == YieldRunning(d);
    ChargeBetween(s);
    BetweenRound(DemoteIfSpent(Charged(s)), s.cur, s.used + 1);
    hide Between, DemoteIfSpent, Charged, Implement;
    YieldRunningTurn(d);
  }

  /** As long as a level has threads and its share is not used up it goes on being served, and each tick counts. */
  lemma LevelHeld(s: State, step: Step)
    requires Inv(s) && Enabled(s, step) && s.cur < |s.queues| && s.queues[s.cur] != []
    requires step.Tick? ==> s.used + 1 < SHARES[s.cur]
    ensures Next(s, step).cur == s.cur && Next(s, step).used == s.used + One(step.Tick?)
  {
    hide AllStarted, Charged, DemoteIfSpent, Search;
    match step
    case Tick(woken) =>
      BlockedKnown(s);
      WokenInOrder(s, woken, s.cur);
      AllStartedInv(s, woken);
      ImplementHeld(AllStarted(s, woken));
    case Yield =>
      YieldBetween(s);
      DemoteLeaves(s);
      DispatchHeld(DemoteIfSpent(s));
    case Stop =>
      ChargeBetween(s);
      ChargeLeaves(s);
      DispatchHeld(DemoteIfSpent(Charged(s)));
    case _ =>
  }

  lemma DemoteLeaves(s: State)
    requires Formed(s)
    ensures var d := DemoteIfSpent(s); d.queues == s.queues && d.cur == s.cur && d.used == s.used
  {
  }

  lemma DispatchHeld(s: State)
    requires Between(s) && s.queues[s.cur] != []
    ensures Dispatch(s).cur == s.cur && Dispatch(s).used == s.used
  {
    SearchFinds(s.queues, s.cur, s.cur);
    assert s.queues[s.cur][0] in s.queues[s.cur];
    hide Places, QuantaLeft;
  }

  lemma ImplementHeld(s: State)
    requires Inv(s) && s.queues[s.cur] != [] && s.used + 1 < SHARES[s.cur]
    ensures Implement(s).cur == s.cur && Implement(s).used == s.used + 1
  {
    hide QuantaLeft, InOwnQueues, Places, Dispatch;
    ChargeLeaves(s);
    ChargeBetween(s);
    BetweenRound(DemoteIfSpent(Charged(s)), s.cur, s.used + 1);
    DispatchHeld(DemoteIfSpent(Charged(s)).(used := s.used + 1));
    hide Between, DemoteIfSpent, Charged;
  }

  /** From the moment a level comes to be served, while it has threads, it is served for as many ticks as its share:
      80, 40, 24 or 16. */
  lemma {:induction false} LevelShare(run: seq<State>, steps: seq<Step>, i: nat, k: nat, l: nat)
    requires IsRun(run, steps) && Initial(run[0]) && i <= k < |run| && l < 4 && run[i].cur == l && run[i].used == 0
    requires forall j | i <= j < k :: l < |run[j].queues| && run[j].queues[l] != []
    requires Ticks(steps, i, k) < SHARES[l]
    ensures run[k].cur == l && run[k].used == Ticks(steps, i, k)
  {
    hide Next, Enabled, Initial, Inv;
    if i < k {
      TicksMore(steps, i, k - 1);
      LevelShare(run, steps, i, k - 1, l);
      RunInv(run, steps, k - 1);
      LevelHeld(run[k - 1], steps[k - 1]);
    }
  }

  lemma {:induction false} TicksMore(steps: seq<Step>, i: nat, k: nat)
    requires i <= k < |steps|
    ensures Ticks(steps, i, k + 1) == Ticks(steps, i, k) + One(steps[k].Tick?)
    decreases k - i
  {
    if i < k {
      TicksMore(steps, i + 1, k);
    } else {
      assert Ticks(steps, k + 1, k + 1) == 0;
    }
  }
}
