/** The four-level feedback scheduler as a step system: each region with interrupts disabled is one step. */
module Scheduler {
  import opened MultilevelQueue

  /** The thread that runs when no other can.  It is never queued. */
  const SCHEDULER: Thread := 0

  /** Ticks a level is served at a stretch. */
  function LevelMax(level: nat): (m: nat)
    requires level < LEVELS
    ensures m > 0
  {
    if level == 0 then 80 else if level == 1 then 40 else if level == 2 then 24 else 16
  }

  /** Ticks a thread may use on a level before it moves down. */
  function LevelQuantum(level: nat): nat
    requires level < LEVELS
  {
    if level == 0 then 1 else if level == 1 then 2 else if level == 2 then 4 else 8
  }

  /** `cur` and `used` are curr_level and curr_level_quanta; `blocked` are the threads that neither run
      nor wait to run. */
  datatype State = State(queues: seq<seq<Thread>>, level: map<Thread, nat>, quanta: map<Thread, int>,
                         running: Thread, cur: nat, used: nat, blocked: set<Thread>)

  predicate Formed(s: State) {
    && Shaped(s.queues) && s.cur < LEVELS
    && SCHEDULER in s.level && s.running in s.level && s.level.Keys == s.quanta.Keys
    && (forall t | t in s.level :: s.level[t] < LEVELS)
    && (forall l, t | 0 <= l < |s.queues| && t in s.queues[l] :: t in s.level)
  }

  // ---------------------------------------------------------------- dispatching

  /** Run the first thread found going round from the current level; the scheduler thread if none. */
  function Dispatch(s: State): (r: State)
    requires Formed(s)
    ensures Formed(r)
  {
    var j := Search(s.queues, s.cur, 0);
    if j == LEVELS then s.(running := SCHEDULER)
    else
      var found := Ahead(s.cur, j);
      var t := s.queues[found][0];
      s.(queues := Dequeued(s.queues, found), running := t, cur := s.level[t],
         used := if s.cur != s.level[t] then 0 else s.used)
  }

  /** The running thread goes to the end of its queue, after the next one has been taken out. */
  function YieldRunning(s: State): (r: State)
    requires Formed(s)
    ensures Formed(r)
  {
    var d := Dispatch(s);
    if s.running == SCHEDULER then d
    else d.(queues := Enqueued(d.queues, s.level[s.running], s.running))
  }

  function StopRunning(s: State): (r: State)
    requires Formed(s)
    ensures Formed(r)
  {
    Dispatch(s).(blocked := s.blocked + {s.running})
  }

  function Charged(s: State): (r: State)
    requires Formed(s)
    ensures Formed(r)
  {
    s.(quanta := s.quanta[s.running := s.quanta[s.running] + 1])
  }

  /** A thread that has used up its quantum on the current level starts anew one level down. */
  function Demoted(s: State): (r: State)
    requires Formed(s)
    ensures Formed(r)
  {
    s.(quanta := s.quanta[s.running := 0],
       level := s.level[s.running := if s.cur + 1 == LEVELS then s.cur else s.cur + 1])
  }

  predicate Spent(s: State)
    requires Formed(s)
  {
    s.quanta[s.running] == LevelQuantum(s.cur)
  }

  function DemoteIfSpent(s: State): (r: State)
    requires Formed(s)
    ensures Formed(r)
  {
    if Spent(s) then Demoted(s) else s
  }

  // ---------------------------------------------------------------- steps

  datatype Step =
    | Tick(woken: seq<Thread>)
    | Yield
    | Stop
    | Start(t: Thread)
    | Create(t: Thread)

  function Started(s: State, t: Thread): (r: State)
    requires Formed(s) && t in s.level
    ensures Formed(r)
  {
    s.(queues := Enqueued(s.queues, s.level[t], t), blocked := s.blocked - {t})
  }

  /** A new thread starts on the top level; until it is started it counts as blocked. */
  function Created(s: State, t: Thread): (r: State)
    requires Formed(s)
    ensures Formed(r)
  {
    s.(level := s.level[t := 0], quanta := s.quanta[t := 0], blocked := s.blocked + {t})
  }

  /** The threads whose alarms go off, in the order in which they do. */
  function AllStarted(s: State, woken: seq<Thread>): (r: State)
    requires Formed(s) && forall t | t in woken :: t in s.level
    ensures Formed(r) && r.level == s.level && r.quanta == s.quanta && r.running == s.running
    ensures r.cur == s.cur && r.used == s.used
    decreases |woken|
  {
    if woken == [] then s else Started(AllStarted(s, woken[..|woken| - 1]), woken[|woken| - 1])
  }

  /** What a clock tick does after the alarms. */
  function Implement(s: State): (r: State)
    requires Formed(s)
    ensures Formed(r)
  {
    var d := DemoteIfSpent(Charged(s));
    if s.used + 1 == LevelMax(s.cur) then YieldRunning(d.(cur := (s.cur + 1) % LEVELS, used := 0))
    else if Spent(Charged(s)) then YieldRunning(d.(used := s.used + 1))
    else d.(used := s.used + 1)
  }

  /** Only blocked threads are started, only user threads stop, and new threads are new. */
  predicate Enabled(s: State, step: Step) {
    Formed(s) &&
    match step
    case Tick(woken) =>
      && (forall t | t in woken :: t in s.blocked && t in s.level)
      && forall i, j | 0 <= i < j < |woken| :: woken[i] != woken[j]
    case Yield => true
    case Stop => s.running != SCHEDULER
    case Start(t) => t in s.blocked && t in s.level
    case Create(t) => t !in s.level
  }

  function Next(s: State, step: Step): (r: State)
    requires Enabled(s, step)
    ensures Formed(r)
  {
    match step
    case Tick(woken) => Implement(AllStarted(s, woken))
    case Yield => YieldRunning(DemoteIfSpent(s))
    case Stop => StopRunning(DemoteIfSpent(Charged(s)))
    case Start(t) => Started(s, t)
    case Create(t) => Created(s, t)
  }

  // ---------------------------------------------------------------- the invariant

  function Users(s: State): set<Thread> {
    s.level.Keys - {SCHEDULER}
  }

  /** Every place a thread can be in. */
  function Places(s: State): multiset<Thread>
    requires Shaped(s.queues)
  {
    AllQueued(s.queues) + (if s.running == SCHEDULER then multiset{} else multiset{s.running}) + multiset(s.blocked)
  }

  /** A thread has used up less than its level allows. */
  predicate QuantaLeft(s: State, t: Thread) {
    t in s.level && t in s.quanta && s.level[t] < LEVELS && 0 <= s.quanta[t] < LevelQuantum(s.level[t])
  }

  predicate InOwnQueues(s: State) {
    forall l, t | 0 <= l < |s.queues| && t in s.queues[l] :: t in s.level && s.level[t] == l
  }

  /** The invariant but for the level of the running thread, which may just have been moved down. */
  ghost predicate Between(s: State) {
    && Formed(s) && s.used < LevelMax(s.cur)
    && Places(s) == multiset(Users(s))
    && (forall t | t in Users(s) :: QuantaLeft(s, t))
    && InOwnQueues(s)
  }

  /** In every reachable state each user thread is in exactly one place, a queued one in the queue of
      its own level, and the tests for equality with a maximum cannot be jumped over. */
  ghost predicate Inv(s: State) {
    Between(s) && (s.running != SCHEDULER ==> s.level[s.running] == s.cur)
  }

  lemma BlockedKnown(s: State)
    requires Between(s)
    ensures forall t | t in s.blocked :: t in Users(s)
  {
    forall t | t in s.blocked
      ensures t in Users(s)
    {
      assert t in multiset(s.blocked);
      assert t in Places(s);
    }
  }

  /** A thread is in one place only. */
  lemma OnePlace(s: State, t: Thread)
    requires Between(s)
    ensures t in Users(s) ==> Places(s)[t] == 1
    ensures s.running != SCHEDULER ==>
              s.running in Users(s) && s.running !in AllQueued(s.queues) && s.running !in s.blocked
    ensures t in AllQueued(s.queues) ==> t in Users(s) && t != s.running && t !in s.blocked
    ensures t in s.blocked ==> t in Users(s)
  {
    assert t in s.blocked ==> multiset(s.blocked)[t] == 1;
    assert s.running in s.blocked ==> multiset(s.blocked)[s.running] == 1;
    if t in Places(s) {
      assert t in multiset(Users(s));
    }
    if s.running != SCHEDULER {
      assert s.running in Places(s);
      assert Places(s)[s.running] == 1;
    }
  }

  lemma DispatchPlaces(s: State)
    requires Between(s)
    ensures var d := Dispatch(s);
            AllQueued(s.queues)
            == AllQueued(d.queues) + if d.running == SCHEDULER then multiset{} else multiset{d.running}
  {
    var j := Search(s.queues, s.cur, 0);
    if j < LEVELS {
      var found := Ahead(s.cur, j);
      QueuedIsIn(s.queues, found, s.queues[found][0]);
      OnePlace(s, s.queues[found][0]);
      DequeueTakes(s.queues, found);
    }
  }

  /** Going round, a thread is found on its own level, which becomes the current one. */
  lemma DispatchOwn(s: State)
    requires Between(s)
    ensures var d := Dispatch(s);
            && InOwnQueues(d) && d.used < LevelMax(d.cur) && (d.running != SCHEDULER ==> d.level[d.running] == d.cur)
  {
    var d := Dispatch(s);
    forall l, t | 0 <= l < |d.queues| && t in d.queues[l]
      ensures t in d.level && d.level[t] == l
    {
      assert t in s.queues[l];
    }
  }

  lemma SameQuanta(s: State, r: State)
    requires r.level == s.level && r.quanta == s.quanta
    requires forall t | t in Users(s) :: QuantaLeft(s, t)
    ensures Users(r) == Users(s) && forall t | t in Users(r) :: QuantaLeft(r, t)
  {
    forall t | t in Users(r)
      ensures QuantaLeft(r, t)
    {
      assert QuantaLeft(s, t);
    }
  }

  lemma EnqueuedOwn(s: State, t: Thread)
    requires Formed(s) && InOwnQueues(s) && t in s.level
    ensures InOwnQueues(s.(queues := Enqueued(s.queues, s.level[t], t)))
  {
  }

  lemma YieldOwn(s: State)
    requires Between(s)
    ensures var r := YieldRunning(s);
            && InOwnQueues(r) && r.level == s.level && r.quanta == s.quanta
            && r.used < LevelMax(r.cur) && (r.running != SCHEDULER ==> r.level[r.running] == r.cur)
  {
    DispatchOwn(s);
    hide QuantaLeft, Places, LevelMax, Dispatch;
    EnqueuedOwn(Dispatch(s), s.running);
  }

  lemma YieldQueued(s: State)
    requires Formed(s)
    ensures var d, r := Dispatch(s), YieldRunning(s);
            && AllQueued(r.queues)
               == AllQueued(d.queues) + (if s.running == SCHEDULER then multiset{} else multiset{s.running})
            && r.running == d.running && r.blocked == s.blocked
  {
    hide AllQueued, Enqueued;
    if s.running != SCHEDULER {
      EnqueueAdds(Dispatch(s).queues, s.level[s.running], s.running);
    }
  }

  lemma YieldPlaces(s: State)
    requires Between(s)
    ensures Places(YieldRunning(s)) == Places(s)
  {
    DispatchPlaces(s);
    YieldQueued(s);
    hide Between, AllQueued, YieldRunning, Dispatch;
  }

  lemma YieldInv(s: State)
    requires Between(s)
    ensures Inv(YieldRunning(s))
  {
    hide YieldRunning, QuantaLeft, InOwnQueues, Places, LevelMax;
    YieldOwn(s);
    YieldPlaces(s);
    SameQuanta(s, YieldRunning(s));
  }

  lemma StopPlaces(s: State)
    requires Between(s) && s.running != SCHEDULER
    ensures Places(StopRunning(s)) == Places(s)
  {
    hide QuantaLeft, InOwnQueues, LevelMax;
    var d, r := Dispatch(s), StopRunning(s);
    DispatchPlaces(s);
    OnePlace(s, s.running);
    assert multiset(r.blocked) == multiset(s.blocked) + multiset{s.running};
    hide AllQueued, Dispatch;
  }

  lemma StopOwn(s: State)
    requires Between(s)
    ensures var r := StopRunning(s);
            && InOwnQueues(r) && r.level == s.level && r.quanta == s.quanta
            && r.used < LevelMax(r.cur) && (r.running != SCHEDULER ==> r.level[r.running] == r.cur)
  {
    DispatchOwn(s);
    hide QuantaLeft, Places, LevelMax, Search;
  }

  lemma StopInv(s: State)
    requires Between(s) && s.running != SCHEDULER
    ensures Inv(StopRunning(s))
  {
    hide StopRunning, QuantaLeft, InOwnQueues, Places, LevelMax;
    StopOwn(s);
    StopPlaces(s);
    SameQuanta(s, StopRunning(s));
  }

  lemma StartedInv(s: State, t: Thread)
    requires Inv(s) && t in s.blocked
    ensures t in s.level && Inv(Started(s, t))
  {
    OnePlace(s, t);
    var r := Started(s, t);
    EnqueueAdds(s.queues, s.level[t], t);
    assert multiset(s.blocked) == multiset(r.blocked) + multiset{t};
    SameQuanta(s, r);
  }

  lemma ChargeQuanta(s: State, t: Thread)
    requires Inv(s) && t in Users(s)
    ensures QuantaLeft(DemoteIfSpent(Charged(s)), t) && (!Spent(Charged(s)) ==> QuantaLeft(Charged(s), t))
  {
    hide Places, InOwnQueues;
    assert QuantaLeft(s, t);
  }

  /** Queued threads do not run, so moving the running one down leaves the queues in order. */
  lemma ChargeOwn(s: State)
    requires Inv(s)
    ensures InOwnQueues(DemoteIfSpent(Charged(s)))
  {
    hide QuantaLeft, Places, LevelMax, LevelQuantum;
    var r := DemoteIfSpent(Charged(s));
    forall l, t | 0 <= l < |r.queues| && t in r.queues[l]
      ensures r.level[t] == l
    {
      QueuedIsIn(s.queues, l, t);
      OnePlace(s, t);
    }
  }

  lemma ChargeKeeps(s: State, r: State)
    requires Inv(s) && (r == DemoteIfSpent(Charged(s)) || (r == Charged(s) && !Spent(r)))
    ensures Users(r) == Users(s) && Places(r) == Places(s) && forall t | t in Users(r) :: QuantaLeft(r, t)
  {
    assert Users(r) == Users(s) == Users(Charged(s));
    forall t | t in Users(r)
      ensures QuantaLeft(r, t)
    {
      ChargeQuanta(s, t);
    }
  }

  /** One tick's worth of quantum, and the move down if that was the last. */
  lemma ChargeBetween(s: State)
    requires Inv(s)
    ensures Between(DemoteIfSpent(Charged(s)))
  {
    hide QuantaLeft, InOwnQueues, Places;
    ChargeOwn(s);
    ChargeKeeps(s, DemoteIfSpent(Charged(s)));
  }

  /** A yield does not charge the thread, so it is never moved down for yielding. */
  lemma YieldFree(s: State)
    requires Inv(s) && s.running != SCHEDULER
    ensures DemoteIfSpent(s) == s
  {
    OnePlace(s, s.running);
    assert QuantaLeft(s, s.running);
  }

  /** The scheduler thread's own level and quanta do not matter. */
  lemma YieldBetween(s: State)
    requires Inv(s)
    ensures Between(DemoteIfSpent(s))
  {
    if s.running != SCHEDULER {
      YieldFree(s);
    } else {
      var r := DemoteIfSpent(s);
      assert Users(r) == Users(s);
      forall t | t in Users(s)
        ensures QuantaLeft(r, t)
      {
        assert QuantaLeft(s, t);
      }
      forall l, t | 0 <= l < |r.queues| && t in r.queues[l]
        ensures r.level[t] == l
      {
        QueuedIsIn(s.queues, l, t);
        OnePlace(s, t);
      }
    }
  }

  lemma BetweenRound(s: State, cur: nat, used: nat)
    requires Between(s) && cur < LEVELS && used < LevelMax(cur)
    ensures Between(s.(cur := cur, used := used))
  {
    var r := s.(cur := cur, used := used);
    SameQuanta(s, r);
  }

  lemma ImplementInv(s: State)
    requires Inv(s)
    ensures Inv(Implement(s))
  {
    hide QuantaLeft, InOwnQueues, Places, YieldRunning;
    var d := DemoteIfSpent(Charged(s));
    ChargeBetween(s);
    if s.used + 1 == LevelMax(s.cur) {
      var next := (s.cur + 1) % LEVELS;
      BetweenRound(d, next, 0);
      YieldInv(d.(cur := next, used := 0));
    } else {
      BetweenRound(d, s.cur, s.used + 1);
      if Spent(Charged(s)) {
        YieldInv(d.(used := s.used + 1));
      }
    }
  }

  lemma StartedUnblocks(s: State, t: Thread)
    requires Formed(s) && t in s.level
    ensures Started(s, t).blocked == s.blocked - {t}
  {
  }

  lemma {:induction false} AllStartedInv(s: State, woken: seq<Thread>)
    requires Inv(s) && Enabled(s, Tick(woken))
    ensures Inv(AllStarted(s, woken))
    ensures forall t :: t in AllStarted(s, woken).blocked <==> t in s.blocked && t !in woken
    decreases |woken|
  {
    hide Inv, Started;
    if woken != [] {
      var front, last := woken[..|woken| - 1], woken[|woken| - 1];
      AllStartedInv(s, front);
      StartedInv(AllStarted(s, front), last);
      StartedUnblocks(AllStarted(s, front), last);
      assert woken == front + [last];
    }
  }

  lemma CreatePlaces(s: State, t: Thread)
    requires Between(s) && t !in s.level
    ensures Places(Created(s, t)) == Places(s) + multiset{t}
    ensures multiset(Users(Created(s, t))) == multiset(Users(s)) + multiset{t}
    ensures t !in Places(s)
  {
    hide QuantaLeft, InOwnQueues, AllQueued;
    var r := Created(s, t);
    OnePlace(s, t);
    assert Users(r) == Users(s) + {t};
    assert t !in multiset(Users(s));
    assert t !in s.blocked by {
      assert t in s.blocked ==> t in multiset(s.blocked);
    }
    assert multiset(r.blocked) == multiset(s.blocked) + multiset{t};
  }

  lemma CreateInv(s: State, t: Thread)
    requires Inv(s) && t !in s.level
    ensures Inv(Created(s, t))
  {
    var r := Created(s, t);
    CreatePlaces(s, t);
    hide Places, AllQueued;
    assert s.running in Users(s) || s.running == SCHEDULER;
    forall u | u in Users(r)
      ensures QuantaLeft(r, u)
    {
      assert u != t ==> QuantaLeft(s, u);
    }
  }

  lemma NextInv(s: State, step: Step)
    requires Inv(s) && Enabled(s, step)
    ensures Inv(Next(s, step))
  {
    BlockedKnown(s);
    match step
    case Tick(woken) =>
      AllStartedInv(s, woken);
      ImplementInv(AllStarted(s, woken));
    case Yield =>
      YieldBetween(s);
      YieldInv(DemoteIfSpent(s));
    case Stop =>
      ChargeBetween(s);
      StopInv(DemoteIfSpent(Charged(s)));
    case Start(t) => StartedInv(s, t);
    case Create(t) => CreateInv(s, t);
  }

  // ---------------------------------------------------------------- who is blocked

  lemma ImplementBlocks(s: State)
    requires Formed(s)
    ensures Implement(s).blocked == s.blocked
  {
  }

  /** What a step does to the threads that neither run nor wait to run. */
  lemma BlockedAfter(s: State, step: Step)
    requires Inv(s) && Enabled(s, step)
    ensures var r := Next(s, step);
            match step
            case Tick(woken) => forall t :: t in r.blocked <==> t in s.blocked && t !in woken
            case Yield => r.blocked == s.blocked
            case Stop => r.blocked == s.blocked + {s.running} && s.running !in s.blocked
            case Start(t) => r.blocked == s.blocked - {t}
            case Create(t) => s.blocked <= r.blocked
  {
    hide Implement, AllStarted;
    if step.Stop? {
      OnePlace(s, s.running);
    } else if step.Tick? {
      AllStartedInv(s, step.woken);
      ImplementBlocks(AllStarted(s, step.woken));
    }
    hide Inv, Search, Enqueued, Dequeued;
  }

  lemma UsersStay(s: State, step: Step)
    requires Enabled(s, step)
    ensures Users(s) <= Users(Next(s, step))
  {
    hide Search, Dequeued, Enqueued, Spent, AllStarted;
  }

  // ---------------------------------------------------------------- runs

  /** The state in which the clock is started: one scheduler thread, whose quanta were never set. */
  ghost predicate Initial(s: State) {
    && s.queues == [[], [], [], []] && s.level == map[SCHEDULER := 0] && s.quanta.Keys == {SCHEDULER}
    && s.running == SCHEDULER && s.cur == 0 && s.used == 0 && s.blocked == {}
  }

  ghost predicate IsRun(run: seq<State>, steps: seq<Step>) {
    && |run| == |steps| + 1
    && forall i | 0 <= i < |steps| :: Enabled(run[i], steps[i]) && run[i + 1] == Next(run[i], steps[i])
  }

  lemma InitialInv(s: State)
    requires Initial(s)
    ensures Inv(s)
  {
    assert Users(s) == {};
  }

  lemma {:induction false} RunInv(run: seq<State>, steps: seq<Step>, i: nat)
    requires IsRun(run, steps) && Initial(run[0]) && i < |run|
    ensures Inv(run[i])
  {
    hide Inv, Next, Enabled;
    if i == 0 {
      InitialInv(run[0]);
    } else {
      RunInv(run, steps, i - 1);
      NextInv(run[i - 1], steps[i - 1]);
    }
  }

  function One(b: bool): nat {
    if b then 1 else 0
  }

  /** In every reachable state a user thread runs, is queued once, or is blocked, and only one of these;
      queued, it is in the queue of its own level; running, its level is the current one; and no counter
      has reached the value at which it is reset. */
  lemma EachInOnePlace(run: seq<State>, steps: seq<Step>, i: nat, t: Thread)
    requires IsRun(run, steps) && Initial(run[0]) && i < |run| && t in Users(run[i])
    ensures var s := run[i];
            && Formed(s)
            && One(t == s.running) + AllQueued(s.queues)[t] + One(t in s.blocked) == 1
            && (forall l | 0 <= l < LEVELS && t in s.queues[l] :: s.level[t] == l)
            && (t == s.running ==> s.level[t] == s.cur)
            && 0 <= s.quanta[t] < LevelQuantum(s.level[t]) && s.used < LevelMax(s.cur)
  {
    RunInv(run, steps, i);
    hide IsRun, Initial, LevelMax, LevelQuantum, AllQueued;
    var s := run[i];
    OnePlace(s, t);
    assert QuantaLeft(s, t);
    assert multiset(s.blocked)[t] == One(t in s.blocked);
  }
}
