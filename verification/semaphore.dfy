/** Counting semaphores over the scheduler: any number of them, used by any threads in any order. */
module Semaphores {
  import opened MultilevelQueue
  import opened Scheduler
  import opened Minithread

  /** `waiting` is the list of threads that sleep until the semaphore is raised. */
  datatype Sem = Sem(count: int, waiting: seq<Thread>)

  /** What has happened at a semaphore: its first value, how often P and V were called, who went to
      sleep there and who was woken, each in order. */
  datatype History = History(initial: int, ps: nat, vs: nat, slept: seq<Thread>, woken: seq<Thread>)

  datatype World = World(sched: State, sems: seq<Sem>, past: seq<History>)

  // ---------------------------------------------------------------- one call

  predicate Sleeps(sem: Sem) {
    sem.count - 1 < 0
  }

  function Lowered(sem: Sem, t: Thread): Sem {
    Sem(sem.count - 1, if Sleeps(sem) then sem.waiting + [t] else sem.waiting)
  }

  predicate Wakes(sem: Sem) {
    sem.count + 1 <= 0
  }

  /** A raise that must wake a thread finds none: the C code starts a null thread. */
  predicate Crashes(sem: Sem) {
    Wakes(sem) && sem.waiting == []
  }

  function Raised(sem: Sem): Sem
    requires !Crashes(sem)
  {
    Sem(sem.count + 1, if Wakes(sem) then sem.waiting[1..] else sem.waiting)
  }

  // ---------------------------------------------------------------- steps

  datatype Call =
    | P(k: nat)
    | V(k: nat)
    | Other(step: Step)

  function Listed(sem: Sem, t: Thread): nat {
    multiset(sem.waiting)[t]
  }

  /** How often a thread is listed as waiting at the first `k` semaphores. */
  function Waiting(sems: seq<Sem>, k: nat, t: Thread): nat
    requires k <= |sems|
  {
    if k == 0 then 0 else Waiting(sems, k - 1, t) + Listed(sems[k - 1], t)
  }

  predicate Waits(sems: seq<Sem>, t: Thread) {
    Waiting(sems, |sems|, t) > 0
  }

  /** P is called by the running thread.  Alarms, forks and sockets wake only threads that do not wait at
      a semaphore. */
  predicate Possible(w: World, call: Call) {
    && Formed(w.sched) && |w.past| == |w.sems|
    && match call
       case P(k) => k < |w.sems| && Enabled(w.sched, Stop)
       case V(k) =>
         && k < |w.sems|
         && !Crashes(w.sems[k])
         && (Wakes(w.sems[k]) ==> Enabled(w.sched, Start(w.sems[k].waiting[0])))
       case Other(step) =>
         && Enabled(w.sched, step)
         && (step.Tick? ==> forall t | t in step.woken :: !Waits(w.sems, t))
         && (step.Start? ==> !Waits(w.sems, step.t))
  }

  function AfterP(w: World, k: nat): World
    requires Possible(w, P(k))
  {
    var sem, h, t := w.sems[k], w.past[k], w.sched.running;
    World(if Sleeps(sem) then Next(w.sched, Stop) else w.sched,
          w.sems[k := Lowered(sem, t)],
          w.past[k := h.(ps := h.ps + 1, slept := if Sleeps(sem) then h.slept + [t] else h.slept)])
  }

  function AfterV(w: World, k: nat): World
    requires Possible(w, V(k))
  {
    var sem, h := w.sems[k], w.past[k];
    World(if Wakes(sem) then Next(w.sched, Start(sem.waiting[0])) else w.sched,
          w.sems[k := Raised(sem)],
          w.past[k := h.(vs := h.vs + 1, woken := if Wakes(sem) then h.woken + [sem.waiting[0]] else h.woken)])
  }

  function After(w: World, call: Call): World
    requires Possible(w, call)
  {
    match call
    case P(k) => AfterP(w, k)
    case V(k) => AfterV(w, k)
    case Other(step) => w.(sched := Next(w.sched, step))
  }

  // ---------------------------------------------------------------- the invariant

  function Below(n: int): nat {
    if n < 0 then -n else 0
  }

  /** The value counts the calls, the sleepers make up what it is below zero, less what it was below
      zero to begin with, and they are woken in the order in which they went to sleep. */
  predicate Counted(sem: Sem, h: History) {
    && sem.count == h.initial + h.vs - h.ps
    && |sem.waiting| == Below(sem.count) - Below(h.initial)
    && (h.initial < 0 ==> sem.count <= h.initial)
    && h.slept == h.woken + sem.waiting
  }

  ghost predicate Sound(w: World) {
    && Inv(w.sched) && |w.past| == |w.sems|
    && (forall k | 0 <= k < |w.sems| :: Counted(w.sems[k], w.past[k]))
    && (forall t :: Waiting(w.sems, |w.sems|, t) <= if t in w.sched.blocked then 1 else 0)
  }

  lemma {:induction false} WaitingUpdate(sems: seq<Sem>, i: nat, sem: Sem, k: nat, t: Thread)
    requires i < |sems| && k <= |sems|
    ensures Waiting(sems[i := sem], k, t)
            == Waiting(sems, k, t) + if i < k then Listed(sem, t) - Listed(sems[i], t) else 0
  {
    if k > 0 {
      WaitingUpdate(sems, i, sem, k - 1, t);
    }
  }

  lemma CountedP(sem: Sem, h: History, t: Thread)
    requires Counted(sem, h)
    ensures Counted(Lowered(sem, t), h.(ps := h.ps + 1, slept := if Sleeps(sem) then h.slept + [t] else h.slept))
  {
    assert h.woken + (sem.waiting + [t]) == (h.woken + sem.waiting) + [t];
  }

  lemma CountedV(sem: Sem, h: History)
    requires Counted(sem, h) && !Crashes(sem)
    ensures Counted(Raised(sem),
                    h.(vs := h.vs + 1, woken := if Wakes(sem) then h.woken + [sem.waiting[0]] else h.woken))
  {
    if Wakes(sem) {
      var first, rest := sem.waiting[0], sem.waiting[1..];
      assert sem.waiting == [first] + rest;
      assert (h.woken + [first]) + rest == h.woken + sem.waiting;
    }
  }

  /** With a first value of at least 0 a raise always finds the thread it must wake; with a negative one
      it fails exactly when it has been called as often as P. */
  lemma CrashIff(sem: Sem, h: History)
    requires Counted(sem, h)
    ensures Crashes(sem) <==> h.initial < 0 && h.vs == h.ps
  {
  }

  /** The calls of P that have got through: as many as the first value and the raises allow. */
  lemma Completed(sem: Sem, h: History)
    requires Counted(sem, h) && h.initial >= 0
    ensures h.ps - |sem.waiting| == if h.ps <= h.initial + h.vs then h.ps else h.initial + h.vs
  {
  }

  // ---------------------------------------------------------------- every call keeps the invariant

  lemma WaiterBlocked(w: World, t: Thread)
    requires Sound(w)
    ensures Waiting(w.sems, |w.sems|, t) <= 1
    ensures Waits(w.sems, t) ==> t in w.sched.blocked && t in w.sched.level
  {
    if Waits(w.sems, t) {
      BlockedKnown(w.sched);
    }
  }

  lemma OtherKeepsWaiter(w: World, step: Step, t: Thread)
    requires Sound(w) && Possible(w, Other(step)) && Waits(w.sems, t)
    ensures t in Next(w.sched, step).blocked
  {
    hide Inv, Next, Counted;
    BlockedAfter(w.sched, step);
    WaiterBlocked(w, t);
  }

  lemma OtherSound(w: World, step: Step)
    requires Sound(w) && Possible(w, Other(step))
    ensures Sound(After(w, Other(step)))
  {
    hide Inv, Next, Enabled, Counted, Waiting;
    NextInv(w.sched, step);
    forall t
      ensures Waiting(w.sems, |w.sems|, t) <= if t in Next(w.sched, step).blocked then 1 else 0
    {
      WaiterBlocked(w, t);
      if Waits(w.sems, t) {
        OtherKeepsWaiter(w, step, t);
      }
    }
  }

  lemma ListedLowered(sem: Sem, t: Thread, u: Thread)
    ensures Listed(Lowered(sem, t), u) == Listed(sem, u) + if Sleeps(sem) && u == t then 1 else 0
  {
  }

  lemma ListedRaised(sem: Sem, u: Thread)
    requires !Crashes(sem)
    ensures Listed(Raised(sem), u) == Listed(sem, u) - if Wakes(sem) && u == sem.waiting[0] then 1 else 0
  {
    if Wakes(sem) {
      assert sem.waiting == [sem.waiting[0]] + sem.waiting[1..];
    }
  }

  lemma AfterPSound(w: World, k: nat)
    requires Sound(w) && Possible(w, P(k))
    ensures Sound(AfterP(w, k))
  {
    hide Inv, Next, Enabled, Counted, Waiting, Sleeps, Lowered, Listed;
    var sem, t, r := w.sems[k], w.sched.running, AfterP(w, k);
    CountedP(sem, w.past[k], t);
    if Sleeps(sem) {
      NextInv(w.sched, Stop);
      BlockedAfter(w.sched, Stop);
    }
    forall u
      ensures Waiting(r.sems, |r.sems|, u) <= if u in r.sched.blocked then 1 else 0
    {
      WaitingUpdate(w.sems, k, Lowered(sem, t), |w.sems|, u);
      ListedLowered(sem, t, u);
    }
  }

  lemma {:induction false} WaiterIn(sems: seq<Sem>, i: nat, t: Thread, k: nat)
    requires i < k <= |sems| && t in sems[i].waiting
    ensures Waiting(sems, k, t) > 0
  {
    if i == k - 1 {
      assert t in multiset(sems[i].waiting);
    } else {
      WaiterIn(sems, i, t, k - 1);
    }
  }

  lemma AfterVSound(w: World, k: nat)
    requires Sound(w) && Possible(w, V(k))
    ensures Sound(AfterV(w, k))
  {
    hide Inv, Next, Enabled, Counted, Waiting, Wakes, Raised, Listed;
    var sem, r := w.sems[k], AfterV(w, k);
    CountedV(sem, w.past[k]);
    if Wakes(sem) {
      NextInv(w.sched, Start(sem.waiting[0]));
      BlockedAfter(w.sched, Start(sem.waiting[0]));
    }
    forall u
      ensures Waiting(r.sems, |r.sems|, u) <= if u in r.sched.blocked then 1 else 0
    {
      WaitingUpdate(w.sems, k, Raised(sem), |w.sems|, u);
      ListedRaised(sem, u);
    }
  }

  lemma AfterSound(w: World, call: Call)
    requires Sound(w) && Possible(w, call)
    ensures Sound(After(w, call))
  {
    hide Counted, Inv, Next, Enabled;
    match call
    case P(k) => AfterPSound(w, k);
    case V(k) => AfterVSound(w, k);
    case Other(step) =>
      OtherSound(w, step);
  }

  /** Nothing but a crash keeps a semaphore from being raised. */
  lemma RaisePossible(w: World, k: nat)
    requires Sound(w) && k < |w.sems|
    ensures Possible(w, V(k)) <==> !(w.past[k].initial < 0 && w.past[k].vs == w.past[k].ps)
  {
    CrashIff(w.sems[k], w.past[k]);
    if !Crashes(w.sems[k]) && Wakes(w.sems[k]) {
      var t := w.sems[k].waiting[0];
      WaiterIn(w.sems, k, t, |w.sems|);
      WaiterBlocked(w, t);
    }
  }

  // ---------------------------------------------------------------- runs

  ghost predicate Fresh(w: World) {
    && Inv(w.sched) && |w.past| == |w.sems|
    && forall k | 0 <= k < |w.sems| :: w.sems[k].waiting == [] && w.past[k] == History(w.sems[k].count, 0, 0, [], [])
  }

  ghost predicate IsHistory(worlds: seq<World>, calls: seq<Call>) {
    && |worlds| == |calls| + 1 && Fresh(worlds[0])
    && forall i | 0 <= i < |calls| :: Possible(worlds[i], calls[i]) && worlds[i + 1] == After(worlds[i], calls[i])
  }

  lemma {:induction false} NoWaiters(sems: seq<Sem>, k: nat)
    requires k <= |sems| && forall i | 0 <= i < k :: sems[i].waiting == []
    ensures forall t :: Waiting(sems, k, t) == 0
  {
    if k > 0 {
      NoWaiters(sems, k - 1);
    }
  }

  lemma FreshSound(w: World)
    requires Fresh(w)
    ensures Sound(w)
  {
    NoWaiters(w.sems, |w.sems|);
  }

  lemma {:induction false} HistorySound(worlds: seq<World>, calls: seq<Call>, i: nat)
    requires IsHistory(worlds, calls) && i < |worlds|
    ensures Sound(worlds[i])
  {
    hide Sound, After, Possible;
    if i == 0 {
      FreshSound(worlds[0]);
    } else {
      HistorySound(worlds, calls, i - 1);
      AfterSound(worlds[i - 1], calls[i - 1]);
    }
  }

  /** How often `call` is among the first `i` calls. */
  function Times(calls: seq<Call>, i: nat, call: Call): nat
    requires i <= |calls|
  {
    if i == 0 then 0 else Times(calls, i - 1, call) + if calls[i - 1] == call then 1 else 0
  }

  lemma {:induction false} PastIsPast(worlds: seq<World>, calls: seq<Call>, i: nat, k: nat)
    requires IsHistory(worlds, calls) && i < |worlds| && k < |worlds[0].sems|
    ensures |worlds[i].sems| == |worlds[i].past| == |worlds[0].sems|
    ensures var h := worlds[i].past[k];
            h.initial == worlds[0].sems[k].count && h.ps == Times(calls, i, P(k)) && h.vs == Times(calls, i, V(k))
  {
    hide Next, Enabled, Raised, Lowered, Sleeps, Inv;
    if i > 0 {
      PastIsPast(worlds, calls, i - 1, k);
    }
  }

  /** After any calls whatever: the value is the first value with the raises added and the Ps taken off;
      below zero it says how many threads sleep; as many Ps have got through as the first value and the
      raises allow, no more and no fewer; and raising is always possible. */
  lemma SemaphoreLaw(worlds: seq<World>, calls: seq<Call>, i: nat, k: nat)
    requires IsHistory(worlds, calls) && i < |worlds| && k < |worlds[0].sems| && worlds[0].sems[k].count >= 0
    ensures |worlds[i].sems| == |worlds[0].sems| && Possible(worlds[i], V(k))
    ensures var first, sem := worlds[0].sems[k].count, worlds[i].sems[k];
            var ps, vs := Times(calls, i, P(k)), Times(calls, i, V(k));
            && sem.count == first + vs - ps
            && |sem.waiting| == (if sem.count < 0 then -sem.count else 0)
            && ps - |sem.waiting| == (if ps <= first + vs then ps else first + vs)
  {
    HistorySound(worlds, calls, i);
    PastIsPast(worlds, calls, i, k);
    Completed(worlds[i].sems[k], worlds[i].past[k]);
    RaisePossible(worlds[i], k);
  }

  /** With a negative first value the next raise crashes exactly when there have been as many raises as Ps. */
  lemma NegativeStart(worlds: seq<World>, calls: seq<Call>, i: nat, k: nat)
    requires IsHistory(worlds, calls) && i < |worlds| && k < |worlds[0].sems| && worlds[0].sems[k].count < 0
    ensures |worlds[i].sems| == |worlds[0].sems|
    ensures Crashes(worlds[i].sems[k]) <==> Times(calls, i, V(k)) == Times(calls, i, P(k))
  {
    HistorySound(worlds, calls, i);
    PastIsPast(worlds, calls, i, k);
    CrashIff(worlds[i].sems[k], worlds[i].past[k]);
  }

  /** Sleepers are woken in the order in which they went to sleep, each once. */
  lemma FirstComeFirstWoken(worlds: seq<World>, calls: seq<Call>, i: nat, k: nat)
    requires IsHistory(worlds, calls) && i < |worlds| && k < |worlds[i].sems|
    ensures k < |worlds[i].past| && worlds[i].past[k].slept == worlds[i].past[k].woken + worlds[i].sems[k].waiting
  {
    HistorySound(worlds, calls, i);
    assert Counted(worlds[i].sems[k], worlds[i].past[k]);
  }

  lemma {:induction false} MoreWaiting(sems: seq<Sem>, j: nat, k: nat, t: Thread)
    requires j <= k <= |sems|
    ensures Waiting(sems, j, t) <= Waiting(sems, k, t)
  {
    if j < k {
      MoreWaiting(sems, j, k - 1, t);
    }
  }

  /** A thread that waits at a semaphore waits there once, at no other, and can neither run nor be about to. */
  lemma WaiterAsleep(worlds: seq<World>, calls: seq<Call>, i: nat, k: nat, t: Thread)
    requires IsHistory(worlds, calls) && i < |worlds| && k < |worlds[i].sems| && t in worlds[i].sems[k].waiting
    ensures var w := worlds[i];
            && Listed(w.sems[k], t) == 1
            && (forall j | 0 <= j < |w.sems| && j != k :: t !in w.sems[j].waiting)
            && t in w.sched.blocked && t != w.sched.running
            && forall l | 0 <= l < |w.sched.queues| :: t !in w.sched.queues[l]
  {
    var w := worlds[i];
    HistorySound(worlds, calls, i);
    hide IsHistory;
    WaiterIn(w.sems, k, t, |w.sems|);
    WaiterBlocked(w, t);
    WaitsOnce(w, k, t);
    forall j | 0 <= j < |w.sems| && j != k
      ensures t !in w.sems[j].waiting
    {
      if t in w.sems[j].waiting {
        WaitsNowhereElse(w, if j < k then j else k, if j < k then k else j, t);
      }
    }
    Asleep(w.sched, t);
  }

  lemma WaitsOnce(w: World, k: nat, t: Thread)
    requires Sound(w) && k < |w.sems| && t in w.sems[k].waiting
    ensures Listed(w.sems[k], t) == 1
  {
    WaiterBlocked(w, t);
    MoreWaiting(w.sems, k + 1, |w.sems|, t);
    assert t in multiset(w.sems[k].waiting);
  }

  lemma WaitsNowhereElse(w: World, a: nat, b: nat, t: Thread)
    requires Sound(w) && a < b < |w.sems| && t in w.sems[a].waiting
    ensures t !in w.sems[b].waiting
  {
    WaiterBlocked(w, t);
    WaiterIn(w.sems, a, t, b);
    MoreWaiting(w.sems, b + 1, |w.sems|, t);
    assert Listed(w.sems[b], t) == 0;
  }

  lemma Asleep(s: State, t: Thread)
    requires Inv(s) && t in s.blocked
    ensures t != s.running && forall l | 0 <= l < |s.queues| :: t !in s.queues[l]
  {
    OnePlace(s, t);
    forall l | 0 <= l < |s.queues|
      ensures t !in s.queues[l]
    {
      if t in s.queues[l] {
        QueuedIsIn(s.queues, l, t);
      }
    }
  }

  // ---------------------------------------------------------------- the code

  class Semaphore {
    var count: int
    var waitList: seq<Thread>

    function Value(): Sem
      reads this
    {
      Sem(count, waitList)
    }

    constructor (cnt: int)
      ensures Value() == Sem(cnt, [])
    {
      count, waitList := cnt, [];
    }

    method Lower(kernel: Kernel)
      requires kernel.Valid() && kernel.running != SCHEDULER
      modifies this, kernel, kernel.runnable
      ensures kernel.Valid() && Value() == Lowered(old(Value()), old(kernel.running))
      ensures kernel.Abstract() == if Sleeps(old(Value())) then Next(old(kernel.Abstract()), Stop)
                                   else old(kernel.Abstract())
    {
      hide Inv, Next;
      count := count - 1;
      if count < 0 {
        waitList := waitList + [kernel.running];
        kernel.MinithreadStop();
      }
    }

    method Raise(kernel: Kernel)
      requires kernel.Valid() && !Crashes(Value())
      requires Wakes(Value()) ==> waitList[0] in kernel.blocked && waitList[0] in kernel.level
      modifies this, kernel, kernel.runnable
      ensures kernel.Valid() && Value() == Raised(old(Value()))
      ensures kernel.Abstract() == if Wakes(old(Value())) then Started(old(kernel.Abstract()), old(waitList)[0])
                                   else old(kernel.Abstract())
    {
      hide Inv, Started;
      count := count + 1;
      if count <= 0 {
        var thread := waitList[0];
        waitList := waitList[1..];
        kernel.MinithreadStart(thread);
      }
    }
  }
}
