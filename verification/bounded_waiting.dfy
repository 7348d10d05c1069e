/** No thread waits long: a queued thread runs after a number of ticks fixed by its position. */
module BoundedWaiting {
  import opened MultilevelQueue
  import opened Scheduler

  /** Ticks in one round through all the levels: 80 + 40 + 24 + 16. */
  const ROUND: nat := 160

  /** How many levels on from `cur` the level `l` comes up next; a full round if it is `cur` itself. */
  function StepsTo(cur: nat, l: nat): (d: nat)
    requires cur < LEVELS && l < LEVELS
    ensures 1 <= d <= LEVELS && Ahead(cur, d) == l
  {
    if l > cur then l - cur else l + LEVELS - cur
  }

  /** The most ticks that the levels after `cur` and before `l` can take. */
  function Detour(cur: nat, l: nat): nat
    requires cur < LEVELS && l < LEVELS
  {
    var d := StepsTo(cur, l);
    (if d > 1 then LevelMax(Ahead(cur, 1)) else 0)
    + (if d > 2 then LevelMax(Ahead(cur, 2)) else 0)
    + (if d > 3 then LevelMax(Ahead(cur, 3)) else 0)
  }

  lemma RoundIsWhole(cur: nat, l: nat)
    requires cur < LEVELS && l < LEVELS
    ensures LevelMax(cur) + Detour(cur, l) <= ROUND
  {
  }

  lemma DetourShrinks(cur: nat, l: nat, j: nat)
    requires cur < LEVELS && l < LEVELS && 1 <= j < StepsTo(cur, l)
    ensures LevelMax(Ahead(cur, j)) + Detour(Ahead(cur, j), l) <= Detour(cur, l)
  {
  }

  lemma DetourNext(cur: nat, l: nat)
    requires cur < LEVELS && l < LEVELS
    ensures Ahead(cur, 1) != l ==> LevelMax(Ahead(cur, 1)) + Detour(Ahead(cur, 1), l) == Detour(cur, l)
  {
  }

  /** The most ticks that can pass before the thread at position `p` of queue `l` runs. */
  function Wait(s: State, l: nat, p: nat): int
    requires s.cur < LEVELS && l < LEVELS
  {
    LevelMax(s.cur) - s.used + Detour(s.cur, l) + ROUND * p
  }

  predicate QueuedAt(s: State, l: nat, p: nat, t: Thread) {
    l < LEVELS && l < |s.queues| && p < |s.queues[l]| && s.queues[l][p] == t
  }

  /** A dispatch runs the thread or brings it no further from running; if its level is the current one it is brought a
      full round nearer. */
  lemma DispatchWait(s: State, l: nat, p: nat, t: Thread) returns (p': nat)
    requires Between(s) && QueuedAt(s, l, p, t)
    ensures var d := Dispatch(s);
            || d.running == t
            || (QueuedAt(d, l, p', t) && Wait(d, l, p') <= Wait(s, l, p)
                && (s.cur == l ==> Wait(d, l, p') <= ROUND * p))
  {
    var j := Search(s.queues, s.cur, 0);
    SearchFinds(s.queues, s.cur, l);
    var found := Ahead(s.cur, j);
    var d := Dispatch(s);
    DispatchOwn(s);
    hide Search, Places, QuantaLeft;
    assert d.cur == found by {
      assert s.queues[found][0] in s.queues[found];
    }
    if found == l {
      p' := if p == 0 then 0 else p - 1;
      if p > 0 {
        RoundIsWhole(l, l);
      }
    } else {
      p' := p;
      if j > 0 {
        DetourShrinks(s.cur, l, j);
      }
    }
  }

  /** The same thread is still queued in `s'`, where it waits `ticks` less, or it runs. */
  ghost predicate Nearer(s: State, s': State, l: nat, p: nat, p': nat, t: Thread, ticks: nat)
    requires s.cur < LEVELS && l < LEVELS
  {
    s'.running == t || (QueuedAt(s', l, p', t) && s'.cur < LEVELS && Wait(s', l, p') <= Wait(s, l, p) - ticks)
  }

  lemma YieldWait(s: State, l: nat, p: nat, t: Thread) returns (p': nat)
    requires Between(s) && QueuedAt(s, l, p, t)
    ensures var r := YieldRunning(s);
            || r.running == t
            || (QueuedAt(r, l, p', t) && Wait(r, l, p') <= Wait(s, l, p)
                && (s.cur == l ==> Wait(r, l, p') <= ROUND * p))
  {
    hide Dispatch, Between, Detour, LevelMax;
    p' := DispatchWait(s, l, p, t);
  }

  lemma StopWait(s: State, l: nat, p: nat, t: Thread) returns (p': nat)
    requires Between(s) && QueuedAt(s, l, p, t)
    ensures Nearer(s, StopRunning(s), l, p, p', t, 0)
  {
    p' := DispatchWait(s, l, p, t);
    hide Dispatch, Between, Detour, LevelMax;
  }

  lemma StartedWait(s: State, u: Thread, l: nat, p: nat, t: Thread)
    requires Formed(s) && u in s.level && QueuedAt(s, l, p, t)
    ensures QueuedAt(Started(s, u), l, p, t) && Wait(Started(s, u), l, p) == Wait(s, l, p)
  {
  }

  lemma {:induction false} AllStartedWait(s: State, woken: seq<Thread>, l: nat, p: nat, t: Thread)
    requires Formed(s) && (forall u | u in woken :: u in s.level) && QueuedAt(s, l, p, t)
    ensures QueuedAt(AllStarted(s, woken), l, p, t) && Wait(AllStarted(s, woken), l, p) == Wait(s, l, p)
    decreases |woken|
  {
    hide Started;
    if woken != [] {
      AllStartedWait(s, woken[..|woken| - 1], l, p, t);
      StartedWait(AllStarted(s, woken[..|woken| - 1]), woken[|woken| - 1], l, p, t);
    }
  }

  /** When a level has been served to its maximum, one tick is gone, or it is the thread's turn. */
  lemma MoveOnWait(s: State, mid: State, l: nat, p: nat)
    requires s.cur < LEVELS && l < LEVELS && s.used + 1 == LevelMax(s.cur)
    requires mid.cur == (s.cur + 1) % LEVELS && mid.used == 0
    ensures mid.cur != l ==> Wait(mid, l, p) == Wait(s, l, p) - 1
    ensures ROUND * p <= Wait(s, l, p) - 1
  {
    DetourNext(s.cur, l);
  }

  lemma ChargeLeaves(s: State)
    requires Formed(s)
    ensures var d := DemoteIfSpent(Charged(s)); d.queues == s.queues && d.cur == s.cur && d.used == s.used
  {
  }

  /** A tick counts, even if it ends the stay on a level. */
  lemma ImplementWait(s: State, l: nat, p: nat, t: Thread) returns (p': nat)
    requires Inv(s) && QueuedAt(s, l, p, t)
    ensures Nearer(s, Implement(s), l, p, p', t, 1)
  {
    hide QuantaLeft, InOwnQueues, Places, YieldRunning, Detour, LevelMax, LevelQuantum, DemoteIfSpent, Charged;
    var d := DemoteIfSpent(Charged(s));
    ChargeBetween(s);
    ChargeLeaves(s);
    if s.used + 1 == LevelMax(s.cur) {
      var next := (s.cur + 1) % LEVELS;
      var mid := d.(cur := next, used := 0);
      BetweenRound(d, next, 0);
      MoveOnWait(s, mid, l, p);
      p' := YieldWait(mid, l, p, t);
    } else {
      var mid := d.(used := s.used + 1);
      BetweenRound(d, s.cur, s.used + 1);
      p' := p;
      if Spent(Charged(s)) {
        p' := YieldWait(mid, l, p, t);
      }
    }
  }

  lemma StepWait(s: State, step: Step, l: nat, p: nat, t: Thread) returns (p': nat)
    requires Inv(s) && Enabled(s, step) && QueuedAt(s, l, p, t)
    ensures Nearer(s, Next(s, step), l, p, p', t, if step.Tick? then 1 else 0)
  {
    hide QuantaLeft, InOwnQueues, Places, Detour, LevelMax, Dispatch;
    match step
    case Tick(woken) =>
      AllStartedInv(s, woken);
      AllStartedWait(s, woken, l, p, t);
      p' := ImplementWait(AllStarted(s, woken), l, p, t);
    case Yield =>
      YieldBetween(s);
      p' := YieldWait(DemoteIfSpent(s), l, p, t);
    case Stop =>
      ChargeBetween(s);
      p' := StopWait(DemoteIfSpent(Charged(s)), l, p, t);
    case Start(u) =>
      p' := p;
      StartedWait(s, u, l, p, t);
    case Create(u) => p' := p;
  }

  // ---------------------------------------------------------------- runs

  /** The clock ticks among the steps from `i` on and before `k`. */
  function Ticks(steps: seq<Step>, i: nat, k: nat): nat
    requires i <= k <= |steps|
    decreases k - i
  {
    if i == k then 0 else (if steps[i].Tick? then 1 else 0) + Ticks(steps, i + 1, k)
  }

  /** Whatever yields, blocks, wakeups and new threads come between, the thread at position `p` of a
      queue runs within 160 * (p + 1) ticks, if the clock goes on that long. */
  lemma {:induction false} Runs(run: seq<State>, steps: seq<Step>, i: nat, l: nat, p: nat, t: Thread) returns (k: nat)
    requires IsRun(run, steps) && Initial(run[0]) && i < |run| && QueuedAt(run[i], l, p, t)
    requires Ticks(steps, i, |steps|) >= ROUND * (p + 1)
    ensures i < k < |run| && run[k].running == t && Ticks(steps, i, k) <= ROUND * (p + 1)
  {
    RunInv(run, steps, i);
    RoundIsWhole(run[i].cur, l);
    k := RunsWithin(run, steps, i, l, p, t);
  }

  lemma {:induction false} RunsWithin(run: seq<State>, steps: seq<Step>, i: nat, l: nat, p: nat, t: Thread)
    returns (k: nat)
    requires IsRun(run, steps) && Initial(run[0]) && i < |run| && QueuedAt(run[i], l, p, t)
    requires run[i].cur < LEVELS && Ticks(steps, i, |steps|) >= Wait(run[i], l, p)
    ensures i < k < |run| && run[k].running == t && Ticks(steps, i, k) <= Wait(run[i], l, p)
    decreases |run| - i
  {
    hide Detour, Next, Enabled, Initial;
    RunInv(run, steps, i);
    LeftBelow(run[i], l, p);
    var p' := StepWait(run[i], steps[i], l, p, t);
    if run[i + 1].running == t {
      k := i + 1;
      assert Ticks(steps, i, k) <= 1 + Ticks(steps, i + 1, k);
    } else {
      k := RunsWithin(run, steps, i + 1, l, p', t);
    }
  }

  lemma LeftBelow(s: State, l: nat, p: nat)
    requires Inv(s) && l < LEVELS
    ensures Wait(s, l, p) >= 1
  {
  }
}
