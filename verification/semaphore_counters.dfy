/** The semaphores of the thread package are counters: every history of calls, with its sleeping and waking, is
    a run of counters that a P lowers when they are above zero and a V raises. */
module SemaphoreCounters {
  import opened MultilevelQueue
  import opened Scheduler
  import opened Semaphores

  /** What thread t does to counter k in one step. */
  datatype Move = Down(k: nat, t: Thread) | Up(k: nat, t: Thread)

  predicate Able(counters: seq<nat>, move: Move) {
    move.k < |counters| && (move.Down? ==> counters[move.k] > 0)
  }

  function Moved(counters: seq<nat>, move: Move): seq<nat>
    requires Able(counters, move)
  {
    counters[move.k := if move.Down? then counters[move.k] - 1 else counters[move.k] + 1]
  }

  /** The moves can be made one after the other and lead from `a` to `b`. */
  predicate Leads(a: seq<nat>, moves: seq<Move>, b: seq<nat>)
    decreases |moves|
  {
    if moves == [] then a == b
    else Able(a, moves[0]) && Leads(Moved(a, moves[0]), moves[1..], b)
  }

  /** The values of the counters: what P can still take without sleeping. */
  function Tokens(w: World): (counters: seq<nat>)
    ensures |counters| == |w.sems|
    ensures forall k | 0 <= k < |w.sems| :: counters[k] == if w.sems[k].count > 0 then w.sems[k].count else 0
  {
    seq(|w.sems|, k requires 0 <= k < |w.sems| => if w.sems[k].count > 0 then w.sems[k].count else 0)
  }

  /** What a call does to the counters: a P that sleeps nothing yet; a V that wakes a thread makes that thread's
      move too. */
  function Moves(w: World, call: Call): seq<Move>
    requires Possible(w, call)
  {
    match call
    case P(k) => if Sleeps(w.sems[k]) then [] else [Down(k, w.sched.running)]
    case V(k) =>
      if Wakes(w.sems[k]) then [Up(k, w.sched.running), Down(k, w.sems[k].waiting[0])]
      else [Up(k, w.sched.running)]
    case Other(_) => []
  }

  /** What the caller asks for. */
  function Asked(w: World, call: Call): seq<Move> {
    match call
    case P(k) => [Down(k, w.sched.running)]
    case V(k) => [Up(k, w.sched.running)]
    case Other(_) => []
  }

  // ---------------------------------------------------------------- the moves are those of counters

  lemma {:induction false} LeadsJoin(a: seq<nat>, moves: seq<Move>, b: seq<nat>, more: seq<Move>, c: seq<nat>)
    requires Leads(a, moves, b) && Leads(b, more, c)
    ensures Leads(a, moves + more, c)
    decreases |moves|
  {
    if moves == [] {
      assert moves + more == more;
    } else {
      LeadsJoin(Moved(a, moves[0]), moves[1..], b, more, c);
      assert (moves + more)[1..] == moves[1..] + more;
    }
  }

  lemma LeadsOne(a: seq<nat>, move: Move, b: seq<nat>)
    requires Able(a, move) && Moved(a, move) == b
    ensures Leads(a, [move], b)
  {
  }

  /** One call, seen as moves of the counters. */
  lemma CallLeads(w: World, call: Call)
    requires Possible(w, call)
    ensures Leads(Tokens(w), Moves(w, call), Tokens(After(w, call)))
  {
    var a, b := Tokens(w), Tokens(After(w, call));
    hide Next, Enabled, Tokens, Leads;
    match call
    case P(k) =>
      if Sleeps(w.sems[k]) {
        StaysPut(a, b);
      } else {
        assert Moved(a, Down(k, w.sched.running)) == b;
        LeadsOne(a, Down(k, w.sched.running), b);
      }
    case V(k) =>
      var up := Up(k, w.sched.running);
      if Wakes(w.sems[k]) {
        var down := Down(k, w.sems[k].waiting[0]);
        assert Moved(Moved(a, up), down) == b;
        LeadsOne(a, up, Moved(a, up));
        LeadsOne(Moved(a, up), down, b);
        LeadsJoin(a, [up], Moved(a, up), [down], b);
      } else {
        assert Moved(a, up) == b;
        LeadsOne(a, up, b);
      }
    case Other(_) => StaysPut(a, b);
  }

  lemma StaysPut(a: seq<nat>, b: seq<nat>)
    requires |a| == |b| && forall k | 0 <= k < |a| :: a[k] == b[k]
    ensures Leads(a, [], b)
  {
  }

  /** The moves of the first `i` calls. */
  ghost function AllMoves(worlds: seq<World>, calls: seq<Call>, i: nat): seq<Move>
    requires IsHistory(worlds, calls) && i < |worlds|
  {
    if i == 0 then [] else AllMoves(worlds, calls, i - 1) + Moves(worlds[i - 1], calls[i - 1])
  }

  ghost function AllAsked(worlds: seq<World>, calls: seq<Call>, i: nat): seq<Move>
    requires IsHistory(worlds, calls) && i < |worlds|
  {
    if i == 0 then [] else AllAsked(worlds, calls, i - 1) + Asked(worlds[i - 1], calls[i - 1])
  }

  /** Every history is a run of the counters. */
  lemma {:induction false} HistoryLeads(worlds: seq<World>, calls: seq<Call>, i: nat)
    requires IsHistory(worlds, calls) && i < |worlds|
    ensures Leads(Tokens(worlds[0]), AllMoves(worlds, calls, i), Tokens(worlds[i]))
  {
    hide Tokens, Moves, After, Possible;
    if i > 0 {
      HistoryLeads(worlds, calls, i - 1);
      CallLeads(worlds[i - 1], calls[i - 1]);
      LeadsJoin(Tokens(worlds[0]), AllMoves(worlds, calls, i - 1), Tokens(worlds[i - 1]),
                Moves(worlds[i - 1], calls[i - 1]), Tokens(worlds[i]));
    }
  }

  // ---------------------------------------------------------------- each thread makes its moves in order

  /** The moves of thread t. */
  function By(moves: seq<Move>, t: Thread): seq<Move> {
    if moves == [] then []
    else (if moves[0].t == t then [moves[0]] else []) + By(moves[1..], t)
  }

  lemma {:induction false} ByJoin(a: seq<Move>, b: seq<Move>, t: Thread)
    ensures By(a + b, t) == By(a, t) + By(b, t)
  {
    if a == [] {
      assert a + b == b;
    } else {
      ByJoin(a[1..], b, t);
      assert (a + b)[1..] == a[1..] + b;
    }
  }

  /** The move that thread t waits to make, at one of the first `k` semaphores. */
  function Pending(sems: seq<Sem>, k: nat, t: Thread): seq<Move>
    requires k <= |sems|
  {
    if k == 0 then []
    else Pending(sems, k - 1, t) + if t in sems[k - 1].waiting then [Down(k - 1, t)] else []
  }

  lemma ListedIn(sem: Sem, t: Thread)
    ensures t in sem.waiting <==> Listed(sem, t) > 0
  {
    assert t in sem.waiting <==> t in multiset(sem.waiting);
  }

  lemma {:induction false} NothingPending(sems: seq<Sem>, k: nat, t: Thread)
    requires k <= |sems| && Waiting(sems, k, t) == 0
    ensures Pending(sems, k, t) == []
  {
    if k > 0 {
      NothingPending(sems, k - 1, t);
      ListedIn(sems[k - 1], t);
    }
  }

  lemma {:induction false} OnePending(sems: seq<Sem>, i: nat, k: nat, t: Thread)
    requires i < k <= |sems| && t in sems[i].waiting && Waiting(sems, k, t) <= 1
    ensures Pending(sems, k, t) == [Down(i, t)]
  {
    if i == k - 1 {
      ListedIn(sems[i], t);
      NothingPending(sems, i, t);
    } else {
      WaiterIn(sems, i, t, k - 1);
      OnePending(sems, i, k - 1, t);
      ListedIn(sems[k - 1], t);
    }
  }

  lemma {:induction false} SamePending(sems: seq<Sem>, sems': seq<Sem>, k: nat, t: Thread)
    requires k <= |sems| == |sems'|
    requires forall i | 0 <= i < |sems| :: t in sems[i].waiting <==> t in sems'[i].waiting
    ensures Pending(sems, k, t) == Pending(sems', k, t)
  {
    if k > 0 {
      SamePending(sems, sems', k - 1, t);
    }
  }

  /** The running thread waits at no semaphore. */
  lemma RunningFree(w: World)
    requires Sound(w)
    ensures Pending(w.sems, |w.sems|, w.sched.running) == []
  {
    var t := w.sched.running;
    assert t !in w.sched.blocked by {
      OnePlace(w.sched, t);
      if t in w.sched.blocked {
        BlockedKnown(w.sched);
      }
    }
    NothingPending(w.sems, |w.sems|, t);
  }

  /** What a call adds for thread t to the moves made and still to make is what t has asked for. */
  lemma CallInOrder(w: World, call: Call, t: Thread)
    requires Sound(w) && Possible(w, call)
    ensures var w' := After(w, call);
            By(Moves(w, call), t) + Pending(w'.sems, |w'.sems|, t)
            == Pending(w.sems, |w.sems|, t) + By(Asked(w, call), t)
  {
    AfterSound(w, call);
    hide Sound, Next, Enabled, By, Pending;
    match call
    case P(k) => PInOrder(w, k, t);
    case V(k) => VInOrder(w, k, t);
    case Other(_) =>
  }

  lemma ByOne(move: Move, t: Thread)
    ensures By([move], t) == if move.t == t then [move] else []
    ensures By([], t) == []
  {
    assert [move][1..] == [];
  }

  lemma PInOrder(w: World, k: nat, t: Thread)
    requires Sound(w) && Possible(w, P(k)) && Sound(After(w, P(k)))
    ensures var w' := After(w, P(k));
            By(Moves(w, P(k)), t) + Pending(w'.sems, |w'.sems|, t)
            == Pending(w.sems, |w.sems|, t) + By(Asked(w, P(k)), t)
  {
    hide Sound, Next, Enabled, By, Pending, Moves, Asked, After;
    RunningFree(w);
    PMoves(w, k, t);
    if Sleeps(w.sems[k]) && t == w.sched.running {
      FallsAsleep(w, k);
    } else {
      StaysAwake(w, k, t);
    }
  }

  lemma PMoves(w: World, k: nat, t: Thread)
    requires Possible(w, P(k))
    ensures By(Moves(w, P(k)), t) == if !Sleeps(w.sems[k]) && t == w.sched.running then [Down(k, t)] else []
    ensures By(Asked(w, P(k)), t) == if t == w.sched.running then [Down(k, t)] else []
  {
    hide Next, Enabled;
    ByOne(Down(k, w.sched.running), t);
  }

  lemma FallsAsleep(w: World, k: nat)
    requires Possible(w, P(k)) && Sound(After(w, P(k))) && Sleeps(w.sems[k])
    ensures var w', t := After(w, P(k)), w.sched.running; Pending(w'.sems, |w'.sems|, t) == [Down(k, t)]
  {
    var w', t := After(w, P(k)), w.sched.running;
    WaiterBlocked(w', t);
    hide Sound, Next, Enabled, Waiting, Pending;
    assert w'.sems[k].waiting[|w.sems[k].waiting|] == t;
    OnePending(w'.sems, k, |w'.sems|, t);
  }

  lemma StaysAwake(w: World, k: nat, t: Thread)
    requires Possible(w, P(k)) && !(Sleeps(w.sems[k]) && t == w.sched.running)
    ensures var w' := After(w, P(k));
            |w'.sems| == |w.sems| && Pending(w'.sems, |w'.sems|, t) == Pending(w.sems, |w.sems|, t)
  {
    hide Next, Enabled, Pending;
    SamePending(w.sems, After(w, P(k)).sems, |w.sems|, t);
  }

  lemma VInOrder(w: World, k: nat, t: Thread)
    requires Sound(w) && Possible(w, V(k)) && Sound(After(w, V(k)))
    ensures var w' := After(w, V(k));
            By(Moves(w, V(k)), t) + Pending(w'.sems, |w'.sems|, t)
            == Pending(w.sems, |w.sems|, t) + By(Asked(w, V(k)), t)
  {
    hide Sound, Next, Enabled, By, Pending, Moves, Asked, After;
    RunningFree(w);
    VMoves(w, k, t);
    if Wakes(w.sems[k]) && t == w.sems[k].waiting[0] {
      WokenFirst(w, k, t);
    } else {
      WaitsOn(w, k, t);
    }
  }

  lemma VMoves(w: World, k: nat, t: Thread)
    requires Possible(w, V(k))
    ensures By(Moves(w, V(k)), t)
            == By(Asked(w, V(k)), t) + if Wakes(w.sems[k]) && t == w.sems[k].waiting[0] then [Down(k, t)] else []
    ensures By(Asked(w, V(k)), t) == if t == w.sched.running then [Up(k, t)] else []
  {
    hide Next, Enabled;
    var up := Up(k, w.sched.running);
    ByOne(up, t);
    if Wakes(w.sems[k]) {
      var down := Down(k, w.sems[k].waiting[0]);
      ByOne(down, t);
      ByJoin([up], [down], t);
      assert [up] + [down] == [up, down];
    }
  }

  lemma WokenFirst(w: World, k: nat, t: Thread)
    requires Sound(w) && Possible(w, V(k)) && Sound(After(w, V(k)))
    requires Wakes(w.sems[k]) && t == w.sems[k].waiting[0]
    ensures Pending(w.sems, |w.sems|, t) == [Down(k, t)] && t != w.sched.running
    ensures var w' := After(w, V(k)); Pending(w'.sems, |w'.sems|, t) == []
  {
    WaiterIn(w.sems, k, t, |w.sems|);
    WaiterBlocked(w, t);
    OnePending(w.sems, k, |w.sems|, t);
    BlockedAfter(w.sched, Start(t));
    RunningFree(w);
    var w' := After(w, V(k));
    WaiterBlocked(w', t);
    hide Inv, Next, Enabled, Pending, Counted;
    NothingPending(w'.sems, |w'.sems|, t);
  }

  lemma WaitsOn(w: World, k: nat, t: Thread)
    requires Possible(w, V(k)) && !(Wakes(w.sems[k]) && t == w.sems[k].waiting[0])
    ensures var w' := After(w, V(k));
            |w'.sems| == |w.sems| && Pending(w'.sems, |w'.sems|, t) == Pending(w.sems, |w.sems|, t)
  {
    hide Next, Enabled;
    var sem, w' := w.sems[k], After(w, V(k));
    if Wakes(sem) {
      assert sem.waiting == [sem.waiting[0]] + sem.waiting[1..];
    }
    SamePending(w.sems, w'.sems, |w.sems|, t);
  }

  lemma FreshQuiet(w: World, t: Thread)
    requires Fresh(w)
    ensures By([], t) + Pending(w.sems, |w.sems|, t) == By([], t)
  {
    NoWaiters(w.sems, |w.sems|);
    NothingPending(w.sems, |w.sems|, t);
  }

  /** In the run of the counters every thread makes the moves it asked for, in the order in which it asked and each
      once, up to the one P that it may be waiting in. */
  lemma {:induction false} InOrder(worlds: seq<World>, calls: seq<Call>, i: nat, t: Thread)
    requires IsHistory(worlds, calls) && i < |worlds|
    ensures By(AllMoves(worlds, calls, i), t) + Pending(worlds[i].sems, |worlds[i].sems|, t)
            == By(AllAsked(worlds, calls, i), t)
  {
    hide Sound, Moves, Asked, After, Possible, By, Pending, Fresh, Waiting;
    if i == 0 {
      FreshQuiet(worlds[0], t);
    } else {
      var w, call := worlds[i - 1], calls[i - 1];
      var made, more := By(AllMoves(worlds, calls, i - 1), t), By(Moves(w, call), t);
      var pending, pending' := Pending(w.sems, |w.sems|, t), Pending(worlds[i].sems, |worlds[i].sems|, t);
      InOrder(worlds, calls, i - 1, t);
      HistorySound(worlds, calls, i - 1);
      CallInOrder(w, call, t);
      ByJoin(AllMoves(worlds, calls, i - 1), Moves(w, call), t);
      ByJoin(AllAsked(worlds, calls, i - 1), Asked(w, call), t);
      Chain(made, pending, By(AllAsked(worlds, calls, i - 1), t), more, pending', By(Asked(w, call), t));
    }
  }

  lemma Chain(made: seq<Move>, pending: seq<Move>, asked: seq<Move>, more: seq<Move>, left: seq<Move>, next: seq<Move>)
    requires made + pending == asked && more + left == pending + next
    ensures (made + more) + left == asked + next
  {
    assert (made + more) + left == made + (more + left);
    assert (made + pending) + next == made + (pending + next);
  }

  /** A thread sleeps in a P only while its counter could not be lowered. */
  lemma SleepsUnable(worlds: seq<World>, calls: seq<Call>, i: nat, k: nat, t: Thread)
    requires IsHistory(worlds, calls) && i < |worlds| && k < |worlds[i].sems| && t in worlds[i].sems[k].waiting
    ensures !Able(Tokens(worlds[i]), Down(k, t))
  {
    HistorySound(worlds, calls, i);
    assert Counted(worlds[i].sems[k], worlds[i].past[k]);
  }
}
