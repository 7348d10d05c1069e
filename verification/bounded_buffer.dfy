/** One producer and one consumer on a ring of 16 slots guarded by two semaphores, one step per access to
    shared data. */
module BoundedBuffer {

  const SIZE: nat := 16

  datatype Pc = Choose | Acquire | Access | Advance | Give | Done

  /** `n` and `i` are the size of the batch and how much of it is done. */
  datatype Producer = Producer(count: nat, n: nat, i: nat, pc: Pc)
  datatype Consumer = Consumer(out: int, n: nat, i: nat, pc: Pc)

  /** `empty` and `full` are the values of the semaphores of those names: items to take, slots to fill.
      `taken` lists what the consumer has taken. */
  datatype State = State(max: int, slots: seq<int>, head: nat, tail: nat, empty: nat, full: nat,
                         p: Producer, c: Consumer, taken: seq<int>)

  predicate Formed(s: State) {
    |s.slots| == SIZE && s.head < SIZE && s.tail < SIZE
  }

  /** The random batch size asked for by genintrand(BUFFER_SIZE) matters when a batch is chosen. */
  datatype Move = Produce(batch: nat) | Consume(batch: nat)

  predicate Enabled(s: State, move: Move) {
    && Formed(s)
    && match move
       case Produce(batch) => 1 <= batch <= SIZE && s.p.pc != Done && (s.p.pc == Acquire ==> s.full > 0)
       case Consume(batch) => 1 <= batch <= SIZE && s.c.pc != Done && (s.c.pc == Acquire ==> s.empty > 0)
  }

  function Min(a: nat, b: int): nat
    requires b >= 0
  {
    if a <= b then a else b
  }

  function ProducerStep(s: State, batch: nat): State
    requires Enabled(s, Produce(batch))
  {
    var p := s.p;
    match p.pc
    case Choose =>
      if p.count <= s.max then s.(p := Producer(p.count, Min(batch, s.max - p.count + 1), 0, Acquire))
      else s.(p := p.(pc := Done))
    case Acquire => s.(full := s.full - 1, p := p.(pc := Access))
    case Access => s.(slots := s.slots[s.head := p.count], p := p.(count := p.count + 1, pc := Advance))
    case Advance => s.(head := (s.head + 1) % SIZE, p := p.(pc := Give))
    case Give => s.(empty := s.empty + 1, p := p.(i := p.i + 1, pc := if p.i + 1 < p.n then Acquire else Choose))
    case Done => s
  }

  function ConsumerStep(s: State, batch: nat): State
    requires Enabled(s, Consume(batch))
  {
    var c := s.c;
    match c.pc
    case Choose =>
      if c.out < s.max then s.(c := Consumer(c.out, Min(batch, s.max - c.out), 0, Acquire))
      else s.(c := c.(pc := Done))
    case Acquire => s.(empty := s.empty - 1, c := c.(pc := Access))
    case Access => s.(c := c.(out := s.slots[s.tail], pc := Advance), taken := s.taken + [s.slots[s.tail]])
    case Advance => s.(tail := (s.tail + 1) % SIZE, c := c.(pc := Give))
    case Give => s.(full := s.full + 1, c := c.(i := c.i + 1, pc := if c.i + 1 < c.n then Acquire else Choose))
    case Done => s
  }

  function Next(s: State, move: Move): State
    requires Enabled(s, move)
  {
    match move
    case Produce(batch) => ProducerStep(s, batch)
    case Consume(batch) => ConsumerStep(s, batch)
  }

  ghost predicate Initial(s: State) {
    && |s.slots| == SIZE && s.head == s.tail == 0 && s.empty == 0 && s.full == SIZE
    && s.p == Producer(1, 0, 0, Choose) && s.c == Consumer(0, 0, 0, Choose) && s.taken == []
  }

  // ---------------------------------------------------------------- the invariant

  function One(b: bool): nat {
    if b then 1 else 0
  }

  function Target(s: State): nat {
    if s.max < 0 then 0 else s.max
  }

  /** Items put into the ring so far. */
  function Stored(s: State): int {
    s.p.count - 1
  }

  function Unread(s: State): int {
    Stored(s) - |s.taken|
  }

  /** Where a position is after `n` steps round the ring. */
  function Round(n: int): (r: nat)
    ensures r < SIZE
  {
    n % SIZE
  }

  lemma RoundNext(n: nat)
    ensures Round(n + 1) == (Round(n) + 1) % SIZE
  {
  }

  lemma RoundsDiffer(j: nat, k: nat)
    requires j < k < j + SIZE
    ensures Round(j) != Round(k)
  {
  }

  /** Both semaphores and both positions follow from how many items have been stored and taken and where
      the two threads stand. */
  predicate Tokens(s: State) {
    && s.p.count >= 1
    && s.empty == Unread(s) - One(s.p.pc == Advance || s.p.pc == Give) - One(s.c.pc == Access)
    && s.full + One(s.p.pc == Access) + Unread(s) + One(s.c.pc == Advance || s.c.pc == Give) == SIZE
    && s.head == Round(Stored(s) - One(s.p.pc == Advance))
    && s.tail == Round(|s.taken| - One(s.c.pc == Advance))
    && (s.p.pc == Advance ==> Stored(s) >= 1) && (s.c.pc == Advance ==> |s.taken| >= 1)
  }

  /** A batch never asks for more than is left. */
  predicate Batches(s: State) {
    && Stored(s) <= Target(s) && |s.taken| <= Target(s) && s.c.out == |s.taken|
    && (s.p.pc == Acquire || s.p.pc == Access ==> s.p.i < s.p.n && Stored(s) + s.p.n - s.p.i <= Target(s))
    && (s.p.pc == Advance || s.p.pc == Give ==> s.p.i < s.p.n && Stored(s) + s.p.n - s.p.i - 1 <= Target(s))
    && (s.c.pc == Acquire || s.c.pc == Access ==> s.c.i < s.c.n && |s.taken| + s.c.n - s.c.i <= Target(s))
    && (s.c.pc == Advance || s.c.pc == Give ==> s.c.i < s.c.n && |s.taken| + s.c.n - s.c.i - 1 <= Target(s))
    && (s.p.pc == Done ==> Stored(s) == Target(s)) && (s.c.pc == Done ==> |s.taken| == Target(s))
  }

  predicate Holds(s: State, k: nat)
    requires Formed(s) && k >= 1
  {
    s.slots[Round(k - 1)] == k
  }

  /** Every item stored and not yet taken is still in its slot. */
  predicate Kept(s: State)
    requires Formed(s)
  {
    forall k: nat | |s.taken| < k <= Stored(s) :: Holds(s, k)
  }

  predicate InOrder(taken: seq<int>) {
    forall k | 0 <= k < |taken| :: taken[k] == k + 1
  }

  predicate Inv(s: State) {
    Formed(s) && Tokens(s) && Batches(s) && Kept(s) && InOrder(s.taken)
  }

  lemma ProducerTokens(s: State, batch: nat)
    requires Inv(s) && Enabled(s, Produce(batch))
    ensures Tokens(ProducerStep(s, batch))
  {
    hide Kept, InOrder, Batches, Round;
    if s.p.pc == Advance {
      RoundNext(Stored(s) - 1);
    }
  }

  lemma ProducerBatches(s: State, batch: nat)
    requires Inv(s) && Enabled(s, Produce(batch))
    ensures Batches(ProducerStep(s, batch))
  {
    hide Kept, InOrder, Round;
  }

  /** The slot filled holds no item that is still to be taken. */
  lemma ProducerKept(s: State, batch: nat)
    requires Inv(s) && Enabled(s, Produce(batch))
    ensures Kept(ProducerStep(s, batch))
  {
    hide InOrder, Batches, Round;
    var s' := ProducerStep(s, batch);
    forall k: nat | |s'.taken| < k <= Stored(s')
      ensures Holds(s', k)
    {
      if k <= Stored(s) {
        assert Holds(s, k);
        if s.p.pc == Access {
          RoundsDiffer(k - 1, Stored(s));
        }
      }
    }
  }

  lemma ConsumerTokens(s: State, batch: nat)
    requires Inv(s) && Enabled(s, Consume(batch))
    ensures Tokens(ConsumerStep(s, batch))
  {
    hide Kept, InOrder, Batches, Round;
    if s.c.pc == Advance {
      RoundNext(|s.taken| - 1);
    }
  }

  /** The slot emptied holds the next item. */
  lemma ConsumerAccess(s: State)
    requires Inv(s) && s.c.pc == Access
    ensures s.slots[s.tail] == |s.taken| + 1
  {
    hide InOrder, Batches, Round;
    assert Holds(s, |s.taken| + 1);
  }

  lemma ConsumerBatches(s: State, batch: nat)
    requires Inv(s) && Enabled(s, Consume(batch))
    ensures Batches(ConsumerStep(s, batch)) && InOrder(ConsumerStep(s, batch).taken)
  {
    if s.c.pc == Access {
      ConsumerAccess(s);
    }
    hide Kept, Tokens;
  }

  lemma ConsumerKept(s: State, batch: nat)
    requires Inv(s) && Enabled(s, Consume(batch))
    ensures Kept(ConsumerStep(s, batch))
  {
    hide InOrder, Batches, Tokens, Round;
    var s' := ConsumerStep(s, batch);
    forall k: nat | |s'.taken| < k <= Stored(s')
      ensures Holds(s', k)
    {
      assert Holds(s, k);
    }
  }

  lemma NextInv(s: State, move: Move)
    requires Inv(s) && Enabled(s, move)
    ensures Inv(Next(s, move))
  {
    hide Tokens, Batches, Kept, InOrder;
    match move
    case Produce(batch) =>
      ProducerTokens(s, batch);
      ProducerBatches(s, batch);
      ProducerKept(s, batch);
    case Consume(batch) =>
      ConsumerTokens(s, batch);
      ConsumerBatches(s, batch);
      ConsumerKept(s, batch);
  }

  // ---------------------------------------------------------------- runs

  ghost predicate IsRun(run: seq<State>, moves: seq<Move>) {
    && |run| == |moves| + 1 && Initial(run[0])
    && forall i | 0 <= i < |moves| :: Enabled(run[i], moves[i]) && run[i + 1] == Next(run[i], moves[i])
  }

  /** Moves left: at most six for each item still to store and to take. */
  function Work(s: State): int {
    6 * (Target(s) - Stored(s)) + PcWork(s.p.pc) + 6 * (Target(s) - |s.taken|) + PcWork(s.c.pc)
  }

  function PcWork(pc: Pc): nat {
    match pc case Choose => 2 case Acquire => 1 case Access => 0 case Advance => 5 case Give => 4 case Done => 0
  }

  lemma MoveWorks(s: State, move: Move)
    requires Inv(s) && Enabled(s, move)
    ensures Work(Next(s, move)) < Work(s)
  {
    hide Kept, InOrder, Tokens;
  }

  /** No deadlock: one of the two can go on until both are done. */
  lemma SomeMove(s: State)
    requires Inv(s) && (s.p.pc != Done || s.c.pc != Done)
    ensures Enabled(s, Produce(1)) || Enabled(s, Consume(1))
  {
    hide Kept, InOrder, Round;
  }

  lemma {:induction false} RunInv(run: seq<State>, moves: seq<Move>, i: nat)
    requires IsRun(run, moves) && i < |run|
    ensures Inv(run[i]) && Target(run[i]) == Target(run[0]) && Work(run[i]) + i <= Work(run[0])
  {
    hide Enabled, Next, Work;
    if i == 0 {
      InitialInv(run[0]);
    } else {
      RunInv(run, moves, i - 1);
      NextInv(run[i - 1], moves[i - 1]);
      MoveWorks(run[i - 1], moves[i - 1]);
      SameTarget(run[i - 1], moves[i - 1]);
    }
  }

  lemma InitialInv(s: State)
    requires Initial(s)
    ensures Inv(s)
  {
  }

  lemma SameTarget(s: State, move: Move)
    requires Enabled(s, move)
    ensures Target(Next(s, move)) == Target(s)
  {
  }

  /** The slot that is filled next is not that of item `k`. */
  predicate Apart(s: State, k: nat) {
    Round(k - 1) != s.head
  }

  /** In every state of every run the consumer has taken 1, 2, 3 and so on, without gap or repetition, and
      0 to 16 items wait, each in its own slot; the slot about to be filled is none of theirs. */
  lemma TakesInOrder(run: seq<State>, moves: seq<Move>, i: nat)
    requires IsRun(run, moves) && i < |run|
    ensures var s := run[i];
            && |s.taken| <= Target(run[0]) && InOrder(s.taken)
            && 0 <= Unread(s) <= 16
            && Formed(s) && (forall k: nat | |s.taken| < k <= Stored(s) :: Holds(s, k))
            && (s.p.pc == Access ==> forall k: nat | |s.taken| < k <= Stored(s) :: Apart(s, k))
  {
    RunInv(run, moves, i);
    var s := run[i];
    hide InOrder, Batches, Round, IsRun;
    if s.p.pc == Access {
      forall k: nat | |s.taken| < k <= Stored(s)
        ensures Apart(s, k)
      {
        RoundsDiffer(k - 1, Stored(s));
      }
    }
  }

  /** The producer waits for a slot exactly while all 16 are in use, unread or just being read, and the consumer waits
      for an item exactly while none has been handed over. */
  lemma WaitsIff(run: seq<State>, moves: seq<Move>, i: nat, batch: nat)
    requires IsRun(run, moves) && i < |run| && 1 <= batch <= 16
    ensures var s := run[i];
            && (s.p.pc == Acquire ==>
                  (Enabled(s, Produce(batch)) <==> Unread(s) + One(s.c.pc == Advance || s.c.pc == Give) < 16))
            && (s.c.pc == Acquire ==>
                  (Enabled(s, Consume(batch)) <==> Unread(s) - One(s.p.pc == Advance || s.p.pc == Give) > 0))
  {
    RunInv(run, moves, i);
    hide InOrder, Batches, Kept, Round, IsRun;
  }

  /** A batch is as many items as were asked for, or all that are left if those are fewer. */
  lemma BatchSize(s: State, batch: nat)
    requires Inv(s)
    ensures Enabled(s, Produce(batch)) && s.p.pc == Choose ==>
              var p, left := Next(s, Produce(batch)).p, Target(s) - Stored(s);
              if left == 0 then p.pc == Done else p.pc == Acquire && p.i == 0 && p.n <= batch && p.n <= left
                                                  && (p.n == batch || p.n == left)
    ensures Enabled(s, Consume(batch)) && s.c.pc == Choose ==>
              var c, left := Next(s, Consume(batch)).c, Target(s) - |s.taken|;
              if left == 0 then c.pc == Done else c.pc == Acquire && c.i == 0 && c.n <= batch && c.n <= left
                                                  && (c.n == batch || c.n == left)
  {
    hide InOrder, Kept, Round;
  }

  /** Every run ends, and when neither thread can go on all numbers up to max have been taken. */
  lemma AllTaken(run: seq<State>, moves: seq<Move>)
    requires IsRun(run, moves)
    ensures |moves| <= 12 * Target(run[0]) + 4
    ensures var last := run[|moves|];
            (forall move :: !Enabled(last, move)) ==> |last.taken| == Target(run[0]) && InOrder(last.taken)
  {
    RunInv(run, moves, |moves|);
    var last := run[|moves|];
    if last.p.pc != Done || last.c.pc != Done {
      SomeMove(last);
    }
    hide Kept, Tokens, InOrder;
  }
}
