/** The sieve of Eratosthenes as a growing pipeline of threads, one step per access to a shared variable
    or semaphore. */
module Sieve {
  import opened Primes
  import opened SieveChannel

  datatype SourcePc = Write | Signal | Await | SignalEnd | Ended
  datatype FilterPc = Take | Read | Release | Test | Put | Raise | Wait | Over
  datatype SinkPc = Get | Look | Free | Show | Extend | Finished

  datatype Source = Source(i: nat, pc: SourcePc)
  datatype Filter = Filter(prime: nat, value: Value, pc: FilterPc)
  datatype Sink = Sink(value: Value, pc: SinkPc)

  /** Channel `c` is read by filter `c`, the last channel by the sink; filter `c` writes channel c + 1. */
  datatype State = State(max: int, source: Source, chans: seq<Channel>, filters: seq<Filter>, sink: Sink,
                         printed: seq<nat>)

  const NEW_CHANNEL := Channel(0, 0, 0)

  datatype Move = SourceMove | FilterMove(j: nat) | SinkMove

  /** A P waits until its semaphore has been raised; everything else can always go on. */
  predicate Enabled(s: State, move: Move) {
    && |s.chans| == |s.filters| + 1
    && match move
       case SourceMove => s.source.pc != Ended && (s.source.pc == Await ==> s.chans[0].produce > 0)
       case FilterMove(j) =>
         && j < |s.filters| && s.filters[j].pc != Over
         && (s.filters[j].pc == Take ==> s.chans[j].consume > 0)
         && (s.filters[j].pc == Wait ==> s.chans[j + 1].produce > 0)
       case SinkMove => s.sink.pc != Finished && (s.sink.pc == Get ==> s.chans[|s.filters|].consume > 0)
  }

  function SourceStep(s: State): State
    requires Enabled(s, SourceMove)
  {
    var Source(i, pc) := s.source;
    var ch := s.chans[0];
    match pc
    case Write =>
      if i <= s.max then s.(source := Source(i, Signal), chans := s.chans[0 := ch.(value := i)])
      else s.(source := Source(i, SignalEnd), chans := s.chans[0 := ch.(value := -1)])
    case Signal => s.(source := Source(i, Await), chans := s.chans[0 := ch.(consume := ch.consume + 1)])
    case Await => s.(source := Source(i + 1, Write), chans := s.chans[0 := ch.(produce := ch.produce - 1)])
    case SignalEnd => s.(source := Source(i, Ended), chans := s.chans[0 := ch.(consume := ch.consume + 1)])
    case Ended => s
  }

  /** value == -1 or value % prime != 0 */
  predicate Kept(value: Value, prime: nat) {
    value == -1 || !Divides(prime, value)
  }

  function FilterStep(s: State, j: nat): State
    requires Enabled(s, FilterMove(j))
  {
    var Filter(prime, value, pc) := s.filters[j];
    var left, right := s.chans[j], s.chans[j + 1];
    match pc
    case Take =>
      s.(filters := s.filters[j := Filter(prime, value, Read)],
         chans := s.chans[j := left.(consume := left.consume - 1)])
    case Read => s.(filters := s.filters[j := Filter(prime, left.value, Release)])
    case Release =>
      s.(filters := s.filters[j := Filter(prime, value, Test)],
         chans := s.chans[j := left.(produce := left.produce + 1)])
    case Test => s.(filters := s.filters[j := Filter(prime, value, if Kept(value, prime) then Put else Take)])
    case Put =>
      s.(filters := s.filters[j := Filter(prime, value, Raise)], chans := s.chans[j + 1 := right.(value := value)])
    case Raise =>
      s.(filters := s.filters[j := Filter(prime, value, Wait)],
         chans := s.chans[j + 1 := right.(consume := right.consume + 1)])
    case Wait =>
      s.(filters := s.filters[j := Filter(prime, value, if value == -1 then Over else Take)],
         chans := s.chans[j + 1 := right.(produce := right.produce - 1)])
    case Over => s
  }

  /** A number shown becomes the prime of a new filter, which takes over the sink's channel. */
  function SinkStep(s: State): State
    requires Enabled(s, SinkMove)
  {
    var Sink(value, pc) := s.sink;
    var k := |s.filters|;
    var ch := s.chans[k];
    match pc
    case Get => s.(sink := Sink(value, Look), chans := s.chans[k := ch.(consume := ch.consume - 1)])
    case Look => s.(sink := Sink(ch.value, Free))
    case Free => s.(sink := Sink(value, Show), chans := s.chans[k := ch.(produce := ch.produce + 1)])
    case Show =>
      if value == -1 then s.(sink := Sink(value, Finished))
      else s.(sink := Sink(value, Extend), printed := s.printed + [value])
    case Extend =>
      if value == -1 then s
      else s.(sink := Sink(value, Get), filters := s.filters + [Filter(value, value, Take)],
              chans := s.chans + [NEW_CHANNEL])
    case Finished => s
  }

  function Next(s: State, move: Move): State
    requires Enabled(s, move)
  {
    match move
    case SourceMove => SourceStep(s)
    case FilterMove(j) => FilterStep(s, j)
    case SinkMove => SinkStep(s)
  }

  /** The sink has made its channel and forked the source.  What a thread's `value` holds before it first
      reads is of no matter. */
  function Initial(max: int): State {
    State(max, Source(2, Write), [NEW_CHANNEL], [], Sink(1, Get), [])
  }

  ghost predicate IsRun(run: seq<State>, moves: seq<Move>, max: int) {
    && |run| == |moves| + 1 && run[0] == Initial(max)
    && forall i | 0 <= i < |moves| :: Enabled(run[i], moves[i]) && run[i + 1] == Next(run[i], moves[i])
  }
}
