/** The pipeline neither gets stuck nor runs for ever. */
module SieveEnd {
  import opened Division
  import opened Primes
  import opened SieveChannel
  import opened Sieve
  import opened SieveProof

  // ---------------------------------------------------------------- some thread can always go on

  /** The reader of channel `c` waits for a value. */
  predicate ReaderWaits(s: State, c: nat)
    requires Shaped(s) && c <= |s.filters|
  {
    && s.chans[c].consume == 0
    && if c < |s.filters| then s.filters[c].pc == FilterPc.Take else s.sink.pc == Get
  }

  /** A waiting reader has not seen the end mark, so its writer is not through; and if the writer waits
      too, then for a value further up. */
  lemma WriterGoesOn(s: State, c: nat)
    requires Inv(s) && c <= |s.filters| && ReaderWaits(s, c)
    ensures WriterOf(s, c).signalling || WriterOf(s, c).sent <= Limit(s) + 1
    ensures WriterOf(s, c).busy ==> s.chans[c].produce > 0
  {
    hide Passes, IsPrime;
    assert ChannelOk(s, c);
    var w, r := WriterOf(s, c), ReaderOf(s, c);
    assert r.taken <= Limit(s) + 1 by {
      if c < |s.filters| {
        assert FilterOk(s, c);
      }
    }
    if !w.signalling {
      NothingToTake(s.printed[..c], Limit(s), s.chans[c], w, r);
    }
  }

  lemma {:induction false} Upstream(s: State, c: nat) returns (move: Move)
    requires Inv(s) && c <= |s.filters| && ReaderWaits(s, c)
    ensures Enabled(s, move)
  {
    hide ChannelOk, SinkOk;
    WriterGoesOn(s, c);
    if c == 0 {
      move := SourceMove;
    } else {
      assert FilterOk(s, c - 1);
      if ReaderWaits(s, c - 1) {
        move := Upstream(s, c - 1);
      } else {
        move := FilterMove(c - 1);
      }
    }
  }

  /** No deadlock: until the sink has finished some thread can go on. */
  lemma SomeMove(s: State) returns (move: Move)
    requires Inv(s) && s.sink.pc != Finished
    ensures Enabled(s, move)
  {
    if s.sink.pc == Get && s.chans[|s.filters|].consume == 0 {
      move := Upstream(s, |s.filters|);
    } else {
      move := SinkMove;
    }
  }

  // ---------------------------------------------------------------- every move is progress

  function SourceWork(s: State): int {
    var rest := match s.source.pc case Write => 3 case Signal => 2 case Await => 1 case SignalEnd => 2 case Ended => 0;
    4 * (Limit(s) + 2 - s.source.i) + rest
  }

  function FilterWork(f: Filter, limit: nat): int {
    var rest := match f.pc
      case Take => 1
      case Read => 0
      case Release => 7
      case Test => 6
      case Put => 5
      case Raise => 4
      case Wait => 3
      case Over => 0;
    8 * (limit + 1 - Number(limit, f.value)) + rest
  }

  function FiltersWork(fs: seq<Filter>, limit: nat, k: nat): int
    requires k <= |fs|
  {
    if k == 0 then 0 else FiltersWork(fs, limit, k - 1) + FilterWork(fs[k - 1], limit)
  }

  /** Room for all a new filter can do. */
  function NewFilterWork(limit: nat): nat {
    8 * (limit + 2) + 2
  }

  function SinkWork(s: State): int
    requires s.sink.value <= Limit(s)
  {
    var more := NewFilterWork(Limit(s));
    var rest := match s.sink.pc
      case Get => 1 case Look => 0 case Free => 10 + more
      case Show => 9 + more case Extend => 8 + more case Finished => 0;
    Times(Limit(s) + 1 - Number(Limit(s), s.sink.value), more + 11) + rest
  }

  function Work(s: State): int
    requires s.sink.value <= Limit(s)
  {
    SourceWork(s) + FiltersWork(s.filters, Limit(s), |s.filters|) + SinkWork(s)
  }

  lemma {:induction false} FiltersNatural(s: State, k: nat)
    requires Inv(s) && k <= |s.filters|
    ensures FiltersWork(s.filters, Limit(s), k) >= 0
  {
    if k > 0 {
      FiltersNatural(s, k - 1);
      assert FilterOk(s, k - 1);
    }
  }

  lemma WorkNatural(s: State)
    requires Inv(s)
    ensures Work(s) >= 0
  {
    hide FilterOk, ChannelOk, IsPrime;
    FiltersNatural(s, |s.filters|);
  }

  lemma {:induction false} FiltersUpdate(fs: seq<Filter>, limit: nat, j: nat, f: Filter, k: nat)
    requires j < |fs| && k <= |fs|
    ensures FiltersWork(fs[j := f], limit, k)
            == FiltersWork(fs, limit, k) + if j < k then FilterWork(f, limit) - FilterWork(fs[j], limit) else 0
  {
    if k > 0 {
      FiltersUpdate(fs, limit, j, f, k - 1);
    }
  }

  lemma {:induction false} FiltersAppend(fs: seq<Filter>, limit: nat, f: Filter, k: nat)
    requires k <= |fs|
    ensures FiltersWork(fs + [f], limit, k) == FiltersWork(fs, limit, k)
  {
    if k > 0 {
      FiltersAppend(fs, limit, f, k - 1);
    }
  }

  lemma FilterProgress(s: State, j: nat)
    requires Inv(s) && Enabled(s, FilterMove(j))
    ensures FilterWork(FilterStep(s, j).filters[j], Limit(s)) < FilterWork(s.filters[j], Limit(s))
  {
    assert FilterOk(s, j);
    if s.filters[j].pc == FilterPc.Read {
      assert ChannelOk(s, j);
    }
  }

  /** What the sink reads is a larger number than it had. */
  lemma SinkReadsOn(s: State)
    requires Inv(s) && s.sink.pc == Look
    ensures Number(Limit(s), s.sink.value) < Number(Limit(s), s.chans[|s.filters|].value) <= Limit(s) + 1
  {
    hide FilterOk, Passes, IsPrime;
    assert ChannelOk(s, |s.filters|);
  }

  lemma SinkProgress(s: State)
    requires Inv(s) && Enabled(s, SinkMove)
    ensures var s' := SinkStep(s);
            && s'.sink.value <= Limit(s) == Limit(s')
            && SinkWork(s') + (if s.sink.pc == Extend then NewFilterWork(Limit(s)) else 0) < SinkWork(s)
  {
    hide FilterOk, ChannelOk, SinkRead, Times;
    SinkItself(s);
    if s.sink.pc == Look {
      SinkReadsOn(s);
      var limit := Limit(s);
      var a, b := limit + 1 - Number(limit, s.sink.value), limit + 1 - Number(limit, s.chans[|s.filters|].value);
      TimesBelow(a, b, NewFilterWork(limit) + 11);
    }
  }

  lemma TimesBelow(a: nat, b: nat, m: nat)
    requires b < a
    ensures Times(b, m) + m <= Times(a, m)
  {
    TimesMonotone(b + 1, a, m);
  }

  lemma SourceProgress(s: State)
    requires Inv(s) && Enabled(s, SourceMove)
    ensures s.sink.value <= Limit(s) && Work(SourceStep(s)) < Work(s)
  {
    hide ChannelOk, FilterOk, SinkRead;
  }

  /** A filter's move changes that filter only. */
  lemma FilterElse(s: State, j: nat)
    requires Inv(s) && Enabled(s, FilterMove(j))
    ensures var s' := FilterStep(s, j);
            && |s'.filters| == |s.filters| && s'.filters == s.filters[j := s'.filters[j]]
            && s'.source == s.source && s'.sink == s.sink && s'.max == s.max
            && SourceWork(s') == SourceWork(s) && s.sink.value <= Limit(s) && SinkWork(s') == SinkWork(s)
  {
    hide ChannelOk, FilterOk, SinkRead;
  }

  /** The sink's move leaves the filters alone, but for the one it adds. */
  lemma SinkElse(s: State)
    requires Inv(s) && Enabled(s, SinkMove)
    ensures var s' := SinkStep(s);
            && SourceWork(s') == SourceWork(s) && Limit(s') == Limit(s)
            && FiltersWork(s'.filters, Limit(s), |s'.filters|)
               <= FiltersWork(s.filters, Limit(s), |s.filters|)
                  + if s.sink.pc == Extend then NewFilterWork(Limit(s)) else 0
  {
    hide ChannelOk, FilterOk, SinkRead;
    if s.sink.pc == Extend {
      FiltersAppend(s.filters, Limit(s), Filter(s.sink.value, s.sink.value, FilterPc.Take), |s.filters|);
    }
  }

  lemma MoveWorks(s: State, move: Move)
    requires Inv(s) && Enabled(s, move)
    ensures Inv(Next(s, move)) && Work(Next(s, move)) < Work(s)
  {
    hide ChannelOk, FilterOk, SinkRead, SourceWork, SinkWork, FilterWork, FiltersWork;
    NextInv(s, move);
    match move
    case SourceMove => SourceProgress(s);
    case FilterMove(j) =>
      FilterElse(s, j);
      FilterProgress(s, j);
      FiltersUpdate(s.filters, Limit(s), j, FilterStep(s, j).filters[j], |s.filters|);
    case SinkMove =>
      SinkElse(s);
      SinkProgress(s);
  }

  lemma {:induction false} RunWorks(run: seq<State>, moves: seq<Move>, max: int, i: nat)
    requires IsRun(run, moves, max) && i < |run|
    ensures Inv(run[i]) && run[i].max == max && Work(run[i]) <= Work(Initial(max)) - i
  {
    hide Inv, Enabled, Next;
    RunInv(run, moves, max, i);
    if i > 0 {
      RunWorks(run, moves, max, i - 1);
      MoveWorks(run[i - 1], moves[i - 1]);
    }
  }

  /** Every run ends, however the threads take turns, and when no thread can go on any more the primes up
      to max have been printed in ascending order, all of them and nothing else. */
  lemma SieveCorrect(run: seq<State>, moves: seq<Move>, max: int)
    requires IsRun(run, moves, max)
    ensures |moves| <= Work(Initial(max))
    ensures (forall move :: !Enabled(run[|moves|], move))
            ==> run[|moves|].printed == PrimesUpTo(if max < 0 then 0 else max)
  {
    var last := run[|moves|];
    RunWorks(run, moves, max, |moves|);
    WorkNatural(last);
    PrintsPrimes(run, moves, max, |moves|);
    if last.sink.pc != Finished {
      var move := SomeMove(last);
    }
  }
}
