/** What the pipeline prints: an invariant of every interleaving. */
module SieveProof {
  import opened Primes
  import opened SieveChannel
  import opened Sieve

  /** The last number that matters: 1 if there is none to sieve. */
  function Limit(s: State): nat {
    if s.max < 1 then 1 else s.max
  }

  predicate Shaped(s: State) {
    |s.chans| == |s.filters| + 1 && |s.filters| <= |s.printed|
  }

  function WriterOf(s: State, c: nat): Writer
    requires c <= |s.filters|
  {
    if c == 0 then
      var Source(i, pc) := s.source;
      Writer(if pc == Write then i else i + 1, pc == Signal || pc == SignalEnd, pc == Await || pc == Ended)
    else
      var Filter(_, value, pc) := s.filters[c - 1];
      Writer(Number(Limit(s), value) + (if pc == Release || pc == Test || pc == Put then 0 else 1),
             pc == Raise, pc == Wait)
  }

  function ReaderOf(s: State, c: nat): Reader
    requires c <= |s.filters|
  {
    if c < |s.filters| then
      var Filter(_, value, pc) := s.filters[c];
      Reader(Number(Limit(s), value) + 1, pc == FilterPc.Read, pc == FilterPc.Release)
    else
      Reader(Number(Limit(s), s.sink.value) + 1, s.sink.pc == Look, s.sink.pc == Free)
  }

  ghost predicate ChannelOk(s: State, c: nat)
    requires Shaped(s) && c <= |s.filters|
  {
    Ok(s.printed[..c], Limit(s), s.chans[c], WriterOf(s, c), ReaderOf(s, c))
  }

  predicate SourceOk(s: State) {
    var Source(i, pc) := s.source;
    && 2 <= i <= Limit(s) + 1
    && (pc == Signal || pc == Await ==> i <= Limit(s))
    && (pc == SignalEnd || pc == Ended ==> i == Limit(s) + 1)
  }

  predicate FilterOk(s: State, j: nat)
    requires Shaped(s) && j < |s.filters|
  {
    var Filter(prime, value, pc) := s.filters[j];
    && prime == s.printed[j]
    && InStream(s.printed[..j], Limit(s), Number(Limit(s), value))
    && value <= Limit(s)
    && (pc == FilterPc.Take || pc == FilterPc.Read ==> value != -1)
    && (pc == Put || pc == Raise || pc == Wait ==> InStream(s.printed[..j + 1], Limit(s), Number(Limit(s), value)))
    && (pc == Over ==> value == -1)
  }

  /** What has been printed are the primes up to what the sink has seen last. */
  ghost predicate SinkOk(s: State) {
    var Sink(value, pc) := s.sink;
    && |s.printed| == |s.filters| + (if pc == Extend then 1 else 0)
    && value <= Limit(s)
    && match pc
       case Get => 1 <= value && s.printed == PrimesUpTo(value)
       case Look => 1 <= value && s.printed == PrimesUpTo(value)
       case Free => SinkRead(s)
       case Show => SinkRead(s)
       case Extend => 2 <= value && IsPrime(value) && s.printed == PrimesUpTo(value)
       case Finished => value == -1 && s.printed == PrimesUpTo(Limit(s))
  }

  ghost predicate SinkRead(s: State) {
    var n := Number(Limit(s), s.sink.value);
    n >= 2 && s.printed == PrimesUpTo(n - 1) && (s.sink.value != -1 ==> IsPrime(n))
  }

  ghost predicate Inv(s: State) {
    && Shaped(s) && SourceOk(s) && SinkOk(s)
    && (forall j: nat | j < |s.filters| :: FilterOk(s, j))
    && (forall c: nat | c <= |s.filters| :: ChannelOk(s, c))
  }

  lemma InitialInv(max: int)
    ensures Inv(Initial(max))
  {
    var s := Initial(max);
    assert s.printed == PrimesUpTo(1);
  }

  // ---------------------------------------------------------------- the source

  lemma SourceChannel(s: State)
    requires Inv(s) && Enabled(s, SourceMove)
    ensures ChannelOk(SourceStep(s), 0)
  {
    hide SinkOk, FilterOk, Ok, Number;
    assert ChannelOk(s, 0);
    var ps, w, r, ch := s.printed[..0], WriterOf(s, 0), ReaderOf(s, 0), s.chans[0];
    match s.source.pc
    case Write =>
      SourceWrites(s);
      SieveChannel.Write(ps, Limit(s), ch, w, r, if s.source.i <= s.max then s.source.i else -1);
    case Signal => SieveChannel.Signal(ps, Limit(s), ch, w, r);
    case Await => Acknowledged(ps, Limit(s), ch, w, r);
    case SignalEnd => SieveChannel.Signal(ps, Limit(s), ch, w, r);
  }

  lemma SourceWrites(s: State)
    requires SourceOk(s) && s.source.pc == Write
    ensures InStream(s.printed[..0], Limit(s), s.source.i)
    ensures s.source.i <= s.max ==> s.source.i <= Limit(s)
    ensures s.source.i == Number(Limit(s), if s.source.i <= s.max then s.source.i else -1)
  {
  }

  lemma SourceInv(s: State)
    requires Inv(s) && Enabled(s, SourceMove)
    ensures Inv(SourceStep(s))
  {
    hide SinkRead, InStream, Number;
    var s' := SourceStep(s);
    SourceChannel(s);
    hide Ok;
    forall c: nat | c <= |s.filters|
      ensures ChannelOk(s', c)
    {
      assert ChannelOk(s, c);
    }
    forall j: nat | j < |s.filters|
      ensures FilterOk(s', j)
    {
      assert FilterOk(s, j);
    }
    SinkSame(s, s');
  }

  lemma SinkSame(s: State, s': State)
    requires SinkOk(s) && s'.sink == s.sink && s'.printed == s.printed && |s'.filters| == |s.filters| && s'.max == s.max
    ensures SinkOk(s')
  {
  }

  // ---------------------------------------------------------------- a filter

  /** What passes one more filter passes those before it. */
  lemma OneMore(ps: seq<nat>, p: nat, limit: nat, n: nat)
    ensures InStream(ps + [p], limit, n) <==> InStream(ps, limit, n) && (n == limit + 1 || !Divides(p, n))
  {
    hide Divides;
    var qs := ps + [p];
    if InStream(qs, limit, n) && n != limit + 1 {
      forall j | 0 <= j < |ps|
        ensures !Divides(ps[j], n)
      {
        assert !Divides(qs[j], n);
      }
      assert !Divides(qs[|ps|], n);
    }
  }

  lemma FilterStream(s: State, j: nat, n: nat)
    requires Shaped(s) && j < |s.filters| && FilterOk(s, j)
    ensures InStream(s.printed[..j + 1], Limit(s), n)
            <==> InStream(s.printed[..j], Limit(s), n) && (n == Limit(s) + 1 || !Divides(s.filters[j].prime, n))
  {
    assert s.printed[..j + 1] == s.printed[..j] + [s.printed[j]];
    OneMore(s.printed[..j], s.printed[j], Limit(s), n);
  }

  lemma FilterLeft(s: State, j: nat)
    requires Inv(s) && Enabled(s, FilterMove(j))
    ensures Shaped(FilterStep(s, j)) && ChannelOk(FilterStep(s, j), j)
  {
    hide SinkOk, FilterOk, Ok, Number, SourceOk;
    assert ChannelOk(s, j);
    var ps, w, r, ch := s.printed[..j], WriterOf(s, j), ReaderOf(s, j), s.chans[j];
    match s.filters[j].pc
    case Take => SieveChannel.Take(ps, Limit(s), ch, w, r);
    case Read => SieveChannel.Read(ps, Limit(s), ch, w, r);
    case Release => SieveChannel.Release(ps, Limit(s), ch, w, r);
    case _ =>
  }

  /** The numbers a filter leaves out, by reading on or by dropping what it read, are not in its output. */
  lemma FilterSkips(s: State, j: nat)
    requires Inv(s) && Enabled(s, FilterMove(j))
    requires s.filters[j].pc == FilterPc.Read
             || (s.filters[j].pc == Test && !Kept(s.filters[j].value, s.filters[j].prime))
    ensures Shaped(FilterStep(s, j))
    ensures WriterOf(s, j + 1).sent <= WriterOf(FilterStep(s, j), j + 1).sent
    ensures Gap(s.printed[..j + 1], Limit(s), WriterOf(s, j + 1).sent, WriterOf(FilterStep(s, j), j + 1).sent)
  {
    hide SinkOk, SourceOk, InStream, Divides;
    var ps, from, to := s.printed[..j + 1], WriterOf(s, j + 1).sent, WriterOf(FilterStep(s, j), j + 1).sent;
    assert FilterOk(s, j);
    if s.filters[j].pc == FilterPc.Read {
      assert ChannelOk(s, j);
      SieveChannel.Read(s.printed[..j], Limit(s), s.chans[j], WriterOf(s, j), ReaderOf(s, j));
    }
    hide Ok;
    forall n: nat | from <= n < to
      ensures !InStream(ps, Limit(s), n)
    {
      FilterStream(s, j, n);
    }
  }

  lemma FilterRight(s: State, j: nat)
    requires Inv(s) && Enabled(s, FilterMove(j))
    ensures Shaped(FilterStep(s, j)) && ChannelOk(FilterStep(s, j), j + 1)
  {
    hide SinkOk, Ok, Number, SourceOk, InStream, Kept;
    assert ChannelOk(s, j + 1) && FilterOk(s, j);
    var s' := FilterStep(s, j);
    var ps, w, r, ch := s.printed[..j + 1], WriterOf(s, j + 1), ReaderOf(s, j + 1), s.chans[j + 1];
    match s.filters[j].pc
    case Take =>
    case Read =>
      FilterSkips(s, j);
      Skip(ps, Limit(s), ch, w, r, WriterOf(s', j + 1).sent);
    case Release =>
    case Test =>
      if !Kept(s.filters[j].value, s.filters[j].prime) {
        FilterSkips(s, j);
        Skip(ps, Limit(s), ch, w, r, WriterOf(s', j + 1).sent);
      }
    case Put => SieveChannel.Write(ps, Limit(s), ch, w, r, s.filters[j].value);
    case Raise => SieveChannel.Signal(ps, Limit(s), ch, w, r);
    case Wait => Acknowledged(ps, Limit(s), ch, w, r);
    case Over =>
  }

  lemma FilterItself(s: State, j: nat)
    requires Inv(s) && Enabled(s, FilterMove(j))
    ensures Shaped(FilterStep(s, j)) && FilterOk(FilterStep(s, j), j)
  {
    hide SinkOk, SourceOk, Divides;
    assert FilterOk(s, j);
    var f := s.filters[j];
    if f.pc == FilterPc.Read {
      assert ChannelOk(s, j);
      SieveChannel.Read(s.printed[..j], Limit(s), s.chans[j], WriterOf(s, j), ReaderOf(s, j));
    }
    FilterStream(s, j, Number(Limit(s), f.value));
    hide Ok;
  }

  lemma FilterOthers(s: State, j: nat, c: nat)
    requires Inv(s) && Enabled(s, FilterMove(j)) && c <= |s.filters|
    ensures Shaped(FilterStep(s, j)) && |FilterStep(s, j).filters| == |s.filters|
    ensures c != j && c != j + 1 ==> ChannelOk(FilterStep(s, j), c)
    ensures c < |s.filters| && c != j ==> FilterOk(FilterStep(s, j), c)
  {
    hide SinkOk, InStream, Number, Kept, Ok;
    assert ChannelOk(s, c);
    assert c < |s.filters| ==> FilterOk(s, c);
  }

  lemma FilterInv(s: State, j: nat)
    requires Inv(s) && Enabled(s, FilterMove(j))
    ensures Inv(FilterStep(s, j))
  {
    hide FilterOk, ChannelOk, SinkOk, Kept;
    var s' := FilterStep(s, j);
    FilterLeft(s, j);
    FilterRight(s, j);
    FilterItself(s, j);
    SinkSame(s, s');
    forall c: nat | c <= |s.filters|
      ensures ChannelOk(s', c) && (c < |s.filters| ==> FilterOk(s', c))
    {
      FilterOthers(s, j, c);
    }
  }

  // ---------------------------------------------------------------- the sink

  lemma SinkChannel(s: State)
    requires Inv(s) && Enabled(s, SinkMove) && s.sink.pc != Extend
    ensures Shaped(SinkStep(s)) && ChannelOk(SinkStep(s), |s.filters|)
  {
    hide FilterOk, Ok, Number, SourceOk, SinkRead;
    var k := |s.filters|;
    assert ChannelOk(s, k);
    var ps, w, r, ch := s.printed[..k], WriterOf(s, k), ReaderOf(s, k), s.chans[k];
    assert SinkStep(s).printed[..k] == ps;
    match s.sink.pc
    case Get => SieveChannel.Take(ps, Limit(s), ch, w, r);
    case Look => SieveChannel.Read(ps, Limit(s), ch, w, r);
    case Free => SieveChannel.Release(ps, Limit(s), ch, w, r);
    case _ =>
  }

  /** What gets through to the sink is the next prime, or the end mark if there is none. */
  lemma SinkLooks(s: State)
    requires Inv(s) && Enabled(s, SinkMove) && s.sink.pc == Look
    ensures SinkOk(SinkStep(s))
  {
    hide FilterOk, SourceOk, IsPrime, Passes;
    var k, limit := |s.filters|, Limit(s);
    assert ChannelOk(s, k);
    assert s.printed[..k] == s.printed;
    var ch := s.chans[k];
    SieveChannel.Read(s.printed, limit, ch, WriterOf(s, k), ReaderOf(s, k));
    var h: nat, n := s.sink.value, Number(limit, ch.value);
    forall m: nat | h < m < n
      ensures !Passes(PrimesUpTo(h), m)
    {
      assert !InStream(s.printed, limit, m);
    }
    NextPrime(h, n);
  }

  lemma SinkShows(s: State)
    requires Inv(s) && Enabled(s, SinkMove) && s.sink.pc == Show
    ensures SinkOk(SinkStep(s))
  {
    hide FilterOk, ChannelOk, SourceOk, IsPrime;
    if s.sink.value != -1 {
      assert PrimesUpTo(s.sink.value) == PrimesUpTo(s.sink.value - 1) + [s.sink.value];
    }
  }

  lemma SinkItself(s: State)
    requires Inv(s) && Enabled(s, SinkMove)
    ensures SinkOk(SinkStep(s))
  {
    if s.sink.pc == Look {
      SinkLooks(s);
    } else if s.sink.pc == Show {
      SinkShows(s);
    }
    hide FilterOk, ChannelOk, SourceOk, IsPrime, SinkRead;
  }

  lemma SinkOthers(s: State, c: nat)
    requires Inv(s) && Enabled(s, SinkMove) && c <= |s.filters|
    ensures Shaped(SinkStep(s)) && |SinkStep(s).filters| >= |s.filters| && SourceOk(SinkStep(s))
    ensures c < |s.filters| || s.sink.pc == Extend ==> ChannelOk(SinkStep(s), c)
    ensures c < |s.filters| ==> FilterOk(SinkStep(s), c)
  {
    hide InStream, Number, Ok, SinkRead;
    var s' := SinkStep(s);
    assert ChannelOk(s, c);
    assert c < |s.filters| ==> FilterOk(s, c);
    assert s'.printed[..c] == s.printed[..c];
    if c < |s.filters| {
      assert s'.printed[..c + 1] == s.printed[..c + 1];
    }
  }

  /** The new filter starts where the sink stood, on an empty channel. */
  lemma SinkExtends(s: State)
    requires Inv(s) && Enabled(s, SinkMove) && s.sink.pc == Extend
    ensures Shaped(SinkStep(s)) && |SinkStep(s).filters| == |s.filters| + 1
    ensures FilterOk(SinkStep(s), |s.filters|) && ChannelOk(SinkStep(s), |s.filters| + 1)
  {
    hide SourceOk, Passes, IsPrime, Divides;
    var s', k, v := SinkStep(s), |s.filters|, s.sink.value;
    assert PrimesUpTo(v) == PrimesUpTo(v - 1) + [v];
    assert s.printed[..k] == PrimesUpTo(v - 1);
    PassesIffPrime(v - 1, v);
  }

  lemma SinkInv(s: State)
    requires Inv(s) && Enabled(s, SinkMove)
    ensures Inv(SinkStep(s))
  {
    hide FilterOk, ChannelOk, SinkOk, SourceOk;
    var s' := SinkStep(s);
    SinkItself(s);
    SinkOthers(s, 0);
    if s.sink.pc == Extend {
      SinkExtends(s);
    } else {
      SinkChannel(s);
    }
    forall c: nat | c <= |s.filters|
      ensures ChannelOk(s', c) && (c < |s.filters| ==> FilterOk(s', c))
    {
      SinkOthers(s, c);
    }
  }

  // ---------------------------------------------------------------- runs

  lemma NextInv(s: State, move: Move)
    requires Inv(s) && Enabled(s, move)
    ensures Inv(Next(s, move))
  {
    hide Inv;
    match move
    case SourceMove => SourceInv(s);
    case FilterMove(j) => FilterInv(s, j);
    case SinkMove => SinkInv(s);
  }

  lemma {:induction false} RunInv(run: seq<State>, moves: seq<Move>, max: int, i: nat)
    requires IsRun(run, moves, max) && i < |run|
    ensures Inv(run[i]) && run[i].max == max
  {
    hide Inv, Enabled;
    if i == 0 {
      InitialInv(max);
    } else {
      RunInv(run, moves, max, i - 1);
      NextInv(run[i - 1], moves[i - 1]);
    }
  }

  /** Whatever the interleaving, what has been printed are the first of the primes up to max in
      ascending order, and all of them once the sink has finished. */
  lemma PrintsPrimes(run: seq<State>, moves: seq<Move>, max: int, i: nat)
    requires IsRun(run, moves, max) && i < |run|
    ensures run[i].printed <= PrimesUpTo(if max < 0 then 0 else max)
    ensures run[i].sink.pc == Finished ==> run[i].printed == PrimesUpTo(if max < 0 then 0 else max)
  {
    RunInv(run, moves, max, i);
    PrintedPrefix(run[i]);
  }

  lemma PrintedPrefix(s: State)
    requires Inv(s)
    ensures s.printed <= PrimesUpTo(Limit(s))
    ensures PrimesUpTo(Limit(s)) == PrimesUpTo(if s.max < 0 then 0 else s.max)
  {
    hide FilterOk, ChannelOk, SourceOk, IsPrime;
    var n := Number(Limit(s), s.sink.value);
    var last := if s.sink.pc == Free || s.sink.pc == Show then n - 1 else if s.sink.pc == Finished then Limit(s) else n;
    PrimesPrefix(last, Limit(s));
  }
}
