/** One channel of the sieve: a value handed over from a writer to a reader by two semaphores. */
module SieveChannel {
  import opened Primes

  /** A number, or -1 as the end mark. */
  type Value = v: int | -1 <= v witness -1

  /** `produce` and `consume` are the values of the two semaphores. */
  datatype Channel = Channel(value: Value, produce: nat, consume: nat)

  /** What a channel sees of its writer: all it had to send below `sent` is sent; whether it has written
      a value and not yet raised `consume`; whether it has and not yet been told that the value was read. */
  datatype Writer = Writer(sent: nat, signalling: bool, busy: bool)

  /** What it sees of its reader: all below `taken` is taken; whether it is between P(consume) and
      reading, or between reading and V(produce). */
  datatype Reader = Reader(taken: nat, reading: bool, releasing: bool)

  /** The numbers 2 to `limit` and the end mark, put in one ascending order. */
  function Number(limit: nat, value: Value): nat {
    if value == -1 then limit + 1 else value
  }

  /** What goes through the channel behind the filters for `ps`: what they let pass, and the end mark. */
  predicate InStream(ps: seq<nat>, limit: nat, n: nat) {
    n == limit + 1 || (2 <= n <= limit && Passes(ps, n))
  }

  ghost predicate Gap(ps: seq<nat>, limit: nat, from: nat, to: nat) {
    forall n: nat | from <= n < to :: !InStream(ps, limit, n)
  }

  predicate Pending(ch: Channel, w: Writer, r: Reader) {
    w.signalling || ch.consume > 0 || r.reading
  }

  /** At most one token is about, exactly while the writer waits for its value to be read; all that was
      sent is taken but for the value pending, which is the next one of the stream. */
  ghost predicate Ok(ps: seq<nat>, limit: nat, ch: Channel, w: Writer, r: Reader) {
    && !(w.signalling && w.busy) && !(r.reading && r.releasing)
    && ch.consume + ch.produce + (if r.reading || r.releasing then 1 else 0) == (if w.busy then 1 else 0)
    && r.taken <= w.sent && ch.value <= limit
    && if Pending(ch, w, r) then
         var n := Number(limit, ch.value);
         w.sent == n + 1 && r.taken <= n && InStream(ps, limit, n) && Gap(ps, limit, r.taken, n)
       else Gap(ps, limit, r.taken, w.sent)
  }

  predicate Idle(w: Writer) {
    !w.signalling && !w.busy
  }

  lemma Write(ps: seq<nat>, limit: nat, ch: Channel, w: Writer, r: Reader, v: Value)
    requires Ok(ps, limit, ch, w, r) && Idle(w) && v <= limit
    requires w.sent == Number(limit, v) && InStream(ps, limit, w.sent)
    ensures Ok(ps, limit, ch.(value := v), Writer(w.sent + 1, true, false), r)
  {
  }

  lemma Signal(ps: seq<nat>, limit: nat, ch: Channel, w: Writer, r: Reader)
    requires Ok(ps, limit, ch, w, r) && w.signalling
    ensures Ok(ps, limit, ch.(consume := ch.consume + 1), Writer(w.sent, false, true), r)
  {
  }

  lemma Acknowledged(ps: seq<nat>, limit: nat, ch: Channel, w: Writer, r: Reader)
    requires Ok(ps, limit, ch, w, r) && w.busy && ch.produce > 0
    ensures Ok(ps, limit, ch.(produce := ch.produce - 1), Writer(w.sent, false, false), r)
  {
  }

  /** The writer has nothing to send among the numbers up to `sent`. */
  lemma Skip(ps: seq<nat>, limit: nat, ch: Channel, w: Writer, r: Reader, sent: nat)
    requires Ok(ps, limit, ch, w, r) && Idle(w) && w.sent <= sent && Gap(ps, limit, w.sent, sent)
    ensures Ok(ps, limit, ch, Writer(sent, false, false), r)
  {
    assert !Pending(ch, w, r);
    forall n: nat | r.taken <= n < sent
      ensures !InStream(ps, limit, n)
    {
      if n >= w.sent {
        assert !InStream(ps, limit, n);
      }
    }
  }

  lemma Take(ps: seq<nat>, limit: nat, ch: Channel, w: Writer, r: Reader)
    requires Ok(ps, limit, ch, w, r) && ch.consume > 0 && !r.reading && !r.releasing
    ensures Ok(ps, limit, ch.(consume := ch.consume - 1), w, Reader(r.taken, true, false))
  {
  }

  /** The value read is the next one of the stream. */
  lemma Read(ps: seq<nat>, limit: nat, ch: Channel, w: Writer, r: Reader)
    requires Ok(ps, limit, ch, w, r) && r.reading
    ensures Ok(ps, limit, ch, w, Reader(Number(limit, ch.value) + 1, false, true))
    ensures var n := Number(limit, ch.value); r.taken <= n && InStream(ps, limit, n) && Gap(ps, limit, r.taken, n)
  {
  }

  lemma Release(ps: seq<nat>, limit: nat, ch: Channel, w: Writer, r: Reader)
    requires Ok(ps, limit, ch, w, r) && r.releasing
    ensures Ok(ps, limit, ch.(produce := ch.produce + 1), w, Reader(r.taken, false, false))
  {
  }

  /** A reader that finds nothing to take has taken all that was sent, and its writer has been told. */
  lemma NothingToTake(ps: seq<nat>, limit: nat, ch: Channel, w: Writer, r: Reader)
    requires Ok(ps, limit, ch, w, r) && ch.consume == 0 && !r.reading && !r.releasing && !w.signalling
    ensures w.busy ==> ch.produce > 0
    ensures w.sent > limit + 1 ==> r.taken > limit + 1
  {
    if w.sent > limit + 1 && r.taken <= limit + 1 {
      assert InStream(ps, limit, limit + 1);
    }
  }
}
