/** Alarms: a queue sorted by the tick at which each goes off. */
module Alarms {
  import opened LinkedQueue

  /** Milliseconds between two clock ticks. */
  const PERIOD: int := 100

  /** Division that cuts off towards zero, as in C. */
  function Truncated(a: int): int {
    if a >= 0 then a / PERIOD else -(-a / PERIOD)
  }

  /** Ticks until an alarm of this delay is to go off: one more if the delay is not a whole number of periods. */
  function Due(delay: int): int {
    var del := Truncated(delay);
    if delay - PERIOD * del != 0 then del + 1 else del
  }

  /** For a positive delay it is the least number of periods of 100 milliseconds that lasts as long; a negative one that
      is no whole number of periods is rounded up once too often, so that small ones are for a tick to come. */
  lemma DueRoundsUp(delay: int)
    ensures delay > 0 ==> 100 * (Due(delay) - 1) < delay <= 100 * Due(delay)
    ensures delay < 0 ==> 100 * (Due(delay) - 2) < delay <= 100 * Due(delay)
    ensures delay % 100 == 0 <==> delay == 100 * Due(delay)
    ensures Due(delay) >= 1 <==> delay > 0 || -PERIOD < delay < 0
  {
  }

  /** `number` tells alarms apart, in the order in which they were registered. */
  datatype Alarm = Alarm(number: nat, end: int, thread: nat)

  type Pending = Entry<Alarm>

  datatype Firing = Firing(alarm: Alarm, at: int)

  /** `now` is nInterrupts; `made` and `fired` list the alarms registered and gone off so far. */
  datatype Clock = Clock(now: int, pending: seq<Pending>, made: seq<Alarm>, fired: seq<Firing>)

  // ---------------------------------------------------------------- steps

  datatype Step = Register(delay: int, thread: nat) | Tick

  function NewAlarm(c: Clock, delay: int, thread: nat): Alarm {
    Alarm(|c.made|, c.now + Due(delay), thread)
  }

  function Registered(c: Clock, delay: int, thread: nat): Clock {
    var a := NewAlarm(c, delay, thread);
    c.(pending := Inserted(c.pending, Entry(a, a.end)), made := c.made + [a])
  }

  /** How many alarms at the front of the queue are set to exactly this tick. */
  function Ready(pending: seq<Pending>, now: int): (k: nat)
    ensures k <= |pending|
    ensures forall i | 0 <= i < k :: pending[i].data.end == now
    ensures k < |pending| ==> pending[k].data.end != now
  {
    if pending != [] && pending[0].data.end == now then 1 + Ready(pending[1..], now) else 0
  }

  function Firings(pending: seq<Pending>, now: int): (f: seq<Firing>)
    ensures |f| == |pending| && forall i | 0 <= i < |f| :: f[i] == Firing(pending[i].data, now)
  {
    if pending == [] then [] else [Firing(pending[0].data, now)] + Firings(pending[1..], now)
  }

  /** Queue and firings once all alarms at the front that are due now have gone off. */
  function Drained(pending: seq<Pending>, fired: seq<Firing>, now: int): (seq<Pending>, seq<Firing>) {
    var k := Ready(pending, now);
    (pending[k..], fired + Firings(pending[..k], now))
  }

  function Ticked(c: Clock): Clock {
    var drained := Drained(c.pending, c.fired, c.now + 1);
    Clock(c.now + 1, drained.0, c.made, drained.1)
  }

  function Next(c: Clock, step: Step): Clock {
    match step
    case Register(delay, thread) => Registered(c, delay, thread)
    case Tick => Ticked(c)
  }

  // ---------------------------------------------------------------- the invariant

  /** Earlier tick first; at the same tick, first registered first. */
  predicate Before(a: Alarm, b: Alarm) {
    a.end < b.end || (a.end == b.end && a.number < b.number)
  }

  predicate PendingOrder(pending: seq<Pending>) {
    forall i, j | 0 <= i < j < |pending| :: Before(pending[i].data, pending[j].data)
  }

  predicate FiredOrder(fired: seq<Firing>) {
    forall i, j | 0 <= i < j < |fired| :: Before(fired[i].alarm, fired[j].alarm)
  }

  predicate PendingOk(c: Clock, e: Pending) {
    e.priority == e.data.end && e.data.end > c.now && e.data in c.made
  }

  predicate FiringOk(c: Clock, f: Firing) {
    f.at == f.alarm.end <= c.now && f.alarm in c.made
  }

  predicate Accounted(c: Clock, a: Alarm) {
    if a.end <= c.now then Firing(a, a.end) in c.fired else Entry(a, a.end) in c.pending
  }

  /** Every alarm registered has gone off on its tick or is waiting for a tick to come. */
  predicate Inv(c: Clock) {
    && PendingOrder(c.pending) && FiredOrder(c.fired)
    && (forall e | e in c.pending :: PendingOk(c, e))
    && (forall f | f in c.fired :: FiringOk(c, f))
    && (forall i | 0 <= i < |c.made| :: c.made[i].number == i && Accounted(c, c.made[i]))
  }

  // ---------------------------------------------------------------- registering

  lemma InsertOrder(s: seq<Pending>, e: Pending)
    requires PendingOrder(s) && e.priority == e.data.end
    requires forall x | x in s :: x.priority == x.data.end && x.data.number < e.data.number
    ensures PendingOrder(Inserted(s, e))
  {
    var k, t := Place(s, e.priority, 0), Inserted(s, e);
    assert Ascending(s) by {
      forall i, j | 0 <= i < j < |s|
        ensures s[i].priority <= s[j].priority
      {
        assert Before(s[i].data, s[j].data);
        assert s[i] in s && s[j] in s;
      }
    }
    InsertStands(s, e);
    forall i, j | 0 <= i < j < |t|
      ensures Before(t[i].data, t[j].data)
    {
      InsertedAt(s, e, i);
      InsertedAt(s, e, j);
      assert i < k ==> s[i] in s;
      assert j > k ==> s[j - 1] in s;
    }
  }

  lemma InsertedAt<T>(s: seq<Entry<T>>, e: Entry<T>, i: nat)
    requires i <= |s|
    ensures var k := Place(s, e.priority, 0);
            && |Inserted(s, e)| == |s| + 1
            && Inserted(s, e)[i] == if i < k then s[i] else if i == k then e else s[i - 1]
  {
  }

  lemma InsertMembers<T>(s: seq<Entry<T>>, e: Entry<T>, x: Entry<T>)
    ensures x in Inserted(s, e) <==> x == e || x in s
  {
    var k := Place(s, e.priority, 0);
    assert s == s[..k] + s[k..];
  }

  lemma RegisterInv(c: Clock, delay: int, thread: nat)
    requires Inv(c) && Due(delay) >= 1
    ensures Inv(Registered(c, delay, thread))
  {
    hide Due;
    var a, c' := NewAlarm(c, delay, thread), Registered(c, delay, thread);
    var e := Entry(a, a.end);
    forall x | x in c.pending
      ensures x.priority == x.data.end && x.data.number < a.number
    {
      assert PendingOk(c, x);
    }
    InsertOrder(c.pending, e);
    hide Inserted, PendingOrder, FiredOrder;
    forall x | x in c'.pending
      ensures PendingOk(c', x)
    {
      InsertMembers(c.pending, e, x);
      assert x != e ==> PendingOk(c, x);
    }
    forall f | f in c'.fired
      ensures FiringOk(c', f)
    {
      assert FiringOk(c, f);
    }
    forall i | 0 <= i < |c'.made|
      ensures c'.made[i].number == i && Accounted(c', c'.made[i])
    {
      assert i < |c.made| ==> Accounted(c, c.made[i]);
      InsertMembers(c.pending, e, Entry(c'.made[i], c'.made[i].end));
    }
  }

  // ---------------------------------------------------------------- ticking

  lemma TickFires(c: Clock, e: Pending)
    requires Inv(c) && e in c.pending
    ensures if e.data.end == c.now + 1 then Firing(e.data, c.now + 1) in Ticked(c).fired else e in Ticked(c).pending
  {
    var k := Ready(c.pending, c.now + 1);
    var i :| 0 <= i < |c.pending| && c.pending[i] == e;
    if i < k {
      var f := Firings(c.pending[..k], c.now + 1);
      assert f[i] == Firing(e.data, c.now + 1);
      assert Ticked(c).fired[|c.fired| + i] == f[i];
    } else {
      assert c.pending[k..][i - k] == e;
      LateLater(c, i);
    }
  }

  /** What is not at the front is for a later tick. */
  lemma LateLater(c: Clock, i: nat)
    requires Inv(c) && Ready(c.pending, c.now + 1) <= i < |c.pending|
    ensures c.pending[i].data.end > c.now + 1
  {
    var k := Ready(c.pending, c.now + 1);
    assert PendingOk(c, c.pending[k]);
    assert k < i ==> Before(c.pending[k].data, c.pending[i].data);
  }

  lemma TickOrder(c: Clock)
    requires Inv(c)
    ensures PendingOrder(Ticked(c).pending) && FiredOrder(Ticked(c).fired)
  {
    var k, c' := Ready(c.pending, c.now + 1), Ticked(c);
    forall i, j | 0 <= i < j < |c'.pending|
      ensures Before(c'.pending[i].data, c'.pending[j].data)
    {
      assert Before(c.pending[k + i].data, c.pending[k + j].data);
    }
    forall i, j | 0 <= i < j < |c'.fired|
      ensures Before(c'.fired[i].alarm, c'.fired[j].alarm)
    {
      FiredFrom(c, i);
      FiredFrom(c, j);
    }
  }

  /** What a tick adds to the firings comes off the front of the queue. */
  lemma FiredFrom(c: Clock, i: nat)
    requires Inv(c) && i < |Ticked(c).fired|
    ensures var f := Ticked(c).fired[i];
            if i < |c.fired| then f == c.fired[i] && FiringOk(c, f)
            else i - |c.fired| < |c.pending| && f == Firing(c.pending[i - |c.fired|].data, c.now + 1)
                 && f.alarm.end == c.now + 1 && f.alarm in c.made
  {
    if i >= |c.fired| {
      assert PendingOk(c, c.pending[i - |c.fired|]);
    }
  }

  lemma TickPending(c: Clock, e: Pending)
    requires Inv(c) && e in Ticked(c).pending
    ensures PendingOk(Ticked(c), e)
  {
    var c', k := Ticked(c), Ready(c.pending, c.now + 1);
    var i :| 0 <= i < |c'.pending| && c'.pending[i] == e;
    LateLater(c, k + i);
    assert e == c.pending[k + i];
    assert PendingOk(c, e);
  }

  lemma TickFired(c: Clock, f: Firing)
    requires Inv(c) && f in Ticked(c).fired
    ensures FiringOk(Ticked(c), f)
  {
    var i :| 0 <= i < |Ticked(c).fired| && Ticked(c).fired[i] == f;
    FiredFrom(c, i);
  }

  lemma TickAccounted(c: Clock, a: Alarm)
    requires Inv(c) && Accounted(c, a)
    ensures Accounted(Ticked(c), a)
  {
    if a.end > c.now {
      TickFires(c, Entry(a, a.end));
    }
    hide Inv;
  }

  lemma TickInv(c: Clock)
    requires Inv(c)
    ensures Inv(Ticked(c))
  {
    hide PendingOk, FiringOk, Accounted, Drained, PendingOrder, FiredOrder;
    var c' := Ticked(c);
    TickOrder(c);
    forall e | e in c'.pending
      ensures PendingOk(c', e)
    {
      TickPending(c, e);
    }
    forall f | f in c'.fired
      ensures FiringOk(c', f)
    {
      TickFired(c, f);
    }
    forall i | 0 <= i < |c'.made|
      ensures c'.made[i].number == i && Accounted(c', c'.made[i])
    {
      TickAccounted(c, c.made[i]);
    }
  }

  // ---------------------------------------------------------------- runs

  ghost predicate IsRun(run: seq<Clock>, steps: seq<Step>) {
    && |run| == |steps| + 1
    && run[0].pending == [] && run[0].made == [] && run[0].fired == []
    && forall i | 0 <= i < |steps| :: run[i + 1] == Next(run[i], steps[i])
  }

  /** Every delay asked for is for a tick to come. */
  predicate Prompt(steps: seq<Step>) {
    forall i | 0 <= i < |steps| && steps[i].Register? :: Due(steps[i].delay) >= 1
  }

  lemma {:induction false} RunInv(run: seq<Clock>, steps: seq<Step>, i: nat)
    requires IsRun(run, steps) && Prompt(steps) && i < |run|
    ensures Inv(run[i])
  {
    hide Due, Inv;
    if i == 0 {
      EmptyInv(run[0]);
    } else {
      RunInv(run, steps, i - 1);
      match steps[i - 1]
      case Register(delay, thread) => RegisterInv(run[i - 1], delay, thread);
      case Tick => TickInv(run[i - 1]);
    }
  }

  lemma EmptyInv(c: Clock)
    requires c.pending == [] && c.made == [] && c.fired == []
    ensures Inv(c)
  {
  }

  lemma {:induction false} MadeGrows(run: seq<Clock>, steps: seq<Step>, j: nat, i: nat)
    requires IsRun(run, steps) && j <= i < |run|
    ensures run[j].made <= run[i].made && run[j].now <= run[i].now
  {
    hide Inserted, Ready;
    if j < i {
      MadeGrows(run, steps, j, i - 1);
    }
  }

  predicate FiredAt(c: Clock, k: nat, a: Alarm) {
    k < |c.fired| && c.fired[k].alarm == a
  }

  lemma FiredOnce(fired: seq<Firing>, k: nat, m: nat)
    requires FiredOrder(fired) && k < m < |fired|
    ensures fired[k].alarm != fired[m].alarm
  {
    assert Before(fired[k].alarm, fired[m].alarm);
  }

  /** An alarm goes off once, on the tick that its delay rounds up to, and not before. */
  lemma FiresOnTime(run: seq<Clock>, steps: seq<Step>, j: nat, i: nat)
    requires IsRun(run, steps) && Prompt(steps) && j < i < |run| && steps[j].Register?
    ensures var a := Alarm(|run[j].made|, run[j].now + Due(steps[j].delay), steps[j].thread);
            && ((exists k: nat :: FiredAt(run[i], k, a)) <==> run[i].now >= a.end)
            && (forall k: nat :: FiredAt(run[i], k, a) ==> run[i].fired[k].at == a.end)
            && (forall k: nat, m: nat :: FiredAt(run[i], k, a) && FiredAt(run[i], m, a) ==> k == m)
  {
    hide Due;
    var a := NewAlarm(run[j], steps[j].delay, steps[j].thread);
    RunInv(run, steps, i);
    MadeGrows(run, steps, j + 1, i);
    hide IsRun;
    var c := run[i];
    assert c.made[|run[j].made|] == a;
    assert Accounted(c, a);
    if c.now >= a.end {
      var k: nat :| k < |c.fired| && c.fired[k] == Firing(a, a.end);
      assert FiredAt(c, k, a);
    }
    forall k: nat | FiredAt(c, k, a)
      ensures c.fired[k].at == a.end <= c.now
    {
      assert FiringOk(c, c.fired[k]);
    }
    forall k: nat, m: nat | FiredAt(c, k, a) && FiredAt(c, m, a)
      ensures k == m
    {
      if k < m {
        FiredOnce(c.fired, k, m);
      } else if m < k {
        FiredOnce(c.fired, m, k);
      }
    }
  }

  /** Alarms go off in the order of their ticks, those of one tick in the order of registration; and no
      alarm left waiting is overdue. */
  lemma FiresInOrder(run: seq<Clock>, steps: seq<Step>, i: nat)
    requires IsRun(run, steps) && Prompt(steps) && i < |run|
    ensures FiredOrder(run[i].fired) && forall e | e in run[i].pending :: e.data.end > run[i].now
  {
    RunInv(run, steps, i);
    forall e | e in run[i].pending
      ensures e.data.end > run[i].now
    {
      assert PendingOk(run[i], e);
    }
  }

  // ---------------------------------------------------------------- delays that are not prompt

  /** The alarm at the front is for a tick that has passed. */
  predicate Stuck(c: Clock) {
    c.pending != [] && c.pending[0].data.end <= c.now && c.pending[0].priority == c.pending[0].data.end
  }

  /** A delay for no tick to come jams the queue, and no other delay does. */
  lemma JamsIff(c: Clock, delay: int, thread: nat)
    requires Inv(c)
    ensures Stuck(Registered(c, delay, thread)) <==> !(delay > 0 || -PERIOD < delay < 0)
    ensures Inv(Registered(c, delay, thread)) <==> delay > 0 || -PERIOD < delay < 0
  {
    DueRoundsUp(delay);
    hide Due;
    var a, c' := NewAlarm(c, delay, thread), Registered(c, delay, thread);
    InsertedAt(c.pending, Entry(a, a.end), 0);
    if c.pending != [] {
      assert PendingOk(c, c.pending[0]);
    }
    if Due(delay) >= 1 {
      RegisterInv(c, delay, thread);
      assert PendingOk(c', c'.pending[0]);
    } else {
      assert Stuck(c');
      assert !PendingOk(c', c'.pending[0]);
    }
  }

  lemma StuckStep(c: Clock, step: Step)
    requires Stuck(c)
    ensures Stuck(Next(c, step)) && Next(c, step).fired == c.fired
  {
    match step
    case Register(delay, thread) =>
      var a := NewAlarm(c, delay, thread);
      InsertedAt(c.pending, Entry(a, a.end), 0);
    case Tick =>
  }

  /** Behind such an alarm no alarm ever goes off again. */
  lemma {:induction false} StuckForever(run: seq<Clock>, steps: seq<Step>, j: nat, i: nat)
    requires IsRun(run, steps) && j <= i < |run| && Stuck(run[j])
    ensures Stuck(run[i]) && run[i].fired == run[j].fired
  {
    hide Next, Stuck;
    if j < i {
      StuckForever(run, steps, j, i - 1);
      StuckStep(run[i - 1], steps[i - 1]);
    }
  }

  // ---------------------------------------------------------------- the code

  lemma DrainOne(pending: seq<Pending>, fired: seq<Firing>, now: int)
    requires pending != [] && pending[0].data.end == now
    ensures Drained(pending[1..], fired + [Firing(pending[0].data, now)], now) == Drained(pending, fired, now)
  {
    var k := Ready(pending, now);
    var rest := pending[1..];
    assert pending[..k][1..] == rest[..k - 1] && rest[k - 1..] == pending[k..];
    var first := Firing(pending[0].data, now);
    assert fired + [first] + Firings(rest[..k - 1], now) == fired + ([first] + Firings(rest[..k - 1], now));
  }

  /** The threads of the firings from position `k` on. */
  predicate WakesFor(fired: seq<Firing>, k: nat, woken: seq<nat>) {
    |fired| == k + |woken| && forall i | 0 <= i < |woken| :: woken[i] == fired[k + i].alarm.thread
  }

  class AlarmSystem {
    const queue: Queue<Alarm>
    var nInterrupts: int
    ghost var made: seq<Alarm>
    ghost var fired: seq<Firing>

    ghost predicate Valid()
      reads this, queue, queue.spine
    {
      queue.Valid()
      && forall i | 0 <= i < |queue.Contents()| :: queue.Contents()[i].priority == queue.Contents()[i].data.end
    }

    ghost function Abstract(): Clock
      reads this, queue
    {
      Clock(nInterrupts, queue.Contents(), made, fired)
    }

    constructor ()
      ensures Valid() && Abstract() == Clock(0, [], [], [])
      ensures fresh(queue)
    {
      nInterrupts, made, fired := 0, [], [];
      queue := new Queue<Alarm>();
    }

    method RegisterAlarm(delay: int, number: nat, thread: nat) returns (a: Alarm)
      requires Valid() && number == |made|
      modifies this, queue, queue.spine
      ensures Valid() && Abstract() == Registered(old(Abstract()), delay, thread) && a == made[|made| - 1]
    {
      var del := Truncated(delay);
      if delay - PERIOD * del != 0 {
        del := del + 1;
      }
      a := Alarm(number, nInterrupts + del, thread);
      ghost var e := Entry(a, a.end);
      ghost var was := queue.Contents();
      queue.InsertSorted(a, a.end);
      made := made + [a];
      forall i | 0 <= i < |queue.Contents()|
        ensures queue.Contents()[i].priority == queue.Contents()[i].data.end
      {
        InsertedAt(was, e, i);
      }
    }

    /** The alarm at the front, if it is set to exactly this tick. */
    method GetNextAlarm() returns (next: seq<Alarm>)
      requires Valid()
      ensures next == if queue.Contents() != [] && queue.Contents()[0].data.end == nInterrupts
                      then [queue.Contents()[0].data] else []
    {
      next := queue.Front();
      if next != [] && next[0].end != nInterrupts {
        next := [];
      }
    }

    /** The alarm at the front goes off and is taken out of the queue. */
    method FireFront(next: Alarm) returns (thread: nat)
      requires Valid() && queue.Contents() != [] && queue.Contents()[0].data == next
      modifies this`fired, queue
      ensures Valid() && queue.spine == old(queue.spine)[1..] && queue.Contents() == old(queue.Contents())[1..]
      ensures thread == next.thread && fired == old(fired) + [Firing(next, nInterrupts)]
    {
      thread := next.thread;
      fired := fired + [Firing(next, nInterrupts)];
      var ok := queue.Delete(next);
      assert queue.Contents() == old(queue.Contents())[1..];
      assert forall i | 0 <= i < |queue.Contents()| :: queue.Contents()[i] == old(queue.Contents())[i + 1];
    }

    /** A clock interrupt: the alarms that are due go off one by one. */
    method ClockTick() returns (woken: seq<nat>)
      requires Valid()
      modifies this, queue
      ensures Valid() && Abstract() == Ticked(old(Abstract())) && WakesFor(fired, |old(fired)|, woken)
    {
      hide Firings, Ready, Drained;
      nInterrupts := nInterrupts + 1;
      ghost var all := Drained(queue.Contents(), fired, nInterrupts);
      woken := [];
      var next := GetNextAlarm();
      while next != []
        invariant Valid() && nInterrupts == old(nInterrupts) + 1 && made == old(made)
        invariant next == if queue.Contents() != [] && queue.Contents()[0].data.end == nInterrupts
                          then [queue.Contents()[0].data] else []
        invariant Drained(queue.Contents(), fired, nInterrupts) == all && WakesFor(fired, |old(fired)|, woken)
        decreases |queue.spine|
      {
        DrainOne(queue.Contents(), fired, nInterrupts);
        var thread := FireFront(next[0]);
        woken := woken + [thread];
        next := GetNextAlarm();
      }
      NothingDue(queue.Contents(), fired, nInterrupts);
    }
  }

  lemma NothingDue(pending: seq<Pending>, fired: seq<Firing>, now: int)
    requires pending == [] || pending[0].data.end != now
    ensures Drained(pending, fired, now) == (pending, fired)
  {
    assert pending[..0] == [] && pending[0..] == pending && fired + [] == fired;
  }
}
