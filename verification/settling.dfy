/** A network always settles: with every connection open at both ends, delivering what is in flight comes to an
    end, in whatever order it is done, and never gets stuck on the way. */
module Settling {
  import opened GossipTable
  import opened Flooding
  import opened FloodingProof
  import opened FloodingEnd
  import opened Convergence

  function One(b: bool): nat {
    if b then 1 else 0
  }

  /** y says hello to x once, when it gets the connection, and then x has met y. */
  predicate HelloOnce(net: Net, y: nat, x: nat)
    requires Shape(net) && x < net.n && y < net.n
  {
    net.flight[Hello(y, x)] + One(y in net.met[x]) <= One(x in net.peers[y])
  }

  ghost predicate Once(net: Net)
    requires Shape(net)
  {
    forall x: nat, y: nat | x < net.n && y < net.n :: HelloOnce(net, y, x)
  }

  /** What matters for hellos: those in flight, the nodes met and the connections. */
  lemma OnceSame(net: Net, net': Net, x: nat, y: nat)
    requires Shape(net) && Shape(net') && net'.n == net.n && x < net.n && y < net.n && HelloOnce(net, y, x)
    requires net'.flight[Hello(y, x)] == net.flight[Hello(y, x)] && net'.met[x] == net.met[x]
    requires net'.peers[y] == net.peers[y]
    ensures HelloOnce(net', y, x)
  {
  }

  lemma OpenOnce(net: Net, a: nat, b: nat, how: How, x: nat, y: nat)
    requires Shape(net) && Enabled(net, OpenLink(a, b, how)) && x < net.n && y < net.n && HelloOnce(net, y, x)
    ensures var net' := Next(net, OpenLink(a, b, how)); Shape(net') && HelloOnce(net', y, x)
  {
    assert Hello(y, x) !in AllRecords(a, b, net.known[a], net.n);
    hide AllRecords;
  }

  lemma GossipOnce(net: Net, m: Message, x: nat, y: nat)
    requires Shape(net) && Enabled(net, DeliverGossip(m)) && x < net.n && y < net.n && HelloOnce(net, y, x)
    ensures Shape(Handled(net, m)) && HelloOnce(Handled(net, m), y, x)
  {
    HandledParts(net, m);
    HandledNames(net, m);
    HandledHellos(net, m, x, y);
    hide Handled, News;
    OnceSame(net, Handled(net, m), x, y);
  }

  lemma HandledHellos(net: Net, m: Message, x: nat, y: nat)
    requires Shape(net) && Enabled(net, DeliverGossip(m))
    ensures Handled(net, m).flight[Hello(y, x)] == net.flight[Hello(y, x)]
  {
    assert Hello(y, x) !in Broadcast(m.to, m.rec, net.peers[m.to] - {m.from}, net.n);
    hide Broadcast, Listed;
  }

  lemma SpeakOnce(net: Net, a: nat, payload: seq<Address>, x: nat, y: nat)
    requires Shape(net) && a < net.n && x < net.n && y < net.n && HelloOnce(net, y, x)
    ensures var net' := Originate(net, a, payload); Shape(net') && HelloOnce(net', y, x)
  {
    var said := net.said[a] + [payload];
    assert Hello(y, x) !in Broadcast(a, Record(a, |said|, payload), net.peers[a], net.n);
    hide Broadcast;
    OnceSame(net, Originate(net, a, payload), x, y);
  }

  lemma HearOnce(net: Net, m: Message, payload: seq<Address>, x: nat, y: nat)
    requires Shape(net) && Enabled(net, DeliverHello(m, payload)) && m.from < net.n
    requires x < net.n && y < net.n && HelloOnce(net, y, x)
    ensures var net' := Next(net, DeliverHello(m, payload)); Shape(net') && HelloOnce(net', y, x)
  {
    var said := net.said[m.to] + [payload];
    assert Hello(y, x) !in Broadcast(m.to, Record(m.to, |said|, payload), net.peers[m.to], net.n);
    hide Broadcast, Listed;
  }

  lemma HelloInRange(net: Net, m: Message)
    requires Inv(net) && m in net.flight
    ensures m.from < net.n
  {
    hide RecordsTrue, LinksTold, HellosWait;
  }

  lemma StepOncePair(net: Net, step: Step, x: nat, y: nat)
    requires Inv(net) && Enabled(net, step) && x < net.n && y < net.n && HelloOnce(net, y, x)
    ensures var net' := Next(net, step); Shape(net') && net'.n == net.n && HelloOnce(net', y, x)
  {
    StepNodes(net, step);
    hide RecordsTrue, LinksTold, HellosWait, SendersKnow, HandleGossip, Originate, Open, Hear, HelloOnce;
    match step
    case OpenLink(a, b, how) => OpenOnce(net, a, b, how, x, y);
    case Speak(a, payload) => SpeakOnce(net, a, payload, x, y);
    case DeliverGossip(m) => GossipOnce(net, m, x, y);
    case DeliverHello(m, payload) =>
      HelloInRange(net, m);
      HearOnce(net, m, payload, x, y);
  }

  lemma StepOnce(net: Net, step: Step)
    requires Inv(net) && Once(net) && Enabled(net, step)
    ensures Shape(Next(net, step)) && Next(net, step).n == net.n && Once(Next(net, step))
  {
    NextInv(net, step);
    StepNodes(net, step);
    hide RecordsTrue, LinksTold, HellosWait, SendersKnow, Next, Enabled, HelloOnce;
    forall x: nat, y: nat | x < net.n && y < net.n
      ensures HelloOnce(Next(net, step), y, x)
    {
      StepOncePair(net, step, x, y);
    }
  }

  lemma StepNodes(net: Net, step: Step)
    requires Shape(net) && Enabled(net, step)
    ensures Next(net, step).n == net.n
  {
    hide Broadcast, AllRecords, Listed;
  }

  lemma {:induction false} RunOnce(run: seq<Net>, steps: seq<Step>, i: nat)
    requires IsRun(run, steps) && Start(run[0]) && i < |run|
    ensures Once(run[i])
  {
    hide Next, Enabled, Inv, Once;
    if i == 0 {
      StartOnce(run[0]);
    } else {
      RunOnce(run, steps, i - 1);
      RunInv(run, steps, i - 1);
      StepOnce(run[i - 1], steps[i - 1]);
    }
  }

  lemma StartOnce(net: Net)
    requires Start(net)
    ensures Once(net)
  {
    forall x: nat, y: nat | x < net.n && y < net.n
      ensures HelloOnce(net, y, x)
    {
      assert Blank(net, x) && Blank(net, y);
    }
  }

  // ---------------------------------------------------------------- progress

  /** Peers not met yet, over the first `k` nodes. */
  function Unmet(net: Net, k: nat): nat
    requires Shape(net) && k <= net.n
  {
    if k == 0 then 0 else Unmet(net, k - 1) + |net.peers[k - 1] - net.met[k - 1]|
  }

  lemma {:induction false} UnmetSame(net: Net, net': Net, k: nat)
    requires Shape(net) && Shape(net') && net'.n == net.n && k <= net.n
    requires net'.peers == net.peers && net'.met == net.met
    ensures Unmet(net', k) == Unmet(net, k)
  {
    if k > 0 {
      UnmetSame(net, net', k - 1);
    }
  }

  lemma {:induction false} UnmetLess(net: Net, net': Net, x: nat, y: nat, k: nat)
    requires Shape(net) && Shape(net') && net'.n == net.n && net'.peers == net.peers && k <= net.n && x < net.n
    requires y in net.peers[x] && y !in net.met[x] && net'.met == net.met[x := net.met[x] + {y}]
    ensures Unmet(net', k) == Unmet(net, k) - One(x < k)
  {
    if k > 0 {
      UnmetLess(net, net', x, y, k - 1);
      if x == k - 1 {
        assert net.peers[x] - net.met[x] == (net'.peers[x] - net'.met[x]) + {y};
      }
    }
  }

  /** Every connection is open at both ends. */
  ghost predicate Symmetric(net: Net)
    requires Shape(net)
  {
    forall x: nat, y: nat | x < net.n && y in net.peers[x] :: x in net.peers[y]
  }

  predicate Delivers(step: Step) {
    step.DeliverGossip? || step.DeliverHello?
  }

  lemma DeliveryKeeps(net: Net, step: Step)
    requires Shape(net) && Enabled(net, step) && Delivers(step)
    ensures Next(net, step).n == net.n && Next(net, step).peers == net.peers
  {
    hide Broadcast, Listed;
  }

  /** With connections open at both ends whatever is in flight can be delivered. */
  lemma Deliverable(net: Net, m: Message, payload: seq<Address>)
    requires Inv(net) && Symmetric(net) && m in net.flight
    ensures m.Gossip? ==> Enabled(net, DeliverGossip(m))
    ensures m.Hello? ==> Enabled(net, DeliverHello(m, payload)) && m.from < net.n
  {
    hide LinksTold, HellosWait;
    assert m.from < net.n && m.to in net.peers[m.from];
    if m.Gossip? {
      assert Truthful(net, m.rec);
    }
  }

  /** Every delivery is progress: a hello lowers the number of peers not met, gossip leaves that and lowers the
      work that the nodes' records still make. */
  lemma DeliveryProgress(net: Net, step: Step)
    requires Inv(net) && Once(net) && Enabled(net, step) && Delivers(step)
    ensures var net' := Next(net, step);
            && Inv(net') && net'.n == net.n
            && (Unmet(net', net.n) < Unmet(net, net.n)
                || (Unmet(net', net.n) == Unmet(net, net.n) && Work(net') < Work(net)))
  {
    NextInv(net, step);
    DeliveryKeeps(net, step);
    if step.DeliverGossip? {
      var m := step.m;
      DeliveryWorks(net, m);
      HandledNames(net, m);
      hide Inv, Handled, News, HandleGossip;
      UnmetSame(net, Next(net, step), net.n);
    } else {
      HelloProgress(net, step.m, step.payload);
    }
  }

  lemma HelloProgress(net: Net, m: Message, payload: seq<Address>)
    requires Inv(net) && Once(net) && Enabled(net, DeliverHello(m, payload))
    ensures var net' := Next(net, DeliverHello(m, payload));
            Shape(net') && net'.n == net.n && Unmet(net', net.n) < Unmet(net, net.n)
  {
    hide RecordsTrue, LinksTold, HellosWait, Broadcast, Listed;
    assert m.from < net.n && HelloOnce(net, m.from, m.to);
    UnmetLess(net, Next(net, DeliverHello(m, payload)), m.to, m.from, net.n);
  }

  // ---------------------------------------------------------------- settling

  /** A list of these addresses. */
  lemma {:induction false} InSomeOrder(addresses: set<Address>) returns (payload: seq<Address>)
    ensures Members(payload) == addresses
  {
    if addresses == {} {
      payload := [];
    } else {
      var a :| a in addresses;
      var rest := InSomeOrder(addresses - {a});
      payload := [a] + rest;
      assert Members(payload) == {a} + Members(rest);
    }
  }

  /** Some honest delivery of what is in flight. */
  lemma NextDelivery(net: Net) returns (step: Step)
    requires Inv(net) && Symmetric(net) && net.flight != multiset{}
    ensures Enabled(net, step) && Honest(net, step) && Delivers(step)
  {
    var m :| m in net.flight;
    Deliverable(net, m, []);
    if m.Gossip? {
      step := DeliverGossip(m);
    } else {
      var payload := InSomeOrder(Listed(Hear(net, m.to, m.from), m.to));
      step := DeliverHello(m, payload);
    }
  }

  /** Honest deliveries that lead from `net` to a state with nothing in flight. */
  ghost predicate Settles(net: Net, run: seq<Net>, steps: seq<Step>)
    requires Shape(net)
  {
    && IsRun(run, steps) && run[0] == net && run[|steps|].peers == net.peers && Quiet(run[|steps|])
    && forall i | 0 <= i < |steps| :: Delivers(steps[i]) && Honest(run[i], steps[i])
  }

  lemma RunAfter(net: Net, step: Step, run: seq<Net>, steps: seq<Step>)
    requires Shape(net) && Enabled(net, step) && Honest(net, step) && Delivers(step)
    requires Shape(Next(net, step)) && Next(net, step).peers == net.peers && Settles(Next(net, step), run, steps)
    ensures Settles(net, [net] + run, [step] + steps)
  {
    var r, s := [net] + run, [step] + steps;
    hide Next, Enabled, Honest;
    forall i | 0 <= i < |s|
      ensures Enabled(r[i], s[i]) && r[i + 1] == Next(r[i], s[i]) && Delivers(s[i]) && Honest(r[i], s[i])
    {
      if i > 0 {
        assert Enabled(run[i - 1], steps[i - 1]) && run[i] == Next(run[i - 1], steps[i - 1]);
      }
    }
  }

  /** What is in flight can always be delivered to the end. */
  lemma {:induction false} Settle(net: Net) returns (run: seq<Net>, steps: seq<Step>)
    requires Inv(net) && Once(net) && Symmetric(net)
    ensures Settles(net, run, steps)
    decreases Unmet(net, net.n), Work(net)
  {
    hide Next, Enabled, Honest, Unmet, Work, RecordsTrue, SendersKnow, LinksTold, HellosWait;
    if net.flight == multiset{} {
      run, steps := [net], [];
    } else {
      var step := NextDelivery(net);
      StepOnce(net, step);
      DeliveryKeeps(net, step);
      DeliveryProgress(net, step);
      var run', steps' := Settle(Next(net, step));
      RunAfter(net, step, run', steps');
      run, steps := [net] + run', [step] + steps';
    }
  }

  /** Every honest run that leaves the connections open at both ends goes on to a settled network with the same
      connections. */
  lemma RunSettles(run: seq<Net>, steps: seq<Step>) returns (run': seq<Net>, steps': seq<Step>)
    requires HonestRun(run, steps) && Symmetric(run[|steps|])
    ensures HonestRun(run', steps') && |steps| <= |steps'| && run'[..|steps|] == run[..|steps|]
    ensures steps'[..|steps|] == steps
    ensures run'[|steps|..] != [] && Settles(run[|steps|], run'[|steps|..], steps'[|steps|..])
  {
    var k := |steps|;
    RunInv(run, steps, k);
    RunOnce(run, steps, k);
    var more, moves := Settle(run[k]);
    run', steps' := run[..k] + more, steps + moves;
    hide Next, Enabled, Honest, Start, Inv, Once, Symmetric;
    RunJoined(run, steps, more, moves);
    assert run'[k..] == more && steps'[k..] == moves && run'[..k] == run[..k];
  }

  lemma RunJoined(run: seq<Net>, steps: seq<Step>, more: seq<Net>, moves: seq<Step>)
    requires HonestRun(run, steps) && Settles(run[|steps|], more, moves)
    ensures HonestRun(run[..|steps|] + more, steps + moves)
  {
    var k := |steps|;
    var run', steps' := run[..k] + more, steps + moves;
    hide Next, Enabled, Honest, Start, Quiet;
    forall i | 0 <= i < |run'|
      ensures Shape(run'[i])
    {
    }
    assert run'[0] == run[0];
    forall i | 0 <= i < |steps'|
      ensures Enabled(run'[i], steps'[i]) && run'[i + 1] == Next(run'[i], steps'[i]) && Honest(run'[i], steps'[i])
    {
      if i < k {
        assert run'[i] == run[i] && run'[i + 1] == run[i + 1];
      } else {
        assert run'[i] == more[i - k] && steps'[i] == moves[i - k] && run'[i + 1] == more[i - k + 1];
      }
    }
  }
}
