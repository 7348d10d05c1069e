/** Flooding stops: once nodes no longer originate gossip, only finitely many deliveries follow. */
module FloodingEnd {
  import opened Division
  import opened Flooding
  import opened FloodingProof

  /** How far node x's records are behind the first `k` sources, all numbers together. */
  function Behind(net: Net, x: nat, k: nat): int
    requires Shape(net) && x < net.n && k <= net.n
  {
    if k == 0 then 0 else Behind(net, x, k - 1) + |net.said[k - 1]| - StoredCounter(net, x, k - 1)
  }

  /** The same over the first `j` nodes. */
  function AllBehind(net: Net, j: nat): int
    requires Shape(net) && j <= net.n
  {
    if j == 0 then 0 else AllBehind(net, j - 1) + Behind(net, j - 1, net.n)
  }

  lemma {:induction false} BehindNatural(net: Net, x: nat, k: nat)
    requires Shape(net) && RecordsTrue(net) && x < net.n && k <= net.n
    ensures Behind(net, x, k) >= 0
  {
    if k > 0 {
      BehindNatural(net, x, k - 1);
      CountersNatural(net, x, k - 1);
    }
  }

  lemma {:induction false} AllBehindNatural(net: Net, j: nat)
    requires Shape(net) && RecordsTrue(net) && j <= net.n
    ensures AllBehind(net, j) >= 0
  {
    if j > 0 {
      AllBehindNatural(net, j - 1);
      BehindNatural(net, j - 1, net.n);
    }
  }

  /** Every delivery still possible is paid for: storing news costs less than what it saves. */
  function Work(net: Net): nat
    requires Inv(net)
  {
    AllBehindNatural(net, net.n);
    Times(AllBehind(net, net.n), net.n + 1) + |net.flight|
  }

  /** Nobody has said anything new from `net` to `net'` and no record has got older. */
  ghost predicate Later(net: Net, net': Net) {
    && Shape(net) && Shape(net') && net.n == net'.n && net.said == net'.said
    && forall x: nat, s: nat | x < net.n && s < net.n :: StoredCounter(net, x, s) <= StoredCounter(net', x, s)
  }

  lemma {:induction false} BehindLess(net: Net, net': Net, x: nat, k: nat, s: nat)
    requires Later(net, net') && x < net.n && k <= net.n
    ensures Behind(net', x, k) <= Behind(net, x, k)
    ensures s < k && StoredCounter(net, x, s) < StoredCounter(net', x, s) ==> Behind(net', x, k) < Behind(net, x, k)
  {
    if k > 0 {
      BehindLess(net, net', x, k - 1, s);
    }
  }

  lemma {:induction false} AllBehindLess(net: Net, net': Net, j: nat, x: nat, s: nat)
    requires Later(net, net') && j <= net.n && x < net.n && s < net.n
    ensures AllBehind(net', j) <= AllBehind(net, j)
    ensures x < j && StoredCounter(net, x, s) < StoredCounter(net', x, s) ==> AllBehind(net', j) < AllBehind(net, j)
  {
    if j > 0 {
      AllBehindLess(net, net', j - 1, x, s);
      BehindLess(net, net', j - 1, net.n, s);
    }
  }

  lemma PaidFor(before: nat, after: nat, flight: nat, flight': nat, n: nat)
    requires (after <= before && flight' < flight) || (after < before && flight' < flight + n)
    ensures Times(after, n + 1) + flight' < Times(before, n + 1) + flight
  {
    if after < before {
      TimesMonotone(after + 1, before, n + 1);
    }
  }

  lemma WorkLess(net: Net, net': Net)
    requires Inv(net) && Inv(net') && net.n == net'.n
    requires var before, after := AllBehind(net, net.n), AllBehind(net', net.n);
             || (after <= before && |net'.flight| < |net.flight|)
             || (after < before && |net'.flight| < |net.flight| + net.n)
    ensures Work(net') < Work(net)
  {
    AllBehindNatural(net', net.n);
    AllBehindNatural(net, net.n);
    hide RecordsTrue, SendersKnow, LinksTold, HellosWait, Times, AllBehind;
    PaidFor(AllBehind(net, net.n), AllBehind(net', net.n), |net.flight|, |net'.flight|, net.n);
  }

  lemma DeliveryWorks(net: Net, m: Message)
    requires Inv(net) && Enabled(net, DeliverGossip(m))
    ensures Inv(Next(net, DeliverGossip(m))) && Work(Next(net, DeliverGossip(m))) < Work(net)
  {
    var net' := Handled(net, m);
    GossipInv(net, m);
    HandledCounters(net, m);
    HandledParts(net, m);
    hide Inv;
    assert Later(net, net');
    AllBehindLess(net, net', net.n, m.to, m.rec.src);
    assert |Take(net, m).flight| == |net.flight| - 1;
    if net' != Take(net, m) {
      NewsIsMore(net, m);
    }
    WorkLess(net, net');
  }

  /** Gossip that is kept has a higher number than what was kept before. */
  lemma NewsIsMore(net: Net, m: Message)
    requires Inv(net) && Enabled(net, DeliverGossip(m)) && Handled(net, m) != Take(net, m)
    ensures var net' := Handled(net, m);
            && Shape(net')
            && StoredCounter(net', m.to, m.rec.src) > StoredCounter(net, m.to, m.rec.src)
            && |net'.flight| <= |net.flight| - 1 + net.n
  {
    assert Truthful(net, m.rec);
    var out := Broadcast(m.to, m.rec, net.peers[m.to] - {m.from}, net.n);
    assert Handled(net, m).flight == Take(net, m).flight + out;
  }

  /** From any state a run can reach, a run of gossip deliveries alone is no longer than its work. */
  lemma {:induction false} DeliveriesEnd(run: seq<Net>, steps: seq<Step>)
    requires IsRun(run, steps) && Inv(run[0]) && forall i | 0 <= i < |steps| :: steps[i].DeliverGossip?
    ensures |steps| <= Work(run[0])
  {
    if |steps| > 0 {
      DeliveryWorks(run[0], steps[0].m);
      var run', steps' := run[1..], steps[1..];
      forall i | 0 <= i < |steps'|
        ensures Enabled(run'[i], steps'[i]) && run'[i + 1] == Next(run'[i], steps'[i])
      {
        assert Enabled(run[i + 1], steps[i + 1]) && run[i + 2] == Next(run[i + 1], steps[i + 1]);
      }
      DeliveriesEnd(run', steps');
    }
  }
}
