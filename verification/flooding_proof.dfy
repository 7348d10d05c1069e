/** Flooding keeps its invariant, and what that means once no message is in flight. */
module FloodingProof {
  import opened GossipTable
  import opened Flooding

  lemma CountersNatural(net: Net, x: nat, s: nat)
    requires Shape(net) && RecordsTrue(net) && x < net.n && s < net.n
    ensures 0 <= StoredCounter(net, x, s) <= |net.said[s]| && 0 <= Counter(net, x, s) <= |net.said[s]|
  {
  }

  // ---------------------------------------------------------------- opening a link

  lemma OpenMessage(net: Net, x: nat, y: nat, m: Message)
    requires Inv(net) && x < net.n && y < net.n && x != y && m in Open(net, x, y).flight
    ensures m in net.flight || m == Hello(x, y) || (m.Gossip? && m.from == x && m.to == y && m.rec.src in net.known[x]
                                                    && m.rec == net.known[x][m.rec.src])
  {
    hide LinksTold, HellosWait, SendersKnow;
    if m !in net.flight && m.Gossip? {
      var s: nat :| s < net.n && s in net.known[x] && m.rec == net.known[x][s];
      assert net.known[x][s].src == s;
    }
  }

  lemma OpenKnows(net: Net, x: nat, y: nat, m: Message)
    requires Inv(net) && x < net.n && y < net.n && x != y && m in Open(net, x, y).flight && Shape(Open(net, x, y))
    ensures m.from < net.n && m.to in Open(net, x, y).peers[m.from]
    ensures m.Gossip? ==> Truthful(net, m.rec) && Counter(Open(net, x, y), m.from, m.rec.src) >= m.rec.counter
  {
    hide LinksTold, HellosWait;
    OpenMessage(net, x, y, m);
  }

  lemma OpenTrue(net: Net, x: nat, y: nat)
    requires Inv(net) && x < net.n && y < net.n && x != y
    ensures Shape(Open(net, x, y)) && RecordsTrue(Open(net, x, y)) && SendersKnow(Open(net, x, y))
  {
    hide LinksTold, HellosWait, AllRecords, Counter;
    var net' := Open(net, x, y);
    forall m | m in net'.flight
      ensures m.Gossip? ==> Truthful(net', m.rec)
      ensures m.from < net.n && m.to in net'.peers[m.from]
      ensures m.Gossip? ==> m.rec.src < net.n && Counter(net', m.from, m.rec.src) >= m.rec.counter
    {
      OpenKnows(net, x, y, m);
    }
  }

  lemma OpenTells(net: Net, x: nat, y: nat, s: nat)
    requires Shape(net) && RecordsTrue(net) && HellosWait(net)
    requires x < net.n && y < net.n && x != y && y !in net.peers[x] && s < net.n && Shape(Open(net, x, y))
    ensures Told(Open(net, x, y), x, y, s)
  {
    var net' := Open(net, x, y);
    CountersNatural(net, y, s);
    if s != x && s in net.known[x] {
      var m := Gossip(x, y, net.known[x][s]);
      assert m in net'.flight;
      assert UnderWay(net', x, y, s);
    }
  }

  lemma OpenKeepsTold(net: Net, x: nat, y: nat, a: nat, b: nat, s: nat)
    requires Shape(net) && x < net.n && y < net.n && x != y && y !in net.peers[x] && Shape(Open(net, x, y))
    requires HellosWait(net) && a < net.n && b < net.n && s < net.n && Told(net, a, b, s)
    ensures Told(Open(net, x, y), a, b, s)
  {
    hide AllRecords;
    if UnderWay(net, a, b, s) {
      StillUnderWay(net, Open(net, x, y), a, b, s);
    }
  }

  lemma OpenTold(net: Net, x: nat, y: nat)
    requires Inv(net) && x < net.n && y < net.n && x != y && y !in net.peers[x] && Shape(Open(net, x, y))
    ensures LinksTold(Open(net, x, y)) && HellosWait(Open(net, x, y))
  {
    hide Told, RecordsTrue, SendersKnow;
    var net' := Open(net, x, y);
    forall a: nat, b: nat, s: nat | a < net.n && b in net'.peers[a] && s < net.n
      ensures Told(net', a, b, s)
    {
      if a == x && b == y {
        OpenTells(net, x, y, s);
      } else {
        OpenKeepsTold(net, x, y, a, b, s);
      }
    }
  }

  lemma StillUnderWay(net: Net, net': Net, a: nat, b: nat, s: nat)
    requires Shape(net) && Shape(net') && net.n == net'.n && a < net.n && s < net.n && UnderWay(net, a, b, s)
    requires net.flight <= net'.flight && Counter(net', a, s) == Counter(net, a, s)
    ensures UnderWay(net', a, b, s)
  {
    var m :| m in net.flight && m.Gossip? && m.from == a && m.to == b && m.rec.src == s
             && m.rec.counter >= Counter(net, a, s);
    assert m in net'.flight;
  }

  // ---------------------------------------------------------------- originating gossip

  /** Node x speaks, perhaps on a hello from y that is then no longer in flight. */
  lemma SpeakTrue(net: Net, x: nat, payload: seq<Address>)
    requires Shape(net) && RecordsTrue(net) && SendersKnow(net) && x < net.n
    ensures var net' := Originate(net, x, payload); Shape(net') && RecordsTrue(net') && SendersKnow(net')
  {
    var net' := Originate(net, x, payload);
    forall rec | Truthful(net, rec)
      ensures Truthful(net', rec)
    {
    }
    forall m | m in net'.flight
      ensures m.Gossip? ==> Truthful(net', m.rec)
      ensures m.from < net.n && m.to in net'.peers[m.from]
      ensures m.Gossip? ==> m.rec.src < net.n && Counter(net', m.from, m.rec.src) >= m.rec.counter
    {
    }
  }

  /** All links but the hello's are told; the one from x to the hello's sender is told by speaking. */
  lemma SpeakTold(net: Net, x: nat, payload: seq<Address>, y: nat)
    requires Shape(net) && RecordsTrue(net) && x < net.n && Shape(Originate(net, x, payload))
    requires forall a: nat, b: nat, s: nat | a < net.n && b in net.peers[a] && s < net.n ::
               (a == x && b == y && s == x) || Told(net, a, b, s)
    ensures LinksTold(Originate(net, x, payload))
  {
    var net' := Originate(net, x, payload);
    forall a: nat, b: nat, s: nat | a < net.n && b in net'.peers[a] && s < net.n
      ensures Told(net', a, b, s)
    {
      if a == x && s == x {
        var m := Gossip(x, b, Record(x, |net'.said[x]|, payload));
        assert m in net'.flight;
        assert UnderWay(net', x, b, x);
      } else {
        assert Told(net, a, b, s);
        if UnderWay(net, a, b, s) {
          StillUnderWay(net, net', a, b, s);
        }
      }
    }
  }

  lemma SpeakInv(net: Net, x: nat, payload: seq<Address>)
    requires Inv(net) && x < net.n
    ensures Inv(Originate(net, x, payload))
  {
    SpeakTrue(net, x, payload);
    SpeakTold(net, x, payload, x);
  }

  lemma HelloAnswered(net: Net, m: Message, payload: seq<Address>)
    requires Inv(net) && Enabled(net, DeliverHello(m, payload))
    ensures Inv(Originate(Take(net, m), m.to, payload))
  {
    hide Told;
    var x, y := m.to, m.from;
    var mid := Take(net, m);
    TakeTrue(net, m);
    forall a: nat, b: nat, s: nat | a < net.n && b in mid.peers[a] && s < net.n
      ensures (a == x && b == y && s == x) || Told(mid, a, b, s)
    {
      assert Told(net, a, b, s);
      TakeHelloTold(net, m, a, b, s);
    }
    SpeakTrue(mid, x, payload);
    SpeakTold(mid, x, payload, y);
    assert HellosWait(Originate(mid, x, payload));
  }

  lemma HelloInv(net: Net, m: Message, payload: seq<Address>)
    requires Inv(net) && Enabled(net, DeliverHello(m, payload))
    ensures Inv(Next(net, DeliverHello(m, payload)))
  {
    HelloAnswered(net, m, payload);
    HelloEnds(net, m);
    var spoken := Originate(Take(net, m), m.to, payload);
    hide RecordsTrue, SendersKnow, LinksTold, HellosWait, Originate, Hear, SameFlooding, Take;
    HeardSame(spoken, m.to, m.from);
    SameInv(spoken, Hear(spoken, m.to, m.from));
  }

  lemma HelloEnds(net: Net, m: Message)
    requires Inv(net) && m in net.flight
    ensures Shape(Take(net, m)) && m.from < net.n
  {
    hide RecordsTrue, LinksTold, HellosWait;
  }

  lemma HeardSame(net: Net, x: nat, y: nat)
    requires Shape(net) && x < net.n && y < net.n
    ensures SameFlooding(net, Hear(net, x, y))
  {
  }

  /** The two states differ at most in what the nodes have heard, met and seen. */
  predicate SameFlooding(net: Net, net': Net) {
    && Shape(net) && Shape(net') && net.n == net'.n && net.peers == net'.peers && net.known == net'.known
    && net.said == net'.said && net.flight == net'.flight
  }

  lemma SameTold(net: Net, net': Net, a: nat, b: nat, s: nat)
    requires SameFlooding(net, net') && a < net.n && b < net.n && s < net.n && Told(net, a, b, s)
    ensures Told(net', a, b, s)
  {
    if UnderWay(net, a, b, s) {
      StillUnderWay(net, net', a, b, s);
    }
  }

  /** Names, hellos and graphs play no part in the flooding. */
  lemma SameInv(net: Net, net': Net)
    requires Inv(net) && SameFlooding(net, net')
    ensures Inv(net')
  {
    hide Told;
    forall rec | Truthful(net, rec)
      ensures Truthful(net', rec)
    {
    }
    forall a: nat, b: nat, s: nat | a < net.n && b in net'.peers[a] && s < net.n
      ensures Told(net', a, b, s)
    {
      SameTold(net, net', a, b, s);
    }
  }

  lemma TakeTrue(net: Net, m: Message)
    requires Shape(net) && RecordsTrue(net) && SendersKnow(net) && m in net.flight
    ensures Shape(Take(net, m)) && RecordsTrue(Take(net, m)) && SendersKnow(Take(net, m))
    ensures m.from < net.n && m.to in net.peers[m.from]
  {
    var mid := Take(net, m);
    forall k | k in mid.flight
      ensures k in net.flight
    {
    }
    forall rec | Truthful(net, rec)
      ensures Truthful(mid, rec)
    {
    }
    forall k | k in mid.flight
      ensures k.from < mid.n && k.to in mid.peers[k.from]
      ensures k.Gossip? ==> k.rec.src < mid.n && Counter(mid, k.from, k.rec.src) >= k.rec.counter
    {
    }
  }

  lemma TakeHelloTold(net: Net, m: Message, a: nat, b: nat, s: nat)
    requires Shape(net) && Shape(Take(net, m)) && m.Hello? && a < net.n && b < net.n && s < net.n && Told(net, a, b, s)
    ensures (a == m.to && b == m.from && s == m.to) || Told(Take(net, m), a, b, s)
  {
    var mid := Take(net, m);
    if UnderWay(net, a, b, s) {
      var k :| k in net.flight && k.Gossip? && k.from == a && k.to == b && k.rec.src == s
               && k.rec.counter >= Counter(net, a, s);
      assert k in mid.flight;
      assert UnderWay(mid, a, b, s);
    }
  }

  // ---------------------------------------------------------------- delivering gossip

  /** The state after node m.to handles the gossip m. */
  function Handled(net: Net, m: Message): Net
    requires Shape(net) && m.Gossip? && m.to < net.n && m.rec.src < net.n
  {
    HandleGossip(Take(net, m), m.to, m.from, m.rec)
  }

  /** The gossip m tells its receiver something newer. */
  predicate News(net: Net, m: Message)
    requires Shape(net) && m.Gossip? && m.to < net.n && m.rec.src < net.n
  {
    m.rec.src !in net.known[m.to] || StoredCounter(net, m.to, m.rec.src) < m.rec.counter
  }

  /** A copy of the gossip m passed on by its receiver. */
  predicate Relay(net: Net, m: Message, k: Message)
    requires Shape(net) && m.Gossip? && m.to < net.n
  {
    k.Gossip? && k.from == m.to && k.rec == m.rec && k.to in net.peers[m.to]
  }

  lemma HandledParts(net: Net, m: Message)
    requires Shape(net) && Enabled(net, DeliverGossip(m))
    ensures var net' := Handled(net, m);
            && Shape(net') && net'.n == net.n && net'.peers == net.peers && net'.said == net.said
            && net'.known == (if !News(net, m) then net.known else
                                var t: map<nat, Record> := net.known[m.to][m.rec.src := m.rec];
                                net.known[m.to := t])
            && (forall k | k in net'.flight :: k in net.flight || Relay(net, m, k))
            && (forall k | k in net.flight && k != m :: k in net'.flight)
            && (News(net, m) ==>
                  forall z | z in net.peers[m.to] && z != m.from :: Gossip(m.to, z, m.rec) in net'.flight)
  {
    HandledState(net, m);
    HandledFlight(net, m);
    hide Handled;
  }

  lemma HandledState(net: Net, m: Message)
    requires Shape(net) && Enabled(net, DeliverGossip(m))
    ensures var net' := Handled(net, m);
            && Shape(net') && net'.n == net.n && net'.peers == net.peers && net'.said == net.said
            && net'.known == (if !News(net, m) then net.known else
                                var t: map<nat, Record> := net.known[m.to][m.rec.src := m.rec];
                                net.known[m.to := t])
  {
    hide HandleGossip;
    if News(net, m) {
      NewsParts(Take(net, m), m.to, m.from, m.rec);
    } else {
      NoNews(Take(net, m), m.to, m.from, m.rec);
    }
  }

  lemma HandledFlight(net: Net, m: Message)
    requires Shape(net) && Enabled(net, DeliverGossip(m))
    ensures var net' := Handled(net, m);
            && (forall k | k in net'.flight :: k in net.flight || Relay(net, m, k))
            && (forall k | k in net.flight && k != m :: k in net'.flight)
            && (News(net, m) ==>
                  forall z | z in net.peers[m.to] && z != m.from :: Gossip(m.to, z, m.rec) in net'.flight)
  {
    hide HandleGossip, Broadcast;
    if News(net, m) {
      NewsParts(Take(net, m), m.to, m.from, m.rec);
    } else {
      NoNews(Take(net, m), m.to, m.from, m.rec);
    }
  }

  lemma NoNews(net: Net, x: nat, y: nat, rec: Record)
    requires Shape(net) && x < net.n && rec.src < net.n
    requires rec.src in net.known[x] && StoredCounter(net, x, rec.src) >= rec.counter
    ensures HandleGossip(net, x, y, rec) == net
  {
  }

  lemma NewsParts(net: Net, x: nat, y: nat, rec: Record)
    requires Shape(net) && x < net.n && rec.src < net.n
    requires rec.src !in net.known[x] || StoredCounter(net, x, rec.src) < rec.counter
    ensures var net' := HandleGossip(net, x, y, rec);
            && Shape(net') && net'.n == net.n && net'.peers == net.peers && net'.said == net.said
            && net'.known == (var t: map<nat, Record> := net.known[x][rec.src := rec]; net.known[x := t])
            && net'.flight == net.flight + Broadcast(x, rec, net.peers[x] - {y}, net.n)
  {
  }

  lemma HandledStored(net: Net, m: Message, x: nat, s: nat)
    requires Shape(net) && RecordsTrue(net) && Enabled(net, DeliverGossip(m)) && x < net.n && s < net.n
    ensures var net' := Handled(net, m); var here := x == m.to && s == m.rec.src && News(net, m);
            && Shape(net') && net'.n == net.n
            && StoredCounter(net', x, s) == (if here then m.rec.counter else StoredCounter(net, x, s))
            && (here ==> StoredCounter(net, x, s) < m.rec.counter)
            && Counter(net', x, s) == (if x == s then |net.said[s]| else StoredCounter(net', x, s))
  {
    HandledParts(net, m);
    hide Handled;
    assert Truthful(net, m.rec);
  }

  lemma StaysTruthful(net: Net, net': Net, rec: Record)
    requires Shape(net) && Shape(net') && net'.n == net.n && net'.said == net.said && Truthful(net, rec)
    ensures Truthful(net', rec)
  {
  }

  lemma HandledRecord(net: Net, m: Message, x: nat, s: nat)
    requires Shape(net) && RecordsTrue(net) && Enabled(net, DeliverGossip(m)) && Shape(Handled(net, m))
    requires x < net.n && s in Handled(net, m).known[x]
    ensures var net' := Handled(net, m); net'.known[x][s].src == s && Truthful(net', net'.known[x][s])
  {
    HandledParts(net, m);
    var net' := Handled(net, m);
    hide Handled, News, Truthful, StoredCounter;
    if net'.known[x][s] == m.rec && x == m.to && s == m.rec.src {
      assert Truthful(net, m.rec);
    } else {
      assert s in net.known[x] && net'.known[x][s] == net.known[x][s];
    }
    StaysTruthful(net, net', net'.known[x][s]);
  }

  lemma HandledTrue(net: Net, m: Message)
    requires Inv(net) && Enabled(net, DeliverGossip(m))
    ensures var net' := Handled(net, m); Shape(net') && RecordsTrue(net')
  {
    hide LinksTold, HellosWait, SendersKnow;
    var net' := Handled(net, m);
    HandledParts(net, m);
    hide Handled, News, Truthful, StoredCounter;
    forall x: nat, s | x < net.n && s in net'.known[x]
      ensures net'.known[x][s].src == s && Truthful(net', net'.known[x][s])
    {
      HandledRecord(net, m, x, s);
    }
    forall k | k in net'.flight && k.Gossip?
      ensures Truthful(net', k.rec)
    {
      assert Truthful(net, k.rec);
      StaysTruthful(net, net', k.rec);
    }
  }

  lemma HandledKnow(net: Net, m: Message)
    requires Inv(net) && Enabled(net, DeliverGossip(m))
    ensures Shape(Handled(net, m)) && SendersKnow(Handled(net, m))
  {
    hide LinksTold, HellosWait, RecordsTrue;
    var net' := Handled(net, m);
    HandledParts(net, m);
    HandledCounters(net, m);
    hide Handled, News, Counter, StoredCounter;
    forall k | k in net'.flight
      ensures k.from < net.n && k.to in net'.peers[k.from]
      ensures k.Gossip? ==> k.rec.src < net.n && Counter(net', k.from, k.rec.src) >= k.rec.counter
    {
      if k in net.flight && k.Gossip? {
        assert Counter(net', k.from, k.rec.src) >= Counter(net, k.from, k.rec.src);
      }
    }
  }

  /** Counters never go down; the receiver's is at least the message's afterwards, and if it
      changed the message was news. */
  lemma HandledCounters(net: Net, m: Message)
    requires Shape(net) && RecordsTrue(net) && Enabled(net, DeliverGossip(m))
    ensures var net' := Handled(net, m);
            && Shape(net') && net'.n == net.n
            && (forall x: nat, s: nat | x < net.n && s < net.n ::
                  StoredCounter(net', x, s) >= StoredCounter(net, x, s) && Counter(net', x, s) >= Counter(net, x, s))
            && (forall x: nat, s: nat | x < net.n && s < net.n && (x != m.to || s != m.rec.src) ::
                  StoredCounter(net', x, s) == StoredCounter(net, x, s) && Counter(net', x, s) == Counter(net, x, s))
            && Counter(net', m.to, m.rec.src) >= m.rec.counter
            && (Counter(net', m.to, m.rec.src) != Counter(net, m.to, m.rec.src) ==>
                  Counter(net', m.to, m.rec.src) == m.rec.counter && News(net, m))
  {
    HandledParts(net, m);
    hide Handled, Enabled;
    var net' := Handled(net, m);
    forall x: nat, s: nat | x < net.n && s < net.n
      ensures StoredCounter(net', x, s) >= StoredCounter(net, x, s) && Counter(net', x, s) >= Counter(net, x, s)
      ensures x != m.to || s != m.rec.src ==>
                StoredCounter(net', x, s) == StoredCounter(net, x, s) && Counter(net', x, s) == Counter(net, x, s)
    {
      HandledStored(net, m, x, s);
    }
    HandledReceiver(net, m);
  }

  lemma HandledReceiver(net: Net, m: Message)
    requires Shape(net) && RecordsTrue(net) && Enabled(net, DeliverGossip(m))
    ensures var net' := Handled(net, m); var c := Counter(net, m.to, m.rec.src);
            && Shape(net') && net'.n == net.n && Counter(net', m.to, m.rec.src) >= m.rec.counter
            && (Counter(net', m.to, m.rec.src) != c ==> Counter(net', m.to, m.rec.src) == m.rec.counter && News(net, m))
  {
    HandledStored(net, m, m.to, m.rec.src);
    assert Truthful(net, m.rec);
    hide Handled;
  }

  lemma HandledTold(net: Net, m: Message, a: nat, b: nat, s: nat)
    requires Shape(net) && RecordsTrue(net) && SendersKnow(net) && Enabled(net, DeliverGossip(m))
    requires a < net.n && b in net.peers[a] && s < net.n && Told(net, a, b, s)
    ensures Shape(Handled(net, m)) && b < net.n && Told(Handled(net, m), a, b, s)
  {
    var net' := Handled(net, m);
    HandledCounters(net, m);
    HandledParts(net, m);
    hide Handled, News, StoredCounter, Counter, RecordsTrue;
    assert m.from < net.n && Counter(net, m.from, m.rec.src) >= m.rec.counter;
    if Counter(net', a, s) != Counter(net, a, s) {
      // a is the receiver and s the source of the news
      if b != m.from {
        var k := Gossip(a, b, m.rec);
        assert k in net'.flight;
        assert UnderWay(net', a, b, s);
      }
    } else if UnderWay(net, a, b, s) {
      var k :| k in net.flight && k.Gossip? && k.from == a && k.to == b && k.rec.src == s
               && k.rec.counter >= Counter(net, a, s);
      if k != m {
        assert k in net'.flight;
        assert UnderWay(net', a, b, s);
      }
    }
  }

  lemma HandledPeers(net: Net, m: Message)
    requires Shape(net) && Enabled(net, DeliverGossip(m))
    ensures Shape(Handled(net, m)) && Handled(net, m).n == net.n && Handled(net, m).peers == net.peers
  {
    HandledParts(net, m);
  }

  lemma HandledWaits(net: Net, m: Message)
    requires Shape(net) && HellosWait(net) && Enabled(net, DeliverGossip(m))
    ensures Shape(Handled(net, m)) && HellosWait(Handled(net, m))
  {
    HandledParts(net, m);
    hide Handled;
  }

  lemma GossipInv(net: Net, m: Message)
    requires Inv(net) && Enabled(net, DeliverGossip(m))
    ensures Inv(Next(net, DeliverGossip(m)))
  {
    var net' := Handled(net, m);
    HandledTrue(net, m);
    HandledKnow(net, m);
    HandledWaits(net, m);
    HandledPeers(net, m);
    hide Told, RecordsTrue, SendersKnow, HellosWait, Handled;
    forall a: nat, b: nat, s: nat | a < net.n && b in net'.peers[a] && s < net.n
      ensures Told(net', a, b, s)
    {
      assert Told(net, a, b, s);
      HandledTold(net, m, a, b, s);
    }
  }

  // ---------------------------------------------------------------- runs

  lemma OpenInv(net: Net, x: nat, y: nat)
    requires Inv(net) && x < net.n && y < net.n && x != y && y !in net.peers[x]
    ensures Inv(Open(net, x, y)) && Shape(Open(net, x, y)) && x < Open(net, x, y).n
  {
    OpenTrue(net, x, y);
    OpenTold(net, x, y);
  }

  lemma AcceptedInv(net: Net, x: nat, y: nat, how: How)
    requires Shape(net) && Inv(net) && x < net.n
    ensures Inv(Accept(net, x, y, how))
  {
    AcceptedSame(net, x, y, how);
    hide Inv, Accept;
    SameInv(net, Accept(net, x, y, how));
  }

  lemma AcceptedSame(net: Net, x: nat, y: nat, how: How)
    requires Shape(net) && x < net.n
    ensures SameFlooding(net, Accept(net, x, y, how))
  {
  }

  lemma NextInv(net: Net, step: Step)
    requires Inv(net) && Enabled(net, step)
    ensures Inv(Next(net, step))
  {
    match step
    case OpenLink(x, y, how) =>
      OpenInv(net, x, y);
      hide Inv, Open, Accept;
      AcceptedInv(Open(net, x, y), x, y, how);
    case Speak(x, payload) => SpeakInv(net, x, payload);
    case DeliverGossip(m) => GossipInv(net, m);
    case DeliverHello(m, payload) => HelloInv(net, m, payload);
  }

  lemma {:induction false} RunInv(run: seq<Net>, steps: seq<Step>, i: nat)
    requires IsRun(run, steps) && Start(run[0]) && i < |run|
    ensures Inv(run[i])
  {
    hide Inv, Enabled, Next, Start;
    if i == 0 {
      StartInv(run[0]);
    } else {
      RunInv(run, steps, i - 1);
      NextInv(run[i - 1], steps[i - 1]);
    }
  }

  lemma StartInv(net: Net)
    requires Start(net)
    ensures Inv(net)
  {
    forall x: nat | x < net.n
      ensures net.peers[x] == {} && net.known[x] == map[]
    {
      assert Blank(net, x);
    }
  }

  // ---------------------------------------------------------------- agreement

  /** Connections are open both ways and nothing is in flight. */
  ghost predicate Quiet(net: Net)
    requires Shape(net)
  {
    net.flight == multiset{} && forall x: nat, y: nat | x < net.n && y in net.peers[x] :: x in net.peers[y]
  }

  /** A way from x to y over open connections. */
  ghost predicate Connected(net: Net, way: seq<nat>, x: nat, y: nat)
    requires Shape(net)
  {
    && |way| > 0 && way[0] == x < net.n && way[|way| - 1] == y
    && forall i | 0 <= i < |way| - 1 :: way[i] < net.n && way[i + 1] in net.peers[way[i]]
  }

  /** What a node can say about a source: nothing, or the payload of the newest number it knows. */
  function Knows(net: Net, x: nat, s: nat): seq<seq<Address>>
    requires Shape(net) && x < net.n && s < net.n
  {
    if x == s then (if net.said[s] == [] then [] else [net.said[s][|net.said[s]| - 1]])
    else if s in net.known[x] then [net.known[x][s].payload] else []
  }

  lemma {:induction false} SameCounters(net: Net, way: seq<nat>, x: nat, y: nat, s: nat)
    requires Inv(net) && Quiet(net) && Connected(net, way, x, y) && s < net.n
    ensures y < net.n && Counter(net, x, s) == Counter(net, y, s)
  {
    if |way| > 1 {
      var z := way[1];
      assert way[1] in net.peers[way[0]];
      assert Told(net, x, z, s) && Told(net, z, x, s);
      var rest := way[1..];
      forall i | 0 <= i < |rest| - 1
        ensures rest[i] < net.n && rest[i + 1] in net.peers[rest[i]]
      {
        assert way[i + 2] in net.peers[way[i + 1]];
      }
      SameCounters(net, rest, z, y, s);
    }
  }

  /** Once nothing is in flight, nodes connected to each other know the same about every source,
      and what they know about a source connected to them is the last thing it said. */
  lemma Agreement(run: seq<Net>, steps: seq<Step>, i: nat, way: seq<nat>, x: nat, y: nat, s: nat)
    requires IsRun(run, steps) && Start(run[0]) && i < |run|
    requires Quiet(run[i]) && Connected(run[i], way, x, y) && s < run[i].n
    ensures y < run[i].n && Counter(run[i], x, s) == Counter(run[i], y, s) && Knows(run[i], x, s) == Knows(run[i], y, s)
    ensures s == y ==> Counter(run[i], x, s) == |run[i].said[s]|
                       && Knows(run[i], x, s)
                          == if run[i].said[s] == [] then [] else [run[i].said[s][|run[i].said[s]| - 1]]
  {
    var net := run[i];
    RunInv(run, steps, i);
    SameCounters(net, way, x, y, s);
    KnowsByCounter(net, x, s);
    KnowsByCounter(net, y, s);
  }

  lemma KnowsByCounter(net: Net, x: nat, s: nat)
    requires Shape(net) && RecordsTrue(net) && x < net.n && s < net.n
    ensures var c := Counter(net, x, s);
            0 <= c <= |net.said[s]| && Knows(net, x, s) == if c == 0 then [] else [net.said[s][c - 1]]
  {
    if s in net.known[x] {
      assert Truthful(net, net.known[x][s]);
    }
  }

  lemma StepNeverOlder(net: Net, step: Step, x: nat, s: nat)
    requires Inv(net) && Enabled(net, step) && x < net.n && s < net.n
    ensures Shape(Next(net, step)) && Next(net, step).n == net.n
    ensures StoredCounter(net, x, s) <= StoredCounter(Next(net, step), x, s)
  {
    hide LinksTold, HellosWait, SendersKnow, Broadcast, AllRecords, Listed, Truthful;
    if step.DeliverGossip? {
      HandledCounters(net, step.m);
    }
  }

  /** What a node has stored never gets older. */
  lemma {:induction false} NeverOlder(run: seq<Net>, steps: seq<Step>, i: nat, j: nat, x: nat, s: nat)
    requires IsRun(run, steps) && Start(run[0]) && i <= j < |run| && x < run[i].n && s < run[i].n
    ensures x < run[j].n && s < run[j].n && StoredCounter(run[i], x, s) <= StoredCounter(run[j], x, s)
  {
    hide Inv, Next, Enabled;
    if i < j {
      NeverOlder(run, steps, i, j - 1, x, s);
      RunInv(run, steps, j - 1);
      StepNeverOlder(run[j - 1], steps[j - 1], x, s);
    }
  }
}
