/** The flooding protocol over a whole network: nodes 0 to n-1, links opened one direction at a time,
    messages in flight delivered in any order, none lost. */
module Flooding {
  import opened GossipTable

  datatype Message = Gossip(from: nat, to: nat, rec: Record) | Hello(from: nat, to: nat)

  /** What a node drew its graph from at the last update: names, records and connections. */
  datatype Sight = Sight(names: set<Address>, known: map<nat, Record>, live: set<Address>)

  /** `peers[x]` are the nodes x has a connection to; `known[x]` its records by source; `said[x]` the
      payloads it has originated so far, numbered from 1; `names[x]` the addresses in its node list;
      `met[x]` the peers whose hello it has handled; `socket[x]` the socket addresses of the connections
      it has accepted, by peer; `seen[x]` what its graph shows.  Nodes have the addresses below n. */
  datatype Net = Net(n: nat, peers: seq<set<nat>>, known: seq<map<nat, Record>>, said: seq<seq<seq<Address>>>,
                     flight: multiset<Message>, names: seq<set<Address>>, met: seq<set<nat>>,
                     socket: seq<map<nat, Address>>, seen: seq<Sight>)

  /** A connection is opened by this node, or accepted from a socket that is no node's address. */
  datatype How = Outgoing | Incoming(socket: Address)

  /** The same message to every peer among the first `k` nodes but one. */
  function Broadcast(x: nat, rec: Record, peers: set<nat>, k: nat): (out: multiset<Message>)
    ensures |out| <= k
    ensures forall m :: m in out <==> m.Gossip? && m.from == x && m.rec == rec && m.to in peers && m.to < k
  {
    if k == 0 then multiset{}
    else Broadcast(x, rec, peers, k - 1) + if k - 1 in peers then multiset{Gossip(x, k - 1, rec)} else multiset{}
  }

  /** Everything node x knows of the first `k` sources, for a new peer. */
  function AllRecords(x: nat, y: nat, known: map<nat, Record>, k: nat): (out: multiset<Message>)
    ensures forall m :: m in out <==> m.Gossip? && m.from == x && m.to == y
                                      && exists s: nat :: s < k && s in known && m.rec == known[s]
  {
    if k == 0 then multiset{}
    else AllRecords(x, y, known, k - 1)
         + if k - 1 in known then multiset{Gossip(x, y, known[k - 1])} else multiset{}
  }

  predicate Shape(net: Net) {
    && |net.peers| == |net.known| == |net.said| == |net.names| == net.n
    && |net.met| == |net.socket| == |net.seen| == net.n
    && (forall x: nat, y | x < net.n && y in net.peers[x] :: y < net.n && y != x)
    && (forall x: nat, s | x < net.n && s in net.known[x] :: s < net.n)
  }

  /** The counter a node knows for a source: of its own gossip, how many it has originated. */
  function Counter(net: Net, x: nat, s: nat): int
    requires Shape(net) && x < net.n && s < net.n
  {
    if x == s then |net.said[s]| else StoredCounter(net, x, s)
  }

  function StoredCounter(net: Net, x: nat, s: nat): int
    requires Shape(net) && x < net.n && s < net.n
  {
    if s in net.known[x] then net.known[x][s].counter else 0
  }

  // ---------------------------------------------------------------- steps

  /** Node x gets a connection to y: it says hello and sends all the gossip it has. */
  function Open(net: Net, x: nat, y: nat): Net
    requires Shape(net) && x < net.n && y < net.n
  {
    net.(peers := net.peers[x := net.peers[x] + {y}],
         flight := net.flight + multiset{Hello(x, y)} + AllRecords(x, y, net.known[x], net.n))
  }

  /** Of a connection it accepts, node x keeps the socket address for the time being. */
  function Accept(net: Net, x: nat, y: nat, how: How): Net
    requires Shape(net) && x < net.n
  {
    match how
    case Outgoing => net
    case Incoming(socket) =>
      var sockets: map<nat, Address> := net.socket[x][y := socket];
      net.(socket := net.socket[x := sockets])
  }

  /** The addresses that a node takes for those of its connections: the own address of a peer that has said
      hello; of one that has not, the socket address if the connection was accepted, none if it was opened. */
  function Listed(net: Net, x: nat): set<Address>
    requires Shape(net) && x < net.n
  {
    net.met[x] + set y | y in net.socket[x] && y !in net.met[x] :: net.socket[x][y]
  }

  /** Node x draws its graph anew. */
  function Redraw(net: Net, x: nat): Net
    requires Shape(net) && x < net.n
  {
    net.(seen := net.seen[x := Sight(net.names[x], net.known[x], Listed(net, x))])
  }

  /** Node x numbers a new payload and sends it to every peer.  It does not store it. */
  function Originate(net: Net, x: nat, payload: seq<Address>): Net
    requires Shape(net) && x < net.n
  {
    var said := net.said[x] + [payload];
    net.(said := net.said[x := said],
         flight := net.flight + Broadcast(x, Record(x, |said|, payload), net.peers[x], net.n))
  }

  /** Node x handles gossip that came from y: news is stored and passed on to all peers but y. */
  function HandleGossip(net: Net, x: nat, y: nat, rec: Record): Net
    requires Shape(net) && x < net.n && rec.src < net.n
  {
    if StoredCounter(net, x, rec.src) >= rec.counter && rec.src in net.known[x] then net
    else
      var table: map<nat, Record> := net.known[x][rec.src := rec];
      Redraw(net.(known := net.known[x := table],
                  flight := net.flight + Broadcast(x, rec, net.peers[x] - {y}, net.n),
                  names := net.names[x := net.names[x] + set a | a in rec.payload]), x)
  }

  /** Node x has learnt from a hello that the other side is y. */
  function Hear(net: Net, x: nat, y: nat): Net
    requires Shape(net) && x < net.n && y < net.n
  {
    Redraw(net.(names := net.names[x := net.names[x] + {y}], met := net.met[x := net.met[x] + {y}]), x)
  }

  /** The list a node keeps stands for this table. */
  ghost predicate Represents(records: seq<Record>, table: map<nat, Record>) {
    forall src: nat :: Find(records, src) == if src in table then Found(table[src]) else Missing
  }

  /** What Table.Receive promises is what the protocol step does to the table, on the same condition. */
  lemma ReceiveIsHandle(net: Net, x: nat, y: nat, rec: Record, records: seq<Record>, records': seq<Record>, news: bool)
    requires Shape(net) && x < net.n && rec.src < net.n && Represents(records, net.known[x])
    requires rec.src in net.known[x] ==> net.known[x][rec.src].src == rec.src
    requires news <==> IsNews(records, rec)
    requires forall src :: Find(records', src) == if news && src == rec.src then Found(rec) else Find(records, src)
    ensures Represents(records', HandleGossip(net, x, y, rec).known[x])
    ensures !news <==> HandleGossip(net, x, y, rec) == net
  {
    assert Find(records, rec.src) == if rec.src in net.known[x] then Found(net.known[x][rec.src]) else Missing;
    if news {
      assert HandleGossip(net, x, y, rec).known[x][rec.src] == rec;
    }
  }

  function Take(net: Net, m: Message): Net {
    net.(flight := net.flight - multiset{m})
  }

  datatype Step =
    | OpenLink(x: nat, y: nat, how: How)
    | Speak(x: nat, payload: seq<Address>)
    | DeliverGossip(m: Message)
    | DeliverHello(m: Message, payload: seq<Address>)

  /** A node receives only over connections it has. */
  predicate Enabled(net: Net, step: Step)
    requires Shape(net)
  {
    match step
    case OpenLink(x, y, how) =>
      x < net.n && y < net.n && x != y && y !in net.peers[x] && (how.Incoming? ==> how.socket >= net.n)
    case Speak(x, _) => x < net.n
    case DeliverGossip(m) =>
      m in net.flight && m.Gossip? && m.to < net.n && m.from in net.peers[m.to] && m.rec.src < net.n
    case DeliverHello(m, _) => m in net.flight && m.Hello? && m.to < net.n && m.from in net.peers[m.to]
  }

  function Next(net: Net, step: Step): Net
    requires Shape(net) && Enabled(net, step)
  {
    match step
    case OpenLink(x, y, how) => Accept(Open(net, x, y), x, y, how)
    case Speak(x, payload) => Originate(net, x, payload)
    case DeliverGossip(m) => HandleGossip(Take(net, m), m.to, m.from, m.rec)
    case DeliverHello(m, payload) => Hear(Originate(Take(net, m), m.to, payload), m.to, m.from)
  }

  predicate Blank(net: Net, x: nat)
    requires Shape(net) && x < net.n
  {
    && net.peers[x] == {} && net.known[x] == map[] && net.said[x] == [] && net.names[x] == {x}
    && net.met[x] == {} && net.socket[x] == map[] && net.seen[x] == Sight({x}, map[], {})
  }

  ghost predicate Start(net: Net) {
    Shape(net) && net.flight == multiset{}
    && forall x: nat | x < net.n :: Blank(net, x)
  }

  /** A run: each state comes from the one before by an enabled step. */
  ghost predicate IsRun(run: seq<Net>, steps: seq<Step>) {
    && |run| == |steps| + 1
    && (forall i | 0 <= i < |run| :: Shape(run[i]))
    && (forall i | 0 <= i < |steps| :: Enabled(run[i], steps[i]) && run[i + 1] == Next(run[i], steps[i]))
  }

  // ---------------------------------------------------------------- the invariant

  /** A record repeats what its source said under that number. */
  predicate Truthful(net: Net, rec: Record)
    requires Shape(net)
  {
    rec.src < net.n && 1 <= rec.counter <= |net.said[rec.src]| && rec.payload == net.said[rec.src][rec.counter - 1]
  }

  ghost predicate RecordsTrue(net: Net)
    requires Shape(net)
  {
    && (forall x: nat, s | x < net.n && s in net.known[x] :: net.known[x][s].src == s && Truthful(net, net.known[x][s]))
    && (forall m | m in net.flight && m.Gossip? :: Truthful(net, m.rec))
  }

  /** Messages travel over open connections, and the sender knows what it sent. */
  ghost predicate SendersKnow(net: Net)
    requires Shape(net)
  {
    forall m | m in net.flight :: m.from < net.n && m.to in net.peers[m.from]
      && (m.Gossip? ==> m.rec.src < net.n && Counter(net, m.from, m.rec.src) >= m.rec.counter)
  }

  /** x has told y all it knows about s, or a message that tells it is under way, or s is x itself
      and y's hello, which makes x speak up, has not reached x. */
  ghost predicate Told(net: Net, x: nat, y: nat, s: nat)
    requires Shape(net) && x < net.n && y < net.n && s < net.n
  {
    || Counter(net, x, s) <= Counter(net, y, s)
    || UnderWay(net, x, y, s)
    || (s == x && (x !in net.peers[y] || Hello(y, x) in net.flight))
  }

  ghost predicate UnderWay(net: Net, x: nat, y: nat, s: nat)
    requires Shape(net) && x < net.n && s < net.n
  {
    exists m :: m in net.flight && m.Gossip? && m.from == x && m.to == y && m.rec.src == s
                && m.rec.counter >= Counter(net, x, s)
  }

  ghost predicate LinksTold(net: Net)
    requires Shape(net)
  {
    forall x: nat, y: nat, s: nat | x < net.n && y in net.peers[x] && s < net.n :: Told(net, x, y, s)
  }

  /** A hello stays under way until the other side has opened the connection too. */
  ghost predicate HellosWait(net: Net)
    requires Shape(net)
  {
    forall x: nat, y: nat | x < net.n && y in net.peers[x] && x !in net.peers[y] :: Hello(x, y) in net.flight
  }

  ghost predicate Inv(net: Net) {
    Shape(net) && RecordsTrue(net) && SendersKnow(net) && LinksTold(net) && HellosWait(net)
  }
}
