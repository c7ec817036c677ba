/** find_node answers and the iterative lookup (dht.go), with the network as an arbitrary oracle. */
module Lookup {
  import opened Bytes
  import opened Numbers
  import opened Metric
  import opened Nodes
  import opened Strings
  import opened Outcomes
  import opened Wire
  import opened RoutingTables
  import opened RoutingHistory
  import opened NearestExact
  import S = KStores

  const K := 20
  const ALPHA := 3

  /** The two fields of a response the lookup reads; a missing "nodes" reads as the empty string. */
  datatype Response = Response(values: Option<seq<Byte>>, nodes: seq<Byte>)

  /** What one round of queries brings: a failed send, or whatever responses arrive in time, in any order. */
  datatype Outcome = SendFails | Answers(results: seq<Response>)

  /** The outcome of a round may depend on its number and on the nodes that were asked in any way at all. */
  type Network = (nat, seq<Node>) -> Outcome

  datatype Result =
    | NoNodesKnown
    | InvalidQuery
    | SendError
    | Crash
    | Values(values: seq<seq<Byte>>)
    | Closest(infos: seq<seq<Byte>>)

  // ---- equality of nodes ----

  const V4_IN_V6_PREFIX: seq<Byte> := [0, 0, 0, 0, 0, 0, 0, 0, 0, 0, 0xff, 0xff]

  /** net.IP Equal: an IPv4 address equals its 16-byte form. */
  predicate IPEqual(a: seq<Byte>, b: seq<Byte>) {
    if |a| == |b| then a == b
    else if |a| == 4 && |b| == IP_LENGTH then b[..12] == V4_IN_V6_PREFIX && a == b[12..]
    else if |a| == IP_LENGTH && |b| == 4 then a[..12] == V4_IN_V6_PREFIX && b == a[12..]
    else false
  }

  predicate EqualsNodes(n1: Node, n2: Node, letIDNil: bool) {
    (letIDNil || n1.id == n2.id) && n1.port == n2.port && IPEqual(n1.ip, n2.ip)
  }

  // ---- the answering side ----

  /** FindNode: the K nearest nodes of the table as compact infos. */
  method FindNode(rt: RoutingTable, target: NodeId) returns (nodesInfo: seq<seq<Byte>>)
    requires rt.Valid()
    ensures exists l :: IsNearest(rt.self, rt.table[..], K, target, l) && nodesInfo == CompactInfos(l)
    ensures |nodesInfo| == Min(20, |rt.Known()|)
  {
    hide IsNearest, CompactInfo;
    var nl := rt.GetNearestNodes(K, target);
    ghost var l := nl.nodes;
    rt.NearestOfKnown(K, target, l);
    nodesInfo := [];
    for i := 0 to |nl.nodes|
      invariant nl.nodes == l
      invariant nodesInfo == CompactInfos(l[..i])
    {
      nodesInfo := nodesInfo + [CompactInfo(nl.nodes[i])];
      assert l[..i + 1] == l[..i] + [l[i]];
    }
    assert l[..|l|] == l;
  }

  /** What the node that owns table t answers to find_node. */
  ghost predicate IsAnswer(self: NodeId, t: Table, target: NodeId, r: Response)
    requires |t| == B
  {
    exists l :: IsNearest(self, t, K, target, l) && r.nodes == EncodeNodes(l)
  }

  method ResponseFindNode(rt: RoutingTable, target: NodeId) returns (r: Response)
    requires rt.Valid()
    ensures IsAnswer(rt.self, rt.table[..], target, r) && r.values == None
  {
    hide IsNearest;
    var nodesInfo := FindNode(rt, target);
    r := Response(None, Join(nodesInfo, SLASHES));
    ghost var l :| IsNearest(rt.self, rt.table[..], K, target, l) && nodesInfo == CompactInfos(l);
    assert r.nodes == EncodeNodes(l);
  }

  /** The handler answers from the table as it was and then notes the node that asked. */
  method HandleFindNode(rt: RoutingTable, target: NodeId, asking: Node) returns (r: Response)
    requires rt.Valid()
    modifies rt`history, rt.table
    ensures IsAnswer(rt.self, old(rt.table[..]), target, r) && r.values == None
    ensures rt.Valid() && rt.history == old(rt.history) + [Seen(asking)]
    ensures rt.table[..] == Noted(rt.self, old(rt.table[..]), asking)
  {
    r := ResponseFindNode(rt, target);
    rt.UpdateBucketOfNode(asking);
  }

  /** Exactly the values stored under the infohash, in ascending order. */
  ghost predicate ValuesOf(data: map<S.Text, seq<S.Text>>, infohash: NodeId, peers: seq<S.Text>) {
    peers != [] && S.Ascending(peers) && forall v :: v in peers <==> S.Has(data, (infohash, v))
  }

  /** The values field of a response brings these strings, and they arrive exactly when they are slash safe. */
  predicate Carries(values: seq<Byte>, peers: seq<seq<Byte>>) {
    values == Join(peers, SLASHES) && (Split(values, SLASHES) == peers <==> SlashSafe(peers))
  }

  /** GetPeers: the values stored under the infohash if there are any, the nearest nodes otherwise. */
  method GetPeers(rt: RoutingTable, store: S.KStore, infohash: NodeId) returns (peers: seq<seq<Byte>>, found: bool)
    requires rt.Valid() && store.Sound()
    ensures found <==> exists v :: S.Has(store.data, (infohash, v))
    ensures found ==> ValuesOf(store.data, infohash, peers)
    ensures !found ==> exists l :: IsNearest(rt.self, rt.table[..], K, infohash, l) && peers == CompactInfos(l)
  {
    hide IsNearest, S.Ascending;
    peers, found := store.GetValues(infohash);
    if found {
      assert S.Has(store.data, (infohash, peers[0])) by { assert peers[0] in peers; }
    } else {
      assert forall v :: S.Has(store.data, (infohash, v)) ==> v in peers;
      peers := FindNode(rt, infohash);
    }
  }

  /**
   * get_peers: the handler answers with the stored values or from the table as it was, and then notes the node that
   * asked.
   */
  method HandleGetPeers(rt: RoutingTable, store: S.KStore, infohash: NodeId, asking: Node) returns (r: Response)
    requires rt.Valid() && store.Sound()
    modifies rt`history, rt.table
    ensures r.values.Some? <==> exists v :: S.Has(store.data, (infohash, v))
    ensures r.values == None ==> IsAnswer(rt.self, old(rt.table[..]), infohash, r)
    ensures r.values.Some? ==>
              r.nodes == [] && exists peers :: ValuesOf(store.data, infohash, peers) && Carries(r.values.value, peers)
    ensures rt.Valid() && rt.history == old(rt.history) + [Seen(asking)]
    ensures rt.table[..] == Noted(rt.self, old(rt.table[..]), asking)
  {
    hide IsNearest, Noted, SlashSafe, S.Has, S.Ascending, Join, Split;
    var peers, found := GetPeers(rt, store, infohash);
    if found {
      SplitSlashes(peers);
      r := Response(Some(Join(peers, SLASHES)), []);
    } else {
      r := Response(None, Join(peers, SLASHES));
      ghost var l :| IsNearest(rt.self, rt.table[..], K, infohash, l) && peers == CompactInfos(l);
      assert r.nodes == EncodeNodes(l);
    }
    rt.UpdateBucketOfNode(asking);
  }

  // ---- one round ----

  /** The list after the nodes of every response were appended, in the order the responses came. */
  function Absorb(l: seq<Node>, results: seq<Response>): Decoded<seq<Node>>
    decreases |results|
  {
    if results == [] then Value(l)
    else
      match DecodeNodes(results[0].nodes)
      case Panic => Panic
      case Value(nodes) => Absorb(AppendNew(l, nodes), results[1..])
  }

  /** What a round learned is in the list, and nothing is forgotten. */
  lemma {:induction false} AbsorbFacts(l: seq<Node>, results: seq<Response>)
    requires Distinct(l) && Absorb(l, results).Value?
    ensures var r := Absorb(l, results).value;
            l <= r && Distinct(r)
            && forall k :: 0 <= k < |results| ==>
                 DecodeNodes(results[k].nodes).Value?
                 && IdSet(DecodeNodes(results[k].nodes).value) <= IdSet(r)
    decreases |results|
  {
    hide Distinct, DecodeNodes, IdSet;
    if results != [] {
      var nodes := DecodeNodes(results[0].nodes).value;
      var l' := AppendNew(l, nodes);
      AppendNewFacts(l, nodes);
      AbsorbFacts(l', results[1..]);
      var r := Absorb(l, results).value;
      IdSetPrefix(l', r);
      forall k | 0 <= k < |results|
        ensures DecodeNodes(results[k].nodes).Value?
        ensures IdSet(DecodeNodes(results[k].nodes).value) <= IdSet(r)
      {
        if k > 0 { assert results[k] == results[1..][k - 1]; }
      }
    }
  }

  lemma IdSetPrefix(l: seq<Node>, r: seq<Node>)
    requires l <= r
    ensures IdSet(l) <= IdSet(r)
  {
    assert r == l + r[|l|..];
    IdSetAdd(l, r[|l|..]);
  }

  /** Everything in the list was there before or came in some response. */
  lemma {:induction false} AbsorbOrigin(l: seq<Node>, results: seq<Response>, n: Node)
    requires Absorb(l, results).Value? && n in Absorb(l, results).value
    ensures n in l || exists k :: 0 <= k < |results| && DecodeNodes(results[k].nodes).Value?
                                  && n in DecodeNodes(results[k].nodes).value
    decreases |results|
  {
    hide DecodeNodes;
    if results != [] {
      var nodes := DecodeNodes(results[0].nodes).value;
      AbsorbOrigin(AppendNew(l, nodes), results[1..], n);
      if n in AppendNew(l, nodes) {
        AppendNewMembers(l, nodes, n);
      } else {
        var k :| 0 <= k < |results[1..]| && DecodeNodes(results[1..][k].nodes).Value?
                 && n in DecodeNodes(results[1..][k].nodes).value;
        assert results[k + 1] == results[1..][k];
      }
    }
  }

  lemma {:induction false} AbsorbNoPanic(l: seq<Node>, results: seq<Response>)
    requires forall k :: 0 <= k < |results| ==> DecodeNodes(results[k].nodes).Value?
    ensures Absorb(l, results).Value?
    decreases |results|
  {
    hide DecodeNodes;
    if results != [] {
      assert forall k :: 0 <= k < |results[1..]| ==> results[1..][k] == results[k + 1];
      AbsorbNoPanic(AppendNew(l, DecodeNodes(results[0].nodes).value), results[1..]);
    }
  }

  // ---- progress against any network ----

  /** After a round the first node is the old closest one, or strictly nearer. */
  lemma RoundImproves(before: seq<Node>, after: seq<Node>, target: NodeId)
    requires before != [] && StrictlySorted(after, target) && Distinct(after)
    requires forall n :: n in before ==> n in after
    ensures after != []
    ensures EqualsNodes(after[0], before[0], false) <==> after[0] == before[0]
    ensures after[0] != before[0] ==> Distance(after[0].id, target) < Distance(before[0].id, target)
  {
    var n := before[0];
    assert n in after;
    var i :| 0 <= i < |after| && after[i] == n;
    if i > 0 { assert Distance(after[0].id, target) < Distance(after[i].id, target); }
    if after[0].id == n.id { assert i == 0; }
  }

  // ---- convergence in an honest network ----

  /** The tables of all live nodes. */
  type Net = map<NodeId, Table>

  /** Its compact info passes through a "//"-joined list unharmed. */
  predicate WireSafe(n: Node) {
    Representable(n) && !HasSlashes(CompactInfo(n)) && !EndsInSlash(CompactInfo(n))
  }

  /** Tables are well formed and list only live nodes that the wire can carry. */
  ghost predicate NetOk(net: Net) {
    forall c :: c in net ==> TableOk(c, net[c])
                             && forall b, n :: 0 <= b < B && n in net[c][b] ==> n.id in net && WireSafe(n)
  }

  /**
   * Whenever the range of one of its buckets holds another live node, a live node knows somebody other than
   * itself in that bucket.
   */
  ghost predicate Covered(net: Net)
    requires NetOk(net)
  {
    forall c, t :: c in net && t in net && c != t ==> Knows(c, net[c], BucketIndex(c, t))
  }

  ghost predicate Knows(self: NodeId, t: Table, b: nat)
    requires |t| == B
  {
    b < B && exists n: Node :: n in t[b] && n.id != self
  }

  /** r is the answer of the live node n. */
  ghost predicate AnswerOf(net: Net, target: NodeId, n: Node, r: Response)
    requires NetOk(net)
  {
    n.id in net && IsAnswer(n.id, net[n.id], target, r)
  }

  /** Every node asked answers from its table, and there are no other responses. */
  ghost predicate HonestRound(net: Net, target: NodeId, asked: seq<Node>, results: seq<Response>)
    requires NetOk(net)
  {
    (forall n :: n in asked ==> exists r :: r in results && AnswerOf(net, target, n, r))
    && (forall r :: r in results ==> exists n :: n in asked && AnswerOf(net, target, n, r))
  }

  /** The tables from which the queries of a round are answered; they may change from round to round. */
  type Nets = nat -> Net

  ghost predicate NetsOk(nets: Nets) {
    forall round: nat :: NetOk(nets(round)) && nets(round).Keys == nets(0).Keys
  }

  ghost predicate Honest(nets: Nets, network: Network, target: NodeId)
    requires NetsOk(nets)
  {
    forall round: nat, asked: seq<Node> :: IdSet(asked) <= nets(round).Keys ==>
      network(round, asked).Answers? && HonestRound(nets(round), target, asked, network(round, asked).results)
  }

  /** Noting a live node that asked, under whatever ID it gave, leaves a net as good as it was. */
  lemma NotedKeeps(net: Net, c: NodeId, n: Node)
    requires NetOk(net) && Covered(net) && c in net && n.id in net && WireSafe(n)
    ensures var net' := net[c := Noted(c, net[c], n)];
            NetOk(net') && net'.Keys == net.Keys && Covered(net')
  {
    hide BucketIndex, WireSafe, Distinct, Touch;
    var t, t', k, net' := net[c], Noted(c, net[c], n), BucketIndex(c, n.id), net[c := Noted(c, net[c], n)];
    BucketInRange(c, n.id);
    TouchFacts(t[k], n);
    assert net'.Keys == net.Keys;
    NotedOk(c, t, n);
    forall d, b, m: Node | d in net' && 0 <= b < B && m in net'[d][b] ensures m.id in net' && WireSafe(m) {
      if d == c && b == k && m !in t[k] { assert m == n; }
    }
    forall d, u | d in net' && u in net' && d != u ensures Knows(d, net'[d], BucketIndex(d, u)) {
      assert Knows(d, net[d], BucketIndex(d, u));
      if d == c { NotedKnows(c, t, n, BucketIndex(d, u)); }
    }
  }

  lemma NotedOk(self: NodeId, t: Table, n: Node)
    requires TableOk(self, t)
    ensures TableOk(self, Noted(self, t, n))
  {
    hide BucketIndex, Distinct, Touch;
    BucketInRange(self, n.id);
    TouchFacts(t[BucketIndex(self, n.id)], n);
  }

  lemma NotedKnows(self: NodeId, t: Table, n: Node, b: nat)
    requires TableOk(self, t) && Knows(self, t, b)
    ensures Knows(self, Noted(self, t, n), b)
  {
    hide BucketIndex, Distinct, Touch;
    BucketInRange(self, n.id);
    TouchFacts(t[BucketIndex(self, n.id)], n);
    var m: Node :| m in t[b] && m.id != self;
    assert m in Noted(self, t, n)[b];
  }

  // ---- such networks exist ----

  function SortAll(l: seq<Node>, target: NodeId): seq<Node> {
    if l == [] then [] else Insert(l[|l| - 1], SortAll(l[..|l| - 1], target), target)
  }

  lemma {:induction false} SortAllSorts(l: seq<Node>, target: NodeId)
    ensures Sorted(SortAll(l, target), target) && Permutation(SortAll(l, target), l)
  {
    if l != [] {
      var init, last := l[..|l| - 1], l[|l| - 1];
      assert l == init + [last];
      SortAllSorts(init, target);
      InsertSorts(last, SortAll(init, target), target);
    }
  }

  ghost function AnswerFrom(net: Net, target: NodeId, n: Node): Response
    requires NetOk(net) && n.id in net
  {
    BucketInRange(n.id, target);
    Response(None, EncodeNodes(SortAll(Gathered(net[n.id], K, BucketIndex(n.id, target)), target)))
  }

  ghost function AllAnswer(net: Net, target: NodeId, asked: seq<Node>): Outcome
    requires NetOk(net)
  {
    if IdSet(asked) <= net.Keys then
      Answers(seq(|asked|, i requires 0 <= i < |asked| && asked[i].id in net => AnswerFrom(net, target, asked[i])))
    else SendFails
  }

  lemma AllAnswerHonestly(net: Net, target: NodeId, asked: seq<Node>)
    requires NetOk(net) && IdSet(asked) <= net.Keys
    ensures AllAnswer(net, target, asked).Answers?
    ensures HonestRound(net, target, asked, AllAnswer(net, target, asked).results)
  {
    hide NetOk, EncodeNodes, Gathered, SortAll, BucketIndex, Permutation, Sorted;
    var results := AllAnswer(net, target, asked).results;
    forall i | 0 <= i < |asked| ensures AnswerOf(net, target, asked[i], results[i]) {
      var n: Node := asked[i];
      assert n in asked && n.id in IdSet(asked);
      AnswerFromIsAnswer(net, target, n);
    }
    forall n: Node | n in asked ensures exists r :: r in results && AnswerOf(net, target, n, r) {
      var i :| 0 <= i < |asked| && asked[i] == n;
      assert results[i] in results;
    }
    forall r | r in results ensures exists n :: n in asked && AnswerOf(net, target, n, r) {
      var i :| 0 <= i < |results| && results[i] == r;
      assert asked[i] in asked;
    }
  }

  lemma AnswerFromIsAnswer(net: Net, target: NodeId, n: Node)
    requires NetOk(net) && n.id in net
    ensures AnswerOf(net, target, n, AnswerFrom(net, target, n))
  {
    hide EncodeNodes, SortAll, BucketIndex;
    BucketInRange(n.id, target);
    SortAllSorts(Gathered(net[n.id], K, BucketIndex(n.id, target)), target);
  }

  /** For all tables and every target there is a network in which every live node answers honestly. */
  lemma HonestNetworkExists(nets: Nets, target: NodeId)
    requires NetsOk(nets)
    ensures exists network: Network :: Honest(nets, network, target)
  {
    hide NetOk, HonestRound, AllAnswer;
    var reply: Network := (round: nat, asked: seq<Node>) => AllAnswer(nets(round), target, asked);
    forall round: nat, asked: seq<Node> | IdSet(asked) <= nets(round).Keys
      ensures reply(round, asked).Answers?
      ensures HonestRound(nets(round), target, asked, reply(round, asked).results)
    {
      AllAnswerHonestly(nets(round), target, asked);
    }
    assert Honest(nets, reply, target);
  }

  /** The answer of a live node that is not alone decodes to a list of live nodes. */
  lemma AnswerDecodes(net: Net, target: NodeId, n: Node, other: NodeId, r: Response) returns (l: seq<Node>)
    requires NetOk(net) && Covered(net) && AnswerOf(net, target, n, r) && other in net && other != n.id
    ensures DecodeNodes(r.nodes) == Value(l) && IsNearest(n.id, net[n.id], K, target, l)
    ensures l != [] && IdSet(l) <= net.Keys
  {
    hide IsNearest, Knows, SlashSafe, WireSafe, Representable, DecodeNodes, EncodeNodes, BucketIndex;
    var c := n.id;
    l :| IsNearest(c, net[c], K, target, l) && r.nodes == EncodeNodes(l);
    BucketInRange(c, other);
    assert Knows(c, net[c], BucketIndex(c, other));
    AnswerSome(c, net[c], target, l, BucketIndex(c, other));
    forall m: Node | m in l ensures m.id in net && WireSafe(m) {
      var b :| 0 <= b < B && m in net[c][b];
    }
    SafeList(l);
    NodesRoundTrip(l);
  }

  /** A table with a node answers with some of its nodes. */
  lemma AnswerSome(c: NodeId, t: Table, target: NodeId, l: seq<Node>, k: nat)
    requires |t| == B && TableOk(c, t) && IsNearest(c, t, K, target, l) && k < B && Knows(c, t, k)
    ensures l != [] && forall m :: m in l ==> exists b :: 0 <= b < B && m in t[b]
  {
    hide IsNearest, TableOk, BucketIndex, AllFrom;
    NearestFacts(c, t, K, target, l);
    AllFromFacts(c, t, BucketIndex(c, target));
    var m: Node :| m in t[k];
    assert m in AllFrom(t, BucketIndex(c, target));
  }

  lemma SafeList(l: seq<Node>)
    requires forall n :: n in l ==> WireSafe(n)
    ensures SlashSafe(CompactInfos(l)) && forall n :: n in l ==> Representable(n)
  {
    forall k | 0 <= k < |l| ensures !HasSlashes(CompactInfos(l)[k]) && !EndsInSlash(CompactInfos(l)[k]) {
      assert l[k] in l;
    }
  }

  /** The answer of a live node other than the target leads below the highest bit of its distance. */
  lemma AnswerMakesProgress(net: Net, target: NodeId, n: Node, r: Response)
    requires NetOk(net) && Covered(net) && AnswerOf(net, target, n, r) && target in net && target != n.id
    ensures DecodeNodes(r.nodes).Value?
    ensures var l := DecodeNodes(r.nodes).value;
            IdSet(l) <= net.Keys && l != []
            && Distance(l[0].id, target) < Pow2(Log2(Distance(n.id, target))) <= Distance(n.id, target)
  {
    var l := AnswerDecodes(net, target, n, target, r);
    var c := n.id;
    assert Knows(c, net[c], BucketIndex(c, target));
    var m: Node :| m in net[c][BucketIndex(c, target)] && m.id != c;
    NearestMakesProgress(c, net[c], K, target, l, m);
    DistanceSymmetric(c, target);
  }

  /** Absorbing an honest round never panics and brings in live nodes only. */
  lemma HonestAbsorb(net: Net, target: NodeId, other: NodeId, asked: seq<Node>, l: seq<Node>, results: seq<Response>)
    requires NetOk(net) && Covered(net) && target in net && other in net && other != target
    requires HonestRound(net, target, asked, results) && IdSet(l) <= net.Keys
    ensures Absorb(l, results).Value? && IdSet(Absorb(l, results).value) <= net.Keys
  {
    hide NetOk, Covered, AnswerOf, DecodeNodes;
    forall k | 0 <= k < |results|
      ensures DecodeNodes(results[k].nodes).Value?
      ensures IdSet(DecodeNodes(results[k].nodes).value) <= net.Keys
    {
      var r := results[k];
      assert r in results;
      var n: Node :| n in asked && AnswerOf(net, target, n, r);
      var m := AnswerDecodes(net, target, n, if n.id == target then other else target, r);
    }
    AbsorbNoPanic(l, results);
    forall id | id in IdSet(Absorb(l, results).value) ensures id in net.Keys {
      var n :| n in Absorb(l, results).value && n.id == id;
      AbsorbOrigin(l, results, n);
    }
  }

  /** The first node of a sorted list is at least as near as any node of the list. */
  lemma FirstIsNearest(l: seq<Node>, target: NodeId, id: NodeId)
    requires Sorted(l, target) && id in IdSet(l)
    ensures l != [] && Distance(l[0].id, target) <= Distance(id, target)
  {
    var n :| n in l && n.id == id;
    var i :| 0 <= i < |l| && l[i] == n;
    if i > 0 { assert Distance(l[0].id, target) <= Distance(l[i].id, target); }
  }

  /** The first node asked answers with a node that is nearer by a binary digit. */
  lemma FirstAnswer(net: Net, target: NodeId, n: Node, asked: seq<Node>, results: seq<Response>) returns (k: nat)
    requires NetOk(net) && Covered(net) && target in net
    requires HonestRound(net, target, asked, results)
    requires n in asked && n.id in net && n.id != target
    ensures k < |results| && DecodeNodes(results[k].nodes).Value?
    ensures var l := DecodeNodes(results[k].nodes).value;
            l != [] && Distance(l[0].id, target) < Pow2(Log2(Distance(n.id, target)))
  {
    hide NetOk, Covered, AnswerOf, DecodeNodes, Distance, Pow2, Log2;
    var r: Response :| r in results && AnswerOf(net, target, n, r);
    AnswerMakesProgress(net, target, n, r);
    k :| 0 <= k < |results| && results[k] == r;
  }

  /** In an honest network each round lowers the highest bit of the best distance, until the target is found. */
  lemma RoundConverges(net: Net, target: NodeId, asked: seq<Node>, l: seq<Node>, results: seq<Response>,
                       after: seq<Node>)
    requires NetOk(net) && Covered(net) && target in net
    requires HonestRound(net, target, asked, results)
    requires asked != [] && asked[0].id in net && asked[0].id != target && Distinct(l)
    requires Absorb(l, results).Value? && Permutation(after, Absorb(l, results).value) && Sorted(after, target)
    ensures after != []
    ensures Distance(after[0].id, target) < Pow2(Log2(Distance(asked[0].id, target)))
  {
    hide NetOk, Covered, HonestRound, DecodeNodes, Distance, IdSet, Sorted, Distinct, Absorb, Permutation, Pow2, Log2;
    var k := FirstAnswer(net, target, asked[0], asked, results);
    AbsorbFacts(l, results);
    var nodes := DecodeNodes(results[k].nodes).value;
    FirstInIdSet(nodes);
    PermutationMembers(after, Absorb(l, results).value);
    FirstIsNearest(after, target, nodes[0].id);
  }

  lemma FirstInIdSet(l: seq<Node>)
    requires l != []
    ensures l[0].id in IdSet(l)
  {
    assert l[0] in l;
  }

  /** The number of binary digits of d. */
  function Bits(d: nat): nat {
    if d == 0 then 0 else Log2(d) + 1
  }

  lemma BitsBelow(d: nat, k: nat)
    requires d < Pow2(k)
    ensures Bits(d) <= k
  {
    if d > 0 {
      Log2Bounds(d);
      if Log2(d) >= k { Pow2Monotone(k, Log2(d)); }
    }
  }

  lemma DistanceBits(id: NodeId, target: NodeId)
    ensures Bits(Distance(id, target)) <= B
  {
    DistanceOfBytes(id, target);
    NumberBelow(XorBytes(id, target));
    BitsBelow(Distance(id, target), B);
  }

  // ---- the lookup ----

  predicate StrictlyDecreasing(s: seq<nat>) {
    forall i, j :: 0 <= i < j < |s| ==> s[i] > s[j]
  }

  /** The nodes one round asks. */
  function Asked(l: seq<Node>): (r: seq<Node>)
    ensures r <= l && |r| == if |l| < 3 then |l| else 3
  {
    l[..Min(ALPHA, |l|)]
  }

  /** The network in which the convergence claim holds, and a table that only knows its live nodes. */
  ghost predicate Converging(nets: Nets, network: Network, target: NodeId, known: seq<Node>) {
    NetsOk(nets) && (forall round: nat :: Covered(nets(round)))
    && Honest(nets, network, target) && target in nets(0)
    && (exists other :: other in nets(0) && other != target)
    && IdSet(known) <= nets(0).Keys
  }

  /** What the hypotheses say about one round. */
  lemma ConvergingNow(nets: Nets, network: Network, target: NodeId, known: seq<Node>, round: nat, asked: seq<Node>)
      returns (other: NodeId)
    requires Converging(nets, network, target, known) && IdSet(asked) <= nets(0).Keys
    ensures NetOk(nets(round)) && Covered(nets(round)) && nets(round).Keys == nets(0).Keys
    ensures target in nets(round) && other in nets(round) && other != target
    ensures network(round, asked).Answers?
    ensures HonestRound(nets(round), target, asked, network(round, asked).results)
  {
    hide NetOk, Covered, HonestRound, IdSet;
    other :| other in nets(0) && other != target;
  }

  // ---- the hypotheses of convergence can be met ----

  /** A node that ends in the byte x, at an address of zeros. */
  function ZeroNode(x: Byte): Node {
    Node(Ending(x), seq(IP_LENGTH, _ => 0), 0)
  }

  lemma ZeroNodeSafe(x: Byte)
    requires x != SLASH
    ensures WireSafe(ZeroNode(x))
  {
    hide PutNumber;
    var info := CompactInfo(ZeroNode(x));
    assert PutNumber(0, 2) == [0, 0] by { PutZero(); }
    assert forall i :: 0 <= i < |info| ==> info[i] == 0 || info[i] == x;
  }

  lemma PutZero()
    ensures PutNumber(0, 2) == [0, 0]
  {
    assert Shr(0, 8) == 0 by { ShrBelow(0, 0, 8); }
    assert ByteOf(0) == 0;
    assert PutNumber(0, 1) == PutNumber(0, 0) + [0];
  }

  /** A table that holds one node, in bucket 0. */
  function OneNode(n: Node): Table {
    seq(B, b => if b == 0 then [n] else [])
  }

  lemma OneNodeOk(self: NodeId, n: Node)
    requires BucketIndex(self, n.id) == 0
    ensures TableOk(self, OneNode(n)) && forall b, m :: 0 <= b < B && m in OneNode(n)[b] ==> m == n
  {
    hide BucketIndex;
  }

  /** Two nodes that know each other. */
  function Couple(): Net {
    map[Ending(0) := OneNode(ZeroNode(1)), Ending(1) := OneNode(ZeroNode(0))]
  }

  lemma CoupleOk()
    ensures NetOk(Couple()) && Covered(Couple()) && Ending(0) != Ending(1)
  {
    hide Distance, WireSafe, TableOk;
    EndingDistance(1);
    DistanceSymmetric(Ending(0), Ending(1));
    assert Ending(0)[19] != Ending(1)[19];
    ZeroNodeSafe(0);
    ZeroNodeSafe(1);
    OneNodeOk(Ending(0), ZeroNode(1));
    OneNodeOk(Ending(1), ZeroNode(0));
    assert ZeroNode(1) in OneNode(ZeroNode(1))[0] && ZeroNode(0) in OneNode(ZeroNode(0))[0];
  }

  /** There is a network to converge in, and a table to start from. */
  lemma ConvergingExists()
    ensures exists nets: Nets, network: Network :: Converging(nets, network, Ending(0), [ZeroNode(1)])
  {
    hide NetOk, Covered, HonestRound, Honest;
    var nets: Nets, target := _ => Couple(), Ending(0);
    CoupleOk();
    assert NetsOk(nets);
    HonestNetworkExists(nets, target);
    var network: Network :| Honest(nets, network, target);
    assert Ending(1) in nets(0) && target in nets(0);
    assert Converging(nets, network, target, [ZeroNode(1)]);
  }

  /** The record of a run: the list before each round, what came back, and the distance of its first node. */
  datatype Trace = Trace(lists: seq<seq<Node>>, results: seq<seq<Response>>, best: seq<nat>)

  /** Round by round the results are what the network answered, and best strictly decreases. */
  ghost predicate TraceOk(tr: Trace, network: Network, target: NodeId) {
    |tr.lists| == |tr.results| == |tr.best| && StrictlyDecreasing(tr.best)
    && forall r :: 0 <= r < |tr.lists| ==>
         network(r, Asked(tr.lists[r])) == Answers(tr.results[r])
         && tr.lists[r] != [] && tr.best[r] == Distance(tr.lists[r][0].id, target)
  }

  /** after is l with the new nodes of all results, sorted. By SortIsUnique there is only one such list. */
  ghost predicate Follows(l: seq<Node>, results: seq<Response>, after: seq<Node>, target: NodeId) {
    Absorb(l, results).Value? && Permutation(after, Absorb(l, results).value) && StrictlySorted(after, target)
  }

  /** The lists of the run: it begins with start, every round leads to the next list, and it has come to l. */
  ghost predicate Leads(start: seq<Node>, tr: Trace, l: seq<Node>, target: NodeId) {
    var all := tr.lists + [l];
    all[0] == start && |tr.lists| == |tr.results|
    && forall r :: 0 <= r < |tr.results| ==> Follows(all[r], tr.results[r], all[r + 1], target)
  }

  lemma LeadsStep(start: seq<Node>, tr: Trace, l: seq<Node>, target: NodeId, results: seq<Response>, after: seq<Node>)
    requires Leads(start, tr, l, target) && Follows(l, results, after, target) && l != []
    ensures Leads(start, Extend(tr, l, results, target), after, target)
  {
    hide Follows;
    var tr' := Extend(tr, l, results, target);
    var all, all' := tr.lists + [l], tr'.lists + [after];
    forall r | 0 <= r < |tr'.results| ensures Follows(all'[r], tr'.results[r], all'[r + 1], target) {
      assert r < |tr.results| ==> all'[r] == all[r] && all'[r + 1] == all[r + 1] && tr'.results[r] == tr.results[r];
    }
  }

  /** Every node of every response of the first rounds of the trace is in l, under some address. */
  ghost predicate Learned(tr: Trace, l: seq<Node>) {
    forall r, k :: 0 <= r < |tr.results| && 0 <= k < |tr.results[r]| ==>
      DecodeNodes(tr.results[r][k].nodes).Value?
      && IdSet(DecodeNodes(tr.results[r][k].nodes).value) <= IdSet(l)
  }

  /** One more round of an improving run. */
  lemma TraceStep(tr: Trace, network: Network, l: seq<Node>, results: seq<Response>, target: NodeId)
    requires TraceOk(tr, network, target) && network(|tr.best|, Asked(l)) == Answers(results) && l != []
    requires forall r :: 0 <= r < |tr.best| ==> tr.best[r] > Distance(l[0].id, target)
    ensures TraceOk(Extend(tr, l, results, target), network, target)
  {
    hide Distance, Asked;
  }

  function Extend(tr: Trace, l: seq<Node>, results: seq<Response>, target: NodeId): Trace
    requires l != []
  {
    Trace(tr.lists + [l], tr.results + [results], tr.best + [Distance(l[0].id, target)])
  }

  /** Absorbing a round keeps what was learned, adds what the round brings, and sorting changes neither. */
  lemma LearnedStep(tr: Trace, l: seq<Node>, results: seq<Response>, target: NodeId, after: seq<Node>)
    requires Learned(tr, l) && Distinct(l) && l != [] && Absorb(l, results).Value?
    requires Permutation(after, Absorb(l, results).value)
    ensures Learned(Extend(tr, l, results, target), after)
    ensures IdSet(l) <= IdSet(after) && Distinct(after) && forall n :: n in l ==> n in after
  {
    hide DecodeNodes, IdSet, Distinct;
    var m := Absorb(l, results).value;
    AbsorbFacts(l, results);
    IdSetPrefix(l, m);
    PermutationMembers(after, m);
    assert Permutation(m, after);
    PermutationDistinct(m, after);
    var tr' := Extend(tr, l, results, target);
    forall r, k | 0 <= r < |tr'.results| && 0 <= k < |tr'.results[r]|
      ensures DecodeNodes(tr'.results[r][k].nodes).Value?
      ensures IdSet(DecodeNodes(tr'.results[r][k].nodes).value) <= IdSet(after)
    {
      if r < |tr.results| { assert tr'.results[r] == tr.results[r]; } else { assert tr'.results[r] == results; }
    }
  }

  /** The list before a round, the responses absorbed, and the sorted list after it. */
  lemma ConvergingStep(nets: Nets, network: Network, target: NodeId, known: seq<Node>, round: nat,
                       l: seq<Node>, results: seq<Response>, after: seq<Node>)
    requires Converging(nets, network, target, known)
    requires l != [] && Distinct(l) && IdSet(l) <= nets(0).Keys
    requires network(round, Asked(l)) == Answers(results)
    requires Absorb(l, results).Value? && Permutation(after, Absorb(l, results).value) && Sorted(after, target)
    ensures IdSet(after) <= nets(0).Keys
    ensures after != []
    ensures l[0].id != target ==> after[0].id != l[0].id
                                  && Bits(Distance(after[0].id, target)) < Bits(Distance(l[0].id, target))
  {
    hide NetOk, Covered, HonestRound, DecodeNodes, Absorb, Distance, Sorted;
    var asked := Asked(l);
    assert asked[0] == l[0] && asked[0] in asked;
    IdSetPrefix(asked, l);
    var net := nets(round);
    var other := ConvergingNow(nets, network, target, known, round, asked);
    HonestAbsorb(net, target, other, asked, l, results);
    PermutationMembers(after, Absorb(l, results).value);
    assert l[0] in l;
    AbsorbFacts(l, results);
    assert l[0] in Absorb(l, results).value;
    if l[0].id != target {
      RoundConverges(net, target, asked, l, results, after);
      var d := Distance(l[0].id, target);
      DistanceZero(l[0].id, target);
      Log2Bounds(d);
      BitsBelow(Distance(after[0].id, target), Log2(d));
    }
  }

  /** The lookup goes on after the response: it has no values to return, and its nodes decode. */
  predicate Passes(queryType: string, r: Response) {
    DecodeNodes(r.nodes).Value? && (queryType == "find_node" || r.values == None)
  }

  /** Response k is the first that ends the lookup. */
  predicate FirstEnd(queryType: string, results: seq<Response>, k: int) {
    0 <= k < |results| && !Passes(queryType, results[k]) && forall j :: 0 <= j < k ==> Passes(queryType, results[j])
  }

  /** What a response that ends the lookup ends it with. */
  function EndOf(queryType: string, r: Response): Result {
    if queryType == "get_peers" && r.values.Some? then Values(Split(r.values.value, SLASHES)) else Crash
  }

  /**
   * What going through the responses in their order comes to: nothing if all of them pass, and otherwise what the first
   * one that does not says. The last two clauses say it without the names above.
   */
  ghost predicate RoundOver(queryType: string, results: seq<Response>, done: Option<Result>) {
    (done == None <==> forall r :: r in results ==> Passes(queryType, r))
    && (done.Some? ==> exists k :: FirstEnd(queryType, results, k) && done.value == EndOf(queryType, results[k]))
    && (forall k :: 0 <= k < |results| && queryType == "get_peers" && results[k].values.Some?
                    && (forall j :: 0 <= j < k ==> results[j].values == None && DecodeNodes(results[j].nodes).Value?)
                    ==> done == Some(Values(Split(results[k].values.value, SLASHES))))
    && (forall k :: 0 <= k < |results| && (queryType == "find_node" || results[k].values == None)
                    && DecodeNodes(results[k].nodes) == Panic
                    && (forall j :: 0 <= j < k ==> Passes(queryType, results[j]))
                    ==> done == Some(Crash))
  }

  /** The outcome of a round that ends the lookup without a list. */
  ghost predicate EndsLookup(queryType: string, outcome: Outcome, result: Result) {
    (result.SendError? <==> outcome.SendFails?)
    && (outcome.Answers? ==> (result.Values? || result.Crash?) && RoundOver(queryType, outcome.results, Some(result)))
  }

  lemma SendEnds(queryType: string)
    ensures EndsLookup(queryType, SendFails, SendError)
  {
  }

  lemma RoundEnds(queryType: string, results: seq<Response>, result: Result)
    requires RoundOver(queryType, results, Some(result))
    ensures EndsLookup(queryType, Answers(results), result)
    ensures result.Values? || result.Crash?
    ensures queryType == "find_node" ==> result == Crash
  {
    hide Passes, DecodeNodes;
  }

  /** No response of the rounds so far ended the lookup. */
  ghost predicate AllPass(queryType: string, tr: Trace) {
    forall r, k :: 0 <= r < |tr.results| && 0 <= k < |tr.results[r]| ==> Passes(queryType, tr.results[r][k])
  }

  lemma AllPassStep(queryType: string, tr: Trace, l: seq<Node>, results: seq<Response>, target: NodeId)
    requires AllPass(queryType, tr) && l != [] && RoundOver(queryType, results, None)
    ensures AllPass(queryType, Extend(tr, l, results, target))
  {
    hide Passes, Distance;
    var tr' := Extend(tr, l, results, target);
    forall r, k | 0 <= r < |tr'.results| && 0 <= k < |tr'.results[r]| ensures Passes(queryType, tr'.results[r][k]) {
      if r < |tr.results| {
        assert tr'.results[r] == tr.results[r];
      } else {
        assert tr'.results[r] == results && results[k] in results;
      }
    }
  }

  /** What holds before each round: the list, its first node the closest one so far. */
  ghost predicate Run(start: seq<Node>, tr: Trace, network: Network, l: seq<Node>, target: NodeId) {
    l != [] && Distinct(l) && TraceOk(tr, network, target) && Leads(start, tr, l, target) && Learned(tr, l)
    && forall r :: 0 <= r < |tr.best| ==> tr.best[r] > Distance(l[0].id, target)
  }

  /** The best distance of round r has at most B - r binary digits. */
  predicate Halving(best: seq<nat>) {
    forall r :: 0 <= r < |best| ==> Bits(best[r]) <= B - r
  }

  ghost predicate ConvergingRun(nets: Nets, tr: Trace, l: seq<Node>, target: NodeId) {
    l != [] && IdSet(l) <= nets(0).Keys && Halving(tr.best + [Distance(l[0].id, target)])
  }

  /** A round either leaves the first node alone, which ends the lookup, or brings a strictly nearer one. */
  lemma RoundStep(start: seq<Node>, tr: Trace, network: Network, l: seq<Node>, target: NodeId,
                  results: seq<Response>, after: seq<Node>)
    requires Run(start, tr, network, l, target) && network(|tr.best|, Asked(l)) == Answers(results)
    requires Absorb(l, results).Value? && Permutation(after, Absorb(l, results).value) && Sorted(after, target)
    ensures var tr' := Extend(tr, l, results, target);
            TraceOk(tr', network, target) && Leads(start, tr', after, target) && Learned(tr', after)
            && after != [] && StrictlySorted(after, target)
            && (after[0] != l[0] ==> Run(start, tr', network, after, target))
    ensures IdSet(l) <= IdSet(after)
    ensures EqualsNodes(after[0], l[0], false) <==> after[0] == l[0]
    ensures after[0] != l[0] ==> Distance(after[0].id, target) < Distance(l[0].id, target)
  {
    hide TraceOk, Leads, Learned, Distinct, Distance, Absorb, IdSet, EqualsNodes;
    LearnedStep(tr, l, results, target, after);
    TraceStep(tr, network, l, results, target);
    DistinctSortedStrict(after, target);
    LeadsStep(start, tr, l, target, results, after);
    RoundImproves(l, after, target);
  }

  /** An honest round neither fails nor panics. */
  lemma ConvergingRound(nets: Nets, network: Network, target: NodeId, known: seq<Node>, round: nat, tr: Trace,
                        l: seq<Node>)
    requires Converging(nets, network, target, known) && ConvergingRun(nets, tr, l, target)
    ensures network(round, Asked(l)).Answers? && Absorb(l, network(round, Asked(l)).results).Value?
  {
    hide NetOk, Covered, HonestRound, Absorb, Halving;
    var asked := Asked(l);
    IdSetPrefix(asked, l);
    var other := ConvergingNow(nets, network, target, known, round, asked);
    HonestAbsorb(nets(round), target, other, asked, l, network(round, asked).results);
  }

  lemma HalvingStep(nets: Nets, network: Network, known: seq<Node>, tr: Trace, l: seq<Node>, target: NodeId,
                    results: seq<Response>, after: seq<Node>)
    requires Converging(nets, network, target, known) && ConvergingRun(nets, tr, l, target) && Distinct(l)
    requires network(|tr.best|, Asked(l)) == Answers(results)
    requires Absorb(l, results).Value? && Permutation(after, Absorb(l, results).value) && Sorted(after, target)
    requires after != [] && (after[0] != l[0] ==> Distance(after[0].id, target) < Distance(l[0].id, target))
    ensures Halving(tr.best + [Distance(l[0].id, target)])
    ensures after[0] == l[0] ==> l[0].id == target
    ensures after[0] != l[0] ==>
              ConvergingRun(nets, Extend(tr, l, results, target), after, target)
  {
    hide Converging, Distance, Absorb, IdSet, Permutation, Sorted, Bits, Distinct;
    ConvergingStep(nets, network, target, known, |tr.best|, l, results, after);
    DistanceZero(l[0].id, target);
    var b := tr.best + [Distance(l[0].id, target)];
    assert b[|tr.best|] == Distance(l[0].id, target);
  }

  /**
   * The responses of one round, in the order they came. The first one that has values, in get_peers, or does not decode
   * ends the lookup: with those values, or with a panic.
   */
  method AbsorbResults(nl: NodeList, queryType: string, results: seq<Response>) returns (done: Option<Result>)
    requires queryType == "find_node" || queryType == "get_peers"
    modifies nl`nodes
    ensures RoundOver(queryType, results, done)
    ensures done == None ==> Absorb(old(nl.nodes), results) == Value(nl.nodes)
    ensures done == Some(Crash) ==> Absorb(old(nl.nodes), results) == Panic
  {
    hide DecodeNodes, Absorb;
    assert results[0..] == results;
    for k := 0 to |results|
      invariant Absorb(old(nl.nodes), results) == Absorb(nl.nodes, results[k..])
      invariant forall j :: 0 <= j < k ==> Passes(queryType, results[j])
    {
      var result := results[k];
      AbsorbOne(nl.nodes, results, k);
      if queryType == "get_peers" && result.values.Some? {
        assert FirstEnd(queryType, results, k);
        return Some(Values(Split(result.values.value, SLASHES)));
      }
      match DecodeNodes(result.nodes) {
        case Panic =>
          assert FirstEnd(queryType, results, k);
          return Some(Crash);
        case Value(nodes) => nl.AppendUnique(nodes);
      }
    }
    assert results[|results|..] == [];
    AbsorbNothing(nl.nodes);
    return None;
  }

  lemma AbsorbNothing(l: seq<Node>)
    ensures Absorb(l, []) == Value(l)
  {
  }

  lemma AbsorbOne(l: seq<Node>, results: seq<Response>, k: nat)
    requires k < |results|
    ensures Absorb(l, results[k..]) == if DecodeNodes(results[k].nodes) == Panic then Panic
                                       else Absorb(AppendNew(l, DecodeNodes(results[k].nodes).value), results[k + 1..])
  {
    hide DecodeNodes;
    assert results[k..][0] == results[k] && results[k..][1..] == results[k + 1..];
  }

  method EncodeClosest(nl: NodeList) returns (closest: seq<seq<Byte>>)
    ensures closest == CompactInfos(nl.nodes)
  {
    hide CompactInfo;
    closest := [];
    var l := nl.nodes;
    for i := 0 to |l|
      invariant closest == CompactInfos(l[..i])
    {
      closest := closest + [CompactInfo(l[i])];
      assert l[..i + 1] == l[..i] + [l[i]];
    }
    assert l[..|l|] == l;
  }

  /**
   * The lookup ends against any network, however it answers: best, the distance of the closest node, strictly
   * decreases from round to round. A find_node result is strictly sorted and holds every starting and every
   * learned ID. In an honest network it starts with the target after at most 161 rounds. The other outcomes are those
   * of the first round that is not in the trace: no response of an earlier round ended the lookup, and the first one
   * that does so now says how.
   */
  method LookUP(rt: RoutingTable, id: NodeId, queryType: string, network: Network, ghost nets: Nets)
      returns (result: Result, ghost tr: Trace, ghost list: seq<Node>)
    requires rt.Valid()
    ensures result == NoNodesKnown <==> rt.Known() == []
    ensures result == InvalidQuery <==> rt.Known() != [] && queryType != "find_node" && queryType != "get_peers"
    ensures TraceOk(tr, network, id)
    ensures forall start :: IsNearest(rt.self, rt.table[..], ALPHA, id, start) ==> Leads(start, tr, list, id)
    ensures result.Closest? ==>
              result.infos == CompactInfos(list) && list != [] && StrictlySorted(list, id) && Learned(tr, list)
              && (forall start :: IsNearest(rt.self, rt.table[..], ALPHA, id, start) ==> IdSet(start) <= IdSet(list))
              && tr.lists != [] && list[0] == tr.lists[|tr.lists| - 1][0]
    ensures AllPass(queryType, tr)
    ensures result.SendError? || result.Values? || result.Crash? ==>
              EndsLookup(queryType, network(|tr.best|, Asked(list)), result)
    ensures Converging(nets, network, id, rt.Known()) && queryType == "find_node" && rt.Known() != [] ==>
              result.Closest? && list[0].id == id && |tr.best| <= B + 1 && Halving(tr.best)
  {
    hide Converging, ConvergingRun, TraceOk, Leads, Learned, Distance, Absorb, CompactInfos, IsNearest, EqualsNodes,
         Distinct, AllPass, RoundOver, EndsLookup;
    var nl := rt.GetNearestNodes(ALPHA, id);
    ghost var start := nl.nodes;
    list, tr := start, Trace([], [], []);
    EmptyTrace(network, id, start);
    NothingEnded(queryType);
    StartFacts(rt, id, start);
    StartUnique(rt, id, start);
    if nl.nodes == [] { return NoNodesKnown, tr, list; }
    if queryType != "find_node" && queryType != "get_peers" { return InvalidQuery, tr, list; }
    var closestNode := nl.nodes[0];
    var round := 0;
    ghost var conv := Converging(nets, network, id, rt.Known());
    ConvergingStart(nets, network, id, rt.Known(), start);
    while true
      invariant nl.comparator == id && fresh(nl)
      invariant Run(start, tr, network, nl.nodes, id) && list == nl.nodes && AllPass(queryType, tr)
      invariant closestNode == nl.nodes[0] && round == |tr.best|
      invariant IdSet(start) <= IdSet(nl.nodes)
      invariant conv ==> ConvergingRun(nets, tr, nl.nodes, id)
      decreases Distance(closestNode.id, id)
    {
      var asked := Asked(nl.nodes);
      if conv { ConvergingRound(nets, network, id, rt.Known(), round, tr, list); }
      var outcome := network(round, asked);
      if outcome.SendFails? {
        SendEnds(queryType);
        return SendError, tr, list;
      }
      var done := AbsorbResults(nl, queryType, outcome.results);
      if done.Some? {
        RoundEnds(queryType, outcome.results, done.value);
        return done.value, tr, list;
      }
      nl.Sort();
      RoundStep(start, tr, network, list, id, outcome.results, nl.nodes);
      if conv { HalvingStep(nets, network, rt.Known(), tr, list, id, outcome.results, nl.nodes); }
      AllPassStep(queryType, tr, list, outcome.results, id);
      tr, list := Extend(tr, list, outcome.results, id), nl.nodes;
      if EqualsNodes(nl.nodes[0], closestNode, false) {
        if conv { HalvingEnds(tr.best); }
        var closest := EncodeClosest(nl);
        return Closest(closest), tr, list;
      }
      closestNode := nl.nodes[0];
      round := round + 1;
    }
  }

  lemma EmptyTrace(network: Network, target: NodeId, start: seq<Node>)
    ensures TraceOk(Trace([], [], []), network, target) && Learned(Trace([], [], []), start)
    ensures Leads(start, Trace([], [], []), start, target)
  {
  }

  lemma NothingEnded(queryType: string)
    ensures AllPass(queryType, Trace([], [], []))
  {
  }

  lemma StartFacts(rt: RoutingTable, id: NodeId, start: seq<Node>)
    requires rt.Valid() && IsNearest(rt.self, rt.table[..], ALPHA, id, start)
    ensures Distinct(start) && (start == [] <==> rt.Known() == []) && IdSet(start) <= IdSet(rt.Known())
  {
    hide IsNearest, InBucket, Replay, Distinct, StrictlySorted;
    rt.NearestOfKnown(ALPHA, id, start);
  }

  lemma StartUnique(rt: RoutingTable, id: NodeId, start: seq<Node>)
    requires rt.Valid() && IsNearest(rt.self, rt.table[..], ALPHA, id, start)
    ensures forall s :: IsNearest(rt.self, rt.table[..], ALPHA, id, s) ==> s == start
  {
    rt.ValidTable();
    forall s | IsNearest(rt.self, rt.table[..], ALPHA, id, s) ensures s == start {
      NearestIsUnique(rt.self, rt.table[..], ALPHA, id, s, start);
    }
  }

  lemma ConvergingStart(nets: Nets, network: Network, target: NodeId, known: seq<Node>, start: seq<Node>)
    requires IdSet(start) <= IdSet(known) && start != []
    ensures Converging(nets, network, target, known) ==> ConvergingRun(nets, Trace([], [], []), start, target)
  {
    DistanceBits(start[0].id, target);
  }

  /** The last round's best distance is bounded like the others, so there are at most B + 1 rounds. */
  lemma HalvingEnds(best: seq<nat>)
    requires Halving(best)
    ensures |best| <= B + 1
  {
    if best != [] { assert 0 <= Bits(best[|best| - 1]); }
  }
}
