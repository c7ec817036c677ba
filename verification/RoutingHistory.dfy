/**
 * What a routing table should hold after any run of updates and removals (routingTable.go), said without
 * buckets: one list of live nodes, least recently updated first.
 */
module RoutingHistory {
  import opened Bytes
  import opened Metric
  import opened Nodes

  datatype Event = Seen(node: Node) | Removed(id: NodeId)

  /** A known ID keeps its old address and moves to the end; a new one is appended. */
  function Touch(l: seq<Node>, n: Node): seq<Node> {
    var i := IndexOf(l, n.id);
    if i == -1 then l + [n] else Forget(l, n.id) + [l[i]]
  }

  function Apply(l: seq<Node>, e: Event): seq<Node> {
    match e
    case Seen(n) => Touch(l, n)
    case Removed(id) => Forget(l, id)
  }

  function Replay(events: seq<Event>): seq<Node> {
    if events == [] then [] else Apply(Replay(events[..|events| - 1]), events[|events| - 1])
  }

  lemma ReplayStep(events: seq<Event>, e: Event)
    ensures Replay(events + [e]) == Apply(Replay(events), e)
  {
    assert (events + [e])[..|events|] == events;
  }

  // ---- lists ----

  lemma IdSetMember(l: seq<Node>, id: NodeId)
    ensures id in IdSet(l) <==> IndexOf(l, id) != -1
  {
    var i := IndexOf(l, id);
    if i != -1 { assert l[i] in l; }
  }

  lemma ForgetDistinct(l: seq<Node>, id: NodeId)
    requires Distinct(l)
    ensures Distinct(Forget(l, id))
  {
  }

  lemma ForgetMembers(l: seq<Node>, id: NodeId, n: Node)
    requires Distinct(l)
    ensures n in Forget(l, id) <==> n in l && n.id != id
  {
    var i := IndexOf(l, id);
    if i != -1 {
      assert l == l[..i] + [l[i]] + l[i + 1..];
      assert n in l <==> n in l[..i] || n == l[i] || n in l[i + 1..];
    }
  }

  lemma ForgetFacts(l: seq<Node>, id: NodeId)
    requires Distinct(l)
    ensures Distinct(Forget(l, id))
    ensures forall n :: n in Forget(l, id) <==> n in l && n.id != id
  {
    hide Distinct, Forget;
    ForgetDistinct(l, id);
    forall n ensures n in Forget(l, id) <==> n in l && n.id != id { ForgetMembers(l, id, n); }
  }

  lemma TouchFacts(l: seq<Node>, n: Node)
    requires Distinct(l)
    ensures Distinct(Touch(l, n))
    ensures forall m :: m in Touch(l, n) <==> m in l || (m == n && n.id !in IdSet(l))
  {
    hide Distinct, Forget;
    IdSetMember(l, n.id);
    var i := IndexOf(l, n.id);
    if i == -1 {
      DistinctAdd(l, n);
    } else {
      ForgetFacts(l, n.id);
      DistinctAdd(Forget(l, n.id), l[i]);
      forall m | m in l && m.id == n.id ensures m == l[i] { SameNode(l, m, l[i]); }
    }
  }

  lemma SameNode(l: seq<Node>, m: Node, n: Node)
    requires Distinct(l) && m in l && n in l && m.id == n.id
    ensures m == n
  {
    var i :| 0 <= i < |l| && l[i] == m;
    var j :| 0 <= j < |l| && l[j] == n;
    assert i == j;
  }

  lemma {:induction false} ReplayDistinct(events: seq<Event>)
    ensures Distinct(Replay(events))
  {
    if events != [] {
      ReplayDistinct(events[..|events| - 1]);
      var l := Replay(events[..|events| - 1]);
      match events[|events| - 1]
      case Seen(n) => TouchFacts(l, n);
      case Removed(id) => ForgetFacts(l, id);
    }
  }

  // ---- which nodes are live, and under which address ----

  predicate SeenAt(events: seq<Event>, k: int, id: NodeId) {
    0 <= k < |events| && events[k].Seen? && events[k].node.id == id
  }

  predicate NotRemovedAfter(events: seq<Event>, k: int, id: NodeId) {
    forall j :: k < j < |events| && 0 <= j ==> events[j] != Removed(id)
  }

  /** The ID was updated and not removed since. */
  ghost predicate Live(events: seq<Event>, id: NodeId) {
    exists k :: SeenAt(events, k, id) && NotRemovedAfter(events, k, id)
  }

  /** Event k is the first update of its ID since that ID was last removed. */
  ghost predicate FirstSinceRemoval(events: seq<Event>, k: int, id: NodeId) {
    SeenAt(events, k, id) && NotRemovedAfter(events, k, id) && !Live(events[..k], id)
  }

  lemma LiveStep(events: seq<Event>, e: Event, id: NodeId)
    ensures Live(events + [e], id) <==>
            (e.Seen? && e.node.id == id) || (Live(events, id) && e != Removed(id))
  {
    var r := events + [e];
    if Live(events, id) && e != Removed(id) {
      var k :| SeenAt(events, k, id) && NotRemovedAfter(events, k, id);
      assert SeenAt(r, k, id) && NotRemovedAfter(r, k, id);
    }
    if e.Seen? && e.node.id == id {
      assert SeenAt(r, |events|, id) && NotRemovedAfter(r, |events|, id);
    }
    if Live(r, id) {
      var k :| SeenAt(r, k, id) && NotRemovedAfter(r, k, id);
      if k < |events| {
        assert r[|events|] != Removed(id);
        forall j | k < j < |events| && 0 <= j ensures events[j] != Removed(id) { assert r[j] == events[j]; }
        assert SeenAt(events, k, id) && NotRemovedAfter(events, k, id);
      }
    }
  }

  lemma {:induction false} ReplayLive(events: seq<Event>, id: NodeId)
    ensures id in IdSet(Replay(events)) <==> Live(events, id)
  {
    if events != [] {
      var init, e := events[..|events| - 1], events[|events| - 1];
      assert events == init + [e];
      ReplayLive(init, id);
      LiveStep(init, e, id);
      ReplayDistinct(init);
      var l := Replay(init);
      match e {
        case Seen(n) =>
          TouchFacts(l, n);
          IdSetMember(l, n.id);
        case Removed(x) =>
          ForgetFacts(l, x);
      }
    }
  }

  lemma FirstStep(events: seq<Event>, e: Event, k: int, id: NodeId)
    requires k < |events|
    ensures FirstSinceRemoval(events + [e], k, id) <==> FirstSinceRemoval(events, k, id) && e != Removed(id)
  {
    var r := events + [e];
    if 0 <= k {
      assert r[..k] == events[..k];
      if NotRemovedAfter(r, k, id) {
        assert r[|events|] == e;
        forall j | k < j < |events| && 0 <= j ensures events[j] != Removed(id) { assert r[j] == events[j]; }
      }
    }
  }

  /** A node is in the table exactly when it is the first update of its ID since the last removal. */
  lemma {:induction false} ReplayAddress(events: seq<Event>, n: Node)
    ensures n in Replay(events) <==> exists k :: FirstSinceRemoval(events, k, n.id) && events[k].node == n
  {
    if events != [] {
      var init, e, last := events[..|events| - 1], events[|events| - 1], |events| - 1;
      assert events == init + [e];
      ReplayAddress(init, n);
      ReplayLive(init, n.id);
      ReplayDistinct(init);
      var l := Replay(init);
      if e.Seen? { TouchFacts(l, e.node); } else { ForgetFacts(l, e.id); }
      if n in Replay(events) {
        if n in l {
          var k :| FirstSinceRemoval(init, k, n.id) && init[k].node == n;
          FirstStep(init, e, k, n.id);
        } else {
          assert events[..last] == init && FirstSinceRemoval(events, last, n.id);
        }
      }
      if k :| FirstSinceRemoval(events, k, n.id) && events[k].node == n {
        if k < last {
          FirstStep(init, e, k, n.id);
        } else {
          assert events[..last] == init;
        }
      }
    }
  }

  // ---- in which order ----

  /** The index of the last update of id, or -1. */
  function LastSeen(events: seq<Event>, id: NodeId): (k: int)
    ensures -1 <= k < |events|
    ensures k == -1 ==> forall j :: !SeenAt(events, j, id)
    ensures k != -1 ==> SeenAt(events, k, id) && forall j :: k < j ==> !SeenAt(events, j, id)
  {
    if events == [] then -1
    else if SeenAt(events, |events| - 1, id) then |events| - 1
    else
      var k := LastSeen(events[..|events| - 1], id);
      assert forall j :: SeenAt(events, j, id) ==> SeenAt(events[..|events| - 1], j, id);
      k
  }

  predicate ByLastSeen(l: seq<Node>, events: seq<Event>) {
    forall i, j :: 0 <= i < j < |l| ==> LastSeen(events, l[i].id) < LastSeen(events, l[j].id)
  }

  lemma OrderForget(l: seq<Node>, id: NodeId, events: seq<Event>)
    requires ByLastSeen(l, events)
    ensures ByLastSeen(Forget(l, id), events)
  {
    hide LastSeen;
  }

  /** An event about another ID leaves LastSeen alone; one that updates an ID puts it last. */
  lemma OrderAppend(l: seq<Node>, n: Node, events: seq<Event>, e: Event)
    requires ByLastSeen(l, events) && n.id !in IdSet(l) && e.Seen? && e.node.id == n.id
    ensures ByLastSeen(l + [n], events + [e])
  {
    var r := events + [e];
    assert r[..|events|] == events;
    forall m | m in l ensures LastSeen(r, m.id) == LastSeen(events, m.id) < LastSeen(r, n.id) {}
  }

  lemma OrderKeep(l: seq<Node>, events: seq<Event>, e: Event)
    requires ByLastSeen(l, events) && e.Removed?
    ensures ByLastSeen(l, events + [e])
  {
    var r := events + [e];
    assert r[..|events|] == events;
    forall m | m in l ensures LastSeen(r, m.id) == LastSeen(events, m.id) {}
  }

  /** The live nodes stand in the order of their last update. */
  lemma {:induction false} ReplayOrder(events: seq<Event>)
    ensures ByLastSeen(Replay(events), events)
  {
    if events != [] {
      var init, e := events[..|events| - 1], events[|events| - 1];
      assert events == init + [e];
      ReplayOrder(init);
      ReplayDistinct(init);
      var l := Replay(init);
      match e {
        case Seen(n) =>
          var i := IndexOf(l, n.id);
          IdSetMember(l, n.id);
          if i == -1 {
            OrderAppend(l, n, init, e);
          } else {
            OrderForget(l, n.id, init);
            ForgetFacts(l, n.id);
            OrderAppend(Forget(l, n.id), l[i], init, e);
          }
        case Removed(x) =>
          OrderForget(l, x, init);
          OrderKeep(Forget(l, x), init, e);
      }
    }
  }

  // ---- one bucket ----

  /** The nodes of l that belong to bucket b of self, in the order of l. */
  function InBucket(l: seq<Node>, self: NodeId, b: nat): seq<Node> {
    if l == [] then []
    else
      var r := InBucket(l[..|l| - 1], self, b);
      if BucketIndex(self, l[|l| - 1].id) == b then r + [l[|l| - 1]] else r
  }

  lemma {:induction false} InBucketAdd(l: seq<Node>, m: seq<Node>, self: NodeId, b: nat)
    ensures InBucket(l + m, self, b) == InBucket(l, self, b) + InBucket(m, self, b)
  {
    hide BucketIndex;
    if m == [] {
      assert l + m == l;
    } else {
      var init, last := m[..|m| - 1], m[|m| - 1];
      InBucketAdd(l, init, self, b);
      var r := l + m;
      assert r[..|r| - 1] == l + init && r[|r| - 1] == last;
    }
  }

  lemma {:induction false} InBucketMember(l: seq<Node>, self: NodeId, b: nat, n: Node)
    ensures n in InBucket(l, self, b) <==> n in l && BucketIndex(self, n.id) == b
  {
    if l != [] {
      assert l == l[..|l| - 1] + [l[|l| - 1]];
      InBucketMember(l[..|l| - 1], self, b, n);
    }
  }

  lemma {:induction false} InBucketDistinct(l: seq<Node>, self: NodeId, b: nat)
    requires Distinct(l)
    ensures Distinct(InBucket(l, self, b))
  {
    if l != [] {
      var init, last := l[..|l| - 1], l[|l| - 1];
      assert l == init + [last];
      DistinctAdd(init, last);
      InBucketDistinct(init, self, b);
      var r := InBucket(init, self, b);
      forall m | m in r ensures m in init { InBucketMember(init, self, b, m); }
      DistinctAdd(r, last);
    }
  }

  lemma InBucketOne(x: Node, self: NodeId, b: nat)
    ensures InBucket([x], self, b) == if BucketIndex(self, x.id) == b then [x] else []
  {
    assert [x][..0] == [];
  }

  /** Splitting a list at an ID splits the bucket of that ID at the same node. */
  lemma SplitAt(l: seq<Node>, self: NodeId, b: nat, id: NodeId)
    ensures var i, f := IndexOf(l, id), InBucket(l, self, b);
            if i == -1 then IndexOf(f, id) == -1
            else
              var f1, f2 := InBucket(l[..i], self, b), InBucket(l[i + 1..], self, b);
              if BucketIndex(self, id) == b then
                f == f1 + [l[i]] + f2 && IndexOf(f, id) == |f1|
              else f == f1 + f2
  {
    hide BucketIndex, InBucket;
    var i, f := IndexOf(l, id), InBucket(l, self, b);
    if i == -1 {
      if IndexOf(f, id) != -1 { InBucketMember(l, self, b, f[IndexOf(f, id)]); }
    } else {
      var f1, f2 := InBucket(l[..i], self, b), InBucket(l[i + 1..], self, b);
      assert l == l[..i] + [l[i]] + l[i + 1..];
      InBucketAdd(l[..i] + [l[i]], l[i + 1..], self, b);
      InBucketAdd(l[..i], [l[i]], self, b);
      InBucketOne(l[i], self, b);
      if BucketIndex(self, id) == b {
        forall m | 0 <= m < |f1| ensures f1[m].id != id { InBucketMember(l[..i], self, b, f1[m]); }
        assert f[|f1|].id == id && forall m :: 0 <= m < |f1| ==> f[m] == f1[m];
      }
    }
  }

  lemma InBucketForget(l: seq<Node>, self: NodeId, b: nat, id: NodeId)
    ensures InBucket(Forget(l, id), self, b)
            == if BucketIndex(self, id) == b then Forget(InBucket(l, self, b), id) else InBucket(l, self, b)
  {
    hide BucketIndex, InBucket;
    SplitAt(l, self, b, id);
    var i := IndexOf(l, id);
    if i != -1 {
      var f, f1, f2 := InBucket(l, self, b), InBucket(l[..i], self, b), InBucket(l[i + 1..], self, b);
      InBucketAdd(l[..i], l[i + 1..], self, b);
      if BucketIndex(self, id) == b {
        assert f[..|f1|] == f1 && f[|f1| + 1..] == f2;
      }
    }
  }

  /** The bucket of an ID finds the same node for it as the whole list. */
  lemma BucketFinds(l: seq<Node>, self: NodeId, b: nat, id: NodeId)
    requires BucketIndex(self, id) == b
    ensures var i, f := IndexOf(l, id), InBucket(l, self, b);
            var j := IndexOf(f, id);
            (i == -1 <==> j == -1) && (i != -1 ==> f[j] == l[i])
  {
    hide BucketIndex, InBucket;
    SplitAt(l, self, b, id);
  }

  /** An update changes the bucket of its ID as it changes the whole list, and no other bucket. */
  lemma InBucketTouch(l: seq<Node>, self: NodeId, b: nat, n: Node)
    ensures InBucket(Touch(l, n), self, b)
            == if BucketIndex(self, n.id) == b then Touch(InBucket(l, self, b), n) else InBucket(l, self, b)
  {
    hide BucketIndex, InBucket, Forget, IndexOf;
    var i := IndexOf(l, n.id);
    if BucketIndex(self, n.id) == b { BucketFinds(l, self, b, n.id); }
    if i == -1 {
      InBucketAdd(l, [n], self, b);
      InBucketOne(n, self, b);
    } else {
      InBucketForget(l, self, b, n.id);
      InBucketAdd(Forget(l, n.id), [l[i]], self, b);
      InBucketOne(l[i], self, b);
    }
  }

  lemma {:induction false} InBucketOrder(l: seq<Node>, self: NodeId, b: nat, events: seq<Event>)
    requires ByLastSeen(l, events)
    ensures ByLastSeen(InBucket(l, self, b), events)
  {
    hide LastSeen;
    if l != [] {
      var init, last := l[..|l| - 1], l[|l| - 1];
      InBucketOrder(init, self, b, events);
      var r := InBucket(init, self, b);
      forall i | 0 <= i < |r| ensures LastSeen(events, r[i].id) < LastSeen(events, last.id) {
        InBucketMember(init, self, b, r[i]);
        var j :| 0 <= j < |init| && init[j] == r[i];
        assert l[j] == r[i];
      }
    }
  }

  // ---- counting ----

  function CountBelow(l: seq<Node>, self: NodeId, k: nat): nat {
    if k == 0 then 0 else CountBelow(l, self, k - 1) + |InBucket(l, self, k - 1)|
  }

  lemma {:induction false} CountBelowAdd(l: seq<Node>, n: Node, self: NodeId, k: nat)
    ensures CountBelow(l + [n], self, k)
            == CountBelow(l, self, k) + if BucketIndex(self, n.id) < k then 1 else 0
  {
    if k > 0 {
      CountBelowAdd(l, n, self, k - 1);
      InBucketAdd(l, [n], self, k - 1);
      InBucketOne(n, self, k - 1);
    }
  }

  lemma {:induction false} CountNothing(self: NodeId, k: nat)
    ensures CountBelow([], self, k) == 0
  {
    if k > 0 { CountNothing(self, k - 1); }
  }

  /** Every node is in exactly one of the buckets. */
  lemma {:induction false} CountAll(l: seq<Node>, self: NodeId)
    ensures CountBelow(l, self, B) == |l|
  {
    if l == [] {
      CountNothing(self, B);
    } else {
      var init, last := l[..|l| - 1], l[|l| - 1];
      assert l == init + [last];
      CountAll(init, self);
      BucketInRange(self, last.id);
      CountBelowAdd(init, last, self, B);
    }
  }
}
