/** The routing table (routingTable.go): 160 buckets, no cap on their size. */
module RoutingTables {
  import opened Bytes
  import opened Numbers
  import opened Metric
  import opened Nodes
  import opened RoutingHistory

  type Table = seq<seq<Node>>

  /** Every node is in the bucket of its ID, and no ID is in a bucket twice. */
  ghost predicate TableOk(self: NodeId, t: Table) {
    |t| == B
    && (forall b :: 0 <= b < B ==> Distinct(t[b]))
    && (forall b, n :: 0 <= b < B && n in t[b] ==> BucketIndex(self, n.id) == b)
  }

  // ---- the order in which buckets are visited ----

  /** What is left of the visit when every bucket strictly between i and j has been visited. */
  function Zigzag(i: int, j: int): seq<int>
    decreases if i >= 0 then i + 1 else 0, if j < B then B - j else 0
  {
    if i < 0 && j >= B then []
    else (if i >= 0 then [i] else []) + (if j < B then [j] else []) + Zigzag(i - 1, j + 1)
  }

  function BucketOrder(index: nat): seq<int> {
    [index] + Zigzag(index - 1, index + 1)
  }

  /** How far bucket b is from index, the lower of two equally far ones first. */
  function Rank(index: int, b: int): int {
    if b <= index then 2 * (index - b) else 2 * (b - index) + 1
  }

  predicate Ranked(order: seq<int>, index: int) {
    forall p, q :: 0 <= p < q < |order| ==> Rank(index, order[p]) < Rank(index, order[q])
  }

  /** Every entry of order is the index of one of n buckets. */
  predicate Indices(order: seq<int>, n: nat) {
    forall p :: 0 <= p < |order| ==> 0 <= order[p] < n
  }

  lemma RankedConcat(a: seq<int>, b: seq<int>, index: int)
    requires Ranked(a, index) && Ranked(b, index)
    requires forall x, y :: x in a && y in b ==> Rank(index, x) < Rank(index, y)
    ensures Ranked(a + b, index)
  {
    hide Rank;
    var r := a + b;
    forall p, q | 0 <= p < q < |r| ensures Rank(index, r[p]) < Rank(index, r[q]) {
      if p < |a| && |a| <= q { assert r[p] in a && r[q] in b; }
    }
  }

  lemma {:induction false} ZigzagRanked(index: nat, i: int, j: int)
    requires index < B && i < index < j && i + j == 2 * index
    ensures Ranked(Zigzag(i, j), index)
    ensures forall b :: b in Zigzag(i, j) <==> 0 <= b <= i || j <= b < B
    decreases if i >= 0 then i + 1 else 0, if j < B then B - j else 0
  {
    if i >= 0 || j < B {
      ZigzagRanked(index, i - 1, j + 1);
      var rest := Zigzag(i - 1, j + 1);
      var first := (if i >= 0 then [i] else []) + (if j < B then [j] else []);
      assert forall b :: b in first <==> (b == i && i >= 0) || (b == j && j < B);
      RankedConcat(first, rest, index);
    }
  }

  /** All 160 buckets are visited, nearest index first, each once since no two ranks are equal. */
  lemma BucketOrderComplete(index: nat)
    requires index < B
    ensures Ranked(BucketOrder(index), index) && Indices(BucketOrder(index), B)
    ensures forall b :: b in BucketOrder(index) <==> 0 <= b < 160
    ensures forall p, q :: 0 <= p < q < |BucketOrder(index)| ==>
              var (x, y) := (BucketOrder(index)[p], BucketOrder(index)[q]);
              var (d, e) := (if x < index then index - x else x - index, if y < index then index - y else y - index);
              d < e || (d == e && x < y)
  {
    ZigzagRanked(index, index - 1, index + 1);
    var rest := Zigzag(index - 1, index + 1);
    RankedConcat([index], rest, index);
    forall p | 0 <= p < |BucketOrder(index)| ensures 0 <= BucketOrder(index)[p] < B {
      assert BucketOrder(index)[p] in BucketOrder(index);
    }
  }

  /** The nodes of the buckets in the order given. */
  function Visit(t: Table, order: seq<int>): seq<Node>
    requires Indices(order, |t|)
  {
    if order == [] then [] else Visit(t, order[..|order| - 1]) + t[order[|order| - 1]]
  }

  lemma {:induction false} VisitAdd(t: Table, a: seq<int>, b: seq<int>)
    requires Indices(a, |t|) && Indices(b, |t|)
    ensures Visit(t, a + b) == Visit(t, a) + Visit(t, b)
  {
    if b == [] {
      assert a + b == a;
    } else {
      VisitAdd(t, a, b[..|b| - 1]);
      InitOfSum(a, b);
      calc {
        Visit(t, a + b);
      ==
        Visit(t, a + b[..|b| - 1]) + t[b[|b| - 1]];
      ==
        Visit(t, a) + Visit(t, b[..|b| - 1]) + t[b[|b| - 1]];
      ==  { Regroup(Visit(t, a), Visit(t, b[..|b| - 1]), t[b[|b| - 1]]); }
        Visit(t, a) + Visit(t, b);
      }
    }
  }

  lemma InitOfSum(a: seq<int>, b: seq<int>)
    requires b != []
    ensures (a + b)[..|a + b| - 1] == a + b[..|b| - 1] && (a + b)[|a + b| - 1] == b[|b| - 1]
  {
  }

  lemma Regroup(a: seq<Node>, b: seq<Node>, c: seq<Node>)
    ensures a + b + c == a + (b + c)
  {
  }

  lemma VisitMember(t: Table, order: seq<int>, n: Node)
    requires Indices(order, |t|)
    ensures n in Visit(t, order) <==> exists p :: 0 <= p < |order| && n in t[order[p]]
  {
    if n in Visit(t, order) { var _ := VisitFrom(t, order, n); }
    if p :| 0 <= p < |order| && n in t[order[p]] { VisitHas(t, order, p, n); }
  }

  lemma {:induction false} VisitFrom(t: Table, order: seq<int>, n: Node) returns (p: nat)
    requires Indices(order, |t|) && n in Visit(t, order)
    ensures p < |order| && n in t[order[p]]
  {
    var last := |order| - 1;
    if n in t[order[last]] { p := last; } else { p := VisitFrom(t, order[..last], n); }
  }

  lemma {:induction false} VisitHas(t: Table, order: seq<int>, p: nat, n: Node)
    requires Indices(order, |t|) && p < |order| && n in t[order[p]]
    ensures n in Visit(t, order)
  {
    if p < |order| - 1 { VisitHas(t, order[..|order| - 1], p, n); }
  }

  /** Disjoint lists of distinct nodes make one list of distinct nodes. */
  lemma DistinctConcat(l: seq<Node>, m: seq<Node>)
    requires Distinct(l) && Distinct(m) && IdSet(l) !! IdSet(m)
    ensures Distinct(l + m)
  {
    forall i, j | 0 <= i < |l| && 0 <= j < |m| ensures l[i].id != m[j].id {
      assert l[i].id in IdSet(l) && m[j].id in IdSet(m);
    }
  }

  lemma {:induction false} VisitDistinct(self: NodeId, t: Table, order: seq<int>, index: nat)
    requires TableOk(self, t) && Ranked(order, index) && Indices(order, B)
    ensures Distinct(Visit(t, order))
  {
    if order != [] {
      var init, last := order[..|order| - 1], order[|order| - 1];
      VisitDistinct(self, t, init, index);
      forall n, m | n in Visit(t, init) && m in t[last] ensures n.id != m.id {
        VisitMember(t, init, n);
        var p :| 0 <= p < |init| && n in t[init[p]];
        assert init[p] == order[p] && Rank(index, order[p]) < Rank(index, last);
        assert BucketIndex(self, n.id) == order[p] && BucketIndex(self, m.id) == last;
      }
      DistinctConcat(Visit(t, init), t[last]);
    }
  }

  // ---- the nearest nodes ----

  ghost function AllFrom(t: Table, index: nat): seq<Node>
    requires |t| == B && index < B
  {
    BucketOrderComplete(index);
    Visit(t, BucketOrder(index))
  }

  /** The candidates: the first num nodes met on the visit from the target's bucket. */
  ghost function Gathered(t: Table, num: int, index: nat): seq<Node>
    requires |t| == B && index < B
  {
    var all := AllFrom(t, index);
    all[..Min(Max(num, 0), |all|)]
  }

  ghost predicate IsNearest(self: NodeId, t: Table, num: int, target: NodeId, r: seq<Node>)
    requires |t| == B
  {
    BucketInRange(self, target);
    Permutation(r, Gathered(t, num, BucketIndex(self, target))) && Sorted(r, target)
  }

  lemma AllFromFacts(self: NodeId, t: Table, index: nat)
    requires TableOk(self, t) && index < B
    ensures var all := AllFrom(t, index);
            Distinct(all) && t[index] <= all
            && forall n :: n in all <==> exists b :: 0 <= b < B && n in t[b]
  {
    hide BucketIndex, Zigzag;
    BucketOrderComplete(index);
    var order := BucketOrder(index);
    VisitDistinct(self, t, order, index);
    var rest := Zigzag(index - 1, index + 1);
    assert order[1..] == rest;
    VisitAdd(t, [index], rest);
    assert [index][..0] == [];
    assert Visit(t, [index]) == t[index];
    forall n ensures n in AllFrom(t, index) <==> exists b :: 0 <= b < B && n in t[b] {
      VisitMember(t, order, n);
      if b :| 0 <= b < B && n in t[b] {
        assert b in order;
        var p :| 0 <= p < |order| && order[p] == b;
        assert n in t[order[p]];
      }
    }
  }

  lemma DistinctTake(l: seq<Node>, k: nat)
    requires Distinct(l) && k <= |l|
    ensures Distinct(l[..k])
  {
  }

  /** Whatever the target, the answer is a duplicate-free part of the table in strictly ascending distance. */
  lemma NearestFacts(self: NodeId, t: Table, num: int, target: NodeId, r: seq<Node>)
    requires TableOk(self, t) && IsNearest(self, t, num, target, r)
    ensures Distinct(r) && StrictlySorted(r, target)
    ensures forall n :: n in r ==> exists b :: 0 <= b < B && n in t[b]
    ensures BucketIndex(self, target) < B
    ensures |r| == Min(Max(num, 0), |AllFrom(t, BucketIndex(self, target))|)
  {
    hide BucketIndex, BucketOrder, Visit, Sorted, StrictlySorted, Distinct, AllFrom;
    BucketInRange(self, target);
    var index := BucketIndex(self, target);
    var g := Gathered(t, num, index);
    AllFromFacts(self, t, index);
    DistinctTake(AllFrom(t, index), |g|);
    PermutationMembers(r, g);
    assert Permutation(g, r);
    PermutationDistinct(g, r);
    forall n | n in r ensures exists b :: 0 <= b < B && n in t[b] {
      assert n in g && n in AllFrom(t, index);
    }
    DistinctSortedStrict(r, target);
  }

  /** The bucket of the target is used up before any other. */
  lemma NearestFillsTargetBucket(self: NodeId, t: Table, num: int, target: NodeId, r: seq<Node>)
    requires TableOk(self, t) && IsNearest(self, t, num, target, r)
    ensures BucketIndex(self, target) < B
    ensures var bucket := t[BucketIndex(self, target)];
            if |bucket| <= num then forall n :: n in bucket ==> n in r
            else forall n :: n in r ==> n in bucket
  {
    BucketInRange(self, target);
    var index := BucketIndex(self, target);
    var g, bucket := Gathered(t, num, index), t[index];
    AllFromFacts(self, t, index);
    PermutationMembers(r, g);
    if |bucket| <= num {
      assert bucket <= g;
    } else {
      assert g <= bucket;
    }
  }

  /** When the table holds no more than num nodes, the answer is the whole table, sorted. */
  lemma NearestIsComplete(self: NodeId, t: Table, num: int, target: NodeId, r: seq<Node>)
    requires TableOk(self, t) && IsNearest(self, t, num, target, r)
    requires BucketIndex(self, target) < B && |AllFrom(t, BucketIndex(self, target))| <= num
    ensures forall n :: n in r <==> exists b :: 0 <= b < B && n in t[b]
  {
    var index := BucketIndex(self, target);
    AllFromFacts(self, t, index);
    var g := Gathered(t, num, index);
    assert g == AllFrom(t, index);
    PermutationMembers(r, g);
  }

  /** Any two answers to one question are the same list. */
  lemma NearestIsUnique(self: NodeId, t: Table, num: int, target: NodeId, r: seq<Node>, s: seq<Node>)
    requires TableOk(self, t) && IsNearest(self, t, num, target, r) && IsNearest(self, t, num, target, s)
    ensures r == s
  {
    NearestFacts(self, t, num, target, r);
    NearestFacts(self, t, num, target, s);
    SortIsUnique(r, s, target);
  }

  /**
   * Every node of the target's bucket, the owner aside, is strictly nearer to the target than the owner and
   * than every node of another bucket.
   */
  lemma BucketSeparation(self: NodeId, t: Table, target: NodeId, n: Node, m: Node, b: nat)
    requires TableOk(self, t) && target != self && BucketIndex(self, target) < B
    requires n in t[BucketIndex(self, target)] && n.id != self
    requires b < B && b != BucketIndex(self, target) && m in t[b]
    ensures Distance(n.id, target) < Distance(self, target)
    ensures Distance(n.id, target) < Distance(m.id, target)
  {
    SameBucketCloser(self, n.id, target);
    OtherBucketFar(self, m.id, target);
  }

  /** An ID other than the owner's shares bucket 0 with at most the owner: the bucket has at most two nodes. */
  lemma BucketZero(self: NodeId, t: Table)
    requires TableOk(self, t)
    ensures |t[0]| <= 2
  {
    var l := t[0];
    if |l| > 2 {
      var a := if l[0].id != self then l[0] else l[1];
      var b := if l[2].id != self then l[2] else l[1];
      SameBucketCloser(self, a.id, b.id);
      DistanceZero(a.id, b.id);
      assert false;
    }
  }

  /**
   * Progress: when the target's bucket holds a node other than the owner, the answer starts strictly nearer to the
   * target than the owner, in fact nearer than the width of that bucket, exactly when two nodes are asked for, or one
   * and the bucket does not list the owner's own ID first.
   */
  lemma NearestMakesProgress(self: NodeId, t: Table, num: int, target: NodeId, r: seq<Node>, n: Node)
    requires TableOk(self, t) && IsNearest(self, t, num, target, r)
    requires target != self && BucketIndex(self, target) < B
    requires n in t[BucketIndex(self, target)] && n.id != self
    ensures var k := BucketIndex(self, target);
            (r != [] && Distance(r[0].id, target) < Pow2(k) <= Distance(self, target))
            <==> num >= 2 || (num == 1 && t[k][0].id != self)
  {
    hide Pow2, Distance, IsNearest, BucketIndex;
    SameBucketCloser(self, n.id, target);
    if num >= 2 {
      TwoMakeProgress(self, t, num, target, r, n);
    } else if num == 1 {
      OneIsFirst(self, t, target, r);
      if r[0].id != self { SameBucketCloser(self, r[0].id, target); }
    } else {
      NearestFacts(self, t, num, target, r);
    }
  }

  /** Asked for one node, a table answers with the first of the target's bucket. */
  lemma OneIsFirst(self: NodeId, t: Table, target: NodeId, r: seq<Node>)
    requires TableOk(self, t) && IsNearest(self, t, 1, target, r)
    requires BucketIndex(self, target) < B && t[BucketIndex(self, target)] != []
    ensures r == [t[BucketIndex(self, target)][0]]
    ensures BucketIndex(self, r[0].id) == BucketIndex(self, target)
  {
    hide BucketIndex, Distance, AllFrom;
    var k := BucketIndex(self, target);
    AllFromFacts(self, t, k);
    var g := Gathered(t, 1, k);
    assert g == [t[k][0]];
    PermutationMembers(r, g);
    assert r[0] in g && t[k][0] in t[k];
  }

  lemma TwoMakeProgress(self: NodeId, t: Table, num: int, target: NodeId, r: seq<Node>, n: Node)
    requires TableOk(self, t) && num >= 2 && IsNearest(self, t, num, target, r)
    requires target != self && BucketIndex(self, target) < B
    requires n in t[BucketIndex(self, target)] && n.id != self
    ensures r != [] && Distance(r[0].id, target) < Pow2(BucketIndex(self, target)) <= Distance(self, target)
  {
    var k := BucketIndex(self, target);
    var bucket := t[k];
    NearestFillsTargetBucket(self, t, num, target, r);
    NearestFacts(self, t, num, target, r);
    AllFromFacts(self, t, k);
    var m := n;
    if |bucket| > num {
      assert r != [];
      m := r[0];
      if m.id == self {
        DistanceZero(self, self);
        BucketZero(self, t);
        assert false;
      }
    }
    SameBucketCloser(self, m.id, target);
    var i :| 0 <= i < |r| && r[i] == m;
    assert i == 0 || Distance(r[0].id, target) < Distance(r[i].id, target);
  }

  lemma SameMembersSameSize(l: seq<Node>, m: seq<Node>)
    requires Distinct(l) && Distinct(m) && forall n :: n in l <==> n in m
    ensures |l| == |m|
  {
    hide Distinct;
    DistinctCount(l);
    DistinctCount(m);
    assert IdSet(l) == IdSet(m);
  }

  /** A list of distinct nodes filed by bucket is a well-formed table that holds exactly these nodes. */
  lemma FiledOk(l: seq<Node>, self: NodeId, t: Table)
    requires Distinct(l) && |t| == B && forall b :: 0 <= b < B ==> t[b] == InBucket(l, self, b)
    ensures TableOk(self, t)
    ensures forall n :: n in l <==> exists b :: 0 <= b < B && n in t[b]
  {
    hide InBucket, BucketIndex, Distinct;
    forall b | 0 <= b < B ensures Distinct(t[b]) { InBucketDistinct(l, self, b); }
    forall b, n: Node | 0 <= b < B && n in t[b] ensures n in l && BucketIndex(self, n.id) == b {
      InBucketMember(l, self, b, n);
    }
    forall n: Node | n in l ensures exists b :: 0 <= b < B && n in t[b] {
      BucketInRange(self, n.id);
      InBucketMember(l, self, BucketIndex(self, n.id), n);
      assert n in t[BucketIndex(self, n.id)];
    }
  }

  /** The table after its owner noted a node. */
  function Noted(self: NodeId, t: Table, n: Node): (r: Table)
    requires |t| == B
    ensures |r| == B
  {
    BucketInRange(self, n.id);
    t[BucketIndex(self, n.id) := Touch(t[BucketIndex(self, n.id)], n)]
  }

  // ---- the class ----

  class RoutingTable {
    const self: NodeId
    const table: array<seq<Node>>
    ghost var history: seq<Event>

    ghost predicate Valid()
      reads this, table
    {
      table.Length == B && forall b :: 0 <= b < B ==> table[b] == InBucket(Replay(history), self, b)
    }

    /** The live nodes, least recently updated first. */
    ghost function Known(): seq<Node>
      reads this
    {
      Replay(history)
    }

    constructor (id: NodeId)
      ensures Valid() && self == id && history == [] && fresh(table)
    {
      self := id;
      table := new seq<Node>[B](_ => []);
      history := [];
    }

    lemma ValidTable()
      requires Valid()
      ensures TableOk(self, table[..])
      ensures forall n :: n in Known() <==> exists b :: 0 <= b < B && n in table[..][b]
    {
      hide InBucket, Replay, BucketIndex, Distinct;
      ReplayDistinct(history);
      FiledOk(Known(), self, table[..]);
    }

    /**
     * After any run of updates and removals: bucket b holds exactly the nodes of its binade that are the first
     * update of their ID since its last removal, each ID once, in the order of their last update.
     */
    lemma WholeRun(b: nat, n: Node)
      requires Valid() && b < B
      ensures n in table[b] <==>
              BucketIndex(self, n.id) == b && exists k :: FirstSinceRemoval(history, k, n.id) && history[k].node == n
      ensures Distinct(table[b]) && ByLastSeen(table[b], history)
    {
      InBucketMember(Known(), self, b, n);
      ReplayAddress(history, n);
      ReplayDistinct(history);
      InBucketDistinct(Known(), self, b);
      ReplayOrder(history);
      InBucketOrder(Known(), self, b, history);
    }

    /** An answer holds as many nodes as asked for, or all that are known when these are no more. */
    lemma NearestOfKnown(num: int, target: NodeId, r: seq<Node>)
      requires Valid() && IsNearest(self, table[..], num, target, r)
      ensures |r| == Min(Max(num, 0), |Known()|)
      ensures Distinct(r) && StrictlySorted(r, target) && forall n :: n in r ==> n in Known()
      ensures |Known()| <= num ==> forall n :: n in Known() ==> n in r
    {
      hide BucketIndex, Distinct, InBucket, Replay, Visit, BucketOrder, IsNearest, StrictlySorted;
      ValidTable();
      ReplayDistinct(history);
      NearestFacts(self, table[..], num, target, r);
      var index := BucketIndex(self, target);
      AllFromFacts(self, table[..], index);
      SameMembersSameSize(AllFrom(table[..], index), Known());
      if |Known()| <= num { NearestIsComplete(self, table[..], num, target, r); }
    }

    /** The nested loop over bytes and bits finds the floor of the logarithm of the distance. */
    method GetFirstDifBitBucketIndex(node: NodeId) returns (k: int)
      ensures k == BucketIndex(self, node)
      ensures 0 <= k < B
    {
      BucketInRange(self, node);
      DistanceOfBytes(node, self);
      ghost var x := XorBytes(node, self);
      for i := 0 to |node|
        invariant forall m :: 0 <= m < i ==> x[m] == 0
      {
        var xor := node[i] ^ self[i];
        for j := 0 to 8
          invariant forall m: nat | m < j :: !BitAt(xor, m)
        {
          var val := xor & Mask(j);
          if val > 0 {
            assert BitAt(xor, j);
            FirstSetBit(x, i, j);
            Log2Unique(Number(x), B - 8 * i - j - 1);
            return B - 8 * i - j - 1;
          }
        }
        NoBits(xor);
      }
      LeadingZeros(x);
      return 0;
    }

    method NodeInBucket(nodeID: NodeId, bucket: int) returns (r: int)
      requires 0 <= bucket < table.Length
      ensures r == IndexOf(table[bucket], nodeID)
    {
      var l := table[bucket];
      for index := 0 to |l|
        invariant forall m :: 0 <= m < index ==> l[m].id != nodeID
      {
        if l[index].id == nodeID { return index; }
      }
      return -1;
    }

    method UpdateBucketOfNode(node: Node)
      requires Valid()
      modifies this`history, table
      ensures Valid() && history == old(history) + [Seen(node)]
      ensures table[..] == Noted(self, old(table[..]), node)
    {
      hide BucketIndex, InBucket, Replay;
      var indexBucket := GetFirstDifBitBucketIndex(node.id);
      var indexNode := NodeInBucket(node.id, indexBucket);
      if indexNode == -1 {
        table[indexBucket] := table[indexBucket] + [node];
      } else {
        var bucket := table[indexBucket];
        var n := bucket[indexNode];
        bucket := bucket[..indexNode] + bucket[indexNode + 1..];
        bucket := bucket + [n];
        table[indexBucket] := bucket;
      }
      ReplayStep(history, Seen(node));
      history := history + [Seen(node)];
      assert table[indexBucket] == Touch(old(table[indexBucket]), node);
      forall b | 0 <= b < B ensures table[b] == InBucket(Replay(history), self, b) {
        InBucketTouch(old(Known()), self, b, node);
      }
    }

    /**
     * The range clause keeps reading the backing array of the bucket while the body shifts it left in place:
     * memory is that array, length the current length of the slice. Because an ID occurs once, the shifted
     * cells and the stale last cell never match again and no slice bound is exceeded.
     */
    static method CompactWhileRanging(l: seq<Node>, nodeID: NodeId) returns (bucket: seq<Node>)
      requires Distinct(l)
      ensures bucket == Forget(l, nodeID)
    {
      var memory := l;
      var length := |memory|;
      ghost var at := IndexOf(l, nodeID);
      bucket := l;
      for i := 0 to |l|
        invariant |memory| == |l|
        invariant at == -1 || i <= at ==> memory == l == bucket && length == |l|
        invariant 0 <= at < i ==> length == |l| - 1 && bucket == Forget(l, nodeID)
        invariant 0 <= at < i ==> forall m :: i <= m < |l| ==> memory[m].id != nodeID
      {
        var v := memory[i];
        if v.id == nodeID {
          memory := memory[..i] + memory[i + 1..length] + memory[length - 1..];
          length := length - 1;
          bucket := memory[..length];
          assert bucket == l[..i] + l[i + 1..];
        }
      }
    }

    method RemoveNode(nodeID: NodeId)
      requires Valid()
      modifies this`history, table
      ensures Valid() && history == old(history) + [Removed(nodeID)]
    {
      hide BucketIndex, InBucket, Replay;
      var index := GetFirstDifBitBucketIndex(nodeID);
      ReplayDistinct(history);
      InBucketDistinct(Known(), self, index);
      table[index] := CompactWhileRanging(table[index], nodeID);
      ReplayStep(history, Removed(nodeID));
      history := history + [Removed(nodeID)];
      forall b | 0 <= b < B ensures table[b] == InBucket(Replay(history), self, b) {
        InBucketForget(old(Known()), self, b, nodeID);
      }
    }

    method GetTotalKnownNodes() returns (total: nat)
      requires Valid()
      ensures total == |Known()| == |IdSet(Known())|
    {
      total := 0;
      for b := 0 to table.Length
        invariant total == CountBelow(Known(), self, b)
      {
        total := total + |table[b]|;
      }
      CountAll(Known(), self);
      ReplayDistinct(history);
      DistinctCount(Known());
    }

    static method IndexesFrom(start: nat) returns (indexes: seq<int>)
      requires start < B
      ensures indexes == BucketOrder(start)
    {
      hide Zigzag;
      var i := start - 1;
      var j := start + 1;
      indexes := [start];
      ZigzagEnd();
      while i >= 0 || j < B
        invariant i < B && j >= 0
        invariant indexes + Zigzag(i, j) == BucketOrder(start)
        decreases if i >= 0 then i + 1 else 0, if j < B then B - j else 0
      {
        ZigzagStep(indexes, i, j);
        if i >= 0 { indexes := indexes + [i]; }
        if j < B { indexes := indexes + [j]; }
        i := i - 1;
        j := j + 1;
      }
    }

    /** The range over one bucket: as many of its nodes as are still wanted. */
    static method AppendFrom(nl: NodeList, bucket: seq<Node>, wanted: int, ghost all: seq<Node>)
        returns (toAdd: int)
      requires wanted > 0 && Distinct(all) && nl.nodes + bucket <= all
      modifies nl`nodes
      ensures var k := Min(wanted, |bucket|); nl.nodes == old(nl.nodes) + bucket[..k] && toAdd == wanted - k
    {
      toAdd := wanted;
      var m := 0;
      while m < |bucket|
        invariant 0 <= m <= |bucket| && nl.nodes == old(nl.nodes) + bucket[..m]
        invariant toAdd == wanted - m > 0
      {
        var v := bucket[m];
        assert bucket[..m] + [v] == bucket[..m + 1];
        assert nl.nodes + [v] == old(nl.nodes) + bucket[..m + 1] <= old(nl.nodes) + bucket;
        FreshNext(all, nl.nodes, v);
        nl.AppendUnique([v]);
        toAdd := toAdd - 1;
        m := m + 1;
        if toAdd == 0 { return; }
      }
    }

    method GetNearestNodes(num: int, nodeID: NodeId) returns (nl: NodeList)
      requires Valid()
      ensures fresh(nl) && nl.comparator == nodeID
      ensures IsNearest(self, table[..], num, nodeID, nl.nodes)
    {
      hide BucketOrder, InBucket, Replay, BucketIndex, Distinct, Visit, TableOk;
      nl := new NodeList(nodeID);
      var index := GetFirstDifBitBucketIndex(nodeID);
      ghost var start := index;
      var indexes := IndexesFrom(index);
      var toAdd := num;
      ghost var t, visited := table[..], [];
      ghost var all := AllFrom(t, start);
      BucketOrderComplete(start);
      ValidTable();
      AllFromFacts(self, t, start);
      VisitNothing(t);
      while num > 0 && |indexes| > 0 && toAdd > 0
        invariant visited + indexes == BucketOrder(start) && Indices(visited, B) && Indices(indexes, B)
        invariant nl.nodes <= all && if num > 0 then toAdd == num - |nl.nodes| >= 0 else nl.nodes == []
        invariant toAdd > 0 ==> nl.nodes == Visit(t, visited)
        decreases |indexes|
      {
        GatherStep(t, start, visited, indexes);
        visited := visited + [indexes[0]];
        index, indexes := indexes[0], indexes[1..];
        toAdd := AppendFrom(nl, table[index], toAdd, all);
      }
      assert indexes == [] ==> visited + indexes == visited;
      assert nl.nodes == all[..|nl.nodes|];
      assert num > 0 && toAdd > 0 ==> indexes == [] && nl.nodes == all;
      assert nl.nodes == Gathered(t, num, start);
      nl.Sort();
    }

    /** Closer to id than the table owner: the whole bucket but the owner's own ID, and nothing for that ID. */
    method GetNodesInBucketClosestThanRT(id: NodeId) returns (nodes: seq<Node>)
      requires Valid()
      ensures BucketIndex(self, id) < B
      ensures nodes == if id == self then [] else Others(table[BucketIndex(self, id)], self)
      ensures forall n :: n in nodes <==>
                n in table[BucketIndex(self, id)] && Distance(n.id, id) < Distance(self, id)
    {
      hide BucketIndex, Distance, InBucket, Replay, Distinct, Others;
      var indexBucket := GetFirstDifBitBucketIndex(id);
      nodes := [];
      var l := table[indexBucket];
      ValidTable();
      OthersStep([], self);
      for k := 0 to |l|
        invariant nodes == if id == self then [] else Others(l[..k], self)
      {
        var n := l[k];
        var d1: int := Distance(self, id);
        var d2: int := Distance(n.id, id);
        assert n in table[..][indexBucket];
        CloserThanOwner(self, id, n.id);
        assert l[..k + 1] == l[..k] + [n];
        OthersStep(l[..k + 1], self);
        var dif := d2 - d1;
        if dif < 0 {
          nodes := nodes + [n];
        }
      }
      assert l[..|l|] == l;
      forall n ensures n in nodes <==> n in l && Distance(n.id, id) < Distance(self, id) {
        OthersMember(l, self, n);
        if n in l {
          assert n in table[..][indexBucket];
          CloserThanOwner(self, id, n.id);
        }
      }
    }
  }

  lemma {:induction false} OthersMember(l: seq<Node>, id: NodeId, n: Node)
    ensures n in Others(l, id) <==> n in l && n.id != id
  {
    if l != [] {
      OthersMember(l[..|l| - 1], id, n);
      assert l == l[..|l| - 1] + [l[|l| - 1]];
    }
  }

  /** One round of the loop over i and j moves the head of what is left to the end of what is done. */
  lemma ZigzagStep(done: seq<int>, i: int, j: int)
    requires i >= 0 || j < B
    ensures var next := if i >= 0 then done + [i] else done;
            done + Zigzag(i, j) == (if j < B then next + [j] else next) + Zigzag(i - 1, j + 1)
  {
    var rest, head := Zigzag(i - 1, j + 1), if i >= 0 then [i] else [];
    var tail := if j < B then [j] else [];
    assert Zigzag(i, j) == head + tail + rest;
    assert done + (head + tail + rest) == done + head + tail + rest;
    assert done + [] == done;
  }

  lemma ZigzagEnd()
    ensures forall i: int, j: int :: i < 0 && j >= B ==> Zigzag(i, j) == []
  {
  }

  lemma VisitNothing(t: Table)
    ensures Visit(t, []) == []
  {
  }

  lemma GatherStep(t: Table, start: nat, visited: seq<int>, indexes: seq<int>)
    requires |t| == B && start < B && indexes != [] && visited + indexes == BucketOrder(start)
    requires Indices(visited, B) && Indices(indexes, B)
    ensures Indices(visited + [indexes[0]], B) && visited + [indexes[0]] + indexes[1..] == BucketOrder(start)
    ensures Visit(t, visited + [indexes[0]]) == Visit(t, visited) + t[indexes[0]] <= AllFrom(t, start)
  {
    hide BucketOrder;
    var next := visited + [indexes[0]];
    assert next + indexes[1..] == visited + indexes;
    assert next[..|next| - 1] == visited;
    VisitAdd(t, next, indexes[1..]);
  }

  lemma OthersStep(l: seq<Node>, id: NodeId)
    ensures l == [] ==> Others(l, id) == []
    ensures l != [] ==> Others(l, id) == Others(l[..|l| - 1], id) + if l[|l| - 1].id != id then [l[|l| - 1]] else []
  {
  }

  /** The nodes of l whose ID is not id. */
  function Others(l: seq<Node>, id: NodeId): seq<Node> {
    if l == [] then []
    else Others(l[..|l| - 1], id) + if l[|l| - 1].id != id then [l[|l| - 1]] else []
  }

  lemma CloserThanOwner(self: NodeId, id: NodeId, n: NodeId)
    requires BucketIndex(self, n) == BucketIndex(self, id)
    ensures Distance(n, id) < Distance(self, id) <==> n != self && id != self
  {
    DistanceZero(self, id);
    if n != self && id != self { SameBucketCloser(self, n, id); }
  }

  lemma NoBits(x: Byte)
    requires forall m: nat | m < 8 :: !BitAt(x, m)
    ensures x == 0
  {
    SameBits(x, 0);
  }

  /** The next node of a duplicate-free list is not yet in the part before it. */
  lemma FreshNext(all: seq<Node>, l: seq<Node>, v: Node)
    requires Distinct(all) && l + [v] <= all
    ensures v.id !in IdSet(l) && AppendNew(l, [v]) == l + [v]
  {
    assert l + [v] == all[..|l| + 1];
    DistinctTake(all, |l| + 1);
    DistinctAdd(l, v);
    assert [v][1..] == [];
  }
}
