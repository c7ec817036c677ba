/**
 * When getNearestNodes (routingTable.go) returns what its comment promises, the nearest nodes of the table. The
 * visit b, b-1, b+1, b-2, ... is not the order of the distances, so it does not always.
 */
module NearestExact {
  import opened Bytes
  import opened Numbers
  import opened Metric
  import opened Nodes
  import opened RoutingTables

  // ---- the true order of buckets ----

  /** Binary digit k of y. */
  predicate Bit(y: nat, k: nat) {
    if k == 0 then y % 2 == 1 else Bit(y / 2, k - 1)
  }

  lemma XorHalves(x: nat, y: nat)
    ensures Xor(x, y) / 2 == Xor(x / 2, y / 2)
    ensures Xor(x, y) % 2 == if x % 2 != y % 2 then 1 else 0
  {
  }

  /** Setting bit k brings a number nearer to y than leaving it clear exactly when y has that bit. */
  lemma {:induction false} TopBitDecides(x: nat, x': nat, y: nat, k: nat)
    requires Pow2(k) <= x < Pow2(k + 1) && x' < Pow2(k)
    ensures Xor(x, y) != Xor(x', y)
    ensures Xor(x, y) < Xor(x', y) <==> Bit(y, k)
  {
    XorHalves(x, y);
    XorHalves(x', y);
    if k == 0 {
      XorSymmetric(0, y / 2);
    } else {
      TopBitDecides(x / 2, x' / 2, y / 2, k - 1);
    }
  }

  /** Bucket i, as a whole, lies nearer to the target than bucket j: one bit of the target's distance says so. */
  predicate BucketNearer(self: NodeId, target: NodeId, i: nat, j: nat) {
    if i > j then Bit(Distance(target, self), i) else !Bit(Distance(target, self), j)
  }

  lemma BelowBucket(self: NodeId, id: NodeId, k: nat)
    requires BucketIndex(self, id) < k
    ensures Distance(id, self) < Pow2(k)
  {
    hide Distance;
    var d := Distance(id, self);
    if d > 0 {
      Log2Bounds(d);
      Pow2Monotone(BucketIndex(self, id) + 1, k);
    }
  }

  lemma HigherBucket(self: NodeId, target: NodeId, n: NodeId, m: NodeId)
    requires BucketIndex(self, m) < BucketIndex(self, n)
    ensures Distance(n, target) != Distance(m, target)
    ensures Distance(n, target) < Distance(m, target) <==> Bit(Distance(target, self), BucketIndex(self, n))
  {
    var x, x', y, k := Distance(n, self), Distance(m, self), Distance(target, self), BucketIndex(self, n);
    DistanceZero(n, self);
    assert x > 0 by { assert Log2(0) == 0; }
    Log2Bounds(x);
    BelowBucket(self, m, k);
    TopBitDecides(x, x', y, k);
    DistanceSymmetric(target, self);
    XorCancel(Number(n), Number(self), Number(target));
    XorCancel(Number(m), Number(self), Number(target));
  }

  /** Of nodes in different buckets, which is nearer to the target depends on the buckets only. */
  lemma BucketsOrdered(self: NodeId, target: NodeId, n: NodeId, m: NodeId)
    requires BucketIndex(self, n) != BucketIndex(self, m)
    ensures Distance(n, target) < Distance(m, target)
            <==> BucketNearer(self, target, BucketIndex(self, n), BucketIndex(self, m))
  {
    if BucketIndex(self, m) < BucketIndex(self, n) {
      HigherBucket(self, target, n, m);
    } else {
      HigherBucket(self, target, m, n);
    }
  }

  // ---- exactness ----

  /** No node of the table that was left out is as near as one that was taken. */
  ghost predicate TrueNearest(t: Table, target: NodeId, r: seq<Node>) {
    forall n: Node, j: nat, m: Node :: n in r && j < |t| && m in t[j] && m !in r ==>
      Distance(n.id, target) < Distance(m.id, target)
  }

  /** How many nodes the visit meets before the bucket at position p of the order. */
  function MetBefore(t: Table, order: seq<int>, p: nat): nat
    requires Indices(order, |t|) && p <= |order|
  {
    |Visit(t, order[..p])|
  }

  /** The bucket at position p has a node, and the visit gets to it before num nodes are met. */
  predicate TakenFrom(t: Table, order: seq<int>, num: int, p: nat)
    requires Indices(order, |t|) && p < |order|
  {
    t[order[p]] != [] && MetBefore(t, order, p) < num
  }

  /** The bucket at position p has a node that is met when num nodes have been met already. */
  predicate LeftIn(t: Table, order: seq<int>, num: int, p: nat)
    requires Indices(order, |t|) && p < |order|
  {
    t[order[p]] != [] && MetBefore(t, order, p + 1) > num
  }

  /** The first cut nodes of the bucket are all nearer than the others. */
  predicate NearerFirst(bucket: seq<Node>, cut: int, target: NodeId) {
    forall x, y :: 0 <= x < cut <= y < |bucket| ==> Distance(bucket[x].id, target) < Distance(bucket[y].id, target)
  }

  /**
   * Where the visit is cut after num nodes, read off the sizes of the buckets and one bit of the target's distance for
   * each pair: every bucket it takes from is nearer than every later bucket it leaves something in, and the one bucket
   * the cut goes through lists its nearer nodes first.
   */
  predicate CutInOrder(self: NodeId, t: Table, order: seq<int>, num: int, target: NodeId)
    requires Indices(order, |t|)
  {
    (forall p: nat, q: nat :: p < q < |order| && TakenFrom(t, order, num, p) && LeftIn(t, order, num, q) ==>
       BucketNearer(self, target, order[p], order[q]))
    && (forall p: nat :: p < |order| && TakenFrom(t, order, num, p) && LeftIn(t, order, num, p) ==>
          NearerFirst(t[order[p]], num - MetBefore(t, order, p), target))
  }

  lemma MetStep(t: Table, order: seq<int>, p: nat)
    requires Indices(order, |t|) && p < |order|
    ensures MetBefore(t, order, p + 1) == MetBefore(t, order, p) + |t[order[p]]|
  {
    assert order[..p + 1][..p] == order[..p];
  }

  lemma {:induction false} MetMonotone(t: Table, order: seq<int>, p: nat, q: nat)
    requires Indices(order, |t|) && p <= q <= |order|
    ensures MetBefore(t, order, p) <= MetBefore(t, order, q)
  {
    if p < q {
      MetMonotone(t, order, p, q - 1);
      MetStep(t, order, q - 1);
    }
  }

  /** Node x of the bucket at position p is met after MetBefore(p) + x others, and nowhere else. */
  lemma VisitPosition(t: Table, order: seq<int>, p: nat, x: nat)
    requires Indices(order, |t|) && p < |order| && x < |t[order[p]]|
    ensures MetBefore(t, order, p) + x < |Visit(t, order)|
    ensures Visit(t, order)[MetBefore(t, order, p) + x] == t[order[p]][x]
  {
    var a, b := order[..p + 1], order[p + 1..];
    assert a[..p] == order[..p] && order == a + b;
    VisitAdd(t, a, b);
    assert Visit(t, a) == Visit(t, order[..p]) + t[order[p]];
  }

  /** Of distinct nodes the first num are taken, by their position on the visit. */
  lemma TakenByPosition(t: Table, order: seq<int>, num: int, p: nat, x: nat)
    requires Indices(order, |t|) && p < |order| && x < |t[order[p]]| && Distinct(Visit(t, order))
    ensures var all := Visit(t, order);
            t[order[p]][x] in all[..Min(Max(num, 0), |all|)] <==> MetBefore(t, order, p) + x < num
  {
    hide Visit;
    VisitPosition(t, order, p, x);
    var all, n := Visit(t, order), MetBefore(t, order, p) + x;
    var g := all[..Min(Max(num, 0), |all|)];
    if n < num { assert g[n] == all[n]; }
    if all[n] in g {
      var k :| 0 <= k < |g| && g[k] == all[n];
      assert all[k].id == all[n].id;
    }
  }

  /** Every node of the table has its place on the visit. */
  lemma PlaceOf(t: Table, order: seq<int>, j: int, m: Node) returns (p: nat, x: nat)
    requires Indices(order, |t|) && j in order && 0 <= j < |t| && m in t[j]
    ensures p < |order| && order[p] == j && x < |t[j]| && t[j][x] == m
  {
    p :| 0 <= p < |order| && order[p] == j;
    x :| 0 <= x < |t[j]| && t[j][x] == m;
  }

  /** A cut in order keeps any node that was left out behind any node that was taken. */
  lemma CutSeparates(self: NodeId, t: Table, order: seq<int>, num: int, target: NodeId,
                     p: nat, x: nat, q: nat, y: nat)
    requires TableOk(self, t) && Indices(order, |t|) && CutInOrder(self, t, order, num, target)
    requires p < |order| && x < |t[order[p]]| && MetBefore(t, order, p) + x < num
    requires q < |order| && y < |t[order[q]]| && MetBefore(t, order, q) + y >= num
    requires p == q || order[p] != order[q]
    ensures Distance(t[order[p]][x].id, target) < Distance(t[order[q]][y].id, target)
  {
    hide Visit, Distance, BucketIndex, BucketNearer, Distinct;
    MetStep(t, order, p);
    MetStep(t, order, q);
    assert TakenFrom(t, order, num, p) && LeftIn(t, order, num, q);
    if p == q {
      assert NearerFirst(t[order[p]], num - MetBefore(t, order, p), target);
    } else {
      if q < p { MetMonotone(t, order, q + 1, p); }
      assert p < q;
      var n, m := t[order[p]][x], t[order[q]][y];
      assert n in t[order[p]] && m in t[order[q]];
      BucketsOrdered(self, target, n.id, m.id);
    }
  }

  /** All pairs of a taken and a left node are in order, as positions of the visit. */
  ghost predicate PairsInOrder(t: Table, order: seq<int>, num: int, target: NodeId)
    requires Indices(order, |t|)
  {
    forall p: nat, x: nat, q: nat, y: nat ::
      p < |order| && x < |t[order[p]]| && q < |order| && y < |t[order[q]]|
      && MetBefore(t, order, p) + x < num <= MetBefore(t, order, q) + y ==>
        Distance(t[order[p]][x].id, target) < Distance(t[order[q]][y].id, target)
  }

  lemma PairsGiveCut(self: NodeId, t: Table, order: seq<int>, num: int, target: NodeId)
    requires TableOk(self, t) && Indices(order, |t|) && PairsInOrder(t, order, num, target)
    requires forall p: nat, q: nat :: p < q < |order| ==> order[p] != order[q]
    ensures CutInOrder(self, t, order, num, target)
  {
    hide MetBefore, Distance, BucketIndex, BucketNearer, Distinct;
    forall p: nat, q: nat | p < q < |order| && TakenFrom(t, order, num, p) && LeftIn(t, order, num, q)
      ensures BucketNearer(self, target, order[p], order[q])
    {
      MetStep(t, order, q);
      var last := |t[order[q]]| - 1;
      var n, m := t[order[p]][0], t[order[q]][last];
      assert MetBefore(t, order, p) + 0 < num <= MetBefore(t, order, q) + last;
      assert n in t[order[p]] && m in t[order[q]];
      BucketsOrdered(self, target, n.id, m.id);
    }
  }

  lemma CutGivesPairs(self: NodeId, t: Table, order: seq<int>, num: int, target: NodeId)
    requires TableOk(self, t) && Indices(order, |t|) && CutInOrder(self, t, order, num, target)
    requires forall p: nat, q: nat :: p < q < |order| ==> order[p] != order[q]
    ensures PairsInOrder(t, order, num, target)
  {
    hide MetBefore, Distance, CutInOrder, TableOk;
    forall p: nat, x: nat, q: nat, y: nat |
      p < |order| && x < |t[order[p]]| && q < |order| && y < |t[order[q]]|
      && MetBefore(t, order, p) + x < num <= MetBefore(t, order, q) + y
      ensures Distance(t[order[p]][x].id, target) < Distance(t[order[q]][y].id, target)
    {
      CutSeparates(self, t, order, num, target, p, x, q, y);
    }
  }

  /** The answer is the true nearest exactly when all pairs are in order. */
  lemma NearestByPairs(self: NodeId, t: Table, num: int, target: NodeId, r: seq<Node>, order: seq<int>)
    requires |t| == B && TableOk(self, t) && IsNearest(self, t, num, target, r)
    requires BucketIndex(self, target) < B && order == BucketOrder(BucketIndex(self, target)) && Indices(order, B)
    ensures TrueNearest(t, target, r) <==> PairsInOrder(t, order, num, target)
  {
    hide BucketIndex, Distance, Distinct, TableOk, MetBefore, BucketOrder, Visit, Sorted;
    var index := BucketIndex(self, target);
    BucketOrderComplete(index);
    AllFromFacts(self, t, index);
    var g := Gathered(t, num, index);
    PermutationMembers(r, g);
    NearestFacts(self, t, num, target, r);
    if PairsInOrder(t, order, num, target) {
      forall n: Node, j: nat, m: Node | n in r && j < |t| && m in t[j] && m !in r
        ensures Distance(n.id, target) < Distance(m.id, target)
      {
        var i: nat :| i < B && n in t[i];
        var p, x := PlaceOf(t, order, i, n);
        var q, y := PlaceOf(t, order, j, m);
        TakenByPosition(t, order, num, p, x);
        TakenByPosition(t, order, num, q, y);
      }
    }
    if TrueNearest(t, target, r) {
      forall p: nat, x: nat, q: nat, y: nat |
        p < |order| && x < |t[order[p]]| && q < |order| && y < |t[order[q]]|
        && MetBefore(t, order, p) + x < num <= MetBefore(t, order, q) + y
        ensures Distance(t[order[p]][x].id, target) < Distance(t[order[q]][y].id, target)
      {
        TakenByPosition(t, order, num, p, x);
        TakenByPosition(t, order, num, q, y);
        assert t[order[p]][x] in r && t[order[q]][y] !in r && t[order[q]][y] in t[order[q]];
      }
    }
  }

  /**
   * For all tables, counts and targets: the answer is the true nearest if and only if the cut of the visit is in
   * order.
   */
  lemma NearestIsExact(self: NodeId, t: Table, num: int, target: NodeId, r: seq<Node>)
    requires TableOk(self, t) && IsNearest(self, t, num, target, r)
    ensures BucketIndex(self, target) < B && Indices(BucketOrder(BucketIndex(self, target)), B)
    ensures TrueNearest(t, target, r)
            <==> CutInOrder(self, t, BucketOrder(BucketIndex(self, target)), num, target)
  {
    hide BucketIndex, TrueNearest, PairsInOrder, CutInOrder, IsNearest, BucketOrder, Rank;
    BucketInRange(self, target);
    var order := BucketOrder(BucketIndex(self, target));
    BucketOrderComplete(BucketIndex(self, target));
    RanksDiffer(order, BucketIndex(self, target));
    NearestByPairs(self, t, num, target, r, order);
    if CutInOrder(self, t, order, num, target) { CutGivesPairs(self, t, order, num, target); }
    if PairsInOrder(t, order, num, target) { PairsGiveCut(self, t, order, num, target); }
  }

  lemma RanksDiffer(order: seq<int>, index: int)
    requires Ranked(order, index)
    ensures forall p: nat, q: nat :: p < q < |order| ==> order[p] != order[q]
  {
    hide Rank;
    forall p: nat, q: nat | p < q < |order| ensures order[p] != order[q] {
      assert Rank(index, order[p]) < Rank(index, order[q]);
    }
  }

  // ---- a table for which it is not ----

  /** The ID that ends in the byte x, all other bytes zero. */
  function Ending(x: Byte): NodeId {
    seq(ID_LENGTH - 1, _ => 0) + [x]
  }

  lemma EndingNumber(x: Byte)
    ensures Number(Ending(x)) == x as nat
  {
    var s, zeros: seq<Byte> := Ending(x), seq(ID_LENGTH - 1, _ => 0);
    assert s[..|s| - 1] == zeros && s[|s| - 1] == x;
    LeadingZeros(zeros);
    PushByte(0, x);
  }

  lemma EndingDistance(x: Byte)
    ensures Distance(Ending(x), Ending(0)) == x as nat
  {
    EndingNumber(x);
    EndingNumber(0);
    XorWithZero(x as nat);
  }

  function At(x: Byte): Node {
    Node(Ending(x), [], 0)
  }

  /** A table of the node 0: three nodes in bucket 4 and one in bucket 1. */
  function SkewedTable(): Table {
    seq(B, b => if b == 4 then [At(16), At(17), At(18)] else if b == 1 then [At(2)] else [])
  }

  lemma EndingBucket(x: Byte)
    ensures BucketIndex(Ending(0), Ending(x)) == Log2(x as nat)
  {
    EndingDistance(x);
  }

  lemma SkewedTableOk()
    ensures TableOk(Ending(0), SkewedTable())
  {
    hide BucketIndex;
    EndingBucket(2);
    EndingBucket(16);
    EndingBucket(17);
    EndingBucket(18);
    assert Log2(1) == 0 && Log2(2) == 1 && Log2(4) == 2 && Log2(8) == 3 && Log2(9) == 3;
    assert At(16).id[19] != At(17).id[19] && At(16).id[19] != At(18).id[19] && At(17).id[19] != At(18).id[19];
    var t := SkewedTable();
    forall b, n: Node | 0 <= b < B && n in t[b] ensures BucketIndex(Ending(0), n.id) == b {
      assert n == At(2) || n == At(16) || n == At(17) || n == At(18);
    }
    assert Distinct(t[4]) && Distinct(t[1]);
  }

  /** The visit from bucket 3 meets bucket 4 before bucket 1. */
  lemma SkewedOrder()
    ensures BucketOrder(3) == [3, 2, 4] + Zigzag(1, 5)
  {
    assert Zigzag(2, 4) == [2] + [4] + Zigzag(1, 5);
  }

  lemma VisitThree(t: Table, a: int, b: int, c: int)
    requires 0 <= a < |t| && 0 <= b < |t| && 0 <= c < |t|
    ensures Visit(t, [a, b, c]) == t[a] + t[b] + t[c]
  {
    assert [a, b, c][..2] == [a, b] && [a, b][..1] == [a] && [a][..0] == [];
    assert Visit(t, [a]) == t[a];
    assert Visit(t, [a, b]) == t[a] + t[b];
  }

  lemma SkewedVisit()
    ensures SkewedTable()[4] <= AllFrom(SkewedTable(), 3)
  {
    hide Visit, Zigzag, BucketOrder, At, Ending;
    var t, order, first, rest := SkewedTable(), BucketOrder(3), [3, 2, 4], Zigzag(1, 5);
    BucketOrderComplete(3);
    SkewedOrder();
    assert Indices(first, B);
    forall p | 0 <= p < |rest| ensures 0 <= rest[p] < B { assert rest[p] == order[3 + p]; }
    VisitAdd(t, first, rest);
    VisitThree(t, 3, 2, 4);
  }

  /** Asked for the three nodes nearest to 8, the table answers with 16, 17 and 18 and leaves out 2. */
  lemma NearestMisses(r: seq<Node>)
    requires IsNearest(Ending(0), SkewedTable(), 3, Ending(8), r)
    ensures TableOk(Ending(0), SkewedTable()) && !TrueNearest(SkewedTable(), Ending(8), r)
  {
    hide BucketIndex, Distance, Visit, Zigzag, BucketOrder, AllFrom, TableOk, Sorted, Ending;
    var t, n, m := SkewedTable(), At(16), At(2);
    SkewedTableOk();
    SkewedVisit();
    EndingBucket(8);
    EndingBucket(16);
    EndingBucket(2);
    assert Log2(8) == 3 && Log2(16) == 4 && Log2(2) == 1 by { assert Log2(4) == 2 && Log2(1) == 0; }
    PermutationMembers(r, Gathered(t, 3, 3));
    assert Gathered(t, 3, 3) == t[4] && t[4][0] == n;
    SixteenIsFarther();
    TwoElsewhere();
    assert n in r && m !in r && m in t[1];
  }

  lemma TwoElsewhere()
    ensures At(2) !in SkewedTable()[4]
  {
    forall k: Node | k in SkewedTable()[4] ensures k != At(2) {
      assert k == At(16) || k == At(17) || k == At(18);
      assert k.id[19] != At(2).id[19];
    }
  }

  lemma SixteenIsFarther()
    ensures Distance(Ending(2), Ending(8)) <= Distance(Ending(16), Ending(8))
  {
    hide BucketIndex, Distance;
    EndingBucket(16);
    EndingBucket(2);
    assert Log2(16) == 4 && Log2(2) == 1 by { assert Log2(8) == 3 && Log2(4) == 2 && Log2(1) == 0; }
    EndingDistance(8);
    assert !Bit(8, 4) by { assert !Bit(4, 3) by { assert !Bit(2, 2); } }
    BucketsOrdered(Ending(0), Ending(8), Ending(16), Ending(2));
  }
}
