/** Nodes of the DHT and the list the lookup keeps sorted by distance (node.go). */
module Nodes {
  import opened Bytes
  import opened Metric

  datatype Node = Node(id: NodeId, ip: seq<Byte>, port: int)

  function IdSet(l: seq<Node>): set<NodeId> {
    set n | n in l :: n.id
  }

  predicate Distinct(l: seq<Node>) {
    forall i, j :: 0 <= i < j < |l| ==> l[i].id != l[j].id
  }

  predicate Sorted(l: seq<Node>, target: NodeId) {
    forall i, j :: 0 <= i < j < |l| ==> Distance(l[i].id, target) <= Distance(l[j].id, target)
  }

  predicate StrictlySorted(l: seq<Node>, target: NodeId) {
    forall i, j :: 0 <= i < j < |l| ==> Distance(l[i].id, target) < Distance(l[j].id, target)
  }

  ghost predicate Permutation(l: seq<Node>, m: seq<Node>) {
    multiset(l) == multiset(m)
  }

  lemma IdSetAdd(l: seq<Node>, m: seq<Node>)
    ensures IdSet(l + m) == IdSet(l) + IdSet(m)
  {
    forall id | id in IdSet(l) ensures id in IdSet(l + m) {
      var n :| n in l && n.id == id;
      assert n in l + m;
    }
    forall id | id in IdSet(m) ensures id in IdSet(l + m) {
      var n :| n in m && n.id == id;
      assert n in l + m;
    }
  }

  lemma IdSetOne(n: Node)
    ensures IdSet([n]) == {n.id}
  {
    assert n in [n];
  }

  lemma EmptyIdSet()
    ensures IdSet([]) == {}
  {
  }

  lemma DistinctAdd(l: seq<Node>, n: Node)
    ensures Distinct(l + [n]) <==> Distinct(l) && n.id !in IdSet(l)
  {
    var r := l + [n];
    assert forall i :: 0 <= i < |l| ==> r[i] == l[i];
    assert r[|l|] == n;
    if Distinct(r) {
      forall i | 0 <= i < |l| ensures l[i].id != n.id { assert r[i].id != r[|l|].id; }
    }
    if Distinct(l) && n.id !in IdSet(l) {
      forall i | 0 <= i < |l| ensures l[i].id != n.id { assert l[i] in l; }
    }
  }

  // ---- permutations keep IDs ----

  lemma PermutationMembers(l: seq<Node>, m: seq<Node>)
    requires Permutation(l, m)
    ensures |l| == |m| && IdSet(l) == IdSet(m)
    ensures forall n :: n in l <==> n in m
  {
    assert |multiset(l)| == |multiset(m)|;
    forall n ensures n in l <==> n in m {
      assert n in multiset(l) <==> n in multiset(m);
    }
  }

  /** Distinctness is having as many IDs as nodes. */
  lemma {:induction false} DistinctCount(l: seq<Node>)
    ensures |IdSet(l)| <= |l|
    ensures Distinct(l) <==> |IdSet(l)| == |l|
  {
    if l != [] {
      var init, last := l[..|l| - 1], l[|l| - 1];
      assert l == init + [last];
      DistinctCount(init);
      IdSetAdd(init, [last]);
      IdSetOne(last);
      DistinctAdd(init, last);
    }
  }

  lemma PermutationDistinct(l: seq<Node>, m: seq<Node>)
    requires Permutation(l, m) && Distinct(l)
    ensures Distinct(m)
  {
    PermutationMembers(l, m);
    DistinctCount(l);
    DistinctCount(m);
  }

  lemma DistinctSortedStrict(l: seq<Node>, target: NodeId)
    requires Distinct(l) && Sorted(l, target)
    ensures StrictlySorted(l, target)
  {
    forall i, j | 0 <= i < j < |l| ensures Distance(l[i].id, target) < Distance(l[j].id, target) {
      if Distance(l[i].id, target) == Distance(l[j].id, target) {
        DistanceInjective(l[i].id, l[j].id, target);
      }
    }
  }

  lemma HeadIsNearest(l: seq<Node>, m: seq<Node>, target: NodeId)
    requires l != [] && Permutation(l, m) && StrictlySorted(l, target) && StrictlySorted(m, target)
    ensures m != [] && l[0] == m[0]
  {
    PermutationMembers(l, m);
    assert l[0] in m && m[0] in l;
    var i :| 0 <= i < |m| && m[i] == l[0];
    var j :| 0 <= j < |l| && l[j] == m[0];
  }

  lemma PermutationTail(l: seq<Node>, m: seq<Node>)
    requires l != [] && m != [] && Permutation(l, m) && l[0] == m[0]
    ensures Permutation(l[1..], m[1..])
  {
    assert l == [l[0]] + l[1..] && m == [m[0]] + m[1..];
    assert multiset(l[1..]) == multiset(l) - multiset{l[0]};
    assert multiset(m[1..]) == multiset(m) - multiset{m[0]};
  }

  /** With distinct IDs every correct sort returns the same list, so nothing depends on which one runs. */
  lemma {:induction false} SortIsUnique(l: seq<Node>, m: seq<Node>, target: NodeId)
    requires Permutation(l, m) && StrictlySorted(l, target) && StrictlySorted(m, target)
    ensures l == m
    decreases |l|
  {
    PermutationMembers(l, m);
    if l != [] {
      HeadIsNearest(l, m, target);
      PermutationTail(l, m);
      SortIsUnique(l[1..], m[1..], target);
      assert l == [l[0]] + l[1..] && m == [m[0]] + m[1..];
    }
  }

  // ---- appending nodes that are not there yet ----

  function AppendNew(l: seq<Node>, nodes: seq<Node>): seq<Node>
    decreases |nodes|
  {
    if nodes == [] then l
    else AppendNew(if nodes[0].id in IdSet(l) then l else l + [nodes[0]], nodes[1..])
  }

  lemma {:induction false} AppendNewFacts(l: seq<Node>, nodes: seq<Node>)
    ensures var r := AppendNew(l, nodes);
            l <= r && IdSet(r) == IdSet(l) + IdSet(nodes) && (Distinct(l) ==> Distinct(r))
    decreases |nodes|
  {
    hide Distinct, IdSet;
    if nodes == [] {
      EmptyIdSet();
    } else {
      var n := nodes[0];
      var l' := if n.id in IdSet(l) then l else l + [n];
      AppendNewFacts(l', nodes[1..]);
      assert nodes == [n] + nodes[1..];
      IdSetAdd([n], nodes[1..]);
      IdSetOne(n);
      IdSetAdd(l, [n]);
      DistinctAdd(l, n);
    }
  }

  lemma {:induction false} AppendNewMembers(l: seq<Node>, nodes: seq<Node>, m: Node)
    requires m in AppendNew(l, nodes)
    ensures m in l || m in nodes
    decreases |nodes|
  {
    if nodes != [] {
      AppendNewMembers(if nodes[0].id in IdSet(l) then l else l + [nodes[0]], nodes[1..], m);
    }
  }

  lemma {:induction false} AppendNewSplit(l: seq<Node>, a: seq<Node>, b: seq<Node>)
    ensures AppendNew(l, a + b) == AppendNew(AppendNew(l, a), b)
    decreases |a|
  {
    if a == [] {
      assert a + b == b;
    } else {
      assert (a + b)[1..] == a[1..] + b;
      AppendNewSplit(if a[0].id in IdSet(l) then l else l + [a[0]], a[1..], b);
    }
  }

  /** One more node: appended when no node of the result so far has its ID, and dropped otherwise. */
  lemma AppendNewLast(l: seq<Node>, nodes: seq<Node>, n: Node)
    ensures var r := AppendNew(l, nodes);
            AppendNew(l, nodes + [n]) == if exists m :: m in r && m.id == n.id then r else r + [n]
  {
    AppendNewSplit(l, nodes, [n]);
    assert [n][1..] == [];
  }

  /** Where the source's linear searches for an ID stop. */
  function IndexOf(l: seq<Node>, id: NodeId): (i: int)
    ensures -1 <= i < |l|
    ensures i >= 0 ==> l[i].id == id && forall m :: 0 <= m < i ==> l[m].id != id
    ensures i == -1 ==> forall m :: 0 <= m < |l| ==> l[m].id != id
  {
    if l == [] then -1
    else
      var i := IndexOf(l[..|l| - 1], id);
      if i >= 0 then i else if l[|l| - 1].id == id then |l| - 1 else -1
  }

  /** The list without the first node of that ID. */
  function Forget(l: seq<Node>, id: NodeId): seq<Node> {
    var i := IndexOf(l, id);
    if i == -1 then l else l[..i] + l[i + 1..]
  }

  function Insert(n: Node, l: seq<Node>, target: NodeId): seq<Node> {
    if l == [] || Distance(l[|l| - 1].id, target) <= Distance(n.id, target) then l + [n]
    else Insert(n, l[..|l| - 1], target) + [l[|l| - 1]]
  }

  lemma SortedAdd(l: seq<Node>, n: Node, target: NodeId)
    requires Sorted(l, target) && forall m :: m in l ==> Distance(m.id, target) <= Distance(n.id, target)
    ensures Sorted(l + [n], target)
  {
    hide Distance;
  }

  lemma {:induction false} InsertSorts(n: Node, l: seq<Node>, target: NodeId)
    requires Sorted(l, target)
    ensures Sorted(Insert(n, l, target), target)
    ensures multiset(Insert(n, l, target)) == multiset(l) + multiset{n}
  {
    hide Distance;
    if l != [] {
      var init, last := l[..|l| - 1], l[|l| - 1];
      assert l == init + [last];
      if Distance(last.id, target) <= Distance(n.id, target) {
        SortedAdd(l, n, target);
      } else {
        var r := Insert(n, init, target);
        InsertSorts(n, init, target);
        forall m | m in r ensures Distance(m.id, target) <= Distance(last.id, target) {
          assert m in multiset(r);
        }
        SortedAdd(r, last, target);
      }
    }
  }

  /** The nodes at i and j change places. */
  function Swapped(l: seq<Node>, i: nat, j: nat): (r: seq<Node>)
    requires i < |l| && j < |l|
    ensures |r| == |l| && r[i] == l[j] && r[j] == l[i] && forall k :: 0 <= k < |l| && k != i && k != j ==> r[k] == l[k]
  {
    l[i := l[j]][j := l[i]]
  }

  class NodeList {
    var nodes: seq<Node>
    const comparator: NodeId

    constructor (target: NodeId)
      ensures nodes == [] && comparator == target
    {
      nodes := [];
      comparator := target;
    }

    method Len() returns (n: nat)
      ensures n == |nodes|
    {
      n := |nodes|;
    }

    method Less(i: nat, j: nat) returns (less: bool)
      requires i < |nodes| && j < |nodes|
      ensures less <==> Distance(nodes[i].id, comparator) < Distance(nodes[j].id, comparator)
    {
      var iDist := Distance(nodes[i].id, comparator);
      var jDist := Distance(nodes[j].id, comparator);
      less := iDist < jDist;
    }

    method Swap(i: nat, j: nat)
      requires i < |nodes| && j < |nodes|
      modifies this`nodes
      ensures nodes == Swapped(old(nodes), i, j)
    {
      nodes := nodes[i := nodes[j]][j := nodes[i]];
    }

    /** The source stops at the first match, which is the only one in a list kept distinct. */
    method RemoveNode(id: NodeId)
      modifies this`nodes
      ensures nodes == Forget(old(nodes), id)
    {
      var i := 0;
      while i < |nodes|
        invariant 0 <= i <= |nodes| && nodes == old(nodes)
        invariant forall m :: 0 <= m < i ==> nodes[m].id != id
      {
        if nodes[i].id == id {
          nodes := nodes[..i] + nodes[i + 1..];
          return;
        }
        i := i + 1;
      }
    }

    method AppendUnique(more: seq<Node>)
      modifies this`nodes
      ensures nodes == AppendNew(old(nodes), more)
    {
      for k := 0 to |more|
        invariant nodes == AppendNew(old(nodes), more[..k])
      {
        var n := more[k];
        var found := false;
        var i := 0;
        while i < |nodes| && !found
          invariant 0 <= i <= |nodes|
          invariant found ==> n.id in IdSet(nodes)
          invariant !found ==> n.id !in IdSet(nodes[..i])
        {
          if nodes[i].id == n.id {
            assert nodes[i] in nodes;
            found := true;
          }
          assert nodes[..i + 1] == nodes[..i] + [nodes[i]];
          i := i + 1;
        }
        assert i == |nodes| ==> nodes[..i] == nodes;
        AppendNewSplit(old(nodes), more[..k], [n]);
        assert more[..k + 1] == more[..k] + [n];
        if !found {
          nodes := nodes + [n];
        }
      }
      assert more[..|more|] == more;
    }

    /** The inner loop of the sort: node i moves to its place among the first i nodes. */
    method SiftDown(i: nat)
      requires i < |nodes| && SortedBut(nodes, i, i, comparator)
      modifies this`nodes
      ensures Permutation(nodes, old(nodes)) && |nodes| == |old(nodes)| && SortedBut(nodes, i + 1, i + 1, comparator)
    {
      hide Distance, Permutation, SortedBut, Swapped;
      var j := i;
      PermutationItself(nodes);
      SortedNext(nodes, i, comparator);
      while j > 0
        invariant 0 <= j <= i < |nodes| == |old(nodes)| && Permutation(nodes, old(nodes))
        invariant SortedBut(nodes, i + 1, j, comparator)
      {
        var less := Less(j, j - 1);
        if !less { break; }
        SortedSwap(nodes, i + 1, j, comparator);
        PermutationSwap(nodes, j, j - 1, old(nodes));
        Swap(j, j - 1);
        j := j - 1;
      }
      SortedDone(nodes, i + 1, j, comparator);
    }

    /**
     * sort.Sort through Len, Less and Swap, here by insertion. Only this contract is used elsewhere: any sort that
     * permutes the list into ascending order fits it, and SortIsUnique shows that they all agree.
     */
    method Sort()
      modifies this`nodes
      ensures Permutation(nodes, old(nodes)) && Sorted(nodes, comparator)
    {
      hide Distance, SortedBut;
      var length := Len();
      NothingUnsorted(nodes, comparator);
      for i := 0 to length
        invariant |nodes| == length && Permutation(nodes, old(nodes)) && SortedBut(nodes, i, i, comparator)
      {
        SiftDown(i);
      }
      SortedWhole(nodes, comparator);
    }
  }

  lemma PermutationItself(l: seq<Node>)
    ensures Permutation(l, l)
  {
  }

  lemma PermutationSwap(l: seq<Node>, i: nat, j: nat, m: seq<Node>)
    requires i < |l| && j < |l| && Permutation(l, m)
    ensures Permutation(Swapped(l, i, j), m)
  {
  }

  /** The first n nodes are sorted, but for the one at j, which may be nearer than nodes before it. */
  predicate SortedBut(l: seq<Node>, n: int, j: int, target: NodeId) {
    n <= |l| && forall p, q :: 0 <= p < q < n && q != j ==> Distance(l[p].id, target) <= Distance(l[q].id, target)
  }

  lemma NothingUnsorted(l: seq<Node>, target: NodeId)
    ensures SortedBut(l, 0, 0, target)
  {
  }

  lemma SortedNext(l: seq<Node>, i: nat, target: NodeId)
    requires i < |l| && SortedBut(l, i, i, target)
    ensures SortedBut(l, i + 1, i, target)
  {
    hide Distance;
  }

  lemma SortedSwap(l: seq<Node>, n: nat, j: nat, target: NodeId)
    requires 0 < j < n <= |l| && SortedBut(l, n, j, target)
    requires Distance(l[j].id, target) < Distance(l[j - 1].id, target)
    ensures SortedBut(Swapped(l, j, j - 1), n, j - 1, target)
  {
    hide Distance;
  }

  lemma SortedDone(l: seq<Node>, n: nat, j: nat, target: NodeId)
    requires j < n <= |l| && SortedBut(l, n, j, target)
    requires 0 < j ==> Distance(l[j - 1].id, target) <= Distance(l[j].id, target)
    ensures SortedBut(l, n, n, target)
  {
    hide Distance;
    forall p | 0 <= p < j ensures Distance(l[p].id, target) <= Distance(l[j].id, target) {
      assert Distance(l[p].id, target) <= Distance(l[j - 1].id, target);
    }
  }

  lemma SortedWhole(l: seq<Node>, target: NodeId)
    requires SortedBut(l, |l|, |l|, target)
    ensures Sorted(l, target)
  {
    hide Distance;
  }
}
