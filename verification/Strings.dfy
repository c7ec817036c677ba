/** strings.Index, strings.Split and strings.Join, over any kind of character. */
module Strings {

  /** sep occurs in s at position i. */
  predicate At<T(==)>(s: seq<T>, sep: seq<T>, i: int) {
    0 <= i && i + |sep| <= |s| && s[i..i + |sep|] == sep
  }

  lemma AtTail<T>(s: seq<T>, sep: seq<T>)
    requires s != []
    ensures forall j :: 0 <= j ==> (At(s, sep, j + 1) <==> At(s[1..], sep, j))
    ensures forall j :: 0 < j ==> (At(s, sep, j) <==> At(s[1..], sep, j - 1))
  {
    forall j | 0 <= j && j + 1 + |sep| <= |s| ensures At(s, sep, j + 1) <==> At(s[1..], sep, j) {
      var a, b := s[j + 1..j + 1 + |sep|], s[1..][j..j + |sep|];
      assert forall m :: 0 <= m < |sep| ==> a[m] == s[j + 1 + m] == b[m];
      assert a == b;
    }
    forall j | 0 < j ensures At(s, sep, j) <==> At(s[1..], sep, j - 1) {
      assert At(s, sep, (j - 1) + 1) <==> At(s[1..], sep, j - 1);
    }
  }

  /** The first position of sep in s, or -1. */
  function Index<T(==)>(s: seq<T>, sep: seq<T>): (i: int)
    ensures i == -1 || At(s, sep, i)
    ensures forall j :: At(s, sep, j) ==> 0 <= i <= j
  {
    if At(s, sep, 0) then 0
    else if s == [] then -1
    else
      var r := Index(s[1..], sep);
      AtTail(s, sep);
      if r == -1 then -1 else r + 1
  }

  function Split<T(==)>(s: seq<T>, sep: seq<T>): (parts: seq<seq<T>>)
    requires sep != []
    ensures parts != []
    decreases |s|
  {
    var i := Index(s, sep);
    if i == -1 then [s] else [s[..i]] + Split(s[i + |sep|..], sep)
  }

  function Join<T>(parts: seq<seq<T>>, sep: seq<T>): seq<T> {
    if parts == [] then []
    else if |parts| == 1 then parts[0]
    else parts[0] + sep + Join(parts[1..], sep)
  }

  /** The first separator cuts the string in three. */
  lemma IndexCuts<T>(s: seq<T>, sep: seq<T>)
    ensures var i := Index(s, sep);
            i != -1 ==> 0 <= i && i + |sep| <= |s| && s == s[..i] + sep + s[i + |sep|..]
  {
    hide Index;
    var i := Index(s, sep);
    if i != -1 { ThreeParts(s, i, i + |sep|); }
  }

  lemma ThreeParts<T>(s: seq<T>, i: nat, j: nat)
    requires i <= j <= |s|
    ensures s == s[..i] + s[i..j] + s[j..]
  {
  }

  /** Joining what was split always restores the string. */
  lemma {:induction false} JoinOfSplit<T>(s: seq<T>, sep: seq<T>)
    requires sep != []
    ensures Join(Split(s, sep), sep) == s
    decreases |s|
  {
    hide At, Index;
    var i := Index(s, sep);
    if i != -1 {
      IndexCuts(s, sep);
      var rest := Split(s[i + |sep|..], sep);
      JoinOfSplit(s[i + |sep|..], sep);
      assert ([s[..i]] + rest)[1..] == rest;
    }
  }

  /** The separator written after e is the first one a reader finds. */
  predicate EndsAtSeparator<T(==)>(e: seq<T>, sep: seq<T>) {
    Index(e + sep, sep) == |e|
  }

  /** No part hides a separator and no part runs into the one that follows it. */
  predicate Separable<T(==)>(parts: seq<seq<T>>, sep: seq<T>)
    requires parts != []
  {
    (forall k :: 0 <= k < |parts| - 1 ==> EndsAtSeparator(parts[k], sep)) && Index(parts[|parts| - 1], sep) == -1
  }

  lemma IndexInPrefix<T>(e: seq<T>, sep: seq<T>, rest: seq<T>)
    requires sep != []
    ensures Index(e + sep + rest, sep) == Index(e + sep, sep)
  {
    var a, s := e + sep, e + sep + rest;
    assert At(a, sep, |e|);
    forall j | 0 <= j <= |e| ensures At(s, sep, j) <==> At(a, sep, j) {
      assert s[j..j + |sep|] == a[j..j + |sep|];
    }
    assert At(s, sep, |e|);
    assert At(s, sep, Index(s, sep)) && At(a, sep, Index(a, sep));
  }

  lemma SeparatorAt<T>(e: seq<T>, sep: seq<T>)
    ensures At(e + sep, sep, |e|)
  {
    assert (e + sep)[|e|..|e| + |sep|] == sep;
  }

  /** Splitting what was joined gives the parts back exactly when they are separable. */
  lemma {:induction false} SplitOfJoin<T>(parts: seq<seq<T>>, sep: seq<T>)
    requires sep != [] && parts != []
    ensures Split(Join(parts, sep), sep) == parts <==> Separable(parts, sep)
  {
    hide At, Index, Separable;
    if |parts| == 1 {
      SplitOfOne(parts, sep);
    } else {
      var e, rest, s := parts[0], Join(parts[1..], sep), Join(parts, sep);
      assert s == e + sep + rest;
      IndexInPrefix(e, sep, rest);
      var i := Index(s, sep);
      SeparatorAt(e, sep);
      IndexCuts(s, sep);
      assert parts == [e] + parts[1..];
      SplitOfJoin(parts[1..], sep);
      SeparableStep(parts, sep);
      if i == |e| {
        assert s[..i] == e && s[i + |sep|..] == rest;
        assert Split(s, sep)[1..] == Split(rest, sep);
      } else {
        assert |Split(s, sep)[0]| < |e|;
      }
    }
  }

  lemma SplitOfOne<T>(parts: seq<seq<T>>, sep: seq<T>)
    requires sep != [] && |parts| == 1
    ensures Split(Join(parts, sep), sep) == parts <==> Separable(parts, sep)
  {
    assert Index(parts[0], sep) == -1 ==> Split(parts[0], sep) == [parts[0]] == parts;
  }

  lemma SeparableStep<T>(parts: seq<seq<T>>, sep: seq<T>)
    requires |parts| > 1
    ensures Separable(parts, sep) <==> EndsAtSeparator(parts[0], sep) && Separable(parts[1..], sep)
  {
    var rest := parts[1..];
    if EndsAtSeparator(parts[0], sep) && Separable(rest, sep) {
      forall k | 0 <= k < |parts| - 1 ensures EndsAtSeparator(parts[k], sep) {
        if k > 0 { assert parts[k] == rest[k - 1]; }
      }
    }
    if Separable(parts, sep) {
      forall k | 0 <= k < |rest| - 1 ensures EndsAtSeparator(rest[k], sep) { assert rest[k] == parts[k + 1]; }
    }
  }

  /** No end of sep is also a beginning of it. */
  predicate BorderFree<T(==)>(sep: seq<T>) {
    forall k :: 0 < k < |sep| ==> sep[k..] != sep[..|sep| - k]
  }

  /** For such a separator nothing can run into it. */
  lemma BorderFreeEnds<T>(e: seq<T>, sep: seq<T>)
    requires sep != [] && BorderFree(sep)
    ensures EndsAtSeparator(e, sep) <==> Index(e, sep) == -1
  {
    var s := e + sep;
    assert At(s, sep, |e|);
    forall j | 0 <= j < |e| ensures At(s, sep, j) <==> At(e, sep, j) {
      if j + |sep| <= |e| {
        assert s[j..j + |sep|] == e[j..j + |sep|];
      } else {
        var k, here := |e| - j, s[j..j + |sep|];
        assert here[k..] == sep[..|sep| - k];
        assert sep[k..] != here[k..];
      }
    }
    assert Index(e, sep) != -1 ==> Index(e, sep) < |e|;
  }
}
