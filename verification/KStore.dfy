/** The key-value store of the DHT (kStore.go): sorted lists of values and two maps of times under composite keys. */
module KStores {
  import opened Bytes
  import opened Strings

  /** Go's strings are bytes. */
  type Text = seq<Byte>

  // ---- the order of strings ----

  predicate Less(a: Text, b: Text) {
    b != [] && (a == [] || a[0] < b[0] || (a[0] == b[0] && Less(a[1..], b[1..])))
  }

  lemma {:induction false} LessTotal(a: Text, b: Text)
    ensures a == b || Less(a, b) || Less(b, a)
    ensures !(Less(a, b) && Less(b, a)) && (a == b ==> !Less(a, b))
  {
    if a != [] && b != [] {
      LessTotal(a[1..], b[1..]);
      assert a == [a[0]] + a[1..] && b == [b[0]] + b[1..];
    }
  }

  lemma {:induction false} LessTransitive(a: Text, b: Text, c: Text)
    requires Less(a, b) && Less(b, c)
    ensures Less(a, c)
  {
    if a != [] && a[0] == b[0] == c[0] { LessTransitive(a[1..], b[1..], c[1..]); }
  }

  /** Below in the order of bytes: at the first difference the byte is smaller, or b is longer and begins with a. */
  lemma LessExactly(a: Text, b: Text)
    ensures Less(a, b) <==> exists k :: 0 <= k <= |a| && k < |b| && a[..k] == b[..k] && (k == |a| || a[k] < b[k])
  {
    if Less(a, b) { var _ := LessDiffers(a, b); }
    if k :| 0 <= k <= |a| && k < |b| && a[..k] == b[..k] && (k == |a| || a[k] < b[k]) { DiffersLess(a, b, k); }
  }

  lemma {:induction false} LessDiffers(a: Text, b: Text) returns (k: nat)
    requires Less(a, b)
    ensures k <= |a| && k < |b| && a[..k] == b[..k] && (k == |a| || a[k] < b[k])
  {
    if a == [] || a[0] < b[0] {
      k := 0;
    } else {
      var j := LessDiffers(a[1..], b[1..]);
      k := j + 1;
      assert a[..k] == [a[0]] + a[1..][..j] && b[..k] == [b[0]] + b[1..][..j];
    }
  }

  lemma {:induction false} DiffersLess(a: Text, b: Text, k: nat)
    requires k <= |a| && k < |b| && a[..k] == b[..k] && (k == |a| || a[k] < b[k])
    ensures Less(a, b)
  {
    if k > 0 {
      assert a[0] == a[..k][0] == b[..k][0] == b[0];
      assert a[1..][..k - 1] == a[..k][1..] == b[..k][1..] == b[1..][..k - 1];
      DiffersLess(a[1..], b[1..], k - 1);
    }
  }

  predicate Ascending(l: seq<Text>) {
    forall i, j :: 0 <= i < j < |l| ==> Less(l[i], l[j])
  }

  /** sort.SearchStrings: the number of strings below x, by halving. */
  method SearchStrings(l: seq<Text>, x: Text) returns (index: nat)
    requires Ascending(l)
    ensures index <= |l|
    ensures forall i :: 0 <= i < index ==> Less(l[i], x)
    ensures forall i :: index <= i < |l| ==> !Less(l[i], x)
  {
    hide Less;
    var i, j := 0, |l|;
    while i < j
      invariant 0 <= i <= j <= |l|
      invariant forall k :: 0 <= k < i ==> Less(l[k], x)
      invariant forall k :: j <= k < |l| ==> !Less(l[k], x)
    {
      var h := (i + j) / 2;
      if Less(l[h], x) {
        forall k | 0 <= k < h ensures Less(l[k], x) { LessTransitive(l[k], l[h], x); }
        i := h + 1;
      } else {
        forall k | h < k < |l| ensures !Less(l[k], x) {
          if Less(l[k], x) { LessTransitive(l[h], l[k], x); }
        }
        j := h;
      }
    }
    index := i;
  }

  lemma SearchFinds(l: seq<Text>, x: Text, index: nat)
    requires Ascending(l) && index <= |l|
    requires forall i :: 0 <= i < index ==> Less(l[i], x)
    requires forall i :: index <= i < |l| ==> !Less(l[i], x)
    ensures x in l <==> index < |l| && l[index] == x
    ensures x !in l ==> Ascending(l[..index] + [x] + l[index..])
    ensures forall i :: 0 <= i < index ==> l[i] != x
    ensures forall i :: index < i < |l| ==> l[i] != x
  {
    hide Less;
    forall i | 0 <= i < |l| ensures l[i] == x ==> !Less(l[i], x) { LessTotal(l[i], x); }
    forall i | index < i < |l| ensures Less(x, l[i]) {
      LessTotal(l[index], x);
      LessTotal(l[i], x);
      if l[index] != x { LessTransitive(x, l[index], l[i]); }
    }
    if index < |l| && l[index] != x { LessTotal(l[index], x); }
    forall i | 0 <= i < |l| && l[i] == x ensures i == index { LessTotal(x, l[i]); LessTotal(x, x); }
  }

  lemma RemoveAt(l: seq<Text>, index: nat, x: Text)
    requires Ascending(l) && index < |l| && l[index] == x
    ensures Ascending(l[..index] + l[index + 1..])
    ensures forall v :: v in l[..index] + l[index + 1..] <==> v in l && v != x
  {
    hide Less;
    forall i | 0 <= i < |l| && i != index ensures l[i] != x {
      LessTotal(l[i], x);
      assert Less(l[i], l[index]) || Less(l[index], l[i]);
    }
    assert l == l[..index] + [l[index]] + l[index + 1..];
  }

  // ---- composite keys ----

  /** "/data:" */
  const SEP: Text := [0x2f, 0x64, 0x61, 0x74, 0x61, 0x3a]

  function Composite(key: Text, value: Text): Text {
    key + SEP + value
  }

  predicate Free(s: Text) {
    Index(s, SEP) == -1
  }

  lemma SeparatorBorderFree()
    ensures BorderFree(SEP)
  {
    forall k | 0 < k < |SEP| ensures SEP[k..] != SEP[..|SEP| - k] {
      assert SEP[k..][0] == SEP[k] != SEP[0] == SEP[..|SEP| - k][0];
    }
  }

  /** A composite key splits into its pair exactly when neither part contains the separator. */
  lemma CompositeRoundTrip(key: Text, value: Text)
    ensures Split(Composite(key, value), SEP) == [key, value] <==> Free(key) && Free(value)
  {
    var parts := [key, value];
    assert parts[1..] == [value];
    assert Join(parts, SEP) == Composite(key, value);
    SplitOfJoin(parts, SEP);
    SeparatorBorderFree();
    BorderFreeEnds(key, SEP);
  }

  /** Every composite key splits into at least two parts, so taking parts 0 and 1 never panics. */
  lemma CompositeHasSeparator(key: Text, value: Text)
    ensures !Free(Composite(key, value))
  {
    assert At(Composite(key, value), SEP, |key|);
  }

  lemma TwoParts(s: Text)
    requires !Free(s)
    ensures |Split(s, SEP)| >= 2
  {
  }

  // ---- the simple map ----

  type Pair = (Text, Text)
  datatype Times = Times(expire: int, republish: int)

  function Key(p: Pair): Text {
    Composite(p.0, p.1)
  }

  predicate FreePair(p: Pair) {
    Free(p.0) && Free(p.1)
  }

  /** Two separators do not overlap. */
  lemma NoOverlap(s: Text, n: int, j: int)
    requires At(s, SEP, n) && n < j < n + |SEP|
    ensures !At(s, SEP, j)
  {
    assert s[n..n + |SEP|][j - n] == s[j];
    assert SEP[j - n] != SEP[0];
    if j + |SEP| <= |s| { assert s[j..j + |SEP|][0] == s[j]; }
  }

  lemma AfterSeparator(k: Text, v: Text, j: int)
    requires |k| + |SEP| <= j
    ensures At(k + SEP + v, SEP, j) <==> At(v, SEP, j - |k| - |SEP|)
  {
    var s, at := k + SEP + v, j - |k| - |SEP|;
    if j + |SEP| <= |s| { assert s[j..j + |SEP|] == v[at..at + |SEP|]; }
  }

  /** In the composite key of a pair without the separator it occurs once, between the parts. */
  lemma OneSeparator(p: Pair, j: int)
    requires FreePair(p)
    ensures At(Key(p), SEP, j) <==> j == |p.0|
  {
    hide BorderFree, At;
    var n := |p.0|;
    SeparatorBorderFree();
    BorderFreeEnds(p.0, SEP);
    IndexInPrefix(p.0, SEP, p.1);
    assert Index(Key(p), SEP) == n;
    if n < j < n + |SEP| {
      NoOverlap(Key(p), n, j);
    } else if n + |SEP| <= j {
      AfterSeparator(p.0, p.1, j);
    }
  }

  /** A pair without the separator has its composite key to itself. */
  lemma KeyInjective(p: Pair, q: Pair)
    requires FreePair(p) && Key(p) == Key(q)
    ensures p == q
  {
    var s := Key(q);
    assert s[|q.0|..|q.0| + |SEP|] == SEP;
    assert At(s, SEP, |q.0|);
    OneSeparator(p, |q.0|);
    assert p.0 == s[..|p.0|] && p.1 == s[|p.0| + |SEP|..];
    assert q.0 == s[..|q.0|] && q.1 == s[|q.0| + |SEP|..];
  }

  /** Another pair with the same composite key: its parts meet at a separator inside a part of p. */
  function Twin(p: Pair): Pair
    requires !FreePair(p)
  {
    if !Free(p.0) then
      var i := Index(p.0, SEP);
      IndexCuts(p.0, SEP);
      (p.0[..i], p.0[i + |SEP|..] + SEP + p.1)
    else
      var i := Index(p.1, SEP);
      IndexCuts(p.1, SEP);
      (p.0 + SEP + p.1[..i], p.1[i + |SEP|..])
  }

  lemma TwinCollides(p: Pair)
    requires !FreePair(p)
    ensures Twin(p) != p && Key(Twin(p)) == Key(p)
  {
    hide At, Index;
    var (k, v) := p;
    if !Free(k) {
      IndexCuts(k, SEP);
      var i := Index(k, SEP);
      Regroup(k[..i], k[i + |SEP|..], v);
    } else {
      IndexCuts(v, SEP);
      var i := Index(v, SEP);
      Regroup(k, v[..i], v[i + |SEP|..]);
    }
  }

  lemma Regroup(a: Text, b: Text, c: Text)
    ensures a + SEP + (b + SEP + c) == (a + SEP + b) + SEP + c
    ensures |a| < |a + SEP + b|
  {
  }

  /** A pair shares its composite key with another one exactly when its key or its value contains the separator. */
  lemma CompositesCollide(p: Pair)
    ensures (exists q: Pair :: q != p && Key(q) == Key(p)) <==> !FreePair(p)
  {
    if FreePair(p) {
      forall q: Pair | Key(q) == Key(p) ensures q == p { KeyInjective(p, q); }
    } else {
      TwinCollides(p);
    }
  }

  /** Two such pairs: "a/data:b" with "c", and "a" with "b/data:c". */
  lemma CollidingPairs()
    ensures var a, b, c := [0x61], [0x62], [0x63];
            Key((a + SEP + b, c)) == Key((a, b + SEP + c)) && (a + SEP + b, c) != (a, b + SEP + c)
  {
    Regroup([0x61], [0x62], [0x63]);
  }

  /** The pair a composite key is taken apart into. */
  function Decode(s: Text): Pair
    requires !Free(s)
  {
    TwoParts(s);
    (Split(s, SEP)[0], Split(s, SEP)[1])
  }

  lemma KeyDecodes(p: Pair)
    ensures !Free(Key(p))
    ensures FreePair(p) ==> Split(Key(p), SEP) == [p.0, p.1] && Decode(Key(p)) == p
  {
    CompositeHasSeparator(p.0, p.1);
    CompositeRoundTrip(p.0, p.1);
    assert [p.0, p.1][0] == p.0 && [p.0, p.1][1] == p.1;
  }

  /** Expiry takes a composite key apart: into its pair exactly when neither part contains the separator. */
  lemma DecodeExactly(p: Pair)
    ensures !Free(Key(p))
    ensures Decode(Key(p)) == p <==> FreePair(p)
  {
    hide Free, Split;
    KeyDecodes(p);
    DecodedFree(Key(p));
  }

  /** The parts between separators contain none. */
  lemma DecodedFree(s: Text)
    requires !Free(s)
    ensures FreePair(Decode(s))
  {
    hide At;
    IndexCuts(s, SEP);
    var i := Index(s, SEP);
    var rest := s[i + |SEP|..];
    TwoParts(s);
    FirstPart(s);
    FirstPart(rest);
    assert Split(s, SEP) == [s[..i]] + Split(rest, SEP);
  }

  lemma FirstPart(s: Text)
    ensures Free(Split(s, SEP)[0])
  {
    var i := Index(s, SEP);
    if i != -1 && Index(s[..i], SEP) != -1 {
      var j := Index(s[..i], SEP);
      assert s[j..j + |SEP|] == s[..i][j..j + |SEP|];
      assert At(s, SEP, j);
    }
  }

  /** Every list is non-empty, strictly ascending, and holds exactly the live values of its key. */
  ghost predicate DataOf(data: map<Text, seq<Text>>, m: map<Pair, Times>) {
    (forall k :: k in data ==> data[k] != [] && Ascending(data[k]) && forall v :: v in data[k] <==> (k, v) in m)
    && (forall p :: p in m ==> p.0 in data)
  }

  /** The keys of a time map are exactly the composite keys of the live pairs. */
  ghost predicate KeysOf(t: map<Text, int>, m: map<Pair, Times>) {
    (forall p :: p in m ==> Key(p) in t)
    && (forall s :: s in t ==> !Free(s) && Decode(s) in m && Key(Decode(s)) == s)
  }

  ghost predicate Refines(data: map<Text, seq<Text>>, exp: map<Text, int>, rep: map<Text, int>,
                          m: map<Pair, Times>) {
    && (forall p :: p in m ==> FreePair(p))
    && DataOf(data, m) && KeysOf(exp, m) && KeysOf(rep, m)
    && (forall p :: p in m ==> exp[Key(p)] == m[p].expire && rep[Key(p)] == m[p].republish)
  }

  // ---- what single updates do to the maps ----

  /** d' is d with value taken out of the list of key, and the key gone with its last value. */
  ghost predicate TakenOut(d: map<Text, seq<Text>>, d': map<Text, seq<Text>>, key: Text, value: Text)
    requires key in d
  {
    (forall k :: k != key ==> (k in d' <==> k in d) && (k in d ==> d'[k] == d[k]))
    && (if |d[key]| == 1 then key !in d'
        else key in d' && d'[key] != [] && Ascending(d'[key])
             && forall v :: v in d'[key] <==> v in d[key] && v != value)
  }

  lemma TakeOutPair(d: map<Text, seq<Text>>, d': map<Text, seq<Text>>, m: map<Pair, Times>, p: Pair)
    requires DataOf(d, m) && p in m && TakenOut(d, d', p.0, p.1)
    ensures DataOf(d', m - {p})
  {
    assert p.1 in d[p.0];
    if |d[p.0]| == 1 {
      forall q | q in m && q.0 == p.0 ensures q == p {
        assert q.1 in d[p.0] && d[p.0][0] == p.1;
      }
    }
  }

  lemma KeysRemove(t: map<Text, int>, m: map<Pair, Times>, p: Pair)
    requires KeysOf(t, m) && p in m && forall q :: q in m ==> FreePair(q)
    ensures KeysOf(t - {Key(p)}, m - {p})
  {
    hide Key, Free;
    KeyDecodes(p);
    forall q | q in m && q != p ensures Key(q) in t - {Key(p)} {
      if Key(q) == Key(p) { KeyInjective(p, q); }
    }
  }

  lemma KeysAdd(t: map<Text, int>, m: map<Pair, Times>, p: Pair, x: int, times: Times)
    requires KeysOf(t, m) && FreePair(p)
    ensures KeysOf(t[Key(p) := x], m[p := times])
  {
    hide Key, Free;
    KeyDecodes(p);
  }

  /** Putting one pair with its times. */
  lemma PutPair(d: map<Text, seq<Text>>, exp: map<Text, int>, rep: map<Text, int>, m: map<Pair, Times>,
                d': map<Text, seq<Text>>, p: Pair, times: Times)
    requires Refines(d, exp, rep, m) && FreePair(p) && DataOf(d', m[p := times])
    ensures Refines(d', exp[Key(p) := times.expire], rep[Key(p) := times.republish], m[p := times])
  {
    hide DataOf, KeysOf, Key, FreePair;
    var m' := m[p := times];
    KeysAdd(exp, m, p, times.expire, times);
    KeysAdd(rep, m, p, times.republish, times);
    assert forall q :: q in m' ==> FreePair(q);
    forall q | q in m' && q != p ensures Key(q) != Key(p) && Key(q) in exp && Key(q) in rep {
      if Key(q) == Key(p) { KeyInjective(p, q); }
      KeysHave(exp, m, q);
      KeysHave(rep, m, q);
    }
  }

  lemma KeysHave(t: map<Text, int>, m: map<Pair, Times>, q: Pair)
    requires KeysOf(t, m) && q in m
    ensures Key(q) in t
  {
  }

  /** Taking one pair out of the data and both time maps. */
  lemma DropPair(d: map<Text, seq<Text>>, exp: map<Text, int>, rep: map<Text, int>, m: map<Pair, Times>,
                 d': map<Text, seq<Text>>, p: Pair)
    requires Refines(d, exp, rep, m) && p in m && DataOf(d', m - {p})
    ensures Refines(d', exp - {Key(p)}, rep - {Key(p)}, m - {p})
  {
    hide DataOf, KeysOf, Key, FreePair;
    KeysRemove(exp, m, p);
    KeysRemove(rep, m, p);
    forall q | q in m && q != p ensures Key(q) != Key(p) && Key(q) in exp && Key(q) in rep {
      if Key(q) == Key(p) { KeyInjective(p, q); }
      KeysHave(exp, m, q);
      KeysHave(rep, m, q);
    }
  }

  /** A pair in the time map is a pair in the data. */
  lemma LivePair(d: map<Text, seq<Text>>, exp: map<Text, int>, rep: map<Text, int>, m: map<Pair, Times>,
                 p: Pair)
    requires Refines(d, exp, rep, m) && FreePair(p)
    ensures p in m <==> Key(p) in exp
    ensures p in m <==> Key(p) in rep
    ensures p in m <==> p.0 in d && p.1 in d[p.0]
  {
    KeyDecodes(p);
  }

  /** d' is d with value put into the list of key. */
  ghost predicate PutIn(d: map<Text, seq<Text>>, d': map<Text, seq<Text>>, key: Text, value: Text) {
    (forall k :: k != key ==> (k in d' <==> k in d) && (k in d ==> d'[k] == d[k]))
    && key in d' && d'[key] != [] && Ascending(d'[key])
    && forall v :: v in d'[key] <==> v == value || (key in d && v in d[key])
  }

  lemma PutInPair(d: map<Text, seq<Text>>, d': map<Text, seq<Text>>, m: map<Pair, Times>, p: Pair,
                  times: Times)
    requires DataOf(d, m) && PutIn(d, d', p.0, p.1)
    ensures DataOf(d', m[p := times])
  {
    hide Ascending;
  }

  lemma RefinesData(d: map<Text, seq<Text>>, exp: map<Text, int>, rep: map<Text, int>, m: map<Pair, Times>)
    requires Refines(d, exp, rep, m)
    ensures DataOf(d, m)
  {
  }

  lemma NamesMissingPair(d: map<Text, seq<Text>>, exp: map<Text, int>, rep: map<Text, int>,
                         m: map<Pair, Times>, p: Pair)
    requires FreePair(p) && Key(p) in exp && !(p.0 in d && p.1 in d[p.0])
    ensures !Refines(d, exp, rep, m)
  {
    hide Ascending, Key, Free;
    KeyDecodes(p);
  }

  /** No map describes a store whose time maps still name a pair that was taken out of the data. */
  lemma NoLongerRefines(d: map<Text, seq<Text>>, d': map<Text, seq<Text>>, exp: map<Text, int>,
                        rep: map<Text, int>, m: map<Pair, Times>, p: Pair)
    requires p.0 in d && p.1 in d[p.0] && TakenOut(d, d', p.0, p.1)
    ensures Refines(d, exp, rep, m) ==> forall m' :: !Refines(d', exp, rep, m')
  {
    hide Ascending, Key, Free;
    if Refines(d, exp, rep, m) {
      assert p in m;
      forall m' ensures !Refines(d', exp, rep, m') { NamesMissingPair(d', exp, rep, m', p); }
    }
  }

  /** The pair behind a key of the time maps, and what the maps say of it. */
  lemma TimedPair(d: map<Text, seq<Text>>, exp: map<Text, int>, rep: map<Text, int>, m: map<Pair, Times>,
                  s: Text)
    requires Refines(d, exp, rep, m) && (s in exp || s in rep)
    ensures !Free(s)
    ensures var p := Decode(s);
            p in m && FreePair(p) && Key(p) == s && Split(s, SEP) == [p.0, p.1]
            && s in exp && s in rep && exp[s] == m[p].expire && rep[s] == m[p].republish
            && p.0 in d && p.1 in d[p.0] && forall q :: q in m && Key(q) == s ==> q == p
  {
    hide Ascending, Key, Free;
    var p := Decode(s);
    KeyDecodes(p);
    forall q | q in m && Key(q) == s ensures q == p { KeyInjective(p, q); }
  }

  lemma DropExpired(d: map<Text, seq<Text>>, d': map<Text, seq<Text>>, exp: map<Text, int>,
                    rep: map<Text, int>, m: map<Pair, Times>, p: Pair)
    requires Refines(d, exp, rep, m) && p in m && p.0 in d && TakenOut(d, d', p.0, p.1)
    ensures Refines(d', exp - {Key(p)}, rep - {Key(p)}, m - {p})
  {
    hide Refines, TakenOut, DataOf;
    RefinesData(d, exp, rep, m);
    TakeOutPair(d, d', m, p);
    DropPair(d, exp, rep, m, d', p);
  }

  /** Only the times of a live pair change. */
  lemma Retime(d: map<Text, seq<Text>>, exp: map<Text, int>, rep: map<Text, int>, m: map<Pair, Times>,
               p: Pair, times: Times)
    requires Refines(d, exp, rep, m) && p in m
    ensures Refines(d, exp[Key(p) := times.expire], rep[Key(p) := times.republish], m[p := times])
  {
    hide Ascending, Key, FreePair, KeysOf;
    assert PutIn(d, d, p.0, p.1);
    PutInPair(d, d, m, p, times);
    PutPair(d, exp, rep, m, d, p, times);
  }

  /** A new pair. */
  lemma Stored(d: map<Text, seq<Text>>, d': map<Text, seq<Text>>, exp: map<Text, int>,
               rep: map<Text, int>, m: map<Pair, Times>, p: Pair, times: Times)
    requires Refines(d, exp, rep, m) && FreePair(p) && PutIn(d, d', p.0, p.1)
    ensures Refines(d', exp[Key(p) := times.expire], rep[Key(p) := times.republish], m[p := times])
  {
    hide Refines, DataOf, PutIn;
    RefinesData(d, exp, rep, m);
    PutInPair(d, d', m, p, times);
    PutPair(d, exp, rep, m, d', p, times);
  }

  // ---- whole passes over the time maps ----

  function WithoutKey(m: map<Pair, Times>, key: Text): map<Pair, Times> {
    map p | p in m && p.0 != key :: m[p]
  }

  /** The composite keys of key that a pass has already met. */
  function Dropped(exp: map<Text, int>, remaining: set<Text>, key: Text): set<Text> {
    set s | s in exp && s !in remaining && Split(s, SEP)[0] == key
  }

  lemma DroppedAll(exp: map<Text, int>, key: Text)
    ensures forall s :: s in Dropped(exp, {}, key) <==> s in exp && Split(s, SEP)[0] == key
  {
  }

  lemma KeyGone(m: map<Pair, Times>, key: Text)
    ensures forall p :: p in WithoutKey(m, key) <==> p in m && p.0 != key
  {
  }

  lemma DroppedStep(exp: map<Text, int>, remaining: set<Text>, key: Text, k: Text)
    requires k in remaining && k in exp
    ensures Dropped(exp, remaining - {k}, key)
            == Dropped(exp, remaining, key) + if Split(k, SEP)[0] == key then {k} else {}
    ensures k !in Dropped(exp, remaining, key)
  {
  }

  lemma NothingDropped(exp: map<Text, int>, key: Text)
    ensures Dropped(exp, exp.Keys, key) == {}
  {
  }

  /** The composite keys past their time that a pass has already met. */
  function Past(exp: map<Text, int>, remaining: set<Text>, now: int): set<Text> {
    set s | s in exp && s !in remaining && now > exp[s]
  }

  /** The value is in the list of the key. */
  predicate Has(data: map<Text, seq<Text>>, p: Pair) {
    p.0 in data && p.1 in data[p.0]
  }

  /** Some of the composite keys is taken apart into the pair. */
  ghost predicate NamedBy(keys: set<Text>, p: Pair) {
    exists s :: s in keys && !Free(s) && Decode(s) == p
  }

  lemma NamedUnion(keys: set<Text>, more: set<Text>, p: Pair)
    ensures NamedBy(keys + more, p) <==> NamedBy(keys, p) || NamedBy(more, p)
  {
    hide Free, Decode;
    if s :| s in keys && !Free(s) && Decode(s) == p { assert s in keys + more; }
    if s :| s in more && !Free(s) && Decode(s) == p { assert s in keys + more; }
  }

  lemma NamedOne(s: Text, p: Pair)
    requires !Free(s)
    ensures NamedBy({s}, p) <==> Decode(s) == p
  {
    hide Free, Decode;
    assert s in {s};
  }

  /** d' is d without exactly the pairs that some of the composite keys is taken apart into. */
  ghost predicate WithoutNamed(d: map<Text, seq<Text>>, d': map<Text, seq<Text>>, keys: set<Text>) {
    forall p :: Has(d', p) <==> Has(d, p) && !NamedBy(keys, p)
  }

  lemma NothingNamed(d: map<Text, seq<Text>>)
    ensures WithoutNamed(d, d, {})
  {
  }

  /** A pair with the separator is never what a composite key is taken apart into: no expiry ever removes its value. */
  lemma NeverExpires(d: map<Text, seq<Text>>, d': map<Text, seq<Text>>, keys: set<Text>, p: Pair)
    requires WithoutNamed(d, d', keys) && !FreePair(p)
    ensures Has(d', p) <==> Has(d, p)
  {
    hide Free, Decode;
    forall s | s in keys && !Free(s) ensures Decode(s) != p { DecodedFree(s); }
  }

  /** Two passes in a row. */
  lemma WithoutNamedStep(d: map<Text, seq<Text>>, e: map<Text, seq<Text>>, f: map<Text, seq<Text>>, keys: set<Text>,
                         more: set<Text>)
    requires WithoutNamed(d, e, keys) && WithoutNamed(e, f, more)
    ensures WithoutNamed(d, f, keys + more)
  {
    hide Has, NamedBy;
    forall p ensures Has(f, p) <==> Has(d, p) && !NamedBy(keys + more, p) { NamedUnion(keys, more, p); }
  }

  /** What taking one value out, or finding it missing, means for all pairs. */
  lemma RemovedNamed(d: map<Text, seq<Text>>, d': map<Text, seq<Text>>, s: Text)
    requires !Free(s)
    requires var p := Decode(s);
             if p.0 in d && p.1 in d[p.0] then TakenOut(d, d', p.0, p.1) else d' == d
    ensures WithoutNamed(d, d', {s})
  {
    hide Free, Decode, Ascending;
    forall q: Pair ensures Has(d', q) <==> Has(d, q) && !NamedBy({s}, q) {
      NamedOne(s, q);
      if q.0 == Decode(s).0 && q.0 in d && |d[q.0]| == 1 && q.1 in d[q.0] { assert d[q.0] == [q.1]; }
    }
  }

  lemma PastStep(exp: map<Text, int>, remaining: set<Text>, now: int, k: Text)
    requires k in remaining && k in exp
    ensures Past(exp, remaining - {k}, now) == Past(exp, remaining, now) + if now > exp[k] then {k} else {}
    ensures k !in Past(exp, remaining, now)
  {
  }

  /** The republish times after a pass that has met all but the remaining keys. */
  function Renewed(rep: map<Text, int>, now: int, timeRep: int, remaining: set<Text>): map<Text, int> {
    map s | s in rep :: if now > rep[s] && s !in remaining then now + timeRep else rep[s]
  }

  lemma RenewedAll(rep: map<Text, int>, now: int, timeRep: int)
    ensures var r := Renewed(rep, now, timeRep, {});
            r.Keys == rep.Keys && forall s :: s in rep ==> r[s] == if now > rep[s] then now + timeRep else rep[s]
  {
  }

  lemma RenewedStep(rep: map<Text, int>, now: int, timeRep: int, remaining: set<Text>, k: Text)
    requires k in remaining && k in rep
    ensures Renewed(rep, now, timeRep, remaining)[k] == rep[k]
    ensures Renewed(rep, now, timeRep, remaining - {k})
            == if now > rep[k] then Renewed(rep, now, timeRep, remaining)[k := now + timeRep]
               else Renewed(rep, now, timeRep, remaining)
  {
  }

  lemma RenewedNothing(rep: map<Text, int>, now: int, timeRep: int)
    ensures Renewed(rep, now, timeRep, rep.Keys) == rep
  {
  }

  lemma KeysWithout(t: map<Text, int>, exp: map<Text, int>, m: map<Pair, Times>, key: Text)
    requires KeysOf(t, m) && t.Keys == exp.Keys && forall q :: q in m ==> FreePair(q)
    ensures KeysOf(t - Dropped(exp, {}, key), WithoutKey(m, key))
  {
    hide Key, Split, Free, FreePair;
    var t', m' := t - Dropped(exp, {}, key), WithoutKey(m, key);
    forall q | q in m' ensures Key(q) in t' { KeyDecodes(q); }
    forall s | s in t' ensures !Free(s) && Decode(s) in m' && Key(Decode(s)) == s {
      KeyDecodes(Decode(s));
      assert s !in Dropped(exp, {}, key);
    }
  }

  lemma DataWithout(d: map<Text, seq<Text>>, m: map<Pair, Times>, key: Text)
    requires DataOf(d, m)
    ensures DataOf(d - {key}, WithoutKey(m, key))
  {
    hide Ascending;
  }

  lemma RemovedKey(d: map<Text, seq<Text>>, exp: map<Text, int>, rep: map<Text, int>, m: map<Pair, Times>,
                   key: Text)
    requires Refines(d, exp, rep, m)
    ensures Refines(d - {key}, exp - Dropped(exp, {}, key), rep - Dropped(exp, {}, key), WithoutKey(m, key))
  {
    hide Free, DataOf, KeysOf, Key, Split, FreePair, Dropped;
    forall s ensures s in exp <==> s in rep {
      if s in exp || s in rep { TimedPair(d, exp, rep, m, s); }
    }
    assert exp.Keys == rep.Keys;
    var m' := WithoutKey(m, key);
    KeysWithout(exp, exp, m, key);
    KeysWithout(rep, exp, m, key);
    DataWithout(d, m, key);
    forall p | p in m' ensures Key(p) in exp - Dropped(exp, {}, key) && Key(p) in rep - Dropped(exp, {}, key) {
      KeysHave(exp - Dropped(exp, {}, key), m', p);
      KeysHave(rep - Dropped(exp, {}, key), m', p);
    }
  }

  lemma NothingToRemove(d: map<Text, seq<Text>>, exp: map<Text, int>, rep: map<Text, int>,
                        m: map<Pair, Times>, key: Text)
    requires Refines(d, exp, rep, m) && key !in d
    ensures WithoutKey(m, key) == m
  {
    hide Ascending, KeysOf, FreePair;
  }

  /** The pairs that are gone are past their time, and the ones already met and still there are not. */
  ghost predicate Expiring(was: map<Pair, Times>, live: map<Pair, Times>, remaining: set<Text>, now: int) {
    (forall p :: p in live ==> p in was && live[p] == was[p])
    && (forall p :: p in was && p !in live ==> now > was[p].expire)
    && (forall p :: p in live && Key(p) !in remaining ==> now <= was[p].expire)
  }

  /** Meeting a key whose pair is not past its time. */
  lemma ExpiringMeet(was: map<Pair, Times>, live: map<Pair, Times>, remaining: set<Text>, now: int, s: Text)
    requires Expiring(was, live, remaining, now) && !Free(s) && Decode(s) in live
    requires forall q :: q in live && Key(q) == s ==> q == Decode(s)
    ensures now <= live[Decode(s)].expire ==> Expiring(was, live, remaining - {s}, now)
    ensures now > live[Decode(s)].expire ==> Expiring(was, live - {Decode(s)}, remaining - {s}, now)
  {
    hide Key, Decode, Free;
  }

  /** The times after a pass that has met all but the remaining keys. */
  function Republished(m: map<Pair, Times>, now: int, timeRep: int, remaining: set<Text>): map<Pair, Times> {
    map p | p in m :: if now > m[p].republish && Key(p) !in remaining then m[p].(republish := now + timeRep) else m[p]
  }

  lemma NothingRepublished(m: map<Pair, Times>, now: int, timeRep: int, remaining: set<Text>)
    requires forall p :: p in m ==> Key(p) in remaining
    ensures Republished(m, now, timeRep, remaining) == m
  {
  }

  lemma AllTimed(d: map<Text, seq<Text>>, exp: map<Text, int>, rep: map<Text, int>, m: map<Pair, Times>)
    requires Refines(d, exp, rep, m)
    ensures forall p :: p in m ==> FreePair(p) && Key(p) in exp && Key(p) in rep
  {
  }

  lemma RepublishStep(m: map<Pair, Times>, now: int, timeRep: int, remaining: set<Text>, p: Pair)
    requires p in m && Key(p) in remaining && forall q :: q in m ==> FreePair(q)
    ensures Republished(m, now, timeRep, remaining - {Key(p)})
            == if now > m[p].republish
               then Republished(m, now, timeRep, remaining)[p := m[p].(republish := now + timeRep)]
               else Republished(m, now, timeRep, remaining)
    ensures forall q :: q in m && q != p ==> Key(q) != Key(p)
  {
    hide Key, FreePair;
    forall q | q in m && q != p ensures Key(q) != Key(p) {
      if Key(q) == Key(p) { KeyInjective(p, q); }
    }
  }

  function Zip(keys: seq<Text>, values: seq<Text>): (r: seq<Pair>)
    requires |keys| == |values|
  {
    seq(|keys|, i requires 0 <= i < |keys| => (keys[i], values[i]))
  }

  lemma ZipAdd(keys: seq<Text>, values: seq<Text>, k: Text, v: Text)
    requires |keys| == |values|
    ensures Zip([], []) == []
    ensures Zip(keys + [k], values + [v]) == Zip(keys, values) + [(k, v)]
  {
  }

  predicate NoDuplicates(l: seq<Pair>) {
    forall i, j :: 0 <= i < j < |l| ==> l[i] != l[j]
  }

  /** Of the pairs whose key a pass has met, those that are due are listed, once each. */
  ghost predicate Listed(was: map<Pair, Times>, now: int, remaining: set<Text>, l: seq<Pair>) {
    NoDuplicates(l) && forall p :: p in l <==> p in was && now > was[p].republish && Key(p) !in remaining
  }

  lemma ListedNothing(was: map<Pair, Times>, now: int, remaining: set<Text>)
    requires forall p :: p in was ==> Key(p) in remaining
    ensures Listed(was, now, remaining, [])
  {
  }

  lemma ListedAll(was: map<Pair, Times>, now: int, l: seq<Pair>)
    requires Listed(was, now, {}, l)
    ensures NoDuplicates(l) && forall p :: p in l <==> p in was && now > was[p].republish
  {
  }

  lemma ListedStep(was: map<Pair, Times>, now: int, remaining: set<Text>, l: seq<Pair>, p: Pair)
    requires Listed(was, now, remaining, l) && p in was && Key(p) in remaining
    requires forall q :: q in was && q != p ==> Key(q) != Key(p)
    ensures Listed(was, now, remaining - {Key(p)}, if now > was[p].republish then l + [p] else l)
  {
    hide Key;
  }

  class KStore {
    var data: map<Text, seq<Text>>
    var expirationTimeMap: map<Text, int>
    var republishTimeMap: map<Text, int>
    ghost var live: map<Pair, Times>

    /** What every run keeps, whatever the keys and values: enough for no operation to panic. */
    ghost predicate Sound()
      reads this
    {
      && (forall k :: k in data ==> data[k] != [] && Ascending(data[k]))
      && (forall s :: s in expirationTimeMap ==> !Free(s))
      && (forall s :: s in republishTimeMap ==> !Free(s))
    }

    /** The three maps say the same as the one map from live pairs to their times. */
    ghost predicate Valid()
      reads this
    {
      Sound() && Refines(data, expirationTimeMap, republishTimeMap, live)
    }

    constructor ()
      ensures Valid() && live == map[]
    {
      data, expirationTimeMap, republishTimeMap, live := map[], map[], map[], map[];
    }

    /** The value goes to its place in the list of its key, or starts one. */
    method InsertValue(key: Text, value: Text)
      requires Sound()
      modifies this`data
      ensures Sound() && PutIn(old(data), data, key, value)
    {
      hide Less, Free;
      if key in data {
        var l := data[key];
        var index := SearchStrings(l, value);
        SearchFinds(l, value, index);
        if index == |l| {
          assert l[..index] + [value] + l[index..] == l + [value];
          data := data[key := l + [value]];
        } else if l[index] != value {
          var l' := l[..index] + [value] + l[index..];
          assert forall v :: v in l <==> v in l[..index] || v in l[index..] by { assert l == l[..index] + l[index..]; }
          data := data[key := l'];
        }
      } else {
        data := data[key := [value]];
      }
    }

    method Store(key: Text, value: Text, expirationTime: int, republishTime: int, now: int)
        returns (ok: bool)
      requires Sound()
      modifies this
      ensures Sound()
      ensures ok <==> now <= expirationTime && now <= republishTime
      ensures !ok ==> unchanged(this)
      ensures ok ==> expirationTimeMap == old(expirationTimeMap)[Composite(key, value) := expirationTime]
                     && republishTimeMap == old(republishTimeMap)[Composite(key, value) := republishTime]
      ensures ok ==> if Composite(key, value) in old(expirationTimeMap) then data == old(data)
                     else PutIn(old(data), data, key, value)
      ensures ok && old(Valid()) && Free(key) && Free(value) ==>
                Valid() && live == old(live)[(key, value) := Times(expirationTime, republishTime)]
    {
      hide Refines, DataOf, Ascending, Free, PutIn;
      if now > expirationTime || now > republishTime { return false; }
      ok := true;
      ghost var p, times := (key, value), Times(expirationTime, republishTime);
      ghost var tame := Valid() && Free(key) && Free(value);
      ghost var exp, rep := expirationTimeMap, republishTimeMap;
      CompositeHasSeparator(key, value);
      if tame { LivePair(data, exp, rep, live, p); }
      var keyKD := Composite(key, value);
      if keyKD in expirationTimeMap {
        if tame { Retime(data, exp, rep, live, p, times); }
      } else {
        ghost var d := data;
        InsertValue(key, value);
        if tame { Stored(d, data, exp, rep, live, p, times); }
      }
      expirationTimeMap := expirationTimeMap[keyKD := expirationTime];
      republishTimeMap := republishTimeMap[keyKD := republishTime];
      if tame { live := live[p := times]; }
    }

    /** The live values of the key in ascending order; found tells whether there are any. */
    method GetValues(key: Text) returns (values: seq<Text>, found: bool)
      requires Sound()
      ensures Ascending(values) && forall v :: v in values <==> Has(data, (key, v))
      ensures found <==> values != []
      ensures Valid() ==> forall v :: v in values <==> (key, v) in live
    {
      if key in data { return data[key], true; }
      return [], false;
    }

    /**
     * Takes the value out of the list but leaves both time maps alone. After a successful call on a valid
     * store the time maps still name a pair that is gone: no map describes the store any more.
     */
    method RemoveKeyValue(key: Text, value: Text) returns (removed: bool)
      requires Sound()
      modifies this`data
      ensures Sound()
      ensures removed <==> key in old(data) && value in old(data)[key]
      ensures if removed then TakenOut(old(data), data, key, value) else data == old(data)
      ensures removed && old(Valid()) ==>
                forall m :: !Refines(data, expirationTimeMap, republishTimeMap, m)
    {
      hide Less, Free;
      if key in data {
        var l := data[key];
        var index := SearchStrings(l, value);
        SearchFinds(l, value, index);
        if index == |l| || l[index] != value { return false; }
        RemoveAt(l, index, value);
        if |l| == 1 {
          data := data - {key};
        } else {
          data := data[key := l[..index] + l[index + 1..]];
          assert |data[key]| == |l| - 1;
        }
        NoLongerRefines(old(data), data, expirationTimeMap, republishTimeMap, live, (key, value));
        return true;
      }
      return false;
    }

    method Remove(key: Text) returns (removed: bool)
      requires Sound()
      modifies this
      ensures Sound()
      ensures removed <==> key in old(data)
      ensures !removed ==> unchanged(this)
      ensures removed ==>
                var gone := Dropped(old(expirationTimeMap), {}, key);
                data == old(data) - {key} && expirationTimeMap == old(expirationTimeMap) - gone
                && republishTimeMap == old(republishTimeMap) - gone
      ensures removed ==> forall s :: s in expirationTimeMap <==>
                            s in old(expirationTimeMap) && Split(s, SEP)[0] != key
      ensures old(Valid()) ==> Valid() && live == WithoutKey(old(live), key)
      ensures old(Valid()) ==> forall p :: p in live <==> p in old(live) && p.0 != key
    {
      hide Refines, Ascending, Free, Split, Dropped, WithoutKey;
      if key !in data {
        if Valid() {
          NothingToRemove(data, expirationTimeMap, republishTimeMap, live, key);
          KeyGone(live, key);
        }
        return false;
      }
      ghost var exp, rep := expirationTimeMap, republishTimeMap;
      data := data - {key};
      NothingDropped(exp, key);
      var remaining := expirationTimeMap.Keys;
      while remaining != {}
        invariant remaining <= expirationTimeMap.Keys <= exp.Keys && data == old(data) - {key} && live == old(live)
        invariant expirationTimeMap == exp - Dropped(exp, remaining, key)
        invariant republishTimeMap == rep - Dropped(exp, remaining, key)
        decreases remaining
      {
        var k :| k in remaining;
        assert k in exp;
        TwoParts(k);
        DroppedStep(exp, remaining, key, k);
        remaining := remaining - {k};
        if Split(k, SEP)[0] == key {
          republishTimeMap := republishTimeMap - {k};
          expirationTimeMap := expirationTimeMap - {k};
        }
      }
      if old(Valid()) {
        RemovedKey(old(data), exp, rep, live, key);
        KeyGone(live, key);
        live := WithoutKey(live, key);
      }
      DroppedAll(exp, key);
      removed := true;
    }

    /** One step of the expiry loop: the composite key goes, and with it the pair it is taken apart into. */
    method ExpireOne(keyKD: Text, now: int)
      requires Sound() && keyKD in expirationTimeMap
      modifies this
      ensures Sound()
      ensures var gone := if now > old(expirationTimeMap)[keyKD] then {keyKD} else {};
              expirationTimeMap == old(expirationTimeMap) - gone && republishTimeMap == old(republishTimeMap) - gone
              && WithoutNamed(old(data), data, gone)
      ensures old(Valid()) ==>
                Valid() && Decode(keyKD) in old(live)
                && live == if now > old(live)[Decode(keyKD)].expire then old(live) - {Decode(keyKD)} else old(live)
    {
      hide Refines, Free, TakenOut, Ascending, Key, FreePair, Split, WithoutNamed;
      NothingNamed(data);
      ghost var tame, p := Valid(), Decode(keyKD);
      if tame { TimedPair(data, expirationTimeMap, republishTimeMap, live, keyKD); }
      if now > expirationTimeMap[keyKD] {
        TwoParts(keyKD);
        var keyS := Split(keyKD, SEP);
        ghost var d := data;
        var _ := RemoveKeyValue(keyS[0], keyS[1]);
        RemovedNamed(d, data, keyKD);
        if tame {
          DropExpired(d, data, expirationTimeMap, republishTimeMap, live, p);
          live := live - {p};
        }
        expirationTimeMap := expirationTimeMap - {keyKD};
        republishTimeMap := republishTimeMap - {keyKD};
      }
    }

    /**
     * Removes exactly the pairs whose expiration time is past. In a store with the separator in a key or a value the
     * pairs that go are those the past composite keys are taken apart into: by DecodeExactly a pair with the separator
     * keeps its value, and the pair it is mistaken for loses it.
     */
    method ExpireKeys(now: int)
      requires Sound()
      modifies this
      ensures Sound()
      ensures expirationTimeMap == old(expirationTimeMap) - Past(old(expirationTimeMap), {}, now)
      ensures forall s :: s in expirationTimeMap <==> s in old(expirationTimeMap) && now <= old(expirationTimeMap)[s]
      ensures republishTimeMap == old(republishTimeMap) - Past(old(expirationTimeMap), {}, now)
      ensures WithoutNamed(old(data), data, Past(old(expirationTimeMap), {}, now))
      ensures old(Valid()) ==> Valid() && live == (map p | p in old(live) && now <= old(live)[p].expire :: old(live)[p])
    {
      hide Refines, Free, Ascending, Key, FreePair, Decode, WithoutNamed;
      ghost var was, tame := live, Valid();
      ghost var d, exp, rep := data, expirationTimeMap, republishTimeMap;
      NothingNamed(d);
      assert Past(exp, exp.Keys, now) == {};
      var remaining := expirationTimeMap.Keys;
      if tame { AllTimed(data, expirationTimeMap, republishTimeMap, live); }
      while remaining != {}
        invariant Sound() && remaining <= expirationTimeMap.Keys
        invariant expirationTimeMap == exp - Past(exp, remaining, now)
        invariant republishTimeMap == rep - Past(exp, remaining, now)
        invariant WithoutNamed(d, data, Past(exp, remaining, now))
        invariant tame ==> Valid() && Expiring(was, live, remaining, now)
        decreases remaining
      {
        var keyKD :| keyKD in remaining;
        if tame {
          TimedPair(data, expirationTimeMap, republishTimeMap, live, keyKD);
          ExpiringMeet(was, live, remaining, now, keyKD);
        }
        PastStep(exp, remaining, now, keyKD);
        ghost var gone, e := Past(exp, remaining, now), data;
        remaining := remaining - {keyKD};
        ExpireOne(keyKD, now);
        WithoutNamedStep(d, e, data, gone, if now > exp[keyKD] then {keyKD} else {});
      }
    }

    /** One step of the republish loop. */
    method RepublishOne(keyKD: Text, timeRep: int, now: int) returns (due: bool, key: Text, value: Text)
      requires Sound() && keyKD in republishTimeMap
      modifies this
      ensures Sound() && data == old(data) && expirationTimeMap == old(expirationTimeMap)
      ensures due <==> now > old(republishTimeMap)[keyKD]
      ensures republishTimeMap == if due then old(republishTimeMap)[keyKD := now + timeRep] else old(republishTimeMap)
      ensures old(Valid()) ==>
                Valid() && Decode(keyKD) == (key, value) && (key, value) in old(live)
                && due == (now > old(live)[(key, value)].republish)
                && live == if due
                           then old(live)[(key, value) := old(live)[(key, value)].(republish := now + timeRep)]
                           else old(live)
    {
      hide Refines, Free, Ascending, Key, FreePair, Split;
      ghost var tame, p := Valid(), Decode(keyKD);
      if tame { TimedPair(data, expirationTimeMap, republishTimeMap, live, keyKD); }
      TwoParts(keyKD);
      var aux := Split(keyKD, SEP);
      key, value := aux[0], aux[1];
      due := now > republishTimeMap[keyKD];
      if due {
        if tame {
          var times := live[p].(republish := now + timeRep);
          Retime(data, expirationTimeMap, republishTimeMap, live, p, times);
          assert expirationTimeMap[keyKD := times.expire] == expirationTimeMap;
          live := live[p := times];
        }
        republishTimeMap := republishTimeMap[keyKD := now + timeRep];
      }
    }

    /** Lists every pair whose republish time is past once, and sets its republish time anew. */
    method GetKeyValuesToRepublish(timeRep: int, now: int) returns (keys: seq<Text>, values: seq<Text>)
      requires Sound()
      modifies this
      ensures Sound() && |keys| == |values|
      ensures data == old(data) && expirationTimeMap == old(expirationTimeMap)
      ensures republishTimeMap == Renewed(old(republishTimeMap), now, timeRep, {})
      ensures republishTimeMap.Keys == old(republishTimeMap).Keys
      ensures forall s :: s in republishTimeMap ==>
                var time := old(republishTimeMap)[s];
                republishTimeMap[s] == if now > time then now + timeRep else time
      ensures old(Valid()) ==> Valid() && live == Republished(old(live), now, timeRep, {})
      ensures old(Valid()) ==> NoDuplicates(Zip(keys, values))
      ensures old(Valid()) ==> forall p :: p in Zip(keys, values) <==> p in old(live) && now > old(live)[p].republish
    {
      hide Refines, Free, Ascending, Key, FreePair, Decode, Zip, Renewed, Listed, NoDuplicates;
      ghost var was, tame := live, Valid();
      ghost var rep := republishTimeMap;
      RenewedNothing(rep, now, timeRep);
      keys, values := [], [];
      ZipAdd([], [], [], []);
      var remaining := republishTimeMap.Keys;
      if tame {
        AllTimed(data, expirationTimeMap, republishTimeMap, live);
        NothingRepublished(was, now, timeRep, remaining);
        ListedNothing(was, now, remaining);
      }
      while remaining != {}
        invariant Sound() && remaining <= republishTimeMap.Keys && |keys| == |values|
        invariant data == old(data) && expirationTimeMap == old(expirationTimeMap)
        invariant republishTimeMap == Renewed(rep, now, timeRep, remaining)
        invariant tame ==> Valid() && live == Republished(was, now, timeRep, remaining)
        invariant tame ==> Listed(was, now, remaining, Zip(keys, values))
        decreases remaining
      {
        var keyKD :| keyKD in remaining;
        if tame {
          TimedPair(data, expirationTimeMap, republishTimeMap, live, keyKD);
          AllTimed(data, expirationTimeMap, republishTimeMap, live);
          RepublishStep(was, now, timeRep, remaining, Decode(keyKD));
          ListedStep(was, now, remaining, Zip(keys, values), Decode(keyKD));
        }
        RenewedStep(rep, now, timeRep, remaining, keyKD);
        remaining := remaining - {keyKD};
        var due, key, value := RepublishOne(keyKD, timeRep, now);
        if due {
          ZipAdd(keys, values, key, value);
          keys := keys + [key];
          values := values + [value];
        }
      }
      if tame { ListedAll(was, now, Zip(keys, values)); }
      RenewedAll(rep, now, timeRep);
    }
  }
}
