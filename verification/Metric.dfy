/** The XOR metric on node IDs (node.go), read as natural numbers, and its logarithm. */
module Metric {
  import opened Bytes

  const ID_LENGTH := 20
  const B := 160

  type NodeId = s: seq<Byte> | |s| == ID_LENGTH witness seq(ID_LENGTH, _ => 0)

  /** big.Int Xor on non-negative integers. */
  function Xor(a: nat, b: nat): nat {
    if a == 0 && b == 0 then 0 else 2 * Xor(a / 2, b / 2) + (if a % 2 != b % 2 then 1 else 0)
  }

  function Distance(id1: seq<Byte>, id2: seq<Byte>): nat {
    Xor(Number(id1), Number(id2))
  }

  // ---- XOR on natural numbers ----

  lemma {:induction false} XorSymmetric(a: nat, b: nat)
    ensures Xor(a, b) == Xor(b, a)
  {
    if a != 0 || b != 0 { XorSymmetric(a / 2, b / 2); }
  }

  lemma {:induction false} XorZero(a: nat, b: nat)
    ensures Xor(a, b) == 0 <==> a == b
  {
    if a != 0 || b != 0 { XorZero(a / 2, b / 2); }
  }

  /** The middle number cancels. */
  lemma {:induction false} XorCancel(a: nat, b: nat, c: nat)
    ensures Xor(Xor(a, b), Xor(b, c)) == Xor(a, c)
  {
    if a != 0 || b != 0 || c != 0 {
      XorCancel(a / 2, b / 2, c / 2);
      assert Xor(a, b) / 2 == Xor(a / 2, b / 2) && Xor(b, c) / 2 == Xor(b / 2, c / 2);
    }
  }

  lemma {:induction false} XorAtMostSum(a: nat, b: nat)
    ensures Xor(a, b) <= a + b
  {
    if a != 0 || b != 0 { XorAtMostSum(a / 2, b / 2); }
  }

  lemma {:induction false} XorWithZero(a: nat)
    ensures Xor(a, 0) == a
  {
    if a != 0 { XorWithZero(a / 2); }
  }

  // ---- the metric laws ----

  lemma DistanceSymmetric(a: seq<Byte>, b: seq<Byte>)
    ensures Distance(a, b) == Distance(b, a)
  {
    XorSymmetric(Number(a), Number(b));
  }

  lemma DistanceZero(a: NodeId, b: NodeId)
    ensures Distance(a, b) == 0 <==> a == b
  {
    XorZero(Number(a), Number(b));
    NumberInjective(a, b);
  }

  lemma TriangleInequality(a: seq<Byte>, b: seq<Byte>, c: seq<Byte>)
    ensures Distance(a, c) <= Distance(a, b) + Distance(b, c)
  {
    XorCancel(Number(a), Number(b), Number(c));
    XorAtMostSum(Distance(a, b), Distance(b, c));
  }

  /** Seen from one comparator, different IDs lie at different distances. */
  lemma DistanceInjective(a: NodeId, b: NodeId, target: NodeId)
    requires Distance(a, target) == Distance(b, target)
    ensures a == b
  {
    XorCancel(Number(a), Number(target), Number(b));
    DistanceSymmetric(target, b);
    XorZero(Distance(a, target), Distance(target, b));
    DistanceZero(a, b);
  }

  // ---- logarithms ----

  /** The position of the highest set bit; 0 for 0, as the source's fall-through return. */
  function Log2(d: nat): nat {
    if d <= 1 then 0 else 1 + Log2(d / 2)
  }

  lemma {:induction false} Log2Bounds(d: nat)
    requires d > 0
    ensures Pow2(Log2(d)) <= d < Pow2(Log2(d) + 1)
  {
    if d > 1 { Log2Bounds(d / 2); }
  }

  lemma {:induction false} Pow2Monotone(j: nat, k: nat)
    requires j <= k
    ensures Pow2(j) <= Pow2(k)
  {
    if j < k { Pow2Monotone(j, k - 1); }
  }

  lemma Log2Unique(d: nat, k: nat)
    requires Pow2(k) <= d < Pow2(k + 1)
    ensures Log2(d) == k
  {
    Log2Bounds(d);
    if Log2(d) < k { Pow2Monotone(Log2(d) + 1, k); }
    if Log2(d) > k { Pow2Monotone(k + 1, Log2(d)); }
  }

  /** Equal highest bits cancel. */
  lemma {:induction false} XorSameLog(x: nat, y: nat)
    requires x > 0 && y > 0 && Log2(x) == Log2(y)
    ensures Xor(x, y) < Pow2(Log2(x))
  {
    if x > 1 {
      XorSameLog(x / 2, y / 2);
    } else {
      XorZero(x, y);
    }
  }

  /** A higher bit survives. */
  lemma {:induction false} XorDifferentLog(x: nat, y: nat)
    requires y > 0 && (x == 0 || Log2(x) < Log2(y))
    ensures Xor(x, y) > 0 && Log2(Xor(x, y)) == Log2(y)
  {
    if x == 0 {
      XorSymmetric(0, y);
      XorWithZero(y);
    } else {
      XorDifferentLog(x / 2, y / 2);
      assert Xor(x, y) / 2 == Xor(x / 2, y / 2);
    }
  }

  // ---- bytes and numbers ----

  function XorBytes(s: seq<Byte>, t: seq<Byte>): seq<Byte>
    requires |s| == |t|
  {
    seq(|s|, i requires 0 <= i < |s| => s[i] ^ t[i])
  }

  lemma XorPush(p: nat, q: nat, x: bool, y: bool)
    ensures Xor(Push(p, x), Push(q, y)) == Push(Xor(p, q), x != y)
  {
    var a, b := Push(p, x), Push(q, y);
    assert a / 2 == p && b / 2 == q;
    assert a % 2 == Digit(x) && b % 2 == Digit(y);
  }

  lemma {:induction false} XorPushBits(p: nat, q: nat, x: Byte, y: Byte, n: nat)
    requires n <= 8
    ensures Xor(PushBits(p, x, n), PushBits(q, y, n)) == PushBits(Xor(p, q), x ^ y, n)
  {
    if n > 0 {
      XorPushBits(p, q, x, y, n - 1);
      XorPush(PushBits(p, x, n - 1), PushBits(q, y, n - 1), BitAt(x, n - 1), BitAt(y, n - 1));
      XorBit(x, y, n - 1);
    }
  }

  /** The distance of two IDs is the number written by the bytes XORed one by one. */
  lemma {:induction false} DistanceOfBytes(s: seq<Byte>, t: seq<Byte>)
    requires |s| == |t|
    ensures Distance(s, t) == Number(XorBytes(s, t))
  {
    if s != [] {
      var n := |s| - 1;
      DistanceOfBytes(s[..n], t[..n]);
      var x := XorBytes(s, t);
      assert x[..n] == XorBytes(s[..n], t[..n]);
      assert Number(x) == PushBits(Number(x[..n]), x[n], 8);
      assert Number(s) == PushBits(Number(s[..n]), s[n], 8);
      assert Number(t) == PushBits(Number(t[..n]), t[n], 8);
      XorPushBits(Number(s[..n]), Number(t[..n]), s[n], t[n], 8);
    }
  }

  // ---- the highest set bit of a byte string ----

  /** After a first set bit at position j, n more bits put the number into one binade. */
  lemma {:induction false} PushLog(p: nat, x: Byte, k: nat, j: nat, n: nat)
    requires j <= n <= 8 && Pow2(k) <= PushBits(p, x, j) < Pow2(k + 1)
    ensures Pow2(k + n - j) <= PushBits(p, x, n) < Pow2(k + 1 + n - j)
  {
    if j < n {
      PushLog(p, x, k, j, n - 1);
      assert Pow2(k + n - j) == 2 * Pow2(k + (n - 1) - j);
      assert Pow2(k + 1 + n - j) == 2 * Pow2(k + 1 + (n - 1) - j);
    }
  }

  /** A whole byte at the low end moves a number up by eight binades. */
  lemma PushByteLog(p: nat, x: Byte, k: nat)
    requires Pow2(k) <= p < Pow2(k + 1)
    ensures Pow2(k + 8) <= PushBits(p, x, 8) < Pow2(k + 9)
  {
    PushLog(p, x, k, 0, 8);
  }

  lemma FirstSetBitOfByte(x: Byte, j: nat)
    requires j < 8 && BitAt(x, j) && forall m: nat | m < j :: !BitAt(x, m)
    ensures Pow2(7 - j) <= PushBits(0, x, 8) < Pow2(8 - j)
  {
    PushZeroBits(x, j);
    assert PushBits(0, x, j + 1) == Push(PushBits(0, x, j), true) == 1;
    PushLog(0, x, 0, j + 1, 8);
  }

  /** The first set bit of a byte string fixes the binade of its number. */
  lemma {:induction false} FirstSetBit(x: seq<Byte>, i: nat, j: nat)
    requires i < |x| && j < 8 && BitAt(x[i], j)
    requires forall m :: 0 <= m < i ==> x[m] == 0
    requires forall m: nat | m < j :: !BitAt(x[i], m)
    ensures Pow2(8 * (|x| - i) - j - 1) <= Number(x) < Pow2(8 * (|x| - i) - j)
  {
    hide BitAt, Pow2, Number, PushBits;
    var n := |x| - 1;
    var init, last := x[..n], x[n];
    NumberLast(x);
    if i == n {
      LeadingZeros(init);
      FirstSetBitOfByte(last, j);
    } else {
      FirstSetBit(init, i, j);
      PushByteLog(Number(init), last, 8 * (n - i) - j - 1);
    }
  }

  /** The bucket of id in the table of the node self: floor of the logarithm of the distance. */
  function BucketIndex(self: NodeId, id: NodeId): (k: nat)
  {
    Log2(Distance(id, self))
  }

  lemma BucketInRange(self: NodeId, id: NodeId)
    ensures BucketIndex(self, id) < B
  {
    var d := Distance(id, self);
    DistanceOfBytes(id, self);
    NumberBelow(XorBytes(id, self));
    if d > 0 {
      Log2Bounds(d);
      if Log2(d) >= B { Pow2Monotone(B, Log2(d)); }
    }
  }

  /** For an ID other than self the bucket is the binade of the distance, and no other number is. */
  lemma BucketIndexIsLog(self: NodeId, id: NodeId, k: nat)
    requires id != self
    ensures BucketIndex(self, id) == k <==> Pow2(k) <= Distance(id, self) < Pow2(k + 1)
  {
    var d := Distance(id, self);
    DistanceZero(id, self);
    Log2Bounds(d);
    if Pow2(k) <= d < Pow2(k + 1) { Log2Unique(d, k); }
  }

  // ---- buckets and distances ----

  /** Two IDs in one bucket of self agree on the bit that separates them from self. */
  lemma SameBucketCloser(self: NodeId, id: NodeId, target: NodeId)
    requires id != self && target != self && BucketIndex(self, id) == BucketIndex(self, target)
    ensures Distance(id, target) < Pow2(BucketIndex(self, target)) <= Distance(self, target)
  {
    var x, y := Distance(id, self), Distance(target, self);
    DistanceZero(id, self);
    DistanceZero(target, self);
    XorSameLog(x, y);
    DistanceSymmetric(target, self);
    XorCancel(Number(id), Number(self), Number(target));
    Log2Bounds(y);
  }

  /** Outside the target's bucket nothing is nearer than that bucket's width. */
  lemma OtherBucketFar(self: NodeId, id: NodeId, target: NodeId)
    requires target != self && (id == self || BucketIndex(self, id) != BucketIndex(self, target))
    ensures Distance(id, target) >= Pow2(BucketIndex(self, target))
  {
    var x, y := Distance(id, self), Distance(target, self);
    DistanceZero(id, self);
    DistanceZero(target, self);
    DistanceSymmetric(target, self);
    XorCancel(Number(id), Number(self), Number(target));
    var d := Xor(x, y);
    if x == 0 || Log2(x) < Log2(y) {
      XorDifferentLog(x, y);
    } else {
      XorDifferentLog(y, x);
      XorSymmetric(x, y);
      Pow2Monotone(Log2(y), Log2(x));
    }
    Log2Bounds(d);
  }
}
