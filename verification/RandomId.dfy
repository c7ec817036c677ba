/**
 * getRandomIDFromBucket (routingTable.go): the ID it builds from given random outcomes, and exactly when that
 * ID lies in the bucket it was asked for.
 */
module RandomId {
  import opened Bytes
  import opened Numbers
  import opened Metric

  /** The byte and the bit at which an ID of bucket b first differs from self. */
  function ByteIndex(b: nat): nat
    requires b < B
  {
    (B - 1 - b) / 8
  }

  function BitIndex(b: nat): nat
    requires b < B
  {
    (B - 1 - b) % 8
  }

  // ---- one byte ----

  lemma AddMask(y: Byte, m: Byte)
    requires m == 0x80 || m == 0x40 || m == 0x20 || m == 0x10 || m == 0x08 || m == 0x04 || m == 0x02 || m == 0x01
    requires y & m == 0
    ensures y + m == y | m
  {
  }

  /** Adding the mask of a bit that is not set sets that bit and no other: nothing is carried. */
  lemma AddBit(y: Byte, i: nat, m: nat)
    requires i < 8 && m < 8 && !BitAt(y, i)
    ensures BitAt(y + Mask(i), m) == (m == i || BitAt(y, m))
  {
    var k := Mask(i);
    assert k == 0x80 || k == 0x40 || k == 0x20 || k == 0x10 || k == 0x08 || k == 0x04 || k == 0x02 || k == 0x01;
    AddMask(y, k);
    OrMask(y, i, m);
  }

  /** The test of line 211: & and << bind alike in Go, so it shifts x & 1. */
  predicate LineTest(x: Byte, firstDif: int)
    requires -1 <= firstDif < 8
  {
    (x & 1) << (7 - firstDif) == 0
  }

  lemma LineTestsLowBit(x: Byte, firstDif: int)
    requires -1 <= firstDif < 8
    ensures LineTest(x, firstDif) <==> firstDif == -1 || !BitAt(x, 7)
  {
    if firstDif == -1 {} else if firstDif == 0 {} else if firstDif == 1 {} else if firstDif == 2 {}
    else if firstDif == 3 {} else if firstDif == 4 {} else if firstDif == 5 {} else if firstDif == 6 {} else {}
  }

  /** The test that was meant: the bit to flip is not set. For firstDif -1 its mask is shifted out of the byte. */
  predicate MeantTest(x: Byte, firstDif: int)
    requires -1 <= firstDif < 8
  {
    x & (if firstDif == -1 then 0 else Mask(firstDif)) == 0
  }

  lemma MeantTestsBit(x: Byte, firstDif: int)
    requires -1 <= firstDif < 8
    ensures MeantTest(x, firstDif) <==> firstDif == -1 || !BitAt(x, firstDif)
  {
    hide Mask;
  }

  /** The source's firstDif. */
  lemma FirstDifIs(b: nat)
    requires b < B
    ensures (B - b) % 8 - 1 == if b % 8 == 0 then -1 else BitIndex(b)
    ensures b % 8 == 0 ==> BitIndex(b) == 7
  {
  }

  /** uint8 addition, and the bit of x at position i in place. */
  function Plus(y: Byte, z: Byte): Byte {
    y + z
  }

  function Masked(x: Byte, i: nat): Byte
    requires i < 8
  {
    x & Mask(i)
  }

  function MaskIf(c: bool, i: nat): Byte
    requires i < 8
  {
    if c then Mask(i) else 0
  }

  lemma MaskedBit(x: Byte, i: nat)
    requires i < 8
    ensures Masked(x, i) == MaskIf(BitAt(x, i), i)
  {
  }

  /** No bit from position i on is set. */
  ghost predicate ClearFrom(y: Byte, i: nat) {
    forall m: nat | i <= m < 8 :: !BitAt(y, m)
  }

  // ---- the ID ----

  /** What the loops leave in bit m of that byte; x is the byte of self, flip the test's outcome. */
  predicate DrawnBit(x: Byte, b: nat, coins: seq<bool>, flip: bool, m: nat)
    requires b < B && |coins| == 8 && m < 8
  {
    if b % 8 == 0 || m > BitIndex(b) then coins[m]
    else if m < BitIndex(b) then BitAt(x, m)
    else flip
  }

  /** The first differing byte: bits of self, then the bit the test asks for, then random bits. */
  method DrawByte(x: Byte, b: nat, coins: seq<bool>, flip: bool) returns (firstDifByte: Byte)
    requires b < B && |coins| == 8
    ensures forall m: nat | m < 8 :: BitAt(firstDifByte, m) == DrawnBit(x, b, coins, flip, m)
  {
    hide BitAt, Mask, Plus, MaskIf, Masked, BitIndex;
    var firstDif := (B - b) % 8 - 1;
    FirstDifIs(b);
    firstDifByte := 0;
    NoBitsInZero();
    for i := 0 to Max(firstDif, 0)
      invariant forall m: nat | m < i :: BitAt(firstDifByte, m) == BitAt(x, m)
      invariant ClearFrom(firstDifByte, i)
    {
      AddDrawn(firstDifByte, i, BitAt(x, i));
      MaskedBit(x, i);
      firstDifByte := Plus(firstDifByte, Masked(x, i));
    }
    if firstDif >= 0 { AddDrawn(firstDifByte, firstDif, flip); }
    if flip && firstDif >= 0 {
      firstDifByte := Plus(firstDifByte, MaskIf(true, firstDif));
    }
    if !flip { AddNothing(firstDifByte); }
    for i := firstDif + 1 to 8
      invariant forall m: nat | m < i :: BitAt(firstDifByte, m) == DrawnBit(x, b, coins, flip, m)
      invariant ClearFrom(firstDifByte, i)
    {
      AddDrawn(firstDifByte, i, coins[i]);
      firstDifByte := Plus(firstDifByte, MaskIf(coins[i], i));
    }
  }

  lemma AddNothing(y: Byte)
    ensures forall i: nat | i < 8 :: Plus(y, MaskIf(false, i)) == y
  {
  }

  /** newID shares the bytes of self before the differing one, has the drawn byte, and ends in the random bytes. */
  ghost predicate Drawn(self: NodeId, b: nat, coins: seq<bool>, tail: NodeId, flip: bool, newID: NodeId)
    requires b < B && |coins| == 8
  {
    newID[..ByteIndex(b)] == self[..ByteIndex(b)]
    && (forall m: nat | m < 8 :: BitAt(newID[ByteIndex(b)], m) == DrawnBit(self[ByteIndex(b)], b, coins, flip, m))
    && newID[ByteIndex(b) + 1..] == tail[ByteIndex(b) + 1..]
  }

  /**
   * The outcomes of the random draws are inputs: coins[i] is the bit drawn for position i of the first differing byte,
   * tail[i] the byte drawn for position i of the ID.
   */
  method BuildID(self: NodeId, b: nat, coins: seq<bool>, tail: NodeId, flip: bool) returns (newID: NodeId)
    requires b < B && |coins| == 8
    ensures Drawn(self, b, coins, tail, flip, newID)
  {
    hide BitAt, DrawnBit;
    var equalsBytes := (B - b + 7) / 8 - 1;
    var id: seq<Byte> := [];
    for i := 0 to equalsBytes
      invariant id == self[..i]
    {
      id := id + [self[i]];
    }
    var firstDifByte := DrawByte(self[equalsBytes], b, coins, flip);
    id := id + [firstDifByte];
    for i := equalsBytes + 1 to ID_LENGTH
      invariant id == self[..equalsBytes] + [firstDifByte] + tail[equalsBytes + 1..i]
    {
      id := id + [tail[i]];
    }
    newID := id;
  }

  /** The ID the source builds: whether the bit is set in it depends on the low bit of the byte of self. */
  method GetRandomIDFromBucket(self: NodeId, b: nat, coins: seq<bool>, tail: NodeId) returns (newID: NodeId)
    requires b < B && |coins| == 8
    ensures Drawn(self, b, coins, tail, !BitAt(self[ByteIndex(b)], 7), newID)
    ensures BucketIndex(self, newID) == b <==> Lands(self[ByteIndex(b)], b, coins)
  {
    hide BitAt, BucketIndex, LineTest;
    var x, firstDif := self[ByteIndex(b)], (B - b) % 8 - 1;
    LineTestsLowBit(x, firstDif);
    newID := BuildID(self, b, coins, tail, LineTest(x, firstDif));
    RandomIdLands(self, b, coins, tail, newID);
  }

  /** The ID it builds with the test that was meant: it lands unless b is a multiple of 8, where the coins decide. */
  method GetRandomIDCorrected(self: NodeId, b: nat, coins: seq<bool>, tail: NodeId) returns (newID: NodeId)
    requires b < B && |coins| == 8
    ensures Drawn(self, b, coins, tail, !BitAt(self[ByteIndex(b)], BitIndex(b)), newID)
    ensures BucketIndex(self, newID) == b <==> b % 8 != 0 || CoinsLand(self[ByteIndex(b)], b, coins)
  {
    hide BitAt, BucketIndex, MeantTest;
    var x, firstDif := self[ByteIndex(b)], (B - b) % 8 - 1;
    MeantTestsBit(x, firstDif);
    newID := BuildID(self, b, coins, tail, MeantTest(x, firstDif));
    DrawnIdLands(self, b, coins, tail, !BitAt(x, BitIndex(b)), newID);
  }

  lemma NoBitsInZero()
    ensures ClearFrom(0, 0)
  {
  }

  /** One step of the loops: bit i is drawn, the bits before it stay, the bits after it stay clear. */
  lemma AddDrawn(y: Byte, i: nat, drawn: bool)
    requires i < 8 && ClearFrom(y, i)
    ensures var z := Plus(y, MaskIf(drawn, i));
            BitAt(z, i) == drawn && ClearFrom(z, i + 1) && forall m: nat | m < i :: BitAt(z, m) == BitAt(y, m)
  {
    hide BitAt, Mask;
    var z := Plus(y, MaskIf(drawn, i));
    if drawn {
      assert z == y + Mask(i);
      AddBit(y, i, i);
      forall m: nat | i + 1 <= m < 8 ensures !BitAt(z, m) { AddBit(y, i, m); }
      forall m: nat | m < i ensures BitAt(z, m) == BitAt(y, m) { AddBit(y, i, m); }
    } else {
      assert z == y;
    }
  }

  // ---- where it lands ----

  lemma {:induction false} PrefixZeroBelow(x: seq<Byte>, i: nat, p: nat)
    requires i < |x| && p <= 8 && Number(x[..i]) == 0
    requires forall m: nat | m < p :: !BitAt(x[i], m)
    ensures Number(x) < Pow2(8 * (|x| - i) - p)
  {
    hide BitAt, Pow2;
    var n := |x| - 1;
    var init, last := x[..n], x[n];
    assert Number(x) == PushBits(Number(init), last, 8);
    if i == n {
      PushZeroBits(last, p);
      ClearPrefixBelow(last, p, 8);
    } else {
      assert init[..i] == x[..i];
      PrefixZeroBelow(init, i, p);
      PushBitsBelow(Number(init), 8 * (n - i) - p, last, 8);
    }
  }

  lemma {:induction false} ClearPrefixBelow(x: Byte, p: nat, n: nat)
    requires p <= n <= 8 && PushBits(0, x, p) == 0
    ensures PushBits(0, x, n) < Pow2(n - p)
  {
    if p < n { ClearPrefixBelow(x, p, n - 1); }
  }

  /** The bytes of newID before byte i are those of self, and so are the bits of byte i before bit p. */
  ghost predicate SharesPrefix(self: NodeId, newID: NodeId, i: nat, p: nat)
    requires i < ID_LENGTH && p <= 8
  {
    newID[..i] == self[..i] && forall m: nat | m < p :: BitAt(newID[i], m) == BitAt(self[i], m)
  }

  lemma SharedZeros(self: NodeId, newID: NodeId, i: nat, p: nat)
    requires i < ID_LENGTH && p <= 8 && SharesPrefix(self, newID, i, p)
    ensures var x := XorBytes(newID, self);
            (forall m :: 0 <= m < i ==> x[m] == 0) && forall m: nat | m < p :: !BitAt(x[i], m)
  {
    hide BitAt;
    var x := XorBytes(newID, self);
    forall m | 0 <= m < i ensures x[m] == 0 {
      assert newID[..i][m] == self[..i][m];
      XorItself(self[m]);
    }
    forall m: nat | m < p ensures !BitAt(x[i], m) { XorBit(newID[i], self[i], m); }
  }

  lemma XorItself(x: Byte)
    ensures x ^ x == 0
  {
  }

  /** An ID that shares the prefix and differs in the next bit is in the bucket of that bit. */
  lemma FlippedBitLands(self: NodeId, newID: NodeId, i: nat, p: nat)
    requires i < ID_LENGTH && p < 8 && SharesPrefix(self, newID, i, p) && BitAt(newID[i], p) != BitAt(self[i], p)
    ensures BucketIndex(self, newID) == B - 1 - 8 * i - p
  {
    hide BitAt;
    var x := XorBytes(newID, self);
    SharedZeros(self, newID, i, p);
    XorBit(newID[i], self[i], p);
    FirstSetBit(x, i, p);
    DistanceOfBytes(newID, self);
    Log2Unique(Number(x), B - 1 - 8 * i - p);
  }

  /** One that shares that bit too is in a lower bucket. */
  lemma SharedBitMisses(self: NodeId, newID: NodeId, i: nat, p: nat)
    requires i < ID_LENGTH && p < 8 && SharesPrefix(self, newID, i, p + 1)
    ensures BucketIndex(self, newID) < B - 1 - 8 * i - p || BucketIndex(self, newID) == 0
  {
    hide BitAt, Number, Pow2, SharesPrefix;
    var x := XorBytes(newID, self);
    SharedZeros(self, newID, i, p + 1);
    LeadingZeros(x[..i]);
    PrefixZeroBelow(x, i, p + 1);
    DistanceOfBytes(newID, self);
    LogBelow(Number(x), B - 1 - 8 * i - p);
  }

  lemma LogBelow(d: nat, k: nat)
    requires d < Pow2(k)
    ensures d > 0 ==> Log2(d) < k
  {
    hide Log2, Pow2;
    if d > 0 {
      Log2Bounds(d);
      if Log2(d) >= k { Pow2Monotone(k, Log2(d)); }
    }
  }

  /**
   * When b is a multiple of 8 the test adds nothing and all eight bits of the byte are drawn at random: they must be
   * those of self but for the last, and all of them for bucket 0, where the own ID is.
   */
  predicate CoinsLand(x: Byte, b: nat, coins: seq<bool>)
    requires b < B && |coins| == 8
  {
    (forall m: nat | m < 7 :: coins[m] == BitAt(x, m)) && (b == 0 || coins[7] != BitAt(x, 7))
  }

  /**
   * When the source puts the ID into bucket b: line 211 tests the low bit of the byte instead of the bit to flip, so
   * the two must agree.
   */
  predicate Lands(x: Byte, b: nat, coins: seq<bool>)
    requires b < B && |coins| == 8
  {
    if b % 8 != 0 then BitAt(x, BitIndex(b)) == BitAt(x, 7) else CoinsLand(x, b, coins)
  }

  /** For every self, bucket, random outcome and test: where the new ID lies. */
  lemma DrawnIdLands(self: NodeId, b: nat, coins: seq<bool>, tail: NodeId, flip: bool, newID: NodeId)
    requires b < B && |coins| == 8 && Drawn(self, b, coins, tail, flip, newID)
    ensures BucketIndex(self, newID) == b <==>
            if b % 8 != 0 then flip != BitAt(self[ByteIndex(b)], BitIndex(b))
            else CoinsLand(self[ByteIndex(b)], b, coins)
  {
    hide BitAt, BucketIndex;
    var i, p, x, y := ByteIndex(b), BitIndex(b), self[ByteIndex(b)], newID[ByteIndex(b)];
    assert b == B - 1 - 8 * i - p;
    if q: nat :| q < p && BitAt(y, q) != BitAt(x, q) {
      var j := FirstDifference(x, y, q);
      FlippedBitLands(self, newID, i, j);
      assert j < p;
    } else if BitAt(y, p) != BitAt(x, p) {
      FlippedBitLands(self, newID, i, p);
      assert DrawnBit(x, b, coins, flip, p) != BitAt(x, p);
    } else {
      SharedBitMisses(self, newID, i, p);
      assert DrawnBit(x, b, coins, flip, p) == BitAt(x, p);
      if b == 0 { BucketOfShared(self, newID, i); }
    }
  }

  /** For every self, bucket and random outcome: the ID of the source lies in bucket b if and only if Lands. */
  lemma RandomIdLands(self: NodeId, b: nat, coins: seq<bool>, tail: NodeId, newID: NodeId)
    requires b < B && |coins| == 8 && Drawn(self, b, coins, tail, !BitAt(self[ByteIndex(b)], 7), newID)
    ensures BucketIndex(self, newID) == b <==> Lands(self[ByteIndex(b)], b, coins)
  {
    hide BitAt, BucketIndex, Drawn;
    DrawnIdLands(self, b, coins, tail, !BitAt(self[ByteIndex(b)], 7), newID);
  }

  lemma FirstDifference(x: Byte, y: Byte, q: nat) returns (j: nat)
    requires q < 8 && BitAt(y, q) != BitAt(x, q)
    ensures j <= q && BitAt(y, j) != BitAt(x, j) && forall m: nat | m < j :: BitAt(y, m) == BitAt(x, m)
  {
    hide BitAt;
    j := 0;
    while BitAt(y, j) == BitAt(x, j)
      invariant j <= q && forall m: nat | m < j :: BitAt(y, m) == BitAt(x, m)
      decreases q - j
    {
      j := j + 1;
    }
  }

  /** Sharing all 160 bits leaves bucket 0, the one the source puts its own ID into. */
  lemma BucketOfShared(self: NodeId, newID: NodeId, i: nat)
    requires i == ID_LENGTH - 1 && SharesPrefix(self, newID, i, 8)
    ensures BucketIndex(self, newID) == 0
  {
    SharedBitMisses(self, newID, i, 7);
  }

  /** The intended claim fails: an owner and a bucket the ID never lands in, whatever is drawn. */
  lemma RandomIdMisses(coins: seq<bool>, tail: NodeId, newID: NodeId)
    requires |coins| == 8
    requires var self: NodeId := seq(ID_LENGTH, _ => 1);
             Drawn(self, B - 1, coins, tail, !BitAt(self[0], 7), newID)
    ensures BucketIndex(seq(ID_LENGTH, _ => 1), newID) != B - 1
  {
    hide Drawn, BucketIndex;
    var self: NodeId := seq(ID_LENGTH, _ => 1);
    assert ByteIndex(B - 1) == 0 && BitIndex(B - 1) == 0;
    assert !BitAt(1, 0) && BitAt(1, 7);
    RandomIdLands(self, B - 1, coins, tail, newID);
  }
}
