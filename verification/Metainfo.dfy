/** Piece slots (torrent.go) and the hashes of a .torrent file (torrent_files.go). */
module Metainfo {
  import opened Bytes
  import opened Numbers
  import opened Outcomes

  const HASH_LENGTH := 20
  const PIECE_LENGTH := 256

  type Digest = s: seq<Byte> | |s| == HASH_LENGTH witness seq(HASH_LENGTH, _ => 0)

  /** SHA-1, of which nothing is assumed here. */
  type Hash = seq<Byte> -> Digest

  // ---- slots ----

  /** pieceLength of Torrent: how many bytes piece index has; negative for pieces past the end. */
  function PieceLength(pieceLength: int, length: int, index: int): int {
    if (index + 1) * pieceLength > length then length - index * pieceLength else pieceLength
  }

  predicate InFile(pieceLength: int, length: int, index: int) {
    index >= 0 && pieceLength >= 0 && PieceLength(pieceLength, length, index) >= 0
  }

  function SlotStart(pieceLength: int, index: int): int {
    index * pieceLength
  }

  function SlotEnd(pieceLength: int, length: int, index: int): int {
    SlotStart(pieceLength, index) + PieceLength(pieceLength, length, index)
  }

  /** Slots lie inside the file and end where the next one starts, or with the file. */
  lemma SlotBounds(pieceLength: int, length: int, index: int)
    requires InFile(pieceLength, length, index) && length >= 0
    ensures 0 <= SlotStart(pieceLength, index) <= SlotEnd(pieceLength, length, index) <= length
    ensures SlotEnd(pieceLength, length, index) == Min(SlotStart(pieceLength, index + 1), length)
  {
    assert (index + 1) * pieceLength == index * pieceLength + pieceLength;
    NatProduct(index, pieceLength);
  }

  lemma NatProduct(a: nat, b: nat)
    ensures a * b >= 0
  {
  }

  lemma ProductMonotone(a: int, b: int, c: nat)
    requires a <= b
    ensures a * c <= b * c
  {
    NatProduct(b - a, c);
    assert b * c == a * c + (b - a) * c;
  }

  /** Different slots do not overlap. */
  lemma SlotsDisjoint(pieceLength: int, length: int, i: int, j: int)
    requires InFile(pieceLength, length, i) && InFile(pieceLength, length, j) && length >= 0 && i < j
    ensures SlotEnd(pieceLength, length, i) <= SlotStart(pieceLength, j)
  {
    SlotBounds(pieceLength, length, i);
    ProductMonotone(i + 1, j, pieceLength);
  }

  function Slot(s: seq<Byte>, pieceLength: int, index: int): seq<Byte>
    requires InFile(pieceLength, |s|, index)
  {
    SlotBounds(pieceLength, |s|, index);
    s[SlotStart(pieceLength, index)..SlotEnd(pieceLength, |s|, index)]
  }

  /** The number of hashes BuildTorrentFile writes: whole pieces only, but at least one. */
  function PieceCount(pieceLength: int, length: int): int
    requires pieceLength > 0 && length >= 0
  {
    if length / pieceLength == 0 then 1 else length / pieceLength
  }

  lemma CountedInFile(pieceLength: int, length: int, index: int)
    requires pieceLength > 0 && length >= 0 && 0 <= index < PieceCount(pieceLength, length)
    ensures InFile(pieceLength, length, index)
    ensures index < length / pieceLength ==>
              SlotEnd(pieceLength, length, index) == SlotStart(pieceLength, index + 1) <= length
    ensures length / pieceLength == 0 ==>
              SlotStart(pieceLength, index) == 0 && SlotEnd(pieceLength, length, index) == length
  {
    var q := length / pieceLength;
    assert q * pieceLength <= length < q * pieceLength + pieceLength;
    if index < q { ProductMonotone(index + 1, q, pieceLength); }
  }

  /** The slots of the hashed pieces cover the file up to the last whole piece, or all of a short file. */
  lemma Coverage(pieceLength: int, length: int)
    requires pieceLength > 0 && length >= 0
    ensures var n := PieceCount(pieceLength, length);
            InFile(pieceLength, length, n - 1) && SlotEnd(pieceLength, length, n - 1) == Min(n * pieceLength, length)
    ensures Min(PieceCount(pieceLength, length) * pieceLength, length)
            == if length < pieceLength then length else length - length % pieceLength
    ensures length < pieceLength ==> PieceCount(pieceLength, length) == 1
    ensures length >= pieceLength ==> PieceCount(pieceLength, length) * pieceLength == length - length % pieceLength
  {
    var n := PieceCount(pieceLength, length);
    CountedInFile(pieceLength, length, n - 1);
    SlotBounds(pieceLength, length, n - 1);
    WholePieces(pieceLength, length);
  }

  lemma WholePieces(pieceLength: int, length: int)
    requires pieceLength > 0 && length >= 0
    ensures (length / pieceLength) * pieceLength == length - length % pieceLength
    ensures length / pieceLength == 0 <==> length < pieceLength
  {
    var q := length / pieceLength;
    assert length == q * pieceLength + length % pieceLength;
    if q >= 1 { ProductMonotone(1, q, pieceLength); }
    if q == 0 { assert q * pieceLength == 0; }
  }

  // ---- hashes of the file ----

  /** The hashes of the first n slots, one after another. */
  function SlotHashes(file: seq<Byte>, pieceLength: int, n: nat, hash: Hash): (r: seq<Byte>)
    requires forall i :: 0 <= i < n ==> InFile(pieceLength, |file|, i)
    ensures |r| == HASH_LENGTH * n
  {
    if n == 0 then []
    else SlotHashes(file, pieceLength, n - 1, hash) + hash(Slot(file, pieceLength, n - 1))
  }

  /** The hashing loop of BuildTorrentFile writes the hash of exactly the slot that pieceLength gives each piece. */
  method BuildPieces(buf: seq<Byte>, hash: Hash) returns (piecesHash: seq<Byte>)
    ensures forall i :: 0 <= i < PieceCount(PIECE_LENGTH, |buf|) ==> InFile(PIECE_LENGTH, |buf|, i)
    ensures piecesHash == SlotHashes(buf, PIECE_LENGTH, PieceCount(PIECE_LENGTH, |buf|), hash)
    ensures |piecesHash| == 20 * if |buf| < 256 then 1 else |buf| / 256
    ensures |buf| < 256 ==> piecesHash == hash(buf)
    ensures |buf| >= 256 ==>
              forall i :: 0 <= i < |buf| / 256 ==> HashAt(piecesHash, i) == hash(buf[256 * i..256 * (i + 1)])
  {
    hide SlotHashes, Slot, InFile, HashAt;
    WrittenHashes(buf, hash);
    NoHashes(buf, PIECE_LENGTH, hash);
    var length := |buf|;
    piecesHash := [];
    if length / PIECE_LENGTH == 0 {
      assert buf[0..] == buf;
      return hash(buf[0..]);
    }
    for i := 0 to length / PIECE_LENGTH
      invariant forall k :: 0 <= k < i ==> InFile(PIECE_LENGTH, |buf|, k)
      invariant piecesHash == SlotHashes(buf, PIECE_LENGTH, i, hash)
    {
      var begin := i * PIECE_LENGTH;
      var end := (i + 1) * PIECE_LENGTH;
      if end > |buf| {
        end := |buf|;
      }
      SlotWritten(buf, i);
      LastHash(buf, PIECE_LENGTH, i + 1, hash);
      piecesHash := piecesHash + hash(buf[begin..end]);
    }
  }

  /** Hash i of a string of hashes. */
  function HashAt(pieces: seq<Byte>, i: nat): Digest
    requires HASH_LENGTH * (i + 1) <= |pieces|
  {
    pieces[HASH_LENGTH * i..HASH_LENGTH * (i + 1)]
  }

  lemma NoHashes(file: seq<Byte>, pieceLength: int, hash: Hash)
    ensures SlotHashes(file, pieceLength, 0, hash) == []
  {
  }

  lemma LastHash(file: seq<Byte>, pieceLength: int, n: nat, hash: Hash)
    requires n > 0 && forall k :: 0 <= k < n ==> InFile(pieceLength, |file|, k)
    ensures SlotHashes(file, pieceLength, n, hash)
            == SlotHashes(file, pieceLength, n - 1, hash) + hash(Slot(file, pieceLength, n - 1))
  {
    hide Slot, InFile;
  }

  /** The slot of piece i of a file of at least 256 bytes, and the one slot of a shorter file. */
  lemma SlotWritten(buf: seq<Byte>, i: nat)
    requires i < PieceCount(PIECE_LENGTH, |buf|)
    ensures InFile(PIECE_LENGTH, |buf|, i)
    ensures |buf| < 256 ==> i == 0 && Slot(buf, PIECE_LENGTH, i) == buf
    ensures |buf| >= 256 ==>
              i < |buf| / 256 && 256 * (i + 1) <= |buf|
              && Slot(buf, PIECE_LENGTH, i) == buf[256 * i..256 * (i + 1)]
  {
    CountedInFile(PIECE_LENGTH, |buf|, i);
  }

  /** The hashes written out, without slots. */
  lemma WrittenHashes(buf: seq<Byte>, hash: Hash)
    ensures forall i :: 0 <= i < PieceCount(PIECE_LENGTH, |buf|) ==> InFile(PIECE_LENGTH, |buf|, i)
    ensures var r := SlotHashes(buf, PIECE_LENGTH, PieceCount(PIECE_LENGTH, |buf|), hash);
            |r| == (20 * if |buf| < 256 then 1 else |buf| / 256)
            && (|buf| < 256 ==> r == hash(buf))
            && (|buf| >= 256 ==>
                  forall i :: 0 <= i < |buf| / 256 ==> HashAt(r, i) == hash(buf[256 * i..256 * (i + 1)]))
  {
    hide SlotHashes, Slot, InFile, HashAt;
    var n := PieceCount(PIECE_LENGTH, |buf|);
    forall i | 0 <= i < n ensures InFile(PIECE_LENGTH, |buf|, i) { SlotWritten(buf, i); }
    if |buf| < 256 {
      NoHashes(buf, PIECE_LENGTH, hash);
      LastHash(buf, PIECE_LENGTH, 1, hash);
      SlotWritten(buf, 0);
      NothingBefore(hash(buf));
    } else {
      forall i | 0 <= i < n
        ensures HashAt(SlotHashes(buf, PIECE_LENGTH, n, hash), i) == hash(buf[256 * i..256 * (i + 1)])
      {
        SlotHashAt(buf, PIECE_LENGTH, n, hash, i);
        SlotWritten(buf, i);
      }
    }
  }

  lemma NothingBefore(s: seq<Byte>)
    ensures [] + s == s
  {
  }

  /** A string whose length is no multiple of 20 is rejected. */
  method SplitPiecesHash(pieces: seq<Byte>) returns (r: Parsed<seq<Digest>>)
    ensures r == Error <==> |pieces| % HASH_LENGTH != 0
    ensures r.Ok? ==> |r.value| * HASH_LENGTH == |pieces|
                      && forall i :: 0 <= i < |r.value| ==> r.value[i] == HashAt(pieces, i)
  {
    if |pieces| % HASH_LENGTH != 0 { return Error; }
    var numHashes := |pieces| / HASH_LENGTH;
    var hashes: seq<Digest> := [];
    for i := 0 to numHashes
      invariant |hashes| == i && forall k :: 0 <= k < i ==> hashes[k] == HashAt(pieces, k)
    {
      hashes := hashes + [pieces[i * HASH_LENGTH..(i + 1) * HASH_LENGTH]];
    }
    return Ok(hashes);
  }

  /** Hash i that the loop wrote is the hash of slot i. */
  lemma {:induction false} SlotHashAt(file: seq<Byte>, pieceLength: int, n: nat, hash: Hash, i: nat)
    requires i < n && forall k :: 0 <= k < n ==> InFile(pieceLength, |file|, k)
    ensures HashAt(SlotHashes(file, pieceLength, n, hash), i) == hash(Slot(file, pieceLength, i))
  {
    hide Slot, InFile;
    var init, r := SlotHashes(file, pieceLength, n - 1, hash), SlotHashes(file, pieceLength, n, hash);
    if i < n - 1 {
      SlotHashAt(file, pieceLength, n - 1, hash, i);
      assert r[..|init|] == init;
      assert HashAt(r, i) == HashAt(init, i);
    } else {
      assert HashAt(r, i) == r[|init|..];
    }
  }

  /** Buffers of one length that agree on the first n slots agree up to the end of the last of them. */
  lemma {:induction false} SlotsDetermine(a: seq<Byte>, b: seq<Byte>, pieceLength: int, n: nat)
    requires |a| == |b| && n > 0 && forall k :: 0 <= k < n ==> InFile(pieceLength, |a|, k)
    requires forall k :: 0 <= k < n ==> Slot(a, pieceLength, k) == Slot(b, pieceLength, k)
    ensures 0 <= SlotEnd(pieceLength, |a|, n - 1) <= |a|
    ensures a[..SlotEnd(pieceLength, |a|, n - 1)] == b[..SlotEnd(pieceLength, |a|, n - 1)]
  {
    var start, end := SlotStart(pieceLength, n - 1), SlotEnd(pieceLength, |a|, n - 1);
    SlotBounds(pieceLength, |a|, n - 1);
    if n > 1 {
      SlotsDetermine(a, b, pieceLength, n - 1);
      SlotBounds(pieceLength, |a|, n - 2);
    }
    assert a[..end] == a[..start] + Slot(a, pieceLength, n - 1);
    assert b[..end] == b[..start] + Slot(b, pieceLength, n - 1);
  }

  /** Nothing of the same length but the slot itself has the hash of a slot of the file. */
  ghost predicate Unforgeable(hash: Hash, file: seq<Byte>, pieceLength: int)
    requires pieceLength > 0
  {
    forall i, x {:trigger hash(x), InFile(pieceLength, |file|, i)} ::
      0 <= i < PieceCount(pieceLength, |file|) && InFile(pieceLength, |file|, i)
      && |x| == PieceLength(pieceLength, |file|, i) && hash(x) == hash(Slot(file, pieceLength, i)) ==>
        x == Slot(file, pieceLength, i)
  }

  lemma SlotLength(s: seq<Byte>, pieceLength: int, index: int)
    requires InFile(pieceLength, |s|, index)
    ensures |Slot(s, pieceLength, index)| == PieceLength(pieceLength, |s|, index)
  {
  }

  /** A slot with the hash of a slot of the file is that slot. */
  lemma HashDetermines(file: seq<Byte>, buf: seq<Byte>, pieceLength: int, hash: Hash, i: int)
    requires pieceLength > 0 && |buf| == |file| && Unforgeable(hash, file, pieceLength)
    requires 0 <= i < PieceCount(pieceLength, |file|) && InFile(pieceLength, |file|, i)
    requires hash(Slot(buf, pieceLength, i)) == hash(Slot(file, pieceLength, i))
    ensures Slot(file, pieceLength, i) == Slot(buf, pieceLength, i)
  {
    hide Slot, InFile, PieceCount, PieceLength;
    SlotLength(buf, pieceLength, i);
    var x := Slot(buf, pieceLength, i);
    assert hash(x) == hash(Slot(file, pieceLength, i));
  }

  /** A buffer whose slots have the hashes of the file then holds the covered part of the file. */
  lemma HashesDetermine(file: seq<Byte>, buf: seq<Byte>, pieceLength: int, hash: Hash)
    requires pieceLength > 0 && |buf| == |file| && Unforgeable(hash, file, pieceLength)
    requires forall i :: 0 <= i < PieceCount(pieceLength, |file|) ==> InFile(pieceLength, |file|, i)
    requires forall i :: 0 <= i < PieceCount(pieceLength, |file|) ==>
                           hash(Slot(buf, pieceLength, i)) == hash(Slot(file, pieceLength, i))
    ensures var covered := if |file| < pieceLength then |file| else |file| - |file| % pieceLength;
            0 <= covered <= |file| && buf[..covered] == file[..covered]
  {
    hide Slot, InFile, Unforgeable, SlotEnd, SlotStart;
    Coverage(pieceLength, |file|);
    var n := PieceCount(pieceLength, |file|);
    forall i | 0 <= i < n ensures Slot(file, pieceLength, i) == Slot(buf, pieceLength, i) {
      HashDetermines(file, buf, pieceLength, hash, i);
    }
    SlotsDetermine(file, buf, pieceLength, n);
  }
}
