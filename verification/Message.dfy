/** Peer messages and bitfields (message.go). */
module Messages {
  import opened Bytes
  import opened Outcomes

  const KEEPALIVE: Byte := 0
  const CHOKE: Byte := 1
  const UNCHOKE: Byte := 2
  const INTERESTED: Byte := 3
  const NOTINTERESTED: Byte := 4
  const HAVE: Byte := 5
  const BITFIELD: Byte := 6
  const PIECE: Byte := 7
  const CANCEL: Byte := 8
  const REQUEST: Byte := 9

  const MAX_REQUEST := 16

  datatype Message = Message(id: Byte, payload: seq<Byte>)

  // ---- framing ----

  /**
   * The length and the size of the buffer are 32-bit numbers. A size that wraps below 5 panics, a length that
   * wraps cuts the payload. None is the nil message, sent as a keep-alive.
   */
  function Serialize(m: Option<Message>): Decoded<seq<Byte>> {
    match m
    case None => Value([0, 0, 0, 0])
    case Some(msg) =>
      var length := (|msg.payload| + 1) % WORD;
      var size := (4 + length) % WORD;
      if size < 5 then Panic
      else Value(PutWord(length) + [msg.id] + msg.payload[..size - 5])
  }

  /** What one read from a connection brings; the connection ends after the bytes of the stream. */
  datatype Read = EndOfStream | Frame(message: Option<Message>, rest: seq<Byte>)

  function Deserialize(stream: seq<Byte>): Read {
    if |stream| < 4 then EndOfStream
    else
      var length := Number(stream[..4]);
      if length == 0 then Frame(None, stream[4..])
      else if |stream| < 4 + length then EndOfStream
      else Frame(Some(Message(stream[4], stream[5..4 + length])), stream[4 + length..])
  }

  predicate Fits(m: Option<Message>) {
    m.None? || |m.value.payload| + 5 < WORD
  }

  /** A frame is read back whole. */
  lemma FrameWhole(length: nat, id: Byte, p: seq<Byte>, rest: seq<Byte>)
    requires 0 < length < WORD && |p| == length - 1
    ensures Deserialize(PutWord(length) + [id] + p + rest) == Frame(Some(Message(id, p)), rest)
  {
    hide PutWord, Number;
    WordRoundTrip(length);
    var s := PutWord(length) + [id] + p + rest;
    assert s[..4] == PutWord(length);
    assert s[4] == id && s[5..4 + length] == p && s[4 + length..] == rest;
  }

  /** A length that has wrapped cuts the payload, whatever is read. */
  lemma FrameCut(msg: Message, rest: seq<Byte>)
    requires !Fits(Some(msg)) && Serialize(Some(msg)).Value?
    ensures Deserialize(Serialize(Some(msg)).value + rest) != Frame(Some(msg), rest)
  {
    hide PutWord, Number;
    var length := (|msg.payload| + 1) % WORD;
    var size := (4 + length) % WORD;
    WordRoundTrip(length);
    var s := Serialize(Some(msg)).value + rest;
    assert s[..4] == PutWord(length);
    if 0 < length && 4 + length <= |s| { assert |s[5..4 + length]| < |msg.payload|; }
  }

  lemma FrameNil(rest: seq<Byte>)
    ensures Deserialize(Serialize(None).value + rest) == Frame(None, rest)
  {
    LeadingZeros([0, 0, 0, 0]);
    var s: seq<Byte> := [0, 0, 0, 0] + rest;
    assert s[..4] == [0, 0, 0, 0] && s[4..] == rest;
  }

  /** A message is read back as it was written, whatever follows it, exactly when it fits. */
  lemma FrameRoundTrip(m: Option<Message>, rest: seq<Byte>)
    ensures Fits(m) <==>
            Serialize(m).Value? && Deserialize(Serialize(m).value + rest) == Frame(m, rest)
  {
    hide PutWord, Deserialize;
    match m {
      case None => FrameNil(rest);
      case Some(msg) =>
        if Fits(m) {
          FrameWhole(|msg.payload| + 1, msg.id, msg.payload, rest);
          assert msg.payload[..|msg.payload|] == msg.payload;
        } else if Serialize(m).Value? {
          FrameCut(msg, rest);
        }
    }
  }

  /** Everything written to a connection, message after message. */
  function SerializeAll(ms: seq<Option<Message>>): seq<Byte>
    requires forall m :: m in ms ==> Fits(m)
  {
    if ms == [] then []
    else
      FrameRoundTrip(ms[0], []);
      Serialize(ms[0]).value + SerializeAll(ms[1..])
  }

  /** Reading until the stream ends: the messages, and the bytes nobody could read. */
  function DeserializeAll(stream: seq<Byte>): (seq<Option<Message>>, seq<Byte>)
    decreases |stream|
  {
    match Deserialize(stream)
    case EndOfStream => ([], stream)
    case Frame(m, rest) =>
      var r := DeserializeAll(rest);
      ([m] + r.0, r.1)
  }

  /** Repeated reading gives back the messages that were written and uses up every byte. */
  lemma {:induction false} StreamRoundTrip(ms: seq<Option<Message>>)
    requires forall m :: m in ms ==> Fits(m)
    ensures DeserializeAll(SerializeAll(ms)) == (ms, [])
  {
    hide Serialize, Deserialize;
    if ms == [] {
      EndOfNothing();
    } else {
      FrameRoundTrip(ms[0], SerializeAll(ms[1..]));
      StreamRoundTrip(ms[1..]);
      assert ms == [ms[0]] + ms[1..];
    }
  }

  lemma EndOfNothing()
    ensures Deserialize([]) == EndOfStream
  {
  }

  // ---- building and parsing ----

  function BuildHaveMessage(index: int): Message {
    Message(HAVE, PutWord(index))
  }

  function BuildRequestMessage(index: int, begin: int, length: int): Message {
    Message(REQUEST, PutWord(index) + PutWord(begin) + PutWord(length))
  }

  function ParseHave(m: Message): Parsed<nat> {
    if m.id != HAVE || |m.payload| != 4 then Error else Ok(Number(m.payload))
  }

  function ParseRequest(m: Message): Parsed<(nat, nat, nat)> {
    if m.id != REQUEST || |m.payload| < 12 then Error
    else
      var length := Number(m.payload[8..12]);
      if length > MAX_REQUEST then Error
      else Ok((Number(m.payload[0..4]), Number(m.payload[4..8]), length))
  }

  lemma HaveRoundTrip(index: int)
    ensures ParseHave(BuildHaveMessage(index)) == Ok(index % WORD)
  {
    WordRoundTrip(index);
  }

  /** A request parses to its three numbers cut to 32 bits, unless it asks for more than 16 bytes. */
  lemma RequestRoundTrip(index: int, begin: int, length: int)
    ensures ParseRequest(BuildRequestMessage(index, begin, length))
            == if length % WORD > MAX_REQUEST then Error else Ok((index % WORD, begin % WORD, length % WORD))
  {
    hide PutWord, Number;
    var a, b, c := PutWord(index), PutWord(begin), PutWord(length);
    var p := a + b + c;
    assert p[0..4] == a && p[4..8] == b && p[8..12] == c;
    WordRoundTrip(index);
    WordRoundTrip(begin);
    WordRoundTrip(length);
  }

  /** The message an uploader answers a request with. */
  function BuildPieceMessage(index: int, begin: int, data: seq<Byte>): Message {
    Message(PIECE, PutWord(index) + PutWord(begin) + data)
  }

  /** copy(buf[at:], data) for data that fits. */
  function Overwrite(buf: seq<Byte>, at: nat, data: seq<Byte>): (r: seq<Byte>)
    requires at + |data| <= |buf|
    ensures |r| == |buf|
    ensures forall j :: 0 <= j < |buf| ==> r[j] == if at <= j < at + |data| then data[j - at] else buf[j]
  {
    buf[..at] + data + buf[at + |data|..]
  }

  /** Where ParsePiece puts which bytes of a piece message. */
  function PieceData(index: int, size: nat, m: Message): (r: Parsed<(nat, seq<Byte>)>)
    ensures r.Ok? ==> r.value.0 < size && r.value.0 + |r.value.1| <= size
  {
    if m.id != PIECE || |m.payload| < 8 || Number(m.payload[0..4]) != index then Error
    else
      var begin, data := Number(m.payload[4..8]), m.payload[8..];
      if begin >= size || begin + |data| > size then Error else Ok((begin, data))
  }

  /** The data of a piece message goes to its place in the buffer; a rejected message leaves the buffer alone. */
  method ParsePiece(index: int, buf: array<Byte>, m: Message) returns (r: Parsed<nat>)
    modifies buf
    ensures match PieceData(index, buf.Length, m)
            case Error => r == Error && buf[..] == old(buf[..])
            case Ok(place) => r == Ok(|place.1|) && buf[..] == Overwrite(old(buf[..]), place.0, place.1)
  {
    hide Number;
    if m.id != PIECE || |m.payload| < 8 { return Error; }
    var parsedIndex := Number(m.payload[0..4]);
    if parsedIndex != index { return Error; }
    var parsedBegin := Number(m.payload[4..8]);
    if parsedBegin >= buf.Length { return Error; }
    var data := m.payload[8..];
    if parsedBegin + |data| > buf.Length { return Error; }
    forall k | 0 <= k < |data| { buf[parsedBegin + k] := data[k]; }
    return Ok(|data|);
  }

  lemma PieceRoundTrip(index: nat, begin: nat, data: seq<Byte>, size: nat)
    requires index < WORD && begin < size <= WORD && begin + |data| <= size
    ensures PieceData(index, size, BuildPieceMessage(index, begin, data)) == Ok((begin, data))
  {
    hide PutWord, Number;
    var a, b := PutWord(index), PutWord(begin);
    var p := a + b + data;
    assert p[0..4] == a && p[4..8] == b && p[8..] == data;
    WordRoundTrip(index);
    WordRoundTrip(begin);
  }

  /** The bytes of the three messages with numbers in them: big-endian words one after another, then the data. */
  lemma Layouts(index: nat, begin: nat, length: nat, data: seq<Byte>)
    requires index < WORD && begin < WORD && length < WORD
    ensures var p := BuildHaveMessage(index).payload; |p| == 4 && Number(p) == index
    ensures var p := BuildRequestMessage(index, begin, length).payload;
            |p| == 12 && Number(p[..4]) == index && Number(p[4..8]) == begin && Number(p[8..]) == length
    ensures var p := BuildPieceMessage(index, begin, data).payload;
            |p| == 8 + |data| && Number(p[..4]) == index && Number(p[4..8]) == begin && p[8..] == data
    ensures BuildHaveMessage(index).id == 5 && BuildRequestMessage(index, begin, length).id == 9
            && BuildPieceMessage(index, begin, data).id == 7
  {
    hide PutWord, Number;
    var a, b, c := PutWord(index), PutWord(begin), PutWord(length);
    WordRoundTrip(index);
    WordRoundTrip(begin);
    WordRoundTrip(length);
    assert (a + b + c)[..4] == a && (a + b + c)[4..8] == b && (a + b + c)[8..] == c;
    assert (a + b + data)[..4] == a && (a + b + data)[4..8] == b && (a + b + data)[8..] == data;
  }

  /** Exactly the have messages that were built for an index are parsed to it. */
  lemma ParseHaveExactly(m: Message, index: nat)
    ensures ParseHave(m) == Ok(index) <==> index < WORD && m == BuildHaveMessage(index)
  {
    hide PutWord, Number;
    if |m.payload| == 4 { WordOfBytes(m.payload); }
    WordRoundTrip(index);
  }

  /** Exactly the messages that begin as a request for at most 16 bytes was built are parsed to its numbers. */
  lemma ParseRequestExactly(m: Message, index: nat, begin: nat, length: nat)
    ensures ParseRequest(m) == Ok((index, begin, length)) <==>
            m.id == REQUEST && index < WORD && begin < WORD && length <= 16
            && BuildRequestMessage(index, begin, length).payload <= m.payload
  {
    hide PutWord, Number;
    var a, b, c, p := PutWord(index), PutWord(begin), PutWord(length), m.payload;
    WordRoundTrip(index);
    WordRoundTrip(begin);
    WordRoundTrip(length);
    if |p| >= 12 {
      WordOfBytes(p[0..4]);
      WordOfBytes(p[4..8]);
      WordOfBytes(p[8..12]);
      assert p[..12] == p[0..4] + p[4..8] + p[8..12];
      if a + b + c <= p {
        assert p[..12] == a + b + c;
        assert p[0..4] == a && p[4..8] == b && p[8..12] == c;
      }
    }
  }

  /** Exactly the piece messages built for this index and for data inside the buffer are accepted. */
  lemma PieceDataExactly(index: int, size: nat, m: Message, begin: nat, data: seq<Byte>)
    ensures PieceData(index, size, m) == Ok((begin, data)) <==>
            0 <= index < WORD && begin < WORD && begin < size && begin + |data| <= size
            && m == BuildPieceMessage(index, begin, data)
  {
    hide PutWord, Number;
    var a, b, p := PutWord(index), PutWord(begin), m.payload;
    WordRoundTrip(index);
    WordRoundTrip(begin);
    if |p| >= 8 {
      WordOfBytes(p[0..4]);
      WordOfBytes(p[4..8]);
      assert p == p[0..4] + p[4..8] + p[8..];
      if p == a + b + data { assert p[0..4] == a && p[4..8] == b && p[8..] == data; }
    }
  }

  // ---- bitfields ----

  /** Panics when the bitfield has no byte for the index. */
  function HasPiece(bf: seq<Byte>, index: nat): Decoded<bool> {
    var byteIndex, offset := index / 8, index % 8;
    if byteIndex >= |bf| then Panic else Value((bf[byteIndex] >> (7 - offset)) & 1 != 0)
  }

  lemma HasPieceBit(bf: seq<Byte>, index: nat)
    ensures HasPiece(bf, index) == if index / 8 >= |bf| then Panic else Value(BitAt(bf[index / 8], index % 8))
  {
    if index / 8 < |bf| { ShiftedBit(bf[index / 8], index % 8); }
  }

  lemma ShiftedBit(b: Byte, j: nat)
    requires j < 8
    ensures ((b >> (7 - j)) & 1 != 0) == BitAt(b, j)
  {
    if j == 0 {} else if j == 1 {} else if j == 2 {} else if j == 3 {}
    else if j == 4 {} else if j == 5 {} else if j == 6 {} else {}
  }

  /** Exactly the bit of index turns on; an index past the end is ignored. */
  method SetPiece(bf: array<Byte>, index: nat)
    modifies bf
    ensures forall i: nat :: HasPiece(bf[..], i)
              == if i == index && i / 8 < bf.Length then Value(true) else HasPiece(old(bf[..]), i)
  {
    hide BitAt, HasPiece, Mask;
    var byteIndex, offset := index / 8, index % 8;
    ghost var was := bf[..];
    if byteIndex < bf.Length {
      bf[byteIndex] := bf[byteIndex] | Mask(offset);
    }
    forall i: nat
      ensures HasPiece(bf[..], i) == if i == index && i / 8 < bf.Length then Value(true) else HasPiece(was, i)
    {
      HasPieceBit(was, i);
      HasPieceBit(bf[..], i);
      if i / 8 == byteIndex < bf.Length { OrMask(was[byteIndex], offset, i % 8); }
    }
  }
}
