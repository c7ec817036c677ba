/**
 * The transfer of one piece: DownloadPiece (torrent_peer.go) keeps a window of block requests open against an
 * uploader that answers them with HandleRequest (uploader_client.go).
 */
module Transfer {
  import opened Bytes
  import opened Numbers
  import opened Outcomes
  import opened Messages

  const MAX_BLOCKS := 5
  const MAX_BLOCK_SIZE := 16

  // ---- the uploader ----

  /** What is sent back for a request: nothing when it does not parse, a panic when it reaches past the file. */
  function Answer(m: Message, pieceLength: nat, file: seq<Byte>): Decoded<Option<Message>> {
    match ParseRequest(m)
    case Error => Value(None)
    case Ok(request) =>
      var (index, begin, length) := request;
      var start := index * pieceLength + begin;
      if start + length > |file| then Panic
      else Value(Some(BuildPieceMessage(index, begin, file[start..start + length])))
  }

  method HandleRequest(m: Message, pieceLength: nat, file: seq<Byte>) returns (r: Decoded<Option<Message>>)
    ensures r == Answer(m, pieceLength, file)
  {
    hide PutWord, Number;
    match ParseRequest(m) {
      case Error => return Value(None);
      case Ok(request) =>
        var (index, begin, length) := request;
        var start := index * pieceLength + begin;
        if start + length > |file| { return Panic; }
        var piecePayload := new Byte[8 + length];
        var head := PutWord(index) + PutWord(begin);
        forall k | 0 <= k < 8 { piecePayload[k] := head[k]; }
        forall k | 0 <= k < length { piecePayload[8 + k] := file[start + k]; }
        assert piecePayload[..] == head + file[start..start + length];
        return Value(Some(Message(PIECE, piecePayload[..])));
    }
  }

  // ---- blocks ----

  function Total(length: nat): nat {
    (length + MAX_BLOCK_SIZE - 1) / MAX_BLOCK_SIZE
  }

  /** The number of bytes of block k. */
  function BlockSize(length: nat, k: nat): int {
    Min(MAX_BLOCK_SIZE, length - MAX_BLOCK_SIZE * k)
  }

  function BlockData(slot: seq<Byte>, k: nat): seq<Byte>
    requires k < Total(|slot|)
  {
    slot[MAX_BLOCK_SIZE * k..MAX_BLOCK_SIZE * k + BlockSize(|slot|, k)]
  }

  function Request(index: nat, length: nat, k: nat): Message {
    BuildRequestMessage(index, MAX_BLOCK_SIZE * k, BlockSize(length, k))
  }

  /** The requests for the first n blocks, in order: they tile the piece from its start without gap or overlap. */
  function Requests(index: nat, length: nat, n: nat): (r: seq<Message>)
    ensures |r| == n
  {
    seq(n, k requires 0 <= k < n => Request(index, length, k))
  }

  function PieceFor(index: nat, slot: seq<Byte>, k: nat): Message
    requires k < Total(|slot|)
  {
    BuildPieceMessage(index, MAX_BLOCK_SIZE * k, BlockData(slot, k))
  }

  /** The blocks lie end to end: block k ends where block k + 1 begins, and the last ends with the piece. */
  lemma BlocksTile(length: nat, k: nat)
    requires k < Total(length)
    ensures 0 < BlockSize(length, k) <= 16
    ensures 16 * k + BlockSize(length, k) == Min(16 * (k + 1), length)
    ensures k + 1 == Total(length) <==> 16 * k + BlockSize(length, k) == length
  {
  }

  lemma SubSlice(file: seq<Byte>, at: nat, length: nat, i: nat, j: nat)
    requires i <= j <= length && at + length <= |file|
    ensures file[at + i..at + j] == file[at..at + length][i..j]
  {
    var a, b := file[at + i..at + j], file[at..at + length][i..j];
    assert forall m :: 0 <= m < j - i ==> a[m] == file[at + i + m] == b[m];
    assert a == b;
  }

  /**
   * What a request is answered with: nothing when it asks for more than 16 bytes, its bytes of the file when they lie
   * in the file, and otherwise the program stops.
   */
  lemma AnswerTo(index: nat, begin: nat, n: nat, pieceLength: nat, file: seq<Byte>, start: nat)
    requires index < WORD && begin < WORD && n < WORD && start == index * pieceLength + begin
    ensures var answer := Answer(BuildRequestMessage(index, begin, n), pieceLength, file);
            if n > 16 then answer == Value(None)
            else if start + n > |file| then answer == Panic
            else answer == Value(Some(BuildPieceMessage(index, begin, file[start..start + n])))
  {
    hide ParseRequest, BuildRequestMessage, BuildPieceMessage;
    RequestRoundTrip(index, begin, n);
    assert index % WORD == index && begin % WORD == begin && n % WORD == n;
  }

  /** A piece inside the file: every one of its requests parses and is answered with its bytes of the file. */
  lemma RequestAnswered(index: nat, length: nat, k: nat, pieceLength: nat, file: seq<Byte>, at: nat)
    requires index < WORD && length <= WORD && k < Total(length)
    requires at == index * pieceLength && at + length <= |file|
    ensures Answer(Request(index, length, k), pieceLength, file)
            == Value(Some(PieceFor(index, file[at..at + length], k)))
  {
    hide Answer, BuildRequestMessage, BuildPieceMessage;
    BlocksTile(length, k);
    var begin, n := MAX_BLOCK_SIZE * k, BlockSize(length, k);
    SubSlice(file, at, length, begin, begin + n);
    AnswerTo(index, begin, n, pieceLength, file, at + begin);
  }

  // ---- the window ----

  /** The protocol seen from the downloader: choked or not, how many blocks were requested, which came in. */
  datatype Window = Window(choked: bool, sent: nat, answered: set<nat>)

  function Upto(n: nat): (s: set<nat>)
    ensures forall k :: k in s <==> 0 <= k < n
    ensures |s| == n
  {
    if n == 0 then {} else Upto(n - 1) + {n - 1}
  }

  function Outstanding(w: Window): set<nat> {
    Upto(w.sent) - w.answered
  }

  predicate WindowOk(w: Window, length: nat) {
    w.answered <= Upto(w.sent) && w.sent <= Total(length) && w.sent <= |w.answered| + MAX_BLOCKS
  }

  /** Requests go out while unchoked, until the window or the piece is full. */
  function Fill(w: Window, length: nat): Window {
    if w.choked then w
    else
      var most := Min(Total(length), |w.answered| + MAX_BLOCKS);
      w.(sent := if most > w.sent then most else w.sent)
  }

  function BlockOf(m: Message): nat {
    if |m.payload| < 8 then 0 else Number(m.payload[4..8]) / MAX_BLOCK_SIZE
  }

  function Receive(w: Window, m: Option<Message>): Window {
    if m == None then w
    else if m.value.id == CHOKE then w.(choked := true)
    else if m.value.id == UNCHOKE then w.(choked := false)
    else if m.value.id == PIECE then w.(answered := w.answered + {BlockOf(m.value)})
    else w
  }

  /** The window before message i is read, requests sent. */
  function Before(w: Window, length: nat, inbox: seq<Option<Message>>, i: nat): Window
    requires i <= |inbox|
  {
    if i == 0 then Fill(w, length) else Fill(Receive(Before(w, length, inbox, i - 1), inbox[i - 1]), length)
  }

  /** A message an honest uploader may send now: control messages, or the piece of an outstanding request. */
  predicate Serves(w: Window, index: nat, slot: seq<Byte>, m: Option<Message>) {
    m.Some?
    && (m.value.id == HAVE ==> |m.value.payload| == 4)
    && (m.value.id == PIECE ==>
          var k := BlockOf(m.value);
          k in Outstanding(w) && k < Total(|slot|) && m.value == PieceFor(index, slot, k))
  }

  /** Until the piece is complete every message read is one an honest uploader may send at that moment. */
  ghost predicate Honest(w: Window, index: nat, slot: seq<Byte>, inbox: seq<Option<Message>>) {
    forall i :: 0 <= i < |inbox| && Before(w, |slot|, inbox, i).answered != Upto(Total(|slot|)) ==>
                  Serves(Before(w, |slot|, inbox, i), index, slot, inbox[i])
  }

  lemma OutstandingSize(w: Window, length: nat)
    requires WindowOk(w, length)
    ensures |Outstanding(w)| == w.sent - |w.answered|
    ensures |Outstanding(w)| <= 5
  {
    assert Upto(w.sent) == Outstanding(w) + w.answered;
  }

  lemma FillKeeps(w: Window, length: nat)
    requires WindowOk(w, length)
    ensures WindowOk(Fill(w, length), length)
  {
  }

  lemma ReceiveKeeps(w: Window, index: nat, slot: seq<Byte>, m: Option<Message>)
    requires WindowOk(w, |slot|) && Serves(w, index, slot, m)
    ensures WindowOk(Receive(w, m), |slot|)
  {
    hide PieceFor, BlockOf, Total, Upto;
  }

  /** The protocol never gets stuck: unchoked with blocks missing, a request is outstanding. */
  lemma NeverStuck(w: Window, length: nat)
    requires WindowOk(w, length) && !w.choked && w.answered != Upto(Total(length))
    ensures Outstanding(Fill(w, length)) != {}
  {
    var v := Fill(w, length);
    FillKeeps(w, length);
    OutstandingSize(v, length);
    if |w.answered| >= Total(length) { SubsetOfSameSize(w.answered, Total(length)); }
  }

  lemma SubsetOfSameSize(s: set<nat>, n: nat)
    requires s <= Upto(n) && |s| >= n
    ensures s == Upto(n)
  {
    assert Upto(n) == s + (Upto(n) - s);
  }

  /** An honest uploader that answers every request before the connection ends. */
  ghost predicate Delivers(w: Window, index: nat, slot: seq<Byte>, inbox: seq<Option<Message>>) {
    Honest(w, index, slot, inbox) && Before(w, |slot|, inbox, |inbox|).answered == Upto(Total(|slot|))
  }

  function Pieces(index: nat, slot: seq<Byte>): (r: seq<Option<Message>>)
    ensures |r| == Total(|slot|)
  {
    seq(Total(|slot|), k requires 0 <= k < Total(|slot|) => Some(PieceFor(index, slot, k)))
  }

  /** An unchoke and the pieces of all requests, in order. */
  function Service(index: nat, slot: seq<Byte>): (inbox: seq<Option<Message>>)
    ensures |inbox| == Total(|slot|) + 1 && inbox[0] == Some(Message(UNCHOKE, []))
    ensures forall i :: 0 < i < |inbox| ==> inbox[i] == Some(PieceFor(index, slot, i - 1))
  {
    [Some(Message(UNCHOKE, []))] + Pieces(index, slot)
  }

  /** These pieces are what HandleRequest answers to the requests. */
  lemma ServiceAnswers(index: nat, length: nat, k: nat, pieceLength: nat, file: seq<Byte>, at: nat)
    requires index < WORD && length <= WORD && k < Total(length)
    requires at == index * pieceLength && at + length <= |file|
    ensures Answer(Request(index, length, k), pieceLength, file)
            == Value(Service(index, file[at..at + length])[k + 1])
  {
    hide Answer, Request, PieceFor, Total;
    RequestAnswered(index, length, k, pieceLength, file, at);
  }

  lemma PieceNamesBlock(index: nat, slot: seq<Byte>, k: nat)
    requires |slot| <= WORD && k < Total(|slot|)
    ensures BlockOf(PieceFor(index, slot, k)) == k
  {
    hide PutWord, Number;
    var begin := MAX_BLOCK_SIZE * k;
    var a, b := PutWord(index), PutWord(begin);
    assert (a + b + BlockData(slot, k))[4..8] == b;
    WordRoundTrip(begin);
  }

  /** Such an uploader keeps to the protocol and leaves no request unanswered, whatever the piece. */
  lemma ServiceDelivers(choked: bool, index: nat, slot: seq<Byte>)
    requires |slot| <= WORD
    ensures Delivers(Window(choked, 0, {}), index, slot, Service(index, slot))
  {
    hide Service, PieceFor, Outstanding, Before, Total, Serves;
    var w, inbox := Window(choked, 0, {}), Service(index, slot);
    ServiceWindow(choked, index, slot, inbox, |inbox|);
    forall i | 0 <= i < |inbox|
      ensures Serves(Before(w, |slot|, inbox, i), index, slot, inbox[i])
    {
      if i > 0 {
        ServiceWindow(choked, index, slot, inbox, i);
        ServiceNext(index, slot, i - 1);
      } else {
        ServesUnchoke(Before(w, |slot|, inbox, i), index, slot);
      }
    }
  }

  lemma ServesUnchoke(w: Window, index: nat, slot: seq<Byte>)
    ensures Serves(w, index, slot, Some(Message(UNCHOKE, [])))
  {
  }

  lemma ServiceNext(index: nat, slot: seq<Byte>, k: nat)
    requires |slot| <= WORD && k < Total(|slot|)
    ensures Serves(AwaitsBlock(|slot|, k), index, slot, Some(PieceFor(index, slot, k)))
  {
    PieceNamesBlock(index, slot, k);
  }

  /** The window before the piece of block k is read. */
  function AwaitsBlock(length: nat, k: nat): Window {
    Window(false, Min(Total(length), k + MAX_BLOCKS), Upto(k))
  }

  lemma ServiceStep(index: nat, slot: seq<Byte>, k: nat)
    requires |slot| <= WORD && k < Total(|slot|)
    ensures Fill(Receive(AwaitsBlock(|slot|, k), Some(PieceFor(index, slot, k))), |slot|)
            == AwaitsBlock(|slot|, k + 1)
  {
    hide PieceFor, Total, BlockOf, Upto;
    PieceNamesBlock(index, slot, k);
    PieceIsPiece(index, slot, k);
    UptoNext(k);
  }

  lemma UptoNext(k: nat)
    ensures Upto(k + 1) == Upto(k) + {k}
  {
  }

  lemma ServiceStart(choked: bool, length: nat)
    ensures Fill(Receive(Fill(Window(choked, 0, {}), length), Some(Message(UNCHOKE, []))), length)
            == AwaitsBlock(length, 0)
  {
    assert Upto(0) == {};
  }

  lemma {:induction false} ServiceWindow(choked: bool, index: nat, slot: seq<Byte>, inbox: seq<Option<Message>>, i: nat)
    requires |slot| <= WORD && inbox == Service(index, slot) && 0 < i <= |inbox|
    ensures Before(Window(choked, 0, {}), |slot|, inbox, i) == AwaitsBlock(|slot|, i - 1)
  {
    hide PieceFor, Service, Before, Total, BlockOf, Fill, Receive, AwaitsBlock;
    BeforeStep(Window(choked, 0, {}), |slot|, inbox, i - 1);
    if i == 1 {
      ServiceStart(choked, |slot|);
    } else {
      ServiceWindow(choked, index, slot, inbox, i - 1);
      ServiceStep(index, slot, i - 2);
    }
  }

  lemma PieceIsPiece(index: nat, slot: seq<Byte>, k: nat)
    requires k < Total(|slot|)
    ensures PieceFor(index, slot, k).id == PIECE
  {
  }

  // ---- what has arrived ----

  /** The bytes of the blocks of s among the first n. */
  function Arrived(s: set<nat>, length: nat, n: nat): int {
    if n == 0 then 0 else Arrived(s, length, n - 1) + if n - 1 in s then BlockSize(length, n - 1) else 0
  }

  lemma {:induction false} ArrivedAdd(s: set<nat>, k: nat, length: nat, n: nat)
    requires k !in s
    ensures Arrived(s + {k}, length, n) == Arrived(s, length, n) + if k < n then BlockSize(length, k) else 0
  {
    if n > 0 { ArrivedAdd(s, k, length, n - 1); }
  }

  predicate HasAll(s: set<nat>, n: nat) {
    forall k: nat :: k < n ==> k in s
  }

  lemma {:induction false} ArrivedAll(s: set<nat>, length: nat, n: nat)
    requires n <= Total(length)
    ensures 0 <= Arrived(s, length, n) <= Min(MAX_BLOCK_SIZE * n, length)
    ensures Arrived(s, length, n) == Min(MAX_BLOCK_SIZE * n, length) <==> HasAll(s, n)
  {
    if n > 0 {
      ArrivedAll(s, length, n - 1);
      BlocksTile(length, n - 1);
      assert HasAll(s, n) <==> HasAll(s, n - 1) && n - 1 in s;
    }
  }

  lemma NothingArrived(length: nat, n: nat)
    ensures Arrived({}, length, n) == 0
  {
    if n > 0 { NothingArrived(length, n - 1); }
  }

  /** The piece is complete exactly when every byte has arrived. */
  lemma Complete(w: Window, length: nat)
    requires WindowOk(w, length)
    ensures Arrived(w.answered, length, Total(length)) <= length
    ensures Arrived(w.answered, length, Total(length)) == length <==> w.answered == Upto(Total(length))
  {
    ArrivedAll(w.answered, length, Total(length));
    if length > 0 { BlocksTile(length, Total(length) - 1); }
    assert w.answered == Upto(Total(length)) <==> HasAll(w.answered, Total(length));
  }

  /** The buffer holds the bytes of the blocks that came in. */
  predicate Agrees(buf: seq<Byte>, slot: seq<Byte>, answered: set<nat>) {
    |buf| == |slot| && forall j: nat :: j < |buf| && j / MAX_BLOCK_SIZE in answered ==> buf[j] == slot[j]
  }

  lemma AgreesAdd(buf: seq<Byte>, slot: seq<Byte>, answered: set<nat>, k: nat)
    requires Agrees(buf, slot, answered) && k < Total(|slot|)
    ensures MAX_BLOCK_SIZE * k + |BlockData(slot, k)| <= |buf|
    ensures Agrees(Overwrite(buf, MAX_BLOCK_SIZE * k, BlockData(slot, k)), slot, answered + {k})
  {
    BlocksTile(|slot|, k);
    var data := BlockData(slot, k);
    var after := Overwrite(buf, MAX_BLOCK_SIZE * k, data);
    forall j: nat | j < |buf| && j / MAX_BLOCK_SIZE in answered + {k} ensures after[j] == slot[j] {
      if MAX_BLOCK_SIZE * k <= j < MAX_BLOCK_SIZE * k + |data| {
        assert data[j - MAX_BLOCK_SIZE * k] == slot[j];
      } else {
        assert j / MAX_BLOCK_SIZE != k;
      }
    }
  }

  lemma AgreesAll(buf: seq<Byte>, slot: seq<Byte>, w: Window)
    requires Agrees(buf, slot, w.answered) && w.answered == Upto(Total(|slot|))
    ensures buf == slot
  {
    forall j | 0 <= j < |buf| ensures buf[j] == slot[j] { assert j / MAX_BLOCK_SIZE in w.answered; }
  }

  /** An honest piece message is accepted and carries block k. */
  lemma PieceAccepted(w: Window, index: nat, slot: seq<Byte>, m: Message)
    requires index < WORD && |slot| <= WORD && m.id == PIECE && Serves(w, index, slot, Some(m))
    ensures var k := BlockOf(m);
            PieceData(index, |slot|, m) == Ok((MAX_BLOCK_SIZE * k, BlockData(slot, k)))
  {
    hide PieceData, BuildPieceMessage;
    var k := BlockOf(m);
    BlocksTile(|slot|, k);
    PieceRoundTrip(index, MAX_BLOCK_SIZE * k, BlockData(slot, k), |slot|);
  }

  // ---- the downloader ----

  class Client {
    var choked: bool
    var peerInterested: bool
    var bitfield: array<Byte>

    constructor (bf: array<Byte>)
      ensures choked && !peerInterested && bitfield == bf
    {
      choked, peerInterested, bitfield := true, false, bf;
    }
  }

  datatype DownloadResult = Piece(index: nat, piece: seq<Byte>) | ConnectionError | ParseError | Crash

  /** The fields of pieceProgress agree with the window of the protocol. */
  ghost predicate Progress(w: Window, slot: seq<Byte>, requested: int, pendingBlocks: int, downloaded: int,
                           buf: seq<Byte>) {
    WindowOk(w, |slot|)
    && requested == Min(MAX_BLOCK_SIZE * w.sent, |slot|)
    && pendingBlocks == w.sent - |w.answered|
    && downloaded == Arrived(w.answered, |slot|, Total(|slot|))
    && Agrees(buf, slot, w.answered)
  }

  lemma Start(choked: bool, slot: seq<Byte>, buf: seq<Byte>)
    requires |buf| == |slot|
    ensures Progress(Window(choked, 0, {}), slot, 0, 0, 0, buf)
  {
    NothingArrived(|slot|, Total(|slot|));
  }

  /** Sending until the window or the piece is full is what Fill says. */
  lemma FillReached(w: Window, slot: seq<Byte>, requested: int, pendingBlocks: int, downloaded: int, buf: seq<Byte>,
                    n: nat)
    requires Progress(w, slot, requested, pendingBlocks, downloaded, buf) && !w.choked
    requires w.sent <= n <= Total(|slot|) && (n == w.sent || n - |w.answered| <= MAX_BLOCKS)
    requires n - |w.answered| >= MAX_BLOCKS || n == Total(|slot|)
    ensures Fill(w, |slot|) == w.(sent := n)
    ensures Progress(Fill(w, |slot|), slot, Min(MAX_BLOCK_SIZE * n, |slot|), n - |w.answered|, downloaded, buf)
  {
    hide Arrived, Agrees;
    FillKeeps(w, |slot|);
  }

  /** An honest piece message moves the window and the buffer on together. */
  lemma PieceReceived(w: Window, index: nat, slot: seq<Byte>, requested: int, pendingBlocks: int, downloaded: int,
                      buf: seq<Byte>, m: Message)
    requires Progress(w, slot, requested, pendingBlocks, downloaded, buf)
    requires index < WORD && |slot| <= WORD && m.id == PIECE && Serves(w, index, slot, Some(m))
    ensures PieceData(index, |slot|, m).Ok?
    ensures var (begin, data) := PieceData(index, |slot|, m).value;
            begin + |data| <= |buf|
            && Progress(Receive(w, Some(m)), slot, requested, pendingBlocks - 1, downloaded + |data|,
                        Overwrite(buf, begin, data))
  {
    hide PieceData, Agrees, PieceFor, Arrived;
    var k := BlockOf(m);
    PieceAccepted(w, index, slot, m);
    AgreesLength(buf, slot, w.answered);
    AgreesAdd(buf, slot, w.answered, k);
    BlocksTile(|slot|, k);
    ArrivedAdd(w.answered, k, |slot|, Total(|slot|));
    ReceiveKeeps(w, index, slot, Some(m));
  }

  lemma AgreesLength(buf: seq<Byte>, slot: seq<Byte>, answered: set<nat>)
    requires Agrees(buf, slot, answered)
    ensures |buf| == |slot|
  {
  }

  /** A message other than a piece leaves the counters right. */
  lemma ControlReceived(w: Window, slot: seq<Byte>, requested: int, pendingBlocks: int, downloaded: int,
                        buf: seq<Byte>, m: Message)
    requires Progress(w, slot, requested, pendingBlocks, downloaded, buf) && m.id != PIECE
    ensures Progress(Receive(w, Some(m)), slot, requested, pendingBlocks, downloaded, buf)
  {
    hide Agrees, Arrived;
  }

  lemma ProgressFacts(w: Window, slot: seq<Byte>, requested: int, pendingBlocks: int, downloaded: int,
                      buf: seq<Byte>)
    requires Progress(w, slot, requested, pendingBlocks, downloaded, buf)
    ensures pendingBlocks == |Outstanding(w)| <= MAX_BLOCKS
    ensures downloaded < |slot| <==> w.answered != Upto(Total(|slot|))
  {
    hide Agrees, Arrived;
    OutstandingSize(w, |slot|);
    Complete(w, |slot|);
  }

  lemma HonestAt(w: Window, index: nat, slot: seq<Byte>, inbox: seq<Option<Message>>, i: nat)
    requires Honest(w, index, slot, inbox) && i < |inbox|
    requires Before(w, |slot|, inbox, i).answered != Upto(Total(|slot|))
    ensures Serves(Before(w, |slot|, inbox, i), index, slot, inbox[i])
  {
  }

  /** When every byte has come in, the buffer is the slot and every block was asked for. */
  lemma Finished(w: Window, slot: seq<Byte>, requested: int, pendingBlocks: int, downloaded: int, buf: seq<Byte>)
    requires Progress(w, slot, requested, pendingBlocks, downloaded, buf) && downloaded >= |slot|
    ensures buf == slot && w.sent == Total(|slot|)
  {
    hide Arrived;
    Complete(w, |slot|);
    AgreesAll(buf, slot, w);
    if Total(|slot|) > 0 { assert Total(|slot|) - 1 in Upto(w.sent); }
  }

  /** The inner loop: requests for the next blocks, while the connection takes them. */
  method RequestBlocks(index: nat, length: nat, n: nat, pending: int, writes: nat)
      returns (ok: bool, requested: int, pendingBlocks: int, sent: seq<Message>)
    requires n <= Total(length)
    ensures n + |sent| <= Total(length) && requested == Min(MAX_BLOCK_SIZE * (n + |sent|), length)
    ensures Requests(index, length, n) + sent == Requests(index, length, n + |sent|)
    ensures pendingBlocks == pending + |sent| && (|sent| > 0 ==> pendingBlocks <= MAX_BLOCKS)
    ensures ok ==> pendingBlocks >= MAX_BLOCKS || n + |sent| == Total(length)
    ensures !ok ==> |sent| == writes
    ensures |sent| <= writes
  {
    hide BuildRequestMessage;
    sent := [];
    requested := Min(MAX_BLOCK_SIZE * n, length);
    pendingBlocks := pending;
    while pendingBlocks < MAX_BLOCKS && requested < length
      invariant n + |sent| <= Total(length) && requested == Min(MAX_BLOCK_SIZE * (n + |sent|), length)
      invariant forall k :: 0 <= k < |sent| ==> sent[k] == Request(index, length, n + k)
      invariant pendingBlocks == pending + |sent| && (|sent| > 0 ==> pendingBlocks <= MAX_BLOCKS) && |sent| <= writes
      decreases Total(length) - n - |sent|
    {
      var blockSize := MAX_BLOCK_SIZE;
      if length - requested < blockSize {
        blockSize := length - requested;
      }
      if |sent| == writes { return false, requested, pendingBlocks, sent; }
      sent := sent + [BuildRequestMessage(index, requested, blockSize)];
      pendingBlocks := pendingBlocks + 1;
      requested := requested + blockSize;
    }
    ok := true;
  }

  /** The switch over the message that was read: the bytes it brought, or the error it was rejected with. */
  method Accept(c: Client, index: nat, buf: array<Byte>, m: Message) returns (n: Parsed<nat>)
    requires buf != c.bitfield
    modifies c, c.bitfield, buf
    ensures c.bitfield == old(c.bitfield)
    ensures c.choked == if m.id == CHOKE then true else if m.id == UNCHOKE then false else old(c.choked)
    ensures c.peerInterested
            == if m.id == INTERESTED then true else if m.id == NOTINTERESTED then false else old(c.peerInterested)
    ensures forall i: nat :: HasPiece(c.bitfield[..], i)
              == if m.id == HAVE && ParseHave(m) == Ok(i) && i / 8 < c.bitfield.Length then Value(true)
                 else HasPiece(old(c.bitfield[..]), i)
    ensures m.id != PIECE ==> buf[..] == old(buf[..])
                              && n == if m.id == HAVE && ParseHave(m) == Error then Error else Ok(0)
    ensures m.id == PIECE ==>
              match PieceData(index, buf.Length, m)
              case Error => n == Error
              case Ok(place) => n == Ok(|place.1|) && buf[..] == Overwrite(old(buf[..]), place.0, place.1)
  {
    hide PieceData, Overwrite, HasPiece;
    n := Ok(0);
    if m.id == UNCHOKE {
      c.choked := false;
    } else if m.id == CHOKE {
      c.choked := true;
    } else if m.id == INTERESTED {
      c.peerInterested := true;
    } else if m.id == NOTINTERESTED {
      c.peerInterested := false;
    } else if m.id == HAVE {
      match ParseHave(m) {
        case Error => return Error;
        case Ok(have) => SetPiece(c.bitfield, have);
      }
    } else if m.id == PIECE {
      n := ParsePiece(index, buf, m);
    }
  }

  // ---- any messages at all ----

  /** The download does not go on after this message: a keep-alive, or one that does not parse. */
  predicate Rejected(index: int, size: nat, m: Option<Message>) {
    m == None
    || (m.value.id == HAVE && ParseHave(m.value) == Error)
    || (m.value.id == PIECE && PieceData(index, size, m.value) == Error)
  }

  /** The bytes of the first i messages, as they are counted. */
  function Brought(index: int, size: nat, inbox: seq<Option<Message>>, i: nat): nat
    requires i <= |inbox|
  {
    if i == 0 then 0
    else
      var before, m := Brought(index, size, inbox, i - 1), inbox[i - 1];
      if m.Some? && m.value.id == PIECE && PieceData(index, size, m.value).Ok?
      then before + |PieceData(index, size, m.value).value.1|
      else before
  }

  /** The bytes of the first i messages, as they lie in the buffer. */
  function Laid(index: int, size: nat, inbox: seq<Option<Message>>, i: nat): (buf: seq<Byte>)
    requires i <= |inbox|
    ensures |buf| == size
  {
    if i == 0 then seq(size, _ => 0)
    else
      var before, m := Laid(index, size, inbox, i - 1), inbox[i - 1];
      if m.Some? && m.value.id == PIECE && PieceData(index, size, m.value).Ok?
      then
        var (begin, data) := PieceData(index, size, m.value).value;
        Overwrite(before, begin, data)
      else before
  }

  /** The first i messages were all read and taken in, and something is still missing before each of them. */
  ghost predicate Reads(index: int, size: nat, inbox: seq<Option<Message>>, i: nat, downloaded: int, buf: seq<Byte>) {
    i <= |inbox| && downloaded == Brought(index, size, inbox, i) && buf == Laid(index, size, inbox, i)
    && forall j: nat :: j < i ==> Brought(index, size, inbox, j) < size && !Rejected(index, size, inbox[j])
  }

  /** How a download ends that can send all its requests: complete, cut off, or at the first rejected message. */
  ghost predicate Stops(index: nat, size: nat, inbox: seq<Option<Message>>, i: nat, r: DownloadResult) {
    i <= |inbox|
    && (forall j: nat :: j < i ==> Brought(index, size, inbox, j) < size && !Rejected(index, size, inbox[j]))
    && if Brought(index, size, inbox, i) >= size then r == Piece(index, Laid(index, size, inbox, i))
       else if i == |inbox| then r == ConnectionError
       else Rejected(index, size, inbox[i]) && r == if inbox[i] == None then Crash else ParseError
  }

  lemma ReadsNothing(index: int, inbox: seq<Option<Message>>, buf: seq<Byte>)
    requires forall k :: 0 <= k < |buf| ==> buf[k] == 0
    ensures Reads(index, |buf|, inbox, 0, 0, buf)
  {
    assert buf == Laid(index, |buf|, inbox, 0);
  }

  /** What message i adds when it is not rejected. */
  lemma TakenIn(index: int, size: nat, inbox: seq<Option<Message>>, i: nat)
    requires i < |inbox| && !Rejected(index, size, inbox[i])
    ensures var m, count, buf := inbox[i].value, Brought(index, size, inbox, i), Laid(index, size, inbox, i);
            if m.id == PIECE then
              PieceData(index, size, m).Ok?
              && var (begin, data) := PieceData(index, size, m).value;
                 Brought(index, size, inbox, i + 1) == count + |data|
                 && Laid(index, size, inbox, i + 1) == Overwrite(buf, begin, data)
            else Brought(index, size, inbox, i + 1) == count && Laid(index, size, inbox, i + 1) == buf
  {
    hide PieceData, Overwrite, ParseHave;
  }

  /** One more message that is not rejected. */
  lemma ReadsOne(index: int, size: nat, inbox: seq<Option<Message>>, i: nat, downloaded: int, buf: seq<Byte>,
                 downloaded': int, buf': seq<Byte>)
    requires i < |inbox| && Reads(index, size, inbox, i, downloaded, buf) && downloaded < size
    requires !Rejected(index, size, inbox[i]) && |buf| == size
    requires inbox[i].value.id == PIECE ==> PieceData(index, size, inbox[i].value).Ok?
    requires var m := inbox[i].value;
             if m.id == PIECE then
               var (begin, data) := PieceData(index, size, m).value;
               downloaded' == downloaded + |data| && buf' == Overwrite(buf, begin, data)
             else downloaded' == downloaded && buf' == buf
    ensures Reads(index, size, inbox, i + 1, downloaded', buf')
  {
    hide PieceData, Overwrite, Rejected, Brought, Laid;
    TakenIn(index, size, inbox, i);
  }

  lemma ReadsStop(index: nat, size: nat, inbox: seq<Option<Message>>, i: nat, downloaded: int, buf: seq<Byte>,
                  r: DownloadResult)
    requires Reads(index, size, inbox, i, downloaded, buf)
    requires if downloaded >= size then r == Piece(index, buf)
             else if i == |inbox| then r == ConnectionError
             else Rejected(index, size, inbox[i]) && r == if inbox[i] == None then Crash else ParseError
    ensures Stops(index, size, inbox, i, r)
  {
    hide Rejected, Brought, Laid;
  }

  /** Everything known before the message with number i is read, when all messages are honest. */
  ghost predicate Tracks(w0: Window, w: Window, slot: seq<Byte>, inbox: seq<Option<Message>>, i: nat,
                         choked: bool, n: nat, pendingBlocks: int, downloaded: int, buf: seq<Byte>)
  {
    i <= |inbox| && choked == w.choked && n == w.sent && Fill(w, |slot|) == Before(w0, |slot|, inbox, i)
    && Progress(w, slot, Min(MAX_BLOCK_SIZE * n, |slot|), pendingBlocks, downloaded, buf)
  }

  /** The window counted exactly the outstanding requests each time a message was awaited. */
  ghost predicate Counted(w0: Window, length: nat, inbox: seq<Option<Message>>, pending: seq<int>) {
    |pending| <= |inbox| + 1
    && forall j :: 0 <= j < |pending| ==> pending[j] == |Outstanding(Before(w0, length, inbox, j))| <= MAX_BLOCKS
  }

  /** Everything known when a message is awaited: the window counts what is outstanding and nothing is stuck. */
  ghost predicate Awaiting(w0: Window, v: Window, slot: seq<Byte>, inbox: seq<Option<Message>>, i: nat, choked: bool,
                           n: nat, pendingBlocks: int, downloaded: int, buf: seq<Byte>)
  {
    i <= |inbox| && v == Before(w0, |slot|, inbox, i) && v.sent == n && v.choked == choked
    && Progress(v, slot, Min(MAX_BLOCK_SIZE * n, |slot|), pendingBlocks, downloaded, buf)
    && pendingBlocks == |Outstanding(v)| <= MAX_BLOCKS && v.answered != Upto(Total(|slot|))
    && (v.choked || Outstanding(v) != {})
  }

  /** The requests of a round are out: what is awaited now, and that the download is not stuck. */
  lemma TracksFill(w0: Window, w: Window, slot: seq<Byte>, inbox: seq<Option<Message>>, i: nat, choked: bool,
                   n: nat, pendingBlocks: int, downloaded: int, buf: seq<Byte>, more: nat)
    requires Tracks(w0, w, slot, inbox, i, choked, n, pendingBlocks, downloaded, buf) && downloaded < |slot|
    requires choked ==> more == 0
    requires n + more <= Total(|slot|)
    requires !choked ==> pendingBlocks + more >= MAX_BLOCKS || n + more == Total(|slot|)
    requires more > 0 ==> pendingBlocks + more <= MAX_BLOCKS
    ensures Awaiting(w0, Fill(w, |slot|), slot, inbox, i, choked, n + more, pendingBlocks + more, downloaded, buf)
  {
    hide Arrived, Agrees, Before;
    var v := Fill(w, |slot|);
    if !choked {
      FillReached(w, slot, Min(MAX_BLOCK_SIZE * n, |slot|), pendingBlocks, downloaded, buf, n + more);
    }
    ProgressFacts(v, slot, Min(MAX_BLOCK_SIZE * (n + more), |slot|), pendingBlocks + more, downloaded, buf);
    if !choked { NeverStuck(w, |slot|); }
  }

  /**
   * inbox is what the peer sends until the connection ends, writes how many writes the connection takes. Whatever
   * comes in, the requests sent are those of the first blocks in order, and the result is the one Stops names when the
   * connection takes them all. If the messages are what an honest
   * uploader may send, in any order and mixed with control messages, then the download neither panics nor fails
   * to parse, the window counts exactly the outstanding requests, and the piece returned is the slot of the file.
   * It is returned whenever every request is answered before the connection ends.
   */
  method DownloadPiece(c: Client, index: nat, length: int, inbox: seq<Option<Message>>, writes: nat,
                       ghost slot: seq<Byte>)
      returns (r: DownloadResult, requests: seq<Message>, ghost pending: seq<int>)
    modifies c, c.bitfield
    ensures c.bitfield == old(c.bitfield) && KeepsPieces(old(c.bitfield[..]), c.bitfield[..])
    ensures r.Piece? ==> r.index == index && |r.piece| == length
    ensures r == Crash ==> length < 0 || None in inbox
    ensures length >= 0 ==> |requests| <= Total(length) && requests == Requests(index, length, |requests|)
    ensures length >= 0 && writes > Total(length) ==> exists i: nat :: Stops(index, length, inbox, i, r)
    ensures length < 0 ==> r == Crash
    ensures var w := Window(old(c.choked), 0, {});
            |slot| == length && index < WORD && length <= WORD && Honest(w, index, slot, inbox) ==>
              && (r.Piece? || r == ConnectionError)
              && (r.Piece? ==> r.piece == slot && |requests| == Total(length))
              && Counted(w, length, inbox, pending)
              && (r == ConnectionError && |requests| < writes ==>
                    var v := Before(w, length, inbox, |inbox|);
                    |requests| == v.sent && v.answered != Upto(Total(length))
                    && (v.choked || Outstanding(v) != {}))
              && (Delivers(w, index, slot, inbox) && writes > Total(length) ==> r == Piece(index, slot))
  {
    hide Requests, Honest, Before, Outstanding, Progress, Fill, Receive, Tracks, Awaiting, Counted, Total, KeepsPieces,
         Reads, Stops;
    requests, pending := [], [];
    ghost var had := c.bitfield[..];
    KeepsAll(had);
    if length < 0 { return Crash, requests, pending; }
    var buf := new Byte[length](_ => 0);
    var downloaded, pendingBlocks := 0, 0;
    var i := 0;
    ghost var w0 := Window(c.choked, 0, {});
    ghost var honest := |slot| == length && index < WORD && length <= WORD && Honest(w0, index, slot, inbox);
    ghost var w := w0;
    if honest { TracksStart(w0, slot, inbox, buf[..]); }
    NoRequests(index, length);
    ReadsNothing(index, inbox, buf[..]);
    while downloaded < length
      invariant c.bitfield == old(c.bitfield) && KeepsPieces(had, c.bitfield[..])
      invariant |pending| == i <= |inbox| && |requests| <= writes
      invariant |requests| <= Total(length) && requests == Requests(index, length, |requests|)
      invariant honest ==>
                  Tracks(w0, w, slot, inbox, i, c.choked, |requests|, pendingBlocks, downloaded, buf[..])
      invariant honest ==> Counted(w0, length, inbox, pending)
      invariant Reads(index, length, inbox, i, downloaded, buf[..])
      decreases |inbox| - i
    {
      var ok;
      ok, requests, pendingBlocks :=
        TopUp(c.choked, index, length, requests, pendingBlocks, writes, downloaded, buf[..], w0, w, slot, inbox, i,
              honest);
      if !ok { return ConnectionError, requests, pending; }
      ghost var v := Fill(w, length);
      if honest {
        AwaitingFacts(w0, v, slot, inbox, i, c.choked, |requests|, pendingBlocks, downloaded, buf[..]);
        CountedAdd(w0, length, inbox, pending, pendingBlocks);
      }
      pending := pending + [pendingBlocks];
      ghost var has := c.bitfield[..];
      if i == |inbox| {
        ReadsStop(index, length, inbox, i, downloaded, buf[..], ConnectionError);
        return ConnectionError, requests, pending;
      }
      ghost var was, d := buf[..], downloaded;
      var error;
      error, pendingBlocks, downloaded :=
        Consume(c, index, buf, inbox, i, pendingBlocks, downloaded, w0, v, slot, honest, |requests|);
      KeepsTransitive(had, has, c.bitfield[..]);
      if error.Some? {
        ReadsStop(index, length, inbox, i, d, was, error.value);
        return error.value, requests, pending;
      }
      w := Receive(v, inbox[i]);
      i := i + 1;
    }
    if honest {
      TracksProgress(w0, w, slot, inbox, i, c.choked, |requests|, pendingBlocks, downloaded, buf[..]);
      Finished(w, slot, Min(MAX_BLOCK_SIZE * |requests|, length), pendingBlocks, downloaded, buf[..]);
    }
    ReadsStop(index, length, inbox, i, downloaded, buf[..], Piece(index, buf[..]));
    return Piece(index, buf[..]), requests, pending;
  }

  lemma AwaitingFacts(w0: Window, v: Window, slot: seq<Byte>, inbox: seq<Option<Message>>, i: nat, choked: bool,
                      n: nat, pendingBlocks: int, downloaded: int, buf: seq<Byte>)
    requires Awaiting(w0, v, slot, inbox, i, choked, n, pendingBlocks, downloaded, buf)
    ensures i <= |inbox| && pendingBlocks == |Outstanding(Before(w0, |slot|, inbox, i))| <= MAX_BLOCKS
    ensures Before(w0, |slot|, inbox, i).choked || Outstanding(Before(w0, |slot|, inbox, i)) != {}
    ensures Before(w0, |slot|, inbox, i).answered != Upto(Total(|slot|)) && Before(w0, |slot|, inbox, i).sent == n
  {
  }

  /** A peer that had a piece still has it. */
  ghost predicate KeepsPieces(before: seq<Byte>, after: seq<Byte>) {
    forall i: nat :: HasPiece(before, i) == Value(true) ==> HasPiece(after, i) == Value(true)
  }

  lemma KeepsAll(bf: seq<Byte>)
    ensures KeepsPieces(bf, bf)
  {
  }

  lemma KeepsTransitive(a: seq<Byte>, b: seq<Byte>, c: seq<Byte>)
    requires KeepsPieces(a, b) && KeepsPieces(b, c)
    ensures KeepsPieces(a, c)
  {
    hide HasPiece;
  }

  lemma TracksStart(w0: Window, slot: seq<Byte>, inbox: seq<Option<Message>>, buf: seq<Byte>)
    requires |buf| == |slot| && w0 == Window(w0.choked, 0, {})
    ensures Tracks(w0, w0, slot, inbox, 0, w0.choked, 0, 0, 0, buf) && Counted(w0, |slot|, inbox, [])
  {
    hide Progress;
    Start(w0.choked, slot, buf);
  }

  lemma TracksProgress(w0: Window, w: Window, slot: seq<Byte>, inbox: seq<Option<Message>>, i: nat, choked: bool,
                       n: nat, pendingBlocks: int, downloaded: int, buf: seq<Byte>)
    requires Tracks(w0, w, slot, inbox, i, choked, n, pendingBlocks, downloaded, buf)
    ensures Progress(w, slot, Min(MAX_BLOCK_SIZE * n, |slot|), pendingBlocks, downloaded, buf) && n == w.sent
  {
  }

  lemma TracksNext(w0: Window, v: Window, slot: seq<Byte>, inbox: seq<Option<Message>>, i: nat, choked: bool,
                   n: nat, pendingBlocks: int, downloaded: int, buf: seq<Byte>)
    requires i < |inbox| && v == Before(w0, |slot|, inbox, i)
    requires var w := Receive(v, inbox[i]);
             Progress(w, slot, Min(MAX_BLOCK_SIZE * n, |slot|), pendingBlocks, downloaded, buf)
             && choked == w.choked && n == w.sent
    ensures Tracks(w0, Receive(v, inbox[i]), slot, inbox, i + 1, choked, n, pendingBlocks, downloaded, buf)
  {
    hide Progress, Before, Receive;
    BeforeStep(w0, |slot|, inbox, i);
  }

  lemma CountedAdd(w0: Window, length: nat, inbox: seq<Option<Message>>, pending: seq<int>, p: int)
    requires Counted(w0, length, inbox, pending) && |pending| <= |inbox|
    requires p == |Outstanding(Before(w0, length, inbox, |pending|))| <= MAX_BLOCKS
    ensures Counted(w0, length, inbox, pending + [p])
  {
    hide Before, Outstanding;
  }

  /** One message: the counters follow the bytes it brought; an honest one keeps them in step with the window. */
  method Consume(c: Client, index: nat, buf: array<Byte>, inbox: seq<Option<Message>>, i: nat, pending: int, had: int,
                 ghost w0: Window, ghost v: Window, ghost slot: seq<Byte>, ghost honest: bool, ghost n: nat)
      returns (error: Option<DownloadResult>, pendingBlocks: int, downloaded: int)
    requires buf != c.bitfield && i < |inbox|
    requires honest ==> index < WORD && |slot| == buf.Length <= WORD && Honest(w0, index, slot, inbox)
                        && Awaiting(w0, v, slot, inbox, i, c.choked, n, pending, had, buf[..])
    requires Reads(index, buf.Length, inbox, i, had, buf[..]) && had < buf.Length
    modifies c, c.bitfield, buf
    ensures c.bitfield == old(c.bitfield) && KeepsPieces(old(c.bitfield[..]), c.bitfield[..])
    ensures error.Some? <==> Rejected(index, buf.Length, inbox[i])
    ensures error.Some? ==> error.value == if inbox[i] == None then Crash else ParseError
    ensures error == None ==> Reads(index, buf.Length, inbox, i + 1, downloaded, buf[..])
    ensures honest ==> error == None && Tracks(w0, Receive(v, inbox[i]), slot, inbox, i + 1, c.choked, n,
                                               pendingBlocks, downloaded, buf[..])
  {
    hide PieceData, PieceFor, Overwrite, Progress, Serves, Honest, Before, Outstanding, HasPiece, Reads, ParseHave;
    ghost var was := buf[..];
    pendingBlocks, downloaded := pending, had;
    var msg := inbox[i];
    if honest {
      HonestAt(w0, index, slot, inbox, i);
      ServesSome(v, index, slot, msg);
    }
    if msg == None { return Some(Crash), pendingBlocks, downloaded; }
    var m := msg.value;
    if honest { Accepted(v, index, slot, Min(MAX_BLOCK_SIZE * n, |slot|), pending, had, buf[..], m); }
    var got := Accept(c, index, buf, m);
    if got == Error { return Some(ParseError), pendingBlocks, downloaded; }
    error := None;
    downloaded := downloaded + got.value;
    ReadsOne(index, buf.Length, inbox, i, had, was, downloaded, buf[..]);
    if m.id == PIECE { pendingBlocks := pendingBlocks - 1; }
    if honest { TracksNext(w0, v, slot, inbox, i, c.choked, n, pendingBlocks, downloaded, buf[..]); }
  }

  /** Before a message is awaited, an unchoked downloader fills its window. */
  method TopUp(choked: bool, index: nat, length: nat, had: seq<Message>, before: int, writes: nat, downloaded: int,
               ghost buf: seq<Byte>, ghost w0: Window, ghost w: Window, ghost slot: seq<Byte>,
               ghost inbox: seq<Option<Message>>, ghost i: nat, ghost honest: bool)
      returns (ok: bool, requests: seq<Message>, pendingBlocks: int)
    requires |had| <= writes && |had| <= Total(length) && had == Requests(index, length, |had|) && downloaded < length
    requires honest ==> |slot| == length && Tracks(w0, w, slot, inbox, i, choked, |had|, before, downloaded, buf)
    ensures |requests| <= writes && |requests| <= Total(length) && requests == Requests(index, length, |requests|)
    ensures !ok ==> |requests| == writes
    ensures ok && honest ==> Awaiting(w0, Fill(w, |slot|), slot, inbox, i, choked, |requests|, pendingBlocks,
                                      downloaded, buf)
  {
    hide Requests, Tracks, Awaiting;
    requests, pendingBlocks, ok := had, before, true;
    if !choked {
      var sent, requested;
      ok, requested, pendingBlocks, sent := RequestBlocks(index, length, |had|, before, writes - |had|);
      requests := requests + sent;
    }
    if ok && honest {
      TracksFill(w0, w, slot, inbox, i, choked, |had|, before, downloaded, buf, |requests| - |had|);
    }
  }

  lemma ServesSome(w: Window, index: nat, slot: seq<Byte>, m: Option<Message>)
    requires Serves(w, index, slot, m)
    ensures m.Some?
  {
  }

  /** An honest message is accepted and moves window, counters and buffer on together. */
  lemma Accepted(w: Window, index: nat, slot: seq<Byte>, requested: int, pendingBlocks: int, downloaded: int,
                 buf: seq<Byte>, m: Message)
    requires Progress(w, slot, requested, pendingBlocks, downloaded, buf)
    requires index < WORD && |slot| <= WORD && Serves(w, index, slot, Some(m))
    ensures Receive(w, Some(m)).sent == w.sent
    ensures Receive(w, Some(m)).choked == if m.id == CHOKE then true else if m.id == UNCHOKE then false else w.choked
    ensures |buf| == |slot|
    ensures m.id == HAVE ==> ParseHave(m).Ok?
    ensures m.id != PIECE ==> Progress(Receive(w, Some(m)), slot, requested, pendingBlocks, downloaded, buf)
    ensures m.id == PIECE ==>
              PieceData(index, |slot|, m).Ok?
              && var (begin, data) := PieceData(index, |slot|, m).value;
                 Progress(Receive(w, Some(m)), slot, requested, pendingBlocks - 1, downloaded + |data|,
                          Overwrite(buf, begin, data))
  {
    hide Arrived, PieceData, Overwrite, PieceFor;
    if m.id == PIECE {
      PieceReceived(w, index, slot, requested, pendingBlocks, downloaded, buf, m);
    } else {
      ControlReceived(w, slot, requested, pendingBlocks, downloaded, buf, m);
    }
  }

  lemma BeforeStep(w: Window, length: nat, inbox: seq<Option<Message>>, i: nat)
    requires i < |inbox|
    ensures Before(w, length, inbox, 0) == Fill(w, length)
    ensures Before(w, length, inbox, i + 1) == Fill(Receive(Before(w, length, inbox, i), inbox[i]), length)
  {
  }

  lemma NoRequests(index: nat, length: nat)
    ensures Requests(index, length, 0) == []
  {
  }
}
