/**
 * Downloading a file: the task loop of one connection (StartPeerDownload in torrent_peer.go) and the loop that
 * collects checked pieces from all connections (DownloadFile in torrent.go).
 */
module Download {
  import opened Bytes
  import opened Numbers
  import opened Outcomes
  import opened Messages
  import opened Transfer
  import M = Metainfo

  datatype Torrent = Torrent(piecesHash: seq<M.Digest>, pieceLength: int, length: int)
  {
    function PieceLength(index: int): int {
      M.PieceLength(pieceLength, length, index)
    }
  }

  datatype PieceTask = PieceTask(index: nat, hash: M.Digest, length: int)
  datatype PieceResult = PieceResult(index: nat, piece: seq<Byte>)

  /** The integrity check of a downloaded piece against its task. */
  predicate Check(hash: M.Hash, r: PieceResult, task: PieceTask) {
    hash(r.piece) == task.hash
  }

  /** A piece of the length its slot has, with the hash the torrent gives it. */
  predicate Checked(t: Torrent, hash: M.Hash, r: PieceResult) {
    r.index < |t.piecesHash| && |r.piece| == t.PieceLength(r.index) && hash(r.piece) == t.piecesHash[r.index]
  }

  // ---- collecting ----

  ghost predicate SlotChecked(t: Torrent, hash: M.Hash, buf: seq<Byte>, index: nat)
    requires |buf| == t.length
  {
    index < |t.piecesHash| && M.InFile(t.pieceLength, t.length, index)
    && hash(M.Slot(buf, t.pieceLength, index)) == t.piecesHash[index]
  }

  lemma CheckedInFile(t: Torrent, hash: M.Hash, r: PieceResult)
    requires Checked(t, hash, r) && t.length >= 0
    ensures M.InFile(t.pieceLength, t.length, r.index)
  {
  }

  /** Copying a checked piece to its place makes its slot right and leaves the other slots alone. */
  lemma CopyPiece(t: Torrent, hash: M.Hash, buf: seq<Byte>, r: PieceResult, other: nat)
    requires |buf| == t.length && Checked(t, hash, r)
    ensures M.InFile(t.pieceLength, t.length, r.index)
    ensures var at := M.SlotStart(t.pieceLength, r.index);
            0 <= at && at + |r.piece| <= |buf|
            && SlotChecked(t, hash, Overwrite(buf, at, r.piece), r.index)
            && (SlotChecked(t, hash, buf, other) ==> SlotChecked(t, hash, Overwrite(buf, at, r.piece), other))
  {
    var index, at := r.index, M.SlotStart(t.pieceLength, r.index);
    CheckedInFile(t, hash, r);
    M.SlotBounds(t.pieceLength, t.length, index);
    var after := Overwrite(buf, at, r.piece);
    assert M.Slot(after, t.pieceLength, index) == r.piece;
    if SlotChecked(t, hash, buf, other) && other != index {
      M.SlotBounds(t.pieceLength, t.length, other);
      if other < index {
        M.SlotsDisjoint(t.pieceLength, t.length, other, index);
      } else {
        M.SlotsDisjoint(t.pieceLength, t.length, index, other);
      }
      assert M.Slot(after, t.pieceLength, other) == M.Slot(buf, t.pieceLength, other);
    }
  }

  /**
   * responses are the results of all connections in the order they arrive, duplicates included, until the channel
   * is closed. Every index that was collected has a slot in the buffer with the hash of the torrent.
   */
  method Collect(t: Torrent, hash: M.Hash, responses: seq<PieceResult>) returns (buf: array<Byte>, donePieces: nat)
    requires t.length >= 0
    requires forall r :: r in responses ==> Checked(t, hash, r)
    ensures buf.Length == t.length
    ensures donePieces <= |responses| && donePieces <= |t.piecesHash|
    ensures donePieces == |responses| || donePieces == |t.piecesHash|
    ensures forall k :: 0 <= k < donePieces ==> SlotChecked(t, hash, buf[..], responses[k].index)
  {
    hide SlotChecked, Checked, Overwrite;
    buf := new Byte[t.length](_ => 0);
    donePieces := 0;
    while donePieces < |t.piecesHash| && donePieces < |responses|
      invariant donePieces <= |responses| && donePieces <= |t.piecesHash|
      invariant forall k :: 0 <= k < donePieces ==> SlotChecked(t, hash, buf[..], responses[k].index)
      decreases |t.piecesHash| - donePieces
    {
      var res := responses[donePieces];
      ghost var was := buf[..];
      CopyPiece(t, hash, was, res, res.index);
      forall k | 0 <= k < donePieces
        ensures SlotChecked(t, hash, Overwrite(was, M.SlotStart(t.pieceLength, res.index), res.piece),
                            responses[k].index)
      {
        CopyPiece(t, hash, was, res, responses[k].index);
      }
      CopyInto(buf, res.index * t.pieceLength, res.piece);
      donePieces := donePieces + 1;
    }
  }

  /** copy(buf[at:], data). */
  method CopyInto(buf: array<Byte>, at: nat, data: seq<Byte>)
    requires at + |data| <= buf.Length
    modifies buf
    ensures buf[..] == Overwrite(old(buf[..]), at, data)
  {
    forall k | 0 <= k < |data| { buf[at + k] := data[k]; }
  }

  // ---- one connection ----

  const UINT64 := 0x1_0000_0000_0000_0000
  const MAX_INT := 0x7fff_ffff_ffff_ffff
  const BITFIELD_LENGTH := 8

  class DownloadProgress {
    const bitfield: array<Byte>
    var downloaded: int
    var pendingPieces: int
    var requested: int
    const left: int

    constructor (t: Torrent)
      ensures fresh(bitfield) && bitfield[..] == [0, 0, 0, 0, 0, 0, 0, 0]
      ensures downloaded == 0 && pendingPieces == |t.piecesHash| && requested == 0 && left == t.length % UINT64
    {
      bitfield := new Byte[BITFIELD_LENGTH](_ => 0);
      downloaded, pendingPieces, requested := 0, |t.piecesHash|, 0;
      left := t.length % UINT64;
    }
  }

  function Task(t: Torrent, i: nat): PieceTask
    requires i < |t.piecesHash|
  {
    PieceTask(i, t.piecesHash[i], t.PieceLength(i))
  }

  function InitialTasks(t: Torrent): seq<PieceTask> {
    seq(|t.piecesHash|, i requires 0 <= i < |t.piecesHash| => Task(t, i))
  }

  function TaskIndices(tasks: seq<PieceTask>): seq<nat> {
    seq(|tasks|, i requires 0 <= i < |tasks| => tasks[i].index)
  }

  function ResultIndices(results: seq<PieceResult>): (r: seq<nat>)
    ensures |r| == |results|
  {
    seq(|results|, i requires 0 <= i < |results| => results[i].index)
  }

  function Indices(n: nat): seq<nat> {
    seq(n, i => i)
  }

  /** Each index is either still a task or delivered, once. */
  ghost predicate Partition(t: Torrent, tasks: seq<PieceTask>, delivered: seq<PieceResult>) {
    multiset(TaskIndices(tasks)) + multiset(ResultIndices(delivered)) == multiset(Indices(|t.piecesHash|))
    && forall task :: task in tasks ==> task.index < |t.piecesHash| && task == Task(t, task.index)
  }

  lemma TaskIndicesAdd(tasks: seq<PieceTask>, task: PieceTask)
    ensures TaskIndices(tasks + [task]) == TaskIndices(tasks) + [task.index]
  {
  }

  lemma TaskIndicesRemove(tasks: seq<PieceTask>, i: nat)
    requires i < |tasks|
    ensures multiset(TaskIndices(tasks))
            == multiset(TaskIndices(tasks[..i] + tasks[i + 1..])) + multiset{tasks[i].index}
  {
    var l, rest := TaskIndices(tasks), TaskIndices(tasks[..i] + tasks[i + 1..]);
    assert rest == l[..i] + l[i + 1..];
    assert l == l[..i] + [l[i]] + l[i + 1..];
  }

  /** A task that was taken out and put back at the end, in whatever order, changes nothing. */
  lemma PutBack(t: Torrent, tasks: seq<PieceTask>, i: nat, delivered: seq<PieceResult>)
    requires i < |tasks| && Partition(t, tasks, delivered)
    ensures Partition(t, tasks[..i] + tasks[i + 1..] + [tasks[i]], delivered)
  {
    TaskIndicesRemove(tasks, i);
    TaskIndicesAdd(tasks[..i] + tasks[i + 1..], tasks[i]);
  }

  lemma ResultIndicesAdd(results: seq<PieceResult>, r: PieceResult)
    ensures ResultIndices(results + [r]) == ResultIndices(results) + [r.index]
  {
  }

  lemma Deliver(t: Torrent, tasks: seq<PieceTask>, i: nat, delivered: seq<PieceResult>, r: PieceResult)
    requires i < |tasks| && Partition(t, tasks, delivered) && r.index == tasks[i].index
    ensures Partition(t, tasks[..i] + tasks[i + 1..], delivered + [r])
    ensures r.index !in ResultIndices(delivered)
  {
    TaskIndicesRemove(tasks, i);
    ResultIndicesAdd(delivered, r);
    IndicesOnce(|t.piecesHash|, r.index);
    assert multiset(Indices(|t.piecesHash|))[r.index] >= 1 + multiset(ResultIndices(delivered))[r.index];
  }

  lemma {:induction false} IndicesOnce(n: nat, i: nat)
    ensures multiset(Indices(n))[i] == if i < n then 1 else 0
  {
    if n > 0 {
      IndicesOnce(n - 1, i);
      assert Indices(n) == Indices(n - 1) + [n - 1];
    }
  }

  lemma InitialPartition(t: Torrent)
    ensures Partition(t, InitialTasks(t), [])
  {
    assert TaskIndices(InitialTasks(t)) == Indices(|t.piecesHash|);
  }

  // ---- bytes downloaded and bytes left ----

  /** The bytes of the delivered pieces among the first k. */
  function BytesOf(t: Torrent, delivered: seq<nat>, k: nat): int {
    if k == 0 then 0
    else BytesOf(t, delivered, k - 1) + if k - 1 in delivered then t.PieceLength(k - 1) else 0
  }

  lemma {:induction false} BytesAdd(t: Torrent, delivered: seq<nat>, index: nat, k: nat)
    requires index !in delivered
    ensures BytesOf(t, delivered + [index], k)
            == BytesOf(t, delivered, k) + if index < k then t.PieceLength(index) else 0
  {
    if k > 0 { BytesAdd(t, delivered, index, k - 1); }
  }

  lemma {:induction false} NoBytes(t: Torrent, k: nat)
    ensures BytesOf(t, [], k) == 0
  {
    if k > 0 { NoBytes(t, k - 1); }
  }

  /** Distinct pieces of the file never have more bytes than the file, so left never wraps. */
  lemma {:induction false} BytesBound(t: Torrent, delivered: seq<nat>, k: nat)
    requires t.length >= 0 && t.pieceLength >= 0
    requires forall i :: i in delivered ==> M.InFile(t.pieceLength, t.length, i)
    ensures 0 <= BytesOf(t, delivered, k) <= Min(M.SlotStart(t.pieceLength, k), t.length)
  {
    if k > 0 {
      BytesBound(t, delivered, k - 1);
      M.ProductMonotone(k - 1, k, t.pieceLength);
      if k - 1 in delivered {
        M.SlotBounds(t.pieceLength, t.length, k - 1);
      }
    }
  }

  /**
   * What the peer does while one task is tried: which task is picked, what comes in, how many writes go out. The
   * messages may depend on the piece and on whether the peer had choked the connection.
   */
  datatype Attempt = Attempt(choice: nat, messages: (nat, bool) -> seq<Option<Message>>, writes: nat)

  /** The torrent that BuildTorrentFile and splitPiecesHash make of a file. */
  ghost predicate TorrentOf(t: Torrent, file: seq<Byte>, hash: M.Hash) {
    t.pieceLength > 0 && t.length == |file| && |t.piecesHash| == M.PieceCount(t.pieceLength, |file|)
    && forall i :: 0 <= i < |t.piecesHash| ==>
         M.InFile(t.pieceLength, |file|, i) && t.piecesHash[i] == hash(M.Slot(file, t.pieceLength, i))
  }

  /** The piece numbers and lengths are 32-bit numbers, as they are on the wire. */
  predicate Addressable(t: Torrent) {
    |t.piecesHash| <= WORD && t.pieceLength <= WORD
  }

  /**
   * A peer that holds some pieces of the file: every request for one of these is answered from its slot, and what comes
   * instead of another piece is no keep-alive.
   */
  ghost predicate Seeds(t: Torrent, file: seq<Byte>, holds: set<nat>, attempt: Attempt) {
    forall index: nat, choked: bool {:trigger attempt.messages(index, choked)} ::
      index < |t.piecesHash| && M.InFile(t.pieceLength, |file|, index) ==>
        if index in holds then
          var slot := M.Slot(file, t.pieceLength, index);
          Delivers(Window(choked, 0, {}), index, slot, attempt.messages(index, choked))
          && attempt.writes > Total(|slot|)
        else None !in attempt.messages(index, choked)
  }

  ghost predicate HasAllPieces(t: Torrent, bitfield: seq<Byte>) {
    forall i: nat :: i < |t.piecesHash| ==> HasPiece(bitfield, i) == Value(true)
  }

  /** The hypotheses under which every attempt at a piece the peer holds and has announced succeeds. */
  ghost predicate Seeded(t: Torrent, file: seq<Byte>, hash: M.Hash, holds: set<nat>, bitfield: seq<Byte>,
                         attempts: seq<Attempt>) {
    TorrentOf(t, file, hash) && Addressable(t) && |t.piecesHash| <= 8 * |bitfield|
    && forall a :: a in attempts ==> Seeds(t, file, holds, a)
  }

  /** The peer holds and has announced every piece. */
  ghost predicate SeededAll(t: Torrent, file: seq<Byte>, hash: M.Hash, bitfield: seq<Byte>, attempts: seq<Attempt>) {
    Seeded(t, file, hash, Upto(|t.piecesHash|), bitfield, attempts) && HasAllPieces(t, bitfield)
  }

  lemma SlotSize(t: Torrent, file: seq<Byte>, index: nat)
    requires t.pieceLength > 0 && M.InFile(t.pieceLength, |file|, index)
    ensures |M.Slot(file, t.pieceLength, index)| == M.PieceLength(t.pieceLength, |file|, index) <= t.pieceLength
  {
    M.SlotBounds(t.pieceLength, |file|, index);
    assert (index + 1) * t.pieceLength == index * t.pieceLength + t.pieceLength;
  }

  /** A peer that answers every request from the file in order. */
  function Seeder(t: Torrent, file: seq<Byte>, choice: nat): Attempt
    requires t.pieceLength >= 0
  {
    Attempt(choice,
            (index: nat, choked: bool) =>
              if M.InFile(t.pieceLength, |file|, index) then Service(index, M.Slot(file, t.pieceLength, index)) else [],
            Total(t.pieceLength) + 1)
  }

  /** It is a peer that holds the file, and so any pieces of it. */
  lemma SeederExists(t: Torrent, file: seq<Byte>, hash: M.Hash, holds: set<nat>, choice: nat)
    requires TorrentOf(t, file, hash) && Addressable(t)
    ensures Seeds(t, file, holds, Seeder(t, file, choice))
  {
    hide Service, Delivers, Total, M.Slot, M.InFile;
    var attempt := Seeder(t, file, choice);
    forall index: nat, choked: bool | index < |t.piecesHash| && M.InFile(t.pieceLength, |file|, index)
      ensures var slot := M.Slot(file, t.pieceLength, index);
              Delivers(Window(choked, 0, {}), index, slot, attempt.messages(index, choked))
              && attempt.writes > Total(|slot|) && None !in attempt.messages(index, choked)
    {
      SlotSize(t, file, index);
      ServiceDelivers(choked, index, M.Slot(file, t.pieceLength, index));
      TotalMonotone(|M.Slot(file, t.pieceLength, index)|, t.pieceLength);
    }
  }

  lemma TotalMonotone(a: nat, b: nat)
    requires a <= b
    ensures Total(a) <= Total(b)
  {
  }

  /** The books of one connection. */
  ghost predicate Accounts(t: Torrent, hash: M.Hash, tasks: seq<PieceTask>, delivered: seq<PieceResult>,
                           pendingPieces: int, downloaded: int, left: int, bitfield: seq<Byte>) {
    Partition(t, tasks, delivered)
    && (forall r :: r in delivered ==> Checked(t, hash, r))
    && pendingPieces == |tasks|
    && downloaded == BytesOf(t, ResultIndices(delivered), |t.piecesHash|)
    && downloaded + left == t.length && 0 <= left
    && forall i :: 0 <= i < 8 * BITFIELD_LENGTH ==> HasPiece(bitfield, i) == Value(i in ResultIndices(delivered))
  }

  lemma OpenAccounts(t: Torrent, hash: M.Hash, bitfield: seq<Byte>)
    requires 0 <= t.length && bitfield == [0, 0, 0, 0, 0, 0, 0, 0]
    ensures Accounts(t, hash, InitialTasks(t), [], |t.piecesHash|, 0, t.length, bitfield)
  {
    InitialPartition(t);
    NoBytes(t, |t.piecesHash|);
    assert ResultIndices([]) == [];
    forall i | 0 <= i < 8 * BITFIELD_LENGTH ensures HasPiece(bitfield, i) == Value(false) {
      HasPieceBit(bitfield, i);
    }
  }

  lemma KeepAccounts(t: Torrent, hash: M.Hash, tasks: seq<PieceTask>, i: nat, delivered: seq<PieceResult>,
                     pendingPieces: int, downloaded: int, left: int, bitfield: seq<Byte>)
    requires Accounts(t, hash, tasks, delivered, pendingPieces, downloaded, left, bitfield) && i < |tasks|
    ensures Accounts(t, hash, tasks[..i] + tasks[i + 1..] + [tasks[i]], delivered, pendingPieces, downloaded, left,
                     bitfield)
    ensures tasks[i].index < |t.piecesHash| && tasks[i] == Task(t, tasks[i].index)
    ensures tasks[i].length == t.PieceLength(tasks[i].index) && tasks[i].hash == t.piecesHash[tasks[i].index]
  {
    hide Partition, BytesOf, Checked, HasPiece;
    PartitionTask(t, tasks, delivered, i);
    PutBack(t, tasks, i, delivered);
  }

  lemma PartitionTask(t: Torrent, tasks: seq<PieceTask>, delivered: seq<PieceResult>, i: nat)
    requires Partition(t, tasks, delivered) && i < |tasks|
    ensures tasks[i].index < |t.piecesHash| && tasks[i] == Task(t, tasks[i].index)
    ensures tasks[i].length == t.PieceLength(tasks[i].index) && tasks[i].hash == t.piecesHash[tasks[i].index]
  {
    assert tasks[i] in tasks;
  }

  /** A delivered piece moves one task, its bytes and its bit. */
  lemma BookPiece(t: Torrent, hash: M.Hash, tasks: seq<PieceTask>, i: nat, delivered: seq<PieceResult>,
                  r: PieceResult, pendingPieces: int, downloaded: int, left: int, bitfield: seq<Byte>,
                  bitfield': seq<Byte>)
    requires Accounts(t, hash, tasks, delivered, pendingPieces, downloaded, left, bitfield) && i < |tasks|
    requires 0 <= t.length && r.index == tasks[i].index && Checked(t, hash, r)
    requires |bitfield| == BITFIELD_LENGTH
    requires forall j: nat :: HasPiece(bitfield', j)
                              == if j == r.index && j / 8 < |bitfield| then Value(true) else HasPiece(bitfield, j)
    ensures |r.piece| <= left <= t.length
    ensures Accounts(t, hash, tasks[..i] + tasks[i + 1..], delivered + [r], pendingPieces - 1,
                     downloaded + |r.piece|, left - |r.piece|, bitfield')
  {
    hide Checked, Partition, HasPiece;
    var d, d' := ResultIndices(delivered), ResultIndices(delivered + [r]);
    Deliver(t, tasks, i, delivered, r);
    ResultIndicesAdd(delivered, r);
    CheckedLength(t, hash, r);
    BytesAdd(t, d, r.index, |t.piecesHash|);
    CheckedInFile(t, hash, r);
    assert forall j :: j in d ==> j in d';
    forall j | j in d' ensures M.InFile(t.pieceLength, t.length, j) {
      var k :| 0 <= k < |d'| && d'[k] == j;
      CheckedInFile(t, hash, (delivered + [r])[k]);
    }
    BytesBound(t, d', |t.piecesHash|);
    BytesBound(t, d, |t.piecesHash|);
  }

  lemma CheckedLength(t: Torrent, hash: M.Hash, r: PieceResult)
    requires Checked(t, hash, r)
    ensures r.index < |t.piecesHash| && |r.piece| == t.PieceLength(r.index)
  {
  }

  /** What can stop the program: a short bitfield, a keep-alive while a piece is loading, a piece past the end. */
  ghost predicate CanCrash(t: Torrent, client: Client, attempts: seq<Attempt>)
    reads client
  {
    8 * client.bitfield.Length < |t.piecesHash|
    || (exists a, index, choked {:trigger a.messages(index, choked)} ::
          a in attempts && None in a.messages(index, choked))
    || (exists index: nat :: index < |t.piecesHash| && t.PieceLength(index) < 0)
  }

  lemma CrashOf(t: Torrent, client: Client, attempts: seq<Attempt>, a: Attempt, index: nat, had: seq<Byte>,
                choked: bool)
    requires a in attempts && index < |t.piecesHash| && |had| == client.bitfield.Length
    requires HasPiece(had, index) == Panic || t.PieceLength(index) < 0 || None in a.messages(index, choked)
    ensures CanCrash(t, client, attempts)
  {
  }

  /**
   * What the hypotheses say about one attempt: the slot that will come in when the peer holds the piece, and that
   * nothing stops the program otherwise.
   */
  lemma SeededAttempt(t: Torrent, file: seq<Byte>, hash: M.Hash, holds: set<nat>, has: seq<Byte>,
                      attempts: seq<Attempt>, a: Attempt, index: nat, choked: bool) returns (slot: seq<Byte>)
    requires Seeded(t, file, hash, holds, has, attempts) && a in attempts && index < |t.piecesHash|
    ensures HasPiece(has, index) == Value(true) || HasPiece(has, index) == Value(false)
    ensures |slot| == t.PieceLength(index) <= WORD && index < WORD && hash(slot) == t.piecesHash[index]
    ensures index in holds ==>
              Delivers(Window(choked, 0, {}), index, slot, a.messages(index, choked)) && a.writes > Total(|slot|)
    ensures index !in holds ==> None !in a.messages(index, choked)
  {
    hide HasPiece, Delivers, Total, M.Slot;
    assert Seeds(t, file, holds, a);
    SlotSize(t, file, index);
    slot := M.Slot(file, t.pieceLength, index);
    InRange(has, index);
  }

  lemma InRange(has: seq<Byte>, index: nat)
    requires index < 8 * |has|
    ensures HasPiece(has, index) == Value(true) || HasPiece(has, index) == Value(false)
  {
  }

  lemma AccountsCount(t: Torrent, hash: M.Hash, tasks: seq<PieceTask>, delivered: seq<PieceResult>,
                      pendingPieces: int, downloaded: int, left: int, bitfield: seq<Byte>)
    requires Accounts(t, hash, tasks, delivered, pendingPieces, downloaded, left, bitfield)
    ensures |tasks| + |delivered| == |t.piecesHash|
  {
    hide BytesOf, Checked, HasPiece;
    assert |multiset(TaskIndices(tasks)) + multiset(ResultIndices(delivered))| == |tasks| + |delivered|;
    assert |multiset(Indices(|t.piecesHash|))| == |t.piecesHash|;
  }

  lemma TaskChecked(t: Torrent, hash: M.Hash, r: PieceResult, task: PieceTask)
    requires task.index < |t.piecesHash| && task == Task(t, task.index)
    requires r.index == task.index && |r.piece| == task.length && Check(hash, r, task)
    ensures Checked(t, hash, r)
  {
  }

  // ---- the order of attempts ----

  /** The task list after some attempts, which index each of them tried, and which indices were delivered. */
  datatype Play = Play(tasks: seq<PieceTask>, tried: seq<nat>, delivered: seq<nat>)

  /** ok says of each attempt whether it brought its piece: then its task is gone, else it moves to the end. */
  function Played(t: Torrent, attempts: seq<Attempt>, ok: seq<bool>): Play
    requires |ok| <= |attempts|
  {
    if ok == [] then Play(InitialTasks(t), [], [])
    else
      var n := |ok| - 1;
      var p := Played(t, attempts, ok[..n]);
      if p.tasks == [] then p
      else
        var i := attempts[n].choice % |p.tasks|;
        var rest, index := p.tasks[..i] + p.tasks[i + 1..], p.tasks[i].index;
        if ok[n] then Play(rest, p.tried + [index], p.delivered + [index])
        else Play(rest + [p.tasks[i]], p.tried + [index], p.delivered)
  }

  lemma PlayedStep(t: Torrent, attempts: seq<Attempt>, ok: seq<bool>, b: bool, p: Play)
    requires |ok| < |attempts| && Played(t, attempts, ok) == p && p.tasks != []
    ensures var i := attempts[|ok|].choice % |p.tasks|;
            var rest, index := p.tasks[..i] + p.tasks[i + 1..], p.tasks[i].index;
            Played(t, attempts, ok + [b]) == if b then Play(rest, p.tried + [index], p.delivered + [index])
                                             else Play(rest + [p.tasks[i]], p.tried + [index], p.delivered)
  {
    assert (ok + [b])[..|ok|] == ok;
  }

  /** The delivered indices are those some attempt tried with success. */
  lemma {:induction false} PlayedDelivers(t: Torrent, attempts: seq<Attempt>, ok: seq<bool>, index: nat)
    requires |ok| <= |attempts| && |Played(t, attempts, ok).tried| == |ok|
    ensures index in Played(t, attempts, ok).delivered
            <==> exists a :: 0 <= a < |ok| && ok[a] && Played(t, attempts, ok).tried[a] == index
  {
    if ok != [] {
      var n, p := |ok| - 1, Played(t, attempts, ok);
      var before := Played(t, attempts, ok[..n]);
      TriedAtMost(t, attempts, ok[..n]);
      PlayedDelivers(t, attempts, ok[..n], index);
      PlayedLast(t, attempts, ok);
      hide Played;
      if index in before.delivered {
        var a :| 0 <= a < n && ok[..n][a] && before.tried[a] == index;
        assert ok[a] && p.tried[a] == index;
      }
      if a :| 0 <= a < |ok| && ok[a] && p.tried[a] == index {
        if a < n { assert ok[..n][a] && before.tried[a] == index; }
      }
    }
  }

  /** The last attempt tried one more index, and delivered it or nothing. */
  lemma PlayedLast(t: Torrent, attempts: seq<Attempt>, ok: seq<bool>)
    requires ok != [] && |ok| <= |attempts| && |Played(t, attempts, ok).tried| == |ok|
    requires |Played(t, attempts, ok[..|ok| - 1]).tried| <= |ok| - 1
    ensures var n, p := |ok| - 1, Played(t, attempts, ok);
            var before := Played(t, attempts, ok[..n]);
            p.tried[..n] == before.tried && p.delivered == before.delivered + if ok[n] then [p.tried[n]] else []
  {
  }

  lemma TriedAtMost(t: Torrent, attempts: seq<Attempt>, ok: seq<bool>)
    requires |ok| <= |attempts|
    ensures |Played(t, attempts, ok).tried| <= |ok|
  {
  }

  /** When every attempt succeeds, one piece is delivered for each. */
  lemma {:induction false} AllPlayed(t: Torrent, attempts: seq<Attempt>, ok: seq<bool>)
    requires |ok| <= |attempts| && forall a :: 0 <= a < |ok| ==> ok[a]
    ensures Played(t, attempts, ok).delivered == Played(t, attempts, ok).tried
  {
    if ok != [] { AllPlayed(t, attempts, ok[..|ok| - 1]); }
  }

  datatype Outcome = Crashed | Failed | Got(piece: PieceResult)

  /** A piece is delivered when it has the hash of the task; any other end of its download puts the task back. */
  function Judged(hash: M.Hash, task: PieceTask, r: DownloadResult): Outcome {
    if r == Crash then Crashed
    else if r.Piece? && hash(r.piece) == task.hash then Got(PieceResult(r.index, r.piece))
    else Failed
  }

  /**
   * One round of the task loop up to the check. The bit of the task in the peer's bitfield decides: past its end the
   * program stops, an unset bit puts the task back with nothing asked, and a set one asks for the piece. A slot with
   * the hash of the task is then delivered if the peer serves it, and when all requests can be sent the messages alone
   * decide how the round ends.
   */
  method TryTask(t: Torrent, client: Client, dp: DownloadProgress, attempt: Attempt, task: PieceTask, hash: M.Hash,
                 ghost slot: seq<Byte>) returns (outcome: Outcome)
    requires task.index < |t.piecesHash| && task == Task(t, task.index) && dp.bitfield != client.bitfield
    modifies dp`requested, client, client.bitfield
    ensures client.bitfield == old(client.bitfield) && KeepsPieces(old(client.bitfield[..]), client.bitfield[..])
    ensures HasPiece(old(client.bitfield[..]), task.index) == Panic ==> outcome == Crashed
    ensures HasPiece(old(client.bitfield[..]), task.index) == Value(false) ==> outcome == Failed
    ensures HasPiece(old(client.bitfield[..]), task.index) != Value(true) ==>
              dp.requested == old(dp.requested) && client.bitfield[..] == old(client.bitfield[..])
              && client.choked == old(client.choked) && client.peerInterested == old(client.peerInterested)
    ensures HasPiece(old(client.bitfield[..]), task.index) == Value(true) ==>
              dp.requested == old(dp.requested) + task.length
    ensures var inbox := attempt.messages(task.index, old(client.choked));
            HasPiece(old(client.bitfield[..]), task.index) == Value(true)
            && |slot| == task.length && hash(slot) == task.hash && task.index < WORD && |slot| <= WORD
            && Delivers(Window(old(client.choked), 0, {}), task.index, slot, inbox)
            && attempt.writes > Total(|slot|) ==>
              outcome == Got(PieceResult(task.index, slot))
    ensures var inbox := attempt.messages(task.index, old(client.choked));
            HasPiece(old(client.bitfield[..]), task.index) == Value(true)
            && task.length >= 0 && attempt.writes > Total(task.length) ==>
              exists i: nat, r :: Stops(task.index, task.length, inbox, i, r) && outcome == Judged(hash, task, r)
    ensures outcome.Got? ==> HasPiece(old(client.bitfield[..]), task.index) == Value(true)
                             && outcome.piece.index == task.index && Checked(t, hash, outcome.piece)
    ensures outcome == Crashed ==> HasPiece(old(client.bitfield[..]), task.index) == Panic || task.length < 0
                                   || None in attempt.messages(task.index, old(client.choked))
  {
    hide HasPiece, KeepsPieces, Honest, Before, Outstanding, Total, Requests, Counted, Stops;
    KeepsAll(client.bitfield[..]);
    var present := HasPiece(client.bitfield[..], task.index);
    if present.Panic? { return Crashed; }
    if !present.value { return Failed; }
    dp.requested := dp.requested + task.length;
    var inbox := attempt.messages(task.index, client.choked);
    var r, _, _ := DownloadPiece(client, task.index, task.length, inbox, attempt.writes, slot);
    if r.Crash? { return Crashed; }
    if !r.Piece? { return Failed; }
    var piece := PieceResult(r.index, r.piece);
    if !Check(hash, piece, task) { return Failed; }
    TaskChecked(t, hash, piece, task);
    outcome := Got(piece);
  }

  /** A channel variable: nil until it is made. */
  datatype Channel = Unmade | Made

  /** doneKeepAliveToDHT is declared and closed, and never made. */
  const DONE_KEEP_ALIVE_TO_DHT: Channel := Unmade

  /**
   * How far a connection got: the attempts ran out with tasks left, the loop panicked, the loop ended and the program
   * stopped closing its channels, or StartPeerDownload returned.
   */
  datatype Ending = Trying | LoopCrashed | StoppedAtClose | Returned

  /** The last two statements: closing a nil channel panics. */
  method CloseChannels(done: Channel, keepAlive: Channel) returns (ending: Ending)
    ensures ending == if done == keepAlive == Made then Returned else StoppedAtClose
  {
    if done.Unmade? { return StoppedAtClose; }
    if keepAlive.Unmade? { return StoppedAtClose; }
    ending := Returned;
  }

  /** A task tried as TryTask says, under the hypotheses about the peer. */
  method TryNext(t: Torrent, client: Client, dp: DownloadProgress, ghost attempts: seq<Attempt>, attempt: Attempt,
                 task: PieceTask, hash: M.Hash, ghost file: seq<Byte>, ghost holds: set<nat>, ghost had: seq<Byte>,
                 ghost seeded: bool) returns (outcome: Outcome)
    requires task.index < |t.piecesHash| && task == Task(t, task.index) && dp.bitfield != client.bitfield
    requires attempt in attempts && |had| == client.bitfield.Length
    requires seeded ==> Seeded(t, file, hash, holds, had, attempts)
    modifies dp`requested, client, client.bitfield
    ensures client.bitfield == old(client.bitfield) && KeepsPieces(old(client.bitfield[..]), client.bitfield[..])
    ensures outcome.Got? ==> HasPiece(old(client.bitfield[..]), task.index) == Value(true)
                             && outcome.piece.index == task.index && Checked(t, hash, outcome.piece)
                             && dp.requested == old(dp.requested) + task.length
    ensures outcome.Crashed? ==> !seeded && CanCrash(t, client, attempts)
    ensures seeded && task.index in holds && HasPiece(old(client.bitfield[..]), task.index) == Value(true) ==>
              outcome.Got?
  {
    hide HasPiece, Seeded, CanCrash, Delivers, Total, KeepsPieces, Stops, Checked;
    ghost var slot: seq<Byte>, has, choked := [], client.bitfield[..], client.choked;
    if seeded {
      SeededHas(t, file, hash, holds, had, has, attempts);
      slot := SeededAttempt(t, file, hash, holds, has, attempts, attempt, task.index, choked);
    }
    outcome := TryTask(t, client, dp, attempt, task, hash, slot);
    if outcome.Crashed? { CrashOf(t, client, attempts, attempt, task.index, has, choked); }
  }

  /** The books after a piece that passed the check. */
  method Book(t: Torrent, hash: M.Hash, dp: DownloadProgress, task: PieceTask, had: int, ghost tasks: seq<PieceTask>,
              ghost i: nat, ghost responses: seq<PieceResult>, ghost piece: PieceResult) returns (left: int)
    requires i < |tasks| && task == tasks[i] && task.length == t.PieceLength(task.index) && 0 <= t.length <= MAX_INT
    requires piece.index == task.index && Checked(t, hash, piece) && dp.bitfield.Length == BITFIELD_LENGTH
    requires Accounts(t, hash, tasks, responses, dp.pendingPieces, dp.downloaded, had, dp.bitfield[..])
    modifies dp, dp.bitfield
    ensures dp.requested == old(dp.requested) - task.length
    ensures Accounts(t, hash, tasks[..i] + tasks[i + 1..], responses + [piece], dp.pendingPieces, dp.downloaded, left,
                     dp.bitfield[..])
  {
    hide Accounts, HasPiece, Checked;
    CheckedLength(t, hash, piece);
    ghost var was := dp.bitfield[..];
    SetPiece(dp.bitfield, task.index);
    BookPiece(t, hash, tasks, i, responses, piece, dp.pendingPieces, dp.downloaded, had, was, dp.bitfield[..]);
    dp.pendingPieces := dp.pendingPieces - 1;
    dp.downloaded := dp.downloaded + task.length;
    dp.requested := dp.requested - task.length;
    left := (had - task.length) % UINT64;
  }

  /**
   * The task loop of one connection, for any behaviour of the peer and any number of attempts. Between
   * iterations the books are right: remaining tasks and delivered indices are 0..n-1 without repetition,
   * pendingPieces counts the former, downloaded + left is the length and left never wraps below 0, and of the
   * first 64 bits exactly those of delivered pieces are set. Every result sent on passed the check. Attempt a tries
   * index tried[a] and brings it if ok[a]: never without the peer's bit for it, and always with that bit when the peer
   * holds the piece. So a peer that holds the file delivers a piece with every attempt. When the loop has ended two
   * channels are closed, and closing one that was never made stops the program: done is made when there is a tracker,
   * keepAlive never.
   */
  method StartPeerDownload(t: Torrent, client: Client, dp: DownloadProgress, attempts: seq<Attempt>, hash: M.Hash,
                           done: Channel, keepAlive: Channel, ghost file: seq<Byte>, ghost holds: set<nat>)
      returns (responses: seq<PieceResult>, tasks: seq<PieceTask>, left: int, ending: Ending,
               ghost tried: seq<nat>, ghost ok: seq<bool>)
    requires 0 <= t.length <= MAX_INT && dp.bitfield != client.bitfield && dp.left == t.length
    requires dp.bitfield[..] == [0, 0, 0, 0, 0, 0, 0, 0] && dp.downloaded == 0 && dp.pendingPieces == |t.piecesHash|
    modifies dp, dp.bitfield, client, client.bitfield
    ensures forall r :: r in responses ==> Checked(t, hash, r)
    ensures |responses| <= |t.piecesHash|
    ensures ending != LoopCrashed ==>
              Accounts(t, hash, tasks, responses, dp.pendingPieces, dp.downloaded, left, dp.bitfield[..])
    ensures ending == LoopCrashed ==> CanCrash(t, client, attempts)
    ensures ending == StoppedAtClose <==> ending != LoopCrashed && tasks == [] && !(done == keepAlive == Made)
    ensures ending == Returned <==> ending != LoopCrashed && tasks == [] && done == keepAlive == Made
    ensures |tried| == |ok| <= |attempts|
    ensures ending != LoopCrashed ==> Played(t, attempts, ok) == Play(tasks, tried, ResultIndices(responses))
                                      && (tasks == [] || |ok| == |attempts|)
    ensures forall a :: 0 <= a < |ok| && ok[a] ==> HasPiece(client.bitfield[..], tried[a]) == Value(true)
    ensures (forall a :: 0 <= a < |ok| ==> ok[a]) && ending != LoopCrashed ==> dp.requested == old(dp.requested)
    ensures Seeded(t, file, hash, holds, old(client.bitfield[..]), attempts) ==>
              ending != LoopCrashed
              && forall a :: 0 <= a < |ok| ==>
                   tried[a] in holds && HasPiece(old(client.bitfield[..]), tried[a]) == Value(true) ==> ok[a]
    ensures Seeded(t, file, hash, holds, old(client.bitfield[..]), attempts)
            && HasAllPieces(t, old(client.bitfield[..])) && Upto(|t.piecesHash|) <= holds ==>
              |responses| == Min(|attempts|, |t.piecesHash|)
  {
    hide Accounts, HasPiece, Task, Checked, Seeded, CanCrash, Delivers, Total, KeepsPieces, Stops, Played,
         ResultIndices, Logged;
    ghost var seeded := Seeded(t, file, hash, holds, client.bitfield[..], attempts);
    ghost var had := client.bitfield[..];
    responses, tasks, left, tried, ok := [], InitialTasks(t), dp.left, [], [];
    OpenAccounts(t, hash, dp.bitfield[..]);
    PlayedStart(t, attempts, had, holds, seeded);
    var a := 0;
    while |tasks| > 0 && a < |attempts|
      invariant a <= |attempts| && client.bitfield == old(client.bitfield)
      invariant dp.bitfield.Length == BITFIELD_LENGTH
      invariant Accounts(t, hash, tasks, responses, dp.pendingPieces, dp.downloaded, left, dp.bitfield[..])
      invariant forall r :: r in responses ==> Checked(t, hash, r)
      invariant |tasks| + |responses| == |t.piecesHash|
      invariant |ok| == a && |client.bitfield[..]| == |had|
      invariant Logged(t, attempts, had, client.bitfield[..], holds, seeded, tried, ok, tasks, responses)
      invariant AllOk(ok) ==> dp.requested == old(dp.requested)
      decreases |attempts| - a
    {
      var attempt := attempts[a];
      a := a + 1;
      var i := attempt.choice % |tasks|;
      ghost var all := tasks;
      KeepAccounts(t, hash, tasks, i, responses, dp.pendingPieces, dp.downloaded, left, dp.bitfield[..]);
      var task := tasks[i];
      tasks := tasks[..i] + tasks[i + 1..];
      ghost var has := client.bitfield[..];
      var outcome := TryNext(t, client, dp, attempts, attempt, task, hash, file, holds, had, seeded);
      if outcome.Crashed? { return responses, tasks, left, LoopCrashed, [], []; }
      LogStep(t, attempts, had, has, client.bitfield[..], holds, seeded, tried, ok, all, responses, outcome);
      AllOkAdd(ok, outcome.Got?);
      tried, ok := tried + [task.index], ok + [outcome.Got?];
      if outcome.Failed? {
        tasks := tasks + [task];
        continue;
      }
      left := Book(t, hash, dp, task, left, all, i, responses, outcome.piece);
      responses := responses + [outcome.piece];
    }
    AccountsCount(t, hash, tasks, responses, dp.pendingPieces, dp.downloaded, left, dp.bitfield[..]);
    LoggedFacts(t, attempts, had, client.bitfield[..], holds, seeded, tried, ok, tasks, responses);
    if seeded && HasAllPieces(t, had) && Upto(|t.piecesHash|) <= holds {
      AllSucceed(t, attempts, ok, Play(tasks, tried, ResultIndices(responses)), holds, had);
    }
    if |tasks| > 0 { return responses, tasks, left, Trying, tried, ok; }
    ending := CloseChannels(done, keepAlive);
  }

  /** Every index that was brought has its bit in the peer's bitfield. */
  ghost predicate HadBits(bitfield: seq<Byte>, tried: seq<nat>, ok: seq<bool>) {
    |tried| == |ok| && forall a :: 0 <= a < |ok| ==> ok[a] ==> HasPiece(bitfield, tried[a]) == Value(true)
  }

  /** Every attempt at a piece the peer holds, and had announced before the loop began, succeeds. */
  ghost predicate HeldSucceed(had: seq<Byte>, holds: set<nat>, tried: seq<nat>, ok: seq<bool>) {
    |tried| == |ok|
    && forall a :: 0 <= a < |ok| ==> tried[a] in holds && HasPiece(had, tried[a]) == Value(true) ==> ok[a]
  }

  predicate AllOk(ok: seq<bool>) {
    forall a :: 0 <= a < |ok| ==> ok[a]
  }

  lemma AllOkAdd(ok: seq<bool>, b: bool)
    ensures AllOk(ok + [b]) <==> AllOk(ok) && b
  {
    assert (ok + [b])[|ok|] == b;
    if AllOk(ok + [b]) { forall a | 0 <= a < |ok| ensures ok[a] { assert (ok + [b])[a]; } }
  }

  /** What is known about the attempts so far. */
  ghost predicate Logged(t: Torrent, attempts: seq<Attempt>, had: seq<Byte>, has: seq<Byte>, holds: set<nat>,
                         seeded: bool, tried: seq<nat>, ok: seq<bool>, tasks: seq<PieceTask>,
                         responses: seq<PieceResult>) {
    |ok| <= |attempts| && Played(t, attempts, ok) == Play(tasks, tried, ResultIndices(responses))
    && KeepsPieces(had, has) && HadBits(has, tried, ok) && (seeded ==> HeldSucceed(had, holds, tried, ok))
  }

  lemma LoggedFacts(t: Torrent, attempts: seq<Attempt>, had: seq<Byte>, has: seq<Byte>, holds: set<nat>, seeded: bool,
                    tried: seq<nat>, ok: seq<bool>, tasks: seq<PieceTask>, responses: seq<PieceResult>)
    requires Logged(t, attempts, had, has, holds, seeded, tried, ok, tasks, responses)
    ensures |tried| == |ok| && Played(t, attempts, ok) == Play(tasks, tried, ResultIndices(responses))
    ensures forall a :: 0 <= a < |ok| && ok[a] ==> HasPiece(has, tried[a]) == Value(true)
    ensures seeded ==>
              forall a :: 0 <= a < |ok| ==> tried[a] in holds && HasPiece(had, tried[a]) == Value(true) ==> ok[a]
  {
    hide HasPiece, Played, ResultIndices;
  }

  lemma PlayedStart(t: Torrent, attempts: seq<Attempt>, had: seq<Byte>, holds: set<nat>, seeded: bool)
    ensures Logged(t, attempts, had, had, holds, seeded, [], [], InitialTasks(t), [])
  {
    hide HasPiece;
    KeepsAll(had);
  }

  /** One more attempt that did not stop the program. */
  lemma LogStep(t: Torrent, attempts: seq<Attempt>, had: seq<Byte>, before: seq<Byte>, after: seq<Byte>,
                holds: set<nat>, seeded: bool, tried: seq<nat>, ok: seq<bool>, tasks: seq<PieceTask>,
                responses: seq<PieceResult>, outcome: Outcome)
    requires Logged(t, attempts, had, before, holds, seeded, tried, ok, tasks, responses)
    requires |ok| < |attempts| && tasks != [] && KeepsPieces(before, after)
    requires var index := tasks[attempts[|ok|].choice % |tasks|].index;
             (outcome.Got? ==> HasPiece(before, index) == Value(true) && outcome.piece.index == index)
             && (seeded && index in holds && HasPiece(before, index) == Value(true) ==> outcome.Got?)
    ensures var i := attempts[|ok|].choice % |tasks|;
            var rest, tried', ok' := tasks[..i] + tasks[i + 1..], tried + [tasks[i].index], ok + [outcome.Got?];
            if outcome.Got? then
              Logged(t, attempts, had, after, holds, seeded, tried', ok', rest, responses + [outcome.piece])
            else Logged(t, attempts, had, after, holds, seeded, tried', ok', rest + [tasks[i]], responses)
  {
    hide HasPiece, Played, ResultIndices, KeepsPieces, HadBits, HeldSucceed;
    var index := tasks[attempts[|ok|].choice % |tasks|].index;
    PlayedStep(t, attempts, ok, outcome.Got?, Play(tasks, tried, ResultIndices(responses)));
    if outcome.Got? { ResultIndicesAdd(responses, outcome.piece); }
    KeepsTransitive(had, before, after);
    KeptBits(before, after, tried, ok, index, outcome.Got?);
    if seeded {
      if HasPiece(had, index) == Value(true) { KeptAt(had, before, index); }
      HeldAdd(had, holds, tried, ok, index, outcome.Got?);
    }
  }

  lemma SeededHas(t: Torrent, file: seq<Byte>, hash: M.Hash, holds: set<nat>, had: seq<Byte>, has: seq<Byte>,
                  attempts: seq<Attempt>)
    requires Seeded(t, file, hash, holds, had, attempts) && |has| == |had|
    ensures Seeded(t, file, hash, holds, has, attempts)
  {
    hide Seeds, TorrentOf;
  }

  /** The peer has the pieces it had, and the one just delivered if there is one. */
  lemma KeptBits(before: seq<Byte>, after: seq<Byte>, tried: seq<nat>, ok: seq<bool>, index: nat, got: bool)
    requires HadBits(before, tried, ok) && KeepsPieces(before, after)
    requires got ==> HasPiece(before, index) == Value(true)
    ensures HadBits(after, tried + [index], ok + [got])
  {
    hide HasPiece;
  }

  lemma KeptAt(had: seq<Byte>, before: seq<Byte>, index: nat)
    requires KeepsPieces(had, before) && HasPiece(had, index) == Value(true)
    ensures HasPiece(before, index) == Value(true)
  {
    hide HasPiece;
  }

  lemma HeldAdd(had: seq<Byte>, holds: set<nat>, tried: seq<nat>, ok: seq<bool>, index: nat, got: bool)
    requires HeldSucceed(had, holds, tried, ok)
    requires index in holds && HasPiece(had, index) == Value(true) ==> got
    ensures HeldSucceed(had, holds, tried + [index], ok + [got])
  {
    hide HasPiece;
  }

  /** Every piece is held and announced: each attempt succeeds until no task is left. */
  lemma AllSucceed(t: Torrent, attempts: seq<Attempt>, ok: seq<bool>, p: Play, holds: set<nat>, had: seq<Byte>)
    requires |ok| <= |attempts| && p == Played(t, attempts, ok) && |p.tried| == |ok|
    requires HasAllPieces(t, had) && Upto(|t.piecesHash|) <= holds
    requires forall a :: 0 <= a < |ok| ==> p.tried[a] in holds && HasPiece(had, p.tried[a]) == Value(true) ==> ok[a]
    requires |p.tasks| + |p.delivered| == |t.piecesHash| && (p.tasks == [] || |ok| == |attempts|)
    ensures |p.delivered| == Min(|attempts|, |t.piecesHash|)
  {
    hide HasPiece, Played, Upto;
    TriedInRange(t, attempts, ok);
    forall a | 0 <= a < |ok| ensures ok[a] { assert p.tried[a] < |t.piecesHash|; }
    AllPlayed(t, attempts, ok);
  }

  lemma {:induction false} TriedInRange(t: Torrent, attempts: seq<Attempt>, ok: seq<bool>)
    requires |ok| <= |attempts|
    ensures forall a :: 0 <= a < |Played(t, attempts, ok).tried| ==>
                          Played(t, attempts, ok).tried[a] < |t.piecesHash|
    ensures forall task :: task in Played(t, attempts, ok).tasks ==> task.index < |t.piecesHash|
  {
    if ok != [] {
      TriedInRange(t, attempts, ok[..|ok| - 1]);
      var p := Played(t, attempts, ok[..|ok| - 1]);
      if p.tasks != [] { assert p.tasks[attempts[|ok| - 1].choice % |p.tasks|] in p.tasks; }
    }
  }

  // ---- a whole download from one peer ----

  /** Building the metainfo of a file and opening it gives the torrent of the file. */
  method PublishAndOpen(file: seq<Byte>, hash: M.Hash) returns (r: Parsed<Torrent>)
    ensures r.Ok? && TorrentOf(r.value, file, hash) && r.value.pieceLength == 256 && r.value.length == |file|
    ensures |r.value.piecesHash| == if |file| < 256 then 1 else |file| / 256
    ensures |file| < 256 ==> r.value.piecesHash == [hash(file)]
    ensures |file| >= 256 ==>
              forall i :: 0 <= i < |file| / 256 ==> r.value.piecesHash[i] == hash(file[256 * i..256 * (i + 1)])
  {
    hide M.HashAt;
    var pieces := M.BuildPieces(file, hash);
    var hashes := M.SplitPiecesHash(pieces);
    var n := M.PieceCount(M.PIECE_LENGTH, |file|);
    forall i | 0 <= i < n ensures M.HashAt(pieces, i) == hash(M.Slot(file, M.PIECE_LENGTH, i)) {
      M.SlotHashAt(file, M.PIECE_LENGTH, n, hash, i);
    }
    if |file| < 256 { OneHash(pieces); }
    r := Ok(Torrent(hashes.value, M.PIECE_LENGTH, |file|));
  }

  lemma OneHash(pieces: seq<Byte>)
    requires |pieces| == M.HASH_LENGTH
    ensures M.HashAt(pieces, 0) == pieces
  {
  }

  /** When no task is left every index was delivered, once. */
  lemma AllDelivered(t: Torrent, delivered: seq<PieceResult>)
    requires Partition(t, [], delivered)
    ensures |delivered| == |t.piecesHash|
    ensures forall i: nat :: i < |t.piecesHash| ==> i in ResultIndices(delivered)
  {
    assert multiset(ResultIndices(delivered)) == multiset(Indices(|t.piecesHash|));
    assert |multiset(ResultIndices(delivered))| == |delivered|;
    assert |multiset(Indices(|t.piecesHash|))| == |t.piecesHash|;
    forall i: nat | i < |t.piecesHash| ensures i in ResultIndices(delivered) {
      IndicesOnce(|t.piecesHash|, i);
      assert i in multiset(ResultIndices(delivered));
    }
  }

  /** How many results the channel holds, and the collector at most, while later ones are sent. */
  const UNCOLLECTED := 9

  /**
   * A whole download over one connection: delivered is what the connection sent on, lag how many of these the
   * collector had not copied when the program stopped or the attempts ran out (the channel holds eight). DownloadFile
   * waits for the connection, so it returns only when StartPeerDownload does, and then, whatever the peer sent, the
   * buffer holds the covered part of the file. With a channel left unmade, as keepAlive always is, it stops the
   * program instead, with every index delivered and all but the last few slots in the buffer checked. A peer that
   * holds the file gets it to that point within as many attempts as there are pieces.
   */
  method DownloadFile(t: Torrent, client: Client, dp: DownloadProgress, attempts: seq<Attempt>, hash: M.Hash,
                      done: Channel, keepAlive: Channel, lag: nat, ghost file: seq<Byte>)
      returns (buf: array<Byte>, ending: Ending, ghost delivered: seq<PieceResult>)
    requires 0 <= t.length <= MAX_INT && dp.bitfield != client.bitfield && dp.left == t.length
    requires dp.bitfield[..] == [0, 0, 0, 0, 0, 0, 0, 0] && dp.downloaded == 0 && dp.pendingPieces == |t.piecesHash|
    modifies dp, dp.bitfield, client, client.bitfield
    ensures buf.Length == t.length
    ensures ending == Returned ==> done == keepAlive == Made
    ensures ending == StoppedAtClose ==> !(done == keepAlive == Made)
    ensures ending == Returned && TorrentOf(t, file, hash) && M.Unforgeable(hash, file, t.pieceLength) ==>
              var covered := if |file| < t.pieceLength then |file| else |file| - |file| % t.pieceLength;
              0 <= covered <= |file| && buf[..covered] == file[..covered]
    ensures ending == Returned || ending == StoppedAtClose ==>
              |delivered| == |t.piecesHash| && forall i: nat :: i < |t.piecesHash| ==> i in ResultIndices(delivered)
    ensures forall k :: 0 <= k < |delivered| - UNCOLLECTED ==> SlotChecked(t, hash, buf[..], delivered[k].index)
    ensures SeededAll(t, file, hash, old(client.bitfield[..]), attempts) && |attempts| >= |t.piecesHash| ==>
              ending == if done == keepAlive == Made then Returned else StoppedAtClose
  {
    hide Accounts, SlotChecked, Partition, Seeded, CanCrash, M.Unforgeable, Checked, ResultIndices, Played, HasPiece;
    var responses, tasks, left;
    ghost var tried, ok;
    responses, tasks, left, ending, tried, ok :=
      StartPeerDownload(t, client, dp, attempts, hash, done, keepAlive, file, Upto(|t.piecesHash|));
    delivered := responses;
    var copied := if ending == Returned then |responses| else Max(|responses| - Min(lag, UNCOLLECTED), 0);
    if ending != LoopCrashed {
      AccountsCount(t, hash, tasks, responses, dp.pendingPieces, dp.downloaded, left, dp.bitfield[..]);
    }
    var donePieces;
    buf, donePieces := Collect(t, hash, responses[..copied]);
    assert forall k :: 0 <= k < copied ==> responses[..copied][k] == responses[k];
    if ending == Returned || ending == StoppedAtClose {
      FinishedAccounts(t, hash, responses, dp.pendingPieces, dp.downloaded, left, dp.bitfield[..]);
      AllDelivered(t, responses);
    }
    if ending == Returned && TorrentOf(t, file, hash) && M.Unforgeable(hash, file, t.pieceLength) {
      AllSlotsChecked(t, hash, responses, buf[..]);
      SlotsOfFile(t, file, hash, buf[..]);
    }
  }

  lemma AllSlotsChecked(t: Torrent, hash: M.Hash, delivered: seq<PieceResult>, buf: seq<Byte>)
    requires forall i: nat :: i < |t.piecesHash| ==> i in ResultIndices(delivered)
    requires |buf| == t.length && forall k :: 0 <= k < |delivered| ==> SlotChecked(t, hash, buf, delivered[k].index)
    ensures forall i: nat :: i < |t.piecesHash| ==> SlotChecked(t, hash, buf, i)
  {
    hide SlotChecked;
    forall i: nat | i < |t.piecesHash| ensures SlotChecked(t, hash, buf, i) {
      assert i in ResultIndices(delivered);
      var k :| 0 <= k < |ResultIndices(delivered)| && ResultIndices(delivered)[k] == i;
      assert SlotChecked(t, hash, buf, delivered[k].index);
    }
  }

  /**
   * The download of any file from a peer that holds it ends with the program stopped: every piece was delivered and
   * checked, and DownloadFile does not return.
   */
  method DownloadFromSeeder(file: seq<Byte>, hash: M.Hash, done: Channel, lag: nat) returns (ending: Ending)
    requires |file| < WORD
    ensures ending == StoppedAtClose
  {
    hide TorrentOf, Seeds, HasPiece;
    var published := PublishAndOpen(file, hash);
    var t := published.value;
    TorrentSize(t, file, hash);
    var bitfield := new Byte[|t.piecesHash| / 8 + 1](_ => 0xff);
    var client := new Client(bitfield);
    var dp := new DownloadProgress(t);
    var attempts := seq(|t.piecesHash|, _ => Seeder(t, file, 0));
    SeederExists(t, file, hash, Upto(|t.piecesHash|), 0);
    forall i: nat | i < |t.piecesHash| ensures HasPiece(bitfield[..], i) == Value(true) {
      HasPieceBit(bitfield[..], i);
      AllBits(i % 8);
    }
    assert SeededAll(t, file, hash, bitfield[..], attempts);
    var _, e, _ := DownloadFile(t, client, dp, attempts, hash, done, DONE_KEEP_ALIVE_TO_DHT, lag, file);
    ending := e;
  }

  lemma TorrentSize(t: Torrent, file: seq<Byte>, hash: M.Hash)
    requires TorrentOf(t, file, hash) && |file| < WORD && t.pieceLength == M.PIECE_LENGTH
    ensures Addressable(t) && 0 <= t.length == |file| < WORD
  {
  }

  lemma AllBits(j: nat)
    requires j < 8
    ensures BitAt(0xff, j)
  {
  }

  lemma FinishedAccounts(t: Torrent, hash: M.Hash, delivered: seq<PieceResult>, pendingPieces: int, downloaded: int,
                         left: int, bitfield: seq<Byte>)
    requires Accounts(t, hash, [], delivered, pendingPieces, downloaded, left, bitfield)
    ensures Partition(t, [], delivered)
  {
  }

  lemma SlotsOfFile(t: Torrent, file: seq<Byte>, hash: M.Hash, buf: seq<Byte>)
    requires TorrentOf(t, file, hash) && |buf| == t.length && M.Unforgeable(hash, file, t.pieceLength)
    requires forall i: nat :: i < |t.piecesHash| ==> SlotChecked(t, hash, buf, i)
    ensures var covered := if |file| < t.pieceLength then |file| else |file| - |file| % t.pieceLength;
            0 <= covered <= |file| && buf[..covered] == file[..covered]
  {
    forall i | 0 <= i < |t.piecesHash|
      ensures M.InFile(t.pieceLength, |file|, i)
      ensures hash(M.Slot(buf, t.pieceLength, i)) == hash(M.Slot(file, t.pieceLength, i))
    {
      assert SlotChecked(t, hash, buf, i);
    }
    M.HashesDetermine(file, buf, t.pieceLength, hash);
  }
}
