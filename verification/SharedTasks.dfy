/**
 * Several connections of one download. They share the array behind the slice of tasks: remove shifts its cells in place
 * and append writes the cell behind the end, each connection with a length of its own (StartPeerDownload and remove in
 * torrent_peer.go, DownloadFile in torrent.go).
 */
module SharedTasks {
  import opened Bytes
  import opened Numbers
  import opened Outcomes
  import opened Messages
  import opened Transfer
  import opened Download
  import M = Metainfo

  /** The length of its slice, the task it works on, and the cell it has to fill next while it removes that task. */
  datatype Connection = Connection(length: nat, held: Option<PieceTask>, gap: Option<nat>)

  datatype Shared = Shared(cells: seq<PieceTask>, connections: seq<Connection>, sent: seq<PieceResult>)

  /** The steps of connection k. Removing takes one step for each cell, so the others may come in between. */
  datatype Step =
    | Take(k: nat, i: nat)
    | Shift(k: nat)
    | Close(k: nat)
    | PutBack(k: nat)
    | Send(k: nat, piece: PieceResult)

  predicate Enabled(hash: M.Hash, w: Shared, s: Step) {
    s.k < |w.connections|
    && var c := w.connections[s.k];
       match s
       case Take(k, i) => c.held == None && c.gap == None && i < c.length <= |w.cells|
       case Shift(k) => c.gap.Some? && c.gap.value + 1 < c.length <= |w.cells|
       case Close(k) => c.gap.Some? && c.gap.value + 1 == c.length
       case PutBack(k) => c.held.Some? && c.gap == None && c.length < |w.cells|
       case Send(k, piece) =>
         c.held.Some? && c.gap == None
         && piece.index == c.held.value.index && |piece.piece| == c.held.value.length
         && Check(hash, piece, c.held.value)
  }

  function After(hash: M.Hash, w: Shared, s: Step): Shared
    requires Enabled(hash, w, s)
  {
    var c := w.connections[s.k];
    match s
    case Take(k, i) => w.(connections := w.connections[k := c.(held := Some(w.cells[i]), gap := Some(i))])
    case Shift(k) =>
      var j := c.gap.value;
      w.(cells := w.cells[j := w.cells[j + 1]], connections := w.connections[k := c.(gap := Some(j + 1))])
    case Close(k) => w.(connections := w.connections[k := c.(length := c.length - 1, gap := None)])
    case PutBack(k) =>
      w.(cells := w.cells[c.length := c.held.value],
         connections := w.connections[k := c.(length := c.length + 1, held := None)])
    case Send(k, piece) =>
      w.(sent := w.sent + [piece], connections := w.connections[k := c.(held := None)])
  }

  ghost predicate Runs(hash: M.Hash, w: Shared, steps: seq<Step>, w': Shared)
    decreases |steps|
  {
    if steps == [] then w == w'
    else Enabled(hash, w, steps[0]) && Runs(hash, After(hash, w, steps[0]), steps[1..], w')
  }

  /** Any number of connections, each with the whole slice. */
  predicate Init(t: Torrent, w: Shared) {
    w.cells == InitialTasks(t) && w.sent == []
    && forall c :: c in w.connections ==> c == Connection(|w.cells|, None, None)
  }

  predicate IsTask(t: Torrent, task: PieceTask) {
    task.index < |t.piecesHash| && task == Task(t, task.index)
  }

  /** What a connection works on is a task of the torrent, and its slice lies in the array. */
  predicate ConnectionOk(t: Torrent, c: Connection) {
    c.length <= |t.piecesHash|
    && (c.held.Some? ==> IsTask(t, c.held.value) && (c.gap == None ==> c.length < |t.piecesHash|))
    && (c.gap.Some? ==> c.held.Some? && c.gap.value < c.length)
  }

  ghost predicate Inv(t: Torrent, hash: M.Hash, w: Shared) {
    |w.cells| == |t.piecesHash|
    && (forall task :: task in w.cells ==> IsTask(t, task))
    && (forall c :: c in w.connections ==> ConnectionOk(t, c))
    && (forall r :: r in w.sent ==> Checked(t, hash, r))
  }

  lemma InitKeeps(t: Torrent, hash: M.Hash, w: Shared)
    requires Init(t, w)
    ensures Inv(t, hash, w)
  {
  }

  lemma StepKeeps(t: Torrent, hash: M.Hash, w: Shared, s: Step)
    requires Inv(t, hash, w) && Enabled(hash, w, s)
    ensures Inv(t, hash, After(hash, w, s))
  {
    hide IsTask, Checked, Check;
    var c, w' := w.connections[s.k], After(hash, w, s);
    assert c in w.connections;
    match s {
      case Take(k, i) => assert w.cells[i] in w.cells;
      case Shift(k) => assert w.cells[c.gap.value + 1] in w.cells;
      case Close(k) =>
      case PutBack(k) =>
      case Send(k, piece) => SentChecked(t, hash, c.held.value, piece);
    }
  }

  lemma SentChecked(t: Torrent, hash: M.Hash, task: PieceTask, piece: PieceResult)
    requires IsTask(t, task) && piece.index == task.index && |piece.piece| == task.length && Check(hash, piece, task)
    ensures Checked(t, hash, piece)
  {
  }

  lemma {:induction false} RunsKeep(t: Torrent, hash: M.Hash, w: Shared, steps: seq<Step>, w': Shared)
    requires Inv(t, hash, w) && Runs(hash, w, steps, w')
    ensures Inv(t, hash, w')
    decreases |steps|
  {
    hide Inv, Enabled, After;
    if steps != [] {
      StepKeeps(t, hash, w, steps[0]);
      RunsKeep(t, hash, After(hash, w, steps[0]), steps[1..], w');
    }
  }

  // ---- a connection that is not interrupted ----

  /** The slice of connection k. */
  function TasksOf(w: Shared, k: nat): seq<PieceTask>
    requires k < |w.connections| && w.connections[k].length <= |w.cells|
  {
    w.cells[..w.connections[k].length]
  }

  function Shifts(k: nat, n: nat): seq<Step> {
    if n == 0 then [] else [Shift(k)] + Shifts(k, n - 1)
  }

  lemma {:induction false} RunsTogether(hash: M.Hash, w: Shared, first: seq<Step>, w': Shared, second: seq<Step>,
                                        w'': Shared)
    requires Runs(hash, w, first, w') && Runs(hash, w', second, w'')
    ensures Runs(hash, w, first + second, w'')
    decreases |first|
  {
    hide Enabled, After;
    if first == [] {
      assert first + second == second;
    } else {
      RunsTogether(hash, After(hash, w, first[0]), first[1..], w', second, w'');
      assert (first + second)[0] == first[0] && (first + second)[1..] == first[1..] + second;
    }
  }

  /** Connection k after closing the gap up to the last cell of its slice. */
  function Shifted(w: Shared, k: nat): Shared
    requires k < |w.connections| && w.connections[k].gap.Some?
    requires w.connections[k].gap.value < w.connections[k].length <= |w.cells|
  {
    var c, j := w.connections[k], w.connections[k].gap.value;
    Shared(w.cells[..j] + w.cells[j + 1..c.length] + w.cells[c.length - 1..],
           w.connections[k := c.(gap := Some(c.length - 1))], w.sent)
  }

  lemma ShiftFirst(hash: M.Hash, w: Shared, k: nat)
    requires Enabled(hash, w, Shift(k))
    ensures Shifted(After(hash, w, Shift(k)), k) == Shifted(w, k)
  {
    var c, j, w' := w.connections[k], w.connections[k].gap.value, After(hash, w, Shift(k));
    assert w'.cells[..j + 1] == w.cells[..j] + [w.cells[j + 1]];
    assert w'.cells[j + 2..c.length] == w.cells[j + 2..c.length];
    assert w.cells[j + 1..c.length] == [w.cells[j + 1]] + w.cells[j + 2..c.length];
    assert w'.cells[c.length - 1..] == w.cells[c.length - 1..];
  }

  lemma {:induction false} ShiftsAlone(hash: M.Hash, w: Shared, k: nat, n: nat)
    requires k < |w.connections| && w.connections[k].gap.Some?
    requires w.connections[k].gap.value + n + 1 == w.connections[k].length <= |w.cells|
    ensures Runs(hash, w, Shifts(k, n), Shifted(w, k))
    decreases n
  {
    if n == 0 {
      assert w.connections[k := w.connections[k]] == w.connections;
      assert Shifted(w, k) == w;
    } else {
      ShiftFirst(hash, w, k);
      ShiftsAlone(hash, After(hash, w, Shift(k)), k, n - 1);
    }
  }

  /** The steps of remove: the task is taken out of the slice, whose other tasks keep their order. */
  lemma RemoveAlone(hash: M.Hash, w: Shared, k: nat, i: nat) returns (w': Shared)
    requires Enabled(hash, w, Take(k, i))
    ensures Runs(hash, w, [Take(k, i)] + Shifts(k, w.connections[k].length - 1 - i) + [Close(k)], w')
    ensures |w'.connections| == |w.connections| && |w'.cells| == |w.cells| && w'.sent == w.sent
    ensures w'.connections[k] == Connection(w.connections[k].length - 1, Some(w.cells[i]), None)
    ensures TasksOf(w', k) == TasksOf(w, k)[..i] + TasksOf(w, k)[i + 1..]
  {
    var c := w.connections[k];
    var n := c.length - 1 - i;
    var taken := After(hash, w, Take(k, i));
    ShiftsAlone(hash, taken, k, n);
    var shifted := Shifted(taken, k);
    w' := After(hash, shifted, Close(k));
    assert Runs(hash, w, [Take(k, i)], taken) by { assert Runs(hash, taken, [], taken); }
    RunsTogether(hash, w, [Take(k, i)], taken, Shifts(k, n), shifted);
    assert Runs(hash, shifted, [Close(k)], w') by { assert Runs(hash, w', [], w'); }
    RunsTogether(hash, w, [Take(k, i)] + Shifts(k, n), shifted, [Close(k)], w');
  }

  /** Putting it back appends it: alone, a connection turns its slice into the one that Played computes. */
  lemma PutBackAlone(hash: M.Hash, w: Shared, k: nat)
    requires Enabled(hash, w, PutBack(k))
    ensures var c, w' := w.connections[k], After(hash, w, PutBack(k));
            w'.connections[k] == Connection(c.length + 1, None, None) && w'.sent == w.sent
            && TasksOf(w', k) == TasksOf(w, k) + [c.held.value]
  {
  }

  /** append never needs a longer array: putting a task back always finds the cell its removal left. */
  lemma PutBackFits(t: Torrent, hash: M.Hash, w: Shared, k: nat)
    requires Inv(t, hash, w) && k < |w.connections|
    requires w.connections[k].held.Some? && w.connections[k].gap == None
    ensures Enabled(hash, w, PutBack(k))
  {
    assert w.connections[k] in w.connections;
  }

  /** After any run of any number of connections, whatever got lost or doubled on the way: what was sent is checked. */
  lemma AllSentChecked(t: Torrent, hash: M.Hash, w0: Shared, steps: seq<Step>, w: Shared)
    requires Init(t, w0) && Runs(hash, w0, steps, w)
    ensures forall r :: r in w.sent ==> Checked(t, hash, r)
    ensures forall task :: task in w.cells ==> IsTask(t, task)
  {
    hide Runs, Init, IsTask, Checked;
    InitKeeps(t, hash, w0);
    RunsKeep(t, hash, w0, steps, w);
  }

  /** A connection that holds a task works on it with TryTask, and what it does next is a step. */
  method Work(t: Torrent, client: Client, dp: DownloadProgress, attempt: Attempt, hash: M.Hash, w: Shared, k: nat,
              ghost slot: seq<Byte>) returns (outcome: Outcome)
    requires Inv(t, hash, w) && k < |w.connections| && dp.bitfield != client.bitfield
    requires w.connections[k].held.Some? && w.connections[k].gap == None
    modifies dp`requested, client, client.bitfield
    ensures client.bitfield == old(client.bitfield)
    ensures outcome.Got? ==> Enabled(hash, w, Send(k, outcome.piece))
    ensures outcome.Failed? ==> Enabled(hash, w, PutBack(k))
    ensures outcome.Crashed? ==> var task := w.connections[k].held.value;
                                 HasPiece(old(client.bitfield[..]), task.index) == Panic || task.length < 0
                                 || None in attempt.messages(task.index, old(client.choked))
    ensures var task, inbox := w.connections[k].held.value,
                               attempt.messages(w.connections[k].held.value.index, old(client.choked));
            HasPiece(old(client.bitfield[..]), task.index) == Value(true)
            && |slot| == task.length && hash(slot) == task.hash && task.index < WORD && |slot| <= WORD
            && Delivers(Window(old(client.choked), 0, {}), task.index, slot, inbox)
            && attempt.writes > Total(|slot|) ==>
              outcome == Got(PieceResult(task.index, slot))
  {
    hide HasPiece, Delivers, Total, Stops;
    assert w.connections[k] in w.connections;
    PutBackFits(t, hash, w, k);
    outcome := TryTask(t, client, dp, attempt, w.connections[k].held.value, hash, slot);
  }

  /**
   * The collector over all connections: the results arrive in the order they were sent, and every index that was
   * collected has a slot in the buffer with the hash of the torrent, duplicates included.
   */
  method CollectShared(t: Torrent, hash: M.Hash, responses: seq<PieceResult>, ghost w0: Shared, ghost steps: seq<Step>,
                       ghost w: Shared) returns (buf: array<Byte>, donePieces: nat)
    requires t.length >= 0 && Init(t, w0) && Runs(hash, w0, steps, w) && responses == w.sent
    ensures buf.Length == t.length
    ensures donePieces == Min(|responses|, |t.piecesHash|)
    ensures forall k :: 0 <= k < donePieces ==> SlotChecked(t, hash, buf[..], responses[k].index)
  {
    hide Runs, Init, SlotChecked, Checked;
    AllSentChecked(t, hash, w0, steps, w);
    buf, donePieces := Collect(t, hash, responses);
  }
}
