/** The tracker (tacker.go): its maps, its handlers and the selection of peers. */
module Trackers {
  import opened Bytes
  import opened Numbers
  import opened Outcomes

  const OK := 1
  const ALREADYEXISTT := 2
  const ALREADYEXISTP := 3
  const UNKNOWNREDKEY := 5
  const FAILEDIP := 6
  const FAILEDPORT := 7
  const FAILED := 8

  const HASH_LENGTH := 20
  const DEFAULT_NUMWANT := 40

  datatype Peer = Peer(id: string, ip: string, port: int, state: string)
  datatype TorrentTk = TorrentTk(downloaded: nat, complete: nat, peers: map<string, Peer>)
  datatype BkTracker = BkTracker(ip: string, port: int)

  type InfoHash = seq<Byte>
  type Torrents = map<InfoHash, TorrentTk>
  type Backups = map<string, BkTracker>

  /** The ip fields hold what net.ParseIP makes of the text in the query: None when it does not parse. */
  datatype PublishQuery = PublishQuery(infoHash: InfoHash, peerID: string, ip: Option<string>, port: int)
  datatype RePublishQuery =
    RePublishQuery(redKey: seq<Byte>, infoHash: InfoHash, peerID: string, ip: Option<string>, port: int)
  datatype KnowMeQuery = KnowMeQuery(redKey: seq<Byte>, ip: Option<string>, port: int)
  datatype AnnounceQuery = AnnounceQuery(infoHash: InfoHash, peerID: string, ip: Option<string>, port: int,
                                         event: string, numWant: nat, request: bool)

  /** A RePublish request on its way to the tracker at an address. */
  datatype Envelope = Envelope(to: string, query: RePublishQuery)

  /** NoReply and NoAnswer: the handler waits for a lock that nobody will release. Panics: it stops the program. */
  datatype Reply = Refused | NoReply | Status(status: int)
  datatype AnnounceResult = Failure | NoAnswer | Panics | Answer(reply: AnnounceReply)
  datatype AnnounceReply =
    AnnounceReply(interval: nat, complete: nat, incomplete: nat, peers: map<string, string>)

  // ---- what the handlers do to the maps ----

  /** The fields Publish and RePublish insist on. */
  predicate Acceptable(infoHash: InfoHash, peerID: string, ip: Option<string>, port: int) {
    |infoHash| == HASH_LENGTH && peerID != "" && ip.Some? && port != 0
  }

  function Published(ts: Torrents, infoHash: InfoHash, peer: Peer): Torrents {
    if infoHash !in ts then ts[infoHash := TorrentTk(0, 1, map[peer.id := peer])]
    else if peer.id in ts[infoHash].peers then ts
    else ts[infoHash := ts[infoHash].(peers := ts[infoHash].peers[peer.id := peer])]
  }

  function PublishStatus(ts: Torrents, infoHash: InfoHash, peerID: string): int {
    if infoHash !in ts then OK else if peerID in ts[infoHash].peers then ALREADYEXISTP else ALREADYEXISTT
  }

  /** The tracker lists the peer under the torrent. */
  predicate Holds(ts: Torrents, infoHash: InfoHash, peerID: string) {
    infoHash in ts && peerID in ts[infoHash].peers
  }

  /** Nothing that is listed disappears. */
  ghost predicate Grows(ts: Torrents, ts': Torrents) {
    forall h, p :: Holds(ts, h, p) ==> Holds(ts', h, p)
  }

  /** The maps after a publication, entry by entry: a peer that was listed keeps the record it had. */
  lemma PublishedExactly(ts: Torrents, infoHash: InfoHash, peer: Peer)
    ensures var ts' := Published(ts, infoHash, peer);
            ts'.Keys == ts.Keys + {infoHash}
            && (infoHash !in ts ==> ts'[infoHash] == TorrentTk(0, 1, map[peer.id := peer]))
            && (infoHash in ts ==>
                  ts'[infoHash].downloaded == ts[infoHash].downloaded && ts'[infoHash].complete == ts[infoHash].complete
                  && ts'[infoHash].peers.Keys == ts[infoHash].peers.Keys + {peer.id}
                  && (peer.id !in ts[infoHash].peers ==> ts'[infoHash].peers[peer.id] == peer)
                  && forall p :: p in ts[infoHash].peers ==> ts'[infoHash].peers[p] == ts[infoHash].peers[p])
            && forall h :: h in ts && h != infoHash ==> ts'[h] == ts[h]
  {
  }

  lemma PublishedHolds(ts: Torrents, infoHash: InfoHash, peer: Peer)
    ensures Holds(Published(ts, infoHash, peer), infoHash, peer.id)
    ensures Grows(ts, Published(ts, infoHash, peer))
    ensures Published(ts, infoHash, peer).Keys == ts.Keys + {infoHash}
  {
  }

  function JoinHostPort(host: string, port: int): string {
    if ':' in host then "[" + host + "]:" + Decimal(port) else host + ":" + Decimal(port)
  }

  /** The plain form "ip:port", which differs from JoinHostPort for an IPv6 address. */
  function HostPort(ip: string, port: int): string {
    ip + ":" + Decimal(port)
  }

  function Decimal(n: int): string
    decreases if n < 0 then 1 - n else n
  {
    if n < 0 then "-" + Decimal(-n)
    else if n < 10 then [('0' as int + n) as char]
    else Decimal(n / 10) + [('0' as int + n % 10) as char]
  }

  /** The number that a string of digits stands for. */
  function Reading(digits: string): int {
    if digits == "" then 0
    else 10 * Reading(digits[..|digits| - 1]) + (digits[|digits| - 1] as int - '0' as int)
  }

  /** Decimal writes digits that read back as the number, with a sign when it is negative and without leading zeros. */
  lemma {:induction false} DecimalReads(n: int)
    ensures n >= 0 ==> Decimal(n) != "" && (forall c :: c in Decimal(n) ==> '0' <= c <= '9')
                       && Reading(Decimal(n)) == n && (Decimal(n)[0] == '0' ==> n == 0 && Decimal(n) == "0")
    ensures n < 0 ==> Decimal(n) == "-" + Decimal(-n)
    decreases if n < 0 then 1 - n else n
  {
    if n >= 10 {
      DecimalReads(n / 10);
      var init, last := Decimal(n / 10), ('0' as int + n % 10) as char;
      assert Decimal(n) == init + [last] && (init + [last])[..|init|] == init;
    } else if 0 <= n {
      assert Reading([]) == 0 && Decimal(n)[..0] == [];
    }
  }

  /** Different ports are written differently, and none with a colon. */
  lemma DecimalInjective(m: int, n: int)
    ensures ':' !in Decimal(n)
    ensures Decimal(m) == Decimal(n) ==> m == n
  {
    hide Decimal, Reading;
    DecimalSign(m);
    DecimalSign(n);
    if m >= 0 {
      DecimalReads(m);
      DecimalReads(n);
    } else {
      DecimalReads(-m);
      DecimalReads(-n);
      if Decimal(m) == Decimal(n) { assert Decimal(-m) == Decimal(m)[1..] == Decimal(n)[1..] == Decimal(-n); }
    }
  }

  lemma DecimalSign(n: int)
    ensures '-' in Decimal(n) <==> n < 0
    ensures ':' !in Decimal(n)
    ensures n < 0 ==> Decimal(n)[1..] == Decimal(-n)
  {
    hide Decimal, Reading;
    DecimalReads(n);
    DecimalReads(-n);
    if n < 0 { assert Decimal(n)[0] == '-'; }
  }

  lemma ColonLast(a: string, d: string)
    requires ':' !in d
    ensures (a + ":" + d)[|a|] == ':' && forall i :: |a| < i < |a + ":" + d| ==> (a + ":" + d)[i] != ':'
    ensures (a + ":" + d)[..|a|] == a && (a + ":" + d)[|a| + 1..] == d
  {
    forall i | |a| < i < |a + ":" + d| ensures (a + ":" + d)[i] != ':' {
      assert (a + ":" + d)[i] == d[i - |a| - 1];
    }
  }

  /** The text after the last colon. */
  lemma LastColon(a: string, d: string, b: string, e: string)
    requires ':' !in d && ':' !in e && a + ":" + d == b + ":" + e
    ensures a == b && d == e
  {
    ColonLast(a, d);
    ColonLast(b, e);
  }

  /**
   * An address names one host and one port, in either form, so a backup tracker is refused exactly when its host and
   * port are listed already. The two forms agree unless the host has a colon.
   */
  lemma AddressesDiffer(host: string, port: int, host': string, port': int)
    ensures JoinHostPort(host, port) == JoinHostPort(host', port') <==> host == host' && port == port'
    ensures HostPort(host, port) == HostPort(host', port') <==> host == host' && port == port'
    ensures JoinHostPort(host, port) == HostPort(host, port) <==> ':' !in host
  {
    hide Decimal;
    DecimalInjective(port, port');
    DecimalInjective(port', port);
    var d, d' := Decimal(port), Decimal(port');
    var a := if ':' in host then "[" + host + "]" else host;
    var a' := if ':' in host' then "[" + host' + "]" else host';
    assert JoinHostPort(host, port) == a + ":" + d && JoinHostPort(host', port') == a' + ":" + d';
    if JoinHostPort(host, port) == JoinHostPort(host', port') {
      LastColon(a, d, a', d');
      BracketsDiffer(host, host');
    }
    if HostPort(host, port) == HostPort(host', port') { LastColon(host, d, host', d'); }
    if ':' in host { assert |JoinHostPort(host, port)| == |HostPort(host, port)| + 2; }
  }

  lemma BracketsDiffer(host: string, host': string)
    requires (if ':' in host then "[" + host + "]" else host) == (if ':' in host' then "[" + host' + "]" else host')
    ensures host == host'
  {
    Unbracketed(host);
    Unbracketed(host');
  }

  lemma Unbracketed(host: string)
    ensures var b := if ':' in host then "[" + host + "]" else host;
            (':' in b <==> ':' in host) && (':' in host ==> |b| == |host| + 2 && b[1..|b| - 1] == host)
  {
    if i :| 0 <= i < |host| && host[i] == ':' { assert ("[" + host + "]")[i + 1] == ':'; }
  }

  predicate Announceable(q: AnnounceQuery) {
    Acceptable(q.infoHash, q.peerID, q.ip, q.port)
    && q.event in {"request", "started", "completed", "stopped"}
  }

  /** Setting the state of a peer that is not listed dereferences nil. */
  predicate AnnouncePanics(ts: Torrents, q: AnnounceQuery) {
    Announceable(q) && q.infoHash in ts && q.event == "stopped" && q.peerID !in ts[q.infoHash].peers
  }

  function Announced(ts: Torrents, q: AnnounceQuery): Torrents
    requires !AnnouncePanics(ts, q)
  {
    if !Announceable(q) || q.infoHash !in ts then ts
    else
      var t := ts[q.infoHash];
      if q.event == "started" && q.peerID !in t.peers then
        ts[q.infoHash := t.(peers := t.peers[q.peerID := Peer(q.peerID, q.ip.value, q.port, "started")])]
      else if q.event == "started" || q.event == "stopped" then
        ts[q.infoHash := t.(peers := t.peers[q.peerID := t.peers[q.peerID].(state := q.event)])]
      else ts
  }

  /** The announcement is accepted and says "started" or "stopped" of the asker. */
  predicate Heard(ts: Torrents, q: AnnounceQuery) {
    |q.infoHash| == 20 && q.peerID != "" && q.ip.Some? && q.port != 0 && q.infoHash in ts
    && (q.event == "started" || q.event == "stopped")
  }

  /**
   * The maps after an announcement, entry by entry. The asker's state becomes what it announced; a new asker is listed
   * with the address it gave and a known one keeps its own; nothing else changes, and nothing at all without one of the
   * two events.
   */
  ghost predicate AnnouncedState(ts: Torrents, q: AnnounceQuery, ts': Torrents) {
    (!Heard(ts, q) ==> ts' == ts)
    && (Heard(ts, q) ==>
          ts'.Keys == ts.Keys && (forall h :: h in ts && h != q.infoHash ==> ts'[h] == ts[h])
          && var (t, t') := (ts[q.infoHash], ts'[q.infoHash]);
             t'.downloaded == t.downloaded && t'.complete == t.complete && t'.peers.Keys == t.peers.Keys + {q.peerID}
             && (forall p :: p in t.peers && p != q.peerID ==> t'.peers[p] == t.peers[p])
             && t'.peers[q.peerID].state == q.event
             && (q.peerID !in t.peers ==> t'.peers[q.peerID] == Peer(q.peerID, q.ip.value, q.port, q.event))
             && (q.peerID in t.peers ==>
                   t'.peers[q.peerID].id == t.peers[q.peerID].id && t'.peers[q.peerID].ip == t.peers[q.peerID].ip
                   && t'.peers[q.peerID].port == t.peers[q.peerID].port))
  }

  /** Stopping a peer that is not listed is the one announcement that panics. */
  lemma AnnouncedExactly(ts: Torrents, q: AnnounceQuery)
    ensures AnnouncePanics(ts, q) <==> Heard(ts, q) && q.event == "stopped" && q.peerID !in ts[q.infoHash].peers
    ensures !AnnouncePanics(ts, q) ==> AnnouncedState(ts, q, Announced(ts, q))
  {
  }

  /** "completed" passes the check but has no branch: the announcement changes nothing. */
  lemma CompletedIsIgnored(ts: Torrents, q: AnnounceQuery)
    requires q.event == "completed"
    ensures !AnnouncePanics(ts, q) && Announced(ts, q) == ts
  {
  }

  lemma AnnouncedGrows(ts: Torrents, q: AnnounceQuery)
    requires !AnnouncePanics(ts, q)
    ensures Grows(ts, Announced(ts, q)) && Announced(ts, q).Keys == ts.Keys
  {
  }

  /** The counters of a torrent never move: complete stays 1 and downloaded 0. */
  ghost predicate CountersStuck(ts: Torrents) {
    forall h :: h in ts ==> ts[h].complete == 1 && ts[h].downloaded == 0
  }

  /** Peers are listed under their own ID. */
  ghost predicate KeyedById(ts: Torrents) {
    forall h, p :: h in ts && p in ts[h].peers ==> ts[h].peers[p].id == p
  }

  lemma HandlersKeep(ts: Torrents, infoHash: InfoHash, peer: Peer, q: AnnounceQuery)
    requires CountersStuck(ts) && KeyedById(ts)
    ensures CountersStuck(Published(ts, infoHash, peer)) && KeyedById(Published(ts, infoHash, peer))
    ensures !AnnouncePanics(ts, q) ==> CountersStuck(Announced(ts, q)) && KeyedById(Announced(ts, q))
  {
  }

  // ---- the requests a publication sends on ----

  function Request(key: seq<Byte>, infoHash: InfoHash, peer: Peer): RePublishQuery {
    RePublishQuery(key, infoHash, peer.id, Some(peer.ip), peer.port)
  }

  /** One request for every address but the empty one. */
  ghost function FanOut(addrs: set<string>, q: RePublishQuery): multiset<Envelope> {
    multiset(set addr | addr in addrs && addr != "" :: Envelope(addr, q))
  }

  /** One request for every non-empty entry of the list, in its order. */
  function Sent(l: seq<string>, q: RePublishQuery): seq<Envelope> {
    if l == [] then []
    else Sent(l[..|l| - 1], q) + if l[|l| - 1] != "" then [Envelope(l[|l| - 1], q)] else []
  }

  lemma FanOutAdd(addrs: set<string>, addr: string, q: RePublishQuery)
    requires addr !in addrs
    ensures FanOut(addrs + {addr}, q)
            == FanOut(addrs, q) + if addr != "" then multiset{Envelope(addr, q)} else multiset{}
  {
    var s := set a | a in addrs && a != "" :: Envelope(a, q);
    var s' := set a | a in addrs + {addr} && a != "" :: Envelope(a, q);
    if addr == "" {
      assert s' == s;
    } else {
      assert s' == s + {Envelope(addr, q)};
      assert Envelope(addr, q) !in s;
    }
  }

  lemma FanOutCount(addrs: set<string>, q: RePublishQuery, env: Envelope)
    ensures FanOut(addrs, q)[env] == if env.query == q && env.to in addrs && env.to != "" then 1 else 0
  {
  }

  lemma FanOutNone(q: RePublishQuery)
    ensures FanOut({}, q) == multiset{}
  {
  }

  lemma {:induction false} SentBlanks(l: seq<string>, q: RePublishQuery)
    requires forall i :: 0 <= i < |l| ==> l[i] == ""
    ensures Sent(l, q) == []
  {
    if l != [] { SentBlanks(l[..|l| - 1], q); }
  }

  lemma SentAdd(l: seq<string>, addr: string, q: RePublishQuery)
    ensures Sent(l + [addr], q) == Sent(l, q) + if addr != "" then [Envelope(addr, q)] else []
  {
    assert (l + [addr])[..|l|] == l;
  }

  // ---- the class ----

  class TrackerServer {
    const interval: nat
    var torrents: Torrents
    const redKey: seq<Byte>
    var backupTrackers: Backups

    /** A handler returned and did not release the lock it had taken. */
    var locked: bool

    constructor (key: seq<Byte>, seconds: nat)
      ensures torrents == map[] && redKey == key && backupTrackers == map[] && interval == seconds && !locked
    {
      interval, torrents, redKey, backupTrackers, locked := seconds, map[], key, map[], false;
    }

    /** A tracker that answered a KnowMe of this one joins the backup trackers, whatever was listed there. */
    method PutBkTracker(ip: string, port: int)
      modifies this`backupTrackers
      ensures locked ==> backupTrackers == old(backupTrackers)
      ensures !locked ==> backupTrackers.Keys == old(backupTrackers).Keys + {HostPort(ip, port)}
      ensures forall a :: !locked && a in backupTrackers ==>
                backupTrackers[a] == if a == HostPort(ip, port) then BkTracker(ip, port) else old(backupTrackers)[a]
    {
      if locked { return; }
      backupTrackers := backupTrackers[HostPort(ip, port) := BkTracker(ip, port)];
    }

    method PublishTorrent(infoHash: InfoHash, peerID: string, port: int, ip: string) returns (status: int)
      modifies this`torrents
      ensures status == PublishStatus(old(torrents), infoHash, peerID)
      ensures torrents == Published(old(torrents), infoHash, Peer(peerID, ip, port, "seeder"))
    {
      if infoHash in torrents {
        var ttk := torrents[infoHash];
        if peerID in ttk.peers { return ALREADYEXISTP; }
        torrents := torrents[infoHash := ttk.(peers := ttk.peers[peerID := Peer(peerID, ip, port, "seeder")])];
        return ALREADYEXISTT;
      }
      torrents := torrents[infoHash := TorrentTk(0, 1, map[peerID := Peer(peerID, ip, port, "seeder")])];
      return OK;
    }

    /** The addresses in whatever order the map gives them, after as many blanks as make leaves in the slice. */
    method BackupAddresses(ghost q: RePublishQuery) returns (listAddr: seq<string>)
      ensures multiset(Sent(listAddr, q)) == FanOut(backupTrackers.Keys, q)
    {
      hide FanOut, Sent;
      listAddr := seq(|backupTrackers|, _ => "");
      SentBlanks(listAddr, q);
      FanOutNone(q);
      var remaining := backupTrackers.Keys;
      ghost var seen := {};
      while remaining != {}
        invariant seen + remaining == backupTrackers.Keys && seen !! remaining
        invariant multiset(Sent(listAddr, q)) == FanOut(seen, q)
        decreases remaining
      {
        var addr :| addr in remaining;
        remaining := remaining - {addr};
        FanOutAdd(seen, addr, q);
        SentAdd(listAddr, addr, q);
        seen := seen + {addr};
        if addr != "" {
          listAddr := listAddr + [addr];
        }
      }
      assert seen == backupTrackers.Keys;
    }

    /** Only a new torrent is sent on, once to each backup tracker. */
    method Publish(pq: PublishQuery) returns (reply: Reply, sent: seq<Envelope>)
      modifies this`torrents
      ensures !Acceptable(pq.infoHash, pq.peerID, pq.ip, pq.port) ==>
                reply == Refused && sent == [] && torrents == old(torrents)
      ensures reply == Refused <==> |pq.infoHash| != 20 || pq.peerID == "" || pq.ip == None || pq.port == 0
      ensures reply == NoReply <==> reply != Refused && locked
      ensures reply == NoReply ==> sent == [] && torrents == old(torrents)
      ensures reply != Refused && !locked ==>
                reply == Status(if pq.infoHash !in old(torrents) then 1
                                else if pq.peerID in old(torrents)[pq.infoHash].peers then 3 else 2)
      ensures var q := RePublishQuery(redKey, pq.infoHash, pq.peerID, pq.ip, pq.port);
              forall env :: multiset(sent)[env] == if reply == Status(1) && env.query == q && env.to in backupTrackers
                                                      && env.to != "" then 1 else 0
      ensures Acceptable(pq.infoHash, pq.peerID, pq.ip, pq.port) && !locked ==>
                var peer := Peer(pq.peerID, pq.ip.value, pq.port, "seeder");
                reply == Status(PublishStatus(old(torrents), pq.infoHash, pq.peerID))
                && torrents == Published(old(torrents), pq.infoHash, peer)
                && multiset(sent) == if reply.status == OK
                                     then FanOut(backupTrackers.Keys, Request(redKey, pq.infoHash, peer))
                                     else multiset{}
    {
      hide FanOut, Published;
      if |pq.infoHash| != HASH_LENGTH || pq.peerID == "" || pq.ip.None? || pq.port == 0 { return Refused, []; }
      if locked { return NoReply, []; }
      var status := PublishTorrent(pq.infoHash, pq.peerID, pq.port, pq.ip.value);
      sent := [];
      if status == OK {
        var q := Request(redKey, pq.infoHash, Peer(pq.peerID, pq.ip.value, pq.port, "seeder"));
        var listAddr := BackupAddresses(q);
        sent := RePublishRequestManager(listAddr, q);
        forall env ensures multiset(sent)[env] == if env.query == q && env.to in backupTrackers && env.to != ""
                                                  then 1 else 0
        {
          FanOutCount(backupTrackers.Keys, q, env);
        }
      }
      reply := Status(status);
    }

    /** A republished torrent is listed but never sent on. */
    method RePublish(rpq: RePublishQuery) returns (reply: Reply)
      modifies this`torrents
      ensures !Acceptable(rpq.infoHash, rpq.peerID, rpq.ip, rpq.port) ==> reply == Refused && torrents == old(torrents)
      ensures reply == Refused <==> |rpq.infoHash| != 20 || rpq.peerID == "" || rpq.ip == None || rpq.port == 0
      ensures reply == NoReply <==> reply != Refused && locked
      ensures reply == NoReply ==> torrents == old(torrents)
      ensures reply != Refused && !locked ==>
                reply == Status(if rpq.redKey != redKey then 5 else if rpq.infoHash !in old(torrents) then 1
                                else if rpq.peerID in old(torrents)[rpq.infoHash].peers then 3 else 2)
      ensures Acceptable(rpq.infoHash, rpq.peerID, rpq.ip, rpq.port) && rpq.redKey != redKey && !locked ==>
                reply == Status(UNKNOWNREDKEY) && torrents == old(torrents)
      ensures Acceptable(rpq.infoHash, rpq.peerID, rpq.ip, rpq.port) && rpq.redKey == redKey && !locked ==>
                var peer := Peer(rpq.peerID, rpq.ip.value, rpq.port, "seeder");
                reply == Status(PublishStatus(old(torrents), rpq.infoHash, rpq.peerID))
                && torrents == Published(old(torrents), rpq.infoHash, peer)
    {
      if |rpq.infoHash| != HASH_LENGTH || rpq.peerID == "" || rpq.ip.None? || rpq.port == 0 { return Refused; }
      if locked { return NoReply; }
      if rpq.redKey != redKey { return Status(UNKNOWNREDKEY); }
      var status := PublishTorrent(rpq.infoHash, rpq.peerID, rpq.port, rpq.ip.value);
      reply := Status(status);
    }

    /** Two of the refusals return without releasing the lock. */
    method KnowMe(kr: KnowMeQuery) returns (reply: Reply)
      modifies this`backupTrackers, this`locked
      ensures reply == NoReply <==> old(locked) && kr.ip != None && kr.port != 0
      ensures reply != NoReply ==>
                reply == Status(if kr.ip == None then 6 else if kr.port == 0 then 7 else if kr.redKey != redKey then 5
                                else if JoinHostPort(kr.ip.value, kr.port) in old(backupTrackers) then 8 else 1)
      ensures locked == (old(locked) || reply in {Status(5), Status(8)})
      ensures reply != Status(1) ==> backupTrackers == old(backupTrackers)
      ensures reply == Status(1) ==>
                var (ip, port) := (kr.ip.value, kr.port);
                backupTrackers == old(backupTrackers)[JoinHostPort(ip, port) := BkTracker(ip, port)]
    {
      if kr.ip.None? { return Status(FAILEDIP); }
      if kr.port == 0 { return Status(FAILEDPORT); }
      if locked { return NoReply; }
      locked := true;
      if kr.redKey != redKey { return Status(UNKNOWNREDKEY); }
      var hostport := JoinHostPort(kr.ip.value, kr.port);
      if hostport in backupTrackers { return Status(FAILED); }
      backupTrackers := backupTrackers[hostport := BkTracker(kr.ip.value, kr.port)];
      locked := false;
      return Status(OK);
    }

    /**
     * Panics stands for the nil dereference; the maps are then as before. The peers of the reply are chosen before
     * the asker's state changes, the statistics are taken after it.
     */
    method Announce(q: AnnounceQuery) returns (r: AnnounceResult)
      modifies this`torrents
      ensures r == Panics <==> !locked && Heard(old(torrents), q) && q.event == "stopped"
                               && q.peerID !in old(torrents)[q.infoHash].peers
      ensures r == Panics || r == NoAnswer ==> torrents == old(torrents)
      ensures r != Panics && r != NoAnswer ==>
                !AnnouncePanics(old(torrents), q) && torrents == Announced(old(torrents), q)
      ensures r != Panics && r != NoAnswer ==> AnnouncedState(old(torrents), q, torrents)
      ensures var wrong := |q.infoHash| != 20 || q.peerID == "" || q.ip == None || q.port == 0
                           || q.event !in {"request", "started", "completed", "stopped"};
              (r == NoAnswer <==> !wrong && locked)
              && (r == Failure <==> wrong || (!locked && q.infoHash !in old(torrents)))
      ensures r.Answer? ==>
                var reply, pp := r.reply, torrents[q.infoHash].peers;
                && reply.interval == interval
                && reply.complete == |WithFile(pp, pp.Keys)| && reply.incomplete == |AtWork(pp, pp.Keys)|
                && (if !q.request then reply.peers == map[]
                    else Selected(old(torrents)[q.infoHash].peers, q.peerID, if q.numWant < 1 then 40 else q.numWant,
                                  reply.peers))
    {
      hide Selected, WithFile, AtWork, AnnouncedState;
      AnnouncedExactly(torrents, q);
      if !Announceable(q) { return Failure; }
      if locked { return NoAnswer; }
      if q.infoHash !in torrents { return Failure; }
      var ttk := torrents[q.infoHash];
      var peers: map<string, string> := map[];
      if q.request {
        ghost var first;
        peers, first := GetRandomPeers(ttk.peers, q.peerID, NumWanted(q));
      }
      if q.event == "started" {
        if q.peerID !in ttk.peers {
          ttk := ttk.(peers := ttk.peers[q.peerID := Peer(q.peerID, q.ip.value, q.port, "started")]);
        } else {
          ttk := ttk.(peers := ttk.peers[q.peerID := ttk.peers[q.peerID].(state := "started")]);
        }
      } else if q.event == "stopped" {
        if q.peerID !in ttk.peers { return Panics; }
        ttk := ttk.(peers := ttk.peers[q.peerID := ttk.peers[q.peerID].(state := "stopped")]);
      }
      torrents := torrents[q.infoHash := ttk];
      var complete, incomplete := TorrentStats(ttk.peers);
      return Answer(AnnounceReply(interval, complete, incomplete, peers));
    }
  }

  method RePublishRequestManager(listAddr: seq<string>, q: RePublishQuery) returns (sent: seq<Envelope>)
    ensures sent == Sent(listAddr, q)
  {
    sent := [];
    for i := 0 to |listAddr|
      invariant sent == Sent(listAddr[..i], q)
    {
      SentAdd(listAddr[..i], listAddr[i], q);
      assert listAddr[..i + 1] == listAddr[..i] + [listAddr[i]];
      if listAddr[i] != "" {
        sent := sent + [Envelope(listAddr[i], q)];
      }
    }
    assert listAddr[..|listAddr|] == listAddr;
  }

  // ---- selecting peers ----

  /** The default branch of the switch over states, and the branch of "started". */
  predicate HasFile(p: Peer) {
    p.state != "stopped" && p.state != "started"
  }

  predicate Loading(p: Peer) {
    p.state == "started"
  }

  /** The peers other than the asker that have the file, and those that are still loading it. */
  function Seeders(pp: map<string, Peer>, asker: string): set<string> {
    set k | k in pp && k != asker && HasFile(pp[k])
  }

  function Starters(pp: map<string, Peer>, asker: string): set<string> {
    set k | k in pp && k != asker && Loading(pp[k])
  }

  /** The peers that can be handed out: all but the asker and those that stopped. */
  function Able(pp: map<string, Peer>, asker: string): (s: set<string>)
    ensures forall k :: k in s <==> k in pp && k != asker && pp[k].state != "stopped"
  {
    set k | k in pp && k != asker && pp[k].state != "stopped"
  }

  /** The number of peers asked for, cut to the number of other peers. */
  function Wanted(pp: map<string, Peer>, asker: string, numwant: nat): int {
    var maxPeers := |pp.Keys - {asker}|;
    if numwant > maxPeers then maxPeers else numwant
  }

  function NumWanted(q: AnnounceQuery): nat {
    if q.numWant < 1 then DEFAULT_NUMWANT else q.numWant
  }

  function Addr(p: Peer): string {
    JoinHostPort(p.ip, p.port)
  }

  /** The result so far: each peer under its ID with its address, and how many there are. */
  predicate Picked(pp: map<string, Peer>, peers: map<string, string>, count: int) {
    count == |peers| && forall k :: k in peers ==> k in pp && peers[k] == Addr(pp[k])
  }

  predicate Keyed(pp: map<string, Peer>) {
    forall k :: k in pp ==> pp[k].id == k
  }

  lemma PickOne(pp: map<string, Peer>, peers: map<string, string>, count: int, k: string)
    requires Picked(pp, peers, count) && k in pp && k !in peers
    ensures Picked(pp, peers[k := Addr(pp[k])], count + 1)
    ensures peers[k := Addr(pp[k])].Keys == peers.Keys + {k}
  {
    hide Addr;
    assert peers[k := Addr(pp[k])].Keys == peers.Keys + {k};
  }

  /** Of the keys met so far the chosen ones are picked, besides those picked before. */
  ghost predicate Met(pp: map<string, Peer>, had: set<string>, chosen: set<string>, peers: map<string, string>,
                      count: int, seen: set<string>) {
    Picked(pp, peers, count) && peers.Keys == had + chosen * seen
  }

  lemma MetNobody(pp: map<string, Peer>, chosen: set<string>)
    ensures Met(pp, {}, chosen, map[], 0, {})
  {
    assert {} + chosen * {} == {};
  }

  lemma MetBefore(pp: map<string, Peer>, chosen: set<string>, peers: map<string, string>, count: int)
    requires Picked(pp, peers, count)
    ensures Met(pp, peers.Keys, chosen, peers, count, {})
  {
    hide Picked;
    assert peers.Keys + chosen * {} == peers.Keys;
  }

  /** One more key is met. */
  lemma MetOne(pp: map<string, Peer>, had: set<string>, chosen: set<string>, peers: map<string, string>, count: int,
               seen: set<string>, k: string)
    requires Keyed(pp) && k in pp && k !in seen && had !! chosen && Met(pp, had, chosen, peers, count, seen)
    ensures if k in chosen then Met(pp, had, chosen, peers[pp[k].id := Addr(pp[k])], count + 1, seen + {k})
            else Met(pp, had, chosen, peers, count, seen + {k})
  {
    hide Picked, Addr;
    if k in chosen {
      PickOne(pp, peers, count, k);
      assert had + chosen * (seen + {k}) == had + chosen * seen + {k};
    } else {
      assert chosen * (seen + {k}) == chosen * seen;
    }
  }

  lemma MetAll(pp: map<string, Peer>, had: set<string>, chosen: set<string>, peers: map<string, string>, count: int,
               seen: set<string>)
    requires Met(pp, had, chosen, peers, count, seen)
    ensures Picked(pp, peers, count) && had <= peers.Keys <= had + chosen
    ensures chosen <= seen ==> peers.Keys == had + chosen
  {
    hide Picked;
    if chosen <= seen { assert chosen * seen == chosen; }
  }

  /** The key taken from those that remain. */
  lemma MoveOne(all: set<string>, remaining: set<string>, k: string)
    requires k in remaining && remaining <= all
    ensures k in all && k !in all - remaining && all - (remaining - {k}) == (all - remaining) + {k}
  {
  }

  /** The first loop: peers that have the file, until limit of them are found. first is the first peer it meets. */
  method PickSeeders(pp: map<string, Peer>, excludeID: string, limit: int)
      returns (peers: map<string, string>, count: int, ghost first: string)
    ensures Keyed(pp) ==>
              Picked(pp, peers, count) && peers.Keys <= Seeders(pp, excludeID)
              && (count == limit || peers.Keys == Seeders(pp, excludeID))
              && (limit >= 1 ==> count <= limit)
    ensures count >= 0
    ensures pp != map[] ==> first in pp && (limit == 0 ==> (count == limit <==> first !in Seeders(pp, excludeID)))
  {
    hide Met, Picked, HasFile, Keyed, Seeders, Addr;
    ghost var s, keyed := Seeders(pp, excludeID), Keyed(pp);
    first, count, peers := "", 0, map[];
    MetNobody(pp, s);
    SeedersListed(pp, excludeID);
    var remaining := pp.Keys;
    assert pp.Keys - remaining == {};
    while remaining != {}
      invariant remaining <= pp.Keys && count >= 0
      invariant keyed ==> Met(pp, {}, s, peers, count, pp.Keys - remaining)
      invariant limit >= 1 ==> count < limit
      invariant if remaining == pp.Keys then count == 0 else first in pp && (limit == 0 ==> first in s && count > 0)
      decreases remaining
    {
      var k :| k in remaining;
      MoveOne(pp.Keys, remaining, k);
      SeederMember(pp, excludeID, k);
      if keyed { MetOne(pp, {}, s, peers, count, pp.Keys - remaining, k); }
      if remaining == pp.Keys { first := k; }
      remaining := remaining - {k};
      var v := pp[k];
      if k != excludeID && HasFile(v) {
        count := count + 1;
        peers := peers[v.id := Addr(v)];
      }
      if count == limit {
        if keyed { MetAll(pp, {}, s, peers, count, pp.Keys - remaining); }
        return;
      }
    }
    if keyed { MetAll(pp, {}, s, peers, count, pp.Keys - remaining); }
  }

  lemma SeederMember(pp: map<string, Peer>, asker: string, k: string)
    requires k in pp
    ensures k in Seeders(pp, asker) <==> k != asker && HasFile(pp[k])
    ensures k in Starters(pp, asker) <==> k != asker && Loading(pp[k])
  {
  }

  lemma SeedersListed(pp: map<string, Peer>, asker: string)
    ensures Seeders(pp, asker) <= pp.Keys && Starters(pp, asker) <= pp.Keys
    ensures Seeders(pp, asker) !! Starters(pp, asker)
  {
  }

  /** The second loop: loading peers, until limit peers are found in all. */
  method PickStarters(pp: map<string, Peer>, excludeID: string, limit: int, had: map<string, string>, found: int)
      returns (peers: map<string, string>, count: int)
    ensures found == limit ==> peers == had && count == found
    ensures Keyed(pp) && Picked(pp, had, found) && had.Keys <= Seeders(pp, excludeID) ==>
              Picked(pp, peers, count)
              && had.Keys <= peers.Keys <= had.Keys + Starters(pp, excludeID)
              && (count == limit || peers.Keys == had.Keys + Starters(pp, excludeID))
              && (found < limit ==> count <= limit)
    ensures found > limit ==> count >= found
  {
    hide Met, Picked, Loading, Keyed, Seeders, Starters, Addr;
    ghost var t := Starters(pp, excludeID);
    ghost var keyed := Keyed(pp) && Picked(pp, had, found) && had.Keys <= Seeders(pp, excludeID);
    count, peers := found, had;
    SeedersListed(pp, excludeID);
    if keyed { MetBefore(pp, t, had, found); }
    var remaining := pp.Keys;
    assert pp.Keys - remaining == {};
    while remaining != {}
      invariant remaining <= pp.Keys
      invariant found == limit ==> peers == had && count == found
      invariant keyed ==> Met(pp, had.Keys, t, peers, count, pp.Keys - remaining)
      invariant (found < limit ==> count <= limit) && (found > limit ==> count >= found)
      decreases remaining
    {
      if count == limit { break; }
      var k :| k in remaining;
      MoveOne(pp.Keys, remaining, k);
      SeederMember(pp, excludeID, k);
      if keyed { MetOne(pp, had.Keys, t, peers, count, pp.Keys - remaining, k); }
      remaining := remaining - {k};
      var v := pp[k];
      if k != excludeID && Loading(v) {
        count := count + 1;
        peers := peers[v.id := Addr(v)];
      }
    }
    if keyed { MetAll(pp, had.Keys, t, peers, count, pp.Keys - remaining); }
  }

  /**
   * What a selection promises when peers are listed under their own ID: some of those that have the file and those
   * that are loading it, each with its address. Two or more wanted: one less than wanted, or all there are, loading
   * peers only after all others. One wanted: everybody or nobody, as the first peer that is met has the file or not.
   */
  predicate Selected(pp: map<string, Peer>, asker: string, numwant: nat, peers: map<string, string>) {
    Keyed(pp) ==>
      var s, t, w := Seeders(pp, asker), Starters(pp, asker), Wanted(pp, asker, numwant);
      && peers.Keys <= s + t
      && (forall k :: k in peers ==> peers[k] == Addr(pp[k]))
      && (w >= 2 ==> |peers| == Min(w - 1, |s| + |t|) && (peers.Keys * t != {} ==> s <= peers.Keys))
      && (w == 1 ==> exists first :: first in pp && OneWanted(pp, asker, first, peers))
      && (w == 0 ==> peers.Keys == s + t)
  }

  predicate OneWanted(pp: map<string, Peer>, asker: string, first: string, peers: map<string, string>) {
    peers.Keys == if first in Seeders(pp, asker) then Seeders(pp, asker) + Starters(pp, asker) else {}
  }

  /** One wanted: always everybody when all listed peers have the file and none is the asker, never when none has it. */
  lemma OneWantedAlways(pp: map<string, Peer>, asker: string, numwant: nat, peers: map<string, string>)
    requires Keyed(pp) && Selected(pp, asker, numwant, peers) && Wanted(pp, asker, numwant) == 1
    ensures Seeders(pp, asker) == pp.Keys ==> peers.Keys == pp.Keys
    ensures Seeders(pp, asker) == {} ==> peers == map[]
  {
    hide Seeders, Starters, Addr;
    SeedersListed(pp, asker);
    var first :| first in pp && OneWanted(pp, asker, first, peers);
    assert peers.Keys == {} ==> peers == map[];
  }

  /** Seeders and starters are neither the asker nor stopped, and nobody is both. */
  lemma SelectedNever(pp: map<string, Peer>, asker: string, numwant: nat, peers: map<string, string>)
    requires Keyed(pp) && Selected(pp, asker, numwant, peers)
    ensures asker !in peers && forall k :: k in peers ==> k in pp && pp[k].state != "stopped"
    ensures Seeders(pp, asker) !! Starters(pp, asker)
  {
    hide Addr;
    forall k | k in peers ensures k in pp && k != asker && pp[k].state != "stopped" {
      assert k in Seeders(pp, asker) + Starters(pp, asker);
    }
  }

  /**
   * For every iteration order of the map. The loops stop one short of the number wanted; when that number is one
   * they stop only if the first peer met is of no use, and otherwise take everybody.
   */
  method GetRandomPeers(pp: map<string, Peer>, excludeID: string, numwant: nat)
      returns (peers: map<string, string>, ghost first: string)
    ensures Selected(pp, excludeID, numwant, peers)
    ensures Keyed(pp) && Wanted(pp, excludeID, numwant) == 1 ==>
              first in pp && OneWanted(pp, excludeID, first, peers)
    ensures Keyed(pp) ==>
              var w := Min(numwant, if excludeID in pp then |pp| - 1 else |pp|);
              var able := Able(pp, excludeID);
              peers.Keys <= able && (forall k :: k in peers ==> peers[k] == JoinHostPort(pp[k].ip, pp[k].port))
              && (w >= 2 ==> |peers| == Min(w - 1, |able|)) && (w == 0 ==> peers.Keys == able)
              && (w == 1 ==> first in pp && peers.Keys == if first in able && pp[first].state != "started" then able
                                                          else {})
              && (w >= 2 ==> forall k, l :: k in peers && l in able && pp[k].state == "started" != pp[l].state ==>
                    l in peers)
  {
    hide Selected, Picked, Keyed, HasFile, Loading, Seeders, Starters, OneWanted;
    var maxPeers := |pp|;
    if excludeID in pp { maxPeers := maxPeers - 1; }
    var numwant' := numwant;
    if numwant' > maxPeers { numwant' := maxPeers; }
    WantedCount(pp, excludeID);
    var seeders, found, count;
    seeders, found, first := PickSeeders(pp, excludeID, numwant' - 1);
    peers, count := PickStarters(pp, excludeID, numwant' - 1, seeders, found);
    if Keyed(pp) {
      if numwant' == 1 { OneWantedWhen(pp, excludeID, first, seeders, found, peers, count); }
      SelectedWhen(pp, excludeID, numwant, first, seeders, found, peers, count);
      SelectedCount(pp, excludeID, numwant, first, peers);
    } else {
      SelectedUnkeyed(pp, excludeID, numwant, peers);
    }
  }

  /** How many peers a selection has, without the two kinds of peers. */
  lemma SelectedCount(pp: map<string, Peer>, asker: string, numwant: nat, first: string, peers: map<string, string>)
    requires Keyed(pp) && Selected(pp, asker, numwant, peers)
    ensures var w := Min(numwant, if asker in pp then |pp| - 1 else |pp|);
            var able := Able(pp, asker);
            peers.Keys <= able && (forall k :: k in peers ==> peers[k] == JoinHostPort(pp[k].ip, pp[k].port))
            && (w >= 2 ==> |peers| == Min(w - 1, |able|)) && (w == 0 ==> peers.Keys == able)
            && (w == 1 && first in pp && OneWanted(pp, asker, first, peers) ==>
                  peers.Keys == if first in able && pp[first].state != "started" then able else {})
            && (w >= 2 ==> forall k, l :: k in peers && l in able && pp[k].state == "started" != pp[l].state ==>
                    l in peers)
  {
    hide Able, Seeders, Starters, JoinHostPort, Keyed, Selected, Wanted;
    WantedIs(pp, asker, numwant);
    AbleAre(pp, asker);
    AbleFirst(pp, asker, first);
    SelectedFacts(pp, asker, numwant, peers);
  }

  lemma WantedIs(pp: map<string, Peer>, asker: string, numwant: nat)
    ensures Wanted(pp, asker, numwant) == Min(numwant, if asker in pp then |pp| - 1 else |pp|)
  {
    WantedCount(pp, asker);
  }

  lemma AbleFirst(pp: map<string, Peer>, asker: string, first: string)
    ensures forall k :: k in Seeders(pp, asker) <==> k in Able(pp, asker) && pp[k].state != "started"
    ensures forall k :: k in Starters(pp, asker) <==> k in Able(pp, asker) && pp[k].state == "started"
  {
  }

  lemma SelectedFacts(pp: map<string, Peer>, asker: string, numwant: nat, peers: map<string, string>)
    requires Keyed(pp) && Selected(pp, asker, numwant, peers)
    ensures var s, t, w := Seeders(pp, asker), Starters(pp, asker), Wanted(pp, asker, numwant);
            peers.Keys <= s + t && (w >= 2 ==> |peers| == Min(w - 1, |s + t|)) && (w == 0 ==> peers.Keys == s + t)
            && (w >= 2 && !(peers.Keys !! t) ==> s <= peers.Keys)
    ensures forall k :: k in peers ==> k in pp && peers[k] == JoinHostPort(pp[k].ip, pp[k].port)
  {
    hide Seeders, Starters, JoinHostPort, OneWanted, Keyed, Wanted;
    var s, t := Seeders(pp, asker), Starters(pp, asker);
    SeedersListed(pp, asker);
    assert |s + t| == |s| + |t|;
  }

  lemma AbleAre(pp: map<string, Peer>, asker: string)
    ensures Able(pp, asker) == Seeders(pp, asker) + Starters(pp, asker)
  {
  }

  lemma OneWantedWhen(pp: map<string, Peer>, asker: string, first: string, seeders: map<string, string>, found: int,
                      peers: map<string, string>, count: int)
    requires Picked(pp, seeders, found) && (found == 0 <==> first !in Seeders(pp, asker))
    requires found == 0 || seeders.Keys == Seeders(pp, asker)
    requires found == 0 ==> peers == seeders
    requires found != 0 ==> count > 0 && (count == 0 || peers.Keys == seeders.Keys + Starters(pp, asker))
    ensures OneWanted(pp, asker, first, peers)
  {
    hide Seeders, Starters, Addr;
  }

  lemma SelectedUnkeyed(pp: map<string, Peer>, asker: string, numwant: nat, peers: map<string, string>)
    requires !Keyed(pp)
    ensures Selected(pp, asker, numwant, peers)
  {
  }

  /** What the two loops promise adds up to a selection. */
  lemma SelectedWhen(pp: map<string, Peer>, asker: string, numwant: nat, first: string, seeders: map<string, string>,
                     found: int, peers: map<string, string>, count: int)
    requires var s, t, limit := Seeders(pp, asker), Starters(pp, asker), Wanted(pp, asker, numwant) - 1;
             && Picked(pp, seeders, found) && seeders.Keys <= s && (found == limit || seeders.Keys == s)
             && (limit >= 1 ==> found <= limit)
             && (found == limit ==> peers == seeders && count == found)
             && Picked(pp, peers, count) && seeders.Keys <= peers.Keys <= seeders.Keys + t
             && (count == limit || peers.Keys == seeders.Keys + t)
             && (found < limit ==> count <= limit)
             && (limit == 0 ==> first in pp && OneWanted(pp, asker, first, peers))
    ensures Selected(pp, asker, numwant, peers)
  {
    hide Addr, Keyed, HasFile, Loading, Seeders, Starters, OneWanted;
    var s, t := Seeders(pp, asker), Starters(pp, asker);
    SeedersListed(pp, asker);
    assert |s + t| == |s| + |t|;
    assert |peers| == |peers.Keys| && |seeders| == |seeders.Keys|;
    SizeOfPart(peers.Keys, s + t);
    SizeOfPart(seeders.Keys, s);
  }

  lemma SizeOfPart(a: set<string>, b: set<string>)
    requires a <= b
    ensures |a| <= |b| && (|a| == |b| ==> a == b)
  {
    assert b == a + (b - a);
  }

  lemma WantedCount(pp: map<string, Peer>, asker: string)
    ensures |pp.Keys - {asker}| == if asker in pp then |pp| - 1 else |pp|
  {
    if asker in pp {
      assert pp.Keys == (pp.Keys - {asker}) + {asker};
    } else {
      assert pp.Keys - {asker} == pp.Keys;
    }
  }

  /** The statistics count the peers that have the file and those that are loading it. */
  method TorrentStats(pp: map<string, Peer>) returns (complete: nat, incomplete: nat)
    ensures complete == |WithFile(pp, pp.Keys)| && incomplete == |AtWork(pp, pp.Keys)|
    ensures complete == |set k | k in pp && pp[k].state != "started" && pp[k].state != "stopped"|
    ensures incomplete == |set k | k in pp && pp[k].state == "started"|
  {
    complete, incomplete := 0, 0;
    var remaining := pp.Keys;
    ghost var seen: set<string> := {};
    while remaining != {}
      invariant seen + remaining == pp.Keys && seen !! remaining
      invariant complete == |WithFile(pp, seen)| && incomplete == |AtWork(pp, seen)|
      decreases remaining
    {
      var k :| k in remaining;
      remaining := remaining - {k};
      CountOne(pp, seen, k);
      seen := seen + {k};
      if pp[k].state == "stopped" {
      } else if pp[k].state == "started" {
        incomplete := incomplete + 1;
      } else {
        complete := complete + 1;
      }
    }
    assert seen == pp.Keys;
    assert WithFile(pp, pp.Keys) == set k | k in pp && pp[k].state != "started" && pp[k].state != "stopped";
    assert AtWork(pp, pp.Keys) == set k | k in pp && pp[k].state == "started";
  }

  function WithFile(pp: map<string, Peer>, ids: set<string>): set<string> {
    set k | k in ids && k in pp && HasFile(pp[k])
  }

  function AtWork(pp: map<string, Peer>, ids: set<string>): set<string> {
    set k | k in ids && k in pp && Loading(pp[k])
  }

  lemma CountOne(pp: map<string, Peer>, ids: set<string>, k: string)
    requires k in pp && k !in ids
    ensures |WithFile(pp, ids + {k})| == |WithFile(pp, ids)| + if HasFile(pp[k]) then 1 else 0
    ensures |AtWork(pp, ids + {k})| == |AtWork(pp, ids)| + if Loading(pp[k]) then 1 else 0
  {
    hide HasFile, Loading;
    var o, n := WithFile(pp, ids), AtWork(pp, ids);
    assert WithFile(pp, ids + {k}) == if HasFile(pp[k]) then o + {k} else o;
    assert AtWork(pp, ids + {k}) == if Loading(pp[k]) then n + {k} else n;
  }
}
