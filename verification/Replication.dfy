/**
 * Several trackers (tacker.go) and the RePublish requests between them as one system. Handlers are atomic steps;
 * requests travel in any order and may be lost.
 */
module Replication {
  import opened Bytes
  import opened Outcomes
  import opened Trackers

  datatype Tracker = Tracker(key: seq<Byte>, torrents: Torrents, backups: set<string>, locked: bool)

  /** A publication of a new torrent: where and under which key, what, and the backup list at that moment. */
  datatype Entry = Entry(at: string, key: seq<Byte>, infoHash: InfoHash, peer: Peer, backups: set<string>)

  /** The trackers by address, where the requests are, and the publications of new torrents so far. */
  datatype World = World(trackers: map<string, Tracker>, inFlight: multiset<Envelope>, arrived: multiset<Envelope>,
                         lost: multiset<Envelope>, log: seq<Entry>)

  datatype Step =
    | DoPublish(at: string, pq: PublishQuery)
    | Deliver(env: Envelope)
    | Lose(env: Envelope)
    | DoKnowMe(at: string, kr: KnowMeQuery)
    | DoAnnounce(at: string, q: AnnounceQuery)
    | Known(at: string, ip: string, port: int)
    | Outside(at: string, rpq: RePublishQuery)

  // ---- steps ----

  /**
   * A tracker learns that its own KnowMe was answered with OK at any time and for any address (Known). Requests from
   * outside the system do not know the key of the tracker they reach. A tracker whose lock is held takes in no request:
   * what was sent to it can only be lost, and every other handler that reaches the lock changes nothing.
   */
  predicate Enabled(w: World, s: Step) {
    match s
    case DoPublish(at, pq) => at in w.trackers
    case Deliver(env) => env in w.inFlight && (env.to in w.trackers ==> !w.trackers[env.to].locked)
    case Lose(env) => env in w.inFlight
    case DoKnowMe(at, kr) => at in w.trackers
    case DoAnnounce(at, q) =>
      at in w.trackers && (w.trackers[at].locked || !AnnouncePanics(w.trackers[at].torrents, q))
    case Known(at, ip, port) => at in w.trackers
    case Outside(at, rpq) => at in w.trackers && rpq.redKey != w.trackers[at].key
  }

  /** The RePublish handler. */
  function Received(t: Tracker, rpq: RePublishQuery): Tracker {
    if Acceptable(rpq.infoHash, rpq.peerID, rpq.ip, rpq.port) && rpq.redKey == t.key then
      t.(torrents := Published(t.torrents, rpq.infoHash, Peer(rpq.peerID, rpq.ip.value, rpq.port, "seeder")))
    else t
  }

  /** The KnowMe handler: a wrong key and a known address leave the lock held. */
  function Acquainted(t: Tracker, kr: KnowMeQuery): Tracker {
    if t.locked || kr.ip == None || kr.port == 0 then t
    else
      var addr := JoinHostPort(kr.ip.value, kr.port);
      if kr.redKey != t.key || addr in t.backups then t.(locked := true) else t.(backups := t.backups + {addr})
  }

  function Question(e: Entry): RePublishQuery {
    Request(e.key, e.infoHash, e.peer)
  }

  /** The requests of a publication: one to each backup tracker of that moment. */
  ghost function SentBy(e: Entry): multiset<Envelope> {
    FanOut(e.backups, Question(e))
  }

  ghost function PublishStep(w: World, at: string, pq: PublishQuery): World
    requires at in w.trackers
  {
    var t := w.trackers[at];
    if t.locked || !Acceptable(pq.infoHash, pq.peerID, pq.ip, pq.port) then w
    else
      var peer := Peer(pq.peerID, pq.ip.value, pq.port, "seeder");
      var w' := w.(trackers := w.trackers[at := t.(torrents := Published(t.torrents, pq.infoHash, peer))]);
      if PublishStatus(t.torrents, pq.infoHash, pq.peerID) == OK then
        var e := Entry(at, t.key, pq.infoHash, peer, t.backups);
        w'.(inFlight := w.inFlight + SentBy(e), log := w.log + [e])
      else w'
  }

  ghost function After(w: World, s: Step): World
    requires Enabled(w, s)
  {
    match s
    case DoPublish(at, pq) => PublishStep(w, at, pq)
    case Deliver(env) =>
      w.(inFlight := w.inFlight - multiset{env}, arrived := w.arrived + multiset{env},
         trackers := if env.to in w.trackers then w.trackers[env.to := Received(w.trackers[env.to], env.query)]
                     else w.trackers)
    case Lose(env) => w.(inFlight := w.inFlight - multiset{env}, lost := w.lost + multiset{env})
    case DoKnowMe(at, kr) =>
      var t := w.trackers[at];
      w.(trackers := w.trackers[at := Acquainted(t, kr)])
    case DoAnnounce(at, q) =>
      var t := w.trackers[at];
      if t.locked then w else w.(trackers := w.trackers[at := t.(torrents := Announced(t.torrents, q))])
    case Known(at, ip, port) =>
      var t := w.trackers[at];
      w.(trackers := w.trackers[at := if t.locked then t else t.(backups := t.backups + {HostPort(ip, port)})])
    case Outside(at, rpq) =>
      w.(trackers := w.trackers[at := Received(w.trackers[at], rpq)])
  }

  // ---- the handlers are the steps ----

  /** The tracker of the system that a server is. */
  ghost function Abs(server: TrackerServer): Tracker
    reads server
  {
    Tracker(server.redKey, server.torrents, server.backupTrackers.Keys, server.locked)
  }

  method HandlePublish(server: TrackerServer, pq: PublishQuery, ghost w: World, ghost at: string)
      returns (sent: seq<Envelope>)
    requires at in w.trackers && w.trackers[at] == Abs(server)
    modifies server`torrents
    ensures var w' := After(w, DoPublish(at, pq));
            w'.trackers == w.trackers[at := Abs(server)] && w'.inFlight == w.inFlight + multiset(sent)
  {
    hide FanOut, Published;
    var reply;
    reply, sent := server.Publish(pq);
    assert w.trackers[at := w.trackers[at]] == w.trackers;
  }

  method HandleRePublish(server: TrackerServer, env: Envelope, ghost w: World)
    requires env.to in w.trackers && w.trackers[env.to] == Abs(server) && Enabled(w, Deliver(env))
    modifies server`torrents
    ensures After(w, Deliver(env)).trackers == w.trackers[env.to := Abs(server)]
  {
    hide Published;
    var _ := server.RePublish(env.query);
  }

  method HandleKnowMe(server: TrackerServer, kr: KnowMeQuery, ghost w: World, ghost at: string)
    requires at in w.trackers && w.trackers[at] == Abs(server)
    modifies server`backupTrackers, server`locked
    ensures After(w, DoKnowMe(at, kr)).trackers == w.trackers[at := Abs(server)]
  {
    hide JoinHostPort;
    ghost var backups := server.backupTrackers;
    var reply := server.KnowMe(kr);
    if reply == Status(OK) {
      assert server.backupTrackers.Keys == backups.Keys + {JoinHostPort(kr.ip.value, kr.port)};
    }
  }

  method HandleKnown(server: TrackerServer, ip: string, port: int, ghost w: World, ghost at: string)
    requires at in w.trackers && w.trackers[at] == Abs(server)
    modifies server`backupTrackers
    ensures After(w, Known(at, ip, port)).trackers == w.trackers[at := Abs(server)]
  {
    hide HostPort;
    ghost var backups := server.backupTrackers;
    server.PutBkTracker(ip, port);
    if !server.locked { assert server.backupTrackers.Keys == backups.Keys + {HostPort(ip, port)}; }
  }

  method HandleAnnounce(server: TrackerServer, q: AnnounceQuery, ghost w: World, ghost at: string)
    requires at in w.trackers && w.trackers[at] == Abs(server) && Enabled(w, DoAnnounce(at, q))
    modifies server`torrents
    ensures After(w, DoAnnounce(at, q)).trackers == w.trackers[at := Abs(server)]
  {
    hide Announced, AnnouncePanics, AnnouncedState, Selected, WithFile, AtWork;
    AnnouncedExactly(server.torrents, q);
    assert w.trackers[at := w.trackers[at]] == w.trackers;
    var _ := server.Announce(q);
  }

  /** w' is reached from w by the steps, each enabled in its turn. */
  ghost predicate Runs(w: World, steps: seq<Step>, w': World)
    decreases |steps|
  {
    if steps == [] then w == w' else Enabled(w, steps[0]) && Runs(After(w, steps[0]), steps[1..], w')
  }

  ghost predicate Init(w: World) {
    (forall a :: a in w.trackers ==> w.trackers[a].torrents == map[])
    && w.inFlight == w.arrived == w.lost == multiset{} && w.log == []
  }

  // ---- what every run keeps ----

  /** The addressee is no tracker of the system, has another key, or lists the peer. */
  predicate Settled(w: World, env: Envelope) {
    env.to !in w.trackers || w.trackers[env.to].key != env.query.redKey
    || Holds(w.trackers[env.to].torrents, env.query.infoHash, env.query.peerID)
  }

  ghost function AllSent(log: seq<Entry>): multiset<Envelope> {
    if log == [] then multiset{} else AllSent(log[..|log| - 1]) + SentBy(log[|log| - 1])
  }

  /** The publishing tracker lists what was published. */
  predicate EntryOk(w: World, e: Entry) {
    e.at in w.trackers && w.trackers[e.at].key == e.key
    && Holds(w.trackers[e.at].torrents, e.infoHash, e.peer.id)
    && Acceptable(e.infoHash, e.peer.id, Some(e.peer.ip), e.peer.port)
  }

  ghost predicate PublishedIn(w: World, h: InfoHash) {
    exists e :: e in w.log && e.infoHash == h
  }

  ghost predicate Inv(w: World) {
    // no request is created or forgotten
    && AllSent(w.log) == w.inFlight + w.arrived + w.lost
    // what has arrived is settled for good
    && (forall env :: env in w.arrived ==> Settled(w, env))
    && (forall e :: e in w.log ==> EntryOk(w, e))
    // every torrent anywhere goes back to a publication
    && (forall a, h :: a in w.trackers && h in w.trackers[a].torrents ==> PublishedIn(w, h))
    && (forall a :: a in w.trackers ==> CountersStuck(w.trackers[a].torrents) && KeyedById(w.trackers[a].torrents))
  }

  /** Every step keeps the trackers, their keys, and everything they list. */
  ghost predicate Extends(w: World, w': World) {
    w.trackers.Keys == w'.trackers.Keys
    && (forall a :: a in w.trackers ==> w'.trackers[a].key == w.trackers[a].key
                                        && Grows(w.trackers[a].torrents, w'.trackers[a].torrents))
    && w.log <= w'.log
  }

  // ---- steps keep it ----

  lemma PublishExtends(w: World, at: string, pq: PublishQuery)
    requires at in w.trackers
    ensures Extends(w, PublishStep(w, at, pq))
  {
    hide Holds, Published, SentBy;
    if Acceptable(pq.infoHash, pq.peerID, pq.ip, pq.port) {
      PublishedHolds(w.trackers[at].torrents, pq.infoHash, Peer(pq.peerID, pq.ip.value, pq.port, "seeder"));
    }
  }

  /** Putting a tracker that has grown in its place. */
  lemma ReplaceExtends(w: World, a: string, t: Tracker, w': World)
    requires a in w.trackers && t.key == w.trackers[a].key && Grows(w.trackers[a].torrents, t.torrents)
    requires w'.trackers == w.trackers[a := t] && w'.log == w.log
    ensures Extends(w, w')
  {
    hide Holds;
  }

  lemma StepExtends(w: World, s: Step)
    requires Enabled(w, s)
    ensures Extends(w, After(w, s))
  {
    hide AnnouncePanics, Acceptable, FanOut, Holds, Published, Announced, Extends, Received, Grows, PublishStep;
    var w' := After(w, s);
    match s {
      case DoPublish(at, pq) => PublishExtends(w, at, pq);
      case Deliver(env) =>
        if env.to in w.trackers {
          ReceivedGrows(w.trackers[env.to], env.query);
          ReplaceExtends(w, env.to, Received(w.trackers[env.to], env.query), w');
        } else {
          SameExtends(w, w');
        }
      case Lose(env) => SameExtends(w, w');
      case DoKnowMe(at, kr) =>
        SameExtends(w, w);
        GrowsItself(w.trackers[at].torrents);
        if w' != w { ReplaceExtends(w, at, w'.trackers[at], w'); }
      case DoAnnounce(at, q) =>
        if w.trackers[at].locked {
          SameExtends(w, w');
        } else {
          AnnouncedGrows(w.trackers[at].torrents, q);
          ReplaceExtends(w, at, w'.trackers[at], w');
        }
      case Known(at, ip, port) =>
        GrowsItself(w.trackers[at].torrents);
        ReplaceExtends(w, at, w'.trackers[at], w');
      case Outside(at, rpq) =>
        ReceivedGrows(w.trackers[at], rpq);
        ReplaceExtends(w, at, w'.trackers[at], w');
    }
  }

  lemma GrowsItself(ts: Torrents)
    ensures Grows(ts, ts)
  {
  }

  lemma SameExtends(w: World, w': World)
    requires w'.trackers == w.trackers && w'.log == w.log
    ensures Extends(w, w')
  {
  }

  lemma ReceivedGrows(t: Tracker, rpq: RePublishQuery)
    ensures Grows(t.torrents, Received(t, rpq).torrents) && Received(t, rpq).key == t.key
  {
    hide Acceptable, Published;
    if rpq.ip.Some? {
      PublishedHolds(t.torrents, rpq.infoHash, Peer(rpq.peerID, rpq.ip.value, rpq.port, "seeder"));
    } else {
      NotAcceptable(rpq);
    }
  }

  lemma NotAcceptable(rpq: RePublishQuery)
    requires rpq.ip == None
    ensures !Acceptable(rpq.infoHash, rpq.peerID, rpq.ip, rpq.port)
  {
  }

  /** What an extension keeps. */
  lemma ExtendsKeeps(w: World, w': World)
    requires Extends(w, w')
    ensures forall e :: EntryOk(w, e) ==> EntryOk(w', e)
    ensures forall env :: Settled(w, env) ==> Settled(w', env)
    ensures forall h :: PublishedIn(w, h) ==> PublishedIn(w', h)
  {
    hide Holds, Acceptable;
    forall h | PublishedIn(w, h) ensures PublishedIn(w', h) {
      var e :| e in w.log && e.infoHash == h;
      assert e in w'.log;
    }
  }

  lemma {:induction false} SentIsLogged(log: seq<Entry>, env: Envelope)
    requires env in AllSent(log)
    ensures exists e :: e in log && env in SentBy(e)
  {
    hide SentBy;
    var init, last := log[..|log| - 1], log[|log| - 1];
    if env in SentBy(last) {
      assert last in log;
    } else {
      SentIsLogged(init, env);
      var e :| e in init && env in SentBy(e);
      assert e in log;
    }
  }

  lemma {:induction false} LoggedIsSent(log: seq<Entry>, e: Entry, env: Envelope)
    requires e in log && env in SentBy(e)
    ensures env in AllSent(log)
  {
    hide SentBy;
    var init, last := log[..|log| - 1], log[|log| - 1];
    if e in init { LoggedIsSent(init, e, env); }
  }

  /** A request asks what its publication says, of a tracker of the backup list. */
  lemma SentAsks(e: Entry, env: Envelope)
    ensures SentBy(e)[env] == if env.query == Question(e) && env.to in e.backups && env.to != "" then 1 else 0
  {
  }

  /** A tracker with the right key that takes a well-formed request lists what it asks for. */
  lemma ReceivedHolds(t: Tracker, rpq: RePublishQuery)
    requires Acceptable(rpq.infoHash, rpq.peerID, rpq.ip, rpq.port) && rpq.redKey == t.key
    ensures Holds(Received(t, rpq).torrents, rpq.infoHash, rpq.peerID)
    ensures Received(t, rpq).torrents.Keys == t.torrents.Keys + {rpq.infoHash}
  {
    PublishedHolds(t.torrents, rpq.infoHash, Peer(rpq.peerID, rpq.ip.value, rpq.port, "seeder"));
  }

  lemma ReceivedCounters(t: Tracker, rpq: RePublishQuery)
    requires CountersStuck(t.torrents) && KeyedById(t.torrents)
    ensures CountersStuck(Received(t, rpq).torrents) && KeyedById(Received(t, rpq).torrents)
  {
  }

  /** Every listed torrent was published, and the counters and keys of every tracker are right. */
  ghost predicate TorrentsOk(w: World) {
    (forall a, h :: a in w.trackers && h in w.trackers[a].torrents ==> PublishedIn(w, h))
    && (forall a :: a in w.trackers ==> CountersStuck(w.trackers[a].torrents) && KeyedById(w.trackers[a].torrents))
  }

  /** A tracker takes in a torrent that was published. */
  lemma TakesIn(w: World, a: string, t: Tracker, w': World, h: InfoHash)
    requires TorrentsOk(w) && a in w.trackers && w'.trackers == w.trackers[a := t] && w.log <= w'.log
    requires t.torrents.Keys <= w.trackers[a].torrents.Keys + {h} && PublishedIn(w', h)
    requires CountersStuck(t.torrents) && KeyedById(t.torrents)
    ensures TorrentsOk(w')
  {
    hide CountersStuck, KeyedById;
    forall b, g | b in w'.trackers && g in w'.trackers[b].torrents ensures PublishedIn(w', g) {
      if g != h {
        assert g in w.trackers[b].torrents && PublishedIn(w, g);
        var e :| e in w.log && e.infoHash == g;
        assert e in w'.log;
      }
    }
  }

  lemma InvParts(w: World)
    ensures Inv(w) <==>
            AllSent(w.log) == w.inFlight + w.arrived + w.lost
            && (forall env :: env in w.arrived ==> Settled(w, env))
            && (forall e :: e in w.log ==> EntryOk(w, e))
            && TorrentsOk(w)
  {
    hide CountersStuck, KeyedById, Settled, EntryOk, AllSent, PublishedIn;
  }

  lemma DeliverKeeps(w: World, env: Envelope)
    requires Inv(w) && Enabled(w, Deliver(env))
    ensures Inv(After(w, Deliver(env)))
  {
    hide Inv, Acceptable, Holds, SentBy, CountersStuck, KeyedById, Received, AllSent, TorrentsOk, Extends;
    var w' := After(w, Deliver(env));
    InvParts(w);
    InvParts(w');
    StepExtends(w, Deliver(env));
    ExtendsKeeps(w, w');
    assert env in AllSent(w.log);
    SentIsLogged(w.log, env);
    var e :| e in w.log && env in SentBy(e);
    SentAsks(e, env);
    assert EntryOk(w, e);
    assert PublishedIn(w', e.infoHash);
    if env.to in w.trackers {
      var t := w.trackers[env.to];
      CountersOf(w, env.to);
      ReceivedCounters(t, env.query);
      ReceivedKeys(t, env.query);
      if t.key == env.query.redKey { ReceivedHolds(t, env.query); }
      TakesIn(w, env.to, Received(t, env.query), w', e.infoHash);
    } else {
      SameTorrents(w, w');
    }
    assert Settled(w', env);
    assert w'.inFlight + w'.arrived + w'.lost == w.inFlight + w.arrived + w.lost;
  }

  lemma CountersOf(w: World, a: string)
    requires TorrentsOk(w) && a in w.trackers
    ensures CountersStuck(w.trackers[a].torrents) && KeyedById(w.trackers[a].torrents)
  {
  }

  lemma SameTorrents(w: World, w': World)
    requires TorrentsOk(w) && w'.trackers == w.trackers && w'.log == w.log
    ensures TorrentsOk(w')
  {
    hide CountersStuck, KeyedById;
    forall h | PublishedIn(w, h) ensures PublishedIn(w', h) {}
  }

  lemma ReceivedKeys(t: Tracker, rpq: RePublishQuery)
    ensures Received(t, rpq).torrents.Keys <= t.torrents.Keys + {rpq.infoHash}
  {
    hide Acceptable;
    if rpq.ip.Some? {
      PublishedHolds(t.torrents, rpq.infoHash, Peer(rpq.peerID, rpq.ip.value, rpq.port, "seeder"));
    } else {
      NotAcceptable(rpq);
    }
  }

  lemma PublishKeeps(w: World, at: string, pq: PublishQuery)
    requires Inv(w) && at in w.trackers
    ensures Inv(PublishStep(w, at, pq))
  {
    hide Inv, Holds, SentBy, CountersStuck, KeyedById, Published, FanOut, TorrentsOk, Extends;
    var w' := PublishStep(w, at, pq);
    InvParts(w);
    InvParts(w');
    PublishExtends(w, at, pq);
    ExtendsKeeps(w, w');
    if Acceptable(pq.infoHash, pq.peerID, pq.ip, pq.port) && !w.trackers[at].locked {
      var t, peer := w.trackers[at], Peer(pq.peerID, pq.ip.value, pq.port, "seeder");
      PublishedHolds(t.torrents, pq.infoHash, peer);
      CountersOf(w, at);
      HandlersKeep(t.torrents, pq.infoHash, peer, AnnounceQuery(pq.infoHash, "", None, 0, "", 0, false));
      NowPublished(w, at, pq);
      TakesIn(w, at, w'.trackers[at], w', pq.infoHash);
    }
  }

  /** What a publication adds to the log and to the requests. */
  lemma NowPublished(w: World, at: string, pq: PublishQuery)
    requires Inv(w) && at in w.trackers && Acceptable(pq.infoHash, pq.peerID, pq.ip, pq.port)
    requires !w.trackers[at].locked
    ensures var w' := PublishStep(w, at, pq);
            PublishedIn(w', pq.infoHash)
            && AllSent(w'.log) == w'.inFlight + w'.arrived + w'.lost
            && forall e :: e in w'.log ==> e in w.log || EntryOk(w', e)
  {
    hide SentBy, Published, FanOut, CountersStuck, KeyedById, Settled, Inv;
    var w', t, peer := PublishStep(w, at, pq), w.trackers[at], Peer(pq.peerID, pq.ip.value, pq.port, "seeder");
    InvParts(w);
    if pq.infoHash !in t.torrents {
      var e := Entry(at, t.key, pq.infoHash, peer, t.backups);
      PublishedHolds(t.torrents, pq.infoHash, peer);
      assert w'.log == w.log + [e] && w'.log[..|w.log|] == w.log;
      assert EntryOk(w', e) && e in w'.log;
    } else {
      WasPublished(w, at, pq.infoHash);
    }
  }

  lemma WasPublished(w: World, a: string, h: InfoHash)
    requires TorrentsOk(w) && a in w.trackers && h in w.trackers[a].torrents
    ensures PublishedIn(w, h)
  {
  }

  /** A step that brings in no torrent, no publication and no request. */
  lemma KeepRest(w: World, s: Step)
    requires Inv(w) && Enabled(w, s)
    requires var w' := After(w, s);
             w'.log == w.log && w'.arrived == w.arrived
             && w'.inFlight + w'.arrived + w'.lost == w.inFlight + w.arrived + w.lost
             && forall a :: a in w'.trackers ==>
                  w'.trackers[a].torrents.Keys == w.trackers[a].torrents.Keys
                  && CountersStuck(w'.trackers[a].torrents) && KeyedById(w'.trackers[a].torrents)
    ensures Inv(After(w, s))
  {
    hide After, CountersStuck, KeyedById, AllSent, Enabled;
    StepExtends(w, s);
    ExtendsKeeps(w, After(w, s));
  }

  lemma LoseKeeps(w: World, env: Envelope)
    requires Inv(w) && env in w.inFlight
    ensures Inv(After(w, Lose(env)))
  {
    hide CountersStuck, KeyedById, AllSent, EntryOk, Settled;
    var w' := After(w, Lose(env));
    assert w'.inFlight + w'.arrived + w'.lost == w.inFlight + w.arrived + w.lost;
    KeepRest(w, Lose(env));
  }

  lemma KnowMeKeeps(w: World, at: string, kr: KnowMeQuery)
    requires Inv(w) && at in w.trackers
    ensures Inv(After(w, DoKnowMe(at, kr)))
  {
    hide CountersStuck, KeyedById, AllSent, EntryOk, Settled;
    KeepRest(w, DoKnowMe(at, kr));
  }

  lemma KnownKeeps(w: World, at: string, ip: string, port: int)
    requires Inv(w) && at in w.trackers
    ensures Inv(After(w, Known(at, ip, port)))
  {
    hide CountersStuck, KeyedById, AllSent, EntryOk, Settled;
    KeepRest(w, Known(at, ip, port));
  }

  lemma AnnounceKeeps(w: World, at: string, q: AnnounceQuery)
    requires Inv(w) && Enabled(w, DoAnnounce(at, q))
    ensures Inv(After(w, DoAnnounce(at, q)))
  {
    hide CountersStuck, KeyedById, AllSent, EntryOk, Settled, Announced, AnnouncePanics;
    var ts := w.trackers[at].torrents;
    if !w.trackers[at].locked {
      AnnouncedGrows(ts, q);
      HandlersKeep(ts, [], Peer("", "", 0, ""), q);
    }
    KeepRest(w, DoAnnounce(at, q));
  }

  lemma OutsideKeeps(w: World, at: string, rpq: RePublishQuery)
    requires Inv(w) && Enabled(w, Outside(at, rpq))
    ensures Inv(After(w, Outside(at, rpq)))
  {
    hide CountersStuck, KeyedById, AllSent, EntryOk, Settled;
    KeepRest(w, Outside(at, rpq));
  }

  lemma StepKeeps(w: World, s: Step)
    requires Inv(w) && Enabled(w, s)
    ensures Inv(After(w, s))
  {
    hide Inv, After;
    match s {
      case DoPublish(at, pq) =>
        PublishKeeps(w, at, pq);
        AfterPublish(w, at, pq);
      case Deliver(env) => DeliverKeeps(w, env);
      case Lose(env) => LoseKeeps(w, env);
      case DoKnowMe(at, kr) => KnowMeKeeps(w, at, kr);
      case DoAnnounce(at, q) => AnnounceKeeps(w, at, q);
      case Known(at, ip, port) => KnownKeeps(w, at, ip, port);
      case Outside(at, rpq) => OutsideKeeps(w, at, rpq);
    }
  }

  lemma AfterPublish(w: World, at: string, pq: PublishQuery)
    requires at in w.trackers
    ensures After(w, DoPublish(at, pq)) == PublishStep(w, at, pq)
  {
  }

  lemma InitKeeps(w: World)
    requires Init(w)
    ensures Inv(w)
  {
  }

  // ---- whole runs ----

  lemma {:induction false} RunsKeep(w: World, steps: seq<Step>, w': World)
    requires Inv(w) && Runs(w, steps, w')
    ensures Inv(w')
    decreases |steps|
  {
    hide Inv, After, Enabled;
    if steps != [] {
      StepKeeps(w, steps[0]);
      RunsKeep(After(w, steps[0]), steps[1..], w');
    }
  }

  /** Nothing a tracker lists is ever forgotten, and no publication is. */
  lemma {:induction false} RunsExtend(w: World, steps: seq<Step>, w': World)
    requires Runs(w, steps, w')
    ensures Extends(w, w')
    decreases |steps|
  {
    hide After, Enabled;
    if steps != [] {
      StepExtends(w, steps[0]);
      RunsExtend(After(w, steps[0]), steps[1..], w');
      ExtendsTransitive(w, After(w, steps[0]), w');
    }
  }

  lemma ExtendsTransitive(a: World, b: World, c: World)
    requires Extends(a, b) && Extends(b, c)
    ensures Extends(a, c)
  {
    hide Holds;
  }

  /**
   * Replication, after any run: every tracker of the backup list at the moment a new torrent was published that
   * has the same key lists the peer under the torrent, or the one request to it is still on its way or was lost.
   * No request exists that is not one of those, and every torrent listed anywhere was published somewhere.
   */
  lemma Replicated(w0: World, steps: seq<Step>, w: World)
    requires Init(w0) && Runs(w0, steps, w)
    ensures forall e, a :: e in w.log && a in e.backups && a != "" && a in w.trackers && w.trackers[a].key == e.key ==>
              Holds(w.trackers[a].torrents, e.infoHash, e.peer.id)
              || Envelope(a, Question(e)) in w.inFlight || Envelope(a, Question(e)) in w.lost
    ensures AllSent(w.log) == w.inFlight + w.arrived + w.lost
    ensures forall e :: e in w.log ==> e.at in w.trackers && Holds(w.trackers[e.at].torrents, e.infoHash, e.peer.id)
    ensures forall a, h :: a in w.trackers && h in w.trackers[a].torrents ==> exists e :: e in w.log && e.infoHash == h
    ensures forall a :: a in w.trackers ==> CountersStuck(w.trackers[a].torrents)
  {
    hide Holds, SentBy, CountersStuck, KeyedById;
    InitKeeps(w0);
    RunsKeep(w0, steps, w);
    forall e, a | e in w.log && a in e.backups && a != "" && a in w.trackers && w.trackers[a].key == e.key
      ensures Holds(w.trackers[a].torrents, e.infoHash, e.peer.id)
              || Envelope(a, Question(e)) in w.inFlight || Envelope(a, Question(e)) in w.lost
    {
      var env := Envelope(a, Question(e));
      SentAsks(e, env);
      LoggedIsSent(w.log, e, env);
      assert env in w.inFlight + w.arrived + w.lost;
      if env in w.arrived { assert Settled(w, env); }
    }
    forall a, h | a in w.trackers && h in w.trackers[a].torrents ensures exists e :: e in w.log && e.infoHash == h {
      assert PublishedIn(w, h);
    }
  }

  /** Once a tracker lists a peer it lists it forever after. */
  lemma HoldsForever(w: World, steps: seq<Step>, w': World, a: string, h: InfoHash, p: string)
    requires Runs(w, steps, w') && a in w.trackers && Holds(w.trackers[a].torrents, h, p)
    ensures a in w'.trackers && Holds(w'.trackers[a].torrents, h, p)
  {
    RunsExtend(w, steps, w');
  }

  // ---- locks that are not released ----

  /** This request leaves the lock of the tracker held: its key is wrong or its address is known already. */
  predicate Locks(t: Tracker, s: Step, a: string) {
    s.DoKnowMe? && s.at == a && s.kr.ip.Some? && s.kr.port != 0
    && (s.kr.redKey != t.key || JoinHostPort(s.kr.ip.value, s.kr.port) in t.backups)
  }

  /** Nothing else locks a tracker, and nothing unlocks it. */
  lemma StepLocks(w: World, s: Step, a: string)
    requires Enabled(w, s) && a in w.trackers
    ensures a in After(w, s).trackers
    ensures After(w, s).trackers[a].locked <==> w.trackers[a].locked || Locks(w.trackers[a], s, a)
    ensures w.trackers[a].backups <= After(w, s).trackers[a].backups
  {
    hide After, Enabled, JoinHostPort;
    if s.DoKnowMe? && s.at == a {
      KnowMeAt(w, s, a);
      AcquaintedExactly(w.trackers[a], s.kr);
    } else {
      OtherStep(w, s, a);
    }
  }

  lemma KnowMeAt(w: World, s: Step, a: string)
    requires s.DoKnowMe? && s.at == a && a in w.trackers
    ensures a in After(w, s).trackers && After(w, s).trackers[a] == Acquainted(w.trackers[a], s.kr)
  {
    hide Acquainted;
  }

  /** A step other than a KnowMe of this tracker. */
  lemma OtherStep(w: World, s: Step, a: string)
    requires Enabled(w, s) && a in w.trackers && !(s.DoKnowMe? && s.at == a)
    ensures a in After(w, s).trackers
    ensures var (t, t') := (w.trackers[a], After(w, s).trackers[a]);
            t'.locked == t.locked && t.backups <= t'.backups
  {
    hide AnnouncePanics, Announced, Received, Acquainted, PublishStep, JoinHostPort, HostPort;
    match s {
      case DoPublish(at, pq) => PublishSame(w, at, pq, a);
      case Deliver(env) => ReceivedRest(w.trackers[a], env.query);
      case Outside(at, rpq) => ReceivedRest(w.trackers[a], rpq);
      case DoKnowMe(at, kr) =>
      case DoAnnounce(at, q) =>
      case Lose(env) =>
      case Known(at, ip, port) =>
    }
  }

  lemma PublishSame(w: World, at: string, pq: PublishQuery, a: string)
    requires at in w.trackers && a in w.trackers
    ensures var w' := PublishStep(w, at, pq);
            a in w'.trackers && w'.trackers[a].locked == w.trackers[a].locked
            && w'.trackers[a].backups == w.trackers[a].backups
            && (w.trackers[a].locked ==> w'.trackers[a] == w.trackers[a])
            && w'.arrived == w.arrived
            && forall e :: e in w'.log && e.at == a && w.trackers[a].locked ==> e in w.log
  {
    hide Published, SentBy, Acceptable;
  }

  lemma ReceivedRest(t: Tracker, rpq: RePublishQuery)
    ensures var t' := Received(t, rpq); t'.locked == t.locked && t'.backups == t.backups && t'.key == t.key
    ensures rpq.redKey != t.key ==> Received(t, rpq) == t
  {
    hide Published, Acceptable;
  }

  /** KnowMe, case by case. */
  lemma AcquaintedExactly(t: Tracker, kr: KnowMeQuery)
    ensures t.locked || kr.ip == None || kr.port == 0 ==> Acquainted(t, kr) == t
    ensures !t.locked && kr.ip.Some? && kr.port != 0 ==>
              var addr := JoinHostPort(kr.ip.value, kr.port);
              Acquainted(t, kr) == if kr.redKey != t.key || addr in t.backups then t.(locked := true)
                                   else t.(backups := t.backups + {addr})
  {
    hide JoinHostPort;
  }

  lemma StepWhenLocked(w: World, s: Step, a: string)
    requires Enabled(w, s) && a in w.trackers && w.trackers[a].locked
    ensures a in After(w, s).trackers && After(w, s).trackers[a] == w.trackers[a]
    ensures forall q :: After(w, s).arrived[Envelope(a, q)] == w.arrived[Envelope(a, q)]
    ensures forall e :: e in After(w, s).log && e.at == a ==> e in w.log
  {
    hide AnnouncePanics, Announced, Received, Acquainted, PublishStep, JoinHostPort, HostPort;
    match s {
      case DoPublish(at, pq) => PublishSame(w, at, pq, a);
      case Deliver(env) =>
      case Outside(at, rpq) => ReceivedRest(w.trackers[a], rpq);
      case DoKnowMe(at, kr) => AcquaintedExactly(w.trackers[a], kr);
      case DoAnnounce(at, q) =>
      case Lose(env) =>
      case Known(at, ip, port) =>
    }
  }

  /** A locked tracker stays as it is for good: no publication, request, announcement or backup tracker is taken in. */
  lemma {:induction false} LockedForever(w: World, steps: seq<Step>, w': World, a: string)
    requires Runs(w, steps, w') && a in w.trackers && w.trackers[a].locked
    ensures a in w'.trackers && w'.trackers[a] == w.trackers[a]
    ensures forall q :: w'.arrived[Envelope(a, q)] == w.arrived[Envelope(a, q)]
    ensures forall e :: e in w'.log && e.at == a ==> e in w.log
    decreases |steps|
  {
    hide After, Enabled;
    if steps != [] {
      StepWhenLocked(w, steps[0], a);
      LockedForever(After(w, steps[0]), steps[1..], w', a);
    }
  }

  /** A lock is only ever taken for good by a KnowMe with a wrong key or a known address. */
  lemma {:induction false} WhoLocked(w: World, steps: seq<Step>, w': World, a: string)
    requires Runs(w, steps, w') && a in w.trackers
    ensures a in w'.trackers && w.trackers[a].backups <= w'.trackers[a].backups
    ensures w.trackers[a].locked ==> w'.trackers[a].locked
    ensures w'.trackers[a].locked && !w.trackers[a].locked ==>
              exists s :: s in steps && Locks(w'.trackers[a], s, a)
    decreases |steps|
  {
    hide After, Enabled;
    if steps != [] {
      var next := After(w, steps[0]);
      StepLocks(w, steps[0], a);
      StepExtends(w, steps[0]);
      WhoLocked(next, steps[1..], w', a);
      RunsExtend(next, steps[1..], w');
      if next.trackers[a].locked && !w.trackers[a].locked {
        assert Locks(w.trackers[a], steps[0], a);
        assert Locks(w'.trackers[a], steps[0], a);
      }
    }
  }

  /** Asked twice to know the same address, whatever happens in between, a tracker is locked from then on. */
  lemma KnowMeTwice(w: World, a: string, kr: KnowMeQuery, between: seq<Step>, w1: World, later: seq<Step>, w2: World)
    requires Enabled(w, DoKnowMe(a, kr)) && kr.ip.Some? && kr.port != 0
    requires Runs(After(w, DoKnowMe(a, kr)), between, w1)
    ensures Enabled(w1, DoKnowMe(a, kr)) && After(w1, DoKnowMe(a, kr)).trackers[a].locked
    ensures Runs(After(w1, DoKnowMe(a, kr)), later, w2) ==>
              a in w2.trackers && w2.trackers[a].locked && w2.trackers[a].torrents == w1.trackers[a].torrents
  {
    hide Runs, After, JoinHostPort;
    var s := DoKnowMe(a, kr);
    KnowMeLists(w, a, kr);
    WhoLocked(After(w, s), between, w1, a);
    StepLocks(w1, s, a);
    KnowMeLists(w1, a, kr);
    if Runs(After(w1, s), later, w2) { LockedForever(After(w1, s), later, w2, a); }
  }

  lemma KnowMeLists(w: World, a: string, kr: KnowMeQuery)
    requires a in w.trackers
    ensures a in After(w, DoKnowMe(a, kr)).trackers
    ensures var t := After(w, DoKnowMe(a, kr)).trackers[a];
            t.torrents == w.trackers[a].torrents
            && (kr.ip.Some? && kr.port != 0 ==> t.locked || JoinHostPort(kr.ip.value, kr.port) in t.backups)
  {
    hide JoinHostPort;
  }

  // ---- what is recorded of a peer ----

  /** An announcement of the peer to this tracker that sets its state. */
  predicate SetsState(s: Step, a: string, h: InfoHash, p: string) {
    s.DoAnnounce? && s.at == a && s.q.infoHash == h && s.q.peerID == p
    && (s.q.event == "started" || s.q.event == "stopped")
  }

  /** The record of a listed peer. */
  function Record(w: World, a: string, h: InfoHash, p: string): Peer
    requires a in w.trackers && Holds(w.trackers[a].torrents, h, p)
  {
    w.trackers[a].torrents[h].peers[p]
  }

  /** ts' still has the record, but for the state if that may change. */
  predicate SameRecord(ts: Torrents, ts': Torrents, h: InfoHash, p: string, state: bool)
    requires Holds(ts, h, p)
  {
    Holds(ts', h, p)
    && var (before, after) := (ts[h].peers[p], ts'[h].peers[p]);
       before.id == after.id && before.ip == after.ip && before.port == after.port && (state ==> before == after)
  }

  lemma PublishedSame(ts: Torrents, infoHash: InfoHash, peer: Peer, h: InfoHash, p: string)
    requires Holds(ts, h, p)
    ensures SameRecord(ts, Published(ts, infoHash, peer), h, p, true)
  {
    hide Published;
    PublishedExactly(ts, infoHash, peer);
  }

  lemma ReceivedSame(t: Tracker, rpq: RePublishQuery, h: InfoHash, p: string)
    requires Holds(t.torrents, h, p)
    ensures SameRecord(t.torrents, Received(t, rpq).torrents, h, p, true)
  {
    hide Published, Acceptable;
    if rpq.ip.Some? {
      PublishedSame(t.torrents, rpq.infoHash, Peer(rpq.peerID, rpq.ip.value, rpq.port, "seeder"), h, p);
    } else {
      NotAcceptable(rpq);
    }
  }

  lemma AnnouncedSame(ts: Torrents, q: AnnounceQuery, h: InfoHash, p: string)
    requires !AnnouncePanics(ts, q) && Holds(ts, h, p)
    ensures SameRecord(ts, Announced(ts, q), h, p, !(q.infoHash == h && q.peerID == p && Heard(ts, q)))
  {
    hide Announced, AnnouncePanics;
    AnnouncedExactly(ts, q);
  }

  /** A step keeps the record of a listed peer: its ID and address always, its state unless it is announced. */
  lemma StepRecord(w: World, s: Step, a: string, h: InfoHash, p: string)
    requires Enabled(w, s) && a in w.trackers && Holds(w.trackers[a].torrents, h, p)
    ensures a in After(w, s).trackers
    ensures SameRecord(w.trackers[a].torrents, After(w, s).trackers[a].torrents, h, p, !SetsState(s, a, h, p))
  {
    hide AnnouncePanics, Announced, Published, Received, Acceptable, SentBy, Holds, SameRecord;
    var ts := w.trackers[a].torrents;
    ItselfSame(ts, h, p);
    match s {
      case DoPublish(at, pq) =>
        if pq.ip.Some? { PublishedSame(ts, pq.infoHash, Peer(pq.peerID, pq.ip.value, pq.port, "seeder"), h, p); }
        PublishAt(w, at, pq, a);
      case Deliver(env) => ReceivedSame(w.trackers[a], env.query, h, p);
      case DoAnnounce(at, q) => if at == a && !w.trackers[a].locked { AnnouncedStep(ts, s, a, h, p); }
      case Outside(at, rpq) => ReceivedSame(w.trackers[a], rpq, h, p);
      case Lose(env) =>
      case DoKnowMe(at, kr) =>
      case Known(at, ip, port) =>
    }
  }

  lemma ItselfSame(ts: Torrents, h: InfoHash, p: string)
    requires Holds(ts, h, p)
    ensures SameRecord(ts, ts, h, p, true) && SameRecord(ts, ts, h, p, false)
  {
  }

  lemma PublishAt(w: World, at: string, pq: PublishQuery, a: string)
    requires at in w.trackers && a in w.trackers
    ensures var ts := PublishStep(w, at, pq).trackers[a].torrents;
            ts == w.trackers[a].torrents
            || (a == at && pq.ip.Some?
                && ts == Published(w.trackers[a].torrents, pq.infoHash,
                                   Peer(pq.peerID, pq.ip.value, pq.port, "seeder")))
  {
    hide Published, SentBy;
  }

  lemma AnnouncedStep(ts: Torrents, s: Step, a: string, h: InfoHash, p: string)
    requires s.DoAnnounce? && s.at == a && !AnnouncePanics(ts, s.q) && Holds(ts, h, p)
    ensures SameRecord(ts, Announced(ts, s.q), h, p, !SetsState(s, a, h, p))
  {
    hide Announced, AnnouncePanics;
    AnnouncedSame(ts, s.q, h, p);
  }

  /** Over any run a listed peer keeps its ID and address, and its state as well while none is announced for it. */
  lemma {:induction false} RecordKept(w: World, steps: seq<Step>, w': World, a: string, h: InfoHash, p: string)
    requires Runs(w, steps, w') && a in w.trackers && Holds(w.trackers[a].torrents, h, p)
    ensures a in w'.trackers && Holds(w'.trackers[a].torrents, h, p)
    ensures var (r, r') := (Record(w, a, h, p), Record(w', a, h, p));
            r'.id == r.id && r'.ip == r.ip && r'.port == r.port
            && ((forall s :: s in steps ==> !SetsState(s, a, h, p)) ==> r' == r)
    decreases |steps|
  {
    hide After, Enabled, SetsState, Holds;
    if steps != [] {
      var next := After(w, steps[0]);
      StepRecord(w, steps[0], a, h, p);
      RecordKept(next, steps[1..], w', a, h, p);
    }
  }

  /** The state announced last: it stays, and after "stopped" no selection of that tracker has the peer. */
  lemma LastAnnounced(w: World, a: string, q: AnnounceQuery, steps: seq<Step>, w': World)
    requires Inv(w) && Enabled(w, DoAnnounce(a, q)) && Heard(w.trackers[a].torrents, q) && !w.trackers[a].locked
    requires Runs(After(w, DoAnnounce(a, q)), steps, w')
    requires forall s :: s in steps ==> !SetsState(s, a, q.infoHash, q.peerID)
    ensures a in w'.trackers && Holds(w'.trackers[a].torrents, q.infoHash, q.peerID)
    ensures Record(w', a, q.infoHash, q.peerID).state == q.event
    ensures q.event == "stopped" ==>
              var pp := w'.trackers[a].torrents[q.infoHash].peers;
              forall asker, numwant, peers :: Selected(pp, asker, numwant, peers) ==> q.peerID !in peers
  {
    hide Runs, SetsState, Inv, Selected, AnnouncePanics, Announced;
    var ts, w1 := w.trackers[a].torrents, After(w, DoAnnounce(a, q));
    AnnouncedExactly(ts, q);
    RecordKept(w1, steps, w', a, q.infoHash, q.peerID);
    AnnounceKeeps(w, a, q);
    RunsKeep(w1, steps, w');
    KeyedAt(w', a, q.infoHash);
    var pp := w'.trackers[a].torrents[q.infoHash].peers;
    if q.event == "stopped" {
      forall asker, numwant, peers | Selected(pp, asker, numwant, peers) ensures q.peerID !in peers {
        SelectedNever(pp, asker, numwant, peers);
      }
    }
  }

  lemma KeyedAt(w: World, a: string, h: InfoHash)
    requires Inv(w) && a in w.trackers && h in w.trackers[a].torrents
    ensures Keyed(w.trackers[a].torrents[h].peers)
  {
    hide CountersStuck, EntryOk, Settled, AllSent, PublishedIn;
    var ts := w.trackers[a].torrents;
    assert KeyedById(ts);
    forall p | p in ts[h].peers ensures ts[h].peers[p].id == p { assert h in ts && p in ts[h].peers; }
  }

  // ---- where addresses come from ----

  /** A publication or a "started" announcement of the peer under the torrent that gives this address. */
  predicate Claims(s: Step, h: InfoHash, p: string, ip: string, port: int) {
    (s.DoPublish? && s.pq.infoHash == h && s.pq.peerID == p && s.pq.ip == Some(ip) && s.pq.port == port)
    || (s.DoAnnounce? && s.q.infoHash == h && s.q.peerID == p && s.q.ip == Some(ip) && s.q.port == port
        && s.q.event == "started")
  }

  ghost predicate Claimed(past: seq<Step>, h: InfoHash, p: string, ip: string, port: int) {
    exists s :: s in past && Claims(s, h, p, ip, port)
  }

  /** Every record of the tracker is claimed, under its own ID. */
  ghost predicate RecordsClaimed(past: seq<Step>, ts: Torrents) {
    forall h, p :: Holds(ts, h, p) ==>
                     var r := ts[h].peers[p];
                     r.id == p && Claimed(past, h, p, r.ip, r.port)
  }

  ghost predicate QueryClaimed(past: seq<Step>, q: RePublishQuery) {
    q.ip.Some? && Claimed(past, q.infoHash, q.peerID, q.ip.value, q.port)
  }

  ghost predicate Origins(past: seq<Step>, w: World) {
    (forall a :: a in w.trackers ==> RecordsClaimed(past, w.trackers[a].torrents))
    && forall env :: env in w.inFlight ==> QueryClaimed(past, env.query)
  }

  lemma ClaimedLater(past: seq<Step>, s: Step)
    ensures forall h, p, ip, port :: Claimed(past, h, p, ip, port) ==> Claimed(past + [s], h, p, ip, port)
    ensures forall h, p, ip, port :: Claims(s, h, p, ip, port) ==> Claimed(past + [s], h, p, ip, port)
  {
    hide Claims;
    forall h, p, ip, port | Claimed(past, h, p, ip, port) ensures Claimed(past + [s], h, p, ip, port) {
      var c :| c in past && Claims(c, h, p, ip, port);
      assert c in past + [s];
    }
    assert s in past + [s];
  }

  lemma RecordsLater(past: seq<Step>, s: Step, ts: Torrents)
    requires RecordsClaimed(past, ts)
    ensures RecordsClaimed(past + [s], ts)
  {
    hide Claimed;
    ClaimedLater(past, s);
    forall h, p | Holds(ts, h, p)
      ensures ts[h].peers[p].id == p && Claimed(past + [s], h, p, ts[h].peers[p].ip, ts[h].peers[p].port)
    {
      assert Claimed(past, h, p, ts[h].peers[p].ip, ts[h].peers[p].port);
    }
  }

  lemma PublishedClaimed(past: seq<Step>, ts: Torrents, h: InfoHash, peer: Peer)
    requires RecordsClaimed(past, ts) && Claimed(past, h, peer.id, peer.ip, peer.port)
    ensures RecordsClaimed(past, Published(ts, h, peer))
  {
    hide Claimed, Published;
    PublishedExactly(ts, h, peer);
  }

  lemma ReceivedClaimed(past: seq<Step>, t: Tracker, rpq: RePublishQuery)
    requires RecordsClaimed(past, t.torrents) && (rpq.redKey == t.key ==> QueryClaimed(past, rpq))
    ensures RecordsClaimed(past, Received(t, rpq).torrents)
  {
    hide Claimed, Published, RecordsClaimed, Acceptable;
    if rpq.redKey == t.key {
      PublishedClaimed(past, t.torrents, rpq.infoHash, Peer(rpq.peerID, rpq.ip.value, rpq.port, "seeder"));
    }
  }

  lemma AnnouncedClaimed(past: seq<Step>, ts: Torrents, q: AnnounceQuery)
    requires RecordsClaimed(past, ts) && !AnnouncePanics(ts, q)
    requires q.event == "started" && q.ip.Some? ==> Claimed(past, q.infoHash, q.peerID, q.ip.value, q.port)
    ensures RecordsClaimed(past, Announced(ts, q))
  {
    hide Claimed, Announced, AnnouncePanics;
    AnnouncedExactly(ts, q);
  }

  lemma StepOrigins(past: seq<Step>, w: World, s: Step)
    requires Origins(past, w) && Enabled(w, s)
    ensures Origins(past + [s], After(w, s))
  {
    hide After, Enabled, RecordsClaimed, QueryClaimed, Claimed;
    var past', w' := past + [s], After(w, s);
    StepExtends(w, s);
    forall env | env in w'.inFlight ensures QueryClaimed(past', env.query) {
      if env in w.inFlight { QueryLater(past, s, env.query); } else { NewQuery(past, w, s, env); }
    }
    forall a | a in w'.trackers ensures RecordsClaimed(past', w'.trackers[a].torrents) {
      StepClaimed(past, w, s, a);
    }
  }

  lemma StepClaimed(past: seq<Step>, w: World, s: Step, a: string)
    requires Origins(past, w) && Enabled(w, s) && a in w.trackers
    ensures a in After(w, s).trackers && RecordsClaimed(past + [s], After(w, s).trackers[a].torrents)
  {
    hide AnnouncePanics, Announced, Published, Received, Acceptable, SentBy, RecordsClaimed, Claimed, QueryClaimed,
         PublishStep;
    var past', ts := past + [s], w.trackers[a].torrents;
    RecordsLater(past, s, ts);
    match s {
      case DoPublish(at, pq) => PublishClaimed(past, w, s, a);
      case Deliver(env) =>
        QueryLater(past, s, env.query);
        ReceivedClaimed(past', w.trackers[a], env.query);
      case DoAnnounce(at, q) =>
        if a == at && !w.trackers[a].locked {
          ClaimedLater(past, s);
          AnnouncedClaimed(past', ts, q);
        }
      case Outside(at, rpq) => if a == at { ReceivedClaimed(past', w.trackers[a], rpq); }
      case Lose(env) =>
      case DoKnowMe(at, kr) =>
      case Known(at, ip, port) =>
    }
  }

  lemma PublishClaimed(past: seq<Step>, w: World, s: Step, a: string)
    requires Origins(past, w) && s.DoPublish? && s.at in w.trackers && a in w.trackers
    ensures PublishStep(w, s.at, s.pq).trackers.Keys == w.trackers.Keys
    ensures RecordsClaimed(past + [s], PublishStep(w, s.at, s.pq).trackers[a].torrents)
  {
    hide Published, SentBy, RecordsClaimed, Claimed, QueryClaimed;
    var pq, ts := s.pq, w.trackers[a].torrents;
    ClaimedLater(past, s);
    RecordsLater(past, s, ts);
    PublishAt(w, s.at, pq, a);
    if a == s.at && pq.ip.Some? {
      PublishedClaimed(past + [s], ts, pq.infoHash, Peer(pq.peerID, pq.ip.value, pq.port, "seeder"));
    }
  }

  lemma QueryLater(past: seq<Step>, s: Step, q: RePublishQuery)
    requires QueryClaimed(past, q)
    ensures QueryClaimed(past + [s], q)
  {
    hide Claimed;
    ClaimedLater(past, s);
  }

  /** A request that is new was sent by the publication of this step and says what it said. */
  lemma NewQuery(past: seq<Step>, w: World, s: Step, env: Envelope)
    requires Enabled(w, s) && env in After(w, s).inFlight && env !in w.inFlight
    ensures s.DoPublish? && s.at in w.trackers && s.pq.ip.Some?
    ensures env.query == RePublishQuery(w.trackers[s.at].key, s.pq.infoHash, s.pq.peerID, s.pq.ip, s.pq.port)
    ensures QueryClaimed(past + [s], env.query)
  {
    hide AnnouncePanics, Announced, Published, Received, SentBy, Claimed;
    ClaimedLater(past, s);
    assert s.DoPublish?;
    var pq, t := s.pq, w.trackers[s.at];
    SentAsks(Entry(s.at, t.key, pq.infoHash, Peer(pq.peerID, pq.ip.value, pq.port, "seeder"), t.backups), env);
  }

  lemma {:induction false} RunOrigins(past: seq<Step>, w: World, steps: seq<Step>, w': World)
    requires Origins(past, w) && Runs(w, steps, w')
    ensures Origins(past + steps, w')
    decreases |steps|
  {
    hide Origins, After, Enabled;
    if steps == [] {
      assert past + steps == past;
    } else {
      StepOrigins(past, w, steps[0]);
      RunOrigins(past + [steps[0]], After(w, steps[0]), steps[1..], w');
      assert past + [steps[0]] + steps[1..] == past + steps;
    }
  }

  /**
   * After any run every peer listed anywhere has the address that a publication or a "started" announcement of its ID
   * under that torrent gave, and so has every request on its way.
   */
  lemma AddressesClaimed(w0: World, steps: seq<Step>, w: World)
    requires Init(w0) && Runs(w0, steps, w)
    ensures forall a, h, p :: a in w.trackers && Holds(w.trackers[a].torrents, h, p) ==>
              var r := Record(w, a, h, p);
              r.id == p && exists s :: s in steps && Claims(s, h, p, r.ip, r.port)
    ensures forall env :: env in w.inFlight ==>
              env.query.ip.Some?
              && exists s :: s in steps && Claims(s, env.query.infoHash, env.query.peerID, env.query.ip.value,
                                                  env.query.port)
  {
    hide Runs, Claims;
    assert Origins([], w0);
    RunOrigins([], w0, steps, w);
    assert [] + steps == steps;
    forall a, h, p | a in w.trackers && Holds(w.trackers[a].torrents, h, p)
      ensures Record(w, a, h, p).id == p
      ensures exists s :: s in steps && Claims(s, h, p, Record(w, a, h, p).ip, Record(w, a, h, p).port)
    {
      assert RecordsClaimed(steps, w.trackers[a].torrents);
    }
  }

  /** What a publication leaves, field by field: the entry of the log, the requests, the record of its tracker. */
  lemma PublishedRecord(w: World, at: string, pq: PublishQuery)
    requires at in w.trackers && |pq.infoHash| == 20 && pq.peerID != "" && pq.ip.Some? && pq.port != 0
    requires pq.infoHash !in w.trackers[at].torrents && !w.trackers[at].locked
    ensures var w' := After(w, DoPublish(at, pq));
            var t := w.trackers[at];
            var peer := Peer(pq.peerID, pq.ip.value, pq.port, "seeder");
            w'.log == w.log + [Entry(at, t.key, pq.infoHash, peer, t.backups)]
            && (forall a :: a in t.backups && a != "" ==>
                  Envelope(a, RePublishQuery(t.key, pq.infoHash, pq.peerID, pq.ip, pq.port)) in w'.inFlight)
            && at in w'.trackers && Holds(w'.trackers[at].torrents, pq.infoHash, pq.peerID)
            && Record(w', at, pq.infoHash, pq.peerID) == peer
  {
    hide Published, SentBy;
    var t, peer := w.trackers[at], Peer(pq.peerID, pq.ip.value, pq.port, "seeder");
    PublishedExactly(t.torrents, pq.infoHash, peer);
    forall a | a in t.backups && a != ""
      ensures Envelope(a, RePublishQuery(t.key, pq.infoHash, pq.peerID, pq.ip, pq.port))
              in After(w, DoPublish(at, pq)).inFlight
    {
      SentAsks(Entry(at, t.key, pq.infoHash, peer, t.backups),
               Envelope(a, RePublishQuery(t.key, pq.infoHash, pq.peerID, pq.ip, pq.port)));
    }
  }

  /**
   * What a delivered request leaves, field by field: a tracker with its key that did not list the peer lists it with
   * the address of the request as a seeder; a peer that was listed keeps its record, and another key changes nothing.
   */
  lemma DeliveredRecord(w: World, env: Envelope)
    requires Inv(w) && Enabled(w, Deliver(env)) && env.to in w.trackers
    ensures exists e :: e in w.log && env.to in e.backups
              && env.query == RePublishQuery(e.key, e.infoHash, e.peer.id, Some(e.peer.ip), e.peer.port)
    ensures var w', q, t := After(w, Deliver(env)), env.query, w.trackers[env.to];
            env.to in w'.trackers
            && (q.redKey != t.key || Holds(t.torrents, q.infoHash, q.peerID) ==>
                  w'.trackers[env.to].torrents == t.torrents)
            && (q.redKey == t.key ==>
                  Holds(w'.trackers[env.to].torrents, q.infoHash, q.peerID) && q.ip.Some?
                  && (!Holds(t.torrents, q.infoHash, q.peerID) ==>
                        Record(w', env.to, q.infoHash, q.peerID) == Peer(q.peerID, q.ip.value, q.port, "seeder")))
  {
    hide SentBy, CountersStuck, KeyedById, AllSent, Settled, PublishedIn, Published;
    var q, t := env.query, w.trackers[env.to];
    assert env in AllSent(w.log);
    SentIsLogged(w.log, env);
    var e :| e in w.log && env in SentBy(e);
    SentAsks(e, env);
    assert EntryOk(w, e);
    PublishedAgain(t.torrents, q.infoHash, Peer(q.peerID, q.ip.value, q.port, "seeder"));
  }

  /**
   * Replication of a record, end to end: a new torrent is published, its request to a backup tracker with the same key
   * is sent at once, arrives some time later where the peer is not listed yet, and ever after that tracker lists the
   * peer with the address of the publication, as a seeder until something else is announced there.
   */
  lemma RecordReplicated(w: World, at: string, pq: PublishQuery, b: string, w1: World, before: seq<Step>, w2: World,
                         w3: World, later: seq<Step>, w': World)
    requires Inv(w) && Enabled(w, DoPublish(at, pq)) && w1 == After(w, DoPublish(at, pq))
    requires |pq.infoHash| == 20 && pq.peerID != "" && pq.ip.Some? && pq.port != 0
    requires pq.infoHash !in w.trackers[at].torrents && b in w.trackers[at].backups && b != ""
    requires !w.trackers[at].locked
    requires b in w.trackers && w.trackers[b].key == w.trackers[at].key
    requires var env := Envelope(b, RePublishQuery(w.trackers[at].key, pq.infoHash, pq.peerID, pq.ip, pq.port));
             Runs(w1, before, w2) && Enabled(w2, Deliver(env)) && w3 == After(w2, Deliver(env)) && Runs(w3, later, w')
    requires b in w2.trackers && !Holds(w2.trackers[b].torrents, pq.infoHash, pq.peerID)
    ensures Envelope(b, RePublishQuery(w.trackers[at].key, pq.infoHash, pq.peerID, pq.ip, pq.port)) in w1.inFlight
    ensures b in w'.trackers && Holds(w'.trackers[b].torrents, pq.infoHash, pq.peerID)
    ensures var r := Record(w', b, pq.infoHash, pq.peerID);
            r.id == pq.peerID && r.ip == pq.ip.value && r.port == pq.port
            && ((forall s :: s in later ==> !SetsState(s, b, pq.infoHash, pq.peerID)) ==> r.state == "seeder")
  {
    hide After, Inv, Runs, Holds, SetsState;
    var env := Envelope(b, RePublishQuery(w.trackers[at].key, pq.infoHash, pq.peerID, pq.ip, pq.port));
    PublishedRecord(w, at, pq);
    StepKeeps(w, DoPublish(at, pq));
    StepExtends(w, DoPublish(at, pq));
    RunsKeep(w1, before, w2);
    RunsExtend(w1, before, w2);
    DeliveredRecord(w2, env);
    RecordKept(w3, later, w', b, pq.infoHash, pq.peerID);
  }

  lemma PublishedAgain(ts: Torrents, h: InfoHash, peer: Peer)
    ensures Holds(ts, h, peer.id) ==> Published(ts, h, peer) == ts
    ensures Holds(Published(ts, h, peer), h, peer.id)
    ensures !Holds(ts, h, peer.id) ==> Published(ts, h, peer)[h].peers[peer.id] == peer
  {
  }

  /** When everything sent has arrived, all backup trackers with the key of a publication list it. */
  lemma Quiescent(w0: World, steps: seq<Step>, w: World, e: Entry, a: string)
    requires Init(w0) && Runs(w0, steps, w) && w.inFlight == w.lost == multiset{}
    requires e in w.log && a in e.backups && a != "" && a in w.trackers && w.trackers[a].key == e.key
    ensures Holds(w.trackers[a].torrents, e.infoHash, e.peer.id)
  {
    hide Holds, Runs, Question, CountersStuck, AllSent, Init;
    Replicated(w0, steps, w);
  }

  /** A publication sends exactly one request to each backup tracker and none elsewhere; nothing else sends any. */
  lemma OneRequestEach(w: World, s: Step, env: Envelope)
    requires Enabled(w, s)
    ensures After(w, s).inFlight[env] > w.inFlight[env] ==>
              s.DoPublish? && After(w, s).log != w.log
              && var e := After(w, s).log[|After(w, s).log| - 1];
                 After(w, s).log == w.log + [e] && env.query == Question(e) && env.to in e.backups && env.to != ""
                 && After(w, s).inFlight[env] == w.inFlight[env] + 1
    ensures s.DoPublish? && After(w, s).log != w.log ==>
              var e := After(w, s).log[|After(w, s).log| - 1];
              e.backups == w.trackers[s.at].backups
              && forall a :: a in e.backups && a != "" ==>
                   After(w, s).inFlight[Envelope(a, Question(e))] == w.inFlight[Envelope(a, Question(e))] + 1
  {
    hide FanOut, SentBy, AnnouncePanics;
    if s.DoPublish? && After(w, s).log != w.log {
      var e := After(w, s).log[|After(w, s).log| - 1];
      SentAsks(e, env);
      forall a | a in e.backups && a != ""
        ensures After(w, s).inFlight[Envelope(a, Question(e))] == w.inFlight[Envelope(a, Question(e))] + 1
      {
        SentAsks(e, Envelope(a, Question(e)));
      }
    }
  }
}
