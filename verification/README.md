# A model of the BitTorrent client and tracker

This project models the algorithmic core of the repository in Dafny and proves what it does: the Kademlia routing
table and iterative lookup, the key-value store of the DHT, the transfer of pieces between peers and the assembly of
a file, and the tracker with its replication to other trackers. `dafny verify dfyconfig.toml` checks all of it.

## How it is laid out

| file | what it models |
|---|---|
| `Numbers.dfy`, `Outcomes.dfy` | minimum and maximum; results that can be missing, fail or stop the program |
| `Bytes.dfy`, `Metric.dfy` | bytes, bits, big-endian numbers; the XOR metric and its logarithm |
| `Nodes.dfy`, `Strings.dfy`, `Wire.dfy` | node lists; `strings.Split`/`Join`; compact info and "//"-joined lists |
| `RoutingHistory.dfy`, `RoutingTable.dfy`, `NearestExact.dfy`, `RandomId.dfy` | the routing table over whole runs, nearest nodes, random IDs |
| `Lookup.dfy` | `find_node` and `get_peers` answers, the iterative lookup against any network, convergence in an honest one |
| `KStore.dfy` | the store and the simple map it refines |
| `Message.dfy`, `Transfer.dfy` | peer messages and framing; the windowed download of one piece against an uploader |
| `Metainfo.dfy`, `Download.dfy` | slots and hashes; the task loop of a connection, collecting pieces, a whole download |
| `SharedTasks.dfy` | several connections sharing one array of tasks |
| `Tracker.dfy`, `Replication.dfy` | the tracker's handlers and peer selection; several trackers as one step system |

Objects that the source updates in place are classes whose methods are proved against a specification: the routing
table against the history of its updates and removals (`RoutingTable.Valid`), the store against one map from live
pairs to their times (`KStore.Valid`), a download against the protocol's window (`Progress`) and the books of the
connection (`Accounts`), the tracker's handlers against functions on its maps. What those specifications promise is
proved about them as lemmas and invariants.

The network, the peer, the map iteration order, the random draws and the clock are inputs without any assumption: the
network of a lookup is an arbitrary function of the round and the nodes asked (in the convergence result the answering
tables may change from round to round), a peer is an arbitrary function giving the messages it sends, random outcomes
and `now` are parameters, and iteration orders are nondeterministic choices. SHA-1 is an arbitrary function; where a
result needs it, `Unforgeable` says that nothing of the same length but the slot itself has the hash of a slot of the
file. Where honest behaviour is a hypothesis, a lemma shows that it can be met (`HonestNetworkExists`,
`ConvergingExists`, `ServiceDelivers`, `SeederExists`).

## What the proofs found

- The nearest nodes are not always the nearest: buckets are visited b, b-1, b+1, b-2, ... . `NearestIsExact` gives
  the exact condition, from the sizes of the buckets and one bit test per pair of them; `NearestMisses` is a table of
  four nodes that fails it.
- Line 211 of `routingTable.go` parses as `(x & 1) << k`, so it tests the low bit of the byte. `RandomIdLands` says
  exactly when the random ID lies in its bucket, `RandomIdMisses` gives an ID and a bucket it never reaches. With the
  right bit test (`GetRandomIDCorrected`) the ID always lands, except that for a multiple of 8 the test adds nothing,
  all eight bits of the byte are random, and it lands only when they happen to fit.
- A list of nodes arrives as it was sent only under the condition of `NodesRoundTrip`; an empty answer to `find_node`
  stops the program of the asker (`EmptyListPanics`).
- `doneKeepAliveToDHT` is closed and never made (Client/torrent_peer/torrent_peer.go:286, 393), so the program stops
  as soon as a connection has finished its tasks: `DownloadFile` returns only in the variant with that channel made, and
  `DownloadFromSeeder` shows the stop for every file.
- `RemoveKeyValue` leaves both time maps alone, after which no map of live pairs describes the store. Composite keys
  collide exactly when a key or a value contains "/data:" (`CompositesCollide`). Expiry then takes the composite key
  apart into another pair (`DecodeExactly`) and removes that one if it is there; the value whose time is past stays,
  and no later expiry removes it (`NeverExpires`).
- `Serialize` computes 4 + length in 32 bits: messages survive exactly when payload + 5 is below 2^32.
- The event "completed" passes the check of an announcement but has no branch (line 272 asks for "complete"), so a
  peer that finished keeps its state and the counters of a torrent never move. README.md:49 of the repository promises
  otherwise; the model follows the code.
- README.md:59 of the repository says each publication is forwarded; the code forwards only those of new torrents.
- When one peer is wanted, `getRandomPeers` returns everybody if the first peer the map yields has the file and is not
  the asker, and nobody otherwise.
- `KnowMe` keeps the tracker's lock when the key is wrong or the address is known (lines 525-541 of `tacker.go`): a
  tracker that is asked twice to know the same address never answers again (`KnowMeTwice`, `LockedForever`).
- A trailing partial piece has no hash, so a download of a file of at least one piece covers all but its last
  length % pieceLength bytes.

## Model

| member | source | states |
|---|---|---|
| `Metric.DistanceOfBytes` | Client/dht/Kademlia/node.go:97-102 | The big-integer XOR of two IDs is the number written by their bytes XORed one by one |
| `Metric.DistanceSymmetric` | Client/dht/Kademlia/node.go:97-102 | Distance is symmetric |
| `Metric.DistanceZero` | Client/dht/Kademlia/node.go:97-102 | Distance is zero exactly between equal IDs |
| `Metric.TriangleInequality` | Client/dht/Kademlia/node.go:97-102 | Distance satisfies the triangle inequality |
| `Metric.DistanceInjective` | Client/dht/Kademlia/node.go:97-115 | Seen from one comparator, different IDs are at different distances, so sorting never ties |
| `Metric.BucketIndexIsLog` | Client/dht/Kademlia/routingTable.go:103-115 | For an ID other than self the bucket is the unique k with 2^k <= distance < 2^(k+1) |
| `Metric.BucketInRange` | Client/dht/Kademlia/routingTable.go:103-115 | Every ID has one of the 160 buckets |
| `Metric.SameBucketCloser` | Client/dht/Kademlia/routingTable.go:104-115 | IDs that share a bucket are nearer to each other than that bucket's width, hence than either is to self |
| `Metric.OtherBucketFar` | Client/dht/Kademlia/routingTable.go:104-115 | IDs in another bucket, and self, are at least the width of the target's bucket away from the target |
| `Nodes.SortIsUnique` | Client/dht/Kademlia/node.go:105-115 | With distinct IDs every correct sort by distance gives the same list |
| `Nodes.AppendNewFacts` | Client/dht/Kademlia/node.go:144-158 | Appending unknown nodes keeps the list as a prefix, adds exactly the new IDs and keeps IDs distinct |
| `Nodes.AppendNewLast` | Client/dht/Kademlia/node.go:144-158 | One more node is appended exactly when no node of the list so far has its ID |
| `Nodes.NodeList.RemoveNode` | Client/dht/Kademlia/node.go:118-125 | Removes the first node of that ID, and only that one |
| `Nodes.NodeList.AppendUnique` | Client/dht/Kademlia/node.go:144-158 | The search loops append exactly the nodes whose ID is not there yet, in order |
| `Nodes.NodeList.Sort` | Client/dht/Kademlia/node.go:105-115 | Comparing with Less and exchanging with Swap permutes the list into ascending distance |
| `RoutingHistory.ReplayDistinct` | Client/dht/Kademlia/routingTable.go:169-246 | After any updates and removals no ID is known twice |
| `RoutingHistory.ReplayLive` | Client/dht/Kademlia/routingTable.go:169-246 | An ID is known exactly when it was updated and not removed since |
| `RoutingHistory.ReplayAddress` | Client/dht/Kademlia/routingTable.go:227-246 | A node is stored exactly when it is the first update of its ID since the last removal: an old address stays |
| `RoutingHistory.ReplayOrder` | Client/dht/Kademlia/routingTable.go:239-243 | Known nodes stand in the order of their last update |
| `RoutingHistory.InBucketTouch` | Client/dht/Kademlia/routingTable.go:227-246 | An update changes the bucket of its ID as it changes the list of all nodes, and no other bucket |
| `RoutingHistory.InBucketForget` | Client/dht/Kademlia/routingTable.go:169-180 | So does a removal |
| `RoutingHistory.CountAll` | Client/dht/Kademlia/routingTable.go:92-101 | Every known node is counted in exactly one bucket |
| `RoutingTables.BucketOrderComplete` | Client/dht/Kademlia/routingTable.go:139-151 | The alternating index list visits each of the 160 buckets once: a bucket whose index is nearer to the first one comes earlier, and of two equally near ones the lower |
| `RoutingTables.NearestFacts` | Client/dht/Kademlia/routingTable.go:132-166 | An answer has min(num, total) distinct nodes of the table in strictly ascending distance |
| `RoutingTables.NearestFillsTargetBucket` | Client/dht/Kademlia/routingTable.go:154-163 | The target's bucket is used up before any other bucket is touched |
| `RoutingTables.NearestIsComplete` | Client/dht/Kademlia/routingTable.go:132-166 | With at most num nodes in the table the answer is the whole table |
| `RoutingTables.NearestIsUnique` | Client/dht/Kademlia/routingTable.go:132-166 | The answer is determined by the table, the target and num |
| `RoutingTables.BucketSeparation` | Client/dht/Kademlia/routingTable.go:104-166 | Nodes of the target's bucket are strictly nearer to the target than the owner and than every other node |
| `RoutingTables.BucketZero` | Client/dht/Kademlia/routingTable.go:114 | Bucket 0, where the owner's own ID may sit, has at most two nodes |
| `RoutingTables.NearestMakesProgress` | Client/dht/Kademlia/routingTable.go:132-166 | If the target's bucket holds a node but the owner, the answer starts below the width of that bucket if and only if two nodes are asked for, or one and the owner is not listed first |
| `RoutingTables.RoutingTable.WholeRun` | Client/dht/Kademlia/routingTable.go:169-246 | After any run: a bucket holds exactly the live nodes of its binade, under their first address, once, by last update |
| `RoutingTables.RoutingTable.ValidTable` | Client/dht/Kademlia/routingTable.go:169-246 | After any run the table is well formed and holds exactly the known nodes |
| `RoutingTables.RoutingTable.NearestOfKnown` | Client/dht/Kademlia/routingTable.go:132-166 | After any run an answer has min(num, known) nodes, all known, and all of them if num suffices |
| `RoutingTables.RoutingTable.GetFirstDifBitBucketIndex` | Client/dht/Kademlia/routingTable.go:104-115 | The nested loop over bytes and bits computes the floor of the logarithm of the distance, 0 for self |
| `RoutingTables.RoutingTable.NodeInBucket` | Client/dht/Kademlia/routingTable.go:118-129 | Finds the first node of an ID in a bucket, or -1 |
| `RoutingTables.RoutingTable.UpdateBucketOfNode` | Client/dht/Kademlia/routingTable.go:227-246 | The in-place update keeps the table the replay of its history with this update added |
| `RoutingTables.RoutingTable.CompactWhileRanging` | Client/dht/Kademlia/routingTable.go:175-179 | Compacting the bucket in place while ranging over its old slice removes the ID and never slices out of bounds |
| `RoutingTables.RoutingTable.RemoveNode` | Client/dht/Kademlia/routingTable.go:169-180 | Keeps the table the replay of its history with this removal added |
| `RoutingTables.RoutingTable.GetTotalKnownNodes` | Client/dht/Kademlia/routingTable.go:92-101 | Counts the distinct live IDs |
| `RoutingTables.RoutingTable.IndexesFrom` | Client/dht/Kademlia/routingTable.go:139-151 | The loop builds the alternating index list |
| `RoutingTables.RoutingTable.AppendFrom` | Client/dht/Kademlia/routingTable.go:156-162 | Takes as many nodes of one bucket, in list order, as are still wanted |
| `RoutingTables.RoutingTable.GetNearestNodes` | Client/dht/Kademlia/routingTable.go:132-166 | Returns the first num nodes of the visit, sorted by distance |
| `RoutingTables.RoutingTable.GetNodesInBucketClosestThanRT` | Client/dht/Kademlia/routingTable.go:249-265 | Returns exactly the nodes of the bucket at a smaller distance from the ID than the owner, which is the whole bucket but the own ID, and nothing when asked for self |
| `RoutingTables.CloserThanOwner` | Client/dht/Kademlia/routingTable.go:256-263 | In the bucket of an ID a node is nearer to it than the owner if and only if neither it nor the ID is the owner |
| `NearestExact.BucketsOrdered` | Client/dht/Kademlia/routingTable.go:132-166 | Which of two nodes in different buckets is nearer to the target is one bit of the target's distance |
| `NearestExact.NearestIsExact` | Client/dht/Kademlia/routingTable.go:131-166 | The answer leaves out no nearer node if and only if, by the sizes of the buckets and one bit per pair, every bucket taken from is nearer than every later one with something left, and the cut bucket lists its nearer nodes first |
| `NearestExact.NearestMisses` | Client/dht/Kademlia/routingTable.go:131-166 | A well-formed table and a target for which a nearer node is left out |
| `RandomId.DrawByte` | Client/dht/Kademlia/routingTable.go:204-217 | The first differing byte: bits of self, then the bit the test asks for, then the random bits |
| `RandomId.BuildID` | Client/dht/Kademlia/routingTable.go:191-224 | 20 bytes that share the bytes of self before the differing one and end in the random bytes |
| `RandomId.DrawnIdLands` | Client/dht/Kademlia/routingTable.go:191-224 | For every outcome of the test: the ID lies in bucket b if and only if that bit is flipped, or for multiples of 8 the random bits are right |
| `RandomId.GetRandomIDFromBucket` | Client/dht/Kademlia/routingTable.go:191-224 | The ID of the source lies in bucket b exactly when two bits of self's byte agree, or for multiples of 8 when the random bits are right |
| `RandomId.RandomIdLands` | Client/dht/Kademlia/routingTable.go:211 | The test of line 211 asks for the low bit of the byte, and where its ID lies |
| `RandomId.GetRandomIDCorrected` | Client/dht/Kademlia/routingTable.go:190-224 | With the right bit test the ID always lies in bucket b unless b is a multiple of 8, and there exactly when the random bits are right |
| `RandomId.FlippedBitLands` | Client/dht/Kademlia/routingTable.go:190 | An ID that shares the first bits of self and differs in the next one lies in the bucket of that bit |
| `RandomId.RandomIdMisses` | Client/dht/Kademlia/routingTable.go:211 | A self and a bucket for which it never does |
| `Strings.JoinOfSplit` | Client/dht/Kademlia/dht.go:206 | Joining what was split restores the string |
| `Strings.SplitOfJoin` | Client/dht/Kademlia/handler.go:93 | Splitting a join gives the parts back if and only if no part hides a separator or runs into one |
| `Wire.CompactInfoRoundTrip` | Client/dht/Kademlia/node.go:34-55 | Compact info decodes to its node if and only if the IP has 16 bytes and the port 16 bits |
| `Wire.CompactInfoLayout` | Client/dht/Kademlia/node.go:34-42 | Bytes 0 to 19 are the ID, 20 to 35 the IP, 36 and 37 the low 16 bits of the port, high byte first |
| `Wire.FromCompactInfoExactly` | Client/dht/Kademlia/node.go:44-57 | For any bytes: fewer than 36 stop the program, a short port is filled with zeros, further bytes are ignored |
| `Wire.SplitSlashes` | Client/dht/Kademlia/handler.go:93-128 | A non-empty "//"-join splits back if and only if no part has "//" and none but the last ends in "/" |
| `Wire.SlashFreeSurvives` | Client/dht/Kademlia/handler.go:125-128 | Address lists, which have no slash, always survive |
| `Wire.NodesRoundTrip` | Client/dht/Kademlia/dht.go:205-215 | A list of nodes arrives as it was sent if and only if it is not empty, its infos are slash safe and every node is representable |
| `Wire.EmptyListPanics` | Client/dht/Kademlia/dht.go:206-210 | An empty node list stops the program of the receiver |
| `Lookup.FindNode` | Client/dht/Kademlia/dht.go:91-98 | The compact infos of the nearest nodes, 20 or all that are known when these are fewer |
| `Lookup.ResponseFindNode` | Client/dht/Kademlia/handler.go:86-100 | Answers with the joined infos of the K nearest nodes |
| `Lookup.HandleFindNode` | Client/dht/Kademlia/handler.go:86-105 | Answers from the table before the asking node is noted in it |
| `Lookup.NotedKeeps` | Client/dht/Kademlia/handler.go:103-104 | Noting a live node that asked leaves the tables of the live nodes well formed and their coverage as it was |
| `Lookup.GetPeers` | Client/dht/Kademlia/dht.go:101-107 | Exactly the values the store holds for the infohash, in ascending order, or the nearest nodes |
| `Lookup.HandleGetPeers` | Client/dht/Kademlia/handler.go:108-140 | Answers with the stored values, which split back exactly when slash safe, or the nearest nodes, then notes the asking node |
| `Lookup.AbsorbFacts` | Client/dht/Kademlia/dht.go:202-232 | A round forgets no node and adds every node of every response, IDs staying distinct |
| `Lookup.AbsorbOrigin` | Client/dht/Kademlia/dht.go:202-232 | Every node of the list was there before or came in a response |
| `Lookup.RoundImproves` | Client/dht/Kademlia/dht.go:235-247 | After a round the first node is the old closest one, which ends the lookup, or strictly nearer |
| `Lookup.AnswerDecodes` | Client/dht/Kademlia/handler.go:86-105 | The answer of an honest live node decodes to a non-empty list of live nodes |
| `Lookup.AnswerMakesProgress` | Client/dht/Kademlia/dht.go:91-98 | The answer of an honest node other than the target starts below the highest bit of that node's distance |
| `Lookup.RoundConverges` | Client/dht/Kademlia/dht.go:134-247 | In an honest network a round lowers the highest bit of the best distance until the target is found |
| `Lookup.HonestNetworkExists` | Client/dht/Kademlia/handler.go:86-105 | For all tables, changing from round to round, there is a network in which every live node answers honestly |
| `Lookup.ConvergingExists` | Client/dht/Kademlia/dht.go:127-249 | The hypotheses of convergence hold of two nodes that know each other |
| `Lookup.AbsorbResults` | Client/dht/Kademlia/dht.go:202-232 | The first response with values (in get_peers) or with nodes that do not decode decides: it ends the lookup with the values split at "//", or the program; the round goes on if and only if there is none |
| `Lookup.EncodeClosest` | Client/dht/Kademlia/dht.go:237-243 | The compact infos of the final list |
| `Lookup.LookUP` | Client/dht/Kademlia/dht.go:127-249 | Ends against every network, the best distance strictly falling; the trace is exactly the rounds that ran; the result holds all starting and learned IDs, strictly sorted; in an honest network it starts with the target after at most 161 rounds; no round that ran through had a response with values or undecodable nodes, and a round that stops the lookup stops it with what the first such response says |
| `KStores.SearchStrings` | Client/dht/Kademlia/kStore.go:66 | Binary search finds the number of smaller strings |
| `KStores.LessExactly` | Client/dht/Kademlia/kStore.go:66 | Below means: the byte at the first difference is smaller, or the other string is longer and begins with this one |
| `KStores.CompositeRoundTrip` | Client/dht/Kademlia/kStore.go:53-155 | A composite key splits into its pair if and only if neither part contains "/data:" |
| `KStores.OneSeparator` | Client/dht/Kademlia/kStore.go:53 | The composite key of a pair without "/data:" holds it once, between the parts |
| `KStores.KeyInjective` | Client/dht/Kademlia/kStore.go:53 | A pair without "/data:" has its composite key to itself |
| `KStores.CompositesCollide` | Client/dht/Kademlia/kStore.go:53 | A pair shares its composite key with another if and only if its key or its value contains "/data:" |
| `KStores.CollidingPairs` | Client/dht/Kademlia/kStore.go:53 | Two such pairs |
| `KStores.DecodeExactly` | Client/dht/Kademlia/kStore.go:153-156 | A composite key is taken apart into its pair if and only if neither part contains "/data:" |
| `KStores.NoLongerRefines` | Client/dht/Kademlia/kStore.go:120-143 | Taking a pair out of the data alone leaves a store that no map of live pairs describes |
| `KStores.NeverExpires` | Client/dht/Kademlia/kStore.go:146-164 | A pair with "/data:" in its key or value keeps its value through every expiry |
| `KStores.KStore.InsertValue` | Client/dht/Kademlia/kStore.go:62-78 | The value goes to its sorted place, once |
| `KStores.KStore.Store` | Client/dht/Kademlia/kStore.go:42-82 | Refines putting the pair with its times into the map; refuses times in the past; a known pair only gets new times |
| `KStores.KStore.GetValues` | Client/dht/Kademlia/kStore.go:85-92 | Exactly the live values of the key, ascending; found says whether there are any |
| `KStores.KStore.RemoveKeyValue` | Client/dht/Kademlia/kStore.go:120-143 | Takes exactly this value out, the key with the last one, and breaks the refinement |
| `KStores.KStore.Remove` | Client/dht/Kademlia/kStore.go:102-118 | Refines removing all pairs of the key |
| `KStores.KStore.ExpireOne` | Client/dht/Kademlia/kStore.go:150-162 | One step of the expiry loop: the composite key goes, and exactly the pair it is taken apart into |
| `KStores.KStore.ExpireKeys` | Client/dht/Kademlia/kStore.go:146-164 | Removes exactly the pairs past their expiration time, in any iteration order; in any store, exactly the pairs the past composite keys are taken apart into |
| `KStores.KStore.RepublishOne` | Client/dht/Kademlia/kStore.go:173-182 | One step of the republish loop |
| `KStores.KStore.GetKeyValuesToRepublish` | Client/dht/Kademlia/kStore.go:167-184 | Returns each due pair once, no other, and sets its republish time anew |
| `Messages.FrameRoundTrip` | Client/client/communication/message.go:52-92 | A message is read back as written, whatever follows, if and only if payload + 5 is below 2^32 |
| `Messages.FrameWhole` | Client/client/communication/message.go:65-92 | A frame is its length in four bytes, its ID and its payload |
| `Messages.StreamRoundTrip` | Client/client/communication/message.go:52-92 | Repeated reading of a stream of messages and keep-alives gives the same sequence and uses every byte |
| `Messages.Layouts` | Client/client/communication/message.go:95-148 | The bytes of have, request and piece messages: IDs 5, 9 and 7, each number in four bytes, high byte first, in the order index, begin, length or data |
| `Messages.HaveRoundTrip` | Client/client/communication/message.go:95-120 | A have message parses to its index |
| `Messages.ParseHaveExactly` | Client/client/communication/message.go:111-120 | A message parses to an index if and only if it is a have message of exactly that layout |
| `Messages.RequestRoundTrip` | Client/client/communication/message.go:102-166 | A request parses to its numbers, unless it asks for more than 16 bytes |
| `Messages.ParseRequestExactly` | Client/client/communication/message.go:151-166 | A message parses to three numbers if and only if it is a request that begins with their layout and asks for at most 16 bytes |
| `Messages.ParsePiece` | Client/client/communication/message.go:123-148 | The data goes to its place in the buffer and nowhere else; a rejected message changes nothing |
| `Messages.PieceRoundTrip` | Client/client/communication/message.go:123-148 | A piece message for a range inside the buffer is accepted with its data |
| `Messages.PieceDataExactly` | Client/client/communication/message.go:123-148 | A piece message is accepted with its data if and only if it is for this index, its layout is right and the data fits in the buffer; everything else is rejected |
| `Messages.HasPieceBit` | Client/client/communication/message.go:33-37 | Bit i of a bitfield is bit i % 8 of byte i / 8, high bit first; beyond the end the program stops |
| `Messages.SetPiece` | Client/client/communication/message.go:40-49 | Turns on exactly the bit of the index, or nothing past the end |
| `Transfer.HandleRequest` | Client/torrent_peer/uploader_client/uploader_client.go:278-327 | Answers a request with the bytes of the file it names |
| `Transfer.AnswerTo` | Client/torrent_peer/uploader_client/uploader_client.go:278-327 | A request is answered with its bytes of the file when it asks for at most 16 that lie there; with nothing when it asks for more; otherwise the program stops |
| `Transfer.BlocksTile` | Client/torrent_peer/torrent_peer.go:169-188 | The blocks of a piece lie end to end, of at most 16 bytes each, and end with the piece |
| `Transfer.RequestAnswered` | Client/torrent_peer/uploader_client/uploader_client.go:278-327 | Every request of a piece inside the file parses, stays inside the file and is answered with its bytes |
| `Transfer.OutstandingSize` | Client/torrent_peer/torrent_peer.go:167-225 | At most five requests are outstanding |
| `Transfer.NeverStuck` | Client/torrent_peer/torrent_peer.go:167-188 | Unchoked with blocks missing, a request is outstanding |
| `Transfer.Complete` | Client/torrent_peer/torrent_peer.go:167 | All bytes are counted exactly when all blocks have come in |
| `Transfer.ServiceAnswers` | Client/torrent_peer/uploader_client/uploader_client.go:278-327 | The pieces of an in-order service are the answers of HandleRequest |
| `Transfer.ServiceDelivers` | Client/torrent_peer/torrent_peer.go:167-236 | Such a service keeps to the protocol and answers every request |
| `Transfer.RequestBlocks` | Client/torrent_peer/torrent_peer.go:169-188 | Sends the requests of the next blocks until window or piece is full |
| `Transfer.Accept` | Client/torrent_peer/torrent_peer.go:196-233 | The effect of every kind of message on flags, bitfield and buffer |
| `Transfer.Consume` | Client/torrent_peer/torrent_peer.go:190-233 | One message keeps counters, buffer and protocol window in step; a keep-alive stops the program and an unparsable message the download, and no other message does either |
| `Transfer.TopUp` | Client/torrent_peer/torrent_peer.go:167-188 | Before a message is awaited an unchoked downloader has filled its window |
| `Transfer.DownloadPiece` | Client/torrent_peer/torrent_peer.go:150-237 | Requests are those of the first blocks in order, whatever comes in; when all of them can be sent, the messages decide the end: the piece once enough bytes came in, a crash at a keep-alive, an error at the first unparsable message or when the connection ends; against an honest uploader, in any order, pending equals outstanding, at most five, and the piece is the slot of the file, returned whenever all requests are answered |
| `Metainfo.SlotBounds` | Client/torrent_peer/torrent.go:77-82 | Slots lie inside the file and end where the next one starts, or with the file |
| `Metainfo.SlotsDisjoint` | Client/torrent_peer/torrent.go:77-82 | Different slots do not overlap |
| `Metainfo.Coverage` | Client/client/torrent_file/torrent_files.go:144-159 | The hashed slots cover the whole of a file shorter than a piece, and all but the last length % pieceLength bytes of a longer one |
| `Metainfo.BuildPieces` | Client/client/torrent_file/torrent_files.go:144-159 | A file below 256 bytes gets one hash, that of the file; a longer one gets length / 256 hashes, hash i that of bytes 256 * i to 256 * (i + 1), which is slot i |
| `Metainfo.WrittenHashes` | Client/client/torrent_file/torrent_files.go:144-159 | The string of the hashes of all slots, written out without slots |
| `Metainfo.SplitPiecesHash` | Client/client/torrent_file/torrent_files.go:73-87 | Cuts the string into its hashes, or rejects a length that is no multiple of 20 |
| `Metainfo.SlotHashAt` | Client/client/torrent_file/torrent_files.go:73-159 | The hash recovered at i is the hash of slot i |
| `Metainfo.HashesDetermine` | Client/torrent_peer/torrent.go:66-75 | With an unforgeable hash, right slot hashes mean the whole of a short file, and of a longer one all but the last length % pieceLength bytes |
| `Download.CopyPiece` | Client/torrent_peer/torrent.go:155 | Copying a checked piece makes its slot right and leaves the other slots alone |
| `Download.Collect` | Client/torrent_peer/torrent.go:141-178 | For checked results in any order, duplicates included, the slot of every collected index has its hash |
| `Download.DownloadProgress.constructor` | Client/torrent_peer/torrent.go:100-106 | The books before the first piece |
| `Download.BytesBound` | Client/torrent_peer/torrent_peer.go:364-368 | Distinct pieces never hold more bytes than the file, so left does not wrap |
| `Download.PutBack` | Client/torrent_peer/torrent_peer.go:304-341 | A task that failed goes back and no index is lost or doubled |
| `Download.Deliver` | Client/torrent_peer/torrent_peer.go:304-389 | A delivered index leaves the tasks and was not delivered before |
| `Download.BookPiece` | Client/torrent_peer/torrent_peer.go:364-368 | A delivered piece moves one task, its bytes and its bit |
| `Download.TryTask` | Client/torrent_peer/torrent_peer.go:314-342 | The task's own bit in the peer's bitfield decides: past the end the program stops, an unset bit puts the task back with nothing changed, and a set bit asks for the piece; then a peer that serves a slot with the hash of the task delivers it, and when all requests can be sent the messages alone decide; what passes has the right length and hash |
| `Download.StartPeerDownload` | Client/torrent_peer/torrent_peer.go:302-394 | For any peer the books balance after any number of attempts; the loop panics for one of three causes; the program stops after the loop if and only if a channel to close was never made; tasks and deliveries are those of Played, no index is delivered without the peer's bit for it, and every attempt at a piece the peer holds and had announced delivers it |
| `Download.PlayedDelivers` | Client/torrent_peer/torrent_peer.go:302-341 | The delivered indices are exactly those that some attempt tried with success |
| `Download.SeederExists` | Client/torrent_peer/uploader_client/uploader_client.go:278-327 | A peer that answers every request from the file in order is one that holds the file, and any pieces of it |
| `Download.PublishAndOpen` | Client/client/torrent_file/torrent_files.go:109-198 | Building the metainfo of a file and opening it gives its length, a piece length of 256, and one hash for a file below 256 bytes or length / 256 hashes of 256 bytes each |
| `Download.AllDelivered` | Client/torrent_peer/torrent_peer.go:302-390 | With no task left every index was delivered once |
| `Download.DownloadFile` | Client/torrent_peer/torrent.go:85-184 | Returns only if both channels were made, and then the buffer holds the covered part of the file, whatever the peer sent: all of a file shorter than a piece, and of a longer one all but its last length % pieceLength bytes; otherwise the program stops with every index delivered and all slots but the last nine right; a peer that holds the file gets it there |
| `Download.DownloadFromSeeder` | Client/torrent_peer/torrent_peer.go:286-393 | For every file the download from a peer that holds it stops the program, because doneKeepAliveToDHT is never made |
| `SharedTasks.StepKeeps` | Client/torrent_peer/torrent_peer.go:303-341 | No step of any connection, not even half a removal, puts anything but a task of the torrent into the shared cells |
| `SharedTasks.RemoveAlone` | Client/torrent_peer/torrent_peer.go:425-427 | A connection that is not interrupted takes the task out of its slice, and the others keep their order |
| `SharedTasks.PutBackAlone` | Client/torrent_peer/torrent_peer.go:317 | Putting it back appends it |
| `SharedTasks.RunsKeep` | Client/torrent_peer/torrent_peer.go:303-389 | Nor does any run |
| `SharedTasks.PutBackFits` | Client/torrent_peer/torrent_peer.go:331 | Putting a task back always fits the array |
| `SharedTasks.AllSentChecked` | Client/torrent_peer/torrent_peer.go:303-389 | After any run of any number of connections every result sent is checked |
| `SharedTasks.Work` | Client/torrent_peer/torrent_peer.go:314-342 | Trying the held task leads to a step of the system, stops the program for one of three causes, and delivers a piece that the peer has announced and serves |
| `SharedTasks.CollectShared` | Client/torrent_peer/torrent.go:141-178 | Over any number of connections sharing one array of tasks, the slot of every collected index has its hash |
| `Trackers.PublishedHolds` | tracker/tracker/tacker.go:210-238 | A publication lists the peer, adds at most this torrent and removes nothing |
| `Trackers.PublishedExactly` | tracker/tracker/tacker.go:210-238 | The map after a publication, entry by entry: a new torrent starts with this peer, complete 1 and downloaded 0; a new peer is listed with its record; a listed peer keeps the record it had; nothing else changes |
| `Trackers.AnnouncedExactly` | tracker/tracker/tacker.go:241-295 | The map after an announcement, entry by entry: the asker's state is exactly the "started" or "stopped" announced, a new asker gets the address of the query and a known one keeps its own, nothing else changes; exactly a "stopped" of a peer that is not listed panics |
| `Trackers.CompletedIsIgnored` | tracker/tracker/tacker.go:272-399 | The event "completed" changes nothing |
| `Trackers.AnnouncedGrows` | tracker/tracker/tacker.go:241-295 | An announcement removes nothing and adds no torrent |
| `Trackers.DecimalReads` | tracker/tracker/tacker.go:104 | Digits that read back as the number, without leading zeros, with a sign when negative |
| `Trackers.AddressesDiffer` | tracker/tracker/tacker.go:104 | An address names one host and one port, in either of the two forms, which agree unless the host has a colon |
| `Trackers.HandlersKeep` | tracker/tracker/tacker.go:210-285 | The counters of a torrent never move, and peers stay listed under their own ID |
| `Trackers.TrackerServer.PublishTorrent` | tracker/tracker/tacker.go:210-238 | The three outcomes of a publication and the new map |
| `Trackers.TrackerServer.BackupAddresses` | tracker/tracker/tacker.go:193-199 | In any iteration order, blanks included, the list leads to one request per backup tracker |
| `Trackers.TrackerServer.Publish` | tracker/tracker/tacker.go:161-208 | The refusals and the three outcomes; only a new torrent is sent on, exactly once to each backup tracker, with the key of the tracker and the ID, IP and port of the query |
| `Trackers.TrackerServer.RePublish` | tracker/tracker/tacker.go:456-499 | The refusals, then the lock, then the key; lists the torrent if the key is right, and sends nothing |
| `Trackers.TrackerServer.KnowMe` | tracker/tracker/tacker.go:502-549 | The five outcomes and the new backup list; a wrong key and a known address leave the lock held |
| `Trackers.TrackerServer.Announce` | tracker/tracker/tacker.go:241-295 | The new map entry by entry, the asker's new state among it; the selection of peers before and the statistics after the change; when it fails and when it stops the program |
| `Trackers.RePublishRequestManager` | tracker/tracker/tacker.go:116-124 | One request for every non-empty entry of the list |
| `Trackers.PickSeeders` | tracker/tracker/tacker.go:324-338 | Peers that have the file, up to the limit |
| `Trackers.PickStarters` | tracker/tracker/tacker.go:339-351 | Peers still loading, only while the limit is not reached |
| `Trackers.GetRandomPeers` | tracker/tracker/tacker.go:316-354 | In any iteration order, with wanted cut to the number of other peers: exactly min(wanted - 1, able) peers when two or more are wanted, each with its address, loading peers only after all others; for one, everybody or nobody as the first peer met has the file or not; for none, everybody; able are all but the asker and those that stopped |
| `Trackers.OneWantedAlways` | tracker/tracker/tacker.go:316-354 | One wanted: always everybody if all listed peers have the file and none is the asker, always nobody if none has it |
| `Trackers.SelectedNever` | tracker/tracker/tacker.go:324-351 | A selection never has the asker or a stopped peer |
| `Trackers.TorrentStats` | tracker/tracker/tacker.go:301-313 | Counts the peers that neither load nor stopped, and those still loading |
| `Replication.HandlePublish` | tracker/tracker/tacker.go:161-208 | The handler is the publish step of the system |
| `Replication.HandleRePublish` | tracker/tracker/tacker.go:456-499 | The handler is the delivery step of the system |
| `Replication.HandleKnowMe` | tracker/tracker/tacker.go:502-549 | The handler is the know-me step of the system |
| `Replication.HandleKnown` | tracker/server/server.go:147-162 | Taking in a tracker that answered is the known step of the system |
| `Replication.HandleAnnounce` | tracker/tracker/tacker.go:241-295 | The handler is the announce step of the system |
| `Replication.AcquaintedExactly` | tracker/tracker/tacker.go:502-549 | KnowMe case by case: nothing, the lock left held, or a new backup tracker |
| `Replication.StepLocks` | tracker/tracker/tacker.go:502-549 | A step leaves the lock of a tracker held if and only if it is a KnowMe with a wrong key or a known address; nothing releases it |
| `Replication.WhoLocked` | tracker/tracker/tacker.go:502-549 | In a run, a tracker is locked for good only by such a request |
| `Replication.LockedForever` | tracker/tracker/tacker.go:189-549 | A locked tracker stays as it is through every further run: nothing sent to it arrives, nothing is published on it |
| `Replication.KnowMeTwice` | tracker/tracker/tacker.go:502-549 | Asked twice to know the same address, whatever happens in between, a tracker is locked from then on |
| `Replication.StepExtends` | tracker/tracker/tacker.go:161-549 | No step forgets a listed peer, a tracker, a key or a publication |
| `Replication.StepKeeps` | tracker/tracker/tacker.go:161-549 | Every step keeps the invariant: requests are conserved, what arrived is settled, every torrent was published |
| `Replication.RunsKeep` | tracker/tracker/tacker.go:161-549 | Every run keeps it |
| `Replication.RunsExtend` | tracker/tracker/tacker.go:161-549 | No run forgets anything |
| `Replication.Replicated` | tracker/tracker/tacker.go:116-238 | After any run each same-key backup tracker of a fresh publication lists it, or its one request is under way or was lost; every torrent anywhere was published |
| `Replication.HoldsForever` | tracker/tracker/tacker.go:210-238 | Once listed, a peer is listed after every further run |
| `Replication.Quiescent` | tracker/tracker/tacker.go:116-238 | When everything sent has arrived, all same-key backup trackers list every fresh publication |
| `Replication.OneRequestEach` | tracker/tracker/tacker.go:116-204 | A fresh publication sends exactly one request to each backup tracker, and no other step sends any |
| `Replication.StepRecord` | tracker/tracker/tacker.go:161-549 | A step keeps ID, IP and port of every listed peer, and its state unless it announces that of this peer |
| `Replication.RecordKept` | tracker/tracker/tacker.go:161-549 | So does every run |
| `Replication.LastAnnounced` | tracker/tracker/tacker.go:241-351 | The state a peer announced last stays, and after "stopped" no selection of that tracker ever has the peer |
| `Replication.AddressesClaimed` | tracker/tracker/tacker.go:116-285 | After any run every peer listed anywhere, and every request on its way, has the IP and port that a publication or a "started" announcement of its ID under that torrent gave |
| `Replication.PublishedRecord` | tracker/tracker/tacker.go:116-238 | What a publication of a new torrent leaves, field by field: the record, the entry of the log, and requests with its ID, IP and port |
| `Replication.DeliveredRecord` | tracker/tracker/tacker.go:456-499 | What a delivered request leaves, field by field: a same-key tracker that did not list the peer lists it with the IP and port of the publication as a seeder; one that did keeps its record |
| `Replication.RecordReplicated` | tracker/tracker/tacker.go:116-499 | End to end: once the request of a new torrent has reached a backup tracker that did not list the peer, that tracker lists it with the address of the publication after every further run |

## Left out

- TLS, gRPC, UDP and TCP sockets, bencode, JSON files, the handshake, the user interface and the validation of queries
  in krpc messages: message values and byte sequences stand for them.
- Goroutines, channels used as locks, mutexes, tickers and deadlines: every handler and store operation is one atomic
  step, and a handler that would wait for a lock nobody releases changes nothing. Responses that arrive on a closed
  channel are not captured. A response also updates the asker's routing table while a lookup runs; the lookup works on
  its own list, so this is not modelled.
- Node IDs of other lengths than 20 bytes, nil nodes and nil IDs.
- Go's 64-bit bound on int: lengths and times are unbounded, except where the source converts to 32 or 64 bits.
- Times are integers given by the caller, and the several calls of time.Now in one operation are one value. The time a
  bucket last changed is not kept.
- net.ParseIP and the printing of an address: a query holds the address it parses to, or none.
- The bodies of sort.Sort and strings.Index: Nodes.NodeList.Sort has the contract of a sort (SortIsUnique shows that
  all agree) and Strings.Index is the first occurrence.
- Slices shared by reference: GetValues and GetPeers hand out the slice the store keeps.
- KStores.KStore.Store: when a key or value contains "/data:" only the three maps are described, not the pairs they
  stand for, because two pairs can then share one composite key.
- The reader that the uploader makes anew for every message, which may drop buffered bytes, and its refusal to answer
  a peer it chokes.
- Both choke loops, the selection of the next piece (any valid choice is allowed) and the upload statistics.
- Several connections at once: only the integrity of every collected slot is claimed (SharedTasks.CollectShared), not
  that all slots are collected, since duplicate results count towards completion. Reading or writing one cell of the
  shared array is one step.
- Download.StartPeerDownload: states the field requested of the progress, which nothing reads, only when every attempt
  succeeds, and after a crash says only why it happened and that the pieces sent before were right.
- Requests that the connection does not take are cut off after a number of writes; partial writes are not modelled.
- Replication: an announcement that stops the program (a "stopped" peer that is not listed) is no step.
- Connections that fail before their task loop begins, after which DownloadFile waits for results that never come.
- Scrape and the keep-alive announcements to the tracker. AddBkTracker, which nothing calls. The KnowMe requests a
  tracker sends itself: that one was answered is a step that may come at any time, for any address.
