/** Nodes on the wire: compact info (node.go) and the "//"-joined lists of the responses (handler.go, dht.go). */
module Wire {
  import opened Bytes
  import opened Metric
  import opened Nodes
  import opened Strings
  import opened Outcomes

  const IP_LENGTH := 16
  const SLASH: Byte := 0x2f
  const SLASHES := [SLASH, SLASH]

  /** ID, IP, and the low 16 bits of the port, high byte first. */
  function CompactInfo(n: Node): seq<Byte> {
    n.id + n.ip + PutNumber(n.port % 0x1_0000, 2)
  }

  /** Slicing info[:20], info[20:36] and info[36:] panics on fewer than 36 bytes; copy fills a short port with zeros. */
  function FromCompactInfo(info: seq<Byte>): Decoded<Node> {
    if |info| < ID_LENGTH + IP_LENGTH then Panic
    else
      var portB := (info[ID_LENGTH + IP_LENGTH..] + [0, 0])[..2];
      Value(Node(info[..ID_LENGTH], info[ID_LENGTH..ID_LENGTH + IP_LENGTH], Number(portB)))
  }

  /** What compact info can carry: a 16-byte IP and a 16-bit port. */
  predicate Representable(n: Node) {
    |n.ip| == IP_LENGTH && 0 <= n.port < 0x1_0000
  }

  /** The bytes of compact info: 0 to 19 the ID, 20 to 35 the IP, 36 and 37 the port, high byte first. */
  lemma CompactInfoLayout(n: Node)
    requires |n.ip| == 16
    ensures var info := CompactInfo(n);
            |info| == 38 && info[..20] == n.id && info[20..36] == n.ip
            && info[36] as int == n.port % 65536 / 256 && info[37] as int == n.port % 256
  {
    hide Number, PutNumber;
    var port := PutNumber(n.port % 0x1_0000, 2);
    WordPower();
    PutNumberRoundTrip(n.port % 0x1_0000, 2);
    NumberOfTwo(port);
    assert CompactInfo(n)[36..] == port;
    PortBytes(n.port, port[0] as nat, port[1] as nat);
  }

  lemma PortBytes(port: int, high: nat, low: nat)
    requires port % 65536 == 256 * high + low && low < 256
    ensures high == port % 65536 / 256 && low == port % 256
  {
    var h := 256 * (port / 65536) + high;
    assert port == 256 * h + low;
    Remainder(port % 65536, high, low);
    Remainder(port, h, low);
  }

  lemma Remainder(x: int, high: int, low: nat)
    requires x == 256 * high + low && low < 256
    ensures x / 256 == high && x % 256 == low
  {
  }

  /** What decoding gives: fewer than 36 bytes panic, a short port is filled with zeros, more bytes are ignored. */
  lemma FromCompactInfoExactly(info: seq<Byte>)
    ensures FromCompactInfo(info) == Panic <==> |info| < 36
    ensures |info| >= 36 ==>
              FromCompactInfo(info) == Value(Node(info[..20], info[20..36],
                                                  256 * (if |info| > 36 then info[36] as nat else 0)
                                                  + if |info| > 37 then info[37] as nat else 0))
  {
    hide Number;
    if |info| >= 36 { NumberOfTwo((info[36..] + [0, 0])[..2]); }
  }

  /** Compact info decodes to the node it was made from exactly when that node is representable. */
  lemma CompactInfoRoundTrip(n: Node)
    ensures FromCompactInfo(CompactInfo(n)) == Value(n) <==> Representable(n)
  {
    hide PutNumber, Number;
    var info, port := CompactInfo(n), PutNumber(n.port % 0x1_0000, 2);
    WordPower();
    PutNumberRoundTrip(n.port % 0x1_0000, 2);
    assert |info| == ID_LENGTH + |n.ip| + 2 && info[..ID_LENGTH] == n.id;
    if |n.ip| == IP_LENGTH {
      assert info[ID_LENGTH..ID_LENGTH + IP_LENGTH] == n.ip;
      assert (info[ID_LENGTH + IP_LENGTH..] + [0, 0])[..2] == port;
    }
  }

  function CompactInfos(l: seq<Node>): (r: seq<seq<Byte>>)
    ensures |r| == |l| && forall i :: 0 <= i < |l| ==> r[i] == CompactInfo(l[i])
  {
    seq(|l|, i requires 0 <= i < |l| => CompactInfo(l[i]))
  }

  /** The "nodes" argument of a response. */
  function EncodeNodes(l: seq<Node>): seq<Byte> {
    Join(CompactInfos(l), SLASHES)
  }

  /** The nodes of the infos, or Panic as soon as one of them is too short. */
  function FromCompactInfos(infos: seq<seq<Byte>>): Decoded<seq<Node>> {
    if infos == [] then Value([])
    else
      match FromCompactInfo(infos[0])
      case Panic => Panic
      case Value(n) =>
        match FromCompactInfos(infos[1..])
        case Panic => Panic
        case Value(l) => Value([n] + l)
  }

  function DecodeNodes(s: seq<Byte>): Decoded<seq<Node>> {
    FromCompactInfos(Split(s, SLASHES))
  }

  // ---- which lists survive ----

  predicate HasSlashes(e: seq<Byte>) {
    exists i :: 0 <= i < |e| - 1 && e[i] == SLASH && e[i + 1] == SLASH
  }

  predicate EndsInSlash(e: seq<Byte>) {
    e != [] && e[|e| - 1] == SLASH
  }

  lemma SlashesAt(e: seq<Byte>, i: int)
    ensures At(e, SLASHES, i) <==> 0 <= i < |e| - 1 && e[i] == SLASH && e[i + 1] == SLASH
  {
    if 0 <= i < |e| - 1 { assert e[i..i + 2] == [e[i], e[i + 1]]; }
  }

  lemma SlashIndex(e: seq<Byte>)
    ensures Index(e, SLASHES) == -1 <==> !HasSlashes(e)
    ensures EndsAtSeparator(e, SLASHES) <==> !HasSlashes(e) && !EndsInSlash(e)
  {
    var s := e + SLASHES;
    if HasSlashes(e) {
      var i :| 0 <= i < |e| - 1 && e[i] == SLASH && e[i + 1] == SLASH;
      SlashesAt(e, i);
      SlashesAt(s, i);
    }
    if Index(e, SLASHES) != -1 { SlashesAt(e, Index(e, SLASHES)); }
    SlashesAt(s, |e| - 1);
    SlashesAt(s, |e|);
    SlashesAt(s, Index(s, SLASHES));
    var i := Index(s, SLASHES);
    if 0 <= i < |e| - 1 { assert e[i] == SLASH && e[i + 1] == SLASH; }
  }

  /** No part contains "//" and no part but the last ends in "/". */
  predicate SlashSafe(parts: seq<seq<Byte>>) {
    (forall k :: 0 <= k < |parts| ==> !HasSlashes(parts[k]))
    && (forall k :: 0 <= k < |parts| - 1 ==> !EndsInSlash(parts[k]))
  }

  /** Splitting a non-empty "//"-join gives back the list exactly when it is slash safe. */
  lemma SplitSlashes(parts: seq<seq<Byte>>)
    requires parts != []
    ensures Split(Join(parts, SLASHES), SLASHES) == parts <==> SlashSafe(parts)
  {
    SplitOfJoin(parts, SLASHES);
    forall k | 0 <= k < |parts|
      ensures Index(parts[k], SLASHES) == -1 <==> !HasSlashes(parts[k])
      ensures EndsAtSeparator(parts[k], SLASHES) <==> !HasSlashes(parts[k]) && !EndsInSlash(parts[k])
    {
      SlashIndex(parts[k]);
    }
    assert SlashSafe(parts) <==> Separable(parts, SLASHES);
  }

  /** Lists of strings without a slash, such as "ip:port", always survive. */
  lemma SlashFreeSurvives(parts: seq<seq<Byte>>)
    requires parts != [] && forall k :: 0 <= k < |parts| ==> SLASH !in parts[k]
    ensures Split(Join(parts, SLASHES), SLASHES) == parts
  {
    forall k | 0 <= k < |parts| ensures !HasSlashes(parts[k]) && !EndsInSlash(parts[k]) {
      assert forall i :: 0 <= i < |parts[k]| ==> parts[k][i] in parts[k];
    }
    SplitSlashes(parts);
  }

  lemma {:induction false} DecodeAll(l: seq<Node>)
    requires forall n :: n in l ==> Representable(n)
    ensures FromCompactInfos(CompactInfos(l)) == Value(l)
  {
    hide CompactInfo, FromCompactInfo;
    if l != [] {
      CompactInfoRoundTrip(l[0]);
      DecodeAll(l[1..]);
      var infos := CompactInfos(l);
      assert infos[0] == CompactInfo(l[0]) && infos[1..] == CompactInfos(l[1..]);
      assert l == [l[0]] + l[1..];
    }
  }

  /** The two bytes a port is decoded from are those it is encoded to. */
  lemma PortDecoded(n: Node, portB: seq<Byte>)
    requires |portB| == 2 && n.port == Number(portB)
    ensures 0 <= n.port < 0x1_0000 && PutNumber(n.port % 0x1_0000, 2) == portB
  {
    hide Number, PutNumber, Pow2;
    NumberBelow(portB);
    WordPower();
    PutNumberRoundTrip(n.port, 2);
    NumberInjective(PutNumber(n.port, 2), portB);
  }

  /** A cut info decodes to the node only when what was cut off are zeros. */
  lemma CutInfo(info: seq<Byte>, n: Node)
    requires FromCompactInfo(info) == Value(n)
    ensures Representable(n) && |CompactInfo(n)| == ID_LENGTH + IP_LENGTH + 2 && |info| >= ID_LENGTH + IP_LENGTH
    ensures forall k :: |info| <= k < |CompactInfo(n)| ==> CompactInfo(n)[k] == 0
  {
    hide Number, PutNumber;
    var portB := (info[ID_LENGTH + IP_LENGTH..] + [0, 0])[..2];
    PortDecoded(n, portB);
    assert CompactInfo(n) == n.id + n.ip + portB;
  }

  /** When the list is decoded as it was sent, every info was cut out whole. */
  lemma {:induction false} CutWhole(l: seq<Node>)
    requires l != [] && DecodeNodes(EncodeNodes(l)) == Value(l)
    ensures Split(EncodeNodes(l), SLASHES) == CompactInfos(l) && forall n :: n in l ==> Representable(n)
  {
    hide CompactInfo, FromCompactInfo, Representable, At;
    var infos, s := CompactInfos(l), EncodeNodes(l);
    var parts, i := Split(s, SLASHES), Index(s, SLASHES);
    DecodedOne(parts, l);
    CutInfo(parts[0], l[0]);
    if |l| == 1 {
      assert parts == [s] && infos == [s];
    } else {
      var rest := EncodeNodes(l[1..]);
      assert infos[1..] == CompactInfos(l[1..]);
      assert s == infos[0] + SLASHES + rest;
      FirstCut(infos[0], rest);
      assert i == |infos[0]|;
      assert s[..i] == infos[0] && s[i + 2..] == rest;
      assert parts[1..] == Split(rest, SLASHES);
      CutWhole(l[1..]);
      assert l == [l[0]] + l[1..];
    }
  }

  /** Decoding goes part by part. */
  lemma DecodedOne(parts: seq<seq<Byte>>, l: seq<Node>)
    requires parts != [] && FromCompactInfos(parts) == Value(l)
    ensures l != [] && FromCompactInfo(parts[0]) == Value(l[0]) && FromCompactInfos(parts[1..]) == Value(l[1..])
    ensures |parts| > 1 <==> |l| > 1
  {
    if |parts| > 1 { DecodedOne(parts[1..], l[1..]); }
  }

  /** The first separator is where the info ends, unless the info has one or ends in a slash. */
  lemma FirstCut(info: seq<Byte>, rest: seq<Byte>)
    ensures var i := Index(info + SLASHES + rest, SLASHES);
            0 <= i <= |info| && (i < |info| ==> info[i] == SLASH)
  {
    var s := info + SLASHES + rest;
    assert s[|info|..|info| + 2] == SLASHES;
    assert At(s, SLASHES, |info|);
    SlashesAt(s, Index(s, SLASHES));
  }

  /**
   * A list of nodes arrives as it was sent exactly when it is not empty, every node is representable, and the infos
   * are slash safe: an info cut short decodes to another port or not at all.
   */
  lemma NodesRoundTrip(l: seq<Node>)
    ensures DecodeNodes(EncodeNodes(l)) == Value(l) <==>
            l != [] && SlashSafe(CompactInfos(l)) && forall n :: n in l ==> Representable(n)
  {
    hide SlashSafe, Representable;
    if l == [] {
      EmptyListPanics();
    } else {
      SplitSlashes(CompactInfos(l));
      if DecodeNodes(EncodeNodes(l)) == Value(l) { CutWhole(l); }
      if SlashSafe(CompactInfos(l)) && forall n :: n in l ==> Representable(n) { DecodeAll(l); }
    }
  }

  /** The empty list does not: it arrives as one empty string, on which decoding panics. */
  lemma EmptyListPanics()
    ensures DecodeNodes(EncodeNodes([])) == Panic
  {
    SlashIndex([]);
    assert Split<Byte>([], SLASHES) == [[]];
  }
}
