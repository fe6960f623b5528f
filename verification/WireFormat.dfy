/**
 The protocol byte by byte: what each party puts on the wire and what it makes of what it gets there, with the
 values of `common.hpp` written out.
 */
module WireFormat {
  import opened Bytes
  import opened IndexSpec
  import opened Records
  import opened Protocol
  import GetResponse
  import ResponseLists
  import LookupResponse
  import ListResponse

  // ---- Numbers ----

  /** The numbers of messages and codes on the wire. */
  lemma Numbers()
    ensures EncodeInt(1) == [0, 0, 0, 1] && EncodeInt(2) == [0, 0, 0, 2] && EncodeInt(3) == [0, 0, 0, 3] && EncodeInt(4) == [0, 0, 0, 4]
    ensures EncodeInt(200) == [0, 0, 0, 200] && EncodeInt(400) == [0, 0, 1, 144] && EncodeInt(404) == [0, 0, 1, 148]
  {
  }

  /** Four bytes are read as a number exactly when they are its encoding. */
  lemma ReadAsIff(f: Frame, n: int32)
    requires |f| == 4
    ensures DecodeInt(f) == n <==> f == EncodeInt(n)
  {
    EncodeDecodeInt(f);
    DecodeEncodeInt(n);
  }

  // ---- What the client of the index sends and makes of what it gets ----

  lemma ClientOpens(me: Peer)
    requires |me.host| < 0x8000_0000
    ensures ClientStart() == Party([[0, 0, 0, 1]], WaitVersion)
    ensures var intro := Introduction(me);
      |intro| == 3 && intro[0] == EncodeInt(|me.host|) && intro[1] == me.host && intro[2] == EncodeInt(me.port)
  {
    Numbers();
    ToInt32Identity(|me.host|);
  }

  /** Any version but 1 ends the session before the client has said who it is. */
  lemma ClientChecksVersion(me: Peer, stored: seq<int32>, f: Frame)
    requires |f| == 4
    ensures ClientReceives(me, stored, WaitVersion, f) ==
      if f == [0, 0, 0, 1] then Party(Introduction(me), Announce(stored)) else Party([], Rejected)
  {
    Numbers();
    ReadAsIff(f, 1);
  }

  /** Each number is announced until one is refused. */
  lemma ClientAnnounces(me: Peer, stored: seq<int32>, rest: seq<int32>, f: Frame)
    requires |f| == 4
    ensures ClientContinues(Announce([])) == Party([], Prompt)
    ensures rest != [] && rest[0] <= 0 ==> ClientContinues(Announce(rest)) == Party([[0, 0, 0, 1]], Broken)
    ensures rest != [] && rest[0] > 0 ==> ClientContinues(Announce(rest)) == Party([[0, 0, 0, 1], EncodeInt(rest[0])], WaitAnnounced(rest))
    ensures rest != [] && f == [0, 0, 0, 200] ==> ClientReceives(me, stored, WaitAnnounced(rest), f) == Party([], Announce(rest[1..]))
    ensures f != [0, 0, 0, 200] ==> ClientReceives(me, stored, WaitAnnounced(rest), f) == Party([], Prompt)
  {
    Numbers();
    ReadAsIff(f, 200);
  }

  lemma ClientCommands(n: int32, stored: set<int32>)
    ensures ClientObeys(ListCommand, stored) == Party([[0, 0, 0, 2]], WaitListSize)
    ensures ClientObeys(QuitCommand, stored) == Party([[0, 0, 0, 4]], Quit)
    ensures ClientObeys(GetCommand(n), stored) ==
      if n > 0 && n !in stored then Party([[0, 0, 0, 3], EncodeInt(n)], WaitLookupSize(n)) else Party([], Prompt)
    ensures ClientNotifies(n) == Party([[0, 0, 0, 1], EncodeInt(n)], WaitNotified(n))
  {
    Numbers();
  }

  /** After a notification comes the prompt, whatever the answer. */
  lemma ClientIgnoresAnswer(me: Peer, stored: seq<int32>, n: int32, f: Frame)
    requires |f| == 4
    ensures ClientReceives(me, stored, WaitNotified(n), f) == Party([], Prompt)
  {
  }

  /** A LOOKUP answer that begins with 404 ends the command. */
  lemma ClientGivesUp(n: int32, body: Frame)
    requires |body| >= 4 && body[..4] == [0, 0, 1, 148]
    ensures AfterLookup(n, body) == Prompt
  {
    Numbers();
    ReadAsIff(body[..4], 404);
  }

  /** One that begins with 200 leads to its first peer. */
  lemma ClientTakesFirst(n: int32, peers: seq<Peer>)
    requires peers != [] && ResponseLists.WireSize(LookupResponse.PEER_BYTES, peers) < 0x8000_0000
    ensures AfterLookup(n, ResponseLists.Encode(LookupResponse.PEER_BYTES, peers))
            == Connecting(n, Peer(CString(peers[0].host), peers[0].port))
  {
    var body := ResponseLists.Encode(LookupResponse.PEER_BYTES, peers);
    LookupResponse.ParseOfEncoding(peers, []);
    assert body + [] == body;
  }

  // ---- Its handler ----

  /** Any version but 1 ends the session. */
  lemma HandlerChecksVersion(f: Frame)
    requires |f| == 4
    ensures HandlerStart() == Party([[0, 0, 0, 1]], AwaitVersion)
    ensures HandlerReceives(AwaitVersion, f) == if f == [0, 0, 0, 1] then AwaitHostLen else Refused
  {
    Numbers();
    ReadAsIff(f, 1);
  }

  /** The four requests; any other number is ignored. */
  lemma HandlerTakesRequest(p: Peer, f: Frame)
    requires |f| == 4
    ensures HandlerReceives(AwaitMessage(p), f) ==
      if f == [0, 0, 0, 1] then AwaitAdd(p)
      else if f == [0, 0, 0, 2] then Listing(p)
      else if f == [0, 0, 0, 3] then AwaitLookup(p)
      else if f == [0, 0, 0, 4] then Removing(p)
      else AwaitMessage(p)
  {
    Numbers();
    ReadAsIff(f, 1);
    ReadAsIff(f, 2);
    ReadAsIff(f, 3);
    ReadAsIff(f, 4);
  }

  /** Who the client is, and which number it means. */
  lemma HandlerTakesFields(host: seq<byte>, n: int32, p: Peer)
    requires |host| < 0x8000_0000 && 0 !in host
    ensures HandlerReceives(AwaitHostLen, EncodeInt(|host|)) == AwaitHost(|host|)
    ensures HandlerReceives(AwaitHost(|host|), host) == AwaitPort(host)
    ensures HandlerReceives(AwaitPort(host), EncodeInt(n)) == Joining(Peer(host, n))
    ensures HandlerReceives(AwaitAdd(p), EncodeInt(n)) == Adding(p, n) && HandlerReceives(AwaitLookup(p), EncodeInt(n)) == LookingUp(p, n)
  {
    DecodeEncodeInt(|host|);
    DecodeEncodeInt(n);
  }

  /** ADD is answered 200 exactly when the peer is registered and the number is new, and else 400. */
  lemma AddAnswer(p: Peer, n: int32, index: Index, index': Index, h: Party<HandlerAt>)
    requires HandlerActs(Adding(p, n), index, index', h)
    ensures |h.todo| == 1 && h.at == AwaitMessage(p)
    ensures h.todo[0] == if p in index.clients && RfcHolder(n, p) !in index.rfcs then [0, 0, 0, 200] else [0, 0, 1, 144]
    ensures DecodeInt(h.todo[0]) == if p in index.clients && RfcHolder(n, p) !in index.rfcs then 200 else 400
    ensures index' == if p in index.clients && RfcHolder(n, p) !in index.rfcs then index.(rfcs := index.rfcs + {RfcHolder(n, p)}) else index
  {
    Numbers();
    DecodeEncodeInt(200);
    DecodeEncodeInt(400);
  }

  /** LIST is answered with size and body, of code 404 exactly when the index is empty. */
  lemma ListAnswer(p: Peer, index: Index, index': Index, h: Party<HandlerAt>)
    requires HandlerActs(Listing(p), index, index', h)
    ensures |h.todo| == 2 && |h.todo[0]| == 4 && DecodeInt(h.todo[0]) == |h.todo[1]| && |h.todo[1]| >= 8 && index' == index
    ensures h.todo[1][..4] == if index.rfcs == {} then [0, 0, 1, 148] else [0, 0, 0, 200]
  {
    Numbers();
    var holders, body :| Atomic(AllRfcs, index, index', Holders(holders)) && IsListBody(holders, body) && h == Party(Sized(body), AwaitMessage(p));
    ToInt32Identity(|body|);
    DecodeEncodeInt(|body|);
    assert holders == [] <==> index.rfcs == {} by {
      if holders != [] { assert holders[0] in index.rfcs; }
    }
  }

  /** LOOKUP is answered with size and body, of code 404 exactly when nobody has the number. */
  lemma LookupAnswer(p: Peer, n: int32, index: Index, index': Index, h: Party<HandlerAt>)
    requires HandlerActs(LookingUp(p, n), index, index', h)
    ensures |h.todo| == 2 && |h.todo[0]| == 4 && DecodeInt(h.todo[0]) == |h.todo[1]| && |h.todo[1]| >= 8 && index' == index
    ensures h.todo[1][..4] == if forall q :: RfcHolder(n, q) !in index.rfcs then [0, 0, 1, 148] else [0, 0, 0, 200]
  {
    Numbers();
    var peers, body :| Atomic(FindRfcs(n), index, index', Peers(peers)) && IsLookupBody(peers, body) && h == Party(Sized(body), AwaitMessage(p));
    ToInt32Identity(|body|);
    DecodeEncodeInt(|body|);
    FindHeadIsLeast(index, n, index', peers);
  }

  /** Joining and leaving are not answered. */
  lemma JoinAndLeave(p: Peer, index: Index, index': Index, h: Party<HandlerAt>)
    ensures HandlerActs(Joining(p), index, index', h) ==> h == Party([], AwaitMessage(p)) && index' == index.(clients := index.clients + {p})
    ensures HandlerActs(Removing(p), index, index', h) ==>
      h == Party([], Closed) && p !in index'.clients && (forall n: int32 :: RfcHolder(n, p) !in index'.rfcs)
      && forall q :: q != p ==> SameEntries(index, index', q)
  {
  }

  // ---- Downloads ----

  /** A download opens with the introduction, GET and the number in two bytes. */
  lemma FetchOpens(me: Peer, n: int32)
    ensures FetchStart(me, n).todo == Introduction(me) + [[0, 0, 0, 1], EncodeShort(NarrowToShort(n))] && FetchStart(me, n).at == WaitSize
    ensures EncodeInt(PEER_DISCONNECT) == [0, 0, 0, 2]
  {
    Numbers();
  }

  /** A body that begins with 404 is a miss, and nothing more is sent. */
  lemma FetchMisses(body: Frame)
    requires |body| >= 4 && body[..4] == [0, 0, 1, 148]
    ensures FetchReceives(WaitBody(|body|), body) == (Party([], Missed), None)
  {
    Numbers();
    ReadAsIff(body[..4], 404);
  }

  /** A 200 body has its content stored, as far as a C string keeps it, and is followed by a disconnect. */
  lemma FetchStores(content: seq<byte>, rest: seq<byte>)
    requires |content| + 8 < 0x8000_0000
    ensures var body := [0, 0, 0, 200] + EncodeInt(|content|) + content + rest;
      FetchReceives(WaitBody(|body|), body) == (Party([[0, 0, 0, 2]], Done), Some(CString(content)))
  {
    Numbers();
    ToInt32Identity(|content|);
    GetResponse.ParseOfEncoding(content, rest);
    assert [0, 0, 0, 200] + EncodeInt(|content|) + content + rest == GetResponse.Encode(content) + rest;
  }

  /** A body of any other code is taken for an empty content. */
  lemma FetchStoresNothing(body: Frame)
    requires |body| >= 4 && body[..4] != [0, 0, 1, 148] && body[..4] != [0, 0, 0, 200]
    ensures FetchReceives(WaitBody(|body|), body) == (Party([[0, 0, 0, 2]], Done), Some([]))
  {
    Numbers();
    ReadAsIff(body[..4], 404);
    ReadAsIff(body[..4], 200);
  }

  /** The serving end takes an introduction, and then GET and disconnect; any other number is ignored. */
  lemma ServerTakesRequest(len: int, f: Frame)
    requires |f| == 4
    ensures ServeStart() == Party([], ServeHostLen)
    ensures ServeReceives(ServeHostLen, f) == ServeHost(DecodeInt(f)) && ServeReceives(ServePort, f) == ServeMessage
    ensures ServeReceives(ServeMessage, f) ==
      if f == [0, 0, 0, 1] then ServeNumber else if f == [0, 0, 0, 2] then ServeClosed else ServeMessage
  {
    Numbers();
    ReadAsIff(f, 1);
    ReadAsIff(f, 2);
  }

  /** GET is answered 200 with the content when the file was read, and else 404 in eight bytes. */
  lemma GetAnswer(content: Option<seq<byte>>, body: Frame)
    requires IsGetBody(content, body)
    ensures match content
      case Some(c) => c != [] && body == [0, 0, 0, 200] + EncodeInt(|c|) + c
      case None => |body| == 8 && body[..4] == [0, 0, 1, 148]
  {
    Numbers();
    if content.Some? { ToInt32Identity(|content.value|); }
  }

  // ---- Layouts ----

  /** Host length, host, port. */
  lemma PeerLayout(p: Peer)
    requires |p.host| < 0x8000_0000
    ensures var b, len := LookupResponse.PEER_BYTES(p), |p.host|;
      |b| == 8 + len && b[..4] == EncodeInt(len) && b[4..4 + len] == p.host && b[4 + len..] == EncodeInt(p.port)
  {
    ToInt32Identity(|p.host|);
  }

  /** Number, host length, host, port. */
  lemma HolderLayout(h: RfcHolder)
    requires |h.peer.host| < 0x8000_0000
    ensures var b, len := ListResponse.HOLDER_BYTES(h), |h.peer.host|;
      |b| == 12 + len && b[..4] == EncodeInt(h.rfc) && b[4..8] == EncodeInt(len) && b[8..8 + len] == h.peer.host
      && b[8 + len..] == EncodeInt(h.peer.port)
  {
    PeerLayout(h.peer);
    var b, q, len := ListResponse.HOLDER_BYTES(h), LookupResponse.PEER_BYTES(h.peer), |h.peer.host|;
    assert b[4..] == q;
    assert b[4..8] == q[..4] && b[8..8 + len] == q[4..4 + len] && b[8 + len..] == q[4 + len..];
  }

  /** A 200 response is its code, the number of its records, and the records in the order of the list. */
  lemma ListLayout<T>(enc: T -> seq<byte>, items: seq<T>, i: nat)
    requires |items| < 0x8000_0000 && i < |items|
    ensures var b := ResponseLists.Encode(enc, items);
      var start, end := 8 + |EncodeAll(enc, items[..i])|, 8 + |EncodeAll(enc, items[..i])| + |enc(items[i])|;
      && |b| >= end && b[..4] == [0, 0, 0, 200] && b[4..8] == EncodeInt(|items|) && b[start..end] == enc(items[i])
      && (i + 1 < |items| ==> end == 8 + |EncodeAll(enc, items[..i + 1])|) && (i + 1 == |items| ==> |b| == end)
  {
    Numbers();
    ToInt32Identity(|items|);
    ResponseLists.PrefixStep(enc, items, i);
    RecordsInOrder(enc, items, i);
    var b := ResponseLists.Encode(enc, items);
    assert b[8..] == EncodeAll(enc, items);
    assert items[..|items|] == items;
  }

  lemma {:induction false} RecordsInOrder<T>(enc: T -> seq<byte>, items: seq<T>, i: nat)
    requires i < |items|
    ensures var start := |EncodeAll(enc, items[..i])|; var all := EncodeAll(enc, items);
      start + |enc(items[i])| <= |all| && all[start..start + |enc(items[i])|] == enc(items[i])
  {
    if i > 0 {
      RecordsInOrder(enc, items[1..], i - 1);
      assert items[..i] == [items[0]] + items[1..][..i - 1];
      assert items[..i][1..] == items[1..][..i - 1];
    }
  }

  /** A count below zero is no record. */
  lemma NegativeCount<T>(parse: seq<byte> -> Parsed<T>, count: int32, rest: seq<byte>)
    requires count <= 0
    ensures ResponseLists.Parse(parse, [0, 0, 0, 200] + EncodeInt(count) + rest) == Parsed(ResponseLists.Message(200, []), rest)
  {
    Numbers();
    DecodeEncodeInt(200);
    DecodeEncodeInt(count);
    var b: seq<byte> := [0, 0, 0, 200] + EncodeInt(count) + rest;
    assert b[..4] == EncodeInt(200) && b[4..8] == EncodeInt(count) && b[8..] == rest;
  }
}
