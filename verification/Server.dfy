/** `client_handler`, as a program, against the handler of module Protocol, as a specification. */
module Server {
  import opened Bytes
  import opened Sorting
  import opened IndexSpec
  import opened Records
  import opened Protocol
  import opened Connections
  import opened Paths
  import opened WireFormat
  import CentralIndex
  import ResponseLists
  import ListResponse
  import LookupResponse

  /** A handler, the index, its connection, and the numbers it has had accepted so far. */
  datatype Config = Config(party: Party<HandlerAt>, index: Index, incoming: seq<Frame>, outgoing: seq<Frame>, added: set<int32>)

  function Sent(c: Config): Config
    requires c.party.todo != []
  {
    c.(party := c.party.(todo := c.party.todo[1..]), outgoing := c.outgoing + [c.party.todo[0]])
  }

  function Received(c: Config): Config
    requires CanReceive(c.party, HandlerExpects(c.party.at), c.incoming)
  {
    c.(party := Party([], HandlerReceives(c.party.at, c.incoming[0])), incoming := c.incoming[1..])
  }

  /** The accepted numbers after a call of the index. */
  function AddedBy(c: Config): set<int32> {
    match c.party.at
    case Adding(p, n) => if p in c.index.clients && RfcHolder(n, p) !in c.index.rfcs then c.added + {n} else c.added
    case _ => c.added
  }

  ghost predicate Acts(c: Config, d: Config) {
    && c.party.todo == [] && HandlerActs(c.party.at, c.index, d.index, d.party)
    && d == c.(party := d.party, index := d.index, added := AddedBy(c))
  }

  /** One step of the handler: a send, a receive or a call of the index. */
  ghost predicate OwnMove(c: Config, d: Config) {
    || (c.party.todo != [] && d == Sent(c))
    || (CanReceive(c.party, HandlerExpects(c.party.at), c.incoming) && d == Received(c))
    || Acts(c, d)
  }

  /** What other handlers may do meanwhile: anything but to touch the entries of the peers in `calm`. */
  ghost predicate Others(calm: iset<Peer>, c: Config, d: Config) {
    d == c.(index := d.index) && forall q :: q in calm ==> SameEntries(c.index, d.index, q)
  }

  ghost predicate Move(calm: iset<Peer>, c: Config, d: Config) {
    OwnMove(c, d) || Others(calm, c, d)
  }

  ghost const OWN_MOVES: (Config, Config) -> bool := (c, d) => OwnMove(c, d)

  ghost function Moves(calm: iset<Peer>): (Config, Config) -> bool {
    (c, d) => Move(calm, c, d)
  }

  // ---- What a whole session does to the index ----

  /** The peer that the handler serves, once it knows. */
  function Identity(at: HandlerAt): Option<Peer> {
    match at
    case Joining(p) => Some(p)
    case AwaitMessage(p) => Some(p)
    case AwaitAdd(p) => Some(p)
    case Adding(p, _) => Some(p)
    case Listing(p) => Some(p)
    case AwaitLookup(p) => Some(p)
    case LookingUp(p, _) => Some(p)
    case Removing(p) => Some(p)
    case _ => None
  }

  /** The peer that introduces itself in `incoming`. */
  function Introduced(incoming: seq<Frame>): Option<Peer> {
    if |incoming| >= 4 && |incoming[3]| == INT_SIZE then Some(Peer(CString(incoming[2]), DecodeInt(incoming[3]))) else None
  }

  ghost predicate NoEntries(index: Index, p: Peer) {
    p !in index.clients && forall n: int32 :: RfcHolder(n, p) !in index.rfcs
  }

  /** The entries of `p` when its handler has joined at `c` and is at `d`: a client, with what was there and what was accepted. */
  ghost predicate JoinedEntries(c: Config, d: Config, p: Peer) {
    && p in d.index.clients
    && forall n: int32 :: RfcHolder(n, p) in d.index.rfcs <==> RfcHolder(n, p) in c.index.rfcs || n in d.added
  }

  ghost predicate Untouched(calm: iset<Peer>, c: Config, d: Config) {
    forall q :: q in calm ==> SameEntries(c.index, d.index, q)
  }

  /** How far a handler started at `c` has come at `d`, and what has become of the entries of the peers in `calm`. */
  ghost predicate Story(calm: iset<Peer>, c: Config, d: Config) {
    match d.party.at
    case AwaitVersion => Untouched(calm, c, d) && d.added == {} && d.incoming == c.incoming
    case AwaitHostLen => Untouched(calm, c, d) && d.added == {} && |c.incoming| >= 1 && d.incoming == c.incoming[1..]
    case AwaitHost(_) => Untouched(calm, c, d) && d.added == {} && |c.incoming| >= 2 && d.incoming == c.incoming[2..]
    case AwaitPort(host) =>
      Untouched(calm, c, d) && d.added == {} && |c.incoming| >= 3 && d.incoming == c.incoming[3..] && host == CString(c.incoming[2])
    case Joining(p) => Untouched(calm, c, d) && d.added == {} && Introduced(c.incoming) == Some(p)
    case Refused => Untouched(calm, c, d)
    case Closed =>
      && Introduced(c.incoming).Some? && Untouched(calm - iset{Introduced(c.incoming).value}, c, d)
      && (Introduced(c.incoming).value in calm ==> NoEntries(d.index, Introduced(c.incoming).value))
    case at =>
      && Introduced(c.incoming) == Identity(at) && Identity(at).Some? && Untouched(calm - iset{Identity(at).value}, c, d)
      && (Identity(at).value in calm ==> JoinedEntries(c, d, Identity(at).value))
  }

  lemma ReceiveKeepsStory(calm: iset<Peer>, c: Config, d: Config)
    requires Story(calm, c, d) && CanReceive(d.party, HandlerExpects(d.party.at), d.incoming)
    ensures Story(calm, c, Received(d))
  {
  }

  /** A handler touches the entries of the peer it serves alone. */
  lemma OwnMoveTouchesOwn(c: Config, d: Config, q: Peer)
    requires OwnMove(c, d) && Identity(c.party.at) != Some(q)
    ensures SameEntries(c.index, d.index, q)
  {
  }

  lemma ActKeepsStory(calm: iset<Peer>, c: Config, d: Config, e: Config)
    requires Story(calm, c, d) && Acts(d, e)
    ensures Story(calm, c, e)
  {
    var p := Identity(d.party.at).value;
    forall q | q in calm && q != p ensures SameEntries(c.index, e.index, q) {
      OwnMoveTouchesOwn(d, e, q);
      assert q in calm - iset{p} && SameEntries(c.index, d.index, q);
    }
    if p in calm { ActKeepsOwn(c, d, e, p); }
  }

  lemma ActKeepsOwn(c: Config, d: Config, e: Config, p: Peer)
    requires Acts(d, e) && Identity(d.party.at) == Some(p)
    requires if d.party.at.Joining? then SameEntries(c.index, d.index, p) && d.added == {} else JoinedEntries(c, d, p)
    ensures if e.party.at.Closed? then NoEntries(e.index, p) else JoinedEntries(c, e, p)
  {
  }

  lemma OthersKeepStory(calm: iset<Peer>, c: Config, d: Config, e: Config)
    requires Story(calm, c, d) && Others(calm, d, e)
    ensures Story(calm, c, e)
  {
    forall q, n: int32 | q in calm ensures RfcHolder(n, q) in e.index.rfcs <==> RfcHolder(n, q) in d.index.rfcs {
      assert SameEntries(d.index, e.index, q);
    }
  }

  lemma MoveKeepsStory(calm: iset<Peer>, c: Config, d: Config, e: Config)
    requires Story(calm, c, d) && Move(calm, d, e)
    ensures Story(calm, c, e)
  {
    if Others(calm, d, e) {
      OthersKeepStory(calm, c, d, e);
    } else if Acts(d, e) {
      ActKeepsStory(calm, c, d, e);
    } else if d.party.todo == [] {
      ReceiveKeepsStory(calm, c, d);
    }
  }

  /**
   At every point of a session, whatever other handlers do: the entries of a peer that the others leave alone
   are as they were, but for the peer of the session, whose entries are what its own accepted requests made them.
   */
  lemma RunTellsStory(calm: iset<Peer>, c: Config, d: Config)
    requires Reaches(Moves(calm), c, d) && c.party == HandlerStart() && c.added == {}
    ensures Story(calm, c, d)
  {
    forall x, y | Story(calm, c, x) && Moves(calm)(x, y) ensures Story(calm, c, y) {
      MoveKeepsStory(calm, c, x, y);
    }
    Invariance(Moves(calm), x => Story(calm, c, x), c, d);
  }

  /** A finished session has no entries left, however other handlers interleave, if they leave its peer alone. */
  lemma SessionLeavesNoTrace(calm: iset<Peer>, c: Config, d: Config)
    requires Reaches(Moves(calm), c, d) && c.party == HandlerStart() && c.added == {} && d.party.at == Closed
    ensures Introduced(c.incoming).Some?
    ensures Introduced(c.incoming).value in calm ==> NoEntries(d.index, Introduced(c.incoming).value)
    ensures forall q :: q in calm && q != Introduced(c.incoming).value ==> SameEntries(c.index, d.index, q)
  {
    RunTellsStory(calm, c, d);
  }

  /** When nobody else touches the index, the session of a new peer leaves it as it was. */
  lemma SessionAloneChangesNothing(calm: iset<Peer>, c: Config, d: Config)
    requires forall q: Peer :: q in calm
    requires Reaches(Moves(calm), c, d) && c.party == HandlerStart() && c.added == {} && d.party.at == Closed
    requires Introduced(c.incoming).Some? ==> NoEntries(c.index, Introduced(c.incoming).value)
    ensures d.index == c.index
  {
    SessionLeavesNoTrace(calm, c, d);
    forall h ensures h in d.index.rfcs <==> h in c.index.rfcs {
      assert h == RfcHolder(h.rfc, h.peer) && SameEntries(c.index, d.index, h.peer);
    }
    forall q ensures q in d.index.clients <==> q in c.index.clients {
      assert SameEntries(c.index, d.index, q);
    }
  }

  // ---- The program ----

  /** The four bytes that answer an ADD: 200 for a registered peer and a new number, else 400. */
  function AddAnswerTo(p: Peer, n: int32, index: Index): Frame {
    if p in index.clients && RfcHolder(n, p) !in index.rfcs then [0, 0, 0, 200] else [0, 0, 1, 144]
  }

  /** A call of the index by some other handler. */
  method Perform(index: CentralIndex.CentralIndex, op: Op)
    requires index.Valid()
    modifies index
    ensures index.Valid() && exists reply :: Atomic(op, old(index.Abstract()), index.Abstract(), reply)
  {
    match op {
      case AddClient(q) =>
        var ok := index.AddClient(q.host, q.port);
        assert Atomic(op, old(index.Abstract()), index.Abstract(), Flag(ok));
      case RemoveClient(q) =>
        var ok := index.RemoveClient(q.host, q.port);
        assert Atomic(op, old(index.Abstract()), index.Abstract(), Flag(ok));
      case AddRfc(q, n) =>
        var ok := index.AddRfc(q.host, q.port, n);
        assert Atomic(op, old(index.Abstract()), index.Abstract(), Flag(ok));
      case FindRfcs(n) =>
        var peers := index.FindRfcs(n);
        assert Atomic(op, old(index.Abstract()), index.Abstract(), Peers(peers));
      case AllRfcs =>
        var holders := index.AllRfcs();
        assert Atomic(op, old(index.Abstract()), index.Abstract(), Holders(holders));
    }
  }

  /**
   A handler thread among others: before its k-th call of the index the others make the calls `others(k)`,
   on behalf of peers that are not in `calm`. `now` is the specification's account of what has happened since `start`.
   */
  class Handler {
    const index: CentralIndex.CentralIndex
    const sock: Connection
    const others: nat -> seq<Op>
    var turn: nat
    ghost const calm: iset<Peer>
    ghost const start: Config
    ghost var now: Config

    ghost predicate Valid()
      reads this, index, sock
    {
      && index.Valid()
      && (forall k, op :: op in others(k) && PeerOf(op).Some? ==> PeerOf(op).value !in calm)
      && now.index == index.Abstract() && now.incoming == sock.incoming && now.outgoing == sock.outgoing
      && Reaches(Moves(calm), start, now)
    }

    constructor (index: CentralIndex.CentralIndex, sock: Connection, others: nat -> seq<Op>, ghost calm: iset<Peer>)
      requires index.Valid() && forall k, op :: op in others(k) && PeerOf(op).Some? ==> PeerOf(op).value !in calm
      ensures Valid() && this.index == index && this.sock == sock && this.others == others && this.calm == calm && start == now
      ensures now == Config(HandlerStart(), index.Abstract(), sock.incoming, sock.outgoing, {})
    {
      this.index, this.sock, this.others, turn, this.calm := index, sock, others, 0, calm;
      start := Config(HandlerStart(), index.Abstract(), sock.incoming, sock.outgoing, {});
      now := Config(HandlerStart(), index.Abstract(), sock.incoming, sock.outgoing, {});
      new;
      ReachesItself(Moves(calm), now);
    }

    /** Other handlers have their turn. */
    method Meanwhile()
      requires Valid()
      modifies this`now, this`turn, index
      ensures Valid() && now == old(now).(index := now.index)
      ensures forall q :: q in calm ==> SameEntries(old(now).index, now.index, q)
    {
      var ops := others(turn);
      turn := turn + 1;
      for i := 0 to |ops|
        invariant Valid() && now == old(now).(index := now.index)
        invariant forall q :: q in calm ==> SameEntries(old(now).index, now.index, q)
      {
        Perform(index, ops[i]);
        ghost var reply :| Atomic(ops[i], now.index, index.Abstract(), reply);
        ghost var c := now.(index := index.Abstract());
        forall q | q in calm ensures SameEntries(now.index, c.index, q) {
          AtomicTouchesOwn(ops[i], now.index, c.index, reply, q);
        }
        assert Others(calm, now, c);
        ReachesNext(Moves(calm), start, now, c);
        now := c;
      }
    }

    method Send(data: Frame)
      requires Valid() && now.party.todo != [] && now.party.todo[0] == data
      modifies this`now, sock
      ensures Valid() && now == Sent(old(now))
    {
      sock.Send(data);
      ReachesNext(Moves(calm), start, now, Sent(now));
      now := Sent(now);
    }

    method Recv(length: int) returns (data: Option<Frame>)
      requires Valid() && now.party.todo == [] && HandlerExpects(now.party.at) == Some(length)
      modifies this`now, sock
      ensures Valid()
      ensures data.Some? ==> [data.value] + sock.incoming == old(sock.incoming)
      ensures data.Some? ==> |data.value| == length && now == old(now).(
                party := Party([], HandlerReceives(old(now).party.at, data.value)), incoming := sock.incoming)
      ensures data.None? ==> now == old(now) && Terminal(OWN_MOVES, now)
    {
      data := sock.Recv(length);
      if data.Some? {
        ReachesNext(Moves(calm), start, now, Received(now));
        now := Received(now);
      }
    }

    /** The call of the index that has just been made is the specification's. */
    ghost method Called(party: Party<HandlerAt>)
      requires index.Valid() && (forall k, op :: op in others(k) && PeerOf(op).Some? ==> PeerOf(op).value !in calm)
      requires now.party.todo == [] && Reaches(Moves(calm), start, now)
      requires now.incoming == sock.incoming && now.outgoing == sock.outgoing
      requires HandlerActs(now.party.at, now.index, index.Abstract(), party)
      modifies this`now
      ensures Valid() && now == old(now).(party := party, index := index.Abstract(), added := AddedBy(old(now)))
    {
      var c := now.(party := party, index := index.Abstract(), added := AddedBy(now));
      assert Acts(now, c);
      ReachesNext(Moves(calm), start, now, c);
      now := c;
    }

    /** `add_rfc`. */
    method AddRfc(host: seq<byte>, uploadPort: int32) returns (done: bool)
      requires Valid() && now.party == Party([], AwaitAdd(Peer(host, uploadPort)))
      modifies this`now, this`turn, sock, index
      ensures Valid() && |sock.incoming| <= |old(sock.incoming)|
      ensures if done then now.party == Party([], AwaitMessage(Peer(host, uploadPort))) else Terminal(OWN_MOVES, now) && now.party.at != Closed
      ensures done ==> |old(sock.incoming)| > 0 && |old(sock.incoming)[0]| == 4 && |sock.outgoing| == |old(sock.outgoing)| + 1
                       && sock.outgoing[..|old(sock.outgoing)|] == old(sock.outgoing)
      ensures done && Peer(host, uploadPort) in calm ==>
        sock.outgoing[|old(sock.outgoing)|] == AddAnswerTo(Peer(host, uploadPort), DecodeInt(old(sock.incoming)[0]), old(index.Abstract()))
    {
      var buf := Recv(INT_SIZE);
      if buf.None? { return false; }
      AnswerAdd(host, uploadPort, DecodeInt(buf.value));
      return true;
    }

    method AnswerAdd(host: seq<byte>, uploadPort: int32, rfcNum: int32)
      requires Valid() && now.party == Party([], Adding(Peer(host, uploadPort), rfcNum))
      modifies this`now, this`turn, sock, index
      ensures Valid() && now.party == Party([], AwaitMessage(Peer(host, uploadPort)))
      ensures sock.incoming == old(sock.incoming) && |sock.outgoing| == |old(sock.outgoing)| + 1
      ensures sock.outgoing[..|old(sock.outgoing)|] == old(sock.outgoing)
      ensures Peer(host, uploadPort) in calm ==>
        sock.outgoing[|old(sock.outgoing)|] == AddAnswerTo(Peer(host, uploadPort), rfcNum, old(index.Abstract()))
    {
      var code := 200;
      Meanwhile();
      ghost var before := now.index;
      var added := index.AddRfc(host, uploadPort, rfcNum);
      if !added {
        code := 400;
      }
      Numbers();
      assert EncodeInt(code) == AddAnswerTo(Peer(host, uploadPort), rfcNum, before);
      Called(Party([EncodeInt(code)], AwaitMessage(Peer(host, uploadPort))));
      Send(EncodeInt(code));
    }

    /** Size, then body. */
    method Respond(size: nat, body: Frame)
      requires Valid() && now.party.todo == Sized(body) && size == |body| < TWO_TO_THE_31
      modifies this`now, sock
      ensures Valid() && now == old(now).(party := Party([], old(now).party.at), outgoing := old(now).outgoing + Sized(body))
    {
      ToInt32Identity(|body|);
      Send(EncodeInt(size));
      Send(body);
    }

    /** `list_rfcs`. It fails where `to_bytes` has nothing to return or the size is no `int`. */
    method ListRfcs(host: seq<byte>, uploadPort: int32) returns (done: bool)
      requires Valid() && now.party == Party([], Listing(Peer(host, uploadPort)))
      modifies this`now, this`turn, sock, index
      ensures Valid() && sock.incoming == old(sock.incoming)
      ensures if done then now.party == Party([], AwaitMessage(Peer(host, uploadPort))) else Terminal(OWN_MOVES, now) && now.party == old(now).party
    {
      Meanwhile();
      var holders := index.AllRfcs();
      var size, buf := ListMessage(holders);
      if buf.None? {
        NoListBody(now.index, holders);
        return false;
      }
      Called(Party(Sized(buf.value), AwaitMessage(Peer(host, uploadPort))));
      Respond(size, buf.value);
      return true;
    }

    /** `lookup_rfc`. */
    method LookupRfc(host: seq<byte>, uploadPort: int32) returns (done: bool)
      requires Valid() && now.party == Party([], AwaitLookup(Peer(host, uploadPort)))
      modifies this`now, this`turn, sock, index
      ensures Valid() && |sock.incoming| <= |old(sock.incoming)|
      ensures if done then now.party == Party([], AwaitMessage(Peer(host, uploadPort))) else Terminal(OWN_MOVES, now) && now.party.at != Closed
    {
      var msg := Recv(INT_SIZE);
      if msg.None? { return false; }
      var rfcNum := DecodeInt(msg.value);
      Meanwhile();
      var clients := index.FindRfcs(rfcNum);
      var size, buf := LookupMessage(clients);
      if buf.None? {
        NoLookupBody(now.index, rfcNum, clients);
        return false;
      }
      Called(Party(Sized(buf.value), AwaitMessage(Peer(host, uploadPort))));
      Respond(size, buf.value);
      return true;
    }

    /** The identity that follows the version exchange. */
    method Introduce() returns (client: Option<Peer>)
      requires Valid() && now.party == Party([], AwaitHostLen)
      modifies this`now, sock
      ensures Valid() && |sock.incoming| <= |old(sock.incoming)|
      ensures match client
              case Some(p) => now.party == Party([], Joining(p))
              case None => Terminal(OWN_MOVES, now) && now.party.at != Closed
    {
      var hostLen := Recv(INT_SIZE);
      if hostLen.None? { return None; }
      var host := Recv(DecodeInt(hostLen.value));
      if host.None? { return None; }
      var uploadPort := Recv(INT_SIZE);
      if uploadPort.None? { return None; }
      return Some(Peer(CString(host.value), DecodeInt(uploadPort.value)));
    }

    /**
     `client_handler`: whatever other handlers do to the shared index, it does what the specification does until
     that can do no more. When it has finished, its peer has no entries left and the other calm peers have theirs.
     */
    method Run() returns (isFinished: bool)
      requires Valid() && now == start && now.party == HandlerStart() && now.added == {}
      modifies this`now, this`turn, sock, index
      ensures Valid() && Terminal(OWN_MOVES, now) && (isFinished <==> now.party.at == Closed)
      ensures Story(calm, start, now)
      ensures isFinished ==> var p := Introduced(old(sock.incoming));
        && p.Some? && (p.value in calm ==> NoEntries(index.Abstract(), p.value))
        && forall q :: q in calm && q != p.value ==> SameEntries(old(index.Abstract()), index.Abstract(), q)
    {
      isFinished := Converse();
      RunTellsStory(calm, start, now);
    }

    /** The handler from its first send to its end. */
    method Converse() returns (isFinished: bool)
      requires Valid() && now.party == HandlerStart()
      modifies this`now, this`turn, sock, index
      ensures Valid() && Terminal(OWN_MOVES, now) && (isFinished <==> now.party.at == Closed)
      ensures old(sock.incoming) != [] && |old(sock.incoming)[0]| == 4 && old(sock.incoming)[0] != [0, 0, 0, 1] ==>
                !isFinished && sock.outgoing == old(sock.outgoing) + [[0, 0, 0, 1]] && index.Abstract() == old(index.Abstract())
    {
      Numbers();
      Send(EncodeInt(PROTOCOL_VERSION));
      var clientVersion := Recv(INT_SIZE);
      if clientVersion.None? { return false; }
      ReadAsIff(clientVersion.value, PROTOCOL_VERSION);
      if DecodeInt(clientVersion.value) != PROTOCOL_VERSION {
        return false;
      }
      var client := Introduce();
      if client.None? { return false; }
      isFinished := Serve(client.value.host, client.value.port);
    }

    /** The part of the session between `add_client` and `remove_client`. */
    method Serve(host: seq<byte>, uploadPort: int32) returns (ended: bool)
      requires Valid() && now.party == Party([], Joining(Peer(host, uploadPort)))
      modifies this`now, this`turn, sock, index
      ensures Valid() && Terminal(OWN_MOVES, now) && (ended <==> now.party.at == Closed)
    {
      Register(host, uploadPort);
      ended := ServeRequests(host, uploadPort);
      if ended {
        Unregister(host, uploadPort);
      }
    }

    method Register(host: seq<byte>, uploadPort: int32)
      requires Valid() && now.party == Party([], Joining(Peer(host, uploadPort)))
      modifies this`now, this`turn, index
      ensures Valid() && now.party == Party([], AwaitMessage(Peer(host, uploadPort)))
    {
      Meanwhile();
      var _ := index.AddClient(host, uploadPort);
      Called(Party([], AwaitMessage(Peer(host, uploadPort))));
    }

    method Unregister(host: seq<byte>, uploadPort: int32)
      requires Valid() && now.party == Party([], Removing(Peer(host, uploadPort)))
      modifies this`now, this`turn, index
      ensures Valid() && now.party == Party([], Closed)
    {
      Meanwhile();
      var _ := index.RemoveClient(host, uploadPort);
      Called(Party([], Closed));
      Meanwhile();
    }

    /** The loop over the requests of a client, up to DISCONNECT. */
    method ServeRequests(host: seq<byte>, uploadPort: int32) returns (ended: bool)
      requires Valid() && now.party == Party([], AwaitMessage(Peer(host, uploadPort)))
      modifies this`now, this`turn, sock, index
      ensures Valid()
      ensures if ended then now.party == Party([], Removing(Peer(host, uploadPort))) else Terminal(OWN_MOVES, now) && now.party.at != Closed
    {
      while true
        invariant Valid() && now.party == Party([], AwaitMessage(Peer(host, uploadPort)))
        decreases |sock.incoming|
      {
        var data := Recv(INT_SIZE);
        if data.None? { return false; }
        var message := DecodeInt(data.value);
        var done := true;
        if message == ADD {
          done := AddRfc(host, uploadPort);
        } else if message == LIST {
          done := ListRfcs(host, uploadPort);
        } else if message == LOOKUP {
          done := LookupRfc(host, uploadPort);
        } else if message == DISCONNECT {
          return true;
        }
        if !done { return false; }
      }
    }
  }

  /** The response to LIST; None where `to_bytes` returns no buffer or the size is no `int`. */
  method ListMessage(holders: seq<RfcHolder>) returns (size: nat, body: Option<Frame>)
    ensures body.Some? ==> IsListBody(holders, body.value) && size == |body.value|
    ensures body.None? ==> !ListResponse.IsValid(if |holders| != 0 then 200 else 404, holders)
                           || ResponseLists.WireSize(ListResponse.HOLDER_BYTES, holders) >= TWO_TO_THE_31
  {
    var code := if |holders| != 0 then 200 else 404;
    if ResponseLists.WireSize(ListResponse.HOLDER_BYTES, holders) >= TWO_TO_THE_31 { return 0, None; }
    var res := new ListResponse.ListRfcResponse(code, holders);
    var buf := res.ToBytes();
    if buf == null { return 0, None; }
    size := res.MessageSize();
    return size, Some(buf[..]);
  }

  /** The response to LOOKUP. */
  method LookupMessage(peers: seq<Peer>) returns (size: nat, body: Option<Frame>)
    ensures body.Some? ==> IsLookupBody(peers, body.value) && size == |body.value|
    ensures body.None? ==> !LookupResponse.IsValid(if |peers| != 0 then 200 else 404, peers)
                           || ResponseLists.WireSize(LookupResponse.PEER_BYTES, peers) >= TWO_TO_THE_31
  {
    var code := 200;
    if |peers| == 0 {
      code := 404;
    }
    if ResponseLists.WireSize(LookupResponse.PEER_BYTES, peers) >= TWO_TO_THE_31 { return 0, None; }
    var res := new LookupResponse.LookupRfcResponse(code, peers);
    var buf := res.ToBytes();
    if buf == null { return 0, None; }
    size := res.MessageSize();
    return size, Some(buf[..]);
  }

  /** When the holders have no encoding, the specification cannot answer LIST either. */
  lemma NoListBody(index: Index, holders: seq<RfcHolder>)
    requires Atomic(AllRfcs, index, index, Holders(holders))
    requires !ListResponse.IsValid(if |holders| != 0 then 200 else 404, holders)
             || ResponseLists.WireSize(ListResponse.HOLDER_BYTES, holders) >= TWO_TO_THE_31
    ensures forall p: Peer, index', party :: !HandlerActs(Listing(p), index, index', party)
  {
    forall p: Peer, index', party | HandlerActs(Listing(p), index, index', party) ensures false {
      var other, body :| Atomic(AllRfcs, index, index', Holders(other)) && IsListBody(other, body)
                         && party == Party(Sized(body), AwaitMessage(p));
      AtomicIsFunction(AllRfcs, index, index, Holders(holders), index', Holders(other));
    }
  }

  lemma NoLookupBody(index: Index, n: int32, peers: seq<Peer>)
    requires Atomic(FindRfcs(n), index, index, Peers(peers))
    requires !LookupResponse.IsValid(if |peers| != 0 then 200 else 404, peers)
             || ResponseLists.WireSize(LookupResponse.PEER_BYTES, peers) >= TWO_TO_THE_31
    ensures forall p: Peer, index', party :: !HandlerActs(LookingUp(p, n), index, index', party)
  {
    forall p: Peer, index', party | HandlerActs(LookingUp(p, n), index, index', party) ensures false {
      var other, body :| Atomic(FindRfcs(n), index, index', Peers(other)) && IsLookupBody(other, body)
                         && party == Party(Sized(body), AwaitMessage(p));
      AtomicIsFunction(FindRfcs(n), index, index, Peers(peers), index', Peers(other));
    }
  }
}
