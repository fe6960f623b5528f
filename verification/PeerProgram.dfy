/** The program of a peer towards the index, against the client of module Protocol. */
module PeerProgram {
  import opened Bytes
  import opened Sorting
  import opened IndexSpec
  import opened Records
  import opened Protocol
  import opened Connections
  import opened Paths
  import opened WireFormat
  import RfcManager
  import GetResponse
  import ResponseLists
  import LookupResponse
  import ListResponse

  // ---- A download ----

  datatype Outcome = Stored(content: seq<byte>) | Missing | Hanging

  /** What comes of asking a peer for RFC `n`, when that peer sends `incoming`. */
  function Download(n: int32, incoming: seq<Frame>): Outcome {
    if NarrowToShort(n) <= 0 then Hanging                     // GetRFCMessage has no bytes for it
    else if |incoming| < 2 || |incoming[0]| != INT_SIZE || |incoming[1]| != DecodeInt(incoming[0]) then Hanging
    else
      match FetchReceives(WaitBody(|incoming[1]|), incoming[1])
      case (_, Some(content)) => Stored(content)
      case (party, None) => if party.at == Missed then Missing else Hanging
  }

  /** A copy of a message in a buffer. */
  method Buffer(data: Frame) returns (buf: array<byte>)
    ensures fresh(buf) && buf[..] == data
  {
    buf := new byte[|data|](i requires 0 <= i < |data| => data[i]);
  }

  /** `get_from_peer`; None stands for a call that does not come back. */
  method GetFromPeer(me: Peer, manager: RfcManager.RfcManager, rfcNum: int32, sock: Connection) returns (stored: Option<bool>)
    requires RfcManager.AllCanonical(manager.files) && rfcNum > 0
    modifies manager, sock
    ensures RfcManager.AllCanonical(manager.files)
    ensures match Download(rfcNum, old(sock.incoming))
      case Stored(content) =>
        && stored == Some(true)
        && RfcManager.StoreOf(manager.files) == RfcManager.StoreOf(old(manager.files))[rfcNum := RfcManager.WrittenAs(content)]
        && sock.outgoing == old(sock.outgoing) + FetchStart(me, rfcNum).todo + [EncodeInt(PEER_DISCONNECT)]
      case Missing =>
        stored == Some(false) && manager.files == old(manager.files) && sock.outgoing == old(sock.outgoing) + FetchStart(me, rfcNum).todo
      case Hanging =>
        && stored == None && manager.files == old(manager.files)
        && sock.outgoing == old(sock.outgoing) + FetchStart(me, rfcNum).todo[..if NarrowToShort(rfcNum) > 0 then 5 else 4]
  {
    sock.Send(EncodeInt(ToInt32(|me.host|)));
    sock.Send(me.host);
    sock.Send(EncodeInt(me.port));
    sock.Send(EncodeInt(GET));
    assert sock.outgoing == old(sock.outgoing) + FetchStart(me, rfcNum).todo[..4];
    if NarrowToShort(rfcNum) <= 0 { return None; }
    sock.Send(EncodeShort(NarrowToShort(rfcNum)));
    assert sock.outgoing == old(sock.outgoing) + FetchStart(me, rfcNum).todo[..5];
    assert FetchStart(me, rfcNum).todo[..5] == FetchStart(me, rfcNum).todo;
    var body := RecvBody(sock);
    if body.None? || GetResponse.Parse(body.value).Stuck? { return None; }
    var code, content := GetDecoded(body.value);
    if code == 404 { return Some(false); }
    var _ := manager.AddRfc(rfcNum, content);
    sock.Send(EncodeInt(PEER_DISCONNECT));
    return Some(true);
  }

  /** A size-prefixed message. */
  method RecvBody(sock: Connection) returns (body: Option<Frame>)
    modifies sock`incoming
    ensures body.Some? <==> && |old(sock.incoming)| >= 2 && |old(sock.incoming)[0]| == INT_SIZE
                            && |old(sock.incoming)[1]| == DecodeInt(old(sock.incoming)[0])
    ensures body.Some? ==> body.value == old(sock.incoming)[1]
  {
    var size := sock.Recv(INT_SIZE);
    if size.None? { return None; }
    body := sock.Recv(DecodeInt(size.value));
  }

  /** The fields of a fresh response object that has decoded `body`. */
  method GetDecoded(body: Frame) returns (code: int32, content: seq<byte>)
    requires GetResponse.Parse(body).Parsed?
    ensures match GetResponse.Parse(body).value
            case Found(c) => code == 200 && content == c
            case Failed(c) => code == c && content == []
  {
    var buf := Buffer(body);
    var res := new GetResponse.GetRfcResponse(0, []);
    res.FromBytes(buf);
    return res.code, res.content;
  }

  /** The fields of a response object that has decoded `body`. */
  method LookupDecoded(body: Frame) returns (code: int32, hosts: seq<Peer>)
    requires ResponseLists.Parse(LookupResponse.PEER_PARSER, body).Parsed?
    ensures ResponseLists.Message(code, hosts) == ResponseLists.Parse(LookupResponse.PEER_PARSER, body).value
  {
    var buf := Buffer(body);
    var res := new LookupResponse.LookupRfcResponse(0, []);
    res.FromBytes(buf);
    return res.code, res.hosts;
  }

  // ---- The specification ----

  /** The peer itself and what other peers will send it: the k-th peer contacted, if it is `p`, sends `network(p, k)`. */
  datatype World = World(me: Peer, network: (Peer, nat) -> seq<Frame>)

  datatype Config = Config(
    party: Party<ClientAt>, dir: map<int32, seq<byte>>, commands: seq<Command>, contacts: nat,
    incoming: seq<Frame>, outgoing: seq<Frame>)

  function Sent(c: Config): Config
    requires c.party.todo != []
  {
    c.(party := c.party.(todo := c.party.todo[1..]), outgoing := c.outgoing + [c.party.todo[0]])
  }

  function Received(w: World, stored: seq<int32>, c: Config): Config
    requires CanReceive(c.party, ClientExpects(c.party.at), c.incoming)
  {
    c.(party := ClientReceives(w.me, stored, c.party.at, c.incoming[0]), incoming := c.incoming[1..])
  }

  ghost predicate Receives(w: World, c: Config, d: Config) {
    && CanReceive(c.party, ClientExpects(c.party.at), c.incoming)
    && exists stored :: (c.party.at == WaitVersion ==> IsEnumeration(RfcManager.ASCENDING, stored, c.dir.Keys))
                        && d == Received(w, stored, c)
  }

  /** A download, from connecting to the end. */
  predicate Downloads(w: World, c: Config, d: Config) {
    && c.party.todo == [] && c.party.at.Connecting?
    && var n := c.party.at.n;
       match Download(n, w.network(c.party.at.peer, c.contacts))
       case Stored(content) =>
         d == c.(party := ClientNotifies(n), dir := c.dir[n := RfcManager.WrittenAs(content)], contacts := c.contacts + 1)
       case Missing => d == c.(party := Party([], Prompt), contacts := c.contacts + 1)
       case Hanging => false
  }

  /** One step of the specification. */
  ghost predicate Move(w: World, c: Config, d: Config) {
    || (c.party.todo != [] && d == Sent(c))
    || Receives(w, c, d)
    || (c.party.todo == [] && c.party.at.Announce? && d == c.(party := ClientContinues(c.party.at)))
    || (c.party == Party([], Prompt) && c.commands != []
        && d == c.(party := ClientObeys(c.commands[0], c.dir.Keys), commands := c.commands[1..]))
    || Downloads(w, c, d)
  }

  ghost function Moves(w: World): (Config, Config) -> bool {
    (c, d) => Move(w, c, d)
  }

  /** Where the client stands after a whole size-prefixed response. */
  function AfterBody(at: ClientAt, body: Frame): ClientAt {
    if at.WaitLookupSize? then AfterLookup(at.n, body)
    else if ResponseLists.Parse(ListResponse.HOLDER_PARSER, body).Stuck? then Broken
    else Prompt
  }

  /** What announcing some numbers puts on the wire: ADD and the number, for each. */
  function Announcements(rfcs: seq<int32>): seq<Frame> {
    if rfcs == [] then [] else Announcements(rfcs[..|rfcs| - 1]) + [[0, 0, 0, 1], EncodeInt(rfcs[|rfcs| - 1])]
  }

  lemma OneMoreAnnouncement(rfcs: seq<int32>, i: nat, sent: seq<Frame>)
    requires i < |rfcs|
    ensures rfcs[i..][0] == rfcs[i] && rfcs[i..][1..] == rfcs[i + 1..]
    ensures sent + Announcements(rfcs[..i + 1]) == sent + Announcements(rfcs[..i]) + [[0, 0, 0, 1], EncodeInt(rfcs[i])]
  {
    assert rfcs[..i + 1][..i] == rfcs[..i];
  }

  // ---- The program ----

  class Client {
    const world: World
    const sock: Connection
    const manager: RfcManager.RfcManager
    var contacts: nat
    ghost const start: Config
    ghost var now: Config

    ghost predicate Valid()
      reads this, sock, manager
    {
      && RfcManager.AllCanonical(manager.files) && now.dir == RfcManager.StoreOf(manager.files)
      && now.incoming == sock.incoming && now.outgoing == sock.outgoing && now.contacts == contacts
      && Reaches(Moves(world), start, now)
    }

    constructor (world: World, sock: Connection, manager: RfcManager.RfcManager, ghost commands: seq<Command>)
      requires RfcManager.AllCanonical(manager.files)
      ensures Valid() && this.world == world && this.sock == sock && this.manager == manager && start == now
      ensures now == Config(ClientStart(), RfcManager.StoreOf(manager.files), commands, 0, sock.incoming, sock.outgoing)
    {
      this.world, this.sock, this.manager, contacts := world, sock, manager, 0;
      start := Config(ClientStart(), RfcManager.StoreOf(manager.files), commands, 0, sock.incoming, sock.outgoing);
      now := Config(ClientStart(), RfcManager.StoreOf(manager.files), commands, 0, sock.incoming, sock.outgoing);
      new;
      ReachesItself(Moves(world), now);
    }

    method Send(data: Frame)
      requires Valid() && now.party.todo != [] && now.party.todo[0] == data
      modifies this`now, sock
      ensures Valid() && now == Sent(old(now))
    {
      sock.Send(data);
      ReachesNext(Moves(world), start, now, Sent(now));
      now := Sent(now);
    }

    method Recv(length: int, ghost stored: seq<int32>) returns (data: Option<Frame>)
      requires Valid() && now.party.todo == [] && ClientExpects(now.party.at) == Some(length)
      requires now.party.at == WaitVersion ==> IsEnumeration(RfcManager.ASCENDING, stored, now.dir.Keys)
      modifies this`now, sock
      ensures Valid()
      ensures data.Some? ==> [data.value] + sock.incoming == old(sock.incoming)
      ensures data.Some? ==> |data.value| == length && now == old(now).(
                party := ClientReceives(world.me, stored, old(now).party.at, data.value), incoming := sock.incoming)
      ensures data.None? ==> now == old(now) && Terminal(Moves(world), now)
    {
      data := sock.Recv(length);
      if data.Some? {
        assert Receives(world, now, Received(world, stored, now));
        ReachesNext(Moves(world), start, now, Received(world, stored, now));
        now := Received(world, stored, now);
      }
    }

    /** A decision, which leaves sockets and files alone. */
    ghost method Decide(party: Party<ClientAt>, commands: seq<Command>)
      requires Valid() && Move(world, now, now.(party := party, commands := commands))
      modifies this`now
      ensures Valid() && now == old(now).(party := party, commands := commands)
    {
      ReachesNext(Moves(world), start, now, now.(party := party, commands := commands));
      now := now.(party := party, commands := commands);
    }

    /** `get_rfcs` of a directory of canonical names. */
    method LocalRfcs() returns (rfcs: seq<int32>)
      requires Valid()
      ensures IsEnumeration(RfcManager.ASCENDING, rfcs, now.dir.Keys)
    {
      assert "." !in manager.files && ".." !in manager.files;
      var listing := manager.GetRfcs();
      return listing.numbers;
    }

    /** `add_available_rfcs`. */
    method AddAvailableRfcs(ghost stored: seq<int32>) returns (done: bool, ghost k: nat)
      requires Valid() && now.party == Party([], Announce(stored)) && IsEnumeration(RfcManager.ASCENDING, stored, now.dir.Keys)
      modifies this`now, sock
      ensures Valid() && now.commands == old(now).commands
      ensures if done then now.party == Party([], Prompt) else Terminal(Moves(world), now)
      ensures done ==>
        && k <= |stored| && k <= |old(sock.incoming)| && sock.outgoing == old(sock.outgoing) + Announcements(stored[..k])
        && (forall i :: 0 <= i < k - 1 ==> old(sock.incoming)[i] == [0, 0, 0, 200])
        && (k < |stored| ==> k > 0 && old(sock.incoming)[k - 1] != [0, 0, 0, 200])
    {
      var rfcs := LocalRfcs();
      RfcManager.AscendingIsOrder();
      EnumerationUnique(RfcManager.ASCENDING, rfcs, stored, now.dir.Keys);
      done, k := AnnounceAll(rfcs);
    }

    /** The loop over the numbers; `k` of them are announced. */
    method AnnounceAll(rfcs: seq<int32>) returns (done: bool, ghost k: nat)
      requires Valid() && now.party == Party([], Announce(rfcs))
      modifies this`now, sock
      ensures Valid() && now.commands == old(now).commands
      ensures if done then now.party == Party([], Prompt) else Terminal(Moves(world), now)
      ensures done ==>
        && k <= |rfcs| && k <= |old(sock.incoming)| && sock.outgoing == old(sock.outgoing) + Announcements(rfcs[..k])
        && (forall i :: 0 <= i < k - 1 ==> old(sock.incoming)[i] == [0, 0, 0, 200])
        && (k < |rfcs| ==> k > 0 && old(sock.incoming)[k - 1] != [0, 0, 0, 200])
    {
      for i := 0 to |rfcs|
        invariant Valid() && now.party == Party([], Announce(rfcs[i..])) && now.commands == old(now).commands
        invariant i <= |old(sock.incoming)| && sock.incoming == old(sock.incoming)[i..]
        invariant sock.outgoing == old(sock.outgoing) + Announcements(rfcs[..i])
        invariant forall j :: 0 <= j < i ==> old(sock.incoming)[j] == [0, 0, 0, 200]
      {
        OneMoreAnnouncement(rfcs, i, old(sock.outgoing));
        var code := AnnounceOne(rfcs[i], rfcs[i..]);
        if code.None? { return false, 0; }
        if code.value != 200 { return true, i + 1; }
      }
      assert rfcs[..|rfcs|] == rfcs;
      Decide(Party([], Prompt), now.commands);
      return true, |rfcs|;
    }

    /** One round of the loop: the answer to ADD of a number. */
    method AnnounceOne(rfc: int32, ghost rest: seq<int32>) returns (code: Option<int32>)
      requires Valid() && now.party == Party([], Announce(rest)) && rest != [] && rest[0] == rfc
      modifies this`now, sock
      ensures Valid() && now.commands == old(now).commands && now.dir == old(now).dir
      ensures code.None? ==> Terminal(Moves(world), now)
      ensures code.Some? ==>
        && now.party == Party([], if code.value == 200 then Announce(rest[1..]) else Prompt)
        && sock.outgoing == old(sock.outgoing) + [[0, 0, 0, 1], EncodeInt(rfc)]
        && |old(sock.incoming)| > 0 && sock.incoming == old(sock.incoming)[1..]
        && (code.value == 200 <==> old(sock.incoming)[0] == [0, 0, 0, 200])
    {
      Numbers();
      Decide(ClientContinues(now.party.at), now.commands);
      Send(EncodeInt(ADD));
      if rfc <= 0 { return None; }
      Send(EncodeInt(rfc));
      var buf := Recv(INT_SIZE, []);
      if buf.None? { return None; }
      assert buf.value == old(sock.incoming)[0];
      ReadAsIff(buf.value, 200);
      return Some(DecodeInt(buf.value));
    }

    /** `check_if_rfc_stored`. */
    method CheckIfRfcStored(rfc: int32) returns (found: bool)
      requires Valid()
      ensures found <==> rfc in now.dir
    {
      var rfcs := LocalRfcs();
      for i := 0 to |rfcs|
        invariant rfc !in rfcs[..i]
      {
        if rfc == rfcs[i] { return true; }
      }
      assert rfcs[..|rfcs|] == rfcs;
      return false;
    }

    /** A size-prefixed response. */
    method RecvSized() returns (body: Option<Frame>)
      requires Valid() && now.party.todo == [] && (now.party.at.WaitLookupSize? || now.party.at.WaitListSize?)
      modifies this`now, sock
      ensures Valid() && now.commands == old(now).commands && now.dir == old(now).dir && now.contacts == old(now).contacts
      ensures match body
        case None => Terminal(Moves(world), now)
        case Some(b) => now.party == Party([], AfterBody(old(now).party.at, b))
      ensures sock.outgoing == old(sock.outgoing)
      ensures body.Some? ==> |old(sock.incoming)| >= 2 && body.value == old(sock.incoming)[1]
    {
      var size := Recv(INT_SIZE, []);
      if size.None? { return None; }
      body := Recv(DecodeInt(size.value), []);
    }

    /** `get_rfc`. */
    method GetRfc(rfcNum: int32) returns (done: bool)
      requires Valid() && now.party == Party([], Prompt) && now.commands != [] && now.commands[0] == GetCommand(rfcNum)
      modifies this, sock, manager
      ensures Valid() && now.commands == old(now).commands[1..]
      ensures if done then now.party == Party([], Prompt) else Terminal(Moves(world), now)
      ensures !(rfcNum > 0 && rfcNum !in old(now).dir) ==>
        done && sock.outgoing == old(sock.outgoing) && now.dir == old(now).dir && contacts == old(contacts)
      ensures rfcNum > 0 && rfcNum !in old(now).dir && contacts == old(contacts) ==>
        sock.outgoing == old(sock.outgoing) + [[0, 0, 0, 3], EncodeInt(rfcNum)] && now.dir == old(now).dir
      ensures contacts != old(contacts) ==>
        && rfcNum > 0 && rfcNum !in old(now).dir && contacts == old(contacts) + 1 && |old(sock.incoming)| >= 2
        && AfterLookup(rfcNum, old(sock.incoming)[1]).Connecting?
        && match Download(rfcNum, world.network(AfterLookup(rfcNum, old(sock.incoming)[1]).peer, old(contacts)))
           case Stored(content) =>
             && sock.outgoing == old(sock.outgoing) + [[0, 0, 0, 3], EncodeInt(rfcNum), [0, 0, 0, 1], EncodeInt(rfcNum)]
             && now.dir == old(now).dir[rfcNum := RfcManager.WrittenAs(content)]
           case Missing => sock.outgoing == old(sock.outgoing) + [[0, 0, 0, 3], EncodeInt(rfcNum)] && now.dir == old(now).dir
           case Hanging => false
    {
      var stored := CheckIfRfcStored(rfcNum);
      Decide(ClientObeys(now.commands[0], now.dir.Keys), now.commands[1..]);
      if rfcNum <= 0 || stored { return true; }
      done := GetRemote(rfcNum);
    }

    /** The rest of `get_rfc`, for a number that is not stored. */
    method GetRemote(rfcNum: int32) returns (done: bool)
      requires Valid() && now.party == Party([EncodeInt(LOOKUP), EncodeInt(rfcNum)], WaitLookupSize(rfcNum)) && rfcNum > 0
      modifies this, sock, manager
      ensures Valid() && now.commands == old(now).commands
      ensures if done then now.party == Party([], Prompt) else Terminal(Moves(world), now)
      ensures contacts == old(contacts) ==>
        sock.outgoing == old(sock.outgoing) + [[0, 0, 0, 3], EncodeInt(rfcNum)] && now.dir == old(now).dir
      ensures contacts != old(contacts) ==>
        && contacts == old(contacts) + 1 && |old(sock.incoming)| >= 2 && AfterLookup(rfcNum, old(sock.incoming)[1]).Connecting?
        && match Download(rfcNum, world.network(AfterLookup(rfcNum, old(sock.incoming)[1]).peer, old(contacts)))
           case Stored(content) =>
             && sock.outgoing == old(sock.outgoing) + [[0, 0, 0, 3], EncodeInt(rfcNum), [0, 0, 0, 1], EncodeInt(rfcNum)]
             && now.dir == old(now).dir[rfcNum := RfcManager.WrittenAs(content)]
           case Missing => sock.outgoing == old(sock.outgoing) + [[0, 0, 0, 3], EncodeInt(rfcNum)] && now.dir == old(now).dir
           case Hanging => false
    {
      Numbers();
      var peer;
      done, peer := Lookup(rfcNum);
      if peer.None? { return done; }
      var fetched := FetchFrom(rfcNum, peer.value);
      if fetched.None? { return false; }
      if !fetched.value { return true; }
      done := Notify(rfcNum);
    }

    /** The dialogue of a LOOKUP, up to the choice of a peer. */
    method Lookup(rfcNum: int32) returns (done: bool, peer: Option<Peer>)
      requires Valid() && now.party == Party([EncodeInt(LOOKUP), EncodeInt(rfcNum)], WaitLookupSize(rfcNum))
      modifies this`now, sock
      ensures Valid() && now.commands == old(now).commands
      ensures match peer
        case Some(p) => now.party == Party([], Connecting(rfcNum, p))
        case None => if done then now.party == Party([], Prompt) else Terminal(Moves(world), now)
      ensures sock.outgoing == old(sock.outgoing) + [EncodeInt(LOOKUP), EncodeInt(rfcNum)]
      ensures now.dir == old(now).dir && now.contacts == old(now).contacts
      ensures peer.Some? ==> |old(sock.incoming)| >= 2 && AfterLookup(rfcNum, old(sock.incoming)[1]) == Connecting(rfcNum, peer.value)
    {
      Send(EncodeInt(LOOKUP));
      Send(EncodeInt(rfcNum));
      var body := RecvSized();
      if body.None? { return false, None; }
      if ResponseLists.Parse(LookupResponse.PEER_PARSER, body.value).Stuck? { return false, None; }
      var code, hosts := LookupDecoded(body.value);
      if code == 404 { return true, None; }
      if hosts == [] { return false, None; }
      return true, Some(hosts[0]);
    }

    /** The download itself, on a connection of its own. */
    method FetchFrom(rfcNum: int32, peer: Peer) returns (stored: Option<bool>)
      requires Valid() && now.party == Party([], Connecting(rfcNum, peer)) && rfcNum > 0
      modifies this, manager
      ensures Valid() && now.commands == old(now).commands
      ensures match stored
        case None => Terminal(Moves(world), now)
        case Some(ok) => now.party == if ok then ClientNotifies(rfcNum) else Party([], Prompt)
      ensures match stored
        case None => contacts == old(contacts) && now.dir == old(now).dir
        case Some(ok) =>
          && contacts == old(contacts) + 1
          && match Download(rfcNum, world.network(peer, old(contacts)))
             case Stored(content) => ok && now.dir == old(now).dir[rfcNum := RfcManager.WrittenAs(content)]
             case Missing => !ok && now.dir == old(now).dir
             case Hanging => false
    {
      var peerSock := new Connection(world.network(peer, contacts));
      stored := GetFromPeer(world.me, manager, rfcNum, peerSock);
      if stored.None? { return; }
      contacts := contacts + 1;
      ghost var c := now.(
        party := if stored.value then ClientNotifies(rfcNum) else Party([], Prompt),
        dir := RfcManager.StoreOf(manager.files), contacts := contacts);
      assert Downloads(world, now, c);
      ReachesNext(Moves(world), start, now, c);
      now := c;
    }

    /** The index hears of the new copy. */
    method Notify(rfcNum: int32) returns (done: bool)
      requires Valid() && now.party == ClientNotifies(rfcNum)
      modifies this`now, sock
      ensures Valid() && now.commands == old(now).commands
      ensures if done then now.party == Party([], Prompt) else Terminal(Moves(world), now)
      ensures sock.outgoing == old(sock.outgoing) + [EncodeInt(ADD), EncodeInt(rfcNum)] && now.dir == old(now).dir
    {
      Send(EncodeInt(ADD));
      Send(EncodeInt(rfcNum));
      var code := Recv(INT_SIZE, []);
      return code.Some?;
    }

    /** `list_rfcs_remote`, but for the printing. */
    method ListRfcsRemote() returns (done: bool)
      requires Valid() && now.party == Party([], Prompt) && now.commands != [] && now.commands[0] == ListCommand
      modifies this`now, sock
      ensures Valid() && now.commands == old(now).commands[1..]
      ensures if done then now.party == Party([], Prompt) else Terminal(Moves(world), now)
      ensures sock.outgoing == old(sock.outgoing) + [[0, 0, 0, 2]] && now.dir == old(now).dir
    {
      Numbers();
      Decide(ClientObeys(now.commands[0], now.dir.Keys), now.commands[1..]);
      Send(EncodeInt(LIST));
      var body := RecvSized();
      if body.None? { return false; }
      if ResponseLists.Parse(ListResponse.HOLDER_PARSER, body.value).Stuck? { return false; }
      var buf := Buffer(body.value);
      var res := new ListResponse.ListRfcResponse(0, []);
      res.FromBytes(buf);
      return true;
    }

    /** From the version exchange to the first prompt. */
    method Join() returns (done: bool)
      requires Valid() && now == start && now.party == ClientStart()
      modifies this`now, sock
      ensures Valid() && now.commands == old(now).commands
      ensures if done then now.party == Party([], Prompt) else Terminal(Moves(world), now)
      ensures old(sock.incoming) != [] && |old(sock.incoming)[0]| == 4 && old(sock.incoming)[0] != [0, 0, 0, 1] ==>
                !done && sock.outgoing == old(sock.outgoing) + [[0, 0, 0, 1]]
      ensures done ==> old(sock.outgoing) + [[0, 0, 0, 1]] + Introduction(world.me) <= sock.outgoing
    {
      Numbers();
      Send(EncodeInt(PROTOCOL_VERSION));
      RfcManager.AscendingIsOrder();
      EnumerationExists(RfcManager.ASCENDING, now.dir.Keys);
      ghost var stored :| IsEnumeration(RfcManager.ASCENDING, stored, now.dir.Keys);
      var serverVersion := Recv(INT_SIZE, stored);
      if serverVersion.None? { return false; }
      ReadAsIff(serverVersion.value, PROTOCOL_VERSION);
      if DecodeInt(serverVersion.value) != PROTOCOL_VERSION { return false; }
      Send(EncodeInt(ToInt32(|world.me.host|)));
      Send(world.me.host);
      Send(EncodeInt(world.me.port));
      assert sock.outgoing == old(sock.outgoing) + [[0, 0, 0, 1]] + Introduction(world.me);
      ghost var k;
      done, k := AddAvailableRfcs(stored);
    }

    /** The program does what the specification does until that can do no more. */
    method Run(commands: seq<Command>) returns (quit: bool)
      requires Valid() && now == start && now.party == ClientStart() && now.commands == commands
      modifies this, sock, manager
      ensures Valid() && Terminal(Moves(world), now) && (quit ==> now.party.at == Quit)
      ensures quit ==> sock.outgoing != [] && sock.outgoing[|sock.outgoing| - 1] == [0, 0, 0, 4]
    {
      Numbers();
      var joined := Join();
      if !joined { return false; }
      for i := 0 to |commands|
        invariant Valid() && now.party == Party([], Prompt) && now.commands == commands[i..]
      {
        assert commands[i..][0] == commands[i] && commands[i..][1..] == commands[i + 1..];
        var done := true;
        match commands[i] {
          case GetCommand(n) => done := GetRfc(n);
          case ListCommand => done := ListRfcsRemote();
          case QuitCommand =>
            Decide(ClientObeys(QuitCommand, now.dir.Keys), now.commands[1..]);
            Send(EncodeInt(DISCONNECT));
            return true;
        }
        if !done { return false; }
      }
      return false;
    }
  }
}
