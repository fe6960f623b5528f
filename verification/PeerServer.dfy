/** The handler of connections from other peers, as a program, against the serving party of module Protocol. */
module PeerServer {
  import opened Bytes
  import opened Records
  import opened Protocol
  import opened Connections
  import opened Paths
  import RfcManager
  import GetResponse

  datatype Config = Config(party: Party<ServeAt>, dir: map<int32, seq<byte>>, incoming: seq<Frame>, outgoing: seq<Frame>)

  function Sent(c: Config): Config
    requires c.party.todo != []
  {
    c.(party := c.party.(todo := c.party.todo[1..]), outgoing := c.outgoing + [c.party.todo[0]])
  }

  function Received(c: Config): Config
    requires CanReceive(c.party, ServeExpects(c.party.at), c.incoming)
  {
    c.(party := Party([], ServeReceives(c.party.at, c.incoming[0])), incoming := c.incoming[1..])
  }

  ghost predicate Reads(c: Config, d: Config) {
    && c.party.todo == [] && c.party.at.Reading?
    && exists body :: IsGetBody(RfcManager.Read(c.dir, c.party.at.n), body) && d == c.(party := Party(Sized(body), ServeMessage))
  }

  /** One step of the handler: a send, a receive or reading a file. */
  ghost predicate OwnMove(c: Config, d: Config) {
    || (c.party.todo != [] && d == Sent(c))
    || (CanReceive(c.party, ServeExpects(c.party.at), c.incoming) && d == Received(c))
    || Reads(c, d)
  }

  /** Meanwhile the peer's own client may store further files; it replaces none. */
  ghost predicate Others(c: Config, d: Config) {
    d == c.(dir := d.dir) && forall n :: n in c.dir ==> n in d.dir && d.dir[n] == c.dir[n]
  }

  ghost predicate Move(c: Config, d: Config) {
    OwnMove(c, d) || Others(c, d)
  }

  ghost const OWN_MOVES: (Config, Config) -> bool := (c, d) => OwnMove(c, d)
  ghost const MOVES: (Config, Config) -> bool := (c, d) => Move(c, d)

  /** The directory at any point of a session holds what it held before. */
  lemma DirectoryOnlyGrows(c: Config, d: Config)
    requires Reaches(MOVES, c, d)
    ensures forall n :: n in c.dir ==> n in d.dir && d.dir[n] == c.dir[n]
  {
    Invariance(MOVES, (x: Config) => forall n :: n in c.dir ==> n in x.dir && x.dir[n] == c.dir[n], c, d);
  }

  /**
   The thread that serves one connection. Before it reads for the k-th time, the client of the same peer has
   downloaded `downloads(k)`, as far as it did not have them.
   */
  class Handler {
    const manager: RfcManager.RfcManager
    const sock: Connection
    const downloads: nat -> seq<(int32, seq<byte>)>
    var turn: nat
    ghost const start: Config
    ghost var now: Config

    ghost predicate Valid()
      reads this, manager, sock
    {
      && RfcManager.AllCanonical(manager.files) && now.dir == RfcManager.StoreOf(manager.files)
      && now.incoming == sock.incoming && now.outgoing == sock.outgoing
      && Reaches(MOVES, start, now)
    }

    constructor (manager: RfcManager.RfcManager, sock: Connection, downloads: nat -> seq<(int32, seq<byte>)>)
      requires RfcManager.AllCanonical(manager.files)
      ensures Valid() && this.manager == manager && this.sock == sock && this.downloads == downloads && start == now
      ensures now == Config(ServeStart(), RfcManager.StoreOf(manager.files), sock.incoming, sock.outgoing)
    {
      this.manager, this.sock, this.downloads, turn := manager, sock, downloads, 0;
      start := Config(ServeStart(), RfcManager.StoreOf(manager.files), sock.incoming, sock.outgoing);
      now := Config(ServeStart(), RfcManager.StoreOf(manager.files), sock.incoming, sock.outgoing);
      new;
      ReachesItself(MOVES, now);
    }

    /** The client has its turn: as in `get_rfc`, it stores nothing that it has. */
    method Meanwhile()
      requires Valid()
      modifies this`now, this`turn, manager
      ensures Valid() && now == old(now).(dir := now.dir)
    {
      var files := downloads(turn);
      turn := turn + 1;
      for i := 0 to |files|
        invariant Valid() && now == old(now).(dir := now.dir)
      {
        var content := manager.GetContent(files[i].0);
        if files[i].0 > 0 && content.None? {
          var _ := manager.AddRfc(files[i].0, files[i].1);
          ghost var c := now.(dir := RfcManager.StoreOf(manager.files));
          assert Others(now, c);
          ReachesNext(MOVES, start, now, c);
          now := c;
        }
      }
    }

    method Send(data: Frame)
      requires Valid() && now.party.todo != [] && now.party.todo[0] == data
      modifies this`now, sock
      ensures Valid() && now == Sent(old(now))
    {
      sock.Send(data);
      ReachesNext(MOVES, start, now, Sent(now));
      now := Sent(now);
    }

    method Recv(length: int) returns (data: Option<Frame>)
      requires Valid() && now.party.todo == [] && ServeExpects(now.party.at) == Some(length)
      modifies this`now, sock
      ensures Valid()
      ensures data.Some? ==> [data.value] + sock.incoming == old(sock.incoming)
      ensures data.Some? ==> |data.value| == length && now == old(now).(
                party := Party([], ServeReceives(old(now).party.at, data.value)), incoming := sock.incoming)
      ensures data.None? ==> now == old(now) && Terminal(OWN_MOVES, now)
    {
      data := sock.Recv(length);
      if data.Some? {
        ReachesNext(MOVES, start, now, Received(now));
        now := Received(now);
      }
    }

    /** Reads the file and sends size and body; it fails where `to_bytes` has nothing to return or the size is no `int`. */
    method Respond(rfcNum: int16) returns (done: bool)
      requires Valid() && now.party == Party([], Reading(rfcNum))
      modifies this`now, this`turn, sock, manager
      ensures Valid() && sock.incoming == old(sock.incoming)
      ensures if done then now.party == Party([], ServeMessage) else Terminal(OWN_MOVES, now) && now.party == old(now).party
    {
      Meanwhile();
      var content := manager.GetContent(rfcNum);
      var size, buf := GetMessage(content);
      if buf.None? {
        NoBody(now);
        return false;
      }
      ghost var c := now.(party := Party(Sized(buf.value), ServeMessage));
      assert Reads(now, c);
      ReachesNext(MOVES, start, now, c);
      now := c;
      ToInt32Identity(size);
      Send(EncodeInt(size));
      Send(buf.value);
      return true;
    }

    /** Whatever the client stores meanwhile, it does what the specification does until that can do no more. */
    method Run() returns (isFinished: bool)
      requires Valid() && now == start && now.party == ServeStart()
      modifies this`now, this`turn, sock, manager
      ensures Valid() && Terminal(OWN_MOVES, now) && (isFinished <==> now.party.at == ServeClosed)
    {
      var hostLen := Recv(INT_SIZE);
      if hostLen.None? { return false; }
      var host := Recv(DecodeInt(hostLen.value));
      if host.None? { return false; }
      var uploadPort := Recv(INT_SIZE);
      if uploadPort.None? { return false; }
      while true
        invariant Valid() && now.party == Party([], ServeMessage)
        decreases |sock.incoming|
      {
        var data := Recv(INT_SIZE);
        if data.None? { return false; }
        var message := DecodeInt(data.value);
        if message == GET {
          var msg := Recv(SHORT_SIZE);
          if msg.None? { return false; }
          var done := Respond(DecodeShort(msg.value));
          if !done { return false; }
        } else if message == PEER_DISCONNECT {
          return true;
        }
      }
    }
  }

  /** The response to GET; None where `to_bytes` returns no buffer or the size is no `int`. */
  method GetMessage(content: Option<seq<byte>>) returns (size: nat, body: Option<Frame>)
    ensures body.Some? ==> IsGetBody(content, body.value) && size == |body.value|
    ensures body.None? ==> content.Some? && (content.value == [] || 8 + |content.value| >= TWO_TO_THE_31)
  {
    var code, text := 404, [];
    if content.Some? {
      code, text := 200, content.value;
    }
    var res := new GetResponse.GetRfcResponse(code, text);
    if 8 + |text| >= TWO_TO_THE_31 { return 0, None; }
    var buf := res.ToBytes();
    size := res.MessageSize();
    return size, if buf == null then None else Some(buf[..]);
  }

  lemma NoBody(c: Config)
    requires c.party.todo == [] && c.party.at.Reading? && RfcManager.Read(c.dir, c.party.at.n).Some?
    requires var text := RfcManager.Read(c.dir, c.party.at.n).value; text == [] || 8 + |text| >= TWO_TO_THE_31
    ensures Terminal(OWN_MOVES, c)
  {
  }

  /** Any response decodes to the file as read and cut at its first NUL, or to 404 when there is no file. */
  lemma ResponseTellsFile(dir: map<int32, seq<byte>>, n: int32, body: Frame)
    requires IsGetBody(RfcManager.Read(dir, n), body)
    ensures var r := GetResponse.Parse(body);
      r.Parsed? && r.value == if n in dir then GetResponse.Found(CString(RfcManager.ReadAs(dir[n]))) else GetResponse.Failed(404)
  {
    assert body + [] == body;
    if n in dir {
      GetResponse.ParseOfEncoding(RfcManager.ReadAs(dir[n]), []);
    } else {
      GetResponse.OtherCodesIgnoreTheRest(404, [], body, []);
    }
  }
}
