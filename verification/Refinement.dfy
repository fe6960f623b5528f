/**
 The programs of modules Server, PeerServer and PeerProgram make, as parties of the whole system, exactly
 the moves that are events there. Frames already sent are not part of the system's state, so views add them.
 */
module Refinement {
  import opened Bytes
  import opened Sorting
  import opened IndexSpec
  import opened Protocol
  import opened Session
  import opened Download
  import opened System
  import RfcManager
  import Server
  import PeerServer
  import PeerProgram

  // ---- Handlers of the index server ----

  function HandlerView(s: State, i: nat, sent: seq<Frame>, added: set<int32>): Server.Config
    requires i < |s.nodes|
  {
    Server.Config(s.nodes[i].session.handler, s.index, s.nodes[i].session.up, sent, added)
  }

  predicate OfHandler(e: Event, i: nat) {
    match e
    case HandlerSend(j) => j == i
    case HandlerReceive(j) => j == i
    case HandlerAct(j) => j == i
    case _ => false
  }

  /** An event of the handler of peer `i` that leads from `s` to the view `d`. */
  ghost predicate HandlerEvent(s: State, i: nat, c: Server.Config, d: Server.Config, e: Event, s': State)
    requires i < |s.nodes|
  {
    && OfHandler(e, i) && Step(s, e, s') && |s'.nodes| == |s.nodes|
    && s.nodes[i].session.down <= s'.nodes[i].session.down
    && d == HandlerView(s', i, c.outgoing + s'.nodes[i].session.down[|s.nodes[i].session.down|..],
                        if e.HandlerAct? then Server.AddedBy(c) else c.added)
  }

  lemma HandlerMovesAreEvents(s: State, i: nat, c: Server.Config, d: Server.Config)
    requires i < |s.nodes| && c == HandlerView(s, i, c.outgoing, c.added)
    ensures Server.OwnMove(c, d) <==> exists e, s' :: HandlerEvent(s, i, c, d, e, s')
  {
    if Server.OwnMove(c, d) {
      MoveIsHandlerEvent(s, i, c, d);
    }
    if e, s' :| HandlerEvent(s, i, c, d, e, s') {
      HandlerEventIsMove(s, i, c, d, e, s');
    }
  }

  lemma MoveIsHandlerEvent(s: State, i: nat, c: Server.Config, d: Server.Config)
    requires i < |s.nodes| && c == HandlerView(s, i, c.outgoing, c.added) && Server.OwnMove(c, d)
    ensures exists e, s' :: HandlerEvent(s, i, c, d, e, s')
  {
    var session := s.nodes[i].session;
    assert c.outgoing + [] == c.outgoing;
    if Server.Acts(c, d) {
      var s' := WithSession(s, i, session.(handler := d.party)).(index := d.index);
      assert s'.nodes[i].session.down[|session.down|..] == [];
      assert HandlerEvent(s, i, c, d, HandlerAct(i), s');
    } else if session.handler.todo != [] {
      var s' := WithSession(s, i, AfterHandlerSends(session));
      assert s'.nodes[i].session.down[|session.down|..] == [session.handler.todo[0]];
      assert HandlerEvent(s, i, c, d, HandlerSend(i), s');
    } else {
      var s' := WithSession(s, i, AfterHandlerReceives(session));
      assert s'.nodes[i].session.down[|session.down|..] == [];
      assert HandlerEvent(s, i, c, d, HandlerReceive(i), s');
    }
  }

  lemma HandlerEventIsMove(s: State, i: nat, c: Server.Config, d: Server.Config, e: Event, s': State)
    requires i < |s.nodes| && c == HandlerView(s, i, c.outgoing, c.added) && HandlerEvent(s, i, c, d, e, s')
    ensures Server.OwnMove(c, d)
  {
    var session := s.nodes[i].session;
    assert c.outgoing + [] == c.outgoing;
    if e.HandlerSend? {
      assert s'.nodes[i].session.down[|session.down|..] == [session.handler.todo[0]];
    } else {
      assert s'.nodes[i].session.down[|session.down|..] == [];
      if e.HandlerAct? {
        assert Server.Acts(c, d);
      }
    }
  }

  // ---- Serving ends of downloads ----

  function ServeView(s: State, k: nat, sent: seq<Frame>): PeerServer.Config
    requires k < |s.links| && s.links[k].to < |s.nodes|
  {
    PeerServer.Config(s.links[k].serve, s.nodes[s.links[k].to].dir, s.links[k].up, sent)
  }

  predicate OfServer(e: Event, k: nat) {
    match e
    case ServeSend(x) => x == k
    case ServeReceive(x) => x == k
    case ServeRead(x) => x == k
    case _ => false
  }

  ghost predicate ServeEvent(s: State, k: nat, sent: seq<Frame>, d: PeerServer.Config, e: Event, s': State)
    requires k < |s.links|
  {
    && OfServer(e, k) && Step(s, e, s') && |s'.links| == |s.links| && s'.links[k].to < |s'.nodes|
    && s.links[k].down <= s'.links[k].down
    && d == ServeView(s', k, sent + s'.links[k].down[|s.links[k].down|..])
  }

  lemma ServeMovesAreEvents(s: State, k: nat, sent: seq<Frame>, d: PeerServer.Config)
    requires k < |s.links| && s.links[k].from < |s.nodes| && s.links[k].to < |s.nodes|
    ensures PeerServer.OwnMove(ServeView(s, k, sent), d) <==> exists e, s' :: ServeEvent(s, k, sent, d, e, s')
  {
    if PeerServer.OwnMove(ServeView(s, k, sent), d) {
      MoveIsServeEvent(s, k, sent, d);
    }
    if e, s' :| ServeEvent(s, k, sent, d, e, s') {
      ServeEventIsMove(s, k, sent, d, e, s');
    }
  }

  lemma MoveIsServeEvent(s: State, k: nat, sent: seq<Frame>, d: PeerServer.Config)
    requires k < |s.links| && s.links[k].from < |s.nodes| && s.links[k].to < |s.nodes| && PeerServer.OwnMove(ServeView(s, k, sent), d)
    ensures exists e, s' :: ServeEvent(s, k, sent, d, e, s')
  {
    var l := s.links[k];
    assert sent + [] == sent;
    if PeerServer.Reads(ServeView(s, k, sent), d) {
      var s' := WithLink(s, k, l.(serve := d.party));
      assert s'.links[k].down[|l.down|..] == [];
      assert ServeEvent(s, k, sent, d, ServeRead(k), s');
    } else if l.serve.todo != [] {
      var s' := WithLink(s, k, l.(serve := l.serve.(todo := l.serve.todo[1..]), down := l.down + [l.serve.todo[0]]));
      assert s'.links[k].down[|l.down|..] == [l.serve.todo[0]];
      assert ServeEvent(s, k, sent, d, ServeSend(k), s');
    } else {
      var s' := WithLink(s, k, AfterServeReceives(l));
      assert s'.links[k].down[|l.down|..] == [];
      assert ServeEvent(s, k, sent, d, ServeReceive(k), s');
    }
  }

  lemma ServeEventIsMove(s: State, k: nat, sent: seq<Frame>, d: PeerServer.Config, e: Event, s': State)
    requires k < |s.links| && s.links[k].from < |s.nodes| && s.links[k].to < |s.nodes| && ServeEvent(s, k, sent, d, e, s')
    ensures PeerServer.OwnMove(ServeView(s, k, sent), d)
  {
    var l := s.links[k];
    assert sent + [] == sent;
    if e.ServeSend? {
      assert s'.links[k].down[|l.down|..] == [l.serve.todo[0]];
    } else {
      assert s'.links[k].down[|l.down|..] == [];
    }
  }

  // ---- Clients ----

  function ClientView(s: State, i: nat, commands: seq<Command>, contacts: nat, sent: seq<Frame>): PeerProgram.Config
    requires i < |s.nodes|
  {
    PeerProgram.Config(s.nodes[i].session.client, s.nodes[i].dir, commands, contacts, s.nodes[i].session.down, sent)
  }

  /** An event of the client of peer `i`; the user's next command is the one obeyed. */
  predicate OfClient(e: Event, i: nat, commands: seq<Command>) {
    match e
    case ClientSend(j) => j == i
    case ClientReceive(j) => j == i
    case ClientContinue(j) => j == i
    case Obey(j, command) => j == i && commands != [] && command == commands[0]
    case _ => false
  }

  ghost predicate ClientEvent(s: State, i: nat, c: PeerProgram.Config, d: PeerProgram.Config, e: Event, s': State)
    requires i < |s.nodes|
  {
    && OfClient(e, i, c.commands) && Step(s, e, s') && |s'.nodes| == |s.nodes|
    && s.nodes[i].session.up <= s'.nodes[i].session.up
    && d == ClientView(s', i, if e.Obey? then c.commands[1..] else c.commands, c.contacts,
                       c.outgoing + s'.nodes[i].session.up[|s.nodes[i].session.up|..])
  }

  /** A client's moves are events, but for a download, which is many events of the client and its link. */
  lemma ClientMovesAreEvents(network: (Peer, nat) -> seq<Frame>, s: State, i: nat, c: PeerProgram.Config, d: PeerProgram.Config)
    requires i < |s.nodes| && c == ClientView(s, i, c.commands, c.contacts, c.outgoing)
    ensures var w := PeerProgram.World(s.nodes[i].me, network);
      PeerProgram.Move(w, c, d) && !PeerProgram.Downloads(w, c, d) <==> exists e, s' :: ClientEvent(s, i, c, d, e, s')
  {
    var w := PeerProgram.World(s.nodes[i].me, network);
    if PeerProgram.Move(w, c, d) && !PeerProgram.Downloads(w, c, d) {
      MoveIsClientEvent(w, s, i, c, d);
    }
    if e, s' :| ClientEvent(s, i, c, d, e, s') {
      ClientEventIsMove(w, s, i, c, d, e, s');
    }
  }

  lemma SameListings(stored: seq<int32>, dir: map<int32, seq<byte>>)
    ensures ListsKeys(stored, dir) <==> IsEnumeration(RfcManager.ASCENDING, stored, dir.Keys)
  {
    if IsEnumeration(RfcManager.ASCENDING, stored, dir.Keys) {
      forall a, b | 0 <= a < b < |stored| ensures stored[a] < stored[b] {
        assert RfcManager.ASCENDING(stored[a], stored[b]);
      }
    }
  }

  lemma MoveIsClientEvent(w: PeerProgram.World, s: State, i: nat, c: PeerProgram.Config, d: PeerProgram.Config)
    requires i < |s.nodes| && c == ClientView(s, i, c.commands, c.contacts, c.outgoing) && w.me == s.nodes[i].me
    requires PeerProgram.Move(w, c, d) && !PeerProgram.Downloads(w, c, d)
    ensures exists e, s' :: ClientEvent(s, i, c, d, e, s')
  {
    var session := s.nodes[i].session;
    assert c.outgoing + [] == c.outgoing;
    if session.client.todo != [] {
      var s' := WithSession(s, i, AfterClientSends(session));
      assert s'.nodes[i].session.up[|session.up|..] == [session.client.todo[0]];
      assert ClientEvent(s, i, c, d, ClientSend(i), s');
    } else {
      assert session.up[|session.up|..] == [];
      if PeerProgram.Receives(w, c, d) {
        ReceiveIsClientEvent(w, s, i, c, d);
      } else if session.client.at.Announce? {
        assert ClientEvent(s, i, c, d, ClientContinue(i), WithClient(s, i, d.party));
      } else {
        assert ClientEvent(s, i, c, d, Obey(i, c.commands[0]), WithClient(s, i, d.party));
      }
    }
  }

  lemma ReceiveIsClientEvent(w: PeerProgram.World, s: State, i: nat, c: PeerProgram.Config, d: PeerProgram.Config)
    requires i < |s.nodes| && c == ClientView(s, i, c.commands, c.contacts, c.outgoing) && w.me == s.nodes[i].me
    requires PeerProgram.Receives(w, c, d)
    ensures exists e, s' :: ClientEvent(s, i, c, d, e, s')
  {
    var session := s.nodes[i].session;
    var stored :| (session.client.at == WaitVersion ==> IsEnumeration(RfcManager.ASCENDING, stored, c.dir.Keys))
                  && d == PeerProgram.Received(w, stored, c);
    RfcManager.AscendingIsOrder();
    EnumerationExists(RfcManager.ASCENDING, c.dir.Keys);
    var listed :| IsEnumeration(RfcManager.ASCENDING, listed, c.dir.Keys);
    if session.client.at == WaitVersion { listed := stored; }
    SameListings(listed, c.dir);
    assert session.up[|session.up|..] == [] && c.outgoing + [] == c.outgoing;
    var s' := WithSession(s, i, AfterClientReceives(w.me, listed, session));
    assert ClientEvent(s, i, c, d, ClientReceive(i), s');
  }

  lemma ClientEventIsMove(w: PeerProgram.World, s: State, i: nat, c: PeerProgram.Config, d: PeerProgram.Config, e: Event, s': State)
    requires i < |s.nodes| && c == ClientView(s, i, c.commands, c.contacts, c.outgoing) && w.me == s.nodes[i].me
    requires ClientEvent(s, i, c, d, e, s')
    ensures PeerProgram.Move(w, c, d) && !PeerProgram.Downloads(w, c, d)
  {
    var session := s.nodes[i].session;
    assert c.outgoing + [] == c.outgoing;
    if e.ClientSend? {
      assert s'.nodes[i].session.up[|session.up|..] == [session.client.todo[0]];
    } else {
      assert s'.nodes[i].session.up[|session.up|..] == [];
      if e.ClientReceive? {
        var stored :| ListsKeys(stored, c.dir) && s' == WithSession(s, i, AfterClientReceives(w.me, stored, session));
        SameListings(stored, c.dir);
        assert d == PeerProgram.Received(w, stored, c);
      }
    }
  }
}
