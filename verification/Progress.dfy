/** No state of any run leaves the system stuck in the middle of a session or a download. */
module Progress {
  import opened Bytes
  import opened Sorting
  import opened IndexSpec
  import opened Records
  import opened Protocol
  import opened Session
  import opened Download
  import opened System
  import opened SystemInvariant
  import RfcManager
  import GetResponse
  import ResponseLists
  import LookupResponse
  import ListResponse

  // ---- Answers the index can give ----

  ghost predicate AllClean(rfcs: set<RfcHolder>) {
    forall h :: h in rfcs ==> CleanPeer(h.peer)
  }

  lemma IndexIsClean(o: State, s: State)
    requires Inv(o, s)
    ensures AllClean(s.index.rfcs)
  {
    forall h | h in s.index.rfcs ensures CleanPeer(h.peer) {
      EntriesHaveFiles(o, s, h);
      var i :| 0 <= i < |s.nodes| && s.nodes[i].me == h.peer && h.rfc in s.nodes[i].dir;
      PeerIsClean(o, s, i);
    }
  }

  /** The answer that the handler owes is at least two gigabytes long, so that its size is no `int`. */
  ghost predicate TooLong(index: Index, at: HandlerAt) {
    match at
    case Listing(_) =>
      exists holders :: Atomic(AllRfcs, index, index, Holders(holders))
                        && ResponseLists.WireSize(ListResponse.HOLDER_BYTES, holders) >= TWO_TO_THE_31
    case LookingUp(_, n) =>
      exists peers :: Atomic(FindRfcs(n), index, index, Peers(peers))
                      && ResponseLists.WireSize(LookupResponse.PEER_BYTES, peers) >= TWO_TO_THE_31
    case _ => false
  }

  lemma HoldersExist(index: Index) returns (holders: seq<RfcHolder>)
    ensures Atomic(AllRfcs, index, index, Holders(holders))
  {
    OrdersAreTotal();
    EnumerationExists(BY_HOLDER, index.rfcs);
    holders :| IsEnumeration(BY_HOLDER, holders, index.rfcs);
  }

  lemma PeersExist(index: Index, n: int32) returns (peers: seq<Peer>)
    requires AllClean(index.rfcs)
    ensures Atomic(FindRfcs(n), index, index, Peers(peers)) && forall p :: p in peers ==> CleanPeer(p)
  {
    OrdersAreTotal();
    EnumerationExists(BY_PEER, PeersOf(index.rfcs, n));
    peers :| IsEnumeration(BY_PEER, peers, PeersOf(index.rfcs, n));
    forall p | p in peers ensures CleanPeer(p) {
      assert p in PeersOf(index.rfcs, n);
    }
  }

  /** LIST is answered unless the list is too long. */
  lemma ListBodyExistsIff(index: Index, p: Peer)
    requires AllClean(index.rfcs)
    ensures (exists holders, body :: Atomic(AllRfcs, index, index, Holders(holders)) && IsListBody(holders, body))
            <==> !TooLong(index, Listing(p))
  {
    var holders := HoldersExist(index);
    forall other | Atomic(AllRfcs, index, index, Holders(other)) ensures other == holders {
      AtomicIsFunction(AllRfcs, index, index, Holders(holders), index, Holders(other));
    }
    if ResponseLists.WireSize(ListResponse.HOLDER_BYTES, holders) < TWO_TO_THE_31 {
      var body := if holders == [] then EncodeInt(404) + EncodeInt(0) else ResponseLists.Encode(ListResponse.HOLDER_BYTES, holders);
      assert IsListBody(holders, body);
    }
  }

  /** So is LOOKUP. */
  lemma LookupBodyExistsIff(index: Index, p: Peer, n: int32)
    requires AllClean(index.rfcs)
    ensures (exists peers, body :: Atomic(FindRfcs(n), index, index, Peers(peers)) && IsLookupBody(peers, body))
            <==> !TooLong(index, LookingUp(p, n))
  {
    var peers := PeersExist(index, n);
    forall other | Atomic(FindRfcs(n), index, index, Peers(other)) ensures other == peers {
      AtomicIsFunction(FindRfcs(n), index, index, Peers(peers), index, Peers(other));
    }
    if ResponseLists.WireSize(LookupResponse.PEER_BYTES, peers) < TWO_TO_THE_31 {
      var body := if peers == [] then EncodeInt(404) + EncodeInt(0) else ResponseLists.Encode(LookupResponse.PEER_BYTES, peers);
      assert IsLookupBody(peers, body);
    }
  }

  /** The file asked for always yields a response to send. */
  lemma GetBodyExists(content: seq<byte>)
    requires IsText(content)
    ensures exists body :: IsGetBody(Some(content), body)
  {
    var body := GetResponse.Encode(content);
    assert IsGetBody(Some(content), body);
  }

  // ---- Some event can always happen ----

  ghost predicate Enabled(s: State, e: Event) {
    exists s' :: Step(s, e, s')
  }

  /** An event of the session of peer `i` that waits for no command. */
  predicate OfSession(e: Event, i: nat) {
    match e
    case ClientSend(j) => j == i
    case ClientReceive(j) => j == i
    case ClientContinue(j) => j == i
    case HandlerSend(j) => j == i
    case HandlerReceive(j) => j == i
    case HandlerAct(j) => j == i
    case _ => false
  }

  ghost predicate SessionMoves(s: State, i: nat) {
    exists e :: OfSession(e, i) && Enabled(s, e)
  }

  lemma DirectoryCanBeListed(dir: map<int32, seq<byte>>)
    ensures exists stored :: ListsKeys(stored, dir)
  {
    EnumerationExists(RfcManager.ASCENDING, dir.Keys);
    var stored :| IsEnumeration(RfcManager.ASCENDING, stored, dir.Keys);
    assert forall a, b :: 0 <= a < b < |stored| ==> RfcManager.ASCENDING(stored[a], stored[b]);
    assert ListsKeys(stored, dir);
  }

  lemma ClientCanReceive(s: State, i: nat)
    requires i < |s.nodes|
    requires var c := s.nodes[i].session.client; CanReceive(c, ClientExpects(c.at), s.nodes[i].session.down)
    ensures Enabled(s, ClientReceive(i))
  {
    var node := s.nodes[i];
    DirectoryCanBeListed(node.dir);
    var stored :| ListsKeys(stored, node.dir);
    assert Step(s, ClientReceive(i), WithSession(s, i, AfterClientReceives(node.me, stored, node.session)));
  }

  /** The handler's call of the index. */
  ghost predicate CanAct(at: HandlerAt, index: Index) {
    exists index', h' :: HandlerActs(at, index, index', h')
  }

  lemma UpdateCanAct(at: HandlerAt, index: Index)
    requires at.Joining? || at.Adding? || at.Removing?
    ensures CanAct(at, index)
  {
    if at.Joining? {
      var index' := index.(clients := index.clients + {at.peer});
      var added := at.peer !in index.clients;
      assert Atomic(AddClient(at.peer), index, index', Flag(added));
      assert HandlerActs(at, index, index', Party([], AwaitMessage(at.peer)));
    } else if at.Adding? {
      var ok := at.peer in index.clients && RfcHolder(at.n, at.peer) !in index.rfcs;
      var index' := if ok then index.(rfcs := index.rfcs + {RfcHolder(at.n, at.peer)}) else index;
      assert Atomic(AddRfc(at.peer, at.n), index, index', Flag(ok));
      assert HandlerActs(at, index, index', Party([EncodeInt(if ok then 200 else 400)], AwaitMessage(at.peer)));
    } else {
      var index' := Index(index.clients - {at.peer}, set h | h in index.rfcs && h.peer != at.peer);
      assert Atomic(RemoveClient(at.peer), index, index', Flag(false));
      assert HandlerActs(at, index, index', Party([], Closed));
    }
  }

  lemma QueryCanAct(at: HandlerAt, index: Index)
    requires (at.Listing? || at.LookingUp?) && AllClean(index.rfcs) && !TooLong(index, at)
    ensures CanAct(at, index)
  {
    if at.Listing? {
      ListBodyExistsIff(index, at.peer);
      var holders, body :| Atomic(AllRfcs, index, index, Holders(holders)) && IsListBody(holders, body);
      assert HandlerActs(at, index, index, Party(Sized(body), AwaitMessage(at.peer)));
    } else {
      LookupBodyExistsIff(index, at.peer, at.n);
      var peers, body :| Atomic(FindRfcs(at.n), index, index, Peers(peers)) && IsLookupBody(peers, body);
      assert HandlerActs(at, index, index, Party(Sized(body), AwaitMessage(at.peer)));
    }
  }

  lemma HandlerStepEnabled(s: State, i: nat)
    requires i < |s.nodes| && s.nodes[i].session.handler.todo == [] && CanAct(s.nodes[i].session.handler.at, s.index)
    ensures Enabled(s, HandlerAct(i))
  {
    var session := s.nodes[i].session;
    var index', h' :| HandlerActs(session.handler.at, s.index, index', h');
    assert Step(s, HandlerAct(i), WithSession(s, i, session.(handler := h')).(index := index'));
  }

  /** Every word has been heard, and the client is between commands, in a download, or gone. */
  predicate Resting(me: Peer, session: Session) {
    && session.up == [] && session.down == [] && session.client.todo == [] && session.handler.todo == []
    && AtLeisure(session.client.at)
    && (if session.client.at.Quit? then session.handler.at.Closed? else session.handler.at == AwaitMessage(me))
  }

  lemma SocketCallEnabled(s: State, i: nat)
    requires i < |s.nodes|
    ensures var session := s.nodes[i].session;
      && (session.client.todo != [] ==> Enabled(s, ClientSend(i)))
      && (session.handler.todo != [] ==> Enabled(s, HandlerSend(i)))
      && (session.client.todo == [] && session.client.at.Announce? ==> Enabled(s, ClientContinue(i)))
      && (CanReceive(session.handler, HandlerExpects(session.handler.at), session.up) ==> Enabled(s, HandlerReceive(i)))
  {
    var session := s.nodes[i].session;
    if session.client.todo != [] {
      assert Step(s, ClientSend(i), WithSession(s, i, AfterClientSends(session)));
    } else if session.client.at.Announce? {
      assert Step(s, ClientContinue(i), WithClient(s, i, ClientContinues(session.client.at)));
    }
    if session.handler.todo != [] {
      assert Step(s, HandlerSend(i), WithSession(s, i, AfterHandlerSends(session)));
    }
    if CanReceive(session.handler, HandlerExpects(session.handler.at), session.up) {
      assert Step(s, HandlerReceive(i), WithSession(s, i, AfterHandlerReceives(session)));
    }
  }

  /** The handler of peer `i` owes an answer that is too long to send. */
  ghost predicate Overloaded(s: State, i: nat)
    requires i < |s.nodes|
  {
    s.nodes[i].session.handler.todo == [] && TooLong(s.index, s.nodes[i].session.handler.at)
  }

  /** Each session can go on by itself, or rests, or its index has grown too long for an answer. */
  lemma SessionGoesOn(o: State, s: State, i: nat)
    requires Inv(o, s) && i < |s.nodes|
    ensures SessionMoves(s, i) || Resting(s.nodes[i].me, s.nodes[i].session) || Overloaded(s, i)
  {
    NodeIsOk(o, s, i);
    PeerIsClean(o, s, i);
    IndexIsClean(o, s);
    NodeGoesOn(s, i);
  }

  lemma NodeGoesOn(s: State, i: nat)
    requires i < |s.nodes| && CleanPeer(s.nodes[i].me) && SessionInv(s.nodes[i].me, s.nodes[i].session) && AllClean(s.index.rfcs)
    ensures SessionMoves(s, i) || Resting(s.nodes[i].me, s.nodes[i].session) || Overloaded(s, i)
  {
    var me, session := s.nodes[i].me, s.nodes[i].session;
    SessionProgress(me, session);
    SocketCallEnabled(s, i);
    if session.client.todo != [] {
      assert OfSession(ClientSend(i), i);
    } else if session.handler.todo != [] {
      assert OfSession(HandlerSend(i), i);
    } else if CanReceive(session.client, ClientExpects(session.client.at), session.down) {
      ClientCanReceive(s, i);
      assert OfSession(ClientReceive(i), i);
    } else if CanReceive(session.handler, HandlerExpects(session.handler.at), session.up) {
      assert OfSession(HandlerReceive(i), i);
    } else if session.client.at.Announce? {
      assert OfSession(ClientContinue(i), i);
    } else if HandlerDecides(session.handler.at) && !TooLong(s.index, session.handler.at) {
      if session.handler.at.Listing? || session.handler.at.LookingUp? {
        QueryCanAct(session.handler.at, s.index);
      } else {
        UpdateCanAct(session.handler.at, s.index);
      }
      HandlerStepEnabled(s, i);
      assert OfSession(HandlerAct(i), i);
    }
  }

  // ---- Downloads ----

  predicate OfLink(e: Event, k: nat) {
    match e
    case FetchSend(x) => x == k
    case FetchReceive(x) => x == k
    case FetchEnd(x) => x == k
    case ServeSend(x) => x == k
    case ServeReceive(x) => x == k
    case ServeRead(x) => x == k
    case _ => false
  }

  ghost predicate LinkMoves(s: State, k: nat) {
    exists e :: OfLink(e, k) && Enabled(s, e)
  }

  predicate Finished(l: Link) {
    l.fetch == Party([], Ended) && l.serve == Party([], ServeClosed) && l.up == [] && l.down == []
  }

  lemma LinkCallEnabled(s: State, k: nat)
    requires k < |s.links| && s.links[k].from < |s.nodes| && s.links[k].to < |s.nodes|
    ensures var l := s.links[k];
      && (l.fetch.todo != [] ==> Enabled(s, FetchSend(k)))
      && (l.serve.todo != [] ==> Enabled(s, ServeSend(k)))
      && (l.fetch == Party([], Done) ==> Enabled(s, FetchEnd(k)))
      && (CanReceive(l.serve, ServeExpects(l.serve.at), l.up) ==> Enabled(s, ServeReceive(k)))
  {
    var l := s.links[k];
    if l.fetch.todo != [] {
      assert Step(s, FetchSend(k), WithLink(s, k, l.(fetch := l.fetch.(todo := l.fetch.todo[1..]), up := l.up + [l.fetch.todo[0]])));
    } else if l.fetch.at == Done {
      assert Step(s, FetchEnd(k), AfterFetchEnd(s, k));
    }
    if l.serve.todo != [] {
      assert Step(s, ServeSend(k), WithLink(s, k, l.(serve := l.serve.(todo := l.serve.todo[1..]), down := l.down + [l.serve.todo[0]])));
    }
    if CanReceive(l.serve, ServeExpects(l.serve.at), l.up) {
      assert Step(s, ServeReceive(k), WithLink(s, k, AfterServeReceives(l)));
    }
  }

  lemma FetchCanReceive(s: State, k: nat)
    requires k < |s.links| && s.links[k].from < |s.nodes| && s.links[k].to < |s.nodes|
    requires CanReceive(s.links[k].fetch, FetchExpects(s.links[k].fetch.at), s.links[k].down)
    ensures Enabled(s, FetchReceive(k))
  {
    var l := s.links[k];
    var (party, content) := FetchReceives(l.fetch.at, l.down[0]);
    var after := Stored(WithLink(s, k, AfterFetchReceives(l)), l, content);
    assert Step(s, FetchReceive(k), if party.at == Missed then WithClient(after, l.from, Party([], Prompt)) else after);
  }

  lemma ServeCanRead(o: State, s: State, k: nat)
    requires Inv(o, s) && k < |s.links| && s.links[k].serve.todo == [] && s.links[k].serve.at.Reading?
    ensures Enabled(s, ServeRead(k))
  {
    var l := s.links[k];
    LinkIsOk(o, s, k);
    ServeReadFinds(o, s, k);
    var content := RfcManager.Read(s.nodes[l.to].dir, l.n).value;
    AuthenticIsText(o, l.n, content);
    GetBodyExists(content);
    var body :| IsGetBody(Some(content), body);
    ReadEnabled(s, k, body);
  }

  lemma ReadEnabled(s: State, k: nat, body: Frame)
    requires k < |s.links| && s.links[k].from < |s.nodes| && s.links[k].to < |s.nodes|
    requires s.links[k].serve.todo == [] && s.links[k].serve.at.Reading?
    requires IsGetBody(RfcManager.Read(s.nodes[s.links[k].to].dir, s.links[k].serve.at.n), body)
    ensures Enabled(s, ServeRead(k))
  {
    assert Step(s, ServeRead(k), WithLink(s, k, s.links[k].(serve := Party(Sized(body), ServeMessage))));
  }

  /** Each download can go on by itself, or both its ends have finished. */
  lemma LinkGoesOn(o: State, s: State, k: nat)
    requires Inv(o, s) && k < |s.links|
    ensures LinkMoves(s, k) || Finished(s.links[k])
  {
    var l := s.links[k];
    LinkIsOk(o, s, k);
    PeerIsClean(o, s, l.from);
    LinkNeeds(o, s, k);
    LinkCallEnabled(s, k);
    if CanReceive(l.fetch, FetchExpects(l.fetch.at), l.down) {
      FetchCanReceive(s, k);
      assert OfLink(FetchReceive(k), k);
    } else if l.serve.todo == [] && l.serve.at.Reading? {
      ServeCanRead(o, s, k);
      assert OfLink(ServeRead(k), k);
    } else {
      assert OfLink(FetchSend(k), k) && OfLink(ServeSend(k), k) && OfLink(FetchEnd(k), k) && OfLink(ServeReceive(k), k);
    }
  }

  lemma LinkNeeds(o: State, s: State, k: nat)
    requires k < |s.links| && LinkOk(o, s, k, s.links[k]) && CleanPeer(s.nodes[s.links[k].from].me)
    ensures var l := s.links[k];
      || l.fetch.todo != [] || l.serve.todo != [] || l.fetch == Party([], Done)
      || CanReceive(l.fetch, FetchExpects(l.fetch.at), l.down)
      || CanReceive(l.serve, ServeExpects(l.serve.at), l.up)
      || l.serve.at.Reading? || Finished(l)
  {
    var l := s.links[k];
    LinkProgress(s.nodes[l.from].me, l, Authentic(o, l.n));
    assert l.up + [] == l.up && l.down + [] == l.down;
  }

  // ---- The whole system ----

  /** Nothing is under way: every client waits for its user, waits to connect, or has quit and been removed. */
  ghost predicate AtRest(s: State) {
    && (forall i :: 0 <= i < |s.nodes| ==>
          Resting(s.nodes[i].me, s.nodes[i].session) && !s.nodes[i].session.client.at.Fetching?)
    && forall k :: 0 <= k < |s.links| ==> Finished(s.links[k])
  }

  /**
   In every state of every run some session or download can go on by itself, unless the system is at rest
   or an answer of two gigabytes is owed.
   */
  lemma NeverStuck(states: seq<State>, events: seq<Event>, t: nat)
    requires IsRun(states, events) && t < |states|
    ensures || AtRest(states[t]) || (exists i :: SessionMoves(states[t], i)) || (exists k :: LinkMoves(states[t], k))
            || exists i :: 0 <= i < |states[t].nodes| && Overloaded(states[t], i)
  {
    RunKeepsInv(states, events, t);
    StateGoesOn(states[0], states[t]);
  }

  lemma StateGoesOn(o: State, s: State)
    requires Inv(o, s)
    ensures || AtRest(s) || (exists i :: SessionMoves(s, i)) || (exists k :: LinkMoves(s, k))
            || exists i :: 0 <= i < |s.nodes| && Overloaded(s, i)
  {
    SessionsGoOn(o, s);
    LinksGoOn(o, s);
  }

  lemma SessionsGoOn(o: State, s: State)
    requires Inv(o, s)
    ensures forall i :: 0 <= i < |s.nodes| ==>
      || SessionMoves(s, i) || Overloaded(s, i)
      || (Resting(s.nodes[i].me, s.nodes[i].session) && DownloadIsOpen(s, s.nodes[i].session.client.at))
  {
    forall i | 0 <= i < |s.nodes|
      ensures || SessionMoves(s, i) || Overloaded(s, i)
              || (Resting(s.nodes[i].me, s.nodes[i].session) && DownloadIsOpen(s, s.nodes[i].session.client.at))
    {
      SessionGoesOn(o, s, i);
      ClientHasOpenDownload(o, s, i);
    }
  }

  lemma LinksGoOn(o: State, s: State)
    requires Inv(o, s)
    ensures forall k :: 0 <= k < |s.links| ==> LinkMoves(s, k) || Finished(s.links[k])
  {
    forall k | 0 <= k < |s.links| ensures LinkMoves(s, k) || Finished(s.links[k]) {
      LinkGoesOn(o, s, k);
    }
  }

  /** A client in a download has a link that has not ended. */
  predicate DownloadIsOpen(s: State, at: ClientAt) {
    at.Fetching? ==> at.link < |s.links| && s.links[at.link].fetch.at != Ended
  }

  lemma ClientHasOpenDownload(o: State, s: State, i: nat)
    requires Inv(o, s) && i < |s.nodes|
    ensures DownloadIsOpen(s, s.nodes[i].session.client.at)
  {
    NodeIsOk(o, s, i);
    if s.nodes[i].session.client.at.Fetching? {
      LinkIsOk(o, s, s.nodes[i].session.client.at.link);
    }
  }
}
