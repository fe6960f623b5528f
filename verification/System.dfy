/**
 The whole system: any number of peers, each with a directory and a session with the index server, and
 any number of downloads between them. One event is one socket call, one call of the index, one file
 access or one decision; events of different parties interleave arbitrarily.
 */
module System {
  import opened Bytes
  import opened Sorting
  import opened IndexSpec
  import opened Records
  import opened Protocol
  import opened Session
  import opened Download
  import RfcManager
  import ResponseLists
  import LookupResponse
  import ListResponse

  datatype Node = Node(me: Peer, dir: map<int32, seq<byte>>, session: Session)

  datatype State = State(index: Index, nodes: seq<Node>, links: seq<Link>)

  datatype Event =
    | ClientSend(i: nat) | ClientReceive(i: nat) | ClientContinue(i: nat) | Obey(i: nat, command: Command)
    | HandlerSend(i: nat) | HandlerReceive(i: nat) | HandlerAct(i: nat)
    | Connect(i: nat, j: nat) | Restart(i: nat)
    | FetchSend(k: nat) | FetchReceive(k: nat) | FetchEnd(k: nat)
    | ServeSend(k: nat) | ServeReceive(k: nat) | ServeRead(k: nat)

  /** `get_rfcs()` of a directory. */
  ghost predicate ListsKeys(stored: seq<int32>, dir: map<int32, seq<byte>>) {
    (forall a, b :: 0 <= a < b < |stored| ==> stored[a] < stored[b]) && forall n: int32 :: n in stored <==> n in dir
  }

  function WithSession(s: State, i: nat, session: Session): State
    requires i < |s.nodes|
  {
    s.(nodes := s.nodes[i := s.nodes[i].(session := session)])
  }

  function WithClient(s: State, i: nat, client: Party<ClientAt>): State
    requires i < |s.nodes|
  {
    WithSession(s, i, s.nodes[i].session.(client := client))
  }

  function WithLink(s: State, k: nat, l: Link): State
    requires k < |s.links|
  {
    s.(links := s.links[k := l])
  }

  // ---- Events ----

  ghost predicate NodeStep(s: State, e: Event, i: nat, s': State)
    requires i < |s.nodes|
  {
    var me, dir, session := s.nodes[i].me, s.nodes[i].dir, s.nodes[i].session;
    match e
    case ClientSend(_) => session.client.todo != [] && s' == WithSession(s, i, AfterClientSends(session))
    case ClientReceive(_) =>
      CanReceive(session.client, ClientExpects(session.client.at), session.down) &&
      exists stored :: ListsKeys(stored, dir) && s' == WithSession(s, i, AfterClientReceives(me, stored, session))
    case ClientContinue(_) =>
      session.client.todo == [] && session.client.at.Announce? && s' == WithClient(s, i, ClientContinues(session.client.at))
    case Obey(_, command) =>
      session.client == Party([], Prompt) && s' == WithClient(s, i, ClientObeys(command, dir.Keys))
    case HandlerSend(_) => session.handler.todo != [] && s' == WithSession(s, i, AfterHandlerSends(session))
    case HandlerReceive(_) =>
      CanReceive(session.handler, HandlerExpects(session.handler.at), session.up)
      && s' == WithSession(s, i, AfterHandlerReceives(session))
    case HandlerAct(_) =>
      session.handler.todo == [] &&
      exists index', h' :: HandlerActs(session.handler.at, s.index, index', h')
                           && s' == WithSession(s, i, session.(handler := h')).(index := index')
    case Connect(_, j) =>
      // the peer that was looked up still runs, and `GetRFCMessage` accepts the number
      session.client.todo == [] && session.client.at.Connecting?
      && j < |s.nodes| && s.nodes[j].me == session.client.at.peer && !s.nodes[j].session.client.at.Quit?
      && NarrowToShort(session.client.at.n) > 0
      && s' == WithClient(s, i, Party([], Fetching(session.client.at.n, |s.links|)))
               .(links := s.links + [Opened(i, j, session.client.at.n, me)])
    case Restart(_) =>
      // the process has exited, its handler too, and the peer comes back with its directory
      session.client == Party([], Quit) && session.handler == Party([], Closed) && s' == WithSession(s, i, Fresh())
    case _ => false
  }

  function Stored(s: State, l: Link, content: Option<seq<byte>>): State
    requires l.from < |s.nodes|
  {
    match content
    case None => s
    case Some(c) => s.(nodes := s.nodes[l.from := s.nodes[l.from].(dir := s.nodes[l.from].dir[l.n := RfcManager.WrittenAs(c)])])
  }

  ghost predicate LinkStep(s: State, e: Event, k: nat, s': State)
    requires k < |s.links| && s.links[k].from < |s.nodes| && s.links[k].to < |s.nodes|
  {
    var l := s.links[k];
    match e
    case FetchSend(_) =>
      l.fetch.todo != [] && s' == WithLink(s, k, l.(fetch := l.fetch.(todo := l.fetch.todo[1..]), up := l.up + [l.fetch.todo[0]]))
    case FetchReceive(_) =>
      CanReceive(l.fetch, FetchExpects(l.fetch.at), l.down) &&
      var (party, content) := FetchReceives(l.fetch.at, l.down[0]);
      var after := Stored(WithLink(s, k, AfterFetchReceives(l)), l, content);
      s' == if party.at == Missed then WithClient(after, l.from, Party([], Prompt)) else after
    case FetchEnd(_) =>
      l.fetch == Party([], Done) && s' == WithClient(WithLink(s, k, l.(fetch := Party([], Ended))), l.from, ClientNotifies(l.n))
    case ServeSend(_) =>
      l.serve.todo != [] && s' == WithLink(s, k, l.(serve := l.serve.(todo := l.serve.todo[1..]), down := l.down + [l.serve.todo[0]]))
    case ServeReceive(_) =>
      CanReceive(l.serve, ServeExpects(l.serve.at), l.up) && s' == WithLink(s, k, AfterServeReceives(l))
    case ServeRead(_) =>
      l.serve.todo == [] && l.serve.at.Reading? &&
      exists body :: IsGetBody(RfcManager.Read(s.nodes[l.to].dir, l.serve.at.n), body)
                     && s' == WithLink(s, k, l.(serve := Party(Sized(body), ServeMessage)))
    case _ => false
  }

  predicate IsLinkEvent(e: Event) {
    e.FetchSend? || e.FetchReceive? || e.FetchEnd? || e.ServeSend? || e.ServeReceive? || e.ServeRead?
  }

  ghost predicate Step(s: State, e: Event, s': State) {
    if IsLinkEvent(e) then
      e.k < |s.links| && s.links[e.k].from < |s.nodes| && s.links[e.k].to < |s.nodes| && LinkStep(s, e, e.k, s')
    else e.i < |s.nodes| && NodeStep(s, e, e.i, s')
  }

  /** A content that files and messages carry unchanged. */
  predicate IsText(content: seq<byte>) {
    content != [] && 0 !in content && RfcManager.EOF_BYTE !in content && |content| + 8 < TWO_TO_THE_31
  }

  /** The start: distinct, nameable peers with texts under numbers that fit a `short`. */
  ghost predicate Init(s: State) {
    && s.index == EMPTY_INDEX && s.links == []
    && (forall i, j :: 0 <= i < j < |s.nodes| ==> s.nodes[i].me != s.nodes[j].me)
    && forall i :: 0 <= i < |s.nodes| ==>
         && CleanPeer(s.nodes[i].me)
         && s.nodes[i].session == Fresh()
         && forall n: int32 :: n in s.nodes[i].dir ==> 0 < n < 0x8000 && IsText(s.nodes[i].dir[n])
  }

  ghost predicate StepAt(states: seq<State>, events: seq<Event>, t: nat)
    requires t < |events| < |states|
  {
    Step(states[t], events[t], states[t + 1])
  }

  ghost predicate IsRun(states: seq<State>, events: seq<Event>) {
    && |states| == |events| + 1
    && Init(states[0])
    && forall t :: 0 <= t < |events| ==> StepAt(states, events, t)
  }

  // ---- What holds in every state ----

  /** The contents that some peer had for RFC `n` at the start `o`. */
  ghost function Authentic(o: State, n: int32): iset<seq<byte>> {
    iset i | 0 <= i < |o.nodes| && n in o.nodes[i].dir :: o.nodes[i].dir[n]
  }

  ghost predicate HasFile(s: State, p: Peer, n: int32) {
    exists j :: 0 <= j < |s.nodes| && s.nodes[j].me == p && n in s.nodes[j].dir
  }

  /** Local RFCs that the index has yet to hear of. */
  function Unannounced(node: Node): set<int32> {
    var answered := node.session.ToClient() != [];
    match node.session.client.at
    case WaitVersion => node.dir.Keys
    case Announce(rest) => set n | n in rest
    case WaitAnnounced(rest) => if answered && rest != [] then set n | n in rest[1..] else set n | n in rest
    case WaitNotified(n) => if answered then {} else {n}
    case Fetching(n, _) => {n} * node.dir.Keys
    case _ => {}
  }

  predicate Joined(at: HandlerAt) {
    match at
    case AwaitMessage(_) => true
    case AwaitAdd(_) => true
    case Adding(_, _) => true
    case Listing(_) => true
    case AwaitLookup(_) => true
    case LookingUp(_, _) => true
    case Removing(_) => true
    case _ => false
  }

  predicate RestOfDirectory(node: Node) {
    match node.session.client.at
    case Announce(rest) => Ascends(rest, node.dir)
    case WaitAnnounced(rest) => Ascends(rest, node.dir)
    case _ => true
  }

  predicate Ascends(rest: seq<int32>, dir: map<int32, seq<byte>>) {
    (forall a, b :: 0 <= a < b < |rest| ==> rest[a] < rest[b]) && forall a :: 0 <= a < |rest| ==> rest[a] in dir
  }

  /** The index lists exactly the announced part of the directory of a peer that has joined. */
  ghost predicate Indexed(index: Index, node: Node) {
    var at := node.session.handler.at;
    && (node.me in index.clients <==> Joined(at))
    && (forall n: int32 :: RfcHolder(n, node.me) in index.rfcs <==> Joined(at) && n in node.dir && n !in Unannounced(node))
    && (!Joined(at) && at != Closed ==> forall n: int32 :: n in node.dir ==> n in Unannounced(node))
    && RestOfDirectory(node)
  }

  ghost predicate LookupOk(s: State, me: Peer, n: int32, body: Frame) {
    match ResponseLists.Parse(LookupResponse.PEER_PARSER, body)
    case Stuck => false
    case Parsed(m, _) => m.code == 404 || (m.items != [] && forall p :: p in m.items ==> HasFile(s, p, n) && p != me)
  }

  ghost predicate ListOk(s: State, body: Frame) {
    match ResponseLists.Parse(ListResponse.HOLDER_PARSER, body)
    case Stuck => false
    case Parsed(m, _) => forall h :: h in m.items ==> HasFile(s, h.peer, h.rfc)
  }

  /** What the client is being told, or acts on, is backed by files. */
  ghost predicate Knows(s: State, i: nat, node: Node) {
    var told := node.session.ToClient();
    match node.session.client.at
    case WaitLookupSize(n) => n !in node.dir && (told != [] ==> |told| == 2 && LookupOk(s, node.me, n, told[1]))
    case WaitLookup(n, _) => n !in node.dir && (told != [] ==> LookupOk(s, node.me, n, told[0]))
    case WaitListSize => told != [] ==> |told| == 2 && ListOk(s, told[1])
    case WaitList(_) => told != [] ==> ListOk(s, told[0])
    case Connecting(n, p) => n !in node.dir && HasFile(s, p, n) && p != node.me
    case Fetching(n, k) => node.session.client.todo == [] && k < |s.links| && s.links[k].from == i && s.links[k].n == n
    case WaitNotified(n) => n in node.dir
    case _ => true
  }

  ghost predicate NodeOk(s: State, i: nat, node: Node) {
    SessionInv(node.me, node.session) && Indexed(s.index, node) && Knows(s, i, node)
  }

  /** The client of `l.from` is busy with download `k` exactly until it ends; the file appears when the body arrives. */
  ghost predicate LinkOk(o: State, s: State, k: nat, l: Link) {
    && l.from < |s.nodes| && l.to < |s.nodes| && l.from != l.to
    && l.n in s.nodes[l.to].dir
    && LinkInv(s.nodes[l.from].me, l, Authentic(o, l.n))
    && (l.fetch.at != Ended <==> s.nodes[l.from].session.client == Party([], Fetching(l.n, k)))
    && (l.fetch.at != Ended ==> (l.n in s.nodes[l.from].dir <==> l.fetch.at == Done))
  }

  ghost predicate DirOk(o: State, node: Node) {
    forall n: int32 :: n in node.dir ==> 0 < n < 0x8000 && node.dir[n] in Authentic(o, n)
  }

  ghost predicate SamePeers(o: State, s: State) {
    |s.nodes| == |o.nodes| && forall i :: 0 <= i < |s.nodes| ==> s.nodes[i].me == o.nodes[i].me
  }

  /** Every entry of the index belongs to one of the peers. */
  ghost predicate Covered(s: State) {
    && (forall p :: p in s.index.clients ==> exists i :: 0 <= i < |s.nodes| && s.nodes[i].me == p)
    && (forall h :: h in s.index.rfcs ==> exists i :: 0 <= i < |s.nodes| && s.nodes[i].me == h.peer)
  }

  ghost predicate Inv(o: State, s: State) {
    && Init(o) && SamePeers(o, s) && Covered(s)
    && (forall i :: 0 <= i < |s.nodes| ==> DirOk(o, s.nodes[i]))
    && (forall i :: 0 <= i < |s.nodes| ==> NodeOk(s, i, s.nodes[i]))
    && (forall k :: 0 <= k < |s.links| ==> LinkOk(o, s, k, s.links[k]))
  }
}
