/** What holds in every state of every run of the whole system. */
module SystemTheorems {
  import opened Bytes
  import opened Sorting
  import opened IndexSpec
  import opened Records
  import opened Protocol
  import opened Session
  import opened Download
  import opened System
  import opened SystemInvariant
  import GetResponse
  import ResponseLists
  import ListResponse

  // ---- Which systems ----

  /** The theorems below hold of all peers with distinct identities, nameable hosts and ports, and text files numbered 1 to 32767. */
  lemma AnyPeersMayStart(peers: seq<Peer>, dirs: seq<map<int32, seq<byte>>>)
    requires |dirs| == |peers| && forall i, j :: 0 <= i < j < |peers| ==> peers[i] != peers[j]
    requires forall p :: p in peers ==> 0 < |p.host| < 0x8000_0000 && 0 !in p.host && p.port > 0
    requires forall i, n :: 0 <= i < |dirs| && n in dirs[i] ==>
      0 < n < 0x8000 && 0 < |dirs[i][n]| < 0x7FFF_FFF8 && 0 !in dirs[i][n] && 0xFF !in dirs[i][n]
    ensures Init(State(EMPTY_INDEX, seq(|peers|, i requires 0 <= i < |peers| => Node(peers[i], dirs[i], Fresh())), []))
  {
    var s := State(EMPTY_INDEX, seq(|peers|, i requires 0 <= i < |peers| => Node(peers[i], dirs[i], Fresh())), []);
    forall i | 0 <= i < |peers| ensures CleanPeer(s.nodes[i].me) {
      assert peers[i] in peers;
    }
  }

  // ---- The index and the directories ----

  /** Every entry of the index belongs to a connected peer and is backed by a file in its directory. */
  lemma IndexIsSound(states: seq<State>, events: seq<Event>, t: nat, h: RfcHolder)
    requires IsRun(states, events) && t < |states| && h in states[t].index.rfcs
    ensures h.peer in states[t].index.clients
    ensures HasFile(states[t], h.peer, h.rfc)
  {
    var s := states[t];
    RunKeepsInv(states, events, t);
    EntriesHaveFiles(states[0], s, h);
    var i :| 0 <= i < |s.nodes| && s.nodes[i].me == h.peer && h.rfc in s.nodes[i].dir;
    NodeIsOk(states[0], s, i);
    assert h == RfcHolder(h.rfc, s.nodes[i].me);
  }

  /** The announcements are done and no download is under way. */
  predicate Settled(at: ClientAt) {
    at.Prompt? || at.WaitListSize? || at.WaitList? || at.WaitLookupSize? || at.WaitLookup? || at.Connecting?
  }

  /** From the first prompt on, outside downloads, the index lists exactly the files of a peer. */
  lemma IndexIsExact(states: seq<State>, events: seq<Event>, t: nat, i: nat, n: int32)
    requires IsRun(states, events) && t < |states| && i < |states[t].nodes| && Settled(states[t].nodes[i].session.client.at)
    ensures RfcHolder(n, states[t].nodes[i].me) in states[t].index.rfcs <==> n in states[t].nodes[i].dir
  {
    RunKeepsInv(states, events, t);
    NodeIsOk(states[0], states[t], i);
    assert Unannounced(states[t].nodes[i]) == {};
  }

  /** Once its session has ended, a peer is in neither list. */
  lemma NothingIsLeftBehind(states: seq<State>, events: seq<Event>, t: nat, i: nat, n: int32)
    requires IsRun(states, events) && t < |states| && i < |states[t].nodes| && states[t].nodes[i].session.handler.at == Closed
    ensures states[t].nodes[i].me !in states[t].index.clients
    ensures RfcHolder(n, states[t].nodes[i].me) !in states[t].index.rfcs
  {
    RunKeepsInv(states, events, t);
    NodeIsOk(states[0], states[t], i);
  }

  /** Every ADD is answered 200, whoever else is talking to the index. */
  lemma AddNeverFails(states: seq<State>, events: seq<Event>, t: nat, i: nat)
    requires IsRun(states, events) && t < |events| && i < |states[t].nodes|
    requires events[t] == HandlerAct(i) && states[t].nodes[i].session.handler.at.Adding?
    ensures i < |states[t + 1].nodes| && states[t + 1].nodes[i].session.handler.todo == [EncodeInt(200)]
    ensures RfcHolder(states[t].nodes[i].session.handler.at.n, states[t].nodes[i].me) in states[t + 1].index.rfcs
  {
    var s, s' := states[t], states[t + 1];
    RunKeepsInv(states, events, t);
    assert StepAt(states, events, t);
    var at := s.nodes[i].session.handler.at;
    var index', h' :| HandlerActs(at, s.index, index', h')
                      && s' == WithSession(s, i, s.nodes[i].session.(handler := h')).(index := index');
    var ok :| Atomic(AddRfc(at.peer, at.n), s.index, index', Flag(ok))
              && h' == Party([EncodeInt(if ok then 200 else 400)], AwaitMessage(at.peer));
    NodeIsOk(states[0], s, i);
    AddKeepsInv(states[0], s, i, index', ok);
  }

  // ---- Files ----

  /** Each stored content is, byte for byte, what some peer had under that number at the start. */
  lemma FilesAreAuthentic(states: seq<State>, events: seq<Event>, t: nat, i: nat, n: int32)
    requires IsRun(states, events) && t < |states| && i < |states[t].nodes| && n in states[t].nodes[i].dir
    ensures exists j :: 0 <= j < |states[0].nodes| && n in states[0].nodes[j].dir && states[0].nodes[j].dir[n] == states[t].nodes[i].dir[n]
  {
    RunKeepsInv(states, events, t);
    NodeIsOk(states[0], states[t], i);
    assert states[t].nodes[i].dir[n] in Authentic(states[0], n);
  }

  ghost predicate FilesKept(s: State, s': State) {
    && |s'.nodes| == |s.nodes|
    && forall i, n :: 0 <= i < |s.nodes| && n in s.nodes[i].dir ==> n in s'.nodes[i].dir && s'.nodes[i].dir[n] == s.nodes[i].dir[n]
  }

  lemma StepKeepsFiles(o: State, s: State, e: Event, s': State)
    requires Inv(o, s) && Step(s, e, s')
    ensures FilesKept(s, s')
  {
    if e.FetchReceive? {
      LinkIsOk(o, s, e.k);
      ReceiveKeepsFiles(s, e.k, s');
    } else {
      OtherStepsKeepFiles(s, e, s');
    }
  }

  lemma ReceiveKeepsFiles(s: State, k: nat, s': State)
    requires k < |s.links| && s.links[k].from < |s.nodes| && s.links[k].to < |s.nodes| && LinkStep(s, FetchReceive(k), k, s')
    requires s.links[k].fetch.at.WaitBody? ==> s.links[k].n !in s.nodes[s.links[k].from].dir
    ensures FilesKept(s, s')
  {
  }

  lemma OtherStepsKeepFiles(s: State, e: Event, s': State)
    requires Step(s, e, s') && !e.FetchReceive?
    ensures FilesKept(s, s')
  {
    assert forall i :: 0 <= i < |s.nodes| ==> s'.nodes[i].dir == s.nodes[i].dir;
  }

  /** No download ever replaces a file, and no file is lost. */
  lemma {:induction false} FilesAreStable(states: seq<State>, events: seq<Event>, t: nat, u: nat)
    requires IsRun(states, events) && t <= u < |states|
    ensures FilesKept(states[t], states[u])
  {
    if t < u {
      FilesAreStable(states, events, t, u - 1);
      RunKeepsInv(states, events, u - 1);
      assert StepAt(states, events, u - 1);
      StepKeepsFiles(states[0], states[u - 1], events[u - 1], states[u]);
    }
  }

  // ---- Downloads ----

  ghost predicate IsTarget(s: State, i: nat, j: nat)
    requires i < |s.nodes| && s.nodes[i].session.client.at.Connecting?
  {
    var at := s.nodes[i].session.client.at;
    j < |s.nodes| && j != i && s.nodes[j].me == at.peer && at.n in s.nodes[j].dir && at.n !in s.nodes[i].dir
  }

  /** A peer that was looked up exists, is another one and has the file, whatever happened since the lookup. */
  lemma LookedUpPeerHasFile(states: seq<State>, events: seq<Event>, t: nat, i: nat)
    requires IsRun(states, events) && t < |states| && i < |states[t].nodes| && states[t].nodes[i].session.client.at.Connecting?
    ensures exists j :: IsTarget(states[t], i, j)
  {
    RunKeepsInv(states, events, t);
    NodeIsOk(states[0], states[t], i);
    KnownTarget(states[t], i);
  }

  lemma KnownTarget(s: State, i: nat)
    requires i < |s.nodes| && s.nodes[i].session.client.at.Connecting? && Knows(s, i, s.nodes[i])
    ensures exists j :: IsTarget(s, i, j)
  {
    var at := s.nodes[i].session.client.at;
    var j :| 0 <= j < |s.nodes| && s.nodes[j].me == at.peer && at.n in s.nodes[j].dir;
    assert IsTarget(s, i, j);
  }

  /** Every GET is answered 200, with an authentic content. */
  lemma GetIsAnswered200(states: seq<State>, events: seq<Event>, t: nat, k: nat)
    requires IsRun(states, events) && t < |events| && events[t] == ServeRead(k) && k < |states[t].links|
    ensures k < |states[t + 1].links|
    ensures var serve := states[t + 1].links[k].serve;
      exists content :: content in Authentic(states[0], states[t].links[k].n)
                        && |serve.todo| == 2 && GetResponse.IsEncoding(200, content, serve.todo[1])
  {
    var s, l := states[t], states[t].links[k];
    RunKeepsInv(states, events, t);
    assert StepAt(states, events, t);
    ServeReadFinds(states[0], s, k);
  }

  /** No download misses; the number appears in the directory exactly when the body has arrived. */
  lemma DownloadsSucceed(states: seq<State>, events: seq<Event>, t: nat, k: nat)
    requires IsRun(states, events) && t < |states| && k < |states[t].links|
    ensures var s, l := states[t], states[t].links[k];
      && l.from < |s.nodes| && l.to < |s.nodes| && l.from != l.to
      && l.fetch.at != Missed && l.fetch.at != Confused
      && (l.fetch.at != Ended ==> s.nodes[l.from].session.client == Party([], Fetching(l.n, k)))
      && (l.fetch.at != Ended ==> (l.n in s.nodes[l.from].dir <==> l.fetch.at == Done))
  {
    RunKeepsInv(states, events, t);
    LinkIsOk(states[0], states[t], k);
    DownloadIsWell(states[0], states[t], k, states[t].links[k]);
  }

  lemma DownloadIsWell(o: State, s: State, k: nat, l: Link)
    requires LinkOk(o, s, k, l)
    ensures l.fetch.at != Missed && l.fetch.at != Confused
  {
  }

  // ---- Peer choice ----

  predicate LooksUp(at: ClientAt, n: int32) {
    match at
    case WaitLookupSize(m) => m == n
    case WaitLookup(m, _) => m == n
    case _ => false
  }

  /** `body` is on its way to a client that looks up `n`. */
  predicate Awaits(session: Session, n: int32, body: Frame) {
    && session.handler.at.AwaitMessage? && |body| < TWO_TO_THE_31
    && match session.client.at
       case WaitLookupSize(m) => m == n && session.ToClient() == [EncodeInt(|body|), body]
       case WaitLookup(m, size) => m == n && size == |body| && session.ToClient() == [body]
       case _ => false
  }

  lemma AwaitedReceive(me: Peer, stored: seq<int32>, session: Session, n: int32, body: Frame)
    requires SessionInv(me, session) && Awaits(session, n, body)
    requires CanReceive(session.client, ClientExpects(session.client.at), session.down)
    ensures var s' := AfterClientReceives(me, stored, session);
      Awaits(s', n, body) || s'.client == Party([], AfterLookup(n, body))
  {
    HeadOf(session.down, session.handler.todo);
    DecodeEncodeInt(|body|);
    var s' := AfterClientReceives(me, stored, session);
    assert s'.ToClient() == session.ToClient()[1..];
  }

  lemma AwaitedSends(me: Peer, session: Session, n: int32, body: Frame)
    requires SessionInv(me, session) && Awaits(session, n, body)
    ensures session.client.todo != [] ==> Awaits(AfterClientSends(session), n, body)
    ensures session.handler.todo != [] ==> Awaits(AfterHandlerSends(session), n, body)
    ensures !CanReceive(session.handler, HandlerExpects(session.handler.at), session.up)
  {
    if session.client.todo != [] { ClientSendKeeps(me, session); }
    if session.handler.todo != [] { HandlerSendKeeps(me, session); }
  }

  /** Nothing touches an answer under way but its delivery. */
  lemma AnswerTravels(o: State, s: State, e: Event, s': State, i: nat, n: int32, body: Frame)
    requires Inv(o, s) && Step(s, e, s') && i < |s.nodes| && Awaits(s.nodes[i].session, n, body)
    ensures i < |s'.nodes|
    ensures Awaits(s'.nodes[i].session, n, body) || s'.nodes[i].session.client == Party([], AfterLookup(n, body))
  {
    NodeIsOk(o, s, i);
    if IsLinkEvent(e) {
      LinkIsOk(o, s, e.k);
      OthersLeaveSession(s, e, s', i);
    } else if e.i != i {
      OthersLeaveSession(s, e, s', i);
    } else {
      OwnStepKeepsAnswer(s, e, s', i, n, body);
    }
  }

  lemma OthersLeaveSession(s: State, e: Event, s': State, i: nat)
    requires Step(s, e, s') && i < |s.nodes|
    requires if IsLinkEvent(e) then s.links[e.k].from == i ==> s.links[e.k].fetch.at == Ended else e.i != i
    ensures i < |s'.nodes| && s'.nodes[i].session == s.nodes[i].session
  {
  }

  lemma OwnStepKeepsAnswer(s: State, e: Event, s': State, i: nat, n: int32, body: Frame)
    requires i < |s.nodes| && NodeStep(s, e, i, s') && SessionInv(s.nodes[i].me, s.nodes[i].session) && Awaits(s.nodes[i].session, n, body)
    ensures i < |s'.nodes|
    ensures Awaits(s'.nodes[i].session, n, body) || s'.nodes[i].session.client == Party([], AfterLookup(n, body))
  {
    var me, dir, session := s.nodes[i].me, s.nodes[i].dir, s.nodes[i].session;
    AwaitedSends(me, session, n, body);
    if e.ClientReceive? {
      var stored :| ListsKeys(stored, dir) && s' == WithSession(s, i, AfterClientReceives(me, stored, session));
      AwaitedReceive(me, stored, session, n, body);
    }
  }

  lemma {:induction false} AnswerArrives(states: seq<State>, events: seq<Event>, t: nat, u: nat, i: nat, n: int32, body: Frame)
    requires IsRun(states, events) && t <= u < |states| && i < |states[t].nodes|
    requires Awaits(states[t].nodes[i].session, n, body)
    requires forall v :: t < v < u ==> i < |states[v].nodes| && LooksUp(states[v].nodes[i].session.client.at, n)
    ensures i < |states[u].nodes|
    ensures Awaits(states[u].nodes[i].session, n, body) || states[u].nodes[i].session.client == Party([], AfterLookup(n, body))
  {
    if t < u {
      AnswerArrives(states, events, t, u - 1, i, n, body);
      RunKeepsInv(states, events, u - 1);
      assert StepAt(states, events, u - 1);
      AnswerTravels(states[0], states[u - 1], events[u - 1], states[u], i, n, body);
    }
  }

  /** `p` is the first holder of `n` by host and port. */
  ghost predicate IsLeastHolder(index: Index, n: int32, p: Peer) {
    RfcHolder(n, p) in index.rfcs && forall q :: RfcHolder(n, q) in index.rfcs && q != p ==> LessPeer(p, q)
  }

  /** Give up when nobody has `n`, else turn to the least holder, which is not the asking peer. */
  ghost predicate RightChoice(s: State, i: nat, n: int32, at: ClientAt)
    requires i < |s.nodes|
  {
    match at
    case Prompt => forall q :: RfcHolder(n, q) !in s.index.rfcs
    case Connecting(m, p) => m == n && IsLeastHolder(s.index, n, p) && p != s.nodes[i].me
    case _ => false
  }

  lemma LookupAnswer(o: State, s: State, s': State, i: nat)
    requires Inv(o, s) && Step(s, HandlerAct(i), s') && i < |s.nodes| && s.nodes[i].session.handler.at.LookingUp?
    ensures var n := s.nodes[i].session.handler.at.n;
      i < |s'.nodes| && exists body :: Awaits(s'.nodes[i].session, n, body) && RightChoice(s, i, n, AfterLookup(n, body))
  {
    var session := s.nodes[i].session;
    var n := session.handler.at.n;
    NodeIsOk(o, s, i);
    var index', h' :| HandlerActs(session.handler.at, s.index, index', h')
                      && s' == WithSession(s, i, session.(handler := h')).(index := index');
    var peers, body :| Atomic(FindRfcs(n), s.index, index', Peers(peers)) && IsLookupBody(peers, body)
                       && h' == Party(Sized(body), AwaitMessage(session.handler.at.peer));
    BodyMakesRightChoice(o, s, i, n, peers, index', body);
    AnswerIsAwaited(s.nodes[i].me, session, body);
  }

  /** The answer to a LOOKUP makes its receiver connect to the least holder, or give up when there is none. */
  lemma BodyMakesRightChoice(o: State, s: State, i: nat, n: int32, peers: seq<Peer>, index': Index, body: Frame)
    requires Inv(o, s) && i < |s.nodes| && n !in s.nodes[i].dir
    requires Atomic(FindRfcs(n), s.index, index', Peers(peers)) && IsLookupBody(peers, body)
    ensures RightChoice(s, i, n, AfterLookup(n, body))
  {
    LookupBodyDecodes(o, s, n, peers, index', body);
    FindHeadIsLeast(s.index, n, index', peers);
    LookupBodyIsOk(o, s, i, n, peers, index', body);
  }

  lemma AnswerIsAwaited(me: Peer, session: Session, body: Frame)
    requires SessionInv(me, session) && session.handler.todo == [] && session.handler.at.LookingUp? && |body| < TWO_TO_THE_31
    ensures Awaits(session.(handler := Party(Sized(body), AwaitMessage(me))), session.handler.at.n, body)
  {
    ToInt32Identity(|body|);
    var s' := session.(handler := Party(Sized(body), AwaitMessage(me)));
    assert s'.ToClient() == session.ToClient() + Sized(body);
  }

  /**
   After the index has looked up `n` for peer `i`, the client of `i` waits until it connects to the peer
   that was then the least holder, never itself, or until it learns that there was none.
   */
  lemma LookupPicksLeastHolder(states: seq<State>, events: seq<Event>, t: nat, u: nat, i: nat, n: int32)
    requires IsRun(states, events) && t < u < |states| && i < |states[t].nodes|
    requires events[t] == HandlerAct(i) && states[t].nodes[i].session.handler.at.LookingUp? && states[t].nodes[i].session.handler.at.n == n
    requires forall v :: t < v < u ==> i < |states[v].nodes| && LooksUp(states[v].nodes[i].session.client.at, n)
    ensures i < |states[u].nodes|
    ensures var at := states[u].nodes[i].session.client.at;
      LooksUp(at, n) || RightChoice(states[t], i, n, at)
  {
    var s, s' := states[t], states[t + 1];
    RunKeepsInv(states, events, t);
    assert StepAt(states, events, t);
    LookupAnswer(states[0], s, s', i);
    var body :| Awaits(s'.nodes[i].session, n, body) && RightChoice(s, i, n, AfterLookup(n, body));
    AnswerArrives(states, events, t + 1, u, i, n, body);
  }

  // ---- Listing ----

  /** `body` decodes to every entry of the index, once, in ascending order. */
  ghost predicate TellsIndex(index: Index, body: Frame) {
    var r := ResponseLists.Parse(ListResponse.HOLDER_PARSER, body);
    r.Parsed? && IsEnumeration(BY_HOLDER, r.value.items, index.rfcs)
  }

  /** The answer to a LIST decodes to every entry of the index, once, in ascending order. */
  lemma ListTellsIndex(states: seq<State>, events: seq<Event>, t: nat, i: nat)
    requires IsRun(states, events) && t < |events| && i < |states[t].nodes|
    requires events[t] == HandlerAct(i) && states[t].nodes[i].session.handler.at.Listing?
    ensures i < |states[t + 1].nodes| && |states[t + 1].nodes[i].session.handler.todo| == 2
    ensures TellsIndex(states[t].index, states[t + 1].nodes[i].session.handler.todo[1])
  {
    RunKeepsInv(states, events, t);
    assert StepAt(states, events, t);
    ListAnswer(states[0], states[t], states[t + 1], i);
  }

  lemma ListAnswer(o: State, s: State, s': State, i: nat)
    requires Inv(o, s) && Step(s, HandlerAct(i), s') && i < |s.nodes| && s.nodes[i].session.handler.at.Listing?
    ensures i < |s'.nodes| && |s'.nodes[i].session.handler.todo| == 2
    ensures TellsIndex(s.index, s'.nodes[i].session.handler.todo[1])
  {
    var session := s.nodes[i].session;
    var index', h' :| HandlerActs(session.handler.at, s.index, index', h')
                      && s' == WithSession(s, i, session.(handler := h')).(index := index');
    var holders, body :| Atomic(AllRfcs, s.index, index', Holders(holders)) && IsListBody(holders, body)
                         && h' == Party(Sized(body), AwaitMessage(session.handler.at.peer));
    BodyTellsIndex(o, s, holders, index', body);
  }

  lemma BodyTellsIndex(o: State, s: State, holders: seq<RfcHolder>, index': Index, body: Frame)
    requires Inv(o, s) && Atomic(AllRfcs, s.index, index', Holders(holders)) && IsListBody(holders, body)
    ensures TellsIndex(s.index, body)
  {
    ListBodyDecodes(o, s, holders, index', body);
  }

  // ---- Alignment ----

  /** No receive in the whole system ever asks for another length than was sent. */
  lemma MessagesLineUp(states: seq<State>, events: seq<Event>, t: nat)
    requires IsRun(states, events) && t < |states|
    ensures forall i :: 0 <= i < |states[t].nodes| ==>
      var session := states[t].nodes[i].session;
      && !Misaligned(session.client, ClientExpects(session.client.at), session.down)
      && !Misaligned(session.handler, HandlerExpects(session.handler.at), session.up)
    ensures forall k :: 0 <= k < |states[t].links| ==>
      var l := states[t].links[k];
      && !Misaligned(l.fetch, FetchExpects(l.fetch.at), l.down)
      && !Misaligned(l.serve, ServeExpects(l.serve.at), l.up)
  {
    var s := states[t];
    RunKeepsInv(states, events, t);
    forall i | 0 <= i < |s.nodes|
      ensures var session := s.nodes[i].session;
        && !Misaligned(session.client, ClientExpects(session.client.at), session.down)
        && !Misaligned(session.handler, HandlerExpects(session.handler.at), session.up)
    {
      NodeIsOk(states[0], s, i);
      PeerIsClean(states[0], s, i);
      SessionAligned(s.nodes[i].me, s.nodes[i].session);
    }
    forall k | 0 <= k < |s.links|
      ensures var l := s.links[k];
        && !Misaligned(l.fetch, FetchExpects(l.fetch.at), l.down)
        && !Misaligned(l.serve, ServeExpects(l.serve.at), l.up)
    {
      LinkIsOk(states[0], s, k);
      var l := s.links[k];
      PeerIsClean(states[0], s, l.from);
      LinkAligned(s.nodes[l.from].me, l, Authentic(states[0], l.n));
    }
  }
}
