/** Every event keeps the invariant of the system. */
module SystemInvariant {
  import opened Bytes
  import opened Sorting
  import opened IndexSpec
  import opened Records
  import opened Protocol
  import opened Session
  import opened Download
  import opened System
  import RfcManager
  import ResponseLists
  import LookupResponse
  import ListResponse

  // ---- What events leave alone ----

  /** Files are never lost and links never change their ends. */
  ghost predicate Grows(s: State, s': State) {
    && |s'.nodes| == |s.nodes| && |s.links| <= |s'.links|
    && (forall i :: 0 <= i < |s.nodes| ==> s'.nodes[i].me == s.nodes[i].me)
    && (forall i, n :: 0 <= i < |s.nodes| && n in s.nodes[i].dir ==> n in s'.nodes[i].dir)
    && forall k :: 0 <= k < |s.links| ==> s'.links[k].from == s.links[k].from && s'.links[k].n == s.links[k].n
  }

  lemma FilesStay(s: State, s': State, p: Peer, n: int32)
    requires Grows(s, s') && HasFile(s, p, n)
    ensures HasFile(s', p, n)
  {
    var j :| 0 <= j < |s.nodes| && s.nodes[j].me == p && n in s.nodes[j].dir;
    assert s'.nodes[j].me == p && n in s'.nodes[j].dir;
  }

  lemma KnowledgeStays(s: State, s': State, i: nat, node: Node)
    requires Grows(s, s') && Knows(s, i, node)
    ensures Knows(s', i, node)
  {
    forall p, n | HasFile(s, p, n) ensures HasFile(s', p, n) {
      FilesStay(s, s', p, n);
    }
  }

  lemma OtherNodeStaysOk(s: State, s': State, i: nat, node: Node)
    requires Grows(s, s') && NodeOk(s, i, node) && SameEntries(s.index, s'.index, node.me)
    ensures NodeOk(s', i, node)
  {
    KnowledgeStays(s, s', i, node);
  }

  lemma OtherLinkStaysOk(o: State, s: State, s': State, k: nat, l: Link)
    requires Grows(s, s') && LinkOk(o, s, k, l)
    requires s'.nodes[l.from].session.client == Party([], Fetching(l.n, k)) <==> s.nodes[l.from].session.client == Party([], Fetching(l.n, k))
    requires l.n in s'.nodes[l.from].dir ==> l.n in s.nodes[l.from].dir
    ensures LinkOk(o, s', k, l)
  {
  }

  lemma CoveredStays(s: State, s': State)
    requires Grows(s, s') && Covered(s)
    requires s'.index.clients <= s.index.clients && s'.index.rfcs <= s.index.rfcs
    ensures Covered(s')
  {
    forall p | p in s'.index.clients ensures exists i :: 0 <= i < |s'.nodes| && s'.nodes[i].me == p {
      var i :| 0 <= i < |s.nodes| && s.nodes[i].me == p;
      assert s'.nodes[i].me == p;
    }
    forall h | h in s'.index.rfcs ensures exists i :: 0 <= i < |s'.nodes| && s'.nodes[i].me == h.peer {
      var i :| 0 <= i < |s.nodes| && s.nodes[i].me == h.peer;
      assert s'.nodes[i].me == h.peer;
    }
  }

  lemma PeersDiffer(o: State, s: State, i: nat, j: nat)
    requires Inv(o, s) && i < |s.nodes| && j < |s.nodes| && i != j
    ensures s.nodes[i].me != s.nodes[j].me
  {
    if i < j { assert o.nodes[i].me != o.nodes[j].me; } else { assert o.nodes[j].me != o.nodes[i].me; }
  }

  lemma NodeIsOk(o: State, s: State, i: nat)
    requires Inv(o, s) && i < |s.nodes|
    ensures NodeOk(s, i, s.nodes[i]) && DirOk(o, s.nodes[i])
  {
  }

  lemma LinkIsOk(o: State, s: State, k: nat)
    requires Inv(o, s) && k < |s.links|
    ensures LinkOk(o, s, k, s.links[k])
    ensures s.links[k].from < |s.nodes| && s.links[k].to < |s.nodes|
  {
  }

  /** Peer `i`, or none, and link `k`, or none, changed, and both are fine. */
  lemma ChangeKeepsInv(o: State, s: State, s': State, i: nat)
    requires Inv(o, s) && Grows(s, s') && i < |s.nodes| && s'.index == s.index
    requires forall j :: 0 <= j < |s.nodes| && j != i ==> s'.nodes[j] == s.nodes[j]
    requires NodeOk(s', i, s'.nodes[i]) && DirOk(o, s'.nodes[i])
    requires forall k :: 0 <= k < |s'.links| ==> LinkOk(o, s', k, s'.links[k])
    ensures Inv(o, s')
  {
    CoveredStays(s, s');
    NodesStayOk(o, s, s', i);
  }

  /** Only peer `i` and its entries changed: if `i` is fine, every peer is. */
  lemma NodesStayOk(o: State, s: State, s': State, i: nat)
    requires Inv(o, s) && Grows(s, s') && i < |s.nodes|
    requires forall j :: 0 <= j < |s.nodes| && j != i ==> s'.nodes[j] == s.nodes[j]
    requires forall p :: p != s.nodes[i].me ==> SameEntries(s.index, s'.index, p)
    requires NodeOk(s', i, s'.nodes[i]) && DirOk(o, s'.nodes[i])
    ensures forall j :: 0 <= j < |s'.nodes| ==> NodeOk(s', j, s'.nodes[j]) && DirOk(o, s'.nodes[j])
  {
    forall j | 0 <= j < |s'.nodes| ensures NodeOk(s', j, s'.nodes[j]) && DirOk(o, s'.nodes[j]) {
      if j != i {
        assert NodeOk(s, j, s.nodes[j]) && DirOk(o, s.nodes[j]);
        PeersDiffer(o, s, i, j);
        OtherNodeStaysOk(s, s', j, s.nodes[j]);
      }
    }
  }

  ghost predicate Undisturbed(s: State, s': State, k: nat)
    requires k < |s.links| <= |s'.links| && |s'.nodes| == |s.nodes|
  {
    var l := s.links[k];
    s'.links[k] == l && (l.from < |s.nodes| ==>
      && (s'.nodes[l.from].session.client == Party([], Fetching(l.n, k)) <==> s.nodes[l.from].session.client == Party([], Fetching(l.n, k)))
      && (l.n in s'.nodes[l.from].dir ==> l.n in s.nodes[l.from].dir))
  }

  /** No link but `k` is touched. */
  ghost predicate OthersUndisturbed(s: State, s': State, k: nat)
    requires Grows(s, s')
  {
    forall x :: 0 <= x < |s.links| && x != k ==> Undisturbed(s, s', x)
  }

  lemma OtherLinksStayOk(o: State, s: State, k: nat, s': State)
    requires Inv(o, s) && Grows(s, s') && OthersUndisturbed(s, s', k)
    ensures forall x :: 0 <= x < |s.links| && x != k ==> LinkOk(o, s', x, s'.links[x])
  {
    forall x | 0 <= x < |s.links| && x != k ensures LinkOk(o, s', x, s'.links[x]) {
      assert LinkOk(o, s, x, s.links[x]) && Undisturbed(s, s', x);
    }
  }

  /** Download `k` and its client are all that changed, and the client is in no other download. */
  ghost predicate OnlyDownload(s: State, s': State, k: nat)
    requires Grows(s, s') && k < |s.links| && s.links[k].from < |s.nodes|
  {
    var node, node' := s.nodes[s.links[k].from], s'.nodes[s.links[k].from];
    && (forall x :: 0 <= x < |s.links| && x != k ==> s'.links[x] == s.links[x])
    && (forall i :: 0 <= i < |s.nodes| && i != s.links[k].from ==> s'.nodes[i] == s.nodes[i])
    && node.session.client == Party([], Fetching(s.links[k].n, k))
    && (forall m: int32 :: m in node'.dir ==> m in node.dir || m == s.links[k].n)
    && (forall m: int32, x: nat :: node'.session.client == Party([], Fetching(m, x)) ==> x == k)
  }

  /** A downloading client belongs to one link alone. */
  lemma OtherLinksIdle(o: State, s: State, k: nat, s': State)
    requires Inv(o, s) && Grows(s, s') && k < |s.links| && s.links[k].from < |s.nodes| && OnlyDownload(s, s', k)
    ensures forall x :: 0 <= x < |s.links| && x != k ==> LinkOk(o, s', x, s'.links[x])
  {
    forall x | 0 <= x < |s.links| && x != k ensures LinkOk(o, s', x, s'.links[x]) {
      assert LinkOk(o, s, x, s.links[x]);
    }
  }

  lemma DownloadChangeKeepsInv(o: State, s: State, k: nat, s': State)
    requires Inv(o, s) && Grows(s, s') && k < |s.links| == |s'.links| && s.links[k].from < |s.nodes|
    requires s'.index == s.index && OnlyDownload(s, s', k)
    requires LinkOk(o, s', k, s'.links[k])
    requires var from := s.links[k].from; NodeOk(s', from, s'.nodes[from]) && DirOk(o, s'.nodes[from])
    ensures Inv(o, s')
  {
    OtherLinksIdle(o, s, k, s');
    ChangeKeepsInv(o, s, s', s.links[k].from);
  }

  // ---- Events of one session that do not call the index ----

  /** A new session state of peer `i`, outside downloads, that is fine for `i` is fine for the system. */
  lemma SessionChangeKeepsInv(o: State, s: State, i: nat, session: Session)
    requires Inv(o, s) && i < |s.nodes|
    requires NodeOk(s, i, s.nodes[i].(session := session))
    requires session.client == s.nodes[i].session.client || (!session.client.at.Fetching? && !s.nodes[i].session.client.at.Fetching?)
    ensures Inv(o, WithSession(s, i, session))
  {
    var s' := WithSession(s, i, session);
    SessionChangeLeaves(s, i, session, s');
    assert DirOk(o, s.nodes[i]);
    KnowledgeStays(s, s', i, s'.nodes[i]);
    OtherLinksStayOk(o, s, |s.links|, s');
    ChangeKeepsInv(o, s, s', i);
  }

  lemma SessionChangeLeaves(s: State, i: nat, session: Session, s': State)
    requires i < |s.nodes| && s'.nodes == WithSession(s, i, session).nodes && s.links <= s'.links
    requires session.client == s.nodes[i].session.client
             || ((session.client.at.Fetching? ==> session.client.at.link == |s.links|) && !s.nodes[i].session.client.at.Fetching?)
    ensures Grows(s, s') && OthersUndisturbed(s, s', |s.links|)
  {
  }

  lemma ClientSendKeepsInv(o: State, s: State, i: nat)
    requires Inv(o, s) && i < |s.nodes| && s.nodes[i].session.client.todo != []
    ensures Inv(o, WithSession(s, i, AfterClientSends(s.nodes[i].session)))
  {
    var node := s.nodes[i];
    ClientSendKeeps(node.me, node.session);
    assert NodeOk(s, i, node);
    assert Unannounced(node.(session := AfterClientSends(node.session))) == Unannounced(node);
    SessionChangeKeepsInv(o, s, i, AfterClientSends(node.session));
  }

  lemma HandlerSendKeepsInv(o: State, s: State, i: nat)
    requires Inv(o, s) && i < |s.nodes| && s.nodes[i].session.handler.todo != []
    ensures Inv(o, WithSession(s, i, AfterHandlerSends(s.nodes[i].session)))
  {
    var node := s.nodes[i];
    HandlerSendKeeps(node.me, node.session);
    assert NodeOk(s, i, node);
    assert Unannounced(node.(session := AfterHandlerSends(node.session))) == Unannounced(node);
    SessionChangeKeepsInv(o, s, i, AfterHandlerSends(node.session));
  }

  lemma PeerIsClean(o: State, s: State, i: nat)
    requires Inv(o, s) && i < |s.nodes|
    ensures CleanPeer(s.nodes[i].me)
  {
    assert s.nodes[i].me == o.nodes[i].me;
  }

  /** No receive of the handler changes who has joined or what is announced. */
  lemma HandlerReceiveKeepsInv(o: State, s: State, i: nat)
    requires Inv(o, s) && i < |s.nodes|
    requires CanReceive(s.nodes[i].session.handler, HandlerExpects(s.nodes[i].session.handler.at), s.nodes[i].session.up)
    ensures Inv(o, WithSession(s, i, AfterHandlerReceives(s.nodes[i].session)))
  {
    var node := s.nodes[i];
    var session := AfterHandlerReceives(node.session);
    PeerIsClean(o, s, i);
    assert NodeOk(s, i, node);
    HandlerReceiveKeeps(node.me, node.session);
    HandlerReceiveKeepsStanding(node.me, node.session);
    assert Unannounced(node.(session := session)) == Unannounced(node);
    SessionChangeKeepsInv(o, s, i, session);
  }

  lemma HandlerReceiveKeepsStanding(me: Peer, session: Session)
    requires SessionInv(me, session) && CanReceive(session.handler, HandlerExpects(session.handler.at), session.up)
    ensures var at, at' := session.handler.at, AfterHandlerReceives(session).handler.at;
      (Joined(at') <==> Joined(at)) && at != Closed && at' != Closed && AfterHandlerReceives(session).client == session.client
  {
  }

  // ---- What the client receives ----

  lemma ClientReceiveKeepsInv(o: State, s: State, i: nat, stored: seq<int32>)
    requires Inv(o, s) && i < |s.nodes| && ListsKeys(stored, s.nodes[i].dir)
    requires CanReceive(s.nodes[i].session.client, ClientExpects(s.nodes[i].session.client.at), s.nodes[i].session.down)
    ensures Inv(o, WithSession(s, i, AfterClientReceives(s.nodes[i].me, stored, s.nodes[i].session)))
  {
    var node := s.nodes[i];
    var session := AfterClientReceives(node.me, stored, node.session);
    PeerIsClean(o, s, i);
    assert NodeOk(s, i, node);
    if node.session.client.at == WaitVersion {
      VersionReceiveKeeps(node.me, stored, node.session);
      AnnouncesAll(s.index, node, stored, session);
    } else {
      ReplyIsUnderstood(s, i, node, stored);
      ReplyReceiveKeeps(node.me, stored, node.session);
      ReplyKeepsIndexed(s.index, node, stored);
      ReplyKeepsKnowledge(s, i, node, stored);
    }
    SessionChangeKeepsInv(o, s, i, session);
  }

  /** After the version exchange the whole directory is to be announced. */
  lemma AnnouncesAll(index: Index, node: Node, stored: seq<int32>, session: Session)
    requires Indexed(index, node) && ListsKeys(stored, node.dir) && node.session.client.at == WaitVersion
    requires session.client.at == Announce(stored) && session.handler == node.session.handler
    ensures Indexed(index, node.(session := session))
  {
    var node' := node.(session := session);
    assert forall n: int32 :: n in Unannounced(node') <==> n in stored;
  }

  /** No reply is malformed. */
  lemma ReplyIsUnderstood(s: State, i: nat, node: Node, stored: seq<int32>)
    requires NodeOk(s, i, node) && node.session.client.at != WaitVersion
    requires CanReceive(node.session.client, ClientExpects(node.session.client.at), node.session.down)
    ensures !AfterClientReceives(node.me, stored, node.session).client.at.Broken?
  {
    HeadOf(node.session.down, node.session.handler.todo);
  }

  lemma ReplyKeepsIndexed(index: Index, node: Node, stored: seq<int32>)
    requires CleanPeer(node.me) && SessionInv(node.me, node.session) && Indexed(index, node) && node.session.client.at != WaitVersion
    requires CanReceive(node.session.client, ClientExpects(node.session.client.at), node.session.down)
    requires !AfterClientReceives(node.me, stored, node.session).client.at.Broken?
    ensures Indexed(index, node.(session := AfterClientReceives(node.me, stored, node.session)))
  {
    ReplyReceiveKeeps(node.me, stored, node.session);
    MessageTags();
    var node' := node.(session := AfterClientReceives(node.me, stored, node.session));
    assert node'.session.handler == node.session.handler;
    assert forall n: int32 :: n in Unannounced(node') <==> n in Unannounced(node);
  }

  lemma ReplyKeepsKnowledge(s: State, i: nat, node: Node, stored: seq<int32>)
    requires CleanPeer(node.me) && NodeOk(s, i, node) && node.session.client.at != WaitVersion
    requires CanReceive(node.session.client, ClientExpects(node.session.client.at), node.session.down)
    requires !AfterClientReceives(node.me, stored, node.session).client.at.Broken?
    ensures Knows(s, i, node.(session := AfterClientReceives(node.me, stored, node.session)))
  {
    ReplyReceiveKeeps(node.me, stored, node.session);
  }

  // ---- What the client decides ----

  lemma ClientContinueKeepsInv(o: State, s: State, i: nat)
    requires Inv(o, s) && i < |s.nodes| && s.nodes[i].session.client.todo == [] && s.nodes[i].session.client.at.Announce?
    ensures Inv(o, WithClient(s, i, ClientContinues(s.nodes[i].session.client.at)))
  {
    var node := s.nodes[i];
    var c' := ClientContinues(node.session.client.at);
    var session := node.session.(client := c');
    assert NodeOk(s, i, node) && DirOk(o, node);
    ClientDecisionKeeps(node.me, node.session, c');
    var node' := node.(session := session);
    assert forall n: int32 :: n in Unannounced(node') <==> n in Unannounced(node);
    SessionChangeKeepsInv(o, s, i, session);
  }

  lemma ObeyKeepsInv(o: State, s: State, i: nat, command: Command)
    requires Inv(o, s) && i < |s.nodes| && s.nodes[i].session.client == Party([], Prompt)
    ensures Inv(o, WithClient(s, i, ClientObeys(command, s.nodes[i].dir.Keys)))
  {
    var node := s.nodes[i];
    var c' := ClientObeys(command, node.dir.Keys);
    var session := node.session.(client := c');
    assert NodeOk(s, i, node);
    ClientDecisionKeeps(node.me, node.session, c');
    assert Unannounced(node.(session := session)) == Unannounced(node) == {};
    SessionChangeKeepsInv(o, s, i, session);
  }

  // ---- Calls of the index ----

  lemma CoveredAfterCall(s: State, s': State, i: nat)
    requires Grows(s, s') && Covered(s) && i < |s.nodes|
    requires forall p :: p != s.nodes[i].me ==> SameEntries(s.index, s'.index, p)
    ensures Covered(s')
  {
    forall p | p in s'.index.clients ensures exists j :: 0 <= j < |s'.nodes| && s'.nodes[j].me == p {
      OwnerStays(s, s', i, p);
    }
    forall h | h in s'.index.rfcs ensures exists j :: 0 <= j < |s'.nodes| && s'.nodes[j].me == h.peer {
      assert h == RfcHolder(h.rfc, h.peer);
      OwnerStays(s, s', i, h.peer);
    }
  }

  lemma OwnerStays(s: State, s': State, i: nat, p: Peer)
    requires Grows(s, s') && Covered(s) && i < |s.nodes|
    requires p != s.nodes[i].me ==> SameEntries(s.index, s'.index, p)
    requires p in s'.index.clients || exists n: int32 :: RfcHolder(n, p) in s'.index.rfcs
    ensures exists j :: 0 <= j < |s'.nodes| && s'.nodes[j].me == p
  {
    if p == s.nodes[i].me {
      assert s'.nodes[i].me == p;
    } else {
      var j :| 0 <= j < |s.nodes| && s.nodes[j].me == p;
      assert s'.nodes[j].me == p;
    }
  }

  /** A call of the index for peer `i` touches only the entries of `i`. */
  lemma IndexChangeKeepsInv(o: State, s: State, i: nat, h': Party<HandlerAt>, index': Index)
    requires Inv(o, s) && i < |s.nodes|
    requires var session := s.nodes[i].session.(handler := h');
      SessionInv(s.nodes[i].me, session) && Indexed(index', s.nodes[i].(session := session)) && Knows(s, i, s.nodes[i].(session := session))
    requires forall p :: p != s.nodes[i].me ==> SameEntries(s.index, index', p)
    ensures Inv(o, WithSession(s, i, s.nodes[i].session.(handler := h')).(index := index'))
  {
    var s' := WithSession(s, i, s.nodes[i].session.(handler := h')).(index := index');
    SessionChangeLeaves(s, i, s'.nodes[i].session, s');
    CoveredAfterCall(s, s', i);
    assert DirOk(o, s.nodes[i]);
    KnowledgeStays(s, s', i, s'.nodes[i]);
    NodesStayOk(o, s, s', i);
    OtherLinksStayOk(o, s, |s.links|, s');
  }

  /** A peer that joins was not listed before: `add_client` answers true. */
  lemma JoinKeepsInv(o: State, s: State, i: nat, index': Index, reply: Reply)
    requires Inv(o, s) && i < |s.nodes| && s.nodes[i].session.handler.todo == [] && s.nodes[i].session.handler.at.Joining?
    requires Atomic(AddClient(s.nodes[i].session.handler.at.peer), s.index, index', reply)
    ensures reply == Flag(true)
    ensures Inv(o, WithSession(s, i, s.nodes[i].session.(handler := Party([], AwaitMessage(s.nodes[i].me)))).(index := index'))
  {
    var node := s.nodes[i];
    assert NodeOk(s, i, node);
    var h' := Party([], AwaitMessage(node.me));
    HandlerDecisionKeeps(node.me, node.session, h');
    var node' := node.(session := node.session.(handler := h'));
    assert Unannounced(node') == Unannounced(node);
    IndexChangeKeepsInv(o, s, i, h', index');
  }

  /** An ADD is always accepted: the number is in the directory and not yet in the index. */
  lemma AddIsAccepted(s: State, i: nat, node: Node, index': Index, ok: bool)
    requires NodeOk(s, i, node) && node.session.handler.todo == [] && node.session.handler.at.Adding?
    requires Atomic(AddRfc(node.session.handler.at.peer, node.session.handler.at.n), s.index, index', Flag(ok))
    ensures ok && node.session.handler.at.peer == node.me
    ensures var session := node.session.(handler := Party([EncodeInt(200)], AwaitMessage(node.me)));
      SessionInv(node.me, session) && Indexed(index', node.(session := session)) && Knows(s, i, node.(session := session))
    ensures forall p :: p != node.me ==> SameEntries(s.index, index', p)
  {
    var n := node.session.handler.at.n;
    assert n in Unannounced(node);
    AnnouncedIsLocal(s, i, node, n);
    var h' := Party([EncodeInt(200)], AwaitMessage(node.me));
    HandlerDecisionKeeps(node.me, node.session, h');
    var node' := node.(session := node.session.(handler := h'));
    assert forall m: int32 :: m in Unannounced(node') <==> m in Unannounced(node) && m != n;
  }

  lemma AddKeepsInv(o: State, s: State, i: nat, index': Index, ok: bool)
    requires Inv(o, s) && i < |s.nodes| && s.nodes[i].session.handler.todo == [] && s.nodes[i].session.handler.at.Adding?
    requires Atomic(AddRfc(s.nodes[i].session.handler.at.peer, s.nodes[i].session.handler.at.n), s.index, index', Flag(ok))
    ensures ok
    ensures Inv(o, WithSession(s, i, s.nodes[i].session.(handler := Party([EncodeInt(200)], AwaitMessage(s.nodes[i].me)))).(index := index'))
  {
    AddIsAccepted(s, i, s.nodes[i], index', ok);
    IndexChangeKeepsInv(o, s, i, Party([EncodeInt(200)], AwaitMessage(s.nodes[i].me)), index');
  }

  lemma AnnouncedIsLocal(s: State, i: nat, node: Node, n: int32)
    requires NodeOk(s, i, node) && AddsNumber(node.session.client.at, n)
    ensures n in node.dir
  {
  }

  lemma LeaveKeepsInv(o: State, s: State, i: nat, index': Index, reply: Reply)
    requires Inv(o, s) && i < |s.nodes| && s.nodes[i].session.handler.todo == [] && s.nodes[i].session.handler.at.Removing?
    requires Atomic(RemoveClient(s.nodes[i].session.handler.at.peer), s.index, index', reply)
    ensures Inv(o, WithSession(s, i, s.nodes[i].session.(handler := Party([], Closed))).(index := index'))
  {
    var node := s.nodes[i];
    assert NodeOk(s, i, node);
    var h' := Party([], Closed);
    HandlerDecisionKeeps(node.me, node.session, h');
    IndexChangeKeepsInv(o, s, i, h', index');
  }

  lemma EntriesHaveFiles(o: State, s: State, h: RfcHolder)
    requires Inv(o, s) && h in s.index.rfcs
    ensures HasFile(s, h.peer, h.rfc)
  {
    var i :| 0 <= i < |s.nodes| && s.nodes[i].me == h.peer;
    assert NodeOk(s, i, s.nodes[i]);
    assert h == RfcHolder(h.rfc, s.nodes[i].me);
  }

  /** A LIST body decodes to the very holders in the index. */
  lemma ListBodyDecodes(o: State, s: State, holders: seq<RfcHolder>, index': Index, body: Frame)
    requires Inv(o, s) && Atomic(AllRfcs, s.index, index', Holders(holders)) && IsListBody(holders, body)
    ensures var r := ResponseLists.Parse(ListResponse.HOLDER_PARSER, body);
      r.Parsed? && r.value.code == (if holders == [] then 404 else 200) && r.value.items == holders
  {
    forall h | h in holders ensures 0 !in h.peer.host {
      EntriesHaveFiles(o, s, h);
      var i :| 0 <= i < |s.nodes| && s.nodes[i].me == h.peer && h.rfc in s.nodes[i].dir;
      PeerIsClean(o, s, i);
    }
    assert body + [] == body;
    if holders != [] {
      ListResponse.RoundTripIff(holders, []);
    } else {
      ResponseLists.OtherCodesIgnoreTheRest(ListResponse.HOLDER_BYTES, ListResponse.HOLDER_PARSER, 404, holders, body, []);
    }
  }

  lemma ListBodyIsOk(o: State, s: State, holders: seq<RfcHolder>, index': Index, body: Frame)
    requires Inv(o, s) && Atomic(AllRfcs, s.index, index', Holders(holders)) && IsListBody(holders, body)
    ensures ListOk(s, body)
  {
    ListBodyDecodes(o, s, holders, index', body);
    forall h | h in holders ensures HasFile(s, h.peer, h.rfc) {
      EntriesHaveFiles(o, s, h);
    }
  }

  /** A LOOKUP body decodes to the very peers found. */
  lemma LookupBodyDecodes(o: State, s: State, n: int32, peers: seq<Peer>, index': Index, body: Frame)
    requires Inv(o, s) && Atomic(FindRfcs(n), s.index, index', Peers(peers)) && IsLookupBody(peers, body)
    ensures forall p :: p in peers <==> RfcHolder(n, p) in s.index.rfcs
    ensures var r := ResponseLists.Parse(LookupResponse.PEER_PARSER, body);
      r.Parsed? && r.value.code == (if peers == [] then 404 else 200) && r.value.items == peers
  {
    forall p ensures p in peers <==> RfcHolder(n, p) in s.index.rfcs {
      assert p in peers <==> p in PeersOf(s.index.rfcs, n);
    }
    forall p | p in peers ensures 0 !in p.host {
      EntriesHaveFiles(o, s, RfcHolder(n, p));
      var i :| 0 <= i < |s.nodes| && s.nodes[i].me == p && n in s.nodes[i].dir;
      PeerIsClean(o, s, i);
    }
    assert body + [] == body;
    if peers != [] {
      LookupResponse.RoundTripIff(peers, []);
    } else {
      ResponseLists.OtherCodesIgnoreTheRest(LookupResponse.PEER_BYTES, LookupResponse.PEER_PARSER, 404, peers, body, []);
    }
  }

  /** It offers peers that have the file, and never the peer that asks: what it has, it does not look up. */
  lemma LookupBodyIsOk(o: State, s: State, i: nat, n: int32, peers: seq<Peer>, index': Index, body: Frame)
    requires Inv(o, s) && i < |s.nodes| && n !in s.nodes[i].dir
    requires Atomic(FindRfcs(n), s.index, index', Peers(peers)) && IsLookupBody(peers, body)
    ensures LookupOk(s, s.nodes[i].me, n, body)
  {
    LookupBodyDecodes(o, s, n, peers, index', body);
    assert NodeOk(s, i, s.nodes[i]);
    forall p | p in peers ensures HasFile(s, p, n) && p != s.nodes[i].me {
      EntriesHaveFiles(o, s, RfcHolder(n, p));
    }
  }

  lemma ListKeepsInv(o: State, s: State, i: nat, holders: seq<RfcHolder>, index': Index, body: Frame)
    requires Inv(o, s) && i < |s.nodes| && s.nodes[i].session.handler.todo == [] && s.nodes[i].session.handler.at.Listing?
    requires Atomic(AllRfcs, s.index, index', Holders(holders)) && IsListBody(holders, body)
    ensures Inv(o, WithSession(s, i, s.nodes[i].session.(handler := Party(Sized(body), AwaitMessage(s.nodes[i].me)))).(index := index'))
  {
    ListBodyIsOk(o, s, holders, index', body);
    ReadReplyKeepsInv(o, s, i, index', body);
  }

  lemma LookupKeepsInv(o: State, s: State, i: nat, peers: seq<Peer>, index': Index, body: Frame)
    requires Inv(o, s) && i < |s.nodes| && s.nodes[i].session.handler.todo == [] && s.nodes[i].session.handler.at.LookingUp?
    requires Atomic(FindRfcs(s.nodes[i].session.handler.at.n), s.index, index', Peers(peers)) && IsLookupBody(peers, body)
    ensures Inv(o, WithSession(s, i, s.nodes[i].session.(handler := Party(Sized(body), AwaitMessage(s.nodes[i].me)))).(index := index'))
  {
    assert NodeOk(s, i, s.nodes[i]);
    LookupBodyIsOk(o, s, i, s.nodes[i].session.handler.at.n, peers, index', body);
    ReadReplyKeepsInv(o, s, i, index', body);
  }

  lemma ReadReplyKeepsInv(o: State, s: State, i: nat, index': Index, body: Frame)
    requires Inv(o, s) && i < |s.nodes| && s.nodes[i].session.handler.todo == [] && index' == s.index && |body| < TWO_TO_THE_31
    requires match s.nodes[i].session.handler.at
      case Listing(_) => ListOk(s, body)
      case LookingUp(_, n) => LookupOk(s, s.nodes[i].me, n, body)
      case _ => false
    ensures Inv(o, WithSession(s, i, s.nodes[i].session.(handler := Party(Sized(body), AwaitMessage(s.nodes[i].me)))).(index := index'))
  {
    var node := s.nodes[i];
    assert NodeOk(s, i, node);
    var h' := Party(Sized(body), AwaitMessage(node.me));
    ToInt32Identity(|body|);
    HandlerDecisionKeeps(node.me, node.session, h');
    var node' := node.(session := node.session.(handler := h'));
    assert Unannounced(node') == Unannounced(node) == {};
    IndexChangeKeepsInv(o, s, i, h', index');
  }

  lemma HandlerActKeepsInv(o: State, s: State, i: nat, index': Index, h': Party<HandlerAt>)
    requires Inv(o, s) && i < |s.nodes| && s.nodes[i].session.handler.todo == []
    requires HandlerActs(s.nodes[i].session.handler.at, s.index, index', h')
    ensures Inv(o, WithSession(s, i, s.nodes[i].session.(handler := h')).(index := index'))
  {
    assert NodeOk(s, i, s.nodes[i]);
    match s.nodes[i].session.handler.at
    case Joining(p) =>
      var reply :| Atomic(AddClient(p), s.index, index', reply);
      JoinKeepsInv(o, s, i, index', reply);
    case Adding(p, n) =>
      var ok :| Atomic(AddRfc(p, n), s.index, index', Flag(ok)) && h' == Party([EncodeInt(if ok then 200 else 400)], AwaitMessage(p));
      AddKeepsInv(o, s, i, index', ok);
    case Listing(p) =>
      var holders, body :| Atomic(AllRfcs, s.index, index', Holders(holders)) && IsListBody(holders, body)
                           && h' == Party(Sized(body), AwaitMessage(p));
      ListKeepsInv(o, s, i, holders, index', body);
    case LookingUp(p, n) =>
      var peers, body :| Atomic(FindRfcs(n), s.index, index', Peers(peers)) && IsLookupBody(peers, body)
                         && h' == Party(Sized(body), AwaitMessage(p));
      LookupKeepsInv(o, s, i, peers, index', body);
    case Removing(p) =>
      var reply :| Atomic(RemoveClient(p), s.index, index', reply);
      LeaveKeepsInv(o, s, i, index', reply);
    case _ =>
  }

  lemma RestartKeepsInv(o: State, s: State, i: nat)
    requires Inv(o, s) && i < |s.nodes|
    requires s.nodes[i].session.client == Party([], Quit) && s.nodes[i].session.handler == Party([], Closed)
    ensures Inv(o, WithSession(s, i, Fresh()))
  {
    var node := s.nodes[i];
    assert NodeOk(s, i, node);
    assert Fresh().ToHandler() == [EncodeInt(PROTOCOL_VERSION)] && Fresh().ToClient() == [EncodeInt(PROTOCOL_VERSION)];
    SessionChangeKeepsInv(o, s, i, Fresh());
  }

  // ---- Downloads ----

  lemma AuthenticIsText(o: State, n: int32, content: seq<byte>)
    requires Init(o) && content in Authentic(o, n)
    ensures IsText(content)
  {
  }

  function AfterConnect(s: State, i: nat, j: nat, n: int32): State
    requires i < |s.nodes|
  {
    WithClient(s, i, Party([], Fetching(n, |s.links|))).(links := s.links + [Opened(i, j, n, s.nodes[i].me)])
  }

  lemma ConnectIsOk(o: State, s: State, i: nat, j: nat)
    requires i < |s.nodes| && j < |s.nodes| && i != j && NodeOk(s, i, s.nodes[i])
    requires s.nodes[i].session.client.todo == [] && s.nodes[i].session.client.at.Connecting?
    requires var n := s.nodes[i].session.client.at.n; n in s.nodes[j].dir && 0 < n < 0x8000
    ensures var n := s.nodes[i].session.client.at.n; var s' := AfterConnect(s, i, j, n);
      NodeOk(s', i, s'.nodes[i]) && LinkOk(o, s', |s.links|, s'.links[|s.links|])
  {
    var node := s.nodes[i];
    var n := node.session.client.at.n;
    var s' := AfterConnect(s, i, j, n);
    ClientDecisionKeeps(node.me, node.session, Party([], Fetching(n, |s.links|)));
    assert Unannounced(s'.nodes[i]) == Unannounced(node) == {};
    OpenedInv(i, j, n, node.me, Authentic(o, n));
  }

  lemma ConnectKeepsInv(o: State, s: State, i: nat, j: nat)
    requires Inv(o, s) && i < |s.nodes| && j < |s.nodes|
    requires s.nodes[i].session.client.todo == [] && s.nodes[i].session.client.at.Connecting?
    requires s.nodes[j].me == s.nodes[i].session.client.at.peer
    ensures Inv(o, AfterConnect(s, i, j, s.nodes[i].session.client.at.n))
  {
    ConnectTarget(o, s, i, j);
    ConnectEnds(o, s, i, j);
    ChangeKeepsInv(o, s, AfterConnect(s, i, j, s.nodes[i].session.client.at.n), i);
  }

  lemma ConnectEnds(o: State, s: State, i: nat, j: nat)
    requires Inv(o, s) && i < |s.nodes| && j < |s.nodes| && i != j
    requires s.nodes[i].session.client.todo == [] && s.nodes[i].session.client.at.Connecting?
    requires var n := s.nodes[i].session.client.at.n; n in s.nodes[j].dir && 0 < n < 0x8000
    ensures var s' := AfterConnect(s, i, j, s.nodes[i].session.client.at.n);
      && Grows(s, s') && NodeOk(s', i, s'.nodes[i])
      && forall k :: 0 <= k < |s'.links| ==> LinkOk(o, s', k, s'.links[k])
  {
    var s' := AfterConnect(s, i, j, s.nodes[i].session.client.at.n);
    NodeIsOk(o, s, i);
    SessionChangeLeaves(s, i, s'.nodes[i].session, s');
    OtherLinksStayOk(o, s, |s.links|, s');
    ConnectIsOk(o, s, i, j);
  }

  /** The peer that a LOOKUP named is another one and has the file. */
  lemma ConnectTarget(o: State, s: State, i: nat, j: nat)
    requires Inv(o, s) && i < |s.nodes| && j < |s.nodes|
    requires s.nodes[i].session.client.at.Connecting? && s.nodes[j].me == s.nodes[i].session.client.at.peer
    ensures i != j && s.nodes[i].session.client.at.n in s.nodes[j].dir && 0 < s.nodes[i].session.client.at.n < 0x8000
  {
    var n := s.nodes[i].session.client.at.n;
    assert Knows(s, i, s.nodes[i]);
    var x :| 0 <= x < |s.nodes| && s.nodes[x].me == s.nodes[j].me && n in s.nodes[x].dir;
    if x != j { PeersDiffer(o, s, x, j); }
    assert DirOk(o, s.nodes[j]);
  }

  /** A change of one link that keeps its ends and the standing of its download. */
  lemma LinkChangeKeepsInv(o: State, s: State, k: nat, l: Link)
    requires Inv(o, s) && k < |s.links| && LinkOk(o, s, k, l)
    requires l.from == s.links[k].from && l.n == s.links[k].n
    ensures Inv(o, WithLink(s, k, l))
  {
    var s' := WithLink(s, k, l);
    LinkChangeLeaves(s, k, l);
    OtherLinkStaysOk(o, s, s', k, l);
    OtherLinksStayOk(o, s, k, s');
    LinkLeavesNodes(o, s, s', l.from);
    ChangeKeepsInv(o, s, s', l.from);
  }

  lemma LinkChangeLeaves(s: State, k: nat, l: Link)
    requires k < |s.links| && l.from == s.links[k].from && l.n == s.links[k].n
    ensures Grows(s, WithLink(s, k, l)) && OthersUndisturbed(s, WithLink(s, k, l), k)
  {
  }

  lemma LinkLeavesNodes(o: State, s: State, s': State, i: nat)
    requires Inv(o, s) && Grows(s, s') && s'.nodes == s.nodes && s'.index == s.index && i < |s.nodes|
    ensures NodeOk(s', i, s'.nodes[i]) && DirOk(o, s'.nodes[i])
  {
    NodeIsOk(o, s, i);
    OtherNodeStaysOk(s, s', i, s.nodes[i]);
  }

  lemma FetchSendKeepsInv(o: State, s: State, k: nat)
    requires Inv(o, s) && k < |s.links| && s.links[k].fetch.todo != []
    ensures var l := s.links[k];
      Inv(o, WithLink(s, k, l.(fetch := l.fetch.(todo := l.fetch.todo[1..]), up := l.up + [l.fetch.todo[0]])))
  {
    var l := s.links[k];
    assert LinkOk(o, s, k, l);
    FetchSendKeeps(s.nodes[l.from].me, l, Authentic(o, l.n));
    LinkChangeKeepsInv(o, s, k, l.(fetch := l.fetch.(todo := l.fetch.todo[1..]), up := l.up + [l.fetch.todo[0]]));
  }

  lemma ServeSendKeepsInv(o: State, s: State, k: nat)
    requires Inv(o, s) && k < |s.links| && s.links[k].serve.todo != []
    ensures var l := s.links[k];
      Inv(o, WithLink(s, k, l.(serve := l.serve.(todo := l.serve.todo[1..]), down := l.down + [l.serve.todo[0]])))
  {
    var l := s.links[k];
    assert LinkOk(o, s, k, l);
    ServeSendKeeps(s.nodes[l.from].me, l, Authentic(o, l.n));
    LinkChangeKeepsInv(o, s, k, l.(serve := l.serve.(todo := l.serve.todo[1..]), down := l.down + [l.serve.todo[0]]));
  }

  lemma ServeReceiveKeepsInv(o: State, s: State, k: nat)
    requires Inv(o, s) && k < |s.links| && CanReceive(s.links[k].serve, ServeExpects(s.links[k].serve.at), s.links[k].up)
    ensures Inv(o, WithLink(s, k, AfterServeReceives(s.links[k])))
  {
    var l := s.links[k];
    assert LinkOk(o, s, k, l);
    PeerIsClean(o, s, l.from);
    ServeReceiveKeeps(s.nodes[l.from].me, l, Authentic(o, l.n));
    LinkChangeKeepsInv(o, s, k, AfterServeReceives(l));
  }

  /** The file asked for is there, and travels unchanged. */
  lemma ServeReadFinds(o: State, s: State, k: nat)
    requires Inv(o, s) && k < |s.links| && s.links[k].serve.at.Reading?
    ensures var l := s.links[k];
      l.to < |s.nodes| && l.serve.at.n == l.n && RfcManager.Read(s.nodes[l.to].dir, l.n).Some?
      && RfcManager.Read(s.nodes[l.to].dir, l.n).value in Authentic(o, l.n)
  {
    var l := s.links[k];
    assert LinkOk(o, s, k, l);
    assert DirOk(o, s.nodes[l.to]);
    AuthenticIsText(o, l.n, s.nodes[l.to].dir[l.n]);
  }

  lemma ServeReadKeepsInv(o: State, s: State, k: nat, body: Frame)
    requires Inv(o, s) && k < |s.links| && s.links[k].serve.todo == [] && s.links[k].serve.at.Reading? && s.links[k].to < |s.nodes|
    requires IsGetBody(RfcManager.Read(s.nodes[s.links[k].to].dir, s.links[k].serve.at.n), body)
    ensures Inv(o, WithLink(s, k, s.links[k].(serve := Party(Sized(body), ServeMessage))))
  {
    var l := s.links[k];
    assert LinkOk(o, s, k, l);
    ServeReadFinds(o, s, k);
    var content := RfcManager.Read(s.nodes[l.to].dir, l.n).value;
    AuthenticIsText(o, l.n, content);
    ServeReadKeeps(s.nodes[l.from].me, l, content, body, Authentic(o, l.n));
    LinkChangeKeepsInv(o, s, k, l.(serve := Party(Sized(body), ServeMessage)));
  }

  lemma FetchSizeKeepsInv(o: State, s: State, k: nat)
    requires Inv(o, s) && k < |s.links| && s.links[k].fetch.at == WaitSize
    requires CanReceive(s.links[k].fetch, FetchExpects(s.links[k].fetch.at), s.links[k].down)
    ensures Inv(o, WithLink(s, k, AfterFetchReceives(s.links[k])))
  {
    var l := s.links[k];
    assert LinkOk(o, s, k, l);
    FetchReceiveKeeps(s.nodes[l.from].me, l, Authentic(o, l.n));
    LinkChangeKeepsInv(o, s, k, AfterFetchReceives(l));
  }

  function AfterStore(s: State, k: nat): State
    requires k < |s.links| && s.links[k].from < |s.nodes|
    requires CanReceive(s.links[k].fetch, FetchExpects(s.links[k].fetch.at), s.links[k].down)
  {
    Stored(WithLink(s, k, AfterFetchReceives(s.links[k])), s.links[k], FetchReceives(s.links[k].fetch.at, s.links[k].down[0]).1)
  }

  /** Storing the downloaded content: an authentic text, under the number asked for. */
  lemma StoreIsOk(o: State, s: State, k: nat)
    requires Init(o) && k < |s.links| && s.links[k].fetch.at.WaitBody? && LinkOk(o, s, k, s.links[k])
    requires CanReceive(s.links[k].fetch, FetchExpects(s.links[k].fetch.at), s.links[k].down)
    requires NodeOk(s, s.links[k].from, s.nodes[s.links[k].from]) && DirOk(o, s.nodes[s.links[k].from])
    ensures FetchReceives(s.links[k].fetch.at, s.links[k].down[0]).1.Some?
    ensures var s', from := AfterStore(s, k), s.links[k].from;
      && Grows(s, s') && OnlyDownload(s, s', k)
      && NodeOk(s', from, s'.nodes[from]) && DirOk(o, s'.nodes[from]) && LinkOk(o, s', k, s'.links[k])
  {
    var l, from := s.links[k], s.links[k].from;
    FetchReceiveKeeps(s.nodes[from].me, l, Authentic(o, l.n));
    var content := FetchReceives(l.fetch.at, l.down[0]).1.value;
    AuthenticIsText(o, l.n, content);
    assert RfcManager.WrittenAs(content) == content;
    var s' := AfterStore(s, k);
    assert Grows(s, s');
    assert Unannounced(s'.nodes[from]) == {l.n} && Unannounced(s.nodes[from]) == {};
  }

  lemma StoreKeepsInv(o: State, s: State, k: nat)
    requires Inv(o, s) && k < |s.links| && s.links[k].fetch.at.WaitBody?
    requires CanReceive(s.links[k].fetch, FetchExpects(s.links[k].fetch.at), s.links[k].down)
    ensures s.links[k].from < |s.nodes| && Inv(o, AfterStore(s, k))
  {
    var from := s.links[k].from;
    LinkIsOk(o, s, k);
    NodeIsOk(o, s, from);
    StoreIsOk(o, s, k);
    var s' := AfterStore(s, k);
    DownloadChangeKeepsInv(o, s, k, s');
  }

  function AfterFetchEnd(s: State, k: nat): State
    requires k < |s.links| && s.links[k].from < |s.nodes|
  {
    WithClient(WithLink(s, k, s.links[k].(fetch := Party([], Ended))), s.links[k].from, ClientNotifies(s.links[k].n))
  }

  lemma FetchEndIsOk(o: State, s: State, k: nat)
    requires k < |s.links| && s.links[k].fetch == Party([], Done) && LinkOk(o, s, k, s.links[k])
    requires NodeOk(s, s.links[k].from, s.nodes[s.links[k].from])
    ensures var s', from := AfterFetchEnd(s, k), s.links[k].from;
      && Grows(s, s') && OnlyDownload(s, s', k)
      && NodeOk(s', from, s'.nodes[from]) && LinkOk(o, s', k, s'.links[k])
  {
    var l, from := s.links[k], s.links[k].from;
    var node := s.nodes[from];
    ClientDecisionKeeps(node.me, node.session, ClientNotifies(l.n));
    var s' := AfterFetchEnd(s, k);
    assert s'.links[k].ToServer() == l.ToServer() && s'.links[k].ToFetcher() == l.ToFetcher();
    assert Unannounced(s'.nodes[from]) == {l.n} == Unannounced(node);
  }

  lemma FetchEndKeepsInv(o: State, s: State, k: nat)
    requires Inv(o, s) && k < |s.links| && s.links[k].fetch == Party([], Done)
    ensures s.links[k].from < |s.nodes| && Inv(o, AfterFetchEnd(s, k))
  {
    var from := s.links[k].from;
    LinkIsOk(o, s, k);
    NodeIsOk(o, s, from);
    FetchEndIsOk(o, s, k);
    var s' := AfterFetchEnd(s, k);
    DownloadChangeKeepsInv(o, s, k, s');
  }

  // ---- Every event, every run ----

  lemma NodeStepKeepsInv(o: State, s: State, e: Event, i: nat, s': State)
    requires Inv(o, s) && i < |s.nodes| && NodeStep(s, e, i, s')
    ensures Inv(o, s')
  {
    var node := s.nodes[i];
    match e
    case ClientSend(_) => ClientSendKeepsInv(o, s, i);
    case ClientReceive(_) =>
      var stored :| ListsKeys(stored, node.dir) && s' == WithSession(s, i, AfterClientReceives(node.me, stored, node.session));
      ClientReceiveKeepsInv(o, s, i, stored);
    case ClientContinue(_) => ClientContinueKeepsInv(o, s, i);
    case Obey(_, command) => ObeyKeepsInv(o, s, i, command);
    case HandlerSend(_) => HandlerSendKeepsInv(o, s, i);
    case HandlerReceive(_) => HandlerReceiveKeepsInv(o, s, i);
    case HandlerAct(_) =>
      var index', h' :| HandlerActs(node.session.handler.at, s.index, index', h')
                        && s' == WithSession(s, i, node.session.(handler := h')).(index := index');
      HandlerActKeepsInv(o, s, i, index', h');
    case Connect(_, j) => ConnectKeepsInv(o, s, i, j);
    case Restart(_) => RestartKeepsInv(o, s, i);
    case _ =>
  }

  lemma LinkStepKeepsInv(o: State, s: State, e: Event, k: nat, s': State)
    requires Inv(o, s) && k < |s.links| && s.links[k].from < |s.nodes| && s.links[k].to < |s.nodes| && LinkStep(s, e, k, s')
    ensures Inv(o, s')
  {
    var l := s.links[k];
    match e
    case FetchSend(_) => FetchSendKeepsInv(o, s, k);
    case FetchReceive(_) => FetchReceiveKeepsInv(o, s, k, s');
    case FetchEnd(_) => FetchEndKeepsInv(o, s, k);
    case ServeSend(_) => ServeSendKeepsInv(o, s, k);
    case ServeReceive(_) => ServeReceiveKeepsInv(o, s, k);
    case ServeRead(_) =>
      var body :| IsGetBody(RfcManager.Read(s.nodes[l.to].dir, l.serve.at.n), body)
                  && s' == WithLink(s, k, l.(serve := Party(Sized(body), ServeMessage)));
      ServeReadKeepsInv(o, s, k, body);
    case _ =>
  }

  lemma FetchReceiveKeepsInv(o: State, s: State, k: nat, s': State)
    requires Inv(o, s) && k < |s.links| && s.links[k].from < |s.nodes| && s.links[k].to < |s.nodes| && LinkStep(s, FetchReceive(k), k, s')
    ensures Inv(o, s')
  {
    var l := s.links[k];
    assert LinkOk(o, s, k, l);
    FetchReceiveKeeps(s.nodes[l.from].me, l, Authentic(o, l.n));
    if l.fetch.at == WaitSize {
      FetchSizeKeepsInv(o, s, k);
    } else {
      StoreKeepsInv(o, s, k);
    }
  }

  lemma StepKeepsInv(o: State, s: State, e: Event, s': State)
    requires Inv(o, s) && Step(s, e, s')
    ensures Inv(o, s')
  {
    if IsLinkEvent(e) {
      LinkStepKeepsInv(o, s, e, e.k, s');
    } else {
      NodeStepKeepsInv(o, s, e, e.i, s');
    }
  }

  lemma InitIsInv(o: State)
    requires Init(o)
    ensures Inv(o, o)
  {
    assert Fresh().ToHandler() == [EncodeInt(PROTOCOL_VERSION)] && Fresh().ToClient() == [EncodeInt(PROTOCOL_VERSION)];
    forall i | 0 <= i < |o.nodes| ensures NodeOk(o, i, o.nodes[i]) && DirOk(o, o.nodes[i]) {
      var node := o.nodes[i];
      assert SessionInv(node.me, node.session);
      assert Indexed(o.index, node);
      assert Knows(o, i, node);
    }
  }

  lemma {:induction false} RunKeepsInv(states: seq<State>, events: seq<Event>, t: nat)
    requires IsRun(states, events) && t < |states|
    ensures Inv(states[0], states[t])
  {
    if t == 0 {
      InitIsInv(states[0]);
    } else {
      RunKeepsInv(states, events, t - 1);
      assert StepAt(states, events, t - 1);
      StepKeepsInv(states[0], states[t - 1], events[t - 1], states[t]);
    }
  }
}
