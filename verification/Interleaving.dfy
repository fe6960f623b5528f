/**
 The programs inside the whole system: what a handler of the index server, or the serving end of a download,
 does in any run of the system is a run of its specification among others, as its program is. What it will still
 be sent is taken from the run, since a receive waits for it.
 */
module Interleaving {
  import opened Bytes
  import opened IndexSpec
  import opened Protocol
  import opened Session
  import opened Download
  import opened System
  import opened SystemInvariant
  import opened SystemTheorems
  import opened Paths
  import opened Refinement
  import Server
  import PeerServer

  // ---- Handlers of the index server ----

  /** What the client of peer `i` sends from state `t` to state `u`. */
  function SentUp(states: seq<State>, events: seq<Event>, t: nat, u: nat, i: nat): seq<Frame>
    requires t <= u <= |events| <= |states|
    decreases u - t
  {
    if t == u then []
    else
      var s := states[t];
      (if i < |s.nodes| then NowUp(s, events[t], i) else []) + SentUp(states, events, t + 1, u, i)
  }

  /** The handler of peer `i`, with all that it will have been sent by state `u`. */
  function Account(states: seq<State>, events: seq<Event>, t: nat, u: nat, i: nat, sent: seq<Frame>, added: set<int32>): Server.Config
    requires t <= u <= |events| && |states| == |events| + 1 && i < |states[t].nodes|
  {
    var s := states[t];
    Server.Config(s.nodes[i].session.handler, s.index, s.nodes[i].session.up + SentUp(states, events, t, u, i), sent, added)
  }

  /** The frame that the client of peer `i` sends by an event. */
  function NowUp(s: State, e: Event, i: nat): seq<Frame>
    requires i < |s.nodes|
  {
    if e == ClientSend(i) && s.nodes[i].session.client.todo != [] then [s.nodes[i].session.client.todo[0]] else []
  }

  /** The handler of peer `i` is left alone, and so are the entries of its peer. */
  ghost predicate LeftAlone(s: State, e: Event, s': State, i: nat)
    requires i < |s.nodes| == |s'.nodes|
  {
    && s'.nodes[i].session.handler == s.nodes[i].session.handler
    && SameEntries(s.index, s'.index, s.nodes[i].me)
    && s'.nodes[i].session.up == s.nodes[i].session.up + NowUp(s, e, i)
  }

  /** An event of another party leaves the handler of `i` alone. */
  lemma OthersLeaveHandler(o: State, s: State, e: Event, s': State, i: nat)
    requires Inv(o, s) && Step(s, e, s') && i < |s.nodes| && e != Restart(i) && !OfHandler(e, i)
    ensures |s'.nodes| == |s.nodes| && LeftAlone(s, e, s', i)
  {
    OtherSessionStays(s, e, s', i);
    if e.HandlerAct? {
      NodeIsOk(o, s, e.i);
      PeersDiffer(o, s, e.i, i);
      ActTouchesOwn(s, e.i, s', s.nodes[i].me);
    } else {
      IndexStays(s, e, s');
    }
  }

  lemma ActTouchesOwn(s: State, j: nat, s': State, q: Peer)
    requires j < |s.nodes| && NodeStep(s, HandlerAct(j), j, s') && SessionInv(s.nodes[j].me, s.nodes[j].session) && q != s.nodes[j].me
    ensures SameEntries(s.index, s'.index, q)
  {
  }

  lemma IndexStays(s: State, e: Event, s': State)
    requires Step(s, e, s') && !e.HandlerAct?
    ensures s'.index == s.index
  {
  }

  lemma OtherSessionStays(s: State, e: Event, s': State, i: nat)
    requires Step(s, e, s') && i < |s.nodes| && e != Restart(i) && !OfHandler(e, i)
    ensures |s'.nodes| == |s.nodes| && s'.nodes[i].session.handler == s.nodes[i].session.handler
    ensures s'.nodes[i].session.up == s.nodes[i].session.up + NowUp(s, e, i)
  {
    assert s.nodes[i].session.up + [] == s.nodes[i].session.up;
  }

  lemma PeersStay(states: seq<State>, events: seq<Event>, t: nat, i: nat)
    requires IsRun(states, events) && t < |events| && i < |states[t].nodes|
    ensures |states[t + 1].nodes| == |states[t].nodes| && states[t + 1].nodes[i].me == states[t].nodes[i].me
  {
    RunKeepsInv(states, events, t);
    RunKeepsInv(states, events, t + 1);
    PeersOfRun(states[0], states[t], i);
    PeersOfRun(states[0], states[t + 1], i);
  }

  lemma PeersOfRun(o: State, s: State, i: nat)
    requires Inv(o, s)
    ensures |s.nodes| == |o.nodes| && (i < |s.nodes| ==> s.nodes[i].me == o.nodes[i].me)
  {
  }

  lemma LeftAloneAt(states: seq<State>, events: seq<Event>, t: nat, i: nat)
    requires IsRun(states, events) && t < |events| && i < |states[t].nodes| && events[t] != Restart(i) && !OfHandler(events[t], i)
    ensures i < |states[t].nodes| == |states[t + 1].nodes| && LeftAlone(states[t], events[t], states[t + 1], i)
  {
    RunKeepsInv(states, events, t);
    assert StepAt(states, events, t);
    OthersLeaveHandler(states[0], states[t], events[t], states[t + 1], i);
  }

  /** One event of the system is one move of the handler among others. */
  lemma EventIsMove(states: seq<State>, events: seq<Event>, t: nat, u: nat, i: nat, sent: seq<Frame>, added: set<int32>)
      returns (sent': seq<Frame>, added': set<int32>)
    requires IsRun(states, events) && t < u <= |events| && i < |states[t].nodes| && events[t] != Restart(i)
    ensures i < |states[t + 1].nodes| && states[t + 1].nodes[i].me == states[t].nodes[i].me
    ensures Server.Move(iset{states[t].nodes[i].me}, Account(states, events, t, u, i, sent, added),
                                                     Account(states, events, t + 1, u, i, sent', added'))
  {
    PeersStay(states, events, t, i);
    var later := SentUp(states, events, t + 1, u, i);
    if OfHandler(events[t], i) {
      assert StepAt(states, events, t);
      assert [] + later == later;
      sent', added' := OwnStepIsMove(states[t], events[t], states[t + 1], i, later, sent, added);
    } else {
      LeftAloneAt(states, events, t, i);
      sent', added' := sent, added;
      LeftAloneIsMove(states[t], events[t], states[t + 1], i, later, sent, added);
    }
  }

  lemma LeftAloneIsMove(s: State, e: Event, s': State, i: nat, later: seq<Frame>, sent: seq<Frame>, added: set<int32>)
    requires i < |s.nodes| == |s'.nodes| && LeftAlone(s, e, s', i)
    ensures Server.Others(iset{s.nodes[i].me},
              Server.Config(s.nodes[i].session.handler, s.index, s.nodes[i].session.up + (NowUp(s, e, i) + later), sent, added),
              Server.Config(s'.nodes[i].session.handler, s'.index, s'.nodes[i].session.up + later, sent, added))
  {
    assert (s.nodes[i].session.up + NowUp(s, e, i)) + later == s.nodes[i].session.up + (NowUp(s, e, i) + later);
  }

  lemma OwnStepIsMove(s: State, e: Event, s': State, i: nat, later: seq<Frame>, sent: seq<Frame>, added: set<int32>)
      returns (sent': seq<Frame>, added': set<int32>)
    requires i < |s.nodes| && Step(s, e, s') && OfHandler(e, i)
    ensures |s'.nodes| == |s.nodes|
    ensures Server.OwnMove(
              Server.Config(s.nodes[i].session.handler, s.index, s.nodes[i].session.up + later, sent, added),
              Server.Config(s'.nodes[i].session.handler, s'.index, s'.nodes[i].session.up + later, sent', added'))
  {
    var session := s.nodes[i].session;
    var c := Server.Config(session.handler, s.index, session.up + later, sent, added);
    sent', added' := sent, added;
    if e.HandlerSend? {
      sent' := sent + [session.handler.todo[0]];
    } else if e.HandlerReceive? {
      HeadOf(session.up, later);
    } else {
      added' := Server.AddedBy(c);
      assert Server.Acts(c, Server.Config(s'.nodes[i].session.handler, s'.index, session.up + later, sent, added'));
    }
  }

  /**
   In every run of the system, as long as peer `i` does not restart, its handler does what its specification may
   do among others who leave the entries of peer `i` alone.
   */
  lemma {:induction false} HandlerRunsAmongOthers(states: seq<State>, events: seq<Event>, t: nat, u: nat, i: nat, sent: seq<Frame>, added: set<int32>)
      returns (sent': seq<Frame>, added': set<int32>)
    requires IsRun(states, events) && t <= u <= |events| && i < |states[t].nodes|
    requires forall v :: t <= v < u ==> events[v] != Restart(i)
    ensures i < |states[u].nodes|
    ensures Reaches(Server.Moves(iset{states[t].nodes[i].me}), Account(states, events, t, u, i, sent, added),
                                                               Account(states, events, u, u, i, sent', added'))
    decreases u - t
  {
    var moves := Server.Moves(iset{states[t].nodes[i].me});
    if t == u {
      sent', added' := sent, added;
      ReachesItself(moves, Account(states, events, t, u, i, sent, added));
    } else {
      var sent1, added1 := EventIsMove(states, events, t, u, i, sent, added);
      sent', added' := HandlerRunsAmongOthers(states, events, t + 1, u, i, sent1, added1);
      ReachesFrom(moves, Account(states, events, t, u, i, sent, added), Account(states, events, t + 1, u, i, sent1, added1),
                         Account(states, events, u, u, i, sent', added'));
    }
  }

  // ---- Serving ends of downloads ----

  /** The frame that the downloading end of link `k` sends by an event. */
  function NowAsked(s: State, e: Event, k: nat): seq<Frame>
    requires k < |s.links|
  {
    if e == FetchSend(k) && s.links[k].fetch.todo != [] then [s.links[k].fetch.todo[0]] else []
  }

  /** What the downloading end of link `k` sends from state `t` to state `u`. */
  function Asked(states: seq<State>, events: seq<Event>, t: nat, u: nat, k: nat): seq<Frame>
    requires t <= u <= |events| <= |states|
    decreases u - t
  {
    if t == u then []
    else
      var s := states[t];
      (if k < |s.links| then NowAsked(s, events[t], k) else []) + Asked(states, events, t + 1, u, k)
  }

  function ServeAccount(states: seq<State>, events: seq<Event>, t: nat, u: nat, k: nat, sent: seq<Frame>): PeerServer.Config
    requires t <= u <= |events| && |states| == |events| + 1 && k < |states[t].links| && states[t].links[k].to < |states[t].nodes|
  {
    var s := states[t];
    PeerServer.Config(s.links[k].serve, s.nodes[s.links[k].to].dir, s.links[k].up + Asked(states, events, t, u, k), sent)
  }

  lemma ServeStepIsMove(s: State, e: Event, s': State, k: nat, later: seq<Frame>, sent: seq<Frame>) returns (sent': seq<Frame>)
    requires Step(s, e, s') && FilesKept(s, s') && k < |s.links| && s.links[k].to < |s.nodes|
    ensures k < |s'.links| && s'.links[k].to == s.links[k].to && |s'.nodes| == |s.nodes|
    ensures PeerServer.Move(
              PeerServer.Config(s.links[k].serve, s.nodes[s.links[k].to].dir, s.links[k].up + (NowAsked(s, e, k) + later), sent),
              PeerServer.Config(s'.links[k].serve, s'.nodes[s.links[k].to].dir, s'.links[k].up + later, sent'))
  {
    if OfServer(e, k) {
      assert [] + later == later;
      sent' := ServeEventIsMove(s, e, s', k, later, sent);
    } else {
      sent' := sent;
      OtherStepIsMove(s, e, s', k, later, sent);
    }
  }

  lemma OtherStepIsMove(s: State, e: Event, s': State, k: nat, later: seq<Frame>, sent: seq<Frame>)
    requires Step(s, e, s') && FilesKept(s, s') && k < |s.links| && s.links[k].to < |s.nodes| && !OfServer(e, k)
    ensures k < |s'.links| && s'.links[k].to == s.links[k].to
    ensures PeerServer.Others(
              PeerServer.Config(s.links[k].serve, s.nodes[s.links[k].to].dir, s.links[k].up + (NowAsked(s, e, k) + later), sent),
              PeerServer.Config(s'.links[k].serve, s'.nodes[s.links[k].to].dir, s'.links[k].up + later, sent))
  {
    OthersLeaveServer(s, e, s', k);
    assert (s.links[k].up + NowAsked(s, e, k)) + later == s.links[k].up + (NowAsked(s, e, k) + later);
  }

  lemma OthersLeaveServer(s: State, e: Event, s': State, k: nat)
    requires Step(s, e, s') && k < |s.links| && !OfServer(e, k)
    ensures k < |s'.links| && s'.links[k].to == s.links[k].to && s'.links[k].serve == s.links[k].serve
    ensures s'.links[k].up == s.links[k].up + NowAsked(s, e, k)
  {
    assert s.links[k].up + [] == s.links[k].up;
  }

  lemma ServeEventIsMove(s: State, e: Event, s': State, k: nat, later: seq<Frame>, sent: seq<Frame>) returns (sent': seq<Frame>)
    requires Step(s, e, s') && k < |s.links| && s.links[k].to < |s.nodes| && OfServer(e, k)
    ensures k < |s'.links| && s'.links[k].to == s.links[k].to && s'.nodes == s.nodes
    ensures PeerServer.OwnMove(PeerServer.Config(s.links[k].serve, s.nodes[s.links[k].to].dir, s.links[k].up + later, sent),
                               PeerServer.Config(s'.links[k].serve, s'.nodes[s.links[k].to].dir, s'.links[k].up + later, sent'))
  {
    var l := s.links[k];
    sent' := sent;
    if e.ServeSend? {
      sent' := sent + [l.serve.todo[0]];
    } else if e.ServeReceive? {
      HeadOf(l.up, later);
    }
  }

  /** In every run of the system, the serving end of a download does what its specification may do among growing files. */
  lemma {:induction false} ServerRunsAmongOthers(states: seq<State>, events: seq<Event>, t: nat, u: nat, k: nat, sent: seq<Frame>)
      returns (sent': seq<Frame>)
    requires IsRun(states, events) && t <= u <= |events| && k < |states[t].links| && states[t].links[k].to < |states[t].nodes|
    ensures k < |states[u].links| && states[u].links[k].to < |states[u].nodes|
    ensures Reaches(PeerServer.MOVES, ServeAccount(states, events, t, u, k, sent), ServeAccount(states, events, u, u, k, sent'))
    decreases u - t
  {
    var c := ServeAccount(states, events, t, u, k, sent);
    if t == u {
      sent' := sent;
      ReachesItself(PeerServer.MOVES, c);
    } else {
      var sent1 := ServeEventAt(states, events, t, u, k, sent);
      var d := ServeAccount(states, events, t + 1, u, k, sent1);
      assert PeerServer.MOVES(c, d);
      sent' := ServerRunsAmongOthers(states, events, t + 1, u, k, sent1);
      ReachesFrom(PeerServer.MOVES, c, d, ServeAccount(states, events, u, u, k, sent'));
    }
  }

  lemma ServeEventAt(states: seq<State>, events: seq<Event>, t: nat, u: nat, k: nat, sent: seq<Frame>) returns (sent': seq<Frame>)
    requires IsRun(states, events) && t < u <= |events| && k < |states[t].links| && states[t].links[k].to < |states[t].nodes|
    ensures k < |states[t + 1].links| && states[t + 1].links[k].to < |states[t + 1].nodes|
    ensures PeerServer.Move(ServeAccount(states, events, t, u, k, sent), ServeAccount(states, events, t + 1, u, k, sent'))
  {
    RunKeepsInv(states, events, t);
    assert StepAt(states, events, t);
    StepKeepsFiles(states[0], states[t], events[t], states[t + 1]);
    sent' := ServeStepIsMove(states[t], events[t], states[t + 1], k, Asked(states, events, t + 1, u, k), sent);
  }
}
