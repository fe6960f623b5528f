/**
 The client's program inside the whole system: what the client of a peer does in any run of the system, its
 downloads included, is a run of the specification of its program. A download is one move of that specification and
 many events here; what the other peer sends in it is what the link has delivered.
 */
module ClientRuns {
  import opened Bytes
  import opened Sorting
  import opened IndexSpec
  import opened Records
  import opened Protocol
  import opened Session
  import opened Download
  import opened System
  import opened SystemInvariant
  import opened SystemTheorems
  import opened Paths
  import RfcManager
  import Refinement
  import Interleaving
  import PeerProgram

  // ---- What downloads deliver ----

  /** The frame that the downloading end of link `k` receives by an event. */
  function NowHeard(s: State, e: Event, k: nat): seq<Frame> {
    if e == FetchReceive(k) && k < |s.links| && s.links[k].down != [] then [s.links[k].down[0]] else []
  }

  /** The frames that it has received before state `t`. */
  function Heard(states: seq<State>, events: seq<Event>, t: nat, k: nat): seq<Frame>
    requires t <= |events| <= |states|
  {
    if t == 0 then [] else Heard(states, events, t - 1, k) + NowHeard(states[t - 1], events[t - 1], k)
  }

  /** What has been heard, wherever the download stands; once done, the file holds it. */
  ghost predicate HeardFits(s: State, k: nat, heard: seq<Frame>)
    requires k < |s.links|
  {
    var l := s.links[k];
    match l.fetch.at
    case WaitSize => heard == []
    case WaitBody(size) => |heard| == 1 && |heard[0]| == INT_SIZE && DecodeInt(heard[0]) == size
    case Done =>
      && PeerProgram.Download(l.n, heard).Stored? && l.from < |s.nodes| && l.n in s.nodes[l.from].dir
      && s.nodes[l.from].dir[l.n] == RfcManager.WrittenAs(PeerProgram.Download(l.n, heard).content)
    case Ended => PeerProgram.Download(l.n, heard).Stored?
    case _ => false
  }

  lemma {:induction false} NothingHeardBefore(states: seq<State>, events: seq<Event>, t: nat, k: nat)
    requires IsRun(states, events) && t < |states| && k >= |states[t].links|
    ensures Heard(states, events, t, k) == []
  {
    if t > 0 {
      LinksNeverFewer(states, events, t - 1);
      NothingHeardBefore(states, events, t - 1, k);
    }
  }

  lemma LinksNeverFewer(states: seq<State>, events: seq<Event>, t: nat)
    requires IsRun(states, events) && t < |events|
    ensures |states[t].links| <= |states[t + 1].links|
  {
    assert StepAt(states, events, t);
    StepKeepsLinks(states[t], events[t], states[t + 1]);
  }

  lemma StepKeepsLinks(s: State, e: Event, s': State)
    requires Step(s, e, s')
    ensures |s.links| <= |s'.links|
    ensures forall k :: 0 <= k < |s.links| ==> s'.links[k].from == s.links[k].from && s'.links[k].to == s.links[k].to && s'.links[k].n == s.links[k].n
  {
  }

  lemma {:induction false} HeardAlwaysFits(states: seq<State>, events: seq<Event>, t: nat, k: nat)
    requires IsRun(states, events) && t < |states| && k < |states[t].links|
    ensures HeardFits(states[t], k, Heard(states, events, t, k))
  {
    if t > 0 {
      if k < |states[t - 1].links| {
        HeardAlwaysFits(states, events, t - 1, k);
        NextHeardFits(states, events, t - 1, k, Heard(states, events, t - 1, k));
      } else {
        NothingHeardBefore(states, events, t - 1, k);
        assert StepAt(states, events, t - 1);
        NewLinkWaits(states[t - 1], events[t - 1], states[t], k);
      }
    }
  }

  lemma NewLinkWaits(s: State, e: Event, s': State, k: nat)
    requires Step(s, e, s') && |s.links| <= k < |s'.links|
    ensures s'.links[k].fetch.at == WaitSize && !e.FetchReceive?
  {
  }

  lemma NextHeardFits(states: seq<State>, events: seq<Event>, t: nat, k: nat, heard: seq<Frame>)
    requires IsRun(states, events) && t < |events| && k < |states[t].links| && HeardFits(states[t], k, heard)
    ensures k < |states[t + 1].links| && HeardFits(states[t + 1], k, heard + NowHeard(states[t], events[t], k))
  {
    var s, e, s' := states[t], events[t], states[t + 1];
    RunKeepsInv(states, events, t);
    assert StepAt(states, events, t);
    StepKeepsLinks(s, e, s');
    if e == FetchReceive(k) {
      LinkIsOk(states[0], s, k);
      HearingFits(s, k, s', Authentic(states[0], s.links[k].n), heard);
    } else {
      StepKeepsFiles(states[0], s, e, s');
      OtherEventFits(s, e, s', k, heard);
    }
  }

  lemma HearingFits(s: State, k: nat, s': State, contents: iset<seq<byte>>, heard: seq<Frame>)
    requires Step(s, FetchReceive(k), s') && HeardFits(s, k, heard) && LinkInv(s.nodes[s.links[k].from].me, s.links[k], contents)
    ensures k < |s'.links| && HeardFits(s', k, heard + NowHeard(s, FetchReceive(k), k))
  {
    FetchReceiveKeeps(s.nodes[s.links[k].from].me, s.links[k], contents);
    if s.links[k].fetch.at == WaitSize {
      SizeFits(s, k, s', heard);
    } else {
      BodyFits(s, k, s', heard);
    }
  }

  lemma SizeFits(s: State, k: nat, s': State, heard: seq<Frame>)
    requires Step(s, FetchReceive(k), s') && HeardFits(s, k, heard) && s.links[k].fetch.at == WaitSize
    ensures k < |s'.links| && HeardFits(s', k, heard + NowHeard(s, FetchReceive(k), k))
  {
    assert heard + [s.links[k].down[0]] == [s.links[k].down[0]];
  }

  lemma BodyFits(s: State, k: nat, s': State, heard: seq<Frame>)
    requires Step(s, FetchReceive(k), s') && HeardFits(s, k, heard) && s.links[k].fetch.at.WaitBody? && 0 < s.links[k].n < 0x8000
    requires FetchReceives(s.links[k].fetch.at, s.links[k].down[0]).1.Some? && AfterFetchReceives(s.links[k]).fetch.at == Done
    ensures k < |s'.links| && HeardFits(s', k, heard + NowHeard(s, FetchReceive(k), k))
  {
    assert heard + [s.links[k].down[0]] == [heard[0], s.links[k].down[0]];
  }

  lemma OtherEventFits(s: State, e: Event, s': State, k: nat, heard: seq<Frame>)
    requires Step(s, e, s') && k < |s.links| && e != FetchReceive(k) && HeardFits(s, k, heard) && FilesKept(s, s')
    ensures k < |s'.links| && HeardFits(s', k, heard + NowHeard(s, e, k))
  {
    assert heard + [] == heard;
    OtherEventLeavesFetch(s, e, s', k);
  }

  lemma OtherEventLeavesFetch(s: State, e: Event, s': State, k: nat)
    requires Step(s, e, s') && k < |s.links| && e != FetchReceive(k)
    ensures k < |s'.links| && s'.links[k].from == s.links[k].from && s'.links[k].n == s.links[k].n
    ensures s'.links[k].fetch.at == s.links[k].fetch.at || (s.links[k].fetch.at == Done && s'.links[k].fetch.at == Ended)
  {
  }

  // ---- The client and its downloads ----

  /** The client as its program's specification sees it: in a download it is still about to make it. */
  function ClientOf(s: State, i: nat): Party<ClientAt>
    requires i < |s.nodes|
  {
    var c := s.nodes[i].session.client;
    if c.at.Fetching? && c.at.link < |s.links| && s.links[c.at.link].to < |s.nodes|
    then Party([], Connecting(c.at.n, s.nodes[s.links[c.at.link].to].me))
    else c
  }

  /** So is its directory: a download is one move. */
  function DirOf(s: State, i: nat): map<int32, seq<byte>>
    requires i < |s.nodes|
  {
    var at := s.nodes[i].session.client.at;
    if at.Fetching? then s.nodes[i].dir - {at.n} else s.nodes[i].dir
  }

  function NowDown(s: State, e: Event, i: nat): seq<Frame>
    requires i < |s.nodes|
  {
    if e == HandlerSend(i) && s.nodes[i].session.handler.todo != [] then [s.nodes[i].session.handler.todo[0]] else []
  }

  /** What the handler of peer `i` sends from state `t` to state `u`. */
  function SentDown(states: seq<State>, events: seq<Event>, t: nat, u: nat, i: nat): seq<Frame>
    requires t <= u <= |events| <= |states|
    decreases u - t
  {
    if t == u then []
    else (if i < |states[t].nodes| then NowDown(states[t], events[t], i) else []) + SentDown(states, events, t + 1, u, i)
  }

  function NowObeyed(e: Event, i: nat): seq<Command> {
    if e.Obey? && e.i == i then [e.command] else []
  }

  /** The commands that the user of peer `i` gives from state `t` to state `u`. */
  function Given(events: seq<Event>, t: nat, u: nat, i: nat): seq<Command>
    requires t <= u <= |events|
    decreases u - t
  {
    if t == u then [] else NowObeyed(events[t], i) + Given(events, t + 1, u, i)
  }

  predicate EndsDownload(s: State, e: Event, i: nat) {
    e.FetchEnd? && e.k < |s.links| && s.links[e.k].from == i
  }

  /** What the x-th peer contacted sends, when `c` have been contacted before state `t`. */
  function Served(states: seq<State>, events: seq<Event>, t: nat, u: nat, i: nat, c: nat, x: nat): seq<Frame>
    requires t <= u <= |events| <= |states|
    decreases u - t
  {
    if t == u then []
    else if EndsDownload(states[t], events[t], i) then
      if x == c then Heard(states, events, t, events[t].k) else Served(states, events, t + 1, u, i, c + 1, x)
    else Served(states, events, t + 1, u, i, c, x)
  }

  function Account(states: seq<State>, events: seq<Event>, t: nat, u: nat, i: nat, contacts: nat, sent: seq<Frame>): PeerProgram.Config
    requires t <= u <= |events| && |states| == |events| + 1 && i < |states[t].nodes|
  {
    var s := states[t];
    PeerProgram.Config(ClientOf(s, i), DirOf(s, i), Given(events, t, u, i), contacts,
                       s.nodes[i].session.down + SentDown(states, events, t, u, i), sent)
  }

  // ---- One event ----

  /** A socket call, a decision or a command. */
  predicate OwnEvent(e: Event, i: nat) {
    match e
    case ClientSend(j) => j == i
    case ClientReceive(j) => j == i
    case ClientContinue(j) => j == i
    case Obey(j, _) => j == i
    case _ => false
  }

  lemma OwnEventIsMove(w: PeerProgram.World, s: State, e: Event, s': State, i: nat, commands: seq<Command>, contacts: nat, later: seq<Frame>, sent: seq<Frame>)
      returns (sent': seq<Frame>)
    requires Step(s, e, s') && OwnEvent(e, i) && i < |s.nodes| && w.me == s.nodes[i].me
    requires !s.nodes[i].session.client.at.Fetching?
    ensures |s'.nodes| == |s.nodes| && !s'.nodes[i].session.client.at.Fetching? && s'.nodes[i].dir == s.nodes[i].dir
    ensures PeerProgram.Move(w,
              PeerProgram.Config(s.nodes[i].session.client, s.nodes[i].dir, NowObeyed(e, i) + commands, contacts, s.nodes[i].session.down + later, sent),
              PeerProgram.Config(s'.nodes[i].session.client, s.nodes[i].dir, commands, contacts, s'.nodes[i].session.down + later, sent'))
  {
    var session := s.nodes[i].session;
    var c := PeerProgram.Config(session.client, s.nodes[i].dir, NowObeyed(e, i) + commands, contacts, session.down + later, sent);
    sent' := sent;
    match e
    case ClientSend(_) =>
      sent' := sent + [session.client.todo[0]];
    case ClientReceive(_) =>
      var stored :| ListsKeys(stored, s.nodes[i].dir) && s' == WithSession(s, i, AfterClientReceives(s.nodes[i].me, stored, session));
      HeadOf(session.down, later);
      Refinement.SameListings(stored, s.nodes[i].dir);
      assert PeerProgram.Receives(w, c, PeerProgram.Received(w, stored, c));
    case ClientContinue(_) =>
    case Obey(_, command) =>
      assert ([command] + commands)[1..] == commands;
  }

  /** The end of a download is the move in which the specification makes it. */
  lemma EndIsDownload(w: PeerProgram.World, s: State, k: nat, s': State, i: nat, commands: seq<Command>, contacts: nat,
                      incoming: seq<Frame>, sent: seq<Frame>, heard: seq<Frame>)
    requires Step(s, FetchEnd(k), s') && s.links[k].from == i < |s.nodes| && s.links[k].to < |s.nodes|
    requires s.nodes[i].session.client == Party([], Fetching(s.links[k].n, k)) && HeardFits(s, k, heard)
    requires w.network(s.nodes[s.links[k].to].me, contacts) == heard
    ensures |s'.nodes| == |s.nodes| && s'.nodes[i].session.down == s.nodes[i].session.down
    ensures PeerProgram.Downloads(w,
              PeerProgram.Config(ClientOf(s, i), DirOf(s, i), commands, contacts, incoming, sent),
              PeerProgram.Config(ClientOf(s', i), DirOf(s', i), commands, contacts + 1, incoming, sent))
  {
    var n := s.links[k].n;
    assert s'.nodes[i].session.client == ClientNotifies(n) && s'.nodes[i].dir == s.nodes[i].dir;
    assert (s.nodes[i].dir - {n})[n := s.nodes[i].dir[n]] == s.nodes[i].dir;
  }

  /** Where the client's download stands. */
  ghost predicate DownloadStands(s: State, i: nat)
    requires i < |s.nodes|
  {
    var at := s.nodes[i].session.client.at;
    && (at.Fetching? ==> s.nodes[i].session.client.todo == [] && at.link < |s.links|)
    && (at.Connecting? ==> at.n !in s.nodes[i].dir)
    && forall k :: 0 <= k < |s.links| ==> LinkStands(s, i, k)
  }

  ghost predicate LinkStands(s: State, i: nat, k: nat)
    requires i < |s.nodes| && k < |s.links|
  {
    && s.links[k].to < |s.nodes|
    && (s.links[k].from == i && s.links[k].fetch.at != Ended ==>
          s.nodes[i].session.client == Party([], Fetching(s.links[k].n, k)) && s.links[k].fetch.at != Missed)
  }

  lemma DownloadAlwaysStands(o: State, s: State, i: nat)
    requires Inv(o, s) && i < |s.nodes|
    ensures DownloadStands(s, i)
  {
    NodeIsOk(o, s, i);
    ClientStands(s, i);
    forall k | 0 <= k < |s.links| ensures LinkStands(s, i, k) {
      LinkIsOk(o, s, k);
      LinkAlwaysStands(o, s, i, k);
    }
  }

  lemma ClientStands(s: State, i: nat)
    requires i < |s.nodes| && Knows(s, i, s.nodes[i])
    ensures var c := s.nodes[i].session.client;
      (c.at.Fetching? ==> c.todo == [] && c.at.link < |s.links|) && (c.at.Connecting? ==> c.at.n !in s.nodes[i].dir)
  {
  }

  lemma LinkAlwaysStands(o: State, s: State, i: nat, k: nat)
    requires i < |s.nodes| && k < |s.links| && LinkOk(o, s, k, s.links[k])
    ensures LinkStands(s, i, k)
  {
  }

  /** Any other event leaves the client as its program's specification sees it. */
  ghost predicate Unseen(s: State, e: Event, s': State, i: nat)
    requires i < |s.nodes| == |s'.nodes|
  {
    ClientOf(s', i) == ClientOf(s, i) && DirOf(s', i) == DirOf(s, i) && s'.nodes[i].session.down == s.nodes[i].session.down + NowDown(s, e, i)
  }

  lemma ConnectIsUnseen(s: State, j: nat, s': State, i: nat)
    requires Step(s, Connect(i, j), s') && i < |s.nodes| && DownloadStands(s, i)
    ensures |s'.nodes| == |s.nodes| && Unseen(s, Connect(i, j), s', i)
  {
    assert s.nodes[i].session.down + [] == s.nodes[i].session.down;
    assert s'.nodes[j].me == s.nodes[j].me;
  }

  lemma FetchReceiveIsUnseen(s: State, k: nat, s': State, i: nat)
    requires Step(s, FetchReceive(k), s') && i < |s.nodes| && s.links[k].from == i && DownloadStands(s, i)
    requires !FetchReceives(s.links[k].fetch.at, s.links[k].down[0]).0.at.Missed?
    ensures |s'.nodes| == |s.nodes| && Unseen(s, FetchReceive(k), s', i)
  {
    assert s.nodes[i].session.down + [] == s.nodes[i].session.down;
    var n := s.links[k].n;
    assert LinkStands(s, i, k);
    assert s.nodes[i].session.client == Party([], Fetching(n, k));
    assert s'.links[k].to == s.links[k].to && forall j :: 0 <= j < |s.nodes| ==> s'.nodes[j].me == s.nodes[j].me;
    assert s'.nodes[i].dir - {n} == s.nodes[i].dir - {n};
  }

  lemma OtherEventIsUnseen(s: State, e: Event, s': State, i: nat)
    requires Step(s, e, s') && i < |s.nodes| && !OwnEvent(e, i) && e != Restart(i) && DownloadStands(s, i)
    requires !(e.Connect? && e.i == i) && !(e.FetchReceive? && s.links[e.k].from == i) && !EndsDownload(s, e, i)
    ensures |s'.nodes| == |s.nodes| && Unseen(s, e, s', i)
  {
    assert s.nodes[i].session.down + [] == s.nodes[i].session.down;
    OtherEventLeavesClient(s, e, s', i);
    var at := s.nodes[i].session.client.at;
    if at.Fetching? { assert LinkStands(s, i, at.link); }
  }

  lemma OtherEventLeavesClient(s: State, e: Event, s': State, i: nat)
    requires Step(s, e, s') && i < |s.nodes| && !OwnEvent(e, i) && e != Restart(i)
    requires !(e.Connect? && e.i == i) && !(e.FetchReceive? && s.links[e.k].from == i) && !EndsDownload(s, e, i)
    ensures |s'.nodes| == |s.nodes| && s'.nodes[i].session.client == s.nodes[i].session.client && s'.nodes[i].dir == s.nodes[i].dir
    ensures s'.nodes[i].session.down == s.nodes[i].session.down + NowDown(s, e, i)
    ensures |s.links| <= |s'.links| && forall k :: 0 <= k < |s.links| ==> s'.links[k].to == s.links[k].to
    ensures forall j :: 0 <= j < |s.nodes| ==> s'.nodes[j].me == s.nodes[j].me
  {
    assert s.nodes[i].session.down + [] == s.nodes[i].session.down;
  }

  // ---- Whole runs ----

  ghost predicate ServesRun(w: PeerProgram.World, states: seq<State>, events: seq<Event>, t: nat, u: nat, i: nat, contacts: nat)
    requires t <= u <= |events| && |states| == |events| + 1
  {
    forall p: Peer, x: nat :: x >= contacts ==> w.network(p, x) == Served(states, events, t, u, i, contacts, x)
  }

  lemma EventIsUnseen(states: seq<State>, events: seq<Event>, t: nat, i: nat)
    requires IsRun(states, events) && t < |events| && i < |states[t].nodes| && events[t] != Restart(i)
    requires !OwnEvent(events[t], i) && !EndsDownload(states[t], events[t], i)
    ensures i < |states[t].nodes| == |states[t + 1].nodes| && Unseen(states[t], events[t], states[t + 1], i)
  {
    var s, e, s' := states[t], events[t], states[t + 1];
    RunKeepsInv(states, events, t);
    assert StepAt(states, events, t);
    DownloadAlwaysStands(states[0], s, i);
    if e.Connect? && e.i == i {
      ConnectIsUnseen(s, e.j, s', i);
    } else if e.FetchReceive? && s.links[e.k].from == i {
      LinkIsOk(states[0], s, e.k);
      NeverMisses(states[0], s, e.k, s');
      FetchReceiveIsUnseen(s, e.k, s', i);
    } else {
      OtherEventIsUnseen(s, e, s', i);
    }
  }

  lemma NeverMisses(o: State, s: State, k: nat, s': State)
    requires Step(s, FetchReceive(k), s') && LinkOk(o, s, k, s.links[k])
    ensures !FetchReceives(s.links[k].fetch.at, s.links[k].down[0]).0.at.Missed?
  {
    FetchReceiveKeeps(s.nodes[s.links[k].from].me, s.links[k], Authentic(o, s.links[k].n));
  }

  lemma OwnEventAt(w: PeerProgram.World, states: seq<State>, events: seq<Event>, t: nat, u: nat, i: nat, contacts: nat, sent: seq<Frame>)
      returns (sent': seq<Frame>)
    requires IsRun(states, events) && t < u <= |events| && i < |states[t].nodes| && OwnEvent(events[t], i) && w.me == states[t].nodes[i].me
    ensures i < |states[t + 1].nodes|
    ensures PeerProgram.Move(w, Account(states, events, t, u, i, contacts, sent), Account(states, events, t + 1, u, i, contacts, sent'))
  {
    RunKeepsInv(states, events, t);
    assert StepAt(states, events, t);
    NotFetching(states[0], states[t], events[t], states[t + 1], i);
    sent' := OwnEventIsMove(w, states[t], events[t], states[t + 1], i, Given(events, t + 1, u, i), contacts,
                            SentDown(states, events, t + 1, u, i), sent);
    assert [] + SentDown(states, events, t + 1, u, i) == SentDown(states, events, t + 1, u, i);
  }

  lemma NotFetching(o: State, s: State, e: Event, s': State, i: nat)
    requires Inv(o, s) && Step(s, e, s') && OwnEvent(e, i) && i < |s.nodes|
    ensures !s.nodes[i].session.client.at.Fetching?
  {
    DownloadAlwaysStands(o, s, i);
    IdleInDownload(s, e, s', i);
  }

  lemma IdleInDownload(s: State, e: Event, s': State, i: nat)
    requires i < |s.nodes| && DownloadStands(s, i) && Step(s, e, s') && OwnEvent(e, i)
    ensures !s.nodes[i].session.client.at.Fetching?
  {
  }

  lemma EndStands(states: seq<State>, events: seq<Event>, t: nat, k: nat)
    requires IsRun(states, events) && t < |events| && events[t] == FetchEnd(k) && k < |states[t].links|
    ensures var s := states[t];
      s.links[k].from < |s.nodes| && s.links[k].to < |s.nodes|
      && s.nodes[s.links[k].from].session.client == Party([], Fetching(s.links[k].n, k))
  {
    RunKeepsInv(states, events, t);
    assert StepAt(states, events, t);
    LinkIsOk(states[0], states[t], k);
  }

  lemma EndAt(w: PeerProgram.World, states: seq<State>, events: seq<Event>, t: nat, u: nat, i: nat, contacts: nat, sent: seq<Frame>)
    requires IsRun(states, events) && t < u <= |events| && i < |states[t].nodes| && EndsDownload(states[t], events[t], i)
    requires ServesRun(w, states, events, t, u, i, contacts)
    ensures i < |states[t + 1].nodes|
    ensures PeerProgram.Downloads(w, Account(states, events, t, u, i, contacts, sent), Account(states, events, t + 1, u, i, contacts + 1, sent))
  {
    var s, k := states[t], events[t].k;
    assert StepAt(states, events, t);
    HeardAlwaysFits(states, events, t, k);
    EndStands(states, events, t, k);
    assert [] + SentDown(states, events, t + 1, u, i) == SentDown(states, events, t + 1, u, i);
    assert [] + Given(events, t + 1, u, i) == Given(events, t + 1, u, i);
    EndIsDownload(w, s, k, states[t + 1], i, Given(events, t, u, i), contacts,
                  s.nodes[i].session.down + SentDown(states, events, t, u, i), sent, Heard(states, events, t, k));
  }

  lemma UnseenAt(states: seq<State>, events: seq<Event>, t: nat, u: nat, i: nat, contacts: nat, sent: seq<Frame>)
    requires IsRun(states, events) && t < u <= |events| && i < |states[t].nodes| && events[t] != Restart(i)
    requires !OwnEvent(events[t], i) && !EndsDownload(states[t], events[t], i)
    ensures i < |states[t + 1].nodes|
    ensures Account(states, events, t + 1, u, i, contacts, sent) == Account(states, events, t, u, i, contacts, sent)
  {
    EventIsUnseen(states, events, t, i);
    var now, later := NowDown(states[t], events[t], i), SentDown(states, events, t + 1, u, i);
    assert (states[t].nodes[i].session.down + now) + later == states[t].nodes[i].session.down + (now + later);
    assert [] + Given(events, t + 1, u, i) == Given(events, t + 1, u, i);
  }

  /**
   In every run of the system, as long as peer `i` does not restart, its client does what the specification of its
   program may do with the user's commands, the index's answers and the peers' responses of that run.
   */
  lemma {:induction false} ClientFollowsProgram(w: PeerProgram.World, states: seq<State>, events: seq<Event>, t: nat, u: nat, i: nat, contacts: nat, sent: seq<Frame>)
      returns (contacts': nat, sent': seq<Frame>)
    requires IsRun(states, events) && t <= u <= |events| && i < |states[t].nodes| && w.me == states[t].nodes[i].me
    requires ServesRun(w, states, events, t, u, i, contacts)
    requires forall v :: t <= v < u ==> events[v] != Restart(i)
    ensures i < |states[u].nodes|
    ensures Reaches(PeerProgram.Moves(w), Account(states, events, t, u, i, contacts, sent), Account(states, events, u, u, i, contacts', sent'))
    decreases u - t
  {
    var moves, c := PeerProgram.Moves(w), Account(states, events, t, u, i, contacts, sent);
    if t == u {
      contacts', sent' := contacts, sent;
      ReachesItself(moves, c);
    } else {
      Interleaving.PeersStay(states, events, t, i);
      if OwnEvent(events[t], i) {
        var sent1 := OwnEventAt(w, states, events, t, u, i, contacts, sent);
        contacts', sent' := ClientFollowsProgram(w, states, events, t + 1, u, i, contacts, sent1);
        ReachesFrom(moves, c, Account(states, events, t + 1, u, i, contacts, sent1), Account(states, events, u, u, i, contacts', sent'));
      } else if EndsDownload(states[t], events[t], i) {
        EndAt(w, states, events, t, u, i, contacts, sent);
        contacts', sent' := ClientFollowsProgram(w, states, events, t + 1, u, i, contacts + 1, sent);
        ReachesFrom(moves, c, Account(states, events, t + 1, u, i, contacts + 1, sent), Account(states, events, u, u, i, contacts', sent'));
      } else {
        UnseenAt(states, events, t, u, i, contacts, sent);
        contacts', sent' := ClientFollowsProgram(w, states, events, t + 1, u, i, contacts, sent);
      }
    }
  }

  /** The peers' responses of the run are such a world. */
  lemma ClientRunsItsProgram(states: seq<State>, events: seq<Event>, t: nat, u: nat, i: nat, sent: seq<Frame>)
      returns (w: PeerProgram.World, contacts: nat, sent': seq<Frame>)
    requires IsRun(states, events) && t <= u <= |events| && i < |states[t].nodes|
    requires forall v :: t <= v < u ==> events[v] != Restart(i)
    ensures w.me == states[t].nodes[i].me && ServesRun(w, states, events, t, u, i, 0) && i < |states[u].nodes|
    ensures Reaches(PeerProgram.Moves(w), Account(states, events, t, u, i, 0, sent), Account(states, events, u, u, i, contacts, sent'))
  {
    w := PeerProgram.World(states[t].nodes[i].me, (p, x) => Served(states, events, t, u, i, 0, x));
    contacts, sent' := ClientFollowsProgram(w, states, events, t, u, i, 0, sent);
  }
}
