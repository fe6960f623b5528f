/**
 Sessions and downloads come to an end: the work each has left shrinks with every event of its own, and so
 does the work of the whole system as long as no user gives a command and no peer restarts.
 */
module Completion {
  import opened Bytes
  import opened IndexSpec
  import opened Records
  import opened Protocol
  import opened Session
  import opened Download
  import opened System
  import opened SystemInvariant
  import opened Progress
  import opened Sorting
  import RfcManager

  // ---- Work of a session ----

  function ClientWork(at: ClientAt, files: nat): nat {
    match at
    case WaitVersion => 40 + 30 * files
    case Announce(rest) => 1 + 30 * |rest|
    case WaitAnnounced(rest) => if rest == [] then 1 else 1 + 30 * (|rest| - 1)
    case WaitLookupSize(_) => 98   // connecting, a download of 75 and a notification of 22
    case WaitLookup(_, _) => 98
    case Connecting(_, _) => 98
    case Fetching(_, _) => 22
    case _ => 0
  }

  function HandlerWork(at: HandlerAt): nat {
    match at
    case Joining(_) => 5
    case Adding(_, _) => 5
    case Listing(_) => 5
    case LookingUp(_, _) => 5
    case Removing(_) => 5
    case _ => 0
  }

  /** A bound on the events that the session, and a download it leads to, have left before its client waits for its user. */
  function SessionWork(session: Session, files: nat): nat {
    11 * |session.client.todo| + 10 * |session.up| + ClientWork(session.client.at, files)
    + 2 * |session.handler.todo| + |session.down| + HandlerWork(session.handler.at)
  }

  function Work(node: Node): nat {
    SessionWork(node.session, |node.dir|)
  }

  lemma ListedOnce(stored: seq<int32>, dir: map<int32, seq<byte>>)
    requires ListsKeys(stored, dir)
    ensures |stored| <= |dir|
  {
    assert forall a, b :: 0 <= a < b < |stored| ==> RfcManager.ASCENDING(stored[a], stored[b]);
    StrictLength(RfcManager.ASCENDING, stored, dir.Keys);
    assert |dir.Keys| == |dir|;
  }

  lemma ClientReceiveWorks(s: State, i: nat, s': State)
    requires i < |s.nodes| && NodeStep(s, ClientReceive(i), i, s')
    ensures i < |s'.nodes| && Work(s'.nodes[i]) < Work(s.nodes[i])
  {
    var node := s.nodes[i];
    var stored :| ListsKeys(stored, node.dir) && s' == WithSession(s, i, AfterClientReceives(node.me, stored, node.session));
    ListedOnce(stored, node.dir);
    ReplyWorks(node.me, stored, node.session, |node.dir|);
  }

  lemma ReplyWorks(me: Peer, stored: seq<int32>, session: Session, files: nat)
    requires CanReceive(session.client, ClientExpects(session.client.at), session.down) && |stored| <= files
    ensures SessionWork(AfterClientReceives(me, stored, session), files) < SessionWork(session, files)
  {
  }

  /** Every event of a session leaves it less to do. */
  lemma SessionEventWorks(s: State, e: Event, s': State, i: nat)
    requires Step(s, e, s') && OfSession(e, i)
    ensures i < |s.nodes| == |s'.nodes| && Work(s'.nodes[i]) < Work(s.nodes[i])
  {
    if e.ClientReceive? {
      ClientReceiveWorks(s, i, s');
    }
  }

  /** The events that give the client of peer `i` something new to do. */
  predicate Starts(e: Event, i: nat) {
    match e
    case Obey(j, _) => j == i
    case Restart(j) => j == i
    case _ => false
  }

  /** No other event gives it more. */
  lemma OtherEventsAddNothing(o: State, s: State, e: Event, s': State, i: nat)
    requires Inv(o, s) && Step(s, e, s') && i < |s.nodes| && !OfSession(e, i) && !Starts(e, i)
    ensures |s'.nodes| == |s.nodes| && Work(s'.nodes[i]) <= Work(s.nodes[i])
  {
    if IsLinkEvent(e) {
      LinkIsOk(o, s, e.k);
      LinkEventLeavesWork(s, e, s', i);
    } else if e.Connect? {
      ConnectLeavesWork(s, e, s', i);
    } else {
      OthersLeaveNode(s, e, s', i);
    }
  }

  lemma ConnectLeavesWork(s: State, e: Event, s': State, i: nat)
    requires Step(s, e, s') && i < |s.nodes| && e.Connect?
    ensures |s'.nodes| == |s.nodes|
    ensures Work(s'.nodes[i]) == Work(s.nodes[i]) - (if e.i == i then 76 else 0)
  {
  }

  lemma LinkEventLeavesWork(s: State, e: Event, s': State, i: nat)
    requires Step(s, e, s') && IsLinkEvent(e) && i < |s.nodes|
    requires s.links[e.k].fetch.at != Ended ==> s.nodes[s.links[e.k].from].session.client == Party([], Fetching(s.links[e.k].n, e.k))
    ensures |s'.nodes| == |s.nodes| && Work(s'.nodes[i]) <= Work(s.nodes[i])
  {
    if e.FetchReceive? {
      FetchReceiveLeavesWork(s, e.k, s', i);
    } else if e.FetchEnd? {
      assert s.links[e.k].fetch.at != Ended;
    }
  }

  lemma FetchReceiveLeavesWork(s: State, k: nat, s': State, i: nat)
    requires k < |s.links| && s.links[k].from < |s.nodes| && s.links[k].to < |s.nodes| && LinkStep(s, FetchReceive(k), k, s')
    requires i < |s.nodes|
    requires s.links[k].fetch.at != Ended ==> s.nodes[s.links[k].from].session.client == Party([], Fetching(s.links[k].n, k))
    ensures |s'.nodes| == |s.nodes| && Work(s'.nodes[i]) <= Work(s.nodes[i])
  {
    assert s.links[k].fetch.at != Ended;
  }

  lemma OthersLeaveNode(s: State, e: Event, s': State, i: nat)
    requires Step(s, e, s') && i < |s.nodes| && !OfSession(e, i) && !Starts(e, i) && !IsLinkEvent(e) && !e.Connect?
    ensures |s'.nodes| == |s.nodes| && s'.nodes[i] == s.nodes[i]
  {
  }

  /** The events of the session of peer `i` among `events`. */
  function Count(events: seq<Event>, i: nat): nat {
    if events == [] then 0
    else Count(events[..|events| - 1], i) + (if OfSession(events[|events| - 1], i) then 1 else 0)
  }

  /**
   Until its client is given something new to do, a session takes part in no more events than the work
   it had to do, whatever the rest of the system does meanwhile.
   */
  lemma {:induction false} SessionsFinish(states: seq<State>, events: seq<Event>, t: nat, u: nat, i: nat)
    requires IsRun(states, events) && t <= u < |states| && i < |states[t].nodes|
    requires forall v :: t <= v < u ==> !Starts(events[v], i)
    ensures i < |states[u].nodes| && Count(events[t..u], i) + Work(states[u].nodes[i]) <= Work(states[t].nodes[i])
  {
    if t < u {
      SessionsFinish(states, events, t, u - 1, i);
      assert events[t..u][..u - 1 - t] == events[t..u - 1];
      OneMoreEvent(states, events, u - 1, i);
    }
  }

  lemma OneMoreEvent(states: seq<State>, events: seq<Event>, v: nat, i: nat)
    requires IsRun(states, events) && v < |events| && i < |states[v].nodes| && !Starts(events[v], i)
    ensures i < |states[v + 1].nodes|
    ensures (if OfSession(events[v], i) then 1 else 0) + Work(states[v + 1].nodes[i]) <= Work(states[v].nodes[i])
  {
    RunKeepsInv(states, events, v);
    assert StepAt(states, events, v);
    EventNeverAddsWork(states[0], states[v], events[v], states[v + 1], i);
  }

  lemma EventNeverAddsWork(o: State, s: State, e: Event, s': State, i: nat)
    requires Inv(o, s) && Step(s, e, s') && i < |s.nodes| && !Starts(e, i)
    ensures i < |s'.nodes| && (if OfSession(e, i) then 1 else 0) + Work(s'.nodes[i]) <= Work(s.nodes[i])
  {
    if OfSession(e, i) {
      SessionEventWorks(s, e, s', i);
    } else {
      OtherEventsAddNothing(o, s, e, s', i);
    }
  }

  /** A command takes at most 120 events, from the request to the prompt, a download and its notification included. */
  lemma CommandIsShort(s: State, i: nat, command: Command, s': State)
    requires Step(s, Obey(i, command), s') && Resting(s.nodes[i].me, s.nodes[i].session)
    ensures i < |s'.nodes| && Work(s'.nodes[i]) <= 120
  {
  }

  // ---- Work of a download ----

  function FetchWork(at: FetchAt): nat {
    match at
    case WaitSize => 20
    case WaitBody(_) => 20
    case Done => 1
    case _ => 0
  }

  function LinkWork(l: Link): nat {
    11 * |l.fetch.todo| + 10 * |l.up| + FetchWork(l.fetch.at)
    + 2 * |l.serve.todo| + |l.down| + (if l.serve.at.Reading? then 5 else 0)
  }

  /** Every event of a download leaves it less to do, and none of another adds to it. */
  lemma LinkEventWorks(s: State, e: Event, s': State, k: nat)
    requires Step(s, e, s') && k < |s.links|
    ensures k < |s'.links|
    ensures OfLink(e, k) ==> LinkWork(s'.links[k]) < LinkWork(s.links[k])
    ensures !OfLink(e, k) ==> s'.links[k] == s.links[k]
  {
    if e.FetchReceive? {
      FetchReceiveWorks(s, e.k, s');
    }
  }

  lemma FetchReceiveWorks(s: State, k: nat, s': State)
    requires k < |s.links| && s.links[k].from < |s.nodes| && s.links[k].to < |s.nodes| && LinkStep(s, FetchReceive(k), k, s')
    ensures |s'.links| == |s.links| && LinkWork(s'.links[k]) < LinkWork(s.links[k])
    ensures forall x :: 0 <= x < |s.links| && x != k ==> s'.links[x] == s.links[x]
  {
    assert s'.links == s.links[k := AfterFetchReceives(s.links[k])];
  }

  // ---- Work of the whole system ----

  function NodesWork(nodes: seq<Node>): nat {
    if nodes == [] then 0 else Work(nodes[0]) + NodesWork(nodes[1..])
  }

  function LinksWork(links: seq<Link>): nat {
    if links == [] then 0 else LinkWork(links[0]) + LinksWork(links[1..])
  }

  function Total(s: State): nat {
    NodesWork(s.nodes) + LinksWork(s.links)
  }

  /** Work that grows nowhere, and shrinks by `less` at `i`, shrinks in all. */
  lemma {:induction false} NodesShrink(before: seq<Node>, after: seq<Node>, i: nat, less: nat)
    requires |after| == |before| && (less > 0 ==> i < |before| && Work(after[i]) + less <= Work(before[i]))
    requires forall j :: 0 <= j < |before| ==> Work(after[j]) <= Work(before[j])
    ensures NodesWork(after) + less <= NodesWork(before)
  {
    if before != [] {
      if i == 0 {
        NodesShrink(before[1..], after[1..], 0, 0);
      } else {
        NodesShrink(before[1..], after[1..], i - 1, less);
      }
    }
  }

  lemma {:induction false} LinksShrink(before: seq<Link>, after: seq<Link>, k: nat, less: nat)
    requires |after| == |before| && (less > 0 ==> k < |before| && LinkWork(after[k]) + less <= LinkWork(before[k]))
    requires forall x :: 0 <= x < |before| ==> LinkWork(after[x]) <= LinkWork(before[x])
    ensures LinksWork(after) + less <= LinksWork(before)
  {
    if before != [] {
      if k == 0 {
        LinksShrink(before[1..], after[1..], 0, 0);
      } else {
        LinksShrink(before[1..], after[1..], k - 1, less);
      }
    }
  }

  lemma {:induction false} LinksAppend(links: seq<Link>, l: Link)
    ensures LinksWork(links + [l]) == LinksWork(links) + LinkWork(l)
  {
    if links != [] {
      assert (links + [l])[1..] == links[1..] + [l];
      LinksAppend(links[1..], l);
    }
  }

  /** A command of a user, or a peer that comes back. */
  predicate FromOutside(e: Event) {
    e.Obey? || e.Restart?
  }

  /** Every event but a command or a restart lowers the work of the system. */
  lemma EventLowersTotal(o: State, s: State, e: Event, s': State)
    requires Inv(o, s) && Step(s, e, s') && !FromOutside(e)
    ensures Total(s') < Total(s)
  {
    NodesNeverGrow(o, s, e, s');
    StepLowersTotal(s, e, s');
  }

  /** No peer has more to do than before. */
  ghost predicate NoneGrows(s: State, s': State) {
    |s'.nodes| == |s.nodes| && forall j :: 0 <= j < |s.nodes| ==> Work(s'.nodes[j]) <= Work(s.nodes[j])
  }

  lemma StepLowersTotal(s: State, e: Event, s': State)
    requires Step(s, e, s') && !FromOutside(e) && NoneGrows(s, s')
    ensures Total(s') < Total(s)
  {
    if IsLinkEvent(e) {
      LinkEventLowers(s, e, s');
      NodesShrink(s.nodes, s'.nodes, 0, 0);
    } else if e.Connect? {
      ConnectLowers(s, e, s');
    } else {
      SessionEventLowers(s, e, s');
    }
  }

  lemma SessionEventLowers(s: State, e: Event, s': State)
    requires Step(s, e, s') && !FromOutside(e) && !IsLinkEvent(e) && !e.Connect?
    requires NoneGrows(s, s')
    ensures Total(s') < Total(s)
  {
    SessionEventWorks(s, e, s', e.i);
    LinksStay(s, e, s');
    NodesShrink(s.nodes, s'.nodes, e.i, 1);
  }

  lemma NodesNeverGrow(o: State, s: State, e: Event, s': State)
    requires Inv(o, s) && Step(s, e, s') && !FromOutside(e)
    ensures NoneGrows(s, s')
  {
    NodesNeverFewer(s, e, s');
    forall j | 0 <= j < |s.nodes| ensures Work(s'.nodes[j]) <= Work(s.nodes[j]) {
      EventNeverAddsWork(o, s, e, s', j);
    }
  }

  lemma NodesNeverFewer(s: State, e: Event, s': State)
    requires Step(s, e, s')
    ensures |s'.nodes| == |s.nodes|
  {
  }

  lemma LinksStay(s: State, e: Event, s': State)
    requires Step(s, e, s') && !IsLinkEvent(e) && !e.Connect?
    ensures s'.links == s.links
  {
  }

  lemma LinkEventLowers(s: State, e: Event, s': State)
    requires Step(s, e, s') && IsLinkEvent(e)
    ensures LinksWork(s'.links) < LinksWork(s.links)
  {
    LinksNeverFewer(s, e, s');
    forall x | 0 <= x < |s.links| ensures LinkWork(s'.links[x]) + (if x == e.k then 1 else 0) <= LinkWork(s.links[x]) {
      LinkEventWorks(s, e, s', x);
    }
    LinksShrink(s.links, s'.links, e.k, 1);
  }

  lemma LinksNeverFewer(s: State, e: Event, s': State)
    requires Step(s, e, s') && IsLinkEvent(e)
    ensures |s'.links| == |s.links|
  {
  }

  lemma ConnectLowers(s: State, e: Event, s': State)
    requires Step(s, e, s') && e.Connect?
    ensures Total(s') < Total(s)
  {
    forall j | 0 <= j < |s.nodes| ensures Work(s'.nodes[j]) == Work(s.nodes[j]) - (if e.i == j then 76 else 0) {
      ConnectLeavesWork(s, e, s', j);
    }
    NodesShrink(s.nodes, s'.nodes, e.i, 76);
    var l := s'.links[|s.links|];
    LinksAppend(s.links, l);
    assert LinkWork(l) == 75;
  }

  /** Left to itself for `u - t` events, the system has that much less to do: no schedule goes on for ever. */
  lemma {:induction false} WorkRunsOut(states: seq<State>, events: seq<Event>, t: nat, u: nat)
    requires IsRun(states, events) && t <= u < |states| && forall v :: t <= v < u ==> !FromOutside(events[v])
    ensures (u - t) + Total(states[u]) <= Total(states[t])
  {
    if t < u {
      WorkRunsOut(states, events, t, u - 1);
      EventAtLowers(states, events, u - 1);
    }
  }

  lemma EventAtLowers(states: seq<State>, events: seq<Event>, v: nat)
    requires IsRun(states, events) && v < |events| && !FromOutside(events[v])
    ensures Total(states[v + 1]) < Total(states[v])
  {
    RunKeepsInv(states, events, v);
    assert StepAt(states, events, v);
    EventLowersTotal(states[0], states[v], events[v], states[v + 1]);
  }

  /** No event can happen but a command or a restart. */
  ghost predicate Stopped(s: State) {
    forall e :: Enabled(s, e) ==> FromOutside(e)
  }

  ghost predicate AnyOverloaded(s: State) {
    exists i :: 0 <= i < |s.nodes| && Overloaded(s, i)
  }

  /** Where every schedule must stop, all is done: the system is at rest, unless an answer of two gigabytes is owed. */
  lemma StopsAtRest(states: seq<State>, events: seq<Event>, t: nat)
    requires IsRun(states, events) && t < |states| && Stopped(states[t])
    ensures AtRest(states[t]) || AnyOverloaded(states[t])
  {
    NeverStuck(states, events, t);
    forall i ensures !SessionMoves(states[t], i) {
      NothingMoves(states[t], i);
    }
    forall k ensures !LinkMoves(states[t], k) {
      NothingMoves(states[t], k);
    }
  }

  lemma NothingMoves(s: State, x: nat)
    requires Stopped(s)
    ensures !SessionMoves(s, x) && !LinkMoves(s, x)
  {
  }

  /** From every state of every run the system can come to such a stop, within the work it has left, and from then on at rest. */
  lemma {:induction false} CanStop(states: seq<State>, events: seq<Event>) returns (longer: seq<State>, more: seq<Event>)
    requires IsRun(states, events)
    ensures IsRun(longer, more) && states <= longer && events <= more && |more| <= |events| + Total(states[|events|])
    ensures forall v :: |events| <= v < |more| ==> !FromOutside(more[v])
    ensures Stopped(longer[|more|]) && (AtRest(longer[|more|]) || AnyOverloaded(longer[|more|]))
    decreases Total(states[|events|])
  {
    var s := states[|events|];
    if e :| Enabled(s, e) && !FromOutside(e) {
      var s' :| Step(s, e, s');
      OneEventMore(states, events, e, s');
      longer, more := CanStop(states + [s'], events + [e]);
      assert states <= states + [s'] <= longer && events <= events + [e] <= more;
      assert more[|events|] == e;
    } else {
      longer, more := states, events;
      StopsAtRest(states, events, |events|);
    }
  }

  lemma OneEventMore(states: seq<State>, events: seq<Event>, e: Event, s': State)
    requires IsRun(states, events) && Step(states[|events|], e, s') && !FromOutside(e)
    ensures IsRun(states + [s'], events + [e]) && Total(s') < Total(states[|events|])
  {
    RunKeepsInv(states, events, |events|);
    EventLowersTotal(states[0], states[|events|], e, s');
    forall t | 0 <= t < |events| + 1 ensures StepAt(states + [s'], events + [e], t) {
      if t < |events| { assert StepAt(states, events, t); }
    }
  }
}
