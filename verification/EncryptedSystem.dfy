/**
 The byte-level system, over plain or encrypted lines, does what module System does: in every state each stream
 holds the bytes of the sends in flight, so that every receive delivers the oldest of them.
 */
module EncryptedSystem {
  import opened Bytes
  import opened IndexSpec
  import opened Records
  import opened Protocol
  import opened Session
  import opened Download
  import opened System
  import opened SystemInvariant
  import opened SecureChannel
  import opened ByteSystem

  // ---- What a byte-level state stands for ----

  ghost predicate Represents(b: ByteState, s: State) {
    && b.parties == Silent(s)
    && forall ch :: Sound(b.lines(ch)) && b.streams(ch) == BytesOf(b.lines(ch), Contents(s, ch))
  }

  /** A receive asks for the length of the oldest send. */
  lemma AsksForOldest(o: State, s: State, ch: Channel)
    requires Inv(o, s) && Asks(s, ch).Some? && Contents(s, ch) != []
    ensures Asks(s, ch).value == |Contents(s, ch)[0]|
  {
    match ch
    case Up(i) =>
      NodeIsOk(o, s, i);
      PeerIsClean(o, s, i);
      SessionAligned(s.nodes[i].me, s.nodes[i].session);
    case Down(i) =>
      NodeIsOk(o, s, i);
      PeerIsClean(o, s, i);
      SessionAligned(s.nodes[i].me, s.nodes[i].session);
    case LinkUp(k) => LinkAsks(o, s, k);
    case LinkDown(k) => LinkAsks(o, s, k);
  }

  lemma LinkAsks(o: State, s: State, k: nat)
    requires Inv(o, s) && k < |s.links|
    ensures !Misaligned(s.links[k].fetch, FetchExpects(s.links[k].fetch.at), s.links[k].down)
    ensures !Misaligned(s.links[k].serve, ServeExpects(s.links[k].serve.at), s.links[k].up)
  {
    LinkIsOk(o, s, k);
    var l := s.links[k];
    PeerIsClean(o, s, l.from);
    LinkAligned(s.nodes[l.from].me, l, Authentic(o, l.n));
  }

  /** Nobody ever asks for nothing, so no receive succeeds on an empty stream. */
  lemma AsksForSomething(o: State, s: State, ch: Channel)
    requires Inv(o, s) && Asks(s, ch).Some?
    ensures Asks(s, ch).value > 0
  {
    match ch
    case Up(i) =>
      NodeIsOk(o, s, i);
      PeerIsClean(o, s, i);
      HandlerAsksForSomething(s.nodes[i].me, s.nodes[i].session);
    case Down(i) =>
      NodeIsOk(o, s, i);
      ClientAsksForSomething(s, i, s.nodes[i]);
    case LinkUp(k) => LinkAsksForSomething(o, s, k);
    case LinkDown(k) => LinkAsksForSomething(o, s, k);
  }

  lemma HandlerAsksForSomething(me: Peer, session: Session)
    requires CleanPeer(me) && SessionInv(me, session) && HandlerExpects(session.handler.at).Some?
    ensures HandlerExpects(session.handler.at).value > 0
  {
  }

  lemma ClientAsksForSomething(s: State, i: nat, node: Node)
    requires NodeOk(s, i, node) && ClientExpects(node.session.client.at).Some?
    ensures ClientExpects(node.session.client.at).value > 0
  {
  }

  lemma LinkAsksForSomething(o: State, s: State, k: nat)
    requires Inv(o, s) && k < |s.links|
    ensures FetchExpects(s.links[k].fetch.at).Some? ==> FetchExpects(s.links[k].fetch.at).value > 0
    ensures ServeExpects(s.links[k].serve.at).Some? ==> ServeExpects(s.links[k].serve.at).value > 0
  {
    LinkIsOk(o, s, k);
    var l := s.links[k];
    PeerIsClean(o, s, l.from);
    EndsAskForSomething(s.nodes[l.from].me, l, Authentic(o, l.n));
  }

  lemma EndsAskForSomething(me: Peer, l: Link, contents: iset<seq<byte>>)
    requires CleanPeer(me) && LinkInv(me, l, contents)
    ensures FetchExpects(l.fetch.at).Some? ==> FetchExpects(l.fetch.at).value > 0
    ensures ServeExpects(l.serve.at).Some? ==> ServeExpects(l.serve.at).value > 0
  {
  }

  /** Bytes can be received exactly when a send is waiting, and they are the oldest one. */
  lemma HearsOldestIff(o: State, s: State, b: ByteState, ch: Channel)
    requires Inv(o, s) && Represents(b, s)
    ensures CanHear(b, ch) <==> Asks(s, ch).Some? && Contents(s, ch) != []
    ensures CanHear(b, ch) ==> Message(b, ch) == Contents(s, ch)[0]
    ensures CanHear(b, ch) ==> b.streams(ch)[Taken(b.lines(ch), Asks(b.parties, ch).value)..] == BytesOf(b.lines(ch), Contents(s, ch)[1..])
  {
    SilenceKeepsQuestions(s, ch);
    if Asks(s, ch).Some? {
      AsksForSomething(o, s, ch);
      if Contents(s, ch) != [] {
        AsksForOldest(o, s, ch);
        HearsHead(b.lines(ch), Contents(s, ch));
      }
    }
  }

  lemma SilenceKeepsQuestions(s: State, ch: Channel)
    ensures Asks(Silent(s), ch) == Asks(s, ch)
  {
  }

  // ---- One step ----

  /** The event receives, if it receives, and a send is waiting for it. */
  predicate Heeds(s: State, e: Event) {
    ReadBy(e).Some? ==> Asks(s, ReadBy(e).value).Some? && Contents(s, ReadBy(e).value) != []
  }

  lemma StepHeeds(s: State, e: Event, s': State)
    requires Step(s, e, s')
    ensures Heeds(s, e)
  {
  }

  /** What is offered on the byte level is the oldest send. */
  lemma OffersOldestIff(o: State, s: State, b: ByteState, e: Event, offered: State)
    requires Inv(o, s) && Represents(b, s)
    ensures Offers(b, e, offered) <==> Heeds(s, e) && offered == Offer(s, e)
  {
    if ReadBy(e).Some? { HearsOldestIff(o, s, b, ReadBy(e).value); }
  }

  /** The stream that a receive leaves holds the sends that it leaves. */
  lemma StreamHoldsRest(o: State, s: State, b: ByteState, e: Event, ch: Channel)
    requires Inv(o, s) && Represents(b, s) && Heeds(s, e) && !Reopens(e, ch)
    ensures ReadBy(e) == Some(ch) ==> CanHear(b, ch)
    ensures StreamAfter(b, e, ch) == BytesOf(b.lines(ch), Rest(s, e, ch))
  {
    HearsOldestIff(o, s, b, ch);
  }

  /** A restarting peer finds its new connections empty. */
  lemma ReopenedIsEmpty(s: State, e: Event, after: State, ch: Channel)
    requires Step(Offer(s, e), e, after) && Reopens(e, ch)
    ensures Contents(after, ch) == []
  {
  }

  /** On channel `ch`, the stream after the event holds the sends after it. */
  ghost predicate StreamMatches(b: ByteState, e: Event, after: State, b': ByteState, s': State, ch: Channel) {
    && (ReadBy(e) == Some(ch) ==> CanHear(b, ch))
    && BytesOf(b'.lines(ch), Contents(s', ch))
       == if Reopens(e, ch) then [] else StreamAfter(b, e, ch) + BytesOf(b.lines(ch), Contents(after, ch))
  }

  lemma StreamsMatch(o: State, s: State, b: ByteState, e: Event, after: State, b': ByteState)
    requires Inv(o, s) && Represents(b, s) && Heeds(s, e) && Step(Offer(s, e), e, after)
    requires |after.nodes| == |s.nodes| && |after.links| >= |s.links|
    requires forall ch :: Reopens(e, ch) || b'.lines(ch) == b.lines(ch)
    ensures forall ch :: StreamMatches(b, e, after, b', Full(s, e, after), ch)
  {
    forall ch ensures StreamMatches(b, e, after, b', Full(s, e, after), ch) {
      FullContents(s, e, after, ch);
      if Reopens(e, ch) {
        ReopenedIsEmpty(s, e, after, ch);
      } else {
        StreamHoldsRest(o, s, b, e, ch);
        BytesAppend(b.lines(ch), Rest(s, e, ch), Contents(after, ch));
      }
    }
  }

  /** The parties of `s'` and the bytes of its sends make up the byte-level state after the event. */
  lemma BecomesRepresented(b: ByteState, e: Event, after: State, b': ByteState, s': State)
    requires Silent(s') == Silent(after) && forall ch :: StreamMatches(b, e, after, b', s', ch)
    requires forall ch :: Sound(b'.lines(ch)) && (Reopens(e, ch) || b'.lines(ch) == b.lines(ch))
    ensures Becomes(b, e, after, b') <==> Represents(b', s')
  {
    if ReadBy(e).Some? { assert StreamMatches(b, e, after, b', s', ReadBy(e).value); }
    if Represents(b', s') {
      forall ch ensures b'.streams(ch) == if Reopens(e, ch) then [] else StreamAfter(b, e, ch) + BytesOf(b.lines(ch), Contents(after, ch)) {
        assert StreamMatches(b, e, after, b', s', ch);
      }
    }
    if Becomes(b, e, after, b') {
      forall ch ensures b'.streams(ch) == BytesOf(b'.lines(ch), Contents(s', ch)) {
        assert StreamMatches(b, e, after, b', s', ch);
      }
    }
  }

  /** A step of the byte-level system is a step of the system, and delivers the message that is received there. */
  lemma StepProjects(o: State, s: State, b: ByteState, e: Event, b': ByteState) returns (s': State)
    requires Inv(o, s) && Represents(b, s) && ByteStep(b, e, b')
    ensures Step(s, e, s') && Represents(b', s')
    ensures ReadBy(e).Some? ==> var ch := ReadBy(e).value;
      CanHear(b, ch) && Contents(s, ch) != [] && Message(b, ch) == Contents(s, ch)[0]
  {
    var offered, after :| Offers(b, e, offered) && Step(offered, e, after) && Becomes(b, e, after, b');
    OffersOldestIff(o, s, b, e, offered);
    EventMirrors(s, e);
    s' := Full(s, e, after);
    FullIsSilent(s, e, after);
    StreamsMatch(o, s, b, e, after, b');
    BecomesRepresented(b, e, after, b', Full(s, e, after));
    if ReadBy(e).Some? { HearsOldestIff(o, s, b, ReadBy(e).value); }
  }

  /** And every step of the system can be made on the byte level. */
  lemma StepLifts(o: State, s: State, b: ByteState, e: Event, s': State) returns (b': ByteState)
    requires Inv(o, s) && Represents(b, s) && Step(s, e, s')
    ensures ByteStep(b, e, b') && Represents(b', s') && b'.lines == b.lines
  {
    EventMirrors(s, e);
    StepHeeds(s, e, s');
    var after :| Step(Offer(s, e), e, after) && Full(s, e, after) == s';
    b' := ByteState(Silent(s'), ch => BytesOf(b.lines(ch), Contents(s', ch)), b.lines);
    OffersOldestIff(o, s, b, e, Offer(s, e));
    assert Represents(b', s');
    FullIsSilent(s, e, after);
    StreamsMatch(o, s, b, e, after, b');
    BecomesRepresented(b, e, after, b', Full(s, e, after));
  }

  // ---- Whole runs ----

  lemma InitProjects(b: ByteState)
    requires ByteInit(b)
    ensures Represents(b, b.parties)
  {
    var s := b.parties;
    forall i | 0 <= i < |s.nodes| ensures SilentNode(s.nodes[i]) == s.nodes[i] {
      assert s.nodes[i].session == Fresh();
    }
    assert Silent(s) == s;
    forall ch ensures BytesOf(b.lines(ch), Contents(s, ch)) == [] {
      assert Contents(s, ch) == [];
    }
  }

  /** In state `t` the event receives, if it receives, exactly the oldest send. */
  ghost predicate Delivers(bs: seq<ByteState>, states: seq<State>, events: seq<Event>, t: nat)
    requires t < |events| && t < |bs| && t < |states|
  {
    ReadBy(events[t]).Some? ==> var ch := ReadBy(events[t]).value;
      CanHear(bs[t], ch) && Contents(states[t], ch) != [] && Message(bs[t], ch) == Contents(states[t], ch)[0]
  }

  ghost predicate Follows(states: seq<State>, events: seq<Event>, t: nat) {
    t < |events| && t + 1 < |states| && Step(states[t], events[t], states[t + 1])
  }

  /** `states` is what the first `n` events of a byte-level run stand for. */
  ghost predicate Shadows(bs: seq<ByteState>, states: seq<State>, events: seq<Event>, n: nat) {
    && n <= |events| && |states| == n + 1 && n < |bs| && Init(states[0])
    && (forall t :: 0 <= t < n ==> Follows(states, events, t))
    && (forall t :: 0 <= t < n ==> Delivers(bs, states, events, t))
    && (forall t :: 0 <= t <= n ==> Represents(bs[t], states[t]))
  }

  lemma ShadowGrows(bs: seq<ByteState>, front: seq<State>, events: seq<Event>, n: nat, s': State)
    requires Shadows(bs, front, events, n) && n < |events| && n + 1 < |bs|
    requires Step(front[n], events[n], s') && Represents(bs[n + 1], s') && Delivers(bs, front, events, n)
    ensures Shadows(bs, front + [s'], events, n + 1)
  {
    var states := front + [s'];
    forall t | 0 <= t < n + 1 ensures Follows(states, events, t) && Delivers(bs, states, events, t) {
      if t < n { assert Follows(front, events, t) && Delivers(bs, front, events, t); }
    }
  }

  lemma {:induction false} RunProjects(bs: seq<ByteState>, events: seq<Event>, n: nat) returns (states: seq<State>)
    requires IsByteRun(bs, events) && n <= |events|
    ensures Shadows(bs, states, events, n) && Inv(states[0], states[n])
  {
    if n == 0 {
      states := [bs[0].parties];
      InitProjects(bs[0]);
      InitIsInv(bs[0].parties);
    } else {
      var front := RunProjects(bs, events, n - 1);
      assert ByteStepAt(bs, events, n - 1);
      var s' := NextProjects(bs, front, events, n - 1);
      ShadowGrows(bs, front, events, n - 1, s');
      states := front + [s'];
    }
  }

  lemma NextProjects(bs: seq<ByteState>, front: seq<State>, events: seq<Event>, n: nat) returns (s': State)
    requires n < |events| < |bs| && |front| == n + 1
    requires Inv(front[0], front[n]) && Represents(bs[n], front[n]) && ByteStep(bs[n], events[n], bs[n + 1])
    ensures Step(front[n], events[n], s') && Represents(bs[n + 1], s') && Delivers(bs, front, events, n) && Inv(front[0], s')
  {
    s' := StepProjects(front[0], front[n], bs[n], events[n], bs[n + 1]);
    StepKeepsInv(front[0], front[n], events[n], s');
  }

  lemma ShadowIsRun(bs: seq<ByteState>, states: seq<State>, events: seq<Event>)
    requires Shadows(bs, states, events, |events|)
    ensures IsRun(states, events)
  {
    forall t | 0 <= t < |events| ensures StepAt(states, events, t) {
      assert Follows(states, events, t);
    }
  }

  /**
   Every run on the byte level, over plain or encrypted lines, is a run of the system: in every state each
   stream holds the bytes, or the ciphertexts and MACs, of the sends in flight, and each receive delivers the
   oldest of them.
   */
  lemma ByteRunsAreRuns(bs: seq<ByteState>, events: seq<Event>) returns (states: seq<State>)
    requires IsByteRun(bs, events)
    ensures IsRun(states, events) && |states| == |bs|
    ensures forall t :: 0 <= t < |bs| ==> Represents(bs[t], states[t])
    ensures forall t :: 0 <= t < |events| ==> Delivers(bs, states, events, t)
  {
    states := RunProjects(bs, events, |events|);
    ShadowIsRun(bs, states, events);
  }

  lemma {:induction false} RunLifts(states: seq<State>, events: seq<Event>, lines: Channel -> Line, n: nat) returns (bs: seq<ByteState>)
    requires IsRun(states, events) && n <= |events| && forall ch :: Sound(lines(ch))
    ensures |bs| == n + 1 && ByteInit(bs[0])
    ensures forall t :: 0 <= t < n ==> ByteStep(bs[t], events[t], bs[t + 1])
    ensures forall t :: 0 <= t <= n ==> Represents(bs[t], states[t]) && bs[t].lines == lines
  {
    if n == 0 {
      bs := [ByteState(states[0], ch => [], lines)];
      InitProjects(bs[0]);
    } else {
      var front := RunLifts(states, events, lines, n - 1);
      var b' := NextLifts(states, events, n - 1, front[n - 1]);
      bs := front + [b'];
    }
  }

  lemma NextLifts(states: seq<State>, events: seq<Event>, n: nat, b: ByteState) returns (b': ByteState)
    requires IsRun(states, events) && n < |events| && Represents(b, states[n])
    ensures ByteStep(b, events[n], b') && Represents(b', states[n + 1]) && b'.lines == b.lines
  {
    RunKeepsInv(states, events, n);
    assert StepAt(states, events, n);
    b' := StepLifts(states[0], states[n], b, events[n], states[n + 1]);
  }

  /** Every run of the system is one on the byte level, over any sound lines. */
  lemma RunsAreByteRuns(states: seq<State>, events: seq<Event>, lines: Channel -> Line) returns (bs: seq<ByteState>)
    requires IsRun(states, events) && forall ch :: Sound(lines(ch))
    ensures IsByteRun(bs, events) && |bs| == |states|
    ensures forall t :: 0 <= t < |bs| ==> Represents(bs[t], states[t]) && bs[t].lines == lines
  {
    bs := RunLifts(states, events, lines, |events|);
  }

  /**
   Transparency: whatever the parties do over one choice of lines, say encrypted ones, they can do over any
   other, say plain ones, going through the very same states.
   */
  lemma EncryptionIsInvisible(bs: seq<ByteState>, events: seq<Event>, lines: Channel -> Line) returns (cs: seq<ByteState>)
    requires IsByteRun(bs, events) && forall ch :: Sound(lines(ch))
    ensures IsByteRun(cs, events) && |cs| == |bs|
    ensures forall t :: 0 <= t < |bs| ==> cs[t].parties == bs[t].parties && cs[t].lines == lines
  {
    var states := ByteRunsAreRuns(bs, events);
    cs := RunsAreByteRuns(states, events, lines);
  }
}
