/**
 The whole system on the byte level: the same parties, with a stream of bytes in each direction of each
 connection, plain or encrypted. A receive takes bytes as soon as enough of them are there, wherever sends began
 and ended.
 */
module ByteSystem {
  import opened Bytes
  import opened IndexSpec
  import opened Records
  import opened Protocol
  import opened Session
  import opened Download
  import opened System
  import opened SecureChannel
  import RfcManager

  // ---- Channels and lines ----

  /** One direction of one connection: of the session of a peer, or of a download. */
  datatype Channel = Up(i: nat) | Down(i: nat) | LinkUp(k: nat) | LinkDown(k: nat)

  /** The sends not yet received. */
  function Contents(s: State, ch: Channel): seq<Frame> {
    match ch
    case Up(i) => if i < |s.nodes| then s.nodes[i].session.up else []
    case Down(i) => if i < |s.nodes| then s.nodes[i].session.down else []
    case LinkUp(k) => if k < |s.links| then s.links[k].up else []
    case LinkDown(k) => if k < |s.links| then s.links[k].down else []
  }

  /** How sends become bytes: as they are, or each as a ciphertext and its MAC. */
  datatype Line = Plain | Secure(keyed: Keyed)

  ghost predicate Sound(l: Line) {
    l.Secure? ==> Ideal(l.keyed.cipher)
  }

  function BytesOf(l: Line, frames: seq<Frame>): seq<byte> {
    match l
    case Plain => Flatten(frames)
    case Secure(k) => Wire(k, frames)
  }

  /** The bytes that a receive of `len` takes. */
  function Taken(l: Line, len: nat): nat {
    if l.Plain? then len else len + MAC_LEN
  }

  /** What a receive of `len` makes of them; None when the record does not open. */
  function Heard(l: Line, stream: seq<byte>, len: nat): Option<Frame>
    requires Taken(l, len) <= |stream|
  {
    match l
    case Plain => Some(stream[..len])
    case Secure(k) => k.Open(stream, len)
  }

  lemma {:induction false} BytesAppend(l: Line, frames: seq<Frame>, more: seq<Frame>)
    ensures BytesOf(l, frames + more) == BytesOf(l, frames) + BytesOf(l, more)
    decreases |more|
  {
    if more == [] {
      assert frames + more == frames && BytesOf(l, more) == [];
    } else {
      assert frames + more == (frames + [more[0]]) + more[1..];
      BytesAppend(l, frames + [more[0]], more[1..]);
      OneMore(l, frames, more[0]);
      assert [more[0]] + more[1..] == more;
    }
  }

  lemma OneMore(l: Line, frames: seq<Frame>, f: Frame)
    ensures BytesOf(l, frames + [f]) == BytesOf(l, frames) + BytesOf(l, [f])
    ensures forall rest :: BytesOf(l, [f] + rest) == BytesOf(l, [f]) + BytesOf(l, rest)
  {
    match l
    case Plain =>
      FlattenAppend(frames, f);
      assert Flatten([f]) == f + Flatten([]);
    case Secure(k) =>
      WireAppend(k, frames, f);
      assert Wire(k, [f]) == k.Record(f) + Wire(k, []);
  }

  /** A receive of the right length hears the oldest send and leaves the others. */
  lemma HearsHead(l: Line, frames: seq<Frame>)
    requires Sound(l) && frames != []
    ensures var len := |frames[0]|;
      && Taken(l, len) <= |BytesOf(l, frames)| && Heard(l, BytesOf(l, frames), len) == Some(frames[0])
      && BytesOf(l, frames)[Taken(l, len)..] == BytesOf(l, frames[1..])
  {
    match l
    case Plain =>
    case Secure(k) => OpensHead(k, frames);
  }

  // ---- The byte-level system ----

  /** The parties, which keep nothing in their channels, and the streams between them. */
  datatype ByteState = ByteState(parties: State, streams: Channel -> seq<byte>, lines: Channel -> Line)

  /** The channel that an event receives from. */
  function ReadBy(e: Event): Option<Channel> {
    match e
    case HandlerReceive(i) => Some(Up(i))
    case ClientReceive(i) => Some(Down(i))
    case ServeReceive(k) => Some(LinkUp(k))
    case FetchReceive(k) => Some(LinkDown(k))
    case _ => None
  }

  /** The length that the receiver of a channel asks for. */
  function Asks(s: State, ch: Channel): Option<int> {
    match ch
    case Up(i) => if i < |s.nodes| && s.nodes[i].session.handler.todo == [] then HandlerExpects(s.nodes[i].session.handler.at) else None
    case Down(i) => if i < |s.nodes| && s.nodes[i].session.client.todo == [] then ClientExpects(s.nodes[i].session.client.at) else None
    case LinkUp(k) => if k < |s.links| && s.links[k].serve.todo == [] then ServeExpects(s.links[k].serve.at) else None
    case LinkDown(k) => if k < |s.links| && s.links[k].fetch.todo == [] then FetchExpects(s.links[k].fetch.at) else None
  }

  /** A restarting process opens new connections. */
  predicate Reopens(e: Event, ch: Channel) {
    match ch
    case Up(i) => e == Restart(i)
    case Down(i) => e == Restart(i)
    case _ => false
  }

  function SilentNode(node: Node): Node {
    node.(session := node.session.(up := [], down := []))
  }

  function SilentLink(l: Link): Link {
    l.(up := [], down := [])
  }

  function Silent(s: State): State {
    State(s.index, seq(|s.nodes|, i requires 0 <= i < |s.nodes| => SilentNode(s.nodes[i])),
                   seq(|s.links|, k requires 0 <= k < |s.links| => SilentLink(s.links[k])))
  }

  /** The parties with one message to receive. */
  function Loaded(s: State, ch: Channel, f: Frame): State {
    match ch
    case Up(i) => if i < |s.nodes| then WithSession(s, i, s.nodes[i].session.(up := [f])) else s
    case Down(i) => if i < |s.nodes| then WithSession(s, i, s.nodes[i].session.(down := [f])) else s
    case LinkUp(k) => if k < |s.links| then WithLink(s, k, s.links[k].(up := [f])) else s
    case LinkDown(k) => if k < |s.links| then WithLink(s, k, s.links[k].(down := [f])) else s
  }

  /** Enough bytes are there for the receive that is made, and they are a message. */
  predicate CanHear(b: ByteState, ch: Channel) {
    Asks(b.parties, ch).Some? && Asks(b.parties, ch).value >= 0 &&
    var len: nat := Asks(b.parties, ch).value;
    Taken(b.lines(ch), len) <= |b.streams(ch)| && Heard(b.lines(ch), b.streams(ch), len).Some?
  }

  function Message(b: ByteState, ch: Channel): Frame
    requires CanHear(b, ch)
  {
    Heard(b.lines(ch), b.streams(ch), Asks(b.parties, ch).value).value
  }

  function StreamAfter(b: ByteState, e: Event, ch: Channel): seq<byte>
    requires ReadBy(e) == Some(ch) ==> CanHear(b, ch)
  {
    if ReadBy(e) == Some(ch) then b.streams(ch)[Taken(b.lines(ch), Asks(b.parties, ch).value)..] else b.streams(ch)
  }

  /** The parties with the message that the event receives from its stream, if it receives. */
  ghost predicate Offers(b: ByteState, e: Event, offered: State) {
    match ReadBy(e)
    case None => offered == b.parties
    case Some(ch) => CanHear(b, ch) && offered == Loaded(b.parties, ch, Message(b, ch))
  }

  /** One event of the parties: what it receives is taken from a stream, what it sends is put on one. */
  ghost predicate ByteStep(b: ByteState, e: Event, b': ByteState) {
    exists offered, after :: Offers(b, e, offered) && Step(offered, e, after) && Becomes(b, e, after, b')
  }

  ghost predicate Becomes(b: ByteState, e: Event, after: State, b': ByteState) {
    && (ReadBy(e).Some? ==> CanHear(b, ReadBy(e).value))
    && b'.parties == Silent(after)
    && (forall ch :: b'.streams(ch) == if Reopens(e, ch) then [] else StreamAfter(b, e, ch) + BytesOf(b.lines(ch), Contents(after, ch)))
    && (forall ch :: Sound(b'.lines(ch)) && (Reopens(e, ch) || b'.lines(ch) == b.lines(ch)))
  }

  ghost predicate ByteInit(b: ByteState) {
    Init(b.parties) && forall ch :: b.streams(ch) == [] && Sound(b.lines(ch))
  }

  ghost predicate ByteStepAt(bs: seq<ByteState>, events: seq<Event>, t: nat)
    requires t < |events| < |bs|
  {
    ByteStep(bs[t], events[t], bs[t + 1])
  }

  ghost predicate IsByteRun(bs: seq<ByteState>, events: seq<Event>) {
    |bs| == |events| + 1 && ByteInit(bs[0]) && forall t :: 0 <= t < |events| ==> ByteStepAt(bs, events, t)
  }

  // ---- The same event, with full channels ----

  /** The parties of `s`, with the oldest send of the channel that the event reads. */
  function Offer(s: State, e: Event): State {
    match ReadBy(e)
    case None => Silent(s)
    case Some(ch) => if Contents(s, ch) != [] then Loaded(Silent(s), ch, Contents(s, ch)[0]) else Silent(s)
  }

  /** What an event leaves of a channel. */
  function Rest(s: State, e: Event, ch: Channel): seq<Frame> {
    if Reopens(e, ch) then []
    else if ReadBy(e) == Some(ch) && Contents(s, ch) != [] then Contents(s, ch)[1..]
    else Contents(s, ch)
  }

  function FullNode(s: State, e: Event, i: nat, node: Node): Node {
    node.(session := node.session.(up := Rest(s, e, Up(i)) + node.session.up, down := Rest(s, e, Down(i)) + node.session.down))
  }

  function FullLink(s: State, e: Event, k: nat, l: Link): Link {
    l.(up := Rest(s, e, LinkUp(k)) + l.up, down := Rest(s, e, LinkDown(k)) + l.down)
  }

  /** The channels of `s` put back under those of `after`. */
  function Full(s: State, e: Event, after: State): State {
    State(after.index, seq(|after.nodes|, i requires 0 <= i < |after.nodes| => FullNode(s, e, i, after.nodes[i])),
                       seq(|after.links|, k requires 0 <= k < |after.links| => FullLink(s, e, k, after.links[k])))
  }

  lemma FullIsSilent(s: State, e: Event, after: State)
    ensures Silent(Full(s, e, after)) == Silent(after)
  {
  }

  lemma FullContents(s: State, e: Event, after: State, ch: Channel)
    requires |after.nodes| >= |s.nodes| && |after.links| >= |s.links|
    ensures Contents(Full(s, e, after), ch) == Rest(s, e, ch) + Contents(after, ch)
  {
  }

  /** An event of the session of peer `i`. */
  predicate AtNode(e: Event, i: nat) {
    !IsLinkEvent(e) && e.i == i
  }

  function Quieted(s: State, e: Event, i: nat): Session
    requires i < |s.nodes|
  {
    Offer(s, e).nodes[i].session
  }

  /** A change of one session, with the channels put back, is the change of that session in `s`. */
  lemma SessionFills(s: State, e: Event, i: nat, x: Session, y: Session, index: Index)
    requires i < |s.nodes| && AtNode(e, i)
    requires y == x.(up := Rest(s, e, Up(i)) + x.up, down := Rest(s, e, Down(i)) + x.down)
    ensures |Offer(s, e).nodes| == |s.nodes|
    ensures Full(s, e, WithSession(Offer(s, e), i, x).(index := index)) == WithSession(s, i, y).(index := index)
  {
    var after := WithSession(Offer(s, e), i, x).(index := index);
    forall j | 0 <= j < |s.nodes| ensures FullNode(s, e, j, after.nodes[j]) == WithSession(s, i, y).nodes[j] {
      assert s.nodes[j].session.up + [] == s.nodes[j].session.up && s.nodes[j].session.down + [] == s.nodes[j].session.down;
      assert Rest(s, e, Up(j)) + [] == Rest(s, e, Up(j));
    }
    forall k | 0 <= k < |s.links| ensures FullLink(s, e, k, after.links[k]) == s.links[k] {
      assert s.links[k].up + [] == s.links[k].up && s.links[k].down + [] == s.links[k].down;
    }
  }

  lemma QuietedSession(s: State, e: Event, i: nat)
    requires i < |s.nodes| && AtNode(e, i)
    ensures |Offer(s, e).nodes| == |s.nodes| && Offer(s, e).index == s.index
    ensures Offer(s, e).nodes[i].me == s.nodes[i].me && Offer(s, e).nodes[i].dir == s.nodes[i].dir
    ensures var session := s.nodes[i].session;
      Quieted(s, e, i) == session.(
        up := if e == HandlerReceive(i) && session.up != [] then [session.up[0]] else [],
        down := if e == ClientReceive(i) && session.down != [] then [session.down[0]] else [])
  {
  }

  /** With or without full channels, the event does the same. */
  ghost predicate Mirrored(s: State, e: Event) {
    && (forall after :: Step(Offer(s, e), e, after) ==>
          Step(s, e, Full(s, e, after)) && |after.nodes| == |s.nodes| && |after.links| >= |s.links|)
    && (forall s' :: Step(s, e, s') ==> exists after :: Step(Offer(s, e), e, after) && Full(s, e, after) == s')
  }

  lemma ClientSendMirrors(s: State, i: nat)
    requires i < |s.nodes|
    ensures Mirrored(s, ClientSend(i))
  {
    var e, session := ClientSend(i), s.nodes[i].session;
    QuietedSession(s, e, i);
    assert session.down + [] == session.down;
    if session.client.todo != [] {
      SessionFills(s, e, i, AfterClientSends(Quieted(s, e, i)), AfterClientSends(session), s.index);
      assert Step(Offer(s, e), e, WithSession(Offer(s, e), i, AfterClientSends(Quieted(s, e, i))));
    }
  }

  lemma HandlerSendMirrors(s: State, i: nat)
    requires i < |s.nodes|
    ensures Mirrored(s, HandlerSend(i))
  {
    var e, session := HandlerSend(i), s.nodes[i].session;
    QuietedSession(s, e, i);
    assert session.up + [] == session.up;
    if session.handler.todo != [] {
      SessionFills(s, e, i, AfterHandlerSends(Quieted(s, e, i)), AfterHandlerSends(session), s.index);
      assert Step(Offer(s, e), e, WithSession(Offer(s, e), i, AfterHandlerSends(Quieted(s, e, i))));
    }
  }

  lemma HandlerReceiveMirrors(s: State, i: nat)
    requires i < |s.nodes|
    ensures Mirrored(s, HandlerReceive(i))
  {
    var e, session := HandlerReceive(i), s.nodes[i].session;
    QuietedSession(s, e, i);
    if CanReceive(session.handler, HandlerExpects(session.handler.at), session.up) {
      assert session.up[1..] + [] == session.up[1..] && session.down + [] == session.down;
      SessionFills(s, e, i, AfterHandlerReceives(Quieted(s, e, i)), AfterHandlerReceives(session), s.index);
      assert Step(Offer(s, e), e, WithSession(Offer(s, e), i, AfterHandlerReceives(Quieted(s, e, i))));
    }
  }

  lemma ClientReceiveFills(s: State, i: nat, stored: seq<int32>)
    requires i < |s.nodes| && CanReceive(s.nodes[i].session.client, ClientExpects(s.nodes[i].session.client.at), s.nodes[i].session.down)
    ensures var e, session := ClientReceive(i), s.nodes[i].session;
      && |Offer(s, e).nodes| == |s.nodes|
      && CanReceive(Quieted(s, e, i).client, ClientExpects(Quieted(s, e, i).client.at), Quieted(s, e, i).down)
      && Full(s, e, WithSession(Offer(s, e), i, AfterClientReceives(s.nodes[i].me, stored, Quieted(s, e, i))))
         == WithSession(s, i, AfterClientReceives(s.nodes[i].me, stored, session))
  {
    var e, session := ClientReceive(i), s.nodes[i].session;
    QuietedSession(s, e, i);
    assert session.down[1..] + [] == session.down[1..] && session.up + [] == session.up;
    SessionFills(s, e, i, AfterClientReceives(s.nodes[i].me, stored, Quieted(s, e, i)), AfterClientReceives(s.nodes[i].me, stored, session), s.index);
  }

  lemma ClientReceiveMirrors(s: State, i: nat)
    requires i < |s.nodes|
    ensures Mirrored(s, ClientReceive(i))
  {
    var e, node := ClientReceive(i), s.nodes[i];
    QuietedSession(s, e, i);
    forall after | Step(Offer(s, e), e, after)
      ensures Step(s, e, Full(s, e, after)) && |after.nodes| == |s.nodes| && |after.links| >= |s.links|
    {
      var stored :| ListsKeys(stored, node.dir) && after == WithSession(Offer(s, e), i, AfterClientReceives(node.me, stored, Quieted(s, e, i)));
      ClientReceiveFills(s, i, stored);
    }
    forall s' | Step(s, e, s') ensures exists after :: Step(Offer(s, e), e, after) && Full(s, e, after) == s' {
      var stored :| ListsKeys(stored, node.dir) && s' == WithSession(s, i, AfterClientReceives(node.me, stored, node.session));
      ClientReceiveFills(s, i, stored);
      assert Step(Offer(s, e), e, WithSession(Offer(s, e), i, AfterClientReceives(node.me, stored, Quieted(s, e, i))));
    }
  }

  /** A decision of the client, which leaves the channels alone. */
  lemma DecisionMirrors(s: State, e: Event, i: nat, c': Party<ClientAt>)
    requires i < |s.nodes| && AtNode(e, i) && !Reopens(e, Up(i)) && ReadBy(e) == None
    ensures |Offer(s, e).nodes| == |s.nodes| && Full(s, e, WithClient(Offer(s, e), i, c')) == WithClient(s, i, c')
  {
    var session := s.nodes[i].session;
    QuietedSession(s, e, i);
    assert session.down + [] == session.down && session.up + [] == session.up;
    SessionFills(s, e, i, Quieted(s, e, i).(client := c'), session.(client := c'), s.index);
  }

  lemma ClientContinueMirrors(s: State, i: nat)
    requires i < |s.nodes|
    ensures Mirrored(s, ClientContinue(i))
  {
    var e, session := ClientContinue(i), s.nodes[i].session;
    QuietedSession(s, e, i);
    if session.client.at.Announce? {
      var c' := ClientContinues(session.client.at);
      DecisionMirrors(s, e, i, c');
      assert session.client.todo == [] ==> Step(Offer(s, e), e, WithClient(Offer(s, e), i, c'));
    }
  }

  lemma ObeyMirrors(s: State, i: nat, command: Command)
    requires i < |s.nodes|
    ensures Mirrored(s, Obey(i, command))
  {
    var e, session := Obey(i, command), s.nodes[i].session;
    QuietedSession(s, e, i);
    var c' := ClientObeys(command, s.nodes[i].dir.Keys);
    DecisionMirrors(s, e, i, c');
    assert session.client == Party([], Prompt) ==> Step(Offer(s, e), e, WithClient(Offer(s, e), i, c'));
  }

  lemma RestartMirrors(s: State, i: nat)
    requires i < |s.nodes|
    ensures Mirrored(s, Restart(i))
  {
    var e, session := Restart(i), s.nodes[i].session;
    QuietedSession(s, e, i);
    SessionFills(s, e, i, Fresh(), Fresh(), s.index);
    assert session.client == Party([], Quit) && session.handler == Party([], Closed) ==> Step(Offer(s, e), e, WithSession(Offer(s, e), i, Fresh()));
  }

  lemma HandlerActMirrors(s: State, i: nat)
    requires i < |s.nodes|
    ensures Mirrored(s, HandlerAct(i))
  {
    var e, session := HandlerAct(i), s.nodes[i].session;
    QuietedSession(s, e, i);
    assert session.down + [] == session.down && session.up + [] == session.up;
    forall after | Step(Offer(s, e), e, after)
      ensures Step(s, e, Full(s, e, after)) && |after.nodes| == |s.nodes| && |after.links| >= |s.links|
    {
      var index', h' :| HandlerActs(session.handler.at, s.index, index', h')
                        && after == WithSession(Offer(s, e), i, Quieted(s, e, i).(handler := h')).(index := index');
      SessionFills(s, e, i, Quieted(s, e, i).(handler := h'), session.(handler := h'), index');
    }
    forall s' | Step(s, e, s') ensures exists after :: Step(Offer(s, e), e, after) && Full(s, e, after) == s' {
      var index', h' :| HandlerActs(session.handler.at, s.index, index', h') && s' == WithSession(s, i, session.(handler := h')).(index := index');
      SessionFills(s, e, i, Quieted(s, e, i).(handler := h'), session.(handler := h'), index');
      assert Step(Offer(s, e), e, WithSession(Offer(s, e), i, Quieted(s, e, i).(handler := h')).(index := index'));
    }
  }

  lemma ConnectMirrors(s: State, i: nat, j: nat)
    requires i < |s.nodes|
    ensures Mirrored(s, Connect(i, j))
  {
    var e, session := Connect(i, j), s.nodes[i].session;
    QuietedSession(s, e, i);
    if session.client.at.Connecting? && j < |s.nodes| {
      assert Offer(s, e).nodes[j] == SilentNode(s.nodes[j]);
      var c', l := Party([], Fetching(session.client.at.n, |s.links|)), Opened(i, j, session.client.at.n, s.nodes[i].me);
      DecisionMirrors(s, e, i, c');
      var after, s' := WithClient(Offer(s, e), i, c').(links := Offer(s, e).links + [l]), WithClient(s, i, c').(links := s.links + [l]);
      LinkAdds(s, e, WithClient(Offer(s, e), i, c'), l, WithClient(s, i, c'));
      assert Step(s, e, s') <==> Step(Offer(s, e), e, after);
    }
  }

  lemma LinkAdds(s: State, e: Event, after: State, l: Link, s': State)
    requires Full(s, e, after) == s' && |after.links| == |s.links| && l.up == [] && l.down == []
    ensures Full(s, e, after.(links := after.links + [l])) == s'.(links := s'.links + [l])
  {
    var more := after.(links := after.links + [l]);
    assert FullLink(s, e, |s.links|, l) == l;
    forall k | 0 <= k < |s.links| ensures FullLink(s, e, k, more.links[k]) == s'.links[k] {
      assert FullLink(s, e, k, after.links[k]) == s'.links[k];
    }
    forall x | 0 <= x < |after.nodes| ensures FullNode(s, e, x, more.nodes[x]) == s'.nodes[x] {
      assert FullNode(s, e, x, after.nodes[x]) == s'.nodes[x];
    }
  }

  /** An event of link `k`. */
  predicate AtLink(e: Event, k: nat) {
    IsLinkEvent(e) && e.k == k
  }

  function SilentNodes(nodes: seq<Node>): seq<Node> {
    seq(|nodes|, j requires 0 <= j < |nodes| => SilentNode(nodes[j]))
  }

  /** A change of one link, and of what peers know and store, with the channels put back. */
  lemma LinkFills(s: State, e: Event, k: nat, x: Link, y: Link, nodes: seq<Node>)
    requires k < |s.links| && AtLink(e, k) && |nodes| == |s.nodes|
    requires y == x.(up := Rest(s, e, LinkUp(k)) + x.up, down := Rest(s, e, LinkDown(k)) + x.down)
    requires forall j :: 0 <= j < |nodes| ==> nodes[j].session.up == s.nodes[j].session.up && nodes[j].session.down == s.nodes[j].session.down
    ensures |Offer(s, e).links| == |s.links|
    ensures Full(s, e, State(s.index, SilentNodes(nodes), Offer(s, e).links[k := x])) == State(s.index, nodes, s.links[k := y])
  {
    var after := State(s.index, SilentNodes(nodes), Offer(s, e).links[k := x]);
    forall j | 0 <= j < |nodes| ensures FullNode(s, e, j, after.nodes[j]) == nodes[j] {
      assert nodes[j].session.up + [] == nodes[j].session.up && nodes[j].session.down + [] == nodes[j].session.down;
    }
    forall m | 0 <= m < |s.links| ensures FullLink(s, e, m, after.links[m]) == s.links[k := y][m] {
      assert s.links[m].up + [] == s.links[m].up && s.links[m].down + [] == s.links[m].down;
    }
  }

  lemma QuietedLink(s: State, e: Event, k: nat)
    requires k < |s.links| && AtLink(e, k)
    ensures |Offer(s, e).links| == |s.links| && Offer(s, e).index == s.index && Offer(s, e).nodes == SilentNodes(s.nodes)
    ensures var l := s.links[k];
      Offer(s, e).links[k] == l.(
        up := if e == ServeReceive(k) && l.up != [] then [l.up[0]] else [],
        down := if e == FetchReceive(k) && l.down != [] then [l.down[0]] else [])
  {
  }

  lemma FetchSendMirrors(s: State, k: nat)
    requires k < |s.links|
    ensures Mirrored(s, FetchSend(k))
  {
    var e, l := FetchSend(k), s.links[k];
    QuietedLink(s, e, k);
    assert l.down + [] == l.down;
    if l.fetch.todo != [] {
      var q := Offer(s, e).links[k];
      var x := q.(fetch := l.fetch.(todo := l.fetch.todo[1..]), up := q.up + [l.fetch.todo[0]]);
      LinkFills(s, e, k, x, l.(fetch := l.fetch.(todo := l.fetch.todo[1..]), up := l.up + [l.fetch.todo[0]]), s.nodes);
      assert l.from < |s.nodes| && l.to < |s.nodes| ==> Step(Offer(s, e), e, WithLink(Offer(s, e), k, x));
    }
  }

  lemma ServeSendMirrors(s: State, k: nat)
    requires k < |s.links|
    ensures Mirrored(s, ServeSend(k))
  {
    var e, l := ServeSend(k), s.links[k];
    QuietedLink(s, e, k);
    assert l.up + [] == l.up;
    if l.serve.todo != [] {
      var q := Offer(s, e).links[k];
      var x := q.(serve := l.serve.(todo := l.serve.todo[1..]), down := q.down + [l.serve.todo[0]]);
      LinkFills(s, e, k, x, l.(serve := l.serve.(todo := l.serve.todo[1..]), down := l.down + [l.serve.todo[0]]), s.nodes);
      assert l.from < |s.nodes| && l.to < |s.nodes| ==> Step(Offer(s, e), e, WithLink(Offer(s, e), k, x));
    }
  }

  lemma ServeReceiveMirrors(s: State, k: nat)
    requires k < |s.links|
    ensures Mirrored(s, ServeReceive(k))
  {
    var e, l := ServeReceive(k), s.links[k];
    QuietedLink(s, e, k);
    if CanReceive(l.serve, ServeExpects(l.serve.at), l.up) {
      assert l.down + [] == l.down && l.up[1..] + [] == l.up[1..];
      var x := AfterServeReceives(Offer(s, e).links[k]);
      LinkFills(s, e, k, x, AfterServeReceives(l), s.nodes);
      assert l.from < |s.nodes| && l.to < |s.nodes| ==> Step(Offer(s, e), e, WithLink(Offer(s, e), k, x));
    }
  }

  lemma FetchEndMirrors(s: State, k: nat)
    requires k < |s.links|
    ensures Mirrored(s, FetchEnd(k))
  {
    var e, l := FetchEnd(k), s.links[k];
    QuietedLink(s, e, k);
    if l.fetch == Party([], Done) && l.from < |s.nodes| && l.to < |s.nodes| {
      assert l.down + [] == l.down && l.up + [] == l.up;
      var x := Offer(s, e).links[k].(fetch := Party([], Ended));
      var s' := WithClient(WithLink(s, k, l.(fetch := Party([], Ended))), l.from, ClientNotifies(l.n));
      LinkFills(s, e, k, x, l.(fetch := Party([], Ended)), s'.nodes);
      var after := WithClient(WithLink(Offer(s, e), k, x), l.from, ClientNotifies(l.n));
      assert after.nodes == SilentNodes(s'.nodes);
      assert Step(Offer(s, e), e, after);
    }
  }

  lemma ServeReadMirrors(s: State, k: nat)
    requires k < |s.links|
    ensures Mirrored(s, ServeRead(k))
  {
    var e, l := ServeRead(k), s.links[k];
    QuietedLink(s, e, k);
    assert l.down + [] == l.down && l.up + [] == l.up;
    var q := Offer(s, e).links[k];
    forall body ensures l.to < |s.nodes| ==> Full(s, e, WithLink(Offer(s, e), k, q.(serve := Party(Sized(body), ServeMessage))))
                                             == WithLink(s, k, l.(serve := Party(Sized(body), ServeMessage)))
    {
      LinkFills(s, e, k, q.(serve := Party(Sized(body), ServeMessage)), l.(serve := Party(Sized(body), ServeMessage)), s.nodes);
    }
    forall s' | Step(s, e, s') ensures exists after :: Step(Offer(s, e), e, after) && Full(s, e, after) == s' {
      var body :| IsGetBody(RfcManager.Read(s.nodes[l.to].dir, l.serve.at.n), body)
                  && s' == WithLink(s, k, l.(serve := Party(Sized(body), ServeMessage)));
      assert Step(Offer(s, e), e, WithLink(Offer(s, e), k, q.(serve := Party(Sized(body), ServeMessage))));
    }
  }

  /** What a download's receive makes of a state: `l` is the link as the receiver finds it. */
  function Fetched(s: State, k: nat, l: Link): State
    requires k < |s.links| && l.from < |s.nodes| && CanReceive(l.fetch, FetchExpects(l.fetch.at), l.down)
  {
    var (party, content) := FetchReceives(l.fetch.at, l.down[0]);
    var after := Stored(WithLink(s, k, AfterFetchReceives(l)), l, content);
    if party.at == Missed then WithClient(after, l.from, Party([], Prompt)) else after
  }

  lemma FetchReceiveMirrors(s: State, k: nat)
    requires k < |s.links|
    ensures Mirrored(s, FetchReceive(k))
  {
    var e, l := FetchReceive(k), s.links[k];
    QuietedLink(s, e, k);
    if CanReceive(l.fetch, FetchExpects(l.fetch.at), l.down) && l.from < |s.nodes| && l.to < |s.nodes| {
      var q := Offer(s, e).links[k];
      FetchFills(s, k);
      assert Step(s, e, Fetched(s, k, l)) && Step(Offer(s, e), e, Fetched(Offer(s, e), k, q));
    }
  }

  lemma FetchedShape(s: State, k: nat, l: Link)
    requires k < |s.links| && l.from < |s.nodes| && CanReceive(l.fetch, FetchExpects(l.fetch.at), l.down)
    ensures var s' := Fetched(s, k, l);
      && s'.index == s.index && s'.links == s.links[k := AfterFetchReceives(l)] && |s'.nodes| == |s.nodes|
      && forall j :: 0 <= j < |s.nodes| ==>
           s'.nodes[j].session.up == s.nodes[j].session.up && s'.nodes[j].session.down == s.nodes[j].session.down
  {
  }

  lemma FetchedSilently(s: State, t: State, k: nat, l: Link, q: Link)
    requires k < |s.links| == |t.links| && t.nodes == SilentNodes(s.nodes) && l.from < |s.nodes| && q.from == l.from && q.n == l.n
    requires q.fetch == l.fetch && CanReceive(l.fetch, FetchExpects(l.fetch.at), l.down) && q.down != [] && q.down[0] == l.down[0]
    ensures Fetched(t, k, q).nodes == SilentNodes(Fetched(s, k, l).nodes)
  {
  }

  lemma FetchFills(s: State, k: nat)
    requires k < |s.links| && s.links[k].from < |s.nodes| && CanReceive(s.links[k].fetch, FetchExpects(s.links[k].fetch.at), s.links[k].down)
    ensures var e, l := FetchReceive(k), s.links[k];
      && |Offer(s, e).links| == |s.links| && |Offer(s, e).nodes| == |s.nodes|
      && var q := Offer(s, e).links[k];
         && q.from == l.from && CanReceive(q.fetch, FetchExpects(q.fetch.at), q.down)
         && Full(s, e, Fetched(Offer(s, e), k, q)) == Fetched(s, k, l)
  {
    var e, l := FetchReceive(k), s.links[k];
    QuietedLink(s, e, k);
    var q := Offer(s, e).links[k];
    assert l.down[1..] + [] == l.down[1..] && l.up + [] == l.up;
    FetchedShape(s, k, l);
    FetchedShape(Offer(s, e), k, q);
    FetchedSilently(s, Offer(s, e), k, l, q);
    LinkFills(s, e, k, AfterFetchReceives(q), AfterFetchReceives(l), Fetched(s, k, l).nodes);
  }

  lemma EventMirrors(s: State, e: Event)
    ensures Mirrored(s, e)
  {
    if IsLinkEvent(e) {
      if e.k < |s.links| {
        match e
        case FetchSend(k) => FetchSendMirrors(s, k);
        case FetchReceive(k) => FetchReceiveMirrors(s, k);
        case FetchEnd(k) => FetchEndMirrors(s, k);
        case ServeSend(k) => ServeSendMirrors(s, k);
        case ServeReceive(k) => ServeReceiveMirrors(s, k);
        case ServeRead(k) => ServeReadMirrors(s, k);
      } else {
        assert |Offer(s, e).links| == |s.links|;
      }
    } else if e.i < |s.nodes| {
      match e
      case ClientSend(i) => ClientSendMirrors(s, i);
      case ClientReceive(i) => ClientReceiveMirrors(s, i);
      case ClientContinue(i) => ClientContinueMirrors(s, i);
      case Obey(i, command) => ObeyMirrors(s, i, command);
      case HandlerSend(i) => HandlerSendMirrors(s, i);
      case HandlerReceive(i) => HandlerReceiveMirrors(s, i);
      case HandlerAct(i) => HandlerActMirrors(s, i);
      case Connect(i, j) => ConnectMirrors(s, i, j);
      case Restart(i) => RestartMirrors(s, i);
    } else {
      assert |Offer(s, e).nodes| == |s.nodes|;
    }
  }
}
