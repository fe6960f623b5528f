/** One session of a peer with the index server: which frames are in flight, wherever the two sides stand. */
module Session {
  import opened Bytes
  import opened IndexSpec
  import opened Records
  import opened Protocol

  datatype Session = Session(client: Party<ClientAt>, handler: Party<HandlerAt>, up: seq<Frame>, down: seq<Frame>) {
    /** All frames the handler has yet to receive before the client takes its next decision. */
    function ToHandler(): seq<Frame> { up + client.todo }

    /** All frames the client has yet to receive before the handler takes its next decision. */
    function ToClient(): seq<Frame> { down + handler.todo }
  }

  function Fresh(): Session {
    Session(ClientStart(), HandlerStart(), [], [])
  }

  /** The request whose answer the client awaits. */
  function Request(at: ClientAt): seq<Frame> {
    match at
    case WaitAnnounced(rest) => if rest == [] then [] else [EncodeInt(ADD), EncodeInt(rest[0])]
    case WaitNotified(n) => [EncodeInt(ADD), EncodeInt(n)]
    case WaitListSize => [EncodeInt(LIST)]
    case WaitLookupSize(n) => [EncodeInt(LOOKUP), EncodeInt(n)]
    case Quit => [EncodeInt(DISCONNECT)]
    case _ => []
  }

  /** The client is past the version exchange and not in the middle of a reply. */
  predicate BetweenReplies(at: ClientAt) {
    match at
    case WaitVersion => false
    case WaitList(_) => false
    case WaitLookup(_, _) => false
    case Rejected => false
    case Broken => false
    case WaitAnnounced(rest) => rest != []
    case _ => true
  }

  predicate IsSized(frames: seq<Frame>) {
    |frames| == 2 && |frames[1]| < TWO_TO_THE_31 && frames[0] == EncodeInt(|frames[1]|)
  }

  /** What is left of the reply to the client's request; an ADD is always answered 200. */
  predicate Replied(at: ClientAt, frames: seq<Frame>) {
    match at
    case WaitAnnounced(rest) => rest != [] && frames == [EncodeInt(200)]
    case WaitNotified(_) => frames == [EncodeInt(200)]
    case WaitListSize => IsSized(frames)
    case WaitList(size) => |frames| == 1 && |frames[0]| == size
    case WaitLookupSize(_) => IsSized(frames)
    case WaitLookup(_, size) => |frames| == 1 && |frames[0]| == size
    case _ => false
  }

  /** The client waits for the answer to ADD `n`. */
  predicate AddsNumber(at: ClientAt, n: int32) {
    match at
    case WaitAnnounced(rest) => rest != [] && rest[0] == n
    case WaitNotified(k) => k == n
    case _ => false
  }

  /** Before the handler knows the identity, the rest of the prologue precedes the first request. */
  predicate Before(s: Session, prologue: seq<Frame>) {
    BetweenReplies(s.client.at) && s.ToHandler() == prologue + Request(s.client.at) && s.ToClient() == []
  }

  predicate Quiet(s: Session) {
    s.ToHandler() == [] && s.ToClient() == []
  }

  predicate SessionInv(me: Peer, s: Session) {
    var version := EncodeInt(PROTOCOL_VERSION);
    var intro := Introduction(me);
    match s.handler.at
    case AwaitVersion =>
      || (s.client.at == WaitVersion && s.ToHandler() == [version] && s.ToClient() == [version])
      || Before(s, [version] + intro)
    case AwaitHostLen =>
      || (s.client.at == WaitVersion && s.ToHandler() == [] && s.ToClient() == [version])
      || Before(s, intro)
    case AwaitHost(len) => len == |me.host| && Before(s, intro[1..])
    case AwaitPort(host) => host == me.host && Before(s, intro[2..])
    case Joining(p) => p == me && Before(s, [])
    case AwaitMessage(p) =>
      p == me && (Before(s, []) || (s.ToHandler() == [] && Replied(s.client.at, s.ToClient())))
    case AwaitAdd(p) => p == me && s.ToClient() == [] && AwaitedNumber(s.client.at).Some? && s.ToHandler() == [EncodeInt(AwaitedNumber(s.client.at).value)]
    case Adding(p, n) => p == me && Quiet(s) && AddsNumber(s.client.at, n)
    case Listing(p) => p == me && Quiet(s) && s.client.at == WaitListSize
    case AwaitLookup(p) => p == me && s.ToClient() == [] && s.client.at.WaitLookupSize? && s.ToHandler() == [EncodeInt(s.client.at.n)]
    case LookingUp(p, n) => p == me && Quiet(s) && s.client.at == WaitLookupSize(n)
    case Removing(p) => p == me && Quiet(s) && s.client.at == Quit
    case Closed => Quiet(s) && s.client.at == Quit
    case Refused => false
  }

  function AwaitedNumber(at: ClientAt): Option<int32> {
    match at
    case WaitAnnounced(rest) => if rest == [] then None else Some(rest[0])
    case WaitNotified(n) => Some(n)
    case _ => None
  }

  // ---- Socket calls ----

  lemma SendKeepsFrames(channel: seq<Frame>, todo: seq<Frame>)
    requires todo != []
    ensures (channel + [todo[0]]) + todo[1..] == channel + todo
  {
  }

  /** Taking the head of a channel takes the head of everything still to be received. */
  lemma HeadOf(channel: seq<Frame>, todo: seq<Frame>)
    requires channel != []
    ensures channel + todo != [] && (channel + todo)[0] == channel[0] && channel[1..] + todo == (channel + todo)[1..]
  {
  }

  function AfterClientSends(s: Session): Session
    requires s.client.todo != []
  {
    s.(client := s.client.(todo := s.client.todo[1..]), up := s.up + [s.client.todo[0]])
  }

  function AfterHandlerSends(s: Session): Session
    requires s.handler.todo != []
  {
    s.(handler := s.handler.(todo := s.handler.todo[1..]), down := s.down + [s.handler.todo[0]])
  }

  lemma ClientSendKeeps(me: Peer, s: Session)
    requires SessionInv(me, s) && s.client.todo != []
    ensures SessionInv(me, AfterClientSends(s)) && AfterClientSends(s).ToClient() == s.ToClient()
  {
    SendKeepsFrames(s.up, s.client.todo);
    assert AfterClientSends(s).ToHandler() == s.ToHandler();
  }

  lemma HandlerSendKeeps(me: Peer, s: Session)
    requires SessionInv(me, s) && s.handler.todo != []
    ensures SessionInv(me, AfterHandlerSends(s)) && AfterHandlerSends(s).ToClient() == s.ToClient()
  {
    SendKeepsFrames(s.down, s.handler.todo);
    assert AfterHandlerSends(s).ToClient() == s.ToClient() && AfterHandlerSends(s).ToHandler() == s.ToHandler();
  }

  function AfterClientReceives(me: Peer, stored: seq<int32>, s: Session): Session
    requires CanReceive(s.client, ClientExpects(s.client.at), s.down)
  {
    s.(client := ClientReceives(me, stored, s.client.at, s.down[0]), down := s.down[1..])
  }

  function AfterHandlerReceives(s: Session): Session
    requires CanReceive(s.handler, HandlerExpects(s.handler.at), s.up)
  {
    s.(handler := Party([], HandlerReceives(s.handler.at, s.up[0])), up := s.up[1..])
  }

  lemma PrologueFrames(me: Peer)
    requires CleanPeer(me)
    ensures DecodeInt(EncodeInt(PROTOCOL_VERSION)) == PROTOCOL_VERSION
    ensures DecodeInt(EncodeInt(ToInt32(|me.host|))) == |me.host|
    ensures CString(me.host) == me.host
    ensures DecodeInt(EncodeInt(me.port)) == me.port
  {
    DecodeEncodeInt(PROTOCOL_VERSION);
    ToInt32Identity(|me.host|);
    DecodeEncodeInt(ToInt32(|me.host|));
    DecodeEncodeInt(me.port);
  }

  lemma MessageTags()
    ensures DecodeInt(EncodeInt(ADD)) == ADD && DecodeInt(EncodeInt(LIST)) == LIST
    ensures DecodeInt(EncodeInt(LOOKUP)) == LOOKUP && DecodeInt(EncodeInt(DISCONNECT)) == DISCONNECT
    ensures DecodeInt(EncodeInt(200)) == 200
  {
    DecodeEncodeInt(ADD);
    DecodeEncodeInt(LIST);
    DecodeEncodeInt(LOOKUP);
    DecodeEncodeInt(DISCONNECT);
    DecodeEncodeInt(200);
  }

  // ---- What each receive does ----

  lemma VersionReceiveKeeps(me: Peer, stored: seq<int32>, s: Session)
    requires CleanPeer(me) && SessionInv(me, s) && CanReceive(s.client, ClientExpects(s.client.at), s.down)
    requires s.client.at == WaitVersion
    ensures SessionInv(me, AfterClientReceives(me, stored, s))
    ensures AfterClientReceives(me, stored, s).client.at == Announce(stored)
    ensures AfterClientReceives(me, stored, s).ToClient() == []
  {
    HeadOf(s.down, s.handler.todo);
    PrologueFrames(me);
    var s' := AfterClientReceives(me, stored, s);
    assert s'.ToHandler() == s.ToHandler() + Introduction(me) by { assert s.up + [] == s.up; }
    assert s'.ToClient() == [];
    assert Request(s'.client.at) == [];
  }

  lemma ReplyReceiveKeeps(me: Peer, stored: seq<int32>, s: Session)
    requires CleanPeer(me) && SessionInv(me, s) && CanReceive(s.client, ClientExpects(s.client.at), s.down)
    requires s.client.at != WaitVersion && !AfterClientReceives(me, stored, s).client.at.Broken?
    ensures SessionInv(me, AfterClientReceives(me, stored, s))
    ensures s.handler.at == AwaitMessage(me) && s.ToHandler() == [] && Replied(s.client.at, s.ToClient())
    ensures AfterClientReceives(me, stored, s).ToClient() == s.ToClient()[1..]
    ensures s.down[0] == s.ToClient()[0]
  {
    HeadOf(s.down, s.handler.todo);
    MessageTags();
    var s' := AfterClientReceives(me, stored, s);
    assert s'.ToHandler() == s.ToHandler() by { assert s.up + [] == s.up; }
    assert s'.ToClient() == s.ToClient()[1..];
    if s.client.at.WaitListSize? || s.client.at.WaitLookupSize? {
      DecodeEncodeInt(|s.ToClient()[1]|);
    }
  }

  lemma HandlerReceiveKeeps(me: Peer, s: Session)
    requires CleanPeer(me) && SessionInv(me, s) && CanReceive(s.handler, HandlerExpects(s.handler.at), s.up)
    ensures SessionInv(me, AfterHandlerReceives(s))
    ensures AfterHandlerReceives(s).ToClient() == s.ToClient()
  {
    HeadOf(s.up, s.client.todo);
    var s' := AfterHandlerReceives(s);
    assert s'.ToHandler() == s.ToHandler()[1..];
    assert s'.ToClient() == s.ToClient();
    if s.handler.at.AwaitMessage? {
      RequestReceiveKeeps(me, s);
    } else if s.handler.at.AwaitAdd? {
      DecodeEncodeInt(AwaitedNumber(s.client.at).value);
    } else if s.handler.at.AwaitLookup? {
      DecodeEncodeInt(s.client.at.n);
    } else {
      PrologueReceiveKeeps(me, s);
    }
  }

  /** The handler takes the next frame of the prologue. */
  lemma PrologueShrinks(s: Session, prologue: seq<Frame>)
    requires Before(s, prologue) && prologue != [] && CanReceive(s.handler, HandlerExpects(s.handler.at), s.up)
    ensures s.up[0] == prologue[0] && Before(AfterHandlerReceives(s), prologue[1..])
  {
    HeadOf(s.up, s.client.todo);
    var s' := AfterHandlerReceives(s);
    assert s'.ToHandler() == s.ToHandler()[1..];
    assert s'.ToClient() == s.ToClient();
    assert (prologue + Request(s.client.at))[1..] == prologue[1..] + Request(s.client.at);
  }

  lemma PrologueReceiveKeeps(me: Peer, s: Session)
    requires CleanPeer(me) && SessionInv(me, s) && CanReceive(s.handler, HandlerExpects(s.handler.at), s.up)
    requires s.handler.at.AwaitVersion? || s.handler.at.AwaitHostLen? || s.handler.at.AwaitHost? || s.handler.at.AwaitPort?
    ensures SessionInv(me, AfterHandlerReceives(s))
  {
    HeadOf(s.up, s.client.todo);
    PrologueFrames(me);
    var intro := Introduction(me);
    match s.handler.at
    case AwaitVersion =>
      if s.client.at == WaitVersion {
        var s' := AfterHandlerReceives(s);
        assert s'.ToHandler() == s.ToHandler()[1..] == [];
        assert s'.ToClient() == s.ToClient();
      } else {
        PrologueShrinks(s, [EncodeInt(PROTOCOL_VERSION)] + intro);
        assert ([EncodeInt(PROTOCOL_VERSION)] + intro)[1..] == intro;
      }
    case AwaitHostLen => PrologueShrinks(s, intro);
    case AwaitHost(_) =>
      PrologueShrinks(s, intro[1..]);
      assert intro[1..][1..] == intro[2..];
    case AwaitPort(_) =>
      PrologueShrinks(s, intro[2..]);
      assert |intro[2..]| == 1;
  }

  lemma RequestReceiveKeeps(me: Peer, s: Session)
    requires SessionInv(me, s) && CanReceive(s.handler, HandlerExpects(s.handler.at), s.up) && s.handler.at.AwaitMessage?
    ensures SessionInv(me, AfterHandlerReceives(s))
  {
    HeadOf(s.up, s.client.todo);
    MessageTags();
    var s' := AfterHandlerReceives(s);
    assert s'.ToHandler() == s.ToHandler()[1..];
    assert s'.ToClient() == s.ToClient();
    assert s.ToHandler() == [] + Request(s.client.at) == Request(s.client.at);
  }

  // ---- What each decision does ----

  /** The client, with nothing to send and nothing to receive, starts a new request or stops. */
  lemma ClientDecisionKeeps(me: Peer, s: Session, c': Party<ClientAt>)
    requires SessionInv(me, s) && s.client.todo == [] && Request(s.client.at) == [] && BetweenReplies(s.client.at)
    requires c'.todo == Request(c'.at) && BetweenReplies(c'.at)
    ensures SessionInv(me, s.(client := c')) && s.(client := c').ToClient() == s.ToClient() == []
  {
    var s' := s.(client := c');
    assert s.up + [] == s.up;
    assert s'.ToHandler() == s.ToHandler() + c'.todo;
    assert s'.ToClient() == s.ToClient();
    forall prologue | Before(s, prologue) ensures Before(s', prologue) {
      assert prologue + [] == prologue;
    }
  }

  /** The handler, on a call of the index, replies; an ADD must have been accepted. */
  lemma HandlerDecisionKeeps(me: Peer, s: Session, h': Party<HandlerAt>)
    requires SessionInv(me, s) && s.handler.todo == []
    requires match s.handler.at
      case Joining(p) => h' == Party([], AwaitMessage(p))
      case Adding(p, _) => h' == Party([EncodeInt(200)], AwaitMessage(p))
      case Listing(p) => h'.at == AwaitMessage(p) && IsSized(h'.todo)
      case LookingUp(p, _) => h'.at == AwaitMessage(p) && IsSized(h'.todo)
      case Removing(_) => h' == Party([], Closed)
      case _ => false
    ensures SessionInv(me, s.(handler := h'))
    ensures s.(handler := h').ToClient() == h'.todo && s.ToClient() == []
  {
    assert s.down + [] == s.down;
    assert s.(handler := h').ToHandler() == s.ToHandler();
    assert s.(handler := h').ToClient() == s.ToClient() + h'.todo;
  }

  // ---- Alignment and progress ----

  /** Every receive, on either side, asks for exactly the length of the oldest undelivered send. */
  lemma SessionAligned(me: Peer, s: Session)
    requires CleanPeer(me) && SessionInv(me, s)
    ensures !Misaligned(s.client, ClientExpects(s.client.at), s.down)
    ensures !Misaligned(s.handler, HandlerExpects(s.handler.at), s.up)
  {
    if s.client.todo == [] && s.down != [] { HeadOf(s.down, s.handler.todo); }
    if s.handler.todo == [] && s.up != [] { HeadOf(s.up, s.client.todo); }
  }

  /** The client is between commands, busy with a download, or finished. */
  predicate AtLeisure(at: ClientAt) {
    at.Prompt? || at.Connecting? || at.Fetching? || at.Quit?
  }

  predicate HandlerDecides(at: HandlerAt) {
    at.Joining? || at.Adding? || at.Listing? || at.LookingUp? || at.Removing?
  }

  /**
   The two sides are never both stuck: unless the client is at leisure with all its words heard, one of
   them can make a socket call, take a decision or call the index.
   */
  lemma SessionProgress(me: Peer, s: Session)
    requires CleanPeer(me) && SessionInv(me, s)
    ensures || s.client.todo != [] || s.handler.todo != []
            || CanReceive(s.client, ClientExpects(s.client.at), s.down)
            || CanReceive(s.handler, HandlerExpects(s.handler.at), s.up)
            || s.client.at.Announce?
            || HandlerDecides(s.handler.at)
            || (AtLeisure(s.client.at) && s.up == [] && s.down == [] &&
                (if s.client.at.Quit? then s.handler.at.Closed? else s.handler.at == AwaitMessage(me)))
  {
    SessionAligned(me, s);
    if s.client.todo == [] && s.handler.todo == [] {
      assert s.up + [] == s.up && s.down + [] == s.down;
    }
  }
}
