/**
 The programs that talk to each other: a peer's client and its handler in the index server, and the
 downloading and serving ends of a peer-to-peer connection. Each is a party that first makes the sends
 in `todo`, one socket call at a time, and then waits, acts or decides as `at` says.
 */
module Protocol {
  import opened Bytes
  import opened IndexSpec
  import opened Records
  import ResponseLists
  import LookupResponse
  import ListResponse
  import GetResponse

  const PROTOCOL_VERSION: int32 := 1

  // P2SMessage
  const ADD: int32 := 1
  const LIST: int32 := 2
  const LOOKUP: int32 := 3
  const DISCONNECT: int32 := 4

  // P2PMessage
  const GET: int32 := 1
  const PEER_DISCONNECT: int32 := 2

  datatype Party<A> = Party(todo: seq<Frame>, at: A)

  /** The start of every session but for the version: host length, host, upload port. */
  function Introduction(me: Peer): seq<Frame> {
    [EncodeInt(ToInt32(|me.host|)), me.host, EncodeInt(me.port)]
  }

  // ---- The client of the index ----

  datatype ClientAt =
    | WaitVersion
    | Announce(rest: seq<int32>)        // the loop of add_available_rfcs
    | WaitAnnounced(rest: seq<int32>)   // ADD of the first number sent
    | Prompt
    | WaitListSize
    | WaitList(size: int)
    | WaitLookupSize(n: int32)
    | WaitLookup(n: int32, size: int)
    | Connecting(n: int32, peer: Peer)
    | Fetching(n: int32, link: nat)
    | WaitNotified(n: int32)
    | Quit
    | Rejected                          // protocol versions differ
    | Broken                            // undefined behaviour

  datatype Command = GetCommand(n: int32) | ListCommand | QuitCommand

  function ClientStart(): Party<ClientAt> {
    Party([EncodeInt(PROTOCOL_VERSION)], WaitVersion)
  }

  function ClientExpects(at: ClientAt): Option<int> {
    match at
    case WaitVersion => Some(INT_SIZE)
    case WaitAnnounced(_) => Some(INT_SIZE)
    case WaitListSize => Some(INT_SIZE)
    case WaitList(size) => Some(size)
    case WaitLookupSize(_) => Some(INT_SIZE)
    case WaitLookup(_, size) => Some(size)
    case WaitNotified(_) => Some(INT_SIZE)
    case _ => None
  }

  /** `stored` lists the local RFC numbers. */
  function ClientReceives(me: Peer, stored: seq<int32>, at: ClientAt, frame: Frame): Party<ClientAt>
    requires ClientExpects(at) == Some(|frame|)
  {
    match at
    case WaitVersion =>
      if DecodeInt(frame) == PROTOCOL_VERSION then Party(Introduction(me), Announce(stored)) else Party([], Rejected)
    case WaitAnnounced(rest) =>
      if DecodeInt(frame) == 200 && rest != [] then Party([], Announce(rest[1..])) else Party([], Prompt)
    case WaitListSize => Party([], WaitList(DecodeInt(frame)))
    case WaitList(_) => Party([], if ResponseLists.Parse(ListResponse.HOLDER_PARSER, frame).Stuck? then Broken else Prompt)
    case WaitLookupSize(n) => Party([], WaitLookup(n, DecodeInt(frame)))
    case WaitLookup(n, _) => Party([], AfterLookup(n, frame))
    case WaitNotified(_) => Party([], Prompt)
    case _ => Party([], at)
  }

  function AfterLookup(n: int32, body: Frame): ClientAt {
    match ResponseLists.Parse(LookupResponse.PEER_PARSER, body)
    case Stuck => Broken
    case Parsed(message, _) =>
      if message.code == 404 then Prompt
      else if message.items == [] then Broken
      else Connecting(n, message.items[0])
  }

  function ClientContinues(at: ClientAt): Party<ClientAt>
    requires at.Announce?
  {
    if at.rest == [] then Party([], Prompt)
    else if at.rest[0] <= 0 then Party([EncodeInt(ADD)], Broken)  // AddRFCMessage has no bytes for it
    else Party([EncodeInt(ADD), EncodeInt(at.rest[0])], WaitAnnounced(at.rest))
  }

  function ClientObeys(c: Command, stored: set<int32>): Party<ClientAt> {
    match c
    case GetCommand(n) =>
      if n <= 0 || n in stored then Party([], Prompt)
      else Party([EncodeInt(LOOKUP), EncodeInt(n)], WaitLookupSize(n))
    case ListCommand => Party([EncodeInt(LIST)], WaitListSize)
    case QuitCommand => Party([EncodeInt(DISCONNECT)], Quit)
  }

  function ClientNotifies(n: int32): Party<ClientAt> {
    Party([EncodeInt(ADD), EncodeInt(n)], WaitNotified(n))
  }

  // ---- Its handler in the index server ----

  datatype HandlerAt =
    | AwaitVersion
    | AwaitHostLen
    | AwaitHost(len: int)
    | AwaitPort(host: seq<byte>)
    | Joining(peer: Peer)
    | AwaitMessage(peer: Peer)
    | AwaitAdd(peer: Peer)
    | Adding(peer: Peer, n: int32)
    | Listing(peer: Peer)
    | AwaitLookup(peer: Peer)
    | LookingUp(peer: Peer, n: int32)
    | Removing(peer: Peer)
    | Closed
    | Refused

  function HandlerStart(): Party<HandlerAt> {
    Party([EncodeInt(PROTOCOL_VERSION)], AwaitVersion)
  }

  function HandlerExpects(at: HandlerAt): Option<int> {
    match at
    case AwaitVersion => Some(INT_SIZE)
    case AwaitHostLen => Some(INT_SIZE)
    case AwaitHost(len) => Some(len)
    case AwaitPort(_) => Some(INT_SIZE)
    case AwaitMessage(_) => Some(INT_SIZE)
    case AwaitAdd(_) => Some(INT_SIZE)
    case AwaitLookup(_) => Some(INT_SIZE)
    case _ => None
  }

  function HandlerReceives(at: HandlerAt, frame: Frame): HandlerAt
    requires HandlerExpects(at) == Some(|frame|)
  {
    match at
    case AwaitVersion => if DecodeInt(frame) == PROTOCOL_VERSION then AwaitHostLen else Refused
    case AwaitHostLen => AwaitHost(DecodeInt(frame))
    case AwaitHost(_) => AwaitPort(CString(frame))
    case AwaitPort(host) => Joining(Peer(host, DecodeInt(frame)))
    case AwaitMessage(p) =>
      var message := DecodeInt(frame);
      if message == ADD then AwaitAdd(p)
      else if message == LIST then Listing(p)
      else if message == LOOKUP then AwaitLookup(p)
      else if message == DISCONNECT then Removing(p)
      else AwaitMessage(p)
    case AwaitAdd(p) => Adding(p, DecodeInt(frame))
    case AwaitLookup(p) => LookingUp(p, DecodeInt(frame))
    case _ => at
  }

  /** A size-prefixed response. */
  function Sized(body: Frame): seq<Frame> {
    [EncodeInt(ToInt32(|body|)), body]
  }

  /** A LIST response: `to_bytes` has a buffer to return and its size is an `int`. */
  ghost predicate IsListBody(holders: seq<RfcHolder>, body: Frame) {
    var code := if holders != [] then 200 else 404;
    && ListResponse.IsValid(code, holders) && |body| < TWO_TO_THE_31
    && ResponseLists.IsEncoding(ListResponse.HOLDER_BYTES, code, holders, body)
  }

  ghost predicate IsLookupBody(peers: seq<Peer>, body: Frame) {
    var code := if peers != [] then 200 else 404;
    && LookupResponse.IsValid(code, peers) && |body| < TWO_TO_THE_31
    && ResponseLists.IsEncoding(LookupResponse.PEER_BYTES, code, peers, body)
  }

  /** One call of the central index by the handler, with the reply it then sends. */
  ghost predicate HandlerActs(at: HandlerAt, index: Index, index': Index, h': Party<HandlerAt>) {
    match at
    case Joining(p) => exists reply :: Atomic(AddClient(p), index, index', reply) && h' == Party([], AwaitMessage(p))
    case Adding(p, n) =>
      exists ok :: Atomic(AddRfc(p, n), index, index', Flag(ok))
                   && h' == Party([EncodeInt(if ok then 200 else 400)], AwaitMessage(p))
    case Listing(p) =>
      exists holders, body :: Atomic(AllRfcs, index, index', Holders(holders)) && IsListBody(holders, body)
                              && h' == Party(Sized(body), AwaitMessage(p))
    case LookingUp(p, n) =>
      exists peers, body :: Atomic(FindRfcs(n), index, index', Peers(peers)) && IsLookupBody(peers, body)
                            && h' == Party(Sized(body), AwaitMessage(p))
    case Removing(p) => exists reply :: Atomic(RemoveClient(p), index, index', reply) && h' == Party([], Closed)
    case _ => false
  }

  // ---- The two ends of a download ----

  datatype FetchAt = WaitSize | WaitBody(size: int) | Done | Ended | Missed | Confused

  datatype ServeAt =
    | ServeHostLen | ServeHost(len: int) | ServePort
    | ServeMessage | ServeNumber | Reading(n: int16) | ServeClosed

  function FetchStart(me: Peer, n: int32): Party<FetchAt> {
    Party(Introduction(me) + [EncodeInt(GET), EncodeShort(NarrowToShort(n))], WaitSize)
  }

  function FetchExpects(at: FetchAt): Option<int> {
    match at
    case WaitSize => Some(INT_SIZE)
    case WaitBody(size) => Some(size)
    case _ => None
  }

  /** The party after the receive, and the content to store, if any. */
  function FetchReceives(at: FetchAt, frame: Frame): (Party<FetchAt>, Option<seq<byte>>)
    requires FetchExpects(at) == Some(|frame|)
  {
    match at
    case WaitSize => (Party([], WaitBody(DecodeInt(frame))), None)
    case WaitBody(_) =>
      (match GetResponse.Parse(frame)
       case Stuck => (Party([], Confused), None)
       case Parsed(Found(content), _) => (Party([EncodeInt(PEER_DISCONNECT)], Done), Some(content))
       case Parsed(Failed(code), _) =>
         if code == 404 then (Party([], Missed), None)
         else (Party([EncodeInt(PEER_DISCONNECT)], Done), Some([])))
    case _ => (Party([], at), None)
  }

  function ServeStart(): Party<ServeAt> {
    Party([], ServeHostLen)
  }

  function ServeExpects(at: ServeAt): Option<int> {
    match at
    case ServeHostLen => Some(INT_SIZE)
    case ServeHost(len) => Some(len)
    case ServePort => Some(INT_SIZE)
    case ServeMessage => Some(INT_SIZE)
    case ServeNumber => Some(SHORT_SIZE)
    case _ => None
  }

  function ServeReceives(at: ServeAt, frame: Frame): ServeAt
    requires ServeExpects(at) == Some(|frame|)
  {
    match at
    case ServeHostLen => ServeHost(DecodeInt(frame))
    case ServeHost(_) => ServePort
    case ServePort => ServeMessage
    case ServeMessage =>
      var message := DecodeInt(frame);
      if message == GET then ServeNumber
      else if message == PEER_DISCONNECT then ServeClosed
      else ServeMessage
    case ServeNumber => Reading(DecodeShort(frame))
    case _ => at
  }

  /** A GET response for a file that was read, or could not be. */
  ghost predicate IsGetBody(content: Option<seq<byte>>, body: Frame) {
    var code, text := if content.Some? then 200 else 404, if content.Some? then content.value else [];
    GetResponse.IsValid(code, text) && |body| < TWO_TO_THE_31 && GetResponse.IsEncoding(code, text, body)
  }

  // ---- Channels ----

  predicate CanReceive<A>(p: Party<A>, expects: Option<int>, channel: seq<Frame>) {
    p.todo == [] && expects.Some? && channel != [] && |channel[0]| == expects.value
  }

  /** A receive that does not ask for the length of the frame at the head of its channel. */
  predicate Misaligned<A>(p: Party<A>, expects: Option<int>, channel: seq<Frame>) {
    p.todo == [] && expects.Some? && channel != [] && |channel[0]| != expects.value
  }
}
