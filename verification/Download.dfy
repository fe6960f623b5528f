/** One peer-to-peer connection: a peer downloads one RFC from another. */
module Download {
  import opened Bytes
  import opened IndexSpec
  import opened Records
  import opened Protocol
  import opened Session
  import GetResponse

  /** Peer `from` asks peer `to` for RFC `n`; `up` carries the requests, `down` the response. */
  datatype Link = Link(
    from: nat, to: nat, n: int32,
    fetch: Party<FetchAt>, serve: Party<ServeAt>, up: seq<Frame>, down: seq<Frame>)
  {
    function ToServer(): seq<Frame> { up + fetch.todo }

    function ToFetcher(): seq<Frame> { down + serve.todo }
  }

  function Opened(from: nat, to: nat, n: int32, me: Peer): Link {
    Link(from, to, n, FetchStart(me, n), ServeStart(), [], [])
  }

  /** A response body that yields one of `contents`. */
  ghost predicate Delivers(contents: iset<seq<byte>>, body: Frame) {
    match GetResponse.Parse(body)
    case Parsed(Found(content), _) => content in contents
    case _ => false
  }

  /** The frames of the request, after the first `k`. */
  function Asked(me: Peer, n: int32, k: nat): seq<Frame>
    requires k <= 5
  {
    FetchStart(me, n).todo[k..]
  }

  predicate Over(at: FetchAt) {
    at == Done || at == Ended
  }

  /** Nothing but the response, and nothing else, can reach the downloading peer. */
  ghost predicate LinkInv(me: Peer, l: Link, contents: iset<seq<byte>>) {
    && 0 < l.n < 0x8000
    && match l.serve.at
       case ServeHostLen => l.fetch.at == WaitSize && l.ToFetcher() == [] && l.ToServer() == Asked(me, l.n, 0)
       case ServeHost(len) => len == |me.host| && l.fetch.at == WaitSize && l.ToFetcher() == [] && l.ToServer() == Asked(me, l.n, 1)
       case ServePort => l.fetch.at == WaitSize && l.ToFetcher() == [] && l.ToServer() == Asked(me, l.n, 2)
       case ServeMessage =>
         || (l.fetch.at == WaitSize && l.ToFetcher() == [] && l.ToServer() == Asked(me, l.n, 3))
         || (l.fetch.at == WaitSize && l.ToServer() == [] && IsSized(l.ToFetcher()) && Delivers(contents, l.ToFetcher()[1]))
         || (l.fetch.at.WaitBody? && l.ToServer() == [] && |l.ToFetcher()| == 1 && |l.ToFetcher()[0]| == l.fetch.at.size
             && Delivers(contents, l.ToFetcher()[0]))
         || (Over(l.fetch.at) && l.ToFetcher() == [] && l.ToServer() == [EncodeInt(PEER_DISCONNECT)])
       case ServeNumber => l.fetch.at == WaitSize && l.ToFetcher() == [] && l.ToServer() == Asked(me, l.n, 4)
       case Reading(m) => m == l.n && l.fetch.at == WaitSize && l.ToFetcher() == [] && l.ToServer() == []
       case ServeClosed => Over(l.fetch.at) && l.ToFetcher() == [] && l.ToServer() == []
  }

  lemma OpenedInv(from: nat, to: nat, n: int32, me: Peer, contents: iset<seq<byte>>)
    requires 0 < n < 0x8000
    ensures LinkInv(me, Opened(from, to, n, me), contents)
  {
    var l := Opened(from, to, n, me);
    assert l.ToServer() == FetchStart(me, n).todo == Asked(me, n, 0);
  }

  lemma FetchSendKeeps(me: Peer, l: Link, contents: iset<seq<byte>>)
    requires LinkInv(me, l, contents) && l.fetch.todo != []
    ensures LinkInv(me, l.(fetch := l.fetch.(todo := l.fetch.todo[1..]), up := l.up + [l.fetch.todo[0]]), contents)
  {
    SendKeepsFrames(l.up, l.fetch.todo);
    var l' := l.(fetch := l.fetch.(todo := l.fetch.todo[1..]), up := l.up + [l.fetch.todo[0]]);
    assert l'.ToServer() == l.ToServer() && l'.ToFetcher() == l.ToFetcher();
  }

  lemma ServeSendKeeps(me: Peer, l: Link, contents: iset<seq<byte>>)
    requires LinkInv(me, l, contents) && l.serve.todo != []
    ensures LinkInv(me, l.(serve := l.serve.(todo := l.serve.todo[1..]), down := l.down + [l.serve.todo[0]]), contents)
  {
    SendKeepsFrames(l.down, l.serve.todo);
    var l' := l.(serve := l.serve.(todo := l.serve.todo[1..]), down := l.down + [l.serve.todo[0]]);
    assert l'.ToServer() == l.ToServer() && l'.ToFetcher() == l.ToFetcher();
  }

  function AfterFetchReceives(l: Link): Link
    requires CanReceive(l.fetch, FetchExpects(l.fetch.at), l.down)
  {
    l.(fetch := FetchReceives(l.fetch.at, l.down[0]).0, down := l.down[1..])
  }

  function AfterServeReceives(l: Link): Link
    requires CanReceive(l.serve, ServeExpects(l.serve.at), l.up)
  {
    l.(serve := Party([], ServeReceives(l.serve.at, l.up[0])), up := l.up[1..])
  }

  /** The download never misses: the body that arrives holds one of the contents and is followed by a disconnect. */
  lemma FetchReceiveKeeps(me: Peer, l: Link, contents: iset<seq<byte>>)
    requires LinkInv(me, l, contents) && CanReceive(l.fetch, FetchExpects(l.fetch.at), l.down)
    ensures LinkInv(me, AfterFetchReceives(l), contents)
    ensures l.fetch.at == WaitSize ==> AfterFetchReceives(l).fetch.at.WaitBody? && FetchReceives(l.fetch.at, l.down[0]).1 == None
    ensures l.fetch.at.WaitBody? ==> AfterFetchReceives(l).fetch.at == Done
    ensures l.fetch.at.WaitBody? ==> FetchReceives(l.fetch.at, l.down[0]).1.Some? && FetchReceives(l.fetch.at, l.down[0]).1.value in contents
  {
    HeadOf(l.down, l.serve.todo);
    var l' := AfterFetchReceives(l);
    assert l'.ToFetcher() == l.ToFetcher()[1..];
    assert l'.ToServer() == l.ToServer() + l'.fetch.todo by { assert l.up + [] == l.up; }
    if l.fetch.at == WaitSize { DecodeEncodeInt(|l.ToFetcher()[1]|); }
  }

  lemma AskedFrames(me: Peer, n: int32)
    requires CleanPeer(me) && 0 < n < 0x8000
    ensures DecodeInt(Asked(me, n, 0)[0]) == |me.host| && Asked(me, n, 1)[0] == me.host && |Asked(me, n, 2)[0]| == INT_SIZE
    ensures DecodeInt(Asked(me, n, 3)[0]) == GET && DecodeShort(Asked(me, n, 4)[0]) == n && |Asked(me, n, 4)[0]| == SHORT_SIZE
    ensures DecodeInt(EncodeInt(PEER_DISCONNECT)) == PEER_DISCONNECT
  {
    PrologueFrames(me);
    DecodeEncodeInt(GET);
    DecodeEncodeInt(PEER_DISCONNECT);
    ShortCarriesNumberIff(n);
  }

  lemma ServeReceiveKeeps(me: Peer, l: Link, contents: iset<seq<byte>>)
    requires CleanPeer(me) && LinkInv(me, l, contents) && CanReceive(l.serve, ServeExpects(l.serve.at), l.up)
    ensures LinkInv(me, AfterServeReceives(l), contents)
  {
    HeadOf(l.up, l.fetch.todo);
    AskedFrames(me, l.n);
    var l' := AfterServeReceives(l);
    assert l'.ToServer() == l.ToServer()[1..];
    assert l'.ToFetcher() == l.ToFetcher();
    assert forall k :: 0 <= k < 5 ==> Asked(me, l.n, k)[1..] == Asked(me, l.n, k + 1);
    assert Asked(me, l.n, 5) == [];
  }

  /** The serving peer's answer, given that the file is there. */
  lemma ServeReadKeeps(me: Peer, l: Link, content: seq<byte>, body: Frame, contents: iset<seq<byte>>)
    requires LinkInv(me, l, contents) && l.serve.todo == [] && l.serve.at.Reading?
    requires 0 !in content && content in contents && IsGetBody(Some(content), body)
    ensures LinkInv(me, l.(serve := Party(Sized(body), ServeMessage)), contents)
  {
    var l' := l.(serve := Party(Sized(body), ServeMessage));
    assert l.down + [] == l.down;
    assert l'.ToFetcher() == Sized(body) && l'.ToServer() == l.ToServer();
    ToInt32Identity(|body|);
    GetResponse.RoundTripIff(content, []);
    assert body + [] == body;
  }

  // ---- Alignment and progress ----

  lemma LinkAligned(me: Peer, l: Link, contents: iset<seq<byte>>)
    requires CleanPeer(me) && LinkInv(me, l, contents)
    ensures !Misaligned(l.fetch, FetchExpects(l.fetch.at), l.down)
    ensures !Misaligned(l.serve, ServeExpects(l.serve.at), l.up)
  {
    AskedFrames(me, l.n);
    if l.fetch.todo == [] && l.down != [] { HeadOf(l.down, l.serve.todo); }
    if l.serve.todo == [] && l.up != [] { HeadOf(l.up, l.fetch.todo); }
    assert forall k :: 0 <= k < 5 ==> Asked(me, l.n, k)[0] == FetchStart(me, l.n).todo[k];
  }

  /** Until the serving side has closed, one of the two ends can go on. */
  lemma LinkProgress(me: Peer, l: Link, contents: iset<seq<byte>>)
    requires CleanPeer(me) && LinkInv(me, l, contents)
    ensures || l.fetch.todo != [] || l.serve.todo != []
            || CanReceive(l.fetch, FetchExpects(l.fetch.at), l.down)
            || CanReceive(l.serve, ServeExpects(l.serve.at), l.up)
            || l.serve.at.Reading?
            || (Over(l.fetch.at) && l.serve.at == ServeClosed)
  {
    LinkAligned(me, l, contents);
    if l.fetch.todo == [] && l.serve.todo == [] {
      assert l.up + [] == l.up && l.down + [] == l.down;
    }
  }
}
