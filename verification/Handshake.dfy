/**
 `Crypto::handshake` run by the two ends of a connection: the server side with `gen_iv` true and the
 client side with `gen_iv` false, over one FIFO channel in each direction.
 */
module Handshake {
  import opened Bytes
  import opened SecureChannel
  import opened Connections

  const IV_LEN: nat := 12
  const CONFIRM_PHRASE: seq<byte> := [67, 79, 78, 70, 73, 82, 77]

  /** Key agreement, key derivation and the cipher, with the private choices of both ends. */
  datatype Setup = Setup(
    publicKey: seq<byte> -> seq<byte>,
    agree: (seq<byte>, seq<byte>) -> Option<seq<byte>>,
    derive: seq<byte> -> seq<byte>,
    cipher: Cipher,
    serverPrivate: seq<byte>,
    clientPrivate: seq<byte>,
    generatedIv: seq<byte>)

  predicate Commutes(e: Setup, a: seq<byte>, b: seq<byte>) {
    e.agree(a, e.publicKey(b)).Some? && e.agree(a, e.publicKey(b)) == e.agree(b, e.publicKey(a))
  }

  /** All that is assumed: agreement commutes, the cipher inverts, lengths are representable. */
  ghost predicate IdealSetup(e: Setup) {
    && Ideal(e.cipher)
    && |e.generatedIv| == IV_LEN
    && (forall a, b :: Commutes(e, a, b))
    && (forall a :: |e.publicKey(a)| < TWO_TO_THE_31)
  }

  /** The assumptions can be met, even by a cipher that hides nothing and keys that are all the same. */
  lemma SomeSetupIsIdeal(iv: seq<byte>)
    requires |iv| == 12
    ensures exists e :: IdealSetup(e) && e.generatedIv == iv
  {
    var e := Setup(a => [], (a, b) => Some([]), shared => [], Marking(0, 0), [], [], iv);
    MarkingIsIdeal(0, 0);
    assert forall a, b :: Commutes(e, a, b);
    assert IdealSetup(e);
  }

  /** What a party is about to receive. */
  datatype Stage =
    | KeySize
    | KeyBytes(len: int)
    | Iv(key: seq<byte>)
    | ConfirmText(key: seq<byte>, iv: seq<byte>)
    | ConfirmMac(key: seq<byte>, iv: seq<byte>, text: seq<byte>)
    | Finished(key: seq<byte>, iv: seq<byte>)
    | Failed

  /** The sends it makes first, then what it waits for. */
  datatype Party = Party(todo: seq<Frame>, at: Stage)

  datatype State = State(server: Party, client: Party, up: seq<Frame>, down: seq<Frame>)

  datatype Move = ServerSends | ServerReceives | ClientSends | ClientReceives

  // ---- The procedure ----

  function Start(e: Setup, private: seq<byte>): Party {
    var public := e.publicKey(private);
    Party([EncodeInt(ToInt32(|public|)), public], KeySize)
  }

  function Expected(at: Stage): Option<int> {
    match at
    case KeySize => Some(INT_SIZE)
    case KeyBytes(len) => Some(len)
    case Iv(_) => Some(IV_LEN)
    case ConfirmText(_, _) => Some(|CONFIRM_PHRASE|)
    case ConfirmMac(_, _, _) => Some(MAC_LEN)
    case _ => None
  }

  function Confirmation(e: Setup, key: seq<byte>, iv: seq<byte>): seq<Frame> {
    var (text, mac) := e.cipher.seal(key, iv, CONFIRM_PHRASE);
    [text, mac]
  }

  /** The MAC verifies, and the plaintext is the phrase. */
  predicate Confirms(phrase: Option<seq<byte>>) {
    phrase.Some? && CString(phrase.value) == CONFIRM_PHRASE
  }

  function OnReceive(e: Setup, genIv: bool, private: seq<byte>, at: Stage, frame: Frame): Party {
    match at
    case KeySize => Party([], if |frame| == INT_SIZE then KeyBytes(DecodeInt(frame)) else Failed)
    case KeyBytes(_) =>
      (match e.agree(private, frame)
       case None => Party([], Failed)
       case Some(shared) =>
         var key := e.derive(shared);
         if genIv then Party([e.generatedIv] + Confirmation(e, key, e.generatedIv), ConfirmText(key, e.generatedIv))
         else Party([], Iv(key)))
    case Iv(key) => Party(Confirmation(e, key, frame), ConfirmText(key, frame))
    case ConfirmText(key, iv) => Party([], ConfirmMac(key, iv, frame))
    case ConfirmMac(key, iv, text) =>
      Party([], if Confirms(e.cipher.unseal(key, iv, text, frame)) then Finished(key, iv) else Failed)
    case _ => Party([], at)
  }

  predicate CanReceive(p: Party, channel: seq<Frame>) {
    p.todo == [] && Expected(p.at).Some? && channel != [] && |channel[0]| == Expected(p.at).value
  }

  predicate Enabled(s: State, m: Move) {
    match m
    case ServerSends => s.server.todo != []
    case ClientSends => s.client.todo != []
    case ServerReceives => CanReceive(s.server, s.up)
    case ClientReceives => CanReceive(s.client, s.down)
  }

  function Next(e: Setup, s: State, m: Move): State
    requires Enabled(s, m)
  {
    match m
    case ServerSends => s.(server := s.server.(todo := s.server.todo[1..]), down := s.down + [s.server.todo[0]])
    case ClientSends => s.(client := s.client.(todo := s.client.todo[1..]), up := s.up + [s.client.todo[0]])
    case ServerReceives => s.(server := OnReceive(e, true, e.serverPrivate, s.server.at, s.up[0]), up := s.up[1..])
    case ClientReceives => s.(client := OnReceive(e, false, e.clientPrivate, s.client.at, s.down[0]), down := s.down[1..])
  }

  function Initial(e: Setup): State {
    State(Start(e, e.serverPrivate), Start(e, e.clientPrivate), [], [])
  }

  ghost predicate IsRun(e: Setup, states: seq<State>, moves: seq<Move>) {
    && |states| == |moves| + 1
    && states[0] == Initial(e)
    && forall i :: 0 <= i < |moves| ==> Enabled(states[i], moves[i]) && states[i + 1] == Next(e, states[i], moves[i])
  }

  // ---- The invariant: both parties walk through two fixed lists of frames ----

  /** The key derived from the server's side of the agreement. */
  function SharedKey(e: Setup): seq<byte> {
    match e.agree(e.serverPrivate, e.publicKey(e.clientPrivate))
    case Some(secret) => e.derive(secret)
    case None => []
  }

  /** Everything the server will ever receive. */
  ghost function ToServer(e: Setup): seq<Frame>
    requires IdealSetup(e)
  {
    var public := e.publicKey(e.clientPrivate);
    [EncodeInt(ToInt32(|public|)), public] + Confirmation(e, SharedKey(e), e.generatedIv)
  }

  /** Everything the client will ever receive. */
  ghost function ToClient(e: Setup): seq<Frame>
    requires IdealSetup(e)
  {
    var public := e.publicKey(e.serverPrivate);
    [EncodeInt(ToInt32(|public|)), public, e.generatedIv] + Confirmation(e, SharedKey(e), e.generatedIv)
  }

  /** Where the server stands after receiving `r` frames. */
  ghost function ServerStage(e: Setup, r: nat): Stage
    requires IdealSetup(e) && r <= 4
  {
    var key, iv := SharedKey(e), e.generatedIv;
    match r
    case 0 => KeySize
    case 1 => KeyBytes(|e.publicKey(e.clientPrivate)|)
    case 2 => ConfirmText(key, iv)
    case 3 => ConfirmMac(key, iv, ToServer(e)[2])
    case 4 => Finished(key, iv)
  }

  ghost function ClientStage(e: Setup, r: nat): Stage
    requires IdealSetup(e) && r <= 5
  {
    var key, iv := SharedKey(e), e.generatedIv;
    match r
    case 0 => KeySize
    case 1 => KeyBytes(|e.publicKey(e.serverPrivate)|)
    case 2 => Iv(key)
    case 3 => ConfirmText(key, iv)
    case 4 => ConfirmMac(key, iv, ToClient(e)[3])
    case 5 => Finished(key, iv)
  }

  /** How many of its frames a party has committed to, after receiving `r`. */
  function ServerCommitted(r: nat): nat { if r < 2 then 2 else 5 }

  function ClientCommitted(r: nat): nat { if r < 3 then 2 else 4 }

  /** The server has received `i` frames and the client `j`. */
  ghost predicate At(e: Setup, s: State, i: nat, j: nat)
    requires IdealSetup(e)
  {
    && i <= ClientCommitted(j) && j <= ServerCommitted(i)
    && s.server.at == ServerStage(e, i) && s.client.at == ClientStage(e, j)
    && s.up + s.client.todo == ToServer(e)[i..ClientCommitted(j)]
    && s.down + s.server.todo == ToClient(e)[j..ServerCommitted(i)]
  }

  lemma InitialAt(e: Setup)
    requires IdealSetup(e)
    ensures At(e, Initial(e), 0, 0)
  {
    assert ToServer(e)[0..2] == Start(e, e.clientPrivate).todo;
    assert ToClient(e)[0..2] == Start(e, e.serverPrivate).todo;
  }

  lemma Frames(e: Setup)
    requires IdealSetup(e)
    ensures |ToServer(e)| == 4 && |ToClient(e)| == 5
    ensures forall i :: 0 <= i < 4 ==> Expected(ServerStage(e, i)) == Some(|ToServer(e)[i]|)
    ensures forall j :: 0 <= j < 5 ==> Expected(ClientStage(e, j)) == Some(|ToClient(e)[j]|)
  {
    assert |CONFIRM_PHRASE| == 7;
  }

  lemma SizeFrame(public: seq<byte>)
    requires |public| < TWO_TO_THE_31
    ensures DecodeInt(EncodeInt(ToInt32(|public|))) == |public|
  {
    DecodeEncodeInt(ToInt32(|public|));
  }

  lemma PhraseSurvives()
    ensures CString(CONFIRM_PHRASE) == CONFIRM_PHRASE
  {
    assert 0 !in CONFIRM_PHRASE;
  }

  /** What each end receives: a size, a public key, for the client the IV of 12 bytes, and 7 bytes of ciphertext with a MAC of 16. */
  lemma FramesReceived(e: Setup)
    requires IdealSetup(e)
    ensures |ToServer(e)| == 4 && DecodeInt(ToServer(e)[0]) == |ToServer(e)[1]| && ToServer(e)[1] == e.publicKey(e.clientPrivate)
    ensures |ToServer(e)[0]| == 4 && |ToServer(e)[2]| == 7 && |ToServer(e)[3]| == 16
    ensures |ToClient(e)| == 5 && DecodeInt(ToClient(e)[0]) == |ToClient(e)[1]| && ToClient(e)[1] == e.publicKey(e.serverPrivate)
    ensures |ToClient(e)[0]| == 4 && |ToClient(e)[2]| == 12 && ToClient(e)[2] == e.generatedIv && |ToClient(e)[3]| == 7 && |ToClient(e)[4]| == 16
    ensures e.cipher.unseal(SharedKey(e), e.generatedIv, ToServer(e)[2], ToServer(e)[3]) == Some([67, 79, 78, 70, 73, 82, 77])
    ensures e.cipher.unseal(SharedKey(e), e.generatedIv, ToClient(e)[3], ToClient(e)[4]) == Some([67, 79, 78, 70, 73, 82, 77])
  {
    SizeFrame(e.publicKey(e.clientPrivate));
    SizeFrame(e.publicKey(e.serverPrivate));
  }

  /** A confirmation is accepted exactly when it opens to the phrase, up to a first NUL; any other fails the handshake. */
  lemma AcceptsConfirmationIff(e: Setup, genIv: bool, private: seq<byte>, key: seq<byte>, iv: seq<byte>, text: seq<byte>, mac: Frame)
    ensures var p := OnReceive(e, genIv, private, ConfirmMac(key, iv, text), mac);
      if e.cipher.unseal(key, iv, text, mac).Some? && CString(e.cipher.unseal(key, iv, text, mac).value) == [67, 79, 78, 70, 73, 82, 77]
      then p == Party([], Finished(key, iv)) else p == Party([], Failed)
  {
  }

  /** A key that cannot be agreed on fails it, before anything is confirmed. */
  lemma RefusesKey(e: Setup, genIv: bool, private: seq<byte>, len: int, public: Frame)
    requires e.agree(private, public) == None
    ensures OnReceive(e, genIv, private, KeyBytes(len), public) == Party([], Failed)
  {
  }

  /** Both confirmations open, with the shared key and IV, to the phrase. */
  lemma ConfirmationOpens(e: Setup, genIv: bool, private: seq<byte>)
    requires IdealSetup(e)
    ensures var key, iv := SharedKey(e), e.generatedIv; var frames := Confirmation(e, key, iv);
      OnReceive(e, genIv, private, ConfirmMac(key, iv, frames[0]), frames[1]) == Party([], Finished(key, iv))
  {
    PhraseSurvives();
  }

  /** Receiving frame `i` takes the server to its next stage, with the frames it now commits to. */
  lemma ServerReceivesFrame(e: Setup, i: nat)
    requires IdealSetup(e) && i < 4
    ensures var p := OnReceive(e, true, e.serverPrivate, ServerStage(e, i), ToServer(e)[i]);
      p.at == ServerStage(e, i + 1) && p.todo == ToClient(e)[ServerCommitted(i)..ServerCommitted(i + 1)]
  {
    if i == 0 {
      SizeFrame(e.publicKey(e.clientPrivate));
    } else if i == 1 {
      assert Commutes(e, e.serverPrivate, e.clientPrivate);
    } else if i == 3 {
      ConfirmationOpens(e, true, e.serverPrivate);
    }
  }

  lemma ClientReceivesFrame(e: Setup, j: nat)
    requires IdealSetup(e) && j < 5
    ensures var p := OnReceive(e, false, e.clientPrivate, ClientStage(e, j), ToClient(e)[j]);
      p.at == ClientStage(e, j + 1) && p.todo == ToServer(e)[ClientCommitted(j)..ClientCommitted(j + 1)]
  {
    if j == 0 {
      SizeFrame(e.publicKey(e.serverPrivate));
    } else if j == 1 {
      assert Commutes(e, e.serverPrivate, e.clientPrivate);
    } else if j == 4 {
      ConfirmationOpens(e, false, e.clientPrivate);
    }
  }

  lemma SendKeeps(todo: seq<Frame>, channel: seq<Frame>)
    requires todo != []
    ensures (channel + [todo[0]]) + todo[1..] == channel + todo
  {
  }

  lemma ReceiveKeeps(channel: seq<Frame>, todo: seq<Frame>, all: seq<Frame>, from: nat, to: nat)
    requires from <= to <= |all| && channel != [] && channel + todo == all[from..to]
    ensures from < to && channel[0] == all[from] && channel[1..] + todo == all[from + 1..to]
  {
    assert (channel + todo)[0] == channel[0] && (channel + todo)[1..] == channel[1..] + todo;
  }

  lemma CommitKeeps(channel: seq<Frame>, todo: seq<Frame>, all: seq<Frame>, from: nat, mid: nat, to: nat)
    requires from <= mid <= to <= |all| && channel + [] == all[from..mid] && todo == all[mid..to]
    ensures channel + todo == all[from..to]
  {
    assert channel == channel + [];
  }

  lemma ServerReceiveKeepsAt(e: Setup, s: State, i: nat, j: nat)
    requires IdealSetup(e) && At(e, s, i, j) && Enabled(s, ServerReceives)
    ensures i < 4 && At(e, Next(e, s, ServerReceives), i + 1, j)
  {
    Frames(e);
    ReceiveKeeps(s.up, s.client.todo, ToServer(e), i, ClientCommitted(j));
    ServerReceivesFrame(e, i);
    var s' := Next(e, s, ServerReceives);
    CommitKeeps(s.down, s'.server.todo, ToClient(e), j, ServerCommitted(i), ServerCommitted(i + 1));
  }

  lemma ClientReceiveKeepsAt(e: Setup, s: State, i: nat, j: nat)
    requires IdealSetup(e) && At(e, s, i, j) && Enabled(s, ClientReceives)
    ensures j < 5 && At(e, Next(e, s, ClientReceives), i, j + 1)
  {
    Frames(e);
    ReceiveKeeps(s.down, s.server.todo, ToClient(e), j, ServerCommitted(i));
    ClientReceivesFrame(e, j);
    var s' := Next(e, s, ClientReceives);
    CommitKeeps(s.up, s'.client.todo, ToServer(e), i, ClientCommitted(j), ClientCommitted(j + 1));
  }

  lemma MoveKeepsAt(e: Setup, s: State, m: Move, i: nat, j: nat) returns (i': nat, j': nat)
    requires IdealSetup(e) && At(e, s, i, j) && Enabled(s, m)
    ensures At(e, Next(e, s, m), i', j')
    ensures i' == i + (if m == ServerReceives then 1 else 0) && j' == j + (if m == ClientReceives then 1 else 0)
  {
    i', j' := i, j;
    match m
    case ServerSends => SendKeeps(s.server.todo, s.down);
    case ClientSends => SendKeeps(s.client.todo, s.up);
    case ServerReceives =>
      ServerReceiveKeepsAt(e, s, i, j);
      i' := i + 1;
    case ClientReceives =>
      ClientReceiveKeepsAt(e, s, i, j);
      j' := j + 1;
  }

  /** The calls of `send` and `recv` still to come, of the eighteen in all. */
  function CallsLeft(s: State, i: nat, j: nat): int {
    4 - i + 5 - j + |s.server.todo| + (5 - ServerCommitted(i)) + |s.client.todo| + (4 - ClientCommitted(j))
  }

  lemma MoveTakesOneCall(e: Setup, s: State, m: Move, i: nat, j: nat)
    requires IdealSetup(e) && At(e, s, i, j) && Enabled(s, m)
    ensures var i', j' := i + (if m == ServerReceives then 1 else 0), j + (if m == ClientReceives then 1 else 0);
      CallsLeft(Next(e, s, m), i', j') == CallsLeft(s, i, j) - 1
  {
    match m
    case ServerReceives =>
      ServerReceiveKeepsAt(e, s, i, j);
      ServerReceivesFrame(e, i);
      Frames(e);
      ReceiveKeeps(s.up, s.client.todo, ToServer(e), i, ClientCommitted(j));
    case ClientReceives =>
      ClientReceiveKeepsAt(e, s, i, j);
      ClientReceivesFrame(e, j);
      Frames(e);
      ReceiveKeeps(s.down, s.server.todo, ToClient(e), j, ServerCommitted(i));
    case _ =>
  }

  lemma {:induction false} RunReaches(e: Setup, states: seq<State>, moves: seq<Move>, k: nat) returns (i: nat, j: nat)
    requires IdealSetup(e) && IsRun(e, states, moves) && k < |states|
    ensures At(e, states[k], i, j) && CallsLeft(states[k], i, j) == 18 - k
  {
    if k == 0 {
      InitialAt(e);
      i, j := 0, 0;
    } else {
      i, j := RunReaches(e, states, moves, k - 1);
      MoveTakesOneCall(e, states[k - 1], moves[k - 1], i, j);
      i, j := MoveKeepsAt(e, states[k - 1], moves[k - 1], i, j);
    }
  }

  // ---- Agreement ----

  /** The key that a party has derived. */
  function KeyOf(at: Stage): Option<seq<byte>> {
    match at
    case Iv(key) => Some(key)
    case ConfirmText(key, _) => Some(key)
    case ConfirmMac(key, _, _) => Some(key)
    case Finished(key, _) => Some(key)
    case _ => None
  }

  /** The IV that a party has generated or received. */
  function IvOf(at: Stage): Option<seq<byte>> {
    match at
    case ConfirmText(_, iv) => Some(iv)
    case ConfirmMac(_, iv, _) => Some(iv)
    case Finished(_, iv) => Some(iv)
    case _ => None
  }

  /**
   In every state of every interleaving: nobody has failed, every receive asks for the length of the
   frame at the head of its channel, keys and IVs that both have are equal, and unless both have
   finished with nothing left to send or deliver, some call can complete.
   */
  lemma HandshakeIsSafe(e: Setup, states: seq<State>, moves: seq<Move>, k: nat)
    requires IdealSetup(e) && IsRun(e, states, moves) && k < |states|
    ensures states[k].server.at != Failed && states[k].client.at != Failed
    ensures states[k].server.todo == [] && Expected(states[k].server.at).Some? && states[k].up != []
            ==> CanReceive(states[k].server, states[k].up)
    ensures states[k].client.todo == [] && Expected(states[k].client.at).Some? && states[k].down != []
            ==> CanReceive(states[k].client, states[k].down)
    ensures KeyOf(states[k].server.at).Some? && KeyOf(states[k].client.at).Some? ==> KeyOf(states[k].server.at) == KeyOf(states[k].client.at)
    ensures IvOf(states[k].server.at).Some? && IvOf(states[k].client.at).Some? ==> IvOf(states[k].server.at) == IvOf(states[k].client.at)
    ensures (forall m :: !Enabled(states[k], m)) ==> Agreed(e, states[k])
  {
    var i, j := RunReaches(e, states, moves, k);
    Frames(e);
    var s := states[k];
    if s.server.todo == [] && i < 4 && s.up != [] {
      assert s.up[0] == (s.up + s.client.todo)[0] == ToServer(e)[i];
    }
    if s.client.todo == [] && j < 5 && s.down != [] {
      assert s.down[0] == (s.down + s.server.todo)[0] == ToClient(e)[j];
    }
    if forall m :: !Enabled(s, m) {
      assert !Enabled(s, ServerSends) && !Enabled(s, ClientSends);
      assert !Enabled(s, ServerReceives) && !Enabled(s, ClientReceives);
      assert |s.up| == ClientCommitted(j) - i && |s.down| == ServerCommitted(i) - j by {
        assert s.up + [] == s.up && s.down + [] == s.down;
      }
    }
  }

  /** Both have finished with the same key and IV, and no frame is left over. */
  predicate Agreed(e: Setup, s: State) {
    && s.client.at == s.server.at
    && s.server.todo == [] && s.client.todo == [] && s.up == [] && s.down == []
    && s.server.at == Finished(SharedKey(e), e.generatedIv)
  }

  /** Every interleaving ends in agreement after exactly eighteen calls: no run is longer, none stops short. */
  lemma HandshakeAlwaysAgrees(e: Setup, states: seq<State>, moves: seq<Move>)
    requires IdealSetup(e) && IsRun(e, states, moves)
    ensures |moves| <= 18
    ensures |moves| == 18 <==> forall m :: !Enabled(states[|moves|], m)
    ensures |moves| == 18 ==> Agreed(e, states[|moves|])
  {
    var i, j := RunReaches(e, states, moves, |moves|);
    HandshakeIsSafe(e, states, moves, |moves|);
    var s := states[|moves|];
    if |moves| == 18 {
      assert i == 4 && j == 5 && s.server.todo == [] && s.client.todo == [];
    }
  }

  // ---- The procedure as a program ----

  /** How far one end comes on what it gets to receive: where it stands, what it has sent, what is left. */
  datatype Drive = Drive(at: Stage, sent: seq<Frame>, left: seq<Frame>)

  function DriveOn(e: Setup, genIv: bool, private: seq<byte>, p: Party, incoming: seq<Frame>): Drive
    decreases |incoming|
  {
    if Expected(p.at).Some? && incoming != [] && |incoming[0]| == Expected(p.at).value then
      var d := DriveOn(e, genIv, private, OnReceive(e, genIv, private, p.at, incoming[0]), incoming[1..]);
      d.(sent := p.todo + d.sent)
    else Drive(p.at, p.todo, incoming)
  }

  lemma ReceivesNext(e: Setup, genIv: bool, private: seq<byte>, at: Stage, incoming: seq<Frame>)
    requires CanReceive(Party([], at), incoming)
    ensures var p := OnReceive(e, genIv, private, at, incoming[0]);
      && DriveOn(e, genIv, private, Party([], at), incoming) == DriveOn(e, genIv, private, p, incoming[1..])
      && (Expected(p.at).None? ==> DriveOn(e, genIv, private, p, incoming[1..]) == Drive(p.at, p.todo, incoming[1..]))
  {
    var d := DriveOn(e, genIv, private, OnReceive(e, genIv, private, at, incoming[0]), incoming[1..]);
    assert [] + d.sent == d.sent;
  }

  datatype Result = Keys(key: seq<byte>, iv: seq<byte>) | HandshakeException | Hanging

  function ResultOf(at: Stage): Result {
    match at
    case Finished(key, iv) => Keys(key, iv)
    case Failed => HandshakeException
    case _ => Hanging
  }

  /** `Crypto::handshake` for one end. */
  method Run(e: Setup, genIv: bool, private: seq<byte>, sock: Connection) returns (r: Result)
    modifies sock
    ensures var d := DriveOn(e, genIv, private, Start(e, private), old(sock.incoming));
      sock.outgoing == old(sock.outgoing) + d.sent && sock.incoming == d.left && r == ResultOf(d.at)
  {
    var public := e.publicKey(private);
    sock.Send(EncodeInt(ToInt32(|public|)));
    sock.Send(public);
    assert sock.outgoing == old(sock.outgoing) + Start(e, private).todo;

    var size := sock.Recv(INT_SIZE);
    if size.None? { return Hanging; }
    assert old(sock.incoming)[0] == size.value && old(sock.incoming)[1..] == sock.incoming;
    r := Agree(e, genIv, private, DecodeInt(size.value), sock);
  }

  /** From the other end's public key on. */
  method Agree(e: Setup, genIv: bool, private: seq<byte>, size: int, sock: Connection) returns (r: Result)
    modifies sock
    ensures var d := DriveOn(e, genIv, private, Party([], KeyBytes(size)), old(sock.incoming));
      sock.outgoing == old(sock.outgoing) + d.sent && sock.incoming == d.left && r == ResultOf(d.at)
  {
    var other := sock.Recv(size);
    if other.None? { return Hanging; }
    assert old(sock.incoming)[0] == other.value && old(sock.incoming)[1..] == sock.incoming;
    ReceivesNext(e, genIv, private, KeyBytes(size), old(sock.incoming));
    var shared := e.agree(private, other.value);
    if shared.None? {
      return HandshakeException;
    }
    var key := e.derive(shared.value);
    r := Confirm(e, genIv, private, key, sock);
  }

  /** From the derived key on: the IV and the two confirmations. */
  method Confirm(e: Setup, genIv: bool, private: seq<byte>, key: seq<byte>, sock: Connection) returns (r: Result)
    modifies sock
    ensures var p := if genIv then Party([e.generatedIv] + Confirmation(e, key, e.generatedIv), ConfirmText(key, e.generatedIv))
                     else Party([], Iv(key));
      var d := DriveOn(e, genIv, private, p, old(sock.incoming));
      sock.outgoing == old(sock.outgoing) + d.sent && sock.incoming == d.left && r == ResultOf(d.at)
  {
    var iv := e.generatedIv;
    if genIv {
      sock.Send(iv);
    } else {
      var data := sock.Recv(IV_LEN);
      if data.None? { return Hanging; }
      iv := data.value;
      assert old(sock.incoming)[0] == iv && old(sock.incoming)[1..] == sock.incoming;
    }
    var (confirmSendCt, confirmSendMac) := e.cipher.seal(key, iv, CONFIRM_PHRASE);
    sock.Send(confirmSendCt);
    sock.Send(confirmSendMac);
    SendsFirst(e, genIv, private, [confirmSendCt, confirmSendMac], ConfirmText(key, iv), sock.incoming);
    SendsFirst(e, genIv, private, [iv, confirmSendCt, confirmSendMac], ConfirmText(key, iv), sock.incoming);
    r := CheckConfirmation(e, genIv, private, key, iv, sock);
  }

  lemma SendsFirst(e: Setup, genIv: bool, private: seq<byte>, todo: seq<Frame>, at: Stage, incoming: seq<Frame>)
    ensures var d := DriveOn(e, genIv, private, Party([], at), incoming);
      DriveOn(e, genIv, private, Party(todo, at), incoming) == d.(sent := todo + d.sent)
  {
  }

  /** The confirmation of the other end. */
  method CheckConfirmation(e: Setup, genIv: bool, private: seq<byte>, key: seq<byte>, iv: seq<byte>, sock: Connection) returns (r: Result)
    modifies sock`incoming
    ensures var d := DriveOn(e, genIv, private, Party([], ConfirmText(key, iv)), old(sock.incoming));
      d.sent == [] && sock.incoming == d.left && r == ResultOf(d.at)
  {
    var confirmRecvCt := sock.Recv(|CONFIRM_PHRASE|);
    if confirmRecvCt.None? { return Hanging; }
    assert old(sock.incoming)[0] == confirmRecvCt.value && old(sock.incoming)[1..] == sock.incoming;
    ReceivesNext(e, genIv, private, ConfirmText(key, iv), old(sock.incoming));
    r := CheckMac(e, genIv, private, key, iv, confirmRecvCt.value, sock);
  }

  lemma MacIsLast(e: Setup, genIv: bool, private: seq<byte>, key: seq<byte>, iv: seq<byte>, text: seq<byte>, incoming: seq<Frame>)
    requires CanReceive(Party([], ConfirmMac(key, iv, text)), incoming)
    ensures DriveOn(e, genIv, private, Party([], ConfirmMac(key, iv, text)), incoming)
            == Drive(if Confirms(e.cipher.unseal(key, iv, text, incoming[0])) then Finished(key, iv) else Failed, [], incoming[1..])
  {
    ReceivesNext(e, genIv, private, ConfirmMac(key, iv, text), incoming);
  }

  method CheckMac(e: Setup, genIv: bool, private: seq<byte>, key: seq<byte>, iv: seq<byte>, text: seq<byte>, sock: Connection) returns (r: Result)
    modifies sock`incoming
    ensures var d := DriveOn(e, genIv, private, Party([], ConfirmMac(key, iv, text)), old(sock.incoming));
      d.sent == [] && sock.incoming == d.left && r == ResultOf(d.at)
  {
    var confirmRecvMac := sock.Recv(MAC_LEN);
    if confirmRecvMac.None? { return Hanging; }
    assert old(sock.incoming)[0] == confirmRecvMac.value && old(sock.incoming)[1..] == sock.incoming;
    MacIsLast(e, genIv, private, key, iv, text, old(sock.incoming));
    var phrase := e.cipher.unseal(key, iv, text, confirmRecvMac.value);
    if !Confirms(phrase) { return HandshakeException; }
    return Keys(key, iv);
  }

  /** Given what the other end sends, each end finishes with the shared key and the server's IV. */
  lemma BothEndsFinish(e: Setup)
    requires IdealSetup(e)
    ensures DriveOn(e, true, e.serverPrivate, Start(e, e.serverPrivate), ToServer(e)).at == Finished(SharedKey(e), e.generatedIv)
    ensures DriveOn(e, false, e.clientPrivate, Start(e, e.clientPrivate), ToClient(e)).at == Finished(SharedKey(e), e.generatedIv)
    ensures DriveOn(e, true, e.serverPrivate, Start(e, e.serverPrivate), ToServer(e)).sent == ToClient(e)
    ensures DriveOn(e, false, e.clientPrivate, Start(e, e.clientPrivate), ToClient(e)).sent == ToServer(e)
  {
    ServerDrives(e, 0, Start(e, e.serverPrivate));
    ClientDrives(e, 0, Start(e, e.clientPrivate));
  }

  lemma {:induction false} ServerDrives(e: Setup, i: nat, p: Party)
    requires IdealSetup(e) && i <= 4 && p.at == ServerStage(e, i)
    requires p.todo == ToClient(e)[if i == 0 then 0 else ServerCommitted(i - 1)..ServerCommitted(i)]
    ensures var d := DriveOn(e, true, e.serverPrivate, p, ToServer(e)[i..]);
      d.at == ServerStage(e, 4) && d.sent == ToClient(e)[if i == 0 then 0 else ServerCommitted(i - 1)..]
    decreases 4 - i
  {
    Frames(e);
    if i < 4 {
      ServerReceivesFrame(e, i);
      assert ToServer(e)[i..][0] == ToServer(e)[i] && ToServer(e)[i..][1..] == ToServer(e)[i + 1..];
      ServerDrives(e, i + 1, OnReceive(e, true, e.serverPrivate, ServerStage(e, i), ToServer(e)[i]));
    }
  }

  lemma {:induction false} ClientDrives(e: Setup, j: nat, p: Party)
    requires IdealSetup(e) && j <= 5 && p.at == ClientStage(e, j)
    requires p.todo == ToServer(e)[if j == 0 then 0 else ClientCommitted(j - 1)..ClientCommitted(j)]
    ensures var d := DriveOn(e, false, e.clientPrivate, p, ToClient(e)[j..]);
      d.at == ClientStage(e, 5) && d.sent == ToServer(e)[if j == 0 then 0 else ClientCommitted(j - 1)..]
    decreases 5 - j
  {
    Frames(e);
    if j < 5 {
      ClientReceivesFrame(e, j);
      assert ToClient(e)[j..][0] == ToClient(e)[j] && ToClient(e)[j..][1..] == ToClient(e)[j + 1..];
      ClientDrives(e, j + 1, OnReceive(e, false, e.clientPrivate, ClientStage(e, j), ToClient(e)[j]));
    }
  }
}
