/** The encrypted sockets over an ideal authenticated cipher. */
module SecureChannel {
  import opened Bytes
  import opened Transport

  const MAC_LEN: nat := 16

  /** Authenticated encryption: key, IV and plaintext to ciphertext and MAC, and back. */
  datatype Cipher = Cipher(
    seal: (seq<byte>, seq<byte>, seq<byte>) -> (seq<byte>, seq<byte>),
    unseal: (seq<byte>, seq<byte>, seq<byte>, seq<byte>) -> Option<seq<byte>>)

  /** All that is assumed of the cipher: it inverts, and keeps lengths. */
  ghost predicate Ideal(c: Cipher) {
    && (forall key, iv, p ::
          && |c.seal(key, iv, p).0| == |p| && |c.seal(key, iv, p).1| == MAC_LEN
          && c.unseal(key, iv, c.seal(key, iv, p).0, c.seal(key, iv, p).1) == Some(p))
    && (forall key, iv, ct, mac :: c.unseal(key, iv, ct, mac).Some? ==> |c.unseal(key, iv, ct, mac).value| == |ct|)
  }

  /** A cipher with the key and IV that the handshake left in both sockets. */
  datatype Keyed = Keyed(cipher: Cipher, key: seq<byte>, iv: seq<byte>) {
    /** The bytes one encrypted `send` puts on the wire. */
    function Record(data: Frame): seq<byte> {
      cipher.seal(key, iv, data).0 + cipher.seal(key, iv, data).1
    }

    /** What one encrypted `recv` of `len` bytes makes of the front of the wire. */
    function Open(wire: seq<byte>, len: nat): Option<Frame>
      requires len + MAC_LEN <= |wire|
    {
      cipher.unseal(key, iv, wire[..len], wire[len..len + MAC_LEN])
    }
  }

  /** The bytes in flight for a queue of undelivered sends. */
  function Wire(k: Keyed, queue: seq<Frame>): seq<byte> {
    if queue == [] then [] else k.Record(queue[0]) + Wire(k, queue[1..])
  }

  lemma {:induction false} WireAppend(k: Keyed, queue: seq<Frame>, data: Frame)
    ensures Wire(k, queue + [data]) == Wire(k, queue) + k.Record(data)
  {
    if queue == [] {
      assert Wire(k, [data]) == k.Record(data) + Wire(k, []);
    } else {
      assert (queue + [data])[1..] == queue[1..] + [data];
      WireAppend(k, queue[1..], data);
    }
  }

  lemma OpensHead(k: Keyed, queue: seq<Frame>)
    requires Ideal(k.cipher) && queue != []
    ensures var len := |queue[0]|;
      |Wire(k, queue)| >= len + MAC_LEN && k.Open(Wire(k, queue), len) == Some(queue[0])
      && Wire(k, queue)[len + MAC_LEN..] == Wire(k, queue[1..])
  {
    var wire, len := Wire(k, queue), |queue[0]|;
    var sealed := k.cipher.seal(k.key, k.iv, queue[0]);
    assert wire == sealed.0 + sealed.1 + Wire(k, queue[1..]);
    assert wire[..len] == sealed.0 && wire[len..len + MAC_LEN] == sealed.1;
  }

  // ---- Whole sessions: the same calls over three transports ----

  /** The socket calls on one direction of a connection, in the order in which they complete. */
  datatype Io = SendCall(data: Frame) | RecvCall(len: nat)

  /** Every receive asks for exactly the length of the oldest undelivered send. */
  predicate Aligned(ios: seq<Io>, queue: seq<Frame>) {
    if ios == [] then true
    else match ios[0]
      case SendCall(data) => Aligned(ios[1..], queue + [data])
      case RecvCall(len) => queue != [] && |queue[0]| == len && Aligned(ios[1..], queue[1..])
  }

  /** What the receives deliver, and the final stream; None where a receive fails or has too few bytes. */
  datatype Outcome = Outcome(delivered: seq<Frame>, stream: seq<byte>)

  function PlainRun(ios: seq<Io>, stream: seq<byte>): Option<Outcome> {
    if ios == [] then Some(Outcome([], stream))
    else match ios[0]
      case SendCall(data) => PlainRun(ios[1..], stream + data)
      case RecvCall(len) =>
        if |stream| < len then None
        else match PlainRun(ios[1..], stream[len..])
          case None => None
          case Some(o) => Some(Outcome([stream[..len]] + o.delivered, o.stream))
  }

  function SecureRun(k: Keyed, ios: seq<Io>, wire: seq<byte>): Option<Outcome> {
    if ios == [] then Some(Outcome([], wire))
    else match ios[0]
      case SendCall(data) => SecureRun(k, ios[1..], wire + k.Record(data))
      case RecvCall(len) =>
        if |wire| < len + MAC_LEN then None
        else match (k.Open(wire, len), SecureRun(k, ios[1..], wire[len + MAC_LEN..]))
          case (Some(p), Some(o)) => Some(Outcome([p] + o.delivered, o.stream))
          case _ => None
  }

  /** The undelivered sends at the end of an aligned session. */
  function Undelivered(ios: seq<Io>, queue: seq<Frame>): seq<Frame>
    requires Aligned(ios, queue)
  {
    if ios == [] then queue
    else match ios[0]
      case SendCall(data) => Undelivered(ios[1..], queue + [data])
      case RecvCall(_) => Undelivered(ios[1..], queue[1..])
  }

  /**
   Transparency: in an aligned session the encrypted sockets deliver exactly what the plain ones
   deliver, and at every moment the wire holds the records of the undelivered sends.
   */
  lemma {:induction false} EncryptionIsTransparent(k: Keyed, ios: seq<Io>, queue: seq<Frame>)
    requires Ideal(k.cipher) && Aligned(ios, queue)
    ensures PlainRun(ios, Flatten(queue)).Some? && SecureRun(k, ios, Wire(k, queue)).Some?
    ensures SecureRun(k, ios, Wire(k, queue)).value.delivered == PlainRun(ios, Flatten(queue)).value.delivered
    ensures PlainRun(ios, Flatten(queue)).value.stream == Flatten(Undelivered(ios, queue))
    ensures SecureRun(k, ios, Wire(k, queue)).value.stream == Wire(k, Undelivered(ios, queue))
  {
    if ios != [] {
      match ios[0]
      case SendCall(data) =>
        FlattenAppend(queue, data);
        WireAppend(k, queue, data);
        EncryptionIsTransparent(k, ios[1..], queue + [data]);
      case RecvCall(len) =>
        OpensHead(k, queue);
        assert Flatten(queue)[..len] == queue[0] && Flatten(queue)[len..] == Flatten(queue[1..]);
        EncryptionIsTransparent(k, ios[1..], queue[1..]);
    }
  }

  // ---- Alignment is needed ----

  /** A cipher that checks nothing but the length of what it opens: one length is tagged with `mark`, all others with 0. */
  function Marking(len: nat, mark: byte): Cipher {
    Cipher(
      (key, iv, p) => (p, Tag(len, mark, |p|)),
      (key, iv, ct, mac) => if mac == Tag(len, mark, |ct|) then Some(ct) else None)
  }

  function Tag(len: nat, mark: byte, textLen: nat): (tag: seq<byte>)
    ensures |tag| == MAC_LEN
  {
    seq(MAC_LEN, _ => if textLen == len then mark else 0)
  }

  function Marked(len: nat, mark: byte): Keyed {
    Keyed(Marking(len, mark), [], [])
  }

  lemma MarkingIsIdeal(len: nat, mark: byte)
    ensures Ideal(Marking(len, mark))
  {
  }

  /** The mark shows nowhere in the first `n` bytes of a wire, as long as `n` is at most the marked length. */
  lemma {:induction false} MarkComesLate(len: nat, queue: seq<Frame>, n: nat)
    requires n <= len && n <= |Wire(Marked(len, 1), queue)|
    ensures n <= |Wire(Marked(len, 0), queue)| && Wire(Marked(len, 1), queue)[..n] == Wire(Marked(len, 0), queue)[..n]
  {
    if queue != [] {
      var one, zero := Marked(len, 1).Record(queue[0]), Marked(len, 0).Record(queue[0]);
      var size := |queue[0]| + MAC_LEN;
      if n <= |queue[0]| {
        assert one[..n] == queue[0][..n] == zero[..n];
        assert Wire(Marked(len, 1), queue)[..n] == one[..n];
        assert Wire(Marked(len, 0), queue)[..n] == zero[..n];
      } else {
        assert |queue[0]| != len && one == zero;
        if n <= size {
          assert Wire(Marked(len, 1), queue)[..n] == one[..n];
          assert Wire(Marked(len, 0), queue)[..n] == zero[..n];
        } else {
          MarkComesLate(len, queue[1..], n - size);
          assert Wire(Marked(len, 1), queue)[..n] == one + Wire(Marked(len, 1), queue[1..])[..n - size];
          assert Wire(Marked(len, 0), queue)[..n] == zero + Wire(Marked(len, 0), queue[1..])[..n - size];
        }
      }
    }
  }

  /** A receive of the marked length from a wire that begins with a record of another length: one of two marks exposes it. */
  lemma OneMarkExposes(queue: seq<Frame>, len: nat)
    requires queue == [] || |queue[0]| != len
    ensures exists mark: byte :: SecureRun(Marked(len, mark), [RecvCall(len)], Wire(Marked(len, mark), queue)) == None
  {
    var w0, w1 := Wire(Marked(len, 0), queue), Wire(Marked(len, 1), queue);
    if |w0| < len + MAC_LEN || |w1| < len + MAC_LEN {
      var mark := if |w0| < len + MAC_LEN then 0 else 1;
      assert SecureRun(Marked(len, mark), [RecvCall(len)], Wire(Marked(len, mark), queue)) == None;
    } else {
      var record, size := Marked(len, 1).Record(queue[0]), |queue[0]| + MAC_LEN;
      assert record == Marked(len, 0).Record(queue[0]);
      if len + MAC_LEN <= size {
        assert w0[..len + MAC_LEN] == record[..len + MAC_LEN] == w1[..len + MAC_LEN];
      } else {
        MarkComesLate(len, queue[1..], len + MAC_LEN - size);
        assert w0[..len + MAC_LEN] == record + Wire(Marked(len, 0), queue[1..])[..len + MAC_LEN - size];
        assert w1[..len + MAC_LEN] == record + Wire(Marked(len, 1), queue[1..])[..len + MAC_LEN - size];
      }
      SameMacFails(len, w0, w1);
      var mark := if Marked(len, 0).Open(w0, len) == None then 0 else 1;
      assert SecureRun(Marked(len, mark), [RecvCall(len)], Wire(Marked(len, mark), queue)) == None;
    }
  }

  lemma SameMacFails(len: nat, w0: seq<byte>, w1: seq<byte>)
    requires len + MAC_LEN <= |w0| && len + MAC_LEN <= |w1| && w0[..len + MAC_LEN] == w1[..len + MAC_LEN]
    ensures Marked(len, 0).Open(w0, len) == None || Marked(len, 1).Open(w1, len) == None
  {
    assert w0[len..len + MAC_LEN] == w0[..len + MAC_LEN][len..] == w1[len..len + MAC_LEN];
    assert Tag(len, 0, len)[0] == 0 && Tag(len, 1, len)[0] == 1;
  }

  lemma FirstReceiveFails(k: Keyed, ios: seq<Io>, wire: seq<byte>)
    requires ios != [] && ios[0].RecvCall? && SecureRun(k, [ios[0]], wire) == None
    ensures SecureRun(k, ios, wire) == None
  {
    assert [ios[0]][1..] == [];
  }

  /** A misaligned session fails over encrypted sockets, for some ideal cipher. */
  lemma {:induction false} MisalignedSessionFails(ios: seq<Io>, queue: seq<Frame>)
    requires !Aligned(ios, queue)
    ensures exists k: Keyed :: Ideal(k.cipher) && SecureRun(k, ios, Wire(k, queue)) == None
  {
    match ios[0]
    case SendCall(data) =>
      MisalignedSessionFails(ios[1..], queue + [data]);
      var k: Keyed :| Ideal(k.cipher) && SecureRun(k, ios[1..], Wire(k, queue + [data])) == None;
      WireAppend(k, queue, data);
      assert SecureRun(k, ios, Wire(k, queue)) == None;
    case RecvCall(len) =>
      if queue != [] && |queue[0]| == len {
        MisalignedSessionFails(ios[1..], queue[1..]);
        var k: Keyed :| Ideal(k.cipher) && SecureRun(k, ios[1..], Wire(k, queue[1..])) == None;
        OpensHead(k, queue);
        assert SecureRun(k, ios, Wire(k, queue)) == None;
      } else {
        OneMarkExposes(queue, len);
        var mark: byte :| SecureRun(Marked(len, mark), [RecvCall(len)], Wire(Marked(len, mark), queue)) == None;
        MarkingIsIdeal(len, mark);
        FirstReceiveFails(Marked(len, mark), ios, Wire(Marked(len, mark), queue));
      }
  }

  /** Alignment is exactly what encrypted sockets need: a session succeeds under every ideal cipher iff it is aligned. */
  lemma AlignedIff(ios: seq<Io>, queue: seq<Frame>)
    ensures Aligned(ios, queue) <==> forall k: Keyed :: Ideal(k.cipher) ==> SecureRun(k, ios, Wire(k, queue)).Some?
  {
    if Aligned(ios, queue) {
      forall k: Keyed | Ideal(k.cipher) ensures SecureRun(k, ios, Wire(k, queue)).Some? {
        EncryptionIsTransparent(k, ios, queue);
      }
    } else {
      MisalignedSessionFails(ios, queue);
    }
  }

  /** The plain sockets do not need it: two sends can be received as one, which some ideal cipher refuses. */
  lemma MisalignedSessionsDiffer()
    ensures var ios := [SendCall([1]), SendCall([2]), RecvCall(2)];
      && PlainRun(ios, []) == Some(Outcome([[1, 2]], []))
      && exists k: Keyed :: Ideal(k.cipher) && SecureRun(k, ios, []) == None
  {
    var ios := [SendCall([1]), SendCall([2]), RecvCall(2)];
    assert ios[1..] == [SendCall([2]), RecvCall(2)] && ios[1..][1..] == [RecvCall(2)] && ios[1..][1..][1..] == [];
    var s: seq<byte> := [];
    var both: seq<byte> := [1, 2];
    assert s + [1] == [1] && [1] + [2] == both;
    assert both[..2] == both && both[2..] == s && [both] + [] == [both];
    assert PlainRun([], s) == Some(Outcome([], s));
    assert PlainRun([RecvCall(2)], both) == Some(Outcome([both], s));
    assert PlainRun([SendCall([2]), RecvCall(2)], [1]) == Some(Outcome([both], s));
    assert [[1]][1..] == [] && ([] + [[1]]) + [[2]] == [[1], [2]];
    assert !Aligned(ios, []);
    MisalignedSessionFails(ios, []);
    assert forall k: Keyed :: Wire(k, []) == [];
  }

  // ---- The sockets ----

  /** `EncryptedServerSocket` and `EncryptedClientSocket` after their handshake. */
  class EncryptedSocket {
    const sock: Socket
    const keyed: Keyed

    constructor (sock: Socket, keyed: Keyed)
      ensures this.sock == sock && this.keyed == keyed
    {
      this.sock, this.keyed := sock, keyed;
    }

    /**
     The result speaks of the MAC only: the whole record is on the wire exactly when it is true and the
     ciphertext, too, went out with fewer than ten empty calls. `textStalls` counts those.
     */
    method Send(data: seq<byte>) returns (ok: bool, ghost textStalls: nat)
      requires Ideal(keyed.cipher)
      modifies sock`calls, sock`outgoing, sock`stalls
      ensures var (ct, mac) := keyed.cipher.seal(keyed.key, keyed.iv, data);
        exists n, m :: 0 <= n <= |ct| && 0 <= m <= |mac| && sock.outgoing == old(sock.outgoing) + ct[..n] + mac[..m]
                       && (ok <==> m == |mac|) && (textStalls < 10 <==> n == |ct|)
      ensures sock.outgoing == old(sock.outgoing) + keyed.Record(data) <==> ok && textStalls < 10
      ensures textStalls <= 10 && old(sock.stalls) + textStalls <= sock.stalls
      ensures ok <==> sock.stalls < old(sock.stalls) + textStalls + 10
    {
      var (ct, mac) := keyed.cipher.seal(keyed.key, keyed.iv, data);
      var whole := sock.Send(ct);
      textStalls := sock.stalls - old(sock.stalls);
      ghost var n := |sock.outgoing| - |old(sock.outgoing)|;
      assert sock.outgoing == old(sock.outgoing) + ct[..n];
      ok := sock.Send(mac);
      ghost var m := |sock.outgoing| - |old(sock.outgoing)| - n;
      assert sock.outgoing == old(sock.outgoing) + ct[..n] + mac[..m];
      assert |sock.outgoing| == |old(sock.outgoing)| + n + m;
    }

    /** `EncryptedServerSocket::recv`. */
    method RecvBounded(buf: array<byte>, len: nat) returns (ok: bool)
      requires Ideal(keyed.cipher) && len <= buf.Length
      modifies sock`calls, sock`incoming, sock`stalls, buf
      ensures |sock.incoming| <= |old(sock.incoming)|
      ensures ok <==> && |old(sock.incoming)| == |sock.incoming| + len + MAC_LEN
                      && keyed.Open(old(sock.incoming), len).Some?
      ensures ok ==> && sock.incoming == old(sock.incoming)[len + MAC_LEN..]
                     && keyed.Open(old(sock.incoming), len) == Some(buf[..len])
    {
      ghost var wire := sock.incoming;
      var ct := new byte[len];
      var mac := new byte[MAC_LEN];
      var gotText := sock.RecvBounded(ct, len);
      if !gotText { return false; }
      assert wire[..len] == ct[..] && wire[len..] == sock.incoming;
      var gotMac := sock.RecvBounded(mac, MAC_LEN);
      if !gotMac { return false; }
      assert wire[len..] == mac[..] + sock.incoming;
      assert wire[len..len + MAC_LEN] == wire[len..][..MAC_LEN];
      var plain := keyed.cipher.unseal(keyed.key, keyed.iv, ct[..], mac[..]);
      if plain.None? { return false; }
      forall i | 0 <= i < len {
        buf[i] := plain.value[i];
      }
      assert buf[..len] == plain.value;
      return true;
    }

    /**
     `EncryptedClientSocket::recv`, as seen after `patience` calls of the kernel for each of its two
     receives. When it answers true the plaintext is in the buffer; it answers false only for a record that
     does not open or after ten empty calls, though everything may have arrived.
     */
    method RecvUnbounded(buf: array<byte>, len: nat, patience: nat) returns (r: Waiting)
      requires Ideal(keyed.cipher) && len <= buf.Length
      modifies sock`calls, sock`incoming, sock`stalls, buf
      ensures r.Returned? && r.ok ==>
        && |old(sock.incoming)| >= len + MAC_LEN && sock.incoming == old(sock.incoming)[len + MAC_LEN..]
        && keyed.Open(old(sock.incoming), len) == Some(buf[..len])
      ensures r.Returned? && !r.ok ==>
        || sock.stalls >= old(sock.stalls) + 10
        || (|old(sock.incoming)| >= len + MAC_LEN && keyed.Open(old(sock.incoming), len) == None)
      ensures |old(sock.incoming)| >= len + MAC_LEN && (forall from :: Offered(sock.kernel, from, patience) >= len + MAC_LEN)
              ==> r.Returned?
    {
      ghost var wire := sock.incoming;
      var ct := new byte[len];
      var mac := new byte[MAC_LEN];
      r := sock.RecvUnbounded(ct, len, patience);
      if r.StillWaiting? || !r.ok { return; }
      assert wire[..len] == ct[..] && wire[len..] == sock.incoming;
      r := sock.RecvUnbounded(mac, MAC_LEN, patience);
      if r.StillWaiting? || !r.ok { return; }
      assert wire[len..] == mac[..] + sock.incoming;
      assert wire[len..len + MAC_LEN] == wire[len..][..MAC_LEN];
      var plain := keyed.cipher.unseal(keyed.key, keyed.iv, ct[..], mac[..]);
      if plain.None? { return Returned(false); }
      forall i | 0 <= i < len {
        buf[i] := plain.value[i];
      }
      assert buf[..len] == plain.value;
      return Returned(true);
    }
  }
}
