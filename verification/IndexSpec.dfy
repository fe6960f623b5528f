/** The abstract central index: a set of clients, a set of holders and five atomic operations. */
module IndexSpec {
  import opened Bytes
  import opened Sorting

  /** `Client`: the address at which a peer can be reached. */
  datatype Peer = Peer(host: seq<byte>, port: int32)

  /** A peer has a local copy of an RFC. */
  datatype RfcHolder = RfcHolder(rfc: int32, peer: Peer)

  // ---- The order of holders ----

  /** `std::string::operator<`: unsigned bytes, lexicographic. */
  predicate LessHost(a: seq<byte>, b: seq<byte>) {
    if b == [] then false
    else if a == [] then true
    else if a[0] != b[0] then a[0] < b[0]
    else LessHost(a[1..], b[1..])
  }

  predicate LessPeer(first: Peer, second: Peer) {
    if first.host != second.host then LessHost(first.host, second.host)
    else first.port < second.port
  }

  predicate CompareRfcHolders(first: RfcHolder, second: RfcHolder) {
    if first.rfc != second.rfc then first.rfc < second.rfc
    else if first.peer.host != second.peer.host then LessHost(first.peer.host, second.peer.host)
    else first.peer.port < second.peer.port
  }

  const BY_HOLDER: (RfcHolder, RfcHolder) -> bool := (x, y) => CompareRfcHolders(x, y)
  const BY_PEER: (Peer, Peer) -> bool := (x, y) => LessPeer(x, y)

  lemma {:induction false} LessHostTotal(a: seq<byte>, b: seq<byte>)
    ensures !LessHost(a, a)
    ensures a == b || LessHost(a, b) || LessHost(b, a)
  {
    if a != [] {
      LessHostTotal(a[1..], if b == [] then [] else b[1..]);
      if b != [] && a[0] == b[0] {
        assert a == [a[0]] + a[1..] && b == [b[0]] + b[1..];
      }
    }
  }

  lemma {:induction false} LessHostTransitive(a: seq<byte>, b: seq<byte>, c: seq<byte>)
    requires LessHost(a, b) && LessHost(b, c)
    ensures LessHost(a, c)
  {
    if a != [] && a[0] == b[0] == c[0] {
      LessHostTransitive(a[1..], b[1..], c[1..]);
    }
  }

  /**
   The order of hosts is that of `std::string`: one comes before another when it is a proper prefix of it, or has
   the smaller byte where they first differ.
   */
  lemma {:induction false} HostOrderIs(a: seq<byte>, b: seq<byte>)
    ensures LessHost(a, b) <==> (|a| < |b| && a == b[..|a|]) || exists k :: 0 <= k < |a| && k < |b| && a[..k] == b[..k] && a[k] < b[k]
  {
    if a != [] && b != [] {
      if a[0] == b[0] {
        HostOrderIs(a[1..], b[1..]);
        SamePrefix(a, b);
      } else {
        assert a[0] < b[0] ==> a[..0] == b[..0];
      }
    }
  }

  /** A common first byte does not matter to the order. */
  lemma SamePrefix(a: seq<byte>, b: seq<byte>)
    requires a != [] && b != [] && a[0] == b[0]
    ensures (|a[1..]| < |b[1..]| && a[1..] == b[1..][..|a[1..]|]) <==> (|a| < |b| && a == b[..|a|])
    ensures (exists k :: 0 <= k < |a[1..]| && k < |b[1..]| && a[1..][..k] == b[1..][..k] && a[1..][k] < b[1..][k])
            <==> exists k :: 0 <= k < |a| && k < |b| && a[..k] == b[..k] && a[k] < b[k]
  {
    assert a == [a[0]] + a[1..] && b == [b[0]] + b[1..];
    if k :| 0 <= k < |a[1..]| && k < |b[1..]| && a[1..][..k] == b[1..][..k] && a[1..][k] < b[1..][k] {
      assert a[..k + 1] == [a[0]] + a[1..][..k] && b[..k + 1] == [b[0]] + b[1..][..k];
      assert a[k + 1] < b[k + 1];
    }
    if k :| 0 <= k < |a| && k < |b| && a[..k] == b[..k] && a[k] < b[k] {
      assert k > 0;
      assert a[1..][..k - 1] == a[..k][1..] && b[1..][..k - 1] == b[..k][1..];
      assert a[1..][k - 1] < b[1..][k - 1];
    }
    if |a| < |b| && a == b[..|a|] { assert a[1..] == b[..|a|][1..] == b[1..][..|a[1..]|]; }
    if |a[1..]| < |b[1..]| && a[1..] == b[1..][..|a[1..]|] { assert b[..|a|] == [b[0]] + b[1..][..|a[1..]|]; }
  }

  /** Holders go by number, then by host, then by port; peers by host and port. */
  lemma HolderOrderIs(x: RfcHolder, y: RfcHolder)
    ensures CompareRfcHolders(x, y) <==>
            || x.rfc < y.rfc
            || (x.rfc == y.rfc && LessHost(x.peer.host, y.peer.host))
            || (x.rfc == y.rfc && x.peer.host == y.peer.host && x.peer.port < y.peer.port)
    ensures LessPeer(x.peer, y.peer) <==>
            LessHost(x.peer.host, y.peer.host) || (x.peer.host == y.peer.host && x.peer.port < y.peer.port)
    ensures BY_HOLDER(x, y) <==> CompareRfcHolders(x, y)
    ensures BY_PEER(x.peer, y.peer) <==> LessPeer(x.peer, y.peer)
  {
    LessHostTotal(x.peer.host, y.peer.host);
  }

  /** `compare_rfc_holders` is a strict total order, and so is its restriction to one RFC number. */
  lemma OrdersAreTotal()
    ensures StrictTotalOrder(BY_HOLDER)
    ensures StrictTotalOrder(BY_PEER)
  {
    forall a, b ensures !LessHost(a, a) && (a == b || LessHost(a, b) || LessHost(b, a)) {
      LessHostTotal(a, b);
    }
    forall a, b, c | LessHost(a, b) && LessHost(b, c) ensures LessHost(a, c) {
      LessHostTransitive(a, b, c);
    }
    forall x: RfcHolder, y: RfcHolder, z: RfcHolder | BY_HOLDER(x, y) && BY_HOLDER(y, z) ensures BY_HOLDER(x, z) {
    }
    forall x: Peer, y: Peer, z: Peer | BY_PEER(x, y) && BY_PEER(y, z) ensures BY_PEER(x, z) {
    }
  }

  // ---- Operations ----

  datatype Index = Index(clients: set<Peer>, rfcs: set<RfcHolder>)

  const EMPTY_INDEX: Index := Index({}, {})

  datatype Op =
    | AddClient(peer: Peer)
    | RemoveClient(peer: Peer)
    | AddRfc(peer: Peer, rfc: int32)
    | FindRfcs(rfc: int32)
    | AllRfcs

  datatype Reply = Flag(ok: bool) | Peers(peers: seq<Peer>) | Holders(holders: seq<RfcHolder>)

  function PeersOf(rfcs: set<RfcHolder>, rfc: int32): set<Peer> {
    set h | h in rfcs && h.rfc == rfc :: h.peer
  }

  /** One operation taken in a single step. */
  ghost predicate Atomic(op: Op, before: Index, after: Index, reply: Reply) {
    match op
    case AddClient(p) =>
      && reply == Flag(p !in before.clients)
      && after == before.(clients := before.clients + {p})
    case RemoveClient(p) =>
      && reply == Flag(false)
      && after == Index(before.clients - {p}, set h | h in before.rfcs && h.peer != p)
    case AddRfc(p, n) =>
      && reply == Flag(p in before.clients && RfcHolder(n, p) !in before.rfcs)
      && after == (if reply.ok then before.(rfcs := before.rfcs + {RfcHolder(n, p)}) else before)
    case FindRfcs(n) =>
      && after == before
      && reply.Peers? && IsEnumeration(BY_PEER, reply.peers, PeersOf(before.rfcs, n))
    case AllRfcs =>
      && after == before
      && reply.Holders? && IsEnumeration(BY_HOLDER, reply.holders, before.rfcs)
  }

  /** Both lists have the same entries of `p`. */
  ghost predicate SameEntries(index: Index, index': Index, p: Peer) {
    && (p in index'.clients <==> p in index.clients)
    && forall n: int32 :: RfcHolder(n, p) in index'.rfcs <==> RfcHolder(n, p) in index.rfcs
  }

  /** The answers depend on the abstract sets alone: histories that reach the same sets are indistinguishable. */
  lemma AtomicIsFunction(op: Op, before: Index, after1: Index, reply1: Reply, after2: Index, reply2: Reply)
    requires Atomic(op, before, after1, reply1) && Atomic(op, before, after2, reply2)
    ensures after1 == after2 && reply1 == reply2
  {
    OrdersAreTotal();
    match op
    case FindRfcs(n) => EnumerationUnique(BY_PEER, reply1.peers, reply2.peers, PeersOf(before.rfcs, n));
    case AllRfcs => EnumerationUnique(BY_HOLDER, reply1.holders, reply2.holders, before.rfcs);
    case _ =>
  }

  /** The peer on whose behalf an operation changes the index. */
  function PeerOf(op: Op): Option<Peer> {
    match op
    case AddClient(p) => Some(p)
    case RemoveClient(p) => Some(p)
    case AddRfc(p, _) => Some(p)
    case _ => None
  }

  /** An operation touches the entries of its own peer alone. */
  lemma AtomicTouchesOwn(op: Op, before: Index, after: Index, reply: Reply, q: Peer)
    requires Atomic(op, before, after, reply) && PeerOf(op) != Some(q)
    ensures SameEntries(before, after, q)
  {
  }

  /** The head of a FIND answer is the least holder. */
  lemma FindHeadIsLeast(before: Index, n: int32, after: Index, peers: seq<Peer>)
    requires Atomic(FindRfcs(n), before, after, Peers(peers))
    ensures peers == [] <==> forall p :: RfcHolder(n, p) !in before.rfcs
    ensures peers != [] ==> RfcHolder(n, peers[0]) in before.rfcs
    ensures forall p :: peers != [] && RfcHolder(n, p) in before.rfcs && p != peers[0] ==> LessPeer(peers[0], p)
  {
    assert forall h :: h in before.rfcs && h.rfc == n ==> h == RfcHolder(n, h.peer);
    if peers != [] {
      assert peers[0] in PeersOf(before.rfcs, n);
      forall p | RfcHolder(n, p) in before.rfcs && p != peers[0] ensures LessPeer(peers[0], p) {
        assert p in PeersOf(before.rfcs, n);
        var k :| 0 <= k < |peers| && peers[k] == p;
        assert BY_PEER(peers[0], peers[k]);
      }
    } else {
      forall p ensures RfcHolder(n, p) !in before.rfcs {
        assert p !in PeersOf(before.rfcs, n);
      }
    }
  }
}
