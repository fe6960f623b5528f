/** The central index on lists: what each critical section of `CentralIndex` computes. */
module IndexLists {
  import opened Bytes
  import opened Sorting
  import opened IndexSpec

  /** The list after the erase loop of `remove_client`. */
  function HoldersWithout(s: seq<RfcHolder>, p: Peer): seq<RfcHolder> {
    if s == [] then [] else
    if s[0].peer == p then HoldersWithout(s[1..], p) else [s[0]] + HoldersWithout(s[1..], p)
  }

  /** The client list without the first entry equal to `p`. */
  function ClientsWithout(s: seq<Peer>, p: Peer): seq<Peer> {
    if s == [] then [] else if s[0] == p then s[1..] else [s[0]] + ClientsWithout(s[1..], p)
  }

  /** The peers of the entries for `rfc`, in list order. */
  function PeersHolding(s: seq<RfcHolder>, rfc: int32): seq<Peer> {
    if s == [] then [] else
    if s[0].rfc == rfc then [s[0].peer] + PeersHolding(s[1..], rfc) else PeersHolding(s[1..], rfc)
  }

  ghost predicate NoRepeats(s: seq<Peer>) {
    forall i, j :: 0 <= i < j < |s| ==> s[i] != s[j]
  }

  lemma {:induction false} HoldersWithoutMembers(s: seq<RfcHolder>, p: Peer)
    ensures forall h :: h in HoldersWithout(s, p) <==> h in s && h.peer != p
  {
    if s != [] {
      assert s == [s[0]] + s[1..];
      HoldersWithoutMembers(s[1..], p);
    }
  }

  lemma {:induction false} HoldersWithoutKeepsStrict(s: seq<RfcHolder>, p: Peer)
    requires StrictlySorted(BY_HOLDER, s)
    ensures StrictlySorted(BY_HOLDER, HoldersWithout(s, p))
  {
    if s != [] {
      HoldersWithoutKeepsStrict(s[1..], p);
      HoldersWithoutMembers(s[1..], p);
      HeadBelowTail(BY_HOLDER, s);
    }
  }

  lemma {:induction false} HoldersWithoutInOrder(s: seq<RfcHolder>, p: Peer)
    ensures IsSubsequence(HoldersWithout(s, p), s)
  {
    if s == [] {
      EmptyIsSubsequence(s);
    } else {
      HoldersWithoutInOrder(s[1..], p);
      SubsequenceGrows(HoldersWithout(s[1..], p), s);
    }
  }

  lemma HeadBelowTail<T(!new)>(less: (T, T) -> bool, s: seq<T>)
    requires s != [] && StrictlySorted(less, s)
    ensures forall y :: y in s[1..] ==> less(s[0], y)
  {
    forall y | y in s[1..] ensures less(s[0], y) {
      var k :| 0 <= k < |s[1..]| && s[1..][k] == y;
      assert s[k + 1] == y;
    }
  }

  lemma {:induction false} ClientsWithoutMembers(s: seq<Peer>, p: Peer)
    requires NoRepeats(s)
    ensures NoRepeats(ClientsWithout(s, p))
    ensures forall c :: c in ClientsWithout(s, p) <==> c in s && c != p
  {
    if s != [] {
      assert s == [s[0]] + s[1..];
      assert forall k :: 0 <= k < |s[1..]| ==> s[1..][k] == s[k + 1] && s[0] != s[k + 1];
      if s[0] != p {
        ClientsWithoutMembers(s[1..], p);
        assert s[0] !in ClientsWithout(s[1..], p);
      }
    }
  }

  /** On a strictly sorted list, the copy loop of `find_rfcs` yields the ascending enumeration of the holders. */
  lemma {:induction false} PeersHoldingEnumerates(s: seq<RfcHolder>, rfc: int32)
    requires StrictlySorted(BY_HOLDER, s)
    ensures IsEnumeration(BY_PEER, PeersHolding(s, rfc), PeersOf(Elements(s), rfc))
  {
    if s != [] {
      assert s == [s[0]] + s[1..];
      PeersHoldingEnumerates(s[1..], rfc);
      HeadBelowTail(BY_HOLDER, s);
      var rest := PeersHolding(s[1..], rfc);
      if s[0].rfc == rfc {
        forall q | q in rest ensures BY_PEER(s[0].peer, q) {
          assert q in PeersOf(Elements(s[1..]), rfc);
          assert RfcHolder(rfc, q) in s[1..];
        }
        assert PeersOf(Elements(s), rfc) == PeersOf(Elements(s[1..]), rfc) + {s[0].peer};
      } else {
        assert PeersOf(Elements(s), rfc) == PeersOf(Elements(s[1..]), rfc);
      }
    }
  }

  /** The list kept by `add_rfc`: the new holder goes to its place in the order. */
  function HoldersWith(s: seq<RfcHolder>, h: RfcHolder): seq<RfcHolder> {
    InsertSorted(BY_HOLDER, s, h)
  }

  lemma HoldersWithMembers(s: seq<RfcHolder>, h: RfcHolder)
    requires StrictlySorted(BY_HOLDER, s) && h !in s
    ensures StrictlySorted(BY_HOLDER, HoldersWith(s, h))
    ensures forall x :: x in HoldersWith(s, h) <==> x in s || x == h
  {
    OrdersAreTotal();
    InsertSortedKeepsStrict(BY_HOLDER, s, h);
    InsertSortedMembers(BY_HOLDER, s, h);
  }
}

module CentralIndex {
  import opened Bytes
  import opened Sorting
  import opened IndexSpec
  import opened IndexLists

  /**
   The state of the index as its methods see it while they hold its mutexes; module IndexThreads
   has the mutexes themselves.
   */
  class CentralIndex {
    var clients: seq<Peer>
    var rfcs: seq<RfcHolder>

    ghost predicate Valid()
      reads this
    {
      && NoRepeats(clients)
      && StrictlySorted(BY_HOLDER, rfcs)
      && forall h :: h in rfcs ==> h.peer in clients
    }

    ghost function Abstract(): Index
      reads this
    {
      Index(Elements(clients), Elements(rfcs))
    }

    constructor ()
      ensures Valid() && Abstract() == EMPTY_INDEX
    {
      clients, rfcs := [], [];
    }

    method AddClient(hostname: seq<byte>, uploadPort: int32) returns (added: bool)
      requires Valid()
      modifies this
      ensures Valid()
      ensures Atomic(Op.AddClient(Peer(hostname, uploadPort)), old(Abstract()), Abstract(), Flag(added))
      ensures clients == (if added then old(clients) + [Peer(hostname, uploadPort)] else old(clients))
      ensures added <==> Peer(hostname, uploadPort) !in old(clients)
    {
      for i := 0 to |clients|
        invariant Peer(hostname, uploadPort) !in clients[..i]
      {
        if clients[i].host == hostname && clients[i].port == uploadPort {
          assert Elements(clients) + {Peer(hostname, uploadPort)} == Elements(clients);
          return false;
        }
      }
      var client := Peer(hostname, uploadPort);
      assert clients[..|clients|] == clients;
      assert Elements(clients + [client]) == Elements(clients) + {client};
      clients := clients + [client];
      return true;
    }

    method RemoveClient(hostname: seq<byte>, uploadPort: int32) returns (removed: bool)
      requires Valid()
      modifies this
      ensures Valid()
      ensures Atomic(Op.RemoveClient(Peer(hostname, uploadPort)), old(Abstract()), Abstract(), Flag(removed))
      ensures rfcs == HoldersWithout(old(rfcs), Peer(hostname, uploadPort))
      ensures clients == ClientsWithout(old(clients), Peer(hostname, uploadPort))
      ensures !removed
      ensures forall h :: h in rfcs <==> h in old(rfcs) && !(h.peer.host == hostname && h.peer.port == uploadPort)
      ensures forall c :: c in clients <==> c in old(clients) && !(c.host == hostname && c.port == uploadPort)
    {
      EraseHolders(hostname, uploadPort);
      EraseClient(hostname, uploadPort);
      HoldersWithoutMembers(old(rfcs), Peer(hostname, uploadPort));
      HoldersWithoutKeepsStrict(old(rfcs), Peer(hostname, uploadPort));
      ClientsWithoutMembers(old(clients), Peer(hostname, uploadPort));
      return false;
    }

    /** The section of `remove_client` under `rfcs_mut`. */
    method EraseHolders(hostname: seq<byte>, uploadPort: int32)
      modifies this`rfcs
      ensures rfcs == HoldersWithout(old(rfcs), Peer(hostname, uploadPort))
      ensures IsSubsequence(rfcs, old(rfcs))
      ensures forall h :: h in rfcs <==> h in old(rfcs) && !(h.peer.host == hostname && h.peer.port == uploadPort)
    {
      ghost var p := Peer(hostname, uploadPort);
      var it := 0;
      while it < |rfcs|
        invariant 0 <= it <= |rfcs|
        invariant HoldersWithout(old(rfcs), p) == rfcs[..it] + HoldersWithout(rfcs[it..], p)
        decreases |rfcs| - it
      {
        if rfcs[it].peer.host == hostname && rfcs[it].peer.port == uploadPort {
          assert (rfcs[..it] + rfcs[it + 1..])[it..] == rfcs[it..][1..];
          rfcs := rfcs[..it] + rfcs[it + 1..];
        } else {
          assert rfcs[it..][1..] == rfcs[it + 1..] && rfcs[..it] + [rfcs[it]] == rfcs[..it + 1];
          it := it + 1;
        }
      }
      assert rfcs[it..] == [] && rfcs[..it] == rfcs;
      HoldersWithoutMembers(old(rfcs), p);
      HoldersWithoutInOrder(old(rfcs), p);
    }

    /** The section of `remove_client` under `clients_mut`. */
    method EraseClient(hostname: seq<byte>, uploadPort: int32)
      modifies this`clients
      ensures clients == ClientsWithout(old(clients), Peer(hostname, uploadPort))
      ensures if Peer(hostname, uploadPort) in old(clients)
              then exists k :: 0 <= k < |old(clients)| && old(clients)[k] == Peer(hostname, uploadPort)
                               && clients == old(clients)[..k] + old(clients)[k + 1..]
              else clients == old(clients)
    {
      ghost var p := Peer(hostname, uploadPort);
      var it := 0;
      while it < |clients|
        invariant 0 <= it <= |clients| && clients == old(clients) && p !in clients[..it]
        invariant ClientsWithout(clients, p) == clients[..it] + ClientsWithout(clients[it..], p)
      {
        if clients[it].host == hostname && clients[it].port == uploadPort {
          assert clients[it..][1..] == clients[it + 1..];
          clients := clients[..it] + clients[it + 1..];
          return;
        }
        assert clients[it..][1..] == clients[it + 1..] && clients[..it] + [clients[it]] == clients[..it + 1];
        it := it + 1;
      }
      assert clients[it..] == [] && clients[..it] == clients;
    }

    method AddRfc(hostname: seq<byte>, uploadPort: int32, rfc: int32) returns (added: bool)
      requires Valid()
      modifies this
      ensures Valid()
      ensures Atomic(Op.AddRfc(Peer(hostname, uploadPort), rfc), old(Abstract()), Abstract(), Flag(added))
      ensures clients == old(clients)
      ensures rfcs == (if added then HoldersWith(old(rfcs), RfcHolder(rfc, Peer(hostname, uploadPort))) else old(rfcs))
      ensures added <==> Peer(hostname, uploadPort) in old(clients) && RfcHolder(rfc, Peer(hostname, uploadPort)) !in old(rfcs)
      ensures forall h :: h in rfcs <==> h in old(rfcs) || (added && h == RfcHolder(rfc, Peer(hostname, uploadPort)))
    {
      for i := 0 to |rfcs|
        invariant RfcHolder(rfc, Peer(hostname, uploadPort)) !in rfcs[..i]
      {
        if rfcs[i].rfc == rfc && rfcs[i].peer.host == hostname && rfcs[i].peer.port == uploadPort {
          return false;
        }
      }
      assert rfcs[..|rfcs|] == rfcs;

      var peer := Peer([], 0);
      var found := false;
      var it := 0;
      while it < |clients|
        invariant 0 <= it <= |clients| && !found
        invariant Peer(hostname, uploadPort) !in clients[..it]
      {
        if clients[it].host == hostname && clients[it].port == uploadPort {
          peer := clients[it];
          found := true;
          break;
        }
        it := it + 1;
      }
      if !found {
        assert clients[..|clients|] == clients;
        return false;
      }

      var r := RfcHolder(rfc, peer);
      OrdersAreTotal();
      var sorted := Sort(BY_HOLDER, rfcs + [r]);
      PushBackThenSort(BY_HOLDER, rfcs, r, sorted);
      HoldersWithMembers(rfcs, r);
      assert Elements(sorted) == Elements(rfcs) + {r};
      rfcs := sorted;
      return true;
    }

    method FindRfcs(rfc: int32) returns (l: seq<Peer>)
      requires Valid()
      ensures Atomic(Op.FindRfcs(rfc), Abstract(), Abstract(), Peers(l))
      ensures l == PeersHolding(rfcs, rfc)
      ensures forall p :: p in l <==> RfcHolder(rfc, p) in rfcs
      ensures forall i, j :: 0 <= i < j < |l| ==> LessPeer(l[i], l[j])
    {
      PeersHoldingEnumerates(rfcs, rfc);
      l := [];
      var it := 0;
      while it < |rfcs|
        invariant 0 <= it <= |rfcs|
        invariant PeersHolding(rfcs, rfc) == l + PeersHolding(rfcs[it..], rfc)
      {
        assert rfcs[it..][1..] == rfcs[it + 1..];
        if rfcs[it].rfc == rfc {
          l := l + [rfcs[it].peer];
        }
        it := it + 1;
      }
      assert l == PeersHolding(rfcs, rfc);
      forall p ensures p in l <==> RfcHolder(rfc, p) in rfcs {
        assert p in l <==> p in PeersOf(Elements(rfcs), rfc);
      }
      forall i, j | 0 <= i < j < |l| ensures LessPeer(l[i], l[j]) {
        assert BY_PEER(l[i], l[j]);
      }
      assert IsEnumeration(BY_PEER, l, PeersOf(Abstract().rfcs, rfc));
    }

    method AllRfcs() returns (l: seq<RfcHolder>)
      requires Valid()
      ensures Atomic(Op.AllRfcs, Abstract(), Abstract(), Holders(l))
      ensures l == rfcs && forall i, j :: 0 <= i < j < |l| ==> CompareRfcHolders(l[i], l[j])
    {
      assert forall i, j :: 0 <= i < j < |rfcs| ==> BY_HOLDER(rfcs[i], rfcs[j]);
      l := [];
      var it := 0;
      while it < |rfcs|
        invariant 0 <= it <= |rfcs|
        invariant l == rfcs[..it]
      {
        l := l + [rfcs[it]];
        it := it + 1;
      }
    }
  }
}
