/** When the answers of the index are sure to stay below two gigabytes. */
module ResponseSizes {
  import opened Bytes
  import opened Sorting
  import opened IndexSpec
  import opened Records
  import opened Protocol
  import opened System
  import opened SystemInvariant
  import opened Progress
  import ResponseLists
  import LookupResponse
  import ListResponse
  import RfcManager

  /** The RFC numbers that some peer has. */
  function NumbersIn(nodes: seq<Node>): set<int32> {
    if nodes == [] then {} else nodes[0].dir.Keys + NumbersIn(nodes[1..])
  }

  lemma {:induction false} NumbersInHas(nodes: seq<Node>, i: nat, n: int32)
    requires i < |nodes| && n in nodes[i].dir
    ensures n in NumbersIn(nodes)
  {
    if i > 0 { NumbersInHas(nodes[1..], i - 1, n); }
  }

  /** Even if every peer downloaded every file there is at the start, one LIST response would hold them all. */
  ghost predicate Fits(o: State, longest: nat) {
    && (forall i :: 0 <= i < |o.nodes| ==> |o.nodes[i].me.host| <= longest)
    && 8 + |o.nodes| * |NumbersIn(o.nodes)| * (12 + longest) < TWO_TO_THE_31
  }

  lemma {:induction false} FewNumbers(holders: set<RfcHolder>, p: Peer, numbers: set<int32>)
    requires forall h :: h in holders ==> h.peer == p && h.rfc in numbers
    ensures |holders| <= |numbers|
  {
    if h :| h in holders {
      forall x | x in holders - {h} ensures x.rfc in numbers - {h.rfc} {
        assert x == RfcHolder(x.rfc, p) && h == RfcHolder(h.rfc, p);
      }
      FewNumbers(holders - {h}, p, numbers - {h.rfc});
    }
  }

  lemma OneMorePeer(peers: nat, numbers: nat)
    ensures (peers + 1) * numbers == peers * numbers + numbers
  {
  }

  lemma {:induction false} FewHolders(holders: set<RfcHolder>, peers: seq<Peer>, numbers: set<int32>)
    requires forall h :: h in holders ==> h.peer in peers && h.rfc in numbers
    ensures |holders| <= |peers| * |numbers|
  {
    if peers == [] {
      assert forall h :: h !in holders;
    } else {
      var own := set h | h in holders && h.peer == peers[0];
      FewNumbers(own, peers[0], numbers);
      FewHolders(holders - own, peers[1..], numbers);
      assert holders == own + (holders - own);
      OneMorePeer(|peers[1..]|, |numbers|);
    }
  }

  lemma {:induction false} EncodedLength<T>(enc: T -> seq<byte>, xs: seq<T>, most: nat)
    requires forall x :: x in xs ==> |enc(x)| <= most
    ensures |EncodeAll(enc, xs)| <= |xs| * most
  {
    if xs != [] {
      EncodedLength(enc, xs[1..], most);
      assert |xs| * most == |xs[1..]| * most + most;
    }
  }

  lemma ProductGrows(a: nat, b: nat, c: nat)
    requires a <= b
    ensures a * c <= b * c
  {
  }

  function PeersIn(nodes: seq<Node>): seq<Peer> {
    seq(|nodes|, i requires 0 <= i < |nodes| => nodes[i].me)
  }

  /** The entries are few and have short hosts. */
  ghost predicate IsSmall(rfcs: set<RfcHolder>, longest: nat) {
    8 + |rfcs| * (12 + longest) < TWO_TO_THE_31 && forall h :: h in rfcs ==> |h.peer.host| <= longest
  }

  lemma IndexIsSmall(o: State, s: State, longest: nat)
    requires Inv(o, s) && Fits(o, longest)
    ensures IsSmall(s.index.rfcs, longest)
  {
    forall h | h in s.index.rfcs
      ensures h.peer in PeersIn(s.nodes) && h.rfc in NumbersIn(o.nodes) && |h.peer.host| <= longest
    {
      EntriesHaveFiles(o, s, h);
      var i :| 0 <= i < |s.nodes| && s.nodes[i].me == h.peer && h.rfc in s.nodes[i].dir;
      assert PeersIn(s.nodes)[i] == h.peer;
      NodeIsOk(o, s, i);
      NumberIsOld(o, s.nodes[i], h.rfc);
      assert s.nodes[i].me == o.nodes[i].me;
    }
    FewHolders(s.index.rfcs, PeersIn(s.nodes), NumbersIn(o.nodes));
    ProductGrows(|s.index.rfcs|, |o.nodes| * |NumbersIn(o.nodes)|, 12 + longest);
  }

  /** No number appears in the system that was not there at the start. */
  lemma NumberIsOld(o: State, node: Node, n: int32)
    requires DirOk(o, node) && n in node.dir
    ensures n in NumbersIn(o.nodes)
  {
    assert node.dir[n] in Authentic(o, n);
    var i :| 0 <= i < |o.nodes| && n in o.nodes[i].dir && o.nodes[i].dir[n] == node.dir[n];
    NumbersInHas(o.nodes, i, n);
  }

  lemma ListSize(rfcs: set<RfcHolder>, longest: nat, holders: seq<RfcHolder>)
    requires IsSmall(rfcs, longest) && IsEnumeration(BY_HOLDER, holders, rfcs)
    ensures ResponseLists.WireSize(ListResponse.HOLDER_BYTES, holders) < TWO_TO_THE_31
  {
    OrdersAreTotal();
    StrictLength(BY_HOLDER, holders, rfcs);
    EncodedLength(ListResponse.HOLDER_BYTES, holders, 12 + longest);
    ProductGrows(|holders|, |rfcs|, 12 + longest);
  }

  lemma LookupSize(rfcs: set<RfcHolder>, longest: nat, n: int32, peers: seq<Peer>)
    requires IsSmall(rfcs, longest) && IsEnumeration(BY_PEER, peers, PeersOf(rfcs, n))
    ensures ResponseLists.WireSize(LookupResponse.PEER_BYTES, peers) < TWO_TO_THE_31
  {
    OrdersAreTotal();
    var holders := seq(|peers|, i requires 0 <= i < |peers| => RfcHolder(n, peers[i]));
    forall i | 0 <= i < |peers| ensures holders[i] in rfcs {
      assert peers[i] in PeersOf(rfcs, n);
    }
    forall i, j | 0 <= i < j < |holders| ensures BY_HOLDER(holders[i], holders[j]) {
      assert BY_PEER(peers[i], peers[j]);
    }
    StrictLength(BY_HOLDER, holders, rfcs);
    forall p | p in peers ensures |LookupResponse.PEER_BYTES(p)| <= 12 + longest {
      var i :| 0 <= i < |peers| && peers[i] == p;
      assert holders[i].peer == p;
    }
    EncodedLength(LookupResponse.PEER_BYTES, peers, 12 + longest);
    ProductGrows(|peers|, |rfcs|, 12 + longest);
  }

  lemma SmallIsNotTooLong(index: Index, at: HandlerAt, longest: nat)
    requires IsSmall(index.rfcs, longest)
    ensures !TooLong(index, at)
  {
    match at
    case Listing(_) =>
      forall holders | Atomic(AllRfcs, index, index, Holders(holders))
        ensures ResponseLists.WireSize(ListResponse.HOLDER_BYTES, holders) < TWO_TO_THE_31
      {
        ListSize(index.rfcs, longest, holders);
      }
    case LookingUp(_, n) =>
      forall peers | Atomic(FindRfcs(n), index, index, Peers(peers))
        ensures ResponseLists.WireSize(LookupResponse.PEER_BYTES, peers) < TWO_TO_THE_31
      {
        LookupSize(index.rfcs, longest, n, peers);
      }
    case _ =>
  }

  /** With files that fit one list, some session or download can always go on, unless the system is at rest. */
  lemma NeverStuckIfFits(states: seq<State>, events: seq<Event>, t: nat, longest: nat)
    requires IsRun(states, events) && t < |states| && Fits(states[0], longest)
    ensures AtRest(states[t]) || (exists i :: SessionMoves(states[t], i)) || exists k :: LinkMoves(states[t], k)
  {
    NeverStuck(states, events, t);
    RunKeepsInv(states, events, t);
    IndexIsSmall(states[0], states[t], longest);
    forall i | 0 <= i < |states[t].nodes| ensures !Overloaded(states[t], i) {
      SmallIsNotTooLong(states[t].index, states[t].nodes[i].session.handler.at, longest);
    }
  }
}
