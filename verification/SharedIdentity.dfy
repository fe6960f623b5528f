/**
 Sessions that share an identity. `add_client` tells a handler that its identity is taken, and the handler
 goes on: exactly when a holder loses its client, and for every peer and every number a run that ends so.
 */
module SharedIdentity {
  import opened Bytes
  import opened Sorting
  import opened IndexSpec
  import opened IndexLists
  import opened IndexThreads

  // ---- When a holder loses its client ----

  ghost predicate Backed(s: State) {
    forall h :: h in s.rfcs ==> h.peer in s.clients
  }

  /** The second section of `remove_client` is about to run while a holder of its peer is listed again. */
  ghost predicate Orphans(s: State, l: Label) {
    && l.Internal? && l.t < |s.threads| && s.threads[l.t].pc.InsideClients?
    && s.threads[l.t].pc.op.RemoveClient?
    && exists h :: h in s.rfcs && h.peer == s.threads[l.t].pc.op.peer
  }

  /** What holds in all runs, whether identities are shared or not. */
  ghost predicate Shaped(s: State) {
    NoRepeats(s.clients) && forall t :: 0 <= t < |s.threads| ==> WellFormed(s.threads[t])
  }

  lemma StepKeepsShape(s: State, l: Label, s': State)
    requires Shaped(s) && Step(false, s, l, s')
    ensures Shaped(s')
  {
    assert WellFormed(s.threads[l.t]);
    if l.Internal? {
      var pc := s.threads[l.t].pc;
      AdvanceShape(s, l.t);
      if pc.InsideClients? { ClientsWithoutMembers(s.clients, pc.op.peer); }
      assert WellFormed(s'.threads[l.t]);
    }
  }

  /** One step takes the client of a holder away if and only if it is such a second section. */
  lemma StepKeepsBackedIff(s: State, l: Label, s': State)
    requires Shaped(s) && Backed(s) && Step(false, s, l, s')
    ensures Backed(s') <==> !Orphans(s, l)
  {
    assert WellFormed(s.threads[l.t]);
    if l.Internal? {
      match s.threads[l.t].pc
      case Inside(op) => SectionKeepsBacked(s, l.t);
      case Both(op) => InsertSortedMembers(BY_HOLDER, s.rfcs, RfcHolder(op.rfc, op.peer));
      case InsideClients(op) => ClientsWithoutMembers(s.clients, op.peer);
      case _ =>
    }
  }

  lemma SectionKeepsBacked(s: State, t: Tid)
    requires Backed(s) && CanAdvance(s, t) && s.threads[t].pc.Inside?
    ensures Backed(Advance(s, t))
  {
    var op := s.threads[t].pc.op;
    if op.RemoveClient? { HoldersWithoutMembers(s.rfcs, op.peer); }
  }

  lemma {:induction false} RunKeepsShape(states: seq<State>, labels: seq<Label>, i: nat)
    requires IsRun(false, states, labels) && i < |states|
    ensures Shaped(states[i])
  {
    if i > 0 {
      RunKeepsShape(states, labels, i - 1);
      StepKeepsShape(states[i - 1], labels[i - 1], states[i]);
    }
  }

  lemma {:induction false} BackedUntil(states: seq<State>, labels: seq<Label>, i: nat)
    requires IsRun(false, states, labels) && i < |states|
    requires forall j :: 0 <= j < i ==> !Orphans(states[j], labels[j])
    ensures Backed(states[i])
  {
    if i > 0 {
      BackedUntil(states, labels, i - 1);
      RunKeepsShape(states, labels, i - 1);
      StepKeepsBackedIff(states[i - 1], labels[i - 1], states[i]);
    }
  }

  /** In a run with any identities every holder is always a client if and only if no such second section is run. */
  lemma AlwaysBackedIff(states: seq<State>, labels: seq<Label>)
    requires IsRun(false, states, labels)
    ensures (forall i :: 0 <= i < |states| ==> Backed(states[i])) <==>
            (forall j :: 0 <= j < |labels| ==> !Orphans(states[j], labels[j]))
  {
    if forall i :: 0 <= i < |states| ==> Backed(states[i]) {
      forall j | 0 <= j < |labels| ensures !Orphans(states[j], labels[j]) {
        RunKeepsShape(states, labels, j);
        StepKeepsBackedIff(states[j], labels[j], states[j + 1]);
        assert Backed(states[j + 1]);
      }
    }
    if forall j :: 0 <= j < |labels| ==> !Orphans(states[j], labels[j]) {
      forall i | 0 <= i < |states| ensures Backed(states[i]) {
        BackedUntil(states, labels, i);
      }
    }
  }

  /** It takes a second session of the same identity: with distinct ones it never happens. */
  lemma DistinctSessionsNeverOrphan(states: seq<State>, labels: seq<Label>, j: nat)
    requires IsRun(true, states, labels) && j < |labels|
    ensures !Orphans(states[j], labels[j])
  {
    RunKeepsInv(states, labels, j);
  }

  // ---- It happens, to every peer and with every number ----

  function Last(states: seq<State>): State
    requires states != []
  {
    states[|states| - 1]
  }

  lemma Then(states: seq<State>, labels: seq<Label>, l: Label, s': State) returns (states': seq<State>, labels': seq<Label>)
    requires IsRun(false, states, labels) && Step(false, Last(states), l, s')
    ensures IsRun(false, states', labels') && Last(states') == s'
  {
    states', labels' := states + [s'], labels + [l];
  }

  lemma Internally(states: seq<State>, labels: seq<Label>, t: Tid) returns (states': seq<State>, labels': seq<Label>)
    requires IsRun(false, states, labels) && CanAdvance(Last(states), t)
    ensures IsRun(false, states', labels') && Last(states') == Advance(Last(states), t)
  {
    states', labels' := Then(states, labels, Internal(t), Advance(Last(states), t));
  }

  /** Two handler threads, each with or without a session of `p`. */
  function Two(p: Peer, clients: seq<Peer>, rfcs: seq<RfcHolder>, clientsMut: Option<Tid>, rfcsMut: Option<Tid>,
               pc0: Pc, pc1: Pc, open0: bool, open1: bool): State
  {
    State(clients, rfcs, clientsMut, rfcsMut,
          [Thread(if open0 then Some(p) else None, pc0), Thread(if open1 then Some(p) else None, pc1)])
  }

  lemma OneConnects(p: Peer) returns (states: seq<State>, labels: seq<Label>)
    ensures IsRun(false, states, labels)
    ensures Last(states) == Two(p, [p], [], None, None, Idle, Idle, true, false)
  {
    var op := AddClient(p);
    states, labels := [Two(p, [], [], None, None, Idle, Idle, false, false)], [];
    states, labels := Then(states, labels, Invoke(0, op), Two(p, [], [], None, None, Entering(op), Idle, true, false));
    states, labels := Internally(states, labels, 0);
    states, labels := Internally(states, labels, 0);
    assert Last(states) == Two(p, [p], [], Some(0), None, Leaving(op, Flag(true)), Idle, true, false);
    states, labels := Internally(states, labels, 0);
    states, labels := Then(states, labels, Return(0, op, Flag(true)), Two(p, [p], [], None, None, Idle, Idle, true, false));
  }

  /** Thread 0 opens a session for `p`; so does thread 1, whose `add_client` answers false. */
  lemma BothConnect(p: Peer) returns (states: seq<State>, labels: seq<Label>)
    ensures IsRun(false, states, labels)
    ensures Last(states) == Two(p, [p], [], None, None, Idle, Idle, true, true)
  {
    var op := AddClient(p);
    states, labels := OneConnects(p);
    states, labels := Then(states, labels, Invoke(1, op), Two(p, [p], [], None, None, Idle, Entering(op), true, true));
    states, labels := Internally(states, labels, 1);
    states, labels := Internally(states, labels, 1);
    assert Last(states) == Two(p, [p], [], Some(1), None, Idle, Leaving(op, Flag(false)), true, true);
    states, labels := Internally(states, labels, 1);
    states, labels := Then(states, labels, Return(1, op, Flag(false)), Two(p, [p], [], None, None, Idle, Idle, true, true));
  }

  /** Thread 0 disconnects, and has finished the first section of `remove_client`. */
  lemma HoldersErased(p: Peer) returns (states: seq<State>, labels: seq<Label>)
    ensures IsRun(false, states, labels)
    ensures Last(states) == Two(p, [p], [], None, None, Between(RemoveClient(p)), Idle, true, true)
  {
    var remove := RemoveClient(p);
    states, labels := BothConnect(p);
    states, labels := Then(states, labels, Invoke(0, remove), Two(p, [p], [], None, None, Entering(remove), Idle, true, true));
    states, labels := Internally(states, labels, 0);
    states, labels := Internally(states, labels, 0);
    states, labels := Internally(states, labels, 0);
  }

  /** Before its second section thread 1 adds RFC `n`. */
  lemma AddBetweenSections(p: Peer, n: int32) returns (states: seq<State>, labels: seq<Label>)
    ensures IsRun(false, states, labels)
    ensures Last(states) == Two(p, [p], [RfcHolder(n, p)], None, None, Between(RemoveClient(p)), Idle, true, true)
  {
    var remove, add := RemoveClient(p), AddRfc(p, n);
    states, labels := HoldersErased(p);
    states, labels := Then(states, labels, Invoke(1, add), Two(p, [p], [], None, None, Between(remove), Entering(add), true, true));
    states, labels := Internally(states, labels, 1);
    states, labels := Internally(states, labels, 1);
    states, labels := Internally(states, labels, 1);
    assert Last(states) == Two(p, [p], [], Some(1), Some(1), Between(remove), Both(add), true, true);
    states, labels := Internally(states, labels, 1);
    assert Last(states) == Two(p, [p], [RfcHolder(n, p)], Some(1), Some(1), Between(remove), LeavingBoth(add, Flag(true)), true, true);
    states, labels := Internally(states, labels, 1);
    states, labels := Internally(states, labels, 1);
    states, labels := Then(states, labels, Return(1, add, Flag(true)),
                           Two(p, [p], [RfcHolder(n, p)], None, None, Between(remove), Idle, true, true));
  }

  /** For every peer and number there is a run that ends at rest with a holder that is no client. */
  lemma SharedIdentityLeavesDanglingHolder(p: Peer, n: int32) returns (states: seq<State>, labels: seq<Label>)
    ensures IsRun(false, states, labels) && AtRest(Last(states))
    ensures RfcHolder(n, p) in Last(states).rfcs && p !in Last(states).clients
  {
    var remove := RemoveClient(p);
    states, labels := AddBetweenSections(p, n);
    states, labels := Internally(states, labels, 0);
    states, labels := Internally(states, labels, 0);
    assert Last(states) == Two(p, [], [RfcHolder(n, p)], Some(0), None, Leaving(remove, Flag(false)), Idle, true, true);
    states, labels := Internally(states, labels, 0);
    states, labels := Then(states, labels, Return(0, remove, Flag(false)),
                           Two(p, [], [RfcHolder(n, p)], None, None, Idle, Idle, false, true));
  }
}
