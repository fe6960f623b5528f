/**
 The central index shared by any number of handler threads. A step of a thread is one `lock()`, one
 critical section or one `unlock()`; threads interleave arbitrarily.
 */
module IndexThreads {
  import opened Bytes
  import opened Sorting
  import opened IndexSpec
  import opened IndexLists

  type Tid = nat

  /** Where a thread stands inside one call of a `CentralIndex` operation. */
  datatype Pc =
    | Idle
    | Entering(op: Op)                    // before locking the first mutex
    | Inside(op: Op)                      // holds the first mutex
    | Nested(op: Op)                      // add_rfc: no duplicate found, before locking clients_mut
    | Both(op: Op)                        // add_rfc: holds both mutexes
    | LeavingBoth(op: Op, reply: Reply)   // add_rfc: before unlocking clients_mut
    | Erased(op: Op)                      // remove_client: holders erased, before unlocking rfcs_mut
    | Between(op: Op)                     // remove_client: holds no mutex, before locking clients_mut
    | InsideClients(op: Op)               // remove_client: holds clients_mut
    | Leaving(op: Op, reply: Reply)       // before unlocking the last mutex
    | Returning(op: Op, reply: Reply)     // holds no mutex, before returning

  /** A handler thread; its session names the identity it serves, from `add_client` to the return of `remove_client`. */
  datatype Thread = Thread(session: Option<Peer>, pc: Pc)

  datatype State = State(
    clients: seq<Peer>, rfcs: seq<RfcHolder>,
    clientsMut: Option<Tid>, rfcsMut: Option<Tid>,
    threads: seq<Thread>)

  datatype Label = Invoke(t: Tid, op: Op) | Internal(t: Tid) | Return(t: Tid, op: Op, reply: Reply)

  predicate HoldsRfcs(pc: Pc) {
    match pc
    case Inside(op) => !op.AddClient?
    case Nested(_) => true
    case Both(_) => true
    case LeavingBoth(_, _) => true
    case Erased(_) => true
    case Leaving(op, _) => !op.AddClient? && !op.RemoveClient?
    case _ => false
  }

  predicate HoldsClients(pc: Pc) {
    match pc
    case Inside(op) => op.AddClient?
    case Both(_) => true
    case LeavingBoth(_, _) => true
    case InsideClients(_) => true
    case Leaving(op, _) => op.AddClient? || op.RemoveClient?
    case _ => false
  }

  // ---- Steps ----

  predicate CanAdvance(s: State, t: Tid) {
    t < |s.threads| &&
    match s.threads[t].pc
    case Idle => false
    case Returning(_, _) => false
    case Entering(op) => if op.AddClient? then s.clientsMut.None? else s.rfcsMut.None?
    case Nested(_) => s.clientsMut.None?
    case Between(_) => s.clientsMut.None?
    case _ => true
  }

  function At(s: State, t: Tid, pc: Pc): State
    requires t < |s.threads|
  {
    s.(threads := s.threads[t := s.threads[t].(pc := pc)])
  }

  function CriticalSection(s: State, t: Tid, op: Op): State
    requires t < |s.threads|
  {
    match op
    case AddClient(p) =>
      if p in s.clients then At(s, t, Leaving(op, Flag(false)))
      else At(s.(clients := s.clients + [p]), t, Leaving(op, Flag(true)))
    case RemoveClient(p) => At(s.(rfcs := HoldersWithout(s.rfcs, p)), t, Erased(op))
    case AddRfc(p, n) =>
      if RfcHolder(n, p) in s.rfcs then At(s, t, Leaving(op, Flag(false))) else At(s, t, Nested(op))
    case FindRfcs(n) => At(s, t, Leaving(op, Peers(PeersHolding(s.rfcs, n))))
    case AllRfcs => At(s, t, Leaving(op, Holders(s.rfcs)))
  }

  function Advance(s: State, t: Tid): State
    requires CanAdvance(s, t)
  {
    match s.threads[t].pc
    case Entering(op) =>
      if op.AddClient? then At(s.(clientsMut := Some(t)), t, Inside(op))
      else At(s.(rfcsMut := Some(t)), t, Inside(op))
    case Inside(op) => CriticalSection(s, t, op)
    case Nested(op) => At(s.(clientsMut := Some(t)), t, Both(op))
    case Both(op) =>
      if op.AddRfc? && op.peer in s.clients
      then At(s.(rfcs := HoldersWith(s.rfcs, RfcHolder(op.rfc, op.peer))), t, LeavingBoth(op, Flag(true)))
      else At(s, t, LeavingBoth(op, Flag(false)))
    case LeavingBoth(op, reply) => At(s.(clientsMut := None), t, Leaving(op, reply))
    case Erased(op) => At(s.(rfcsMut := None), t, Between(op))
    case Between(op) => At(s.(clientsMut := Some(t)), t, InsideClients(op))
    case InsideClients(op) =>
      if op.RemoveClient? then At(s.(clients := ClientsWithout(s.clients, op.peer)), t, Leaving(op, Flag(false)))
      else At(s, t, Leaving(op, Flag(false)))
    case Leaving(op, reply) =>
      if op.AddClient? || op.RemoveClient? then At(s.(clientsMut := None), t, Returning(op, reply))
      else At(s.(rfcsMut := None), t, Returning(op, reply))
  }

  /**
   What `client_handler` may call next: `add_client` to open a session, then operations of that
   session. With `distinct`, no two sessions are open for one identity.
   */
  predicate MayInvoke(distinct: bool, s: State, t: Tid, op: Op)
    requires t < |s.threads|
  {
    s.threads[t].pc == Idle &&
    match op
    case AddClient(p) =>
      s.threads[t].session.None? &&
      (distinct ==> forall u :: 0 <= u < |s.threads| ==> s.threads[u].session != Some(p))
    case RemoveClient(p) => s.threads[t].session == Some(p)
    case AddRfc(p, _) => s.threads[t].session == Some(p)
    case _ => s.threads[t].session.Some?
  }

  predicate Step(distinct: bool, s: State, l: Label, s': State) {
    l.t < |s.threads| &&
    match l
    case Invoke(t, op) =>
      && MayInvoke(distinct, s, t, op)
      && s' == s.(threads := s.threads[t := Thread(if op.AddClient? then Some(op.peer) else s.threads[t].session, Entering(op))])
    case Internal(t) => CanAdvance(s, t) && s' == Advance(s, t)
    case Return(t, op, reply) =>
      && s.threads[t].pc == Returning(op, reply)
      && s' == s.(threads := s.threads[t := Thread(if op.RemoveClient? then None else s.threads[t].session, Idle)])
  }

  predicate Init(s: State) {
    && s.clients == [] && s.rfcs == [] && s.clientsMut == None && s.rfcsMut == None
    && forall t :: 0 <= t < |s.threads| ==> s.threads[t] == Thread(None, Idle)
  }

  predicate IsRun(distinct: bool, states: seq<State>, labels: seq<Label>) {
    && |states| == |labels| + 1
    && Init(states[0])
    && forall i :: 0 <= i < |labels| ==> Step(distinct, states[i], labels[i], states[i + 1])
  }

  // ---- The invariant ----

  /** The thread's identity is in `clients`. */
  predicate Registered(pc: Pc) {
    match pc
    case Entering(op) => !op.AddClient?
    case Inside(op) => !op.AddClient?
    case Leaving(op, _) => !op.RemoveClient?
    case Returning(op, _) => !op.RemoveClient?
    case _ => true
  }

  /** `remove_client` has erased the holders and not yet the client. */
  predicate Departing(pc: Pc) {
    pc.Erased? || pc.Between? || pc.InsideClients?
  }

  predicate WellFormed(th: Thread) {
    && (th.pc.Nested? || th.pc.Both? || th.pc.LeavingBoth? ==> th.pc.op.AddRfc?)
    && (Departing(th.pc) ==> th.pc.op.RemoveClient?)
    && (!th.pc.Idle? ==> th.session.Some?)
    && (!th.pc.Idle? && !th.pc.op.FindRfcs? && !th.pc.op.AllRfcs? ==> th.session == Some(th.pc.op.peer))
  }

  predicate MutexesOwned(s: State) {
    && (s.clientsMut.Some? ==> s.clientsMut.value < |s.threads|)
    && (s.rfcsMut.Some? ==> s.rfcsMut.value < |s.threads|)
    && forall t :: 0 <= t < |s.threads| ==>
         && (HoldsClients(s.threads[t].pc) <==> s.clientsMut == Some(t))
         && (HoldsRfcs(s.threads[t].pc) <==> s.rfcsMut == Some(t))
  }

  predicate SessionsDistinct(s: State) {
    forall t, u :: 0 <= t < u < |s.threads| && s.threads[t].session.Some? ==> s.threads[t].session != s.threads[u].session
  }

  ghost predicate HasClient(s: State, p: Peer) {
    exists t :: 0 <= t < |s.threads| && s.threads[t].session == Some(p) && Registered(s.threads[t].pc)
  }

  ghost predicate HasHolders(s: State, p: Peer) {
    exists t :: 0 <= t < |s.threads| && s.threads[t].session == Some(p)
                && Registered(s.threads[t].pc) && !Departing(s.threads[t].pc)
  }

  ghost predicate ListsExact(s: State) {
    && NoRepeats(s.clients)
    && StrictlySorted(BY_HOLDER, s.rfcs)
    && (forall p :: p in s.clients <==> HasClient(s, p))
    && (forall h :: h in s.rfcs ==> HasHolders(s, h.peer))
    && (forall t :: 0 <= t < |s.threads| && (s.threads[t].pc.Nested? || s.threads[t].pc.Both?) && s.threads[t].pc.op.AddRfc? ==>
          RfcHolder(s.threads[t].pc.op.rfc, s.threads[t].pc.op.peer) !in s.rfcs)
  }

  ghost predicate Inv(s: State) {
    && (forall t :: 0 <= t < |s.threads| ==> WellFormed(s.threads[t]))
    && MutexesOwned(s) && SessionsDistinct(s) && ListsExact(s)
  }

  lemma InvokeKeepsInv(s: State, t: Tid, op: Op, s': State)
    requires Inv(s) && Step(true, s, Invoke(t, op), s')
    ensures Inv(s')
  {
    forall p ensures HasClient(s', p) <==> HasClient(s, p) {
      if HasClient(s, p) {
        var u :| 0 <= u < |s.threads| && s.threads[u].session == Some(p) && Registered(s.threads[u].pc);
        assert s'.threads[u].session == Some(p) && Registered(s'.threads[u].pc);
      }
    }
    forall p | HasHolders(s, p) ensures HasHolders(s', p) {
      var u :| 0 <= u < |s.threads| && s.threads[u].session == Some(p) && Registered(s.threads[u].pc) && !Departing(s.threads[u].pc);
      assert s'.threads[u].session == Some(p) && Registered(s'.threads[u].pc);
    }
  }

  lemma ReturnKeepsInv(s: State, t: Tid, op: Op, reply: Reply, s': State)
    requires Inv(s) && Step(true, s, Return(t, op, reply), s')
    ensures Inv(s')
  {
    forall p ensures HasClient(s', p) <==> HasClient(s, p) {
      if HasClient(s, p) {
        var u :| 0 <= u < |s.threads| && s.threads[u].session == Some(p) && Registered(s.threads[u].pc);
        assert s'.threads[u].session == Some(p) && Registered(s'.threads[u].pc);
      }
      if HasClient(s', p) {
        var u :| 0 <= u < |s.threads| && s'.threads[u].session == Some(p) && Registered(s'.threads[u].pc);
        assert s.threads[u].session == Some(p) && Registered(s.threads[u].pc);
      }
    }
    forall p | HasHolders(s, p) ensures HasHolders(s', p) {
      var u :| 0 <= u < |s.threads| && s.threads[u].session == Some(p) && Registered(s.threads[u].pc) && !Departing(s.threads[u].pc);
      assert s'.threads[u].session == Some(p) && Registered(s'.threads[u].pc);
    }
  }

  /** A step changes one program counter, and a mutex only between free and held by the stepping thread. */
  lemma AdvanceShape(s: State, t: Tid)
    requires CanAdvance(s, t)
    ensures Advance(s, t).threads == s.threads[t := s.threads[t].(pc := Advance(s, t).threads[t].pc)]
    ensures Advance(s, t).clientsMut == s.clientsMut || Advance(s, t).clientsMut == Some(t) || Advance(s, t).clientsMut == None
    ensures Advance(s, t).rfcsMut == s.rfcsMut || Advance(s, t).rfcsMut == Some(t) || Advance(s, t).rfcsMut == None
  {
  }

  lemma AdvanceOwnMutexes(s: State, t: Tid)
    requires CanAdvance(s, t) && WellFormed(s.threads[t])
    requires HoldsClients(s.threads[t].pc) <==> s.clientsMut == Some(t)
    requires HoldsRfcs(s.threads[t].pc) <==> s.rfcsMut == Some(t)
    ensures WellFormed(Advance(s, t).threads[t])
    ensures HoldsClients(Advance(s, t).threads[t].pc) <==> Advance(s, t).clientsMut == Some(t)
    ensures HoldsRfcs(Advance(s, t).threads[t].pc) <==> Advance(s, t).rfcsMut == Some(t)
    ensures Advance(s, t).clientsMut != s.clientsMut ==> s.clientsMut == None || s.clientsMut == Some(t)
    ensures Advance(s, t).rfcsMut != s.rfcsMut ==> s.rfcsMut == None || s.rfcsMut == Some(t)
  {
  }

  lemma AdvanceKeepsMutexes(s: State, t: Tid)
    requires Inv(s) && CanAdvance(s, t)
    ensures MutexesOwned(Advance(s, t)) && SessionsDistinct(Advance(s, t))
    ensures forall u :: 0 <= u < |s.threads| ==> WellFormed(Advance(s, t).threads[u])
  {
    AdvanceShape(s, t);
    AdvanceOwnMutexes(s, t);
    OnlyOwnThread(s, t, Advance(s, t));
  }

  lemma OnlyOwnThread(s: State, t: Tid, s': State)
    requires Inv(s) && t < |s.threads| && |s'.threads| == |s.threads|
    requires forall u :: 0 <= u < |s.threads| && u != t ==> s'.threads[u] == s.threads[u]
    requires s'.threads[t].session == s.threads[t].session && WellFormed(s'.threads[t])
    requires s'.clientsMut == s.clientsMut || s'.clientsMut == Some(t) || s'.clientsMut == None
    requires s'.rfcsMut == s.rfcsMut || s'.rfcsMut == Some(t) || s'.rfcsMut == None
    requires HoldsClients(s'.threads[t].pc) <==> s'.clientsMut == Some(t)
    requires HoldsRfcs(s'.threads[t].pc) <==> s'.rfcsMut == Some(t)
    requires s'.clientsMut != s.clientsMut ==> s.clientsMut == None || s.clientsMut == Some(t)
    requires s'.rfcsMut != s.rfcsMut ==> s.rfcsMut == None || s.rfcsMut == Some(t)
    ensures MutexesOwned(s') && SessionsDistinct(s')
    ensures forall u :: 0 <= u < |s.threads| ==> WellFormed(s'.threads[u])
  {
    forall u | 0 <= u < |s.threads| && u != t
      ensures HoldsClients(s'.threads[u].pc) <==> s'.clientsMut == Some(u)
      ensures HoldsRfcs(s'.threads[u].pc) <==> s'.rfcsMut == Some(u)
    {
      assert s'.threads[u] == s.threads[u];
    }
  }

  /** A step of `t` can only change who is listed for the identity `t` serves. */
  lemma OthersStayListed(s: State, t: Tid, p: Peer)
    requires Inv(s) && CanAdvance(s, t)
    ensures s.threads[t].session != Some(p) ==> (HasClient(Advance(s, t), p) <==> HasClient(s, p))
    ensures s.threads[t].session != Some(p) ==> (HasHolders(Advance(s, t), p) <==> HasHolders(s, p))
    ensures s.threads[t].session == Some(p) ==> (HasClient(s, p) <==> Registered(s.threads[t].pc))
    ensures s.threads[t].session == Some(p) ==> (HasClient(Advance(s, t), p) <==> Registered(Advance(s, t).threads[t].pc))
    ensures s.threads[t].session == Some(p) ==> (HasHolders(s, p) <==> Registered(s.threads[t].pc) && !Departing(s.threads[t].pc))
    ensures s.threads[t].session == Some(p) ==>
              (HasHolders(Advance(s, t), p) <==> Registered(Advance(s, t).threads[t].pc) && !Departing(Advance(s, t).threads[t].pc))
  {
    var s' := Advance(s, t);
    assert forall u :: 0 <= u < |s.threads| && u != t ==> s'.threads[u] == s.threads[u];
    assert forall u :: 0 <= u < |s.threads| ==> s'.threads[u].session == s.threads[u].session;
  }

  /** What one step does to the two lists, by the program counter of the stepping thread. */
  lemma AdvanceLists(s: State, t: Tid)
    requires Inv(s) && CanAdvance(s, t)
    ensures var s', pc := Advance(s, t), s.threads[t].pc;
      && NoRepeats(s'.clients)
      && StrictlySorted(BY_HOLDER, s'.rfcs)
      && (forall p :: s.threads[t].session != Some(p) ==> (p in s'.clients <==> p in s.clients))
      && (forall p :: s.threads[t].session == Some(p) ==> (p in s'.clients <==> Registered(s'.threads[t].pc)))
      && (forall h :: h in s'.rfcs && h !in s.rfcs ==>
            HoldsRfcs(pc) && Registered(s'.threads[t].pc) && !Departing(s'.threads[t].pc) && s.threads[t].session == Some(h.peer))
      && (forall h :: h in s'.rfcs && s.threads[t].session == Some(h.peer) ==> !Departing(s'.threads[t].pc))
  {
    var pc := s.threads[t].pc;
    forall p ensures s.threads[t].session == Some(p) ==> (p in s.clients <==> Registered(pc)) {
      OthersStayListed(s, t, p);
    }
    forall h | h in s.rfcs ensures s.threads[t].session == Some(h.peer) ==> Registered(pc) && !Departing(pc) {
      OthersStayListed(s, t, h.peer);
    }
    match pc
    case InsideClients(op) => ClientsWithoutMembers(s.clients, op.peer);
    case Both(op) =>
      if op.peer in s.clients { HoldersWithMembers(s.rfcs, RfcHolder(op.rfc, op.peer)); }
    case Inside(op) =>
      if op.RemoveClient? {
        HoldersWithoutMembers(s.rfcs, op.peer);
        HoldersWithoutKeepsStrict(s.rfcs, op.peer);
      }
    case _ =>
  }

  lemma AdvanceKeepsLists(s: State, t: Tid)
    requires Inv(s) && CanAdvance(s, t)
    ensures ListsExact(Advance(s, t))
  {
    var s' := Advance(s, t);
    AdvanceLists(s, t);
    AdvanceShape(s, t);
    forall p ensures p in s'.clients <==> HasClient(s', p) {
      OthersStayListed(s, t, p);
    }
    forall h | h in s'.rfcs ensures HasHolders(s', h.peer) {
      OthersStayListed(s, t, h.peer);
    }
    AdvanceKeepsScans(s, t);
  }

  /** A duplicate scan stays true while its thread holds `rfcs_mut`. */
  lemma AdvanceKeepsScans(s: State, t: Tid)
    requires Inv(s) && CanAdvance(s, t)
    ensures forall u :: 0 <= u < |s.threads| && (Advance(s, t).threads[u].pc.Nested? || Advance(s, t).threads[u].pc.Both?)
                        && Advance(s, t).threads[u].pc.op.AddRfc? ==>
                          RfcHolder(Advance(s, t).threads[u].pc.op.rfc, Advance(s, t).threads[u].pc.op.peer) !in Advance(s, t).rfcs
  {
    var s' := Advance(s, t);
    AdvanceShape(s, t);
    AdvanceLists(s, t);
    forall u | 0 <= u < |s.threads| && u != t && (s'.threads[u].pc.Nested? || s'.threads[u].pc.Both?)
      ensures s'.threads[u].pc.op.AddRfc? ==> RfcHolder(s'.threads[u].pc.op.rfc, s'.threads[u].pc.op.peer) !in s'.rfcs
    {
      assert s'.threads[u] == s.threads[u];
      assert HoldsRfcs(s.threads[u].pc);
    }
  }

  lemma StepKeepsInv(s: State, l: Label, s': State)
    requires Inv(s) && Step(true, s, l, s')
    ensures Inv(s')
  {
    match l
    case Invoke(t, op) => InvokeKeepsInv(s, t, op, s');
    case Internal(t) => AdvanceKeepsMutexes(s, t); AdvanceKeepsLists(s, t);
    case Return(t, op, reply) => ReturnKeepsInv(s, t, op, reply, s');
  }

  lemma {:induction false} RunKeepsInv(states: seq<State>, labels: seq<Label>, i: nat)
    requires IsRun(true, states, labels) && i < |states|
    ensures Inv(states[i])
  {
    if i == 0 {
      assert forall t :: 0 <= t < |states[0].threads| ==> states[0].threads[t] == Thread(None, Idle);
    } else {
      RunKeepsInv(states, labels, i - 1);
      StepKeepsInv(states[i - 1], labels[i - 1], states[i]);
    }
  }

  /**
   In every state of every run, whatever is locked: `clients` has no repeats, `rfcs` is strictly
   sorted, every holder is a client, and at most one thread is inside a section of each mutex.
   */
  lemma IndexAlwaysConsistent(states: seq<State>, labels: seq<Label>, i: nat)
    requires IsRun(true, states, labels) && i < |states|
    ensures NoRepeats(states[i].clients) && StrictlySorted(BY_HOLDER, states[i].rfcs)
    ensures forall h :: h in states[i].rfcs ==> h.peer in states[i].clients
    ensures forall t, u :: 0 <= t < u < |states[i].threads| ==>
              && !(HoldsRfcs(states[i].threads[t].pc) && HoldsRfcs(states[i].threads[u].pc))
              && !(HoldsClients(states[i].threads[t].pc) && HoldsClients(states[i].threads[u].pc))
  {
    RunKeepsInv(states, labels, i);
    var s := states[i];
    forall h | h in s.rfcs ensures h.peer in s.clients {
      assert HasHolders(s, h.peer);
      assert HasClient(s, h.peer);
    }
    forall t, u | 0 <= t < u < |s.threads|
      ensures !(HoldsRfcs(s.threads[t].pc) && HoldsRfcs(s.threads[u].pc))
      ensures !(HoldsClients(s.threads[t].pc) && HoldsClients(s.threads[u].pc))
    {
      assert MutexesOwned(s);
    }
  }

  // ---- Locks ----

  /** A thread neither reads nor writes a list whose mutex it does not hold. */
  lemma ListsAreGuarded(s: State, t: Tid, clients: seq<Peer>, rfcs: seq<RfcHolder>)
    requires CanAdvance(s, t) && WellFormed(s.threads[t])
    ensures CanAdvance(s.(clients := clients), t) && CanAdvance(s.(rfcs := rfcs), t)
    ensures !HoldsClients(s.threads[t].pc) ==> Advance(s.(clients := clients), t) == Advance(s, t).(clients := clients)
    ensures !HoldsRfcs(s.threads[t].pc) ==> Advance(s.(rfcs := rfcs), t) == Advance(s, t).(rfcs := rfcs)
  {
  }

  /** `rfcs_mut` is never taken by a thread that holds `clients_mut`; only `add_rfc` ever holds both. */
  lemma LockOrder(s: State, t: Tid)
    requires Inv(s) && CanAdvance(s, t)
    ensures s.rfcsMut == None && Advance(s, t).rfcsMut == Some(t) ==> s.clientsMut != Some(t)
    ensures s.rfcsMut == Some(t) && s.clientsMut == Some(t) ==> s.threads[t].pc.op.AddRfc?
    ensures Advance(s, t).clientsMut == Some(t) && s.clientsMut == None && s.rfcsMut == Some(t) ==> s.threads[t].pc.op.AddRfc?
  {
  }

  // ---- No deadlock ----

  /** A thread blocked on a mutex waits, at most through one other thread, for a thread that can step. */
  lemma SomeThreadCanStep(s: State, t: Tid)
    requires Inv(s) && t < |s.threads| && s.threads[t].pc != Idle
    ensures exists u: Tid :: u < |s.threads| && (CanAdvance(s, u) || s.threads[u].pc.Returning?)
  {
    if CanAdvance(s, t) || s.threads[t].pc.Returning? {
    } else if s.clientsMut.Some? {
      var u := s.clientsMut.value;
      assert HoldsClients(s.threads[u].pc);
      assert CanAdvance(s, u);
    } else {
      var u := s.rfcsMut.value;
      assert HoldsRfcs(s.threads[u].pc);
      assert CanAdvance(s, u);
    }
  }

  /** An upper bound on the steps a call still takes. */
  function Rank(pc: Pc): nat {
    match pc
    case Idle => 0
    case Returning(_, _) => 1
    case Leaving(_, _) => 2
    case LeavingBoth(_, _) => 3
    case InsideClients(_) => 3
    case Both(_) => 4
    case Between(_) => 4
    case Nested(_) => 5
    case Erased(_) => 5
    case Inside(_) => 6
    case Entering(_) => 7
  }

  function Work(threads: seq<Thread>): nat {
    if threads == [] then 0 else Rank(threads[0].pc) + Work(threads[1..])
  }

  lemma {:induction false} WorkUpdate(threads: seq<Thread>, t: Tid, th: Thread)
    requires t < |threads|
    ensures Work(threads[t := th]) == Work(threads) - Rank(threads[t].pc) + Rank(th.pc)
  {
    if t > 0 {
      WorkUpdate(threads[1..], t - 1, th);
      assert threads[t := th][1..] == threads[1..][t - 1 := th];
    }
  }

  /** Without new calls, every step brings the index closer to rest. */
  lemma StepDecreasesWork(s: State, l: Label, s': State)
    requires Inv(s) && Step(true, s, l, s') && !l.Invoke?
    ensures Work(s'.threads) < Work(s.threads)
  {
    if l.Internal? {
      AdvanceShape(s, l.t);
      WorkUpdate(s.threads, l.t, s'.threads[l.t]);
      AdvanceLowersRank(s, l.t);
    } else {
      WorkUpdate(s.threads, l.t, s'.threads[l.t]);
    }
  }

  lemma AdvanceLowersRank(s: State, t: Tid)
    requires CanAdvance(s, t)
    ensures Rank(Advance(s, t).threads[t].pc) < Rank(s.threads[t].pc)
  {
  }

  ghost predicate QuietStep(s: State, s': State) {
    exists l: Label :: !l.Invoke? && Step(true, s, l, s')
  }

  ghost predicate AtRest(s: State) {
    && s.clientsMut == None && s.rfcsMut == None
    && forall t :: 0 <= t < |s.threads| ==> s.threads[t].pc == Idle
  }

  /**
   From every reachable state the pending calls can run to their ends in at most `Work` steps, and
   since every quiet step lowers `Work`, they do so under every schedule; both mutexes end up free.
   */
  lemma {:induction false} PendingCallsFinish(s: State) returns (path: seq<State>)
    requires Inv(s)
    ensures path != [] && path[0] == s && |path| <= Work(s.threads) + 1
    ensures forall i :: 0 <= i < |path| - 1 ==> QuietStep(path[i], path[i + 1])
    ensures AtRest(path[|path| - 1])
    decreases Work(s.threads)
  {
    if t :| 0 <= t < |s.threads| && s.threads[t].pc != Idle {
      var s' := NextStep(s, t);
      var rest := PendingCallsFinish(s');
      path := [s] + rest;
    } else {
      path := [s];
      assert MutexesOwned(s);
    }
  }

  lemma NextStep(s: State, t: Tid) returns (s': State)
    requires Inv(s) && t < |s.threads| && s.threads[t].pc != Idle
    ensures QuietStep(s, s') && Inv(s') && Work(s'.threads) < Work(s.threads)
  {
    SomeThreadCanStep(s, t);
    var u: Tid :| u < |s.threads| && (CanAdvance(s, u) || s.threads[u].pc.Returning?);
    var l;
    if CanAdvance(s, u) {
      l, s' := Internal(u), Advance(s, u);
    } else {
      var pc := s.threads[u].pc;
      l := Return(u, pc.op, pc.reply);
      s' := s.(threads := s.threads[u := Thread(if pc.op.RemoveClient? then None else s.threads[u].session, Idle)]);
    }
    assert Step(true, s, l, s');
    StepKeepsInv(s, l, s');
    StepDecreasesWork(s, l, s');
  }
}
