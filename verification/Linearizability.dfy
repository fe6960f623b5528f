/**
 Every interleaved run of the central index is a run of the atomic operations: each call takes effect
 in one instant between its invocation and its return.
 */
module Linearizability {
  import opened Bytes
  import opened Sorting
  import opened IndexSpec
  import opened IndexLists
  import opened IndexThreads

  /** A thread as its caller sees it. */
  datatype Status = Free | Pending(op: Op) | Done(op: Op, reply: Reply)

  datatype Spec = Spec(index: Index, status: seq<Status>)

  /** The atomic system: a call is invoked, takes effect at once, and returns its reply. */
  ghost predicate SpecStep(a: Spec, l: Label, a': Spec) {
    l.t < |a.status| &&
    match l
    case Invoke(t, op) => a.status[t] == Free && a' == a.(status := a.status[t := Pending(op)])
    case Return(t, op, reply) => a.status[t] == Done(op, reply) && a' == a.(status := a.status[t := Free])
    case Internal(t) => a' == a || Commits(a, t, a')
  }

  ghost predicate Commits(a: Spec, t: Tid, a': Spec)
    requires t < |a.status|
  {
    && a.status[t].Pending? && |a'.status| == |a.status| && a'.status[t].Done?
    && Atomic(a.status[t].op, a.index, a'.index, a'.status[t].reply)
    && a'.status == a.status[t := Done(a.status[t].op, a'.status[t].reply)]
  }

  // ---- The abstraction ----

  function StatusOf(pc: Pc): Status {
    match pc
    case Idle => Free
    case Entering(op) => Pending(op)
    case Inside(op) => Pending(op)
    case Nested(op) => Pending(op)
    case Both(op) => Pending(op)
    case Erased(op) => Done(op, Flag(false))
    case Between(op) => Done(op, Flag(false))
    case InsideClients(op) => Done(op, Flag(false))
    case LeavingBoth(op, reply) => Done(op, reply)
    case Leaving(op, reply) => Done(op, reply)
    case Returning(op, reply) => Done(op, reply)
  }

  function StatusesOf(threads: seq<Thread>): seq<Status> {
    seq(|threads|, i requires 0 <= i < |threads| => StatusOf(threads[i].pc))
  }

  ghost predicate IsDeparting(s: State, p: Peer) {
    exists t :: 0 <= t < |s.threads| && s.threads[t].session == Some(p) && Departing(s.threads[t].pc)
  }

  /** A client whose holders are erased no longer counts: `remove_client` takes effect in its first section. */
  ghost function IndexOf(s: State): Index {
    Index((set p | p in s.clients && !IsDeparting(s, p)), Elements(s.rfcs))
  }

  ghost function SpecOf(s: State): Spec {
    Spec(IndexOf(s), StatusesOf(s.threads))
  }

  lemma DepartingShape(s: State, t: Tid, p: Peer)
    requires Inv(s) && CanAdvance(s, t)
    ensures s.threads[t].session != Some(p) ==> (IsDeparting(Advance(s, t), p) <==> IsDeparting(s, p))
    ensures s.threads[t].session == Some(p) ==> (IsDeparting(s, p) <==> Departing(s.threads[t].pc))
    ensures s.threads[t].session == Some(p) ==> (IsDeparting(Advance(s, t), p) <==> Departing(Advance(s, t).threads[t].pc))
  {
    AdvanceShape(s, t);
    var s' := Advance(s, t);
    assert forall u :: 0 <= u < |s.threads| && u != t ==> s'.threads[u] == s.threads[u];
    assert forall u :: 0 <= u < |s.threads| ==> s'.threads[u].session == s.threads[u].session;
  }

  /** Which identities the abstract index lists, before and after a step of `t`. */
  lemma AdvanceClients(s: State, t: Tid, p: Peer)
    requires Inv(s) && CanAdvance(s, t)
    ensures s.threads[t].session != Some(p) ==> (p in IndexOf(Advance(s, t)).clients <==> p in IndexOf(s).clients)
    ensures s.threads[t].session == Some(p) ==>
              (p in IndexOf(s).clients <==> Registered(s.threads[t].pc) && !Departing(s.threads[t].pc))
    ensures s.threads[t].session == Some(p) ==>
              (p in IndexOf(Advance(s, t)).clients <==>
               Registered(Advance(s, t).threads[t].pc) && !Departing(Advance(s, t).threads[t].pc))
  {
    DepartingShape(s, t, p);
    AdvanceLists(s, t);
    OthersStayListed(s, t, p);
  }

  lemma AdvanceStatuses(s: State, t: Tid)
    requires Inv(s) && CanAdvance(s, t)
    ensures StatusesOf(Advance(s, t).threads) == StatusesOf(s.threads)[t := StatusOf(Advance(s, t).threads[t].pc)]
  {
    AdvanceShape(s, t);
  }

  /** A step that is not a linearization point changes nothing the callers can see. */
  lemma OrdinaryStepStutters(s: State, t: Tid)
    requires Inv(s) && CanAdvance(s, t)
    requires StatusOf(Advance(s, t).threads[t].pc) == StatusOf(s.threads[t].pc)
    ensures SpecOf(Advance(s, t)) == SpecOf(s)
  {
    var s' := Advance(s, t);
    AdvanceStatuses(s, t);
    forall p ensures p in IndexOf(s').clients <==> p in IndexOf(s).clients {
      AdvanceClients(s, t, p);
    }
    assert s'.rfcs == s.rfcs;
  }

  lemma CommitSetsStatus(s: State, t: Tid)
    requires Inv(s) && CanAdvance(s, t) && StatusOf(s.threads[t].pc).Pending? && StatusOf(Advance(s, t).threads[t].pc).Done?
    requires Atomic(s.threads[t].pc.op, IndexOf(s), IndexOf(Advance(s, t)), StatusOf(Advance(s, t).threads[t].pc).reply)
    ensures Commits(SpecOf(s), t, SpecOf(Advance(s, t)))
  {
    AdvanceStatuses(s, t);
  }

  lemma AddClientEffect(s: State, t: Tid)
    requires Inv(s) && CanAdvance(s, t) && s.threads[t].pc.Inside? && s.threads[t].pc.op.AddClient?
    ensures Atomic(s.threads[t].pc.op, IndexOf(s), IndexOf(Advance(s, t)), StatusOf(Advance(s, t).threads[t].pc).reply)
  {
    var p := s.threads[t].pc.op.peer;
    forall q ensures q in IndexOf(Advance(s, t)).clients <==> q in IndexOf(s).clients || q == p {
      AdvanceClients(s, t, q);
    }
    AdvanceClients(s, t, p);
    OthersStayListed(s, t, p);
    assert IndexOf(Advance(s, t)).clients == IndexOf(s).clients + {p};
  }

  lemma RemoveClientEffect(s: State, t: Tid)
    requires Inv(s) && CanAdvance(s, t) && s.threads[t].pc.Inside? && s.threads[t].pc.op.RemoveClient?
    ensures Atomic(s.threads[t].pc.op, IndexOf(s), IndexOf(Advance(s, t)), StatusOf(Advance(s, t).threads[t].pc).reply)
  {
    var p := s.threads[t].pc.op.peer;
    forall q ensures q in IndexOf(Advance(s, t)).clients <==> q in IndexOf(s).clients && q != p {
      AdvanceClients(s, t, q);
    }
    assert IndexOf(Advance(s, t)).clients == IndexOf(s).clients - {p};
    HoldersWithoutMembers(s.rfcs, p);
    assert IndexOf(Advance(s, t)).rfcs == set h | h in IndexOf(s).rfcs && h.peer != p;
  }

  lemma DuplicateEffect(s: State, t: Tid)
    requires Inv(s) && CanAdvance(s, t) && s.threads[t].pc.Inside? && s.threads[t].pc.op.AddRfc?
    requires !Advance(s, t).threads[t].pc.Nested?
    ensures Atomic(s.threads[t].pc.op, IndexOf(s), IndexOf(Advance(s, t)), StatusOf(Advance(s, t).threads[t].pc).reply)
  {
    forall q ensures q in IndexOf(Advance(s, t)).clients <==> q in IndexOf(s).clients {
      AdvanceClients(s, t, q);
    }
    assert IndexOf(Advance(s, t)) == IndexOf(s);
  }

  lemma ReadEffect(s: State, t: Tid)
    requires Inv(s) && CanAdvance(s, t) && s.threads[t].pc.Inside?
    requires s.threads[t].pc.op.FindRfcs? || s.threads[t].pc.op.AllRfcs?
    ensures Atomic(s.threads[t].pc.op, IndexOf(s), IndexOf(Advance(s, t)), StatusOf(Advance(s, t).threads[t].pc).reply)
  {
    ReadKeepsIndex(s, t);
    if s.threads[t].pc.op.FindRfcs? { PeersHoldingEnumerates(s.rfcs, s.threads[t].pc.op.rfc); }
  }

  /** The critical section of a single-section operation, or of the erase phase of `remove_client`. */
  lemma SectionCommits(s: State, t: Tid)
    requires Inv(s) && CanAdvance(s, t) && s.threads[t].pc.Inside? && !Advance(s, t).threads[t].pc.Nested?
    ensures Commits(SpecOf(s), t, SpecOf(Advance(s, t)))
  {
    match s.threads[t].pc.op {
      case AddClient(_) => AddClientEffect(s, t);
      case RemoveClient(_) => RemoveClientEffect(s, t);
      case AddRfc(_, _) => DuplicateEffect(s, t);
      case _ => ReadEffect(s, t);
    }
    CommitSetsStatus(s, t);
  }

  lemma ReadKeepsIndex(s: State, t: Tid)
    requires Inv(s) && CanAdvance(s, t) && s.threads[t].pc.Inside?
    requires s.threads[t].pc.op.FindRfcs? || s.threads[t].pc.op.AllRfcs?
    ensures IndexOf(Advance(s, t)) == IndexOf(s)
  {
    forall p ensures p in IndexOf(Advance(s, t)).clients <==> p in IndexOf(s).clients {
      AdvanceClients(s, t, p);
    }
  }

  /** The inner section of `add_rfc`, under both mutexes. */
  lemma InnerSectionCommits(s: State, t: Tid)
    requires Inv(s) && CanAdvance(s, t) && s.threads[t].pc.Both?
    ensures Commits(SpecOf(s), t, SpecOf(Advance(s, t)))
  {
    var s', op := Advance(s, t), s.threads[t].pc.op;
    forall p ensures p in IndexOf(s').clients <==> p in IndexOf(s).clients {
      AdvanceClients(s, t, p);
    }
    AdvanceClients(s, t, op.peer);
    OthersStayListed(s, t, op.peer);
    HoldersWithMembers(s.rfcs, RfcHolder(op.rfc, op.peer));
    assert IndexOf(s').rfcs == IndexOf(s).rfcs + {RfcHolder(op.rfc, op.peer)};
    CommitSetsStatus(s, t);
  }

  /** The forward simulation: a step of the lock-based index is a step of the atomic one with the same label. */
  lemma StepRefinesSpec(s: State, l: Label, s': State)
    requires Inv(s) && Step(true, s, l, s')
    ensures SpecStep(SpecOf(s), l, SpecOf(s'))
  {
    match l
    case Internal(t) =>
      var pc := s.threads[t].pc;
      if pc.Inside? && !s'.threads[t].pc.Nested? {
        SectionCommits(s, t);
      } else if pc.Both? {
        InnerSectionCommits(s, t);
      } else {
        OrdinaryStepStutters(s, t);
      }
    case _ =>
      forall p ensures IsDeparting(s', p) <==> IsDeparting(s, p) {
        assert forall u :: 0 <= u < |s.threads| && u != l.t ==> s'.threads[u] == s.threads[u];
        assert !Departing(s'.threads[l.t].pc) && !Departing(s.threads[l.t].pc);
      }
      assert IndexOf(s') == IndexOf(s);
      assert SpecOf(s').status == SpecOf(s).status[l.t := StatusOf(s'.threads[l.t].pc)];
  }

  // ---- Whole runs ----

  /** One effect of a call, in the order in which the calls take effect. */
  datatype Effect = Effect(t: Tid, op: Op, reply: Reply)

  /** Executing the effects one at a time, atomically, leads from `before` to `after`. */
  ghost predicate Serial(before: Index, effects: seq<Effect>, after: Index)
    decreases |effects|
  {
    if effects == [] then before == after
    else
      var last := effects[|effects| - 1];
      exists mid :: Serial(before, effects[..|effects| - 1], mid) && Atomic(last.op, mid, after, last.reply)
  }

  /** What the calls of thread `t` returned, oldest first. */
  function Returned(labels: seq<Label>, t: Tid): seq<Effect> {
    if labels == [] then []
    else
      var last := labels[|labels| - 1];
      Returned(labels[..|labels| - 1], t) +
      (if last.Return? && last.t == t then [Effect(t, last.op, last.reply)] else [])
  }

  function EffectsOf(effects: seq<Effect>, t: Tid): seq<Effect> {
    if effects == [] then []
    else
      var last := effects[|effects| - 1];
      EffectsOf(effects[..|effects| - 1], t) + (if last.t == t then [last] else [])
  }

  function Unreturned(status: Status, t: Tid): seq<Effect> {
    if status.Done? then [Effect(t, status.op, status.reply)] else []
  }

  /**
   The order of effects explains the run: run one at a time the calls give the index its contents,
   and every thread has seen exactly its own effects' replies, except one not yet returned.
   */
  ghost predicate Explains(effects: seq<Effect>, labels: seq<Label>, a: Spec) {
    && Serial(EMPTY_INDEX, effects, a.index)
    && forall t :: 0 <= t < |a.status| ==> EffectsOf(effects, t) == Returned(labels, t) + Unreturned(a.status[t], t)
  }

  lemma SerialAppends(before: Index, effects: seq<Effect>, mid: Index, e: Effect, after: Index)
    requires Serial(before, effects, mid) && Atomic(e.op, mid, after, e.reply)
    ensures Serial(before, effects + [e], after)
  {
    var all := effects + [e];
    assert all[..|all| - 1] == effects && all[|all| - 1] == e;
    assert Serial(before, all[..|all| - 1], mid);
  }

  lemma EffectsOfAppends(effects: seq<Effect>, e: Effect, t: Tid)
    ensures EffectsOf(effects + [e], t) == EffectsOf(effects, t) + (if e.t == t then [e] else [])
  {
    assert (effects + [e])[..|effects|] == effects;
  }

  lemma ReturnedAppends(labels: seq<Label>, l: Label, t: Tid)
    ensures Returned(labels + [l], t) ==
            Returned(labels, t) + (if l.Return? && l.t == t then [Effect(t, l.op, l.reply)] else [])
  {
    assert (labels + [l])[..|labels|] == labels;
  }

  lemma ExplainsExtends(effects: seq<Effect>, labels: seq<Label>, a: Spec, l: Label, a': Spec) returns (effects': seq<Effect>)
    requires Explains(effects, labels, a) && SpecStep(a, l, a')
    ensures Explains(effects', labels + [l], a')
    ensures effects <= effects' && |effects'| <= |effects| + 1
  {
    effects' := effects;
    if l.Internal? && a' != a {
      var e := Effect(l.t, a.status[l.t].op, a'.status[l.t].reply);
      effects' := effects + [e];
      SerialAppends(EMPTY_INDEX, effects, a.index, e, a'.index);
      forall t { EffectsOfAppends(effects, e, t); }
    }
    forall t | 0 <= t < |a'.status|
      ensures EffectsOf(effects', t) == Returned(labels + [l], t) + Unreturned(a'.status[t], t)
    {
      ReturnedAppends(labels, l, t);
      assert EffectsOf(effects, t) == Returned(labels, t) + Unreturned(a.status[t], t);
    }
  }

  /**
   Linearizability. Every run of the lock-based index has an order of effects that explains it after
   each step; the order only grows, so a call that returned before another was invoked comes first.
   */
  lemma EveryRunIsLinearizable(states: seq<State>, labels: seq<Label>) returns (orders: seq<seq<Effect>>)
    requires IsRun(true, states, labels)
    ensures |orders| == |states|
    ensures forall i :: 0 <= i < |states| ==> Explains(orders[i], labels[..i], SpecOf(states[i]))
    ensures forall i :: 0 <= i < |labels| ==> orders[i] <= orders[i + 1]
  {
    orders := PrefixIsLinearizable(states, labels, |labels|);
  }

  lemma {:induction false} PrefixIsLinearizable(states: seq<State>, labels: seq<Label>, n: nat) returns (orders: seq<seq<Effect>>)
    requires IsRun(true, states, labels) && n <= |labels|
    ensures |orders| == n + 1
    ensures forall i :: 0 <= i <= n ==> Explains(orders[i], labels[..i], SpecOf(states[i]))
    ensures forall i :: 0 <= i < n ==> orders[i] <= orders[i + 1]
  {
    if n == 0 {
      orders := [[]];
      assert IndexOf(states[0]) == EMPTY_INDEX;
    } else {
      var before := PrefixIsLinearizable(states, labels, n - 1);
      var last := NextEffects(states, labels, n - 1, before[n - 1]);
      orders := before + [last];
    }
  }

  lemma NextEffects(states: seq<State>, labels: seq<Label>, k: nat, effects: seq<Effect>) returns (effects': seq<Effect>)
    requires IsRun(true, states, labels) && k < |labels| && Explains(effects, labels[..k], SpecOf(states[k]))
    ensures Explains(effects', labels[..k + 1], SpecOf(states[k + 1])) && effects <= effects'
  {
    RunKeepsInv(states, labels, k);
    StepRefinesSpec(states[k], labels[k], states[k + 1]);
    assert labels[..k + 1] == labels[..k] + [labels[k]];
    effects' := ExplainsExtends(effects, labels[..k], SpecOf(states[k]), labels[k], SpecOf(states[k + 1]));
  }
}
