/** Most events of the system depend neither on the index nor on the handlers of other peers. */
module HandlerSwap {
  import opened Bytes
  import opened IndexSpec
  import opened Protocol
  import opened Session
  import opened Download
  import opened System
  import RfcManager

  /** The system `s` with another index and other handlers. */
  function Over(s: State, index: Index, handlers: seq<Party<HandlerAt>>): State
    requires |handlers| == |s.nodes|
  {
    State(index,
          seq(|s.nodes|, i requires 0 <= i < |s.nodes| => s.nodes[i].(session := s.nodes[i].session.(handler := handlers[i]))),
          s.links)
  }

  /** The handler that an event changes, if it is no call of the index. */
  function Changes(e: Event): Option<nat> {
    match e
    case HandlerSend(i) => Some(i)
    case HandlerReceive(i) => Some(i)
    case Restart(i) => Some(i)
    case _ => None
  }

  function HandlersAfter(e: Event, s': State, handlers: seq<Party<HandlerAt>>): seq<Party<HandlerAt>> {
    match Changes(e)
    case Some(i) => if i < |handlers| && i < |s'.nodes| then handlers[i := s'.nodes[i].session.handler] else handlers
    case None => handlers
  }

  lemma OverSession(s: State, index: Index, handlers: seq<Party<HandlerAt>>, i: nat, x: Session, h: Party<HandlerAt>)
    requires |handlers| == |s.nodes| && i < |s.nodes|
    ensures Over(WithSession(s, i, x), index, handlers[i := h]) == WithSession(Over(s, index, handlers), i, x.(handler := h))
  {
  }

  /** Everything but a call of the index goes the same way, if the handler that it changes is the same. */
  lemma EventSwaps(s: State, e: Event, s': State, index: Index, handlers: seq<Party<HandlerAt>>)
    requires Step(s, e, s') && !e.HandlerAct? && |handlers| == |s.nodes|
    requires Changes(e).Some? ==> handlers[Changes(e).value] == s.nodes[Changes(e).value].session.handler
    ensures |s'.nodes| == |s.nodes|
    ensures Step(Over(s, index, handlers), e, Over(s', index, HandlersAfter(e, s', handlers)))
  {
    if IsLinkEvent(e) {
      LinkEventSwaps(s, e, s', index, handlers);
    } else if e.Connect? {
      ConnectSwaps(s, e, s', index, handlers);
    } else {
      NodeEventSwaps(s, e, s', index, handlers);
    }
  }

  lemma NodeEventSwaps(s: State, e: Event, s': State, index: Index, handlers: seq<Party<HandlerAt>>)
    requires Step(s, e, s') && !e.HandlerAct? && !e.Connect? && !IsLinkEvent(e) && |handlers| == |s.nodes|
    requires Changes(e).Some? ==> handlers[Changes(e).value] == s.nodes[Changes(e).value].session.handler
    ensures |s'.nodes| == |s.nodes|
    ensures Step(Over(s, index, handlers), e, Over(s', index, HandlersAfter(e, s', handlers)))
  {
    var i := e.i;
    var handlers' := HandlersAfter(e, s', handlers);
    assert s' == WithSession(s, i, s'.nodes[i].session);
    assert handlers' == handlers[i := handlers'[i]];
    OverSession(s, index, handlers, i, s'.nodes[i].session, handlers'[i]);
    assert Over(s, index, handlers).nodes[i].session == s.nodes[i].session.(handler := handlers[i]);
    if e.ClientReceive? {
      var stored :| ListsKeys(stored, s.nodes[i].dir) && s' == WithSession(s, i, AfterClientReceives(s.nodes[i].me, stored, s.nodes[i].session));
      assert Over(s', index, handlers') == WithSession(Over(s, index, handlers), i,
        AfterClientReceives(s.nodes[i].me, stored, Over(s, index, handlers).nodes[i].session));
    }
  }

  lemma ConnectSwaps(s: State, e: Event, s': State, index: Index, handlers: seq<Party<HandlerAt>>)
    requires Step(s, e, s') && e.Connect? && |handlers| == |s.nodes|
    ensures |s'.nodes| == |s.nodes|
    ensures Step(Over(s, index, handlers), e, Over(s', index, handlers))
  {
    var i := e.i;
    OverSession(s, index, handlers, i, s'.nodes[i].session, handlers[i]);
    assert handlers[i := handlers[i]] == handlers;
  }

  lemma LinkEventSwaps(s: State, e: Event, s': State, index: Index, handlers: seq<Party<HandlerAt>>)
    requires Step(s, e, s') && IsLinkEvent(e) && |handlers| == |s.nodes|
    ensures |s'.nodes| == |s.nodes|
    ensures Step(Over(s, index, handlers), e, Over(s', index, handlers))
  {
    var l := s.links[e.k];
    assert Over(s, index, handlers).nodes[l.from] == s.nodes[l.from].(session := s.nodes[l.from].session.(handler := handlers[l.from]));
    assert Over(s, index, handlers).nodes[l.to].dir == s.nodes[l.to].dir;
    assert s'.nodes == s.nodes[l.from := s'.nodes[l.from]];
    assert Over(s', index, handlers).nodes == Over(s, index, handlers).nodes[l.from := Over(s', index, handlers).nodes[l.from]];
  }
}

/**
 The whole system with the index as it is: a handler's call of the index is an invocation, then single `lock()`,
 critical-section and `unlock()` steps that interleave with everything else, then a return. It does nothing that
 module System does not do, where a call is one event, so that all that holds there holds here.
 */
module LockedSystem {
  import opened Bytes
  import opened IndexSpec
  import opened Records
  import opened Protocol
  import opened Session
  import opened System
  import opened SystemInvariant
  import opened HandlerSwap
  import I = IndexThreads
  import L = Linearizability

  /** The call that a handler is about to make. */
  function OpOf(at: HandlerAt): Option<Op> {
    match at
    case Joining(p) => Some(AddClient(p))
    case Adding(p, n) => Some(AddRfc(p, n))
    case Listing(_) => Some(AllRfcs)
    case LookingUp(_, n) => Some(FindRfcs(n))
    case Removing(p) => Some(RemoveClient(p))
    case _ => None
  }

  /** What a handler may do with the reply. */
  ghost predicate Replies(at: HandlerAt, reply: Reply, h: Party<HandlerAt>) {
    match at
    case Joining(p) => h == Party([], AwaitMessage(p))
    case Adding(p, _) => reply.Flag? && h == Party([EncodeInt(if reply.ok then 200 else 400)], AwaitMessage(p))
    case Listing(p) => reply.Holders? && exists body :: IsListBody(reply.holders, body) && h == Party(Sized(body), AwaitMessage(p))
    case LookingUp(p, _) => reply.Peers? && exists body :: IsLookupBody(reply.peers, body) && h == Party(Sized(body), AwaitMessage(p))
    case Removing(_) => h == Party([], Closed)
    case _ => false
  }

  /** A call that takes effect at once, and its reply, are what module Protocol has in one. */
  lemma AtomicCallActs(at: HandlerAt, index: Index, index': Index, reply: Reply, h: Party<HandlerAt>)
    requires OpOf(at).Some? && Atomic(OpOf(at).value, index, index', reply) && Replies(at, reply, h)
    ensures HandlerActs(at, index, index', h)
  {
  }

  /** The identity that a handler holds in the index between its calls, from `add_client` to `remove_client`. */
  function HeldBy(at: HandlerAt): Option<Peer> {
    match at
    case AwaitMessage(p) => Some(p)
    case AwaitAdd(p) => Some(p)
    case Adding(p, _) => Some(p)
    case Listing(p) => Some(p)
    case AwaitLookup(p) => Some(p)
    case LookingUp(p, _) => Some(p)
    case Removing(p) => Some(p)
    case _ => None
  }

  function PeerIn(at: HandlerAt): Option<Peer> {
    if at.Joining? then Some(at.peer) else HeldBy(at)
  }

  /**
   The parties, the index with its threads, one for each handler, and for each call that has taken effect what the
   handler will do with the reply, the contents of its uninitialised buffer included; None if it has nothing to send.
   */
  datatype Locked = Locked(parties: State, index: I.State, replies: seq<Option<Party<HandlerAt>>>)

  datatype Action = Happens(e: Event) | Calls(i: nat) | Advances(i: nat) | Returns(i: nat)

  function Handler(l: Locked, i: nat): Party<HandlerAt>
    requires i < |l.parties.nodes|
  {
    l.parties.nodes[i].session.handler
  }

  ghost predicate Calling(l: Locked, i: nat, l': Locked)
    requires i < |l.parties.nodes| == |l.index.threads|
  {
    && Handler(l, i).todo == [] && OpOf(Handler(l, i).at).Some? && l.index.threads[i].pc.Idle?
    && var op := OpOf(Handler(l, i).at).value;
       l' == l.(index := l.index.(threads := l.index.threads[i := I.Thread(if op.AddClient? then Some(op.peer) else l.index.threads[i].session, I.Entering(op))]))
  }

  /** The step in which a call gets its reply. */
  predicate Commits(index: I.State, i: nat)
    requires I.CanAdvance(index, i)
  {
    L.StatusOf(index.threads[i].pc).Pending? && L.StatusOf(I.Advance(index, i).threads[i].pc).Done?
  }

  ghost predicate Settles(at: HandlerAt, reply: Reply, settled: Option<Party<HandlerAt>>) {
    match settled
    case Some(h) => Replies(at, reply, h)
    case None => forall h :: !Replies(at, reply, h)
  }

  ghost predicate Advancing(l: Locked, i: nat, l': Locked)
    requires i < |l.parties.nodes| == |l.index.threads| == |l.replies|
  {
    && I.CanAdvance(l.index, i)
    && l'.parties == l.parties && l'.index == I.Advance(l.index, i) && |l'.replies| == |l.replies|
    && l'.replies == l.replies[i := l'.replies[i]]
    && (if Commits(l.index, i) then Settles(Handler(l, i).at, L.StatusOf(l'.index.threads[i].pc).reply, l'.replies[i])
        else l'.replies[i] == l.replies[i])
  }

  ghost predicate Returning(l: Locked, i: nat, l': Locked)
    requires i < |l.parties.nodes| == |l.index.threads| == |l.replies|
  {
    && l.index.threads[i].pc.Returning? && l.replies[i].Some?
    && l'.replies == l.replies
    && l'.index == l.index.(threads := l.index.threads[i := I.Thread(if l.index.threads[i].pc.op.RemoveClient? then None else l.index.threads[i].session, I.Idle)])
    && l'.parties == WithSession(l.parties, i, l.parties.nodes[i].session.(handler := l.replies[i].value))
  }

  ghost predicate Happening(l: Locked, e: Event, l': Locked) {
    !e.HandlerAct? && Step(l.parties, e, l'.parties) && l'.index == l.index && l'.replies == l.replies
  }

  ghost predicate LockedStep(l: Locked, a: Action, l': Locked) {
    match a
    case Happens(e) => Happening(l, e, l')
    case Calls(i) => i < |l.parties.nodes| == |l.index.threads| == |l.replies| && Calling(l, i, l')
    case Advances(i) => i < |l.parties.nodes| == |l.index.threads| == |l.replies| && Advancing(l, i, l')
    case Returns(i) => i < |l.parties.nodes| == |l.index.threads| == |l.replies| && Returning(l, i, l')
  }

  ghost predicate LockedInit(l: Locked) {
    && Init(l.parties) && I.Init(l.index) && |l.index.threads| == |l.replies| == |l.parties.nodes|
  }

  // ---- What a state with locks stands for ----

  /** The handler as the callers of an atomic index would see it: its call has been answered as soon as it has taken effect. */
  function Answered(l: Locked, i: nat): Party<HandlerAt>
    requires i < |l.parties.nodes| == |l.index.threads| == |l.replies|
  {
    if L.StatusOf(l.index.threads[i].pc).Done? && l.replies[i].Some? then l.replies[i].value else Handler(l, i)
  }

  function AllAnswered(l: Locked): seq<Party<HandlerAt>>
    requires |l.parties.nodes| == |l.index.threads| == |l.replies|
  {
    seq(|l.parties.nodes|, i requires 0 <= i < |l.parties.nodes| => Answered(l, i))
  }

  ghost function Atomically(l: Locked): State
    requires |l.parties.nodes| == |l.index.threads| == |l.replies|
  {
    Over(l.parties, L.IndexOf(l.index), AllAnswered(l))
  }

  /** The thread of handler `i` is where the handler is, and holds its identity alone. */
  ghost predicate InStep(l: Locked, i: nat)
    requires i < |l.parties.nodes| == |l.index.threads| == |l.replies|
  {
    var h, th := Handler(l, i), l.index.threads[i];
    && (!th.pc.Idle? ==> PeerIn(h.at) == Some(l.parties.nodes[i].me))
    && match L.StatusOf(th.pc)
       case Free => th.session == HeldBy(h.at)
       case Pending(op) => h.todo == [] && OpOf(h.at) == Some(op) && th.session == PeerIn(h.at)
       case Done(op, reply) =>
         h.todo == [] && OpOf(h.at) == Some(op) && th.session == PeerIn(h.at) && Settles(h.at, reply, l.replies[i])
  }

  ghost predicate LockedInv(o: State, l: Locked) {
    && |l.parties.nodes| == |l.index.threads| == |l.replies|
    && I.Inv(l.index)
    && (forall i :: 0 <= i < |l.parties.nodes| ==> InStep(l, i))
    && Inv(o, Atomically(l))
  }

  // ---- Events of the parties ----

  /** While its handler is in a call, nothing else changes it. */
  lemma BusyHandlersWait(l: Locked, e: Event, l': Locked, i: nat)
    requires |l.parties.nodes| == |l.index.threads| == |l.replies| && i < |l.parties.nodes| && InStep(l, i)
    requires Happening(l, e, l') && Changes(e) == Some(i)
    ensures l.index.threads[i].pc.Idle?
  {
  }

  lemma EventKeepsHandlers(s: State, e: Event, s': State, i: nat)
    requires Step(s, e, s') && !e.HandlerAct? && i < |s.nodes|
    ensures |s'.nodes| == |s.nodes| && s'.nodes[i].me == s.nodes[i].me
    ensures if Changes(e) == Some(i) then HeldBy(s'.nodes[i].session.handler.at) == HeldBy(s.nodes[i].session.handler.at)
            else s'.nodes[i].session.handler == s.nodes[i].session.handler
  {
  }

  lemma EventKeepsInStep(l: Locked, e: Event, l': Locked, i: nat)
    requires |l.parties.nodes| == |l.index.threads| == |l.replies| && i < |l.parties.nodes| && InStep(l, i)
    requires Happening(l, e, l')
    ensures |l'.parties.nodes| == |l.parties.nodes| && InStep(l', i)
  {
    EventKeepsHandlers(l.parties, e, l'.parties, i);
    if Changes(e) == Some(i) { BusyHandlersWait(l, e, l', i); }
  }

  lemma EventProjects(l: Locked, e: Event, l': Locked)
    requires |l.parties.nodes| == |l.index.threads| == |l.replies| && Happening(l, e, l')
    requires forall i :: 0 <= i < |l.parties.nodes| ==> InStep(l, i)
    ensures |l'.parties.nodes| == |l.parties.nodes| && Step(Atomically(l), e, Atomically(l'))
  {
    if Changes(e).Some? { BusyHandlersWait(l, e, l', Changes(e).value); }
    EventSwaps(l.parties, e, l'.parties, L.IndexOf(l.index), AllAnswered(l));
    forall i | 0 <= i < |l.parties.nodes| ensures AllAnswered(l')[i] == HandlersAfter(e, l'.parties, AllAnswered(l))[i] {
      EventKeepsHandlers(l.parties, e, l'.parties, i);
    }
    assert AllAnswered(l') == HandlersAfter(e, l'.parties, AllAnswered(l));
  }

  // ---- Calls ----

  /** A handler between calls is what the callers of an atomic index see, so its peer is the right one. */
  lemma IdlePeerIsRight(o: State, l: Locked, i: nat)
    requires LockedInv(o, l) && i < |l.parties.nodes| && PeerIn(Handler(l, i).at).Some?
    ensures PeerIn(Handler(l, i).at) == Some(l.parties.nodes[i].me)
  {
    if l.index.threads[i].pc.Idle? {
      NodeIsOk(o, Atomically(l), i);
    }
    assert InStep(l, i);
  }

  /** The peers of two handlers differ. */
  lemma LockedPeersDiffer(o: State, l: Locked, i: nat, j: nat)
    requires LockedInv(o, l) && i < |l.parties.nodes| && j < |l.parties.nodes| && i != j
    ensures l.parties.nodes[i].me != l.parties.nodes[j].me
  {
    PeersDiffer(o, Atomically(l), i, j);
  }

  /** The handlers call the index as it needs: no identity is held by two sessions. */
  lemma CallsAreAllowed(o: State, l: Locked, i: nat)
    requires LockedInv(o, l) && i < |l.parties.nodes| && l.index.threads[i].pc.Idle? && OpOf(Handler(l, i).at).Some?
    ensures I.MayInvoke(true, l.index, i, OpOf(Handler(l, i).at).value)
  {
    var op := OpOf(Handler(l, i).at).value;
    assert InStep(l, i);
    if op.AddClient? {
      IdlePeerIsRight(o, l, i);
      forall u | 0 <= u < |l.index.threads| ensures l.index.threads[u].session != Some(op.peer) {
        assert InStep(l, u);
        if u != i && l.index.threads[u].session.Some? {
          IdlePeerIsRight(o, l, u);
          LockedPeersDiffer(o, l, i, u);
        }
      }
    }
  }

  lemma CallIsStep(o: State, l: Locked, i: nat, l': Locked)
    requires LockedInv(o, l) && i < |l.parties.nodes| && Calling(l, i, l')
    ensures I.Step(true, l.index, I.Invoke(i, OpOf(Handler(l, i).at).value), l'.index)
  {
    CallsAreAllowed(o, l, i);
  }

  /** If the atomic index and all answers are the same, so is what the state stands for. */
  lemma SameAtomically(l: Locked, l': Locked)
    requires |l.parties.nodes| == |l.index.threads| == |l.replies| && |l'.parties.nodes| == |l'.index.threads| == |l'.replies|
    requires |l'.parties.nodes| == |l.parties.nodes| && l'.parties.links == l.parties.links && L.IndexOf(l'.index) == L.IndexOf(l.index)
    requires forall i :: 0 <= i < |l.parties.nodes| ==>
      && Answered(l', i) == Answered(l, i)
      && l'.parties.nodes[i] == l.parties.nodes[i].(session := l.parties.nodes[i].session.(handler := Handler(l', i)))
    ensures Atomically(l') == Atomically(l)
  {
  }

  lemma CallKeepsInv(o: State, l: Locked, i: nat, l': Locked)
    requires LockedInv(o, l) && i < |l.parties.nodes| && Calling(l, i, l')
    ensures LockedInv(o, l') && Atomically(l') == Atomically(l)
  {
    CallIsStep(o, l, i, l');
    var lab := I.Invoke(i, OpOf(Handler(l, i).at).value);
    I.StepKeepsInv(l.index, lab, l'.index);
    L.StepRefinesSpec(l.index, lab, l'.index);
    SameAtomically(l, l');
    IdlePeerIsRight(o, l, i);
    forall j | 0 <= j < |l'.parties.nodes| ensures InStep(l', j) {
      assert InStep(l, j);
    }
  }

  // ---- Steps inside a call ----

  lemma AdvanceIsStep(l: Locked, i: nat, l': Locked)
    requires i < |l.parties.nodes| == |l.index.threads| == |l.replies| && Advancing(l, i, l')
    ensures I.Step(true, l.index, I.Internal(i), l'.index)
  {
  }

  /** Only the thread of handler `i` moves. */
  lemma AdvanceLeavesOthers(l: Locked, i: nat, l': Locked)
    requires i < |l.parties.nodes| == |l.index.threads| == |l.replies| && Advancing(l, i, l')
    ensures |l'.index.threads| == |l.index.threads| && l'.index.threads[i].session == l.index.threads[i].session
    ensures forall j :: 0 <= j < |l.index.threads| && j != i ==> l'.index.threads[j] == l.index.threads[j]
    ensures L.StatusOf(l.index.threads[i].pc).Pending? ==>
      var op := L.StatusOf(l.index.threads[i].pc).op;
      var status := L.StatusOf(l'.index.threads[i].pc);
      status == L.Pending(op) || (status.Done? && status.op == op)
    ensures L.StatusOf(l.index.threads[i].pc).Done? ==> L.StatusOf(l'.index.threads[i].pc) == L.StatusOf(l.index.threads[i].pc)
    ensures !l.index.threads[i].pc.Idle? && !l'.index.threads[i].pc.Idle?
  {
    I.AdvanceShape(l.index, i);
  }

  lemma AdvanceKeepsInStep(l: Locked, i: nat, l': Locked, j: nat)
    requires i < |l.parties.nodes| == |l.index.threads| == |l.replies| && Advancing(l, i, l')
    requires j < |l.parties.nodes| && InStep(l, j)
    ensures |l'.index.threads| == |l'.replies| == |l'.parties.nodes| && InStep(l', j)
  {
    AdvanceLeavesOthers(l, i, l');
  }

  /** Until it commits, and after, a call changes nothing that its callers can see. */
  lemma AdvanceStutters(l: Locked, i: nat, l': Locked)
    requires i < |l.parties.nodes| == |l.index.threads| == |l.replies| && Advancing(l, i, l') && I.Inv(l.index)
    requires !Commits(l.index, i)
    ensures |l'.index.threads| == |l'.replies| == |l'.parties.nodes| && Atomically(l') == Atomically(l)
  {
    AdvanceIsStep(l, i, l');
    AdvanceLeavesOthers(l, i, l');
    L.StepRefinesSpec(l.index, I.Internal(i), l'.index);
    SpecStutters(l.index, i, l'.index);
    SameAtomically(l, l');
  }

  lemma SpecStutters(s: I.State, i: nat, s': I.State)
    requires L.SpecStep(L.SpecOf(s), I.Internal(i), L.SpecOf(s')) && i < |s.threads| == |s'.threads|
    requires !(L.StatusOf(s.threads[i].pc).Pending? && L.StatusOf(s'.threads[i].pc).Done?)
    ensures L.IndexOf(s') == L.IndexOf(s)
  {
    assert L.SpecOf(s).status[i] == L.StatusOf(s.threads[i].pc) && L.SpecOf(s').status[i] == L.StatusOf(s'.threads[i].pc);
  }

  lemma SpecCommits(s: I.State, i: nat, s': I.State)
    requires L.SpecStep(L.SpecOf(s), I.Internal(i), L.SpecOf(s')) && i < |s.threads| == |s'.threads|
    requires L.StatusOf(s.threads[i].pc).Pending? && L.StatusOf(s'.threads[i].pc).Done?
    ensures Atomic(L.StatusOf(s.threads[i].pc).op, L.IndexOf(s), L.IndexOf(s'), L.StatusOf(s'.threads[i].pc).reply)
  {
    assert L.SpecOf(s).status[i] == L.StatusOf(s.threads[i].pc) && L.SpecOf(s').status[i] == L.StatusOf(s'.threads[i].pc);
  }

  /** The committing step is the handler's call in module System, or, if it leaves nothing to send, no step at all. */
  lemma CommitProjects(l: Locked, i: nat, l': Locked)
    requires i < |l.parties.nodes| == |l.index.threads| == |l.replies| && Advancing(l, i, l') && I.Inv(l.index)
    requires InStep(l, i) && Commits(l.index, i)
    ensures |l'.index.threads| == |l'.replies| == |l'.parties.nodes|
    ensures Atomically(l') == Atomically(l) || Step(Atomically(l), HandlerAct(i), Atomically(l'))
  {
    AdvanceIsStep(l, i, l');
    AdvanceLeavesOthers(l, i, l');
    L.StepRefinesSpec(l.index, I.Internal(i), l'.index);
    SpecCommits(l.index, i, l'.index);
    var at, reply := Handler(l, i).at, L.StatusOf(l'.index.threads[i].pc).reply;
    if l'.replies[i].Some? {
      AtomicCallActs(at, L.IndexOf(l.index), L.IndexOf(l'.index), reply, l'.replies[i].value);
      AnswerIsAct(l, i, l', l'.replies[i].value);
    } else {
      ChangesAreAnswered(at, L.IndexOf(l.index), L.IndexOf(l'.index), reply);
      SameAtomically(l, l');
    }
  }

  /** Every call that changes the index has a reply to send. */
  lemma ChangesAreAnswered(at: HandlerAt, index: Index, index': Index, reply: Reply)
    requires OpOf(at).Some? && Atomic(OpOf(at).value, index, index', reply)
    ensures index' == index || exists h :: Replies(at, reply, h)
  {
    match at
    case Joining(p) => assert Replies(at, reply, Party([], AwaitMessage(p)));
    case Adding(p, _) => assert Replies(at, reply, Party([EncodeInt(if reply.ok then 200 else 400)], AwaitMessage(p)));
    case Removing(_) => assert Replies(at, reply, Party([], Closed));
    case _ =>
  }

  lemma AnswerIsAct(l: Locked, i: nat, l': Locked, h: Party<HandlerAt>)
    requires i < |l.parties.nodes| == |l.index.threads| == |l.replies| && |l'.index.threads| == |l'.replies| == |l'.parties.nodes|
    requires l'.parties == l.parties && l'.replies == l.replies[i := Some(h)]
    requires L.StatusOf(l.index.threads[i].pc).Pending? && L.StatusOf(l'.index.threads[i].pc).Done?
    requires forall j :: 0 <= j < |l.index.threads| && j != i ==> l'.index.threads[j] == l.index.threads[j]
    requires Handler(l, i).todo == [] && HandlerActs(Handler(l, i).at, L.IndexOf(l.index), L.IndexOf(l'.index), h)
    ensures Step(Atomically(l), HandlerAct(i), Atomically(l'))
  {
    var s := Atomically(l);
    assert s.nodes[i].session == l.parties.nodes[i].session;
    assert AllAnswered(l') == AllAnswered(l)[i := h];
    assert Atomically(l') == WithSession(s, i, s.nodes[i].session.(handler := h)).(index := L.IndexOf(l'.index));
  }

  lemma AdvanceKeepsInv(o: State, l: Locked, i: nat, l': Locked)
    requires LockedInv(o, l) && i < |l.parties.nodes| && Advancing(l, i, l')
    ensures LockedInv(o, l')
    ensures Atomically(l') == Atomically(l) || Step(Atomically(l), HandlerAct(i), Atomically(l'))
  {
    AdvanceIsStep(l, i, l');
    I.StepKeepsInv(l.index, I.Internal(i), l'.index);
    forall j | 0 <= j < |l.parties.nodes| ensures |l'.index.threads| == |l'.replies| == |l'.parties.nodes| && InStep(l', j) {
      AdvanceKeepsInStep(l, i, l', j);
    }
    assert InStep(l, i);
    if Commits(l.index, i) {
      CommitProjects(l, i, l');
      if Atomically(l') != Atomically(l) { StepKeepsInv(o, Atomically(l), HandlerAct(i), Atomically(l')); }
    } else {
      AdvanceStutters(l, i, l');
    }
  }

  // ---- Returns ----

  lemma ReturnKeepsInv(o: State, l: Locked, i: nat, l': Locked)
    requires LockedInv(o, l) && i < |l.parties.nodes| && Returning(l, i, l')
    ensures LockedInv(o, l') && Atomically(l') == Atomically(l)
  {
    ReturnIsStep(l, i, l');
    I.StepKeepsInv(l.index, I.Return(i, l.index.threads[i].pc.op, l.index.threads[i].pc.reply), l'.index);
    assert InStep(l, i);
    ReturnStutters(l, i, l');
    forall j | 0 <= j < |l'.parties.nodes| ensures InStep(l', j) {
      assert InStep(l, j);
      ReturnKeepsInStep(l, i, l', j);
    }
  }

  lemma ReturnIsStep(l: Locked, i: nat, l': Locked)
    requires i < |l.parties.nodes| == |l.index.threads| == |l.replies| && Returning(l, i, l')
    ensures I.Step(true, l.index, I.Return(i, l.index.threads[i].pc.op, l.index.threads[i].pc.reply), l'.index)
  {
  }

  lemma ReturnStutters(l: Locked, i: nat, l': Locked)
    requires i < |l.parties.nodes| == |l.index.threads| == |l.replies| && Returning(l, i, l') && I.Inv(l.index) && InStep(l, i)
    ensures |l'.parties.nodes| == |l'.index.threads| == |l'.replies| && Atomically(l') == Atomically(l)
  {
    ReturnIsStep(l, i, l');
    L.StepRefinesSpec(l.index, I.Return(i, l.index.threads[i].pc.op, l.index.threads[i].pc.reply), l'.index);
    SameAtomically(l, l');
  }

  lemma ReturnKeepsInStep(l: Locked, i: nat, l': Locked, j: nat)
    requires i < |l.parties.nodes| == |l.index.threads| == |l.replies| && Returning(l, i, l') && j < |l.parties.nodes|
    requires InStep(l, i) && InStep(l, j)
    ensures |l'.parties.nodes| == |l'.index.threads| == |l'.replies| && InStep(l', j)
  {
  }

  // ---- Every step, every run ----

  /** The event of module System that a step stands for, if it is not a stutter. */
  function EventOf(a: Action): Option<Event> {
    match a
    case Happens(e) => Some(e)
    case Advances(i) => Some(HandlerAct(i))
    case _ => None
  }

  /** A step of the system with locks is a step of module System, or changes nothing there; party events are themselves. */
  lemma LockedStepRefines(o: State, l: Locked, a: Action, l': Locked)
    requires LockedInv(o, l) && LockedStep(l, a, l')
    ensures LockedInv(o, l')
    ensures (!a.Happens? && Atomically(l') == Atomically(l)) || (EventOf(a).Some? && Step(Atomically(l), EventOf(a).value, Atomically(l')))
  {
    match a
    case Happens(e) =>
      EventProjects(l, e, l');
      StepKeepsInv(o, Atomically(l), e, Atomically(l'));
      forall i | 0 <= i < |l'.parties.nodes| ensures InStep(l', i) {
        EventKeepsInStep(l, e, l', i);
      }
    case Calls(i) => CallKeepsInv(o, l, i, l');
    case Advances(i) => AdvanceKeepsInv(o, l, i, l');
    case Returns(i) => ReturnKeepsInv(o, l, i, l');
  }

  lemma LockedInitIsInv(l: Locked)
    requires LockedInit(l)
    ensures LockedInv(l.parties, l) && Atomically(l) == l.parties
  {
    forall i | 0 <= i < |l.parties.nodes| ensures InStep(l, i) && Answered(l, i) == Handler(l, i) {
    }
    assert L.IndexOf(l.index) == EMPTY_INDEX;
    assert Atomically(l) == l.parties;
    InitIsInv(l.parties);
  }

  ghost predicate LockedStepAt(ls: seq<Locked>, actions: seq<Action>, t: nat)
    requires t < |actions| < |ls|
  {
    LockedStep(ls[t], actions[t], ls[t + 1])
  }

  ghost predicate IsLockedRun(ls: seq<Locked>, actions: seq<Action>) {
    |ls| == |actions| + 1 && LockedInit(ls[0]) && forall t :: 0 <= t < |actions| ==> LockedStepAt(ls, actions, t)
  }

  /** The events of the parties among the actions, in order. */
  function Happenings(actions: seq<Action>): seq<Event> {
    if actions == [] then []
    else
      var last := actions[|actions| - 1];
      Happenings(actions[..|actions| - 1]) + (if last.Happens? then [last.e] else [])
  }

  /** The events of a run that are no calls of the index, in order. */
  function Uncalled(events: seq<Event>): seq<Event> {
    if events == [] then []
    else
      var last := events[|events| - 1];
      Uncalled(events[..|events| - 1]) + (if last.HandlerAct? then [] else [last])
  }

  lemma OneActionMore(states: seq<State>, events: seq<Event>, e: Event, s': State)
    requires IsRun(states, events) && Step(states[|events|], e, s')
    ensures IsRun(states + [s'], events + [e]) && Uncalled(events + [e]) == Uncalled(events) + (if e.HandlerAct? then [] else [e])
  {
    assert (events + [e])[..|events|] == events;
    forall t | 0 <= t < |events| + 1 ensures StepAt(states + [s'], events + [e], t) {
      if t < |events| { assert StepAt(states, events, t); }
    }
  }

  /**
   Every run with locks stands for a run of module System with the same events of the parties, in the same order,
   that ends in what its last state stands for.
   */
  lemma {:induction false} LockedRunsAreRuns(ls: seq<Locked>, actions: seq<Action>, t: nat) returns (states: seq<State>, events: seq<Event>)
    requires IsLockedRun(ls, actions) && t <= |actions|
    ensures IsRun(states, events) && Uncalled(events) == Happenings(actions[..t])
    ensures states[0] == ls[0].parties && LockedInv(states[0], ls[t]) && states[|events|] == Atomically(ls[t])
  {
    if t == 0 {
      LockedInitIsInv(ls[0]);
      states, events := [ls[0].parties], [];
    } else {
      states, events := LockedRunsAreRuns(ls, actions, t - 1);
      assert LockedStepAt(ls, actions, t - 1);
      assert actions[..t][..t - 1] == actions[..t - 1];
      states, events := RunGoesOn(states, events, ls[t - 1], actions[t - 1], ls[t]);
    }
  }

  lemma RunGoesOn(states: seq<State>, events: seq<Event>, l: Locked, a: Action, l': Locked) returns (states': seq<State>, events': seq<Event>)
    requires IsRun(states, events) && LockedInv(states[0], l) && states[|events|] == Atomically(l) && LockedStep(l, a, l')
    ensures IsRun(states', events') && Uncalled(events') == Uncalled(events) + (if a.Happens? then [a.e] else [])
    ensures states'[0] == states[0] && LockedInv(states[0], l') && states'[|events'|] == Atomically(l')
  {
    LockedStepRefines(states[0], l, a, l');
    if a.Happens? || Atomically(l') != Atomically(l) {
      var e := EventOf(a).value;
      OneActionMore(states, events, e, Atomically(l'));
      states', events' := states + [Atomically(l')], events + [e];
    } else {
      states', events' := states, events;
    }
  }

  /** In particular, at any moment of any run with locks, whatever is locked: a listed holder has the file. */
  lemma ListedHolderHasFile(ls: seq<Locked>, actions: seq<Action>, t: nat, h: RfcHolder)
    requires IsLockedRun(ls, actions) && t <= |actions| && h in ls[t].index.rfcs
    ensures HasFile(ls[t].parties, h.peer, h.rfc)
  {
    var states, events := LockedRunsAreRuns(ls, actions, t);
    EntriesHaveFiles(states[0], Atomically(ls[t]), h);
    FileIsInParties(ls[t], h.peer, h.rfc);
  }

  lemma FileIsInParties(l: Locked, p: Peer, n: int32)
    requires |l.parties.nodes| == |l.index.threads| == |l.replies| && HasFile(Atomically(l), p, n)
    ensures HasFile(l.parties, p, n)
  {
    var s := Atomically(l);
    var j :| 0 <= j < |s.nodes| && s.nodes[j].me == p && n in s.nodes[j].dir;
    assert l.parties.nodes[j].me == p && n in l.parties.nodes[j].dir;
  }
}
