/** The connection threads of a listener and the cleanup thread that reaps them. */
module Listener {
  import opened Bytes
  import opened Sorting

  /** Handles of the thread, its socket and the flag it sets when its handler is done. */
  datatype ThreadKeeper = ThreadKeeper(thread: nat, sock: nat, isFinished: nat)

  /** The keepers whose flag is, or is not, raised, in order. */
  function Select(s: seq<ThreadKeeper>, raised: set<nat>, finished: bool): seq<ThreadKeeper> {
    if s == [] then []
    else if (s[0].isFinished in raised) == finished then [s[0]] + Select(s[1..], raised, finished)
    else Select(s[1..], raised, finished)
  }

  /** What is selected are the keepers whose flag is as asked, all of them, in order. */
  lemma {:induction false} SelectMeans(s: seq<ThreadKeeper>, raised: set<nat>, finished: bool)
    ensures forall k :: k in Select(s, raised, finished) <==> k in s && (k.isFinished in raised <==> finished)
    ensures IsSubsequence(Select(s, raised, finished), s)
  {
    if s == [] {
      EmptyIsSubsequence(s);
    } else {
      assert s == [s[0]] + s[1..];
      SelectMeans(s[1..], raised, finished);
      SubsequenceGrows(Select(s[1..], raised, finished), s);
    }
  }

  lemma {:induction false} SelectPartitions(s: seq<ThreadKeeper>, raised: set<nat>)
    ensures multiset(s) == multiset(Select(s, raised, true)) + multiset(Select(s, raised, false))
  {
    if s != [] {
      assert s == [s[0]] + s[1..];
      SelectPartitions(s[1..], raised);
    }
  }

  class EncryptedServerSocketListener {
    var clientThreads: seq<ThreadKeeper>
    /** The keepers joined and freed so far. */
    var reaped: seq<ThreadKeeper>

    constructor ()
      ensures clientThreads == [] && reaped == []
    {
      clientThreads, reaped := [], [];
    }

    /** `push_back` for an accepted connection. */
    method Accept(keeper: ThreadKeeper)
      modifies this`clientThreads
      ensures clientThreads == old(clientThreads) + [keeper]
    {
      clientThreads := clientThreads + [keeper];
    }

    /** One pass of the cleanup loop, while the flags in `raised` are up. */
    method CleanupPass(raised: set<nat>)
      modifies this
      ensures clientThreads == Select(old(clientThreads), raised, false)
      ensures reaped == old(reaped) + Select(old(clientThreads), raised, true)
      ensures forall k :: k in clientThreads ==> k.isFinished !in raised
      ensures old(reaped) <= reaped && forall k :: k in reaped[|old(reaped)|..] ==> k.isFinished in raised
      ensures IsSubsequence(clientThreads, old(clientThreads)) && IsSubsequence(reaped[|old(reaped)|..], old(clientThreads))
      ensures multiset(clientThreads) + multiset(reaped[|old(reaped)|..]) == multiset(old(clientThreads))
    {
      ghost var all := clientThreads;
      ghost var newlyReaped: seq<ThreadKeeper> := [];
      var it := 0;
      while it < |clientThreads|
        invariant 0 <= it <= |clientThreads| && reaped == old(reaped) + newlyReaped
        invariant Select(all, raised, false) == clientThreads[..it] + Select(clientThreads[it..], raised, false)
        invariant Select(all, raised, true) == newlyReaped + Select(clientThreads[it..], raised, true)
        decreases |clientThreads| - it
      {
        ghost var rest := clientThreads[it..];
        if clientThreads[it].isFinished in raised {
          reaped, newlyReaped := reaped + [clientThreads[it]], newlyReaped + [clientThreads[it]];
          assert (clientThreads[..it] + clientThreads[it + 1..])[it..] == rest[1..];
          clientThreads := clientThreads[..it] + clientThreads[it + 1..];
        } else {
          assert rest[1..] == clientThreads[it + 1..] && clientThreads[..it] + [rest[0]] == clientThreads[..it + 1];
          it := it + 1;
        }
      }
      assert clientThreads[it..] == [] && clientThreads[..it] == clientThreads;
      assert reaped[|old(reaped)|..] == Select(all, raised, true);
      SelectMeans(all, raised, true);
      SelectMeans(all, raised, false);
      SelectPartitions(all, raised);
    }
  }

  // ---- Whole lives of a listener ----

  datatype Event = Accepted(keeper: ThreadKeeper) | Pass(raised: set<nat>)

  datatype Life = Life(running: seq<ThreadKeeper>, reaped: seq<ThreadKeeper>)

  function After(events: seq<Event>): Life {
    if events == [] then Life([], [])
    else
      var l := After(events[..|events| - 1]);
      match events[|events| - 1]
      case Accepted(k) => Life(l.running + [k], l.reaped)
      case Pass(raised) => Life(Select(l.running, raised, false), l.reaped + Select(l.running, raised, true))
  }

  function AcceptedIn(events: seq<Event>): seq<ThreadKeeper> {
    if events == [] then []
    else
      var front := AcceptedIn(events[..|events| - 1]);
      match events[|events| - 1]
      case Accepted(k) => front + [k]
      case Pass(_) => front
  }

  /** Conservation: every accepted keeper is, as often as it was accepted, running or reaped. */
  lemma {:induction false} NothingLostNothingTwice(events: seq<Event>)
    ensures multiset(After(events).running) + multiset(After(events).reaped) == multiset(AcceptedIn(events))
  {
    if events != [] {
      var front := events[..|events| - 1];
      NothingLostNothingTwice(front);
      match events[|events| - 1]
      case Accepted(k) =>
      case Pass(raised) => SelectPartitions(After(front).running, raised);
    }
  }

  lemma {:induction false} DistinctMultiplicity(s: seq<ThreadKeeper>, x: ThreadKeeper)
    requires forall i, j :: 0 <= i < j < |s| ==> s[i] != s[j]
    ensures multiset(s)[x] <= 1
  {
    if s != [] {
      assert s == [s[0]] + s[1..];
      DistinctMultiplicity(s[1..], x);
      assert forall k :: 0 <= k < |s[1..]| ==> s[1..][k] == s[k + 1] && s[0] != s[k + 1];
    }
  }

  /** When every accepted connection has its own handles, no keeper is ever joined or freed twice. */
  lemma NoKeeperReapedTwice(events: seq<Event>)
    requires forall i, j :: 0 <= i < j < |AcceptedIn(events)| ==> AcceptedIn(events)[i] != AcceptedIn(events)[j]
    ensures forall i, j :: 0 <= i < j < |After(events).reaped| ==> After(events).reaped[i] != After(events).reaped[j]
    ensures forall k :: k in After(events).reaped ==> k !in After(events).running
  {
    NothingLostNothingTwice(events);
    var l := After(events);
    forall k ensures multiset(l.reaped)[k] + multiset(l.running)[k] <= 1 {
      DistinctMultiplicity(AcceptedIn(events), k);
    }
    SingleMeansDistinct(l.reaped);
    forall k | k in l.reaped ensures k !in l.running {
      assert multiset(l.reaped)[k] >= 1;
    }
  }

  lemma {:induction false} SingleMeansDistinct(s: seq<ThreadKeeper>)
    requires forall k :: multiset(s)[k] <= 1
    ensures forall i, j :: 0 <= i < j < |s| ==> s[i] != s[j]
  {
    if s != [] {
      assert s == [s[0]] + s[1..];
      forall k ensures multiset(s[1..])[k] <= 1 {
        assert multiset(s)[k] >= multiset(s[1..])[k];
      }
      SingleMeansDistinct(s[1..]);
      assert multiset(s)[s[0]] == 1 + multiset(s[1..])[s[0]];
      assert s[0] !in s[1..];
    }
  }
}
