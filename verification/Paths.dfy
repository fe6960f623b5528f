/** What can be reached by moves. */
module Paths {

  ghost predicate MoveAt<C>(move: (C, C) -> bool, path: seq<C>, i: nat)
    requires i + 1 < |path|
  {
    move(path[i], path[i + 1])
  }

  ghost predicate IsPath<C>(move: (C, C) -> bool, path: seq<C>, c: C, d: C) {
    && path != [] && path[0] == c && path[|path| - 1] == d
    && forall i :: 0 <= i < |path| - 1 ==> MoveAt(move, path, i)
  }

  ghost predicate Reaches<C(!new)>(move: (C, C) -> bool, c: C, d: C) {
    exists path :: IsPath(move, path, c, d)
  }

  ghost predicate Terminal<C(!new)>(move: (C, C) -> bool, c: C) {
    forall d :: !move(c, d)
  }

  lemma ReachesItself<C(!new)>(move: (C, C) -> bool, c: C)
    ensures Reaches(move, c, c)
  {
    assert IsPath(move, [c], c, c);
  }

  lemma ReachesNext<C(!new)>(move: (C, C) -> bool, c: C, d: C, e: C)
    requires Reaches(move, c, d) && move(d, e)
    ensures Reaches(move, c, e)
  {
    var path :| IsPath(move, path, c, d);
    var longer := path + [e];
    forall i | 0 <= i < |longer| - 1 ensures MoveAt(move, longer, i) {
      assert i < |path| - 1 ==> MoveAt(move, path, i);
    }
    assert IsPath(move, longer, c, e);
  }

  lemma ReachesFrom<C(!new)>(move: (C, C) -> bool, c: C, d: C, e: C)
    requires move(c, d) && Reaches(move, d, e)
    ensures Reaches(move, c, e)
  {
    var path :| IsPath(move, path, d, e);
    var longer := [c] + path;
    forall i | 0 <= i < |longer| - 1 ensures MoveAt(move, longer, i) {
      assert i > 0 ==> MoveAt(move, path, i - 1);
    }
    assert IsPath(move, longer, c, e);
  }

  /** What holds at first and is kept by every move holds wherever the moves lead. */
  lemma Invariance<C(!new)>(move: (C, C) -> bool, inv: C -> bool, c: C, d: C)
    requires Reaches(move, c, d) && inv(c)
    requires forall x, y :: inv(x) && move(x, y) ==> inv(y)
    ensures inv(d)
  {
    var path :| IsPath(move, path, c, d);
    PathKeeps(move, inv, path, c, d);
  }

  lemma {:induction false} PathKeeps<C(!new)>(move: (C, C) -> bool, inv: C -> bool, path: seq<C>, c: C, d: C)
    requires IsPath(move, path, c, d) && inv(c)
    requires forall x, y :: inv(x) && move(x, y) ==> inv(y)
    ensures inv(d)
  {
    if |path| > 1 {
      var shorter := path[..|path| - 1];
      forall i | 0 <= i < |shorter| - 1 ensures MoveAt(move, shorter, i) {
        assert MoveAt(move, path, i);
      }
      PathKeeps(move, inv, shorter, c, path[|path| - 2]);
      assert MoveAt(move, path, |path| - 2);
    }
  }
}
