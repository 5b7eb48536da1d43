/**
 * Append-only logs of the effects the store has on the outside world
 * (listener calls, console diagnostics).
 */
module Logs {

  /**
   * `after` is `before` followed by every element of `s` exactly once,
   * in some order.
   */
  ghost predicate AppendsEachOnce<X>(before: seq<X>, after: seq<X>, s: set<X>) {
    && |before| <= |after|
    && after[..|before|] == before
    && multiset(after[|before|..]) == multiset(s)
  }

  /** Nothing is appended when the set is empty, and the log grows by |s|. */
  lemma AppendsEachOnceLength<X>(before: seq<X>, after: seq<X>, s: set<X>)
    requires AppendsEachOnce(before, after, s)
    ensures |after| == |before| + |s|
    ensures s == {} ==> after == before
  {
    assert |after[|before|..]| == |multiset(after[|before|..])|;
    if s == {} {
      assert |after[|before|..]| == 0;
      assert after == after[..|before|] + after[|before|..];
    }
  }

  /** Appending one more element not yet in the set extends the enumeration. */
  lemma AppendsEachOnceStep<X>(before: seq<X>, after: seq<X>, s: set<X>, x: X)
    requires AppendsEachOnce(before, after, s)
    requires x !in s
    ensures AppendsEachOnce(before, after + [x], s + {x})
  {
    var tail := after[|before|..];
    assert (after + [x])[..|before|] == before;
    assert (after + [x])[|before|..] == tail + [x];
    assert multiset(s + {x}) == multiset(s) + multiset{x};
  }

  /** The empty suffix enumerates the empty set. */
  lemma AppendsNothing<X>(log: seq<X>)
    ensures AppendsEachOnce(log, log, {})
  {
    assert log[|log|..] == [];
  }
}
