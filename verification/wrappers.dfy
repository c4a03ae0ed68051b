/** Python's `None`-or-value results, and small facts about sequences and sets
    used by every other module. */
module Wrappers {

  /** `Optional[T]`: `None` in the source is `None` here. */
  datatype Option<+T> = None | Some(value: T)

  /** No element occurs twice. */
  predicate Distinct<T(==)>(s: seq<T>) {
    forall i, j :: 0 <= i < j < |s| ==> s[i] != s[j]
  }

  /** The elements of a sequence, as a set. */
  function Elems<T>(s: seq<T>): set<T> {
    set x | x in s
  }

  /** A duplicate-free sequence has as many elements as its set. */
  lemma {:induction false} DistinctCard<T>(s: seq<T>)
    requires Distinct(s)
    ensures |Elems(s)| == |s|
  {
    if s != [] {
      var t := s[..|s| - 1];
      assert Distinct(t);
      DistinctCard(t);
      assert s == t + [s[|s| - 1]];
      assert s[|s| - 1] !in t;
      assert Elems(s) == Elems(t) + {s[|s| - 1]};
    }
  }

  /** A subset is no larger than its superset. */
  lemma {:induction false} CardOfSubset<T>(a: set<T>, b: set<T>)
    requires a <= b
    ensures |a| <= |b|
  {
    if a != {} {
      var x :| x in a;
      CardOfSubset(a - {x}, b - {x});
    }
  }
}
