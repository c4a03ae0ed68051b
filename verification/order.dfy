/** Python's ordering of `str` values (code point by code point, a proper
    prefix first) and `sorted` over a set of strings, used where the source
    iterates `sorted(...)`. */
module StringOrder {
  import opened Wrappers

  /** Python's `a < b` on strings. */
  predicate Less(a: string, b: string)
    decreases |a|
  {
    if a == [] then b != []
    else if b == [] then false
    else if a[0] != b[0] then a[0] < b[0]
    else Less(a[1..], b[1..])
  }

  lemma {:induction false} LessIrreflexive(a: string)
    ensures !Less(a, a)
    decreases |a|
  {
    if a != [] {
      LessIrreflexive(a[1..]);
    }
  }

  lemma {:induction false} LessTransitive(a: string, b: string, c: string)
    requires Less(a, b) && Less(b, c)
    ensures Less(a, c)
    decreases |a|
  {
    if a != [] && a[0] == b[0] && b[0] == c[0] {
      LessTransitive(a[1..], b[1..], c[1..]);
    }
  }

  /** Two different strings are ordered one way or the other, never both. */
  lemma {:induction false} LessTotal(a: string, b: string)
    ensures a != b ==> Less(a, b) || Less(b, a)
    ensures !(Less(a, b) && Less(b, a))
    decreases |a|
  {
    if a != [] && b != [] && a[0] == b[0] {
      LessTotal(a[1..], b[1..]);
      if a != b {
        assert a == [a[0]] + a[1..] && b == [b[0]] + b[1..];
      }
    }
  }

  /** Strictly increasing. */
  ghost predicate Ascending(s: seq<string>) {
    forall i, j :: 0 <= i < j < |s| ==> Less(s[i], s[j])
  }

  /** `m` is the least element of `s`. */
  predicate Least(m: string, s: set<string>) {
    m in s && forall x :: x in s && x != m ==> Less(m, x)
  }

  lemma {:induction false} LeastExists(s: set<string>)
    requires s != {}
    ensures exists m :: Least(m, s)
    decreases |s|
  {
    var x :| x in s;
    if s - {x} == {} {
      forall y | y in s ensures y == x {
        assert y !in s - {x};
      }
      assert Least(x, s);
    } else {
      LeastExists(s - {x});
      var m :| Least(m, s - {x});
      LessTotal(m, x);
      if Less(m, x) {
        assert Least(m, s);
      } else {
        forall y | y in s && y != x ensures Less(x, y) {
          if y != m {
            LessTransitive(x, m, y);
          }
        }
        assert Least(x, s);
      }
    }
  }

  lemma LeastUnique(m: string, n: string, s: set<string>)
    requires Least(m, s) && Least(n, s)
    ensures m == n
  {
    if m != n {
      LessTotal(m, n);
    }
  }

  /** `sorted(s)`: the elements of `s` in increasing order. */
  ghost function SortedSet(s: set<string>): (r: seq<string>)
    ensures Elems(r) == s && |r| == |s| && Ascending(r)
    decreases |s|
  {
    if s == {} then []
    else
      LeastExists(s);
      var m :| Least(m, s);
      var rest := SortedSet(s - {m});
      assert forall x :: x in rest ==> x in Elems(rest);
      PrependAscending(m, rest);
      [m] + rest
  }

  lemma PrependAscending(m: string, rest: seq<string>)
    requires Ascending(rest)
    requires forall x :: x in rest ==> Less(m, x)
    ensures Ascending([m] + rest) && Elems([m] + rest) == Elems(rest) + {m}
  {
    var r := [m] + rest;
    forall i, j | 0 <= i < j < |r| ensures Less(r[i], r[j]) {
      if i > 0 {
        assert r[i] == rest[i - 1] && r[j] == rest[j - 1];
      } else {
        assert r[j] == rest[j - 1];
      }
    }
  }

  /** An ascending sequence is determined by its set of elements. */
  lemma {:induction false} AscendingUnique(a: seq<string>, b: seq<string>)
    requires Ascending(a) && Ascending(b) && Elems(a) == Elems(b)
    ensures a == b
    decreases |a|
  {
    assert a != [] ==> a[0] in Elems(a);
    assert b != [] ==> b[0] in Elems(b);
    if a != [] && b != [] {
      assert Least(a[0], Elems(a)) by {
        forall x | x in Elems(a) && x != a[0] ensures Less(a[0], x) {
          var i :| 0 <= i < |a| && a[i] == x;
        }
      }
      assert Least(b[0], Elems(b)) by {
        forall x | x in Elems(b) && x != b[0] ensures Less(b[0], x) {
          var i :| 0 <= i < |b| && b[i] == x;
        }
      }
      LeastUnique(a[0], b[0], Elems(a));
      AscendingTail(a);
      AscendingTail(b);
      AscendingUnique(a[1..], b[1..]);
      assert a == [a[0]] + a[1..] && b == [b[0]] + b[1..];
    }
  }

  lemma AscendingTail(a: seq<string>)
    requires Ascending(a) && a != []
    ensures Ascending(a[1..])
    ensures Elems(a[1..]) == Elems(a) - {a[0]}
  {
    forall x | x in a[1..] ensures x != a[0] {
      var i :| 0 <= i < |a[1..]| && a[1..][i] == x;
      assert Less(a[0], a[i + 1]);
      LessIrreflexive(a[0]);
    }
    assert a == [a[0]] + a[1..];
  }

  /** `sorted(s)` as the source runs it: picks the least remaining element
      until none is left. */
  method Sorted(s: set<string>) returns (r: seq<string>)
    ensures r == SortedSet(s)
  {
    r := [];
    var rest := s;
    while rest != {}
      invariant Ascending(r) && Elems(r) + rest == s && Elems(r) !! rest
      invariant forall x, y :: x in r && y in rest ==> Less(x, y)
      decreases |rest|
    {
      LeastExists(rest);
      var m :| Least(m, rest);
      AppendAscending(r, m, rest);
      r := r + [m];
      rest := rest - {m};
    }
    AscendingUnique(r, SortedSet(s));
  }

  lemma AppendAscending(r: seq<string>, m: string, rest: set<string>)
    requires Ascending(r) && Least(m, rest)
    requires forall x, y :: x in r && y in rest ==> Less(x, y)
    ensures Ascending(r + [m]) && Elems(r + [m]) == Elems(r) + {m}
    ensures forall x, y :: x in r + [m] && y in rest - {m} ==> Less(x, y)
  {
    var q := r + [m];
    forall i, j | 0 <= i < j < |q| ensures Less(q[i], q[j]) {
      assert q[i] == r[i];
      if j < |r| {
        assert q[j] == r[j];
      }
    }
    forall x, y | x in q && y in rest - {m} ensures Less(x, y) {
      if x != m {
        assert x in r;
      }
    }
  }

  /** How many elements of `s` come before `x`. */
  function Rank(x: string, s: set<string>): nat {
    |set y | y in s && Less(y, x)|
  }

  /** In an ascending sequence, the element at position `i` has rank `i`
      among the sequence's elements. */
  lemma RankIsIndex(r: seq<string>, i: int)
    requires Ascending(r) && 0 <= i < |r|
    ensures Rank(r[i], Elems(r)) == i
  {
    var below := set y | y in Elems(r) && Less(y, r[i]);
    forall y | y in below ensures y in Elems(r[..i]) {
      var j :| 0 <= j < |r| && r[j] == y;
      if j >= i {
        if j > i {
          LessTotal(r[i], r[j]);
        } else {
          LessIrreflexive(r[i]);
        }
      }
      assert r[..i][j] == y;
    }
    forall y | y in Elems(r[..i]) ensures y in below {
      var j :| 0 <= j < i && r[..i][j] == y;
      assert Less(r[j], r[i]);
    }
    assert below == Elems(r[..i]);
    AscendingDistinct(r);
    assert Distinct(r[..i]);
    DistinctCard(r[..i]);
  }

  lemma AscendingDistinct(r: seq<string>)
    requires Ascending(r)
    ensures Distinct(r)
  {
    forall i, j | 0 <= i < j < |r| ensures r[i] != r[j] {
      LessIrreflexive(r[i]);
    }
  }
}
