/** Function identifiers `file_path::name`, built by `create_function_key`
    (core/call_graph.py, core/change_detector.py) and `create_contract_key`
    (storage/database.py), and the two ways the source takes them apart:
    `key.split("::")[-1]` and `key.split("::", 1)`. */
module Keys {
  import opened Wrappers

  /** The separator `::` starts at index `i` of `s`. */
  predicate SepAt(s: string, i: int) {
    0 <= i < |s| - 1 && s[i] == ':' && s[i + 1] == ':'
  }

  /** Python's `"::" in s`. */
  predicate ContainsSep(s: string) {
    exists i | 0 <= i < |s| - 1 :: SepAt(s, i)
  }

  /** `f"{file_path}::{name}"`; the source asserts both parts non-empty. */
  function CreateFunctionKey(name: string, filePath: string): (key: string)
    requires name != [] && filePath != []
    ensures ContainsSep(key)
    ensures |key| == |filePath| + 2 + |name|
    ensures key[..|filePath|] == filePath && key[|filePath| + 2..] == name
  {
    var key := filePath + "::" + name;
    assert SepAt(key, |filePath|);
    key
  }

  /** The last element of Python's `s.split("::")`. `split` scans from the left
      and cuts at every non-overlapping `::`, so this is NOT always the text
      after the right-most `::` (`"a:::b"` gives `":b"`). */
  function LastSegment(s: string): string
    decreases |s|
  {
    if !ContainsSep(s) then s
    else if s[0] == ':' && s[1] == ':' then LastSegment(s[2..])
    else LastSegment(s[1..])
  }

  /** The last segment is a suffix without a separator; when `s` has one, the
      segment follows a `::`, and otherwise it is all of `s`. */
  lemma {:induction false} LastSegmentShape(s: string)
    ensures |LastSegment(s)| <= |s| && LastSegment(s) == s[|s| - |LastSegment(s)|..]
    ensures !ContainsSep(LastSegment(s))
    ensures ContainsSep(s) ==> |LastSegment(s)| + 2 <= |s| && SepAt(s, |s| - |LastSegment(s)| - 2)
    ensures !ContainsSep(s) ==> LastSegment(s) == s
    decreases |s|
  {
    if ContainsSep(s) {
      var r := LastSegment(s);
      if s[0] == ':' && s[1] == ':' {
        LastSegmentShape(s[2..]);
        assert s[2..][|s| - 2 - |r|..] == s[|s| - |r|..];
        if ContainsSep(s[2..]) {
          assert SepAt(s, |s| - |r| - 2) by {
            assert SepAt(s[2..], |s| - 2 - |r| - 2);
          }
        } else {
          assert SepAt(s, 0);
        }
      } else {
        assert !SepAt(s, 0);
        var i :| 0 <= i < |s| - 1 && SepAt(s, i);
        assert SepAt(s[1..], i - 1);
        LastSegmentShape(s[1..]);
        assert s[1..][|s| - 1 - |r|..] == s[|s| - |r|..];
        assert SepAt(s, |s| - |r| - 2) by {
          assert SepAt(s[1..], |s| - 1 - |r| - 2);
        }
      }
    }
  }

  /** `s.split("::", 1)` when `"::" in s`: the text before the FIRST `::` and
      the text after it; `None` when there is no separator. */
  function SplitFirst(s: string): (r: Option<(string, string)>)
    ensures r.Some? <==> ContainsSep(s)
    ensures r.Some? ==> s == r.value.0 + "::" + r.value.1
    ensures r.Some? ==> forall i :: SepAt(s, i) ==> |r.value.0| <= i
    decreases |s|
  {
    if |s| < 2 then
      assert !ContainsSep(s);
      None
    else if s[0] == ':' && s[1] == ':' then
      assert SepAt(s, 0);
      Some(([], s[2..]))
    else
      assert !SepAt(s, 0);
      assert forall j :: SepAt(s[1..], j) <==> SepAt(s, j + 1);
      assert forall i :: SepAt(s, i) ==> 1 <= i && SepAt(s[1..], i - 1);
      match SplitFirst(s[1..])
      case None => None
      case Some((p, n)) => Some(([s[0]] + p, n))
  }

  /** The name part survives `split("::")[-1]` when it has no separator and does
      not start with `:`, and the path does not end with `:`. */
  lemma {:induction false} LastSegmentOfKey(name: string, filePath: string)
    requires name != [] && filePath != []
    requires !ContainsSep(name) && name[0] != ':'
    requires filePath[|filePath| - 1] != ':'
    ensures LastSegment(CreateFunctionKey(name, filePath)) == name
  {
    LastSegmentAfter(filePath, name);
  }

  lemma {:induction false} LastSegmentAfter(p: string, n: string)
    requires n != [] && !ContainsSep(n) && n[0] != ':'
    requires p == [] || p[|p| - 1] != ':'
    ensures LastSegment(p + "::" + n) == n
    decreases |p|
  {
    var s := p + "::" + n;
    assert SepAt(s, |p|);
    if p == [] {
      assert s[2..] == n;
    } else if s[0] == ':' && s[1] == ':' {
      assert |p| >= 2;
      assert s[2..] == p[2..] + "::" + n;
      LastSegmentAfter(p[2..], n);
    } else {
      assert s[1..] == p[1..] + "::" + n;
      LastSegmentAfter(p[1..], n);
    }
  }

  /** A path ending in `:` breaks the round trip: name `b`, path `a:` gives the
      key `a:::b`, whose last `split` segment is `:b`. */
  lemma LastSegmentOfKeyFailsForColonPath()
    ensures LastSegment(CreateFunctionKey("b", "a:")) == ":b"
  {
    var key := CreateFunctionKey("b", "a:");
    assert key == "a:::b";
    assert SepAt(key, 1);
    assert key[0] != ':';
    assert key[1..] == ":::b";
    assert SepAt(key[1..], 0);
    assert key[1..][2..] == ":b";
    assert !SepAt(":b", 0);
    assert !ContainsSep(":b");
  }

  /** `split("::", 1)` recovers path and name exactly when no `::` starts inside
      the path or straddles its end: a path free of `::` that does not end in `:`. */
  lemma {:induction false} SplitFirstOfKey(name: string, filePath: string)
    requires name != [] && filePath != []
    requires !ContainsSep(filePath) && filePath[|filePath| - 1] != ':'
    ensures SplitFirst(CreateFunctionKey(name, filePath)) == Some((filePath, name))
  {
    var key := CreateFunctionKey(name, filePath);
    var r := SplitFirst(key);
    assert SepAt(key, |filePath|);
    forall i | 0 <= i < |filePath|
      ensures !SepAt(key, i)
    {
      if i + 1 < |filePath| {
        assert key[i] == filePath[i] && key[i + 1] == filePath[i + 1];
        assert !SepAt(filePath, i);
      } else {
        assert key[i] == filePath[|filePath| - 1];
      }
    }
    var p := r.value.0;
    assert SepAt(key, |p|);
    assert |p| == |filePath|;
    assert key[..|p|] == p;
  }

  /** The two splits disagree once the path holds `::`: `a::b::c` is path
      `a`, name `b::c` for one and name `c` for the other. */
  lemma SplitsDisagreeOnSeparatorInPath()
    ensures SplitFirst("a::b::c") == Some(("a", "b::c"))
    ensures LastSegment("a::b::c") == "c"
  {
    FirstSplitOfSample();
    LastSegmentOfSample();
  }

  lemma FirstSplitOfSample()
    ensures SplitFirst("a::b::c") == Some(("a", "b::c"))
  {
    var s := "a::b::c";
    assert SepAt(s, 1);
    assert !SepAt(s, 0);
    assert s[1..] == "::b::c" && SepAt(s[1..], 0);
    assert s[1..][2..] == "b::c";
    assert SplitFirst(s[1..]) == Some(([], "b::c"));
    assert s[0] == 'a';
    assert [s[0]] + [] == "a";
  }

  lemma LastSegmentOfSample()
    ensures LastSegment("a::b::c") == "c"
  {
    assert !ContainsSep("c");
    assert "::c"[2..] == "c" && SepAt("::c", 0);
    assert LastSegment("::c") == "c";
    assert "b::c"[1..] == "::c" && SepAt("b::c", 1) && !SepAt("b::c", 0);
    assert LastSegment("b::c") == "c";
    assert "::b::c"[2..] == "b::c" && SepAt("::b::c", 0);
    assert LastSegment("::b::c") == "c";
    assert "a::b::c"[1..] == "::b::c" && SepAt("a::b::c", 1) && !SepAt("a::b::c", 0);
  }
}
