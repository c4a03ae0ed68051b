/** The JSON values that the store writes and reads, and that request bodies
    carry (storage/database.py, web/server.py). */
module Json {
  import opened Wrappers

  datatype Value =
    | Null
    | Bool(b: bool)
    | Int(i: int)
    | Real(r: real)
    | Str(s: string)
    | List(items: seq<Value>)
    | Dict(fields: map<string, Value>)

  /** A Python `List[str]` as a JSON array of strings. */
  function StrList(xs: seq<string>): (v: Value)
    ensures v.List? && |v.items| == |xs|
    ensures forall i :: 0 <= i < |xs| ==> v.items[i] == Str(xs[i])
  {
    List(seq(|xs|, i requires 0 <= i < |xs| => Str(xs[i])))
  }

  /** The strings of an array holding only strings; `None` for any other value. */
  function AsStrList(v: Value): (r: Option<seq<string>>)
    ensures r.Some? <==> v.List? && forall i :: 0 <= i < |v.items| ==> v.items[i].Str?
    ensures r.Some? ==> v == StrList(r.value)
  {
    if v.List? && forall i :: 0 <= i < |v.items| ==> v.items[i].Str? then
      var xs := seq(|v.items|, i requires 0 <= i < |v.items| => v.items[i].s);
      assert v.items == StrList(xs).items;
      Some(xs)
    else None
  }

  /** Encoding a list of strings and reading it back gives the list. */
  lemma StrListRoundTrip(xs: seq<string>)
    ensures AsStrList(StrList(xs)) == Some(xs)
  {
    var r := AsStrList(StrList(xs));
    assert r.Some?;
    assert StrList(r.value).items == StrList(xs).items;
    assert r.value == xs by {
      assert |r.value| == |xs|;
      forall i | 0 <= i < |xs| ensures r.value[i] == xs[i] {
        assert StrList(r.value).items[i] == StrList(xs).items[i];
      }
    }
  }
}
