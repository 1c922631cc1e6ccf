/**
 * `Array.prototype.filter` and `Array.prototype.find` over the contents
 * of an array, as used by the delete and lookup operations of a product.
 */
module Lists {
  import opened Js

  /** `s.filter(keep)`: the elements that pass, in their original order. */
  function Filter<T>(s: seq<T>, keep: T -> bool): (r: seq<T>)
    ensures |r| <= |s|
    ensures forall i :: 0 <= i < |r| ==> r[i] in s && keep(r[i])
    ensures forall i :: 0 <= i < |s| && keep(s[i]) ==> s[i] in r
  {
    if s == [] then []
    else Filter(s[..|s| - 1], keep) + (if keep(s[|s| - 1]) then [s[|s| - 1]] else [])
  }

  /** Filtering works piece by piece, so the kept elements keep their relative order. */
  lemma {:induction false} FilterAppend<T>(s: seq<T>, t: seq<T>, keep: T -> bool)
    ensures Filter(s + t, keep) == Filter(s, keep) + Filter(t, keep)
  {
    if t == [] {
      assert s + t == s;
    } else {
      assert (s + t)[..|s + t| - 1] == s + t[..|t| - 1];
      FilterAppend(s, t[..|t| - 1], keep);
    }
  }

  /** When every element passes, the filter returns the same contents. */
  lemma {:induction false} FilterKeepsAll<T>(s: seq<T>, keep: T -> bool)
    requires forall i :: 0 <= i < |s| ==> keep(s[i])
    ensures Filter(s, keep) == s
  {
    if s != [] {
      FilterKeepsAll(s[..|s| - 1], keep);
    }
  }

  /** `s.find(pred)`: the first element that satisfies `pred`, or `undefined`. */
  function Find<T>(s: seq<T>, pred: T -> bool): (r: Option<T>)
    ensures r.None? <==> forall i :: 0 <= i < |s| ==> !pred(s[i])
    ensures r.Some? ==> exists i :: 0 <= i < |s| && s[i] == r.value && pred(s[i])
                                    && forall j :: 0 <= j < i ==> !pred(s[j])
  {
    if s == [] then None
    else if pred(s[0]) then Some(s[0])
    else
      var r := Find(s[1..], pred);
      if r.Some? then
        ghost var i :| 0 <= i < |s[1..]| && s[1..][i] == r.value && pred(s[1..][i])
                       && forall j :: 0 <= j < i ==> !pred(s[1..][j]);
        assert s[i + 1] == r.value && forall j :: 0 <= j < i + 1 ==> !pred(s[j]);
        r
      else r
  }

  /** Searching a concatenation: the first part is searched first. */
  lemma {:induction false} FindAppend<T>(s: seq<T>, t: seq<T>, pred: T -> bool)
    ensures Find(s + t, pred) == if Find(s, pred).Some? then Find(s, pred) else Find(t, pred)
  {
    if s != [] {
      assert (s + t)[0] == s[0];
      if !pred(s[0]) {
        assert (s + t)[1..] == s[1..] + t;
        FindAppend(s[1..], t, pred);
      }
    } else {
      assert s + t == t;
    }
  }
}
