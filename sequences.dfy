/** Order-preserving selection over sequences: the shape shared by pandas' dropna,
    pd.to_numeric followed by dropna, and boolean-mask row filtering. */
module Sequences {
  import opened Wrappers

  /** Keeps, in order, the image of every element that f maps to Some; drops the rest. */
  function FilterMap<T, U>(s: seq<T>, f: T -> Option<U>): (r: seq<U>)
    ensures |r| <= |s|
    ensures (forall j :: 0 <= j < |s| ==> f(s[j]).Some?) ==> |r| == |s|
    ensures r == [] <==> forall j :: 0 <= j < |s| ==> f(s[j]).None?
  {
    if s == [] then []
    else
      var rest := FilterMap(s[1..], f);
      assert forall j :: 1 <= j < |s| ==> s[1..][j - 1] == s[j];
      if f(s[0]).Some? then [f(s[0]).value] + rest else rest
  }

  /** idx lists, in increasing order, exactly the positions of s that f keeps,
      and r holds their images in that order. */
  ghost predicate Selects<T, U>(r: seq<U>, s: seq<T>, f: T -> Option<U>, idx: seq<nat>)
  {
    && |idx| == |r|
    && (forall k :: 0 <= k < |idx| ==> idx[k] < |s| && f(s[idx[k]]) == Some(r[k]))
    && (forall k, l :: 0 <= k < l < |idx| ==> idx[k] < idx[l])
    && (forall j :: 0 <= j < |s| && f(s[j]).Some? ==> j in idx)
  }

  /** FilterMap is an order-preserving selection of exactly the kept positions. */
  lemma {:induction false} FilterMapSelects<T, U>(s: seq<T>, f: T -> Option<U>) returns (idx: seq<nat>)
    ensures Selects(FilterMap(s, f), s, f, idx)
  {
    if s == [] {
      idx := [];
    } else {
      var tail := FilterMapSelects(s[1..], f);
      idx := SelectsCons(s, f, FilterMap(s[1..], f), tail);
    }
  }

  /** The positions of a selection from [x] + t, given those of the selection from t. */
  function ConsPositions(keep: bool, tail: seq<nat>): (idx: seq<nat>)
  {
    (if keep then [0] else []) + seq(|tail|, k requires 0 <= k < |tail| => tail[k] + 1)
  }

  /** Putting one element in front of a selection shifts its positions by one. */
  lemma SelectsCons<T, U>(s: seq<T>, f: T -> Option<U>, r: seq<U>, tail: seq<nat>) returns (idx: seq<nat>)
    requires s != [] && Selects(r, s[1..], f, tail)
    ensures Selects((if f(s[0]).Some? then [f(s[0]).value] else []) + r, s, f, idx)
  {
    idx := ConsPositions(f(s[0]).Some?, tail);
    ConsSound(s, f, r, tail);
    ConsOrdered(f(s[0]).Some?, tail);
    ConsComplete(s, f, r, tail);
  }

  lemma ConsSound<T, U>(s: seq<T>, f: T -> Option<U>, r: seq<U>, tail: seq<nat>)
    requires s != [] && Selects(r, s[1..], f, tail)
    ensures var idx, r' := ConsPositions(f(s[0]).Some?, tail), (if f(s[0]).Some? then [f(s[0]).value] else []) + r;
      |idx| == |r'| && forall k :: 0 <= k < |idx| ==> idx[k] < |s| && f(s[idx[k]]) == Some(r'[k])
  {
    var t := s[1..];
    var idx := ConsPositions(f(s[0]).Some?, tail);
    var front: seq<U> := if f(s[0]).Some? then [f(s[0]).value] else [];
    var h := |front|;
    forall k | 0 <= k < |idx|
      ensures idx[k] < |s| && f(s[idx[k]]) == Some((front + r)[k])
    {
      if k >= h {
        assert idx[k] == tail[k - h] + 1 && (front + r)[k] == r[k - h];
        assert s[idx[k]] == t[tail[k - h]];
      }
    }
  }

  lemma ConsOrdered(keep: bool, tail: seq<nat>)
    requires forall k, l :: 0 <= k < l < |tail| ==> tail[k] < tail[l]
    ensures var idx := ConsPositions(keep, tail);
      forall k, l :: 0 <= k < l < |idx| ==> idx[k] < idx[l]
  {
    var idx := ConsPositions(keep, tail);
    var h := if keep then 1 else 0;
    forall k, l | 0 <= k < l < |idx|
      ensures idx[k] < idx[l]
    {
      assert idx[l] == tail[l - h] + 1;
      if k >= h {
        assert idx[k] == tail[k - h] + 1;
      }
    }
  }

  lemma ConsComplete<T, U>(s: seq<T>, f: T -> Option<U>, r: seq<U>, tail: seq<nat>)
    requires s != [] && Selects(r, s[1..], f, tail)
    ensures var idx := ConsPositions(f(s[0]).Some?, tail);
      forall j :: 0 <= j < |s| && f(s[j]).Some? ==> j in idx
  {
    var t := s[1..];
    var idx := ConsPositions(f(s[0]).Some?, tail);
    var h := if f(s[0]).Some? then 1 else 0;
    forall j | 0 <= j < |s| && f(s[j]).Some?
      ensures j in idx
    {
      if j > 0 {
        assert t[j - 1] == s[j];
        var k :| 0 <= k < |tail| && tail[k] == j - 1;
        assert idx[h + k] == j;
      } else {
        assert idx[0] == 0;
      }
    }
  }

  /** Selecting from a concatenation selects from each part, in order. */
  lemma {:induction false} FilterMapAppend<T, U>(a: seq<T>, b: seq<T>, f: T -> Option<U>)
    ensures FilterMap(a + b, f) == FilterMap(a, f) + FilterMap(b, f)
  {
    if a == [] {
      assert a + b == b;
    } else {
      FilterMapAppend(a[1..], b, f);
      assert (a + b)[1..] == a[1..] + b;
    }
  }

  /** The values of s when no entry is missing, and None as soon as one is. */
  function AllPresent<T>(s: seq<Option<T>>): (r: Option<seq<T>>)
    ensures r.Some? <==> forall k :: 0 <= k < |s| ==> s[k].Some?
    ensures r.Some? ==> |r.value| == |s| && forall k :: 0 <= k < |s| ==> s[k] == Some(r.value[k])
  {
    if s == [] then Some([])
    else
      var rest := AllPresent(s[1..]);
      assert forall k :: 1 <= k < |s| ==> s[1..][k - 1] == s[k];
      if s[0].Some? && rest.Some? then Some([s[0].value] + rest.value) else None
  }
}
