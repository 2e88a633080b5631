/** Sequence searches, filters and sums shared by the models. The searches and
    filters take named predicates so that two mentions of one search are equal. */
module Collections {

  datatype Option<+T> = None | Some(value: T)

  /** Index of the first element satisfying `p`: Rust's `iter().position(p)`. */
  function IndexWhere<T>(s: seq<T>, p: T -> bool): (r: Option<nat>)
    ensures r.Some? ==> r.value < |s| && p(s[r.value]) && forall k :: 0 <= k < r.value ==> !p(s[k])
    ensures r.None? ==> forall k :: 0 <= k < |s| ==> !p(s[k])
  {
    if |s| == 0 then None
    else
      var r := IndexWhere(s[..|s| - 1], p);
      if r.Some? then r
      else if p(s[|s| - 1]) then Some(|s| - 1)
      else None
  }

  lemma IndexWhereIs<T>(s: seq<T>, p: T -> bool, i: nat)
    requires i < |s| && p(s[i])
    requires forall k :: 0 <= k < i ==> !p(s[k])
    ensures IndexWhere(s, p) == Some(i)
  {
  }

  /** The linear search as the loop the iterator adaptor runs. */
  method Position<T>(s: seq<T>, p: T -> bool) returns (r: Option<nat>)
    ensures r == IndexWhere(s, p)
  {
    var i := 0;
    while i < |s|
      invariant 0 <= i <= |s|
      invariant forall k :: 0 <= k < i ==> !p(s[k])
    {
      if p(s[i]) {
        IndexWhereIs(s, p, i);
        return Some(i);
      }
      i := i + 1;
    }
    return None;
  }

  /** The elements satisfying `p`, in order: Rust's `retain(p)`. */
  function Keep<T>(s: seq<T>, p: T -> bool): (r: seq<T>)
  {
    if |s| == 0 then []
    else
      Keep(s[..|s| - 1], p) + (if p(s[|s| - 1]) then [s[|s| - 1]] else [])
  }

  /** Where a kept element ends up. */
  lemma {:induction false} KeptIndex<T>(s: seq<T>, p: T -> bool, i: nat) returns (j: nat)
    requires i < |s| && p(s[i])
    ensures j < |Keep(s, p)| && Keep(s, p)[j] == s[i]
  {
    var n := |s| - 1;
    if i == n {
      j := |Keep(s[..n], p)|;
    } else {
      j := KeptIndex(s[..n], p, i);
    }
  }

  /** Where a kept element came from. */
  lemma {:induction false} KeptSource<T>(s: seq<T>, p: T -> bool, j: nat) returns (i: nat)
    requires j < |Keep(s, p)|
    ensures i < |s| && p(s[i]) && Keep(s, p)[j] == s[i]
  {
    var n := |s| - 1;
    if j == |Keep(s[..n], p)| {
      i := n;
    } else {
      i := KeptSource(s[..n], p, j);
    }
  }

  /** `Keep` as the in-order pass over the vector. */
  method Filter<T>(s: seq<T>, p: T -> bool) returns (r: seq<T>)
    ensures r == Keep(s, p)
  {
    r := [];
    var i := 0;
    while i < |s|
      invariant 0 <= i <= |s|
      invariant r == Keep(s[..i], p)
    {
      assert s[..i + 1][..i] == s[..i];
      if p(s[i]) {
        r := r + [s[i]];
      }
      i := i + 1;
    }
    assert s[..i] == s;
  }

  /** Positions in `s` of the elements `Keep` retains. */
  ghost function KeptAt<T>(s: seq<T>, p: T -> bool): (at: seq<nat>)
    ensures |at| == |Keep(s, p)|
    ensures forall i :: 0 <= i < |at| ==> at[i] < |s| && p(s[at[i]]) && Keep(s, p)[i] == s[at[i]]
    ensures forall i, j :: 0 <= i < j < |at| ==> at[i] < at[j]
  {
    if |s| == 0 then []
    else
      var n := |s| - 1;
      var at := KeptAt(s[..n], p);
      if p(s[n]) then at + [n] else at
  }

  lemma KeepAppend<T>(s: seq<T>, x: T, p: T -> bool)
    ensures Keep(s + [x], p) == Keep(s, p) + (if p(x) then [x] else [])
  {
    assert (s + [x])[..|s|] == s;
  }

  lemma {:induction false} KeepConcat<T>(s: seq<T>, t: seq<T>, p: T -> bool)
    ensures Keep(s + t, p) == Keep(s, p) + Keep(t, p)
  {
    if |t| == 0 {
      assert s + t == s;
    } else {
      var t' := t[..|t| - 1];
      KeepConcat(s, t', p);
      assert t == t' + [t[|t| - 1]];
      assert s + t == (s + t') + [t[|t| - 1]];
      KeepAppend(s + t', t[|t| - 1], p);
    }
  }

  lemma KeepSplit<T>(s: seq<T>, a: seq<T>, x: T, b: seq<T>, p: T -> bool)
    requires s == a + [x] + b
    ensures Keep(s, p) == Keep(a, p) + (if p(x) then [x] else []) + Keep(b, p)
  {
    KeepConcat(a + [x], b, p);
    KeepAppend(a, x, p);
  }

  lemma KeepAround<T>(s: seq<T>, i: nat, p: T -> bool)
    requires i < |s|
    ensures Keep(s, p) == Keep(s[..i], p) + (if p(s[i]) then [s[i]] else []) + Keep(s[i + 1..], p)
  {
    Rejoined(s, i);
    KeepSplit(s, s[..i], s[i], s[i + 1..], p);
  }

  lemma Rejoined<T>(s: seq<T>, i: nat)
    requires i < |s|
    ensures s == s[..i] + [s[i]] + s[i + 1..]
  {
  }

  lemma KeepUpdate<T>(s: seq<T>, i: nat, x: T, p: T -> bool)
    requires i < |s|
    ensures Keep(s[i := x], p) == Keep(s[..i], p) + (if p(x) then [x] else []) + Keep(s[i + 1..], p)
  {
    KeepSplit(s[i := x], s[..i], x, s[i + 1..], p);
  }

  lemma KeepRemove<T>(s: seq<T>, i: nat, p: T -> bool)
    requires i < |s|
    ensures Keep(RemoveAt(s, i), p) == Keep(s[..i], p) + Keep(s[i + 1..], p)
  {
    KeepConcat(s[..i], s[i + 1..], p);
  }

  lemma {:induction false} KeepNone<T>(s: seq<T>, p: T -> bool)
    requires forall k :: 0 <= k < |s| ==> !p(s[k])
    ensures Keep(s, p) == []
  {
    if |s| > 0 {
      KeepNone(s[..|s| - 1], p);
    }
  }

  /** Filtering twice, the second filter implying the first, is filtering once. */
  lemma KeepTwice<T>(s: seq<T>, p: T -> bool, q: T -> bool)
    requires forall k :: 0 <= k < |s| && q(s[k]) ==> p(s[k])
    ensures Keep(Keep(s, p), q) == Keep(s, q)
  {
    KeepBoth(s, p, q, q);
  }

  lemma {:induction false} KeepBoth<T>(s: seq<T>, p: T -> bool, q: T -> bool, r: T -> bool)
    requires forall k :: 0 <= k < |s| ==> r(s[k]) == (p(s[k]) && q(s[k]))
    ensures Keep(Keep(s, p), q) == Keep(s, r)
  {
    if |s| > 0 {
      var t, x := s[..|s| - 1], s[|s| - 1];
      KeepBoth(t, p, q, r);
      if p(x) {
        KeepAppend(Keep(t, p), x, q);
      } else {
        assert Keep(s, p) == Keep(t, p);
      }
    }
  }

  function SumBy<T>(s: seq<T>, f: T -> nat): (r: nat)
  {
    if |s| == 0 then 0 else SumBy(s[..|s| - 1], f) + f(s[|s| - 1])
  }

  /** The running total of a loop over the vector. */
  method Total<T>(s: seq<T>, f: T -> nat) returns (r: nat)
    ensures r == SumBy(s, f)
  {
    r := 0;
    var i := 0;
    while i < |s|
      invariant 0 <= i <= |s|
      invariant r == SumBy(s[..i], f)
    {
      assert s[..i + 1][..i] == s[..i];
      r := r + f(s[i]);
      i := i + 1;
    }
    assert s[..i] == s;
  }

  lemma SumByAppend<T>(s: seq<T>, x: T, f: T -> nat)
    ensures SumBy(s + [x], f) == SumBy(s, f) + f(x)
  {
    assert (s + [x])[..|s|] == s;
  }

  lemma {:induction false} SumByConcat<T>(s: seq<T>, t: seq<T>, f: T -> nat)
    ensures SumBy(s + t, f) == SumBy(s, f) + SumBy(t, f)
  {
    if |t| == 0 {
      assert s + t == s;
    } else {
      var n := |t| - 1;
      SumByConcat(s, t[..n], f);
      assert (s + t)[..|s + t| - 1] == s + t[..n];
    }
  }

  /** A positive sum has a positive term. */
  lemma {:induction false} SumByPositive<T>(s: seq<T>, f: T -> nat) returns (i: nat)
    requires SumBy(s, f) > 0
    ensures i < |s| && f(s[i]) > 0
  {
    var n := |s| - 1;
    if f(s[n]) > 0 {
      i := n;
    } else {
      i := SumByPositive(s[..n], f);
    }
  }

  lemma {:induction false} SumByUpdate<T>(s: seq<T>, i: nat, x: T, f: T -> nat)
    requires i < |s|
    ensures SumBy(s[i := x], f) + f(s[i]) == SumBy(s, f) + f(x)
  {
    var n := |s| - 1;
    if i == n {
      assert s[i := x][..n] == s[..n];
    } else {
      assert s[i := x][..n] == s[..n][i := x];
      SumByUpdate(s[..n], i, x, f);
    }
  }

  lemma {:induction false} SumByMember<T>(s: seq<T>, i: nat, f: T -> nat)
    requires i < |s|
    ensures f(s[i]) <= SumBy(s, f)
  {
    if i < |s| - 1 {
      SumByMember(s[..|s| - 1], i, f);
    }
  }

  function RemoveAt<T>(s: seq<T>, i: nat): (r: seq<T>)
    requires i < |s|
    ensures |r| == |s| - 1
    ensures forall k :: 0 <= k < |r| ==> r[k] == s[if k < i then k else k + 1]
  {
    s[..i] + s[i + 1..]
  }

  /** Taking one element out of the middle takes its weight out of the sum. */
  lemma {:induction false} SumByRemove<T>(s: seq<T>, i: nat, f: T -> nat)
    requires i < |s|
    ensures SumBy(RemoveAt(s, i), f) + f(s[i]) == SumBy(s, f)
  {
    var n := |s| - 1;
    if i == n {
      assert RemoveAt(s, i) == s[..n];
    } else {
      SumByRemove(s[..n], i, f);
      assert RemoveAt(s, i) == RemoveAt(s[..n], i) + [s[n]];
      SumByAppend(RemoveAt(s[..n], i), s[n], f);
    }
  }

  /** A filter and its complement share out the sum. */
  lemma {:induction false} SumByPartition<T>(s: seq<T>, p: T -> bool, q: T -> bool, f: T -> nat)
    requires forall k :: 0 <= k < |s| ==> p(s[k]) != q(s[k])
    ensures SumBy(Keep(s, p), f) + SumBy(Keep(s, q), f) == SumBy(s, f)
  {
    if |s| > 0 {
      var t, x := s[..|s| - 1], s[|s| - 1];
      SumByPartition(t, p, q, f);
      if p(x) {
        SumByAppend(Keep(t, p), x, f);
        assert Keep(s, q) == Keep(t, q);
      } else {
        SumByAppend(Keep(t, q), x, f);
        assert Keep(s, p) == Keep(t, p);
      }
    }
  }
}
