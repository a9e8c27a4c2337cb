/** Generic operations on the store's collections. A collection is a sequence in creation
    (natural) order; the query shapes the handlers use -- findOne, find, countDocuments,
    sort by creation time descending, skip/limit -- are defined here once. */
module Seqs {
  import opened Base

  /** Position of the first element satisfying `p` (what findOne returns in natural order). */
  function FirstIndex<T>(s: seq<T>, p: T -> bool): (r: Option<nat>)
    ensures r.Some? ==> r.value < |s| && p(s[r.value])
    ensures r.Some? ==> forall j :: 0 <= j < r.value ==> !p(s[j])
    ensures r.None? <==> forall j :: 0 <= j < |s| ==> !p(s[j])
  {
    if |s| == 0 then None
    else if p(s[0]) then Some(0)
    else match FirstIndex(s[1..], p)
      case None => None
      case Some(i) => Some(i + 1)
  }

  /** The sequence without its `i`-th element (deleteOne of a found document). */
  function RemoveAt<T>(s: seq<T>, i: nat): (r: seq<T>)
    requires i < |s|
    ensures |r| == |s| - 1
    ensures forall j :: 0 <= j < i ==> r[j] == s[j]
    ensures forall j :: i <= j < |r| ==> r[j] == s[j + 1]
  {
    s[..i] + s[i + 1..]
  }

  /** The elements satisfying `p`, in their original order (find with a filter). */
  function Filter<T>(s: seq<T>, p: T -> bool): (r: seq<T>)
    ensures |r| <= |s|
    ensures forall i :: 0 <= i < |r| ==> r[i] in s && p(r[i])
    ensures forall j :: 0 <= j < |s| && p(s[j]) ==> s[j] in r
  {
    if |s| == 0 then []
    else Filter(s[..|s| - 1], p) + (if p(s[|s| - 1]) then [s[|s| - 1]] else [])
  }

  /** Number of elements satisfying `p` (countDocuments with a filter). */
  function Count<T>(s: seq<T>, p: T -> bool): (n: nat)
    ensures n <= |s|
    ensures n == 0 <==> forall j :: 0 <= j < |s| ==> !p(s[j])
  {
    var r := Filter(s, p);
    assert |r| > 0 ==> r[0] in s;
    |r|
  }

  /** Sum of a numeric field over a sequence ($group with $sum). */
  function Sum<T>(s: seq<T>, f: T -> nat): (n: nat)
    ensures (forall j :: 0 <= j < |s| ==> f(s[j]) == 0) ==> n == 0
  {
    if |s| == 0 then 0
    else Sum(s[..|s| - 1], f) + f(s[|s| - 1])
  }

  function Reverse<T>(s: seq<T>): (r: seq<T>)
    ensures |r| == |s|
    ensures multiset(r) == multiset(s)
    ensures forall i :: 0 <= i < |s| ==> r[i] == s[|s| - 1 - i]
  {
    if |s| == 0 then []
    else
      assert s == s[..|s| - 1] + [s[|s| - 1]];
      [s[|s| - 1]] + Reverse(s[..|s| - 1])
  }

  /** The elements satisfying `p`, newest first: find(filter).sort({createdAt: -1}) when the
      collection's natural order is its creation order. */
  function NewestFirst<T>(s: seq<T>, p: T -> bool): (r: seq<T>)
    ensures |r| == Count(s, p)
    ensures forall i :: 0 <= i < |r| ==> r[i] in s && p(r[i])
    ensures forall j :: 0 <= j < |s| && p(s[j]) ==> s[j] in r
    ensures Reverse(r) == Filter(s, p)
  {
    var f := Filter(s, p);
    assert forall x :: x in f ==> x in multiset(Reverse(f));
    ReverseReverse(f);
    Reverse(f)
  }

  /** A sequence read backwards element by element is its reverse. */
  lemma ReverseOf<T>(x: seq<T>, y: seq<T>)
    requires |x| == |y|
    requires forall i :: 0 <= i < |y| ==> y[i] == x[|x| - 1 - i]
    ensures Reverse(x) == y
  {
  }

  /** Reversing twice gives the sequence back. */
  lemma ReverseReverse<T>(s: seq<T>)
    ensures Reverse(Reverse(s)) == s
  {
    ReverseOf(Reverse(s), s);
  }

  /** skip(skip).limit(limit); a limit of 0 means "no limit", as in MongoDB. */
  function Window<T>(s: seq<T>, skip: nat, limit: nat): (r: seq<T>)
    ensures |r| == (if |s| <= skip then 0 else if limit == 0 then |s| - skip else Min(limit, |s| - skip))
    ensures forall i :: 0 <= i < |r| ==> skip + i < |s| && r[i] == s[skip + i]
  {
    if |s| <= skip then []
    else if limit == 0 then s[skip..]
    else s[skip..skip + Min(limit, |s| - skip)]
  }

  /** The record created last, if it matches, heads the newest-first listing; the listing
      of the older records follows unchanged. */
  lemma {:induction false} NewestFirstAppend<T>(s: seq<T>, x: T, p: T -> bool)
    ensures NewestFirst(s + [x], p) == (if p(x) then [x] else []) + NewestFirst(s, p)
  {
    assert (s + [x])[..|s|] == s;
    assert Filter(s + [x], p) == Filter(s, p) + (if p(x) then [x] else []);
    ReverseAppend(Filter(s, p), if p(x) then [x] else []);
  }

  lemma ReverseAppend<T>(a: seq<T>, b: seq<T>)
    requires |b| <= 1
    ensures Reverse(a + b) == Reverse(b) + Reverse(a)
  {
    if |b| == 1 {
      assert (a + b)[..|a|] == a;
      assert Reverse(b) == [b[0]];
    } else {
      assert a + b == a;
    }
  }

  /** Filtering distributes over concatenation. */
  lemma {:induction false} FilterConcat<T>(a: seq<T>, b: seq<T>, p: T -> bool)
    ensures Filter(a + b, p) == Filter(a, p) + Filter(b, p)
  {
    if |b| == 0 {
      assert a + b == a;
    } else {
      var n := |b| - 1;
      var tail := if p(b[n]) then [b[n]] else [];
      assert (a + b)[..|a + b| - 1] == a + b[..n];
      assert (a + b)[|a + b| - 1] == b[n];
      FilterConcat(a, b[..n], p);
      assert Filter(a + b, p) == Filter(a + b[..n], p) + tail;
      assert Filter(b, p) == Filter(b[..n], p) + tail;
    }
  }

  lemma FilterSingle<T>(x: T, p: T -> bool)
    ensures Filter([x], p) == if p(x) then [x] else []
  {
    assert [x][..0] == [];
  }

  lemma SplitAt<T>(s: seq<T>, i: nat)
    requires i < |s|
    ensures s == (s[..i] + [s[i]]) + s[i + 1..]
    ensures RemoveAt(s, i) == s[..i] + s[i + 1..]
  {
  }

  lemma SplitUpdate<T>(s: seq<T>, i: nat, x: T)
    requires i < |s|
    ensures s[i := x] == (s[..i] + [x]) + s[i + 1..]
  {
    var t := (s[..i] + [x]) + s[i + 1..];
    assert forall j :: 0 <= j < |s| ==> s[i := x][j] == t[j];
  }

  /** Filtering a sequence with one element replaced is filtering the parts either side. */
  lemma FilterUpdateSplit<T>(s: seq<T>, i: nat, x: T, p: T -> bool)
    requires i < |s|
    ensures Filter(s[i := x], p) == (Filter(s[..i], p) + (if p(x) then [x] else [])) + Filter(s[i + 1..], p)
  {
    SplitUpdate(s, i, x);
    FilterConcat(s[..i] + [x], s[i + 1..], p);
    FilterConcat(s[..i], [x], p);
    FilterSingle(x, p);
  }

  /** Summing distributes over concatenation. */
  lemma {:induction false} SumConcat<T>(a: seq<T>, b: seq<T>, f: T -> nat)
    ensures Sum(a + b, f) == Sum(a, f) + Sum(b, f)
  {
    if |b| == 0 {
      assert a + b == a;
    } else {
      var n := |b| - 1;
      assert (a + b)[..|a + b| - 1] == a + b[..n];
      assert (a + b)[|a + b| - 1] == b[n];
      SumConcat(a, b[..n], f);
    }
  }

  lemma SumSingle<T>(x: T, f: T -> nat)
    ensures Sum([x], f) == f(x)
  {
    assert [x][..0] == [];
  }

  /** Replacing an element by one with the same `p`-status and the same `f` changes neither
      the count of the elements satisfying `p` nor the sum of `f` over them. */
  lemma FilterUpdateSum<T>(s: seq<T>, i: nat, x: T, p: T -> bool, f: T -> nat)
    requires i < |s| && p(x) == p(s[i]) && f(x) == f(s[i])
    ensures |Filter(s[i := x], p)| == |Filter(s, p)|
    ensures Sum(Filter(s[i := x], p), f) == Sum(Filter(s, p), f)
  {
    var a, b := Filter(s[..i], p), Filter(s[i + 1..], p);
    var tx := if p(x) then [x] else [];
    var ts := if p(s[i]) then [s[i]] else [];
    FilterUpdateSplit(s, i, x, p);
    FilterUpdateSplit(s, i, s[i], p);
    UpdateSelf(s, i);
    assert Sum(tx, f) == Sum(ts, f) by {
      if p(x) {
        SumSingle(x, f);
        SumSingle(s[i], f);
      }
    }
    SumConcat(a + tx, b, f);
    SumConcat(a, tx, f);
    SumConcat(a + ts, b, f);
    SumConcat(a, ts, f);
  }

  /** Filtering a sequence with one element removed is filtering the parts either side. */
  lemma FilterRemoveAtSplit<T>(s: seq<T>, i: nat, p: T -> bool)
    requires i < |s|
    ensures Filter(RemoveAt(s, i), p) == Filter(s[..i], p) + Filter(s[i + 1..], p)
    ensures Filter(s, p) == Filter(s[..i], p) + (if p(s[i]) then [s[i]] else []) + Filter(s[i + 1..], p)
  {
    var a, b := s[..i], s[i + 1..];
    SplitAt(s, i);
    FilterConcat(a, b, p);
    FilterConcat(a + [s[i]], b, p);
    FilterConcat(a, [s[i]], p);
    FilterSingle(s[i], p);
  }

  /** Replacing the first match by another match keeps it the first match. */
  lemma FirstIndexUpdate<T>(s: seq<T>, i: nat, x: T, p: T -> bool)
    requires FirstIndex(s, p) == Some(i) && p(x)
    ensures FirstIndex(s[i := x], p) == Some(i)
  {
    var t := s[i := x];
    assert t[i] == x;
    assert forall j :: 0 <= j < i ==> t[j] == s[j];
    assert FirstIndex(t, p).Some?;
  }

  /** Writing back the element already at `i` changes nothing. */
  lemma UpdateSelf<T>(s: seq<T>, i: nat)
    requires i < |s|
    ensures s[i := s[i]] == s
  {
    assert forall j :: 0 <= j < |s| ==> s[i := s[i]][j] == s[j];
  }

  /** Writing back the element that was at `i` undoes a write at `i`. */
  lemma UpdateBack<T>(s: seq<T>, i: nat, x: T)
    requires i < |s|
    ensures s[i := x][i := s[i]] == s
  {
    assert forall j :: 0 <= j < |s| ==> s[i := x][i := s[i]][j] == s[j];
  }

  /** An appended match that nothing before it matches is the first match. */
  lemma FirstIndexAppendNew<T>(s: seq<T>, x: T, p: T -> bool)
    requires forall j :: 0 <= j < |s| ==> !p(s[j])
    requires p(x)
    ensures FirstIndex(s + [x], p) == Some(|s|)
  {
    var t := s + [x];
    assert t[|s|] == x;
    assert forall j :: 0 <= j < |s| ==> t[j] == s[j];
    assert FirstIndex(t, p).Some?;
  }

  /** Removing the element just appended gives the sequence back. */
  lemma RemoveAtAppended<T>(s: seq<T>, x: T)
    ensures RemoveAt(s + [x], |s|) == s
  {
    assert (s + [x])[..|s|] == s;
  }

  /** Removing one element lowers the count of the elements satisfying `p` by exactly one
      when it satisfies `p`, and leaves it unchanged otherwise. */
  lemma CountRemoveAt<T>(s: seq<T>, i: nat, p: T -> bool)
    requires i < |s|
    ensures Count(RemoveAt(s, i), p) + (if p(s[i]) then 1 else 0) == Count(s, p)
  {
    FilterRemoveAtSplit(s, i, p);
  }

  /** Removing an element that does not satisfy `p` leaves the filtered view untouched,
      order included. */
  lemma FilterRemoveAt<T>(s: seq<T>, i: nat, p: T -> bool)
    requires i < |s| && !p(s[i])
    ensures Filter(RemoveAt(s, i), p) == Filter(s, p)
  {
    FilterRemoveAtSplit(s, i, p);
    assert Filter(s[..i], p) + [] == Filter(s[..i], p);
  }

  /** Appending an element that does not satisfy `p` leaves the filtered view untouched. */
  lemma FilterAppendOther<T>(s: seq<T>, x: T, p: T -> bool)
    requires !p(x)
    ensures Filter(s + [x], p) == Filter(s, p)
  {
    assert (s + [x])[..|s|] == s;
  }

  /** A filter every element passes keeps the whole sequence. */
  lemma {:induction false} FilterAll<T>(s: seq<T>, p: T -> bool)
    requires forall j :: 0 <= j < |s| ==> p(s[j])
    ensures Filter(s, p) == s
  {
    if |s| > 0 {
      FilterAll(s[..|s| - 1], p);
    }
  }

  /** Removing an element and re-adding it at the end keeps the same elements. */
  lemma MultisetRemoveAppend<T>(s: seq<T>, i: nat)
    requires i < |s|
    ensures multiset(RemoveAt(s, i) + [s[i]]) == multiset(s)
  {
    assert s == s[..i] + [s[i]] + s[i + 1..];
  }
}
