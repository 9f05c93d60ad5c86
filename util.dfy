/** Sequence helpers shared by the route models: the optional value a
    query may or may not produce, filtering a table in insertion order,
    reversing it (ORDER BY tid DESC) and keeping first occurrences. */
module Util {

  datatype Option<T> = None | Some(value: T)

  /** The elements of `s` that `keep` accepts, in their original order. */
  function Filter<T(!new)>(s: seq<T>, keep: T -> bool): (r: seq<T>)
    ensures |r| <= |s|
    ensures forall x :: x in r <==> x in s && keep(x)
  {
    if s == [] then []
    else
      var init := s[..|s| - 1];
      assert forall x :: x in s <==> x in init || x == s[|s| - 1] by {
        assert s == init + [s[|s| - 1]];
      }
      Filter(init, keep) + (if keep(s[|s| - 1]) then [s[|s| - 1]] else [])
  }

  function Reverse<T>(s: seq<T>): (r: seq<T>)
    ensures |r| == |s|
    ensures forall k :: 0 <= k < |s| ==> r[k] == s[|s| - 1 - k]
  {
    if s == [] then [] else [s[|s| - 1]] + Reverse(s[..|s| - 1])
  }

  lemma ReversePrepend<T>(x: T, s: seq<T>)
    ensures Reverse([x] + s) == Reverse(s) + [x]
  {
    var a, b := Reverse([x] + s), Reverse(s) + [x];
    assert |a| == |b|;
    forall k | 0 <= k < |a|
      ensures a[k] == b[k]
    {
      if k < |s| {
        assert ([x] + s)[|s| - k] == s[|s| - 1 - k];
      }
    }
  }

  /** The kept elements of an append-only log, most recently appended first:
      read backwards, the result is the kept part of the log in insertion order. */
  function NewestFirst<T(!new)>(log: seq<T>, keep: T -> bool): (r: seq<T>)
    ensures forall x :: x in r <==> x in log && keep(x)
    ensures Reverse(r) == Filter(log, keep)
  {
    if log == [] then []
    else
      var init := log[..|log| - 1];
      var last := log[|log| - 1];
      var rest := NewestFirst(init, keep);
      assert forall x :: x in log <==> x in init || x == last by {
        assert log == init + [last];
      }
      if keep(last) then
        ReversePrepend(last, rest);
        [last] + rest
      else rest
  }

  /** Filtering by a stricter test after a looser one is filtering by the
      stricter one alone, in either order of presentation. */
  lemma {:induction false} FilterOfFilter<T(!new)>(s: seq<T>, loose: T -> bool, strict: T -> bool)
    requires forall x :: strict(x) ==> loose(x)
    ensures Filter(Filter(s, loose), strict) == Filter(s, strict)
    ensures NewestFirst(Filter(s, loose), strict) == NewestFirst(s, strict)
  {
    if s != [] {
      var init, last := s[..|s| - 1], s[|s| - 1];
      FilterOfFilter(init, loose, strict);
      var f := Filter(init, loose);
      if loose(last) {
        assert Filter(s, loose) == f + [last];
        assert (f + [last])[..|f|] == f;
      } else {
        assert Filter(s, loose) == f + [];
        assert f + [] == f;
      }
    }
  }

  /** No element occurs twice. */
  predicate NoDup<T(==)>(s: seq<T>)
  {
    forall i, j :: 0 <= i < j < |s| ==> s[i] != s[j]
  }

  /** A sequence without repetitions stays so without its last element,
      and that element does not occur before it. */
  lemma NoDupInit<T>(s: seq<T>)
    requires s != [] && NoDup(s)
    ensures NoDup(s[..|s| - 1]) && s[|s| - 1] !in s[..|s| - 1]
  {
  }

  /** The distinct elements of `s`, each at the place of its first occurrence. */
  function Distinct<T(==,!new)>(s: seq<T>): (r: seq<T>)
    ensures forall x :: x in r <==> x in s
    ensures NoDup(r)
  {
    if s == [] then []
    else
      var d := Distinct(s[..|s| - 1]);
      assert forall x :: x in s <==> x in s[..|s| - 1] || x == s[|s| - 1] by {
        assert s == s[..|s| - 1] + [s[|s| - 1]];
      }
      if s[|s| - 1] in d then d else d + [s[|s| - 1]]
  }
}
