/** Sequence helpers shared by the record store: an Option type, an
    order-preserving filter (the shape of a queryset `filter`), a first-match
    search (the shape of a `get` by key), reversal (how a listing ordered
    newest-first is read off a table kept in insertion order), and a pairwise
    relation over a sequence (how the tables' orderings are stated). */
module Seqs {

  datatype Option<+T> = None | Some(value: T)

  /** The elements of `s` that satisfy `keep`, in their original order. */
  function Filter<T(!new)>(s: seq<T>, keep: T -> bool): (r: seq<T>)
    ensures |r| <= |s|
    ensures forall x :: x in r <==> x in s && keep(x)
  {
    if s == [] then []
    else if keep(s[0]) then [s[0]] + Filter(s[1..], keep)
    else Filter(s[1..], keep)
  }

  /** Filtering a sequence extended by one element extends the filtered
      sequence by that element exactly when the element is kept. */
  lemma {:induction false} FilterSnoc<T(!new)>(s: seq<T>, x: T, keep: T -> bool)
    ensures Filter(s + [x], keep) == if keep(x) then Filter(s, keep) + [x] else Filter(s, keep)
  {
    if s == [] {
      assert [] + [x] == [x];
      assert [x][1..] == [];
    } else {
      assert (s + [x])[0] == s[0];
      assert (s + [x])[1..] == s[1..] + [x];
      FilterSnoc(s[1..], x, keep);
    }
  }

  /** Filtering twice, where the second predicate implies the first, is
      filtering once with the second. */
  lemma {:induction false} FilterFilter<T(!new)>(s: seq<T>, first: T -> bool, second: T -> bool)
    requires forall x :: x in s && second(x) ==> first(x)
    ensures Filter(Filter(s, first), second) == Filter(s, second)
  {
    if s != [] {
      assert forall x :: x in s[1..] ==> x in s;
      FilterFilter(s[1..], first, second);
    }
  }

  /** `before` holds of every pair of elements in the order they appear. */
  ghost predicate Pairwise<T(!new)>(s: seq<T>, before: (T, T) -> bool) {
    forall i, j :: 0 <= i < j < |s| ==> before(s[i], s[j])
  }

  /** Appending an element that comes after every element keeps the order. */
  lemma PairwiseSnoc<T(!new)>(s: seq<T>, x: T, before: (T, T) -> bool)
    requires Pairwise(s, before)
    requires forall y :: y in s ==> before(y, x)
    ensures Pairwise(s + [x], before)
  {
    var t := s + [x];
    forall i, j | 0 <= i < j < |t| ensures before(t[i], t[j]) {
      if j == |s| {
        assert t[i] == s[i] && s[i] in s;
      } else {
        assert t[i] == s[i] && t[j] == s[j];
      }
    }
  }

  /** Filtering keeps the relative order of the kept elements. */
  lemma {:induction false} FilterPairwise<T(!new)>(s: seq<T>, keep: T -> bool, before: (T, T) -> bool)
    requires Pairwise(s, before)
    ensures Pairwise(Filter(s, keep), before)
  {
    if s != [] {
      assert Pairwise(s[1..], before) by {
        forall i, j | 0 <= i < j < |s[1..]| ensures before(s[1..][i], s[1..][j]) {
          assert s[1..][i] == s[i + 1] && s[1..][j] == s[j + 1];
        }
      }
      FilterPairwise(s[1..], keep, before);
      var rest := Filter(s[1..], keep);
      if keep(s[0]) {
        var r := [s[0]] + rest;
        forall i, j | 0 <= i < j < |r| ensures before(r[i], r[j]) {
          if i == 0 {
            assert r[j] in s[1..];
            var k :| 0 <= k < |s[1..]| && s[1..][k] == r[j];
            assert s[k + 1] == r[j];
          } else {
            assert r[i] == rest[i - 1] && r[j] == rest[j - 1];
          }
        }
      }
    }
  }

  /** The elements of `s` from last to first. */
  function Reverse<T(!new)>(s: seq<T>): (r: seq<T>)
    ensures |r| == |s|
    ensures forall k :: 0 <= k < |s| ==> r[k] == s[|s| - 1 - k]
    ensures forall x :: x in r <==> x in s
  {
    if s == [] then [] else Reverse(s[1..]) + [s[0]]
  }

  /** Reversing appends at the front: the last element comes first. */
  lemma ReverseSnoc<T(!new)>(s: seq<T>, x: T)
    ensures Reverse(s + [x]) == [x] + Reverse(s)
  {
    var r, t := Reverse(s + [x]), [x] + Reverse(s);
    assert |r| == |t|;
    forall k | 0 <= k < |r| ensures r[k] == t[k] {
      if k > 0 {
        assert (s + [x])[|s| - k] == s[|s| - 1 - (k - 1)];
      }
    }
  }

  /** Reversal turns "each element before every later one" into
      "each element after every later one". */
  lemma ReversePairwise<T(!new)>(s: seq<T>, before: (T, T) -> bool)
    requires Pairwise(s, before)
    ensures forall i, j :: 0 <= i < j < |s| ==> before(Reverse(s)[j], Reverse(s)[i])
  {
    var r := Reverse(s);
    forall i, j | 0 <= i < j < |s| ensures before(r[j], r[i]) {
      assert r[j] == s[|s| - 1 - j] && r[i] == s[|s| - 1 - i];
    }
  }

  /** The first element of `s` that satisfies `matches`, if there is one. */
  function Find<T(!new)>(s: seq<T>, matches: T -> bool): (r: Option<T>)
    ensures r.Some? ==> r.value in s && matches(r.value)
    ensures r.None? <==> forall x :: x in s ==> !matches(x)
  {
    if s == [] then None
    else if matches(s[0]) then Some(s[0])
    else Find(s[1..], matches)
  }

  /** Filtering out only elements that do not match leaves the first match
      where it was. */
  lemma {:induction false} FindFilter<T(!new)>(s: seq<T>, keep: T -> bool, matches: T -> bool)
    requires forall x :: x in s && matches(x) ==> keep(x)
    ensures Find(Filter(s, keep), matches) == Find(s, matches)
  {
    if s != [] {
      assert forall x :: x in s[1..] ==> x in s;
      FindFilter(s[1..], keep, matches);
    }
  }

  /** When nothing in `s` matches, the first match in `s + [x]` is `x` (if
      it matches at all). */
  lemma {:induction false} FindSnoc<T(!new)>(s: seq<T>, x: T, matches: T -> bool)
    requires forall y :: y in s ==> !matches(y)
    requires matches(x)
    ensures Find(s + [x], matches) == Some(x)
  {
    if s == [] {
      assert [] + [x] == [x];
    } else {
      assert (s + [x])[0] == s[0] && (s + [x])[1..] == s[1..] + [x];
      assert forall y :: y in s[1..] ==> y in s;
      FindSnoc(s[1..], x, matches);
    }
  }
}
