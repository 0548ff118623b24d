/**
 * src/utils/response_transformer.py, the ordering inside one file:
 * `sorted(results, key=lambda x: x.get("start_line", 0))`. Python's sort is
 * stable, so hits with equal keys keep their arrival order.
 */
module StartLineSort {
  import opened Wrappers
  import opened ResultPaths
  import opened Strings

  /** The sort key: the start line, or 0 when the info has none. */
  function SortKey(info: Info): int {
    info.startLine.GetOr(0)
  }

  predicate Sorted(s: seq<Info>) {
    forall i, j :: 0 <= i < j < |s| ==> SortKey(s[i]) <= SortKey(s[j])
  }

  /** Places `x` after every element whose key is at most its own. */
  function Insert(s: seq<Info>, x: Info): (r: seq<Info>)
    ensures multiset(r) == multiset(s) + multiset{x}
    decreases |s|
  {
    if s == [] || SortKey(s[|s| - 1]) <= SortKey(x) then s + [x]
    else
      assert s == s[..|s| - 1] + [s[|s| - 1]];
      Insert(s[..|s| - 1], x) + [s[|s| - 1]]
  }

  /** `sorted(infos, key=SortKey)`: each hit inserted in arrival order. */
  function SortByStart(infos: seq<Info>): (r: seq<Info>)
    ensures multiset(r) == multiset(infos)
    decreases |infos|
  {
    if infos == [] then []
    else
      assert infos == infos[..|infos| - 1] + [infos[|infos| - 1]];
      Insert(SortByStart(infos[..|infos| - 1]), infos[|infos| - 1])
  }

  /** The elements whose key is `k`, in order. */
  function WithKey(s: seq<Info>, k: int): seq<Info>
    decreases |s|
  {
    if s == [] then []
    else WithKey(s[..|s| - 1], k) + (if SortKey(s[|s| - 1]) == k then [s[|s| - 1]] else [])
  }

  lemma {:induction false} InsertKeepsSorted(s: seq<Info>, x: Info)
    requires Sorted(s)
    ensures Sorted(Insert(s, x))
    decreases |s|
  {
    if s == [] || SortKey(s[|s| - 1]) <= SortKey(x) {
      forall y | y in s ensures SortKey(y) <= SortKey(x) {
        var i :| 0 <= i < |s| && s[i] == y;
      }
      SnocSorted(s, x);
    } else {
      var init := s[..|s| - 1];
      InsertKeepsSorted(init, x);
      InsertBelowLast(s, x);
      SnocSorted(Insert(init, x), s[|s| - 1]);
    }
  }

  /** Appending an element whose key bounds every key keeps a sorted list sorted. */
  lemma SnocSorted(r: seq<Info>, z: Info)
    requires Sorted(r) && forall y :: y in r ==> SortKey(y) <= SortKey(z)
    ensures Sorted(r + [z])
  {
    var r' := r + [z];
    forall i, j | 0 <= i < j < |r'| ensures SortKey(r'[i]) <= SortKey(r'[j]) {
      if j == |r| {
        assert r'[i] == r[i] && r[i] in r;
      } else {
        assert r'[i] == r[i] && r'[j] == r[j];
      }
    }
  }

  /** When `x` goes before the last element, everything inserted into the rest stays at most that element's key. */
  lemma InsertBelowLast(s: seq<Info>, x: Info)
    requires Sorted(s) && s != [] && SortKey(s[|s| - 1]) > SortKey(x)
    ensures forall y :: y in Insert(s[..|s| - 1], x) ==> SortKey(y) <= SortKey(s[|s| - 1])
  {
    var init := s[..|s| - 1];
    var r' := Insert(init, x);
    forall y | y in r' ensures SortKey(y) <= SortKey(s[|s| - 1]) {
      assert y in multiset(r');
      if y != x {
        assert y in multiset(init);
        var i :| 0 <= i < |init| && init[i] == y;
        assert s[i] == y;
      }
    }
  }

  lemma {:induction false} InsertWithKey(s: seq<Info>, x: Info, k: int)
    ensures WithKey(Insert(s, x), k) == WithKey(s, k) + (if SortKey(x) == k then [x] else [])
    decreases |s|
  {
    if s == [] || SortKey(s[|s| - 1]) <= SortKey(x) {
      SnocParts(s, x);
    } else {
      var init := s[..|s| - 1];
      var last := s[|s| - 1];
      InsertWithKey(init, x, k);
      var r' := Insert(init, x);
      SnocParts(r', last);
      var xs := if SortKey(x) == k then [x] else [];
      var ls := if SortKey(last) == k then [last] else [];
      assert WithKey(Insert(s, x), k) == WithKey(init, k) + xs + ls;
      assert WithKey(s, k) == WithKey(init, k) + ls;
      if SortKey(last) == k {
        AppendEmpty(WithKey(init, k));
        AppendEmpty(WithKey(init, k) + ls);
      } else {
        AppendEmpty(WithKey(init, k) + xs);
        AppendEmpty(WithKey(init, k));
      }
    }
  }

  /** The result is ordered by start line (a missing start line counting as 0). */
  lemma {:induction false} SortIsSorted(infos: seq<Info>)
    ensures Sorted(SortByStart(infos))
    decreases |infos|
  {
    if infos != [] {
      SortIsSorted(infos[..|infos| - 1]);
      InsertKeepsSorted(SortByStart(infos[..|infos| - 1]), infos[|infos| - 1]);
    }
  }

  /** The sort is stable: the hits sharing a key keep their arrival order. */
  lemma {:induction false} SortIsStable(infos: seq<Info>, k: int)
    ensures WithKey(SortByStart(infos), k) == WithKey(infos, k)
    decreases |infos|
  {
    if infos != [] {
      var init := infos[..|infos| - 1];
      SortIsStable(init, k);
      InsertWithKey(SortByStart(init), infos[|infos| - 1], k);
    }
  }
}
