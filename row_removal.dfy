/** What deleting a selection of rows means, independently of how the table
    view does it: the list with exactly the selected positions left out, the
    survivors in their original order. Also the ascending sort the view
    applies to the selected indices before removing them. */
module RowRemoval {

  // ---------------------------------------------------------------------
  // Removing a set of positions.

  /** The elements of `s` from position `i` on whose position is not in `gone`. */
  function Keep<T>(s: seq<T>, gone: set<int>, i: nat): seq<T>
    requires i <= |s|
    decreases |s| - i
  {
    if i == |s| then []
    else (if i in gone then [] else [s[i]]) + Keep(s, gone, i + 1)
  }

  /** `s` with the positions in `gone` removed, survivors in order. */
  function Without<T>(s: seq<T>, gone: set<int>): seq<T> {
    Keep(s, gone, 0)
  }

  /** Positions below `i` that are not removed come through unchanged. */
  lemma {:induction false} KeepPrefix<T>(s: seq<T>, gone: set<int>, i: nat)
    requires i <= |s|
    requires forall d :: d in gone ==> d >= i
    ensures Without(s, gone) == s[..i] + Keep(s, gone, i)
  {
    if i > 0 {
      KeepPrefix(s, gone, i - 1);
      assert Keep(s, gone, i - 1) == [s[i - 1]] + Keep(s, gone, i);
      assert s[..i - 1] + [s[i - 1]] == s[..i];
    }
  }

  /** Only the removed positions at or after `i` matter to `Keep(s, _, i)`. */
  lemma {:induction false} KeepLooksAhead<T>(s: seq<T>, gone: set<int>, gone': set<int>, i: nat)
    requires i <= |s|
    requires forall d :: i <= d < |s| ==> (d in gone <==> d in gone')
    ensures Keep(s, gone, i) == Keep(s, gone', i)
    decreases |s| - i
  {
    if i < |s| {
      KeepLooksAhead(s, gone, gone', i + 1);
    }
  }

  /** Removing nothing leaves the list as it was. */
  lemma {:induction false} WithoutNothing<T>(s: seq<T>)
    ensures Without(s, {}) == s
  {
    KeepPrefix(s, {}, |s|);
  }

  /** The removed positions in `[i, n)`. */
  function GoneBetween(gone: set<int>, i: int, n: int): set<int> {
    set d | d in gone && i <= d < n
  }

  /** Number of survivors from position `i` on. */
  lemma {:induction false} KeepLength<T>(s: seq<T>, gone: set<int>, i: nat)
    requires i <= |s|
    ensures |Keep(s, gone, i)| == |s| - i - |GoneBetween(gone, i, |s|)|
    decreases |s| - i
  {
    var here := GoneBetween(gone, i, |s|);
    if i == |s| {
      assert here == {};
    } else {
      KeepLength(s, gone, i + 1);
      var later := GoneBetween(gone, i + 1, |s|);
      if i in gone {
        assert here == later + {i};
      } else {
        assert here == later;
      }
    }
  }

  /** Removing a set of in-range positions shortens the list by its size. */
  lemma WithoutLength<T>(s: seq<T>, gone: set<int>)
    requires forall d :: d in gone ==> 0 <= d < |s|
    ensures |Without(s, gone)| == |s| - |gone|
  {
    KeepLength(s, gone, 0);
    assert GoneBetween(gone, 0, |s|) == gone;
  }

  /** One step of deletion from the back: if every position already removed
      lies above `k`, then removing the element now at `k` adds `k` to the
      removed positions. */
  lemma RemoveBelowRemoved<T>(s: seq<T>, gone: set<int>, k: nat)
    requires k < |s| && k !in gone
    requires forall d :: d in gone ==> d > k
    ensures var w := Without(s, gone);
      k < |w| && w[..k] + w[k + 1..] == Without(s, gone + {k})
  {
    var rest := Keep(s, gone, k + 1);
    KeepPrefix(s, gone, k);
    assert Keep(s, gone, k) == [s[k]] + rest;
    KeepPrefix(s, gone + {k}, k);
    KeepLooksAhead(s, gone, gone + {k}, k + 1);
    assert Keep(s, gone + {k}, k) == rest;
    CutOut(s[..k], s[k], rest);
  }

  /** Cutting the middle element out of `a + [x] + b`. */
  lemma CutOut<T>(a: seq<T>, x: T, b: seq<T>)
    ensures var w := a + ([x] + b);
      |a| < |w| && w[..|a|] + w[|a| + 1..] == a + b
  {
    var w := a + ([x] + b);
    assert w[..|a|] == a;
    assert w[|a| + 1..] == b;
  }

  // ---------------------------------------------------------------------
  // Index sequences and their ascending sort.

  predicate Distinct(s: seq<int>) {
    forall i, j :: 0 <= i < j < |s| ==> s[i] != s[j]
  }

  predicate StrictlyIncreasing(s: seq<int>) {
    forall i, j :: 0 <= i < j < |s| ==> s[i] < s[j]
  }

  function Elems(s: seq<int>): set<int> {
    set x | x in s
  }

  /** Insertion step of the sort: `x` placed before the first element it
      does not exceed. The elements are those of `s` plus `x`. */
  function Insert(x: int, s: seq<int>): (r: seq<int>)
    ensures |r| == |s| + 1 && Elems(r) == Elems(s) + {x}
    ensures multiset(r) == multiset(s) + multiset{x}
  {
    if s == [] then [x]
    else if x <= s[0] then
      assert Elems([x] + s) == {x} + Elems(s);
      [x] + s
    else
      assert s == [s[0]] + s[1..];
      assert Elems(s) == {s[0]} + Elems(s[1..]);
      var rest := Insert(x, s[1..]);
      assert Elems([s[0]] + rest) == {s[0]} + Elems(rest);
      [s[0]] + rest
  }

  /** Non-decreasing order, as `Arrays.sort` leaves any array. */
  predicate Sorted(s: seq<int>) {
    forall i, j :: 0 <= i < j < |s| ==> s[i] <= s[j]
  }

  /** Inserting into a non-decreasing sequence keeps it non-decreasing. */
  lemma {:induction false} InsertSorted(x: int, s: seq<int>)
    requires Sorted(s)
    ensures Sorted(Insert(x, s))
  {
    if s == [] {
    } else if x <= s[0] {
      SortedHead(s);
      ConsSorted(x, s);
    } else {
      assert Sorted(s[1..]);
      InsertSorted(x, s[1..]);
      SortedHead(s);
      assert Elems(s) == {s[0]} + Elems(s[1..]);
      ConsSorted(s[0], Insert(x, s[1..]));
    }
  }

  /** The first element of a non-decreasing sequence is its least. */
  lemma SortedHead(s: seq<int>)
    requires Sorted(s) && s != []
    ensures forall y :: y in Elems(s) ==> s[0] <= y
  {
    forall y | y in Elems(s)
      ensures s[0] <= y
    {
      var m :| 0 <= m < |s| && s[m] == y;
    }
  }

  /** A non-decreasing sequence stays so behind a head no larger than it. */
  lemma ConsSorted(h: int, t: seq<int>)
    requires Sorted(t)
    requires forall y :: y in Elems(t) ==> h <= y
    ensures Sorted([h] + t)
  {
    var r := [h] + t;
    forall i, j | 0 <= i < j < |r|
      ensures r[i] <= r[j]
    {
      assert r[j] == t[j - 1] && t[j - 1] in Elems(t);
      if i > 0 {
        assert r[i] == t[i - 1];
      }
    }
  }

  /** Inserting a new element into an ascending sequence keeps it ascending. */
  lemma {:induction false} InsertAscending(x: int, s: seq<int>)
    requires StrictlyIncreasing(s) && x !in s
    ensures StrictlyIncreasing(Insert(x, s))
  {
    if s == [] {
    } else if x <= s[0] {
      HeadBelowTail(s);
      assert Elems(s) == {s[0]} + Elems(s[1..]);
      ConsAscending(x, s);
    } else {
      assert StrictlyIncreasing(s[1..]);
      InsertAscending(x, s[1..]);
      HeadBelowTail(s);
      ConsAscending(s[0], Insert(x, s[1..]));
    }
  }

  /** An ascending sequence stays ascending behind a smaller head. */
  lemma ConsAscending(h: int, t: seq<int>)
    requires StrictlyIncreasing(t)
    requires forall y :: y in Elems(t) ==> h < y
    ensures StrictlyIncreasing([h] + t)
  {
    var r := [h] + t;
    forall i, j | 0 <= i < j < |r|
      ensures r[i] < r[j]
    {
      assert r[j] == t[j - 1] && t[j - 1] in Elems(t);
      if i > 0 {
        assert r[i] == t[i - 1];
      }
    }
  }

  /** The first element of an ascending sequence is below all the others. */
  lemma HeadBelowTail(s: seq<int>)
    requires StrictlyIncreasing(s) && s != []
    ensures forall y :: y in Elems(s[1..]) ==> s[0] < y
  {
    forall y | y in Elems(s[1..])
      ensures s[0] < y
    {
      var m :| 0 <= m < |s| - 1 && s[1..][m] == y;
      assert s[m + 1] == y;
    }
  }

  /** `Arrays.sort` on the selected indices: for distinct indices, the same
      elements in strictly ascending order. */
  function Sort(s: seq<int>): (r: seq<int>)
    ensures |r| == |s| && Elems(r) == Elems(s)
    ensures multiset(r) == multiset(s) && Sorted(r)
    ensures Distinct(s) ==> StrictlyIncreasing(r)
  {
    if s == [] then []
    else
      assert s == [s[0]] + s[1..];
      assert Elems(s) == {s[0]} + Elems(s[1..]);
      var sorted := Sort(s[1..]);
      InsertSorted(s[0], sorted);
      if Distinct(s) then
        assert s[0] !in Elems(s[1..]);
        InsertAscending(s[0], sorted);
        Insert(s[0], sorted)
      else
        Insert(s[0], sorted)
  }

  lemma NoElemsOnlyWhenEmpty(s: seq<int>)
    ensures Elems(s) == {} <==> s == []
  {
    if s != [] {
      assert s[0] in Elems(s);
    }
  }

  /** An ascending sequence is determined by its elements. */
  lemma {:induction false} AscendingUnique(a: seq<int>, b: seq<int>)
    requires StrictlyIncreasing(a) && StrictlyIncreasing(b)
    requires Elems(a) == Elems(b)
    ensures a == b
  {
    if a != [] && b != [] {
      assert a[0] in Elems(b) && b[0] in Elems(a);
      assert a[0] == b[0];
      assert Elems(a[1..]) == Elems(a) - {a[0]};
      assert Elems(b[1..]) == Elems(b) - {b[0]};
      AscendingUnique(a[1..], b[1..]);
      assert a == [a[0]] + a[1..];
      assert b == [b[0]] + b[1..];
    } else {
      NoElemsOnlyWhenEmpty(a);
      NoElemsOnlyWhenEmpty(b);
    }
  }

  /** The order in which rows were selected does not change the sorted
      indices, hence not the removal either. */
  lemma SortIgnoresSelectionOrder(a: seq<int>, b: seq<int>)
    requires Distinct(a) && Distinct(b) && Elems(a) == Elems(b)
    ensures Sort(a) == Sort(b)
  {
    AscendingUnique(Sort(a), Sort(b));
  }

  /** In an ascending sequence of positions below `n`, the `j`-th leaves
      room above it for the ones after it. */
  lemma {:induction false} AscendingRoom(s: seq<int>, n: int, j: nat)
    requires StrictlyIncreasing(s) && j < |s|
    requires forall x :: x in s ==> x < n
    ensures s[j] <= n - |s| + j
    decreases |s| - j
  {
    if j + 1 < |s| {
      AscendingRoom(s, n, j + 1);
    } else {
      assert s[j] in s;
    }
  }

  /** One turn of the deletion loop, which walks ascending positions from the
      last: once the positions after `i` are gone, the position at `i` is
      still in range, and removing it leaves the positions from `i` on gone. */
  lemma DeleteFromBack<T>(original: seq<T>, sorted: seq<int>, i: nat)
    requires StrictlyIncreasing(sorted) && i < |sorted|
    requires forall x :: x in sorted ==> 0 <= x < |original|
    ensures var w := Without(original, Elems(sorted[i + 1..]));
      |w| == |original| - (|sorted| - 1 - i) &&
      0 <= sorted[i] < |w| &&
      w[..sorted[i]] + w[sorted[i] + 1..] == Without(original, Elems(sorted[i..]))
  {
    var later := Elems(sorted[i + 1..]);
    var k := sorted[i];
    assert k in sorted;
    assert Elems(sorted[i..]) == later + {k};
    assert forall d :: d in later ==> d > k && d < |original| by {
      forall d | d in later
        ensures d > k && d < |original|
      {
        var m :| 0 <= m < |sorted| - i - 1 && sorted[i + 1..][m] == d;
        assert sorted[i + 1 + m] == d && d in sorted;
      }
    }
    assert |later| == |sorted| - 1 - i by {
      DistinctElemsCount(sorted[i + 1..]);
    }
    WithoutLength(original, later);
    AscendingRoom(sorted, |original|, i);
    RemoveBelowRemoved(original, later, k);
  }

  /** A sequence without repeats has as many elements as positions. */
  lemma {:induction false} DistinctElemsCount(s: seq<int>)
    requires StrictlyIncreasing(s)
    ensures |Elems(s)| == |s|
  {
    if s != [] {
      DistinctElemsCount(s[1..]);
      HeadBelowTail(s);
      assert Elems(s) == {s[0]} + Elems(s[1..]);
      assert s[0] !in Elems(s[1..]);
    }
  }

  /** What the deletion loop needs of the sorted selection. */
  lemma SortedSelection(selected: seq<int>, n: int)
    requires Distinct(selected)
    requires forall k :: k in selected ==> 0 <= k < n
    ensures var sorted := Sort(selected);
      StrictlyIncreasing(sorted) && |sorted| == |selected| &&
      Elems(sorted) == Elems(selected) &&
      (forall x :: x in sorted ==> 0 <= x < n)
  {
    var sorted := Sort(selected);
    forall x | x in sorted
      ensures 0 <= x < n
    {
      assert x in Elems(sorted);
    }
  }

  /** Before the deletion loop nothing is removed. */
  lemma DeletionBounds<T>(original: seq<T>, sorted: seq<int>)
    requires StrictlyIncreasing(sorted)
    requires forall x :: x in sorted ==> 0 <= x < |original|
    ensures Without(original, Elems(sorted[|sorted|..])) == original
  {
    assert Elems(sorted[|sorted|..]) == {};
    WithoutNothing(original);
  }

  /** Deleting a selection of distinct in-range positions shortens the list
      by the number selected. */
  lemma SelectionLength<T>(original: seq<T>, selected: seq<int>)
    requires Distinct(selected)
    requires forall k :: k in selected ==> 0 <= k < |original|
    ensures |Without(original, Elems(selected))| == |original| - |selected|
  {
    SortedSelection(selected, |original|);
    DistinctElemsCount(Sort(selected));
    WithoutLength(original, Elems(selected));
  }

  /** The three-row scenario: removing positions 0 and 2 keeps only the middle row. */
  lemma WithoutFirstAndLast<T>(a: T, b: T, c: T)
    ensures Without([a, b, c], {0, 2}) == [b]
  {
    var s, gone := [a, b, c], {0, 2};
    assert Keep(s, gone, 2) == [];
    assert Keep(s, gone, 1) == [b];
  }
}
