/** The list library's insertion sort, and what it guarantees for a comparison that is a strict weak
    order: the result is sorted, and elements that compare equal keep their order. */
module StableSort {

  ghost predicate Strict<T(!new)>(gt: (T, T) -> bool) {
    && (forall x, y :: gt(x, y) ==> !gt(y, x))
    && (forall x, y, z :: gt(x, z) ==> gt(x, y) || gt(y, z))
  }

  predicate Ordered<T>(gt: (T, T) -> bool, s: seq<T>) {
    forall i, j :: 0 <= i < j < |s| ==> !gt(s[i], s[j])
  }

  /** Puts `k` after the last element that is not greater. */
  function Insert<T>(gt: (T, T) -> bool, s: seq<T>, k: T): (r: seq<T>)
    ensures |r| == |s| + 1
  {
    if s == [] then [k]
    else if !gt(s[|s| - 1], k) then s + [k]
    else Insert(gt, s[..|s| - 1], k) + [s[|s| - 1]]
  }

  function Sort<T>(gt: (T, T) -> bool, s: seq<T>): (r: seq<T>)
    ensures |r| == |s|
  {
    if s == [] then [] else Insert(gt, Sort(gt, s[..|s| - 1]), s[|s| - 1])
  }

  /** The elements of `s` that compare equal to `x`, in order. */
  function Peers<T>(gt: (T, T) -> bool, s: seq<T>, x: T): seq<T> {
    if s == [] then []
    else
      var rest := Peers(gt, s[..|s| - 1], x);
      var y := s[|s| - 1];
      if gt(x, y) || gt(y, x) then rest else rest + [y]
  }

  function Without<T(==)>(s: seq<T>, x: T): (r: seq<T>) {
    if s == [] then []
    else if s[|s| - 1] == x then Without(s[..|s| - 1], x)
    else Without(s[..|s| - 1], x) + [s[|s| - 1]]
  }

  // ---------------------------------------------------------------- sorted

  lemma {:induction false} InsertMembers<T>(gt: (T, T) -> bool, s: seq<T>, k: T)
    ensures multiset(Insert(gt, s, k)) == multiset(s) + multiset{k}
    decreases |s|
  {
    if s != [] {
      assert s == s[..|s| - 1] + [s[|s| - 1]];
      InsertMembers(gt, s[..|s| - 1], k);
    }
  }

  lemma {:induction false} SortMembers<T>(gt: (T, T) -> bool, s: seq<T>)
    ensures multiset(Sort(gt, s)) == multiset(s)
    decreases |s|
  {
    if s != [] {
      assert s == s[..|s| - 1] + [s[|s| - 1]];
      SortMembers(gt, s[..|s| - 1]);
      InsertMembers(gt, Sort(gt, s[..|s| - 1]), s[|s| - 1]);
    }
  }

  lemma OrderedSnoc<T>(gt: (T, T) -> bool, s: seq<T>, k: T)
    requires Ordered(gt, s) && forall i :: 0 <= i < |s| ==> !gt(s[i], k)
    ensures Ordered(gt, s + [k])
  {
  }

  lemma InMultiset<T>(s: seq<T>, t: seq<T>, k: T, i: nat)
    requires multiset(s) == multiset(t) + multiset{k} && i < |s|
    ensures s[i] == k || s[i] in t
  {
    assert s[i] in multiset(s);
  }

  lemma {:induction false} InsertOrders<T(!new)>(gt: (T, T) -> bool, s: seq<T>, k: T)
    requires Strict(gt) && Ordered(gt, s)
    ensures Ordered(gt, Insert(gt, s, k))
    decreases |s|
  {
    if s != [] {
      var last, front := s[|s| - 1], s[..|s| - 1];
      if !gt(last, k) {
        OrderedSnoc(gt, s, k);
      } else {
        InsertOrders(gt, front, k);
        InsertMembers(gt, front, k);
        var r := Insert(gt, front, k);
        forall i | 0 <= i < |r| ensures !gt(r[i], last) {
          InMultiset(r, front, k, i);
        }
        OrderedSnoc(gt, r, last);
      }
    }
  }

  lemma {:induction false} SortOrders<T(!new)>(gt: (T, T) -> bool, s: seq<T>)
    requires Strict(gt)
    ensures Ordered(gt, Sort(gt, s))
    decreases |s|
  {
    if s != [] {
      SortOrders(gt, s[..|s| - 1]);
      InsertOrders(gt, Sort(gt, s[..|s| - 1]), s[|s| - 1]);
    }
  }

  lemma {:induction false} SortOfOrdered<T>(gt: (T, T) -> bool, s: seq<T>)
    requires Ordered(gt, s)
    ensures Sort(gt, s) == s
    decreases |s|
  {
    hide Insert;
    if s != [] {
      var front := s[..|s| - 1];
      SortOfOrdered(gt, front);
      InsertHere(gt, front, s[|s| - 1]);
    }
  }

  lemma SortTwice<T(!new)>(gt: (T, T) -> bool, s: seq<T>)
    requires Strict(gt)
    ensures Sort(gt, Sort(gt, s)) == Sort(gt, s)
  {
    SortOrders(gt, s);
    SortOfOrdered(gt, Sort(gt, s));
  }

  // ---------------------------------------------------------------- stable

  lemma PeersSnoc<T>(gt: (T, T) -> bool, s: seq<T>, k: T, x: T)
    ensures Peers(gt, s + [k], x) == Peers(gt, s, x) + (if gt(x, k) || gt(k, x) then [] else [k])
  {
    assert (s + [k])[..|s|] == s;
  }

  lemma {:induction false} InsertKeepsPeers<T(!new)>(gt: (T, T) -> bool, s: seq<T>, k: T, x: T)
    requires Strict(gt)
    ensures Peers(gt, Insert(gt, s, k), x) == Peers(gt, s + [k], x)
    decreases |s|
  {
    PeersSnoc(gt, s, k, x);
    if s == [] {
      assert [] + [k] == [k];
    } else {
      var last, front := s[|s| - 1], s[..|s| - 1];
      if gt(last, k) {
        InsertKeepsPeers(gt, front, k, x);
        PeersSnoc(gt, Insert(gt, front, k), last, x);
        PeersSnoc(gt, front, k, x);
      }
    }
  }

  /** Stability: whoever compares equal to `x` is there in the same order, and nobody else. */
  lemma {:induction false} SortIsStable<T(!new)>(gt: (T, T) -> bool, s: seq<T>, x: T)
    requires Strict(gt)
    ensures Peers(gt, Sort(gt, s), x) == Peers(gt, s, x)
    decreases |s|
  {
    if s != [] {
      var last, front := s[|s| - 1], s[..|s| - 1];
      SortIsStable(gt, front, x);
      InsertKeepsPeers(gt, Sort(gt, front), last, x);
      PeersSnoc(gt, Sort(gt, front), last, x);
    }
  }

  // ---------------------------------------------------------------- leaving one element out

  lemma WithoutSnoc<T>(s: seq<T>, k: T, x: T)
    ensures Without(s + [k], x) == Without(s, x) + (if k == x then [] else [k])
  {
    assert (s + [k])[..|s|] == s;
  }

  lemma {:induction false} WithoutMembers<T>(s: seq<T>, x: T)
    ensures forall y :: y in Without(s, x) ==> y in s && y != x
    ensures multiset(Without(s, x)) == multiset(s)[x := 0]
    decreases |s|
  {
    if s != [] {
      WithoutMembers(s[..|s| - 1], x);
      assert s == s[..|s| - 1] + [s[|s| - 1]];
    }
  }

  lemma {:induction false} WithoutInsert<T(!new)>(gt: (T, T) -> bool, s: seq<T>, k: T, x: T)
    requires Strict(gt) && Ordered(gt, s)
    ensures Without(Insert(gt, s, k), x) == if k == x then Without(s, x) else Insert(gt, Without(s, x), k)
    decreases |s|
  {
    if s == [] {
      WithoutSnoc([], k, x);
    } else {
      var last, front := s[|s| - 1], s[..|s| - 1];
      if !gt(last, k) {
        WithoutSnoc(s, k, x);
        if k != x {
          WithoutMembers(s, x);
          forall y | y in Without(s, x) ensures !gt(y, k) {
            var i :| 0 <= i < |s| && s[i] == y;
            assert i < |s| - 1 ==> !gt(s[i], last);
          }
          InsertHere(gt, Without(s, x), k);
        }
      } else {
        WithoutInsert(gt, front, k, x);
        WithoutSnoc(Insert(gt, front, k), last, x);
        if k != x && last != x {
          var w := Without(front, x);
          assert (w + [last])[..|w|] == w;
        }
      }
    }
  }

  /** Sorting and leaving an element out can be done in either order. */
  lemma {:induction false} WithoutSort<T(!new)>(gt: (T, T) -> bool, s: seq<T>, x: T)
    requires Strict(gt)
    ensures Without(Sort(gt, s), x) == Sort(gt, Without(s, x))
    decreases |s|
  {
    if s != [] {
      var last, front := s[|s| - 1], s[..|s| - 1];
      WithoutSort(gt, front, x);
      SortOrders(gt, front);
      WithoutInsert(gt, Sort(gt, front), last, x);
      if last != x {
        var w := Without(front, x);
        assert (w + [last])[..|w|] == w;
      }
    }
  }

  // ---------------------------------------------------------------- where one element goes

  ghost predicate SplitsAt<T>(gt: (T, T) -> bool, s: seq<T>, k: T, n: nat) {
    && n <= |s|
    && (forall i :: 0 <= i < n ==> !gt(s[i], k))
    && (forall i :: n <= i < |s| ==> gt(s[i], k))
  }

  lemma {:induction false} InsertSplits<T(!new)>(gt: (T, T) -> bool, s: seq<T>, k: T) returns (n: nat)
    requires Strict(gt) && Ordered(gt, s)
    ensures SplitsAt(gt, s, k, n) && Insert(gt, s, k) == s[..n] + [k] + s[n..]
    decreases |s|
  {
    if s == [] {
      n := 0;
    } else {
      var last, front := s[|s| - 1], s[..|s| - 1];
      if !gt(last, k) {
        n := |s|;
        assert s[..n] + [k] + s[n..] == s + [k];
      } else {
        n := InsertSplits(gt, front, k);
        assert front[..n] == s[..n] && front[n..] + [last] == s[n..];
        assert front[..n] + [k] + front[n..] + [last] == s[..n] + [k] + s[n..];
        forall i | n <= i < |s| ensures gt(s[i], k) {
          if i < |front| { assert gt(front[i], k); }
        }
      }
    }
  }

  // ---------------------------------------------------------------- the loops

  /** list_sort on the list's own array. */
  method ListSort<T>(a: array<T>, gt: (T, T) -> bool)
    modifies a
    ensures a[..] == Sort(gt, old(a[..]))
  {
    hide Sort, Insert, Half, Sunk;
    ghost var was := a[..];
    var i := 1;
    HalfStart(gt, was);
    while i < a.Length
      invariant 1 <= i && (i <= a.Length || a.Length == 0)
      invariant a[..] == Half(gt, was, i)
    {
      HalfStep(gt, was, i);
      SinkKey(a, i, gt);
      i := i + 1;
    }
    HalfStop(gt, was, i);
  }

  /** The list with its first `i` elements sorted. */
  ghost function Half<T>(gt: (T, T) -> bool, s: seq<T>, i: nat): (r: seq<T>)
    ensures |r| == |s|
  {
    if i <= |s| then Sort(gt, s[..i]) + s[i..] else s
  }

  /** The list with element `i` moved to its place among those before it. */
  ghost function Sunk<T>(gt: (T, T) -> bool, s: seq<T>, i: nat): seq<T>
    requires i < |s|
  {
    Insert(gt, s[..i], s[i]) + s[i + 1..]
  }

  lemma HalfStart<T>(gt: (T, T) -> bool, s: seq<T>)
    ensures Half(gt, s, 1) == s
  {
    if s != [] {
      assert s[..1] == [s[0]] && s[..1][..0] == [];
      assert s == s[..1] + s[1..];
    }
  }

  lemma HalfStep<T>(gt: (T, T) -> bool, s: seq<T>, i: nat)
    requires i < |s|
    ensures Sunk(gt, Half(gt, s, i), i) == Half(gt, s, i + 1)
  {
    var h := Half(gt, s, i);
    assert h[..i] == Sort(gt, s[..i]) && h[i] == s[i] && h[i + 1..] == s[i + 1..];
    assert s[..i + 1][..i] == s[..i];
  }

  lemma HalfStop<T>(gt: (T, T) -> bool, s: seq<T>, i: nat)
    requires 1 <= i && (i == |s| || |s| == 0)
    ensures Half(gt, s, i) == Sort(gt, s)
  {
    if s != [] {
      assert s[..i] == s && s[i..] == [];
    }
  }

  /** One call of the comparison. */
  predicate Above<T>(gt: (T, T) -> bool, x: T, y: T) {
    gt(x, y)
  }

  /** The inner loop: moves element `i` down to its place among those before it. */
  method SinkKey<T>(a: array<T>, i: nat, gt: (T, T) -> bool)
    requires i < a.Length
    modifies a
    ensures a[..] == Sunk(gt, old(a[..]), i)
  {
    hide Insert, Sinking, Sunk, Above;
    ghost var was := a[..];
    ghost var now := was;
    var key := a[i];
    var j := i - 1;
    SinkStart(gt, was, i);
    while j >= 0 && Above(gt, a[j], key)
      invariant -1 <= j < i && a[..] == now && |now| == |was| && Sinking(gt, now, was, i, j + 1)
    {
      SinkStep(gt, now, was, i, j + 1);
      a[j + 1] := a[j];
      now := now[j + 1 := now[j]];
      j := j - 1;
    }
    SinkStop(gt, now, was, i, j + 1);
    a[j + 1] := key;
  }

  /** `s` is `was` with everything from `k` up to `i` moved up by one, all of it greater than the
      element that was at `i`; slot `k` is free. */
  ghost predicate Sinking<T>(gt: (T, T) -> bool, s: seq<T>, was: seq<T>, i: nat, k: nat) {
    && |s| == |was| && k <= i < |was|
    && s[..k] == was[..k] && s[k + 1..i + 1] == was[k..i] && s[i + 1..] == was[i + 1..]
    && Insert(gt, was[..i], was[i]) == Insert(gt, was[..i][..k], was[i]) + was[..i][k..]
  }

  lemma SinkStart<T>(gt: (T, T) -> bool, was: seq<T>, i: nat)
    requires i < |was|
    ensures Sinking(gt, was, was, i, i)
  {
    hide Insert;
    assert was[..i][..i] == was[..i] && was[..i][i..] == [];
  }

  lemma SinkStep<T>(gt: (T, T) -> bool, s: seq<T>, was: seq<T>, i: nat, k: nat)
    requires Sinking(gt, s, was, i, k) && 0 < k < |s| && i < |was| && Above(gt, s[k - 1], was[i])
    ensures Sinking(gt, s[k := s[k - 1]], was, i, k - 1)
  {
    hide Insert, Above;
    assert s[k - 1] == s[..k][k - 1];
    InsertPast(gt, was[..i], k - 1, was[i]);
    SlideDown(s, was, i, k);
  }

  lemma SlideDown<T>(s: seq<T>, was: seq<T>, i: nat, k: nat)
    requires |s| == |was| && 0 < k <= i < |was|
    requires s[..k] == was[..k] && s[k + 1..i + 1] == was[k..i] && s[i + 1..] == was[i + 1..]
    ensures var z := s[k := s[k - 1]];
            z[..k - 1] == was[..k - 1] && z[k..i + 1] == was[k - 1..i] && z[i + 1..] == was[i + 1..]
  {
    var z := s[k := s[k - 1]];
    assert s[k - 1] == s[..k][k - 1] == was[k - 1];
    assert z[..k - 1] == s[..k][..k - 1];
    assert z[k..i + 1] == [s[k - 1]] + s[k + 1..i + 1];
    assert was[k - 1..i] == [was[k - 1]] + was[k..i];
  }

  lemma SinkStop<T>(gt: (T, T) -> bool, s: seq<T>, was: seq<T>, i: nat, k: nat)
    requires Sinking(gt, s, was, i, k) && |s| == |was| && k <= i < |was|
    requires k == 0 || !Above(gt, s[k - 1], was[i])
    ensures s[k := was[i]] == Sunk(gt, was, i)
  {
    hide Insert;
    assert k > 0 ==> s[k - 1] == s[..k][k - 1];
    var front := was[..i];
    InsertHere(gt, front[..k], was[i]);
    assert front[..k] == was[..k] && front[k..] == was[k..i];
    assert s[k := was[i]] == s[..k] + [was[i]] + s[k + 1..i + 1] + s[i + 1..];
  }

  lemma InsertPast<T>(gt: (T, T) -> bool, front: seq<T>, j: nat, key: T)
    requires j < |front| && Above(gt, front[j], key)
    requires Insert(gt, front, key) == Insert(gt, front[..j + 1], key) + front[j + 1..]
    ensures Insert(gt, front, key) == Insert(gt, front[..j], key) + front[j..]
  {
    hide Insert;
    InsertStep(gt, front[..j + 1], key);
    assert front[..j + 1][..j] == front[..j];
    SplitOff(Insert(gt, front[..j], key), front, j);
  }

  lemma InsertStep<T>(gt: (T, T) -> bool, s: seq<T>, key: T)
    requires s != [] && gt(s[|s| - 1], key)
    ensures Insert(gt, s, key) == Insert(gt, s[..|s| - 1], key) + [s[|s| - 1]]
  {
  }

  lemma SplitOff<T>(x: seq<T>, front: seq<T>, j: nat)
    requires j < |front|
    ensures (x + [front[j]]) + front[j + 1..] == x + front[j..]
  {
  }

  lemma InsertHere<T>(gt: (T, T) -> bool, s: seq<T>, key: T)
    requires s == [] || !gt(s[|s| - 1], key)
    ensures Insert(gt, s, key) == s + [key]
  {
  }
}
