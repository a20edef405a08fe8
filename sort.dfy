/** The in-place `Array.prototype.sort` calls of the layout utilities.  Both
    comparators (`a.layerId - b.layerId` and `a.position.y - b.position.y`)
    order nodes by one numeric key, and the JavaScript sort is stable, so the
    result is the unique stable sort by that key; it is specified by a
    functional insertion sort and implemented by an in-place one. */
module StableSort {
  import opened ConstraintClasses

  /** The two comparators used by the layout utilities. */
  datatype SortKey = ByLayerId | ByY

  function Key(n: KNode, k: SortKey): real
    reads n
  {
    match k
    case ByLayerId => n.layerId as real
    case ByY => n.y
  }

  ghost predicate SortedBy(s: seq<KNode>, k: SortKey)
    reads s
  {
    forall i, j :: 0 <= i < j < |s| ==> Key(s[i], k) <= Key(s[j], k)
  }

  /** The elements of `s` whose key is `v`, in their order in `s`. */
  function WithKey(s: seq<KNode>, k: SortKey, v: real): (r: seq<KNode>)
    reads s
    ensures forall o :: o in r ==> o in s
  {
    if |s| == 0 then []
    else if Key(s[|s| - 1], k) == v then WithKey(s[..|s| - 1], k, v) + [s[|s| - 1]]
    else WithKey(s[..|s| - 1], k, v)
  }

  /** Puts `x` right after the last element of `t` whose key is not greater than its own. */
  function Insert(t: seq<KNode>, x: KNode, k: SortKey): (r: seq<KNode>)
    reads t, x
  {
    if |t| == 0 || Key(t[|t| - 1], k) <= Key(x, k) then t + [x]
    else
      assert t == t[..|t| - 1] + [t[|t| - 1]];
      Insert(t[..|t| - 1], x, k) + [t[|t| - 1]]
  }

  lemma {:induction false} InsertElements(t: seq<KNode>, x: KNode, k: SortKey)
    ensures forall o :: o in Insert(t, x, k) ==> o in t || o == x
  {
    if |t| > 0 && Key(t[|t| - 1], k) > Key(x, k) {
      InsertElements(t[..|t| - 1], x, k);
    }
  }

  /** The stable sort of `s` by key `k`: a permutation of `s`. */
  function SortBy(s: seq<KNode>, k: SortKey): (r: seq<KNode>)
    reads set n | n in s
    ensures forall o :: o in r ==> o in s
  {
    if |s| == 0 then []
    else
      var t := SortBy(s[..|s| - 1], k);
      InsertElements(t, s[|s| - 1], k);
      Insert(t, s[|s| - 1], k)
  }

  lemma {:induction false} InsertSorted(t: seq<KNode>, x: KNode, k: SortKey)
    requires SortedBy(t, k)
    ensures SortedBy(Insert(t, x, k), k)
  {
    if |t| > 0 && Key(t[|t| - 1], k) > Key(x, k) {
      var p, last := t[..|t| - 1], t[|t| - 1];
      InsertSorted(p, x, k);
      InsertElements(p, x, k);
      var r := Insert(p, x, k);
      assert forall o :: o in r ==> Key(o, k) <= Key(last, k);
      assert forall i :: 0 <= i < |r| ==> r[i] in r;
    }
  }

  lemma {:induction false} InsertPermutes(t: seq<KNode>, x: KNode, k: SortKey)
    ensures multiset(Insert(t, x, k)) == multiset(t) + multiset{x}
  {
    if |t| > 0 && Key(t[|t| - 1], k) > Key(x, k) {
      InsertPermutes(t[..|t| - 1], x, k);
      assert t == t[..|t| - 1] + [t[|t| - 1]];
    }
  }

  /** The result of the sort is a permutation of its input. */
  lemma {:induction false} SortByPermutes(s: seq<KNode>, k: SortKey)
    ensures multiset(SortBy(s, k)) == multiset(s)
  {
    if |s| > 0 {
      SortByPermutes(s[..|s| - 1], k);
      InsertPermutes(SortBy(s[..|s| - 1], k), s[|s| - 1], k);
      assert s == s[..|s| - 1] + [s[|s| - 1]];
    }
  }

  /** The result of the sort is ordered by the key. */
  lemma {:induction false} SortBySorted(s: seq<KNode>, k: SortKey)
    ensures SortedBy(SortBy(s, k), k)
  {
    if |s| > 0 {
      SortBySorted(s[..|s| - 1], k);
      InsertSorted(SortBy(s[..|s| - 1], k), s[|s| - 1], k);
    }
  }

  lemma {:induction false} InsertWithKey(t: seq<KNode>, x: KNode, k: SortKey, v: real)
    ensures WithKey(Insert(t, x, k), k, v)
         == if Key(x, k) == v then WithKey(t, k, v) + [x] else WithKey(t, k, v)
  {
    if |t| == 0 || Key(t[|t| - 1], k) <= Key(x, k) {
      assert (t + [x])[..|t|] == t;
    } else {
      var p, last := t[..|t| - 1], t[|t| - 1];
      InsertWithKey(p, x, k, v);
      var r := Insert(p, x, k);
      assert (r + [last])[..|r|] == r;
      if Key(last, k) == v {
        // then the key of x is smaller than v, so x is not kept
        assert Key(x, k) != v;
      }
    }
  }

  /** Stability: the elements sharing one key keep their relative order. */
  lemma {:induction false} SortByStable(s: seq<KNode>, k: SortKey, v: real)
    ensures WithKey(SortBy(s, k), k, v) == WithKey(s, k, v)
  {
    if |s| > 0 {
      var p := s[..|s| - 1];
      SortByStable(p, k, v);
      InsertWithKey(SortBy(p, k), s[|s| - 1], k, v);
    }
  }

  /** Where `Insert` puts `x`: after the prefix whose keys are not greater than its own. */
  lemma {:induction false} InsertSplit(t: seq<KNode>, x: KNode, k: SortKey, j: nat)
    requires j <= |t|
    requires j == 0 || Key(t[j - 1], k) <= Key(x, k)
    requires forall m :: j <= m < |t| ==> Key(t[m], k) > Key(x, k)
    ensures Insert(t, x, k) == t[..j] + [x] + t[j..]
  {
    if j < |t| {
      var p := t[..|t| - 1];
      assert p[..j] == t[..j];
      InsertSplit(p, x, k, j);
      assert t[j..] == p[j..] + [t[|t| - 1]];
    }
  }

  /** One step of the insertion sort: moves `a[i]` into the sorted prefix `a[..i]`. */
  method InsertInPlace(a: array<KNode>, i: nat, k: SortKey)
    requires i < a.Length
    modifies a
    ensures a[..i + 1] == Insert(old(a[..i]), old(a[i]), k)
    ensures forall m :: i < m < a.Length ==> a[m] == old(a[m])
  {
    ghost var t := a[..i];
    var x := a[i];
    var j := i;
    var kx := Key(x, k);
    while j > 0 && Key(a[j - 1], k) > kx
      invariant 0 <= j <= i
      invariant forall m :: 0 <= m < j ==> a[m] == t[m]
      invariant forall m :: j < m <= i ==> a[m] == t[m - 1]
      invariant forall m :: i < m < a.Length ==> a[m] == old(a[m])
      invariant forall m :: j <= m < i ==> Key(t[m], k) > kx
    {
      a[j] := a[j - 1];
      j := j - 1;
    }
    a[j] := x;
    InsertSplit(t, x, k, j);
    assert a[..i + 1] == t[..j] + [x] + t[j..];
  }

  lemma SortByPrefix(s: seq<KNode>, i: nat, k: SortKey)
    requires i < |s|
    ensures SortBy(s[..i + 1], k) == Insert(SortBy(s[..i], k), s[i], k)
  {
    assert s[..i + 1][..i] == s[..i];
  }

  /** Sorting only reads the nodes: while none of them changes, neither does the sorted list. */
  twostate lemma SortByUnchanged(new s: seq<KNode>, new k: SortKey)
    requires old(allocated(s))
    requires unchanged(set n | n in s)
    ensures SortBy(s, k) == old(SortBy(s, k))
  {
  }

  twostate lemma InsertUnchanged(new t: seq<KNode>, new x: KNode, new k: SortKey)
    requires old(allocated(t)) && old(allocated(x))
    requires unchanged(x) && unchanged(set n | n in t)
    ensures Insert(t, x, k) == old(Insert(t, x, k))
  {
  }

  /** Sorts `a` in place by key `k`, leaving the nodes themselves untouched. */
  method SortInPlace(a: array<KNode>, k: SortKey)
    modifies a
    ensures a[..] == SortBy(old(a[..]), k)
  {
    ghost var input := a[..];
    var i := 0;
    while i < a.Length
      invariant 0 <= i <= a.Length
      invariant a[..i] == SortBy(input[..i], k)
      invariant forall m :: i <= m < a.Length ==> a[m] == input[m]
    {
      SortByPrefix(input, i, k);
      ghost var pre := a[..];
      ghost var sorted := SortBy(input[..i], k);
      ghost var next := Insert(sorted, input[i], k);
      label before:
      InsertInPlace(a, i, k);
      assert pre[..i] == sorted && pre[i] == input[i];
      InsertUnchanged@before(sorted, input[i], k);
      SortByUnchanged@before(input[..i + 1], k);
      assert a[..i + 1] == next;
      i := i + 1;
    }
    assert a[..] == a[..a.Length];
    assert input == input[..a.Length];
  }
}
