/**
 * Stable sorting of tasks by `order`, the behaviour of
 * `.sort((a, b) => a.order - b.order)` on an engine whose sort is stable.
 * Stability is stated through `FilterOrder`: for every order value, the
 * tasks carrying it appear in the result in the same relative order as in
 * the input.
 */
module Ordering {
  import opened Tasks

  /** Non-decreasing by `order`; equal orders are allowed. */
  predicate Sorted(s: seq<Task>) {
    forall i, j :: 0 <= i < j < |s| ==> s[i].order <= s[j].order
  }

  /** The tasks of `s` whose order is `k`, in their relative order in `s`. */
  function FilterOrder(s: seq<Task>, k: int): (r: seq<Task>)
    ensures |r| <= |s|
  {
    if s == [] then []
    else (if s[0].order == k then [s[0]] else []) + FilterOrder(s[1..], k)
  }

  /** Every task kept by the order filter comes from the list and has that order. */
  lemma {:induction false} FilterOrderMember(s: seq<Task>, k: int, t: Task)
    requires t in FilterOrder(s, k)
    ensures t in s && t.order == k
    decreases |s|
  {
    if !(s[0].order == k && t == s[0]) {
      assert t in FilterOrder(s[1..], k);
      FilterOrderMember(s[1..], k, t);
    }
  }

  /** Inserts `x` in front of the first task whose order is not below its own. */
  function Insert(x: Task, s: seq<Task>): (r: seq<Task>)
    ensures |r| == |s| + 1
    ensures multiset(r) == multiset(s) + multiset{x}
    ensures r[0] == x || (s != [] && r[0] == s[0])
  {
    if s == [] || x.order <= s[0].order then
      [x] + s
    else
      assert s == [s[0]] + s[1..];
      [s[0]] + Insert(x, s[1..])
  }

  /** Inserting into a sorted list keeps it sorted. */
  lemma {:induction false} InsertSorted(x: Task, s: seq<Task>)
    requires Sorted(s)
    ensures Sorted(Insert(x, s))
    decreases |s|
  {
    if s != [] && x.order > s[0].order {
      InsertSorted(x, s[1..]);
      var r := Insert(x, s[1..]);
      assert Insert(x, s) == [s[0]] + r;
      assert r[0] == x || r[0] == s[1];
    }
  }

  /** `x` goes in front of every task of the same order: among the tasks of
      its order it comes first, and nothing else moves relative to its peers. */
  lemma {:induction false} InsertFilterOrder(x: Task, s: seq<Task>, k: int)
    ensures FilterOrder(Insert(x, s), k) == if x.order == k then [x] + FilterOrder(s, k) else FilterOrder(s, k)
    decreases |s|
  {
    if s == [] || x.order <= s[0].order {
      assert ([x] + s)[1..] == s;
    } else {
      InsertFilterOrder(x, s[1..], k);
      var r := Insert(x, s[1..]);
      assert ([s[0]] + r)[1..] == r;
    }
  }

  /** The stable sort of `s` by order. */
  function SortByOrder(s: seq<Task>): (r: seq<Task>)
    ensures |r| == |s|
    ensures multiset(r) == multiset(s)
    ensures Sorted(r)
    ensures forall k :: FilterOrder(r, k) == FilterOrder(s, k)
  {
    if s == [] then []
    else
      assert s == [s[0]] + s[1..];
      var rest := SortByOrder(s[1..]);
      InsertSorted(s[0], rest);
      assert forall k :: FilterOrder(Insert(s[0], rest), k) == FilterOrder(s, k) by {
        forall k ensures FilterOrder(Insert(s[0], rest), k) == FilterOrder(s, k) {
          InsertFilterOrder(s[0], rest, k);
        }
      }
      Insert(s[0], rest)
  }

  /** Filtering by order distributes over concatenation. */
  lemma {:induction false} FilterOrderAppend(a: seq<Task>, b: seq<Task>, k: int)
    ensures FilterOrder(a + b, k) == FilterOrder(a, k) + FilterOrder(b, k)
    decreases |a|
  {
    if a == [] {
      assert a + b == b;
    } else {
      var h := if a[0].order == k then [a[0]] else [];
      assert (a + b)[0] == a[0];
      assert (a + b)[1..] == a[1..] + b;
      assert FilterOrder(a + b, k) == h + FilterOrder(a[1..] + b, k);
      FilterOrderAppend(a[1..], b, k);
      assert FilterOrder(a, k) == h + FilterOrder(a[1..], k);
    }
  }

  /** The order filter of a list split around position `p`. */
  lemma FilterOrderSplit(s: seq<Task>, p: nat, k: int)
    requires p < |s|
    ensures FilterOrder(s, k)
         == FilterOrder(s[..p], k) + (if s[p].order == k then [s[p]] else []) + FilterOrder(s[p + 1..], k)
  {
    var mid := [s[p]] + s[p + 1..];
    assert s == s[..p] + mid;
    FilterOrderAppend(s[..p], mid, k);
    assert mid[1..] == s[p + 1..];
  }

  /** In a sorted list the head has the least order of all its elements. */
  lemma SortedHeadLeast(s: seq<Task>, t: Task)
    requires Sorted(s) && t in s
    ensures s[0].order <= t.order
  {
    var i :| 0 <= i < |s| && s[i] == t;
  }

  /** The head of a list is among the tasks of its own order. */
  lemma HeadKept(s: seq<Task>)
    requires s != []
    ensures FilterOrder(s, s[0].order) != []
  {
  }

  /** Two non-empty sorted lists that agree on the tasks carrying either
      head's order start with the same task. */
  lemma SameHead(a: seq<Task>, b: seq<Task>)
    requires Sorted(a) && Sorted(b) && a != [] && b != []
    requires FilterOrder(a, a[0].order) == FilterOrder(b, a[0].order)
    requires FilterOrder(a, b[0].order) == FilterOrder(b, b[0].order)
    ensures a[0] == b[0]
  {
    var ka, kb := a[0].order, b[0].order;
    assert FilterOrder(a, ka)[0] == a[0];
    assert FilterOrder(b, kb)[0] == b[0];
    FilterOrderMember(b, ka, FilterOrder(b, ka)[0]);
    FilterOrderMember(a, kb, FilterOrder(a, kb)[0]);
    SortedHeadLeast(b, FilterOrder(b, ka)[0]);
    SortedHeadLeast(a, FilterOrder(a, kb)[0]);
  }

  /** Agreement on order value `k` survives dropping equal heads. */
  lemma SameTailFilter(a: seq<Task>, b: seq<Task>, k: int)
    requires a != [] && b != [] && a[0] == b[0]
    requires FilterOrder(a, k) == FilterOrder(b, k)
    ensures FilterOrder(a[1..], k) == FilterOrder(b[1..], k)
  {
    var h := if a[0].order == k then [a[0]] else [];
    assert FilterOrder(a, k) == h + FilterOrder(a[1..], k);
    assert FilterOrder(b, k) == h + FilterOrder(b[1..], k);
    assert FilterOrder(a[1..], k) == FilterOrder(a, k)[|h|..];
    assert FilterOrder(b[1..], k) == FilterOrder(b, k)[|h|..];
  }

  /**
   * A stable sort is determined by its input: two sorted lists that agree,
   * for every order value, on the sequence of tasks carrying that value are
   * the same list. So `SortByOrder` is the only sorted arrangement of a list
   * that keeps tasks of equal order in their original relative order.
   */
  lemma {:induction false} StableSortUnique(a: seq<Task>, b: seq<Task>)
    requires Sorted(a) && Sorted(b)
    requires forall k :: FilterOrder(a, k) == FilterOrder(b, k)
    ensures a == b
    decreases |a|
  {
    if a == [] || b == [] {
      // an empty list agrees only with an empty one: the head of the other
      // would show up under its own order value
      if a != [] {
        HeadKept(a);
      } else if b != [] {
        HeadKept(b);
      }
    } else {
      SameHead(a, b);
      forall k ensures FilterOrder(a[1..], k) == FilterOrder(b[1..], k) {
        SameTailFilter(a, b, k);
      }
      StableSortUnique(a[1..], b[1..]);
      assert a == [a[0]] + a[1..] && b == [b[0]] + b[1..];
    }
  }

  /** A sorted list that agrees with `s` on every order value is `SortByOrder(s)`. */
  lemma SortByOrderCharacterized(s: seq<Task>, r: seq<Task>)
    requires Sorted(r)
    requires forall k :: FilterOrder(r, k) == FilterOrder(s, k)
    ensures r == SortByOrder(s)
  {
    StableSortUnique(r, SortByOrder(s));
  }

  /** The position in `s` of the `m`-th (from 0) task whose order is `k`. */
  lemma {:induction false} NthWithOrder(s: seq<Task>, k: int, m: nat) returns (p: nat)
    requires m < |FilterOrder(s, k)|
    ensures p < |s| && s[p].order == k && |FilterOrder(s[..p], k)| == m
    decreases |s|
  {
    if s[0].order == k && m == 0 {
      p := 0;
      assert s[..p] == [];
    } else {
      var m' := if s[0].order == k then m - 1 else m;
      var p' := NthWithOrder(s[1..], k, m');
      p := p' + 1;
      assert s[..p] == [s[0]] + s[1..][..p'];
      FilterOrderAppend([s[0]], s[1..][..p'], k);
    }
  }

  /** Deleting one element of a sorted list leaves it sorted. */
  lemma SortedRemove(s: seq<Task>, p: nat)
    requires Sorted(s) && p < |s|
    ensures Sorted(s[..p] + s[p + 1..])
  {
    var r := s[..p] + s[p + 1..];
    forall i, j | 0 <= i < j < |r| ensures r[i].order <= r[j].order {
      var i' := if i < p then i else i + 1;
      var j' := if j < p then j else j + 1;
      assert r[i] == s[i'] && r[j] == s[j'];
    }
  }

  /** No task of `g` has order `k` when all orders of `g` are below `k`. */
  lemma {:induction false} FilterOrderAbove(g: seq<Task>, k: int)
    requires forall t :: t in g ==> t.order < k
    ensures FilterOrder(g, k) == []
    decreases |g|
  {
    if g != [] {
      assert g[0] in g;
      assert forall t :: t in g[1..] ==> t in g;
      FilterOrderAbove(g[1..], k);
    }
  }

  /** A list split twice around a single element, with prefixes of equal
      length, is split the same way both times. */
  lemma SameSplit(w: seq<Task>, a1: seq<Task>, x: Task, a2: seq<Task>, b1: seq<Task>, y: Task, b2: seq<Task>)
    requires w == a1 + [x] + a2 && w == b1 + [y] + b2 && |a1| == |b1|
    ensures x == y && a1 == b1 && a2 == b2
  {
    assert x == w[|a1|] && y == w[|b1|];
    assert a1 == w[..|a1|] && b1 == w[..|b1|];
    assert a2 == w[|a1| + 1..] && b2 == w[|b1| + 1..];
  }

  /** Cutting the same piece `h` (at most one task) out of two splittings of
      one list, at the same place when `h` is not empty, leaves equal lists. */
  lemma CutAgree(w: seq<Task>, a1: seq<Task>, a2: seq<Task>, b1: seq<Task>, b2: seq<Task>, h: seq<Task>)
    requires |h| <= 1
    requires w == a1 + h + a2 && w == b1 + h + b2
    requires h != [] ==> |a1| == |b1|
    ensures a1 + a2 == b1 + b2
  {
    if h == [] {
      assert a1 + h == a1 && b1 + h == b1;
    } else {
      SameSplit(w, a1, h[0], a2, b1, h[0], b2);
    }
  }

  /** Cutting out the same task from two lists that agree on order value `k`,
      at the same rank among the tasks of that order, keeps them agreeing. */
  lemma RemoveAgree(a: seq<Task>, i: nat, b: seq<Task>, j: nat, k: int)
    requires i < |a| && j < |b| && a[i] == b[j]
    requires FilterOrder(a, k) == FilterOrder(b, k)
    requires a[i].order == k ==> |FilterOrder(a[..i], k)| == |FilterOrder(b[..j], k)|
    ensures FilterOrder(a[..i] + a[i + 1..], k) == FilterOrder(b[..j] + b[j + 1..], k)
  {
    var h := if a[i].order == k then [a[i]] else [];
    FilterOrderSplit(a, i, k);
    FilterOrderSplit(b, j, k);
    FilterOrderAppend(a[..i], a[i + 1..], k);
    FilterOrderAppend(b[..j], b[j + 1..], k);
    CutAgree(FilterOrder(a, k), FilterOrder(a[..i], k), FilterOrder(a[i + 1..], k),
             FilterOrder(b[..j], k), FilterOrder(b[j + 1..], k), h);
  }

  /**
   * Removing the task at position `q` of the input removes one task from the
   * sorted output and leaves the others in the same order: the stable sort of
   * the shorter list is the sorted list with one element cut out.
   */
  lemma SortRemove(f: seq<Task>, q: nat) returns (p: nat)
    requires q < |f|
    ensures p < |f| && SortByOrder(f)[p] == f[q]
    ensures SortByOrder(f[..q] + f[q + 1..]) == SortByOrder(f)[..p] + SortByOrder(f)[p + 1..]
  {
    var srt := SortByOrder(f);
    var k0 := f[q].order;
    FilterOrderSplit(f, q, k0);
    assert FilterOrder(srt, k0) == FilterOrder(f, k0);
    p := NthWithOrder(srt, k0, |FilterOrder(f[..q], k0)|);
    FilterOrderSplit(srt, p, k0);
    SameSplit(FilterOrder(f, k0), FilterOrder(f[..q], k0), f[q], FilterOrder(f[q + 1..], k0),
              FilterOrder(srt[..p], k0), srt[p], FilterOrder(srt[p + 1..], k0));
    var g := f[..q] + f[q + 1..];
    var r := srt[..p] + srt[p + 1..];
    SortedRemove(srt, p);
    forall k ensures FilterOrder(r, k) == FilterOrder(g, k) {
      RemoveAgree(srt, p, f, q, k);
    }
    SortByOrderCharacterized(g, r);
  }

  /** Appending a task above all orders of a sorted list keeps it sorted. */
  lemma SortedAppendGreatest(s: seq<Task>, x: Task)
    requires Sorted(s)
    requires forall t :: t in s ==> t.order < x.order
    ensures Sorted(s + [x])
  {
    var r := s + [x];
    forall i, j | 0 <= i < j < |r| ensures r[i].order <= r[j].order {
      if j == |s| {
        assert r[i] in s;
      }
    }
  }

  /** A one-element list keeps its task exactly when the order matches. */
  lemma FilterOrderSingle(x: Task, k: int)
    ensures FilterOrder([x], k) == if x.order == k then [x] else []
  {
    assert [x][1..] == [];
  }

  /** When no task of `f` has the order of `x` or `k` is not that order,
      placing `x` anywhere in `f` or after `srt` adds `x` under its own order
      and leaves every other order value as it was. */
  lemma AppendGreatestAgree(f: seq<Task>, q: nat, x: Task, srt: seq<Task>, k: int)
    requires q <= |f|
    requires k == x.order ==> FilterOrder(f[..q], k) == [] && FilterOrder(f[q..], k) == []
    requires FilterOrder(srt, k) == FilterOrder(f, k)
    ensures FilterOrder(srt + [x], k) == FilterOrder(f[..q] + [x] + f[q..], k)
  {
    var left, right := f[..q], f[q..];
    var h := if x.order == k then [x] else [];
    var a, b := FilterOrder(left, k), FilterOrder(right, k);
    assert FilterOrder(left + [x] + right, k) == a + h + b by {
      FilterOrderAppend(left + [x], right, k);
      FilterOrderAppend(left, [x], k);
      FilterOrderSingle(x, k);
    }
    assert FilterOrder(srt + [x], k) == FilterOrder(srt, k) + h by {
      FilterOrderAppend(srt, [x], k);
      FilterOrderSingle(x, k);
    }
    assert FilterOrder(f, k) == a + b by {
      assert f == left + right;
      FilterOrderAppend(left, right, k);
    }
    Rearrange(a, b, FilterOrder(srt, k), h);
  }

  /** The sequence algebra behind `AppendGreatestAgree`. */
  lemma Rearrange(l: seq<Task>, r: seq<Task>, s: seq<Task>, h: seq<Task>)
    requires s == l + r
    requires h != [] ==> l == [] && r == []
    ensures s + h == l + h + r
  {
    if h == [] {
      assert s + h == s && l + h == l;
    } else {
      assert l + h == h && s == [];
    }
  }

  /** Both slices of a list whose orders are below `b` have orders below `b`. */
  lemma SliceBelow(f: seq<Task>, q: nat, b: int)
    requires q <= |f|
    requires forall t :: t in f ==> t.order < b
    ensures forall t :: t in f[..q] ==> t.order < b
    ensures forall t :: t in f[q..] ==> t.order < b
  {
    forall t | t in f[..q] ensures t.order < b {
      var i :| 0 <= i < q && f[..q][i] == t;
      assert f[i] == t;
    }
    forall t | t in f[q..] ensures t.order < b {
      var i :| 0 <= i < |f| - q && f[q..][i] == t;
      assert f[q + i] == t;
    }
  }

  /**
   * A task whose order exceeds every order of `f` ends up last, after the
   * sorted `f`, wherever it stands in the input.
   */
  lemma SortAppendGreatest(f: seq<Task>, q: nat, x: Task)
    requires q <= |f|
    requires forall t :: t in f ==> t.order < x.order
    ensures SortByOrder(f[..q] + [x] + f[q..]) == SortByOrder(f) + [x]
  {
    var g := f[..q] + [x] + f[q..];
    var srt := SortByOrder(f);
    forall t | t in srt ensures t.order < x.order {
      assert t in multiset(srt);
      assert t in multiset(f);
    }
    SortedAppendGreatest(srt, x);
    SliceBelow(f, q, x.order);
    FilterOrderAbove(f[..q], x.order);
    FilterOrderAbove(f[q..], x.order);
    forall k ensures FilterOrder(srt + [x], k) == FilterOrder(g, k) {
      AppendGreatestAgree(f, q, x, srt, k);
    }
    SortByOrderCharacterized(g, srt + [x]);
  }
}
