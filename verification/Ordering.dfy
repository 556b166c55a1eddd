/**
 The pieces of Rust's standard library that the analysed code leans on: the order of `str`,
 stable sorting, `dedup` after a sort, and `partition_point`.
 */
module Ordering {
  import opened Basics

  // ----- orders -----

  ghost predicate TotalPreorder<T(!new)>(leq: (T, T) -> bool) {
    && (forall a, b :: leq(a, b) || leq(b, a))
    && (forall a, b, c :: leq(a, b) && leq(b, c) ==> leq(a, c))
  }

  ghost predicate Antisymmetric<T(!new)>(leq: (T, T) -> bool) {
    forall a, b :: leq(a, b) && leq(b, a) ==> a == b
  }

  // ----- text -----

  /** The order of Rust's `str`: lexicographic by code point. */
  predicate TextLeq(a: string, b: string) {
    a == [] || (b != [] && (a[0] < b[0] || (a[0] == b[0] && TextLeq(a[1..], b[1..]))))
  }

  lemma TextLeqTotal(a: string, b: string)
    ensures TextLeq(a, b) || TextLeq(b, a)
  {}

  lemma {:induction false} TextLeqAntisymmetric(a: string, b: string)
    requires TextLeq(a, b) && TextLeq(b, a)
    ensures a == b
  {
    if a != [] {
      TextLeqAntisymmetric(a[1..], b[1..]);
      assert a == [a[0]] + a[1..] && b == [b[0]] + b[1..];
    }
  }

  lemma {:induction false} TextLeqTransitive(a: string, b: string, c: string)
    requires TextLeq(a, b) && TextLeq(b, c)
    ensures TextLeq(a, c)
  {
    if a != [] && a[0] == b[0] && b[0] == c[0] {
      TextLeqTransitive(a[1..], b[1..], c[1..]);
    }
  }

  lemma TextLeqOrder()
    ensures TotalPreorder(TextLeq) && Antisymmetric(TextLeq)
  {
    forall a, b ensures TextLeq(a, b) || TextLeq(b, a) { TextLeqTotal(a, b); }
    forall a, b | TextLeq(a, b) && TextLeq(b, a) ensures a == b { TextLeqAntisymmetric(a, b); }
    forall a, b, c | TextLeq(a, b) && TextLeq(b, c) ensures TextLeq(a, c) { TextLeqTransitive(a, b, c); }
  }

  /** The order of a tuple of strings. */
  predicate TextsLeq(a: seq<string>, b: seq<string>) {
    a == [] || (b != [] && if a[0] != b[0] then TextLeq(a[0], b[0]) else TextsLeq(a[1..], b[1..]))
  }

  lemma {:induction false} TextsLeqTotal(a: seq<string>, b: seq<string>)
    ensures TextsLeq(a, b) || TextsLeq(b, a)
  {
    if a != [] && b != [] {
      TextLeqTotal(a[0], b[0]);
      TextsLeqTotal(a[1..], b[1..]);
    }
  }

  lemma {:induction false} TextsLeqAntisymmetric(a: seq<string>, b: seq<string>)
    requires TextsLeq(a, b) && TextsLeq(b, a)
    ensures a == b
  {
    if a != [] {
      if a[0] != b[0] { TextLeqAntisymmetric(a[0], b[0]); }
      TextsLeqAntisymmetric(a[1..], b[1..]);
      assert a == [a[0]] + a[1..] && b == [b[0]] + b[1..];
    }
  }

  lemma {:induction false} TextsLeqTransitive(a: seq<string>, b: seq<string>, c: seq<string>)
    requires TextsLeq(a, b) && TextsLeq(b, c)
    ensures TextsLeq(a, c)
  {
    if a != [] {
      if a[0] == b[0] == c[0] {
        TextsLeqTransitive(a[1..], b[1..], c[1..]);
      } else if a[0] != b[0] && b[0] != c[0] {
        TextLeqTransitive(a[0], b[0], c[0]);
        if a[0] == c[0] { TextLeqAntisymmetric(a[0], b[0]); }
      }
    }
  }

  lemma TextsLeqOrder()
    ensures TotalPreorder(TextsLeq) && Antisymmetric(TextsLeq)
  {
    forall a, b ensures TextsLeq(a, b) || TextsLeq(b, a) { TextsLeqTotal(a, b); }
    forall a, b | TextsLeq(a, b) && TextsLeq(b, a) ensures a == b { TextsLeqAntisymmetric(a, b); }
    forall a, b, c | TextsLeq(a, b) && TextsLeq(b, c) ensures TextsLeq(a, c) { TextsLeqTransitive(a, b, c); }
  }

  // The first difference decides, and where there is none the shorter one comes first.

  lemma {:induction false} TextLeqDecides(common: string, x: char, a: string, y: char, b: string)
    requires x < y
    ensures TextLeq(common + [x] + a, common + [y] + b) && !TextLeq(common + [y] + b, common + [x] + a)
  {
    if common == "" {
      assert "" + [x] + a == [x] + a && "" + [y] + b == [y] + b;
    } else {
      var rest := common[1..];
      TextLeqDecides(rest, x, a, y, b);
      assert common + [x] + a == [common[0]] + (rest + [x] + a) && common + [y] + b == [common[0]] + (rest + [y] + b);
    }
  }

  lemma {:induction false} TextLeqPrefix(a: string, more: string)
    ensures TextLeq(a, a + more)
  {
    if a != "" {
      TextLeqPrefix(a[1..], more);
      assert (a + more)[1..] == a[1..] + more;
    }
  }

  lemma {:induction false} TextsLeqDecides(common: seq<string>, x: string, a: seq<string>, y: string, b: seq<string>)
    requires x != y && TextLeq(x, y)
    ensures TextsLeq(common + [x] + a, common + [y] + b) && !TextsLeq(common + [y] + b, common + [x] + a)
  {
    if common == [] {
      assert [] + [x] + a == [x] + a && [] + [y] + b == [y] + b;
      if TextLeq(y, x) { TextLeqAntisymmetric(x, y); }
    } else {
      TextsLeqDecides(common[1..], x, a, y, b);
      assert (common + [x] + a)[1..] == common[1..] + [x] + a && (common + [y] + b)[1..] == common[1..] + [y] + b;
    }
  }

  // ----- sorting -----

  ghost predicate Sorted<T>(s: seq<T>, leq: (T, T) -> bool) {
    forall i, j :: 0 <= i < j < |s| ==> leq(s[i], s[j])
  }

  function Insert<T>(x: T, s: seq<T>, leq: (T, T) -> bool): (r: seq<T>)
    ensures |r| == |s| + 1
    ensures multiset(r) == multiset(s) + multiset{x}
  {
    if s == [] then [x]
    else if leq(x, s[0]) then [x] + s
    else
      assert s == [s[0]] + s[1..];
      [s[0]] + Insert(x, s[1..], leq)
  }

  /** Rust's stable `sort_by`. */
  function SortBy<T>(s: seq<T>, leq: (T, T) -> bool): (r: seq<T>)
    ensures |r| == |s|
    ensures multiset(r) == multiset(s)
  {
    if s == [] then []
    else
      assert s == [s[0]] + s[1..];
      Insert(s[0], SortBy(s[1..], leq), leq)
  }

  lemma SameElements<T>(s: seq<T>, t: seq<T>)
    requires multiset(s) == multiset(t)
    ensures |s| == |t|
    ensures forall x :: x in s <==> x in t
  {
    assert |multiset(s)| == |s| && |multiset(t)| == |t|;
    forall x ensures x in s <==> x in t {
      assert x in s <==> x in multiset(s);
      assert x in t <==> x in multiset(t);
    }
  }

  lemma {:induction false} InsertSorted<T(!new)>(x: T, s: seq<T>, leq: (T, T) -> bool)
    requires TotalPreorder(leq) && Sorted(s, leq)
    ensures Sorted(Insert(x, s, leq), leq)
  {
    if s != [] && !leq(x, s[0]) {
      InsertSorted(x, s[1..], leq);
      var tail := Insert(x, s[1..], leq);
      forall k | 0 <= k < |tail| ensures leq(s[0], tail[k]) {
        assert tail[k] in multiset(tail);
        assert tail[k] == x || tail[k] in s[1..];
      }
    }
  }

  lemma {:induction false} SortBySorted<T(!new)>(s: seq<T>, leq: (T, T) -> bool)
    requires TotalPreorder(leq)
    ensures Sorted(SortBy(s, leq), leq)
    ensures forall x :: x in SortBy(s, leq) <==> x in s
  {
    if s != [] {
      SortBySorted(s[1..], leq);
      InsertSorted(s[0], SortBy(s[1..], leq), leq);
    }
    SameElements(SortBy(s, leq), s);
  }

  ghost predicate Injective<T>(s: seq<T>) {
    forall i, j :: 0 <= i < j < |s| ==> s[i] != s[j]
  }

  lemma {:induction false} InjectiveCount<T>(s: seq<T>, x: T)
    requires Injective(s)
    ensures multiset(s)[x] <= 1
  {
    if s != [] {
      InjectiveCount(s[1..], x);
      assert s == [s[0]] + s[1..];
      assert s[0] !in s[1..];
    }
  }

  /** A rearrangement of a list without repetitions has none either. */
  lemma InjectiveRearranged<T(!new)>(s: seq<T>, t: seq<T>)
    requires Injective(s) && multiset(s) == multiset(t)
    ensures Injective(t)
  {
    forall i, j | 0 <= i < j < |t| ensures t[i] != t[j] {
      InjectiveCount(s, t[i]);
      assert t == t[..j] + t[j..];
      assert t[i] in t[..j] && t[j] in t[j..];
    }
  }

  function Indices(n: nat): (r: seq<nat>)
    ensures |r| == n && forall i :: 0 <= i < n ==> r[i] == i
  {
    seq(n, i => i)
  }

  /** `t` lists the elements of `s` in the order given by their indices. */
  ghost predicate Permutes<T>(s: seq<T>, order: seq<nat>, t: seq<T>) {
    && |order| == |s| == |t| && Injective(order)
    && (forall k :: 0 <= k < |order| ==> order[k] < |s| && t[k] == s[order[k]])
    && (forall i :: 0 <= i < |s| ==> i in order)
  }

  lemma {:induction false} PermutedElements<T>(s: seq<T>, order: seq<nat>, t: seq<T>)
    requires Permutes(s, order, t)
    ensures multiset(t) == multiset(s)
    decreases |s|
  {
    if s != [] {
      var n := |s| - 1;
      assert n in order;
      var k: nat :| k < |order| && order[k] == n;
      PermutesRest(s, order, t, k);
      assert s[..n] + s[n + 1..] == s[..n];
      PermutedElements(s[..n], order[..k] + order[k + 1..], t[..k] + t[k + 1..]);
      WithoutElement(s, n);
      WithoutElement(t, k);
    }
  }

  lemma WithoutElement<T>(s: seq<T>, k: nat)
    requires k < |s|
    ensures multiset(s) == multiset(s[..k] + s[k + 1..]) + multiset{s[k]}
  {
    assert s == s[..k] + [s[k]] + s[k + 1..];
  }

  /** Without its last element the list is still permuted. */
  lemma PermutesRest<T>(s: seq<T>, order: seq<nat>, t: seq<T>, k: nat)
    requires Permutes(s, order, t) && k < |s| && order[k] == |s| - 1
    ensures Permutes(s[..|s| - 1], order[..k] + order[k + 1..], t[..k] + t[k + 1..])
  {
    var o := order[..k] + order[k + 1..];
    assert forall m :: 0 <= m < |o| ==> o[m] == order[if m < k then m else m + 1] && o[m] != order[k];
    forall i | 0 <= i < |s| - 1 ensures i in o {
      assert i in order;
      var m :| 0 <= m < |order| && order[m] == i;
      assert o[if m < k then m else m - 1] == i;
    }
  }

  /** The places of an element decide how often it occurs. */
  lemma {:induction false} SamePlaces<T>(s: seq<T>, t: seq<T>, x: T)
    requires |s| == |t| && forall i :: 0 <= i < |s| ==> (s[i] == x <==> t[i] == x)
    ensures multiset(s)[x] == multiset(t)[x]
  {
    if s != [] {
      assert s == [s[0]] + s[1..] && t == [t[0]] + t[1..];
      SamePlaces(s[1..], t[1..], x);
    }
  }

  lemma OnePlace<T>(s: seq<T>, k: nat)
    requires k < |s| && forall i :: 0 <= i < |s| && s[i] == s[k] ==> i == k
    ensures multiset(s)[s[k]] == 1
  {
    assert s == s[..k] + [s[k]] + s[k + 1..];
    assert s[k] !in s[..k] && s[k] !in s[k + 1..];
  }

  /** Sorting is stable: where the order does not decide, indices stay in order. */
  ghost predicate TiesInOrder(s: seq<nat>, leq: (nat, nat) -> bool) {
    forall k, m :: 0 <= k < m < |s| && leq(s[m], s[k]) ==> s[k] < s[m]
  }

  lemma {:induction false} InsertStable(x: nat, s: seq<nat>, leq: (nat, nat) -> bool)
    requires TiesInOrder(s, leq) && forall k :: 0 <= k < |s| ==> x < s[k]
    ensures TiesInOrder(Insert(x, s, leq), leq)
  {
    if s != [] && !leq(x, s[0]) {
      InsertStable(x, s[1..], leq);
      var tail := Insert(x, s[1..], leq);
      forall m | 0 <= m < |tail| && leq(tail[m], s[0]) ensures s[0] < tail[m] {
        assert tail[m] in multiset(tail);
        assert tail[m] == x || tail[m] in s[1..];
      }
    }
  }

  lemma {:induction false} SortByStable(s: seq<nat>, leq: (nat, nat) -> bool)
    requires forall k, m :: 0 <= k < m < |s| ==> s[k] < s[m]
    ensures TiesInOrder(SortBy(s, leq), leq)
  {
    if s != [] {
      SortByStable(s[1..], leq);
      var rest := SortBy(s[1..], leq);
      SameElements(rest, s[1..]);
      forall k | 0 <= k < |rest| ensures s[0] < rest[k] { assert rest[k] in s[1..]; }
      InsertStable(s[0], rest, leq);
    }
  }

  /** The keys of a `BTreeMap`, or the elements of a `BTreeSet`, in order. */
  method SortedElements<T(==, !new)>(elements: set<T>, leq: (T, T) -> bool) returns (r: seq<T>)
    requires TotalPreorder(leq)
    ensures Sorted(r, leq)
    ensures multiset(r) == multiset(elements)
    ensures forall x :: x in r <==> x in elements
    ensures |r| == |elements|
  {
    var rest, picked: seq<T> := elements, [];
    while rest != {}
      invariant multiset(picked) + multiset(rest) == multiset(elements)
      decreases rest
    {
      var x :| x in rest;
      picked, rest := picked + [x], rest - {x};
    }
    SortBySorted(picked, leq);
    r := SortBy(picked, leq);
    assert |multiset(r)| == |r| && |multiset(elements)| == |elements|;
    assert forall x :: x in r <==> x in multiset(r);
  }

  // ----- listings of sets -----

  /** `dedup` on a sorted list. */
  function Dedup<T(==, !new)>(s: seq<T>): (r: seq<T>)
    ensures forall x :: x in r <==> x in s
    ensures s != [] ==> r != [] && r[0] == s[0]
  {
    if |s| <= 1 then s
    else if s[0] == s[1] then Dedup(s[1..])
    else
      var rest := Dedup(s[1..]);
      [s[0]] + rest
  }

  /** The elements of a set, each once, in order. */
  ghost predicate IsListing<T(!new)>(s: seq<T>, leq: (T, T) -> bool, elements: set<T>) {
    && (forall x :: x in s <==> x in elements)
    && forall i, j :: 0 <= i < j < |s| ==> leq(s[i], s[j]) && s[i] != s[j]
  }

  lemma {:induction false} DedupOfSorted<T(!new)>(s: seq<T>, leq: (T, T) -> bool)
    requires TotalPreorder(leq) && Antisymmetric(leq) && Sorted(s, leq)
    ensures forall i, j :: 0 <= i < j < |Dedup(s)| ==> leq(Dedup(s)[i], Dedup(s)[j]) && Dedup(s)[i] != Dedup(s)[j]
  {
    if |s| > 1 {
      DedupOfSorted(s[1..], leq);
      if s[0] != s[1] {
        var rest := Dedup(s[1..]);
        forall j | 0 <= j < |rest|
          ensures leq(s[0], rest[j]) && s[0] != rest[j]
        {
          assert rest[j] in s[1..];
          assert leq(s[0], s[1]) && leq(s[1], rest[j]) by { if j > 0 { assert leq(rest[0], rest[j]); } }
        }
      }
    }
  }

  function SortDedup<T(==, !new)>(s: seq<T>, leq: (T, T) -> bool): seq<T> {
    Dedup(SortBy(s, leq))
  }

  lemma SortDedupLists<T(!new)>(s: seq<T>, leq: (T, T) -> bool, elements: set<T>)
    requires TotalPreorder(leq) && Antisymmetric(leq) && forall x :: x in s <==> x in elements
    ensures IsListing(SortDedup(s, leq), leq, elements)
  {
    SortBySorted(s, leq);
    DedupOfSorted(SortBy(s, leq), leq);
  }

  /** There is only one such listing, and it has as many entries as the set. */
  lemma {:induction false} ListingIsUnique<T(!new)>(s: seq<T>, t: seq<T>, leq: (T, T) -> bool, elements: set<T>)
    requires Antisymmetric(leq) && IsListing(s, leq, elements) && IsListing(t, leq, elements)
    ensures s == t && |s| == |elements|
    decreases |s|
  {
    if s == [] {
      SomeElement(t);
      assert elements == {};
    } else {
      assert s[0] in s && s[0] in t;
      FirstIsLeast(s, leq, elements, t[0]);
      FirstIsLeast(t, leq, elements, s[0]);
      RestListing(s, leq, elements);
      RestListing(t, leq, elements);
      ListingIsUnique(s[1..], t[1..], leq, elements - {s[0]});
    }
  }

  lemma SomeElement<T>(s: seq<T>)
    ensures s != [] ==> exists x :: x in s
  {
    if s != [] { assert s[0] in s; }
  }

  lemma FirstIsLeast<T(!new)>(s: seq<T>, leq: (T, T) -> bool, elements: set<T>, x: T)
    requires s != [] && IsListing(s, leq, elements) && x in elements
    ensures x == s[0] || leq(s[0], x)
  {
    var i :| 0 <= i < |s| && s[i] == x;
  }

  lemma RestListing<T(!new)>(s: seq<T>, leq: (T, T) -> bool, elements: set<T>)
    requires s != [] && IsListing(s, leq, elements)
    ensures IsListing(s[1..], leq, elements - {s[0]}) && s[0] in elements
  {
    assert s[0] in s;
    forall x ensures x in s[1..] <==> x in elements - {s[0]} {
      if x in s && x != s[0] {
        var i :| 0 <= i < |s| && s[i] == x;
        assert s[1..][i - 1] == x;
      }
      if x in s[1..] {
        var i :| 0 <= i < |s[1..]| && s[1..][i] == x;
        assert s[i + 1] == x;
      }
    }
  }

  lemma DistinctElements<T>(s: seq<T>, elements: set<T>)
    requires multiset(s) == multiset(elements)
    ensures forall i, j :: 0 <= i < j < |s| ==> s[i] != s[j]
  {
    forall i, j | 0 <= i < j < |s| ensures s[i] != s[j] {
      assert s == s[..j] + s[j..];
      assert s[i] in s[..j] && s[j] in s[j..];
      assert multiset(s)[s[i]] <= 1;
    }
  }

  // ----- filtering -----

  function Filter<T(!new)>(s: seq<T>, keep: T -> bool): (r: seq<T>)
    ensures forall x :: x in r <==> x in s && keep(x)
  {
    if s == [] then []
    else
      assert s == [s[0]] + s[1..];
      if keep(s[0]) then [s[0]] + Filter(s[1..], keep) else Filter(s[1..], keep)
  }

  /** Selecting a leading part of the list. */
  lemma {:induction false} FilterMore<T(!new)>(s: seq<T>, x: T, keep: T -> bool)
    ensures Filter(s + [x], keep) == if keep(x) then Filter(s, keep) + [x] else Filter(s, keep)
  {
    if s == [] {
      assert s + [x] == [x] && [x][1..] == [];
    } else {
      assert (s + [x])[1..] == s[1..] + [x];
      FilterMore(s[1..], x, keep);
    }
  }

  lemma {:induction false} FilterCount<T(!new)>(s: seq<T>, keep: T -> bool, x: T)
    ensures multiset(Filter(s, keep))[x] == if keep(x) then multiset(s)[x] else 0
  {
    if s != [] {
      assert s == [s[0]] + s[1..];
      FilterCount(s[1..], keep, x);
    }
  }

  lemma FilterRearranged<T(!new)>(s: seq<T>, t: seq<T>, keep: T -> bool)
    requires multiset(s) == multiset(t)
    ensures multiset(Filter(s, keep)) == multiset(Filter(t, keep))
  {
    forall x ensures multiset(Filter(s, keep))[x] == multiset(Filter(t, keep))[x] {
      FilterCount(s, keep, x);
      FilterCount(t, keep, x);
    }
  }

  lemma {:induction false} FilterPrefix<T(!new)>(s: seq<T>, cut: nat, keep: T -> bool)
    requires cut <= |s|
    requires forall i :: 0 <= i < cut ==> keep(s[i])
    requires forall i :: cut <= i < |s| ==> !keep(s[i])
    ensures Filter(s, keep) == s[..cut]
  {
    if s != [] {
      FilterPrefix(s[1..], if cut == 0 then 0 else cut - 1, keep);
      assert cut > 0 ==> s[..cut] == [s[0]] + s[1..][..cut - 1];
    }
  }

  /** Selecting a slice of the list. */
  lemma {:induction false} FilterRange<T(!new)>(s: seq<T>, lo: nat, hi: nat, keep: T -> bool)
    requires lo <= hi <= |s|
    requires forall i :: 0 <= i < |s| ==> (keep(s[i]) <==> lo <= i < hi)
    ensures Filter(s, keep) == s[lo..hi]
  {
    if s != [] {
      var l, h := if lo == 0 then 0 else lo - 1, if hi == 0 then 0 else hi - 1;
      FilterRange(s[1..], l, h, keep);
      if lo > 0 {
        assert s[1..][l..h] == s[lo..hi];
      } else if hi > 0 {
        assert s[0..hi] == [s[0]] + s[1..][0..h];
      }
    }
  }

  lemma {:induction false} FilterTwice<T(!new)>(s: seq<T>, p: T -> bool, q: T -> bool, both: T -> bool)
    requires forall x :: both(x) <==> p(x) && q(x)
    ensures Filter(Filter(s, p), q) == Filter(s, both)
  {
    if s != [] { FilterTwice(s[1..], p, q, both); }
  }

  /** An element that precedes a list also precedes what is selected from it. */
  lemma {:induction false} FilterInsertHead<T(!new)>(x: T, s: seq<T>, leq: (T, T) -> bool, keep: T -> bool)
    requires forall i :: 0 <= i < |s| ==> leq(x, s[i])
    ensures Insert(x, Filter(s, keep), leq) == [x] + Filter(s, keep)
  {
    if s != [] && !keep(s[0]) {
      FilterInsertHead(x, s[1..], leq, keep);
    }
  }

  lemma {:induction false} FilterInsert<T(!new)>(x: T, s: seq<T>, leq: (T, T) -> bool, keep: T -> bool)
    requires TotalPreorder(leq) && Sorted(s, leq)
    ensures Filter(Insert(x, s, leq), keep)
         == if keep(x) then Insert(x, Filter(s, keep), leq) else Filter(s, keep)
  {
    if s == [] || leq(x, s[0]) {
      assert ([x] + s)[1..] == s;
      FilterInsertHead(x, s, leq, keep);
    } else {
      var tail := Insert(x, s[1..], leq);
      assert ([s[0]] + tail)[1..] == tail;
      FilterInsert(x, s[1..], leq, keep);
      var rest := Filter(s[1..], keep);
      assert ([s[0]] + rest)[1..] == rest;
    }
  }

  /** Stable sorting commutes with selection. */
  lemma {:induction false} FilterSort<T(!new)>(s: seq<T>, leq: (T, T) -> bool, keep: T -> bool)
    requires TotalPreorder(leq)
    ensures Filter(SortBy(s, leq), keep) == SortBy(Filter(s, keep), leq)
  {
    if s != [] {
      FilterSort(s[1..], leq, keep);
      SortBySorted(s[1..], leq);
      FilterInsert(s[0], SortBy(s[1..], leq), leq, keep);
      var rest := Filter(s[1..], keep);
      assert ([s[0]] + rest)[1..] == rest;
    }
  }

  /** `find`. */
  function Find<T>(s: seq<T>, test: T -> bool): (r: Option<T>)
    ensures r.Some? ==> r.value in s && test(r.value)
    ensures r.None? <==> forall x :: x in s ==> !test(x)
  {
    if s == [] then None else if test(s[0]) then Some(s[0]) else Find(s[1..], test)
  }

  lemma {:induction false} FindMore<T>(s: seq<T>, x: T, test: T -> bool)
    ensures Find(s + [x], test) == if Find(s, test).Some? then Find(s, test) else if test(x) then Some(x) else None
  {
    if s == [] {
      assert s + [x] == [x] && [x][1..] == [];
    } else {
      assert (s + [x])[1..] == s[1..] + [x];
      FindMore(s[1..], x, test);
    }
  }

  // ----- partition_point -----

  ghost predicate Partitioned<T>(s: seq<T>, pred: T -> bool) {
    forall i, j :: 0 <= i < j < |s| && pred(s[j]) ==> pred(s[i])
  }

  function PartitionBetween<T>(s: seq<T>, pred: T -> bool, lo: nat, hi: nat): (r: nat)
    requires lo <= hi <= |s|
    requires Partitioned(s, pred)
    requires forall i :: 0 <= i < lo ==> pred(s[i])
    requires forall i :: hi <= i < |s| ==> !pred(s[i])
    ensures r <= |s|
    ensures forall i :: 0 <= i < r ==> pred(s[i])
    ensures forall i :: r <= i < |s| ==> !pred(s[i])
    decreases hi - lo
  {
    if lo == hi then lo
    else
      var mid := (lo + hi) / 2;
      if pred(s[mid]) then PartitionBetween(s, pred, mid + 1, hi)
      else PartitionBetween(s, pred, lo, mid)
  }

  /** Rust's binary search for the number of leading elements that satisfy a predicate. */
  function PartitionPoint<T>(s: seq<T>, pred: T -> bool): (r: nat)
    requires Partitioned(s, pred)
    ensures r <= |s|
    ensures forall i :: 0 <= i < r ==> pred(s[i])
    ensures forall i :: r <= i < |s| ==> !pred(s[i])
  {
    PartitionBetween(s, pred, 0, |s|)
  }

  lemma PartitionPointUnique<T>(s: seq<T>, pred: T -> bool, r: nat)
    requires Partitioned(s, pred) && r <= |s|
    requires forall i :: 0 <= i < r ==> pred(s[i])
    requires forall i :: r <= i < |s| ==> !pred(s[i])
    ensures PartitionPoint(s, pred) == r
  {
    var p := PartitionPoint(s, pred);
    assert r < |s| ==> !pred(s[r]);
    assert p < |s| ==> !pred(s[p]);
  }
}
