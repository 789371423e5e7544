/** Sequence counterparts of the iterator adaptors the voxel core chains
    together: integer ranges, `cartesian_product`, `filter`, the stable
    `sorted_by`, and collecting into an insertion-ordered set (`IndexSet`). */
module Itertools {

  /** No element occurs twice. */
  predicate NoDup<T(==)>(s: seq<T>) {
    forall i, j :: 0 <= i < j < |s| ==> s[i] != s[j]
  }

  /** Concatenation is associative (stated once so that callers need not
      rediscover it element by element). */
  lemma ConcatAssoc<T>(a: seq<T>, b: seq<T>, c: seq<T>)
    ensures (a + b) + c == a + (b + c)
  {
  }

  lemma NoDupCons<T>(a: T, s: seq<T>)
    ensures NoDup([a] + s) <==> a !in s && NoDup(s)
  {
    var t := [a] + s;
    assert forall i :: 0 <= i < |s| ==> t[i + 1] == s[i];
    if a in s {
      var k :| 0 <= k < |s| && s[k] == a;
      assert t[0] == t[k + 1];
    }
  }

  lemma NoDupAppend<T>(a: seq<T>, b: seq<T>)
    requires NoDup(a) && NoDup(b)
    requires forall x :: x in a ==> x !in b
    ensures NoDup(a + b)
  {
    var t := a + b;
    forall i, j | 0 <= i < j < |t| ensures t[i] != t[j] {
      if j >= |a| && i < |a| {
        assert t[i] in a && t[j] == b[j - |a|];
      } else if i >= |a| {
        assert t[i] == b[i - |a|] && t[j] == b[j - |a|];
      }
    }
  }

  /** The integer range `lo..hi`, empty when `hi <= lo`. */
  function Range(lo: int, hi: int): (r: seq<int>)
    ensures |r| == if lo <= hi then hi - lo else 0
    ensures forall i :: 0 <= i < |r| ==> r[i] == lo + i
  {
    seq(if lo <= hi then hi - lo else 0, i => lo + i)
  }

  lemma RangeContains(lo: int, hi: int, v: int)
    ensures v in Range(lo, hi) <==> lo <= v < hi
  {
    if lo <= v < hi {
      assert Range(lo, hi)[v - lo] == v;
    }
  }

  /** Every element of `ys` paired with one `x`, in the order of `ys`. */
  function Pairs<A, B>(x: A, ys: seq<B>): (r: seq<(A, B)>)
    ensures |r| == |ys|
    ensures forall j :: 0 <= j < |ys| ==> r[j] == (x, ys[j])
  {
    seq(|ys|, j requires 0 <= j < |ys| => (x, ys[j]))
  }

  /** `xs.cartesian_product(ys)`: all pairs, the element of `xs` varying
      slowest. */
  function CartesianProduct<A, B>(xs: seq<A>, ys: seq<B>): (r: seq<(A, B)>)
    ensures |xs| == 0 || |ys| == 0 ==> |r| == 0
  {
    if xs == [] then []
    else Pairs(xs[0], ys) + CartesianProduct(xs[1..], ys)
  }

  /** One pair per element of `xs` and element of `ys` (stated apart from
      the function so that the product of lengths stays out of other
      proofs). */
  lemma {:induction false} CartesianLength<A, B>(xs: seq<A>, ys: seq<B>)
    ensures |CartesianProduct(xs, ys)| == |xs| * |ys|
  {
    if xs != [] {
      CartesianLength(xs[1..], ys);
      assert |xs| * |ys| == |ys| + (|xs| - 1) * |ys|;
    }
  }

  lemma {:induction false} CartesianAt<A, B>(xs: seq<A>, ys: seq<B>, i: nat, j: nat)
    requires i < |xs| && j < |ys|
    ensures |CartesianProduct(xs, ys)| == |xs| * |ys|
    ensures i * |ys| + j < |xs| * |ys|
    ensures CartesianProduct(xs, ys)[i * |ys| + j] == (xs[i], ys[j])
  {
    CartesianLength(xs, ys);
    if i > 0 {
      CartesianAt(xs[1..], ys, i - 1, j);
      assert i * |ys| + j == (i - 1) * |ys| + j + |ys|;
      assert |xs| * |ys| == |ys| + (|xs| - 1) * |ys|;
    }
  }

  lemma {:induction false} CartesianContains<A, B>(xs: seq<A>, ys: seq<B>, a: A, b: B)
    ensures (a, b) in CartesianProduct(xs, ys) <==> a in xs && b in ys
  {
    if xs != [] {
      CartesianContains(xs[1..], ys, a, b);
      var head := Pairs(xs[0], ys);
      if (a, b) in head {
        var j :| 0 <= j < |head| && head[j] == (a, b);
        assert ys[j] == b;
      }
      if a == xs[0] && b in ys {
        var j :| 0 <= j < |ys| && ys[j] == b;
        assert head[j] == (a, b);
      }
      assert xs == [xs[0]] + xs[1..];
    }
  }

  lemma {:induction false} CartesianNoDup<A, B>(xs: seq<A>, ys: seq<B>)
    requires NoDup(xs) && NoDup(ys)
    ensures NoDup(CartesianProduct(xs, ys))
  {
    if xs != [] {
      assert xs == [xs[0]] + xs[1..];
      NoDupCons(xs[0], xs[1..]);
      CartesianNoDup(xs[1..], ys);
      var head := Pairs(xs[0], ys);
      forall p | p in head ensures p !in CartesianProduct(xs[1..], ys) {
        CartesianContains(xs[1..], ys, p.0, p.1);
      }
      NoDupAppend(head, CartesianProduct(xs[1..], ys));
    }
  }

  /** The elements of `s` that satisfy `keep`, in their order in `s`. */
  function Filter<T>(s: seq<T>, keep: T -> bool): (r: seq<T>)
    ensures |r| <= |s|
    ensures forall i :: 0 <= i < |r| ==> r[i] in s && keep(r[i])
    ensures forall i :: 0 <= i < |s| && keep(s[i]) ==> s[i] in r
  {
    if s == [] then []
    else
      assert s == [s[0]] + s[1..];
      (if keep(s[0]) then [s[0]] else []) + Filter(s[1..], keep)
  }

  lemma {:induction false} FilterNoDup<T>(s: seq<T>, keep: T -> bool)
    requires NoDup(s)
    ensures NoDup(Filter(s, keep))
  {
    if s != [] {
      assert s == [s[0]] + s[1..];
      NoDupCons(s[0], s[1..]);
      FilterNoDup(s[1..], keep);
      if keep(s[0]) {
        NoDupCons(s[0], Filter(s[1..], keep));
      }
    }
  }

  lemma {:induction false} FilterAll<T>(s: seq<T>, keep: T -> bool)
    requires forall x :: x in s ==> keep(x)
    ensures Filter(s, keep) == s
  {
    if s != [] {
      assert s == [s[0]] + s[1..];
      FilterAll(s[1..], keep);
    }
  }

  lemma {:induction false} FilterNone<T>(s: seq<T>, keep: T -> bool)
    requires forall x :: x in s ==> !keep(x)
    ensures Filter(s, keep) == []
  {
    if s != [] {
      assert s == [s[0]] + s[1..];
      FilterNone(s[1..], keep);
    }
  }

  /** Two filters may be applied in either order. */
  lemma {:induction false} FiltersCommute<T>(s: seq<T>, p: T -> bool, q: T -> bool)
    ensures Filter(Filter(s, p), q) == Filter(Filter(s, q), p)
  {
    if s != [] {
      FiltersCommute(s[1..], p, q);
      var fp, fq := Filter(s[1..], p), Filter(s[1..], q);
      if p(s[0]) {
        assert Filter(s, p) == [s[0]] + fp;
        assert Filter(s, p)[1..] == fp;
      } else {
        assert Filter(s, p) == fp;
      }
      if q(s[0]) {
        assert Filter(s, q) == [s[0]] + fq;
        assert Filter(s, q)[1..] == fq;
      } else {
        assert Filter(s, q) == fq;
      }
    }
  }

  /** Membership of a filtered sequence. */
  lemma FilterContains<T>(s: seq<T>, keep: T -> bool, x: T)
    ensures x in Filter(s, keep) <==> x in s && keep(x)
  {
    if x in s && keep(x) {
      var i :| 0 <= i < |s| && s[i] == x;
    }
  }

  /** The test "the key is `d`". */
  function HasKey<T>(key: T -> int, d: int): T -> bool {
    x => key(x) == d
  }

  /** The elements of `s` whose key is `d`, in their order in `s`. */
  function KeyClass<T>(s: seq<T>, key: T -> int, d: int): seq<T> {
    Filter(s, HasKey(key, d))
  }

  /** Keys never decrease along `s`. */
  predicate SortedBy<T>(s: seq<T>, key: T -> int) {
    forall i, j :: 0 <= i < j < |s| ==> key(s[i]) <= key(s[j])
  }

  /** The first element of a sorted sequence has the least key. */
  lemma SortedFirstIsLeast<T>(s: seq<T>, key: T -> int, x: T)
    requires SortedBy(s, key) && x in s
    ensures |s| > 0 && key(s[0]) <= key(x)
  {
    var j :| 0 <= j < |s| && s[j] == x;
    if j > 0 {
      assert key(s[0]) <= key(s[j]);
    }
  }

  /** Puts `x` in front of the first element whose key is not smaller. */
  function Insert<T>(x: T, s: seq<T>, key: T -> int): (r: seq<T>)
    ensures multiset(r) == multiset(s) + multiset{x}
  {
    if s == [] || key(x) <= key(s[0]) then [x] + s
    else
      assert s == [s[0]] + s[1..];
      [s[0]] + Insert(x, s[1..], key)
  }

  /** `sorted_by` on the key's order. The sort is stable: elements with
      equal keys keep their order in `s`. */
  function SortBy<T>(s: seq<T>, key: T -> int): (r: seq<T>)
    ensures multiset(r) == multiset(s)
  {
    if s == [] then []
    else
      assert s == [s[0]] + s[1..];
      Insert(s[0], SortBy(s[1..], key), key)
  }

  /** `Insert` adds `x` and nothing else. */
  lemma InsertMembers<T>(x: T, s: seq<T>, key: T -> int, e: T)
    requires e in Insert(x, s, key)
    ensures e == x || e in s
  {
    assert e in multiset(Insert(x, s, key));
  }

  /** A sorted sequence stays sorted behind an element whose key is at
      most all of its keys. */
  lemma ConsSorted<T>(a: T, t: seq<T>, key: T -> int)
    requires SortedBy(t, key) && forall e :: e in t ==> key(a) <= key(e)
    ensures SortedBy([a] + t, key)
  {
    var r := [a] + t;
    forall i, j | 0 <= i < j < |r| ensures key(r[i]) <= key(r[j]) {
      if i == 0 {
        assert r[j] == t[j - 1] && r[j] in t;
      } else {
        assert r[i] == t[i - 1] && r[j] == t[j - 1];
      }
    }
  }

  lemma {:induction false} InsertSorted<T>(x: T, s: seq<T>, key: T -> int)
    requires SortedBy(s, key)
    ensures SortedBy(Insert(x, s, key), key)
  {
    if s == [] || key(x) <= key(s[0]) {
      forall e | e in s ensures key(x) <= key(e) {
        var k :| 0 <= k < |s| && s[k] == e;
        assert key(s[0]) <= key(s[k]) || k == 0;
      }
      ConsSorted(x, s, key);
    } else {
      InsertSorted(x, s[1..], key);
      var t := Insert(x, s[1..], key);
      forall e | e in t ensures key(s[0]) <= key(e) {
        InsertMembers(x, s[1..], key, e);
        if e != x {
          var k :| 0 <= k < |s[1..]| && s[1..][k] == e;
          assert s[k + 1] == e;
        }
      }
      ConsSorted(s[0], t, key);
    }
  }

  lemma {:induction false} SortBySorted<T>(s: seq<T>, key: T -> int)
    ensures SortedBy(SortBy(s, key), key)
  {
    if s != [] {
      SortBySorted(s[1..], key);
      InsertSorted(s[0], SortBy(s[1..], key), key);
    }
  }

  /** Filtering a sequence with a head: the head if it is kept, then the
      rest filtered. */
  lemma FilterCons<T>(a: T, s: seq<T>, keep: T -> bool)
    ensures Filter([a] + s, keep) == (if keep(a) then [a] else []) + Filter(s, keep)
  {
    assert ([a] + s)[1..] == s;
  }

  lemma {:induction false} InsertKeyClass<T>(x: T, s: seq<T>, key: T -> int, d: int)
    ensures KeyClass(Insert(x, s, key), key, d)
         == (if key(x) == d then [x] else []) + KeyClass(s, key, d)
  {
    var r := Insert(x, s, key);
    var hk := HasKey(key, d);
    if s == [] || key(x) <= key(s[0]) {
      assert r == [x] + s;
      FilterCons(x, s, hk);
    } else {
      InsertKeyClass(x, s[1..], key, d);
      var t := Insert(x, s[1..], key);
      assert r == [s[0]] + t;
      assert s == [s[0]] + s[1..];
      FilterCons(s[0], t, hk);
      FilterCons(s[0], s[1..], hk);
      var a, b := if hk(s[0]) then [s[0]] else [], if hk(x) then [x] else [];
      var k := KeyClass(s[1..], key, d);
      if a == [] {
        assert a + (b + k) == b + k && a + k == k;
      } else {
        assert b == [];
        assert b + k == k && b + (a + k) == a + k;
      }
    }
  }

  /** The sort is stable: restricted to any one key, the output lists the
      same elements in the same order as the input. */
  lemma {:induction false} SortByStable<T>(s: seq<T>, key: T -> int, d: int)
    ensures KeyClass(SortBy(s, key), key, d) == KeyClass(s, key, d)
  {
    if s != [] {
      SortByStable(s[1..], key, d);
      InsertKeyClass(s[0], SortBy(s[1..], key), key, d);
      assert s == [s[0]] + s[1..];
    }
  }

  lemma {:induction false} InsertNoDup<T>(x: T, s: seq<T>, key: T -> int)
    requires NoDup(s) && x !in s
    ensures NoDup(Insert(x, s, key))
  {
    if s == [] || key(x) <= key(s[0]) {
      NoDupCons(x, s);
    } else {
      assert s == [s[0]] + s[1..];
      NoDupCons(s[0], s[1..]);
      InsertNoDup(x, s[1..], key);
      var t := Insert(x, s[1..], key);
      assert s[0] !in multiset(t);
      NoDupCons(s[0], t);
    }
  }

  lemma {:induction false} SortByNoDup<T>(s: seq<T>, key: T -> int)
    requires NoDup(s)
    ensures NoDup(SortBy(s, key))
  {
    if s != [] {
      assert s == [s[0]] + s[1..];
      NoDupCons(s[0], s[1..]);
      SortByNoDup(s[1..], key);
      assert s[0] !in multiset(SortBy(s[1..], key));
      InsertNoDup(s[0], SortBy(s[1..], key), key);
    }
  }

  /** Collecting into an `IndexSet`: the first occurrence of each element,
      in order. */
  function Dedup<T(==)>(s: seq<T>): (r: seq<T>)
    ensures NoDup(r)
    ensures forall i :: 0 <= i < |r| ==> r[i] in s
    ensures forall i :: 0 <= i < |s| ==> s[i] in r
  {
    if s == [] then []
    else
      var init := s[..|s| - 1];
      var last := s[|s| - 1];
      assert s == init + [last];
      var r := Dedup(init);
      if last in r then r
      else
        NoDupAppend(r, [last]);
        r + [last]
  }

  lemma {:induction false} DedupOfNoDup<T>(s: seq<T>)
    requires NoDup(s)
    ensures Dedup(s) == s
  {
    if s != [] {
      var init := s[..|s| - 1];
      assert NoDup(init);
      DedupOfNoDup(init);
      assert s == init + [s[|s| - 1]];
    }
  }
}
