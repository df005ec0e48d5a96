/** The JavaScript array built-ins the components rely on, stated over `seq`:
    `filter`, `slice(0, n)`, `Array.from(new Set(…))` and counting. */
module Seqs {

  /** `s.filter(p)`: the elements that pass `p`, in their original order. */
  function Filter<T>(s: seq<T>, p: T -> bool): (r: seq<T>)
    ensures |r| <= |s|
  {
    if s == [] then []
    else if p(s[0]) then [s[0]] + Filter(s[1..], p)
    else Filter(s[1..], p)
  }

  /** Every element kept passes the test, and when every element passes, nothing is
      dropped. */
  lemma {:induction false} FilterPasses<T>(s: seq<T>, p: T -> bool)
    ensures forall k :: 0 <= k < |Filter(s, p)| ==> p(Filter(s, p)[k])
    ensures (forall k :: 0 <= k < |s| ==> p(s[k])) ==> Filter(s, p) == s
  {
    if s != [] {
      FilterPasses(s[1..], p);
      var rest := Filter(s[1..], p);
      if p(s[0]) {
        forall k | 0 <= k < |Filter(s, p)| ensures p(Filter(s, p)[k]) {
          if k > 0 { assert Filter(s, p)[k] == rest[k - 1]; }
        }
      }
      if forall k :: 0 <= k < |s| ==> p(s[k]) {
        assert forall k :: 0 <= k < |s[1..]| ==> p(s[1..][k]) by {
          forall k | 0 <= k < |s[1..]| ensures p(s[1..][k]) { assert s[1..][k] == s[k + 1]; }
        }
        assert [s[0]] + s[1..] == s;
      }
    }
  }

  /** An element is kept exactly when it is in `s` and passes `p`. */
  lemma {:induction false} FilterMembers<T>(s: seq<T>, p: T -> bool, x: T)
    ensures x in Filter(s, p) <==> x in s && p(x)
  {
    if s != [] {
      FilterMembers(s[1..], p, x);
      assert s == [s[0]] + s[1..];
    }
  }

  /** One step of `Filter` on a non-empty sequence. */
  lemma FilterUnfold<T>(x: T, t: seq<T>, p: T -> bool)
    ensures Filter([x] + t, p) == (if p(x) then [x] else []) + Filter(t, p)
  {
    assert ([x] + t)[0] == x;
    assert ([x] + t)[1..] == t;
  }

  /** Filtering distributes over concatenation, so it keeps the relative order. */
  lemma {:induction false} FilterAppend<T>(a: seq<T>, b: seq<T>, p: T -> bool)
    ensures Filter(a + b, p) == Filter(a, p) + Filter(b, p)
  {
    if a == [] {
      assert a + b == b;
    } else {
      var x, t := a[0], a[1..];
      var h := if p(x) then [x] else [];
      calc {
        Filter(a + b, p);
      == { assert a + b == [x] + (t + b); FilterUnfold(x, t + b, p); }
        h + Filter(t + b, p);
      == { FilterAppend(t, b, p); }
        h + (Filter(t, p) + Filter(b, p));
      ==
        (h + Filter(t, p)) + Filter(b, p);
      == { assert a == [x] + t; FilterUnfold(x, t, p); }
        Filter(a, p) + Filter(b, p);
      }
    }
  }

  /** Filtering twice by the same test changes nothing more. */
  lemma FilterIdempotent<T>(s: seq<T>, p: T -> bool)
    ensures Filter(Filter(s, p), p) == Filter(s, p)
  {
    FilterPasses(s, p);
    FilterPasses(Filter(s, p), p);
  }

  /** `s.slice(0, n)`. */
  function Take<T>(s: seq<T>, n: nat): (r: seq<T>)
    ensures |r| == if n < |s| then n else |s|
    ensures r == s[..|r|]
  {
    if n < |s| then s[..n] else s
  }

  /** The number of elements of `s` that pass `p`; `s.filter(p).length`. */
  function CountIf<T>(s: seq<T>, p: T -> bool): (n: nat)
    ensures n == |Filter(s, p)|
    ensures n <= |s|
  {
    if s == [] then 0 else (if p(s[0]) then 1 else 0) + CountIf(s[1..], p)
  }

  /** No element occurs twice. */
  predicate Distinct<T(==)>(s: seq<T>) {
    forall i, j :: 0 <= i < j < |s| ==> s[i] != s[j]
  }

  /** Filtering keeps a sequence free of repetitions. */
  lemma {:induction false} FilterDistinct<T>(s: seq<T>, p: T -> bool)
    requires Distinct(s)
    ensures Distinct(Filter(s, p))
  {
    if s != [] {
      var t := s[1..];
      assert Distinct(t) by {
        forall i, j | 0 <= i < j < |t| ensures t[i] != t[j] { assert t[i] == s[i + 1] && t[j] == s[j + 1]; }
      }
      FilterDistinct(t, p);
      if p(s[0]) {
        FilterMembers(t, p, s[0]);
        assert s[0] !in t by {
          forall k | 0 <= k < |t| ensures t[k] != s[0] { assert t[k] == s[k + 1]; }
        }
        var r := Filter(s, p);
        var ft := Filter(t, p);
        assert r == [s[0]] + ft;
        forall i, j | 0 <= i < j < |r| ensures r[i] != r[j] {
          assert r[j] == ft[j - 1];
          if i > 0 { assert r[i] == ft[i - 1]; } else { assert r[j] in ft; }
        }
      }
    }
  }

  /** Index of the first occurrence of `x` in `s`. */
  function FirstIndex<T(==)>(s: seq<T>, x: T): (k: nat)
    requires x in s
    ensures k < |s| && s[k] == x
    ensures forall j :: 0 <= j < k ==> s[j] != x
  {
    if s[0] == x then 0 else 1 + FirstIndex(s[1..], x)
  }

  /** `Array.from(new Set(s))`: every element of `s` once, in order of first appearance. */
  function Dedup<T(==,!new)>(s: seq<T>): (r: seq<T>)
    ensures Distinct(r)
    ensures forall x :: x in r <==> x in s
    ensures |r| <= |s|
  {
    if s == [] then []
    else
      var d := Dedup(s[..|s| - 1]);
      if s[|s| - 1] in d then d else d + [s[|s| - 1]]
  }

  /** The first index is the one index holding `x` with no `x` before it. */
  lemma {:induction false} FirstIndexUnique<T>(s: seq<T>, x: T, k: nat)
    requires k < |s| && s[k] == x
    requires forall j :: 0 <= j < k ==> s[j] != x
    ensures FirstIndex(s, x) == k
  {
    if k > 0 {
      assert s[1..][k - 1] == x;
      forall j | 0 <= j < k - 1 ensures s[1..][j] != x { assert s[1..][j] == s[j + 1]; }
      FirstIndexUnique(s[1..], x, k - 1);
    }
  }

  /** A prefix of `s` has the same first occurrences as `s` for the elements it holds. */
  lemma FirstIndexPrefix<T>(s: seq<T>, n: nat, x: T)
    requires n <= |s| && x in s[..n]
    ensures FirstIndex(s[..n], x) == FirstIndex(s, x)
  {
    var k := FirstIndex(s[..n], x);
    assert s[..n][k] == s[k];
    forall j | 0 <= j < k ensures s[j] != x { assert s[..n][j] == s[j]; }
    FirstIndexUnique(s, x, k);
  }

  /** Every element of `r` occurs in `s`, and `r` lists them in order of first occurrence. */
  ghost predicate FirstOrder<T>(s: seq<T>, r: seq<T>) {
    (forall i :: 0 <= i < |r| ==> r[i] in s)
    && forall i, j :: 0 <= i < j < |r| ==> FirstIndex(s, r[i]) < FirstIndex(s, r[j])
  }

  lemma FirstOrderPrefix<T>(s: seq<T>, n: nat, r: seq<T>)
    requires n <= |s| && FirstOrder(s[..n], r)
    ensures FirstOrder(s, r)
    ensures forall i :: 0 <= i < |r| ==> FirstIndex(s, r[i]) < n
  {
    forall i | 0 <= i < |r| ensures r[i] in s && FirstIndex(s, r[i]) == FirstIndex(s[..n], r[i]) {
      FirstIndexPrefix(s, n, r[i]);
    }
  }

  lemma FirstOrderAppend<T>(s: seq<T>, r: seq<T>)
    requires s != [] && FirstOrder(s, r)
    requires forall i :: 0 <= i < |r| ==> FirstIndex(s, r[i]) < |s| - 1
    requires s[|s| - 1] !in s[..|s| - 1]
    ensures FirstOrder(s, r + [s[|s| - 1]])
  {
    var x := s[|s| - 1];
    forall j | 0 <= j < |s| - 1 ensures s[j] != x { assert s[..|s| - 1][j] == s[j]; }
    FirstIndexUnique(s, x, |s| - 1);
    var r' := r + [x];
    forall i | 0 <= i < |r'| ensures r'[i] in s {
      if i < |r| { assert r'[i] == r[i]; }
    }
    forall i, j | 0 <= i < j < |r'| ensures FirstIndex(s, r'[i]) < FirstIndex(s, r'[j]) {
      assert r'[i] == r[i];
      if j < |r| { assert r'[j] == r[j]; }
    }
  }

  lemma {:induction false} DedupFirstOrder<T(!new)>(s: seq<T>)
    ensures FirstOrder(s, Dedup(s))
  {
    if s != [] {
      var p := s[..|s| - 1];
      DedupFirstOrder(p);
      FirstOrderPrefix(s, |s| - 1, Dedup(p));
      if s[|s| - 1] !in Dedup(p) {
        FirstOrderAppend(s, Dedup(p));
      }
    }
  }

  /** Past a head that differs, the first index is one more than in the tail. */
  lemma FirstIndexTail<T>(s: seq<T>, x: T)
    requires s != [] && x in s[1..] && x != s[0]
    ensures x in s && FirstIndex(s, x) == 1 + FirstIndex(s[1..], x)
  {
    assert s == [s[0]] + s[1..];
  }

  /** Without repetitions, the tail is without repetitions and lacks the head. */
  lemma DistinctTail<T>(s: seq<T>)
    requires s != [] && Distinct(s)
    ensures Distinct(s[1..]) && s[0] !in s[1..]
  {
    var t := s[1..];
    forall i, j | 0 <= i < j < |t| ensures t[i] != t[j] { assert t[i] == s[i + 1] && t[j] == s[j + 1]; }
    forall k | 0 <= k < |t| ensures t[k] != s[0] { assert t[k] == s[k + 1]; }
  }

  /** Filtering a sequence without repetitions keeps the survivors in their order in it. */
  lemma {:induction false} FilterFirstOrder<T>(s: seq<T>, p: T -> bool)
    requires Distinct(s)
    ensures FirstOrder(s, Filter(s, p))
  {
    if s != [] {
      var t := s[1..];
      DistinctTail(s);
      FilterFirstOrder(t, p);
      var ft := Filter(t, p);
      forall i | 0 <= i < |ft| ensures ft[i] in s && FirstIndex(s, ft[i]) == 1 + FirstIndex(t, ft[i]) {
        FilterMembers(t, p, ft[i]);
        FirstIndexTail(s, ft[i]);
      }
      if p(s[0]) {
        var r := [s[0]] + ft;
        assert Filter(s, p) == r;
        assert FirstIndex(s, s[0]) == 0;
        forall i, j | 0 <= i < j < |r| ensures r[i] in s && r[j] in s && FirstIndex(s, r[i]) < FirstIndex(s, r[j]) {
          assert r[j] == ft[j - 1];
          if i > 0 { assert r[i] == ft[i - 1]; }
        }
        forall i | 0 <= i < |r| ensures r[i] in s {
          if i > 0 { assert r[i] == ft[i - 1]; }
        }
      }
    }
  }

  /** The elements of `Dedup(s)` appear in the order of their first occurrence in `s`. */
  lemma DedupFirstAppearanceOrder<T(!new)>(s: seq<T>)
    ensures forall i, j :: 0 <= i < j < |Dedup(s)| ==> FirstIndex(s, Dedup(s)[i]) < FirstIndex(s, Dedup(s)[j])
  {
    DedupFirstOrder(s);
  }

  // ---------------------------------------------------------------------------
  // `Array.prototype.sort` with a comparator: a stable sort, written as insertion sort.
  // `le(a, b)` holds when the comparator does not put `b` strictly before `a`.

  /** `x` placed into `s` after every element that may precede it, scanning from the end,
      so that it lands after the elements it ties with. */
  function Insert<T>(s: seq<T>, x: T, le: (T, T) -> bool): (r: seq<T>)
    ensures |r| == |s| + 1
  {
    if s == [] then [x]
    else if le(s[|s| - 1], x) then s + [x]
    else Insert(s[..|s| - 1], x, le) + [s[|s| - 1]]
  }

  /** The elements of `s` inserted one by one, left to right. */
  function SortBy<T>(s: seq<T>, le: (T, T) -> bool): (r: seq<T>)
    ensures |r| == |s|
  {
    if s == [] then [] else Insert(SortBy(s[..|s| - 1], le), s[|s| - 1], le)
  }

  /** A comparator that orders every pair consistently. */
  ghost predicate TotalPreorder<T(!new)>(le: (T, T) -> bool) {
    (forall a, b :: le(a, b) || le(b, a))
    && (forall a, b, c :: le(a, b) && le(b, c) ==> le(a, c))
  }

  predicate SortedBy<T>(s: seq<T>, le: (T, T) -> bool) {
    forall i, j :: 0 <= i < j < |s| ==> le(s[i], s[j])
  }

  lemma {:induction false} InsertPermutes<T>(s: seq<T>, x: T, le: (T, T) -> bool)
    ensures multiset(Insert(s, x, le)) == multiset(s) + multiset{x}
  {
    if s != [] && !le(s[|s| - 1], x) {
      var init, last := s[..|s| - 1], s[|s| - 1];
      InsertPermutes(init, x, le);
      assert s == init + [last];
    }
  }

  /** Sorting only reorders. */
  lemma {:induction false} SortByPermutes<T>(s: seq<T>, le: (T, T) -> bool)
    ensures multiset(SortBy(s, le)) == multiset(s)
  {
    if s != [] {
      var init, last := s[..|s| - 1], s[|s| - 1];
      calc {
        multiset(SortBy(s, le));
      == { InsertPermutes(SortBy(init, le), last, le); }
        multiset(SortBy(init, le)) + multiset{last};
      == { SortByPermutes(init, le); }
        multiset(init) + multiset{last};
      == { assert s == init + [last]; }
        multiset(s);
      }
    }
  }

  lemma {:induction false} InsertSorted<T(!new)>(s: seq<T>, x: T, le: (T, T) -> bool)
    requires TotalPreorder(le) && SortedBy(s, le)
    ensures SortedBy(Insert(s, x, le), le)
  {
    if s != [] && !le(s[|s| - 1], x) {
      var init, last := s[..|s| - 1], s[|s| - 1];
      assert SortedBy(init, le);
      InsertSorted(init, x, le);
      var ins := Insert(init, x, le);
      InsertPermutes(init, x, le);
      var r := ins + [last];
      assert le(x, last);
      forall i, j | 0 <= i < j < |r| ensures le(r[i], r[j]) {
        if j == |ins| {
          assert r[i] in multiset(ins);
          assert r[i] == x || r[i] in multiset(init);
          if r[i] != x {
            var k :| 0 <= k < |init| && init[k] == r[i];
            assert s[k] == r[i] && s[|s| - 1] == last;
          }
        } else {
          assert r[i] == ins[i] && r[j] == ins[j];
        }
      }
    }
  }

  /** With a consistent comparator the result is sorted. */
  lemma {:induction false} SortBySorted<T(!new)>(s: seq<T>, le: (T, T) -> bool)
    requires TotalPreorder(le)
    ensures SortedBy(SortBy(s, le), le)
  {
    if s != [] {
      SortBySorted(s[..|s| - 1], le);
      InsertSorted(SortBy(s[..|s| - 1], le), s[|s| - 1], le);
    }
  }

  /** The first `k` elements of a sorted arrangement of `orig` are drawn from `orig`, and
      each of them may precede every element of `orig` left out. */
  lemma SortedPrefixFirst<T>(s: seq<T>, orig: seq<T>, k: nat, le: (T, T) -> bool)
    requires SortedBy(s, le) && multiset(s) == multiset(orig) && k <= |s|
    ensures multiset(s[..k]) <= multiset(orig)
    ensures forall x, i :: x in multiset(orig) - multiset(s[..k]) && 0 <= i < k ==> le(s[i], x)
  {
    assert s == s[..k] + s[k..];
    var rest := multiset(orig) - multiset(s[..k]);
    assert rest == multiset(s[k..]);
    forall x, i | x in rest && 0 <= i < k ensures le(s[i], x) {
      var m :| k <= m < |s| && s[m] == x;
    }
  }
}
