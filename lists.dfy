/**
 * The list operations the engine relies on: the `plusNotNull` extension of
 * ext/CollectionExt.kt, and the Kotlin standard-library operations `chunked`,
 * `flatMap`/`joinToString("")` and the stable `sortedBy`, written out so that
 * their properties can be proved.
 */
module Lists {
  import opened Wrappers

  /** `list.plusNotNull(element)`: append `element` unless it is null. */
  function PlusNotNull<T>(s: seq<T>, e: Option<T>): (r: seq<T>)
    ensures |r| == |s| + (if e.Some? then 1 else 0)
    ensures r[..|s|] == s
    ensures e.Some? ==> r[|s|] == e.value
  {
    match e
    case None => s
    case Some(x) => s + [x]
  }

  /** Nothing is dropped or reordered: every element of the result is the
      element at the same position of `s`, or the appended one. */
  lemma {:induction false} PlusNotNullMembers<T>(s: seq<T>, e: Option<T>, x: T)
    ensures x in PlusNotNull(s, e) <==> x in s || (e.Some? && x == e.value)
  {
    var r := PlusNotNull(s, e);
    if x in r {
      var i :| 0 <= i < |r| && r[i] == x;
      if i < |s| { assert s[i] == r[..|s|][i]; }
    }
    if x in s {
      var i :| 0 <= i < |s| && s[i] == x;
      assert r[..|s|][i] == x;
    }
    if e.Some? && x == e.value { assert r[|s|] == x; }
  }

  /** Concatenation of a list of lists (`flatten`, `joinToString("")`). */
  function Flatten<T>(ss: seq<seq<T>>): seq<T>
  {
    if ss == [] then [] else ss[0] + Flatten(ss[1..])
  }

  lemma {:induction false} FlattenAppend<T>(a: seq<seq<T>>, b: seq<seq<T>>)
    ensures Flatten(a + b) == Flatten(a) + Flatten(b)
  {
    if a == [] {
      assert a + b == b;
    } else {
      assert (a + b)[1..] == a[1..] + b;
      FlattenAppend(a[1..], b);
    }
  }

  /**
   * Kotlin's `chunked(size)` on a string or a list: consecutive pieces of
   * exactly `n` elements, the last one possibly shorter. The source only calls
   * it with a positive size (Kotlin throws otherwise; the callers model that).
   */
  function Chunked<T>(s: seq<T>, n: nat): (r: seq<seq<T>>)
    requires n > 0
    ensures Flatten(r) == s
    ensures forall i :: 0 <= i < |r| ==> 0 < |r[i]| <= n
    ensures forall i :: 0 <= i < |r| - 1 ==> |r[i]| == n
    ensures |r| == 0 <==> |s| == 0
    decreases |s|
  {
    if |s| == 0 then []
    else if |s| <= n then
      assert Flatten([s]) == s + Flatten([]);
      [s]
    else
      var rest := Chunked(s[n..], n);
      assert ([s[..n]] + rest)[1..] == rest;
      assert s == s[..n] + s[n..];
      [s[..n]] + rest
  }

  /** `Chunked` makes the fewest pieces of at most `n` elements:
      `(|r| - 1) * n < |s| <= |r| * n`, i.e. `|r|` is `|s| / n` rounded up. */
  lemma {:induction false} ChunkedCount<T>(s: seq<T>, n: nat)
    requires n > 0
    ensures |s| <= |Chunked(s, n)| * n
    ensures |s| > 0 ==> (|Chunked(s, n)| - 1) * n < |s|
    decreases |s|
  {
    if |s| > n {
      var t := s[n..];
      ChunkedCount(t, n);
      var k := |Chunked(t, n)|;
      assert Chunked(s, n) == [s[..n]] + Chunked(t, n);
      assert |t| == |s| - n;
      MulSucc(k, n);
    }
  }

  lemma MulSucc(k: int, n: int)
    ensures (k + 1) * n == k * n + n
  {
  }

  /**
   * `flatMap { it.chunked(n) }`: every string of `ss` cut into pieces of at
   * most `n` characters, in order.
   */
  function ChunkAll<T>(ss: seq<seq<T>>, n: nat): (r: seq<seq<T>>)
    requires n > 0
    ensures Flatten(r) == Flatten(ss)
    ensures forall i :: 0 <= i < |r| ==> 0 < |r[i]| <= n
    decreases |ss|
  {
    if ss == [] then []
    else
      var head := Chunked(ss[0], n);
      var rest := ChunkAll(ss[1..], n);
      FlattenAppend(head, rest);
      head + rest
  }

  /** The result is empty exactly when every input string is empty. */
  lemma {:induction false} ChunkAllEmpty<T>(ss: seq<seq<T>>, n: nat)
    requires n > 0
    ensures |ChunkAll(ss, n)| == 0 <==> forall i :: 0 <= i < |ss| ==> |ss[i]| == 0
    decreases |ss|
  {
    if ss != [] {
      var rest := ss[1..];
      ChunkAllEmpty(rest, n);
      assert ChunkAll(ss, n) == Chunked(ss[0], n) + ChunkAll(rest, n);
      forall i | 0 <= i < |rest| ensures rest[i] == ss[i + 1] {
      }
      if |ss[0]| == 0 && forall i :: 0 <= i < |rest| ==> |rest[i]| == 0 {
        forall i | 0 <= i < |ss| ensures |ss[i]| == 0 {
          if i > 0 { assert ss[i] == rest[i - 1]; }
        }
      }
    }
  }

  /** Each string of `ss` cut on its own: `ss.map { it.chunked(n) }`. */
  function ChunkEach<T>(ss: seq<seq<T>>, n: nat): (r: seq<seq<seq<T>>>)
    requires n > 0
    ensures |r| == |ss|
    ensures forall i :: 0 <= i < |ss| ==> r[i] == Chunked(ss[i], n)
  {
    if ss == [] then [] else [Chunked(ss[0], n)] + ChunkEach(ss[1..], n)
  }

  /** No piece of `flatMap { it.chunked(n) }` spans two strings: the pieces
      are the chunks of the first string, then those of the second, and so
      on. */
  lemma {:induction false} ChunkAllPerString<T>(ss: seq<seq<T>>, n: nat)
    requires n > 0
    ensures ChunkAll(ss, n) == Flatten(ChunkEach(ss, n))
    decreases |ss|
  {
    if ss != [] {
      ChunkAllPerString(ss[1..], n);
      assert ChunkEach(ss, n)[1..] == ChunkEach(ss[1..], n);
    }
  }

  /** Cutting a concatenation of lists of strings is cutting each list. */
  lemma {:induction false} ChunkAllAppend<T>(a: seq<seq<T>>, b: seq<seq<T>>, n: nat)
    requires n > 0
    ensures ChunkAll(a + b, n) == ChunkAll(a, n) + ChunkAll(b, n)
    decreases |a|
  {
    if a == [] {
      assert a + b == b;
    } else {
      assert (a + b)[0] == a[0] && (a + b)[1..] == a[1..] + b;
      ChunkAllAppend(a[1..], b, n);
    }
  }

  // ---------------------------------------------------------------------
  // Stable sorting by an integer key (Kotlin's `sortedBy`).

  /** Insert `x` before the first element whose key is not smaller. */
  function Insert<T>(x: T, s: seq<T>, key: T -> int): seq<T>
  {
    if s == [] || key(x) <= key(s[0]) then [x] + s
    else [s[0]] + Insert(x, s[1..], key)
  }

  /** `sortedBy(key)`: a stable insertion sort. */
  function SortBy<T>(s: seq<T>, key: T -> int): seq<T>
  {
    if s == [] then [] else Insert(s[0], SortBy(s[1..], key), key)
  }

  lemma SortBySingle<T>(x: T, key: T -> int)
    ensures SortBy([x], key) == [x]
  {
    assert [x][1..] == [];
  }

  ghost predicate SortedByKey<T>(s: seq<T>, key: T -> int)
  {
    forall i, j :: 0 <= i < j < |s| ==> key(s[i]) <= key(s[j])
  }

  /** The elements of `s` whose key is `k`, in their order in `s`. */
  function WithKey<T>(s: seq<T>, key: T -> int, k: int): (r: seq<T>)
    ensures |r| <= |s|
  {
    if s == [] then []
    else (if key(s[0]) == k then [s[0]] else []) + WithKey(s[1..], key, k)
  }

  lemma {:induction false} WithKeyAppend<T>(a: seq<T>, b: seq<T>, key: T -> int, k: int)
    ensures WithKey(a + b, key, k) == WithKey(a, key, k) + WithKey(b, key, k)
  {
    if a == [] {
      assert a + b == b;
    } else {
      var c := a + b;
      assert c[0] == a[0] && c[1..] == a[1..] + b;
      WithKeyAppend(a[1..], b, key, k);
      var h := if key(a[0]) == k then [a[0]] else [];
      assert WithKey(c, key, k) == h + WithKey(a[1..] + b, key, k);
      assert WithKey(a, key, k) == h + WithKey(a[1..], key, k);
    }
  }

  lemma {:induction false} InsertLength<T>(x: T, s: seq<T>, key: T -> int)
    ensures |Insert(x, s, key)| == |s| + 1
    ensures multiset(Insert(x, s, key)) == multiset{x} + multiset(s)
  {
    if s != [] && key(x) > key(s[0]) {
      InsertLength(x, s[1..], key);
      assert s == [s[0]] + s[1..];
    }
  }

  lemma {:induction false} InsertLowerBound<T>(x: T, s: seq<T>, key: T -> int, m: int)
    requires m <= key(x) && forall i :: 0 <= i < |s| ==> m <= key(s[i])
    ensures forall i :: 0 <= i < |Insert(x, s, key)| ==> m <= key(Insert(x, s, key)[i])
  {
    if s != [] && key(x) > key(s[0]) {
      var t := s[1..];
      assert forall i :: 0 <= i < |t| ==> m <= key(t[i]) by {
        forall i | 0 <= i < |t| ensures m <= key(t[i]) { assert t[i] == s[i + 1]; }
      }
      InsertLowerBound(x, t, key, m);
      var u := Insert(x, t, key);
      var r := [s[0]] + u;
      forall i | 0 <= i < |r| ensures m <= key(r[i]) {
        if i > 0 { assert r[i] == u[i - 1]; }
      }
    } else {
      var r := [x] + s;
      forall i | 0 <= i < |r| ensures m <= key(r[i]) {
        if i > 0 { assert r[i] == s[i - 1]; }
      }
    }
  }

  lemma {:induction false} InsertSorted<T>(x: T, s: seq<T>, key: T -> int)
    requires SortedByKey(s, key)
    ensures SortedByKey(Insert(x, s, key), key)
  {
    if s == [] || key(x) <= key(s[0]) {
      var r := [x] + s;
      forall i, j | 0 <= i < j < |r| ensures key(r[i]) <= key(r[j]) {
        assert r[j] == s[j - 1];
        if i > 0 { assert r[i] == s[i - 1]; } else { assert key(s[0]) <= key(s[j - 1]); }
      }
    } else {
      var t := s[1..];
      SortedTail(s, key);
      InsertSorted(x, t, key);
      InsertLowerBound(x, t, key, key(s[0]));
      var u := Insert(x, t, key);
      var r := [s[0]] + u;
      forall i, j | 0 <= i < j < |r| ensures key(r[i]) <= key(r[j]) {
        assert r[j] == u[j - 1];
        if i > 0 { assert r[i] == u[i - 1]; }
      }
    }
  }

  lemma {:induction false} InsertWithKey<T>(x: T, s: seq<T>, key: T -> int, k: int)
    ensures WithKey(Insert(x, s, key), key, k) ==
            if key(x) == k then [x] + WithKey(s, key, k) else WithKey(s, key, k)
  {
    if s == [] || key(x) <= key(s[0]) {
      assert ([x] + s)[1..] == s;
    } else {
      InsertWithKey(x, s[1..], key, k);
      assert ([s[0]] + Insert(x, s[1..], key))[1..] == Insert(x, s[1..], key);
    }
  }

  lemma {:induction false} SortBySorted<T>(s: seq<T>, key: T -> int)
    ensures SortedByKey(SortBy(s, key), key)
  {
    if s != [] {
      SortBySorted(s[1..], key);
      InsertSorted(s[0], SortBy(s[1..], key), key);
    }
  }

  lemma {:induction false} SortByMultiset<T>(s: seq<T>, key: T -> int)
    ensures multiset(SortBy(s, key)) == multiset(s)
    ensures |SortBy(s, key)| == |s|
  {
    if s != [] {
      SortByMultiset(s[1..], key);
      InsertLength(s[0], SortBy(s[1..], key), key);
      assert s == [s[0]] + s[1..];
    }
  }

  lemma {:induction false} SortByStable<T>(s: seq<T>, key: T -> int, k: int)
    ensures WithKey(SortBy(s, key), key, k) == WithKey(s, key, k)
  {
    if s != [] {
      var t := SortBy(s[1..], key);
      SortByStable(s[1..], key, k);
      InsertWithKey(s[0], t, key, k);
    }
  }

  /** The partner of `SortBy`: it sorts, keeps the elements, and keeps the
      relative order of elements with equal keys (stability). */
  lemma SortByProperties<T>(s: seq<T>, key: T -> int)
    ensures SortedByKey(SortBy(s, key), key)
    ensures multiset(SortBy(s, key)) == multiset(s)
    ensures |SortBy(s, key)| == |s|
    ensures forall k :: WithKey(SortBy(s, key), key, k) == WithKey(s, key, k)
  {
    SortBySorted(s, key);
    SortByMultiset(s, key);
    forall k ensures WithKey(SortBy(s, key), key, k) == WithKey(s, key, k) {
      SortByStable(s, key, k);
    }
  }

  lemma SortByMembers<T>(s: seq<T>, key: T -> int)
    ensures forall x :: x in SortBy(s, key) <==> x in s
  {
    SortByProperties(s, key);
    forall x ensures x in SortBy(s, key) <==> x in s {
      assert x in SortBy(s, key) <==> x in multiset(SortBy(s, key));
      assert x in s <==> x in multiset(s);
    }
  }

  /** The elements of `s` grouped by key, for the keys `lo` to `hi` in
      increasing order. */
  function Groups<T>(s: seq<T>, key: T -> int, lo: int, hi: int): seq<T>
    decreases hi - lo + 1
  {
    if lo > hi then [] else WithKey(s, key, lo) + Groups(s, key, lo + 1, hi)
  }

  lemma {:induction false} GroupsNil<T>(key: T -> int, lo: int, hi: int)
    ensures Groups([], key, lo, hi) == []
    decreases hi - lo + 1
  {
    if lo <= hi { GroupsNil(key, lo + 1, hi); }
  }

  lemma {:induction false} GroupsSkip<T>(x: T, t: seq<T>, key: T -> int, lo: int, hi: int)
    requires key(x) < lo
    ensures Groups([x] + t, key, lo, hi) == Groups(t, key, lo, hi)
    decreases hi - lo + 1
  {
    if lo <= hi {
      var s := [x] + t;
      assert s[0] == x && s[1..] == t;
      assert WithKey(s, key, lo) == WithKey(t, key, lo);
      GroupsSkip(x, t, key, lo + 1, hi);
    }
  }

  lemma {:induction false} WithKeyAbsent<T>(s: seq<T>, key: T -> int, k: int)
    requires forall i :: 0 <= i < |s| ==> key(s[i]) != k
    ensures WithKey(s, key, k) == []
  {
    if s != [] { WithKeyAbsent(s[1..], key, k); }
  }

  /** The tail of a sorted sequence is sorted, with keys no smaller than
      the head's. */
  lemma SortedTail<T>(s: seq<T>, key: T -> int)
    requires SortedByKey(s, key) && s != []
    ensures SortedByKey(s[1..], key)
    ensures forall i :: 0 <= i < |s[1..]| ==> key(s[0]) <= key(s[1..][i])
  {
    var t := s[1..];
    forall i, j | 0 <= i < j < |t| ensures key(t[i]) <= key(t[j]) {
      assert t[i] == s[i + 1] && t[j] == s[j + 1];
    }
    forall i | 0 <= i < |t| ensures key(s[0]) <= key(t[i]) {
      assert t[i] == s[i + 1];
    }
  }

  /** An element of the lowest key in front of a grouped sequence joins the
      first group. */
  lemma GroupsHead<T>(x: T, t: seq<T>, key: T -> int, lo: int, hi: int)
    requires key(x) == lo <= hi
    ensures Groups([x] + t, key, lo, hi) == [x] + Groups(t, key, lo, hi)
  {
    var s := [x] + t;
    GroupsSkip(x, t, key, lo + 1, hi);
    assert s[0] == x && s[1..] == t;
    var w := WithKey(t, key, lo);
    var g := Groups(t, key, lo + 1, hi);
    assert WithKey(s, key, lo) == [x] + w;
    assert ([x] + w) + g == [x] + (w + g);
  }

  /** A sequence sorted by key is the concatenation of its key groups. */
  lemma {:induction false} SortedGroups<T>(s: seq<T>, key: T -> int, lo: int, hi: int)
    requires SortedByKey(s, key)
    requires forall i :: 0 <= i < |s| ==> lo <= key(s[i]) <= hi
    ensures s == Groups(s, key, lo, hi)
    decreases |s|, hi - lo
  {
    if s == [] {
      GroupsNil(key, lo, hi);
    } else {
      var x, t := s[0], s[1..];
      SortedTail(s, key);
      assert s == [x] + t;
      if key(x) == lo {
        SortedGroups(t, key, lo, hi);
        GroupsHead(x, t, key, lo, hi);
      } else {
        forall i | 0 <= i < |s| ensures lo + 1 <= key(s[i]) <= hi {
          if i > 0 { assert s[i] == t[i - 1]; }
        }
        WithKeyAbsent(s, key, lo);
        SortedGroups(s, key, lo + 1, hi);
      }
    }
  }
}
