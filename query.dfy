/** The parts of an SQL SELECT that every listing in the model uses: a WHERE
    filter, an ORDER BY on one timestamp column, and LIMIT/OFFSET paging with
    SQLite's rules for negative values. ORDER BY is a stable sort, so rows
    with equal timestamps stay in insertion order (SQL leaves that order open;
    the contracts below promise only sortedness and a permutation). */
module Query {

  // ---------------------------------------------------------------- WHERE

  function Filter<T(!new)>(s: seq<T>, p: T -> bool): (r: seq<T>)
    ensures |r| <= |s|
    ensures forall i :: 0 <= i < |r| ==> p(r[i])
  {
    if s == [] then []
    else
      var rest := Filter(s[1..], p);
      if p(s[0]) then [s[0]] + rest else rest
  }

  /** The filter keeps every row that satisfies p, as often as it occurs, and
      no other row. */
  lemma {:induction false} FilterMultiset<T(!new)>(s: seq<T>, p: T -> bool)
    ensures forall x :: multiset(Filter(s, p))[x] == if p(x) then multiset(s)[x] else 0
    ensures forall x :: x in Filter(s, p) <==> x in s && p(x)
  {
    if s != [] {
      FilterMultiset(s[1..], p);
      assert s == [s[0]] + s[1..];
    }
  }

  /** Filtering keeps left-to-right order: it distributes over concatenation. */
  lemma {:induction false} FilterConcat<T(!new)>(a: seq<T>, b: seq<T>, p: T -> bool)
    ensures Filter(a + b, p) == Filter(a, p) + Filter(b, p)
  {
    if a != [] {
      FilterConcat(a[1..], b, p);
      var ab := a + b;
      assert ab[0] == a[0] && ab[1..] == a[1..] + b;
      if p(a[0]) {
        assert Filter(ab, p) == [a[0]] + Filter(a[1..] + b, p);
        assert Filter(a, p) == [a[0]] + Filter(a[1..], p);
        assert [a[0]] + (Filter(a[1..], p) + Filter(b, p)) == ([a[0]] + Filter(a[1..], p)) + Filter(b, p);
      } else {
        assert Filter(ab, p) == Filter(a[1..] + b, p);
        assert Filter(a, p) == Filter(a[1..], p);
      }
    } else {
      assert a + b == b;
    }
  }

  // ------------------------------------------------------------- ORDER BY

  predicate SortedDesc<T>(s: seq<T>, key: T -> int) {
    forall i, j :: 0 <= i < j < |s| ==> key(s[i]) >= key(s[j])
  }

  predicate SortedAsc<T>(s: seq<T>, key: T -> int) {
    forall i, j :: 0 <= i < j < |s| ==> key(s[i]) <= key(s[j])
  }

  /** Puts x before the first element whose key is not greater than x's. */
  function InsertDesc<T(==)>(x: T, s: seq<T>, key: T -> int): (r: seq<T>)
    requires SortedDesc(s, key)
    ensures SortedDesc(r, key)
    ensures multiset(r) == multiset(s) + multiset{x}
    ensures |r| == |s| + 1
  {
    if s == [] || key(x) >= key(s[0]) then [x] + s
    else
      var rest := InsertDesc(x, s[1..], key);
      assert s == [s[0]] + s[1..];
      InsertDescBound(s[0], x, s[1..], rest, key);
      [s[0]] + rest
  }

  lemma InsertDescBound<T>(h: T, x: T, t: seq<T>, rest: seq<T>, key: T -> int)
    requires key(h) >= key(x)
    requires forall j :: 0 <= j < |t| ==> key(h) >= key(t[j])
    requires multiset(rest) == multiset(t) + multiset{x}
    requires SortedDesc(rest, key)
    ensures forall j :: 0 <= j < |rest| ==> key(h) >= key(rest[j])
    ensures SortedDesc([h] + rest, key)
    ensures multiset([h] + rest) == multiset([h] + t) + multiset{x}
  {
    forall j | 0 <= j < |rest| ensures key(h) >= key(rest[j]) {
      assert rest[j] in multiset(rest);
      if rest[j] != x {
        assert rest[j] in multiset(t);
        var k :| 0 <= k < |t| && t[k] == rest[j];
      }
    }
    var r := [h] + rest;
    forall i, j | 0 <= i < j < |r| ensures key(r[i]) >= key(r[j]) {
      if i > 0 {
        assert r[i] == rest[i - 1] && r[j] == rest[j - 1];
      } else {
        assert r[j] == rest[j - 1];
      }
    }
  }

  /** ORDER BY key DESC. */
  function SortDesc<T(==)>(s: seq<T>, key: T -> int): (r: seq<T>)
    ensures SortedDesc(r, key)
    ensures multiset(r) == multiset(s)
    ensures |r| == |s|
  {
    if s == [] then []
    else
      assert s == [s[0]] + s[1..];
      InsertDesc(s[0], SortDesc(s[1..], key), key)
  }

  /** ORDER BY key ASC. */
  function SortAsc<T(==)>(s: seq<T>, key: T -> int): (r: seq<T>)
    ensures SortedAsc(r, key)
    ensures multiset(r) == multiset(s)
    ensures |r| == |s|
  {
    var neg := (x: T) => -key(x);
    var r := SortDesc(s, neg);
    assert forall i, j :: 0 <= i < j < |r| ==> neg(r[i]) >= neg(r[j]);
    r
  }

  /** The first row of a descending listing has the greatest key of all rows. */
  lemma SortedDescHeadIsMax<T>(s: seq<T>, key: T -> int)
    requires s != []
    ensures forall x :: x in s ==> key(SortDesc(s, key)[0]) >= key(x)
  {
    var r := SortDesc(s, key);
    forall x | x in s ensures key(r[0]) >= key(x) {
      assert x in multiset(r);
      var j :| 0 <= j < |r| && r[j] == x;
      assert j == 0 || key(r[0]) >= key(r[j]);
    }
  }

  // -------------------------------------------------------- OFFSET/LIMIT

  /** Where paging starts: SQLite treats a negative OFFSET as zero. */
  function Start(n: nat, offset: int): (k: nat)
    ensures k <= n
  {
    if offset <= 0 then 0 else if offset >= n then n else offset
  }

  /** OFFSET offset LIMIT limit; SQLite reads a negative LIMIT as "no limit". */
  function Page<T>(s: seq<T>, offset: int, limit: int): (r: seq<T>)
    ensures var k := Start(|s|, offset);
      && |r| == (if limit < 0 || limit > |s| - k then |s| - k else limit)
      && forall i :: 0 <= i < |r| ==> r[i] == s[k + i]
  {
    var k := Start(|s|, offset);
    var rest := s[k..];
    if limit < 0 || limit > |rest| then rest else rest[..limit]
  }

  /** A page holds only rows of the listing, in the listing's order. */
  lemma PageOfSorted<T>(s: seq<T>, offset: int, limit: int, key: T -> int)
    requires SortedDesc(s, key)
    ensures SortedDesc(Page(s, offset, limit), key)
    ensures forall x :: x in Page(s, offset, limit) ==> x in s
  {
    var r := Page(s, offset, limit);
    var k := Start(|s|, offset);
    forall x | x in r ensures x in s {
      var i :| 0 <= i < |r| && r[i] == x;
      assert s[k + i] == x;
    }
    forall i, j | 0 <= i < j < |r| ensures key(r[i]) >= key(r[j]) {
      assert r[i] == s[k + i] && r[j] == s[k + j];
    }
  }

  /** A first page of a descending listing holds its top rows: no row left
      out ranks above a listed one, and a short page is the whole listing. */
  lemma FirstPageTop<T>(s: seq<T>, limit: int, key: T -> int)
    requires SortedDesc(s, key) && limit >= 0
    ensures forall c, d :: c in Page(s, 0, limit) && d in s && d !in Page(s, 0, limit) ==> key(d) <= key(c)
    ensures |Page(s, 0, limit)| < limit ==> Page(s, 0, limit) == s
  {
    var r := Page(s, 0, limit);
    forall c, d | c in r && d in s && d !in r ensures key(d) <= key(c) {
      var i :| 0 <= i < |r| && r[i] == c;
      var j :| 0 <= j < |s| && s[j] == d;
      assert s[i] == c;
    }
  }

  /** The first page with room for every row is the whole listing. */
  lemma PageAll<T>(s: seq<T>, limit: int)
    requires limit < 0 || limit >= |s|
    ensures Page(s, 0, limit) == s
  {
  }

  // ------------------------------------------------------------ distinctness

  predicate Distinct<T(==)>(s: seq<T>) {
    forall i, j :: 0 <= i < j < |s| ==> s[i] != s[j]
  }

  /** A sequence without repeats holds each value at most once. */
  lemma {:induction false} DistinctCount<T>(s: seq<T>)
    requires Distinct(s)
    ensures forall x :: multiset(s)[x] <= 1
  {
    if s != [] {
      assert Distinct(s[1..]) by {
        forall i, j | 0 <= i < j < |s[1..]| ensures s[1..][i] != s[1..][j] {
          assert s[1..][i] == s[i + 1] && s[1..][j] == s[j + 1];
        }
      }
      DistinctCount(s[1..]);
      assert s == [s[0]] + s[1..];
      forall j | 0 <= j < |s[1..]| ensures s[1..][j] != s[0] {
        assert s[1..][j] == s[j + 1];
      }
    }
  }

  /** A value found at two positions is counted at least twice. */
  lemma RepeatCounted<T>(s: seq<T>, i: nat, j: nat)
    requires i < j < |s|
    ensures s[i] == s[j] ==> multiset(s)[s[i]] >= 2
  {
    assert s == s[..j] + s[j..];
    assert s[i] in s[..j];
    assert s[j] in s[j..];
  }

  /** Conversely, a sequence that holds each value at most once has no repeats. */
  lemma CountDistinct<T>(s: seq<T>)
    requires forall x :: multiset(s)[x] <= 1
    ensures Distinct(s)
  {
    forall i, j | 0 <= i < j < |s| ensures s[i] != s[j] {
      RepeatCounted(s, i, j);
    }
  }

  /** Neither a WHERE filter nor an ORDER BY introduces repeated rows. */
  lemma SortAscFilterDistinct<T(!new)>(s: seq<T>, p: T -> bool, key: T -> int)
    requires Distinct(s)
    ensures Distinct(SortAsc(Filter(s, p), key))
  {
    DistinctCount(s);
    FilterMultiset(s, p);
    CountDistinct(SortAsc(Filter(s, p), key));
  }

  // ------------------------------------------------------ de-duplication

  /** The keys of the rows of s. */
  function SeenKeys<T, K(==)>(s: seq<T>, key: T -> K): set<K> {
    set i | 0 <= i < |s| :: key(s[i])
  }

  /** Keeps each row whose key no earlier row had (a scan with a "seen" set). */
  function Dedup<T, K(==)>(s: seq<T>, key: T -> K): seq<T> {
    if s == [] then []
    else
      var kept := Dedup(s[..|s| - 1], key);
      var x := s[|s| - 1];
      if key(x) in SeenKeys(kept, key) then kept else kept + [x]
  }

  lemma DedupSnoc<T, K>(s: seq<T>, x: T, key: T -> K)
    ensures Dedup(s + [x], key) ==
      if key(x) in SeenKeys(Dedup(s, key), key) then Dedup(s, key) else Dedup(s, key) + [x]
  {
    assert (s + [x])[..|s|] == s;
  }

  lemma SeenKeysSnoc<T, K>(s: seq<T>, x: T, key: T -> K)
    ensures SeenKeys(s + [x], key) == SeenKeys(s, key) + {key(x)}
  {
    var t := s + [x];
    assert forall i :: 0 <= i < |s| ==> t[i] == s[i];
    assert t[|s|] == x;
  }
  /** Feeding one more element: a seen key changes nothing, an unseen one
      adds its key and one kept element. */
  lemma DedupStep<T, K>(s: seq<T>, x: T, key: T -> K)
    ensures key(x) in SeenKeys(s, key) ==>
      SeenKeys(s + [x], key) == SeenKeys(s, key) && |Dedup(s + [x], key)| == |Dedup(s, key)|
    ensures key(x) !in SeenKeys(s, key) ==>
      SeenKeys(s + [x], key) == SeenKeys(s, key) + {key(x)} && |Dedup(s + [x], key)| == |Dedup(s, key)| + 1
  {
    DedupKeys(s, key);
    DedupSnoc(s, x, key);
    SeenKeysSnoc(s, x, key);
  }


  lemma SnocSlice<T>(a: seq<T>, b: seq<T>, i: nat)
    requires i < |b|
    ensures a + b[..i + 1] == (a + b[..i]) + [b[i]]
  {
    assert b[..i + 1] == b[..i] + [b[i]];
  }

  /** De-duplication loses no key. */
  lemma {:induction false} DedupKeys<T, K>(s: seq<T>, key: T -> K)
    ensures SeenKeys(Dedup(s, key), key) == SeenKeys(s, key)
  {
    if s != [] {
      var p := s[..|s| - 1];
      var x := s[|s| - 1];
      assert s == p + [x];
      DedupKeys(p, key);
      SeenKeysSnoc(p, x, key);
      SeenKeysSnoc(Dedup(p, key), x, key);
    }
  }

  /** The position of the first row with key k. */
  function FirstPos<T, K(==)>(s: seq<T>, key: T -> K, k: K): (i: nat)
    requires k in SeenKeys(s, key)
    ensures i < |s| && key(s[i]) == k
    ensures forall j :: 0 <= j < i ==> key(s[j]) != k
  {
    var p := s[..|s| - 1];
    var x := s[|s| - 1];
    SeenKeysSnoc(p, x, key);
    assert s == p + [x];
    if k in SeenKeys(p, key) then
      var i := FirstPos(p, key, k);
      assert s[i] == p[i];
      assert forall j :: 0 <= j < i ==> s[j] == p[j];
      i
    else
      assert forall j :: 0 <= j < |p| ==> s[j] == p[j] && key(p[j]) in SeenKeys(p, key);
      |s| - 1
  }

  lemma FirstPosSnoc<T, K>(p: seq<T>, x: T, key: T -> K, k: K)
    requires k in SeenKeys(p, key) || k == key(x)
    ensures k in SeenKeys(p + [x], key)
    ensures k in SeenKeys(p, key) ==> FirstPos(p + [x], key, k) == FirstPos(p, key, k)
    ensures k !in SeenKeys(p, key) ==> FirstPos(p + [x], key, k) == |p|
  {
    SeenKeysSnoc(p, x, key);
    assert (p + [x])[..|p|] == p;
  }

  /** The kept rows are the first row of each key, in the order those first
      rows appear; so every key is kept once and no two kept rows share one. */
  lemma {:induction false} DedupSpec<T, K>(s: seq<T>, key: T -> K)
    ensures SeenKeys(Dedup(s, key), key) == SeenKeys(s, key)
    ensures forall i :: 0 <= i < |Dedup(s, key)| ==>
      key(Dedup(s, key)[i]) in SeenKeys(s, key) && Dedup(s, key)[i] == s[FirstPos(s, key, key(Dedup(s, key)[i]))]
    ensures forall i, j :: 0 <= i < j < |Dedup(s, key)| ==>
      FirstPos(s, key, key(Dedup(s, key)[i])) < FirstPos(s, key, key(Dedup(s, key)[j]))
  {
    DedupKeys(s, key);
    if s != [] {
      var p := s[..|s| - 1];
      var x := s[|s| - 1];
      assert s == p + [x];
      DedupSpec(p, key);
      var dp := Dedup(p, key);
      var d := Dedup(s, key);
      forall i | 0 <= i < |dp| ensures FirstPos(s, key, key(dp[i])) == FirstPos(p, key, key(dp[i])) {
        FirstPosSnoc(p, x, key, key(dp[i]));
      }
      if key(x) !in SeenKeys(p, key) {
        FirstPosSnoc(p, x, key, key(x));
        assert d == dp + [x];
      }
    }
  }

  /** No two rows a de-duplication keeps share a key. */
  lemma DedupDistinctKeys<T, K>(s: seq<T>, key: T -> K)
    ensures forall i, j :: 0 <= i < j < |Dedup(s, key)| ==> key(Dedup(s, key)[i]) != key(Dedup(s, key)[j])
  {
    DedupSpec(s, key);
  }

  // ------------------------------------------------------------ flattening

  /** The concatenation of f over xs, in order (nested loops that append). */
  function Flat<A, B>(xs: seq<A>, f: A -> seq<B>): seq<B> {
    if xs == [] then [] else Flat(xs[..|xs| - 1], f) + f(xs[|xs| - 1])
  }

  lemma FlatSnoc<A, B>(xs: seq<A>, i: nat, f: A -> seq<B>)
    requires i < |xs|
    ensures Flat(xs[..i + 1], f) == Flat(xs[..i], f) + f(xs[i])
  {
    assert xs[..i + 1][..i] == xs[..i];
  }

  /** An element of the concatenation comes from the image of some x. */
  lemma {:induction false} FlatSpec<A, B>(xs: seq<A>, f: A -> seq<B>)
    ensures forall y :: y in Flat(xs, f) <==> exists i :: 0 <= i < |xs| && y in f(xs[i])
  {
    if xs != [] {
      var init := xs[..|xs| - 1];
      FlatSpec(init, f);
      forall y ensures y in Flat(xs, f) <==> exists i :: 0 <= i < |xs| && y in f(xs[i]) {
        if y in Flat(init, f) {
          var i :| 0 <= i < |init| && y in f(init[i]);
          assert xs[i] == init[i];
        }
        if exists i :: 0 <= i < |xs| && y in f(xs[i]) {
          var i :| 0 <= i < |xs| && y in f(xs[i]);
          if i < |init| {
            assert init[i] == xs[i];
          }
        }
      }
    }
  }
}
