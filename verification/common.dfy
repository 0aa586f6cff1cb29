/** Generic helpers shared by the ledger model: an optional value, first-match lookup in
    table order, filtering, the string ordering SQLite and Python use, and a sort whose
    result is proved ordered and a permutation of its input. */
module Common {

  datatype Option<+T> = None | Some(value: T) {
    /** The wrapped value, or `default` when absent (Python's `x if x is not None else d`). */
    function GetOr(default: T): T {
      match this
      case Some(v) => v
      case None => default
    }
  }

  /** Python's truthiness test on an optional string argument (`if type_:`):
      absent and empty both mean "no filter". */
  predicate Given(o: Option<string>) {
    o.Some? && o.value != ""
  }

  // ---------------------------------------------------------------------------
  // Lookups and filters over a table kept in insertion order
  // ---------------------------------------------------------------------------

  /** The first row satisfying `p`, as `fetch_one` returns it when the rows are scanned in
      table order. */
  function Find<T(==)>(rows: seq<T>, p: T -> bool): (r: Option<T>)
    ensures r.None? <==> forall i :: 0 <= i < |rows| ==> !p(rows[i])
    ensures r.Some? ==> r.value in rows && p(r.value)
    decreases |rows|
  {
    if |rows| == 0 then None
    else if p(rows[0]) then Some(rows[0])
    else Find(rows[1..], p)
  }

  /** The row a lookup returns is the first matching row. */
  lemma {:induction false} FindIsFirst<T>(rows: seq<T>, p: T -> bool)
    requires Find(rows, p).Some?
    ensures exists i :: FirstMatch(rows, p, i) && rows[i] == Find(rows, p).value
    decreases |rows|
  {
    if !p(rows[0]) {
      FindIsFirst(rows[1..], p);
      var i :| FirstMatch(rows[1..], p, i) && rows[1..][i] == Find(rows[1..], p).value;
      assert FirstMatch(rows, p, i + 1);
    } else {
      assert FirstMatch(rows, p, 0);
    }
  }

  /** Row `i` satisfies `p` and no earlier row does. */
  predicate FirstMatch<T>(rows: seq<T>, p: T -> bool, i: int) {
    0 <= i < |rows| && p(rows[i]) && forall j :: 0 <= j < i ==> !p(rows[j])
  }

  /** A first match determines the lookup's answer. */
  lemma {:induction false} FindFirstMatch<T>(rows: seq<T>, p: T -> bool, i: int)
    requires FirstMatch(rows, p, i)
    ensures Find(rows, p) == Some(rows[i])
    decreases i
  {
    if i > 0 {
      assert FirstMatch(rows[1..], p, i - 1);
      FindFirstMatch(rows[1..], p, i - 1);
    }
  }

  /** Appending a row never changes an earlier match; it is found only when nothing before matched. */
  lemma {:induction false} FindAppend<T>(rows: seq<T>, x: T, p: T -> bool)
    ensures Find(rows + [x], p) == (if Find(rows, p).Some? then Find(rows, p) else if p(x) then Some(x) else None)
    decreases |rows|
  {
    if |rows| > 0 {
      assert (rows + [x])[1..] == rows[1..] + [x];
      FindAppend(rows[1..], x, p);
    }
  }

  /** A lookup succeeds as soon as one row matches. */
  lemma FindSome<T>(rows: seq<T>, p: T -> bool, x: T)
    requires x in rows && p(x)
    ensures Find(rows, p).Some?
  {
    var i :| 0 <= i < |rows| && rows[i] == x;
    assert p(rows[i]);
  }

  /** A rewrite that keeps which rows match also keeps where the first match is. */
  lemma FindAfterRewrite<T>(rows: seq<T>, rows': seq<T>, p: T -> bool)
    requires |rows'| == |rows| && forall k :: 0 <= k < |rows| ==> p(rows'[k]) == p(rows[k])
    ensures Find(rows', p).None? <==> Find(rows, p).None?
    ensures Find(rows, p).Some? ==>
      exists i :: FirstMatch(rows, p, i) && rows[i] == Find(rows, p).value && Find(rows', p) == Some(rows'[i])
  {
    if Find(rows, p).Some? {
      FindIsFirst(rows, p);
      var i :| FirstMatch(rows, p, i) && rows[i] == Find(rows, p).value;
      assert FirstMatch(rows', p, i);
      FindFirstMatch(rows', p, i);
    }
  }

  /** Lookups with predicates that agree on every row give the same answer. */
  lemma {:induction false} FindExt<T>(rows: seq<T>, p: T -> bool, q: T -> bool)
    requires forall k :: 0 <= k < |rows| ==> p(rows[k]) == q(rows[k])
    ensures Find(rows, p) == Find(rows, q)
    decreases |rows|
  {
    if |rows| > 0 {
      FindExt(rows[1..], p, q);
    }
  }

  /** The rows satisfying `p`, in their original order (a `WHERE` clause). */
  function Filter<T(!new)>(rows: seq<T>, p: T -> bool): (r: seq<T>)
    ensures forall x :: x in r <==> x in rows && p(x)
    ensures forall x :: multiset(r)[x] == if p(x) then multiset(rows)[x] else 0
    ensures |r| <= |rows|
    decreases |rows|
  {
    if |rows| == 0 then []
    else
      var rest := Filter(rows[1..], p);
      assert rows == [rows[0]] + rows[1..];
      if p(rows[0]) then [rows[0]] + rest else rest
  }

  /** Each row projected through `f`, dropping the rows `f` rejects (an inner join with a
      `WHERE` clause, one output row per input row at most). */
  function FilterMap<T, U(!new)>(rows: seq<T>, f: T -> Option<U>): (r: seq<U>)
    ensures forall v :: v in r <==> exists i :: 0 <= i < |rows| && f(rows[i]) == Some(v)
    ensures |r| <= |rows|
    decreases |rows|
  {
    if |rows| == 0 then []
    else
      var rest := FilterMap(rows[1..], f);
      assert forall v :: v in rest <==> exists i :: 1 <= i < |rows| && f(rows[i]) == Some(v) by {
        forall v | v in rest ensures exists i :: 1 <= i < |rows| && f(rows[i]) == Some(v) {
          var k :| 0 <= k < |rows[1..]| && f(rows[1..][k]) == Some(v);
          assert f(rows[k + 1]) == Some(v);
        }
        forall v | exists i :: 1 <= i < |rows| && f(rows[i]) == Some(v) ensures v in rest {
          var k :| 1 <= k < |rows| && f(rows[k]) == Some(v);
          assert f(rows[1..][k - 1]) == Some(v);
        }
      }
      match f(rows[0])
      case Some(v) => [v] + rest
      case None => rest
  }

  lemma {:induction false} FilterMapAppend<T, U(!new)>(rows: seq<T>, x: T, f: T -> Option<U>)
    ensures FilterMap(rows + [x], f) == FilterMap(rows, f) + (if f(x).Some? then [f(x).value] else [])
    decreases |rows|
  {
    if |rows| > 0 {
      assert (rows + [x])[1..] == rows[1..] + [x];
      FilterMapAppend(rows[1..], x, f);
    }
  }

  /** Projections that agree on every row give the same rows. */
  lemma {:induction false} FilterMapExt<T, U(!new)>(rows: seq<T>, f: T -> Option<U>, g: T -> Option<U>)
    requires forall k :: 0 <= k < |rows| ==> f(rows[k]) == g(rows[k])
    ensures FilterMap(rows, f) == FilterMap(rows, g)
    decreases |rows|
  {
    if |rows| > 0 {
      FilterMapExt(rows[1..], f, g);
    }
  }

  // ---------------------------------------------------------------------------
  // String order: code-point lexicographic, which is both Python's `str` comparison and
  // SQLite's default BINARY collation on UTF-8 text
  // ---------------------------------------------------------------------------

  /** Three-way comparison: negative, zero or positive as `a` sorts before, equal to, or after `b`. */
  function StrCmp(a: string, b: string): (c: int)
    ensures -1 <= c <= 1
    decreases |a|
  {
    if |a| == 0 && |b| == 0 then 0
    else if |a| == 0 then -1
    else if |b| == 0 then 1
    else if a[0] < b[0] then -1
    else if b[0] < a[0] then 1
    else StrCmp(a[1..], b[1..])
  }

  predicate StrLe(a: string, b: string) {
    StrCmp(a, b) <= 0
  }

  lemma {:induction false} StrCmpZero(a: string, b: string)
    ensures StrCmp(a, b) == 0 <==> a == b
    decreases |a|
  {
    if |a| > 0 && |b| > 0 && a[0] == b[0] {
      StrCmpZero(a[1..], b[1..]);
      if a[1..] == b[1..] {
        assert a == [a[0]] + a[1..] && b == [b[0]] + b[1..];
      }
    }
  }

  lemma {:induction false} StrCmpFlip(a: string, b: string)
    ensures StrCmp(b, a) == -StrCmp(a, b)
    decreases |a|
  {
    if |a| > 0 && |b| > 0 && a[0] == b[0] {
      StrCmpFlip(a[1..], b[1..]);
    }
  }

  lemma {:induction false} StrCmpTrans(a: string, b: string, c: string)
    requires StrCmp(a, b) <= 0 && StrCmp(b, c) <= 0
    ensures StrCmp(a, c) <= 0
    ensures StrCmp(a, b) < 0 || StrCmp(b, c) < 0 ==> StrCmp(a, c) < 0
    decreases |a|
  {
    if |a| > 0 && |b| > 0 && |c| > 0 && a[0] == b[0] && b[0] == c[0] {
      StrCmpTrans(a[1..], b[1..], c[1..]);
    }
  }

  /** The three laws of the string order together, for proofs about multi-column orders. */
  lemma StrCmpLaws(a: string, b: string, c: string)
    ensures StrCmp(b, a) == -StrCmp(a, b)
    ensures StrCmp(a, b) == 0 <==> a == b
    ensures StrCmp(a, b) <= 0 && StrCmp(b, c) <= 0 ==> StrCmp(a, c) <= 0
    ensures StrCmp(a, b) <= 0 && StrCmp(b, c) <= 0 && (StrCmp(a, b) < 0 || StrCmp(b, c) < 0) ==> StrCmp(a, c) < 0
  {
    StrCmpFlip(a, b);
    StrCmpZero(a, b);
    if StrCmp(a, b) <= 0 && StrCmp(b, c) <= 0 {
      StrCmpTrans(a, b, c);
    }
  }

  // ---------------------------------------------------------------------------
  // Sorting (ORDER BY / sorted()): ordered result, same multiset of rows
  // ---------------------------------------------------------------------------

  ghost predicate TotalPreorder<T(!new)>(le: (T, T) -> bool) {
    && (forall a, b :: le(a, b) || le(b, a))
    && (forall a, b, c :: le(a, b) && le(b, c) ==> le(a, c))
  }

  predicate SortedBy<T>(s: seq<T>, le: (T, T) -> bool) {
    forall i, j :: 0 <= i < j < |s| ==> le(s[i], s[j])
  }

  function Insert<T(==,!new)>(x: T, s: seq<T>, le: (T, T) -> bool): (r: seq<T>)
    requires TotalPreorder(le) && SortedBy(s, le)
    ensures SortedBy(r, le)
    ensures multiset(r) == multiset(s) + multiset{x}
    decreases |s|
  {
    if |s| == 0 then [x]
    else if le(x, s[0]) then [x] + s
    else
      var rest := Insert(x, s[1..], le);
      assert s == [s[0]] + s[1..];
      assert forall y :: y in rest ==> le(s[0], y) by {
        forall y | y in rest ensures le(s[0], y) {
          assert y in multiset(rest);
          if y != x {
            assert y in multiset(s[1..]);
            var k :| 0 <= k < |s[1..]| && s[1..][k] == y;
            assert s[k + 1] == y;
          }
        }
      }
      [s[0]] + rest
  }

  /** Insertion sort: stable, and proved to return an ordered permutation of its input. */
  function SortBy<T(==,!new)>(s: seq<T>, le: (T, T) -> bool): (r: seq<T>)
    requires TotalPreorder(le)
    ensures SortedBy(r, le)
    ensures multiset(r) == multiset(s)
    ensures |r| == |s|
    decreases |s|
  {
    if |s| == 0 then []
    else
      assert s == [s[0]] + s[1..];
      Insert(s[0], SortBy(s[1..], le), le)
  }

  /** A permutation has the same elements. */
  lemma SameElements<T>(a: seq<T>, b: seq<T>)
    requires multiset(a) == multiset(b)
    ensures forall x :: x in a <==> x in b
  {
    forall x ensures x in a <==> x in b {
      assert x in a <==> x in multiset(a);
      assert x in b <==> x in multiset(b);
    }
  }

  // ---------------------------------------------------------------------------
  // Primary keys
  // ---------------------------------------------------------------------------

  /** No two rows share a key (a PRIMARY KEY column). */
  ghost predicate UniqueKeys<T, K>(rows: seq<T>, key: T -> K) {
    forall i, j :: 0 <= i < |rows| && 0 <= j < |rows| && key(rows[i]) == key(rows[j]) ==> i == j
  }

  lemma UniqueKeysAppend<T, K>(rows: seq<T>, x: T, key: T -> K)
    requires UniqueKeys(rows, key)
    requires forall i :: 0 <= i < |rows| ==> key(rows[i]) != key(x)
    ensures UniqueKeys(rows + [x], key)
  {
  }

  lemma {:induction false} UniqueKeysFilter<T(!new), K>(rows: seq<T>, p: T -> bool, key: T -> K)
    requires UniqueKeys(rows, key)
    ensures UniqueKeys(Filter(rows, p), key)
    decreases |rows|
  {
    if |rows| > 0 {
      var rest := Filter(rows[1..], p);
      assert UniqueKeys(rows[1..], key) by {
        forall i, j | 0 <= i < |rows[1..]| && 0 <= j < |rows[1..]| && key(rows[1..][i]) == key(rows[1..][j])
          ensures i == j
        {
          assert rows[1..][i] == rows[i + 1] && rows[1..][j] == rows[j + 1];
        }
      }
      UniqueKeysFilter(rows[1..], p, key);
      if p(rows[0]) {
        forall k | 0 <= k < |rest| ensures key(rest[k]) != key(rows[0]) {
          assert rest[k] in rows[1..];
          var m :| 0 <= m < |rows[1..]| && rows[1..][m] == rest[k];
          assert rows[m + 1] == rest[k];
        }
      }
    }
  }

  /** A rewrite that keeps every row's key (an UPDATE that does not touch the key column). */
  lemma UniqueKeysRewrite<T, K>(rows: seq<T>, rows': seq<T>, key: T -> K)
    requires UniqueKeys(rows, key)
    requires |rows'| == |rows| && forall i :: 0 <= i < |rows| ==> key(rows'[i]) == key(rows[i])
    ensures UniqueKeys(rows', key)
  {
  }
}
