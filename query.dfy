/** What the persistence gateway's query primitives mean over an in-memory
    table held as a sequence of rows in storage order: `where ... limit 1`,
    `where`, `count(*)`, `update ... where`, `order by ... desc`,
    `limit`/`offset` and `group by` on one column. */
module Query {
  import opened Wrappers

  /** The index of the first row satisfying `p`, or `|rows|` when none does. */
  function FirstIndex<T>(rows: seq<T>, p: T -> bool): (k: nat)
    ensures k <= |rows|
    ensures k < |rows| ==> p(rows[k])
    ensures forall j :: 0 <= j < k ==> !p(rows[j])
  {
    if rows == [] then 0 else if p(rows[0]) then 0 else 1 + FirstIndex(rows[1..], p)
  }

  /** `select ... where p limit 1`: the first row satisfying `p`, if any. */
  function FirstWhere<T>(rows: seq<T>, p: T -> bool): (r: Option<T>)
    ensures r.None? <==> forall i :: 0 <= i < |rows| ==> !p(rows[i])
    ensures r.Some? ==> r.value in rows && p(r.value)
  {
    var k := FirstIndex(rows, p);
    if k < |rows| then Some(rows[k]) else None
  }

  /** When at most one row satisfies `p`, `limit 1` finds exactly that row. */
  lemma FirstWhereOfUnique<T>(rows: seq<T>, p: T -> bool, i: nat)
    requires i < |rows| && p(rows[i])
    requires forall j :: 0 <= j < |rows| && p(rows[j]) ==> j == i
    ensures FirstWhere(rows, p) == Some(rows[i])
  {
    var k := FirstIndex(rows, p);
    assert k <= i;
  }

  /** `select ... where p`: the rows satisfying `p`, in storage order. */
  function Filter<T(!new)>(rows: seq<T>, p: T -> bool): (r: seq<T>)
    ensures |r| <= |rows|
    ensures forall x :: x in r <==> x in rows && p(x)
  {
    if rows == [] then []
    else (if p(rows[0]) then [rows[0]] else []) + Filter(rows[1..], p)
  }

  /** Filtering a list without repeats leaves a list without repeats. */
  lemma {:induction false} FilterKeepsDistinct<T(!new)>(rows: seq<T>, p: T -> bool)
    requires forall i, j :: 0 <= i < j < |rows| ==> rows[i] != rows[j]
    ensures forall i, j :: 0 <= i < j < |Filter(rows, p)| ==> Filter(rows, p)[i] != Filter(rows, p)[j]
  {
    if rows != [] {
      var tail := rows[1..];
      assert forall i, j :: 0 <= i < j < |tail| ==> tail[i] == rows[i + 1] && tail[j] == rows[j + 1];
      FilterKeepsDistinct(tail, p);
      assert rows[0] !in tail;
      assert rows[0] !in Filter(tail, p);
    }
  }

  /** Two conditions that agree on every row select the same rows. */
  lemma {:induction false} FilterEquivalent<T(!new)>(rows: seq<T>, p: T -> bool, q: T -> bool)
    requires forall x :: p(x) == q(x)
    ensures Filter(rows, p) == Filter(rows, q)
  {
    if rows != [] {
      FilterEquivalent(rows[1..], p, q);
    }
  }

  /** A condition every row meets selects the whole table. */
  lemma {:induction false} FilterAll<T(!new)>(rows: seq<T>, p: T -> bool)
    requires forall x :: p(x)
    ensures Filter(rows, p) == rows
  {
    if rows != [] {
      FilterAll(rows[1..], p);
    }
  }

  /** `select count(*) ... where p`. */
  function CountWhere<T>(rows: seq<T>, p: T -> bool): nat {
    if rows == [] then 0 else (if p(rows[0]) then 1 else 0) + CountWhere(rows[1..], p)
  }

  /** The count agrees with the rows the same condition selects. */
  lemma {:induction false} CountWhereIsFilterSize<T(!new)>(rows: seq<T>, p: T -> bool)
    ensures CountWhere(rows, p) == |Filter(rows, p)|
  {
    if rows != [] {
      CountWhereIsFilterSize(rows[1..], p);
    }
  }

  /** `update ... set f where p`: every row satisfying `p` is rewritten in place. */
  function UpdateWhere<T>(rows: seq<T>, p: T -> bool, f: T -> T): (r: seq<T>)
    ensures |r| == |rows|
    ensures forall i :: 0 <= i < |rows| ==> r[i] == if p(rows[i]) then f(rows[i]) else rows[i]
  {
    seq(|rows|, i requires 0 <= i < |rows| => if p(rows[i]) then f(rows[i]) else rows[i])
  }

  /** Rows in non-increasing order of `key`. */
  ghost predicate SortedDesc<T>(s: seq<T>, key: T -> int) {
    forall i, j :: 0 <= i < j < |s| ==> key(s[i]) >= key(s[j])
  }

  /** Puts `x` in front of the first row whose key is not larger than its own. */
  function InsertDesc<T>(x: T, s: seq<T>, key: T -> int): (r: seq<T>)
    requires SortedDesc(s, key)
    ensures SortedDesc(r, key)
    ensures multiset(r) == multiset(s) + multiset{x}
  {
    if s == [] || key(x) >= key(s[0]) then
      assert forall j :: 0 <= j < |s| ==> key(s[0]) >= key(s[j]);
      SortedCons(x, s, key);
      [x] + s
    else
      SortedTail(s, key);
      var tail := InsertDesc(x, s[1..], key);
      assert s == [s[0]] + s[1..];
      InsertDescBound(s[0], tail, x, s[1..], key);
      SortedCons(s[0], tail, key);
      [s[0]] + tail
  }

  lemma SortedTail<T>(s: seq<T>, key: T -> int)
    requires s != [] && SortedDesc(s, key)
    ensures SortedDesc(s[1..], key) && forall j :: 0 <= j < |s| ==> key(s[0]) >= key(s[j])
  {
    forall i, j | 0 <= i < j < |s| - 1
      ensures key(s[1..][i]) >= key(s[1..][j])
    {
      assert s[1..][i] == s[i + 1] && s[1..][j] == s[j + 1];
    }
  }

  /** A head no smaller than any row of a sorted tail keeps it sorted. */
  lemma SortedCons<T>(head: T, tail: seq<T>, key: T -> int)
    requires SortedDesc(tail, key)
    requires forall j :: 0 <= j < |tail| ==> key(head) >= key(tail[j])
    ensures SortedDesc([head] + tail, key)
  {
    var s := [head] + tail;
    forall i, j | 0 <= i < j < |s|
      ensures key(s[i]) >= key(s[j])
    {
      assert s[j] == tail[j - 1];
      if i > 0 {
        assert s[i] == tail[i - 1];
      }
    }
  }

  lemma InsertDescBound<T>(head: T, tail: seq<T>, x: T, rest: seq<T>, key: T -> int)
    requires multiset(tail) == multiset(rest) + multiset{x}
    requires key(x) < key(head)
    requires forall j :: 0 <= j < |rest| ==> key(head) >= key(rest[j])
    ensures forall j :: 0 <= j < |tail| ==> key(head) >= key(tail[j])
  {
    forall j | 0 <= j < |tail|
      ensures key(head) >= key(tail[j])
    {
      assert tail[j] in multiset(tail);
      if tail[j] != x {
        assert tail[j] in multiset(rest);
        var k :| 0 <= k < |rest| && rest[k] == tail[j];
      }
    }
  }

  /** `order by key desc`: the same rows, largest key first; rows with equal
      keys keep their storage order. */
  function SortDesc<T>(s: seq<T>, key: T -> int): (r: seq<T>)
    ensures SortedDesc(r, key)
    ensures multiset(r) == multiset(s)
  {
    if s == [] then []
    else
      assert s == [s[0]] + s[1..];
      InsertDesc(s[0], SortDesc(s[1..], key), key)
  }

  /** Sorting keeps exactly the rows it was given. */
  /** No two different rows share a key. */
  ghost predicate KeyInjective<T>(rows: seq<T>, key: T -> int) {
    forall x, y :: x in rows && y in rows && key(x) == key(y) ==> x == y
  }

  /** Without ties, the descending order is the only one: two sorted
      arrangements of the same rows are equal, whatever order a sort
      gives equal keys. */
  lemma {:induction false} SortedDescUnique<T>(a: seq<T>, b: seq<T>, key: T -> int)
    requires SortedDesc(a, key) && SortedDesc(b, key) && KeyInjective(a, key)
    requires multiset(a) == multiset(b)
    ensures a == b
    decreases |a|
  {
    assert |a| == |multiset(a)| == |multiset(b)| == |b|;
    if a != [] {
      SortedHeadsAgree(a, b, key);
      SortedTail(a, key);
      SortedTail(b, key);
      TailMultiset(a);
      TailMultiset(b);
      assert KeyInjective(a[1..], key) by {
        forall x | x in a[1..]
          ensures x in a
        {
        }
      }
      SortedDescUnique(a[1..], b[1..], key);
    }
  }

  lemma TailMultiset<T>(s: seq<T>)
    requires s != []
    ensures multiset(s[1..]) == multiset(s) - multiset{s[0]}
  {
    assert s == [s[0]] + s[1..];
  }

  /** The first rows of two tie-free arrangements largest key first agree. */
  lemma SortedHeadsAgree<T>(a: seq<T>, b: seq<T>, key: T -> int)
    requires a != [] && |b| == |a|
    requires SortedDesc(a, key) && SortedDesc(b, key) && KeyInjective(a, key)
    requires multiset(a) == multiset(b)
    ensures a[0] == b[0]
  {
    assert a[0] in multiset(b) && b[0] in multiset(a);
    var j :| 0 <= j < |b| && b[j] == a[0];
    var i :| 0 <= i < |a| && a[i] == b[0];
    assert key(a[0]) <= key(b[0]) && key(b[0]) <= key(a[0]);
  }

  lemma SortDescSameRows<T>(s: seq<T>, key: T -> int)
    ensures |SortDesc(s, key)| == |s|
    ensures forall x :: x in SortDesc(s, key) <==> x in s
  {
    var r := SortDesc(s, key);
    assert |r| == |multiset(r)| == |multiset(s)| == |s|;
    forall x
      ensures x in r <==> x in s
    {
      assert x in r <==> x in multiset(r);
      assert x in s <==> x in multiset(s);
    }
  }

  datatype QueryError = NegativeLimit | NegativeOffset

  /** A `limit` or `offset` argument the query builder applies: absent and
      0 are falsy in JavaScript and impose nothing. */
  predicate IsSet(o: Option<int>) {
    o.Some? && o.value != 0
  }

  /** The number of rows an `offset` skips. */
  function Skip(offset: Option<int>): nat {
    if IsSet(offset) && offset.value > 0 then offset.value else 0
  }

  /** The number of rows `limit`/`offset` keep out of `n`. */
  function PageSize(n: nat, limit: Option<int>, offset: Option<int>): nat {
    var left := if n > Skip(offset) then n - Skip(offset) else 0;
    if IsSet(limit) && limit.value > 0 && limit.value < left then limit.value else left
  }

  /** `page` is the window `limit`/`offset` cut from `all`: `Skip(offset)`
      rows skipped, then as many as `PageSize` allows, in order. */
  ghost predicate IsWindow<T>(page: seq<T>, all: seq<T>, limit: Option<int>, offset: Option<int>) {
    |page| == PageSize(|all|, limit, offset)
    && forall i :: 0 <= i < |page| ==> Skip(offset) + i < |all| && page[i] == all[Skip(offset) + i]
  }

  /** `.limit(l)` and `.offset(o)` when set: skip `o` rows, then keep at most
      `l`. The database refuses a negative value. */
  function Paginate<T>(rows: seq<T>, limit: Option<int>, offset: Option<int>): (r: Result<seq<T>, QueryError>)
    ensures r.Failure? <==> (IsSet(limit) && limit.value < 0) || (IsSet(offset) && offset.value < 0)
    ensures r.Success? ==> IsWindow(r.value, rows, limit, offset)
    ensures r.Success? ==> IsSet(limit) ==> |r.value| <= limit.value
  {
    if IsSet(limit) && limit.value < 0 then Failure(NegativeLimit)
    else if IsSet(offset) && offset.value < 0 then Failure(NegativeOffset)
    else
      var skip := if IsSet(offset) then offset.value else 0;
      var rest := if skip < |rows| then rows[skip..] else [];
      Success(if IsSet(limit) && limit.value < |rest| then rest[..limit.value] else rest)
  }

  /** A page holds only rows of the table it was cut from. */
  lemma PaginateSubset<T>(rows: seq<T>, limit: Option<int>, offset: Option<int>)
    requires Paginate(rows, limit, offset).Success?
    ensures forall x :: x in Paginate(rows, limit, offset).value ==> x in rows
  {
    var page := Paginate(rows, limit, offset).value;
    var skip := Skip(offset);
    forall x | x in page
      ensures x in rows
    {
      var i :| 0 <= i < |page| && page[i] == x;
      assert rows[skip + i] == x;
    }
  }

  /** A page of rows in descending order is itself in descending order. */
  lemma PaginateSorted<T>(rows: seq<T>, key: T -> int, limit: Option<int>, offset: Option<int>)
    requires SortedDesc(rows, key)
    requires Paginate(rows, limit, offset).Success?
    ensures SortedDesc(Paginate(rows, limit, offset).value, key)
  {
    var skip := Skip(offset);
    if skip < |rows| {
      var rest := rows[skip..];
      SortedSlice(rows, key, skip, |rows|);
      if IsSet(limit) && limit.value < |rest| {
        SortedSlice(rest, key, 0, limit.value);
      }
    }
  }

  /** A slice of a sequence in descending order is in descending order. */
  lemma SortedSlice<T>(s: seq<T>, key: T -> int, lo: nat, hi: nat)
    requires SortedDesc(s, key) && lo <= hi <= |s|
    ensures SortedDesc(s[lo..hi], key) && SortedDesc(s[lo..], key) && SortedDesc(s[..hi], key)
  {
    forall i, j | 0 <= i < j < hi - lo
      ensures key(s[lo..hi][i]) >= key(s[lo..hi][j])
    {
      assert s[lo..hi][i] == s[lo + i] && s[lo..hi][j] == s[lo + j];
    }
    forall i, j | 0 <= i < j < |s| - lo
      ensures key(s[lo..][i]) >= key(s[lo..][j])
    {
      assert s[lo..][i] == s[lo + i] && s[lo..][j] == s[lo + j];
    }
    forall i, j | 0 <= i < j < hi
      ensures key(s[..hi][i]) >= key(s[..hi][j])
    {
      assert s[..hi][i] == s[i] && s[..hi][j] == s[j];
    }
  }

  /** Without `limit` and `offset` the page is the whole sequence. */
  lemma PaginateNothing<T>(rows: seq<T>)
    ensures Paginate(rows, None, None) == Success(rows)
  {
  }

  /** No two rows share a key: a primary or unique key of the table. */
  ghost predicate DistinctKeys<T, K>(rows: seq<T>, key: T -> K) {
    forall i, j :: 0 <= i < j < |rows| ==> key(rows[i]) != key(rows[j])
  }

  /** Every key lies in `[lo, hi)`: ids drawn from an auto-increment counter. */
  ghost predicate KeysIn<T>(rows: seq<T>, key: T -> int, lo: int, hi: int) {
    forall i :: 0 <= i < |rows| ==> lo <= key(rows[i]) < hi
  }

  lemma DistinctKeysTail<T, K>(rows: seq<T>, key: T -> K)
    requires rows != [] && DistinctKeys(rows, key)
    ensures DistinctKeys(rows[1..], key)
    ensures forall i :: 0 <= i < |rows[1..]| ==> key(rows[1..][i]) != key(rows[0])
  {
    forall i, j | 0 <= i < j < |rows[1..]|
      ensures key(rows[1..][i]) != key(rows[1..][j])
    {
      assert rows[1..][i] == rows[i + 1] && rows[1..][j] == rows[j + 1];
    }
    forall i | 0 <= i < |rows[1..]|
      ensures key(rows[1..][i]) != key(rows[0])
    {
      assert rows[1..][i] == rows[i + 1];
    }
  }

  /** A row whose key no other row has can be appended. */
  lemma AppendKeepsDistinct<T, K>(rows: seq<T>, x: T, key: T -> K)
    requires DistinctKeys(rows, key)
    requires forall i :: 0 <= i < |rows| ==> key(rows[i]) != key(x)
    ensures DistinctKeys(rows + [x], key)
  {
    var r := rows + [x];
    forall i, j | 0 <= i < j < |r|
      ensures key(r[i]) != key(r[j])
    {
      assert r[i] == rows[i];
      if j < |rows| {
        assert r[j] == rows[j];
      }
    }
  }

  /** Appending a row keyed by the counter keeps the keys distinct and
      below the advanced counter. */
  lemma AppendFreshKey<T>(rows: seq<T>, x: T, key: T -> int, lo: int, hi: int)
    requires DistinctKeys(rows, key) && KeysIn(rows, key, lo, hi)
    requires key(x) == hi && lo <= hi
    ensures DistinctKeys(rows + [x], key) && KeysIn(rows + [x], key, lo, hi + 1)
  {
    AppendKeepsDistinct(rows, x, key);
    var r := rows + [x];
    forall i | 0 <= i < |r|
      ensures lo <= key(r[i]) < hi + 1
    {
      if i < |rows| {
        assert r[i] == rows[i];
      }
    }
  }

  /** Rewriting rows without touching their keys keeps every key property. */
  lemma SameKeysKeep<T, K>(rows: seq<T>, rows': seq<T>, key: T -> K)
    requires |rows'| == |rows| && forall i :: 0 <= i < |rows| ==> key(rows'[i]) == key(rows[i])
    requires DistinctKeys(rows, key)
    ensures DistinctKeys(rows', key)
  {
  }

  lemma SameIntKeysKeep<T>(rows: seq<T>, rows': seq<T>, key: T -> int, lo: int, hi: int)
    requires |rows'| == |rows| && forall i :: 0 <= i < |rows| ==> key(rows'[i]) == key(rows[i])
    requires KeysIn(rows, key, lo, hi)
    ensures KeysIn(rows', key, lo, hi)
  {
  }

  /** Keeping some rows keeps every key property. */
  lemma {:induction false} FilterKeepsKeys<T(!new)>(rows: seq<T>, p: T -> bool, key: T -> int, lo: int, hi: int)
    requires DistinctKeys(rows, key) && KeysIn(rows, key, lo, hi)
    ensures DistinctKeys(Filter(rows, p), key) && KeysIn(Filter(rows, p), key, lo, hi)
  {
    if rows != [] {
      var rest := rows[1..];
      DistinctKeysTail(rows, key);
      assert KeysIn(rest, key, lo, hi) by {
        forall i | 0 <= i < |rest| ensures lo <= key(rest[i]) < hi {
          assert rest[i] == rows[i + 1];
        }
      }
      FilterKeepsKeys(rest, p, key, lo, hi);
      var kept := Filter(rest, p);
      if p(rows[0]) {
        forall i | 0 <= i < |kept|
          ensures key(kept[i]) != key(rows[0])
        {
          KeyOfMember(rest, kept[i], key, key(rows[0]));
        }
        var r := [rows[0]] + kept;
        forall i, j | 0 <= i < j < |r|
          ensures key(r[i]) != key(r[j])
        {
          assert r[j] == kept[j - 1];
          if i > 0 {
            assert r[i] == kept[i - 1];
          }
        }
        forall i | 0 <= i < |r|
          ensures lo <= key(r[i]) < hi
        {
          if i > 0 {
            assert r[i] == kept[i - 1];
          }
        }
      } else {
        assert Filter(rows, p) == kept;
      }
    }
  }

  lemma KeyOfMember<T>(rows: seq<T>, x: T, key: T -> int, k: int)
    requires x in rows
    requires forall i :: 0 <= i < |rows| ==> key(rows[i]) != k
    ensures key(x) != k
  {
    var i :| 0 <= i < |rows| && rows[i] == x;
  }

  /** A condition no row meets counts none. */
  lemma {:induction false} CountWhereNone<T>(rows: seq<T>, p: T -> bool)
    requires forall i :: 0 <= i < |rows| ==> !p(rows[i])
    ensures CountWhere(rows, p) == 0
  {
    if rows != [] {
      assert forall i :: 0 <= i < |rows[1..]| ==> rows[1..][i] == rows[i + 1];
      CountWhereNone(rows[1..], p);
    }
  }

  /** `group by` on one column: each value once, in order of first appearance. */
  function Distinct<T(==,!new)>(s: seq<T>): (r: seq<T>)
    ensures forall x :: x in r <==> x in s
    ensures forall i, j :: 0 <= i < j < |r| ==> r[i] != r[j]
  {
    if s == [] then []
    else
      var rest := Distinct(s[..|s| - 1]);
      assert s == s[..|s| - 1] + [s[|s| - 1]];
      if s[|s| - 1] in rest then rest else rest + [s[|s| - 1]]
  }

  /** `rows.map(f)`. */
  function Map<T, U>(rows: seq<T>, f: T -> U): (r: seq<U>)
    ensures |r| == |rows|
    ensures forall i :: 0 <= i < |rows| ==> r[i] == f(rows[i])
  {
    seq(|rows|, i requires 0 <= i < |rows| => f(rows[i]))
  }

  /** `and(...conditions)` over a list of pushed conditions. */
  predicate AllTrue<T>(cs: seq<T -> bool>, x: T) {
    forall i :: 0 <= i < |cs| ==> cs[i](x)
  }

  lemma AllTrueAppend<T>(cs: seq<T -> bool>, c: T -> bool, x: T)
    ensures AllTrue(cs + [c], x) <==> AllTrue(cs, x) && c(x)
  {
    if AllTrue(cs, x) && c(x) {
      forall i | 0 <= i < |cs + [c]|
        ensures (cs + [c])[i](x)
      {
        if i < |cs| {
          assert (cs + [c])[i] == cs[i];
        }
      }
    }
    if AllTrue(cs + [c], x) {
      assert (cs + [c])[|cs|] == c;
      forall i | 0 <= i < |cs|
        ensures cs[i](x)
      {
        assert (cs + [c])[i] == cs[i];
      }
    }
  }

  /** The conditions of two lists all hold iff those of each list do. */
  lemma AllTrueConcat<T>(cs: seq<T -> bool>, ds: seq<T -> bool>, x: T)
    ensures AllTrue(cs + ds, x) <==> AllTrue(cs, x) && AllTrue(ds, x)
  {
    if AllTrue(cs + ds, x) {
      forall i | 0 <= i < |cs|
        ensures cs[i](x)
      {
        assert (cs + ds)[i] == cs[i];
      }
      forall i | 0 <= i < |ds|
        ensures ds[i](x)
      {
        assert (cs + ds)[|cs| + i] == ds[i];
      }
    }
    if AllTrue(cs, x) && AllTrue(ds, x) {
      forall i | 0 <= i < |cs + ds|
        ensures (cs + ds)[i](x)
      {
        if i < |cs| {
          assert (cs + ds)[i] == cs[i];
        } else {
          assert (cs + ds)[i] == ds[i - |cs|];
        }
      }
    }
  }

  lemma AllTrueSingle<T>(c: T -> bool, x: T)
    ensures AllTrue([c], x) <==> c(x)
  {
    assert [c][0] == c;
  }

  /** The rows satisfying `p`, largest key first: what a query orders
      before its window applies. */
  function Ordered<T(!new)>(rows: seq<T>, p: T -> bool, key: T -> int): (r: seq<T>)
    ensures SortedDesc(r, key)
    ensures multiset(r) == multiset(Filter(rows, p)) && |r| == |Filter(rows, p)|
    ensures forall x :: x in r <==> x in rows && p(x)
  {
    SortDescSameRows(Filter(rows, p), key);
    SortDesc(Filter(rows, p), key)
  }
  /** Among the rows satisfying `p`, when no two share a key, every
      arrangement largest key first is `Ordered`. */
  lemma OrderedIsUnique<T(!new)>(rows: seq<T>, p: T -> bool, key: T -> int, x: seq<T>)
    requires KeyInjective(Filter(rows, p), key)
    requires SortedDesc(x, key) && multiset(x) == multiset(Filter(rows, p))
    ensures x == Ordered(rows, p, key)
  {
    var o := Ordered(rows, p, key);
    assert KeyInjective(o, key);
    SortedDescUnique(o, x, key);
  }


  /** The window `n` rows further on picks up where a window of `n` rows
      stops: neighbouring pages neither skip nor repeat a row. */
  lemma ConsecutiveWindows<T>(all: seq<T>, n: nat, k: nat, a: seq<T>, b: seq<T>)
    requires n > 0 && k <= |all|
    requires IsWindow(a, all, Some(n), Some(k)) && IsWindow(b, all, Some(n), Some(k + n))
    ensures k + |a| + |b| <= |all| && a + b == all[k..k + |a| + |b|]
  {
    assert Skip(Some(k)) == k && Skip(Some(k + n)) == k + n;
    assert |a| < n ==> b == [];
    forall i | 0 <= i < |a| + |b|
      ensures (a + b)[i] == all[k..k + |a| + |b|][i]
    {
      if i >= |a| {
        assert (a + b)[i] == b[i - |a|];
      }
    }
  }

  /** `select ... where p order by key desc limit ... offset ...`. */
  function Select<T(!new)>(rows: seq<T>, p: T -> bool, key: T -> int, limit: Option<int>, offset: Option<int>)
    : (r: Result<seq<T>, QueryError>)
    ensures r.Failure? <==> (IsSet(limit) && limit.value < 0) || (IsSet(offset) && offset.value < 0)
    ensures r.Success? ==> IsWindow(r.value, Ordered(rows, p, key), limit, offset)
    ensures r.Success? ==> forall x :: x in r.value ==> x in rows && p(x)
    ensures r.Success? ==> SortedDesc(r.value, key)
    ensures r.Success? ==> |r.value| == PageSize(|Filter(rows, p)|, limit, offset)
  {
    var sorted := Ordered(rows, p, key);
    var page := Paginate(sorted, limit, offset);
    if page.Success? then
      PaginateSubset(sorted, limit, offset);
      PaginateSorted(sorted, key, limit, offset);
      page
    else page
  }

  /** Without a window the selection is every matching row. */
  lemma SelectEverything<T(!new)>(rows: seq<T>, p: T -> bool, key: T -> int)
    ensures Select(rows, p, key, None, None).Success?
    ensures forall x :: x in Select(rows, p, key, None, None).value <==> x in rows && p(x)
  {
    SortDescSameRows(Filter(rows, p), key);
    PaginateNothing(SortDesc(Filter(rows, p), key));
  }

  /** The selection done step by step: the pushed conditions, then order and window. */
  method RunSelect<T(!new)>(rows: seq<T>, conditions: seq<T -> bool>, p: T -> bool, key: T -> int,
                            limit: Option<int>, offset: Option<int>)
    returns (r: Result<seq<T>, QueryError>)
    requires forall x :: AllTrue(conditions, x) <==> p(x)
    ensures r == Select(rows, p, key, limit, offset)
  {
    var selected := rows;
    if |conditions| > 0 {
      selected := Filter(rows, (x: T) => AllTrue(conditions, x));
      FilterEquivalent(rows, (x: T) => AllTrue(conditions, x), p);
    } else {
      FilterAll(rows, p);
    }
    selected := SortDesc(selected, key);
    r := Paginate(selected, limit, offset);
  }
}
