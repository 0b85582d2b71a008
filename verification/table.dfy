/**
 * Generic reading of a table: a full scan in rowid order (what a SELECT with a
 * WHERE clause yields before ORDER BY), sorting by a rank, and taking the first
 * row of a result set.
 */
module Table {
  import opened Wrappers

  /** Every row is stored under the id it carries. */
  ghost predicate KeyedBy<T>(m: map<int, T>, rowid: T -> int) {
    forall k :: k in m ==> rowid(m[k]) == k
  }

  /** The rows of `s` are in non-decreasing order of `rank`. */
  ghost predicate SortedBy<T>(s: seq<T>, rank: T -> int) {
    forall i, j :: 0 <= i < j < |s| ==> rank(s[i]) <= rank(s[j])
  }

  /** The rows of `s` carry strictly increasing ids. */
  ghost predicate IncreasingIds<T>(s: seq<T>, rowid: T -> int) {
    forall i, j :: 0 <= i < j < |s| ==> rowid(s[i]) < rowid(s[j])
  }

  /** No row occurs twice. */
  ghost predicate NoDuplicates<T(!new)>(s: seq<T>) {
    forall x :: multiset(s)[x] <= 1
  }

  /** Every row of `s` is the stored row of its id, lies in [lo, hi) and passes `keep`. */
  ghost predicate RowsOf<T>(s: seq<T>, m: map<int, T>, rowid: T -> int, keep: T -> bool, lo: int, hi: int) {
    forall i :: 0 <= i < |s| ==>
      lo <= rowid(s[i]) < hi && rowid(s[i]) in m && m[rowid(s[i])] == s[i] && keep(s[i])
  }

  /**
   * The rows with ids in [lo, hi) that pass `keep`, visited in increasing
   * rowid order, one step of the statement per id.
   */
  function Scan<T>(m: map<int, T>, keep: T -> bool, lo: int, hi: int): seq<T>
    decreases hi - lo
  {
    if lo >= hi then []
    else if lo in m && keep(m[lo]) then [m[lo]] + Scan(m, keep, lo + 1, hi)
    else Scan(m, keep, lo + 1, hi)
  }

  /** A scan yields only stored rows that pass the filter, in increasing id order. */
  lemma {:induction false} ScanSound<T>(m: map<int, T>, rowid: T -> int, keep: T -> bool, lo: int, hi: int)
    requires KeyedBy(m, rowid)
    ensures RowsOf(Scan(m, keep, lo, hi), m, rowid, keep, lo, hi)
    ensures IncreasingIds(Scan(m, keep, lo, hi), rowid)
    decreases hi - lo
  {
    if lo < hi {
      ScanSound(m, rowid, keep, lo + 1, hi);
    }
  }

  /** A scan misses no stored row in range that passes the filter. */
  lemma {:induction false} ScanComplete<T>(m: map<int, T>, keep: T -> bool, lo: int, hi: int, k: int)
    requires lo <= k < hi && k in m && keep(m[k])
    ensures m[k] in Scan(m, keep, lo, hi)
    decreases hi - lo
  {
    if k != lo {
      ScanComplete(m, keep, lo + 1, hi, k);
    }
  }

  /** Rows with strictly increasing ids are pairwise distinct. */
  lemma {:induction false} IncreasingIdsNoDuplicates<T(!new)>(s: seq<T>, rowid: T -> int)
    requires IncreasingIds(s, rowid)
    ensures NoDuplicates(s)
    decreases |s|
  {
    if |s| > 0 {
      assert s == [s[0]] + s[1..];
      IncreasingIdsNoDuplicates(s[1..], rowid);
      assert forall j :: 0 <= j < |s[1..]| ==> rowid(s[1..][j]) != rowid(s[0]);
      assert s[0] !in s[1..];
    }
  }

  /** Places `x` into the sorted `s` before the first row ranked at or above it. */
  function Insert<T>(x: T, s: seq<T>, rank: T -> int): seq<T>
    decreases |s|
  {
    if |s| == 0 || rank(x) <= rank(s[0]) then [x] + s
    else [s[0]] + Insert(x, s[1..], rank)
  }

  lemma {:induction false} InsertPermutes<T>(x: T, s: seq<T>, rank: T -> int)
    ensures multiset(Insert(x, s, rank)) == multiset(s) + multiset{x}
    decreases |s|
  {
    if |s| > 0 && rank(x) > rank(s[0]) {
      assert s == [s[0]] + s[1..];
      InsertPermutes(x, s[1..], rank);
    }
  }

  lemma {:induction false} InsertSorted<T>(x: T, s: seq<T>, rank: T -> int)
    requires SortedBy(s, rank)
    ensures SortedBy(Insert(x, s, rank), rank)
    decreases |s|
  {
    if |s| > 0 && rank(x) > rank(s[0]) {
      var t := Insert(x, s[1..], rank);
      InsertSorted(x, s[1..], rank);
      InsertPermutes(x, s[1..], rank);
      forall j | 0 <= j < |t| ensures rank(s[0]) <= rank(t[j]) {
        assert t[j] in multiset(t);
        if t[j] != x {
          var i :| 0 <= i < |s[1..]| && s[1..][i] == t[j];
          assert s[i + 1] == t[j];
        }
      }
    }
  }

  /** A sorted permutation of `s`; rows of equal rank come out in an unspecified order. */
  function SortBy<T>(s: seq<T>, rank: T -> int): (r: seq<T>)
    ensures SortedBy(r, rank)
    ensures multiset(r) == multiset(s)
    decreases |s|
  {
    if |s| == 0 then []
    else
      assert s == [s[0]] + s[1..];
      var t := SortBy(s[1..], rank);
      InsertSorted(s[0], t, rank);
      InsertPermutes(s[0], t, rank);
      Insert(s[0], t, rank)
  }

  /** The first row of a result set, or NULL when it is empty. */
  function First<T>(rows: seq<T>): Option<T> {
    if |rows| > 0 then Some(rows[0]) else None
  }

  /**
   * A query by primary key followed by taking its first row: the stored row of
   * that id when there is one, NULL otherwise (also when no id was given).
   */
  function QueryOneById<T>(m: map<int, T>, rowid: T -> int, k: Option<int>, lo: int, hi: int): (r: Option<T>)
    requires KeyedBy(m, rowid)
    requires forall j :: j in m ==> lo <= j < hi
    ensures r.Some? <==> k.Some? && k.value in m
    ensures r.Some? ==> r.value == m[k.value]
  {
    var keep := (x: T) => k.Some? && rowid(x) == k.value;
    var rows := Scan(m, keep, lo, hi);
    ScanSound(m, rowid, keep, lo, hi);
    KeyScanFinds(m, keep, lo, hi, k);
    First(rows)
  }

  lemma KeyScanFinds<T>(m: map<int, T>, keep: T -> bool, lo: int, hi: int, k: Option<int>)
    requires forall j :: j in m ==> lo <= j < hi
    requires k.Some? && k.value in m ==> keep(m[k.value])
    ensures k.Some? && k.value in m ==> m[k.value] in Scan(m, keep, lo, hi)
  {
    if k.Some? && k.value in m {
      ScanComplete(m, keep, lo, hi, k.value);
    }
  }

  /**
   * SELECT ... WHERE keep ORDER BY rank over a whole table: exactly the
   * stored rows that pass the filter, each once, in non-decreasing rank.
   */
  function Select<T(!new)>(m: map<int, T>, rowid: T -> int, keep: T -> bool, rank: T -> int, lo: int, hi: int)
    : (r: seq<T>)
    requires KeyedBy(m, rowid)
    requires forall j :: j in m ==> lo <= j < hi
    ensures forall i :: 0 <= i < |r| ==> rowid(r[i]) in m && m[rowid(r[i])] == r[i] && keep(r[i])
    ensures forall k :: k in m && keep(m[k]) ==> m[k] in r
    ensures NoDuplicates(r)
    ensures SortedBy(r, rank)
  {
    SelectFacts(m, rowid, keep, rank, lo, hi);
    SortBy(Scan(m, keep, lo, hi), rank)
  }

  lemma SelectFacts<T(!new)>(m: map<int, T>, rowid: T -> int, keep: T -> bool, rank: T -> int, lo: int, hi: int)
    requires KeyedBy(m, rowid)
    requires forall j :: j in m ==> lo <= j < hi
    ensures var r := SortBy(Scan(m, keep, lo, hi), rank);
      && (forall i :: 0 <= i < |r| ==> rowid(r[i]) in m && m[rowid(r[i])] == r[i] && keep(r[i]))
      && (forall k :: k in m && keep(m[k]) ==> m[k] in r)
      && NoDuplicates(r)
  {
    var rows := Scan(m, keep, lo, hi);
    var r := SortBy(rows, rank);
    ScanSound(m, rowid, keep, lo, hi);
    IncreasingIdsNoDuplicates(rows, rowid);
    forall i | 0 <= i < |r| ensures rowid(r[i]) in m && m[rowid(r[i])] == r[i] && keep(r[i]) {
      assert r[i] in multiset(rows);
      var j :| 0 <= j < |rows| && rows[j] == r[i];
    }
    forall k | k in m && keep(m[k]) ensures m[k] in r {
      ScanComplete(m, keep, lo, hi, k);
      assert m[k] in multiset(r);
    }
  }
}
