/**
 * `groupby(key)["Book ID"].count()` and `sort_values(ascending=False)` on the
 * resulting counts. A count table is a sequence of (key, count) groups; pandas
 * returns it with its keys in ascending order.
 */
module Grouping {
  import opened StringOrder

  datatype Group = Group(key: string, count: nat)

  /** Sum of the counts of a table (`.sum()`). */
  function Total(g: seq<Group>): nat
  {
    if g == [] then 0 else g[0].count + Total(g[1..])
  }

  /** The count recorded for `k`; 0 when `k` is not a key of the table. */
  function CountOf(g: seq<Group>, k: string): nat
  {
    if g == [] then 0
    else if g[0].key == k then g[0].count
    else CountOf(g[1..], k)
  }

  /** The index of a table (`.index`): its keys in table order. */
  function Keys(g: seq<Group>): (r: seq<string>)
    ensures |r| == |g| && forall i :: 0 <= i < |g| ==> r[i] == g[i].key
  {
    seq(|g|, i requires 0 <= i < |g| => g[i].key)
  }

  /** The values of a table (`["Book ID"]` of the counts): its counts in table order. */
  function Counts(g: seq<Group>): (r: seq<int>)
    ensures |r| == |g| && forall i :: 0 <= i < |g| ==> r[i] == g[i].count
  {
    seq(|g|, i requires 0 <= i < |g| => g[i].count)
  }

  /** Keys strictly ascending, hence pairwise distinct. */
  ghost predicate Ascending(g: seq<Group>)
  {
    forall i, j :: 0 <= i < j < |g| ==> Less(g[i].key, g[j].key)
  }

  ghost predicate Below(b: string, g: seq<Group>)
  {
    forall i :: 0 <= i < |g| ==> Less(b, g[i].key)
  }

  ghost predicate Positive(g: seq<Group>)
  {
    forall i :: 0 <= i < |g| ==> g[i].count > 0
  }

  ghost predicate DistinctKeys(g: seq<Group>)
  {
    forall i, j :: 0 <= i < j < |g| ==> g[i].key != g[j].key
  }

  ghost predicate Absent(k: string, g: seq<Group>)
  {
    forall i :: 0 <= i < |g| ==> g[i].key != k
  }

  /**
   * What `groupby(...).count()` returns for the column `keys`: one group per
   * distinct value, in ascending key order, each counting the rows that hold
   * that value.
   */
  ghost predicate IsCountTable(g: seq<Group>, keys: seq<string>)
  {
    && Ascending(g)
    && Positive(g)
    && forall k :: CountOf(g, k) == multiset(keys)[k]
  }

  lemma {:induction false} CountOfBelow(b: string, g: seq<Group>)
    requires Below(b, g)
    ensures CountOf(g, b) == 0
  {
    if g != [] {
      LessImpliesDistinct(b, g[0].key);
      CountOfBelow(b, g[1..]);
    }
  }

  /** Adds one row with value `k` to a count table. */
  function Tally(k: string, g: seq<Group>): (r: seq<Group>)
    requires Ascending(g)
    ensures Ascending(r)
    ensures Positive(g) ==> Positive(r)
    ensures forall x :: CountOf(r, x) == CountOf(g, x) + (if x == k then 1 else 0)
    ensures forall b :: Below(b, g) && Less(b, k) ==> Below(b, r)
    ensures Total(r) == Total(g) + 1
  {
    if g == [] then [Group(k, 1)]
    else if g[0].key == k then [Group(k, g[0].count + 1)] + g[1..]
    else if Less(k, g[0].key) then
      assert Below(k, g) by {
        forall j | 0 < j < |g| ensures Less(k, g[j].key) {
          LessTransitive(k, g[0].key, g[j].key);
        }
      }
      CountOfBelow(k, g);
      [Group(k, 1)] + g
    else
      LessTotal(k, g[0].key);
      var rest := Tally(k, g[1..]);
      assert Below(g[0].key, rest);
      [g[0]] + rest
  }

  /** `groupby(...).count()` over one column. */
  function GroupCount(keys: seq<string>): (r: seq<Group>)
    ensures IsCountTable(r, keys)
    ensures Total(r) == |keys|
  {
    if keys == [] then []
    else
      var n := |keys| - 1;
      assert keys == keys[..n] + [keys[n]];
      Tally(keys[n], GroupCount(keys[..n]))
  }

  /** In a table with distinct keys, `CountOf` reads the group's own count. */
  lemma {:induction false} CountOfAt(g: seq<Group>, i: nat)
    requires DistinctKeys(g) && i < |g|
    ensures CountOf(g, g[i].key) == g[i].count
  {
    if i > 0 {
      CountOfAt(g[1..], i - 1);
    }
  }

  /** A key with a positive count is the key of some group. */
  lemma {:induction false} FindKey(g: seq<Group>, k: string) returns (i: nat)
    requires CountOf(g, k) > 0
    ensures i < |g| && g[i].key == k && g[i].count == CountOf(g, k)
  {
    if g[0].key == k {
      i := 0;
    } else {
      var j := FindKey(g[1..], k);
      i := j + 1;
    }
  }

  lemma AscendingDistinct(g: seq<Group>)
    requires Ascending(g)
    ensures DistinctKeys(g)
  {
    forall i, j | 0 <= i < j < |g| ensures g[i].key != g[j].key {
      LessImpliesDistinct(g[i].key, g[j].key);
    }
  }

  /** Every group of a count table is a value of the column, with its exact number of rows. */
  lemma CountTableEntry(g: seq<Group>, keys: seq<string>, i: nat)
    requires IsCountTable(g, keys) && i < |g|
    ensures g[i].count == multiset(keys)[g[i].key] > 0
    ensures g[i].key in keys
  {
    AscendingDistinct(g);
    CountOfAt(g, i);
  }

  lemma {:induction false} TotalAppend(a: seq<Group>, b: seq<Group>)
    ensures Total(a + b) == Total(a) + Total(b)
  {
    if a == [] {
      assert a + b == b;
    } else {
      assert (a + b)[1..] == a[1..] + b;
      TotalAppend(a[1..], b);
    }
  }

  lemma TotalSplit(g: seq<Group>, m: nat)
    requires m <= |g|
    ensures Total(g) == Total(g[..m]) + Total(g[m..])
  {
    assert g == g[..m] + g[m..];
    TotalAppend(g[..m], g[m..]);
  }

  // ---------------------------------------------------------------------
  // sort_values(ascending=False)

  ghost predicate NonIncreasing(s: seq<Group>)
  {
    forall i, j :: 0 <= i < j < |s| ==> s[j].count <= s[i].count
  }

  /** A group at least as large as the head of an ordered table can go in front of it. */
  lemma PrependLargest(y: Group, s: seq<Group>)
    requires NonIncreasing(s) && (s == [] || s[0].count <= y.count)
    ensures NonIncreasing([y] + s)
  {
    forall i, j | 0 <= i < j < |[y] + s| ensures ([y] + s)[j].count <= ([y] + s)[i].count {
      if i == 0 {
        assert ([y] + s)[j] == s[j - 1];
      }
    }
  }

  /** Inserts one group into a table already ordered by non-increasing count. */
  function Place(x: Group, s: seq<Group>): (r: seq<Group>)
    requires NonIncreasing(s)
    ensures NonIncreasing(r)
    ensures multiset(r) == multiset(s) + multiset{x}
    ensures |r| == |s| + 1
    ensures r[0] == x || (s != [] && r[0] == s[0])
  {
    if s == [] || s[0].count <= x.count then
      PrependLargest(x, s);
      [x] + s
    else
      var rest := Place(x, s[1..]);
      PrependLargest(s[0], rest);
      assert s == [s[0]] + s[1..];
      [s[0]] + rest
  }

  lemma {:induction false} PlaceTotal(x: Group, s: seq<Group>)
    requires NonIncreasing(s)
    ensures Total(Place(x, s)) == Total(s) + x.count
  {
    if s != [] && x.count < s[0].count {
      PlaceTotal(x, s[1..]);
      assert Place(x, s) == [s[0]] + Place(x, s[1..]);
    }
  }

  lemma {:induction false} PlaceAbsent(x: Group, s: seq<Group>, k: string)
    requires NonIncreasing(s) && Absent(k, s) && k != x.key
    ensures Absent(k, Place(x, s))
  {
    if s != [] && x.count < s[0].count {
      assert Absent(k, s[1..]);
      PlaceAbsent(x, s[1..], k);
      assert Place(x, s) == [s[0]] + Place(x, s[1..]);
    }
  }

  lemma {:induction false} PlaceDistinct(x: Group, s: seq<Group>)
    requires NonIncreasing(s) && DistinctKeys(s) && Absent(x.key, s)
    ensures DistinctKeys(Place(x, s))
  {
    if s != [] && x.count < s[0].count {
      var rest := Place(x, s[1..]);
      assert Absent(x.key, s[1..]);
      PlaceDistinct(x, s[1..]);
      assert Absent(s[0].key, s[1..]);
      PlaceAbsent(x, s[1..], s[0].key);
      assert Place(x, s) == [s[0]] + rest;
    }
  }

  /** Inserting a group adds its count to the total and brings in no key but its own. */
  lemma PlaceKeys(x: Group, s: seq<Group>)
    requires NonIncreasing(s)
    ensures Total(Place(x, s)) == Total(s) + x.count
    ensures forall k :: Absent(k, s) && k != x.key ==> Absent(k, Place(x, s))
    ensures DistinctKeys(s) && Absent(x.key, s) ==> DistinctKeys(Place(x, s))
  {
    PlaceTotal(x, s);
    forall k | Absent(k, s) && k != x.key ensures Absent(k, Place(x, s)) {
      PlaceAbsent(x, s, k);
    }
    if DistinctKeys(s) && Absent(x.key, s) {
      PlaceDistinct(x, s);
    }
  }

  /** The counts reordered from largest to smallest. */
  function SortByCount(g: seq<Group>): (r: seq<Group>)
    ensures NonIncreasing(r)
    ensures multiset(r) == multiset(g)
    ensures |r| == |g|
  {
    if g == [] then []
    else
      assert g == [g[0]] + g[1..];
      Place(g[0], SortByCount(g[1..]))
  }

  lemma {:induction false} SortByCountTotal(g: seq<Group>)
    ensures Total(SortByCount(g)) == Total(g)
  {
    if g != [] {
      SortByCountTotal(g[1..]);
      PlaceTotal(g[0], SortByCount(g[1..]));
    }
  }

  lemma {:induction false} SortByCountAbsent(g: seq<Group>, k: string)
    requires Absent(k, g)
    ensures Absent(k, SortByCount(g))
  {
    if g != [] {
      assert Absent(k, g[1..]);
      SortByCountAbsent(g[1..], k);
      PlaceAbsent(g[0], SortByCount(g[1..]), k);
    }
  }

  lemma {:induction false} SortByCountDistinct(g: seq<Group>)
    requires DistinctKeys(g)
    ensures DistinctKeys(SortByCount(g))
  {
    if g != [] {
      assert DistinctKeys(g[1..]);
      SortByCountDistinct(g[1..]);
      assert Absent(g[0].key, g[1..]);
      SortByCountAbsent(g[1..], g[0].key);
      PlaceDistinct(g[0], SortByCount(g[1..]));
    }
  }

  /** Sorting keeps the total, brings in no new key and keeps keys distinct. */
  lemma SortByCountKeys(g: seq<Group>)
    ensures Total(SortByCount(g)) == Total(g)
    ensures forall k :: Absent(k, g) ==> Absent(k, SortByCount(g))
    ensures DistinctKeys(g) ==> DistinctKeys(SortByCount(g))
  {
    SortByCountTotal(g);
    forall k | Absent(k, g) ensures Absent(k, SortByCount(g)) {
      SortByCountAbsent(g, k);
    }
    if DistinctKeys(g) {
      SortByCountDistinct(g);
    }
  }

  /** Positive counts: a table sums to zero exactly when it is empty. */
  lemma TotalZero(g: seq<Group>)
    requires Positive(g)
    ensures Total(g) == 0 <==> g == []
  {
  }

  /**
   * `groupby(...).count().sort_values(ascending=False)`: every value of the
   * column once, with its number of rows, largest count first. The order among
   * equal counts is not specified here.
   */
  function Ranked(keys: seq<string>): (r: seq<Group>)
    ensures NonIncreasing(r)
    ensures DistinctKeys(r)
    ensures Total(r) == |keys|
    ensures forall i :: 0 <= i < |r| ==> r[i].count == multiset(keys)[r[i].key] > 0
    ensures forall k :: k in keys <==> k in Keys(r)
  {
    var g := GroupCount(keys);
    SortByCountKeys(g);
    AscendingDistinct(g);
    SortedEntries(g, keys);
    SortedCovers(g, keys);
    SortByCount(g)
  }

  lemma SortedEntries(g: seq<Group>, keys: seq<string>)
    requires IsCountTable(g, keys)
    ensures forall i :: 0 <= i < |SortByCount(g)| ==>
      SortByCount(g)[i].count == multiset(keys)[SortByCount(g)[i].key] > 0 && SortByCount(g)[i].key in keys
  {
    var r := SortByCount(g);
    forall i | 0 <= i < |r|
      ensures r[i].count == multiset(keys)[r[i].key] > 0 && r[i].key in keys
    {
      assert r[i] in multiset(g);
      var j :| 0 <= j < |g| && g[j] == r[i];
      CountTableEntry(g, keys, j);
    }
  }

  lemma SortedCovers(g: seq<Group>, keys: seq<string>)
    requires IsCountTable(g, keys)
    ensures forall k :: k in keys ==> k in Keys(SortByCount(g))
  {
    var r := SortByCount(g);
    forall k | k in keys ensures k in Keys(r) {
      assert multiset(keys)[k] > 0;
      var j := FindKey(g, k);
      assert g[j] in multiset(r);
      var p :| 0 <= p < |r| && r[p] == g[j];
      assert Keys(r)[p] == k;
    }
  }
}
