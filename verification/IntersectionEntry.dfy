/** The mutable side of the intersection: buckets of rows, and the entry that
    spreads its rows over 64 of them (builtin/intersection_utils.cc, 37-228). */
module IntersectionEntries {
  import opened Intersection
  import opened Buckets
  import Sorting

  /** Six bits of the hash choose the bucket, the next six a bit in it. */
  function BucketOf(rowHash: nat): nat {
    rowHash / 0x1_0000 % 64
  }

  function SubBit(rowHash: nat): nat {
    rowHash / 0x40_0000 % 64
  }

  /** Of a hash, the lowest 16 bits are not used, the next six are the bucket's
      number and the six after them the bit's. */
  lemma HashBits(high: nat, bit: nat, bucket: nat, low: nat)
    requires bit < 64 && bucket < 64 && low < 0x1_0000
    ensures var rowHash := ((high * 64 + bit) * 64 + bucket) * 0x1_0000 + low; BucketOf(rowHash) == bucket && SubBit(rowHash) == bit
  {
    var rowHash := ((high * 64 + bit) * 64 + bucket) * 0x1_0000 + low;
    assert rowHash / 0x1_0000 == (high * 64 + bit) * 64 + bucket;
    assert rowHash / 0x40_0000 == high * 64 + bit;
  }

  /** A count, where one was given. */
  datatype Tally = None | Given(n: nat)

  datatype Item = Item(row: nat, count: Tally)

  predicate ItemLeq(x: Item, y: Item) {
    x.row < y.row || (x.row == y.row && (x.count.None? || (y.count.Given? && x.count.n <= y.count.n)))
  }

  /** Rows with their counts, or without any. */
  function Items(rows: seq<nat>, counts: seq<nat>): (s: seq<Item>)
    requires counts == [] || |counts| == |rows|
    ensures |s| == |rows| && forall i :: 0 <= i < |s| ==> s[i] == Item(rows[i], if counts == [] then None else Given(counts[i]))
  {
    seq(|rows|, i requires 0 <= i < |rows| => Item(rows[i], if counts == [] then None else Given(counts[i])))
  }

  function RowsOf(items: seq<Item>): (s: seq<nat>)
    ensures |s| == |items| && forall i :: 0 <= i < |s| ==> s[i] == items[i].row
  {
    seq<nat>(|items|, i requires 0 <= i < |items| => items[i].row)
  }

  /** The counts that were given, in order. */
  function CountsOf(items: seq<Item>): (s: seq<nat>)
    ensures |s| <= |items|
    ensures AllCounted(items) ==> |s| == |items| && forall i :: 0 <= i < |s| ==> s[i] == items[i].count.n
  {
    if items == [] then [] else
    var last := items[|items| - 1];
    CountsOf(items[..|items| - 1]) + if last.count.Given? then [last.count.n] else []
  }

  predicate AllCounted(items: seq<Item>) {
    forall i :: 0 <= i < |items| ==> items[i].count.Given?
  }

  predicate NoneCounted(items: seq<Item>) {
    forall i :: 0 <= i < |items| ==> items[i].count.None?
  }

  /** There is a count for each row, or none at all. */
  predicate Uniform(items: seq<Item>) {
    AllCounted(items) || NoneCounted(items)
  }

  lemma {:induction false} CountsOfUniform(items: seq<Item>)
    ensures CountsOf(items) == [] <==> NoneCounted(items)
    ensures |CountsOf(items)| == |items| <==> AllCounted(items)
  {
    if items != [] {
      var front := items[..|items| - 1];
      CountsOfUniform(front);
      assert items == front + [items[|items| - 1]];
      assert AllCounted(items) <==> AllCounted(front) && items[|items| - 1].count.Given?;
      assert NoneCounted(items) <==> NoneCounted(front) && items[|items| - 1].count.None?;
    }
  }

  lemma SortedItems(items: seq<Item>)
    ensures Sorting.SortedBy(Sorting.Sort(items, ItemLeq), ItemLeq)
    ensures multiset(Sorting.Sort(items, ItemLeq)) == multiset(items) && |Sorting.Sort(items, ItemLeq)| == |items|
  {
    Sorting.SortSorts(items, ItemLeq);
    assert |multiset(Sorting.Sort(items, ItemLeq))| == |multiset(items)|;
  }

  ghost predicate Ascending(rows: seq<nat>) {
    forall i, j :: 0 <= i < j < |rows| ==> rows[i] <= rows[j]
  }

  /** Equal rows are in the order of their counts. */
  ghost predicate CountsAscend(rows: seq<nat>, counts: seq<nat>) {
    forall i, j :: 0 <= i < j < |rows| && j < |counts| && rows[i] == rows[j] ==> counts[i] <= counts[j]
  }

  /** Every row's bit is set. */
  ghost predicate Mapped(rows: seq<nat>, bitmap: set<nat>, hash: nat -> nat) {
    forall k :: 0 <= k < |rows| ==> SubBit(hash(rows[k])) in bitmap
  }

  /** The part of a run that ends before `j`, with its count in 16 bits. */
  ghost function RunOf(rows: seq<nat>, i: nat, j: nat): seq<nat>
    requires i <= j <= |rows| && i < |rows|
  {
    [High(rows[i]), (j - i) % 0x1_0000] + Lows(rows, i, j)
  }

  lemma RunGrows(before: seq<nat>, rows: seq<nat>, i: nat, j: nat)
    requires i <= j < |rows|
    ensures var c, e := before + RunOf(rows, i, j) + [Low(rows[j])], |before| + 1;
            c[e := (c[e] + 1) % 0x1_0000] == before + RunOf(rows, i, j + 1)
  {
    var c, e := before + RunOf(rows, i, j) + [Low(rows[j])], |before| + 1;
    assert c[e] == (j - i) % 0x1_0000;
    assert Lows(rows, i, j + 1) == Lows(rows, i, j) + [Low(rows[j])];
  }

  lemma Grows(before: seq<nat>, after: seq<nat>, rows: seq<nat>, i: nat)
    requires i < |rows| && Run(rows, i) - i <= 0xffff && after == before + RunOf(rows, i, Run(rows, i))
    ensures before + Compressed(rows, i) == after + Compressed(rows, Run(rows, i))
  {
    FirstRun(rows, i);
  }

  /** A cursor of forEach: at a run, or, in steps of two, in the zero padding. */
  ghost predicate ToRead(c: seq<nat>, i: nat, rows: seq<nat>, k: nat) {
    && i <= |c| && |c| >= 8 && k <= |rows| && (forall x :: |c| - 8 <= x < |c| ==> c[x] == 0)
    && (k < |rows| ==> Cursor(c, i, rows, k, 0xffff))
    && (k == |rows| ==> i + 8 >= |c| && (|c| - i) % 2 == 0)
  }

  lemma ReadStarts(c: seq<nat>, rows: seq<nat>)
    requires Fits(rows, 0, 0xffff) && c == Compressed(rows, 0) + PADDING
    ensures ToRead(c, 0, rows, 0)
  {
    CursorStarts(c, [], rows, 0, 0xffff);
    assert forall x :: |c| - 8 <= x < |c| ==> c[x] == PADDING[x - (|c| - 8)];
  }

  lemma NextRun(c: seq<nat>, i: nat, rows: seq<nat>, k: nat)
    requires ToRead(c, i, rows, k) && i < |c|
    ensures i + 2 <= |c| && i + 2 + c[i + 1] <= |c|
    ensures ToRead(c, i + 2 + c[i + 1], rows, if k < |rows| then Run(rows, k) else k)
  {
    if k < |rows| {
      CursorAtRun(c, i, rows, k, 0xffff);
      CursorAtRun(c, i + 2 + c[i + 1], rows, Run(rows, k), 0xffff);
    }
  }

  lemma MoreRows(c: seq<nat>, i: nat, rows: seq<nat>, k: nat, k': nat, more: seq<nat>)
    requires ToRead(c, i, rows, k) && i + 2 <= |c| && i + 2 + c[i + 1] <= |c| && |more| == c[i + 1]
    requires forall x :: 0 <= x < |more| ==> more[x] == c[i] * 0x1_0000 + c[i + 2 + x]
    requires k' == if k < |rows| then Run(rows, k) else k
    ensures rows[..k] + more == rows[..k']
  {
    if k < |rows| {
      CursorAtRun(c, i, rows, k, 0xffff);
      RunIs(rows, k);
      forall x | k <= x < k' ensures more[x - k] == rows[x] {
        assert LowAt(c, i + 2, rows, k, x);
      }
    }
  }

  class Bucket {
    var rows: seq<nat>
    var counts: seq<nat>
    var compressed: seq<nat>
    var bitmap: set<nat>      // the bits that are set

    constructor ()
      ensures rows == counts == compressed == [] && bitmap == {}
    {
      rows, counts, compressed, bitmap := [], [], [], {};
    }

    /** Sorted, with or without counts, and compressed or not; what calcOverlap
        relies on. */
    ghost predicate Ready(hash: nat -> nat)
      reads this
    {
      && Strict(rows) && Ints(rows) && Counted(rows, counts) && Mapped(rows, bitmap, hash)
      && (compressed == [] || Compressible(compressed, rows))
    }

    method Add(row: nat, rowHash: nat)
      modifies this`rows, this`bitmap
      ensures rows == old(rows) + [row] && bitmap == old(bitmap) + {SubBit(rowHash)}
    {
      bitmap := bitmap + {SubBit(rowHash)};
      rows := rows + [row];
    }

    method AddCounted(row: nat, rowHash: nat, count: nat)
      modifies this`rows, this`counts, this`bitmap
      ensures rows == old(rows) + [row] && counts == old(counts) + [count] && bitmap == old(bitmap) + {SubBit(rowHash)}
    {
      bitmap := bitmap + {SubBit(rowHash)};
      rows := rows + [row];
      counts := counts + [count];
    }

    /** Either of them. */
    method AddItem(row: nat, rowHash: nat, count: Tally)
      modifies this`rows, this`counts, this`bitmap
      ensures rows == old(rows) + [row] && bitmap == old(bitmap) + {SubBit(rowHash)}
      ensures counts == if count.Given? then old(counts) + [count.n] else old(counts)
    {
      match count {
        case Given(n) => AddCounted(row, rowHash, n);
        case None => Add(row, rowHash);
      }
    }

    /** Rows and counts stay together; `!ok` is the assertion that there is a
        count for each row. */
    method Sort() returns (ok: bool)
      modifies this`rows, this`counts
      ensures ok <==> old(counts) == [] || |old(counts)| == |old(rows)|
      ensures ok ==> Ascending(rows) && CountsAscend(rows, counts) && (counts == [] <==> old(counts) == []) && Counted(rows, counts)
                     && multiset(Items(rows, counts)) == multiset(Items(old(rows), old(counts)))
      ensures !ok ==> rows == old(rows) && counts == old(counts)
    {
      if counts != [] && |rows| != |counts| { return false; }
      var items := Items(rows, counts);
      var sorted := Sorting.Sort(items, ItemLeq);
      ItemsSorted(rows, counts);
      if counts == [] {
        rows := RowsOf(sorted);
      } else {
        rows, counts := RowsOf(sorted), CountsOf(sorted);
      }
      return true;
    }

    /** The compressed form; `!ok` is the assertion that a run's 16-bit count
        did not wrap, which it does at 65536. */
    method Compress() returns (ok: bool)
      requires compressed == []
      modifies this`compressed
      ensures ok <==> Fits(rows, 0, 0xffff)
      ensures ok ==> compressed == Compressed(rows, 0) + PADDING
    {
      var i := 0;
      while i < |rows|
        invariant i <= |rows| && (Fits(rows, 0, 0xffff) <==> Fits(rows, i, 0xffff))
        invariant compressed + Compressed(rows, i) == Compressed(rows, 0)
      {
        FirstRun(rows, i);
        ghost var before := compressed;
        var j, fits := CompressRun(i);
        if !fits { return false; }
        Grows(before, compressed, rows, i);
        i := j;
      }
      compressed := compressed + PADDING;
      return true;
    }

    /** One run, from `i`: its high half, its count, its low halves. */
    method CompressRun(i: nat) returns (j: nat, fits: bool)
      requires i < |rows|
      modifies this`compressed
      ensures j == Run(rows, i) && (fits <==> j - i <= 0xffff)
      ensures compressed == old(compressed) + RunOf(rows, i, j)
    {
      var activeHigh := High(rows[i]);
      compressed := compressed + [activeHigh];
      var countEntry := |compressed|;
      compressed := compressed + [0];
      var n := 0;
      j := i;
      while j < |rows| && High(rows[j]) == activeHigh
        invariant i <= j <= |rows| && n == j - i && RunEnd(rows, j, activeHigh) == RunEnd(rows, i, activeHigh)
        invariant countEntry == |old(compressed)| + 1
        invariant compressed == old(compressed) + RunOf(rows, i, j)
      {
        RunGrows(old(compressed), rows, i, j);
        compressed := compressed + [Low(rows[j])];
        compressed := compressed[countEntry := (compressed[countEntry] + 1) % 0x1_0000];
        j, n := j + 1, n + 1;
      }
      fits := compressed[countEntry] == n;
    }

    /** forEach: the rows, from the compressed form if there is one. The padding
        reads as four empty runs. */
    method ForEach() returns (out: seq<nat>)
      requires compressed == [] || (Fits(rows, 0, 0xffff) && compressed == Compressed(rows, 0) + PADDING)
      ensures out == rows
    {
      if compressed == [] { return rows; }
      ReadStarts(compressed, rows);
      out := ReadRuns(compressed, rows);
    }

    /** calcOverlap, by whichever of its paths. */
    method CalcOverlap(other: Bucket, space: Space, byEights: bool, hierarchical: bool, ghost hash: nat -> nat) returns (r: Outcome)
      requires Ready(hash) && other.Ready(hash) && (compressed == [] <==> other.compressed == [])
      ensures r == Overlap(rows, counts, other.rows, other.counts, space)
      decreases if |rows| < |other.rows| then 1 else 0
    {
      if |rows| < |other.rows| {
        r := other.CalcOverlap(this, space, byEights, hierarchical, hash);
        OverlapSwaps(rows, counts, other.rows, other.counts, space);
        return;
      }
      if other.rows == [] {
        OverlapOfNothing(rows, counts, other.rows, other.counts, space);
        return Value(0);
      }
      if bitmap != {} && other.bitmap != {} && bitmap * other.bitmap == {} {
        MapsApart(rows, bitmap, other.rows, other.bitmap, hash);
        OverlapOfNothing(rows, counts, other.rows, other.counts, space);
        return Value(0);
      }
      if |other.rows| * 100 < |rows| {
        r := Lookups(rows, counts, other.rows, other.counts, space);
        return;
      }
      match space {
        case HAMMING =>
          OverlapIsHamming(rows, counts, other.rows, other.counts);
          var result;
          if compressed != [] && hierarchical {
            result := CompressedOverlap(compressed, rows, other.compressed, other.rows, byEights);
          } else {
            result := IntersectionCount(rows, other.rows, byEights);
          }
          return Value(result);
        case PYTHAGOREAN =>
          r := DotProduct(rows, counts, other.rows, other.counts);
      }
    }
  }

  /** intersectionCount on 32-bit values, in both forms. */
  method IntersectionCount(a: seq<nat>, b: seq<nat>, optimized: bool) returns (result: nat)
    requires Strict(a) && Strict(b) && Ints(a) && Ints(b)
    ensures result == |SetOf(a) * SetOf(b)|
  {
    if optimized { result := CountIntersection(a, b); } else { result := CountBasic(a, b); }
  }

  /** A row in both has its bit in both maps. */
  lemma MapsApart(rows1: seq<nat>, bitmap1: set<nat>, rows2: seq<nat>, bitmap2: set<nat>, hash: nat -> nat)
    requires Mapped(rows1, bitmap1, hash) && Mapped(rows2, bitmap2, hash) && bitmap1 * bitmap2 == {}
    ensures SetOf(rows1) * SetOf(rows2) == {}
  {
    forall x | x in SetOf(rows1) ensures x !in SetOf(rows2) {
      assert x in SetOf(rows2) ==> SubBit(hash(x)) in bitmap1 * bitmap2;
    }
  }

  /** The loop of forEach over compressed rows. */
  method ReadRuns(c: seq<nat>, ghost rows: seq<nat>) returns (out: seq<nat>)
    requires ToRead(c, 0, rows, 0)
    ensures out == rows
  {
    out := [];
    var i: nat := 0;
    ghost var k: nat := 0;
    while i < |c|
      invariant ToRead(c, i, rows, k) && out == rows[..k]
      decreases |c| - i
    {
      NextRun(c, i, rows, k);
      var high, n := c[i], c[i + 1];
      var more := RunRows(c, high, i + 2, n);
      out := out + more;
      ghost var k' := if k < |rows| then Run(rows, k) else k;
      MoreRows(c, i, rows, k, k', more);
      i, k := i + 2 + n, k';
    }
  }

  /** Its inner loop. */
  method RunRows(c: seq<nat>, high: nat, from: nat, n: nat) returns (out: seq<nat>)
    requires from + n <= |c|
    ensures |out| == n && forall x :: 0 <= x < n ==> out[x] == high * 0x1_0000 + c[from + x]
  {
    out := [];
    var i, end := from, from + n;
    while i < end
      invariant from <= i <= end && |out| == i - from
      invariant forall x :: 0 <= x < |out| ==> out[x] == high * 0x1_0000 + c[from + x]
    {
      out := out + [high * 0x1_0000 + c[i]];
      i := i + 1;
    }
  }

  /** What the sorted pairs are, taken apart again. */
  lemma ItemsSorted(rows: seq<nat>, counts: seq<nat>)
    requires Counted(rows, counts)
    ensures var sorted := Sorting.Sort(Items(rows, counts), ItemLeq);
            var rows', counts' := RowsOf(sorted), if counts == [] then [] else CountsOf(sorted);
            Ascending(rows') && CountsAscend(rows', counts') && Counted(rows', counts') && (counts' == [] <==> counts == [])
            && multiset(Items(rows', counts')) == multiset(Items(rows, counts))
  {
    var items := Items(rows, counts);
    var sorted := Sorting.Sort(items, ItemLeq);
    SortedItems(items);
    SameCounted(sorted, items);
    assert forall i, j :: 0 <= i < j < |sorted| ==> ItemLeq(sorted[i], sorted[j]);
    if counts != [] { assert Items(RowsOf(sorted), CountsOf(sorted)) == sorted; }
  }

  /** Sorting leaves counted items counted, and the others not. */
  lemma SameCounted(sorted: seq<Item>, items: seq<Item>)
    requires multiset(sorted) == multiset(items)
    ensures AllCounted(items) ==> AllCounted(sorted)
    ensures NoneCounted(items) ==> NoneCounted(sorted) && Items(RowsOf(sorted), []) == sorted
  {
    forall i | 0 <= i < |sorted| ensures sorted[i] in items { assert sorted[i] in multiset(sorted); }
  }

  // ------------------------------------------------------ the whole entry

  ghost predicate DistinctRows(items: seq<Item>) {
    forall i, j :: 0 <= i < j < |items| ==> Differ(items, i, j)
  }

  ghost predicate Differ(items: seq<Item>, i: nat, j: nat)
    requires i < |items| && j < |items|
  {
    items[i].row != items[j].row
  }

  lemma SameRow(items: seq<Item>, p: nat, q: nat)
    requires DistinctRows(items) && p < |items| && q < |items| && items[p].row == items[q].row
    ensures p == q
  {
    assert p < q ==> Differ(items, p, q);
    assert q < p ==> Differ(items, q, p);
  }

  /** The items that hash to bucket `b`. */
  ghost function InBucket(items: seq<Item>, b: nat, hash: nat -> nat): seq<Item> {
    if items == [] then []
    else InBucket(items[..|items| - 1], b, hash)
         + if BucketOf(hash(items[|items| - 1].row)) == b then [items[|items| - 1]] else []
  }

  lemma {:induction false} InBucketHas(items: seq<Item>, b: nat, hash: nat -> nat)
    ensures forall x :: x in InBucket(items, b, hash) <==> x in items && BucketOf(hash(x.row)) == b
  {
    if items != [] {
      InBucketHas(items[..|items| - 1], b, hash);
      assert items == items[..|items| - 1] + [items[|items| - 1]];
    }
  }

  lemma {:induction false} InBucketOnce(items: seq<Item>, b: nat, hash: nat -> nat, x: Item)
    requires DistinctRows(items)
    ensures multiset(InBucket(items, b, hash))[x] <= 1
  {
    if items != [] {
      var n := |items| - 1;
      var front := items[..n];
      assert DistinctRows(front) by {
        forall i, j | 0 <= i < j < n ensures Differ(front, i, j) { assert Differ(items, i, j); }
      }
      InBucketOnce(front, b, hash, x);
      InBucketHas(front, b, hash);
      forall i | 0 <= i < n ensures front[i] != items[n] { assert Differ(items, i, n); }
    }
  }

  lemma TwoCopies(s: seq<Item>, i: nat, j: nat)
    requires i < j < |s| && s[i] == s[j]
    ensures multiset(s)[s[i]] >= 2
  {
    assert s == s[..j] + s[j..];
    assert s[i] == s[..j][i] && s[j] == s[j..][0];
    assert s[i] in multiset(s[..j]) && s[i] in multiset(s[j..]);
  }

  /** What a bucket holds before it is sorted: its rows as they were added, and
      the counts that were given, wherever. */
  ghost predicate Added(rows: seq<nat>, counts: seq<nat>, b: nat, items: seq<Item>, hash: nat -> nat) {
    rows == RowsOf(InBucket(items, b, hash)) && counts == CountsOf(InBucket(items, b, hash))
  }

  lemma AddedHas(rows: seq<nat>, counts: seq<nat>, b: nat, items: seq<Item>, hash: nat -> nat)
    requires Added(rows, counts, b, items, hash)
    ensures Counted(rows, counts) <==> Uniform(InBucket(items, b, hash))
    ensures Counted(rows, counts) ==> Has(rows, counts, b, items, hash)
  {
    var own := InBucket(items, b, hash);
    CountsOfUniform(own);
    if Counted(rows, counts) { assert Items(rows, counts) == own; }
  }

  /** What a bucket holds, in whatever order, its counts beside its rows. */
  ghost predicate Has(rows: seq<nat>, counts: seq<nat>, b: nat, items: seq<Item>, hash: nat -> nat) {
    && Counted(rows, counts)
    && multiset(Items(rows, counts)) == multiset(InBucket(items, b, hash))
  }

  lemma HasRow(rows: seq<nat>, counts: seq<nat>, b: nat, items: seq<Item>, hash: nat -> nat, i: nat)
    requires Has(rows, counts, b, items, hash) && i < |rows|
    ensures Items(rows, counts)[i] in items && BucketOf(hash(rows[i])) == b
  {
    var x := Items(rows, counts)[i];
    assert x in multiset(Items(rows, counts));
    assert x in InBucket(items, b, hash);
    InBucketHas(items, b, hash);
  }

  /** The rows of bucket `b` are the entry's rows that hash to it. */
  lemma HasRows(rows: seq<nat>, counts: seq<nat>, b: nat, items: seq<Item>, hash: nat -> nat, x: nat)
    requires Has(rows, counts, b, items, hash)
    ensures x in SetOf(rows) <==> x in SetOf(RowsOf(items)) && BucketOf(hash(x)) == b
  {
    if x in rows {
      var i :| 0 <= i < |rows| && rows[i] == x;
      HasRow(rows, counts, b, items, hash, i);
      var j :| 0 <= j < |items| && items[j] == Items(rows, counts)[i];
      assert RowsOf(items)[j] == x;
    }
    if x in RowsOf(items) && BucketOf(hash(x)) == b {
      var j :| 0 <= j < |items| && items[j].row == x;
      InBucketHas(items, b, hash);
      assert items[j] in multiset(Items(rows, counts));
      var i :| 0 <= i < |rows| && Items(rows, counts)[i] == items[j];
    }
  }

  /** In order and distinct is strictly increasing. */
  lemma HasStrict(rows: seq<nat>, counts: seq<nat>, b: nat, items: seq<Item>, hash: nat -> nat)
    requires Has(rows, counts, b, items, hash) && DistinctRows(items) && Ascending(rows)
    ensures Strict(rows)
  {
    var own := Items(rows, counts);
    forall i, j | 0 <= i < j < |rows| ensures Below(rows, i, j) {
      HasRow(rows, counts, b, items, hash, i);
      HasRow(rows, counts, b, items, hash, j);
      if rows[i] == rows[j] {
        var p :| 0 <= p < |items| && items[p] == own[i];
        var q :| 0 <= q < |items| && items[q] == own[j];
        SameRow(items, p, q);
        TwoCopies(own, i, j);
        InBucketOnce(items, b, hash, own[i]);
      }
    }
  }

  /** The count of row `x`, or 0. */
  ghost function ItemCount(items: seq<Item>, x: nat): nat {
    if exists i :: 0 <= i < |items| && items[i].row == x
    then var i :| 0 <= i < |items| && items[i].row == x; if items[i].count.Given? then items[i].count.n else 0
    else 0
  }

  /** Row `x` was added without a count. */
  ghost predicate Countless(items: seq<Item>, x: nat) {
    exists i :: 0 <= i < |items| && items[i].row == x && items[i].count.None?
  }

  /** The one item whose row is `x`, in the bucket and in the entry. */
  lemma HasItem(rows: seq<nat>, counts: seq<nat>, b: nat, items: seq<Item>, hash: nat -> nat, x: nat) returns (i: nat, p: nat)
    requires Has(rows, counts, b, items, hash) && DistinctRows(items) && x in rows
    ensures i < |rows| && rows[i] == x && p < |items| && items[p] == Items(rows, counts)[i]
    ensures forall q :: 0 <= q < |items| && items[q].row == x ==> q == p
  {
    i :| 0 <= i < |rows| && rows[i] == x;
    HasRow(rows, counts, b, items, hash, i);
    p :| 0 <= p < |items| && items[p] == Items(rows, counts)[i];
    forall q | 0 <= q < |items| && items[q].row == x ensures q == p { SameRow(items, p, q); }
  }

  lemma HasCountless(rows: seq<nat>, counts: seq<nat>, b: nat, items: seq<Item>, hash: nat -> nat, x: nat)
    requires Has(rows, counts, b, items, hash) && DistinctRows(items) && x in rows
    ensures Countless(items, x) <==> counts == []
  {
    var i, p := HasItem(rows, counts, b, items, hash, x);
  }

  lemma HasCount(rows: seq<nat>, counts: seq<nat>, b: nat, items: seq<Item>, hash: nat -> nat, x: nat)
    requires Has(rows, counts, b, items, hash) && DistinctRows(items) && Strict(rows) && x in rows && counts != []
    ensures CountOf(rows, counts, x) == ItemCount(items, x)
  {
    var i, p := HasItem(rows, counts, b, items, hash, x);
    CountAt(rows, counts, i);
    var q :| 0 <= q < |items| && items[q].row == x && ItemCount(items, x) == if items[q].count.Given? then items[q].count.n else 0;
  }
}
