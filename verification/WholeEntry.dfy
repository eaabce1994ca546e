/** IntersectionEntry: rows spread over 64 buckets by their hash, and the overlap
    of two entries as the sum over buckets (builtin/intersection_utils.cc, 146-228). */
module WholeEntries {
  import opened Intersection
  import opened Buckets
  import opened IntersectionEntries

  /** A row's entry in both: the rows in common, over all buckets. */
  ghost function CommonRows(items1: seq<Item>, items2: seq<Item>): set<nat> {
    SetOf(RowsOf(items1)) * SetOf(RowsOf(items2))
  }

  ghost function ItemWeight(items1: seq<Item>, items2: seq<Item>, space: Space): nat -> nat {
    if space == HAMMING then ONE else x => Times(ItemCount(items1, x), ItemCount(items2, x))
  }

  /** Some row of `s` was added without a count, to either entry, where counts
      are multiplied. */
  ghost predicate Missing(items1: seq<Item>, items2: seq<Item>, space: Space, s: set<nat>) {
    space == PYTHAGOREAN && exists x :: x in s && (Countless(items1, x) || Countless(items2, x))
  }

  /** What overlap means for the rows that were added, wherever they are kept. */
  ghost function Meaning(items1: seq<Item>, items2: seq<Item>, space: Space): Outcome {
    if Missing(items1, items2, space, CommonRows(items1, items2)) then OutOfRange
    else Value(Sum(CommonRows(items1, items2), ItemWeight(items1, items2, space)))
  }

  lemma MeaningIsHamming(items1: seq<Item>, items2: seq<Item>)
    ensures Meaning(items1, items2, HAMMING) == Value(|SetOf(RowsOf(items1)) * SetOf(RowsOf(items2))|)
  {
    SumOfOnes(CommonRows(items1, items2));
  }

  /** The count that was given with a row. */
  lemma ItemCountIs(items: seq<Item>, i: nat)
    requires DistinctRows(items) && i < |items| && items[i].count.Given?
    ensures ItemCount(items, items[i].row) == items[i].count.n
  {
    var q :| 0 <= q < |items| && items[q].row == items[i].row
             && ItemCount(items, items[i].row) == if items[q].count.Given? then items[q].count.n else 0;
    SameRow(items, i, q);
  }

  /** The product of the two counts of a row. */
  ghost function Product(items1: seq<Item>, items2: seq<Item>): nat -> nat {
    x => ItemCount(items1, x) * ItemCount(items2, x)
  }

  /** Below 2^32, and the same but for a multiple of 2^32. */
  predicate Reduces(n: nat, w: nat) {
    w < 0x1_0000_0000 && (n - w) % 0x1_0000_0000 == 0
  }

  /** In Pythagorean space the meaning is the dot product of the counts, as long as
      each product of two counts of a common row is below 2^32; in any case what is
      summed is the product but for a multiple of 2^32. */
  lemma MeaningIsDotProduct(items1: seq<Item>, items2: seq<Item>) returns (summand: nat -> nat)
    requires forall x :: x in CommonRows(items1, items2) ==> !Countless(items1, x) && !Countless(items2, x)
    ensures Meaning(items1, items2, PYTHAGOREAN) == Value(Sum(CommonRows(items1, items2), summand))
    ensures forall x :: Reduces(Product(items1, items2)(x), summand(x))
    ensures (forall x :: x in CommonRows(items1, items2) ==> Product(items1, items2)(x) < 0x1_0000_0000) ==>
              Meaning(items1, items2, PYTHAGOREAN) == Value(Sum(CommonRows(items1, items2), Product(items1, items2)))
  {
    var common, p := CommonRows(items1, items2), Product(items1, items2);
    summand := ItemWeight(items1, items2, PYTHAGOREAN);
    assert !Missing(items1, items2, PYTHAGOREAN, common);
    forall x ensures Reduces(p(x), summand(x)) && (p(x) < 0x1_0000_0000 ==> summand(x) == p(x)) { WeightReduces(items1, items2, x); }
    if forall x :: x in common ==> p(x) < 0x1_0000_0000 { SumSame(common, summand, p); }
  }

  lemma WeightReduces(items1: seq<Item>, items2: seq<Item>, x: nat)
    ensures var n, w := Product(items1, items2)(x), ItemWeight(items1, items2, PYTHAGOREAN)(x); Reduces(n, w) && (n < 0x1_0000_0000 ==> w == n)
  {
    Wraps(Product(items1, items2)(x));
  }

  lemma Wraps(n: nat)
    ensures n % 0x1_0000_0000 < 0x1_0000_0000 && (n - n % 0x1_0000_0000) % 0x1_0000_0000 == 0
    ensures n < 0x1_0000_0000 ==> n % 0x1_0000_0000 == n
  {
  }

  // -------------------------------------------------------- bucket by bucket

  ghost function In(s: set<nat>, b: nat, hash: nat -> nat): set<nat> {
    set x | x in s && BucketOf(hash(x)) == b
  }

  ghost function InBelow(s: set<nat>, b: nat, hash: nat -> nat): set<nat> {
    set x | x in s && BucketOf(hash(x)) < b
  }

  lemma OneMoreBucket(s: set<nat>, b: nat, hash: nat -> nat, w: nat -> nat)
    ensures Sum(InBelow(s, b + 1, hash), w) == Sum(InBelow(s, b, hash), w) + Sum(In(s, b, hash), w)
    ensures InBelow(s, b + 1, hash) == InBelow(s, b, hash) + In(s, b, hash)
  {
    assert InBelow(s, b + 1, hash) == InBelow(s, b, hash) + In(s, b, hash);
    SumSplit(InBelow(s, b, hash), In(s, b, hash), w);
  }

  /** A bucket and what it holds. */
  ghost predicate Sorted(rows: seq<nat>, counts: seq<nat>, b: nat, items: seq<Item>, hash: nat -> nat) {
    Has(rows, counts, b, items, hash) && DistinctRows(items) && Strict(rows)
  }

  lemma BucketCommon(rows1: seq<nat>, counts1: seq<nat>, items1: seq<Item>,
                     rows2: seq<nat>, counts2: seq<nat>, items2: seq<Item>, b: nat, hash: nat -> nat)
    requires Has(rows1, counts1, b, items1, hash) && Has(rows2, counts2, b, items2, hash)
    ensures SetOf(rows1) * SetOf(rows2) == In(CommonRows(items1, items2), b, hash)
  {
    forall x ensures x in SetOf(rows1) * SetOf(rows2) <==> x in In(CommonRows(items1, items2), b, hash) {
      HasRows(rows1, counts1, b, items1, hash, x);
      HasRows(rows2, counts2, b, items2, hash, x);
    }
  }

  /** A bucket's overlap, in terms of the rows that were added to the entries. */
  lemma BucketOverlap(rows1: seq<nat>, counts1: seq<nat>, items1: seq<Item>,
                      rows2: seq<nat>, counts2: seq<nat>, items2: seq<Item>, b: nat, hash: nat -> nat, space: Space)
    requires Sorted(rows1, counts1, b, items1, hash) && Sorted(rows2, counts2, b, items2, hash)
    ensures Overlap(rows1, counts1, rows2, counts2, space) == BucketMeaning(b, items1, items2, hash, space)
  {
    BucketCommon(rows1, counts1, items1, rows2, counts2, items2, b, hash);
    var here := In(CommonRows(items1, items2), b, hash);
    forall x | x in here ensures (Countless(items1, x) <==> counts1 == []) && (Countless(items2, x) <==> counts2 == []) {
      assert x in SetOf(rows1) && x in SetOf(rows2);
      HasCountless(rows1, counts1, b, items1, hash, x);
      HasCountless(rows2, counts2, b, items2, hash, x);
    }
    if space == PYTHAGOREAN && counts1 != [] && counts2 != [] {
      forall x | x in here ensures CountOf(rows1, counts1, x) == ItemCount(items1, x) && CountOf(rows2, counts2, x) == ItemCount(items2, x) {
        assert x in SetOf(rows1) && x in SetOf(rows2);
        HasCount(rows1, counts1, b, items1, hash, x);
        HasCount(rows2, counts2, b, items2, hash, x);
      }
      SumSame(here, Weight(rows1, counts1, rows2, counts2, space), ItemWeight(items1, items2, space));
    }
  }

  // ----------------------------------------------------------- run lengths

  /** In no bucket do more than 32767 rows share a high half. */
  ghost predicate RunsFit(items: seq<Item>, hash: nat -> nat) {
    forall b, h :: |Sharing(items, b, h, hash)| <= 0x7fff
  }

  ghost function Sharing(items: seq<Item>, b: nat, h: nat, hash: nat -> nat): set<nat> {
    set x | x in SetOf(RowsOf(items)) && BucketOf(hash(x)) == b && High(x) == h
  }

  lemma {:induction false} StrictSize(mem: seq<nat>, lo: nat, hi: nat)
    requires lo <= hi && StrictIn(mem, lo, hi)
    ensures |SetIn(mem, lo, hi)| == hi - lo
    decreases hi - lo
  {
    if lo < hi {
      IncreasingIn(mem, lo, hi);
      StrictSize(mem, lo, hi - 1);
      assert SetIn(mem, lo, hi) == SetIn(mem, lo, hi - 1) + {mem[hi - 1]};
    } else {
      assert SetIn(mem, lo, hi) == {};
    }
  }

  lemma SubsetSize(s: set<nat>, t: set<nat>)
    requires s <= t
    ensures |s| <= |t|
  {
    assert t == s + (t - s);
  }

  lemma {:induction false} BucketFits(rows: seq<nat>, counts: seq<nat>, b: nat, items: seq<Item>, hash: nat -> nat, k: nat)
    requires k <= |rows| && Sorted(rows, counts, b, items, hash) && RunsFit(items, hash)
    ensures Fits(rows, k, 0x7fff)
    decreases |rows| - k
  {
    if k < |rows| {
      var j, h := Run(rows, k), High(rows[k]);
      RunIs(rows, k);
      StrictIsStrictIn(rows, k, j);
      StrictSize(rows, k, j);
      forall x | x in SetIn(rows, k, j) ensures x in Sharing(items, b, h, hash) {
        HasRows(rows, counts, b, items, hash, x);
      }
      SubsetSize(SetIn(rows, k, j), Sharing(items, b, h, hash));
      BucketFits(rows, counts, b, items, hash, j);
    }
  }

  lemma StrictIsStrictIn(rows: seq<nat>, lo: nat, hi: nat)
    requires Strict(rows) && hi <= |rows|
    ensures StrictIn(rows, lo, hi)
  {
  }

  lemma {:induction false} FitsMore(rows: seq<nat>, k: nat, limit: nat, more: nat)
    requires k <= |rows| && limit <= more && Fits(rows, k, limit)
    ensures Fits(rows, k, more)
    decreases |rows| - k
  {
    if k < |rows| { FitsMore(rows, Run(rows, k), limit, more); }
  }

  /** In bucket `b`, a count was given with every row or with none. */
  ghost predicate UniformAt(items: seq<Item>, b: nat, hash: nat -> nat) {
    Uniform(InBucket(items, b, hash))
  }

  ghost predicate Sortable(items: seq<Item>, hash: nat -> nat) {
    forall b :: 0 <= b < 64 ==> UniformAt(items, b, hash)
  }

  // ---------------------------------------------------------------- the entry

  class IntersectionEntry {
    const buckets: seq<Bucket>
    var totalRows: nat
    var bitmap: set<nat>      // buckets that are not empty

    ghost predicate Shape() {
      |buckets| == 64 && forall i, j :: 0 <= i < j < 64 ==> buckets[i] != buckets[j]
    }

    /** What was added to bucket `b`, in order. */
    ghost predicate AddedAt(b: nat, items: seq<Item>, hash: nat -> nat)
      requires b < |buckets|
      reads this`bitmap, buckets[b]
    {
      && Added(buckets[b].rows, buckets[b].counts, b, items, hash)
      && Mapped(buckets[b].rows, buckets[b].bitmap, hash)
      && (buckets[b].rows != [] ==> b in bitmap)
      && buckets[b].compressed == []
    }

    /** The entry has been given just these items, and not been sorted. */
    ghost predicate Given(items: seq<Item>, hash: nat -> nat)
      reads this, buckets
    {
      Shape() && totalRows == |items| && forall b :: 0 <= b < 64 ==> AddedAt(b, items, hash)
    }

    ghost predicate HoldsAt(b: nat, items: seq<Item>, hash: nat -> nat)
      requires b < |buckets|
      reads this`bitmap, buckets[b]
    {
      && Has(buckets[b].rows, buckets[b].counts, b, items, hash)
      && Mapped(buckets[b].rows, buckets[b].bitmap, hash)
      && (buckets[b].rows != [] ==> b in bitmap)
    }

    /** The entry holds just the items added. */
    ghost predicate Holds(items: seq<Item>, hash: nat -> nat)
      reads this, buckets
    {
      Shape() && totalRows == |items| && forall b :: 0 <= b < 64 ==> HoldsAt(b, items, hash)
    }

    constructor ()
      ensures Shape() && fresh(buckets) && totalRows == 0 && bitmap == {}
      ensures forall b :: 0 <= b < 64 ==> buckets[b].rows == buckets[b].counts == buckets[b].compressed == [] && buckets[b].bitmap == {}
    {
      var bs: seq<Bucket> := [];
      while |bs| < 64
        invariant |bs| <= 64 && forall i, j :: 0 <= i < j < |bs| ==> bs[i] != bs[j]
        invariant forall i :: 0 <= i < |bs| ==> fresh(bs[i])
        invariant forall i :: 0 <= i < |bs| ==> bs[i].rows == bs[i].counts == bs[i].compressed == [] && bs[i].bitmap == {}
      {
        var b := new Bucket();
        bs := bs + [b];
      }
      buckets, totalRows, bitmap := bs, 0, {};
    }

    /** add, with a count or without. */
    method Add(row: nat, rowHash: nat, count: Tally, ghost items: seq<Item>, ghost hash: nat -> nat)
      requires Given(items, hash) && rowHash == hash(row)
      modifies this`totalRows, this`bitmap, buckets
      ensures Given(items + [Item(row, count)], hash)
    {
      var b := BucketOf(rowHash);
      assert AddedAt(b, items, hash);
      AddTo(b, row, rowHash, count, items, hash);
      totalRows := totalRows + 1;
      forall c | 0 <= c < 64 && c != b ensures AddedAt(c, items + [Item(row, count)], hash) {
        assert buckets[c] != buckets[b];
        assert old(AddedAt(c, items, hash));
        AddsNone(buckets[c].rows, buckets[c].counts, c, items, hash, Item(row, count));
      }
    }

    method AddTo(b: nat, row: nat, rowHash: nat, count: Tally, ghost items: seq<Item>, ghost hash: nat -> nat)
      requires b < |buckets| && AddedAt(b, items, hash) && rowHash == hash(row) && b == BucketOf(rowHash)
      modifies this`bitmap, buckets[b]
      ensures AddedAt(b, items + [Item(row, count)], hash) && bitmap == old(bitmap) + {b}
    {
      bitmap := bitmap + {b};
      ghost var rows, counts := buckets[b].rows, buckets[b].counts;
      buckets[b].AddItem(row, rowHash, count);
      AddsOne(rows, counts, buckets[b].rows, buckets[b].counts, b, items, hash, Item(row, count));
    }

    /** `!ok` is the assertion that a bucket has a count for each row, or none:
        rows added with and without counts may meet in one bucket. */
    method Sort(ghost items: seq<Item>, ghost hash: nat -> nat) returns (ok: bool)
      requires Given(items, hash)
      modifies buckets
      ensures ok <==> Sortable(items, hash)
      ensures ok ==> Holds(items, hash) && forall b :: 0 <= b < 64 ==> Ascending(buckets[b].rows) && buckets[b].compressed == []
    {
      var i := 0;
      while i < 64
        invariant i <= 64 && forall b :: 0 <= b < i ==> HoldsAt(b, items, hash) && buckets[b].compressed == []
        invariant forall b :: 0 <= b < i ==> Ascending(buckets[b].rows) && UniformAt(items, b, hash)
        invariant forall b :: i <= b < 64 ==> AddedAt(b, items, hash)
      {
        label before:
        var sorted := SortBucket(i, items, hash);
        if !sorted { return false; }
        forall b | 0 <= b < 64 && b != i
          ensures b < i ==> HoldsAt(b, items, hash) && buckets[b].compressed == [] && Ascending(buckets[b].rows)
          ensures b > i ==> AddedAt(b, items, hash)
        {
          assert buckets[b] != buckets[i];
          assert b < i ==> old@before(HoldsAt(b, items, hash));
          assert b > i ==> old@before(AddedAt(b, items, hash));
        }
        i := i + 1;
      }
      return true;
    }

    method SortBucket(i: nat, ghost items: seq<Item>, ghost hash: nat -> nat) returns (ok: bool)
      requires Shape() && i < 64 && AddedAt(i, items, hash)
      modifies buckets[i]
      ensures ok <==> UniformAt(items, i, hash)
      ensures ok ==> HoldsAt(i, items, hash) && Ascending(buckets[i].rows) && buckets[i].compressed == []
    {
      ghost var rows, counts, bits := buckets[i].rows, buckets[i].counts, buckets[i].bitmap;
      AddedHas(rows, counts, i, items, hash);
      ok := buckets[i].Sort();
      if ok { StillMapped(rows, counts, buckets[i].rows, buckets[i].counts, bits, hash); }
    }

    method Compress() returns (ok: bool)
      requires Shape() && forall b :: 0 <= b < 64 ==> buckets[b].compressed == []
      modifies buckets`compressed
      ensures ok <==> forall b :: 0 <= b < 64 ==> Fits(buckets[b].rows, 0, 0xffff)
      ensures ok ==> forall b :: 0 <= b < 64 ==> buckets[b].compressed == Compressed(buckets[b].rows, 0) + PADDING
    {
      var i := 0;
      while i < 64
        invariant i <= 64 && forall b :: 0 <= b < i ==> Fits(buckets[b].rows, 0, 0xffff)
        invariant forall b :: 0 <= b < i ==> buckets[b].compressed == Compressed(buckets[b].rows, 0) + PADDING
        invariant forall b :: i <= b < 64 ==> buckets[b].compressed == []
      {
        var fits := buckets[i].Compress();
        if !fits { return false; }
        i := i + 1;
      }
      return true;
    }

    /** Sorted, and compressed or not. */
    ghost predicate Prepared(items: seq<Item>, hash: nat -> nat)
      reads this, buckets
    {
      Holds(items, hash) && DistinctRows(items) && forall b :: 0 <= b < 64 ==> buckets[b].Ready(hash)
    }

    /** A row in both has its bucket's bit in both maps. */
    lemma NoBuckets(other: IntersectionEntry, items1: seq<Item>, items2: seq<Item>, hash: nat -> nat)
      requires Holds(items1, hash) && other.Holds(items2, hash) && bitmap * other.bitmap == {}
      ensures CommonRows(items1, items2) == {}
    {
      forall x | x in SetOf(RowsOf(items1)) ensures x !in SetOf(RowsOf(items2)) {
        var b := BucketOf(hash(x));
        assert HoldsAt(b, items1, hash) && other.HoldsAt(b, items2, hash);
        HasRows(buckets[b].rows, buckets[b].counts, b, items1, hash, x);
        HasRows(other.buckets[b].rows, other.buckets[b].counts, b, items2, hash, x);
        assert x in buckets[b].rows;
        assert b in bitmap;
        assert b !in bitmap * other.bitmap;
      }
    }

    /** calcOverlap, without the short cuts. */
    method CalcOverlap(other: IntersectionEntry, space: Space, byEights: bool, hierarchical: bool,
                       ghost items1: seq<Item>, ghost items2: seq<Item>, ghost hash: nat -> nat)
        returns (r: Outcome)
      requires Prepared(items1, hash) && other.Prepared(items2, hash)
      requires forall b :: 0 <= b < 64 ==> (buckets[b].compressed == [] <==> other.buckets[b].compressed == [])
      ensures r == Meaning(items1, items2, space)
    {
      var overlap := bitmap * other.bitmap;
      if overlap == {} {
        NoBuckets(other, items1, items2, hash);
        return Value(0);
      }
      AllBuckets(items1, items2, hash);
      var result: nat, b: nat := 0, 0;
      while b < 64
        invariant b <= 64 && SummedTo(b, result, items1, items2, hash, space)
      {
        SumBucket(b, result, items1, items2, hash, space);
        assert HoldsAt(b, items1, hash) && other.HoldsAt(b, items2, hash);
        if b !in overlap {
          EmptyBucket(buckets[b].rows, buckets[b].counts, items1,
                      other.buckets[b].rows, other.buckets[b].counts, items2, b, hash, space);
        } else {
          var here := buckets[b].CalcOverlap(other.buckets[b], space, byEights, hierarchical, hash);
          BucketOverlap(buckets[b].rows, buckets[b].counts, items1,
                        other.buckets[b].rows, other.buckets[b].counts, items2, b, hash, space);
          if here == OutOfRange { return OutOfRange; }
          result := result + here.v;
        }
        b := b + 1;
      }
      return Value(result);
    }
  }

  lemma AllBuckets(items1: seq<Item>, items2: seq<Item>, hash: nat -> nat)
    ensures InBelow(CommonRows(items1, items2), 64, hash) == CommonRows(items1, items2)
    ensures InBelow(CommonRows(items1, items2), 0, hash) == {}
  {
    var s := CommonRows(items1, items2);
    forall x | x in s ensures x in InBelow(s, 64, hash) { assert BucketOf(hash(x)) < 64; }
  }

  /** What has been summed up to bucket `b`. */
  ghost predicate SummedTo(b: nat, result: nat, items1: seq<Item>, items2: seq<Item>, hash: nat -> nat, space: Space) {
    && result == Sum(InBelow(CommonRows(items1, items2), b, hash), ItemWeight(items1, items2, space))
    && !Missing(items1, items2, space, InBelow(CommonRows(items1, items2), b, hash))
  }

  /** The overlap of bucket `b`, in terms of the rows that were added. */
  ghost function BucketMeaning(b: nat, items1: seq<Item>, items2: seq<Item>, hash: nat -> nat, space: Space): Outcome {
    var here := In(CommonRows(items1, items2), b, hash);
    if Missing(items1, items2, space, here) then OutOfRange
    else Value(Sum(here, ItemWeight(items1, items2, space)))
  }

  lemma SumBucket(b: nat, result: nat, items1: seq<Item>, items2: seq<Item>, hash: nat -> nat, space: Space)
    requires SummedTo(b, result, items1, items2, hash, space)
    ensures match BucketMeaning(b, items1, items2, hash, space)
            case OutOfRange => Meaning(items1, items2, space) == OutOfRange
            case Value(more) => SummedTo(b + 1, result + more, items1, items2, hash, space)
  {
    OneMoreBucket(CommonRows(items1, items2), b, hash, ItemWeight(items1, items2, space));
    var all, here := CommonRows(items1, items2), In(CommonRows(items1, items2), b, hash);
    if Missing(items1, items2, space, here) {
      var x :| x in here && (Countless(items1, x) || Countless(items2, x));
      assert x in all;
    }
  }

  /** A bucket that is empty on either side adds nothing. */
  lemma EmptyBucket(rows1: seq<nat>, counts1: seq<nat>, items1: seq<Item>,
                    rows2: seq<nat>, counts2: seq<nat>, items2: seq<Item>, b: nat, hash: nat -> nat, space: Space)
    requires Has(rows1, counts1, b, items1, hash) && Has(rows2, counts2, b, items2, hash)
    requires rows1 == [] || rows2 == []
    ensures BucketMeaning(b, items1, items2, hash, space) == Value(0)
  {
    BucketCommon(rows1, counts1, items1, rows2, counts2, items2, b, hash);
    assert SetOf(rows1) * SetOf(rows2) == {};
  }

  lemma AddsOne(rows: seq<nat>, counts: seq<nat>, rows': seq<nat>, counts': seq<nat>, b: nat, items: seq<Item>, hash: nat -> nat, x: Item)
    requires Added(rows, counts, b, items, hash) && BucketOf(hash(x.row)) == b
    requires rows' == rows + [x.row] && counts' == if x.count.Given? then counts + [x.count.n] else counts
    ensures Added(rows', counts', b, items + [x], hash)
  {
    assert (items + [x])[..|items|] == items;
    var own := InBucket(items, b, hash);
    assert (own + [x])[..|own|] == own;
  }

  lemma AddsNone(rows: seq<nat>, counts: seq<nat>, b: nat, items: seq<Item>, hash: nat -> nat, x: Item)
    requires Added(rows, counts, b, items, hash) && BucketOf(hash(x.row)) != b
    ensures Added(rows, counts, b, items + [x], hash)
  {
    assert (items + [x])[..|items|] == items;
    var own := InBucket(items, b, hash);
    assert InBucket(items + [x], b, hash) == own + [] == own;
  }

  lemma StillMapped(rows: seq<nat>, counts: seq<nat>, rows': seq<nat>, counts': seq<nat>, bits: set<nat>, hash: nat -> nat)
    requires Counted(rows, counts) && Counted(rows', counts') && multiset(Items(rows, counts)) == multiset(Items(rows', counts'))
    requires Mapped(rows, bits, hash)
    ensures Mapped(rows', bits, hash) && (rows' == [] <==> rows == [])
  {
    forall k | 0 <= k < |rows'| ensures SubBit(hash(rows'[k])) in bits {
      assert Items(rows', counts')[k] in multiset(Items(rows, counts));
      var i :| 0 <= i < |rows| && Items(rows, counts)[i] == Items(rows', counts')[k];
    }
    assert |multiset(Items(rows, counts))| == |multiset(Items(rows', counts'))|;
  }

  // -------------------------------------------------------- the whole story

  ghost predicate Addable(items: seq<Item>) {
    forall i :: 0 <= i < |items| ==> items[i].row < 0x8000_0000
  }

  /** A bucket of an entry that is sorted. */
  lemma BucketSorted(rows: seq<nat>, counts: seq<nat>, b: nat, items: seq<Item>, hash: nat -> nat)
    requires Addable(items) && DistinctRows(items) && RunsFit(items, hash)
    requires Has(rows, counts, b, items, hash) && Ascending(rows)
    ensures Strict(rows) && Ints(rows) && Counted(rows, counts) && Fits(rows, 0, 0x7fff) && Fits(rows, 0, 0xffff)
  {
    HasStrict(rows, counts, b, items, hash);
    BucketFits(rows, counts, b, items, hash, 0);
    FitsMore(rows, 0, 0x7fff, 0xffff);
    forall k | 0 <= k < |rows| ensures rows[k] < 0x8000_0000 {
      HasRow(rows, counts, b, items, hash, k);
    }
  }

  /** Add items in any order, with counts or without, sort, and compress; `!ok`
      is sort's assertion. */
  method Build(items: seq<Item>, compress: bool, hash: nat -> nat) returns (ok: bool, entry: IntersectionEntry)
    requires Addable(items) && DistinctRows(items) && RunsFit(items, hash)
    ensures ok <==> Sortable(items, hash)
    ensures ok ==> entry.Prepared(items, hash) && forall b :: 0 <= b < 64 ==> (entry.buckets[b].compressed == [] <==> !compress)
  {
    entry := new IntersectionEntry();
    var i := 0;
    while i < |items|
      invariant i <= |items| && fresh(entry.buckets) && entry.Given(items[..i], hash)
      modifies entry, entry.buckets
    {
      entry.Add(items[i].row, hash(items[i].row), items[i].count, items[..i], hash);
      assert items[..i + 1] == items[..i] + [items[i]];
      i := i + 1;
    }
    assert items[..i] == items;
    ok := entry.Sort(items, hash);
    if !ok { return; }
    forall b | 0 <= b < 64 ensures var own := entry.buckets[b]; Strict(own.rows) && Ints(own.rows) && Fits(own.rows, 0, 0x7fff) && Fits(own.rows, 0, 0xffff) {
      assert entry.HoldsAt(b, items, hash);
      BucketSorted(entry.buckets[b].rows, entry.buckets[b].counts, b, items, hash);
    }
    if compress { CompressAll(entry, items, hash); }
    forall b | 0 <= b < 64 ensures entry.buckets[b].Ready(hash) {
      assert entry.HoldsAt(b, items, hash);
    }
  }

  method CompressAll(entry: IntersectionEntry, ghost items: seq<Item>, ghost hash: nat -> nat)
    requires entry.Holds(items, hash)
    requires forall b :: 0 <= b < 64 ==> entry.buckets[b].compressed == [] && Fits(entry.buckets[b].rows, 0, 0xffff)
    modifies entry.buckets`compressed
    ensures entry.Holds(items, hash)
    ensures forall b :: 0 <= b < 64 ==> entry.buckets[b].compressed == Compressed(entry.buckets[b].rows, 0) + PADDING
  {
    var _ := entry.Compress();
    forall b | 0 <= b < 64 ensures entry.HoldsAt(b, items, hash) {
      assert old(entry.HoldsAt(b, items, hash));
    }
  }

  /** The overlap of any two row sets, whatever order they are added in and with
      whatever counts, in every mode, is the size of the intersection or the dot
      product of the counts; `!ok` is sort's assertion. */
  method Measure(items1: seq<Item>, items2: seq<Item>, space: Space, compress: bool, byEights: bool, hierarchical: bool, hash: nat -> nat)
      returns (ok: bool, r: Outcome)
    requires Addable(items1) && DistinctRows(items1) && RunsFit(items1, hash)
    requires Addable(items2) && DistinctRows(items2) && RunsFit(items2, hash)
    ensures ok <==> Sortable(items1, hash) && Sortable(items2, hash)
    ensures ok ==> r == Meaning(items1, items2, space)
  {
    r := OutOfRange;
    var ok1, entry1 := Build(items1, compress, hash);
    if !ok1 { return false, r; }
    var ok2, entry2 := Build(items2, compress, hash);
    if !ok2 { return false, r; }
    r := entry1.CalcOverlap(entry2, space, byEights, hierarchical, items1, items2, hash);
    return true, r;
  }
}
