/** Overlap of two sorted, possibly compressed row lists
    (IntersectionEntry::Bucket, builtin/intersection_utils.cc and .h). */
module Buckets {
  import opened Intersection

  datatype Space = HAMMING | PYTHAGOREAN

  /** A measured overlap, or the exception of a count that is not there. */
  datatype Outcome = Value(v: nat) | OutOfRange

  // ---------------------------------------------------------- what is meant

  /** Counts are optional, all or none. */
  ghost predicate Counted(rows: seq<nat>, counts: seq<nat>) {
    counts == [] || |counts| == |rows|
  }

  ghost function CountOf(rows: seq<nat>, counts: seq<nat>, x: nat): nat {
    if exists i :: 0 <= i < |rows| && i < |counts| && rows[i] == x
    then var i :| 0 <= i < |rows| && i < |counts| && rows[i] == x; counts[i]
    else 0
  }

  lemma CountAt(rows: seq<nat>, counts: seq<nat>, i: nat)
    requires Strict(rows) && i < |rows| && i < |counts|
    ensures CountOf(rows, counts, rows[i]) == counts[i]
  {
    Increasing(rows);
    assert rows[i] == rows[i];
  }

  /** Counts are multiplied as unsigned 32-bit numbers. */
  function Times(x: nat, y: nat): nat {
    (x * y) % 0x1_0000_0000
  }

  ghost function Weight(rows1: seq<nat>, counts1: seq<nat>, rows2: seq<nat>, counts2: seq<nat>, space: Space): nat -> nat {
    if space == HAMMING then ONE
    else x => Times(CountOf(rows1, counts1, x), CountOf(rows2, counts2, x))
  }

  /** The overlap: the size of the intersection, or the dot product of counts. */
  ghost function Overlap(rows1: seq<nat>, counts1: seq<nat>, rows2: seq<nat>, counts2: seq<nat>, space: Space): Outcome {
    var common := SetOf(rows1) * SetOf(rows2);
    if space == PYTHAGOREAN && (counts1 == [] || counts2 == []) && common != {} then OutOfRange
    else Value(Sum(common, Weight(rows1, counts1, rows2, counts2, space)))
  }

  lemma OverlapSwaps(rows1: seq<nat>, counts1: seq<nat>, rows2: seq<nat>, counts2: seq<nat>, space: Space)
    ensures Overlap(rows1, counts1, rows2, counts2, space) == Overlap(rows2, counts2, rows1, counts1, space)
  {
    assert SetOf(rows1) * SetOf(rows2) == SetOf(rows2) * SetOf(rows1);
    SumSame(SetOf(rows1) * SetOf(rows2), Weight(rows1, counts1, rows2, counts2, space), Weight(rows2, counts2, rows1, counts1, space));
  }

  lemma OverlapOfNothing(rows1: seq<nat>, counts1: seq<nat>, rows2: seq<nat>, counts2: seq<nat>, space: Space)
    requires SetOf(rows1) * SetOf(rows2) == {}
    ensures Overlap(rows1, counts1, rows2, counts2, space) == Value(0)
  {
  }

  lemma OverlapIsHamming(rows1: seq<nat>, counts1: seq<nat>, rows2: seq<nat>, counts2: seq<nat>)
    ensures Overlap(rows1, counts1, rows2, counts2, HAMMING) == Value(|SetOf(rows1) * SetOf(rows2)|)
  {
    SumOfOnes(SetOf(rows1) * SetOf(rows2));
  }

  // ------------------------------------------------------- unbalanced sizes

  /** std::lower_bound */
  method LowerBound(a: seq<nat>, from: nat, x: nat) returns (p: nat)
    requires Strict(a) && from <= |a|
    ensures from <= p <= |a| && (forall k :: from <= k < p ==> a[k] < x) && (p < |a| ==> x <= a[p])
  {
    Increasing(a);
    p := from;
    var hi := |a|;
    while p < hi
      invariant from <= p <= hi <= |a|
      invariant (forall k :: from <= k < p ==> a[k] < x) && (hi < |a| ==> x <= a[hi])
    {
      var mid := (p + hi) / 2;
      if a[mid] < x { p := mid + 1; } else { hi := mid; }
    }
  }

  /** What a scan has to keep: `result` plus what is left is all there is, and
      without counts nothing has matched yet. */
  ghost predicate Scanned(rows1: seq<nat>, counts1: seq<nat>, i: nat, rows2: seq<nat>, counts2: seq<nat>, j: nat, space: Space, result: nat) {
    && i <= |rows1| && j <= |rows2|
    && (var w := Weight(rows1, counts1, rows2, counts2, space);
        result + Left(rows1, i, rows2, j, w) == Left(rows1, 0, rows2, 0, w))
    && (space == PYTHAGOREAN && (counts1 == [] || counts2 == []) ==>
          Left(rows1, i, rows2, j, ONE) == Left(rows1, 0, rows2, 0, ONE))
  }

  lemma ScanStarts(rows1: seq<nat>, counts1: seq<nat>, rows2: seq<nat>, counts2: seq<nat>, space: Space)
    ensures Scanned(rows1, counts1, 0, rows2, counts2, 0, space, 0)
  {
  }

  lemma ScanEnds(rows1: seq<nat>, counts1: seq<nat>, i: nat, rows2: seq<nat>, counts2: seq<nat>, j: nat, space: Space, result: nat)
    requires Scanned(rows1, counts1, i, rows2, counts2, j, space, result) && (i == |rows1| || j == |rows2|)
    ensures Overlap(rows1, counts1, rows2, counts2, space) == Value(result)
  {
    LeftDone(rows1, i, rows2, j, Weight(rows1, counts1, rows2, counts2, space));
    LeftDone(rows1, i, rows2, j, ONE);
    assert rows1[0..] == rows1 && rows2[0..] == rows2;
    SumOfOnes(SetOf(rows1) * SetOf(rows2));
  }

  /** A row of one list that is below the other's next one is passed over. */
  lemma ScanSkips(rows1: seq<nat>, counts1: seq<nat>, i: nat, i': nat, rows2: seq<nat>, counts2: seq<nat>, j: nat, space: Space, result: nat)
    requires Strict(rows1) && Strict(rows2) && Scanned(rows1, counts1, i, rows2, counts2, j, space, result)
    requires i <= i' <= |rows1| && j < |rows2| && forall k :: i <= k < i' ==> rows1[k] < rows2[j]
    ensures Scanned(rows1, counts1, i', rows2, counts2, j, space, result)
  {
    LeftSkip(rows1, i, i', rows2, j, Weight(rows1, counts1, rows2, counts2, space));
    LeftSkip(rows1, i, i', rows2, j, ONE);
  }

  lemma ScanSkips2(rows1: seq<nat>, counts1: seq<nat>, i: nat, rows2: seq<nat>, counts2: seq<nat>, j: nat, space: Space, result: nat)
    requires Strict(rows1) && Strict(rows2) && Scanned(rows1, counts1, i, rows2, counts2, j, space, result)
    requires i < |rows1| && j < |rows2| && rows2[j] < rows1[i]
    ensures Scanned(rows1, counts1, i, rows2, counts2, j + 1, space, result)
  {
    Step(rows1, i, rows2, j, Weight(rows1, counts1, rows2, counts2, space));
    Step(rows1, i, rows2, j, ONE);
  }

  /** A match adds its weight; where there are no counts it is an error. */
  lemma ScanMatches(rows1: seq<nat>, counts1: seq<nat>, i: nat, rows2: seq<nat>, counts2: seq<nat>, j: nat, space: Space, result: nat)
    requires Strict(rows1) && Strict(rows2) && Counted(rows1, counts1) && Counted(rows2, counts2)
    requires Scanned(rows1, counts1, i, rows2, counts2, j, space, result)
    requires i < |rows1| && j < |rows2| && rows1[i] == rows2[j]
    ensures space == PYTHAGOREAN && (counts1 == [] || counts2 == []) ==> Overlap(rows1, counts1, rows2, counts2, space) == OutOfRange
    ensures space == HAMMING ==> Scanned(rows1, counts1, i + 1, rows2, counts2, j + 1, space, result + 1)
    ensures space == PYTHAGOREAN && counts1 != [] && counts2 != [] ==>
              Scanned(rows1, counts1, i + 1, rows2, counts2, j + 1, space, result + Times(counts1[i], counts2[j]))
  {
    assert rows1[i] in SetOf(rows1) * SetOf(rows2);
    LeftMatch(rows1, i, rows2, j, Weight(rows1, counts1, rows2, counts2, space));
    if space == PYTHAGOREAN && counts1 != [] && counts2 != [] {
      CountAt(rows1, counts1, i);
      CountAt(rows2, counts2, j);
    }
  }

  /** What a match adds; `!ok` is the exception of counts.at. */
  method AddMatch(rows1: seq<nat>, counts1: seq<nat>, i: nat, rows2: seq<nat>, counts2: seq<nat>, j: nat, space: Space, result: nat)
      returns (ok: bool, result': nat)
    requires Strict(rows1) && Strict(rows2) && Counted(rows1, counts1) && Counted(rows2, counts2)
    requires Scanned(rows1, counts1, i, rows2, counts2, j, space, result)
    requires i < |rows1| && j < |rows2| && rows1[i] == rows2[j]
    ensures if ok then Scanned(rows1, counts1, i + 1, rows2, counts2, j + 1, space, result')
            else Overlap(rows1, counts1, rows2, counts2, space) == OutOfRange
  {
    ScanMatches(rows1, counts1, i, rows2, counts2, j, space, result);
    if space == HAMMING { return true, result + 1; }
    if i >= |counts1| || j >= |counts2| { return false, result; }
    return true, result + Times(counts1[i], counts2[j]);
  }

  /** The path for unbalanced sizes: look each of the few rows up in the many. */
  method Lookups(rows1: seq<nat>, counts1: seq<nat>, rows2: seq<nat>, counts2: seq<nat>, space: Space) returns (r: Outcome)
    requires Strict(rows1) && Strict(rows2) && Counted(rows1, counts1) && Counted(rows2, counts2)
    ensures r == Overlap(rows1, counts1, rows2, counts2, space)
  {
    var result: nat, it1: nat, it2: nat := 0, 0, 0;
    ScanStarts(rows1, counts1, rows2, counts2, space);
    while it2 != |rows2|
      invariant Scanned(rows1, counts1, it1, rows2, counts2, it2, space, result)
      decreases |rows2| - it2
    {
      ghost var from := it1;
      it1 := LowerBound(rows1, it1, rows2[it2]);
      ScanSkips(rows1, counts1, from, it1, rows2, counts2, it2, space, result);
      if it1 == |rows1| { break; }
      if rows1[it1] == rows2[it2] {
        var ok;
        ok, result := AddMatch(rows1, counts1, it1, rows2, counts2, it2, space, result);
        if !ok { return OutOfRange; }
        it1, it2 := it1 + 1, it2 + 1;
      } else {
        ScanSkips2(rows1, counts1, it1, rows2, counts2, it2, space, result);
        it2 := it2 + 1;
      }
    }
    ScanEnds(rows1, counts1, it1, rows2, counts2, it2, space, result);
    return Value(result);
  }

  /** The PYTHAGOREAN path for sizes that are about the same. */
  method DotProduct(rows1: seq<nat>, counts1: seq<nat>, rows2: seq<nat>, counts2: seq<nat>) returns (r: Outcome)
    requires Strict(rows1) && Strict(rows2) && Counted(rows1, counts1) && Counted(rows2, counts2)
    ensures r == Overlap(rows1, counts1, rows2, counts2, PYTHAGOREAN)
  {
    var result: nat, it1: nat, it2: nat := 0, 0, 0;
    ScanStarts(rows1, counts1, rows2, counts2, PYTHAGOREAN);
    while it1 != |rows1| && it2 != |rows2|
      invariant Scanned(rows1, counts1, it1, rows2, counts2, it2, PYTHAGOREAN, result)
      decreases |rows1| - it1 + |rows2| - it2
    {
      if rows1[it1] < rows2[it2] {
        ScanSkips(rows1, counts1, it1, it1 + 1, rows2, counts2, it2, PYTHAGOREAN, result);
        it1 := it1 + 1;
      } else if rows1[it1] == rows2[it2] {
        var ok;
        ok, result := AddMatch(rows1, counts1, it1, rows2, counts2, it2, PYTHAGOREAN, result);
        if !ok { return OutOfRange; }
        it1, it2 := it1 + 1, it2 + 1;
      } else {
        ScanSkips2(rows1, counts1, it1, rows2, counts2, it2, PYTHAGOREAN, result);
        it2 := it2 + 1;
      }
    }
    ScanEnds(rows1, counts1, it1, rows2, counts2, it2, PYTHAGOREAN, result);
    return Value(result);
  }

  // ------------------------------------------------------------ compression

  function High(row: nat): nat { row / 0x1_0000 }

  function Low(row: nat): nat { row % 0x1_0000 }

  /** Where the run of rows with high half `h` ends. */
  function RunEnd(rows: seq<nat>, i: nat, h: nat): (j: nat)
    requires i <= |rows|
    ensures i <= j <= |rows|
    decreases |rows| - i
  {
    if i < |rows| && High(rows[i]) == h then RunEnd(rows, i + 1, h) else i
  }

  lemma {:induction false} RunEnds(rows: seq<nat>, i: nat, h: nat)
    requires i <= |rows|
    ensures var j := RunEnd(rows, i, h); (forall k :: i <= k < j ==> High(rows[k]) == h) && (j < |rows| ==> High(rows[j]) != h)
    decreases |rows| - i
  {
    if i < |rows| && High(rows[i]) == h { RunEnds(rows, i + 1, h); }
  }

  /** The end of the run that starts at `i`. */
  function Run(rows: seq<nat>, i: nat): (j: nat)
    requires i < |rows|
    ensures i < j <= |rows|
  {
    RunEnd(rows, i + 1, High(rows[i]))
  }

  lemma RunIs(rows: seq<nat>, i: nat)
    requires i < |rows|
    ensures var j := Run(rows, i); (forall k :: i <= k < j ==> High(rows[k]) == High(rows[i])) && (j < |rows| ==> High(rows[j]) != High(rows[i]))
  {
    RunEnds(rows, i + 1, High(rows[i]));
  }

  /** No run has more than `limit` rows. */
  predicate Fits(rows: seq<nat>, i: nat, limit: nat)
    requires i <= |rows|
    decreases |rows| - i
  {
    i == |rows| || (Run(rows, i) - i <= limit && Fits(rows, Run(rows, i), limit))
  }

  function Lows(rows: seq<nat>, i: nat, j: nat): (s: seq<nat>)
    requires i <= j <= |rows|
    ensures |s| == j - i && forall k :: 0 <= k < j - i ==> s[k] == Low(rows[i + k])
  {
    seq<nat>(j - i, k requires 0 <= k < j - i => Low(rows[i + k]))
  }

  /** Each run as its high half, its length and its low halves. */
  function Compressed(rows: seq<nat>, i: nat): seq<nat>
    requires i <= |rows|
    decreases |rows| - i
  {
    if i == |rows| then [] else
    [High(rows[i]), Run(rows, i) - i] + Lows(rows, i, Run(rows, i)) + Compressed(rows, Run(rows, i))
  }

  const PADDING: seq<nat> := [0, 0, 0, 0, 0, 0, 0, 0]

  function Signed(x: nat): int
    requires x < 0x1_0000
  {
    if x < 0x8000 then x else x - 0x1_0000
  }

  /** `n` low halves in place: increasing, since their rows share a high half. */
  ghost predicate LowsAt(c: seq<nat>, i: nat, rows: seq<nat>, k: nat, n: nat) {
    && i + n <= |c| && k + n <= |rows|
    && forall x :: k <= x < k + n ==> LowAt(c, i, rows, k, x)
  }

  ghost predicate LowAt(c: seq<nat>, i: nat, rows: seq<nat>, k: nat, x: nat)
    requires k <= x < |rows| && i + (x - k) < |c|
  {
    c[i + (x - k)] == Low(rows[x])
  }

  ghost function Shifted(lows: set<nat>, h: nat): set<nat> {
    set x | x in lows :: h * 0x1_0000 + x
  }

  lemma {:induction false} ShiftedSize(lows: set<nat>, h: nat)
    ensures |Shifted(lows, h)| == |lows|
  {
    if lows != {} {
      var x :| x in lows;
      ShiftedSize(lows - {x}, h);
      var r := h * 0x1_0000 + x;
      forall y | y in Shifted(lows, h) ensures y in Shifted(lows - {x}, h) + {r} {
        var z :| z in lows && y == h * 0x1_0000 + z;
        if z != x { assert z in lows - {x}; }
      }
      assert Shifted(lows, h) == Shifted(lows - {x}, h) + {r};
    }
  }

  lemma RowsOfLows(c: seq<nat>, i: nat, rows: seq<nat>, k: nat, n: nat, h: nat)
    requires LowsAt(c, i, rows, k, n) && Strict(rows) && forall x :: k <= x < k + n ==> High(rows[x]) == h
    ensures StrictIn(c, i, i + n) && SetIn(rows, k, k + n) == Shifted(SetIn(c, i, i + n), h)
  {
    forall x | k <= x < k + n ensures rows[x] == h * 0x1_0000 + c[i + (x - k)] {
      assert LowAt(c, i, rows, k, x);
      assert High(rows[x]) == h;
    }
    Increasing(rows);
    forall x, y | i <= x < y < i + n ensures Below(c, x, y) {
      var x', y' := k + (x - i), k + (y - i);
      assert LowAt(c, i, rows, k, x') && LowAt(c, i, rows, k, y');
      assert rows[x'] < rows[y'] && c[i + (x' - k)] == Low(rows[x']) && c[i + (y' - k)] == Low(rows[y']);
    }
    var s, t := SetIn(rows, k, k + n), Shifted(SetIn(c, i, i + n), h);
    forall r | r in s ensures r in t {
      var x :| k <= x < k + n && rows[x] == r;
      assert c[i + (x - k)] in SetIn(c, i, i + n);
    }
    forall r | r in t ensures r in s {
      var y :| i <= y < i + n && r == h * 0x1_0000 + c[y];
      var x := k + (y - i);
      assert rows[x] == h * 0x1_0000 + c[i + (x - k)];
    }
  }

  /** Two runs with the same high half have in common what their low halves do. */
  lemma CommonLows(s: set<nat>, t: set<nat>, h: nat)
    ensures Sum(Shifted(s, h) * Shifted(t, h), ONE) == |s * t|
  {
    forall y | y in Shifted(s, h) * Shifted(t, h) ensures y in Shifted(s * t, h) {
      var z :| z in s && y == h * 0x1_0000 + z;
      assert z in s * t;
    }
    assert Shifted(s, h) * Shifted(t, h) == Shifted(s * t, h);
    ShiftedSize(s * t, h);
    SumOfOnes(Shifted(s * t, h));
  }

  /** Rows after a run have a greater high half. */
  lemma RunIsBelow(rows: seq<nat>, k: nat)
    requires Strict(rows) && k < |rows|
    ensures var j := Run(rows, k);
            && SetOf(rows[k..]) == SetIn(rows, k, j) + SetOf(rows[j..])
            && (forall r :: r in SetIn(rows, k, j) ==> High(r) == High(rows[k]))
            && (forall r :: r in SetOf(rows[j..]) ==> High(r) > High(rows[k]))
  {
    var j := Run(rows, k);
    RunIs(rows, k);
    Increasing(rows);
    forall x | j <= x < |rows| ensures High(rows[x]) > High(rows[k]) {
      assert rows[k] < rows[j] <= rows[x];
    }
    var s, t, u := SetOf(rows[k..]), SetIn(rows, k, j), SetOf(rows[j..]);
    assert rows[k..] == rows[k..j] + rows[j..];
    SetOfAppend(rows[k..j], rows[j..]);
    assert t == SetOf(rows[k..j]) by {
      forall r | r in t ensures r in SetOf(rows[k..j]) {
        var x :| k <= x < j && rows[x] == r;
        assert rows[k..j][x - k] == r;
      }
    }
  }

  /** A step of the outer comparison, on high halves. */
  lemma RunsStep(rows1: seq<nat>, k1: nat, rows2: seq<nat>, k2: nat) returns (k1': nat, k2': nat)
    requires Strict(rows1) && Strict(rows2) && k1 < |rows1| && k2 < |rows2|
    ensures var h1, h2 := High(rows1[k1]), High(rows2[k2]);
            k1' == (if h1 <= h2 then Run(rows1, k1) else k1) && k2' == (if h2 <= h1 then Run(rows2, k2) else k2)
    ensures Left(rows1, k1, rows2, k2, ONE) == Left(rows1, k1', rows2, k2', ONE)
              + if High(rows1[k1]) == High(rows2[k2]) then Sum(SetIn(rows1, k1, k1') * SetIn(rows2, k2, k2'), ONE) else 0
  {
    var j1, j2, h1, h2 := Run(rows1, k1), Run(rows2, k2), High(rows1[k1]), High(rows2[k2]);
    k1', k2' := if h1 <= h2 then j1 else k1, if h2 <= h1 then j2 else k2;
    RunIsBelow(rows1, k1);
    RunIsBelow(rows2, k2);
    RunSets(SetIn(rows1, k1, j1), SetOf(rows1[j1..]), h1, SetIn(rows2, k2, j2), SetOf(rows2[j2..]), h2);
  }

  lemma RunSets(b1: set<nat>, r1: set<nat>, h1: nat, b2: set<nat>, r2: set<nat>, h2: nat)
    requires (forall r :: r in b1 ==> High(r) == h1) && (forall r :: r in r1 ==> High(r) > h1)
    requires (forall r :: r in b2 ==> High(r) == h2) && (forall r :: r in r2 ==> High(r) > h2)
    ensures Sum((b1 + r1) * (b2 + r2), ONE) ==
              if h1 < h2 then Sum(r1 * (b2 + r2), ONE)
              else if h2 < h1 then Sum((b1 + r1) * r2, ONE)
              else Sum(r1 * r2, ONE) + Sum(b1 * b2, ONE)
  {
    var all := (b1 + r1) * (b2 + r2);
    if h1 < h2 {
      assert all == r1 * (b2 + r2);
    } else if h2 < h1 {
      assert all == (b1 + r1) * r2;
    } else {
      assert all == b1 * b2 + r1 * r2;
      SumSplit(b1 * b2, r1 * r2, ONE);
    }
  }

  lemma SliceSet(c: seq<nat>, lo: nat, hi: nat)
    requires lo <= hi && StrictIn(c, lo, hi)
    ensures Strict(c[lo..hi]) && SetOf(c[lo..hi]) == SetIn(c, lo, hi)
  {
    IncreasingIn(c, lo, hi);
    forall r | r in SetIn(c, lo, hi) ensures r in SetOf(c[lo..hi]) {
      var x :| lo <= x < hi && c[x] == r;
      assert c[lo..hi][x - lo] == r;
    }
  }

  /** The run from `k` is at `i` of the compressed rows. */
  ghost predicate RunHere(c: seq<nat>, i: nat, rows: seq<nat>, k: nat) {
    && k < |rows|
    && var n := Run(rows, k) - k;
       i + 2 + n + 8 <= |c| && c[i] == High(rows[k]) && c[i + 1] == n && LowsAt(c, i + 2, rows, k, n)
  }

  /** A cursor over runs of at most `limit`: at the run from `k`, or at the padding. */
  ghost predicate Cursor(c: seq<nat>, i: nat, rows: seq<nat>, k: nat, limit: nat)
    decreases |rows| - k
  {
    if k == |rows| then i + 8 == |c|
    else RunHere(c, i, rows, k) && c[i + 1] <= limit && Cursor(c, i + 2 + c[i + 1], rows, Run(rows, k), limit)
  }

  /** Compressed rows, padded, are read from the start. */
  lemma {:induction false} CursorStarts(c: seq<nat>, prefix: seq<nat>, rows: seq<nat>, k: nat, limit: nat)
    requires k <= |rows| && Fits(rows, k, limit) && c == prefix + (Compressed(rows, k) + PADDING)
    ensures Cursor(c, |prefix|, rows, k, limit)
    decreases |rows| - k
  {
    if k < |rows| {
      var j := Run(rows, k);
      var head := [High(rows[k]), j - k] + Lows(rows, k, j);
      var rest := Compressed(rows, j) + PADDING;
      FirstRun(rows, k);
      Assoc(prefix, head, Compressed(rows, j), PADDING);
      CursorStarts(c, prefix + head, rows, j, limit);
      RunIsHere(c, prefix, rest, rows, k);
    }
  }

  /** Where the loop over runs goes from the run at `i`, its length read back as a
      signed 16-bit number: to the next run exactly when this one has fewer than
      32768 rows; otherwise forward by one place at most. */
  lemma CursorStepsOver(c: seq<nat>, i: nat, rows: seq<nat>, k: nat)
    requires k < |rows| && Cursor(c, i, rows, k, 0xffff)
    ensures i + 1 < |c| && c[i + 1] < 0x1_0000
    ensures var n := Run(rows, k) - k;
      && Cursor(c, i + 2 + n, rows, Run(rows, k), 0xffff)
      && (i + 2 + Signed(c[i + 1]) == i + 2 + n <==> n < 0x8000)
      && (n >= 0x8000 ==> i + 2 + Signed(c[i + 1]) <= i + 1)
  {
    CursorAtRun(c, i, rows, k, 0xffff);
  }

  /** The rows 0 to 32767, which are one run. */
  function LongRun(): (rows: seq<nat>)
    ensures |rows| == 0x8000 && forall k :: 0 <= k < 0x8000 ==> rows[k] == k
  {
    seq<nat>(0x8000, k requires 0 <= k => k)
  }

  /** The compressor takes them, and the loop's first step is to before the start
      of the array. */
  lemma LongRunStepsBack()
    ensures var rows := LongRun(); var c := Compressed(rows, 0) + PADDING;
      && Strict(rows) && Ints(rows) && Fits(rows, 0, 0xffff) && !Fits(rows, 0, 0x7fff)
      && |c| > 1 && c[1] == 0x8000 && 0 + 2 + Signed(c[1]) == -0x7ffe
  {
    var rows := LongRun();
    RunToEnd(rows, 1, 0);
    assert Run(rows, 0) == 0x8000;
  }

  lemma {:induction false} RunToEnd(rows: seq<nat>, i: nat, h: nat)
    requires i <= |rows| && forall k :: i <= k < |rows| ==> High(rows[k]) == h
    ensures RunEnd(rows, i, h) == |rows|
    decreases |rows| - i
  {
    if i < |rows| { RunToEnd(rows, i + 1, h); }
  }

  lemma FirstRun(rows: seq<nat>, k: nat)
    requires k < |rows|
    ensures var j := Run(rows, k); Compressed(rows, k) == ([High(rows[k]), j - k] + Lows(rows, k, j)) + Compressed(rows, j)
  {
  }

  lemma Assoc(a: seq<nat>, b: seq<nat>, c: seq<nat>, d: seq<nat>)
    ensures a + ((b + c) + d) == (a + b) + (c + d)
  {
  }

  lemma RunIsHere(c: seq<nat>, prefix: seq<nat>, rest: seq<nat>, rows: seq<nat>, k: nat)
    requires k < |rows| && |rest| >= 8
    requires var j := Run(rows, k); c == prefix + ([High(rows[k]), j - k] + Lows(rows, k, j)) + rest
    ensures RunHere(c, |prefix|, rows, k)
  {
    var i, j := |prefix| + 2, Run(rows, k);
    forall x | k <= x < j ensures LowAt(c, i, rows, k, x) {
      assert Lows(rows, k, j)[x - k] == Low(rows[k + (x - k)]);
    }
  }

  lemma CursorAtRun(c: seq<nat>, i: nat, rows: seq<nat>, k: nat, limit: nat)
    requires Cursor(c, i, rows, k, limit) && k <= |rows|
    ensures i + 8 <= |c| && (i + 8 == |c| <==> k == |rows|)
    ensures k < |rows| ==> RunHere(c, i, rows, k) && Cursor(c, i + 2 + c[i + 1], rows, Run(rows, k), limit)
  {
  }

  lemma RunReads(c: seq<nat>, i: nat, rows: seq<nat>, k: nat)
    requires Strict(rows) && RunHere(c, i, rows, k)
    ensures i + 2 + c[i + 1] + 8 <= |c| && StrictIn(c, i + 2, i + 2 + c[i + 1])
    ensures SetIn(rows, k, Run(rows, k)) == Shifted(SetIn(c, i + 2, i + 2 + c[i + 1]), c[i])
  {
    RunIs(rows, k);
    RowsOfLows(c, i + 2, rows, k, Run(rows, k) - k, High(rows[k]));
  }

  /** What the two runs have in common, in low halves. */
  ghost function Shared(c1: seq<nat>, i1: nat, c2: seq<nat>, i2: nat): nat
    requires i1 + 1 < |c1| && i1 + 2 + c1[i1 + 1] <= |c1| && i2 + 1 < |c2| && i2 + 2 + c2[i2 + 1] <= |c2|
  {
    if c1[i1] == c2[i2] then |SetIn(c1, i1 + 2, i1 + 2 + c1[i1 + 1]) * SetIn(c2, i2 + 2, i2 + 2 + c2[i2 + 1])| else 0
  }

  /** What a cursor that is not at the padding reads. */
  ghost predicate Reads(c: seq<nat>, i: nat) {
    i + 10 <= |c| && c[i] < 0x8000 && c[i + 1] < 0x8000 && i + 2 + c[i + 1] + 8 <= |c| && StrictIn(c, i + 2, i + 2 + c[i + 1])
  }

  /** intersectionCount on the low halves of two runs, in both forms. */
  method CountLows(c1: seq<nat>, i1: nat, n1: nat, c2: seq<nat>, i2: nat, n2: nat, byEights: bool) returns (count: nat)
    requires Reads(c1, i1) && n1 == c1[i1 + 1] && Reads(c2, i2) && n2 == c2[i2 + 1] && c1[i1] == c2[i2]
    ensures count == Shared(c1, i1, c2, i2)
  {
    if byEights {
      count := CountByEights(c1, i1 + 2, i1 + 2 + n1, c2, i2 + 2, i2 + 2 + n2);
    } else {
      SliceSet(c1, i1 + 2, i1 + 2 + n1);
      SliceSet(c2, i2 + 2, i2 + 2 + n2);
      count := CountBasic(c1[i1 + 2..i1 + 2 + n1], c2[i2 + 2..i2 + 2 + n2]);
    }
  }

  lemma CursorReads(c: seq<nat>, i: nat, rows: seq<nat>, k: nat)
    requires Strict(rows) && k < |rows| && Cursor(c, i, rows, k, 0x7fff) && rows[k] < 0x8000_0000
    ensures Reads(c, i)
  {
    RunReads(c, i, rows, k);
  }

  /** One pass of the loop over runs. */
  lemma RunsPass(c1: seq<nat>, i1: nat, rows1: seq<nat>, k1: nat, c2: seq<nat>, i2: nat, rows2: seq<nat>, k2: nat)
      returns (k1': nat, k2': nat)
    requires Strict(rows1) && RunHere(c1, i1, rows1, k1) && Strict(rows2) && RunHere(c2, i2, rows2, k2)
    ensures k1' == (if c1[i1] <= c2[i2] then Run(rows1, k1) else k1) && k2' == (if c2[i2] <= c1[i1] then Run(rows2, k2) else k2)
    ensures Left(rows1, k1, rows2, k2, ONE) == Left(rows1, k1', rows2, k2', ONE) + Shared(c1, i1, c2, i2)
  {
    k1', k2' := RunsStep(rows1, k1, rows2, k2);
    if c1[i1] == c2[i2] { SharedIs(c1, i1, rows1, k1, c2, i2, rows2, k2); }
  }

  lemma SharedIs(c1: seq<nat>, i1: nat, rows1: seq<nat>, k1: nat, c2: seq<nat>, i2: nat, rows2: seq<nat>, k2: nat)
    requires Strict(rows1) && RunHere(c1, i1, rows1, k1) && Strict(rows2) && RunHere(c2, i2, rows2, k2)
    requires c1[i1] == c2[i2]
    ensures Sum(SetIn(rows1, k1, Run(rows1, k1)) * SetIn(rows2, k2, Run(rows2, k2)), ONE) == Shared(c1, i1, c2, i2)
  {
    RunReads(c1, i1, rows1, k1);
    RunReads(c2, i2, rows2, k2);
    CommonLows(SetIn(c1, i1 + 2, i1 + 2 + c1[i1 + 1]), SetIn(c2, i2 + 2, i2 + 2 + c2[i2 + 1]), c1[i1]);
  }

  /** The whole pass: both cursors are at runs, and where they go next. */
  lemma Advance(c1: seq<nat>, i1: nat, rows1: seq<nat>, k1: nat, c2: seq<nat>, i2: nat, rows2: seq<nat>, k2: nat)
      returns (i1': nat, k1': nat, i2': nat, k2': nat)
    requires Strict(rows1) && k1 < |rows1| && Cursor(c1, i1, rows1, k1, 0x7fff) && rows1[k1] < 0x8000_0000
    requires Strict(rows2) && k2 < |rows2| && Cursor(c2, i2, rows2, k2, 0x7fff) && rows2[k2] < 0x8000_0000
    ensures Reads(c1, i1) && Reads(c2, i2)
    ensures i1' == (if c1[i1] <= c2[i2] then i1 + 2 + c1[i1 + 1] else i1)
    ensures i2' == (if c2[i2] <= c1[i1] then i2 + 2 + c2[i2 + 1] else i2)
    ensures k1 <= k1' <= |rows1| && k2 <= k2' <= |rows2| && k1 + k2 < k1' + k2'
    ensures Cursor(c1, i1', rows1, k1', 0x7fff) && Cursor(c2, i2', rows2, k2', 0x7fff)
    ensures Left(rows1, k1, rows2, k2, ONE) == Left(rows1, k1', rows2, k2', ONE) + Shared(c1, i1, c2, i2)
  {
    CursorReads(c1, i1, rows1, k1);
    CursorReads(c2, i2, rows2, k2);
    i1' := if c1[i1] <= c2[i2] then i1 + 2 + c1[i1 + 1] else i1;
    i2' := if c2[i2] <= c1[i1] then i2 + 2 + c2[i2 + 1] else i2;
    k1', k2' := RunsPass(c1, i1, rows1, k1, c2, i2, rows2, k2);
  }

  ghost predicate Compressible(c: seq<nat>, rows: seq<nat>) {
    Strict(rows) && Fits(rows, 0, 0x7fff) && Ints(rows) && c == Compressed(rows, 0) + PADDING
  }

  /** The path over compressed rows: an outer comparison on high halves, an inner
      one on low halves, both read as signed 16-bit numbers. */
  method CompressedOverlap(c1: seq<nat>, ghost rows1: seq<nat>, c2: seq<nat>, ghost rows2: seq<nat>, byEights: bool)
      returns (result: nat)
    requires Compressible(c1, rows1) && Compressible(c2, rows2)
    ensures result == |SetOf(rows1) * SetOf(rows2)|
  {
    CursorStarts(c1, [], rows1, 0, 0x7fff);
    CursorStarts(c2, [], rows2, 0, 0x7fff);
    assert rows1[0..] == rows1 && rows2[0..] == rows2;
    SumOfOnes(SetOf(rows1) * SetOf(rows2));
    result := OverRuns(c1, rows1, c2, rows2, byEights);
  }

  method OverRuns(c1: seq<nat>, ghost rows1: seq<nat>, c2: seq<nat>, ghost rows2: seq<nat>, byEights: bool)
      returns (result: nat)
    requires |c1| >= 8 && Strict(rows1) && Ints(rows1) && Cursor(c1, 0, rows1, 0, 0x7fff)
    requires |c2| >= 8 && Strict(rows2) && Ints(rows2) && Cursor(c2, 0, rows2, 0, 0x7fff)
    ensures result == Left(rows1, 0, rows2, 0, ONE)
  {
    result := 0;
    var i1: nat, e1, i2: nat, e2 := 0, |c1| - 8, 0, |c2| - 8;
    ghost var k1: nat, k2: nat := 0, 0;
    CursorAtRun(c1, i1, rows1, k1, 0x7fff);
    CursorAtRun(c2, i2, rows2, k2, 0x7fff);
    while i1 != e1 && i2 != e2
      invariant k1 <= |rows1| && Cursor(c1, i1, rows1, k1, 0x7fff) && k2 <= |rows2| && Cursor(c2, i2, rows2, k2, 0x7fff)
      invariant (i1 == e1 <==> k1 == |rows1|) && (i2 == e2 <==> k2 == |rows2|)
      invariant result + Left(rows1, k1, rows2, k2, ONE) == Left(rows1, 0, rows2, 0, ONE)
      decreases |rows1| - k1 + |rows2| - k2
    {
      ghost var i1', k1', i2', k2' := Advance(c1, i1, rows1, k1, c2, i2, rows2, k2);
      var high1, n1 := Signed(c1[i1]), Signed(c1[i1 + 1]);
      var high2, n2 := Signed(c2[i2]), Signed(c2[i2 + 1]);
      if high1 == high2 {
        var count := CountLows(c1, i1, n1, c2, i2, n2, byEights);
        result := result + count;
      }
      if high1 <= high2 { i1 := i1 + 2 + n1; }
      if high2 <= high1 { i2 := i2 + 2 + n2; }
      k1, k2 := k1', k2';
      assert i1 == i1' && i2 == i2';
      CursorAtRun(c1, i1, rows1, k1, 0x7fff);
      CursorAtRun(c2, i2, rows2, k2, 0x7fff);
    }
    LeftDone(rows1, k1, rows2, k2, ONE);
  }
}
