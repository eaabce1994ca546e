/** Counting what two increasing arrays have in common
    (builtin/intersection_utils.cc, 231-460). */
module Intersection {

  predicate Below(a: seq<nat>, i: nat, j: nat)
    requires i < |a| && j < |a|
  {
    a[i] < a[j]
  }

  /** Strictly increasing. */
  ghost predicate Strict(a: seq<nat>) {
    forall i, j :: 0 <= i < j < |a| ==> Below(a, i, j)
  }

  lemma Increasing(a: seq<nat>)
    requires Strict(a)
    ensures forall i, j :: 0 <= i < j < |a| ==> a[i] < a[j]
  {
    forall i, j | 0 <= i < j < |a| ensures a[i] < a[j] { assert Below(a, i, j); }
  }

  ghost function SetOf(a: seq<nat>): set<nat> {
    set x | x in a
  }

  lemma SetOfAppend(a: seq<nat>, b: seq<nat>)
    ensures SetOf(a + b) == SetOf(a) + SetOf(b)
  {
  }

  // ------------------------------------------------------- weights of rows

  /** The sum of `w` over a set. */
  ghost function Sum(s: set<nat>, w: nat -> nat): nat {
    if s == {} then 0 else
    var x :| x in s;
    w(x) + Sum(s - {x}, w)
  }

  lemma {:induction false} SumTake(s: set<nat>, w: nat -> nat, x: nat)
    requires x in s
    ensures Sum(s, w) == w(x) + Sum(s - {x}, w)
  {
    var y :| y in s && Sum(s, w) == w(y) + Sum(s - {y}, w);
    if x != y {
      SumTake(s - {y}, w, x);
      SumTake(s - {x}, w, y);
      assert s - {y} - {x} == s - {x} - {y};
    }
  }

  lemma {:induction false} SumSplit(s: set<nat>, t: set<nat>, w: nat -> nat)
    requires s !! t
    ensures Sum(s + t, w) == Sum(s, w) + Sum(t, w)
  {
    if s == {} {
      assert s + t == t;
    } else {
      var x :| x in s;
      SumTake(s, w, x);
      SumTake(s + t, w, x);
      SumSplit(s - {x}, t, w);
      assert s + t - {x} == (s - {x}) + t;
    }
  }

  lemma {:induction false} SumSame(s: set<nat>, w: nat -> nat, v: nat -> nat)
    requires forall x :: x in s ==> w(x) == v(x)
    ensures Sum(s, w) == Sum(s, v)
  {
    if s != {} {
      var x :| x in s;
      SumTake(s, w, x);
      SumTake(s, v, x);
      SumSame(s - {x}, w, v);
    }
  }

  const ONE: nat -> nat := x => 1

  lemma {:induction false} SumOfOnes(s: set<nat>)
    ensures Sum(s, ONE) == |s|
  {
    if s != {} {
      var x :| x in s;
      SumTake(s, ONE, x);
      SumOfOnes(s - {x});
    }
  }

  /** What the rows from `i` on in `a` and from `j` on in `b` still contribute. */
  ghost function Left(a: seq<nat>, i: nat, b: seq<nat>, j: nat, w: nat -> nat): nat
    requires i <= |a| && j <= |b|
  {
    Sum(SetOf(a[i..]) * SetOf(b[j..]), w)
  }

  /** Rows of `a` that `b` cannot match may be skipped. */
  lemma LeftSkip(a: seq<nat>, i: nat, i': nat, b: seq<nat>, j: nat, w: nat -> nat)
    requires Strict(b) && i <= i' <= |a| && j < |b|
    requires forall k :: i <= k < i' ==> a[k] < b[j]
    ensures Left(a, i, b, j, w) == Left(a, i', b, j, w)
  {
    Increasing(b);
    assert a[i..] == a[i..i'] + a[i'..];
    SetOfAppend(a[i..i'], a[i'..]);
    assert SetOf(a[i..]) * SetOf(b[j..]) == SetOf(a[i'..]) * SetOf(b[j..]);
  }

  lemma LeftSwap(a: seq<nat>, i: nat, b: seq<nat>, j: nat, w: nat -> nat)
    requires i <= |a| && j <= |b|
    ensures Left(a, i, b, j, w) == Left(b, j, a, i, w)
  {
    assert SetOf(a[i..]) * SetOf(b[j..]) == SetOf(b[j..]) * SetOf(a[i..]);
  }

  lemma Head(a: seq<nat>, i: nat)
    requires Strict(a) && i < |a|
    ensures SetOf(a[i..]) == {a[i]} + SetOf(a[i + 1..]) && a[i] !in SetOf(a[i + 1..])
  {
    Increasing(a);
    assert a[i..] == [a[i]] + a[i + 1..];
    SetOfAppend([a[i]], a[i + 1..]);
  }

  lemma HeadsMatch(s: set<nat>, t: set<nat>, w: nat -> nat, x: nat)
    requires x !in s && x !in t
    ensures Sum(({x} + s) * ({x} + t), w) == w(x) + Sum(s * t, w)
  {
    var u := ({x} + s) * ({x} + t);
    SumTake(u, w, x);
    assert u - {x} == s * t;
  }

  lemma LeftMatch(a: seq<nat>, i: nat, b: seq<nat>, j: nat, w: nat -> nat)
    requires Strict(a) && Strict(b) && i < |a| && j < |b| && a[i] == b[j]
    ensures Left(a, i, b, j, w) == w(a[i]) + Left(a, i + 1, b, j + 1, w)
  {
    Head(a, i);
    Head(b, j);
    HeadsMatch(SetOf(a[i + 1..]), SetOf(b[j + 1..]), w, a[i]);
  }

  lemma LeftDone(a: seq<nat>, i: nat, b: seq<nat>, j: nat, w: nat -> nat)
    requires i <= |a| && j <= |b| && (i == |a| || j == |b|)
    ensures Left(a, i, b, j, w) == 0
  {
    assert SetOf(a[i..]) * SetOf(b[j..]) == {};
  }

  // ------------------------------------------------------ 32-bit, one by one

  /** Row numbers that are non-negative ints. */
  ghost predicate Ints(rows: seq<nat>) {
    forall k :: 0 <= k < |rows| ==> rows[k] < 0x8000_0000
  }

  /** An unsigned 32-bit value as the comparisons take it. */
  function AsInt(x: nat): int {
    if x < 0x8000_0000 then x else x - 0x1_0000_0000
  }

  /** They are in order as long as both are below 2^31, or neither is. */
  lemma AsIntOrder(x: nat, y: nat)
    requires x < y < 0x1_0000_0000
    ensures AsInt(x) < AsInt(y) <==> (x < 0x8000_0000 <==> y < 0x8000_0000)
    ensures AsInt(x) != AsInt(y)
  {
  }

  /** intersectionCountOptimized on 32-bit values: they are unsigned, and compared
      as signed ones. */
  method CountIntersection(a: seq<nat>, b: seq<nat>) returns (result: nat)
    requires Strict(a) && Strict(b) && Ints(a) && Ints(b)
    ensures result == |SetOf(a) * SetOf(b)|
  {
    result := 0;
    var it1, it2 := 0, 0;
    assert a[0..] == a && b[0..] == b;
    while it1 != |a| && it2 != |b|
      invariant it1 <= |a| && it2 <= |b|
      invariant result + Left(a, it1, b, it2, ONE) == Left(a, 0, b, 0, ONE)
      decreases |a| - it1 + |b| - it2
    {
      var val1, val2 := AsInt(a[it1]), AsInt(b[it2]);
      Step(a, it1, b, it2, ONE);
      if val1 == val2 { result := result + 1; }
      if val1 <= val2 { it1 := it1 + 1; }
      if val1 >= val2 { it2 := it2 + 1; }
    }
    LeftDone(a, it1, b, it2, ONE);
    SumOfOnes(SetOf(a) * SetOf(b));
  }

  /** intersectionCountBasic, the size of std::set_intersection: unsigned. */
  method CountBasic(a: seq<nat>, b: seq<nat>) returns (result: nat)
    requires Strict(a) && Strict(b)
    ensures result == |SetOf(a) * SetOf(b)|
  {
    result := 0;
    var it1, it2 := 0, 0;
    assert a[0..] == a && b[0..] == b;
    while it1 != |a| && it2 != |b|
      invariant it1 <= |a| && it2 <= |b|
      invariant result + Left(a, it1, b, it2, ONE) == Left(a, 0, b, 0, ONE)
      decreases |a| - it1 + |b| - it2
    {
      Step(a, it1, b, it2, ONE);
      if a[it1] < b[it2] {
        it1 := it1 + 1;
      } else if b[it2] < a[it1] {
        it2 := it2 + 1;
      } else {
        result, it1, it2 := result + 1, it1 + 1, it2 + 1;
      }
    }
    LeftDone(a, it1, b, it2, ONE);
    SumOfOnes(SetOf(a) * SetOf(b));
  }

  /** One step of co-iteration. */
  lemma Step(a: seq<nat>, i: nat, b: seq<nat>, j: nat, w: nat -> nat)
    requires Strict(a) && Strict(b) && i < |a| && j < |b|
    ensures a[i] < b[j] ==> Left(a, i, b, j, w) == Left(a, i + 1, b, j, w)
    ensures b[j] < a[i] ==> Left(a, i, b, j, w) == Left(a, i, b, j + 1, w)
    ensures a[i] == b[j] ==> Left(a, i, b, j, w) == w(a[i]) + Left(a, i + 1, b, j + 1, w)
  {
    if a[i] < b[j] {
      LeftSkip(a, i, i + 1, b, j, w);
    } else if b[j] < a[i] {
      LeftSwap(a, i, b, j, w);
      LeftSkip(b, j, j + 1, a, i, w);
      LeftSwap(a, i, b, j + 1, w);
    } else {
      LeftMatch(a, i, b, j, w);
    }
  }

  // ---------------------------------------------------- 16-bit, by eights

  ghost predicate StrictIn(mem: seq<nat>, lo: nat, hi: nat) {
    hi <= |mem| && forall i, j :: lo <= i < j < hi ==> Below(mem, i, j)
  }

  lemma IncreasingIn(mem: seq<nat>, lo: nat, hi: nat)
    requires StrictIn(mem, lo, hi)
    ensures forall i, j :: lo <= i < j < hi ==> mem[i] < mem[j]
  {
    forall i, j | lo <= i < j < hi ensures mem[i] < mem[j] { assert Below(mem, i, j); }
  }

  ghost function SetIn(mem: seq<nat>, lo: nat, hi: nat): set<nat>
    requires hi <= |mem|
  {
    set k | lo <= k < hi :: mem[k]
  }

  function Min(x: nat, y: nat): nat {
    if x <= y then x else y
  }

  predicate Occurs(x: nat, mem: seq<nat>, lo: nat, hi: nat)
    requires hi <= |mem|
  {
    exists k :: lo <= k < hi && mem[k] == x
  }

  /** The string-compare instruction in its equal-any mode, on the eight values
      loaded at `it1` and `it2`: which of the first `len2` of the second occur
      among the first `len1` of the first; then the population count. */
  function PopCountOfMatches(mem1: seq<nat>, it1: nat, len1: nat, mem2: seq<nat>, it2: nat, len2: nat): nat
    requires it1 + 8 <= |mem1| && len1 <= 8 && it2 + 8 <= |mem2| && len2 <= 8
  {
    if len2 == 0 then 0
    else (if Occurs(mem2[it2 + len2 - 1], mem1, it1, it1 + len1) then 1 else 0)
         + PopCountOfMatches(mem1, it1, len1, mem2, it2, len2 - 1)
  }

  lemma {:induction false} MatchesAreCommon(mem1: seq<nat>, it1: nat, len1: nat, mem2: seq<nat>, it2: nat, len2: nat)
    requires it1 + 8 <= |mem1| && len1 <= 8 && it2 + 8 <= |mem2| && len2 <= 8 && StrictIn(mem2, it2, it2 + len2)
    ensures PopCountOfMatches(mem1, it1, len1, mem2, it2, len2) == Sum(SetIn(mem1, it1, it1 + len1) * SetIn(mem2, it2, it2 + len2), ONE)
  {
    if len2 == 0 {
      assert SetIn(mem1, it1, it1 + len1) * SetIn(mem2, it2, it2) == {};
    } else {
      var n := it2 + len2 - 1;
      IncreasingIn(mem2, it2, n + 1);
      MatchesAreCommon(mem1, it1, len1, mem2, it2, len2 - 1);
      assert SetIn(mem2, it2, n + 1) == SetIn(mem2, it2, n) + {mem2[n]};
      OneMore(SetIn(mem1, it1, it1 + len1), SetIn(mem2, it2, n), mem2[n]);
    }
  }

  lemma OneMore(s: set<nat>, t: set<nat>, x: nat)
    requires x !in t
    ensures Sum(s * (t + {x}), ONE) == Sum(s * t, ONE) + if x in s then 1 else 0
  {
    if x in s {
      SumTake(s * (t + {x}), ONE, x);
      assert s * (t + {x}) - {x} == s * t;
    } else {
      assert s * (t + {x}) == s * t;
    }
  }

  /** What is still to be counted, for cursors that may be beyond the ends. */
  ghost function Rest(mem1: seq<nat>, it1: nat, hi1: nat, mem2: seq<nat>, it2: nat, hi2: nat): nat
    requires hi1 <= |mem1| && hi2 <= |mem2|
  {
    Sum(SetIn(mem1, it1, hi1) * SetIn(mem2, it2, hi2), ONE)
  }

  lemma RestDone(mem1: seq<nat>, it1: nat, hi1: nat, mem2: seq<nat>, it2: nat, hi2: nat)
    requires hi1 <= |mem1| && hi2 <= |mem2| && (hi1 <= it1 || hi2 <= it2)
    ensures Rest(mem1, it1, hi1, mem2, it2, hi2) == 0
  {
    assert SetIn(mem1, it1, hi1) * SetIn(mem2, it2, hi2) == {};
  }

  lemma Cut(mem: seq<nat>, it: nat, it': nat, hi: nat)
    requires StrictIn(mem, it, hi) && it < it' <= hi
    ensures SetIn(mem, it, hi) == SetIn(mem, it, it') + SetIn(mem, it', hi)
    ensures forall x :: x in SetIn(mem, it, it') ==> x <= mem[it' - 1]
    ensures forall x :: x in SetIn(mem, it', hi) ==> mem[it' - 1] < x
  {
    IncreasingIn(mem, it, hi);
  }

  /** Two blocks cut off the front; the one with the smaller last value is done
      with, since the other's later values are all beyond it. */
  lemma BlockStep(mem1: seq<nat>, i: nat, i': nat, hi1: nat, mem2: seq<nat>, j: nat, j': nat, hi2: nat)
    requires StrictIn(mem1, i, hi1) && StrictIn(mem2, j, hi2) && i < i' <= hi1 && j < j' <= hi2
    ensures var here := Sum(SetIn(mem1, i, i') * SetIn(mem2, j, j'), ONE);
            Rest(mem1, i, hi1, mem2, j, hi2) == here +
              Rest(mem1, if mem1[i' - 1] <= mem2[j' - 1] then i' else i, hi1,
                   mem2, if mem2[j' - 1] <= mem1[i' - 1] then j' else j, hi2)
  {
    Cut(mem1, i, i', hi1);
    Cut(mem2, j, j', hi2);
    Blocks(SetIn(mem1, i, i'), SetIn(mem1, i', hi1), mem1[i' - 1], SetIn(mem2, j, j'), SetIn(mem2, j', hi2), mem2[j' - 1]);
  }

  lemma Blocks(blk1: set<nat>, rest1: set<nat>, last1: nat, blk2: set<nat>, rest2: set<nat>, last2: nat)
    requires (forall x :: x in blk1 ==> x <= last1) && (forall x :: x in rest1 ==> last1 < x)
    requires (forall x :: x in blk2 ==> x <= last2) && (forall x :: x in rest2 ==> last2 < x)
    ensures Sum((blk1 + rest1) * (blk2 + rest2), ONE) == Sum(blk1 * blk2, ONE) +
              (if last1 < last2 then Sum(rest1 * (blk2 + rest2), ONE)
               else if last2 < last1 then Sum((blk1 + rest1) * rest2, ONE)
               else Sum(rest1 * rest2, ONE))
  {
    var all := (blk1 + rest1) * (blk2 + rest2);
    var after := if last1 < last2 then rest1 * (blk2 + rest2) else if last2 < last1 then (blk1 + rest1) * rest2 else rest1 * rest2;
    assert all == blk1 * blk2 + after;
    SumSplit(blk1 * blk2, after, ONE);
  }

  /** One pass of the loop. */
  lemma Pass(mem1: seq<nat>, it1: nat, len1: nat, hi1: nat, mem2: seq<nat>, it2: nat, len2: nat, hi2: nat)
      returns (next1: nat, next2: nat)
    requires it1 < hi1 && hi1 + 8 <= |mem1| && StrictIn(mem1, it1, hi1) && len1 == Min(8, hi1 - it1)
    requires it2 < hi2 && hi2 + 8 <= |mem2| && StrictIn(mem2, it2, hi2) && len2 == Min(8, hi2 - it2)
    ensures var last1, last2 := mem1[it1 + len1 - 1], mem2[it2 + len2 - 1];
            next1 == (if last1 <= last2 then it1 + 8 else it1) && next2 == if last2 <= last1 then it2 + 8 else it2
    ensures Rest(mem1, it1, hi1, mem2, it2, hi2) ==
              PopCountOfMatches(mem1, it1, len1, mem2, it2, len2) + Rest(mem1, next1, hi1, mem2, next2, hi2)
  {
    var last1, last2 := mem1[it1 + len1 - 1], mem2[it2 + len2 - 1];
    next1 := if last1 <= last2 then it1 + 8 else it1;
    next2 := if last2 <= last1 then it2 + 8 else it2;
    var mid1 := if last1 <= last2 then it1 + len1 else it1;
    var mid2 := if last2 <= last1 then it2 + len2 else it2;
    RestSame(mem1, mid1, next1, hi1, mem2, mid2, next2, hi2);
    assert Rest(mem1, it1, hi1, mem2, it2, hi2) ==
              PopCountOfMatches(mem1, it1, len1, mem2, it2, len2) + Rest(mem1, mid1, hi1, mem2, mid2, hi2) by {
      BlockStep(mem1, it1, it1 + len1, hi1, mem2, it2, it2 + len2, hi2);
      MatchesAreCommon(mem1, it1, len1, mem2, it2, len2);
    }
  }

  /** Advancing by eight beyond a short last block leaves nothing, too. */
  lemma RestSame(mem1: seq<nat>, it1: nat, it1': nat, hi1: nat, mem2: seq<nat>, it2: nat, it2': nat, hi2: nat)
    requires hi1 <= |mem1| && (it1' == it1 || (hi1 == it1 <= it1'))
    requires hi2 <= |mem2| && (it2' == it2 || (hi2 == it2 <= it2'))
    ensures Rest(mem1, it1, hi1, mem2, it2, hi2) == Rest(mem1, it1', hi1, mem2, it2', hi2)
  {
    assert SetIn(mem1, it1, hi1) == SetIn(mem1, it1', hi1);
    assert SetIn(mem2, it2, hi2) == SetIn(mem2, it2', hi2);
  }

  /** intersectionCountOptimized on 16-bit values. The arrays are
      `mem1[lo1..hi1]` and `mem2[lo2..hi2]`; each block loads eight values,
      which may reach beyond the array's end but must stay in memory. */
  method CountByEights(mem1: seq<nat>, lo1: nat, hi1: nat, mem2: seq<nat>, lo2: nat, hi2: nat) returns (result: nat)
    requires lo1 <= hi1 && hi1 + 8 <= |mem1| && lo2 <= hi2 && hi2 + 8 <= |mem2|
    requires StrictIn(mem1, lo1, hi1) && StrictIn(mem2, lo2, hi2)
    ensures result == |SetIn(mem1, lo1, hi1) * SetIn(mem2, lo2, hi2)|
  {
    result := 0;
    var it1, it2 := lo1, lo2;
    while it1 < hi1 && it2 < hi2
      invariant lo1 <= it1 && lo2 <= it2
      invariant result + Rest(mem1, it1, hi1, mem2, it2, hi2) == Rest(mem1, lo1, hi1, mem2, lo2, hi2)
      decreases hi1 + 8 - it1 + (hi2 + 8 - it2)
    {
      var len1, len2 := Min(8, hi1 - it1), Min(8, hi2 - it2);
      var last1, last2 := mem1[it1 + len1 - 1], mem2[it2 + len2 - 1];
      ghost var next1, next2 := Pass(mem1, it1, len1, hi1, mem2, it2, len2, hi2);
      result := result + PopCountOfMatches(mem1, it1, len1, mem2, it2, len2);
      if last1 <= last2 { it1 := it1 + 8; }
      if last2 <= last1 { it2 := it2 + 8; }
      assert it1 == next1 && it2 == next2;
    }
    RestDone(mem1, it1, hi1, mem2, it2, hi2);
    SumOfOnes(SetIn(mem1, lo1, hi1) * SetIn(mem2, lo2, hi2));
  }
}
