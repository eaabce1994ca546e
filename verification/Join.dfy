/** The sort-merge join (builtin/joined_dataset.cc, 326-629), against the
    relational definition. */
module Joins {
  import Sorting

  datatype Qualification = INNER | LEFT | RIGHT | FULL

  datatype Style = CROSS_JOIN | EQUIJOIN

  /** A join key; SQL's null sorts before every value. */
  datatype Key = Null | Val(v: int)

  predicate Less(a: Key, b: Key) {
    b.Val? && (a.Null? || a.v < b.v)
  }

  datatype Truth = True | False | Unknown

  /** A row of an input: name, hash, its key, and its side's condition. */
  datatype Row = Row(path: string, hash: nat, key: Key, cond: Truth)

  /** One side of a joined row; `NO_SIDE` is the empty path and hash. */
  datatype Side = Side(path: string, hash: nat)

  const NO_SIDE := Side("", 0)

  datatype Pair = Pair(left: Side, right: Side)

  function SideOf(r: Row): Side {
    Side(r.path, r.hash)
  }

  // ------------------------------------------------- the relational definition

  predicate Match(l: Row, r: Row, constant: bool) {
    constant && l.cond == True && r.cond == True && l.key == r.key && l.key != Null
  }

  /** The sum over a row list of what each row gives. */
  ghost function SumOver(s: seq<Row>, f: Row -> multiset<Pair>): multiset<Pair> {
    if s == [] then multiset{} else SumOver(s[..|s| - 1], f) + f(s[|s| - 1])
  }

  ghost function PairIf(l: Row, constant: bool): Row -> multiset<Pair> {
    r => if Match(l, r, constant) then multiset{Pair(SideOf(l), SideOf(r))} else multiset{}
  }

  /** What left row `l` gives: a pair for each match, or, in an outer join and
      without a match, itself once. */
  ghost function FromLeft(right: seq<Row>, constant: bool, outer: bool): Row -> multiset<Pair> {
    l => SumOver(right, PairIf(l, constant))
         + if outer && (forall r :: r in right ==> !Match(l, r, constant)) then multiset{Pair(SideOf(l), NO_SIDE)} else multiset{}
  }

  ghost function FromRight(left: seq<Row>, constant: bool, outer: bool): Row -> multiset<Pair> {
    r => if outer && (forall l :: l in left ==> !Match(l, r, constant)) then multiset{Pair(NO_SIDE, SideOf(r))} else multiset{}
  }

  predicate OuterLeft(q: Qualification) { q == LEFT || q == FULL }

  predicate OuterRight(q: Qualification) { q == RIGHT || q == FULL }

  /** The join of two row lists. */
  ghost function Relational(left: seq<Row>, right: seq<Row>, constant: bool, q: Qualification): multiset<Pair> {
    SumOver(left, FromLeft(right, constant, OuterLeft(q))) + SumOver(right, FromRight(left, constant, OuterRight(q)))
  }

  // -------------------------------------------------------------- sums of rows

  lemma Regroup(a: multiset<Pair>, b: multiset<Pair>, c: multiset<Pair>)
    ensures (a + b) + c == a + (b + c)
  {
  }

  lemma Shuffle(a: multiset<Pair>, b: multiset<Pair>, c: multiset<Pair>, d: multiset<Pair>)
    ensures (a + b) + (c + d) == (a + c) + (b + d)
  {
  }

  lemma SumSnoc(s: seq<Row>, x: Row, f: Row -> multiset<Pair>)
    ensures SumOver(s + [x], f) == SumOver(s, f) + f(x)
  {
    assert (s + [x])[..|s|] == s;
  }

  lemma {:induction false} SumAppend(s: seq<Row>, t: seq<Row>, f: Row -> multiset<Pair>)
    ensures SumOver(s + t, f) == SumOver(s, f) + SumOver(t, f)
  {
    if t == [] {
      assert s + t == s;
    } else {
      var n := |t| - 1;
      SumAppend(s, t[..n], f);
      assert s + t == (s + t[..n]) + [t[n]];
      SumSnoc(s + t[..n], t[n], f);
    }
  }

  lemma SumRemove(s: seq<Row>, i: nat, f: Row -> multiset<Pair>)
    requires i < |s|
    ensures SumOver(s, f) == f(s[i]) + SumOver(s[..i] + s[i + 1..], f)
    ensures multiset(s) == multiset{s[i]} + multiset(s[..i] + s[i + 1..])
  {
    var a, b := s[..i], s[i + 1..];
    assert s == (a + [s[i]]) + b;
    SumAppend(a + [s[i]], b, f);
    SumSnoc(a, s[i], f);
    SumAppend(a, b, f);
    Swap(SumOver(a, f), f(s[i]), SumOver(b, f));
  }

  lemma Swap(a: multiset<Pair>, b: multiset<Pair>, c: multiset<Pair>)
    ensures (a + b) + c == b + (a + c)
  {
  }

  /** The order of the rows does not matter. */
  lemma {:induction false} SumPermuted(s: seq<Row>, t: seq<Row>, f: Row -> multiset<Pair>)
    requires multiset(s) == multiset(t)
    ensures SumOver(s, f) == SumOver(t, f)
  {
    if s == [] {
      assert |multiset(t)| == 0;
    } else {
      var n := |s| - 1;
      assert s == s[..n] + [s[n]];
      assert multiset(s) == multiset(s[..n]) + multiset{s[n]} && s[n] in multiset(t);
      var i :| 0 <= i < |t| && t[i] == s[n];
      SumRemove(t, i, f);
      var t' := t[..i] + t[i + 1..];
      assert multiset(s[..n]) == multiset(s) - multiset{s[n]} == multiset(t');
      SumPermuted(s[..n], t', f);
    }
  }

  lemma {:induction false} SumSame(s: seq<Row>, f: Row -> multiset<Pair>, g: Row -> multiset<Pair>)
    requires forall x :: x in s ==> f(x) == g(x)
    ensures SumOver(s, f) == SumOver(s, g)
  {
    if s != [] { SumSame(s[..|s| - 1], f, g); }
  }

  lemma {:induction false} SumOfNothing(s: seq<Row>, f: Row -> multiset<Pair>)
    requires forall x :: x in s ==> f(x) == multiset{}
    ensures SumOver(s, f) == multiset{}
  {
    if s != [] { SumOfNothing(s[..|s| - 1], f); }
  }

  // ------------------------------------------------ what the definition counts

  ghost predicate Unmatched(l: Row, right: seq<Row>, constant: bool) {
    forall r :: r in right ==> !Match(l, r, constant)
  }

  predicate Called(r: Row, side: Side) {
    r.path == side.path && r.hash == side.hash
  }

  /** How many rows of the left side are called `side` and match nothing. */
  ghost function UnmatchedCount(left: seq<Row>, right: seq<Row>, constant: bool, side: Side): nat {
    if left == [] then 0
    else UnmatchedCount(left[..|left| - 1], right, constant, side)
         + if Called(left[|left| - 1], side) && Unmatched(left[|left| - 1], right, constant) then 1 else 0
  }

  /** How many pairs of rows with these names match. */
  ghost function MatchCount(left: seq<Row>, right: seq<Row>, constant: bool, p: Pair): nat {
    if left == [] then 0
    else MatchCount(left[..|left| - 1], right, constant, p) + MatchesOf(left[|left| - 1], right, constant, p)
  }

  ghost function MatchesOf(l: Row, right: seq<Row>, constant: bool, p: Pair): nat {
    if right == [] then 0
    else
      var r := right[|right| - 1];
      MatchesOf(l, right[..|right| - 1], constant, p)
      + if Match(l, r, constant) && Called(l, p.left) && Called(r, p.right) then 1 else 0
  }

  lemma {:induction false} CountOfMatches(l: Row, right: seq<Row>, constant: bool, p: Pair)
    ensures SumOver(right, PairIf(l, constant))[p] == MatchesOf(l, right, constant, p)
  {
    if right != [] { CountOfMatches(l, right[..|right| - 1], constant, p); }
  }

  /** Real rows are not called by the empty path. */
  ghost predicate Named(rows: seq<Row>) {
    forall r :: r in rows ==> !(r.path == "" && r.hash == 0)
  }

  lemma {:induction false} NoMatchIsNoSide(l: Row, right: seq<Row>, constant: bool, side: Side)
    requires Named(right)
    ensures SumOver(right, PairIf(l, constant))[Pair(side, NO_SIDE)] == 0
    decreases |right|
  {
    if right != [] {
      assert right[|right| - 1] in right;
      NoMatchIsNoSide(l, right[..|right| - 1], constant, side);
    }
  }

  lemma {:induction false} NothingFromRight(right: seq<Row>, left: seq<Row>, constant: bool, outer: bool, p: Pair)
    requires p.left != NO_SIDE
    ensures SumOver(right, FromRight(left, constant, outer))[p] == 0
  {
    if right != [] { NothingFromRight(right[..|right| - 1], left, constant, outer, p); }
  }

  lemma {:induction false} CountFromLeft(left: seq<Row>, right: seq<Row>, constant: bool, outer: bool, p: Pair)
    requires Named(right)
    ensures SumOver(left, FromLeft(right, constant, outer))[p] ==
              if p.right == NO_SIDE then (if outer then UnmatchedCount(left, right, constant, p.left) else 0)
              else MatchCount(left, right, constant, p)
  {
    if left != [] {
      CountFromLeft(left[..|left| - 1], right, constant, outer, p);
      OneFromLeft(left[|left| - 1], right, constant, outer, p);
    }
  }

  lemma OneFromLeft(l: Row, right: seq<Row>, constant: bool, outer: bool, p: Pair)
    requires Named(right)
    ensures FromLeft(right, constant, outer)(l)[p] ==
              if p.right == NO_SIDE then (if outer && Called(l, p.left) && Unmatched(l, right, constant) then 1 else 0)
              else MatchesOf(l, right, constant, p)
  {
    if p.right == NO_SIDE { NoMatchIsNoSide(l, right, constant, p.left); } else { CountOfMatches(l, right, constant, p); }
  }

  ghost predicate UnmatchedRight(r: Row, left: seq<Row>, constant: bool) {
    forall l :: l in left ==> !Match(l, r, constant)
  }

  /** The same for the right side. */
  ghost function UnmatchedRightCount(right: seq<Row>, left: seq<Row>, constant: bool, side: Side): nat {
    if right == [] then 0
    else UnmatchedRightCount(right[..|right| - 1], left, constant, side)
         + if Called(right[|right| - 1], side) && UnmatchedRight(right[|right| - 1], left, constant) then 1 else 0
  }

  lemma {:induction false} CountFromRight(right: seq<Row>, left: seq<Row>, constant: bool, outer: bool, side: Side)
    ensures SumOver(right, FromRight(left, constant, outer))[Pair(NO_SIDE, side)] ==
              if outer then UnmatchedRightCount(right, left, constant, side) else 0
  {
    if right != [] { CountFromRight(right[..|right| - 1], left, constant, outer, side); }
  }

  /** No row is called by the empty path, so no count of such rows is above 0. */
  lemma {:induction false} NobodyUnnamed(left: seq<Row>, right: seq<Row>, constant: bool, p: Pair)
    requires Named(left) && p.left == NO_SIDE
    ensures UnmatchedCount(left, right, constant, NO_SIDE) == 0 && MatchCount(left, right, constant, p) == 0
  {
    if left != [] {
      assert left[|left| - 1] in left;
      NobodyUnnamed(left[..|left| - 1], right, constant, p);
      NoMatchUnnamed(left[|left| - 1], right, constant, p);
    }
  }

  lemma {:induction false} NoMatchUnnamed(l: Row, right: seq<Row>, constant: bool, p: Pair)
    requires !Called(l, p.left)
    ensures MatchesOf(l, right, constant, p) == 0
  {
    if right != [] { NoMatchUnnamed(l, right[..|right| - 1], constant, p); }
  }

  lemma {:induction false} NoRightUnnamed(right: seq<Row>, left: seq<Row>, constant: bool)
    requires Named(right)
    ensures UnmatchedRightCount(right, left, constant, NO_SIDE) == 0
  {
    if right != [] {
      assert right[|right| - 1] in right;
      NoRightUnnamed(right[..|right| - 1], left, constant);
    }
  }

  /** The definition, counted: a pair of rows is in the join as often as rows so
      named match; a left row alone, in a left or full join, as often as rows so
      named match nothing, and a right row in a right or full join; and nothing
      else is. */
  lemma RelationalCounts(left: seq<Row>, right: seq<Row>, constant: bool, q: Qualification, p: Pair)
    requires Named(left) && Named(right)
    ensures Relational(left, right, constant, q)[p] ==
              if p.left == Side("", 0) then
                (if p.right == Side("", 0) then 0 else
                 match q
                 case INNER => 0
                 case LEFT => 0
                 case RIGHT => UnmatchedRightCount(right, left, constant, p.right)
                 case FULL => UnmatchedRightCount(right, left, constant, p.right))
              else if p.right == Side("", 0) then
                (match q
                 case INNER => 0
                 case LEFT => UnmatchedCount(left, right, constant, p.left)
                 case RIGHT => 0
                 case FULL => UnmatchedCount(left, right, constant, p.left))
              else MatchCount(left, right, constant, p)
  {
    CountFromLeft(left, right, constant, OuterLeft(q), p);
    if p.left == NO_SIDE {
      NobodyUnnamed(left, right, constant, p);
      CountFromRight(right, left, constant, OuterRight(q), p.right);
      NoRightUnnamed(right, left, constant);
    } else {
      NothingFromRight(right, left, constant, OuterRight(q), p);
    }
  }

  // -- the mirror

  function Mirrored(q: Qualification): Qualification {
    match q
    case LEFT => RIGHT
    case RIGHT => LEFT
    case _ => q
  }

  lemma {:induction false} UnmatchedMirrors(rows: seq<Row>, others: seq<Row>, constant: bool, side: Side)
    ensures UnmatchedRightCount(rows, others, constant, side) == UnmatchedCount(rows, others, constant, side)
  {
    if rows != [] {
      UnmatchedMirrors(rows[..|rows| - 1], others, constant, side);
      var r := rows[|rows| - 1];
      forall o | o in others ensures Match(o, r, constant) == Match(r, o, constant) {}
    }
  }

  /** One more row on the right. */
  lemma {:induction false} MatchesSnoc(left: seq<Row>, right: seq<Row>, r: Row, constant: bool, p: Pair)
    ensures MatchCount(left, right + [r], constant, p) == MatchCount(left, right, constant, p) + MatchesOf(r, left, constant, Pair(p.right, p.left))
  {
    if left != [] {
      MatchesSnoc(left[..|left| - 1], right, r, constant, p);
      assert (right + [r])[..|right|] == right;
      var l := left[|left| - 1];
      assert Match(l, r, constant) == Match(r, l, constant);
    }
  }

  lemma {:induction false} MatchesWithNothing(left: seq<Row>, constant: bool, p: Pair)
    ensures MatchCount(left, [], constant, p) == 0
  {
    if left != [] { MatchesWithNothing(left[..|left| - 1], constant, p); }
  }

  lemma {:induction false} MatchesMirror(left: seq<Row>, right: seq<Row>, constant: bool, p: Pair)
    ensures MatchCount(left, right, constant, p) == MatchCount(right, left, constant, Pair(p.right, p.left))
    decreases |right|
  {
    if right == [] {
      MatchesWithNothing(left, constant, p);
    } else {
      var front, r := right[..|right| - 1], right[|right| - 1];
      MatchesMirror(left, front, constant, p);
      assert right == front + [r];
      MatchesSnoc(left, front, r, constant, p);
    }
  }

  /** The right join is the left join of the sides exchanged, and the inner and the
      full join are their own mirrors. */
  lemma RelationalMirrors(left: seq<Row>, right: seq<Row>, constant: bool, q: Qualification, p: Pair)
    requires Named(left) && Named(right)
    ensures Relational(left, right, constant, q)[p] == Relational(right, left, constant, Mirrored(q))[Pair(p.right, p.left)]
  {
    RelationalCounts(left, right, constant, q, p);
    RelationalCounts(right, left, constant, Mirrored(q), Pair(p.right, p.left));
    MatchesMirror(left, right, constant, p);
    UnmatchedMirrors(right, left, constant, p.right);
    UnmatchedMirrors(left, right, constant, p.left);
  }

  // ------------------------------------------------------------ sorted inputs

  predicate RowLeq(x: Row, y: Row) {
    !Less(y.key, x.key)
  }

  predicate KeyAt(s: seq<Row>, i: nat, j: nat)
    requires i < |s| && j < |s|
  {
    !Less(s[j].key, s[i].key)
  }

  ghost predicate KeysSorted(s: seq<Row>) {
    forall i, j :: 0 <= i < j < |s| ==> KeyAt(s, i, j)
  }

  /** In order of key: nulls first, then the values from the least to the greatest. */
  lemma KeysAscend(s: seq<Row>, i: nat, j: nat)
    requires KeysSorted(s) && i < j < |s|
    ensures s[j].key == Null ==> s[i].key == Null
    ensures s[i].key != Null && s[j].key != Null ==> s[i].key.v <= s[j].key.v
  {
    assert KeyAt(s, i, j);
  }

  /** What the two sides of the merge are: rows that passed their conditions, in
      order, and if there are any on both sides the constant condition is true. */
  ghost predicate Mergeable(left: seq<Row>, right: seq<Row>, constant: bool) {
    && KeysSorted(left) && KeysSorted(right)
    && (forall l :: l in left ==> l.cond == True) && (forall r :: r in right ==> r.cond == True)
    && (constant || left == [] || right == [])
  }

  /** What is before the cursors is below what is after them. */
  ghost predicate Apart(left: seq<Row>, i: nat, right: seq<Row>, j: nat) {
    && i <= |left| && j <= |right|
    && (i < |left| ==> forall b :: 0 <= b < j ==> Less(right[b].key, left[i].key))
    && (j < |right| ==> forall a :: 0 <= a < i ==> Less(left[a].key, right[j].key))
  }

  /** A left row below the right cursor joins with nothing. */
  lemma LeftAlone(left: seq<Row>, i: nat, right: seq<Row>, j: nat, constant: bool, outer: bool)
    requires KeysSorted(right) && i < |left| && Apart(left, i, right, j) && (j < |right| ==> Less(left[i].key, right[j].key))
    ensures FromLeft(right, constant, outer)(left[i]) == if outer then multiset{Pair(SideOf(left[i]), NO_SIDE)} else multiset{}
  {
    forall r | r in right ensures r.key != left[i].key {
      var b :| 0 <= b < |right| && right[b] == r;
      if b > j { assert KeyAt(right, j, b); }
    }
    SumOfNothing(right, PairIf(left[i], constant));
  }

  lemma RightAlone(left: seq<Row>, i: nat, right: seq<Row>, j: nat, constant: bool, outer: bool)
    requires KeysSorted(left) && j < |right| && Apart(left, i, right, j) && (i < |left| ==> Less(right[j].key, left[i].key))
    ensures FromRight(left, constant, outer)(right[j]) == if outer then multiset{Pair(NO_SIDE, SideOf(right[j]))} else multiset{}
  {
    forall l | l in left ensures l.key != right[j].key {
      var a :| 0 <= a < |left| && left[a] == l;
      if a > i { assert KeyAt(left, i, a); }
    }
  }

  /** A group: the rows from `i` to `e` have the same key, and no others have. */
  ghost predicate Group(s: seq<Row>, i: nat, e: nat) {
    && i < e <= |s| && (forall k :: i <= k < e ==> s[k].key == s[i].key)
    && (e < |s| ==> s[e].key != s[i].key)
  }

  lemma OutsideGroup(s: seq<Row>, i: nat, e: nat, key: Key)
    requires KeysSorted(s) && Group(s, i, e) && key == s[i].key && forall k :: 0 <= k < i ==> Less(s[k].key, key)
    ensures forall x :: x in s[..i] ==> x.key != key
    ensures forall x :: x in s[e..] ==> x.key != key
    ensures e < |s| ==> Less(key, s[e].key)
  {
    if e < |s| {
      assert KeyAt(s, i, e);
      forall k | e <= k < |s| ensures s[k].key != key {
        if k > e { assert KeyAt(s, e, k); }
      }
    }
  }

  /** A left row of a group joins with just the right rows of the group. */
  lemma GroupLeft(left: seq<Row>, i: nat, e1: nat, right: seq<Row>, j: nat, e2: nat, constant: bool, outer: bool, k: nat)
    requires Mergeable(left, right, constant) && Apart(left, i, right, j) && Group(left, i, e1) && Group(right, j, e2)
    requires left[i].key == right[j].key && i <= k < e1
    ensures FromLeft(right, constant, outer)(left[k]) ==
              if left[i].key != Null then SumOver(right[j..e2], PairIf(left[k], constant))
              else if outer then multiset{Pair(SideOf(left[k]), NO_SIDE)} else multiset{}
  {
    var f := PairIf(left[k], constant);
    OutsideGroup(right, j, e2, left[i].key);
    SumOfGroup(right, j, e2, f);
    if left[i].key != Null {
      assert left[k] in left && right[j] in right && Match(left[k], right[j], constant);
    } else {
      SumOfNothing(right, f);
    }
  }

  lemma SumOfGroup(s: seq<Row>, j: nat, e: nat, f: Row -> multiset<Pair>)
    requires j <= e <= |s|
    requires forall x :: x in s[..j] || x in s[e..] ==> f(x) == multiset{}
    ensures SumOver(s, f) == SumOver(s[j..e], f)
  {
    assert s == (s[..j] + s[j..e]) + s[e..];
    SumAppend(s[..j] + s[j..e], s[e..], f);
    SumAppend(s[..j], s[j..e], f);
    SumOfNothing(s[..j], f);
    SumOfNothing(s[e..], f);
  }

  lemma GroupRight(left: seq<Row>, i: nat, e1: nat, right: seq<Row>, j: nat, e2: nat, constant: bool, outer: bool, k: nat)
    requires Mergeable(left, right, constant) && Apart(left, i, right, j) && Group(left, i, e1) && Group(right, j, e2)
    requires left[i].key == right[j].key && j <= k < e2
    ensures FromRight(left, constant, outer)(right[k]) ==
              if left[i].key == Null && outer then multiset{Pair(NO_SIDE, SideOf(right[k]))} else multiset{}
  {
    if left[i].key != Null {
      assert left[i] in left && right[k] in right && Match(left[i], right[k], constant);
    }
  }

  lemma GroupsMatch(left: seq<Row>, i: nat, e1: nat, right: seq<Row>, j: nat, e2: nat, constant: bool)
    requires Mergeable(left, right, constant) && Group(left, i, e1) && Group(right, j, e2)
    requires left[i].key == right[j].key != Null
    ensures AllMatch(left[i..e1], right[j..e2], constant)
  {
    forall l, r | l in left[i..e1] && r in right[j..e2] ensures Match(l, r, constant) {
      var a :| i <= a < e1 && left[a] == l;
      var b :| j <= b < e2 && right[b] == r;
      assert left[a] in left && right[b] in right;
    }
  }

  lemma GroupApart(left: seq<Row>, i: nat, e1: nat, right: seq<Row>, j: nat, e2: nat)
    requires KeysSorted(left) && KeysSorted(right) && Apart(left, i, right, j)
    requires Group(left, i, e1) && Group(right, j, e2) && left[i].key == right[j].key
    ensures Apart(left, e1, right, e2)
  {
    OutsideGroup(left, i, e1, left[i].key);
    OutsideGroup(right, j, e2, left[i].key);
  }

  lemma LeftApart(left: seq<Row>, i: nat, right: seq<Row>, j: nat)
    requires KeysSorted(left) && Apart(left, i, right, j) && i < |left| && j < |right| && Less(left[i].key, right[j].key)
    ensures Apart(left, i + 1, right, j)
  {
    if i + 1 < |left| { assert KeyAt(left, i, i + 1); }
  }

  lemma RightApart(left: seq<Row>, i: nat, right: seq<Row>, j: nat)
    requires KeysSorted(right) && Apart(left, i, right, j) && i < |left| && j < |right| && Less(right[j].key, left[i].key)
    ensures Apart(left, i, right, j + 1)
  {
    if j + 1 < |right| { assert KeyAt(right, j, j + 1); }
  }

  // ----------------------------------------------------- conditions of a side

  /** Whether a row goes into the merge; if not, an outer side records it alone
      and another side's query has dropped it. */
  predicate Joins(r: Row, outer: bool, constant: bool) {
    r.cond == True && (outer ==> constant)
  }

  ghost function Kept(rows: seq<Row>, outer: bool, constant: bool, keep: bool): seq<Row> {
    if rows == [] then []
    else Kept(rows[..|rows| - 1], outer, constant, keep)
         + if Joins(rows[|rows| - 1], outer, constant) == keep then [rows[|rows| - 1]] else []
  }

  lemma {:induction false} KeptHas(rows: seq<Row>, outer: bool, constant: bool, keep: bool)
    ensures forall r :: r in Kept(rows, outer, constant, keep) <==> r in rows && Joins(r, outer, constant) == keep
  {
    if rows != [] {
      var n := |rows| - 1;
      KeptHas(rows[..n], outer, constant, keep);
      assert rows == rows[..n] + [rows[n]];
    }
  }

  lemma {:induction false} SumKept(rows: seq<Row>, outer: bool, constant: bool, f: Row -> multiset<Pair>)
    ensures SumOver(rows, f) == SumOver(Kept(rows, outer, constant, true), f) + SumOver(Kept(rows, outer, constant, false), f)
  {
    if rows != [] {
      var front, r := rows[..|rows| - 1], rows[|rows| - 1];
      SumKept(front, outer, constant, f);
      var yes, no := Kept(front, outer, constant, true), Kept(front, outer, constant, false);
      if Joins(r, outer, constant) {
        assert Kept(rows, outer, constant, true) == yes + [r] && Kept(rows, outer, constant, false) == no + [] == no;
        SumSnoc(yes, r, f);
        Later(SumOver(yes, f), SumOver(no, f), f(r));
      } else {
        assert Kept(rows, outer, constant, true) == yes + [] == yes && Kept(rows, outer, constant, false) == no + [r];
        SumSnoc(no, r, f);
        Regroup(SumOver(yes, f), SumOver(no, f), f(r));
      }
    }
  }

  lemma Later(a: multiset<Pair>, b: multiset<Pair>, c: multiset<Pair>)
    ensures (a + b) + c == (a + c) + b
  {
  }

  /** A left row joins with the same rows of the whole right side and of any
      order of its kept rows. */
  lemma SameFromLeft(right: seq<Row>, right': seq<Row>, constant: bool, outer: bool, outerRight: bool, l: Row)
    requires multiset(right') == multiset(Kept(right, outerRight, constant, true))
    ensures FromLeft(right, constant, outer)(l) == FromLeft(right', constant, outer)(l)
  {
    var f := PairIf(l, constant);
    SumKept(right, outerRight, constant, f);
    KeptHas(right, outerRight, constant, true);
    KeptHas(right, outerRight, constant, false);
    SumOfNothing(Kept(right, outerRight, constant, false), f);
    SumPermuted(right', Kept(right, outerRight, constant, true), f);
    SameRows(right', Kept(right, outerRight, constant, true));
  }

  lemma SameRows(s: seq<Row>, t: seq<Row>)
    requires multiset(s) == multiset(t)
    ensures forall x :: x in s <==> x in t
  {
    forall x ensures x in s <==> x in t { assert x in multiset(s) <==> x in multiset(t); }
  }

  lemma SameFromRight(left: seq<Row>, left': seq<Row>, constant: bool, outer: bool, outerLeft: bool, r: Row)
    requires multiset(left') == multiset(Kept(left, outerLeft, constant, true))
    ensures FromRight(left, constant, outer)(r) == FromRight(left', constant, outer)(r)
  {
    KeptHas(left, outerLeft, constant, true);
    SameRows(left', Kept(left, outerLeft, constant, true));
  }

  /** One side's part of the join, from its kept rows and the others. */
  lemma SidePart(rows: seq<Row>, rows': seq<Row>, outer: bool, constant: bool, f: Row -> multiset<Pair>, f': Row -> multiset<Pair>, alone: Row -> multiset<Pair>)
    requires multiset(rows') == multiset(Kept(rows, outer, constant, true))
    requires forall r :: r in rows ==> f(r) == f'(r)
    requires forall r :: r in rows && !Joins(r, outer, constant) ==> f(r) == If(outer, alone(r))
    ensures SumOver(rows, f) == If(outer, SumOver(Kept(rows, outer, constant, false), alone)) + SumOver(rows', f')
  {
    var yes, no := Kept(rows, outer, constant, true), Kept(rows, outer, constant, false);
    SumKept(rows, outer, constant, f);
    KeptHas(rows, outer, constant, true);
    KeptHas(rows, outer, constant, false);
    SumOrNothing(no, f, outer, alone);
    SumSame(yes, f, f');
    SumPermuted(yes, rows', f');
  }

  /** The join of two sides is their rejected rows, where they are outer, and
      the join of the rest, in any order. */
  lemma RelationalSplits(left: seq<Row>, left': seq<Row>, right: seq<Row>, right': seq<Row>, constant: bool, q: Qualification)
    requires multiset(left') == multiset(Kept(left, OuterLeft(q), constant, true))
    requires multiset(right') == multiset(Kept(right, OuterRight(q), constant, true))
    ensures Relational(left, right, constant, q) ==
              (If(OuterLeft(q), SumOver(Kept(left, OuterLeft(q), constant, false), ALONE_LEFT))
               + If(OuterRight(q), SumOver(Kept(right, OuterRight(q), constant, false), ALONE_RIGHT)))
              + Relational(left', right', constant, q)
  {
    LeftSplits(left, left', right, right', constant, OuterLeft(q), OuterRight(q));
    RightSplits(left, left', right, right', constant, OuterLeft(q), OuterRight(q));
    Shuffle(If(OuterLeft(q), SumOver(Kept(left, OuterLeft(q), constant, false), ALONE_LEFT)),
            SumOver(left', FromLeft(right', constant, OuterLeft(q))),
            If(OuterRight(q), SumOver(Kept(right, OuterRight(q), constant, false), ALONE_RIGHT)),
            SumOver(right', FromRight(left', constant, OuterRight(q))));
  }

  lemma LeftSplits(left: seq<Row>, left': seq<Row>, right: seq<Row>, right': seq<Row>, constant: bool, outerLeft: bool, outerRight: bool)
    requires multiset(left') == multiset(Kept(left, outerLeft, constant, true))
    requires multiset(right') == multiset(Kept(right, outerRight, constant, true))
    ensures SumOver(left, FromLeft(right, constant, outerLeft)) ==
              If(outerLeft, SumOver(Kept(left, outerLeft, constant, false), ALONE_LEFT)) + SumOver(left', FromLeft(right', constant, outerLeft))
  {
    var f, f' := FromLeft(right, constant, outerLeft), FromLeft(right', constant, outerLeft);
    forall l ensures f(l) == f'(l) { SameFromLeft(right, right', constant, outerLeft, outerRight, l); }
    forall l | l in left && !Joins(l, outerLeft, constant) ensures f(l) == If(outerLeft, ALONE_LEFT(l)) {
      SumOfNothing(right, PairIf(l, constant));
    }
    SidePart(left, left', outerLeft, constant, f, f', ALONE_LEFT);
  }

  lemma RightSplits(left: seq<Row>, left': seq<Row>, right: seq<Row>, right': seq<Row>, constant: bool, outerLeft: bool, outerRight: bool)
    requires multiset(left') == multiset(Kept(left, outerLeft, constant, true))
    requires multiset(right') == multiset(Kept(right, outerRight, constant, true))
    ensures SumOver(right, FromRight(left, constant, outerRight)) ==
              If(outerRight, SumOver(Kept(right, outerRight, constant, false), ALONE_RIGHT)) + SumOver(right', FromRight(left', constant, outerRight))
  {
    var g, g' := FromRight(left, constant, outerRight), FromRight(left', constant, outerRight);
    forall r ensures g(r) == g'(r) { SameFromRight(left, left', constant, outerRight, outerLeft, r); }
    SidePart(right, right', outerRight, constant, g, g', ALONE_RIGHT);
  }

  // ------------------------------------------------------- progress of a merge

  /** What the rows before the cursors give to the join. */
  ghost function Done(left: seq<Row>, i: nat, right: seq<Row>, j: nat, constant: bool, q: Qualification): multiset<Pair>
    requires i <= |left| && j <= |right|
  {
    SumOver(left[..i], FromLeft(right, constant, OuterLeft(q))) + SumOver(right[..j], FromRight(left, constant, OuterRight(q)))
  }

  ghost function If(c: bool, m: multiset<Pair>): multiset<Pair> {
    if c then m else multiset{}
  }

  lemma SumTo(s: seq<Row>, i: nat, e: nat, f: Row -> multiset<Pair>)
    requires i <= e <= |s|
    ensures SumOver(s[..e], f) == SumOver(s[..i], f) + SumOver(s[i..e], f)
  {
    assert s[..e] == s[..i] + s[i..e];
    SumAppend(s[..i], s[i..e], f);
  }

  lemma SumFrom(s: seq<Row>, i: nat, f: Row -> multiset<Pair>)
    requires i <= |s|
    ensures SumOver(s, f) == SumOver(s[..i], f) + SumOver(s[i..], f)
  {
    assert s == s[..i] + s[i..];
    SumAppend(s[..i], s[i..], f);
  }

  lemma SumOne(s: seq<Row>, i: nat, f: Row -> multiset<Pair>)
    requires i < |s|
    ensures SumOver(s[..i + 1], f) == SumOver(s[..i], f) + f(s[i])
  {
    assert s[..i + 1] == s[..i] + [s[i]];
    SumSnoc(s[..i], s[i], f);
  }

  lemma DoneLeft(left: seq<Row>, i: nat, right: seq<Row>, j: nat, constant: bool, q: Qualification)
    requires Mergeable(left, right, constant) && Apart(left, i, right, j) && i < |left| && j < |right| && Less(left[i].key, right[j].key)
    ensures Done(left, i + 1, right, j, constant, q) == Done(left, i, right, j, constant, q) + If(OuterLeft(q), ALONE_LEFT(left[i]))
  {
    LeftAlone(left, i, right, j, constant, OuterLeft(q));
    SumOne(left, i, FromLeft(right, constant, OuterLeft(q)));
  }

  lemma DoneRight(left: seq<Row>, i: nat, right: seq<Row>, j: nat, constant: bool, q: Qualification)
    requires Mergeable(left, right, constant) && Apart(left, i, right, j) && i < |left| && j < |right| && Less(right[j].key, left[i].key)
    ensures Done(left, i, right, j + 1, constant, q) == Done(left, i, right, j, constant, q) + If(OuterRight(q), ALONE_RIGHT(right[j]))
  {
    RightAlone(left, i, right, j, constant, OuterRight(q));
    SumOne(right, j, FromRight(left, constant, OuterRight(q)));
  }

  lemma {:induction false} SumOrNothing(s: seq<Row>, f: Row -> multiset<Pair>, c: bool, g: Row -> multiset<Pair>)
    requires forall x :: x in s ==> f(x) == If(c, g(x))
    ensures SumOver(s, f) == If(c, SumOver(s, g))
  {
    if c { SumSame(s, f, g); } else { SumOfNothing(s, f); }
  }

  lemma SumGroupLeft(left: seq<Row>, i: nat, e1: nat, right: seq<Row>, j: nat, e2: nat, constant: bool, outer: bool)
    requires Mergeable(left, right, constant) && Apart(left, i, right, j) && Group(left, i, e1) && Group(right, j, e2)
    requires left[i].key == right[j].key
    ensures SumOver(left[i..e1], FromLeft(right, constant, outer)) ==
              if left[i].key != Null then SumOver(left[i..e1], WithGroup(right[j..e2], constant))
              else If(outer, SumOver(left[i..e1], ALONE_LEFT))
  {
    var f := FromLeft(right, constant, outer);
    forall x | x in left[i..e1] ensures f(x) == if left[i].key != Null then WithGroup(right[j..e2], constant)(x) else If(outer, ALONE_LEFT(x)) {
      var k :| i <= k < e1 && left[k] == x;
      GroupLeft(left, i, e1, right, j, e2, constant, outer, k);
    }
    if left[i].key != Null {
      SumSame(left[i..e1], f, WithGroup(right[j..e2], constant));
    } else {
      SumOrNothing(left[i..e1], f, outer, ALONE_LEFT);
    }
  }

  lemma SumGroupRight(left: seq<Row>, i: nat, e1: nat, right: seq<Row>, j: nat, e2: nat, constant: bool, outer: bool)
    requires Mergeable(left, right, constant) && Apart(left, i, right, j) && Group(left, i, e1) && Group(right, j, e2)
    requires left[i].key == right[j].key
    ensures SumOver(right[j..e2], FromRight(left, constant, outer)) == If(left[i].key == Null && outer, SumOver(right[j..e2], ALONE_RIGHT))
  {
    var g := FromRight(left, constant, outer);
    forall x | x in right[j..e2] ensures g(x) == If(left[i].key == Null && outer, ALONE_RIGHT(x)) {
      var k :| j <= k < e2 && right[k] == x;
      GroupRight(left, i, e1, right, j, e2, constant, outer, k);
    }
    SumOrNothing(right[j..e2], g, left[i].key == Null && outer, ALONE_RIGHT);
  }

  /** What two groups with the same key give. */
  ghost function GroupGives(lefts: seq<Row>, rights: seq<Row>, constant: bool, q: Qualification): multiset<Pair>
    requires lefts != []
  {
    if lefts[0].key != Null then SumOver(lefts, WithGroup(rights, constant))
    else If(OuterLeft(q), SumOver(lefts, ALONE_LEFT)) + If(OuterRight(q), SumOver(rights, ALONE_RIGHT))
  }

  lemma DoneGroup(left: seq<Row>, i: nat, e1: nat, right: seq<Row>, j: nat, e2: nat, constant: bool, q: Qualification)
    requires Mergeable(left, right, constant) && Apart(left, i, right, j) && Group(left, i, e1) && Group(right, j, e2)
    requires left[i].key == right[j].key
    ensures Done(left, e1, right, e2, constant, q) ==
              Done(left, i, right, j, constant, q) + GroupGives(left[i..e1], right[j..e2], constant, q)
  {
    var f, g := FromLeft(right, constant, OuterLeft(q)), FromRight(left, constant, OuterRight(q));
    SumTo(left, i, e1, f);
    SumTo(right, j, e2, g);
    SumGroupLeft(left, i, e1, right, j, e2, constant, OuterLeft(q));
    SumGroupRight(left, i, e1, right, j, e2, constant, OuterRight(q));
    Shuffle(SumOver(left[..i], f), SumOver(left[i..e1], f), SumOver(right[..j], g), SumOver(right[j..e2], g));
  }

  /** When one side is used up, the rest of the other joins with nothing. */
  lemma RestLeft(left: seq<Row>, i: nat, right: seq<Row>, j: nat, constant: bool, outer: bool)
    requires Mergeable(left, right, constant) && Apart(left, i, right, j) && (i == |left| || j == |right|)
    ensures SumOver(left[i..], FromLeft(right, constant, outer)) == If(outer, SumOver(left[i..], ALONE_LEFT))
  {
    var f := FromLeft(right, constant, outer);
    forall x | x in left[i..] ensures f(x) == If(outer, ALONE_LEFT(x)) {
      var k :| i <= k < |left| && left[k] == x;
      if k > i { assert KeyAt(left, i, k); }
      LeftAlone(left, k, right, j, constant, outer);
    }
    SumOrNothing(left[i..], f, outer, ALONE_LEFT);
  }

  lemma RestRight(left: seq<Row>, i: nat, right: seq<Row>, j: nat, constant: bool, outer: bool)
    requires Mergeable(left, right, constant) && Apart(left, i, right, j) && (i == |left| || j == |right|)
    ensures SumOver(right[j..], FromRight(left, constant, outer)) == If(outer, SumOver(right[j..], ALONE_RIGHT))
  {
    var g := FromRight(left, constant, outer);
    forall x | x in right[j..] ensures g(x) == If(outer, ALONE_RIGHT(x)) {
      var k :| j <= k < |right| && right[k] == x;
      if k > j { assert KeyAt(right, j, k); }
      RightAlone(left, i, right, k, constant, outer);
    }
    SumOrNothing(right[j..], g, outer, ALONE_RIGHT);
  }

  lemma DoneAll(left: seq<Row>, i: nat, right: seq<Row>, j: nat, constant: bool, q: Qualification)
    requires Mergeable(left, right, constant) && Apart(left, i, right, j) && (i == |left| || j == |right|)
    ensures Relational(left, right, constant, q) == Done(left, i, right, j, constant, q) +
              (If(OuterLeft(q), SumOver(left[i..], ALONE_LEFT)) + If(OuterRight(q), SumOver(right[j..], ALONE_RIGHT)))
  {
    var f, g := FromLeft(right, constant, OuterLeft(q)), FromRight(left, constant, OuterRight(q));
    SumFrom(left, i, f);
    SumFrom(right, j, g);
    RestLeft(left, i, right, j, constant, OuterLeft(q));
    RestRight(left, i, right, j, constant, OuterRight(q));
    Shuffle(SumOver(left[..i], f), SumOver(left[i..], f), SumOver(right[..j], g), SumOver(right[j..], g));
  }

  // ------------------------------------------------------- the joined dataset

  function Nested(n: nat): string {
    if n == 0 then "" else Nested(n - 1) + "[]-"
  }

  /** The name of a joined row, on top of `depth` chained joins. */
  function JoinedName(depth: nat, left: string, right: string): string {
    if depth > 0 && left != "" then left + "-[" + right + "]"
    else if depth == 0 then "[" + left + "]-[" + right + "]"
    else Nested(depth + 1) + "[" + right + "]"
  }

  function NameOf(depth: nat, p: Pair): string {
    JoinedName(depth, p.left.path, p.right.path)
  }

  /** Names in brackets, with dashes between. */
  function Listed(names: seq<string>): string {
    if names == [] then ""
    else (if |names| == 1 then "" else Listed(names[..|names| - 1]) + "-") + "[" + names[|names| - 1] + "]"
  }

  function Blank(n: nat): seq<string> {
    seq(n, i => "")
  }

  lemma ListedSnoc(names: seq<string>, name: string)
    requires names != []
    ensures Listed(names + [name]) == Listed(names) + "-[" + name + "]"
  {
    assert (names + [name])[..|names|] == names;
    assert (Listed(names) + "-") + "[" == Listed(names) + "-[";
  }

  /** A joined row is named by the rows that it is made of, in order: those of the
      left side, which at depth 0 is one and otherwise a joined row of its own, or
      as many blanks if there is none; and that of the right side. */
  lemma JoinedNameLists(depth: nat, names: seq<string>, right: string)
    requires |names| == depth + 1
    ensures depth == 0 ==> JoinedName(depth, names[0], right) == Listed(names + [right])
    ensures depth > 0 ==> JoinedName(depth, Listed(names), right) == Listed(names + [right])
    ensures JoinedName(depth, "", right) == Listed(Blank(depth + 1) + [right])
  {
    if depth == 0 { PairLists(names, right); } else { ChainLists(depth, names, right); }
    BlankLists(depth, right);
  }

  lemma PairLists(names: seq<string>, right: string)
    requires |names| == 1
    ensures JoinedName(0, names[0], right) == Listed(names + [right])
  {
    ListedSnoc(names, right);
    assert Listed(names) == "" + "[" + names[0] + "]" == "[" + names[0] + "]";
    assert "[" + names[0] + "]-[" == ("[" + names[0] + "]") + "-[";
  }

  lemma ChainLists(depth: nat, names: seq<string>, right: string)
    requires |names| == depth + 1 && depth > 0
    ensures JoinedName(depth, Listed(names), right) == Listed(names + [right])
  {
    ListedSnoc(names, right);
    assert |Listed(names)| >= 2;
  }

  lemma BlankLists(depth: nat, right: string)
    ensures JoinedName(depth, "", right) == Listed(Blank(depth + 1) + [right])
  {
    ListedSnoc(Blank(depth + 1), right);
    ListedBlank(depth + 1);
    assert Listed(Blank(depth + 1)) + "-[" == (Listed(Blank(depth + 1)) + "-") + "[";
    if depth == 0 { assert Nested(1) == "" + "[]-"; }
  }

  lemma {:induction false} ListedBlank(n: nat)
    requires n > 0
    ensures Listed(Blank(n)) + "-" == Nested(n)
  {
    if n > 1 {
      ListedBlank(n - 1);
      assert Blank(n)[..n - 1] == Blank(n - 1);
    }
  }

  /** Rows whose names have no brackets have different joined names if they are
      different rows. */
  lemma {:induction false} ListedTells(names: seq<string>, others: seq<string>)
    requires names != [] && others != [] && Listed(names) == Listed(others)
    requires forall s :: s in names || s in others ==> '[' !in s
    ensures names == others
    decreases |names|
  {
    var x, y := names[|names| - 1], others[|others| - 1];
    var front, front' := names[..|names| - 1], others[..|others| - 1];
    assert x in names && y in others;
    LastTells(Lead(names), x, Lead(others), y);
    if front != [] && front' != [] {
      assert Listed(front) == Lead(names)[..|Lead(names)| - 1] == Listed(front');
      ListedTells(front, front');
    } else {
      LeadEmpty(names);
      LeadEmpty(others);
    }
    assert names == front + [x] && others == front' + [y];
  }

  /** All before the last bracket. */
  function Lead(names: seq<string>): string
    requires names != []
  {
    if |names| == 1 then "" else Listed(names[..|names| - 1]) + "-"
  }

  lemma LeadEmpty(names: seq<string>)
    requires names != []
    ensures Lead(names) == "" <==> |names| == 1
  {
  }

  lemma LastTells(a: string, x: string, b: string, y: string)
    requires a + "[" + x + "]" == b + "[" + y + "]" && '[' !in x && '[' !in y
    ensures a == b && x == y
  {
    var s, t := a + "[" + x + "]", b + "[" + y + "]";
    LastBracket(a, x);
    LastBracket(b, y);
    assert a == s[..|a|] && b == t[..|b|];
    assert x == s[|a| + 1..|s| - 1] && y == t[|b| + 1..|t| - 1];
  }

  lemma LastBracket(a: string, x: string)
    requires '[' !in x
    ensures var s := a + "[" + x + "]"; s[|a|] == '[' && forall i :: |a| < i < |s| ==> s[i] != '['
  {
    var s := a + "[" + x + "]";
    forall i | |a| < i < |s| ensures s[i] != '[' {
      if i < |s| - 1 { assert s[i] == x[i - |a| - 1]; }
    }
  }

  datatype RowEntry = RowEntry(rowHash: nat, rowName: string, leftName: string, rightName: string)

  datatype Which = TheLeft | TheRight

  function At(p: Pair, which: Which): Side {
    match which case TheLeft => p.left case TheRight => p.right
  }

  /** The names of the joined rows that side row `h` is part of, in order. */
  ghost function NamesFor(log: seq<Pair>, depth: nat, which: Which, h: nat): seq<string> {
    if log == [] then []
    else NamesFor(log[..|log| - 1], depth, which, h)
         + if At(log[|log| - 1], which).hash == h then [NameOf(depth, log[|log| - 1])] else []
  }

  lemma NamesForSnoc(log: seq<Pair>, p: Pair, depth: nat, which: Which)
    ensures forall h :: NamesFor(log + [p], depth, which, h) ==
              NamesFor(log, depth, which, h) + if At(p, which).hash == h then [NameOf(depth, p)] else []
  {
    assert (log + [p])[..|log|] == log;
  }

  ghost predicate Indexes(index: map<nat, seq<string>>, log: seq<Pair>, depth: nat, which: Which) {
    forall h :: IndexedAt(index, log, depth, which, h)
  }

  ghost predicate IndexedAt(index: map<nat, seq<string>>, log: seq<Pair>, depth: nat, which: Which, h: nat) {
    Looked(index, h) == NamesFor(log, depth, which, h)
  }

  function Looked(index: map<nat, seq<string>>, h: nat): seq<string> {
    if h in index then index[h] else []
  }

  /** index[h].push_back(name) */
  function Pushed(index: map<nat, seq<string>>, h: nat, name: string): map<nat, seq<string>> {
    index[h := Looked(index, h) + [name]]
  }

  lemma IndexGrows(index: map<nat, seq<string>>, log: seq<Pair>, depth: nat, which: Which, p: Pair)
    requires Indexes(index, log, depth, which)
    ensures Indexes(Pushed(index, At(p, which).hash, NameOf(depth, p)), log + [p], depth, which)
  {
    NamesForSnoc(log, p, depth, which);
    forall h ensures IndexedAt(Pushed(index, At(p, which).hash, NameOf(depth, p)), log + [p], depth, which, h) {
      assert IndexedAt(index, log, depth, which, h);
    }
  }

  /** A row's hash leads to the last row with that hash. */
  ghost predicate LastRows(rowIndex: map<nat, nat>, rows: seq<RowEntry>) {
    && (forall i :: 0 <= i < |rows| ==> LastFor(rowIndex, rows, i))
    && (forall h :: h in rowIndex ==> rowIndex[h] < |rows| && rows[rowIndex[h]].rowHash == h)
  }

  ghost predicate LastFor(rowIndex: map<nat, nat>, rows: seq<RowEntry>, i: nat)
    requires i < |rows|
  {
    rows[i].rowHash in rowIndex && i <= rowIndex[rows[i].rowHash]
  }

  lemma LastGrows(rowIndex: map<nat, nat>, rows: seq<RowEntry>, entry: RowEntry)
    requires LastRows(rowIndex, rows)
    ensures LastRows(rowIndex[entry.rowHash := |rows|], rows + [entry])
  {
    var index', rows' := rowIndex[entry.rowHash := |rows|], rows + [entry];
    forall i | 0 <= i < |rows'| ensures LastFor(index', rows', i) {
      if i < |rows| { assert LastFor(rowIndex, rows, i); }
    }
  }

  class JoinedDataset {
    const depth: nat                       // chainedJoinDepth
    const hashOf: string -> nat
    var rows: seq<RowEntry>
    var rowIndex: map<nat, nat>
    var leftRowIndex: map<nat, seq<string>>
    var rightRowIndex: map<nat, seq<string>>
    ghost var log: seq<Pair>               // what has been recorded

    function EntryFor(p: Pair): RowEntry {
      RowEntry(hashOf(NameOf(depth, p)), NameOf(depth, p), p.left.path, p.right.path)
    }

    ghost predicate EntryAt(i: nat)
      requires i < |rows| && i < |log|
      reads this`rows, this`log
    {
      rows[i] == EntryFor(log[i])
    }

    ghost predicate Valid()
      reads this
    {
      && |rows| == |log| && (forall i :: 0 <= i < |rows| ==> EntryAt(i))
      && LastRows(rowIndex, rows)
      && Indexes(leftRowIndex, log, depth, TheLeft) && Indexes(rightRowIndex, log, depth, TheRight)
    }

    constructor (depth: nat, hashOf: string -> nat)
      ensures Valid() && log == []
    {
      this.depth, this.hashOf := depth, hashOf;
      rows, rowIndex, leftRowIndex, rightRowIndex, log := [], map[], map[], map[], [];
    }

    method RecordJoinRow(left: Side, right: Side)
      requires Valid()
      modifies this
      ensures Valid() && log == old(log) + [Pair(left, right)]
    {
      var rowName := JoinedName(depth, left.path, right.path);
      var rowHash := hashOf(rowName);
      IndexGrows(leftRowIndex, log, depth, TheLeft, Pair(left, right));
      IndexGrows(rightRowIndex, log, depth, TheRight, Pair(left, right));
      LastGrows(rowIndex, rows, RowEntry(rowHash, rowName, left.path, right.path));
      rows := rows + [RowEntry(rowHash, rowName, left.path, right.path)];
      rowIndex := rowIndex[rowHash := |rows| - 1];
      leftRowIndex := Pushed(leftRowIndex, left.hash, rowName);
      rightRowIndex := Pushed(rightRowIndex, right.hash, rowName);
      log := log + [Pair(left, right)];
      forall i | 0 <= i < |rows| ensures EntryAt(i) {
        if i < |rows| - 1 { assert old(EntryAt(i)); }
      }
    }

    /** Unmatched rows of the left side, each once. */
    method RecordLefts(left: seq<Row>)
      requires Valid()
      modifies this
      ensures Valid() && multiset(log) == multiset(old(log)) + SumOver(left, ALONE_LEFT)
    {
      for i := 0 to |left|
        invariant Valid() && multiset(log) == multiset(old(log)) + SumOver(left[..i], ALONE_LEFT)
      {
        RecordJoinRow(SideOf(left[i]), NO_SIDE);
        SumOne(left, i, ALONE_LEFT);
        Regroup(multiset(old(log)), SumOver(left[..i], ALONE_LEFT), ALONE_LEFT(left[i]));
      }
      assert left[..|left|] == left;
    }

    method RecordRights(right: seq<Row>)
      requires Valid()
      modifies this
      ensures Valid() && multiset(log) == multiset(old(log)) + SumOver(right, ALONE_RIGHT)
    {
      for i := 0 to |right|
        invariant Valid() && multiset(log) == multiset(old(log)) + SumOver(right[..i], ALONE_RIGHT)
      {
        RecordJoinRow(NO_SIDE, SideOf(right[i]));
        SumOne(right, i, ALONE_RIGHT);
        Regroup(multiset(old(log)), SumOver(right[..i], ALONE_RIGHT), ALONE_RIGHT(right[i]));
      }
      assert right[..|right|] == right;
    }

    /** The cross product of two groups. */
    method RecordGroup(lefts: seq<Row>, rights: seq<Row>, ghost constant: bool)
      requires Valid() && AllMatch(lefts, rights, constant)
      modifies this
      ensures Valid() && multiset(log) == multiset(old(log)) + SumOver(lefts, WithGroup(rights, constant))
    {
      for i := 0 to |lefts|
        invariant Valid() && multiset(log) == multiset(old(log)) + SumOver(lefts[..i], WithGroup(rights, constant))
      {
        RecordWith(lefts[i], rights, constant);
        SumOne(lefts, i, WithGroup(rights, constant));
        Regroup(multiset(old(log)), SumOver(lefts[..i], WithGroup(rights, constant)), SumOver(rights, PairIf(lefts[i], constant)));
      }
      assert lefts[..|lefts|] == lefts;
    }

    /** runSide's loop: rows to join, and those an outer side records alone. The
        query of a side that is not outer drops the latter. */
    method Split(rows: seq<Row>, outer: bool, constant: bool) returns (sorted: seq<Row>, outerRows: seq<Row>)
      ensures sorted == Kept(rows, outer, constant, true)
      ensures outerRows == if outer then Kept(rows, outer, constant, false) else []
    {
      sorted, outerRows := [], [];
      for i := 0 to |rows|
        invariant sorted == Kept(rows[..i], outer, constant, true)
        invariant outerRows == if outer then Kept(rows[..i], outer, constant, false) else []
      {
        assert rows[..i + 1][..i] == rows[..i];
        var r := rows[i];
        if outer {
          if constant && r.cond == True { sorted := sorted + [r]; } else { outerRows := outerRows + [r]; }
        } else if r.cond == True {
          sorted := sorted + [r];
        }
      }
      assert rows[..|rows|] == rows;
    }

    method RunSide(which: Which, rows: seq<Row>, outer: bool, constant: bool) returns (sorted: seq<Row>)
      requires Valid()
      modifies this
      ensures Valid() && KeysSorted(sorted) && multiset(sorted) == multiset(Kept(rows, outer, constant, true))
      ensures multiset(log) == multiset(old(log)) +
                If(outer, SumOver(Kept(rows, outer, constant, false), if which == TheLeft then ALONE_LEFT else ALONE_RIGHT))
    {
      var keep, outerRows := Split(rows, outer, constant);
      sorted := SortRows(keep);
      var alone := SortRows(outerRows);
      SumPermuted(alone, outerRows, if which == TheLeft then ALONE_LEFT else ALONE_RIGHT);
      match which {
        case TheLeft => RecordLefts(alone);
        case TheRight => RecordRights(alone);
      }
    }

    /** The whole join; `!ok` is the error of a cross join that is too big. */
    method Join(left: seq<Row>, right: seq<Row>, constant: bool, style: Style, q: Qualification) returns (ok: bool)
      requires Valid() && log == []
      requires style == CROSS_JOIN ==> forall r :: r in left || r in right ==> r.key == Val(1)
      modifies this
      ensures Valid()
      ensures ok ==> multiset(log) == Relational(left, right, constant, q)
      ensures !ok <==> style == CROSS_JOIN && (constant || q != INNER)
                       && |Kept(left, OuterLeft(q), constant, true)| * |Kept(right, OuterRight(q), constant, true)| > 100_000_000
    {
      if !constant && q == INNER {
        NothingInner(left, right);
        return true;
      }
      ok := JoinSides(left, right, constant, style, q);
    }

    method JoinSides(left: seq<Row>, right: seq<Row>, constant: bool, style: Style, q: Qualification) returns (ok: bool)
      requires Valid() && log == [] && (constant || q != INNER)
      modifies this
      ensures Valid()
      ensures ok ==> multiset(log) == Relational(left, right, constant, q)
      ensures !ok <==> style == CROSS_JOIN
                       && |Kept(left, OuterLeft(q), constant, true)| * |Kept(right, OuterRight(q), constant, true)| > 100_000_000
    {
      var leftRows := RunSide(TheLeft, left, OuterLeft(q), constant);
      ghost var a := If(OuterLeft(q), SumOver(Kept(left, OuterLeft(q), constant, false), ALONE_LEFT));
      assert multiset(log) == multiset{} + a == a;
      var rightRows := RunSide(TheRight, right, OuterRight(q), constant);
      SameSize(leftRows, Kept(left, OuterLeft(q), constant, true));
      SameSize(rightRows, Kept(right, OuterRight(q), constant, true));
      if style == CROSS_JOIN && |leftRows| * |rightRows| > 100_000_000 { return false; }
      SidesMerge(left, leftRows, right, rightRows, constant, q);
      RelationalSplits(left, leftRows, right, rightRows, constant, q);
      Merge(leftRows, rightRows, constant, q);
      return true;
    }

    /** Where the group that starts at `i` ends. */
    method GroupEnd(s: seq<Row>, i: nat) returns (e: nat)
      requires i < |s|
      ensures Group(s, i, e)
    {
      e := i + 1;
      while e < |s| && s[e].key == s[i].key
        invariant i < e <= |s| && forall k :: i <= k < e ==> s[k].key == s[i].key
      {
        e := e + 1;
      }
    }

    /** The merge. */
    method Merge(left: seq<Row>, right: seq<Row>, ghost constant: bool, q: Qualification)
      requires Valid() && Mergeable(left, right, constant)
      modifies this
      ensures Valid() && multiset(log) == multiset(old(log)) + Relational(left, right, constant, q)
    {
      var it1, it2 := 0, 0;
      assert multiset(log) == multiset(log) + Done(left, 0, right, 0, constant, q);
      while it1 != |left| && it2 != |right|
        invariant Valid() && Apart(left, it1, right, it2)
        invariant multiset(log) == multiset(old(log)) + Done(left, it1, right, it2, constant, q)
        decreases |left| - it1 + |right| - it2
      {
        ghost var before := Done(left, it1, right, it2, constant, q);
        ghost var more;
        it1, it2, more := MergeStep(left, it1, right, it2, constant, q);
        Regroup(multiset(old(log)), before, more);
      }
      Finish(left, it1, right, it2, constant, q);
    }

    /** What is left when one side is used up. */
    method Finish(left: seq<Row>, it1: nat, right: seq<Row>, it2: nat, ghost constant: bool, q: Qualification)
      requires Valid() && Mergeable(left, right, constant) && Apart(left, it1, right, it2) && (it1 == |left| || it2 == |right|)
      modifies this
      ensures Valid()
      ensures forall base :: multiset(old(log)) == base + Done(left, it1, right, it2, constant, q) ==>
                multiset(log) == base + Relational(left, right, constant, q)
    {
      DoneAll(left, it1, right, it2, constant, q);
      RecordBoth(OuterLeft(q), left[it1..], OuterRight(q), right[it2..]);
      forall base | multiset(old(log)) == base + Done(left, it1, right, it2, constant, q)
        ensures multiset(log) == base + Relational(left, right, constant, q)
      {
        Regroup(base, Done(left, it1, right, it2, constant, q),
                If(OuterLeft(q), SumOver(left[it1..], ALONE_LEFT)) + If(OuterRight(q), SumOver(right[it2..], ALONE_RIGHT)));
      }
    }

    /** Unmatched rows, of the sides that are outer. */
    method RecordBoth(outerLeft: bool, left: seq<Row>, outerRight: bool, right: seq<Row>)
      requires Valid()
      modifies this
      ensures Valid()
      ensures multiset(log) == multiset(old(log)) + (If(outerLeft, SumOver(left, ALONE_LEFT)) + If(outerRight, SumOver(right, ALONE_RIGHT)))
    {
      if outerLeft { RecordLefts(left); }
      if outerRight { RecordRights(right); }
      Regroup(multiset(old(log)), If(outerLeft, SumOver(left, ALONE_LEFT)), If(outerRight, SumOver(right, ALONE_RIGHT)));
    }

    /** A row that matches nothing, recorded if its side is outer. */
    method RecordAlone(outer: bool, p: Pair)
      requires Valid()
      modifies this
      ensures Valid() && multiset(log) == multiset(old(log)) + If(outer, multiset{p})
    {
      if outer { RecordJoinRow(p.left, p.right); }
    }

    /** One pass of the merge loop. */
    method MergeStep(left: seq<Row>, i: nat, right: seq<Row>, j: nat, ghost constant: bool, q: Qualification)
        returns (it1: nat, it2: nat, ghost more: multiset<Pair>)
      requires Valid() && Mergeable(left, right, constant) && Apart(left, i, right, j) && i < |left| && j < |right|
      modifies this
      ensures Valid() && Apart(left, it1, right, it2) && i <= it1 && j <= it2 && i + j < it1 + it2
      ensures multiset(log) == multiset(old(log)) + more
      ensures Done(left, it1, right, it2, constant, q) == Done(left, i, right, j, constant, q) + more
    {
      it1, it2 := i, j;
      if Less(left[it1].key, right[it2].key) {
        DoneLeft(left, it1, right, it2, constant, q);
        LeftApart(left, it1, right, it2);
        more := If(OuterLeft(q), ALONE_LEFT(left[it1]));
        RecordAlone(OuterLeft(q), Pair(SideOf(left[it1]), NO_SIDE));
        it1 := it1 + 1;
      } else if Less(right[it2].key, left[it1].key) {
        DoneRight(left, it1, right, it2, constant, q);
        RightApart(left, it1, right, it2);
        more := If(OuterRight(q), ALONE_RIGHT(right[it2]));
        RecordAlone(OuterRight(q), Pair(NO_SIDE, SideOf(right[it2])));
        it2 := it2 + 1;
      } else {
        it1, it2, more := MergeGroup(left, it1, right, it2, constant, q);
      }
    }

    /** Two groups with the same key: their cross product, unless it is null. */
    method MergeGroup(left: seq<Row>, it1: nat, right: seq<Row>, it2: nat, ghost constant: bool, q: Qualification)
        returns (erng1: nat, erng2: nat, ghost more: multiset<Pair>)
      requires Valid() && Mergeable(left, right, constant) && Apart(left, it1, right, it2)
      requires it1 < |left| && it2 < |right| && left[it1].key == right[it2].key
      modifies this
      ensures Valid() && Group(left, it1, erng1) && Group(right, it2, erng2) && Apart(left, erng1, right, erng2)
      ensures multiset(log) == multiset(old(log)) + more
      ensures Done(left, erng1, right, erng2, constant, q) == Done(left, it1, right, it2, constant, q) + more
    {
      erng1 := GroupEnd(left, it1);
      erng2 := GroupEnd(right, it2);
      DoneGroup(left, it1, erng1, right, it2, erng2, constant, q);
      GroupApart(left, it1, erng1, right, it2, erng2);
      if left[it1].key != Null { GroupsMatch(left, it1, erng1, right, it2, erng2, constant); }
      more := GroupGives(left[it1..erng1], right[it2..erng2], constant, q);
      RecordGroups(left[it1..erng1], right[it2..erng2], constant, q);
    }

    method RecordGroups(lefts: seq<Row>, rights: seq<Row>, ghost constant: bool, q: Qualification)
      requires Valid() && lefts != [] && (lefts[0].key != Null ==> AllMatch(lefts, rights, constant))
      modifies this
      ensures Valid() && multiset(log) == multiset(old(log)) + GroupGives(lefts, rights, constant, q)
    {
      if lefts[0].key != Null {
        RecordGroup(lefts, rights, constant);
      } else if q != INNER {
        RecordBoth(OuterLeft(q), lefts, OuterRight(q), rights);
      }
    }

    method RecordWith(l: Row, rights: seq<Row>, ghost constant: bool)
      requires Valid() && AllMatch([l], rights, constant)
      modifies this
      ensures Valid() && multiset(log) == multiset(old(log)) + SumOver(rights, PairIf(l, constant))
    {
      for j := 0 to |rights|
        invariant Valid() && multiset(log) == multiset(old(log)) + SumOver(rights[..j], PairIf(l, constant))
      {
        RecordJoinRow(SideOf(l), SideOf(rights[j]));
        assert Match(l, rights[j], constant) by { assert l in [l] && rights[j] in rights; }
        SumOne(rights, j, PairIf(l, constant));
        Regroup(multiset(old(log)), SumOver(rights[..j], PairIf(l, constant)), PairIf(l, constant)(rights[j]));
      }
      assert rights[..|rights|] == rights;
    }
  }

  method SortRows(rows: seq<Row>) returns (sorted: seq<Row>)
    ensures KeysSorted(sorted) && multiset(sorted) == multiset(rows)
  {
    sorted := Sorting.Sort(rows, RowLeq);
    Sorting.SortSorts(rows, RowLeq);
    forall i, j | 0 <= i < j < |sorted| ensures KeyAt(sorted, i, j) {
      assert RowLeq(sorted[i], sorted[j]);
    }
  }

  lemma SameSize(s: seq<Row>, t: seq<Row>)
    requires multiset(s) == multiset(t)
    ensures |s| == |t|
  {
    assert |multiset(s)| == |multiset(t)|;
  }

  lemma NothingInner(left: seq<Row>, right: seq<Row>)
    ensures Relational(left, right, false, INNER) == multiset{}
  {
    forall l | l in left ensures FromLeft(right, false, false)(l) == multiset{} {
      SumOfNothing(right, PairIf(l, false));
    }
    SumOfNothing(left, FromLeft(right, false, false));
    SumOfNothing(right, FromRight(left, false, false));
  }

  /** An outer side keeps nothing when the constant condition is false. */
  lemma {:induction false} NoneKept(rows: seq<Row>)
    ensures Kept(rows, true, false, true) == []
  {
    if rows != [] { NoneKept(rows[..|rows| - 1]); }
  }

  lemma SidesMerge(left: seq<Row>, left': seq<Row>, right: seq<Row>, right': seq<Row>, constant: bool, q: Qualification)
    requires multiset(left') == multiset(Kept(left, OuterLeft(q), constant, true)) && KeysSorted(left')
    requires multiset(right') == multiset(Kept(right, OuterRight(q), constant, true)) && KeysSorted(right')
    requires constant || q != INNER
    ensures Mergeable(left', right', constant)
  {
    KeptHas(left, OuterLeft(q), constant, true);
    KeptHas(right, OuterRight(q), constant, true);
    SameRows(left', Kept(left, OuterLeft(q), constant, true));
    SameRows(right', Kept(right, OuterRight(q), constant, true));
    SameSize(left', Kept(left, OuterLeft(q), constant, true));
    SameSize(right', Kept(right, OuterRight(q), constant, true));
    NoneKept(left);
    NoneKept(right);
  }

  ghost predicate AllMatch(lefts: seq<Row>, rights: seq<Row>, constant: bool) {
    forall l, r :: l in lefts && r in rights ==> Match(l, r, constant)
  }

  ghost function WithGroup(rights: seq<Row>, constant: bool): Row -> multiset<Pair> {
    l => SumOver(rights, PairIf(l, constant))
  }

  const ALONE_LEFT: Row -> multiset<Pair> := l => multiset{Pair(SideOf(l), NO_SIDE)}

  const ALONE_RIGHT: Row -> multiset<Pair> := r => multiset{Pair(NO_SIDE, SideOf(r))}
}
