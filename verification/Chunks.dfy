/** Chunks of a range: how parallelMapChunked's workers claim them
    (base/parallel.cc, 18-177), how the equal-work version cuts them, and that
    reducing chunk by chunk is reducing in order (base/map_reduce.h, 55-189). */
module Chunks {
  import opened Arithmetic
  import opened OrderedReduce

  type Chunk = (nat, nat)

  /** Consecutive non-empty chunks of at most `size`, from `lo` to `hi`. */
  ghost predicate Tiles(chunks: seq<Chunk>, lo: nat, hi: nat, size: nat) {
    if chunks == [] then lo == hi
    else
      var last := chunks[|chunks| - 1];
      last.1 == hi && last.0 < hi && hi - last.0 <= size && Tiles(chunks[..|chunks| - 1], lo, last.0, size)
  }

  lemma TilesSnoc(chunks: seq<Chunk>, lo: nat, mid: nat, hi: nat, size: nat)
    requires Tiles(chunks, lo, mid, size) && mid < hi && hi - mid <= size
    ensures Tiles(chunks + [(mid, hi)], lo, hi, size)
  {
    assert (chunks + [(mid, hi)])[..|chunks|] == chunks;
  }

  lemma {:induction false} TilesInside(chunks: seq<Chunk>, lo: nat, hi: nat, size: nat)
    requires Tiles(chunks, lo, hi, size)
    ensures lo <= hi && forall k :: 0 <= k < |chunks| ==> lo <= chunks[k].0 < chunks[k].1 <= hi
  {
    if chunks != [] { TilesInside(chunks[..|chunks| - 1], lo, chunks[|chunks| - 1].0, size); }
  }

  predicate Covers(c: Chunk, i: nat) {
    c.0 <= i < c.1
  }

  /** Every index is in one of the chunks, and in no other. */
  lemma {:induction false} TilesPartition(chunks: seq<Chunk>, lo: nat, hi: nat, size: nat, i: nat) returns (k: nat)
    requires Tiles(chunks, lo, hi, size) && lo <= i < hi
    ensures k < |chunks| && Covers(chunks[k], i)
    ensures forall j :: 0 <= j < |chunks| && Covers(chunks[j], i) ==> j == k
  {
    var n := |chunks| - 1;
    TilesInside(chunks[..n], lo, chunks[n].0, size);
    if chunks[n].0 <= i {
      k := n;
      forall j | 0 <= j < n ensures !Covers(chunks[j], i) { assert chunks[j] == chunks[..n][j]; }
    } else {
      k := TilesPartition(chunks[..n], lo, chunks[n].0, size, i);
      forall j | 0 <= j < n && Covers(chunks[j], i) ensures j == k { assert chunks[..n][j] == chunks[j]; }
    }
  }

  // ------------------------------------------------- claims of the workers

  datatype Kind = PLAIN | HALTABLE   // parallelMap and parallelMapChunked, or parallelMapHaltable

  datatype Mapper = Start | Free | Busy(lo: nat, hi: nat) | Gone

  datatype Claims = Claims(mappers: seq<Mapper>, index: nat, exceptions: nat, stop: bool, started: seq<Chunk>)

  datatype Move = Look(w: nat) | Take(w: nat) | Finish(w: nat) | Halt(w: nat) | Throw(w: nat)

  function Step(s: Claims, m: Move, kind: Kind, last: nat, size: nat): Claims {
    if m.w >= |s.mappers| then s else
    var me := s.mappers[m.w];
    match m
    case Look(w) =>
      if !me.Start? then s else s.(mappers := s.mappers[w := if s.exceptions == 0 && !s.stop then Free else Gone])
    case Take(w) =>
      if !me.Free? then s
      else if s.index >= last then s.(mappers := s.mappers[w := Gone], index := s.index + size)
      else
        var end := Min(last, s.index + size);
        s.(mappers := s.mappers[w := Busy(s.index, end)], index := s.index + size, started := s.started + [(s.index, end)])
    case Finish(w) => if !me.Busy? then s else s.(mappers := s.mappers[w := Start])
    case Halt(w) => if !me.Busy? || kind != HALTABLE then s else s.(mappers := s.mappers[w := Gone], stop := true)
    case Throw(w) =>
      if !me.Busy? then s
      else s.(mappers := s.mappers[w := if kind == HALTABLE then Gone else Start], exceptions := s.exceptions + 1)
  }

  function Steps(s: Claims, run: seq<Move>, kind: Kind, last: nat, size: nat): Claims {
    if run == [] then s else Step(Steps(s, run[..|run| - 1], kind, last, size), run[|run| - 1], kind, last, size)
  }

  function Fresh(n: nat, first: nat): Claims {
    Claims(seq(n, i => Start), first, 0, false, [])
  }

  ghost predicate ClaimInv(s: Claims, first: nat, last: nat, size: nat) {
    && Tiles(s.started, first, Min(s.index, last), size) && first <= s.index
    && forall w :: 0 <= w < |s.mappers| && s.mappers[w].Gone? ==> s.exceptions > 0 || s.stop || s.index >= last
  }

  lemma {:induction false} ClaimsInv(n: nat, first: nat, last: nat, size: nat, kind: Kind, run: seq<Move>)
    requires first <= last && size > 0
    ensures ClaimInv(Steps(Fresh(n, first), run, kind, last, size), first, last, size)
  {
    if run != [] {
      ClaimsInv(n, first, last, size, kind, run[..|run| - 1]);
      ClaimStep(Steps(Fresh(n, first), run[..|run| - 1], kind, last, size), run[|run| - 1], first, last, size, kind);
    }
  }

  lemma ClaimStep(s: Claims, m: Move, first: nat, last: nat, size: nat, kind: Kind)
    requires ClaimInv(s, first, last, size) && size > 0
    ensures ClaimInv(Step(s, m, kind, last, size), first, last, size)
  {
    if s.index < last { TilesSnoc(s.started, first, s.index, Min(last, s.index + size), size); }
  }

  /** There is at least the caller's own worker, and all have returned. */
  ghost predicate AllGone(s: Claims) {
    |s.mappers| > 0 && forall w :: 0 <= w < |s.mappers| ==> s.mappers[w].Gone?
  }

  /** In every run the work begun is the chunks from `first` on, one after the
      other with no gap and no overlap; and once all workers have returned with
      neither exception nor halt it reaches `last`. */
  lemma ClaimsTile(n: nat, first: nat, last: nat, size: nat, kind: Kind, run: seq<Move>)
    requires first <= last && size > 0
    ensures var s := Steps(Fresh(n, first), run, kind, last, size);
            && Tiles(s.started, first, Min(s.index, last), size)
            && (AllGone(s) && s.exceptions == 0 && !s.stop ==> Tiles(s.started, first, last, size))
  {
    ClaimsInv(n, first, last, size, kind, run);
    var s := Steps(Fresh(n, first), run, kind, last, size);
    assert AllGone(s) ==> s.mappers[0].Gone?;
  }

  function Rank(m: Mapper): nat {
    match m
    case Gone => 0
    case Free => 1
    case Start => 2
    case Busy(_, _) => 3
  }

  function Ranks(mappers: seq<Mapper>): nat {
    if mappers == [] then 0 else Ranks(mappers[..|mappers| - 1]) + Rank(mappers[|mappers| - 1])
  }

  lemma {:induction false} RanksSet(mappers: seq<Mapper>, w: nat, to: Mapper)
    requires w < |mappers|
    ensures Ranks(mappers[w := to]) + Rank(mappers[w]) == Ranks(mappers) + Rank(to)
  {
    var n := |mappers| - 1;
    if w < n {
      RanksSet(mappers[..n], w, to);
      assert mappers[w := to][..n] == mappers[..n][w := to];
    } else {
      assert mappers[w := to][..n] == mappers[..n];
    }
  }

  function ToGo(s: Claims, last: nat): nat {
    Ranks(s.mappers) + 3 * (if s.index < last then last - s.index else 0)
  }

  /** What a worker does next if nothing throws or halts. */
  function Onward(w: nat, at: Mapper): Move {
    match at
    case Start => Look(w)
    case Free => Take(w)
    case _ => Finish(w)
  }

  lemma OnwardGoes(s: Claims, w: nat, kind: Kind, last: nat, size: nat)
    requires w < |s.mappers| && !s.mappers[w].Gone? && size > 0
    ensures var t := Step(s, Onward(w, s.mappers[w]), kind, last, size);
      |t.mappers| == |s.mappers| && t.exceptions == s.exceptions && t.stop == s.stop && ToGo(t, last) < ToGo(s, last)
  {
    RanksSet(s.mappers, w, Step(s, Onward(w, s.mappers[w]), kind, last, size).mappers[w]);
  }

  lemma StepsOn(s: Claims, m: Move, more: seq<Move>, kind: Kind, last: nat, size: nat)
    ensures Steps(s, [m] + more, kind, last, size) == Steps(Step(s, m, kind, last, size), more, kind, last, size)
    decreases |more|
  {
    if more == [] {
      assert [m] + more == [m] && [m][..0] == [];
    } else {
      var n := |more| - 1;
      assert ([m] + more)[..n + 1] == [m] + more[..n];
      StepsOn(s, m, more[..n], kind, last, size);
    }
  }

  /** From any state the workers can go on until all have returned. */
  lemma {:induction false} CanFinish(s: Claims, kind: Kind, last: nat, size: nat) returns (more: seq<Move>)
    requires size > 0
    ensures var t := Steps(s, more, kind, last, size);
      && |t.mappers| == |s.mappers| && t.exceptions == s.exceptions && t.stop == s.stop
      && forall w :: 0 <= w < |t.mappers| ==> t.mappers[w].Gone?
    decreases ToGo(s, last)
  {
    if w :| 0 <= w < |s.mappers| && !s.mappers[w].Gone? {
      var m := Onward(w, s.mappers[w]);
      OnwardGoes(s, w, kind, last, size);
      more := CanFinish(Step(s, m, kind, last, size), kind, last, size);
      StepsOn(s, m, more, kind, last, size);
      more := [m] + more;
    } else {
      more := [];
    }
  }

  /** So from the start they can always go through the whole range. */
  lemma CanCover(n: nat, first: nat, last: nat, size: nat, kind: Kind) returns (run: seq<Move>)
    requires first <= last && size > 0 && n > 0
    ensures var t := Steps(Fresh(n, first), run, kind, last, size);
      |t.mappers| == n && AllGone(t) && t.exceptions == 0 && !t.stop && Tiles(t.started, first, last, size)
  {
    run := CanFinish(Fresh(n, first), kind, last, size);
    ClaimsTile(n, first, last, size, kind, run);
  }

  /** The workers that have found nothing amiss and are about to claim a chunk. */
  function AboutToTake(s: Claims): set<nat> {
    set w | 0 <= w < |s.mappers| && s.mappers[w].Free?
  }

  /** After an exception or a halt, whatever happens, no more chunks are begun than
      there were workers about to claim one. */
  lemma {:induction false} StopsTaking(s: Claims, run: seq<Move>, kind: Kind, last: nat, size: nat)
    requires s.exceptions > 0 || s.stop
    ensures var t := Steps(s, run, kind, last, size);
      (t.exceptions > 0 || t.stop) && |t.started| + |AboutToTake(t)| <= |s.started| + |AboutToTake(s)|
  {
    if run != [] {
      StopsTaking(s, run[..|run| - 1], kind, last, size);
      StopsStep(Steps(s, run[..|run| - 1], kind, last, size), run[|run| - 1], kind, last, size);
    }
  }

  /** So if a worker throws on its chunk, or halts where it may. */
  lemma ThrowStops(s: Claims, w: nat, halts: bool, run: seq<Move>, kind: Kind, last: nat, size: nat)
    requires w < |s.mappers| && s.mappers[w].Busy? && (halts ==> kind == HALTABLE)
    ensures var t := Steps(Step(s, if halts then Halt(w) else Throw(w), kind, last, size), run, kind, last, size);
      |t.started| + |AboutToTake(t)| <= |s.started| + |AboutToTake(s)|
  {
    var m := if halts then Halt(w) else Throw(w);
    var s1 := Step(s, m, kind, last, size);
    StopsTaking(s1, run, kind, last, size);
    assert AboutToTake(s1) == AboutToTake(s);
  }

  lemma StopsStep(s: Claims, m: Move, kind: Kind, last: nat, size: nat)
    requires s.exceptions > 0 || s.stop
    ensures var t := Step(s, m, kind, last, size);
      (t.exceptions > 0 || t.stop) && |t.started| + |AboutToTake(t)| <= |s.started| + |AboutToTake(s)|
  {
    var t := Step(s, m, kind, last, size);
    if m.w < |s.mappers| {
      assert AboutToTake(s) - {m.w} == AboutToTake(t) - {m.w};
      ChangedAt(AboutToTake(s), AboutToTake(t), m.w);
    }
  }

  // --------------------------------------------------------- equal-work chunks

  /** The work of the elements from `lo` to `hi`. */
  function Work(work: seq<nat>, lo: nat, hi: nat): nat
    requires lo <= hi <= |work|
  {
    if lo == hi then 0 else Work(work, lo, hi - 1) + work[hi - 1]
  }

  lemma {:induction false} WorkSplits(work: seq<nat>, lo: nat, mid: nat, hi: nat)
    requires lo <= mid <= hi <= |work|
    ensures Work(work, lo, hi) == Work(work, lo, mid) + Work(work, mid, hi)
    decreases hi
  {
    if mid < hi { WorkSplits(work, lo, mid, hi - 1); }
  }

  /** A chunk is over the budget only if it is a single element, and a chunk and
      the element after it are over the budget. */
  ghost predicate Greedy(work: seq<nat>, chunks: seq<Chunk>, budget: nat, k: nat)
    requires k < |chunks|
  {
    && chunks[k].0 < chunks[k].1 <= |work|
    && (Work(work, chunks[k].0, chunks[k].1) > budget ==> chunks[k].1 == chunks[k].0 + 1)
    && (chunks[k].1 < |work| ==> Work(work, chunks[k].0, chunks[k].1) + work[chunks[k].1] > budget)
  }

  datatype Cut = Nothing | NoWork | Cut(chunks: seq<Chunk>)

  /** parallelMapInOrderReduceInEqualWorkChunks, up to its chunks: nothing to do,
      the exception of no work, or the chunks. */
  method EqualWorkChunks(work: seq<nat>, targetNumChunks: nat) returns (r: Cut)
    requires targetNumChunks > 0
    ensures r == Nothing <==> |work| == 0
    ensures r == NoWork <==> |work| > 0 && Work(work, 0, |work|) == 0
    ensures r.Cut? ==> Tiles(r.chunks, 0, |work|, |work|) && |r.chunks| <= 2 * targetNumChunks - 1
    ensures r.Cut? ==> forall k :: 0 <= k < |r.chunks| ==> Greedy(work, r.chunks, Work(work, 0, |work|) / targetNumChunks, k)
  {
    var n := |work|;
    if n == 0 { return Nothing; }
    var totalWork := 0;
    for it := 0 to n
      invariant totalWork == Work(work, 0, it)
    {
      totalWork := totalWork + work[it];
    }
    if totalWork == 0 { return NoWork; }
    var workPerChunk := totalWork / targetNumChunks;
    var chunks: seq<Chunk> := [];
    var lastEnd := 0;
    while lastEnd < n
      invariant lastEnd <= n && Tiles(chunks, 0, lastEnd, n)
      invariant forall k :: 0 <= k < |chunks| ==> Greedy(work, chunks, workPerChunk, k)
      decreases n - lastEnd
    {
      var curr := NextChunk(work, lastEnd, workPerChunk);
      TilesSnoc(chunks, 0, lastEnd, curr, n);
      GreedySnoc(work, chunks, (lastEnd, curr), workPerChunk);
      chunks := chunks + [(lastEnd, curr)];
      lastEnd := curr;
    }
    FewChunks(work, chunks, targetNumChunks);
    return Cut(chunks);
  }

  /** At least one element, and as many more as the budget allows. */
  method NextChunk(work: seq<nat>, from: nat, budget: nat) returns (curr: nat)
    requires from < |work|
    ensures Greedy(work, [(from, curr)], budget, 0)
  {
    var workInChunk := work[from];
    curr := from + 1;
    while curr < |work|
      invariant from < curr <= |work| && workInChunk == Work(work, from, curr)
      invariant workInChunk > budget ==> curr == from + 1
    {
      if workInChunk + work[curr] > budget { break; }
      workInChunk := workInChunk + work[curr];
      curr := curr + 1;
    }
  }

  lemma GreedySnoc(work: seq<nat>, chunks: seq<Chunk>, c: Chunk, budget: nat)
    requires forall k :: 0 <= k < |chunks| ==> Greedy(work, chunks, budget, k)
    requires Greedy(work, [c], budget, 0)
    ensures forall k :: 0 <= k < |chunks| + 1 ==> Greedy(work, chunks + [c], budget, k)
  {
    forall k | 0 <= k < |chunks| + 1 ensures Greedy(work, chunks + [c], budget, k) {
      if k < |chunks| { assert Greedy(work, chunks, budget, k); }
    }
  }

  /** Two chunks next to each other are over the budget, so the first `n` chunks
      hold the work of n / 2 such pairs, or more. */
  lemma {:induction false} PairsOfChunks(work: seq<nat>, chunks: seq<Chunk>, budget: nat, n: nat, hi: nat)
    requires n <= |chunks| && Tiles(chunks[..n], 0, hi, |work|) && hi <= |work|
    requires forall k :: 0 <= k < |chunks| ==> Greedy(work, chunks, budget, k)
    ensures Work(work, 0, hi) >= (n / 2) * (budget + 1)
    decreases n
  {
    if n >= 2 {
      var a, b := chunks[n - 2], chunks[n - 1];
      assert chunks[..n][..n - 1] == chunks[..n - 1] && chunks[..n - 1][..n - 2] == chunks[..n - 2];
      TilesInside(chunks[..n - 2], 0, a.0, |work|);
      PairsOfChunks(work, chunks, budget, n - 2, a.0);
      assert Greedy(work, chunks, budget, n - 2);
      WorkSplits(work, 0, a.0, hi);
      WorkSplits(work, a.0, a.1, hi);
      WorkSplits(work, b.0, b.0 + 1, hi);
      assert Work(work, b.0, b.0 + 1) == work[b.0];
      Halves(n, budget);
    }
  }

  lemma Halves(n: nat, budget: nat)
    requires n >= 2
    ensures (n / 2) * (budget + 1) == ((n - 2) / 2) * (budget + 1) + (budget + 1)
  {
    assert n / 2 == (n - 2) / 2 + 1;
  }

  lemma FewChunks(work: seq<nat>, chunks: seq<Chunk>, target: nat)
    requires target > 0 && Tiles(chunks, 0, |work|, |work|)
    requires forall k :: 0 <= k < |chunks| ==> Greedy(work, chunks, Work(work, 0, |work|) / target, k)
    ensures |chunks| <= 2 * target - 1
  {
    var total, budget := Work(work, 0, |work|), Work(work, 0, |work|) / target;
    assert chunks[..|chunks|] == chunks;
    PairsOfChunks(work, chunks, budget, |chunks|, |work|);
    BelowNext(total, target);
    HalfBelow(total, |chunks|, target, budget);
  }

  lemma HalfBelow(total: nat, n: nat, target: nat, budget: nat)
    requires total < target * (budget + 1) && (n / 2) * (budget + 1) <= total
    ensures n <= 2 * target - 1
  {
    if n / 2 >= target { MulMono(target, n / 2, budget + 1); }
  }

  lemma BelowNext(total: nat, target: nat)
    requires target > 0
    ensures total < target * (total / target + 1)
  {
    var q := total / target;
    assert total == q * target + total % target && target * (q + 1) == q * target + target;
  }

  // ------------------------------------------------------ reducing by chunks

  /** What mapChunk gives for chunk `i`: the map results of its elements. */
  ghost function Mapped(chunks: seq<Chunk>, f: nat -> int): nat -> seq<int> {
    (i: nat) => if i < |chunks| then Results(chunks[i].0, chunks[i].1, f) else []
  }

  ghost function Results(lo: nat, hi: nat, f: nat -> int): seq<int> {
    if lo <= hi then seq(hi - lo, j requires 0 <= j => f(lo + j)) else []
  }

  /** What reduceChunk makes of a call for chunk `i`: one call for each element. */
  ghost function Expand(from: nat, mapped: seq<int>): seq<(nat, int)> {
    if mapped == [] then [] else Expand(from, mapped[..|mapped| - 1]) + [(from + |mapped| - 1, mapped[|mapped| - 1])]
  }

  ghost function ExpandAll(chunks: seq<Chunk>, calls: seq<(nat, seq<int>)>): seq<(nat, int)> {
    if calls == [] then []
    else
      var (i, mapped) := calls[|calls| - 1];
      ExpandAll(chunks, calls[..|calls| - 1]) + Expand(if i < |chunks| then chunks[i].0 else 0, mapped)
  }

  lemma {:induction false} ExpandContinues(lo: nat, mid: nat, hi: nat, f: nat -> int)
    requires lo <= mid <= hi
    ensures InOrder(lo, mid, f) + Expand(mid, Results(mid, hi, f)) == InOrder(lo, hi, f)
    decreases hi
  {
    var s := Results(mid, hi, f);
    if mid < hi {
      ExpandContinues(lo, mid, hi - 1, f);
      assert s[..|s| - 1] == Results(mid, hi - 1, f);
    } else {
      assert s == [];
    }
  }

  /** Chunks in order are their elements in order. */
  lemma {:induction false} ChunksInOrder(chunks: seq<Chunk>, lo: nat, mid: nat, size: nat, k: nat, f: nat -> int)
    requires k <= |chunks| && Tiles(chunks[..k], lo, mid, size)
    ensures ExpandAll(chunks, InOrder(0, k, Mapped(chunks, f))) == InOrder(lo, mid, f)
    decreases k
  {
    if k > 0 {
      var c := chunks[k - 1];
      assert chunks[..k][..k - 1] == chunks[..k - 1];
      TilesInside(chunks[..k], lo, mid, size);
      ChunksInOrder(chunks, lo, c.0, size, k - 1, f);
      ExpandLast(chunks, k, f);
      ExpandContinues(lo, c.0, mid, f);
    }
  }

  lemma ExpandLast(chunks: seq<Chunk>, k: nat, f: nat -> int)
    requires 0 < k <= |chunks|
    ensures var c, m := chunks[k - 1], Mapped(chunks, f);
            ExpandAll(chunks, InOrder(0, k, m)) == ExpandAll(chunks, InOrder(0, k - 1, m)) + Expand(c.0, Results(c.0, c.1, f))
  {
    var m := Mapped(chunks, f);
    InOrderSize(0, k - 1, m);
    assert InOrder(0, k, m)[..k - 1] == InOrder(0, k - 1, m);
  }

  lemma {:induction false} InOrderSize<R>(lo: nat, hi: nat, f: nat -> R)
    requires lo <= hi
    ensures |InOrder(lo, hi, f)| == hi - lo
    decreases hi
  {
    if lo < hi { InOrderSize(lo, hi - 1, f); }
  }

  /** All workers have returned and nothing threw. */
  ghost predicate Finished(n: nat, chunks: seq<Chunk>, run: seq<Action>, f: nat -> int) {
    var t := Exec(Init(n, 0), run, |chunks|, Mapped(chunks, f));
    t.exceptions == 0 && |t.workers| == n && forall w :: 0 <= w < |t.workers| ==> t.workers[w].Returned?
  }

  /** The calls of reduce that a run has made, element by element. */
  ghost function ReducedElements(n: nat, chunks: seq<Chunk>, run: seq<Action>, f: nat -> int): seq<(nat, int)> {
    ExpandAll(chunks, Reduced(Exec(Init(n, 0), run, |chunks|, Mapped(chunks, f)).log))
  }

  /** parallelMapInOrderReducePreChunked: whatever the interleaving, when all
      workers have returned and nothing threw, reduce has been called for every
      element from `lo` to `hi`, in order. */
  lemma PreChunked(n: nat, chunks: seq<Chunk>, lo: nat, hi: nat, size: nat, run: seq<Action>, f: nat -> int)
    requires n > 0 && Tiles(chunks, lo, hi, size) && Finished(n, chunks, run, f)
    ensures ReducedElements(n, chunks, run, f) == InOrder(lo, hi, f)
  {
    Complete(n, 0, |chunks|, run, Mapped(chunks, f));
    assert chunks[..|chunks|] == chunks;
    ChunksInOrder(chunks, lo, hi, size, |chunks|, f);
  }

  // ---------------------------------------- exceptions, element by element

  /** A call of reduceChunk that throws does so on one of its elements: `at` says
      on which, by the call's place in the log. */
  ghost predicate ThrowsAt(log: seq<Call<seq<int>>>, at: nat -> nat) {
    forall p :: 0 <= p < |log| && !log[p].ok ==> at(p) < |log[p].value|
  }

  /** The element calls that returned: all of a chunk's, or those before the one
      that threw. */
  ghost function ElementCalls(chunks: seq<Chunk>, log: seq<Call<seq<int>>>, at: nat -> nat): seq<(nat, int)>
    requires ThrowsAt(log, at)
  {
    if log == [] then [] else
    var p := |log| - 1;
    var c := log[p];
    ElementCalls(chunks, log[..p], at) + Expand(if c.i < |chunks| then chunks[c.i].0 else 0, if c.ok then c.value else c.value[..at(p)])
  }

  /** How many calls for chunk `k` threw on an element after its `j`-th. */
  ghost function ThrewBeyond(log: seq<Call<seq<int>>>, at: nat -> nat, k: nat, j: nat): nat {
    if log == [] then 0
    else
      var p := |log| - 1;
      ThrewBeyond(log[..p], at, k, j) + if !log[p].ok && log[p].i == k && at(p) > j then 1 else 0
  }

  lemma {:induction false} OccursAppend(a: seq<(nat, int)>, b: seq<(nat, int)>, e: nat)
    ensures Occurs(a + b, e) == Occurs(a, e) + Occurs(b, e)
    decreases |b|
  {
    if b == [] {
      assert a + b == a;
    } else {
      var n := |b| - 1;
      assert (a + b)[..|a + b| - 1] == a + b[..n];
      OccursAppend(a, b[..n], e);
    }
  }

  lemma {:induction false} OccursExpanded(from: nat, mapped: seq<int>, e: nat)
    ensures Occurs(Expand(from, mapped), e) == if from <= e < from + |mapped| then 1 else 0
    decreases |mapped|
  {
    if mapped != [] {
      var n := |mapped| - 1;
      var front := Expand(from, mapped[..n]);
      OccursExpanded(from, mapped[..n], e);
      assert (front + [(from + n, mapped[n])])[..|front|] == front;
    }
  }

  lemma {:induction false} ElementCounts(chunks: seq<Chunk>, log: seq<Call<seq<int>>>, at: nat -> nat, f: nat -> int, k: nat, e: nat)
    requires ThrowsAt(log, at) && Values(log, |chunks|, Mapped(chunks, f)) && k < |chunks| && Covers(chunks[k], e)
    requires forall m :: 0 <= m < |chunks| ==> chunks[m].0 < chunks[m].1
    requires forall m :: 0 <= m < |chunks| && Covers(chunks[m], e) ==> m == k
    ensures Occurs(ElementCalls(chunks, log, at), e) == Returns(log, k) + ThrewBeyond(log, at, k, e - chunks[k].0)
    decreases |log|
  {
    if log != [] {
      var p := |log| - 1;
      var c := log[p];
      ElementCounts(chunks, log[..p], at, f, k, e);
      var value := if c.ok then c.value else c.value[..at(p)];
      OccursAppend(ElementCalls(chunks, log[..p], at), Expand(chunks[c.i].0, value), e);
      OccursExpanded(chunks[c.i].0, value, e);
      assert c.value == Results(chunks[c.i].0, chunks[c.i].1, f);
      assert chunks[c.i].0 <= e < chunks[c.i].1 ==> Covers(chunks[c.i], e);
    }
  }

  /** With exceptions, over every run: the calls of reduce for an element that
      returned are one for its chunk's success, if that has come, and one for each
      call of its chunk that threw on a later element.  So an element is reduced
      again exactly if its chunk threw beyond it and was tried again as far. */
  lemma ElementsRepeat(n: nat, chunks: seq<Chunk>, lo: nat, hi: nat, size: nat, run: seq<Action>, f: nat -> int, at: nat -> nat, e: nat)
      returns (k: nat)
    requires Tiles(chunks, lo, hi, size) && lo <= e < hi
    requires ThrowsAt(Exec(Init(n, 0), run, |chunks|, Mapped(chunks, f)).log, at)
    ensures k < |chunks| && Covers(chunks[k], e)
    ensures var t := Exec(Init(n, 0), run, |chunks|, Mapped(chunks, f));
      Occurs(ElementCalls(chunks, t.log, at), e) == (if k < t.next then 1 else 0) + ThrewBeyond(t.log, at, k, e - chunks[k].0)
  {
    k := TilesPartition(chunks, lo, hi, size, e);
    TilesInside(chunks, lo, hi, size);
    RunValues(n, 0, |chunks|, run, Mapped(chunks, f));
    ReturnsOnce(n, 0, |chunks|, run, Mapped(chunks, f), k);
    ElementCounts(chunks, Exec(Init(n, 0), run, |chunks|, Mapped(chunks, f)).log, at, f, k, e);
  }

  /** And it happens: of the chunks 0 to 2 and 2 to 3, the first throws on its
      second element, and element 0, whose reduce had returned, is reduced again. */
  lemma ElementReducedTwice(f: nat -> int)
    ensures var chunks, at := [(0, 2), (2, 3)], (p: nat) => 1;
      var log := Exec(Init(2, 0), CLAIMS + [MapDone(0), MapDone(1)] + [Deliver(0, true, 0), Deliver(1, false, 0)], 2, Mapped(chunks, f)).log;
      ThrowsAt(log, at) && ElementCalls(chunks, log, at) == [(0, f(0)), (0, f(0)), (1, f(1)), (2, f(2))]
  {
    var chunks: seq<Chunk> := [(0, 2), (2, 3)];
    var m := Mapped(chunks, f);
    ReducedTwice(m);
    assert m(0) == [f(0), f(1)] && m(1) == [f(2)];
    ThreeCalls(chunks, [Call(0, m(0), false), Call(0, m(0), true), Call(1, m(1), true)], (p: nat) => 1, f(0), f(1), f(2));
  }

  lemma ThreeCalls(chunks: seq<Chunk>, log: seq<Call<seq<int>>>, at: nat -> nat, x: int, y: int, z: int)
    requires chunks == [(0, 2), (2, 3)] && at(0) == 1
    requires log == [Call(0, [x, y], false), Call(0, [x, y], true), Call(1, [z], true)]
    ensures ThrowsAt(log, at) && ElementCalls(chunks, log, at) == [(0, x), (0, x), (1, y), (2, z)]
  {
    OneMoreCall(chunks, [], log[0], at);
    OneMoreCall(chunks, [] + [log[0]], log[1], at);
    OneMoreCall(chunks, [] + [log[0]] + [log[1]], log[2], at);
    assert [] + [log[0]] + [log[1]] + [log[2]] == log;
    assert [x, y][..1] == [x];
    ExpandOne(0, x);
    ExpandTwo(0, x, y);
    ExpandOne(2, z);
  }

  lemma ExpandOne(from: nat, x: int)
    ensures Expand(from, [x]) == [(from, x)]
  {
    assert [x][..0] == [];
  }

  lemma ExpandTwo(from: nat, x: int, y: int)
    ensures Expand(from, [x, y]) == [(from, x), (from + 1, y)]
  {
    assert [x, y][..1] == [x];
    ExpandOne(from, x);
  }

  lemma OneMoreCall(chunks: seq<Chunk>, log: seq<Call<seq<int>>>, c: Call<seq<int>>, at: nat -> nat)
    requires ThrowsAt(log, at) && c.i < |chunks| && (!c.ok ==> at(|log|) < |c.value|)
    ensures ThrowsAt(log + [c], at)
    ensures ElementCalls(chunks, log + [c], at) == ElementCalls(chunks, log, at) + Expand(chunks[c.i].0, if c.ok then c.value else c.value[..at(|log|)])
  {
    assert (log + [c])[..|log|] == log;
  }

  /** parallelMapInOrderReduceInEqualWorkChunks, as a whole: if there is any work,
      then for the chunks it cuts, in every interleaving of the workers that ends
      without an exception, reduce is called once for every element, in order. */
  method EqualWorkReduces(work: seq<nat>, targetNumChunks: nat, n: nat, f: nat -> int) returns (r: Cut)
    requires targetNumChunks > 0 && n > 0
    ensures r.Cut? <==> Work(work, 0, |work|) > 0
    ensures r.Cut? ==> forall run :: Finished(n, r.chunks, run, f) ==> ReducedElements(n, r.chunks, run, f) == InOrder(0, |work|, f)
  {
    r := EqualWorkChunks(work, targetNumChunks);
    if r.Cut? {
      forall run | Finished(n, r.chunks, run, f) ensures ReducedElements(n, r.chunks, run, f) == InOrder(0, |work|, f) {
        PreChunked(n, r.chunks, 0, |work|, |work|, run, f);
      }
    }
  }

  // ------------------------------------------------------- chunks of a fixed size

  /** The chunks of parallelMapInOrderReduceChunked, which start from 0. */
  function FixedChunks(range: nat, chunkSize: nat): seq<Chunk>
    requires chunkSize > 0
  {
    seq((range + chunkSize - 1) / chunkSize, i requires 0 <= i => (i * chunkSize, Min(i * chunkSize + chunkSize, range)))
  }

  lemma {:induction false} FixedTiles(range: nat, chunkSize: nat, k: nat)
    requires chunkSize > 0 && k <= |FixedChunks(range, chunkSize)|
    ensures Tiles(FixedChunks(range, chunkSize)[..k], 0, Min(k * chunkSize, range), chunkSize)
    decreases k
  {
    var chunks := FixedChunks(range, chunkSize);
    if k > 0 {
      FixedTiles(range, chunkSize, k - 1);
      assert chunks[..k][..k - 1] == chunks[..k - 1];
      InRange(range, chunkSize, k - 1);
    } else {
      assert chunks[..k] == [];
    }
  }

  /** Chunk `i` starts inside the range. */
  lemma InRange(range: nat, c: nat, i: nat)
    requires c > 0 && i < (range + c - 1) / c
    ensures i * c < range && (i + 1) * c == i * c + c
  {
    var q := (range + c - 1) / c;
    assert range + c - 1 == q * c + (range + c - 1) % c;
    MulMono(i + 1, q, c);
  }

  lemma FixedTilesAll(range: nat, chunkSize: nat)
    requires chunkSize > 0
    ensures Tiles(FixedChunks(range, chunkSize), 0, range, chunkSize)
  {
    var chunks := FixedChunks(range, chunkSize);
    FixedTiles(range, chunkSize, |chunks|);
    assert chunks[..|chunks|] == chunks;
    CoversAll(range, chunkSize);
  }

  lemma CoversAll(range: nat, c: nat)
    requires c > 0
    ensures range <= (range + c - 1) / c * c
  {
    DivIs(range + c - 1, c);
  }

  /** All chunks are full but the last, which is not empty. */
  lemma FixedAreFull(range: nat, chunkSize: nat, i: nat)
    requires chunkSize > 0 && i < |FixedChunks(range, chunkSize)|
    ensures var c := FixedChunks(range, chunkSize)[i];
      if i + 1 < |FixedChunks(range, chunkSize)| then c.1 - c.0 == chunkSize else 0 < c.1 - c.0 <= chunkSize && c.1 == range
  {
    InRange(range, chunkSize, i);
    if i + 1 < |FixedChunks(range, chunkSize)| {
      InRange(range, chunkSize, i + 1);
    } else {
      CoversAll(range, chunkSize);
    }
  }

  /** parallelMapInOrderReduceChunked, as a whole: every run that ends without an
      exception has reduced each of the first `last - first` indices once, in
      order; those are the indices asked for just when `first` is 0 or there are
      none. */
  lemma ChunkedIsFromZero(n: nat, first: nat, last: nat, chunkSize: nat, run: seq<Action>, f: nat -> int)
    requires n > 0 && first <= last && chunkSize > 0 && Finished(n, FixedChunks(last - first, chunkSize), run, f)
    ensures var reduced := ReducedElements(n, FixedChunks(last - first, chunkSize), run, f);
            && reduced == InOrder(0, last - first, f)
            && (reduced == InOrder(first, last, f) <==> first == 0 || first == last)
  {
    FixedTilesAll(last - first, chunkSize);
    PreChunked(n, FixedChunks(last - first, chunkSize), 0, last - first, chunkSize, run, f);
    Displaced(first, last, f);
  }

  lemma Displaced(first: nat, last: nat, f: nat -> int)
    requires first <= last
    ensures InOrder(0, last - first, f) == InOrder(first, last, f) <==> first == 0 || first == last
  {
    InOrderSize(0, last - first, f);
    InOrderSize(first, last, f);
    if first > 0 && first < last {
      assert InOrder(0, last - first, f)[last - first - 1].0 == last - first - 1;
      assert InOrder(first, last, f)[last - first - 1].0 == last - 1;
    }
  }
}
