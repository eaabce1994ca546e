/** parallelMapInOrderReduce (base/map_reduce.h, 20-53) over parallelMap's workers
    (base/parallel.cc, 18-66): any number of workers, in any interleaving. What
    happens under the write queue's mutex is one step. */
module OrderedReduce {
  import opened Arithmetic

  /** A worker is about to look for an exception, has seen none, is in map for
      index `i`, has the result and waits for the mutex, or has returned. */
  datatype Worker = Looking | Going | Mapping(i: nat) | Holding(i: nat) | Returned

  /** A call of reduce; `ok` is false if it threw. */
  datatype Call<R> = Call(i: nat, value: R, ok: bool)

  datatype State<R> = State(
    workers: seq<Worker>,
    index: nat,              // claimed by fetch_add
    exceptions: nat,
    next: nat,               // the next index to reduce
    queue: map<nat, R>,    // writeQueue
    log: seq<Call<R>>,
    lost: set<nat>)          // indices whose map threw

  datatype Action =
    | Check(w: nat)
    | Claim(w: nat)
    | MapDone(w: nat)
    | MapThrows(w: nat)
    | Deliver(w: nat, throws: bool, after: nat)   // reduce throws after so many calls

  function Held(w: Worker): int {
    if w.Mapping? || w.Holding? then w.i else -1
  }

  function Min(x: nat, y: nat): nat {
    if x <= y then x else y
  }

  // ------------------------------------------------------------------ steps

  /** writeQueue.begin()->first == next */
  predicate AtFront<R>(queue: map<nat, R>, next: nat) {
    next in queue && forall k :: k in queue ==> next <= k
  }

  datatype Drained<R> = Drained(queue: map<nat, R>, next: nat, log: seq<Call<R>>, threw: bool)

  /** drainWriteQueue; an exception leaves the front of the queue where it is. */
  function Drain<R>(queue: map<nat, R>, next: nat, log: seq<Call<R>>, throws: bool, after: nat): Drained<R>
    decreases |queue|
  {
    if !AtFront(queue, next) then Drained(queue, next, log, false)
    else if throws && after == 0 then Drained(queue, next, log + [Call(next, queue[next], false)], true)
    else
      Smaller(queue, next);
      Drain(queue - {next}, next + 1, log + [Call(next, queue[next], true)], throws, if after > 0 then after - 1 else 0)
  }

  lemma Smaller<R>(queue: map<nat, R>, k: nat)
    requires k in queue
    ensures |queue - {k}| < |queue|
  {
    assert queue == (queue - {k})[k := queue[k]];
  }

  function Init<R>(n: nat, first: nat): State<R> {
    State(seq(n, i => Looking), first, 0, first, map[], [], {})
  }

  function Set<R>(s: State<R>, w: nat, to: Worker): State
    requires w < |s.workers|
  {
    s.(workers := s.workers[w := to])
  }

  function Apply<R>(s: State<R>, a: Action, last: nat, f: nat -> R): State<R> {
    if a.w >= |s.workers| then s else
    var me := s.workers[a.w];
    match a
    case Check(w) => if !me.Looking? then s else Set(s, w, if s.exceptions == 0 then Going else Returned)
    case Claim(w) =>
      if !me.Going? then s else
      Set(s, w, if s.index >= last then Returned else Mapping(s.index)).(index := s.index + 1)
    case MapDone(w) => if !me.Mapping? then s else Set(s, w, Holding(me.i))
    case MapThrows(w) =>
      if !me.Mapping? then s else
      Set(s, w, Looking).(exceptions := s.exceptions + 1, lost := s.lost + {me.i})
    case Deliver(w, throws, after) =>
      if !me.Holding? then s else
      var d := Drain(s.queue[me.i := f(me.i)], s.next, s.log, throws, after);
      Set(s, w, Looking).(queue := d.queue, next := d.next, log := d.log,
                          exceptions := s.exceptions + if d.threw then 1 else 0)
  }

  function Exec<R>(s: State<R>, run: seq<Action>, last: nat, f: nat -> R): State<R> {
    if run == [] then s else Apply(Exec(s, run[..|run| - 1], last, f), run[|run| - 1], last, f)
  }

  // -------------------------------------------------------------- invariants

  /** The calls that returned. */
  ghost function Reduced<R>(log: seq<Call<R>>): seq<(nat, R)> {
    if log == [] then []
    else Reduced(log[..|log| - 1]) + if log[|log| - 1].ok then [(log[|log| - 1].i, log[|log| - 1].value)] else []
  }

  /** Every index from `first` to `next`, in order, with its map result. */
  ghost function InOrder<R>(first: nat, next: nat, f: nat -> R): seq<(nat, R)> {
    if next <= first then [] else InOrder(first, next - 1, f) + [(next - 1, f(next - 1))]
  }

  /** Calls go upwards, and come back to an index only if it threw. */
  ghost predicate Upward<R>(log: seq<Call<R>>, next: nat) {
    && (forall p :: 0 <= p < |log| ==> log[p].i <= next && (log[p].ok ==> log[p].i < next))
    && (forall p, q :: 0 <= p < q < |log| ==> Before(log, p, q))
  }

  ghost predicate Before<R>(log: seq<Call<R>>, p: nat, q: nat)
    requires p < |log| && q < |log|
  {
    log[p].i <= log[q].i && (log[p].ok ==> log[p].i < log[q].i)
  }

  ghost predicate LogInv<R>(s: State<R>, first: nat, f: nat -> R) {
    && first <= s.next && Reduced(s.log) == InOrder(first, s.next, f) && Upward(s.log, s.next)
    && (s.exceptions == 0 ==> forall p :: 0 <= p < |s.log| ==> s.log[p].ok)
  }

  ghost predicate QueueInv<R>(s: State<R>, last: nat, f: nat -> R) {
    && (forall k :: k in s.queue ==> s.next <= k < Min(s.index, last) && s.queue[k] == f(k))
    && (s.exceptions == 0 ==> s.next !in s.queue && s.lost == {})
    && s.next <= s.index && s.next <= last
  }

  /** An index that a worker holds is its alone. */
  ghost predicate OwnInv<R>(s: State<R>, last: nat) {
    && (forall w :: 0 <= w < |s.workers| ==> Owns(s, w, last))
    && (forall w, v :: 0 <= w < v < |s.workers| ==> Apart(s, w, v))
  }

  ghost predicate Owns<R>(s: State<R>, w: nat, last: nat)
    requires w < |s.workers|
  {
    && (Held(s.workers[w]) >= 0 ==>
          var i := Held(s.workers[w]); s.next <= i < Min(s.index, last) && i !in s.queue)
    && (s.workers[w].Returned? ==> s.exceptions > 0 || s.index >= last)
  }

  ghost predicate Apart<R>(s: State<R>, w: nat, v: nat)
    requires w < |s.workers| && v < |s.workers|
  {
    Held(s.workers[w]) >= 0 ==> Held(s.workers[w]) != Held(s.workers[v])
  }

  /** No claimed index is forgotten. */
  ghost predicate Somewhere<R>(s: State<R>, i: nat) {
    i in s.queue || i in s.lost || exists w :: 0 <= w < |s.workers| && Held(s.workers[w]) == i
  }

  ghost predicate CoverInv<R>(s: State<R>, last: nat) {
    forall i :: s.next <= i < Min(s.index, last) ==> Somewhere(s, i)
  }

  ghost predicate Inv<R>(s: State<R>, first: nat, last: nat, f: nat -> R) {
    LogInv(s, first, f) && QueueInv(s, last, f) && OwnInv(s, last) && CoverInv(s, last)
  }

  // ------------------------------------------------------------------ drain

  ghost predicate AllOk<R>(log: seq<Call<R>>) {
    forall p :: 0 <= p < |log| ==> log[p].ok
  }

  /** What drain needs, and keeps. */
  ghost predicate Drainable<R>(queue: map<nat, R>, next: nat, log: seq<Call<R>>, first: nat, f: nat -> R) {
    && first <= next && (forall k :: k in queue ==> next <= k && queue[k] == f(k))
    && Reduced(log) == InOrder(first, next, f) && Upward(log, next)
  }

  lemma LogGrows<R>(log: seq<Call<R>>, next: nat, c: Call<R>)
    requires Upward(log, next) && c.i == next
    ensures Upward(log + [c], if c.ok then next + 1 else next)
    ensures Reduced(log + [c]) == Reduced(log) + if c.ok then [(c.i, c.value)] else []
  {
    var log' := log + [c];
    assert log'[..|log|] == log;
    forall p, q | 0 <= p < q < |log'| ensures Before(log', p, q) {
      if q < |log| { assert Before(log, p, q); }
    }
  }

  /** drain takes the keys from `next` up to where it stops, and no others. */
  lemma {:induction false} DrainKeeps<R>(queue: map<nat, R>, next: nat, log: seq<Call<R>>, throws: bool, after: nat, first: nat, f: nat -> R)
    requires Drainable(queue, next, log, first, f)
    ensures var d := Drain(queue, next, log, throws, after);
            && Drainable(d.queue, d.next, d.log, first, f) && next <= d.next
            && (forall k :: next <= k < d.next ==> k in queue)
            && (forall k :: k in d.queue <==> k in queue && d.next <= k)
            && (!d.threw ==> d.next !in d.queue && (AllOk(log) ==> AllOk(d.log)))
    decreases |queue|
  {
    if AtFront(queue, next) {
      if throws && after == 0 {
        LogGrows(log, next, Call(next, queue[next], false));
      } else {
        Smaller(queue, next);
        LogGrows(log, next, Call(next, queue[next], true));
        var less, after' := queue - {next}, if after > 0 then after - 1 else 0;
        DrainKeeps(less, next + 1, log + [Call(next, queue[next], true)], throws, after', first, f);
        var d := Drain(queue, next, log, throws, after);
        assert d == Drain(less, next + 1, log + [Call(next, queue[next], true)], throws, after');
        forall k | next <= k < d.next ensures k in queue { assert k > next ==> k in less; }
      }
    }
  }

  // ------------------------------------------------------------ every step

  lemma InitInv<R>(n: nat, first: nat, last: nat, f: nat -> R)
    requires first <= last
    ensures Inv(Init(n, first), first, last, f)
  {
  }

  /** A worker's step that leaves queue, log and `next` alone. */
  lemma StepInv<R>(s: State<R>, a: Action, first: nat, last: nat, f: nat -> R)
    requires Inv(s, first, last, f) && a.w < |s.workers| && !a.Deliver?
    ensures Inv(Apply(s, a, last, f), first, last, f)
  {
    StepOwns(s, a, first, last, f);
    StepCover(s, a, first, last, f);
  }

  lemma StepOwns<R>(s: State<R>, a: Action, first: nat, last: nat, f: nat -> R)
    requires Inv(s, first, last, f) && a.w < |s.workers| && !a.Deliver?
    ensures OwnInv(Apply(s, a, last, f), last)
  {
    var t := Apply(s, a, last, f);
    forall w | 0 <= w < |t.workers| ensures Owns(t, w, last) {
      assert Owns(s, w, last) && Owns(s, a.w, last);
    }
    forall w, v | 0 <= w < v < |t.workers| ensures Apart(t, w, v) {
      assert Apart(s, w, v) && Owns(s, w, last) && Owns(s, v, last);
    }
  }

  lemma StepCover<R>(s: State<R>, a: Action, first: nat, last: nat, f: nat -> R)
    requires Inv(s, first, last, f) && a.w < |s.workers| && !a.Deliver?
    ensures CoverInv(Apply(s, a, last, f), last)
  {
    var t := Apply(s, a, last, f);
    forall i | t.next <= i < Min(t.index, last) ensures Somewhere(t, i) {
      if i < Min(s.index, last) {
        assert Somewhere(s, i);
        if w :| 0 <= w < |s.workers| && Held(s.workers[w]) == i {
          assert w == a.w ==> i in t.lost || Held(t.workers[w]) == i;
          assert w != a.w ==> t.workers[w] == s.workers[w];
        }
      } else {
        assert Held(t.workers[a.w]) == i;
      }
    }
  }

  /** A delivery: into the queue, and drain. */
  lemma DeliverInv<R>(s: State<R>, w: nat, throws: bool, after: nat, first: nat, last: nat, f: nat -> R)
    requires Inv(s, first, last, f) && w < |s.workers| && s.workers[w].Holding?
    ensures Inv(Apply(s, Deliver(w, throws, after), last, f), first, last, f)
  {
    var t := Apply(s, Deliver(w, throws, after), last, f);
    var i := s.workers[w].i;
    assert Owns(s, w, last);
    DrainKeeps(s.queue[i := f(i)], s.next, s.log, throws, after, first, f);
    forall v | 0 <= v < |t.workers| ensures Owns(t, v, last) {
      assert Owns(s, v, last);
      if v < w { assert Apart(s, v, w); } else if w < v { assert Apart(s, w, v); }
      var h := Held(t.workers[v]);
      assert h >= 0 ==> (h as nat) !in s.queue[i := f(i)];
    }
    forall v, u | 0 <= v < u < |t.workers| ensures Apart(t, v, u) {
      assert Apart(s, v, u) && Owns(s, v, last) && Owns(s, u, last);
    }
    DeliverCover(s, w, throws, after, first, last, f);
  }

  lemma DeliverCover<R>(s: State<R>, w: nat, throws: bool, after: nat, first: nat, last: nat, f: nat -> R)
    requires Inv(s, first, last, f) && w < |s.workers| && s.workers[w].Holding?
    ensures CoverInv(Apply(s, Deliver(w, throws, after), last, f), last)
  {
    var t := Apply(s, Deliver(w, throws, after), last, f);
    var i := s.workers[w].i;
    assert Owns(s, w, last);
    DrainKeeps(s.queue[i := f(i)], s.next, s.log, throws, after, first, f);
    forall j | t.next <= j < Min(t.index, last) ensures Somewhere(t, j) {
      assert Somewhere(s, j);
      if v :| 0 <= v < |s.workers| && Held(s.workers[v]) == j {
        if v != w { assert t.workers[v] == s.workers[v]; }
      }
    }
  }

  lemma {:induction false} RunInv<R>(s: State<R>, run: seq<Action>, first: nat, last: nat, f: nat -> R)
    requires Inv(s, first, last, f)
    ensures Inv(Exec(s, run, last, f), first, last, f)
  {
    if run != [] {
      var front, a := run[..|run| - 1], run[|run| - 1];
      RunInv(s, front, first, last, f);
      var t := Exec(s, front, last, f);
      if a.w < |t.workers| {
        if !a.Deliver? { StepInv(t, a, first, last, f); }
        else if t.workers[a.w].Holding? { DeliverInv(t, a.w, a.throws, a.after, first, last, f); }
      }
    }
  }

  // ----------------------------------------------------------------- theorems

  /** In every run, what has been reduced is every index up to some point, in
      increasing order, once each, with its own map result. */
  lemma AlwaysInOrder<R>(n: nat, first: nat, last: nat, run: seq<Action>, f: nat -> R)
    requires first <= last
    ensures var t := Exec(Init(n, first), run, last, f); t.next <= last && Reduced(t.log) == InOrder(first, t.next, f)
  {
    InitInv(n, first, last, f);
    RunInv(Init(n, first), run, first, last, f);
  }

  /** When the workers have returned and nothing threw, everything has been
      reduced, by calls that all returned, and the queue is empty. */
  lemma Complete<R>(n: nat, first: nat, last: nat, run: seq<Action>, f: nat -> R)
    requires first <= last && n > 0
    requires var t := Exec(Init(n, first), run, last, f);
             t.exceptions == 0 && |t.workers| == n && forall w :: 0 <= w < |t.workers| ==> t.workers[w].Returned?
    ensures var t := Exec(Init(n, first), run, last, f);
            t.queue == map[] && AllOk(t.log) && Reduced(t.log) == InOrder(first, last, f)
  {
    InitInv(n, first, last, f);
    RunInv(Init(n, first), run, first, last, f);
    var t := Exec(Init(n, first), run, last, f);
    assert Owns(t, 0, last);
    assert t.next < last ==> Somewhere(t, t.next);
  }

  // --------------------------------------------------- what each call is given

  /** Every call is for an index of the range, with its own map result. */
  ghost predicate Values<R>(log: seq<Call<R>>, last: nat, f: nat -> R) {
    forall p :: 0 <= p < |log| ==> log[p].i < last && log[p].value == f(log[p].i)
  }

  lemma {:induction false} DrainValues<R>(queue: map<nat, R>, next: nat, log: seq<Call<R>>, throws: bool, after: nat, last: nat, f: nat -> R)
    requires Values(log, last, f) && forall k :: k in queue ==> k < last && queue[k] == f(k)
    ensures Values(Drain(queue, next, log, throws, after).log, last, f)
    decreases |queue|
  {
    if AtFront(queue, next) && !(throws && after == 0) {
      Smaller(queue, next);
      DrainValues(queue - {next}, next + 1, log + [Call(next, queue[next], true)], throws, if after > 0 then after - 1 else 0, last, f);
    }
  }

  lemma {:induction false} RunValues<R>(n: nat, first: nat, last: nat, run: seq<Action>, f: nat -> R)
    requires first <= last
    ensures Values(Exec(Init(n, first), run, last, f).log, last, f)
  {
    if run != [] {
      var front, a := run[..|run| - 1], run[|run| - 1];
      var t := Exec(Init(n, first), front, last, f);
      RunValues(n, first, last, front, f);
      InitInv(n, first, last, f);
      RunInv(Init(n, first), front, first, last, f);
      if a.w < |t.workers| && a.Deliver? && t.workers[a.w].Holding? {
        assert Owns(t, a.w, last);
        var i := t.workers[a.w].i;
        DrainValues(t.queue[i := f(i)], t.next, t.log, a.throws, a.after, last, f);
      }
    }
  }

  /** How many calls for index `i` have returned. */
  ghost function Returns<R>(log: seq<Call<R>>, i: nat): nat {
    if log == [] then 0
    else Returns(log[..|log| - 1], i) + if log[|log| - 1].ok && log[|log| - 1].i == i then 1 else 0
  }

  ghost function Occurs<R>(calls: seq<(nat, R)>, i: nat): nat {
    if calls == [] then 0
    else Occurs(calls[..|calls| - 1], i) + if calls[|calls| - 1].0 == i then 1 else 0
  }

  lemma {:induction false} ReturnsAreReduced<R>(log: seq<Call<R>>, i: nat)
    ensures Returns(log, i) == Occurs(Reduced(log), i)
  {
    if log != [] {
      var front, c := log[..|log| - 1], log[|log| - 1];
      ReturnsAreReduced(front, i);
      if c.ok { assert (Reduced(front) + [(c.i, c.value)])[..|Reduced(front)|] == Reduced(front); }
      else { assert Reduced(front) + [] == Reduced(front); }
    }
  }

  lemma {:induction false} OccursInOrder<R>(first: nat, next: nat, f: nat -> R, i: nat)
    ensures Occurs(InOrder(first, next, f), i) == if first <= i < next then 1 else 0
    decreases next
  {
    if first < next {
      var front := InOrder(first, next - 1, f);
      OccursInOrder(first, next - 1, f, i);
      assert (front + [(next - 1, f(next - 1))])[..|front|] == front;
    }
  }

  /** A call for an index returns once, when `next` passes it. */
  lemma ReturnsOnce<R>(n: nat, first: nat, last: nat, run: seq<Action>, f: nat -> R, i: nat)
    requires first <= last
    ensures var t := Exec(Init(n, first), run, last, f); Returns(t.log, i) == if first <= i < t.next then 1 else 0
  {
    var t := Exec(Init(n, first), run, last, f);
    AlwaysInOrder(n, first, last, run, f);
    ReturnsAreReduced(t.log, i);
    OccursInOrder(first, t.next, f, i);
  }

  // ------------------------------------------------------ getting to the end

  /** How far a worker is from having returned, its claims aside. */
  function Rank(w: Worker): nat {
    match w
    case Returned => 0
    case Going => 1
    case Looking => 2
    case Holding(_) => 3
    case Mapping(_) => 4
  }

  function Ranks(workers: seq<Worker>): nat {
    if workers == [] then 0 else Ranks(workers[..|workers| - 1]) + Rank(workers[|workers| - 1])
  }

  lemma {:induction false} RanksSet(workers: seq<Worker>, w: nat, to: Worker)
    requires w < |workers|
    ensures Ranks(workers[w := to]) + Rank(workers[w]) == Ranks(workers) + Rank(to)
  {
    var n := |workers| - 1;
    if w < n {
      RanksSet(workers[..n], w, to);
      assert workers[w := to][..n] == workers[..n][w := to];
    } else {
      assert workers[w := to][..n] == workers[..n];
    }
  }

  function ToGo<R>(s: State<R>, last: nat): nat {
    Ranks(s.workers) + 5 * (if s.index < last then last - s.index else 0)
  }

  /** What a worker does next if nothing throws. */
  function Onward(w: nat, at: Worker): Action {
    match at
    case Looking => Check(w)
    case Going => Claim(w)
    case Mapping(_) => MapDone(w)
    case _ => Deliver(w, false, 0)
  }

  lemma {:induction false} DrainNoThrow<R>(queue: map<nat, R>, next: nat, log: seq<Call<R>>, after: nat)
    ensures !Drain(queue, next, log, false, after).threw
    decreases |queue|
  {
    if AtFront(queue, next) {
      Smaller(queue, next);
      DrainNoThrow(queue - {next}, next + 1, log + [Call(next, queue[next], true)], if after > 0 then after - 1 else 0);
    }
  }

  /** And a reduce that throws on its call number `after`, counted from 0, leaves
      that index and all later ones in the queue. */
  lemma {:induction false} DrainThrows<R>(queue: map<nat, R>, next: nat, log: seq<Call<R>>, after: nat)
    requires (forall k :: k in queue ==> next <= k) && forall k :: next <= k <= next + after ==> k in queue
    ensures var d := Drain(queue, next, log, true, after);
      && d.threw && d.next == next + after && d.queue == (map k | k in queue && k >= next + after :: queue[k])
      && d.log == log + seq(after, p requires 0 <= p < after => Call(next + p, queue[next + p], true)) + [Call(next + after, queue[next + after], false)]
    decreases after
  {
    var calls := seq(after, p requires 0 <= p < after => Call(next + p, queue[next + p], true));
    assert AtFront(queue, next);
    if after > 0 {
      var log1 := log + [Call(next, queue[next], true)];
      DrainThrows(queue - {next}, next + 1, log1, after - 1);
      var later := seq(after - 1, p requires 0 <= p < after - 1 => Call(next + 1 + p, queue[next + 1 + p], true));
      assert calls == [Call(next, queue[next], true)] + later;
      assert log + calls == log1 + later;
    }
  }

  lemma OnwardGoes<R>(s: State<R>, w: nat, last: nat, f: nat -> R)
    requires w < |s.workers| && !s.workers[w].Returned? && s.exceptions == 0
    ensures var t := Apply(s, Onward(w, s.workers[w]), last, f);
      |t.workers| == |s.workers| && t.exceptions == 0 && ToGo(t, last) < ToGo(s, last)
  {
    var t := Apply(s, Onward(w, s.workers[w]), last, f);
    RanksSet(s.workers, w, t.workers[w]);
    if s.workers[w].Holding? { DrainNoThrow(s.queue[s.workers[w].i := f(s.workers[w].i)], s.next, s.log, 0); }
  }

  lemma ExecOn<R>(s: State<R>, a: Action, more: seq<Action>, last: nat, f: nat -> R)
    ensures Exec(s, [a] + more, last, f) == Exec(Apply(s, a, last, f), more, last, f)
    decreases |more|
  {
    if more == [] {
      assert [a] + more == [a] && [a][..0] == [];
    } else {
      var n := |more| - 1;
      assert ([a] + more)[..n + 1] == [a] + more[..n];
      ExecOn(s, a, more[..n], last, f);
    }
  }

  /** From any state without exceptions the workers can go on until all have
      returned: none is ever stuck, and the loop of each ends. */
  lemma {:induction false} CanFinish<R>(s: State<R>, last: nat, f: nat -> R) returns (more: seq<Action>)
    requires s.exceptions == 0
    ensures var t := Exec(s, more, last, f);
      t.exceptions == 0 && |t.workers| == |s.workers| && forall w :: 0 <= w < |t.workers| ==> t.workers[w].Returned?
    decreases ToGo(s, last)
  {
    if w :| 0 <= w < |s.workers| && !s.workers[w].Returned? {
      var a := Onward(w, s.workers[w]);
      OnwardGoes(s, w, last, f);
      more := CanFinish(Apply(s, a, last, f), last, f);
      ExecOn(s, a, more, last, f);
      more := [a] + more;
    } else {
      more := [];
    }
  }

  /** So a whole reduction can always be brought to its end, with every index
      reduced. */
  lemma CanComplete<R>(n: nat, first: nat, last: nat, f: nat -> R) returns (run: seq<Action>)
    requires first <= last && n > 0
    ensures var t := Exec(Init(n, first), run, last, f);
      && |t.workers| == n && (forall w :: 0 <= w < n ==> t.workers[w].Returned?)
      && t.exceptions == 0 && t.queue == map[] && Reduced(t.log) == InOrder(first, last, f)
  {
    run := CanFinish(Init(n, first), last, f);
    Complete(n, first, last, run, f);
  }

  // ------------------------------------------------------------- exceptions

  /** The workers that have seen no exception and are about to claim an index. */
  function AboutToClaim<R>(s: State<R>): set<nat> {
    set w | 0 <= w < |s.workers| && s.workers[w].Going?
  }

  /** After an exception, whatever happens, no more indices are claimed than there
      were workers about to claim one. */
  lemma {:induction false} StopsClaiming<R>(s: State<R>, run: seq<Action>, last: nat, f: nat -> R)
    requires s.exceptions > 0
    ensures var t := Exec(s, run, last, f);
      t.exceptions > 0 && t.index + |AboutToClaim(t)| <= s.index + |AboutToClaim(s)|
  {
    if run != [] {
      StopsClaiming(s, run[..|run| - 1], last, f);
      StopsStep(Exec(s, run[..|run| - 1], last, f), run[|run| - 1], last, f);
    }
  }

  /** So if a worker's map throws, or the reduce of what it delivers. */
  lemma ThrowStops<R>(s: State<R>, w: nat, after: nat, run: seq<Action>, last: nat, f: nat -> R)
    requires w < |s.workers|
    ensures s.workers[w].Mapping? ==>
              var t := Exec(Apply(s, MapThrows(w), last, f), run, last, f); t.index + |AboutToClaim(t)| <= s.index + |AboutToClaim(s)|
    ensures s.workers[w].Holding? && Drain(s.queue[s.workers[w].i := f(s.workers[w].i)], s.next, s.log, true, after).threw ==>
              var t := Exec(Apply(s, Deliver(w, true, after), last, f), run, last, f); t.index + |AboutToClaim(t)| <= s.index + |AboutToClaim(s)|
  {
    if s.workers[w].Mapping? {
      var s1 := Apply(s, MapThrows(w), last, f);
      StopsClaiming(s1, run, last, f);
      assert AboutToClaim(s1) == AboutToClaim(s);
    }
    if s.workers[w].Holding? && Drain(s.queue[s.workers[w].i := f(s.workers[w].i)], s.next, s.log, true, after).threw {
      var s1 := Apply(s, Deliver(w, true, after), last, f);
      StopsClaiming(s1, run, last, f);
      assert AboutToClaim(s1) == AboutToClaim(s);
    }
  }

  lemma StopsStep<R>(s: State<R>, a: Action, last: nat, f: nat -> R)
    requires s.exceptions > 0
    ensures var t := Apply(s, a, last, f); t.exceptions > 0 && t.index + |AboutToClaim(t)| <= s.index + |AboutToClaim(s)|
  {
    var t := Apply(s, a, last, f);
    if a.w < |s.workers| {
      assert AboutToClaim(s) - {a.w} == AboutToClaim(t) - {a.w};
      ChangedAt(AboutToClaim(s), AboutToClaim(t), a.w);
    }
  }

  /** A second call for the same index follows one that threw. */
  lemma AgainOnlyAfterThrow<R>(n: nat, first: nat, last: nat, run: seq<Action>, f: nat -> R, p: nat, q: nat)
    requires first <= last
    requires var t := Exec(Init(n, first), run, last, f); p < q < |t.log| && t.log[p].i == t.log[q].i
    ensures !Exec(Init(n, first), run, last, f).log[p].ok
  {
    InitInv(n, first, last, f);
    RunInv(Init(n, first), run, first, last, f);
    var t := Exec(Init(n, first), run, last, f);
    assert Before(t.log, p, q);
  }

  /** And such a call can happen: two workers hold indices 0 and 1; reduce throws
      on 0 for the first; the second, which saw no exception in time, drains the
      queue and calls reduce on 0 again. */
  lemma ReducedTwice<R>(f: nat -> R)
    ensures var run := CLAIMS + [MapDone(0), MapDone(1)] + [Deliver(0, true, 0), Deliver(1, false, 0)];
            Exec(Init(2, 0), run, 2, f).log == [Call(0, f(0), false), Call(0, f(0), true), Call(1, f(1), true)]
  {
    var held := CLAIMS + [MapDone(0), MapDone(1)];
    BothHold(f);
    ExecTwo(Init(2, 0), held, Deliver(0, true, 0), Deliver(1, false, 0), 2, f);
    var s6 := State([Holding(0), Holding(1)], 2, 0, 0, map[], [], {});
    var q: map<nat, R> := map[0 := f(0)];
    assert s6.queue[0 := f(0)] == q && AtFront(q, 0);
    assert Drain(q, 0, [], true, 0) == Drained(q, 0, [] + [Call(0, f(0), false)], true);
    var s7 := State([Looking, Holding(1)], 2, 1, 0, q, [Call(0, f(0), false)], {});
    assert Apply(s6, Deliver(0, true, 0), 2, f) == s7;
    DrainTwo(f, [Call(0, f(0), false)]);
    assert Apply(s7, Deliver(1, false, 0), 2, f).log == [Call(0, f(0), false)] + [Call(0, f(0), true), Call(1, f(1), true)];
  }

  const CLAIMS := [Check(0), Check(1)] + [Claim(0), Claim(1)]

  lemma ExecTwo<R>(s: State<R>, run: seq<Action>, a: Action, b: Action, last: nat, f: nat -> R)
    ensures Exec(s, run + [a, b], last, f) == Apply(Apply(Exec(s, run, last, f), a, last, f), b, last, f)
  {
    assert (run + [a, b])[..|run| + 1] == run + [a] && (run + [a])[..|run|] == run;
  }

  lemma BothHold<R>(f: nat -> R)
    ensures Exec(Init(2, 0), CLAIMS + [MapDone(0), MapDone(1)], 2, f) == State([Holding(0), Holding(1)], 2, 0, 0, map[], [], {})
  {
    var s: State<R> := Init(2, 0);
    assert [Check(0), Check(1)] == [] + [Check(0), Check(1)];
    ExecTwo(s, [], Check(0), Check(1), 2, f);
    ExecTwo(s, [Check(0), Check(1)], Claim(0), Claim(1), 2, f);
    assert Exec(s, CLAIMS, 2, f) == State([Mapping(0), Mapping(1)], 2, 0, 0, map[], [], {});
    ExecTwo(s, CLAIMS, MapDone(0), MapDone(1), 2, f);
  }

  lemma DrainTwo<R>(f: nat -> R, log: seq<Call<R>>)
    ensures Drain(map[0 := f(0)][1 := f(1)], 0, log, false, 0) == Drained(map[], 2, log + [Call(0, f(0), true), Call(1, f(1), true)], false)
  {
    var q, one := map[0 := f(0)][1 := f(1)], map[1 := f(1)];
    var log1 := log + [Call(0, f(0), true)];
    var log2 := log1 + [Call(1, f(1), true)];
    assert log2 == log + [Call(0, f(0), true), Call(1, f(1), true)];
    assert AtFront(one, 1) && one - {1} == map[];
    assert Drain(map[], 2, log2, false, 0) == Drained(map[], 2, log2, false);
    assert Drain(one, 1, log1, false, 0) == Drained(map[], 2, log2, false);
    assert AtFront(q, 0) && q - {0} == one;
  }
}
