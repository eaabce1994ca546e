/** GcLock's deferBarrier (arch/gc_lock.cc:763-803): a visibleBarrier, some work
    of its own, and a runDefers.  It is meant to return once everything handed
    over before it is finished; what it does guarantee is less. */
module DeferBarriers {
  import opened GcWord
  import opened GcProtocol
  import opened GcTheorems
  import opened GcWitnesses

  // ------------------------------------------------------ what is guaranteed

  /** An item that was queued stays where it is, or has been taken to be run. */
  predicate Aged(x: State, z: State, i: Item)
    requires i < |x.home|
  {
    i < |z.home| && (z.home[i] == x.home[i] || z.home[i].Batch? || z.home[i].Done?)
  }

  lemma AgesByStep(x: State, s: State, a: Action, i: Item)
    requires i < |x.home| && x.home[i].Queued? && Aged(x, s, i) && HomeInv(s)
    requires a.t in s.threads ==> Sound(s, a.t)
    ensures Aged(x, Apply(s, a), i)
  {
    if a.t in s.threads {
      StepLocal(s, a);
      AgesByEffect(x, s, a.t, EffectOf(s, a), i);
    }
  }

  lemma AgesByEffect(x: State, s: State, t: Tid, f: Effect, i: Item)
    requires i < |x.home| && x.home[i].Queued? && Aged(x, s, i) && ListedInv(s) && t in s.threads && WorkStep(s, t, f)
    ensures Aged(x, Commit(s, t, f), i)
  {
    match f.work
    case Put(_, j) => assert Hands(s.threads[t].pc, s.home, t);
    case Pop(k) => assert Lists(s.entries[k], s.home, Queued(k));
    case _ =>
  }

  lemma {:induction false} AgesByRun(s: State, before: seq<Action>, q: seq<Action>, i: Item)
    requires Init(s) && i < |Exec(s, before).home| && Exec(s, before).home[i].Queued?
    ensures Aged(Exec(s, before), Exec(Exec(s, before), q), i)
    decreases |q|
  {
    if q != [] {
      var last := |q| - 1;
      AgesByRun(s, before, q[..last], i);
      ExecAppend(s, before, q[..last]);
      InvRun(s, before + q[..last]);
      AgesByStep(Exec(s, before), Exec(Exec(s, before), q[..last]), q[last], i);
    }
  }

  /** What the thread's loads can show: nothing from before visibility reached `v`. */
  predicate LooksFrom(z: State, t: Tid, v: int) {
    && v <= VisibleEpoch(z.word) && t in z.threads
    && (z.threads[t].pc.Checking? && z.threads[t].pc.loads != [] ==> v <= VisibleEpoch(z.threads[t].pc.loads[0]))
  }

  lemma {:induction false} LooksLater(s: State, before: seq<Action>, t: Tid, v: int, q: seq<Action>)
    requires Init(s) && LooksFrom(Exec(s, before), t, v)
    ensures LooksFrom(Exec(Exec(s, before), q), t, v)
    decreases |q|
  {
    if q != [] {
      var last := |q| - 1;
      var z := Exec(Exec(s, before), q[..last]);
      LooksLater(s, before, t, v, q[..last]);
      ExecAppend(s, before, q[..last]);
      assert ExclusiveInv(z) && LockInv(z) by { InvRun(s, before + q[..last]); }
      VisibleNeverFalls(z, q[last]);
      LoadsOne(z, q[last], t, v);
    }
  }

  lemma LoadsOne(z: State, a: Action, t: Tid, v: int)
    requires ExclusiveInv(z) && LockInv(z) && LooksFrom(z, t, v) && VisibleEpoch(z.word) <= VisibleEpoch(Apply(z, a).word)
    ensures LooksFrom(Apply(z, a), t, v)
  {
    if a.t == t { StepLocal(z, a); }
  }

  /** When visibleBarrier's loop is left, the epoch it began in is visible. */
  lemma BarrierShows(w: Word, from: int)
    requires from <= w.epoch && BarrierOpen(w, from)
    ensures from <= VisibleEpoch(w)
  {
  }

  /** Take any moment at which thread `t`, outside, calls deferBarrier; whatever
      the others do while visibleBarrier waits; its last look, after which the
      loop is left; and whatever anybody does from then until the thread's walk
      ends.  If no walk has ended while the map was out of epoch order, every item
      that was queued at the beginning has been run or is in the hands of a thread
      that is running a batch, and none is still in the map. */
  lemma DeferBarrierFlushes(s: State, before: seq<Action>, t: Tid, others: seq<Action>, rest: seq<Action>, i: Item)
    requires Init(s) && t in Exec(s, before).threads && Exec(s, before).threads[t] == Thread(Outside, Idle)
    requires forall j :: 0 <= j < |others| ==> others[j].t != t
    requires i < |Exec(s, before).home| && Exec(s, before).home[i].Queued?
    requires var y := Exec(Exec(s, before), [BarrierStart(t)] + others); BarrierOpen(y.word, Exec(s, before).word.epoch)
    requires var z := Exec(Exec(s, before), [BarrierStart(t)] + others + rest);
      t in z.threads && z.threads[t].pc.Checking? && Apply(z, CheckDone(t)).threads[t].pc.Running?
    ensures var z := Apply(Exec(Exec(s, before), [BarrierStart(t)] + others + rest), CheckDone(t));
      !z.strayed ==> i < |z.home| && (z.home[i].Batch? || z.home[i].Done?)
  {
    var x, q := Exec(s, before), [BarrierStart(t)] + others;
    var z := Exec(x, q + rest);
    ExecAppend(x, q, rest);
    ExecAppend(s, before, q + rest);
    BarrierHasShown(s, before, t, others);
    ExecAppend(s, before, q);
    LooksLater(s, before + q, t, x.word.epoch, rest);
    AgesByRun(s, before, q + rest, i);
    assert KeyInv(x) && HomeInv(x) by { InvRun(s, before); }
    KeysUpTo(x, i);
    assert HomeInv(z) && ReadsInv(z) by { InvRun(s, before + (q + rest)); }
    WalkFlushes(x, z, t, i);
  }

  lemma BarrierHasShown(s: State, before: seq<Action>, t: Tid, others: seq<Action>)
    requires t in Exec(s, before).threads && Exec(s, before).threads[t] == Thread(Outside, Idle)
    requires forall j :: 0 <= j < |others| ==> others[j].t != t
    requires var y := Exec(Exec(s, before), [BarrierStart(t)] + others); BarrierOpen(y.word, Exec(s, before).word.epoch)
    ensures LooksFrom(Exec(Exec(s, before), [BarrierStart(t)] + others), t, Exec(s, before).word.epoch)
  {
    var x, q := Exec(s, before), [BarrierStart(t)] + others;
    ExecAppend(s, before, q);
    BarrierGoesOn(s, before, t, others);
    assert before + [BarrierStart(t)] + others == before + q;
    EpochsGrow(x, q);
    BarrierShows(Exec(x, q).word, x.word.epoch);
  }

  lemma {:induction false} EpochsGrow(x: State, q: seq<Action>)
    ensures x.word.epoch <= Exec(x, q).word.epoch
    decreases |q|
  {
    if q != [] {
      EpochsGrow(x, q[..|q| - 1]);
      VisibleNeverFalls(Exec(x, q[..|q| - 1]), q[|q| - 1]);
    }
  }

  lemma KeysUpTo(x: State, i: Item)
    requires KeyInv(x) && HomeInv(x) && i < |x.home| && x.home[i].Queued?
    ensures x.home[i].key <= x.word.epoch
  {
    assert AtHome(x, i);
  }

  lemma WalkFlushes(x: State, z: State, t: Tid, i: Item)
    requires i < |x.home| && x.home[i].Queued? && Aged(x, z, i) && x.home[i].key <= x.word.epoch
    requires HomeInv(z) && ReadsInv(z) && LooksFrom(z, t, x.word.epoch) && z.threads[t].pc.Checking? && Apply(z, CheckDone(t)).threads[t].pc.Running?
    ensures var z' := Apply(z, CheckDone(t));
      i < |z'.home| && (!z'.strayed ==> z'.home[i].Batch? || z'.home[i].Done?)
  {
    var z' := Apply(z, CheckDone(t));
    DoneIs(z, t);
    if !z'.strayed && z.home[i].Queued? {
      assert AtHome(z, i);
      assert ReadsOk(z, z.threads[t].pc.loads);
      WalkEnds(z, z.threads[t].pc);
    }
  }

  lemma DoneIs(z: State, t: Tid)
    requires t in z.threads && z.threads[t].pc.Checking? && Apply(z, CheckDone(t)).threads[t].pc.Running?
    ensures NothingVisible(z.entries, z.threads[t].pc.loads)
    ensures Apply(z, CheckDone(t)).home == z.home && (Apply(z, CheckDone(t)).strayed <==> z.strayed || !EpochOrder(z.entries))
  {
  }

  // -------------------------------------------------------- and what is not

  /** deferBarrier when nobody is inside: its own work runs at once, twice. */
  function Calls(t: Tid): seq<Action> {
    [BarrierStart(t), BarrierPoll(t)] + [Defer(t), RunInline(t)] + [Defer(t), RunInline(t)]
      + [CallRunDefers(t), LockCheck(t)] + [CheckDone(t), RunEnd(t)]
  }

  predicate Calm(s: State, t: Tid) {
    && !AnyInCurrent(s.word) && !AnyInOld(s.word) && s.entries == map[] && s.lock.None?
    && t in s.threads && s.threads[t] == OUT
  }

  predicate OnlyAdds(s: State, z: State, t: Tid) {
    && Calm(z, t) && z.threads.Keys == s.threads.Keys && s.home <= z.home
    && forall u :: u in s.threads && u != t ==> z.threads[u] == s.threads[u]
  }

  lemma BarrierPair(s: State, t: Tid)
    requires Calm(s, t) && |s.home| == |s.guards|
    ensures var z := Exec(s, [BarrierStart(t), BarrierPoll(t)]); OnlyAdds(s, z, t) && |z.home| == |z.guards|
  {
    TwoSteps(s, BarrierStart(t), BarrierPoll(t));
    assert Apply(s, BarrierStart(t)).threads[t].pc == Barrier(s.word.epoch, Open(s));
  }

  lemma DeferPair(s: State, t: Tid)
    requires Calm(s, t) && |s.home| == |s.guards|
    ensures var z := Exec(s, [Defer(t), RunInline(t)]); OnlyAdds(s, z, t) && |z.home| == |z.guards|
  {
    TwoSteps(s, Defer(t), RunInline(t));
    assert Apply(s, Defer(t)).threads[t].pc == Inline(|s.guards|);
  }

  lemma RunDefersPairs(s: State, t: Tid)
    requires Calm(s, t)
    ensures OnlyAdds(s, Exec(Exec(s, [CallRunDefers(t), LockCheck(t)]), [CheckDone(t), RunEnd(t)]), t)
  {
    TwoSteps(s, CallRunDefers(t), LockCheck(t));
    LocksIdly(s, t);
    var s2 := Apply(Apply(s, CallRunDefers(t)), LockCheck(t));
    TwoSteps(s2, CheckDone(t), RunEnd(t));
    EndsIdly(s2, t);
  }

  lemma LocksIdly(s: State, t: Tid)
    requires Calm(s, t)
    ensures Apply(Apply(s, CallRunDefers(t)), LockCheck(t)) == Walking(s, t, [])
  {
    var s1 := Apply(s, CallRunDefers(t));
    assert s1.threads[t] == Thread(Outside, Owing) && s1 == s.(threads := s1.threads);
    LocksCheck(s1, t);
    assert Walking(s1, t, []).threads == Walking(s, t, []).threads;
  }

  lemma EndsIdly(s: State, t: Tid)
    requires t in s.threads && s.threads[t] == Thread(Outside, Checking([], false, [])) && s.entries == map[]
    ensures var z := Apply(Apply(s, CheckDone(t)), RunEnd(t));
      z.threads == s.threads[t := OUT] && z.lock.None? && z.home == s.home && z.entries == s.entries && z.word == s.word
  {
    var s1 := Apply(s, CheckDone(t));
    assert s1.threads[t] == Thread(Outside, Running([]));
  }

  /** While thread `b` runs a batch and nobody is inside, deferBarrier goes from
      beginning to end in thread `t`, and the batch is where it was. */
  lemma DeferBarrierOvertakes(s: State, t: Tid, b: Tid)
    requires Calm(s, t) && |s.home| == |s.guards| && b in s.threads && b != t
    ensures var z := Exec(s, Calls(t));
      t in z.threads && z.threads[t] == OUT && b in z.threads && z.threads[b] == s.threads[b] && s.home <= z.home
  {
    CallsAre(s, t);
    OnlyAddsInAll(s, t);
  }

  lemma CallsAre(s: State, t: Tid)
    ensures Exec(s, Calls(t)) == Exec(Exec(Exec(Exec(Exec(s, [BarrierStart(t), BarrierPoll(t)]), [Defer(t), RunInline(t)]), [Defer(t), RunInline(t)]),
                                           [CallRunDefers(t), LockCheck(t)]), [CheckDone(t), RunEnd(t)])
  {
    Stretches(s, [BarrierStart(t), BarrierPoll(t)], [Defer(t), RunInline(t)], [CallRunDefers(t), LockCheck(t)], [CheckDone(t), RunEnd(t)]);
  }

  lemma Stretches(s: State, p: seq<Action>, q: seq<Action>, u: seq<Action>, v: seq<Action>)
    ensures Exec(s, p + q + q + u + v) == Exec(Exec(Exec(Exec(Exec(s, p), q), q), u), v)
  {
    InStretches(s, p, q, q, u);
    ExecAppend(s, p + q + q + u, v);
  }

  lemma OnlyAddsInAll(s: State, t: Tid)
    requires Calm(s, t) && |s.home| == |s.guards|
    ensures OnlyAdds(s, Exec(Exec(Exec(Exec(Exec(s, [BarrierStart(t), BarrierPoll(t)]), [Defer(t), RunInline(t)]), [Defer(t), RunInline(t)]),
                                       [CallRunDefers(t), LockCheck(t)]), [CheckDone(t), RunEnd(t)]), t)
  {
    BarrierPair(s, t);
    var s1 := Exec(s, [BarrierStart(t), BarrierPoll(t)]);
    ThreeMore(s, s1, t);
  }

  lemma ThreeMore(s: State, s1: State, t: Tid)
    requires OnlyAdds(s, s1, t) && |s1.home| == |s1.guards|
    ensures OnlyAdds(s, Exec(Exec(Exec(Exec(s1, [Defer(t), RunInline(t)]), [Defer(t), RunInline(t)]),
                                  [CallRunDefers(t), LockCheck(t)]), [CheckDone(t), RunEnd(t)]), t)
  {
    DeferPair(s1, t);
    var s2 := Exec(s1, [Defer(t), RunInline(t)]);
    DeferPair(s2, t);
    var s3 := Exec(s2, [Defer(t), RunInline(t)]);
    RunDefersPairs(s3, t);
    AddsOn(s, s1, s2, t);
    AddsOn(s, s2, s3, t);
    AddsOn(s, s3, Exec(Exec(s3, [CallRunDefers(t), LockCheck(t)]), [CheckDone(t), RunEnd(t)]), t);
  }

  lemma AddsOn(s: State, y: State, z: State, t: Tid)
    requires OnlyAdds(s, y, t) && OnlyAdds(y, z, t)
    ensures OnlyAdds(s, z, t)
  {
  }
}
