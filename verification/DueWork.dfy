/** What deferred work waits for (arch/gc_lock.cc:833-912): the latest epoch that a
    reader was in when it was handed over, and no later one. */
module DueWork {
  import opened GcWord
  import opened GcProtocol
  import opened GcTheorems

  /** `key` is the greatest epoch that a reader is in. */
  ghost predicate Latest(x: State, key: int) {
    && (forall u :: Reading(x, u) ==> x.threads[u].hold.epoch <= key)
    && (exists u :: Reading(x, u) && x.threads[u].hold.epoch == key)
  }

  /** Where a thread is that has just called defer: it is to run the work itself if
      nobody reads, and otherwise has to let it wait. */
  ghost predicate HasDeferred(x: State, pc: Pc) {
    if Empty(x) then pc == Inline(|x.guards|) else pc.Snapped? && pc.item == |x.guards| && Latest(x, pc.key)
  }

  lemma DeferTakes(x: State, t: Tid)
    requires PlacedInv(x) && CountInv(x) && t in x.threads && x.threads[t].pc.Idle?
    ensures var y := Apply(x, Defer(t)); t in y.threads && HasDeferred(x, y.threads[t].pc)
  {
    forall u | Reading(x, u) ensures Live(x.word, x.threads[u].hold.epoch) { ReadersLive(x); }
    LiveIsRead(x);
  }

  /** A count is not of nobody. */
  lemma LiveIsRead(x: State)
    requires PlacedInv(x) && CountInv(x)
    ensures AnyInCurrent(x.word) ==> exists u :: Reading(x, u) && x.threads[u].hold.epoch == x.word.epoch
    ensures AnyInOld(x.word) ==> exists u :: Reading(x, u) && x.threads[u].hold.epoch == x.word.epoch - 1
  {
    if AnyInCurrent(x.word) {
      assert Readers(x, x.word.epoch) != {};
      var u :| u in Readers(x, x.word.epoch);
      assert Reading(x, u);
    }
    if AnyInOld(x.word) {
      assert Readers(x, x.word.epoch - 1) != {};
      var u :| u in Readers(x, x.word.epoch - 1);
      assert Reading(x, u);
    }
  }

  /** In every run: an idle thread that calls defer while nobody reads will run the
      work itself; while somebody does, the work is to wait for the greatest epoch
      that a reader is in. */
  lemma DeferKey(s: State, before: seq<Action>, t: Tid)
    requires Init(s) && t in Exec(s, before).threads && Exec(s, before).threads[t].pc.Idle?
    ensures var x, y := Exec(s, before), Exec(s, before + [Defer(t)]); t in y.threads && HasDeferred(x, y.threads[t].pc)
  {
    ExecSnoc(s, before, Defer(t));
    assert EpochInv(Exec(s, before)) by { InvRun(s, before); }
    DeferTakes(Exec(s, before), t);
  }

  // ---------------------------------------------------- the key never changes

  /** Work that waits has been waiting, for the same. */
  lemma SameKeyStep(s: State, a: Action, i: Item)
    requires HomeInv(s) && ExclusiveInv(s) && LockInv(s) && i < |s.home|
    ensures var s' := Apply(s, a); i < |s'.home| && (WaitKey(s', i).Some? ==> WaitKey(s', i) == WaitKey(s, i))
  {
    if a.t in s.threads {
      assert Sound(s, a.t);
      StepLocal(s, a);
      SameKey(s, a.t, EffectOf(s, a), i);
    }
  }

  lemma SameKey(s: State, t: Tid, f: Effect, i: Item)
    requires HomeInv(s) && t in s.threads && WorkStep(s, t, f) && i < |s.home|
    ensures var s' := Commit(s, t, f); i < |s'.home| && (WaitKey(s', i).Some? ==> WaitKey(s', i) == WaitKey(s, i))
  {
    assert AtHome(s, i);
    if f.work.Put? {
      SameKeyPut(s, t, f, i);
    } else if f.work.Same? || f.work.New? {
      SameKeyStill(s, t, f, i);
    } else {
      SameKeyTaken(s, t, f, i);
    }
  }

  lemma SameKeyStill(s: State, t: Tid, f: Effect, i: Item)
    requires t in s.threads && WorkStep(s, t, f) && i < |s.home| && AtHome(s, i) && (f.work.Same? || f.work.New?)
    ensures var s' := Commit(s, t, f); i < |s'.home| && (WaitKey(s', i).Some? ==> WaitKey(s', i) == WaitKey(s, i))
  {
  }

  lemma SameKeyTaken(s: State, t: Tid, f: Effect, i: Item)
    requires t in s.threads && WorkStep(s, t, f) && i < |s.home| && AtHome(s, i) && (f.work.Pop? || f.work.Ran?)
    ensures var s' := Commit(s, t, f); i < |s'.home| && (WaitKey(s', i).Some? ==> WaitKey(s', i) == WaitKey(s, i))
  {
  }

  lemma SameKeyPut(s: State, t: Tid, f: Effect, i: Item)
    requires ListedInv(s) && t in s.threads && WorkStep(s, t, f) && i < |s.home| && AtHome(s, i) && f.work.Put?
    ensures var s' := Commit(s, t, f); i < |s'.home| && (WaitKey(s', i).Some? ==> WaitKey(s', i) == WaitKey(s, i))
  {
    assert Hands(s.threads[t].pc, s.home, t);
  }

  lemma {:induction false} SameKeyRun(s: State, before: seq<Action>, q: seq<Action>, i: Item)
    requires Init(s) && i < |Exec(s, before).home|
    ensures var x, z := Exec(s, before), Exec(Exec(s, before), q);
      i < |z.home| && (WaitKey(z, i).Some? ==> WaitKey(z, i) == WaitKey(x, i))
    decreases |q|
  {
    if q != [] {
      var last := |q| - 1;
      SameKeyRun(s, before, q[..last], i);
      ExecAppend(s, before, q[..last]);
      var y := Exec(Exec(s, before), q[..last]);
      assert HomeInv(y) && ExclusiveInv(y) && LockInv(y) by { InvRun(s, before + q[..last]); }
      SameKeyStep(y, q[last], i);
    }
  }

  // ------------------------------------------------------ no longer than that

  /** Take any run, any moment in it at which an idle thread calls defer, and any
      continuation.  If the work is in the map by then, it is under the greatest
      epoch that a reader was in at that moment; that key is visible exactly when
      no reader of that epoch or an earlier one is left, whoever has entered
      since; and then somebody is about to look at it, unless an exit was told to
      leave it or a walk has ended out of epoch order. */
  lemma DueWhenReadersLeave(s: State, before: seq<Action>, t: Tid, after: seq<Action>)
    requires Init(s) && t in Exec(s, before).threads && Exec(s, before).threads[t].pc.Idle?
    ensures var x, z := Exec(s, before), Exec(s, before + [Defer(t)] + after); var i := |x.guards|;
      && i < |z.home|
      && (z.home[i].Queued? ==>
           var key := z.home[i].key;
           && Latest(x, key) && key in z.entries && i in z.entries[key]
           && (key <= VisibleEpoch(z.word) <==> forall u :: Reading(z, u) ==> z.threads[u].hold.epoch > key)
           && (!z.skipped && !z.strayed && (forall u :: Reading(z, u) ==> z.threads[u].hold.epoch > key) ==> SomeoneCovers(z)))
  {
    var x, y, z := Exec(s, before), Exec(s, before + [Defer(t)]), Exec(s, before + [Defer(t)] + after);
    var i := |x.guards|;
    DeferKey(s, before, t);
    HandedOver(s, before, t);
    ExecAppend(s, before + [Defer(t)], after);
    SameKeyRun(s, before + [Defer(t)], after, i);
    if z.home[i].Queued? {
      var key := z.home[i].key;
      assert WaitKey(z, i) == Some(key);
      assert Latest(x, key);
      Due(s, before + [Defer(t)] + after, i);
    }
  }

  /** Until it is queued the work is in the hands of the thread. */
  lemma HandedOver(s: State, before: seq<Action>, t: Tid)
    requires Init(s) && t in Exec(s, before).threads && Exec(s, before).threads[t].pc.Idle?
    ensures var x, y := Exec(s, before), Exec(s, before + [Defer(t)]);
      |y.home| == |x.guards| + 1 && y.home[|x.guards|] == Hand(t)
  {
    ExecSnoc(s, before, Defer(t));
    assert HomeInv(Exec(s, before)) by { InvRun(s, before); }
    HandsOne(Exec(s, before), t);
  }

  lemma HandsOne(x: State, t: Tid)
    requires |x.home| == |x.guards| && t in x.threads && x.threads[t].pc.Idle?
    ensures var y := Apply(x, Defer(t)); |y.home| == |x.guards| + 1 && y.home[|x.guards|] == Hand(t)
  {
  }

  lemma Due(s: State, run: seq<Action>, i: Item)
    requires Init(s) && i < |Exec(s, run).home| && Exec(s, run).home[i].Queued?
    ensures var z := Exec(s, run); var key := z.home[i].key;
      && key in z.entries && i in z.entries[key]
      && (key <= VisibleEpoch(z.word) <==> forall u :: Reading(z, u) ==> z.threads[u].hold.epoch > key)
      && (!z.skipped && !z.strayed && key <= VisibleEpoch(z.word) ==> SomeoneCovers(z))
  {
    var z := Exec(s, run);
    var key := z.home[i].key;
    assert HomeInv(z) && KeyInv(z) by { InvRun(s, run); }
    assert AtHome(z, i);
    VisibleIsExact(s, run, key);
    VisibleIsCovered(s, run, key);
  }
}
