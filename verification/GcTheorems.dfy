/** What GcLock promises, over every run from a fresh lock. */
module GcTheorems {
  import opened GcWord
  import opened GcProtocol

  // ------------------------------------------------------------ grace period

  lemma {:induction false} ExecAppend(s: State, p: seq<Action>, q: seq<Action>)
    ensures Exec(s, p + q) == Exec(Exec(s, p), q)
    decreases |q|
  {
    if q == [] {
      assert p + q == p;
    } else {
      var last := |q| - 1;
      assert (p + q)[..|p + q| - 1] == p + q[..last];
      ExecAppend(s, p, q[..last]);
    }
  }

  lemma ExecSnoc(s: State, run: seq<Action>, a: Action)
    ensures Exec(s, run + [a]) == Apply(Exec(s, run), a)
  {
    assert (run + [a])[..|run|] == run;
  }

  lemma OnFrom(s: State, p: seq<Action>, q: seq<Action>, r: seq<Action>)
    ensures Exec(s, p + q + r) == Exec(Exec(s, p), q + r)
  {
    assert p + q + r == p + (q + r);
    ExecAppend(s, p, q + r);
  }

  /** The record of what an item must outlast is never rewritten. */
  lemma {:induction false} GuardsKept(s: State, q: seq<Action>)
    ensures s.guards <= Exec(s, q).guards
    decreases |q|
  {
    if q != [] {
      var x := Exec(s, q[..|q| - 1]);
      GuardsKept(s, q[..|q| - 1]);
      assert x.guards <= Apply(x, q[|q| - 1]).guards;
    }
  }

  /** A section keeps its number to itself: one that was open before a run and
      one that is open after it, with the same number, are the same. */
  lemma {:induction false} SectionsGoOn(s: State, before: seq<Action>, q: seq<Action>, u: Tid)
    requires Init(s)
    ensures var x, z := Exec(s, before), Exec(Exec(s, before), q);
      && x.nextSid <= z.nextSid
      && (Inside(z, u) && z.threads[u].hold.sid < x.nextSid ==> Inside(x, u) && x.threads[u].hold == z.threads[u].hold)
    decreases |q|
  {
    if q != [] {
      var last := |q| - 1;
      var y, a := Exec(Exec(s, before), q[..last]), q[last];
      SectionsGoOn(s, before, q[..last], u);
      ExecAppend(s, before, q[..last]);
      assert ExclusiveInv(y) && LockInv(y) by { InvRun(s, before + q[..last]); }
      SectionsStep(y, a, u);
    }
  }

  lemma SectionsStep(y: State, a: Action, u: Tid)
    requires ExclusiveInv(y) && LockInv(y)
    ensures var z := Apply(y, a);
      && y.nextSid <= z.nextSid
      && (Inside(z, u) && z.threads[u].hold.sid < y.nextSid ==> Inside(y, u) && y.threads[u].hold == z.threads[u].hold)
  {
    if a.t in y.threads {
      StepLocal(y, a);
      if Inside(Apply(y, a), u) && Apply(y, a).threads[u].hold.sid < y.nextSid {
        StaysOpen(y, a.t, EffectOf(y, a), Apply(y, a), u);
      }
    }
  }

  /** So a shared section that is still open is still a shared section. */
  lemma SharedStaysShared(s: State, before: seq<Action>, q: seq<Action>)
    requires Init(s)
    ensures OpenShared(Exec(s, before)) * Open(Exec(Exec(s, before), q)) <= OpenShared(Exec(Exec(s, before), q))
  {
    var x, z := Exec(s, before), Exec(Exec(s, before), q);
    assert EpochInv(x) by { InvRun(s, before); }
    forall sid | sid in OpenShared(x) && sid in Open(z) ensures sid in OpenShared(z) {
      var v :| Reading(x, v) && x.threads[v].hold.sid == sid;
      var u :| Inside(z, u) && z.threads[u].hold.sid == sid;
      assert Inside(x, v);
      SectionsGoOn(s, before, q, u);
      assert u != v ==> Distinct(x, u, v);
    }
  }

  /** doDefer's invariant: take any run, any moment in it at which an idle
      thread calls defer, and any continuation.  If the work has been run by
      then -- inline, after the locked re-check, or from a deferred list -- no
      shared section that was open at doDefer's first snapshot is still open, as
      long as no entry has torn a test of checkDefers.  `Exclusives` is about the
      sections that are not shared. */
  lemma GracePeriod(s: State, before: seq<Action>, t: Tid, after: seq<Action>)
    requires Init(s) && t in Exec(s, before).threads && Exec(s, before).threads[t].pc.Idle?
    ensures var x, z := Exec(s, before), Exec(s, before + [Defer(t)] + after);
      !z.tore && |x.guards| in z.ran ==> OpenShared(x) !! Open(z)
  {
    var x := Exec(s, before);
    var y := Apply(x, Defer(t));
    var z := Exec(s, before + [Defer(t)] + after);
    var i := |x.guards|;
    ExecSnoc(s, before, Defer(t));
    ExecAppend(s, before + [Defer(t)], after);
    GuardsKept(y, after);
    assert y.guards[i] == Open(x) && z.guards[i] == Open(x);
    assert HomeInv(z) && GraceInv(z) by { InvRun(s, before + [Defer(t)] + after); }
    if !z.tore && i in z.ran {
      RanIsClosed(z, i);
      assert OpenShared(x) <= Open(x);
      OnFrom(s, before, [Defer(t)], after);
      SharedStaysShared(s, before, [Defer(t)] + after);
    }
  }

  lemma RanIsClosed(z: State, i: Item)
    requires HomeInv(z) && GraceInv(z) && i in z.ran
    ensures i < |z.guards| && (!z.tore ==> z.guards[i] !! OpenShared(z))
  {
    var j :| 0 <= j < |z.ran| && z.ran[j] == i;
    assert z.home[i] == Done && WaitKey(z, i).None?;
    if !z.tore {
      forall sid | sid in OpenShared(z) ensures sid !in z.guards[i] {
        var u :| Reading(z, u) && z.threads[u].hold.sid == sid;
        assert Outlasts(z, i, u);
      }
    }
  }

  /** What tears a test: an entry that moves the epoch on while some thread, in
      the inner loop, has made three or four of the loads of visibleEpoch(). */
  lemma TearsInTheMiddle(s: State, a: Action)
    requires !s.tore && Apply(s, a).tore
    ensures a.CasEnter? && Apply(s, a).word.epoch == s.word.epoch + 1
    ensures exists u :: u in s.threads && s.threads[u].pc.Checking? && s.threads[u].pc.inner && 3 <= |s.threads[u].pc.loads| <= 4
  {
    if a.LoadEnter? || a.CasEnter? { EnterTears(s, a); } else { OthersDoNot(s, a); }
  }

  lemma EnterTears(s: State, a: Action)
    requires a.t in s.threads && (a.LoadEnter? || a.CasEnter?) && EnterEffect(s, a).tears
    ensures a.CasEnter? && EnterEffect(s, a).word.epoch == s.word.epoch + 1
    ensures exists u :: u in s.threads && InMiddle(s.threads[u].pc)
  {
  }

  predicate OfExclusive(a: Action) {
    a.LoadExclusive? || a.CasExclusive? || a.DrainStart? || a.DrainPoll? || a.ReleaseExclusive?
  }

  predicate OfCheck(a: Action) {
    a.CheckEnter? || a.CheckPop? || a.CheckBreak? || a.CheckDone?
  }

  lemma Harmless(s: State, a: Action)
    requires a.t in s.threads
    ensures a.LoadEnter? || a.CasEnter? ==> !EnterEffect(s, a).strays
    ensures a.LoadExit? || a.CasExit? ==> !ExitEffect(s, a).tears && !ExitEffect(s, a).strays
    ensures OfExclusive(a) ==> !ExclusiveEffect(s, a).tears && !ExclusiveEffect(s, a).strays
    ensures OfCheck(a) ==> !CheckEffect(s, a).tears
  {
  }

  /** No step but an entry tears a test, and none but the end of a walk strays. */
  lemma OthersDoNot(s: State, a: Action)
    requires a.t in s.threads
    ensures !a.LoadEnter? && !a.CasEnter? ==> !EffectOf(s, a).tears
    ensures !OfCheck(a) ==> !EffectOf(s, a).strays
  {
    Harmless(s, a);
    if a.LoadEnter? || a.CasEnter? {
      assert EffectOf(s, a) == EnterEffect(s, a);
    } else if a.LoadExit? || a.CasExit? {
      assert EffectOf(s, a) == ExitEffect(s, a);
    } else if OfExclusive(a) {
      assert EffectOf(s, a) == ExclusiveEffect(s, a);
    } else if OfCheck(a) {
      assert EffectOf(s, a) == CheckEffect(s, a);
    }
  }

  /** No thread enters between the first load and the last of any test. */
  ghost predicate NoEntryDuringTests(s: State, run: seq<Action>) {
    forall n, u :: 0 <= n < |run| && u in Exec(s, run[..n]).threads && run[n].CasEnter? && MidTest(Exec(s, run[..n]).threads[u].pc) ==>
      Apply(Exec(s, run[..n]), run[n]).word == Exec(s, run[..n]).word
  }

  /** Then no run is torn. */
  lemma {:induction false} NoEntryNoTear(s: State, run: seq<Action>)
    requires !s.tore && NoEntryDuringTests(s, run)
    ensures !Exec(s, run).tore
    decreases |run|
  {
    if run != [] {
      var n := |run| - 1;
      forall m | 0 <= m < n ensures run[..n][..m] == run[..m] {}
      NoEntryNoTear(s, run[..n]);
      var x := Exec(s, run[..n]);
      if Apply(x, run[n]).tore { TearsInTheMiddle(x, run[n]); }
    }
  }

  /** So the promise is kept without proviso in every such run. */
  lemma GraceWithoutEntries(s: State, before: seq<Action>, t: Tid, after: seq<Action>)
    requires Init(s) && t in Exec(s, before).threads && Exec(s, before).threads[t].pc.Idle?
    requires NoEntryDuringTests(s, before + [Defer(t)] + after)
    ensures var x, z := Exec(s, before), Exec(s, before + [Defer(t)] + after);
      |x.guards| in z.ran ==> OpenShared(x) !! Open(z)
  {
    NoEntryNoTear(s, before + [Defer(t)] + after);
    GracePeriod(s, before, t, after);
  }

  /** After the first load of a test and before the last. */
  predicate MidTest(pc: Pc) {
    pc.Checking? && 1 <= |pc.loads| <= 6
  }

  // -------------------------------------------------------- no stranded work

  ghost predicate Quiescent(z: State) {
    forall t :: t in z.threads ==> z.threads[t] == Thread(Outside, Idle)
  }

  /** No callback is made twice, whatever the exits were told; and if none of
      them was told to leave the work to somebody else, then once all threads
      are out nothing is left in the deferred map and every piece of work ever
      handed over has been run. */
  lemma NothingStranded(s: State, run: seq<Action>)
    requires Init(s)
    ensures var z := Exec(s, run);
      && NoDup(z.ran)
      && (forall i :: i in z.ran ==> i < |z.guards|)
      && (Quiescent(z) && !z.skipped ==>
            z.entries == map[] && forall i :: 0 <= i < |z.guards| ==> i in z.ran)
  {
    var z := Exec(s, run);
    assert HomeInv(z) && GraceInv(z) by { InvRun(s, run); }
    forall i | i in z.ran ensures i < |z.guards| { RanIsClosed(z, i); }
    if Quiescent(z) && !z.skipped {
      assert z.entries == map[] by {
        InvRun(s, run);
        QuietIsEmpty(z);
      }
      forall i | 0 <= i < |z.guards| ensures i in z.ran { assert AtHome(z, i); }
    }
  }

  lemma QuietIsEmpty(z: State)
    requires EpochInv(z) && CoverInv(z) && Quiescent(z) && !z.skipped
    ensures z.entries == map[]
  {
    forall e ensures Readers(z, e) == {} {}
    assert !SomeoneCovers(z);
  }

  /** Between times: as long as no walk has ended while the map was out of epoch
      order, a key that visibility has reached is about to be looked at. */
  lemma VisibleIsCovered(s: State, run: seq<Action>, k: int)
    requires Init(s)
    ensures var z := Exec(s, run);
      !z.skipped && !z.strayed && k in z.entries && k <= VisibleEpoch(z.word) ==> SomeoneCovers(z)
  {
    assert CoverInv(Exec(s, run)) by { InvRun(s, run); }
  }

  /** A walk goes astray only where the signed images of two pending keys are in
      the other order. */
  lemma StraysOutOfOrder(s: State, a: Action)
    requires !s.strayed && Apply(s, a).strayed
    ensures a.CheckDone? && !EpochOrder(s.entries)
  {
    OthersDoNot(s, a);
    if OfCheck(a) { CheckStrays(s, a); }
  }

  lemma CheckStrays(s: State, a: Action)
    requires a.t in s.threads && OfCheck(a) && CheckEffect(s, a).strays
    ensures a.CheckDone? && !EpochOrder(s.entries)
  {
  }

  /** Keys less than a full turn apart are in epoch order exactly when no odd
      multiple of 2^31 lies between any two of them. */
  lemma InOrderIfSameTurn(entries: map<int, seq<Item>>)
    requires forall a, b :: a in entries && b in entries ==> a < b + EPOCHS
    ensures EpochOrder(entries) <==> forall a, b :: a in entries && b in entries ==> Turn(a) == Turn(b)
  {
    forall a, b | a in entries && b in entries && a < b ensures SignedImage(a) < SignedImage(b) <==> Turn(a) == Turn(b) {
      SignedOrder(a, b);
    }
    if EpochOrder(entries) {
      forall a, b | a in entries && b in entries ensures Turn(a) == Turn(b) {
        assert a < b || b < a || a == b;
      }
    }
  }

  // --------------------------------------------------------- epoch invariant

  /** The visible epoch is exactly the greatest epoch, up to the current one,
      that no reader is in or before. */
  lemma VisibleIsExact(s: State, run: seq<Action>, e: int)
    requires Init(s)
    ensures var z := Exec(s, run);
      e <= VisibleEpoch(z.word) <==> e <= z.word.epoch && forall t :: Reading(z, t) ==> z.threads[t].hold.epoch > e
  {
    var z := Exec(s, run);
    assert EpochInv(z) by { InvRun(s, run); }
    VisibleIs(z, e);
  }

  lemma VisibleIs(z: State, e: int)
    requires EpochInv(z)
    ensures e <= VisibleEpoch(z.word) <==> e <= z.word.epoch && forall t :: Reading(z, t) ==> z.threads[t].hold.epoch > e
  {
    ReadersLive(z);
    if e <= z.word.epoch && e > VisibleEpoch(z.word) {
      var e' := if AnyInOld(z.word) then z.word.epoch - 1 else z.word.epoch;
      assert Readers(z, e') != {};
      var t :| t in Readers(z, e');
      assert Reading(z, t) && z.threads[t].hold.epoch <= e;
    }
  }

  /** Visibility and the epoch never go back, and only an exit raises visibility. */
  lemma VisibleNeverFalls(s: State, a: Action)
    ensures VisibleEpoch(s.word) <= VisibleEpoch(Apply(s, a).word) && s.word.epoch <= Apply(s, a).word.epoch
    ensures !a.CasExit? ==> VisibleEpoch(s.word) == VisibleEpoch(Apply(s, a).word)
  {
    if a.t in s.threads { WordMoves(s, a); }
  }

  predicate Moves(w: Word, v: Word, up: bool) {
    VisibleEpoch(w) <= VisibleEpoch(v) && w.epoch <= v.epoch && (!up ==> VisibleEpoch(w) == VisibleEpoch(v))
  }

  lemma EnterMoves(s: State, a: Action)
    requires a.t in s.threads && (a.LoadEnter? || a.CasEnter?)
    ensures Moves(s.word, EnterEffect(s, a).word, false)
  {
    EnterKeepsVisible(s.word);
  }

  lemma ExitMoves(s: State, a: Action)
    requires a.t in s.threads && (a.LoadExit? || a.CasExit?)
    ensures Moves(s.word, ExitEffect(s, a).word, a.CasExit?)
  {
    if a.CasExit? && Reading(s, a.t) && In(s.word, s.threads[a.t].hold.inEpoch) > 0 {
      ExitRaisesVisible(s.word, s.threads[a.t].hold.inEpoch);
    }
  }

  lemma ExclusiveMoves(s: State, a: Action)
    requires a.t in s.threads && (a.LoadExclusive? || a.CasExclusive? || a.DrainStart? || a.DrainPoll? || a.ReleaseExclusive?)
    ensures Moves(s.word, ExclusiveEffect(s, a).word, false)
  {
  }

  lemma WordMoves(s: State, a: Action)
    requires a.t in s.threads
    ensures Moves(s.word, EffectOf(s, a).word, a.CasExit?)
  {
    if a.LoadEnter? || a.CasEnter? {
      EnterMoves(s, a);
    } else if a.LoadExit? || a.CasExit? {
      ExitMoves(s, a);
    } else if a.LoadExclusive? || a.CasExclusive? || a.DrainStart? || a.DrainPoll? || a.ReleaseExclusive? {
      ExclusiveMoves(s, a);
    } else {
      assert EffectOf(s, a).word == s.word;
    }
  }

  // --------------------------------------------------- exclusion and barrier

  /** An exclusive holder shares the lock with nobody, and neither assertion
      about the epoch in enterCSExclusive can fire. */
  lemma Exclusion(s: State, run: seq<Action>, t: Tid)
    requires Init(s) && t in Exec(s, run).threads
    ensures var z := Exec(s, run);
      && (z.threads[t].hold.Exclusive? ==>
            z.word.exclusive && forall u :: u in z.threads && u != t ==> z.threads[u].hold.Outside?)
      && (z.threads[t].pc.Acquired? || z.threads[t].pc.Draining? ==> z.threads[t].pc.start == z.word.epoch)
  {
    var z := Exec(s, run);
    assert ExclusiveInv(z) by { InvRun(s, run); }
    if z.threads[t].hold.Exclusive? {
      forall u | u in z.threads && u != t ensures z.threads[u].hold.Outside? {
        assert Empty(z) && OneOwner(z, t, u);
      }
    }
  }

  /** While the exclusive bit is set the epoch stands still and nobody enters
      through the counts. */
  lemma FrozenWhileExclusive(s: State, run: seq<Action>, a: Action)
    requires Init(s) && Exec(s, run).word.exclusive
    ensures var z := Exec(s, run); var z' := Apply(z, a);
      z'.word.epoch == z.word.epoch && OpenShared(z') <= OpenShared(z)
  {
    var z := Exec(s, run);
    var z' := Apply(z, a);
    if a.t in z.threads {
      assert ExclusiveInv(z) && LockInv(z) by { InvRun(s, run); }
      FrozenStep(z, a);
    }
  }

  lemma FrozenStep(z: State, a: Action)
    requires a.t in z.threads && ExclusiveInv(z) && LockInv(z) && z.word.exclusive
    ensures var z' := Apply(z, a); z'.word.epoch == z.word.epoch && OpenShared(z') <= OpenShared(z)
  {
    StepLocal(z, a);
    FrozenCommit(z, a.t, EffectOf(z, a));
  }

  lemma FrozenCommit(z: State, t: Tid, f: Effect)
    requires t in z.threads && HoldStep(z, t, f) && OwnerStep(z, t, f) && z.word.exclusive
    ensures Commit(z, t, f).word.epoch == z.word.epoch && OpenShared(Commit(z, t, f)) <= OpenShared(z)
  {
    FrozenOpen(z, t, f, Commit(z, t, f));
  }

  lemma FrozenOpen(z: State, t: Tid, f: Effect, z': State)
    requires Took(z, t, f, z') && HoldStep(z, t, f) && OwnerStep(z, t, f) && z.word.exclusive
    ensures OpenShared(z') <= OpenShared(z)
  {
    assert f.thread.hold.Shared? ==> f.thread.hold == z.threads[t].hold;
    forall sid | sid in OpenShared(z') ensures sid in OpenShared(z) {
      var u :| u in z'.threads && z'.threads[u].hold.Shared? && z'.threads[u].hold.sid == sid;
      assert u in z.threads && z.threads[u].hold == z'.threads[u].hold;
    }
  }

  /** Take any run, any moment in it at which an idle thread outside calls
      visibleBarrier, and whatever the other threads then do.  When the loop may
      be left, every shared section that was open at its first look is closed. */
  lemma BarrierWaits(s: State, before: seq<Action>, t: Tid, others: seq<Action>)
    requires Init(s) && t in Exec(s, before).threads && Exec(s, before).threads[t] == Thread(Outside, Idle)
    requires forall i :: 0 <= i < |others| ==> others[i].t != t
    ensures var x, z := Exec(s, before), Exec(s, before + [BarrierStart(t)] + others);
      BarrierOpen(z.word, x.word.epoch) ==> OpenShared(x) !! Open(z)
  {
    var x, z := Exec(s, before), Exec(s, before + [BarrierStart(t)] + others);
    BarrierGoesOn(s, before, t, others);
    if BarrierOpen(z.word, x.word.epoch) {
      assert EpochInv(z) && BarrierInv(z) by { InvRun(s, before + [BarrierStart(t)] + others); }
      BarrierPasses(z, t);
      assert OpenShared(x) <= Open(x);
      OnFrom(s, before, [BarrierStart(t)], others);
      SharedStaysShared(s, before, [BarrierStart(t)] + others);
    }
  }

  /** While only others move, the caller stays in the loop with its first look. */
  lemma BarrierGoesOn(s: State, before: seq<Action>, t: Tid, others: seq<Action>)
    requires t in Exec(s, before).threads && Exec(s, before).threads[t] == Thread(Outside, Idle)
    requires forall i :: 0 <= i < |others| ==> others[i].t != t
    ensures var x, z := Exec(s, before), Exec(s, before + [BarrierStart(t)] + others);
      t in z.threads && z.threads[t].pc == Barrier(x.word.epoch, Open(x))
  {
    var x := Exec(s, before);
    ExecSnoc(s, before, BarrierStart(t));
    ExecAppend(s, before + [BarrierStart(t)], others);
    BarrierBegins(x, t);
    ThreadKept(Apply(x, BarrierStart(t)), t, others);
  }

  lemma BarrierBegins(x: State, t: Tid)
    requires t in x.threads && x.threads[t] == Thread(Outside, Idle)
    ensures var y := Apply(x, BarrierStart(t)); t in y.threads && y.threads[t].pc == Barrier(x.word.epoch, Open(x))
  {
  }

  lemma {:induction false} ThreadKept(y: State, t: Tid, others: seq<Action>)
    requires t in y.threads && forall i :: 0 <= i < |others| ==> others[i].t != t
    ensures t in Exec(y, others).threads && Exec(y, others).threads[t] == y.threads[t]
    decreases |others|
  {
    if others != [] {
      ThreadKept(y, t, others[..|others| - 1]);
    }
  }

  lemma BarrierPasses(z: State, t: Tid)
    requires EpochInv(z) && BarrierInv(z) && t in z.threads && z.threads[t].pc.Barrier?
    requires BarrierOpen(z.word, z.threads[t].pc.from)
    ensures z.threads[t].pc.waitFor !! OpenShared(z)
  {
    ReadersLive(z);
    forall sid | sid in OpenShared(z) ensures sid !in z.threads[t].pc.waitFor {
      var u :| Reading(z, u) && z.threads[u].hold.sid == sid;
      assert WaitsFor(z, t, u);
    }
  }

}
