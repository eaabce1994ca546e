/** What each call of GcLock does while the others stand still, and exactly when a
    loop of it may be left: in terms of who reads which epoch, in any state of any
    run. */
module GcCalls {
  import opened GcWord
  import opened GcProtocol
  import opened GcTheorems
  import opened GcWitnesses
  import opened DueWork

  // ---------------------------------------------------------- in and out

  /** The other threads and the deferred work are as they were. */
  predicate OnlyThread(z: State, y: State, t: Tid) {
    && t in y.threads && y.threads.Keys == z.threads.Keys && (forall u :: u in z.threads && u != t ==> y.threads[u] == z.threads[u])
    && y.entries == z.entries && y.home == z.home && y.ran == z.ran && y.lock == z.lock && y.guards == z.guards
  }

  /** enterCS alone: into a section of its own, in the current epoch if a reader is
      still in the one before, and otherwise in a new one. */
  lemma EnterAlone(s: State, before: seq<Action>, t: Tid)
    requires Init(s) && t in Exec(s, before).threads && Exec(s, before).threads[t] == Thread(Outside, Idle) && !Exec(s, before).word.exclusive
    ensures var z := Exec(s, before); var y := Exec(z, [LoadEnter(t), CasEnter(t)]);
      && OnlyThread(z, y, t) && Reading(y, t) && y.threads[t].pc.Idle? && !y.word.exclusive
      && y.threads[t].hold.sid !in Open(z) && y.threads[t].hold.epoch == y.word.epoch
      && y.word.epoch == z.word.epoch + if exists u :: Reading(z, u) && z.threads[u].hold.epoch == z.word.epoch - 1 then 0 else 1
  {
    var z := Exec(s, before);
    assert EpochInv(z) by { InvRun(s, before); }
    LiveIsRead(z);
    OldIfRead(z);
    assert z.nextSid !in Open(z);
    Enters(z, t);
  }

  lemma OldIfRead(z: State)
    requires PlacedInv(z) && CountInv(z)
    ensures AnyInOld(z.word) <==> exists u :: Reading(z, u) && z.threads[u].hold.epoch == z.word.epoch - 1
  {
    ReadersLive(z);
    LiveIsRead(z);
  }

  lemma Enters(z: State, t: Tid)
    requires t in z.threads && z.threads[t] == Thread(Outside, Idle) && !z.word.exclusive
    ensures var y := Exec(z, [LoadEnter(t), CasEnter(t)]);
      && OnlyThread(z, y, t) && y.word == EnterWord(z.word)
      && y.threads[t] == Thread(Shared(y.word.epoch % 2, y.word.epoch, z.nextSid), Idle)
  {
    TwoSteps(z, LoadEnter(t), CasEnter(t));
    EnterLoads(z, t);
    EnterSwaps(Apply(z, LoadEnter(t)), t);
  }

  lemma EnterLoads(z: State, t: Tid)
    requires t in z.threads && z.threads[t] == Thread(Outside, Idle)
    ensures var y := Apply(z, LoadEnter(t));
      OnlyThread(z, y, t) && y.word == z.word && y.nextSid == z.nextSid && y.threads[t] == Thread(Outside, Entering(z.word))
  {
  }

  lemma EnterSwaps(z: State, t: Tid)
    requires t in z.threads && z.threads[t] == Thread(Outside, Entering(z.word)) && !z.word.exclusive
    ensures var y := Apply(z, CasEnter(t));
      && OnlyThread(z, y, t) && y.word == EnterWord(z.word)
      && y.threads[t] == Thread(Shared(y.word.epoch % 2, y.word.epoch, z.nextSid), Idle)
  {
    EnterKeepsVisible(z.word);
  }

  /** exitCS alone: out of the section; and a runDefers is owed exactly if it was
      asked for and no other reader is in the same epoch or an earlier one. */
  lemma ExitAlone(s: State, before: seq<Action>, t: Tid, runDefer: bool)
    requires Init(s) && Reading(Exec(s, before), t) && Exec(s, before).threads[t].pc.Idle?
    ensures var z := Exec(s, before); var y := Exec(z, [LoadExit(t, runDefer), CasExit(t)]);
      && OnlyThread(z, y, t) && y.word.epoch == z.word.epoch && y.threads[t].hold == Outside
      && y.threads[t].pc == if runDefer && LastOut(z, t) then Owing else Idle
  {
    var z := Exec(s, before);
    assert EpochInv(z) by { InvRun(s, before); }
    ReaderIsCounted(z, t);
    Exits(z, t, runDefer);
    ExecAppend(s, before, [LoadExit(t, runDefer), CasExit(t)]);
    ExitRaisesVisible(z.word, z.threads[t].hold.inEpoch);
    RisesIfLast(s, before, before + [LoadExit(t, runDefer), CasExit(t)], t);
  }

  lemma RisesIfLast(s: State, before: seq<Action>, run: seq<Action>, t: Tid)
    requires Init(s) && Reading(Exec(s, before), t)
    requires OnlyThread(Exec(s, before), Exec(s, run), t) && Exec(s, run).word.epoch == Exec(s, before).word.epoch
    requires Exec(s, run).threads[t].hold == Outside && VisibleEpoch(Exec(s, before).word) <= VisibleEpoch(Exec(s, run).word)
    ensures VisibleEpoch(Exec(s, run).word) != VisibleEpoch(Exec(s, before).word) <==> LastOut(Exec(s, before), t)
  {
    if LastOut(Exec(s, before), t) {
      LastIsSeen(s, before, run, t);
    } else {
      StillVisible(s, before, run, t);
    }
  }

  /** With no other as early, the epoch left becomes visible. */
  lemma LastIsSeen(s: State, before: seq<Action>, run: seq<Action>, t: Tid)
    requires Init(s) && Reading(Exec(s, before), t) && LastOut(Exec(s, before), t)
    requires OnlyThread(Exec(s, before), Exec(s, run), t) && Exec(s, run).word.epoch == Exec(s, before).word.epoch
    requires Exec(s, run).threads[t].hold == Outside
    ensures VisibleEpoch(Exec(s, before).word) < Exec(s, before).threads[t].hold.epoch <= VisibleEpoch(Exec(s, run).word)
  {
    var z, y := Exec(s, before), Exec(s, run);
    var e := z.threads[t].hold.epoch;
    assert e <= z.word.epoch by { InvRun(s, before); assert Placed(z.threads[t].hold, z.word.epoch, z.nextSid); }
    VisibleIsExact(s, before, e);
    VisibleIsExact(s, run, e);
    assert forall u :: Reading(y, u) ==> y.threads[u].hold.epoch > e;
  }

  predicate LastOut(z: State, t: Tid)
    requires Reading(z, t)
  {
    forall u :: u in z.threads && u != t && z.threads[u].hold.Shared? ==> z.threads[u].hold.epoch > z.threads[t].hold.epoch
  }

  /** With another reader as early, nothing more becomes visible. */
  lemma StillVisible(s: State, before: seq<Action>, run: seq<Action>, t: Tid)
    requires Init(s) && Reading(Exec(s, before), t) && !LastOut(Exec(s, before), t)
    requires OnlyThread(Exec(s, before), Exec(s, run), t) && Exec(s, run).word.epoch == Exec(s, before).word.epoch
    requires Exec(s, run).threads[t].hold == Outside && VisibleEpoch(Exec(s, before).word) <= VisibleEpoch(Exec(s, run).word)
    ensures VisibleEpoch(Exec(s, run).word) == VisibleEpoch(Exec(s, before).word)
  {
    var z, y := Exec(s, before), Exec(s, run);
    var v := VisibleEpoch(y.word);
    VisibleIsExact(s, run, v);
    VisibleIsExact(s, before, v);
    var u :| u in z.threads && u != t && z.threads[u].hold.Shared? && z.threads[u].hold.epoch <= z.threads[t].hold.epoch;
    assert Reading(y, u) && y.threads[u] == z.threads[u];
    forall w | Reading(z, w) ensures z.threads[w].hold.epoch > v {
      if w != t { assert Reading(y, w); }
    }
  }

  lemma Exits(z: State, t: Tid, runDefer: bool)
    requires Reading(z, t) && z.threads[t].pc.Idle? && In(z.word, z.threads[t].hold.inEpoch) > 0
    ensures var y := Exec(z, [LoadExit(t, runDefer), CasExit(t)]);
      && OnlyThread(z, y, t) && y.word == ExitWord(z.word, z.threads[t].hold.inEpoch) && y.threads[t].hold == Outside
      && y.threads[t].pc == if VisibleEpoch(y.word) != VisibleEpoch(z.word) && runDefer then Owing else Idle
  {
    TwoSteps(z, LoadExit(t, runDefer), CasExit(t));
    var s1 := Apply(z, LoadExit(t, runDefer));
    assert s1.threads[t] == Thread(z.threads[t].hold, Exiting(z.word, runDefer)) && s1.word == z.word;
  }

  // ---------------------------------------------------------- the barriers

  /** Both loops of visibleBarrier may be left exactly when no reader is in the
      epoch it began in, or in an earlier one: no sooner, and no later. */
  lemma BarrierExact(s: State, run: seq<Action>, t: Tid)
    requires Init(s) && t in Exec(s, run).threads && (Exec(s, run).threads[t].pc.Barrier? || Exec(s, run).threads[t].pc.Draining?)
    ensures var z := Exec(s, run); var from := z.threads[t].pc.from;
      BarrierOpen(z.word, from) <==> forall u :: Reading(z, u) ==> z.threads[u].hold.epoch > from
  {
    var z := Exec(s, run);
    assert BarrierInv(z) && ExclusiveInv(z) by { InvRun(s, run); }
    VisibleIsExact(s, run, z.threads[t].pc.from);
    OpenIfVisible(z.word, z.threads[t].pc.from);
  }

  lemma OpenIfVisible(w: Word, from: int)
    requires from <= w.epoch
    ensures BarrierOpen(w, from) <==> from <= VisibleEpoch(w)
  {
  }

  /** And a look that finds it so leaves the loop: the caller is out, or holds the
      lock exclusively. */
  lemma BarrierLeaves(z: State, t: Tid)
    requires t in z.threads && (z.threads[t].pc.Barrier? || z.threads[t].pc.Draining?)
    ensures var y := Apply(z, if z.threads[t].pc.Barrier? then BarrierPoll(t) else DrainPoll(t));
      && OnlyThread(z, y, t) && y.word == z.word
      && y.threads[t] == if !BarrierOpen(z.word, z.threads[t].pc.from) then z.threads[t]
                         else if z.threads[t].pc.Barrier? then z.threads[t].(pc := Idle) else Thread(Exclusive(z.nextSid), Idle)
  {
  }

  /** lockExclusive alone, with nobody inside: in. */
  lemma ExclusiveAlone(s: State, before: seq<Action>, t: Tid)
    requires Init(s) && t in Exec(s, before).threads && Exec(s, before).threads[t] == Thread(Outside, Idle)
    requires Empty(Exec(s, before)) && !Exec(s, before).word.exclusive
    ensures var z := Exec(s, before); var y := Exec(Exec(z, [LoadExclusive(t), CasExclusive(t)]), [DrainStart(t), DrainPoll(t)]);
      && OnlyThread(z, y, t) && y.threads[t] == Thread(Exclusive(z.nextSid), Idle) && y.word == z.word.(exclusive := true)
      && OnlyThread(y, Apply(y, ReleaseExclusive(t)), t)
      && Apply(y, ReleaseExclusive(t)).threads[t] == Thread(Outside, Idle) && Apply(y, ReleaseExclusive(t)).word == z.word
  {
    var z := Exec(s, before);
    assert EpochInv(z) by { InvRun(s, before); }
    forall e ensures Readers(z, e) == {} {}
    Acquires(z, t);
    var y1 := Exec(z, [LoadExclusive(t), CasExclusive(t)]);
    GetsIn(y1, t);
    Releases(Exec(y1, [DrainStart(t), DrainPoll(t)]), t);
  }

  lemma Acquires(z: State, t: Tid)
    requires t in z.threads && z.threads[t] == Thread(Outside, Idle) && !z.word.exclusive
    ensures var y := Exec(z, [LoadExclusive(t), CasExclusive(t)]);
      OnlyThread(z, y, t) && y.word == z.word.(exclusive := true) && y.threads[t] == Thread(Outside, Acquired(z.word.epoch)) && y.nextSid == z.nextSid
  {
    TwoSteps(z, LoadExclusive(t), CasExclusive(t));
    var s1 := Apply(z, LoadExclusive(t));
    assert s1.threads[t] == Thread(Outside, Acquiring(z.word)) && s1.word == z.word;
  }

  lemma GetsIn(y: State, t: Tid)
    requires t in y.threads && y.threads[t] == Thread(Outside, Acquired(y.word.epoch)) && !AnyInCurrent(y.word) && !AnyInOld(y.word)
    ensures var r := Exec(y, [DrainStart(t), DrainPoll(t)]);
      OnlyThread(y, r, t) && r.word == y.word && r.threads[t] == Thread(Exclusive(y.nextSid), Idle)
  {
    TwoSteps(y, DrainStart(t), DrainPoll(t));
    DrainBegins(y, t);
    BarrierLeaves(Apply(y, DrainStart(t)), t);
  }

  lemma DrainBegins(y: State, t: Tid)
    requires t in y.threads && y.threads[t].pc.Acquired?
    ensures var r := Apply(y, DrainStart(t));
      OnlyThread(y, r, t) && r.word == y.word && r.nextSid == y.nextSid
      && r.threads[t] == y.threads[t].(pc := Draining(y.threads[t].pc.start, y.word.epoch))
  {
  }

  lemma Releases(y: State, t: Tid)
    requires t in y.threads && y.threads[t].hold.Exclusive? && y.threads[t].pc.Idle?
    ensures var r := Apply(y, ReleaseExclusive(t)); OnlyThread(y, r, t) && r.word == y.word.(exclusive := false) && r.threads[t] == Thread(Outside, Idle)
  {
  }

  // -------------------------------------------------------- handing over

  /** defer alone, while somebody reads: the work is last in the list of the
      greatest epoch that a reader is in. */
  lemma DeferAlone(s: State, before: seq<Action>, t: Tid) returns (key: int)
    requires Init(s) && t in Exec(s, before).threads && Exec(s, before).threads[t].pc.Idle? && Exec(s, before).lock.None? && !Empty(Exec(s, before))
    ensures var z := Exec(s, before); var y := Exec(Exec(z, [Defer(t), LockDefer(t)]), [Recheck(t), Insert(t)]);
      && Latest(z, key) && y.entries == z.entries[key := ListAt(z.entries, key) + [|z.guards|]]
      && t in y.threads && y.threads[t] == z.threads[t] && y.lock.None? && y.word == z.word && y.ran == z.ran
  {
    var z := Exec(s, before);
    assert EpochInv(z) by { InvRun(s, before); }
    DeferTakes(z, t);
    var pc := Apply(z, Defer(t)).threads[t].pc;
    key := pc.key;
    NotYetVisible(z, key);
    Snaps(z, t, key);
    Inserts(Exec(z, [Defer(t), LockDefer(t)]), t, |z.guards|, key);
  }

  lemma NotYetVisible(z: State, key: int)
    requires PlacedInv(z) && CountInv(z) && Latest(z, key)
    ensures !RunNow(z.word, key)
  {
    ReadersLive(z);
    var u :| Reading(z, u) && z.threads[u].hold.epoch == key;
    assert Live(z.word, key);
  }

  lemma Snaps(z: State, t: Tid, key: int)
    requires t in z.threads && z.threads[t].pc.Idle? && z.lock.None? && Apply(z, Defer(t)).threads[t].pc == Snapped(|z.guards|, key)
    ensures var y := Exec(z, [Defer(t), LockDefer(t)]);
      && y.entries == z.entries && y.word == z.word && y.ran == z.ran && y.lock == Some(t)
      && t in y.threads && y.threads[t] == z.threads[t].(pc := Locked(|z.guards|, key))
  {
    TwoSteps(z, Defer(t), LockDefer(t));
    DeferIs(z, t);
    TakesLock(Apply(z, Defer(t)), t);
  }

  lemma DeferIs(z: State, t: Tid)
    requires t in z.threads && z.threads[t].pc.Idle?
    ensures var y := Apply(z, Defer(t));
      && y.entries == z.entries && y.word == z.word && y.ran == z.ran && y.lock == z.lock
      && t in y.threads && y.threads[t].hold == z.threads[t].hold
  {
  }

  lemma TakesLock(y: State, t: Tid)
    requires t in y.threads && y.threads[t].pc.Snapped? && y.lock.None?
    ensures var r := Apply(y, LockDefer(t));
      && r.entries == y.entries && r.word == y.word && r.ran == y.ran && r.lock == Some(t)
      && t in r.threads && r.threads[t] == y.threads[t].(pc := Locked(y.threads[t].pc.item, y.threads[t].pc.key))
  {
  }

  lemma Inserts(y: State, t: Tid, i: Item, key: int)
    requires t in y.threads && y.threads[t].pc == Locked(i, key) && !RunNow(y.word, key)
    ensures var r := Exec(y, [Recheck(t), Insert(t)]);
      && r.entries == y.entries[key := ListAt(y.entries, key) + [i]] && r.word == y.word && r.ran == y.ran && r.lock.None?
      && t in r.threads && r.threads[t] == y.threads[t].(pc := Idle)
  {
    TwoSteps(y, Recheck(t), Insert(t));
    Rechecks(y, t);
    InsertsOne(Apply(y, Recheck(t)), t);
  }

  lemma Rechecks(y: State, t: Tid)
    requires t in y.threads && y.threads[t].pc.Locked? && !RunNow(y.word, y.threads[t].pc.key)
    ensures var r := Apply(y, Recheck(t));
      && r.entries == y.entries && r.word == y.word && r.ran == y.ran
      && t in r.threads && r.threads[t] == y.threads[t].(pc := Inserting(y.threads[t].pc.item, y.threads[t].pc.key))
  {
  }

  lemma InsertsOne(y: State, t: Tid)
    requires t in y.threads && y.threads[t].pc.Inserting?
    ensures var r := Apply(y, Insert(t)); var pc := y.threads[t].pc;
      && r.entries == y.entries[pc.key := ListAt(y.entries, pc.key) + [pc.item]] && r.word == y.word && r.ran == y.ran && r.lock.None?
      && t in r.threads && r.threads[t] == y.threads[t].(pc := Idle)
  {
  }
}
