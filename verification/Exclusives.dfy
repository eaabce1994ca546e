/** What an exclusive section keeps alive: nothing.  Its holder is in neither
    reader count (arch/gc_lock.cc:625-711), so deferred work and visibleBarrier
    do not wait for it, nor for the shared locks taken inside it, which only
    count in the thread's own entry. */
module Exclusives {
  import opened GcWord
  import opened GcProtocol
  import opened GcTheorems

  /** Sections of threads other than `t`, shared or exclusive. */
  function OpenByOthers(s: State, t: Tid): set<Sid> {
    set u | u in s.threads && u != t && !s.threads[u].hold.Outside? :: s.threads[u].hold.sid
  }

  predicate Owned(s: State, u: Tid) {
    u in s.threads && s.threads[u].hold.Exclusive?
  }

  lemma TwoSteps(s: State, a: Action, b: Action)
    ensures Exec(s, [a, b]) == Apply(Apply(s, a), b)
  {
    ExecSnoc(s, [], a);
    ExecSnoc(s, [a], b);
    assert [] + [a] == [a] && [a] + [b] == [a, b];
  }

  /** While somebody holds the lock exclusively, nobody is counted. */
  lemma NobodyCounted(z: State, u: Tid)
    requires EpochInv(z) && ExclusiveInv(z) && Owned(z, u)
    ensures !AnyInCurrent(z.word) && !AnyInOld(z.word)
  {
    assert Empty(z);
    forall e ensures Readers(z, e) == {} {}
  }

  lemma InlineAtOnce(x: State, t: Tid)
    requires t in x.threads && x.threads[t].pc.Idle? && !AnyInCurrent(x.word) && !AnyInOld(x.word)
    ensures var y := Apply(x, Defer(t)); t in y.threads && y.threads[t] == x.threads[t].(pc := Inline(|x.guards|))
    ensures var y := Apply(x, Defer(t)); y.ran == x.ran && y.tore == x.tore && forall u :: u in x.threads && u != t ==> u in y.threads && y.threads[u] == x.threads[u]
  {
  }

  lemma InlineRuns(y: State, t: Tid)
    requires t in y.threads && y.threads[t].pc.Inline?
    ensures var z := Apply(y, RunInline(t));
      z.ran == y.ran + [y.threads[t].pc.item] && z.tore == y.tore && forall u :: u in y.threads && u != t ==> u in z.threads && z.threads[u] == y.threads[u]
  {
  }

  /** Work handed over while another thread is in an exclusive section is run at
      once: in the very next step of the thread that hands it over, with the
      section open. */
  lemma RunsAtOnce(s: State, before: seq<Action>, t: Tid, u: Tid)
    requires Init(s) && Owned(Exec(s, before), u) && t in Exec(s, before).threads && u != t && Exec(s, before).threads[t].pc.Idle?
    ensures var x, z := Exec(s, before), Exec(s, before + [Defer(t)] + [RunInline(t)]);
      && z.ran == x.ran + [|x.guards|] && z.tore == x.tore
      && u in z.threads && z.threads[u] == x.threads[u] && x.threads[u].hold.sid in Open(z)
  {
    var x := Exec(s, before);
    OnFrom(s, before, [Defer(t)], [RunInline(t)]);
    assert [Defer(t)] + [RunInline(t)] == [Defer(t), RunInline(t)];
    TwoSteps(x, Defer(t), RunInline(t));
    assert EpochInv(x) && ExclusiveInv(x) by { InvRun(s, before); }
    NobodyCounted(x, u);
    InlineAtOnce(x, t);
    InlineRuns(Apply(x, Defer(t)), t);
    var z := Apply(Apply(x, Defer(t)), RunInline(t));
    assert Inside(z, u);
  }

  /** doDefer's invariant as the code states it, about every critical section of
      another thread: at a given moment of a given run it holds, whatever happens
      afterwards without a torn test, exactly when no other thread holds the lock
      exclusively. */
  lemma KeptExactly(s: State, before: seq<Action>, t: Tid)
    requires Init(s) && t in Exec(s, before).threads && Exec(s, before).threads[t].pc.Idle? && !Exec(s, before).tore
    ensures var x := Exec(s, before);
      (forall after :: KeptBy(s, before, t, after)) <==> forall u :: u != t ==> !Owned(x, u)
  {
    if u :| u != t && Owned(Exec(s, before), u) {
      NotKept(s, before, t, u);
    } else {
      OthersAreShared(Exec(s, before), t);
      forall after ensures KeptBy(s, before, t, after) { GracePeriod(s, before, t, after); }
    }
  }

  lemma NotKept(s: State, before: seq<Action>, t: Tid, u: Tid)
    requires Init(s) && Owned(Exec(s, before), u) && t in Exec(s, before).threads && u != t && Exec(s, before).threads[t].pc.Idle?
    requires !Exec(s, before).tore
    ensures !KeptBy(s, before, t, [RunInline(t)])
  {
    RunsAtOnce(s, before, t, u);
    assert Exec(s, before).threads[u].hold.sid in OpenByOthers(Exec(s, before), t);
  }

  /** If the work has been run when `after` is over, the sections that others had
      open when it was handed over are closed. */
  ghost predicate KeptBy(s: State, before: seq<Action>, t: Tid, after: seq<Action>) {
    var x, z := Exec(s, before), Exec(s, before + [Defer(t)] + after);
    !z.tore && |x.guards| in z.ran ==> OpenByOthers(x, t) !! Open(z)
  }

  lemma OthersAreShared(x: State, t: Tid)
    requires forall u :: u != t ==> !Owned(x, u)
    ensures OpenByOthers(x, t) <= OpenShared(x)
  {
    forall sid | sid in OpenByOthers(x, t) ensures sid in OpenShared(x) {
      var u :| u in x.threads && u != t && !x.threads[u].hold.Outside? && x.threads[u].hold.sid == sid;
      assert !Owned(x, u);
    }
  }

  /** The same of visibleBarrier: it waits for every section that is open when it
      begins, whatever the others do, exactly when none of them is exclusive. */
  lemma BarrierExactly(s: State, before: seq<Action>, t: Tid)
    requires Init(s) && t in Exec(s, before).threads && Exec(s, before).threads[t] == Thread(Outside, Idle)
    ensures var x := Exec(s, before);
      (forall others :: WithoutStepsOf(others, t) ==> WaitedFor(s, before, t, others)) <==> forall u :: !Owned(x, u)
  {
    var x := Exec(s, before);
    if u :| Owned(x, u) {
      PassesAtOnce(s, before, t, u);
      assert x.threads[u].hold.sid in Open(x);
      assert !WaitedFor(s, before, t, []);
    } else {
      forall others | WithoutStepsOf(others, t) ensures WaitedFor(s, before, t, others) {
        BarrierWaits(s, before, t, others);
        assert Open(x) <= OpenShared(x) by { OthersAreShared(x, t); }
      }
    }
  }

  predicate WithoutStepsOf(others: seq<Action>, t: Tid) {
    forall i :: 0 <= i < |others| ==> others[i].t != t
  }

  /** If the loop may be left after `others`, the sections that were open when it
      was begun are closed. */
  ghost predicate WaitedFor(s: State, before: seq<Action>, t: Tid, others: seq<Action>) {
    var x, z := Exec(s, before), Exec(s, before + [BarrierStart(t)] + others);
    BarrierOpen(z.word, x.word.epoch) ==> Open(x) !! Open(z)
  }

  lemma PassesAtOnce(s: State, before: seq<Action>, t: Tid, u: Tid)
    requires Init(s) && Owned(Exec(s, before), u) && t in Exec(s, before).threads && Exec(s, before).threads[t] == Thread(Outside, Idle)
    ensures var x, z := Exec(s, before), Exec(s, before + [BarrierStart(t)] + []);
      BarrierOpen(z.word, x.word.epoch) && x.threads[u].hold.sid in Open(z)
  {
    var x := Exec(s, before);
    assert before + [BarrierStart(t)] + [] == before + [BarrierStart(t)];
    ExecSnoc(s, before, BarrierStart(t));
    assert EpochInv(x) && ExclusiveInv(x) by { InvRun(s, before); }
    NobodyCounted(x, u);
    BarrierFinds(x, t);
    assert Inside(Apply(x, BarrierStart(t)), u);
  }

  lemma BarrierFinds(x: State, t: Tid)
    requires t in x.threads && x.threads[t] == Thread(Outside, Idle)
    ensures var y := Apply(x, BarrierStart(t)); y.word == x.word && forall u :: u in x.threads && u != t ==> u in y.threads && y.threads[u] == x.threads[u]
  {
  }

  // ---------------------------------------------------------- a whole run

  const OUT := Thread(Outside, Idle)
  const LOCK0 := [LoadExclusive(0), CasExclusive(0)]
  const WAIT0 := [DrainStart(0), DrainPoll(0)]

  /** Two threads, at any epoch. */
  function Fresh(e: int): State {
    State(Word(e, 0, 0, false), map[0 := OUT, 1 := OUT], None, map[], [], 0, [], [], false, false, false)
  }

  lemma FreshIsInit(e: int)
    ensures Init(Fresh(e))
  {
  }

  function Held(e: int, pc: Pc): State {
    Fresh(e).(word := Word(e, 0, 0, true), threads := map[0 := Thread(Outside, pc), 1 := OUT])
  }

  function Taken(e: int): State {
    Held(e, Idle).(threads := map[0 := Thread(Exclusive(0), Idle), 1 := OUT], nextSid := 1)
  }

  lemma Takes(e: int)
    ensures Exec(Fresh(e), LOCK0) == Held(e, Acquired(e))
  {
    TwoSteps(Fresh(e), LoadExclusive(0), CasExclusive(0));
    var s1 := Fresh(e).(threads := map[0 := Thread(Outside, Acquiring(Word(e, 0, 0, false))), 1 := OUT]);
    assert Apply(Fresh(e), LoadExclusive(0)).threads == s1.threads;
    assert Apply(s1, CasExclusive(0)).threads == Held(e, Acquired(e)).threads;
  }

  lemma Waits(e: int)
    ensures Exec(Held(e, Acquired(e)), WAIT0) == Taken(e)
  {
    TwoSteps(Held(e, Acquired(e)), DrainStart(0), DrainPoll(0));
    var s1 := Held(e, Draining(e, e));
    assert Apply(Held(e, Acquired(e)), DrainStart(0)).threads == s1.threads;
    assert Apply(s1, DrainPoll(0)).threads == Taken(e).threads;
  }

  /** From any epoch: thread 0 takes the lock exclusively, thread 1 hands work over
      and runs it, and thread 0's section, which the work must outlast, is open. */
  lemma ExclusiveIsOverlooked(e: int)
    ensures Init(Fresh(e))
    ensures var x, z := Exec(Fresh(e), LOCK0 + WAIT0), Exec(Fresh(e), (LOCK0 + WAIT0) + [Defer(1)] + [RunInline(1)]);
      && 0 in x.threads && x.threads[0] == Thread(Exclusive(0), Idle) && 0 in OpenByOthers(x, 1)
      && z.ran == [0] && 0 in Open(z) && !z.tore
  {
    FreshIsInit(e);
    ExecAppend(Fresh(e), LOCK0, WAIT0);
    Takes(e);
    Waits(e);
    RunsAtOnce(Fresh(e), LOCK0 + WAIT0, 1, 0);
  }
}
