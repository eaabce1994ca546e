/** runDefers while the others stand still (arch/gc_lock.cc:509-553): it takes the
    items under every key that is visible, and no others, and runs them. */
module GcWalk {
  import opened GcWord
  import opened GcProtocol
  import opened GcTheorems
  import opened GcWitnesses

  /** The entries above `v`. */
  function Above(entries: map<int, seq<Item>>, v: int): map<int, seq<Item>> {
    map k | k in entries && k > v :: entries[k]
  }

  /** `batch` has what `first` has, and the items under keys up to `v`. */
  ghost predicate Takes(batch: seq<Item>, first: seq<Item>, entries: map<int, seq<Item>>, v: int) {
    forall i :: i in batch <==> i in first || exists k :: k in entries && k <= v && i in entries[k]
  }

  predicate StepsOf(run: seq<Action>, t: Tid) {
    forall i :: 0 <= i < |run| ==> run[i].t == t
  }

  lemma {:induction false} LooksAreSteps(t: Tid, n: nat)
    ensures StepsOf(Looks(t, n), t)
  {
    if n > 0 { LooksAreSteps(t, n - 1); }
  }

  lemma StepsAppend(p: seq<Action>, q: seq<Action>, t: Tid)
    requires StepsOf(p, t) && StepsOf(q, t)
    ensures StepsOf(p + q, t)
  {
  }

  /** Thread `t` is at `pc`, with these entries; the word and the callbacks made are
      as in `s`. */
  predicate At(s: State, z: State, t: Tid, pc: Pc, entries: map<int, seq<Item>>) {
    && t in z.threads && z.threads[t].pc == pc && z.entries == entries && z.word == s.word && z.ran == s.ran
    && z.strayed == s.strayed
  }

  lemma LooksSeven(s: State, t: Tid, batch: seq<Item>, inner: bool)
    requires t in s.threads && s.threads[t].pc == Checking(batch, inner, [])
    ensures At(s, Exec(s, Looks(t, 7)), t, Checking(batch, inner, Repeat(s.word, 7)), s.entries)
  {
    LooksAll(s, t, 7);
    assert [] + Repeat(s.word, 7) == Repeat(s.word, 7);
  }

  lemma Pops(s: State, t: Tid, batch: seq<Item>, loads: seq<Word>, key: int)
    requires t in s.threads && s.threads[t].pc == Checking(batch, true, loads) && |loads| == 7
    requires Front(key, s.entries) && key <= TornVisible(loads)
    ensures At(s, Apply(s, CheckPop(t, key)), t, Checking(batch + s.entries[key], true, []), s.entries - {key})
  {
  }

  lemma Breaks(s: State, t: Tid, batch: seq<Item>, loads: seq<Word>)
    requires t in s.threads && s.threads[t].pc == Checking(batch, true, loads) && NothingVisible(s.entries, loads)
    ensures At(s, Apply(s, CheckBreak(t)), t, Checking(batch, false, []), s.entries)
  {
  }

  lemma GoesIn(s: State, t: Tid, batch: seq<Item>, loads: seq<Word>)
    requires t in s.threads && s.threads[t].pc == Checking(batch, false, loads) && |loads| == 7 && !NothingVisible(s.entries, loads)
    ensures At(s, Apply(s, CheckEnter(t)), t, Checking(batch, true, []), s.entries)
  {
  }

  lemma Ends(s: State, t: Tid, batch: seq<Item>, loads: seq<Word>)
    requires t in s.threads && s.threads[t].pc == Checking(batch, false, loads) && NothingVisible(s.entries, loads) && EpochOrder(s.entries)
    ensures At(s, Apply(s, CheckDone(t)), t, Running(batch), s.entries) && Apply(s, CheckDone(t)).lock.None?
  {
  }

  /** In epoch order the first key is the least. */
  lemma FrontIsLeast(entries: map<int, seq<Item>>, key: int)
    requires EpochOrder(entries) && Front(key, entries)
    ensures forall k :: k in entries ==> key <= k
  {
    forall k | k in entries ensures key <= k { assert k < key ==> SignedImage(k) < SignedImage(key); }
  }

  lemma LessOrder(entries: map<int, seq<Item>>, key: int)
    requires EpochOrder(entries)
    ensures EpochOrder(entries - {key})
  {
    var less := entries - {key};
    forall a, b | a in less && b in less && a < b ensures SignedImage(a) < SignedImage(b) {
      assert a in entries && b in entries;
    }
  }

  /** What popping the first key leaves to do. */
  lemma TakesFirst(batch: seq<Item>, first: seq<Item>, entries: map<int, seq<Item>>, key: int, v: int)
    requires key in entries && key <= v && Takes(batch, first + entries[key], entries - {key}, v)
    ensures Takes(batch, first, entries, v) && Above(entries - {key}, v) == Above(entries, v)
  {
    var less := entries - {key};
    forall i ensures i in batch <==> i in first || exists k :: k in entries && k <= v && i in entries[k] {
      if k :| k in less && k <= v && i in less[k] { assert k in entries && entries[k] == less[k]; }
      if k :| k in entries && k <= v && i in entries[k] { assert k != key ==> k in less && less[k] == entries[k]; }
    }
  }

  lemma TakesNothing(batch: seq<Item>, entries: map<int, seq<Item>>, v: int)
    requires forall k :: k in entries ==> k > v
    ensures Takes(batch, batch, entries, v) && Above(entries, v) == entries
  {
  }

  /** The inner loop. */
  lemma {:induction false} InnerLoop(s: State, t: Tid, batch: seq<Item>) returns (run: seq<Action>, batch': seq<Item>)
    requires t in s.threads && s.threads[t].pc == Checking(batch, true, []) && EpochOrder(s.entries)
    ensures var v := VisibleEpoch(s.word);
      StepsOf(run, t) && Takes(batch', batch, s.entries, v) && At(s, Exec(s, run), t, Checking(batch', false, []), Above(s.entries, v))
    decreases |s.entries|
  {
    var v := VisibleEpoch(s.word);
    if FrontAbove(s.entries, v) {
      run, batch' := Looks(t, 7) + [CheckBreak(t)], batch;
      BreakStretch(s, t, batch);
      AllAbove(s.entries, v);
      TakesNothing(batch, s.entries, v);
    } else {
      var key :| key in s.entries && Front(key, s.entries) && key <= v;
      PopStretch(s, t, batch, key);
      var y := Exec(s, Looks(t, 7) + [CheckPop(t, key)]);
      LessOrder(s.entries, key);
      FewerEntries(s.entries, key);
      var rest;
      rest, batch' := InnerLoop(y, t, batch + s.entries[key]);
      run := Looks(t, 7) + [CheckPop(t, key)] + rest;
      ExecAppend(s, Looks(t, 7) + [CheckPop(t, key)], rest);
      StepsAppend(Looks(t, 7) + [CheckPop(t, key)], rest, t);
      TakesFirst(batch', batch, s.entries, key, v);
    }
  }

  /** A test of the inner loop that finds the first key visible, or does not. */
  lemma PopStretch(s: State, t: Tid, batch: seq<Item>, key: int)
    requires t in s.threads && s.threads[t].pc == Checking(batch, true, []) && Front(key, s.entries) && key <= VisibleEpoch(s.word)
    ensures At(s, Exec(s, Looks(t, 7) + [CheckPop(t, key)]), t, Checking(batch + s.entries[key], true, []), s.entries - {key})
    ensures StepsOf(Looks(t, 7) + [CheckPop(t, key)], t)
  {
    LooksSeven(s, t, batch, true);
    LooksAreSteps(t, 7);
    SteadyLoads(s.word);
    ExecSnoc(s, Looks(t, 7), CheckPop(t, key));
    Pops(Exec(s, Looks(t, 7)), t, batch, Repeat(s.word, 7), key);
  }

  lemma BreakStretch(s: State, t: Tid, batch: seq<Item>)
    requires t in s.threads && s.threads[t].pc == Checking(batch, true, []) && FrontAbove(s.entries, VisibleEpoch(s.word))
    ensures At(s, Exec(s, Looks(t, 7) + [CheckBreak(t)]), t, Checking(batch, false, []), s.entries)
    ensures StepsOf(Looks(t, 7) + [CheckBreak(t)], t)
  {
    LooksSeven(s, t, batch, true);
    LooksAreSteps(t, 7);
    SteadyLoads(s.word);
    ExecSnoc(s, Looks(t, 7), CheckBreak(t));
    Breaks(Exec(s, Looks(t, 7)), t, batch, Repeat(s.word, 7));
  }

  lemma FewerEntries(entries: map<int, seq<Item>>, key: int)
    requires key in entries
    ensures |entries - {key}| < |entries|
  {
    assert entries == (entries - {key})[key := entries[key]];
  }

  lemma AllAbove(entries: map<int, seq<Item>>, v: int)
    requires EpochOrder(entries) && FrontAbove(entries, v)
    ensures forall k :: k in entries ==> k > v
  {
    if entries != map[] {
      FrontExists(entries);
      var key :| Front(key, entries);
      FrontIsLeast(entries, key);
    }
  }

  /** checkDefers, from the spinlock to its end. */
  lemma Walk(s: State, t: Tid) returns (run: seq<Action>, batch: seq<Item>)
    requires t in s.threads && s.threads[t] == Thread(Outside, Owing) && s.lock.None? && EpochOrder(s.entries)
    ensures var v := VisibleEpoch(s.word); var z := Exec(s, run);
      StepsOf(run, t) && Takes(batch, [], s.entries, v) && At(s, z, t, Running(batch), Above(s.entries, v)) && z.lock.None?
  {
    var v := VisibleEpoch(s.word);
    if FrontAbove(s.entries, v) {
      run, batch := Begin(t) + [CheckDone(t)], [];
      EndsAtOnce(s, t);
      AllAbove(s.entries, v);
      TakesNothing([], s.entries, v);
    } else {
      EntersInner(s, t);
      var inner;
      inner, batch := InnerLoop(Exec(s, Begin(t) + [CheckEnter(t)]), t, []);
      run := WalkOf(t, inner);
      WalkIs(s, t, inner);
      WalkSteps(t, inner);
      OuterEnds(s, Exec(Exec(s, Begin(t) + [CheckEnter(t)]), inner), t, batch, v);
    }
  }

  function WalkOf(t: Tid, inner: seq<Action>): seq<Action> {
    Begin(t) + [CheckEnter(t)] + inner + (Looks(t, 7) + [CheckDone(t)])
  }

  lemma WalkIs(s: State, t: Tid, inner: seq<Action>)
    ensures Exec(s, WalkOf(t, inner)) == Exec(Exec(Exec(s, Begin(t) + [CheckEnter(t)]), inner), Looks(t, 7) + [CheckDone(t)])
  {
    ThreeStretches(s, Begin(t) + [CheckEnter(t)], inner, Looks(t, 7) + [CheckDone(t)]);
  }

  lemma ThreeStretches(s: State, p: seq<Action>, q: seq<Action>, r: seq<Action>)
    ensures Exec(s, p + q + r) == Exec(Exec(Exec(s, p), q), r)
  {
    ExecAppend(s, p, q);
    ExecAppend(s, p + q, r);
  }

  lemma WalkSteps(t: Tid, inner: seq<Action>)
    requires StepsOf(inner, t)
    ensures StepsOf(WalkOf(t, inner), t)
  {
    LooksAreSteps(t, 7);
  }

  lemma EndsAtOnce(s: State, t: Tid)
    requires t in s.threads && s.threads[t] == Thread(Outside, Owing) && s.lock.None? && EpochOrder(s.entries)
    requires FrontAbove(s.entries, VisibleEpoch(s.word))
    ensures var z := Exec(s, Begin(t) + [CheckDone(t)]); At(s, z, t, Running([]), s.entries) && z.lock.None?
    ensures StepsOf(Begin(t) + [CheckDone(t)], t)
  {
    WalkBegins(s, t);
    SteadyLoads(s.word);
    LooksAreSteps(t, 7);
    ExecSnoc(s, Begin(t), CheckDone(t));
    Ends(Exec(s, Begin(t)), t, [], Repeat(s.word, 7));
  }

  lemma EntersInner(s: State, t: Tid)
    requires t in s.threads && s.threads[t] == Thread(Outside, Owing) && s.lock.None? && !FrontAbove(s.entries, VisibleEpoch(s.word))
    ensures At(s, Exec(s, Begin(t) + [CheckEnter(t)]), t, Checking([], true, []), s.entries)
  {
    WalkBegins(s, t);
    SteadyLoads(s.word);
    ExecSnoc(s, Begin(t), CheckEnter(t));
    assert !NothingVisible(s.entries, Repeat(s.word, 7));
    GoesIn(Exec(s, Begin(t)), t, [], Repeat(s.word, 7));
  }

  /** The outer test after the inner loop. */
  lemma OuterEnds(s: State, y: State, t: Tid, batch: seq<Item>, v: int)
    requires EpochOrder(s.entries) && v == VisibleEpoch(s.word) && At(s, y, t, Checking(batch, false, []), Above(s.entries, v))
    ensures var z := Exec(y, Looks(t, 7) + [CheckDone(t)]); At(s, z, t, Running(batch), Above(s.entries, v)) && z.lock.None?
  {
    LooksSeven(y, t, batch, false);
    SteadyLoads(y.word);
    ExecSnoc(y, Looks(t, 7), CheckDone(t));
    assert FrontAbove(Above(s.entries, v), v);
    assert EpochOrder(Above(s.entries, v)) by {
      forall a, b | a in Above(s.entries, v) && b in Above(s.entries, v) && a < b ensures SignedImage(a) < SignedImage(b) {
        assert a in s.entries && b in s.entries;
      }
    }
    Ends(Exec(y, Looks(t, 7)), t, batch, Repeat(y.word, 7));
  }

  function RunAll(t: Tid, n: nat): seq<Action> {
    if n == 0 then [] else RunAll(t, n - 1) + [RunOne(t)]
  }

  lemma {:induction false} RunAllSteps(t: Tid, n: nat)
    ensures StepsOf(RunAll(t, n), t)
  {
    if n > 0 { RunAllSteps(t, n - 1); }
  }

  /** The first `n` of the batch have been run since `s`. */
  predicate HasRun(s: State, z: State, t: Tid, batch: seq<Item>, n: nat)
    requires n <= |batch|
  {
    && t in z.threads && z.threads[t].pc == Running(batch[n..]) && z.ran == s.ran + batch[..n]
    && z.entries == s.entries && z.lock == s.lock
  }

  lemma NoneRun(s: State, t: Tid, batch: seq<Item>)
    requires t in s.threads && s.threads[t].pc == Running(batch)
    ensures HasRun(s, s, t, batch, 0) && Exec(s, RunAll(t, 0)) == s
  {
    assert s.ran + batch[..0] == s.ran && batch[0..] == batch;
  }

  /** The callbacks, in the order of the batch. */
  lemma {:induction false} RunsBatch(s: State, t: Tid, batch: seq<Item>, n: nat)
    requires t in s.threads && s.threads[t].pc == Running(batch) && n <= |batch|
    ensures HasRun(s, Exec(s, RunAll(t, n)), t, batch, n)
  {
    if n == 0 {
      NoneRun(s, t, batch);
    } else {
      RunsBatch(s, t, batch, n - 1);
      ExecSnoc(s, RunAll(t, n - 1), RunOne(t));
      RunsNext(s, Exec(s, RunAll(t, n - 1)), t, batch, n - 1);
    }
  }

  lemma RunsNext(s: State, y: State, t: Tid, batch: seq<Item>, n: nat)
    requires n < |batch| && HasRun(s, y, t, batch, n)
    ensures HasRun(s, Apply(y, RunOne(t)), t, batch, n + 1)
  {
    assert batch[n..][1..] == batch[n + 1..] && batch[..n] + [batch[n]] == batch[..n + 1];
    assert s.ran + batch[..n] + [batch[n]] == s.ran + batch[..n + 1];
  }

  /** A test of either loop has one outcome: at the inner one a key is popped or the
      loop left, never both, and nothing else; and at the outer one likewise. */
  lemma OneOutcome(s: State, t: Tid, key: int)
    requires t in s.threads && s.threads[t].pc.Checking?
    ensures var pops, breaks := Apply(s, CheckPop(t, key)) != s, Apply(s, CheckBreak(t)) != s;
      !(pops && breaks) && (!s.threads[t].pc.inner ==> !pops && !breaks)
    ensures var enters, ends := Apply(s, CheckEnter(t)) != s, Apply(s, CheckDone(t)) != s;
      !(enters && ends) && (s.threads[t].pc.inner ==> !enters && !ends)
    ensures Apply(s, CheckPop(t, key)) != s ==> key in s.entries && forall k :: k in s.entries ==> SignedImage(key) <= SignedImage(k)
  {
    StayedPut(s, t);
    PopMoves(s, t, key);
    BreakMoves(s, t);
    EnterMoves(s, t);
    DoneMoves(s, t);
  }

  lemma StayedPut(s: State, t: Tid)
    requires t in s.threads
    ensures Commit(s, t, Stays(s, t)) == s
  {
    assert s.threads[t := s.threads[t]] == s.threads;
  }

  lemma PopMoves(s: State, t: Tid, key: int)
    requires t in s.threads && s.threads[t].pc.Checking? && Commit(s, t, Stays(s, t)) == s
    ensures Apply(s, CheckPop(t, key)) != s ==>
              s.threads[t].pc.inner && !NothingVisible(s.entries, s.threads[t].pc.loads) && Front(key, s.entries)
  {
  }

  lemma BreakMoves(s: State, t: Tid)
    requires t in s.threads && s.threads[t].pc.Checking? && Commit(s, t, Stays(s, t)) == s
    ensures Apply(s, CheckBreak(t)) != s ==> s.threads[t].pc.inner && NothingVisible(s.entries, s.threads[t].pc.loads)
  {
  }

  lemma EnterMoves(s: State, t: Tid)
    requires t in s.threads && s.threads[t].pc.Checking? && Commit(s, t, Stays(s, t)) == s
    ensures Apply(s, CheckEnter(t)) != s ==> !s.threads[t].pc.inner && !NothingVisible(s.entries, s.threads[t].pc.loads)
  {
  }

  lemma DoneMoves(s: State, t: Tid)
    requires t in s.threads && s.threads[t].pc.Checking? && Commit(s, t, Stays(s, t)) == s
    ensures Apply(s, CheckDone(t)) != s ==> !s.threads[t].pc.inner && NothingVisible(s.entries, s.threads[t].pc.loads)
  {
  }

  /** runDefers alone, with the map in epoch order: every item under a visible key
      is run, once each and nothing else, and every other stays where it is. */
  lemma RunDefersAlone(s: State, before: seq<Action>, t: Tid) returns (run: seq<Action>, batch: seq<Item>)
    requires Init(s) && t in Exec(s, before).threads && Exec(s, before).threads[t] == Thread(Outside, Owing)
    requires Exec(s, before).lock.None? && EpochOrder(Exec(s, before).entries)
    ensures var z := Exec(s, before); var v := VisibleEpoch(z.word); var y := Exec(z, run);
      && StepsOf(run, t) && Takes(batch, [], z.entries, v) && NoDup(batch)
      && y.entries == Above(z.entries, v) && y.ran == z.ran + batch && y.lock.None?
      && t in y.threads && y.threads[t].pc.Idle?
  {
    var z := Exec(s, before);
    var walk;
    walk, batch := Walk(z, t);
    ExecAppend(s, before, walk);
    OnceEach(s, before + walk, t, batch);
    run := walk + RunAll(t, |batch|) + [RunEnd(t)];
    ThreeStretches(z, walk, RunAll(t, |batch|), [RunEnd(t)]);
    Callbacks(Exec(z, walk), t, batch);
    StepsAppend(walk, RunAll(t, |batch|), t);
    StepsAppend(walk + RunAll(t, |batch|), [RunEnd(t)], t);
  }

  lemma OnceEach(s: State, run: seq<Action>, t: Tid, batch: seq<Item>)
    requires Init(s) && t in Exec(s, run).threads && Exec(s, run).threads[t].pc == Running(batch)
    ensures NoDup(batch)
  {
    var w := Exec(s, run);
    assert HomeInv(w) by { InvRun(s, run); }
    assert Lists(BatchOf(w.threads[t].pc), w.home, Batch(t));
  }

  lemma Callbacks(w: State, t: Tid, batch: seq<Item>)
    requires t in w.threads && w.threads[t].pc == Running(batch)
    ensures var y := Exec(Exec(w, RunAll(t, |batch|)), [RunEnd(t)]);
      y.ran == w.ran + batch && y.entries == w.entries && y.lock == w.lock && t in y.threads && y.threads[t].pc.Idle?
    ensures StepsOf(RunAll(t, |batch|), t)
  {
    RunsBatch(w, t, batch, |batch|);
    RunAllSteps(t, |batch|);
    assert batch[|batch|..] == [] && batch[..|batch|] == batch;
    OneStep(Exec(w, RunAll(t, |batch|)), RunEnd(t));
    RunEnds(Exec(w, RunAll(t, |batch|)), t);
  }

  lemma RunEnds(s: State, t: Tid)
    requires t in s.threads && s.threads[t].pc == Running([])
    ensures var y := Apply(s, RunEnd(t)); t in y.threads && y.threads[t].pc.Idle? && y.entries == s.entries && y.ran == s.ran && y.lock == s.lock
  {
  }
}
