/** Runs of GcLock that show where its promises stop. */
module GcWitnesses {
  import opened GcWord
  import opened GcProtocol
  import opened GcTheorems

  // -------------------------------------------------------- loads of a test

  function Looks(t: Tid, n: nat): seq<Action> {
    if n == 0 then [] else Looks(t, n - 1) + [Look(t)]
  }

  function Repeat(w: Word, n: nat): seq<Word> {
    if n == 0 then [] else Repeat(w, n - 1) + [w]
  }

  lemma {:induction false} RepeatIs(w: Word, n: nat)
    ensures |Repeat(w, n)| == n && forall i :: 0 <= i < n ==> Repeat(w, n)[i] == w
  {
    if n > 0 { RepeatIs(w, n - 1); }
  }

  function WithLoads(s: State, t: Tid, loads: seq<Word>): State
    requires t in s.threads && s.threads[t].pc.Checking?
  {
    s.(threads := s.threads[t := s.threads[t].(pc := s.threads[t].pc.(loads := loads))])
  }

  /** `n` loads in a row. */
  lemma {:induction false} LooksAll(s: State, t: Tid, n: nat)
    requires t in s.threads && s.threads[t].pc.Checking? && |s.threads[t].pc.loads| + n <= 7
    ensures Exec(s, Looks(t, n)) == WithLoads(s, t, s.threads[t].pc.loads + Repeat(s.word, n))
  {
    var loads := s.threads[t].pc.loads;
    if n == 0 {
      assert loads + [] == loads && s.threads[t := s.threads[t]] == s.threads;
    } else {
      LooksAll(s, t, n - 1);
      RepeatIs(s.word, n - 1);
      ExecSnoc(s, Looks(t, n - 1), Look(t));
      assert loads + Repeat(s.word, n) == (loads + Repeat(s.word, n - 1)) + [s.word];
      OneLook(s, t, loads + Repeat(s.word, n - 1));
    }
  }

  lemma OneLook(s: State, t: Tid, loads: seq<Word>)
    requires t in s.threads && s.threads[t].pc.Checking? && |loads| < 7
    ensures Apply(WithLoads(s, t, loads), Look(t)) == WithLoads(s, t, loads + [s.word])
  {
    assert WithLoads(s, t, loads).threads[t := WithLoads(s, t, loads + [s.word]).threads[t]] == WithLoads(s, t, loads + [s.word]).threads;
  }

  // ------------------------------------------------ one entry tears a test

  /** The steps that tear an inner test: four loads, an entry, three loads. */
  function TearingRun(c: Tid, u: Tid, key: int): seq<Action> {
    Looks(c, 4) + [LoadEnter(u), CasEnter(u)] + Looks(c, 3) + [CheckPop(c, key)]
  }

  /** From any state in which a checker is at the start of an inner test, the
      first key is the current epoch, somebody is in that epoch and nobody in the
      one before, one entry by an idle thread is enough: the key is popped, and
      whoever the items had to outlast is still inside. */
  lemma EntrySuffices(s: State, c: Tid, u: Tid, r: Tid)
    requires c in s.threads && s.threads[c].pc.Checking? && s.threads[c].pc.inner && s.threads[c].pc.loads == []
    requires u in s.threads && s.threads[u] == Thread(Outside, Idle)
    requires AnyInCurrent(s.word) && !AnyInOld(s.word) && !s.word.exclusive && Front(s.word.epoch, s.entries) && Reading(s, r)
    ensures var z := Exec(s, TearingRun(c, u, s.word.epoch));
      && z.entries == s.entries - {s.word.epoch} && c in z.threads
      && z.threads[c] == s.threads[c].(pc := Checking(s.threads[c].pc.batch + s.entries[s.word.epoch], true, []))
      && Reading(z, r) && z.threads[r].hold == s.threads[r].hold && z.guards == s.guards && z.ran == s.ran
  {
    var before, e := Looks(c, 4) + [LoadEnter(u), CasEnter(u)] + Looks(c, 3), s.word.epoch;
    TornLoads(s, c, u);
    TornResult(s.word);
    ExecSnoc(s, before, CheckPop(c, e));
    PopsFront(Exec(s, before), c, e);
  }

  lemma TornResult(w: Word)
    requires AnyInCurrent(w) && !AnyInOld(w)
    ensures var loads := Repeat(w, 4) + Repeat(EnterWord(w), 3); |loads| == 7 && TornVisible(loads) == w.epoch
  {
    EnterIn(w);
    RepeatIs(w, 4);
    RepeatIs(EnterWord(w), 3);
  }

  lemma TornLoads(s: State, c: Tid, u: Tid)
    requires c in s.threads && s.threads[c].pc.Checking? && s.threads[c].pc.loads == []
    requires u in s.threads && s.threads[u] == Thread(Outside, Idle) && !s.word.exclusive
    ensures var z := Exec(s, Looks(c, 4) + [LoadEnter(u), CasEnter(u)] + Looks(c, 3));
      && c in z.threads && z.threads[c] == s.threads[c].(pc := s.threads[c].pc.(loads := Repeat(s.word, 4) + Repeat(EnterWord(s.word), 3)))
      && (forall t :: t in s.threads && t != u && t != c ==> t in z.threads && z.threads[t] == s.threads[t])
      && z.entries == s.entries && z.guards == s.guards && z.ran == s.ran
  {
    var s1 := Exec(s, Looks(c, 4));
    var s2 := Exec(s1, [LoadEnter(u), CasEnter(u)]);
    ExecAppend(s, Looks(c, 4), [LoadEnter(u), CasEnter(u)]);
    ExecAppend(s, Looks(c, 4) + [LoadEnter(u), CasEnter(u)], Looks(c, 3));
    RepeatIs(s.word, 4);
    LooksOn(s, c, 4);
    EntersWhileLooking(s1, c, u);
    LooksOn(s2, c, 3);
    assert [] + Repeat(s.word, 4) == Repeat(s.word, 4);
  }

  /** The same, without saying what the state is. */
  lemma LooksOn(s: State, c: Tid, n: nat)
    requires c in s.threads && s.threads[c].pc.Checking? && |s.threads[c].pc.loads| + n <= 7
    ensures var z := Exec(s, Looks(c, n));
      && z.threads.Keys == s.threads.Keys
      && z.threads[c] == s.threads[c].(pc := s.threads[c].pc.(loads := s.threads[c].pc.loads + Repeat(s.word, n)))
      && (forall t :: t in s.threads && t != c ==> z.threads[t] == s.threads[t])
      && z.word == s.word && z.entries == s.entries && z.guards == s.guards && z.ran == s.ran
  {
    LooksAll(s, c, n);
  }

  lemma EntersWhileLooking(s: State, c: Tid, u: Tid)
    requires c in s.threads && u in s.threads && u != c && s.threads[u] == Thread(Outside, Idle) && !s.word.exclusive
    ensures var z := Exec(s, [LoadEnter(u), CasEnter(u)]);
      && z.word == EnterWord(s.word) && z.threads.Keys == s.threads.Keys
      && (forall t :: t in s.threads && t != u ==> z.threads[t] == s.threads[t])
      && z.entries == s.entries && z.guards == s.guards && z.ran == s.ran
  {
    ExecSnoc(s, [], LoadEnter(u));
    ExecSnoc(s, [LoadEnter(u)], CasEnter(u));
    assert [] + [LoadEnter(u)] == [LoadEnter(u)] && [LoadEnter(u)] + [CasEnter(u)] == [LoadEnter(u), CasEnter(u)];
    var s1 := Apply(s, LoadEnter(u));
    assert s1.threads[u].pc == Entering(s.word) && s1.word == s.word;
  }

  lemma PopsFront(s: State, c: Tid, key: int)
    requires c in s.threads && s.threads[c].pc.Checking? && s.threads[c].pc.inner && |s.threads[c].pc.loads| == 7
    requires Front(key, s.entries) && key <= TornVisible(s.threads[c].pc.loads)
    ensures var z := Apply(s, CheckPop(c, key));
      && z.word == s.word && z.entries == s.entries - {key} && z.guards == s.guards && z.ran == s.ran
      && z.threads == s.threads[c := s.threads[c].(pc := Checking(s.threads[c].pc.batch + s.entries[key], true, []))]
  {
  }

  // --------------------------------------------------- two items in the queue

  const OUT := Thread(Outside, Idle)

  function Four(t0: Thread, t1: Thread, t2: Thread, t3: Thread): map<Tid, Thread> {
    map[0 := t0, 1 := t1, 2 := t2, 3 := t3]
  }

  /** A state with nobody in exclusively. */
  function At(w: Word, threads: map<Tid, Thread>, lock: Option<Tid>, entries: map<int, seq<Item>>, nextSid: Sid,
              guards: seq<set<Sid>>, home: seq<Home>): State {
    State(w, threads, lock, entries, [], nextSid, guards, home, false, false, false)
  }

  function Start(e: int): State {
    At(Word(e, 0, 0, false), Four(OUT, OUT, OUT, OUT), None, map[], 0, [], [])
  }

  function In0(e: int): Thread { Thread(Shared(1, e + 1, 0), Idle) }

  function In3(e: int): Thread { Thread(Shared(0, e + 2, 1), Idle) }

  lemma TwoSteps(s: State, a: Action, b: Action)
    ensures Exec(s, [a, b]) == Apply(Apply(s, a), b)
  {
    ExecSnoc(s, [], a);
    ExecSnoc(s, [a], b);
    assert [] + [a] == [a] && [a] + [b] == [a, b];
  }

  /** One thread moves on. */
  lemma SetFour(t0: Thread, t1: Thread, t2: Thread, t3: Thread, x: Thread)
    ensures Four(t0, t1, t2, t3)[0 := x] == Four(x, t1, t2, t3)
    ensures Four(t0, t1, t2, t3)[1 := x] == Four(t0, x, t2, t3)
    ensures Four(t0, t1, t2, t3)[2 := x] == Four(t0, t1, x, t3)
    ensures Four(t0, t1, t2, t3)[3 := x] == Four(t0, t1, t2, x)
  {
  }

  /** Thread 0 is about to enter, and has entered. */
  function Loaded0(e: int): State {
    Start(e).(threads := Four(Thread(Outside, Entering(Word(e, 0, 0, false))), OUT, OUT, OUT))
  }

  function First(e: int): State {
    At(Word(e + 1, 0, 1, false), Four(In0(e), OUT, OUT, OUT), None, map[], 1, [], [])
  }

  lemma Loads0(e: int)
    requires e % 2 == 0
    ensures Apply(Start(e), LoadEnter(0)) == Loaded0(e)
  {
    SetFour(OUT, OUT, OUT, OUT, Loaded0(e).threads[0]);
  }

  lemma Enters0(e: int)
    requires e % 2 == 0
    ensures Apply(Loaded0(e), CasEnter(0)) == First(e)
  {
    SetFour(Loaded0(e).threads[0], OUT, OUT, OUT, In0(e));
  }

  /** Thread 2 defers item 0, which must wait for thread 0. */
  function FirstSnapped(e: int): State {
    First(e).(threads := Four(In0(e), OUT, Thread(Outside, Snapped(0, e + 1)), OUT), guards := [{0}], home := [Hand(2)])
  }

  function FirstLocked(e: int): State {
    FirstSnapped(e).(threads := Four(In0(e), OUT, Thread(Outside, Locked(0, e + 1)), OUT), lock := Some(2))
  }

  function FirstChecked(e: int): State {
    FirstLocked(e).(threads := Four(In0(e), OUT, Thread(Outside, Inserting(0, e + 1)), OUT))
  }

  function FirstQueued(e: int): State {
    First(e).(entries := map[e + 1 := [0]], guards := [{0}], home := [Queued(e + 1)])
  }

  lemma Snaps0(e: int)
    requires e % 2 == 0
    ensures Apply(First(e), Defer(2)) == FirstSnapped(e)
  {
    SetFour(In0(e), OUT, OUT, OUT, FirstSnapped(e).threads[2]);
    assert First(e).threads[0].hold.sid == 0;
    assert Open(First(e)) == {0};
  }

  lemma Locks0(e: int)
    requires e % 2 == 0
    ensures Apply(FirstSnapped(e), LockDefer(2)) == FirstLocked(e)
  {
    SetFour(In0(e), OUT, FirstSnapped(e).threads[2], OUT, FirstLocked(e).threads[2]);
  }

  lemma Checks0(e: int)
    requires e % 2 == 0
    ensures Apply(FirstLocked(e), Recheck(2)) == FirstChecked(e)
  {
    SetFour(In0(e), OUT, FirstLocked(e).threads[2], OUT, FirstChecked(e).threads[2]);
  }

  lemma Queues0(e: int)
    requires e % 2 == 0
    ensures Apply(FirstChecked(e), Insert(2)) == FirstQueued(e)
  {
    SetFour(In0(e), OUT, FirstChecked(e).threads[2], OUT, OUT);
    assert Move([Hand(2)], [0], Queued(e + 1)) == [Queued(e + 1)];
    assert [] + [0] == [0];
  }

  /** Thread 3 enters the next epoch. */
  function Loaded3(e: int): State {
    FirstQueued(e).(threads := Four(In0(e), OUT, OUT, Thread(Outside, Entering(Word(e + 1, 0, 1, false)))))
  }

  function Second(e: int): State {
    FirstQueued(e).(word := Word(e + 2, 1, 1, false), threads := Four(In0(e), OUT, OUT, In3(e)), nextSid := 2)
  }

  lemma Loads3(e: int)
    requires e % 2 == 0
    ensures Apply(FirstQueued(e), LoadEnter(3)) == Loaded3(e)
  {
    SetFour(In0(e), OUT, OUT, OUT, Loaded3(e).threads[3]);
  }

  lemma Enters3(e: int)
    requires e % 2 == 0
    ensures Apply(Loaded3(e), CasEnter(3)) == Second(e)
  {
    SetFour(In0(e), OUT, OUT, Loaded3(e).threads[3], In3(e));
  }

  /** Thread 2 defers item 1, which must wait for both. */
  function SecondSnapped(e: int): State {
    Second(e).(threads := Four(In0(e), OUT, Thread(Outside, Snapped(1, e + 2)), In3(e)), guards := [{0}, {0, 1}], home := [Queued(e + 1), Hand(2)])
  }

  function SecondLocked(e: int): State {
    SecondSnapped(e).(threads := Four(In0(e), OUT, Thread(Outside, Locked(1, e + 2)), In3(e)), lock := Some(2))
  }

  function SecondChecked(e: int): State {
    SecondLocked(e).(threads := Four(In0(e), OUT, Thread(Outside, Inserting(1, e + 2)), In3(e)))
  }

  function SecondQueued(e: int): State {
    Second(e).(entries := map[e + 1 := [0], e + 2 := [1]], guards := [{0}, {0, 1}], home := [Queued(e + 1), Queued(e + 2)])
  }

  lemma Snaps1(e: int)
    requires e % 2 == 0
    ensures Apply(Second(e), Defer(2)) == SecondSnapped(e)
  {
    SetFour(In0(e), OUT, OUT, In3(e), SecondSnapped(e).threads[2]);
    assert Second(e).threads[0].hold.sid == 0 && Second(e).threads[3].hold.sid == 1;
    assert Open(Second(e)) == {0, 1};
  }

  lemma Locks1(e: int)
    requires e % 2 == 0
    ensures Apply(SecondSnapped(e), LockDefer(2)) == SecondLocked(e)
  {
    SetFour(In0(e), OUT, SecondSnapped(e).threads[2], In3(e), SecondLocked(e).threads[2]);
  }

  lemma Checks1(e: int)
    requires e % 2 == 0
    ensures Apply(SecondLocked(e), Recheck(2)) == SecondChecked(e)
  {
    SetFour(In0(e), OUT, SecondLocked(e).threads[2], In3(e), SecondChecked(e).threads[2]);
  }

  lemma Queues1(e: int)
    requires e % 2 == 0
    ensures Apply(SecondChecked(e), Insert(2)) == SecondQueued(e)
  {
    SetFour(In0(e), OUT, SecondChecked(e).threads[2], In3(e), OUT);
    assert Move([Queued(e + 1), Hand(2)], [1], Queued(e + 2)) == [Queued(e + 1), Queued(e + 2)];
    assert [] + [1] == [1];
  }

  /** Thread 0 leaves, and owes a walk. */
  function Loaded0Out(e: int): State {
    SecondQueued(e).(threads := Four(Thread(In0(e).hold, Exiting(Word(e + 2, 1, 1, false), true)), OUT, OUT, In3(e)))
  }

  function Left(e: int): State {
    SecondQueued(e).(word := Word(e + 2, 1, 0, false), threads := Four(Thread(Outside, Owing), OUT, OUT, In3(e)))
  }

  lemma LoadsOut0(e: int)
    requires e % 2 == 0
    ensures Apply(SecondQueued(e), LoadExit(0, true)) == Loaded0Out(e)
  {
    SetFour(In0(e), OUT, OUT, In3(e), Loaded0Out(e).threads[0]);
  }

  lemma Leaves0(e: int)
    requires e % 2 == 0
    ensures Apply(Loaded0Out(e), CasExit(0)) == Left(e)
  {
    SetFour(Loaded0Out(e).threads[0], OUT, OUT, In3(e), Left(e).threads[0]);
  }

  const ENTER0 := [LoadEnter(0), CasEnter(0)]
  const LOCK2 := [Defer(2), LockDefer(2)]
  const QUEUE2 := [Recheck(2), Insert(2)]
  const ENTER3 := [LoadEnter(3), CasEnter(3)]
  const LEAVE0 := [LoadExit(0, true), CasExit(0)]

  function TwoQueued(): seq<Action> {
    ENTER0 + LOCK2 + QUEUE2 + ENTER3 + LOCK2 + QUEUE2 + LEAVE0
  }

  /** From any even epoch: keys e + 1 and e + 2 are pending, epoch e + 1 is empty
      and e + 2 is not, and thread 0 is about to walk. */
  lemma TwoAreQueued(e: int)
    requires e % 2 == 0
    ensures Exec(Start(e), TwoQueued()) == Left(e)
  {
    OneIsQueued(e);
    ExecAppend(Start(e), ENTER0 + LOCK2 + QUEUE2, ENTER3);
    Loads3(e);
    Enters3(e);
    TwoSteps(FirstQueued(e), LoadEnter(3), CasEnter(3));
    OtherIsQueued(e);
    ExecAppend(Start(e), ENTER0 + LOCK2 + QUEUE2 + ENTER3, LOCK2);
    ExecAppend(Start(e), ENTER0 + LOCK2 + QUEUE2 + ENTER3 + LOCK2, QUEUE2);
    ExecAppend(Start(e), ENTER0 + LOCK2 + QUEUE2 + ENTER3 + LOCK2 + QUEUE2, LEAVE0);
    LoadsOut0(e);
    Leaves0(e);
    TwoSteps(SecondQueued(e), LoadExit(0, true), CasExit(0));
  }

  lemma OneIsQueued(e: int)
    requires e % 2 == 0
    ensures Exec(Start(e), ENTER0 + LOCK2) == FirstLocked(e)
    ensures Exec(Start(e), ENTER0 + LOCK2 + QUEUE2) == FirstQueued(e)
  {
    Loads0(e);
    Enters0(e);
    TwoSteps(Start(e), LoadEnter(0), CasEnter(0));
    ExecAppend(Start(e), ENTER0, LOCK2);
    Snaps0(e);
    Locks0(e);
    TwoSteps(First(e), Defer(2), LockDefer(2));
    ExecAppend(Start(e), ENTER0 + LOCK2, QUEUE2);
    Checks0(e);
    Queues0(e);
    TwoSteps(FirstLocked(e), Recheck(2), Insert(2));
  }

  lemma OtherIsQueued(e: int)
    requires e % 2 == 0
    ensures Exec(Second(e), LOCK2) == SecondLocked(e) && Exec(SecondLocked(e), QUEUE2) == SecondQueued(e)
  {
    Snaps1(e);
    Locks1(e);
    TwoSteps(Second(e), Defer(2), LockDefer(2));
    Checks1(e);
    Queues1(e);
    TwoSteps(SecondLocked(e), Recheck(2), Insert(2));
  }

  lemma StartIsInit(e: int)
    ensures Init(Start(e))
  {
  }

  // ------------------------------------------------------------ three runs

  lemma SteadyLoads(w: Word)
    ensures |Repeat(w, 7)| == 7 && TornVisible(Repeat(w, 7)) == VisibleEpoch(w)
  {
    RepeatIs(w, 7);
  }

  lemma OneStep(s: State, a: Action)
    ensures Exec(s, [a]) == Apply(s, a)
  {
    ExecSnoc(s, [], a);
    assert [] + [a] == [a];
  }

  function Walking(s: State, t: Tid, loads: seq<Word>): State {
    s.(lock := Some(t), threads := s.threads[t := Thread(Outside, Checking([], false, loads))])
  }

  lemma LocksCheck(s: State, t: Tid)
    requires t in s.threads && s.threads[t] == Thread(Outside, Owing) && s.lock.None?
    ensures Apply(s, LockCheck(t)) == Walking(s, t, [])
  {
  }

  function Begin(t: Tid): seq<Action> {
    [LockCheck(t)] + Looks(t, 7)
  }

  /** A walk begins: the lock is taken and the outer test has made its loads. */
  lemma WalkBegins(s: State, t: Tid)
    requires t in s.threads && s.threads[t] == Thread(Outside, Owing) && s.lock.None?
    ensures Exec(s, Begin(t)) == Walking(s, t, Repeat(s.word, 7))
  {
    var s1 := Walking(s, t, []);
    LocksCheck(s, t);
    OneStep(s, LockCheck(t));
    ExecAppend(s, [LockCheck(t)], Looks(t, 7));
    LooksAll(s1, t, 7);
    assert [] + Repeat(s.word, 7) == Repeat(s.word, 7);
    assert s1.threads[t := Thread(Outside, Checking([], false, Repeat(s.word, 7)))] == s.threads[t := Thread(Outside, Checking([], false, Repeat(s.word, 7)))];
  }

  const WALK_STRAYS := [CheckDone(0), RunEnd(0)]

  function StrayRun(): seq<Action> {
    TwoQueued() + Begin(0) + WALK_STRAYS
  }

  /** Key `key` is pending and visible, no exit was told to leave it to others, and
      nobody is about to look at it. */
  ghost predicate Forgotten(z: State, key: int) {
    && key in z.entries && key <= VisibleEpoch(z.word) && !z.skipped && !SomeoneCovers(z)
  }

  /** From any epoch whose image is 2^31 - 2: keys 2^31 - 1, whose readers are
      gone, and 2^31, whose reader is inside, are pending.  The map has the second
      first, the walk stops there, and the first is forgotten. */
  lemma StraddlingKeysAreLeft(e: int)
    requires e % EPOCHS == 0x7fff_fffe
    ensures Init(Start(e)) && Exec(Start(e), StrayRun()).strayed && Forgotten(Exec(Start(e), StrayRun()), e + 1)
  {
    PackParity(e);
    StrayRunIs(e);
    StartIsInit(e);
    LeftStrays(e);
  }

  lemma LeftStrays(e: int)
    requires e % EPOCHS == 0x7fff_fffe
    ensures var z := Exec(Exec(Left(e), Begin(0)), WALK_STRAYS); z.strayed && Forgotten(z, e + 1)
  {
    PackParity(e);
    LeftIs(e);
    StraddledFront(e, Left(e).entries);
    StraysAway(Left(e));
  }

  lemma LeftIs(e: int)
    requires e % 2 == 0
    ensures var s := Left(e); s.word == Word(e + 2, 1, 0, false) && VisibleEpoch(s.word) == e + 1 && s.entries == map[e + 1 := [0], e + 2 := [1]]
    ensures var s := Left(e); s.lock.None? && !s.skipped && s.ran == [] && s.guards == [{0}, {0, 1}]
    ensures Left(e).threads == Four(Thread(Outside, Owing), OUT, OUT, In3(e))
  {
  }

  lemma StrayRunIs(e: int)
    requires e % 2 == 0
    ensures Exec(Start(e), StrayRun()) == Exec(Exec(Left(e), Begin(0)), WALK_STRAYS)
  {
    TwoAreQueued(e);
    ExecAppend(Start(e), TwoQueued(), Begin(0));
    ExecAppend(Start(e), TwoQueued() + Begin(0), WALK_STRAYS);
  }

  lemma StraddledFront(e: int, entries: map<int, seq<Item>>)
    requires e % EPOCHS == 0x7fff_fffe && entries == map[e + 1 := [0], e + 2 := [1]]
    ensures FrontAbove(entries, e + 1) && !EpochOrder(entries) && entries != map[]
  {
    assert SignedImage(e + 1) == 0x7fff_ffff && SignedImage(e + 2) == -0x8000_0000;
    assert e + 1 in entries && e + 2 in entries;
  }

  /** A walk whose first test finds nothing visible. */
  lemma StraysAway(s: State)
    requires 0 in s.threads && s.threads[0] == Thread(Outside, Owing) && s.lock.None?
    requires FrontAbove(s.entries, VisibleEpoch(s.word)) && !EpochOrder(s.entries)
    requires forall t :: t in s.threads && t != 0 ==> s.threads[t].pc.Idle?
    ensures var z := Exec(Exec(s, Begin(0)), WALK_STRAYS);
      z.entries == s.entries && z.word == s.word && z.strayed && z.skipped == s.skipped && !SomeoneCovers(z)
  {
    WalkBegins(s, 0);
    SteadyLoads(s.word);
    WalkStops(Walking(s, 0, Repeat(s.word, 7)), Repeat(s.word, 7));
  }

  lemma WalkStops(s: State, loads: seq<Word>)
    requires 0 in s.threads && s.threads[0] == Thread(Outside, Checking([], false, loads))
    requires NothingVisible(s.entries, loads) && !EpochOrder(s.entries)
    requires forall t :: t in s.threads && t != 0 ==> s.threads[t].pc.Idle?
    ensures var z := Exec(s, WALK_STRAYS);
      z.entries == s.entries && z.word == s.word && z.strayed && z.skipped == s.skipped && !SomeoneCovers(z)
  {
    TwoSteps(s, CheckDone(0), RunEnd(0));
    WalkDone(s, loads);
    WalkEnded(Apply(s, CheckDone(0)));
  }

  lemma WalkDone(s: State, loads: seq<Word>)
    requires 0 in s.threads && s.threads[0] == Thread(Outside, Checking([], false, loads))
    requires NothingVisible(s.entries, loads) && !EpochOrder(s.entries)
    ensures var z := Apply(s, CheckDone(0));
      && z.entries == s.entries && z.word == s.word && z.strayed && z.skipped == s.skipped
      && z.threads == s.threads[0 := Thread(Outside, Running([]))]
  {
  }

  lemma WalkEnded(s: State)
    requires 0 in s.threads && s.threads[0] == Thread(Outside, Running([]))
    requires forall t :: t in s.threads && t != 0 ==> s.threads[t].pc.Idle?
    ensures var z := Apply(s, RunEnd(0));
      z.entries == s.entries && z.word == s.word && z.strayed == s.strayed && z.skipped == s.skipped && !SomeoneCovers(z)
  {
  }

  // -- the sentinel

  /** Where the code's re-check says that item 0 can be run at once. */
  function FirstInline(e: int): State {
    Commit(FirstLocked(e), 2, Goes(FirstLocked(e), 2, Inline(0)).(lock := None))
  }

  /** From any epoch whose image is 2^32 - 2, thread 0 enters and thread 2 defers:
      thread 0's epoch is the sentinel, so the code's re-check answers that nobody
      is inside, and the work is run while the section it must outlast is open. */
  lemma SentinelRunsEarly(e: int)
    requires e % EPOCHS == 0xFFFF_FFFE
    ensures var s, z := Exec(Start(e), ENTER0 + LOCK2), Apply(FirstInline(e), RunInline(2));
      && Init(Start(e)) && s == FirstLocked(e) && s.threads[2].pc == Locked(0, e + 1)
      && !RunNow(s.word, e + 1) && PackedRunNow(Pack(s.word), (e + 1) % EPOCHS)
      && z.ran == [0] && z.guards == [{0}] && 0 in Open(z)
  {
    PackParity(e);
    OneIsQueued(e);
    StartIsInit(e);
    LockedIs(e);
    SentinelTest(e);
    InlineIs(e);
    InlineRuns(FirstInline(e));
  }

  lemma LockedIs(e: int)
    ensures FirstLocked(e).word == Word(e + 1, 0, 1, false) && FirstLocked(e).threads[2].pc == Locked(0, e + 1)
  {
  }

  lemma InlineIs(e: int)
    ensures var s := FirstInline(e); s.threads[2].pc == Inline(0) && s.ran == [] && s.guards == [{0}] && Reading(s, 0) && s.threads[0].hold.sid == 0
  {
  }

  lemma SentinelTest(e: int)
    requires e % EPOCHS == 0xFFFF_FFFE
    ensures var w := Word(e + 1, 0, 1, false); !RunNow(w, e + 1) && PackedRunNow(Pack(w), (e + 1) % EPOCHS)
  {
    PackParity(e);
    PackReads(Word(e + 1, 0, 1, false));
  }

  lemma InlineRuns(s: State)
    requires 2 in s.threads && s.threads[2].pc == Inline(0) && Reading(s, 0)
    ensures var z := Apply(s, RunInline(2));
      z.ran == s.ran + [0] && z.guards == s.guards && s.threads[0].hold.sid in Open(z)
  {
    assert Reading(Apply(s, RunInline(2)), 0);
  }

  // -- a torn test

  lemma WalkGoesIn(s: State, key: int, loads: seq<Word>)
    requires 0 in s.threads && s.threads[0] == Thread(Outside, Checking([], false, loads))
    requires |loads| == 7 && Front(key, s.entries) && key <= TornVisible(loads)
    ensures Apply(s, CheckEnter(0)) == s.(threads := s.threads[0 := Thread(Outside, Checking([], true, []))])
  {
  }

  lemma FrontOfTwo(e: int, entries: map<int, seq<Item>>)
    requires SignedImage(e + 1) < SignedImage(e + 2) && entries == map[e + 1 := [0], e + 2 := [1]]
    ensures Front(e + 1, entries) && entries - {e + 1} == map[e + 2 := [1]]
  {
  }

  /** The state in the middle of the walk from `Left(e)`. */
  predicate Mid(e: int, s: State, entries: map<int, seq<Item>>, pc: Pc) {
    && s.word == Word(e + 2, 1, 0, false) && s.entries == entries && s.ran == [] && s.guards == [{0}, {0, 1}]
    && s.threads == Four(Thread(Outside, pc), OUT, OUT, In3(e))
  }

  /** To the inner loop's first test. */
  lemma GoesInside(e: int)
    requires e % 2 == 0 && SignedImage(e + 1) < SignedImage(e + 2)
    ensures var s := Exec(Exec(Left(e), Begin(0)), [CheckEnter(0)]);
      Mid(e, s, map[e + 1 := [0], e + 2 := [1]], Checking([], true, []))
  {
    LeftIs(e);
    var loads := Repeat(Left(e).word, 7);
    WalkBegins(Left(e), 0);
    SteadyLoads(Left(e).word);
    FrontOfTwo(e, Left(e).entries);
    var s := Walking(Left(e), 0, loads);
    OneStep(s, CheckEnter(0));
    WalkGoesIn(s, e + 1, loads);
    SetFour(Left(e).threads[0], OUT, OUT, In3(e), Thread(Outside, Checking([], false, loads)));
    SetFour(Thread(Outside, Checking([], false, loads)), OUT, OUT, In3(e), Thread(Outside, Checking([], true, [])));
  }

  lemma LooksInside(e: int, s: State, n: nat)
    requires n <= 7 && Mid(e, s, map[e + 1 := [0], e + 2 := [1]], Checking([], true, []))
    ensures Mid(e, Exec(s, Looks(0, n)), map[e + 1 := [0], e + 2 := [1]], Checking([], true, Repeat(s.word, n)))
  {
    LooksAll(s, 0, n);
    assert [] + Repeat(s.word, n) == Repeat(s.word, n);
    SetFour(s.threads[0], OUT, OUT, In3(e), Thread(Outside, Checking([], true, Repeat(s.word, n))));
  }

  /** The first key is popped, rightly. */
  lemma PopsFirst(e: int, s: State)
    requires e % 2 == 0 && SignedImage(e + 1) < SignedImage(e + 2)
    requires Mid(e, s, map[e + 1 := [0], e + 2 := [1]], Checking([], true, Repeat(Word(e + 2, 1, 0, false), 7)))
    ensures Mid(e, Apply(s, CheckPop(0, e + 1)), map[e + 2 := [1]], Checking([0], true, []))
  {
    SteadyLoads(s.word);
    FrontOfTwo(e, s.entries);
    PopsFront(s, 0, e + 1);
    SetFour(s.threads[0], OUT, OUT, In3(e), Thread(Outside, Checking([0], true, [])));
    assert [] + [0] == [0];
  }

  const WALK_ENDS := [CheckBreak(0), CheckDone(0)]
  const RUN_BOTH := [RunOne(0), RunOne(0)]

  predicate SameRest(s: State, z: State) {
    z.guards == s.guards && z.threads.Keys == s.threads.Keys && forall t :: t in s.threads && t != 0 ==> z.threads[t] == s.threads[t]
  }

  lemma EndsWalk(s: State)
    requires 0 in s.threads && s.threads[0].pc == Checking([0, 1], true, []) && s.entries == map[]
    ensures var z := Exec(s, WALK_ENDS);
      SameRest(s, z) && z.ran == s.ran && z.threads[0].pc == Running([0, 1])
  {
    TwoSteps(s, CheckBreak(0), CheckDone(0));
    EndsInner(s, [0, 1]);
    EndsOuter(Apply(s, CheckBreak(0)), [0, 1]);
  }

  lemma EndsInner(s: State, batch: seq<Item>)
    requires 0 in s.threads && s.threads[0].pc == Checking(batch, true, []) && s.entries == map[]
    ensures var z := Apply(s, CheckBreak(0));
      SameRest(s, z) && z.ran == s.ran && z.entries == map[] && z.threads[0].pc == Checking(batch, false, [])
  {
  }

  lemma EndsOuter(s: State, batch: seq<Item>)
    requires 0 in s.threads && s.threads[0].pc == Checking(batch, false, []) && s.entries == map[]
    ensures var z := Apply(s, CheckDone(0)); SameRest(s, z) && z.ran == s.ran && z.threads[0].pc == Running(batch)
  {
  }

  lemma RunsOne(s: State, batch: seq<Item>)
    requires 0 in s.threads && s.threads[0].pc == Running(batch) && batch != []
    ensures var z := Apply(s, RunOne(0)); SameRest(s, z) && z.ran == s.ran + [batch[0]] && z.threads[0].pc == Running(batch[1..])
  {
  }

  lemma RunsBoth(s: State, batch: seq<Item>)
    requires 0 in s.threads && s.threads[0].pc == Running(batch) && |batch| == 2
    ensures var z := Exec(s, RUN_BOTH); SameRest(s, z) && z.ran == s.ran + [batch[0]] + [batch[1]]
  {
    RunsOne(s, batch);
    RunsOne(Apply(s, RunOne(0)), batch[1..]);
    TwoSteps(s, RunOne(0), RunOne(0));
  }

  function TornRun(e: int): seq<Action> {
    TwoQueued() + Begin(0) + [CheckEnter(0)] + Looks(0, 7) + [CheckPop(0, e + 1)] + TearingRun(0, 1, e + 2) + WALK_ENDS + RUN_BOTH
  }

  /** A run of several stretches. */
  lemma InStretches(s: State, a: seq<Action>, b: seq<Action>, c: seq<Action>, d: seq<Action>)
    ensures Exec(s, a + b + c + d) == Exec(Exec(Exec(Exec(s, a), b), c), d)
  {
    ExecAppend(s, a, b);
    ExecAppend(s, a + b, c);
    ExecAppend(s, a + b + c, d);
  }

  lemma TornRunIs(e: int)
    requires e % 2 == 0
    ensures var s := Exec(Exec(Exec(Exec(Left(e), Begin(0)), [CheckEnter(0)]), Looks(0, 7)), [CheckPop(0, e + 1)]);
      Exec(Start(e), TornRun(e)) == Exec(Exec(Exec(s, TearingRun(0, 1, e + 2)), WALK_ENDS), RUN_BOTH)
  {
    TwoAreQueued(e);
    var toLast := TwoQueued() + Begin(0) + [CheckEnter(0)] + Looks(0, 7);
    InStretches(Start(e), TwoQueued(), Begin(0), [CheckEnter(0)], Looks(0, 7));
    InStretches(Start(e), toLast, [CheckPop(0, e + 1)], TearingRun(0, 1, e + 2), WALK_ENDS);
    ExecAppend(Start(e), toLast + [CheckPop(0, e + 1)] + TearingRun(0, 1, e + 2) + WALK_ENDS, RUN_BOTH);
  }

  predicate EndsTorn(z: State) {
    z.ran == [0, 1] && z.guards == [{0}, {0, 1}] && Reading(z, 3) && z.threads[3].hold.sid == 1
  }

  /** From the test of the second key to the callbacks. */
  lemma PopsSecond(e: int, s: State)
    requires e % 2 == 0 && Mid(e, s, map[e + 2 := [1]], Checking([0], true, []))
    ensures var z := Exec(Exec(Exec(s, TearingRun(0, 1, e + 2)), WALK_ENDS), RUN_BOTH);
      EndsTorn(z)
  {
    assert Front(e + 2, s.entries);
    MidIs(e, s, Checking([0], true, []));
    EntrySuffices(s, 0, 1, 3);
    assert [0] + [1] == [0, 1] && s.entries - {e + 2} == map[];
    CallsBoth(Exec(s, TearingRun(0, 1, e + 2)));
  }

  lemma MidIs(e: int, s: State, pc: Pc)
    requires e % 2 == 0 && Mid(e, s, map[e + 2 := [1]], pc)
    ensures AnyInCurrent(s.word) && !AnyInOld(s.word) && Reading(s, 3) && s.threads[3].hold.sid == 1
  {
  }

  lemma CallsBoth(s: State)
    requires 0 in s.threads && s.threads[0].pc == Checking([0, 1], true, []) && s.entries == map[] && s.ran == []
    requires s.guards == [{0}, {0, 1}] && Reading(s, 3) && s.threads[3].hold.sid == 1
    ensures EndsTorn(Exec(Exec(s, WALK_ENDS), RUN_BOTH))
  {
    EndsWalk(s);
    CallsInTurn(Exec(s, WALK_ENDS));
  }

  lemma CallsInTurn(s: State)
    requires 0 in s.threads && s.threads[0].pc == Running([0, 1]) && s.ran == []
    requires s.guards == [{0}, {0, 1}] && Reading(s, 3) && s.threads[3].hold.sid == 1
    ensures EndsTorn(Exec(s, RUN_BOTH))
  {
    RunsBoth(s, [0, 1]);
    assert [] + [0] + [1] == [0, 1];
  }

  /** The code's visibleEpoch(), a load at a time, breaks the promise, from any even
      epoch that keeps keys e + 1 and e + 2 in order.  Section 1
      was open when item 1 was handed over; after this run, in which one entry
      falls between the fourth load and the fifth of the test of key 2, item 1
      has been run and section 1 is open. */
  lemma TornReadBreaksGrace(e: int)
    requires e % 2 == 0 && SignedImage(e + 1) < SignedImage(e + 2)
    ensures var z := Exec(Start(e), TornRun(e));
      Init(Start(e)) && z.ran == [0, 1] && z.guards == [{0}, {0, 1}] && 1 in Open(z) && z.tore
  {
    TornRunIs(e);
    StartIsInit(e);
    TornRunEnds(e);
    WasTorn(Start(e), TornRun(e), 1, 3);
  }

  lemma TornRunEnds(e: int)
    requires e % 2 == 0 && SignedImage(e + 1) < SignedImage(e + 2)
    ensures var s := Exec(Exec(Exec(Exec(Left(e), Begin(0)), [CheckEnter(0)]), Looks(0, 7)), [CheckPop(0, e + 1)]);
      EndsTorn(Exec(Exec(Exec(s, TearingRun(0, 1, e + 2)), WALK_ENDS), RUN_BOTH))
  {
    GoesInside(e);
    var s := Exec(Exec(Left(e), Begin(0)), [CheckEnter(0)]);
    LooksInside(e, s, 7);
    var s1 := Exec(s, Looks(0, 7));
    OneStep(s1, CheckPop(0, e + 1));
    PopsFirst(e, s1);
    PopsSecond(e, Apply(s1, CheckPop(0, e + 1)));
  }

  lemma WasTorn(s: State, run: seq<Action>, i: Item, u: Tid)
    requires Init(s) && var z := Exec(s, run); i in z.ran && i < |z.guards| && Reading(z, u) && z.threads[u].hold.sid in z.guards[i]
    ensures Exec(s, run).tore && Exec(s, run).threads[u].hold.sid in Open(Exec(s, run))
  {
    InvRun(s, run);
    RanIsClosed(Exec(s, run), i);
  }
}
