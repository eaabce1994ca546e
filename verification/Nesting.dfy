/** The counters of ThreadGcInfoEntry on top of the lock's steps: a call that
    the counters turn into entering or leaving starts that protocol, and the
    reader counts of the shared word are counts of nested holders. */
module Nesting {
  import opened GcWord
  import opened GcProtocol
  import T = ThreadEntry

  datatype Nested = Nested(gc: State, entries: map<Tid, T.Counts>)

  datatype Move =
    | Inner(a: Action)                              // a step inside the lock's own code
    | Lock(t: Tid, call: T.Call, runDefer: bool)    // one of the entry's methods

  /** The actions that only the entry's methods begin. */
  predicate Begins(a: Action) {
    a.LoadEnter? || a.LoadExit? || a.LoadExclusive? || a.ReleaseExclusive?
  }

  /** What the call has the lock do: enterCS, exitCS, enterCSExclusive,
      exitCSExclusive or nothing. */
  function Begun(before: T.Inside, after: T.Inside, t: Tid, runDefer: bool): Option<Action> {
    if before == after then None
    else if after.InShared? then Some(LoadEnter(t))
    else if after.InExclusive? then Some(LoadExclusive(t))
    else if before.InShared? then Some(LoadExit(t, runDefer))
    else Some(ReleaseExclusive(t))
  }

  function Do(n: Nested, m: Move): Nested {
    match m
    case Inner(a) => if Begins(a) then n else n.(gc := Apply(n.gc, a))
    case Lock(t, call, runDefer) =>
      if t in n.gc.threads && t in n.entries && n.gc.threads[t].pc.Idle? then
        var d := T.After(n.entries[t], call).0;
        var a := Begun(n.entries[t].inside, d.inside, t, runDefer);
        Nested(if a.Some? then Apply(n.gc, a.value) else n.gc, n.entries[t := d])
      else n
  }

  function DoAll(n: Nested, run: seq<Move>): Nested
    decreases |run|
  {
    if run == [] then n else Do(DoAll(n, run[..|run| - 1]), run[|run| - 1])
  }

  lemma DoSnoc(n: Nested, run: seq<Move>, m: Move)
    ensures DoAll(n, run + [m]) == Do(DoAll(n, run), m)
  {
    assert (run + [m])[..|run|] == run;
  }

  ghost predicate Start(n: Nested) {
    Init(n.gc) && n.entries.Keys == n.gc.threads.Keys && forall t :: t in n.entries ==> n.entries[t] == T.Fresh()
  }

  /** Threads that have yet to do anything, on a fresh lock. */
  lemma CanStart(gc: State)
    requires Init(gc)
    ensures Start(Nested(gc, map t | t in gc.threads :: T.Fresh()))
  {
  }

  /** A call that undoes the last shared lock leaves the section with the choice
      about deferred work that it was given; one that undoes another leaves the
      shared word and the thread as they are. */
  lemma UnlockPassesOn(n: Nested, t: Tid, call: T.Call, runDefer: bool)
    requires t in n.gc.threads && t in n.entries && n.gc.threads[t].pc.Idle? && n.gc.threads[t].hold.Shared? && n.entries[t].inside.InShared?
    ensures var d, z := T.After(n.entries[t], call).0, Do(n, Lock(t, call, runDefer));
      && z.gc.word == n.gc.word && t in z.gc.threads
      && (d.inside.Outside? ==> z.gc.threads[t].pc == Exiting(n.gc.word, runDefer))
      && (d.inside.InShared? ==> z.gc.threads[t] == n.gc.threads[t])
  {
  }

  // ----------------------------------------- the counters and the real lock

  predicate Owns(pc: Pc) {
    pc.Acquiring? || pc.Acquired? || pc.Draining?
  }

  /** The thread is not on its way in or out. */
  predicate Settled(th: Thread) {
    !th.pc.Entering? && !th.pc.Exiting? && !Owns(th.pc)
  }

  /** `inside` is the hold, or what the hold is about to be. */
  predicate Agrees(th: Thread, inside: T.Inside) {
    if th.pc.Entering? then th.hold.Outside? && inside.InShared?
    else if th.pc.Exiting? then th.hold.Shared? && inside.Outside?
    else if Owns(th.pc) then th.hold.Outside? && inside.InExclusive?
    else match inside
      case Outside => th.hold.Outside?
      case InShared => th.hold.Shared?
      case InExclusive => th.hold.Exclusive?
  }

  /** The exclusive depth and `inside` go together in any case. */
  predicate Sane(c: T.Counts) {
    c.write >= 0 && (c.write > 0 <==> c.inside.InExclusive?)
  }

  ghost predicate AgreeInv(n: Nested) {
    n.entries.Keys == n.gc.threads.Keys
    && forall t :: t in n.entries ==> Sane(n.entries[t]) && Agrees(n.gc.threads[t], n.entries[t].inside)
  }

  lemma SaneAfter(c: T.Counts, call: T.Call)
    requires Sane(c)
    ensures var d := T.After(c, call).0; Sane(d) && (c.inside != d.inside ==> c.inside.Outside? || d.inside.Outside?)
  {
  }

  lemma EnterAgrees(s: State, a: Action, inside: T.Inside)
    requires a.t in s.threads && a.CasEnter? && Agrees(s.threads[a.t], inside)
    ensures Agrees(EnterEffect(s, a).thread, inside)
  {
  }

  lemma ExitAgrees(s: State, a: Action, inside: T.Inside)
    requires a.t in s.threads && a.CasExit? && Agrees(s.threads[a.t], inside)
    ensures Agrees(ExitEffect(s, a).thread, inside)
  {
  }

  lemma ExclusiveAgrees(s: State, a: Action, inside: T.Inside)
    requires a.t in s.threads && (a.CasExclusive? || a.DrainStart? || a.DrainPoll?) && Agrees(s.threads[a.t], inside)
    ensures Agrees(ExclusiveEffect(s, a).thread, inside)
  {
  }

  /** The other steps keep the hold and are not in the middle of a change of it. */
  predicate Quiet(th: Thread, th': Thread) {
    th' == th || (th'.hold == th.hold && Settled(th) && Settled(th'))
  }

  lemma BarrierQuiet(s: State, a: Action)
    requires a.t in s.threads && (a.BarrierStart? || a.BarrierPoll?)
    ensures Quiet(s.threads[a.t], BarrierEffect(s, a).thread)
  {
  }

  lemma LookQuiet(s: State, a: Action)
    requires a.t in s.threads && (a.CallRunDefers? || a.LockCheck? || a.Look?)
    ensures Quiet(s.threads[a.t], LookEffect(s, a).thread)
  {
  }

  lemma CheckQuiet(s: State, a: Action)
    requires a.t in s.threads && (a.CheckEnter? || a.CheckPop? || a.CheckBreak? || a.CheckDone?)
    ensures Quiet(s.threads[a.t], CheckEffect(s, a).thread)
  {
  }

  lemma RunQuiet(s: State, a: Action)
    requires a.t in s.threads && (a.RunOne? || a.RunEnd? || a.RunInline?)
    ensures Quiet(s.threads[a.t], RunEffect(s, a).thread)
  {
  }

  lemma DeferQuiet(s: State, a: Action)
    requires a.t in s.threads && (a.Defer? || a.LockDefer? || a.Recheck? || a.Insert?)
    ensures Quiet(s.threads[a.t], DeferEffect(s, a).thread)
  {
  }

  lemma InnerAgrees(s: State, a: Action, inside: T.Inside)
    requires a.t in s.threads && !Begins(a) && Agrees(s.threads[a.t], inside)
    ensures Agrees(EffectOf(s, a).thread, inside)
  {
    if a.CasEnter? {
      EnterAgrees(s, a, inside);
    } else if a.CasExit? {
      ExitAgrees(s, a, inside);
    } else if a.CasExclusive? || a.DrainStart? || a.DrainPoll? {
      ExclusiveAgrees(s, a, inside);
    } else if a.BarrierStart? || a.BarrierPoll? {
      BarrierQuiet(s, a);
    } else if a.CallRunDefers? || a.LockCheck? || a.Look? {
      LookQuiet(s, a);
    } else if a.CheckEnter? || a.CheckPop? || a.CheckBreak? || a.CheckDone? {
      CheckQuiet(s, a);
    } else if a.RunOne? || a.RunEnd? || a.RunInline? {
      RunQuiet(s, a);
    } else {
      DeferQuiet(s, a);
    }
  }

  lemma BeginsRight(s: State, t: Tid, before: T.Inside, after: T.Inside, runDefer: bool)
    requires t in s.threads && s.threads[t].pc.Idle? && Agrees(s.threads[t], before)
    requires before != after && (before.Outside? || after.Outside?)
    ensures Agrees(EffectOf(s, Begun(before, after, t, runDefer).value).thread, after)
  {
  }

  lemma AgreeStep(n: Nested, m: Move)
    requires AgreeInv(n)
    ensures AgreeInv(Do(n, m))
  {
    match m
    case Inner(a) => if a.t in n.gc.threads && !Begins(a) { InnerAgrees(n.gc, a, n.entries[a.t].inside); }
    case Lock(t, call, runDefer) =>
      if t in n.gc.threads && n.gc.threads[t].pc.Idle? {
        SaneAfter(n.entries[t], call);
        var before, after := n.entries[t].inside, T.After(n.entries[t], call).0.inside;
        if before != after { BeginsRight(n.gc, t, before, after, runDefer); }
      }
  }

  /** Nobody has used the locks in one of the two ways that break the counters. */
  predicate Proper(n: Nested, run: seq<Move>)
    decreases |run|
  {
    run == [] ||
    var x, m := DoAll(n, run[..|run| - 1]), run[|run| - 1];
    && Proper(n, run[..|run| - 1])
    && (m.Lock? && m.t in x.entries ==> !T.LeavesSharedBehind(x.entries[m.t], m.call) && !T.UndoesAnothers(x.entries[m.t], m.call))
  }

  ghost predicate TruthfulInv(n: Nested) {
    forall t :: t in n.entries ==> T.Truthful(n.entries[t])
  }

  lemma {:induction false} NestedRun(n: Nested, run: seq<Move>)
    requires Start(n)
    ensures var z := DoAll(n, run); Inv(z.gc) && AgreeInv(z) && (Proper(n, run) ==> TruthfulInv(z))
    decreases |run|
  {
    if run == [] {
      InvInit(n.gc);
    } else {
      var x, m := DoAll(n, run[..|run| - 1]), run[|run| - 1];
      NestedRun(n, run[..|run| - 1]);
      AgreeStep(x, m);
      InvMove(x, m);
      if Proper(n, run) { TruthfulMove(x, m); }
    }
  }

  lemma InvMove(x: Nested, m: Move)
    requires Inv(x.gc)
    ensures Inv(Do(x, m).gc)
  {
    match m
    case Inner(a) => InvStep(x.gc, a);
    case Lock(t, call, runDefer) =>
      if t in x.entries {
        var a := Begun(x.entries[t].inside, T.After(x.entries[t], call).0.inside, t, runDefer);
        if a.Some? { InvStep(x.gc, a.value); }
      }
  }

  lemma TruthfulMove(x: Nested, m: Move)
    requires TruthfulInv(x)
    requires m.Lock? && m.t in x.entries ==> !T.LeavesSharedBehind(x.entries[m.t], m.call) && !T.UndoesAnothers(x.entries[m.t], m.call)
    ensures TruthfulInv(Do(x, m))
  {
    if m.Lock? && m.t in x.entries { T.TruthfulAfter(x.entries[m.t], m.call); }
  }

  // ------------------------------------------------------- what is counted

  /** By its counters the thread holds shared locks, speculative locks or parked
      ones, and no exclusive lock around them. */
  predicate HoldsShared(c: T.Counts) {
    c.write == 0 && (c.own > 0 || c.spec > 0 || c.parked > 0)
  }

  function Holders(z: Nested, parity: int): set<Tid> {
    set t | t in z.entries && HoldsShared(z.entries[t]) && t in z.gc.threads && z.gc.threads[t].hold.Shared? && z.gc.threads[t].hold.inEpoch == parity
  }

  /** Over any run of nested, speculative and exclusive locking by any threads,
      without the two misuses: whenever no thread is on its way in or out, a
      thread reads exactly while its counters say that it holds a shared lock of
      some kind and no exclusive one, it owns the lock exclusively exactly while
      they say that it holds an exclusive one, and each parity's count in the
      shared word is the number of such readers in it. */
  lemma CountsAreHolders(n: Nested, run: seq<Move>, parity: int)
    requires Start(n) && Proper(n, run) && 0 <= parity <= 1
    requires forall t :: t in DoAll(n, run).gc.threads ==> Settled(DoAll(n, run).gc.threads[t])
    ensures var z := DoAll(n, run);
      && z.entries.Keys == z.gc.threads.Keys
      && (forall t :: t in z.entries ==> (HoldsShared(z.entries[t]) <==> z.gc.threads[t].hold.Shared?))
      && (forall t :: t in z.entries ==> (z.entries[t].write > 0 <==> z.gc.threads[t].hold.Exclusive?))
      && In(z.gc.word, parity) == |Holders(z, parity)|
  {
    NestedRun(n, run);
    var z := DoAll(n, run);
    forall t | t in z.entries
      ensures (HoldsShared(z.entries[t]) <==> z.gc.threads[t].hold.Shared?) && (z.entries[t].write > 0 <==> z.gc.threads[t].hold.Exclusive?)
    {
      HeldAsCounted(z.gc.threads[t], z.entries[t]);
    }
    CountedReaders(z, parity);
  }

  lemma HeldAsCounted(th: Thread, c: T.Counts)
    requires Settled(th) && Sane(c) && T.Truthful(c) && Agrees(th, c.inside)
    ensures (HoldsShared(c) <==> th.hold.Shared?) && (c.write > 0 <==> th.hold.Exclusive?)
  {
  }

  lemma CountedReaders(z: Nested, parity: int)
    requires EpochInv(z.gc) && 0 <= parity <= 1 && z.entries.Keys == z.gc.threads.Keys
    requires forall t :: t in z.entries ==> (HoldsShared(z.entries[t]) <==> z.gc.threads[t].hold.Shared?)
    ensures In(z.gc.word, parity) == |Holders(z, parity)|
  {
    var w := z.gc.word;
    var e := if w.epoch % 2 == parity then w.epoch else w.epoch - 1;
    assert e % 2 == parity;
    assert forall t :: Reading(z.gc, t) ==> Placed(z.gc.threads[t].hold, w.epoch, z.gc.nextSid);
    assert Readers(z.gc, e) == Holders(z, parity);
  }
}
