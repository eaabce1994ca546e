/** Where an RCU cell's promise stops: under an exclusive lock, and in a cmp_xchg
    whose barrier throws. */
module RcuWitnesses {
  import opened GcWord
  import opened GcProtocol
  import opened R = Rcu
  import GcTheorems
  import Exclusives

  lemma DoTwo(r: Rcu, a: Step, b: Step)
    ensures DoAll(r, [a, b]) == Do(Do(r, a), b)
  {
    assert [a, b][..1] == [a] && [a][..0] == [];
    assert DoAll(r, [a]) == Do(r, a);
  }

  lemma {:induction false} DoAppend(r: Rcu, p: seq<Step>, q: seq<Step>)
    ensures DoAll(r, p + q) == DoAll(DoAll(r, p), q)
    decreases |q|
  {
    if q == [] {
      assert p + q == p;
    } else {
      assert (p + q)[..|p + q| - 1] == p + q[..|q| - 1];
      DoAppend(r, p, q[..|q| - 1]);
    }
  }

  // ------------------------------------------------- what is remembered

  /** What a thread has loaded is not forgotten while it is inside, and is added to
      only by its own loads, guards and exchanges. */
  ghost predicate Remembers(r: Rcu, z: Rcu, e: Step, t: Tid) {
    && (Inside(z.gc, t) ==> Seen(r, t) <= Seen(z, t))
    && (Inside(z.gc, t) && Seen(z, t) != Seen(r, t) ==> (e.Load? || e.TakeGuard? || (e.CmpXchg? && e.defer)) && e.t == t)
  }

  lemma GcSeen(r: Rcu, a: Action, t: Tid)
    requires forall u :: u in r.seen ==> Inside(r.gc, u)
    ensures Remembers(r, AfterGc(r, Apply(r.gc, a)), Gc(a), t)
  {
  }

  lemma LoadSeen(r: Rcu, u: Tid, t: Tid)
    ensures Remembers(r, AfterLoad(r, u), Load(u), t)
    ensures r.val.Some? ==> Seen(AfterLoad(r, u), u) == Seen(r, u) + {r.val.value}
  {
  }

  lemma GuardSeen(r: Rcu, u: Tid, t: Tid)
    requires Inside(r.gc, u) && u in r.early
    ensures Remembers(r, AfterGuard(r, u), TakeGuard(u), t)
    ensures Seen(AfterGuard(r, u), u) == Seen(r, u) + {r.early[u]}
  {
  }

  lemma XchgSeen(r: Rcu, u: Tid, current: Obj, given: Option<Addr>, defer: bool, t: Tid)
    requires r.val.Some? && r.val.value < |r.place|
    ensures Remembers(r, AfterXchg(r, u, given, defer), CmpXchg(u, current, given, defer), t)
    ensures given.Some? && defer ==> Seen(AfterXchg(r, u, given, defer), u) == Seen(r, u) + {|r.place|}
  {
  }

  lemma MovesSeen(r: Rcu, u: Tid, o: Obj, gc: State)
    requires o < |r.place|
    ensures AfterDefer(r, u, o, gc).seen == r.seen && AfterStart(r, u, o, gc).seen == r.seen && AfterDone(r, u, o, gc).seen == r.seen
    ensures (u in r.mid ==> r.mid[u].put < |r.place|) ==> AfterThrow(r, u, o).seen == r.seen
  {
  }

  lemma OtherSeen(r: Rcu, e: Step)
    requires Enabled(r, e) && !e.Gc? && !e.Load? && !e.TakeGuard? && !e.CmpXchg?
    ensures Do(r, e).seen == r.seen
  {
    match e
    case LoadEarly(u) =>
    case Replace(u, given) =>
    case DeferCleanup(u, o) => MovesSeen(r, u, o, Apply(r.gc, Defer(u)));
    case BarrierCleanup(u, o) => MovesSeen(r, u, o, Apply(r.gc, BarrierStart(u)));
    case BarrierDone(u, o) => MovesSeen(r, u, o, Apply(r.gc, BarrierPoll(u)));
    case BarrierThrows(u, o) => MovesSeen(r, u, o, r.gc);
  }

  lemma StayedSeen(r: Rcu, e: Step, t: Tid)
    ensures Remembers(r, r, e, t)
  {
  }

  /** In every step. */
  lemma SeenLasts(r: Rcu, e: Step, t: Tid)
    requires forall u :: u in r.seen ==> Inside(r.gc, u)
    ensures Remembers(r, Do(r, e), e, t)
  {
    if !Enabled(r, e) {
      StayedSeen(r, e, t);
    } else if e.Gc? {
      GcSeen(r, e.a, t);
    } else if e.Load? {
      LoadSeen(r, e.t, t);
    } else if e.TakeGuard? {
      GuardSeen(r, e.t, t);
    } else if e.CmpXchg? {
      XchgSeen(r, e.t, e.current, e.given, e.defer, t);
    } else {
      OtherSeen(r, e);
    }
  }

  /** A load, or a guard, is of what the cell held. */
  lemma LoadsTheCell(r: Rcu, t: Tid)
    requires Shaped(r) && Inside(r.gc, t) && r.gc.threads[t].pc.Idle?
    ensures r.val.Some? ==> Seen(Do(r, Load(t)), t) == Seen(r, t) + {r.val.value}
    ensures t in r.early ==> Seen(Do(r, TakeGuard(t)), t) == Seen(r, t) + {r.early[t]}
  {
    LoadSeen(r, t, t);
    if t in r.early { GuardSeen(r, t, t); }
  }

  lemma LoadsEarlier(r: Rcu, t: Tid)
    requires Shaped(r) && t in r.gc.threads && r.gc.threads[t] == Thread(Outside, Idle)
    ensures var z := Do(r, LoadEarly(t));
      && z.seen == r.seen && z.gc == r.gc
      && if r.val.Some? then t in z.early && z.early[t] == r.val.value else t !in z.early
  {
  }

  /** An address all of whose objects have been cleaned up may be given again; and a
      cmp_xchg succeeds whenever the cell's address is the one that was loaded. */
  lemma MayExchange(r: Rcu, t: Tid, current: Obj, a: Addr, defer: bool)
    requires Shaped(r) && t in r.gc.threads && r.gc.threads[t].pc.Idle? && forall o :: 0 <= o < |r.place| && r.addr[o] == a ==> Freed(r, o)
    ensures var z := Do(r, Replace(t, Some(a))); z.val == Some(|r.place|) && z.addr == r.addr + [a]
    ensures Inside(r.gc, t) && t !in r.mid && current in Seen(r, t) && current < |r.addr| && r.val.Some? && r.addr[r.val.value] == r.addr[current] ==>
              var z := Do(r, CmpXchg(t, current, Some(a), defer));
              z.val == Some(|r.place|) && z.addr == r.addr + [a] && r.val.value < |z.place| && z.place[r.val.value] == Swapped(t)
  {
    assert Enabled(r, Replace(t, Some(a)));
  }

  // --------------------------------------------------- exclusive sections

  /** What exposes is handing over, while it holds the lock, what an exclusive
      holder has loaded. */
  lemma ExposesUnderOwner(r: Rcu, e: Step)
    requires !r.exposed && Do(r, e).exposed
    ensures (e.DeferCleanup? || e.BarrierCleanup?) && SeenByOwner(r, e.o)
  {
    Marked(r, e);
  }

  /** And that is enough, in any state of any run, whoever hands it over, the
      holder itself included: the next step cleans it up. */
  lemma ExposedIsFreed(r: Rcu, t: Tid, u: Tid, o: Obj)
    requires RcuInv(r) && Enabled(r, DeferCleanup(t, o)) && o in Seen(r, u) && Exclusives.Owned(r.gc, u)
    ensures var z := DoAll(r, [DeferCleanup(t, o), Gc(RunInline(t))]);
      o < |z.place| && Freed(z, o) && o in Seen(z, u) && Exclusives.Owned(z.gc, u) && (z.gc.tore ==> r.gc.tore) && (z.dropped ==> r.dropped)
  {
    DoTwo(r, DeferCleanup(t, o), Gc(RunInline(t)));
    assert EpochInv(r.gc) && ExclusiveInv(r.gc);
    Exclusives.NobodyCounted(r.gc, u);
    HandsOver(r, t, u, o);
    FreesInline(Do(r, DeferCleanup(t, o)), t, u, o, |r.gc.guards|);
  }

  lemma HandsOver(r: Rcu, t: Tid, u: Tid, o: Obj)
    requires Enabled(r, DeferCleanup(t, o)) && o in Seen(r, u) && Exclusives.Owned(r.gc, u)
    requires !AnyInCurrent(r.gc.word) && !AnyInOld(r.gc.word)
    ensures var r' := Do(r, DeferCleanup(t, o));
      && Shaped(r') && o in Seen(r', u) && Exclusives.Owned(r'.gc, u)
      && t in r'.gc.threads && r'.gc.threads[t].pc == Inline(|r.gc.guards|)
      && o < |r'.place| && r'.place[o] == Cargo(|r.gc.guards|) && r'.gc.tore == r.gc.tore && r'.dropped == r.dropped
  {
    Exclusives.InlineAtOnce(r.gc, t);
  }

  /** What every step demands. */
  ghost predicate Shaped(r: Rcu) {
    && |r.addr| == |r.place| && (r.val.Some? ==> r.val.value < |r.place|)
    && (forall t :: t in r.mid ==> r.mid[t].put < |r.place|) && (forall t :: t in r.early ==> r.early[t] < |r.place|)
  }

  lemma FreesInline(r: Rcu, t: Tid, u: Tid, o: Obj, i: Item)
    requires Shaped(r) && o in Seen(r, u) && Exclusives.Owned(r.gc, u) && t in r.gc.threads && r.gc.threads[t].pc == Inline(i)
    requires o < |r.place| && r.place[o] == Cargo(i)
    ensures var z := Do(r, Gc(RunInline(t)));
      o < |z.place| && Freed(z, o) && o in Seen(z, u) && Exclusives.Owned(z.gc, u) && z.gc.tore == r.gc.tore && z.dropped == r.dropped
  {
    InlineKeepsHold(r.gc, t);
  }

  lemma InlineKeepsHold(s: State, t: Tid)
    requires t in s.threads && s.threads[t].pc.Inline?
    ensures var z := Apply(s, RunInline(t));
      && z.ran == s.ran + [s.threads[t].pc.item] && z.tore == s.tore
      && forall v :: v in s.threads ==> v in z.threads && z.threads[v].hold == s.threads[v].hold
  {
  }

  // --------------------------------------------------- a barrier that throws

  /** Only a cmp_xchg that calls visibleBarrier in a section gets lost. */
  lemma DropsInside(r: Rcu, e: Step)
    requires !r.dropped && Do(r, e).dropped
    ensures e.BarrierThrows? && Inside(r.gc, e.t) && Exchanging(r, e.t, e.o)
  {
    Marked(r, e);
  }

  /** After the exchange and current.unlock(), what visibleBarrier does: it throws
      exactly if the caller is still in a section, and waits exactly if not. */
  lemma XchgBarrier(r: Rcu, t: Tid)
    requires Shaped(r) && t in r.mid && t in r.gc.threads && r.gc.threads[t].pc.Idle?
    requires r.mid[t].taken < |r.place| && r.place[r.mid[t].taken] == Swapped(t)
    ensures Enabled(r, BarrierThrows(t, r.mid[t].taken)) <==> !r.gc.threads[t].hold.Outside?
    ensures Enabled(r, BarrierCleanup(t, r.mid[t].taken)) <==> r.gc.threads[t].hold.Outside?
  {
  }

  /** When it ends, the object taken out, and no other, is cleaned up, and the caller
      may exchange again. */
  lemma BarrierEnds(r: Rcu, t: Tid, o: Obj)
    requires Enabled(r, BarrierDone(t, o))
    ensures var z := Do(r, BarrierDone(t, o));
      && z.val == r.val && z.place == r.place[o := Cleaned] && z.seen == r.seen
      && t in z.gc.threads && z.gc.threads[t].pc.Idle?
      && forall u :: u in z.mid <==> u in r.mid && (u == t ==> r.mid[u].taken != o)
  {
  }

  /** When it throws, the object put in is freed, in the cell or wherever others
      have taken it since, and the one taken out is lost. */
  lemma ThrowFrees(r: Rcu, t: Tid)
    requires t in r.mid && Enabled(r, BarrierThrows(t, r.mid[t].taken)) && r.mid[t].put != r.mid[t].taken
    ensures var z, x := Do(r, BarrierThrows(t, r.mid[t].taken)), r.mid[t];
      && z.val == r.val && z.gc == r.gc && |z.place| == |r.place| && Shaped(z)
      && Freed(z, x.put) && z.place[x.taken].Leaked?
  {
  }

  /** If it is in the cell, whoever looks next, in any section, gets it. */
  lemma FreedIsLoaded(r: Rcu, u: Tid)
    requires Shaped(r) && r.val.Some? && Freed(r, r.val.value) && Inside(r.gc, u) && r.gc.threads[u].pc.Idle?
    ensures var z := Do(r, Load(u)); r.val.value in Seen(z, u) && r.val.value < |z.place| && Freed(z, r.val.value)
  {
  }

  /** The object is lost: in nobody's hands, not in the cell. */
  predicate Lost(r: Rcu, o: Obj) {
    o < |r.place| && r.place[o].Leaked? && r.val != Some(o)
  }

  /** What a barrier that threw has lost is never cleaned up, unless it is still
      some other cmp_xchg's new value and that one throws. */
  lemma LostStays(r: Rcu, e: Step, o: Obj)
    requires Lost(r, o) && (e.BarrierThrows? && Exchanging(r, e.t, e.o) ==> r.mid[e.t].put != o)
    ensures Lost(Do(r, e), o)
  {
    if Enabled(r, e) {
      match e
      case Replace(t, given) => SwapKeepsLost(r, t, given, o);
      case CmpXchg(t, _, given, _) => SwapKeepsLost(r, t, given, o);
      case DeferCleanup(_, p) => assert p != o;
      case BarrierCleanup(_, p) => assert p != o;
      case BarrierDone(_, p) => assert p != o;
      case BarrierThrows(_, p) => assert p != o;
      case _ =>
    }
  }

  lemma SwapKeepsLost(r: Rcu, t: Tid, given: Option<Addr>, o: Obj)
    requires Lost(r, o) && |r.addr| == |r.place| && (r.val.Some? ==> r.val.value < |r.place|)
    ensures Lost(Swap(r, t, given), o)
  {
  }

  // --------------------------------------------------- a guard that is late

  /** A guard is late only if what its thread had loaded was handed over before,
      and does not wait for its section. */
  lemma LateAfterHandover(r: Rcu, e: Step)
    requires !r.late && Do(r, e).late
    ensures e.TakeGuard? && e.t in r.early && Inside(r.gc, e.t) && r.early[e.t] < |r.place|
    ensures var o := r.early[e.t];
      !NotYet(r.place[o]) && (Reading(r.gc, e.t) ==> !Kept(r, o, r.gc.threads[e.t].hold.sid))
  {
    Marked(r, e);
  }

  /** What is handed over once the section has been entered does wait for it. */
  lemma HandoverWaits(r: Rcu, t: Tid, u: Tid, o: Obj)
    requires Enabled(r, DeferCleanup(u, o)) && Reading(r.gc, t)
    ensures var z := Do(r, DeferCleanup(u, o)); o < |z.place| && Kept(z, o, r.gc.threads[t].hold.sid)
  {
    DeferIs(r.gc, u);
    assert r.gc.threads[t].hold.sid in Open(r.gc);
    assert Do(r, DeferCleanup(u, o)) == AfterDefer(r, u, o, Apply(r.gc, Defer(u)));
  }

  // ------------------------------------------------------------ whole runs

  function Start(e: int): Rcu {
    Rcu(Exclusives.Fresh(e), None, [], [], map[], map[], map[], false, false, false)
  }

  /** Object 0, at address 0, in the cell. */
  function OneIn(gc: State): Rcu {
    Rcu(gc, Some(0), [0], [InCell], map[], map[], map[], false, false, false)
  }

  lemma Begins(e: int)
    ensures R.Init(Start(e)) && Do(Start(e), Replace(1, Some(0))) == OneIn(Exclusives.Fresh(e))
  {
    Exclusives.FreshIsInit(e);
  }

  function GcSteps(acts: seq<Action>): (run: seq<Step>)
    ensures |run| == |acts|
  {
    seq(|acts|, i requires 0 <= i < |acts| => Gc(acts[i]))
  }

  /** The lock's own steps, while nobody has loaded anything. */
  lemma {:induction false} GcOnly(r: Rcu, acts: seq<Action>)
    requires Shaped(r) && r.seen == map[] && forall o :: 0 <= o < |r.place| ==> !r.place[o].Waits?
    ensures DoAll(r, GcSteps(acts)) == r.(gc := Exec(r.gc, acts))
    decreases |acts|
  {
    if acts != [] {
      var n := |acts| - 1;
      assert GcSteps(acts)[..n] == GcSteps(acts[..n]);
      GcOnly(r, acts[..n]);
      GcOne(r.(gc := Exec(r.gc, acts[..n])), acts[n]);
    }
  }

  lemma GcOne(r: Rcu, a: Action)
    requires Shaped(r) && r.seen == map[] && forall o :: 0 <= o < |r.place| ==> !r.place[o].Waits?
    ensures Do(r, Gc(a)) == r.(gc := Apply(r.gc, a))
  {
    assert Do(r, Gc(a)) == AfterGc(r, Apply(r.gc, a));
    assert AfterGc(r, Apply(r.gc, a)).seen.Keys == {};
  }

  const TAKE0 := Exclusives.LOCK0 + Exclusives.WAIT0

  /** Thread 0 has loaded object 0 under the exclusive lock, and thread 1 has
      swapped it out. */
  function SwappedUnderOwner(e: int): Rcu {
    Rcu(Exclusives.Taken(e), None, [0], [Swapped(1)], map[0 := {0}], map[], map[], false, false, false)
  }

  lemma SwapsUnderOwner(e: int)
    ensures DoAll(OneIn(Exclusives.Taken(e)), [Load(0), Replace(1, None)]) == SwappedUnderOwner(e)
  {
    DoTwo(OneIn(Exclusives.Taken(e)), Load(0), Replace(1, None));
    assert {} + {0} == {0};
    var r1 := OneIn(Exclusives.Taken(e)).(seen := map[0 := {0}]);
    assert Do(OneIn(Exclusives.Taken(e)), Load(0)) == r1;
    assert Do(r1, Replace(1, None)) == SwappedUnderOwner(e);
  }

  function ExclusiveRun(): seq<Step> {
    [Replace(1, Some(0))] + GcSteps(TAKE0) + [Load(0), Replace(1, None)] + [DeferCleanup(1, 0), Gc(RunInline(1))]
  }

  /** From any epoch: a thread loads an object under the exclusive lock, another
      replaces it, and it is cleaned up while the first still holds the lock. */
  lemma ExclusiveReaderSeesFreed(e: int)
    ensures R.Init(Start(e))
    ensures var z := DoAll(Start(e), ExclusiveRun());
      0 in Seen(z, 0) && |z.place| > 0 && Freed(z, 0) && Exclusives.Owned(z.gc, 0) && !z.gc.tore && !z.dropped
  {
    Begins(e);
    ToSwapped(e);
    var toSwapped := [Replace(1, Some(0))] + GcSteps(TAKE0) + [Load(0), Replace(1, None)];
    DoAppend(Start(e), toSwapped, [DeferCleanup(1, 0), Gc(RunInline(1))]);
    assert RcuInv(SwappedUnderOwner(e)) by { RcuRun(Start(e), toSwapped); }
    ExposedIsFreed(SwappedUnderOwner(e), 1, 0, 0);
  }

  lemma ToSwapped(e: int)
    ensures DoAll(Start(e), [Replace(1, Some(0))] + GcSteps(TAKE0) + [Load(0), Replace(1, None)]) == SwappedUnderOwner(e)
  {
    Begins(e);
    DoAppend(Start(e), [Replace(1, Some(0))], GcSteps(TAKE0));
    DoAppend(Start(e), [Replace(1, Some(0))] + GcSteps(TAKE0), [Load(0), Replace(1, None)]);
    assert [Replace(1, Some(0))][..0] == [];
    assert DoAll(Start(e), [Replace(1, Some(0))]) == Do(Start(e), Replace(1, Some(0)));
    GcOnly(OneIn(Exclusives.Fresh(e)), TAKE0);
    GcTheorems.ExecAppend(Exclusives.Fresh(e), Exclusives.LOCK0, Exclusives.WAIT0);
    Exclusives.Takes(e);
    Exclusives.Waits(e);
    SwapsUnderOwner(e);
  }

  const ENTER_BOTH := [LoadEnter(0), CasEnter(0)] + [LoadEnter(1), CasEnter(1)]

  lemma EntersIdly(s: State, t: Tid)
    requires t in s.threads && s.threads[t] == Thread(Outside, Idle) && !s.word.exclusive
    ensures var z := Exec(s, [LoadEnter(t), CasEnter(t)]);
      && Reading(z, t) && z.threads[t].pc.Idle? && !z.word.exclusive
      && forall u :: u in s.threads && u != t ==> u in z.threads && z.threads[u] == s.threads[u]
  {
    Exclusives.TwoSteps(s, LoadEnter(t), CasEnter(t));
    var s1 := Apply(s, LoadEnter(t));
    assert s1.threads[t] == Thread(Outside, Entering(s.word)) && s1.word == s.word;
    EnterKeepsVisible(s.word);
  }

  /** Both threads are in shared sections. */
  function BothIn(e: int): State {
    Exec(Exclusives.Fresh(e), ENTER_BOTH)
  }

  lemma BothAreIn(e: int)
    ensures var s := BothIn(e); Reading(s, 0) && s.threads[0].pc.Idle? && Reading(s, 1) && s.threads[1].pc.Idle?
  {
    GcTheorems.ExecAppend(Exclusives.Fresh(e), [LoadEnter(0), CasEnter(0)], [LoadEnter(1), CasEnter(1)]);
    EntersIdly(Exclusives.Fresh(e), 0);
    EntersIdly(Exec(Exclusives.Fresh(e), [LoadEnter(0), CasEnter(0)]), 1);
  }

  /** Thread 0 has exchanged object 0 for object 1, and is to wait for a barrier. */
  function Exchanged(gc: State): Rcu {
    Rcu(gc, Some(1), [0, 1], [Swapped(0), InCell], map[0 := {0}], map[], map[0 := Exchange(0, 1)], false, false, false)
  }

  lemma Exchanges(gc: State)
    requires Reading(gc, 0) && gc.threads[0].pc.Idle?
    ensures DoAll(OneIn(gc), [Load(0), CmpXchg(0, 0, Some(1), false)]) == Exchanged(gc)
  {
    DoTwo(OneIn(gc), Load(0), CmpXchg(0, 0, Some(1), false));
    assert {} + {0} == {0};
    var r1 := OneIn(gc).(seen := map[0 := {0}]);
    assert Do(OneIn(gc), Load(0)) == r1;
    assert [0] + [1] == [0, 1] && [InCell][0 := Swapped(0)] + [InCell] == [Swapped(0), InCell];
    assert Enabled(r1, CmpXchg(0, 0, Some(1), false));
  }

  function ThrowRun(): seq<Step> {
    [Replace(1, Some(0))] + GcSteps(ENTER_BOTH) + [Load(0), CmpXchg(0, 0, Some(1), false)] + [BarrierThrows(0, 0), Load(1)]
  }

  /** From any epoch: thread 0, in a section that current.unlock() does not leave,
      exchanges the object and waits; visibleBarrier throws, the new object is freed
      in the cell, and thread 1 loads it inside a section. */
  lemma ThrowFreesCell(e: int)
    ensures R.Init(Start(e))
    ensures var z := DoAll(Start(e), ThrowRun());
      && z.val == Some(1) && |z.place| == 2 && Freed(z, 1) && 1 in Seen(z, 1) && Reading(z.gc, 1) && z.place[0].Leaked?
      && !z.gc.tore && !z.exposed
  {
    var gc := BothIn(e);
    Begins(e);
    BothAreIn(e);
    ToExchanged(e);
    DoAppend(Start(e), [Replace(1, Some(0))] + GcSteps(ENTER_BOTH) + [Load(0), CmpXchg(0, 0, Some(1), false)], [BarrierThrows(0, 0), Load(1)]);
    DoTwo(Exchanged(gc), BarrierThrows(0, 0), Load(1));
    ThrowFrees(Exchanged(gc), 0);
    FreedIsLoaded(Do(Exchanged(gc), BarrierThrows(0, 0)), 1);
    ThrowAndLoad(gc);
    NotTorn(e);
  }

  lemma ThrowAndLoad(gc: State)
    requires Reading(gc, 0) && gc.threads[0].pc.Idle? && Reading(gc, 1) && gc.threads[1].pc.Idle?
    ensures var z := Do(Do(Exchanged(gc), BarrierThrows(0, 0)), Load(1));
      z.val == Some(1) && z.place == [Leaked, Cleaned] && z.gc == gc && !z.exposed
  {
    assert Exchanged(gc).place[0 := Leaked][1 := Cleaned] == [Leaked, Cleaned];
  }

  /** Nobody walks, so nothing is torn. */
  lemma NotTorn(e: int)
    ensures !BothIn(e).tore
  {
    GcTheorems.ExecAppend(Exclusives.Fresh(e), [LoadEnter(0), CasEnter(0)], [LoadEnter(1), CasEnter(1)]);
    TornByNobody(Exclusives.Fresh(e), 0);
    EntersIdly(Exclusives.Fresh(e), 0);
    TornByNobody(Exec(Exclusives.Fresh(e), [LoadEnter(0), CasEnter(0)]), 1);
  }

  lemma TornByNobody(s: State, t: Tid)
    requires t in s.threads && s.threads[t] == Thread(Outside, Idle) && !s.word.exclusive && !s.tore
    requires forall u :: u in s.threads ==> s.threads[u].pc.Idle?
    ensures var z := Exec(s, [LoadEnter(t), CasEnter(t)]); !z.tore && z.threads.Keys == s.threads.Keys
  {
    Exclusives.TwoSteps(s, LoadEnter(t), CasEnter(t));
    var s1 := Apply(s, LoadEnter(t));
    assert s1.threads[t] == Thread(Outside, Entering(s.word)) && s1.word == s.word;
  }

  lemma ToExchanged(e: int)
    ensures DoAll(Start(e), [Replace(1, Some(0))] + GcSteps(ENTER_BOTH) + [Load(0), CmpXchg(0, 0, Some(1), false)]) == Exchanged(BothIn(e))
  {
    Begins(e);
    DoAppend(Start(e), [Replace(1, Some(0))], GcSteps(ENTER_BOTH));
    DoAppend(Start(e), [Replace(1, Some(0))] + GcSteps(ENTER_BOTH), [Load(0), CmpXchg(0, 0, Some(1), false)]);
    assert [Replace(1, Some(0))][..0] == [];
    assert DoAll(Start(e), [Replace(1, Some(0))]) == Do(Start(e), Replace(1, Some(0)));
    GcOnly(OneIn(Exclusives.Fresh(e)), ENTER_BOTH);
    BothAreIn(e);
    Exchanges(BothIn(e));
  }

  /** Thread 0 has loaded object 0 for a guard, and thread 1 has swapped it out. */
  function LoadedEarly(gc: State): Rcu {
    Rcu(gc, None, [0], [Swapped(1)], map[], map[0 := 0], map[], false, false, false)
  }

  lemma LoadsEarly(gc: State)
    requires 0 in gc.threads && gc.threads[0] == Thread(Outside, Idle) && 1 in gc.threads && gc.threads[1].pc.Idle?
    ensures DoAll(OneIn(gc), [LoadEarly(0), Replace(1, None)]) == LoadedEarly(gc)
  {
    DoTwo(OneIn(gc), LoadEarly(0), Replace(1, None));
    var r1 := OneIn(gc).(early := map[0 := 0]);
    assert Do(OneIn(gc), LoadEarly(0)) == r1;
    assert Do(r1, Replace(1, None)) == LoadedEarly(gc);
  }

  /** It is cleaned up at once, since nobody is inside. */
  function FreedEarly(gc: State): Rcu {
    Rcu(gc, None, [0], [Cargo(0)], map[], map[0 := 0], map[], false, false, false)
  }

  lemma FreesEarly(e: int)
    ensures DoAll(LoadedEarly(Exclusives.Fresh(e)), [DeferCleanup(1, 0), Gc(RunInline(1))]) == FreedEarly(Served(e))
  {
    var s := Exclusives.Fresh(e);
    DoTwo(LoadedEarly(s), DeferCleanup(1, 0), Gc(RunInline(1)));
    Exclusives.TwoSteps(s, Defer(1), RunInline(1));
    HandsEarly(s);
    GcOne(FreedEarly(Apply(s, Defer(1))), RunInline(1));
  }

  lemma ServedIs(e: int)
    ensures var gc := Served(e);
      && gc.ran == [0] && gc.word == Word(e, 0, 0, false) && gc.threads.Keys == {0, 1} && gc.threads[0] == Thread(Outside, Idle)
      && gc.threads[1].pc.Idle? && !gc.tore
  {
    var s := Exclusives.Fresh(e);
    Exclusives.TwoSteps(s, Defer(1), RunInline(1));
    Exclusives.InlineAtOnce(s, 1);
    InlineRan(Apply(s, Defer(1)), 1);
  }

  lemma HandsEarly(s: State)
    requires 1 in s.threads && s.threads[1].pc.Idle? && s.guards == []
    ensures Do(LoadedEarly(s), DeferCleanup(1, 0)) == FreedEarly(Apply(s, Defer(1)))
  {
    var r := LoadedEarly(s);
    assert Do(r, DeferCleanup(1, 0)) == AfterDefer(r, 1, 0, Apply(s, Defer(1)));
    assert [Swapped(1)][0 := Cargo(0)] == [Cargo(0)];
  }

  lemma InlineRan(s: State, t: Tid)
    requires t in s.threads && s.threads[t].pc.Inline?
    ensures var z := Apply(s, RunInline(t));
      && z.ran == s.ran + [s.threads[t].pc.item] && z.word == s.word && z.tore == s.tore && z.threads == s.threads[t := s.threads[t].(pc := Idle)]
  {
  }

  const ENTER0 := [LoadEnter(0), CasEnter(0)]

  function LateRun(): seq<Step> {
    [Replace(1, Some(0))] + [LoadEarly(0), Replace(1, None)] + [DeferCleanup(1, 0), Gc(RunInline(1))] + GcSteps(ENTER0) + [TakeGuard(0)]
  }

  /** From any epoch: operator () loads the object, another thread replaces it and
      it is cleaned up, and then the guard's section is entered: the guard refers to
      a freed object. */
  lemma LateGuardSeesFreed(e: int)
    ensures R.Init(Start(e))
    ensures var z := DoAll(Start(e), LateRun());
      0 in Seen(z, 0) && |z.place| > 0 && Freed(z, 0) && Reading(z.gc, 0) && !z.gc.tore && !z.dropped && !z.exposed
  {
    Begins(e);
    ToFreed(e);
    IdleAfter(e);
    GuardsFreed(Entered(e));
  }

  function Served(e: int): State {
    Exec(Exclusives.Fresh(e), [Defer(1), RunInline(1)])
  }

  function Entered(e: int): State {
    Exec(Served(e), ENTER0)
  }

  lemma IdleAfter(e: int)
    ensures var gc := Entered(e); Reading(gc, 0) && gc.threads[0].pc.Idle? && gc.ran == [0] && !gc.tore
  {
    ServedIs(e);
    EntersIdly(Served(e), 0);
    TornByNobody(Served(e), 0);
    RanStays(Served(e), 0);
  }

  lemma RanStays(s: State, t: Tid)
    requires t in s.threads && s.threads[t] == Thread(Outside, Idle) && !s.word.exclusive
    ensures Exec(s, [LoadEnter(t), CasEnter(t)]).ran == s.ran
  {
    Exclusives.TwoSteps(s, LoadEnter(t), CasEnter(t));
  }

  lemma GuardsFreed(gc: State)
    requires Reading(gc, 0) && gc.threads[0].pc.Idle? && gc.ran == [0]
    ensures var z := DoAll(FreedEarly(gc), [TakeGuard(0)]);
      0 in Seen(z, 0) && |z.place| > 0 && Freed(z, 0) && z.gc == gc && !z.dropped && !z.exposed
  {
    assert [TakeGuard(0)][..0] == [];
    assert DoAll(FreedEarly(gc), [TakeGuard(0)]) == Do(FreedEarly(gc), TakeGuard(0));
    assert Do(FreedEarly(gc), TakeGuard(0)) == AfterGuard(FreedEarly(gc), 0);
  }

  /** Stretch after stretch. */
  lemma Chain(r0: Rcu, p: seq<Step>, r1: Rcu, q: seq<Step>, r2: Rcu, u: seq<Step>, r3: Rcu, v: seq<Step>, r4: Rcu, w: seq<Step>)
    requires DoAll(r0, p) == r1 && DoAll(r1, q) == r2 && DoAll(r2, u) == r3 && DoAll(r3, v) == r4
    ensures DoAll(r0, p + q + u + v + w) == DoAll(r4, w)
  {
    DoAppend(r0, p, q);
    DoAppend(r0, p + q, u);
    DoAppend(r0, p + q + u, v);
    DoAppend(r0, p + q + u + v, w);
  }

  lemma ToFreed(e: int)
    ensures DoAll(Start(e), LateRun()) == DoAll(FreedEarly(Entered(e)), [TakeGuard(0)])
  {
    Begins(e);
    DoOne(Start(e), Replace(1, Some(0)));
    LoadsEarly(Exclusives.Fresh(e));
    FreesEarly(e);
    GcOnly(FreedEarly(Served(e)), ENTER0);
    Chain(Start(e), [Replace(1, Some(0))], OneIn(Exclusives.Fresh(e)), [LoadEarly(0), Replace(1, None)], LoadedEarly(Exclusives.Fresh(e)),
          [DeferCleanup(1, 0), Gc(RunInline(1))], FreedEarly(Served(e)), GcSteps(ENTER0), FreedEarly(Entered(e)), [TakeGuard(0)]);
  }

  lemma DoOne(r: Rcu, a: Step)
    ensures DoAll(r, [a]) == Do(r, a)
  {
    assert [a][..0] == [];
  }
}
