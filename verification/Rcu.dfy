/** RcuProtected on top of GcLock (arch/rcu_protected.h): a cell that readers
    load inside a guard, and writers that swap its object out and have it
    cleaned up by deferred work or after a visibleBarrier.

    Objects are numbered by allocation; `addr` is the address each was given,
    and an address may be given again once its object has been cleaned up. */
module Rcu {
  import opened GcWord
  import opened GcProtocol
  import GcTheorems

  type Obj = nat
  type Addr = nat

  /** Where an object is: in the cell, swapped out by a thread that has yet to
      hand it over, waiting for that thread's visibleBarrier, handed to defer,
      cleaned up after a barrier, or lost to one that threw. */
  datatype Place = InCell | Swapped(t: Tid) | Waits(t: Tid) | Cargo(item: Item) | Cleaned | Leaked

  /** A cmp_xchg that is to wait for a barrier: what it took out, and what it put
      in, which the caller's unique_ptr still owns. */
  datatype Exchange = Exchange(taken: Obj, put: Obj)

  datatype Rcu = Rcu(
    gc: State,
    val: Option<Obj>,
    addr: seq<Addr>,
    place: seq<Place>,
    seen: map<Tid, set<Obj>>,   // loaded by a thread in its present section
    early: map<Tid, Obj>,       // loaded for a guard whose section is not entered yet
    mid: map<Tid, Exchange>,    // exchanged, newValue not released yet
    exposed: bool,              // handed over under an exclusive holder who had loaded it (history)
    dropped: bool,              // a cmp_xchg has thrown after its exchange (history)
    late: bool)                 // a guard was taken on what no longer waits for its section (history)

  datatype Step =
    | Gc(a: Action)                                          // GcLock's own steps
    | Load(t: Tid)                                           // val is loaded inside a section
    | LoadEarly(t: Tid)                                      // operator (): val is loaded ...
    | TakeGuard(t: Tid)                                      // ... and RcuLocked has entered a section
    | Replace(t: Tid, given: Option<Addr>)                   // replace: val.exchange(newVal)
    | CmpXchg(t: Tid, current: Obj, given: Option<Addr>, defer: bool)   // cmp_xchg on a loaded object
    | DeferCleanup(t: Tid, o: Obj)                           // lock->defer(cleanup, o)
    | BarrierCleanup(t: Tid, o: Obj)                         // visibleBarrier() begins
    | BarrierDone(t: Tid, o: Obj)                            // it returns; cleanup(o)
    | BarrierThrows(t: Tid, o: Obj)                          // it throws, called in a section

  function Seen(r: Rcu, t: Tid): set<Obj> {
    if t in r.seen then r.seen[t] else {}
  }

  /** The object has been cleaned up. */
  ghost predicate Freed(r: Rcu, o: Obj)
    requires o < |r.place|
  {
    r.place[o].Cleaned? || (r.place[o].Cargo? && r.place[o].item in r.gc.ran)
  }

  /** The allocator gives no address that is still in use. */
  ghost predicate Usable(r: Rcu, a: Addr) {
    |r.addr| == |r.place| && forall o :: 0 <= o < |r.place| && r.addr[o] == a ==> Freed(r, o)
  }

  function Put(r: Rcu, o: Obj, p: Place): Rcu
    requires o < |r.place|
  {
    r.(place := r.place[o := p])
  }

  /** The cell's object goes to the thread that swapped it out; the new one, if
      any, is a new allocation. */
  function Swap(r: Rcu, t: Tid, given: Option<Addr>): Rcu
    requires r.val.Some? ==> r.val.value < |r.place|
  {
    var r1 := if r.val.Some? then Put(r, r.val.value, Swapped(t)) else r;
    match given
    case None => r1.(val := None)
    case Some(a) => r1.(val := Some(|r.place|), addr := r.addr + [a], place := r1.place + [InCell])
  }

  /** An exclusive holder has loaded the object. */
  predicate SeenByOwner(r: Rcu, o: Obj) {
    exists u :: u in r.seen && o in r.seen[u] && u in r.gc.threads && r.gc.threads[u].hold.Exclusive?
  }

  /** The thread is in a cmp_xchg that took the object out. */
  predicate Exchanging(r: Rcu, t: Tid, o: Obj) {
    t in r.mid && r.mid[t].taken == o
  }

  ghost predicate Enabled(r: Rcu, e: Step) {
    && |r.addr| == |r.place| && (r.val.Some? ==> r.val.value < |r.place|)
    && (forall t :: t in r.mid ==> r.mid[t].put < |r.place|) && (forall t :: t in r.early ==> r.early[t] < |r.place|)
    && match e
       case Gc(a) =>
         // a thread inside replace's visibleBarrier leaves it through BarrierDone
         a.BarrierPoll? ==> forall o :: 0 <= o < |r.place| ==> r.place[o] != Waits(a.t)
       case Load(t) => Inside(r.gc, t) && r.gc.threads[t].pc.Idle?
       case LoadEarly(t) => t in r.gc.threads && r.gc.threads[t] == Thread(Outside, Idle)
       case TakeGuard(t) => Inside(r.gc, t) && r.gc.threads[t].pc.Idle? && t in r.early
       case Replace(t, given) => t in r.gc.threads && r.gc.threads[t].pc.Idle? && (given.Some? ==> Usable(r, given.value))
       case CmpXchg(t, current, given, defer) =>
         && Inside(r.gc, t) && r.gc.threads[t].pc.Idle? && t !in r.mid && current in Seen(r, t) && current < |r.addr|
         && (given.Some? ==> Usable(r, given.value))
         && r.val.Some? && r.addr[r.val.value] == r.addr[current]   // the exchange succeeds: same address
       case DeferCleanup(t, o) =>
         t in r.gc.threads && r.gc.threads[t].pc.Idle? && o < |r.place| && r.place[o] == Swapped(t) && !Exchanging(r, t, o)
       case BarrierCleanup(t, o) =>
         t in r.gc.threads && r.gc.threads[t] == Thread(Outside, Idle) && o < |r.place| && r.place[o] == Swapped(t)
       case BarrierDone(t, o) =>
         && o < |r.place| && r.place[o] == Waits(t) && t in r.gc.threads && r.gc.threads[t].pc.Barrier?
         && BarrierOpen(r.gc.word, r.gc.threads[t].pc.from)
       case BarrierThrows(t, o) =>
         Inside(r.gc, t) && r.gc.threads[t].pc.Idle? && o < |r.place| && r.place[o] == Swapped(t)
  }

  /** What a thread has loaded lasts as long as its section. */
  function AfterGc(r: Rcu, gc: State): Rcu {
    r.(gc := gc, seen := map t | t in r.seen && Inside(gc, t) :: r.seen[t])
  }

  function AfterLoad(r: Rcu, t: Tid): Rcu {
    if r.val.Some? then r.(seen := r.seen[t := Seen(r, t) + {r.val.value}]) else r
  }

  function AfterEarly(r: Rcu, t: Tid): Rcu {
    r.(early := if r.val.Some? then r.early[t := r.val.value] else r.early - {t})
  }

  ghost function AfterGuard(r: Rcu, t: Tid): Rcu
    requires Inside(r.gc, t) && t in r.early
  {
    r.(seen := r.seen[t := Seen(r, t) + {r.early[t]}], early := r.early - {t}, late := r.late || !SeenOk(r, t, r.early[t]))
  }

  /** The guard now refers to the new object, or its unique_ptr still does. */
  function AfterXchg(r: Rcu, t: Tid, given: Option<Addr>, defer: bool): Rcu
    requires r.val.Some? && r.val.value < |r.place|
  {
    var r1 := Swap(r, t, given);
    if given.None? then r1
    else if defer then AfterLoad(r1, t)
    else r1.(mid := r1.mid[t := Exchange(r.val.value, |r.place|)])
  }

  function AfterDefer(r: Rcu, t: Tid, o: Obj, gc: State): Rcu
    requires o < |r.place|
  {
    Put(r, o, Cargo(|r.gc.guards|)).(gc := gc, exposed := r.exposed || SeenByOwner(r, o))
  }

  function AfterStart(r: Rcu, t: Tid, o: Obj, gc: State): Rcu
    requires o < |r.place|
  {
    Put(r, o, Waits(t)).(gc := gc, exposed := r.exposed || SeenByOwner(r, o))
  }

  function AfterDone(r: Rcu, t: Tid, o: Obj, gc: State): Rcu
    requires o < |r.place|
  {
    Put(r, o, Cleaned).(gc := gc, mid := if Exchanging(r, t, o) then r.mid - {t} else r.mid)
  }

  /** The exception unwinds the caller, and newValue's unique_ptr frees what it owns. */
  function AfterThrow(r: Rcu, t: Tid, o: Obj): Rcu
    requires o < |r.place| && (t in r.mid ==> r.mid[t].put < |r.place|)
  {
    if Exchanging(r, t, o)
    then Put(Put(r, o, Leaked), r.mid[t].put, Cleaned).(mid := r.mid - {t}, dropped := true)
    else Put(r, o, Leaked)
  }

  ghost function Do(r: Rcu, e: Step): Rcu {
    if !Enabled(r, e) then r else
    match e
    case Gc(a) => AfterGc(r, Apply(r.gc, a))
    case Load(t) => AfterLoad(r, t)
    case LoadEarly(t) => AfterEarly(r, t)
    case TakeGuard(t) => AfterGuard(r, t)
    case Replace(t, given) => Swap(r, t, given)
    case CmpXchg(t, _, given, defer) => AfterXchg(r, t, given, defer)
    case DeferCleanup(t, o) => AfterDefer(r, t, o, Apply(r.gc, Defer(t)))
    case BarrierCleanup(t, o) => AfterStart(r, t, o, Apply(r.gc, BarrierStart(t)))
    case BarrierDone(t, o) => AfterDone(r, t, o, Apply(r.gc, BarrierPoll(t)))
    case BarrierThrows(t, o) => AfterThrow(r, t, o)
  }

  ghost function DoAll(r: Rcu, run: seq<Step>): Rcu
    decreases |run|
  {
    if run == [] then r else Do(DoAll(r, run[..|run| - 1]), run[|run| - 1])
  }

  ghost predicate Init(r: Rcu) {
    GcProtocol.Init(r.gc) && r.val.None? && r.addr == [] && r.place == [] && r.seen == map[] && r.early == map[] && r.mid == map[] && !r.exposed && !r.dropped && !r.late
  }

  // ------------------------------------------------------------- invariants

  /** One object in the cell, one per item, one per waiting thread, and addresses in use are
      distinct. */
  ghost predicate PlaceInv(r: Rcu) {
    && |r.addr| == |r.place|
    && (r.val.Some? ==> r.val.value < |r.place|)
    && (forall o :: 0 <= o < |r.place| ==> (r.place[o] == InCell <==> r.val == Some(o)))
    && (forall o, p :: (0 <= o < |r.place| && 0 <= p < |r.place| && r.place[o] == r.place[p]
                        && (r.place[o].Cargo? || r.place[o].Waits?)) ==> o == p)
    && (forall o :: 0 <= o < |r.place| && r.place[o].Cargo? ==> r.place[o].item < |r.gc.guards|)
    && (forall o :: 0 <= o < |r.place| && r.place[o].Waits? ==>
          r.place[o].t in r.gc.threads && r.gc.threads[r.place[o].t].pc.Barrier?)
  }

  ghost predicate AddrInv(r: Rcu) {
    |r.addr| == |r.place| &&
    forall o, p :: 0 <= o < p < |r.place| && r.addr[o] == r.addr[p] ==> Freed(r, o) || Freed(r, p)
  }

  /** What keeps an object alive for the shared section `sid`. */
  ghost predicate Kept(r: Rcu, o: Obj, sid: Sid)
    requires o < |r.place|
  {
    match r.place[o]
    case InCell => true
    case Swapped(_) => true
    case Waits(u) => u in r.gc.threads && r.gc.threads[u].pc.Barrier? && sid in r.gc.threads[u].pc.waitFor
    case Cargo(i) => i < |r.gc.guards| && sid in r.gc.guards[i]
    case Cleaned => false
    case Leaked => true
  }

  /** Nobody has handed the object over. */
  predicate NotYet(p: Place) {
    p.InCell? || p.Swapped? || p.Leaked?
  }

  ghost predicate SeenInv(r: Rcu) {
    && (forall t :: t in r.seen ==> Inside(r.gc, t))
    && (forall t, o {:trigger SeenOk(r, t, o)} :: t in r.seen && o in r.seen[t] ==> SeenOk(r, t, o))
  }

  ghost predicate SeenOk(r: Rcu, t: Tid, o: Obj)
    requires Inside(r.gc, t)
  {
    r.late || (o < |r.place| &&
    if r.gc.threads[t].hold.Shared? then Kept(r, o, r.gc.threads[t].hold.sid) else !r.exposed ==> NotYet(r.place[o]))
  }

  /** All that holds of a cell as long as no cmp_xchg has thrown. */
  ghost predicate CellInv(r: Rcu) {
    PlaceInv(r) && AddrInv(r) && SeenInv(r)
  }

  // --------------------------------------------------------------- theorems

  /** Nothing that breaks the promise to thread `t` has happened: no guard was taken
      on an object handed over before its section was entered, no cmp_xchg has
      thrown, no entry has torn a test of checkDefers, and, if `t` is in an
      exclusive section, nothing that such a holder had loaded was handed over. */
  ghost predicate Undisturbed(z: Rcu, t: Tid) {
    !z.late && !z.dropped && !z.gc.tore && (Reading(z.gc, t) || !z.exposed)
  }

  lemma SeenIsLive(r: Rcu, t: Tid, o: Obj)
    requires HomeInv(r.gc) && GraceInv(r.gc) && SeenInv(r) && o in Seen(r, t)
    ensures Undisturbed(r, t) ==> o < |r.place| && !Freed(r, o)
  {
    assert Inside(r.gc, t) && SeenOk(r, t, o);
    if Reading(r.gc, t) && !r.late {
      assert r.gc.threads[t].hold.sid in OpenShared(r.gc);
      if r.place[o].Cargo? && r.place[o].item in r.gc.ran {
        GcTheorems.RanIsClosed(r.gc, r.place[o].item);
      }
    }
  }

  /** Reclamation, over every run of readers, writers and the lock: nothing a
      thread has loaded inside its present section, shared or exclusive, has been
      cleaned up, unless one of four things has happened on the way. */
  lemma ReadersNeverSeeFreed(r: Rcu, run: seq<Step>, t: Tid, o: Obj)
    requires Init(r) && o in Seen(DoAll(r, run), t)
    ensures var z := DoAll(r, run);
      !z.late && !z.dropped && !z.gc.tore && (Reading(z.gc, t) || !z.exposed) ==> o < |z.place| && !Freed(z, o)
  {
    RcuRun(r, run);
    if !DoAll(r, run).dropped { SeenIsLive(DoAll(r, run), t, o); }
  }

  /** A cmp_xchg in a section that finds the loaded address in the cell has
      found the loaded object, not a later one at a recycled address; with the
      same proviso. */
  lemma NoRecycledAddress(r: Rcu, run: seq<Step>, t: Tid, o: Obj)
    requires Init(r) && o in Seen(DoAll(r, run), t)
    ensures var z := DoAll(r, run);
      && !z.late && !z.dropped && !z.gc.tore && (Reading(z.gc, t) || !z.exposed)
      && z.val.Some? && z.val.value < |z.addr| && o < |z.addr| && z.addr[z.val.value] == z.addr[o]
      ==> z.val == Some(o)
  {
    RcuRun(r, run);
    var z := DoAll(r, run);
    if !z.dropped {
      SeenIsLive(z, t, o);
      assert z.val.Some? ==> z.place[z.val.value] == InCell && !Freed(z, z.val.value);
    }
  }

  /** After val.exchange, the object taken out is not at the address of the one
      in the cell: replace's and cmp_xchg's assertion holds, as long as no
      cmp_xchg has thrown. */
  lemma SwappedOutIsNotIn(r: Rcu, run: seq<Step>, o: Obj)
    requires Init(r)
    ensures var z := DoAll(r, run);
      !z.dropped && o < |z.place| && z.place[o].Swapped? && z.val.Some? ==>
        o < |z.addr| && z.val.value < |z.addr| && z.addr[z.val.value] != z.addr[o]
  {
    var z := DoAll(r, run);
    if !z.dropped {
      assert PlaceInv(z) && AddrInv(z) by { RcuRun(r, run); }
      if o < |z.place| && z.place[o].Swapped? && z.val.Some? { InCellApart(z, o); }
    }
  }

  lemma InCellApart(z: Rcu, o: Obj)
    requires PlaceInv(z) && AddrInv(z) && z.val.Some? && o < |z.place| && z.place[o].Swapped?
    ensures z.addr[z.val.value] != z.addr[o]
  {
    assert z.place[z.val.value] == InCell;
  }

  // ------------------------------------------------------------ preservation

  /** What a step of GcLock leaves alone, as far as the cell is concerned. */
  ghost predicate GcKeeps(s: State, s': State, a: Action) {
    && s.guards <= s'.guards
    && (forall i :: i in s.ran ==> i in s'.ran)
    && s'.threads.Keys == s.threads.Keys
    && (forall u :: u in s.threads && s.threads[u].pc.Barrier? && a != BarrierPoll(u) ==> s'.threads[u].pc == s.threads[u].pc)
    && (forall u :: Inside(s, u) && Inside(s', u) ==> s'.threads[u].hold == s.threads[u].hold)
  }

  lemma GcStepKeeps(s: State, a: Action)
    requires a.t in s.threads ==> Sound(s, a.t)
    ensures GcKeeps(s, Apply(s, a), a)
  {
    if a.t in s.threads {
      var f := EffectOf(s, a);
      StepLocal(s, a);
      if s.threads[a.t].pc.Barrier? && !a.BarrierPoll? { WaitsOn(s, a); }
      CommitKeeps(s, a, f);
    }
  }

  /** A thread leaves visibleBarrier's loop only through its own look. */
  lemma WaitsOn(s: State, a: Action)
    requires a.t in s.threads && PcInv(s.threads[a.t]) && s.threads[a.t].pc.Barrier? && !a.BarrierPoll?
    ensures EffectOf(s, a).thread.pc == s.threads[a.t].pc
  {
  }

  lemma CommitKeeps(s: State, a: Action, f: Effect)
    requires a.t in s.threads && HoldStep(s, a.t, f)
    requires s.threads[a.t].pc.Barrier? && !a.BarrierPoll? ==> f.thread.pc == s.threads[a.t].pc
    ensures GcKeeps(s, Commit(s, a.t, f), a)
  {
    var s' := Commit(s, a.t, f);
    HistoryGrows(s, a.t, f);
    HoldsKept(s, a.t, f, s');
  }

  lemma HistoryGrows(s: State, t: Tid, f: Effect)
    requires t in s.threads
    ensures s.guards <= Commit(s, t, f).guards && forall i :: i in s.ran ==> i in Commit(s, t, f).ran
  {
  }

  lemma HoldsKept(s: State, t: Tid, f: Effect, s': State)
    requires Took(s, t, f, s') && HoldStep(s, t, f)
    ensures forall u :: Inside(s, u) && Inside(s', u) ==> s'.threads[u].hold == s.threads[u].hold
  {
  }

  /** Cleaning up more never brings two addresses together. */
  lemma KeepAddr(r: Rcu, r': Rcu)
    requires PlaceInv(r) && AddrInv(r) && |r'.place| == |r.place| && r'.addr == r.addr
    requires forall o :: 0 <= o < |r.place| ==> r'.place[o] == r.place[o] || r.place[o].Swapped? || r.place[o].Waits?
    requires forall i :: i in r.gc.ran ==> i in r'.gc.ran
    ensures AddrInv(r')
  {
    forall o | 0 <= o < |r.place| && Freed(r, o) ensures Freed(r', o) { }
  }

  lemma KeepGc(r: Rcu, r': Rcu, a: Action)
    requires PlaceInv(r) && SeenInv(r) && GcKeeps(r.gc, r'.gc, a) && r' == r.(gc := r'.gc, seen := r'.seen)
    requires a.BarrierPoll? ==> forall o :: 0 <= o < |r.place| ==> r.place[o] != Waits(a.t)
    requires forall t :: t in r'.seen ==> Inside(r'.gc, t) && t in r.seen && r'.seen[t] == r.seen[t]
    ensures PlaceInv(r') && SeenInv(r')
  {
    forall u, p | u in r'.seen && p in r'.seen[u] ensures SeenOk(r', u, p) {
      assert SeenOk(r, u, p);
    }
  }

  lemma KeepLoad(r: Rcu, t: Tid)
    requires PlaceInv(r) && SeenInv(r) && Inside(r.gc, t) && r.val.Some?
    ensures var r' := r.(seen := r.seen[t := Seen(r, t) + {r.val.value}]); PlaceInv(r') && SeenInv(r')
  {
    var r' := r.(seen := r.seen[t := Seen(r, t) + {r.val.value}]);
    forall u, p | u in r'.seen && p in r'.seen[u] ensures SeenOk(r', u, p) {
      assert u in r.seen && p in r.seen[u] ==> SeenOk(r, u, p);
    }
  }

  lemma KeepSwap(r: Rcu, t: Tid, given: Option<Addr>)
    requires CellInv(r) && (given.Some? ==> Usable(r, given.value))
    ensures CellInv(Swap(r, t, given))
  {
    KeepSwapPlaces(r, t, given);
    KeepSwapAddr(r, t, given);
    KeepSwapSeen(r, t, given);
  }

  lemma KeepSwapPlaces(r: Rcu, t: Tid, given: Option<Addr>)
    requires PlaceInv(r)
    ensures PlaceInv(Swap(r, t, given))
  {
    KeepOut(r, t);
    if given.Some? { KeepIn(TakenOut(r, t), given.value); }
  }

  /** The first half of an exchange, and the second. */
  function TakenOut(r: Rcu, t: Tid): Rcu
    requires r.val.Some? ==> r.val.value < |r.place|
  {
    (if r.val.Some? then Put(r, r.val.value, Swapped(t)) else r).(val := None)
  }

  lemma KeepOut(r: Rcu, t: Tid)
    requires PlaceInv(r)
    ensures PlaceInv(TakenOut(r, t))
  {
  }

  lemma KeepIn(r: Rcu, a: Addr)
    requires PlaceInv(r) && r.val.None?
    ensures PlaceInv(r.(val := Some(|r.place|), addr := r.addr + [a], place := r.place + [InCell]))
  {
  }

  lemma KeepSwapAddr(r: Rcu, t: Tid, given: Option<Addr>)
    requires PlaceInv(r) && AddrInv(r) && (given.Some? ==> Usable(r, given.value))
    ensures AddrInv(Swap(r, t, given))
  {
    var r' := Swap(r, t, given);
    forall o, p | 0 <= o < p < |r'.place| && r'.addr[o] == r'.addr[p] ensures Freed(r', o) || Freed(r', p) {
      assert p < |r.place| ==> Freed(r, o) || Freed(r, p);
      assert p == |r.place| ==> Freed(r, o);
    }
  }

  lemma KeepSwapSeen(r: Rcu, t: Tid, given: Option<Addr>)
    requires PlaceInv(r) && SeenInv(r)
    ensures SeenInv(Swap(r, t, given))
  {
    var r' := Swap(r, t, given);
    forall u, o | u in r'.seen && o in r'.seen[u] ensures SeenOk(r', u, o) {
      assert SeenOk(r, u, o);
    }
  }

  /** A swapped-out object is handed to deferred work that will wait for every
      shared section that is open. */
  lemma KeepDeferPlaces(r: Rcu, r': Rcu, t: Tid, o: Obj, a: Action)
    requires PlaceInv(r) && SeenInv(r) && o < |r.place| && r.place[o] == Swapped(t)
    requires GcKeeps(r.gc, r'.gc, a) && !a.BarrierPoll?
    requires r'.gc.guards == r.gc.guards + [Open(r.gc)]
    requires forall u :: Inside(r'.gc, u) <==> Inside(r.gc, u)
    requires r' == Put(r, o, Cargo(|r.gc.guards|)).(gc := r'.gc, exposed := r.exposed || SeenByOwner(r, o))
    ensures PlaceInv(r')
  {
  }

  lemma KeepDeferSeen(r: Rcu, r': Rcu, t: Tid, o: Obj, a: Action)
    requires PlaceInv(r) && SeenInv(r) && o < |r.place| && r.place[o] == Swapped(t)
    requires GcKeeps(r.gc, r'.gc, a) && !a.BarrierPoll?
    requires r'.gc.guards == r.gc.guards + [Open(r.gc)]
    requires forall u :: Inside(r'.gc, u) <==> Inside(r.gc, u)
    requires r' == Put(r, o, Cargo(|r.gc.guards|)).(gc := r'.gc, exposed := r.exposed || SeenByOwner(r, o))
    ensures SeenInv(r')
  {
    forall u, p | u in r'.seen && p in r'.seen[u] ensures SeenOk(r', u, p) {
      assert SeenOk(r, u, p);
    }
  }

  lemma KeepBarrierPlaces(r: Rcu, r': Rcu, t: Tid, o: Obj, a: Action)
    requires PlaceInv(r) && SeenInv(r) && o < |r.place| && r.place[o] == Swapped(t)
    requires GcKeeps(r.gc, r'.gc, a) && !a.BarrierPoll?
    requires t in r.gc.threads && !r.gc.threads[t].pc.Barrier?
    requires t in r'.gc.threads && r'.gc.threads[t].pc.Barrier? && r'.gc.threads[t].pc.waitFor == Open(r.gc)
    requires forall u :: Inside(r'.gc, u) <==> Inside(r.gc, u)
    requires r' == Put(r, o, Waits(t)).(gc := r'.gc, exposed := r.exposed || SeenByOwner(r, o))
    ensures PlaceInv(r')
  {
  }

  lemma KeepBarrierSeen(r: Rcu, r': Rcu, t: Tid, o: Obj, a: Action)
    requires PlaceInv(r) && SeenInv(r) && o < |r.place| && r.place[o] == Swapped(t)
    requires GcKeeps(r.gc, r'.gc, a) && !a.BarrierPoll?
    requires t in r.gc.threads && !r.gc.threads[t].pc.Barrier?
    requires t in r'.gc.threads && r'.gc.threads[t].pc.Barrier? && r'.gc.threads[t].pc.waitFor == Open(r.gc)
    requires forall u :: Inside(r'.gc, u) <==> Inside(r.gc, u)
    requires r' == Put(r, o, Waits(t)).(gc := r'.gc, exposed := r.exposed || SeenByOwner(r, o))
    ensures SeenInv(r')
  {
    forall u, p | u in r'.seen && p in r'.seen[u] ensures SeenOk(r', u, p) {
      assert SeenOk(r, u, p);
    }
  }

  lemma KeepBarrierDone(r: Rcu, r': Rcu, t: Tid, o: Obj)
    requires PlaceInv(r) && SeenInv(r) && o < |r.place| && r.place[o] == Waits(t)
    requires GcKeeps(r.gc, r'.gc, BarrierPoll(t)) && r'.gc.guards == r.gc.guards
    requires t in r.gc.threads && r.gc.threads[t].pc.Barrier? && r.gc.threads[t].pc.waitFor !! OpenShared(r.gc)
    requires forall u :: Inside(r'.gc, u) <==> Inside(r.gc, u)
    requires r' == Put(r, o, Cleaned).(gc := r'.gc, mid := r'.mid)
    ensures PlaceInv(r') && SeenInv(r')
  {
    forall u, p | u in r'.seen && p in r'.seen[u] ensures SeenOk(r', u, p) {
      assert SeenOk(r, u, p);
      assert Reading(r.gc, u) ==> r.gc.threads[u].hold.sid in OpenShared(r.gc);
    }
  }

  lemma KeepCellGc(r: Rcu, gc: State, a: Action)
    requires CellInv(r) && GcKeeps(r.gc, gc, a)
    requires a.BarrierPoll? ==> forall o :: 0 <= o < |r.place| ==> r.place[o] != Waits(a.t)
    ensures CellInv(AfterGc(r, gc))
  {
    KeepGc(r, AfterGc(r, gc), a);
    KeepAddr(r, AfterGc(r, gc));
  }

  lemma KeepCellLoad(r: Rcu, t: Tid)
    requires CellInv(r) && Inside(r.gc, t)
    ensures CellInv(AfterLoad(r, t))
  {
    if r.val.Some? {
      KeepLoad(r, t);
      KeepAddr(r, AfterLoad(r, t));
    }
  }

  lemma KeepCellEarly(r: Rcu, t: Tid)
    requires CellInv(r)
    ensures CellInv(AfterEarly(r, t))
  {
    var r' := AfterEarly(r, t);
    KeepAddr(r, r');
    forall u, p | u in r'.seen && p in r'.seen[u] ensures SeenOk(r', u, p) {
      assert SeenOk(r, u, p);
    }
  }

  lemma KeepCellGuard(r: Rcu, t: Tid)
    requires CellInv(r) && Inside(r.gc, t) && t in r.early
    ensures CellInv(AfterGuard(r, t))
  {
    var r' := AfterGuard(r, t);
    KeepAddr(r, r');
    forall u, p | u in r'.seen && p in r'.seen[u] ensures SeenOk(r', u, p) {
      assert u in r.seen && p in r.seen[u] ==> SeenOk(r, u, p);
    }
  }

  lemma KeepCellXchg(r: Rcu, t: Tid, given: Option<Addr>, defer: bool)
    requires CellInv(r) && Inside(r.gc, t) && r.val.Some? && (given.Some? ==> Usable(r, given.value))
    ensures CellInv(AfterXchg(r, t, given, defer))
  {
    KeepSwap(r, t, given);
    if given.Some? {
      if defer { KeepCellLoad(Swap(r, t, given), t); } else { KeepMid(Swap(r, t, given), AfterXchg(r, t, given, defer)); }
    }
  }

  /** Whose unique_ptr owns what makes no difference until one is destroyed. */
  lemma KeepMid(r: Rcu, r': Rcu)
    requires CellInv(r) && r' == r.(mid := r'.mid)
    ensures CellInv(r')
  {
    KeepAddr(r, r');
    forall u, p | u in r'.seen && p in r'.seen[u] ensures SeenOk(r', u, p) {
      assert SeenOk(r, u, p);
    }
  }

  lemma DeferIs(s: State, t: Tid)
    requires t in s.threads && s.threads[t].pc.Idle?
    ensures var s' := Apply(s, Defer(t)); s'.guards == s.guards + [Open(s)] && forall u :: Inside(s', u) <==> Inside(s, u)
  {
  }

  lemma BarrierStartIs(s: State, t: Tid)
    requires t in s.threads && s.threads[t] == Thread(Outside, Idle)
    ensures var s' := Apply(s, BarrierStart(t));
      && t in s'.threads && s'.threads[t].pc == Barrier(s.word.epoch, Open(s)) && forall u :: Inside(s', u) <==> Inside(s, u)
  {
  }

  lemma KeepCellDefer(r: Rcu, t: Tid, o: Obj)
    requires CellInv(r) && t in r.gc.threads && r.gc.threads[t].pc.Idle? && Sound(r.gc, t) && o < |r.place| && r.place[o] == Swapped(t)
    ensures CellInv(AfterDefer(r, t, o, Apply(r.gc, Defer(t))))
  {
    var r' := AfterDefer(r, t, o, Apply(r.gc, Defer(t)));
    GcStepKeeps(r.gc, Defer(t));
    DeferIs(r.gc, t);
    KeepDeferPlaces(r, r', t, o, Defer(t));
    KeepDeferSeen(r, r', t, o, Defer(t));
    KeepAddr(r, r');
  }

  lemma KeepCellStart(r: Rcu, t: Tid, o: Obj)
    requires CellInv(r) && t in r.gc.threads && r.gc.threads[t] == Thread(Outside, Idle) && Sound(r.gc, t) && o < |r.place| && r.place[o] == Swapped(t)
    ensures CellInv(AfterStart(r, t, o, Apply(r.gc, BarrierStart(t))))
  {
    var r' := AfterStart(r, t, o, Apply(r.gc, BarrierStart(t)));
    GcStepKeeps(r.gc, BarrierStart(t));
    BarrierStartIs(r.gc, t);
    KeepBarrierPlaces(r, r', t, o, BarrierStart(t));
    KeepBarrierSeen(r, r', t, o, BarrierStart(t));
    KeepAddr(r, r');
  }

  lemma BarrierPollIs(s: State, t: Tid)
    requires t in s.threads && s.threads[t].pc.Barrier?
    ensures var s' := Apply(s, BarrierPoll(t)); s'.guards == s.guards && forall u :: Inside(s', u) <==> Inside(s, u)
  {
  }

  lemma KeepCellDone(r: Rcu, t: Tid, o: Obj)
    requires CellInv(r) && t in r.gc.threads && r.gc.threads[t].pc.Barrier? && Sound(r.gc, t) && o < |r.place| && r.place[o] == Waits(t)
    requires r.gc.threads[t].pc.waitFor !! OpenShared(r.gc)
    ensures CellInv(AfterDone(r, t, o, Apply(r.gc, BarrierPoll(t))))
  {
    var r' := AfterDone(r, t, o, Apply(r.gc, BarrierPoll(t)));
    GcStepKeeps(r.gc, BarrierPoll(t));
    BarrierPollIs(r.gc, t);
    KeepBarrierDone(r, r', t, o);
    KeepAddr(r, r');
  }

  /** A barrier that throws outside cmp_xchg loses its object, and no more. */
  lemma KeepCellThrow(r: Rcu, t: Tid, o: Obj)
    requires CellInv(r) && o < |r.place| && r.place[o] == Swapped(t) && !Exchanging(r, t, o) && (t in r.mid ==> r.mid[t].put < |r.place|)
    ensures CellInv(AfterThrow(r, t, o))
  {
    var r' := AfterThrow(r, t, o);
    KeepAddr(r, r');
    forall u, p | u in r'.seen && p in r'.seen[u] ensures SeenOk(r', u, p) {
      assert SeenOk(r, u, p);
    }
  }

  lemma CellStep(r: Rcu, e: Step)
    requires CellInv(r) && !r.dropped && Enabled(r, e)
    requires forall t :: t in r.gc.threads ==> Sound(r.gc, t)
    requires e.BarrierDone? ==> r.gc.threads[e.t].pc.waitFor !! OpenShared(r.gc)
    ensures !Do(r, e).dropped ==> CellInv(Do(r, e))
  {
    match e
    case Gc(a) =>
      GcStepKeeps(r.gc, a);
      KeepCellGc(r, Apply(r.gc, a), a);
    case Load(t) => KeepCellLoad(r, t);
    case LoadEarly(t) => KeepCellEarly(r, t);
    case TakeGuard(t) => KeepCellGuard(r, t);
    case Replace(t, given) => KeepSwap(r, t, given);
    case CmpXchg(t, _, given, defer) => KeepCellXchg(r, t, given, defer);
    case DeferCleanup(t, o) => KeepCellDefer(r, t, o);
    case BarrierCleanup(t, o) => KeepCellStart(r, t, o);
    case BarrierDone(t, o) => KeepCellDone(r, t, o);
    case BarrierThrows(t, o) => if !Exchanging(r, t, o) { KeepCellThrow(r, t, o); }
  }

  function GcAction(e: Step): Option<Action> {
    match e
    case Gc(a) => Some(a)
    case DeferCleanup(t, _) => Some(Defer(t))
    case BarrierCleanup(t, _) => Some(BarrierStart(t))
    case BarrierDone(t, _) => Some(BarrierPoll(t))
    case _ => None
  }

  /** What a step does to the lock and to the history: at most one step of GcLock,
      and what sets each mark. */
  ghost predicate Marks(r: Rcu, r': Rcu, e: Step) {
    && (r'.gc == r.gc || (GcAction(e).Some? && r'.gc == Apply(r.gc, GcAction(e).value)))
    && (r.exposed ==> r'.exposed) && (r.dropped ==> r'.dropped) && (r.late ==> r'.late)
    && (r'.exposed && !r.exposed ==> (e.DeferCleanup? || e.BarrierCleanup?) && SeenByOwner(r, e.o))
    && (r'.dropped && !r.dropped ==> e.BarrierThrows? && Inside(r.gc, e.t) && Exchanging(r, e.t, e.o))
    && (r'.late && !r.late ==> e.TakeGuard? && Inside(r.gc, e.t) && e.t in r.early && !SeenOk(r, e.t, r.early[e.t]))
  }

  lemma MarkGc(r: Rcu, a: Action)
    ensures Marks(r, AfterGc(r, Apply(r.gc, a)), Gc(a))
  {
  }

  lemma MarkLoad(r: Rcu, t: Tid)
    ensures Marks(r, AfterLoad(r, t), Load(t))
  {
  }

  lemma MarkLoadEarly(r: Rcu, t: Tid)
    ensures Marks(r, AfterEarly(r, t), LoadEarly(t))
  {
  }

  lemma MarkTakeGuard(r: Rcu, t: Tid)
    requires Inside(r.gc, t) && t in r.early
    ensures Marks(r, AfterGuard(r, t), TakeGuard(t))
  {
  }

  lemma MarkReplace(r: Rcu, t: Tid, given: Option<Addr>)
    requires r.val.Some? ==> r.val.value < |r.place|
    ensures Marks(r, Swap(r, t, given), Replace(t, given))
  {
  }

  lemma MarkCmpXchg(r: Rcu, t: Tid, current: Obj, given: Option<Addr>, defer: bool)
    requires r.val.Some? && r.val.value < |r.place|
    ensures Marks(r, AfterXchg(r, t, given, defer), CmpXchg(t, current, given, defer))
  {
  }

  lemma MarkDeferCleanup(r: Rcu, t: Tid, o: Obj)
    requires o < |r.place|
    ensures Marks(r, AfterDefer(r, t, o, Apply(r.gc, Defer(t))), DeferCleanup(t, o))
  {
  }

  lemma MarkBarrierCleanup(r: Rcu, t: Tid, o: Obj)
    requires o < |r.place|
    ensures Marks(r, AfterStart(r, t, o, Apply(r.gc, BarrierStart(t))), BarrierCleanup(t, o))
  {
  }

  lemma MarkBarrierDone(r: Rcu, t: Tid, o: Obj)
    requires o < |r.place|
    ensures Marks(r, AfterDone(r, t, o, Apply(r.gc, BarrierPoll(t))), BarrierDone(t, o))
  {
  }

  lemma MarkBarrierThrows(r: Rcu, t: Tid, o: Obj)
    requires Inside(r.gc, t) && o < |r.place| && (t in r.mid ==> r.mid[t].put < |r.place|)
    ensures Marks(r, AfterThrow(r, t, o), BarrierThrows(t, o))
  {
  }

  lemma Marked(r: Rcu, e: Step)
    ensures Marks(r, Do(r, e), e)
  {
    if Enabled(r, e) {
      match e
      case Gc(a) => MarkGc(r, a);
      case Load(t) => MarkLoad(r, t);
      case LoadEarly(t) => MarkLoadEarly(r, t);
      case TakeGuard(t) => MarkTakeGuard(r, t);
      case Replace(t, given) => MarkReplace(r, t, given);
      case CmpXchg(t, current, given, defer) => MarkCmpXchg(r, t, current, given, defer);
      case DeferCleanup(t, o) => MarkDeferCleanup(r, t, o);
      case BarrierCleanup(t, o) => MarkBarrierCleanup(r, t, o);
      case BarrierDone(t, o) => MarkBarrierDone(r, t, o);
      case BarrierThrows(t, o) => MarkBarrierThrows(r, t, o);
    }
  }

  lemma {:induction false} RcuRun(r: Rcu, run: seq<Step>)
    requires Init(r)
    ensures RcuInv(DoAll(r, run))
    decreases |run|
  {
    if run == [] {
      InvInit(r.gc);
    } else {
      RcuRun(r, run[..|run| - 1]);
      RcuStep(DoAll(r, run[..|run| - 1]), run[|run| - 1]);
    }
  }

  /** The lock's invariant always, the cell's until a cmp_xchg throws. */
  ghost predicate RcuInv(r: Rcu) {
    Inv(r.gc) && (!r.dropped ==> CellInv(r))
  }

  lemma RcuStep(x: Rcu, e: Step)
    requires RcuInv(x)
    ensures RcuInv(Do(x, e))
  {
    Marked(x, e);
    if Do(x, e).gc != x.gc { InvStep(x.gc, GcAction(e).value); }
    if !x.dropped && Enabled(x, e) { CellInvStep(x, e); }
  }

  lemma CellInvStep(x: Rcu, e: Step)
    requires Inv(x.gc) && CellInv(x) && !x.dropped && Enabled(x, e)
    ensures !Do(x, e).dropped ==> CellInv(Do(x, e))
  {
    AllSound(x.gc);
    if e.BarrierDone? { GcTheorems.BarrierPasses(x.gc, e.t); }
    CellStep(x, e);
  }

  lemma AllSound(s: State)
    requires ExclusiveInv(s) && LockInv(s)
    ensures forall t :: t in s.threads ==> Sound(s, t)
  {
  }
}
