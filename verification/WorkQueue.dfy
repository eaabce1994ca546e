/** ThreadQueue (base/thread_pool_impl.h): a ring of slots into which one owner
    pushes and from which it pops at the bottom, while any number of thieves
    steal at the top.

    Every atomic access is a step of its own.  Counters are unbounded;
    `TopLessThanBottomWrapped` says when the code's test survives a wrap.  The
    theorem is that the ring is a deque: there is a log of pushes, pops and
    steals, one entry per successful call, written at single steps, and playing
    the log on a plain sequence gives exactly the untaken items. */
module WorkQueue {

  const SLOTS := 4096

  type Tid = nat
  type Item = int   // a pointer; 0 is null

  /** Where the owner is in push or pop. */
  datatype OwnerPc =
    | Resting
    | PushChecked(x: Item)                     // num_queued_ was not full
    | PushLoaded(x: Item, b: int)              // bottom_ loaded
    | PushStored(x: Item, b: int)              // slot written
    | PushPublished                            // bottom_ stored, num_queued_ not yet
    | PopLoop                                  // at the while condition
    | PopCounted                               // num_queued_ was not zero
    | PopLowered(b1: int)                      // bottom_ lowered from b1
    | PopCommitted(b: int, claim: Item)        // more than one item: index b is the owner's
    | PopLast(b1: int, t: nat)                 // exactly one item seen
    | PopRace(b1: int, t: nat, ptr: Item)      // its slot loaded, CAS to come
    | PopWon(t: nat, ptr: Item)                // CAS succeeded, bottom_ to be stored
    | PopLost(b1: int)                         // nothing taken, bottom_ to be put back
    | PopTaken(ptr: Item, claim: Item)         // about to decrement num_queued_ and return ptr

  datatype ThiefPc =
    | Away
    | TopLoaded(t: nat)
    | SawWork(t: nat)                          // bottom_ was above t
    | SlotLoaded(t: nat, item: Item)
    | Stole(item: Item)                        // CAS succeeded, num_queued_ to be decremented

  datatype Thief = Thief(pc: ThiefPc, got: seq<Item>)   // got: what its calls have returned (history)

  datatype Event = Pushed(x: Item) | Popped(x: Item) | Stolen(t: Tid, x: Item) | FoundEmpty

  datatype State = State(
    bottom: int, top: nat, items: seq<Item>, numQueued: int,
    owner: OwnerPc, thieves: map<Tid, Thief>,
    got: seq<Item>,                            // what pop has returned (history)
    log: seq<Event>)                           // history

  datatype Action =
    | StartPush(x: Item)
    | StartPop
    | OwnerStep
    | StartSteal(t: Tid)
    | ThiefStep(t: Tid)

  predicate TopLessThanBottom(t: int, b: int) {
    t < b || t - b > SLOTS
  }

  function Slot(s: State, i: int): Item
    requires |s.items| == SLOTS
  {
    s.items[i % SLOTS]
  }

  function Owner(s: State, a: Action): State
    requires |s.items| == SLOTS
  {
    var o := s.owner;
    match a
    case StartPush(x) =>
      if o.Resting? && x != 0 && s.numQueued != SLOTS then s.(owner := PushChecked(x)) else s
    case StartPop =>
      if o.Resting? then s.(owner := PopLoop) else s
    case _ =>
      match o
      case Resting => s
      case PushChecked(x) => s.(owner := PushLoaded(x, s.bottom))
      case PushLoaded(x, b) => s.(items := s.items[b % SLOTS := x], owner := PushStored(x, b))
      case PushStored(x, b) => s.(bottom := b + 1, owner := PushPublished, log := s.log + [Pushed(x)])
      case PushPublished => s.(numQueued := s.numQueued + 1, owner := Resting)
      case PopLoop =>
        if s.numQueued == 0 then s.(owner := Resting, log := s.log + [FoundEmpty]) else s.(owner := PopCounted)
      case PopCounted => s.(bottom := s.bottom - 1, owner := PopLowered(s.bottom))
      case PopLowered(b1) =>
        var b, t := b1 - 1, s.top;
        if t == b then s.(owner := PopLast(b1, t))
        else if TopLessThanBottom(t, b)
        then s.(owner := PopCommitted(b, Slot(s, b)), log := s.log + [Popped(Slot(s, b))])
        else s.(owner := PopLost(b1))
      case PopCommitted(b, claim) => s.(owner := PopTaken(Slot(s, b), claim))
      case PopLast(b1, t) => s.(owner := PopRace(b1, t, Slot(s, b1 - 1)))
      case PopRace(b1, t, ptr) =>
        if s.top == t then s.(top := t + 1, owner := PopWon(t, ptr), log := s.log + [Popped(ptr)])
        else s.(owner := PopLost(b1))
      case PopWon(t, ptr) => s.(bottom := t + 1, owner := PopTaken(ptr, ptr))
      case PopLost(b1) => s.(bottom := b1, owner := PopLoop)
      case PopTaken(ptr, _) => s.(numQueued := s.numQueued - 1, owner := Resting, got := s.got + [ptr])
  }

  function At(s: State, t: Tid, pc: ThiefPc): State
    requires t in s.thieves
  {
    s.(thieves := s.thieves[t := s.thieves[t].(pc := pc)])
  }

  function Steal(s: State, t: Tid, start: bool): State
    requires |s.items| == SLOTS && t in s.thieves
  {
    var pc := s.thieves[t].pc;
    if start then (if pc.Away? then At(s, t, TopLoaded(s.top)) else s) else
    match pc
    case Away => s
    case TopLoaded(n) =>
      At(s, t, if n == s.bottom || !TopLessThanBottom(n, s.bottom) then Away else SawWork(n))
    case SawWork(n) => At(s, t, SlotLoaded(n, Slot(s, n)))
    case SlotLoaded(n, item) =>
      if s.top == n then At(s.(top := n + 1, log := s.log + [Stolen(t, item)]), t, Stole(item)) else At(s, t, Away)
    case Stole(item) =>
      s.(numQueued := s.numQueued - 1, thieves := s.thieves[t := Thief(Away, s.thieves[t].got + [item])])
  }

  function Apply(s: State, a: Action): State
    requires |s.items| == SLOTS
  {
    match a
    case StartSteal(t) => if t in s.thieves then Steal(s, t, true) else s
    case ThiefStep(t) => if t in s.thieves then Steal(s, t, false) else s
    case _ => Owner(s, a)
  }

  /** Any interleaving: each action is taken if it can be. */
  function Exec(s: State, run: seq<Action>): (r: State)
    requires |s.items| == SLOTS
    ensures |r.items| == SLOTS
    decreases |run|
  {
    if run == [] then s else Apply(Exec(s, run[..|run| - 1]), run[|run| - 1])
  }

  ghost predicate Init(s: State) {
    && s.bottom == 0 && s.top == 0 && |s.items| == SLOTS && s.numQueued == 0
    && s.owner.Resting? && (forall t :: t in s.thieves ==> s.thieves[t] == Thief(Away, [])) && s.got == [] && s.log == []
  }

  /** A fresh queue, for any thieves. */
  function Fresh(thieves: set<Tid>, items: seq<Item>): State {
    State(0, 0, items, 0, Resting, map t | t in thieves :: Thief(Away, []), [], [])
  }

  lemma FreshIsInit(thieves: set<Tid>, items: seq<Item>)
    requires |items| == SLOTS
    ensures Init(Fresh(thieves, items)) && Fresh(thieves, items).thieves.Keys == thieves
  {
  }

  // -------------------------------------------------------- the plain deque

  /** Play the log on a sequence; `None` if an entry does not fit. */
  function Play(log: seq<Event>): Option<seq<Item>>
    decreases |log|
  {
    if log == [] then Some([]) else
    match Play(log[..|log| - 1])
    case None => None
    case Some(q) =>
      match log[|log| - 1]
      case Pushed(x) => Some(q + [x])
      case Popped(x) => if q != [] && q[|q| - 1] == x then Some(q[..|q| - 1]) else None
      case Stolen(_, x) => if q != [] && q[0] == x then Some(q[1..]) else None
      case FoundEmpty => if q == [] then Some(q) else None
  }

  datatype Option<T> = None | Some(value: T)

  /** One above the last untaken index.  While the owner is trying for the last
      item it has lowered bottom_ without having taken anything. */
  function Hi(s: State): int {
    match s.owner
    case PopLowered(_) => s.bottom + 1
    case PopLast(_, _) => s.bottom + 1
    case PopRace(_, _, _) => s.bottom + 1
    case PopWon(_, _) => s.bottom + 1
    case PopLost(_) => s.bottom + 1
    case _ => s.bottom
  }

  /** The items at indices lo..hi. */
  function Window(items: seq<Item>, lo: int, hi: int): (q: seq<Item>)
    requires |items| == SLOTS && lo <= hi
    ensures |q| == hi - lo
    ensures forall i :: 0 <= i < hi - lo ==> q[i] == items[(lo + i) % SLOTS]
  {
    seq(hi - lo, i requires 0 <= i => items[(lo + i) % SLOTS])
  }

  // ----------------------------------------------------------- invariants

  function Pending(s: State): set<Tid> {
    set t | t in s.thieves && s.thieves[t].pc.Stole?
  }

  /** Pushed and not yet counted, or taken and not yet uncounted, by the owner. */
  function OwnerOwes(s: State): int {
    match s.owner
    case PushPublished => -1
    case PopCommitted(_, _) => 1
    case PopWon(_, _) => 1
    case PopTaken(_, _) => 1
    case _ => 0
  }

  ghost predicate CountInv(s: State) {
    && 0 <= s.bottom && 0 <= s.top <= Hi(s)
    && s.numQueued == Hi(s) - s.top + |Pending(s)| + OwnerOwes(s)
    && |Pending(s)| <= s.top
    && s.numQueued <= SLOTS
    && (s.owner.PushChecked? || s.owner.PushLoaded? || s.owner.PushStored? || s.owner.PushPublished? ==>
          s.numQueued < SLOTS)
    && (s.owner.PopCounted? ==> s.bottom > 0)
  }

  ghost predicate OwnerInv(s: State)
    requires |s.items| == SLOTS
  {
    match s.owner
    case PushLoaded(x, b) => b == s.bottom
    case PushStored(x, b) => b == s.bottom && Slot(s, b) == x
    case PopLowered(b1) => b1 == s.bottom + 1
    case PopCommitted(b, claim) => b == s.bottom && claim == Slot(s, b)
    case PopLast(b1, t) => b1 == s.bottom + 1 && t == s.bottom
    case PopRace(b1, t, ptr) => b1 == s.bottom + 1 && t == s.bottom && ptr == Slot(s, t)
    case PopWon(t, ptr) => t == s.bottom && s.top == t + 1
    case PopLost(b1) => b1 == s.bottom + 1
    case PopTaken(ptr, claim) => ptr == claim
    case _ => true
  }

  /** A thief whose `t` is still the top has seen work there, and it is still
      there: its compare-and-swap would take the first untaken item. */
  ghost predicate ThiefOk(s: State, pc: ThiefPc)
    requires |s.items| == SLOTS
  {
    match pc
    case TopLoaded(n) => n <= s.top
    case SawWork(n) => n <= s.top && (n == s.top ==> s.top < Hi(s))
    case SlotLoaded(n, item) => n <= s.top && (n == s.top ==> s.top < Hi(s) && item == Slot(s, n))
    case _ => true
  }

  ghost predicate ThiefInv(s: State)
    requires |s.items| == SLOTS
  {
    forall t :: t in s.thieves ==> ThiefOk(s, s.thieves[t].pc)
  }

  ghost predicate LogInv(s: State)
    requires |s.items| == SLOTS && s.top <= Hi(s)
  {
    Play(s.log) == Some(Window(s.items, s.top, Hi(s)))
  }

  /** The log's entries that hand items to the owner, or to thief `t`. */
  function ToOwner(log: seq<Event>): seq<Item>
    decreases |log|
  {
    if log == [] then [] else
    var e := log[|log| - 1];
    ToOwner(log[..|log| - 1]) + if e.Popped? then [e.x] else []
  }

  function ToThief(log: seq<Event>, t: Tid): seq<Item>
    decreases |log|
  {
    if log == [] then [] else
    var e := log[|log| - 1];
    ToThief(log[..|log| - 1], t) + if e.Stolen? && e.t == t then [e.x] else []
  }

  /** Taken by a call that has yet to return. */
  function OwnerHolds(o: OwnerPc): seq<Item> {
    match o
    case PopCommitted(_, claim) => [claim]
    case PopWon(_, ptr) => [ptr]
    case PopTaken(_, claim) => [claim]
    case _ => []
  }

  function ThiefHolds(pc: ThiefPc): seq<Item> {
    if pc.Stole? then [pc.item] else []
  }

  /** Each caller has been given exactly its own entries of the log, in order. */
  ghost predicate GivenInv(s: State) {
    && ToOwner(s.log) == s.got + OwnerHolds(s.owner)
    && (forall t :: t in s.thieves ==> ToThief(s.log, t) == s.thieves[t].got + ThiefHolds(s.thieves[t].pc))
  }

  ghost predicate Pushing(o: OwnerPc) {
    o.PushChecked? || o.PushLoaded? || o.PushStored?
  }

  /** Null is never pushed. */
  ghost predicate NonNullInv(s: State) {
    && (forall i :: 0 <= i < |s.log| && s.log[i].Pushed? ==> s.log[i].x != 0)
    && (Pushing(s.owner) ==> s.owner.x != 0)
  }

  ghost predicate Inv(s: State) {
    && |s.items| == SLOTS && CountInv(s) && OwnerInv(s) && ThiefInv(s) && LogInv(s)
    && GivenInv(s) && NonNullInv(s)
  }

  // ---------------------------------------------------------- preservation

  /** Indices closer together than the ring is long have different slots. */
  lemma SlotsApart(i: int, j: int)
    requires i < j < i + SLOTS
    ensures i % SLOTS != j % SLOTS
  {
  }

  /** Writing the slot above the window does not touch the window. */
  lemma WriteAbove(items: seq<Item>, lo: int, hi: int, x: Item)
    requires |items| == SLOTS && lo <= hi < lo + SLOTS
    ensures Window(items[hi % SLOTS := x], lo, hi) == Window(items, lo, hi)
  {
    var items' := items[hi % SLOTS := x];
    forall i | lo <= i < hi ensures items'[i % SLOTS] == items[i % SLOTS] { SlotsApart(i, hi); }
  }

  lemma WindowGrows(items: seq<Item>, lo: int, hi: int)
    requires |items| == SLOTS && lo <= hi
    ensures Window(items, lo, hi + 1) == Window(items, lo, hi) + [items[hi % SLOTS]]
  {
  }

  lemma WindowLosesFirst(items: seq<Item>, lo: int, hi: int)
    requires |items| == SLOTS && lo < hi
    ensures Window(items, lo, hi)[0] == items[lo % SLOTS] && Window(items, lo, hi)[1..] == Window(items, lo + 1, hi)
  {
  }

  ghost predicate OwnerAction(a: Action) {
    a.StartPush? || a.StartPop? || a.OwnerStep?
  }

  lemma KeepCount(s: State, a: Action)
    requires |s.items| == SLOTS && CountInv(s) && OwnerInv(s) && OwnerAction(a)
    ensures CountInv(Owner(s, a))
  {
    assert Pending(Owner(s, a)) == Pending(s);
  }

  lemma KeepOwner(s: State, a: Action)
    requires |s.items| == SLOTS && CountInv(s) && OwnerInv(s) && OwnerAction(a)
    ensures OwnerInv(Owner(s, a))
  {
  }

  /** What the owner does to the window: never from below while anything is in
      it, and only the slot above it is written. */
  lemma OwnerAndTop(s: State, a: Action)
    requires |s.items| == SLOTS && CountInv(s) && OwnerInv(s) && OwnerAction(a)
    ensures var s' := Owner(s, a);
      && s'.top >= s.top && s'.thieves == s.thieves
      && (s'.top == s.top < Hi(s) ==> s.top < Hi(s') && Slot(s', s.top) == Slot(s, s.top))
  {
    if s.owner.PushLoaded? && s.top < s.bottom { SlotsApart(s.top, s.bottom); }
  }

  lemma KeepThieves(s: State, a: Action)
    requires |s.items| == SLOTS && CountInv(s) && OwnerInv(s) && ThiefInv(s) && OwnerAction(a)
    ensures ThiefInv(Owner(s, a))
  {
    var s' := Owner(s, a);
    OwnerAndTop(s, a);
    forall t | t in s'.thieves ensures ThiefOk(s', s'.thieves[t].pc) { assert ThiefOk(s, s.thieves[t].pc); }
  }

  /** The log's new entry, if any, is what happened to the window. */
  lemma OwnerAndWindow(s: State, a: Action)
    requires |s.items| == SLOTS && CountInv(s) && OwnerInv(s) && OwnerAction(a) && CountInv(Owner(s, a))
    ensures var s' := Owner(s, a); var q, q' := Window(s.items, s.top, Hi(s)), Window(s'.items, s'.top, Hi(s'));
      || (s'.log == s.log && q' == q)
      || (s'.log == s.log + [FoundEmpty] && q == [] && q' == q)
      || (exists x :: s'.log == s.log + [Pushed(x)] && q' == q + [x])
      || (exists x :: s'.log == s.log + [Popped(x)] && q == q' + [x])
  {
    var s' := Owner(s, a);
    if a.OwnerStep? {
      match s.owner
      case PushLoaded(x, b) => WriteAbove(s.items, s.top, b, x);
      case PushStored(x, b) => WindowGrows(s.items, s.top, b);
      case PopLowered(b1) => if s.top < b1 { WindowGrows(s.items, s.top, b1 - 1); }
      case PopRace(b1, t, ptr) => if s.top == t { WindowGrows(s.items, t, t); }
      case _ =>
    }
  }

  lemma PlaySnoc(log: seq<Event>, e: Event)
    ensures Play(log + [e]) ==
      match Play(log)
      case None => None
      case Some(q) =>
        match e
        case Pushed(x) => Some(q + [x])
        case Popped(x) => if q != [] && q[|q| - 1] == x then Some(q[..|q| - 1]) else None
        case Stolen(_, x) => if q != [] && q[0] == x then Some(q[1..]) else None
        case FoundEmpty => if q == [] then Some(q) else None
  {
    assert (log + [e])[..|log|] == log;
  }

  lemma KeepLog(s: State, a: Action)
    requires |s.items| == SLOTS && CountInv(s) && OwnerInv(s) && LogInv(s) && OwnerAction(a) && CountInv(Owner(s, a))
    ensures LogInv(Owner(s, a))
  {
    var s' := Owner(s, a);
    OwnerAndWindow(s, a);
    if |s'.log| > |s.log| {
      PlaySnoc(s.log, s'.log[|s.log|]);
      var q' := Window(s'.items, s'.top, Hi(s'));
      if s'.log[|s.log|].Popped? {
        assert (q' + [s'.log[|s.log|].x])[..|q'|] == q';
      }
    }
  }

  lemma ThiefCount(s: State, t: Tid, start: bool)
    requires |s.items| == SLOTS && CountInv(s) && OwnerInv(s) && t in s.thieves && ThiefOk(s, s.thieves[t].pc)
    ensures CountInv(Steal(s, t, start))
  {
    var s' := Steal(s, t, start);
    PendingAfter(s, s', t);
  }

  lemma PendingAfter(s: State, s': State, t: Tid)
    requires t in s.thieves && t in s'.thieves && s'.thieves == s.thieves[t := s'.thieves[t]]
    ensures |Pending(s')| == |Pending(s)| + (if s'.thieves[t].pc.Stole? then 1 else 0) - (if s.thieves[t].pc.Stole? then 1 else 0)
    ensures s.thieves[t].pc.Stole? ==> |Pending(s)| > 0
  {
    var rest := Pending(s) - {t};
    assert Pending(s) == if s.thieves[t].pc.Stole? then rest + {t} else rest;
    assert Pending(s') == if s'.thieves[t].pc.Stole? then rest + {t} else rest;
  }

  lemma ThiefOwner(s: State, t: Tid, start: bool)
    requires |s.items| == SLOTS && CountInv(s) && OwnerInv(s) && t in s.thieves && ThiefOk(s, s.thieves[t].pc)
    ensures OwnerInv(Steal(s, t, start))
  {
  }

  lemma ThiefThieves(s: State, t: Tid, start: bool)
    requires |s.items| == SLOTS && CountInv(s) && OwnerInv(s) && ThiefInv(s) && t in s.thieves
    ensures ThiefInv(Steal(s, t, start))
  {
    var s' := Steal(s, t, start);
    assert ThiefOk(s, s.thieves[t].pc);
    forall u | u in s'.thieves ensures ThiefOk(s', s'.thieves[u].pc) { assert ThiefOk(s, s.thieves[u].pc); }
  }

  lemma ThiefLog(s: State, t: Tid, start: bool)
    requires |s.items| == SLOTS && CountInv(s) && LogInv(s) && t in s.thieves && ThiefOk(s, s.thieves[t].pc)
    requires CountInv(Steal(s, t, start))
    ensures LogInv(Steal(s, t, start))
  {
    var s' := Steal(s, t, start);
    if s'.log != s.log {
      PlaySnoc(s.log, s'.log[|s.log|]);
      WindowLosesFirst(s.items, s.top, Hi(s));
    }
  }

  lemma GivenSnoc(log: seq<Event>, e: Event)
    ensures ToOwner(log + [e]) == ToOwner(log) + if e.Popped? then [e.x] else []
    ensures forall t :: ToThief(log + [e], t) == ToThief(log, t) + if e.Stolen? && e.t == t then [e.x] else []
  {
    assert (log + [e])[..|log|] == log;
  }

  lemma OwnerGives(s: State, a: Action)
    requires |s.items| == SLOTS && OwnerInv(s) && OwnerAction(a)
    ensures var s' := Owner(s, a);
      && s'.thieves == s.thieves
      && (s'.log != s.log ==> |s'.log| == |s.log| + 1 && s'.log == s.log + [s'.log[|s.log|]] && !s'.log[|s.log|].Stolen?)
      && s'.got + OwnerHolds(s'.owner) == s.got + OwnerHolds(s.owner)
           + (if s'.log != s.log && s'.log[|s.log|].Popped? then [s'.log[|s.log|].x] else [])
  {
  }

  lemma OwnerGiven(s: State, a: Action)
    requires |s.items| == SLOTS && OwnerInv(s) && GivenInv(s) && OwnerAction(a)
    ensures GivenInv(Owner(s, a))
  {
    var s' := Owner(s, a);
    OwnerGives(s, a);
    GivenAfter(s, s');
  }

  lemma GivenAfter(s: State, s': State)
    requires GivenInv(s) && s'.thieves == s.thieves
    requires s'.log != s.log ==> |s'.log| == |s.log| + 1 && s'.log == s.log + [s'.log[|s.log|]] && !s'.log[|s.log|].Stolen?
    requires s'.got + OwnerHolds(s'.owner) == s.got + OwnerHolds(s.owner)
           + (if s'.log != s.log && s'.log[|s.log|].Popped? then [s'.log[|s.log|].x] else [])
    ensures GivenInv(s')
  {
    if s'.log != s.log { GivenSnoc(s.log, s'.log[|s.log|]); }
  }

  lemma ThiefGiven(s: State, t: Tid, start: bool)
    requires |s.items| == SLOTS && GivenInv(s) && t in s.thieves
    ensures GivenInv(Steal(s, t, start))
  {
    var s' := Steal(s, t, start);
    if s'.log != s.log { GivenSnoc(s.log, s'.log[|s.log|]); }
  }

  lemma KeepNonNull(s: State, a: Action)
    requires |s.items| == SLOTS && NonNullInv(s)
    ensures NonNullInv(Apply(s, a))
  {
  }

  lemma InvStep(s: State, a: Action)
    requires Inv(s)
    ensures Inv(Apply(s, a))
  {
    if OwnerAction(a) {
      KeepCount(s, a);
      KeepOwner(s, a);
      KeepThieves(s, a);
      KeepLog(s, a);
      OwnerGiven(s, a);
    } else if a.t in s.thieves {
      assert ThiefOk(s, s.thieves[a.t].pc);
      ThiefCount(s, a.t, a.StartSteal?);
      ThiefOwner(s, a.t, a.StartSteal?);
      ThiefThieves(s, a.t, a.StartSteal?);
      ThiefLog(s, a.t, a.StartSteal?);
      ThiefGiven(s, a.t, a.StartSteal?);
    }
    KeepNonNull(s, a);
  }

  lemma {:induction false} InvRun(s: State, run: seq<Action>)
    requires Init(s)
    ensures Inv(Exec(s, run))
    decreases |run|
  {
    if run == [] {
      assert Pending(s) == {};
    } else {
      InvRun(s, run[..|run| - 1]);
      InvStep(Exec(s, run[..|run| - 1]), run[|run| - 1]);
    }
  }

  // --------------------------------------------------------------- theorems

  function Pushes(log: seq<Event>): multiset<Item>
    decreases |log|
  {
    if log == [] then multiset{} else
    var e := log[|log| - 1];
    Pushes(log[..|log| - 1]) + if e.Pushed? then multiset{e.x} else multiset{}
  }

  function Takes(log: seq<Event>): multiset<Item>
    decreases |log|
  {
    if log == [] then multiset{} else
    var e := log[|log| - 1];
    Takes(log[..|log| - 1]) + if e.Popped? || e.Stolen? then multiset{e.x} else multiset{}
  }

  lemma {:induction false} PlayConserves(log: seq<Event>)
    requires Play(log).Some?
    ensures Pushes(log) == Takes(log) + multiset(Play(log).value)
    decreases |log|
  {
    if log != [] {
      var rest := log[..|log| - 1];
      PlayConserves(rest);
      var q, q', e := Play(rest).value, Play(log).value, log[|log| - 1];
      PlayOneConserves(q, q', e);
      Balance(Pushes(rest), Takes(rest), multiset(q), multiset(q'),
              if e.Pushed? then multiset{e.x} else multiset{}, if e.Popped? || e.Stolen? then multiset{e.x} else multiset{});
    }
  }

  lemma Balance(pushes: multiset<Item>, takes: multiset<Item>, q: multiset<Item>, q': multiset<Item>,
                i: multiset<Item>, o: multiset<Item>)
    requires pushes == takes + q && q + i == q' + o
    ensures pushes + i == takes + o + q'
  {
    assert pushes + i == takes + (q + i);
    assert takes + (q' + o) == takes + o + q';
  }

  lemma PlayOneConserves(q: seq<Item>, q': seq<Item>, e: Event)
    requires match e
      case Pushed(x) => q' == q + [x]
      case Popped(x) => q != [] && q[|q| - 1] == x && q' == q[..|q| - 1]
      case Stolen(_, x) => q != [] && q[0] == x && q' == q[1..]
      case FoundEmpty => q' == q
    ensures multiset(q) + (if e.Pushed? then multiset{e.x} else multiset{})
         == multiset(q') + (if e.Popped? || e.Stolen? then multiset{e.x} else multiset{})
    ensures (e.Popped? || e.Stolen?) ==> e.x in q
  {
    match e
    case Pushed(x) => Bag(q, [x]);
    case Popped(x) => Bag(q', [x]); assert q == q' + [x];
    case Stolen(_, x) => Bag([x], q'); assert q == [x] + q';
    case FoundEmpty =>
  }

  lemma Bag(p: seq<Item>, q: seq<Item>)
    ensures multiset(p + q) == multiset(p) + multiset(q)
  {
  }

  /** The ring is a deque: the log plays on a plain sequence, entry by entry,
      and leaves exactly the items at indices top_ up to the bottom, in order.
      What each caller's calls have returned, with what they are about to
      return, is exactly its own entries of the log; so each push is given to
      at most one call. */
  lemma RingIsDeque(s: State, run: seq<Action>)
    requires Init(s)
    ensures var z := Exec(s, run);
      && z.top <= Hi(z) <= z.top + SLOTS
      && Play(z.log) == Some(Window(z.items, z.top, Hi(z)))
      && Pushes(z.log) == Takes(z.log) + multiset(Window(z.items, z.top, Hi(z)))
      && ToOwner(z.log) == z.got + OwnerHolds(z.owner)
      && (forall t :: t in z.thieves ==> ToThief(z.log, t) == z.thieves[t].got + ThiefHolds(z.thieves[t].pc))
  {
    InvRun(s, run);
    var z := Exec(s, run);
    PlayConserves(z.log);
    HiBound(z);
  }

  lemma HiBound(s: State)
    requires CountInv(s)
    ensures Hi(s) <= s.top + SLOTS
  {
  }

  /** push stores only into a slot that no untaken item is in. */
  lemma PushOverwritesNothing(s: State, run: seq<Action>, i: int)
    requires Init(s)
    ensures var z := Exec(s, run);
      z.owner.PushLoaded? && z.top <= i < Hi(z) ==> i % SLOTS != z.owner.b % SLOTS
  {
    InvRun(s, run);
    var z := Exec(s, run);
    if z.owner.PushLoaded? && z.top <= i < Hi(z) { SlotsApart(i, z.bottom); }
  }

  /** Between the owner's calls, push refuses exactly when the untaken items and
      the stolen ones still being returned fill the ring. */
  lemma PushRefusedExactly(s: State, run: seq<Action>, x: Item)
    requires Init(s) && Exec(s, run).owner.Resting? && x != 0
    ensures var z := Exec(s, run);
      Owner(z, StartPush(x)).owner.Resting? <==> (z.bottom - z.top) + |Pending(z)| == SLOTS
  {
    InvRun(s, run);
  }

  // ------------------------------------------------- what a call alone returns

  lemma ExecTwo(s: State, a: Action, b: Action)
    requires |s.items| == SLOTS
    ensures Exec(s, [a, b]) == Apply(Apply(s, a), b)
  {
    assert [a, b][..1] == [a] && [a][..0] == [];
    assert Exec(s, [a]) == Apply(s, a);
  }

  lemma {:induction false} ExecAppend(s: State, p: seq<Action>, q: seq<Action>)
    requires |s.items| == SLOTS
    ensures Exec(s, p + q) == Exec(Exec(s, p), q)
    decreases |q|
  {
    if q == [] {
      assert p + q == p;
    } else {
      assert (p + q)[..|p + q| - 1] == p + q[..|q| - 1];
      ExecAppend(s, p, q[..|q| - 1]);
    }
  }

  lemma ExecOne(s: State, a: Action)
    requires |s.items| == SLOTS
    ensures Exec(s, [a]) == Apply(s, a)
  {
    assert [a][..0] == [];
  }

  const OWNER_TWICE := [OwnerStep, OwnerStep]

  /** The items that nobody has taken, in the order in which they were pushed. */
  function Untaken(s: State): seq<Item>
    requires |s.items| == SLOTS && s.top <= Hi(s)
  {
    Window(s.items, s.top, Hi(s))
  }

  /** The owner is between lowering bottom_ and putting it back. */
  predicate Lowered(o: OwnerPc) {
    o.PopLowered? || o.PopLast? || o.PopRace? || o.PopWon? || o.PopLost?
  }

  /** As many items as a thief may see. */
  function InSight(s: State): int
    requires |s.items| == SLOTS && s.top <= Hi(s)
  {
    |Untaken(s)| - if Lowered(s.owner) then 1 else 0
  }

  /** steal by a thief alone, in any state of any run: with an item in sight -- two
      untaken, or one while the owner is not trying for it -- it returns the one
      that was pushed first, and otherwise null. */
  lemma StealTakesFirst(s: State, run: seq<Action>, t: Tid)
    requires Init(s) && t in Exec(s, run).thieves && Exec(s, run).thieves[t].pc.Away?
    ensures var z := Exec(s, run); var y := Exec(z, [StartSteal(t), ThiefStep(t)]); var r := Exec(y, [ThiefStep(t), ThiefStep(t)]);
      && z.top <= Hi(z) && t in y.thieves && t in r.thieves
      && (InSight(z) > 0 ==>
            && r.top <= Hi(r) && Untaken(r) == Untaken(z)[1..] && r.log == z.log + [Stolen(t, Untaken(z)[0])]
            && r.thieves[t] == Thief(Stole(Untaken(z)[0]), z.thieves[t].got)
            && Apply(r, ThiefStep(t)).thieves[t] == Thief(Away, z.thieves[t].got + [Untaken(z)[0]]))
      && (InSight(z) <= 0 ==> y == z)
  {
    InvRun(s, run);
    ThiefLooks(Exec(s, run), t);
    if InSight(Exec(s, run)) > 0 { ThiefTakes(Exec(s, run), t); }
  }

  /** The first two steps: top_ is loaded, and bottom_ looked at. */
  lemma ThiefLooks(z: State, t: Tid)
    requires |z.items| == SLOTS && CountInv(z) && t in z.thieves && z.thieves[t].pc.Away?
    ensures var y := Exec(z, [StartSteal(t), ThiefStep(t)]);
      y == if InSight(z) > 0 then At(z, t, SawWork(z.top)) else z
  {
    ExecTwo(z, StartSteal(t), ThiefStep(t));
    var y := At(z, t, TopLoaded(z.top));
    assert Apply(z, StartSteal(t)) == y;
    assert z.thieves[t := z.thieves[t]] == z.thieves;
    assert y.thieves[t := z.thieves[t]] == z.thieves;
    assert y.thieves[t := z.thieves[t].(pc := SawWork(z.top))] == At(z, t, SawWork(z.top)).thieves;
  }

  lemma ThiefTakes(z: State, t: Tid)
    requires |z.items| == SLOTS && CountInv(z) && t in z.thieves && InSight(z) > 0
    ensures var r := Exec(At(z, t, SawWork(z.top)), [ThiefStep(t), ThiefStep(t)]); var x := Untaken(z)[0];
      && t in r.thieves && r.top <= Hi(r) && Untaken(r) == Untaken(z)[1..] && r.log == z.log + [Stolen(t, x)]
      && r.thieves[t] == Thief(Stole(x), z.thieves[t].got)
      && Apply(r, ThiefStep(t)).thieves[t] == Thief(Away, z.thieves[t].got + [x])
  {
    var y := At(z, t, SawWork(z.top));
    ExecTwo(y, ThiefStep(t), ThiefStep(t));
    assert Apply(y, ThiefStep(t)).thieves[t].pc == SlotLoaded(z.top, Slot(z, z.top));
    WindowLosesFirst(z.items, z.top, Hi(z));
  }

  /** And whatever the others do: steal gives up only if it has seen nothing in
      sight, or another call has taken an item since it began. */
  lemma StealGivesUp(s: State, run: seq<Action>, t: Tid, n: nat)
    requires Init(s) && t in Exec(s, run).thieves
    requires var pc := Exec(s, run).thieves[t].pc; pc == TopLoaded(n) || pc == SawWork(n) || (pc.SlotLoaded? && pc.t == n)
    ensures var z := Exec(s, run); var y := Apply(z, ThiefStep(t));
      && z.top <= Hi(z) && n <= z.top
      && (t in y.thieves && y.thieves[t].pc.Away? ==> n < z.top || (z.thieves[t].pc.TopLoaded? && InSight(z) <= 0))
  {
    InvRun(s, run);
    assert ThiefOk(Exec(s, run), Exec(s, run).thieves[t].pc);
  }

  /** From `z` to `r` the owner has been given the last of the untaken items. */
  predicate GivesLast(z: State, r: State) {
    && |z.items| == SLOTS && |r.items| == SLOTS && z.top <= Hi(z) && r.top <= Hi(r) && Untaken(z) != []
    && var last := |Untaken(z)| - 1;
       r.owner.Resting? && r.got == z.got + [Untaken(z)[last]] && r.log == z.log + [Popped(Untaken(z)[last])] && Untaken(r) == Untaken(z)[..last]
  }

  /** pop by the owner alone, in any state of any run between its calls, with more
      than one item untaken: it returns the one that was pushed last. */
  lemma PopTakesLast(s: State, run: seq<Action>)
    requires Init(s) && Exec(s, run).owner.Resting?
    ensures var z := Exec(s, run);
      z.top <= Hi(z) && (|Untaken(z)| > 1 ==> GivesLast(z, Exec(z, [StartPop, OwnerStep] + OWNER_TWICE + OWNER_TWICE)))
  {
    InvRun(s, run);
    var z := Exec(s, run);
    if |Untaken(z)| > 1 {
      OwnerCommits(z);
      ExecAppend(z, [StartPop, OwnerStep] + OWNER_TWICE, OWNER_TWICE);
      LastIsGiven(z);
    }
  }

  lemma LastIsGiven(z: State)
    requires |z.items| == SLOTS && z.owner.Resting? && z.bottom - z.top > 1
    ensures GivesLast(z, Exec(PopBegun(z), OWNER_TWICE))
  {
    OwnerTakes(PopBegun(z));
    WindowGrows(z.items, z.top, z.bottom - 1);
  }

  /** The last untaken item is the owner's. */
  function PopBegun(z: State): State
    requires |z.items| == SLOTS
  {
    var x := Slot(z, z.bottom - 1);
    z.(bottom := z.bottom - 1, owner := PopCommitted(z.bottom - 1, x), log := z.log + [Popped(x)])
  }

  lemma OwnerCounts(z: State)
    requires |z.items| == SLOTS && CountInv(z) && z.owner.Resting? && z.bottom > z.top
    ensures Exec(z, [StartPop, OwnerStep]) == z.(owner := PopCounted)
  {
    ExecTwo(z, StartPop, OwnerStep);
  }

  lemma OwnerCommits(z: State)
    requires |z.items| == SLOTS && CountInv(z) && z.owner.Resting? && z.bottom - z.top > 1
    ensures Exec(z, [StartPop, OwnerStep] + OWNER_TWICE) == PopBegun(z)
  {
    ExecAppend(z, [StartPop, OwnerStep], OWNER_TWICE);
    OwnerCounts(z);
    ExecTwo(z.(owner := PopCounted), OwnerStep, OwnerStep);
    LowersOne(z);
    ClaimsOne(z);
  }

  lemma LowersOne(z: State)
    requires |z.items| == SLOTS
    ensures Apply(z.(owner := PopCounted), OwnerStep) == z.(bottom := z.bottom - 1, owner := PopLowered(z.bottom))
  {
  }

  lemma ClaimsOne(z: State)
    requires |z.items| == SLOTS && z.bottom - z.top > 1
    ensures Apply(z.(bottom := z.bottom - 1, owner := PopLowered(z.bottom)), OwnerStep) == PopBegun(z)
  {
  }

  lemma OwnerTakes(y: State)
    requires |y.items| == SLOTS && y.owner.PopCommitted? && y.owner.claim == Slot(y, y.owner.b)
    ensures var r := Exec(y, OWNER_TWICE); r == y.(owner := Resting, got := y.got + [y.owner.claim], numQueued := y.numQueued - 1)
  {
    ExecTwo(y, OwnerStep, OwnerStep);
  }

  /** With a single item untaken it returns that one. */
  lemma PopTakesOnly(s: State, run: seq<Action>)
    requires Init(s) && Exec(s, run).owner.Resting?
    ensures var z := Exec(s, run);
      z.top <= Hi(z) && (|Untaken(z)| == 1 ==> GivesLast(z, Exec(Exec(Exec(z, [StartPop, OwnerStep] + OWNER_TWICE), OWNER_TWICE), OWNER_TWICE)))
  {
    InvRun(s, run);
    var z := Exec(s, run);
    if |Untaken(z)| == 1 {
      OwnerLowers(z);
      OnlyIsGiven(z, z.(bottom := z.top, owner := PopLast(z.bottom, z.top)));
    }
  }

  lemma OnlyIsGiven(z: State, y: State)
    requires |z.items| == SLOTS && z.bottom - z.top == 1 && Hi(z) == z.bottom && y == z.(bottom := z.top, owner := PopLast(z.bottom, z.top))
    ensures GivesLast(z, Exec(Exec(y, OWNER_TWICE), OWNER_TWICE))
  {
    OwnerRaces(y);
    WindowGrows(z.items, z.top, z.top);
  }

  /** push by the owner alone: if the ring has room the item is behind all others. */
  lemma PushAddsLast(s: State, run: seq<Action>, x: Item)
    requires Init(s) && Exec(s, run).owner.Resting? && x != 0
    ensures var z := Exec(s, run); var r := Exec(z, [StartPush(x), OwnerStep] + OWNER_TWICE + [OwnerStep]);
      && z.top <= Hi(z)
      && (|Untaken(z)| + |Pending(z)| < SLOTS ==> r.owner.Resting? && r.top <= Hi(r) && Untaken(r) == Untaken(z) + [x] && r.log == z.log + [Pushed(x)])
  {
    InvRun(s, run);
    var z := Exec(s, run);
    if |Untaken(z)| + |Pending(z)| < SLOTS {
      ExecAppend(z, [StartPush(x), OwnerStep] + OWNER_TWICE, [OwnerStep]);
      ExecAppend(z, [StartPush(x), OwnerStep], OWNER_TWICE);
      PushGoes(z, x);
    }
  }

  lemma PushGoes(z: State, x: Item)
    requires |z.items| == SLOTS && z.owner.Resting? && x != 0 && z.numQueued != SLOTS && z.top <= z.bottom < z.top + SLOTS
    ensures var r := Exec(Exec(Exec(z, [StartPush(x), OwnerStep]), OWNER_TWICE), [OwnerStep]);
      r.owner.Resting? && r.top <= Hi(r) && |r.items| == SLOTS && Untaken(r) == Untaken(z) + [x] && r.log == z.log + [Pushed(x)]
  {
    ExecTwo(z, StartPush(x), OwnerStep);
    assert Exec(z, [StartPush(x), OwnerStep]) == z.(owner := PushLoaded(x, z.bottom));
    Stores(z.(owner := PushLoaded(x, z.bottom)), z.bottom, x);
    ExecOne(Exec(Exec(z, [StartPush(x), OwnerStep]), OWNER_TWICE), OwnerStep);
    WriteAbove(z.items, z.top, z.bottom, x);
    WindowGrows(z.items[z.bottom % SLOTS := x], z.top, z.bottom);
  }

  lemma OwnerLowers(z: State)
    requires |z.items| == SLOTS && CountInv(z) && z.owner.Resting? && z.bottom - z.top == 1
    ensures Exec(z, [StartPop, OwnerStep] + OWNER_TWICE) == z.(bottom := z.top, owner := PopLast(z.bottom, z.top))
  {
    ExecAppend(z, [StartPop, OwnerStep], OWNER_TWICE);
    OwnerCounts(z);
    ExecTwo(z.(owner := PopCounted), OwnerStep, OwnerStep);
  }

  lemma OwnerRaces(y: State)
    requires |y.items| == SLOTS && y.owner == PopLast(y.top + 1, y.top) && y.bottom == y.top
    ensures var r := Exec(Exec(y, OWNER_TWICE), OWNER_TWICE); var x := Slot(y, y.top);
      r == y.(owner := Resting, top := y.top + 1, bottom := y.top + 1, got := y.got + [x], log := y.log + [Popped(x)], numQueued := y.numQueued - 1)
  {
    ExecTwo(y, OwnerStep, OwnerStep);
    var x := Slot(y, y.top);
    var w := y.(owner := PopWon(y.top, x), top := y.top + 1, log := y.log + [Popped(x)]);
    assert Exec(y, OWNER_TWICE) == w;
    ExecTwo(w, OwnerStep, OwnerStep);
  }

  lemma {:induction false} LogIsNotNull(log: seq<Event>)
    requires Play(log).Some? && forall i :: 0 <= i < |log| && log[i].Pushed? ==> log[i].x != 0
    ensures forall x :: x in Play(log).value ==> x != 0
    ensures forall i :: 0 <= i < |log| && (log[i].Popped? || log[i].Stolen?) ==> log[i].x != 0
    decreases |log|
  {
    if log != [] {
      var rest := log[..|log| - 1];
      assert forall i :: 0 <= i < |rest| ==> rest[i] == log[i];
      LogIsNotNull(rest);
      var q, q', e := Play(rest).value, Play(log).value, log[|log| - 1];
      PlayOneConserves(q, q', e);
      forall x | x in q' ensures x != 0 { assert x in q || e == Pushed(x); }
      forall i | 0 <= i < |log| && (log[i].Popped? || log[i].Stolen?) ensures log[i].x != 0 {
        if i == |log| - 1 { assert log[i].x in q; } else { assert rest[i] == log[i]; }
      }
    }
  }

  /** What a caller has been given is in the log. */
  lemma {:induction false} GivenIsLogged(log: seq<Event>, t: Tid)
    requires forall i :: 0 <= i < |log| && (log[i].Popped? || log[i].Stolen?) ==> log[i].x != 0
    ensures forall x :: x in ToOwner(log) || x in ToThief(log, t) ==> x != 0
    decreases |log|
  {
    if log != [] { GivenIsLogged(log[..|log| - 1], t); }
  }

  /** Over every run: no call has returned null as an item, and none of the three
      assertions on a taken pointer can fire -- in pop with more than one item
      left, in pop after winning the race for the last, and in steal. */
  lemma TakenIsNotNull(s: State, run: seq<Action>, t: Tid)
    requires Init(s) && t in s.thieves
    ensures var z := Exec(s, run);
      && (z.owner.PopCommitted? ==> Slot(z, z.owner.b) != 0)
      && (z.owner.PopWon? || z.owner.PopTaken? ==> z.owner.ptr != 0)
      && t in z.thieves && (z.thieves[t].pc.Stole? ==> z.thieves[t].pc.item != 0)
      && 0 !in z.got && 0 !in z.thieves[t].got
  {
    InvRun(s, run);
    ThievesStay(s, run);
    var z := Exec(s, run);
    LogIsNotNull(z.log);
    GivenIsLogged(z.log, t);
    HeldIsGiven(z, t);
  }

  lemma HeldIsGiven(z: State, t: Tid)
    requires |z.items| == SLOTS && OwnerInv(z) && GivenInv(z) && t in z.thieves
    requires forall x :: x in ToOwner(z.log) || x in ToThief(z.log, t) ==> x != 0
    ensures z.owner.PopCommitted? ==> Slot(z, z.owner.b) != 0
    ensures z.owner.PopWon? || z.owner.PopTaken? ==> z.owner.ptr != 0
    ensures z.thieves[t].pc.Stole? ==> z.thieves[t].pc.item != 0
    ensures 0 !in z.got && 0 !in z.thieves[t].got
  {
    var held, taken := OwnerHolds(z.owner), ThiefHolds(z.thieves[t].pc);
    assert forall x :: x in z.got || x in held ==> x in ToOwner(z.log);
    assert forall x :: x in z.thieves[t].got || x in taken ==> x in ToThief(z.log, t);
    assert held != [] ==> held[0] in held;
    assert taken != [] ==> taken[0] in taken;
  }

  lemma {:induction false} ThievesStay(s: State, run: seq<Action>)
    requires |s.items| == SLOTS
    ensures Exec(s, run).thieves.Keys == s.thieves.Keys
    decreases |run|
  {
    if run != [] { ThievesStay(s, run[..|run| - 1]); }
  }

  // ------------------------------------------------- counters that wrap

  /** The test as the machine makes it, on counters of `m` values. */
  predicate TopLessThanBottomOn(t: int, b: int, m: int)
    requires m > 0
  {
    t % m < b % m || (t % m - b % m) % m > SLOTS
  }

  /** Right for every queue state except an empty queue, bottom lowered, whose
      top has just wrapped to 0. */
  lemma TopLessThanBottomWrapped(t: int, b: int, m: int)
    requires m == 0x1_0000_0000 || m == 0x1_0000_0000_0000_0000
    requires t - 1 <= b <= t + SLOTS
    ensures t % m != b % m ==> (TopLessThanBottomOn(t, b, m) <==> t < b || (b == t - 1 && t % m == 0))
    ensures t % m == b % m ==> !TopLessThanBottomOn(t, b, m)
    ensures TopLessThanBottom(t, b) <==> t < b
  {
  }

  /** Nothing in the queue and nobody at work on it, after `n` items. */
  predicate AtRest(s: State, n: nat) {
    && s.bottom == s.top == n && |s.items| == SLOTS && s.numQueued == 0 && s.owner.Resting?
    && 0 in s.thieves && s.thieves[0].pc.Away?
  }

  const THIEF_TWICE := [ThiefStep(0), ThiefStep(0)]

  function PushRun(x: Item): seq<Action> {
    [StartPush(x), OwnerStep] + OWNER_TWICE + [OwnerStep, StartPop]
  }

  /** push from beginning to end, and the beginning of pop. */
  lemma PushRuns(s: State, n: nat, x: Item)
    requires AtRest(s, n) && x != 0
    ensures Exec(s, PushRun(x)) == s.(items := s.items[n % SLOTS := x], bottom := n + 1, numQueued := 1, owner := PopLoop, log := s.log + [Pushed(x)])
  {
    ExecAppend(s, [StartPush(x), OwnerStep] + OWNER_TWICE, [OwnerStep, StartPop]);
    ExecAppend(s, [StartPush(x), OwnerStep], OWNER_TWICE);
    ExecTwo(s, StartPush(x), OwnerStep);
    var s1 := s.(owner := PushLoaded(x, n));
    assert Exec(s, [StartPush(x), OwnerStep]) == s1;
    Stores(s1, n, x);
    ExecTwo(Exec(s1, OWNER_TWICE), OwnerStep, StartPop);
  }

  lemma Stores(s: State, n: nat, x: Item)
    requires |s.items| == SLOTS && s.owner == PushLoaded(x, n)
    ensures Exec(s, OWNER_TWICE) == s.(items := s.items[n % SLOTS := x], bottom := n + 1, owner := PushPublished, log := s.log + [Pushed(x)])
  {
    ExecTwo(s, OwnerStep, OwnerStep);
  }

  /** The rest of pop, of the only item. */
  function PopRun(): seq<Action> {
    OWNER_TWICE + OWNER_TWICE + OWNER_TWICE + [OwnerStep]
  }

  lemma PopRuns(s: State, n: nat)
    requires s.bottom == n + 1 && s.top == n && |s.items| == SLOTS && s.numQueued == 1 && s.owner.PopLoop?
    ensures var z := Exec(s, PopRun());
      z == s.(bottom := n + 1, top := n + 1, numQueued := 0, owner := Resting, log := z.log, got := z.got)
  {
    ExecAppend(s, OWNER_TWICE + OWNER_TWICE + OWNER_TWICE, [OwnerStep]);
    ExecAppend(s, OWNER_TWICE + OWNER_TWICE, OWNER_TWICE);
    ExecAppend(s, OWNER_TWICE, OWNER_TWICE);
    Lowers(s, n + 1);
    Races(Exec(s, OWNER_TWICE), n);
    var s3 := Exec(Exec(Exec(s, OWNER_TWICE), OWNER_TWICE), OWNER_TWICE);
    assert [OwnerStep][..0] == [];
    assert Exec(s3, [OwnerStep]) == Apply(s3, OwnerStep);
  }

  lemma Lowers(s: State, b1: nat)
    requires |s.items| == SLOTS && s.bottom == b1 && s.numQueued != 0 && s.owner.PopLoop?
    ensures Exec(s, OWNER_TWICE) == s.(bottom := b1 - 1, owner := PopLowered(b1))
  {
    ExecTwo(s, OwnerStep, OwnerStep);
  }

  lemma Races(s: State, n: nat)
    requires |s.items| == SLOTS && s.bottom == s.top == n && s.owner == PopLowered(n + 1)
    ensures var z := Exec(Exec(s, OWNER_TWICE), OWNER_TWICE);
      z == s.(bottom := n + 1, top := n + 1, owner := PopTaken(Slot(s, n), Slot(s, n)), log := z.log)
  {
    ExecTwo(s, OwnerStep, OwnerStep);
    var s2 := s.(owner := PopRace(n + 1, n, Slot(s, n)));
    assert Exec(s, OWNER_TWICE) == s2;
    ExecTwo(s2, OwnerStep, OwnerStep);
  }

  /** `n` items pushed and popped, one after the other. */
  function Cycles(x: Item, n: nat): seq<Action> {
    if n == 0 then [] else Cycles(x, n - 1) + (PushRun(x) + PopRun())
  }

  lemma {:induction false} CyclesRest(s: State, x: Item, n: nat)
    requires AtRest(s, 0) && x != 0
    ensures AtRest(Exec(s, Cycles(x, n)), n)
  {
    if n > 0 {
      CyclesRest(s, x, n - 1);
      ExecAppend(s, Cycles(x, n - 1), PushRun(x) + PopRun());
      OneCycle(Exec(s, Cycles(x, n - 1)), x, n - 1);
    }
  }

  lemma OneCycle(s: State, x: Item, n: nat)
    requires AtRest(s, n) && x != 0
    ensures AtRest(Exec(s, PushRun(x) + PopRun()), n + 1)
  {
    ExecAppend(s, PushRun(x), PopRun());
    PushRuns(s, n, x);
    PopRuns(Exec(s, PushRun(x)), n);
  }

  /** A thief takes the only item, and has yet to count it; pop lowers bottom_. */
  function StealRun(): seq<Action> {
    [StartSteal(0), ThiefStep(0)] + THIEF_TWICE + OWNER_TWICE
  }

  lemma StealRuns(s: State, n: nat, x: Item)
    requires s.bottom == n + 1 && s.top == n && |s.items| == SLOTS && s.numQueued == 1 && s.owner.PopLoop?
    requires Slot(s, n) == x && 0 in s.thieves && s.thieves[0].pc.Away?
    ensures var z := Exec(s, StealRun());
      && z.bottom == n && z.top == n + 1 && z.owner == PopLowered(n + 1) && z.items == s.items && z.got == s.got
      && 0 in z.thieves && z.thieves[0] == Thief(Stole(x), s.thieves[0].got)
  {
    ExecAppend(s, [StartSteal(0), ThiefStep(0)] + THIEF_TWICE, OWNER_TWICE);
    ExecAppend(s, [StartSteal(0), ThiefStep(0)], THIEF_TWICE);
    SeesWork(s, n);
    Steals(At(s, 0, SawWork(n)), n, x);
    Lowers(Exec(At(s, 0, SawWork(n)), THIEF_TWICE), n + 1);
  }

  lemma SeesWork(s: State, n: nat)
    requires s.bottom == n + 1 && s.top == n && |s.items| == SLOTS && 0 in s.thieves && s.thieves[0].pc.Away?
    ensures Exec(s, [StartSteal(0), ThiefStep(0)]) == At(s, 0, SawWork(n))
  {
    ExecTwo(s, StartSteal(0), ThiefStep(0));
    assert Apply(s, StartSteal(0)) == At(s, 0, TopLoaded(n));
    assert At(At(s, 0, TopLoaded(n)), 0, SawWork(n)) == At(s, 0, SawWork(n));
  }

  lemma Steals(s: State, n: nat, x: Item)
    requires s.top == n && |s.items| == SLOTS && 0 in s.thieves && s.thieves[0].pc == SawWork(n) && Slot(s, n) == x
    ensures var z := Exec(s, THIEF_TWICE);
      z == s.(top := n + 1, thieves := s.thieves[0 := Thief(Stole(x), s.thieves[0].got)], log := z.log)
  {
    ExecTwo(s, ThiefStep(0), ThiefStep(0));
    var s1 := Apply(s, ThiefStep(0));
    assert s1 == At(s, 0, SlotLoaded(n, x));
    assert Apply(s1, ThiefStep(0)).thieves == s.thieves[0 := Thief(Stole(x), s.thieves[0].got)];
  }

  /** The branch of pop for a queue with more than one item, as in `Owner`. */
  function Commits(s: State, b: int): State
    requires |s.items| == SLOTS
  {
    s.(owner := PopCommitted(b, Slot(s, b)), log := s.log + [Popped(Slot(s, b))])
  }

  /** The case that the test gets wrong, reached from a fresh queue: m - 1 items
      have come and gone, the m-th is pushed and stolen by a thief that has yet to
      count it, and pop lowers bottom_.  The queue is empty; the test on counters
      of m values says that it is not, and pop then returns the stolen item. */
  lemma WrapHandsOutTwice(s: State, m: nat, x: Item)
    requires m == 0x1_0000_0000 || m == 0x1_0000_0000_0000_0000
    requires Init(s) && 0 in s.thieves && x != 0
    ensures var z := Exec(s, Cycles(x, m - 1) + PushRun(x) + StealRun());
      && z.owner == PopLowered(m) && z.top == m && z.bottom == m - 1 && 0 in z.thieves && z.thieves[0].pc == Stole(x)
      && !TopLessThanBottom(z.top, z.bottom) && z.top % m != z.bottom % m && TopLessThanBottomOn(z.top, z.bottom, m)
      && Exec(Commits(z, z.bottom), OWNER_TWICE).got == z.got + [x]
  {
    StolenAtTheEnd(s, m - 1, x);
    WrapTest(m);
    PopReturns(Exec(s, Cycles(x, m - 1) + PushRun(x) + StealRun()), m - 1, x);
  }

  lemma WrapTest(m: nat)
    requires m == 0x1_0000_0000 || m == 0x1_0000_0000_0000_0000
    ensures !TopLessThanBottom(m, m - 1) && m % m != (m - 1) % m && TopLessThanBottomOn(m, m - 1, m)
  {
  }

  lemma StolenAtTheEnd(s: State, n: nat, x: Item)
    requires Init(s) && 0 in s.thieves && x != 0
    ensures var z := Exec(s, Cycles(x, n) + PushRun(x) + StealRun());
      && z.bottom == n && z.top == n + 1 && z.owner == PopLowered(n + 1) && Slot(z, n) == x
      && 0 in z.thieves && z.thieves[0].pc == Stole(x)
  {
    var y := Exec(s, Cycles(x, n));
    CyclesRest(s, x, n);
    ExecAppend(s, Cycles(x, n) + PushRun(x), StealRun());
    ExecAppend(s, Cycles(x, n), PushRun(x));
    PushRuns(y, n, x);
    StealRuns(Exec(y, PushRun(x)), n, x);
  }

  lemma PopReturns(z: State, b: nat, x: Item)
    requires |z.items| == SLOTS && Slot(z, b) == x
    ensures Exec(Commits(z, b), OWNER_TWICE).got == z.got + [x]
  {
    ExecTwo(Commits(z, b), OwnerStep, OwnerStep);
  }
}
