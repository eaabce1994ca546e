/** GcLock as a step relation over any number of threads (arch/gc_lock.cc).

    Every load, compare-and-swap, spinlock operation and callback is a step of
    its own; checkDefers evaluates visibleEpoch() on shared memory, so each of
    its loads is a step, while the other loops work on a copy of the word.

    History variables make the promises sayable: a number for each critical
    section (`sid`), the true epoch a reader entered, a number for each piece
    of deferred work with the sections that were open when it was handed over
    (`guards`), and whether one of the two things that break a promise has
    happened (`tore`, `strayed`). */
module GcProtocol {
  import opened GcWord

  type Tid = nat
  type Sid = nat
  type Item = nat

  /** What a thread holds.  `inEpoch` is the field of that name; `epoch` and
      `sid` are history. */
  datatype Hold =
    | Outside
    | Shared(inEpoch: int, epoch: int, sid: Sid)
    | Exclusive(sid: Sid)

  datatype Pc =
    | Idle
    | Entering(cur: Word)                    // enterCS, `current` loaded
    | Exiting(cur: Word, runDefer: bool)     // exitCS, `current` loaded
    | Acquiring(cur: Word)                   // enterCSExclusive, before the CAS
    | Acquired(start: int)                   // exclusive bit set, startEpoch noted
    | Draining(start: int, from: int)        // visibleBarrier inside enterCSExclusive
    | Barrier(from: int, waitFor: set<Sid>)  // visibleBarrier on its own
    | Owing                                  // about to call runDefers
    | Checking(batch: seq<Item>, inner: bool, loads: seq<Word>)   // checkDefers: which loop's test, and its loads so far
    | Running(batch: seq<Item>)              // runDefers, spinlock released
    | Snapped(item: Item, key: int)          // doDefer, first snapshot taken
    | Locked(item: Item, key: int)           // doDefer, spinlock held
    | Inserting(item: Item, key: int)        // doDefer, second snapshot said wait
    | Inline(item: Item)                     // doDefer, will call fn itself

  datatype Thread = Thread(hold: Hold, pc: Pc)

  /** Where a piece of deferred work is (history). */
  datatype Home = Hand(t: Tid) | Queued(key: int) | Batch(t: Tid) | Done

  datatype Option<T> = None | Some(value: T)

  datatype State = State(
    word: Word,
    threads: map<Tid, Thread>,
    lock: Option<Tid>,              // Deferred::lock
    entries: map<int, seq<Item>>,   // Deferred::entries
    ran: seq<Item>,                 // callbacks made, in order
    nextSid: Sid,
    guards: seq<set<Sid>>,          // per item: sections open at its first snapshot
    home: seq<Home>,
    skipped: bool,                  // some update raised visibility under RD_NO
    tore: bool,                     // an entry moved the epoch on in the middle of an inner test
    strayed: bool)                  // a walk of entries ended while they were not in epoch order

  datatype Action =
    | LoadEnter(t: Tid)
    | CasEnter(t: Tid)
    | LoadExit(t: Tid, runDefer: bool)
    | CasExit(t: Tid)
    | LoadExclusive(t: Tid)
    | CasExclusive(t: Tid)
    | DrainStart(t: Tid)
    | DrainPoll(t: Tid)
    | ReleaseExclusive(t: Tid)
    | BarrierStart(t: Tid)
    | BarrierPoll(t: Tid)
    | CallRunDefers(t: Tid)
    | LockCheck(t: Tid)
    | Look(t: Tid)
    | CheckEnter(t: Tid)
    | CheckPop(t: Tid, key: int)
    | CheckBreak(t: Tid)
    | CheckDone(t: Tid)
    | RunOne(t: Tid)
    | RunEnd(t: Tid)
    | Defer(t: Tid)
    | LockDefer(t: Tid)
    | Recheck(t: Tid)
    | Insert(t: Tid)
    | RunInline(t: Tid)

  // ---------------------------------------------------------------- steps

  predicate Reading(s: State, t: Tid) {
    t in s.threads && s.threads[t].hold.Shared?
  }

  predicate Inside(s: State, t: Tid) {
    t in s.threads && !s.threads[t].hold.Outside?
  }

  /** Sections open now, shared or exclusive. */
  function Open(s: State): set<Sid> {
    set t | t in s.threads && !s.threads[t].hold.Outside? :: s.threads[t].hold.sid
  }

  /** Those that the counts know of. */
  function OpenShared(s: State): set<Sid> {
    set t | t in s.threads && s.threads[t].hold.Shared? :: s.threads[t].hold.sid
  }

  /** What a step does to deferred work. */
  datatype Work =
    | Same
    | New                              // doDefer is called
    | Pop(key: int)                    // a list is erased from entries and kept to run
    | Put(key: int, item: Item)        // an item joins a list of entries
    | Ran(item: Item)                  // a callback is made

  /** Everything a step of one thread changes. */
  datatype Effect = Effect(
    thread: Thread, word: Word, lock: Option<Tid>, work: Work, skips: bool, tears: bool, strays: bool)

  function ListAt(entries: map<int, seq<Item>>, key: int): seq<Item> {
    if key in entries then entries[key] else []
  }

  /** `home` with every item of `items` moved to `h`. */
  function Move(home: seq<Home>, items: seq<Item>, h: Home): (r: seq<Home>)
    ensures |r| == |home|
  {
    seq(|home|, i requires 0 <= i < |home| => if i in items then h else home[i])
  }

  function EntriesAfter(s: State, w: Work): map<int, seq<Item>> {
    match w
    case Pop(k) => s.entries - {k}
    case Put(k, i) => s.entries[k := ListAt(s.entries, k) + [i]]
    case _ => s.entries
  }

  function HomeAfter(s: State, t: Tid, w: Work): seq<Home> {
    match w
    case Same => s.home
    case New => s.home + [Hand(t)]
    case Pop(k) => Move(s.home, ListAt(s.entries, k), Batch(t))
    case Put(k, i) => Move(s.home, [i], Queued(k))
    case Ran(i) => Move(s.home, [i], Done)
  }

  function Commit(s: State, t: Tid, f: Effect): State
    requires t in s.threads
  {
    State(
      f.word, s.threads[t := f.thread], f.lock, EntriesAfter(s, f.work),
      if f.work.Ran? then s.ran + [f.work.item] else s.ran,
      if s.threads[t].hold.Outside? && !f.thread.hold.Outside? then s.nextSid + 1 else s.nextSid,
      if f.work.New? then s.guards + [Open(s)] else s.guards,
      HomeAfter(s, t, f.work),
      s.skipped || f.skips, s.tore || f.tears, s.strayed || f.strays)
  }

  /** The three ways out of visibleBarrier's loop. */
  predicate BarrierOpen(w: Word, from: int) {
    || (w.epoch != from && w.epoch != from + 1)
    || (!AnyInCurrent(w) && !AnyInOld(w))
    || VisibleEpoch(w) == from
  }

  /** doDefer's newestVisibleEpoch. */
  function NewestVisible(w: Word): int {
    if AnyInCurrent(w) then w.epoch else w.epoch - 1
  }

  /** entries.begin(): the map is ordered by signed 32-bit images. */
  predicate Front(key: int, entries: map<int, seq<Item>>) {
    key in entries && forall k :: k in entries ==> SignedImage(key) <= SignedImage(k)
  }

  /** There is no first key, or it is above `e`. */
  predicate FrontAbove(entries: map<int, seq<Item>>, e: int) {
    forall k :: k in entries && Front(k, entries) ==> k > e
  }

  /** The map's order of the keys is the order of the epochs. */
  predicate EpochOrder(entries: map<int, seq<Item>>) {
    forall a, b :: a in entries && b in entries && a < b ==> SignedImage(a) < SignedImage(b)
  }

  /** The loads of visibleEpoch() after which one of checkDefers' two tests says
      that there is nothing to do. */
  predicate NothingVisible(entries: map<int, seq<Item>>, loads: seq<Word>) {
    entries == map[] || (|loads| == 7 && FrontAbove(entries, TornVisible(loads)))
  }

  /** A test of the inner loop is between its third and its fifth load. */
  predicate InMiddle(pc: Pc) {
    pc.Checking? && pc.inner && 3 <= |pc.loads| <= 4
  }

  /** A successful updateAtomic: the thread then owes a runDefers if visibility
      changed and it was asked to run them. */
  function Updated(w: Word, v: Word, hold: Hold, lock: Option<Tid>, runDefer: bool): Effect {
    var wake := VisibleEpoch(v) != VisibleEpoch(w);
    Effect(Thread(hold, if wake && runDefer then Owing else Idle), v, lock, Same, wake && !runDefer, false, false)
  }

  /** A step that only moves the thread on. */
  function Goes(s: State, t: Tid, pc: Pc): Effect
    requires t in s.threads
  {
    Effect(s.threads[t].(pc := pc), s.word, s.lock, Same, false, false, false)
  }

  function Stays(s: State, t: Tid): Effect
    requires t in s.threads
  {
    Effect(s.threads[t], s.word, s.lock, Same, false, false, false)
  }

  function EnterEffect(s: State, a: Action): Effect
    requires a.t in s.threads && (a.LoadEnter? || a.CasEnter?)
  {
    var th, w := s.threads[a.t], s.word;
    if a.LoadEnter? then
      if th.pc.Idle? && th.hold.Outside? then Goes(s, a.t, Entering(w)) else Stays(s, a.t)
    else if !th.pc.Entering? then Stays(s, a.t)
    else if th.pc.cur.exclusive || th.pc.cur != w then Goes(s, a.t, Entering(w))
    else
      var v := EnterWord(w);
      var f := Updated(w, v, Shared(v.epoch % 2, v.epoch, s.nextSid), s.lock, true);
      f.(tears := v.epoch != w.epoch && exists u :: u in s.threads && InMiddle(s.threads[u].pc))
  }

  function ExitEffect(s: State, a: Action): Effect
    requires a.t in s.threads && (a.LoadExit? || a.CasExit?)
  {
    var th, w := s.threads[a.t], s.word;
    if a.LoadExit? then
      if th.pc.Idle? && th.hold.Shared? then Goes(s, a.t, Exiting(w, a.runDefer)) else Stays(s, a.t)
    else if !th.pc.Exiting? || !th.hold.Shared? then Stays(s, a.t)
    else if th.pc.cur != w then Goes(s, a.t, Exiting(w, th.pc.runDefer))
    else if In(w, th.hold.inEpoch) == 0 then Stays(s, a.t)  // does not happen: ReaderIsCounted
    else Updated(w, ExitWord(w, th.hold.inEpoch), Outside, s.lock, th.pc.runDefer)
  }

  function ExclusiveEffect(s: State, a: Action): Effect
    requires a.t in s.threads && (a.LoadExclusive? || a.CasExclusive? || a.DrainStart? || a.DrainPoll? || a.ReleaseExclusive?)
  {
    var th, w := s.threads[a.t], s.word;
    match a
    case LoadExclusive(_) => if th.pc.Idle? && th.hold.Outside? then Goes(s, a.t, Acquiring(w)) else Stays(s, a.t)
    case CasExclusive(_) =>
      if !th.pc.Acquiring? then Stays(s, a.t)
      else if th.pc.cur.exclusive || th.pc.cur != w then Goes(s, a.t, Acquiring(w))
      else Goes(s, a.t, Acquired(w.epoch)).(word := w.(exclusive := true))
    case DrainStart(_) => if th.pc.Acquired? then Goes(s, a.t, Draining(th.pc.start, w.epoch)) else Stays(s, a.t)
    case DrainPoll(_) =>
      if th.pc.Draining? && BarrierOpen(w, th.pc.from) then Stays(s, a.t).(thread := Thread(Exclusive(s.nextSid), Idle)) else Stays(s, a.t)
    case ReleaseExclusive(_) =>
      if th.pc.Idle? && th.hold.Exclusive?
      then Stays(s, a.t).(word := w.(exclusive := false), thread := Thread(Outside, Idle)) else Stays(s, a.t)
  }

  function BarrierEffect(s: State, a: Action): Effect
    requires a.t in s.threads && (a.BarrierStart? || a.BarrierPoll?)
  {
    var th, w := s.threads[a.t], s.word;
    if a.BarrierStart? then
      if th.pc.Idle? && th.hold.Outside? then Goes(s, a.t, Barrier(w.epoch, Open(s))) else Stays(s, a.t)
    else
      if th.pc.Barrier? && BarrierOpen(w, th.pc.from) then Goes(s, a.t, Idle) else Stays(s, a.t)
  }

  function LookEffect(s: State, a: Action): Effect
    requires a.t in s.threads && (a.CallRunDefers? || a.LockCheck? || a.Look?)
  {
    var th := s.threads[a.t];
    match a
    case CallRunDefers(_) => if th.pc.Idle? then Goes(s, a.t, Owing) else Stays(s, a.t)
    case LockCheck(_) =>
      if th.pc.Owing? && s.lock.None? then Goes(s, a.t, Checking([], false, [])).(lock := Some(a.t)) else Stays(s, a.t)
    case Look(_) =>
      if th.pc.Checking? && |th.pc.loads| < 7 then Goes(s, a.t, th.pc.(loads := th.pc.loads + [s.word])) else Stays(s, a.t)
  }

  /** checkDefers' two loops, at the end of a test. */
  function CheckEffect(s: State, a: Action): Effect
    requires a.t in s.threads && (a.CheckEnter? || a.CheckPop? || a.CheckBreak? || a.CheckDone?)
  {
    var th := s.threads[a.t];
    if !th.pc.Checking? then Stays(s, a.t) else
    match a
    case CheckEnter(_) =>   // the outer test: something is visible
      if !th.pc.inner && |th.pc.loads| == 7 && !NothingVisible(s.entries, th.pc.loads)
      then Goes(s, a.t, Checking(th.pc.batch, true, [])) else Stays(s, a.t)
    case CheckPop(_, key) =>   // the inner test: the first key is
      if th.pc.inner && |th.pc.loads| == 7 && Front(key, s.entries) && key <= TornVisible(th.pc.loads)
      then Goes(s, a.t, Checking(th.pc.batch + ListAt(s.entries, key), true, [])).(work := Pop(key)) else Stays(s, a.t)
    case CheckBreak(_) =>   // it is not: back to the outer loop
      if th.pc.inner && NothingVisible(s.entries, th.pc.loads) then Goes(s, a.t, Checking(th.pc.batch, false, [])) else Stays(s, a.t)
    case CheckDone(_) =>   // the outer test: nothing is visible
      if !th.pc.inner && NothingVisible(s.entries, th.pc.loads)
      then Goes(s, a.t, Running(th.pc.batch)).(lock := None, strays := !EpochOrder(s.entries)) else Stays(s, a.t)
  }

  function RunEffect(s: State, a: Action): Effect
    requires a.t in s.threads && (a.RunOne? || a.RunEnd? || a.RunInline?)
  {
    var th := s.threads[a.t];
    match a
    case RunOne(_) =>
      if th.pc.Running? && th.pc.batch != []
      then Goes(s, a.t, Running(th.pc.batch[1..])).(work := Ran(th.pc.batch[0])) else Stays(s, a.t)
    case RunEnd(_) => if th.pc.Running? && th.pc.batch == [] then Goes(s, a.t, Idle) else Stays(s, a.t)
    case RunInline(_) => if th.pc.Inline? then Goes(s, a.t, Idle).(work := Ran(th.pc.item)) else Stays(s, a.t)
  }

  function DeferEffect(s: State, a: Action): Effect
    requires a.t in s.threads && (a.Defer? || a.LockDefer? || a.Recheck? || a.Insert?)
  {
    var th, w := s.threads[a.t], s.word;
    match a
    case Defer(_) =>
      if !th.pc.Idle? then Stays(s, a.t)
      else
        var pc := if !AnyInCurrent(w) && !AnyInOld(w) then Inline(|s.guards|) else Snapped(|s.guards|, NewestVisible(w));
        Goes(s, a.t, pc).(work := New)
    case LockDefer(_) =>
      if th.pc.Snapped? && s.lock.None? then Goes(s, a.t, Locked(th.pc.item, th.pc.key)).(lock := Some(a.t)) else Stays(s, a.t)
    case Recheck(_) =>
      if !th.pc.Locked? then Stays(s, a.t)
      else if RunNow(w, th.pc.key) then Goes(s, a.t, Inline(th.pc.item)).(lock := None)
      else Goes(s, a.t, Inserting(th.pc.item, th.pc.key))
    case Insert(_) =>
      if th.pc.Inserting? then Goes(s, a.t, Idle).(lock := None, work := Put(th.pc.key, th.pc.item)) else Stays(s, a.t)
  }

  /** What an action does when it can be taken; a thread that is not at the
      matching point does nothing. */
  function EffectOf(s: State, a: Action): Effect
    requires a.t in s.threads
  {
    if a.LoadEnter? || a.CasEnter? then EnterEffect(s, a)
    else if a.LoadExit? || a.CasExit? then ExitEffect(s, a)
    else if a.LoadExclusive? || a.CasExclusive? || a.DrainStart? || a.DrainPoll? || a.ReleaseExclusive? then ExclusiveEffect(s, a)
    else if a.BarrierStart? || a.BarrierPoll? then BarrierEffect(s, a)
    else if a.CallRunDefers? || a.LockCheck? || a.Look? then LookEffect(s, a)
    else if a.CheckEnter? || a.CheckPop? || a.CheckBreak? || a.CheckDone? then CheckEffect(s, a)
    else if a.RunOne? || a.RunEnd? || a.RunInline? then RunEffect(s, a)
    else DeferEffect(s, a)
  }

  function Apply(s: State, a: Action): State {
    if a.t in s.threads then Commit(s, a.t, EffectOf(s, a)) else s
  }

  /** Any interleaving: a list of actions, each taken if it can be. */
  function Exec(s: State, run: seq<Action>): State
    decreases |run|
  {
    if run == [] then s else Apply(Exec(s, run[..|run| - 1]), run[|run| - 1])
  }

  /** A fresh lock: any starting epoch (gcLockStartingEpoch), any threads. */
  ghost predicate Init(s: State) {
    && s.word == Word(s.word.epoch, 0, 0, false)
    && (forall t :: t in s.threads ==> s.threads[t] == Thread(Outside, Idle))
    && s.lock.None? && s.entries == map[] && s.ran == []
    && s.guards == [] && s.home == [] && !s.skipped && !s.tore && !s.strayed
  }

  // ----------------------------------------------------------- invariants

  function Readers(s: State, e: int): set<Tid> {
    set t | t in s.threads && s.threads[t].hold.Shared? && s.threads[t].hold.epoch == e
  }

  predicate Placed(h: Hold, epoch: int, nextSid: Sid)
    requires h.Shared?
  {
    (h.epoch == epoch || h.epoch == epoch - 1) && h.inEpoch == h.epoch % 2 && h.sid < nextSid
  }

  ghost predicate PlacedInv(s: State) {
    && (forall t :: Reading(s, t) ==> Placed(s.threads[t].hold, s.word.epoch, s.nextSid))
    && (forall t :: Inside(s, t) ==> s.threads[t].hold.sid < s.nextSid)
  }

  ghost predicate DistinctInv(s: State) {
    forall t, u {:trigger Distinct(s, t, u)} :: Inside(s, t) && Inside(s, u) && t != u ==> Distinct(s, t, u)
  }

  predicate Distinct(s: State, t: Tid, u: Tid)
    requires Inside(s, t) && Inside(s, u)
  {
    s.threads[t].hold.sid != s.threads[u].hold.sid
  }

  ghost predicate CountInv(s: State) {
    && In(s.word, s.word.epoch) == |Readers(s, s.word.epoch)|
    && In(s.word, s.word.epoch - 1) == |Readers(s, s.word.epoch - 1)|
  }

  /** Each reader is in the current epoch or the one before, and each parity's
      count is the number of threads that hold it. */
  ghost predicate EpochInv(s: State) {
    PlacedInv(s) && DistinctInv(s) && CountInv(s)
  }

  /** The exclusive bit is set by this thread. */
  ghost predicate Owner(th: Thread) {
    th.hold.Exclusive? || th.pc.Acquired? || th.pc.Draining?
  }

  predicate PcInv(th: Thread) {
    && (th.pc.Entering? || th.pc.Acquiring? || th.pc.Acquired? || th.pc.Draining? || th.pc.Barrier?
        ==> th.hold.Outside?)
    && (th.pc.Exiting? ==> th.hold.Shared?)
  }

  /** One owner at most, and only while the bit is set; while it waits the
      epoch stays where it was; once it is in, there is no reader. */
  ghost predicate ExclusiveInv(s: State) {
    && (forall t :: t in s.threads ==> PcInv(s.threads[t]))
    && (forall t :: t in s.threads && Owner(s.threads[t]) ==> s.word.exclusive)
    && (forall t, u {:trigger OneOwner(s, t, u)} :: t in s.threads && u in s.threads && t != u ==> OneOwner(s, t, u))
    && (forall t :: t in s.threads && s.threads[t].pc.Acquired? ==> s.threads[t].pc.start == s.word.epoch)
    && (forall t :: t in s.threads && s.threads[t].pc.Draining? ==>
          s.threads[t].pc.start == s.threads[t].pc.from == s.word.epoch)
    && (forall t :: t in s.threads && s.threads[t].hold.Exclusive? ==> Empty(s))
  }

  ghost predicate OneOwner(s: State, t: Tid, u: Tid)
    requires t in s.threads && u in s.threads
  {
    !(Owner(s.threads[t]) && Owner(s.threads[u]))
  }

  /** Nobody reads. */
  ghost predicate Empty(s: State) {
    forall u :: u in s.threads ==> !Reading(s, u)
  }

  /** The bit is never left behind. */
  ghost predicate OwnedInv(s: State) {
    s.word.exclusive ==> exists t :: t in s.threads && Owner(s.threads[t])
  }

  predicate HoldsLock(pc: Pc) {
    pc.Checking? || pc.Locked? || pc.Inserting?
  }

  ghost predicate LockInv(s: State) {
    forall t :: t in s.threads ==> (HoldsLock(s.threads[t].pc) <==> s.lock == Some(t))
  }

  ghost predicate NoDup(q: seq<Item>) {
    forall i, j :: 0 <= i < j < |q| ==> q[i] != q[j]
  }

  /** `q` lists, without repeats, items whose home is `h`. */
  ghost predicate Lists(q: seq<Item>, home: seq<Home>, h: Home) {
    NoDup(q) && forall j :: 0 <= j < |q| ==> q[j] < |home| && home[q[j]] == h
  }

  ghost predicate Hands(pc: Pc, home: seq<Home>, t: Tid) {
    Waiting(pc) || pc.Inline? ==> pc.item < |home| && home[pc.item] == Hand(t)
  }

  /** Whatever is in a place has its home there, and is there once. */
  ghost predicate ListedInv(s: State) {
    && (forall t :: t in s.threads ==> Hands(s.threads[t].pc, s.home, t))
    && (forall t :: t in s.threads ==> Lists(BatchOf(s.threads[t].pc), s.home, Batch(t)))
    && (forall k :: k in s.entries ==> Lists(s.entries[k], s.home, Queued(k)))
    && Lists(s.ran, s.home, Done)
  }

  /** Each piece of work is in exactly the one place that `home` says. */
  ghost predicate HomeInv(s: State) {
    && |s.home| == |s.guards|
    && ListedInv(s)
    && (forall i :: 0 <= i < |s.home| ==> AtHome(s, i))
  }

  ghost predicate AtHome(s: State, i: Item)
    requires i < |s.home|
  {
    match s.home[i]
    case Hand(t) => t in s.threads && InHand(s.threads[t].pc, i)
    case Batch(t) => t in s.threads && i in BatchOf(s.threads[t].pc)
    case Queued(k) => k in s.entries && i in s.entries[k]
    case Done => i in s.ran
  }

  /** The key an item still waits for, if it waits. */
  ghost function WaitKey(s: State, i: Item): Option<int>
    requires i < |s.home|
  {
    match s.home[i]
    case Hand(t) =>
      if t !in s.threads then None else
      var pc := s.threads[t].pc;
      if Waiting(pc) then Some(pc.key) else None
    case Queued(k) => Some(k)
    case _ => None
  }

  /** While an item waits under a key, the sections it must outlast entered at
      or before that key; once it has stopped waiting, they are all closed. */
  ghost predicate GraceInv(s: State) {
    && |s.home| == |s.guards|
    && (forall i :: 0 <= i < |s.guards| ==> Numbered(s.guards[i], s.nextSid))
    && (!s.tore ==> forall i, t {:trigger Outlasts(s, i, t)} :: 0 <= i < |s.home| && Reading(s, t) ==> Outlasts(s, i, t))
  }

  ghost predicate Numbered(sids: set<Sid>, nextSid: Sid) {
    forall sid :: sid in sids ==> sid < nextSid
  }

  /** Item `i` still waits, for the epoch of reader `t` or a later one, if it must
      outlast that reader. */
  ghost predicate Outlasts(s: State, i: Item, t: Tid)
    requires i < |s.home| == |s.guards| && Reading(s, t)
  {
    s.threads[t].hold.sid in s.guards[i] ==> WaitKey(s, i).Some? && s.threads[t].hold.epoch <= WaitKey(s, i).value
  }

  /** The loads of one test, in order, and what was visible at the first. */
  ghost predicate ReadsInv(s: State) {
    forall t :: t in s.threads && s.threads[t].pc.Checking? ==> ReadsOk(s, s.threads[t].pc.loads)
  }

  ghost predicate ReadsOk(s: State, loads: seq<Word>) {
    && |loads| <= 7 && InOrder(loads)
    && (forall j :: 0 <= j < |loads| ==> loads[j].epoch <= s.word.epoch && VisibleEpoch(loads[0]) <= VisibleEpoch(loads[j]))
    && (loads != [] ==> VisibleEpoch(loads[0]) <= VisibleEpoch(s.word))
  }

  /** A reader that a queued item must outlast was inside at every load: it was
      there before the spinlock was taken, and no item is queued meanwhile. */
  ghost predicate CountedInv(s: State) {
    && |s.home| == |s.guards|
    && forall t, i, u {:trigger CountedAt(s, t, i, u)} ::
         t in s.threads && s.threads[t].pc.Checking? && 0 <= i < |s.home| && Reading(s, u) ==> CountedAt(s, t, i, u)
  }

  ghost predicate CountedAt(s: State, t: Tid, i: Item, u: Tid)
    requires t in s.threads && s.threads[t].pc.Checking? && i < |s.home| == |s.guards| && Reading(s, u)
  {
    s.home[i].Queued? && s.threads[u].hold.sid in s.guards[i] ==> AllCount(s.threads[t].pc.loads, s.threads[u].hold.epoch)
  }

  ghost predicate AllCount(loads: seq<Word>, e: int) {
    forall j :: 0 <= j < |loads| ==> Counts(loads[j], e)
  }

  /** No entry has moved the epoch on between the third load and the fifth. */
  ghost predicate UntornInv(s: State) {
    !s.tore ==> forall t :: t in s.threads && s.threads[t].pc.Checking? && s.threads[t].pc.inner ==> Untorn(s.threads[t].pc.loads, s.word)
  }

  predicate Untorn(loads: seq<Word>, w: Word) {
    && (3 <= |loads| <= 4 ==> loads[2].epoch == w.epoch)
    && (|loads| >= 5 ==> loads[2].epoch == loads[4].epoch)
  }

  ghost predicate BarrierInv(s: State) {
    && (forall t :: t in s.threads && s.threads[t].pc.Barrier? ==>
          Numbered(s.threads[t].pc.waitFor, s.nextSid) && s.threads[t].pc.from <= s.word.epoch)
    && (forall t, u {:trigger WaitsFor(s, t, u)} :: t in s.threads && s.threads[t].pc.Barrier? && Reading(s, u) ==> WaitsFor(s, t, u))
  }

  /** A reader that the barrier waits for entered no later than it began. */
  ghost predicate WaitsFor(s: State, t: Tid, u: Tid)
    requires t in s.threads && s.threads[t].pc.Barrier? && Reading(s, u)
  {
    s.threads[u].hold.sid in s.threads[t].pc.waitFor ==> s.threads[u].hold.epoch <= s.threads[t].pc.from
  }

  ghost predicate KeyInv(s: State) {
    && (forall k :: k in s.entries ==> k <= s.word.epoch)
    && (forall t :: t in s.threads && Waiting(s.threads[t].pc) ==> s.threads[t].pc.key <= s.word.epoch)
  }

  predicate Covers(pc: Pc) {
    pc.Owing? || pc.Checking?
  }

  /** Visibility has risen since the first load. */
  predicate Behind(pc: Pc, w: Word) {
    pc.Checking? && pc.loads != [] && VisibleEpoch(pc.loads[0]) != VisibleEpoch(w)
  }

  ghost predicate SomeoneCovers(s: State) {
    exists t :: t in s.threads && Covers(s.threads[t].pc)
  }

  ghost predicate SomeoneOwes(s: State) {
    exists t :: t in s.threads && s.threads[t].pc.Owing?
  }

  /** A key that visibility has reached is about to be looked at, unless a walk
      stopped at a later key that the map has before it; and whatever the map's
      order, a key is about to be looked at once nobody is inside. */
  ghost predicate CoverInv(s: State) {
    !s.skipped ==>
      && (!s.strayed ==> forall k :: k in s.entries && k <= VisibleEpoch(s.word) ==> SomeoneCovers(s))
      && (!AnyInCurrent(s.word) && !AnyInOld(s.word) && s.entries != map[] ==> SomeoneCovers(s))
      && (forall u :: u in s.threads && s.threads[u].pc.Inserting? && s.threads[u].pc.key <= VisibleEpoch(s.word) ==> SomeoneOwes(s))
      && (forall u :: u in s.threads && Behind(s.threads[u].pc, s.word) ==> SomeoneOwes(s))
  }

  ghost predicate Inv(s: State) {
    EpochInv(s) && ExclusiveInv(s) && OwnedInv(s) && LockInv(s) && HomeInv(s) && GraceInv(s)
    && ReadsInv(s) && CountedInv(s) && UntornInv(s) && BarrierInv(s) && KeyInv(s) && CoverInv(s)
  }

  // --------------------------------------------- what each step does locally
  //
  // Each predicate looks only at the thread that steps; together they are all
  // that the proofs below know about the actions.

  /** Word and hold: nothing as far as readers are concerned, or in, or out. */
  predicate HoldStep(s: State, t: Tid, f: Effect)
    requires t in s.threads
  {
    var w, h, w', h' := s.word, s.threads[t].hold, f.word, f.thread.hold;
    || (w'.(exclusive := w.exclusive) == w && (h' == h || (h.Exclusive? && h'.Outside?) || (h.Outside? && h' == Exclusive(s.nextSid))))
    || (h.Outside? && w' == EnterWord(w) && h' == Shared(w'.epoch % 2, w'.epoch, s.nextSid))
    || (h.Shared? && h'.Outside? && In(w, h.inEpoch) > 0 && w' == ExitWord(w, h.inEpoch))
  }

  /** The exclusive bit and the waiting owner's epoch. */
  ghost predicate OwnerStep(s: State, t: Tid, f: Effect)
    requires t in s.threads
  {
    var w, th, w', th' := s.word, s.threads[t], f.word, f.thread;
    && (Owner(th') <==> w'.exclusive && (Owner(th) || !w.exclusive))
    && (w'.exclusive != w.exclusive ==> Owner(th) || Owner(th'))
    && (th'.pc.Acquired? ==> th'.pc.start == w'.epoch)
    && (th'.pc.Draining? ==> th'.pc.start == th'.pc.from == w'.epoch)
    && (w.exclusive ==> w'.epoch == w.epoch)
    && (th'.hold.Exclusive? && !th.hold.Exclusive? ==> !AnyInCurrent(w) && !AnyInOld(w))
    && (w.exclusive && th'.hold.Shared? ==> th.hold.Shared?)
  }

  ghost predicate LockStep(s: State, t: Tid, f: Effect) {
    && (HoldsLock(f.thread.pc) <==> f.lock == Some(t))
    && (f.lock == s.lock || ((s.lock.None? || s.lock == Some(t)) && (f.lock.None? || f.lock == Some(t))))
  }

  predicate BarrierStep(s: State, t: Tid, f: Effect)
    requires t in s.threads
  {
    f.thread.pc.Barrier? ==> f.thread.pc == s.threads[t].pc || f.thread.pc == Barrier(s.word.epoch, Open(s))
  }

  predicate Waiting(pc: Pc) {
    pc.Snapped? || pc.Locked? || pc.Inserting?
  }

  predicate EmptyHanded(pc: Pc) {
    !Waiting(pc) && !pc.Inline? && BatchOf(pc) == []
  }

  predicate InHand(pc: Pc, i: Item) {
    (Waiting(pc) || pc.Inline?) && pc.item == i
  }

  function BatchOf(pc: Pc): seq<Item> {
    if pc.Checking? || pc.Running? then pc.batch else []
  }

  /** How work passes through the thread that steps, and why it may stop waiting. */
  predicate WorkStep(s: State, t: Tid, f: Effect)
    requires t in s.threads
  {
    var pc, pc' := s.threads[t].pc, f.thread.pc;
    match f.work
    case Same =>
      && BatchOf(pc') == BatchOf(pc)
      && (pc.Inline? ==> pc' == pc)
      && (Waiting(pc) ==> (Waiting(pc') && pc'.item == pc.item && pc'.key == pc.key)
                          || (pc' == Inline(pc.item) && RunNow(s.word, pc.key)))
      && (Waiting(pc') || pc'.Inline? ==> Waiting(pc) || pc.Inline?)
    case New =>
      && EmptyHanded(pc)
      && (pc' == Snapped(|s.guards|, NewestVisible(s.word))
          || (pc' == Inline(|s.guards|) && !AnyInCurrent(s.word) && !AnyInOld(s.word)))
    case Pop(k) =>
      && k in s.entries && pc.Checking? && pc.inner && |pc.loads| == 7 && k <= TornVisible(pc.loads)
      && pc' == Checking(pc.batch + s.entries[k], true, [])
    case Put(k, i) => pc == Inserting(i, k) && EmptyHanded(pc')
    case Ran(i) =>
      || (pc == Inline(i) && EmptyHanded(pc'))
      || (pc.Running? && pc'.Running? && pc.batch == [i] + pc'.batch)
  }

  predicate CoverStep(s: State, t: Tid, f: Effect)
    requires t in s.threads
  {
    var pc, pc' := s.threads[t].pc, f.thread.pc;
    && (VisibleEpoch(f.word) != VisibleEpoch(s.word) ==> f.skips || pc'.Owing?)
    && (Covers(pc) && !Covers(pc') ==>
          pc.Checking? && NothingVisible(s.entries, pc.loads) && (f.strays || EpochOrder(s.entries)))
    && (pc.Owing? && !pc'.Owing? ==> s.lock.None?)
    && (pc'.Inserting? && pc' != pc ==> VisibleEpoch(s.word) < pc'.key)
  }

  /** The loads of a test, one at a time, and what moves while it goes on. */
  predicate LoadStep(s: State, t: Tid, f: Effect)
    requires t in s.threads
  {
    var pc, pc' := s.threads[t].pc, f.thread.pc;
    && (pc'.Checking? ==>
          || pc'.loads == []
          || (pc.Checking? && pc'.inner == pc.inner && |pc.loads| < 7 && pc'.loads == pc.loads + [s.word])
          || pc' == pc)
    && (pc.Checking? || pc'.Checking? ==> f.word == s.word)
    && (f.word.epoch != s.word.epoch ==> f.tears || forall u :: u in s.threads ==> !InMiddle(s.threads[u].pc))
  }

  /** What the invariants say of the thread that steps. */
  ghost predicate Sound(s: State, t: Tid)
    requires t in s.threads
  {
    var th := s.threads[t];
    && PcInv(th) && (Owner(th) ==> s.word.exclusive)
    && (th.pc.Acquired? ==> th.pc.start == s.word.epoch)
    && (th.pc.Draining? ==> th.pc.start == th.pc.from == s.word.epoch)
    && (HoldsLock(th.pc) <==> s.lock == Some(t))
  }

  ghost predicate LocalStep(s: State, t: Tid, f: Effect)
    requires t in s.threads
  {
    && PcInv(f.thread) && HoldStep(s, t, f) && OwnerStep(s, t, f) && LockStep(s, t, f)
    && BarrierStep(s, t, f) && WorkStep(s, t, f) && CoverStep(s, t, f) && LoadStep(s, t, f)
  }

  lemma EnterSteps(s: State, a: Action)
    requires a.t in s.threads && Sound(s, a.t) && (a.LoadEnter? || a.CasEnter?)
    ensures LocalStep(s, a.t, EnterEffect(s, a))
  {
    EnterKeepsVisible(s.word);
  }

  lemma ExitSteps(s: State, a: Action)
    requires a.t in s.threads && Sound(s, a.t) && (a.LoadExit? || a.CasExit?)
    ensures LocalStep(s, a.t, ExitEffect(s, a))
  {
  }

  lemma ExclusiveSteps(s: State, a: Action)
    requires a.t in s.threads && Sound(s, a.t) && (a.LoadExclusive? || a.CasExclusive? || a.DrainStart? || a.DrainPoll? || a.ReleaseExclusive?)
    ensures LocalStep(s, a.t, ExclusiveEffect(s, a))
  {
  }

  lemma BarrierSteps(s: State, a: Action)
    requires a.t in s.threads && Sound(s, a.t) && (a.BarrierStart? || a.BarrierPoll?)
    ensures LocalStep(s, a.t, BarrierEffect(s, a))
  {
  }

  lemma LookSteps(s: State, a: Action)
    requires a.t in s.threads && Sound(s, a.t) && (a.CallRunDefers? || a.LockCheck? || a.Look?)
    ensures LocalStep(s, a.t, LookEffect(s, a))
  {
  }

  lemma CheckSteps(s: State, a: Action)
    requires a.t in s.threads && Sound(s, a.t) && (a.CheckEnter? || a.CheckPop? || a.CheckBreak? || a.CheckDone?)
    ensures LocalStep(s, a.t, CheckEffect(s, a))
  {
  }

  lemma RunSteps(s: State, a: Action)
    requires a.t in s.threads && Sound(s, a.t) && (a.RunOne? || a.RunEnd? || a.RunInline?)
    ensures LocalStep(s, a.t, RunEffect(s, a))
  {
  }

  lemma DeferSteps(s: State, a: Action)
    requires a.t in s.threads && Sound(s, a.t) && (a.Defer? || a.LockDefer? || a.Recheck? || a.Insert?)
    ensures LocalStep(s, a.t, DeferEffect(s, a))
  {
  }

  lemma StepLocal(s: State, a: Action)
    requires a.t in s.threads && Sound(s, a.t)
    ensures LocalStep(s, a.t, EffectOf(s, a))
  {
    if a.LoadEnter? || a.CasEnter? {
      EnterSteps(s, a);
    } else if a.LoadExit? || a.CasExit? {
      ExitSteps(s, a);
    } else if a.LoadExclusive? || a.CasExclusive? || a.DrainStart? || a.DrainPoll? || a.ReleaseExclusive? {
      ExclusiveSteps(s, a);
    } else if a.BarrierStart? || a.BarrierPoll? {
      BarrierSteps(s, a);
    } else if a.CallRunDefers? || a.LockCheck? || a.Look? {
      LookSteps(s, a);
    } else if a.CheckEnter? || a.CheckPop? || a.CheckBreak? || a.CheckDone? {
      CheckSteps(s, a);
    } else if a.RunOne? || a.RunEnd? || a.RunInline? {
      RunSteps(s, a);
    } else {
      DeferSteps(s, a);
    }
  }

  // --------------------------------------------------- every step keeps them

  ghost function CountOf(th: Thread, e: int): nat {
    if th.hold.Shared? && th.hold.epoch == e then 1 else 0
  }

  /** How one thread's change of hold changes the number of readers of an epoch. */
  lemma ReadersAfter(s: State, s': State, t: Tid, e: int)
    requires t in s.threads && t in s'.threads && s'.threads == s.threads[t := s'.threads[t]]
    ensures |Readers(s', e)| - CountOf(s'.threads[t], e) == |Readers(s, e)| - CountOf(s.threads[t], e)
  {
    var rest := Readers(s, e) - {t};
    assert Readers(s, e) == if CountOf(s.threads[t], e) == 1 then rest + {t} else rest;
    assert Readers(s', e) == if CountOf(s'.threads[t], e) == 1 then rest + {t} else rest;
  }

  /** A reader is counted, so the decrement in exitCS never underflows. */
  lemma ReaderIsCounted(s: State, t: Tid)
    requires PlacedInv(s) && CountInv(s) && Reading(s, t)
    ensures In(s.word, s.threads[t].hold.inEpoch) > 0
  {
    assert t in Readers(s, s.threads[t].hold.epoch);
  }

  lemma NoReaders(s: State)
    requires PlacedInv(s) && CountInv(s) && !AnyInCurrent(s.word) && !AnyInOld(s.word)
    ensures Empty(s)
  {
    forall t | t in s.threads ensures !Reading(s, t) {
      if Reading(s, t) { ReaderIsCounted(s, t); }
    }
  }

  /** A state in which thread `t` has taken effect `f`. */
  ghost predicate Took(s: State, t: Tid, f: Effect, s': State) {
    && t in s.threads && s'.threads == s.threads[t := f.thread] && s'.word == f.word
    && s'.nextSid == if s.threads[t].hold.Outside? && !f.thread.hold.Outside? then s.nextSid + 1 else s.nextSid
  }

  lemma KeepCounts(s: State, t: Tid, f: Effect, s': State)
    requires CountInv(s) && Took(s, t, f, s') && HoldStep(s, t, f)
    requires s.threads[t].hold.Shared? ==> Placed(s.threads[t].hold, s.word.epoch, s.nextSid)
    requires Readers(s, s.word.epoch + 1) == {}
    ensures CountInv(s')
  {
    var e := s.word.epoch;
    ReadersAfter(s, s', t, e - 1);
    ReadersAfter(s, s', t, e);
    ReadersAfter(s, s', t, e + 1);
    var h, h' := s.threads[t].hold, f.thread.hold;
    if h.Outside? && h'.Shared? {
      EnterIn(s.word);
    } else if h.Shared? && h'.Outside? {
      ExitIn(s.word, h.epoch, h.inEpoch);
    }
  }

  lemma KeepPlaced(s: State, t: Tid, f: Effect, s': State)
    requires PlacedInv(s) && Took(s, t, f, s') && HoldStep(s, t, f)
    requires !AnyInOld(s.word) ==> Readers(s, s.word.epoch - 1) == {}
    ensures PlacedInv(s')
  {
    forall u | Reading(s', u) && u != t
      ensures Placed(s'.threads[u].hold, s'.word.epoch, s'.nextSid)
    {
      assert Reading(s, u) && s'.threads[u] == s.threads[u];
      assert s.threads[u].hold.epoch == s.word.epoch - 1 ==> u in Readers(s, s.word.epoch - 1);
    }
  }

  lemma KeepDistinct(s: State, t: Tid, f: Effect, s': State)
    requires PlacedInv(s) && DistinctInv(s) && Took(s, t, f, s') && HoldStep(s, t, f)
    ensures DistinctInv(s')
  {
    forall u, v | Inside(s', u) && Inside(s', v) && u != v ensures Distinct(s', u, v) {
      assert u != t ==> Inside(s, u) && s.threads[u].hold.sid < s.nextSid;
      assert v != t ==> Inside(s, v) && s.threads[v].hold.sid < s.nextSid;
      assert Inside(s, u) && Inside(s, v) ==> Distinct(s, u, v);
    }
  }

  lemma KeepEpoch(s: State, t: Tid, f: Effect, s': State)
    requires EpochInv(s) && Took(s, t, f, s') && HoldStep(s, t, f)
    ensures EpochInv(s')
  {
    assert s.threads[t].hold.Shared? ==> Reading(s, t);
    assert Readers(s, s.word.epoch + 1) == {} by {
      assert forall u :: Reading(s, u) ==> Placed(s.threads[u].hold, s.word.epoch, s.nextSid);
    }
    KeepPlaced(s, t, f, s');
    KeepDistinct(s, t, f, s');
    KeepCounts(s, t, f, s');
  }

  lemma KeepExclusive(s: State, t: Tid, f: Effect, s': State)
    requires ExclusiveInv(s) && Took(s, t, f, s') && OwnerStep(s, t, f) && PcInv(f.thread)
    requires f.thread.hold.Exclusive? && !s.threads[t].hold.Exclusive? ==> Empty(s)
    ensures ExclusiveInv(s')
  {
    forall u, v | u in s'.threads && v in s'.threads && u != v ensures OneOwner(s', u, v) { assert OneOwner(s, u, v); }
    forall u | u in s'.threads && Owner(s'.threads[u]) ensures s'.word.exclusive {
      if u != t { assert OneOwner(s, t, u); }
    }
    forall u | u in s'.threads && s'.threads[u].hold.Exclusive? ensures Empty(s') {
      assert Empty(s);
      forall v | v in s'.threads ensures !Reading(s', v) { assert !Reading(s, v); }
    }
  }

  lemma KeepOwned(s: State, t: Tid, f: Effect, s': State)
    requires OwnedInv(s) && Took(s, t, f, s') && OwnerStep(s, t, f)
    ensures OwnedInv(s')
  {
    if s'.word.exclusive {
      if s.word.exclusive {
        var u :| u in s.threads && Owner(s.threads[u]);
        assert Owner(s'.threads[u]);
      } else {
        assert Owner(s'.threads[t]);
      }
    }
  }

  lemma KeepLock(s: State, t: Tid, f: Effect, s': State)
    requires LockInv(s) && Took(s, t, f, s') && s'.lock == f.lock && LockStep(s, t, f)
    ensures LockInv(s')
  {
  }

  lemma KeepBarrier(s: State, t: Tid, f: Effect, s': State)
    requires PlacedInv(s) && BarrierInv(s) && Took(s, t, f, s') && HoldStep(s, t, f) && BarrierStep(s, t, f)
    ensures BarrierInv(s')
  {
    OpenIsNumbered(s);
    WordGrows(s, t, f);
    forall c | c in s'.threads && s'.threads[c].pc.Barrier?
      ensures Numbered(s'.threads[c].pc.waitFor, s'.nextSid) && s'.threads[c].pc.from <= s'.word.epoch
    {
      assert c != t ==> Numbered(s.threads[c].pc.waitFor, s.nextSid);
    }
    forall c, u | c in s'.threads && s'.threads[c].pc.Barrier? && Reading(s', u) ensures WaitsFor(s', c, u) {
      if s'.threads[u].hold.sid in s'.threads[c].pc.waitFor {
        StaysOpen(s, t, f, s', u);
        if s'.threads[c].pc == s.threads[c].pc { assert WaitsFor(s, c, u); }
      }
    }
  }

  lemma OpenIsNumbered(s: State)
    requires PlacedInv(s)
    ensures Numbered(Open(s), s.nextSid)
  {
    forall sid | sid in Open(s) ensures sid < s.nextSid {
      var u :| Inside(s, u) && s.threads[u].hold.sid == sid;
    }
  }

  /** A list whose items stay put is still a list. */
  lemma ListsFrame(q: seq<Item>, home: seq<Home>, h: Home, items: seq<Item>, to: Home)
    requires Lists(q, home, h) && forall i :: i in items ==> i < |home| && home[i] != h
    ensures Lists(q, Move(home, items, to), h)
  {
  }

  lemma ListsAppend(p: seq<Item>, q: seq<Item>, home: seq<Home>, h: Home, from: Home)
    requires Lists(p, home, h) && Lists(q, home, from) && h != from
    ensures Lists(p + q, Move(home, q, h), h)
  {
    ListsFrame(p, home, h, q, h);
  }

  lemma ListsTail(q: seq<Item>, home: seq<Home>, h: Home, to: Home)
    requires q != [] && Lists(q, home, h)
    ensures Lists(q[1..], Move(home, [q[0]], to), h)
  {
    assert forall j :: 0 <= j < |q| - 1 ==> q[1..][j] == q[j + 1];
  }

  lemma KeepHomeSame(s: State, t: Tid, f: Effect)
    requires ListedInv(s) && t in s.threads && WorkStep(s, t, f) && f.work.Same?
    ensures ListedInv(Commit(s, t, f))
  {
    var s' := Commit(s, t, f);
  }

  lemma KeepHomeNew(s: State, t: Tid, f: Effect)
    requires ListedInv(s) && |s.home| == |s.guards| && t in s.threads && WorkStep(s, t, f) && f.work.New?
    ensures ListedInv(Commit(s, t, f))
  {
    var s' := Commit(s, t, f);
    assert s'.home == s.home + [Hand(t)];
    forall u | u in s'.threads ensures Lists(BatchOf(s'.threads[u].pc), s'.home, Batch(u)) {
      ListsLonger(BatchOf(s.threads[u].pc), s.home, Batch(u), Hand(t));
    }
    forall k | k in s'.entries ensures Lists(s'.entries[k], s'.home, Queued(k)) {
      ListsLonger(s.entries[k], s.home, Queued(k), Hand(t));
    }
    ListsLonger(s.ran, s.home, Done, Hand(t));
  }

  lemma ListsLonger(q: seq<Item>, home: seq<Home>, h: Home, new': Home)
    requires Lists(q, home, h)
    ensures Lists(q, home + [new'], h)
  {
  }

  /** The thread and the lists that a move of `items` from `from` to `to` does
      not touch. */
  lemma OthersStay(s: State, t: Tid, items: seq<Item>, from: Home, to: Home)
    requires ListedInv(s) && t in s.threads && Lists(items, s.home, from)
    requires from == Hand(t) || from == Batch(t) || from.Queued?
    ensures var home' := Move(s.home, items, to);
      && (forall u :: u in s.threads && u != t ==> Hands(s.threads[u].pc, home', u))
      && (forall u :: u in s.threads && from != Batch(u) ==> Lists(BatchOf(s.threads[u].pc), home', Batch(u)))
      && (forall k :: k in s.entries && from != Queued(k) ==> Lists(s.entries[k], home', Queued(k)))
      && (from != Done ==> Lists(s.ran, home', Done))
  {
    forall u | u in s.threads && from != Batch(u) ensures Lists(BatchOf(s.threads[u].pc), Move(s.home, items, to), Batch(u)) {
      ListsFrame(BatchOf(s.threads[u].pc), s.home, Batch(u), items, to);
    }
    forall k | k in s.entries && from != Queued(k) ensures Lists(s.entries[k], Move(s.home, items, to), Queued(k)) {
      ListsFrame(s.entries[k], s.home, Queued(k), items, to);
    }
  }

  lemma KeepHomePop(s: State, t: Tid, f: Effect)
    requires ListedInv(s) && t in s.threads && WorkStep(s, t, f) && f.work.Pop?
    ensures ListedInv(Commit(s, t, f))
  {
    var s' := Commit(s, t, f);
    var k := f.work.key;
    OthersStay(s, t, s.entries[k], Queued(k), Batch(t));
    ListsAppend(BatchOf(s.threads[t].pc), s.entries[k], s.home, Batch(t), Queued(k));
  }

  lemma KeepHomePut(s: State, t: Tid, f: Effect)
    requires ListedInv(s) && t in s.threads && WorkStep(s, t, f) && f.work.Put?
    ensures ListedInv(Commit(s, t, f))
  {
    var s' := Commit(s, t, f);
    var i, k := f.work.item, f.work.key;
    assert Hands(s.threads[t].pc, s.home, t);
    OthersStay(s, t, [i], Hand(t), Queued(k));
    ListsAppend(ListAt(s.entries, k), [i], s.home, Queued(k), Hand(t));
  }

  lemma KeepHomeInline(s: State, t: Tid, f: Effect)
    requires ListedInv(s) && t in s.threads && WorkStep(s, t, f) && f.work.Ran? && s.threads[t].pc.Inline?
    ensures ListedInv(Commit(s, t, f))
  {
    var s' := Commit(s, t, f);
    var i := f.work.item;
    assert Hands(s.threads[t].pc, s.home, t);
    OthersStay(s, t, [i], Hand(t), Done);
    ListsAppend(s.ran, [i], s.home, Done, Hand(t));
  }

  lemma KeepHomeBatch(s: State, t: Tid, f: Effect)
    requires ListedInv(s) && t in s.threads && WorkStep(s, t, f) && f.work.Ran? && s.threads[t].pc.Running?
    ensures ListedInv(Commit(s, t, f))
  {
    var s' := Commit(s, t, f);
    var batch := s.threads[t].pc.batch;
    assert batch[0] == f.work.item && batch[1..] == f.thread.pc.batch;
    assert Lists(BatchOf(s.threads[t].pc), s.home, Batch(t));
    OthersStay(s, t, [batch[0]], Batch(t), Done);
    ListsAppend(s.ran, [batch[0]], s.home, Done, Batch(t));
    ListsTail(batch, s.home, Batch(t), Done);
  }

  lemma KeepFound(s: State, t: Tid, f: Effect)
    requires HomeInv(s) && t in s.threads && WorkStep(s, t, f)
    ensures var s' := Commit(s, t, f); forall i :: 0 <= i < |s'.home| ==> AtHome(s', i)
  {
    var s' := Commit(s, t, f);
    forall i | 0 <= i < |s'.home| ensures AtHome(s', i) {
      if i < |s.home| { KeepAtHome(s, t, f, i); }
    }
  }

  lemma KeepAtHome(s: State, t: Tid, f: Effect, i: Item)
    requires t in s.threads && WorkStep(s, t, f) && i < |s.home| && AtHome(s, i)
    requires f.work.Put? ==> Hands(s.threads[t].pc, s.home, t)
    ensures i < |Commit(s, t, f).home| && AtHome(Commit(s, t, f), i)
  {
    match f.work
    case Same =>
    case New =>
    case Pop(_) => KeepAtHomePop(s, t, f, i);
    case Put(_, _) => KeepAtHomePut(s, t, f, i);
    case Ran(_) => KeepAtHomeRan(s, t, f, i);
  }

  lemma KeepAtHomePop(s: State, t: Tid, f: Effect, i: Item)
    requires t in s.threads && WorkStep(s, t, f) && i < |s.home| && AtHome(s, i) && f.work.Pop?
    ensures i < |Commit(s, t, f).home| && AtHome(Commit(s, t, f), i)
  {
  }

  lemma KeepAtHomePut(s: State, t: Tid, f: Effect, i: Item)
    requires t in s.threads && WorkStep(s, t, f) && i < |s.home| && AtHome(s, i) && f.work.Put? && Hands(s.threads[t].pc, s.home, t)
    ensures i < |Commit(s, t, f).home| && AtHome(Commit(s, t, f), i)
  {
  }

  lemma KeepAtHomeRan(s: State, t: Tid, f: Effect, i: Item)
    requires t in s.threads && WorkStep(s, t, f) && i < |s.home| && AtHome(s, i) && f.work.Ran?
    ensures i < |Commit(s, t, f).home| && AtHome(Commit(s, t, f), i)
  {
  }

  lemma KeepHome(s: State, t: Tid, f: Effect)
    requires HomeInv(s) && t in s.threads && WorkStep(s, t, f)
    ensures HomeInv(Commit(s, t, f))
  {
    KeepFound(s, t, f);
    match f.work
    case Same => KeepHomeSame(s, t, f);
    case New => KeepHomeNew(s, t, f);
    case Pop(_) => KeepHomePop(s, t, f);
    case Put(_, _) => KeepHomePut(s, t, f);
    case Ran(_) => if s.threads[t].pc.Inline? { KeepHomeInline(s, t, f); } else { KeepHomeBatch(s, t, f); }
  }

  /** The word counts somebody in epoch `e`. */
  predicate Live(w: Word, e: int) {
    (e == w.epoch && AnyInCurrent(w)) || (e == w.epoch - 1 && AnyInOld(w))
  }

  lemma ReadersLive(s: State)
    requires PlacedInv(s) && CountInv(s)
    ensures forall t :: Reading(s, t) ==> Live(s.word, s.threads[t].hold.epoch)
  {
    forall t | Reading(s, t) ensures Live(s.word, s.threads[t].hold.epoch) { ReaderIsCounted(s, t); }
  }

  /** An item keeps its key until every epoch up to that key is empty. */
  lemma WaitKeyAfter(s: State, t: Tid, f: Effect, i: Item)
    requires HomeInv(s) && t in s.threads && WorkStep(s, t, f) && i < |s.home| && WaitKey(s, i).Some?
    requires f.work.Pop? ==> s.home[i] != Queued(f.work.key)
    ensures var key, s' := WaitKey(s, i).value, Commit(s, t, f);
      i < |s'.home| && (WaitKey(s', i) == Some(key) || forall e :: Live(s.word, e) ==> e > key)
  {
    assert AtHome(s, i);
    if s.home[i].Hand? { HandKeyAfter(s, t, f, i); } else { QueuedKeyAfter(s, t, f, i); }
  }

  lemma HandKeyAfter(s: State, t: Tid, f: Effect, i: Item)
    requires ListedInv(s) && t in s.threads && WorkStep(s, t, f) && i < |s.home| && WaitKey(s, i).Some?
    requires s.home[i].Hand? && AtHome(s, i)
    ensures var key, s' := WaitKey(s, i).value, Commit(s, t, f);
      i < |s'.home| && (WaitKey(s', i) == Some(key) || forall e :: Live(s.word, e) ==> e > key)
  {
    var s' := Commit(s, t, f);
    if s.home[i] == Hand(t) {
      match f.work
      case Same =>
      case Put(_, j) => assert s'.home[j] == Queued(f.work.key);
      case _ =>
    } else {
      match f.work
      case Put(_, j) => assert Hands(s.threads[t].pc, s.home, t);
      case Ran(j) =>
        assert Hands(s.threads[t].pc, s.home, t) && Lists(BatchOf(s.threads[t].pc), s.home, Batch(t));
        assert s.threads[t].pc.Running? ==> s.threads[t].pc.batch[0] == j;
      case Pop(k) => assert Lists(s.entries[k], s.home, Queued(k));
      case _ =>
    }
  }

  lemma QueuedKeyAfter(s: State, t: Tid, f: Effect, i: Item)
    requires ListedInv(s) && t in s.threads && WorkStep(s, t, f) && i < |s.home| && s.home[i].Queued?
    requires f.work.Pop? ==> s.home[i] != Queued(f.work.key)
    ensures var key, s' := s.home[i].key, Commit(s, t, f);
      i < |s'.home| && (WaitKey(s', i) == Some(key) || forall e :: Live(s.word, e) ==> e > key)
  {
    match f.work
    case Put(_, j) => assert Hands(s.threads[t].pc, s.home, t);
    case Ran(j) =>
      assert Hands(s.threads[t].pc, s.home, t) && Lists(BatchOf(s.threads[t].pc), s.home, Batch(t));
      assert s.threads[t].pc.Running? ==> s.threads[t].pc.batch[0] == j;
    case Pop(k) => assert Lists(s.entries[k], s.home, Queued(k));
    case _ =>
  }

  lemma KeepGrace(s: State, t: Tid, f: Effect)
    requires HomeInv(s) && GraceInv(s) && PlacedInv(s) && t in s.threads && HoldStep(s, t, f) && WorkStep(s, t, f)
    requires ReadsInv(s) && CountedInv(s) && UntornInv(s)
    requires forall t :: Reading(s, t) ==> Live(s.word, s.threads[t].hold.epoch)
    ensures GraceInv(Commit(s, t, f))
  {
    var s' := Commit(s, t, f);
    KeepGuards(s, t, f);
    if s'.tore { return; }
    forall i, u | 0 <= i < |s'.home| && Reading(s', u) ensures Outlasts(s', i, u) {
      if s'.threads[u].hold.sid in s'.guards[i] {
        StaysOpen(s, t, f, s', u);
        if i < |s.guards| {
          assert Outlasts(s, i, u);
          if f.work.Pop? && s.home[i] == Queued(f.work.key) { PopOutlasts(s, t, f, i, u); }
        }
        KeepOutlasts(s, t, f, s', i, u);
      }
    }
  }

  lemma KeepOutlasts(s: State, t: Tid, f: Effect, s': State, i: Item, u: Tid)
    requires HomeInv(s) && t in s.threads && WorkStep(s, t, f) && s' == Commit(s, t, f)
    requires i < |s'.home| == |s'.guards| && Reading(s, u) && Reading(s', u) && s'.threads[u].hold == s.threads[u].hold
    requires Live(s.word, s.threads[u].hold.epoch) && s.threads[u].hold.sid in s'.guards[i]
    requires i < |s.guards| ==> Outlasts(s, i, u) && (f.work.Pop? ==> s.home[i] != Queued(f.work.key))
    ensures Outlasts(s', i, u)
  {
    GraceOne(s, t, f, i, s.threads[u].hold.epoch);
  }

  /** Guards hold only numbers that have been given out. */
  lemma KeepGuards(s: State, t: Tid, f: Effect)
    requires GraceInv(s) && PlacedInv(s) && t in s.threads
    ensures var s' := Commit(s, t, f);
      |s'.home| == |s'.guards| && s.nextSid <= s'.nextSid && forall i :: 0 <= i < |s'.guards| ==> Numbered(s'.guards[i], s.nextSid)
  {
    OpenIsNumbered(s);
  }

  /** The key popped is below the epoch of every reader that its items must
      outlast, unless the test was torn in the middle. */
  lemma PopOutlasts(s: State, t: Tid, f: Effect, i: Item, u: Tid)
    requires t in s.threads && WorkStep(s, t, f) && f.work.Pop? && ReadsInv(s) && CountedInv(s) && UntornInv(s)
    requires i < |s.home| && s.home[i] == Queued(f.work.key) && i < |s.guards| && Reading(s, u) && s.threads[u].hold.sid in s.guards[i]
    ensures !s.tore ==> f.work.key < s.threads[u].hold.epoch
  {
    assert CountedAt(s, t, i, u);
    TornOvershoots(s.threads[t].pc.loads, s.threads[u].hold.epoch);
  }

  /** An open section that was numbered before the step was open before it. */
  lemma StaysOpen(s: State, t: Tid, f: Effect, s': State, u: Tid)
    requires Took(s, t, f, s') && HoldStep(s, t, f) && Inside(s', u) && s'.threads[u].hold.sid < s.nextSid
    ensures Inside(s, u) && s'.threads[u].hold == s.threads[u].hold
  {
  }

  lemma GraceOne(s: State, t: Tid, f: Effect, i: Item, e: int)
    requires HomeInv(s) && t in s.threads && WorkStep(s, t, f) && Live(s.word, e) && i < |Commit(s, t, f).guards|
    requires i < |s.guards| ==> WaitKey(s, i).Some? && e <= WaitKey(s, i).value
    requires f.work.Pop? ==> i < |s.home| && s.home[i] != Queued(f.work.key)
    ensures var s' := Commit(s, t, f);
      i < |s'.home| && WaitKey(s', i).Some? && e <= WaitKey(s', i).value
  {
    if i < |s.guards| { WaitKeyAfter(s, t, f, i); } else { NewKey(s, t, f, e); }
  }

  /** New work waits for the oldest epoch that somebody is in, or runs at once. */
  lemma NewKey(s: State, t: Tid, f: Effect, e: int)
    requires |s.home| == |s.guards| && t in s.threads && WorkStep(s, t, f) && Live(s.word, e) && |s.guards| < |Commit(s, t, f).guards|
    ensures var s' := Commit(s, t, f);
      |s.guards| < |s'.home| && WaitKey(s', |s.guards|).Some? && e <= WaitKey(s', |s.guards|).value
  {
  }

  // ------------------------------------------------------------- the loads

  /** Neither the epoch nor what is visible goes back. */
  lemma WordGrows(s: State, t: Tid, f: Effect)
    requires t in s.threads && HoldStep(s, t, f)
    ensures s.word.epoch <= f.word.epoch && VisibleEpoch(s.word) <= VisibleEpoch(f.word)
  {
    EnterKeepsVisible(s.word);
    var h := s.threads[t].hold;
    if h.Shared? && In(s.word, h.inEpoch) > 0 { ExitRaisesVisible(s.word, h.inEpoch); }
  }

  lemma KeepReads(s: State, t: Tid, f: Effect, s': State)
    requires ReadsInv(s) && Took(s, t, f, s') && HoldStep(s, t, f) && LoadStep(s, t, f)
    ensures ReadsInv(s')
  {
    WordGrows(s, t, f);
    forall u | u in s'.threads && s'.threads[u].pc.Checking? ensures ReadsOk(s', s'.threads[u].pc.loads) {
      if u != t || f.thread.pc == s.threads[t].pc {
        assert ReadsOk(s, s.threads[u].pc.loads);
      } else if f.thread.pc.loads != [] {
        assert ReadsOk(s, s.threads[t].pc.loads);
        ReadsLonger(s, s.threads[t].pc.loads);
      }
    }
  }

  lemma ReadsLonger(s: State, loads: seq<Word>)
    requires ReadsOk(s, loads) && |loads| < 7
    ensures ReadsOk(s, loads + [s.word])
  {
  }

  lemma KeepUntorn(s: State, t: Tid, f: Effect, s': State)
    requires UntornInv(s) && Took(s, t, f, s') && LoadStep(s, t, f) && s'.tore == (s.tore || f.tears)
    ensures UntornInv(s')
  {
    if !s'.tore {
      forall u | u in s'.threads && s'.threads[u].pc.Checking? && s'.threads[u].pc.inner
        ensures Untorn(s'.threads[u].pc.loads, s'.word)
      {
        if u != t || f.thread.pc == s.threads[t].pc {
          assert Untorn(s.threads[u].pc.loads, s.word);
          assert s'.word.epoch != s.word.epoch ==> !InMiddle(s.threads[u].pc);
        } else if f.thread.pc.loads != [] {
          assert Untorn(s.threads[t].pc.loads, s.word);
        }
      }
    }
  }

  /** A reader is counted by the word as it is now. */
  lemma ReaderCounts(s: State, u: Tid)
    requires PlacedInv(s) && CountInv(s) && Reading(s, u)
    ensures Counts(s.word, s.threads[u].hold.epoch)
  {
    ReaderIsCounted(s, u);
  }

  lemma KeepCounted(s: State, t: Tid, f: Effect, s': State)
    requires CountedInv(s) && EpochInv(s) && LockInv(s) && GraceInv(s)
    requires Took(s, t, f, s') && s' == Commit(s, t, f) && HoldStep(s, t, f) && WorkStep(s, t, f) && LoadStep(s, t, f)
    ensures CountedInv(s')
  {
    KeepGuards(s, t, f);
    forall c, i, u | c in s'.threads && s'.threads[c].pc.Checking? && 0 <= i < |s'.home| && Reading(s', u)
      ensures CountedAt(s', c, i, u)
    {
      if s'.threads[c].pc.loads != [] && s'.home[i].Queued? && s'.threads[u].hold.sid in s'.guards[i] {
        StillQueued(s, t, f, s', c, i);
        StaysOpen(s, t, f, s', u);
        assert CountedAt(s, c, i, u);
        ReaderCounts(s, u);
      }
    }
  }

  /** While a thread looks, nobody queues an item. */
  lemma StillQueued(s: State, t: Tid, f: Effect, s': State, c: Tid, i: Item)
    requires LockInv(s) && |s.home| == |s.guards| && t in s.threads && WorkStep(s, t, f) && LoadStep(s, t, f) && s' == Commit(s, t, f)
    requires c in s'.threads && s'.threads[c].pc.Checking? && s'.threads[c].pc.loads != [] && i < |s'.home| && s'.home[i].Queued?
    ensures c in s.threads && s.threads[c].pc.Checking? && i < |s.home| && s.home[i].Queued? && s'.guards[i] == s.guards[i]
  {
  }

  // -------------------------------------------------------------- coverage

  lemma FrontExists(entries: map<int, seq<Item>>)
    requires entries != map[]
    ensures exists key :: Front(key, entries)
  {
    HasKey(entries);
    var k :| k in entries;
    var key := LeastImage(entries.Keys, k);
    assert Front(key, entries);
  }

  lemma HasKey(entries: map<int, seq<Item>>)
    ensures entries == map[] || exists k :: k in entries
  {
    if forall k :: k !in entries { assert entries == map[]; }
  }

  /** A walk that finds nothing visible leaves nothing that was visible at its
      first load, if the map is in epoch order; and in any order it leaves the
      map's first key above what was visible. */
  lemma WalkEnds(s: State, pc: Pc)
    requires pc.Checking? && ReadsOk(s, pc.loads) && NothingVisible(s.entries, pc.loads) && s.entries != map[]
    ensures exists key :: Front(key, s.entries) && VisibleEpoch(pc.loads[0]) < key
    ensures EpochOrder(s.entries) ==> forall k :: k in s.entries ==> VisibleEpoch(pc.loads[0]) < k
  {
    TornIsNotStale(pc.loads, VisibleEpoch(pc.loads[0]));
    FrontExists(s.entries);
    var key :| Front(key, s.entries);
    assert VisibleEpoch(pc.loads[0]) < key;
    if EpochOrder(s.entries) {
      forall k | k in s.entries ensures key <= k { assert k < key ==> SignedImage(k) < SignedImage(key); }
    }
  }

  /** A thread that covers goes on, or nothing visible is left, or another owes. */
  lemma CoverGoesOn(s: State, t: Tid, f: Effect, s': State)
    requires CoverInv(s) && LockInv(s) && ReadsInv(s) && Took(s, t, f, s') && CoverStep(s, t, f) && !s.skipped
    requires VisibleEpoch(f.word) == VisibleEpoch(s.word) && SomeoneCovers(s) && s.entries != map[]
    ensures SomeoneCovers(s') || (exists key :: Front(key, s.entries) && VisibleEpoch(s.word) < key)
    ensures SomeoneCovers(s') || f.strays || (forall k :: k in s.entries ==> VisibleEpoch(s.word) < k)
  {
    var u :| u in s.threads && Covers(s.threads[u].pc);
    if Covers(s'.threads[u].pc) {
    } else if Behind(s.threads[t].pc, s.word) {
      var v :| v in s.threads && s.threads[v].pc.Owing?;
      assert Covers(s'.threads[v].pc);
    } else {
      assert ReadsOk(s, s.threads[t].pc.loads);
      WalkEnds(s, s.threads[t].pc);
    }
  }

  /** A thread that owes still does while the spinlock is held by another. */
  lemma OwesGoesOn(s: State, t: Tid, f: Effect, s': State)
    requires Took(s, t, f, s') && CoverStep(s, t, f) && SomeoneOwes(s) && s.lock.Some?
    ensures SomeoneOwes(s')
  {
    var u :| u in s.threads && s.threads[u].pc.Owing?;
    assert s'.threads[u].pc.Owing?;
  }

  lemma KeepCover(s: State, t: Tid, f: Effect)
    requires CoverInv(s) && LockInv(s) && ReadsInv(s) && KeyInv(s) && EpochInv(s)
    requires t in s.threads && HoldStep(s, t, f) && WorkStep(s, t, f) && CoverStep(s, t, f) && LoadStep(s, t, f)
    ensures CoverInv(Commit(s, t, f))
  {
    var s' := Commit(s, t, f);
    if s'.skipped {
    } else if VisibleEpoch(f.word) != VisibleEpoch(s.word) {
      assert s'.threads[t].pc.Owing?;
      assert SomeoneOwes(s') && Covers(s'.threads[t].pc);
    } else {
      KeepOwed(s, t, f, s');
      KeepVisibleCovered(s, t, f, s');
      KeepQuietCovered(s, t, f, s');
    }
  }

  lemma KeepOwed(s: State, t: Tid, f: Effect, s': State)
    requires CoverInv(s) && LockInv(s) && Took(s, t, f, s') && CoverStep(s, t, f) && LoadStep(s, t, f) && !s.skipped
    requires VisibleEpoch(f.word) == VisibleEpoch(s.word)
    ensures forall u :: u in s'.threads && s'.threads[u].pc.Inserting? && s'.threads[u].pc.key <= VisibleEpoch(s'.word) ==> SomeoneOwes(s')
    ensures forall u :: u in s'.threads && Behind(s'.threads[u].pc, s'.word) ==> SomeoneOwes(s')
  {
    forall u | u in s'.threads && s'.threads[u].pc.Inserting? && s'.threads[u].pc.key <= VisibleEpoch(s'.word) ensures SomeoneOwes(s') {
      assert s.threads[u].pc == s'.threads[u].pc;
      OwesGoesOn(s, t, f, s');
    }
    forall u | u in s'.threads && Behind(s'.threads[u].pc, s'.word) ensures SomeoneOwes(s') {
      assert Behind(s.threads[u].pc, s.word);
      OwesGoesOn(s, t, f, s');
    }
  }

  /** A key that joins while it is visible is owed a walk already. */
  lemma PutIsCovered(s: State, t: Tid, f: Effect, s': State)
    requires CoverInv(s) && LockInv(s) && Took(s, t, f, s') && CoverStep(s, t, f) && WorkStep(s, t, f) && !s.skipped
    requires f.work.Put? && f.work.key <= VisibleEpoch(s.word)
    ensures SomeoneCovers(s')
  {
    assert s.threads[t].pc == Inserting(f.work.item, f.work.key);
    OwesGoesOn(s, t, f, s');
    var u :| u in s'.threads && s'.threads[u].pc.Owing?;
    assert Covers(s'.threads[u].pc);
  }

  lemma KeepVisibleCovered(s: State, t: Tid, f: Effect, s': State)
    requires CoverInv(s) && LockInv(s) && ReadsInv(s) && Took(s, t, f, s') && s' == Commit(s, t, f) && !s.skipped
    requires WorkStep(s, t, f) && CoverStep(s, t, f) && VisibleEpoch(f.word) == VisibleEpoch(s.word)
    ensures !s'.strayed ==> forall k :: k in s'.entries && k <= VisibleEpoch(s'.word) ==> SomeoneCovers(s')
  {
    if !s'.strayed {
      forall k | k in s'.entries && k <= VisibleEpoch(s'.word) ensures SomeoneCovers(s') {
        if k in s.entries { CoverGoesOn(s, t, f, s'); } else { PutIsCovered(s, t, f, s'); }
      }
    }
  }

  lemma KeepQuietCovered(s: State, t: Tid, f: Effect, s': State)
    requires CoverInv(s) && LockInv(s) && ReadsInv(s) && KeyInv(s) && EpochInv(s) && Took(s, t, f, s') && s' == Commit(s, t, f) && !s.skipped
    requires HoldStep(s, t, f) && WorkStep(s, t, f) && CoverStep(s, t, f) && VisibleEpoch(f.word) == VisibleEpoch(s.word)
    ensures !AnyInCurrent(s'.word) && !AnyInOld(s'.word) && s'.entries != map[] ==> SomeoneCovers(s')
  {
    if !AnyInCurrent(s'.word) && !AnyInOld(s'.word) && s'.entries != map[] {
      WasQuiet(s, t, f);
      if s.entries != map[] {
        CoverGoesOn(s, t, f, s');
        assert forall k :: k in s.entries ==> k <= VisibleEpoch(s.word);
      } else {
        PutIsCovered(s, t, f, s');
      }
    }
  }

  /** The last one out raises visibility, and nobody comes in unseen. */
  lemma WasQuiet(s: State, t: Tid, f: Effect)
    requires EpochInv(s) && t in s.threads && HoldStep(s, t, f) && VisibleEpoch(f.word) == VisibleEpoch(s.word)
    requires !AnyInCurrent(f.word) && !AnyInOld(f.word)
    ensures !AnyInCurrent(s.word) && !AnyInOld(s.word)
  {
    EnterIn(s.word);
    var h := s.threads[t].hold;
    if h.Shared? {
      assert Reading(s, t);
      if In(s.word, h.inEpoch) > 0 { ExitIn(s.word, h.epoch, h.inEpoch); }
    }
  }

  lemma KeepKeys(s: State, t: Tid, f: Effect)
    requires KeyInv(s) && t in s.threads && HoldStep(s, t, f) && WorkStep(s, t, f)
    ensures KeyInv(Commit(s, t, f))
  {
    var s' := Commit(s, t, f);
    WordGrows(s, t, f);
    forall k | k in s'.entries ensures k <= s'.word.epoch { assert k in s.entries || f.work.Put?; }
    forall u | u in s'.threads && Waiting(s'.threads[u].pc) ensures s'.threads[u].pc.key <= s'.word.epoch {
      assert u == t || s'.threads[u] == s.threads[u];
    }
  }

  lemma InvStep(s: State, a: Action)
    requires Inv(s)
    ensures Inv(Apply(s, a))
  {
    if a.t in s.threads {
      var t, f := a.t, EffectOf(s, a);
      StepLocal(s, a);
      InvCommit(s, t, f);
    }
  }

  lemma InvCommit(s: State, t: Tid, f: Effect)
    requires Inv(s) && t in s.threads && PcInv(f.thread)
    requires HoldStep(s, t, f) && OwnerStep(s, t, f) && LockStep(s, t, f)
    requires BarrierStep(s, t, f) && WorkStep(s, t, f) && CoverStep(s, t, f) && LoadStep(s, t, f)
    ensures Inv(Commit(s, t, f))
  {
    ReadersCommit(s, t, f, Commit(s, t, f));
    LoadsCommit(s, t, f, Commit(s, t, f));
    WorkCommit(s, t, f);
  }

  lemma ReadersCommit(s: State, t: Tid, f: Effect, s': State)
    requires Inv(s) && PcInv(f.thread)
    requires Took(s, t, f, s') && s'.lock == f.lock && HoldStep(s, t, f) && OwnerStep(s, t, f) && LockStep(s, t, f)
    ensures EpochInv(s') && ExclusiveInv(s') && OwnedInv(s') && LockInv(s')
  {
    if !AnyInCurrent(s.word) && !AnyInOld(s.word) { NoReaders(s); }
    KeepEpoch(s, t, f, s');
    KeepExclusive(s, t, f, s');
    KeepOwned(s, t, f, s');
    KeepLock(s, t, f, s');
  }

  lemma LoadsCommit(s: State, t: Tid, f: Effect, s': State)
    requires Inv(s)
    requires Took(s, t, f, s') && s'.tore == (s.tore || f.tears) && HoldStep(s, t, f) && BarrierStep(s, t, f) && LoadStep(s, t, f)
    ensures BarrierInv(s') && ReadsInv(s') && UntornInv(s')
  {
    KeepBarrier(s, t, f, s');
    KeepReads(s, t, f, s');
    KeepUntorn(s, t, f, s');
  }

  /** Deferred work. */
  lemma WorkCommit(s: State, t: Tid, f: Effect)
    requires Inv(s) && t in s.threads && HoldStep(s, t, f) && WorkStep(s, t, f) && CoverStep(s, t, f) && LoadStep(s, t, f)
    ensures var s' := Commit(s, t, f); HomeInv(s') && GraceInv(s') && CountedInv(s') && KeyInv(s') && CoverInv(s')
  {
    ReadersLive(s);
    KeepHome(s, t, f);
    KeepGrace(s, t, f);
    KeepCounted(s, t, f, Commit(s, t, f));
    KeepKeys(s, t, f);
    KeepCover(s, t, f);
  }

  lemma InvInit(s: State)
    requires Init(s)
    ensures Inv(s)
  {
    assert forall e :: Readers(s, e) == {};
  }

  lemma {:induction false} InvRun(s: State, run: seq<Action>)
    requires Init(s)
    ensures Inv(Exec(s, run))
    decreases |run|
  {
    if run == [] {
      InvInit(s);
    } else {
      InvRun(s, run[..|run| - 1]);
      InvStep(Exec(s, run[..|run| - 1]), run[|run| - 1]);
    }
  }
}
