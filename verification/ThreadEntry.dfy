/** One thread's view of a GcLock (`ThreadGcInfoEntry`, arch/gc_lock_impl.h):
    counters that let shared, exclusive and speculative locks nest, and that
    enter or leave the real critical section only at the outermost one.

    The class is the code.  Each method promises, when the counters tell the
    truth about the lock, which locks the caller holds afterwards (`Held`), when
    it throws, and whether the counters still tell the truth; `After` names what
    the counters become in any case, for the lemmas about sequences of calls. */
module ThreadEntry {

  const SPECULATIVE_THRESHOLD := 5

  datatype Inside = Outside | InShared | InExclusive

  datatype Outcome = Ok | BadNesting | AlreadyInside | NotInside | SpeculativeHeld

  /** The counters, what the thread really holds, and -- history -- how many
      lockShared calls of its own the caller has yet to undo. */
  datatype Counts = Counts(read: int, write: int, spec: int, parked: int, inside: Inside, own: int)

  /** The locks the caller holds: its shared locks, how deep its exclusive lock
      is nested, its speculative locks, and those released but still parked. */
  datatype Held = Held(shared: int, exclusive: int, spec: int, parked: int)

  datatype Call =
    | LockShared | UnlockShared
    | LockExclusive | UnlockExclusive
    | LockSpeculative | UnlockSpeculative
    | ForceUnlock

  // ----------------------------------------------------- what each call does

  function Take(c: Counts): (Counts, Outcome) {
    if c.read == 0 && c.write == 0 then
      if c.inside.Outside? then (c.(read := c.read + 1, inside := InShared), Ok) else (c, AlreadyInside)
    else (c.(read := c.read + 1), Ok)
  }

  function Drop(c: Counts): (Counts, Outcome) {
    if c.read <= 0 then (c, BadNesting)
    else if c.read == 1 && c.write == 0 then
      if c.inside.Outside? then (c.(read := 0), NotInside) else (c.(read := 0, inside := Outside), Ok)
    else (c.(read := c.read - 1), Ok)
  }

  function After(c: Counts, call: Call): (Counts, Outcome) {
    match call
    case LockShared =>
      var (d, o) := Take(c);
      (if o.Ok? then d.(own := d.own + 1) else d, o)
    case UnlockShared =>
      var (d, o) := Drop(c);
      (if o.Ok? then d.(own := d.own - 1) else d, o)
    case LockExclusive =>
      if c.write == 0 then
        if c.inside.Outside? then (c.(write := 1, inside := InExclusive), Ok) else (c, AlreadyInside)
      else (c.(write := c.write + 1), Ok)
    case UnlockExclusive =>
      if c.write <= 0 then (c, BadNesting)
      else if c.write == 1 then (c.(write := 0, inside := Outside), Ok)
      else (c.(write := c.write - 1), Ok)
    case LockSpeculative =>
      if c.spec == 0 && c.parked == 0 then
        var (d, o) := Take(c);
        (if o.Ok? then d.(spec := 1) else d, o)
      else (c.(spec := c.spec + 1), Ok)
    case UnlockSpeculative =>
      if c.spec == 0 then (c, BadNesting)
      else if c.spec != 1 then (c.(spec := c.spec - 1), Ok)
      else if c.parked + 1 != SPECULATIVE_THRESHOLD then (c.(spec := 0, parked := c.parked + 1), Ok)
      else
        var (d, o) := Drop(c.(spec := 0, parked := c.parked + 1));
        (if o.Ok? then d.(parked := 0) else d, o)
    case ForceUnlock =>
      if c.spec != 0 then (c, SpeculativeHeld)
      else if c.parked == 0 then (c, Ok)
      else
        var (d, o) := Drop(c);
        (if o.Ok? then d.(parked := 0) else d, o)
  }

  // ----------------------------------------------------------------- the code

  class ThreadGcInfoEntry {
    var readLocked: int
    var writeLocked: int
    var specLocked: int
    var specUnlocked: int
    var inside: Inside       // inEpoch: Outside is -1
    ghost var own: int

    ghost function Value(): Counts
      reads this
    {
      Counts(readLocked, writeLocked, specLocked, specUnlocked, inside, own)
    }

    /** The locks held, which the contracts below are about. */
    ghost function Locks(): Held
      reads this
    {
      Held(own, writeLocked, specLocked, specUnlocked)
    }

    ghost predicate Honest()
      reads this
    {
      Truthful(Value())
    }

    constructor ()
      ensures Value() == Fresh()
    {
      readLocked, writeLocked, specLocked, specUnlocked, inside, own := 0, 0, 0, 0, Outside, 0;
    }

    /** enterCS and exitCS: what they check and what they leave behind. */
    method EnterCS() returns (o: Outcome)
      modifies this`inside
      ensures old(inside).Outside? ==> o.Ok? && inside.InShared?
      ensures !old(inside).Outside? ==> o.AlreadyInside? && inside == old(inside)
    {
      if !inside.Outside? { return AlreadyInside; }
      inside := InShared;
      return Ok;
    }

    method ExitCS() returns (o: Outcome)
      modifies this`inside
      ensures inside.Outside? && o == if old(inside).Outside? then NotInside else Ok
    {
      if inside.Outside? { return NotInside; }
      inside := Outside;
      return Ok;
    }

    method TakeShared() returns (o: Outcome)
      modifies this`readLocked, this`inside
      ensures (Value(), o) == Take(old(Value()))
    {
      if readLocked == 0 && writeLocked == 0 {
        o := EnterCS();
        if !o.Ok? { return; }
      }
      readLocked := readLocked + 1;
      return Ok;
    }

    method DropShared() returns (o: Outcome)
      modifies this`readLocked, this`inside
      ensures (Value(), o) == Drop(old(Value()))
    {
      if readLocked <= 0 { return BadNesting; }
      readLocked := readLocked - 1;
      o := Ok;
      if readLocked == 0 && writeLocked == 0 { o := ExitCS(); }
    }

    /** One more shared lock, and the thread is inside; it never throws on honest
        counters. */
    method LockShared() returns (o: Outcome)
      modifies this
      ensures old(Honest()) ==> o.Ok? && Honest() && !inside.Outside? && Locks() == old(Locks()).(shared := old(own) + 1)
      ensures (Value(), o) == After(old(Value()), Call.LockShared)
    {
      o := TakeShared();
      if o.Ok? { own := own + 1; }
    }

    /** One shared lock less; undoing one that is not the caller's own takes the one
        that speculation keeps, and nothing else makes the counters lie. */
    method UnlockShared() returns (o: Outcome)
      modifies this
      ensures old(Honest()) && old(own) > 0 ==> o.Ok? && Honest() && Locks() == old(Locks()).(shared := old(own) - 1)
      ensures old(Honest()) && old(own) == 0 && !Keeps(old(Value())) ==> o.BadNesting? && Value() == old(Value())
      ensures old(Honest()) && old(own) == 0 && Keeps(old(Value())) ==> !Honest()
      ensures (Value(), o) == After(old(Value()), Call.UnlockShared)
    {
      o := DropShared();
      if o.Ok? { own := own - 1; }
    }

    /** One exclusive lock more, from outside or inside another; anywhere else it
        throws. */
    method LockExclusive() returns (o: Outcome)
      modifies this
      ensures old(Honest()) ==> Honest() && (o.Ok? <==> old(writeLocked) > 0 || !Any(old(Locks())))
      ensures old(Honest()) ==> Locks() == if o.Ok? then old(Locks()).(exclusive := old(writeLocked) + 1) else old(Locks())
      ensures (Value(), o) == After(old(Value()), Call.LockExclusive)
    {
      if writeLocked == 0 {
        if !inside.Outside? { return AlreadyInside; }
        inside := InExclusive;
      }
      writeLocked := writeLocked + 1;
      return Ok;
    }

    /** One exclusive lock less; the counters lie afterwards exactly if it was the
        last and some shared lock, or one that speculation keeps, is left. */
    method UnlockExclusive() returns (o: Outcome)
      modifies this
      ensures old(Honest()) ==> (o.Ok? <==> old(writeLocked) > 0) && (!o.Ok? ==> Value() == old(Value()))
      ensures old(Honest()) && o.Ok? ==> Locks() == old(Locks()).(exclusive := old(writeLocked) - 1)
      ensures old(Honest()) && o.Ok? ==> (Honest() <==> writeLocked > 0 || !Any(Locks()))
      ensures old(Honest()) && o.Ok? && writeLocked == 0 ==> inside.Outside?
      ensures (Value(), o) == After(old(Value()), Call.UnlockExclusive)
    {
      if writeLocked <= 0 { return BadNesting; }
      writeLocked := writeLocked - 1;
      if writeLocked == 0 { inside := Outside; }
      return Ok;
    }

    /** One more speculative lock, and the thread is inside. */
    method LockSpeculative() returns (o: Outcome)
      modifies this
      ensures old(Honest()) ==> o.Ok? && Honest() && !inside.Outside?
      ensures old(Honest()) ==> Locks() == old(Locks()).(spec := old(specLocked) + 1)
      ensures (Value(), o) == After(old(Value()), Call.LockSpeculative)
    {
      if specLocked == 0 && specUnlocked == 0 {
        o := TakeShared();
        if !o.Ok? { return; }
      }
      specLocked := specLocked + 1;
      o := Ok;
    }

    /** One speculative lock less; the last one is parked, and every fifth parking
        gives them all up. */
    method UnlockSpeculative() returns (o: Outcome)
      modifies this
      ensures old(Honest()) ==> Honest() && (o.Ok? <==> old(specLocked) > 0)
      ensures old(Honest()) && o.Ok? ==> specLocked == old(specLocked) - 1 && own == old(own) && writeLocked == old(writeLocked)
      ensures old(Honest()) && o.Ok? ==>
                specUnlocked == if specLocked > 0 then old(specUnlocked) else (old(specUnlocked) + 1) % 5
      ensures (Value(), o) == After(old(Value()), Call.UnlockSpeculative)
    {
      if specLocked == 0 { return BadNesting; }
      specLocked := specLocked - 1;
      if specLocked == 0 {
        specUnlocked := specUnlocked + 1;
        if specUnlocked == SPECULATIVE_THRESHOLD {
          o := DropShared();
          if !o.Ok? { return; }
          specUnlocked := 0;
        }
      }
      return Ok;
    }

    /** Nothing stays parked; it throws while a speculative lock is in hand. */
    method ForceUnlock() returns (o: Outcome)
      modifies this
      ensures old(Honest()) ==> Honest() && (o.Ok? <==> old(specLocked) == 0)
      ensures old(Honest()) ==> Locks() == if o.Ok? then old(Locks()).(parked := 0) else old(Locks())
      ensures (Value(), o) == After(old(Value()), Call.ForceUnlock)
    {
      if specLocked != 0 { return SpeculativeHeld; }
      if specUnlocked != 0 {
        o := DropShared();
        if !o.Ok? { return; }
        specUnlocked := 0;
      }
      return Ok;
    }
  }

  // ------------------------------------------------- what the counters mean

  function Fresh(): Counts {
    Counts(0, 0, 0, 0, Outside, 0)
  }

  /** A speculative lock, held or parked, keeps one shared lock. */
  predicate Keeps(c: Counts) {
    c.spec > 0 || c.parked > 0
  }

  /** The counters tell the truth: the thread is inside exactly while something
      is locked, exclusively exactly while an exclusive lock is, and the shared
      count is the caller's own locks and the one that speculation keeps. */
  ghost predicate Truthful(c: Counts) {
    && 0 <= c.own && 0 <= c.write && 0 <= c.spec && 0 <= c.parked < SPECULATIVE_THRESHOLD
    && (if Keeps(c) then c.read == c.own + 1 else c.read == c.own)
    && c.inside == if c.write > 0 then InExclusive else if c.read > 0 then InShared else Outside
  }

  /** Some lock is held. */
  predicate Any(h: Held) {
    h.shared > 0 || h.exclusive > 0 || h.spec > 0 || h.parked > 0
  }

  /** The first of two uses that break the counters: the last exclusive lock is
      undone while a shared lock -- possibly one that speculation keeps -- is left. */
  predicate LeavesSharedBehind(c: Counts, call: Call) {
    call.UnlockExclusive? && c.write == 1 && c.read > 0
  }

  /** The other: the caller undoes a shared lock that is not its own. */
  predicate UndoesAnothers(c: Counts, call: Call) {
    call.UnlockShared? && c.own == 0 && c.read > 0
  }

  /** Exactly which calls keep the counters truthful. */
  lemma TruthfulAfter(c: Counts, call: Call)
    requires Truthful(c)
    ensures Truthful(After(c, call).0) <==> !LeavesSharedBehind(c, call) && !UndoesAnothers(c, call)
  {
    match call
    case LockShared => TruthfulLock(c);
    case UnlockShared => TruthfulUnlock(c);
    case LockExclusive => TruthfulExclusive(c, call);
    case UnlockExclusive => TruthfulExclusive(c, call);
    case LockSpeculative => TruthfulSpeculate(c);
    case UnlockSpeculative => TruthfulRelease(c);
    case ForceUnlock => TruthfulForce(c);
  }

  lemma TruthfulTake(c: Counts)
    requires Truthful(c)
    ensures var (d, o) := Take(c);
      o.Ok? && d == c.(read := c.read + 1, inside := if c.write > 0 then InExclusive else InShared)
  {
  }

  lemma TruthfulLock(c: Counts)
    requires Truthful(c)
    ensures Truthful(After(c, LockShared).0)
  {
    TruthfulTake(c);
  }

  lemma TruthfulUnlock(c: Counts)
    requires Truthful(c)
    ensures Truthful(After(c, UnlockShared).0) <==> !UndoesAnothers(c, UnlockShared)
  {
  }

  lemma TruthfulExclusive(c: Counts, call: Call)
    requires Truthful(c) && (call.LockExclusive? || call.UnlockExclusive?)
    ensures Truthful(After(c, call).0) <==> !LeavesSharedBehind(c, call)
  {
  }

  lemma TruthfulSpeculate(c: Counts)
    requires Truthful(c)
    ensures Truthful(After(c, LockSpeculative).0)
  {
    TruthfulTake(c);
  }

  lemma TruthfulRelease(c: Counts)
    requires Truthful(c)
    ensures Truthful(After(c, UnlockSpeculative).0)
  {
  }

  lemma TruthfulForce(c: Counts)
    requires Truthful(c)
    ensures Truthful(After(c, ForceUnlock).0)
  {
  }

  /** Which calls throw, and that a throw changes nothing. */
  lemma Throws(c: Counts, call: Call)
    requires Truthful(c) && !UndoesAnothers(c, call)
    ensures var (d, o) := After(c, call);
      && (!o.Ok? ==> d == c)
      && (o.Ok? <==> match call
           case UnlockShared => c.own > 0
           case LockExclusive => c.write > 0 || c.read == 0
           case UnlockExclusive => c.write > 0
           case UnlockSpeculative => c.spec > 0
           case ForceUnlock => c.spec == 0
           case _ => true)
  {
  }

  function AfterAll(c: Counts, calls: seq<Call>): Counts
    decreases |calls|
  {
    if calls == [] then c else After(AfterAll(c, calls[..|calls| - 1]), calls[|calls| - 1]).0
  }

  /** Over any sequence of calls, thrown or not: as long as neither misuse
      happens on the way, the thread is in a critical section exactly while it
      holds some lock, and a speculative lock in hand is always inside one. */
  lemma {:induction false} InsideIffHeld(calls: seq<Call>)
    requires forall i :: 0 <= i < |calls| ==>
      !LeavesSharedBehind(AfterAll(Fresh(), calls[..i]), calls[i]) && !UndoesAnothers(AfterAll(Fresh(), calls[..i]), calls[i])
    ensures var c := AfterAll(Fresh(), calls);
      && Truthful(c)
      && (!c.inside.Outside? <==> c.own > 0 || c.spec > 0 || c.parked > 0 || c.write > 0)
    decreases |calls|
  {
    if calls != [] {
      var n := |calls| - 1;
      forall i | 0 <= i < n ensures calls[..n][..i] == calls[..i] { }
      InsideIffHeld(calls[..n]);
      TruthfulAfter(AfterAll(Fresh(), calls[..n]), calls[n]);
    }
  }

  /** The first misuse needs no bad nesting: a speculative lock taken and
      released inside an exclusive lock stays parked, and the next speculative
      lock finds the thread outside. */
  lemma SpeculationOutlivesExclusion()
    ensures var c := AfterAll(Fresh(), [LockExclusive, LockSpeculative, UnlockSpeculative, UnlockExclusive, LockSpeculative]);
      c.spec == 1 && c.inside.Outside?
  {
    FirstTwo();
    LastThree();
    AfterFive([Fresh(), Counts(0, 1, 0, 0, InExclusive, 0), Counts(1, 1, 1, 0, InExclusive, 0), Counts(1, 1, 0, 1, InExclusive, 0),
               Counts(1, 0, 0, 1, Outside, 0), Counts(1, 0, 1, 1, Outside, 0)],
              LockExclusive, LockSpeculative, UnlockSpeculative, UnlockExclusive, LockSpeculative);
  }

  lemma AfterFive(at: seq<Counts>, a: Call, b: Call, d: Call, e: Call, f: Call)
    requires |at| == 6 && After(at[0], a).0 == at[1] && After(at[1], b).0 == at[2] && After(at[2], d).0 == at[3]
    requires After(at[3], e).0 == at[4] && After(at[4], f).0 == at[5]
    ensures AfterAll(at[0], [a, b, d, e, f]) == at[5]
  {
    AfterSnoc(at[0], [], a, at[0], at[1]);
    AfterSnoc(at[0], [] + [a], b, at[1], at[2]);
    AfterSnoc(at[0], [] + [a] + [b], d, at[2], at[3]);
    AfterSnoc(at[0], [] + [a] + [b] + [d], e, at[3], at[4]);
    AfterSnoc(at[0], [] + [a] + [b] + [d] + [e], f, at[4], at[5]);
    assert [] + [a] + [b] + [d] + [e] + [f] == [a, b, d, e, f];
  }

  lemma FirstTwo()
    ensures After(Fresh(), LockExclusive).0 == Counts(0, 1, 0, 0, InExclusive, 0)
    ensures After(Counts(0, 1, 0, 0, InExclusive, 0), LockSpeculative).0 == Counts(1, 1, 1, 0, InExclusive, 0)
  {
  }

  lemma LastThree()
    ensures After(Counts(1, 1, 1, 0, InExclusive, 0), UnlockSpeculative).0 == Counts(1, 1, 0, 1, InExclusive, 0)
    ensures After(Counts(1, 1, 0, 1, InExclusive, 0), UnlockExclusive).0 == Counts(1, 0, 0, 1, Outside, 0)
    ensures After(Counts(1, 0, 0, 1, Outside, 0), LockSpeculative).0 == Counts(1, 0, 1, 1, Outside, 0)
  {
  }

  lemma AfterSnoc(c: Counts, calls: seq<Call>, call: Call, before: Counts, after: Counts)
    requires AfterAll(c, calls) == before && After(before, call).0 == after
    ensures AfterAll(c, calls + [call]) == after
  {
    assert (calls + [call])[..|calls|] == calls;
  }

  /** Five speculative locks in a row cost one entry and one exit. */
  lemma FifthReleaseLeaves(c: Counts)
    requires Truthful(c) && c.spec == 1 && c.own == 0 && c.write == 0
    ensures After(c, UnlockSpeculative).0.inside.Outside? <==> c.parked == 4
  {
  }
}
