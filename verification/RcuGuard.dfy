/** RcuLocked (arch/rcu_protected.h, 18-100): a guard that owns one shared lock of
    the thread that made it, or none, and hands it on by moves. */
module RcuGuards {

  type Ptr = nat   // 0 is null

  /** A lock as one thread sees it: the shared locks that its guards have taken and
      not given back. */
  class GcLock {
    var taken: nat

    constructor ()
      ensures taken == 0
    {
      taken := 0;
    }

    method LockShared()
      modifies this
      ensures taken == old(taken) + 1
    {
      taken := taken + 1;
    }

    /** `!ok` is the exception for bad nesting. */
    method UnlockShared() returns (ok: bool)
      modifies this
      ensures ok <==> old(taken) > 0
      ensures taken == if ok then old(taken) - 1 else old(taken)
    {
      ok := taken > 0;
      if ok { taken := taken - 1; }
    }
  }

  // ------------------------------------------------------------- ownership

  ghost function LockOf(guards: set<RcuLocked>): map<RcuLocked, GcLock?>
    reads guards
  {
    map g | g in guards :: g.lock
  }

  ghost function Holding(lockOf: map<RcuLocked, GcLock?>, l: GcLock): set<RcuLocked> {
    set g | g in lockOf && lockOf[g] == l
  }

  /** Each live guard that has a lock owns exactly one of the shared locks taken
      on it, and none is taken that no guard owns; but for `l`, on which `more` are. */
  ghost predicate OwnedBut(guards: set<RcuLocked>, locks: set<GcLock>, l: GcLock?, more: nat)
    reads guards, locks
  {
    && (forall g :: g in guards && g.lock != null ==> g.lock in locks)
    && (forall k :: k in locks ==> k.taken == |Holding(LockOf(guards), k)| + if k == l then more else 0)
  }

  ghost predicate Owned(guards: set<RcuLocked>, locks: set<GcLock>)
    reads guards, locks
  {
    OwnedBut(guards, locks, null, 0)
  }

  /** How many hold a lock when one guard's changes. */
  lemma HoldingAfter(lockOf: map<RcuLocked, GcLock?>, g: RcuLocked, to: GcLock?, l: GcLock)
    requires g in lockOf
    ensures |Holding(lockOf[g := to], l)| == |Holding(lockOf, l)| - (if lockOf[g] == l then 1 else 0) + (if to == l then 1 else 0)
  {
    var rest := Holding(lockOf, l) - {g};
    assert Holding(lockOf, l) == if lockOf[g] == l then rest + {g} else rest;
    assert Holding(lockOf[g := to], l) == if to == l then rest + {g} else rest;
  }

  lemma HoldingNew(lockOf: map<RcuLocked, GcLock?>, g: RcuLocked, to: GcLock?, l: GcLock)
    requires g !in lockOf
    ensures |Holding(lockOf[g := to], l)| == |Holding(lockOf, l)| + (if to == l then 1 else 0)
  {
    assert Holding(lockOf[g := to], l) == if to == l then Holding(lockOf, l) + {g} else Holding(lockOf, l);
  }

  lemma HoldingGone(lockOf: map<RcuLocked, GcLock?>, g: RcuLocked, l: GcLock)
    requires g in lockOf && lockOf[g] == null
    ensures Holding(lockOf - {g}, l) == Holding(lockOf, l)
  {
  }

  /** While a guard has a lock, that lock is taken: its unlock cannot be one too
      many. */
  lemma GuardIsLocked(guards: set<RcuLocked>, locks: set<GcLock>, g: RcuLocked)
    requires Owned(guards, locks) && g in guards && g.lock != null
    ensures g.lock in locks && g.lock.taken > 0
  {
    assert g in Holding(LockOf(guards), g.lock);
  }

  // ------------------------------------------------------------- the guard

  class RcuLocked {
    var ptr: Ptr
    var lock: GcLock?

    constructor (ptr: Ptr, lock: GcLock?, ghost guards: set<RcuLocked>, ghost locks: set<GcLock>)
      requires Owned(guards, locks) && (lock == null || lock in locks)
      modifies if lock == null then {} else {lock}
      ensures this.ptr == ptr && this.lock == lock && Owned(guards + {this}, locks)
    {
      this.ptr, this.lock := ptr, lock;
      new;
      if lock != null { lock.LockShared(); }
      forall l | l in locks ensures l.taken == |Holding(LockOf(guards + {this}), l)| {
        assert LockOf(guards + {this}) == old(LockOf(guards))[this := lock];
        HoldingNew(old(LockOf(guards)), this, lock, l);
      }
    }

    /** Transfer from another guard, with a pointer of its own; the move
        constructor, which takes the other's pointer, leaves it there. */
    constructor Transfer(ptr: Ptr, other: RcuLocked, clear: bool, ghost guards: set<RcuLocked>, ghost locks: set<GcLock>)
      requires Owned(guards, locks) && other in guards
      modifies other
      ensures this.ptr == ptr && lock == old(other.lock) && other.lock == null && other.ptr == if clear then 0 else old(other.ptr)
      ensures Owned(guards + {this}, locks)
    {
      this.ptr, lock := ptr, other.lock;
      new;
      other.lock := null;
      if clear { other.ptr := 0; }
      forall l | l in locks ensures l.taken == |Holding(LockOf(guards + {this}), l)| {
        assert LockOf(guards + {this}) == old(LockOf(guards))[other := null][this := lock];
        HoldingAfter(old(LockOf(guards)), other, null, l);
        HoldingNew(old(LockOf(guards))[other := null], this, lock, l);
      }
    }

    /** Copy from another guard. */
    constructor Copy(ptr: Ptr, other: RcuLocked, ghost guards: set<RcuLocked>, ghost locks: set<GcLock>)
      requires Owned(guards, locks) && other in guards
      modifies if other.lock == null then {} else {other.lock}
      ensures this.ptr == ptr && lock == old(other.lock) == other.lock && Owned(guards + {this}, locks)
    {
      this.ptr, lock := ptr, other.lock;
      new;
      if lock != null { lock.LockShared(); }
      forall l | l in locks ensures l.taken == |Holding(LockOf(guards + {this}), l)| {
        assert LockOf(guards + {this}) == old(LockOf(guards))[this := lock];
        HoldingNew(old(LockOf(guards)), this, lock, l);
      }
    }

    /** `!ok` is the exception for bad nesting, which cannot happen here. */
    method Unlock(ghost guards: set<RcuLocked>, ghost locks: set<GcLock>) returns (ok: bool)
      requires Owned(guards, locks) && this in guards
      modifies this, lock
      ensures ok && lock == null && ptr == (if old(lock) == null then old(ptr) else 0) && Owned(guards, locks)
      ensures LockOf(guards) == old(LockOf(guards))[this := null]
    {
      ok := true;
      if lock == null {
        assert LockOf(guards) == LockOf(guards)[this := null];
        return;
      }
      GuardIsLocked(guards, locks, this);
      ok := lock.UnlockShared();
      if !ok { return; }
      lock, ptr := null, 0;
      forall l | l in locks ensures l.taken == |Holding(LockOf(guards), l)| {
        assert LockOf(guards) == old(LockOf(guards))[this := null];
        HoldingAfter(old(LockOf(guards)), this, null, l);
      }
    }

    /** The destructor: the guard is live no more. */
    method Destroy(ghost guards: set<RcuLocked>, ghost locks: set<GcLock>)
      requires Owned(guards, locks) && this in guards
      modifies this, lock
      ensures Owned(guards - {this}, locks)
    {
      var _ := Unlock(guards, locks);
      forall l | l in locks ensures l.taken == |Holding(LockOf(guards - {this}), l)| {
        assert LockOf(guards - {this}) == LockOf(guards) - {this};
        HoldingGone(LockOf(guards), this, l);
      }
    }

    /** operator =, from a guard of another type. */
    method MoveFromOther(other: RcuLocked, ghost guards: set<RcuLocked>, ghost locks: set<GcLock>)
      requires Owned(guards, locks) && this in guards && other in guards && this != other
      modifies this, other, lock
      ensures ptr == old(other.ptr) && lock == old(other.lock) && other.lock == null && Owned(guards, locks)
    {
      var _ := Unlock(guards, locks);
      Give(other, false, guards, locks);
    }

    /** The lock and the pointer change hands. */
    method Give(other: RcuLocked, clear: bool, ghost guards: set<RcuLocked>, ghost locks: set<GcLock>)
      requires this in guards && other in guards && (forall g :: g in guards && g.lock != null ==> g.lock in locks)
      modifies this, other
      ensures lock == if this == other then null else old(other.lock)
      ensures ptr == if this == other && clear then 0 else old(other.ptr)
      ensures other.lock == null && LockOf(guards) == old(LockOf(guards))[this := old(other.lock)][other := null]
      ensures forall g :: g in guards && g.lock != null ==> g.lock in locks
      ensures old(lock) == null && old(Owned(guards, locks)) ==> Owned(guards, locks)
    {
      lock, ptr := other.lock, other.ptr;
      other.lock := null;
      if clear { other.ptr := 0; }
      ghost var before: map<RcuLocked, GcLock?> := old(LockOf(guards));
      assert LockOf(guards) == before[this := old(other.lock)][other := null];
      forall l | l in locks ensures old(lock) == null && |Holding(before, l)| == l.taken ==> |Holding(LockOf(guards), l)| == l.taken {
        HoldingAfter(before, this, old(other.lock), l);
        HoldingAfter(before[this := old(other.lock)], other, null, l);
      }
    }

    /** operator =, from a guard of the same type: ownership is kept exactly unless
        both have the same lock, and then one shared lock on it is taken that no
        guard will give back.  Moving a guard to itself is such a case. */
    method MoveFrom(other: RcuLocked, ghost guards: set<RcuLocked>, ghost locks: set<GcLock>)
      requires Owned(guards, locks) && this in guards && other in guards
      modifies this, other, lock
      ensures Owned(guards, locks) <==> old(lock) == null || old(lock) != old(other.lock)
      ensures old(lock) != null && old(lock) == old(other.lock) ==> OwnedBut(guards, locks, old(lock), 1)
      ensures this != other ==> ptr == old(other.ptr) && lock == old(other.lock) && other.lock == null
      ensures this == other ==> ptr == 0 && lock == null
    {
      if lock != other.lock {
        var _ := Unlock(guards, locks);
        Give(other, true, guards, locks);
      } else {
        ghost var before: map<RcuLocked, GcLock?> := LockOf(guards);
        Give(other, true, guards, locks);
        forall l | l in locks ensures l.taken == |Holding(LockOf(guards), l)| + if old(lock) != null && l == old(lock) then 1 else 0 {
          HoldingAfter(before, this, old(other.lock), l);
          HoldingAfter(before[this := old(other.lock)], other, null, l);
        }
      }
    }
  }
}
