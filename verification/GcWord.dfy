/** The one word that GcLock's threads move by compare-and-swap: an epoch, a
    reader count for each parity of epoch, and the exclusive bit
    (`GcLockBase::Atomic` in arch/gc_lock.cc).

    `Word` is the word with an unbounded epoch and unbounded counts.  `Packed`
    is what the machine holds: a 32-bit epoch and two 16-bit fields, the top
    bit of the first being the exclusive bit.  The lemmas `Pack...` show that
    every operation on the packed word is the operation on the unbounded one. */
module GcWord {

  datatype Word = Word(epoch: int, even: nat, odd: nat, exclusive: bool)

  /** Readers counted for the parity of epoch `e`. */
  function In(w: Word, e: int): nat {
    if e % 2 == 0 then w.even else w.odd
  }

  function SetIn(w: Word, e: int, n: nat): Word {
    if e % 2 == 0 then w.(even := n) else w.(odd := n)
  }

  predicate AnyInCurrent(w: Word) {
    In(w, w.epoch) != 0
  }

  predicate AnyInOld(w: Word) {
    In(w, w.epoch - 1) != 0
  }

  function VisibleEpoch(w: Word): int {
    if !AnyInCurrent(w) && !AnyInOld(w) then w.epoch
    else if !AnyInOld(w) then w.epoch - 1
    else w.epoch - 2
  }

  /** The new value computed by one turn of enterCS's loop. */
  function EnterWord(w: Word): Word {
    if !AnyInOld(w)
    then SetIn(w.(epoch := w.epoch + 1), w.epoch + 1, 1)
    else SetIn(w, w.epoch, In(w, w.epoch) + 1)
  }

  /** The new value computed by one turn of exitCS's loop; only the parity of
      the epoch that was entered is known to the thread. */
  function ExitWord(w: Word, inEpoch: int): Word
    requires In(w, inEpoch) > 0
  {
    SetIn(w, inEpoch, In(w, inEpoch) - 1)
  }

  lemma EnterIn(w: Word)
    ensures var v := EnterWord(w); var e := w.epoch;
      if AnyInOld(w)
      then v.epoch == e && In(v, e) == In(w, e) + 1 && In(v, e - 1) == In(w, e - 1)
      else v.epoch == e + 1 && In(v, e + 1) == 1 && In(v, e) == In(w, e)
  {
  }

  lemma ExitIn(w: Word, e: int, inEpoch: int)
    requires (e == w.epoch || e == w.epoch - 1) && inEpoch == e % 2 && In(w, inEpoch) > 0
    ensures var v := ExitWord(w, inEpoch);
      && v.epoch == w.epoch
      && In(v, w.epoch) == In(w, w.epoch) - (if e == w.epoch then 1 else 0)
      && In(v, w.epoch - 1) == In(w, w.epoch - 1) - (if e == w.epoch then 0 else 1)
  {
  }

  /** Entering never changes what is visible, so it never wakes anyone. */
  lemma EnterKeepsVisible(w: Word)
    ensures VisibleEpoch(EnterWord(w)) == VisibleEpoch(w)
  {
    assert (w.epoch + 1) % 2 == (w.epoch - 1) % 2 != w.epoch % 2;
  }

  /** Leaving keeps the epoch and can only raise visibility; it raises it to
      the epoch left or to the one after it. */
  lemma ExitRaisesVisible(w: Word, inEpoch: int)
    requires In(w, inEpoch) > 0
    ensures ExitWord(w, inEpoch).epoch == w.epoch
    ensures VisibleEpoch(w) <= VisibleEpoch(ExitWord(w, inEpoch)) <= w.epoch
  {
    assert (w.epoch - 1) % 2 != w.epoch % 2;
  }

  // ------------------------------------------------------- the packed word

  const EPOCHS := 0x1_0000_0000   // values of epoch_t
  const FIELD := 0x1_0000         // values of one 16-bit count
  const EXCLUSIVE := 0x8000       // EXCLUSIVE_MASK; IN_MASK is everything below it

  datatype Packed = Packed(epoch: nat, in0: nat, in1: nat)

  predicate InRange(p: Packed) {
    p.epoch < 0x1_0000_0000 && p.in0 < 0x1_0000 && p.in1 < 0x1_0000
  }

  function Field(p: Packed, e: int): nat {
    if e % 2 == 0 then p.in0 else p.in1
  }

  function SetField(p: Packed, e: int, v: nat): Packed {
    if e % 2 == 0 then p.(in0 := v) else p.(in1 := v)
  }

  predicate PackedAnyInCurrent(p: Packed) {
    Field(p, p.epoch) % EXCLUSIVE != 0
  }

  predicate PackedAnyInOld(p: Packed) {
    Field(p, p.epoch - 1) % EXCLUSIVE != 0
  }

  predicate PackedExclusive(p: Packed) {
    p.in0 / EXCLUSIVE != 0
  }

  /** setIn keeps the exclusive bit that shares the field. */
  function PackedSetIn(p: Packed, e: int, v: nat): Packed {
    SetField(p, e, Field(p, e) / EXCLUSIVE * EXCLUSIVE + v % EXCLUSIVE)
  }

  /** addIn is plain 16-bit arithmetic on the whole field. */
  function PackedAddIn(p: Packed, e: int, d: int): Packed {
    SetField(p, e, (Field(p, e) + d) % FIELD)
  }

  function PackedEnter(p: Packed): Packed {
    if !PackedAnyInOld(p)
    then var e := (p.epoch + 1) % EPOCHS; PackedSetIn(p.(epoch := e), e, 1)
    else PackedAddIn(p, p.epoch, 1)
  }

  function PackedExit(p: Packed, inEpoch: int): Packed {
    PackedAddIn(p, inEpoch, -1)
  }

  function PackedSetExclusive(p: Packed): Packed {
    p.(in0 := EXCLUSIVE + p.in0 % EXCLUSIVE)
  }

  function PackedResetExclusive(p: Packed): Packed {
    p.(in0 := p.in0 % EXCLUSIVE)
  }

  function PackedVisible(p: Packed): nat {
    if !PackedAnyInCurrent(p) && !PackedAnyInOld(p) then p.epoch
    else if !PackedAnyInOld(p) then (p.epoch - 1) % EPOCHS
    else (p.epoch - 2) % EPOCHS
  }

  /** How the machine holds a word whose counts fit, as they do with fewer than
      2^15 threads. */
  function Pack(w: Word): Packed {
    Packed(w.epoch % EPOCHS, w.even + (if w.exclusive then EXCLUSIVE else 0), w.odd)
  }

  predicate Fits(w: Word) {
    w.even < 0x8000 && w.odd < 0x8000
  }

  lemma PackField(w: Word, e: int, e': int)
    requires Fits(w) && e % 2 == e' % 2
    ensures Field(Pack(w), e') % EXCLUSIVE == In(w, e)
  {
  }

  /** Parity survives the wrap. */
  lemma PackParity(e: int)
    ensures (e % EPOCHS) % 2 == e % 2 && (e % EPOCHS - 1) % 2 == (e - 1) % 2
  {
    var q, r := e / EPOCHS, e % EPOCHS;
    assert e == 2 * (0x8000_0000 * q) + r;
    SameParity(0x8000_0000 * q, r);
    SameParity(0x8000_0000 * q, r - 1);
  }

  lemma SameParity(k: int, r: int)
    ensures (2 * k + r) % 2 == r % 2
  {
  }

  lemma PackReads(w: Word)
    requires Fits(w)
    ensures InRange(Pack(w))
    ensures PackedAnyInCurrent(Pack(w)) <==> AnyInCurrent(w)
    ensures PackedAnyInOld(Pack(w)) <==> AnyInOld(w)
    ensures PackedExclusive(Pack(w)) <==> w.exclusive
    ensures PackedVisible(Pack(w)) == VisibleEpoch(w) % 0x1_0000_0000
  {
    PackParity(w.epoch);
    PackField(w, w.epoch, w.epoch % EPOCHS);
    PackField(w, w.epoch - 1, w.epoch % EPOCHS - 1);
    WrapMinus(w.epoch, 1);
    WrapMinus(w.epoch, 2);
  }

  lemma WrapMinus(e: int, d: int)
    ensures (e % EPOCHS - d) % EPOCHS == (e - d) % EPOCHS
  {
  }

  /** The exclusive bit and the wrap of the epoch never disturb a count: each
      packed operation is the unbounded one. */
  lemma PackEnter(w: Word)
    requires Fits(w) && Fits(EnterWord(w)) && !w.exclusive
    ensures PackedEnter(Pack(w)) == Pack(EnterWord(w))
  {
    PackReads(w);
    PackParity(w.epoch);
    PackParity(w.epoch + 1);
    WrapMinus(w.epoch, -1);
    if !AnyInOld(w) { PackSet(w, w.epoch + 1); } else { PackAdd(w, w.epoch); }
  }

  /** setIn with 1, on a field that is empty but for the exclusive bit. */
  lemma PackSet(w: Word, e: int)
    requires Fits(w) && In(w, e) == 0
    ensures var v := w.(epoch := e); PackedSetIn(Pack(v), e % EPOCHS, 1) == Pack(SetIn(v, e, 1))
  {
    PackParity(e);
  }

  lemma PackAdd(w: Word, e: int)
    requires Fits(w) && In(w, e) + 1 < EXCLUSIVE
    ensures PackedAddIn(Pack(w), e % EPOCHS, 1) == Pack(SetIn(w, e, In(w, e) + 1))
  {
    PackParity(e);
  }

  lemma PackExit(w: Word, inEpoch: int)
    requires Fits(w) && In(w, inEpoch) > 0
    ensures PackedExit(Pack(w), inEpoch) == Pack(ExitWord(w, inEpoch))
  {
  }

  lemma PackExclusive(w: Word)
    requires Fits(w)
    ensures PackedSetExclusive(Pack(w)) == Pack(w.(exclusive := true))
    ensures PackedResetExclusive(Pack(w)) == Pack(w.(exclusive := false))
  {
  }

  /** updateAtomic's two tests, made on packed words, decide as on the unbounded
      ones: the epoch did not go back, and visibility changed. */
  lemma PackUpdate(w: Word, v: Word)
    requires Fits(w) && Fits(v) && w.epoch <= v.epoch <= w.epoch + 1
    ensures CompareEpochs(Pack(v).epoch, Pack(w).epoch) >= 0
    ensures PackedVisible(Pack(v)) != PackedVisible(Pack(w)) <==> VisibleEpoch(v) != VisibleEpoch(w)
  {
    PackReads(w);
    PackReads(v);
    CompareEpochsNear(v.epoch, w.epoch);
    var d := VisibleEpoch(v) - VisibleEpoch(w);
    if d != 0 {
      assert -4 <= d <= 4;
      assert (VisibleEpoch(w) + d) % EPOCHS != VisibleEpoch(w) % EPOCHS;
    }
  }

  // --------------------------------------------------- comparing across a wrap

  const QUARTER := 0x4000_0000

  /** compareEpochs on two 32-bit images: only the top two bits look for a wrap. */
  function CompareEpochs(a: nat, b: nat): int {
    var aMasked, bMasked := a / QUARTER, b / QUARTER;
    if a == b then 0
    else if aMasked == bMasked then (if a < b then -1 else 1)
    else if aMasked == 0 then (if bMasked == 3 then 1 else -1)
    else if bMasked == 0 then (if aMasked == 3 then -1 else 1)
    else if aMasked < bMasked then -1 else 1
  }

  function Sign(d: int): int {
    if d < 0 then -1 else if d == 0 then 0 else 1
  }

  /** Epochs at most a quarter turn apart are put in their true order. */
  lemma CompareEpochsNear(a: int, b: int)
    requires -QUARTER <= a - b <= QUARTER
    ensures CompareEpochs(a % EPOCHS, b % EPOCHS) == Sign(a - b)
  {
    var ra, rb := a % EPOCHS, b % EPOCHS;
    var k := a / EPOCHS - b / EPOCHS;
    assert a - b == k * EPOCHS + (ra - rb);
    assert -1 <= k <= 1;
  }

  /** Up to half a turn apart the order is right unless the two are a half
      turn's quarters apart and the later one has wrapped. */
  lemma CompareEpochsExact(a: int, b: int)
    requires 0 < b - a < 2 * QUARTER
    ensures CompareEpochs(a % EPOCHS, b % EPOCHS) == -1
       <==> (a % EPOCHS) / QUARTER != (b % EPOCHS) / QUARTER + 2
  {
    var ra, rb := a % EPOCHS, b % EPOCHS;
    var k := b / EPOCHS - a / EPOCHS;
    assert b - a == k * EPOCHS + (rb - ra);
    assert 0 <= k <= 1;
  }

  // ------------------------------------------------- doDefer's locked re-check

  /** The oldest epoch with somebody in it, when there is one. */
  function OldestLive(w: Word): int {
    if AnyInOld(w) then w.epoch - 1 else w.epoch
  }

  /** True when the work may be run at once. */
  predicate RunNow(w: Word, key: int) {
    (!AnyInOld(w) && !AnyInCurrent(w)) || OldestLive(w) > key
  }

  /** The same test as the code makes it: -1 stands for "nobody", and both
      epochs are 32-bit images. */
  predicate PackedRunNow(p: Packed, key: nat) {
    var none := EPOCHS - 1;
    var oldestLive := if PackedAnyInOld(p) then (p.epoch - 1) % EPOCHS
                      else if PackedAnyInCurrent(p) then p.epoch else none;
    oldestLive == none || CompareEpochs(oldestLive, key) > 0
  }

  /** The code's test is the intended one except when the oldest epoch that
      still has readers has wrapped to the sentinel. */
  lemma PackRunNow(w: Word, key: int)
    requires Fits(w) && -QUARTER <= OldestLive(w) - key <= QUARTER
    ensures PackedRunNow(Pack(w), key % EPOCHS) <==> RunNow(w, key) || OldestLive(w) % EPOCHS == EPOCHS - 1
  {
    PackReads(w);
    WrapMinus(w.epoch, 1);
    CompareEpochsNear(OldestLive(w), key);
  }

  // ------------------------------------------------ visibleEpoch, read by read

  /** visibleEpoch() evaluated on shared memory: `r[i]` is the word at the
      moment of the i-th load.  anyInCurrent and anyInOld each load the epoch
      and then a count, and the epoch is loaded once more for the result. */
  function TornVisible(r: seq<Word>): int
    requires |r| == 7
  {
    if In(r[1], r[0].epoch) == 0 then
      if In(r[3], r[2].epoch - 1) == 0 then r[4].epoch
      else if In(r[5], r[4].epoch - 1) == 0 then r[6].epoch - 1
      else r[6].epoch - 2
    else
      if In(r[3], r[2].epoch - 1) == 0 then r[4].epoch - 1
      else r[4].epoch - 2
  }

  /** Loads in order never show an earlier epoch after a later one. */
  predicate InOrder(r: seq<Word>) {
    forall i, j :: 0 <= i < j < |r| ==> r[i].epoch <= r[j].epoch
  }

  /** Read load by load it is never behind: whatever was visible at every load,
      and so at the first, is visible in the result. */
  lemma TornIsNotStale(r: seq<Word>, e: int)
    requires |r| == 7 && InOrder(r) && forall i :: 0 <= i < 7 ==> e <= VisibleEpoch(r[i])
    ensures e <= TornVisible(r)
  {
    assert e <= VisibleEpoch(r[0]) && e <= VisibleEpoch(r[1]) && e <= VisibleEpoch(r[2]) && e <= VisibleEpoch(r[3]);
    assert e <= VisibleEpoch(r[4]) && e <= VisibleEpoch(r[5]) && e <= VisibleEpoch(r[6]);
    assert r[0].epoch <= r[1].epoch <= r[2].epoch <= r[3].epoch <= r[4].epoch <= r[5].epoch <= r[6].epoch;
    Parities(e);
  }

  lemma Parities(e: int)
    ensures e % 2 != (e - 1) % 2 == (e + 1) % 2
  {
  }

  /** A reader of epoch `e` is inside at this load. */
  predicate Counts(w: Word, e: int) {
    (w.epoch == e || w.epoch == e + 1) && In(w, e) > 0
  }

  /** Read load by load it overshoots a reader who is inside all along exactly
      when an entry moves the epoch on between the third and the fifth load and
      the fourth finds nobody in the epoch before the reader's. */
  lemma TornOvershoots(r: seq<Word>, e: int)
    requires |r| == 7 && InOrder(r) && forall i :: 0 <= i < 7 ==> Counts(r[i], e)
    ensures e <= TornVisible(r) <==> r[2].epoch == e && r[4].epoch == e + 1 && In(r[3], e - 1) == 0
  {
    assert Counts(r[0], e) && Counts(r[1], e) && Counts(r[2], e) && Counts(r[3], e);
    assert Counts(r[4], e) && Counts(r[5], e) && Counts(r[6], e);
    assert r[0].epoch <= r[1].epoch <= r[2].epoch <= r[3].epoch <= r[4].epoch <= r[5].epoch <= r[6].epoch;
    Parities(e);
  }

  // ------------------------------------------------ checkDefers on packed words

  /** checkDefers' two tests, made on 32-bit images, decide as on unbounded epochs. */
  lemma PackCheck(w: Word, key: int)
    requires Fits(w) && -QUARTER <= key - VisibleEpoch(w) <= QUARTER
    ensures CompareEpochs(key % EPOCHS, PackedVisible(Pack(w))) <= 0 <==> key <= VisibleEpoch(w)
  {
    PackReads(w);
    CompareEpochsNear(key, VisibleEpoch(w));
  }

  const HALF := 0x8000_0000

  /** A key of the deferred map: the epoch as a signed 32-bit number. */
  function SignedImage(key: int): int {
    var image := key % EPOCHS;
    if image < HALF then image else image - EPOCHS
  }

  /** How many odd multiples of 2^31 a key has reached. */
  function Turn(key: int): int {
    (key + HALF) / EPOCHS
  }

  /** The map walks two keys in epoch order exactly when no odd multiple of 2^31
      lies between them. */
  lemma SignedOrder(a: int, b: int)
    requires a < b < a + EPOCHS
    ensures SignedImage(a) < SignedImage(b) <==> Turn(a) == Turn(b)
  {
    SignedIs(a);
    SignedIs(b);
  }

  lemma SignedIs(key: int)
    ensures SignedImage(key) == key - EPOCHS * Turn(key) && -HALF <= SignedImage(key) < HALF
  {
  }

  lemma {:induction false} LeastImage(keys: set<int>, k: int) returns (key: int)
    requires k in keys
    ensures key in keys && forall j :: j in keys ==> SignedImage(key) <= SignedImage(j)
    decreases keys
  {
    var rest := keys - {k};
    if j :| j in rest {
      var least := LeastImage(rest, j);
      key := if SignedImage(k) <= SignedImage(least) then k else least;
    } else {
      key := k;
    }
    forall j | j in keys ensures SignedImage(key) <= SignedImage(j) { assert j == k || j in rest; }
  }
}
