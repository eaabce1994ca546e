/** Arrays of fixed-width numbers (arch/bit_array.h): a table of states drives the
    writer; the reader shifts and masks. */
module BitArrays {
  import opened Arithmetic
  import opened BitRanges

  /** What to do with a value that starts at bit `shift0` of a word. */
  datatype State = State(mask0: Word, mask1: Word, shift0: nat, shift1: nat, inc: bool, next: nat)

  function StateFor(w: nat, b: nat, shift: nat, next: nat): State
    requires shift < w && b <= w
  {
    var first := Min(w - shift, b);
    State(Ones(w, first), Ones(w, b - first), shift, first, first + shift == w, next)
  }

  function Min(x: nat, y: nat): nat {
    if x <= y then x else y
  }

  // -------------------------------------------------------- remainders

  lemma ModIs(x: nat, w: nat, q: nat, r: nat)
    requires w > 0 && r < w && x == q * w + r
    ensures x % w == r && x / w == q
  {
    Place(w, q, r);
  }

  /** One width further on. */
  lemma ModAdd(x: nat, b: nat, w: nat)
    requires b <= w && w > 0
    ensures (x + b) % w == (if x % w + b < w then x % w + b else x % w + b - w)
    ensures (x + b) / w == (if x % w + b < w then x / w else x / w + 1)
  {
    var q, r := x / w, x % w;
    DivIs(x, w);
    if r + b < w {
      ModIs(x + b, w, q, r + b);
    } else {
      Next(q, w);
      ModIs(x + b, w, q + 1, r + b - w);
    }
  }

  lemma ModSmall(s: nat, w: nat)
    requires s < 2 * w
    ensures s % w == if s < w then s else s - w
  {
    if s < w { ModIs(s, w, 0, s); } else { ModIs(s, w, 1, s - w); }
  }

  lemma ModMultiple(w: nat, b: nat)
    requires w > 0
    ensures (w * b) % w == 0
  {
    assert w * b == b * w;
    ModIs(w * b, w, b, 0);
  }

  lemma Next(k: nat, b: nat)
    ensures (k + 1) * b == k * b + b
  {
  }

  // -------------------------------------------------------------- the table

  /** The table: state `k` is for the k-th value's offset in its word, links lead
      through all the offsets, and the last leads back to offset 0. */
  ghost predicate Table(states: seq<State>, w: nat, b: nat) {
    && 0 < |states| <= w && b <= w
    && (forall k :: 0 <= k < |states| ==> Linked(states, w, b, k))
    && Offset(w, b, |states|) == 0
    && (forall k :: 0 < k < |states| ==> Inside(w, b, k))
  }

  /** The bit in its word at which value `k` starts. */
  ghost function Offset(w: nat, b: nat, k: nat): (r: nat)
    requires b <= w && w > 0
    ensures r < w
  {
    if k == 0 then 0 else Advanced(Offset(w, b, k - 1), b, w)
  }

  function Advanced(shift: nat, b: nat, w: nat): (r: nat)
    requires shift < w && b <= w
    ensures r < w
  {
    if shift + b < w then shift + b else shift + b - w
  }

  /** It is the remainder of the value's position. */
  lemma {:induction false} OffsetIs(w: nat, b: nat, k: nat)
    requires b <= w && w > 0
    ensures Offset(w, b, k) == (k * b) % w
  {
    if k > 0 {
      OffsetIs(w, b, k - 1);
      Next(k - 1, b);
      ModAdd((k - 1) * b, b, w);
    } else {
      ModIs(0, w, 0, 0);
    }
  }

  lemma OffsetOfWord(w: nat, b: nat)
    requires b <= w && w > 0
    ensures Offset(w, b, w) == 0
  {
    OffsetIs(w, b, w);
    ModMultiple(w, b);
  }

  /** Value `k` does not start at a word's start. */
  ghost predicate Inside(w: nat, b: nat, k: nat)
    requires b <= w && w > 0
  {
    Offset(w, b, k) != 0
  }

  ghost predicate Linked(states: seq<State>, w: nat, b: nat, k: nat)
    requires k < |states| <= w && b <= w
  {
    states[k] == StateFor(w, b, Offset(w, b, k), if k + 1 < |states| then k + 1 else 0)
  }

  /** init's loop; after as many steps as a word has bits the offset is 0 again. */
  method Init(w: nat, b: nat) returns (states: seq<State>)
    requires 0 < b <= w
    ensures Table(states, w, b)
  {
    states := [];
    var currentShift := 0;
    OffsetOfWord(w, b);
    while true
      invariant |states| <= w && currentShift == Offset(w, b, |states|)
      invariant |states| > 0 ==> currentShift != 0
      invariant forall k :: 0 <= k < |states| ==> Onward(states[k], w, b, k)
      decreases w - |states|
    {
      ModSmall(currentShift + b, w);
      var next := (currentShift + b) % w;
      var state := StateFor(w, b, currentShift, if next == 0 then 0 else |states| + 1);
      if next == 0 { Closed(states, state, w, b); }
      states := states + [state];
      currentShift := next;
      if currentShift == 0 { break; }
    }
  }

  /** A state that is not the last, and not at a word's start unless it is the first. */
  ghost predicate Onward(s: State, w: nat, b: nat, k: nat)
    requires b <= w && w > 0
  {
    s == StateFor(w, b, Offset(w, b, k), k + 1) && (k > 0 ==> Offset(w, b, k) != 0)
  }

  lemma Closed(states: seq<State>, last: State, w: nat, b: nat)
    requires |states| < w && b <= w && Offset(w, b, |states| + 1) == 0
    requires last == StateFor(w, b, Offset(w, b, |states|), 0) && (|states| > 0 ==> Offset(w, b, |states|) != 0)
    requires forall k :: 0 <= k < |states| ==> Onward(states[k], w, b, k)
    ensures Table(states + [last], w, b)
  {
    var all := states + [last];
    forall k | 0 <= k < |all| ensures Linked(all, w, b, k) && (k > 0 ==> Inside(w, b, k)) {
      if k < |states| { assert Onward(states[k], w, b, k) && all[k] == states[k]; }
    }
  }

  /** Following a link keeps step with the values. */
  lemma Follow(states: seq<State>, w: nat, b: nat, cur: nat, i: nat)
    requires Table(states, w, b) && cur < |states| && Offset(w, b, cur) == Offset(w, b, i)
    ensures states[cur].next < |states| && Offset(w, b, states[cur].next) == Offset(w, b, i + 1)
  {
    assert Linked(states, w, b, cur);
  }

  /** Enough for the values, and a guard word. */
  function NumWordsToAllocate(numEntries: nat, b: nat, w: nat): nat
    requires w > 0
  {
    (numEntries * b + w - 1) / w + 1
  }

  /** The fewest words for the values, and one more. */
  lemma NumWordsAreFewest(n: nat, b: nat, w: nat, words: nat)
    requires w > 0
    ensures var m := NumWordsToAllocate(n, b, w) - 1;
      m >= 0 && n * b <= m * w && (n * b <= words * w ==> m <= words)
  {
    var m := NumWordsToAllocate(n, b, w) - 1;
    DivIs(n * b + w - 1, w);
    if words < m {
      MulMono(words + 1, m, w);
      assert (words + 1) * w == words * w + w;
    }
  }

  /** Every access stays inside: the writer's to the word of the next value, and
      the reader's to the word after that of the value it reads. */
  lemma Fits(n: nat, k: nat, b: nat, w: nat)
    requires 0 < b <= w && k <= n
    ensures (k * b) / w < NumWordsToAllocate(n, b, w)
    ensures k < n ==> (k * b) / w + 1 < NumWordsToAllocate(n, b, w)
  {
    MulMono(k, n, b);
    DivIs(k * b, w);
    DivIs(n * b + w - 1, w);
    var q, top := (k * b) / w, (n * b + w - 1) / w;
    Next(k, b);
    Next(top, w);
    if k < n {
      MulMono(k + 1, n, b);
      if top <= q { MulMono(top, q, w); }
    } else if top + 1 <= q {
      MulMono(top + 1, q, w);
    }
  }

  // ------------------------------------------------------ where values are

  /** The word in which value `k` starts. */
  ghost function WordOf(w: nat, b: nat, k: nat): nat
    requires b <= w && w > 0
  {
    if k == 0 then 0 else WordOf(w, b, k - 1) + if Offset(w, b, k - 1) + b < w then 0 else 1
  }

  lemma {:induction false} WordIs(w: nat, b: nat, k: nat)
    requires b <= w && w > 0
    ensures WordOf(w, b, k) == (k * b) / w
  {
    if k > 0 {
      WordIs(w, b, k - 1);
      OffsetIs(w, b, k - 1);
      Next(k - 1, b);
      ModAdd((k - 1) * b, b, w);
    } else {
      ModIs(0, w, 0, 0);
    }
  }

  /** A value ends where a later one starts, or before. */
  lemma {:induction false} Earlier(w: nat, b: nat, k: nat, i: nat)
    requires b <= w && w > 0 && k < i
    ensures WordOf(w, b, k) <= WordOf(w, b, i)
    ensures WordOf(w, b, i) == WordOf(w, b, k) ==> Offset(w, b, k) + b <= Offset(w, b, i)
    ensures WordOf(w, b, i) == WordOf(w, b, k) + 1 ==> Offset(w, b, k) + b <= w + Offset(w, b, i)
    decreases i
  {
    if k + 1 < i { Earlier(w, b, k, i - 1); }
  }

  /** Bit `j` of the value that starts at word `c`, bit `o`. */
  ghost predicate HoldsBit(mem: seq<Word>, w: nat, c: nat, o: nat, val: Word, j: nat)
    requires Words(mem, w) && |val| == w && j < w && o < w
  {
    if o + j < w then c < |mem| && mem[c][o + j] == val[j]
    else c + 1 < |mem| && mem[c + 1][o + j - w] == val[j]
  }

  /** Value `k` is in its place. */
  ghost predicate Holds(mem: seq<Word>, w: nat, b: nat, k: nat, val: Word) {
    && Words(mem, w) && b <= w == |val|
    && forall j :: 0 <= j < b ==> HoldsBit(mem, w, WordOf(w, b, k), Offset(w, b, k), val, j)
  }

  // ------------------------------------------------------------ one write

  /** toWrite with the part of the value that fits in the word. */
  function First(toWrite: Word, val: Word, s: State): (r: Word)
    requires |toWrite| == |val| == |s.mask0| && s.shift0 < |val|
    ensures |r| == |val|
  {
    Or(toWrite, Shl(And(val, s.mask0), s.shift0))
  }

  /** The rest of the value, for the next word. */
  function Rest(val: Word, s: State): (r: Word)
    requires |s.mask1| == |val| && s.shift1 <= |val|
    ensures |r| == |val|
  {
    if s.shift1 == |val| then Zero(|val|) else And(Shr(val, s.shift1), s.mask1)
  }

  lemma FirstBit(toWrite: Word, val: Word, w: nat, b: nat, o: nat, next: nat, x: nat)
    requires |toWrite| == |val| == w && o < w && b <= w && x < w
    ensures var s := StateFor(w, b, o, next);
            First(toWrite, val, s)[x] == (toWrite[x] || (o <= x < o + b && val[x - o]))
  {
  }

  lemma RestBit(val: Word, w: nat, b: nat, o: nat, next: nat, x: nat)
    requires |val| == w && o < w && b <= w && x < w
    ensures var s := StateFor(w, b, o, next);
            Rest(val, s)[x] == (o + b > w && x < o + b - w && val[w - o + x])
  {
  }

  /** Nothing yet from bit `o` on. */
  ghost predicate ClearFrom(x: Word, o: nat) {
    forall j :: o <= j < |x| ==> !x[j]
  }

  /** The writer's memory: the array, with the pending word where it will go. */
  ghost function Memory(data: seq<Word>, at: nat, toWrite: Word): seq<Word>
    requires at < |data|
  {
    data[at := toWrite]
  }

  /** A write, from a memory `m` to a memory `m'`: bits before the cursor are kept,
      and the value's bits follow. */
  ghost predicate Step(m: seq<Word>, m': seq<Word>, w: nat, at: nat, o: nat, val: Word, b: nat) {
    && Words(m, w) && Words(m', w) && |m| == |m'| && |val| == w && at < |m| && o < w && b <= w
    && (forall c :: 0 <= c < at ==> m'[c] == m[c])
    && (forall x :: 0 <= x < w ==> StepBit(m[at], m'[at], o, val, b, x))
    && (o + b > w ==> at + 1 < |m| && forall x :: 0 <= x < o + b - w ==> SpillBit(m', at, w, o, val, x))
  }

  ghost predicate StepBit(x: Word, y: Word, o: nat, val: Word, b: nat, j: nat)
    requires |x| == |y| == |val| && j < |x| && b <= |x|
  {
    (j < o ==> y[j] == x[j]) && (o <= j < o + b ==> y[j] == val[j - o])
  }

  ghost predicate SpillBit(m: seq<Word>, at: nat, w: nat, o: nat, val: Word, x: nat)
    requires at + 1 < |m| && x < |m[at + 1]| && o <= w && w - o + x < |val|
  {
    m[at + 1][x] == val[w - o + x]
  }

  lemma StepKeeps(m: seq<Word>, m': seq<Word>, w: nat, b: nat, i: nat, val: Word, k: nat, old': Word)
    requires b <= w && w > 0 && Step(m, m', w, WordOf(w, b, i), Offset(w, b, i), val, b)
    requires k < i && Holds(m, w, b, k, old')
    ensures Holds(m', w, b, k, old')
  {
    Earlier(w, b, k, i);
    forall j | 0 <= j < b ensures HoldsBit(m', w, WordOf(w, b, k), Offset(w, b, k), old', j) {
      assert HoldsBit(m, w, WordOf(w, b, k), Offset(w, b, k), old', j);
      StepKeepsBit(m, m', w, WordOf(w, b, i), Offset(w, b, i), val, b, WordOf(w, b, k), Offset(w, b, k), old', j);
    }
  }

  lemma StepKeepsBit(m: seq<Word>, m': seq<Word>, w: nat, at: nat, o: nat, val: Word, b: nat, c: nat, p: nat, old': Word, j: nat)
    requires Step(m, m', w, at, o, val, b) && p < w && |old'| == w && j < b && HoldsBit(m, w, c, p, old', j)
    requires c <= at && (at == c ==> p + b <= o) && (at == c + 1 ==> p + b <= w + o)
    ensures HoldsBit(m', w, c, p, old', j)
  {
    if p + j < w {
      if c == at { assert StepBit(m[at], m'[at], o, val, b, p + j); }
    } else {
      if c + 1 == at { assert StepBit(m[at], m'[at], o, val, b, p + j - w); }
    }
  }

  lemma StepAdds(m: seq<Word>, m': seq<Word>, w: nat, b: nat, i: nat, val: Word)
    requires b <= w && w > 0 && Step(m, m', w, WordOf(w, b, i), Offset(w, b, i), val, b)
    ensures Holds(m', w, b, i, val)
  {
    forall j | 0 <= j < b ensures HoldsBit(m', w, WordOf(w, b, i), Offset(w, b, i), val, j) {
      StepAddsBit(m, m', w, WordOf(w, b, i), Offset(w, b, i), val, b, j);
    }
  }

  lemma StepAddsBit(m: seq<Word>, m': seq<Word>, w: nat, at: nat, o: nat, val: Word, b: nat, j: nat)
    requires Step(m, m', w, at, o, val, b) && j < b
    ensures HoldsBit(m', w, at, o, val, j)
  {
    if o + j < w {
      assert StepBit(m[at], m'[at], o, val, b, o + j);
    } else {
      assert SpillBit(m', at, w, o, val, o + j - w);
    }
  }

  /** What Writer::write does is such a step, and leaves the new pending word clear
      beyond the value. */
  lemma WriteSteps(data: seq<Word>, w: nat, b: nat, at: nat, o: nat, toWrite: Word, val: Word, s: State)
    requires Words(data, w) && at < |data| && o < w && 0 < b <= w && |toWrite| == |val| == w && ClearFrom(toWrite, o)
    requires s == StateFor(w, b, o, s.next) && (s.inc ==> at + 1 < |data|)
    ensures Step(Memory(data, at, toWrite), Written(data, at, toWrite, val, s), w, at, o, val, b)
    ensures ClearFrom(if s.inc then Rest(val, s) else First(toWrite, val, s), Advanced(o, b, w))
  {
    var first, rest := First(toWrite, val, s), Rest(val, s);
    forall x | 0 <= x < w ensures StepBit(toWrite, first, o, val, b, x) { FirstBit(toWrite, val, w, b, o, s.next, x); }
    if s.inc {
      forall x | 0 <= x < w ensures rest[x] == (o + b > w && x < o + b - w && val[w - o + x]) { RestBit(val, w, b, o, s.next, x); }
    } else {
      forall x | o + b <= x < w ensures !first[x] { FirstBit(toWrite, val, w, b, o, s.next, x); }
    }
  }

  /** The writer's memory after a write. */
  ghost function Written(data: seq<Word>, at: nat, toWrite: Word, val: Word, s: State): seq<Word>
    requires at < |data| && |toWrite| == |val| == |s.mask0| == |s.mask1| && s.shift0 < |val| && s.shift1 <= |val|
    requires s.inc ==> at + 1 < |data|
  {
    if s.inc then Memory(data[at := First(toWrite, val, s)], at + 1, Rest(val, s)) else Memory(data, at, First(toWrite, val, s))
  }

  /** The state in use is the one for the value to be written. */
  lemma StateIs(states: seq<State>, w: nat, b: nat, cur: nat, i: nat)
    requires Table(states, w, b) && cur < |states| && Offset(w, b, cur) == Offset(w, b, i)
    ensures var s := states[cur];
            && s == StateFor(w, b, Offset(w, b, i), s.next) && s.next < |states| && Offset(w, b, s.next) == Offset(w, b, i + 1)
            && WordOf(w, b, i + 1) == WordOf(w, b, i) + if s.inc then 1 else 0
  {
    assert Linked(states, w, b, cur);
    Follow(states, w, b, cur, i);
  }

  // ----------------------------------------------------------------- classes

  class BitArray {
    const w: nat
    const numBits: nat
    var states: seq<State>
    const resultMask: Word

    ghost predicate Valid()
      reads this
    {
      0 < numBits <= w && Table(states, w, numBits) && resultMask == Ones(w, numBits)
    }

    constructor (w: nat, numBits: nat)
      requires 0 < numBits <= w
      ensures Valid() && this.w == w && this.numBits == numBits
    {
      this.w, this.numBits, resultMask := w, numBits, Ones(w, numBits);
      states := [];
      new;
      states := Init(w, numBits);
    }
  }

  /** The writer is where value `i` starts. */
  ghost predicate Ready(states: seq<State>, w: nat, b: nat, i: nat, at: nat, toWrite: Word, cur: nat)
    requires 0 < b <= w
  {
    && at == WordOf(w, b, i) && cur < |states| && Offset(w, b, cur) == Offset(w, b, i)
    && |toWrite| == w && ClearFrom(toWrite, Offset(w, b, i))
  }

  /** A write leads to where the next value starts. */
  lemma ReadyNext(states: seq<State>, w: nat, b: nat, i: nat, at: nat, toWrite: Word, cur: nat, data: seq<Word>, room: nat, val: Word)
    requires 0 < b <= w && Table(states, w, b) && Ready(states, w, b, i, at, toWrite, cur) && |val| == w
    requires Words(data, w) && Roomy(|data|, room, w, b) && i < room
    ensures var s := states[cur];
            && |s.mask0| == |s.mask1| == w && s.shift0 < w && s.shift1 <= w && at < |data| && (s.inc ==> at + 1 < |data|)
            && Ready(states, w, b, i + 1, if s.inc then at + 1 else at, if s.inc then Rest(val, s) else First(toWrite, val, s), s.next)
            && Step(Memory(data, at, toWrite), Written(data, at, toWrite, val, s), w, at, Offset(w, b, i), val, b)
            && Words(if s.inc then data[at := First(toWrite, val, s)] else data, w)
  {
    StateIs(states, w, b, cur, i);
    assert RoomAt(|data|, room, w, b, i);
    WriteSteps(data, w, b, at, Offset(w, b, i), toWrite, val, states[cur]);
  }

  class Writer {
    const owner: BitArray
    const data: array<Word>
    ghost const room: nat      // how many values the array was allocated for
    ghost var count: nat       // how many have been written
    var at: nat
    var toWrite: Word
    var cur: nat

    ghost predicate Valid()
      reads this, owner, data
    {
      var w, b := owner.w, owner.numBits;
      && owner.Valid() && Words(data[..], w) && Roomy(data.Length, room, w, b) && count <= room && at < data.Length
      && Ready(owner.states, w, b, count, at, toWrite, cur)
    }

    /** What the array will hold. */
    ghost function Mem(): seq<Word>
      requires at < data.Length
      reads this, data
    {
      Memory(data[..], at, toWrite)
    }

    /** getWriter */
    constructor (owner: BitArray, data: array<Word>, ghost room: nat)
      requires owner.Valid() && Words(data[..], owner.w) && data.Length >= NumWordsToAllocate(room, owner.numBits, owner.w)
      modifies data
      ensures Valid() && count == 0 && this.owner == owner && this.data == data && this.room == room
      ensures forall c :: 0 < c < data.Length ==> data[c] == old(data[c])
    {
      InRoom(data.Length, room, owner.w, owner.numBits);
      assert RoomAt(data.Length, room, owner.w, owner.numBits, 0);
      this.owner, this.data, this.room := owner, data, room;
      count, at, toWrite, cur := 0, 0, Zero(owner.w), 0;
      new;
      data[0] := Zero(owner.w);
    }

    method Write(val: Word)
      requires Valid() && |val| == owner.w && count < room
      modifies this`count, this`at, this`toWrite, this`cur, data
      ensures Valid() && count == old(count) + 1
      ensures Step(old(Mem()), Mem(), owner.w, old(at), Offset(owner.w, owner.numBits, old(count)), val, owner.numBits)
      ensures forall c :: at < c < data.Length ==> data[c] == old(data[c])
    {
      ReadyNext(owner.states, owner.w, owner.numBits, count, at, toWrite, cur, data[..], room, val);
      var state := owner.states[cur];
      PutPart(val, state);
      cur := state.next;
      count := count + 1;
    }

    method PutPart(val: Word, state: State)
      requires at < data.Length && |toWrite| == |val| == |state.mask0| == |state.mask1|
      requires state.shift0 < |val| && state.shift1 <= |val| && (state.inc ==> at + 1 < data.Length)
      modifies this`at, this`toWrite, data
      ensures at == old(at) + if state.inc then 1 else 0
      ensures toWrite == if state.inc then Rest(val, state) else First(old(toWrite), val, state)
      ensures data[..] == if state.inc then old(data[..])[old(at) := First(old(toWrite), val, state)] else old(data[..])
      ensures forall c :: old(at) < c < data.Length ==> data[c] == old(data[c])
    {
      toWrite := First(toWrite, val, state);
      if state.inc {
        data[at] := toWrite;
        at := at + 1;
        toWrite := Rest(val, state);
      }
    }

    method Finish()
      requires Valid()
      modifies data
      ensures data[..] == old(Mem())
    {
      data[at] := toWrite;
    }
  }

  /** The words of every value are inside, and so is a guard word. */
  ghost predicate Roomy(length: nat, room: nat, w: nat, b: nat)
    requires 0 < b <= w
  {
    forall k :: 0 <= k <= room ==> RoomAt(length, room, w, b, k)
  }

  ghost predicate RoomAt(length: nat, room: nat, w: nat, b: nat, k: nat)
    requires 0 < b <= w
  {
    WordOf(w, b, k) < length && (k < room ==> WordOf(w, b, k) + 1 < length)
  }

  lemma InRoom(length: nat, room: nat, w: nat, b: nat)
    requires 0 < b <= w && length >= NumWordsToAllocate(room, b, w)
    ensures Roomy(length, room, w, b)
  {
    forall k | 0 <= k <= room ensures RoomAt(length, room, w, b, k) {
      Fits(room, k, b, w);
      WordIs(w, b, k);
    }
  }

  // ---------------------------------------------------------------- reading

  lemma DivSmall(s: nat, w: nat)
    requires s < 2 * w
    ensures s / w == if s < w then 0 else 1
  {
    if s < w { ModIs(s, w, 0, s); } else { ModIs(s, w, 1, s - w); }
  }

  /** Two words shifted together and masked are the value that starts there. */
  lemma ReadIs(mem: seq<Word>, w: nat, b: nat, c: nat, o: nat, val: Word)
    requires Words(mem, w) && 0 < b <= w == |val| && o < w && c + 1 < |mem|
    requires forall j :: 0 <= j < b ==> HoldsBit(mem, w, c, o, val, j)
    ensures And(ShrdEmulated(mem[c], mem[c + 1], o), Ones(w, b)) == MaskLower(val, b)
  {
    var shifted := ShrdEmulated(mem[c], mem[c + 1], o);
    var r, m := And(shifted, Ones(w, b)), MaskLower(val, b);
    forall j | 0 <= j < w ensures r[j] == m[j] {
      if j < b { assert HoldsBit(mem, w, c, o, val, j); }
      assert r[j] == (shifted[j] && j < b);
    }
  }

  class Reader {
    const owner: BitArray
    const data: array<Word>
    ghost var count: nat
    var at: nat
    var cur: nat

    ghost predicate Valid()
      reads this, owner, data
    {
      owner.Valid() && Words(data[..], owner.w)
      && at == WordOf(owner.w, owner.numBits, count) && cur == Offset(owner.w, owner.numBits, count)
    }

    /** getReader */
    constructor (owner: BitArray, data: array<Word>)
      requires owner.Valid() && Words(data[..], owner.w)
      ensures Valid() && count == 0 && this.owner == owner && this.data == data
    {
      this.owner, this.data, count, at, cur := owner, data, 0, 0, 0;
    }

    method Read(ghost val: Word) returns (result: Word)
      requires Valid() && at + 1 < data.Length && Holds(data[..], owner.w, owner.numBits, count, val)
      modifies this
      ensures Valid() && count == old(count) + 1
      ensures result == MaskLower(val, owner.numBits)
    {
      ReadIs(data[..], owner.w, owner.numBits, at, cur, val);
      result := And(ShrdEmulated(data[at], data[at + 1], cur), owner.resultMask);
      DivSmall(cur + owner.numBits, owner.w);
      ModSmall(cur + owner.numBits, owner.w);
      cur := cur + owner.numBits;
      at := at + cur / owner.w;
      cur := cur % owner.w;
      count := count + 1;
    }
  }

  /** Values of any one width, written over whatever the array held, are read back
      as their low bits; nothing beyond the words for them is touched. */
  method RoundTrip(w: nat, numBits: nat, data: array<Word>, vals: seq<Word>) returns (outs: seq<Word>)
    requires 0 < numBits <= w && Words(data[..], w) && forall i :: 0 <= i < |vals| ==> |vals[i]| == w
    requires data.Length >= NumWordsToAllocate(|vals|, numBits, w)
    modifies data
    ensures |outs| == |vals| && forall i :: 0 <= i < |vals| ==> outs[i] == MaskLower(vals[i], numBits)
    ensures forall c :: NumWordsToAllocate(|vals|, numBits, w) <= c < data.Length ==> data[c] == old(data[c])
  {
    var owner := new BitArray(w, numBits);
    WriteVals(owner, data, vals);
    outs := ReadVals(owner, data, vals);
  }

  method WriteVals(owner: BitArray, data: array<Word>, vals: seq<Word>)
    requires owner.Valid() && Words(data[..], owner.w) && forall i :: 0 <= i < |vals| ==> |vals[i]| == owner.w
    requires data.Length >= NumWordsToAllocate(|vals|, owner.numBits, owner.w)
    modifies data
    ensures owner.Valid() && Words(data[..], owner.w)
    ensures forall k :: 0 <= k < |vals| ==> Holds(data[..], owner.w, owner.numBits, k, vals[k])
    ensures forall c :: NumWordsToAllocate(|vals|, owner.numBits, owner.w) <= c < data.Length ==> data[c] == old(data[c])
  {
    ghost var w, b := owner.w, owner.numBits;
    var writer := new Writer(owner, data, |vals|);
    var i := 0;
    while i < |vals|
      invariant i <= |vals| && writer.Valid() && writer.count == i && fresh(writer)
      invariant writer.owner == owner && writer.data == data && writer.room == |vals|
      invariant forall k :: 0 <= k < i ==> Holds(writer.Mem(), w, b, k, vals[k])
      invariant forall c :: writer.at < c < data.Length ==> data[c] == old(data[c])
    {
      ghost var m := writer.Mem();
      writer.Write(vals[i]);
      forall k | 0 <= k < i + 1 ensures Holds(writer.Mem(), w, b, k, vals[k]) {
        if k < i {
          StepKeeps(m, writer.Mem(), w, b, i, vals[i], k, vals[k]);
        } else {
          StepAdds(m, writer.Mem(), w, b, i, vals[i]);
        }
      }
      i := i + 1;
    }
    Fits(|vals|, |vals|, b, w);
    WordIs(w, b, |vals|);
    writer.Finish();
  }

  method ReadVals(owner: BitArray, data: array<Word>, vals: seq<Word>) returns (outs: seq<Word>)
    requires owner.Valid() && Words(data[..], owner.w)
    requires data.Length >= NumWordsToAllocate(|vals|, owner.numBits, owner.w)
    requires forall k :: 0 <= k < |vals| ==> Holds(data[..], owner.w, owner.numBits, k, vals[k])
    ensures |outs| == |vals| && forall k :: 0 <= k < |vals| ==> outs[k] == MaskLower(vals[k], owner.numBits)
  {
    InRoom(data.Length, |vals|, owner.w, owner.numBits);
    var reader := new Reader(owner, data);
    outs := [];
    while |outs| < |vals|
      invariant |outs| <= |vals| && reader.Valid() && reader.count == |outs| && fresh(reader)
      invariant reader.owner == owner && reader.data == data
      invariant forall k :: 0 <= k < |outs| ==> outs[k] == MaskLower(vals[k], owner.numBits)
    {
      assert RoomAt(data.Length, |vals|, owner.w, owner.numBits, |outs|);
      var r := reader.Read(vals[|outs|]);
      outs := outs + [r];
    }
  }
}
