/** Ranges of bits in arrays of words (arch/bit_range_ops.h). A word is its bits,
    least significant first; the word size is the number of them. */
module BitRanges {
  import opened Arithmetic

  type Word = seq<bool>

  // ---------------------------------------------------------- operators of C

  function And(x: Word, y: Word): (r: Word)
    requires |x| == |y|
    ensures |r| == |x|
  {
    seq(|x|, i requires 0 <= i < |x| => x[i] && y[i])
  }

  function Or(x: Word, y: Word): (r: Word)
    requires |x| == |y|
    ensures |r| == |x|
  {
    seq(|x|, i requires 0 <= i < |x| => x[i] || y[i])
  }

  function Not(x: Word): (r: Word)
    ensures |r| == |x|
  {
    seq(|x|, i requires 0 <= i < |x| => !x[i])
  }

  /** A shift by the word size or more is undefined. */
  function Shl(x: Word, k: nat): (r: Word)
    requires k < |x|
    ensures |r| == |x|
  {
    seq(|x|, i requires 0 <= i < |x| => i >= k && x[i - k])
  }

  function Shr(x: Word, k: nat): (r: Word)
    requires k < |x|
    ensures |r| == |x|
  {
    seq(|x|, i requires 0 <= i < |x| => i + k < |x| && x[i + k])
  }

  /** A word whose low `bits` bits are set: (1 << bits) - 1, or -1. */
  function Ones(w: nat, bits: nat): (r: Word)
    ensures |r| == w
  {
    seq(w, i requires 0 <= i < w => i < bits)
  }

  function Zero(w: nat): Word {
    Ones(w, 0)
  }

  // ------------------------------------------------------- ranges in a word

  /** The word that starts at bit `bits` of the two words, the lower first. */
  function ShrdEmulated(low: Word, high: Word, bits: nat): (r: Word)
    requires |low| == |high| && bits < |low|
    ensures |r| == |low| && forall i {:trigger r[i]} :: 0 <= i < |r| ==> r[i] == if bits + i < |low| then low[bits + i] else high[bits + i - |low|]
  {
    if bits == 0 then low else Or(Shr(low, bits), Shl(high, |low| - bits))
  }

  function MaskLower(val: Word, bits: nat): (r: Word)
    ensures |r| == |val| && forall i {:trigger r[i]} :: 0 <= i < |r| ==> r[i] == (i < bits && val[i])
  {
    And(val, Ones(|val|, bits))
  }

  function ExtractBitRange(p0: Word, p1: Word, bit: nat, bits: nat): (r: Word)
    requires |p0| == |p1| && bit < |p0|
    ensures |r| == |p0| && forall i {:trigger r[i]} :: 0 <= i < |r| ==> r[i] == (i < bits && if bit + i < |p0| then p0[bit + i] else p1[bit + i - |p0|])
  {
    MaskLower(ShrdEmulated(p0, p1, bit), bits)
  }

  /** The mask is tested against 64 whatever the word size, and 1 is shifted as an
      int if the word is narrower than one; so just a word of 32 bits cannot be set
      as a whole. */
  predicate Maskable(w: nat, bits: nat) {
    bits >= 64 || bits < w || w <= 16
  }

  /** Of the four word sizes. */
  lemma MaskableIs(w: nat, bits: nat)
    requires w == 8 || w == 16 || w == 32 || w == 64
    requires bits <= w
    ensures Maskable(w, bits) <==> !(w == 32 && bits == 32)
  {
  }

  function SetBits(x: Word, val: Word, bit: nat, bits: nat): (r: Word)
    requires |val| == |x| && bit < |x| && bit + bits <= |x| && Maskable(|x|, bits)
    ensures |r| == |x| && forall i {:trigger r[i]} :: 0 <= i < |r| ==> r[i] == if bit <= i < bit + bits then val[i - bit] else x[i]
  {
    var mask := Shl(Ones(|x|, bits), bit);
    Or(And(x, Not(mask)), And(Shl(val, bit), mask))
  }

  /** The low `bits` bits of `x` set to those of `val` from `from` on. */
  function SetRest(x: Word, val: Word, from: nat, bits: nat): (r: Word)
    requires |val| == |x| && from < |x| && 0 < bits && from + bits <= |x| && Maskable(|x|, bits)
    ensures |r| == |x| && forall i {:trigger r[i]} :: 0 <= i < |r| ==> r[i] == if i < bits then val[from + i] else x[i]
  {
    SetBits(x, Shr(val, from), 0, bits)
  }

  /** The two words with `val` in the `bits` bits from `bit` on. */
  function SetBitRange(p0: Word, p1: Word, val: Word, bit: nat, bits: nat): (r: (Word, Word))
    requires |val| == |p0| == |p1| && bit < |p0| && bits <= |p0| && Maskable(|p0|, bits)
    ensures |r.0| == |p0| && |r.1| == |p1|
    ensures forall i {:trigger r.0[i]} :: 0 <= i < |p0| ==> r.0[i] == if bit <= i < bit + bits then val[i - bit] else p0[i]
    ensures forall i {:trigger r.1[i]} :: 0 <= i < |p0| ==> r.1[i] == if |p0| + i < bit + bits then val[|p0| + i - bit] else p1[i]
    ensures bit + bits <= |p0| ==> r.1 == p1
  {
    if bits == 0 then (p0, p1) else
    var bits0 := if bits <= |p0| - bit then bits else |p0| - bit;
    var bits1 := bits - bits0;
    (SetBits(p0, val, bit, bits0), if bits1 != 0 then SetRest(p1, val, bits0, bits1) else p1)
  }

  // ----------------------------------------------------------- bits in memory

  /** All words have `w` bits. */
  ghost predicate Words(mem: seq<Word>, w: nat) {
    w > 0 && forall k :: 0 <= k < |mem| ==> |mem[k]| == w
  }

  lemma InMemory(w: nat, n: nat, p: nat)
    requires w > 0 && p < n * w
    ensures p / w < n
  {
    DivIs(p, w);
    MulMono(n, if p / w >= n then p / w else n, w);
  }

  /** Bit `p` in the order of a stream: words from the least significant end, or
      from the most significant. */
  ghost function Stream(mem: seq<Word>, w: nat, p: nat, most: bool): bool
    requires Words(mem, w) && p < |mem| * w
  {
    InMemory(w, |mem|, p);
    mem[p / w][if most then w - 1 - p % w else p % w]
  }

  lemma StreamIn(mem: seq<Word>, w: nat, k: nat, j: nat, most: bool)
    requires Words(mem, w) && k < |mem| && j < w
    ensures k * w + j < |mem| * w && Stream(mem, w, k * w + j, most) == mem[k][if most then w - 1 - j else j]
  {
    Place(w, k, j);
    Before(w, |mem|, k, j);
  }

  lemma Before(w: nat, n: nat, k: nat, j: nat)
    requires k < n && j < w
    ensures k * w + j < n * w
  {
    MulMono(k + 1, n, w);
    assert (k + 1) * w == k * w + w;
  }

  /** Bit `i` of a value in the order of the stream. */
  function InOrder(val: Word, bits: nat, i: nat, most: bool): bool
    requires i < bits <= |val|
  {
    if most then val[bits - 1 - i] else val[i]
  }

  ghost predicate WrittenAt(before: seq<Word>, after: seq<Word>, w: nat, p: nat, val: Word, bits: nat, most: bool, q: nat)
    requires Words(before, w) && Words(after, w) && |before| == |after| && |val| == w && bits <= w && q < |before| * w
  {
    Stream(after, w, q, most) == if p <= q < p + bits then InOrder(val, bits, q - p, most) else Stream(before, w, q, most)
  }

  /** `bits` bits of `val` are at `p`, and every other bit is as it was. */
  ghost predicate Written(before: seq<Word>, after: seq<Word>, w: nat, p: nat, val: Word, bits: nat, most: bool) {
    && Words(before, w) && Words(after, w) && |before| == |after| && |val| == w && bits <= w && p + bits <= |before| * w
    && forall q :: 0 <= q < |before| * w ==> WrittenAt(before, after, w, p, val, bits, most, q)
  }

  /** What SetBitRange does to the two words at `k`, in stream order. */
  ghost predicate Replaced(before: seq<Word>, after: seq<Word>, w: nat, k: nat, o: nat, val: Word, bits: nat, most: bool) {
    && Words(before, w) && Words(after, w) && |before| == |after| && |val| == w && bits <= w && k < |before| && o < w
    && (o + bits > w ==> k + 1 < |before|)
    && (forall c :: 0 <= c < |before| && c != k && c != k + 1 ==> after[c] == before[c])
    && (o + bits <= w && k + 1 < |before| ==> after[k + 1] == before[k + 1])
    && (forall j :: 0 <= j < w ==> ReplacedAt(before, after, w, k, o, val, bits, most, j))
    && (o + bits > w ==> forall j :: w <= j < 2 * w ==> ReplacedAt(before, after, w, k, o, val, bits, most, j))
  }

  ghost predicate ReplacedAt(before: seq<Word>, after: seq<Word>, w: nat, k: nat, o: nat, val: Word, bits: nat, most: bool, j: nat)
    requires Words(before, w) && Words(after, w) && |before| == |after| && |val| == w && bits <= w && k < |before| && j < 2 * w
    requires j >= w ==> k + 1 < |before|
  {
    var c, i := if j < w then k else k + 1, if j < w then j else j - w;
    var at := if most then w - 1 - i else i;
    after[c][at] == if o <= j < o + bits then InOrder(val, bits, j - o, most) else before[c][at]
  }

  lemma ReplacedIsWritten(before: seq<Word>, after: seq<Word>, w: nat, k: nat, o: nat, p: nat, val: Word, bits: nat, most: bool)
    requires Replaced(before, after, w, k, o, val, bits, most) && p == k * w + o && p + bits <= |before| * w
    ensures Written(before, after, w, p, val, bits, most)
  {
    forall q | 0 <= q < |before| * w ensures WrittenAt(before, after, w, p, val, bits, most, q) {
      InMemory(w, |before|, q);
      DivIs(q, w);
      ReplacedBit(before, after, w, k, o, p, val, bits, most, q, q / w, q % w);
    }
  }

  lemma ReplacedBit(before: seq<Word>, after: seq<Word>, w: nat, k: nat, o: nat, p: nat, val: Word, bits: nat, most: bool, q: nat, c: nat, j: nat)
    requires Replaced(before, after, w, k, o, val, bits, most) && p == k * w + o
    requires c < |before| && j < w && q == c * w + j < |before| * w
    ensures WrittenAt(before, after, w, p, val, bits, most, q)
  {
    StreamIn(before, w, c, j, most);
    StreamIn(after, w, c, j, most);
    Distance(w, k, c);
    if c == k {
      assert ReplacedAt(before, after, w, k, o, val, bits, most, j);
    } else if c == k + 1 {
      if o + bits > w { assert ReplacedAt(before, after, w, k, o, val, bits, most, w + j); }
    } else {
      assert after[c] == before[c];
    }
  }

  /** How far word `c` is from word `k`, in bits. */
  lemma Distance(w: nat, k: nat, c: nat)
    ensures c < k ==> c * w + w <= k * w
    ensures c == k + 1 ==> c * w == k * w + w
    ensures c > k + 1 ==> k * w + 2 * w <= c * w
  {
    if c < k { MulMono(c + 1, k, w); }
    if c > k + 1 { MulMono(k + 2, c, w); }
  }

  // ---------------------------------------------------- writing, on two words

  /** The words at `k` and after it, set by write. */
  function Low(p0: Word, p1: Word, val: Word, o: nat, bits: nat): (r: (Word, Word))
    requires |val| == |p0| == |p1| && o < |p0| && 0 < bits <= |p0| && Maskable(|p0|, bits)
    ensures |r.0| == |p0| && |r.1| == |p1|
  {
    SetBitRange(p0, p1, val, o, bits)
  }

  /** The same, set by rwrite. */
  function High(p0: Word, p1: Word, val: Word, o: nat, bits: nat): (r: (Word, Word))
    requires |val| == |p0| == |p1| && o < |p0| && 0 < bits <= |p0| && Maskable(|p0|, bits)
    ensures |r.0| == |p0| && |r.1| == |p1|
  {
    var w := |p0|;
    if bits + o <= w then (SetBits(p0, val, w - (o + bits), bits), p1)
    else
      var r := SetBitRange(p1, p0, val, 2 * w - (o + bits), bits);
      (r.1, r.0)
  }

  /** Both put the value's bits in stream order. */
  ghost predicate Puts(p0: Word, p1: Word, r: (Word, Word), val: Word, o: nat, bits: nat, most: bool)
    requires |val| == |p0| == |p1| == |r.0| == |r.1| && bits <= |p0|
  {
    && (forall j :: 0 <= j < |p0| ==> PutsAt(p0, r.0, 0, val, o, bits, most, j))
    && (forall j :: 0 <= j < |p0| ==> PutsAt(p1, r.1, |p0|, val, o, bits, most, j))
  }

  ghost predicate PutsAt(x: Word, y: Word, base: nat, val: Word, o: nat, bits: nat, most: bool, j: nat)
    requires |x| == |y| == |val| && bits <= |x| && j < |x|
  {
    var at := if most then |x| - 1 - j else j;
    y[at] == if o <= base + j < o + bits then InOrder(val, bits, base + j - o, most) else x[at]
  }

  lemma LowPuts(p0: Word, p1: Word, val: Word, o: nat, bits: nat)
    requires |val| == |p0| == |p1| && o < |p0| && 0 < bits <= |p0| && Maskable(|p0|, bits)
    ensures Puts(p0, p1, Low(p0, p1, val, o, bits), val, o, bits, false)
    ensures o + bits <= |p0| ==> Low(p0, p1, val, o, bits).1 == p1
  {
  }

  lemma HighPuts(p0: Word, p1: Word, val: Word, o: nat, bits: nat)
    requires |val| == |p0| == |p1| && o < |p0| && 0 < bits <= |p0| && Maskable(|p0|, bits)
    ensures Puts(p0, p1, High(p0, p1, val, o, bits), val, o, bits, true)
    ensures o + bits <= |p0| ==> High(p0, p1, val, o, bits).1 == p1
  {
    var w, r := |p0|, High(p0, p1, val, o, bits);
    if bits + o <= w { HighInOne(p0, p1, val, o, bits); }
  }

  lemma HighInOne(p0: Word, p1: Word, val: Word, o: nat, bits: nat)
    requires |val| == |p0| == |p1| && o < |p0| && 0 < bits && bits + o <= |p0| && Maskable(|p0|, bits)
    ensures Puts(p0, p1, High(p0, p1, val, o, bits), val, o, bits, true)
  {
  }

  function Put(p0: Word, p1: Word, val: Word, o: nat, bits: nat, most: bool): (r: (Word, Word))
    requires |val| == |p0| == |p1| && o < |p0| && 0 < bits <= |p0| && Maskable(|p0|, bits)
    ensures |r.0| == |p0| && |r.1| == |p1|
  {
    if most then High(p0, p1, val, o, bits) else Low(p0, p1, val, o, bits)
  }

  lemma PutPuts(p0: Word, p1: Word, val: Word, o: nat, bits: nat, most: bool)
    requires |val| == |p0| == |p1| && o < |p0| && 0 < bits <= |p0| && Maskable(|p0|, bits)
    ensures Puts(p0, p1, Put(p0, p1, val, o, bits, most), val, o, bits, most)
    ensures o + bits <= |p0| ==> Put(p0, p1, val, o, bits, most).1 == p1
  {
    LowPuts(p0, p1, val, o, bits);
    HighPuts(p0, p1, val, o, bits);
  }

  /** Memory after the two words at `k` are set; the second only if the range
      reaches it. */
  lemma PutsIsWritten(before: seq<Word>, after: seq<Word>, w: nat, k: nat, o: nat, p: nat, p1: Word, r: (Word, Word), val: Word, bits: nat, most: bool)
    requires Words(before, w) && k < |before| && o < w && |val| == |p1| == w && bits <= w && p == k * w + o && p + bits <= |before| * w
    requires o + bits > w ==> k + 1 < |before| && p1 == before[k + 1]
    requires |r.0| == |r.1| == w && Puts(before[k], p1, r, val, o, bits, most)
    requires after == if o + bits > w then before[k := r.0][k + 1 := r.1] else before[k := r.0]
    ensures Written(before, after, w, p, val, bits, most)
  {
    forall j | 0 <= j < w ensures ReplacedAt(before, after, w, k, o, val, bits, most, j) {
      assert PutsAt(before[k], r.0, 0, val, o, bits, most, j);
    }
    if o + bits > w {
      forall j | w <= j < 2 * w ensures ReplacedAt(before, after, w, k, o, val, bits, most, j) {
        assert PutsAt(p1, r.1, w, val, o, bits, most, j - w);
      }
    }
    ReplacedIsWritten(before, after, w, k, o, p, val, bits, most);
  }

  /** Memory with the range at word `k`, bit `o` set. */
  ghost function SetIn(mem: seq<Word>, w: nat, k: nat, o: nat, val: Word, bits: nat, most: bool): seq<Word>
    requires Words(mem, w) && o < w && |val| == w && 0 < bits <= w && Maskable(w, bits)
    requires k < |mem| && (o + bits > w ==> k + 1 < |mem|)
  {
    var r := Put(mem[k], if k + 1 < |mem| then mem[k + 1] else Zero(w), val, o, bits, most);
    if o + bits > w then mem[k := r.0][k + 1 := r.1] else mem[k := r.0]
  }

  lemma SetIsWritten(mem: seq<Word>, w: nat, k: nat, o: nat, p: nat, val: Word, bits: nat, most: bool)
    requires Words(mem, w) && o < w && |val| == w && 0 < bits <= w && Maskable(w, bits)
    requires k < |mem| && (o + bits > w ==> k + 1 < |mem|) && p == k * w + o && p + bits <= |mem| * w
    ensures Written(mem, SetIn(mem, w, k, o, val, bits, most), w, p, val, bits, most)
  {
    var p1 := if k + 1 < |mem| then mem[k + 1] else Zero(w);
    PutPuts(mem[k], p1, val, o, bits, most);
    PutsIsWritten(mem, SetIn(mem, w, k, o, val, bits, most), w, k, o, p, p1, Put(mem[k], p1, val, o, bits, most), val, bits, most);
  }

  /** Where a range that fits in memory is. */
  lemma Reach(w: nat, n: nat, k: nat, o: nat, bits: nat)
    requires o < w && 0 < bits <= w && k * w + o + bits <= n * w
    ensures k < n && (o + bits > w ==> k + 1 < n)
  {
    if n <= k { MulMono(n, k, w); }
    if n == k + 1 { assert (k + 1) * w == k * w + w; }
  }

  /** The cursor `bits` further on. */
  lemma Skipped(w: nat, k: nat, o: nat, bits: nat)
    requires w > 0
    ensures (k + (o + bits) / w) * w + (o + bits) % w == k * w + o + bits && (o + bits) % w < w
  {
    DivIs(o + bits, w);
    assert (k + (o + bits) / w) * w == k * w + ((o + bits) / w) * w;
  }

  // ------------------------------------------------------------- Bit_Writer

  class BitWriter {
    const w: nat
    const data: array<Word>
    var at: nat          // the data pointer
    var bitOfs: nat

    ghost predicate Valid()
      reads this, data
    {
      Words(data[..], w) && bitOfs < w
    }

    ghost function Pos(): nat
      reads this
    {
      at * w + bitOfs
    }

    constructor (w: nat, data: array<Word>)
      requires Words(data[..], w)
      ensures Valid() && Pos() == 0 && this.data == data && this.w == w
    {
      this.w, this.data, at, bitOfs := w, data, 0, 0;
    }

    method Skip(bits: nat)
      requires bitOfs < w
      modifies this
      ensures bitOfs < w && Pos() == old(Pos()) + bits
    {
      Skipped(w, at, bitOfs, bits);
      at := at + (bitOfs + bits) / w;
      bitOfs := (bitOfs + bits) % w;
    }

    /** write, or rwrite when the stream is filled from the most significant end. */
    method Write(val: Word, bits: nat, most: bool)
      requires Valid() && |val| == w && bits <= w && Maskable(w, bits) && Pos() + bits <= data.Length * w
      modifies this, data
      ensures Valid() && Pos() == old(Pos()) + bits
      ensures Written(old(data[..]), data[..], w, old(Pos()), val, bits, most)
    {
      if bits == 0 {
        NoBits(data[..], w, Pos(), val, most);
        return;
      }
      Reach(w, data.Length, at, bitOfs, bits);
      ghost var before := data[..];
      SetWords(val, bits, most);
      SetIsWritten(before, w, at, bitOfs, Pos(), val, bits, most);
      Skip(bits);
    }

    method SetWords(val: Word, bits: nat, most: bool)
      requires Valid() && |val| == w && 0 < bits <= w && Maskable(w, bits)
      requires at < data.Length && (bitOfs + bits > w ==> at + 1 < data.Length)
      modifies data
      ensures data[..] == SetIn(old(data[..]), w, at, bitOfs, val, bits, most)
    {
      var p0, p1 := data[at], Zero(w);
      if at + 1 < data.Length { p1 := data[at + 1]; }
      assert p0 == data[..][at] && (at + 1 < data.Length ==> p1 == data[..][at + 1]);
      var r := Put(p0, p1, val, bitOfs, bits, most);
      Store(r, bitOfs + bits > w);
    }

    method Store(r: (Word, Word), both: bool)
      requires at < data.Length && (both ==> at + 1 < data.Length)
      modifies data
      ensures data[..] == if both then old(data[..])[at := r.0][at + 1 := r.1] else old(data[..])[at := r.0]
    {
      data[at] := r.0;
      if both { data[at + 1] := r.1; }
    }
  }

  lemma NoBits(mem: seq<Word>, w: nat, p: nat, val: Word, most: bool)
    requires Words(mem, w) && |val| == w && p <= |mem| * w
    ensures Written(mem, mem, w, p, val, 0, most)
  {
    forall q | 0 <= q < |mem| * w ensures WrittenAt(mem, mem, w, p, val, 0, most, q) {}
  }

  // ---------------------------------------------------------------- reading

  ghost predicate FieldAt(mem: seq<Word>, w: nat, p: nat, bits: nat, most: bool, r: Word, i: nat)
    requires Words(mem, w) && bits <= w == |r| && p + bits <= |mem| * w && i < w
  {
    r[i] == (i < bits && Stream(mem, w, p + (if most then bits - 1 - i else i), most))
  }

  /** `r` is the number that is kept in the `bits` bits at `p`. */
  ghost predicate Field(mem: seq<Word>, w: nat, p: nat, bits: nat, most: bool, r: Word) {
    && Words(mem, w) && bits <= w == |r| && p + bits <= |mem| * w
    && forall i :: 0 <= i < w ==> FieldAt(mem, w, p, bits, most, r, i)
  }

  /** There is only one such number. */
  lemma FieldUnique(mem: seq<Word>, w: nat, p: nat, bits: nat, most: bool, r: Word, s: Word)
    requires Field(mem, w, p, bits, most, r) && Field(mem, w, p, bits, most, s)
    ensures r == s
  {
    forall i | 0 <= i < w ensures r[i] == s[i] {
      assert FieldAt(mem, w, p, bits, most, r, i) && FieldAt(mem, w, p, bits, most, s, i);
    }
  }

  /** What extract takes out of the two words at the cursor. */
  function Extracted(curr: Word, next: Word, o: nat, bits: nat): (r: Word)
    requires |curr| == |next| && o < |curr| && 0 < bits <= |curr|
    ensures |r| == |curr| && forall i {:trigger r[i]} :: 0 <= i < |r| ==> r[i] == (i < bits && InTwo(curr, next, o + i, false))
  {
    if o + bits <= |curr| then ExtractBitRange(curr, Zero(|curr|), o, bits) else ExtractBitRange(curr, next, o, bits)
  }

  /** What rextract takes out. */
  function RExtracted(curr: Word, next: Word, o: nat, bits: nat): (r: Word)
    requires |curr| == |next| && o < |curr| && 0 < bits <= |curr|
    ensures |r| == |curr|
    ensures forall i {:trigger r[i]} :: 0 <= i < |r| ==>
              r[i] == (i < bits && if o + bits - i <= |curr| then curr[|curr| + i - (o + bits)] else next[2 * |curr| + i - (o + bits)])
  {
    if o + bits <= |curr| then ExtractBitRange(curr, Zero(|curr|), |curr| - (o + bits), bits)
    else ExtractBitRange(next, curr, 2 * |curr| - (o + bits), bits)
  }

  /** Bit `i` of what is taken is the bit of the two words that is as far on in
      the order of the stream. */
  ghost predicate TakenAt(curr: Word, next: Word, o: nat, bits: nat, most: bool, r: Word, i: nat)
    requires |curr| == |next| == |r| && o < |curr| && 0 < bits <= |curr| && i < |curr|
  {
    r[i] == (i < bits && InTwo(curr, next, o + (if most then bits - 1 - i else i), most))
  }

  lemma RTakenAt(curr: Word, next: Word, o: nat, bits: nat, r: Word, i: nat)
    requires |curr| == |next| == |r| && o < |curr| && 0 < bits <= |curr| && i < |curr|
    requires r[i] == (i < bits && if o + bits - i <= |curr| then curr[|curr| + i - (o + bits)] else next[2 * |curr| + i - (o + bits)])
    ensures TakenAt(curr, next, o, bits, true, r, i)
  {
  }

  ghost predicate TakenBits(curr: Word, next: Word, o: nat, bits: nat, most: bool, r: Word)
  {
    && |curr| == |next| == |r| && o < |curr| && 0 < bits <= |curr|
    && forall i :: 0 <= i < |r| ==> TakenAt(curr, next, o, bits, most, r, i)
  }

  lemma ETakenBits(curr: Word, next: Word, o: nat, bits: nat)
    requires |curr| == |next| && o < |curr| && 0 < bits <= |curr|
    ensures TakenBits(curr, next, o, bits, false, Extracted(curr, next, o, bits))
  {
    var r := Extracted(curr, next, o, bits);
    forall i | 0 <= i < |r| ensures TakenAt(curr, next, o, bits, false, r, i) {}
  }

  lemma RTakenBits(curr: Word, next: Word, o: nat, bits: nat)
    requires |curr| == |next| && o < |curr| && 0 < bits <= |curr|
    ensures TakenBits(curr, next, o, bits, true, RExtracted(curr, next, o, bits))
  {
    var r := RExtracted(curr, next, o, bits);
    forall i | 0 <= i < |r| ensures TakenAt(curr, next, o, bits, true, r, i) {
      RTakenAt(curr, next, o, bits, r, i);
    }
  }

  function InTwo(curr: Word, next: Word, j: nat, most: bool): bool
    requires |curr| == |next| && j < 2 * |curr|
  {
    var x, i := if j < |curr| then curr else next, if j < |curr| then j else j - |curr|;
    x[if most then |curr| - 1 - i else i]
  }

  lemma TakenIsField(mem: seq<Word>, w: nat, k: nat, o: nat, p: nat, next: Word, bits: nat, most: bool, r: Word)
    requires Words(mem, w) && o < w && 0 < bits <= w && p == k * w + o && p + bits <= |mem| * w
    requires k < |mem| && |next| == w && (o + bits > w ==> k + 1 < |mem| && next == mem[k + 1])
    requires TakenBits(mem[k], next, o, bits, most, r)
    ensures Field(mem, w, p, bits, most, r)
  {
    forall i | 0 <= i < w ensures FieldAt(mem, w, p, bits, most, r, i) {
      assert TakenAt(mem[k], next, o, bits, most, r, i);
      if i < bits {
        var j := if most then bits - 1 - i else i;
        TwoInStream(mem, w, k, p - o, next, o + j, most);
        assert (p - o) + (o + j) == p + j;
      }
    }
  }

  lemma TwoInStream(mem: seq<Word>, w: nat, k: nat, base: nat, next: Word, j: nat, most: bool)
    requires Words(mem, w) && k < |mem| && |next| == w && j < 2 * w && base == k * w && base + j < |mem| * w
    requires j >= w ==> k + 1 < |mem| && next == mem[k + 1]
    ensures Stream(mem, w, base + j, most) == InTwo(mem[k], next, j, most)
  {
    if j < w {
      StreamIn(mem, w, k, j, most);
    } else {
      StreamIn(mem, w, k + 1, j - w, most);
      assert (k + 1) * w == base + w;
    }
  }

  // --------------------------------------------------------------- round trip

  /** What was written is what is there ... */
  lemma WrittenIsField(before: seq<Word>, after: seq<Word>, w: nat, p: nat, val: Word, bits: nat, most: bool)
    requires Written(before, after, w, p, val, bits, most)
    ensures Field(after, w, p, bits, most, MaskLower(val, bits))
  {
    var r := MaskLower(val, bits);
    forall i | 0 <= i < w ensures FieldAt(after, w, p, bits, most, r, i) {
      if i < bits {
        var j := if most then bits - 1 - i else i;
        assert WrittenAt(before, after, w, p, val, bits, most, p + j);
      }
    }
  }

  /** ... and any other field is as it was. */
  lemma WrittenKeeps(before: seq<Word>, after: seq<Word>, w: nat, p: nat, val: Word, bits: nat, most: bool, q: nat, size: nat, r: Word)
    requires Written(before, after, w, p, val, bits, most) && Field(before, w, q, size, most, r)
    requires q + size <= p || p + bits <= q
    ensures Field(after, w, q, size, most, r)
  {
    forall i | 0 <= i < w ensures FieldAt(after, w, q, size, most, r, i) {
      assert FieldAt(before, w, q, size, most, r, i);
      if i < size {
        assert WrittenAt(before, after, w, p, val, bits, most, q + (if most then size - 1 - i else i));
      }
    }
  }

  datatype Item = Item(val: Word, bits: nat)

  /** The bits of the first `n` items. */
  function Total(items: seq<Item>, n: nat): nat
    requires n <= |items|
  {
    if n == 0 then 0 else Total(items, n - 1) + items[n - 1].bits
  }

  lemma {:induction false} TotalGrows(items: seq<Item>, m: nat, n: nat)
    requires m <= n <= |items|
    ensures Total(items, m) <= Total(items, n)
    decreases n
  {
    if m < n { TotalGrows(items, m, n - 1); }
  }

  ghost predicate Fit(items: seq<Item>, w: nat) {
    forall i :: 0 <= i < |items| ==> |items[i].val| == w && items[i].bits <= w && Maskable(w, items[i].bits)
  }

  ghost predicate Stored(mem: seq<Word>, w: nat, p: nat, items: seq<Item>, most: bool, i: nat)
    requires i < |items| && |items[i].val| == w
  {
    Field(mem, w, p + Total(items, i), items[i].bits, most, MaskLower(items[i].val, items[i].bits))
  }

  class BitBuffer {
    const w: nat
    const data: array<Word>
    var at: nat
    var bitOfs: nat

    ghost predicate Valid()
      reads this, data
    {
      Words(data[..], w) && bitOfs < w
    }

    ghost function Pos(): nat
      reads this
    {
      at * w + bitOfs
    }

    constructor (w: nat, data: array<Word>)
      requires Words(data[..], w)
      ensures Valid() && Pos() == 0 && this.data == data && this.w == w
    {
      this.w, this.data, at, bitOfs := w, data, 0, 0;
    }

    method Advance(bits: nat)
      requires bitOfs < w
      modifies this
      ensures bitOfs < w && Pos() == old(Pos()) + bits
    {
      Skipped(w, at, bitOfs, bits);
      at := at + (bitOfs + bits) / w;
      bitOfs := (bitOfs + bits) % w;
    }

    /** extract, or rextract when the stream starts at the most significant end. */
    method Extract(bits: nat, most: bool) returns (r: Word)
      requires Valid() && bits <= w && Pos() + bits <= data.Length * w
      modifies this
      ensures Valid() && Pos() == old(Pos()) + bits
      ensures Field(data[..], w, old(Pos()), bits, most, r)
    {
      if bits == 0 {
        r := Zero(w);
        NoField(data[..], w, Pos(), most);
        return;
      }
      Reach(w, data.Length, at, bitOfs, bits);
      r := Take(bits, most);
      Advance(bits);
    }

    method Take(bits: nat, most: bool) returns (r: Word)
      requires Valid() && 0 < bits <= w && Pos() + bits <= data.Length * w
      requires at < data.Length && (bitOfs + bits > w ==> at + 1 < data.Length)
      ensures Field(data[..], w, Pos(), bits, most, r)
    {
      var curr, next := data[at], Zero(w);
      if bitOfs + bits > w { next := data[at + 1]; }
      if most { RTakenBits(curr, next, bitOfs, bits); } else { ETakenBits(curr, next, bitOfs, bits); }
      r := if most then RExtracted(curr, next, bitOfs, bits) else Extracted(curr, next, bitOfs, bits);
      TakenIsField(data[..], w, at, bitOfs, Pos(), next, bits, most, r);
    }
  }

  lemma NoField(mem: seq<Word>, w: nat, p: nat, most: bool)
    requires Words(mem, w) && p <= |mem| * w
    ensures Field(mem, w, p, 0, most, Zero(w))
  {
    forall i | 0 <= i < w ensures FieldAt(mem, w, p, 0, most, Zero(w), i) {}
  }

  // ------------------------------------------------------------ whole streams

  ghost predicate SameAt(before: seq<Word>, after: seq<Word>, w: nat, most: bool, q: nat)
    requires Words(before, w) && Words(after, w) && |before| == |after| && q < |before| * w
  {
    Stream(after, w, q, most) == Stream(before, w, q, most)
  }

  /** Nothing outside the bits from `lo` to `hi` has changed. */
  ghost predicate Outside(before: seq<Word>, after: seq<Word>, w: nat, most: bool, lo: nat, hi: nat) {
    && Words(before, w) && Words(after, w) && |before| == |after|
    && forall q :: 0 <= q < |before| * w && !(lo <= q < hi) ==> SameAt(before, after, w, most, q)
  }

  lemma OutsideGrows(before: seq<Word>, mid: seq<Word>, after: seq<Word>, w: nat, most: bool, lo: nat, p: nat, val: Word, bits: nat)
    requires Outside(before, mid, w, most, lo, p) && Written(mid, after, w, p, val, bits, most) && lo <= p
    ensures Outside(before, after, w, most, lo, p + bits)
  {
    forall q | 0 <= q < |before| * w && !(lo <= q < p + bits) ensures SameAt(before, after, w, most, q) {
      assert SameAt(before, mid, w, most, q) && WrittenAt(mid, after, w, p, val, bits, most, q);
    }
  }

  lemma StoredGrows(before: seq<Word>, after: seq<Word>, w: nat, start: nat, items: seq<Item>, k: nat, p: nat, val: Word, bits: nat, most: bool)
    requires Fit(items, w) && k < |items| && p == start + Total(items, k) && Item(val, bits) == items[k]
    requires Written(before, after, w, p, val, bits, most)
    requires forall i :: 0 <= i < k ==> Stored(before, w, start, items, most, i)
    ensures forall i :: 0 <= i < k + 1 ==> Stored(after, w, start, items, most, i)
  {
    forall i | 0 <= i < k + 1 ensures Stored(after, w, start, items, most, i) {
      if i < k {
        StoredKept(before, after, w, start, items, i, k, p, val, bits, most);
      } else {
        StoredNew(before, after, w, start, items, k, p, val, bits, most);
      }
    }
  }

  lemma StoredNew(before: seq<Word>, after: seq<Word>, w: nat, start: nat, items: seq<Item>, k: nat, p: nat, val: Word, bits: nat, most: bool)
    requires k < |items| && p == start + Total(items, k) && Item(val, bits) == items[k] && |val| == w
    requires Written(before, after, w, p, val, bits, most)
    ensures Stored(after, w, start, items, most, k)
  {
    WrittenIsField(before, after, w, p, val, bits, most);
  }

  lemma StoredKept(before: seq<Word>, after: seq<Word>, w: nat, start: nat, items: seq<Item>, i: nat, k: nat, p: nat, val: Word, bits: nat, most: bool)
    requires i < k <= |items| && |items[i].val| == w && p == start + Total(items, k)
    requires Written(before, after, w, p, val, bits, most) && Stored(before, w, start, items, most, i)
    ensures Stored(after, w, start, items, most, i)
  {
    TotalGrows(items, i + 1, k);
    WrittenKeeps(before, after, w, p, val, bits, most, start + Total(items, i), items[i].bits, MaskLower(items[i].val, items[i].bits));
  }

  /** Any items, with any widths, written one after the other from bit `start`. */
  method WriteAll(w: nat, data: array<Word>, start: nat, items: seq<Item>, most: bool)
    requires Words(data[..], w) && Fit(items, w) && start + Total(items, |items|) <= data.Length * w
    modifies data
    ensures Words(data[..], w) && forall i :: 0 <= i < |items| ==> Stored(data[..], w, start, items, most, i)
    ensures Outside(old(data[..]), data[..], w, most, start, start + Total(items, |items|))
  {
    var writer := new BitWriter(w, data);
    writer.Skip(start);
    assert forall q :: 0 <= q < data.Length * w ==> SameAt(data[..], data[..], w, most, q);
    var k := 0;
    while k < |items|
      invariant k <= |items| && writer.Valid() && writer.data == data && writer.w == w && fresh(writer)
      invariant writer.Pos() == start + Total(items, k)
      invariant forall i :: 0 <= i < k ==> Stored(data[..], w, start, items, most, i)
      invariant Outside(old(data[..]), data[..], w, most, start, start + Total(items, k))
    {
      ghost var before, p := data[..], writer.Pos();
      TotalGrows(items, k + 1, |items|);
      writer.Write(items[k].val, items[k].bits, most);
      StoredGrows(before, data[..], w, start, items, k, p, items[k].val, items[k].bits, most);
      OutsideGrows(old(data[..]), before, data[..], w, most, start, p, items[k].val, items[k].bits);
      k := k + 1;
    }
  }

  /** Read back with the same widths, every value's low bits come out. */
  method ReadAll(w: nat, data: array<Word>, start: nat, items: seq<Item>, most: bool) returns (outs: seq<Word>)
    requires Words(data[..], w) && Fit(items, w) && start + Total(items, |items|) <= data.Length * w
    requires forall i :: 0 <= i < |items| ==> Stored(data[..], w, start, items, most, i)
    ensures |outs| == |items| && forall i :: 0 <= i < |items| ==> outs[i] == MaskLower(items[i].val, items[i].bits)
  {
    var buffer := new BitBuffer(w, data);
    buffer.Advance(start);
    outs := [];
    while |outs| < |items|
      invariant |outs| <= |items| && buffer.Valid() && buffer.data == data && buffer.w == w && fresh(buffer)
      invariant buffer.Pos() == start + Total(items, |outs|)
      invariant forall i :: 0 <= i < |outs| ==> outs[i] == MaskLower(items[i].val, items[i].bits)
    {
      var k := |outs|;
      TotalGrows(items, k + 1, |items|);
      var r := buffer.Extract(items[k].bits, most);
      assert Stored(data[..], w, start, items, most, k);
      FieldUnique(data[..], w, start + Total(items, k), items[k].bits, most, r, MaskLower(items[k].val, items[k].bits));
      outs := outs + [r];
    }
  }

  /** The mixed-width round trip, from either end, with its frame. */
  method RoundTrip(w: nat, data: array<Word>, start: nat, items: seq<Item>, most: bool) returns (outs: seq<Word>)
    requires Words(data[..], w) && Fit(items, w) && start + Total(items, |items|) <= data.Length * w
    modifies data
    ensures |outs| == |items| && forall i :: 0 <= i < |items| ==> outs[i] == MaskLower(items[i].val, items[i].bits)
    ensures Outside(old(data[..]), data[..], w, most, start, start + Total(items, |items|))
  {
    WriteAll(w, data, start, items, most);
    outs := ReadAll(w, data, start, items, most);
  }

  // ------------------------------------------------- buffered memory cursor

  /** Keeps the two words at the cursor; it must give what the memory has there. */
  class BufferedMemBuffer {
    const data: seq<Word>
    var at: int
    var b0: Word
    var b1: Word

    ghost predicate Valid()
      reads this
    {
      0 <= at && at + 1 < |data| && b0 == data[at] && b1 == data[at + 1]
    }

    constructor (data: seq<Word>)
      requires |data| >= 2
      ensures Valid() && at == 0 && this.data == data
    {
      this.data, at, b0, b1 := data, 0, data[0], data[1];
    }

    /** operator += agrees with the simple cursor, for any offset. */
    method Skip(offset: int)
      requires Valid() && 0 <= at + offset && at + offset + 1 < |data|
      modifies this
      ensures Valid() && at == old(at) + offset
    {
      at := at + offset;
      b0 := if offset == 0 then b0 else if offset == 1 then b1 else data[at];
      b1 := if offset == 0 then b1 else data[at + 1];
    }

    /** operator ++ does not advance the data pointer: the words it buffers are
        those one further on only if that next word is repeated. */
    method Increment()
      requires Valid() && at + 2 < |data|
      modifies this
      ensures at == old(at) && b0 == data[at + 1]
      ensures b0 == data[old(at) + 1] && b1 == data[old(at) + 2] <==> data[old(at) + 1] == data[old(at) + 2]
    {
      b0 := b1;
      b1 := data[at + 1];
    }
  }
}
