/** Products and remainders of variables, and sizes of sets. */
module Arithmetic {

  lemma {:induction false} MulMono(a: nat, b: nat, w: nat)
    requires a <= b
    ensures a * w <= b * w
    decreases b
  {
    if a < b { MulMono(a, b - 1, w); }
  }

  lemma DivIs(p: nat, w: nat)
    requires w > 0
    ensures p == (p / w) * w + p % w && p % w < w
  {
  }

  /** Quotient and remainder are the only such numbers. */
  lemma Place(w: nat, k: nat, j: nat)
    requires j < w
    ensures (k * w + j) / w == k && (k * w + j) % w == j
  {
    var q := (k * w + j) / w;
    DivIs(k * w + j, w);
    MulMono(q + 1, if k > q then k else q + 1, w);
    MulMono(k + 1, if q > k then q else k + 1, w);
    assert (q + 1) * w == q * w + w && (k + 1) * w == k * w + w;
  }

  /** The sizes of two sets that differ in one element at most. */
  lemma ChangedAt(s: set<nat>, t: set<nat>, x: nat)
    requires s - {x} == t - {x}
    ensures |t| + (if x in s then 1 else 0) == |s| + if x in t then 1 else 0
  {
    var rest := s - {x};
    assert s == if x in s then rest + {x} else rest;
    assert t == if x in t then rest + {x} else rest;
  }
}
