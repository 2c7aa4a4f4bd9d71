/** Nonlinear facts the solver is only asked about in isolation. */
module Arith {

  lemma MulLeft(a: nat, b: nat, w: nat)
    requires a <= b
    ensures a * w <= b * w
  {
  }

  lemma MulStep(a: int, w: int)
    ensures (a + 1) * w == a * w + w
  {
  }

  lemma ZeroTimes(q: nat, w: nat)
    ensures q == 0 ==> q * w == 0
  {
  }

  lemma DivModUnique(x: nat, w: nat, q: nat, r: nat)
    requires w > 0 && r < w && x == q * w + r
    ensures x / w == q && x % w == r
  {
    var dq := x / w - q;
    assert dq * w == r - x % w;
  }

  lemma DivMod(x: nat, w: nat)
    requires w > 0
    ensures x == (x / w) * w + x % w && x % w < w
  {
  }

  lemma ShiftByWidth(x: nat, w: nat)
    requires w > 0
    ensures (x + w) / w == x / w + 1 && (x + w) % w == x % w
  {
    DivMod(x, w);
    MulStep(x / w, w);
    DivModUnique(x + w, w, x / w + 1, x % w);
  }

  /** Within n rows of w columns, only the far end divides to a row outside. */
  lemma QuotientInside(x: nat, w: nat, n: nat)
    requires w > 0 && x <= n * w
    ensures x / w <= n
    ensures x / w < n <==> x != n * w
  {
    DivMod(x, w);
    if x / w < n {
      MulLeft(x / w + 1, n, w);
      MulStep(x / w, w);
    } else {
      MulLeft(n, x / w, w);
      if x / w > n {
        MulLeft(n + 1, x / w, w);
        MulStep(n, w);
      }
    }
  }

  /** A cell at least a full row past `below` is not where a position short of that divides to. */
  lemma QuotientEarlier(q: nat, r: nat, w: nat, below: nat, pos: nat)
    requires w > 0 && q * w + r >= below && pos < w + below
    ensures !(q + 1 == pos / w && r == pos % w)
  {
    DivMod(pos, w);
    MulStep(q, w);
  }

  lemma StepResidue(x: nat, n: nat, q: nat, r: nat)
    requires r < n && x == q * n + r
    ensures (x + 1) % n == if r + 1 < n then r + 1 else 0
  {
    MulStep(q, n);
    if r + 1 < n { DivModUnique(x + 1, n, q, r + 1); } else { DivModUnique(x + 1, n, q + 1, 0); }
  }

  lemma NextResidue(x: nat, n: nat)
    requires n > 0
    ensures (x + 1) % n == if x % n + 1 < n then x % n + 1 else 0
  {
    DivMod(x, n);
    StepResidue(x, n, x / n, x % n);
  }
}
