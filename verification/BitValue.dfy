/** The numbers that rows of bits stand for, and with them what a written field
    reads back as. */
module BitValue {
  import opened Prelude
  import opened BitField

  /** The number in the lowest n bits. */
  function Low(w: Word, n: nat): nat
    requires n <= 64
  {
    if n == 0 then 0 else Low(w, n - 1) + if w[n - 1] then Pow2(n - 1) else 0
  }

  /** The word as an unsigned long long, and as a long long. */
  function Unsigned(w: Word): nat { Low(w, 64) }

  function Signed(w: Word): int { if w[63] then Unsigned(w) - Pow2(64) else Unsigned(w) }

  lemma {:induction false} LowBelow(w: Word, n: nat)
    requires n <= 64
    ensures Low(w, n) < Pow2(n)
  {
    if n > 0 { LowBelow(w, n - 1); }
  }

  lemma {:induction false} LowAgrees(w: Word, x: Word, n: nat)
    requires n <= 64 && forall i :: 0 <= i < n ==> w[i] == x[i]
    ensures Low(w, n) == Low(x, n)
  {
    if n > 0 { LowAgrees(w, x, n - 1); }
  }

  lemma TimesAtLeast(m: nat, k: nat)
    requires k > 0
    ensures m * k >= m
  {
  }

  lemma QuotientIs(m: nat, low: nat, q: nat, rest: nat, d: nat)
    requires low < m && rest < m && low + m * q == rest + m * d
    ensures low == rest
  {
    assert m * (q - d) == m * q - m * d;
    if q > d {
      TimesAtLeast(m, q - d);
    } else if q < d {
      assert m * (d - q) == m * d - m * q;
      TimesAtLeast(m, d - q);
    }
  }

  lemma ModPlus(x: nat, m: nat)
    requires m > 0
    ensures (x + m) % m == x % m
  {
    assert m * (x / m + 1) == m * (x / m) + m;
    QuotientIs(m, x % m, x / m + 1, (x + m) % m, (x + m) / m);
  }

  lemma ModSmall(x: nat, m: nat)
    requires x < m
    ensures x % m == x
  {
  }

  function Times(m: nat, q: nat): nat { if q == 0 then 0 else m + Times(m, q - 1) }

  lemma {:induction false} TimesAdd(m: nat, p: nat, q: nat)
    ensures Times(m, p + q) == Times(m, p) + Times(m, q)
    decreases p
  {
    if p > 0 { TimesAdd(m, p - 1, q); }
  }

  lemma {:induction false} ModTimes(x: nat, m: nat, q: nat)
    requires m > 0
    ensures (x + Times(m, q)) % m == x % m
    decreases q
  {
    if q > 0 {
      ModTimes(x, m, q - 1);
      ModPlus(x + Times(m, q - 1), m);
    }
  }

  lemma {:induction false} PowerTimes(k: nat, n: nat) returns (q: nat)
    requires k <= n
    ensures Pow2(n) == Times(Pow2(k), q)
    decreases n
  {
    if k == n {
      q := 1;
      assert Times(Pow2(k), 0) == 0;
    } else {
      var p := PowerTimes(k, n - 1);
      TimesAdd(Pow2(k), p, p);
      q := p + p;
    }
  }

  /** A higher power of two does not change a remainder. */
  lemma ModPlusPower(x: nat, k: nat, n: nat)
    requires k <= n
    ensures (x + Pow2(n)) % Pow2(k) == x % Pow2(k)
  {
    var q := PowerTimes(k, n);
    ModTimes(x, Pow2(k), q);
  }

  lemma {:induction false} LowRemainder(w: Word, k: nat, n: nat)
    requires k <= n <= 64
    ensures Low(w, n) % Pow2(k) == Low(w, k)
    decreases n
  {
    if k == n {
      LowBelow(w, k);
      ModSmall(Low(w, k), Pow2(k));
    } else {
      LowRemainder(w, k, n - 1);
      ModPlusPower(Low(w, n - 1), k, n - 1);
    }
  }

  /** The lowest k bits are the remainder modulo 2^k. */
  lemma LowIsRemainder(w: Word, k: nat)
    requires k <= 64
    ensures Low(w, k) == Unsigned(w) % Pow2(k)
  {
    LowRemainder(w, k, 64);
  }

  /** Equal bits above the k-th, all clear or all set. */
  lemma {:induction false} LowExtended(w: Word, k: nat, n: nat, bit: bool)
    requires k <= n <= 64 && forall i :: k <= i < n ==> w[i] == bit
    ensures Low(w, n) == Low(w, k) + if bit then Pow2(n) - Pow2(k) else 0
    decreases n
  {
    if k < n { LowExtended(w, k, n - 1, bit); }
  }

  /** The value modulo 2^width as a width-bit number, two's complement if signed. */
  function CutNumber(v: nat, width: nat, signed: bool): int
    requires 0 < width
  {
    var low := v % Pow2(width);
    if signed && low >= Pow2(width - 1) then low - Pow2(width) else low
  }

  /** Cutting a word is cutting its number. */
  lemma CutIsNumber(nval: Word, width: nat, signed: bool)
    requires 0 < width <= 64
    ensures
      var w := Cut(nval, width, signed);
      (if signed then Signed(w) else Unsigned(w)) == CutNumber(Unsigned(nval), width, signed)
  {
    var w := Cut(nval, width, signed);
    var top := nval[width - 1];
    LowAgrees(w, nval, width);
    LowIsRemainder(nval, width);
    LowExtended(w, width, 64, signed && top);
    LowBelow(nval, width - 1);
    assert Low(nval, width) >= Pow2(width - 1) <==> top;
  }

  /** A written field reads back as the number written, modulo 2^width, or as the
      two's-complement number those bits stand for. */
  lemma ReadBackNumber(m: Memory, big: bool, f: Field, nval: Word)
    requires In(m, f) && Proper(f)
    ensures
      var r := Read(Written(m, big, f, nval), big, f);
      (if f.signed then Signed(r) else Unsigned(r)) == CutNumber(Unsigned(nval), Width(f), f.signed)
  {
    ReadAfterWrite(m, big, f, nval);
    CutIsNumber(nval, Width(f), f.signed);
  }

  lemma PositiveFits(v: nat, width: nat, signed: bool)
    requires 0 < width && v < if signed then Pow2(width - 1) else Pow2(width)
    ensures CutNumber(v, width, signed) == v
  {
    ModSmall(v, Pow2(width));
  }

  /** A negative number that fits keeps its value. */
  lemma NegativeFits(v: nat, width: nat)
    requires 0 < width <= 64 && Pow2(64) - Pow2(width - 1) <= v < Pow2(64)
    ensures CutNumber(v, width, true) == v - Pow2(64)
  {
    var m, d := Pow2(width), Pow2(64) - v;
    ModPlus(v, m);
    ModPlusPower(m - d, width, 64);
    ModSmall(m - d, m);
    assert v + m == (m - d) + Pow2(64);
  }

  lemma FittingUnsigned(nval: Word, width: nat)
    requires 0 < width <= 64 && Unsigned(nval) < 2 * Pow2(width - 1)
    ensures CutNumber(Unsigned(nval), width, false) == Unsigned(nval)
  {
    PositiveFits(Unsigned(nval), width, false);
  }

  lemma FittingSigned(nval: Word, width: nat)
    requires 0 < width <= 64 && 0 - Pow2(width - 1) <= Signed(nval) < Pow2(width - 1)
    ensures CutNumber(Unsigned(nval), width, true) == Signed(nval)
  {
    LowBelow(nval, 64);
    if nval[63] {
      NegativeFits(Unsigned(nval), width);
    } else {
      PositiveFits(Unsigned(nval), width, true);
    }
  }

  /** A number that fits the field comes back unchanged. */
  lemma FittingNumberReturns(m: Memory, big: bool, f: Field, nval: Word)
    requires In(m, f) && Proper(f)
    requires
      var half: int := Pow2(Width(f) - 1);
      if f.signed then -half <= Signed(nval) < half else Unsigned(nval) < 2 * half
    ensures
      var r := Read(Written(m, big, f, nval), big, f);
      if f.signed then Signed(r) == Signed(nval) else Unsigned(r) == Unsigned(nval)
  {
    ReadBackNumber(m, big, f, nval);
    if f.signed { FittingSigned(nval, Width(f)); } else { FittingUnsigned(nval, Width(f)); }
  }
}
