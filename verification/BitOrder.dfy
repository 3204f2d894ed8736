/** Byte order: the numbers that loads and stores stand for, from the bytes in memory,
    and with them the number a bit-field reads as. */
module BitOrder {
  import opened Prelude
  import opened BitField
  import opened BitValue

  /** The number of a row of bits, least significant first. */
  function Number(s: seq<bool>): nat {
    if s == [] then 0 else (if s[0] then 1 else 0) + 2 * Number(s[1..])
  }

  /** Bytes from the lowest address on, each worth 256 times the one before. */
  function Little(m: Memory, off: nat, size: nat): nat
    requires off + size <= |m|
    decreases size
  {
    if size == 0 then 0 else Number(m[off]) + 256 * Little(m, off + 1, size - 1)
  }

  /** The other way round: the byte at the highest address is worth least. */
  function Big(m: Memory, off: nat, size: nat): nat
    requires off + size <= |m|
    decreases size
  {
    if size == 0 then 0 else Number(m[off + size - 1]) + 256 * Big(m, off, size - 1)
  }

  function InMemory(m: Memory, big: bool, off: nat, size: nat): nat
    requires off + size <= |m|
  {
    if big then Big(m, off, size) else Little(m, off, size)
  }

  // ----- rows of bits

  function Doubled(x: nat, n: nat): nat { if n == 0 then x else 2 * Doubled(x, n - 1) }

  lemma {:induction false} NumberAppend(s: seq<bool>, t: seq<bool>)
    ensures Number(s + t) == Number(s) + Doubled(Number(t), |s|)
    decreases |s|
  {
    if s == [] {
      assert s + t == t;
    } else {
      assert (s + t)[1..] == s[1..] + t;
      NumberAppend(s[1..], t);
    }
  }

  lemma OctetFirst(o: Octet, t: seq<bool>)
    ensures Number(o + t) == Number(o) + 256 * Number(t)
  {
    NumberAppend(o, t);
    var x := Number(t);
    assert Doubled(x, 1) == 2 * x && Doubled(x, 2) == 4 * x;
    assert Doubled(x, 3) == 8 * x && Doubled(x, 4) == 16 * x;
    assert Doubled(x, 5) == 32 * x && Doubled(x, 6) == 64 * x;
    assert Doubled(x, 7) == 128 * x && Doubled(x, 8) == 256 * x;
  }

  lemma {:induction false} DoubledOne(n: nat)
    ensures Doubled(1, n) == Pow2(n)
  {
    if n > 0 { DoubledOne(n - 1); }
  }

  lemma {:induction false} DoubledNothing(n: nat)
    ensures Doubled(0, n) == 0
  {
    if n > 0 { DoubledNothing(n - 1); }
  }

  lemma {:induction false} LowIsNumber(w: Word, n: nat)
    requires n <= 64
    ensures Low(w, n) == Number(w[..n])
  {
    if n > 0 {
      LowIsNumber(w, n - 1);
      assert w[..n] == w[..n - 1] + [w[n - 1]];
      NumberAppend(w[..n - 1], [w[n - 1]]);
      assert [w[n - 1]][1..] == [];
      assert Number([w[n - 1]]) == if w[n - 1] then 1 else 0;
      DoubledOne(n - 1);
      DoubledNothing(n - 1);
    }
  }

  // ----- loads

  /** The bits of an integer in memory, least significant first. */
  function Row(m: Memory, big: bool, off: nat, size: nat): (r: seq<bool>)
    requires off + size <= |m|
    ensures |r| == 8 * size
    decreases size
  {
    if size == 0 then []
    else if big then m[off + size - 1] + Row(m, big, off, size - 1)
    else m[off] + Row(m, big, off + 1, size - 1)
  }

  lemma {:induction false} NumberOfRow(m: Memory, big: bool, off: nat, size: nat)
    requires off + size <= |m|
    ensures Number(Row(m, big, off, size)) == InMemory(m, big, off, size)
    decreases size
  {
    if size > 0 {
      if big {
        NumberOfRow(m, big, off, size - 1);
        OctetFirst(m[off + size - 1], Row(m, big, off, size - 1));
      } else {
        NumberOfRow(m, big, off + 1, size - 1);
        OctetFirst(m[off], Row(m, big, off + 1, size - 1));
      }
    }
  }

  lemma RowUnfolds(m: Memory, big: bool, off: nat, size: nat, q: nat, c: nat)
    requires off + size <= |m| && q < size && c < 8
    ensures
      if q == 0 then
        Row(m, big, off, size)[c] == m[off + Place(big, size, 0)][c]
      else
        |Row(m, big, if big then off else off + 1, size - 1)| == 8 * (size - 1) &&
        Row(m, big, off, size)[8 * q + c] == Row(m, big, if big then off else off + 1, size - 1)[8 * (q - 1) + c]
  {
    var o, at := if big then m[off + size - 1] else m[off], if big then off else off + 1;
    assert Row(m, big, off, size) == o + Row(m, big, at, size - 1);
    assert 8 * q + c - 8 == 8 * (q - 1) + c;
  }

  lemma {:induction false} RowBit(m: Memory, big: bool, off: nat, size: nat, q: nat, c: nat)
    requires off + size <= |m| && q < size && c < 8
    ensures Row(m, big, off, size)[8 * q + c] == m[off + Place(big, size, q)][c]
    decreases size
  {
    RowUnfolds(m, big, off, size, q, c);
    if q > 0 { RowBit(m, big, if big then off else off + 1, size - 1, q - 1, c); }
  }

  lemma LoadIsRow(m: Memory, big: bool, off: nat, size: nat)
    requires off + size <= |m| && size <= 8
    ensures Load(m, big, off, size)[..8 * size] == Row(m, big, off, size)
  {
    forall i | 0 <= i < 8 * size ensures Load(m, big, off, size)[i] == Row(m, big, off, size)[i] {
      RowBit(m, big, off, size, i / 8, i % 8);
      LoadBit(m, big, off, size, i / 8, i % 8);
      assert 8 * (i / 8) + i % 8 == i;
    }
  }

  lemma LoadHasNoMore(m: Memory, big: bool, off: nat, size: nat)
    requires off + size <= |m| && size <= 8
    ensures Unsigned(Load(m, big, off, size)) == Low(Load(m, big, off, size), 8 * size)
  {
    var w := Load(m, big, off, size);
    forall i | 8 * size <= i < 64 ensures !w[i] { LoadBits(m, big, off, size, i); }
    LowExtended(w, 8 * size, 64, false);
  }

  /** A load is the number of its bytes in the machine's order. */
  lemma LoadNumber(m: Memory, big: bool, off: nat, size: nat)
    requires off + size <= |m| && size <= 8
    ensures Unsigned(Load(m, big, off, size)) == InMemory(m, big, off, size)
  {
    LoadHasNoMore(m, big, off, size);
    LowIsNumber(Load(m, big, off, size), 8 * size);
    LoadIsRow(m, big, off, size);
    NumberOfRow(m, big, off, size);
  }

  /** A store leaves the bytes of the value, modulo 2^(8 * size), in that order, and every
      other byte as it was. */
  lemma StoreNumber(m: Memory, big: bool, off: nat, size: nat, w: Word)
    requires off + size <= |m| && size <= 8
    ensures InMemory(Store(m, big, off, size, w), big, off, size) == Unsigned(w) % Pow2(8 * size)
    ensures forall j :: 0 <= j < |m| && !(off <= j < off + size) ==> Store(m, big, off, size, w)[j] == m[j]
  {
    var m' := Store(m, big, off, size, w);
    LoadNumber(m', big, off, size);
    LoadHasNoMore(m', big, off, size);
    forall i | 0 <= i < 8 * size ensures Load(m', big, off, size)[i] == w[i] {
      LoadAfterStore(m, big, off, size, w, i);
    }
    LowAgrees(Load(m', big, off, size), w, 8 * size);
    LowIsRemainder(w, 8 * size);
  }

  /** The bytes 0x34 0x12 on both machines. */
  lemma TwoBytes(m: Memory)
    requires |m| == 2 && Number(m[0]) == 0x34 && Number(m[1]) == 0x12
    ensures Unsigned(Load(m, false, 0, 2)) == 0x1234 && Unsigned(Load(m, true, 0, 2)) == 0x3412
  {
    LoadNumber(m, false, 0, 2);
    LoadNumber(m, true, 0, 2);
    assert Little(m, 2, 0) == 0 && Little(m, 1, 1) == 0x12;
    assert Big(m, 0, 0) == 0 && Big(m, 0, 1) == 0x34;
  }

  // ----- shifts

  lemma TimesLess(m: nat, a: nat, b: nat)
    requires m > 0 && a < b
    ensures m * a < m * b
  {
    assert m * b == m * a + m * (b - a);
    TimesAtLeast(m, b - a);
  }

  lemma DivIs(x: nat, m: nat, q: nat, r: nat)
    requires r < m && x == m * q + r
    ensures x / m == q
  {
    var d: nat := x / m;
    assert x == m * d + x % m;
    QuotientIs(m, r, q, x % m, d);
    if q < d { TimesLess(m, q, d); } else if d < q { TimesLess(m, d, q); }
  }

  lemma DivTwice(x: nat, p: nat)
    requires p > 0
    ensures x / (2 * p) == x / 2 / p
  {
    var q, r := x / 2 / p, x / 2 % p;
    assert x / 2 == p * q + r;
    assert 2 * p * q == 2 * (p * q);
    DivIs(x, 2 * p, q, 2 * r + x % 2);
  }

  lemma {:induction false} NumberDrop(s: seq<bool>, n: nat)
    requires n <= |s|
    ensures Number(s[n..]) == Number(s) / Pow2(n)
    decreases n
  {
    if n == 0 {
      assert s[0..] == s;
    } else {
      assert s[1..][n - 1..] == s[n..];
      NumberDrop(s[1..], n - 1);
      assert Number(s) / 2 == Number(s[1..]);
      DivTwice(Number(s), Pow2(n - 1));
    }
  }

  lemma {:induction false} NumberClear(s: seq<bool>, t: seq<bool>)
    requires forall i :: 0 <= i < |t| ==> !t[i]
    ensures Number(s + t) == Number(s)
    decreases |t|
  {
    if t == [] {
      assert s + t == s;
    } else {
      var k := |t| - 1;
      NumberClear(s, t[..k]);
      assert s + t == s + t[..k] + [false];
      NumberAppend(s + t[..k], [false]);
      assert [false][1..] == [];
      assert Number([false]) == 0;
      DoubledNothing(|s + t[..k]|);
    }
  }

  /** A right shift divides. */
  lemma ShrNumber(w: Word, n: nat)
    requires n <= 64
    ensures Unsigned(Shr(w, n)) == Unsigned(w) / Pow2(n)
  {
    var zeros: seq<bool> := seq(n, _ => false);
    LowIsNumber(w, 64);
    LowIsNumber(Shr(w, n), 64);
    assert w[..64] == w && Shr(w, n)[..64] == w[n..] + zeros;
    NumberClear(w[n..], zeros);
    NumberDrop(w, n);
  }

  function Quotient(x: nat, m: nat): nat
    requires m > 0
  {
    x / m
  }

  // ----- fields

  /** Extracting is shifting the field down and cutting it to its width. */
  lemma ExtractIsShiftAndCut(w: Word, f: Field)
    requires Proper(f)
    ensures Extract(w, f) == Cut(Shr(w, f.r - f.l), 64 - f.r, f.signed)
  {
    forall i | 0 <= i < 64 ensures Extract(w, f)[i] == Cut(Shr(w, f.r - f.l), 64 - f.r, f.signed)[i] {
      ExtractBits(w, f, i);
    }
  }

  lemma ExtractNumber(w: Word, f: Field)
    requires Proper(f)
    ensures
      (if f.signed then Signed(Extract(w, f)) else Unsigned(Extract(w, f)))
        == CutNumber(Quotient(Unsigned(w), Pow2(f.r - f.l)), 64 - f.r, f.signed)
  {
    ExtractIsShiftAndCut(w, f);
    CutIsNumber(Shr(w, f.r - f.l), 64 - f.r, f.signed);
    ShrNumber(w, f.r - f.l);
  }

  /** A field of a 1, 2, 4 or 8 byte integer reads as the number in memory, without its
      lower r - l bits and modulo 2^(64 - r), in two's complement if signed. */
  lemma ReadNumber(m: Memory, big: bool, f: Field)
    requires f.off + f.size <= |m| && (f.size == 1 || f.size == 2 || f.size == 4 || f.size == 8)
    requires f.l <= f.r < 64 && 64 <= f.l + 8 * f.size
    ensures
      var r := Read(m, big, f);
      (if f.signed then Signed(r) else Unsigned(r))
        == CutNumber(Quotient(InMemory(m, big, f.off, f.size), Pow2(f.r - f.l)), 64 - f.r, f.signed)
  {
    ExtractNumber(Load(m, big, f.off, f.size), f);
    LoadNumber(m, big, f.off, f.size);
  }

  /** A word of any other size reads as zero. */
  lemma OtherSizesReadZero(m: Memory, big: bool, f: Field)
    requires In(m, f) && f.size != 1 && f.size != 2 && f.size != 4 && f.size != 8
    ensures Unsigned(Read(m, big, f)) == 0
  {
    var r := Read(m, big, f);
    assert forall i :: 0 <= i < 64 ==> !r[i];
    LowExtended(r, 0, 64, false);
  }
}
