/** Relocatable bit-fields.  A 64-bit word is its bits, least significant first,
    so that the C operators have their bitwise meaning for every shift count. */
module BitField {

  type Word = w: seq<bool> | |w| == 64 witness seq(64, _ => false)

  type Octet = b: seq<bool> | |b| == 8 witness seq(8, _ => false)

  // ----- the C operators on unsigned long long

  function Zero(): Word { seq(64, _ => false) }

  function Shl(w: Word, n: nat): Word { seq(64, i requires 0 <= i < 64 => i >= n && w[i - n]) }

  function Shr(w: Word, n: nat): Word { seq(64, i requires 0 <= i < 64 => i + n < 64 && w[i + n]) }

  /** (long long)w >> n */
  function Sar(w: Word, n: nat): Word {
    seq(64, i requires 0 <= i < 64 => if i + n < 64 then w[i + n] else w[63])
  }

  function Not(w: Word): Word { seq(64, i requires 0 <= i < 64 => !w[i]) }

  function And(w: Word, x: Word): Word { seq(64, i requires 0 <= i < 64 => w[i] && x[i]) }

  function Or(w: Word, x: Word): Word { seq(64, i requires 0 <= i < 64 => w[i] || x[i]) }

  // ----- memory

  type Memory = seq<Octet>

  predicate Machine(size: nat) { size == 1 || size == 2 || size == 4 || size == 8 }

  /** Which byte of an integer of a size holds bits 8k to 8k + 7. */
  function Place(big: bool, size: nat, k: nat): nat
    requires k < size
  {
    if big then size - 1 - k else k
  }

  /** A zero-extended integer load; big is the byte order. */
  function Load(m: Memory, big: bool, off: nat, size: nat): Word
    requires off + size <= |m|
  {
    seq(64, i requires 0 <= i < 64 => i < 8 * size && m[off + Place(big, size, i / 8)][i % 8])
  }

  function OctetOf(w: Word, k: nat): Octet
    requires k < 8
  {
    w[8 * k..8 * k + 8]
  }

  function StoredOctet(m: Memory, big: bool, off: nat, size: nat, w: Word, j: nat): Octet
    requires j < |m| && size <= 8
  {
    if off <= j < off + size then OctetOf(w, Place(big, size, j - off)) else m[j]
  }

  /** A truncating integer store. */
  function Store(m: Memory, big: bool, off: nat, size: nat, w: Word): (r: Memory)
    requires off + size <= |m| && size <= 8
    ensures |r| == |m|
  {
    seq(|m|, j requires 0 <= j < |m| => StoredOctet(m, big, off, size, w, j))
  }

  // ----- fields

  /** What the relocations say: byte offset and size of the word, and the shifts.
      The field is 64 - r bits wide and starts at bit r - l. */
  datatype Field = Field(off: nat, size: nat, l: nat, r: nat, signed: bool)

  predicate In(m: Memory, f: Field) { f.off + f.size <= |m| && f.l < 64 && f.r < 64 }

  /** A non-empty field inside its word. */
  predicate Proper(f: Field) {
    Machine(f.size) && f.l <= f.r < 64 && 64 <= f.l + 8 * f.size
  }

  function Lo(f: Field): nat
    requires Proper(f)
  {
    f.r - f.l
  }

  function Width(f: Field): nat
    requires Proper(f)
  {
    64 - f.r
  }

  function Extract(w: Word, f: Field): Word {
    if f.signed then Sar(Shl(w, f.l), f.r) else Shr(Shl(w, f.l), f.r)
  }

  /** BPF_CORE_READ_BITFIELD: a word of any other size reads as zero. */
  function Read(m: Memory, big: bool, f: Field): Word
    requires In(m, f)
  {
    Extract(if Machine(f.size) then Load(m, big, f.off, f.size) else Zero(), f)
  }

  /** The bytes of the word in a zeroed 64-bit variable, at its far end on a
      big-endian machine. */
  function Probed(m: Memory, big: bool, f: Field): Memory
    requires In(m, f) && f.size <= 8
  {
    var at := if big then 8 - f.size else 0;
    seq(8, j requires 0 <= j < 8 =>
      if at <= j < at + f.size then m[f.off + (j - at)] else seq(8, _ => false))
  }

  /** BPF_CORE_READ_BITFIELD_PROBED copies the bytes and reads the variable. */
  function ReadProbed(m: Memory, big: bool, f: Field): Word
    requires In(m, f) && f.size <= 8
  {
    Extract(Load(Probed(m, big, f), big, 0, 8), f)
  }

  function Mask(f: Field): Word { Shr(Shl(Not(Zero()), f.r), f.l) }

  function Insert(w: Word, f: Field, nval: Word): Word
    requires Proper(f)
  {
    Or(And(w, Not(Mask(f))), And(Shl(nval, f.r - f.l), Mask(f)))
  }

  /** BPF_CORE_WRITE_BITFIELD */
  function Written(m: Memory, big: bool, f: Field, nval: Word): Memory
    requires In(m, f) && Proper(f)
  {
    Store(m, big, f.off, f.size, Insert(Load(m, big, f.off, f.size), f, nval))
  }

  // ----- what the shifts and masks mean

  /** The field's bits, extended with zeros or with its top bit. */
  lemma ExtractBits(w: Word, f: Field, i: nat)
    requires Proper(f) && i < 64
    ensures Extract(w, f)[i] ==
      if i < Width(f) then w[Lo(f) + i] else f.signed && w[Lo(f) + Width(f) - 1]
  {
    var x := Shl(w, f.l);
    if i < Width(f) {
      assert Extract(w, f)[i] == x[i + f.r];
    } else {
      assert Extract(w, f)[i] == (f.signed && x[63]);
    }
  }

  /** Only the field's bits are replaced. */
  lemma InsertBits(w: Word, f: Field, nval: Word, i: nat)
    requires Proper(f) && i < 64
    ensures Insert(w, f, nval)[i] ==
      if Lo(f) <= i < Lo(f) + Width(f) then nval[i - Lo(f)] else w[i]
  {
  }

  /** nval cut to a width, sign-extended if signed. */
  function Cut(nval: Word, width: nat, signed: bool): Word
    requires 0 < width <= 64
  {
    seq(64, i requires 0 <= i < 64 => if i < width then nval[i] else signed && nval[width - 1])
  }

  lemma LoadBits(m: Memory, big: bool, off: nat, size: nat, i: nat)
    requires off + size <= |m| && i < 64
    ensures Load(m, big, off, size)[i] == (i < 8 * size && m[off + Place(big, size, i / 8)][i % 8])
  {
  }

  /** A load after a store of the same size returns the stored low bits. */
  lemma LoadAfterStore(m: Memory, big: bool, off: nat, size: nat, w: Word, i: nat)
    requires off + size <= |m| && size <= 8 && i < 8 * size
    ensures Load(Store(m, big, off, size, w), big, off, size)[i] == w[i]
  {
    var k := i / 8;
    var j := off + Place(big, size, k);
    assert Place(big, size, j - off) == k;
    assert Store(m, big, off, size, w)[j] == OctetOf(w, k);
    assert OctetOf(w, k)[i % 8] == w[8 * k + i % 8];
  }

  /** Bit k of byte j after a store is the stored bit, or the one that was there. */
  lemma StoreBits(m: Memory, big: bool, off: nat, size: nat, w: Word, j: nat, k: nat)
    requires off + size <= |m| && size <= 8 && j < |m| && k < 8
    ensures Store(m, big, off, size, w)[j][k] ==
      if off <= j < off + size then w[8 * Place(big, size, j - off) + k] else m[j][k]
  {
    if off <= j < off + size {
      assert Store(m, big, off, size, w)[j] == OctetOf(w, Place(big, size, j - off));
    }
  }

  /** The word's bit that lives in bit k of byte j. */
  lemma BitAt(m: Memory, big: bool, f: Field, j: nat, k: nat)
    requires In(m, f) && Proper(f) && f.off <= j < f.off + f.size && k < 8
    ensures 8 * Place(big, f.size, j - f.off) + k < 64
    ensures Load(m, big, f.off, f.size)[8 * Place(big, f.size, j - f.off) + k] == m[j][k]
  {
    var p := Place(big, f.size, j - f.off);
    assert Place(big, f.size, p) == j - f.off;
    assert (8 * p + k) / 8 == p && (8 * p + k) % 8 == k;
    LoadBits(m, big, f.off, f.size, 8 * p + k);
  }

  // ----- the properties

  /** Bit k of the field in w. */
  predicate FieldBitOf(w: Word, f: Field, k: nat)
    requires Proper(f) && k < Width(f)
  {
    w[Lo(f) + k]
  }

  lemma FieldAfterWrite(m: Memory, big: bool, f: Field, nval: Word, k: nat)
    requires In(m, f) && Proper(f) && k < Width(f)
    ensures Load(Written(m, big, f, nval), big, f.off, f.size)[Lo(f) + k] == nval[k]
  {
    var w := Insert(Load(m, big, f.off, f.size), f, nval);
    LoadAfterStore(m, big, f.off, f.size, w, Lo(f) + k);
    InsertBits(Load(m, big, f.off, f.size), f, nval, Lo(f) + k);
  }

  /** A word that holds nval in the field yields nval cut to it. */
  lemma ExtractIsCut(w: Word, f: Field, nval: Word)
    requires Proper(f) && forall k :: 0 <= k < Width(f) ==> FieldBitOf(w, f, k) == nval[k]
    ensures Extract(w, f) == Cut(nval, Width(f), f.signed)
  {
    forall i | 0 <= i < 64 ensures Extract(w, f)[i] == Cut(nval, Width(f), f.signed)[i] {
      ExtractBits(w, f, i);
      var k := if i < Width(f) then i else Width(f) - 1;
      assert FieldBitOf(w, f, k) == nval[k];
    }
  }

  /** Reading back a written field gives the value cut to the field. */
  lemma ReadAfterWrite(m: Memory, big: bool, f: Field, nval: Word)
    requires In(m, f) && Proper(f)
    ensures Read(Written(m, big, f, nval), big, f) == Cut(nval, Width(f), f.signed)
  {
    var w := Load(Written(m, big, f, nval), big, f.off, f.size);
    forall k | 0 <= k < Width(f) ensures FieldBitOf(w, f, k) == nval[k] { FieldAfterWrite(m, big, f, nval, k); }
    ExtractIsCut(w, f, nval);
  }

  /** Bit k of byte j of memory belongs to the field. */
  predicate Covers(big: bool, f: Field, j: nat, k: nat)
    requires Proper(f)
  {
    f.off <= j < f.off + f.size && k < 8 &&
    Lo(f) <= 8 * Place(big, f.size, j - f.off) + k < Lo(f) + Width(f)
  }

  /** No bit outside the field changes, in its own word or elsewhere. */
  lemma WriteKeepsNeighbours(m: Memory, big: bool, f: Field, nval: Word, j: nat, k: nat)
    requires In(m, f) && Proper(f) && j < |m| && k < 8 && !Covers(big, f, j, k)
    ensures Written(m, big, f, nval)[j][k] == m[j][k]
  {
    var w := Load(m, big, f.off, f.size);
    StoreBits(m, big, f.off, f.size, Insert(w, f, nval), j, k);
    if f.off <= j < f.off + f.size {
      BitAt(m, big, f, j, k);
      InsertBits(w, f, nval, 8 * Place(big, f.size, j - f.off) + k);
    }
  }

  /** Bit 8 * q + c of a word is bit c of the byte that holds its bits 8 * q to 8 * q + 7. */
  lemma LoadBit(m: Memory, big: bool, off: nat, size: nat, q: nat, c: nat)
    requires off + size <= |m| && q < size <= 8 && c < 8
    ensures Load(m, big, off, size)[8 * q + c] == m[off + Place(big, size, q)][c]
  {
    assert (8 * q + c) / 8 == q && (8 * q + c) % 8 == c;
    LoadBits(m, big, off, size, 8 * q + c);
  }

  lemma KeptBit(m: Memory, big: bool, f: Field, g: Field, nval: Word, q: nat, c: nat)
    requires In(m, f) && Proper(f) && In(m, g) && Proper(g) && q < g.size && c < 8
    requires !Covers(big, f, g.off + Place(big, g.size, q), c)
    ensures
      Load(Written(m, big, f, nval), big, g.off, g.size)[8 * q + c] == Load(m, big, g.off, g.size)[8 * q + c]
  {
    LoadBit(m, big, g.off, g.size, q, c);
    LoadBit(Written(m, big, f, nval), big, g.off, g.size, q, c);
    WriteKeepsNeighbours(m, big, f, nval, g.off + Place(big, g.size, q), c);
  }

  /** A bit of a field is where its word and byte order put it. */
  lemma FieldCovers(big: bool, g: Field, q: nat, c: nat)
    requires Proper(g) && q < g.size && c < 8 && Lo(g) <= 8 * q + c < Lo(g) + Width(g)
    ensures Covers(big, g, g.off + Place(big, g.size, q), c)
  {
    assert Place(big, g.size, Place(big, g.size, q)) == q;
  }

  lemma OtherBitUnchanged(m: Memory, big: bool, f: Field, g: Field, nval: Word, k: nat)
    requires In(m, f) && Proper(f) && In(m, g) && Proper(g) && k < Width(g)
    requires forall j, k :: !(Covers(big, f, j, k) && Covers(big, g, j, k))
    ensures Load(Written(m, big, f, nval), big, g.off, g.size)[Lo(g) + k] == Load(m, big, g.off, g.size)[Lo(g) + k]
  {
    var q, c := (Lo(g) + k) / 8, (Lo(g) + k) % 8;
    assert Lo(g) + k == 8 * q + c;
    FieldCovers(big, g, q, c);
    KeptBit(m, big, f, g, nval, q, c);
  }

  /** Words that agree on a field yield the same. */
  lemma ExtractAgrees(w: Word, x: Word, g: Field)
    requires Proper(g) && forall k :: 0 <= k < Width(g) ==> FieldBitOf(w, g, k) == FieldBitOf(x, g, k)
    ensures Extract(w, g) == Extract(x, g)
  {
    forall i | 0 <= i < 64 ensures Extract(w, g)[i] == Extract(x, g)[i] {
      ExtractBits(w, g, i);
      ExtractBits(x, g, i);
      var k := if i < Width(g) then i else Width(g) - 1;
      assert FieldBitOf(w, g, k) == FieldBitOf(x, g, k);
    }
  }

  /** Fields that share no bit do not disturb each other. */
  lemma OtherFieldUnchanged(m: Memory, big: bool, f: Field, g: Field, nval: Word)
    requires In(m, f) && Proper(f) && In(m, g) && Proper(g)
    requires forall j, k :: !(Covers(big, f, j, k) && Covers(big, g, j, k))
    ensures Read(Written(m, big, f, nval), big, g) == Read(m, big, g)
  {
    var w, w' := Load(m, big, g.off, g.size), Load(Written(m, big, f, nval), big, g.off, g.size);
    forall k | 0 <= k < Width(g) ensures FieldBitOf(w', g, k) == FieldBitOf(w, g, k) {
      OtherBitUnchanged(m, big, f, g, nval, k);
    }
    ExtractAgrees(w', w, g);
  }

  lemma InsertExtracted(w: Word, f: Field)
    requires Proper(f)
    ensures Insert(w, f, Extract(w, f)) == w
  {
    forall i | 0 <= i < 64 ensures Insert(w, f, Extract(w, f))[i] == w[i] {
      InsertBits(w, f, Extract(w, f), i);
      if Lo(f) <= i < Lo(f) + Width(f) { ExtractBits(w, f, i - Lo(f)); }
    }
  }

  lemma StoreLoaded(m: Memory, big: bool, f: Field)
    requires In(m, f) && Proper(f)
    ensures Store(m, big, f.off, f.size, Load(m, big, f.off, f.size)) == m
  {
    var w := Load(m, big, f.off, f.size);
    var m' := Store(m, big, f.off, f.size, w);
    forall j | 0 <= j < |m| ensures m'[j] == m[j] {
      forall k | 0 <= k < 8 ensures m'[j][k] == m[j][k] {
        StoreBits(m, big, f.off, f.size, w, j, k);
        if f.off <= j < f.off + f.size { BitAt(m, big, f, j, k); }
      }
    }
  }

  /** Writing back what was read changes nothing. */
  lemma WriteAfterRead(m: Memory, big: bool, f: Field)
    requires In(m, f) && Proper(f)
    ensures Written(m, big, f, Read(m, big, f)) == m
  {
    InsertExtracted(Load(m, big, f.off, f.size), f);
    StoreLoaded(m, big, f);
  }

  lemma ProbedBit(m: Memory, big: bool, f: Field, i: nat)
    requires In(m, f) && Machine(f.size) && i < 64
    ensures Load(Probed(m, big, f), big, 0, 8)[i] == Load(m, big, f.off, f.size)[i]
  {
    LoadBits(Probed(m, big, f), big, 0, 8, i);
    LoadBits(m, big, f.off, f.size, i);
    assert Place(big, 8, i / 8) == if big then 7 - i / 8 else i / 8;
  }

  /** Both ways of reading agree in both byte orders. */
  lemma ProbedAgrees(m: Memory, big: bool, f: Field)
    requires In(m, f) && Machine(f.size)
    ensures ReadProbed(m, big, f) == Read(m, big, f)
  {
    forall i | 0 <= i < 64
      ensures Load(Probed(m, big, f), big, 0, 8)[i] == Load(m, big, f.off, f.size)[i]
    {
      ProbedBit(m, big, f, i);
    }
    assert Load(Probed(m, big, f), big, 0, 8) == Load(m, big, f.off, f.size);
  }

  // ----- STORE_BY_BITMASK

  /** (1ull << len) - 1 */
  function Ones(len: nat): Word { seq(64, i requires 0 <= i < 64 => i < len) }

  function Bitmask(off: nat, len: nat): Word { Shl(Ones(len), off) }

  /** The store of a value into bits off to off + len - 1 of an integer; big is
      the byte order the conversion macro leaves it in. */
  function StoreByBitmask(m: Memory, big: bool, addr: nat, size: nat, val: Word, off: nat, len: nat): Memory
    requires addr + size <= |m| && Machine(size)
  {
    var w, mask := Load(m, big, addr, size), Bitmask(off, len);
    Store(m, big, addr, size, Or(And(w, Not(mask)), And(Shl(Cut(val, 8 * size, false), off), mask)))
  }

  /** It writes the bit-field that starts at bit off and is len bits wide. */
  lemma StoreByBitmaskWrites(m: Memory, big: bool, addr: nat, size: nat, val: Word, off: nat, len: nat)
    requires addr + size <= |m| && Machine(size) && 0 < len && off + len <= 8 * size
    ensures
      var f := Field(addr, size, 64 - len - off, 64 - len, false);
      Proper(f) && StoreByBitmask(m, big, addr, size, val, off, len) == Written(m, big, f, val)
  {
    var f := Field(addr, size, 64 - len - off, 64 - len, false);
    var w := Load(m, big, addr, size);
    var x := Or(And(w, Not(Bitmask(off, len))), And(Shl(Cut(val, 8 * size, false), off), Bitmask(off, len)));
    assert x == Insert(w, f, val) by {
      forall i | 0 <= i < 64 ensures x[i] == Insert(w, f, val)[i] {
        InsertBits(w, f, val, i);
      }
    }
  }

  // ----- the macros on a live buffer

  method LoadInteger(mem: array<Octet>, big: bool, off: nat, size: nat) returns (w: Word)
    requires off + size <= mem.Length
    ensures w == Load(mem[..], big, off, size)
  {
    w := seq(64, i requires 0 <= i < 64 reads mem => i < 8 * size && mem[off + Place(big, size, i / 8)][i % 8]);
  }

  method StoreInteger(mem: array<Octet>, big: bool, off: nat, size: nat, w: Word)
    requires off + size <= mem.Length && size <= 8
    modifies mem
    ensures mem[..] == Store(old(mem[..]), big, off, size, w)
  {
    var j := 0;
    while j < size
      invariant j <= size
      invariant forall i :: 0 <= i < mem.Length ==>
        mem[i] == if off <= i < off + j then OctetOf(w, Place(big, size, i - off)) else old(mem[i])
    {
      mem[off + j] := OctetOf(w, Place(big, size, j));
      j := j + 1;
    }
  }

  method WriteBitfield(mem: array<Octet>, big: bool, f: Field, nval: Word)
    requires In(mem[..], f) && Proper(f)
    modifies mem
    ensures mem[..] == Written(old(mem[..]), big, f, nval)
  {
    var val := LoadInteger(mem, big, f.off, f.size);
    var rpad := f.r - f.l;
    var mask := Shr(Shl(Not(Zero()), f.r), f.l);
    val := Or(And(val, Not(mask)), And(Shl(nval, rpad), mask));
    StoreInteger(mem, big, f.off, f.size, val);
  }

  method ReadBitfield(mem: array<Octet>, big: bool, f: Field) returns (val: Word)
    requires In(mem[..], f)
    ensures val == Read(mem[..], big, f)
  {
    if Machine(f.size) {
      val := LoadInteger(mem, big, f.off, f.size);
    } else {
      val := Zero();
    }
    val := Shl(val, f.l);
    val := if f.signed then Sar(val, f.r) else Shr(val, f.r);
  }
}
