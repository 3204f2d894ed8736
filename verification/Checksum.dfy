/** The Internet checksum of RFC 1071, written five ways: loop or two-step fold,
    host-order or network-order words, in one go or in chunks. */
module Checksum {
  import opened Prelude
  import opened Octets

  const ONES: nat := 0xffff

  /** Sum of the host-order words in b[..n], n even. */
  function Sum(b: Bytes, n: nat): nat
    requires n <= |b| && n % 2 == 0
  {
    if n == 0 then 0 else Sum(b, n - 2) + Word16(b, n - 2)
  }

  function Even(n: nat): (r: nat)
    ensures r <= n <= r + 1 && r % 2 == 0
  {
    n / 2 * 2
  }

  /** Sum of all words, an odd last byte counting as the low byte of a word. */
  function Total(b: Bytes): nat {
    Sum(b, Even(|b|)) + if |b| % 2 == 1 then b[|b| - 1] else 0
  }

  /** The one's-complement value of a sum: congruent to it modulo 0xffff, between
      1 and 0xffff unless the sum is zero. */
  function Fold(s: nat): (r: nat)
    ensures r <= ONES && (r == 0 <==> s == 0)
  {
    if s == 0 then 0 else (s - 1) % ONES + 1
  }

  function Internet(b: Bytes): nat { ONES - Fold(Total(b)) }

  // ----- folding

  lemma FoldPlus(t: nat, k: nat)
    requires t > 0
    ensures Fold(t + ONES * k) == Fold(t)
    decreases k
  {
    if k > 0 { FoldPlus(t, k - 1); }
  }

  lemma FoldSmall(s: nat)
    requires s <= ONES
    ensures Fold(s) == s
  {
  }

  /** Adding the carries back in keeps the one's-complement value. */
  lemma FoldStep(s: nat)
    requires s > ONES
    ensures 0 < s % 0x1_0000 + s / 0x1_0000 < s && Fold(s % 0x1_0000 + s / 0x1_0000) == Fold(s)
  {
    FoldPlus(s % 0x1_0000 + s / 0x1_0000, s / 0x1_0000);
  }

  /** Folding early changes nothing. */
  lemma FoldAdd(x: nat, y: nat)
    ensures Fold(Fold(x) + y) == Fold(x + y)
  {
    if x > 0 {
      var k := (x - 1) / ONES;
      assert x == Fold(x) + ONES * k;
      FoldPlus(Fold(x) + y, k);
    }
  }

  /** while (sum >> 16) sum = (sum & 0xffff) + (sum >> 16); */
  method FoldLoop(s: nat) returns (sum: nat)
    ensures sum == Fold(s)
  {
    sum := s;
    while sum / 0x1_0000 != 0
      invariant Fold(sum) == Fold(s)
      decreases sum
    {
      FoldStep(sum);
      sum := sum % 0x1_0000 + sum / 0x1_0000;
    }
    FoldSmall(sum);
  }

  /** Two unconditional folds and a truncation: enough for every 32-bit sum. */
  method FoldTwice(s: nat) returns (sum: nat)
    requires s < WORD
    ensures sum == Fold(s)
  {
    sum := s / 0x1_0000 + s % 0x1_0000;
    ghost var once := sum;
    if s > ONES { FoldStep(s); }
    assert Fold(once) == Fold(s) && once <= 2 * ONES;
    sum := sum + sum / 0x1_0000;
    sum := sum % 0x1_0000;
    if once <= ONES { FoldSmall(once); } else { FoldPlus(once - ONES, 1); FoldSmall(once - ONES); }
  }

  // ----- overflow

  lemma SumBound(b: Bytes, n: nat)
    requires n <= |b| && n % 2 == 0
    ensures Sum(b, n) <= n / 2 * ONES
  {
    if n > 0 { SumBound(b, n - 2); }
  }

  const WORDS: nat := 65537

  /** What is left of the range after a folded accumulator. */
  lemma NoOverflowAfter(acc: nat, b: Bytes)
    requires acc <= ONES && |b| <= 2 * (WORDS - 1)
    ensures acc + Total(b) < WORD
  {
    SumBound(b, Even(|b|));
    assert Even(|b|) / 2 * ONES <= (WORDS - 1) * ONES - if |b| % 2 == 0 then 0 else ONES;
  }

  /** Up to 65537 words a 32-bit accumulator does not overflow... */
  lemma NoOverflow(b: Bytes)
    requires |b| <= 2 * WORDS
    ensures Total(b) < WORD
  {
    SumBound(b, Even(|b|));
  }

  lemma SumOfOnes(b: Bytes, n: nat)
    requires n <= |b| && n % 2 == 0 && forall i :: 0 <= i < |b| ==> b[i] == 255
    ensures Sum(b, n) == n / 2 * ONES
  {
    if n > 0 { SumOfOnes(b, n - 2); }
  }

  /** ...and with one word more it can, and the result is wrong. */
  lemma OverflowAt65538()
    ensures exists b: Bytes :: |b| == 2 * (WORDS + 1) && Total(b) >= WORD && Fold(Total(b) % WORD) != Fold(Total(b))
  {
    var b: Bytes := seq(2 * (WORDS + 1), _ => 255);
    SumOfOnes(b, 2 * (WORDS + 1));
    assert Total(b) == (WORDS + 1) * ONES == WORD + 65534;
  }

  /** What the 32-bit accumulators keep of a sum. */
  function Kept(s: nat): (r: nat)
    ensures r < WORD && (s < WORD ==> r == s)
  {
    s % WORD
  }

  lemma KeptPlus(s: nat, w: nat)
    ensures Kept(Kept(s) + w) == Kept(s + w)
  {
  }

  // ----- the one-shot versions

  /** csum_ipv4: pointer and length move together, loop fold. */
  method CsumIpv4(b: Bytes) returns (r: nat)
    ensures r == ONES - Fold(Kept(Total(b)))
    ensures |b| <= 2 * WORDS ==> r == Internet(b)
  {
    if |b| <= 2 * WORDS { NoOverflow(b); }
    var sum, p, len := 0, 0, |b|;
    while len > 1
      invariant 0 <= len && p + len == |b| && p % 2 == 0 && sum == Kept(Sum(b, p))
      decreases len
    {
      KeptPlus(Sum(b, p), Word16(b, p));
      sum := (sum + Word16(b, p)) % WORD;
      p, len := p + 2, len - 2;
    }
    assert Even(|b|) == p;
    if len != 0 {
      KeptPlus(Sum(b, p), b[p]);
      sum := (sum + b[p]) % WORD;
    }
    sum := FoldLoop(sum);
    r := ONES - sum;
  }

  /** The indexed version. */
  method IpChecksumIndexed(b: Bytes) returns (r: nat)
    ensures r == ONES - Fold(Kept(Total(b)))
    ensures |b| <= 2 * WORDS ==> r == Internet(b)
  {
    if |b| <= 2 * WORDS { NoOverflow(b); }
    var sum, i := 0, 0;
    while i + 1 < |b|
      invariant i <= |b| && i % 2 == 0 && sum == Kept(Sum(b, i))
    {
      KeptPlus(Sum(b, i), Word16(b, i));
      sum := (sum + Word16(b, i)) % WORD;
      i := i + 2;
    }
    assert Even(|b|) == i;
    if |b| % 2 == 1 {
      KeptPlus(Sum(b, i), b[|b| - 1]);
      sum := (sum + b[|b| - 1]) % WORD;
    }
    sum := FoldLoop(sum);
    r := ONES - sum;
  }

  /** The version with the two-step fold. */
  method IpChecksumTwoStep(b: Bytes) returns (r: nat)
    ensures r == ONES - Fold(Kept(Total(b)))
    ensures |b| <= 2 * WORDS ==> r == Internet(b)
  {
    if |b| <= 2 * WORDS { NoOverflow(b); }
    var sum, p, len := 0, 0, |b|;
    while len > 1
      invariant 0 <= len && p + len == |b| && p % 2 == 0 && sum == Kept(Sum(b, p))
      decreases len
    {
      KeptPlus(Sum(b, p), Word16(b, p));
      sum := (sum + Word16(b, p)) % WORD;
      p, len := p + 2, len - 2;
    }
    assert Even(|b|) == p;
    if len == 1 {
      KeptPlus(Sum(b, p), b[p]);
      sum := (sum + b[p]) % WORD;
    }
    sum := FoldTwice(sum);
    r := ONES - sum;
  }

  // ----- network-order words

  /** The same words, most significant byte first. */
  function NetSum(b: Bytes, n: nat): nat
    requires n <= |b| && n % 2 == 0
  {
    if n == 0 then 0 else NetSum(b, n - 2) + 256 * b[n - 2] as nat + b[n - 1] as nat
  }

  function Swap16(v: nat): nat { v % 256 * 256 + v / 256 }

  /** Sum of the first bytes of the words. */
  function Evens(b: Bytes, n: nat): nat
    requires n <= |b| && n % 2 == 0
  {
    if n == 0 then 0 else Evens(b, n - 2) + b[n - 2] as nat
  }

  /** RFC 1071 section 2(B): in the other byte order every sum is 256 times as
      big, modulo 0xffff. */
  lemma {:induction false} ByteOrder(b: Bytes, n: nat)
    requires n <= |b| && n % 2 == 0
    ensures 256 * NetSum(b, n) == Sum(b, n) + ONES * Evens(b, n)
    ensures NetSum(b, n) == 0 <==> Sum(b, n) == 0
    ensures NetSum(b, n) <= n / 2 * ONES
  {
    if n > 0 { ByteOrder(b, n - 2); }
  }

  lemma FoldUnique(x: nat, s: nat, k: nat)
    requires 0 < x <= ONES && s == x + ONES * k
    ensures Fold(s) == x
  {
    FoldPlus(x, k);
    FoldSmall(x);
  }

  /** Swapping the bytes of a folded sum is multiplying the sum by 256. */
  lemma SwapFold(s: nat)
    ensures Swap16(Fold(s)) == Fold(256 * s)
  {
    if s > 0 {
      var f := Fold(s);
      var k := (s - 1) / ONES;
      assert s == f + ONES * k;
      assert 256 * f == Swap16(f) + ONES * (f / 256);
      assert Swap16(f) > 0;
      FoldUnique(Swap16(f), 256 * s, f / 256 + 256 * k);
    }
  }

  lemma SwapComplement(v: nat)
    requires v <= ONES
    ensures Swap16(ONES - v) == ONES - Swap16(v)
  {
  }

  /** What ipv4_checksum computes: an odd last byte is left out. */
  function NetInternet(b: Bytes): nat { Swap16(ONES - Fold(NetSum(b, Even(|b|)))) }

  lemma NetNoOverflow(b: Bytes)
    requires |b| <= 2 * WORDS + 1
    ensures NetSum(b, Even(|b|)) < WORD
  {
    ByteOrder(b, Even(|b|));
  }

  method Ipv4ChecksumNet(b: Bytes) returns (r: nat)
    ensures r == Swap16(ONES - Fold(Kept(NetSum(b, Even(|b|)))))
    ensures |b| <= 2 * WORDS + 1 ==> r == NetInternet(b)
  {
    if |b| <= 2 * WORDS + 1 { NetNoOverflow(b); }
    var sum, i := 0, 0;
    while i < |b| / 2
      invariant i <= |b| / 2 && sum == Kept(NetSum(b, 2 * i))
    {
      KeptPlus(NetSum(b, 2 * i), 256 * b[2 * i] as nat + b[2 * i + 1] as nat);
      sum := (sum + (256 * b[2 * i] as nat + b[2 * i + 1] as nat)) % WORD;
      i := i + 1;
    }
    sum := FoldLoop(sum);
    r := Swap16(ONES - sum);
  }

  /** Summing network-order words and swapping the result stores the same field
      as summing host-order words, unless an odd last byte that is not zero is
      left out. */
  lemma NetAgrees(b: Bytes)
    ensures NetInternet(b) == Internet(b) <==> |b| % 2 == 0 || b[|b| - 1] == 0
  {
    var n := Even(|b|);
    ByteOrder(b, n);
    SwapComplement(Fold(NetSum(b, n)));
    SwapFold(NetSum(b, n));
    if Sum(b, n) > 0 { FoldPlus(Sum(b, n), Evens(b, n)); }
    assert Swap16(Fold(NetSum(b, n))) == Fold(Sum(b, n));
    if |b| % 2 == 1 && b[|b| - 1] > 0 {
      FoldMoves(Sum(b, n), b[|b| - 1]);
    }
  }

  /** Adding a non-zero byte always shows. */
  lemma FoldMoves(s: nat, v: nat)
    requires 0 < v < 256
    ensures Fold(s + v) != Fold(s)
  {
    if s > 0 {
      var f, k := Fold(s), (s - 1) / ONES;
      assert s + v == (f + v) + ONES * k;
      FoldPlus(f + v, k);
      if f + v <= ONES { FoldSmall(f + v); } else { FoldPlus(f + v - ONES, 1); FoldSmall(f + v - ONES); }
    }
  }

  /** The example of section 3 of RFC 1071: the words 0001 f203 f4f5 f6f7 sum to ddf2, so
      that the checksum stored behind them is the bytes 22 0d; and an odd last byte is the
      first byte of a word. */
  lemma Rfc1071Example()
    ensures
      var b: Bytes := [0x00, 0x01, 0xf2, 0x03, 0xf4, 0xf5, 0xf6, 0xf7];
      Fold(NetSum(b, 8)) == 0xddf2 && Internet(b) == 0x0d22 && NetInternet(b) == 0x0d22
    ensures Internet([0x00, 0x01, 0xf2]) == ONES - 0x01f2
  {
    var b: Bytes := [0x00, 0x01, 0xf2, 0x03, 0xf4, 0xf5, 0xf6, 0xf7];
    assert NetSum(b, 4) == 0x0001 + 0xf203 && NetSum(b, 8) == 0x0001 + 0xf203 + 0xf4f5 + 0xf6f7;
    assert Sum(b, 4) == 0x0100 + 0x03f2 && Sum(b, 8) == 0x0100 + 0x03f2 + 0xf5f4 + 0xf7f6;
    var c: Bytes := [0x00, 0x01, 0xf2];
    assert Sum(c, 2) == Sum(c, 0) + Word16(c, 0);
    assert Total(c) == 0x0100 + 0xf2;
  }

  // ----- chunks

  /** csum_inet_update on the accumulator. */
  function Update(acc: nat, data: Bytes): nat { Fold(acc + Total(data)) }

  class CsumInet {
    var acc: nat

    /** csum_inet_init */
    constructor ()
      ensures acc == 0
    {
      acc := 0;
    }

    /** csum_inet_update: nothing at all for an empty chunk. */
    method Add(data: Bytes)
      requires acc <= ONES
      modifies this
      ensures acc <= ONES && acc == Fold(Kept(old(acc) + Total(data)))
      ensures |data| <= 2 * (WORDS - 1) ==> acc == Update(old(acc), data)
    {
      if |data| <= 2 * (WORDS - 1) { NoOverflowAfter(acc, data); }
      if |data| == 0 {
        FoldSmall(acc);
        return;
      }
      AddWords(data);
      acc := FoldLoop(acc);
    }

    method AddWords(data: Bytes)
      requires acc <= ONES && data != []
      modifies this
      ensures acc == Kept(old(acc) + Total(data))
    {
      var i := 0;
      while i < |data| - 1
        invariant i <= |data| && i % 2 == 0 && acc == Kept(old(acc) + Sum(data, i))
      {
        KeptPlus(old(acc) + Sum(data, i), Word16(data, i));
        acc := (acc + Word16(data, i)) % WORD;
        i := i + 2;
      }
      if |data| % 2 == 1 {
        KeptPlus(old(acc) + Sum(data, i), data[|data| - 1]);
        acc := (acc + data[|data| - 1]) % WORD;
      }
    }

    /** csum_inet_digest */
    method Digest() returns (r: nat)
      requires acc <= ONES
      ensures r == ONES - acc
    {
      r := ONES - acc;
    }
  }

  lemma SumConcat(a: Bytes, b: Bytes, n: nat)
    requires |a| % 2 == 0 && n <= |b| && n % 2 == 0
    ensures Sum(a + b, |a| + n) == Sum(a, |a|) + Sum(b, n)
  {
    if n > 0 {
      SumConcat(a, b, n - 2);
      assert Word16(a + b, |a| + n - 2) == Word16(b, n - 2);
    } else {
      SumPrefix(a, b, |a|);
    }
  }

  lemma SumPrefix(a: Bytes, b: Bytes, n: nat)
    requires n <= |a| && n % 2 == 0
    ensures Sum(a + b, n) == Sum(a, n)
  {
    if n > 0 { SumPrefix(a, b, n - 2); }
  }

  lemma TotalConcat(a: Bytes, b: Bytes)
    requires |a| % 2 == 0
    ensures Total(a + b) == Total(a) + Total(b)
  {
    assert Even(|a|) == |a| && Even(|a + b|) == |a| + Even(|b|);
    SumConcat(a, b, Even(|b|));
  }

  /** Feeding two chunks is feeding their concatenation, if the first is even... */
  lemma ChunksJoin(acc: nat, a: Bytes, b: Bytes)
    requires |a| % 2 == 0
    ensures Update(Update(acc, a), b) == Update(acc, a + b)
  {
    TotalConcat(a, b);
    FoldAdd(acc + Total(a), Total(b));
  }

  /** ...and not in general: an odd chunk shifts what follows it. */
  lemma OddChunkShifts()
    ensures Update(Update(0, [1]), [1]) != Update(0, [1] + [1])
  {
    assert Total([1]) == 1;
    assert [1] + [1] == [1, 1];
    var b: Bytes := [1, 1];
    assert Sum(b, 2) == Sum(b, 0) + Word16(b, 0);
    assert Total(b) == 257;
  }

  function Flatten(chunks: seq<Bytes>): Bytes {
    if chunks == [] then [] else chunks[0] + Flatten(chunks[1..])
  }

  function Accumulate(acc: nat, chunks: seq<Bytes>): (r: nat)
    ensures acc <= ONES ==> r <= ONES
    decreases |chunks|
  {
    if chunks == [] then acc else Accumulate(Update(acc, chunks[0]), chunks[1..])
  }

  /** All chunks but the last hold whole words. */
  predicate WholeWords(chunks: seq<Bytes>) {
    forall i :: 0 <= i < |chunks| - 1 ==> |chunks[i]| % 2 == 0
  }

  lemma {:induction false} ChunksAreOne(acc: nat, chunks: seq<Bytes>)
    requires WholeWords(chunks) && acc <= ONES
    ensures Accumulate(acc, chunks) == Update(acc, Flatten(chunks))
    decreases |chunks|
  {
    if chunks == [] {
      FoldSmall(acc);
    } else {
      ChunksAreOne(Update(acc, chunks[0]), chunks[1..]);
      if |chunks| > 1 {
        ChunksJoin(acc, chunks[0], Flatten(chunks[1..]));
      } else {
        assert chunks[1..] == [];
        assert chunks[0] + [] == chunks[0];
        FoldSmall(Update(acc, chunks[0]));
        assert Total([]) == 0;
      }
    }
  }

  /** No chunk is long enough to overflow the accumulator. */
  predicate Short(chunks: seq<Bytes>) {
    forall i :: 0 <= i < |chunks| ==> |chunks[i]| <= 2 * (WORDS - 1)
  }

  /** init, an update for each chunk, digest: the Internet checksum of the chunks put
      together, if all but the last hold whole words. */
  method DigestOfChunks(chunks: seq<Bytes>) returns (r: nat)
    ensures Short(chunks) ==> r == ONES - Accumulate(0, chunks)
    ensures Short(chunks) && WholeWords(chunks) ==> r == Internet(Flatten(chunks))
  {
    var csum := new CsumInet();
    for i := 0 to |chunks|
      invariant csum.acc <= ONES
      invariant Short(chunks) ==> Accumulate(0, chunks) == Accumulate(csum.acc, chunks[i..])
    {
      assert chunks[i..][0] == chunks[i] && chunks[i..][1..] == chunks[i + 1..];
      csum.Add(chunks[i]);
    }
    if WholeWords(chunks) { ChunksAreOne(0, chunks); }
    r := csum.Digest();
  }

  lemma SumAfterStore(b: Bytes, p: nat, v: nat, n: nat)
    requires p + 2 <= |b| && p % 2 == 0 && v <= ONES && b[p] == 0 && b[p + 1] == 0
    requires n <= |b| && n % 2 == 0
    ensures Sum(Put16(b, p, v), n) == Sum(b, n) + if p < n then v else 0
  {
    if n > 0 { SumAfterStore(b, p, v, n - 2); }
  }

  lemma TotalAfterStore(b: Bytes, p: nat, v: nat)
    requires p + 2 <= |b| && p % 2 == 0 && v <= ONES && b[p] == 0 && b[p + 1] == 0
    ensures Total(Put16(b, p, v)) == Total(b) + v
  {
    SumAfterStore(b, p, v, Even(|b|));
  }

  /** A sum and its complement fold to all ones. */
  lemma ComplementFills(t: nat)
    ensures Fold(t + (ONES - Fold(t))) == ONES
  {
    if t > 0 { FoldUnique(ONES, t + (ONES - Fold(t)), (t - 1) / ONES); }
  }

  /** A digest stored in a zeroed, word-aligned field makes the data sum to all
      ones. */
  lemma DigestVerifies(b: Bytes, p: nat)
    requires p + 2 <= |b| && p % 2 == 0 && b[p] == 0 && b[p + 1] == 0
    ensures Update(0, Put16(b, p, ONES - Update(0, b))) == ONES
    ensures Internet(Put16(b, p, Internet(b))) == 0
  {
    TotalAfterStore(b, p, ONES - Fold(Total(b)));
    ComplementFills(Total(b));
  }

  /** Storing into one chunk is storing into the concatenation, a whole number of
      words further on. */
  lemma {:induction false} StoreInChunk(chunks: seq<Bytes>, k: nat, p: nat, v: nat) returns (at: nat)
    requires WholeWords(chunks) && k < |chunks| && p + 2 <= |chunks[k]| && p % 2 == 0
    ensures at % 2 == 0 && at + 2 <= |Flatten(chunks)|
    ensures Flatten(chunks)[at] == chunks[k][p] && Flatten(chunks)[at + 1] == chunks[k][p + 1]
    ensures Flatten(chunks[k := Put16(chunks[k], p, v)]) == Put16(Flatten(chunks), at, v)
    decreases k
  {
    var chunks' := chunks[k := Put16(chunks[k], p, v)];
    if k == 0 {
      assert chunks'[1..] == chunks[1..];
      at := p;
    } else {
      var below := StoreInChunk(chunks[1..], k - 1, p, v);
      assert chunks'[1..] == chunks[1..][k - 1 := Put16(chunks[k], p, v)];
      at := |chunks[0]| + below;
    }
  }

  /** The digest of a chunked packet, stored in the zeroed checksum field of one of
      the chunks, makes the whole covered data sum to all ones. */
  lemma PacketVerifies(chunks: seq<Bytes>, k: nat, p: nat)
    requires WholeWords(chunks) && k < |chunks| && p + 2 <= |chunks[k]| && p % 2 == 0
    requires chunks[k][p] == 0 && chunks[k][p + 1] == 0
    ensures
      var digest := ONES - Accumulate(0, chunks);
      Accumulate(0, chunks[k := Put16(chunks[k], p, digest)]) == ONES
  {
    ChunksAreOne(0, chunks);
    var digest := ONES - Update(0, Flatten(chunks));
    var at := StoreInChunk(chunks, k, p, digest);
    DigestVerifies(Flatten(chunks), at);
    var chunks' := chunks[k := Put16(chunks[k], p, digest)];
    assert WholeWords(chunks') by {
      forall i | 0 <= i < |chunks'| - 1 ensures |chunks'[i]| % 2 == 0 { assert |chunks'[i]| == |chunks[i]|; }
    }
    ChunksAreOne(0, chunks');
  }
}
