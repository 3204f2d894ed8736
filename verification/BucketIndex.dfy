/** The hash map's iteration: scanning one bucket for a key against scanning the whole
    map, and scanning while the current entry is unlinked. */
module BucketIndex {
  import opened Prelude

  const GOLDEN: nat := 11400714819323198485

  /** A product in 64 bits. */
  function Mul64(x: nat, y: nat): nat { x * y % Pow2(64) }

  function ShiftRight(x: nat, n: nat): nat { if n == 0 then x else ShiftRight(x / 2, n - 1) }

  /** The upper bits of a multiplicative hash, on a 64-bit machine. */
  function HashBits(h: nat, bits: nat): nat
    requires bits <= 64
  {
    if bits == 0 then 0 else ShiftRight(Mul64(h, GOLDEN), 64 - bits)
  }

  lemma {:induction false} ShiftRightFits(x: nat, a: nat, n: nat)
    requires x < Pow2(a + n)
    ensures ShiftRight(x, n) < Pow2(a)
    decreases n
  {
    if n > 0 { ShiftRightFits(x / 2, a, n - 1); }
  }

  /** It is a bucket number. */
  lemma HashBitsFits(h: nat, bits: nat)
    requires bits <= 64
    ensures HashBits(h, bits) < Pow2(bits)
  {
    if bits > 0 { ShiftRightFits(Mul64(h, GOLDEN), bits, 64 - bits); }
  }

  lemma {:induction false} ShiftRightDivides(x: nat, n: nat)
    ensures ShiftRight(x, n) * Pow2(n) <= x < (ShiftRight(x, n) + 1) * Pow2(n)
  {
    if n > 0 {
      ShiftRightDivides(x / 2, n - 1);
      Doubled(x, ShiftRight(x / 2, n - 1), Pow2(n - 1));
    }
  }

  lemma Doubled(x: nat, q: nat, p: nat)
    requires q * p <= x / 2 < (q + 1) * p
    ensures q * (2 * p) <= x < (q + 1) * (2 * p)
  {
    var whole, next := q * p, (q + 1) * p;
    assert q * (2 * p) == 2 * whole;
    assert (q + 1) * (2 * p) == 2 * next;
    assert 2 * whole <= x < 2 * next;
  }

  lemma Pow2Eight(n: nat)
    ensures Pow2(n + 8) == 256 * Pow2(n)
  {
    assert Pow2(n + 4) == 16 * Pow2(n) by {
      assert Pow2(n + 2) == 4 * Pow2(n);
    }
    assert Pow2(n + 6) == 4 * Pow2(n + 4);
  }

  lemma Pow2Is64()
    ensures Pow2(64) == 0x1_0000_0000_0000_0000
  {
    Pow2Eight(0);
    Pow2Eight(8);
    Pow2Eight(16);
    Pow2Eight(24);
    Pow2Eight(32);
    Pow2Eight(40);
    Pow2Eight(48);
    Pow2Eight(56);
  }

  /** It is the upper bits of the product modulo 2^64: the product without its lower
      64 - bits. */
  lemma HashBitsAreUpper(h: nat, bits: nat)
    requires 0 < bits <= 64
    ensures
      var product, unit := h * 11400714819323198485 % 0x1_0000_0000_0000_0000, Pow2(64 - bits);
      HashBits(h, bits) * unit <= product < (HashBits(h, bits) + 1) * unit
  {
    Pow2Is64();
    ShiftRightDivides(Mul64(h, GOLDEN), 64 - bits);
  }

  class Entry {
    const key: int
    const value: int
    var next: Entry?

    constructor (key: int, value: int)
    {
      this.key := key;
      this.value := value;
      next := null;
    }
  }

  /** s is the chain that starts at head. */
  ghost predicate Linked(head: Entry?, s: seq<Entry>)
    reads s
  {
    && head == (if s == [] then null else s[0])
    && forall i :: 0 <= i < |s| ==> LinkAt(s, i)
  }

  ghost predicate LinkAt(s: seq<Entry>, i: nat)
    requires i < |s|
    reads s
  {
    s[i].next == At(s, i + 1)
  }

  function At(s: seq<Entry>, i: nat): Entry? { if i < |s| then s[i] else null }

  lemma {:induction false} LinkedOnce(head: Entry?, s: seq<Entry>, i: nat, j: nat)
    requires Linked(head, s) && i < j < |s|
    ensures s[i] != s[j]
    decreases |s| - j
  {
    if s[i] == s[j] {
      assert LinkAt(s, i) && LinkAt(s, j);
      if j + 1 < |s| { LinkedOnce(head, s, i + 1, j + 1); }
    }
  }

  function Flat(chains: seq<seq<Entry>>): seq<Entry>
    decreases |chains|
  {
    if chains == [] then [] else Flat(chains[..|chains| - 1]) + chains[|chains| - 1]
  }

  lemma {:induction false} FlatFrom(chains: seq<seq<Entry>>, k: nat) returns (c: nat, i: nat)
    requires k < |Flat(chains)|
    ensures c < |chains| && i < |chains[c]| && Flat(chains)[k] == chains[c][i]
    decreases |chains|
  {
    var n := |chains| - 1;
    if k < |Flat(chains[..n])| {
      c, i := FlatFrom(chains[..n], k);
    } else {
      c, i := n, k - |Flat(chains[..n])|;
    }
  }

  /** The wanted ones of the first n entries, and of them all, in order. */
  function KeepTo(s: seq<Entry>, n: nat, want: Entry -> bool): seq<Entry>
    requires n <= |s|
  {
    if n == 0 then [] else KeepTo(s, n - 1, want) + if want(s[n - 1]) then [s[n - 1]] else []
  }

  function Keep(s: seq<Entry>, want: Entry -> bool): seq<Entry> { KeepTo(s, |s|, want) }

  /** The wanted ones and no others. */
  lemma {:induction false} KeepMembers(s: seq<Entry>, n: nat, want: Entry -> bool)
    requires n <= |s|
    ensures forall e :: e in KeepTo(s, n, want) <==> e in s[..n] && want(e)
  {
    if n > 0 {
      KeepMembers(s, n - 1, want);
      assert s[..n] == s[..n - 1] + [s[n - 1]];
    }
  }

  lemma {:induction false} KeepFront(s: seq<Entry>, t: seq<Entry>, n: nat, want: Entry -> bool)
    requires n <= |s|
    ensures KeepTo(s + t, n, want) == KeepTo(s, n, want)
  {
    if n > 0 { KeepFront(s, t, n - 1, want); }
  }

  lemma {:induction false} KeepBack(s: seq<Entry>, t: seq<Entry>, n: nat, want: Entry -> bool)
    requires n <= |t|
    ensures KeepTo(s + t, |s| + n, want) == Keep(s, want) + KeepTo(t, n, want)
  {
    if n > 0 { KeepBack(s, t, n - 1, want); } else { KeepFront(s, t, |s|, want); }
  }

  lemma KeepAppend(s: seq<Entry>, t: seq<Entry>, want: Entry -> bool)
    ensures Keep(s + t, want) == Keep(s, want) + Keep(t, want)
  {
    KeepBack(s, t, |t|, want);
  }

  lemma {:induction false} KeepNone(s: seq<Entry>, n: nat, want: Entry -> bool)
    requires n <= |s| && forall i :: 0 <= i < |s| ==> !want(s[i])
    ensures KeepTo(s, n, want) == []
  {
    if n > 0 { KeepNone(s, n - 1, want); }
  }

  /** Scanning everything for entries that all sit in bucket b is scanning bucket b. */
  lemma {:induction false} OneBucketHoldsAll(chains: seq<seq<Entry>>, want: Entry -> bool, b: nat)
    requires forall c, i :: 0 <= c < |chains| && 0 <= i < |chains[c]| && want(chains[c][i]) ==> c == b
    ensures Keep(Flat(chains), want) == if b < |chains| then Keep(chains[b], want) else []
    decreases |chains|
  {
    if chains != [] {
      var n := |chains| - 1;
      var front := chains[..n];
      KeepAppend(Flat(front), chains[n], want);
      OneBucketHoldsAll(front, want, b);
      if b != n { KeepNone(chains[n], |chains[n]|, want); }
    }
  }

  function All(): Entry -> bool { (e: Entry) => true }

  /** What a scan that drops leaves. */
  function Stays(want: Entry -> bool, drop: Entry -> bool): Entry -> bool {
    (e: Entry) => !(want(e) && drop(e))
  }

  lemma {:induction false} KeepEvery(s: seq<Entry>, n: nat, want: Entry -> bool)
    requires n <= |s| && forall i :: 0 <= i < |s| ==> want(s[i])
    ensures KeepTo(s, n, want) == s[..n]
  {
    if n > 0 { KeepEvery(s, n - 1, want); }
  }

  function Without(s: seq<Entry>, i: nat): seq<Entry>
    requires i < |s|
  {
    s[..i] + s[i + 1..]
  }

  /** A chain scanned as far as i. */
  function Pending(chain: seq<Entry>, i: nat, stays: Entry -> bool): seq<Entry>
    requires i <= |chain|
  {
    KeepTo(chain, i, stays) + chain[i..]
  }

  lemma PendingSteps(chain: seq<Entry>, i: nat, stays: Entry -> bool)
    requires i < |chain|
    ensures
      var p, k := Pending(chain, i, stays), |KeepTo(chain, i, stays)|;
      && k < |p| && p[k] == chain[i] && At(p, k + 1) == At(chain, i + 1)
      && Pending(chain, i + 1, stays) == if stays(chain[i]) then p else Without(p, k)
  {
  }

  lemma PendingEnds(chain: seq<Entry>, stays: Entry -> bool)
    ensures Pending(chain, 0, stays) == chain && Pending(chain, |chain|, stays) == Keep(chain, stays)
  {
  }

  lemma PendingNext(chain: seq<Entry>, i: nat, stays: Entry -> bool)
    requires i < |chain| && forall k :: 0 <= k < |Pending(chain, i, stays)| ==> LinkAt(Pending(chain, i, stays), k)
    ensures chain[i].next == At(chain, i + 1)
  {
    PendingSteps(chain, i, stays);
    assert LinkAt(Pending(chain, i, stays), |KeepTo(chain, i, stays)|);
  }

  /** If only bucket b holds entries to lose, the map loses them by filtering b. */
  lemma {:induction false} OneBucketChanges(chains: seq<seq<Entry>>, stays: Entry -> bool, b: nat)
    requires forall c, i :: 0 <= c < |chains| && 0 <= i < |chains[c]| && !stays(chains[c][i]) ==> c == b
    ensures Keep(Flat(chains), stays) == Flat(if b < |chains| then chains[b := Keep(chains[b], stays)] else chains)
    decreases |chains|
  {
    if chains != [] {
      var n := |chains| - 1;
      var front := chains[..n];
      KeepAppend(Flat(front), chains[n], stays);
      OneBucketChanges(front, stays, b);
      if b != n { KeepEvery(chains[n], |chains[n]|, stays); }
      if b < n {
        assert chains[b := Keep(chains[b], stays)][..n] == front[b := Keep(front[b], stays)];
      } else if b == n {
        assert chains[b := Keep(chains[b], stays)][..n] == front;
      }
    }
  }

  lemma BucketDone(was: seq<seq<Entry>>, now: seq<seq<Entry>>, b: nat, stays: Entry -> bool)
    requires b < |was| == |now| && Flat(now[..b]) == Keep(Flat(was[..b]), stays)
    ensures Flat(was[..b + 1]) == Flat(was[..b]) + Keep(was[b], All())
    ensures Flat(now[b := Keep(was[b], stays)][..b + 1]) == Keep(Flat(was[..b + 1]), stays)
  {
    var next := now[b := Keep(was[b], stays)];
    assert was[..b + 1][..b] == was[..b] && next[..b + 1][..b] == now[..b];
    KeepEvery(was[b], |was[b]|, All());
    KeepAppend(Flat(was[..b]), was[b], stays);
  }

  ghost predicate Skips(chain: seq<Entry>, i: nat, k: nat)
    requires i < |chain| && k < |chain|
    reads chain
  {
    if k == i then true
    else if k + 1 == i then chain[k].next == At(chain, i + 1)
    else LinkAt(chain, k)
  }

  lemma Relinked(chain: seq<Entry>, i: nat, head: Entry?)
    requires i < |chain| && head == (if i == 0 then At(chain, 1) else chain[0])
    requires forall k :: 0 <= k < |chain| ==> Skips(chain, i, k)
    ensures Linked(head, Without(chain, i))
  {
    var s := Without(chain, i);
    forall k | 0 <= k < |s| ensures LinkAt(s, k) {
      assert Skips(chain, i, if k < i then k else k + 1);
    }
  }

  method Bypass(buckets: array<Entry?>, at: nat, ghost chain: seq<Entry>, ghost i: nat, e: Entry)
    requires at < buckets.Length && Linked(buckets[at], chain) && i < |chain| && chain[i] == e
    modifies buckets, chain
    ensures Linked(buckets[at], Without(chain, i))
    ensures forall c :: 0 <= c < buckets.Length && c != at ==> buckets[c] == old(buckets[c])
  {
    assert LinkAt(chain, i);
    forall k | 0 <= k < |chain| && k != i ensures chain[k] != e {
      LinkedOnce(buckets[at], chain, if k < i then k else i, if k < i then i else k);
    }
    if buckets[at] == e {
      buckets[at] := e.next;
    } else {
      var p := buckets[at];
      ghost var j := 0;
      assert LinkAt(chain, 0);
      while p.next != e
        invariant 0 <= j < i && p == chain[j] && p.next == chain[j + 1]
        decreases i - j
      {
        assert LinkAt(chain, j + 1);
        p := p.next;
        j := j + 1;
      }
      forall k | 0 <= k < |chain| && k != j ensures chain[k] != p {
        LinkedOnce(buckets[at], chain, if k < j then k else j, if k < j then j else k);
      }
      p.next := e.next;
    }
    e.next := null;
    forall k | 0 <= k < |chain| ensures Skips(chain, i, k) {
      assert old(LinkAt(chain, k));
    }
    Relinked(chain, i, buckets[at]);
  }

  class HashMap {
    const hash: int -> nat
    const equal: (int, int) -> bool
    const buckets: array?<Entry?>
    const bits: nat
    ghost var chains: seq<seq<Entry>>

    ghost function Repr(): set<object>
      reads this
    {
      set b, i | 0 <= b < |chains| && 0 <= i < |chains[b]| :: chains[b][i]
    }

    ghost predicate Valid()
      reads this, Repr(), buckets
    {
      && bits <= 64
      && (forall k, l :: equal(k, l) ==> hash(k) == hash(l))
      && (if buckets == null then chains == [] else |chains| == buckets.Length == Pow2(bits))
      && (forall b :: 0 <= b < |chains| ==> Linked(buckets[b], chains[b]))
      && (forall b, i :: 0 <= b < |chains| && 0 <= i < |chains[b]| ==> Placed(chains[b][i], b))
    }

    ghost predicate Placed(e: Entry, b: nat)
      requires bits <= 64
    {
      HashBits(hash(e.key), bits) == b
    }

    function Matches(key: int): Entry -> bool
    {
      var eq := equal;
      (e: Entry) => eq(e.key, key)
    }

    /** No entry is visited twice. */
    lemma {:induction false} EachOnce(n: nat, k: nat, l: nat)
      requires Valid() && n <= |chains| && k < l < |Flat(chains[..n])|
      ensures Flat(chains[..n])[k] != Flat(chains[..n])[l]
      decreases n
    {
      var front := chains[..n - 1];
      var m := |Flat(front)|;
      assert chains[..n][..n - 1] == front;
      if l < m {
        EachOnce(n - 1, k, l);
      } else {
        assert Placed(chains[n - 1][l - m], n - 1);
        if k < m {
          var c, i := FlatFrom(front, k);
          assert Placed(chains[c][i], c);
        } else {
          LinkedOnce(buckets[n - 1], chains[n - 1], k - m, l - m);
        }
      }
    }

    /** hashmap__for_each_entry: every entry of every bucket, bucket by bucket. */
    method ForEachEntry() returns (visited: seq<Entry>)
      requires Valid()
      ensures visited == Flat(chains)
    {
      visited := [];
      if buckets == null {
        return;
      }
      for b := 0 to buckets.Length
        invariant visited == Flat(chains[..b])
      {
        ghost var chain, before, i := chains[b], visited, 0;
        var cur := buckets[b];
        while cur != null
          invariant 0 <= i <= |chain| && cur == At(chain, i)
          invariant visited == before + chain[..i]
          decreases |chain| - i
        {
          assert LinkAt(chain, i);
          visited := visited + [cur];
          cur := cur.next;
          i := i + 1;
        }
        assert chain[..i] == chain;
        assert chains[..b + 1][..b] == chains[..b];
      }
      assert chains[..|chains|] == chains;
    }

    lemma KeyInOneBucket(key: int)
      requires Valid()
      ensures
        var b := HashBits(hash(key), bits);
        && (forall c, i :: 0 <= c < |chains| && 0 <= i < |chains[c]| && Matches(key)(chains[c][i]) ==> c == b)
        && Keep(Flat(chains), Matches(key)) == if b < |chains| then Keep(chains[b], Matches(key)) else []
    {
      var b := HashBits(hash(key), bits);
      forall c, i | 0 <= c < |chains| && 0 <= i < |chains[c]| && Matches(key)(chains[c][i]) ensures c == b {
        assert Placed(chains[c][i], c);
      }
      OneBucketHoldsAll(chains, Matches(key), b);
    }

    /** hashmap__for_each_key_entry: exactly what a scan of the whole map for the key
        finds, in the same order. */
    method ForEachKeyEntry(key: int) returns (visited: seq<Entry>)
      requires Valid()
      ensures visited == Keep(Flat(chains), Matches(key))
      ensures forall e :: e in visited <==> e in Flat(chains) && equal(e.key, key)
    {
      visited := [];
      KeyInOneBucket(key);
      if buckets == null {
        return;
      }
      HashBitsFits(hash(key), bits);
      visited := ScanKey(HashBits(hash(key), bits), key);
      KeepMembers(Flat(chains), |Flat(chains)|, Matches(key));
    }

    method ScanKey(b: nat, key: int) returns (visited: seq<Entry>)
      requires Valid() && buckets != null && b < buckets.Length
      ensures visited == Keep(chains[b], Matches(key))
    {
      visited := [];
      ghost var chain, want, i := chains[b], Matches(key), 0;
      var cur := buckets[b];
      while cur != null
        invariant 0 <= i <= |chain| && cur == At(chain, i)
        invariant visited == KeepTo(chain, i, want)
        decreases |chain| - i
      {
        assert LinkAt(chain, i);
        if equal(cur.key, key) {
          visited := visited + [cur];
        }
        cur := cur.next;
        i := i + 1;
      }
    }

    /** Take one entry out of its chain, as the body of a safe iteration may. */
    method Unlink(ghost b: nat, ghost i: nat, e: Entry)
      requires Valid() && b < |chains| && i < |chains[b]| && chains[b][i] == e
      modifies buckets, this`chains, Repr()
      ensures Valid() && Repr() <= old(Repr())
      ensures chains == old(chains)[b := Without(old(chains[b]), i)]
    {
      ghost var chain := chains[b];
      ghost var was := chains;
      assert Placed(e, b) && forall k :: 0 <= k < |chain| ==> Placed(chain[k], b);
      Bypass(buckets, HashBits(hash(e.key), bits), chain, i, e);
      chains := chains[b := Without(chain, i)];
      forall c | 0 <= c < |chains| ensures Linked(buckets[c], chains[c]) {
        if c != b {
          assert Linked(old(buckets[c]), was[c]);
          assert forall k :: 0 <= k < |was[c]| ==> Placed(was[c][k], c);
          assert forall k :: 0 <= k < |was[c]| ==> was[c][k] !in chain;
        }
      }
    }

    /** One round of a safe iteration: note the next entry, then run the body, which
        may drop the current one. */
    method Visit(
      ghost was: seq<seq<Entry>>, ghost b: nat, ghost i: nat, cur: Entry,
      want: Entry -> bool, drop: Entry -> bool, visited: seq<Entry>)
      returns (next: Entry?, seen: seq<Entry>)
      requires Valid() && b < |was| && i < |was[b]| && was[b][i] == cur
      requires chains == was[b := Pending(was[b], i, Stays(want, drop))] && visited == KeepTo(was[b], i, want)
      modifies buckets, this`chains, Repr()
      ensures Valid() && Repr() <= old(Repr())
      ensures chains == was[b := Pending(was[b], i + 1, Stays(want, drop))]
      ensures next == At(was[b], i + 1) && seen == KeepTo(was[b], i + 1, want)
    {
      ghost var chain := was[b];
      ghost var k := |KeepTo(chain, i, Stays(want, drop))|;
      PendingSteps(chain, i, Stays(want, drop));
      assert chains[b] == Pending(chain, i, Stays(want, drop)) && Linked(buckets[b], chains[b]);
      PendingNext(chain, i, Stays(want, drop));
      next := cur.next;
      seen := visited;
      if want(cur) {
        seen := seen + [cur];
        if drop(cur) {
          Unlink(b, k, cur);
        }
      }
    }

    /** The inner loop of the safe forms: the next entry is read before the body runs,
        and the body unlinks what it is told to drop. */
    method ScanSafe(b: nat, want: Entry -> bool, drop: Entry -> bool) returns (visited: seq<Entry>)
      requires Valid() && buckets != null && b < buckets.Length
      modifies buckets, this`chains, Repr()
      ensures Valid() && Repr() <= old(Repr())
      ensures visited == Keep(old(chains[b]), want)
      ensures chains == old(chains)[b := Keep(old(chains[b]), Stays(want, drop))]
    {
      ghost var was, stays, i := chains, Stays(want, drop), 0;
      visited := [];
      var cur := buckets[b];
      ghost var chain := chains[b];
      PendingEnds(chain, stays);
      while cur != null
        invariant Valid() && Repr() <= old(Repr())
        invariant 0 <= i <= |chain| && cur == At(chain, i) && visited == KeepTo(chain, i, want)
        invariant chains == was[b := Pending(chain, i, stays)]
        decreases |chain| - i
      {
        cur, visited := Visit(was, b, i, cur, want, drop, visited);
        i := i + 1;
      }
    }

    /** hashmap__for_each_entry_safe: every entry that was there is visited, and
        exactly the dropped ones are gone. */
    method ForEachEntrySafe(drop: Entry -> bool) returns (visited: seq<Entry>)
      requires Valid()
      modifies buckets, this`chains, Repr()
      ensures Valid()
      ensures visited == old(Flat(chains))
      ensures Flat(chains) == Keep(old(Flat(chains)), Stays(All(), drop))
    {
      visited := [];
      ghost var was, stays := chains, Stays(All(), drop);
      if buckets == null {
        return;
      }
      for b := 0 to buckets.Length
        invariant Valid() && |chains| == |was| && Repr() <= old(Repr())
        invariant visited == Flat(was[..b])
        invariant Flat(chains[..b]) == Keep(Flat(was[..b]), stays)
        invariant forall c :: b <= c < |was| ==> chains[c] == was[c]
      {
        ghost var before := chains;
        var more := ScanSafe(b, All(), drop);
        visited := visited + more;
        BucketDone(was, before, b, stays);
      }
      assert was[..|was|] == was && chains[..|was|] == chains;
    }

    /** hashmap__for_each_key_entry_safe: every entry for the key is visited, and of
        the whole map exactly the dropped ones among them are gone. */
    method ForEachKeyEntrySafe(key: int, drop: Entry -> bool) returns (visited: seq<Entry>)
      requires Valid()
      modifies buckets, this`chains, Repr()
      ensures Valid()
      ensures visited == Keep(old(Flat(chains)), Matches(key))
      ensures Flat(chains) == Keep(old(Flat(chains)), Stays(Matches(key), drop))
    {
      ghost var was, want := chains, Matches(key);
      ghost var b := HashBits(hash(key), bits);
      KeyInOneBucket(key);
      OneBucketChanges(was, Stays(want, drop), b);
      visited := [];
      if buckets == null {
        return;
      }
      HashBitsFits(hash(key), bits);
      visited := ScanSafe(HashBits(hash(key), bits), Matches(key), drop);
    }
  }
}
