/** The perfect-filter hash: masks a 14-dword stream in place, hashes it with the bucket
    key and keeps the result in the stream's own bkt_hash field. */
module PerfectHash {
  import opened FdirHash

  const DWORDS: nat := 14

  function Masked(s: seq<Word>, m: seq<Word>): (r: seq<Word>)
    requires |s| == |m|
    ensures |r| == |s|
  {
    seq(|s|, i requires 0 <= i < |s| => s[i] * m[i])
  }

  function XorAll(s: seq<Word>): Word {
    if s == [] then {} else Xor(s[0], XorAll(s[1..]))
  }

  function Bucket(key: Word, s: seq<Word>): Word
    requires s != []
  {
    Low(OneKey(key, Swap(s[0]), Swap(XorAll(s[1..]))), 13)
  }

  /** bkt_hash is the last two bytes of the stream, on a little-endian host the upper half
      of the last dword. */
  function Stored(s: seq<Word>, h: Word): seq<Word>
    requires s != []
  {
    s[|s| - 1 := Low(s[|s| - 1], 16) + Up(h, 16)]
  }

  /** ixgbe_atr_compute_perfect_hash_82599 */
  function Compute(key: Word, s: seq<Word>, m: seq<Word>): seq<Word>
    requires |s| == |m| > 0
  {
    Stored(Masked(s, m), Bucket(key, Masked(s, m)))
  }

  /** The stored hash can be read back, and everything else is the masked stream. */
  lemma StoredHash(key: Word, s: seq<Word>, m: seq<Word>)
    requires |s| == |m| > 0
    ensures var r, n := Compute(key, s, m), |s| - 1;
            && Low(Down(r[n], 16), 16) == Bucket(key, Masked(s, m))
            && r[..n] == Masked(s, m)[..n] && Low(r[n], 16) == Low(s[n] * m[n], 16)
  {
    var h, last := Bucket(key, Masked(s, m)), Compute(key, s, m)[|s| - 1];
    forall x: nat | x < 16 ensures (x in Down(last, 16) <==> x in h) && x !in Up(h, 16) {
      assert Above(last, x, 16) <==> x + 16 in last;
      assert Below(h, x + 16, 16) <==> x in h;
      assert !Below(h, x, 16);
    }
  }

  predicate NoHashField(last: Word) {
    forall x <- last :: x < 16
  }

  /** With the hash field masked out, computing again changes nothing. */
  lemma ComputeTwice(key: Word, s: seq<Word>, m: seq<Word>)
    requires |s| == |m| > 0 && NoHashField(m[|m| - 1])
    ensures Compute(key, Compute(key, s, m), m) == Compute(key, s, m)
  {
    var once := Compute(key, s, m);
    forall i | 0 <= i < |s| ensures Masked(once, m)[i] == Masked(s, m)[i] {
      if i == |s| - 1 {
        var h := Bucket(key, Masked(s, m));
        forall x <- m[i] ensures x !in Up(h, 16) { assert !Below(h, x, 16); }
      }
    }
    assert Masked(once, m) == Masked(s, m);
  }

  /** On the same stream the perfect-filter bucket is the low 13 bits of the signature hash. */
  lemma SameBucket(bkey: Word, skey: Word, mask: Word, s: seq<Word>)
    requires s != [] && (forall x: nat | x < 13 :: x in mask)
    ensures Bucket(bkey, s) == Low(TwoKeys(bkey, skey, mask, s[0], XorAll(s[1..])), 13)
  {
    var k := OneKey(skey, Swap(s[0]), Swap(XorAll(s[1..]))) * mask;
    forall x: nat | x < 13 ensures x !in Up(k, 16) { assert !Below(k, x, 16); }
  }

  // ---- end to end, on bytes ----

  predicate Dwords(qs: seq<seq<Byte>>) {
    forall q <- qs :: |q| == 4
  }

  function Loaded(qs: seq<seq<Byte>>): (ws: seq<Word>)
    requires Dwords(qs)
    ensures |ws| == |qs|
  {
    seq(|qs|, i requires 0 <= i < |qs| => assert qs[i] in qs; Load(qs[i]))
  }

  function And4(q: seq<Byte>, m: seq<Byte>): seq<Byte>
    requires |q| == |m| == 4
  {
    [q[0] * m[0], q[1] * m[1], q[2] * m[2], q[3] * m[3]]
  }

  function Xor4(q: seq<Byte>, r: seq<Byte>): seq<Byte>
    requires |q| == |r| == 4
  {
    [Xor(q[0], r[0]), Xor(q[1], r[1]), Xor(q[2], r[2]), Xor(q[3], r[3])]
  }

  function AndBytes(qs: seq<seq<Byte>>, ms: seq<seq<Byte>>): (r: seq<seq<Byte>>)
    requires |qs| == |ms| && Dwords(qs) && Dwords(ms)
    ensures |r| == |qs| && Dwords(r)
  {
    seq(|qs|, i requires 0 <= i < |qs| => assert qs[i] in qs && ms[i] in ms; And4(qs[i], ms[i]))
  }

  /** All dwords added up, byte by byte. */
  function XorBytes(qs: seq<seq<Byte>>): (q: seq<Byte>)
    requires Dwords(qs)
    ensures |q| == 4
  {
    if qs == [] then [{}, {}, {}, {}] else Xor4(qs[0], XorBytes(qs[1..]))
  }

  /** Bits `from` to `to` - 1 of the hash of a masked stream, as a byte. */
  function HashByte(key: Word, qs: seq<seq<Byte>>, from: nat, to: nat): Byte
    requires qs != [] && Dwords(qs)
  {
    set b: nat | b < to - from && Hashes(key, qs, from, b)
  }

  predicate Hashes(key: Word, qs: seq<seq<Byte>>, from: nat, b: nat)
    requires qs != [] && Dwords(qs)
  {
    HashBit(key, Net(qs[0]), Net(XorBytes(qs[1..])), from + b, 0)
  }

  /** The masked stream with the 13 bits of its hash in its last two bytes. */
  function HashedBytes(key: Word, qs: seq<seq<Byte>>): seq<seq<Byte>>
    requires qs != [] && Dwords(qs)
  {
    var n := |qs| - 1;
    qs[n := [qs[n][0], qs[n][1], HashByte(key, qs, 0, 8), HashByte(key, qs, 8, 13)]]
  }

  lemma LoadAnd(q: seq<Byte>, m: seq<Byte>)
    requires |q| == |m| == 4
    ensures Load(And4(q, m)) == Load(q) * Load(m)
  {
    forall x: nat | x < 32 ensures And4(q, m)[x / 8] == q[x / 8] * m[x / 8] {}
  }

  lemma LoadXor(q: seq<Byte>, r: seq<Byte>)
    requires |q| == |r| == 4
    ensures Load(Xor4(q, r)) == Xor(Load(q), Load(r))
  {
    forall x: nat | x < 32 ensures Xor4(q, r)[x / 8] == Xor(q[x / 8], r[x / 8]) {}
  }

  lemma {:induction false} LoadXorAll(qs: seq<seq<Byte>>)
    requires Dwords(qs)
    ensures XorAll(Loaded(qs)) == Load(XorBytes(qs))
  {
    if qs == [] {
      assert Load(XorBytes(qs)) == {};
    } else {
      assert Loaded(qs)[1..] == Loaded(qs[1..]);
      LoadXorAll(qs[1..]);
      LoadXor(qs[0], XorBytes(qs[1..]));
    }
  }

  lemma LoadMasked(qs: seq<seq<Byte>>, ms: seq<seq<Byte>>)
    requires |qs| == |ms| && Dwords(qs) && Dwords(ms)
    ensures Masked(Loaded(qs), Loaded(ms)) == Loaded(AndBytes(qs, ms))
  {
    forall i | 0 <= i < |qs| ensures Masked(Loaded(qs), Loaded(ms))[i] == Loaded(AndBytes(qs, ms))[i] {
      assert qs[i] in qs && ms[i] in ms;
      LoadAnd(qs[i], ms[i]);
    }
  }

  lemma BucketBit(key: Word, qs: seq<seq<Byte>>, p: nat)
    requires qs != [] && Dwords(qs)
    ensures p in Bucket(key, Loaded(qs))
       <==> p < 13 && HashBit(key, Net(qs[0]), Net(XorBytes(qs[1..])), p, 0)
  {
    if p < 13 {
      assert Loaded(qs)[1..] == Loaded(qs[1..]);
      LoadXorAll(qs[1..]);
      SwapIs(qs[0]);
      SwapIs(XorBytes(qs[1..]));
      OneKeyBit(key, Net(qs[0]), Net(XorBytes(qs[1..])), p, 0);
    }
  }

  /** The upper half of a dword is its last two bytes. */
  lemma StoreHalf(q: seq<Byte>, h: Word, low: Byte, high: Byte)
    requires |q| == 4
    requires forall b: nat | b < 8 :: (b in low <==> b in h) && (b in high <==> b + 8 in h)
    ensures Low(Load(q), 16) + Up(h, 16) == Load([q[0], q[1], low, high])
  {
    var r := [q[0], q[1], low, high];
    forall x: nat | x < 32 ensures x in Low(Load(q), 16) + Up(h, 16) <==> x in Load(r) {
      assert Below(h, x, 16) <==> 16 <= x && x - 16 in h;
      if x < 16 {
        assert r[x / 8] == q[x / 8];
      } else if x < 24 {
        assert x % 8 == x - 16 && x / 8 == 2;
      } else {
        assert x % 8 == x - 24 && x / 8 == 3;
        assert x - 24 in high <==> x - 24 + 8 in h;
      }
    }
  }

  /** The stored hash lies in the last two bytes. */
  lemma StoredBytes(key: Word, qs: seq<seq<Byte>>)
    requires qs != [] && Dwords(qs)
    ensures Dwords(HashedBytes(key, qs)) && Stored(Loaded(qs), Bucket(key, Loaded(qs))) == Loaded(HashedBytes(key, qs))
  {
    var n, h, r := |qs| - 1, Bucket(key, Loaded(qs)), HashedBytes(key, qs);
    var low, high := HashByte(key, qs, 0, 8), HashByte(key, qs, 8, 13);
    forall b: nat | b < 8 ensures (b in low <==> b in h) && (b in high <==> b + 8 in h) {
      BucketBit(key, qs, b);
      BucketBit(key, qs, b + 8);
      assert Hashes(key, qs, 0, b) <==> HashBit(key, Net(qs[0]), Net(XorBytes(qs[1..])), b, 0);
      assert Hashes(key, qs, 8, b) <==> HashBit(key, Net(qs[0]), Net(XorBytes(qs[1..])), b + 8, 0);
    }
    assert qs[n] in qs;
    StoreHalf(qs[n], h, low, high);
    forall i | 0 <= i < |qs| ensures Stored(Loaded(qs), h)[i] == Loaded(r)[i] {}
  }

  /** What the function does to the bytes of the stream. */
  lemma ComputeBytes(key: Word, qs: seq<seq<Byte>>, ms: seq<seq<Byte>>)
    requires |qs| == |ms| > 0 && Dwords(qs) && Dwords(ms)
    ensures Dwords(HashedBytes(key, AndBytes(qs, ms)))
    ensures Compute(key, Loaded(qs), Loaded(ms)) == Loaded(HashedBytes(key, AndBytes(qs, ms)))
  {
    LoadMasked(qs, ms);
    StoredBytes(key, AndBytes(qs, ms));
  }

  // ---- the driver ----

  lemma {:induction false} XorSnoc(s: seq<Word>, w: Word)
    ensures XorAll(s + [w]) == Xor(XorAll(s), w)
  {
    if s != [] {
      assert (s + [w])[1..] == s[1..] + [w];
      XorSnoc(s[1..], w);
      XorAssoc(s[0], XorAll(s[1..]), w);
    }
  }

  method ApplyMask(input: array<Word>, mask: array<Word>)
    requires input != mask && input.Length == mask.Length
    modifies input
    ensures input[..] == Masked(old(input[..]), mask[..])
  {
    for i := 0 to input.Length
      invariant forall j | 0 <= j < i :: input[j] == old(input[j]) * mask[j]
      invariant forall j | i <= j < input.Length :: input[j] == old(input[j])
    {
      input[i] := input[i] * mask[i];
    }
  }

  method XorRest(input: array<Word>) returns (w: Word)
    requires input.Length > 0
    ensures w == XorAll(input[1..])
  {
    w := {};
    for i := 1 to input.Length
      invariant w == XorAll(input[1..i])
    {
      w := Xor(w, input[i]);
      XorSnoc(input[1..i], input[i]);
      assert input[1..i + 1] == input[1..i] + [input[i]];
    }
    assert input[1..input.Length] == input[1..];
  }

  /** IXGBE_COMPUTE_BKT_HASH_ITERATION(n) */
  method BucketIteration(key: Word, lo: Word, hi: Word, n: nat, hash0: Word) returns (hash: Word)
    ensures hash == Xor(hash0, Term(key, lo, hi, n))
  {
    hash := hash0;
    if n in key { hash := Xor(hash, Down(lo, n)); }
    if n + 16 in key { hash := Xor(hash, Down(hi, n)); }
    XorAssoc(hash0, Pick(n in key, Down(lo, n)), Pick(n + 16 in key, Down(hi, n)));
  }

  method BucketHash(key: Word, flow: Word, common: Word) returns (hash: Word)
    ensures hash == OneKey(key, flow, common)
  {
    var lo := Down(common, 16) + Up(common, 16);
    var hi := Xor(common, Xor(flow, Down(flow, 16)));
    hash := BucketIteration(key, lo, hi, 0, {});
    lo := Xor(lo, Xor(flow, Up(flow, 16)));
    var i := 1;
    while i < HALF
      invariant 1 <= i <= HALF && Xor(hash, Terms(key, lo, hi, i, HALF)) == OneKey(key, flow, common)
    {
      XorAssoc(hash, Term(key, lo, hi, i), Terms(key, lo, hi, i + 1, HALF));
      hash := BucketIteration(key, lo, hi, i, hash);
      i := i + 1;
    }
  }

  method ComputePerfectHash(key: Word, input: array<Word>, mask: array<Word>)
    requires input != mask && input.Length == mask.Length == DWORDS
    modifies input
    ensures input[..] == Compute(key, old(input[..]), mask[..])
  {
    ApplyMask(input, mask);
    var rest := XorRest(input);
    assert input[..][1..] == input[1..];
    var hash := BucketHash(key, Swap(input[0]), Swap(rest));
    input[13] := Low(input[13], 16) + Up(Low(hash, 13), 16);
  }
}
