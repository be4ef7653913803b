/** The Flow Director hashes.  The signature function folds a bucket key and a signature
    key over one stream at a time; the perfect-filter function folds the bucket key alone.
    A 32-bit word is the set of positions of its 1 bits. */
module FdirHash {

  type Word = set<nat>

  function Xor(s: Word, t: Word): Word {
    (s - t) + (t - s)
  }

  /** s >> n and s << n, in 32 bits. */
  function Down(s: Word, n: nat): Word {
    set x: nat | x < 32 && Above(s, x, n)
  }

  function Up(s: Word, n: nat): Word {
    set x: nat | x < 32 && Below(s, x, n)
  }

  predicate Above(s: Word, x: nat, n: nat) {
    x + n in s
  }

  predicate Below(s: Word, x: nat, n: nat) {
    n <= x && x - n in s
  }

  /** The low `n` bits. */
  function Low(s: Word, n: nat): Word {
    set x: nat | x < n && x in s
  }

  function Pick(b: bool, s: Word): Word {
    if b then s else {}
  }

  // ---- the words that are hashed ----

  /** IXGBE_NTOHL on a little-endian host. */
  function Swap(s: Word): Word {
    set x: nat | x < 32 && Mirrored(s, x)
  }

  predicate Mirrored(s: Word, x: nat)
    requires x < 32
  {
    (3 - x / 8) * 8 + x % 8 in s
  }

  function HiWord(flow: Word, common: Word): Word {
    Xor(common, Xor(flow, Down(flow, 16)))
  }

  /** The low word before the flow is applied, used for bit 0 of the key. */
  function LoFirst(common: Word): Word {
    Down(common, 16) + Up(common, 16)
  }

  function LoWord(flow: Word, common: Word): Word {
    Xor(LoFirst(common), Xor(flow, Up(flow, 16)))
  }

  // ---- the hash of one key ----

  /** What bits n and n + 16 of the key choose. */
  function Term(key: Word, lo: Word, hi: Word, n: nat): Word {
    Xor(Pick(n in key, Down(lo, n)), Pick(n + 16 in key, Down(hi, n)))
  }

  function Terms(key: Word, lo: Word, hi: Word, n: nat, end: nat): Word
    decreases key, end - n
  {
    if n >= end then {} else Xor(Term(key, lo, hi, n), Terms(key, lo, hi, n + 1, end))
  }

  const HALF: nat := 16

  function OneKey(key: Word, flow: Word, common: Word): Word {
    Xor(Term(key, LoFirst(common), HiWord(flow, common), 0),
        Terms(key, LoWord(flow, common), HiWord(flow, common), 1, HALF))
  }

  /** One hash in the low half, the other in the high half. */
  function TwoKeys(bkey: Word, skey: Word, mask: Word, input: Word, common: Word): Word {
    var flow, com := Swap(input), Swap(common);
    OneKey(bkey, flow, com) * mask + Up(OneKey(skey, flow, com) * mask, 16)
  }

  // ---- the hash of two keys at once ----

  /** The upper half of the signature and common accumulators together. */
  function Upper(sig: Word, common: Word): Word {
    Low(Down(Xor(sig, Up(common, 16)), 16), 16)
  }

  /** The bucket and common accumulators stand for the hash `b` of the bucket key, the upper
      half of the signature and common accumulators for `s` of the signature key. */
  predicate Stands(sig: Word, bucket: Word, common: Word, b: Word, s: Word) {
    Xor(bucket, common) == b && Upper(sig, common) == Low(s, 16)
  }

  /** One of the two three-way tests of IXGBE_COMPUTE_SIG_HASH_ITERATION. */
  method Fold(bkey: Word, skey: Word, w: Word, at: nat, n: nat, sig0: Word, bucket0: Word, common0: Word,
              ghost b: Word, ghost s: Word)
    returns (sig: Word, bucket: Word, common: Word)
    requires n < 16 && Stands(sig0, bucket0, common0, b, s)
    ensures Stands(sig, bucket, common, Xor(b, Pick(at in bkey, Down(w, n))), Xor(s, Pick(at in skey, Down(w, n))))
  {
    sig, bucket, common := sig0, bucket0, common0;
    if at in bkey * skey {
      common := Xor(common, Down(w, n));
      UpperCommon(sig, common0, Down(w, n));
    } else if at in bkey {
      bucket := Xor(bucket, Down(w, n));
    } else if at in skey {
      sig := Xor(sig, Up(w, 16 - n));
      UpperSig(sig0, common, w, n);
    }
    LowXor(s, Pick(at in skey, Down(w, n)), 16);
  }

  lemma LowXor(s: Word, t: Word, n: nat)
    ensures Low(Xor(s, t), n) == Xor(Low(s, n), Low(t, n))
  {
  }

  lemma UpperCommon(sig: Word, common: Word, v: Word)
    ensures Upper(sig, Xor(common, v)) == Xor(Upper(sig, common), Low(v, 16))
  {
    forall x: nat | x < 16
      ensures x in Upper(sig, Xor(common, v)) <==> x in Xor(Upper(sig, common), Low(v, 16))
    {
      assert Above(Xor(sig, Up(Xor(common, v), 16)), x, 16) <==> (x + 16 in sig) != (x in Xor(common, v));
      assert Above(Xor(sig, Up(common, 16)), x, 16) <==> (x + 16 in sig) != (x in common);
    }
  }

  /** Shifted up by 16 - n or down by n, the upper and the lower half are the same. */
  lemma UpperSig(sig: Word, common: Word, w: Word, n: nat)
    requires n < 16
    ensures Upper(Xor(sig, Up(w, 16 - n)), common) == Xor(Upper(sig, common), Low(Down(w, n), 16))
  {
    var sig1 := Xor(sig, Up(w, 16 - n));
    forall x: nat | x < 16
      ensures x in Upper(sig1, common) <==> x in Xor(Upper(sig, common), Low(Down(w, n), 16))
    {
      assert Below(w, x + 16, 16 - n) <==> Above(w, x, n);
      assert Above(Xor(sig1, Up(common, 16)), x, 16) <==> (x + 16 in sig1) != (x in common);
      assert Above(Xor(sig, Up(common, 16)), x, 16) <==> (x + 16 in sig) != (x in common);
    }
  }

  /** IXGBE_COMPUTE_SIG_HASH_ITERATION(n) */
  method Iteration(bkey: Word, skey: Word, lo: Word, hi: Word, n: nat, sig0: Word, bucket0: Word, common0: Word,
                   ghost b: Word, ghost s: Word)
    returns (sig: Word, bucket: Word, common: Word)
    requires n < 16 && Stands(sig0, bucket0, common0, b, s)
    ensures Stands(sig, bucket, common, Xor(b, Term(bkey, lo, hi, n)), Xor(s, Term(skey, lo, hi, n)))
  {
    ghost var b1, s1 := Xor(b, Pick(n in bkey, Down(lo, n))), Xor(s, Pick(n in skey, Down(lo, n)));
    sig, bucket, common := Fold(bkey, skey, lo, n, n, sig0, bucket0, common0, b, s);
    sig, bucket, common := Fold(bkey, skey, hi, n + 16, n, sig, bucket, common, b1, s1);
    XorAssoc(b, Pick(n in bkey, Down(lo, n)), Pick(n + 16 in bkey, Down(hi, n)));
    XorAssoc(s, Pick(n in skey, Down(lo, n)), Pick(n + 16 in skey, Down(hi, n)));
  }

  lemma XorAssoc(s: Word, t: Word, u: Word)
    ensures Xor(Xor(s, t), u) == Xor(s, Xor(t, u))
  {
  }

  lemma Combine(sig: Word, bucket: Word, common: Word, b: Word, s: Word, mask: Word)
    requires Stands(sig, bucket, common, b, s) && forall x <- mask :: x < 16
    ensures Xor(Xor(sig, Up(common, 16)) * Up(mask, 16), Xor(bucket, common) * mask) == b * mask + Up(s * mask, 16)
  {
    var upper := Xor(sig, Up(common, 16));
    forall x: nat | x in mask ensures x + 16 in upper <==> x in s {
      assert x in Upper(sig, common) <==> x in Low(s, 16);
      assert Above(upper, x, 16) <==> x + 16 in upper;
    }
    forall x: nat ensures x in upper * Up(mask, 16) <==> x in Up(s * mask, 16) {
      if 16 <= x < 32 && x - 16 in mask { assert x - 16 + 16 in upper <==> x - 16 in s; }
      assert Below(mask, x, 16) <==> 16 <= x && x - 16 in mask;
      assert Below(s * mask, x, 16) <==> 16 <= x && x - 16 in s && x - 16 in mask;
    }
  }

  /** ixgbe_atr_compute_sig_hash_82599, its iterations rolled into a loop: the bucket key's
      hash in the low half and the signature key's in the high half, for any keys and any
      mask of at most 16 bits. */
  method SigHash(bkey: Word, skey: Word, mask: Word, input: Word, common: Word) returns (h: Word)
    requires forall x <- mask :: x < 16
    ensures h == TwoKeys(bkey, skey, mask, input, common)
  {
    var flow := Swap(input);
    var hi := Swap(common);
    var lo := Down(hi, 16) + Up(hi, 16);
    hi := Xor(hi, Xor(flow, Down(flow, 16)));
    ghost var b, s := {}, {};
    var sig, bucket, both := {}, {}, {};
    assert Stands(sig, bucket, both, b, s);
    sig, bucket, both := Iteration(bkey, skey, lo, hi, 0, sig, bucket, both, b, s);
    b, s := Xor(b, Term(bkey, lo, hi, 0)), Xor(s, Term(skey, lo, hi, 0));
    lo := Xor(lo, Xor(flow, Up(flow, 16)));
    var n := 1;
    while n < HALF
      invariant 1 <= n <= HALF && Stands(sig, bucket, both, b, s)
      invariant Xor(b, Terms(bkey, lo, hi, n, HALF)) == OneKey(bkey, flow, Swap(common))
      invariant Xor(s, Terms(skey, lo, hi, n, HALF)) == OneKey(skey, flow, Swap(common))
    {
      sig, bucket, both := Iteration(bkey, skey, lo, hi, n, sig, bucket, both, b, s);
      XorAssoc(b, Term(bkey, lo, hi, n), Terms(bkey, lo, hi, n + 1, HALF));
      XorAssoc(s, Term(skey, lo, hi, n), Terms(skey, lo, hi, n + 1, HALF));
      b, s := Xor(b, Term(bkey, lo, hi, n)), Xor(s, Term(skey, lo, hi, n));
      n := n + 1;
    }
    Combine(sig, bucket, both, b, s, mask);
    bucket := Xor(bucket, both) * mask;
    sig := Xor(sig, Up(both, 16)) * Up(mask, 16);
    h := Xor(sig, bucket);
  }

  // ---- what the hash of one key is ----

  /** 48 bits of stream: the low half of the low word, then the high word. */
  function Stream(lo: Word, hi: Word): Word {
    set x: nat | x < 48 && OnStream(lo, hi, x)
  }

  predicate OnStream(lo: Word, hi: Word, x: nat) {
    if x < 16 then x in lo else x - 16 in hi
  }

  /** The 16 bits of stream from position `m` on. */
  function Window(t: Word, m: nat): Word {
    set x: nat | x < 16 && Above(t, x, m)
  }

  /** The windows at the key's 1 bits, from bit `m` on. */
  function Windows(key: Word, t: Word, m: nat, end: nat): Word
    decreases key, end - m
  {
    if m >= end then {} else Xor(Pick(m in key, Window(t, m)), Windows(key, t, m + 1, end))
  }

  predicate Is32(s: Word) {
    forall x <- s :: x < 32
  }

  /** The high half of the low word is the low half of the high word. */
  lemma Overlap(flow: Word, common: Word, x: nat)
    requires Is32(flow) && Is32(common) && x < 16
    ensures x + 16 in LoWord(flow, common) <==> x in HiWord(flow, common)
  {
    assert Below(flow, x + 16, 16) <==> x in flow;
    assert Below(common, x + 16, 16) <==> x in common;
    assert !Above(common, x + 16, 16);
    assert Above(flow, x, 16) <==> x + 16 in flow;
  }

  predicate Joined(lo: Word, hi: Word) {
    Is32(hi) && forall x: nat | x < 16 :: Above(lo, x, 16) <==> x in hi
  }

  lemma WordsJoined(flow: Word, common: Word)
    requires Is32(flow) && Is32(common)
    ensures Joined(LoWord(flow, common), HiWord(flow, common))
  {
    forall x: nat | x < 16 ensures Above(LoWord(flow, common), x, 16) <==> x in HiWord(flow, common) {
      Overlap(flow, common, x);
    }
  }

  lemma TermWindows(key: Word, lo: Word, hi: Word, n: nat)
    requires n < 16 && Joined(lo, hi)
    ensures var t := Stream(lo, hi);
            Low(Term(key, lo, hi, n), 16)
              == Xor(Pick(n in key, Window(t, n)), Pick(n + 16 in key, Window(t, n + 16)))
  {
    var t := Stream(lo, hi);
    forall x: nat | x < 16
      ensures (x in Window(t, n) <==> x in Down(lo, n)) && (x in Window(t, n + 16) <==> x in Down(hi, n))
    {
      if x + n >= 16 { assert Above(lo, x + n - 16, 16) <==> x + n in lo; }
      assert Above(lo, x, n) <==> Above(t, x, n);
      assert Above(hi, x, n) <==> Above(t, x, n + 16);
    }
  }

  lemma {:induction false} TermsWindows(key: Word, lo: Word, hi: Word, n: nat)
    requires n <= HALF && Joined(lo, hi)
    ensures var t := Stream(lo, hi);
            Low(Terms(key, lo, hi, n, HALF), 16)
              == Xor(Windows(key, t, n, HALF), Windows(key, t, n + 16, HALF + 16))
    decreases HALF - n
  {
    if n < HALF {
      var t := Stream(lo, hi);
      TermsWindows(key, lo, hi, n + 1);
      TermWindows(key, lo, hi, n);
      LowXor(Term(key, lo, hi, n), Terms(key, lo, hi, n + 1, HALF), 16);
    }
  }

  lemma {:induction false} WindowsSplit(key: Word, t: Word, m: nat, k: nat, end: nat)
    requires m <= k <= end
    ensures Windows(key, t, m, end) == Xor(Windows(key, t, m, k), Windows(key, t, k, end))
    decreases k - m
  {
    if m < k {
      WindowsSplit(key, t, m + 1, k, end);
      XorAssoc(Pick(m in key, Window(t, m)), Windows(key, t, m + 1, k), Windows(key, t, k, end));
    }
  }

  /** The hash is the exclusive or of the 16-bit windows of one 48-bit stream at the 1 bits
      of the key, except that bit 0 sees the stream without the flow. */
  lemma OneKeyIs(key: Word, flow: Word, common: Word)
    requires Is32(flow) && Is32(common)
    ensures var t := Stream(LoWord(flow, common), HiWord(flow, common));
            Low(OneKey(key, flow, common), 16) == Xor(Windows(key, t, 0, 32), Pick(0 in key, Low(flow, 16)))
  {
    var lo, hi := LoWord(flow, common), HiWord(flow, common);
    var t := Stream(lo, hi);
    WordsJoined(flow, common);
    FirstTerm(key, flow, common);
    TermsWindows(key, lo, hi, 0);
    WindowsSplit(key, t, 0, HALF, 32);
    var first, rest := Term(key, LoFirst(common), hi, 0), Terms(key, lo, hi, 1, HALF);
    LowXor(first, rest, 16);
    LowXor(Term(key, lo, hi, 0), rest, 16);
  }

  lemma FirstTerm(key: Word, flow: Word, common: Word)
    ensures var lo, hi := LoWord(flow, common), HiWord(flow, common);
            Low(Term(key, LoFirst(common), hi, 0), 16)
              == Xor(Low(Term(key, lo, hi, 0), 16), Pick(0 in key, Low(flow, 16)))
  {
    var lo := LoWord(flow, common);
    forall x: nat | x < 16 ensures x in Down(LoFirst(common), 0) <==> (x in Down(lo, 0)) != (x in flow) {
      assert !Below(flow, x, 16);
      assert Above(lo, x, 0) <==> x in lo;
      assert Above(LoFirst(common), x, 0) <==> x in LoFirst(common);
    }
  }

  // ---- end to end, on bytes ----

  /** A byte is the set of positions of its 1 bits, and a dword four of them as they lie in
      memory. */
  type Byte = set<nat>

  /** The dword as a little-endian host loads it, and in network order. */
  function Load(q: seq<Byte>): Word
    requires |q| == 4
  {
    set x: nat | x < 32 && x % 8 in q[x / 8]
  }

  function Net(q: seq<Byte>): Word
    requires |q| == 4
  {
    set x: nat | x < 32 && x % 8 in q[3 - x / 8]
  }

  lemma SwapIs(q: seq<Byte>)
    requires |q| == 4
    ensures Swap(Load(q)) == Net(q)
  {
    forall x: nat | x < 32 ensures x in Swap(Load(q)) <==> x in Net(q) {
      var y := (3 - x / 8) * 8 + x % 8;
      assert y / 8 == 3 - x / 8 && y % 8 == x % 8;
      assert Mirrored(Load(q), x) <==> y in Load(q);
    }
  }

  /** Bit `x` of the 48-bit stream of a flow and a common dword in network order. */
  predicate StreamBit(flow: Word, common: Word, x: nat) {
    if x < 16 then (x + 16 in common) != (x in flow)
    else if x < 32 then ((x - 16 in common) != (x - 16 in flow)) != (x in flow)
    else (x - 16 in common) != (x - 16 in flow)
  }

  /** Bit `p` of the hash: the stream bits at `p` plus a 1 bit of the key, added up modulo 2;
      key bit 0 sees the stream without the flow. */
  predicate HashBit(key: Word, flow: Word, common: Word, p: nat, m: nat)
    decreases 32 - m
  {
    if m >= 32 then false
    else (m in key && if m == 0 then p + 16 in common else StreamBit(flow, common, m + p))
         != HashBit(key, flow, common, p, m + 1)
  }

  lemma StreamIs(flow: Word, common: Word, x: nat)
    requires Is32(flow) && Is32(common) && x < 48
    ensures x in Stream(LoWord(flow, common), HiWord(flow, common)) <==> StreamBit(flow, common, x)
  {
    assert OnStream(LoWord(flow, common), HiWord(flow, common), x) <==> StreamBit(flow, common, x) by {
      if x < 16 {
        assert !Below(flow, x, 16) && !Below(common, x, 16);
        assert Above(common, x, 16) <==> x + 16 in common;
      } else {
        assert Above(flow, x - 16, 16) <==> x in flow;
      }
    }
  }

  lemma {:induction false} WindowsBit(key: Word, flow: Word, common: Word, p: nat, m: nat)
    requires Is32(flow) && Is32(common) && p < 16 && 0 < m <= 32
    ensures p in Windows(key, Stream(LoWord(flow, common), HiWord(flow, common)), m, 32)
       <==> HashBit(key, flow, common, p, m)
    decreases 32 - m
  {
    if m < 32 {
      var t := Stream(LoWord(flow, common), HiWord(flow, common));
      WindowsBit(key, flow, common, p, m + 1);
      StreamIs(flow, common, m + p);
      assert p in Window(t, m) <==> Above(t, p, m);
    }
  }

  /** The hash of one key, bit by bit. */
  lemma OneKeyBit(key: Word, flow: Word, common: Word, p: nat, m: nat)
    requires Is32(flow) && Is32(common) && p < 16 && m == 0
    ensures p in OneKey(key, flow, common) <==> HashBit(key, flow, common, p, m)
  {
    var t := Stream(LoWord(flow, common), HiWord(flow, common));
    OneKeyIs(key, flow, common);
    assert p in OneKey(key, flow, common) <==> p in Low(OneKey(key, flow, common), 16);
    WindowsBit(key, flow, common, p, m + 1);
    StreamIs(flow, common, p);
    assert p in Window(t, 0) <==> Above(t, p, 0);
    assert Windows(key, t, m, 32) == Xor(Pick(m in key, Window(t, m)), Windows(key, t, m + 1, 32));
  }

  /** Both hashes of two dwords in memory, bit by bit: `p` below 16 is the bucket's, `p` plus
      16 the signature's. */
  lemma SigHashBit(bkey: Word, skey: Word, mask: Word, input: seq<Byte>, common: seq<Byte>, p: nat)
    requires |input| == |common| == 4 && p < 16 && forall x <- mask :: x < 16
    ensures var h := TwoKeys(bkey, skey, mask, Load(input), Load(common));
            && (p in h <==> p in mask && HashBit(bkey, Net(input), Net(common), p, 0))
            && (p + 16 in h <==> p in mask && HashBit(skey, Net(input), Net(common), p, 0))
            && Is32(h)
  {
    SwapIs(input);
    SwapIs(common);
    OneKeyBit(bkey, Net(input), Net(common), p, 0);
    OneKeyBit(skey, Net(input), Net(common), p, 0);
    var s := OneKey(skey, Net(input), Net(common)) * mask;
    assert !Below(s, p, 16) && (Below(s, p + 16, 16) <==> p in s);
  }
}
