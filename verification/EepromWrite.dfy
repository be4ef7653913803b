/** Writing a buffer of any length: the range check, the lazy detection of the page
    size at the buffer's own place, and the chunk loop, as a whole. */
module EepromWrite {
  import opened Arith
  import opened Eeprom
  import opened Options

  /** What a write leaves behind: the stores it made, the page size the driver now
      believes in, the attempts left over and whether the last one used was granted. */
  datatype Outcome = Outcome(stores: seq<Store>, ps: nat, left: Grants, ok: bool)

  // ---- detection ----

  /** Detection takes the EEPROM twice, to write and to read back; when refused it leaves
      the page size unknown. */
  function Detect(page: nat, max: nat, a: nat, g: Grants): Outcome
    requires page > 0 && max > 0
  {
    if !Granted(g) then Outcome([], 0, Rest(g), false)
    else
      var ok := Granted(Rest(g));
      Outcome(DetectStores(page, max, a), if ok then Detected(page, max, a) else 0, Rest(Rest(g)), ok)
  }

  /** Where detection is safe: at the start of a maximum-size page, or anywhere if the part's
      pages have the maximum size. */
  predicate SafePlace(page: nat, max: nat, a: nat)
    requires max > 0
  {
    a % max == 0 || page == max
  }

  /** At the start of a maximum-size page detection wraps inside the first page of it. */
  lemma ScratchAligned(page: nat, e: nat, max: nat, a: nat, x: nat)
    requires 0 < page <= max == Pow2(e) && a % max == 0 && a % page == 0 && a < SPAN && !(a <= x < a + max)
    ensures Last(DetectStores(page, max, a), x) == None
  {
    DetectLast(page, e, max, a, 0, x);
    SecondBurst(page, a, March(0, max), x);
  }

  lemma InPageLast(page: nat, base: nat, r: nat, ws: seq<Word>, x: nat)
    requires r < page && r + |ws| <= page && base % page == 0 && (ws == [] || base + r < SPAN)
    requires !(base + r <= x < base + r + |ws|)
    ensures Last(Send(page, base + r, ws), x) == None
  {
    if ws != [] {
      SendIs(page, base, r, ws);
      BurstInPage(page, base, r, ws);
      LastInOrder(base + r, ws, x);
    }
  }

  /** With pages of the maximum size it does not wrap at all. */
  lemma ScratchWhole(e: nat, max: nat, base: nat, r: nat, x: nat)
    requires r < max == Pow2(e) && base % max == 0 && base + r + max <= SPAN && !(base + r <= x < base + r + max)
    ensures Last(DetectStores(max, max, base + r), x) == None
  {
    DetectLast(max, e, max, base, r, x);
    assert Last(Send(max, base + r, March(0, max - r)), x) == None by {
      InPageLast(max, base, r, March(0, max - r), x);
    }
    assert Last(Send(max, base + max, March(max - r, r)), x) == None by {
      NextAligned(max, base);
      InPageLast(max, base + max, 0, March(max - r, r), x);
    }
  }

  /** So at a safe place it stores only in the `max` words from `a` on, ... */
  lemma ScratchStays(e: nat, f: nat, page: nat, max: nat, a: nat, x: nat)
    requires page == Pow2(e) && max == Pow2(e + f) && SafePlace(page, max, a) && a + max <= SPAN
    requires !(a <= x < a + max)
    ensures Last(DetectStores(page, max, a), x) == None
  {
    if page == max {
      var base, r := PageStart(max, a);
      ScratchWhole(e + f, max, base, r, x);
    } else {
      WholePages(e, f, page, max, a);
      ScratchAligned(page, e + f, max, a, x);
    }
  }

  /** A burst that runs over the end of its page stores at the page's start. */
  lemma BurstWraps(page: nat, base: nat, r: nat, n: nat)
    requires r < page < r + n
    ensures Last(Burst(page, base, r, March(0, n)), base).Some?
  {
    var k := page - r;
    var second := Burst(page, base, 0, March(k, n - k));
    MarchOn(page, base, r, 0, n, k);
    assert second[0].addr == base;
    LastConcat(Burst(page, base, r, March(0, k)), second, base);
  }

  /** Inside the first page of a maximum-size page, but not at its start, detection wraps. */
  lemma ScratchBelow(page: nat, e: nat, max: nat, base: nat, r: nat)
    requires max == Pow2(e) && 0 < r < page && 2 * page <= max && base + r < SPAN
    requires base % max == 0 && base % page == 0
    ensures Last(DetectStores(page, max, base + r), base).Some?
  {
    DetectLast(page, e, max, base, r, base);
    SendIs(page, base, r, March(0, max - r));
    BurstWraps(page, base, r, max - r);
  }

  /** Nothing is stored below `a`. */
  ghost predicate NoneBelow(st: seq<Store>, a: nat) {
    forall x: nat | x < a :: Last(st, x) == None
  }

  lemma SafeStaysAbove(e: nat, f: nat, page: nat, max: nat, a: nat)
    requires page == Pow2(e) && max == Pow2(e + f) && SafePlace(page, max, a) && a + max <= SPAN
    ensures NoneBelow(DetectStores(page, max, a), a)
  {
    forall x: nat | x < a ensures Last(DetectStores(page, max, a), x) == None {
      ScratchStays(e, f, page, max, a, x);
    }
  }

  lemma UnsafeWraps(e: nat, f: nat, page: nat, max: nat, base: nat, r: nat)
    requires page == Pow2(e) && max == Pow2(e + f) && base % max == 0 && 0 < r < page && page != max
    requires base + r < SPAN
    ensures !NoneBelow(DetectStores(page, max, base + r), base + r)
  {
    WholePages(e, f, page, max, base);
    ScratchBelow(page, e + f, max, base, r);
  }

  /** ... and finds the right size; elsewhere it finds a wrong size or stores below `a`. */
  lemma DetectionIff(e: nat, f: nat, page: nat, max: nat, a: nat)
    requires page == Pow2(e) && max == Pow2(e + f) && a + max <= SPAN
    ensures Detected(page, max, a) == page && NoneBelow(DetectStores(page, max, a), a) <==> SafePlace(page, max, a)
  {
    var base, r := PageStart(max, a);
    DetectedIff(e, f, page, max, base, r);
    if SafePlace(page, max, a) {
      SafeStaysAbove(e, f, page, max, a);
    } else if r < page {
      UnsafeWraps(e, f, page, max, base, r);
    }
  }

  // ---- the whole write ----

  predicate Detects(max: nat, ps: nat, n: nat) {
    ps == 0 && n > max
  }

  /** What detection, if there is any, leaves for the chunk loop. */
  function Before(page: nat, max: nat, ps: nat, a: nat, n: nat, g: Grants): Outcome
    requires page > 0 && max > 0
  {
    if Detects(max, ps, n) then Detect(page, max, a, g) else Outcome([], ps, g, true)
  }

  /** ixgbe_write_eeprom_buffer_bit_bang_generic past its argument checks. */
  function WriteWords(page: nat, max: nat, ps: nat, a: nat, ws: seq<Word>, g: Grants): Outcome
    requires page > 0 && max > 0
  {
    var d := Before(page, max, ps, a, |ws|, g);
    Outcome(d.stores + WriteChunks(page, d.ps, a, ws, 0, d.left), d.ps, Unused(|ws|, 0, d.left),
            Through(|ws|, 0, d.left))
  }

  /** `st` leaves exactly `ws` from `a` on, and every other word as it was. */
  ghost predicate Holds(st: seq<Store>, a: nat, ws: seq<Word>) {
    forall x: nat :: Last(st, x) == if a <= x < a + |ws| then Some(ws[x - a]) else None
  }

  lemma WriteLast(e: nat, page: nat, ps: nat, a: nat, ws: seq<Word>, g: Grants, st: seq<Store>, x: nat)
    requires page == Pow2(e) && (ps == 0 || ps == page) && a + |ws| <= SPAN
    ensures Sent(|ws|, 0, g) <= |ws|
    ensures Last(st + WriteChunks(page, ps, a, ws, 0, g), x)
         == if a <= x < a + Sent(|ws|, 0, g) then Some(ws[x - a]) else Last(st, x)
  {
    var n := Sent(|ws|, 0, g);
    WriteChunksExact(e, page, ps, a, ws, 0, g);
    LastInOrder(a, ws[0..n], x);
    LastConcat(st, WriteChunks(page, ps, a, ws, 0, g), x);
  }

  lemma BeforeSafe(e: nat, f: nat, page: nat, max: nat, ps: nat, a: nat, n: nat, g: Grants)
    requires page == Pow2(e) && max == Pow2(e + f) && (ps == 0 || ps == page) && a + n <= SPAN
    requires Detects(max, ps, n) ==> SafePlace(page, max, a)
    ensures var d := Before(page, max, ps, a, n, g);
            (d.ps == 0 || d.ps == page) && forall x: nat | !(a <= x < a + n) :: Last(d.stores, x) == None
  {
    if Detects(max, ps, n) {
      DetectionIff(e, f, page, max, a);
      forall x: nat | !(a <= x < a + n) ensures Last(DetectStores(page, max, a), x) == None {
        ScratchStays(e, f, page, max, a, x);
      }
    }
  }

  /** Within reach, from a safe place or with the page size known or not needed: whatever
      attempts are refused, no word outside the buffer's range changes, the page size believed
      in is the part's or none, and an accepted write leaves exactly the buffer. */
  lemma WriteSafe(e: nat, f: nat, page: nat, max: nat, ps: nat, a: nat, ws: seq<Word>, g: Grants)
    requires page == Pow2(e) && max == Pow2(e + f) && (ps == 0 || ps == page) && a + |ws| <= SPAN
    requires Detects(max, ps, |ws|) ==> SafePlace(page, max, a)
    ensures var o := WriteWords(page, max, ps, a, ws, g);
            && (o.ps == 0 || o.ps == page)
            && (forall x: nat | !(a <= x < a + |ws|) :: Last(o.stores, x) == None)
            && (o.ok ==> Holds(o.stores, a, ws))
  {
    var d, o := Before(page, max, ps, a, |ws|, g), WriteWords(page, max, ps, a, ws, g);
    BeforeSafe(e, f, page, max, ps, a, |ws|, g);
    SentBounds(|ws|, 0, d.left);
    forall x: nat
      ensures Last(o.stores, x) == if a <= x < a + Sent(|ws|, 0, d.left) then Some(ws[x - a]) else Last(d.stores, x)
    {
      WriteLast(e, page, d.ps, a, ws, d.left, d.stores, x);
    }
  }

  /** Beyond the reach of the address nothing is ever stored. */
  lemma WriteReach(page: nat, max: nat, ps: nat, a: nat, ws: seq<Word>, g: Grants, x: nat)
    requires page > 0 && max > 0 && SPAN % page == 0 && x >= SPAN
    ensures Last(WriteWords(page, max, ps, a, ws, g).stores, x) == None
  {
    var d := Before(page, max, ps, a, |ws|, g);
    ChunksReach(page, d.ps, a, ws, 0, d.left, x);
    LastConcat(d.stores, WriteChunks(page, d.ps, a, ws, 0, d.left), x);
    BufferReach(page, max, a, March(0, max), x);
  }

  /** A detected size or scratch words that are wrong stay wrong. */
  lemma UnsafeFails(e: nat, f: nat, page: nat, max: nat, ps: nat, a: nat, ws: seq<Word>, g: Grants)
    requires page == Pow2(e) && max == Pow2(e + f) && a + |ws| <= SPAN
    requires Detects(max, ps, |ws|) && Granted(g) && Granted(Rest(g)) && !SafePlace(page, max, a)
    ensures var o := WriteWords(page, max, ps, a, ws, g); !((o.ps == 0 || o.ps == page) && Holds(o.stores, a, ws))
  {
    var d := Detect(page, max, a, g);
    DetectionIff(e, f, page, max, a);
    if d.ps == page {
      var x: nat :| x < a && Last(d.stores, x) != None;
      WriteLast(e, page, d.ps, a, ws, d.left, d.stores, x);
    }
  }

  lemma SpanPages(e: nat)
    requires e <= 15
    ensures SPAN % Pow2(e) == 0
  {
    var page, c := Pow2(e), Pow2(15 - e);
    Pow2Sum(e, 15 - e);
    assert Pow2(15) == 0x8000;
    DivIs(SPAN, page, c, 0);
  }

  /** An accepted write whose detection was not refused leaves exactly the buffer and a right
      page size if and only if it ends within reach of the address and needed no detection or
      detected at a safe place. */
  lemma WriteIff(e: nat, f: nat, page: nat, max: nat, ps: nat, a: nat, ws: seq<Word>, g: Grants)
    requires e + f <= 15 && page == Pow2(e) && max == Pow2(e + f) && (ps == 0 || ps == page) && ws != []
    requires Detects(max, ps, |ws|) ==> Granted(g) && Granted(Rest(g))
    requires WriteWords(page, max, ps, a, ws, g).ok
    ensures var o := WriteWords(page, max, ps, a, ws, g);
            ((o.ps == 0 || o.ps == page) && Holds(o.stores, a, ws))
              <==> a + |ws| <= SPAN && (Detects(max, ps, |ws|) ==> SafePlace(page, max, a))
  {
    if a + |ws| > SPAN {
      SpanPages(e);
      WriteReach(page, max, ps, a, ws, g, a + |ws| - 1);
    } else if Detects(max, ps, |ws|) && !SafePlace(page, max, a) {
      UnsafeFails(e, f, page, max, ps, a, ws, g);
    } else {
      WriteSafe(e, f, page, max, ps, a, ws, g);
    }
  }

  /** Given the EEPROM whenever it asks, and often enough, a write of up to 0xFF00 words
      succeeds. */
  lemma WriteSucceeds(page: nat, max: nat, ps: nat, a: nat, ws: seq<Word>, g: Grants)
    requires page > 0 && max > 0 && |ws| <= LOOP_MAX
    requires |g| >= 2 && |ws| <= BUFFER_MAX * (|g| - 2) && forall x <- g :: x
    ensures WriteWords(page, max, ps, a, ws, g).ok
  {
    var d := Before(page, max, ps, a, |ws|, g);
    assert forall x <- d.left :: x in g;
    GetsThrough(|ws|, 0, d.left);
  }


  /** And no write of more than LOOP_MAX words is ever accepted, although the range check may
      let it pass: its loop goes on until the EEPROM is refused. */
  lemma LongNeverAccepted(page: nat, max: nat, ps: nat, a: nat, ws: seq<Word>, g: Grants)
    requires page > 0 && max > 0 && |ws| > LOOP_MAX
    ensures !WriteWords(page, max, ps, a, ws, g).ok
  {
    NeverThrough(|ws|, 0, Before(page, max, ps, a, |ws|, g).left);
  }

  // ---- the argument checks ----

  /** The range check subtracts as unsigned 32-bit numbers. */
  predicate InRange(size: nat, a: nat, n: nat) {
    n <= (size - a) % 0x1_0000_0000
  }

  /** It therefore lets every offset beyond the end pass. */
  lemma InRangeIff(size: nat, a: nat, n: nat)
    requires size < 0x1_0000_0000 && a < 0x10000 && n < 0x10000
    ensures InRange(size, a, n) <==> a + n <= size || size < a
  {
  }
}
