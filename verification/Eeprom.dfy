/** The bit-banged EEPROM writer.  The part takes a burst of words and stores them
    one after the other, its address wrapping inside a page of `page` words; the
    driver believes in a page size of its own (`word_page_size`, 0 if unknown)
    and ends bursts accordingly.  SPI framing below whole words is left out, but not
    the 16 bits of the byte address sent: they reach 0x8000 words. */
module Eeprom {
  import opened Arith
  import opened Options

  const PAGE_SIZE_MAX: nat := 128
  const BUFFER_MAX: nat := 256        // IXGBE_EEPROM_RD_BUFFER_MAX_COUNT
  const SPAN: nat := 0x8000           // words a 16-bit byte address reaches
  const U16: nat := 0x10000
  const LOOP_MAX: nat := 0xFF00

  type Word = nat

  /** One word stored by the part. */
  datatype Store = Store(addr: nat, word: Word)

  // ---- the part ----

  /** A burst from word `r` of the page at `base` on. */
  function Burst(page: nat, base: nat, r: nat, ws: seq<Word>): (st: seq<Store>)
    ensures |st| == |ws|
    decreases |ws|
  {
    if ws == [] then []
    else [Store(base + r, ws[0])] + Burst(page, base, if r + 1 == page then 0 else r + 1, ws[1..])
  }

  /** A burst sent to address `a`: the address is cut to SPAN, then the page is found. */
  function Send(page: nat, a: nat, ws: seq<Word>): (st: seq<Store>)
    requires page > 0
    ensures |st| == |ws|
  {
    if a >= SPAN then Send(page, a - SPAN, ws) else Locate(page, 0, a, ws)
  }

  function Locate(page: nat, base: nat, r: nat, ws: seq<Word>): (st: seq<Store>)
    requires page > 0
    ensures |st| == |ws|
    decreases r
  {
    if r >= page then Locate(page, base + page, r - page, ws) else Burst(page, base, r, ws)
  }

  // ---- the driver ----

  /** Words the driver sends in one burst: one if it knows no page size, else up to the
      address whose low bits are all ones. */
  function BurstLen(ps: nat, a: nat, n: nat): (k: nat)
    requires n > 0
    ensures 0 < k <= n
    decreases n
  {
    if ps == 0 || n == 1 || And(a, ps - 1) == ps - 1 then 1 else 1 + BurstLen(ps, a + 1, n - 1)
  }

  /** ixgbe_write_eeprom_buffer_bit_bang */
  function WriteBuffer(page: nat, ps: nat, a: nat, ws: seq<Word>): (st: seq<Store>)
    requires page > 0
    decreases |ws|
  {
    if ws == [] then []
    else
      var k := BurstLen(ps, a, |ws|);
      Send(page, a, ws[..k]) + WriteBuffer(page, ps, a + k, ws[k..])
  }

  // Whether each next attempt to take the EEPROM succeeds; past the end it does not.
  type Grants = seq<bool>

  predicate Granted(g: Grants) {
    g != [] && g[0]
  }

  function Rest(g: Grants): Grants {
    if g == [] then [] else g[1..]
  }

  /** Words in the chunk at index `i` of `n`. */
  function ChunkLen(n: nat, i: nat): (k: nat)
    requires i < n
    ensures 0 < k <= n - i && k <= BUFFER_MAX && (k < BUFFER_MAX ==> i + k == n)
  {
    if (n - i) / BUFFER_MAX > 0 then BUFFER_MAX else n - i
  }

  /** The loop's index, a 16-bit number, after index `i`. */
  function NextIndex(i: nat): (j: nat)
    ensures i < SPAN ==> j == i + BUFFER_MAX
  {
    (i + BUFFER_MAX) % U16
  }

  /** The offset passed on is a 16-bit number too. */
  function Offset16(a: nat): (b: nat)
    ensures a < SPAN ==> b == a
  {
    a % U16
  }

  /** The chunk loop of ixgbe_write_eeprom_buffer_bit_bang_generic from index `i` on. */
  function WriteChunks(page: nat, ps: nat, a: nat, ws: seq<Word>, i: nat, g: Grants): (st: seq<Store>)
    requires page > 0
    decreases |g|
  {
    if i >= |ws| || !Granted(g) then []
    else
      var k := ChunkLen(|ws|, i);
      WriteBuffer(page, ps, Offset16(a + i), ws[i..i + k]) + WriteChunks(page, ps, a, ws, NextIndex(i), Rest(g))
  }

  /** Whether the loop gets through, ... */
  predicate Through(n: nat, i: nat, g: Grants)
    decreases |g|
  {
    i >= n || (Granted(g) && Through(n, NextIndex(i), Rest(g)))
  }

  /** ... the attempts it leaves, ... */
  function Unused(n: nat, i: nat, g: Grants): Grants
    decreases |g|
  {
    if i >= n then g else if !Granted(g) then Rest(g) else Unused(n, NextIndex(i), Rest(g))
  }

  /** ... and how far it gets. */
  function Sent(n: nat, i: nat, g: Grants): nat
    decreases |g|
  {
    if i >= n then n else if !Granted(g) then i else Sent(n, NextIndex(i), Rest(g))
  }

  /** For more words than LOOP_MAX the index comes back to 0 before it gets through: the loop
      ends only by a refusal. */
  lemma {:induction false} NeverThrough(n: nat, i: nat, g: Grants)
    requires LOOP_MAX < n && i % BUFFER_MAX == 0 && i < U16
    ensures !Through(n, i, g)
    decreases |g|
  {
    if Granted(g) { NeverThrough(n, NextIndex(i), Rest(g)); }
  }

  /** For no more it gets through whenever enough attempts are granted. */
  lemma {:induction false} GetsThrough(n: nat, i: nat, g: Grants)
    requires n <= LOOP_MAX && i <= LOOP_MAX && i % BUFFER_MAX == 0
    requires n <= i + BUFFER_MAX * |g| && forall x <- g :: x
    ensures Through(n, i, g)
    decreases |g|
  {
    if i < n {
      assert g != [];
      assert g[0] in g && forall x <- g[1..] :: x in g;
      GetsThrough(n, NextIndex(i), Rest(g));
    }
  }

  lemma {:induction false} SentBounds(n: nat, i: nat, g: Grants)
    requires n <= SPAN
    ensures Sent(n, i, g) <= n && (i <= n ==> i <= Sent(n, i, g)) && (Through(n, i, g) <==> Sent(n, i, g) == n)
    decreases |g|
  {
    if i < n && Granted(g) { SentBounds(n, NextIndex(i), Rest(g)); }
  }

  // ---- bursts ----

  /** Each word at its own address, in order, once. */
  function InOrder(a: nat, ws: seq<Word>): (st: seq<Store>)
    decreases |ws|
  {
    if ws == [] then [] else [Store(a, ws[0])] + InOrder(a + 1, ws[1..])
  }

  lemma {:induction false} InOrderConcat(a: nat, u: seq<Word>, v: seq<Word>)
    ensures InOrder(a, u + v) == InOrder(a, u) + InOrder(a + |u|, v)
    decreases |u|
  {
    if u == [] {
      assert u + v == v;
    } else {
      assert (u + v)[1..] == u[1..] + v;
      InOrderConcat(a + 1, u[1..], v);
    }
  }

  lemma InOrderSplit(a: nat, ws: seq<Word>, k: nat)
    requires k <= |ws|
    ensures InOrder(a, ws) == InOrder(a, ws[..k]) + InOrder(a + k, ws[k..])
  {
    assert ws == ws[..k] + ws[k..];
    InOrderConcat(a, ws[..k], ws[k..]);
  }

  lemma InOrderPart(a: nat, ws: seq<Word>, i: nat, j: nat, end: nat)
    requires i <= j <= end <= |ws|
    ensures InOrder(a + i, ws[i..end]) == InOrder(a + i, ws[i..j]) + InOrder(a + j, ws[j..end])
  {
    assert ws[i..end] == ws[i..j] + ws[j..end];
    InOrderConcat(a + i, ws[i..j], ws[j..end]);
  }

  /** A burst that stays inside the page does not wrap. */
  lemma {:induction false} BurstInPage(page: nat, base: nat, r: nat, ws: seq<Word>)
    requires r + |ws| <= page
    ensures Burst(page, base, r, ws) == InOrder(base + r, ws)
    decreases |ws|
  {
    if |ws| > 1 { BurstInPage(page, base, r + 1, ws[1..]); }
  }

  lemma {:induction false} LocateIs(page: nat, b: nat, k: nat, r: nat, ws: seq<Word>)
    requires r < page
    ensures Locate(page, b, page * k + r, ws) == Burst(page, b + page * k, r, ws)
    decreases k
  {
    if k > 0 {
      assert page * k == page + page * (k - 1);
      LocateIs(page, b + page, k - 1, r, ws);
    }
  }

  /** An address given by its page and the place in it. */
  lemma SendIs(page: nat, base: nat, r: nat, ws: seq<Word>)
    requires r < page && base % page == 0 && base + r < SPAN
    ensures Send(page, base + r, ws) == Burst(page, base, r, ws)
  {
    var k := base / page;
    assert base == page * k;
    LocateIs(page, 0, k, r, ws);
  }

  /** Any address sent comes down to one in reach. */
  lemma {:induction false} SendDown(page: nat, a: nat, ws: seq<Word>)
    requires page > 0
    ensures Send(page, a, ws) == Send(page, a % SPAN, ws)
  {
    if a >= SPAN { SendDown(page, a - SPAN, ws); }
  }

  lemma SendForm(page: nat, a: nat, ws: seq<Word>) returns (base: nat, r: nat)
    requires page > 0
    ensures Send(page, a, ws) == Burst(page, base, r, ws)
    ensures base + r == a % SPAN && r < page && base % page == 0
  {
    SendDown(page, a, ws);
    base, r := PageStart(page, a % SPAN);
    SendIs(page, base, r, ws);
  }

  lemma SendAt(page: nat, a: nat, base: nat, r: nat, ws: seq<Word>)
    requires r < page && base % page == 0 && base + r == a % SPAN
    ensures Send(page, a, ws) == Burst(page, base, r, ws)
  {
    SendDown(page, a, ws);
    SendIs(page, base, r, ws);
  }

  lemma PlaceIs(page: nat, base: nat, r: nat)
    requires r < page && base % page == 0
    ensures (base + r) % page == r
  {
    DivIs(base + r, page, base / page, r);
  }

  lemma PageStart(page: nat, a: nat) returns (base: nat, r: nat)
    requires page > 0
    ensures a == base + r && r == a % page < page && base % page == 0
  {
    var q := a / page;
    base, r := page * q, a % page;
    DivIs(base, page, q, 0);
  }

  // ---- a known page size ----

  lemma NextInPage(page: nat, a: nat)
    requires page > 0 && a % page + 1 < page
    ensures (a + 1) % page == a % page + 1
  {
    DivIs(a + 1, page, a / page, a % page + 1);
  }

  /** With a power of two a burst ends at the end of the page. */
  lemma {:induction false} BurstLenIs(k: nat, ps: nat, a: nat, n: nat)
    requires n > 0 && ps == Pow2(k)
    ensures BurstLen(ps, a, n) == if ps - a % ps < n then ps - a % ps else n
    decreases n
  {
    AndLowMask(a, k);
    if n > 1 && a % ps != ps - 1 {
      NextInPage(ps, a);
      BurstLenIs(k, ps, a + 1, n - 1);
    }
  }

  /** A burst ends no later than the page. */
  lemma SendFits(e: nat, page: nat, ps: nat, a: nat, ws: seq<Word>) returns (k: nat)
    requires page == Pow2(e) && (ps == 0 || ps == page) && ws != [] && a < SPAN
    ensures k == BurstLen(ps, a, |ws|) && Send(page, a, ws[..k]) == InOrder(a, ws[..k])
  {
    k := BurstLen(ps, a, |ws|);
    BurstLenIs(e, page, a, |ws|);
    var base, r := PageStart(page, a);
    SendIs(page, base, r, ws[..k]);
    BurstInPage(page, base, r, ws[..k]);
  }

  lemma BufferStep(page: nat, ps: nat, a: nat, ws: seq<Word>, k: nat)
    requires page > 0 && ws != [] && k == BurstLen(ps, a, |ws|)
    ensures WriteBuffer(page, ps, a, ws) == Send(page, a, ws[..k]) + WriteBuffer(page, ps, a + k, ws[k..])
  {
  }

  /** With page size unknown or right, within reach of the address every word is stored at
      its own address, once and in order, and nothing else is; no burst crosses a page. */
  lemma {:induction false} WriteBufferExact(e: nat, page: nat, ps: nat, a: nat, ws: seq<Word>)
    requires page == Pow2(e) && (ps == 0 || ps == page) && a + |ws| <= SPAN
    ensures WriteBuffer(page, ps, a, ws) == InOrder(a, ws)
    decreases |ws|
  {
    if ws != [] {
      var k := SendFits(e, page, ps, a, ws);
      BufferStep(page, ps, a, ws, k);
      WriteBufferExact(e, page, ps, a + k, ws[k..]);
      InOrderSplit(a, ws, k);
    }
  }

  lemma ChunkStep(page: nat, ps: nat, a: nat, ws: seq<Word>, i: nat, j: nat, g: Grants)
    requires page > 0 && i < |ws| && Granted(g) && j == i + ChunkLen(|ws|, i)
    ensures WriteChunks(page, ps, a, ws, i, g)
         == WriteBuffer(page, ps, Offset16(a + i), ws[i..j]) + WriteChunks(page, ps, a, ws, NextIndex(i), Rest(g))
  {
  }

  /** Within reach the chunks are the words up to the next index, or to the end. */
  lemma ChunkEnd(n: nat, i: nat, g: Grants) returns (j: nat)
    requires i < n <= SPAN && Granted(g)
    ensures j == i + ChunkLen(n, i) && Sent(n, i, g) == Sent(n, NextIndex(i), Rest(g))
    ensures if NextIndex(i) <= n then j == NextIndex(i) else j == n == Sent(n, i, g)
  {
    j := i + ChunkLen(n, i);
  }

  /** One chunk, stored exactly, and the rest of the loop. */
  lemma ChunkExact(e: nat, page: nat, ps: nat, a: nat, ws: seq<Word>, i: nat, j: nat, g: Grants)
    requires page == Pow2(e) && (ps == 0 || ps == page) && a + |ws| <= SPAN && i < |ws| && Granted(g)
    requires j == i + ChunkLen(|ws|, i)
    ensures WriteChunks(page, ps, a, ws, i, g)
         == InOrder(a + i, ws[i..j]) + WriteChunks(page, ps, a, ws, NextIndex(i), Rest(g))
  {
    ChunkStep(page, ps, a, ws, i, j, g);
    WriteBufferExact(e, page, ps, a + i, ws[i..j]);
  }

  lemma PastEnd(page: nat, ps: nat, a: nat, ws: seq<Word>, i: nat, g: Grants, st: seq<Store>)
    requires page > 0 && i >= |ws|
    ensures st + WriteChunks(page, ps, a, ws, i, g) == st
  {
  }

  /** The chunk loop stores a first part of the words the same way. */
  lemma {:induction false} WriteChunksExact(e: nat, page: nat, ps: nat, a: nat, ws: seq<Word>, i: nat, g: Grants)
    requires page == Pow2(e) && (ps == 0 || ps == page) && a + |ws| <= SPAN && i <= |ws|
    ensures i <= Sent(|ws|, i, g) <= |ws|
    ensures WriteChunks(page, ps, a, ws, i, g) == InOrder(a + i, ws[i..Sent(|ws|, i, g)])
    decreases |g|
  {
    SentBounds(|ws|, i, g);
    if i < |ws| && Granted(g) {
      var j := ChunkEnd(|ws|, i, g);
      ChunkExact(e, page, ps, a, ws, i, j, g);
      if NextIndex(i) <= |ws| {
        WriteChunksExact(e, page, ps, a, ws, j, Rest(g));
        InOrderPart(a, ws, i, j, Sent(|ws|, i, g));
      } else {
        PastEnd(page, ps, a, ws, NextIndex(i), Rest(g), InOrder(a + i, ws[i..j]));
      }
    }
  }

  // ---- what the part holds afterwards ----

  /** The word last stored at `x`, if any was. */
  function Last(st: seq<Store>, x: nat): Option<Word> {
    if st == [] then None
    else
      var later := Last(st[1..], x);
      if later.Some? then later else if st[0].addr == x then Some(st[0].word) else None
  }

  function Later(first: Option<Word>, second: Option<Word>): Option<Word> {
    if second.Some? then second else first
  }

  lemma {:induction false} LastConcat(s: seq<Store>, t: seq<Store>, x: nat)
    ensures Last(s + t, x) == Later(Last(s, x), Last(t, x))
    decreases |s|
  {
    if s == [] {
      assert s + t == t;
    } else {
      assert (s + t)[1..] == s[1..] + t;
      LastConcat(s[1..], t, x);
    }
  }

  lemma {:induction false} LastInOrder(a: nat, ws: seq<Word>, x: nat)
    ensures Last(InOrder(a, ws), x) == if a <= x < a + |ws| then Some(ws[x - a]) else None
    decreases |ws|
  {
    if ws != [] { LastInOrder(a + 1, ws[1..], x); }
  }

  /** Every store of a burst lies in the page it starts in. */
  lemma {:induction false} BurstStays(page: nat, base: nat, r: nat, ws: seq<Word>, x: nat)
    requires r < page && !(base <= x < base + page)
    ensures Last(Burst(page, base, r, ws), x) == None
    decreases |ws|
  {
    if ws != [] { BurstStays(page, base, if r + 1 == page then 0 else r + 1, ws[1..], x); }
  }

  // ---- detecting the page size ----

  /** The marching data v, v + 1, ... */
  function March(v: nat, n: nat): (ws: seq<Word>)
    ensures |ws| == n
    decreases n
  {
    if n == 0 then [] else [v] + March(v + 1, n - 1)
  }

  lemma {:induction false} MarchSplit(v: nat, n: nat, k: nat)
    requires k <= n
    ensures March(v, n)[..k] == March(v, k) && March(v, n)[k..] == March(v + k, n - k)
    decreases k
  {
    if k > 0 {
      MarchSplit(v + 1, n - 1, k - 1);
      assert March(v, n)[..k] == [v] + March(v + 1, n - 1)[..k - 1];
      assert March(v, n)[k..] == March(v + 1, n - 1)[k - 1..];
    }
  }

  /** The place in the page after `k` words. */
  function Advance(page: nat, r: nat, k: nat): nat
    requires k <= page
  {
    if r + k < page then r + k else r + k - page
  }

  lemma {:induction false} BurstConcat(page: nat, base: nat, r: nat, u: seq<Word>, v: seq<Word>)
    requires r < page && |u| <= page
    ensures Burst(page, base, r, u + v) == Burst(page, base, r, u) + Burst(page, base, Advance(page, r, |u|), v)
    decreases |u|
  {
    if u == [] {
      assert u + v == v;
    } else {
      assert (u + v)[1..] == u[1..] + v;
      BurstConcat(page, base, if r + 1 == page then 0 else r + 1, u[1..], v);
    }
  }

  /** The same for marching words. */
  lemma MarchOn(page: nat, base: nat, r: nat, v: nat, n: nat, k: nat)
    requires r < page && k <= page && k <= n
    ensures Burst(page, base, r, March(v, n))
         == Burst(page, base, r, March(v, k)) + Burst(page, base, Advance(page, r, k), March(v + k, n - k))
  {
    MarchSplit(v, n, k);
    assert March(v, n) == March(v, k) + March(v + k, n - k);
    BurstConcat(page, base, r, March(v, k), March(v + k, n - k));
  }

  /** The largest multiple of `page` below `n`. */
  function Rounds(page: nat, n: nat): (m: nat)
    requires 0 < page && 0 < n
    ensures m < n <= m + page
  {
    if n <= page then 0 else page + Rounds(page, n - page)
  }

  /** Until a burst has gone round it does not come back to word `r`. */
  lemma {:induction false} NotBack(page: nat, base: nat, r: nat, i: nat, v: nat, n: nat)
    requires r < page && 0 < i && i + n <= page
    ensures Last(Burst(page, base, Advance(page, r, i), March(v, n)), base + r) == None
    decreases n
  {
    if n > 0 {
      NotBack(page, base, r, i + 1, v + 1, n - 1);
      assert March(v, n)[1..] == March(v + 1, n - 1);
    }
  }

  lemma FirstLap(page: nat, base: nat, r: nat, v: nat, n: nat)
    requires r < page && 0 < n <= page
    ensures Last(Burst(page, base, r, March(v, n)), base + r) == Some(v)
  {
    NotBack(page, base, r, 1, v + 1, n - 1);
    assert March(v, n)[1..] == March(v + 1, n - 1);
  }

  /** After a burst of `n` marching words the starting cell holds the last lap's first word. */
  lemma {:induction false} StartCell(page: nat, base: nat, r: nat, v: nat, n: nat)
    requires r < page && 0 < n
    ensures Last(Burst(page, base, r, March(v, n)), base + r) == Some(v + Rounds(page, n))
    decreases n
  {
    if n <= page {
      FirstLap(page, base, r, v, n);
    } else {
      MarchOn(page, base, r, v, n, page);
      StartCell(page, base, r, v + page, n - page);
      LastConcat(Burst(page, base, r, March(v, page)), Burst(page, base, r, March(v + page, n - page)), base + r);
    }
  }

  /** ixgbe_detect_eeprom_page_size_generic: a marching burst as if pages were `max` words
      (IXGBE_EEPROM_PAGE_SIZE_MAX), then the size follows from the word read back. */
  function DetectStores(page: nat, max: nat, a: nat): (st: seq<Store>)
    requires page > 0
  {
    WriteBuffer(page, max, a, March(0, max))
  }

  lemma {:induction false} BurstWords(page: nat, base: nat, r: nat, ws: seq<Word>, x: nat)
    ensures var w := Last(Burst(page, base, r, ws), x); w.Some? ==> w.value in ws
    decreases |ws|
  {
    if ws != [] { BurstWords(page, base, if r + 1 == page then 0 else r + 1, ws[1..], x); }
  }

  lemma SendWords(page: nat, a: nat, ws: seq<Word>, x: nat)
    requires page > 0
    ensures var w := Last(Send(page, a, ws), x); w.Some? ==> w.value in ws
  {
    var base, r := SendForm(page, a, ws);
    BurstWords(page, base, r, ws, x);
  }

  lemma {:induction false} BufferWords(page: nat, ps: nat, a: nat, ws: seq<Word>, x: nat)
    requires page > 0
    ensures var w := Last(WriteBuffer(page, ps, a, ws), x); w.Some? ==> w.value in ws
    decreases |ws|
  {
    if ws != [] {
      var k := BurstLen(ps, a, |ws|);
      BufferStep(page, ps, a, ws, k);
      SendWords(page, a, ws[..k], x);
      BufferWords(page, ps, a + k, ws[k..], x);
      LastConcat(Send(page, a, ws[..k]), WriteBuffer(page, ps, a + k, ws[k..]), x);
    }
  }

  lemma {:induction false} MarchAt(v: nat, n: nat, i: nat)
    requires i < n
    ensures March(v, n)[i] == v + i
    decreases i
  {
    if i > 0 { MarchAt(v + 1, n - 1, i - 1); }
  }

  lemma MarchRange(v: nat, n: nat)
    ensures forall w <- March(v, n) :: v <= w < v + n
  {
    forall i | 0 <= i < n ensures March(v, n)[i] == v + i { MarchAt(v, n, i); }
  }

  lemma FirstStore(page: nat, ps: nat, a: nat, ws: seq<Word>)
    requires page > 0 && ws != []
    ensures var st := WriteBuffer(page, ps, a, ws); st != [] && st[0].addr == a % SPAN
  {
    var k := BurstLen(ps, a, |ws|);
    BufferStep(page, ps, a, ws, k);
    var base, r := SendForm(page, a, ws[..k]);
  }

  /** Detection finds one of its own words where it reads back. */
  lemma DetectFinds(page: nat, max: nat, a: nat)
    requires page > 0 && max > 0
    ensures var w := Last(DetectStores(page, max, a), a % SPAN); w.Some? && w.value < max
  {
    var ws := March(0, max);
    BufferWords(page, max, a, ws, a % SPAN);
    MarchRange(0, max);
    FirstStore(page, max, a, ws);
  }

  function Detected(page: nat, max: nat, a: nat): (n: nat)
    requires page > 0 && max > 0
    ensures 0 < n <= max
  {
    DetectFinds(page, max, a);
    max - Last(DetectStores(page, max, a), a % SPAN).value
  }

  /** Sending `ws` at the start of a page the driver believes in takes one burst. */
  lemma OneBurst(page: nat, e: nat, max: nat, a: nat, ws: seq<Word>)
    requires page > 0 && max == Pow2(e) && a % max == 0 && |ws| <= max
    ensures WriteBuffer(page, max, a, ws) == Send(page, a, ws)
  {
    if ws != [] {
      BurstLenIs(e, max, a, |ws|);
      BufferStep(page, max, a, ws, |ws|);
      assert ws[..|ws|] == ws && ws[|ws|..] == [];
      assert Send(page, a, ws) + [] == Send(page, a, ws);
    }
  }

  lemma NextAligned(max: nat, base: nat)
    requires max > 0 && base % max == 0
    ensures (base + max) % max == 0
  {
    var q := base / max;
    assert max * (q + 1) == max * q + max;
    DivIs(base + max, max, q + 1, 0);
  }

  lemma FirstLen(e: nat, max: nat, base: nat, r: nat)
    requires max == Pow2(e) && r < max && base % max == 0
    ensures BurstLen(max, base + r, max) == max - r
  {
    PlaceIs(max, base, r);
    BurstLenIs(e, max, base + r, max);
  }

  lemma FirstOfTwo(page: nat, e: nat, max: nat, base: nat, r: nat)
    requires page > 0 && max == Pow2(e) && r < max && base % max == 0
    ensures DetectStores(page, max, base + r)
         == Send(page, base + r, March(0, max - r)) + WriteBuffer(page, max, base + max, March(max - r, r))
  {
    FirstLen(e, max, base, r);
    MarchSplit(0, max, max - r);
    BufferStep(page, max, base + r, March(0, max), max - r);
  }

  /** The two bursts of detection `r` words into the maximum-size page at `base`: up to its
      end, and the rest from there. */
  lemma TwoBursts(page: nat, e: nat, max: nat, base: nat, r: nat)
    requires page > 0 && max == Pow2(e) && r < max && base % max == 0
    ensures DetectStores(page, max, base + r)
         == Send(page, base + r, March(0, max - r)) + Send(page, base + max, March(max - r, r))
  {
    FirstOfTwo(page, e, max, base, r);
    NextAligned(max, base);
    OneBurst(page, e, max, base + max, March(max - r, r));
  }

  /** The last word at `x` is the second burst's, or else the first's. */
  lemma DetectLast(page: nat, e: nat, max: nat, base: nat, r: nat, x: nat)
    requires page > 0 && max == Pow2(e) && r < max && base % max == 0
    ensures Last(DetectStores(page, max, base + r), x)
         == Later(Last(Send(page, base + r, March(0, max - r)), x), Last(Send(page, base + max, March(max - r, r)), x))
  {
    TwoBursts(page, e, max, base, r);
    LastConcat(Send(page, base + r, March(0, max - r)), Send(page, base + max, March(max - r, r)), x);
  }

  lemma FirstBurst(page: nat, a: nat, m: nat)
    requires page > 0 && m > 0 && a < SPAN
    ensures Last(Send(page, a, March(0, m)), a) == Some(Rounds(page, m))
  {
    var base, r := PageStart(page, a);
    SendIs(page, base, r, March(0, m));
    StartCell(page, base, r, 0, m);
  }

  /** The second burst, at the start of a page of the part, stores in that page. */
  lemma SecondBurst(page: nat, a: nat, ws: seq<Word>, x: nat)
    requires page > 0 && a % page == 0 && (ws == [] || a < SPAN) && !(a <= x < a + page)
    ensures Last(Send(page, a, ws), x) == None
  {
    if ws != [] {
      SendIs(page, a, 0, ws);
      BurstStays(page, a, 0, ws, x);
    }
  }

  lemma DetectedCell(page: nat, e: nat, max: nat, base: nat, r: nat)
    requires page > 0 && max == Pow2(e) && r < max && base % max == 0
    requires (base + max) % page == 0 && base + r + max <= SPAN
    ensures Last(DetectStores(page, max, base + r), base + r) == Some(Rounds(page, max - r))
  {
    DetectLast(page, e, max, base, r, base + r);
    FirstBurst(page, base + r, max - r);
    SecondBurst(page, base + max, March(max - r, r), base + r);
  }

  /** What the driver finds, when maximum-size pages are made of whole pages of the part. */
  lemma DetectedIs(page: nat, e: nat, max: nat, base: nat, r: nat)
    requires page > 0 && max == Pow2(e) && r < max && base % max == 0
    requires (base + max) % page == 0 && base + r + max <= SPAN
    ensures Detected(page, max, base + r) == max - Rounds(page, max - r)
  {
    DetectedCell(page, e, max, base, r);
    assert (base + r) % SPAN == base + r;
  }

  lemma {:induction false} RoundsMultiple(page: nat, n: nat) returns (d: nat)
    requires 0 < page && 0 < n
    ensures Rounds(page, n) == page * d
  {
    if n <= page {
      d := 0;
    } else {
      d := RoundsMultiple(page, n - page);
      assert page * (d + 1) == page + page * d;
      d := d + 1;
    }
  }

  lemma RoundsIff(page: nat, c: nat, r: nat)
    requires page > 0 && r < page * c
    ensures page * c - Rounds(page, page * c - r) == page <==> r < page
  {
    var d := RoundsMultiple(page, page * c - r);
    assert page * (c - 1) == page * c - page;
    if r < page {
      if d < c - 1 { MulStep(page, d, c - 1); }
      if d > c - 1 { MulStep(page, c - 1, d); }
    }
  }

  /** A multiple of 2^(e + f) is one of 2^e. */
  lemma WholePages(e: nat, f: nat, page: nat, max: nat, base: nat)
    requires page == Pow2(e) && max == Pow2(e + f) && base % max == 0
    ensures base % page == 0 && page <= max && (page != max ==> 2 * page <= max)
  {
    var c := Pow2(f);
    Pow2Sum(e, f);
    ModMod(base, page, c);
    if c > 1 { MulStep(page, 1, c); }
  }

  /** Detection is right exactly when the write starts in the first page of a maximum-size
      page: pages have 2^e words, the maximum is 2^(e + f). */
  lemma DetectedIff(e: nat, f: nat, page: nat, max: nat, base: nat, r: nat)
    requires page == Pow2(e) && max == Pow2(e + f) && base % max == 0 && r < max && base + r + max <= SPAN
    ensures Detected(page, max, base + r) == page <==> r < page
  {
    NextAligned(max, base);
    WholePages(e, f, page, max, base + max);
    DetectedIs(page, e + f, max, base, r);
    assert max == page * Pow2(f) by { Pow2Sum(e, f); }
    RoundsIff(page, Pow2(f), r);
  }

  // ---- beyond the reach of the address ----

  /** No store ever lies there. */
  lemma SendReach(page: nat, a: nat, ws: seq<Word>, x: nat)
    requires page > 0 && SPAN % page == 0 && x >= SPAN
    ensures Last(Send(page, a, ws), x) == None
  {
    var base, r := SendForm(page, a, ws);
    PageWithin(page, base, SPAN);
    BurstStays(page, base, r, ws, x);
  }

  lemma PageWithin(page: nat, base: nat, end: nat)
    requires page > 0 && base % page == 0 && end % page == 0 && base < end
    ensures base + page <= end
  {
    var p, q := base / page, end / page;
    assert base == page * p && end == page * q;
    if q <= p { if q < p { MulStep(page, q, p); } } else { MulStep(page, p, q); }
  }

  lemma {:induction false} BufferReach(page: nat, ps: nat, a: nat, ws: seq<Word>, x: nat)
    requires page > 0 && SPAN % page == 0 && x >= SPAN
    ensures Last(WriteBuffer(page, ps, a, ws), x) == None
    decreases |ws|
  {
    if ws != [] {
      var k := BurstLen(ps, a, |ws|);
      BufferStep(page, ps, a, ws, k);
      SendReach(page, a, ws[..k], x);
      BufferReach(page, ps, a + k, ws[k..], x);
      LastConcat(Send(page, a, ws[..k]), WriteBuffer(page, ps, a + k, ws[k..]), x);
    }
  }

  lemma {:induction false} ChunksReach(page: nat, ps: nat, a: nat, ws: seq<Word>, i: nat, g: Grants, x: nat)
    requires page > 0 && SPAN % page == 0 && x >= SPAN
    ensures Last(WriteChunks(page, ps, a, ws, i, g), x) == None
    decreases |g|
  {
    if i < |ws| && Granted(g) {
      var j := i + ChunkLen(|ws|, i);
      var first := WriteBuffer(page, ps, Offset16(a + i), ws[i..j]);
      var rest := WriteChunks(page, ps, a, ws, NextIndex(i), Rest(g));
      ChunkStep(page, ps, a, ws, i, j, g);
      BufferReach(page, ps, Offset16(a + i), ws[i..j], x);
      ChunksReach(page, ps, a, ws, NextIndex(i), Rest(g), x);
      LastConcat(first, rest, x);
    }
  }
}
