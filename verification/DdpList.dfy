/** Building the hardware buffer list of an FCoE direct data placement context
    from the DMA segments of a scatter list.  Addresses are numbers; a segment
    does not run past the end of the address space. */
module DdpList {

  const BUFFLEN: nat := 4096       // IXGBE_FCBUFF_MIN
  const BUFFCNT_MAX: nat := 256

  datatype Segment = Segment(addr: nat, len: nat)

  // ---- the driver's loops, as functions of the list built so far ----

  function Offset(addr: nat): nat {
    addr % BUFFLEN
  }

  /** Length of the next piece: up to the end of the buffer or of the segment. */
  function Piece(addr: nat, len: nat): (t: nat)
    ensures len > 0 ==> 0 < t <= len
  {
    if BUFFLEN - Offset(addr) < len then BUFFLEN - Offset(addr) else len
  }

  datatype Verdict = Fits | Misaligned | TooMany

  /** The tests the inner loop makes before it accepts a piece. */
  function Decide(j: nat, isLast: bool, addr: nat, len: nat): Verdict {
    if j >= BUFFCNT_MAX then TooMany
    else if j != 0 && Offset(addr) != 0 then Misaligned
    else if (!isLast || Piece(addr, len) != len) && Piece(addr, len) + Offset(addr) != BUFFLEN then Misaligned
    else Fits
  }

  /** `first` is the offset into buffer 0, `end` how much of the last buffer is used. */
  datatype Built = Built(verdict: Verdict, udl: seq<nat>, first: nat, end: nat)

  /** The inner loop: cut a segment into pieces, one buffer each. */
  function CutSegment(isLast: bool, addr: nat, len: nat, udl: seq<nat>, first: nat, end: nat): (b: Built)
    requires |udl| <= BUFFCNT_MAX
    ensures |b.udl| <= BUFFCNT_MAX
    decreases len
  {
    if len == 0 then Built(Fits, udl, first, end)
    else
      var verdict := Decide(|udl|, isLast, addr, len);
      if verdict != Fits then Built(verdict, udl, first, end)
      else
        var off, t := Offset(addr), Piece(addr, len);
        CutSegment(isLast, addr + t, len - t, udl + [addr - off], if udl == [] then off else first, off + t)
  }

  /** The outer loop. */
  function CutAll(segs: seq<Segment>, udl: seq<nat>, first: nat, end: nat): (b: Built)
    requires |udl| <= BUFFCNT_MAX
    ensures |b.udl| <= BUFFCNT_MAX
    decreases |segs|
  {
    if segs == [] then Built(Fits, udl, first, end)
    else
      var b := CutSegment(|segs| == 1, segs[0].addr, segs[0].len, udl, first, end);
      if b.verdict != Fits then b else CutAll(segs[1..], b.udl, b.first, b.end)
  }

  /** A last buffer must not be full: the driver adds one of which one byte is declared. */
  function Finish(b: Built, extra: nat): Built {
    if b.verdict != Fits || b.end != BUFFLEN then b
    else if |b.udl| >= BUFFCNT_MAX then b.(verdict := TooMany)
    else Built(Fits, b.udl + [extra], b.first, 1)
  }

  function BuildList(segs: seq<Segment>, extra: nat): Built {
    Finish(CutAll(segs, [], 0, 0), extra)
  }

  // ---- what a list means ----

  /** The `n` byte addresses from `addr` on. */
  function Bytes(addr: nat, n: nat): (b: seq<nat>)
    ensures |b| == n
  {
    seq(n, i requires 0 <= i < n => addr + i)
  }

  function SegBytes(segs: seq<Segment>): seq<nat> {
    if segs == [] then [] else Bytes(segs[0].addr, segs[0].len) + SegBytes(segs[1..])
  }

  /** What the hardware takes from a list of full buffers, the first from offset `first` on. */
  function FullBytes(udl: seq<nat>, first: nat): seq<nat>
    requires first < BUFFLEN
  {
    if udl == [] then []
    else
      var k := |udl| - 1;
      var off := if k == 0 then first else 0;
      FullBytes(udl[..k], first) + Bytes(udl[k] + off, BUFFLEN - off)
  }

  /** The same, with only `last` bytes of the last buffer in use. */
  function Described(udl: seq<nat>, first: nat, last: nat): seq<nat>
    requires udl != [] && first < BUFFLEN && (|udl| == 1 ==> first <= last)
  {
    var k := |udl| - 1;
    var off := if k == 0 then first else 0;
    FullBytes(udl[..k], first) + Bytes(udl[k] + off, last - off)
  }

  lemma FullIsDescribed(udl: seq<nat>, first: nat)
    requires udl != [] && first < BUFFLEN
    ensures Described(udl, first, BUFFLEN) == FullBytes(udl, first)
  {
  }

  /** One more buffer, holding the `t` bytes from `addr`, at offset `off`. */
  lemma Extend(udl: seq<nat>, first: nat, addr: nat, off: nat, t: nat)
    requires first < BUFFLEN && off <= addr && off < BUFFLEN && (udl != [] ==> off == 0)
    ensures Described(udl + [addr - off], if udl == [] then off else first, off + t)
         == FullBytes(udl, first) + Bytes(addr, t)
  {
    assert (udl + [addr - off])[..|udl|] == udl;
  }

  lemma BytesSplit(pre: seq<nat>, addr: nat, n: nat, k: nat)
    requires k <= n
    ensures pre + Bytes(addr, n) == pre + Bytes(addr, k) + Bytes(addr + k, n - k)
  {
  }

  // ---- which lists are acceptable ----

  /** Hardware buffers that `n` bytes from `addr` touch. */
  function Pages(addr: nat, n: nat): nat {
    if n == 0 then 0 else (addr + n - 1) / BUFFLEN - addr / BUFFLEN + 1
  }

  predicate AlignedAt(addr: nat) {
    addr % BUFFLEN == 0
  }

  lemma PieceFacts(addr: nat, len: nat)
    requires len > 0
    ensures var off, t := Offset(addr), Piece(addr, len);
            && off <= addr && off + t <= BUFFLEN
            && Pages(addr, len) == 1 + Pages(addr + t, len - t)
            && (t < len ==> off + t == BUFFLEN && AlignedAt(addr + t))
            && (t == len ==> (off + t == BUFFLEN <==> AlignedAt(addr + len)))
  {
  }

  /** A segment after a list of full buffers: the buffers it adds, or why it is refused. */
  lemma {:induction false} CutSegmentVerdict(isLast: bool, addr: nat, len: nat, udl: seq<nat>, first: nat, end: nat)
    requires len > 0 && |udl| <= BUFFCNT_MAX
    ensures var b := CutSegment(isLast, addr, len, udl, first, end);
            && (b.verdict == Misaligned ==> (udl != [] && !AlignedAt(addr)) || (!isLast && !AlignedAt(addr + len)))
            && (b.verdict == TooMany ==> |udl| + Pages(addr, len) > BUFFCNT_MAX)
            && (b.verdict == Fits ==>
                  && (udl != [] ==> AlignedAt(addr)) && (isLast || AlignedAt(addr + len))
                  && |b.udl| == |udl| + Pages(addr, len) && (b.end == BUFFLEN <==> AlignedAt(addr + len)))
    decreases len
  {
    PieceFacts(addr, len);
    if Decide(|udl|, isLast, addr, len) == Fits {
      var off, t := Offset(addr), Piece(addr, len);
      if t < len {
        CutSegmentVerdict(isLast, addr + t, len - t, udl + [addr - off], if udl == [] then off else first, off + t);
      }
    }
  }

  /** `b` is a list for exactly these bytes. */
  ghost predicate Holds(b: Built, bytes: seq<nat>) {
    && b.udl != [] && b.first < BUFFLEN && 0 < b.end <= BUFFLEN && (|b.udl| == 1 ==> b.first <= b.end)
    && Described(b.udl, b.first, b.end) == bytes
  }

  lemma {:induction false} CutSegmentBytes(isLast: bool, addr: nat, len: nat, udl: seq<nat>, first: nat, end: nat)
    requires len > 0 && first < BUFFLEN && |udl| <= BUFFCNT_MAX
    requires CutSegment(isLast, addr, len, udl, first, end).verdict == Fits
    ensures Holds(CutSegment(isLast, addr, len, udl, first, end), FullBytes(udl, first) + Bytes(addr, len))
    decreases len
  {
    PieceFacts(addr, len);
    var off, t := Offset(addr), Piece(addr, len);
    var udl', first' := udl + [addr - off], if udl == [] then off else first;
    Extend(udl, first, addr, off, t);
    assert CutSegment(isLast, addr, len, udl, first, end)
        == CutSegment(isLast, addr + t, len - t, udl', first', off + t);
    if t < len {
      assert FullBytes(udl', first') == FullBytes(udl, first) + Bytes(addr, t) by { FullIsDescribed(udl', first'); }
      CutSegmentBytes(isLast, addr + t, len - t, udl', first', off + t);
      BytesSplit(FullBytes(udl, first), addr, len, t);
    }
  }

  function AllPages(segs: seq<Segment>): nat {
    if segs == [] then 0 else Pages(segs[0].addr, segs[0].len) + AllPages(segs[1..])
  }

  function End(s: Segment): nat {
    s.addr + s.len
  }

  /** Only the first segment may start, and only the last end, inside a buffer. */
  predicate Edges(segs: seq<Segment>) {
    && (forall k :: 0 < k < |segs| ==> AlignedAt(segs[k].addr))
    && (forall k :: 0 <= k < |segs| - 1 ==> AlignedAt(End(segs[k])))
  }

  predicate Positive(segs: seq<Segment>) {
    forall k :: 0 <= k < |segs| ==> segs[k].len > 0
  }

  lemma EdgesTail(segs: seq<Segment>)
    requires |segs| > 1
    ensures Edges(segs) <==> AlignedAt(End(segs[0])) && AlignedAt(segs[1].addr) && Edges(segs[1..])
  {
    var rest := segs[1..];
    if AlignedAt(End(segs[0])) && AlignedAt(segs[1].addr) && Edges(rest) {
      assert forall k :: 1 < k < |segs| ==> segs[k] == rest[k - 1];
      assert forall k :: 1 <= k < |segs| - 1 ==> segs[k] == rest[k - 1];
    }
    if Edges(segs) {
      assert forall k :: 0 <= k < |rest| ==> rest[k] == segs[k + 1];
    }
  }

  lemma {:induction false} CutAllVerdict(segs: seq<Segment>, udl: seq<nat>, first: nat, end: nat)
    requires segs != [] && Positive(segs) && |udl| <= BUFFCNT_MAX
    ensures var b := CutAll(segs, udl, first, end);
            && (b.verdict == Misaligned ==> !Edges(segs) || (udl != [] && !AlignedAt(segs[0].addr)))
            && (b.verdict == TooMany ==> |udl| + AllPages(segs) > BUFFCNT_MAX)
            && (b.verdict == Fits ==>
                  && Edges(segs) && (udl != [] ==> AlignedAt(segs[0].addr))
                  && |b.udl| == |udl| + AllPages(segs) && (b.end == BUFFLEN <==> AlignedAt(End(segs[|segs| - 1]))))
    decreases |segs|
  {
    var s, rest := segs[0], segs[1..];
    CutSegmentVerdict(|segs| == 1, s.addr, s.len, udl, first, end);
    var b := CutSegment(|segs| == 1, s.addr, s.len, udl, first, end);
    if |segs| > 1 {
      EdgesTail(segs);
      if b.verdict == Fits { CutAllVerdict(rest, b.udl, b.first, b.end); }
    }
  }

  lemma {:induction false} CutAllBytes(segs: seq<Segment>, udl: seq<nat>, first: nat, end: nat)
    requires segs != [] && Positive(segs) && first < BUFFLEN && |udl| <= BUFFCNT_MAX
    requires CutAll(segs, udl, first, end).verdict == Fits
    ensures Holds(CutAll(segs, udl, first, end), FullBytes(udl, first) + SegBytes(segs))
    decreases |segs|
  {
    var s, rest, pre := segs[0], segs[1..], FullBytes(udl, first);
    var b := CutSegment(|segs| == 1, s.addr, s.len, udl, first, end);
    CutSegmentBytes(|segs| == 1, s.addr, s.len, udl, first, end);
    assert pre + SegBytes(segs) == pre + Bytes(s.addr, s.len) + SegBytes(rest);
    if rest != [] {
      CutSegmentVerdict(false, s.addr, s.len, udl, first, end);
      FullIsDescribed(b.udl, b.first);
      CutAllBytes(rest, b.udl, b.first, b.end);
    }
  }

  /** The list is faithful, and refused only when it has to be: it fits exactly when no
      interior edge falls inside a buffer and at most 256 buffers are needed, counting one
      more when the last would be full.  Then it describes the segments' bytes in order,
      followed at most by the one unused byte, and its last buffer is never full. */
  lemma BuildListFaithful(segs: seq<Segment>, extra: nat)
    requires segs != [] && Positive(segs)
    ensures var b := BuildList(segs, extra);
            var full := AlignedAt(End(segs[|segs| - 1]));
            && (b.verdict == Fits <==> Edges(segs) && AllPages(segs) + (if full then 1 else 0) <= BUFFCNT_MAX)
            && (b.verdict == Misaligned ==> !Edges(segs))
            && (b.verdict == Fits ==>
                  && 1 <= |b.udl| <= BUFFCNT_MAX
                  && b.end != BUFFLEN && Holds(b, SegBytes(segs) + if full then [extra] else []))
  {
    CutAllVerdict(segs, [], 0, 0);
    var b := CutAll(segs, [], 0, 0);
    if b.verdict == Fits {
      CutAllBytes(segs, [], 0, 0);
      assert FullBytes([], 0) + SegBytes(segs) == SegBytes(segs);
      FinishHolds(b, extra, SegBytes(segs));
    }
  }

  lemma FinishHolds(b: Built, extra: nat, bytes: seq<nat>)
    requires b.verdict == Fits && Holds(b, bytes) && |b.udl| <= BUFFCNT_MAX
    ensures var b' := Finish(b, extra);
            b'.verdict == Fits ==> b'.end != BUFFLEN && Holds(b', bytes + if b.end == BUFFLEN then [extra] else [])
  {
    if b.end == BUFFLEN {
      FullIsDescribed(b.udl, b.first);
      Extend(b.udl, b.first, extra, 0, 1);
      assert Bytes(extra, 1) == [extra];
    } else {
      assert bytes + [] == bytes;
    }
  }

  // ---- the loops themselves, over the buffer array ----

  method StoreBuffer(udl: array<nat>, j: nat, buffer: nat)
    requires j < udl.Length
    modifies udl
    ensures udl[..j + 1] == old(udl[..j]) + [buffer]
  {
    udl[j] := buffer;
  }

  /** The building loops of ixgbe_fcoe_ddp_setup. */
  method Build(segs: seq<Segment>, udl: array<nat>, extra: nat)
    returns (verdict: Verdict, j: nat, firstoff: nat, lastsize: nat)
    requires udl.Length == BUFFCNT_MAX
    modifies udl
    ensures j <= BUFFCNT_MAX && Built(verdict, udl[..j], firstoff, lastsize) == BuildList(segs, extra)
  {
    j, firstoff, lastsize := 0, 0, 0;
    var i := 0;
    while i < |segs|
      invariant 0 <= i <= |segs| && j <= BUFFCNT_MAX
      invariant CutAll(segs[i..], udl[..j], firstoff, lastsize) == CutAll(segs, [], 0, 0)
    {
      ghost var was, rest := Built(Fits, udl[..j], firstoff, lastsize), segs[i..];
      assert rest[1..] == segs[i + 1..] && rest[0] == segs[i];
      verdict, j, firstoff, lastsize := CutInto(i == |segs| - 1, segs[i], udl, j, firstoff, lastsize);
      if verdict != Fits {
        return;
      }
      i := i + 1;
    }
    verdict := Fits;
    if lastsize == BUFFLEN {
      if j >= BUFFCNT_MAX {
        return TooMany, j, firstoff, lastsize;
      }
      StoreBuffer(udl, j, extra);
      j, lastsize := j + 1, 1;
    }
  }

  /** The inner loop. */
  method CutInto(isLast: bool, s: Segment, udl: array<nat>, j0: nat, first0: nat, end0: nat)
    returns (verdict: Verdict, j: nat, first: nat, end: nat)
    requires udl.Length == BUFFCNT_MAX && j0 <= BUFFCNT_MAX
    modifies udl
    ensures j <= BUFFCNT_MAX
    ensures Built(verdict, udl[..j], first, end) == CutSegment(isLast, s.addr, s.len, old(udl[..j0]), first0, end0)
  {
    var addr, len := s.addr, s.len;
    j, first, end := j0, first0, end0;
    while len > 0
      invariant j <= BUFFCNT_MAX
      invariant CutSegment(isLast, addr, len, udl[..j], first, end)
             == CutSegment(isLast, s.addr, s.len, old(udl[..j0]), first0, end0)
    {
      if j >= BUFFCNT_MAX {
        return TooMany, j, first, end;
      }
      var thisoff := Offset(addr);
      var thislen := Piece(addr, len);
      if j != 0 && thisoff != 0 {
        return Misaligned, j, first, end;
      }
      if (!isLast || thislen != len) && thislen + thisoff != BUFFLEN {
        return Misaligned, j, first, end;
      }
      StoreBuffer(udl, j, addr - thisoff);
      if j == 0 {
        first := thisoff;
      }
      len, addr, end, j := len - thislen, addr + thislen, thisoff + thislen, j + 1;
    }
    verdict := Fits;
  }
}
