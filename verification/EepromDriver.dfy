/** The writer as the driver has it, loops over a part that is sent one word at a time. */
module EepromDriver {
  import opened Arith
  import opened Eeprom
  import opened EepromWrite
  import opened Options

  datatype Status = Success | ErrInvalidArgument | ErrEeprom

  lemma Regroup(s: seq<Store>, t: seq<Store>, u: seq<Store>)
    ensures s + (t + u) == s + t + u
  {
  }

  lemma BurstStep(page: nat, base: nat, r: nat, data: seq<Word>, i: nat, j: nat, st: seq<Store>)
    requires i < j <= |data|
    ensures st + Burst(page, base, r, data[i..j])
         == st + [Store(base + r, data[i])] + Burst(page, base, if r + 1 == page then 0 else r + 1, data[i + 1..j])
  {
    assert data[i..j][0] == data[i] && data[i..j][1..] == data[i + 1..j];
  }

  /** What is still to be stored when the word loop stands at data[i]. */
  ghost function ToStore(page: nat, ps: nat, a: nat, data: seq<Word>, i: nat): seq<Store>
    requires page > 0 && i <= |data|
  {
    WriteBuffer(page, ps, a + i, data[i..])
  }

  lemma StoreStep(page: nat, ps: nat, a: nat, data: seq<Word>, i: nat, next: nat)
    requires page > 0 && i < |data| && next == i + BurstLen(ps, a + i, |data| - i)
    ensures ToStore(page, ps, a, data, i) == Send(page, a + i, data[i..next]) + ToStore(page, ps, a, data, next)
  {
    var ws := data[i..];
    BufferStep(page, ps, a + i, ws, next - i);
    SliceSlice(data, i, next);
  }

  lemma SliceSlice(data: seq<Word>, i: nat, j: nat)
    requires i <= j <= |data|
    ensures data[i..][..j - i] == data[i..j] && data[i..][j - i..] == data[j..]
  {
  }

  /** Where the chunk loop stands at index `i`, having started from `before` and `g`. */
  ghost predicate Underway(st: seq<Store>, left: Grants, page: nat, ps: nat, a: nat, data: seq<Word>, i: nat,
                           before: seq<Store>, g: Grants)
    requires page > 0
  {
    && st + WriteChunks(page, ps, a, data, i, left) == before + WriteChunks(page, ps, a, data, 0, g)
    && Unused(|data|, i, left) == Unused(|data|, 0, g)
    && Through(|data|, i, left) == Through(|data|, 0, g)
  }

  /** What it leaves. */
  ghost predicate Over(st: seq<Store>, left: Grants, page: nat, ps: nat, a: nat, data: seq<Word>,
                       before: seq<Store>, g: Grants, ok: bool)
    requires page > 0
  {
    st == before + WriteChunks(page, ps, a, data, 0, g) && left == Unused(|data|, 0, g) && ok == Through(|data|, 0, g)
  }

  lemma UnderwayStep(st: seq<Store>, left: Grants, page: nat, ps: nat, a: nat, data: seq<Word>, i: nat, j: nat,
                     before: seq<Store>, g: Grants)
    requires page > 0 && i < |data| && j == i + ChunkLen(|data|, i)
    requires Underway(st, left, page, ps, a, data, i, before, g)
    ensures Granted(left) ==>
              Underway(st + WriteBuffer(page, ps, Offset16(a + i), data[i..j]), Rest(left), page, ps, a, data,
                       NextIndex(i), before, g)
    ensures !Granted(left) ==> Over(st + [], Rest(left), page, ps, a, data, before, g, false)
  {
    if Granted(left) {
      ChunkStep(page, ps, a, data, i, j, left);
      Regroup(st, WriteBuffer(page, ps, Offset16(a + i), data[i..j]),
              WriteChunks(page, ps, a, data, NextIndex(i), Rest(left)));
    } else {
      assert st + [] == st;
    }
  }

  class Hw {
    const page: nat                // of the part; the driver cannot see it
    const maxPage: nat             // IXGBE_EEPROM_PAGE_SIZE_MAX
    const wordSize: nat
    var wordPageSize: nat          // what the driver believes, 0 if nothing
    var grants: Grants             // how the next attempts to take the EEPROM will go
    var base: nat                  // the page the part is in, ...
    var place: nat                 // ... and the word of it that comes next
    var stored: seq<Store>         // every word the part ever stored, in order

    constructor (page: nat, wordSize: nat, grants: Grants)
      requires page > 0
      ensures this.page == page && this.wordSize == wordSize && this.grants == grants
      ensures maxPage == PAGE_SIZE_MAX
      ensures wordPageSize == 0 && stored == []
    {
      this.page, this.wordSize, this.grants := page, wordSize, grants;
      maxPage := PAGE_SIZE_MAX;
      wordPageSize, base, place, stored := 0, 0, 0, [];
    }

    method Acquire() returns (ok: bool)
      modifies `grants
      ensures ok == old(Granted(grants)) && grants == old(Rest(grants))
    {
      ok, grants := Granted(grants), Rest(grants);
    }

    /** The write command: twice the word address, in 16 bits. */
    method SendAddress(a: nat)
      requires page > 0
      modifies `base, `place
      ensures base + place == a % SPAN && place < page && base % page == 0
    {
      var x := a * 2 % U16 / 2;
      place := x % page;
      base := x - place;
      ghost var b, r := PageStart(page, x);
    }

    method ShiftOut(w: Word)
      requires page > 0
      modifies `place, `stored
      ensures stored == old(stored) + [Store(base + old(place), w)]
      ensures place == if old(place) + 1 == page then 0 else old(place) + 1
    {
      stored, place := stored + [Store(base + place, w)], if place + 1 == page then 0 else place + 1;
    }

    /** One word of a burst that ends before data[end]: whether there are more. */
    method SendWord(offset: nat, data: seq<Word>, i: nat, ghost end: nat, ghost all: seq<Store>) returns (more: bool)
      requires page > 0 && i < end <= |data| && i + BurstLen(wordPageSize, offset + i, |data| - i) == end
      requires stored + Burst(page, base, place, data[i..end]) == all
      modifies `place, `stored
      ensures stored + Burst(page, base, place, data[i + 1..end]) == all && (more <==> i + 1 < end)
      ensures more ==> i + 1 + BurstLen(wordPageSize, offset + i + 1, |data| - i - 1) == end
    {
      BurstStep(page, base, place, data, i, end, stored);
      ShiftOut(data[i]);
      more := i + 1 < |data| && wordPageSize != 0 && And(offset + i, wordPageSize - 1) != wordPageSize - 1;
    }

    /** The do-while loop: words from data[first] on, up to data[next]. */
    method SendWords(offset: nat, data: seq<Word>, first: nat) returns (next: nat)
      requires page > 0 && first < |data|
      modifies `place, `stored
      ensures next == first + BurstLen(wordPageSize, offset + first, |data| - first)
      ensures stored == old(stored) + Burst(page, base, old(place), data[first..next])
    {
      ghost var end := first + BurstLen(wordPageSize, offset + first, |data| - first);
      ghost var all := stored + Burst(page, base, place, data[first..end]);
      next := first;
      var more := true;
      while more
        invariant first <= next <= end <= |data| && (more <==> next < end)
        invariant more ==> next + BurstLen(wordPageSize, offset + next, |data| - next) == end
        invariant stored + Burst(page, base, place, data[next..end]) == all
        decreases more, |data| - next
      {
        more := SendWord(offset, data, next, end, all);
        next := next + 1;
      }
    }

    /** A burst: the address, then its words. */
    method SendBurst(offset: nat, data: seq<Word>, first: nat) returns (next: nat)
      requires page > 0 && first < |data|
      modifies `base, `place, `stored
      ensures next == first + BurstLen(wordPageSize, offset + first, |data| - first)
      ensures stored == old(stored) + Send(page, offset + first, data[first..next])
    {
      SendAddress(offset + first);
      ghost var r := place;
      next := SendWords(offset, data, first);
      SendAt(page, offset + first, base, r, data[first..next]);
    }

    method SendNext(offset: nat, data: seq<Word>, i: nat) returns (next: nat)
      requires page > 0 && i < |data|
      modifies `base, `place, `stored
      ensures i < next <= |data|
      ensures stored + ToStore(page, wordPageSize, offset, data, next)
           == old(stored) + ToStore(page, wordPageSize, offset, data, i)
    {
      next := SendBurst(offset, data, i);
      StoreStep(page, wordPageSize, offset, data, i, next);
      Regroup(old(stored), Send(page, offset + i, data[i..next]), ToStore(page, wordPageSize, offset, data, next));
    }

    /** ixgbe_write_eeprom_buffer_bit_bang */
    method WriteBufferBitBang(offset: nat, data: seq<Word>) returns (ok: bool)
      requires page > 0
      modifies `grants, `base, `place, `stored
      ensures grants == old(Rest(grants)) && ok == old(Granted(grants))
      ensures stored == old(stored) + if ok then WriteBuffer(page, wordPageSize, offset, data) else []
    {
      ok := Acquire();
      if ok {
        var i := 0;
        assert data[0..] == data;
        while i < |data|
          invariant i <= |data|
          invariant grants == old(Rest(grants))
          invariant stored + ToStore(page, wordPageSize, offset, data, i)
                 == old(stored) + WriteBuffer(page, wordPageSize, offset, data)
        {
          i := SendNext(offset, data, i);
        }
      }
    }

    /** The word read at address `a`; a cell never stored to is erased. */
    method ReadWord(a: nat) returns (w: Word)
      ensures w == if Last(stored, a % SPAN).Some? then Last(stored, a % SPAN).value else 0xFFFF
    {
      var x := a * 2 % U16 / 2;
      w := 0xFFFF;
      var i := 0;
      assert stored[0..] == stored;
      while i < |stored|
        invariant i <= |stored|
        invariant (if Last(stored[i..], x).Some? then Last(stored[i..], x).value else w)
               == if Last(stored, x).Some? then Last(stored, x).value else 0xFFFF
      {
        assert stored[i..][1..] == stored[i + 1..];
        if stored[i].addr == x { w := stored[i].word; }
        i := i + 1;
      }
    }

    static method MarchingData(n: nat) returns (data: array<Word>)
      ensures data[..] == March(0, n)
    {
      data := new Word[n];
      for i := 0 to n
        invariant forall j | 0 <= j < i :: data[j] == j
      {
        data[i] := i;
      }
      forall j | 0 <= j < n ensures data[..][j] == March(0, n)[j] { MarchAt(0, n, j); }
    }

    /** ixgbe_detect_eeprom_page_size_generic */
    method DetectPageSize(offset: nat)
      requires page > 0 && maxPage > 0
      modifies `wordPageSize, `grants, `base, `place, `stored
      ensures var d := Detect(page, maxPage, offset, old(grants));
              stored == old(stored) + d.stores && wordPageSize == d.ps && grants == d.left
    {
      var data := MarchingData(maxPage);
      wordPageSize := maxPage;
      var ok := WriteBufferBitBang(offset, data[..]);
      wordPageSize := 0;
      assert stored == old(stored) + if ok then DetectStores(page, maxPage, offset) else [];
      if ok {
        ok := Acquire();
        if ok {
          var w := ReadWord(offset);
          DetectFinds(page, maxPage, offset);
          LastConcat(old(stored), DetectStores(page, maxPage, offset), offset % SPAN);
          wordPageSize := maxPage - w;
        }
      }
    }

    /** One pass of the chunk loop, which started from `before` and `g`. */
    method WriteChunk(offset: nat, data: seq<Word>, i: nat, ghost before: seq<Store>, ghost g: Grants)
      returns (ok: bool)
      requires page > 0 && i < |data| && Underway(stored, grants, page, wordPageSize, offset, data, i, before, g)
      modifies `grants, `base, `place, `stored
      ensures ok ==> |grants| < |old(grants)|
      ensures ok ==> Underway(stored, grants, page, wordPageSize, offset, data, NextIndex(i), before, g)
      ensures !ok ==> Over(stored, grants, page, wordPageSize, offset, data, before, g, false)
    {
      var count := if (|data| - i) / BUFFER_MAX > 0 then BUFFER_MAX else |data| - i;
      UnderwayStep(stored, grants, page, wordPageSize, offset, data, i, i + count, before, g);
      ok := WriteBufferBitBang((offset + i) % U16, data[i..i + count]);
    }

    method WriteAll(offset: nat, data: seq<Word>) returns (ok: bool)
      requires page > 0
      modifies `grants, `base, `place, `stored
      ensures Over(stored, grants, page, wordPageSize, offset, data, old(stored), old(grants), ok)
    {
      var i: nat := 0;
      ok := true;
      while ok && i < |data|
        invariant ok ==> Underway(stored, grants, page, wordPageSize, offset, data, i, old(stored), old(grants))
        invariant !ok ==> Over(stored, grants, page, wordPageSize, offset, data, old(stored), old(grants), false)
        decreases ok, |grants|
      {
        ok := WriteChunk(offset, data, i, old(stored), old(grants));
        if ok { i := (i + BUFFER_MAX) % U16; }
      }
    }

    /** Past the argument checks. */
    method WriteChecked(offset: nat, data: seq<Word>) returns (ok: bool)
      requires page > 0 && maxPage > 0
      modifies `wordPageSize, `grants, `base, `place, `stored
      ensures var o := WriteWords(page, maxPage, old(wordPageSize), offset, data, old(grants));
              ok == o.ok && stored == old(stored) + o.stores && wordPageSize == o.ps && grants == o.left
    {
      ghost var d := Before(page, maxPage, wordPageSize, offset, |data|, grants);
      if wordPageSize == 0 && |data| > maxPage {
        DetectPageSize(offset);
      }
      assert stored == old(stored) + d.stores && wordPageSize == d.ps && grants == d.left;
      ok := WriteAll(offset, data);
      Regroup(old(stored), d.stores, WriteChunks(page, d.ps, offset, data, 0, d.left));
    }

    /** ixgbe_write_eeprom_buffer_bit_bang_generic */
    method WriteBufferGeneric(offset: nat, data: seq<Word>) returns (status: Status)
      requires page > 0 && maxPage > 0
      modifies `wordPageSize, `grants, `base, `place, `stored
      ensures data == [] ==> status == ErrInvalidArgument
      ensures data != [] && !InRange(wordSize, offset, |data|) ==> status == ErrEeprom
      ensures data == [] || !InRange(wordSize, offset, |data|) ==>
                wordPageSize == old(wordPageSize) && grants == old(grants) && stored == old(stored)
      ensures data != [] && InRange(wordSize, offset, |data|) ==>
                var o := WriteWords(page, maxPage, old(wordPageSize), offset, data, old(grants));
                && status == (if o.ok then Success else ErrEeprom)
                && stored == old(stored) + o.stores && wordPageSize == o.ps && grants == o.left
    {
      if data == [] {
        return ErrInvalidArgument;
      }
      if |data| > (wordSize - offset) % 0x1_0000_0000 {
        return ErrEeprom;
      }
      var ok := WriteChecked(offset, data);
      status := if ok then Success else ErrEeprom;
    }
  }
}
