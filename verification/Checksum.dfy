/** The EEPROM checksum: the words below the checksum word, and every section a pointer
    word leads to, add up with the checksum to a constant modulo 2^16. */
module Checksum {
  import opened Options

  const SUM: nat := 0xBABA            // IXGBE_EEPROM_SUM

  type Word = n: nat | n < 0x10000

  /** Where the checksum word is and which words are pointers. */
  datatype Layout = Layout(sum: nat, first: nat, end: nat)

  predicate Ordered(l: Layout) {
    l.first <= l.end <= l.sum
  }

  /** IXGBE_EEPROM_CHECKSUM, IXGBE_PCIE_ANALOG_PTR and IXGBE_FW_PTR */
  function Generic(): (l: Layout)
    ensures Ordered(l)
  {
    Layout(0x3F, 0x03, 0x0F)
  }

  // ---- which words are added ----

  function Range(lo: nat, n: nat): (s: seq<nat>)
    ensures |s| == n
    decreases n
  {
    if n == 0 then [] else [lo] + Range(lo + 1, n - 1)
  }

  predicate Dead(w: Word) {
    w == 0xFFFF || w == 0
  }

  /** The addresses one pointer word adds, or none if a read goes past the image. */
  function Section(img: seq<Word>, i: nat): Option<seq<nat>>
    requires i < |img|
  {
    var p := img[i];
    if Dead(p) then Some([])
    else if p >= |img| then None
    else if Dead(img[p]) then Some([])
    else if p + img[p] >= |img| then None
    else Some(Range(p + 1, img[p]))
  }

  function Sections(img: seq<Word>, i: nat, end: nat): Option<seq<nat>>
    requires i <= end <= |img|
    decreases end - i
  {
    if i == end then Some([])
    else if Section(img, i) == None then None
    else
      var rest := Sections(img, i + 1, end);
      if rest == None then None else Some(Section(img, i).value + rest.value)
  }

  /** Every address added, in order, once for each time it is. */
  function Added(l: Layout, img: seq<Word>): Option<seq<nat>>
    requires Ordered(l)
  {
    if |img| < l.sum then None
    else
      var rest := Sections(img, l.first, l.end);
      if rest == None then None else Some(Range(0, l.sum) + rest.value)
  }

  function WordAt(img: seq<Word>, a: nat): int {
    if a < |img| then img[a] else 0
  }

  function Total(img: seq<Word>, s: seq<nat>): int {
    if s == [] then 0 else WordAt(img, s[0]) + Total(img, s[1..])
  }

  function Times(s: seq<nat>, x: nat): nat {
    if s == [] then 0 else (if s[0] == x then 1 else 0) + Times(s[1..], x)
  }

  /** The section behind pointer word `i` holds `x`: the words after its length word. */
  predicate Covers(img: seq<Word>, i: nat, x: nat)
    requires i < |img|
  {
    var p := img[i];
    0 < p < 0xFFFF && p < |img| && 0 < img[p] < 0xFFFF && p < x <= p + img[p]
  }

  function Covering(img: seq<Word>, i: nat, end: nat, x: nat): nat
    requires i <= end <= |img|
    decreases end - i
  {
    if i == end then 0 else (if Covers(img, i, x) then 1 else 0) + Covering(img, i + 1, end, x)
  }

  lemma {:induction false} TimesConcat(s: seq<nat>, t: seq<nat>, x: nat)
    ensures Times(s + t, x) == Times(s, x) + Times(t, x)
  {
    if s == [] {
      assert s + t == t;
    } else {
      assert (s + t)[1..] == s[1..] + t;
      TimesConcat(s[1..], t, x);
    }
  }

  lemma {:induction false} TimesRange(lo: nat, n: nat, x: nat)
    ensures Times(Range(lo, n), x) == if lo <= x < lo + n then 1 else 0
    decreases n
  {
    if n > 0 { TimesRange(lo + 1, n - 1, x); }
  }

  lemma {:induction false} TimesSections(img: seq<Word>, i: nat, end: nat, x: nat)
    requires i <= end <= |img| && Sections(img, i, end).Some?
    ensures Times(Sections(img, i, end).value, x) == Covering(img, i, end, x)
    decreases end - i
  {
    if i < end {
      var sec := Section(img, i).value;
      TimesSections(img, i + 1, end, x);
      TimesConcat(sec, Sections(img, i + 1, end).value, x);
      if sec != [] { TimesRange(img[i] + 1, img[img[i]], x); }
    }
  }

  /** A word is added once if it lies below the checksum word, and once more for every
      pointer whose section holds it. */
  lemma TimesAdded(l: Layout, img: seq<Word>, x: nat)
    requires Ordered(l) && Added(l, img).Some?
    ensures Times(Added(l, img).value, x) == (if x < l.sum then 1 else 0) + Covering(img, l.first, l.end, x)
  {
    TimesSections(img, l.first, l.end, x);
    TimesRange(0, l.sum, x);
    TimesConcat(Range(0, l.sum), Sections(img, l.first, l.end).value, x);
  }

  // ---- calculating, validating, updating ----

  datatype Status = Success | ErrEeprom | ErrChecksum

  function Calc(l: Layout, img: seq<Word>): Option<Word>
    requires Ordered(l)
  {
    var s := Added(l, img);
    if s == None then None else Some((SUM - Total(img, s.value)) % 0x10000)
  }

  /** The words from `x` on, each as often as `times` says. */
  function Weighted(img: seq<Word>, times: nat -> nat, x: nat): nat
    requires x <= |img|
    decreases |img| - x
  {
    if x == |img| then 0 else img[x] * times(x) + Weighted(img, times, x + 1)
  }

  lemma {:induction false} WeightedMore(img: seq<Word>, t: nat -> nat, t': nat -> nat, a: nat, x: nat)
    requires x <= |img| && forall y: nat :: t'(y) == t(y) + if y == a then 1 else 0
    ensures Weighted(img, t', x) == Weighted(img, t, x) + if x <= a then WordAt(img, a) else 0
    decreases |img| - x
  {
    if x < |img| {
      WeightedMore(img, t, t', a, x + 1);
      var n := t(x);
      assert img[x] * (n + 1) == img[x] * n + img[x];
    }
  }

  lemma {:induction false} WeightedSame(img: seq<Word>, t: nat -> nat, t': nat -> nat, x: nat)
    requires x <= |img| && forall y: nat :: t'(y) == t(y)
    ensures Weighted(img, t', x) == Weighted(img, t, x)
    decreases |img| - x
  {
    if x < |img| { WeightedSame(img, t, t', x + 1); }
  }

  lemma {:induction false} WeightedNone(img: seq<Word>, t: nat -> nat, x: nat)
    requires x <= |img| && forall y: nat :: t(y) == 0
    ensures Weighted(img, t, x) == 0
    decreases |img| - x
  {
    if x < |img| { WeightedNone(img, t, x + 1); }
  }

  lemma {:induction false} TotalWeighted(img: seq<Word>, s: seq<nat>, x: nat)
    requires x == 0
    ensures Total(img, s) == Weighted(img, y => Times(s, y), x)
    decreases |s|
  {
    if s == [] {
      WeightedNone(img, y => Times(s, y), x);
    } else {
      TotalWeighted(img, s[1..], x);
      WeightedMore(img, y => Times(s[1..], y), y => Times(s, y), s[0], x);
    }
  }

  /** How often a word counts: once below the checksum, once for every section it is in. */
  function Weight(l: Layout, img: seq<Word>, x: nat): nat
    requires Ordered(l) && l.sum <= |img|
  {
    (if x < l.sum then 1 else 0) + Covering(img, l.first, l.end, x)
  }

  /** A pointer leads past the image. */
  predicate LeadsOut(img: seq<Word>, i: nat)
    requires i < |img|
  {
    var p := img[i];
    0 < p < 0xFFFF && (p >= |img| || (0 < img[p] < 0xFFFF && p + img[p] >= |img|))
  }

  lemma {:induction false} SectionsNone(img: seq<Word>, i: nat, end: nat)
    requires i <= end <= |img|
    ensures Sections(img, i, end) == None <==> exists j: nat | i <= j < end :: LeadsOut(img, j)
    decreases end - i
  {
    if i < end {
      assert LeadsOut(img, i) <==> Section(img, i) == None;
      SectionsNone(img, i + 1, end);
    }
  }

  /** The calculated word brings the words, each as often as it counts, to the constant; and
      there is none exactly when a read would leave the image. */
  lemma CalcIs(l: Layout, img: seq<Word>, x: nat)
    requires Ordered(l) && x == 0
    ensures Calc(l, img) == None
       <==> |img| < l.sum || exists j: nat | l.first <= j < l.end :: LeadsOut(img, j)
    ensures Calc(l, img).Some? ==>
              (Calc(l, img).value + Weighted(img, y => Weight(l, img, y), x)) % 0x10000 == SUM
  {
    if |img| >= l.sum { SectionsNone(img, l.first, l.end); }
    if Calc(l, img).Some? {
      var s := Added(l, img).value;
      TotalWeighted(img, s, x);
      forall y: nat ensures Times(s, y) == Weight(l, img, y) { TimesAdded(l, img, y); }
      WeightedSame(img, y => Times(s, y), y => Weight(l, img, y), x);
    }
  }

  function Validate(l: Layout, img: seq<Word>): Status
    requires Ordered(l)
  {
    if img == [] || Calc(l, img) == None || l.sum >= |img| then ErrEeprom
    else if img[l.sum] != Calc(l, img).value then ErrChecksum
    else Success
  }

  /** Validation succeeds exactly when the checksum word is there, no read leaves the image
      and the words add up to the constant. */
  lemma ValidateIff(l: Layout, img: seq<Word>, x: nat)
    requires Ordered(l) && x == 0
    ensures Validate(l, img) == Success
       <==> && l.sum < |img| && (forall j: nat | l.first <= j < l.end :: !LeadsOut(img, j))
            && (img[l.sum] + Weighted(img, y => Weight(l, img, y), x)) % 0x10000 == SUM
  {
    CalcIs(l, img, x);
    if l.sum < |img| && Calc(l, img).Some? {
      SameMod(Calc(l, img).value, img[l.sum], Weighted(img, y => Weight(l, img, y), x));
    }
  }

  lemma SameMod(a: Word, b: Word, t: nat)
    ensures a == b <==> (a + t) % 0x10000 == (b + t) % 0x10000
  {
  }

  function Update(l: Layout, img: seq<Word>): (r: (Status, seq<Word>))
    requires Ordered(l)
    ensures |r.1| == |img|
  {
    if img == [] || Calc(l, img) == None || l.sum >= |img| then (ErrEeprom, img)
    else (Success, img[l.sum := Calc(l, img).value])
  }

  // ---- changing one word ----

  /** `x` is read as a pointer or as a section's length. */
  predicate Steers(l: Layout, img: seq<Word>, x: nat)
    requires Ordered(l) && l.sum <= |img|
  {
    l.first <= x < l.end || exists i: nat | l.first <= i < l.end :: img[i] == x && !Dead(img[i])
  }

  lemma {:induction false} SectionsKept(l: Layout, img: seq<Word>, x: nat, w: Word, i: nat)
    requires Ordered(l) && l.sum <= |img| && x < |img| && !Steers(l, img, x) && l.first <= i <= l.end
    ensures Sections(img[x := w], i, l.end) == Sections(img, i, l.end)
    decreases l.end - i
  {
    if i < l.end { SectionsKept(l, img, x, w, i + 1); }
  }

  /** Adding the same addresses, a changed word counts once for each time it is added. */
  lemma {:induction false} TotalChanged(img: seq<Word>, x: nat, w: Word, s: seq<nat>)
    requires x < |img|
    ensures Total(img[x := w], s) == Total(img, s) + Times(s, x) * (w - img[x])
  {
    if s != [] {
      TotalChanged(img, x, w, s[1..]);
      var d, n := w - img[x], Times(s[1..], x);
      assert (n + 1) * d == n * d + d;
    }
  }

  lemma AddedKept(l: Layout, img: seq<Word>, x: nat, w: Word)
    requires Ordered(l) && x < |img| && l.sum <= |img| && !Steers(l, img, x)
    ensures Added(l, img[x := w]) == Added(l, img)
  {
    SectionsKept(l, img, x, w, l.first);
  }

  lemma CalcChanged(l: Layout, img: seq<Word>, x: nat, w: Word) returns (d: int)
    requires Ordered(l) && x < |img| && Calc(l, img).Some? && !Steers(l, img, x)
    ensures d == Times(Added(l, img).value, x) * (w - img[x])
    ensures Calc(l, img[x := w]) == Some((SUM - Total(img, Added(l, img).value) - d) % 0x10000)
  {
    var s := Added(l, img).value;
    d := Times(s, x) * (w - img[x]);
    AddedKept(l, img, x, w);
    TotalChanged(img, x, w, s);
  }

  lemma ModShift(t: int, d: int)
    ensures (t - d) % 0x10000 == t % 0x10000 <==> d % 0x10000 == 0
  {
  }

  /** Updating and then validating succeeds exactly when what the new checksum word adds to
      its own sum is a multiple of 2^16; so always when the walk does not add it. */
  lemma UpdateThenValidate(l: Layout, img: seq<Word>)
    requires Ordered(l) && l.sum < |img| && Calc(l, img).Some? && !Steers(l, img, l.sum)
    ensures Update(l, img).0 == Success
    ensures Validate(l, Update(l, img).1) == Success
       <==> (Times(Added(l, img).value, l.sum) * (Calc(l, img).value - img[l.sum])) % 0x10000 == 0
  {
    var d := CalcChanged(l, img, l.sum, Calc(l, img).value);
    ModShift(SUM - Total(img, Added(l, img).value), d);
  }

  /** A change to a word of a valid image, other than the checksum and a pointer or length,
      passes validation exactly when its weighted amount is a multiple of 2^16. */
  lemma ChangeDetected(l: Layout, img: seq<Word>, x: nat, w: Word)
    requires Ordered(l) && x < |img| && Validate(l, img) == Success && x != l.sum && !Steers(l, img, x)
    ensures Validate(l, img[x := w])
         == if (Times(Added(l, img).value, x) * (w - img[x])) % 0x10000 == 0 then Success else ErrChecksum
  {
    var d := CalcChanged(l, img, x, w);
    ModShift(SUM - Total(img, Added(l, img).value), d);
  }

  /** So a word added once is covered completely. */
  lemma SingleWordCovered(l: Layout, img: seq<Word>, x: nat, w: Word)
    requires Ordered(l) && x < |img| && Validate(l, img) == Success && x != l.sum && !Steers(l, img, x)
    requires Times(Added(l, img).value, x) == 1 && w != img[x]
    ensures Validate(l, img[x := w]) == ErrChecksum
  {
    ChangeDetected(l, img, x, w);
  }

  // ---- the driver ----

  lemma {:induction false} TotalSnoc(img: seq<Word>, s: seq<nat>, a: nat)
    ensures Total(img, s + [a]) == Total(img, s) + WordAt(img, a)
  {
    if s != [] {
      assert (s + [a])[1..] == s[1..] + [a];
      TotalSnoc(img, s[1..], a);
    }
  }

  lemma {:induction false} RangeSnoc(lo: nat, n: nat)
    ensures Range(lo, n + 1) == Range(lo, n) + [lo + n]
    decreases n
  {
    if n > 0 { RangeSnoc(lo + 1, n - 1); }
  }

  lemma TotalNext(img: seq<Word>, done: seq<nat>, lo: nat, n: nat)
    ensures Total(img, done + Range(lo, n + 1)) == Total(img, done + Range(lo, n)) + WordAt(img, lo + n)
  {
    RangeSnoc(lo, n);
    assert done + (Range(lo, n) + [lo + n]) == done + Range(lo, n) + [lo + n];
    TotalSnoc(img, done + Range(lo, n), lo + n);
  }

  ghost function Then(done: seq<nat>, rest: Option<seq<nat>>): Option<seq<nat>> {
    if rest == None then None else Some(done + rest.value)
  }

  lemma ThenStep(img: seq<Word>, done: seq<nat>, i: nat, end: nat)
    requires i < end <= |img| && Section(img, i).Some?
    ensures Then(done, Sections(img, i, end)) == Then(done + Section(img, i).value, Sections(img, i + 1, end))
  {
    var sec, rest := Section(img, i).value, Sections(img, i + 1, end);
    assert rest.Some? ==> done + (sec + rest.value) == done + sec + rest.value;
  }

  lemma MinusMod(total: int, checksum: int)
    requires checksum == total % 0x10000
    ensures (SUM - checksum) % 0x10000 == (SUM - total) % 0x10000
  {
  }

  /** The loop over a section counts in 16 bits: whether it ends. */
  predicate Ends(img: seq<Word>, i: nat)
    requires i < |img|
  {
    var p := img[i];
    |img| <= 0xFFFF || Dead(p) || p >= |img| || Dead(img[p]) || p + img[p] < 0xFFFF
  }

  predicate Stops(p: Word, length: Word, n: nat, k: nat) {
    var j := (p + 1 + k) % 0x10000;
    j > p + length || j >= n
  }

  /** From the word after the pointer on, the loop over `length` words of an image of `n` words
      comes to its end or to a failing read, unless the image has every 16-bit address and
      the section reaches the last. */
  lemma LoopEndsIff(p: Word, length: Word, n: nat)
    requires p < 0xFFFF
    ensures (exists k: nat :: Stops(p, length, n, k)) <==> n <= 0xFFFF || p + length < 0xFFFF
  {
    if n <= 0xFFFF {
      assert Stops(p, length, n, if p + 1 < n then n - p - 1 else 0);
    } else if p + length < 0xFFFF {
      assert Stops(p, length, n, length);
    }
  }

  class Nvm {
    const l: Layout
    const image: array<Word>         // word_size words; a read past them fails

    constructor (image: array<Word>)
      ensures l == Generic() && this.image == image
    {
      l, this.image := Generic(), image;
    }

    /** The section loops end: see LoopEndsIff. */
    ghost predicate Valid()
      reads image
    {
      Ordered(l) && (forall i: nat | l.first <= i < l.end && i < image.Length :: Ends(image[..], i))
    }

    /** ixgbe_calc_eeprom_checksum_generic, the words below the checksum. */
    method AddHead() returns (ok: bool, checksum: Word)
      requires Valid()
      ensures ok == (l.sum <= image.Length)
      ensures ok ==> checksum == Total(image[..], Range(0, l.sum)) % 0x10000
    {
      var i := 0;
      checksum := 0;
      while i < l.sum
        invariant i <= l.sum && i <= image.Length
        invariant checksum == Total(image[..], Range(0, i)) % 0x10000
      {
        if i >= image.Length { return false, 0; }
        checksum := (checksum + image[i]) % 0x10000;
        RangeSnoc(0, i);
        TotalSnoc(image[..], Range(0, i), i);
        i := i + 1;
      }
      ok := true;
    }

    /** The section behind the pointer word `i`; `done` are the addresses added before. */
    method AddSection(i: nat, start: Word, ghost done: seq<nat>) returns (ok: bool, checksum: Word)
      requires Valid() && l.first <= i < l.end && i < image.Length && start == Total(image[..], done) % 0x10000
      ensures ok == Section(image[..], i).Some?
      ensures ok ==> checksum == Total(image[..], done + Section(image[..], i).value) % 0x10000
    {
      var pointer := image[i];
      assert done + [] == done && Ends(image[..], i);
      if pointer == 0xFFFF || pointer == 0 { return true, start; }
      if pointer >= image.Length { return false, 0; }
      var length := image[pointer];
      if length == 0xFFFF || length == 0 { return true, start; }
      ok, checksum := AddWords(pointer, length, start, done);
    }

    /** One more word of a section. */
    method AddWord(j: nat, before: Word, ghost done: seq<nat>, ghost lo: nat) returns (checksum: Word)
      requires lo <= j < image.Length && before == Total(image[..], done + Range(lo, j - lo)) % 0x10000
      ensures checksum == Total(image[..], done + Range(lo, j + 1 - lo)) % 0x10000
    {
      TotalNext(image[..], done, lo, j - lo);
      checksum := (before + image[j]) % 0x10000;
    }

    method AddWords(pointer: Word, length: Word, start: Word, ghost done: seq<nat>) returns (ok: bool, checksum: Word)
      requires pointer < image.Length && start == Total(image[..], done) % 0x10000
      requires image.Length <= 0xFFFF || pointer + length < 0xFFFF
      ensures ok == (pointer + length < image.Length)
      ensures ok ==> checksum == Total(image[..], done + Range(pointer + 1, length)) % 0x10000
    {
      ghost var lo := pointer + 1;
      assert done + [] == done;
      checksum := start;
      var j: nat := (pointer + 1) % 0x10000;
      while j <= pointer + length
        invariant lo <= j <= lo + length && j <= image.Length
        invariant checksum == Total(image[..], done + Range(lo, j - lo)) % 0x10000
      {
        if j >= image.Length { return false, 0; }
        checksum := AddWord(j, checksum, done, lo);
        j := (j + 1) % 0x10000;
      }
      ok := true;
    }

    method CalcChecksum() returns (r: Option<Word>)
      requires Valid()
      ensures r == Calc(l, image[..])
    {
      ghost var img := image[..];
      var ok, checksum := AddHead();
      if !ok { return None; }
      ghost var done := Range(0, l.sum);
      var i := l.first;
      while i < l.end
        invariant l.first <= i <= l.end <= |img| && img == image[..]
        invariant checksum == Total(img, done) % 0x10000
        invariant Added(l, img) == Then(done, Sections(img, i, l.end))
      {
        ok, checksum := AddSection(i, checksum, done);
        if !ok { return None; }
        ThenStep(img, done, i, l.end);
        done := done + Section(img, i).value;
        i := i + 1;
      }
      assert done + [] == done;
      MinusMod(Total(img, done), checksum);
      r := Some((SUM - checksum) % 0x10000);
    }

    /** ixgbe_validate_eeprom_checksum_generic */
    method ValidateChecksum() returns (status: Status)
      requires Valid()
      ensures status == Validate(l, image[..])
    {
      if image.Length == 0 { return ErrEeprom; }
      var r := CalcChecksum();
      if r == None || l.sum >= image.Length { return ErrEeprom; }
      status := if image[l.sum] != r.value then ErrChecksum else Success;
    }

    /** ixgbe_update_eeprom_checksum_generic */
    method UpdateChecksum() returns (status: Status)
      requires Valid()
      modifies image
      ensures (status, image[..]) == old(Update(l, image[..]))
    {
      if image.Length == 0 { return ErrEeprom; }
      var r := CalcChecksum();
      if r == None || l.sum >= image.Length { return ErrEeprom; }
      image[l.sum] := r.value;
      status := Success;
    }
  }
}
