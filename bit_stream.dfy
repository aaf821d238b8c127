/** The bit-level reading of 32-bit words that the multi-bit array relies on.

    A word's bit m (m an integer below 32) is its lowest bit after m shifts
    down by one. A sequence of words is read as one little-endian bit stream:
    stream bit k is bit k % 32 of word k / 32. `StreamValue(bits, start, n)`
    is the number whose bit m, for m < n, is stream bit start + m. */
module BitStreams {
  import opened BitOps

  // ---------------------------------------------------------------------
  // One word

  /** Bit 0 of the word. */
  function LowestBit(x: bv32): bool
  {
    x & 1 == 1
  }

  /** The word shifted down by one bit. */
  function DropLowestBit(x: bv32): bv32
  {
    x >> 1
  }

  /** The word shifted up by one bit, with b entering at bit 0. */
  function ShiftIn(rest: bv32, b: bool): bv32
  {
    (rest << 1) | (if b then 1 else 0)
  }

  /** Bit m of the word, for an integer position m. */
  function WordBit(x: bv32, m: nat): bool
    requires m < 32
  {
    if m == 0 then LowestBit(x) else WordBit(DropLowestBit(x), m - 1)
  }

  /** The 32 bits of the word, lowest first. */
  function WordBits(x: bv32): (bits: seq<bool>)
    ensures |bits| == 32
    ensures forall m :: 0 <= m < 32 ==> bits[m] == WordBit(x, m)
  {
    seq(32, m requires 0 <= m < 32 => WordBit(x, m))
  }

  /** The 32-bit position equal to the integer m. */
  function ToBv(m: nat): (b: bv32)
    requires m <= 32
    ensures b as int == m
  {
    if m == 0 then 0 else ToBv(m - 1) + 1
  }

  /** The n lowest bits set: n ones shifted in from below. */
  function LowBitsMask(n: nat): bv32
    requires n <= 32
  {
    if n == 0 then 0 else ShiftIn(LowBitsMask(n - 1), true)
  }

  /** The word shifted up by g bits, one bit at a time. */
  function ShiftUp(x: bv32, g: nat): bv32
  {
    if g == 0 then x else ShiftIn(ShiftUp(x, g - 1), false)
  }

  // Positions below 32 as 32-bit values and as integers.

  lemma PredAsInt(b: bv32)
    requires 0 < b < 32
    ensures (b - 1) as int == b as int - 1
  {
  }

  lemma EqAsInt(a: bv32, b: bv32, m: nat)
    requires a as int == m && b < 32
    ensures (a == b) == (m == b as int)
  {
  }

  lemma SumAsInt(j: bv32, d: bv32)
    requires j < 32 && d < 32
    ensures (j < 32 - d) == (j as int + d as int < 32)
    ensures j as int + d as int < 32 ==> j + d < 32 && (j + d) as int == j as int + d as int
  {
  }
  /** A loop counter i below n, with s + n <= 32, counts without wrapping. */
  // Bits at 32-bit positions and at integer positions.

  lemma DropLowestBitAt(x: bv32, b: bv32)
    requires 0 < b < 32
    ensures IsBitSet(DropLowestBit(x), b - 1) == IsBitSet(x, b)
  {
  }

  /** The integer-position bit is the bit `IsBitSet` tests. */
  lemma {:induction false} WordBitIsBitSet(x: bv32, b: bv32)
    requires b < 32
    ensures WordBit(x, b as int) == IsBitSet(x, b)
    decreases b
  {
    if b == 0 {
      assert LowestBit(x) == IsBitSet(x, 0);
    } else {
      WordBitIsBitSet(DropLowestBit(x), b - 1);
      PredAsInt(b);
      DropLowestBitAt(x, b);
    }
  }

  /** Two words with the same bits are equal. */
  lemma WordBitsDetermineWord(a: bv32, b: bv32)
    requires forall m: nat :: m < 32 ==> WordBit(a, m) == WordBit(b, m)
    ensures a == b
  {
    forall j: bv32 | j < 32
      ensures IsBitSet(a, j) == IsBitSet(b, j)
    {
      WordBitIsBitSet(a, j);
      WordBitIsBitSet(b, j);
    }
    BitsDetermineWord(a, b);
  }

  lemma ZeroWordBit(m: nat)
    requires m < 32
    ensures !WordBit(0, m)
  {
    if m > 0 {
      assert DropLowestBit(0) == 0;
      ZeroWordBit(m - 1);
    }
  }

  lemma ShiftInLowestBit(x: bv32, b: bool)
    ensures LowestBit(ShiftIn(x, b)) == b
  {
  }

  lemma ShiftInBitAt(x: bv32, b: bool, j: bv32)
    requires 0 < j < 32
    ensures IsBitSet(ShiftIn(x, b), j) == IsBitSet(x, j - 1)
  {
  }

  /** Shifting in moves every bit one position up and puts b at bit 0. */
  lemma ShiftInWordBit(x: bv32, b: bool, m: nat)
    requires m < 32
    ensures WordBit(ShiftIn(x, b), m) == if m == 0 then b else WordBit(x, m - 1)
  {
    if m == 0 {
      ShiftInLowestBit(x, b);
    } else {
      var j := ToBv(m);
      PredAsInt(j);
      WordBitIsBitSet(ShiftIn(x, b), j);
      WordBitIsBitSet(x, j - 1);
      ShiftInBitAt(x, b, j);
    }
  }

  /** Setting bit k of the k-bit mask gives the (k+1)-bit mask. */
  lemma MaskGrows(k: nat)
    requires k < 32
    ensures SetBit(LowBitsMask(k), ToBv(k)) == LowBitsMask(k + 1)
  {
    var a := SetBit(LowBitsMask(k), ToBv(k));
    var b := LowBitsMask(k + 1);
    forall m: nat | m < 32
      ensures WordBit(a, m) == WordBit(b, m)
    {
      SetBitWordBit(LowBitsMask(k), ToBv(k), m);
      LowBitsMaskBit(k, m);
      LowBitsMaskBit(k + 1, m);
    }
    WordBitsDetermineWord(a, b);
  }

  /** Bit m of the mask is set exactly below n. */
  lemma {:induction false} LowBitsMaskBit(n: nat, m: nat)
    requires n <= 32 && m < 32
    ensures WordBit(LowBitsMask(n), m) == (m < n)
    decreases n
  {
    if n == 0 {
      ZeroWordBit(m);
    } else {
      ShiftInWordBit(LowBitsMask(n - 1), true, m);
      if m > 0 {
        LowBitsMaskBit(n - 1, m - 1);
      }
    }
  }

  lemma SetBitWordBit(x: bv32, b: bv32, m: nat)
    requires b < 32 && m < 32
    ensures WordBit(SetBit(x, b), m) == (m == b as int || WordBit(x, m))
  {
    var j := ToBv(m);
    EqAsInt(j, b, m);
    var y := SetBit(x, b);
    assert IsBitSet(y, j) == (j == b || IsBitSet(x, j));
    WordBitIsBitSet(y, j);
    WordBitIsBitSet(x, j);
  }

  lemma ClearBitWordBit(x: bv32, b: bv32, m: nat)
    requires b < 32 && m < 32
    ensures WordBit(ClearBit(x, b), m) == (m != b as int && WordBit(x, m))
  {
    var j := ToBv(m);
    EqAsInt(j, b, m);
    var y := ClearBit(x, b);
    assert IsBitSet(y, j) == (j != b && IsBitSet(x, j));
    WordBitIsBitSet(y, j);
    WordBitIsBitSet(x, j);
  }

  /** A word that differs from x at most in bit p, which is val, has x's bits updated at p. */
  lemma WordBitsUpdate(y: bv32, x: bv32, p: nat, val: bool)
    requires p < 32
    requires forall m: nat :: m < 32 ==> WordBit(y, m) == if m == p then val else WordBit(x, m)
    ensures WordBits(y) == WordBits(x)[p := val]
  {
    forall m | 0 <= m < 32
      ensures WordBits(y)[m] == WordBits(x)[p := val][m]
    {
    }
  }

  /** `SetBit` changes exactly bit b of the word, to 1. */
  lemma SetBitWordBits(x: bv32, b: bv32)
    requires b < 32
    ensures WordBits(SetBit(x, b)) == WordBits(x)[b as int := true]
  {
    var y := SetBit(x, b);
    var p := b as int;
    forall m: nat | m < 32
      ensures WordBit(y, m) == if m == p then true else WordBit(x, m)
    {
      SetBitWordBit(x, b, m);
    }
    WordBitsUpdate(y, x, p, true);
  }

  /** `ClearBit` changes exactly bit b of the word, to 0. */
  lemma ClearBitWordBits(x: bv32, b: bv32)
    requires b < 32
    ensures WordBits(ClearBit(x, b)) == WordBits(x)[b as int := false]
  {
    var y := ClearBit(x, b);
    var p := b as int;
    forall m: nat | m < 32
      ensures WordBit(y, m) == if m == p then false else WordBit(x, m)
    {
      ClearBitWordBit(x, b, m);
    }
    WordBitsUpdate(y, x, p, false);
  }

  lemma ShiftDownBitAt(x: bv32, d: bv32, j: bv32)
    requires d < 32 && j < 32
    ensures IsBitSet(x >> d, j) == (j < 32 - d && IsBitSet(x, j + d))
  {
  }

  lemma ShiftUpBitAt(x: bv32, g: bv32, k: bv32)
    requires g < 32 && k < 32 - g
    ensures IsBitSet(x << g, k + g) == IsBitSet(x, k)
  {
  }

  lemma ShiftUpLowBitAt(x: bv32, g: bv32, j: bv32)
    requires j < g < 32
    ensures !IsBitSet(x << g, j)
  {
  }

  lemma LtAsInt(a: bv32, b: bv32)
    requires a < 32 && b < 32
    ensures (a < b) == (a as int < b as int)
  {
  }

  /** Shifting down by d moves bit m + d to bit m; the top d bits become 0. */
  lemma ShiftDownWordBit(x: bv32, d: bv32, m: nat)
    requires d < 32 && m < 32
    ensures WordBit(x >> d, m) == (m + d as int < 32 && WordBit(x, m + d as int))
  {
    var j := ToBv(m);
    SumAsInt(j, d);
    if m + d as int < 32 {
      ShiftDownKeptBit(x, d, j);
    } else {
      ShiftDownClearedBit(x, d, j);
    }
  }

  /** Bit j + d of x is bit j of x >> d. */
  lemma ShiftDownKeptBit(x: bv32, d: bv32, j: bv32)
    requires d < 32 && j < 32 - d && j + d < 32 && (j + d) as int == j as int + d as int
    ensures WordBit(x >> d, j as int) == WordBit(x, j as int + d as int)
  {
    WordBitIsBitSet(x >> d, j);
    WordBitIsBitSet(x, j + d);
    ShiftDownBitAt(x, d, j);
  }

  /** Bit j of x >> d is 0 from 32 - d on. */
  lemma ShiftDownClearedBit(x: bv32, d: bv32, j: bv32)
    requires d < 32 && j < 32 && !(j < 32 - d)
    ensures !WordBit(x >> d, j as int)
  {
    WordBitIsBitSet(x >> d, j);
    ShiftDownBitAt(x, d, j);
  }

  /** Shifting up by g moves bit m - g to bit m; the low g bits become 0. */
  lemma ShiftLeftWordBit(x: bv32, g: bv32, m: nat)
    requires g < 32 && m < 32
    ensures WordBit(x << g, m) == (g as int <= m && WordBit(x, m - g as int))
  {
    if g as int <= m {
      var k := ToBv(m - g as int);
      SumAsInt(k, g);
      ShiftLeftKeptBit(x, g, k);
    } else {
      ShiftLeftClearedBit(x, g, ToBv(m));
    }
  }

  /** Bit k of x is bit k + g of x << g. */
  lemma ShiftLeftKeptBit(x: bv32, g: bv32, k: bv32)
    requires g < 32 && k < 32 - g && k + g < 32 && (k + g) as int == k as int + g as int
    ensures WordBit(x << g, k as int + g as int) == WordBit(x, k as int)
  {
    WordBitIsBitSet(x << g, k + g);
    WordBitIsBitSet(x, k);
    ShiftUpBitAt(x, g, k);
  }

  /** Bit j of x << g is 0 below g. */
  lemma ShiftLeftClearedBit(x: bv32, g: bv32, j: bv32)
    requires g < 32 && j < 32 && j as int < g as int
    ensures !WordBit(x << g, j as int)
  {
    LtAsInt(j, g);
    WordBitIsBitSet(x << g, j);
    ShiftUpLowBitAt(x, g, j);
  }

  lemma {:induction false} ShiftUpWordBit(x: bv32, g: nat, m: nat)
    requires m < 32
    ensures WordBit(ShiftUp(x, g), m) == (g <= m && WordBit(x, m - g))
    decreases g
  {
    if g > 0 {
      ShiftInWordBit(ShiftUp(x, g - 1), false, m);
      if m > 0 {
        ShiftUpWordBit(x, g - 1, m - 1);
      }
    }
  }

  /** The shift operator agrees with shifting up one bit at a time. */
  lemma ShiftLeftIsShiftUp(x: bv32, g: bv32, n: nat)
    requires n < 32 && g as int == n
    ensures x << g == ShiftUp(x, n)
  {
    var shifted := x << g;
    var stepped := ShiftUp(x, n);
    forall m: nat | m < 32
      ensures WordBit(shifted, m) == WordBit(stepped, m)
    {
      ShiftLeftWordBit(x, g, m);
      ShiftUpWordBit(x, n, m);
    }
    WordBitsDetermineWord(shifted, stepped);
  }

  /** `x << n` for a shift amount below 32 held as an integer. */
  function ShiftLeft(x: bv32, n: nat): (r: bv32)
    requires n < 32
    ensures r == ShiftUp(x, n)
  {
    var g := ToBv(n);
    ShiftLeftIsShiftUp(x, g, n);
    x << g
  }

  /** `x >> n` for a shift amount below 32 held as an integer: the n lowest
      bits shifted out. */
  function ShiftRight(x: bv32, n: nat): (r: bv32)
    requires n < 32
    ensures r == DropLowBits(x, n)
  {
    var d := ToBv(n);
    ShiftRightIsDropLowBits(x, d, n);
    x >> d
  }

  lemma ShiftRightStep(x: bv32, d: bv32)
    requires d < 31
    ensures x >> (d + 1) == (x >> d) >> 1
  {
  }

  /** A shift down by d moves out the d lowest bits one at a time. */
  lemma {:induction false} ShiftRightIsDropLowBits(x: bv32, d: bv32, n: nat)
    requires n < 32 && d as int == n
    ensures x >> d == DropLowBits(x, n)
    decreases n
  {
    if n > 0 {
      PredAsInt(d);
      ShiftRightIsDropLowBits(x, d - 1, n - 1);
      ShiftRightStep(x, d - 1);
    }
  }

  /** Masking a shifted-in word: the low bit passes, the rest is masked one position lower. */
  lemma MaskShiftIn(x: bv32, mask: bv32)
    ensures x & ShiftIn(mask, true) == ShiftIn(DropLowestBit(x) & mask, LowestBit(x))
  {
    MaskShiftInWord(x, mask);
    if LowestBit(x) {
      assert x & 1 == 1;
    } else {
      assert x & 1 == 0;
    }
  }

  lemma MaskShiftInWord(x: bv32, mask: bv32)
    ensures x & ((mask << 1) | 1) == (((x >> 1) & mask) << 1) | (x & 1)
  {
  }

  /** Bit j of a | b is set when it is set in a or in b. */
  lemma OrBitAt(a: bv32, b: bv32, j: bv32)
    requires j < 32
    ensures IsBitSet(a | b, j) == (IsBitSet(a, j) || IsBitSet(b, j))
  {
  }

  lemma OrWordBit(a: bv32, b: bv32, m: nat)
    requires m < 32
    ensures WordBit(a | b, m) == (WordBit(a, m) || WordBit(b, m))
  {
    var j := ToBv(m);
    var both := a | b;
    WordBitIsBitSet(both, j);
    WordBitIsBitSet(a, j);
    WordBitIsBitSet(b, j);
    OrBitAt(a, b, j);
  }

  // ---------------------------------------------------------------------
  // Bit streams

  /** The words as one bit stream. */
  function Bits(words: seq<bv32>): (bits: seq<bool>)
    ensures |bits| == 32 * |words|
    ensures forall k :: 0 <= k < |bits| ==> bits[k] == WordBit(words[k / 32], k % 32)
  {
    seq(32 * |words|, k requires 0 <= k < 32 * |words| => WordBit(words[k / 32], k % 32))
  }

  /** The value whose bit m, for m < n, is stream bit start + m; higher bits are 0. */
  function StreamValue(bits: seq<bool>, start: nat, n: nat): bv32
    requires n <= 32 && start + n <= |bits|
    decreases n
  {
    if n == 0 then 0 else ShiftIn(StreamValue(bits, start + 1, n - 1), bits[start])
  }

  /** Bit m of StreamValue(bits, start, n) is stream bit start + m when m < n, else 0. */
  lemma {:induction false} StreamValueBit(bits: seq<bool>, start: nat, n: nat, m: nat)
    requires n <= 32 && start + n <= |bits| && m < 32
    ensures WordBit(StreamValue(bits, start, n), m) == (m < n && bits[start + m])
    decreases n
  {
    if n == 0 {
      ZeroWordBit(m);
    } else {
      ShiftInWordBit(StreamValue(bits, start + 1, n - 1), bits[start], m);
      if m > 0 {
        StreamValueBit(bits, start + 1, n - 1, m - 1);
      }
    }
  }

  /** Stream bits [start, start + n) are the n low bits of v. */
  ghost predicate Holds(bits: seq<bool>, start: nat, n: nat, v: bv32)
    requires n <= 32
  {
    start + n <= |bits| && forall k :: start <= k < start + n ==> bits[k] == WordBit(v, k - start)
  }

  /** A range holding the low bits of v reads as v cut to its width. */
  lemma {:induction false} ReadHeld(bits: seq<bool>, start: nat, n: nat, v: bv32)
    requires n <= 32 && Holds(bits, start, n, v)
    ensures StreamValue(bits, start, n) == v & LowBitsMask(n)
    decreases n
  {
    if n > 0 {
      var rest := DropLowestBit(v);
      forall k | start + 1 <= k < start + n
        ensures bits[k] == WordBit(rest, k - (start + 1))
      {
        assert bits[k] == WordBit(v, k - start);
      }
      ReadHeld(bits, start + 1, n - 1, rest);
      assert bits[start] == WordBit(v, 0);
      MaskShiftIn(v, LowBitsMask(n - 1));
    }
  }

  /** Stream bits [start, start + n) of `after` hold the n low bits of v, and
      every other stream bit is as in `before`. */
  ghost predicate WrittenRange(before: seq<bool>, after: seq<bool>, start: nat, n: nat, v: bv32)
    requires n <= 32
  {
    && |after| == |before|
    && forall k :: 0 <= k < |before| ==>
         after[k] == if start <= k < start + n then WordBit(v, k - start) else before[k]
  }

  /** Reading back a written range gives the written value cut to its width,
      `v & mask(n)`, whether or not the range crosses a word boundary. */
  lemma ReadAfterWrite(before: seq<bool>, after: seq<bool>, start: nat, n: nat, v: bv32)
    requires n <= 32 && start + n <= |before|
    requires WrittenRange(before, after, start, n, v)
    ensures StreamValue(after, start, n) == v & LowBitsMask(n)
  {
    ReadHeld(after, start, n, v);
  }

  /** Two ranges with the same bits read the same value. */
  lemma {:induction false} SameBitsSameValue(bits: seq<bool>, start: nat, bits2: seq<bool>, start2: nat, n: nat)
    requires n <= 32 && start + n <= |bits| && start2 + n <= |bits2|
    requires forall k :: start <= k < start + n ==> bits[k] == bits2[k - start + start2]
    ensures StreamValue(bits, start, n) == StreamValue(bits2, start2, n)
    decreases n
  {
    if n > 0 {
      assert bits[start] == bits2[start - start + start2];
      SameBitsSameValue(bits, start + 1, bits2, start2 + 1, n - 1);
    }
  }

  /** A range disjoint from the written one reads as before. */
  lemma ReadOutsideWrite(before: seq<bool>, after: seq<bool>, start: nat, n: nat, v: bv32, other: nat, m: nat)
    requires n <= 32 && m <= 32 && other + m <= |before|
    requires WrittenRange(before, after, start, n, v)
    requires other + m <= start || start + n <= other
    ensures StreamValue(after, other, m) == StreamValue(before, other, m)
  {
    SameBitsSameValue(after, other, before, other, m);
  }

  /** An all-zero range reads 0. */
  lemma {:induction false} ZeroStreamValue(bits: seq<bool>, start: nat, n: nat)
    requires n <= 32 && start + n <= |bits|
    requires forall k :: start <= k < start + n ==> !bits[k]
    ensures StreamValue(bits, start, n) == 0
    decreases n
  {
    if n > 0 {
      ZeroStreamValue(bits, start + 1, n - 1);
    }
  }

  /** A range of n bits reads as its first g bits, or-ed with its last n - g
      bits shifted up by g. */
  /** StreamValueSplit with the upper part's position and width named. */
  lemma StreamValueSplitAt(bits: seq<bool>, start: nat, n: nat, g: nat, p2: nat, n2: nat)
    requires g <= n <= 32 && start + n <= |bits| && p2 == start + g && n2 == n - g
    ensures StreamValue(bits, start, n) == StreamValue(bits, start, g) | ShiftUp(StreamValue(bits, p2, n2), g)
  {
    StreamValueSplit(bits, start, n, g);
  }

  lemma StreamValueSplit(bits: seq<bool>, start: nat, n: nat, g: nat)
    requires g <= n <= 32 && start + n <= |bits|
    ensures StreamValue(bits, start, n)
      == StreamValue(bits, start, g) | ShiftUp(StreamValue(bits, start + g, n - g), g)
  {
    var whole := StreamValue(bits, start, n);
    var low := StreamValue(bits, start, g);
    var high := ShiftUp(StreamValue(bits, start + g, n - g), g);
    var both := low | high;
    forall m: nat | m < 32
      ensures WordBit(whole, m) == WordBit(both, m)
    {
      SplitBit(bits, start, n, g, m, whole, low, high);
    }
    WordBitsDetermineWord(whole, both);
  }

  /** Bit m of the two sides of the split agree. */
  lemma SplitBit(bits: seq<bool>, start: nat, n: nat, g: nat, m: nat, whole: bv32, low: bv32, high: bv32)
    requires g <= n <= 32 && start + n <= |bits| && m < 32
    requires whole == StreamValue(bits, start, n) && low == StreamValue(bits, start, g)
    requires high == ShiftUp(StreamValue(bits, start + g, n - g), g)
    ensures WordBit(whole, m) == WordBit(low | high, m)
  {
    StreamValueBit(bits, start, n, m);
    StreamValueBit(bits, start, g, m);
    OrWordBit(low, high, m);
    ShiftUpWordBit(StreamValue(bits, start + g, n - g), g, m);
    if g <= m {
      StreamValueBit(bits, start + g, n - g, m - g);
    }
  }

  /** Bits [b, b + n) of word s are stream bits [pos, pos + n), pos = 32*s + b. */
  lemma WordRangeIsStreamRange(words: seq<bv32>, s: nat, b: nat, n: nat, pos: nat)
    requires s < |words| && b + n <= 32 && pos == 32 * s + b
    ensures pos + n <= 32 * |words|
    ensures StreamValue(WordBits(words[s]), b, n) == StreamValue(Bits(words), pos, n)
  {
    var wb := WordBits(words[s]);
    var sb := Bits(words);
    forall k | b <= k < b + n
      ensures wb[k] == sb[k - b + pos]
    {
      assert (32 * s + k) / 32 == s && (32 * s + k) % 32 == k;
    }
    SameBitsSameValue(wb, b, sb, pos, n);
  }

  /** Shifting a word down by s puts its bits [s, s + n) at the bottom. */
  lemma ShiftDownHolds(x: bv32, s: bv32, n: nat)
    requires s < 32 && s as int + n <= 32
    ensures Holds(WordBits(x), s as int, n, x >> s)
  {
    var shifted := x >> s;
    forall k | s as int <= k < s as int + n
      ensures WordBits(x)[k] == WordBit(shifted, k - s as int)
    {
      ShiftDownWordBit(x, s, k - s as int);
    }
  }

  /** After a shift down by d, bit m is the old bit m + d. */
  lemma ShiftDownKeepsBits(x: bv32, d: bv32, n: nat)
    requires d < 32 && d as int + n <= 32
    ensures var shifted := x >> d; forall m: nat :: m < n ==> WordBit(shifted, m) == WordBit(x, m + d as int)
  {
    var shifted := x >> d;
    forall m: nat | m < n
      ensures WordBit(shifted, m) == WordBit(x, m + d as int)
    {
      ShiftDownWordBit(x, d, m);
    }
  }

  /** The finished bit loop, stored back into word s, wrote n bits of v at stream position 32*s + b. */
  lemma WordWriteDone(before: seq<bv32>, after: seq<bv32>, s: nat, word: bv32, rest: bv32, v: bv32, b: nat, i: nat, n: nat, pos: nat)
    requires s < |before| && after == before[s := word] && pos == 32 * s + b
    requires WriteLoop(before[s], word, rest, v, b, i, n) && !(i < n)
    ensures |after| == |before| && after == before[s := after[s]]
    ensures WrittenRange(Bits(before), Bits(after), pos, n, v)
  {
    WordWriteIsStreamWrite(before, after, s, b, n, v, pos);
  }

  /** A write of bits [b, b + n) of word s is a write of stream bits [32*s + b, 32*s + b + n). */
  lemma WordWriteIsStreamWrite(before: seq<bv32>, after: seq<bv32>, s: nat, b: nat, n: nat, v: bv32, pos: nat)
    requires s < |before| == |after| && b + n <= 32 && pos == 32 * s + b
    requires after == before[s := after[s]]
    requires WrittenRange(WordBits(before[s]), WordBits(after[s]), b, n, v)
    ensures WrittenRange(Bits(before), Bits(after), pos, n, v)
  {
    forall k | 0 <= k < 32 * |before|
      ensures Bits(after)[k] == if pos <= k < pos + n then WordBit(v, k - pos) else Bits(before)[k]
    {
      WordWriteBit(before, after, s, b, n, v, pos, k);
    }
  }

  /** Stream bit k after a write into word s. */
  lemma WordWriteBit(before: seq<bv32>, after: seq<bv32>, s: nat, b: nat, n: nat, v: bv32, pos: nat, k: nat)
    requires s < |before| == |after| && b + n <= 32 && pos == 32 * s + b && k < 32 * |before|
    requires after == before[s := after[s]]
    requires WrittenRange(WordBits(before[s]), WordBits(after[s]), b, n, v)
    ensures Bits(after)[k] == if pos <= k < pos + n then WordBit(v, k - pos) else Bits(before)[k]
  {
    var q, m := k / 32, k % 32;
    assert k == 32 * q + m;
    if q == s {
      assert WordBits(after[s])[m] == if b <= m < b + n then WordBit(v, m - b) else WordBits(before[s])[m];
    } else {
      assert after[q] == before[q];
      assert !(pos <= k < pos + n);
    }
  }

  /** Two writes of adjacent ranges, the second with the value moved down past
      the first range, form one write of the joined range. */
  lemma JoinWrites(w0: seq<bool>, w1: seq<bool>, w2: seq<bool>, start: nat, next: nat, n1: nat, n2: nat, n: nat, v: bv32, rest: bv32)
    requires n1 < 32 && n1 + n2 == n <= 32 && next == start + n1 && rest == DropLowBits(v, n1)
    requires WrittenRange(w0, w1, start, n1, v)
    requires WrittenRange(w1, w2, next, n2, rest)
    ensures WrittenRange(w0, w2, start, n, v)
  {
    forall k | 0 <= k < |w0|
      ensures w2[k] == if start <= k < start + n1 + n2 then WordBit(v, k - start) else w0[k]
    {
      if start + n1 <= k < start + n1 + n2 {
        DropLowBitsBit(v, n1, k - (start + n1));
      }
    }
  }

  /** Writing one more bit extends a written range by one. */
  lemma WriteNextBit(before: seq<bool>, cur: seq<bool>, start: nat, i: nat, v: bv32, bit: bool)
    requires i < 32 && start + i < |before|
    requires WrittenRange(before, cur, start, i, v)
    requires bit == WordBit(v, i)
    ensures WrittenRange(before, cur[start + i := bit], start, i + 1, v)
  {
  }

  /** Setting or clearing bit pos of a word updates that one position. */
  lemma PutBitWordBits(cur: bv32, pos: bv32, bit: bool)
    requires pos < 32
    ensures WordBits(if bit then SetBit(cur, pos) else ClearBit(cur, pos)) == WordBits(cur)[pos as int := bit]
  {
    if bit {
      SetBitWordBits(cur, pos);
    } else {
      ClearBitWordBits(cur, pos);
    }
  }

  /** Inside one word: putting bit k of data at position s + k extends the
      written range [s, s + k) by one. */
  lemma WordStep(first: bv32, cur: bv32, next: bv32, pos: bv32, s: nat, k: nat, data: bv32, bit: bool)
    requires s + k < 32 && pos as int == s + k
    requires WrittenRange(WordBits(first), WordBits(cur), s, k, data)
    requires bit == WordBit(data, k)
    requires WordBits(next) == WordBits(cur)[pos as int := bit]
    ensures WrittenRange(WordBits(first), WordBits(next), s, k + 1, data)
  {
    WriteNextBit(WordBits(first), WordBits(cur), s, k, data, bit);
  }

  /** x with its k lowest bits shifted out, one at a time. */
  function DropLowBits(x: bv32, k: nat): bv32
  {
    if k == 0 then x else DropLowestBit(DropLowBits(x, k - 1))
  }

  lemma {:induction false} DropLowBitsBit(x: bv32, k: nat, m: nat)
    requires m + k < 32
    ensures WordBit(DropLowBits(x, k), m) == WordBit(x, m + k)
    decreases k
  {
    if k > 0 {
      DropLowBitsBit(x, k - 1, m + 1);
    }
  }

  lemma DropLowBitsNext(x: bv32, k: nat)
    ensures DropLowBits(x, k + 1) == DropLowestBit(DropLowBits(x, k))
  {
  }

  /** One bit of a bit-by-bit write into a word: the lowest bit of data with
      k bits shifted out goes to position s + k. */
  lemma PutNextBit(first: bv32, word: bv32, rest: bv32, data: bv32, pos: bv32, s: nat, k: nat, next: bv32, bit: bool)
    requires s + k < 32 && pos as int == s + k
    requires rest == DropLowBits(data, k)
    requires bit == (rest & 1 == 1)
    requires next == if bit then SetBit(word, pos) else ClearBit(word, pos)
    requires WrittenRange(WordBits(first), WordBits(word), s, k, data)
    ensures pos < 32
    ensures rest >> 1 == DropLowBits(data, k + 1)
    ensures WrittenRange(WordBits(first), WordBits(next), s, k + 1, data)
  {
    DropLowBitsBit(data, k, 0);
    DropLowBitsNext(data, k);
    assert rest >> 1 == DropLowestBit(rest);
    assert bit == WordBit(data, k);
    PutBitWordBits(word, pos, bit);
    WordStep(first, word, next, pos, s, k, data, bit);
  }

  /** The state of a bit-by-bit write of n bits of data into bits [start,
      start + n) of a word that was first, after i turns: rest is data with i
      bits shifted out and the first i bits are written. */
  ghost predicate WriteLoop(first: bv32, word: bv32, rest: bv32, data: bv32, start: nat, i: nat, n: nat)
  {
    && start + n <= 32 && i <= n
    && rest == DropLowBits(data, i)
    && WrittenRange(WordBits(first), WordBits(word), start, i, data)
  }

  /** A turn that sets or clears bit start + i by rest's lowest bit, then
      shifts rest down, keeps the write state. */
  lemma WriteLoopStep(first: bv32, word: bv32, rest: bv32, data: bv32, start: nat, i: nat, n: nat)
    requires WriteLoop(first, word, rest, data, start, i, n) && i < n
    ensures start + i < 32 && ToBv(start + i) < 32
    ensures WriteLoop(first, if rest & 1 == 1 then SetBit(word, ToBv(start + i)) else ClearBit(word, ToBv(start + i)),
                      rest >> 1, data, start, i + 1, n)
  {
    var pos := ToBv(start + i);
    var bit := rest & 1 == 1;
    var next := if bit then SetBit(word, pos) else ClearBit(word, pos);
    PutNextBit(first, word, rest, data, pos, start, i, next, bit);
  }

  /** Appending words appends their bits. */
  lemma BitsOfLongerWords(short: seq<bv32>, long: seq<bv32>)
    requires short <= long
    ensures Bits(short) <= Bits(long)
  {
  }

  /** Zero words give an all-zero stream. */
  lemma ZeroWordsZeroBits(words: seq<bv32>)
    requires forall s :: 0 <= s < |words| ==> words[s] == 0
    ensures forall k :: 0 <= k < |Bits(words)| ==> !Bits(words)[k]
  {
    forall k | 0 <= k < |Bits(words)|
      ensures !Bits(words)[k]
    {
      ZeroWordBit(k % 32);
    }
  }

  /** Over zero words, every cell of width w reads 0. */
  lemma ZeroWordsZeroCell(words: seq<bv32>, i: nat, count: nat, w: nat)
    requires forall s :: 0 <= s < |words| ==> words[s] == 0
    requires w <= 32 && i < count && count * w <= 32 * |words|
    ensures i * w + w <= 32 * |words|
    ensures StreamValue(Bits(words), i * w, w) == 0
  {
    CellInRange(i, count, w);
    ZeroWordsZeroBits(words);
    ZeroStreamValue(Bits(words), i * w, w);
  }

  // ---------------------------------------------------------------------
  // Cell placement arithmetic

  lemma MulLe(a: nat, b: nat, w: nat)
    requires a <= b
    ensures a * w <= b * w
  {
  }

  /** ceil(t / 32) words hold t bits, with fewer than 32 to spare. */
  lemma WordsForBits(t: nat)
    ensures t <= 32 * ((t + 31) / 32) < t + 32
  {
  }

  /** Two different cells of the same width occupy disjoint stream ranges. */
  lemma CellsDisjoint(i: nat, i2: nat, w: nat)
    requires i != i2
    ensures i2 * w + w <= i * w || i * w + w <= i2 * w
  {
    if i2 < i {
      MulLe(i2 + 1, i, w);
    } else {
      MulLe(i + 1, i2, w);
    }
  }

  /** A cell below numCells lies inside a stream of numCells * w bits. */
  lemma CellInRange(i: nat, numCells: nat, w: nat)
    requires i < numCells
    ensures i * w + w <= numCells * w
  {
    MulLe(i + 1, numCells, w);
  }
}
