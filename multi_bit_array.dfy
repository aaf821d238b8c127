/** Fixed-width cells packed into 32-bit words (src/MultiBitArray.cpp).

    Cell i of width w occupies bits [i*w, i*w + w) of the stream the words
    form (see BitStreams), so a cell may start in one word and end in the
    next. */
module MultiBitArrays {
  import opened BitOps
  import opened BitStreams

  /** MBA_ARRAY_ITEM_SIZE: bits per storage word. */
  const ARRAY_ITEM_SIZE: nat := 32
  /** MBA_MAX_BITS_PER_CELL: the widest cell. */
  const MAX_BITS_PER_CELL: nat := 32

  function Max(a: nat, b: nat): nat
  {
    if a < b then b else a
  }

  /** n zero words. */
  function Zeros(n: nat): (r: seq<bv32>)
    ensures |r| == n && forall s :: 0 <= s < n ==> r[s] == 0
  {
    seq(n, _ => 0)
  }

  /** The word, counted from a cell's start word, that holds the cell's bit
      k when the cell starts at bit startBit. */
  function WordOfCellBit(startBit: nat, k: nat): nat
  {
    (startBit + k) / ARRAY_ITEM_SIZE
  }

  /** ceil(numCells * w / 32): the number of words that hold numCells cells of width w. */
  function ArraySize(numCells: nat, w: nat): (r: nat)
    ensures numCells * w <= 32 * r < numCells * w + 32
  {
    WordsForBits(numCells * w);
    (numCells * w + 31) / 32
  }

  class MultiBitArray {
    var words: seq<bv32>
    var numBitsPerCell: nat
    var numCells: nat

    /** Cells are at most 32 bits wide and the words hold every cell's bits. */
    ghost predicate Valid()
      reads this
    {
      numBitsPerCell <= MAX_BITS_PER_CELL && numCells * numBitsPerCell <= ARRAY_ITEM_SIZE * |words|
    }

    /** The content of cell i: its stream bits read as a number. */
    function Cell(i: nat): bv32
      reads this
      requires Valid() && i < numCells
    {
      CellInRange(i, numCells, numBitsPerCell);
      StreamValue(Bits(words), i * numBitsPerCell, numBitsPerCell)
    }

    /** A count of 0 frees. Otherwise the array starts empty with the given
        width and is grown to the count: all words are zero and every cell reads 0. */
    constructor (numBitsPerCell: nat, numCells: nat)
      requires numBitsPerCell <= MAX_BITS_PER_CELL
      ensures Valid()
      ensures this.numCells == numCells
      ensures this.numBitsPerCell == if numCells == 0 then 0 else numBitsPerCell
      ensures |words| == (numCells * this.numBitsPerCell + 31) / 32
      ensures forall s :: 0 <= s < |words| ==> words[s] == 0
      ensures forall i :: 0 <= i < numCells ==> Cell(i) == 0
    {
      words := [];
      this.numCells := 0;
      this.numBitsPerCell := if numCells == 0 then 0 else numBitsPerCell;
      new;
      if numCells != 0 {
        ResizeArrayKeepContent(numCells);
      }
      ZeroWordsZeroCells();
    }

    /** When every word is zero, every cell reads 0. */
    lemma ZeroWordsZeroCells()
      requires Valid() && forall s :: 0 <= s < |words| ==> words[s] == 0
      ensures forall i :: 0 <= i < numCells ==> Cell(i) == 0
    {
      forall i | 0 <= i < numCells
        ensures Cell(i) == 0
      {
        ZeroWordsZeroCell(words, i, numCells, numBitsPerCell);
      }
    }

    /** Drops all words; width and count become 0. */
    method Free()
      modifies this
      ensures Valid()
      ensures words == [] && numBitsPerCell == 0 && numCells == 0
    {
      words := [];
      numBitsPerCell, numCells := 0, 0;
    }

    /** Resizing to 0 frees. Otherwise the count becomes newNumCells, and the
        words only ever grow, zero-filled, to ceil(newNumCells * width / 32);
        every cell present before and after keeps its content. */
    method ResizeArrayKeepContent(newNumCells: nat)
      requires Valid()
      modifies this
      ensures Valid()
      ensures newNumCells == 0 ==> words == [] && numBitsPerCell == 0 && numCells == 0
      ensures newNumCells != 0 ==> numCells == newNumCells && numBitsPerCell == old(numBitsPerCell)
      ensures newNumCells != 0 ==> old(words) <= words
      ensures newNumCells != 0 ==>
        |words| == if newNumCells <= old(numCells) then |old(words)|
                   else Max(|old(words)|, ArraySize(newNumCells, numBitsPerCell))
      ensures forall s :: |old(words)| <= s < |words| ==> words[s] == 0
      ensures newNumCells != 0 ==>
        forall i :: 0 <= i < old(numCells) && i < newNumCells ==> Cell(i) == old(Cell(i))
    {
      if newNumCells == 0 {
        Free();
        return;
      }
      var oldNumCells := numCells;
      ghost var oldWords := words;
      numCells := newNumCells;
      if newNumCells > oldNumCells {
        var arraySize := ArraySize(newNumCells, numBitsPerCell);
        if arraySize > |words| {
          words := words + Zeros(arraySize - |words|);
        }
      } else {
        MulLe(newNumCells, oldNumCells, numBitsPerCell);
      }
      ResizeKeepsCells(oldWords, oldNumCells);
    }

    /** After a resize that only appends words, every cell present before and
        after reads what it read in the old words. */
    lemma ResizeKeepsCells(oldWords: seq<bv32>, oldNumCells: nat)
      requires Valid() && oldNumCells * numBitsPerCell <= 32 * |oldWords| && oldWords <= words
      ensures forall i :: 0 <= i < oldNumCells && i < numCells ==>
        i * numBitsPerCell + numBitsPerCell <= 32 * |oldWords| &&
        Cell(i) == StreamValue(Bits(oldWords), i * numBitsPerCell, numBitsPerCell)
    {
      forall i | 0 <= i < oldNumCells && i < numCells
        ensures i * numBitsPerCell + numBitsPerCell <= 32 * |oldWords|
        ensures Cell(i) == StreamValue(Bits(oldWords), i * numBitsPerCell, numBitsPerCell)
      {
        CellKeptByLongerWords(oldWords, words, i, oldNumCells);
      }
    }

    /** Words that extend the old ones keep an old cell's content. */
    lemma CellKeptByLongerWords(oldWords: seq<bv32>, newWords: seq<bv32>, i: nat, oldCount: nat)
      requires numBitsPerCell <= 32 && oldCount * numBitsPerCell <= 32 * |oldWords|
      requires oldWords <= newWords && i < oldCount
      ensures i * numBitsPerCell + numBitsPerCell <= 32 * |oldWords|
      ensures StreamValue(Bits(newWords), i * numBitsPerCell, numBitsPerCell)
        == StreamValue(Bits(oldWords), i * numBitsPerCell, numBitsPerCell)
    {
      CellInRange(i, oldCount, numBitsPerCell);
      BitsOfLongerWords(oldWords, newWords);
      SameBitsSameValue(Bits(newWords), i * numBitsPerCell, Bits(oldWords), i * numBitsPerCell, numBitsPerCell);
    }

    function GetNumBitsPerCell(): nat
      reads this
    {
      numBitsPerCell
    }

    function GetNumCells(): nat
      reads this
    {
      numCells
    }

    /** The word that holds the first bit of the cell. */
    function CellArrayStartingIndex(cellIndex: nat): (r: nat)
      reads this
      requires cellIndex <= numCells
      ensures 32 * r <= cellIndex * numBitsPerCell < 32 * r + 32
    {
      (cellIndex * numBitsPerCell) / ARRAY_ITEM_SIZE
    }

    /** The position of the cell's first bit inside that word. */
    function CellStartPositionWithinArrayItem(cellIndex: nat): (r: nat)
      reads this
      requires cellIndex <= numCells
      ensures r < 32 && 32 * CellArrayStartingIndex(cellIndex) + r == cellIndex * numBitsPerCell
    {
      (cellIndex * numBitsPerCell) % ARRAY_ITEM_SIZE
    }

    /** A cell starting at startBit spills into the next word exactly when
        one of its bits lies past the start word. */
    function DoesCellOverflowToNextArrayItem(startBit: nat): (r: bool)
      reads this
      requires startBit < 32
      ensures r <==> exists k :: 0 <= k < numBitsPerCell && WordOfCellBit(startBit, k) > 0
    {
      var r := startBit + numBitsPerCell > ARRAY_ITEM_SIZE;
      assert r ==> WordOfCellBit(startBit, numBitsPerCell - 1) > 0;
      r
    }

    /** The three cell attributes, with the overflow flag as 0 or 1. */
    method GetCellAttributes(cellIndex: nat) returns (startBit: nat, startArrayIndex: nat, isOverflowing: nat)
      requires cellIndex <= numCells
      ensures startBit < 32 && 32 * startArrayIndex + startBit == cellIndex * numBitsPerCell
      ensures isOverflowing == if startBit + numBitsPerCell > 32 then 1 else 0
    {
      startArrayIndex := CellArrayStartingIndex(cellIndex);
      startBit := CellStartPositionWithinArrayItem(cellIndex);
      isOverflowing := if DoesCellOverflowToNextArrayItem(startBit) then 1 else 0;
    }

    /** `mask |= 1 << i` for every i below n gives the mask of the n lowest bits. */
    method GenMaskFirstNBits(n: nat) returns (mask: bv32)
      requires n <= 32
      ensures mask == LowBitsMask(n)
    {
      mask := 0;
      var i: nat := 0;
      while i < n
        invariant i <= n
        invariant mask == LowBitsMask(i)
      {
        MaskGrows(i);
        mask := SetBit(mask, ToBv(i));
        i := i + 1;
      }
    }

    /** The branch-free size of the part of a cell that lies in its first
        word: all of it, or the 32 - startBit bits above startBit when the
        cell overflows. */
    method SizeInFirstArrayItem(isOverflowing: nat, startBit: nat) returns (r: nat)
      requires isOverflowing <= 1 && startBit <= ARRAY_ITEM_SIZE
      ensures r == if isOverflowing == 1 then 32 - startBit else numBitsPerCell
    {
      r := (1 - isOverflowing) * numBitsPerCell + isOverflowing * (ARRAY_ITEM_SIZE - startBit);
    }

    /** Bits [start, start + numBits) of word arrayIndex, moved down to bit 0. */
    method GetBitsFromArrayItem(numBits: nat, startBitPosition: nat, arrayIndex: nat) returns (r: bv32)
      requires startBitPosition < 32 && startBitPosition + numBits <= 32
      requires arrayIndex < |words|
      ensures r == StreamValue(WordBits(words[arrayIndex]), startBitPosition, numBits)
    {
      var s := ToBv(startBitPosition);
      var n := ToBv(numBits);
      var x := words[arrayIndex];
      var val := x >> s;
      var mask := GenMaskFirstNBits(numBits);
      r := val & mask;
      GetBitsStep(x, s, n, val, mask);
    }

    /** The shifted word cut by the mask reads the word's bits [s, s + n). */
    lemma GetBitsStep(x: bv32, s: bv32, n: bv32, val: bv32, mask: bv32)
      requires s < 32 && s as int + n as int <= 32
      requires val == x >> s && mask == LowBitsMask(n as int)
      ensures val & mask == StreamValue(WordBits(x), s as int, n as int)
    {
      ShiftDownHolds(x, s, n as int);
      ReadHeld(WordBits(x), s as int, n as int, val);
    }

    /** Copies the numBits low bits of data, one by one, into bits
        [start, start + numBits) of word arrayIndex; no other bit changes. */
    method SetBitsInArrayItem(numBits: nat, startBitPosition: nat, arrayIndex: nat, data: bv32, ghost pos: nat)
      requires startBitPosition < 32 && startBitPosition + numBits <= 32
      requires arrayIndex < |words| && pos == 32 * arrayIndex + startBitPosition
      modifies this`words
      ensures |words| == |old(words)|
      ensures words == old(words)[arrayIndex := words[arrayIndex]]
      ensures WrittenRange(Bits(old(words)), Bits(words), pos, numBits, data)
    {
      var word := words[arrayIndex];
      var rest := data;
      var i: nat := 0;
      while i < numBits
        invariant words == old(words)
        invariant WriteLoop(words[arrayIndex], word, rest, data, startBitPosition, i, numBits)
      {
        WriteLoopStep(words[arrayIndex], word, rest, data, startBitPosition, i, numBits);
        var setBit := rest & 1 == 1;
        if setBit {
          word := SetBit(word, ToBv(startBitPosition + i));
        } else {
          word := ClearBit(word, ToBv(startBitPosition + i));
        }
        rest := rest >> 1;
        i := i + 1;
      }
      ghost var before := words;
      words := words[arrayIndex := word];
      WordWriteDone(before, words, arrayIndex, word, rest, data, startBitPosition, i, numBits, pos);
    }

    /** Reads the cell: the part in its first word, then, for a cell that
        overflows, the remaining bits from the next word shifted above them. */
    method GetCellContent(cellIndex: nat) returns (r: bv32)
      requires Valid() && 1 <= numBitsPerCell && cellIndex < numCells
      ensures r == Cell(cellIndex)
    {
      var startBit, startArrayIndex, isOverflowing := GetCellAttributes(cellIndex);
      ghost var start := cellIndex * numBitsPerCell;
      CellPlacement(|words|, numCells, numBitsPerCell, cellIndex, startArrayIndex, startBit);
      var grabSize := SizeInFirstArrayItem(isOverflowing, startBit);
      r := GetBitsFromArrayItem(grabSize, startBit, startArrayIndex);
      if isOverflowing == 1 {
        var remainingSize := numBitsPerCell - grabSize;
        var remainingBits := GetBitsFromArrayItem(remainingSize, 0, startArrayIndex + 1);
        ghost var first := r;
        r := r | ShiftLeft(remainingBits, grabSize);
        ReadSpanningCell(words, start, numBitsPerCell, startBit, startArrayIndex, grabSize, first, remainingBits, r);
      } else {
        WordRangeIsStreamRange(words, startArrayIndex, startBit, numBitsPerCell, start);
      }
    }

    /** Writes the cell: its first-word part, then, for a cell that overflows,
        the value shifted past that part into the next word. Exactly the
        cell's stream bits change. */
    method SetCellContent(cellIndex: nat, value: bv32)
      requires Valid() && 1 <= numBitsPerCell && cellIndex < numCells
      modifies this`words
      ensures Valid()
      ensures WrittenRange(Bits(old(words)), Bits(words), cellIndex * numBitsPerCell, numBitsPerCell, value)
    {
      ghost var w := numBitsPerCell;
      var startBit, startArrayIndex, isOverflowing := GetCellAttributes(cellIndex);
      ghost var start := cellIndex * w;
      CellPlacement(|words|, numCells, w, cellIndex, startArrayIndex, startBit);
      var setSize := SizeInFirstArrayItem(isOverflowing, startBit);
      ghost var w0 := words;
      SetBitsInArrayItem(setSize, startBit, startArrayIndex, value, start);
      if isOverflowing == 1 {
        var remainingNumBits := numBitsPerCell - setSize;
        var rest := ShiftRight(value, setSize);
        ghost var w1 := words;
        ghost var next := start + setSize;
        SetBitsInArrayItem(remainingNumBits, 0, startArrayIndex + 1, rest, next);
        JoinWrites(Bits(w0), Bits(w1), Bits(words), start, next, setSize, remainingNumBits, w, value, rest);
      }
    }

    /** Every cell reads `value & mask(width)` afterwards. */
    method SetAllCells(value: bv32)
      requires Valid() && (numCells == 0 || 1 <= numBitsPerCell)
      modifies this`words
      ensures Valid()
      ensures numBitsPerCell == old(numBitsPerCell)
      ensures forall i :: 0 <= i < numCells ==> Cell(i) == value & LowBitsMask(old(numBitsPerCell))
    {
      if numCells != 0 {
        FillCells(value, value & LowBitsMask(numBitsPerCell));
      }
    }

    /** The loop of SetAllCells: cell by cell, each cell set so far reads x. */
    method FillCells(value: bv32, ghost x: bv32)
      requires Valid() && 1 <= numBitsPerCell && x == value & LowBitsMask(numBitsPerCell)
      modifies this`words
      ensures Valid()
      ensures forall i :: 0 <= i < numCells ==> Cell(i) == x
    {
      var i := 0;
      while i < numCells
        invariant Valid() && i <= numCells
        invariant CellsHold(words, numBitsPerCell, i, x)
      {
        ghost var before := words;
        SetCellContent(i, value);
        SetNextCell(before, words, numBitsPerCell, numCells, i, value, x);
        i := i + 1;
      }
      HeldCellsRead(x);
    }

    /** Cells that hold x in the word stream read x. */
    lemma HeldCellsRead(x: bv32)
      requires Valid() && CellsHold(words, numBitsPerCell, numCells, x)
      ensures forall c :: 0 <= c < numCells ==> Cell(c) == x
    {
      forall c | 0 <= c < numCells
        ensures Cell(c) == x
      {
        assert CellStart(c, numBitsPerCell) == c * numBitsPerCell;
      }
    }

    /** Round trip: after a write of cell i, cell i reads `value & mask(width)`. */
    lemma SetThenGet(before: seq<bv32>, i: nat, value: bv32)
      requires Valid() && i < numCells && |before| == |words|
      requires WrittenRange(Bits(before), Bits(words), i * numBitsPerCell, numBitsPerCell, value)
      ensures Cell(i) == value & LowBitsMask(numBitsPerCell)
    {
      CellInRange(i, numCells, numBitsPerCell);
      ReadAfterWrite(Bits(before), Bits(words), i * numBitsPerCell, numBitsPerCell, value);
    }

    /** A write of cell i leaves every other cell's content as it was. */
    lemma SetLeavesOtherCell(before: seq<bv32>, i: nat, value: bv32, other: nat)
      requires Valid() && i < numCells && other < numCells && other != i && |before| == |words|
      requires WrittenRange(Bits(before), Bits(words), i * numBitsPerCell, numBitsPerCell, value)
      ensures other * numBitsPerCell + numBitsPerCell <= 32 * |before|
      ensures Cell(other) == StreamValue(Bits(before), other * numBitsPerCell, numBitsPerCell)
    {
      CellInRange(other, numCells, numBitsPerCell);
      CellsDisjoint(i, other, numBitsPerCell);
      ReadOutsideWrite(Bits(before), Bits(words), i * numBitsPerCell, numBitsPerCell, value,
                       other * numBitsPerCell, numBitsPerCell);
    }

    /** Cells whose stream bits hold the given values read those values. */
    lemma ReadCells(values: seq<bv32>)
      requires Valid() && |values| <= numCells && CellsRead(words, numBitsPerCell, values)
      ensures forall c :: 0 <= c < |values| ==> Cell(c) == values[c]
    {
      forall c | 0 <= c < |values|
        ensures Cell(c) == values[c]
      {
        assert CellStart(c, numBitsPerCell) == c * numBitsPerCell;
      }
    }
  }

  /** A cell that starts at bit b of word s and runs into word s + 1 reads as
      the top 32 - b bits of word s, or-ed with the low bits of word s + 1
      moved above them. */
  lemma ReadSpanningCell(words: seq<bv32>, start: nat, w: nat, b: nat, s: nat, g: nat, first: bv32, second: bv32, r: bv32)
    requires w <= 32 && g == 32 - b && g < w && 32 * s + b == start && s + 1 < |words|
    requires first == StreamValue(WordBits(words[s]), b, g)
    requires second == StreamValue(WordBits(words[s + 1]), 0, w - g)
    requires r == first | ShiftLeft(second, g)
    ensures start + w <= 32 * |words|
    ensures r == StreamValue(Bits(words), start, w)
  {
    SpanningCellValue(words, start, w, b, s, g);
  }

  /** The first stream bit of cell c of width w. */
  function CellStart(c: nat, w: nat): nat
  {
    c * w
  }

  /** The first count cells of width w in words all read x. */
  ghost predicate CellsHold(words: seq<bv32>, w: nat, count: nat, x: bv32)
  {
    && w <= 32
    && forall c: nat :: c < count ==> CellStart(c, w) + w <= 32 * |words| && StreamValue(Bits(words), CellStart(c, w), w) == x
  }

  /** Writing cell i (below numCells) with value after cells 0 .. i - 1 were
      written with it leaves cells 0 .. i reading the value cut to the width. */
  lemma SetNextCell(before: seq<bv32>, after: seq<bv32>, w: nat, numCells: nat, i: nat, value: bv32, x: bv32)
    requires w <= 32 && i < numCells && numCells * w <= 32 * |before| && |after| == |before|
    requires x == value & LowBitsMask(w)
    requires CellsHold(before, w, i, x)
    requires WrittenRange(Bits(before), Bits(after), i * w, w, value)
    ensures CellsHold(after, w, i + 1, x)
  {
    CellInRange(i, numCells, w);
    ReadAfterWrite(Bits(before), Bits(after), i * w, w, value);
    forall c: nat | c < i + 1
      ensures CellStart(c, w) + w <= 32 * |after| && StreamValue(Bits(after), CellStart(c, w), w) == x
    {
      if c < i {
        CellInRange(c, numCells, w);
        CellsDisjoint(i, c, w);
        ReadOutsideWrite(Bits(before), Bits(after), i * w, w, value, CellStart(c, w), w);
      }
    }
  }

  /** The first |values| cells of width w in words read the given values, in order. */
  ghost predicate CellsRead(words: seq<bv32>, w: nat, values: seq<bv32>)
  {
    && w <= 32
    && forall c: nat :: c < |values| ==>
         CellStart(c, w) + w <= 32 * |words| && StreamValue(Bits(words), CellStart(c, w), w) == values[c]
  }

  /** Writing the cell right after the ones read so far extends them by the
      written value cut to the width. */
  lemma WriteNextCell(before: seq<bv32>, after: seq<bv32>, w: nat, numCells: nat, values: seq<bv32>, value: bv32)
    requires w <= 32 && |values| < numCells && numCells * w <= 32 * |before| && |after| == |before|
    requires CellsRead(before, w, values)
    requires WrittenRange(Bits(before), Bits(after), |values| * w, w, value)
    ensures CellsRead(after, w, values + [value & LowBitsMask(w)])
  {
    var i := |values|;
    var x := value & LowBitsMask(w);
    var next := values + [x];
    CellInRange(i, numCells, w);
    ReadAfterWrite(Bits(before), Bits(after), i * w, w, value);
    forall c: nat | c < i + 1
      ensures CellStart(c, w) + w <= 32 * |after| && StreamValue(Bits(after), CellStart(c, w), w) == next[c]
    {
      if c < i {
        assert next[c] == values[c];
        CellInRange(c, numCells, w);
        CellsDisjoint(i, c, w);
        ReadOutsideWrite(Bits(before), Bits(after), i * w, w, value, CellStart(c, w), w);
      }
    }
  }

  /** The three lowest bits of a value below 8 are the value. */
  lemma MaskThreeBits(v: bv32)
    requires v < 8
    ensures v & LowBitsMask(3) == v
  {
    assert LowBitsMask(1) == 1;
    assert LowBitsMask(2) == 3;
    assert LowBitsMask(3) == 7;
  }

  /** The two word parts of a spanning cell, joined, give its stream value. */
  lemma SpanningCellValue(words: seq<bv32>, start: nat, w: nat, b: nat, s: nat, g: nat)
    requires w <= 32 && g == 32 - b && g < w && 32 * s + b == start && s + 1 < |words|
    ensures start + w <= 32 * |words|
    ensures StreamValue(WordBits(words[s]), b, g) | ShiftUp(StreamValue(WordBits(words[s + 1]), 0, w - g), g)
            == StreamValue(Bits(words), start, w)
  {
    var next, n2, p2 := s + 1, w - g, start + g;
    WordRangeIsStreamRange(words, s, b, g, start);
    WordRangeIsStreamRange(words, next, 0, n2, p2);
    StreamValueSplitAt(Bits(words), start, w, g, p2, n2);
  }

  /** A cell that starts at bit b of word s lies inside the words, and so
      does the next word when the cell runs past bit 31. */
  lemma CellPlacement(numWords: nat, numCells: nat, w: nat, cellIndex: nat, s: nat, b: nat)
    requires numCells * w <= 32 * numWords && cellIndex < numCells
    requires 1 <= w && b < 32 && 32 * s + b == cellIndex * w
    ensures cellIndex * w + w <= 32 * numWords
    ensures s < numWords && (b + w > 32 ==> s + 1 < numWords)
  {
    CellInRange(cellIndex, numCells, w);
  }
}
