/** Tick alignment of trade/internal/chain/solana/txManager.go over Go's truncating division. */
module Ticks {
  import opened Rounding

  function TickWithSpacing(tick: int, spacing: int): int
    requires spacing != 0
  {
    var compressed := TruncDiv(tick, spacing);
    var adjusted := if tick < 0 && TruncMod(tick, spacing) != 0 then compressed - 1 else compressed;
    adjusted * spacing
  }

  function TickArrayStart(tick: int, spacing: int, arraySize: int): int
    requires spacing * arraySize != 0
  {
    var ticksInArray := spacing * arraySize;
    var start := TruncDiv(tick, ticksInArray);
    var adjusted := if tick < 0 && TruncMod(tick, ticksInArray) != 0 then start - 1 else start;
    adjusted * ticksInArray
  }

  /** Truncation corrected for negative remainders is the floor. */
  lemma CorrectedTruncIsFloor(tick: int, width: int)
    requires width > 0
    ensures TickWithSpacing(tick, width) == tick / width * width
  {
    if tick < 0 {
      var q := -tick / width;
      DivBounds(-tick, width);
      assert TruncMod(tick, width) == tick + q * width;
      assert (-q) * width == -(q * width);
      assert (-q - 1) * width == -(q * width) - width;
      DivUnique(tick, width, if TruncMod(tick, width) != 0 then -q - 1 else -q);
    }
  }

  lemma FloorAligned(tick: int, spacing: int)
    requires spacing > 0
    ensures var start := tick / spacing * spacing;
            start <= tick < start + spacing && start % spacing == 0 && start / spacing == tick / spacing
  {
    DivBounds(tick, spacing);
    DivMultiple(spacing, tick / spacing);
  }

  /** The aligned tick is the multiple of the spacing at or just below the tick; aligning again changes nothing. */
  lemma TickAligned(tick: int, spacing: int)
    requires spacing > 0
    ensures var start := TickWithSpacing(tick, spacing);
            && start <= tick < start + spacing
            && start % spacing == 0
            && TickWithSpacing(start, spacing) == start
  {
    CorrectedTruncIsFloor(tick, spacing);
    FloorAligned(tick, spacing);
    CorrectedTruncIsFloor(tick / spacing * spacing, spacing);
  }

  lemma TickMonotone(low: int, high: int, spacing: int)
    requires spacing > 0 && low <= high
    ensures TickWithSpacing(low, spacing) <= TickWithSpacing(high, spacing)
  {
    CorrectedTruncIsFloor(low, spacing);
    CorrectedTruncIsFloor(high, spacing);
    DivMono(low, high, spacing);
    MulMono(low / spacing, high / spacing, spacing);
  }

  /** An array start is the tick aligned to the whole array's width. */
  lemma ArrayStartAligned(tick: int, spacing: int, arraySize: int)
    requires spacing > 0 && arraySize > 0
    ensures spacing * arraySize > 0
    ensures var start := TickArrayStart(tick, spacing, arraySize);
            && start <= tick < start + spacing * arraySize
            && start % (spacing * arraySize) == 0
            && TickArrayStart(start, spacing, arraySize) == start
            && start == TickWithSpacing(tick, spacing * arraySize)
  {
    ProductSign(spacing, arraySize);
    TickAligned(tick, spacing * arraySize);
  }

  /** Aligning a tick to the spacing first never moves it to another array. */
  lemma AlignedTickKeepsArray(tick: int, spacing: int, arraySize: int)
    requires spacing > 0 && arraySize > 0
    ensures spacing * arraySize > 0
    ensures TickArrayStart(TickWithSpacing(tick, spacing), spacing, arraySize)
            == TickArrayStart(tick, spacing, arraySize)
  {
    var width := spacing * arraySize;
    ProductSign(spacing, arraySize);
    var aligned := tick / spacing * spacing;
    CorrectedTruncIsFloor(tick, spacing);
    CorrectedTruncIsFloor(tick, width);
    CorrectedTruncIsFloor(aligned, width);
    DivDiv(tick, spacing, arraySize);
    DivDiv(aligned, spacing, arraySize);
    DivMultiple(spacing, tick / spacing);
  }
}
