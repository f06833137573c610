/** The interrupt-line bitmask `NVIC_Mask_t`, the range checks on exception and
    interrupt numbers, and the set/clear-bit operations on a mask.

    An interrupt number (`IRQn_Type`) is an unbounded integer here; the C code
    narrows it with `(int16_t)` for the range checks and with `(uint8_t)` for the
    bit position, and both conversions are written out (Int16, Uint8). */
module NvicMask {

  /** A C `uint32_t` / `uint8_t` value. */
  type uint32 = x: int | 0 <= x < 0x1_0000_0000
  type uint8 = x: int | 0 <= x < 0x100

  /** Bits in one register word. */
  const WordBits: nat := 32

  /** One 32-bit word of an NVIC mask (one ISER/ICER register), as its bits:
      element c is bit c, the bit `1UL << c` selects. */
  type Word = w: seq<bool> | |w| == WordBits witness seq(WordBits, c => false)

  /** Priority bounds and mask size for a core with BASEPRI (Cortex-M3 and later). */
  const InterruptLowestPriority: int := 7
  const InterruptHighestPriority: int := 0
  const MaxNvicRegWords: nat := 8

  /** Interrupt numbers run over [0, InterruptNumLimit); exceptions over [-16, 0). */
  const InterruptNumLimit: int := 0xF0
  const ExceptionNumLowest: int := -16

  /** MemoryManagement_IRQn, the lowest number IRQ_IsIRQnBlocked accepts. */
  const MemoryManagementIRQn: int := -12

  /** Bits in a mask: one per line. */
  const MaskLines: nat := MaxNvicRegWords * 32

  /** The word with no bit set. */
  const ZeroWord: Word := seq(WordBits, c => false)

  /** `NVIC_Mask_t`: MaxNvicRegWords words of 32 bits; bit c of word w is line 32 * w + c. */
  type Mask = m: seq<Word> | |m| == MaxNvicRegWords witness seq(MaxNvicRegWords, w => ZeroWord)

  const EmptyMask: Mask := seq(MaxNvicRegWords, w => ZeroWord)

  // ---------------------------------------------------------------------------
  // C integer conversions

  /** The conversion `(int16_t)x`: two's-complement wrap-around into 16 bits. */
  function Int16(x: int): (r: int)
    ensures -0x8000 <= r < 0x8000
    ensures (x - r) % 0x1_0000 == 0
  {
    (x + 0x8000) % 0x1_0000 - 0x8000
  }

  /** The conversion `(uint8_t)x`: the low eight bits. */
  function Uint8(x: int): (r: uint8)
    ensures (x - r) % 0x100 == 0
  {
    x % 0x100
  }

  // ---------------------------------------------------------------------------
  // Range predicates

  /** `(int16_t)x` read off the low sixteen bits of x: they stand for themselves
      below 0x8000 and for a negative number from there on. */
  lemma Int16OfLow16(x: int)
    ensures Int16(x) == if x % 0x1_0000 < 0x8000 then x % 0x1_0000 else x % 0x1_0000 - 0x1_0000
  {
    var u := x % 0x1_0000;
    assert x == 0x1_0000 * (x / 0x1_0000) + u;
    if u < 0x8000 {
      assert (x + 0x8000) % 0x1_0000 == u + 0x8000;
    } else {
      assert (x + 0x8000) % 0x1_0000 == u - 0x8000;
    }
  }

  /** IS_EXCEPTION_NUM: the low sixteen bits of the number are 0xFFF0 to 0xFFFF. */
  predicate IsExceptionNum(irqNum: int): (r: bool)
    ensures r <==> 0xFFF0 <= irqNum % 0x1_0000
  {
    Int16OfLow16(irqNum);
    ExceptionNumLowest <= Int16(irqNum) < 0
  }

  /** IS_INTERRUPT_NUM: the low sixteen bits of the number are below 0xF0. */
  predicate IsInterruptNum(irqNum: int): (r: bool)
    ensures r <==> irqNum % 0x1_0000 < InterruptNumLimit
  {
    Int16OfLow16(irqNum);
    0 <= Int16(irqNum) < InterruptNumLimit
  }

  /** IS_IRQn: the number, moved up by the sixteen exceptions, falls in the first
      256 values of its low sixteen bits. */
  predicate IsIRQn(irqNum: int): (r: bool)
    ensures r <==> (irqNum + 16) % 0x1_0000 < 0x100
  {
    assert (irqNum + 16) % 0x1_0000 == (irqNum % 0x1_0000 + 16) % 0x1_0000;
    IsInterruptNum(irqNum) || IsExceptionNum(irqNum)
  }

  /** IS_INT_LVL_VALID: the levels 1 to 7. */
  predicate IsIntLvlValid(intLevel: int): (r: bool)
    ensures r <==> 1 <= intLevel <= 7
  {
    InterruptHighestPriority < intLevel <= InterruptLowestPriority
  }

  /** For every number an `int16_t` can hold the casts change nothing, so the
      range predicates are the plain intervals, and they do not overlap. */
  lemma RangesOnInt16(irqNum: int)
    requires -0x8000 <= irqNum < 0x8000
    ensures IsInterruptNum(irqNum) <==> 0 <= irqNum < InterruptNumLimit
    ensures IsExceptionNum(irqNum) <==> ExceptionNumLowest <= irqNum < 0
    ensures IsIRQn(irqNum) <==> ExceptionNumLowest <= irqNum < InterruptNumLimit
    ensures !(IsInterruptNum(irqNum) && IsExceptionNum(irqNum))
  {
    assert Int16(irqNum) == irqNum by {
      assert (irqNum + 0x8000) % 0x1_0000 == irqNum + 0x8000;
    }
  }

  // ---------------------------------------------------------------------------
  // Bitwise operations on one word

  /** `1UL << c` for a bit position c in [0, 32). */
  function Bit(c: nat): (r: Word)
    requires c < WordBits
    ensures forall k :: 0 <= k < WordBits ==> (r[k] <==> k == c)
  {
    seq(WordBits, k => k == c)
  }

  /** `x | y` */
  function WordOr(x: Word, y: Word): (r: Word)
    ensures forall k :: 0 <= k < WordBits ==> (r[k] <==> x[k] || y[k])
  {
    seq(WordBits, k requires 0 <= k < WordBits => x[k] || y[k])
  }

  /** `x & y` */
  function WordAnd(x: Word, y: Word): (r: Word)
    ensures forall k :: 0 <= k < WordBits ==> (r[k] <==> x[k] && y[k])
  {
    seq(WordBits, k requires 0 <= k < WordBits => x[k] && y[k])
  }

  /** `x & ~y` */
  function WordAndNot(x: Word, y: Word): (r: Word)
    ensures forall k :: 0 <= k < WordBits ==> (r[k] <==> x[k] && !y[k])
  {
    seq(WordBits, k requires 0 <= k < WordBits => x[k] && !y[k])
  }

  /** `x == 0` */
  predicate IsZero(x: Word) {
    forall k :: 0 <= k < WordBits ==> !x[k]
  }

  // ---------------------------------------------------------------------------
  // Lines of a mask

  /** Whether line `line` (bit `line & 0x1F` of word `line >> 5`) is set in mask `m`. */
  predicate HasLine(m: Mask, line: int) {
    0 <= line < MaskLines && m[line / WordBits][line % WordBits]
  }

  /** The set of lines a mask holds. */
  function Members(m: Mask): set<int> {
    set line | 0 <= line < MaskLines && HasLine(m, line)
  }

  /** The word `(uint8_t)irqNum >> 5` that holds an interrupt's bit: always a word of the mask. */
  function WordIndex(irqNum: int): (w: nat)
    ensures w < MaxNvicRegWords
  {
    Uint8(irqNum) / WordBits
  }

  /** The bit `(uint8_t)irqNum & 0x1F` inside that word. */
  function BitIndex(irqNum: int): (c: nat)
    ensures c < WordBits
  {
    Uint8(irqNum) % WordBits
  }

  /** For an interrupt number, word and bit index address exactly line Int16(irqNum),
      and every interrupt line fits in the mask. */
  lemma InterruptLine(irqNum: int)
    requires IsInterruptNum(irqNum)
    ensures 0 <= Int16(irqNum) < MaskLines
    ensures Uint8(irqNum) == Int16(irqNum)
    ensures WordIndex(irqNum) == Int16(irqNum) / WordBits
    ensures BitIndex(irqNum) == Int16(irqNum) % WordBits
  {
    var k := (irqNum + 0x8000) / 0x1_0000;
    assert Int16(irqNum) == irqNum - 0x1_0000 * k;
    assert irqNum == Int16(irqNum) + 0x100 * (0x100 * k);
  }

  /** Lines in the same word at the same bit are the same line. */
  lemma LineAddress(x: int, y: int)
    requires x / WordBits == y / WordBits && x % WordBits == y % WordBits
    ensures x == y
  {
    assert x == WordBits * (x / WordBits) + x % WordBits;
    assert y == WordBits * (y / WordBits) + y % WordBits;
  }

  // ---------------------------------------------------------------------------
  // Word-by-word operations on whole masks

  /** A write of `b` to ISER on top of `a`: the union of the two line sets. */
  function Or(a: Mask, b: Mask): (r: Mask)
    ensures Members(r) == Members(a) + Members(b)
  {
    seq(MaxNvicRegWords, i requires 0 <= i < MaxNvicRegWords => WordOr(a[i], b[i]))
  }

  /** A write of `b` to ICER on top of `a`: the lines of `a` that are not in `b`. */
  function AndNot(a: Mask, b: Mask): (r: Mask)
    ensures Members(r) == Members(a) - Members(b)
  {
    seq(MaxNvicRegWords, i requires 0 <= i < MaxNvicRegWords => WordAndNot(a[i], b[i]))
  }

  /** The lines the two masks share. */
  function And(a: Mask, b: Mask): (r: Mask)
    ensures Members(r) == Members(a) * Members(b)
  {
    seq(MaxNvicRegWords, i requires 0 <= i < MaxNvicRegWords => WordAnd(a[i], b[i]))
  }

  /** True when every word of the mask is zero. */
  predicate IsEmpty(m: Mask) {
    forall i :: 0 <= i < MaxNvicRegWords ==> IsZero(m[i])
  }

  /** A mask is all-zero exactly when it holds no line. */
  lemma EmptyIffNoMembers(m: Mask)
    ensures IsEmpty(m) <==> Members(m) == {}
  {
    if Members(m) == {} {
      forall i, c | 0 <= i < MaxNvicRegWords && 0 <= c < WordBits
        ensures !m[i][c]
      {
        var line := WordBits * i + c;
        assert line / WordBits == i && line % WordBits == c;
        assert line !in Members(m);
      }
    }
  }

  /** Masks that hold the same lines are the same mask. */
  lemma MembersDetermineMask(a: Mask, b: Mask)
    requires Members(a) == Members(b)
    ensures a == b
  {
    forall i | 0 <= i < MaxNvicRegWords
      ensures a[i] == b[i]
    {
      forall c | 0 <= c < WordBits
        ensures a[i][c] == b[i][c]
      {
        var line := WordBits * i + c;
        assert line / WordBits == i && line % WordBits == c;
        assert line in Members(a) <==> line in Members(b);
      }
    }
  }

  /** Enabling lines that are all disabled and then disabling them again gives
      back the enable set: the register sequence of a retrigger. */
  lemma DisableUndoesEnable(e: Mask, d: Mask)
    requires Members(d) * Members(e) == {}
    ensures AndNot(Or(e, d), d) == e
  {
    forall line | line in Members(e)
      ensures line !in Members(d)
    {
      assert line !in Members(d) * Members(e);
    }
    assert (Members(e) + Members(d)) - Members(d) == Members(e);
    MembersDetermineMask(AndNot(Or(e, d), d), e);
  }

  /** Enabling a snapshot again after disabling some lines gives back the snapshot. */
  lemma EnableUndoesDisable(e: Mask, d: Mask)
    ensures Or(AndNot(e, d), e) == e
  {
    MembersDetermineMask(Or(AndNot(e, d), e), e);
  }

  /** Disabling the snapshot after disabling some lines leaves none of its lines enabled. */
  lemma DisableSnapshotLeavesNone(e: Mask, d: Mask)
    ensures Members(AndNot(AndNot(e, d), e)) == {}
    ensures Members(e) != {} ==> AndNot(AndNot(e, d), e) != e
  {
  }

  /** The word loop of NVIC_IsNvicIserMaskDisabled run from word `i` on: true unless
      some word from `i` on has a line in both masks. */
  function SharesNoLineFrom(i: nat, mask: Mask, nvicMask: Mask): (r: bool)
    ensures !r ==> exists j :: i <= j < MaxNvicRegWords && !IsZero(WordAnd(mask[j], nvicMask[j]))
    decreases MaxNvicRegWords - i
  {
    if i >= MaxNvicRegWords then true
    else if !IsZero(WordAnd(mask[i], nvicMask[i])) then false
    else SharesNoLineFrom(i + 1, mask, nvicMask)
  }

  /** From word `i` on, the loop reports exactly whether those words share no line. */
  lemma {:induction false} SharesNoLineFromWords(i: nat, mask: Mask, nvicMask: Mask)
    ensures SharesNoLineFrom(i, mask, nvicMask) <==>
      forall j :: i <= j < MaxNvicRegWords ==> IsZero(WordAnd(mask[j], nvicMask[j]))
    decreases MaxNvicRegWords - i
  {
    if i < MaxNvicRegWords {
      SharesNoLineFromWords(i + 1, mask, nvicMask);
    }
  }

  /** Run from word 0, the loop reports exactly that the masks share no line. */
  lemma SharesNoLineFromZero(mask: Mask, nvicMask: Mask)
    ensures SharesNoLineFrom(0, mask, nvicMask) <==> Members(mask) * Members(nvicMask) == {}
  {
    SharesNoLineFromWords(0, mask, nvicMask);
    var shared := And(mask, nvicMask);
    assert forall j :: 0 <= j < MaxNvicRegWords ==> shared[j] == WordAnd(mask[j], nvicMask[j]);
    EmptyIffNoMembers(shared);
  }

  /** Run from a counter that already holds MaxNvicRegWords or more, as the
      uninitialised `size_t i` may, the loop reports "no line shared" even for a
      mask that shares lines with the enable set. */
  lemma UninitialisedCounterMissesSharedLine(i: nat, mask: Mask, nvicMask: Mask)
    requires MaxNvicRegWords <= i
    requires 0 in Members(mask) && 0 in Members(nvicMask)
    ensures SharesNoLineFrom(i, mask, nvicMask)
    ensures Members(mask) * Members(nvicMask) != {}
  {
    assert 0 in Members(mask) * Members(nvicMask);
  }

  // ---------------------------------------------------------------------------
  // NVIC_SetSpecificInterruptInAMask and NVIC_ClearSpecificInterruptInAMask

  /** The mask after setting the bit of `irqNum`, or `m` itself when `irqNum` is
      not an interrupt number. */
  function WithLine(m: Mask, irqNum: int): (r: Mask)
    ensures forall i, c :: 0 <= i < MaxNvicRegWords && 0 <= c < WordBits ==>
      r[i][c] == (m[i][c] || (IsInterruptNum(irqNum) && i == WordIndex(irqNum) && c == BitIndex(irqNum)))
  {
    if IsInterruptNum(irqNum) then
      m[WordIndex(irqNum) := WordOr(m[WordIndex(irqNum)], Bit(BitIndex(irqNum)))]
    else
      m
  }

  /** The mask after clearing the bit of `irqNum`, or `m` itself when `irqNum` is
      not an interrupt number. */
  function WithoutLine(m: Mask, irqNum: int): (r: Mask)
    ensures forall i, c :: 0 <= i < MaxNvicRegWords && 0 <= c < WordBits ==>
      r[i][c] == (m[i][c] && !(IsInterruptNum(irqNum) && i == WordIndex(irqNum) && c == BitIndex(irqNum)))
  {
    if IsInterruptNum(irqNum) then
      m[WordIndex(irqNum) := WordAndNot(m[WordIndex(irqNum)], Bit(BitIndex(irqNum)))]
    else
      m
  }

  /** Setting adds exactly the interrupt's own line; any other number changes nothing. */
  lemma WithLineMembers(m: Mask, irqNum: int)
    ensures Members(WithLine(m, irqNum)) ==
      if IsInterruptNum(irqNum) then Members(m) + {Int16(irqNum)} else Members(m)
  {
    if IsInterruptNum(irqNum) {
      InterruptLine(irqNum);
      var r := WithLine(m, irqNum);
      forall line | 0 <= line < MaskLines
        ensures HasLine(r, line) <==> HasLine(m, line) || line == Int16(irqNum)
      {
        if line / WordBits == WordIndex(irqNum) && line % WordBits == BitIndex(irqNum) {
          LineAddress(line, Int16(irqNum));
        }
      }
    }
  }

  /** Clearing removes exactly the interrupt's own line; any other number changes nothing. */
  lemma WithoutLineMembers(m: Mask, irqNum: int)
    ensures Members(WithoutLine(m, irqNum)) ==
      if IsInterruptNum(irqNum) then Members(m) - {Int16(irqNum)} else Members(m)
  {
    if IsInterruptNum(irqNum) {
      InterruptLine(irqNum);
      var r := WithoutLine(m, irqNum);
      forall line | 0 <= line < MaskLines
        ensures HasLine(r, line) <==> HasLine(m, line) && line != Int16(irqNum)
      {
        if line / WordBits == WordIndex(irqNum) && line % WordBits == BitIndex(irqNum) {
          LineAddress(line, Int16(irqNum));
        }
      }
    }
  }

  /** Clearing a line that setting just added gives back the original mask. */
  lemma ClearAfterSet(m: Mask, irqNum: int)
    requires !HasLine(m, Int16(irqNum))
    ensures WithoutLine(WithLine(m, irqNum), irqNum) == m
  {
    WithLineMembers(m, irqNum);
    WithoutLineMembers(WithLine(m, irqNum), irqNum);
    MembersDetermineMask(WithoutLine(WithLine(m, irqNum), irqNum), m);
  }

  /** Setting a line that clearing just removed gives back the original mask. */
  lemma SetAfterClear(m: Mask, irqNum: int)
    requires IsInterruptNum(irqNum) ==> HasLine(m, Int16(irqNum))
    ensures WithLine(WithoutLine(m, irqNum), irqNum) == m
  {
    WithoutLineMembers(m, irqNum);
    WithLineMembers(WithoutLine(m, irqNum), irqNum);
    MembersDetermineMask(WithLine(WithoutLine(m, irqNum), irqNum), m);
  }

  /** NVIC_SetSpecificInterruptInAMask: updates the caller's mask in place. */
  method SetSpecificInterruptInAMask(irqNum: int, mask: array<Word>)
    requires mask.Length == MaxNvicRegWords
    modifies mask
    ensures mask[..] == WithLine(old(mask[..]), irqNum)
  {
    if IsInterruptNum(irqNum) {
      mask[Uint8(irqNum) / WordBits] := WordOr(mask[Uint8(irqNum) / WordBits], Bit(Uint8(irqNum) % WordBits));
    }
  }

  /** NVIC_ClearSpecificInterruptInAMask: updates the caller's mask in place. */
  method ClearSpecificInterruptInAMask(irqNum: int, mask: array<Word>)
    requires mask.Length == MaxNvicRegWords
    modifies mask
    ensures mask[..] == WithoutLine(old(mask[..]), irqNum)
  {
    if IsInterruptNum(irqNum) {
      mask[Uint8(irqNum) / WordBits] := WordAndNot(mask[Uint8(irqNum) / WordBits], Bit(Uint8(irqNum) % WordBits));
    }
  }
}
