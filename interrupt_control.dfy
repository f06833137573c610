/** The interrupt-control state of a Cortex-M (M3 and later) core, as the library
    `interrupt_handling.c` drives it: the PRIMASK and BASEPRI masking registers,
    the NVIC line-enable set behind ISER/ICER, the library's own threshold
    `basePriLevel`, the active exception number and the vector table.

    Each register is a field of class CortexM and each library routine a method
    that changes those fields as the routine's register reads and writes do. */
module InterruptControl {
  import opened NvicMask

  /** PRIMASK: one implemented bit. */
  type PrimaskBit = x: int | 0 <= x <= 1

  /** Number of entries of the vector table: 16 exceptions and 240 interrupts. */
  const VectorSlots: nat := 0x100

  /** Null handler address. */
  const Null: uint32 := 0

  /** 2 to the power k. */
  function Pow2(k: nat): (r: nat)
    ensures r >= 1
  {
    if k == 0 then 1 else 2 * Pow2(k - 1)
  }

  /** Shifting 8-bit priority fields down by at most five bits divides by at most 32. */
  lemma {:induction false} Pow2AtMost32(k: nat)
    requires k <= 5
    ensures Pow2(k) <= 32
  {
    if k > 0 {
      Pow2AtMost32(k - 1);
    }
  }

  /** The vector-table slot `(int16_t)irqNum + 16` of a valid number: exceptions
      take slots 0 to 15, interrupts the slots after them, and different numbers
      take different slots. */
  function VectorSlot(irqNum: int): (slot: nat)
    requires IsIRQn(irqNum)
    ensures slot < VectorSlots
    ensures slot < 16 <==> IsExceptionNum(irqNum)
    ensures forall other :: IsIRQn(other) && Int16(other) != Int16(irqNum) ==> Int16(other) + 16 != slot
  {
    Int16(irqNum) + 16
  }

  /** The register state at an instruction barrier `__ISB` the library issues to let
      pending handlers run: the masking in force while that window is open. */
  datatype Window = Window(primask: PrimaskBit, basepri: uint8, enabled: Mask)

  class CortexM {
    /** PRIMASK: 1 masks every configurable-priority exception. */
    var primask: PrimaskBit
    /** BASEPRI: 0 masks nothing; otherwise priorities numerically >= BASEPRI >> shift are masked. */
    var basepri: uint8
    /** The NVIC interrupt-enable set; ISER and ICER both read as it. */
    var enabled: Mask
    /** The library's `static int8_t basePriLevel`. */
    var basePriLevel: int
    /** ICSR.VECTACTIVE: 0 in thread mode, otherwise the active exception number. */
    var vectactive: nat
    /** NVIC_GetPriority, taken as a fixed function of the exception or interrupt number. */
    const prio: int -> nat
    /** BASEPRI_START_BIT, that is 8 - __NVIC_PRIO_BITS. */
    const shift: nat
    /** The vector table that SCB->VTOR points to: one handler address per slot. */
    const vt: array<uint32>
    /** Every window opened by a trigger routine, oldest first. */
    ghost var windows: seq<Window>

    predicate Valid()
      reads this`basePriLevel, this`vectactive
    {
      && IsIntLvlValid(basePriLevel)
      && shift <= 5
      && vectactive < 0x200
      && vt.Length == VectorSlots
    }

    /** The reset state with the library's initial threshold 3. */
    constructor (prio: int -> nat, shift: nat)
      requires shift <= 5
      ensures Valid()
      ensures primask == 0 && basepri == 0 && enabled == EmptyMask && vectactive == 0
      ensures basePriLevel == 3 && windows == []
      ensures this.prio == prio && this.shift == shift
      ensures fresh(vt) && forall k :: 0 <= k < VectorSlots ==> vt[k] == Null
    {
      this.prio := prio;
      this.shift := shift;
      primask := 0;
      basepri := 0;
      enabled := EmptyMask;
      basePriLevel := 3;
      vectactive := 0;
      vt := new uint32[VectorSlots](_ => Null);
      windows := [];
    }

    /** `basePriLevel << BASEPRI_START_BIT`: the BASEPRI value of the library's threshold. */
    function Threshold(): (t: nat)
      reads this`basePriLevel, this`vectactive
      requires Valid()
      ensures 0 < t < 0x100
    {
      Pow2AtMost32(shift);
      assert basePriLevel * Pow2(shift) <= 7 * 32 by {
        assert basePriLevel * Pow2(shift) <= 7 * Pow2(shift);
      }
      basePriLevel * Pow2(shift)
    }

    // -------------------------------------------------------------------------
    // PRIMASK: critical sections

    /** PRIMASK_EnterCriticalSection (the header's PRIMASK_EnterNoInterruptsSection). */
    method EnterCriticalSection() returns (irqState: uint32)
      modifies this`primask
      ensures irqState == old(primask) && primask == 1
      ensures Valid() ==> AreAllIRQnsDisabled()
    {
      irqState := primask;
      primask := 1;
    }

    /** PRIMASK_ExitCriticalSection (the header's PRIMASK_ExitNoInterruptsSection). */
    method ExitCriticalSection(irqState: uint32)
      modifies this`primask
      ensures primask == if irqState == 0 then 0 else old(primask)
    {
      if irqState == 0 {
        primask := 0;
      }
    }

    /** PRIMASK_DisableIrq */
    method DisableIrq()
      modifies this`primask
      ensures primask == 1
    {
      primask := 1;
    }

    /** PRIMASK_EnableIrq */
    method EnableIrq()
      modifies this`primask
      ensures primask == 0
    {
      primask := 0;
    }

    /** PRIMASK_TriggerPendingInterrupts: when PRIMASK is set, open one unmasked
        window and set it again; otherwise do nothing. */
    method TriggerPendingInterrupts()
      modifies this`primask, this`windows
      ensures primask == old(primask)
      ensures windows == old(windows) + if old(primask) == 1 then [Window(0, basepri, enabled)] else []
    {
      if primask == 1 {
        primask := 0;
        windows := windows + [Window(primask, basepri, enabled)];
        primask := 1;
      }
    }

    // -------------------------------------------------------------------------
    // BASEPRI: the threshold and threshold sections

    /** BASEPRI_SetPriorityLevelThreshold: accepts exactly the levels 1 to 7. */
    method SetPriorityLevelThreshold(inputBasePriLevel: uint8) returns (isSetSuccessfully: bool)
      requires Valid()
      modifies this`basePriLevel
      ensures Valid()
      ensures isSetSuccessfully <==> 0 < inputBasePriLevel <= 7
      ensures basePriLevel == if isSetSuccessfully then inputBasePriLevel else old(basePriLevel)
    {
      isSetSuccessfully := false;
      if IsIntLvlValid(inputBasePriLevel) {
        basePriLevel := inputBasePriLevel;
        isSetSuccessfully := true;
      }
    }

    /** BASEPRI_GetPriorityLevelThreshold: always a level the setter accepts. */
    function GetPriorityLevelThreshold(): (level: int)
      reads this`basePriLevel, this`vectactive
      requires Valid()
      ensures IsIntLvlValid(level) && InterruptHighestPriority < level <= InterruptLowestPriority
      ensures level * Pow2(shift) == Threshold()
    {
      basePriLevel
    }

    /** `__set_BASEPRI(value)`: the register keeps the low eight bits. */
    method SetBasepri(value: uint32)
      modifies this`basepri
      ensures basepri == value % 0x100
    {
      basepri := value % 0x100;
    }

    /** BASEPRI_EnterInterruptsDisabledByThresholdSection */
    method EnterInterruptsDisabledByThresholdSection() returns (irqState: uint32)
      requires Valid()
      modifies this`basepri
      ensures irqState == old(basepri) && basepri == Threshold()
      ensures AreAllIRQnsDisabled() && AllAtThresholdDisabled()
    {
      irqState := basepri;
      SetBasepri(Threshold());
    }

    /** BASEPRI_ExitInterruptsDisabledByThresholdSection */
    method ExitInterruptsDisabledByThresholdSection(irqState: uint32)
      modifies this`basepri
      ensures basepri == irqState % 0x100
    {
      SetBasepri(irqState);
    }

    /** BASEPRI_DisableIrqByThreshold */
    method DisableIrqByThreshold()
      requires Valid()
      modifies this`basepri
      ensures basepri == Threshold()
    {
      SetBasepri(Threshold());
    }

    /** BASEPRI_EnableIrqByThreshold */
    method EnableIrqByThreshold()
      modifies this`basepri
      ensures basepri == 0
    {
      SetBasepri(0);
    }

    /** BASEPRI_TriggerPendingInterruptsByThreshold: when BASEPRI is at or above the
        threshold, open one window with BASEPRI cleared and restore it. */
    method TriggerPendingInterruptsByThreshold()
      requires Valid()
      modifies this`basepri, this`windows
      ensures basepri == old(basepri)
      ensures windows == old(windows) +
        if old(basepri) >= Threshold() then [Window(primask, 0, enabled)] else []
    {
      var irqState: uint32 := basepri;
      if irqState >= Threshold() {
        SetBasepri(0);
        windows := windows + [Window(primask, basepri, enabled)];
        SetBasepri(irqState);
      }
    }

    // -------------------------------------------------------------------------
    // NVIC: specific interrupt lines

    /** NVIC_EnterSpecificInterruptDisabledSection: inside a PRIMASK section, read the
        enable set through ICER and write `disable` to ICER. */
    method EnterSpecificInterruptDisabledSection(disable: Mask) returns (nvicState: Mask)
      modifies this`primask, this`enabled
      ensures nvicState == old(enabled)
      ensures enabled == AndNot(old(enabled), disable)
      ensures Members(enabled) == Members(old(enabled)) - Members(disable)
      ensures primask == old(primask)
    {
      var irqState := EnterCriticalSection();
      nvicState := enabled;
      enabled := AndNot(enabled, disable);
      ExitCriticalSection(irqState);
    }

    /** NVIC_ExitSpecificInterruptDisabledSection: disables the lines of its argument. */
    method ExitSpecificInterruptDisabledSection(disable: Mask)
      modifies this`primask, this`enabled
      ensures enabled == AndNot(old(enabled), disable)
      ensures Members(enabled) == Members(old(enabled)) - Members(disable)
      ensures primask == old(primask)
    {
      DisableSpecificInterrupts(disable);
    }

    /** NVIC_DisableSpecificInterrupts: writes `disable` to ICER inside a PRIMASK section. */
    method DisableSpecificInterrupts(disable: Mask)
      modifies this`primask, this`enabled
      ensures enabled == AndNot(old(enabled), disable)
      ensures Members(enabled) == Members(old(enabled)) - Members(disable)
      ensures primask == old(primask)
    {
      var irqState := EnterCriticalSection();
      enabled := AndNot(enabled, disable);
      ExitCriticalSection(irqState);
    }

    /** NVIC_EnableSpecificInterrupts: writes `enable` to ISER inside a PRIMASK section. */
    method EnableSpecificInterrupts(enable: Mask)
      modifies this`primask, this`enabled
      ensures enabled == Or(old(enabled), enable)
      ensures Members(enabled) == Members(old(enabled)) + Members(enable)
      ensures primask == old(primask)
    {
      var irqState := EnterCriticalSection();
      enabled := Or(enabled, enable);
      ExitCriticalSection(irqState);
    }

    /** NVIC_TriggerSpecificPendingInterrupts: the lines of `enable` that are not
        enabled are enabled for one window and disabled again; the enable set ends
        as it began. */
    method TriggerSpecificPendingInterrupts(enable: Mask)
      modifies this`primask, this`enabled, this`windows
      ensures enabled == old(enabled) && primask == old(primask)
      ensures var retrigger := Members(enable) - Members(old(enabled));
        windows == old(windows) + if retrigger == {} then [] else
          [Window(primask, basepri, Or(old(enabled), AndNot(enable, old(enabled))))]
      ensures |windows| > |old(windows)| ==>
        Members(windows[|windows| - 1].enabled) == Members(old(enabled)) + Members(enable)
    {
      var nvicMask: Mask := EmptyMask;
      var shouldTrigger := false;
      var irqState := EnterCriticalSection();
      nvicMask := enabled;
      ExitCriticalSection(irqState);
      ghost var e := enabled;
      var i := 0;
      while i < MaxNvicRegWords
        invariant 0 <= i <= MaxNvicRegWords
        invariant forall j :: 0 <= j < i ==> nvicMask[j] == WordAndNot(enable[j], e[j])
        invariant forall j :: i <= j < MaxNvicRegWords ==> nvicMask[j] == e[j]
        invariant shouldTrigger <==> exists j :: 0 <= j < i && !IsZero(nvicMask[j])
      {
        nvicMask := nvicMask[i := WordAnd(nvicMask[i], enable[i])];
        nvicMask := nvicMask[i := WordAndNot(enable[i], nvicMask[i])];
        if !IsZero(nvicMask[i]) {
          shouldTrigger := true;
        }
        i := i + 1;
      }
      assert nvicMask == AndNot(enable, e);
      EmptyIffNoMembers(nvicMask);
      if shouldTrigger {
        enabled := Or(enabled, nvicMask);
        windows := windows + [Window(primask, basepri, enabled)];
        enabled := AndNot(enabled, nvicMask);
        DisableUndoesEnable(e, nvicMask);
      }
    }

    /** NVIC_GetNvicIserMask: reads ISER inside a PRIMASK section. */
    method GetNvicIserMask() returns (mask: Mask)
      modifies this`primask
      ensures mask == enabled && primask == old(primask)
    {
      var irqState := EnterCriticalSection();
      mask := enabled;
      ExitCriticalSection(irqState);
    }

    /** NVIC_IsNvicIserMaskDisabled: true exactly when no line of `mask` is enabled. */
    method IsNvicIserMaskDisabled(mask: Mask) returns (isIserDisabled: bool)
      modifies this`primask
      ensures isIserDisabled == SharesNoLineFrom(0, mask, enabled)
      ensures isIserDisabled <==> Members(mask) * Members(enabled) == {}
      ensures primask == old(primask)
    {
      var nvicMask: Mask := EmptyMask;
      isIserDisabled := true;
      var irqState := EnterCriticalSection();
      nvicMask := enabled;
      ExitCriticalSection(irqState);
      var i := 0;
      while i < MaxNvicRegWords
        invariant 0 <= i <= MaxNvicRegWords
        invariant isIserDisabled <==> forall j :: 0 <= j < i ==> IsZero(WordAnd(mask[j], nvicMask[j]))
      {
        if !IsZero(WordAnd(mask[i], nvicMask[i])) {
          isIserDisabled := false;
          break;
        }
        i := i + 1;
      }
      var shared := And(mask, nvicMask);
      if isIserDisabled {
        assert forall j :: 0 <= j < MaxNvicRegWords ==> shared[j] == WordAnd(mask[j], nvicMask[j]);
      } else {
        assert !IsZero(shared[i]);
      }
      EmptyIffNoMembers(shared);
      SharesNoLineFromZero(mask, nvicMask);
    }

    // -------------------------------------------------------------------------
    // Queries

    /** IRQ_IsInIrqContext */
    function IsInIrqContext(): (r: bool)
      reads this
      ensures r <==> vectactive != 0
    {
      vectactive != 0
    }

    /** NVIC_IsIRQnDisabled: an interrupt number is disabled unless its line is in
        the enable set; every other number reports disabled. */
    function IsIRQnDisabled(irqNum: int): (isDisabled: bool)
      reads this
      ensures isDisabled <==> !(IsInterruptNum(irqNum) && Int16(irqNum) in Members(enabled))
    {
      if IsInterruptNum(irqNum) then
        InterruptLine(irqNum);
        IsZero(WordAnd(enabled[WordIndex(irqNum)], Bit(BitIndex(irqNum))))
      else
        true
    }

    /** IRQ_IsIRQnBlocked, for the numbers its ASSERT admits. */
    function IsIRQnBlocked(irqNum: int): (blocked: bool)
      reads this
      requires Valid()
      requires MemoryManagementIRQn <= irqNum < InterruptNumLimit
      ensures blocked <==>
        || primask == 1
        || !(0 <= irqNum && irqNum in Members(enabled))
        || (basepri != 0 && prio(irqNum) >= basepri / Pow2(shift))
        || (vectactive != 0 && prio(irqNum) >= prio(vectactive - 16))
      ensures irqNum < 0 ==> blocked
    {
      RangesOnInt16(irqNum);
      if primask == 1 then true
      else if IsIRQnDisabled(irqNum) then true
      else if basepri != 0 && prio(irqNum) >= basepri / Pow2(shift) then true
      else if vectactive != 0 && prio(irqNum) >= prio(vectactive - 16) then true
      else false
    }

    /** IRQ_AreAllIRQnsDisabled, as written: PRIMASK set, or BASEPRI at or above the
        threshold value. */
    function AreAllIRQnsDisabled(): (r: bool)
      reads this`primask, this`basepri, this`basePriLevel, this`vectactive
      requires Valid()
      ensures r <==> primask == 1 || basepri >= Threshold()
      ensures r && primask == 0 ==> basepri != 0
    {
      primask == 1 || basepri >= Threshold()
    }

    /** What IRQ_AreAllIRQnsDisabled evidently means: PRIMASK set, or BASEPRI masking
        at least every priority from the threshold level down. */
    function AllAtThresholdDisabled(): (r: bool)
      reads this`primask, this`basepri, this`basePriLevel, this`vectactive
      requires Valid()
      ensures r && primask == 0 ==> basepri != 0 && basepri / Pow2(shift) <= basePriLevel
      ensures basepri == Threshold() ==> r
    {
      if basepri <= Threshold() then
        DivBelowMultiple(basepri, basePriLevel, Pow2(shift));
        primask == 1 || basepri != 0
      else
        primask == 1
    }

    /** NVIC_GetIRQnHandler: the table entry of a valid number, NULL otherwise. */
    function GetIRQnHandler(irqNum: int): (handler: uint32)
      reads this`basePriLevel, this`vectactive, vt
      requires Valid()
      ensures !IsIRQn(irqNum) ==> handler == Null
    {
      if IsIRQn(irqNum) then vt[VectorSlot(irqNum)] else Null
    }

    /** NVIC_SetIRQnHandler: writes only the slot of a valid number. */
    method SetIRQnHandler(irqNum: int, handler: uint32)
      requires Valid()
      modifies vt
      ensures IsIRQn(irqNum) ==> GetIRQnHandler(irqNum) == handler
      ensures forall k :: 0 <= k < VectorSlots && !(IsIRQn(irqNum) && k == VectorSlot(irqNum)) ==>
        vt[k] == old(vt[k])
      ensures forall other :: IsIRQn(other) && !(IsIRQn(irqNum) && Int16(other) == Int16(irqNum)) ==>
        GetIRQnHandler(other) == old(GetIRQnHandler(other))
    {
      if IsIRQn(irqNum) {
        vt[Int16(irqNum) + 16] := handler;
      }
    }
  }

  // ---------------------------------------------------------------------------
  // Masking as IRQ_IsIRQnBlocked sees it

  /** Dividing a multiple of p by p gives back the factor; dividing less gives no more. */
  lemma DivBelowMultiple(x: nat, level: nat, p: nat)
    requires 0 < p && x <= level * p
    ensures x / p <= level && (level * p) / p == level
  {
    assert (level * p) / p == level;
  }

  /** Inside a threshold section, in thread mode with PRIMASK clear, an enabled
      interrupt is blocked exactly when its priority is at or below the threshold
      level (numerically at least basePriLevel). */
  lemma ThresholdSectionBlocksIff(cpu: CortexM, irqNum: int)
    requires cpu.Valid()
    requires cpu.primask == 0 && cpu.vectactive == 0 && cpu.basepri == cpu.Threshold()
    requires 0 <= irqNum < InterruptNumLimit && irqNum in Members(cpu.enabled)
    ensures cpu.IsIRQnBlocked(irqNum) <==> cpu.prio(irqNum) >= cpu.basePriLevel
  {
    DivBelowMultiple(cpu.basepri, cpu.basePriLevel, Pow2(cpu.shift));
  }

  /** With nothing masked and no handler active, exactly the disabled lines are blocked. */
  lemma UnmaskedBlocksOnlyDisabled(cpu: CortexM, irqNum: int)
    requires cpu.Valid()
    requires cpu.primask == 0 && cpu.basepri == 0 && !cpu.IsInIrqContext()
    requires MemoryManagementIRQn <= irqNum < InterruptNumLimit
    ensures cpu.IsIRQnBlocked(irqNum) <==> cpu.IsIRQnDisabled(irqNum)
  {
    RangesOnInt16(irqNum);
  }

  /** IRQ_AreAllIRQnsDisabled as written reports true for a BASEPRI above the
      threshold value, which masks fewer priorities: with BASEPRI = 7 << shift and
      a threshold level below 7, an enabled interrupt at the threshold level is
      not blocked although the query says every interrupt is disabled. */
  lemma AreAllIRQnsDisabledAboveThreshold(cpu: CortexM, irqNum: int)
    requires cpu.Valid() && cpu.basePriLevel < 7
    requires cpu.primask == 0 && cpu.vectactive == 0 && cpu.basepri == 7 * Pow2(cpu.shift)
    requires 0 <= irqNum < InterruptNumLimit && irqNum in Members(cpu.enabled)
    requires cpu.prio(irqNum) == cpu.basePriLevel
    ensures cpu.AreAllIRQnsDisabled()
    ensures !cpu.IsIRQnBlocked(irqNum)
    ensures !cpu.AllAtThresholdDisabled()
  {
    var p := Pow2(cpu.shift);
    assert cpu.basePriLevel * p <= 7 * p;
    assert (7 * p) / p == 7;
  }

  /** The intended query: whenever it holds, every interrupt or exception the
      blocking query accepts whose priority is at or below the threshold level is
      blocked. */
  lemma AllAtThresholdDisabledBlocks(cpu: CortexM, irqNum: int)
    requires cpu.Valid() && cpu.AllAtThresholdDisabled()
    requires MemoryManagementIRQn <= irqNum < InterruptNumLimit
    requires cpu.prio(irqNum) >= cpu.basePriLevel
    ensures cpu.IsIRQnBlocked(irqNum)
  {
    if cpu.primask == 0 {
      DivBelowMultiple(cpu.basepri, cpu.basePriLevel, Pow2(cpu.shift));
    }
  }

  /** The written and the intended query agree on every BASEPRI value the library
      itself writes (0 and the threshold) and whenever PRIMASK is set. */
  lemma AllDisabledQueriesAgree(cpu: CortexM)
    requires cpu.Valid()
    requires cpu.primask == 1 || cpu.basepri == 0 || cpu.basepri == cpu.Threshold()
    ensures cpu.AreAllIRQnsDisabled() == cpu.AllAtThresholdDisabled()
  {
  }
}
