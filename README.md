# Interrupt control for Cortex-M, modelled in Dafny

This project models the interrupt-control library `interrupt_handling.c` /
`interrupt_handling.h`, which targets Cortex-M3 and later cores (the header
pulls in an STM32F4 device header). The library has four parts:

- **PRIMASK critical sections.** Enter, exit, disable, enable, and a trigger
  that briefly unmasks so that pending handlers run.
- **BASEPRI threshold sections.** These are driven by the library's own
  threshold level `basePriLevel` (1 to 7, initially 3), shifted into the
  implemented priority bits.
- **NVIC line masks.** A 256-bit mask `NVIC_Mask_t` of eight 32-bit words.
  The library uses it to disable, enable, retrigger and query specific
  interrupt lines through the ISER/ICER registers.
- **Queries and the vector table.** "Is this number blocked?", "is everything
  disabled?", and get/set of the vector-table entry of an exception or
  interrupt number.

Modules:

- `NvicMask` (`nvic_mask.dfy`):
  - the mask, with a register word as its 32 bits;
  - the C conversions `(int16_t)` and `(uint8_t)`, written out;
  - the range macros;
  - the set/clear-bit routines, as methods on the caller's array;
  - the word-by-word mask operations, with their meaning as sets of lines.
- `InterruptControl` (`interrupt_control.dfy`): class `CortexM`. Its fields are
  the registers the library touches:
  - PRIMASK, BASEPRI and the NVIC enable set;
  - the library's `basePriLevel`;
  - VECTACTIVE;
  - the vector table.

  Each library routine is a method that changes those fields as the routine's
  register reads and writes do. A ghost log `windows` records every `__ISB`
  window that a trigger routine opens, with the masking in force at that
  moment.
- `Sections` (`sections.dfy`): the three bracketing macros of the header.
  Bracketed statements are a small datatype of library calls, so sections can
  nest. `Run` interprets it.

NVIC registers follow section B3.4 of the ARMv7-M Architecture Reference
Manual:
- writing ones to ISER sets those enable bits;
- writing ones to ICER clears them;
- reading either register returns the enable set.

So `NVIC_DisableSpecificInterrupts(m)` removes the lines of `m` from the enable
set (`AndNot`) and leaves the other lines as they were. A write of `m` to ISER
adds the lines of `m` (`Or`).

Two consequences of these register semantics shape the model:
- The enable and disable routines write to ISER/ICER. They set or clear the
  given bits and never overwrite the enable set.
- The retrigger mask of `NVIC_TriggerSpecificPendingInterrupts` is computed
  word by word as `request & ~enabled`. It is non-zero whenever a requested
  line is disabled.

## Model

| member | source | states |
|---|---|---|
| NvicMask.Int16 | interrupt_handling.c:6-8 | the `(int16_t)` conversion lands in [-0x8000, 0x8000) and differs from its input by a multiple of 2^16 |
| NvicMask.Uint8 | interrupt_handling.c:455 | the `(uint8_t)` conversion differs from its input by a multiple of 256 |
| NvicMask.RangesOnInt16 | interrupt_handling.c:6-10 | on int16 values, IS_INTERRUPT_NUM is [0, 0xF0), IS_EXCEPTION_NUM is [-16, 0), IS_IRQn is their union, and no number is both |
| NvicMask.IsExceptionNum | interrupt_handling.c:6 | IS_EXCEPTION_NUM holds exactly when the low sixteen bits of the number are 0xFFF0 to 0xFFFF |
| NvicMask.IsInterruptNum | interrupt_handling.c:8 | IS_INTERRUPT_NUM holds exactly when the low sixteen bits of the number are below 0xF0 |
| NvicMask.IsIRQn | interrupt_handling.c:10 | IS_IRQn holds exactly when the number plus 16, taken to sixteen bits, is below 256 |
| NvicMask.IsIntLvlValid | interrupt_handling.c:12-13 | IS_INT_LVL_VALID accepts exactly the levels 1 to 7 |
| NvicMask.Bit | interrupt_handling.c:455 | `1UL << c` has bit c set and no other bit |
| NvicMask.WordIndex | interrupt_handling.c:455 | the word index `(uint8_t)irqNum >> 5` is always a word of the 8-word mask |
| NvicMask.BitIndex | interrupt_handling.c:455 | the bit index `(uint8_t)irqNum & 0x1F` is below 32 |
| NvicMask.InterruptLine | interrupt_handling.c:8 | for an interrupt number, both conversions give the same value, and word and bit index address line `irqNum` inside the 256-line mask |
| NvicMask.Or | interrupt_handling.c:400 | a write of `b` to ISER over enable set `a` leaves exactly the lines of `a` and of `b` enabled |
| NvicMask.AndNot | interrupt_handling.c:383 | a write of `b` to ICER over enable set `a` leaves exactly the lines of `a` that are not in `b` |
| NvicMask.And | interrupt_handling.c:610 | the word-wise `&` of two masks holds exactly the lines they share |
| NvicMask.EmptyIffNoMembers | interrupt_handling.c:428-431 | every word of a mask is zero if and only if the mask holds no line |
| NvicMask.MembersDetermineMask | interrupt_handling.h:65-68 | two masks that hold the same lines are the same eight words |
| NvicMask.DisableUndoesEnable | interrupt_handling.c:434-439 | enabling lines that were all disabled and then disabling them again gives back the enable set |
| NvicMask.EnableUndoesDisable | interrupt_handling.h:53-63 | writing the snapshot back to ISER after disabling some lines gives back the snapshot |
| NvicMask.DisableSnapshotLeavesNone | interrupt_handling.c:365-368 | disabling the snapshot, as the section exit does, leaves none of the snapshot's lines enabled, and so never restores a non-empty snapshot |
| NvicMask.SharesNoLineFrom | interrupt_handling.c:608-615 | the word loop from counter i, as written with any starting counter: when it reports a shared line, some word from i on has a bit set in both masks |
| NvicMask.SharesNoLineFromWords | interrupt_handling.c:608-615 | the word loop, run from word i, reports true if and only if no word from i on has a bit set in both masks |
| NvicMask.SharesNoLineFromZero | interrupt_handling.c:598-618 | run from word 0, the loop reports true if and only if the two masks share no line |
| NvicMask.UninitialisedCounterMissesSharedLine | interrupt_handling.c:608 | with the counter starting at 8 or above, the loop reports "no line shared" for masks that both hold line 0 |
| NvicMask.WithLine | interrupt_handling.c:451-457 | setting an interrupt number's bit sets exactly bit `(uint8_t)irqNum & 0x1F` of word `(uint8_t)irqNum >> 5` and leaves every other bit as it was; any other number leaves the mask unchanged |
| NvicMask.WithoutLine | interrupt_handling.c:468-474 | clearing an interrupt number's bit clears exactly that bit of that word and leaves every other bit as it was; any other number leaves the mask unchanged |
| NvicMask.WithLineMembers | interrupt_handling.c:451-457 | setting adds exactly line `irqNum` for an interrupt number; for any other number (exceptions included) the mask is unchanged |
| NvicMask.WithoutLineMembers | interrupt_handling.c:468-474 | clearing removes exactly line `irqNum` for an interrupt number; for any other number the mask is unchanged |
| NvicMask.ClearAfterSet | interrupt_handling.c:451-474 | clearing after setting gives back a mask whose bit was clear |
| NvicMask.SetAfterClear | interrupt_handling.c:451-474 | setting after clearing gives back a mask whose bit was set |
| NvicMask.SetSpecificInterruptInAMask | interrupt_handling.c:451-457 | the caller's 8-word array becomes the mask with the interrupt's bit set; an invalid number leaves it unchanged |
| NvicMask.ClearSpecificInterruptInAMask | interrupt_handling.c:468-474 | the caller's 8-word array becomes the mask with the interrupt's bit cleared; an invalid number leaves it unchanged |
| InterruptControl.VectorSlot | interrupt_handling.c:678 | the slot `(int16_t)irqNum + 16` of a valid number is in [0, 256) and is below 16 exactly for exceptions; different numbers take different slots |
| InterruptControl.CortexM.constructor | interrupt_handling.c:19 | `basePriLevel` starts at 3 and the class invariant holds. The rest of the start state is the core's reset state (PRIMASK and BASEPRI clear, no line enabled, thread mode), not anything the library sets, plus an all-NULL vector table |
| InterruptControl.CortexM.Threshold | interrupt_handling.c:249 | `basePriLevel << BASEPRI_START_BIT` is a non-zero value that fits the 8-bit BASEPRI register |
| InterruptControl.CortexM.EnterCriticalSection | interrupt_handling.c:70-77 | returns the previous PRIMASK and leaves PRIMASK set, so the all-disabled query holds afterwards |
| InterruptControl.CortexM.ExitCriticalSection | interrupt_handling.c:88-94 | clears PRIMASK only when the saved state is 0, and otherwise leaves it as it is |
| InterruptControl.CortexM.DisableIrq | interrupt_handling.c:105-108 | PRIMASK is set |
| InterruptControl.CortexM.EnableIrq | interrupt_handling.c:119-122 | PRIMASK is clear |
| InterruptControl.CortexM.TriggerPendingInterrupts | interrupt_handling.c:133-155 | PRIMASK ends as it began; exactly one unmasked window is opened when PRIMASK was set, and none otherwise |
| InterruptControl.CortexM.SetPriorityLevelThreshold | interrupt_handling.c:205-218 | succeeds if and only if the level is in 1..7 and then stores it; otherwise the threshold is unchanged; the threshold stays valid |
| InterruptControl.CortexM.GetPriorityLevelThreshold | interrupt_handling.c:229-232 | the stored level is always one the setter accepts, and shifting it gives the BASEPRI value the sections write |
| InterruptControl.CortexM.SetBasepri | interrupt_handling.c:269 | `__set_BASEPRI` keeps the low eight bits of the value written |
| InterruptControl.CortexM.EnterInterruptsDisabledByThresholdSection | interrupt_handling.c:243-255 | returns the previous BASEPRI and sets BASEPRI to the threshold value; both the all-disabled query and its corrected form hold afterwards |
| InterruptControl.CortexM.ExitInterruptsDisabledByThresholdSection | interrupt_handling.c:266-273 | BASEPRI is the saved state again |
| InterruptControl.CortexM.DisableIrqByThreshold | interrupt_handling.c:284-291 | BASEPRI is the threshold value |
| InterruptControl.CortexM.EnableIrqByThreshold | interrupt_handling.c:302-309 | BASEPRI is 0, so nothing is masked by priority |
| InterruptControl.CortexM.TriggerPendingInterruptsByThreshold | interrupt_handling.c:320-335 | BASEPRI ends as it began; a window with BASEPRI cleared is opened exactly when BASEPRI was at or above the threshold value |
| InterruptControl.CortexM.EnterSpecificInterruptDisabledSection | interrupt_handling.c:346-354 | returns the previous enable set, disables exactly the lines of `disable`, and gives PRIMASK back |
| InterruptControl.CortexM.ExitSpecificInterruptDisabledSection | interrupt_handling.c:365-368 | has the same effect as disabling the lines of its argument |
| InterruptControl.CortexM.DisableSpecificInterrupts | interrupt_handling.c:379-385 | removes exactly the given lines from the enable set and gives PRIMASK back |
| InterruptControl.CortexM.EnableSpecificInterrupts | interrupt_handling.c:396-402 | adds exactly the given lines to the enable set and gives PRIMASK back |
| InterruptControl.CortexM.TriggerSpecificPendingInterrupts | interrupt_handling.c:413-440 | the enable set and PRIMASK end as they began. A window is opened exactly when some requested line is disabled, and during it the enabled lines are the old ones plus the requested ones |
| InterruptControl.CortexM.GetNvicIserMask | interrupt_handling.c:581-587 | returns the enable set and gives PRIMASK back |
| InterruptControl.CortexM.IsNvicIserMaskDisabled | interrupt_handling.c:598-618 | true if and only if no line of the argument is enabled; equals the word loop run from word 0 |
| InterruptControl.CortexM.IsInIrqContext | interrupt_handling.c:485-491 | true exactly when VECTACTIVE is non-zero |
| InterruptControl.CortexM.IsIRQnDisabled | interrupt_handling.c:629-646 | false exactly for an interrupt number whose line is enabled; every exception and invalid number reports disabled |
| InterruptControl.CortexM.IsIRQnBlocked | interrupt_handling.c:502-547 | for numbers from MemoryManagement_IRQn up to 0xF0, blocked if and only if any of these holds: PRIMASK is set; the line is not enabled; BASEPRI is non-zero and the priority is at least BASEPRI >> shift; a handler is active whose priority is at most the line's. Every exception number is blocked |
| InterruptControl.CortexM.AreAllIRQnsDisabled | interrupt_handling.c:558-570 | when PRIMASK is clear, the query is true only if BASEPRI is non-zero |
| InterruptControl.CortexM.AllAtThresholdDisabled | interrupt_handling.c:563-564 | the corrected all-disabled query: with PRIMASK clear it holds only when BASEPRI is non-zero and the priority it masks from is at most `basePriLevel`; it holds inside a threshold section |
| InterruptControl.CortexM.GetIRQnHandler | interrupt_handling.c:657-682 | an invalid number gives NULL |
| InterruptControl.CortexM.SetIRQnHandler | interrupt_handling.c:693-699 | for a valid number, a later get returns the handler. No other slot changes, and no other number's handler changes; for an invalid number nothing changes |
| InterruptControl.ThresholdSectionBlocksIff | interrupt_handling.c:526-534 | inside a threshold section, in thread mode with PRIMASK clear, an enabled interrupt is blocked if and only if its priority is numerically at least `basePriLevel` |
| InterruptControl.UnmaskedBlocksOnlyDisabled | interrupt_handling.c:515-547 | with PRIMASK and BASEPRI clear and no handler active, a number is blocked if and only if it is disabled |
| InterruptControl.AreAllIRQnsDisabledAboveThreshold | interrupt_handling.c:563-564 | when BASEPRI is above the threshold value, the all-disabled query can say true while an enabled interrupt at the threshold level is not blocked |
| InterruptControl.AllAtThresholdDisabledBlocks | interrupt_handling.c:558-570 | when the corrected query holds, every accepted number at or below the threshold priority is blocked |
| InterruptControl.AllDisabledQueriesAgree | interrupt_handling.c:563-564 | the written and the corrected query agree whenever PRIMASK is set, BASEPRI is 0, or BASEPRI is the threshold value |
| Sections.Perform | interrupt_handling.h:70-100 | a library call keeps the class invariant. Only the PRIMASK set/clear calls change PRIMASK, only the threshold disable/enable calls change BASEPRI, and only the line disable/enable calls change the enable set |
| Sections.Run | interrupt_handling.h:26-63 | NO_INTERRUPTS_SECTION and THREAD_SAFE_SECTION give back PRIMASK and BASEPRI however deeply they nest, unless the body sets or clears that register outright. A SPECIFIC_INTERRUPT_DISABLED_SECTION ends with none of the previously enabled lines enabled |
| Sections.RunSpecificInterruptDisabledSectionRestoring | interrupt_handling.h:53-63 | with the snapshot written back to ISER on exit, no previously enabled line is lost, and the enable set ends as it began when the body leaves the lines alone |
| Sections.NestedCriticalSections | interrupt_handling.c:70-94 | in nested PRIMASK sections, PRIMASK is still set after the inner exit and back to its first value after the outer exit |
| Sections.NestedThresholdSections | interrupt_handling.c:243-273 | in nested threshold sections, BASEPRI is still the threshold after the inner exit and back to its first value after the outer exit |

## Left out

- The Cortex-M0 `#else` branches are not modelled. These are the PRIMASK fallbacks of the threshold routines, the narrower ASSERT, `basePriLevel = -1` and the lowest priority 3. Only the Cortex-M3-and-later configuration is modelled.
- `__WEAK` overridability is a link-time concern and is not modelled.
- `__ISB` and the handlers that run in the unmasked window are not modelled. The model records only the masking in force at the barrier, in the ghost `windows` log. Pending state and handler execution are not part of the model.
- `NVIC_GetPriority` is modelled as the fixed function `CortexM.prio`, and `SCB->ICSR` VECTACTIVE as the field `vectactive`. The library never writes either one.
- The raw pointer casts onto `NVIC->ISER/ICER` and the `SCB->VTOR` base address are modelled as the field `enabled` and the array `vt`. Handler pointers are 32-bit addresses, and NULL is 0.
- The start state's vector table is all NULL. A real table holds the initial stack pointer in slot 0 and the reset handler in slot 1, and the library reads and writes the table but never sets it up.
- `BASEPRI_START_BIT` (8 - `__NVIC_PRIO_BITS`) is the parameter `shift`, of at most 5. `__NVIC_PRIO_BITS` comes from the vendor header, which is not part of this model.
- Preemption between the library's register accesses is not modelled. Each routine is one sequential step, and only the PRIMASK save/restore of NO_INTERRUPTS_SECTION is modelled.
- The `ASSERT` hang loop of `IRQ_IsIRQnBlocked` becomes its precondition.
- InterruptControl.CortexM.SetBasepri: keeps all eight bits written. On real parts, the bits below `BASEPRI_START_BIT` read as zero. The library only writes 0 and `basePriLevel << BASEPRI_START_BIT`, and those values have no such bits, so the difference only shows for a saved state that was not read from BASEPRI.
- InterruptControl.CortexM.TriggerSpecificPendingInterrupts: its loop counter, uninitialised at interrupt_handling.c:424, is modelled as starting at 0. An as-written member exists only for the same defect in `NVIC_IsNvicIserMaskDisabled`.
- InterruptControl.CortexM.TriggerPendingInterruptsByThreshold: models the `>=` comparison of interrupt_handling.c:326 as written. It compares the same way as `IRQ_AreAllIRQnsDisabled`, and no corrected variant is modelled.
- `PRIMASK_EnterNoInterruptsSection` / `PRIMASK_ExitNoInterruptsSection`, which the header macros call, are modelled as `PRIMASK_EnterCriticalSection` / `PRIMASK_ExitCriticalSection`.
- `BASEPRI_EnterThreadSafeSection` / `BASEPRI_ExitThreadSafeSection` are modelled as the threshold-section enter/exit. `DECLARE_NVIC_STATE` is modelled as a local mask. These names are defined nowhere in the library.
- `IRQn_Type` is modelled as an unbounded integer, and the `(int16_t)` and `(uint8_t)` conversions are written out.

## Findings

| source | as written | input that shows it | evidently intended | confidence | as-written member | corrected member |
|---|---|---|---|---|---|---|
| interrupt_handling.c:563-564 | reports "all disabled" when BASEPRI is at or above the threshold value. A larger BASEPRI masks fewer priorities | `__NVIC_PRIO_BITS` 4, `basePriLevel` 3, BASEPRI 0x70, PRIMASK clear, thread mode, enabled interrupt 5 of priority 3: the query returns true while `IRQ_IsIRQnBlocked(5)` returns false | true when BASEPRI is non-zero and at most the threshold value, so that every priority at or below the threshold is masked | medium; not executed | InterruptControl.AreAllIRQnsDisabledAboveThreshold | InterruptControl.AllAtThresholdDisabledBlocks |
| interrupt_handling.h:53-63 with interrupt_handling.c:365-368 | the section exit hands the enable-set snapshot to a routine that disables those lines | line 3 enabled, section over line 5: after the section, line 3 is disabled and line 5 is still disabled | exit writes the snapshot back to ISER, so the lines enabled before the section are enabled again | high; not executed | NvicMask.DisableSnapshotLeavesNone | Sections.RunSpecificInterruptDisabledSectionRestoring |
| interrupt_handling.c:608 | the word loop's `size_t i` is never initialised | an indeterminate counter of 8 or more, and both masks holding line 0: `NVIC_IsNvicIserMaskDisabled` returns true | the loop starts at word 0 | high; not executed | NvicMask.UninitialisedCounterMissesSharedLine | InterruptControl.CortexM.IsNvicIserMaskDisabled |
