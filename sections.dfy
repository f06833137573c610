/** The bracketing macros of `interrupt_handling.h`: NO_INTERRUPTS_SECTION,
    THREAD_SAFE_SECTION and SPECIFIC_INTERRUPT_DISABLED_SECTION. Each declares a
    state variable, stores the enter routine's result in it, runs the bracketed
    statements and hands the same variable to the exit routine. The bracketed
    statements are written as a Block of library calls, so that sections can
    nest. */
module Sections {
  import opened NvicMask
  import opened InterruptControl

  /** One call of a library routine that changes register state. */
  datatype Call =
    | DisableIrq
    | EnableIrq
    | TriggerPendingInterrupts
    | SetPriorityLevelThreshold(level: uint8)
    | DisableIrqByThreshold
    | EnableIrqByThreshold
    | TriggerPendingInterruptsByThreshold
    | DisableSpecificInterrupts(lines: Mask)
    | EnableSpecificInterrupts(lines: Mask)
    | TriggerSpecificPendingInterrupts(lines: Mask)
    | SetIRQnHandler(irqNum: int, handler: uint32)

  /** Statements built from library calls and the three section macros. */
  datatype Block =
    | Skip
    | Then(first: Block, rest: Block)
    | Do(call: Call)
    | NoInterruptsSection(body: Block)
    | ThreadSafeSection(body: Block)
    | SpecificInterruptDisabledSection(mask: Mask, body: Block)

  /** The block never calls PRIMASK_DisableIrq or PRIMASK_EnableIrq. */
  predicate KeepsPrimask(b: Block) {
    match b
    case Skip => true
    case Then(first, rest) => KeepsPrimask(first) && KeepsPrimask(rest)
    case Do(call) => !(call.DisableIrq? || call.EnableIrq?)
    case NoInterruptsSection(body) => KeepsPrimask(body)
    case ThreadSafeSection(body) => KeepsPrimask(body)
    case SpecificInterruptDisabledSection(_, body) => KeepsPrimask(body)
  }

  /** The block never calls BASEPRI_DisableIrqByThreshold or BASEPRI_EnableIrqByThreshold
      outside a threshold section. */
  predicate KeepsBasepri(b: Block) {
    match b
    case Skip => true
    case Then(first, rest) => KeepsBasepri(first) && KeepsBasepri(rest)
    case Do(call) => !(call.DisableIrqByThreshold? || call.EnableIrqByThreshold?)
    case NoInterruptsSection(body) => KeepsBasepri(body)
    case ThreadSafeSection(_) => true
    case SpecificInterruptDisabledSection(_, body) => KeepsBasepri(body)
  }

  /** The block neither enables nor disables NVIC lines for good: no line
      enable/disable call and no specific-interrupt section. */
  predicate KeepsLines(b: Block) {
    match b
    case Skip => true
    case Then(first, rest) => KeepsLines(first) && KeepsLines(rest)
    case Do(call) => !(call.DisableSpecificInterrupts? || call.EnableSpecificInterrupts?)
    case NoInterruptsSection(body) => KeepsLines(body)
    case ThreadSafeSection(body) => KeepsLines(body)
    case SpecificInterruptDisabledSection(_, _) => false
  }

  /** One library call. */
  method Perform(cpu: CortexM, call: Call)
    requires cpu.Valid()
    modifies cpu`primask, cpu`basepri, cpu`enabled, cpu`basePriLevel, cpu`windows, cpu.vt
    ensures cpu.Valid()
    ensures !(call.DisableIrq? || call.EnableIrq?) ==> cpu.primask == old(cpu.primask)
    ensures !(call.DisableIrqByThreshold? || call.EnableIrqByThreshold?) ==> cpu.basepri == old(cpu.basepri)
    ensures !(call.DisableSpecificInterrupts? || call.EnableSpecificInterrupts?) ==> cpu.enabled == old(cpu.enabled)
  {
    match call
    case DisableIrq => cpu.DisableIrq();
    case EnableIrq => cpu.EnableIrq();
    case TriggerPendingInterrupts => cpu.TriggerPendingInterrupts();
    case SetPriorityLevelThreshold(level) =>
      var _ := cpu.SetPriorityLevelThreshold(level);
    case DisableIrqByThreshold => cpu.DisableIrqByThreshold();
    case EnableIrqByThreshold => cpu.EnableIrqByThreshold();
    case TriggerPendingInterruptsByThreshold => cpu.TriggerPendingInterruptsByThreshold();
    case DisableSpecificInterrupts(lines) => cpu.DisableSpecificInterrupts(lines);
    case EnableSpecificInterrupts(lines) => cpu.EnableSpecificInterrupts(lines);
    case TriggerSpecificPendingInterrupts(lines) => cpu.TriggerSpecificPendingInterrupts(lines);
    case SetIRQnHandler(irqNum, handler) => cpu.SetIRQnHandler(irqNum, handler);
  }

  /** Runs a block. A PRIMASK section gives PRIMASK back and a threshold section
      gives BASEPRI back, however deeply they nest, as long as the bracketed
      statements do not set or clear that register outright. A specific-interrupt
      section, as the header writes it, hands the enable-set snapshot to the exit
      routine, which disables those lines: afterwards none of the lines enabled
      before the section is enabled. */
  method Run(cpu: CortexM, b: Block)
    requires cpu.Valid()
    modifies cpu`primask, cpu`basepri, cpu`enabled, cpu`basePriLevel, cpu`windows, cpu.vt
    ensures cpu.Valid()
    ensures KeepsPrimask(b) ==> cpu.primask == old(cpu.primask)
    ensures KeepsBasepri(b) ==> cpu.basepri == old(cpu.basepri)
    ensures KeepsLines(b) ==> cpu.enabled == old(cpu.enabled)
    ensures b.SpecificInterruptDisabledSection? ==> Members(cpu.enabled) * Members(old(cpu.enabled)) == {}
    decreases b
  {
    match b
    case Skip =>
    case Then(first, rest) =>
      Run(cpu, first);
      Run(cpu, rest);
    case Do(call) =>
      Perform(cpu, call);
    case NoInterruptsSection(body) =>
      var irqState := cpu.EnterCriticalSection();
      Run(cpu, body);
      cpu.ExitCriticalSection(irqState);
    case ThreadSafeSection(body) =>
      var irqState := cpu.EnterInterruptsDisabledByThresholdSection();
      Run(cpu, body);
      cpu.ExitInterruptsDisabledByThresholdSection(irqState);
    case SpecificInterruptDisabledSection(mask, body) =>
      var nvicMask := cpu.EnterSpecificInterruptDisabledSection(mask);
      Run(cpu, body);
      cpu.ExitSpecificInterruptDisabledSection(nvicMask);
  }

  /** The specific-interrupt section with a restoring exit: the snapshot is
      written back to ISER, so the enable set ends as it began when the
      bracketed statements leave the lines alone. */
  method RunSpecificInterruptDisabledSectionRestoring(cpu: CortexM, mask: Mask, body: Block)
    requires cpu.Valid()
    modifies cpu`primask, cpu`basepri, cpu`enabled, cpu`basePriLevel, cpu`windows, cpu.vt
    ensures cpu.Valid()
    ensures KeepsLines(body) ==> cpu.enabled == old(cpu.enabled)
    ensures Members(old(cpu.enabled)) <= Members(cpu.enabled)
  {
    var nvicMask := cpu.EnterSpecificInterruptDisabledSection(mask);
    Run(cpu, body);
    cpu.EnableSpecificInterrupts(nvicMask);
    if KeepsLines(body) {
      EnableUndoesDisable(nvicMask, mask);
    }
  }

  /** Two nested PRIMASK sections: PRIMASK stays set after the inner exit and is
      back to its first value after the outer one. */
  method NestedCriticalSections(cpu: CortexM) returns (inside: PrimaskBit, afterInner: PrimaskBit)
    modifies cpu`primask
    ensures inside == 1 && afterInner == 1
    ensures cpu.primask == old(cpu.primask)
  {
    var outerState := cpu.EnterCriticalSection();
    var innerState := cpu.EnterCriticalSection();
    inside := cpu.primask;
    cpu.ExitCriticalSection(innerState);
    afterInner := cpu.primask;
    cpu.ExitCriticalSection(outerState);
  }

  /** Two nested threshold sections: BASEPRI stays at the threshold after the inner
      exit and is back to its first value after the outer one. */
  method NestedThresholdSections(cpu: CortexM) returns (inside: uint8, afterInner: uint8)
    requires cpu.Valid()
    modifies cpu`basepri
    ensures inside == cpu.Threshold() && afterInner == cpu.Threshold()
    ensures cpu.basepri == old(cpu.basepri)
  {
    var outerState := cpu.EnterInterruptsDisabledByThresholdSection();
    var innerState := cpu.EnterInterruptsDisabledByThresholdSection();
    inside := cpu.basepri;
    cpu.ExitInterruptsDisabledByThresholdSection(innerState);
    afterInner := cpu.basepri;
    cpu.ExitInterruptsDisabledByThresholdSection(outerState);
  }
}
