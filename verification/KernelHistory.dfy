/** What a process finds in its registers when it runs again, told from the events of a run. */
module KernelHistory {
  import opened Words
  import opened Paging
  import opened Kernel
  import opened KernelInvariant
  import opened KernelRuns

  datatype LastSaved = Never | At(frame: Frame)

  /** The event creates the process with this pid. */
  ghost predicate Creates(m: Machine, e: Event, pid: uint32) {
    e.CreateEvent? && Refusal(m, e.program) == SUCCESS && e.readCode == 0 && pid == m.nextPid
  }

  /** The event takes the processor from the process with this pid. */
  ghost predicate Interrupts(m: Machine, e: Event, pid: uint32) {
    Switches(m, e) && 0 <= m.current < PROCESS_COUNT_MAX && m.procs[m.current].pid == pid
  }

  /** The frame of a process's last preemption since its creation. */
  ghost function LastFrame(m: Machine, es: seq<Event>, pid: uint32): LastSaved {
    if es == [] then Never
    else
      var before, e := es[..|es| - 1], es[|es| - 1];
      var k := Run(m, before);
      if Creates(k, e, pid) then Never
      else if Interrupts(k, e, pid) then At(e.frame)
      else LastFrame(m, before, pid)
  }

  /** The context a process was created with, or had when the run began. */
  ghost function FirstContext(m: Machine, es: seq<Event>, pid: uint32): Context {
    if es == [] then (var i := FindPid(m.procs, pid, 0); if i < PROCESS_COUNT_MAX then m.procs[i].context else ZERO_CONTEXT)
    else
      var before, e := es[..|es| - 1], es[|es| - 1];
      var k := Run(m, before);
      if Creates(k, e, pid) then CreationContext(FirstUnused(k.dirUsed, 0)) else FirstContext(m, before, pid)
  }

  /** The context a process should resume with. */
  ghost function Expected(m: Machine, es: seq<Event>, pid: uint32): Context {
    match LastFrame(m, es, pid)
    case Never => FirstContext(m, es, pid)
    case At(f) => Overlay(FirstContext(m, es, pid), f)
  }

  // ---- No step for one process touches another's context ----

  lemma CreateContexts(m: Machine, p: Program, readCode: int, i: nat)
    requires Going(m) && Allowed(m, CreateEvent(p, readCode)) && i < PROCESS_COUNT_MAX
    ensures Creatable(m, p)
    ensures var k := Create(m, p, readCode).0;
      k.procs[i].Live() ==>
        if m.procs[i].Live() then k.procs[i] == m.procs[i]
        else Creates(m, CreateEvent(p, readCode), k.procs[i].pid) && k.procs[i].context == CreationContext(FirstUnused(m.dirUsed, 0))
  {
    CreateKeepsInvariant(m, p, readCode);
    if Refusal(m, p) == SUCCESS {
      EnteredKeepsInvariant(m, p);
      if readCode != 0 {
        DestroyNamesOne(Entered(m, p), m.nextPid, FirstTerminated(m.procs, 0));
      } else {
        StartedSlot(Entered(m, p), FirstTerminated(m.procs, 0), i);
      }
    }
  }

  lemma StartedSlot(m: Machine, n: nat, i: nat)
    requires n < PROCESS_COUNT_MAX && i < PROCESS_COUNT_MAX
    ensures Started(m, n).procs[i] == if i == n then m.procs[i].(context := WithStack(m.procs[i].context)) else m.procs[i]
  {
  }

  lemma TimerContexts(m: Machine, f: Frame, i: nat)
    requires Going(m) && i < PROCESS_COUNT_MAX
    ensures CanTick(m)
    ensures var k := Timer(m, f);
      && k.procs[i].Live() == m.procs[i].Live() && k.procs[i].pid == m.procs[i].pid
      && k.procs[i].context == if Preempts(m) && i == m.current then Overlay(m.procs[i].context, f) else m.procs[i].context
  {
    RunningCanSwitch(m);
    if Preempts(m) {
      SavedKeepsInvariant(m, f);
      SavedSwitches(m, f);
      SwitchKeepsInvariant(Ticked(m).(procs := Saved(m, f)));
    }
  }

  lemma KillContexts(m: Machine, pid: uint32, i: nat)
    requires Going(m) && i < PROCESS_COUNT_MAX
    ensures CanDestroy(m, pid)
    ensures Destroy(m, pid).0.procs[i].Live() ==> Destroy(m, pid).0.procs[i] == m.procs[i]
  {
    DestroyAllowed(m, pid);
  }

  // ---- Which register lands where ----

  /** The thirteen registers the timer copies are those of the frame. */
  predicate Carries(c: Registers, f: Frame) {
    && c.eax == f.eax && c.ebx == f.ebx && c.ecx == f.ecx && c.edx == f.edx
    && c.esp == f.esp && c.ebp == f.ebp && c.edi == f.edi && c.esi == f.esi
    && c.gs == f.gs && c.fs == f.fs && c.es == f.es && c.ds == f.ds && c.eip == f.eip
  }

  /** The three registers it does not copy are the same. */
  predicate SameRest(c: Registers, d: Registers) {
    c.cs == d.cs && c.ss == d.ss && c.eflags == d.eflags
  }

  /** A preemption stores every copied register of the interrupted process under its own name,
      keeps the rest of its context, and touches no other context. */
  lemma PreemptionSaves(m: Machine, f: Frame, i: nat)
    requires Going(m) && Preempts(m) && i < PROCESS_COUNT_MAX
    ensures CanTick(m)
    ensures var c, was := Timer(m, f).procs[i].context, m.procs[i].context;
      if i == m.current then Carries(c.cpu, f) && SameRest(c.cpu, was.cpu) && c.pageDirectory == was.pageDirectory
      else c == was
  {
    TimerContexts(m, f, i);
  }

  // ---- Over whole runs ----

  lemma FoundByPid(m: Machine, i: nat)
    requires Invariant(m) && i < PROCESS_COUNT_MAX && m.procs[i].Live()
    ensures FindPid(m.procs, m.procs[i].pid, 0) == i
  {
  }

  /** What one event does to a live slot: the process is new, or was interrupted, or keeps its
      context; and it was live under the same pid unless it is new. */
  lemma StepContext(m: Machine, e: Event, i: nat)
    requires Going(m) && Allowed(m, e) && i < PROCESS_COUNT_MAX && Step(m, e).procs[i].Live()
    ensures var q, p := Step(m, e).procs[i], m.procs[i];
      if Creates(m, e, q.pid) then q.context == CreationContext(FirstUnused(m.dirUsed, 0))
      else
        && p.Live() && q.pid == p.pid
        && q.context == if Interrupts(m, e, q.pid) then Overlay(p.context, e.frame) else p.context
  {
    StepKeepsInvariant(m, e);
    match e
    case CreateEvent(p, readCode) => CreateContexts(m, p, readCode, i);
    case KillEvent(victim) => KillContexts(m, victim, i);
    case TimerEvent(f) =>
      TimerContexts(m, f, i);
      OnlyCurrentInterrupted(m, e, i);
  }

  /** At any point of any run, every live process's saved context is the one it was created
      with, with the copied registers replaced by those of its own last preemption. */
  lemma {:induction false} ContextsAreOwn(m: Machine, es: seq<Event>, i: nat)
    requires Going(m) && AllowedRun(m, es) && i < PROCESS_COUNT_MAX && Run(m, es).procs[i].Live()
    ensures Run(m, es).procs[i].context == Expected(m, es, Run(m, es).procs[i].pid)
  {
    if es == [] {
      FoundByPid(m, i);
    } else {
      var before, e := es[..|es| - 1], es[|es| - 1];
      var k := Run(m, before);
      RunKeepsInvariant(m, before);
      StepContext(k, e, i);
      if !Creates(k, e, Run(m, es).procs[i].pid) {
        ContextsAreOwn(m, before, i);
      }
    }
  }

  lemma OnlyCurrentInterrupted(m: Machine, e: Event, i: nat)
    requires Going(m) && i < PROCESS_COUNT_MAX && m.procs[i].Live()
    ensures Interrupts(m, e, m.procs[i].pid) <==> Switches(m, e) && i == m.current
  {
  }

  /** Whenever a switch resumes a process, the active page directory is its own and the context
      handed to the processor is the expected one. */
  lemma ResumedContext(m: Machine, es: seq<Event>)
    requires Going(m) && AllowedRun(m, es) && es != []
    requires Switches(Run(m, es[..|es| - 1]), es[|es| - 1])
    ensures var k := Run(m, es);
      && 0 <= k.current < PROCESS_COUNT_MAX && k.procs[k.current].state == RUNNING
      && k.procs[k.current].context == Expected(m, es, k.procs[k.current].pid)
      && k.cr3 == k.procs[k.current].context.pageDirectory
  {
    var before, e := es[..|es| - 1], es[|es| - 1];
    var b := Run(m, before);
    RunKeepsInvariant(m, before);
    RunKeepsInvariant(m, es);
    ContextsAreOwn(m, es, Run(m, es).current);
    RunningCanSwitch(b);
    SavedKeepsInvariant(b, e.frame);
    SavedSwitches(b, e.frame);
    SwitchKeepsInvariant(Ticked(b).(procs := Saved(b, e.frame)));
    TimerContexts(b, e.frame, Run(m, es).current);
  }

  /** Registers after any run: of a process that was preempted since it was created, the copied
      ones are those of its last preemption and the others those of its first context; any other
      process has its first context whole. */
  lemma RegistersAreOwn(m: Machine, es: seq<Event>, i: nat)
    requires Going(m) && AllowedRun(m, es) && i < PROCESS_COUNT_MAX && Run(m, es).procs[i].Live()
    ensures var p := Run(m, es).procs[i];
      match LastFrame(m, es, p.pid)
      case Never => p.context == FirstContext(m, es, p.pid)
      case At(f) => Carries(p.context.cpu, f) && SameRest(p.context.cpu, FirstContext(m, es, p.pid).cpu)
                    && p.context.pageDirectory == FirstContext(m, es, p.pid).pageDirectory
  {
    ContextsAreOwn(m, es, i);
  }

  /** A process resumed by a switch after having been preempted finds every copied register as it
      was at its own last preemption, whatever ran in between. */
  lemma ResumedRegisters(m: Machine, es: seq<Event>)
    requires Going(m) && AllowedRun(m, es) && es != []
    requires Switches(Run(m, es[..|es| - 1]), es[|es| - 1])
    ensures var k := Run(m, es);
      && 0 <= k.current < PROCESS_COUNT_MAX && k.cr3 == k.procs[k.current].context.pageDirectory
      && match LastFrame(m, es, k.procs[k.current].pid)
         case Never => k.procs[k.current].context == FirstContext(m, es, k.procs[k.current].pid)
         case At(f) => Carries(k.procs[k.current].context.cpu, f)
  {
    ResumedContext(m, es);
  }
}
