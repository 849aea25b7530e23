/** The kernel stays mapped: every process's page directory has the kernel's pages, and the active
    directory is always the running process's. */
module KernelMapping {
  import opened Words
  import opened Paging
  import opened Kernel
  import opened KernelInvariant
  import opened KernelRuns
  import opened KernelFrames

  /** The program's pages end before the kernel's first one. */
  predicate BelowKernel(p: Program) {
    p.buf / PAGE_FRAME_SIZE + FramesNeeded(p.size) - 1 <= 0x300
  }

  /** A create hands out a directory that maps the kernel if and only if the program does not reach
      up to it; the code only asks where the program begins. */
  lemma CreatedMapsKernel(m: Machine, p: Program)
    requires Creatable(m, p) && Refusal(m, p) == SUCCESS
    ensures MapsKernel(Create(m, p, 0).0.dirs[FirstUnused(m.dirUsed, 0)]) <==> BelowKernel(p)
  {
    var d := FirstUnused(m.dirUsed, 0);
    CreatedPages(m, p, 0x300);
    CreatedPages(m, p, 0x301);
    CreatedPages(m, p, 0x3F4);
    CreatedPages(m, p, 0x3F5);
    CreatedPages(m, p, 0x3F6);
    NewDirectoryMapsKernel(m.dirs[d]);
  }

  /** Live slot `i` runs on a directory that maps the kernel. */
  ghost predicate SlotMaps(m: Machine, i: int)
    requires 0 <= i < PROCESS_COUNT_MAX
  {
    var d := m.procs[i].context.pageDirectory;
    m.procs[i].Live() ==> d.DirectoryAt? && d.index < DIRECTORY_MAX_COUNT && MapsKernel(m.dirs[d.index])
  }

  ghost predicate KernelMapped(m: Machine) {
    && (forall i {:trigger SlotMaps(m, i)} :: 0 <= i < PROCESS_COUNT_MAX ==> SlotMaps(m, i))
    && (0 <= m.current < PROCESS_COUNT_MAX ==> m.cr3 == m.procs[m.current].context.pageDirectory)
  }

  ghost predicate KeepsBelow(e: Event) {
    e.CreateEvent? ==> BelowKernel(e.program)
  }

  lemma CreateSlotMaps(m: Machine, p: Program, i: nat)
    requires Going(m) && Allowed(m, CreateEvent(p, 0)) && KernelMapped(m) && BelowKernel(p) && i < PROCESS_COUNT_MAX
    requires Refusal(m, p) == SUCCESS
    ensures Creatable(m, p) && SlotMaps(Create(m, p, 0).0, i)
  {
    CreatedProcess(m, p);
    RoomForOneMore(m);
    if i == FirstTerminated(m.procs, 0) {
      CreatedMapsKernel(m, p);
    } else {
      assert SlotMaps(m, i);
      if m.procs[i].Live() {
        CreateKeepsDirectory(m, p, m.procs[i].context.pageDirectory.index);
      }
    }
  }

  lemma CreateKeepsDirectory(m: Machine, p: Program, d: nat)
    requires Creatable(m, p) && Refusal(m, p) == SUCCESS && d < DIRECTORY_MAX_COUNT && m.dirUsed[d]
    ensures Create(m, p, 0).0.dirs[d] == m.dirs[d]
  {
  }

  lemma UnreadableSlotMaps(m: Machine, p: Program, readCode: int, i: nat)
    requires Going(m) && Allowed(m, CreateEvent(p, readCode)) && KernelMapped(m) && i < PROCESS_COUNT_MAX
    requires Refusal(m, p) == SUCCESS && readCode != 0
    ensures Creatable(m, p) && SlotMaps(Create(m, p, readCode).0, i)
  {
    UnreadableCreate(m, p, readCode);
    RoomForOneMore(m);
    EnteredKeepsInvariant(m, p);
    DestroyReleases(Entered(m, p), m.nextPid, FirstTerminated(m.procs, 0));
    assert SlotMaps(m, i);
  }

  lemma CreateKeepsKernelMapped(m: Machine, p: Program, readCode: int)
    requires Going(m) && Allowed(m, CreateEvent(p, readCode)) && KernelMapped(m) && BelowKernel(p)
    ensures Creatable(m, p) && KernelMapped(Create(m, p, readCode).0)
  {
    CreateKeepsInvariant(m, p, readCode);
    CreateKeepsSlot(m, p, readCode, m.current);
    if Refusal(m, p) == SUCCESS {
      forall i | 0 <= i < PROCESS_COUNT_MAX ensures SlotMaps(Create(m, p, readCode).0, i) {
        if readCode == 0 { CreateSlotMaps(m, p, i); } else { UnreadableSlotMaps(m, p, readCode, i); }
      }
      if readCode == 0 { CreatedProcess(m, p); } else { UnreadableCreate(m, p, readCode); }
    }
  }

  lemma KillKeepsKernelMapped(m: Machine, pid: uint32)
    requires Going(m) && Allowed(m, KillEvent(pid)) && KernelMapped(m)
    ensures CanDestroy(m, pid) && KernelMapped(Destroy(m, pid).0)
  {
    DestroyKeepsInvariant(m, pid);
    var n := FindPid(m.procs, pid, 0);
    if n < PROCESS_COUNT_MAX {
      DestroyNamesOne(m, pid, n);
      DestroyReleases(m, pid, n);
      forall i | 0 <= i < PROCESS_COUNT_MAX ensures SlotMaps(Destroy(m, pid).0, i) {
        OtherSlotMaps(m, Destroy(m, pid).0, n, m.procs[n].context.pageDirectory.index, i);
      }
    }
  }

  /** With slot `n` zeroed, the others, on other directories, are as they were. */
  lemma OtherSlotMaps(m: Machine, k: Machine, n: nat, d: nat, i: nat)
    requires DirectoriesOK(m) && KernelMapped(m) && i < PROCESS_COUNT_MAX && Owns(m, n, d)
    requires k.procs == m.procs[n := ZERO_PCB] && forall e :: 0 <= e < DIRECTORY_MAX_COUNT && e != d ==> k.dirs[e] == m.dirs[e]
    ensures SlotMaps(k, i)
  {
    assert SlotMaps(m, i);
    assert i != n && m.procs[i].Live() ==> Owns(m, i, m.procs[i].context.pageDirectory.index);
  }

  lemma TimerKeepsKernelMapped(m: Machine, f: Frame)
    requires Going(m) && KernelMapped(m)
    ensures CanTick(m) && KernelMapped(Timer(m, f))
  {
    TimerKeepsInvariant(m, f);
    TimerKeepsDirectories(m, f);
    forall i | 0 <= i < PROCESS_COUNT_MAX ensures SlotMaps(Timer(m, f), i) {
      assert SlotMaps(m, i);
    }
  }

  /** The timer changes no directory and moves no process to another one; a switch activates the
      chosen process's. */
  lemma TimerKeepsDirectories(m: Machine, f: Frame)
    requires Going(m) && KernelMapped(m)
    ensures CanTick(m)
    ensures var k := Timer(m, f);
      && k.dirs == m.dirs && 0 <= k.current < PROCESS_COUNT_MAX && k.cr3 == k.procs[k.current].context.pageDirectory
      && forall i :: 0 <= i < PROCESS_COUNT_MAX ==>
           k.procs[i].Live() == m.procs[i].Live() && k.procs[i].context.pageDirectory == m.procs[i].context.pageDirectory
  {
    RunningCanSwitch(m);
    if Preempts(m) {
      SavedKeepsInvariant(m, f);
      SavedSwitches(m, f);
      SwitchKeepsDirectories(Ticked(m).(procs := Saved(m, f)));
      SavedSlots(m, f);
    }
  }

  lemma SwitchKeepsDirectories(m: Machine)
    requires Invariant(m) && CanSwitch(m)
    ensures var k := Switch(m);
      && k.dirs == m.dirs && 0 <= k.current < PROCESS_COUNT_MAX && k.cr3 == k.procs[k.current].context.pageDirectory
      && forall i :: 0 <= i < PROCESS_COUNT_MAX ==>
           k.procs[i].Live() == m.procs[i].Live() && k.procs[i].context.pageDirectory == m.procs[i].context.pageDirectory
  {
    SwitchKeepsInvariant(m);
  }

  /** Over every run whose programs stay below the kernel, every process has the kernel mapped,
      and the directory in CR3 is the running process's: so it maps the kernel at every moment. */
  lemma {:induction false} RunKeepsKernelMapped(m: Machine, es: seq<Event>)
    requires Going(m) && AllowedRun(m, es) && KernelMapped(m) && forall i :: 0 <= i < |es| ==> KeepsBelow(es[i])
    ensures var k := Run(m, es);
      KernelMapped(k) && k.cr3.DirectoryAt? && k.cr3.index < DIRECTORY_MAX_COUNT && MapsKernel(k.dirs[k.cr3.index])
  {
    RunKeepsInvariant(m, es);
    if es != [] {
      var before, e := es[..|es| - 1], es[|es| - 1];
      RunKeepsKernelMapped(m, before);
      RunKeepsInvariant(m, before);
      StepKeepsInvariant(Run(m, before), e);
      match e
      case CreateEvent(p, readCode) => CreateKeepsKernelMapped(Run(m, before), p, readCode);
      case KillEvent(pid) => KillKeepsKernelMapped(Run(m, before), pid);
      case TimerEvent(f) => TimerKeepsKernelMapped(Run(m, before), f);
    }
    assert SlotMaps(Run(m, es), Run(m, es).current);
  }

  /** The machine the kernel starts with, once the first process runs. */
  lemma BootMapsKernel(dirs: Directories, p: Program)
    requires Refusal(Initial(dirs), p) == SUCCESS && FramesNeeded(p.size) >= 1 && BelowKernel(p)
    ensures Creatable(Initial(dirs), p)
    ensures var m := Create(Initial(dirs), p, 0).0; CanSwitch(m) && KernelMapped(Switch(m))
  {
    BootStarts(dirs, p);
    InitialOK(dirs);
    assert LiveSlots(Initial(dirs).procs) == {};
    CreatedProcess(Initial(dirs), p);
    CreatedMapsKernel(Initial(dirs), p);
    var m := Create(Initial(dirs), p, 0).0;
    CreateKeepsInvariant(Initial(dirs), p, 0);
    SwitchKeepsInvariant(m);
    forall i | 0 <= i < PROCESS_COUNT_MAX ensures SlotMaps(Switch(m), i) {
    }
  }
}
