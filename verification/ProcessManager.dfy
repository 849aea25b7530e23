/** process.c, scheduler.c, timer.c and paging.c themselves, over tables updated in place. Every
    procedure is proved against its description in Kernel and Paging. */
module ProcessManager {
  import opened Words
  import opened Paging
  import opened Kernel

  datatype Resumed = Returned | SwitchedTo(context: Context)

  class Manager {
    const processList: array<Pcb>
    const pageFrameMap: array<bool>
    const directoryUsed: array<bool>
    const directoryList: array<PageDirectory>
    var current: int
    var active: int
    var nextPid: int
    var freeFrames: uint32
    var cr3: Pointer
    var ticks: uint32
    var seconds: uint32

    ghost predicate Sized() {
      && processList.Length == PROCESS_COUNT_MAX && pageFrameMap.Length == PAGE_FRAME_MAX_COUNT
      && directoryUsed.Length == DIRECTORY_MAX_COUNT && directoryList.Length == DIRECTORY_MAX_COUNT
      && pageFrameMap != directoryUsed
    }

    ghost function Now(): Machine
      requires Sized()
      reads this, processList, pageFrameMap, directoryUsed, directoryList
    {
      Machine(processList[..], current, active, nextPid, pageFrameMap[..], freeFrames, directoryUsed[..], directoryList[..],
              cr3, ticks, seconds)
    }

    // ---- paging.c ----

    /** update_page_directory_entry, with the flags of a user page. */
    method MapUserPage(d: nat, frame: nat, address: uint32)
      requires Sized() && d < DIRECTORY_MAX_COUNT
      modifies directoryList
      ensures directoryList[..] == old(directoryList[..])[d := old(directoryList[d])[PageIndex(address) := UserPde(frame)]]
    {
      directoryList[d] := directoryList[d][PageIndex(address) := UserPde(frame)];
    }

    /** paging_allocate_user_page_frame. */
    method AllocateUserPageFrame(d: nat, address: uint32) returns (ok: bool)
      requires Sized() && d < DIRECTORY_MAX_COUNT
      modifies this`freeFrames, pageFrameMap, directoryList
      ensures ok <==> old(freeFrames) >= 1
      ensures var q := AllocateUser(Pool(old(pageFrameMap[..]), old(freeFrames), old(directoryList[d])), address);
        && pageFrameMap[..] == q.frames && freeFrames == q.free
        && directoryList[..] == old(directoryList[..])[d := q.dir]
    {
      if freeFrames < 1 {
        return false;
      }
      var i := 0;
      while i < PAGE_FRAME_MAX_COUNT && pageFrameMap[i]
        invariant 0 <= i <= PAGE_FRAME_MAX_COUNT
        invariant FirstUnused(pageFrameMap[..], 0) == FirstUnused(pageFrameMap[..], i)
      {
        i := i + 1;
      }
      if i < PAGE_FRAME_MAX_COUNT {
        pageFrameMap[i] := true;
        freeFrames := freeFrames - 1;
      }
      MapUserPage(d, i, address);
      return true;
    }

    /** paging_create_new_page_directory. */
    method CreateNewPageDirectory() returns (p: Pointer)
      requires Sized()
      modifies directoryUsed, directoryList
      ensures var d := FirstUnused(old(directoryUsed[..]), 0);
        if d < DIRECTORY_MAX_COUNT then
          && p == DirectoryAt(d)
          && directoryUsed[..] == old(directoryUsed[..])[d := true]
          && directoryList[..] == old(directoryList[..])[d := KernelOnly(old(directoryList[d]))]
        else p == Null && directoryUsed[..] == old(directoryUsed[..]) && directoryList[..] == old(directoryList[..])
    {
      var i := 0;
      while i < DIRECTORY_MAX_COUNT
        invariant 0 <= i <= DIRECTORY_MAX_COUNT
        invariant FirstUnused(directoryUsed[..], 0) == FirstUnused(directoryUsed[..], i)
        invariant directoryUsed[..] == old(directoryUsed[..]) && directoryList[..] == old(directoryList[..])
      {
        if !directoryUsed[i] {
          directoryUsed[i] := true;
          directoryList[i] := KernelOnly(directoryList[i]);
          return DirectoryAt(i);
        }
        i := i + 1;
      }
      return Null;
    }

    /** paging_free_page_directory. */
    method FreePageDirectory(p: Pointer) returns (ok: bool)
      requires Sized()
      modifies directoryUsed, directoryList
      ensures ok <==> p.DirectoryAt? && p.index < DIRECTORY_MAX_COUNT
      ensures ok ==>
        && directoryUsed[..] == old(directoryUsed[..])[p.index := false]
        && directoryList[..] == old(directoryList[..])[p.index := Cleared(old(directoryList[p.index]))]
      ensures !ok ==> directoryUsed[..] == old(directoryUsed[..]) && directoryList[..] == old(directoryList[..])
    {
      var i := 0;
      while i < DIRECTORY_MAX_COUNT
        invariant 0 <= i <= DIRECTORY_MAX_COUNT
        invariant forall j :: 0 <= j < i ==> p != DirectoryAt(j)
        invariant directoryUsed[..] == old(directoryUsed[..]) && directoryList[..] == old(directoryList[..])
      {
        if p == DirectoryAt(i) {
          directoryUsed[i] := false;
          directoryList[i] := Cleared(directoryList[i]);
          return true;
        }
        i := i + 1;
      }
      return false;
    }

    /** paging_free_user_page_frame. */
    method FreeUserPageFrame(d: nat, address: uint32)
      requires Sized() && d < DIRECTORY_MAX_COUNT
      modifies this`freeFrames, pageFrameMap
      ensures pageFrameMap[..] == old(pageFrameMap[..])[ReleasedFrame(directoryList[d], address) := false]
      ensures freeFrames == (old(freeFrames) + 1) % WORD_LIMIT
    {
      var physicalIndex := directoryList[d][PageIndex(address)].frame / PAGE_FRAME_SIZE;
      pageFrameMap[physicalIndex] := false;
      freeFrames := (freeFrames + 1) % WORD_LIMIT;
    }

    // ---- process.c ----

    /** process_list_get_inactive_index. */
    method GetInactiveIndex() returns (i: int)
      requires Sized()
      ensures i == if FirstTerminated(processList[..], 0) < PROCESS_COUNT_MAX then FirstTerminated(processList[..], 0) else -1
    {
      i := 0;
      while i < PROCESS_COUNT_MAX
        invariant 0 <= i <= PROCESS_COUNT_MAX
        invariant FirstTerminated(processList[..], 0) == FirstTerminated(processList[..], i)
      {
        if processList[i].state == TERMINATED {
          return;
        }
        i := i + 1;
      }
      return -1;
    }

    /** process_get_current_running_pcb_pointer, as an index; 16 for NULL. */
    method GetRunningIndex() returns (i: nat)
      requires Sized()
      ensures i == FirstRunning(processList[..], 0)
    {
      i := 0;
      while i < PROCESS_COUNT_MAX
        invariant 0 <= i <= PROCESS_COUNT_MAX
        invariant FirstRunning(processList[..], 0) == FirstRunning(processList[..], i)
      {
        if processList[i].state == RUNNING {
          return;
        }
        i := i + 1;
      }
    }

    /** The search loop of process_destroy. */
    method FindSlot(pid: uint32) returns (i: nat)
      requires Sized()
      ensures i == FindPid(processList[..], pid, 0)
    {
      i := 0;
      while i < PROCESS_COUNT_MAX
        invariant 0 <= i <= PROCESS_COUNT_MAX
        invariant FindPid(processList[..], pid, 0) == FindPid(processList[..], pid, i)
      {
        if processList[i].pid == pid && processList[i].state != TERMINATED {
          return;
        }
        i := i + 1;
      }
    }

    /** process_destroy. */
    method ProcessDestroy(pid: uint32) returns (ok: bool)
      requires Sized() && CanDestroy(Now(), pid)
      modifies this`active, this`freeFrames, processList, pageFrameMap, directoryUsed, directoryList
      ensures (Now(), ok) == Destroy(old(Now()), pid)
    {
      var i := FindSlot(pid);
      if i == PROCESS_COUNT_MAX {
        return false;
      }
      ok := Terminate(i);
    }

    /** The body of process_destroy for the slot it finds. */
    method Terminate(i: nat) returns (ok: bool)
      requires Sized() && i < PROCESS_COUNT_MAX
      requires processList[i].context.pageDirectory.DirectoryAt? && processList[i].context.pageDirectory.index < DIRECTORY_MAX_COUNT
      modifies this`active, this`freeFrames, processList, pageFrameMap, directoryUsed, directoryList
      ensures ok && processList[..] == old(processList[..])[i := ZERO_PCB] && active == old(active) - 1
      ensures var d := old(processList[i]).context.pageDirectory.index;
        && (pageFrameMap[..], freeFrames) ==
           ReleaseFrames(old(pageFrameMap[..]), old(freeFrames), old(directoryList[d]), old(processList[i]).frameCount)
        && directoryUsed[..] == old(directoryUsed[..])[d := false]
        && directoryList[..] == old(directoryList[..])[d := Cleared(old(directoryList[d]))]
    {
      var was := processList[i];
      processList[i] := was.(state := TERMINATED);
      ReleaseAll(was.context.pageDirectory.index, was.frameCount);
      var freed := FreePageDirectory(was.context.pageDirectory);
      if !freed {
        return false;
      }
      processList[i] := ZERO_PCB;
      active := active - 1;
      return true;
    }

    /** The loop of process_destroy that gives frames back. */
    method ReleaseAll(d: nat, frameCount: uint32)
      requires Sized() && d < DIRECTORY_MAX_COUNT
      modifies this`freeFrames, pageFrameMap
      ensures (pageFrameMap[..], freeFrames) == ReleaseFrames(old(pageFrameMap[..]), old(freeFrames), directoryList[d], frameCount)
    {
      var j := 0;
      while j < frameCount
        invariant 0 <= j <= frameCount
        invariant (pageFrameMap[..], freeFrames) == ReleaseFrames(old(pageFrameMap[..]), old(freeFrames), directoryList[d], j)
      {
        FreeUserPageFrame(d, 0);
        j := j + 1;
      }
    }

    /** The loop that maps the program, and the page of its stack. */
    method MapProcess(d: nat, base: uint32, needed: uint32)
      requires Sized() && d < DIRECTORY_MAX_COUNT && needed >= 1
      modifies this`freeFrames, pageFrameMap, directoryList
      ensures var q := AllocateProcess(Pool(old(pageFrameMap[..]), old(freeFrames), old(directoryList[d])), base, needed);
        && pageFrameMap[..] == q.frames && freeFrames == q.free
        && directoryList[..] == old(directoryList[..])[d := q.dir]
    {
      ghost var p := Pool(pageFrameMap[..], freeFrames, directoryList[d]);
      var i := 0;
      while i < needed - 1
        invariant 0 <= i <= needed - 1
        invariant AllocateCode(p, base, i) == Pool(pageFrameMap[..], freeFrames, directoryList[d])
        invariant directoryList[..] == old(directoryList[..])[d := directoryList[d]]
      {
        var _ := AllocateUserPageFrame(d, (base + i * PAGE_FRAME_SIZE) % WORD_LIMIT);
        i := i + 1;
      }
      var _ := AllocateUserPageFrame(d, STACK_PAGE);
    }

    /** process_create_user_process; `readCode` is what reading the program's file returns. */
    method ProcessCreate(p: Program, readCode: int) returns (code: int)
      requires Sized() && Creatable(Now(), p)
      modifies this, processList, pageFrameMap, directoryUsed, directoryList
      ensures (Now(), code) == Create(old(Now()), p, readCode)
    {
      if active >= PROCESS_COUNT_MAX {
        return MAX_PROCESS_EXCEEDED;
      }
      if p.buf >= KERNEL_VIRTUAL_ADDRESS_BASE {
        return INVALID_ENTRYPOINT;
      }
      var needed := CeilDiv((p.size + PAGE_FRAME_SIZE) % WORD_LIMIT, PAGE_FRAME_SIZE);
      if !(freeFrames >= needed) || needed > PROCESS_PAGE_FRAME_COUNT_MAX {
        return NOT_ENOUGH_MEMORY;
      }
      var index := Enter(p, needed);
      if readCode != 0 {
        var _ := ProcessDestroy(processList[index].pid);
        return FS_READ_FAILURE;
      }
      processList[index] := processList[index].(context := WithStack(processList[index].context));
      active := active + 1;
      return SUCCESS;
    }

    /** The part of a create between its checks and the file read. */
    method Enter(p: Program, needed: uint32) returns (index: nat)
      requires Sized() && CanCreate(Now(), p) && Refusal(Now(), p) == SUCCESS && needed == FramesNeeded(p.size)
      modifies this, processList, pageFrameMap, directoryUsed, directoryList
      ensures Now() == Entered(old(Now()), p) && index == FirstTerminated(old(Now()).procs, 0)
      ensures processList[index].pid == old(nextPid)
    {
      ghost var m := Now();
      var directory := CreateNewPageDirectory();
      MapProcess(directory.index, p.buf, needed);
      index := GetInactiveIndex();
      var was := processList[index];
      var pid := nextPid;
      nextPid := nextPid + 1;
      processList[index] := was.(pid := pid, name := p.name + was.name[8..], frameCount := needed, state := NEW,
                                 context := Context(was.context.cpu.(eflags := EFLAGS), directory));
      assert directoryList[..] == Entered(m, p).dirs;
    }

    // ---- scheduler.c ----

    /** scheduler_save_context_to_current_running_pcb. */
    method SaveContext(ctx: Context)
      requires Sized() && 0 <= current < PROCESS_COUNT_MAX
      modifies processList
      ensures processList[..] == old(processList[..])[current := old(processList[current]).(context := ctx)]
    {
      processList[current] := processList[current].(context := ctx);
    }

    /** scheduler_switch_to_next_process; `resumed` is what process_context_switch is given. */
    method SwitchToNextProcess() returns (resumed: Context)
      requires Sized() && CanSwitch(Now())
      modifies this`current, this`cr3, processList
      ensures Now() == Switch(old(Now())) && resumed == processList[current].context
    {
      ghost var m := Now();
      resumed := YieldScanResume(m);
    }

    /** The three parts of a switch from machine `m`. */
    method YieldScanResume(ghost m: Machine) returns (resumed: Context)
      requires Sized() && CanSwitch(m) && processList[..] == m.procs && current == m.current
      modifies this`current, this`cr3, processList
      ensures processList[..] == Switch(m).procs && current == Switch(m).current && cr3 == Switch(m).cr3
      ensures resumed == processList[current].context
    {
      ghost var (n, k) := ScanLength(Yielded(m), m.current + 1);
      SwitchIs(m, n, k);
      Yield();
      Scan(Yielded(m), m.current + 1);
      resumed := Resume();
    }

    /** The running process, if any, becomes READY; the scan starts after it. */
    method Yield()
      requires Sized() && -1 <= current < PROCESS_COUNT_MAX
      modifies this`current, processList
      ensures current == old(current) + 1
      ensures processList[..] == if old(current) == -1 then old(processList[..]) else SetState(old(processList[..]), old(current), READY)
    {
      if current != -1 {
        processList[current] := processList[current].(state := READY);
      }
      current := current + 1;
    }

    /** The slot the scan stopped at starts running. */
    method Resume() returns (resumed: Context)
      requires Sized() && 0 <= current < PROCESS_COUNT_MAX
      modifies this`cr3, processList
      ensures processList[..] == SetState(old(processList[..]), current, RUNNING)
      ensures cr3 == old(processList[current]).context.pageDirectory && resumed == processList[current].context
    {
      processList[current] := processList[current].(state := RUNNING);
      cr3 := processList[current].context.pageDirectory;
      resumed := processList[current].context;
    }

    /** The scanning loop: NEW processes passed on the way become READY. */
    method Scan(ghost procs: ProcessList, ghost from: nat)
      requires Sized() && processList[..] == procs && current == from < PROCESS_COUNT_MAX
      requires ScanLength(procs, from).0 < PROCESS_COUNT_MAX
      modifies this`current, processList
      ensures current == After(from, ScanLength(procs, from).0)
      ensures processList[..] == Promote(procs, from, ScanLength(procs, from).1)
    {
      ghost var n := 0;
      ScanBegins(procs, from);
      while processList[current].state != READY
        invariant 0 <= n <= ScanEnd(procs, from) && current == After(from, n)
        invariant processList[..] == Promote(procs, from, n)
        decreases ScanEnd(procs, from) - n
      {
        ScanGoesOn(procs, from, n);
        StepOver(procs, from, n);
        n := n + 1;
      }
      ScanEnds(procs, from, n);
    }

    /** The body of the scanning loop. */
    method StepOver(ghost procs: ProcessList, ghost from: nat, ghost n: nat)
      requires Sized() && from < PROCESS_COUNT_MAX && n < 2 * PROCESS_COUNT_MAX && current == After(from, n)
      requires processList[..] == Promote(procs, from, n)
      modifies this`current, processList
      ensures current == After(from, n + 1)
      ensures processList[..] == Promote(procs, from, n + 1)
    {
      if processList[current].state == NEW {
        processList[current] := processList[current].(state := READY);
      }
      ScanStep(procs, from, n, processList[..]);
      current := current + 1;
      if current >= PROCESS_COUNT_MAX {
        current := current - PROCESS_COUNT_MAX;
      }
      NextSlot(from, n);
    }

    // ---- timer.c ----

    /** timer_isr. */
    method TimerIsr(f: Frame) returns (r: Resumed)
      requires Sized() && CanTick(Now())
      modifies this, processList
      ensures Now() == Timer(old(Now()), f)
      ensures if Preempts(old(Now())) then r == SwitchedTo(Now().procs[Now().current].context) else r == Returned
    {
      ghost var m := Now();
      Tick();
      if active > 1 && ticks % 10 == 0 {
        SavedSwitches(m, f);
        var context := Preempt(m, f);
        return SwitchedTo(context);
      }
      return Returned;
    }

    /** The preemption of machine `m`, its clock already advanced. */
    method Preempt(ghost m: Machine, f: Frame) returns (resumed: Context)
      requires Sized() && Preempts(m) && CanTick(m) && CanSwitch(Ticked(m).(procs := Saved(m, f)))
      requires processList[..] == m.procs && current == m.current
      modifies this`current, this`cr3, processList
      ensures var k := Switch(Ticked(m).(procs := Saved(m, f)));
        processList[..] == k.procs && current == k.current && cr3 == k.cr3 && resumed == k.procs[k.current].context
    {
      var running := GetRunningIndex();
      SaveContext(Overlay(processList[running].context, f));
      resumed := YieldScanResume(Ticked(m).(procs := Saved(m, f)));
    }

    /** The clock part of timer_isr. */
    method Tick()
      requires Sized()
      modifies this`ticks, this`seconds
      ensures Now() == Ticked(old(Now()))
    {
      ticks := (ticks + 1) % WORD_LIMIT;
      if ticks >= 1000 {
        seconds := (seconds + 1) % WORD_LIMIT;
        ticks := ticks - 1000;
      }
    }
  }

  // ---- The scanning loop ----

  /** How many slots the scan steps over in all, a second lap included. */
  ghost function ScanEnd(procs: ProcessList, from: nat): (n: nat)
    requires from < PROCESS_COUNT_MAX && ScanLength(procs, from).0 < PROCESS_COUNT_MAX
    ensures n < 2 * PROCESS_COUNT_MAX
  {
    var (n, k) := ScanLength(procs, from);
    if k == n then n else PROCESS_COUNT_MAX + n
  }

  lemma ScanBegins(procs: ProcessList, from: nat)
    requires from < PROCESS_COUNT_MAX
    ensures After(from, 0) == from && Promote(procs, from, 0) == procs
  {
  }

  lemma NextSlot(from: nat, n: nat)
    requires from < PROCESS_COUNT_MAX && n < 2 * PROCESS_COUNT_MAX
    ensures After(from, n + 1) == if After(from, n) + 1 >= PROCESS_COUNT_MAX then After(from, n) + 1 - PROCESS_COUNT_MAX else After(from, n) + 1
  {
  }

  lemma StepsAhead(from: nat, n: nat)
    requires from < PROCESS_COUNT_MAX && n < 2 * PROCESS_COUNT_MAX
    ensures Ahead(from, After(from, n)) == After(0, n)
  {
  }

  lemma FullLap(from: nat, n: nat)
    requires from < PROCESS_COUNT_MAX && n < PROCESS_COUNT_MAX
    ensures After(from, PROCESS_COUNT_MAX + n) == After(from, n)
  {
  }

  /** The second lap is over once it has gone as far as the first NEW slot. */
  lemma LapsAgree(from: nat, n: nat, k: nat)
    requires from < PROCESS_COUNT_MAX && n <= PROCESS_COUNT_MAX + k && k < PROCESS_COUNT_MAX
    requires k <= After(0, n) < n
    ensures n >= PROCESS_COUNT_MAX && After(from, n) == After(from, k)
  {
  }

  /** While the slot reached is not READY the scan is not at its end. */
  lemma ScanGoesOn(procs: ProcessList, from: nat, n: nat)
    requires from < PROCESS_COUNT_MAX && ScanLength(procs, from).0 < PROCESS_COUNT_MAX && n <= ScanEnd(procs, from)
    requires Promote(procs, from, n)[After(from, n)].state != READY
    ensures n < ScanEnd(procs, from)
  {
    FullLap(from, ScanLength(procs, from).0);
  }

  lemma ScanStep(procs: ProcessList, from: nat, n: nat, now: ProcessList)
    requires from < PROCESS_COUNT_MAX && n < 2 * PROCESS_COUNT_MAX
    requires var q, c := Promote(procs, from, n), After(from, n);
      now == if q[c].state == NEW then q[c := q[c].(state := READY)] else q
    ensures now == Promote(procs, from, n + 1)
  {
  }

  /** A READY slot is only reached at the end of the scan. */
  lemma ScanEnds(procs: ProcessList, from: nat, n: nat)
    requires from < PROCESS_COUNT_MAX && ScanLength(procs, from).0 < PROCESS_COUNT_MAX && n <= ScanEnd(procs, from)
    requires Promote(procs, from, n)[After(from, n)].state == READY
    ensures After(from, n) == After(from, ScanLength(procs, from).0)
    ensures Promote(procs, from, n) == Promote(procs, from, ScanLength(procs, from).1)
  {
    StepsAhead(from, n);
    if Offset(procs, from, READY, 0) < PROCESS_COUNT_MAX {
      FirstLapEnds(procs, from, n);
    } else {
      SecondLapEnds(procs, from, n);
    }
  }

  lemma FirstLapEnds(procs: ProcessList, from: nat, n: nat)
    requires from < PROCESS_COUNT_MAX && n <= Offset(procs, from, READY, 0) < PROCESS_COUNT_MAX
    requires Ahead(from, After(from, n)) == After(0, n)
    requires Promote(procs, from, n)[After(from, n)].state == READY
    ensures n == Offset(procs, from, READY, 0)
  {
  }

  lemma SecondLapEnds(procs: ProcessList, from: nat, n: nat)
    requires from < PROCESS_COUNT_MAX && Offset(procs, from, READY, 0) == PROCESS_COUNT_MAX
    requires Offset(procs, from, NEW, 0) < PROCESS_COUNT_MAX && n <= PROCESS_COUNT_MAX + Offset(procs, from, NEW, 0)
    requires Ahead(from, After(from, n)) == After(0, n)
    requires Promote(procs, from, n)[After(from, n)].state == READY
    ensures After(from, n) == After(from, Offset(procs, from, NEW, 0))
    ensures Promote(procs, from, n) == Promote(procs, from, PROCESS_COUNT_MAX)
  {
    var i := After(from, n);
    AroundOnce(from, i);
    assert procs[After(from, Ahead(from, i))].state != READY;
    assert procs[i].state == NEW && Scanned(from, n, i);
    OffsetFinds(procs, from, NEW, i);
    LapsAgree(from, n, Offset(procs, from, NEW, 0));
    EveryoneScanned(procs, from, n);
  }

  lemma AroundOnce(from: nat, i: nat)
    requires from < PROCESS_COUNT_MAX && i < PROCESS_COUNT_MAX
    ensures After(from, Ahead(from, i)) == i
  {
  }

  lemma EveryoneScanned(procs: ProcessList, from: nat, n: nat)
    requires from < PROCESS_COUNT_MAX && n >= PROCESS_COUNT_MAX
    ensures Promote(procs, from, n) == Promote(procs, from, PROCESS_COUNT_MAX)
  {
  }
}
