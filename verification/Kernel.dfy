/** process.c, scheduler.c and timer.c: the process table as a step system of creates, kills
    and timer interrupts. */
module Kernel {
  import opened Words
  import opened Paging

  const PROCESS_COUNT_MAX: nat := 16
  const PROCESS_PAGE_FRAME_COUNT_MAX: nat := 8
  const KERNEL_VIRTUAL_ADDRESS_BASE: uint32 := 0xC000_0000
  const NAME_LENGTH: nat := 32
  const MAX_PID: int := 0x7FFF_FFFF

  // ---- Data ----

  datatype State = TERMINATED | RUNNING | WAITING | NEW | READY {
    predicate CanRun() {
      READY? || NEW?
    }
  }

  datatype Registers = Registers(
    eax: uint32, ebx: uint32, ecx: uint32, edx: uint32, esi: uint32, edi: uint32, esp: uint32, ebp: uint32,
    eip: uint32, eflags: uint32, cs: uint32, ds: uint32, es: uint32, fs: uint32, gs: uint32, ss: uint32)

  /** A page directory's address: NULL or an element of page_directory_list. */
  datatype Pointer = Null | DirectoryAt(index: nat)

  datatype Context = Context(cpu: Registers, pageDirectory: Pointer)

  /** The registers timer_isr reads from the interrupt frame. */
  datatype Frame = Frame(
    eax: uint32, ebx: uint32, ecx: uint32, edx: uint32, esp: uint32, ebp: uint32, edi: uint32, esi: uint32,
    gs: uint32, fs: uint32, es: uint32, ds: uint32, eip: uint32)

  type ProcessName = s: seq<byte> | |s| == NAME_LENGTH witness Zeros(NAME_LENGTH)
  type FileName = s: seq<byte> | |s| == 8 witness [0, 0, 0, 0, 0, 0, 0, 0]

  datatype Pcb = Pcb(pid: uint32, name: ProcessName, priority: int, state: State, context: Context, frameCount: uint32) {
    predicate Live() {
      state != TERMINATED
    }
  }

  const ZERO_REGISTERS: Registers := Registers(0, 0, 0, 0, 0, 0, 0, 0, 0, 0, 0, 0, 0, 0, 0, 0)
  const ZERO_CONTEXT: Context := Context(ZERO_REGISTERS, Null)
  const ZERO_PCB: Pcb := Pcb(0, Zeros(NAME_LENGTH), 0, TERMINATED, ZERO_CONTEXT, 0)

  type ProcessList = s: seq<Pcb> | |s| == PROCESS_COUNT_MAX witness seq(PROCESS_COUNT_MAX, _ => ZERO_PCB)

  /** Everything the process code keeps: the table, the scheduler's index, the counters, the
      frame map, the page directories, the active directory and the clock. */
  datatype Machine = Machine(
    procs: ProcessList, current: int, active: int, nextPid: int,
    frames: FrameMap, freeFrames: uint32, dirUsed: DirectoryUse, dirs: Directories, cr3: Pointer,
    ticks: uint32, seconds: uint32)

  /** The parts of a FAT32DriverRequest a create looks at. */
  datatype Program = Program(buf: uint32, size: uint32, name: FileName)

  // ---- Searching the table ----

  function FirstTerminated(procs: ProcessList, i: nat): (n: nat)
    requires i <= PROCESS_COUNT_MAX
    ensures i <= n <= PROCESS_COUNT_MAX
    ensures forall j :: i <= j < n ==> procs[j].Live()
    ensures n < PROCESS_COUNT_MAX ==> !procs[n].Live()
    decreases PROCESS_COUNT_MAX - i
  {
    if i == PROCESS_COUNT_MAX || !procs[i].Live() then i else FirstTerminated(procs, i + 1)
  }

  predicate HasPid(p: Pcb, pid: uint32) {
    p.pid == pid && p.Live()
  }

  function FindPid(procs: ProcessList, pid: uint32, i: nat): (n: nat)
    requires i <= PROCESS_COUNT_MAX
    ensures i <= n <= PROCESS_COUNT_MAX
    ensures forall j :: i <= j < n ==> !HasPid(procs[j], pid)
    ensures n < PROCESS_COUNT_MAX ==> HasPid(procs[n], pid)
    decreases PROCESS_COUNT_MAX - i
  {
    if i == PROCESS_COUNT_MAX || HasPid(procs[i], pid) then i else FindPid(procs, pid, i + 1)
  }

  function FirstRunning(procs: ProcessList, i: nat): (n: nat)
    requires i <= PROCESS_COUNT_MAX
    ensures i <= n <= PROCESS_COUNT_MAX
    ensures forall j :: i <= j < n ==> procs[j].state != RUNNING
    ensures n < PROCESS_COUNT_MAX ==> procs[n].state == RUNNING
    decreases PROCESS_COUNT_MAX - i
  {
    if i == PROCESS_COUNT_MAX || procs[i].state == RUNNING then i else FirstRunning(procs, i + 1)
  }

  // ---- Destroying a process ----

  /** The loop over the frames of a process: each turn frees the same frame and counts it. */
  function ReleaseFrames(frames: FrameMap, free: uint32, dir: PageDirectory, n: nat): (FrameMap, uint32) {
    if n == 0 then (frames, free)
    else
      var (f, c) := ReleaseFrames(frames, free, dir, n - 1);
      (f[ReleasedFrame(dir, 0) := false], (c + 1) % WORD_LIMIT)
  }

  /** The directory a destroy releases exists. */
  predicate CanDestroy(m: Machine, pid: uint32) {
    var i := FindPid(m.procs, pid, 0);
    i < PROCESS_COUNT_MAX ==> m.procs[i].context.pageDirectory.DirectoryAt? && m.procs[i].context.pageDirectory.index < DIRECTORY_MAX_COUNT
  }

  /** process_destroy: the machine afterwards, and whether a process was found. */
  function Destroy(m: Machine, pid: uint32): (Machine, bool)
    requires CanDestroy(m, pid)
  {
    var i := FindPid(m.procs, pid, 0);
    if i == PROCESS_COUNT_MAX then (m, false)
    else
      var d := m.procs[i].context.pageDirectory.index;
      var (frames, free) := ReleaseFrames(m.frames, m.freeFrames, m.dirs[d], m.procs[i].frameCount);
      (m.(procs := m.procs[i := ZERO_PCB], active := m.active - 1, frames := frames, freeFrames := free,
          dirUsed := m.dirUsed[d := false], dirs := m.dirs[d := Cleared(m.dirs[d])]), true)
  }

  // ---- Creating a process ----

  const SUCCESS: int := 0
  const MAX_PROCESS_EXCEEDED: int := 1
  const INVALID_ENTRYPOINT: int := 2
  const NOT_ENOUGH_MEMORY: int := 3
  const FS_READ_FAILURE: int := 4

  /** The checks at the head of process_create_user_process. */
  function Refusal(m: Machine, p: Program): int {
    if m.active >= PROCESS_COUNT_MAX then MAX_PROCESS_EXCEEDED
    else if p.buf >= KERNEL_VIRTUAL_ADDRESS_BASE then INVALID_ENTRYPOINT
    else if m.freeFrames < FramesNeeded(p.size) || FramesNeeded(p.size) > PROCESS_PAGE_FRAME_COUNT_MAX then NOT_ENOUGH_MEMORY
    else SUCCESS
  }

  /** What a create takes for granted once it is not refused: a free slot, a free directory, a
      pid left, and a frame count of at least one. */
  predicate CanCreate(m: Machine, p: Program) {
    Refusal(m, p) == SUCCESS ==>
      && FirstTerminated(m.procs, 0) < PROCESS_COUNT_MAX
      && FirstUnused(m.dirUsed, 0) < DIRECTORY_MAX_COUNT
      && 1 <= m.nextPid < MAX_PID
      && FramesNeeded(p.size) >= 1
  }

  const EFLAGS: uint32 := 0x202
  const STACK_TOP: uint32 := 0xBFFF_FFFC

  /** The context a new process gets over what its zeroed slot held. */
  function CreationContext(d: nat): Context {
    Context(ZERO_REGISTERS.(eflags := EFLAGS, esp := STACK_TOP, ebp := STACK_TOP, cs := 0x1b,
                            ds := 0x23, es := 0x23, ss := 0x23, fs := 0x23, gs := 0x23), DirectoryAt(d))
  }

  /** The machine after the new process is entered in the table, before its file is read. */
  function Entered(m: Machine, p: Program): Machine
    requires CanCreate(m, p) && Refusal(m, p) == SUCCESS
  {
    var d, i, needed := FirstUnused(m.dirUsed, 0), FirstTerminated(m.procs, 0), FramesNeeded(p.size);
    var pool := AllocateProcess(Pool(m.frames, m.freeFrames, KernelOnly(m.dirs[d])), p.buf, needed);
    var was := m.procs[i];
    var pcb := was.(pid := m.nextPid, name := p.name + was.name[8..], frameCount := needed, state := NEW,
                    context := Context(was.context.cpu.(eflags := EFLAGS), DirectoryAt(d)));
    m.(procs := m.procs[i := pcb], nextPid := m.nextPid + 1, frames := pool.frames, freeFrames := pool.free,
       dirUsed := m.dirUsed[d := true], dirs := m.dirs[d := pool.dir])
  }

  /** The registers filled in last. */
  function WithStack(c: Context): Context {
    c.(cpu := c.cpu.(esp := STACK_TOP, ebp := STACK_TOP, cs := 0x1b, ds := 0x23, es := 0x23, ss := 0x23, fs := 0x23, gs := 0x23))
  }

  /** The last step of a create whose file was read: stack and segments set, process counted. */
  function Started(k: Machine, i: nat): Machine
    requires i < PROCESS_COUNT_MAX
  {
    k.(procs := k.procs[i := k.procs[i].(context := WithStack(k.procs[i].context))], active := k.active + 1)
  }

  predicate Creatable(m: Machine, p: Program) {
    CanCreate(m, p) && (Refusal(m, p) == SUCCESS ==> CanDestroy(Entered(m, p), m.nextPid))
  }

  /** process_create_user_process, given the return code of the file read: machine and code. */
  function Create(m: Machine, p: Program, readCode: int): (Machine, int)
    requires Creatable(m, p)
  {
    if Refusal(m, p) != SUCCESS then (m, Refusal(m, p))
    else
      var k := Entered(m, p);
      if readCode != 0 then (Destroy(k, m.nextPid).0, FS_READ_FAILURE)
      else (Started(k, FirstTerminated(m.procs, 0)), SUCCESS)
  }

  // ---- Switching ----

  /** The slot `j` steps after `from`, cyclically, over at most two laps. */
  function After(from: nat, j: nat): (i: nat)
    requires from < PROCESS_COUNT_MAX && j <= 2 * PROCESS_COUNT_MAX
    ensures i < PROCESS_COUNT_MAX
  {
    var x := from + j;
    if x < PROCESS_COUNT_MAX then x
    else if x < 2 * PROCESS_COUNT_MAX then x - PROCESS_COUNT_MAX
    else x - 2 * PROCESS_COUNT_MAX
  }

  /** How many slots after `from`, cyclically, the first one in state `x` lies; 16 when none does. */
  function Offset(procs: ProcessList, from: nat, x: State, k: nat): (n: nat)
    requires from < PROCESS_COUNT_MAX && k <= PROCESS_COUNT_MAX
    ensures k <= n <= PROCESS_COUNT_MAX
    ensures forall j {:trigger After(from, j)} :: k <= j < n ==> procs[After(from, j)].state != x
    ensures n < PROCESS_COUNT_MAX ==> procs[After(from, n)].state == x
    decreases PROCESS_COUNT_MAX - k
  {
    if k == PROCESS_COUNT_MAX || procs[After(from, k)].state == x then k else Offset(procs, from, x, k + 1)
  }

  /** How many steps after `from`, cyclically, slot `i` lies. */
  function Ahead(from: nat, i: nat): (n: nat)
    requires from < PROCESS_COUNT_MAX && i < PROCESS_COUNT_MAX
    ensures n < PROCESS_COUNT_MAX
  {
    if i >= from then i - from else i - from + PROCESS_COUNT_MAX
  }

  /** Slot `i` is one of the `k` slots from `from` on, cyclically. */
  predicate Scanned(from: nat, k: nat, i: nat)
    requires from < PROCESS_COUNT_MAX && i < PROCESS_COUNT_MAX
  {
    Ahead(from, i) < k
  }

  /** The scanned slots that are NEW made READY, as the scan steps over them. */
  function Promote(procs: ProcessList, from: nat, k: nat): (p: ProcessList)
    requires from < PROCESS_COUNT_MAX
    ensures forall i :: 0 <= i < PROCESS_COUNT_MAX ==>
      p[i] == if procs[i].state == NEW && Scanned(from, k, i) then procs[i].(state := READY) else procs[i]
  {
    seq(PROCESS_COUNT_MAX, i requires 0 <= i < PROCESS_COUNT_MAX =>
      if procs[i].state == NEW && Scanned(from, k, i) then procs[i].(state := READY) else procs[i])
  }

  function SetState(procs: ProcessList, i: nat, x: State): ProcessList
    requires i < PROCESS_COUNT_MAX
  {
    procs[i := procs[i].(state := x)]
  }

  /** The table once the running process, if any, has been made READY. */
  function Yielded(m: Machine): ProcessList
    requires -1 <= m.current < PROCESS_COUNT_MAX
  {
    if m.current == -1 then m.procs else SetState(m.procs, m.current, READY)
  }

  /** What a switch asks: its index in range with a slot after it, and something to run. */
  predicate CanSwitch(m: Machine) {
    && -1 <= m.current < PROCESS_COUNT_MAX - 1
    && exists i :: 0 <= i < PROCESS_COUNT_MAX && Yielded(m)[i].state.CanRun()
  }

  /** How far the scan goes before it finds the process to run, and how many slots it makes READY:
      the first READY one if there is any, otherwise a full lap and then the first NEW one. */
  function ScanLength(procs: ProcessList, from: nat): (nat, nat)
    requires from < PROCESS_COUNT_MAX
  {
    var r := Offset(procs, from, READY, 0);
    if r < PROCESS_COUNT_MAX then (r, r) else (Offset(procs, from, NEW, 0), PROCESS_COUNT_MAX)
  }

  lemma OffsetFinds(procs: ProcessList, from: nat, x: State, i: nat)
    requires from < PROCESS_COUNT_MAX && i < PROCESS_COUNT_MAX && procs[i].state == x
    ensures Offset(procs, from, x, 0) <= Ahead(from, i)
  {
    assert After(from, Ahead(from, i)) == i;
  }

  /** The slot the scan stops at. */
  function ScanTarget(procs: ProcessList, from: nat): (i: nat)
    requires from < PROCESS_COUNT_MAX
    requires exists i :: 0 <= i < PROCESS_COUNT_MAX && procs[i].state.CanRun()
    ensures i < PROCESS_COUNT_MAX && procs[i].state.CanRun()
  {
    ScanFinds(procs, from);
    After(from, ScanLength(procs, from).0)
  }

  /** The scan finds a READY process, or, when there is none, a NEW one. */
  lemma ScanFinds(procs: ProcessList, from: nat)
    requires from < PROCESS_COUNT_MAX
    requires exists i :: 0 <= i < PROCESS_COUNT_MAX && procs[i].state.CanRun()
    ensures var n := ScanLength(procs, from).0; n < PROCESS_COUNT_MAX && procs[After(from, n)].state.CanRun()
  {
    var i :| 0 <= i < PROCESS_COUNT_MAX && procs[i].state.CanRun();
    OffsetFinds(procs, from, procs[i].state, i);
  }

  function Chosen(m: Machine): (i: nat)
    requires CanSwitch(m)
    ensures i < PROCESS_COUNT_MAX && Yielded(m)[i].state.CanRun()
  {
    ScanTarget(Yielded(m), m.current + 1)
  }

  /** The table when the scan stops. */
  function ScannedOver(m: Machine): ProcessList
    requires -1 <= m.current < PROCESS_COUNT_MAX - 1
  {
    Promote(Yielded(m), m.current + 1, ScanLength(Yielded(m), m.current + 1).1)
  }

  /** scheduler_switch_to_next_process. The process resumed is the one in slot `current` of the
      result, with the context its slot holds. */
  function Switch(m: Machine): Machine
    requires CanSwitch(m)
  {
    var i := Chosen(m);
    m.(procs := SetState(ScannedOver(m), i, RUNNING), current := i, cr3 := ScannedOver(m)[i].context.pageDirectory)
  }

  /** A switch, given how far its scan goes. */
  lemma SwitchIs(m: Machine, n: nat, k: nat)
    requires CanSwitch(m) && ScanLength(Yielded(m), m.current + 1) == (n, k)
    ensures n < PROCESS_COUNT_MAX && Chosen(m) == After(m.current + 1, n)
    ensures var scanned := Promote(Yielded(m), m.current + 1, k);
      && Switch(m).procs == SetState(scanned, Chosen(m), RUNNING) && Switch(m).current == Chosen(m)
      && Switch(m).cr3 == scanned[Chosen(m)].context.pageDirectory
  {
    ChosenIs(m);
    ScannedIs(m, Promote(Yielded(m), m.current + 1, k));
  }

  lemma ChosenIs(m: Machine)
    requires CanSwitch(m)
    ensures var n := ScanLength(Yielded(m), m.current + 1).0;
      n < PROCESS_COUNT_MAX && Chosen(m) == After(m.current + 1, n)
  {
    ScanFinds(Yielded(m), m.current + 1);
    assert Chosen(m) == ScanTarget(Yielded(m), m.current + 1);
  }

  lemma ScannedIs(m: Machine, scanned: ProcessList)
    requires CanSwitch(m) && scanned == ScannedOver(m)
    ensures Switch(m).procs == SetState(scanned, Chosen(m), RUNNING) && Switch(m).current == Chosen(m)
    ensures Switch(m).cr3 == scanned[Chosen(m)].context.pageDirectory
  {
  }

  // ---- The timer ----

  /** A saved context with the registers the timer copies replaced by those of the frame. */
  function Overlay(c: Context, f: Frame): Context {
    c.(cpu := c.cpu.(eax := f.eax, ebx := f.ebx, ecx := f.ecx, edx := f.edx, esp := f.esp, ebp := f.ebp, edi := f.edi,
                     esi := f.esi, gs := f.gs, fs := f.fs, es := f.es, ds := f.ds, eip := f.eip))
  }

  /** The clock part of timer_isr. */
  function Ticked(m: Machine): Machine {
    var t := (m.ticks + 1) % WORD_LIMIT;
    if t >= 1000 then m.(ticks := t - 1000, seconds := (m.seconds + 1) % WORD_LIMIT) else m.(ticks := t)
  }

  /** This timer interrupt takes the processor away. */
  predicate Preempts(m: Machine) {
    m.active > 1 && Ticked(m).ticks % 10 == 0
  }

  predicate CanTick(m: Machine) {
    Preempts(m) ==> 0 <= m.current && FirstRunning(m.procs, 0) < PROCESS_COUNT_MAX && CanSwitch(m)
  }

  /** The table with the interrupted registers saved: read from the slot found running, stored
      in the scheduler's current slot. */
  function Saved(m: Machine, f: Frame): ProcessList
    requires 0 <= m.current < PROCESS_COUNT_MAX && FirstRunning(m.procs, 0) < PROCESS_COUNT_MAX
  {
    m.procs[m.current := m.procs[m.current].(context := Overlay(m.procs[FirstRunning(m.procs, 0)].context, f))]
  }

  lemma SavedSwitches(m: Machine, f: Frame)
    requires Preempts(m) && CanTick(m)
    ensures CanSwitch(Ticked(m).(procs := Saved(m, f)))
  {
    var k := Ticked(m).(procs := Saved(m, f));
    var i :| 0 <= i < PROCESS_COUNT_MAX && Yielded(m)[i].state.CanRun();
    assert Yielded(k)[i].state == Yielded(m)[i].state;
  }

  /** timer_isr. */
  function Timer(m: Machine, f: Frame): Machine
    requires CanTick(m)
  {
    if Preempts(m) then
      SavedSwitches(m, f);
      Switch(Ticked(m).(procs := Saved(m, f)))
    else Ticked(m)
  }
}
