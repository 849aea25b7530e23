/** What every step of the process machine keeps: one running process, named by the scheduler's
    index; distinct pids; page directories in one-to-one correspondence with live processes. */
module KernelInvariant {
  import opened Words
  import opened Paging
  import opened Kernel

  /** The last slot of the table that is ever used: fifteen processes at most. */
  const LIVE_MAX: nat := 15

  ghost function LiveSlots(procs: ProcessList): set<nat> {
    set i: nat | 0 <= i < PROCESS_COUNT_MAX && procs[i].Live()
  }

  ghost predicate SlotsOK(m: Machine) {
    && -1 <= m.current < LIVE_MAX
    && m.procs[LIVE_MAX] == ZERO_PCB
    && (forall i :: 0 <= i < PROCESS_COUNT_MAX ==> m.procs[i].state != WAITING)
    && (forall i :: 0 <= i < PROCESS_COUNT_MAX && !m.procs[i].Live() ==> m.procs[i] == ZERO_PCB)
    && (forall i :: 0 <= i < PROCESS_COUNT_MAX ==> (m.procs[i].state == RUNNING <==> i == m.current))
  }

  ghost predicate PidsOK(m: Machine) {
    && 1 <= m.nextPid <= MAX_PID
    && (forall i :: 0 <= i < PROCESS_COUNT_MAX && m.procs[i].Live() ==> 1 <= m.procs[i].pid < m.nextPid)
    && (forall i, j :: 0 <= i < j < PROCESS_COUNT_MAX && m.procs[i].Live() && m.procs[j].Live() ==> m.procs[i].pid != m.procs[j].pid)
  }

  /** Live slot `i` runs on page directory `d`. */
  ghost predicate Owns(m: Machine, i: int, d: int) {
    0 <= i < PROCESS_COUNT_MAX && 0 <= d && m.procs[i].Live() && m.procs[i].context.pageDirectory == DirectoryAt(d)
  }

  ghost predicate DirectoriesOK(m: Machine) {
    && (forall i :: 0 <= i < PROCESS_COUNT_MAX && m.procs[i].Live() ==>
          m.procs[i].context.pageDirectory.DirectoryAt? && m.procs[i].context.pageDirectory.index < DIRECTORY_MAX_COUNT
          && m.dirUsed[m.procs[i].context.pageDirectory.index])
    && (forall i, j, d :: Owns(m, i, d) && Owns(m, j, d) ==> i == j)
    && (forall d {:trigger m.dirUsed[d]} :: 0 <= d < DIRECTORY_MAX_COUNT && m.dirUsed[d] ==> exists i :: Owns(m, i, d))
  }

  ghost predicate Invariant(m: Machine) {
    SlotsOK(m) && PidsOK(m) && DirectoriesOK(m)
  }

  // ---- Room for one more ----

  lemma {:induction false} SubsetSize(a: set<nat>, b: set<nat>)
    requires a <= b
    ensures |a| <= |b|
    decreases |a|
  {
    if a != {} {
      var x :| x in a;
      SubsetSize(a - {x}, b - {x});
    }
  }

  /** The numbers below `n`. */
  ghost function Below(n: nat): (s: set<nat>)
    ensures |s| == n && forall x :: x in s <==> 0 <= x < n
  {
    if n == 0 then {} else Below(n - 1) + {n - 1}
  }

  ghost function UsedDirectories(m: Machine): set<nat> {
    set d: nat | 0 <= d < DIRECTORY_MAX_COUNT && m.dirUsed[d]
  }

  /** Slots `i` and up hold at least as many live processes as there are used directories owned
      by them. */
  lemma {:induction false} OwnedCount(m: Machine, ds: set<nat>, ps: set<nat>)
    requires forall d :: d in ds ==> exists i: nat :: i in ps && Owns(m, i, d)
    ensures |ds| <= |ps|
    decreases |ds|
  {
    if ds != {} {
      var d :| d in ds;
      var i: nat :| i in ps && Owns(m, i, d);
      forall e | e in ds - {d} ensures exists j: nat :: j in ps - {i} && Owns(m, j, e) {
        var j: nat :| j in ps && Owns(m, j, e);
        assert j != i;
      }
      OwnedCount(m, ds - {d}, ps - {i});
    }
  }

  /** There are exactly as many used page directories as live processes. */
  lemma DirectoriesMatchProcesses(m: Machine)
    requires Invariant(m)
    ensures |UsedDirectories(m)| == |LiveSlots(m.procs)|
  {
    forall d | d in UsedDirectories(m) ensures exists i: nat :: i in LiveSlots(m.procs) && Owns(m, i, d) {
      assert m.dirUsed[d];
      var i :| Owns(m, i, d);
    }
    OwnedCount(m, UsedDirectories(m), LiveSlots(m.procs));
    forall i | i in LiveSlots(m.procs) ensures exists d: nat :: d in UsedDirectories(m) && Owns(m, i, d) {
      assert Owns(m, i, m.procs[i].context.pageDirectory.index);
    }
    LiveCount(m, LiveSlots(m.procs), UsedDirectories(m));
  }

  lemma {:induction false} LiveCount(m: Machine, ps: set<nat>, ds: set<nat>)
    requires DirectoriesOK(m)
    requires forall i :: i in ps ==> exists d: nat :: d in ds && Owns(m, i, d)
    ensures |ps| <= |ds|
    decreases |ps|
  {
    if ps != {} {
      var i :| i in ps;
      var d: nat :| d in ds && Owns(m, i, d);
      forall j | j in ps - {i} ensures exists e: nat :: e in ds - {d} && Owns(m, j, e) {
        var e: nat :| e in ds && Owns(m, j, e);
      }
      LiveCount(m, ps - {i}, ds - {d});
    }
  }

  /** With at most fourteen live processes there is a slot below the last one and a page
      directory for one more, so a create never meets a NULL directory. */
  lemma RoomForOneMore(m: Machine)
    requires Invariant(m) && |LiveSlots(m.procs)| < LIVE_MAX
    ensures FirstTerminated(m.procs, 0) < LIVE_MAX
    ensures FirstUnused(m.dirUsed, 0) < DIRECTORY_MAX_COUNT
  {
    var n := FirstTerminated(m.procs, 0);
    if n >= LIVE_MAX {
      SubsetSize(Below(LIVE_MAX), LiveSlots(m.procs));
    }
    DirectoriesMatchProcesses(m);
    if FirstUnused(m.dirUsed, 0) == DIRECTORY_MAX_COUNT {
      SubsetSize(Below(DIRECTORY_MAX_COUNT), UsedDirectories(m));
    }
  }

  // ---- Destroying ----

  /** A destroy that finds its pid zeroes exactly that process's slot. */
  lemma DestroyNamesOne(m: Machine, pid: uint32, i: nat)
    requires Invariant(m) && i < PROCESS_COUNT_MAX && HasPid(m.procs[i], pid)
    ensures CanDestroy(m, pid) && FindPid(m.procs, pid, 0) == i
    ensures Destroy(m, pid).1 && Destroy(m, pid).0.procs == m.procs[i := ZERO_PCB]
    ensures LiveSlots(Destroy(m, pid).0.procs) == LiveSlots(m.procs) - {i}
  {
    var n := FindPid(m.procs, pid, 0);
    assert n <= i;
  }

  lemma DestroyAllowed(m: Machine, pid: uint32)
    requires Invariant(m)
    ensures CanDestroy(m, pid)
  {
  }

  /** Destroying a live process releases exactly its page directory, with no page left present. */
  lemma DestroyReleases(m: Machine, pid: uint32, i: nat)
    requires Invariant(m) && i < PROCESS_COUNT_MAX && HasPid(m.procs[i], pid)
    ensures CanDestroy(m, pid)
    ensures var k, d := Destroy(m, pid).0, m.procs[i].context.pageDirectory.index;
      && m.dirUsed[d] && k.dirUsed == m.dirUsed[d := false]
      && (forall j :: 0 <= j < PAGE_ENTRY_COUNT ==> !k.dirs[d][j].present)
      && (forall e :: 0 <= e < DIRECTORY_MAX_COUNT && e != d ==> k.dirs[e] == m.dirs[e])
      && k.active == m.active - 1 && k.current == m.current && k.cr3 == m.cr3 && k.nextPid == m.nextPid
  {
    DestroyNamesOne(m, pid, i);
  }

  /** Destroying a process that is not running keeps the invariant. */
  lemma DestroyKeepsInvariant(m: Machine, pid: uint32)
    requires Invariant(m) && (m.current >= 0 ==> m.procs[m.current].pid != pid)
    ensures CanDestroy(m, pid) && Invariant(Destroy(m, pid).0)
    ensures !Destroy(m, pid).1 ==> Destroy(m, pid).0 == m
  {
    var i := FindPid(m.procs, pid, 0);
    if i < PROCESS_COUNT_MAX {
      VacatedOwners(m, Destroy(m, pid).0, i, m.procs[i].context.pageDirectory.index);
      VacatedSlots(m, Destroy(m, pid).0, i);
    }
  }

  lemma VacatedSlots(m: Machine, k: Machine, i: nat)
    requires SlotsOK(m) && PidsOK(m) && i < PROCESS_COUNT_MAX && i != m.current
    requires k.procs == m.procs[i := ZERO_PCB] && k.current == m.current && k.nextPid == m.nextPid
    ensures SlotsOK(k) && PidsOK(k)
  {
  }

  /** Zeroing a slot and releasing its directory keeps the correspondence of the others. */
  lemma VacatedOwners(m: Machine, k: Machine, i: nat, d: nat)
    requires DirectoriesOK(m) && Owns(m, i, d) && d < DIRECTORY_MAX_COUNT
    requires k.procs == m.procs[i := ZERO_PCB] && k.dirUsed == m.dirUsed[d := false]
    ensures DirectoriesOK(k)
  {
    forall j, e | Owns(k, j, e) ensures Owns(m, j, e) && e != d {
      assert Owns(m, j, e);
    }
    forall j | 0 <= j < PROCESS_COUNT_MAX && k.procs[j].Live()
      ensures k.procs[j].context.pageDirectory.DirectoryAt? && k.procs[j].context.pageDirectory.index < DIRECTORY_MAX_COUNT
              && k.dirUsed[k.procs[j].context.pageDirectory.index]
    {
      assert Owns(k, j, m.procs[j].context.pageDirectory.index);
    }
    forall e | 0 <= e < DIRECTORY_MAX_COUNT && k.dirUsed[e] ensures exists j :: Owns(k, j, e) {
      assert m.dirUsed[e];
      var j :| Owns(m, j, e);
      assert Owns(k, j, e);
    }
  }

  // ---- Creating ----

  lemma EnteredKeepsInvariant(m: Machine, p: Program)
    requires Invariant(m) && |LiveSlots(m.procs)| < LIVE_MAX && CanCreate(m, p) && Refusal(m, p) == SUCCESS
    ensures Invariant(Entered(m, p))
    ensures var i := FirstTerminated(m.procs, 0);
      && i < LIVE_MAX && m.procs[i] == ZERO_PCB && HasPid(Entered(m, p).procs[i], m.nextPid)
      && Entered(m, p).procs[i].state == NEW && Entered(m, p).procs == m.procs[i := Entered(m, p).procs[i]]
      && WithStack(Entered(m, p).procs[i].context) == CreationContext(FirstUnused(m.dirUsed, 0))
  {
    RoomForOneMore(m);
    EnteredOwners(m, Entered(m, p), FirstTerminated(m.procs, 0), FirstUnused(m.dirUsed, 0));
  }

  /** Giving a free slot an unused directory keeps the correspondence of the others. */
  lemma EnteredOwners(m: Machine, k: Machine, i: nat, d: nat)
    requires DirectoriesOK(m) && i < PROCESS_COUNT_MAX && !m.procs[i].Live() && d < DIRECTORY_MAX_COUNT && !m.dirUsed[d]
    requires k.procs == m.procs[i := k.procs[i]] && k.procs[i].Live() && k.procs[i].context.pageDirectory == DirectoryAt(d)
    requires k.dirUsed == m.dirUsed[d := true]
    ensures DirectoriesOK(k)
  {
    forall e | 0 <= e < DIRECTORY_MAX_COUNT && k.dirUsed[e] ensures exists j :: Owns(k, j, e) {
      if e == d {
        assert Owns(k, i, d);
      } else {
        assert m.dirUsed[e];
        var j :| Owns(m, j, e);
        assert Owns(k, j, e);
      }
    }
    forall j, j', e | Owns(k, j, e) && Owns(k, j', e) ensures j == j' {
      if j != i { assert Owns(m, j, e); }
      if j' != i { assert Owns(m, j', e); }
    }
  }

  /** A create with room for one more is well defined and keeps the invariant, whether it is
      refused, succeeds, or fails to read its file. */
  lemma CreateKeepsInvariant(m: Machine, p: Program, readCode: int)
    requires Invariant(m) && |LiveSlots(m.procs)| < LIVE_MAX && m.nextPid < MAX_PID
    requires Refusal(m, p) == SUCCESS ==> FramesNeeded(p.size) >= 1
    ensures Creatable(m, p) && Invariant(Create(m, p, readCode).0)
  {
    RoomForOneMore(m);
    if Refusal(m, p) == SUCCESS {
      CreateFinishes(m, p);
    }
  }

  /** What a successful create enters in the table: one new process under a fresh pid, in a slot
      that held none, with the program's name and the frames it needs; everything else stays. */
  lemma CreatedProcess(m: Machine, p: Program)
    requires Invariant(m) && |LiveSlots(m.procs)| < LIVE_MAX && m.nextPid < MAX_PID
    requires Refusal(m, p) == SUCCESS && FramesNeeded(p.size) >= 1
    ensures Creatable(m, p) && Create(m, p, 0).1 == SUCCESS
    ensures var k, i := Create(m, p, 0).0, FirstTerminated(m.procs, 0);
      && !m.procs[i].Live()
      && k.procs == m.procs[i := Pcb(m.nextPid, p.name + Zeros(NAME_LENGTH - 8), 0, NEW,
                                     CreationContext(FirstUnused(m.dirUsed, 0)), FramesNeeded(p.size))]
      && k.nextPid == m.nextPid + 1 && k.active == m.active + 1 && k.current == m.current && k.cr3 == m.cr3
  {
    CreateKeepsInvariant(m, p, 0);
    RoomForOneMore(m);
    assert Zeros(NAME_LENGTH)[8..] == Zeros(NAME_LENGTH - 8);
  }

  /** When a create is refused, and with which code. */
  lemma CreateCodes(m: Machine, p: Program, readCode: int)
    requires Creatable(m, p)
    ensures var (k, code), kernel, needed := Create(m, p, readCode), p.buf >= 0xC000_0000, FramesNeeded(p.size);
      && (code == 1 <==> m.active >= 16)
      && (code == 2 <==> m.active < 16 && kernel)
      && (code == 3 <==> m.active < 16 && !kernel && (m.freeFrames < needed || needed > 8))
      && (code == 4 <==> m.active < 16 && !kernel && needed <= m.freeFrames && needed <= 8 && readCode != 0)
      && (code == 0 <==> m.active < 16 && !kernel && needed <= m.freeFrames && needed <= 8 && readCode == 0)
      && (code == 1 || code == 2 || code == 3 ==> k == m)
  {
  }

  /** The registers of a new process: both stack pointers at the top of the stack page, interrupts
      enabled, user segments, and everything else, the entry point included, zero. */
  lemma CreatedRegisters(m: Machine, p: Program)
    requires Invariant(m) && |LiveSlots(m.procs)| < LIVE_MAX && m.nextPid < MAX_PID
    requires Refusal(m, p) == SUCCESS && FramesNeeded(p.size) >= 1
    ensures Creatable(m, p)
    ensures var c := Create(m, p, 0).0.procs[FirstTerminated(m.procs, 0)].context.cpu;
      && c.esp == c.ebp == 0xBFFF_FFFC && c.eflags == 0x202 && c.cs == 0x1b
      && c.ds == c.es == c.ss == c.fs == c.gs == 0x23
      && c.eax == c.ebx == c.ecx == c.edx == c.esi == c.edi == c.eip == 0
  {
    CreatedProcess(m, p);
  }

  /** A create that cannot read its file leaves every process, the directories in use, the
      scheduler and the active directory as they were, and uses up a pid. */
  lemma UnreadableCreate(m: Machine, p: Program, readCode: int)
    requires Invariant(m) && |LiveSlots(m.procs)| < LIVE_MAX && m.nextPid < MAX_PID && readCode != 0
    requires Refusal(m, p) == SUCCESS && FramesNeeded(p.size) >= 1
    ensures Creatable(m, p) && Create(m, p, readCode).1 == FS_READ_FAILURE
    ensures var k := Create(m, p, readCode).0;
      && k.procs == m.procs && k.dirUsed == m.dirUsed && k.current == m.current && k.cr3 == m.cr3
      && k.nextPid == m.nextPid + 1 && k.active == m.active - 1
  {
    CreateKeepsInvariant(m, p, readCode);
    EnteredKeepsInvariant(m, p);
    RoomForOneMore(m);
    UnreadableTable(m, Entered(m, p), m.nextPid, FirstTerminated(m.procs, 0), FirstUnused(m.dirUsed, 0));
  }

  lemma UnreadableTable(m: Machine, k: Machine, pid: uint32, i: nat, d: nat)
    requires Invariant(k) && i < PROCESS_COUNT_MAX && HasPid(k.procs[i], pid) && m.procs[i] == ZERO_PCB && k.procs == m.procs[i := k.procs[i]]
    requires d < DIRECTORY_MAX_COUNT && !m.dirUsed[d] && k.dirUsed == m.dirUsed[d := true] && k.procs[i].context.pageDirectory == DirectoryAt(d)
    ensures CanDestroy(k, pid) && Destroy(k, pid).0.procs == m.procs && Destroy(k, pid).0.dirUsed == m.dirUsed
  {
    DestroyNamesOne(k, pid, i);
  }

  lemma CreateFinishes(m: Machine, p: Program)
    requires Invariant(m) && |LiveSlots(m.procs)| < LIVE_MAX && CanCreate(m, p) && Refusal(m, p) == SUCCESS
    ensures CanDestroy(Entered(m, p), m.nextPid) && Invariant(Destroy(Entered(m, p), m.nextPid).0)
    ensures Invariant(Started(Entered(m, p), FirstTerminated(m.procs, 0)))
  {
    EnteredKeepsInvariant(m, p);
    DestroyKeepsInvariant(Entered(m, p), m.nextPid);
    StartedKeepsInvariant(Entered(m, p), FirstTerminated(m.procs, 0));
  }

  lemma StartedKeepsInvariant(m: Machine, i: nat)
    requires Invariant(m) && i < PROCESS_COUNT_MAX && m.procs[i].Live()
    ensures Invariant(Started(m, i))
  {
    SameOwners(m, Started(m, i));
  }

  /** Steps that move no process to another slot, pid or directory keep the correspondence. */
  lemma SameOwners(m: Machine, k: Machine)
    requires DirectoriesOK(m) && k.dirUsed == m.dirUsed
    requires forall i :: 0 <= i < PROCESS_COUNT_MAX ==>
      k.procs[i].Live() == m.procs[i].Live() && k.procs[i].context.pageDirectory == m.procs[i].context.pageDirectory
    ensures DirectoriesOK(k)
  {
    forall d | 0 <= d < DIRECTORY_MAX_COUNT && k.dirUsed[d] ensures exists i :: Owns(k, i, d) {
      assert m.dirUsed[d];
      var i :| Owns(m, i, d);
      assert Owns(k, i, d);
    }
    forall i, j, d | Owns(k, i, d) && Owns(k, j, d) ensures i == j {
      assert Owns(m, i, d) && Owns(m, j, d);
    }
  }

  // ---- Switching and the timer ----

  /** A running process can always be switched away from, and the timer always finds it: the
      slot its scan finds is the scheduler's. */
  lemma RunningCanSwitch(m: Machine)
    requires Invariant(m) && m.current >= 0
    ensures CanSwitch(m) && FirstRunning(m.procs, 0) == m.current && CanTick(m)
  {
    assert Yielded(m)[m.current].state == READY;
  }

  /** The slot a switch chooses held a process that was waiting for its turn, and is not the last one. */
  lemma ChosenWaits(m: Machine)
    requires SlotsOK(m) && CanSwitch(m)
    ensures Chosen(m) < LIVE_MAX && Yielded(m)[Chosen(m)].state.CanRun()
  {
    NotLast(Yielded(m), Chosen(m));
  }

  /** Round robin: of the processes that are READY once the running one has yielded, the one
      chosen is the first after the old slot, cyclically; with none READY it is the first NEW one. */
  lemma ChosenIsNearest(m: Machine, i: nat)
    requires CanSwitch(m) && i < PROCESS_COUNT_MAX && Yielded(m)[i].state.CanRun()
    ensures var y, c, from := Yielded(m), Chosen(m), m.current + 1;
      && (y[c].state == NEW ==> y[i].state == NEW)
      && (y[c].state == y[i].state ==> Ahead(from, c) <= Ahead(from, i))
  {
    var y, from := Yielded(m), m.current + 1;
    var (n, k) := ScanLength(y, from);
    SwitchIs(m, n, k);
    OffsetFinds(y, from, y[i].state, i);
    assert Ahead(from, After(from, n)) == n;
  }

  /** Thousandths of a second on the clock. */
  function Elapsed(m: Machine): nat {
    m.seconds * 1000 + m.ticks
  }

  lemma TickArithmetic(m: Machine)
    requires m.ticks < 1000
    ensures var k := Ticked(m);
      && k.ticks < 1000 && Elapsed(k) == (Elapsed(m) + 1) % (1000 * WORD_LIMIT)
      && (k.ticks % 10 == 0 <==> (m.ticks + 1) % 10 == 0)
      && k == m.(ticks := k.ticks, seconds := k.seconds)
  {
  }

  lemma SwitchRuns(m: Machine)
    requires CanSwitch(m)
    ensures var k := Switch(m);
      && 0 <= k.current < PROCESS_COUNT_MAX && k.procs[k.current].state == RUNNING
      && k.cr3 == k.procs[k.current].context.pageDirectory && k.ticks == m.ticks && k.seconds == m.seconds
  {
  }

  /** A timer interrupt advances the clock by a thousandth of a second, and does nothing else
      unless more than one process is counted and the tick is a tenth one; then a process chosen
      by a switch runs. */
  lemma TimerEffect(m: Machine, f: Frame)
    requires CanTick(m) && m.ticks < 1000
    ensures var k := Timer(m, f);
      && k.ticks < 1000 && Elapsed(k) == (Elapsed(m) + 1) % (1000 * WORD_LIMIT)
      && (if m.active > 1 && (m.ticks + 1) % 10 == 0
          then 0 <= k.current < PROCESS_COUNT_MAX && k.procs[k.current].state == RUNNING && k.cr3 == k.procs[k.current].context.pageDirectory
          else k == m.(ticks := k.ticks, seconds := k.seconds))
  {
    TickArithmetic(m);
    if Preempts(m) {
      SavedSwitches(m, f);
      SwitchRuns(Ticked(m).(procs := Saved(m, f)));
    }
  }

  /** The state of a slot once the running process has yielded. */
  function Waiting(m: Machine, i: nat): State
    requires i < PROCESS_COUNT_MAX
  {
    if i == m.current then READY else m.procs[i].state
  }

  /** How far slot `i` lies behind the slot after the running one, going round the sixteen. */
  function Distance(m: Machine, i: int): int {
    (i - m.current - 1) % 16
  }

  /** A switch, slot by slot. The process resumed is the nearest READY one, or with none READY the
      nearest NEW one; NEW processes nearer than a READY one that is resumed become READY, and all
      of them when a NEW one is; nothing else changes but the index and the active directory. */
  lemma SwitchTable(m: Machine, i: nat)
    requires SlotsOK(m) && CanSwitch(m) && i < PROCESS_COUNT_MAX
    ensures var k := Switch(m);
      && 0 <= k.current < PROCESS_COUNT_MAX
      && k == m.(procs := k.procs, current := k.current, cr3 := m.procs[k.current].context.pageDirectory)
    ensures var k := Switch(m);
      var x, w := Waiting(m, k.current), Waiting(m, i);
      && (x == READY || (x == NEW && w != READY))
      && (w == x ==> Distance(m, k.current) <= Distance(m, i))
      && k.procs[i] == m.procs[i].(state := if i == k.current then RUNNING
                                            else if w == NEW && (x == NEW || Distance(m, i) < Distance(m, k.current)) then READY
                                            else w)
  {
    SwitchOnly(m);
    SwitchSlotByDistance(m, i);
    AheadIsDistance(m, i);
    AheadIsDistance(m, Chosen(m));
    if Yielded(m)[i].state.CanRun() {
      ChosenIsNearest(m, i);
    }
  }

  lemma SwitchOnly(m: Machine)
    requires CanSwitch(m)
    ensures var k := Switch(m);
      && k.current == Chosen(m)
      && k == m.(procs := k.procs, current := k.current, cr3 := m.procs[k.current].context.pageDirectory)
  {
  }

  lemma SwitchSlotByDistance(m: Machine, i: nat)
    requires SlotsOK(m) && CanSwitch(m) && i < PROCESS_COUNT_MAX
    ensures var c, from, y := Chosen(m), m.current + 1, Yielded(m)[i];
      Switch(m).procs[i] == if i == c then y.(state := RUNNING)
                            else if y.state == NEW && (Yielded(m)[c].state == NEW || Ahead(from, i) < Ahead(from, c)) then y.(state := READY)
                            else y
  {
    var from := m.current + 1;
    var (n, k) := ScanLength(Yielded(m), from);
    SwitchIs(m, n, k);
    SwitchSlot(m, i);
    assert Ahead(from, After(from, n)) == n;
  }

  lemma AheadIsDistance(m: Machine, i: nat)
    requires -1 <= m.current < PROCESS_COUNT_MAX - 1 && i < PROCESS_COUNT_MAX
    ensures Ahead(m.current + 1, i) == Distance(m, i)
  {
  }

  lemma NotLast(procs: ProcessList, i: nat)
    requires !procs[LIVE_MAX].Live() && i < PROCESS_COUNT_MAX && procs[i].state.CanRun()
    ensures i < LIVE_MAX
  {
  }

  /** After a switch exactly one process runs, in the scheduler's slot; every other process keeps
      its context, pid and frames. */
  lemma SwitchKeepsInvariant(m: Machine)
    requires Invariant(m) && CanSwitch(m)
    ensures Invariant(Switch(m))
    ensures forall i :: 0 <= i < PROCESS_COUNT_MAX ==> Switch(m).procs[i].(state := NEW) == m.procs[i].(state := NEW)
    ensures forall i :: 0 <= i < PROCESS_COUNT_MAX ==> Switch(m).procs[i].Live() == m.procs[i].Live()
    ensures Switch(m).cr3 == m.procs[Switch(m).current].context.pageDirectory
  {
    ChosenWaits(m);
    SwitchStates(m);
    var k := Switch(m);
    SameOwners(m, k);
  }

  lemma SwitchStates(m: Machine)
    requires SlotsOK(m) && CanSwitch(m)
    ensures var k := Switch(m);
      && (forall i :: 0 <= i < PROCESS_COUNT_MAX ==> k.procs[i].(state := NEW) == m.procs[i].(state := NEW))
      && (forall i :: 0 <= i < PROCESS_COUNT_MAX ==> k.procs[i].Live() == m.procs[i].Live())
      && (forall i :: 0 <= i < PROCESS_COUNT_MAX ==> (k.procs[i].state == RUNNING <==> i == k.current))
      && (forall i :: 0 <= i < PROCESS_COUNT_MAX ==> k.procs[i].state != WAITING)
  {
    forall i | 0 <= i < PROCESS_COUNT_MAX
      ensures var p, q := Switch(m).procs[i], m.procs[i];
        && p.(state := NEW) == q.(state := NEW) && p.Live() == q.Live()
        && (p.state == RUNNING <==> i == Chosen(m)) && p.state != WAITING
    {
      SwitchSlot(m, i);
    }
  }

  /** One slot across a switch. */
  lemma SwitchSlot(m: Machine, i: nat)
    requires SlotsOK(m) && CanSwitch(m) && i < PROCESS_COUNT_MAX
    ensures var p, q := Switch(m).procs[i], Yielded(m)[i];
      p == if i == Chosen(m) then q.(state := RUNNING)
           else if q.state == NEW && Scanned(m.current + 1, ScanLength(Yielded(m), m.current + 1).1, i) then q.(state := READY)
           else q
    ensures Yielded(m)[i].state != RUNNING && (i == Chosen(m) ==> Yielded(m)[i].state.CanRun())
  {
    NoneRunning(m, i);
    var (n, k) := ScanLength(Yielded(m), m.current + 1);
    SwitchIs(m, n, k);
    OneSlot(Yielded(m), m.current + 1, k, Chosen(m), i);
  }

  lemma NoneRunning(m: Machine, i: nat)
    requires SlotsOK(m) && i < PROCESS_COUNT_MAX
    ensures Yielded(m)[i].state != RUNNING && Yielded(m)[i].state != WAITING
  {
  }

  lemma OneSlot(procs: ProcessList, from: nat, k: nat, chosen: nat, i: nat)
    requires from < PROCESS_COUNT_MAX && chosen < PROCESS_COUNT_MAX && i < PROCESS_COUNT_MAX
    ensures SetState(Promote(procs, from, k), chosen, RUNNING)[i] ==
            if i == chosen then procs[i].(state := RUNNING)
            else if procs[i].state == NEW && Scanned(from, k, i) then procs[i].(state := READY)
            else procs[i]
  {
  }

  lemma SavedKeepsInvariant(m: Machine, f: Frame)
    requires Invariant(m) && m.current >= 0
    ensures FirstRunning(m.procs, 0) == m.current
    ensures Invariant(Ticked(m).(procs := Saved(m, f)))
  {
    RunningIsCurrent(m);
    SavedSlots(m, f);
    SameOwners(m, Ticked(m).(procs := Saved(m, f)));
  }

  lemma RunningIsCurrent(m: Machine)
    requires SlotsOK(m) && m.current >= 0
    ensures FirstRunning(m.procs, 0) == m.current
  {
    assert m.procs[m.current].state == RUNNING;
  }

  lemma SavedSlots(m: Machine, f: Frame)
    requires SlotsOK(m) && m.current >= 0 && FirstRunning(m.procs, 0) == m.current
    ensures SlotsOK(Ticked(m).(procs := Saved(m, f)))
    ensures forall i :: 0 <= i < PROCESS_COUNT_MAX ==>
      var p, q := Saved(m, f)[i], m.procs[i];
      p.pid == q.pid && p.state == q.state && p.context.pageDirectory == q.context.pageDirectory
  {
  }

  /** A timer interrupt of a running machine is well defined and keeps the invariant. */
  lemma TimerKeepsInvariant(m: Machine, f: Frame)
    requires Invariant(m) && m.current >= 0
    ensures CanTick(m) && Invariant(Timer(m, f)) && Timer(m, f).current >= 0
  {
    RunningCanSwitch(m);
    if Preempts(m) {
      SavedKeepsInvariant(m, f);
      SavedSwitches(m, f);
      SwitchKeepsInvariant(Ticked(m).(procs := Saved(m, f)));
    } else {
      SameOwners(m, Ticked(m));
    }
  }
}
