/** Page frames over runs of creates, and what a destroy does to them; starting the
    machine. */
module KernelFrames {
  import opened Words
  import opened Paging
  import opened Kernel
  import opened KernelInvariant
  import opened KernelRuns

  /** Slot `j` of used directory `d` is a user page. */
  ghost predicate UserPage(m: Machine, d: int, j: int) {
    0 <= d < DIRECTORY_MAX_COUNT && 0 <= j < PAGE_ENTRY_COUNT && m.dirUsed[d] && m.dirs[d][j].IsUserPage()
  }

  ghost predicate FrameOf(m: Machine, d: int, j: int, f: int) {
    UserPage(m, d, j) && m.dirs[d][j].frame == f
  }

  /** The free count is exact, every user page of every process has a frame marked in use, and
      no frame is mapped by two user pages. */
  ghost predicate FramesOK(m: Machine) {
    && CountExact(m.frames, m.freeFrames)
    && (forall d, j :: UserPage(m, d, j) ==> m.dirs[d][j].frame < PAGE_FRAME_MAX_COUNT && m.frames[m.dirs[d][j].frame])
    && (forall d, j, d', j', f :: FrameOf(m, d, j, f) && FrameOf(m, d', j', f) ==> d == d' && j == j')
  }

  /** A create that enters its process reserves exactly the frames it needs, none of them mapped before. */
  lemma EnteredFrames(m: Machine, p: Program)
    requires FramesOK(m) && CanCreate(m, p) && Refusal(m, p) == SUCCESS
    ensures FramesOK(Entered(m, p)) && Entered(m, p).freeFrames == m.freeFrames - FramesNeeded(p.size)
    ensures |Unused(Entered(m, p).frames)| == |Unused(m.frames)| - FramesNeeded(p.size)
  {
    var d, k := FirstUnused(m.dirUsed, 0), Entered(m, p);
    var pool := Pool(m.frames, m.freeFrames, KernelOnly(m.dirs[d]));
    AllocateProcessTakes(pool, p.buf, FramesNeeded(p.size));
    forall e, j | UserPage(k, e, j) ensures k.dirs[e][j].frame < PAGE_FRAME_MAX_COUNT && k.frames[k.dirs[e][j].frame] {
      assert e != d ==> UserPage(m, e, j);
    }
    forall e, j, e', j', f | FrameOf(k, e, j, f) && FrameOf(k, e', j', f) ensures e == e' && j == j' {
      assert e != d ==> FrameOf(m, e, j, f);
      assert e' != d ==> FrameOf(m, e', j', f);
    }
  }

  /** A successful create gives the new process's directory exactly these user pages, writable and
      of 4 MiB: those of the program, from the one it is loaded at on, and the stack's; every
      other slot is a new directory's. */
  lemma CreatedPages(m: Machine, p: Program, j: nat)
    requires Creatable(m, p) && Refusal(m, p) == SUCCESS && j < PAGE_ENTRY_COUNT
    ensures var d, first := FirstUnused(m.dirUsed, 0), p.buf / 0x40_0000;
      var e := Create(m, p, 0).0.dirs[d][j];
      if first <= j < first + FramesNeeded(p.size) - 1 || j == 0x2FF then WritableUserPage(e) else e == KernelOnly(m.dirs[d])[j]
  {
    ProcessPagesMapped(Pool(m.frames, m.freeFrames, KernelOnly(m.dirs[FirstUnused(m.dirUsed, 0)])), p.buf, FramesNeeded(p.size), j);
  }

  ghost predicate CreateOrTimer(e: Event) {
    (e.CreateEvent? && e.readCode == 0) || e.TimerEvent?
  }

  ghost predicate CreatesOnly(es: seq<Event>) {
    forall i :: 0 <= i < |es| ==> CreateOrTimer(es[i])
  }

  /** Frames reserved by the event: what its process needs, or none when it is refused. */
  ghost function Reserved(m: Machine, e: Event): int {
    if e.CreateEvent? && Refusal(m, e.program) == SUCCESS then FramesNeeded(e.program.size) else 0
  }

  lemma SameFrames(m: Machine, k: Machine)
    requires FramesOK(m) && k.frames == m.frames && k.freeFrames == m.freeFrames && k.dirs == m.dirs && k.dirUsed == m.dirUsed
    ensures FramesOK(k)
  {
    forall d, j | UserPage(k, d, j) ensures UserPage(m, d, j) {}
    forall d, j, d', j', f | FrameOf(k, d, j, f) && FrameOf(k, d', j', f) ensures d == d' && j == j' {
      assert FrameOf(m, d, j, f) && FrameOf(m, d', j', f);
    }
  }

  lemma StepKeepsFrames(m: Machine, e: Event)
    requires Going(m) && Allowed(m, e) && FramesOK(m) && CreateOrTimer(e)
    ensures FramesOK(Step(m, e)) && Step(m, e).freeFrames == m.freeFrames - Reserved(m, e)
  {
    StepKeepsInvariant(m, e);
    if e.TimerEvent? {
      SameFrames(m, Step(m, e));
    } else if Refusal(m, e.program) == SUCCESS {
      EnteredFrames(m, e.program);
      SameFrames(Entered(m, e.program), Step(m, e));
    }
  }

  ghost function ReservedOver(m: Machine, es: seq<Event>): int {
    if es == [] then 0 else ReservedOver(m, es[..|es| - 1]) + Reserved(Run(m, es[..|es| - 1]), es[|es| - 1])
  }

  /** Over any run of creates whose file reads succeed, with timer interrupts in between, the free
      count is exact, no frame is mapped twice, and the frames gone are those reserved. */
  lemma {:induction false} RunKeepsFrames(m: Machine, es: seq<Event>)
    requires Going(m) && AllowedRun(m, es) && FramesOK(m) && CreatesOnly(es)
    ensures FramesOK(Run(m, es)) && Run(m, es).freeFrames == m.freeFrames - ReservedOver(m, es)
  {
    if es != [] {
      var before := es[..|es| - 1];
      RunKeepsFrames(m, before);
      RunKeepsInvariant(m, before);
      StepKeepsFrames(Run(m, before), es[|es| - 1]);
    }
  }

  // ---- What a destroy does to the frame count ----

  lemma {:induction false} ReleaseFramesIs(frames: FrameMap, free: uint32, dir: PageDirectory, n: nat)
    requires free + n < WORD_LIMIT
    ensures ReleaseFrames(frames, free, dir, n) == (if n == 0 then frames else frames[0 := false], free + n)
  {
    if n > 0 {
      ReleaseFramesIs(frames, free, dir, n - 1);
      ReleasesFrameZero(dir, 0);
      assert frames[0 := false][0 := false] == frames[0 := false];
    }
  }

  /** What a destroy does to the frames: the first one is marked free if the process had any, and
      as many as it had are counted free. */
  lemma DestroyFrames(m: Machine, pid: uint32, i: nat)
    requires Invariant(m) && i < PROCESS_COUNT_MAX && HasPid(m.procs[i], pid) && m.freeFrames + m.procs[i].frameCount < WORD_LIMIT
    ensures CanDestroy(m, pid)
    ensures var k, n := Destroy(m, pid).0, m.procs[i].frameCount;
      && k.frames == (if n == 0 then m.frames else m.frames[0 := false])
      && k.freeFrames == m.freeFrames + n
  {
    DestroyNamesOne(m, pid, i);
    ReleaseFramesIs(m.frames, m.freeFrames, m.dirs[m.procs[i].context.pageDirectory.index], m.procs[i].frameCount);
  }

  lemma MarkUnused(used: seq<bool>, i: nat)
    requires i < |used| && used[i]
    ensures |Unused(used[i := false])| == |Unused(used)| + 1
  {
    assert Unused(used[i := false]) == Unused(used) + {i};
  }

  lemma FewUnused(frames: FrameMap)
    ensures |Unused(frames)| <= PAGE_FRAME_MAX_COUNT
  {
    SubsetSize(Unused(frames), Below(PAGE_FRAME_MAX_COUNT));
  }

  /** Destroying a process keeps the free count exact if and only if the process had no frame, or
      had one while frame 0 was in use: the loop frees frame 0 again and again. */
  lemma DestroyCountExact(m: Machine, pid: uint32)
    requires CanDestroy(m, pid) && CountExact(m.frames, m.freeFrames)
    requires FindPid(m.procs, pid, 0) < PROCESS_COUNT_MAX
    requires m.procs[FindPid(m.procs, pid, 0)].frameCount <= PROCESS_PAGE_FRAME_COUNT_MAX
    ensures var n, k := m.procs[FindPid(m.procs, pid, 0)].frameCount, Destroy(m, pid).0;
      CountExact(k.frames, k.freeFrames) <==> n == 0 || (n == 1 && m.frames[0])
  {
    var i := FindPid(m.procs, pid, 0);
    FewUnused(m.frames);
    ReleaseFramesIs(m.frames, m.freeFrames, m.dirs[m.procs[i].context.pageDirectory.index], m.procs[i].frameCount);
    if m.frames[0] {
      MarkUnused(m.frames, 0);
    } else {
      assert m.frames[0 := false] == m.frames;
    }
  }

  // ---- Starting ----

  /** The static initial state; page directories start out unused. */
  function Initial(dirs: Directories): Machine {
    Machine(seq(PROCESS_COUNT_MAX, _ => ZERO_PCB), -1, 0, 1,
            seq(PAGE_FRAME_MAX_COUNT, i => i == 0), PAGE_FRAME_MAX_COUNT - 1,
            seq(DIRECTORY_MAX_COUNT, _ => false), dirs, Null, 0, 0)
  }

  lemma InitialOK(dirs: Directories)
    ensures Invariant(Initial(dirs)) && FramesOK(Initial(dirs)) && Uncounted(Initial(dirs)) == 0
  {
    var m := Initial(dirs);
    assert LiveSlots(m.procs) == {};
    assert forall d, j :: !UserPage(m, d, j);
    InitialCount(dirs);
    assert DirectoriesOK(m) by {
      assert forall i, d :: !Owns(m, i, d);
    }
  }

  lemma InitialCount(dirs: Directories)
    ensures CountExact(Initial(dirs).frames, Initial(dirs).freeFrames)
  {
    assert Unused(Initial(dirs).frames) == Below(PAGE_FRAME_MAX_COUNT) - {0};
  }

  /** Once the first process is created, the first switch starts it and the machine is going. */
  lemma BootStarts(dirs: Directories, p: Program)
    requires Refusal(Initial(dirs), p) == SUCCESS && FramesNeeded(p.size) >= 1
    ensures Creatable(Initial(dirs), p)
    ensures var m := Create(Initial(dirs), p, 0).0;
      && CanSwitch(m) && Going(Switch(m)) && FramesOK(Switch(m)) && Uncounted(Switch(m)) == 0
      && Switch(m).current == 0 && Switch(m).procs[0].context == CreationContext(0)
  {
    InitialOK(dirs);
    var i := Initial(dirs);
    assert LiveSlots(i.procs) == {};
    CreateKeepsInvariant(i, p, 0);
    EnteredKeepsInvariant(i, p);
    EnteredFrames(i, p);
    EnteredLive(i, p);
    var m := Create(i, p, 0).0;
    StartedLive(Entered(i, p), 0);
    SameFrames(Entered(i, p), m);
    assert m.procs[0].state == NEW && m.procs[0].context == CreationContext(0);
    assert Yielded(m)[0].state.CanRun();
    SwitchKeepsInvariant(m);
    SameFrames(m, Switch(m));
    SameLive(m.procs, Switch(m).procs);
    SwitchSlot(m, 0);
    assert Chosen(m) == 0;
  }
}
