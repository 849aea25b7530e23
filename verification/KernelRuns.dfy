/** Whole runs of the process machine: creates, kills of processes that are not running, and
    timer interrupts, in any order. */
module KernelRuns {
  import opened Words
  import opened Paging
  import opened Kernel
  import opened KernelInvariant

  datatype Event = CreateEvent(program: Program, readCode: int) | KillEvent(pid: uint32) | TimerEvent(frame: Frame)

  /** The hypotheses under which an event happens: at most fifteen processes and a pid left for
      a create, and the running process is not killed. */
  ghost predicate Allowed(m: Machine, e: Event) {
    && 0 <= m.current < PROCESS_COUNT_MAX
    && match e
       case CreateEvent(p, _) =>
         |LiveSlots(m.procs)| < LIVE_MAX && m.nextPid < MAX_PID && (Refusal(m, p) == SUCCESS ==> FramesNeeded(p.size) >= 1)
       case KillEvent(pid) => m.procs[m.current].pid != pid
       case TimerEvent(_) => true
  }

  /** The calls an event makes are defined. */
  ghost predicate Defined(m: Machine, e: Event) {
    match e
    case CreateEvent(p, _) => Creatable(m, p)
    case KillEvent(pid) => CanDestroy(m, pid)
    case TimerEvent(_) => CanTick(m)
  }

  /** One event. Where its calls would not be defined the machine is left as it is; by
      StepKeepsInvariant that never happens in a run. */
  ghost function Step(m: Machine, e: Event): Machine {
    if !Defined(m, e) then m
    else match e
      case CreateEvent(p, readCode) => Create(m, p, readCode).0
      case KillEvent(pid) => Destroy(m, pid).0
      case TimerEvent(f) => Timer(m, f)
  }

  ghost function Run(m: Machine, es: seq<Event>): Machine {
    if es == [] then m else Step(Run(m, es[..|es| - 1]), es[|es| - 1])
  }

  ghost predicate AllowedRun(m: Machine, es: seq<Event>) {
    es == [] || (AllowedRun(m, es[..|es| - 1]) && Allowed(Run(m, es[..|es| - 1]), es[|es| - 1]))
  }

  /** A machine with a process running. */
  ghost predicate Going(m: Machine) {
    Invariant(m) && m.current >= 0
  }

  lemma StepKeepsInvariant(m: Machine, e: Event)
    requires Going(m) && Allowed(m, e)
    ensures Defined(m, e) && Going(Step(m, e))
  {
    match e
    case CreateEvent(p, readCode) => CreateKeepsInvariant(m, p, readCode);
    case KillEvent(pid) => DestroyKeepsInvariant(m, pid);
    case TimerEvent(f) => TimerKeepsInvariant(m, f);
  }

  /** Over every run exactly one process is running, in the slot the scheduler names; pids are
      distinct and page directories match live processes. */
  lemma {:induction false} RunKeepsInvariant(m: Machine, es: seq<Event>)
    requires Going(m) && AllowedRun(m, es)
    ensures Going(Run(m, es))
  {
    if es != [] {
      RunKeepsInvariant(m, es[..|es| - 1]);
      StepKeepsInvariant(Run(m, es[..|es| - 1]), es[|es| - 1]);
    }
  }

  // ---- Counting processes ----

  /** The event is a create that gets as far as reading its file, and fails there. */
  ghost predicate FailsToRead(m: Machine, e: Event) {
    e.CreateEvent? && Refusal(m, e.program) == SUCCESS && e.readCode != 0
  }

  /** Live processes that active_process_count does not count. */
  ghost function Uncounted(m: Machine): int {
    |LiveSlots(m.procs)| - m.active
  }

  lemma CreateCounts(m: Machine, p: Program, readCode: int)
    requires Going(m) && Allowed(m, CreateEvent(p, readCode))
    ensures Creatable(m, p)
    ensures Uncounted(Create(m, p, readCode).0) == Uncounted(m) + if FailsToRead(m, CreateEvent(p, readCode)) then 1 else 0
  {
    CreateKeepsInvariant(m, p, readCode);
    if Refusal(m, p) == SUCCESS {
      EnteredLive(m, p);
      if readCode != 0 {
        EnteredKeepsInvariant(m, p);
        DestroyNamesOne(Entered(m, p), m.nextPid, FirstTerminated(m.procs, 0));
      } else {
        StartedLive(Entered(m, p), FirstTerminated(m.procs, 0));
      }
    }
  }

  lemma StartedLive(m: Machine, i: nat)
    requires i < PROCESS_COUNT_MAX
    ensures LiveSlots(Started(m, i).procs) == LiveSlots(m.procs)
  {
  }

  lemma EnteredLive(m: Machine, p: Program)
    requires CanCreate(m, p) && Refusal(m, p) == SUCCESS
    ensures var i := FirstTerminated(m.procs, 0);
      && i !in LiveSlots(m.procs)
      && LiveSlots(Entered(m, p).procs) == LiveSlots(m.procs) + {i}
      && LiveSlots(Entered(m, p).procs) - {i} == LiveSlots(m.procs)
      && |LiveSlots(Entered(m, p).procs)| == |LiveSlots(m.procs)| + 1
  {
  }

  lemma KillCounts(m: Machine, pid: uint32)
    requires Going(m) && Allowed(m, KillEvent(pid))
    ensures CanDestroy(m, pid) && Uncounted(Destroy(m, pid).0) == Uncounted(m)
  {
    var i := FindPid(m.procs, pid, 0);
    if i < PROCESS_COUNT_MAX {
      DestroyNamesOne(m, pid, i);
    }
  }

  lemma TimerKeepsLive(m: Machine, f: Frame)
    requires Going(m)
    ensures CanTick(m) && LiveSlots(Timer(m, f).procs) == LiveSlots(m.procs) && Timer(m, f).active == m.active
  {
    RunningCanSwitch(m);
    if Preempts(m) {
      SavedKeepsInvariant(m, f);
      SavedSwitches(m, f);
      SameLive(m.procs, Saved(m, f));
      SwitchStates(Ticked(m).(procs := Saved(m, f)));
      SameLive(Saved(m, f), Timer(m, f).procs);
    }
  }

  lemma SameLive(p: ProcessList, q: ProcessList)
    requires forall i :: 0 <= i < PROCESS_COUNT_MAX ==> p[i].Live() == q[i].Live()
    ensures LiveSlots(p) == LiveSlots(q)
  {
  }

  /** Events of the run that are creates failing to read their file. */
  ghost function ReadFailures(m: Machine, es: seq<Event>): nat {
    if es == [] then 0
    else ReadFailures(m, es[..|es| - 1]) + if FailsToRead(Run(m, es[..|es| - 1]), es[|es| - 1]) then 1 else 0
  }

  /** The process count falls behind the number of live processes by exactly one for each create
      whose file could not be read: it is the true count if and only if there was none. */
  lemma {:induction false} CountFallsBehind(m: Machine, es: seq<Event>)
    requires Going(m) && AllowedRun(m, es)
    ensures Uncounted(Run(m, es)) == Uncounted(m) + ReadFailures(m, es)
  {
    if es != [] {
      var before, e := es[..|es| - 1], es[|es| - 1];
      var k := Run(m, before);
      CountFallsBehind(m, before);
      RunKeepsInvariant(m, before);
      StepKeepsInvariant(k, e);
      match e
      case CreateEvent(p, readCode) => CreateCounts(k, p, readCode);
      case KillEvent(pid) => KillCounts(k, pid);
      case TimerEvent(f) => TimerKeepsLive(k, f);
    }
  }

  // ---- Bounded waiting ----

  /** The event is a timer interrupt that switches processes. */
  ghost predicate Switches(m: Machine, e: Event) {
    e.TimerEvent? && Preempts(m)
  }

  ghost function SwitchCount(m: Machine, es: seq<Event>): nat {
    if es == [] then 0
    else SwitchCount(m, es[..|es| - 1]) + if Switches(Run(m, es[..|es| - 1]), es[|es| - 1]) then 1 else 0
  }

  /** Steps from the current slot to slot `s`, going round the fifteen slots in use; a full round
      for the current slot itself. */
  function Distance(current: int, s: nat): int {
    if s > current then s - current else s - current + LIVE_MAX
  }

  /** The most switches that can still pass before the process in slot `s` runs: its distance if
      it is READY, one more round if it is NEW and the scan first has to step over it. */
  ghost function Wait(m: Machine, s: nat): int
    requires s < LIVE_MAX
  {
    WaitIn(m.current, s, m.procs[s].state)
  }

  function WaitIn(current: int, s: nat, x: State): int {
    Distance(current, s) + if x == NEW then LIVE_MAX - 1 else 0
  }

  /** Slot `s` holds a process waiting to run. */
  ghost predicate Waiting(m: Machine, s: nat) {
    s < LIVE_MAX && m.procs[s].state.CanRun()
  }

  /** With a process running, the scan is a search for the first READY slot after it. */
  lemma SwitchFromRunning(m: Machine, n: nat)
    requires SlotsOK(m) && m.current >= 0 && CanSwitch(m) && n == Offset(Yielded(m), m.current + 1, READY, 0)
    ensures n < PROCESS_COUNT_MAX && ScanLength(Yielded(m), m.current + 1) == (n, n)
    ensures Chosen(m) == After(m.current + 1, n) < LIVE_MAX
  {
    OffsetFinds(Yielded(m), m.current + 1, READY, m.current);
    ChosenWaits(m);
  }

  /** The state of a waiting slot across a switch that chooses another one. */
  lemma WaitsOn(m: Machine, s: nat, n: nat)
    requires SlotsOK(m) && m.current >= 0 && CanSwitch(m) && Waiting(m, s) && Chosen(m) != s
    requires ScanLength(Yielded(m), m.current + 1) == (n, n)
    ensures Switch(m).procs[s].state == if Scanned(m.current + 1, n, s) then READY else m.procs[s].state
  {
    SwitchSlot(m, s);
    assert Yielded(m)[s] == m.procs[s];
  }

  /** The scan stops no later than at a waiting READY slot. */
  lemma ReadyIsAhead(m: Machine, s: nat, n: nat)
    requires SlotsOK(m) && m.current >= 0 && Waiting(m, s) && n == Offset(Yielded(m), m.current + 1, READY, 0)
    ensures s != m.current && (m.procs[s].state == READY ==> n <= Ahead(m.current + 1, s))
  {
    if m.procs[s].state == READY {
      OffsetFinds(Yielded(m), m.current + 1, READY, s);
    }
  }

  /** A switch from a running process either runs the process in slot `s` or shortens its wait. */
  lemma SwitchShortensWait(m: Machine, s: nat)
    requires SlotsOK(m) && m.current >= 0 && CanSwitch(m) && Waiting(m, s)
    ensures Switch(m).current == s || (Waiting(Switch(m), s) && Wait(Switch(m), s) < Wait(m, s))
  {
    var n, c := Offset(Yielded(m), m.current + 1, READY, 0), Chosen(m);
    if c != s {
      SwitchFromRunning(m, n);
      WaitsOn(m, s, n);
      ReadyIsAhead(m, s, n);
      StepsCloser(m.current, c, n, s, m.procs[s].state, Switch(m).procs[s].state);
    }
  }

  /** The wait of slot `s` when the scan from `current` stops after `n` slots, at `chosen`. */
  lemma StepsCloser(current: int, chosen: nat, n: nat, s: nat, x: State, y: State)
    requires 0 <= current < LIVE_MAX && s < LIVE_MAX && n < PROCESS_COUNT_MAX && s != current
    requires chosen == After(current + 1, n) < LIVE_MAX && chosen != s && x.CanRun()
    requires x == READY ==> n <= Ahead(current + 1, s)
    requires y == if Scanned(current + 1, n, s) then READY else x
    ensures y.CanRun() && WaitIn(chosen, s, y) < WaitIn(current, s, x)
  {
  }

  lemma TimerShortensWait(m: Machine, f: Frame, s: nat)
    requires Going(m) && Waiting(m, s)
    ensures CanTick(m)
    ensures var k := Timer(m, f);
      if Preempts(m) then k.current == s || (Waiting(k, s) && Wait(k, s) < Wait(m, s))
      else Waiting(k, s) && Wait(k, s) == Wait(m, s)
  {
    RunningCanSwitch(m);
    if Preempts(m) {
      SavedKeepsInvariant(m, f);
      SavedSwitches(m, f);
      SwitchShortensWait(Ticked(m).(procs := Saved(m, f)), s);
    }
  }

  /** The event kills the process in slot `s`. */
  ghost predicate Kills(m: Machine, e: Event, s: nat)
    requires s < LIVE_MAX
  {
    e.KillEvent? && HasPid(m.procs[s], e.pid)
  }

  /** Any event but its own kill leaves a waiting process waiting no longer than before, and a
      switch runs it or shortens its wait. */
  lemma StepShortensWait(m: Machine, e: Event, s: nat)
    requires Going(m) && Allowed(m, e) && Waiting(m, s) && !Kills(m, e, s)
    ensures var k := Step(m, e);
      k.current == s || (Waiting(k, s) && Wait(k, s) <= Wait(m, s) - if Switches(m, e) then 1 else 0)
  {
    StepKeepsInvariant(m, e);
    match e
    case CreateEvent(p, readCode) =>
      CreateKeepsSlot(m, p, readCode, s);
    case KillEvent(pid) =>
      if FindPid(m.procs, pid, 0) < PROCESS_COUNT_MAX {
        DestroyNamesOne(m, pid, FindPid(m.procs, pid, 0));
      }
    case TimerEvent(f) =>
      TimerShortensWait(m, f, s);
  }

  /** A create changes no live slot and does not move the scheduler. */
  lemma CreateKeepsSlot(m: Machine, p: Program, readCode: int, s: nat)
    requires Going(m) && Allowed(m, CreateEvent(p, readCode)) && s < PROCESS_COUNT_MAX && m.procs[s].Live()
    ensures Creatable(m, p)
    ensures Create(m, p, readCode).0.procs[s] == m.procs[s] && Create(m, p, readCode).0.current == m.current
  {
    CreateKeepsInvariant(m, p, readCode);
    if Refusal(m, p) == SUCCESS {
      EnteredKeepsInvariant(m, p);
      FailedKeepsSlot(Entered(m, p), m.nextPid, FirstTerminated(m.procs, 0), s);
    }
  }

  lemma FailedKeepsSlot(k: Machine, pid: uint32, i: nat, s: nat)
    requires Invariant(k) && i < PROCESS_COUNT_MAX && HasPid(k.procs[i], pid) && s < PROCESS_COUNT_MAX && s != i
    ensures CanDestroy(k, pid) && Destroy(k, pid).0.procs[s] == k.procs[s] && Destroy(k, pid).0.current == k.current
    ensures Started(k, i).procs[s] == k.procs[s] && Started(k, i).current == k.current
  {
    DestroyNamesOne(k, pid, i);
  }

  /** No event of the run kills the process in slot `s`. */
  ghost predicate Survives(m: Machine, es: seq<Event>, s: nat)
    requires s < LIVE_MAX
  {
    es == [] || (Survives(m, es[..|es| - 1], s) && !Kills(Run(m, es[..|es| - 1]), es[|es| - 1], s))
  }

  /** The process in slot `s` runs after some event of the run. */
  ghost predicate GetsToRun(m: Machine, es: seq<Event>, s: nat) {
    exists n :: 0 < n <= |es| && Run(m, es[..n]).current == s
  }

  lemma {:induction false} WaitsOrRuns(m: Machine, es: seq<Event>, s: nat)
    requires Going(m) && AllowedRun(m, es) && Waiting(m, s) && Survives(m, es, s)
    ensures GetsToRun(m, es, s) || (Waiting(Run(m, es), s) && Wait(Run(m, es), s) + SwitchCount(m, es) <= Wait(m, s))
  {
    if es != [] {
      var before, e := es[..|es| - 1], es[|es| - 1];
      WaitsOrRuns(m, before, s);
      if GetsToRun(m, before, s) {
        var n :| 0 < n <= |before| && Run(m, before[..n]).current == s;
        assert es[..n] == before[..n];
      } else {
        RunKeepsInvariant(m, before);
        StepShortensWait(Run(m, before), e, s);
        if Run(m, es).current == s {
          assert es[..|es|] == es;
        }
      }
    }
  }

  /** A READY process runs within fourteen switches and a NEW one within twenty-eight, whatever
      other processes are created, killed or preempted in between. */
  lemma BoundedWaiting(m: Machine, es: seq<Event>, s: nat)
    requires Going(m) && AllowedRun(m, es) && Waiting(m, s) && Survives(m, es, s)
    requires SwitchCount(m, es) >= if m.procs[s].state == READY then LIVE_MAX - 1 else 2 * (LIVE_MAX - 1)
    ensures GetsToRun(m, es, s)
  {
    WaitsOrRuns(m, es, s);
    RunKeepsInvariant(m, es);
  }

  // ---- Bounded waiting, in timer interrupts ----

  ghost function TimerCount(es: seq<Event>): nat {
    if es == [] then 0 else TimerCount(es[..|es| - 1]) + if es[|es| - 1].TimerEvent? then 1 else 0
  }

  /** At every timer interrupt of the run more than one process is counted. */
  ghost predicate Busy(m: Machine, es: seq<Event>) {
    es == [] || (Busy(m, es[..|es| - 1]) && (es[|es| - 1].TimerEvent? ==> Run(m, es[..|es| - 1]).active > 1))
  }

  /** The clock of `now` is that of `m` after `n` timer interrupts, every tenth of them, `k` in all, a switch. */
  ghost predicate Paced(m: Machine, now: Machine, n: nat, k: nat) {
    now.ticks < 1000 && 10 * k + now.ticks % 10 == m.ticks % 10 + n
  }

  lemma TickPaces(m: Machine, now: Machine, next: Machine, n: nat, k: nat)
    requires Paced(m, now, n, k) && next.ticks == Ticked(now).ticks
    ensures Paced(m, next, n + 1, k + if Ticked(now).ticks % 10 == 0 then 1 else 0)
  {
  }

  lemma StepPaces(m: Machine, now: Machine, e: Event, n: nat, k: nat)
    requires Paced(m, now, n, k) && Going(now) && Allowed(now, e) && (e.TimerEvent? ==> now.active > 1)
    ensures Paced(m, Step(now, e), n + (if e.TimerEvent? then 1 else 0), k + (if Switches(now, e) then 1 else 0))
  {
    StepTicks(now, e);
    if e.TimerEvent? {
      TickPaces(m, now, Step(now, e), n, k);
    }
  }

  /** While busy, every tenth timer interrupt switches. */
  lemma {:induction false} SwitchesByTicks(m: Machine, es: seq<Event>)
    requires Going(m) && AllowedRun(m, es) && Busy(m, es) && m.ticks < 1000
    ensures Paced(m, Run(m, es), TimerCount(es), SwitchCount(m, es))
  {
    if es != [] {
      var before, e := es[..|es| - 1], es[|es| - 1];
      SwitchesByTicks(m, before);
      RunKeepsInvariant(m, before);
      StepPaces(m, Run(m, before), e, TimerCount(before), SwitchCount(m, before));
    }
  }

  /** Only timer interrupts move the clock. */
  lemma StepTicks(m: Machine, e: Event)
    requires Going(m) && Allowed(m, e)
    ensures Step(m, e).ticks == if e.TimerEvent? then Ticked(m).ticks else m.ticks
  {
    StepKeepsInvariant(m, e);
    match e
    case CreateEvent(p, readCode) => CreateTicks(m, p, readCode);
    case KillEvent(pid) =>
    case TimerEvent(f) =>
  }

  lemma CreateTicks(m: Machine, p: Program, readCode: int)
    requires Creatable(m, p)
    ensures Create(m, p, readCode).0.ticks == m.ticks
  {
  }

  /** While a process waits and another runs there are two of them, and if no read ever failed
      they are both counted. */
  lemma {:induction false} WaitingIsBusy(m: Machine, es: seq<Event>, s: nat)
    requires Going(m) && AllowedRun(m, es) && Waiting(m, s) && Survives(m, es, s)
    requires Uncounted(m) == 0 && ReadFailures(m, es) == 0
    ensures GetsToRun(m, es, s) || Busy(m, es)
  {
    if es != [] {
      var before := es[..|es| - 1];
      WaitingIsBusy(m, before, s);
      if GetsToRun(m, before, s) {
        var n :| 0 < n <= |before| && Run(m, before[..n]).current == s;
        assert es[..n] == before[..n];
      } else {
        WaitsOrRuns(m, before, s);
        RunKeepsInvariant(m, before);
        CountFallsBehind(m, before);
        TwoLive(Run(m, before), s);
      }
    }
  }

  lemma TwoLive(m: Machine, s: nat)
    requires Going(m) && Waiting(m, s)
    ensures |LiveSlots(m.procs)| >= 2
  {
    SubsetSize({m.current as nat, s}, LiveSlots(m.procs));
  }

  lemma PacedEnough(m: Machine, now: Machine, n: nat, k: nat)
    requires Paced(m, now, n, k)
    ensures (n >= 140 ==> k >= 14) && (n >= 280 ==> k >= 28)
  {
  }

  /** In timer interrupts: as long as no create fails to read its file, a READY process runs
      within 140 of them and a NEW one within 280. */
  lemma BoundedWaitingInTicks(m: Machine, es: seq<Event>, s: nat)
    requires Going(m) && AllowedRun(m, es) && Waiting(m, s) && Survives(m, es, s)
    requires m.ticks < 1000 && Uncounted(m) == 0 && ReadFailures(m, es) == 0
    requires TimerCount(es) >= if m.procs[s].state == READY then 140 else 280
    ensures GetsToRun(m, es, s)
  {
    WaitingIsBusy(m, es, s);
    if !GetsToRun(m, es, s) {
      SwitchesByTicks(m, es);
      PacedEnough(m, Run(m, es), TimerCount(es), SwitchCount(m, es));
      BoundedWaiting(m, es, s);
    }
  }
}
