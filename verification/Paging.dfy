/** paging.c: the page-frame map and the pool of page directories. */
module Paging {
  import opened Words

  const PAGE_ENTRY_COUNT: nat := 1024
  const PAGE_FRAME_SIZE: nat := 0x40_0000
  const PAGE_FRAME_MAX_COUNT: nat := 32
  const DIRECTORY_MAX_COUNT: nat := 32

  /** A ten-bit frame number. */
  type frameno = x: int | 0 <= x < 0x400

  /** A page directory entry: the four flag bits the kernel uses and the frame number. */
  datatype Pde = Pde(present: bool, write: bool, user: bool, big: bool, frame: frameno) {
    predicate IsUserPage() {
      present && user
    }
  }

  const NO_PAGE: Pde := Pde(false, false, false, false, 0)

  type PageDirectory = s: seq<Pde> | |s| == PAGE_ENTRY_COUNT witness seq(PAGE_ENTRY_COUNT, _ => NO_PAGE)
  type FrameMap = s: seq<bool> | |s| == PAGE_FRAME_MAX_COUNT witness seq(PAGE_FRAME_MAX_COUNT, _ => false)
  type Directories = s: seq<PageDirectory> | |s| == DIRECTORY_MAX_COUNT
    witness seq(DIRECTORY_MAX_COUNT, _ => seq(PAGE_ENTRY_COUNT, _ => NO_PAGE))
  type DirectoryUse = s: seq<bool> | |s| == DIRECTORY_MAX_COUNT witness seq(DIRECTORY_MAX_COUNT, _ => false)

  // ---- Page frames ----

  /** The frame map, the free count kept beside it, and the directory being filled. */
  datatype Pool = Pool(frames: FrameMap, free: uint32, dir: PageDirectory)

  function FirstUnused(used: seq<bool>, i: nat): (n: nat)
    requires i <= |used|
    ensures i <= n <= |used|
    ensures forall j :: i <= j < n ==> used[j]
    ensures n < |used| ==> !used[n]
    decreases |used| - i
  {
    if i == |used| || !used[i] then i else FirstUnused(used, i + 1)
  }

  ghost function Unused(used: seq<bool>): set<nat> {
    set i: nat | 0 <= i < |used| && !used[i]
  }

  function UserPde(frame: nat): Pde {
    Pde(true, true, true, true, frame % 0x400)
  }

  /** The directory slot of a 32-bit virtual address. */
  function PageIndex(address: uint32): (i: nat)
    ensures i < PAGE_ENTRY_COUNT
  {
    (address / PAGE_FRAME_SIZE) % 0x400
  }

  /** paging_allocate_user_page_frame. */
  function AllocateUser(p: Pool, address: uint32): Pool {
    if p.free < 1 then p
    else
      var i := FirstUnused(p.frames, 0);
      var dir := p.dir[PageIndex(address) := UserPde(i)];
      if i < PAGE_FRAME_MAX_COUNT then Pool(p.frames[i := true], p.free - 1, dir) else p.(dir := dir)
  }

  /** The first `n` pages from `base` on, in the order of the loop that maps the program. */
  function AllocateCode(p: Pool, base: uint32, n: nat): Pool {
    if n == 0 then p
    else AllocateUser(AllocateCode(p, base, n - 1), (base + (n - 1) * PAGE_FRAME_SIZE) % WORD_LIMIT)
  }

  const STACK_PAGE: uint32 := 0xBFF0_0000

  /** Everything a process of `needed` frames maps: its code pages, then its stack page. */
  function AllocateProcess(p: Pool, base: uint32, needed: nat): Pool
    requires needed >= 1
  {
    AllocateUser(AllocateCode(p, base, needed - 1), STACK_PAGE)
  }

  /** The free count is the number of unused frames. */
  ghost predicate CountExact(frames: FrameMap, free: uint32) {
    free == |Unused(frames)|
  }

  /** Each user page of the directory has a frame of its own, marked in use. */
  ghost predicate PagesSeparate(frames: FrameMap, dir: PageDirectory) {
    && (forall j :: 0 <= j < PAGE_ENTRY_COUNT && dir[j].IsUserPage() ==> dir[j].frame < PAGE_FRAME_MAX_COUNT && frames[dir[j].frame])
    && (forall i, j :: 0 <= i < j < PAGE_ENTRY_COUNT && dir[i].IsUserPage() && dir[j].IsUserPage() ==> dir[i].frame != dir[j].frame)
  }

  lemma MarkUsed(used: seq<bool>, i: nat)
    requires i < |used| && !used[i]
    ensures Unused(used[i := true]) == Unused(used) - {i} && |Unused(used[i := true])| == |Unused(used)| - 1
  {
  }

  lemma SomeUnused(used: seq<bool>)
    requires |Unused(used)| > 0
    ensures FirstUnused(used, 0) < |used|
  {
  }

  /** One allocation with a free frame at hand takes the lowest unused frame and nothing else. */
  lemma AllocateUserTakesOne(p: Pool, address: uint32)
    requires CountExact(p.frames, p.free) && p.free >= 1 && PagesSeparate(p.frames, p.dir)
    ensures var q := AllocateUser(p, address);
      && CountExact(q.frames, q.free) && q.free == p.free - 1 && PagesSeparate(q.frames, q.dir)
      && (forall i :: 0 <= i < PAGE_FRAME_MAX_COUNT && p.frames[i] ==> q.frames[i])
      && (forall j :: 0 <= j < PAGE_ENTRY_COUNT && j != PageIndex(address) ==> q.dir[j] == p.dir[j])
      && (var e := q.dir[PageIndex(address)];
          && e == Pde(true, true, true, true, e.frame) && e.frame < PAGE_FRAME_MAX_COUNT
          && !p.frames[e.frame] && forall i :: 0 <= i < e.frame ==> p.frames[i])
      && (forall i :: 0 <= i < PAGE_FRAME_MAX_COUNT && i != q.dir[PageIndex(address)].frame ==> q.frames[i] == p.frames[i])
  {
    SomeUnused(p.frames);
    MarkUsed(p.frames, FirstUnused(p.frames, 0));
  }

  /** An allocation when no frame is counted free does nothing; when none is free after all it maps
      the page to the frame past the last one. */
  lemma AllocateUserFails(p: Pool, address: uint32)
    ensures p.free == 0 ==> AllocateUser(p, address) == p
    ensures p.free > 0 && Unused(p.frames) == {} ==>
              AllocateUser(p, address) == p.(dir := p.dir[PageIndex(address) := Pde(true, true, true, true, 32)])
  {
    var i := FirstUnused(p.frames, 0);
    assert i < |p.frames| ==> i in Unused(p.frames);
  }

  /** Frames newly taken between two states of the map. */
  ghost predicate OnlyNewFrames(frames: FrameMap, dir: PageDirectory, frames': FrameMap, dir': PageDirectory) {
    && (forall i :: 0 <= i < PAGE_FRAME_MAX_COUNT && frames[i] ==> frames'[i])
    && (forall j :: 0 <= j < PAGE_ENTRY_COUNT && dir'[j].IsUserPage() && dir'[j] != dir[j] ==>
          dir'[j].frame < PAGE_FRAME_MAX_COUNT && !frames[dir'[j].frame])
  }

  lemma {:induction false} AllocateCodeTakes(p: Pool, base: uint32, n: nat)
    requires CountExact(p.frames, p.free) && p.free >= n && PagesSeparate(p.frames, p.dir)
    ensures var q := AllocateCode(p, base, n);
      && CountExact(q.frames, q.free) && q.free == p.free - n && PagesSeparate(q.frames, q.dir)
      && OnlyNewFrames(p.frames, p.dir, q.frames, q.dir)
  {
    if n > 0 {
      AllocateCodeTakes(p, base, n - 1);
      AllocateUserTakesOne(AllocateCode(p, base, n - 1), (base + (n - 1) * PAGE_FRAME_SIZE) % WORD_LIMIT);
    }
  }

  /** A process's pages take exactly as many frames as it needs, all of them unused before, one
      for each page. */
  lemma AllocateProcessTakes(p: Pool, base: uint32, needed: nat)
    requires CountExact(p.frames, p.free) && p.free >= needed >= 1 && PagesSeparate(p.frames, p.dir)
    ensures var q := AllocateProcess(p, base, needed);
      && CountExact(q.frames, q.free) && q.free == p.free - needed && PagesSeparate(q.frames, q.dir)
      && OnlyNewFrames(p.frames, p.dir, q.frames, q.dir)
  {
    AllocateCodeTakes(p, base, needed - 1);
    AllocateUserTakesOne(AllocateCode(p, base, needed - 1), STACK_PAGE);
  }

  /** A present, writable user page of 4 MiB. */
  predicate WritableUserPage(e: Pde) {
    e.present && e.write && e.user && e.big
  }

  /** The loop maps the pages from the program's first on, and no other. */
  lemma {:induction false} CodePages(p: Pool, base: uint32, n: nat, j: nat)
    requires p.free >= n && base / PAGE_FRAME_SIZE + n <= PAGE_ENTRY_COUNT && j < PAGE_ENTRY_COUNT
    ensures AllocateCode(p, base, n).free >= p.free - n
    ensures var e := AllocateCode(p, base, n).dir[j];
      if base / PAGE_FRAME_SIZE <= j < base / PAGE_FRAME_SIZE + n then WritableUserPage(e) else e == p.dir[j]
  {
    if n > 0 {
      CodePages(p, base, n - 1, j);
      CodePageIndex(base, n - 1);
    }
  }

  lemma CodePageIndex(base: uint32, n: nat)
    requires base / PAGE_FRAME_SIZE + n < PAGE_ENTRY_COUNT
    ensures base + n * PAGE_FRAME_SIZE < WORD_LIMIT
    ensures PageIndex((base + n * PAGE_FRAME_SIZE) % WORD_LIMIT) == base / PAGE_FRAME_SIZE + n
  {
  }

  /** The directory slot of the stack page. */
  const STACK_SLOT: nat := 0x2FF

  /** A process's directory: its code pages and its stack page are writable user pages of 4 MiB,
      every other slot is as it was. */
  lemma ProcessPagesMapped(p: Pool, base: uint32, needed: nat, j: nat)
    requires p.free >= needed >= 1 && base / PAGE_FRAME_SIZE + needed - 1 <= PAGE_ENTRY_COUNT && j < PAGE_ENTRY_COUNT
    ensures var e, first := AllocateProcess(p, base, needed).dir[j], base / PAGE_FRAME_SIZE;
      if first <= j < first + needed - 1 || j == STACK_SLOT then WritableUserPage(e) else e == p.dir[j]
  {
    CodePages(p, base, needed - 1, j);
    assert PageIndex(STACK_PAGE) == STACK_SLOT;
  }

  // ---- Page directories ----

  function KernelPde(frame: frameno): Pde {
    Pde(true, true, false, true, frame)
  }

  /** The table with every present bit cleared, other bits as they were. */
  function Cleared(dir: PageDirectory): (d: PageDirectory)
    ensures forall j :: 0 <= j < PAGE_ENTRY_COUNT ==> d[j] == dir[j].(present := false)
  {
    seq(PAGE_ENTRY_COUNT, j requires 0 <= j < PAGE_ENTRY_COUNT => dir[j].(present := false))
  }

  /** A directory as paging_create_new_page_directory hands it out: only kernel pages present. */
  function KernelOnly(dir: PageDirectory): (d: PageDirectory)
    ensures forall j :: 0 <= j < PAGE_ENTRY_COUNT ==> !d[j].IsUserPage()
  {
    Cleared(dir)[0x300 := KernelPde(0)][0x301 := KernelPde(1)][0x3F4 := KernelPde(0x3F4)]
                [0x3F5 := KernelPde(0x3F5)][0x3F6 := KernelPde(0x3F6)]
  }

  /** The five kernel pages, present, writable, of 4 MiB and out of the user's reach. */
  predicate MapsKernel(dir: PageDirectory) {
    && dir[0x300] == Pde(true, true, false, true, 0) && dir[0x301] == Pde(true, true, false, true, 1)
    && dir[0x3F4] == Pde(true, true, false, true, 0x3F4) && dir[0x3F5] == Pde(true, true, false, true, 0x3F5)
    && dir[0x3F6] == Pde(true, true, false, true, 0x3F6)
  }

  predicate KernelSlot(j: nat) {
    j == 0x300 || j == 0x301 || j == 0x3F4 || j == 0x3F5 || j == 0x3F6
  }

  /** A new directory maps the kernel and nothing else, whatever it held before. */
  lemma NewDirectoryMapsKernel(dir: PageDirectory)
    ensures MapsKernel(KernelOnly(dir))
    ensures forall j :: 0 <= j < PAGE_ENTRY_COUNT ==> (KernelOnly(dir)[j].present <==> KernelSlot(j))
  {
  }

  /** paging_free_user_page_frame: the frame it gives back, by the division it makes. */
  function ReleasedFrame(dir: PageDirectory, address: uint32): (i: nat)
    ensures i < PAGE_FRAME_MAX_COUNT
  {
    dir[PageIndex(address)].frame / PAGE_FRAME_SIZE
  }

  /** Whatever page is released, it is always frame 0 that is marked free. */
  lemma ReleasesFrameZero(dir: PageDirectory, address: uint32)
    ensures ReleasedFrame(dir, address) == 0
  {
  }

  // ---- How many frames a program needs ----

  /** ceil_div on 32-bit words. */
  function CeilDiv(numerator: uint32, divisor: uint32): uint32 {
    if divisor == 0 then 0 else ((numerator + divisor - 1) % WORD_LIMIT) / divisor
  }

  /** Frames for a program of `size` bytes and its stack. */
  function FramesNeeded(size: uint32): uint32 {
    CeilDiv((size + PAGE_FRAME_SIZE) % WORD_LIMIT, PAGE_FRAME_SIZE)
  }

  /** The count covers the program and one more frame, with less than a frame to spare, if and
      only if the 32-bit sums do not wrap. */
  lemma FramesNeededExact(size: uint32)
    ensures size + 2 * 0x40_0000 <= 0x1_0000_0000 <==>
            FramesNeeded(size) * 0x40_0000 >= size + 0x40_0000 > (FramesNeeded(size) - 1) * 0x40_0000
  {
  }
}
