/** Tasks and descriptors together, on one heap: what a process holds is given back when it is reaped. */
module Octo {
  import opened Options
  import opened Bytes
  import opened Names
  import opened Paths
  import opened AbsPath
  import opened Blocks
  import opened Heap
  import opened Payloads
  import opened Sched
  import opened Tasks
  import opened Files
  import opened Driver
  import Elf
  import opened Frames
  import Paging
  import HeapRuns
  import FsState
  import FsUnique
  import HeapFs
  import Buffers
  import Chains
  import Cwd
  import Tree

  // ---- descriptors while others use the heap -----------------------------------------------------

  lemma SlotsMore(slots: seq<Slot>, bs: seq<Block>, bs': seq<Block>)
    requires SlotsOk(slots, bs) && forall b :: b in Live(bs) ==> b in Live(bs')
    ensures SlotsOk(slots, bs')
  {
    hide Live, Backed, Fields;
    forall i | 0 <= i < |slots| && slots[i].used ensures Backed(bs', slots[i].ptr, Capacity(slots[i])) {
      BackedMore(bs, bs', slots[i].ptr, Capacity(slots[i]));
    }
  }

  lemma SlotsWithout(slots: seq<Slot>, bs: seq<Block>, bs': seq<Block>, ptr: nat)
    requires SlotsOk(slots, bs) && forall b :: b in Live(bs) && b.Payload() != ptr ==> b in Live(bs')
    requires forall i :: 0 <= i < |slots| && slots[i].used ==> slots[i].ptr != ptr
    ensures SlotsOk(slots, bs')
  {
    hide Live, Backed, Fields;
    forall i | 0 <= i < |slots| && slots[i].used ensures Backed(bs', slots[i].ptr, Capacity(slots[i])) {
      BackedMore(bs, bs', slots[i].ptr, Capacity(slots[i]));
    }
  }

  /** An address is handed out once. */
  lemma {:induction false} AddressOnce(bs: seq<Block>, lo: nat, hi: nat, p: nat)
    requires Tiles(bs, lo, hi)
    ensures Ptrs(Live(bs))[p] <= 1 && (p < lo + HDR ==> Ptrs(Live(bs))[p] == 0)
    decreases |bs|
  {
    if bs != [] {
      AddressOnce(bs[1..], bs[0].End(), hi, p);
      if !bs[0].free {
        LiveHead(bs);
        assert Live(bs) == [bs[0]] + Live(bs[1..]);
        PtrsJoin([bs[0]], Live(bs[1..]));
        PtrsOne(bs[0]);
      } else {
        assert Live(bs) == Live(bs[1..]);
      }
    }
  }

  /** A stack is nobody's buffer. */
  lemma StackIsNoBuffer(bs: seq<Block>, base: nat, total: nat, rest: multiset<nat>, tasks: seq<Task>, slots: seq<Slot>,
                        s: nat, i: nat)
    requires HeapInv(bs, base, total) && Ptrs(Live(bs)) == rest + Stacks(tasks) + Bufs(slots)
    requires s < |tasks| && tasks[s].kstack != 0 && i < |slots| && slots[i].used
    ensures slots[i].ptr != tasks[s].kstack
  {
    hide Live, Ptrs, Stacks, Bufs;
    StacksSet(tasks, s, tasks[s]);
    BufsSet(slots, i, slots[i]);
    AddressOnce(bs, base, base + total, slots[i].ptr);
    assert StackOf(tasks[s])[tasks[s].kstack] == 1 && BufOf(slots[i])[slots[i].ptr] == 1;
  }

  // ---- whose descriptors -----------------------------------------------------------------------------

  /** A user task, ready or zombie, has this pid. */
  ghost predicate HasTask(tasks: seq<Task>, pid: int) {
    exists j :: 1 <= j < |tasks| && tasks[j].status != Free && tasks[j].pid == pid
  }

  /** Every open descriptor belongs to a task that has not been reaped. */
  ghost predicate Owned(tasks: seq<Task>, v: View) {
    forall i :: 0 <= i < |v| && v[i].Some? ==> HasTask(tasks, v[i].value.pid)
  }

  /** Calls of a task keep that so. */
  lemma OwnedCall(tasks: seq<Task>, v: View, c: Call)
    requires Owned(tasks, v) && HasTask(tasks, Caller(c))
    ensures Owned(tasks, Files.After(v, c))
  {
    hide HasTask;
  }

  lemma OwnedReaped(m: Machine, kdir: nat, v: View, s: nat)
    requires Inv(m, kdir) && s < MAX_TASKS && m.tasks[s].status == Zombie && Owned(m.tasks, v)
    ensures Owned(Reaped(m, s).tasks, Files.After(v, ClosedAll(m.tasks[s].pid)))
  {
    var r, w := Reaped(m, s).tasks, Dropped(v, m.tasks[s].pid);
    forall i | 0 <= i < |w| && w[i].Some? ensures HasTask(r, w[i].value.pid) {
      assert HasTask(m.tasks, v[i].value.pid);
      var j :| 1 <= j < MAX_TASKS && m.tasks[j].status != Free && m.tasks[j].pid == v[i].value.pid;
      assert r[j] == m.tasks[j];
    }
  }

  lemma OwnedSame(tasks: seq<Task>, tasks': seq<Task>, v: View)
    requires |tasks'| == |tasks| && Owned(tasks, v)
    requires forall j :: 0 <= j < |tasks| && tasks[j].status != Free ==>
      tasks'[j].status != Free && tasks'[j].pid == tasks[j].pid
    ensures Owned(tasks', v)
  {
    forall i | 0 <= i < |v| && v[i].Some? ensures HasTask(tasks', v[i].value.pid) {
      assert HasTask(tasks, v[i].value.pid);
      var j :| 1 <= j < |tasks| && tasks[j].status != Free && tasks[j].pid == v[i].value.pid;
      assert tasks'[j].status != Free && tasks'[j].pid == v[i].value.pid;
    }
  }

  lemma OwnedExited(m: Machine, kdir: nat, v: View)
    requires Inv(m, kdir) && m.current != 0 && Owned(m.tasks, v)
    ensures Owned(Exited(m).tasks, v)
  {
    hide Exited;
    ExitKeeps(m, kdir);
    OwnedSame(m.tasks, Exited(m).tasks, v);
  }

  lemma CurrentTask(m: Machine, kdir: nat)
    requires Inv(m, kdir) && m.current != 0
    ensures HasTask(m.tasks, m.tasks[m.current].pid)
  {
  }

  /** Without user tasks nothing is open. */
  lemma NoneOpen(tasks: seq<Task>, v: View)
    requires Owned(tasks, v) && forall j :: 1 <= j < |tasks| ==> tasks[j].status == Free
    ensures forall i :: 0 <= i < |v| ==> v[i] == None
  {
  }

  lemma SpawnFacts(m: Machine, kdir: nat, s: nat, pgdir: nat, kstack: nat)
    requires Sched.Shape(m) && OpOk(m, kdir, Op.Spawn(s, pgdir, kstack))
    ensures s < MAX_TASKS && kstack != 0
  {
  }

  lemma OwnedSpawned(m: Machine, kdir: nat, s: nat, pgdir: nat, kstack: nat, v: View)
    requires Sched.Shape(m) && OpOk(m, kdir, Op.Spawn(s, pgdir, kstack)) && Owned(m.tasks, v)
    ensures s < MAX_TASKS && Owned(Spawned(m, s, pgdir, kstack).tasks, v)
  {
    OwnedSame(m.tasks, Spawned(m, s, pgdir, kstack).tasks, v);
  }

  lemma RestIsNoBuffer(bs: seq<Block>, base: nat, total: nat, rest: multiset<nat>, stacks: multiset<nat>,
                       slots: seq<Slot>, ptr: nat)
    requires HeapInv(bs, base, total) && Ptrs(Live(bs)) == rest + stacks + Bufs(slots) && ptr in rest
    ensures forall i :: 0 <= i < |slots| && slots[i].used ==> slots[i].ptr != ptr
  {
    hide Live, Ptrs, Bufs;
    forall i | 0 <= i < |slots| && slots[i].used ensures slots[i].ptr != ptr {
      BufsSet(slots, i, slots[i]);
      AddressOnce(bs, base, base + total, slots[i].ptr);
      assert BufOf(slots[i])[slots[i].ptr] == 1;
    }
  }

  lemma KernelFacts(k: Kernel)
    requires k.Valid()
    ensures Inv(k.State(), k.kdir) && HeapInv(k.heap.bs, k.heap.base, k.heap.total) && k.heap.Valid()
    ensures Ptrs(Live(k.heap.bs)) == k.others + Stacks(k.tasks[..]) && k.tasks.Length == MAX_TASKS == |k.spaces|
    ensures (k.heap.mem as object) != k.tasks && (k.pool.bitmap as object) != k.heap.mem
    ensures (k.pool.bitmap as object) != k.tasks
    ensures k.pool.count <= 8 * k.pool.bitmap.Length
  {
    hide HeapInv, Heap.Rep, Live, Ptrs, FrameInv, Stacks;
    FrameInvSize(k.pool.mem, k.pool.base, k.pool.Used(), k.kd, k.tasks[..], k.spaces);
  }

  /** What the table needs of the heap, apart from its being a heap. */
  ghost predicate FilesOn(slots: seq<Slot>, bs: seq<Block>, others: multiset<nat>) {
    SlotsOk(slots, bs) && Ptrs(Live(bs)) == others + Bufs(slots)
  }

  lemma FilesFacts(ft: FileTable)
    requires ft.Valid()
    ensures FilesOn(ft.files[..], ft.heap.bs, ft.others) && ft.files.Length == MAX_FILES
    ensures (ft.files as object) != ft.heap.mem
    ensures (!ft.lost ==> ft.fs.Valid()) && ft.fs.CwdOk()
  {
    hide HeapInv, Heap.Rep, FsState.Rep, FatDriver.CwdOk, Live, Ptrs, SlotsOk, Bufs;
  }

  lemma FilesGive(slots: seq<Slot>, bs: seq<Block>, others: multiset<nat>)
    requires FilesOn(slots, bs, others)
    ensures SlotsOk(slots, bs) && Ptrs(Live(bs)) == others + Bufs(slots)
  {
    hide SlotsOk;
  }

  lemma FilesFrom(slots: seq<Slot>, bs: seq<Block>, others: multiset<nat>)
    requires SlotsOk(slots, bs) && Ptrs(Live(bs)) == others + Bufs(slots)
    ensures FilesOn(slots, bs, others)
  {
    hide SlotsOk;
  }

  lemma FilesBack(ft: FileTable)
    requires FilesOn(ft.files[..], ft.heap.bs, ft.others) && ft.files.Length == MAX_FILES
    requires (ft.files as object) != ft.heap.mem
    requires ft.heap.Valid() && (!ft.lost ==> ft.fs.Valid()) && ft.fs.CwdOk()
    ensures ft.Valid()
  {
    hide HeapInv, Heap.Rep, FsState.Rep, FatDriver.CwdOk, Live, Ptrs, SlotsOk, Bufs;
  }

  lemma ExitedStacks(m: Machine, kdir: nat)
    requires Inv(m, kdir) && m.current != 0
    ensures Stacks(Exited(m).tasks) == Stacks(m.tasks)
  {
    hide Stacks, Exited;
    ExitKeeps(m, kdir);
    StacksSet(m.tasks, m.current, m.tasks[m.current].(status := Zombie));
  }

  /** One address given back. */
  function Less(held: multiset<nat>, p: nat): multiset<nat> { held - multiset{p} }

  lemma TakenOut(all: multiset<nat>, rest: multiset<nat>, stacks: multiset<nat>, bufs: multiset<nat>, p: nat)
    requires all == rest + stacks + bufs && p in rest
    ensures all - multiset{p} == Less(rest, p) + stacks + bufs == Less(rest, p) + bufs + stacks
  {
  }

  lemma Swap(a: multiset<nat>, b: multiset<nat>, c: multiset<nat>)
    ensures a + b + c == a + c + b
  {
  }

  lemma SpawnLoads(k: Kernel, img: seq<Byte>)
    ensures k.CanSpawn(img) ==> Elf.Loadable(img)
  {
    hide Elf.Loadable;
  }

  lemma PutBack(held: multiset<nat>, p: nat)
    ensures Less(held + multiset{p}, p) == held
  {
  }

  class System {
    const kernel: Kernel
    const files: FileTable
    ghost var rest: multiset<nat>       // heap addresses held by neither tasks nor descriptors

    /** Tasks and descriptors share the heap: every address handed out has one owner. */
    ghost predicate Linked()
      reads this, kernel, kernel.tasks, kernel.pool, kernel.pool.bitmap, kernel.heap, kernel.heap.mem
      reads files, files.files, files.heap, files.heap.mem, files.fs, files.fs.vol
    {
      && kernel.heap == files.heap && kernel.Valid() && files.Valid()
      && (kernel.tasks as object) != files.files && (kernel.pool.bitmap as object) != files.files
      && kernel.others == rest + Bufs(files.files[..]) && files.others == rest + Stacks(kernel.tasks[..])
    }

    ghost predicate Valid()
      reads this, kernel, kernel.tasks, kernel.pool, kernel.pool.bitmap, kernel.heap, kernel.heap.mem
      reads files, files.files, files.heap, files.heap.mem, files.fs, files.fs.vol
    {
      Linked() && Owned(kernel.tasks[..], files.Descriptors())
    }

    constructor (kernel: Kernel, files: FileTable)
      requires kernel.heap == files.heap && kernel.Valid() && files.Valid() && kernel.others == files.others
      requires (kernel.tasks as object) != files.files && (kernel.pool.bitmap as object) != files.files
      requires forall i :: 0 <= i < files.files.Length ==> !files.files[i].used
      requires forall i :: 0 <= i < kernel.tasks.Length ==> kernel.tasks[i].kstack == 0
      ensures Valid() && this.kernel == kernel && this.files == files && rest == kernel.others
    {
      hide HeapInv, Heap.Rep, FsState.Rep, FatDriver.CwdOk, Live, Ptrs, SlotsOk, FrameInv, Inv;
      this.kernel, this.files, rest := kernel, files, kernel.others;
      new;
      NoTasksNoStacks(kernel.tasks[..]);
      TotalNone(BufList(files.files[..]));
    }

    /** The program in slot `s` is the one `img` describes. */
    ghost predicate Shows(s: nat, img: seq<Byte>)
      reads kernel`spaces, kernel.pool`mem
    {
      && Elf.Loadable(img) && s < |kernel.spaces|
      && Elf.Loaded(kernel.pool.mem, kernel.spaces[s], img, Elf.PhNum(img))
    }

    /** The part of task_spawn_user that concerns the heap's owners. */
    method SpawnTask(img: seq<Byte>) returns (pid: int, ghost s: nat)
      requires Linked() && Elf.NoWrap(img)
      modifies kernel`nextPid, kernel`spaces, kernel.tasks, kernel.pool`freeFrames, kernel.pool`mem, kernel.pool.bitmap
      modifies kernel.heap.mem, kernel.heap`bs, files`others
      ensures Linked() && files.Descriptors() == old(files.Descriptors()) && files.files[..] == old(files.files[..])
      ensures pid != -1 <==> old(kernel.CanSpawn(img))
      ensures pid == -1 ==> kernel.State() == old(kernel.State()) && kernel.heap.bs == old(kernel.heap.bs)
      ensures pid != -1 ==> s < kernel.tasks.Length && Sched.Shape(old(kernel.State()))
      ensures pid != -1 ==>
        OpOk(old(kernel.State()), kernel.kdir, Op.Spawn(s, kernel.tasks[s].pgdir, kernel.tasks[s].kstack))
      ensures pid != -1 ==>
        kernel.State() == Spawned(old(kernel.State()), s, kernel.tasks[s].pgdir, kernel.tasks[s].kstack)
      ensures pid != -1 ==> Shows(s, img) && s < kernel.tasks.Length && Identifies(kernel.tasks[..], s, pid)
    {
      hide HeapInv, Heap.Rep, FsState.Rep, FatDriver.CwdOk, Live, Ptrs, SlotsOk, FrameInv, Bufs, Stacks, LiveKept,
        Malloc, ViewOf, OpOk, Inv, Spawned;
      hide Elf.Loaded, Elf.Loadable, Paging.Kept, FramePool.Valid, FramePool.Used, Kernel.CanSpawn;
      ghost var slots, bs, m, m0 := files.files[..], kernel.heap.bs, kernel.heap.mem[..], kernel.State();
      InvShape(m0, kernel.kdir);
      SpawnLoads(kernel, img);
      pid, s := kernel.Spawn(img);
      ViewKept(slots, bs, m, kernel.heap.mem[..], kernel.heap.base);
      if pid != -1 {
        SpawnFacts(m0, kernel.kdir, s, kernel.tasks[s].pgdir, kernel.tasks[s].kstack);
        MallocPtrs(bs, kernel.heap.base, kernel.heap.total, KSTACK_SIZE);
        HeapRuns.MallocMembers(bs, kernel.heap.base, kernel.heap.total, KSTACK_SIZE);
        SlotsMore(slots, bs, kernel.heap.bs);
      }
      RebookFiles();
    }

    /** task_spawn_user: no open descriptor notices. */
    method Spawn(img: seq<Byte>) returns (pid: int, ghost s: nat)
      requires Valid() && Elf.NoWrap(img)
      modifies kernel`nextPid, kernel`spaces, kernel.tasks, kernel.pool`freeFrames, kernel.pool`mem, kernel.pool.bitmap
      modifies kernel.heap.mem, kernel.heap`bs, files`others
      ensures Valid() && files.Descriptors() == old(files.Descriptors())
      ensures pid != -1 <==> old(kernel.CanSpawn(img))
      ensures pid == -1 ==> kernel.State() == old(kernel.State()) && kernel.heap.bs == old(kernel.heap.bs)
      ensures pid != -1 ==> s < kernel.tasks.Length
      ensures pid != -1 ==>
        kernel.State() == Spawned(old(kernel.State()), s, kernel.tasks[s].pgdir, kernel.tasks[s].kstack)
      ensures pid != -1 ==> Shows(s, img) && s < kernel.tasks.Length && Identifies(kernel.tasks[..], s, pid)
    {
      hide Shows, Identifies, Linked, Owned, OpOk, FileTable.Descriptors, Kernel.CanSpawn;
      ghost var m, v := kernel.State(), files.Descriptors();
      pid, s := SpawnTask(img);
      if pid != -1 {
        OwnedSpawned(m, kernel.kdir, s, kernel.tasks[s].pgdir, kernel.tasks[s].kstack, v);
      }
    }

    /** file_close_all on behalf of a task. */
    method CloseAll(pid: int)
      requires Linked()
      modifies kernel`others, kernel.heap.mem, kernel.heap`bs
      modifies files`lost, files.files, files.fs.vol, files.fs`chains, files.fs`tree
      ensures Linked() && files.Descriptors() == Files.After(old(files.Descriptors()), ClosedAll(pid))
      ensures files.files[..] == DropSlots(old(files.files[..]), pid) && kernel.State() == old(kernel.State())
      ensures kernel.pool.count <= 8 * kernel.pool.bitmap.Length && kernel.pool.Used() == old(kernel.pool.Used())
    {
      hide HeapInv, Heap.Rep, FsState.Rep, FatDriver.CwdOk, Live, Ptrs, SlotsOk, FrameInv, Bufs, Stacks, ViewOf,
        Dropped, DropSlots, Inv;
      hide FramePool.Used, Stores;
      ghost var trees := files.CloseAll(pid);
      kernel.others := rest + Bufs(files.files[..]);
    }

    /** What task_reap gives back to frames and heap. */
    method FreeTask(s: nat)
      requires Linked() && s < kernel.tasks.Length && kernel.tasks[s].status == Zombie
      modifies kernel.tasks, kernel.pool`freeFrames, kernel.pool.bitmap, kernel.heap.mem, kernel.heap`bs, files`others
      ensures Linked() && files.Descriptors() == old(files.Descriptors()) && files.files[..] == old(files.files[..])
      ensures Sched.Shape(old(kernel.State()))
      ensures kernel.State() == Reaped(old(kernel.State()), s) && s < |kernel.spaces|
      ensures kernel.pool.count <= 8 * kernel.pool.bitmap.Length
      ensures kernel.pool.Used() == old(kernel.pool.Used()) - Paging.FramesOf(kernel.spaces[s])
    {
      hide Kernel.Valid, FileTable.Valid, FilesOn, SlotsOk, Bufs, Stacks, LiveKept, Release, PayloadIndex, ViewOf, Inv,
        Reaped;
      hide HeapInv, Ptrs, Live, Paging.FramesOf, FramePool.Used, KernelHeap.Valid;
      ghost var m0, slots, bs, m := kernel.State(), files.files[..], kernel.heap.bs, kernel.heap.mem[..];
      KernelFacts(kernel);
      FilesFacts(files);
      InvShape(m0, kernel.kdir);
      kernel.Reap(s);
      ReapFiles(bs, kernel.heap.base, kernel.heap.total, rest, m0, kernel.kdir, slots, s);
      ViewKept(slots, kernel.heap.bs, m, kernel.heap.mem[..], kernel.heap.base);
      RebookFiles();
    }

    /** After a change of tasks the descriptors' books are set right. */
    ghost method RebookFiles()
      requires kernel.heap == files.heap && kernel.Valid() && kernel.others == rest + Bufs(files.files[..])
      requires files.files.Length == MAX_FILES && (files.files as object) != files.heap.mem
      requires (!files.lost ==> files.fs.Valid()) && files.fs.CwdOk()
      requires (kernel.tasks as object) != files.files && (kernel.pool.bitmap as object) != files.files
      requires SlotsOk(files.files[..], files.heap.bs)
      modifies files`others
      ensures Linked()
    {
      hide Kernel.Valid, FileTable.Valid, FilesOn, SlotsOk, Bufs, Stacks, Inv, HeapInv, Ptrs, Live, KernelHeap.Valid,
        FatDriver.Valid;
      KernelFacts(kernel);
      Swap(rest, Bufs(files.files[..]), Stacks(kernel.tasks[..]));
      files.others := rest + Stacks(kernel.tasks[..]);
      FilesFrom(files.files[..], files.heap.bs, files.others);
      FilesBack(files);
    }

    /** task_reap: the zombie's descriptors are closed, its space and its stack given back, nobody else's. */
    method Reap(s: nat)
      requires Valid() && s < kernel.tasks.Length
      modifies kernel`others, kernel.tasks, kernel.pool`freeFrames, kernel.pool.bitmap, kernel.heap.mem, kernel.heap`bs
      modifies files`others, files`lost, files.files, files.fs.vol, files.fs`chains, files.fs`tree
      ensures Valid() && kernel.State() == Reaped(old(kernel.State()), s)
      ensures old(kernel.tasks[s]).status != Zombie ==>
        files.Descriptors() == old(files.Descriptors()) && kernel.heap.bs == old(kernel.heap.bs)
      ensures old(kernel.tasks[s]).status == Zombie ==>
        files.Descriptors() == Files.After(old(files.Descriptors()), ClosedAll(old(kernel.tasks[s]).pid))
      ensures old(kernel.tasks[s]).status == Zombie ==>
        s < |kernel.spaces| && kernel.pool.count <= 8 * kernel.pool.bitmap.Length
      ensures old(kernel.tasks[s]).status == Zombie ==>
        kernel.pool.Used() == old(kernel.pool.Used()) - Paging.FramesOf(kernel.spaces[s])
    {
      hide Linked, Owned, FileTable.Descriptors, Dropped, DropSlots, Paging.FramesOf, FramePool.Used;
      if kernel.tasks[s].status != Zombie {
        return;
      }
      ghost var m, v := kernel.State(), files.Descriptors();
      LinkedInv();
      OwnedReaped(m, kernel.kdir, v, s);
      CloseAll(kernel.tasks[s].pid);
      LinkedInv();
      FreeTask(s);
    }

    /** task_exit: descriptors stay with the zombie until it is reaped. */
    method Exit()
      requires Valid() && kernel.current != 0
      modifies kernel`current, kernel`cr3, kernel`esp0, kernel.tasks
      ensures Valid() && kernel.State() == Exited(old(kernel.State()))
      ensures files.Descriptors() == old(files.Descriptors())
    {
      hide HeapInv, Heap.Rep, FsState.Rep, FatDriver.CwdOk, Live, Ptrs, SlotsOk, FrameInv, Bufs, Stacks, ViewOf, Owned,
        Exited;
      LinkedInv();
      OwnedExited(kernel.State(), kernel.kdir, files.Descriptors());
      ghost var ts := kernel.tasks[..];
      kernel.Exit();
      ExitedStacks(old(kernel.State()), kernel.kdir);
    }

    /** A timer tick or yield. */
    method Tick()
      requires Valid()
      modifies kernel`current, kernel`cr3, kernel`esp0
      ensures Valid() && kernel.State() == Schedule(old(kernel.State()))
      ensures files.Descriptors() == old(files.Descriptors())
    {
      hide HeapInv, Heap.Rep, FsState.Rep, FatDriver.CwdOk, Live, Ptrs, SlotsOk, FrameInv, Bufs, Stacks, ViewOf, Owned,
        Schedule;
      kernel.Schedule();
    }

    /** The pid of the running task. */
    function Pid(): int
      reads kernel, kernel.tasks
    {
      if kernel.current < kernel.tasks.Length then kernel.tasks[kernel.current].pid else 0
    }

    /** After a call on the descriptors the kernel's books are set right. */
    ghost method Rebook()
      requires kernel.heap == files.heap && kernel.Separate() && files.Valid()
      requires files.others == rest + Stacks(kernel.tasks[..])
      requires Inv(kernel.State(), kernel.kdir) && kernel.pool.Valid() && kernel.kdir == kernel.pool.Addr(kernel.kd)
      requires kernel.kd < kernel.pool.count
      requires FrameInv(kernel.pool.mem, kernel.pool.base, kernel.pool.Used(), kernel.kd,
                        kernel.tasks[..], kernel.spaces)
      requires (kernel.tasks as object) != files.files && (kernel.pool.bitmap as object) != files.files
      modifies kernel`others
      ensures Linked()
    {
      hide HeapInv, Heap.Rep, FsState.Rep, FatDriver.CwdOk, Live, Ptrs, SlotsOk, FrameInv, Bufs, Stacks, Inv,
        FramePool.Valid, FramePool.Used;
      Swap(rest, Stacks(kernel.tasks[..]), Bufs(files.files[..]));
      kernel.others := rest + Bufs(files.files[..]);
    }

    /** open, called by the running program. */
    method Open(path: Text, mode: int) returns (fd: int)
      requires Valid() && kernel.current != 0 && !files.lost && PathOk(path) && Contained(files.fs.cwdPath, path)
      requires mode == O_RDONLY ==> files.Sized(path)
      modifies kernel`others, kernel.heap.mem, kernel.heap`bs, files.files
      ensures Valid() && Sched.Shape(kernel.State()) && kernel.State() == old(kernel.State())
      ensures fd >= 0 <==> FirstUnused(old(files.Descriptors())).Some? && old(files.Target(Pid(), path, mode)).Some?
      ensures fd < 0 ==> files.Descriptors() == old(files.Descriptors()) && kernel.heap.bs == old(kernel.heap.bs)
      ensures fd >= 0 ==>
        files.Descriptors() == Files.After(old(files.Descriptors()), Opened(old(files.Target(Pid(), path, mode)).value))
    {
      hide HeapInv, Heap.Rep, FsState.Rep, FatDriver.CwdOk, Live, Ptrs, SlotsOk, FrameInv, Bufs, Stacks, ViewOf, Owned,
        FirstUnused, Malloc, Inv;
      hide FileTable.Stored, FramePool.Valid, FramePool.Used, HasTask, FileTable.Target, FileTable.Sized, Contained;
      ghost var m, v := kernel.State(), files.Descriptors();
      LinkedInv();
      InvShape(m, kernel.kdir);
      CurrentTask(m, kernel.kdir);
      fd := files.OpenFile(Pid(), path, mode);
      Rebook();
      if fd >= 0 {
        OwnedCall(m.tasks, v, Opened(old(files.Target(Pid(), path, mode)).value));
      }
    }

    /** close, called by the running program. */
    method Close(fd: int) returns (rc: int, ghost h: nat)
      requires Valid() && kernel.current != 0
      modifies kernel`others, kernel.heap.mem, kernel.heap`bs
      modifies files`lost, files.files, files.fs.vol, files.fs`chains, files.fs`tree
      ensures Valid() && Sched.Shape(kernel.State()) && kernel.State() == old(kernel.State())
      ensures files.Descriptors() == Files.After(old(files.Descriptors()), Closed(Pid(), fd))
      ensures old(files.Open(Pid(), fd, O_WRONLY)) == None ==> unchanged(files.fs) && unchanged(files.fs.vol)
      ensures !old(files.lost) && old(files.Open(Pid(), fd, O_WRONLY)).Some? ==>
        var f := old(files.Open(Pid(), fd, O_WRONLY)).value;
        && (rc == 0 <==> old(files.fs.Valid() && files.WriterFits(Pid(), fd)))
        && (rc == 0 ==> Written(old(files.fs.tree), old(files.WriterPlace(Pid(), fd)), h, f.buf, files.fs.tree))
        && (rc != 0 ==> files.fs.tree == old(files.fs.tree))
        && (files.lost <==> rc != 0 && old(files.fs.Valid() && files.WriterReplaces(Pid(), fd)))
    {
      hide HeapInv, Heap.Rep, FsState.Rep, FatDriver.CwdOk, Live, Ptrs, SlotsOk, FrameInv, Bufs, Stacks, ViewOf, Owned,
        FirstUnused, Inv, FreedBy;
      hide FileTable.Stored, FileTable.WriterFits, FileTable.WriterReplaces, FileTable.WriterPlace, Written,
        FsUnique.NoTree;
      hide FramePool.Valid, FramePool.Used, HasTask, FileTable.Open;
      ghost var m, v := kernel.State(), files.Descriptors();
      LinkedInv();
      InvShape(m, kernel.kdir);
      CurrentTask(m, kernel.kdir);
      rc, h := files.Close(Pid(), fd);
      Rebook();
      OwnedCall(m.tasks, v, Closed(Pid(), fd));
    }

    /** read, called by the running program. */
    method Read(fd: int, n: nat) returns (r: int, dst: seq<Byte>)
      requires Valid() && kernel.current != 0
      modifies kernel`others, files.files
      ensures Valid() && Sched.Shape(kernel.State()) && kernel.State() == old(kernel.State())
      ensures files.Descriptors() == Files.After(old(files.Descriptors()), Call.Read(Pid(), fd, n))
    {
      hide HeapInv, Heap.Rep, FsState.Rep, FatDriver.CwdOk, Live, Ptrs, SlotsOk, FrameInv, Bufs, Stacks, ViewOf, Owned,
        FirstUnused, Inv;
      hide FramePool.Valid, FramePool.Used, HasTask, FileTable.Open;
      ghost var m, v := kernel.State(), files.Descriptors();
      LinkedInv();
      InvShape(m, kernel.kdir);
      CurrentTask(m, kernel.kdir);
      r, dst := files.ReadFrom(Pid(), fd, n);
      Rebook();
      OwnedCall(m.tasks, v, Call.Read(Pid(), fd, n));
    }

    /** write, called by the running program. */
    method Write(fd: int, src: seq<Byte>) returns (r: int)
      requires Valid() && kernel.current != 0 && Sched.Shape(kernel.State())
      requires files.Open(Pid(), fd, O_WRONLY).Some? ==>
        |files.Open(Pid(), fd, O_WRONLY).value.buf| + |src| < DWORD
      modifies kernel`others, files.files, kernel.heap.mem
      ensures Valid() && Sched.Shape(kernel.State()) && kernel.State() == old(kernel.State())
      ensures files.Descriptors() == Files.After(old(files.Descriptors()), Call.Write(Pid(), fd, src))
    {
      hide HeapInv, Heap.Rep, FsState.Rep, FatDriver.CwdOk, Live, Ptrs, SlotsOk, FrameInv, Bufs, Stacks, ViewOf, Owned,
        FirstUnused, Inv;
      hide FramePool.Valid, FramePool.Used, HasTask, FileTable.Open;
      ghost var m, v := kernel.State(), files.Descriptors();
      LinkedInv();
      InvShape(m, kernel.kdir);
      CurrentTask(m, kernel.kdir);
      r := files.WriteTo(Pid(), fd, src);
      Rebook();
      OwnedCall(m.tasks, v, Call.Write(Pid(), fd, src));
    }

    /** A store by the running program: no other program, no descriptor and no table notices. */
    method UserStore(va: nat, b: Byte) returns (ok: bool)
      requires Valid() && kernel.current != 0 && va < DWORD
      modifies kernel.pool`mem
      ensures Valid() && files.Descriptors() == old(files.Descriptors()) && |kernel.pool.mem| == |old(kernel.pool.mem)|
      ensures forall f: nat ::
        f < |kernel.pool.mem| && !OwnPage(kernel.tasks[..], kernel.spaces, kernel.kd, kernel.current, f) ==>
        kernel.pool.mem[f] == old(kernel.pool.mem)[f]
    {
      hide HeapInv, Heap.Rep, FsState.Rep, FatDriver.CwdOk, Live, Ptrs, SlotsOk, FrameInv, Bufs, Stacks, ViewOf, Owned,
        Inv, OwnPage, Paging.UserWalk;
      ok := kernel.UserStore(va, b);
    }

    /** kmalloc by the rest of the kernel: neither tasks nor descriptors notice. */
    method Alloc(n: nat) returns (ptr: nat)
      requires Valid() && 0 < n < DWORD
      modifies this`rest, kernel`others, files`others, kernel.heap.mem, kernel.heap`bs
      ensures Valid() && rest == old(rest) + (if ptr == 0 then multiset{} else multiset{ptr})
      ensures kernel.State() == old(kernel.State()) && files.Descriptors() == old(files.Descriptors())
    {
      hide HeapInv, Heap.Rep, FsState.Rep, FatDriver.CwdOk, Live, Ptrs, SlotsOk, FrameInv, Bufs, Stacks, LiveKept,
        Malloc, ViewOf, Owned, Inv;
      hide FramePool.Valid, FramePool.Used;
      ghost var slots, bs, m := files.files[..], kernel.heap.bs, kernel.heap.mem[..];
      ptr := Grab(kernel.heap, n);
      ViewKept(slots, bs, m, kernel.heap.mem[..], kernel.heap.base);
      if ptr != 0 {
        MallocPtrs(bs, kernel.heap.base, kernel.heap.total, n);
        HeapRuns.MallocMembers(bs, kernel.heap.base, kernel.heap.total, n);
        SlotsMore(slots, bs, kernel.heap.bs);
        rest := rest + multiset{ptr};
        kernel.others := rest + Bufs(slots);
        files.others := rest + Stacks(kernel.tasks[..]);
      }
    }

    /** The heap's side of a kfree by the rest of the kernel. */
    method FreeBlock(ptr: nat)
      requires Linked() && ptr in rest && ptr != 0
      modifies kernel.heap.mem, kernel.heap`bs
      ensures kernel.heap.Valid() && SlotsOk(files.files[..], kernel.heap.bs)
      ensures files.Descriptors() == old(files.Descriptors())
      ensures Ptrs(Live(kernel.heap.bs)) == Less(rest, ptr) + Stacks(kernel.tasks[..]) + Bufs(files.files[..])
      ensures Ptrs(Live(kernel.heap.bs)) == Less(rest, ptr) + Bufs(files.files[..]) + Stacks(kernel.tasks[..])
    {
      hide Kernel.Valid, FileTable.Valid, FilesOn, SlotsOk, Bufs, Stacks, LiveKept, Release, PayloadIndex, KeptPayloads,
        ViewOf, Inv;
      hide HeapInv, Ptrs, Live, KernelHeap.Valid, Less;
      ghost var slots, bs, m := files.files[..], kernel.heap.bs, kernel.heap.mem[..];
      KernelFacts(kernel);
      FilesFacts(files);
      FilesGive(slots, bs, files.others);
      FreePtrs(bs, kernel.heap.base, kernel.heap.total, ptr);
      HeapRuns.FreeMembers(bs, kernel.heap.base, kernel.heap.total, ptr);
      RestIsNoBuffer(bs, kernel.heap.base, kernel.heap.total, rest, Stacks(kernel.tasks[..]), slots, ptr);
      TakenOut(Ptrs(Live(bs)), rest, Stacks(kernel.tasks[..]), Bufs(slots), ptr);
      kernel.heap.Kfree(ptr);
      SlotsWithout(slots, bs, kernel.heap.bs, ptr);
      LiveKeptOf(m, kernel.heap.mem[..], kernel.heap.base, kernel.heap.bs);
      ViewKept(slots, kernel.heap.bs, m, kernel.heap.mem[..], kernel.heap.base);
    }

    /** kfree by the rest of the kernel, of an address it holds. */
    method Free(ptr: nat)
      requires Valid() && ptr in rest && ptr != 0
      modifies this`rest, kernel`others, files`others, kernel.heap.mem, kernel.heap`bs
      ensures Valid() && rest == Less(old(rest), ptr)
      ensures kernel.State() == old(kernel.State()) && files.Descriptors() == old(files.Descriptors())
    {
      hide HeapInv, Heap.Rep, FsState.Rep, FatDriver.CwdOk, Live, Ptrs, SlotsOk, FrameInv, Bufs, Stacks, ViewOf, Owned,
        Inv, FilesOn;
      hide FramePool.Valid, FramePool.Used, Less, FileTable.Valid, KernelHeap.Valid, FatDriver.Valid;
      FilesFacts(files);
      FreeBlock(ptr);
      rest := Less(rest, ptr);
      files.others := rest + Stacks(kernel.tasks[..]);
      FilesFrom(files.files[..], files.heap.bs, files.others);
      FilesBack(files);
      Rebook();
    }

    // ---- the shell's own file system calls --------------------------------------------------------

    /** fat_write_file, called by the shell: descriptors, tasks and heap are as before, whatever the outcome. */
    method WriteFile(path: Text, data: seq<Byte>) returns (ok: bool, ghost h: nat)
      requires Valid() && !files.lost && Start(files.fs.cwdCluster, path) in files.fs.tree.dirs && PathOk(path)
      requires |data| < DWORD
      modifies files`lost, files.fs.vol, files.fs`chains, files.fs`tree, kernel.heap.mem, kernel.heap`bs
      ensures Valid() && kernel.State() == old(kernel.State()) && kernel.heap.bs == old(kernel.heap.bs)
      ensures files.Descriptors() == old(files.Descriptors())
      ensures ok <==> old(files.fs.CanWrite(path, |data|, HeapFs.Has(kernel.heap.bs, files.fs.vol.g.ClusterBytes())))
      ensures files.lost <==> !ok && old(files.fs.Rewrites(path))
      ensures ok ==> Written(old(files.fs.tree), old(files.fs.Place(path)), h, data, files.fs.tree)
      ensures !ok ==> files.fs.tree == old(files.fs.tree)
    {
      hide HeapInv, Heap.Rep, FsState.Rep, FatDriver.CwdOk, Live, Ptrs, SlotsOk, FrameInv, Bufs, Stacks, LiveKept,
        ViewOf, Owned, Inv;
      hide FramePool.Valid, FramePool.Used, Written, FsUnique.NoTree;
      hide FatDriver.Place, FatDriver.CanWrite, FatDriver.Rewrites, FatDriver.Contents, FatDriver.Replaced;
      ghost var slots, bs, m := files.files[..], kernel.heap.bs, kernel.heap.mem[..];
      ok, files.lost, h := HeapFs.WriteFile(files.fs, files.heap, path, data);
      ViewKept(slots, bs, m, kernel.heap.mem[..], kernel.heap.base);
    }

    /** fat_rm, called by the shell: open descriptors keep their bytes, also those of the removed file. */
    method Rm(path: Text) returns (ok: bool)
      requires Valid() && !files.lost && Start(files.fs.cwdCluster, path) in files.fs.tree.dirs
      modifies files.fs.vol, files.fs`chains, files.fs`tree
      ensures Valid() && kernel.State() == old(kernel.State()) && files.Descriptors() == old(files.Descriptors())
      ensures ok <==> old(files.fs.Doomed(path)).Some?
      ensures ok ==> Removed(old(files.fs.tree), old(files.fs.Doomed(path)), files.fs.tree)
      ensures !ok ==> files.fs.tree == old(files.fs.tree)
    {
      hide HeapInv, Heap.Rep, FsState.Rep, FatDriver.CwdOk, Live, Ptrs, SlotsOk, FrameInv, Bufs, Stacks, ViewOf, Owned,
        Inv;
      hide FramePool.Valid, FramePool.Used, Removed, FatDriver.Doomed;
      ok := files.fs.Rm(path);
    }

    /** fat_mkdir, called by the shell. */
    method Mkdir(path: Text) returns (ok: bool, ghost c: nat)
      requires Valid() && !files.lost && Start(files.fs.cwdCluster, path) in files.fs.tree.dirs && PathOk(path)
      modifies files.fs.vol, files.fs`chains, files.fs`tree
      ensures Valid() && kernel.State() == old(kernel.State()) && files.Descriptors() == old(files.Descriptors())
      ensures ok <==> old(files.fs.DirPlace(path)).Some? && Chains.CountFree(old(files.fs.vol.Fat()), 2) > 0
      ensures ok ==> Made(old(files.fs.tree), old(files.fs.DirPlace(path)), c, files.fs.tree)
      ensures !ok ==> files.fs.tree == old(files.fs.tree)
    {
      hide HeapInv, Heap.Rep, FsState.Rep, FatDriver.CwdOk, Live, Ptrs, SlotsOk, FrameInv, Bufs, Stacks, ViewOf, Owned,
        Inv;
      hide FramePool.Valid, FramePool.Used, Made, FatDriver.DirPlace, Chains.CountFree;
      ok, c := files.fs.Mkdir(path);
    }

    /** fat_cd, called by the shell: descriptors keep the paths they were opened with. */
    method Cd(path: Text) returns (ok: bool)
      requires Valid() && !files.lost && Start(files.fs.cwdCluster, path) in files.fs.tree.dirs && PathOk(path)
      requires files.fs.CwdFits(path)
      modifies files.fs`cwdCluster, files.fs`cwdPath, files.fs`cwdComps
      ensures Valid() && kernel.State() == old(kernel.State()) && files.Descriptors() == old(files.Descriptors())
      ensures Tree.TreeOk(files.fs.tree)
      ensures ok <==>
        match old(Resolve(files.fs.tree, files.fs.cwdCluster, path)) { case Some(AtDir(d)) => true case _ => false }
      ensures ok ==> old(Resolve(files.fs.tree, files.fs.cwdCluster, path)) == Some(AtDir(files.fs.cwdCluster))
      ensures ok ==> files.fs.cwdComps == Cwd.NextCwd(old(files.fs.cwdComps), path)
      ensures !ok ==> files.fs.cwdPath == old(files.fs.cwdPath) && files.fs.cwdCluster == old(files.fs.cwdCluster)
    {
      hide HeapInv, Heap.Rep, FsState.Rep, Live, Ptrs, SlotsOk, FrameInv, Bufs, Stacks, ViewOf, Owned, Inv;
      hide FramePool.Valid, FramePool.Used, Cwd.NextCwd, Cwd.LeadsTo, FatDriver.CwdOk, Tree.TreeOk;
      ok := files.fs.Cd(path);
    }

    /** fat_read_file, called by the shell: a block of its own with the contents. */
    method Load(path: Text) returns (ptr: nat, size: nat)
      requires Valid() && !files.lost && files.fs.Readable(path)
      modifies this`rest, kernel`others, files`others, kernel.heap.mem, kernel.heap`bs
      ensures Valid() && kernel.State() == old(kernel.State()) && files.Descriptors() == old(files.Descriptors())
      ensures ptr != 0 <==>
        && files.fs.ContentsAt(path).Some?
        && HeapFs.CanHold(old(kernel.heap.bs), |files.fs.ContentsAt(path).value|, files.fs.vol.g.ClusterBytes())
      ensures ptr == 0 ==> rest == old(rest)
      ensures ptr != 0 ==> rest == old(rest) + multiset{ptr} && size == |files.fs.ContentsAt(path).value|
      ensures ptr != 0 ==>
        files.fs.ContentsAt(path) == Some(Buffers.Data(kernel.heap.mem[..], kernel.heap.base, ptr, size))
    {
      hide HeapInv, Heap.Rep, FsState.Rep, FatDriver.CwdOk, Live, Ptrs, SlotsOk, FrameInv, Bufs, Stacks, LiveKept,
        Malloc, ViewOf, Owned, Inv;
      hide FramePool.Valid, FramePool.Used, FatDriver.Contents, Buffers.Data;
      ghost var slots, bs, m := files.files[..], kernel.heap.bs, kernel.heap.mem[..];
      ghost var s;
      ptr, size, s := HeapFs.ReadFile(files.fs, files.heap, path);
      ViewKept(slots, bs, m, kernel.heap.mem[..], kernel.heap.base);
      if ptr != 0 {
        MallocPtrs(bs, kernel.heap.base, kernel.heap.total, HeapFs.Room(size));
        HeapRuns.MallocMembers(bs, kernel.heap.base, kernel.heap.total, HeapFs.Room(size));
        SlotsMore(slots, bs, kernel.heap.bs);
        rest := rest + multiset{ptr};
        kernel.others := rest + Bufs(slots);
        files.others := rest + Stacks(kernel.tasks[..]);
      }
    }

    /**
     * The shell's run: reads the file, starts a task from the bytes and frees them.
     * A task that starts holds the image of exactly what is stored under the path.
     */
    method Run(path: Text) returns (pid: int, ghost s: nat)
      requires Valid() && !files.lost && files.fs.Readable(path)
      requires files.fs.ContentsAt(path).Some? ==> Elf.NoWrap(files.fs.ContentsAt(path).value)
      modifies kernel`nextPid, kernel`spaces, kernel.tasks, kernel.pool`freeFrames, kernel.pool`mem, kernel.pool.bitmap
      modifies this`rest, kernel`others, files`others, kernel.heap.mem, kernel.heap`bs
      ensures Valid() && rest == old(rest) && files.Descriptors() == old(files.Descriptors())
      ensures pid == -1 ==> kernel.State() == old(kernel.State())
      ensures pid != -1 ==> s < kernel.tasks.Length && files.fs.ContentsAt(path).Some?
      ensures pid != -1 ==>
        kernel.State() == Spawned(old(kernel.State()), s, kernel.tasks[s].pgdir, kernel.tasks[s].kstack)
      ensures pid != -1 ==> Shows(s, files.fs.ContentsAt(path).value) && Identifies(kernel.tasks[..], s, pid)
    {
      hide Linked, Owned, Shows, Identifies, Elf.NoWrap, FatDriver.ContentsAt, FatDriver.Readable, HeapFs.CanHold, Less;
      hide FileTable.Descriptors, Kernel.CanSpawn, Spawned, Buffers.Data;
      var ptr, size := Load(path);
      if ptr == 0 {
        return -1, 0;
      }
      pid, s := Spawn(Buffers.Data(kernel.heap.mem[..], kernel.heap.base, ptr, size));
      Free(ptr);
      PutBack(old(rest), ptr);
    }

    /**
     * Once every user task has been reaped no descriptor is open, all frames but
     * the kernel directory are free, and the heap holds only what the rest of the
     * kernel holds: one free block if that is nothing.
     */
    lemma NothingLeft()
      requires Valid() && forall i :: 1 <= i < kernel.tasks.Length ==> kernel.tasks[i].status == Status.Free
      ensures forall i :: 0 <= i < |files.Descriptors()| ==> files.Descriptors()[i] == None
      ensures kernel.pool.count <= 8 * kernel.pool.bitmap.Length
      ensures kernel.pool.Used() == {kernel.kd} && kernel.pool.freeFrames == kernel.pool.count - 1
      ensures Ptrs(Live(kernel.heap.bs)) == rest
      ensures rest == multiset{} ==>
        kernel.heap.total >= HDR && kernel.heap.bs == [Block(kernel.heap.base, kernel.heap.total - HDR, true)]
    {
      hide HeapInv, Heap.Rep, FsState.Rep, FatDriver.CwdOk, Live, Ptrs, SlotsOk, FrameInv, Stacks, Owned,
        FramePool.Used;
      LinkedInv();
      NoneOpen(kernel.tasks[..], files.Descriptors());
      kernel.AllReaped();
      var slots := files.files[..];
      forall i | 0 <= i < |slots| ensures !slots[i].used { assert files.Descriptors()[i] == None; }
      TotalNone(BufList(slots));
    }

    lemma LinkedInv()
      requires Linked()
      ensures Inv(kernel.State(), kernel.kdir) && kernel.pool.count <= 8 * kernel.pool.bitmap.Length
    {
    }
  }

  /** Giving a stack back leaves the descriptors' blocks alone. */
  lemma ReapFiles(bs: seq<Block>, base: nat, total: nat, rest: multiset<nat>, m: Machine, kdir: nat, slots: seq<Slot>,
                  s: nat)
    requires HeapInv(bs, base, total) && FilesOn(slots, bs, rest + Stacks(m.tasks))
    requires Inv(m, kdir) && s < MAX_TASKS && m.tasks[s].status == Zombie && PayloadIndex(bs, m.tasks[s].kstack).Some?
    ensures SlotsOk(slots, Release(bs, PayloadIndex(bs, m.tasks[s].kstack).value))
  {
    hide HeapInv, Live, Ptrs, SlotsOk, Bufs, Stacks, Release, PayloadIndex;
    assert SlotOk(m.tasks[s], kdir, m.nextPid);
    forall i | 0 <= i < |slots| && slots[i].used ensures slots[i].ptr != m.tasks[s].kstack {
      StackIsNoBuffer(bs, base, total, rest, m.tasks, slots, s, i);
    }
    HeapRuns.FreeMembers(bs, base, total, m.tasks[s].kstack);
    SlotsWithout(slots, bs, Release(bs, PayloadIndex(bs, m.tasks[s].kstack).value), m.tasks[s].kstack);
  }
}
