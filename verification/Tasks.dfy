/** Tasks as owners: each live slot holds a user space and a kernel stack until it is reaped. */
module Tasks {
  import opened Options
  import opened Bytes
  import opened Frames
  import opened Paging
  import opened Elf
  import opened Heap
  import opened Payloads
  import opened Sched
  import Blocks

  // ---- who owns which frame ---------------------------------------------------------------------

  /** Slot `i` owns frame `f`. */
  ghost predicate Owns(tasks: seq<Task>, spaces: seq<Space>, i: nat, f: nat) {
    i < |tasks| && i < |spaces| && tasks[i].pgdir != 0 && f in FramesOf(spaces[i])
  }

  /** The used frames are the kernel directory and the frames of the slots. */
  ghost predicate UsedIs(used: set<nat>, kd: nat, tasks: seq<Task>, spaces: seq<Space>) {
    forall f: nat :: f in used <==> f == kd || exists i: nat :: Owns(tasks, spaces, i, f)
  }

  ghost predicate SpacesApart(tasks: seq<Task>, spaces: seq<Space>) {
    forall i: nat, j: nat, f: nat :: Owns(tasks, spaces, i, f) && Owns(tasks, spaces, j, f) ==> i == j
  }

  ghost predicate SpacesRep(mem: seq<Frame>, base: nat, kd: nat, tasks: seq<Task>, spaces: seq<Space>) {
    forall i :: 0 <= i < |tasks| && i < |spaces| && tasks[i].pgdir != 0 ==>
      SpaceRep(mem, base, kd, spaces[i]) && tasks[i].pgdir == base + 4096 * spaces[i].pd
  }

  ghost predicate FrameInv(mem: seq<Frame>, base: nat, used: set<nat>, kd: nat, tasks: seq<Task>, spaces: seq<Space>) {
    && |spaces| == |tasks| && kd < |mem| && KernelDir(mem[kd])
    && UsedIs(used, kd, tasks, spaces) && SpacesApart(tasks, spaces) && SpacesRep(mem, base, kd, tasks, spaces)
  }

  /** Frames in use keep their contents, so every space is as it was. */
  lemma FrameInvKept(mem: seq<Frame>, mem': seq<Frame>, base: nat, used: set<nat>, kd: nat, tasks: seq<Task>,
                     spaces: seq<Space>)
    requires FrameInv(mem, base, used, kd, tasks, spaces) && Kept(mem, mem', used)
    ensures FrameInv(mem', base, used, kd, tasks, spaces)
  {
    hide SpaceRep, KernelDir, FramesOf;
    forall i | 0 <= i < |tasks| && tasks[i].pgdir != 0 ensures SpaceRep(mem', base, kd, spaces[i]) {
      assert SpaceRep(mem, base, kd, spaces[i]);
      OwnsTables(tasks, spaces, i);
      SpaceFrame(mem, mem', base, kd, spaces[i], used);
    }
  }

  lemma OwnsTables(tasks: seq<Task>, spaces: seq<Space>, i: nat)
    requires i < |tasks| && |spaces| == |tasks| && tasks[i].pgdir != 0
    ensures Owns(tasks, spaces, i, spaces[i].pd) && Owns(tasks, spaces, i, spaces[i].pt)
  {
  }

  /** A space built from free frames goes to a slot that had none. */
  lemma FrameInvAdd(mem: seq<Frame>, mem': seq<Frame>, base: nat, used: set<nat>, used': set<nat>, kd: nat,
                    tasks: seq<Task>, spaces: seq<Space>, s: nat, t: Task, sp: Space)
    requires FrameInv(mem, base, used, kd, tasks, spaces) && s < |tasks| && tasks[s].pgdir == 0
    requires Grown(mem, used, mem', used', sp) && SpaceRep(mem', base, kd, sp) && t.pgdir == base + 4096 * sp.pd
    requires t.pgdir != 0
    ensures FrameInv(mem', base, used', kd, tasks[s := t], spaces[s := sp])
  {
    hide SpaceRep, KernelDir, FramesOf, Owns;
    FrameInvKept(mem, mem', base, used, kd, tasks, spaces);
    OwnsAdd(tasks, spaces, s, t, sp);
    var tasks', spaces' := tasks[s := t], spaces[s := sp];
    forall f: nat ensures f in used' <==> f == kd || exists i: nat :: Owns(tasks', spaces', i, f) {
      if f in FramesOf(sp) {
        assert Owns(tasks', spaces', s, f);
      } else if exists i: nat :: Owns(tasks', spaces', i, f) {
        var i: nat :| Owns(tasks', spaces', i, f);
        assert Owns(tasks, spaces, i, f);
      }
    }
    forall i: nat, j: nat, f: nat | Owns(tasks', spaces', i, f) && Owns(tasks', spaces', j, f) ensures i == j {
      assert Owns(tasks, spaces, i, f) ==> f in used;
      assert Owns(tasks, spaces, j, f) ==> f in used;
    }
  }

  lemma OwnsAdd(tasks: seq<Task>, spaces: seq<Space>, s: nat, t: Task, sp: Space)
    requires s < |tasks| == |spaces| && tasks[s].pgdir == 0 && t.pgdir != 0
    ensures forall i: nat, f: nat :: Owns(tasks[s := t], spaces[s := sp], i, f) <==>
      Owns(tasks, spaces, i, f) || (i == s && f in FramesOf(sp))
    ensures forall f: nat :: f in FramesOf(sp) ==> Owns(tasks[s := t], spaces[s := sp], s, f)
  {
    hide FramesOf, Owns;
    forall i: nat, f: nat
      ensures Owns(tasks[s := t], spaces[s := sp], i, f) <==> Owns(tasks, spaces, i, f) || (i == s && f in FramesOf(sp))
    {
      OwnsAddAt(tasks, spaces, s, t, sp, i, f);
    }
    forall f: nat | f in FramesOf(sp) ensures Owns(tasks[s := t], spaces[s := sp], s, f) {
      OwnsAddAt(tasks, spaces, s, t, sp, s, f);
    }
  }

  lemma OwnsAddAt(tasks: seq<Task>, spaces: seq<Space>, s: nat, t: Task, sp: Space, i: nat, f: nat)
    requires s < |tasks| == |spaces| && tasks[s].pgdir == 0 && t.pgdir != 0
    ensures Owns(tasks[s := t], spaces[s := sp], i, f) <==> Owns(tasks, spaces, i, f) || (i == s && f in FramesOf(sp))
  {
    hide FramesOf;
  }

  /** A slot gives its space up. */
  lemma FrameInvDrop(mem: seq<Frame>, base: nat, used: set<nat>, kd: nat, tasks: seq<Task>, spaces: seq<Space>, s: nat)
    requires FrameInv(mem, base, used, kd, tasks, spaces) && s < |tasks| && tasks[s].pgdir != 0
    ensures FrameInv(mem, base, used - FramesOf(spaces[s]), kd, tasks[s := NO_TASK], spaces)
  {
    hide KernelDir, FramesOf;
    assert SpaceRep(mem, base, kd, spaces[s]);
    var tasks' := tasks[s := NO_TASK];
    forall i: nat, f: nat ensures Owns(tasks', spaces, i, f) <==> i != s && Owns(tasks, spaces, i, f) {
    }
    forall f: nat | f in FramesOf(spaces[s]) ensures Owns(tasks, spaces, s, f) {
    }
  }

  /** The frame of the directory of slot `i` is in use. */
  lemma DirUsed(mem: seq<Frame>, base: nat, used: set<nat>, kd: nat, tasks: seq<Task>, spaces: seq<Space>, i: nat)
    requires FrameInv(mem, base, used, kd, tasks, spaces) && i < |tasks| && tasks[i].pgdir != 0
    ensures spaces[i].pd in used && tasks[i].pgdir == base + 4096 * spaces[i].pd
    ensures SpaceRep(mem, base, kd, spaces[i]) && FramesOf(spaces[i]) <= used
  {
    hide SpaceRep, KernelDir, FramesOf;
    OwnsTables(tasks, spaces, i);
    forall f | f in FramesOf(spaces[i]) ensures f in used { assert Owns(tasks, spaces, i, f); }
  }

  /** With every user slot empty only the kernel directory is in use. */
  lemma NoTasksNoFrames(mem: seq<Frame>, base: nat, used: set<nat>, kd: nat, tasks: seq<Task>, spaces: seq<Space>)
    requires FrameInv(mem, base, used, kd, tasks, spaces) && forall i :: 0 <= i < |tasks| ==> tasks[i].pgdir == 0
    ensures used == {kd}
  {
    hide SpacesRep, KernelDir, SpacesApart;
  }

  // ---- kernel stacks ------------------------------------------------------------------------------

  function StackOf(t: Task): multiset<nat> { if t.kstack == 0 then multiset{} else multiset{t.kstack} }

  function StackList(tasks: seq<Task>): (r: seq<multiset<nat>>)
    ensures |r| == |tasks| && forall i :: 0 <= i < |tasks| ==> r[i] == StackOf(tasks[i])
  {
    seq(|tasks|, i requires 0 <= i < |tasks| => StackOf(tasks[i]))
  }

  function Stacks(tasks: seq<Task>): multiset<nat> { Total(StackList(tasks)) }

  lemma StacksSet(tasks: seq<Task>, s: nat, t: Task)
    requires s < |tasks|
    ensures StackOf(tasks[s]) <= Stacks(tasks)
    ensures Stacks(tasks[s := t]) == Stacks(tasks) - StackOf(tasks[s]) + StackOf(t)
  {
    hide StackOf;
    TotalSet(StackList(tasks), s, StackOf(t));
    assert StackList(tasks[s := t]) == StackList(tasks)[s := StackOf(t)];
  }

  lemma NoTasksNoStacks(tasks: seq<Task>)
    requires forall i :: 0 <= i < |tasks| ==> tasks[i].kstack == 0
    ensures Stacks(tasks) == multiset{}
  {
    TotalNone(StackList(tasks));
  }

  // ---- loading a program into a fresh space ---------------------------------------------------------

  /** Frames a program takes: two tables, its stack, and the pages its segments touch. */
  ghost function FramesFor(img: seq<Byte>): nat
    requires Loadable(img)
  {
    LoadableSegs(img);
    2 + |Needed(img)|
  }

  lemma NeedsStack(img: seq<Byte>)
    requires Loadable(img)
    ensures FramesFor(img) >= 2 + STACK_PAGES
  {
    LoadableSegs(img);
    var st := {1020, 1021, 1022, 1023};
    forall p: nat | p in st ensures p in Needed(img) { assert StackPage(p); }
    SubsetSize(st, Needed(img));
  }

  /** The first two stages of task_spawn_user: all or nothing, and exactly when the frames suffice. */
  method LoadProgram(pool: FramePool, kdir: nat, img: seq<Byte>, ghost kd: nat)
    returns (pgdir: nat, entry: nat, ghost sp: Space)
    requires pool.Valid() && kd in pool.Used() && kd < pool.count && kdir == pool.Addr(kd) && NoWrap(img)
    modifies pool`freeFrames, pool`mem, pool.bitmap
    ensures pool.Valid()
    ensures pgdir != 0 <==> Loadable(img) && FramesFor(img) <= old(pool.freeFrames)
    ensures pgdir == 0 ==> pool.Used() == old(pool.Used()) && Kept(old(pool.mem), pool.mem, old(pool.Used()))
    ensures pgdir != 0 ==> Building(pool, kd, pgdir, sp, old(pool.mem), old(pool.Used()))
    ensures pgdir != 0 ==> Loaded(pool.mem, sp, img, PhNum(img)) && entry == EntryPoint(img)
  {
    hide UsedIn, SpaceRep, Grown, Loadable, Loaded, ZeroLeaves, Kept, Needed, FramesOf;
    ghost var mem0, used0 := pool.mem, pool.Used();
    entry := 0;
    pgdir, sp := NewUser(pool, kdir, kd);
    if Loadable(img) { NeedsStack(img); }
    if pgdir == 0 {
      return;
    }
    var ok;
    ok, entry, sp := ElfLoad(pool, pgdir, img, kd, sp, mem0, used0);
    ShapeOf(pool.mem, pool.base, kd, sp);
    TookAll(mem0, used0, pool.mem, pool.Used(), sp, pool.count);
    GrownUndo(mem0, used0, pool.mem, pool.Used(), sp);
    if !ok {
      FreeUserPages(pool, pgdir, kd, sp);
      pgdir := 0;
      return;
    }
    LoadableSegs(img);
    LoadedNeeds(pool.mem, sp, img);
  }

  // ---- the table -------------------------------------------------------------------------------------

  /** The heap addresses handed out are the tasks' stacks and those of the rest of the kernel. */
  predicate StackInv(bs: seq<Blocks.Block>, tasks: seq<Task>, others: multiset<nat>) {
    Ptrs(Blocks.Live(bs)) == others + Stacks(tasks)
  }

  /** What the allocators return is fresh in the sense of the machine. */
  lemma FreshTask(m: Machine, kdir: nat, mem: seq<Frame>, mem': seq<Frame>, base: nat, used: set<nat>, used': set<nat>,
                  kd: nat,
                  spaces: seq<Space>, sp: Space, bs: seq<Blocks.Block>, others: multiset<nat>, kstack: nat)
    requires Inv(m, kdir) && FrameInv(mem, base, used, kd, m.tasks, spaces) && 0 < base && kdir == base + 4096 * kd
    requires Grown(mem, used, mem', used', sp) && StackInv(bs, m.tasks, others) && kstack != 0
    requires kstack !in Ptrs(Blocks.Live(bs))
    ensures Fresh(m, kdir, base + 4096 * sp.pd, kstack)
  {
    hide Stacks, Ptrs, SpaceRep, KernelDir, SpacesApart, SpacesRep, FrameInv, Blocks.Live, UsedIs, Kept;
    var pgdir := base + 4096 * sp.pd;
    assert sp.pd in FramesOf(sp);
    KernelUsed(mem, base, used, kd, m.tasks, spaces);
    forall i | 0 <= i < MAX_TASKS && m.tasks[i].status != Free
      ensures m.tasks[i].pgdir != pgdir && m.tasks[i].kstack != kstack
    {
      StacksSet(m.tasks, i, m.tasks[i]);
      if i != 0 {
        assert SlotOk(m.tasks[i], kdir, m.nextPid);
        DirUsed(mem, base, used, kd, m.tasks, spaces, i);
        assert m.tasks[i].kstack in StackOf(m.tasks[i]);
      }
    }
  }

  lemma BootFrames(mem: seq<Frame>, base: nat, kd: nat, tasks: seq<Task>, spaces: seq<Space>)
    requires |spaces| == |tasks| && kd < |mem| && KernelDir(mem[kd]) && forall i :: 0 <= i < |tasks| ==>
      tasks[i].pgdir == 0
    ensures FrameInv(mem, base, {kd}, kd, tasks, spaces)
  {
    hide KernelDir;
  }

  lemma KernelUsed(mem: seq<Frame>, base: nat, used: set<nat>, kd: nat, tasks: seq<Task>, spaces: seq<Space>)
    requires FrameInv(mem, base, used, kd, tasks, spaces)
    ensures kd in used
  {
  }

  class Kernel {
    const tasks: array<Task>
    var current: nat
    var nextPid: nat
    var cr3: nat
    var esp0: nat
    const pool: FramePool
    const heap: KernelHeap
    const kdir: nat
    ghost const kd: nat                 // frame of the kernel directory
    ghost var spaces: seq<Space>        // the user space of each slot
    ghost var others: multiset<nat>     // heap addresses held by the rest of the kernel

    ghost function State(): Machine
      reads this, tasks
    {
      Machine(tasks[..], current, nextPid, cr3, esp0)
    }

    /** The three arrays are different objects. */
    ghost predicate Separate() {
      (pool.bitmap as object) != heap.mem && (pool.bitmap as object) != tasks && (heap.mem as object) != tasks
    }

    ghost predicate Valid()
      reads this, tasks, pool, pool.bitmap, heap, heap.mem
    {
      && Separate() && Inv(State(), kdir) && pool.Valid() && heap.Valid() && kdir == pool.Addr(kd) && kd < pool.count
      && FrameInv(pool.mem, pool.base, pool.Used(), kd, tasks[..], spaces)
      && StackInv(heap.bs, tasks[..], others)
    }

    /** task_init, after paging_init has taken the first frame. */
    constructor (pool: FramePool, heap: KernelHeap, kdir: nat, esp0: nat, ghost kd: nat)
      requires pool.Valid() && kd < pool.count && pool.Used() == {kd} && kdir == pool.Addr(kd)
      requires KernelDir(pool.mem[kd])
      requires heap.Valid() && (pool.bitmap as object) != heap.mem
      ensures Valid() && fresh(tasks) && State() == Boot(kdir, esp0)
      ensures this.pool == pool && this.heap == heap && others == Ptrs(Blocks.Live(heap.bs))
    {
      hide UsedIn, FrameInv, KernelDir, Blocks.HeapInv, Rep, Ptrs, Blocks.Live, Stacks;
      tasks := new Task[MAX_TASKS](i => if i == 0 then Task(Status.Ready, kdir, 0, 0, 1) else NO_TASK);
      this.pool, this.heap, this.kdir, this.kd, this.esp0 := pool, heap, kdir, kd, esp0;
      current, nextPid, cr3 := 0, 2, kdir;
      spaces := seq(MAX_TASKS, _ => Space(0, 0, map[]));
      others := Ptrs(Blocks.Live(heap.bs));
      new;
      assert tasks[..] == Boot(kdir, esp0).tasks;
      NoTasksNoStacks(tasks[..]);
      BootFrames(pool.mem, pool.base, kd, tasks[..], spaces);
    }

    /** schedule: round robin over the ready slots. */
    method Schedule()
      requires Valid()
      modifies this`current, this`cr3, this`esp0
      ensures Valid() && State() == Sched.Schedule(old(State()))
    {
      hide FrameInv, StackInv, Sched.TableOk;
      ScheduleRuns(State(), kdir);
      Switch();
    }

    /** The body of schedule, also run by a task that just became a zombie. */
    method Switch()
      requires tasks.Length == MAX_TASKS && current < MAX_TASKS
      modifies this`current, this`cr3, this`esp0
      ensures State() == Sched.Schedule(old(State()))
    {
      hide PickFrom;
      var next := current;
      var i := 1;
      ghost var m := State();
      while i <= MAX_TASKS
        invariant 1 <= i <= MAX_TASKS + 1 && next == current && State() == m && PickFrom(m, 1) == PickFrom(m, i)
      {
        var cand := (current + i) % MAX_TASKS;
        PickStep(m, i, cand);
        if tasks[cand].status == Status.Ready {
          next := cand;
          break;
        }
        i := i + 1;
      }
      if next == current {
        PickEnd(m);
        return;
      }
      var prev, to := tasks[current], tasks[next];
      current := next;
      if to.kstack != 0 {
        esp0 := to.kstack + KSTACK_SIZE;
      }
      if to.cr3 != prev.cr3 {
        cr3 := to.cr3;
      }
    }

    /** task_exit: the running user task becomes a zombie and never returns from schedule. */
    method Exit()
      requires Valid() && current != 0
      modifies this`current, this`cr3, this`esp0, tasks
      ensures Valid() && State() == Exited(old(State()))
    {
      hide Sched.TableOk, PickFrom, Sched.Schedule;
      ExitKeeps(State(), kdir);
      ExitOwns(tasks[..], spaces, pool.mem, pool.base, pool.Used(), kd, heap.bs, others, current);
      tasks[current] := tasks[current].(status := Zombie);
      assert tasks[..] == old(tasks[..])[current := old(tasks[..])[current].(status := Zombie)];
      Switch();
    }

    /** A slot is free, the file is loadable, and frames and heap suffice. */
    ghost predicate CanSpawn(img: seq<Byte>)
      reads this, tasks, pool, heap
    {
      && (exists i :: 0 <= i < tasks.Length && tasks[i].status == Status.Free)
      && Loadable(img) && FramesFor(img) <= pool.freeFrames
      && Blocks.FirstFit(heap.bs, KSTACK_SIZE).Some?
    }

    method FindSlot() returns (slot: int)
      requires tasks.Length == MAX_TASKS
      ensures -1 <= slot < MAX_TASKS
      ensures slot >= 0 ==> tasks[slot].status == Status.Free && forall i :: 0 <= i < slot ==>
        tasks[i].status != Status.Free
      ensures slot < 0 ==> forall i :: 0 <= i < MAX_TASKS ==> tasks[i].status != Status.Free
    {
      slot := 0;
      while slot < MAX_TASKS
        invariant 0 <= slot <= MAX_TASKS && forall i :: 0 <= i < slot ==> tasks[i].status != Status.Free
      {
        if tasks[slot].status == Status.Free {
          return;
        }
        slot := slot + 1;
      }
      slot := -1;
    }

    /** The resources of a new task: a loaded space and a kernel stack, or nothing taken at all. */
    method Acquire(img: seq<Byte>) returns (pgdir: nat, kstack: nat, ghost sp: Space)
      requires Separate() && pool.Valid() && heap.Valid() && NoWrap(img)
      requires kd in pool.Used() && kd < pool.count && kdir == pool.Addr(kd)
      modifies pool`freeFrames, pool`mem, pool.bitmap, heap.mem, heap`bs
      ensures pool.Valid() && heap.Valid() && Kept(old(pool.mem), pool.mem, old(pool.Used()))
      ensures pgdir != 0 <==>
        Loadable(img) && FramesFor(img) <= old(pool.freeFrames) && Blocks.FirstFit(old(heap.bs), KSTACK_SIZE).Some?
      ensures pgdir == 0 ==> pool.Used() == old(pool.Used()) && heap.bs == old(heap.bs)
      ensures LiveKept(old(heap.mem[..]), heap.mem[..], heap.base, old(heap.bs))
      ensures pgdir != 0 ==> (heap.bs, kstack) == Blocks.Malloc(old(heap.bs), KSTACK_SIZE)
      ensures pgdir != 0 ==> pgdir == pool.Addr(sp.pd) && SpaceRep(pool.mem, pool.base, kd, sp)
      ensures pgdir != 0 ==> Grown(old(pool.mem), old(pool.Used()), pool.mem, pool.Used(), sp)
      ensures pgdir != 0 ==> Loaded(pool.mem, sp, img, PhNum(img))
      ensures pgdir != 0 ==> kstack != 0 && kstack !in Ptrs(Blocks.Live(old(heap.bs)))
      ensures pgdir != 0 ==> Ptrs(Blocks.Live(heap.bs)) == Ptrs(Blocks.Live(old(heap.bs))) + multiset{kstack}
    {
      hide UsedIn, SpaceRep, Grown, Loadable, Loaded, Kept, Needed, FramesOf, FramesFor;
      hide Blocks.HeapInv, Blocks.Live, Blocks.Malloc, Rep, Ptrs, LiveKept;
      ghost var mem0, used0, bs0 := pool.mem, pool.Used(), heap.bs;
      LiveKeptRefl(heap.mem[..], heap.base, heap.total, bs0);
      var entry;
      kstack := 0;
      pgdir, entry, sp := LoadProgram(pool, kdir, img, kd);
      if pgdir == 0 {
        return;
      }
      GrownUndo(mem0, used0, pool.mem, pool.Used(), sp);
      assert Blocks.AlignUp(KSTACK_SIZE) == KSTACK_SIZE;
      MallocPtrs(bs0, heap.base, heap.total, KSTACK_SIZE);
      kstack := Grab(heap, KSTACK_SIZE);
      if kstack == 0 {
        FreeUserPages(pool, pgdir, kd, sp);
        pgdir := 0;
      }
    }

    /**
     * task_spawn_user. Succeeds exactly when it can; a failure at any stage
     * restores the frames and the heap; frames in use before keep their bytes.
     */
    method Spawn(img: seq<Byte>) returns (pid: int, ghost s: nat)
      requires Valid() && NoWrap(img)
      modifies this`nextPid, this`spaces, tasks, pool`freeFrames, pool`mem, pool.bitmap, heap.mem, heap`bs
      ensures Valid() && Kept(old(pool.mem), pool.mem, old(pool.Used())) && others == old(others)
      ensures pid != -1 <==> old(CanSpawn(img))
      ensures pid == -1 ==> State() == old(State()) && pool.Used() == old(pool.Used()) && heap.bs == old(heap.bs)
      ensures LiveKept(old(heap.mem[..]), heap.mem[..], heap.base, old(heap.bs))
      ensures pid != -1 ==> s < MAX_TASKS && (heap.bs, tasks[s].kstack) == Blocks.Malloc(old(heap.bs), KSTACK_SIZE)
      ensures pid != -1 ==>
        pid == old(nextPid) && s < MAX_TASKS && |spaces| == MAX_TASKS && spaces == old(spaces)[s := spaces[s]]
      ensures pid != -1 ==> forall i :: 0 <= i < s ==> old(tasks[..])[i].status != Status.Free
      ensures pid != -1 ==> OpOk(old(State()), kdir, Op.Spawn(s, tasks[s].pgdir, tasks[s].kstack))
      ensures pid != -1 ==> State() == Spawned(old(State()), s, tasks[s].pgdir, tasks[s].kstack)
      ensures pid != -1 ==> Loaded(pool.mem, spaces[s], img, PhNum(img))
      ensures pid != -1 ==> s < MAX_TASKS && Identifies(tasks[..], s, pid)
    {
      hide UsedIn, SpaceRep, Grown, Loadable, Loaded, Kept, Needed, FramesOf, FrameInv, StackInv, FramesFor;
      hide Blocks.HeapInv, Blocks.Live, Blocks.Malloc, Rep, Ptrs, Sched.TableOk, OpOk, LiveKept;
      ghost var m, mem0, used0, bs0 := State(), pool.mem, pool.Used(), heap.bs;
      LiveKeptRefl(heap.mem[..], heap.base, heap.total, bs0);
      KernelUsed(mem0, pool.base, used0, kd, tasks[..], spaces);
      Paging.KeptRefl(mem0, used0);
      FrameInvSize(mem0, pool.base, used0, kd, tasks[..], spaces);
      s := 0;
      var slot := FindSlot();
      if slot < 0 {
        return -1, 0;
      }
      ghost var sp;
      var pgdir, kstack;
      pgdir, kstack, sp := Acquire(img);
      if pgdir == 0 {
        FrameInvKept(mem0, pool.mem, pool.base, used0, kd, tasks[..], spaces);
        return -1, 0;
      }
      SpawnAll(m, kdir, mem0, pool.mem, pool.base, used0, pool.Used(), kd, spaces, sp,
               bs0, heap.bs, others, kstack, slot);
      s := slot;
      tasks[slot] := Task(Status.Ready, pgdir, kstack, pgdir, nextPid);
      spaces := spaces[slot := sp];
      pid := nextPid;
      nextPid := nextPid + 1;
      assert State() == Spawned(m, s, pgdir, kstack);
      OwnPid(State(), kdir, s);
    }

    /** task_reap: a zombie's space and stack go back to the pool and the heap; anything else is left alone. */
    method Reap(s: nat)
      requires Valid() && s < MAX_TASKS
      modifies tasks, pool`freeFrames, pool.bitmap, heap.mem, heap`bs
      ensures Valid() && State() == Reaped(old(State()), s)
      ensures old(tasks[s]).status != Zombie ==> pool.Used() == old(pool.Used()) && heap.bs == old(heap.bs)
      ensures old(tasks[s]).status == Zombie ==> pool.Used() == old(pool.Used()) - FramesOf(spaces[s])
      ensures LiveKept(old(heap.mem[..]), heap.mem[..], heap.base, heap.bs)
      ensures old(tasks[s]).status == Zombie ==> PayloadIndex(old(heap.bs), old(tasks[s]).kstack).Some?
      ensures old(tasks[s]).status == Zombie ==>
        heap.bs == Blocks.Release(old(heap.bs), PayloadIndex(old(heap.bs), old(tasks[s]).kstack).value)
      ensures old(tasks[s]).status == Zombie ==>
        Ptrs(Blocks.Live(heap.bs)) == old(Ptrs(Blocks.Live(heap.bs))) - multiset{old(tasks[s]).kstack}
    {
      hide UsedIn, SpaceRep, FramesOf, FrameInv, StackInv, Blocks.HeapInv, Blocks.Live, Blocks.Release, Rep, Ptrs,
        Sched.TableOk, PayloadIndex, LiveKept, KeptPayloads;
      ghost var m, used0, bs0 := State(), pool.Used(), heap.bs;
      FrameInvSize(pool.mem, pool.base, used0, kd, tasks[..], spaces);
      if tasks[s].status != Zombie {
        LiveKeptRefl(heap.mem[..], heap.base, heap.total, heap.bs);
        return;
      }
      ghost var mem1 := heap.mem[..];
      ReapAll(m, kdir, pool.mem, pool.base, used0, kd, spaces, bs0, heap.base, heap.total, others, s);
      FreeUserPages(pool, tasks[s].pgdir, kd, spaces[s]);
      heap.Kfree(tasks[s].kstack);
      LiveKeptOf(mem1, heap.mem[..], heap.base, heap.bs);
      tasks[s] := NO_TASK;
      assert tasks[..] == m.tasks[s := NO_TASK];
    }

    /** Once every user task is reaped all frames but the kernel directory are free, and no stack is in the heap. */
    lemma AllReaped()
      requires Valid() && forall i :: 1 <= i < MAX_TASKS ==> tasks[i].status == Status.Free
      ensures pool.Used() == {kd} && pool.freeFrames == pool.count - 1
      ensures Ptrs(Blocks.Live(heap.bs)) == others
      ensures others == multiset{} ==>
        heap.total >= Blocks.HDR && heap.bs == [Blocks.Block(heap.base, heap.total - Blocks.HDR, true)]
    {
      hide UsedIn, FrameInv, Blocks.Live, Rep, Ptrs, Stacks, Blocks.HeapInv;
      var ts := tasks[..];
      forall i | 0 <= i < MAX_TASKS ensures ts[i].pgdir == 0 && ts[i].kstack == 0 {
        assert i > 0 ==> SlotOk(ts[i], kdir, nextPid);
      }
      NoTasksNoFrames(pool.mem, pool.base, pool.Used(), kd, ts, spaces);
      NoTasksNoStacks(ts);
      if others == multiset{} {
        NoPtrs(Blocks.Live(heap.bs));
        Blocks.NothingLive(heap.bs, heap.base, heap.total);
      }
    }

    /**
     * What a task reaches with user rights is a page of its own: not one of its
     * tables, not the kernel directory, not a frame of any other task.
     */
    lemma TasksIsolated(i: nat, va: nat)
      requires Valid() && i < MAX_TASKS && |spaces| == MAX_TASKS && tasks[i].pgdir != 0 && va < 0x1_0000_0000
      requires spaces[i].pd < pool.count && UserWalk(pool.mem, pool.base, spaces[i].pd, va).Some?
      ensures tasks[i].pgdir == pool.Addr(spaces[i].pd)
      ensures var phys := UserWalk(pool.mem, pool.base, spaces[i].pd, va).value;
        && pool.base <= phys && OwnPage(tasks[..], spaces, kd, i, FrameAt(pool.base, phys))
    {
      hide UsedIn, SpaceRep, KernelDir, FramesOf, UserWalk, Inv;
      DirUsed(pool.mem, pool.base, pool.Used(), kd, tasks[..], spaces, i);
      ReachOwn(pool.mem, pool.base, pool.Used(), kd, tasks[..], spaces, i, va);
    }

    /** Whichever task runs, the kernel finds its first 256 MiB at their own addresses, and no program does. */
    lemma KernelMapped(va: nat)
      requires Valid() && va < 0x1000_0000
      ensures pool.base <= cr3 && FrameAt(pool.base, cr3) < |pool.mem|
      ensures Translate(pool.mem, pool.base, FrameAt(pool.base, cr3), va) == Some(Mapping(va, false, true))
    {
      hide UsedIn, KernelDir, FramesOf, Translate, SpaceRep, StackInv, Sched.TableOk, FramePool.Used;
      FrameAtAddr(pool.base, kd);
      if current == 0 {
        BootDir(State(), kdir);
        KernelTranslate(pool.mem, pool.base, kd, va);
      } else {
        FrameInvSize(pool.mem, pool.base, pool.Used(), kd, tasks[..], spaces);
        CurrentDir(State(), kdir);
        DirUsed(pool.mem, pool.base, pool.Used(), kd, tasks[..], spaces, current);
        ShapeOf(pool.mem, pool.base, kd, spaces[current]);
        FrameAtAddr(pool.base, spaces[current].pd);
        SpaceTranslate(pool.mem, pool.base, kd, spaces[current], va);
      }
    }

    /**
     * A store by the running program, through the directory in cr3: one byte of
     * a page of its own changes, or it faults and nothing does. Either way all
     * the kernel relies on still holds.
     */
    method UserStore(va: nat, v: Byte) returns (ok: bool)
      requires Valid() && current != 0 && va < 0x1_0000_0000
      modifies pool`mem
      ensures Valid() && |spaces| == MAX_TASKS && |pool.mem| == |old(pool.mem)|
      ensures spaces[current].pd < pool.count
      ensures (ok <==> UserWalk(old(pool.mem), pool.base, spaces[current].pd, va).Some?)
      ensures !ok ==> pool.mem == old(pool.mem)
      ensures ok ==> var phys := UserWalk(old(pool.mem), pool.base, spaces[current].pd, va).value;
        && pool.base <= phys && OwnPage(tasks[..], spaces, kd, current, FrameAt(pool.base, phys))
        && FrameAt(pool.base, phys) < |pool.mem|
        && var f := FrameAt(pool.base, phys);
           pool.mem == old(pool.mem)[f := old(pool.mem)[f][(phys - pool.base) % 4096 := v]]
      ensures forall f: nat :: f < |pool.mem| && !OwnPage(tasks[..], spaces, kd, current, f) ==>
        pool.mem[f] == old(pool.mem)[f]
    {
      hide UsedIn, SpaceRep, KernelDir, FramesOf, Translate, FrameInv, OwnPage, StackInv, FrameAt, Sched.TableOk;
      ghost var ts := tasks[..];
      FrameInvSize(pool.mem, pool.base, pool.Used(), kd, ts, spaces);
      CurrentDir(State(), kdir);
      DirUsed(pool.mem, pool.base, pool.Used(), kd, ts, spaces, current);
      ShapeOf(pool.mem, pool.base, kd, spaces[current]);
      FrameAtAddr(pool.base, spaces[current].pd);
      ReachTable(pool.mem, pool.base, pool.Used(), kd, ts, spaces, current, va);
      var r := Translate(pool.mem, pool.base, FrameAt(pool.base, cr3), va);
      if r == None || !r.value.user || !r.value.writable {
        return false;
      }
      ReachOwn(pool.mem, pool.base, pool.Used(), kd, ts, spaces, current, va);
      var f := FrameAt(pool.base, r.value.phys);
      var page: Frame := pool.mem[f][(r.value.phys - pool.base) % 4096 := v];
      StoreKeeps(pool.mem, pool.base, pool.Used(), kd, ts, spaces, current, f, page);
      pool.mem := pool.mem[f := page];
      ok := true;
    }
  }

  /** Frame `f` backs a page of slot `i`: not a table, not the kernel directory, and no other slot's. */
  ghost predicate OwnPage(tasks: seq<Task>, spaces: seq<Space>, kd: nat, i: nat, f: nat) {
    && Owns(tasks, spaces, i, f) && f != spaces[i].pd && f != spaces[i].pt && f != kd
    && forall j: nat :: j != i ==> !Owns(tasks, spaces, j, f)
  }

  lemma ReachOwn(mem: seq<Frame>, base: nat, used: set<nat>, kd: nat, tasks: seq<Task>, spaces: seq<Space>, i: nat,
                 va: nat)
    requires FrameInv(mem, base, used, kd, tasks, spaces) && i < |tasks| && tasks[i].pgdir != 0 && va < 0x1_0000_0000
    requires 0 < base && base % 4096 == 0 && spaces[i].pd < |mem| && UserWalk(mem, base, spaces[i].pd, va).Some?
    ensures var phys := UserWalk(mem, base, spaces[i].pd, va).value;
      && base <= phys && FrameAt(base, phys) < |mem| && OwnPage(tasks, spaces, kd, i, FrameAt(base, phys))
  {
    hide KernelDir, FramesOf, UserWalk, DirRep, TableRep;
    DirUsed(mem, base, used, kd, tasks, spaces, i);
    Isolation(mem, base, kd, spaces[i], va);
    var f := FrameAt(base, UserWalk(mem, base, spaces[i].pd, va).value);
    assert Owns(tasks, spaces, i, f);
  }

  /** What a program reads it may also write. */
  lemma ReachTable(mem: seq<Frame>, base: nat, used: set<nat>, kd: nat, tasks: seq<Task>, spaces: seq<Space>, i: nat,
                   va: nat)
    requires FrameInv(mem, base, used, kd, tasks, spaces) && i < |tasks| && tasks[i].pgdir != 0 && va < 0x1_0000_0000
    requires 0 < base && base % 4096 == 0 && spaces[i].pd < |mem|
    ensures UserWalk(mem, base, spaces[i].pd, va).Some? ==> Translate(mem, base, spaces[i].pd, va).value.writable
  {
    hide KernelDir, FramesOf, Translate, SpaceRep;
    DirUsed(mem, base, used, kd, tasks, spaces, i);
    UserReach(mem, base, kd, spaces[i], va);
  }

  lemma BootDir(m: Machine, kdir: nat)
    requires Inv(m, kdir) && m.current == 0
    ensures m.cr3 == kdir
  {
  }

  /** Writing a page of its own breaks nothing the kernel relies on. */
  lemma StoreKeeps(mem: seq<Frame>, base: nat, used: set<nat>, kd: nat, tasks: seq<Task>, spaces: seq<Space>, i: nat,
                   f: nat, page: Frame)
    requires FrameInv(mem, base, used, kd, tasks, spaces) && f < |mem| && OwnPage(tasks, spaces, kd, i, f)
    ensures FrameInv(mem[f := page], base, used, kd, tasks, spaces)
  {
    hide SpaceRep, KernelDir, FramesOf;
    forall j | 0 <= j < |tasks| && tasks[j].pgdir != 0 ensures SpaceRep(mem[f := page], base, kd, spaces[j]) {
      assert SpaceRep(mem, base, kd, spaces[j]);
      OwnsTables(tasks, spaces, j);
      SpaceFrame(mem, mem[f := page], base, kd, spaces[j], {spaces[j].pd, spaces[j].pt, kd});
    }
  }

  lemma CurrentDir(m: Machine, kdir: nat)
    requires Inv(m, kdir) && m.current != 0
    ensures m.cr3 == m.tasks[m.current].pgdir && m.tasks[m.current].pgdir != 0
  {
    assert SlotOk(m.tasks[m.current], kdir, m.nextPid);
  }

  lemma FrameAtAddr(base: nat, i: nat)
    ensures FrameAt(base, base + 4096 * i) == i
  {
  }

  lemma NoPtrs(xs: seq<Blocks.Block>)
    ensures Ptrs(xs) == multiset{} <==> xs == []
  {
    if xs != [] { assert xs[0].Payload() in Ptrs(xs); }
  }

  lemma FrameInvSize(mem: seq<Frame>, base: nat, used: set<nat>, kd: nat, tasks: seq<Task>, spaces: seq<Space>)
    requires FrameInv(mem, base, used, kd, tasks, spaces)
    ensures |spaces| == |tasks|
  {
  }

  /** Slot `s` holds a ready task with this pid, and no other slot holds the pid. */
  ghost predicate Identifies(tasks: seq<Task>, s: nat, pid: int)
    requires s < |tasks|
  {
    && tasks[s].status == Status.Ready && tasks[s].pid == pid
    && forall j :: 0 <= j < |tasks| && j != s ==> tasks[j].pid != pid
  }

  lemma OwnPid(m: Machine, kdir: nat, s: nat)
    requires Inv(m, kdir) && s < MAX_TASKS && m.tasks[s].status == Status.Ready
    ensures Identifies(m.tasks, s, m.tasks[s].pid)
  {
    forall j | 0 <= j < |m.tasks| && j != s ensures m.tasks[j].pid != m.tasks[s].pid { OnePid(m, kdir, s, j); }
  }

  /** A successful spawn keeps everything the kernel relies on. */
  lemma SpawnAll(m: Machine, kdir: nat, mem: seq<Frame>, mem': seq<Frame>, base: nat, used: set<nat>, used': set<nat>,
                 kd: nat,
                 spaces: seq<Space>, sp: Space, bs: seq<Blocks.Block>, bs': seq<Blocks.Block>, others: multiset<nat>,
                 kstack: nat, s: nat)
    requires Inv(m, kdir) && FrameInv(mem, base, used, kd, m.tasks, spaces) && 0 < base && kdir == base + 4096 * kd
    requires Grown(mem, used, mem', used', sp) && SpaceRep(mem', base, kd, sp)
    requires StackInv(bs, m.tasks, others) && kstack != 0 && kstack !in Ptrs(Blocks.Live(bs))
    requires Ptrs(Blocks.Live(bs')) == Ptrs(Blocks.Live(bs)) + multiset{kstack}
    requires s < MAX_TASKS && m.tasks[s].status == Status.Free
    ensures var pgdir := base + 4096 * sp.pd; var m' := Spawned(m, s, pgdir, kstack);
      && OpOk(m, kdir, Op.Spawn(s, pgdir, kstack)) && Inv(m', kdir)
      && |spaces| == MAX_TASKS && FrameInv(mem', base, used', kd, m'.tasks, spaces[s := sp])
      && StackInv(bs', m'.tasks, others)
  {
    hide Grown, SpaceRep, FrameInv, Ptrs, Stacks, Blocks.Live, Fresh;
    var pgdir := base + 4096 * sp.pd;
    var t := Task(Status.Ready, pgdir, kstack, pgdir, m.nextPid);
    FreshTask(m, kdir, mem, mem', base, used, used', kd, spaces, sp, bs, others, kstack);
    SpawnKeeps(m, kdir, s, pgdir, kstack);
    assert m.tasks[s] == NO_TASK;
    FrameInvSize(mem, base, used, kd, m.tasks, spaces);
    FrameInvAdd(mem, mem', base, used, used', kd, m.tasks, spaces, s, t, sp);
    StacksSet(m.tasks, s, t);
  }

  /** So does reaping a zombie. */
  lemma ReapAll(m: Machine, kdir: nat, mem: seq<Frame>, base: nat, used: set<nat>, kd: nat, spaces: seq<Space>,
                bs: seq<Blocks.Block>, hbase: nat, total: nat, others: multiset<nat>, s: nat)
    requires Inv(m, kdir) && FrameInv(mem, base, used, kd, m.tasks, spaces) && StackInv(bs, m.tasks, others)
    requires Blocks.HeapInv(bs, hbase, total) && s < MAX_TASKS && m.tasks[s].status == Zombie
    ensures var t := m.tasks[s]; var m' := Reaped(m, s);
      && Inv(m', kdir) && |spaces| == MAX_TASKS && t.pgdir == base + 4096 * spaces[s].pd
      && SpaceRep(mem, base, kd, spaces[s])
      && FrameInv(mem, base, used - FramesOf(spaces[s]), kd, m'.tasks, spaces)
      && t.kstack != 0 && PayloadIndex(bs, t.kstack).Some?
      && var bs' := Blocks.Release(bs, PayloadIndex(bs, t.kstack).value);
         Ptrs(Blocks.Live(bs')) == Ptrs(Blocks.Live(bs)) - multiset{t.kstack} && StackInv(bs', m'.tasks, others)
  {
    hide SpaceRep, FrameInv, Ptrs, Stacks, Blocks.Live, Blocks.Release, PayloadIndex, Blocks.HeapInv, FramesOf;
    var t := m.tasks[s];
    ReapKeeps(m, kdir, s);
    assert SlotOk(t, kdir, m.nextPid);
    FrameInvSize(mem, base, used, kd, m.tasks, spaces);
    DirUsed(mem, base, used, kd, m.tasks, spaces, s);
    FrameInvDrop(mem, base, used, kd, m.tasks, spaces, s);
    StacksSet(m.tasks, s, NO_TASK);
    assert t.kstack in StackOf(t);
    FreePtrs(bs, hbase, total, t.kstack);
  }

  lemma PickStep(m: Machine, i: nat, cand: nat)
    requires Sched.Shape(m) && 1 <= i <= MAX_TASKS && cand == (m.current + i) % MAX_TASKS
    ensures PickFrom(m, i) == if m.tasks[cand].status == Status.Ready then cand else PickFrom(m, i + 1)
  {
  }

  lemma PickEnd(m: Machine)
    requires Sched.Shape(m)
    ensures PickFrom(m, MAX_TASKS + 1) == m.current
  {
  }

  /** Becoming a zombie moves no ownership. */
  lemma ExitOwns(tasks: seq<Task>, spaces: seq<Space>, mem: seq<Frame>, base: nat, used: set<nat>, kd: nat,
                 bs: seq<Blocks.Block>, others: multiset<nat>, s: nat)
    requires FrameInv(mem, base, used, kd, tasks, spaces) && StackInv(bs, tasks, others) && s < |tasks|
    ensures var tasks' := tasks[s := tasks[s].(status := Zombie)];
      FrameInv(mem, base, used, kd, tasks', spaces) && StackInv(bs, tasks', others)
  {
    hide SpaceRep, KernelDir, FramesOf, Stacks, Ptrs;
    var tasks' := tasks[s := tasks[s].(status := Zombie)];
    StacksSet(tasks, s, tasks'[s]);
    forall i: nat, f: nat ensures Owns(tasks', spaces, i, f) <==> Owns(tasks, spaces, i, f) {
    }
  }
}
