/** The task table and the round-robin scheduler, as a machine over its steps. */
module Sched {
  const MAX_TASKS: nat := 8
  const KSTACK_SIZE: nat := 4096

  datatype Status = Free | Ready | Zombie
  datatype Task = Task(status: Status, cr3: nat, kstack: nat, pgdir: nat, pid: nat)

  const NO_TASK := Task(Free, 0, 0, 0, 0)

  /** The table, the running slot, and the two registers a switch loads. */
  datatype Machine = Machine(tasks: seq<Task>, current: nat, nextPid: nat, cr3: nat, esp0: nat)

  predicate Shape(m: Machine) { |m.tasks| == MAX_TASKS && m.current < MAX_TASKS }

  predicate IsReady(m: Machine, i: nat)
    requires i < |m.tasks|
  {
    m.tasks[i].status == Ready
  }

  function Around(c: nat, i: nat): (r: nat)
    ensures r < MAX_TASKS
  {
    (c + i) % MAX_TASKS
  }

  /** The first ready slot among `Around(current, i)`, `Around(current, i + 1)`, ..., or the current one. */
  function PickFrom(m: Machine, i: nat): (r: nat)
    requires Shape(m)
    ensures r < MAX_TASKS
    decreases MAX_TASKS + 1 - i
  {
    if i > MAX_TASKS then m.current
    else if IsReady(m, Around(m.current, i)) then Around(m.current, i)
    else PickFrom(m, i + 1)
  }

  function Pick(m: Machine): nat
    requires Shape(m)
  {
    PickFrom(m, 1)
  }

  /** Switching to slot `n`. */
  function SwitchTo(m: Machine, n: nat): Machine
    requires Shape(m) && n < MAX_TASKS
  {
    var prev, to := m.tasks[m.current], m.tasks[n];
    m.(current := n,
       esp0 := if to.kstack != 0 then to.kstack + KSTACK_SIZE else m.esp0,
       cr3 := if to.cr3 != prev.cr3 then to.cr3 else m.cr3)
  }

  function Schedule(m: Machine): Machine
    requires Shape(m)
  {
    var n := Pick(m);
    if n == m.current then m else SwitchTo(m, n)
  }

  // ---- steps ---------------------------------------------------------------------------------

  datatype Op = Tick | Spawn(slot: nat, pgdir: nat, kstack: nat) | Exit | Reap(slot: nat)

  /** A new task owns a directory and a stack that no other task has. */
  predicate Fresh(m: Machine, kdir: nat, pgdir: nat, kstack: nat) {
    && pgdir != 0 && kstack != 0 && pgdir != kdir
    && forall i :: 0 <= i < |m.tasks| && m.tasks[i].status != Free ==>
         m.tasks[i].pgdir != pgdir && m.tasks[i].kstack != kstack
  }

  /** Spawn fills a free slot; only user tasks exit; anything may be offered for reaping. */
  predicate OpOk(m: Machine, kdir: nat, op: Op)
    requires Shape(m)
  {
    match op
    case Tick => true
    case Spawn(s, pgdir, kstack) => s < MAX_TASKS && m.tasks[s].status == Free && Fresh(m, kdir, pgdir, kstack)
    case Exit => m.current != 0
    case Reap(s) => s < MAX_TASKS
  }

  function Spawned(m: Machine, s: nat, pgdir: nat, kstack: nat): Machine
    requires s < |m.tasks|
  {
    m.(tasks := m.tasks[s := Task(Ready, pgdir, kstack, pgdir, m.nextPid)], nextPid := m.nextPid + 1)
  }

  /** The current task becomes a zombie and gives up the processor. */
  function Exited(m: Machine): Machine
    requires Shape(m)
  {
    Schedule(m.(tasks := m.tasks[m.current := m.tasks[m.current].(status := Zombie)]))
  }

  function Reaped(m: Machine, s: nat): Machine
    requires s < |m.tasks|
  {
    if m.tasks[s].status == Zombie then m.(tasks := m.tasks[s := NO_TASK]) else m
  }

  function Apply(m: Machine, kdir: nat, op: Op): Machine
    requires Shape(m) && OpOk(m, kdir, op)
  {
    match op
    case Tick => Schedule(m)
    case Spawn(s, pgdir, kstack) => Spawned(m, s, pgdir, kstack)
    case Exit => Exited(m)
    case Reap(s) => Reaped(m, s)
  }

  predicate IsRun(m: Machine, kdir: nat, ops: seq<Op>)
    decreases |ops|
  {
    ops == [] || (Shape(m) && OpOk(m, kdir, ops[0]) && IsRun(Apply(m, kdir, ops[0]), kdir, ops[1..]))
  }

  function After(m: Machine, kdir: nat, ops: seq<Op>): Machine
    requires IsRun(m, kdir, ops)
    decreases |ops|
  {
    if ops == [] then m else After(Apply(m, kdir, ops[0]), kdir, ops[1..])
  }

  // ---- what every step keeps -----------------------------------------------------------------

  /** A slot of the table: empty, or a user task with a directory and a stack. */
  predicate SlotOk(t: Task, kdir: nat, nextPid: nat) {
    if t.status == Free then t == NO_TASK
    else t.pgdir != 0 && t.pgdir != kdir && t.cr3 == t.pgdir && t.kstack != 0 && 0 < t.pid < nextPid
  }

  predicate Apart(a: Task, b: Task) {
    a.status != Free && b.status != Free ==> a.pgdir != b.pgdir && a.kstack != b.kstack && a.pid != b.pid
  }

  /** Task 0 is the boot flow: always ready, on the kernel directory, with no stack of its own. */
  predicate BootTask(t: Task, kdir: nat, nextPid: nat) {
    t.status == Ready && t.cr3 == kdir && t.pgdir == 0 && t.kstack == 0 && 0 < t.pid < nextPid
  }

  predicate TableOk(tasks: seq<Task>, kdir: nat, nextPid: nat) {
    && |tasks| == MAX_TASKS && BootTask(tasks[0], kdir, nextPid)
    && (forall i :: 1 <= i < MAX_TASKS ==> SlotOk(tasks[i], kdir, nextPid))
    && (forall i, j :: 0 <= i < j < MAX_TASKS ==> Apart(tasks[i], tasks[j]))
  }

  /** The running task is ready, its directory is loaded, and esp0 is the top of its stack. */
  predicate Running(m: Machine)
    requires Shape(m)
  {
    var t := m.tasks[m.current];
    t.status == Ready && m.cr3 == t.cr3 && (t.kstack != 0 ==> m.esp0 == t.kstack + KSTACK_SIZE)
  }

  predicate Inv(m: Machine, kdir: nat) {
    Shape(m) && TableOk(m.tasks, kdir, m.nextPid) && Running(m)
  }

  /** task_init. */
  function Boot(kdir: nat, esp0: nat): (m: Machine)
    ensures Inv(m, kdir)
  {
    var tasks := [Task(Ready, kdir, 0, 0, 1), NO_TASK, NO_TASK, NO_TASK, NO_TASK, NO_TASK, NO_TASK, NO_TASK];
    Machine(tasks, 0, 2, kdir, esp0)
  }

  /** The slot picked is ready as soon as any slot is, and none between it and the current one is. */
  lemma {:induction false} PickFirst(m: Machine, i: nat, d: nat)
    requires Shape(m) && i <= d <= MAX_TASKS && IsReady(m, Around(m.current, d))
    ensures IsReady(m, PickFrom(m, i)) && exists k :: i <= k <= d && PickFrom(m, i) == Around(m.current, k)
    decreases d - i
  {
    if IsReady(m, Around(m.current, i)) {
      assert PickFrom(m, i) == Around(m.current, i);
    } else {
      PickFirst(m, i + 1, d);
    }
  }

  lemma AroundApart(c: nat, i: nat, k: nat)
    requires i < k < i + MAX_TASKS
    ensures Around(c, i) != Around(c, k)
  {
  }

  /** No ready slot comes before the one picked. */
  lemma {:induction false} NoneBefore(m: Machine, i: nat, k: nat)
    requires Shape(m) && 1 <= i <= k <= MAX_TASKS && PickFrom(m, i) == Around(m.current, k)
    ensures forall j :: i <= j < k ==> !IsReady(m, Around(m.current, j))
    decreases k - i
  {
    if i < k {
      AroundApart(m.current, i, k);
      NoneBefore(m, i + 1, k);
    }
  }

  /** In slot order: the next ready slot above the current one, or else the lowest ready slot. */
  lemma PickInOrder(m: Machine)
    requires Shape(m) && IsReady(m, 0)
    ensures IsReady(m, Pick(m))
    ensures Pick(m) > m.current ==> forall j :: m.current < j < Pick(m) ==> !IsReady(m, j)
    ensures Pick(m) <= m.current ==>
      (forall j :: m.current < j < MAX_TASKS ==> !IsReady(m, j)) && (forall j :: 0 <= j < Pick(m) ==> !IsReady(m, j))
  {
    hide PickFrom;
    assert Around(m.current, MAX_TASKS - m.current) == 0;
    PickFirst(m, 1, MAX_TASKS - m.current);
    var k :| 1 <= k <= MAX_TASKS - m.current && PickFrom(m, 1) == Around(m.current, k);
    NoneBefore(m, 1, k);
    if k < MAX_TASKS - m.current {
      assert Pick(m) == m.current + k;
      forall j | m.current < j < Pick(m) ensures !IsReady(m, j) { assert Around(m.current, j - m.current) == j; }
    } else {
      assert Pick(m) == 0;
      forall j | m.current < j < MAX_TASKS ensures !IsReady(m, j) { assert Around(m.current, j - m.current) == j; }
    }
  }

  /** From any ready task 0 the scheduler lands on a ready task. */
  lemma PickReady(m: Machine)
    requires Shape(m) && IsReady(m, 0)
    ensures IsReady(m, Pick(m))
  {
    assert Around(m.current, MAX_TASKS - m.current) == 0;
    PickFirst(m, 1, MAX_TASKS - m.current);
  }

  /** A switch establishes the running-task invariant even from a task that just became a zombie. */
  lemma ScheduleRuns(m: Machine, kdir: nat)
    requires Shape(m) && TableOk(m.tasks, kdir, m.nextPid) && m.cr3 == m.tasks[m.current].cr3
    requires IsReady(m, m.current) ==> Running(m)
    ensures Inv(Schedule(m), kdir) && Schedule(m).tasks == m.tasks
  {
    hide PickFrom, TableOk;
    assert IsReady(m, 0) by { BootReady(m.tasks, kdir, m.nextPid); }
    PickReady(m);
  }

  lemma BootReady(tasks: seq<Task>, kdir: nat, nextPid: nat)
    requires TableOk(tasks, kdir, nextPid)
    ensures |tasks| == MAX_TASKS && tasks[0].status == Ready
  {
  }

  lemma TableSet(tasks: seq<Task>, kdir: nat, nextPid: nat, s: nat, t: Task, nextPid': nat)
    requires TableOk(tasks, kdir, nextPid) && 0 < s < MAX_TASKS && nextPid <= nextPid' && SlotOk(t, kdir, nextPid')
    requires forall i :: 0 <= i < MAX_TASKS && i != s ==> Apart(tasks[i], t)
    ensures TableOk(tasks[s := t], kdir, nextPid')
  {
    var r := tasks[s := t];
    forall i, j | 0 <= i < j < MAX_TASKS ensures Apart(r[i], r[j]) {
      if j == s {
        assert Apart(tasks[i], t);
      } else if i == s {
        assert Apart(tasks[j], t);
      } else {
        assert Apart(tasks[i], tasks[j]);
      }
    }
  }

  lemma ApplyKeeps(m: Machine, kdir: nat, op: Op)
    requires Inv(m, kdir) && OpOk(m, kdir, op)
    ensures Inv(Apply(m, kdir, op), kdir)
  {
    hide PickFrom, TableOk, Schedule;
    BootReady(m.tasks, kdir, m.nextPid);
    match op
    case Tick => ScheduleRuns(m, kdir);
    case Spawn(s, pgdir, kstack) => SpawnKeeps(m, kdir, s, pgdir, kstack);
    case Exit => ExitKeeps(m, kdir);
    case Reap(s) => ReapKeeps(m, kdir, s);
  }

  lemma SpawnKeeps(m: Machine, kdir: nat, s: nat, pgdir: nat, kstack: nat)
    requires Inv(m, kdir) && s < MAX_TASKS && m.tasks[s].status == Free && Fresh(m, kdir, pgdir, kstack)
    ensures Inv(Spawned(m, s, pgdir, kstack), kdir)
  {
    TableSet(m.tasks, kdir, m.nextPid, s, Task(Ready, pgdir, kstack, pgdir, m.nextPid), m.nextPid + 1);
  }

  lemma ExitKeeps(m: Machine, kdir: nat)
    requires Inv(m, kdir) && m.current != 0
    ensures Inv(Exited(m), kdir) && Exited(m).tasks == m.tasks[m.current := m.tasks[m.current].(status := Zombie)]
  {
    hide PickFrom, Schedule;
    TableSet(m.tasks, kdir, m.nextPid, m.current, m.tasks[m.current].(status := Zombie), m.nextPid);
    ScheduleRuns(m.(tasks := m.tasks[m.current := m.tasks[m.current].(status := Zombie)]), kdir);
  }

  /** Reaping a zombie: not the running task, not the loaded directory, not the stack in use. */
  lemma ReapKeeps(m: Machine, kdir: nat, s: nat)
    requires Inv(m, kdir) && s < MAX_TASKS
    ensures Inv(Reaped(m, s), kdir)
    ensures var t := m.tasks[s];
      t.status == Zombie ==> s != m.current && t.pgdir != m.cr3 && t.kstack != m.tasks[m.current].kstack
  {
    var t := m.tasks[s];
    if t.status == Zombie {
      assert s != 0 && s != m.current;
      TableSet(m.tasks, kdir, m.nextPid, s, NO_TASK, m.nextPid);
      assert s < m.current ==> Apart(t, m.tasks[m.current]);
      assert m.current < s ==> Apart(m.tasks[m.current], t);
    }
  }

  /** Over every run: task 0 stays ready, the running task is ready, its directory loaded, esp0 its own. */
  lemma {:induction false} RunKeeps(m: Machine, kdir: nat, ops: seq<Op>)
    requires Inv(m, kdir) && IsRun(m, kdir, ops)
    ensures Inv(After(m, kdir, ops), kdir)
    decreases |ops|
  {
    hide Inv, Apply;
    if ops != [] {
      InvShape(m, kdir);
      ApplyKeeps(m, kdir, ops[0]);
      RunKeeps(Apply(m, kdir, ops[0]), kdir, ops[1..]);
    }
  }

  /** A task is the only one with its pid. */
  lemma OnePid(m: Machine, kdir: nat, s: nat, j: nat)
    requires Inv(m, kdir) && s < MAX_TASKS && j < MAX_TASKS && j != s && m.tasks[s].status != Free
    ensures m.tasks[j].pid != m.tasks[s].pid
  {
    if s < j { assert Apart(m.tasks[s], m.tasks[j]); } else { assert Apart(m.tasks[j], m.tasks[s]); }
    assert s > 0 ==> SlotOk(m.tasks[s], kdir, m.nextPid);
    assert j > 0 ==> SlotOk(m.tasks[j], kdir, m.nextPid);
  }

  lemma InvShape(m: Machine, kdir: nat)
    requires Inv(m, kdir)
    ensures Shape(m)
  {
  }

  // ---- a zombie never runs again ----------------------------------------------------------------

  /** Pid `p` was given out, and whoever still has it is a zombie. */
  predicate Dead(m: Machine, p: nat) {
    p < m.nextPid && forall i :: 0 <= i < |m.tasks| && m.tasks[i].status == Ready ==> m.tasks[i].pid != p
  }

  lemma DeadKeeps(m: Machine, kdir: nat, op: Op, p: nat)
    requires Inv(m, kdir) && OpOk(m, kdir, op) && Dead(m, p)
    ensures Dead(Apply(m, kdir, op), p)
  {
    hide PickFrom;
    if op.Exit? {
      ExitKeeps(m, kdir);
    }
  }

  /** Once a task is a zombie its pid is never again the running one, in any run. */
  lemma {:induction false} ZombieNeverRuns(m: Machine, kdir: nat, ops: seq<Op>, i: nat)
    requires Inv(m, kdir) && IsRun(m, kdir, ops) && i < MAX_TASKS && m.tasks[i].status == Zombie
    ensures var m' := After(m, kdir, ops); Shape(m') && m'.tasks[m'.current].pid != m.tasks[i].pid
  {
    var p := m.tasks[i].pid;
    forall j | 0 <= j < MAX_TASKS && m.tasks[j].status == Ready ensures m.tasks[j].pid != p {
      assert i < j ==> Apart(m.tasks[i], m.tasks[j]);
      assert j < i ==> Apart(m.tasks[j], m.tasks[i]);
    }
    DeadRuns(m, kdir, ops, p);
    RunKeeps(m, kdir, ops);
  }

  lemma {:induction false} DeadRuns(m: Machine, kdir: nat, ops: seq<Op>, p: nat)
    requires Inv(m, kdir) && IsRun(m, kdir, ops) && Dead(m, p)
    ensures Dead(After(m, kdir, ops), p)
    decreases |ops|
  {
    hide Inv, Apply, Dead;
    if ops != [] {
      InvShape(m, kdir);
      ApplyKeeps(m, kdir, ops[0]);
      DeadKeeps(m, kdir, ops[0], p);
      DeadRuns(Apply(m, kdir, ops[0]), kdir, ops[1..], p);
    }
  }

  // ---- bounded waiting --------------------------------------------------------------------------

  /** Steps around the table from the running slot to slot `t`. */
  function Distance(m: Machine, t: nat): (d: nat)
    requires Shape(m) && t < MAX_TASKS
    ensures d < MAX_TASKS && Around(m.current, d) == t && (d == 0 <==> m.current == t)
  {
    if m.current <= t then t - m.current else t + MAX_TASKS - m.current
  }

  /** Calls to schedule in a run. */
  function Calls(ops: seq<Op>): nat {
    if ops == [] then 0 else (if ops[0].Tick? || ops[0].Exit? then 1 else 0) + Calls(ops[1..])
  }

  /** One call brings a waiting ready task strictly closer. */
  lemma CloserBySchedule(m: Machine, t: nat)
    requires Shape(m) && t < MAX_TASKS && t != m.current && IsReady(m, t)
    ensures Distance(Schedule(m), t) < Distance(m, t)
  {
    hide PickFrom;
    var d := Distance(m, t);
    PickFirst(m, 1, d);
    var k :| 1 <= k <= d && Pick(m) == Around(m.current, k);
    assert m.current + k < MAX_TASKS ==> Pick(m) == m.current + k;
    assert m.current + k >= MAX_TASKS ==> Pick(m) == m.current + k - MAX_TASKS;
    assert Distance(SwitchTo(m, Pick(m)), t) == d - k;
  }

  lemma Closer(m: Machine, kdir: nat, op: Op, t: nat)
    requires Inv(m, kdir) && OpOk(m, kdir, op) && t < MAX_TASKS && t != m.current && IsReady(m, t)
    ensures var m' := Apply(m, kdir, op);
      Shape(m') && IsReady(m', t) && Distance(m', t) + Calls([op]) <= Distance(m, t)
  {
    hide PickFrom, Distance, TableOk, SwitchTo;
    match op
    case Tick =>
      CloserBySchedule(m, t);
      ScheduleRuns(m, kdir);
    case Exit =>
      CloserBySchedule(m.(tasks := m.tasks[m.current := m.tasks[m.current].(status := Zombie)]), t);
      ExitKeeps(m, kdir);
      SameDistance(m, m.(tasks := m.tasks[m.current := m.tasks[m.current].(status := Zombie)]), t);
    case Spawn(s, pgdir, kstack) => SameDistance(m, Spawned(m, s, pgdir, kstack), t);
    case Reap(s) => SameDistance(m, Reaped(m, s), t);
  }

  lemma SameDistance(m: Machine, m': Machine, t: nat)
    requires Shape(m) && Shape(m') && m.current == m'.current && t < MAX_TASKS
    ensures Distance(m', t) == Distance(m, t)
  {
  }

  /** Slot `t` runs at some point of the run (or already does). */
  predicate Visits(m: Machine, kdir: nat, ops: seq<Op>, t: nat)
    requires IsRun(m, kdir, ops)
    decreases |ops|
  {
    m.current == t || (ops != [] && Visits(Apply(m, kdir, ops[0]), kdir, ops[1..], t))
  }

  /** A ready task runs within as many calls of schedule as its distance, whatever else happens. */
  lemma {:induction false} WaitsAtMost(m: Machine, kdir: nat, ops: seq<Op>, t: nat)
    requires Inv(m, kdir) && IsRun(m, kdir, ops) && t < MAX_TASKS && IsReady(m, t)
    requires Calls(ops) >= Distance(m, t)
    ensures Visits(m, kdir, ops, t)
    decreases |ops|
  {
    hide Inv, Apply, Distance;
    InvShape(m, kdir);
    if m.current != t {
      assert Distance(m, t) > 0;
      ApplyKeeps(m, kdir, ops[0]);
      Closer(m, kdir, ops[0], t);
      assert Calls(ops) == Calls([ops[0]]) + Calls(ops[1..]);
      WaitsAtMost(Apply(m, kdir, ops[0]), kdir, ops[1..], t);
    }
  }

  /** Bounded waiting: seven calls suffice for every ready task. */
  lemma BoundedWaiting(m: Machine, kdir: nat, ops: seq<Op>, t: nat)
    requires Inv(m, kdir) && IsRun(m, kdir, ops) && t < MAX_TASKS && IsReady(m, t) && Calls(ops) >= MAX_TASKS - 1
    ensures Visits(m, kdir, ops, t)
  {
    WaitsAtMost(m, kdir, ops, t);
  }
}
