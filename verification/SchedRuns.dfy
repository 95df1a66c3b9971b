/** The scheduler invariant holds over every run of the kernel/thread.c operations. */
module SchedRuns {
  import opened Wrappers
  import opened SchedSpec
  import opened SchedInv
  import opened SchedIdle

  datatype Op =
    | OpCreate(t: Tid, prio: nat, pinned: int)
    | OpResume(cpu: nat, t: Tid, intsOff: bool)
    | OpYield(cpu: nat)
    | OpPreempt(cpu: nat)
    | OpSetPriority(cpu: nat, newPrio: int)
    | OpBlock(cpu: nat, w: Wid, timeoutZero: bool)
    | OpWakeOne(cpu: nat, w: Wid, resched: bool, err: Status)
    | OpWakeAll(cpu: nat, w: Wid, resched: bool, err: Status)
    | OpTimeout(t: Tid)
    | OpSleep(cpu: nat)
    | OpSleepDone(t: Tid)
    | OpExit(cpu: nat)
    | OpDetach(t: Tid)
    | OpUnqueue(t: Tid)
    | OpReap(t: Tid)
    | OpTick(cpu: nat)
    | OpInitQueue(id: nat)

  /** What the source demands of the caller: the debug assertions, and that an idle
      thread neither waits nor leaves itself on a queue. */
  ghost predicate Enabled(k: K, op: Op) {
    match op
    case OpCreate(t, prio, _) => t !in k.threads && Retcode(t) !in k.waits && prio < NUM_PRIORITIES
    case OpResume(cpu, t, _) => cpu < |k.current| && t in k.threads && k.threads[t].state != Death
    case OpYield(cpu) => cpu < |k.current|
    case OpPreempt(cpu) => cpu < |k.current|
    case OpSetPriority(cpu, p) => cpu < |k.current| && PriorityOk(k, cpu, p)
    case OpBlock(cpu, w, _) => Busy(k, cpu) && w in k.waits
    case OpWakeOne(cpu, w, resched, _) => cpu < |k.current| && w in k.waits && WakeOneOk(k, cpu, w, resched)
    case OpWakeAll(cpu, w, resched, _) => cpu < |k.current| && w in k.waits && WakeAllOk(k, cpu, w, resched)
    case OpTimeout(t) => t in k.threads
    case OpSleep(cpu) => Busy(k, cpu)
    case OpSleepDone(t) => t in k.threads && k.threads[t].state == Sleeping
    case OpExit(cpu) => Busy(k, cpu) && Retcode(k.current[cpu]) in k.waits
    case OpDetach(t) => t in k.threads && Retcode(t) in k.waits
    case OpReap(t) => t in k.threads && k.threads[t].state == Death && NoJoiner(k, t)
    case OpUnqueue(t) => t in k.threads && k.threads[t].state == Ready && !k.threads[t].idle && NoJoiner(k, t)
    case OpTick(cpu) => cpu < |k.current|
    case OpInitQueue(id) => Object(id) !in k.waits
  }

  /** The operation is defined: the records it follows exist. */
  ghost predicate Defined(k: K, op: Op) {
    match op
    case OpCreate(_, _, _) => true
    case OpResume(cpu, t, _) => Basic(k, cpu) && t in k.threads && k.threads[t].prio < NUM_PRIORITIES
    case OpYield(cpu) => Basic(k, cpu)
    case OpPreempt(cpu) => Basic(k, cpu)
    case OpSetPriority(cpu, _) => Basic(k, cpu)
    case OpBlock(cpu, w, _) => Basic(k, cpu) && w in k.waits
    case OpWakeOne(cpu, w, _, _) => Basic(k, cpu) && WaitersOk(k, w)
    case OpWakeAll(cpu, w, _, _) => Basic(k, cpu) && WaitersOk(k, w)
    case OpTimeout(t) => Unblock.requires(k, t, ErrTimedOut)
    case OpSleep(cpu) => Basic(k, cpu)
    case OpSleepDone(t) => t in k.threads && k.threads[t].prio < |k.rq|
    case OpExit(cpu) => Basic(k, cpu) && WaitersOk(k, Retcode(k.current[cpu]))
    case OpDetach(t) => t in k.threads && WaitersOk(k, Retcode(t))
    case OpUnqueue(t) => Unqueue.requires(k, t)
    case OpReap(_) => true
    case OpTick(cpu) => Basic(k, cpu)
    case OpInitQueue(_) => true
  }

  ghost function After(k: K, op: Op): K
    requires Defined(k, op)
  {
    match op
    case OpCreate(t, prio, pinned) => Create(k, t, prio, pinned)
    case OpResume(cpu, t, intsOff) => Resume(k, cpu, t, intsOff)
    case OpYield(cpu) => Yield(k, cpu)
    case OpPreempt(cpu) => Preempt(k, cpu)
    case OpSetPriority(cpu, p) => SetPriority(k, cpu, p)
    case OpBlock(cpu, w, z) => Block(k, cpu, w, z)
    case OpWakeOne(cpu, w, r, e) => WakeOne(k, cpu, w, r, e)
    case OpWakeAll(cpu, w, r, e) => WakeAll(k, cpu, w, r, e)
    case OpTimeout(t) => Unblock(k, t, ErrTimedOut)
    case OpSleep(cpu) => Sleep(k, cpu)
    case OpSleepDone(t) => SleepDone(k, t)
    case OpExit(cpu) => Exit(k, cpu)
    case OpDetach(t) => Detach(k, t)
    case OpUnqueue(t) => Unqueue(k, t)
    case OpReap(t) => Reap(k, t)
    case OpTick(cpu) => Tick(k, cpu)
    case OpInitQueue(id) => InitQueue(k, Object(id))
  }

  /** The caller may make the call, and `k'` is what it leaves. */
  ghost predicate Step(k: K, op: Op, k': K) {
    Enabled(k, op) && (Defined(k, op) ==> k' == After(k, op))
  }

  ghost predicate IsRun(ks: seq<K>, ops: seq<Op>) {
    |ks| == |ops| + 1 && forall i | 0 <= i < |ops| :: Step(ks[i], ops[i], ks[i + 1])
  }

  predicate OnCpu(op: Op) {
    op.OpYield? || op.OpPreempt? || op.OpSetPriority? || op.OpSleep? || op.OpTick? || op.OpBlock?
  }

  /** Operations on the thread a CPU runs. */
  lemma CpuStepKeeps(k: K, op: Op)
    requires Inv(k) && Enabled(k, op)
    requires OnCpu(op)
    ensures Defined(k, op) && Inv(After(k, op))
  {
    match op
    case OpYield(cpu) => YieldKeeps(k, cpu);
    case OpPreempt(cpu) => PreemptKeeps(k, cpu);
    case OpSetPriority(cpu, p) => SetPriorityKeepsIff(k, cpu, p);
    case OpBlock(cpu, w, z) => BlockKeeps(k, cpu, w, z);
    case OpSleep(cpu) => SleepKeeps(k, cpu);
    case OpTick(cpu) => TickKeeps(k, cpu);
  }

  /** Operations that wake, create or retire threads. */
  lemma ThreadStepKeeps(k: K, op: Op)
    requires Inv(k) && Enabled(k, op)
    requires !OnCpu(op)
    ensures Defined(k, op) && Inv(After(k, op))
  {
    match op
    case OpCreate(t, prio, pinned) => CreateKeeps(k, t, prio, pinned);
    case OpResume(cpu, t, intsOff) => ResumeKeeps(k, cpu, t, intsOff);
    case OpWakeOne(cpu, w, r, e) => WakeOneKeepsIff(k, cpu, w, r, e);
    case OpWakeAll(cpu, w, r, e) => WakeAllKeepsIff(k, cpu, w, r, e);
    case OpTimeout(t) => UnblockKeeps(k, t, ErrTimedOut);
    case OpSleepDone(t) => ReadyKeeps(k, t);
    case OpExit(cpu) => ExitKeeps(k, cpu);
    case OpDetach(t) => DetachKeeps(k, t);
    case OpUnqueue(t) => UnqueueKeepsIff(k, t);
    case OpReap(t) => ReapKeeps(k, t);
    case OpInitQueue(id) => InitQueueKeeps(k, Object(id));
  }

  lemma StepKeeps(k: K, op: Op, k': K)
    requires Inv(k) && Step(k, op, k')
    ensures Defined(k, op) && k' == After(k, op) && Inv(k')
  {
    if OnCpu(op) { CpuStepKeeps(k, op); } else { ThreadStepKeeps(k, op); }
  }

  /** Every state of every run satisfies the invariant. */
  lemma {:induction false} RunKeeps(ks: seq<K>, ops: seq<Op>, i: nat)
    requires IsRun(ks, ops) && Inv(ks[0]) && i < |ks|
    ensures Inv(ks[i])
  {
    if i > 0 {
      RunKeeps(ks, ops, i - 1);
      assert Step(ks[i - 1], ops[i - 1], ks[i - 1 + 1]);
      StepKeeps(ks[i - 1], ops[i - 1], ks[i]);
    }
  }

  /** From boot on. */
  lemma BootRunKeeps(cpus: nat, ks: seq<K>, ops: seq<Op>, i: nat)
    requires IsRun(ks, ops) && ks[0] == Boot(cpus) && i < |ks|
    ensures Inv(ks[i])
  {
    BootHolds(cpus);
    RunKeeps(ks, ops, i);
  }

  /** No run meets a missing record: each operation is defined, and its result is the next state. */
  lemma RunDefined(ks: seq<K>, ops: seq<Op>, i: nat)
    requires IsRun(ks, ops) && Inv(ks[0]) && i < |ops|
    ensures Defined(ks[i], ops[i]) && ks[i + 1] == After(ks[i], ops[i])
  {
    RunKeeps(ks, ops, i);
    assert Step(ks[i], ops[i], ks[i + 1]);
    StepKeeps(ks[i], ops[i], ks[i + 1]);
  }
}
