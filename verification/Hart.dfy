/** The scheduler's code, section by section, on the state it updates in place. Each method is one section that runs
    with interrupts masked. A hart is always at the end of some run of `SchedulerSpec`, each method adds one step to it,
    and so the laws of all runs hold of the hart: it never panics, every task is in one place, and a dispatched task is
    saved. */
module Hart {
  import opened Prelude
  import opened SchedulerSpec
  import opened SchedulerLaws

  lemma RunGoesOn(run: seq<State>, steps: seq<Step>, step: Step)
    requires IsRun(run, steps) && Enabled(run[|steps|], step)
    ensures IsRun(run + [Take(run[|steps|], step)], steps + [step])
  {
    hide Enabled, Take, Initial;
    var run', steps' := run + [Take(run[|steps|], step)], steps + [step];
    forall i | 0 <= i < |steps'| ensures StepAt(run', steps', i) {
      if i < |steps| { assert StepAt(run, steps, i); }
    }
  }

  lemma CurrentRuns(run: seq<State>, steps: seq<Step>)
    requires IsRun(run, steps) && run[|steps|].current.Some?
    ensures run[|steps|].mode == InTask && run[|steps|].current.value in run[|steps|].tasks
  {
    RunInv(run, steps, |steps|);
  }

  /** Whoever switched away is not marked as running. */
  lemma PreviousStopped(run: seq<State>, steps: seq<Step>)
    requires IsRun(run, steps)
    ensures var s := run[|steps|];
            s.previous.Some? ==> s.previous.value in s.tasks && s.tasks[s.previous.value].state != Running
  {
    RunInv(run, steps, |steps|);
    var s := run[|steps|];
    if s.previous.Some? { assert Placed(s, s.previous.value); }
  }

  lemma HeadsSaved(run: seq<State>, steps: seq<Step>)
    requires IsRun(run, steps)
    ensures var s := run[|steps|];
            forall k | 0 <= k < |s.levels| && s.levels[k] != [] ::
              s.levels[k][0] in s.tasks
              && (var task := s.tasks[s.levels[k][0]]; task.state == Ready && task.saved && !task.act.Exited?)
  {
    DispatchIsSafe(run, steps, |steps|);
    var s := run[|steps|];
    forall k | 0 <= k < |s.levels| && s.levels[k] != [] ensures InQueue(s.levels, s.levels[k][0]) {
      assert s.levels[k][0] in s.levels[k];
    }
  }

  /** The step leads from `s` to `s'`. */
  ghost predicate Leads(s: State, step: Step, s': State) {
    Enabled(s, step) && s' == Take(s, step)
  }

  /** All that has changed about the tasks and the handler is what the thread of control that runs is in the middle of,
      now `act`. */
  ghost predicate NowDoing(s: State, s': State, act: Activity) {
    && Doing(s') == act && (s'.irq.Some? <==> s.irq.Some?)
    && (s.irq.Some? ==> s'.tasks == s.tasks)
    && (s.irq.None? ==>
        && s.current.Some? && s.current.value in s.tasks
        && OnlyTask(s.tasks, s'.tasks, s.current.value, s.tasks[s.current.value].(act := act)))
  }

  /** Task `t` is `task` now, and every other one as before. */
  ghost predicate OnlyTask(before: map<TaskId, Task>, after: map<TaskId, Task>, t: TaskId, task: Task) {
    && t in before && after.Keys == before.Keys && after[t] == task
    && forall u | u in before && u != t :: after[u] == before[u]
  }

  /** Task `t` has left the hart in `state`, in the middle of `act`; what else is known of it is as in `task`. */
  ghost predicate HasLeft(s: State, s': State, task: Task, state: TaskState, act: Activity) {
    && s.current.Some? && OnlyTask(s.tasks, s'.tasks, s.current.value, task.(state := state, act := act))
    && s'.current.None? && s'.previous == s.current && s'.mode == Switching
  }

  /** `t` was put at the end of the level of that number, the lowest being number 2. */
  ghost predicate JoinedAt(before: seq<seq<TaskId>>, after: seq<seq<TaskId>>, t: TaskId, level: nat) {
    && |before| == |after| == 3
    && forall k | 0 <= k < 3 ::
         after[k] == if k == level || (k == 2 && level > 2) then before[k] + [t] else before[k]
  }

  /** The entries of one wait queue have changed. */
  ghost predicate OnlyQueue(before: map<QueueId, seq<TaskId>>, after: map<QueueId, seq<TaskId>>, q: QueueId,
                            entries: seq<TaskId>) {
    Entries(after, q) == entries && forall p | p != q :: Entries(after, p) == Entries(before, p)
  }

  /** The tasks that can run, one queue for each level of priority. */
  class RunQueue {
    var levels: array<seq<TaskId>>

    ghost predicate Valid()
      reads this
    {
      levels.Length == PRIORITY_LEVELS
    }

    constructor ()
      ensures Valid() && fresh(levels) && levels[..] == [[], [], []]
    {
      levels := new seq<TaskId>[PRIORITY_LEVELS](_ => []);
    }

    method Push(task: TaskId, level: nat)
      requires Valid()
      modifies levels
      ensures levels[..] == QueuePush(old(levels[..]), task, level)
      ensures JoinedAt(old(levels[..]), levels[..], task, level)
    {
      var k := if level < PRIORITY_LEVELS - 1 then level else PRIORITY_LEVELS - 1;
      levels[k] := levels[k] + [task];
    }

    /** Take the task that has waited longest on the first level with a task. */
    method Pop() returns (r: Option<TaskId>)
      requires Valid()
      modifies levels
      ensures r.None? ==> levels[..] == old(levels[..]) && forall k | 0 <= k < PRIORITY_LEVELS :: levels[k] == []
      ensures r.Some? ==>
                exists k | 0 <= k < PRIORITY_LEVELS ::
                  && (forall j | 0 <= j < k :: old(levels[j]) == [])
                  && old(levels[k]) == [r.value] + levels[k]
                  && levels[..] == old(levels[..])[k := levels[k]]
      ensures var k := FirstLevel(old(levels[..]), 0);
              if k == PRIORITY_LEVELS then r.None?
              else r == Some(old(levels[..])[k][0]) && levels[..] == old(levels[..])[k := old(levels[..])[k][1..]]
    {
      var k := 0;
      while k < PRIORITY_LEVELS
        invariant k <= PRIORITY_LEVELS && levels[..] == old(levels[..])
        invariant forall j | 0 <= j < k :: levels[j] == []
        invariant FirstLevel(levels[..], 0) == FirstLevel(levels[..], k)
      {
        if levels[k] != [] {
          r := Some(levels[k][0]);
          levels[k] := levels[k][1..];
          assert old(levels[k]) == [r.value] + levels[k];
          return;
        }
        k := k + 1;
      }
      r := None;
    }
  }

  lemma EntriesOnce(run: seq<State>, steps: seq<Step>, q: QueueId)
    requires IsRun(run, steps)
    ensures Distinct(Entries(run[|steps|].waiters, q))
  {
    RunInv(run, steps, |steps|);
  }

  /** Look for the entry of a task, and take it out if there is one. */
  method DropEntry(entries: seq<TaskId>, task: TaskId) returns (rest: seq<TaskId>)
    requires Distinct(entries)
    ensures rest == WithoutEntry(entries, task) && task !in rest
    ensures if task in entries then
              exists i | 0 <= i < |entries| :: entries[i] == task && rest == entries[..i] + entries[i + 1..]
            else rest == entries
  {
    var pos := 0;
    while pos < |entries| && entries[pos] != task
      invariant pos <= |entries| && Position(entries, task) == pos + Position(entries[pos..], task)
      invariant task !in entries[..pos]
    {
      assert entries[pos..][1..] == entries[pos + 1..];
      pos := pos + 1;
    }
    if pos < |entries| {
      return entries[..pos] + entries[pos + 1..];
    }
    return entries;
  }

  class Hart {
    var tasks: map<TaskId, Task>
    const queue: RunQueue
    var current: Option<TaskId>
    var previous: Option<TaskId>
    var mode: Mode
    /** What the interrupt handler in progress is doing. */
    var irq: Option<Activity>
    var waiters: map<QueueId, seq<TaskId>>
    /** How the hart got here. */
    ghost var run: seq<State>
    ghost var steps: seq<Step>

    ghost function S(): State
      reads this, queue, queue.levels
    {
      State(tasks, queue.levels[..], current, previous, mode, irq, waiters)
    }

    /** The hart is at the end of its run. */
    ghost predicate Valid()
      reads this, queue, queue.levels
    {
      queue.Valid() && |run| == |steps| + 1 && IsRun(run, steps) && run[|steps|] == S()
    }

    constructor ()
      ensures fresh(queue) && fresh(queue.levels) && Valid() && Initial(S()) && steps == []
    {
      tasks, current, previous, mode, irq, waiters := map[], None, None, Boot, None, map[];
      queue := new RunQueue();
      run, steps := [State(map[], [[], [], []], None, None, Boot, None, map[])], [];
    }

    /** What holds of the hart at all times, whatever was called in whatever order. */
    lemma Laws()
      requires Valid()
      ensures mode != Panicked
      ensures forall t | t in tasks && tasks[t].state != Zombie :: InOnePlace(S(), t)
      ensures forall t | InQueue(queue.levels[..], t) :: t in tasks && tasks[t].state == Ready && tasks[t].saved
      ensures forall t | t in tasks && tasks[t].state == Blocked ::
                tasks[t].act.Parked? && (t in Entries(waiters, tasks[t].act.queue) || Held(S(), t))
      ensures Enabled(S(), GoesOn(S()))
    {
      hide IsRun, InOnePlace, Enabled, GoesOn, Held;
      var n := |steps|;
      forall t | t in tasks && tasks[t].state != Zombie
        ensures InOnePlace(S(), t)
      {
        UniquePlacement(run, steps, n, t);
      }
      forall t | t in tasks && tasks[t].state == Blocked
        ensures tasks[t].act.Parked? && (t in Entries(waiters, tasks[t].act.queue) || Held(S(), t))
      {
        BlockedIsReachable(run, steps, n, t);
      }
      DispatchIsSafe(run, steps, n);
      NeverStuck(run, steps, n);
    }

    ghost method Record(step: Step, before: State)
      requires queue.Valid() && |run| == |steps| + 1 && IsRun(run, steps) && run[|steps|] == before
      requires Leads(before, step, S())
      modifies `run, `steps
      ensures Valid() && steps == old(steps) + [step] && S() == old(S())
    {
      hide IsRun, Enabled, Take;
      RunGoesOn(run, steps, step);
      run, steps := run + [S()], steps + [step];
    }

    /** A new task, until now known to nobody, becomes ready and is queued. */
    method Admit(task: TaskId)
      requires Valid() && Due(S(), Step.Admit(task))
      modifies `tasks, queue.levels, `run, `steps
      ensures Valid() && Leads(old(S()), Step.Admit(task), S()) && steps == old(steps) + [Step.Admit(task)]
      ensures tasks == old(tasks)[task := Task(Ready, 0, 0, false, false, true, Outside)]
      ensures JoinedAt(old(queue.levels[..]), queue.levels[..], task, 0)
    {
      hide IsRun, Due;
      ghost var s := S();
      DueIsEnabled(run, steps, |steps|, Step.Admit(task));
      tasks := tasks[task := NewTask];
      queue.Push(task, 0);
      Record(Step.Admit(task), s);
    }

    // -- wait queues ---------------------------------------------------------------

    method SetActivity(act: Activity)
      requires queue.Valid() && HasActor(S())
      modifies `irq, `tasks
      ensures S() == WithAct(old(S()), act)
    {
      if irq.Some? {
        irq := Some(act);
      } else {
        tasks := tasks[current.value := tasks[current.value].(act := act)];
      }
    }

    /** `wait`, first section: put the current task on the queue. */
    method WaitEnqueue(q: QueueId)
      requires Valid() && Due(S(), Enqueue(q))
      modifies `waiters, `irq, `tasks, `run, `steps
      ensures Valid() && Leads(old(S()), Enqueue(q), S()) && steps == old(steps) + [Enqueue(q)]
      ensures current.Some? && OnlyQueue(old(waiters), waiters, q, Entries(old(waiters), q) + [current.value])
      ensures NowDoing(old(S()), S(), Queued(q))
    {
      hide IsRun, Due;
      ghost var s := S();
      DueIsEnabled(run, steps, |steps|, Enqueue(q));
      waiters := waiters[q := Entries(waiters, q) + [current.value]];
      SetActivity(Queued(q));
      Record(Enqueue(q), s);
    }

    /** `wait`, last section: an entry that no wakeup has taken is removed. */
    method WaitLeave()
      requires Valid() && Due(S(), LeaveWait)
      modifies `waiters, `irq, `tasks, `run, `steps
      ensures Valid() && Leads(old(S()), LeaveWait, S()) && steps == old(steps) + [LeaveWait]
      ensures current.Some? && NowDoing(old(S()), S(), Outside)
      ensures var q, e := old(Doing(S())).queue, Entries(old(waiters), old(Doing(S())).queue);
              && OnlyQueue(old(waiters), waiters, q, Entries(waiters, q)) && current.value !in Entries(waiters, q)
              && (if current.value in e then
                    exists i | 0 <= i < |e| :: e[i] == current.value && Entries(waiters, q) == e[..i] + e[i + 1..]
                  else Entries(waiters, q) == e)
    {
      hide IsRun, Due;
      ghost var s := S();
      DueIsEnabled(run, steps, |steps|, LeaveWait);
      var task, q := current.value, tasks[current.value].act.queue;
      EntriesOnce(run, steps, q);
      var rest := DropEntry(Entries(waiters, q), task);
      waiters := waiters[q := rest];
      SetActivity(Outside);
      Record(LeaveWait, s);
    }

    /** `wake_one`, first section: pop the head of the queue. */
    method WakeOnePop(q: QueueId)
      requires Valid() && Due(S(), PopOne(q))
      modifies `waiters, `irq, `tasks, `run, `steps
      ensures Valid() && Leads(old(S()), PopOne(q), S()) && steps == old(steps) + [PopOne(q)]
      ensures var e := Entries(old(waiters), q);
              if e == [] then S() == old(S())
              else OnlyQueue(old(waiters), waiters, q, e[1..]) && NowDoing(old(S()), S(), Waking([e[0]]))
    {
      hide IsRun, Due;
      ghost var s := S();
      DueIsEnabled(run, steps, |steps|, PopOne(q));
      var entries := Entries(waiters, q);
      if entries != [] {
        waiters := waiters[q := entries[1..]];
        SetActivity(Waking([entries[0]]));
      }
      Record(PopOne(q), s);
    }

    /** `wake_all`, first section: drain the queue. */
    method WakeAllTake(q: QueueId)
      requires Valid() && Due(S(), PopAll(q))
      modifies `waiters, `irq, `tasks, `run, `steps
      ensures Valid() && Leads(old(S()), PopAll(q), S()) && steps == old(steps) + [PopAll(q)]
      ensures var e := Entries(old(waiters), q);
              && OnlyQueue(old(waiters), waiters, q, [])
              && NowDoing(old(S()), S(), if e == [] then Outside else Waking(e))
    {
      hide IsRun, Due;
      ghost var s := S();
      DueIsEnabled(run, steps, |steps|, PopAll(q));
      var entries := Entries(waiters, q);
      waiters := waiters[q := []];
      SetActivity(WakeRest(entries));
      Record(PopAll(q), s);
    }

    /** `wake`, the section under the task's lock, for the next task to be woken. */
    method WakeMark()
      requires Valid() && Due(S(), WakeNext)
      modifies `irq, `tasks, `run, `steps
      ensures Valid() && Leads(old(S()), WakeNext, S()) && steps == old(steps) + [WakeNext]
      ensures old(Doing(S())).Waking? && old(Doing(S())).todo != []
      ensures var t, rest := old(Doing(S())).todo[0], old(Doing(S())).todo[1..];
              && t in old(tasks) && t in tasks
              && (var was := old(tasks)[t];
                  if was.state == Blocked then
                    var level := if was.level == 0 then 0 else was.level - 1;
                    && tasks[t].state == Ready && tasks[t].level == level && tasks[t].ticks == 0
                    && Doing(S()) == Pushing(t, level, rest)
                  else
                    && tasks[t].state == was.state && tasks[t].wakeupPending
                    && Doing(S()) == if rest == [] then Outside else Waking(rest))
              && forall u | u in old(tasks) && u != t && Some(u) != current :: u in tasks && tasks[u] == old(tasks)[u]
    {
      hide IsRun, Due;
      ghost var s := S();
      DueIsEnabled(run, steps, |steps|, WakeNext);
      var todo := if irq.Some? then irq.value.todo else tasks[current.value].act.todo;
      var t, rest := todo[0], todo[1..];
      var inner := tasks[t];
      if inner.state != Blocked {
        tasks := tasks[t := inner.(wakeupPending := true)];
        SetActivity(WakeRest(rest));
        Record(WakeNext, s);
        return;
      }
      var level := if inner.level == 0 then 0 else inner.level - 1;
      tasks := tasks[t := inner.(state := Ready, level := level, ticks := 0)];
      SetActivity(Pushing(t, level, rest));
      Record(WakeNext, s);
    }

    /** `wake`, the section under the run queue's lock. */
    method WakePush()
      requires Valid() && Due(S(), PushWoken)
      modifies `irq, `tasks, queue.levels, `run, `steps
      ensures Valid() && Leads(old(S()), PushWoken, S()) && steps == old(steps) + [PushWoken]
      ensures var act := old(Doing(S()));
              && act.Pushing? && JoinedAt(old(queue.levels[..]), queue.levels[..], act.target, act.level)
              && NowDoing(old(S()), S(), if act.todo == [] then Outside else Waking(act.todo))
    {
      hide IsRun, Due;
      ghost var s := S();
      DueIsEnabled(run, steps, |steps|, PushWoken);
      var act := if irq.Some? then irq.value else tasks[current.value].act;
      queue.Push(act.target, act.level);
      SetActivity(WakeRest(act.todo));
      Record(PushWoken, s);
    }

    /** `wake_one` with nothing in between: the task at the head of the queue leaves it. If it sleeps it is ready one
        level higher, at the end of that level; if it has not gone to sleep yet it finds the note when it wants to. */
    method WakeOne(q: QueueId)
      requires Valid() && Due(S(), PopOne(q))
      modifies `waiters, `irq, `tasks, queue.levels, `run, `steps
      ensures Valid() && Doing(S()).Outside?
      ensures var e := Entries(old(waiters), q);
              if e == [] then S() == old(S())
              else
                && OnlyQueue(old(waiters), waiters, q, e[1..]) && e[0] in old(tasks) && e[0] in tasks
                && (var was := old(tasks)[e[0]];
                    if was.state == Blocked then
                      var level := if was.level == 0 then 0 else was.level - 1;
                      tasks[e[0]].state == Ready && JoinedAt(old(queue.levels[..]), queue.levels[..], e[0], level)
                    else
                      && tasks[e[0]].state == was.state && tasks[e[0]].wakeupPending
                      && queue.levels[..] == old(queue.levels[..]))
    {
      hide IsRun, Enabled, Take, Leads;
      var entries := Entries(waiters, q);
      if entries != [] { EntriesBelongToWaiters(run, steps, |steps|, q, entries[0]); }
      WakeOnePop(q);
      if entries != [] {
        var asleep := tasks[entries[0]].state == Blocked;
        WakeMark();
        if asleep {
          WakePush();
        }
      }
    }

    // -- leaving the CPU --------------------------------------------------------------

    /** `switch_to_idle` up to the register switch. */
    method SwitchToIdle(state: TaskState, act: Activity)
      requires queue.Valid() && RunsTask(S())
      modifies `tasks, `current, `previous, `mode
      ensures S() == SwitchAway(old(S()), state, act)
      ensures var me := old(tasks[current.value]);
              if state == Blocked && me.wakeupPending then
                HasLeft(old(S()), S(), me.(wakeupPending := false), Ready, act)
              else HasLeft(old(S()), S(), me, state, act)
    {
      var task := current.value;
      var inner := tasks[task];
      if state == Blocked && inner.wakeupPending {
        inner := inner.(wakeupPending := false, state := Ready);
      } else {
        inner := inner.(state := state);
      }
      tasks := tasks[task := inner.(act := act)];
      current := None;
      previous := Some(task);
      mode := Switching;
    }

    method BlockCurrent()
      requires Valid() && Due(S(), Block)
      modifies `tasks, `current, `previous, `mode, `run, `steps
      ensures Valid() && Leads(old(S()), Block, S()) && steps == old(steps) + [Block]
      ensures old(current.Some?) && old(current.value in tasks) && old(Doing(S())).Queued?
      ensures var me, q := old(tasks[current.value]), old(Doing(S())).queue;
              if me.wakeupPending then HasLeft(old(S()), S(), me.(wakeupPending := false), Ready, Parked(q))
              else HasLeft(old(S()), S(), me, Blocked, Parked(q))
    {
      hide IsRun, Due;
      ghost var s := S();
      DueIsEnabled(run, steps, |steps|, Block);
      SwitchToIdle(Blocked, Parked(tasks[current.value].act.queue));
      Record(Block, s);
    }

    method YieldNow()
      requires Valid() && Due(S(), Yield)
      modifies `tasks, `current, `previous, `mode, `run, `steps
      ensures Valid() && Leads(old(S()), Yield, S()) && steps == old(steps) + [Yield]
      ensures old(current.Some?) && old(current.value in tasks)
      ensures HasLeft(old(S()), S(), old(tasks[current.value]), Ready, Outside)
    {
      hide IsRun, Due;
      ghost var s := S();
      DueIsEnabled(run, steps, |steps|, Yield);
      SwitchToIdle(Ready, Outside);
      Record(Yield, s);
    }

    method ExitCurrent()
      requires Valid() && Due(S(), Exit)
      modifies `tasks, `current, `previous, `mode, `run, `steps
      ensures Valid() && Leads(old(S()), Exit, S()) && steps == old(steps) + [Exit]
      ensures old(current.Some?) && old(current.value in tasks)
      ensures HasLeft(old(S()), S(), old(tasks[current.value]), Zombie, Exited)
    {
      hide IsRun, Due;
      ghost var s := S();
      DueIsEnabled(run, steps, |steps|, Exit);
      SwitchToIdle(Zombie, Exited);
      Record(Exit, s);
    }

    method OnTimerTick()
      requires Valid() && Due(S(), Tick)
      modifies `tasks, `run, `steps
      ensures Valid() && Leads(old(S()), Tick, S()) && steps == old(steps) + [Tick]
      ensures current.None? ==> tasks == old(tasks)
      ensures current.Some? ==>
                && current.value in old(tasks)
                && (var was := old(tasks)[current.value];
                    OnlyTask(old(tasks), tasks, current.value,
                             if was.ticks + 1 < 4 then was.(ticks := was.ticks + 1, needsResched := true)
                             else was.(level := if was.level < 2 then was.level + 1 else 2, ticks := 0,
                                       needsResched := true)))
    {
      hide IsRun, Due;
      ghost var s := S();
      DueIsEnabled(run, steps, |steps|, Tick);
      if current.None? {
        Record(Tick, s);
        return;
      }
      var inner := tasks[current.value];
      inner := inner.(ticks := inner.ticks + 1);
      if inner.ticks >= QUANTA_PER_LEVEL {
        inner := inner.(level := Clamp(inner.level + 1), ticks := 0);
      }
      tasks := tasks[current.value := inner.(needsResched := true)];
      Record(Tick, s);
    }

    /** At the end of a trap: switch away if a tick has marked the task. */
    method ReschedIfNeeded()
      requires Valid() && irq.None?
      modifies `tasks, `current, `previous, `mode, `run, `steps
      ensures Valid()
      ensures if old(Due(S(), Preempt)) then Leads(old(S()), Preempt, S()) && steps == old(steps) + [Preempt]
              else S() == old(S()) && steps == old(steps)
      ensures if old(current.Some? && current.value in tasks && tasks[current.value].needsResched) then
                var me := old(tasks[current.value]);
                HasLeft(old(S()), S(), me.(needsResched := false), Ready, me.act)
              else S() == old(S())
    {
      hide IsRun;
      ghost var s := S();
      if current.None? {
        return;
      }
      CurrentRuns(run, steps);
      var task := current.value;
      if !tasks[task].needsResched {
        return;
      }
      DueIsEnabled(run, steps, |steps|, Preempt);
      tasks := tasks[task := tasks[task].(needsResched := false)];
      SwitchToIdle(Ready, tasks[task].act);
      Record(Preempt, s);
    }

    // -- interrupts ------------------------------------------------------------------------

    method TrapEnter()
      requires Valid() && Due(S(), IrqEnter)
      modifies `irq, `run, `steps
      ensures Valid() && Leads(old(S()), IrqEnter, S()) && steps == old(steps) + [IrqEnter]
      ensures irq == Some(Outside)
    {
      hide IsRun, Due;
      ghost var s := S();
      DueIsEnabled(run, steps, |steps|, IrqEnter);
      irq := Some(Outside);
      Record(IrqEnter, s);
    }

    method TrapExit()
      requires Valid() && Due(S(), IrqExit)
      modifies `irq, `run, `steps
      ensures Valid() && Leads(old(S()), IrqExit, S()) && steps == old(steps) + [IrqExit]
      ensures irq.None?
    {
      hide IsRun, Due;
      ghost var s := S();
      DueIsEnabled(run, steps, |steps|, IrqExit);
      irq := None;
      Record(IrqExit, s);
    }

    // -- the idle loop ------------------------------------------------------------------

    /** `run`, entered from the boot code. */
    method RunStart()
      requires Valid() && Due(S(), StartRun)
      modifies `mode, `run, `steps
      ensures Valid() && Leads(old(S()), StartRun, S()) && steps == old(steps) + [StartRun]
      ensures mode == IdleTop
    {
      hide IsRun, Due;
      ghost var s := S();
      DueIsEnabled(run, steps, |steps|, StartRun);
      mode := IdleTop;
      Record(StartRun, s);
    }

    /** `run`, back from waiting for an interrupt. */
    method RunWaitOver()
      requires Valid() && Due(S(), WaitOver)
      modifies `mode, `run, `steps
      ensures Valid() && Leads(old(S()), WaitOver, S()) && steps == old(steps) + [WaitOver]
      ensures mode == IdleTop
    {
      hide IsRun, Due;
      ghost var s := S();
      DueIsEnabled(run, steps, |steps|, WaitOver);
      mode := IdleTop;
      Record(WaitOver, s);
    }

    /** The register switch: the outgoing task's context is saved and the idle context runs. */
    method FinishSwitch()
      requires Valid() && Due(S(), SwitchContext)
      modifies `tasks, `mode, `run, `steps
      ensures Valid() && Leads(old(S()), SwitchContext, S()) && steps == old(steps) + [SwitchContext]
      ensures mode == IdleTop && previous.Some? && previous.value in old(tasks)
      ensures OnlyTask(old(tasks), tasks, previous.value, old(tasks)[previous.value].(saved := true))
    {
      hide IsRun, Due;
      ghost var s := S();
      DueIsEnabled(run, steps, |steps|, SwitchContext);
      tasks := tasks[previous.value := tasks[previous.value].(saved := true)];
      mode := IdleTop;
      Record(SwitchContext, s);
    }

    /** `run`, first half: the task that ran last is queued again or let go. */
    method RunRequeue()
      requires Valid() && Due(S(), Requeue)
      modifies `previous, `mode, queue.levels, `run, `steps
      ensures Valid() && Leads(old(S()), Requeue, S()) && steps == old(steps) + [Requeue]
      ensures mode == IdlePick && previous.None?
      ensures var prev := old(previous);
              if prev.Some? && prev.value in tasks && tasks[prev.value].state == Ready then
                JoinedAt(old(queue.levels[..]), queue.levels[..], prev.value, tasks[prev.value].level)
              else queue.levels[..] == old(queue.levels[..])
    {
      hide IsRun, Due;
      ghost var s := S();
      PreviousStopped(run, steps);
      DueIsEnabled(run, steps, |steps|, Requeue);
      mode := IdlePick;
      if previous.Some? {
        var prev := previous.value;
        match tasks[prev].state {
          case Ready =>
            previous := None;
            queue.Push(prev, tasks[prev].level);
          case Blocked => previous := None;
          case Zombie => previous := None;
          case Running => assert false;
        }
      }
      Record(Requeue, s);
    }

    /** `run`, second half: switch to the next task, or wait for an interrupt. */
    method RunDispatch()
      requires Valid() && Due(S(), Dispatch)
      modifies `tasks, `current, `mode, queue.levels, `run, `steps
      ensures Valid() && Leads(old(S()), Dispatch, S()) && steps == old(steps) + [Dispatch]
      ensures mode == InTask || (mode == IdleWait && forall k | 0 <= k < PRIORITY_LEVELS :: queue.levels[k] == [])
      ensures mode == InTask ==>
                && current.Some? && current.value in old(tasks)
                && (var task := old(tasks)[current.value];
                    && task.state == Ready && task.saved && !task.act.Exited?
                    && OnlyTask(old(tasks), tasks, current.value,
                                task.(state := Running, needsResched := false, saved := false)))
                && (exists k | 0 <= k < PRIORITY_LEVELS ::
                      && (forall j | 0 <= j < k :: old(queue.levels[j]) == [])
                      && old(queue.levels[k]) == [current.value] + queue.levels[k]
                      && queue.levels[..] == old(queue.levels[..])[k := queue.levels[k]])
      ensures mode == IdleWait ==> tasks == old(tasks) && queue.levels[..] == old(queue.levels[..])
    {
      hide IsRun, Due;
      ghost var s := S();
      HeadsSaved(run, steps);
      DueIsEnabled(run, steps, |steps|, Dispatch);
      var next := queue.Pop();
      if next.None? {
        mode := IdleWait;
        Record(Dispatch, s);
        return;
      }
      var task := next.value;
      tasks := tasks[task := tasks[task].(state := Running, needsResched := false, saved := false)];
      current := Some(task);
      mode := InTask;
      Record(Dispatch, s);
    }
  }
}
