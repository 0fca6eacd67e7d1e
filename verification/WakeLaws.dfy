/** What the operations on wait queues come to over a whole run: every task that a call of `wake_one` or `wake_all`
    found on its queue is woken by that call before it returns, and a task that exits is gone for good. */
module WakeLaws {
  import opened Prelude
  import opened SchedulerSpec
  import opened SchedulerLaws

  // ---- one step ----------------------------------------------------------------------------------------------

  /** In the middle of waking tasks. */
  predicate InWake(act: Activity) {
    act.Waking? || act.Pushing?
  }

  /** Nobody but the waker itself moves it on, and only by the two sections of `wake`. */
  lemma WakerStays(s: State, step: Step, a: Actor)
    requires Inv(s) && Enabled(s, step) && InWake(ActOf(s, a))
    ensures ActOf(Take(s, step), a) == ActOf(s, a)
            || (HasActor(s) && ActorOf(s) == a && (step.WakeNext? || step.PushWoken?))
  {
    hide Inv, QueuePush, Entries, WithoutEntry;
    CurrentGoesOn(s);
    if step.WakeNext? || step.PushWoken? || step.PopOne? || step.PopAll? || step.Enqueue? || step.LeaveWait? {
      ActStays(s, step, a);
    } else if step.Block? || step.Yield? || step.Exit? || step.Preempt? {
      SwitchStays(s, step, a);
    }
  }

  /** The current task, if it runs, is no exited one. */
  lemma CurrentGoesOn(s: State)
    requires Inv(s)
    ensures s.current.Some? ==> s.current.value in s.tasks && !s.tasks[s.current.value].act.Exited?
  {
    hide QueueOk, ActorsOk, WaitersOk, NotLost;
    if s.current.Some? { assert Placed(s, s.current.value); }
  }

  lemma ActStays(s: State, step: Step, a: Actor)
    requires Enabled(s, step) && InWake(ActOf(s, a))
    requires step.WakeNext? || step.PushWoken? || step.PopOne? || step.PopAll? || step.Enqueue? || step.LeaveWait?
    ensures ActOf(Take(s, step), a) == ActOf(s, a)
            || (HasActor(s) && ActorOf(s) == a && (step.WakeNext? || step.PushWoken?))
  {
    hide QueuePush, Entries, WithoutEntry;
  }

  lemma SwitchStays(s: State, step: Step, a: Actor)
    requires Enabled(s, step) && InWake(ActOf(s, a))
    requires step.Block? || step.Yield? || step.Exit? || step.Preempt?
    ensures ActOf(Take(s, step), a) == ActOf(s, a)
  {
  }

  /** `wake` on the next task: a sleeping task is made ready and is pushed next, any other gets a note. */
  lemma WakesNext(s: State)
    requires Enabled(s, WakeNext)
    ensures var a, s' := ActorOf(s), Take(s, WakeNext);
            var t, rest := ActOf(s, a).todo[0], ActOf(s, a).todo[1..];
            && t in s'.tasks && Todo(ActOf(s', a)) == rest
            && (s.tasks[t].state == Blocked ==> s'.tasks[t].state == Ready && Pushes(s', a, t))
            && (s.tasks[t].state != Blocked ==> s'.tasks[t].wakeupPending && !ActOf(s', a).Pushing?)
  {
  }

  /** The task made ready is on the run queue, and the waker goes on with the rest. */
  lemma PushesTarget(s: State)
    requires Enabled(s, PushWoken)
    ensures var a, s' := ActorOf(s), Take(s, PushWoken);
            && InQueue(s'.levels, ActOf(s, a).target) && Todo(ActOf(s', a)) == Todo(ActOf(s, a))
            && !ActOf(s', a).Pushing?
  {
    var act := ActOf(s, ActorOf(s));
    QueuePushed(s.levels, act.target, act.level);
  }

  // ---- a call, whatever happens in between -------------------------------------------------------------------

  /** Step `k` is the call of `wake` on `t` by `a`. */
  ghost predicate WakesAt(run: seq<State>, steps: seq<Step>, k: nat, a: Actor, t: TaskId)
    requires |run| == |steps| + 1
  {
    && k < |steps| && steps[k] == WakeNext && HasActor(run[k]) && ActorOf(run[k]) == a
    && ActOf(run[k], a).Waking? && ActOf(run[k], a).todo != [] && ActOf(run[k], a).todo[0] == t && t in run[k].tasks
    && t in run[k + 1].tasks
    && (if run[k].tasks[t].state == Blocked then run[k + 1].tasks[t].state == Ready
        else run[k + 1].tasks[t].wakeupPending)
    && (InsideWait(run[k].tasks[t].act) ==> Woken(run[k + 1], t))
  }

  /** Step `k` puts `t` on the run queue. */
  ghost predicate QueuesAt(run: seq<State>, steps: seq<Step>, k: nat, t: TaskId)
    requires |run| == |steps| + 1
  {
    k < |steps| && steps[k] == PushWoken && InQueue(run[k + 1].levels, t)
  }

  /** Between moments `i` and `j`, `a` called `wake` on `t`, and if `t` slept it was put on the run queue after that. */
  ghost predicate Delivered(run: seq<State>, steps: seq<Step>, i: nat, j: nat, a: Actor, t: TaskId)
    requires |run| == |steps| + 1
  {
    exists k: nat :: i <= k < j && WakesAt(run, steps, k, a, t)
                     && (k < |steps| && t in run[k].tasks && run[k].tasks[t].state == Blocked ==>
                         exists m: nat :: k < m < j && QueuesAt(run, steps, m, t))
  }

  lemma {:induction false} PusherPushes(run: seq<State>, steps: seq<Step>, i: nat, j: nat, a: Actor, t: TaskId)
    requires IsRun(run, steps) && i <= j < |run| && Pushes(run[i], a, t) && !InWake(ActOf(run[j], a))
    ensures exists m: nat :: i <= m < j && QueuesAt(run, steps, m, t)
    decreases j - i
  {
    hide Take, Enabled, Inv, InQueue;
    RunInv(run, steps, i);
    assert StepAt(run, steps, i);
    WakerStays(run[i], steps[i], a);
    if ActOf(run[i + 1], a) == ActOf(run[i], a) {
      PusherPushes(run, steps, i + 1, j, a, t);
    } else {
      OwnStep(run[i], steps[i], a);
      PushesTarget(run[i]);
      assert QueuesAt(run, steps, i, t);
    }
  }

  lemma OwnStep(s: State, step: Step, a: Actor)
    requires Enabled(s, step) && HasActor(s) && ActorOf(s) == a && (step.WakeNext? || step.PushWoken?)
    ensures step.WakeNext? <==> ActOf(s, a).Waking?
    ensures step.PushWoken? <==> ActOf(s, a).Pushing?
    ensures step.WakeNext? ==> ActOf(s, a).todo != [] && ActOf(s, a).todo[0] in s.tasks
  {
  }

  /** Whatever a waker has taken off a queue it wakes before it is done. */
  lemma {:induction false} WakerDelivers(run: seq<State>, steps: seq<Step>, i: nat, j: nat, a: Actor, t: TaskId)
    requires IsRun(run, steps) && i <= j < |run| && Holds(run[i], a, t) && !InWake(ActOf(run[j], a))
    ensures Delivered(run, steps, i, j, a, t)
    decreases j - i
  {
    hide Take, Enabled, Inv, InQueue, Woken, InsideWait;
    RunInv(run, steps, i);
    assert StepAt(run, steps, i);
    WakerStays(run[i], steps[i], a);
    if ActOf(run[i + 1], a) == ActOf(run[i], a) {
      WakerDelivers(run, steps, i + 1, j, a, t);
    } else {
      OwnStep(run[i], steps[i], a);
      if steps[i] == PushWoken {
        PushesTarget(run[i]);
        WakerDelivers(run, steps, i + 1, j, a, t);
      } else {
        WakesNext(run[i]);
        if ActOf(run[i], a).todo[0] == t {
          DeliveredNow(run, steps, i, j, a, t);
        } else {
          WakerDelivers(run, steps, i + 1, j, a, t);
        }
      }
    }
  }

  lemma DeliveredNow(run: seq<State>, steps: seq<Step>, i: nat, j: nat, a: Actor, t: TaskId)
    requires IsRun(run, steps) && i < j < |run| && StepAt(run, steps, i) && Inv(run[i]) && steps[i] == WakeNext
    requires HasActor(run[i]) && ActorOf(run[i]) == a && ActOf(run[i], a).Waking? && ActOf(run[i], a).todo != []
    requires ActOf(run[i], a).todo[0] == t && t in run[i].tasks && !InWake(ActOf(run[j], a))
    ensures Delivered(run, steps, i, j, a, t)
  {
    hide Take, Enabled, Inv, InQueue, Woken, InsideWait;
    WakesNext(run[i]);
    if InsideWait(run[i].tasks[t].act) { WakeDelivers(run[i], t); }
    assert WakesAt(run, steps, i, a, t);
    if run[i].tasks[t].state == Blocked { PusherPushes(run, steps, i + 1, j, a, t); }
  }

  /** `wake_one` takes the task that has waited longest off the queue, and by the time the call is over it has woken
      that task: a sleeping one is ready and was put on the run queue, one that has not gone to sleep yet will not. */
  lemma WakeOneDelivers(run: seq<State>, steps: seq<Step>, i: nat, j: nat, q: QueueId)
    requires IsRun(run, steps) && i < j < |run| && steps[i] == PopOne(q) && Entries(run[i].waiters, q) != []
    requires HasActor(run[i]) && !InWake(ActOf(run[j], ActorOf(run[i])))
    ensures Entries(run[i + 1].waiters, q) == Entries(run[i].waiters, q)[1..]
    ensures Delivered(run, steps, i + 1, j, ActorOf(run[i]), Entries(run[i].waiters, q)[0])
  {
    assert StepAt(run, steps, i);
    hide Delivered, IsRun;
    var a, t := ActorOf(run[i]), Entries(run[i].waiters, q)[0];
    assert ActOf(run[i + 1], a) == Waking([t]);
    WakerDelivers(run, steps, i + 1, j, a, t);
  }

  /** `wake_all` empties the queue, and by the time the call is over it has woken every task that was on it. */
  lemma WakeAllDelivers(run: seq<State>, steps: seq<Step>, i: nat, j: nat, q: QueueId, t: TaskId)
    requires IsRun(run, steps) && i < j < |run| && steps[i] == PopAll(q) && t in Entries(run[i].waiters, q)
    requires HasActor(run[i]) && !InWake(ActOf(run[j], ActorOf(run[i])))
    ensures Entries(run[i + 1].waiters, q) == []
    ensures Delivered(run, steps, i + 1, j, ActorOf(run[i]), t)
  {
    assert StepAt(run, steps, i);
    hide Delivered, IsRun;
    var a := ActorOf(run[i]);
    assert ActOf(run[i + 1], a) == Waking(Entries(run[i].waiters, q));
    WakerDelivers(run, steps, i + 1, j, a, t);
  }

  // ---- exits ---------------------------------------------------------------------------------------------------

  /** `t` is over: it neither runs nor can be dispatched. */
  ghost predicate Gone(s: State, t: TaskId) {
    && t in s.tasks && s.tasks[t].state == Zombie && s.tasks[t].act == Exited
    && s.current != Some(t) && !InQueue(s.levels, t)
  }

  /** A task that exits never runs again, in any continuation of the run. */
  lemma {:induction false} ExitIsFinal(run: seq<State>, steps: seq<Step>, i: nat, j: nat)
    requires IsRun(run, steps) && i < j < |run| && steps[i] == Exit && run[i].current.Some?
    ensures Gone(run[j], run[i].current.value)
    decreases j
  {
    hide Inv;
    var t := run[i].current.value;
    assert StepAt(run, steps, j - 1);
    RunInv(run, steps, j - 1);
    RunInv(run, steps, j);
    if j == i + 1 {
      hide IsRun;
      assert run[j].tasks[t].state == Zombie && run[j].tasks[t].act == Exited;
    } else {
      ExitIsFinal(run, steps, i, j - 1);
      hide IsRun;
      ZombieStays(run[j - 1], steps[j - 1], t);
    }
    ZombieGone(run[j], t);
  }

  lemma ZombieStays(s: State, step: Step, t: TaskId)
    requires Inv(s) && Enabled(s, step) && Gone(s, t)
    ensures var s' := Take(s, step); t in s'.tasks && s'.tasks[t].state == Zombie && s'.tasks[t].act == Exited
  {
    hide QueuePush, Entries, WithoutEntry, QueueOk, ActorsOk, WaitersOk, NotLost, Placed;
    if step == Dispatch {
      var k := FirstLevel(s.levels, 0);
      assert k < PRIORITY_LEVELS ==> s.levels[k][0] in s.levels[k];
    }
  }

  lemma ZombieGone(s: State, t: TaskId)
    requires Inv(s) && t in s.tasks && s.tasks[t].state == Zombie && s.tasks[t].act == Exited
    ensures Gone(s, t)
  {
    assert Placed(s, t);
  }

  // ---- the order of dispatch -----------------------------------------------------------------------------------

  predicate Before(list: seq<TaskId>, t: TaskId, u: TaskId) {
    exists i, j :: 0 <= i < j < |list| && list[i] == t && list[j] == u
  }

  lemma BeforeTail(list: seq<TaskId>, more: seq<TaskId>, t: TaskId, u: TaskId)
    requires Before(list, t, u)
    ensures Before(list + more, t, u) && list != [] && (list[0] != t ==> Before(list[1..], t, u))
  {
    var i, j :| 0 <= i < j < |list| && list[i] == t && list[j] == u;
    assert (list + more)[i] == t && (list + more)[j] == u;
    if list[0] != t { assert list[1..][i - 1] == t && list[1..][j - 1] == u; }
  }

  /** What a step does to one level: nothing, one more task at its end, or its first task is dispatched. */
  lemma LevelAfter(s: State, step: Step, k: nat) returns (x: TaskId)
    requires Enabled(s, step) && k < PRIORITY_LEVELS
    ensures var s' := Take(s, step);
            && |s'.levels| == PRIORITY_LEVELS
            && (|| s'.levels[k] == s.levels[k] || s'.levels[k] == s.levels[k] + [x]
                || (&& step == Dispatch && s.levels[k] != [] && s'.current == Some(s.levels[k][0])
                    && s'.levels[k] == s.levels[k][1..]))
  {
    hide Entries, WithoutEntry, TimerTick;
    x := 0;
    match step
    case Admit(t) => x := t;
    case PushWoken => x := ActOf(s, ActorOf(s)).target;
    case Requeue => if s.previous.Some? { x := s.previous.value; }
    case _ =>
  }

  /** No step puts a task before one that was queued earlier, on the same level. */
  lemma BeforeStays(s: State, step: Step, k: nat, t: TaskId, u: TaskId)
    requires Enabled(s, step) && k < PRIORITY_LEVELS && Before(s.levels[k], t, u)
    ensures var s' := Take(s, step);
            && |s'.levels| == PRIORITY_LEVELS
            && (Before(s'.levels[k], t, u) || (step == Dispatch && s'.current == Some(t)))
  {
    assert |s.levels| == PRIORITY_LEVELS;
    hide Before, Take, Enabled;
    var x := LevelAfter(s, step, k);
    BeforeTail(s.levels[k], [x], t, u);
  }

  /** Step `m` dispatches `t`. */
  ghost predicate DispatchedAt(run: seq<State>, steps: seq<Step>, m: nat, t: TaskId)
    requires |run| == |steps| + 1
  {
    m < |steps| && steps[m] == Dispatch && run[m + 1].current == Some(t)
  }

  /** Of two tasks on one level, the one queued first is dispatched first, in every run. */
  lemma {:induction false} FirstQueuedRunsFirst(run: seq<State>, steps: seq<Step>, i: nat, j: nat, k: nat, t: TaskId,
                                                u: TaskId)
    requires IsRun(run, steps) && i <= j < |steps| && k < PRIORITY_LEVELS && |run[i].levels| == PRIORITY_LEVELS
    requires Before(run[i].levels[k], t, u) && DispatchedAt(run, steps, j, u) && t != u
    ensures exists m: nat :: i <= m < j && DispatchedAt(run, steps, m, t)
    decreases j - i
  {
    hide Take, Enabled, Inv, Before;
    RunInv(run, steps, i);
    assert StepAt(run, steps, i);
    BeforeStays(run[i], steps[i], k, t, u);
    if i == j {
      NotBehind(run[i], k, t, u);
    } else if Before(run[i + 1].levels[k], t, u) {
      FirstQueuedRunsFirst(run, steps, i + 1, j, k, t, u);
    } else {
      assert DispatchedAt(run, steps, i, t);
    }
  }

  lemma NotBehind(s: State, k: nat, t: TaskId, u: TaskId)
    requires Inv(s) && Enabled(s, Dispatch) && k < PRIORITY_LEVELS && Before(s.levels[k], t, u) && t != u
    ensures Take(s, Dispatch).current != Some(u)
  {
    hide ActorsOk, WaitersOk, NotLost, Placed;
    var i, j :| 0 <= i < j < |s.levels[k]| && s.levels[k][i] == t && s.levels[k][j] == u;
    assert u in s.levels[k] && Distinct(s.levels[k]);
    var d := FirstLevel(s.levels, 0);
    assert d < PRIORITY_LEVELS ==> s.levels[d][0] in s.levels[d];
  }
}
