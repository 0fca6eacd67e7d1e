/** What every run of the scheduler keeps: each task is in exactly one place, no exited or running task is
    dispatched, and no wakeup sent to a waiting task is lost. */
module SchedulerLaws {
  import opened Prelude
  import opened SchedulerSpec

  // ---- the invariant ----------------------------------------------------------------

  /** `a` has made `t` Ready and is about to push it on the run queue. */
  predicate Pushes(s: State, a: Actor, t: TaskId) {
    ActOf(s, a).Pushing? && ActOf(s, a).target == t
  }

  /** `a` has popped an entry of `t` and has yet to call `wake` on it. */
  predicate Holds(s: State, a: Actor, t: TaskId) {
    t in Todo(ActOf(s, a))
  }

  ghost predicate Pushed(s: State, t: TaskId) {
    exists a :: Pushes(s, a, t)
  }

  ghost predicate Held(s: State, t: TaskId) {
    exists a :: Holds(s, a, t)
  }

  predicate ModeOk(s: State) {
    && |s.levels| == PRIORITY_LEVELS
    && s.mode != Panicked
    && (s.mode == InTask <==> s.current.Some?)
    && (s.previous.Some? ==> s.mode == Switching || s.mode == IdleTop)
    && (s.mode == Switching ==> s.previous.Some?)
    && (s.irq.Some? ==> s.mode == InTask || s.mode == IdleWait)
    && (s.irq.Some? ==> s.irq.value.Outside? || s.irq.value.Waking? || s.irq.value.Pushing?)
    && (s.current.Some? ==> s.current.value in s.tasks)
    && (s.previous.Some? ==> s.previous.value in s.tasks)
  }

  ghost predicate QueueOk(s: State) {
    && (forall k | 0 <= k < |s.levels| :: Distinct(s.levels[k]))
    && (forall k, l, t | 0 <= k < |s.levels| && 0 <= l < |s.levels| && t in s.levels[k] && t in s.levels[l] :: k == l)
    && (forall k, t | 0 <= k < |s.levels| && t in s.levels[k] :: t in s.tasks)
  }

  ghost predicate ActorsOk(s: State) {
    && (forall a, t | Holds(s, a, t) :: t in s.tasks)
    && (forall a, t | Pushes(s, a, t) ::
          t in s.tasks && s.tasks[t].state == Ready && !InQueue(s.levels, t) && s.previous != Some(t))
    && (forall a, b, t | Pushes(s, a, t) && Pushes(s, b, t) :: a == b)
    && (forall a | ActOf(s, a).Waking? :: ActOf(s, a).todo != [])
  }

  ghost predicate WaitersOk(s: State) {
    && (forall q :: Distinct(Entries(s.waiters, q)))
    && (forall q, t | t in Entries(s.waiters, q) ::
        t in s.tasks && (s.tasks[t].act == Queued(q) || s.tasks[t].act == Parked(q)))
  }

  /** Where a task is, as a function of its state. */
  ghost predicate Placed(s: State, t: TaskId)
    requires t in s.tasks
  {
    var task := s.tasks[t];
    && (task.state == Running <==> s.current == Some(t))
    && (InQueue(s.levels, t) ==> task.state == Ready && s.previous != Some(t))
    && (task.state == Ready ==> InQueue(s.levels, t) || s.previous == Some(t) || Pushed(s, t))
    && (task.saved <==> task.state != Running && !(s.mode == Switching && s.previous == Some(t)))
    && (task.act.Exited? <==> task.state == Zombie)
    && task.level < PRIORITY_LEVELS
  }

  /** A task inside `wait` still has its entry, or a waker holds it, or the wakeup is on record. */
  ghost predicate NotLost(s: State, t: TaskId)
    requires t in s.tasks
  {
    var task := s.tasks[t];
    && (task.state == Blocked ==> task.act.Parked? && (t in Entries(s.waiters, task.act.queue) || Held(s, t)))
    && (task.act.Queued? ==> task.state == Running || task.state == Ready)
    && (task.act.Queued? ==> t in Entries(s.waiters, task.act.queue) || Held(s, t) || task.wakeupPending)
  }

  ghost predicate Inv(s: State) {
    && ModeOk(s) && QueueOk(s) && ActorsOk(s) && WaitersOk(s)
    && forall t | t in s.tasks :: Placed(s, t) && NotLost(s, t)
  }

  // ---- small facts -----------------------------------------------------------------------

  lemma QueuePushed(levels: seq<seq<TaskId>>, t: TaskId, level: nat)
    requires |levels| == PRIORITY_LEVELS
    ensures forall u :: InQueue(QueuePush(levels, t, level), u) <==> u == t || InQueue(levels, u)
  {
    var r, c := QueuePush(levels, t, level), Clamp(level);
    assert r[c] == levels[c] + [t];
    forall u ensures InQueue(r, u) <==> u == t || InQueue(levels, u) {
      if u == t { assert u in r[c]; }
      if k :| 0 <= k < |levels| && u in levels[k] { assert u in r[k]; }
      if k :| 0 <= k < |r| && u in r[k] { assert k != c ==> r[k] == levels[k]; }
    }
  }

  lemma WithoutEntryFacts(entries: seq<TaskId>, t: TaskId)
    requires Distinct(entries)
    ensures Distinct(WithoutEntry(entries, t))
    ensures forall u :: u in WithoutEntry(entries, t) <==> u in entries && u != t
  {
    var i, r := Position(entries, t), WithoutEntry(entries, t);
    forall u ensures u in r <==> u in entries && u != t {
      if u in entries && u != t {
        var j :| 0 <= j < |entries| && entries[j] == u;
        assert i < |entries| ==> r[if j < i then j else j - 1] == u;
      }
    }
  }

  /** Two activities that are the same waker, or no wakers at all. */
  predicate SameWaker(x: Activity, y: Activity) {
    x == y || (!x.Waking? && !x.Pushing? && !y.Waking? && !y.Pushing?)
  }

  lemma SameWakers(s: State, s': State)
    requires forall a :: SameWaker(ActOf(s, a), ActOf(s', a))
    ensures forall a, t :: Pushes(s', a, t) <==> Pushes(s, a, t)
    ensures forall a, t :: Holds(s', a, t) <==> Holds(s, a, t)
    ensures forall t :: Pushed(s', t) <==> Pushed(s, t)
    ensures forall t :: Held(s', t) <==> Held(s, t)
  {
    forall a, t ensures (Pushes(s', a, t) <==> Pushes(s, a, t)) && (Holds(s', a, t) <==> Holds(s, a, t)) {
      assert SameWaker(ActOf(s, a), ActOf(s', a));
    }
    forall t ensures (Pushed(s', t) <==> Pushed(s, t)) && (Held(s', t) <==> Held(s, t)) {
      if a :| Pushes(s, a, t) { assert Pushes(s', a, t); }
      if a :| Pushes(s', a, t) { assert Pushes(s, a, t); }
      if a :| Holds(s, a, t) { assert Holds(s', a, t); }
      if a :| Holds(s', a, t) { assert Holds(s, a, t); }
    }
  }

  lemma PushQueueOk(s: State, s': State, t: TaskId, level: nat)
    requires QueueOk(s) && |s.levels| == PRIORITY_LEVELS && !InQueue(s.levels, t)
    requires s'.levels == QueuePush(s.levels, t, level) && s.tasks.Keys <= s'.tasks.Keys && t in s'.tasks
    ensures QueueOk(s')
    ensures forall u :: InQueue(s'.levels, u) <==> u == t || InQueue(s.levels, u)
  {
    QueuePushed(s.levels, t, level);
    var c := Clamp(level);
    assert s'.levels[c] == s.levels[c] + [t];
    assert forall k | 0 <= k < |s.levels| :: t !in s.levels[k];
  }

  lemma PopQueueOk(s: State, s': State, k: nat)
    requires QueueOk(s) && k < |s.levels| && s.levels[k] != []
    requires s'.levels == s.levels[k := s.levels[k][1..]] && s.tasks.Keys <= s'.tasks.Keys
    ensures QueueOk(s')
    ensures InQueue(s.levels, s.levels[k][0])
    ensures forall u :: InQueue(s'.levels, u) <==> u != s.levels[k][0] && InQueue(s.levels, u)
  {
    var t := s.levels[k][0];
    assert t in s.levels[k] && t !in s.levels[k][1..];
    forall u ensures InQueue(s'.levels, u) <==> u != t && InQueue(s.levels, u) {
      if l :| 0 <= l < |s.levels| && u in s.levels[l] && u != t { assert u in s'.levels[l]; }
      if l :| 0 <= l < |s'.levels| && u in s'.levels[l] { assert u in s.levels[l]; }
    }
  }

  // Every step below changes one or two components. The framing lemmas say what the others need.

  /** An entry stays good while its task moves from `x` to `y`. */
  predicate KeepsEntry(x: Activity, y: Activity) {
    y == x || (x.Queued? && y == Parked(x.queue)) || (!x.Queued? && !x.Parked?)
  }

  lemma FrameEntries(s: State, s': State)
    requires WaitersOk(s) && s'.waiters == s.waiters && s.tasks.Keys <= s'.tasks.Keys
    requires forall t | t in s.tasks :: KeepsEntry(s.tasks[t].act, s'.tasks[t].act)
    ensures WaitersOk(s')
  {
    hide Distinct;
  }

  lemma FrameActors(s: State, s': State)
    requires ActorsOk(s) && s.tasks.Keys <= s'.tasks.Keys
    requires forall a :: SameWaker(ActOf(s, a), ActOf(s', a))
    requires forall t | Pushed(s, t) && t in s.tasks ::
               s'.tasks[t].state == Ready && !InQueue(s'.levels, t) && s'.previous != Some(t)
    ensures ActorsOk(s')
  {
    hide InQueue;
    SameWakers(s, s');
    forall a, t | Pushes(s', a, t)
      ensures t in s'.tasks && s'.tasks[t].state == Ready && !InQueue(s'.levels, t) && s'.previous != Some(t)
    {
      assert Pushes(s, a, t);
      assert Pushed(s, t);
    }
    forall a | ActOf(s', a).Waking? ensures ActOf(s', a).todo != [] {
      assert SameWaker(ActOf(s, a), ActOf(s', a));
    }
  }

  lemma PushedFacts(s: State)
    requires ActorsOk(s)
    ensures forall t | Pushed(s, t) ::
              t in s.tasks && s.tasks[t].state == Ready && !InQueue(s.levels, t) && s.previous != Some(t)
  {
    hide InQueue;
  }

  predicate IsWaker(act: Activity) {
    act.Outside? || act.Waking? || act.Pushing?
  }

  /** A task whose own state a step leaves alone (it may be the waker, or the one being pushed). */
  lemma BystanderKeeps(s: State, s': State, u: TaskId)
    requires u in s.tasks && u in s'.tasks && Placed(s, u) && NotLost(s, u)
    requires s'.current == Some(u) <==> s.current == Some(u)
    requires s'.previous == Some(u) <==> s.previous == Some(u)
    requires s'.mode == Switching && s'.previous == Some(u) <==> s.mode == Switching && s.previous == Some(u)
    requires InQueue(s.levels, u) ==> InQueue(s'.levels, u)
    requires InQueue(s'.levels, u) ==> InQueue(s.levels, u) || (s.tasks[u].state == Ready && s.previous != Some(u))
    requires Pushed(s, u) ==> Pushed(s', u) || InQueue(s'.levels, u)
    requires var x, y := s.tasks[u], s'.tasks[u];
             && y.state == x.state && y.level == x.level && y.saved == x.saved
             && (x.wakeupPending ==> y.wakeupPending)
             && (y.act == x.act || (IsWaker(x.act) && IsWaker(y.act)))
    requires Held(s, u) ==> Held(s', u) || (s'.tasks[u].wakeupPending && s.tasks[u].state != Blocked)
    requires forall q :: u in Entries(s.waiters, q) ==> u in Entries(s'.waiters, q) || Held(s', u)
    ensures Placed(s', u) && NotLost(s', u)
  {
    hide Held, Pushed, InQueue, Entries;
  }

  /** The task a step is about: the new placement, from the facts that decide it. */
  lemma SubjectKeeps(s: State, t: TaskId)
    requires t in s.tasks
    requires var task := s.tasks[t];
             && (task.state == Running <==> s.current == Some(t))
             && (InQueue(s.levels, t) ==> task.state == Ready && s.previous != Some(t))
             && (task.state == Ready ==> InQueue(s.levels, t) || s.previous == Some(t) || Pushed(s, t))
             && (task.saved <==> task.state != Running && !(s.mode == Switching && s.previous == Some(t)))
             && (task.act.Exited? <==> task.state == Zombie)
             && task.level < PRIORITY_LEVELS
             && (task.state == Blocked ==> task.act.Parked? && (t in Entries(s.waiters, task.act.queue) || Held(s, t)))
             && (task.act.Queued? ==> task.state == Running || task.state == Ready)
             && (task.act.Queued? ==> t in Entries(s.waiters, task.act.queue) || Held(s, t) || task.wakeupPending)
    ensures Placed(s, t) && NotLost(s, t)
  {
  }

  // ---- every step keeps the invariant -------------------------------------------------------

  lemma InitialInv(s: State)
    requires Initial(s)
    ensures Inv(s)
  {
  }

  lemma NotATask(s: State, t: TaskId)
    requires Inv(s) && t !in s.tasks
    ensures !InQueue(s.levels, t) && !Pushed(s, t)
  {
  }

  lemma AdmitKeeps(s: State, t: TaskId)
    requires Inv(s) && Enabled(s, Admit(t))
    ensures Inv(Take(s, Admit(t)))
  {
    AdmitEffect(s, Take(s, Admit(t)), t);
  }

  lemma AdmitEffect(s: State, s': State, t: TaskId)
    requires Inv(s) && t !in s.tasks
    requires s' == s.(tasks := s.tasks[t := NewTask], levels := QueuePush(s.levels, t, 0))
    ensures Inv(s')
  {
    hide Entries, Pushed, Held, InQueue, Pushes, Holds, Distinct, QueueOk, ActorsOk, WaitersOk;
    NotATask(s, t);
    assert ActOf(s, Thread(t)) == Outside;
    hide QueuePush, Placed, NotLost;
    PushedFacts(s);
    PushQueueOk(s, s', t, 0);
    SameWakers(s, s');
    FrameEntries(s, s');
    FrameActors(s, s');
    forall u | u in s'.tasks ensures Placed(s', u) && NotLost(s', u) {
      if u == t {
        SubjectKeeps(s', t);
      } else {
        assert Placed(s, u) && NotLost(s, u);
        BystanderKeeps(s, s', u);
      }
    }
  }

  /** Steps that only move the hart between the phases of `run` or in and out of a handler. */
  lemma PhaseKeeps(s: State, step: Step)
    requires Inv(s) && Enabled(s, step)
    requires step.StartRun? || step.IrqEnter? || step.IrqExit? || step.WaitOver?
    ensures Inv(Take(s, step))
  {
    PhaseEffect(s, Take(s, step));
  }

  lemma PhaseEffect(s: State, s': State)
    requires Inv(s) && s' == s.(mode := s'.mode, irq := s'.irq) && ModeOk(s')
    requires s.mode != Switching && s'.mode != Switching
    requires forall a :: ActOf(s', a) == ActOf(s, a)
    ensures Inv(s')
  {
    hide Entries, Pushed, Held, InQueue, Pushes, Holds, Distinct, QueueOk, ActorsOk, WaitersOk;
    hide ActOf, Placed, NotLost;
    assert QueueOk(s') by { SameQueue(s, s'); }
    PushedFacts(s);
    SameWakers(s, s');
    FrameEntries(s, s');
    FrameActors(s, s');
    forall u | u in s'.tasks ensures Placed(s', u) && NotLost(s', u) {
      assert Placed(s, u) && NotLost(s, u);
      BystanderKeeps(s, s', u);
    }
  }

  lemma SameQueue(s: State, s': State)
    requires QueueOk(s) && s'.levels == s.levels && s.tasks.Keys <= s'.tasks.Keys
    ensures QueueOk(s')
  {
  }

  lemma TickKeeps(s: State)
    requires Inv(s) && Enabled(s, Tick)
    ensures Inv(Take(s, Tick))
  {
    if s.current.Some? {
      var t := s.current.value;
      TouchEffect(s, Take(s, Tick), t, TimerTick(s.tasks[t]));
    }
  }

  lemma SwitchContextKeeps(s: State)
    requires Inv(s) && Enabled(s, SwitchContext)
    ensures Inv(Take(s, SwitchContext))
  {
    var t := s.previous.value;
    TouchEffect(s, Take(s, SwitchContext), t, s.tasks[t].(saved := true));
  }

  /** Writing only the clock or context fields of one task. */
  lemma TouchEffect(s: State, s': State, t: TaskId, task: Task)
    requires Inv(s) && t in s.tasks && s' == s.(tasks := s.tasks[t := task], mode := s'.mode) && ModeOk(s')
    requires task.act == s.tasks[t].act && task.state == s.tasks[t].state
    requires task.wakeupPending == s.tasks[t].wakeupPending && task.level < PRIORITY_LEVELS
    requires task.saved <==> task.state != Running && !(s'.mode == Switching && s'.previous == Some(t))
    requires s'.mode == Switching ==> s.mode == Switching
    requires s.mode == Switching && s'.mode != Switching ==> s.previous == Some(t)
    ensures Inv(s')
  {
    hide Entries, Pushed, Held, InQueue, Pushes, Holds, Distinct, QueueOk, ActorsOk, WaitersOk;
    assert Placed(s, t) && NotLost(s, t);
    hide Placed, NotLost;
    assert QueueOk(s') by { SameQueue(s, s'); }
    PushedFacts(s);
    SameWakers(s, s');
    FrameEntries(s, s');
    FrameActors(s, s');
    forall u | u in s'.tasks ensures Placed(s', u) && NotLost(s', u) {
      if u == t {
        SubjectKeeps(s', t);
      } else {
        assert Placed(s, u) && NotLost(s, u);
        BystanderKeeps(s, s', u);
      }
    }
  }

  lemma RequeueKeeps(s: State)
    requires Inv(s) && Enabled(s, Requeue)
    ensures Inv(Take(s, Requeue))
  {
    var s' := Take(s, Requeue);
    if s.previous.Some? {
      assert Placed(s, s.previous.value);
      RequeueEffect(s, s', s.previous.value);
    } else {
      PhaseEffect(s, s');
    }
  }

  lemma RequeueEffect(s: State, s': State, t: TaskId)
    requires Inv(s) && s.mode == IdleTop && s.previous == Some(t)
    requires s' == s.(mode := IdlePick, previous := None, levels := s'.levels)
    requires s'.levels == if s.tasks[t].state == Ready then QueuePush(s.levels, t, s.tasks[t].level) else s.levels
    requires |s'.levels| == PRIORITY_LEVELS
    ensures Inv(s')
  {
    hide Entries, Pushed, Held, InQueue, Pushes, Holds, Distinct, QueueOk, ActorsOk, WaitersOk;
    assert Placed(s, t) && NotLost(s, t);
    hide QueuePush, Placed, NotLost;
    if s.tasks[t].state == Ready { PushQueueOk(s, s', t, s.tasks[t].level); } else { SameQueue(s, s'); }
    PushedFacts(s);
    SameWakers(s, s');
    FrameEntries(s, s');
    FrameActors(s, s');
    forall u | u in s'.tasks ensures Placed(s', u) && NotLost(s', u) {
      if u == t {
        SubjectKeeps(s', t);
      } else {
        assert Placed(s, u) && NotLost(s, u);
        BystanderKeeps(s, s', u);
      }
    }
  }

  lemma DispatchKeeps(s: State)
    requires Inv(s) && Enabled(s, Dispatch)
    ensures Inv(Take(s, Dispatch))
  {
    var k := FirstLevel(s.levels, 0);
    if k == PRIORITY_LEVELS {
      PhaseEffect(s, Take(s, Dispatch));
    } else {
      DispatchEffect(s, Take(s, Dispatch), k, s.levels[k][0]);
    }
  }

  lemma DispatchEffect(s: State, s': State, k: nat, t: TaskId)
    requires Inv(s) && s.mode == IdlePick && k < |s.levels| && s.levels[k] != [] && s.levels[k][0] == t && t in s.tasks
    requires s'.tasks == s.tasks[t := s.tasks[t].(state := Running, needsResched := false, saved := false)]
    requires s'.levels == s.levels[k := s.levels[k][1..]] && |s'.levels| == PRIORITY_LEVELS
    requires s' == s.(tasks := s'.tasks, levels := s'.levels, current := Some(t), mode := InTask)
    ensures Inv(s')
  {
    hide Entries, Pushed, Held, InQueue, Pushes, Holds, Distinct, QueueOk, ActorsOk, WaitersOk;
    assert Placed(s, t) && NotLost(s, t);
    PopQueueOk(s, s', k);
    hide Placed, NotLost;
    PushedFacts(s);
    SameWakers(s, s');
    FrameEntries(s, s');
    FrameActors(s, s');
    SubjectKeeps(s', t);
    forall u | u in s'.tasks && u != t ensures Placed(s', u) && NotLost(s', u) {
      assert Placed(s, u) && NotLost(s, u);
      BystanderKeeps(s, s', u);
    }
  }

  // switch_to_idle

  lemma SwitchKeeps(s: State, step: Step)
    requires Inv(s) && Enabled(s, step) && (step.Block? || step.Yield? || step.Exit? || step.Preempt?)
    ensures Inv(Take(s, step))
  {
    var t := s.current.value;
    assert Placed(s, t) && NotLost(s, t);
    hide Inv, Pushed, Held, InQueue;
    SwitchEffect(s, Take(s, step), t, Take(s, step).tasks[t]);
  }

  lemma SwitchEffect(s: State, s': State, t: TaskId, me: Task)
    requires Inv(s) && s.mode == InTask && s.irq.None? && s.current == Some(t)
    requires s' == s.(tasks := s.tasks[t := me], current := None, previous := Some(t), mode := Switching)
    requires me.level == s.tasks[t].level && !me.saved && me.state != Running
    requires SameWaker(s.tasks[t].act, me.act) && KeepsEntry(s.tasks[t].act, me.act)
    requires me.act.Exited? <==> me.state == Zombie
    requires me.state == Blocked ==> s.tasks[t].act.Queued? && me.act.Parked? && !s.tasks[t].wakeupPending
    requires me.act.Queued? ==>
               me.act == s.tasks[t].act && me.state == Ready && me.wakeupPending == s.tasks[t].wakeupPending
    ensures Inv(s')
  {
    hide Entries, Pushed, Held, InQueue, Pushes, Holds, Distinct, QueueOk, ActorsOk, WaitersOk;
    assert Placed(s, t) && NotLost(s, t);
    hide Placed, NotLost;
    assert QueueOk(s') by { SameQueue(s, s'); }
    PushedFacts(s);
    SameWakers(s, s');
    FrameEntries(s, s');
    FrameActors(s, s');
    forall u | u in s'.tasks ensures Placed(s', u) && NotLost(s', u) {
      if u == t {
        SubjectKeeps(s', t);
      } else {
        assert Placed(s, u) && NotLost(s, u);
        BystanderKeeps(s, s', u);
      }
    }
  }

  // wait

  lemma EnqueueKeeps(s: State, q: QueueId)
    requires Inv(s) && Enabled(s, Enqueue(q))
    ensures Inv(Take(s, Enqueue(q)))
  {
    EntriesEffect(s, Take(s, Enqueue(q)), s.current.value, q, Outside, Queued(q),
                  Entries(s.waiters, q) + [s.current.value]);
  }

  lemma LeaveWaitKeeps(s: State)
    requires Inv(s) && Enabled(s, LeaveWait)
    ensures Inv(Take(s, LeaveWait))
  {
    var t, q := s.current.value, Me(s).act.queue;
    WithoutEntryFacts(Entries(s.waiters, q), t);
    EntriesEffect(s, Take(s, LeaveWait), t, q, Parked(q), Outside, WithoutEntry(Entries(s.waiters, q), t));
  }

  /** The current task puts its own entry on a wait queue, or takes it off. */
  lemma EntriesEffect(s: State, s': State, t: TaskId, q: QueueId, from: Activity, to: Activity, entries: seq<TaskId>)
    requires Inv(s) && s.mode == InTask && s.irq.None? && s.current == Some(t) && s.tasks[t].act == from
    requires (from == Outside && to == Queued(q)) || (from == Parked(q) && to == Outside)
    requires s' == s.(tasks := s.tasks[t := s.tasks[t].(act := to)], waiters := s.waiters[q := entries])
    requires t !in Entries(s.waiters, q) ==> Distinct(entries)
    requires from == Parked(q) ==> Distinct(entries)
    requires forall u :: u in entries <==> if u == t then to == Queued(q) else u in Entries(s.waiters, q)
    ensures Inv(s')
  {
    hide Pushed, Held, InQueue, Pushes, Holds, Distinct, QueueOk, ActorsOk, WaitersOk;
    assert Placed(s, t) && NotLost(s, t);
    hide Placed, NotLost;
    EntriesWaiters(s, s', t, q, from, to, entries);
    assert QueueOk(s') by { SameQueue(s, s'); }
    PushedFacts(s);
    SameWakers(s, s');
    FrameActors(s, s');
    forall u | u in s'.tasks ensures Placed(s', u) && NotLost(s', u) {
      if u == t {
        SubjectKeeps(s', t);
      } else {
        assert Placed(s, u) && NotLost(s, u);
        BystanderKeeps(s, s', u);
      }
    }
  }

  lemma EntriesWaiters(s: State, s': State, t: TaskId, q: QueueId, from: Activity, to: Activity, entries: seq<TaskId>)
    requires WaitersOk(s) && t in s.tasks && s.tasks[t].act == from
    requires (from == Outside && to == Queued(q)) || (from == Parked(q) && to == Outside)
    requires s'.tasks == s.tasks[t := s.tasks[t].(act := to)] && s'.waiters == s.waiters[q := entries]
    requires t !in Entries(s.waiters, q) ==> Distinct(entries)
    requires from == Parked(q) ==> Distinct(entries)
    requires forall u :: u in entries <==> if u == t then to == Queued(q) else u in Entries(s.waiters, q)
    ensures WaitersOk(s')
  {
    hide Distinct;
    forall p ensures Distinct(Entries(s'.waiters, p)) {
      assert p != q ==> Entries(s'.waiters, p) == Entries(s.waiters, p);
      assert t in Entries(s.waiters, p) ==> from == Queued(p) || from == Parked(p);
    }
    forall p, u | u in Entries(s'.waiters, p)
      ensures u in s'.tasks && (s'.tasks[u].act == Queued(p) || s'.tasks[u].act == Parked(p))
    {
      assert p != q ==> Entries(s'.waiters, p) == Entries(s.waiters, p);
      assert u != t || p != q ==> u in Entries(s.waiters, p);
    }
  }

  // wake_one, wake_all and wake

  /** `a` is the thread of control that runs, and moves from `from` to `to` while task `u` becomes `task`. */
  ghost predicate Moves(s: State, s': State, a: Actor, from: Activity, to: Activity) {
    && ActOf(s, a) == from && ActOf(s', a) == to
    && (forall b | b != a :: ActOf(s', b) == ActOf(s, b))
  }

  /** The wakers after a move: everyone else as before, `a` as its new activity says. */
  lemma MovedWakers(s: State, s': State, a: Actor, from: Activity, to: Activity)
    requires Moves(s, s', a, from, to)
    ensures forall t :: Held(s', t) ==> Held(s, t) || t in Todo(to)
    ensures forall t :: Held(s, t) ==> Held(s', t) || t in Todo(from)
    ensures forall t | t in Todo(to) :: Held(s', t)
    ensures forall t :: Pushed(s', t) ==> Pushed(s, t) || (to.Pushing? && to.target == t)
    ensures forall t :: Pushed(s, t) ==> Pushed(s', t) || (from.Pushing? && from.target == t)
    ensures to.Pushing? ==> Pushed(s', to.target)
  {
    forall t ensures Held(s', t) ==> Held(s, t) || t in Todo(to) {
      if b :| Holds(s', b, t) { assert b != a ==> Holds(s, b, t); }
    }
    forall t ensures Held(s, t) ==> Held(s', t) || t in Todo(from) {
      if b :| Holds(s, b, t) { assert b != a ==> Holds(s', b, t); }
    }
    forall t | t in Todo(to) ensures Held(s', t) { assert Holds(s', a, t); }
    forall t ensures Pushed(s', t) ==> Pushed(s, t) || (to.Pushing? && to.target == t) {
      if b :| Pushes(s', b, t) { assert b != a ==> Pushes(s, b, t); }
    }
    forall t ensures Pushed(s, t) ==> Pushed(s', t) || (from.Pushing? && from.target == t) {
      if b :| Pushes(s, b, t) { assert b != a ==> Pushes(s', b, t); }
    }
    if to.Pushing? { assert Pushes(s', a, to.target); }
  }

  lemma MovedActors(s: State, s': State, a: Actor, from: Activity, to: Activity)
    requires ActorsOk(s) && Moves(s, s', a, from, to) && s.tasks.Keys <= s'.tasks.Keys
    requires forall t | t in Todo(to) :: t in s'.tasks
    requires to.Waking? ==> to.todo != []
    requires to.Pushing? ==>
               && to.target in s'.tasks && s'.tasks[to.target].state == Ready && !InQueue(s'.levels, to.target)
               && s'.previous != Some(to.target) && !Pushed(s, to.target)
    requires forall t | Pushed(s, t) && t in s.tasks && !(from.Pushing? && from.target == t) ::
               s'.tasks[t].state == Ready && !InQueue(s'.levels, t) && s'.previous != Some(t)
    ensures ActorsOk(s')
  {
    hide InQueue;
    forall b, t | Holds(s', b, t) ensures t in s'.tasks {
      assert b != a ==> Holds(s, b, t);
    }
    forall b, t | Pushes(s', b, t)
      ensures t in s'.tasks && s'.tasks[t].state == Ready && !InQueue(s'.levels, t) && s'.previous != Some(t)
    {
      if b != a {
        assert Pushes(s, b, t) && Pushed(s, t);
        assert Pushes(s, a, t) ==> a == b;
      }
    }
    forall b, c, t | Pushes(s', b, t) && Pushes(s', c, t) ensures b == c {
      assert b != a ==> Pushes(s, b, t);
      assert c != a ==> Pushes(s, c, t);
    }
  }

  lemma PopKeeps(s: State, step: Step)
    requires Inv(s) && Enabled(s, step) && (step.PopOne? || step.PopAll?)
    ensures Inv(Take(s, step))
  {
    var q := step.queue;
    var all := Entries(s.waiters, q);
    var n := if step.PopOne? then (if all == [] then 0 else 1) else |all|;
    if !(step.PopOne? && all == []) {
      var s', a := Take(s, step), ActorOf(s);
      var to := WakeRest(all[..n]);
      assert all[n..] == if step.PopOne? then all[1..] else [];
      assert all[..n] == if step.PopOne? then [all[0]] else all;
      PopWaiters(s, s', a, q, n, to);
      PopEffect(s, s', a, to);
    }
  }

  /** The thread of control that runs takes entries off a wait queue to wake them. */
  lemma PopEffect(s: State, s': State, a: Actor, to: Activity)
    requires Inv(s) && HasActor(s) && a == ActorOf(s) && (to.Outside? || to.Waking?)
    requires s' == WithAct(s.(waiters := s'.waiters), to) && Moves(s, s', a, Outside, to) && WaitersOk(s')
    requires forall t | t in Todo(to) :: t in s.tasks
    requires to.Waking? ==> to.todo != []
    requires forall p, t :: t in Entries(s.waiters, p) ==> t in Entries(s'.waiters, p) || t in Todo(to)
    ensures Inv(s')
  {
    hide Pushed, Held, InQueue, Pushes, Holds, Distinct, QueueOk, ActorsOk, WaitersOk, Moves;
    WithActFields(s.(waiters := s'.waiters), a, to);
    ActorAct(s, a);
    MovesFrom(s, s', a, Outside, to);
    hide ActOf, Placed, NotLost, WithAct, HasActor, ActorOf;
    MovedWakers(s, s', a, Outside, to);
    PushedFacts(s);
    SameQueue(s, s');
    MovedActors(s, s', a, Outside, to);
    forall u | u in s'.tasks ensures Placed(s', u) && NotLost(s', u) {
      assert Placed(s, u) && NotLost(s, u);
      assert s'.tasks[u] == if Thread(u) == a then s.tasks[u].(act := to) else s.tasks[u];
      BystanderKeeps(s, s', u);
    }
  }

  /** What moving the running thread of control to another activity changes. */
  lemma WithActFields(s: State, a: Actor, to: Activity)
    requires HasActor(s) && a == ActorOf(s)
    ensures var s' := WithAct(s, to);
            && s'.levels == s.levels && s'.waiters == s.waiters && s'.mode == s.mode
            && s'.current == s.current && s'.previous == s.previous
            && s'.tasks.Keys == s.tasks.Keys
            && (forall u | u in s.tasks && Thread(u) != a :: s'.tasks[u] == s.tasks[u])
            && (a.Thread? ==> a.task in s.tasks && s'.tasks[a.task] == s.tasks[a.task].(act := to))
            && (s'.irq.Some? <==> s.irq.Some?)
            && (s.irq.Some? ==> s'.irq.value == if a == Handler then to else s.irq.value)
  {
  }

  lemma ActorAct(s: State, a: Actor)
    requires HasActor(s) && a == ActorOf(s)
    ensures a.Thread? ==> a.task in s.tasks && s.tasks[a.task].act == ActOf(s, a)
  {
  }

  lemma PopWaiters(s: State, s': State, a: Actor, q: QueueId, n: nat, to: Activity)
    requires WaitersOk(s) && HasActor(s) && a == ActorOf(s) && ActOf(s, a) == Outside
    requires n <= |Entries(s.waiters, q)| && to == WakeRest(Entries(s.waiters, q)[..n])
    requires s' == WithAct(s.(waiters := s.waiters[q := Entries(s.waiters, q)[n..]]), to)
    ensures WaitersOk(s') && Moves(s, s', a, Outside, to)
    ensures forall t | t in Todo(to) :: t in s.tasks
    ensures forall p, t :: t in Entries(s.waiters, p) ==> t in Entries(s'.waiters, p) || t in Todo(to)
  {
    var all := Entries(s.waiters, q);
    assert all == all[..n] + all[n..] && Todo(to) == all[..n];
    assert Distinct(all);
    SuffixDistinct(all, n);
    hide Distinct, Todo, WakeRest;
    forall p ensures Distinct(Entries(s'.waiters, p)) {
      assert p != q ==> Entries(s'.waiters, p) == Entries(s.waiters, p);
    }
    forall p, u | u in Entries(s'.waiters, p)
      ensures u in s'.tasks && (s'.tasks[u].act == Queued(p) || s'.tasks[u].act == Parked(p))
    {
      assert u in Entries(s.waiters, p);
      assert ActOf(s, Thread(u)) != Outside;
    }
    forall p, t | t in Entries(s.waiters, p) ensures t in Entries(s'.waiters, p) || t in Todo(to) {
      assert p != q ==> Entries(s'.waiters, p) == Entries(s.waiters, p);
    }
    forall t | t in Todo(to) ensures t in s.tasks { assert t in all; }
  }

  lemma SuffixDistinct(entries: seq<TaskId>, n: nat)
    requires Distinct(entries) && n <= |entries|
    ensures Distinct(entries[n..])
  {
  }

  lemma HeldAreTasks(s: State)
    requires ActorsOk(s)
    ensures forall a, u | Holds(s, a, u) :: u in s.tasks
  {
  }

  /** A step that writes other fields of tasks and then moves the running thread of control. */
  lemma MovesByAct(s: State, mid: State, a: Actor, to: Activity)
    requires HasActor(s) && a == ActorOf(s) && mid == s.(tasks := mid.tasks, levels := mid.levels)
    requires mid.tasks.Keys == s.tasks.Keys && forall u | u in s.tasks :: mid.tasks[u].act == s.tasks[u].act
    ensures HasActor(mid) && ActorOf(mid) == a
    ensures Moves(s, WithAct(mid, to), a, ActOf(s, a), to)
  {
  }

  lemma WakeNextKeeps(s: State)
    requires Inv(s) && Enabled(s, WakeNext)
    ensures Inv(Take(s, WakeNext))
  {
    hide Inv, WithAct, Moves;
    var a := ActorOf(s);
    var from := ActOf(s, a);
    var t, rest := from.todo[0], from.todo[1..];
    assert Take(s, WakeNext) == Wake(s, t, rest);
    WakeEffect(s, a, from, t, rest);
  }

  lemma WakeEffect(s: State, a: Actor, from: Activity, t: TaskId, rest: seq<TaskId>)
    requires Inv(s) && HasActor(s) && a == ActorOf(s) && ActOf(s, a) == from && from.Waking? && t in s.tasks
    requires from.todo == [t] + rest
    ensures Inv(Wake(s, t, rest))
  {
    hide ModeOk, QueueOk, WaitersOk, ActorsOk, NotLost, Moves, InQueue, Pushed;
    HeldAreTasks(s);
    assert forall u | u in rest :: Holds(s, a, u);
    assert Placed(s, t);
    hide Inv, Placed, Holds, WithAct;
    var task := s.tasks[t];
    if task.state != Blocked {
      var mid := s.(tasks := s.tasks[t := task.(wakeupPending := true)]);
      MovesByAct(s, mid, a, WakeRest(rest));
      NoteEffect(s, WithAct(mid, WakeRest(rest)), a, t, from, rest);
    } else {
      var level := if task.level == 0 then 0 else task.level - 1;
      var mid := s.(tasks := s.tasks[t := task.(state := Ready, level := level, ticks := 0)]);
      var to := Pushing(t, level, rest);
      MovesByAct(s, mid, a, to);
      MakeReadyEffect(s, WithAct(mid, to), a, t, from, to);
    }
  }

  /** `wake` on a task that is not Blocked leaves a note. */
  lemma NoteEffect(s: State, s': State, a: Actor, t: TaskId, from: Activity, rest: seq<TaskId>)
    requires Inv(s) && HasActor(s) && a == ActorOf(s) && t in s.tasks && s.tasks[t].state != Blocked && from.Waking?
    requires s' == WithAct(s.(tasks := s.tasks[t := s.tasks[t].(wakeupPending := true)]), WakeRest(rest))
    requires Moves(s, s', a, from, WakeRest(rest))
    requires (forall u | u in rest :: u in s.tasks) && (forall u | u in from.todo :: u == t || u in rest)
    ensures Inv(s')
  {
    var to := WakeRest(rest);
    hide Entries, Pushed, Held, InQueue, Pushes, Holds, Distinct, QueueOk, ActorsOk, WaitersOk, Moves;
    assert Todo(to) == rest && !to.Pushing? && (to.Waking? ==> to.todo != []);
    WithActFields(s.(tasks := s.tasks[t := s.tasks[t].(wakeupPending := true)]), a, to);
    ActorAct(s, a);
    MovesFrom(s, s', a, from, to);
    hide ActOf, WakeRest, Placed, NotLost, WithAct, HasActor, ActorOf;
    MovedWakers(s, s', a, from, to);
    PushedFacts(s);
    SameQueue(s, s');
    FrameEntries(s, s');
    MovedActors(s, s', a, from, to);
    forall u | u in s'.tasks ensures Placed(s', u) && NotLost(s', u) {
      assert Placed(s, u) && NotLost(s, u);
      var note := s.tasks[u].(wakeupPending := u == t || s.tasks[u].wakeupPending);
      assert s'.tasks[u] == if Thread(u) == a then note.(act := to) else note;
      BystanderKeeps(s, s', u);
    }
  }

  lemma MovesFrom(s: State, s': State, a: Actor, from: Activity, to: Activity)
    requires Moves(s, s', a, from, to)
    ensures ActOf(s, a) == from && ActOf(s', a) == to
  {
  }

  /** `wake` on a Blocked task makes it Ready; it is then in the waker's hands. */
  lemma MakeReadyEffect(s: State, s': State, a: Actor, t: TaskId, from: Activity, to: Activity)
    requires Inv(s) && HasActor(s) && a == ActorOf(s) && t in s.tasks && s.tasks[t].state == Blocked && from.Waking?
    requires to.Pushing? && to.target == t && to.level < PRIORITY_LEVELS
    requires s' == WithAct(s.(tasks := s.tasks[t := s.tasks[t].(state := Ready, level := to.level, ticks := 0)]), to)
    requires Moves(s, s', a, from, to)
    requires (forall u | u in to.todo :: u in s.tasks) && (forall u | u in from.todo :: u == t || u in to.todo)
    ensures Inv(s')
  {
    hide Entries, Pushed, Held, InQueue, Pushes, Holds, Distinct, QueueOk, ActorsOk, WaitersOk, Moves;
    assert Placed(s, t) && NotLost(s, t);
    WithActFields(s.(tasks := s.tasks[t := s.tasks[t].(state := Ready, level := to.level, ticks := 0)]), a, to);
    ActorAct(s, a);
    MovesFrom(s, s', a, from, to);
    hide ActOf, Placed, NotLost, WithAct, HasActor, ActorOf;
    MovedWakers(s, s', a, from, to);
    PushedFacts(s);
    SameQueue(s, s');
    FrameEntries(s, s');
    MovedActors(s, s', a, from, to);
    forall u | u in s'.tasks ensures Placed(s', u) && NotLost(s', u) {
      if u == t {
        SubjectKeeps(s', t);
      } else {
        assert Placed(s, u) && NotLost(s, u);
        BystanderKeeps(s, s', u);
      }
    }
  }

  lemma PushWokenKeeps(s: State)
    requires Inv(s) && Enabled(s, PushWoken)
    ensures Inv(Take(s, PushWoken))
  {
    var a := ActorOf(s);
    var from := ActOf(s, a);
    HeldAreTasks(s);
    assert Pushes(s, a, from.target) && Pushed(s, from.target);
    assert forall u | u in from.todo :: Holds(s, a, u);
    hide Inv, Moves, Pushed, Holds;
    var mid := s.(levels := QueuePush(s.levels, from.target, from.level));
    MovesByAct(s, mid, a, WakeRest(from.todo));
    WithActFields(mid, a, WakeRest(from.todo));
    PushWokenEffect(s, Take(s, PushWoken), a, from);
  }

  lemma PushWokenEffect(s: State, s': State, a: Actor, from: Activity)
    requires Inv(s) && HasActor(s) && a == ActorOf(s) && from.Pushing? && Pushed(s, from.target)
    requires s' == WithAct(s.(levels := s'.levels), WakeRest(from.todo))
    requires s'.levels == QueuePush(s.levels, from.target, from.level) && |s'.levels| == PRIORITY_LEVELS
    requires Moves(s, s', a, from, WakeRest(from.todo))
    requires forall u | u in from.todo :: u in s.tasks
    ensures Inv(s')
  {
    var t, to := from.target, WakeRest(from.todo);
    hide Entries, Pushed, Held, InQueue, Pushes, Holds, Distinct, QueueOk, ActorsOk, WaitersOk, Moves;
    assert Todo(to) == from.todo;
    assert !to.Pushing? && (to.Waking? ==> to.todo != []);
    WithActFields(s.(levels := s'.levels), a, to);
    ActorAct(s, a);
    MovesFrom(s, s', a, from, to);
    hide QueuePush, ActOf, WakeRest, Placed, NotLost, WithAct, HasActor, ActorOf, Placed, NotLost;
    MovedWakers(s, s', a, from, to);
    PushedFacts(s);
    PushQueueOk(s, s', t, from.level);
    FrameEntries(s, s');
    MovedActors(s, s', a, from, to);
    assert forall u | u in s.tasks :: s'.tasks[u] == if Thread(u) == a then s.tasks[u].(act := to) else s.tasks[u];
    hide InQueue, Pushed, Held;
    assert s.tasks[t].state == Ready && s.previous != Some(t);
    AfterPush(s, s', a, t, to);
  }

  lemma AfterPush(s: State, s': State, a: Actor, t: TaskId, to: Activity)
    requires (forall u | u in s.tasks :: Placed(s, u) && NotLost(s, u)) && s'.tasks.Keys == s.tasks.Keys && t in s.tasks
    requires s'.waiters == s.waiters && s'.mode == s.mode && s'.current == s.current && s'.previous == s.previous
    requires forall u | u in s.tasks :: s'.tasks[u] == if Thread(u) == a then s.tasks[u].(act := to) else s.tasks[u]
    requires IsWaker(to) && (a.Thread? && a.task in s.tasks ==> IsWaker(s.tasks[a.task].act))
    requires forall u :: InQueue(s'.levels, u) <==> u == t || InQueue(s.levels, u)
    requires forall u | Pushed(s, u) :: Pushed(s', u) || u == t
    requires forall u | Held(s, u) :: Held(s', u)
    requires s.tasks[t].state == Ready && s.previous != Some(t)
    ensures forall u | u in s'.tasks :: Placed(s', u) && NotLost(s', u)
  {
    hide InQueue, Pushed, Held, Entries;
    forall u | u in s'.tasks ensures Placed(s', u) && NotLost(s', u) {
      assert Placed(s, u) && NotLost(s, u);
      hide Placed, NotLost;
      BystanderKeeps(s, s', u);
    }
  }

  // ---- every run ------------------------------------------------------------------------

  /** A task past its exit is never current, so neither `unreachable!` is reached. */
  lemma NeverResumesExited(s: State)
    requires Inv(s)
    ensures !Enabled(s, ResumeExited)
  {
    if s.current.Some? { assert Placed(s, s.current.value); }
  }

  lemma StepKeeps(s: State, step: Step)
    requires Inv(s) && Enabled(s, step)
    ensures Inv(Take(s, step))
  {
    hide *;
    match step
    case Admit(t) => AdmitKeeps(s, t);
    case StartRun => PhaseKeeps(s, step);
    case Enqueue(q) => EnqueueKeeps(s, q);
    case Block => SwitchKeeps(s, step);
    case LeaveWait => LeaveWaitKeeps(s);
    case Yield => SwitchKeeps(s, step);
    case Exit => SwitchKeeps(s, step);
    case PopOne(_) => PopKeeps(s, step);
    case PopAll(_) => PopKeeps(s, step);
    case WakeNext => WakeNextKeeps(s);
    case PushWoken => PushWokenKeeps(s);
    case IrqEnter => PhaseKeeps(s, step);
    case IrqExit => PhaseKeeps(s, step);
    case Tick => TickKeeps(s);
    case Preempt => SwitchKeeps(s, step);
    case SwitchContext => SwitchContextKeeps(s);
    case Requeue => RequeueKeeps(s);
    case Dispatch => DispatchKeeps(s);
    case WaitOver => PhaseKeeps(s, step);
    case ResumeExited => NeverResumesExited(s);
  }

  lemma {:induction false} RunInv(run: seq<State>, steps: seq<Step>, i: nat)
    requires IsRun(run, steps) && i < |run|
    ensures Inv(run[i])
  {
    if i == 0 {
      InitialInv(run[0]);
    } else {
      RunInv(run, steps, i - 1);
      assert StepAt(run, steps, i - 1);
      StepKeeps(run[i - 1], steps[i - 1]);
    }
  }

  // ---- what the invariant means -----------------------------------------------------------

  function One(b: bool): nat { if b then 1 else 0 }

  ghost predicate OnQueueOnce(s: State, t: TaskId) {
    exists k, i | 0 <= k < |s.levels| && 0 <= i < |s.levels[k]| ::
      && s.levels[k][i] == t
      && forall l, j | 0 <= l < |s.levels| && 0 <= j < |s.levels[l]| && s.levels[l][j] == t :: l == k && j == i
  }

  /** A task is current, previous, on the run queue (once), Blocked, or made Ready by exactly one waker that is about to
      push it: one of these and no other. */
  ghost predicate InOnePlace(s: State, t: TaskId) {
    && t in s.tasks
    && One(s.current == Some(t)) + One(s.previous == Some(t)) + One(InQueue(s.levels, t))
       + One(s.tasks[t].state == Blocked && s.previous != Some(t)) + One(Pushed(s, t)) == 1
    && (InQueue(s.levels, t) ==> OnQueueOnce(s, t))
    && (forall a, b | Pushes(s, a, t) && Pushes(s, b, t) :: a == b)
  }

  /** In every state of every run a task that has not exited is in exactly one place: current, previous, on
      the run queue (once), Blocked, or made Ready by exactly one waker that is about to push it. */
  lemma UniquePlacement(run: seq<State>, steps: seq<Step>, i: nat, t: TaskId)
    requires IsRun(run, steps) && i < |run| && t in run[i].tasks && run[i].tasks[t].state != Zombie
    ensures InOnePlace(run[i], t)
  {
    RunInv(run, steps, i);
    var s := run[i];
    assert Placed(s, t) && NotLost(s, t);
    PushedFacts(s);
    if InQueue(s.levels, t) { QueuedOnce(s, t); }
  }

  lemma QueuedOnce(s: State, t: TaskId)
    requires QueueOk(s) && InQueue(s.levels, t)
    ensures OnQueueOnce(s, t)
  {
    var k :| 0 <= k < |s.levels| && t in s.levels[k];
    var i :| 0 <= i < |s.levels[k]| && s.levels[k][i] == t;
    forall l, j | 0 <= l < |s.levels| && 0 <= j < |s.levels[l]| && s.levels[l][j] == t ensures l == k && j == i {
      assert t in s.levels[l];
      assert Distinct(s.levels[k]);
    }
  }

  /** Only a task whose registers are saved, and that has not exited, is ever on the run queue or dispatched;
      and control never reaches the two `unreachable!` lines. */
  lemma DispatchIsSafe(run: seq<State>, steps: seq<Step>, i: nat)
    requires IsRun(run, steps) && i < |run|
    ensures run[i].mode != Panicked
    ensures forall t | InQueue(run[i].levels, t) ::
              t in run[i].tasks && run[i].tasks[t].state == Ready && run[i].tasks[t].saved
    ensures run[i].current.Some? ==>
              run[i].current.value in run[i].tasks && !run[i].tasks[run[i].current.value].act.Exited?
    ensures forall t | t in run[i].tasks && run[i].tasks[t].act.Exited? :: run[i].tasks[t].state == Zombie
  {
    RunInv(run, steps, i);
    var s := run[i];
    forall t | InQueue(s.levels, t) ensures t in s.tasks && s.tasks[t].state == Ready && s.tasks[t].saved {
      assert Placed(s, t);
    }
    if s.current.Some? { assert Placed(s, s.current.value); }
    forall t | t in s.tasks && s.tasks[t].act.Exited? ensures s.tasks[t].state == Zombie {
      assert Placed(s, t);
    }
  }

  /** In every state of every run a Blocked task still has its entry on the queue it blocked on, or is held by a
      waker that has popped it and not yet called `wake`. */
  lemma BlockedIsReachable(run: seq<State>, steps: seq<Step>, i: nat, t: TaskId)
    requires IsRun(run, steps) && i < |run| && t in run[i].tasks && run[i].tasks[t].state == Blocked
    ensures run[i].tasks[t].act.Parked?
    ensures t in Entries(run[i].waiters, run[i].tasks[t].act.queue) || Held(run[i], t)
  {
    RunInv(run, steps, i);
    assert NotLost(run[i], t);
  }

  /** Each entry of a wait queue belongs to a task inside `wait` on that queue, which has no other entry anywhere. */
  lemma EntriesBelongToWaiters(run: seq<State>, steps: seq<Step>, i: nat, q: QueueId, t: TaskId)
    requires IsRun(run, steps) && i < |run| && t in Entries(run[i].waiters, q)
    ensures t in run[i].tasks && (run[i].tasks[t].act == Queued(q) || run[i].tasks[t].act == Parked(q))
    ensures forall p | t in Entries(run[i].waiters, p) :: p == q
    ensures multiset(Entries(run[i].waiters, q))[t] == 1
  {
    RunInv(run, steps, i);
    EntryOwner(run[i], q, t);
  }

  lemma EntryOwner(s: State, q: QueueId, t: TaskId)
    requires WaitersOk(s) && t in Entries(s.waiters, q)
    ensures t in s.tasks && (s.tasks[t].act == Queued(q) || s.tasks[t].act == Parked(q))
    ensures forall p | t in Entries(s.waiters, p) :: p == q
    ensures multiset(Entries(s.waiters, q))[t] == 1
  {
    assert Distinct(Entries(s.waiters, q));
    DistinctCount(Entries(s.waiters, q), t);
  }

  lemma {:induction false} DistinctCount(entries: seq<TaskId>, t: TaskId)
    requires Distinct(entries)
    ensures multiset(entries)[t] == One(t in entries)
  {
    if entries != [] {
      var rest := entries[1..];
      assert entries == [entries[0]] + rest;
      DistinctCount(rest, t);
      assert entries[0] !in rest;
    }
  }

  predicate InsideWait(act: Activity) {
    act.Queued? || act.Parked?
  }

  /** The task is inside a `wait` in which it has been woken. */
  predicate Woken(s: State, t: TaskId) {
    && t in s.tasks && InsideWait(s.tasks[t].act)
    && (if s.tasks[t].act.Queued? then s.tasks[t].wakeupPending else s.tasks[t].state != Blocked)
  }

  /** `wake` on a task inside `wait` marks that wait as woken, whether or not the task had gone to sleep yet. */
  lemma WakeDelivers(s: State, t: TaskId)
    requires Inv(s) && Enabled(s, WakeNext) && ActOf(s, ActorOf(s)).todo[0] == t && InsideWait(s.tasks[t].act)
    ensures Woken(Take(s, WakeNext), t)
  {
    var a := ActorOf(s);
    assert a != Thread(t);
  }

  /** A woken wait stays woken until the task leaves it. */
  lemma WokenIsStable(s: State, step: Step, t: TaskId)
    requires Inv(s) && Enabled(s, step) && Woken(s, t)
    ensures var s' := Take(s, step);
            t in s'.tasks && (Woken(s', t) || s'.tasks[t].act == Outside)
  {
    WokenIsAwake(s, t);
    if step.Block? || step.Yield? || step.Exit? || step.Preempt? {
      SwitchKeepsWoken(s, step, t);
    } else if step.WakeNext? || step.PushWoken? || step.PopOne? || step.PopAll? || step.Enqueue? || step.LeaveWait? {
      ActKeepsWoken(s, step, t);
    } else {
      hide Inv, QueuePush, FirstLevel, HasActor, ActOf, ActorOf, Clamp;
    }
  }

  lemma SwitchKeepsWoken(s: State, step: Step, t: TaskId)
    requires Enabled(s, step) && Woken(s, t) && s.tasks[t].state != Blocked
    requires step.Block? || step.Yield? || step.Exit? || step.Preempt?
    ensures var s' := Take(s, step);
            t in s'.tasks && (Woken(s', t) || s'.tasks[t].act == Outside)
  {
  }

  lemma ActKeepsWoken(s: State, step: Step, t: TaskId)
    requires Enabled(s, step) && Woken(s, t) && s.tasks[t].state != Blocked
    requires step.WakeNext? || step.PushWoken? || step.PopOne? || step.PopAll? || step.Enqueue? || step.LeaveWait?
    ensures var s' := Take(s, step);
            t in s'.tasks && (Woken(s', t) || s'.tasks[t].act == Outside)
  {
    hide QueuePush, WithoutEntry, Entries;
  }

  /** No wakeup is lost: once `wake` has been called on a task inside `wait`, then for as long as the task is in
      that wait it never sleeps, in any continuation of the run. */
  lemma {:induction false} WokenNeverSleeps(run: seq<State>, steps: seq<Step>, i: nat, j: nat, t: TaskId)
    requires IsRun(run, steps) && i < j < |run|
    requires steps[i] == WakeNext && Enabled(run[i], WakeNext) && ActOf(run[i], ActorOf(run[i])).todo[0] == t
    requires InsideWait(run[i].tasks[t].act)
    requires forall k | i < k <= j :: t in run[k].tasks && run[k].tasks[t].act != Outside
    ensures Woken(run[j], t) && run[j].tasks[t].state != Blocked
    decreases j
  {
    hide Take, Enabled, Inv, Woken;
    assert StepAt(run, steps, j - 1);
    RunInv(run, steps, j - 1);
    if j == i + 1 {
      WakeDelivers(run[i], t);
    } else {
      WokenNeverSleeps(run, steps, i, j - 1, t);
      WokenIsStable(run[j - 1], steps[j - 1], t);
    }
    RunInv(run, steps, j);
    WokenIsAwake(run[j], t);
  }

  lemma WokenIsAwake(s: State, t: TaskId)
    requires Inv(s) && Woken(s, t)
    ensures t in s.tasks && s.tasks[t].state != Blocked
  {
    assert NotLost(s, t);
  }

  // ---- what the code knows, and what follows ------------------------------------------------

  /** What the thread of control that runs is in the middle of. */
  function Doing(s: State): Activity {
    if s.irq.Some? then s.irq.value
    else if s.mode == InTask && s.current.Some? then ActOf(s, Thread(s.current.value))
    else Outside
  }

  predicate InThread(s: State) {
    s.mode == InTask && s.irq.None?
  }

  /** Control is where the step starts. That is all the calling code has to see to: that the tasks it then finds in
      `current`, in `previous`, in wait queues and on the run queue exist is not its business. */
  predicate Due(s: State, step: Step) {
    match step
    case Admit(t) => t !in s.tasks && (s.mode == Boot || (InThread(s) && Doing(s).Outside?))
    case StartRun => s.mode == Boot
    case Enqueue(q) => InThread(s) && Doing(s).Outside?
    case Block => InThread(s) && Doing(s).Queued?
    case LeaveWait => InThread(s) && Doing(s).Parked?
    case Yield => InThread(s) && Doing(s).Outside?
    case Exit => InThread(s) && Doing(s).Outside?
    case PopOne(q) => (s.irq.Some? || s.mode == InTask) && Doing(s).Outside?
    case PopAll(q) => (s.irq.Some? || s.mode == InTask) && Doing(s).Outside?
    case WakeNext => Doing(s).Waking?
    case PushWoken => Doing(s).Pushing?
    case IrqEnter => s.irq.None? && (s.mode == InTask || s.mode == IdleWait)
    case IrqExit => s.irq == Some(Outside)
    case Tick => s.irq == Some(Outside)
    case Preempt => InThread(s) && s.current.Some? && s.current.value in s.tasks
        && s.tasks[s.current.value].needsResched
    case SwitchContext => s.mode == Switching
    case Requeue => s.mode == IdleTop
    case Dispatch => s.mode == IdlePick
    case WaitOver => s.mode == IdleWait && s.irq.None?
    case ResumeExited => InThread(s) && Doing(s).Exited?
  }

  /** In every state of every run, a step that is due can be taken: no section ever finds a dangling task. */
  lemma DueIsEnabled(run: seq<State>, steps: seq<Step>, i: nat, step: Step)
    requires IsRun(run, steps) && i < |run| && Due(run[i], step)
    ensures Enabled(run[i], step)
  {
    hide *;
    RunInv(run, steps, i);
    InvTargets(run[i]);
    DueNow(run[i], step);
  }

  /** Nothing the sections look up is missing. */
  ghost predicate TargetsExist(s: State) {
    && ModeOk(s)
    && (forall k | 0 <= k < |s.levels| && s.levels[k] != [] :: s.levels[k][0] in s.tasks)
    && (Doing(s).Waking? ==> Doing(s).todo != [] && Doing(s).todo[0] in s.tasks)
    && (s.current.Some? ==> s.current.value in s.tasks && !s.tasks[s.current.value].act.Exited?)
  }

  lemma InvTargets(s: State)
    requires Inv(s)
    ensures TargetsExist(s)
  {
    hide WaitersOk, NotLost, Distinct, InQueue, Pushed;
    forall k | 0 <= k < |s.levels| && s.levels[k] != [] ensures s.levels[k][0] in s.tasks {
      assert s.levels[k][0] in s.levels[k];
    }
    if Doing(s).Waking? {
      assert HasActor(s) && ActOf(s, ActorOf(s)) == Doing(s);
      assert Holds(s, ActorOf(s), Doing(s).todo[0]);
    }
    if s.current.Some? { assert Placed(s, s.current.value); }
  }

  lemma DueNow(s: State, step: Step)
    requires TargetsExist(s) && Due(s, step)
    ensures Enabled(s, step)
  {
  }

  /** The step with which the thread of control that runs goes on by itself, no interrupt needed. */
  function GoesOn(s: State): Step {
    match Doing(s)
    case Queued(_) => Block
    case Parked(_) => LeaveWait
    case Waking(_) => WakeNext
    case Pushing(_, _, _) => PushWoken
    case Exited => ResumeExited
    case Outside =>
      if s.irq.Some? then IrqExit
      else match s.mode
           case Boot => StartRun
           case InTask => Yield
           case Switching => SwitchContext
           case IdleTop => Requeue
           case IdlePick => Dispatch
           case IdleWait => WaitOver
           case Panicked => StartRun
  }

  /** The hart is never stuck: whatever thread of control runs, a handler, a task in the middle of `wait` or `wake`, or
      the idle loop, it has a next step of its own, and that is never the one past an exit. */
  lemma NeverStuck(run: seq<State>, steps: seq<Step>, i: nat)
    requires IsRun(run, steps) && i < |run|
    ensures Enabled(run[i], GoesOn(run[i])) && !GoesOn(run[i]).ResumeExited? && !GoesOn(run[i]).IrqEnter?
  {
    hide *;
    RunInv(run, steps, i);
    InvTargets(run[i]);
    NextDue(run[i]);
    DueNow(run[i], GoesOn(run[i]));
  }

  lemma NextDue(s: State)
    requires TargetsExist(s)
    ensures Due(s, GoesOn(s)) && !GoesOn(s).ResumeExited? && !GoesOn(s).IrqEnter?
  {
  }
}
