/** One hart's scheduler and its wait queues as a transition system. A step is one section the code
    runs with interrupts masked; between steps an interrupt may arrive and the current task may be
    preempted. */
module SchedulerSpec {
  import opened Prelude

  const PRIORITY_LEVELS: nat := 3
  const QUANTA_PER_LEVEL: nat := 4

  type TaskId = nat
  type QueueId = nat

  datatype TaskState = Ready | Running | Blocked | Zombie

  /** What a thread of control is in the middle of. */
  datatype Activity =
    | Outside                                                  // in none of the operations below
    | Queued(queue: QueueId)                                   // in `wait`, entry pushed, not yet switched away
    | Parked(queue: QueueId)                                   // in `wait`, inside or past `block_current`
    | Waking(todo: seq<TaskId>)                                // popped these, `wake` still to be called on them
    | Pushing(target: TaskId, level: nat, todo: seq<TaskId>)   // in `wake`, target made Ready, not yet on the run queue
    | Exited                                                   // past the switch in `exit_current`

  datatype Task = Task(
    state: TaskState,
    level: nat,
    ticks: nat,
    needsResched: bool,
    wakeupPending: bool,
    saved: bool,          // the context in `ctx` is the one to resume from
    act: Activity)

  /** Where the hart is: in a task, between `previous` being set and the register switch, or in `run`. */
  datatype Mode = Boot | InTask | Switching | IdleTop | IdlePick | IdleWait | Panicked

  datatype State = State(
    tasks: map<TaskId, Task>,
    levels: seq<seq<TaskId>>,
    current: Option<TaskId>,
    previous: Option<TaskId>,
    mode: Mode,
    irq: Option<Activity>,               // an interrupt handler in progress
    waiters: map<QueueId, seq<TaskId>>)

  const NewTask: Task := Task(Ready, 0, 0, false, false, true, Outside)

  // ---- run queue -----------------------------------------------------------------

  function Clamp(level: nat): nat {
    if level < PRIORITY_LEVELS then level else PRIORITY_LEVELS - 1
  }

  function QueuePush(levels: seq<seq<TaskId>>, t: TaskId, level: nat): seq<seq<TaskId>>
    requires |levels| == PRIORITY_LEVELS
  {
    levels[Clamp(level) := levels[Clamp(level)] + [t]]
  }

  /** The first non-empty level from `k` on, or `PRIORITY_LEVELS`. */
  function FirstLevel(levels: seq<seq<TaskId>>, k: nat): (r: nat)
    requires |levels| == PRIORITY_LEVELS && k <= PRIORITY_LEVELS
    ensures k <= r <= PRIORITY_LEVELS
    ensures r < PRIORITY_LEVELS ==> levels[r] != []
    ensures forall j | k <= j < r :: levels[j] == []
    decreases PRIORITY_LEVELS - k
  {
    if k < PRIORITY_LEVELS && levels[k] == [] then FirstLevel(levels, k + 1) else k
  }

  predicate InQueue(levels: seq<seq<TaskId>>, t: TaskId) {
    exists k | 0 <= k < |levels| :: t in levels[k]
  }

  /** The entries of a wait queue, in order. */
  function Entries(waiters: map<QueueId, seq<TaskId>>, q: QueueId): seq<TaskId> {
    if q in waiters then waiters[q] else []
  }

  // ---- actors ---------------------------------------------------------------------

  /** A thread of control: the interrupt handler, or a task. */
  datatype Actor = Handler | Thread(task: TaskId)

  function ActOf(s: State, a: Actor): Activity {
    match a
    case Handler => if s.irq.Some? then s.irq.value else Outside
    case Thread(t) => if t in s.tasks then s.tasks[t].act else Outside
  }

  /** The thread of control that runs next: the handler if there is one, else the current task. */
  predicate HasActor(s: State) {
    s.irq.Some? || (s.mode == InTask && s.current.Some? && s.current.value in s.tasks)
  }

  function ActorOf(s: State): Actor
    requires HasActor(s)
  {
    if s.irq.Some? then Handler else Thread(s.current.value)
  }

  function WithAct(s: State, act: Activity): State
    requires HasActor(s)
  {
    if s.irq.Some? then s.(irq := Some(act))
    else s.(tasks := s.tasks[s.current.value := s.tasks[s.current.value].(act := act)])
  }

  function Todo(act: Activity): seq<TaskId> {
    match act
    case Waking(todo) => todo
    case Pushing(_, _, todo) => todo
    case _ => []
  }

  /** The activity of a waker with `todo` still to be woken. */
  function WakeRest(todo: seq<TaskId>): Activity {
    if todo == [] then Outside else Waking(todo)
  }

  predicate RunsTask(s: State) {
    s.mode == InTask && s.irq.None? && s.current.Some? && s.current.value in s.tasks
  }

  function Me(s: State): Task
    requires RunsTask(s)
  {
    s.tasks[s.current.value]
  }

  // ---- the steps --------------------------------------------------------------------

  datatype Step =
    | Admit(task: TaskId)
    | StartRun
    | Enqueue(queue: QueueId)     // wait: push the current task on a wait queue
    | Block                       // wait: block_current, up to the register switch
    | LeaveWait                   // wait: drop an entry a wakeup left behind
    | Yield
    | Exit
    | PopOne(queue: QueueId)      // wake_one: pop the head
    | PopAll(queue: QueueId)      // wake_all: drain the queue
    | WakeNext                    // wake: the section under the task's lock
    | PushWoken                   // wake: the section under the run queue's lock
    | IrqEnter
    | IrqExit
    | Tick                        // on_timer_tick
    | Preempt                     // resched_if_needed
    | SwitchContext               // registers saved, idle context running
    | Requeue                     // run: deal with `previous`
    | Dispatch                    // run: pop and switch to the next task, or wait
    | WaitOver                    // run: back from wfi
    | ResumeExited                // control returning to a task past its exit

  predicate Enabled(s: State, step: Step) {
    |s.levels| == PRIORITY_LEVELS &&
    match step
    case Admit(t) => t !in s.tasks && (s.mode == Boot || (RunsTask(s) && Me(s).act.Outside?))
    case StartRun => s.mode == Boot
    case Enqueue(q) => RunsTask(s) && Me(s).act.Outside?
    case Block => RunsTask(s) && Me(s).act.Queued?
    case LeaveWait => RunsTask(s) && Me(s).act.Parked?
    case Yield => RunsTask(s) && Me(s).act.Outside?
    case Exit => RunsTask(s) && Me(s).act.Outside?
    case PopOne(q) => HasActor(s) && ActOf(s, ActorOf(s)).Outside?
    case PopAll(q) => HasActor(s) && ActOf(s, ActorOf(s)).Outside?
    case WakeNext =>
      && HasActor(s) && ActOf(s, ActorOf(s)).Waking?
      && ActOf(s, ActorOf(s)).todo != [] && ActOf(s, ActorOf(s)).todo[0] in s.tasks
    case PushWoken => HasActor(s) && ActOf(s, ActorOf(s)).Pushing?
    case IrqEnter => s.irq.None? && (s.mode == InTask || s.mode == IdleWait)
    case IrqExit => s.irq == Some(Outside)
    case Tick => s.irq == Some(Outside) && (s.current.Some? ==> s.current.value in s.tasks)
    case Preempt => RunsTask(s) && Me(s).needsResched
    case SwitchContext => s.mode == Switching && s.previous.Some? && s.previous.value in s.tasks
    case Requeue => s.mode == IdleTop && (s.previous.Some? ==> s.previous.value in s.tasks)
    case Dispatch => s.mode == IdlePick && forall k | 0 <= k < |s.levels| :: s.levels[k] != [] ==>
        s.levels[k][0] in s.tasks
    case WaitOver => s.mode == IdleWait && s.irq.None?
    case ResumeExited => RunsTask(s) && Me(s).act.Exited?
  }

  /** switch_to_idle up to the register switch, with `act` the point the task has reached. */
  function SwitchAway(s: State, want: TaskState, act: Activity): State
    requires RunsTask(s)
  {
    var t := s.current.value;
    var me := s.tasks[t].(act := act);
    var me' := if want == Blocked && me.wakeupPending then me.(wakeupPending := false, state := Ready)
               else me.(state := want);
    s.(tasks := s.tasks[t := me'], current := None, previous := Some(t), mode := Switching)
  }

  function Wake(s: State, t: TaskId, rest: seq<TaskId>): State
    requires HasActor(s) && t in s.tasks
  {
    var task := s.tasks[t];
    if task.state != Blocked then
      WithAct(s.(tasks := s.tasks[t := task.(wakeupPending := true)]), WakeRest(rest))
    else
      var level := if task.level == 0 then 0 else task.level - 1;
      WithAct(s.(tasks := s.tasks[t := task.(state := Ready, level := level, ticks := 0)]), Pushing(t, level, rest))
  }

  /** The position of `t` among the entries, or their number. */
  function Position(entries: seq<TaskId>, t: TaskId): (i: nat)
    ensures i <= |entries|
    ensures i < |entries| ==> entries[i] == t
    ensures i == |entries| ==> t !in entries
  {
    if entries == [] || entries[0] == t then 0 else 1 + Position(entries[1..], t)
  }

  function WithoutEntry(entries: seq<TaskId>, t: TaskId): seq<TaskId> {
    var i := Position(entries, t);
    if i < |entries| then entries[..i] + entries[i + 1..] else entries
  }

  function TimerTick(task: Task): Task {
    var ticks := task.ticks + 1;
    if ticks >= QUANTA_PER_LEVEL then task.(level := Clamp(task.level + 1), ticks := 0, needsResched := true)
    else task.(ticks := ticks, needsResched := true)
  }

  function Take(s: State, step: Step): State
    requires Enabled(s, step)
  {
    match step
    case Admit(t) => s.(tasks := s.tasks[t := NewTask], levels := QueuePush(s.levels, t, 0))
    case StartRun => s.(mode := IdleTop)
    case Enqueue(q) =>
      WithAct(s.(waiters := s.waiters[q := Entries(s.waiters, q) + [s.current.value]]), Queued(q))
    case Block => SwitchAway(s, Blocked, Parked(Me(s).act.queue))
    case LeaveWait =>
      var q := Me(s).act.queue;
      WithAct(s.(waiters := s.waiters[q := WithoutEntry(Entries(s.waiters, q), s.current.value)]), Outside)
    case Yield => SwitchAway(s, Ready, Outside)
    case Exit => SwitchAway(s, Zombie, Exited)
    case PopOne(q) =>
      if Entries(s.waiters, q) == [] then s
      else WithAct(s.(waiters := s.waiters[q := Entries(s.waiters, q)[1..]]), Waking([Entries(s.waiters, q)[0]]))
    case PopAll(q) => WithAct(s.(waiters := s.waiters[q := []]), WakeRest(Entries(s.waiters, q)))
    case WakeNext =>
      var todo := ActOf(s, ActorOf(s)).todo;
      Wake(s, todo[0], todo[1..])
    case PushWoken =>
      var act := ActOf(s, ActorOf(s));
      WithAct(s.(levels := QueuePush(s.levels, act.target, act.level)), WakeRest(act.todo))
    case IrqEnter => s.(irq := Some(Outside))
    case IrqExit => s.(irq := None)
    case Tick =>
      if s.current.None? then s
      else s.(tasks := s.tasks[s.current.value := TimerTick(s.tasks[s.current.value])])
    case Preempt =>
      var t := s.current.value;
      SwitchAway(s.(tasks := s.tasks[t := s.tasks[t].(needsResched := false)]), Ready, s.tasks[t].act)
    case SwitchContext =>
      var t := s.previous.value;
      s.(tasks := s.tasks[t := s.tasks[t].(saved := true)], mode := IdleTop)
    case Requeue =>
      if s.previous.None? then s.(mode := IdlePick)
      else
        var t := s.previous.value;
        (match s.tasks[t].state
         case Ready => s.(levels := QueuePush(s.levels, t, s.tasks[t].level), previous := None, mode := IdlePick)
         case Running => s.(mode := Panicked)
         case _ => s.(previous := None, mode := IdlePick))
    case Dispatch =>
      var k := FirstLevel(s.levels, 0);
      if k == PRIORITY_LEVELS then s.(mode := IdleWait)
      else
        var t := s.levels[k][0];
        s.(tasks := s.tasks[t := s.tasks[t].(state := Running, needsResched := false, saved := false)],
           levels := s.levels[k := s.levels[k][1..]], current := Some(t), mode := InTask)
    case WaitOver => s.(mode := IdleTop)
    case ResumeExited => s.(mode := Panicked)
  }

  predicate Initial(s: State) {
    && s.tasks == map[] && s.levels == [[], [], []] && s.current.None? && s.previous.None?
    && s.mode == Boot && s.irq.None? && s.waiters == map[]
  }

  ghost predicate StepAt(run: seq<State>, steps: seq<Step>, i: nat)
    requires i < |steps| && |run| == |steps| + 1
  {
    Enabled(run[i], steps[i]) && run[i + 1] == Take(run[i], steps[i])
  }

  /** `run` is a sequence of states from an initial one, each one step after the last. */
  ghost predicate IsRun(run: seq<State>, steps: seq<Step>) {
    && |run| == |steps| + 1
    && Initial(run[0])
    && forall i | 0 <= i < |steps| :: StepAt(run, steps, i)
  }
}
