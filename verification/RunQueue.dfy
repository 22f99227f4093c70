/** runqueue.c: running queued tasks up to a limit. */
module RunQueue {
  import opened RunQueueSpec
  import opened RunQueueAwake
  import opened RunQueueKill

  class Queue {
    const max: int
    const emptyCb: bool
    /** tasks_active and tasks_inactive. */
    var active: seq<Task>
    var inactive: seq<Task>
    var running: int
    var stopped: bool
    var empty: bool
    var timer: Timer
    /** The calls that have not returned, innermost first. */
    var stack: seq<Frame>
    ghost var tasks: set<Task>
    /** The tasks marked cancelled, and those whose timeout is pending. */
    ghost var cancelled: set<Task>
    ghost var timing: set<Task>

    ghost function View(): State
      reads this
    {
      State(active, inactive, stopped, empty, timer, stack, cancelled, timing)
    }

    ghost function Limits(): Config { Config(max, emptyCb) }

    /** The count, the lists and the flags of the tasks agree. */
    ghost predicate Valid()
      reads this, tasks
    {
      && Ok(View()) && running == |active| && (timer == Empty ==> emptyCb)
      && (forall t :: t in active ==> t in tasks) && (forall t :: t in inactive ==> t in tasks)
      && (forall t :: t in tasks ==> Marked(t)) && cancelled <= tasks && timing <= tasks
    }

    ghost predicate Marked(t: Task)
      reads this, t
    {
      && (t.queued <==> t in active || t in inactive) && (t.running <==> t in active)
      && (t.cancelled <==> t in cancelled) && (t.timing <==> t in timing) && (t.timing ==> t.running)
    }

    /** `runqueue_init`, of a queue whose memory is zero apart from its settings. */
    constructor (max: int, emptyCb: bool)
      ensures this.max == max && this.emptyCb == emptyCb && Valid() && View() == Idle && tasks == {}
    {
      this.max, this.emptyCb := max, emptyCb;
      active, inactive, running, stopped, empty, timer, stack := [], [], 0, false, false, Off, [];
      tasks, cancelled, timing := {}, {}, {};
    }

    /** Tasks that an operation on `t` leaves alone. */
    twostate lemma OthersMarked(t: Task)
      requires tasks == old(tasks) && forall u :: u in tasks && u != t ==> old(Marked(u)) && unchanged(u)
      requires forall u :: u != t ==> (u in active <==> u in old(active)) && (u in inactive <==> u in old(inactive))
      requires forall u :: u != t ==> (u in cancelled <==> u in old(cancelled)) && (u in timing <==> u in old(timing))
      ensures forall u :: u in tasks && u != t ==> Marked(u)
    {
    }

    // ----- parts of the operations

    /** `runqueue_start_next`. */
    method ArmStart()
      requires Valid()
      modifies `timer
      ensures Valid() && View() == Arm(old(View()))
    {
      hide Fine, Distinct, Disjoint;
      if empty { return; }
      timer := Start;
    }

    /** `runqueue_task_complete` of a queued task, up to its callback. */
    method CompleteStart(t: Task)
      requires Valid() && t in tasks && t.queued && (stack != [] ==> !stack[0].KillActive?)
      modifies this, t
      ensures Valid() && tasks == old(tasks) && View() == Completed(old(View()), t)
      ensures !t.queued && !t.timing && !t.cancelled
    {
      hide Ok, Without, Shifted;
      ghost var s := View();
      CompletedOk(s, t);
      Unmark(t);
      Removal(s, t);
      stack := [Completing(t)] + Shifted(stack, active, inactive, t);
      active, inactive := Without(active, t), Without(inactive, t);
      OthersMarked(t);
    }

    /** The flags, the timeout and the count when a task leaves the queue. */
    method Unmark(t: Task)
      requires Marked(t)
      modifies `running, `cancelled, `timing, t
      ensures running == old(running) - if t in active then 1 else 0
      ensures cancelled == old(cancelled) - {t} && timing == old(timing) - {t}
      ensures !t.queued && !t.running && !t.cancelled && !t.timing
    {
      if t.running {
        running := running - 1;
      }
      t.timing, t.queued, t.running, t.cancelled := false, false, false, false;
      cancelled, timing := cancelled - {t}, timing - {t};
    }

    /** The first pending task becomes the last active one. */
    method Begin()
      requires Valid() && Needs(Limits(), View()) && Settled(stack)
      modifies this, tasks
      ensures Valid() && tasks == old(tasks) && View() == Begun(old(View()))
      ensures old(inactive)[0].timing <==> old(inactive)[0].runTimeout
    {
      hide Fine, Distinct, Disjoint, AllMoved, Behind;
      BegunKeeps(Limits(), View());
      Promotion(active, inactive);
      var t := inactive[0];
      stack := [RunWait(t)] + AllMoved(stack, false, t, Behind(inactive, t));
      inactive := inactive[1..];
      active := active + [t];
      t.running := true;
      running := running + 1;
      if t.runTimeout {
        t.timing, timing := true, timing + {t};
      }
    }

    /** The body of `__runqueue_start_next`, up to the callback of a task. */
    method StartNext()
      requires Valid() && Settled(stack)
      modifies this, tasks
      ensures Valid() && tasks == old(tasks) && View() == StartedNext(Limits(), old(View()))
      ensures if !old(stopped) && old(inactive) != [] && (max == 0 || |old(active)| < max) then
                && active == old(active) + [old(inactive)[0]] && inactive == old(inactive)[1..]
                && stack != [] && stack[0] == RunWait(old(inactive)[0]) && timer == old(timer)
                && (old(inactive)[0].timing <==> old(inactive)[0].runTimeout)
              else
                && active == old(active) && inactive == old(inactive) && stack == old(stack)
                && (empty <==> old(empty) || (active == [] && inactive == []))
                && timer == if emptyCb && !old(empty) && active == [] && inactive == [] then Empty else old(timer)
    {
      hide Fine, Distinct, Disjoint, Begun;
      StartedIs(Limits(), View());
      if !stopped && inactive != [] && !(max != 0 && running >= max) {
        Begin();
        return;
      }
      if !empty && active == [] && inactive == [] {
        empty := true;
        if emptyCb {
          timer := Empty;
        }
      }
    }

    /** The lists and the flags of a new task, and the timer. */
    method Enlist(t: Task, run: bool, first: bool)
      requires Valid() && t in tasks && !t.queued
      modifies `active, `inactive, `running, `empty, `timer, `cancelled, t
      ensures Valid() && View() == Added(old(View()), t, run, first)
    {
      hide Fine, Distinct, Disjoint, Listed;
      AddedOk(Limits(), View(), t, run, first);
      Listing(if run then active else inactive, t, first);
      if run {
        running := running + 1;
        active := Listed(active, t, first);
      } else {
        inactive := Listed(inactive, t, first);
      }
      t.cancelled, cancelled := false, cancelled - {t};
      t.queued := true;
      t.running := run;
      empty := false;
      timer := Start;
    }

    /** `runqueue_task_cancel` of a queued task, up to a callback. */
    method CancelStart(t: Task)
      requires Valid() && t in tasks && t.queued
               && (stack != [] ==> !stack[0].KillActive? && (t.running ==> Above(stack[0], CancelWait(t))))
      modifies this, t
      ensures Valid() && tasks == old(tasks) && View() == Cancelled(old(View()), t)
      ensures old(t.running) ==> t.cancelled && t.queued && (t.timing <==> old(t.timing) || t.cancelTimeout)
      ensures !old(t.running) ==> !t.queued
    {
      hide Distinct, Disjoint, Completed;
      if !t.running {
        CompleteStart(t);
        return;
      }
      FinePush(CancelWait(t), stack, active, inactive);
      t.cancelled, cancelled := true, cancelled + {t};
      if t.cancelTimeout {
        t.timing, timing := true, timing + {t};
      }
      stack := [CancelWait(t)] + stack;
    }

    /** `runqueue_task_kill` of a queued task, up to the first callback. */
    method KillStart(t: Task)
      requires Valid() && t in tasks && t.queued && (stack != [] ==> Waits(stack[0]) || stack[0].KillActive?)
      modifies this, t
      ensures Valid() && tasks == old(tasks) && View() == Killed(old(View()), t)
      ensures !t.queued && !t.timing && !t.cancelled
    {
      hide Distinct, Disjoint, Completed, Fine;
      FinePush(KillAfter(t, t.running), stack, active, inactive);
      stack := [KillAfter(t, t.running)] + stack;
      CompleteStart(t);
    }

    /** The innermost call goes on. */
    method Step()
      requires Valid() && stack != [] && !Waits(stack[0])
      modifies this, tasks
      ensures Valid() && tasks == old(tasks) && View() == Stepped(old(View()))
    {
      hide Distinct, Disjoint, Completed, Fine, Without, Behind, First, Killed, Cancelled;
      ghost var s := View();
      StepKeeps(Limits(), s);
      TopParked(s);
      Rest(s);
      match stack[0]
      case KillAfter(t, running) =>
        if running {
          Replace(s, KillWait(t));
          stack := [KillWait(t)] + stack[1..];
        } else {
          stack := stack[1..];
          ArmStart();
        }
      case CancelLoop(act, next) =>
        if next == null {
          stack := stack[1..];
        } else {
          var behind := Behind(if act then active else inactive, next);
          Advance(s, behind, next);
          stack := [CancelLoop(act, behind)] + stack[1..];
          CancelStart(next);
        }
      case KillActive =>
        if active != [] {
          KillStart(active[0]);
        } else {
          stack := [KillPending(First(inactive))] + stack[1..];
        }
      case KillPending(next) =>
        if next == null {
          stack := stack[1..];
          timer := Off;
        } else {
          var behind := Behind(inactive, next);
          Advance(s, behind, next);
          stack := [KillPending(behind)] + stack[1..];
          CompleteStart(next);
        }
    }

    /** The calls that wait for nothing go on until one waits for a callback. */
    method Unwind()
      requires Valid()
      modifies this, tasks
      ensures Valid() && tasks == old(tasks) && View() == Unwound(old(View()))
    {
      hide Ok, Stepped;
      while !Settled(stack)
        invariant Valid() && tasks == old(tasks) && Unwound(View()) == Unwound(old(View()))
        decreases |stack|, if stack != [] && stack[0].KillActive? then 1 else 0, if Settled(stack) then 0 else 1
      {
        UnwindOne(View());
        StepShrinks(View());
        Step();
        if Settled(stack) { break; }
      }
      SettledStays(View());
    }

    // ----- what callers and the event loop do

    /** `_runqueue_task_add`. A task is in danger exactly if it becomes the first pending
        one while a kill is exposed; otherwise no wakeup is lost. */
    method Add(t: Task, run: bool, first: bool)
      requires Valid() && Settled(stack) && (t !in tasks ==> !t.queued && !t.running && !t.cancelled && !t.timing)
      modifies this, t
      ensures Valid() && tasks == old(tasks) + {t} && t.queued == (old(t.queued) || t.run || run)
      ensures View() == if old(t.queued) || (!t.run && !run) then old(View()) else Added(old(View()), t, run, first)
      ensures !old(t.queued) && (t.run || run) ==>
                && active == (if !run then old(active) else if first then [t] + old(active) else old(active) + [t])
                && inactive == (if run then old(inactive) else if first then [t] + old(inactive)
                                else old(inactive) + [t])
                && !empty && timer == Start && stack == old(stack) && !t.cancelled && t.timing == old(t.timing)
      ensures Bounded(Limits(), old(View())) && !run ==> Bounded(Limits(), View())
      ensures Awake(Limits(), old(View())) ==>
        var bad := inactive != old(inactive) && (first || old(inactive) == []) && Exposed(stack);
        (Awake(Limits(), View()) <==> !bad) && (bad ==> Stuck(stack, inactive))
    {
      hide Distinct, Disjoint, Fine, Awake, Stuck, Exposed;
      tasks := tasks + {t};
      if t.queued { return; }
      if !t.run && !run { return; }
      ghost var s := View();
      AddedOk(Limits(), s, t, run, first);
      if Awake(Limits(), s) { AddedAwake(Limits(), s, t, run, first); }
      Grew(s.inactive, t, first);
      Enlist(t, run, first);
    }

    /** `runqueue_task_complete`. */
    method Complete(t: Task)
      requires Valid() && Settled(stack) && t in tasks
      modifies this, tasks
      ensures Valid() && Settled(stack) && tasks == old(tasks) && Keeps(Limits(), old(View()), View())
      ensures !t.queued && View() == if old(t.queued) then Completed(old(View()), t) else old(View())
      ensures old(t.queued) ==> stack != [] && stack[0] == Completing(t) && timer == old(timer)
    {
      hide Ok, Awake, Shifted, Without;
      if !t.queued { return; }
      CompletedKeeps(Limits(), View(), t);
      CompleteStart(t);
    }

    /** `runqueue_task_cancel`. */
    method Cancel(t: Task)
      requires Valid() && Settled(stack) && t in tasks
      modifies this, tasks
      ensures Valid() && Settled(stack) && tasks == old(tasks) && Keeps(Limits(), old(View()), View())
      ensures View() == if old(t.queued) then Cancelled(old(View()), t) else old(View())
      ensures (old(t.running) ==> t.cancelled && t.queued) && (!old(t.running) ==> !t.queued)
      ensures old(t.running) ==>
                && stack == [CancelWait(t)] + old(stack) && active == old(active) && inactive == old(inactive)
                && timer == old(timer) && (t.timing <==> old(t.timing) || t.cancelTimeout)
      ensures old(t.queued) && !old(t.running) ==>
                stack != [] && stack[0] == Completing(t) && active == old(active) && timer == old(timer)
    {
      hide Ok, Awake, Cancelled, Without, Shifted;
      CancelledIs(View(), t);
      if !t.queued { return; }
      CancelledKeeps(Limits(), View(), t);
      CancelledTop(View(), t);
      CancelStart(t);
    }

    /** `runqueue_task_kill`. */
    method Kill(t: Task)
      requires Valid() && Settled(stack) && t in tasks
      modifies this, tasks
      ensures Valid() && Settled(stack) && tasks == old(tasks) && Keeps(Limits(), old(View()), View())
      ensures !t.queued && View() == if old(t.queued) then Killed(old(View()), t) else old(View())
      ensures old(t.queued) ==>
                |stack| > 1 && stack[0] == Completing(t) && stack[1] == KillAfter(t, old(t.running))
                    && timer == old(timer)
    {
      hide Ok, Awake, Killed;
      KilledIs(View(), t);
      if !t.queued { return; }
      KilledKeeps(Limits(), View(), t);
      KilledTop(View(), t);
      KillStart(t);
    }

    /** `runqueue_stop`. */
    method Stop()
      requires Valid() && Settled(stack)
      modifies this, tasks
      ensures Valid() && Settled(stack) && tasks == old(tasks) && Keeps(Limits(), old(View()), View())
      ensures View() == old(View()).(stopped := true)
    {
      hide Fine, Distinct, Disjoint, Awake;
      ResumedKeeps(Limits(), View());
      stopped := true;
    }

    /** `runqueue_resume`. */
    method Resume()
      requires Valid() && Settled(stack)
      modifies this, tasks
      ensures Valid() && Settled(stack) && tasks == old(tasks) && Keeps(Limits(), old(View()), View())
      ensures View() == Resumed(old(View()))
      ensures !stopped && timer == (if empty then old(timer) else Start) && empty == old(empty)
    {
      hide Fine, Distinct, Disjoint, Awake;
      ResumedKeeps(Limits(), View());
      stopped := false;
      ArmStart();
    }

    /** `runqueue_cancel_active` and `runqueue_cancel_pending`. */
    method CancelAll(act: bool)
      requires Valid() && Settled(stack)
      modifies this, tasks
      ensures Valid() && Settled(stack) && tasks == old(tasks) && Keeps(Limits(), old(View()), View())
      ensures View() == CancelledAll(old(View()), act)
    {
      hide Fine, Distinct, Disjoint, Awake, First, Unwound;
      LoopsKeep(Limits(), View(), act);
      var l := if act then active else inactive;
      FirstIn(l);
      FinePush(CancelLoop(act, First(l)), stack, active, inactive);
      stack := [CancelLoop(act, First(l))] + stack;
      Unwind();
    }

    /** `runqueue_kill`. */
    method KillAll()
      requires Valid() && Settled(stack)
      modifies this, tasks
      ensures Valid() && Settled(stack) && tasks == old(tasks) && Keeps(Limits(), old(View()), View())
      ensures View() == KilledAll(old(View()))
    {
      hide Fine, Distinct, Disjoint, Awake, Unwound;
      LoopsKeep(Limits(), View(), true);
      FinePush(KillActive, stack, active, inactive);
      stack := [KillActive] + stack;
      Unwind();
    }

    /** The timer of the queue fires. */
    method FireTimer()
      requires Valid() && Settled(stack) && timer != Off
      modifies this, tasks
      ensures Valid() && Settled(stack) && tasks == old(tasks) && Keeps(Limits(), old(View()), View())
      ensures View() == Fired(Limits(), old(View()))
      ensures old(timer) == Empty ==>
                && emptyCb && old(active) == [] && old(inactive) == [] && active == [] && inactive == []
                && stack == [EmptyWait] + old(stack) && timer == Off
      ensures old(timer) == Start ==>
              if !old(stopped) && old(inactive) != [] && (max == 0 || |old(active)| < max) then
                && active == old(active) + [old(inactive)[0]] && inactive == old(inactive)[1..]
                && stack != [] && stack[0] == RunWait(old(inactive)[0]) && timer == Off
                && (old(inactive)[0].timing <==> old(inactive)[0].runTimeout)
              else
                && active == old(active) && inactive == old(inactive) && stack == old(stack)
                && (empty <==> old(empty) || (active == [] && inactive == []))
                && timer == if emptyCb && !old(empty) && active == [] && inactive == [] then Empty else Off
    {
      hide Fine, Distinct, Disjoint, Awake, StartedNext;
      FiredKeeps(Limits(), View());
      StartedIs(Limits(), View().(timer := Off));
      var what := timer;
      timer := Off;
      match what
      case Start =>
        StartNext();
      case Empty =>
        FinePush(EmptyWait, stack, active, inactive);
        stack := [EmptyWait] + stack;
    }

    /** The timeout of a task fires: it is asked to stop, or killed if it was already. */
    method FireTimeout(t: Task)
      requires Valid() && Settled(stack) && t in tasks && t.timing
      modifies this, tasks
      ensures Valid() && Settled(stack) && tasks == old(tasks) && Keeps(Limits(), old(View()), View())
      ensures View() == TimedOut(old(View()), t)
      ensures if old(t.cancelled) then
                !t.queued && |stack| > 1 && stack[0] == Completing(t) && stack[1] == KillAfter(t, true)
              else
                && t.cancelled && t.queued && stack == [CancelWait(t)] + old(stack)
                && (t.timing <==> t.cancelTimeout)
    {
      hide Fine, Distinct, Disjoint, Awake, Killed, Cancelled;
      TimedOutKeeps(Limits(), View(), t);
      t.timing, timing := false, timing - {t};
      KilledIs(View(), t);
      CancelledIs(View(), t);
      KilledTop(View(), t);
      CancelledTop(View(), t);
      if t.cancelled {
        KillStart(t);
      } else {
        CancelStart(t);
      }
    }

    /** The callback that is running returns. */
    method Return()
      requires Valid() && Settled(stack) && stack != []
      modifies this, tasks
      ensures Valid() && Settled(stack) && tasks == old(tasks) && Keeps(Limits(), old(View()), View())
      ensures View() == Returned(Limits(), old(View()))
      ensures var f, rest := old(stack)[0], old(stack)[1..];
              && (f.RunWait? ==>
                    if !old(stopped) && old(inactive) != [] && (max == 0 || |old(active)| < max) then
                      && active == old(active) + [old(inactive)[0]] && inactive == old(inactive)[1..]
                      && stack != [] && stack[0] == RunWait(old(inactive)[0]) && timer == old(timer)
                      && (old(inactive)[0].timing <==> old(inactive)[0].runTimeout)
                    else
                      && active == old(active) && inactive == old(inactive) && stack == rest
                      && (empty <==> old(empty) || (active == [] && inactive == []))
                      && timer == (if emptyCb && !old(empty) && active == [] && inactive == [] then Empty
                                   else old(timer)))
              && (!f.RunWait? && Settled(rest) ==>
                    && stack == rest && active == old(active) && inactive == old(inactive) && empty == old(empty)
                    && timer == if (f.Completing? || f.KillWait?) && !empty then Start else old(timer))
              && (f.Completing? && rest != [] && rest[0].KillAfter? && rest[0].running ==>
                    && stack == [KillWait(rest[0].task)] + rest[1..]
                    && active == old(active) && inactive == old(inactive)
                    && timer == if empty then old(timer) else Start)
    {
      hide Fine, Distinct, Disjoint, Awake, Unwound, StartedNext;
      ghost var s := View();
      ReturnedKeeps(Limits(), s);
      Rest(s);
      var f := stack[0];
      if f.RunWait? { BelowRun(s); }
      ReturnedIs(Limits(), s);
      stack := stack[1..];
      match f {
        case RunWait(_) =>
          StartNext();
        case Completing(_) =>
          ArmStart();
        case KillWait(_) =>
          ArmStart();
        case CancelWait(_) =>
        case EmptyWait =>
      }
      Unwind();
    }

    /** The main result: if no callback is running and a task may be started, the timer is
        armed for it. */
    lemma NoLostWakeup()
      requires Valid() && Awake(Limits(), View()) && stack == [] && Needs(Limits(), View())
      ensures timer == Start && !empty
    {
    }
  }

  /** The lists without a task, in terms of their members. */
  lemma Removal(s: State, t: Task)
    requires Ok(s) && (t in s.active || t in s.inactive)
    ensures var active, inactive := s.active, s.inactive;
            && (t in active ==> t !in inactive) && t !in Without(active, t) && t !in Without(inactive, t)
            && (forall u :: u != t ==> (u in Without(active, t) <==> u in active))
            && (forall u :: u != t ==> (u in Without(inactive, t) <==> u in inactive))
            && |Without(active, t)| == |active| - if t in active then 1 else 0
  {
    hide Without, Distinct;
    if t in s.active { WithoutIs(s.active, t); }
    if t in s.inactive { WithoutIs(s.inactive, t); }
  }

  lemma Promotion(active: seq<Task>, inactive: seq<Task>)
    requires Distinct(active) && Distinct(inactive) && Disjoint(active, inactive) && inactive != []
    ensures var t := inactive[0];
            && t !in active && t in inactive && t !in inactive[1..] && t in active + [t]
            && (forall u :: u != t ==> (u in inactive[1..] <==> u in inactive))
            && (forall u :: u != t ==> (u in active + [t] <==> u in active))
  {
    hide Without, Distinct;
    WithoutIs(inactive, inactive[0]);
    FirstOut(inactive);
  }

  lemma Listing(l: seq<Task>, t: Task, first: bool)
    ensures t in Listed(l, t, first) && |Listed(l, t, first)| == |l| + 1
    ensures forall u :: u != t ==> (u in Listed(l, t, first) <==> u in l)
  {
  }

  lemma Grew(l: seq<Task>, t: Task, first: bool)
    ensures Listed(l, t, first) != l
  {
    assert |Listed(l, t, first)| == |l| + 1;
  }

  lemma CancelledTop(s: State, t: Task)
    requires Settled(s.stack)
    ensures Settled(Cancelled(s, t).stack)
  {
  }

  lemma KilledTop(s: State, t: Task)
    ensures Settled(Killed(s, t).stack)
  {
  }

  /** The iterator of a loop moves on before its task is cancelled. */
  lemma {:induction false} Advance(s: State, behind: Task?, t: Task)
    requires Ok(s) && s.stack != [] && (s.stack[0].CancelLoop? || s.stack[0].KillPending?) && s.stack[0].next == t
    requires behind == Behind(if s.stack[0].CancelLoop? && s.stack[0].active then s.active else s.inactive, t)
    ensures t in (if s.stack[0].CancelLoop? && s.stack[0].active then s.active else s.inactive)
    ensures Ok(s.(stack := [s.stack[0].(next := behind)] + s.stack[1..]))
    ensures !(s.stack[0].CancelLoop? && s.stack[0].active) ==> t !in s.active
  {
    hide Distinct, Without, Behind, Fine;
    TopParked(s);
    Rest(s);
    var act := s.stack[0].CancelLoop? && s.stack[0].active;
    WithoutIs(if act then s.active else s.inactive, t);
    AdvanceFine(s, s.stack[0].(next := behind));
  }

  lemma AdvanceFine(s: State, g: Frame)
    requires Ok(s) && s.stack != [] && Parked(g, s.active, s.inactive)
    requires (s.stack[0].CancelLoop? && g.CancelLoop?) || (s.stack[0].KillPending? && g.KillPending?)
    ensures Fine([g] + s.stack[1..], s.active, s.inactive)
  {
    var rest := s.stack[1..];
    if rest != [] { assert Above(rest[0], s.stack[0]); }
    FinePush(g, rest, s.active, s.inactive);
  }

  /** Without care: a queue with one pending task is killed, and the callback for its
      completion adds another one. The kill then takes away the timer, and nothing will
      ever start that task. */
  method KillLosesWakeup() returns (q: Queue)
    ensures q.Valid() && q.stack == [] && Needs(q.Limits(), q.View()) && q.timer == Off
  {
    hide Ok, Awake, Unwound, Stuck, Exposed, Keeps, Bounded, KilledAll, Returned, Waits;
    q := new Queue(0, false);
    var t := new Task(true, false, false);
    var u := new Task(true, false, false);
    q.Add(t, false, false);
    assert q.View() == State([], [t], false, false, Start, [], {}, {});
    q.KillAll();
    KillingOne(t);
    q.Add(u, false, false);
    assert q.View() == State([], [u], false, false, Start, [Completing(t), KillPending(null)], {}, {});
    q.Return();
    KillingEnds(q.Limits(), t, u);
  }

  lemma KillingOne(t: Task)
    ensures KilledAll(State([], [t], false, false, Start, [], {}, {})) ==
            State([], [], false, false, Start, [Completing(t), KillPending(null)], {}, {})
  {
    var s := State([], [t], false, false, Start, [], {}, {});
    var s1 := s.(stack := [KillActive]);
    assert s.(stack := [KillActive] + s.stack) == s1;
    UnwindOne(s1);
    var s2 := s.(stack := [KillPending(t)]);
    assert s1.stack[1..] == [] && Stepped(s1) == s2;
    UnwindOne(s2);
    assert s2.stack[1..] == [] && [t][..0] + [t][1..] == [];
    OneMoved(t, null);
    assert [KillPending(null)][1..] == [];
    SettledStays(Stepped(s2));
  }

  lemma KillingEnds(c: Config, t: Task, u: Task)
    ensures Returned(c, State([], [u], false, false, Start, [Completing(t), KillPending(null)], {}, {})) ==
            State([], [u], false, false, Off, [], {}, {})
  {
    var s := State([], [u], false, false, Start, [KillPending(null)], {}, {});
    assert [Completing(t), KillPending(null)][1..] == [KillPending(null)];
    UnwindOne(s);
    SettledStays(Stepped(s));
  }
}
