/** runqueue.c: no task that may be started is ever forgotten, and exactly when one is. */
module RunQueueAwake {
  import opened RunQueueSpec

  /** Calls that settle what becomes of the pending tasks. */
  predicate Decisive(f: Frame) { Restarts(f) || f.KillActive? || f.KillPending? }

  predicate HasDecisive(st: seq<Frame>) { st != [] && (Decisive(st[0]) || HasDecisive(st[1..])) }

  /** A loop that is going to cancel every pending task. */
  predicate Helps(f: Frame, inactive: seq<Task>) {
    f.KillActive? || ((f.KillPending? || (f.CancelLoop? && !f.active)) && f.next == First(inactive))
  }

  /** The outermost decisive call is a kill that has passed over the first pending task,
      and no loop inside it is going to cancel that either. */
  predicate Stuck(st: seq<Frame>, inactive: seq<Task>) {
    st != [] && !Helps(st[0], inactive) && if HasDecisive(st[1..]) then Stuck(st[1..], inactive) else st[0].KillPending?
  }

  /** A task that may be started will be: the timer is armed for it, or a call that has
      not returned yet sees to it. */
  predicate Awake(c: Config, s: State) {
    if HasDecisive(s.stack) then !Stuck(s.stack, s.inactive) else Needs(c, s) ==> s.timer == Start
  }

  // ----- stacks

  lemma {:induction false} NothingPending(st: seq<Frame>, active: seq<Task>)
    requires Fine(st, active, [])
    ensures !Stuck(st, [])
  {
    if st != [] { NothingPending(st[1..], active); }
  }

  lemma {:induction false} MovedDecisive(st: seq<Frame>, act: bool, t: Task, b: Task?)
    ensures HasDecisive(AllMoved(st, act, t, b)) == HasDecisive(st)
  {
    if st != [] { MovedDecisive(st[1..], act, t, b); }
  }

  /** A task leaves the pending list: loops on track stay on track. Unless it is the
      first one, the others do not get on track either. */
  lemma {:induction false} MovedStuck(st: seq<Frame>, inactive: seq<Task>, t: Task)
    requires Distinct(inactive) && t in inactive
    ensures var st' := AllMoved(st, false, t, Behind(inactive, t));
            && (Stuck(st', Without(inactive, t)) ==> Stuck(st, inactive))
            && (First(inactive) != t && Stuck(st, inactive) ==> Stuck(st', Without(inactive, t)))
    decreases |st|
  {
    hide Without, Behind, Distinct, First;
    WithoutIs(inactive, t);
    if st != [] {
      MovedStuck(st[1..], inactive, t);
      MovedDecisive(st[1..], false, t, Behind(inactive, t));
    }
  }

  lemma {:induction false} ActiveStuck(st: seq<Frame>, inactive: seq<Task>, t: Task, b: Task?)
    ensures Stuck(AllMoved(st, true, t, b), inactive) == Stuck(st, inactive)
  {
    if st != [] {
      ActiveStuck(st[1..], inactive, t, b);
      MovedDecisive(st[1..], true, t, b);
    }
  }

  lemma ShiftedStuck(st: seq<Frame>, active: seq<Task>, inactive: seq<Task>, t: Task)
    requires Distinct(inactive) && Disjoint(active, inactive) && (t in active || t in inactive)
    ensures var st' := Shifted(st, active, inactive, t);
            && HasDecisive(st') == HasDecisive(st) && (Stuck(st', Without(inactive, t)) ==> Stuck(st, inactive))
            && (First(inactive) != t && Stuck(st, inactive) ==> Stuck(st', Without(inactive, t)))
  {
    hide Stuck, HasDecisive, AllMoved, Distinct, Behind, First;
    MovedDecisive(st, t in active, t, Behind(if t in active then active else inactive, t));
    if t in active {
      ActiveStuck(st, inactive, t, Behind(active, t));
    } else {
      MovedStuck(st, inactive, t);
    }
  }

  // ----- what every operation keeps

  ghost predicate Keeps(c: Config, s: State, r: State) {
    Ok(r) && (Awake(c, s) ==> Awake(c, r)) && (Bounded(c, s) ==> Bounded(c, r))
  }

  lemma ArmKeeps(c: Config, s: State)
    requires Ok(s)
    ensures Keeps(c, s, Arm(s)) && (Needs(c, s) ==> Arm(s).timer == Start)
  {
    hide Fine, Stuck, HasDecisive;
  }

  lemma CompletedOk(s: State, t: Task)
    requires Ok(s) && (t in s.active || t in s.inactive) && (s.stack != [] ==> !s.stack[0].KillActive?)
    ensures Ok(Completed(s, t)) && |Completed(s, t).active| <= |s.active|
  {
    hide Without, Distinct, Disjoint, Behind, Fine, AllMoved;
    var act := t in s.active;
    DisjointWithout(s.active, s.inactive, t);
    WithoutIs(if act then s.active else s.inactive, t);
    MovedFine(s.stack, s.active, s.inactive, act, t);
    MovedTop(s.stack, act, t, Behind(if act then s.active else s.inactive, t));
    FinePush(Completing(t), Shifted(s.stack, s.active, s.inactive, t), Without(s.active, t), Without(s.inactive, t));
  }

  /** Completing goes on top of anything. */
  lemma FinePush(f: Frame, st: seq<Frame>, active: seq<Task>, inactive: seq<Task>)
    requires Fine(st, active, inactive) && Parked(f, active, inactive)
    requires st != [] ==> Above(st[0], f) && (f.RunWait? ==> Waits(st[0]))
    ensures Fine([f] + st, active, inactive)
  {
    assert ([f] + st)[1..] == st;
  }

  lemma DecisivePush(f: Frame, st: seq<Frame>, inactive: seq<Task>)
    ensures HasDecisive([f] + st) == (Decisive(f) || HasDecisive(st))
    ensures Stuck([f] + st, inactive) ==
            (!Helps(f, inactive) && if HasDecisive(st) then Stuck(st, inactive) else f.KillPending?)
  {
    assert ([f] + st)[1..] == st;
  }

  lemma CompletedKeeps(c: Config, s: State, t: Task)
    requires Ok(s) && (t in s.active || t in s.inactive) && (s.stack != [] ==> !s.stack[0].KillActive?)
    ensures Keeps(c, s, Completed(s, t))
    ensures HasDecisive(Completed(s, t).stack)
    ensures First(s.inactive) != t && Stuck(s.stack, s.inactive) ==>
            Stuck(Completed(s, t).stack, Completed(s, t).inactive)
    ensures !Stuck(s.stack, s.inactive) ==> !Stuck(Completed(s, t).stack, Completed(s, t).inactive)
  {
    hide Without, Distinct, Disjoint, Behind, Fine, Stuck, HasDecisive, First, Shifted;
    CompletedOk(s, t);
    ShiftedStuck(s.stack, s.active, s.inactive, t);
    DecisivePush(Completing(t), Shifted(s.stack, s.active, s.inactive, t), Without(s.inactive, t));
    StuckDecisive(s.stack, s.inactive);
  }

  lemma {:induction false} StuckDecisive(st: seq<Frame>, inactive: seq<Task>)
    ensures Stuck(st, inactive) ==> HasDecisive(st)
  {
  }

  lemma BegunKeeps(c: Config, s: State)
    requires Ok(s) && Needs(c, s) && Settled(s.stack)
    ensures Keeps(c, s, Begun(s))
            && Awake(c, Begun(s)) == !(HasDecisive(s.stack) && Stuck(Begun(s).stack[1..], Begun(s).inactive))
  {
    hide Without, Distinct, Disjoint, Behind, Fine, Stuck, HasDecisive, First, AllMoved;
    var t, st := s.inactive[0], AllMoved(s.stack, false, s.inactive[0], Behind(s.inactive, s.inactive[0]));
    FirstOut(s.inactive);
    MovedFine(s.stack, s.active, s.inactive, false, t);
    MovedStuck(s.stack, s.inactive, t);
    MovedDecisive(s.stack, false, t, Behind(s.inactive, t));
    BegunLists(s.active, s.inactive);
    FineMore(st, s.active, s.inactive[1..], t);
    MovedTop(s.stack, false, t, Behind(s.inactive, t));
    FinePush(RunWait(t), st, s.active + [t], s.inactive[1..]);
    DecisivePush(RunWait(t), st, s.inactive[1..]);
    assert ([RunWait(t)] + st)[1..] == st;
  }

  lemma BegunLists(active: seq<Task>, inactive: seq<Task>)
    requires Distinct(active) && Distinct(inactive) && Disjoint(active, inactive) && inactive != []
    ensures Distinct(active + [inactive[0]]) && Distinct(inactive[1..])
            && Disjoint(active + [inactive[0]], inactive[1..])
  {
    DistinctAdd(active, inactive[0]);
  }

  lemma {:induction false} FineMore(st: seq<Frame>, active: seq<Task>, inactive: seq<Task>, t: Task)
    requires Fine(st, active, inactive)
    ensures Fine(st, active + [t], inactive) && Fine(st, [t] + active, inactive)
    ensures Fine(st, active, inactive + [t]) && Fine(st, active, [t] + inactive)
  {
    if st != [] { FineMore(st[1..], active, inactive, t); }
  }

  lemma MovedTop(st: seq<Frame>, act: bool, t: Task, b: Task?)
    ensures Settled(AllMoved(st, act, t, b)) == Settled(st)
    ensures st != [] ==> AllMoved(st, act, t, b)[0] == Moved(st[0], act, t, b)
  {
  }

  lemma StartedNextKeeps(c: Config, s: State)
    requires Ok(s) && Settled(s.stack)
    ensures Keeps(c, s, StartedNext(c, s)) && Settled(StartedNext(c, s).stack)
    ensures !HasDecisive(s.stack) || !Stuck(s.stack, s.inactive) ==> Awake(c, StartedNext(c, s))
  {
    hide Without, Distinct, Disjoint, Behind, Fine, Stuck, HasDecisive, First, AllMoved;
    if Needs(c, s) {
      BegunKeeps(c, s);
      BegunStuck(s);
    }
  }

  /** The first pending task is gone: whoever was on track still is. */
  lemma BegunStuck(s: State)
    requires Ok(s) && s.inactive != []
    ensures !Stuck(s.stack, s.inactive) ==> !Stuck(Begun(s).stack[1..], Begun(s).inactive)
    ensures Begun(s).stack[0] == RunWait(s.inactive[0])
  {
    hide Without, Distinct, Disjoint, Behind, Fine, Stuck, HasDecisive, First, AllMoved;
    var t := s.inactive[0];
    FirstOut(s.inactive);
    MovedStuck(s.stack, s.inactive, t);
    var st := AllMoved(s.stack, false, t, Behind(s.inactive, t));
    assert ([RunWait(t)] + st)[1..] == st;
  }

  lemma CancelledKeeps(c: Config, s: State, t: Task)
    requires Ok(s) && (t in s.active || t in s.inactive) && Settled(s.stack)
    ensures Keeps(c, s, Cancelled(s, t))
  {
    hide Without, Distinct, Disjoint, Behind, Fine, Stuck, HasDecisive, First, Shifted, Completed;
    if t in s.active {
      FinePush(CancelWait(t), s.stack, s.active, s.inactive);
      DecisivePush(CancelWait(t), s.stack, s.inactive);
    } else {
      CompletedKeeps(c, s, t);
    }
  }

  lemma KilledKeeps(c: Config, s: State, t: Task)
    requires Ok(s) && (t in s.active || t in s.inactive)
             && (s.stack != [] ==> Waits(s.stack[0]) || s.stack[0].KillActive?)
    ensures Keeps(c, s, Killed(s, t))
  {
    hide Without, Distinct, Disjoint, Behind, Fine, Stuck, HasDecisive, First, Shifted, Completed;
    var f, st := KillAfter(t, t in s.active), s.stack;
    FinePush(f, st, s.active, s.inactive);
    DecisivePush(f, st, s.inactive);
    CompletedKeeps(c, s.(stack := [f] + st), t);
  }

  lemma TimedOutKeeps(c: Config, s: State, t: Task)
    requires Ok(s) && (t in s.active || t in s.inactive) && Settled(s.stack)
    ensures Keeps(c, s, TimedOut(s, t))
  {
    hide Distinct, Disjoint, Fine, Stuck, HasDecisive, Completed, Killed, Cancelled;
    var r := s.(timing := s.timing - {t});
    KilledKeeps(c, r, t);
    CancelledKeeps(c, r, t);
  }

  /** The frames below the innermost one. */
  lemma {:induction false} Rest(s: State)
    requires Ok(s) && s.stack != []
    ensures Ok(s.(stack := s.stack[1..]))
    ensures s.inactive == [] ==> !Stuck(s.stack[1..], s.inactive)
  {
    if s.inactive == [] { NothingPending(s.stack[1..], s.active); }
  }

  /** A loop over pending tasks cancels the next one. It makes no difference that the
      iterator leaves the task before that is deleted. */
  lemma {:induction false} LoopKeeps(c: Config, s: State, f: Frame, t: Task)
    requires Ok(s) && s.stack != [] && s.stack[0] == f && t in s.inactive
    requires f == KillPending(t) || f == CancelLoop(false, t)
    ensures var g := if f.KillPending? then KillPending(Behind(s.inactive, t))
            else CancelLoop(false, Behind(s.inactive, t));
            var r := Completed(s.(stack := [g] + s.stack[1..]), t);
            r == Completed(s, t) && Keeps(c, s, r)
  {
    hide Distinct, Disjoint, Behind, Fine, Stuck, HasDecisive, First, Without;
    CompletedKeeps(c, s, t);
    WithoutIs(s.inactive, t);
    assert t !in s.active by { DisjointWithout(s.active, s.inactive, t); }
    var g := if f.KillPending? then KillPending(Behind(s.inactive, t)) else CancelLoop(false, Behind(s.inactive, t));
    assert ([g] + s.stack[1..])[1..] == s.stack[1..];
  }

  lemma StepKeeps(c: Config, s: State)
    requires Ok(s) && s.stack != [] && !Waits(s.stack[0])
    ensures Keeps(c, s, Stepped(s))
  {
    hide Without, Distinct, Disjoint, Behind, Fine, Stuck, HasDecisive, First, Shifted, Completed, Cancelled, Killed;
    var f, rest := s.stack[0], s.stack[1..];
    assert s.stack == [f] + rest;
    Rest(s);
    DecisivePush(f, rest, s.inactive);
    match f
    case KillAfter(t, running) =>
      if running {
        Replace(s, KillWait(t));
      } else {
        ArmKeeps(c, s.(stack := rest));
      }
    case CancelLoop(act, next) =>
      LoopStep(c, s, act, next);
    case KillActive =>
      if s.active != [] {
        KilledKeeps(c, s, s.active[0]);
      } else {
        FirstIn(s.inactive);
        Replace(s, KillPending(First(s.inactive)));
      }
    case KillPending(next) =>
      TopParked(s);
      if next == null {
        FirstNull(s.inactive);
      } else {
        LoopKeeps(c, s, f, next);
      }
  }

  lemma FirstNull(l: seq<Task>)
    ensures First(l) == null <==> l == []
  {
  }

  lemma FirstIn(l: seq<Task>)
    ensures First(l) == null || First(l) in l
  {
  }

  lemma TopParked(s: State)
    requires Ok(s) && s.stack != []
    ensures Parked(s.stack[0], s.active, s.inactive)
  {
  }

  /** Another frame in the place of the innermost one. */
  lemma {:induction false} Replace(s: State, g: Frame)
    requires Ok(s) && s.stack != [] && Parked(g, s.active, s.inactive)
    requires (s.stack[0].KillAfter? && g.KillWait?) || (s.stack[0].KillActive? && g.KillPending?)
             || (s.stack[0].CancelLoop? && g.CancelLoop?)
    ensures Ok(s.(stack := [g] + s.stack[1..]))
    ensures HasDecisive([g] + s.stack[1..]) == (Decisive(g) || HasDecisive(s.stack[1..]))
    ensures Stuck([g] + s.stack[1..], s.inactive) ==
            (!Helps(g, s.inactive) && if HasDecisive(s.stack[1..]) then Stuck(s.stack[1..], s.inactive)
                else g.KillPending?)
  {
    hide Stuck, HasDecisive;
    var rest := s.stack[1..];
    if rest != [] { assert Above(rest[0], s.stack[0]); }
    FinePush(g, rest, s.active, s.inactive);
    DecisivePush(g, rest, s.inactive);
  }

  lemma LoopStep(c: Config, s: State, act: bool, next: Task?)
    requires Ok(s) && s.stack != [] && s.stack[0] == CancelLoop(act, next)
    ensures Keeps(c, s, Stepped(s))
  {
    hide Without, Distinct, Disjoint, Behind, Fine, Stuck, HasDecisive, First, Shifted, Completed;
    var f, rest := s.stack[0], s.stack[1..];
    assert s.stack == [f] + rest;
    Rest(s);
    DecisivePush(f, rest, s.inactive);
    TopParked(s);
    if next == null {
      FirstNull(s.inactive);
    } else if act {
      WithoutIs(s.active, next);
      var g := CancelLoop(act, Behind(s.active, next));
      Replace(s, g);
      FinePush(CancelWait(next), [g] + rest, s.active, s.inactive);
      DecisivePush(CancelWait(next), [g] + rest, s.inactive);
    } else {
      DisjointWithout(s.active, s.inactive, next);
      LoopKeeps(c, s, f, next);
    }
  }

  lemma {:induction false} UnwoundKeeps(c: Config, s: State)
    requires Ok(s)
    ensures Keeps(c, s, Unwound(s))
    decreases |s.stack|, if s.stack != [] && s.stack[0].KillActive? then 1 else 0
  {
    hide Ok, Awake, Bounded, Stepped;
    if !Settled(s.stack) {
      StepKeeps(c, s);
      StepShrinks(s);
      if !Settled(Stepped(s).stack) { UnwoundKeeps(c, Stepped(s)); }
    }
  }

  lemma StepShrinks(s: State)
    requires s.stack != [] && !Waits(s.stack[0])
    ensures var r := Stepped(s).stack;
            Settled(r) || |r| < |s.stack| || (|r| == |s.stack| && s.stack[0].KillActive? && r[0].KillPending?)
  {
  }

  lemma ReturnedKeeps(c: Config, s: State)
    requires Ok(s) && s.stack != [] && Waits(s.stack[0])
    ensures Keeps(c, s, Returned(c, s))
  {
    hide Fine, Stuck, HasDecisive, Unwound, First, Distinct, Disjoint;
    var f, r := s.stack[0], s.(stack := s.stack[1..]);
    assert s.stack == [f] + r.stack;
    Rest(s);
    DecisivePush(f, r.stack, s.inactive);
    var r' := match f
      case RunWait(_) => StartedNext(c, r)
      case Completing(_) => Arm(r)
      case KillWait(_) => Arm(r)
      case _ => r;
    match f {
      case RunWait(_) =>
        assert Settled(r.stack) by { BelowRun(s); }
        StartedNextKeeps(c, r);
      case Completing(_) => ArmKeeps(c, r);
      case KillWait(_) => ArmKeeps(c, r);
      case CancelWait(_) =>
      case EmptyWait =>
    }
    UnwoundKeeps(c, r');
  }

  lemma BelowRun(s: State)
    requires Ok(s) && s.stack != [] && s.stack[0].RunWait?
    ensures Settled(s.stack[1..])
  {
  }

  lemma FiredKeeps(c: Config, s: State)
    requires Ok(s) && Settled(s.stack) && s.timer != Off
    ensures Keeps(c, s, Fired(c, s)) && Settled(Fired(c, s).stack)
  {
    hide Fine, Stuck, HasDecisive, First, Distinct, Disjoint, StartedNext;
    if s.timer == Start {
      StartedNextKeeps(c, s.(timer := Off));
    } else {
      FinePush(EmptyWait, s.stack, s.active, s.inactive);
      DecisivePush(EmptyWait, s.stack, s.inactive);
    }
  }

  lemma LoopsKeep(c: Config, s: State, act: bool)
    requires Ok(s) && Settled(s.stack)
    ensures Keeps(c, s, CancelledAll(s, act)) && Keeps(c, s, KilledAll(s))
  {
    hide Fine, Stuck, HasDecisive, First, Distinct, Disjoint, Unwound;
    var l := if act then s.active else s.inactive;
    var f := CancelLoop(act, First(l));
    FirstIn(l);
    FinePush(f, s.stack, s.active, s.inactive);
    DecisivePush(f, s.stack, s.inactive);
    UnwoundKeeps(c, s.(stack := [f] + s.stack));
    FinePush(KillActive, s.stack, s.active, s.inactive);
    DecisivePush(KillActive, s.stack, s.inactive);
    UnwoundKeeps(c, s.(stack := [KillActive] + s.stack));
  }

  // ----- adding a task

  /** A kill is cancelling the pending tasks, no kill inside it has still to begin with
      that, and no call around it is going to look for tasks to start. */
  predicate Exposed(st: seq<Frame>) {
    st != [] && !st[0].KillActive? && if HasDecisive(st[1..]) then Exposed(st[1..]) else st[0].KillPending?
  }

  /** In front of everything, every loop over the pending tasks passes over it. */
  lemma {:induction false} NewFirst(st: seq<Frame>, active: seq<Task>, inactive: seq<Task>, l: seq<Task>)
    requires Fine(st, active, inactive) && l != [] && l[0] !in inactive
    ensures Stuck(st, l) == Exposed(st)
  {
    if st != [] { NewFirst(st[1..], active, inactive, l); }
  }

  lemma {:induction false} SameFirst(st: seq<Frame>, l: seq<Task>, l': seq<Task>)
    requires First(l) == First(l')
    ensures Stuck(st, l) == Stuck(st, l')
  {
    if st != [] { SameFirst(st[1..], l, l'); }
  }

  lemma {:induction false} ExposedDecisive(st: seq<Frame>)
    ensures Exposed(st) ==> HasDecisive(st)
  {
  }

  lemma AddedOk(c: Config, s: State, t: Task, run: bool, first: bool)
    requires Ok(s) && t !in s.active && t !in s.inactive
    ensures Ok(Added(s, t, run, first)) && (!run && Bounded(c, s) ==> Bounded(c, Added(s, t, run, first)))
  {
    hide Distinct, Fine;
    DistinctAdd(s.active, t);
    DistinctAdd(s.inactive, t);
    FineMore(s.stack, s.active, s.inactive, t);
  }

  /** The task is in danger exactly if it comes first and a kill is exposed. */
  lemma AddedAwake(c: Config, s: State, t: Task, run: bool, first: bool)
    requires Ok(s) && Awake(c, s) && t !in s.active && t !in s.inactive
    ensures var r := Added(s, t, run, first); var bad := !run && (first || s.inactive == []) && Exposed(s.stack);
            && (Awake(c, r) <==> !bad) && (bad ==> Stuck(r.stack, r.inactive))
  {
    hide Distinct, Fine, Stuck, HasDecisive, Exposed;
    ExposedDecisive(s.stack);
    var r := Added(s, t, run, first);
    if run || (!first && s.inactive != []) {
      SameFirst(s.stack, s.inactive, r.inactive);
    } else {
      NewFirst(s.stack, s.active, s.inactive, r.inactive);
    }
  }

  lemma {:induction false} ResumedKeeps(c: Config, s: State)
    requires Ok(s)
    ensures Keeps(c, s, Resumed(s)) && Keeps(c, s, s.(stopped := true))
  {
    hide Distinct, Fine, Stuck, HasDecisive;
  }

  // ----- what becomes of a task in danger

  /** What the environment does: it calls an operation, lets the timer of the queue or of a
      task fire, or a callback returns. */
  datatype Move =
    | Add(t: Task, run: bool, first: bool)
    | Fire
    | TimeOut(t: Task)
    | Stop
    | Resume
    | Complete(t: Task)
    | Cancel(t: Task)
    | Kill(t: Task)
    | CancelAll(active: bool)
    | KillAll
    | Return

  function Moving(c: Config, s: State, m: Move): State {
    if !Settled(s.stack) then s
    else
      match m
      case Add(t, run, first) =>
        if t in s.active || t in s.inactive || (!t.run && !run) then s else Added(s, t, run, first)
      case Fire => if s.timer != Off then Fired(c, s) else s
      case TimeOut(t) => if t in s.timing && t in s.active then TimedOut(s, t) else s
      case Stop => s.(stopped := true)
      case Resume => Resumed(s)
      case Complete(t) => if t in s.active || t in s.inactive then Completed(s, t) else s
      case Cancel(t) => if t in s.active || t in s.inactive then Cancelled(s, t) else s
      case Kill(t) => if t in s.active || t in s.inactive then Killed(s, t) else s
      case CancelAll(act) => CancelledAll(s, act)
      case KillAll => KilledAll(s)
      case Return => if s.stack != [] then Returned(c, s) else s
  }

  function Play(c: Config, s: State, ms: seq<Move>): State
    decreases |ms|
  {
    if ms == [] then s else Play(c, Moving(c, s, ms[0]), ms[1..])
  }

  lemma {:induction false} PlayCat(c: Config, s: State, a: seq<Move>, b: seq<Move>)
    ensures Play(c, s, a + b) == Play(c, Play(c, s, a), b)
    decreases |a|
  {
    hide Moving;
    if a == [] {
      assert a + b == b;
    } else {
      assert (a + b)[1..] == a[1..] + b;
      PlayCat(c, Moving(c, s, a[0]), a[1..], b);
    }
  }

  lemma PlayOne(c: Config, s: State, m: Move)
    ensures Play(c, s, [m]) == Moving(c, s, m)
  {
    hide Moving;
    assert [m][1..] == [];
  }

  /** Calls after which nothing is started and no timer armed. */
  predicate Inert(st: seq<Frame>) {
    st != [] ==> Inert(st[1..]) && (st[0].CancelWait? || st[0].EmptyWait? || (st[0].CancelLoop? && st[0].active))
  }

  /** The kill is over: a task is pending and nothing will start it. */
  predicate Over(s: State) { Inert(s.stack) && s.timer == Off && s.inactive != [] }

  predicate HasRun(st: seq<Frame>) { st != [] && (st[0].RunWait? || HasRun(st[1..])) }

  /** How much is left to do until all calls have returned. */
  function Length(l: seq<Task>, t: Task?): nat { if t == null || t !in l then 0 else |l| - Index(l, t) }

  function Weight(f: Frame, active: seq<Task>): nat {
    match f
    case KillAfter(_, _) => 2
    case CancelLoop(act, next) => 1 + if act then 2 * Length(active, next) else 0
    case _ => 1
  }

  function Work(st: seq<Frame>, active: seq<Task>): nat {
    if st == [] then 0 else Work(st[1..], active) + Weight(st[0], active)
  }

  function Left(s: State): nat { 2 * |s.inactive| + Work(s.stack, s.active) }

  /** The state of a queue that is going to lose a task, or has. */
  predicate Doomed(s: State) { Ok(s) && (Stuck(s.stack, s.inactive) || Over(s)) }

  lemma {:induction false} MovedWork(st: seq<Frame>, active: seq<Task>, t: Task, b: Task?)
    ensures Work(AllMoved(st, false, t, b), active) == Work(st, active)
    ensures HasRun(AllMoved(st, false, t, b)) == HasRun(st)
  {
    if st != [] { MovedWork(st[1..], active, t, b); }
  }

  lemma {:induction false} InertBelow(f: Frame, st: seq<Frame>, active: seq<Task>, inactive: seq<Task>)
    requires Fine([f] + st, active, inactive) && !f.Completing? && !HasDecisive(st)
    ensures Inert(st)
    decreases |st|
  {
    assert ([f] + st)[1..] == st;
    if st != [] {
      assert [st[0]] + st[1..] == st;
      InertBelow(st[0], st[1..], active, inactive);
    }
  }

  lemma {:induction false} InertIs(st: seq<Frame>, inactive: seq<Task>)
    requires Inert(st)
    ensures !HasDecisive(st) && !HasRun(st) && !Stuck(st, inactive)
  {
    if st != [] { InertIs(st[1..], inactive); }
  }

  lemma {:induction false} StuckPending(st: seq<Frame>, active: seq<Task>, inactive: seq<Task>)
    requires Fine(st, active, inactive) && Stuck(st, inactive)
    ensures inactive != []
  {
    if inactive == [] { NothingPending(st, active); }
  }

  lemma LengthBehind(l: seq<Task>, t: Task)
    requires Distinct(l) && t in l
    ensures Length(l, Behind(l, t)) == Length(l, t) - 1
  {
    var i := Index(l, t);
    if i + 1 < |l| {
      assert l[i + 1..][0] == l[i + 1];
      IndexIs(l, i + 1);
    }
  }

  lemma {:induction false} IndexIs(l: seq<Task>, i: nat)
    requires Distinct(l) && i < |l|
    ensures Index(l, l[i]) == i
  {
    var k := Index(l, l[i]);
  }

  /** One step less to do, the same tasks running. */
  ghost predicate Closer(s: State, r: State) {
    Doomed(r) && Left(r) < Left(s) && r.active == s.active && r.stopped == s.stopped
        && HasRun(r.stack) == HasRun(s.stack)
  }

  lemma WorkPush(f: Frame, st: seq<Frame>, active: seq<Task>)
    ensures Work([f] + st, active) == Work([f], active) + Work(st, active)
    ensures HasRun([f] + st) == (f.RunWait? || HasRun(st))
  {
    assert ([f] + st)[1..] == st && [f][1..] == [];
  }

  /** A loop cancels a pending task that is not the first. */
  lemma LoopDoomed(c: Config, s: State, t: Task)
    requires Ok(s) && s.stack != [] && Stuck(s.stack, s.inactive) && t in s.inactive && First(s.inactive) != t
    requires s.stack[0] == KillPending(t) || s.stack[0] == CancelLoop(false, t)
    ensures Closer(s, Stepped(s))
  {
    hide Distinct, Disjoint, Behind, Fine, Stuck, HasDecisive, First, Without, Work, HasRun, AllMoved, Inert;
    LoopKeeps(c, s, s.stack[0], t);
    CompletedKeeps(c, s, t);
    DisjointWithout(s.active, s.inactive, t);
    WithoutIs(s.inactive, t);
    var b := Behind(s.inactive, t);
    MovedWork(s.stack, s.active, t, b);
    WorkPush(Completing(t), AllMoved(s.stack, false, t, b), s.active);
    WorkOne(s.active);
  }

  lemma WorkOne(active: seq<Task>)
    ensures forall f :: Work([f], active) == Weight(f, active)
  {
    hide Weight;
    forall f
      ensures Work([f], active) == Weight(f, active)
    {
      assert [f][1..] == [];
    }
  }

  lemma StepDoomed(c: Config, s: State)
    requires Doomed(s) && s.stack != [] && !Waits(s.stack[0])
    ensures Closer(s, Stepped(s))
  {
    hide Distinct, Disjoint, Behind, Fine, Stuck, HasDecisive, First, Without, Work, HasRun, AllMoved, Inert,
         Cancelled, Completed, Killed, Length;
    var f, rest := s.stack[0], s.stack[1..];
    assert s.stack == [f] + rest;
    Rest(s);
    StepKeeps(c, s);
    DecisivePush(f, rest, s.inactive);
    WorkPush(f, rest, s.active);
    WorkOne(s.active);
    TopParked(s);
    if Stuck(s.stack, s.inactive) {
      StuckPending(s.stack, s.active, s.inactive);
    } else {
      InertTop(s.stack);
    }
    match f
    case KillAfter(t, running) =>
      DecisivePush(KillWait(t), rest, s.inactive);
      WorkPush(KillWait(t), rest, s.active);
    case CancelLoop(act, next) =>
      if next != null && act {
        RunningDoomed(s, next);
      } else if next != null {
        LoopDoomed(c, s, next);
      }
    case KillPending(next) =>
      if next != null {
        LoopDoomed(c, s, next);
      } else if !HasDecisive(rest) {
        InertBelow(f, rest, s.active, s.inactive);
      }
  }

  lemma InertTop(st: seq<Frame>)
    requires Inert(st) && st != []
    ensures Inert(st[1..]) && (st[0].CancelWait? || st[0].EmptyWait? || (st[0].CancelLoop? && st[0].active))
  {
  }

  lemma RunningDoomed(s: State, t: Task)
    requires Doomed(s) && s.stack != [] && s.stack[0] == CancelLoop(true, t) && t in s.active
    ensures Closer(s, Stepped(s))
  {
    hide Distinct, Disjoint, Behind, Fine, Stuck, HasDecisive, First, Without, Work, HasRun, Inert, Length;
    var rest, g := s.stack[1..], CancelLoop(true, Behind(s.active, t));
    var st := [g] + rest;
    assert s.stack == [s.stack[0]] + rest;
    WithoutIs(s.active, t);
    Replace(s, g);
    FinePush(CancelWait(t), st, s.active, s.inactive);
    DecisivePush(s.stack[0], rest, s.inactive);
    DecisivePush(CancelWait(t), st, s.inactive);
    WorkPush(s.stack[0], rest, s.active);
    WorkPush(g, rest, s.active);
    WorkPush(CancelWait(t), st, s.active);
    WorkOne(s.active);
    LengthBehind(s.active, t);
    if Inert(s.stack) {
      InertTop(s.stack);
      InertPush(g, rest);
      InertPush(CancelWait(t), st);
    }
  }

  lemma InertPush(f: Frame, st: seq<Frame>)
    requires Inert(st) && (f.CancelWait? || f.EmptyWait? || (f.CancelLoop? && f.active))
    ensures Inert([f] + st)
  {
    assert ([f] + st)[1..] == st;
  }

  lemma {:induction false} UnwoundDoomed(c: Config, s: State)
    requires Doomed(s)
    ensures var r := Unwound(s);
            && Doomed(r) && Left(r) <= Left(s) && r.active == s.active && r.stopped == s.stopped
               && HasRun(r.stack) == HasRun(s.stack)
    decreases |s.stack|, if s.stack != [] && s.stack[0].KillActive? then 1 else 0
  {
    hide Ok, Stepped, Left, Over, Stuck, HasRun;
    if !Settled(s.stack) {
      StepDoomed(c, s);
      StepShrinks(s);
      if !Settled(Stepped(s).stack) { UnwoundDoomed(c, Stepped(s)); }
    }
  }

  lemma {:induction false} ReturnDoomed(c: Config, s: State)
    requires Doomed(s) && s.stack != [] && Waits(s.stack[0]) && (s.stopped || !HasRun(s.stack))
    ensures var r := Returned(c, s);
            && Doomed(r) && Left(r) < Left(s) && r.active == s.active && r.stopped == s.stopped
            && Settled(r.stack) && HasRun(r.stack) == HasRun(s.stack[1..])
    ensures s.stack[0].RunWait? ==> Returned(c, s) == s.(stack := s.stack[1..])
  {
    hide Distinct, Disjoint, Fine, Stuck, HasDecisive, First, Work, HasRun, Inert, Unwound;
    var f, r := s.stack[0], s.(stack := s.stack[1..]);
    assert s.stack == [f] + r.stack;
    Rest(s);
    DecisivePush(f, r.stack, s.inactive);
    WorkPush(f, r.stack, s.active);
    WaitWork(f, s.active);
    if Stuck(s.stack, s.inactive) {
      StuckPending(s.stack, s.active, s.inactive);
    } else {
      InertTop(s.stack);
    }
    var r' := match f
      case RunWait(_) => StartedNext(c, r)
      case Completing(_) => Arm(r)
      case KillWait(_) => Arm(r)
      case _ => r;
    UnwoundDoomed(c, r');
    if f.RunWait? {
      BelowRun(s);
      SettledStays(r');
    }
  }

  lemma SettledStays(s: State)
    requires Settled(s.stack)
    ensures Unwound(s) == s
  {
  }

  lemma WaitWork(f: Frame, active: seq<Task>)
    requires Waits(f)
    ensures Work([f], active) == 1
  {
    assert [f][1..] == [];
  }

  /** With the queue stopped, callbacks return until none of them is a run() callback. */
  lemma {:induction false} Calm(c: Config, s: State) returns (ms: seq<Move>)
    requires Ok(s) && Stuck(s.stack, s.inactive) && Settled(s.stack) && s.stopped
    ensures var r := Play(c, s, ms);
            Ok(r) && Stuck(r.stack, r.inactive) && Settled(r.stack) && !HasRun(r.stack) && r.active == s.active
    decreases Left(s)
  {
    hide Ok, Stuck, HasDecisive, Left, Play, Returned, Inert, HasRun;
    ms := [];
    NoMoves(c, s);
    if HasRun(s.stack) {
      RunFirst(s);
      ReturnDoomed(c, s);
      var r := Returned(c, s);
      PlayOne(c, s, Return);
      StillStuck(c, s);
      var more := Calm(c, r);
      ms := [Return] + more;
      PlayCat(c, s, [Return], more);
    }
  }

  lemma NoMoves(c: Config, s: State)
    ensures Play(c, s, []) == s
  {
  }

  lemma RunFirst(s: State)
    requires HasRun(s.stack)
    ensures s.stack != [] && HasDecisive(s.stack)
  {
    RunDecisive(s.stack);
  }

  lemma {:induction false} RunDecisive(st: seq<Frame>)
    ensures HasRun(st) ==> HasDecisive(st)
  {
    if st != [] { RunDecisive(st[1..]); }
  }

  lemma StillStuck(c: Config, s: State)
    requires Ok(s) && Stuck(s.stack, s.inactive) && Settled(s.stack) && s.stopped && HasRun(s.stack) && s.stack != []
    ensures var r := Returned(c, s); Ok(r) && Stuck(r.stack, r.inactive)
  {
    hide Ok, HasDecisive, Left, Returned, Inert, HasRun;
    ReturnDoomed(c, s);
    var r := Returned(c, s);
    if s.stack[0].RunWait? {
      assert Stuck(s.stack[1..], s.inactive);
    } else {
      RunBelow(s.stack);
      if Over(r) { InertIs(r.stack, r.inactive); }
    }
  }

  lemma RunBelow(st: seq<Frame>)
    requires HasRun(st) && !st[0].RunWait?
    ensures HasRun(st[1..])
  {
  }

  /** All callbacks return, and the task is lost. */
  lemma {:induction false} Ending(c: Config, s: State) returns (ms: seq<Move>)
    requires Doomed(s) && Settled(s.stack) && !HasRun(s.stack)
    ensures var r := Play(c, s, ms); r.stack == [] && Over(r) && r.active == s.active && r.stopped == s.stopped
    decreases Left(s)
  {
    hide Ok, HasDecisive, Left, Play, Returned, Inert, HasRun;
    ms := [];
    NoMoves(c, s);
    if s.stack != [] {
      NoRunBelow(s.stack);
      ReturnDoomed(c, s);
      PlayOne(c, s, Return);
      var more := Ending(c, Returned(c, s));
      ms := [Return] + more;
      PlayCat(c, s, [Return], more);
    }
  }

  lemma NoRunBelow(st: seq<Frame>)
    requires st != [] && !HasRun(st)
    ensures !HasRun(st[1..])
  {
  }

  /** Running tasks are completed until there are fewer than the limit. */
  lemma {:induction false} Free(c: Config, s: State) returns (ms: seq<Move>)
    requires Ok(s) && Stuck(s.stack, s.inactive) && Settled(s.stack) && !HasRun(s.stack) && c.max >= 0
    ensures var r := Play(c, s, ms);
            && Ok(r) && Stuck(r.stack, r.inactive) && Settled(r.stack) && !HasRun(r.stack)
            && (c.max == 0 || |r.active| < c.max)
    decreases |s.active|
  {
    hide Ok, Stuck, HasDecisive, Play, HasRun, Completed, Returned;
    ms := [];
    NoMoves(c, s);
    if c.max > 0 && |s.active| >= c.max {
      var t := s.active[0];
      FreeOne(c, s, t);
      var s1 := Completed(s, t);
      PlayOne(c, s, Complete(t));
      PlayOne(c, s1, Return);
      PlayCat(c, s, [Complete(t)], [Return]);
      var more := Free(c, Returned(c, s1));
      ms := [Complete(t)] + [Return] + more;
      PlayCat(c, s, [Complete(t)] + [Return], more);
    }
  }

  lemma FreeOne(c: Config, s: State, t: Task)
    requires Ok(s) && Stuck(s.stack, s.inactive) && Settled(s.stack) && !HasRun(s.stack) && t in s.active
    ensures Completed(s, t).stack != [] && Completed(s, t).stack[0] == Completing(t)
    ensures var r := Returned(c, Completed(s, t));
            Ok(r) && Stuck(r.stack, r.inactive) && Settled(r.stack) && !HasRun(r.stack) && |r.active| < |s.active|
  {
    hide Stuck, HasDecisive, HasRun, Without, Behind, Distinct, Disjoint, Fine, First, AllMoved;
    var b := Behind(s.active, t);
    var st, s1 := AllMoved(s.stack, true, t, b), Completed(s, t);
    assert s1.stack == [Completing(t)] + st && s1.stack[1..] == st;
    NotFirst(s, t);
    CompletedKeeps(c, s, t);
    WithoutIs(s.active, t);
    DecisivePush(Completing(t), st, s1.inactive);
    StuckDecisive(s.stack, s.inactive);
    MovedDecisive(s.stack, true, t, b);
    MovedTop(s.stack, true, t, b);
    MovedRun(s.stack, t, b);
    Rest(s1);
    SettledStays(Arm(s1.(stack := st)));
  }

  lemma NotFirst(s: State, t: Task)
    requires Ok(s) && t in s.active
    ensures First(s.inactive) != t && Without(s.inactive, t) == s.inactive
  {
  }

  lemma {:induction false} MovedRun(st: seq<Frame>, t: Task, b: Task?)
    ensures HasRun(AllMoved(st, true, t, b)) == HasRun(st)
  {
    if st != [] { MovedRun(st[1..], t, b); }
  }

  /** A task that a kill has passed over can be lost: there is a way to go on after which
      no callback is running, the task may be started, and no timer is armed. */
  lemma Stranded(c: Config, s: State) returns (ms: seq<Move>)
    requires Ok(s) && Settled(s.stack) && Stuck(s.stack, s.inactive) && c.max >= 0
    ensures var r := Play(c, s, ms); r.stack == [] && Needs(c, r) && r.timer == Off
  {
    hide Stuck, HasDecisive, Play, Inert, HasRun, Fine, Distinct, Disjoint, Left;
    PlayOne(c, s, Stop);
    var s1 := s.(stopped := true);
    var a := Calm(c, s1);
    PlayCat(c, s, [Stop], a);
    var s2 := Play(c, s1, a);
    var f := Free(c, s2);
    PlayCat(c, s, [Stop] + a, f);
    var s3 := Play(c, s2, f);
    PlayOne(c, s3, Resume);
    PlayCat(c, s, [Stop] + a + f, [Resume]);
    var b := Ending(c, Resumed(s3));
    PlayCat(c, s, [Stop] + a + f + [Resume], b);
    ms := [Stop] + a + f + [Resume] + b;
  }

  lemma UnwindOne(s: State)
    requires !Settled(s.stack)
    ensures Unwound(s) == Unwound(Stepped(s))
  {
    StepShrinks(s);
  }
}
