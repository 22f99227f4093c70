/** runqueue.c: what every operation of a task queue does, as functions of its state.
    The callbacks may call back into the queue and run the event loop, so the calls that
    are waiting for a callback to return are kept on a stack, and every operation runs
    up to the next callback. */
module RunQueueSpec {

  class Task {
    /** Whether there is a run() callback, and whether the timeouts are set. */
    const run: bool
    const runTimeout: bool
    const cancelTimeout: bool
    var queued: bool
    var running: bool
    var cancelled: bool
    /** Whether the timeout of the task is pending. */
    var timing: bool

    constructor (run: bool, runTimeout: bool, cancelTimeout: bool)
      ensures this.run == run && this.runTimeout == runTimeout && this.cancelTimeout == cancelTimeout
      ensures !queued && !running && !cancelled && !timing
    {
      this.run, this.runTimeout, this.cancelTimeout := run, runTimeout, cancelTimeout;
      queued, running, cancelled, timing := false, false, false, false;
    }
  }

  /** What the timer of the queue is armed with. */
  datatype Timer = Off | Start | Empty

  /** A call that has not returned. The first five wait for a callback, the others for
      the call above them. */
  datatype Frame =
    | RunWait(task: Task)
    | Completing(task: Task)
    | KillWait(task: Task)
    | CancelWait(task: Task)
    | EmptyWait
    | KillAfter(task: Task, running: bool)
    | CancelLoop(active: bool, next: Task?)
    | KillActive
    | KillPending(next: Task?)

  datatype Config = Config(max: int, emptyCb: bool)

  /** The lists, first task first, the fields of the queue, the calls that have not
      returned, innermost first, and the tasks that are marked cancelled or have their
      timeout pending. */
  datatype State = State(active: seq<Task>, inactive: seq<Task>, stopped: bool, empty: bool, timer: Timer,
                         stack: seq<Frame>, cancelled: set<Task>, timing: set<Task>)

  predicate Waits(f: Frame) {
    f.RunWait? || f.Completing? || f.KillWait? || f.CancelWait? || f.EmptyWait?
  }

  /** Calls that look for tasks to start, or arm the timer for it, before they return. */
  predicate Restarts(f: Frame) { f.RunWait? || f.Completing? || f.KillWait? || f.KillAfter? }

  predicate Settled(st: seq<Frame>) { st == [] || Waits(st[0]) }

  // ----- lists

  predicate Distinct(l: seq<Task>) { forall i, j :: 0 <= i < j < |l| ==> l[i] != l[j] }

  predicate Disjoint(a: seq<Task>, b: seq<Task>) { forall t :: t in a ==> t !in b }

  function First(l: seq<Task>): Task? { if l == [] then null else l[0] }

  function Index(l: seq<Task>, t: Task): (i: nat)
    requires t in l
    ensures i < |l| && l[i] == t
  {
    if l[0] == t then 0 else 1 + Index(l[1..], t)
  }

  /** list_del, and the entry behind the deleted one. */
  function Without(l: seq<Task>, t: Task): (r: seq<Task>)
    ensures t !in l ==> r == l
  {
    if t in l then l[..Index(l, t)] + l[Index(l, t) + 1..] else l
  }

  function Behind(l: seq<Task>, t: Task): Task? {
    if t in l then First(l[Index(l, t) + 1..]) else null
  }

  /** safe_list_add_first or safe_list_add. */
  function Listed(l: seq<Task>, t: Task, first: bool): seq<Task> { if first then [t] + l else l + [t] }

  lemma OthersStay(l: seq<Task>, i: nat)
    requires Distinct(l) && i < |l|
    ensures var r := l[..i] + l[i + 1..]; Distinct(r) && forall u :: u in r <==> u in l && u != l[i]
  {
    var a, b := l[..i], l[i + 1..];
    forall u | u in l && u != l[i]
      ensures u in a + b
    {
      var k :| 0 <= k < |l| && l[k] == u;
      if k < i { assert a[k] == u; } else { assert b[k - i - 1] == u; }
    }
  }

  lemma WithoutIs(l: seq<Task>, t: Task)
    requires Distinct(l) && t in l
    ensures Distinct(Without(l, t)) && |Without(l, t)| == |l| - 1
    ensures forall u :: u in Without(l, t) <==> u in l && u != t
    ensures Behind(l, t) != t && (Behind(l, t) == null || Behind(l, t) in Without(l, t))
    ensures First(Without(l, t)) == if First(l) == t then Behind(l, t) else First(l)
    ensures First(l) != t ==> Behind(l, t) != First(l)
  {
    hide Index;
    var i, r := Index(l, t), Without(l, t);
    OthersStay(l, i);
    assert i + 1 < |l| ==> l[i + 1..][0] == l[i + 1] == r[i];
  }

  lemma FirstOut(l: seq<Task>)
    requires l != []
    ensures Without(l, l[0]) == l[1..]
  {
  }

  lemma DisjointWithout(a: seq<Task>, b: seq<Task>, t: Task)
    requires Distinct(a) && Distinct(b) && Disjoint(a, b) && (t in a || t in b)
    ensures Disjoint(Without(a, t), Without(b, t)) && !(t in a && t in b)
  {
    hide Without;
    if t in a { WithoutIs(a, t); }
    if t in b { WithoutIs(b, t); }
  }

  lemma DistinctAdd(l: seq<Task>, t: Task)
    requires Distinct(l) && t !in l
    ensures Distinct(l + [t]) && Distinct([t] + l)
  {
  }

  // ----- the stack

  predicate Parked(f: Frame, active: seq<Task>, inactive: seq<Task>) {
    match f
    case CancelLoop(act, next) => next == null || next in (if act then active else inactive)
    case KillPending(next) => next == null || next in inactive
    case _ => true
  }

  /** What can be above a call that has not returned. */
  predicate Above(f: Frame, g: Frame) {
    match f
    case KillPending(_) => g.Completing?
    case CancelLoop(act, _) => g.Completing? || (act && g.CancelWait?)
    case KillAfter(_, _) => g.Completing?
    case KillActive => g.KillAfter? || g.KillWait?
    case _ => true
  }

  /** Iterators are parked on entries of their list, and only calls the source makes
      follow each other; the event loop runs only inside a callback. */
  predicate Fine(st: seq<Frame>, active: seq<Task>, inactive: seq<Task>) {
    st != [] ==>
      && Parked(st[0], active, inactive) && Fine(st[1..], active, inactive)
      && (|st| > 1 ==> Above(st[1], st[0]) && (st[0].RunWait? ==> Waits(st[1])))
  }

  /** safe_list_del moves the iterators parked on the deleted entry to the one behind. */
  function Moved(f: Frame, act: bool, t: Task, behind: Task?): Frame {
    match f
    case CancelLoop(a, next) => if a == act && next == t then CancelLoop(a, behind) else f
    case KillPending(next) => if !act && next == t then KillPending(behind) else f
    case _ => f
  }

  function AllMoved(st: seq<Frame>, act: bool, t: Task, behind: Task?): (r: seq<Frame>)
    ensures |r| == |st|
  {
    if st == [] then [] else [Moved(st[0], act, t, behind)] + AllMoved(st[1..], act, t, behind)
  }

  /** The iterators after `t` leaves the list it is on. */
  function Shifted(st: seq<Frame>, active: seq<Task>, inactive: seq<Task>, t: Task): (r: seq<Frame>)
    ensures |r| == |st|
  {
    AllMoved(st, t in active, t, Behind(if t in active then active else inactive, t))
  }

  lemma {:induction false} MovedFine(st: seq<Frame>, active: seq<Task>, inactive: seq<Task>, act: bool, t: Task)
    requires Fine(st, active, inactive) && Distinct(active) && Distinct(inactive)
             && t in (if act then active else inactive)
    ensures Fine(AllMoved(st, act, t, Behind(if act then active else inactive, t)),
                 if act then Without(active, t) else active, if act then inactive else Without(inactive, t))
    decreases |st|
  {
    hide Without, Behind, Distinct;
    WithoutIs(if act then active else inactive, t);
    if st != [] { MovedFine(st[1..], active, inactive, act, t); }
  }

  // ----- the operations

  /** There is a task that may be started. */
  predicate Needs(c: Config, s: State) { !s.stopped && s.inactive != [] && !(c.max != 0 && |s.active| >= c.max) }

  predicate Bounded(c: Config, s: State) { c.max > 0 ==> |s.active| <= c.max }

  /** The lists are disjoint, a queue marked empty has no tasks, only such a queue waits for
      the empty callback, and the stack is in order. */
  predicate Ok(s: State) {
    && Distinct(s.active) && Distinct(s.inactive) && Disjoint(s.active, s.inactive)
    && (s.empty ==> s.active == [] && s.inactive == []) && (s.timer == Empty ==> s.empty)
       && Fine(s.stack, s.active, s.inactive)
  }

  /** `runqueue_start_next`. */
  function Arm(s: State): State { if s.empty then s else s.(timer := Start) }

  /** `runqueue_task_complete` of a queued task, up to its callback. */
  function Completed(s: State, t: Task): State {
    s.(active := Without(s.active, t), inactive := Without(s.inactive, t),
       stack := [Completing(t)] + Shifted(s.stack, s.active, s.inactive, t),
       cancelled := s.cancelled - {t}, timing := s.timing - {t})
  }

  /** The task is cut out of its list, and a loop that was going to look at it next goes on
      with the task behind it. */
  lemma {:induction false} CompletedIs(s: State, act: bool, a: seq<Task>, t: Task, b: seq<Task>)
    requires Ok(s) && (if act then s.active else s.inactive) == a + [t] + b
    ensures var r := Completed(s, t);
            && (if act then r.active else r.inactive) == a + b
            && (if act then r.inactive == s.inactive else r.active == s.active)
            && |r.stack| == |s.stack| + 1 && r.stack[0] == Completing(t)
            && forall k :: 0 <= k < |s.stack| ==>
                 var f := s.stack[k];
                 r.stack[k + 1] ==
                   if ((f.CancelLoop? && f.active == act) || (f.KillPending? && !act)) && f.next == t
                   then f.(next := if b == [] then null else b[0]) else f
  {
    hide Fine, AllMoved, Without, Behind, Distinct, Disjoint;
    var l := a + [t] + b;
    assert l[|a|] == t;
    CutOut(a, t, b);
    assert !act ==> t !in s.active by { Apart(s.active, s.inactive, t); }
    assert act ==> t !in s.inactive by { Apart(s.active, s.inactive, t); }
    var behind := Behind(l, t);
    var moved := AllMoved(s.stack, act, t, behind);
    assert Completed(s, t).stack == [Completing(t)] + moved;
    forall k | 0 <= k < |s.stack|
      ensures moved[k] == Moved(s.stack[k], act, t, behind)
    {
      MovedAt(s.stack, act, t, behind, k);
    }
  }

  lemma Apart(a: seq<Task>, b: seq<Task>, t: Task)
    requires Disjoint(a, b)
    ensures !(t in a && t in b)
  {
  }

  lemma CutOut(a: seq<Task>, t: Task, b: seq<Task>)
    requires Distinct(a + [t] + b)
    ensures Without(a + [t] + b, t) == a + b && Behind(a + [t] + b, t) == if b == [] then null else b[0]
  {
    hide Index;
    var l := a + [t] + b;
    assert l[|a|] == t && t in l;
    assert Index(l, t) == |a|;
    assert l[..|a|] == a && l[|a| + 1..] == b;
  }

  lemma {:induction false} MovedAt(st: seq<Frame>, act: bool, t: Task, b: Task?, k: nat)
    requires k < |st|
    ensures AllMoved(st, act, t, b)[k] == Moved(st[k], act, t, b)
  {
    if k > 0 { MovedAt(st[1..], act, t, b, k - 1); }
  }

  /** The first pending task is started, up to its callback. */
  function Begun(s: State): State
    requires s.inactive != []
  {
    var t := s.inactive[0];
    s.(active := s.active + [t], inactive := s.inactive[1..],
       stack := [RunWait(t)] + AllMoved(s.stack, false, t, Behind(s.inactive, t)),
       timing := if t.runTimeout then s.timing + {t} else s.timing)
  }

  /** The body of `__runqueue_start_next`. */
  function StartedNext(c: Config, s: State): State {
    if Needs(c, s) then Begun(s)
    else if !s.empty && s.active == [] && s.inactive == [] then
      s.(empty := true, timer := if c.emptyCb then Empty else s.timer)
    else s
  }

  /** What that amounts to. */
  lemma StartedIs(c: Config, s: State)
    ensures var r := StartedNext(c, s);
            if !s.stopped && s.inactive != [] && (c.max == 0 || |s.active| < c.max) then
              && r.active == s.active + [s.inactive[0]] && r.inactive == s.inactive[1..]
              && r.stack != [] && r.stack[0] == RunWait(s.inactive[0]) && r.timer == s.timer && r.empty == s.empty
            else
              && r.active == s.active && r.inactive == s.inactive && r.stack == s.stack
              && (r.empty <==> s.empty || (s.active == [] && s.inactive == []))
              && r.timer == if c.emptyCb && !s.empty && s.active == [] && s.inactive == [] then Empty else s.timer
  {
    hide AllMoved, Behind;
  }

  /** `_runqueue_task_add` of a task that is not queued. */
  function Added(s: State, t: Task, run: bool, first: bool): State {
    s.(active := if run then Listed(s.active, t, first) else s.active,
       inactive := if run then s.inactive else Listed(s.inactive, t, first), empty := false, timer := Start,
       cancelled := s.cancelled - {t})
  }

  /** `runqueue_task_cancel` of a queued task, up to a callback. */
  function Cancelled(s: State, t: Task): State {
    if t in s.active then
      s.(stack := [CancelWait(t)] + s.stack, cancelled := s.cancelled + {t},
         timing := if t.cancelTimeout then s.timing + {t} else s.timing)
    else Completed(s, t)
  }

  /** `runqueue_task_kill` of a queued task, up to the first callback. */
  function Killed(s: State, t: Task): State { Completed(s.(stack := [KillAfter(t, t in s.active)] + s.stack), t) }

  lemma CancelledIs(s: State, t: Task)
    ensures t in s.active ==>
            && Cancelled(s, t).stack == [CancelWait(t)] + s.stack && Cancelled(s, t).active == s.active
            && Cancelled(s, t).inactive == s.inactive && Cancelled(s, t).timer == s.timer
    ensures t !in s.active ==>
            && Cancelled(s, t).stack != [] && Cancelled(s, t).stack[0] == Completing(t)
            && Cancelled(s, t).active == s.active && Cancelled(s, t).timer == s.timer
  {
    hide Shifted;
  }

  lemma KilledIs(s: State, t: Task)
    ensures var r := Killed(s, t);
            |r.stack| > 1 && r.stack[0] == Completing(t) && r.stack[1] == KillAfter(t, t in s.active)
                && r.timer == s.timer
  {
    assert ([KillAfter(t, t in s.active)] + s.stack)[0] == KillAfter(t, t in s.active);
  }

  /** A call that waits for no callback goes on, up to a callback or to its return. */
  function Stepped(s: State): State
    requires s.stack != [] && !Waits(s.stack[0])
  {
    var rest := s.stack[1..];
    match s.stack[0]
    case KillAfter(t, running) => if running then s.(stack := [KillWait(t)] + rest) else Arm(s.(stack := rest))
    case CancelLoop(act, next) =>
      if next == null then s.(stack := rest)
      else Cancelled(s.(stack := [CancelLoop(act, Behind(if act then s.active else s.inactive, next))] + rest), next)
    case KillActive =>
      if s.active != [] then Killed(s, s.active[0]) else s.(stack := [KillPending(First(s.inactive))] + rest)
    case KillPending(next) =>
      if next == null then s.(stack := rest, timer := Off)
      else Completed(s.(stack := [KillPending(Behind(s.inactive, next))] + rest), next)
  }

  /** `Unwound`: calls go on until one waits for a callback. */
  function Unwound(s: State): (r: State)
    ensures Settled(r.stack)
    decreases |s.stack|, if s.stack != [] && s.stack[0].KillActive? then 1 else 0
  {
    if Settled(s.stack) then s
    else var r := Stepped(s); if Settled(r.stack) then r else Unwound(r)
  }

  /** The callback that is running returns. */
  function Returned(c: Config, s: State): State
    requires s.stack != [] && Waits(s.stack[0])
  {
    var r := s.(stack := s.stack[1..]);
    Unwound(match s.stack[0]
            case RunWait(_) => StartedNext(c, r)
            case Completing(_) => Arm(r)
            case KillWait(_) => Arm(r)
            case _ => r)
  }

  lemma {:induction false} ReturnedIs(c: Config, s: State)
    requires s.stack != [] && Waits(s.stack[0]) && (s.stack[0].RunWait? ==> Settled(s.stack[1..]))
    ensures var f, rest, r := s.stack[0], s.stack[1..], Returned(c, s);
            && (f.RunWait? ==> r == StartedNext(c, s.(stack := rest)))
            && (!f.RunWait? && Settled(rest) ==>
                  r == if f.Completing? || f.KillWait? then Arm(s.(stack := rest)) else s.(stack := rest))
            && (f.Completing? && rest != [] && rest[0].KillAfter? && rest[0].running ==>
                  r == Arm(s.(stack := [KillWait(rest[0].task)] + rest[1..])))
  {
    hide StartedNext;
    var f, rest := s.stack[0], s.stack[1..];
    if f.RunWait? { StartedTop(c, s.(stack := rest)); }
  }

  lemma StartedTop(c: Config, s: State)
    requires Settled(s.stack)
    ensures Settled(StartedNext(c, s).stack)
  {
  }

  /** The timer of the queue fires. */
  function Fired(c: Config, s: State): State
    requires s.timer != Off
  {
    if s.timer == Start then StartedNext(c, s.(timer := Off)) else s.(timer := Off, stack := [EmptyWait] + s.stack)
  }

  /** The timeout of a running task fires: the task is asked to stop, or killed if it was
      already. */
  function TimedOut(s: State, t: Task): State {
    var r := s.(timing := s.timing - {t});
    if t in s.cancelled then Killed(r, t) else Cancelled(r, t)
  }

  /** `runqueue_resume`. */
  function Resumed(s: State): State { Arm(s.(stopped := false)) }

  /** `runqueue_cancel_active` and `runqueue_cancel_pending`. */
  function CancelledAll(s: State, act: bool): State {
    Unwound(s.(stack := [CancelLoop(act, First(if act then s.active else s.inactive))] + s.stack))
  }

  /** `runqueue_kill`. */
  function KilledAll(s: State): State { Unwound(s.(stack := [KillActive] + s.stack)) }

  /** A queue that has nothing to do. */
  const Idle := State([], [], false, false, Off, [], {}, {})
}
