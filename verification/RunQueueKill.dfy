/** runqueue.c: what becomes of a queue that is killed. */
module RunQueueKill {
  import opened RunQueueSpec
  import opened RunQueueAwake
  import opened RunQueueRuns

  /** Nothing runs, nothing is pending, and no timer is armed. */
  ghost predicate Cleared(s: State) { s.stack == [] && s.active == [] && s.inactive == [] && s.timer == Off }

  /** The pending loop of a kill, with callbacks that only return. */
  lemma {:induction false} PendingRun(c: Config, s: State, k: nat)
    requires Ok(s) && s.active == [] && s.stack == [KillPending(First(s.inactive))]
    ensures k < |s.inactive| ==>
              var r := Play(c, Unwound(s), Returns(k));
              r.stack != [] && r.stack[0] == Completing(s.inactive[k]) && r.active == []
              && r.inactive == s.inactive[k + 1..]
    ensures Cleared(Play(c, Unwound(s), Returns(|s.inactive|)))
    decreases |s.inactive|
  {
    hide Play, Ok, Unwound, Fine, Returned, Returns, Arm, Completed;
    UnwindOne(s);
    if s.inactive == [] {
      assert Stepped(s).stack == [];
      SettledStays(Stepped(s));
      PlayNone(c, Stepped(s));
    } else {
      var t := s.inactive[0];
      PendingStep(c, s, t);
      var s1 := Completed(s, t);
      SettledStays(s1);
      var s2 := Arm(s1.(stack := s1.stack[1..]));
      PlayNone(c, s1);
      if k > 0 { PlayReturn(c, s1, k); }
      PlayReturn(c, s1, |s.inactive|);
      PendingRun(c, s2, if k == 0 then 0 else k - 1);
    }
  }

  lemma {:induction false} PendingStep(c: Config, s: State, t: Task)
    requires Ok(s) && s.active == [] && s.stack == [KillPending(t)] && s.inactive != [] && s.inactive[0] == t
    ensures Stepped(s) == Completed(s, t) && Settled(Stepped(s).stack)
    ensures var s1 := Completed(s, t); var s2 := Arm(s1.(stack := s1.stack[1..]));
            && s1.stack != [] && s1.stack[0] == Completing(t) && s2.stack == [KillPending(First(s2.inactive))]
            && Ok(s2) && s2.active == [] == s1.active && s2.inactive == s.inactive[1..] == s1.inactive
            && Returned(c, s1) == Unwound(s2)
  {
    hide Distinct, Disjoint, Fine, Without, Behind, First, Stuck, HasDecisive, Unwound;
    LoopKeeps(c, s, KillPending(t), t);
    FirstHead(s.inactive);
    FirstOut(s.inactive);
    WithoutIs(s.inactive, t);
    assert s.stack[1..] == [];
    var s1 := Completed(s, t);
    assert s1.stack == [Completing(t), KillPending(Behind(s.inactive, t))] by { OneMoved(t, Behind(s.inactive, t)); }
    assert s1.stack[1..] == [KillPending(Behind(s.inactive, t))];
    Rest(s1);
    ArmKeeps(c, s1.(stack := s1.stack[1..]));
  }

  lemma FirstHead(l: seq<Task>)
    requires l != []
    ensures First(l) == l[0]
  {
  }

  lemma OneMoved(t: Task, b: Task?)
    ensures AllMoved([KillPending(t)], false, t, b) == [KillPending(b)]
  {
    assert [KillPending(t)][1..] == [];
  }

  /** A whole kill, with callbacks that only return. */
  lemma {:induction false} KillRun(c: Config, s: State, k: nat)
    requires Ok(s) && s.stack == [KillActive]
    ensures k < |s.active| ==> Struck(c, s, Unwound(s), k)
    ensures k < |s.inactive| ==>
              var r := Play(c, Unwound(s), Returns(2 * |s.active| + k));
              r.stack != [] && r.stack[0] == Completing(s.inactive[k]) && r.active == []
              && r.inactive == s.inactive[k + 1..]
    ensures Cleared(Play(c, Unwound(s), Returns(2 * |s.active| + |s.inactive|)))
    decreases |s.active|
  {
    hide Play, Ok, Unwound, Fine, Killed, Returned, Returns, Struck;
    UnwindOne(s);
    if s.active == [] {
      assert s.stack[1..] == [];
      var r := Stepped(s);
      assert r.stack == [KillPending(First(s.inactive))];
      StepKeeps(c, s);
      PendingRun(c, r, k);
    } else {
      var t := s.active[0];
      KillStep(c, s, t);
      var s1 := Killed(s, t);
      SettledStays(s1);
      var s2 := Arm(s1.(stack := [KillWait(t), KillActive]));
      var s3 := Arm(s2.(stack := [KillActive]));
      TwoReturns(c, s1, s2, Unwound(s3), 2 * |s.active| + k);
      TwoReturns(c, s1, s2, Unwound(s3), 2 * |s.active| + |s.inactive|);
      KillRun(c, s3, k);
      if k == 0 {
        StruckFirst(c, s, s1, s2);
      } else if k < |s.active| {
        KillRun(c, s3, k - 1);
        StruckLater(c, s, s1, s2, s3, k);
      }
    }
  }

  /** After `2 * k` returns the k-th running task is completed, and after one more its kill
      callback is called. */
  ghost predicate Struck(c: Config, s: State, u: State, k: nat)
    requires k < |s.active|
  {
    var t, r, w := s.active[k], Play(c, u, Returns(2 * k)), Play(c, u, Returns(2 * k + 1));
    && r.stack == [Completing(t), KillAfter(t, true), KillActive] && r.active == s.active[k + 1..]
    && r.inactive == s.inactive && w.stack == [KillWait(t), KillActive]
  }

  lemma StruckFirst(c: Config, s: State, s1: State, s2: State)
    requires s.active != [] && s1.stack != [] && Waits(s1.stack[0]) && Returned(c, s1) == s2
    requires var t := s.active[0];
             && s1.stack == [Completing(t), KillAfter(t, true), KillActive] && s1.active == s.active[1..]
             && s1.inactive == s.inactive && s2.stack == [KillWait(t), KillActive]
    ensures Struck(c, s, s1, 0)
  {
    hide Play, Returned, Returns;
    PlayNone(c, s1);
    PlayNone(c, s2);
    PlayReturn(c, s1, 1);
  }

  lemma StruckLater(c: Config, s: State, s1: State, s2: State, s3: State, k: nat)
    requires 0 < k < |s.active| && s1.stack != [] && Waits(s1.stack[0]) && Returned(c, s1) == s2
    requires s2.stack != [] && Waits(s2.stack[0]) && Returned(c, s2) == Unwound(s3)
    requires s3.active == s.active[1..] && s3.inactive == s.inactive && Struck(c, s3, Unwound(s3), k - 1)
    ensures Struck(c, s, s1, k)
  {
    hide Play, Returned, Returns, Unwound;
    TwoReturns(c, s1, s2, Unwound(s3), 2 * k);
    TwoReturns(c, s1, s2, Unwound(s3), 2 * k + 1);
    assert 2 * k - 2 == 2 * (k - 1) && 2 * k + 1 - 2 == 2 * (k - 1) + 1;
    assert s3.active[k - 1] == s.active[k] && s3.active[k..] == s.active[k + 1..];
  }

  lemma TwoReturns(c: Config, s1: State, s2: State, s3: State, n: nat)
    requires n >= 2 && s1.stack != [] && Waits(s1.stack[0]) && Returned(c, s1) == s2
    requires s2.stack != [] && Waits(s2.stack[0]) && Returned(c, s2) == s3
    ensures Play(c, s1, Returns(n)) == Play(c, s3, Returns(n - 2))
  {
    hide Play, Returned, Returns;
    PlayReturn(c, s1, n);
    PlayReturn(c, s2, n - 1);
  }

  lemma {:induction false} KillStep(c: Config, s: State, t: Task)
    requires Ok(s) && s.stack == [KillActive] && s.active != [] && s.active[0] == t
    ensures var s1 := Killed(s, t);
            var s2 := Arm(s1.(stack := [KillWait(t), KillActive]));
            var s3 := Arm(s2.(stack := [KillActive]));
            && Stepped(s) == s1 && s1.stack == [Completing(t), KillAfter(t, true), KillActive]
            && Returned(c, s1) == s2 && Returned(c, s2) == Unwound(s3) && Ok(s3)
            && s1.active == s2.active == s3.active == s.active[1..]
            && s1.inactive == s2.inactive == s3.inactive == s.inactive
  {
    hide Distinct, Disjoint, Without, Behind, First, Stuck, HasDecisive, Fine, Unwound;
    KilledKeeps(c, s, t);
    WithoutIs(s.active, t);
    FirstOut(s.active);
    DisjointWithout(s.active, s.inactive, t);
    var s1 := Killed(s, t);
    FramesMoved(t, Behind(s.active, t));
    assert s1.stack == [Completing(t), KillAfter(t, true), KillActive];
    assert s1.stack[1..] == [KillAfter(t, true), KillActive] && [KillAfter(t, true), KillActive][1..] == [KillActive];
    assert [KillWait(t)] + [KillActive] == [KillWait(t), KillActive] && [KillWait(t), KillActive][1..] == [KillActive];
    UnwindOne(Arm(s1.(stack := s1.stack[1..])));
    var s2 := Arm(s1.(stack := [KillWait(t), KillActive]));
    SettledStays(s2);
    Rest(s1);
    Rest(s1.(stack := s1.stack[1..]));
    ArmKeeps(c, s1.(stack := [KillActive]));
  }

  lemma FramesMoved(t: Task, b: Task?)
    ensures AllMoved([KillAfter(t, true)] + [KillActive], true, t, b) == [KillAfter(t, true), KillActive]
  {
    assert ([KillAfter(t, true)] + [KillActive])[1..] == [KillActive] && [KillActive][1..] == [];
  }

  // ----- every way a kill can go

  /** The outermost call is a kill, and nothing is going to be started: its first loop is
      still at the running tasks, or there are none and its second loop has passed over
      no pending one. */
  predicate Killing(st: seq<Frame>, active: seq<Task>, inactive: seq<Task>) {
    st != [] && !st[0].RunWait?
    && if st[1..] == [] then st[0].KillActive? || (st[0] == KillPending(First(inactive)) && active == [])
       else Killing(st[1..], active, inactive)
  }

  /** A kill is going on, or it is over: then nothing runs and nothing is pending, and the
      timer is off unless the queue was `resumed` since. */
  predicate Under(s: State, resumed: bool) {
    && Ok(s)
    && if s.stack == [] then s.active == [] && s.inactive == [] && (s.timer == Off || resumed)
       else Killing(s.stack, s.active, s.inactive)
  }

  lemma KillingPush(f: Frame, st: seq<Frame>, active: seq<Task>, inactive: seq<Task>)
    requires st != [] && Killing(st, active, inactive) && !f.RunWait?
    ensures Killing([f] + st, active, inactive)
  {
    assert ([f] + st)[1..] == st;
  }

  /** A task leaves its list. */
  lemma {:induction false} KillingMoved(st: seq<Frame>, active: seq<Task>, inactive: seq<Task>, t: Task)
    requires Killing(st, active, inactive) && Distinct(active) && Distinct(inactive) && Disjoint(active, inactive)
    requires t in active || t in inactive
    ensures Killing(Shifted(st, active, inactive, t), Without(active, t), Without(inactive, t))
    decreases |st|
  {
    hide Without, Behind, Distinct, Disjoint, First;
    DisjointWithout(active, inactive, t);
    WithoutIs(if t in active then active else inactive, t);
    var st' := Shifted(st, active, inactive, t);
    assert st'[1..] == Shifted(st[1..], active, inactive, t);
    if st[1..] != [] { KillingMoved(st[1..], active, inactive, t); }
  }

  lemma CompletedUnder(c: Config, s: State, t: Task, resumed: bool)
    requires Under(s, resumed) && (t in s.active || t in s.inactive) && !s.stack[0].KillActive?
    ensures Under(Completed(s, t), resumed)
  {
    hide Without, Distinct, Disjoint, Fine, Killing, Shifted;
    CompletedOk(s, t);
    KillingMoved(s.stack, s.active, s.inactive, t);
    KillingPush(Completing(t), Shifted(s.stack, s.active, s.inactive, t), Without(s.active, t), Without(s.inactive, t));
  }

  lemma KilledUnder(c: Config, s: State, t: Task, resumed: bool)
    requires Under(s, resumed) && (t in s.active || t in s.inactive)
    requires Waits(s.stack[0]) || s.stack[0].KillActive?
    ensures Under(Killed(s, t), resumed)
  {
    hide Distinct, Disjoint, Fine, Killing, Completed;
    var f := KillAfter(t, t in s.active);
    FinePush(f, s.stack, s.active, s.inactive);
    KillingPush(f, s.stack, s.active, s.inactive);
    CompletedUnder(c, s.(stack := [f] + s.stack), t, resumed);
  }

  lemma CancelledUnder(c: Config, s: State, t: Task, resumed: bool)
    requires Under(s, resumed) && (t in s.active || t in s.inactive) && !s.stack[0].KillActive?
    requires t in s.active ==> Above(s.stack[0], CancelWait(t))
    ensures Under(Cancelled(s, t), resumed)
  {
    hide Distinct, Disjoint, Fine, Killing, Completed;
    if t in s.active {
      FinePush(CancelWait(t), s.stack, s.active, s.inactive);
      KillingPush(CancelWait(t), s.stack, s.active, s.inactive);
    } else {
      CompletedUnder(c, s, t, resumed);
    }
  }

  lemma TimedOutUnder(c: Config, s: State, t: Task, resumed: bool)
    requires Under(s, resumed) && t in s.active && Settled(s.stack)
    ensures Under(TimedOut(s, t), resumed)
  {
    hide Distinct, Disjoint, Fine, Killing, Completed, Killed, Cancelled;
    var r := s.(timing := s.timing - {t});
    KilledUnder(c, r, t, resumed);
    CancelledUnder(c, r, t, resumed);
  }

  /** The outermost call goes on. */
  lemma LastStep(c: Config, s: State, resumed: bool)
    requires Under(s, resumed) && s.stack != [] && !Waits(s.stack[0]) && s.stack[1..] == []
    ensures Under(Stepped(s), resumed)
  {
    hide Distinct, Disjoint, Fine, Completed, Killed, Without, Behind, First;
    StepKeeps(c, s);
    var f := s.stack[0];
    assert s.stack == [f];
    if f.KillActive? {
      if s.active != [] {
        KilledUnder(c, s, s.active[0], resumed);
      } else {
        assert [KillPending(First(s.inactive))][1..] == [];
      }
    } else {
      FirstNull(s.inactive);
      FirstIn(s.inactive);
      if f.next != null {
        LoopKeeps(c, s, f, f.next);
        CompletedUnder(c, s, f.next, resumed);
      }
    }
  }

  /** A call inside the kill goes on. */
  lemma InnerStep(c: Config, s: State, resumed: bool)
    requires Under(s, resumed) && s.stack != [] && !Waits(s.stack[0]) && s.stack[1..] != []
    ensures Under(Stepped(s), resumed)
  {
    hide Distinct, Disjoint, Fine, Completed, Killed, Without, Behind, First, Killing, Cancelled;
    StepKeeps(c, s);
    var f, rest := s.stack[0], s.stack[1..];
    assert s.stack == [f] + rest;
    assert Killing(rest, s.active, s.inactive) by { Inside(s.stack, s.active, s.inactive); }
    TopParked(s);
    match f
    case KillAfter(t, running) =>
      KillingPush(KillWait(t), rest, s.active, s.inactive);
    case CancelLoop(act, next) =>
      if next != null {
        var g := CancelLoop(act, Behind(if act then s.active else s.inactive, next));
        WithoutIs(if act then s.active else s.inactive, next);
        Replace(s, g);
        KillingPush(g, rest, s.active, s.inactive);
        if !act { DisjointWithout(s.active, s.inactive, next); }
        CancelledUnder(c, s.(stack := [g] + rest), next, resumed);
      }
    case KillActive =>
      if s.active != [] {
        KilledUnder(c, s, s.active[0], resumed);
      } else {
        KillingPush(KillPending(First(s.inactive)), rest, s.active, s.inactive);
      }
    case KillPending(next) =>
      if next != null {
        LoopKeeps(c, s, f, next);
        CompletedUnder(c, s, next, resumed);
      }
  }

  lemma Inside(st: seq<Frame>, active: seq<Task>, inactive: seq<Task>)
    requires Killing(st, active, inactive) && st[1..] != []
    ensures Killing(st[1..], active, inactive)
  {
  }

  lemma {:induction false} UnwoundUnder(c: Config, s: State, resumed: bool)
    requires Under(s, resumed)
    ensures Under(Unwound(s), resumed)
    decreases |s.stack|, if s.stack != [] && s.stack[0].KillActive? then 1 else 0
  {
    hide Under, Stepped;
    if !Settled(s.stack) {
      if s.stack[1..] == [] { LastStep(c, s, resumed); } else { InnerStep(c, s, resumed); }
      StepShrinks(s);
      if !Settled(Stepped(s).stack) { UnwoundUnder(c, Stepped(s), resumed); }
    }
  }

  lemma ReturnedUnder(c: Config, s: State, resumed: bool)
    requires Under(s, resumed) && s.stack != [] && Waits(s.stack[0])
    ensures Under(Returned(c, s), resumed)
  {
    hide Distinct, Disjoint, Fine, Unwound;
    var r := s.(stack := s.stack[1..]);
    assert s.stack == [s.stack[0]] + r.stack;
    Rest(s);
    ArmKeeps(c, r);
    UnwoundUnder(c, if s.stack[0].Completing? || s.stack[0].KillWait? then Arm(r) else r, resumed);
  }

  lemma {:induction false} LoopsUnder(c: Config, s: State, f: Frame, resumed: bool)
    requires Under(s, resumed) && Settled(s.stack)
    requires f.KillActive? || (f.CancelLoop? && f.next == First(if f.active then s.active else s.inactive))
    ensures Under(Unwound(s.(stack := [f] + s.stack)), resumed)
  {
    hide Distinct, Disjoint, Fine, Unwound, Killing;
    var r := s.(stack := [f] + s.stack);
    FirstIn(if f.CancelLoop? && f.active then s.active else s.inactive);
    FinePush(f, s.stack, s.active, s.inactive);
    if s.stack != [] {
      KillingPush(f, s.stack, s.active, s.inactive);
      UnwoundUnder(c, r, resumed);
    } else if f.KillActive? {
      KillBegins(s);
      UnwoundUnder(c, r, resumed);
    } else {
      UnwindOne(r);
      assert r.stack[1..] == [];
      SettledStays(s);
    }
  }

  lemma KillBegins(s: State)
    requires s.stack == []
    ensures Killing([KillActive] + s.stack, s.active, s.inactive)
  {
    assert ([KillActive] + s.stack)[1..] == [];
  }

  lemma MovingUnder(c: Config, s: State, m: Move, resumed: bool)
    requires Under(s, resumed) && (m == Resume ==> resumed) && !m.Add? && !m.Fire?
    ensures Under(Moving(c, s, m), resumed)
  {
    hide Distinct, Disjoint, Fine, Killing, Unwound, Returned, Completed, Cancelled, Killed, First;
    if Settled(s.stack) {
      match m
      case TimeOut(t) => if t in s.timing && t in s.active { TimedOutUnder(c, s, t, resumed); }
      case Stop => ResumedKeeps(c, s);
      case Resume => ResumedKeeps(c, s);
      case Complete(t) => if t in s.active || t in s.inactive { CompletedUnder(c, s, t, resumed); }
      case Cancel(t) => if t in s.active || t in s.inactive { CancelledUnder(c, s, t, resumed); }
      case Kill(t) => if t in s.active || t in s.inactive { KilledUnder(c, s, t, resumed); }
      case CancelAll(act) => LoopsUnder(c, s, CancelLoop(act, First(if act then s.active else s.inactive)), resumed);
      case KillAll => LoopsUnder(c, s, KillActive, resumed);
      case Return => if s.stack != [] { ReturnedUnder(c, s, resumed); }
    }
  }

  lemma {:induction false} PlayUnder(c: Config, s: State, ms: seq<Move>, resumed: bool)
    requires Under(s, resumed) && (Resume in ms ==> resumed) && forall m :: m in ms ==> !m.Add? && !m.Fire?
    ensures Under(Play(c, s, ms), resumed)
    decreases |ms|
  {
    hide Under, Moving;
    if ms != [] {
      MovingUnder(c, s, ms[0], resumed);
      PlayUnder(c, Moving(c, s, ms[0]), ms[1..], resumed);
    }
  }

  /** A kill that is not called from a callback, with callbacks that may do anything but
      add a task or wait until a timer of the queue fires: when it is over, both lists
      are empty, and so is the timer unless the queue was resumed. */
  lemma KillClears(c: Config, s: State, ms: seq<Move>)
    requires Ok(s) && s.stack == [] && forall m :: m in ms ==> !m.Add? && !m.Fire?
    ensures var r := Play(c, KilledAll(s), ms);
            r.stack == [] ==> r.active == [] && r.inactive == [] && (Resume !in ms ==> Cleared(r))
  {
    hide Fine, Distinct, Disjoint, Unwound, Play, Killing;
    var r, resumed := s.(stack := [KillActive] + s.stack), Resume in ms;
    KillBegins(s);
    FinePush(KillActive, s.stack, s.active, s.inactive);
    UnwoundUnder(c, r, resumed);
    PlayUnder(c, KilledAll(s), ms, resumed);
  }

  /** When the callbacks only return, the running tasks are completed and killed one after
      the other, first in, first out, then the pending ones are completed in the same way,
      and the kill is over. */
  lemma KillInOrder(c: Config, s: State, k: nat)
    requires Ok(s) && s.stack == []
    ensures k < |s.active| ==> Struck(c, s, KilledAll(s), k)
    ensures k < |s.inactive| ==>
              var r := Play(c, KilledAll(s), Returns(2 * |s.active| + k));
              r.stack != [] && r.stack[0] == Completing(s.inactive[k]) && r.active == []
              && r.inactive == s.inactive[k + 1..]
    ensures Cleared(Play(c, KilledAll(s), Returns(2 * |s.active| + |s.inactive|)))
  {
    hide Play, Unwound, Returns;
    var r := s.(stack := [KillActive] + s.stack);
    assert r.stack == [KillActive] && [KillActive][1..] == [];
    KillRun(c, r, k);
  }
}
