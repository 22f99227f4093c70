/** runqueue.c: what runs of a queue come to. */
module RunQueueRuns {
  import opened RunQueueSpec
  import opened RunQueueAwake

  // ----- the callback of an empty queue

  predicate HasRestart(st: seq<Frame>) { st != [] && (Restarts(st[0]) || HasRestart(st[1..])) }

  predicate NoKill(st: seq<Frame>) { st != [] ==> !st[0].KillActive? && !st[0].KillPending? && NoKill(st[1..]) }

  /** If no task is left, the callback is due: the timer is armed for it, or to look for
      tasks, or a call that has not returned is going to. */
  predicate Due(s: State) {
    && Ok(s) && NoKill(s.stack)
    && (s.active == [] && s.inactive == [] ==>
          if s.empty then s.timer == Empty else s.timer == Start || HasRestart(s.stack))
  }

  lemma {:induction false} MovedRestart(st: seq<Frame>, act: bool, t: Task, b: Task?)
    ensures HasRestart(AllMoved(st, act, t, b)) == HasRestart(st) && NoKill(AllMoved(st, act, t, b)) == NoKill(st)
  {
    if st != [] { MovedRestart(st[1..], act, t, b); }
  }

  lemma RestartPush(f: Frame, st: seq<Frame>)
    ensures HasRestart([f] + st) == (Restarts(f) || HasRestart(st))
    ensures NoKill([f] + st) == (!f.KillActive? && !f.KillPending? && NoKill(st))
  {
    assert ([f] + st)[1..] == st;
  }

  lemma CompletedDue(c: Config, s: State, t: Task)
    requires Ok(s) && NoKill(s.stack) && (t in s.active || t in s.inactive)
    ensures Due(Completed(s, t))
  {
    hide Fine, Distinct, Disjoint, Without, Behind, AllMoved, HasRestart, NoKill;
    if s.stack != [] { TopKept(s.stack); }
    CompletedOk(s, t);
    MovedRestart(s.stack, t in s.active, t, Behind(if t in s.active then s.active else s.inactive, t));
    RestartPush(Completing(t), Shifted(s.stack, s.active, s.inactive, t));
  }

  lemma TopKept(st: seq<Frame>)
    requires NoKill(st) && st != []
    ensures !st[0].KillActive? && !st[0].KillPending? && NoKill(st[1..])
  {
  }

  lemma KilledDue(c: Config, s: State, t: Task)
    requires Ok(s) && NoKill(s.stack) && (t in s.active || t in s.inactive) && Settled(s.stack)
    ensures Due(Killed(s, t))
  {
    hide Fine, Distinct, Disjoint, Completed, HasRestart, NoKill;
    var f := KillAfter(t, t in s.active);
    FinePush(f, s.stack, s.active, s.inactive);
    RestartPush(f, s.stack);
    CompletedDue(c, s.(stack := [f] + s.stack), t);
  }

  lemma CancelledDue(c: Config, s: State, t: Task)
    requires Ok(s) && NoKill(s.stack) && (t in s.active || t in s.inactive)
    requires s.stack != [] ==> Above(s.stack[0], CancelWait(t)) || t !in s.active
    ensures Due(Cancelled(s, t))
  {
    hide Fine, Distinct, Disjoint, Completed, HasRestart, NoKill;
    if t in s.active {
      FinePush(CancelWait(t), s.stack, s.active, s.inactive);
      RestartPush(CancelWait(t), s.stack);
    } else {
      CompletedDue(c, s, t);
    }
  }

  lemma SteppedDue(c: Config, s: State)
    requires Due(s) && s.stack != [] && !Waits(s.stack[0])
    ensures Due(Stepped(s))
  {
    hide Fine, Distinct, Disjoint, Completed, Cancelled, Behind, Without, HasRestart, NoKill;
    var f, rest := s.stack[0], s.stack[1..];
    assert s.stack == [f] + rest;
    StepKeeps(c, s);
    TopKept(s.stack);
    RestartPush(f, rest);
    TopParked(s);
    match f
    case KillAfter(t, running) =>
      RestartPush(KillWait(t), rest);
    case CancelLoop(act, next) =>
      if next != null {
        var l := if act then s.active else s.inactive;
        var g := CancelLoop(act, Behind(l, next));
        WithoutIs(l, next);
        Replace(s, g);
        RestartPush(g, rest);
        if !act { DisjointWithout(s.active, s.inactive, next); }
        CancelledDue(c, s.(stack := [g] + rest), next);
      }
    case KillActive =>
    case KillPending(_) =>
  }

  lemma {:induction false} UnwoundDue(c: Config, s: State)
    requires Due(s)
    ensures Due(Unwound(s))
    decreases |s.stack|, if s.stack != [] && s.stack[0].KillActive? then 1 else 0
  {
    hide Due, Stepped;
    if !Settled(s.stack) {
      SteppedDue(c, s);
      StepShrinks(s);
      if !Settled(Stepped(s).stack) { UnwoundDue(c, Stepped(s)); }
    }
  }

  lemma StartedDue(c: Config, s: State)
    requires Ok(s) && NoKill(s.stack) && Settled(s.stack) && c.emptyCb && (s.empty ==> s.timer == Empty)
    ensures Due(StartedNext(c, s))
  {
    hide Fine, Distinct, Disjoint, AllMoved, Behind, HasRestart, NoKill, StartedNext;
    StartedNextKeeps(c, s);
    StartedIs(c, s);
    StartedStack(c, s);
  }

  lemma StartedStack(c: Config, s: State)
    requires NoKill(s.stack)
    ensures NoKill(StartedNext(c, s).stack)
  {
    hide HasRestart, NoKill;
    if Needs(c, s) {
      var t := s.inactive[0];
      var b := Behind(s.inactive, t);
      MovedRestart(s.stack, false, t, b);
      RestartPush(RunWait(t), AllMoved(s.stack, false, t, b));
    }
  }

  lemma ReturnedDue(c: Config, s: State)
    requires Due(s) && s.stack != [] && Waits(s.stack[0]) && c.emptyCb
    ensures Due(Returned(c, s))
  {
    hide Fine, Distinct, Disjoint, HasRestart, NoKill, StartedNext, Unwound;
    var f, rest := s.stack[0], s.stack[1..];
    var r := s.(stack := rest);
    assert s.stack == [f] + rest;
    Rest(s);
    TopKept(s.stack);
    RestartPush(f, rest);
    if f.RunWait? {
      BelowRun(s);
      StartedDue(c, r);
      UnwoundDue(c, StartedNext(c, r));
    } else {
      ArmKeeps(c, r);
      UnwoundDue(c, if f.Completing? || f.KillWait? then Arm(r) else r);
    }
  }

  lemma LoopDue(c: Config, s: State, act: bool)
    requires Due(s) && Settled(s.stack)
    ensures Due(CancelledAll(s, act))
  {
    hide Fine, Distinct, Disjoint, HasRestart, NoKill, Unwound;
    var l := if act then s.active else s.inactive;
    var f := CancelLoop(act, First(l));
    FirstIn(l);
    FinePush(f, s.stack, s.active, s.inactive);
    RestartPush(f, s.stack);
    UnwoundDue(c, s.(stack := [f] + s.stack));
  }

  lemma MovingDue(c: Config, s: State, m: Move)
    requires Due(s) && c.emptyCb && m != KillAll && (m == Fire ==> s.timer != Empty)
    ensures Due(Moving(c, s, m))
  {
    hide Fine, Distinct, Disjoint, HasRestart, NoKill, StartedNext, Unwound, Returned, Completed, Cancelled, Killed,
         CancelledAll, Listed;
    if Settled(s.stack) {
      match m
      case Add(t, run, first) =>
        if t !in s.active && t !in s.inactive {
          AddedOk(c, s, t, run, first);
          Some(s, t, run, first);
        }
      case Fire => if s.timer == Start { StartedDue(c, s.(timer := Off)); }
      case TimeOut(t) => if t in s.timing && t in s.active {
        KilledDue(c, s.(timing := s.timing - {t}), t);
        CancelledDue(c, s.(timing := s.timing - {t}), t);
      }
      case Stop => ResumedKeeps(c, s);
      case Resume => ResumedKeeps(c, s);
      case Complete(t) => if t in s.active || t in s.inactive { CompletedDue(c, s, t); }
      case Cancel(t) => if t in s.active || t in s.inactive { CancelledDue(c, s, t); }
      case Kill(t) => if t in s.active || t in s.inactive { KilledDue(c, s, t); }
      case CancelAll(act) => LoopDue(c, s, act);
      case Return => if s.stack != [] { ReturnedDue(c, s); }
    }
  }

  lemma Some(s: State, t: Task, run: bool, first: bool)
    ensures Added(s, t, run, first).active != [] || Added(s, t, run, first).inactive != []
  {
  }

  lemma {:induction false} PlayDue(c: Config, s: State, ms: seq<Move>)
    requires Due(s) && c.emptyCb && KillAll !in ms
    requires forall k :: 0 <= k < |ms| && ms[k] == Fire ==> Play(c, s, ms[..k]).timer != Empty
    ensures Due(Play(c, s, ms))
    decreases |ms|
  {
    hide Due, Moving, Play;
    PlayIs(c, s, ms);
    if ms != [] {
      assert ms[..0] == [];
      PlayIs(c, s, []);
      MovingDue(c, s, ms[0]);
      var r := Moving(c, s, ms[0]);
      forall k | 0 <= k < |ms[1..]| && ms[1..][k] == Fire
        ensures Play(c, r, ms[1..][..k]).timer != Empty
      {
        assert ms[k + 1] == Fire && ms[..k + 1][1..] == ms[1..][..k] && ms[..k + 1][0] == ms[0];
        PlayIs(c, s, ms[..k + 1]);
      }
      PlayDue(c, r, ms[1..]);
    }
  }

  lemma PlayIs(c: Config, s: State, ms: seq<Move>)
    ensures Play(c, s, ms) == if ms == [] then s else Play(c, Moving(c, s, ms[0]), ms[1..])
  {
    hide Moving;
  }

  /** A queue with tasks and a callback for when it is empty, and any run without a
      runqueue_kill: when no task is left and no callback is running, the timer is armed,
      and the empty callback is called when it fires, or when it fires once more. */
  lemma EmptyCalled(c: Config, s: State, ms: seq<Move>)
    requires Ok(s) && s.stack == [] && (s.active != [] || s.inactive != []) && c.emptyCb && KillAll !in ms
    requires forall k :: 0 <= k < |ms| && ms[k] == Fire ==> Play(c, s, ms[..k]).timer != Empty
    ensures var r := Play(c, s, ms);
            r.stack == [] && r.active == [] && r.inactive == [] ==>
              && r.timer != Off
              && var once := Moving(c, r, Fire);
              if r.timer == Empty then once.stack == [EmptyWait]
              else once.timer == Empty && once.stack == [] && Moving(c, once, Fire).stack == [EmptyWait]
  {
    hide Fine, Distinct, Disjoint, Play;
    PlayDue(c, s, ms);
  }

  // ----- runs in which the callbacks only return

  function Returns(n: nat): (ms: seq<Move>)
    ensures |ms| == n && forall m :: m in ms ==> m == Return
  {
    seq(n, _ => Return)
  }

  lemma PlayReturn(c: Config, s: State, n: nat)
    requires n > 0 && s.stack != [] && Waits(s.stack[0])
    ensures Play(c, s, Returns(n)) == Play(c, Returned(c, s), Returns(n - 1))
  {
    hide Returned, Play;
    PlayIs(c, s, Returns(n));
    assert Returns(n)[1..] == Returns(n - 1);
  }

  lemma PlayNone(c: Config, s: State)
    ensures Play(c, s, Returns(0)) == s
  {
  }

  /** How many pending tasks may be started. */
  function Places(c: Config, s: State): nat {
    if s.stopped then 0
    else if c.max == 0 || |s.active| + |s.inactive| <= c.max then |s.inactive|
    else if |s.active| < c.max then c.max - |s.active| else 0
  }

  lemma OneStart(c: Config, s: State)
    requires Ok(s) && s.stack == [] && c.max >= 0
    ensures var r := StartedNext(c, s);
            && (Places(c, s) == 0 ==> r.active == s.active && r.inactive == s.inactive && r.stack == [])
            && (Places(c, s) > 0 ==>
                  && s.inactive != [] && r.active == s.active + [s.inactive[0]] && r.inactive == s.inactive[1..]
                  && r.stack == [RunWait(s.inactive[0])] && Places(c, r) == Places(c, s) - 1 && r.stopped == s.stopped)
            && Ok(r)
  {
    hide Fine, Distinct, Disjoint;
    StartedNextKeeps(c, s);
  }

  /** The k-th return starts the k-th pending task, as long as there is a place. */
  lemma {:induction false} StartMore(c: Config, s: State, k: nat)
    requires Ok(s) && c.max >= 0 && |s.stack| == 1 && s.stack[0].RunWait? && k <= Places(c, s)
    ensures k <= |s.inactive|
    ensures var r := Play(c, s, Returns(k));
            && r.active == s.active + s.inactive[..k] && r.inactive == s.inactive[k..]
            && (if k == 0 then r.stack == s.stack else r.stack == [RunWait(s.inactive[k - 1])])
    ensures var r := Play(c, s, Returns(Places(c, s) + 1));
            && r.stack == [] && r.active == s.active + s.inactive[..Places(c, s)]
            && r.inactive == s.inactive[Places(c, s)..]
    decreases Places(c, s)
  {
    hide Fine, Distinct, Disjoint, StartedNext, Returned, Play, Ok, Places;
    var b := s.(stack := []);
    assert s.stack[1..] == [] && s.stack == [s.stack[0]]
           && Places(c, b) == Places(c, s) <= |s.inactive| by { Fit(c, s, b); }
    assert Ok(b) by { Rest(s); }
    ReturnedIs(c, s);
    OneStart(c, b);
    PlayReturn(c, s, Places(c, s) + 1);
    PlayNone(c, s);
    var r := StartedNext(c, b);
    if Places(c, s) == 0 {
      PlayNone(c, r);
    } else {
      StartMore(c, r, if k == 0 then 0 else k - 1);
      if k > 0 { PlayReturn(c, s, k); }
      Shift(s.active, s.inactive, Places(c, s));
      Shift(s.active, s.inactive, k);
    }
  }

  lemma {:induction false} Fit(c: Config, s: State, b: State)
    requires b == s.(stack := []) && c.max >= 0
    ensures Places(c, b) == Places(c, s) <= |s.inactive|
  {
  }

  lemma {:induction false} TimerOff(c: Config, s: State)
    requires Ok(s) && c.max >= 0
    ensures var b := s.(timer := Off); Ok(b) && Places(c, b) == Places(c, s) <= |s.inactive|
  {
    hide Fine, Distinct, Disjoint;
  }

  lemma Shift(a: seq<Task>, l: seq<Task>, k: nat)
    requires k <= |l|
    ensures k > 0 ==> a + [l[0]] + l[1..][..k - 1] == a + l[..k] && l[1..][k - 1..] == l[k..]
    ensures k > 1 ==> l[1..][k - 2] == l[k - 1]
  {
  }

  /** The timer starts the pending tasks first in, first out, each when run() of the one
      before returns, until the limit is reached. */
  lemma StartsInOrder(c: Config, s: State, k: nat)
    requires Ok(s) && s.stack == [] && s.timer == Start && c.max >= 0 && k < Places(c, s)
    ensures Places(c, s) <= |s.inactive|
    ensures var r := Play(c, Fired(c, s), Returns(k));
            r.active == s.active + s.inactive[..k + 1] && r.stack == [RunWait(s.inactive[k])]
    ensures var r, n := Play(c, Fired(c, s), Returns(Places(c, s))), Places(c, s);
            r.active == s.active + s.inactive[..n] && r.inactive == s.inactive[n..] && r.stack == []
  {
    hide Fine, Distinct, Disjoint, StartedNext, Play, Returns, Ok, Places;
    var b := s.(timer := Off);
    assert Ok(b) && Places(c, b) == Places(c, s) <= |s.inactive| by { TimerOff(c, s); }
    OneStart(c, b);
    StartMore(c, StartedNext(c, b), k);
    Shift(s.active, s.inactive, k + 1);
    Shift(s.active, s.inactive, Places(c, s));
  }

  // ----- cancelling

  function From(l: seq<Task>, k: nat): Task? { if k < |l| then l[k] else null }

  lemma {:induction false} BehindAt(l: seq<Task>, k: nat)
    requires Distinct(l) && k < |l|
    ensures Behind(l, l[k]) == From(l, k + 1)
  {
    hide Distinct;
    IndexAt(l, k);
    assert k + 1 < |l| ==> l[k + 1..][0] == l[k + 1];
  }

  lemma IndexAt(l: seq<Task>, k: nat)
    requires Distinct(l) && k < |l|
    ensures Index(l, l[k]) == k
  {
    hide Index;
  }

  /** The loop over the running tasks goes on from the k-th: it asks that one, and then
      waits for its callback. */
  lemma {:induction false} LoopAt(c: Config, s: State, rest: seq<Frame>, k: nat)
    requires Ok(s) && Settled(rest) && k <= |s.active| && s.stack == [CancelLoop(true, From(s.active, k))] + rest
    ensures k == |s.active| ==> Unwound(s) == s.(stack := rest)
    ensures k < |s.active| ==>
              var t := s.active[k];
              var loop := [CancelLoop(true, From(s.active, k + 1))] + rest;
              && Unwound(s) == s.(stack := [CancelWait(t)] + loop, cancelled := s.cancelled + {t},
                                  timing := if t.cancelTimeout then s.timing + {t} else s.timing)
              && Ok(Unwound(s)) && Unwound(s).stack[1..] == loop
              && Returned(c, Unwound(s)) == Unwound(Unwound(s).(stack := loop))
              && Ok(Unwound(s).(stack := loop))
  {
    hide Fine, Distinct, Disjoint, Behind;
    UnwindOne(s);
    assert s.stack[1..] == rest;
    UnwoundKeeps(c, s);
    if k == |s.active| {
      SettledStays(s.(stack := rest));
    } else {
      BehindAt(s.active, k);
      SettledStays(Stepped(s));
      Rest(Unwound(s));
    }
  }

  /** The tasks asked to stop, and those of them with a timeout. */
  ghost function Asked(s: State, l: seq<Task>): State {
    s.(cancelled := s.cancelled + (set t | t in l),
       timing := s.timing + set t | t in l && t.cancelTimeout)
  }

  lemma {:induction false} AskedMore(s: State, l: seq<Task>, k: nat)
    requires k < |l|
    ensures var t, r := l[k], s.(cancelled := s.cancelled + {l[k]},
                                 timing := if l[k].cancelTimeout then s.timing + {l[k]} else s.timing);
            Asked(r, l[k + 1..]) == Asked(s, l[k..])
  {
    assert l[k..] == [l[k]] + l[k + 1..];
    var r := s.(cancelled := s.cancelled + {l[k]},
                timing := if l[k].cancelTimeout then s.timing + {l[k]} else s.timing);
    assert Asked(r, l[k + 1..]).cancelled == Asked(s, l[k..]).cancelled;
    assert Asked(r, l[k + 1..]).timing == Asked(s, l[k..]).timing;
  }

  lemma {:induction false} LoopAsks(c: Config, s: State, rest: seq<Frame>, k: nat)
    requires Ok(s) && Settled(rest) && k <= |s.active| && s.stack == [CancelLoop(true, From(s.active, k))] + rest
    ensures Play(c, Unwound(s), Returns(|s.active| - k)) == Asked(s, s.active[k..]).(stack := rest)
    decreases |s.active| - k
  {
    hide Fine, Distinct, Disjoint, Behind, Unwound, Returned, Play, Asked;
    LoopAt(c, s, rest, k);
    if k == |s.active| {
      PlayNone(c, Unwound(s));
      AskedNone(s);
    } else {
      var u := Unwound(s);
      var loop := [CancelLoop(true, From(s.active, k + 1))] + rest;
      PlayReturn(c, u, |s.active| - k);
      LoopAsks(c, u.(stack := loop), rest, k + 1);
      AskedMore(s, s.active, k);
      AskedStack(u, loop, rest, s.active[k + 1..]);
      AskedStack(s.(cancelled := u.cancelled, timing := u.timing), u.stack, rest, s.active[k + 1..]);
    }
  }

  lemma AskedNone(s: State)
    ensures Asked(s, s.active[|s.active|..]) == s
  {
    var a := Asked(s, s.active[|s.active|..]);
    assert a.cancelled == s.cancelled && a.timing == s.timing;
  }

  lemma {:induction false} AskedStack(s: State, st: seq<Frame>, rest: seq<Frame>, l: seq<Task>)
    ensures Asked(s.(stack := st), l).(stack := rest) == Asked(s, l).(stack := rest)
  {
  }

  /** runqueue_cancel_active, from anywhere, with callbacks that only return: every running
      task has been asked to stop, and nothing else has changed. */
  lemma AllAsked(c: Config, s: State)
    requires Ok(s) && Settled(s.stack)
    ensures var r := Play(c, CancelledAll(s, true), Returns(|s.active|));
            && r.active == s.active && r.inactive == s.inactive && r.stack == s.stack && r.timer == s.timer
            && r.cancelled == s.cancelled + (set t | t in s.active)
            && r.timing == s.timing + set t | t in s.active && t.cancelTimeout
  {
    hide Fine, Distinct, Disjoint, Unwound, Play;
    var f := CancelLoop(true, First(s.active));
    FirstIn(s.active);
    FinePush(f, s.stack, s.active, s.inactive);
    LoopAsks(c, s.(stack := [f] + s.stack), s.stack, 0);
    assert s.active[0..] == s.active;
  }

  /** The loop over the pending tasks completes the first one. */
  lemma {:induction false} LoopCompletes(c: Config, s: State)
    requires Ok(s) && s.stack == [CancelLoop(false, First(s.inactive))]
    ensures s.inactive == [] ==> Unwound(s) == s.(stack := [])
    ensures s.inactive != [] ==>
              var u, t := Unwound(s), s.inactive[0];
              && u.stack == [Completing(t), CancelLoop(false, First(s.inactive[1..]))] && Ok(u)
              && u.inactive == s.inactive[1..] && u.active == s.active && u.timer == s.timer && u.empty == s.empty
              && u.stack[1..] == [CancelLoop(false, First(s.inactive[1..]))]
              && var r := u.(stack := u.stack[1..], timer := Start); Ok(r) && Returned(c, u) == Unwound(r)
  {
    hide Fine, Distinct, Disjoint, Shifted;
    UnwindOne(s);
    assert s.stack[1..] == [];
    UnwoundKeeps(c, s);
    if s.inactive == [] {
      SettledStays(s.(stack := []));
    } else {
      var t := s.inactive[0];
      DisjointWithout(s.active, s.inactive, t);
      WithoutIs(s.inactive, t);
      FirstOut(s.inactive);
      LoopKeeps(c, s, CancelLoop(false, t), t);
      FirstBehind(s.inactive);
      LoopMoved(t, First(s.inactive[1..]), s.active, s.inactive);
      SettledStays(Stepped(s));
      Rest(Unwound(s));
      ArmKeeps(c, Unwound(s).(stack := Unwound(s).stack[1..]));
    }
  }

  lemma FirstBehind(l: seq<Task>)
    requires l != []
    ensures Behind(l, l[0]) == First(l[1..])
  {
  }

  lemma LoopMoved(t: Task, b: Task?, active: seq<Task>, inactive: seq<Task>)
    requires t !in active && b == Behind(inactive, t)
    ensures Shifted([CancelLoop(false, t)], active, inactive, t) == [CancelLoop(false, b)]
  {
    assert [CancelLoop(false, t)][1..] == [];
  }

  lemma {:induction false} LoopClears(c: Config, s: State, k: nat)
    requires Ok(s) && s.stack == [CancelLoop(false, First(s.inactive))] && k < |s.inactive|
    ensures var r := Play(c, Unwound(s), Returns(k));
            r.stack != [] && r.stack[0] == Completing(s.inactive[k]) && r.inactive == s.inactive[k + 1..]
            && r.active == s.active
    ensures var r := Play(c, Unwound(s), Returns(|s.inactive|));
            r.stack == [] && r.inactive == [] && r.active == s.active && r.timer == Start
    decreases |s.inactive|
  {
    hide Fine, Distinct, Disjoint, Unwound, Returned, Play, First;
    LoopCompletes(c, s);
    var u := Unwound(s);
    var r := u.(stack := u.stack[1..], timer := Start);
    PlayReturn(c, u, |s.inactive|);
    PlayNone(c, u);
    if k > 0 { PlayReturn(c, u, k); }
    if |s.inactive| == 1 {
      LoopCompletes(c, r);
      PlayNone(c, Unwound(r));
    } else {
      LoopClears(c, r, if k == 0 then 0 else k - 1);
    }
  }

  /** runqueue_cancel_pending, from outside, with callbacks that only return: the pending
      tasks complete one after the other, first in first out, and none is left. */
  lemma AllCompleted(c: Config, s: State, k: nat)
    requires Ok(s) && s.stack == [] && k < |s.inactive|
    ensures var r := Play(c, CancelledAll(s, false), Returns(k));
            && r.stack != [] && r.stack[0] == Completing(s.inactive[k])
            && r.inactive == s.inactive[k + 1..] && r.active == s.active
    ensures var r := Play(c, CancelledAll(s, false), Returns(|s.inactive|));
            r.stack == [] && r.inactive == [] && r.active == s.active && r.timer == Start
  {
    hide Fine, Distinct, Disjoint, Unwound, Play;
    var f := CancelLoop(false, First(s.inactive));
    FirstIn(s.inactive);
    FinePush(f, s.stack, s.active, s.inactive);
    assert [f] + s.stack == [f];
    LoopClears(c, s.(stack := [f]), k);
  }
}
