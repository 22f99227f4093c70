/** uloop.c: the list of timers, kept in order by a comparison that rounds. */
module UloopTimer {

  datatype Time = Time(sec: int, usec: int)

  /** C's division and remainder, which round towards zero. */
  function Quot(x: int, d: int): int
    requires d > 0
  {
    if x >= 0 then x / d else -((-x) / d)
  }

  function Rem(x: int, d: int): int
    requires d > 0
  {
    x - d * Quot(x, d)
  }

  /** `tv_diff`, in milliseconds. */
  function Diff(a: Time, b: Time): int { (a.sec - b.sec) * 1000 + Quot(a.usec - b.usec, 1000) }

  /** A time in microseconds: what tv_diff rounds. */
  function Micros(t: Time): int { t.sec * 1000000 + t.usec }

  /** The rounding loses less than a millisecond, in either direction. */
  lemma DiffClose(a: Time, b: Time)
    ensures -1000 < 1000 * Diff(a, b) - (Micros(a) - Micros(b)) < 1000
    ensures Diff(b, a) == -Diff(a, b)
  {
  }

  /** The seconds count in full, and the difference of the microseconds loses its part of
      a millisecond towards zero. */
  lemma DiffRounds(a: Time, b: Time)
    ensures var q, d := Diff(a, b) - 1000 * (a.sec - b.sec), a.usec - b.usec;
            (d >= 0 ==> 0 <= d - 1000 * q < 1000) && (d <= 0 ==> 0 <= 1000 * q - d < 1000)
  {
  }

  /** Equality up to rounding is no equivalence: a chain of timers that tv_diff cannot
      tell apart drifts, so a list where neighbours are in order need not be. */
  lemma NeighboursAreNotEnough()
    ensures var a, b, c := Time(0, 1200), Time(0, 600), Time(0, 0);
            Diff(a, b) <= 0 && Diff(b, c) <= 0 && Diff(a, c) > 0
  {
  }

  /** "Later" is transitive, whatever the fields hold, even outside 0..999999. */
  lemma LaterTransitive(a: Time, b: Time, c: Time)
    requires Diff(a, b) > 0 && Diff(b, c) > 0
    ensures Diff(a, c) > 0
  {
    DiffClose(a, b);
    DiffClose(b, c);
    LaterMeans(a, b);
    LaterMeans(b, c);
    LaterMeans(a, c);
  }

  /** When the difference of the microseconds is negative, rounding goes up. */
  lemma LaterMeans(a: Time, b: Time)
    ensures Diff(a, b) > 0 <==> Micros(a) - Micros(b) >= if a.usec < b.usec then 1 else 1000
  {
  }

  ghost predicate Ordered(ts: seq<Time>) { forall i, j :: 0 <= i < j < |ts| ==> Diff(ts[i], ts[j]) <= 0 }

  /** A place in front of the first later timer keeps every pair in order. */
  lemma InsertOrdered(ts: seq<Time>, p: nat, t: Time)
    requires Ordered(ts) && p <= |ts|
    requires forall i :: 0 <= i < p ==> Diff(ts[i], t) <= 0
    requires p < |ts| ==> Diff(ts[p], t) > 0
    ensures Ordered(ts[..p] + [t] + ts[p..])
  {
    hide Diff;
    var r := ts[..p] + [t] + ts[p..];
    forall i, j | 0 <= i < j < |r|
      ensures Diff(r[i], r[j]) <= 0
    {
      if i == p {
        DiffClose(t, ts[j - 1]);
        DiffClose(ts[p], ts[j - 1]);
        if Diff(t, ts[j - 1]) > 0 { LaterTransitive(ts[p], t, ts[j - 1]); }
      }
    }
  }

  lemma RemoveOrdered(ts: seq<Time>, p: nat)
    requires Ordered(ts) && p < |ts|
    ensures Ordered(ts[..p] + ts[p + 1..])
  {
    hide Diff;
    var r := ts[..p] + ts[p + 1..];
    forall i, j | 0 <= i < j < |r|
      ensures Diff(r[i], r[j]) <= 0
    {
      var i', j' := if i < p then i else i + 1, if j < p then j else j + 1;
      assert r[i] == ts[i'] && r[j] == ts[j'];
    }
  }

  class Timeout {
    var pending: bool
    var time: Time

    constructor ()
      ensures !pending
    {
      pending := false;
      time := Time(0, 0);
    }
  }

  /** The deadlines of a list of timers. */
  ghost function Times(l: seq<Timeout>): (ts: seq<Time>)
    reads l
    ensures |ts| == |l| && forall i :: 0 <= i < |l| ==> ts[i] == l[i].time
  {
    seq(|l|, i requires 0 <= i < |l| reads l => l[i].time)
  }

  ghost predicate Distinct(l: seq<Timeout>) { forall i, j :: 0 <= i < j < |l| ==> l[i] != l[j] }

  lemma DistinctRemove(l: seq<Timeout>, p: nat)
    requires Distinct(l) && p < |l|
    ensures var r := l[..p] + l[p + 1..]; Distinct(r) && l[p] !in r && forall t :: t in r ==> t in l
  {
    var r := l[..p] + l[p + 1..];
    forall i | 0 <= i < |r|
      ensures r[i] == if i < p then l[i] else l[i + 1]
    {
    }
  }

  lemma DistinctInsert(l: seq<Timeout>, p: nat, t: Timeout)
    requires Distinct(l) && p <= |l| && t !in l
    ensures Distinct(l[..p] + [t] + l[p..])
  {
  }

  lemma Reassociate(a: seq<Timeout>, t: Timeout, b: seq<Timeout>)
    ensures a + ([t] + b) == (a + [t]) + b
  {
  }

  lemma FirstPlace(l: seq<Timeout>, p: nat)
    requires Distinct(l) && p < |l| && l[p] == l[0]
    ensures l == [l[0]] + (l[..p] + l[p + 1..]) && l[0] !in l[..p] + l[p + 1..]
  {
    DistinctRemove(l, p);
  }

  /** Behind a timer that is not due, nothing is overdue. */
  lemma Remaining(ts: seq<Time>, now: Time)
    requires Ordered(ts) && (ts != [] ==> Diff(ts[0], now) > 0)
    ensures forall i :: 0 <= i < |ts| ==> Diff(ts[i], now) >= 0
  {
    hide Diff;
    forall i | 0 <= i < |ts|
      ensures Diff(ts[i], now) >= 0
    {
      if i > 0 && Diff(ts[i], now) < 0 {
        DiffClose(ts[i], now);
        LaterTransitive(ts[0], now, ts[i]);
        assert false;
      }
    }
  }

  class Uloop {
    /** The list `timeouts`, first to last. */
    var timeouts: seq<Timeout>

    ghost predicate Valid()
      reads this, timeouts
    {
      && Distinct(timeouts) && (forall t :: t in timeouts ==> t.pending)
      && Ordered(Times(timeouts))
    }

    constructor ()
      ensures Valid() && timeouts == []
    {
      timeouts := [];
    }

    /** `uloop_timeout_add`: `p` is the place the timer gets, in front of the first later one. */
    method TimeoutAdd(t: Timeout) returns (ret: int, ghost p: nat)
      requires Valid() && (t.pending ==> t in timeouts)
      modifies this, t`pending
      ensures Valid() && t.pending && t in timeouts
      ensures old(t.pending) ==> ret == -1 && timeouts == old(timeouts)
      ensures !old(t.pending) ==>
              ret == 0 && p <= |old(timeouts)|
              && timeouts == old(timeouts)[..p] + [t] + old(timeouts)[p..]
              && (forall i :: 0 <= i < p ==> Diff(old(timeouts)[i].time, t.time) <= 0)
              && (p < |old(timeouts)| ==> Diff(old(timeouts)[p].time, t.time) > 0)
    {
      hide Distinct, Ordered, Diff;
      p := 0;
      if t.pending { return -1, 0; }
      var l, k := timeouts, 0;
      ghost var ts := Times(l);
      while k < |l| && !(Diff(l[k].time, t.time) > 0)
        invariant k <= |l|
        invariant forall i :: 0 <= i < k ==> Diff(ts[i], t.time) <= 0
      {
        k := k + 1;
      }
      InsertOrdered(ts, k, t.time);
      DistinctInsert(l, k, t);
      t.pending := true;
      timeouts := l[..k] + [t] + l[k..];
      assert Times(timeouts) == ts[..k] + [t.time] + ts[k..];
      ret, p := 0, k;
    }

    /** `uloop_timeout_cancel`: `p` is the place the timer had. */
    method TimeoutCancel(t: Timeout) returns (ret: int, ghost p: nat)
      requires Valid() && (t.pending ==> t in timeouts)
      modifies this, t`pending
      ensures Valid() && !t.pending && t !in timeouts
      ensures !old(t.pending) ==> ret == -1 && timeouts == old(timeouts)
      ensures old(t.pending) ==>
              ret == 0 && p < |old(timeouts)| && old(timeouts)[p] == t
              && timeouts == old(timeouts)[..p] + old(timeouts)[p + 1..]
    {
      hide Distinct, Ordered, Diff, Unlink;
      p := 0;
      if !t.pending { return -1, 0; }
      p :| p < |timeouts| && timeouts[p] == t;
      ghost var l, ts := timeouts, Times(timeouts);
      RemoveOrdered(ts, p);
      DistinctRemove(l, p);
      timeouts := Unlink(timeouts, t);
      t.pending := false;
      UnlinkAt(l, t, p);
      assert Times(timeouts) == ts[..p] + ts[p + 1..];
      ret := 0;
    }

    /** `uloop_timeout_set`: whatever the timer was set to before, it is now pending
        with a deadline exactly `msecs` after `now`. */
    method TimeoutSet(t: Timeout, msecs: int, now: Time) returns (ret: int)
      requires Valid() && (t.pending ==> t in timeouts) && 0 <= now.usec < 1000000
      modifies this, t
      ensures Valid() && t.pending && t in timeouts && ret == 0
      ensures Micros(t.time) == Micros(now) + 1000 * msecs
      ensures 0 <= msecs ==> 0 <= t.time.usec <= 1000000
      ensures 0 <= msecs ==> (t.time.usec == 1000000 <==> now.usec + msecs % 1000 * 1000 == 1000000)
      ensures Unlink(timeouts, t) == Unlink(old(timeouts), t)
    {
      hide Diff, Quot, Rem, Ordered, Deadline, Micros, Unlink;
      ghost var l, p := timeouts, 0;
      if t.pending {
        var r;
        r, p := TimeoutCancel(t);
        UnlinkAt(l, t, p);
      } else {
        UnlinkNone(l, t);
      }
      ghost var l' := timeouts;
      DeadlineExact(now, msecs);
      t.time := Deadline(now, msecs);
      assert Times(timeouts) == old(Times(timeouts)) || t in l;
      ret, p := TimeoutAdd(t);
      UnlinkNew(l', t, p);
    }

    /** `uloop_get_next_timeout`: how long the event loop may sleep. It is -1 only
        without timers, and no timer is overslept by 2 ms or more. */
    method NextTimeout(now: Time) returns (wait: int)
      requires Valid()
      ensures wait == -1 <==> timeouts == []
      ensures timeouts != [] ==> wait >= 0
      ensures wait > 0 ==> forall t :: t in timeouts ==> Micros(now) + 1000 * wait < Micros(t.time) + 2000
      ensures timeouts != [] ==> Micros(timeouts[0].time) < Micros(now) + 1000 * wait + 1000
      ensures wait > 0 ==> Micros(timeouts[0].time) > Micros(now) + 1000 * wait - 1000
    {
      if timeouts == [] { return -1; }
      wait := Diff(timeouts[0].time, now);
      DiffClose(timeouts[0].time, now);
      if wait < 0 { return 0; }
      forall t | t in timeouts
        ensures Micros(now) + 1000 * wait < Micros(t.time) + 2000
      {
        var i :| 0 <= i < |timeouts| && timeouts[i] == t;
        ghost var ts := Times(timeouts);
        DiffClose(ts[0], now);
        if i > 0 {
          assert Diff(ts[0], ts[i]) <= 0;
          DiffClose(ts[0], ts[i]);
        }
      }
    }

    /** One turn of `uloop_process_timeouts`, up to the callback of a timer: the first
        timer fires, unless tv_diff sees it in the future. The callback may do anything with
        the timers before the next turn. */
    method FireNext(now: Time, ghost all: set<Timeout>) returns (t: Timeout?)
      requires Valid() && forall u :: u in timeouts ==> u in all
      modifies this, all`pending
      ensures Valid()
      ensures t != null ==> old(timeouts) == [t] + timeouts && !t.pending && t !in timeouts
      ensures t != null ==> Diff(t.time, now) <= 0 && Micros(t.time) < Micros(now) + 1000
      ensures forall u :: u in all && u != t ==> u.pending == old(u.pending)
      ensures t == null ==> timeouts == old(timeouts) && (timeouts == [] || Diff(timeouts[0].time, now) > 0)
    {
      hide Distinct, Ordered, Diff, Micros;
      t := null;
      if timeouts == [] { return; }
      var first := timeouts[0];
      DiffClose(first.time, now);
      if Diff(first.time, now) > 0 { return; }
      ghost var l := timeouts;
      var _, p := TimeoutCancel(first);
      FirstPlace(l, p);
      t := first;
    }

    /** Behind a timer that is not due, none is overdue. */
    lemma NoneOverdue(now: Time)
      requires Valid() && (timeouts == [] || Diff(timeouts[0].time, now) > 0)
      ensures forall u :: u in timeouts ==> Diff(u.time, now) >= 0 && Micros(u.time) > Micros(now) - 1000
    {
      hide Distinct, Ordered, Diff, Micros;
      var ts := Times(timeouts);
      Remaining(ts, now);
      forall u | u in timeouts
        ensures Diff(u.time, now) >= 0 && Micros(u.time) > Micros(now) - 1000
      {
        var i :| 0 <= i < |timeouts| && timeouts[i] == u;
        assert ts[i] == u.time;
        DiffClose(u.time, now);
      }
    }

    /** `uloop_process_timeouts`, with callbacks that leave the timers alone: what fires
        is a front part of the list, nothing in it is due 1 ms or more after `now`,
        and nothing stays that tv_diff sees as overdue. */
    method ProcessTimeouts(now: Time) returns (fired: seq<Timeout>)
      requires Valid()
      modifies this, (set t | t in timeouts)`pending
      ensures Valid() && old(timeouts) == fired + timeouts
      ensures forall t :: t in fired ==> !t.pending && Micros(t.time) < Micros(now) + 1000
      ensures forall t :: t in timeouts ==> Diff(t.time, now) >= 0 && Micros(t.time) > Micros(now) - 1000
      ensures timeouts != [] ==> Diff(timeouts[0].time, now) > 0
    {
      hide Distinct, Ordered, Diff, Micros;
      fired := [];
      ghost var all := set t | t in timeouts;
      while true
        invariant Valid() && old(timeouts) == fired + timeouts
        invariant forall t :: t in fired ==> !t.pending && Micros(t.time) < Micros(now) + 1000
        decreases |timeouts|
      {
        var t := FireNext(now, all);
        if t == null { break; }
        Reassociate(fired, t, timeouts);
        fired := fired + [t];
      }
      NoneOverdue(now);
    }
  }

  /** What uloop_timeout_set makes of the clock; a full second of microseconds is not
      carried. */
  function Deadline(now: Time, msecs: int): Time {
    var sec, usec := now.sec + Quot(msecs, 1000), now.usec + Rem(msecs, 1000) * 1000;
    if usec > 1000000 then Time(sec + 1, usec % 1000000) else Time(sec, usec)
  }

  lemma DeadlineExact(now: Time, msecs: int)
    requires 0 <= now.usec < 1000000
    ensures Micros(Deadline(now, msecs)) == Micros(now) + 1000 * msecs
    ensures 0 <= msecs ==> 0 <= Deadline(now, msecs).usec <= 1000000
    ensures 0 <= msecs ==>
            (Deadline(now, msecs).usec == 1000000 <==> now.usec + msecs % 1000 * 1000 == 1000000)
  {
    var usec := now.usec + Rem(msecs, 1000) * 1000;
    assert usec > 1000000 ==> usec % 1000000 == usec - 1000000;
  }

  function Unlink(l: seq<Timeout>, t: Timeout): seq<Timeout> {
    if l == [] then [] else if l[0] == t then l[1..] else [l[0]] + Unlink(l[1..], t)
  }

  lemma {:induction false} UnlinkAt(l: seq<Timeout>, t: Timeout, p: nat)
    requires Distinct(l) && p < |l| && l[p] == t
    ensures Unlink(l, t) == l[..p] + l[p + 1..]
  {
    if p > 0 { UnlinkAt(l[1..], t, p - 1); }
  }

  lemma {:induction false} UnlinkNone(l: seq<Timeout>, t: Timeout)
    requires t !in l
    ensures Unlink(l, t) == l
  {
    if l != [] { UnlinkNone(l[1..], t); }
  }

  lemma {:induction false} UnlinkNew(l: seq<Timeout>, t: Timeout, p: nat)
    requires t !in l && p <= |l|
    ensures Unlink(l[..p] + [t] + l[p..], t) == l && Unlink(l, t) == l
    decreases p
  {
    UnlinkNone(l, t);
    var r := l[..p] + [t] + l[p..];
    if p > 0 {
      UnlinkNew(l[1..], t, p - 1);
      assert r[1..] == l[1..][..p - 1] + [t] + l[1..][p - 1..];
    } else {
      assert r[1..] == l;
    }
  }
}
