/** uloop.c: delivering events to file descriptors whose callbacks may run the event
    loop again, with a stack of the callbacks that are running. */
module UloopFd {

  datatype Bit = READ | WRITE

  datatype Flags = Flags(read: bool, write: bool, edge: bool, errorCb: bool)

  const NoFlags := Flags(false, false, false, false)

  class Fd {
    /** Whether there is a callback. */
    const cb: bool
    var registered: bool
    var flags: Flags

    constructor (cb: bool)
      ensures this.cb == cb && !registered && flags == NoFlags
    {
      this.cb := cb;
      registered := false;
      flags := NoFlags;
    }
  }

  /** An entry of `cur_fds`, and a frame of `fd_stack`. */
  datatype Slot = Slot(fd: Fd?, bits: set<Bit>)

  /** What epoll_wait reports for one descriptor. */
  datatype Raw = Raw(fd: Fd?, error: bool, rdhup: bool, readable: bool, writable: bool)

  /** One fetched event bit of a descriptor. */
  datatype Token = Token(fd: Fd, bit: Bit)

  type Tokens = multiset<Token>

  // ----- accounting

  ghost function Sum(s: seq<Tokens>): Tokens { if s == [] then multiset{} else s[0] + Sum(s[1..]) }

  lemma {:induction false} SumSnoc(s: seq<Tokens>, x: Tokens)
    ensures Sum(s + [x]) == Sum(s) + x
  {
    if s == [] {
      assert s + [x] == [x];
    } else {
      assert (s + [x])[1..] == s[1..] + [x];
      SumSnoc(s[1..], x);
    }
  }

  ghost function Account(delivered: Tokens, dropped: Tokens, w: seq<Tokens>, f: seq<Tokens>): Tokens {
    delivered + dropped + Sum(w) + Sum(f)
  }

  lemma {:induction false} SumUpdate(s: seq<Tokens>, i: nat, x: Tokens)
    requires i < |s|
    ensures Sum(s[i := x]) + s[i] == Sum(s) + x
  {
    if i == 0 {
      assert s[0 := x][1..] == s[1..];
    } else {
      assert s[i := x][1..] == s[1..][i - 1 := x];
      SumUpdate(s[1..], i - 1, x);
      assert s[i := x][0] == s[0];
      var a, b := Sum(s[1..][i - 1 := x]), Sum(s[1..]);
      assert (s[0] + a) + s[i] == s[0] + (a + s[i]);
      assert (s[0] + b) + x == s[0] + (b + x);
    }
  }

  /** The tokens waiting in a slot are of its descriptor, and show in its bits. */
  ghost predicate Holds(s: Slot, ts: Tokens) {
    && (s.fd == null ==> ts == multiset{})
    && (forall t :: t in ts ==> t.fd == s.fd && t.bit in s.bits)
    && (s.fd != null ==> forall b :: b in s.bits ==> Token(s.fd, b) in ts)
  }

  ghost predicate AllHold(s: seq<Slot>, ts: seq<Tokens>) {
    |s| == |ts| && forall i :: 0 <= i < |s| ==> Holds(s[i], ts[i])
  }

  /** No token of `fd` waits in a slot. */
  ghost predicate NoneOf(s: seq<Slot>, ts: seq<Tokens>, fd: Fd) {
    |s| == |ts| && forall i :: 0 <= i < |s| && s[i].fd == fd ==> ts[i] == multiset{}
  }

  // ----- the stack

  /** The frames of callbacks of `fd` that are still to look at buffered events. */
  ghost function Live(frames: seq<Slot>, fd: Fd): nat {
    if frames == [] then 0 else (if frames[0].fd == fd then 1 else 0) + Live(frames[1..], fd)
  }

  /** An edge-triggered descriptor has at most one live frame, and only those have
      events parked. */
  ghost predicate Tidy(frames: seq<Slot>, edges: set<Fd>) {
    && (forall fd :: fd in edges ==> Live(frames, fd) <= 1)
    && (forall s :: s in frames && s.fd != null && s.bits != {} ==> s.fd in edges)
  }

  lemma {:induction false} LiveUpdate(frames: seq<Slot>, i: nat, s: Slot, fd: Fd)
    requires i < |frames|
    ensures Live(frames[i := s], fd) ==
            Live(frames, fd) - (if frames[i].fd == fd then 1 else 0) + if s.fd == fd then 1 else 0
  {
    if i == 0 {
      assert frames[0 := s][1..] == frames[1..];
    } else {
      assert frames[i := s][1..] == frames[1..][i - 1 := s];
      LiveUpdate(frames[1..], i - 1, s, fd);
    }
  }

  lemma {:induction false} LiveNone(frames: seq<Slot>, fd: Fd)
    ensures Live(frames, fd) == 0 <==> forall s :: s in frames ==> s.fd != fd
  {
    if frames != [] { LiveNone(frames[1..], fd); }
  }

  lemma LivePush(frames: seq<Slot>, s: Slot, fd: Fd)
    ensures Live([s] + frames, fd) == Live(frames, fd) + if s.fd == fd then 1 else 0
  {
    assert ([s] + frames)[1..] == frames;
  }

  /** A frame that takes in more events of its edge-triggered descriptor. */
  lemma {:induction false} TidyPark(frames: seq<Slot>, edges: set<Fd>, i: nat, bits: set<Bit>)
    requires Tidy(frames, edges) && i < |frames| && frames[i].fd != null && frames[i].fd in edges
    ensures Tidy(frames[i := frames[i].(bits := bits)], edges)
  {
    hide Live;
    forall fd | fd in edges
      ensures Live(frames[i := frames[i].(bits := bits)], fd) <= 1
    {
      LiveUpdate(frames, i, frames[i].(bits := bits), fd);
    }
  }

  /** A frame that is cut off, or starts its callback again. */
  lemma {:induction false} TidyReset(frames: seq<Slot>, edges: set<Fd>, i: nat, s: Slot)
    requires Tidy(frames, edges) && i < |frames|
    requires s == frames[i].(bits := {}) || s == frames[i].(fd := null)
    ensures Tidy(frames[i := s], edges)
  {
    hide Live;
    forall fd | fd in edges
      ensures Live(frames[i := s], fd) <= 1
    {
      LiveUpdate(frames, i, s, fd);
    }
  }

  /** Without its only live frame a descriptor may stop being edge-triggered. */
  lemma TidyWithout(frames: seq<Slot>, edges: set<Fd>, fd: Fd)
    requires Tidy(frames, edges) && Live(frames, fd) == 0
    ensures Tidy(frames, edges - {fd})
  {
    LiveNone(frames, fd);
  }

  lemma TidyPush(frames: seq<Slot>, edges: set<Fd>, fd: Fd)
    requires Tidy(frames, edges) && (fd in edges ==> Live(frames, fd) == 0)
    ensures Tidy([Slot(fd, {})] + frames, edges)
  {
    hide Live;
    forall g | g in edges
      ensures Live([Slot(fd, {})] + frames, g) <= 1
    {
      LivePush(frames, Slot(fd, {}), g);
    }
  }

  lemma TidyPop(frames: seq<Slot>, edges: set<Fd>)
    requires Tidy(frames, edges) && frames != []
    ensures Tidy(frames[1..], edges)
  {
  }

  /** The first live frame of `fd`, or the depth of the stack. */
  function Find(frames: seq<Slot>, fd: Fd): (i: nat)
    ensures i <= |frames| && (i < |frames| ==> frames[i].fd == fd) && forall j :: 0 <= j < i ==> frames[j].fd != fd
  {
    if frames == [] || frames[0].fd == fd then 0 else 1 + Find(frames[1..], fd)
  }

  /** The stack after events of `fd` are parked, or its frame is cut off. */
  function ParkIn(frames: seq<Slot>, fd: Fd, bits: set<Bit>): (r: seq<Slot>)
    ensures |r| == |frames|
  {
    var i := Find(frames, fd);
    if i < |frames| then frames[i := frames[i].(bits := frames[i].bits + bits)] else frames
  }

  function CutIn(frames: seq<Slot>, fd: Fd): (r: seq<Slot>)
    ensures |r| == |frames|
  {
    var i := Find(frames, fd);
    if i < |frames| then frames[i := frames[i].(fd := null)] else frames
  }

  lemma FindLive(frames: seq<Slot>, fd: Fd)
    ensures Find(frames, fd) == |frames| <==> Live(frames, fd) == 0
  {
    LiveNone(frames, fd);
  }

  lemma FindIs(frames: seq<Slot>, fd: Fd, i: nat)
    requires i <= |frames| && (i < |frames| ==> frames[i].fd == fd) && forall j :: 0 <= j < i ==> frames[j].fd != fd
    ensures Find(frames, fd) == i
  {
  }

  /** How many entries of the window are dealt with without calling a callback, and the
      stack then: entries without descriptor or callback are skipped, and those of an
      edge-triggered descriptor whose callback is running are parked. */
  function Scan(w: seq<Slot>, frames: seq<Slot>, edges: set<Fd>): (r: (nat, seq<Slot>))
    ensures r.0 <= |w| && |r.1| == |frames|
  {
    if w == [] then (0, frames)
    else
      var fd := w[0].fd;
      if fd == null || !fd.cb then
        var r := Scan(w[1..], frames, edges); (1 + r.0, r.1)
      else if fd in edges && Find(frames, fd) < |frames| then
        var r := Scan(w[1..], ParkIn(frames, fd, w[0].bits), edges); (1 + r.0, r.1)
      else
        (0, frames)
  }

  /** The callback of `s` may be called, unless the descriptor is edge-triggered and its
      callback is running already. */
  ghost predicate Waiting(s: Slot, frames: seq<Slot>, edges: set<Fd>) {
    s.fd != null && s.fd.cb && s.fd in edges && exists f :: f in frames && f.fd == s.fd
  }

  lemma ParkInIs(frames: seq<Slot>, fd: Fd, bits: set<Bit>)
    ensures var r := ParkIn(frames, fd, bits);
            forall j :: 0 <= j < |frames| ==>
              && r[j].fd == frames[j].fd
              && (forall b :: b in r[j].bits <==> b in frames[j].bits || (Find(frames, fd) == j && b in bits))
  {
  }

  lemma {:induction false} SameFind(f: seq<Slot>, g: seq<Slot>, fd: Fd)
    requires |f| == |g| && forall j :: 0 <= j < |f| ==> f[j].fd == g[j].fd
    ensures Find(f, fd) == Find(g, fd)
  {
    FindIs(g, fd, Find(f, fd));
  }

  /** The first `n` entries are passed over and the next one is not; those that wait add
      their bits to the first frame of their descriptor. */
  ghost predicate Passed(w: seq<Slot>, frames: seq<Slot>, edges: set<Fd>, n: nat, fr: seq<Slot>) {
    && n <= |w| && |fr| == |frames|
    && (forall k :: 0 <= k < n ==> w[k].fd == null || !w[k].fd.cb || Waiting(w[k], frames, edges))
    && (n < |w| ==> w[n].fd != null && w[n].fd.cb && !Waiting(w[n], frames, edges))
    && (forall j :: 0 <= j < |fr| ==> fr[j].fd == frames[j].fd)
    && forall j, b :: 0 <= j < |fr| ==>
         (b in fr[j].bits <==> b in frames[j].bits || exists k :: 0 <= k < n && Adds(w[k], frames, edges, j, b))
  }

  ghost predicate Adds(s: Slot, frames: seq<Slot>, edges: set<Fd>, j: nat, b: Bit) {
    Waiting(s, frames, edges) && Find(frames, s.fd) == j && b in s.bits
  }

  lemma {:induction false} ScanLaw(w: seq<Slot>, frames: seq<Slot>, edges: set<Fd>)
    ensures Passed(w, frames, edges, Scan(w, frames, edges).0, Scan(w, frames, edges).1)
  {
    hide Scan, Find, ParkIn, Passed;
    ScanStep(w, frames, edges);
    var n, fr := Scan(w, frames, edges).0, Scan(w, frames, edges).1;
    if w == [] {
      PassNone(w, frames, edges);
    } else {
      var fd := w[0].fd;
      if fd != null && fd.cb { FoundFrame(frames, fd); }
      if fd == null || !fd.cb {
        ScanLaw(w[1..], frames, edges);
        PassFirst(w, frames, frames, edges, n - 1, fr);
      } else if fd in edges && Find(frames, fd) < |frames| {
        var mid := ParkIn(frames, fd, w[0].bits);
        ScanLaw(w[1..], mid, edges);
        ParkInIs(frames, fd, w[0].bits);
        PassFirst(w, frames, mid, edges, n - 1, fr);
      } else {
        PassNone(w, frames, edges);
      }
    }
  }

  lemma PassNone(w: seq<Slot>, frames: seq<Slot>, edges: set<Fd>)
    requires w != [] ==> w[0].fd != null && w[0].fd.cb && !Waiting(w[0], frames, edges)
    ensures Passed(w, frames, edges, 0, frames)
  {
  }

  lemma SameWaiting(s: Slot, f: seq<Slot>, g: seq<Slot>, edges: set<Fd>)
    requires |f| == |g| && forall j :: 0 <= j < |f| ==> f[j].fd == g[j].fd
    ensures Waiting(s, f, edges) == Waiting(s, g, edges)
    ensures s.fd != null ==> Find(f, s.fd) == Find(g, s.fd)
  {
    hide Find;
    if s.fd != null {
      SameFind(f, g, s.fd);
      FoundFrame(f, s.fd);
      FoundFrame(g, s.fd);
    }
  }

  /** The first entry is passed over, and the others behind it. */
  lemma PassFirst(w: seq<Slot>, frames: seq<Slot>, mid: seq<Slot>, edges: set<Fd>, m: nat, fr: seq<Slot>)
    requires w != [] && Passed(w[1..], mid, edges, m, fr) && |mid| == |frames|
    requires forall j :: 0 <= j < |mid| ==> mid[j].fd == frames[j].fd
    requires w[0].fd == null || !w[0].fd.cb || Waiting(w[0], frames, edges)
    requires forall j, b :: 0 <= j < |mid| ==>
               (b in mid[j].bits <==> b in frames[j].bits || Adds(w[0], frames, edges, j, b))
    ensures Passed(w, frames, edges, m + 1, fr)
  {
    hide Find, Waiting;
    forall k | 0 <= k < |w|
      ensures Waiting(w[k], mid, edges) == Waiting(w[k], frames, edges)
      ensures forall j, b :: Adds(w[k], mid, edges, j, b) == Adds(w[k], frames, edges, j, b)
    {
      SameWaiting(w[k], mid, frames, edges);
    }
    forall k | 0 <= k < m + 1
      ensures w[k].fd == null || !w[k].fd.cb || Waiting(w[k], frames, edges)
    {
      if k > 0 { assert w[k] == w[1..][k - 1]; }
    }
    forall j, b | 0 <= j < |fr|
      ensures b in fr[j].bits <==> b in frames[j].bits || exists k :: 0 <= k < m + 1 && Adds(w[k], frames, edges, j, b)
    {
      if exists k :: 0 <= k < m && Adds(w[1..][k], mid, edges, j, b) {
        var k :| 0 <= k < m && Adds(w[1..][k], mid, edges, j, b);
        assert w[1..][k] == w[k + 1];
      }
      if exists k :: 0 <= k < m + 1 && Adds(w[k], frames, edges, j, b) {
        var k :| 0 <= k < m + 1 && Adds(w[k], frames, edges, j, b);
        if k > 0 { assert w[k] == w[1..][k - 1]; }
      }
    }
  }

  lemma Delivered(w: seq<Slot>, frames: seq<Slot>, edges: set<Fd>, n: nat, fr: seq<Slot>)
    requires Passed(w, frames, edges, n, fr)
    ensures n < |w| ==> w[n].fd != null
  {
  }

  lemma FoundFrame(frames: seq<Slot>, fd: Fd)
    ensures Find(frames, fd) < |frames| <==> exists f :: f in frames && f.fd == fd
  {
  }

  /** Changing the mode of a descriptor: what has to hold of its frames. */
  predicate Switchable(frames: seq<Slot>, fd: Fd, edge: bool) {
    if edge then
      forall i, j :: 0 <= i < j < |frames| ==> frames[i].fd != fd || frames[j].fd != fd
    else
      forall s :: s in frames && s.fd == fd ==> s.bits == {}
  }

  lemma {:induction false} LiveTwo(frames: seq<Slot>, fd: Fd)
    ensures Live(frames, fd) <= 1 <==> Switchable(frames, fd, true)
  {
    if frames != [] {
      LiveTwo(frames[1..], fd);
      LiveNone(frames[1..], fd);
      if frames[0].fd == fd && Live(frames[1..], fd) != 0 {
        var s :| s in frames[1..] && s.fd == fd;
        var j :| 0 <= j < |frames[1..]| && frames[1..][j] == s;
        assert frames[0].fd == fd && frames[j + 1].fd == fd;
      }
      if Live(frames[1..], fd) > 1 {
        var i, j :| 0 <= i < j < |frames[1..]| && !(frames[1..][i].fd != fd || frames[1..][j].fd != fd);
        assert frames[i + 1].fd == fd && frames[j + 1].fd == fd;
      }
    }
  }

  lemma TidySwitch(frames: seq<Slot>, edges: set<Fd>, fd: Fd, edge: bool)
    requires Tidy(frames, edges)
    ensures Tidy(frames, if edge then edges + {fd} else edges - {fd}) <==> Switchable(frames, fd, edge)
  {
    LiveTwo(frames, fd);
    hide Live;
    if edge {
      assert fd in edges + {fd};
    } else if Tidy(frames, edges - {fd}) {
      assert forall s :: s in frames && s.fd == fd ==> s.bits == {};
    }
  }

  // ----- emptying the window

  ghost function Kept(w: seq<Slot>, ts: seq<Tokens>, fd: Fd): (r: seq<Tokens>)
    requires |w| == |ts|
    ensures |r| == |ts| && forall i :: 0 <= i < |r| ==> r[i] == if w[i].fd == fd then multiset{} else ts[i]
  {
    seq(|ts|, i requires 0 <= i < |ts| => if w[i].fd == fd then multiset{} else ts[i])
  }

  lemma {:induction false} KeptSum(w: seq<Slot>, ts: seq<Tokens>, fd: Fd)
    requires AllHold(w, ts)
    ensures Sum(Kept(w, ts, fd)) <= Sum(ts)
    ensures forall t :: t in Sum(ts) - Sum(Kept(w, ts, fd)) ==> t.fd == fd
  {
    if ts != [] {
      assert Kept(w, ts, fd)[1..] == Kept(w[1..], ts[1..], fd);
      KeptSum(w[1..], ts[1..], fd);
      assert Holds(w[0], ts[0]);
    }
  }

  function Emptied(s: Slot, fd: Fd): Slot { if s.fd == fd then s.(fd := null) else s }

  ghost function EmptiedAll(w: seq<Slot>, fd: Fd): (r: seq<Slot>)
    ensures |r| == |w| && forall i :: 0 <= i < |r| ==> r[i] == Emptied(w[i], fd)
  {
    seq(|w|, i requires 0 <= i < |w| => Emptied(w[i], fd))
  }

  lemma KeptHold(w: seq<Slot>, ts: seq<Tokens>, fd: Fd)
    requires AllHold(w, ts)
    ensures AllHold(EmptiedAll(w, fd), Kept(w, ts, fd)) && NoneOf(EmptiedAll(w, fd), Kept(w, ts, fd), fd)
  {
    var r, k := EmptiedAll(w, fd), Kept(w, ts, fd);
    forall i | 0 <= i < |r|
      ensures Holds(r[i], k[i])
    {
      assert Holds(w[i], ts[i]);
    }
  }

  lemma NoneParked(frames: seq<Slot>, ts: seq<Tokens>, edges: set<Fd>, fd: Fd)
    requires Tidy(frames, edges) && fd !in edges && AllHold(frames, ts)
    ensures NoneOf(frames, ts, fd)
  {
    forall i | 0 <= i < |frames| && frames[i].fd == fd
      ensures ts[i] == multiset{}
    {
      assert frames[i] in frames && frames[i].bits == {};
      assert Holds(frames[i], ts[i]);
    }
  }

  class Uloop {
    /** The entries of cur_fds from cur_fd on, cur_nfds of them. */
    var window: seq<Slot>
    /** fd_stack, innermost callback first. */
    var frames: seq<Slot>
    ghost var fds: set<Fd>
    /** The tokens waiting in the window and in the frames. */
    ghost var winTok: seq<Tokens>
    ghost var frameTok: seq<Tokens>
    /** All tokens ever fetched; those handed to a callback; those given up. */
    ghost var fetched: Tokens
    ghost var delivered: Tokens
    ghost var dropped: Tokens

    /** Every fetched bit is delivered, given up, in the window, or in a frame. */
    ghost predicate Valid()
      reads this, fds
    {
      && AllHold(window, winTok) && AllHold(frames, frameTok)
      && (forall s :: s in window && s.fd != null ==> s.fd in fds)
      && (forall s :: s in frames && s.fd != null ==> s.fd in fds)
      && fetched == Account(delivered, dropped, winTok, frameTok)
      && (forall fd :: fd in fds && fd.flags.edge ==> fd.registered)
    }

    ghost function Edges(): set<Fd>
      reads this, fds
    {
      set fd | fd in fds && fd.flags.edge
    }

    /** The registrations. */
    ghost function Marks(): map<Fd, (Flags, bool)>
      reads this, fds
    {
      map fd | fd in fds :: (fd.flags, fd.registered)
    }

    constructor ()
      ensures Valid() && Tidy(frames, Edges()) && fds == {} && fetched == multiset{} && window == [] && frames == []
    {
      window, frames, fds, winTok, frameTok := [], [], {}, [], [];
      fetched, delivered, dropped := multiset{}, multiset{}, multiset{};
    }

    /** The search of uloop_fd_stack_event. */
    method FindFrame(fd: Fd) returns (i: nat)
      ensures i <= |frames| && (i < |frames| ==> frames[i].fd == fd) && forall j :: 0 <= j < i ==> frames[j].fd != fd
    {
      i := 0;
      while i < |frames| && frames[i].fd != fd
        invariant i <= |frames| && forall j :: 0 <= j < i ==> frames[j].fd != fd
      {
        i := i + 1;
      }
    }

    /** `uloop_fd_stack_event` with a negative argument: cuts off the frame of `fd`. */
    method CutOff(fd: Fd) returns (found: bool)
      requires Valid() && fd in fds
      modifies `frames, `frameTok, `dropped
      ensures Valid() && frames == if fd.flags.edge then CutIn(old(frames), fd) else old(frames)
      ensures !fd.flags.edge ==> frameTok == old(frameTok) && dropped == old(dropped)
      ensures fd.flags.edge && old(Tidy(frames, Edges())) ==> Live(frames, fd) == 0
      ensures old(Tidy(frames, Edges())) ==> Tidy(frames, Edges())
      ensures forall t: Token :: t.fd != fd ==> dropped[t] == old(dropped)[t]
    {
      hide Live, Sum, Holds, Tidy, Account;
      ghost var edges := Edges();
      if !fd.flags.edge { return false; }
      var i := FindFrame(fd);
      found := i < |frames|;
      LiveNone(frames, fd);
      FindIs(frames, fd, i);
      if found {
        DropFrame(delivered, dropped, winTok, frameTok, i);
        CutHolds(frames[i], frameTok[i], fd);
        LiveUpdate(frames, i, frames[i].(fd := null), fd);
        if Tidy(frames, edges) {
          TidyReset(frames, edges, i, frames[i].(fd := null));
          TidyLive(frames, edges, fd);
        }
        dropped := dropped + frameTok[i];
        frameTok := frameTok[i := multiset{}];
        frames := frames[i := frames[i].(fd := null)];
      }
      assert Edges() == edges;
    }

    /** `uloop_fd_delete`: no undelivered bit of `fd` is left, in the window or parked. */
    method FdDelete(fd: Fd)
      requires Valid() && fd in fds
      modifies this, fd
      ensures Valid() && fds == old(fds) && window == EmptiedAll(old(window), fd)
      ensures frames == if old(fd.flags.edge) then CutIn(old(frames), fd) else old(frames)
      ensures !old(fd.flags.edge) ==> frameTok == old(frameTok)
      ensures !fd.registered && !fd.flags.edge && fetched == old(fetched) && delivered == old(delivered)
      ensures fd.flags == if old(fd.registered) then NoFlags else old(fd.flags)
      ensures NoneOf(window, winTok, fd)
      ensures old(Tidy(frames, Edges())) ==> Tidy(frames, Edges()) && NoneOf(frames, frameTok, fd)
      ensures forall t: Token :: t.fd != fd ==> dropped[t] == old(dropped)[t]
    {
      hide Live, Sum, Holds, Tidy, Account, Kept, NoneOf;
      ghost var edges, wasEdge, tidy := Edges(), fd.flags.edge, Tidy(frames, Edges());
      ClearWindow(fd);
      assert Edges() == edges;
      if !fd.registered {
        if tidy { NoneParked(frames, frameTok, edges, fd); }
        return;
      }
      var _ := CutOff(fd);
      assert Edges() == edges;
      fd.registered := false;
      fd.flags := NoFlags;
      assert Edges() == edges - {fd};
      if tidy {
        if wasEdge { TidyWithout(frames, edges, fd); }
        assert !wasEdge ==> edges - {fd} == edges;
        NoneParked(frames, frameTok, edges - {fd}, fd);
      }
    }

    /** The loop of uloop_fd_delete over cur_fds. */
    method ClearWindow(fd: Fd)
      requires Valid() && fd in fds
      modifies `window, `winTok, `dropped
      ensures Valid() && window == EmptiedAll(old(window), fd) && NoneOf(window, winTok, fd)
      ensures forall t: Token :: t.fd != fd ==> dropped[t] == old(dropped)[t]
    {
      hide Live, Sum, Holds, Tidy, Account, Kept;
      ghost var w, ts, d := window, winTok, dropped;
      var i := 0;
      while i < |window|
        invariant i <= |window| == |w| && winTok == ts && dropped == d
        invariant forall j :: 0 <= j < i ==> window[j] == Emptied(w[j], fd)
        invariant forall j :: i <= j < |w| ==> window[j] == w[j]
      {
        if window[i].fd == fd {
          window := window[i := window[i].(fd := null)];
        }
        i := i + 1;
      }
      DropWindow(delivered, d, w, ts, frameTok, fd);
      KeptHold(w, ts, fd);
      dropped := dropped + (Sum(ts) - Sum(Kept(w, ts, fd)));
      winTok := Kept(w, ts, fd);
      assert window == EmptiedAll(w, fd);
    }

    /** `uloop_fd_add`, when the kernel takes the registration. Changing the mode keeps
        the stack tidy exactly when the frames of `fd` allow it. */
    method FdAdd(fd: Fd, flags: Flags)
      requires Valid() && (fd !in fds ==> !fd.registered && !fd.flags.edge)
      modifies this, fd
      ensures Valid() && fds == old(fds) + {fd}
      ensures fetched == old(fetched) && delivered == old(delivered)
      ensures fd.registered == (flags.read || flags.write)
      ensures fd.registered ==>
              window == old(window) && frames == old(frames) && dropped == old(dropped)
              && fd.flags == flags
      ensures !fd.registered ==> window == EmptiedAll(old(window), fd)
      ensures !fd.registered ==> frames == if old(fd.flags.edge) then CutIn(old(frames), fd) else old(frames)
      ensures old(Tidy(frames, Edges())) ==>
              (Tidy(frames, Edges()) <==> (fd.registered ==> Switchable(old(frames), fd, flags.edge)))
    {
      hide Live, Sum, Holds, Tidy, Account, Kept, Switchable;
      ghost var edges := Edges();
      fds := fds + {fd};
      assert Edges() == edges;
      if !(flags.read || flags.write) {
        FdDelete(fd);
        return;
      }
      fd.flags := flags;
      fd.registered := true;
      assert Edges() == if flags.edge then edges + {fd} else edges - {fd};
      if Tidy(frames, edges) { TidySwitch(frames, edges, fd, flags.edge); }
    }

    /** `uloop_fetch_events`, on what epoll_wait reports: exactly the descriptors that fail
        are deleted, and the stack is cut for them. */
    method Fetch(raws: seq<Raw>)
      requires Valid() && window == [] && (forall r :: r in raws && r.fd != null ==> r.fd in fds)
      modifies this, fds
      ensures Valid() && fds == old(fds) && delivered == old(delivered)
      ensures window == AllSeen(raws) && fetched == old(fetched) + Report(raws)
      ensures |window| == |raws| && forall i :: 0 <= i < |raws| ==>
                var r := raws[i];
                && window[i].fd == (if r.rdhup || r.readable || r.writable || r.error then r.fd else null)
                && (window[i].fd != null ==> (READ in window[i].bits <==> r.readable) &&
                                             (WRITE in window[i].bits <==> r.writable))
      ensures forall fd, b :: fd in fds ==>
                fetched[Token(fd, b)] == old(fetched)[Token(fd, b)] + Carrying(raws, fd, b)
      ensures forall fd :: fd in fds ==>
                (fd.registered <==>
                   old(fd.registered) && forall r :: r in raws && r.fd == fd && r.error ==> old(fd.flags.errorCb))
      ensures var lost := Failing(raws, old(Marks()));
              && Marks() == Struck(old(Marks()), lost) && frames == CutAll(old(frames), old(Marks()), lost)
              && Edges() == old(Edges()) - lost
      ensures old(Tidy(frames, Edges())) ==> Tidy(frames, Edges())
      ensures forall t: Token :: t.fd in fds && t.fd.registered ==> dropped[t] == old(dropped)[t]
    {
      hide Sum, Tidy, Account, AllHold, Of, Live, Failing, Struck, CutAll, CutIn, Fails;
      ghost var marks, edges := Marks(), Edges();
      assert edges == set fd | fd in marks && marks[fd].0.edge;
      var w, ts := Gather(raws);
      Accept(w, ts);
      EdgesLeft(marks, edges, Failing(raws, marks));
      StillRegistered(raws, marks);
      SeenIs(raws);
      forall fd: Fd, b
        ensures Report(raws)[Token(fd, b)] == Carrying(raws, fd, b)
      {
        ReportCounts(raws, fd, b);
      }
    }

    /** The loop of uloop_fetch_events. */
    method Gather(raws: seq<Raw>) returns (w: seq<Slot>, ghost ts: seq<Tokens>)
      requires Valid() && window == [] && (forall r :: r in raws && r.fd != null ==> r.fd in fds)
      modifies this, fds
      ensures Valid() && window == [] && fds == old(fds) && delivered == old(delivered) && fetched == old(fetched)
      ensures w == AllSeen(raws) && ts == AllOf(raws) && AllHold(w, ts)
      ensures forall s :: s in w && s.fd != null ==> s.fd in fds
      ensures var lost := Failing(raws, old(Marks()));
              Marks() == Struck(old(Marks()), lost) && frames == CutAll(old(frames), old(Marks()), lost)
      ensures old(Tidy(frames, Edges())) ==> Tidy(frames, Edges())
      ensures forall t: Token :: t.fd in fds && t.fd.registered ==> dropped[t] == old(dropped)[t]
    {
      hide Sum, Tidy, Account, AllHold, Of, Live, Failing, Struck, CutAll, CutIn, Fails;
      ghost var marks := Marks();
      w, ts := [], [];
      var n := 0;
      NoneFail([], frames, marks, Edges());
      assert AllHold(w, ts) by { NothingHeld(); }
      while n < |raws|
        invariant n <= |raws| && Valid() && window == [] && fds == old(fds)
        invariant delivered == old(delivered) && fetched == old(fetched)
        invariant old(Tidy(frames, Edges())) ==> Tidy(frames, Edges())
        invariant Marks() == Struck(marks, Failing(raws[..n], marks))
        invariant frames == CutAll(old(frames), marks, Failing(raws[..n], marks))
        invariant |w| == |ts| == n && AllHold(w, ts)
        invariant forall i :: 0 <= i < n ==> w[i] == Seen(raws[i]) && ts[i] == Of(Seen(raws[i]))
        invariant forall s :: s in w && s.fd != null ==> s.fd in fds
        invariant forall t: Token :: t.fd in fds && t.fd.registered ==> dropped[t] == old(dropped)[t]
      {
        assert raws[..n + 1] == raws[..n] + [raws[n]];
        FailStep(old(frames), marks, raws[..n], raws[n]);
        Notice(raws[n]);
        HeldSnoc(w, ts, Seen(raws[n]));
        w, ts := w + [Seen(raws[n])], ts + [Of(Seen(raws[n]))];
        n := n + 1;
      }
      assert w == AllSeen(raws) && ts == AllOf(raws) && raws[..n] == raws;
    }

    lemma StillRegistered(raws: seq<Raw>, marks: Registry)
      requires Marks() == Struck(marks, Failing(raws, marks)) && fds == marks.Keys
      ensures forall fd :: fd in fds ==>
                (fd.registered <==>
                   marks[fd].1 && forall r :: r in raws && r.fd == fd && r.error ==> marks[fd].0.errorCb)
    {
      forall fd | fd in fds
        ensures fd.registered <==>
                marks[fd].1 && forall r :: r in raws && r.fd == fd && r.error ==> marks[fd].0.errorCb
      {
        assert Marks()[fd] == (fd.flags, fd.registered);
        if fd in Failing(raws, marks) {
          var r :| r in raws && Fails(r, marks) && r.fd == fd;
        }
      }
    }

    lemma EdgesLeft(marks: Registry, edges: set<Fd>, lost: set<Fd>)
      requires Marks() == Struck(marks, lost) && edges == set fd | fd in marks && marks[fd].0.edge
      ensures Edges() == edges - lost
    {
      assert Edges() == set fd | fd in Marks() && Marks()[fd].0.edge;
    }

    /** An error deletes a descriptor that does not ask for errors. */
    method Notice(r: Raw)
      requires Valid() && window == [] && (r.fd != null ==> r.fd in fds)
      modifies this, fds
      ensures Valid() && window == [] && fds == old(fds)
      ensures delivered == old(delivered) && fetched == old(fetched)
      ensures old(Tidy(frames, Edges())) ==> Tidy(frames, Edges())
      ensures var lost := Fails(r, old(Marks()));
              && Marks() == (if lost then old(Marks())[r.fd := (NoFlags, false)] else old(Marks()))
              && frames == (if lost && old(Marks())[r.fd].0.edge then CutIn(old(frames), r.fd) else old(frames))
      ensures forall t: Token :: t.fd in fds && t.fd.registered ==>
              old(t.fd.registered) && dropped[t] == old(dropped)[t]
    {
      hide Sum, Tidy, Account, AllHold, Live, NoneOf, CutIn;
      var u := r.fd;
      if u != null && r.error && !u.flags.errorCb {
        FdDelete(u);
      }
    }

    /** The reports are in the window. */
    method Accept(w: seq<Slot>, ghost ts: seq<Tokens>)
      requires Valid() && window == [] && AllHold(w, ts) && (forall s :: s in w && s.fd != null ==> s.fd in fds)
      modifies `window, `winTok, `fetched
      ensures Valid() && window == w && fetched == old(fetched) + Sum(ts) && Edges() == old(Edges())
              && Marks() == old(Marks())
    {
      hide Sum, Account, AllHold;
      ghost var edges := Edges();
      NoWindow(window, winTok);
      FetchAccount(delivered, dropped, frameTok, ts);
      fetched := fetched + Sum(ts);
      window, winTok := w, ts;
      assert Edges() == edges;
    }

    /** `uloop_fd_stack_event` with the first entry of the window: an edge-triggered
        descriptor whose callback is running gets the events when that returns. */
    method Park(fd: Fd) returns (found: bool)
      requires Valid() && fd in fds && window != [] && window[0].fd == fd
      modifies `window, `winTok, `frames, `frameTok
      ensures Valid() && Edges() == old(Edges()) && found == (fd.flags.edge && Find(old(frames), fd) < |old(frames)|)
      ensures found ==> window == old(window)[1..] && frames == ParkIn(old(frames), fd, old(window)[0].bits)
      ensures !found ==>
              window == old(window) && frames == old(frames) && winTok == old(winTok)
              && frameTok == old(frameTok)
      ensures old(Tidy(frames, Edges())) ==> Tidy(frames, Edges())
    {
      hide Live, Sum, Holds, Tidy, Account, AllHold;
      if !fd.flags.edge { return false; }
      var i := FindFrame(fd);
      found := i < |frames|;
      FindIs(frames, fd, i);
      ghost var edges := Edges();
      if found {
        HeldParked(window, winTok, frames, frameTok, i);
        MoveToFrame(delivered, dropped, winTok, frameTok, i);
        if Tidy(frames, edges) { TidyPark(frames, edges, i, frames[i].bits + window[0].bits); }
        frameTok, winTok := frameTok[i := frameTok[i] + winTok[0]], winTok[1..];
        frames, window := frames[i := frames[i].(bits := frames[i].bits + window[0].bits)], window[1..];
      }
      assert Edges() == edges;
    }

    /** `uloop_run_events` up to the call of a callback: of which descriptor, and with
        which bits. `batch` is what that call delivers, and `fr` the stack after events
        were fetched. */
    method RunEvents(raws: seq<Raw>)
      returns (fd: Fd?, bits: set<Bit>, ghost batch: Tokens, ghost fr: seq<Slot>, ghost n: nat)
      requires Valid() && forall r :: r in raws && r.fd != null ==> r.fd in fds
      modifies this, fds
      ensures Valid() && fds == old(fds) && delivered == old(delivered) + batch
      ensures fetched == old(fetched) + if old(window) == [] then Report(raws) else multiset{}
      ensures var lost := if old(window) == [] then Failing(raws, old(Marks())) else {};
              && fr == CutAll(old(frames), old(Marks()), lost)
              && Marks() == Struck(old(Marks()), lost) && Edges() == old(Edges()) - lost
      ensures var w := if old(window) == [] then AllSeen(raws) else old(window);
        var n := Scan(w, fr, Edges());
        if n.0 == |w| then fd == null && window == [] && frames == n.1 && batch == multiset{}
        else fd == w[n.0].fd && bits == w[n.0].bits && window == w[n.0 + 1..] && frames == [Slot(fd, {})] + n.1
      ensures var w := if old(window) == [] then AllSeen(raws) else old(window);
              && Passed(w, fr, Edges(), n, if fd == null then frames else frames[1..]) && (fd == null <==> n == |w|)
      ensures old(window) == [] && fd != null ==>
                && n < |raws| && raws[n].fd == fd && |window| == |raws| - n - 1
                && (READ in bits <==> raws[n].readable) && (WRITE in bits <==> raws[n].writable)
      ensures old(window) != [] && fd != null ==>
                n < |old(window)| && fd == old(window)[n].fd && bits == old(window)[n].bits
      ensures old(window) == [] ==>
                forall g, b :: g in fds ==> fetched[Token(g, b)] == old(fetched)[Token(g, b)] + Carrying(raws, g, b)
      ensures old(window) == [] ==> forall g :: g in fds ==>
                (g.registered <==>
                   old(g.registered) && forall r :: r in raws && r.fd == g && r.error ==> old(g.flags.errorCb))
      ensures fd != null ==> fd.cb && Holds(Slot(fd, bits), batch)
      ensures old(Tidy(frames, Edges())) ==> Tidy(frames, Edges())
      ensures forall t: Token :: t.fd in fds && t.fd.registered && t.fd.cb ==> dropped[t] == old(dropped)[t]
    {
      hide Live, Sum, Holds, Tidy, Account, AllHold, Scan, Report, AllSeen, Failing, Struck, CutAll, Passed, Carrying;
      NoneFail([], frames, Marks(), Edges());
      if window == [] {
        Fetch(raws);
      }
      fr := frames;
      ghost var w, edges := window, Edges();
      ScanLaw(w, fr, edges);
      n := Scan(w, fr, edges).0;
      Delivered(w, fr, edges, n, Scan(w, fr, edges).1);
      fd, bits, batch := Drain();
      assert fd != null ==> frames[1..] == Scan(w, fr, edges).1;
    }

    /** The loop of uloop_run_events. */
    method Drain() returns (fd: Fd?, bits: set<Bit>, ghost batch: Tokens)
      requires Valid()
      modifies `window, `winTok, `frames, `frameTok, `delivered, `dropped
      ensures Valid() && delivered == old(delivered) + batch && Edges() == old(Edges())
      ensures var w := old(window); var n := Scan(w, old(frames), Edges());
        if n.0 == |w| then fd == null && window == [] && frames == n.1 && batch == multiset{}
        else fd == w[n.0].fd && bits == w[n.0].bits && window == w[n.0 + 1..] && frames == [Slot(fd, {})] + n.1
      ensures fd != null ==> fd.cb && Holds(Slot(fd, bits), batch)
      ensures old(Tidy(frames, Edges())) ==> Tidy(frames, Edges())
      ensures forall t: Token :: t.fd.cb ==> dropped[t] == old(dropped)[t]
    {
      hide Live, Sum, Holds, Tidy, Account, AllHold, ParkIn, Scan;
      fd, bits, batch := null, {}, multiset{};
      ghost var k, edges, w := 0, Edges(), window;
      while window != []
        invariant Valid() && delivered == old(delivered) && Edges() == edges && k <= |w| && window == w[k..]
        invariant Scan(w, old(frames), edges) == (k + Scan(window, frames, edges).0, Scan(window, frames, edges).1)
        invariant old(Tidy(frames, Edges())) ==> Tidy(frames, Edges())
        invariant forall t: Token :: t.fd.cb ==> dropped[t] == old(dropped)[t]
        decreases |window|
      {
        var cur := window[0];
        var u := cur.fd;
        ScanStep(window, frames, edges);
        if u == null || !u.cb {
          Skip();
        } else {
          FindLive(frames, u);
          assert u in edges <==> u.flags.edge;
          var parked := Park(u);
          if !parked {
            batch := Enter(u);
            fd, bits := u, cur.bits;
            return;
          }
        }
        k := k + 1;
      }
      ScanStep(window, frames, edges);
    }

    /** An entry without a descriptor, or one without a callback. */
    method Skip()
      requires Valid() && window != [] && (window[0].fd == null || !window[0].fd.cb)
      modifies `window, `winTok, `dropped
      ensures Valid() && window == old(window)[1..] && Edges() == old(Edges())
      ensures forall t: Token :: t.fd.cb ==> dropped[t] == old(dropped)[t]
    {
      hide Sum, Account;
      ghost var edges := Edges();
      assert Holds(window[0], winTok[0]);
      IgnoreWindow(delivered, dropped, winTok, frameTok);
      dropped, winTok := dropped + winTok[0], winTok[1..];
      window := window[1..];
      assert Edges() == edges;
    }

    /** A new frame, and the first call of the callback. */
    method Enter(fd: Fd) returns (ghost batch: Tokens)
      requires Valid() && fd in fds && window != [] && window[0].fd == fd && !(fd.flags.edge && Live(frames, fd) > 0)
      modifies `window, `winTok, `frames, `frameTok, `delivered
      ensures Valid() && Edges() == old(Edges()) && window == old(window)[1..] && frames == [Slot(fd, {})] + old(frames)
      ensures delivered == old(delivered) + batch && Holds(old(window)[0], batch)
      ensures old(Tidy(frames, Edges())) ==> Tidy(frames, Edges())
    {
      hide Live, Sum, Tidy, Account, Holds;
      ghost var edges := Edges();
      batch := winTok[0];
      Untouched(Slot(fd, {}), multiset{});
      DeliverWindow(delivered, dropped, winTok, frameTok);
      if Tidy(frames, edges) { TidyPush(frames, edges, fd); }
      delivered, winTok, frameTok := delivered + winTok[0], winTok[1..], [multiset{}] + frameTok;
      window, frames := window[1..], [Slot(fd, {})] + frames;
      assert Edges() == edges;
    }

    /** The innermost callback returns: it is called again with what was parked
        meanwhile, unless its descriptor was deleted, or else its frame goes. */
    method Return() returns (again: bool, bits: set<Bit>, ghost batch: Tokens)
      requires Valid() && frames != []
      modifies `frames, `frameTok, `delivered
      ensures Valid() && delivered == old(delivered) + batch
      ensures again ==>
              frames == old(frames)[0 := Slot(old(frames)[0].fd, {})]
              && Holds(Slot(frames[0].fd, bits), batch) && bits != {}
      ensures !again ==> frames == old(frames)[1..] && batch == multiset{}
      ensures again == (old(frames)[0].fd != null && old(frames)[0].bits != {})
      ensures old(Tidy(frames, Edges())) ==> Tidy(frames, Edges())
    {
      hide Live, Sum, Tidy, Account, Holds;
      ghost var edges, tidy := Edges(), Tidy(frames, Edges());
      bits := frames[0].bits;
      again := frames[0].fd != null && bits != {};
      batch := frameTok[0];
      Untouched(frames[0], batch);
      DeliverFrame(delivered, dropped, winTok, frameTok);
      if again {
        if tidy { TidyReset(frames, edges, 0, Slot(frames[0].fd, {})); }
        delivered, frameTok := delivered + frameTok[0], frameTok[0 := multiset{}];
        frames := frames[0 := Slot(frames[0].fd, {})];
      } else {
        if tidy { TidyPop(frames, edges); }
        frameTok := frameTok[1..];
        frames := frames[1..];
      }
      assert Edges() == edges;
    }
  }

  /** What happens to the first entry of the window. */
  lemma ScanStep(w: seq<Slot>, frames: seq<Slot>, edges: set<Fd>)
    ensures w == [] ==> Scan(w, frames, edges) == (0, frames)
    ensures w != [] ==>
      var fd := w[0].fd;
      if fd == null || !fd.cb then
        Scan(w, frames, edges) == (1 + Scan(w[1..], frames, edges).0, Scan(w[1..], frames, edges).1)
      else if fd in edges && Find(frames, fd) < |frames| then
        var fr := ParkIn(frames, fd, w[0].bits);
        Scan(w, frames, edges) == (1 + Scan(w[1..], fr, edges).0, Scan(w[1..], fr, edges).1)
      else
        Scan(w, frames, edges) == (0, frames)
  {
  }

  /** The entry of cur_fds for a report. */
  function Seen(r: Raw): Slot {
    if r.rdhup || r.readable || r.writable || r.error then
      Slot(r.fd, (if r.readable then {READ} else {}) + if r.writable then {WRITE} else {})
    else
      Slot(null, {})
  }

  // ----- descriptors that fail

  type Registry = map<Fd, (Flags, bool)>

  /** The registered descriptors that are reported with an error and do not ask for it. */
  ghost function Failing(raws: seq<Raw>, marks: Registry): set<Fd> {
    set r | r in raws && Fails(r, marks) :: r.fd
  }

  predicate Fails(r: Raw, marks: Registry) {
    r.error && r.fd != null && r.fd in marks && marks[r.fd].1 && !marks[r.fd].0.errorCb
  }

  /** The registrations without them. */
  ghost function Struck(marks: Registry, lost: set<Fd>): Registry {
    map fd | fd in marks :: if fd in lost then (NoFlags, false) else marks[fd]
  }

  /** The first frame of each edge-triggered one of them is cut off. */
  ghost function CutAll(frames: seq<Slot>, marks: Registry, lost: set<Fd>): (r: seq<Slot>)
    ensures |r| == |frames|
  {
    seq(|frames|, i requires 0 <= i < |frames| =>
      if IsCut(frames, marks, lost, i) then frames[i].(fd := null) else frames[i])
  }

  ghost predicate IsCut(frames: seq<Slot>, marks: Registry, lost: set<Fd>, i: nat)
    requires i < |frames|
  {
    var fd := frames[i].fd;
    fd != null && fd in lost && fd in marks && marks[fd].0.edge && Find(frames, fd) == i
  }

  lemma NoneFail(raws: seq<Raw>, frames: seq<Slot>, marks: Registry, edges: set<Fd>)
    requires forall r :: r in raws ==> !r.error
    ensures Failing(raws, marks) == {} && CutAll(frames, marks, {}) == frames && Struck(marks, {}) == marks
    ensures edges - {} == edges
  {
    assert CutAll(frames, marks, {}) == frames;
  }

  /** One report more. */
  lemma FailingSnoc(raws: seq<Raw>, r: Raw, marks: Registry)
    ensures Failing(raws + [r], marks) == if Fails(r, marks) then Failing(raws, marks) + {r.fd}
            else Failing(raws, marks)
    ensures var lost := Failing(raws, marks);
            Fails(r, Struck(marks, lost)) <==> Fails(r, marks) && r.fd !in lost
  {
    var a, b := Failing(raws + [r], marks), Failing(raws, marks) + if Fails(r, marks) then {r.fd} else {};
    assert Failing(raws, marks) + {} == Failing(raws, marks);
    assert r in raws + [r] && forall x :: x in raws ==> x in raws + [r];
    assert a <= b && b <= a;
  }

  /** One frame more is cut off. */
  lemma CutMore(frames: seq<Slot>, marks: Registry, lost: set<Fd>, fd: Fd)
    requires fd !in lost && fd in marks
    ensures CutAll(frames, marks, lost + {fd}) ==
            if marks[fd].0.edge then CutIn(CutAll(frames, marks, lost), fd) else CutAll(frames, marks, lost)
  {
    var c, i := CutAll(frames, marks, lost), Find(frames, fd);
    FindIs(c, fd, i);
    assert CutAll(frames, marks, lost + {fd}) == if marks[fd].0.edge then CutIn(c, fd) else c;
  }

  /** What one report more does. */
  lemma FailStep(frames: seq<Slot>, marks: Registry, raws: seq<Raw>, r: Raw)
    ensures var lost, lost' := Failing(raws, marks), Failing(raws + [r], marks);
            var now, cut := Struck(marks, lost), CutAll(frames, marks, lost);
            && Struck(marks, lost') == (if Fails(r, now) then now[r.fd := (NoFlags, false)] else now)
            && CutAll(frames, marks, lost') == (if Fails(r, now) && now[r.fd].0.edge then CutIn(cut, r.fd) else cut)
  {
    hide CutAll, CutIn, Failing;
    var lost := Failing(raws, marks);
    FailingSnoc(raws, r, marks);
    if Fails(r, marks) {
      if r.fd in lost { assert lost + {r.fd} == lost; } else { CutMore(frames, marks, lost, r.fd); }
    }
  }

  /** How many reports of a descriptor carry a bit. */
  ghost function Carrying(raws: seq<Raw>, fd: Fd, b: Bit): nat {
    if raws == [] then 0
    else
      var r := raws[0];
      (if r.fd == fd && (if b == READ then r.readable else r.writable) then 1 else 0) + Carrying(raws[1..], fd, b)
  }

  lemma {:induction false} ReportCounts(raws: seq<Raw>, fd: Fd, b: Bit)
    ensures Report(raws)[Token(fd, b)] == Carrying(raws, fd, b)
  {
    if raws != [] {
      assert AllOf(raws)[1..] == AllOf(raws[1..]);
      ReportCounts(raws[1..], fd, b);
      OfCounts(raws[0], fd, b);
    }
  }

  lemma OfCounts(r: Raw, fd: Fd, b: Bit)
    ensures Of(Seen(r))[Token(fd, b)] ==
            if r.fd == fd && (if b == READ then r.readable else r.writable) then 1 else 0
  {
    match b case READ => case WRITE =>
  }

  /** The entries for the reports, mark by mark. */
  lemma SeenIs(raws: seq<Raw>)
    ensures forall i :: 0 <= i < |raws| ==>
              var r, s := raws[i], AllSeen(raws)[i];
              && s.fd == (if r.rdhup || r.readable || r.writable || r.error then r.fd else null)
              && (s.fd != null ==> (READ in s.bits <==> r.readable) && (WRITE in s.bits <==> r.writable))
  {
  }

  function AllSeen(raws: seq<Raw>): (w: seq<Slot>)
    ensures |w| == |raws| && forall i :: 0 <= i < |raws| ==> w[i] == Seen(raws[i])
  {
    seq(|raws|, i requires 0 <= i < |raws| => Seen(raws[i]))
  }

  /** One token for each bit of an entry. */
  ghost function Of(s: Slot): Tokens {
    if s.fd == null then multiset{}
    else (if READ in s.bits then multiset{Token(s.fd, READ)} else multiset{})
         + if WRITE in s.bits then multiset{Token(s.fd, WRITE)} else multiset{}
  }

  ghost function AllOf(raws: seq<Raw>): (ts: seq<Tokens>)
    ensures |ts| == |raws| && forall i :: 0 <= i < |raws| ==> ts[i] == Of(Seen(raws[i]))
  {
    seq(|raws|, i requires 0 <= i < |raws| => Of(Seen(raws[i])))
  }

  /** All the bits a report brings. */
  ghost function Report(raws: seq<Raw>): Tokens { Sum(AllOf(raws)) }

  lemma NothingHeld()
    ensures AllHold([], [])
  {
  }

  lemma NoWindow(w: seq<Slot>, ts: seq<Tokens>)
    requires AllHold(w, ts) && w == []
    ensures ts == []
  {
  }

  lemma HeldSnoc(w: seq<Slot>, ts: seq<Tokens>, s: Slot)
    requires AllHold(w, ts)
    ensures AllHold(w + [s], ts + [Of(s)])
  {
    if s.fd != null {
      forall b | b in s.bits
        ensures Token(s.fd, b) in Of(s)
      {
        match b case READ => case WRITE =>
      }
    }
  }

  lemma DropFrame(delivered: Tokens, dropped: Tokens, w: seq<Tokens>, f: seq<Tokens>, i: nat)
    requires i < |f|
    ensures Account(delivered, dropped + f[i], w, f[i := multiset{}]) == Account(delivered, dropped, w, f)
  {
    SumUpdate(f, i, multiset{});
    var s := Sum(f[i := multiset{}]);
    assert delivered + (dropped + f[i]) + Sum(w) + s == delivered + dropped + Sum(w) + (s + f[i]);
  }

  /** Giving up what the window holds of `fd`. */
  lemma DropWindow(delivered: Tokens, dropped: Tokens, win: seq<Slot>, w: seq<Tokens>, f: seq<Tokens>, fd: Fd)
    requires AllHold(win, w)
    ensures var k := Kept(win, w, fd);
            && Account(delivered, dropped + (Sum(w) - Sum(k)), k, f) == Account(delivered, dropped, w, f)
            && forall t: Token :: t.fd != fd ==> (dropped + (Sum(w) - Sum(k)))[t] == dropped[t]
  {
    hide Kept, Sum;
    KeptSum(win, w, fd);
    var k := Sum(Kept(win, w, fd));
    assert Sum(w) == (Sum(w) - k) + k;
    assert delivered + (dropped + (Sum(w) - k)) + k + Sum(f) == delivered + dropped + ((Sum(w) - k) + k) + Sum(f);
  }

  /** The first entry of the window moves into a frame. */
  lemma MoveToFrame(delivered: Tokens, dropped: Tokens, w: seq<Tokens>, f: seq<Tokens>, i: nat)
    requires i < |f| && w != []
    ensures Account(delivered, dropped, w[1..], f[i := f[i] + w[0]]) == Account(delivered, dropped, w, f)
  {
    SumUpdate(f, i, f[i] + w[0]);
    var s, x, r := Sum(f[i := f[i] + w[0]]), w[0], Sum(w[1..]);
    assert Sum(w) == x + r;
    assert (Sum(f) + (f[i] + x)) - f[i] == Sum(f) + x;
    assert (s + f[i]) - f[i] == s;
    assert delivered + dropped + r + (Sum(f) + x) == delivered + dropped + (x + r) + Sum(f);
  }

  /** The first entry of the window is delivered to a new frame. */
  lemma DeliverWindow(delivered: Tokens, dropped: Tokens, w: seq<Tokens>, f: seq<Tokens>)
    requires w != []
    ensures Account(delivered + w[0], dropped, w[1..], [multiset{}] + f) == Account(delivered, dropped, w, f)
  {
    var x, r := w[0], Sum(w[1..]);
    assert ([multiset{}] + f)[1..] == f;
    assert (delivered + x) + dropped + r + Sum(f) == delivered + dropped + (x + r) + Sum(f);
  }

  lemma IgnoreWindow(delivered: Tokens, dropped: Tokens, w: seq<Tokens>, f: seq<Tokens>)
    requires w != []
    ensures Account(delivered, dropped + w[0], w[1..], f) == Account(delivered, dropped, w, f)
  {
    var x, r := w[0], Sum(w[1..]);
    assert delivered + (dropped + x) + r + Sum(f) == delivered + dropped + (x + r) + Sum(f);
  }

  /** What is parked in the innermost frame is delivered. */
  lemma DeliverFrame(delivered: Tokens, dropped: Tokens, w: seq<Tokens>, f: seq<Tokens>)
    requires f != []
    ensures Account(delivered + f[0], dropped, w, f[0 := multiset{}]) == Account(delivered, dropped, w, f)
    ensures f[0] == multiset{} ==> Account(delivered, dropped, w, f[1..]) == Account(delivered, dropped, w, f)
  {
    var x, r := f[0], Sum(f[1..]);
    assert f[0 := multiset{}][1..] == f[1..];
    assert (delivered + x) + dropped + Sum(w) + r == delivered + dropped + Sum(w) + (x + r);
  }

  lemma FetchAccount(delivered: Tokens, dropped: Tokens, f: seq<Tokens>, w: seq<Tokens>)
    ensures Account(delivered, dropped, [], f) + Sum(w) == Account(delivered, dropped, w, f)
  {
  }

  lemma {:induction false} CutHolds(s: Slot, ts: Tokens, fd: Fd)
    requires Holds(s, ts) && s.fd == fd
    ensures Holds(s.(fd := null), multiset{}) && forall t :: t in ts ==> t.fd == fd
  {
  }

  lemma Untouched(s: Slot, ts: Tokens)
    requires Holds(s, ts) || ts == multiset{}
    ensures s.fd != null ==> Holds(Slot(s.fd, {}), multiset{})
    ensures s.fd == null || s.bits == {} ==> ts == multiset{}
  {
  }

  lemma {:induction false} ParkHolds(s: Slot, ts: Tokens, e: Slot, es: Tokens)
    requires Holds(s, ts) && Holds(e, es) && s.fd == e.fd
    ensures Holds(s.(bits := s.bits + e.bits), ts + es)
  {
  }

  lemma {:induction false} HeldParked(w: seq<Slot>, wt: seq<Tokens>, f: seq<Slot>, ft: seq<Tokens>, i: nat)
    requires AllHold(w, wt) && AllHold(f, ft) && w != [] && i < |f| && f[i].fd == w[0].fd
    ensures wt != [] && i < |ft| && AllHold(w[1..], wt[1..])
    ensures AllHold(f[i := f[i].(bits := f[i].bits + w[0].bits)], ft[i := ft[i] + wt[0]])
  {
    hide Holds;
    ParkHolds(f[i], ft[i], w[0], wt[0]);
  }

  lemma TidyLive(frames: seq<Slot>, edges: set<Fd>, fd: Fd)
    requires Tidy(frames, edges) && fd in edges
    ensures Live(frames, fd) <= 1
  {
  }

  // ----- changing the mode inside a callback

  /** A report that `fd` is readable, for a window without other events. */
  lemma OneReport(fd: Fd, frames: seq<Slot>, edges: set<Fd>)
    requires fd.cb
    ensures var raws := [Raw(fd, false, false, true, false)];
            && (forall r :: r in raws ==> !r.error) && AllSeen(raws) == [Slot(fd, {READ})]
            && Scan(AllSeen(raws), frames, edges) ==
               if fd in edges && Find(frames, fd) < |frames| then (1, ParkIn(frames, fd, {READ})) else (0, frames)
  {
    var raws := [Raw(fd, false, false, true, false)];
    assert Seen(raws[0]) == Slot(fd, {READ});
    assert AllSeen(raws) == [Slot(fd, {READ})] && AllSeen(raws)[1..] == [];
    ScanStep(AllSeen(raws), frames, edges);
    ScanStep([], ParkIn(frames, fd, {READ}), edges);
  }

  /** A level-triggered descriptor whose callback runs the event loop has two live frames;
      if it is made edge-triggered then, it keeps both. */
  method TwoLiveFrames() returns (u: Uloop, fd: Fd)
    ensures u.Valid() && fd in u.Edges() && u.frames == [Slot(fd, {}), Slot(fd, {})] && !Tidy(u.frames, u.Edges())
  {
    hide Tidy, Live, Scan, AllSeen, Report, Account, AllHold, Holds, Sum, Failing, Struck, CutAll;
    u := new Uloop();
    fd := new Fd(true);
    u.FdAdd(fd, Flags(true, false, false, false));
    StillTidy([], fd, false);
    var raws := [Raw(fd, false, false, true, false)];
    OneReport(fd, u.frames, u.Edges());
    NoneFail(raws, u.frames, u.Marks(), u.Edges());
    var a, b, c, d, e := u.RunEvents(raws);
    assert u.frames == [Slot(fd, {})] && u.window == [] && u.Marks()[fd].0 == fd.flags;
    OneReport(fd, u.frames, u.Edges());
    NoneFail(raws, u.frames, u.Marks(), u.Edges());
    a, b, c, d, e := u.RunEvents(raws);
    assert u.frames == [Slot(fd, {}), Slot(fd, {})];
    u.FdAdd(fd, Flags(true, false, true, false));
    TwoAreLive(fd, u.Edges());
  }

  lemma StillTidy(frames: seq<Slot>, fd: Fd, edge: bool)
    requires frames == []
    ensures Switchable(frames, fd, edge)
  {
  }

  lemma TwoAreLive(fd: Fd, edges: set<Fd>)
    requires fd in edges
    ensures !Tidy([Slot(fd, {}), Slot(fd, {})], edges)
  {
    var two := [Slot(fd, {}), Slot(fd, {})];
    assert two[1..] == [Slot(fd, {})] && two[1..][1..] == [];
    assert Live(two[1..], fd) == 1 && Live(two, fd) == 1 + Live(two[1..], fd);
  }

  /** An edge-triggered descriptor is readable again while its callback is running. */
  method ParkedOnce() returns (u: Uloop, fd: Fd)
    ensures fresh(u) && fresh(fd) && fresh(u.fds) && u.Valid() && fd in u.fds && u.frames == [Slot(fd, {READ})]
  {
    hide Tidy, Live, Scan, AllSeen, Report, Account, AllHold, Holds, Sum, Failing, Struck, CutAll;
    u := new Uloop();
    fd := new Fd(true);
    u.FdAdd(fd, Flags(true, false, true, false));
    assert fd in u.Edges();
    var raws := [Raw(fd, false, false, true, false)];
    OneReport(fd, u.frames, u.Edges());
    NoneFail(raws, u.frames, u.Marks(), u.Edges());
    var a, b, c, d, e := u.RunEvents(raws);
    assert u.frames == [Slot(fd, {})] && u.window == [] && u.Marks()[fd].0 == fd.flags;
    OneReport(fd, u.frames, u.Edges());
    NoneFail(raws, u.frames, u.Marks(), u.Edges());
    OneParked(fd);
    ghost var edges := u.Edges();
    assert fd in edges && Scan(AllSeen(raws), u.frames, edges) == (1, [Slot(fd, {READ})]);
    a, b, c, d, e := u.RunEvents(raws);
  }

  lemma OneParked(fd: Fd)
    ensures Find([Slot(fd, {})], fd) == 0 && ParkIn([Slot(fd, {})], fd, {READ}) == [Slot(fd, {READ})]
  {
    assert {} + {READ} == {READ};
  }

  /** If it is made level-triggered then, it keeps what was parked; uloop_fd_delete overlooks
      it, and the callback of the deleted descriptor is called again. */
  method OverlookedEvents() returns (u: Uloop, fd: Fd, again: bool)
    ensures !fd.registered && again
  {
    hide Tidy, Live, Account, AllHold, Holds, Sum;
    u, fd := ParkedOnce();
    u.FdAdd(fd, Flags(true, false, false, false));
    u.FdDelete(fd);
    var e;
    ghost var f;
    again, e, f := u.Return();
  }
}
