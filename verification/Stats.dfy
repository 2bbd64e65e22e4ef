/** Listener counters: the connection gauge, and totals read while connections come and go.

    Each counter is an atomic; tasks are interleaved between any two atomic operations. Counters are
    taken as unbounded. */
module Stats {
  // ----- all listeners, interleaved -----

  /** One listener's counters, the guards alive, and accepts caught between their two increments. */
  datatype Counters = Counters(accepted: nat, active: int, guards: nat, halfway: nat, dropped: nat, restarts: nat)

  const ZERO := Counters(0, 0, 0, 0, 0, 0)

  /** One atomic step of some task, on listener `i`. */
  datatype Op = BumpAccepted(i: nat) | BumpActive(i: nat) | DropGuard(i: nat) | BumpRestarts(i: nat)

  function Touch(c: Counters, op: Op): Counters {
    match op
    case BumpAccepted(_) => c.(accepted := c.accepted + 1, halfway := c.halfway + 1)
    case BumpActive(_) =>
      if c.halfway > 0 then c.(halfway := c.halfway - 1, active := c.active + 1, guards := c.guards + 1) else c
    case DropGuard(_) =>
      if c.guards > 0 then c.(guards := c.guards - 1, active := c.active - 1, dropped := c.dropped + 1) else c
    case BumpRestarts(_) => c.(restarts := c.restarts + 1)
  }

  function Apply(cs: seq<Counters>, op: Op): (r: seq<Counters>)
    ensures |r| == |cs|
  {
    if op.i < |cs| then cs[op.i := Touch(cs[op.i], op)] else cs
  }

  function Exec(cs: seq<Counters>, ops: seq<Op>): (r: seq<Counters>)
    ensures |r| == |cs|
    decreases |ops|
  {
    if ops == [] then cs else Exec(Apply(cs, ops[0]), ops[1..])
  }

  predicate Good(c: Counters) {
    c.active == c.guards && c.accepted == c.active + c.dropped + c.halfway
  }

  predicate AllGood(cs: seq<Counters>) {
    forall i :: 0 <= i < |cs| ==> Good(cs[i])
  }

  predicate NotBelow(cs: seq<Counters>, later: seq<Counters>) {
    |later| == |cs| && forall i :: 0 <= i < |cs| ==> cs[i].accepted <= later[i].accepted
  }

  lemma {:induction false} ExecIsGood(cs: seq<Counters>, ops: seq<Op>)
    requires AllGood(cs)
    ensures AllGood(Exec(cs, ops)) && NotBelow(cs, Exec(cs, ops))
    decreases |ops|
  {
    if ops != [] {
      ExecIsGood(Apply(cs, ops[0]), ops[1..]);
    }
  }

  /** In every run: accepted counts the live connections, the finished ones and the accepts caught
      half way; the gauge is the number of live guards, so it never goes below zero. */
  lemma GaugeIsExact(listeners: nat, ops: seq<Op>, i: nat)
    requires i < listeners
    ensures var c := Exec(seq(listeners, _ => ZERO), ops)[i];
      && c.accepted == c.active + c.dropped + c.halfway
      && c.active == c.guards && c.active >= 0
  {
    ExecIsGood(seq(listeners, _ => ZERO), ops);
  }

  function Occurrences(ops: seq<Op>, op: Op): nat {
    if ops == [] then 0 else (if ops[0] == op then 1 else 0) + Occurrences(ops[1..], op)
  }

  /** Each accept and each restart is counted once, for its own listener. */
  lemma {:induction false} EveryEventCounts(cs: seq<Counters>, ops: seq<Op>, i: nat)
    requires i < |cs|
    ensures Exec(cs, ops)[i].accepted == cs[i].accepted + Occurrences(ops, BumpAccepted(i))
    ensures Exec(cs, ops)[i].restarts == cs[i].restarts + Occurrences(ops, BumpRestarts(i))
    decreases |ops|
  {
    if ops != [] {
      EveryEventCounts(Apply(cs, ops[0]), ops[1..], i);
    }
  }

  // ----- one listener as an object -----

  /** `ActiveGuard`: owned by a connection task, gives the gauge back when dropped. */
  class ActiveGuard {
    const stats: ListenerStats

    constructor (stats: ListenerStats)
      ensures this.stats == stats
    {
      this.stats := stats;
    }
  }

  /** The counters of one listener. Each method but the last three is one atomic operation and takes
      the step of the same name; the guards alive are the objects handed out and not yet dropped. */
  class ListenerStats {
    var accepted: nat
    var active: nat
    var restarts: nat
    var halfway: nat // tasks between the two increments of `on_accept`
    ghost var live: set<ActiveGuard>
    ghost var dropped: nat

    ghost predicate Valid()
      reads this
    {
      && Good(View())
      && forall g :: g in live ==> g.stats == this
    }

    ghost function View(): Counters
      reads this
    {
      Counters(accepted, active, |live|, halfway, dropped, restarts)
    }

    constructor ()
      ensures live == {} && View() == ZERO && Valid()
    {
      accepted, active, restarts, halfway := 0, 0, 0, 0;
      live, dropped := {}, 0;
      new;
      assert View() == ZERO;
    }

    method AddAccepted()
      requires Valid()
      modifies this
      ensures Valid() && View() == Touch(old(View()), BumpAccepted(0)) && live == old(live)
    {
      accepted := accepted + 1;
      halfway := halfway + 1;
    }

    method AddActive() returns (guard: ActiveGuard)
      requires Valid() && halfway > 0
      modifies this
      ensures Valid() && View() == Touch(old(View()), BumpActive(0))
      ensures fresh(guard) && guard.stats == this && live == old(live) + {guard}
    {
      active := active + 1;
      halfway := halfway - 1;
      guard := new ActiveGuard(this);
      live := live + {guard};
    }

    /** `ActiveGuard::drop`: the decrement never meets a zero gauge. */
    method Drop(ghost guard: ActiveGuard)
      requires Valid() && guard in live
      modifies this
      ensures Valid() && View() == Touch(old(View()), DropGuard(0)) && live == old(live) - {guard}
    {
      live := live - {guard};
      active := active - 1;
      dropped := dropped + 1;
    }

    /** `inc_restart`. */
    method AddRestart()
      requires Valid()
      modifies this
      ensures Valid() && View() == Touch(old(View()), BumpRestarts(0)) && live == old(live)
    {
      restarts := restarts + 1;
    }

    /** `on_accept`, while other tasks do `between` after its first increment and finish no accept but
        their own: two separate steps of the run, and a guard of its own. */
    method OnAccept(between: seq<Op>) returns (guard: ActiveGuard)
      requires Valid() && Exec([Touch(View(), BumpAccepted(0))], between)[0].halfway > 0
      modifies this
      ensures Valid() && guard in live && fresh(guard) && guard.stats == this
      ensures View() == Touch(Exec([Touch(old(View()), BumpAccepted(0))], between)[0], BumpActive(0))
    {
      AddAccepted();
      Run(between);
      guard := AddActive();
    }

    /** One atomic operation of some task; a drop drops any live guard. */
    method Take(op: Op)
      requires Valid()
      modifies this
      ensures Valid() && [View()] == Apply([old(View())], op)
    {
      if op.i == 0 {
        match op {
          case BumpAccepted(_) => AddAccepted();
          case BumpActive(_) =>
            if halfway > 0 {
              var _ := AddActive();
            }
          case DropGuard(_) =>
            if active > 0 {
              ghost var g :| g in live;
              Drop(g);
            }
          case BumpRestarts(_) => AddRestart();
        }
      }
    }

    /** Every interleaving of the atomic operations reaches the counters the schedule determines. */
    method Run(ops: seq<Op>)
      requires Valid()
      modifies this
      ensures Valid() && [View()] == Exec([old(View())], ops)
    {
      var i := 0;
      assert ops[0..] == ops;
      while i < |ops|
        invariant 0 <= i <= |ops| && Valid() && Exec([View()], ops[i..]) == Exec([old(View())], ops)
      {
        assert ops[i..][0] == ops[i] && ops[i..][1..] == ops[i + 1..];
        Take(ops[i]);
        i := i + 1;
      }
    }
  }

  // ----- totals read one counter at a time -----

  /** Sum of `accepted` over the listeners from `i` on. */
  function AcceptedFrom(cs: seq<Counters>, i: nat): nat
    requires i <= |cs|
    decreases |cs| - i
  {
    if i == |cs| then 0 else cs[i].accepted + AcceptedFrom(cs, i + 1)
  }

  /** Sum of `accepted` over the first `i` listeners. */
  function AcceptedBelow(cs: seq<Counters>, i: nat): nat
    requires i <= |cs|
  {
    if i == 0 then 0 else AcceptedBelow(cs, i - 1) + cs[i - 1].accepted
  }

  lemma {:induction false} SumsGrow(cs: seq<Counters>, later: seq<Counters>, i: nat)
    requires NotBelow(cs, later) && i <= |cs|
    ensures AcceptedBelow(cs, i) <= AcceptedBelow(later, i)
  {
    if i > 0 {
      SumsGrow(cs, later, i - 1);
    }
  }

  lemma {:induction false} SumsGrowFrom(cs: seq<Counters>, later: seq<Counters>, i: nat)
    requires NotBelow(cs, later) && i <= |cs|
    ensures AcceptedFrom(cs, i) <= AcceptedFrom(later, i)
    decreases |cs| - i
  {
    if i < |cs| {
      SumsGrowFrom(cs, later, i + 1);
    }
  }

  lemma {:induction false} SumsMeet(cs: seq<Counters>, i: nat)
    requires i <= |cs|
    ensures AcceptedBelow(cs, i) + AcceptedFrom(cs, i) == AcceptedFrom(cs, 0)
  {
    if i > 0 {
      SumsMeet(cs, i - 1);
    }
  }

  /** The counters when `k` bursts of other tasks have run. */
  function After(start: seq<Counters>, env: nat -> seq<Op>, k: nat): (r: seq<Counters>)
    ensures |r| == |start|
  {
    if k == 0 then start else Exec(After(start, env, k - 1), env(k - 1))
  }

  datatype Counter = Accepted | Active | Restarts

  function Value(c: Counters, which: Counter): int {
    match which case Accepted => c.accepted case Active => c.active case Restarts => c.restarts
  }

  /** What a reader adds up over the first `i` listeners when listener `j` is read after
      `first + stride * j` bursts. */
  function Reads(start: seq<Counters>, env: nat -> seq<Op>, which: Counter, first: nat, stride: nat, i: nat): int
    requires i <= |start|
  {
    if i == 0 then 0
    else Reads(start, env, which, first, stride, i - 1) + Value(After(start, env, first + stride * (i - 1))[i - 1], which)
  }

  /** `Registry::dump`: for each listener, read `active`, then `accepted`. Other tasks run `env(k)`
      before the k-th read. Each total is the sum of the values read; whatever the others do, the
      totals never show more active than accepted, and the accepted total lies between the true sums
      at the start and at the end. */
  method Dump(start: seq<Counters>, env: nat -> seq<Op>)
    returns (totalActive: int, totalAccepted: nat, now: seq<Counters>)
    requires AllGood(start)
    ensures totalActive == Reads(start, env, Active, 1, 2, |start|)
    ensures totalAccepted == Reads(start, env, Accepted, 2, 2, |start|)
    ensures now == After(start, env, 2 * |start|)
    ensures 0 <= totalActive <= totalAccepted
    ensures AcceptedFrom(start, 0) <= totalAccepted <= AcceptedFrom(now, 0)
  {
    hide Exec, After, AcceptedFrom, Reads;
    totalActive, totalAccepted, now := 0, 0, start;
    NoBurst(start, env);
    NoReads(start, env, Active, 1, 2);
    NoReads(start, env, Accepted, 2, 2);
    for i := 0 to |start|
      invariant now == After(start, env, 2 * i) && AllGood(now) && NotBelow(start, now)
      invariant totalActive == Reads(start, env, Active, 1, 2, i)
      invariant totalAccepted == Reads(start, env, Accepted, 2, 2, i)
      invariant 0 <= totalActive <= totalAccepted
      invariant AcceptedBelow(start, i) <= totalAccepted <= AcceptedBelow(now, i)
    {
      ReadsStep(start, env, Active, 1, 2, i);
      ReadsStep(start, env, Accepted, 2, 2, i);
      ghost var before := now;
      now := Burst(start, env, 2 * i, now);
      totalActive := totalActive + now[i].active;
      now := Burst(start, env, 2 * i + 1, now);
      totalAccepted := totalAccepted + now[i].accepted;
      SumsGrow(before, now, i);
    }
    SumsMeet(now, |start|);
    SumsMeet(start, |start|);
    SumNone(now);
    SumNone(start);
  }

  lemma NoReads(start: seq<Counters>, env: nat -> seq<Op>, which: Counter, first: nat, stride: nat)
    ensures Reads(start, env, which, first, stride, 0) == 0
  {
  }

  lemma ReadsStep(start: seq<Counters>, env: nat -> seq<Op>, which: Counter, first: nat, stride: nat, i: nat)
    requires i < |start|
    ensures Reads(start, env, which, first, stride, i + 1)
         == Reads(start, env, which, first, stride, i) + Value(After(start, env, first + stride * i)[i], which)
  {
  }

  /** Other tasks run. */
  method Burst(ghost start: seq<Counters>, env: nat -> seq<Op>, k: nat, now: seq<Counters>) returns (next: seq<Counters>)
    requires now == After(start, env, k) && AllGood(now) && NotBelow(start, now)
    ensures next == After(start, env, k + 1) && AllGood(next) && NotBelow(now, next) && NotBelow(start, next)
  {
    ExecIsGood(now, env(k));
    next := Exec(now, env(k));
  }

  /** `Registry::heartbeat_line`: all the `active` counters first, then all the `accepted` ones, then
      the restarts. */
  method HeartbeatLine(start: seq<Counters>, env: nat -> seq<Op>)
    returns (active: int, accepted: nat, restarts: nat, now: seq<Counters>)
    requires AllGood(start)
    ensures active == Reads(start, env, Active, 1, 1, |start|)
    ensures accepted == Reads(start, env, Accepted, |start| + 1, 1, |start|)
    ensures restarts == Reads(start, env, Restarts, 2 * |start| + 1, 1, |start|)
    ensures now == After(start, env, 3 * |start|)
    ensures 0 <= active <= accepted
  {
    hide Exec, After, AcceptedFrom, Reads;
    var n := |start|;
    active, accepted, restarts, now := 0, 0, 0, start;
    NoBurst(start, env);
    NoReads(start, env, Active, 1, 1);
    NoReads(start, env, Accepted, n + 1, 1);
    NoReads(start, env, Restarts, 2 * n + 1, 1);
    for i := 0 to n
      invariant now == After(start, env, i) && AllGood(now) && NotBelow(start, now)
      invariant active == Reads(start, env, Active, 1, 1, i)
      invariant 0 <= active <= AcceptedBelow(now, i)
    {
      ghost var before := now;
      ReadsStep(start, env, Active, 1, 1, i);
      now := Burst(start, env, i, now);
      SumsGrow(before, now, i);
      active := active + now[i].active;
    }
    SumsMeet(now, n);
    for i := 0 to n
      invariant now == After(start, env, n + i) && AllGood(now) && NotBelow(start, now)
      invariant accepted == Reads(start, env, Accepted, n + 1, 1, i)
      invariant 0 <= active <= accepted + AcceptedFrom(now, i)
    {
      ghost var before := now;
      ReadsStep(start, env, Accepted, n + 1, 1, i);
      now := Burst(start, env, n + i, now);
      SumsGrowFrom(before, now, i);
      SumFirst(now, i);
      accepted := accepted + now[i].accepted;
    }
    SumNone(now);
    for i := 0 to n
      invariant now == After(start, env, 2 * n + i) && AllGood(now) && NotBelow(start, now)
      invariant restarts == Reads(start, env, Restarts, 2 * n + 1, 1, i)
    {
      ReadsStep(start, env, Restarts, 2 * n + 1, 1, i);
      now := Burst(start, env, 2 * n + i, now);
      restarts := restarts + now[i].restarts;
    }
  }

  lemma NoBurst(start: seq<Counters>, env: nat -> seq<Op>)
    ensures After(start, env, 0) == start
  {
  }

  lemma SumFirst(cs: seq<Counters>, i: nat)
    requires i < |cs|
    ensures AcceptedFrom(cs, i) == cs[i].accepted + AcceptedFrom(cs, i + 1)
  {
  }

  lemma SumNone(cs: seq<Counters>)
    ensures AcceptedFrom(cs, |cs|) == 0
  {
  }

  // ----- the per-listener line -----

  /** `summary` reads `accepted` first and `active` second, with `between` in the middle. */
  function Summary(c: Counters, between: seq<Op>): (nat, int) {
    (c.accepted, Exec([c], between)[0].active)
  }

  /** In that order a line can show more active connections than accepted ones. */
  lemma SummaryCanInvert()
    ensures Summary(ZERO, [BumpAccepted(0), BumpActive(0)]) == (0, 1)
  {
    var ops := [BumpAccepted(0), BumpActive(0)];
    assert ops[1..] == [BumpActive(0)];
    var one := Apply([ZERO], ops[0]);
    assert Exec([ZERO], ops) == Exec(one, [BumpActive(0)]) == Exec(Apply(one, BumpActive(0)), []);
  }

  /** It is off by no more than the connections accepted while the line was being read, less those that
      had ended before. */
  lemma SummaryIsOffByNewAccepts(c: Counters, between: seq<Op>)
    requires Good(c)
    ensures var (accepted, active) := Summary(c, between);
      0 <= active <= accepted + (Exec([c], between)[0].accepted - c.accepted) - c.dropped
  {
    ExecIsGood([c], between);
    DroppedGrows([c], between);
  }

  lemma {:induction false} DroppedGrows(cs: seq<Counters>, ops: seq<Op>)
    ensures forall i :: 0 <= i < |cs| ==> cs[i].dropped <= Exec(cs, ops)[i].dropped
    decreases |ops|
  {
    if ops != [] {
      DroppedGrows(Apply(cs, ops[0]), ops[1..]);
    }
  }

  /** The line of a listener with counters `c` is in order whatever happens while it is read, as long as
      at most `k` connections are accepted meanwhile. */
  ghost predicate OrderedUpTo(c: Counters, k: nat) {
    forall between: seq<Op> ::
      Exec([c], between)[0].accepted - c.accepted <= k ==> Summary(c, between).1 <= Summary(c, between).0
  }

  /** That holds exactly when at least `k` of its connections had already ended. */
  lemma SummaryOrderedIff(c: Counters, k: nat)
    requires Good(c)
    ensures OrderedUpTo(c, k) <==> k <= c.dropped
  {
    if k <= c.dropped {
      forall between: seq<Op> | Exec([c], between)[0].accepted - c.accepted <= k
        ensures Summary(c, between).1 <= Summary(c, between).0
      {
        SummaryIsOffByNewAccepts(c, between);
      }
    } else {
      var arrivals, starts := Times(BumpAccepted(0), k), Times(BumpActive(0), c.halfway + k);
      var mid := c.(accepted := c.accepted + k, halfway := c.halfway + k);
      Arrivals(c, k);
      Starts(mid, c.halfway + k);
      ExecConcat([c], arrivals, starts);
      assert Summary(c, arrivals + starts).1 > c.accepted;
    }
  }

  function Times(op: Op, n: nat): seq<Op> {
    if n == 0 then [] else [op] + Times(op, n - 1)
  }

  lemma {:induction false} ExecConcat(cs: seq<Counters>, a: seq<Op>, b: seq<Op>)
    ensures Exec(cs, a + b) == Exec(Exec(cs, a), b)
    decreases |a|
  {
    if a == [] {
      assert a + b == b;
    } else {
      assert (a + b)[0] == a[0] && (a + b)[1..] == a[1..] + b;
      ExecConcat(Apply(cs, a[0]), a[1..], b);
    }
  }

  lemma {:induction false} Arrivals(c: Counters, n: nat)
    ensures Exec([c], Times(BumpAccepted(0), n)) == [c.(accepted := c.accepted + n, halfway := c.halfway + n)]
    decreases n
  {
    if n > 0 {
      var next := c.(accepted := c.accepted + 1, halfway := c.halfway + 1);
      assert Apply([c], BumpAccepted(0)) == [next];
      Arrivals(next, n - 1);
      assert Times(BumpAccepted(0), n)[1..] == Times(BumpAccepted(0), n - 1);
    }
  }

  lemma {:induction false} Starts(c: Counters, n: nat)
    requires n <= c.halfway
    ensures Exec([c], Times(BumpActive(0), n)) == [c.(halfway := c.halfway - n, active := c.active + n, guards := c.guards + n)]
    decreases n
  {
    if n > 0 {
      var next := c.(halfway := c.halfway - 1, active := c.active + 1, guards := c.guards + 1);
      assert Apply([c], BumpActive(0)) == [next];
      Starts(next, n - 1);
      assert Times(BumpActive(0), n)[1..] == Times(BumpActive(0), n - 1);
    }
  }
}
