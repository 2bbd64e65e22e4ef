/** The per-listener supervisor: restart with exponential backoff, and how often it can restart.

    Times are milliseconds. The environment decides how long each serve run lasts, how it ends and
    by how much a sleep overshoots; every such choice is an `Attempt`. */
module Supervisor {
  import opened Common

  const BACKOFF_INITIAL: nat := 100
  const BACKOFF_MAX: nat := 5000
  const BACKOFF_HEALTHY: nat := 10000

  /** How a serve task ended, as its join handle reports it. */
  datatype Outcome = Stopped | Failed | Panicked | Aborted

  /** One serve run: it lasts `ran`, its end is seen `lag` later, and the backoff sleep that follows
      takes `overshoot` longer than asked. */
  datatype Attempt = Attempt(ran: nat, lag: nat, outcome: Outcome, overshoot: nat)

  datatype Exit = ByShutdown | ByCleanStop | ByAbort | StillRunning

  predicate Healthy(a: Attempt) {
    a.ran + a.lag >= BACKOFF_HEALTHY
  }

  // ----- the reference schedule -----

  /** How many unhealthy runs in a row end with run `k`, not counting the one that started the row. */
  function Streak(runs: seq<Attempt>, k: nat): nat
    requires k < |runs|
  {
    if Healthy(runs[k]) || k == 0 then 0 else Streak(runs, k - 1) + 1
  }

  function Pow2(j: nat): (p: nat)
    ensures p >= 1
  {
    if j == 0 then 1 else 2 * Pow2(j - 1)
  }

  /** The wait after a row of `j` repeats: 100 ms doubled `j` times, at most 5 s. */
  function Wait(j: nat): nat {
    Min(BACKOFF_INITIAL * Pow2(j), BACKOFF_MAX)
  }

  /** The first `n` waits. */
  function Waits(runs: seq<Attempt>, n: nat): seq<nat>
    requires n <= |runs|
  {
    if n == 0 then [] else Waits(runs, n - 1) + [Wait(Streak(runs, n - 1))]
  }

  /** Time from the start until the first `n` restarts have completed their sleep. */
  function Elapsed(runs: seq<Attempt>, n: nat): nat
    requires n <= |runs|
  {
    if n == 0 then 0
    else Elapsed(runs, n - 1) + runs[n - 1].ran + runs[n - 1].lag + Wait(Streak(runs, n - 1)) + runs[n - 1].overshoot
  }

  /** The backoff the next run starts with. */
  function NextWait(runs: seq<Attempt>, n: nat): nat
    requires n <= |runs|
  {
    if n == 0 then BACKOFF_INITIAL else Min(2 * Wait(Streak(runs, n - 1)), BACKOFF_MAX)
  }

  lemma WaitDoubles(j: nat)
    ensures Wait(j + 1) == Min(2 * Wait(j), BACKOFF_MAX)
  {
  }

  lemma WaitIsNext(runs: seq<Attempt>, n: nat)
    requires n < |runs|
    ensures Wait(Streak(runs, n)) == if Healthy(runs[n]) then BACKOFF_INITIAL else NextWait(runs, n)
    ensures NextWait(runs, n + 1) == Min(2 * Wait(Streak(runs, n)), BACKOFF_MAX)
    ensures Elapsed(runs, n + 1)
         == Elapsed(runs, n) + runs[n].ran + runs[n].lag + Wait(Streak(runs, n)) + runs[n].overshoot
  {
    if !Healthy(runs[n]) && n > 0 {
      WaitDoubles(Streak(runs, n - 1));
    }
  }

  // ----- the loop -----

  predicate Triggered(trigger: Option<nat>, at: nat) {
    trigger.Some? && trigger.value <= at
  }

  /** When a flag raised at `t` is acted on, if a run ends at `end` and is joined `lag` later: at once,
      or, if it comes between the end and the join, at the join. */
  function TakenAt(t: nat, end: nat, lag: nat): nat {
    if end < t <= end + lag then end + lag else t
  }

  /** The `supervise` loop over the runs the environment supplies. `trigger` is the time at which the
      shutdown flag became true, if it ever did. */
  method Supervise(trigger: Option<nat>, runs: seq<Attempt>)
    returns (exit: Exit, restarts: nat, cycles: nat, clock: nat, waits: seq<nat>)
    // every backoff announced is the one the reference schedule gives
    ensures cycles <= restarts <= cycles + 1 && restarts <= |runs|
    ensures waits == Waits(runs, restarts)
    // only failed or panicked runs are restarted
    ensures forall k :: 0 <= k < restarts ==> runs[k].outcome.Failed? || runs[k].outcome.Panicked?
    // the clock never runs ahead of the completed cycles
    ensures clock >= Elapsed(runs, cycles)
    ensures exit.StillRunning? ==> cycles == |runs| && clock == Elapsed(runs, |runs|)
    ensures exit.StillRunning? && cycles > 0 ==> !Triggered(trigger, clock)
    // shutdown is taken when it comes, or when the run that was ending at that moment has been joined
    ensures exit.ByShutdown? ==> cycles < |runs| && Triggered(trigger, clock)
    ensures exit.ByShutdown? ==> clock == TakenAt(trigger.value, Elapsed(runs, cycles) + runs[cycles].ran, runs[cycles].lag)
    ensures exit.ByShutdown? ==> clock <= trigger.value + runs[cycles].lag
    ensures cycles > 0 ==> !Triggered(trigger, Elapsed(runs, cycles))
    // a run that ends by itself is seen at its end, unless the flag is up by then
    ensures exit.ByCleanStop? ==> cycles < |runs| && runs[cycles].outcome.Stopped?
    ensures exit.ByAbort? ==> cycles < |runs| && runs[cycles].outcome.Aborted?
    ensures exit.ByCleanStop? || exit.ByAbort? ==>
      clock == Elapsed(runs, cycles) + runs[cycles].ran && !Triggered(trigger, clock) && restarts == cycles
    // a backoff was announced exactly when the last run had failed and been joined before the flag was up
    ensures restarts == cycles + 1 <==>
      && exit.ByShutdown?
      && (runs[cycles].outcome.Failed? || runs[cycles].outcome.Panicked?)
      && !Triggered(trigger, Elapsed(runs, cycles) + runs[cycles].ran + runs[cycles].lag)
    // restart rate
    ensures 2620 * cycles <= clock + 10000
  {
    hide Wait, Streak;
    var backoff := BACKOFF_INITIAL;
    restarts, cycles, clock, waits := 0, 0, 0, [];
    while cycles < |runs|
      invariant cycles == restarts <= |runs|
      invariant clock == Elapsed(runs, cycles)
      invariant backoff == NextWait(runs, cycles)
      invariant waits == Waits(runs, restarts)
      invariant forall k :: 0 <= k < restarts ==> runs[k].outcome.Failed? || runs[k].outcome.Panicked?
      invariant cycles > 0 ==> !Triggered(trigger, clock)
    {
      RateBound(runs, cycles);
      WaitIsNext(runs, cycles);
      if Triggered(trigger, clock) {
        exit := ByShutdown;
        return;
      }
      var run := runs[cycles];
      var started := clock;
      if Triggered(trigger, clock + run.ran) {
        clock, exit := trigger.value, ByShutdown;
        return;
      }
      clock := clock + run.ran;
      match run.outcome {
        case Stopped =>
          exit := ByCleanStop;
          return;
        case Aborted =>
          exit := ByAbort;
          return;
        case Failed =>
        case Panicked =>
      }
      clock := clock + run.lag;
      if Triggered(trigger, clock) {
        exit := ByShutdown;
        return;
      }
      if clock - started >= BACKOFF_HEALTHY {
        backoff := BACKOFF_INITIAL;
      }
      restarts, waits := restarts + 1, waits + [backoff];
      if Triggered(trigger, clock + backoff + run.overshoot) {
        clock, exit := trigger.value, ByShutdown;
        return;
      }
      clock := clock + backoff + run.overshoot;
      cycles := cycles + 1;
      backoff := Min(backoff * 2, BACKOFF_MAX);
    }
    RateBound(runs, cycles);
    exit := StillRunning;
  }

  // ----- the restart rate -----

  /** By how much the restarts so far may run ahead of one every 2620 ms, given the next backoff. */
  function Debt(backoff: nat): nat {
    if backoff <= 100 then 0
    else if backoff <= 200 then 2520
    else if backoff <= 400 then 4940
    else if backoff <= 800 then 7160
    else if backoff <= 1600 then 8980
    else if backoff <= 3200 then 10000
    else 9420
  }

  /** The only backoffs that occur. */
  predicate IsStep(backoff: nat) {
    backoff == 100 || backoff == 200 || backoff == 400 || backoff == 800 || backoff == 1600
    || backoff == 3200 || backoff == 5000
  }

  lemma {:induction false} DebtInvariant(runs: seq<Attempt>, n: nat)
    requires n <= |runs|
    ensures IsStep(NextWait(runs, n))
    ensures 2620 * n <= Elapsed(runs, n) + Debt(NextWait(runs, n))
  {
    if n > 0 {
      DebtInvariant(runs, n - 1);
      WaitIsNext(runs, n - 1);
    }
  }

  /** Over every mix of healthy and unhealthy runs, restarts come at most one every 2620 ms, plus a
      burst worth 10 s. */
  lemma RateBound(runs: seq<Attempt>, n: nat)
    requires n <= |runs|
    ensures 2620 * n <= Elapsed(runs, n) + 10000
  {
    DebtInvariant(runs, n);
  }

  /** The worst case: every fifth run lasts just long enough to reset the backoff. */
  function Worst(n: nat): (runs: seq<Attempt>)
    ensures |runs| == n
    ensures forall k :: 0 <= k < n ==>
      runs[k] == Attempt(if k > 0 && k % 5 == 0 then BACKOFF_HEALTHY else 0, 0, Failed, 0)
  {
    seq(n, k => Attempt(if k > 0 && k % 5 == 0 then BACKOFF_HEALTHY else 0, 0, Failed, 0))
  }

  lemma {:induction false} WorstStreak(n: nat, k: nat)
    requires k < n
    ensures Streak(Worst(n), k) == k % 5
  {
    if k > 0 {
      WorstStreak(n, k - 1);
    }
  }

  /** Five runs cost 3100 ms of waiting, and every fifth run but the first 10 s of health. */
  function WorstTotal(k: nat): nat {
    3100 * (k / 5) + [0, 100, 300, 700, 1500][k % 5] + if k == 0 then 0 else 10000 * ((k - 1) / 5)
  }

  lemma {:induction false} WorstElapsed(n: nat, k: nat)
    requires k <= n
    ensures Elapsed(Worst(n), k) == WorstTotal(k)
  {
    hide Worst, WorstTotal, WorstCost, Elapsed;
    if k > 0 {
      WorstElapsed(n, k - 1);
      WorstStep(n, k - 1);
      WorstTotalStep(k - 1);
    } else {
      WorstStart(n);
    }
  }

  lemma WorstStart(n: nat)
    ensures Elapsed(Worst(n), 0) == WorstTotal(0)
  {
  }

  lemma WorstTotalStep(k: nat)
    ensures WorstTotal(k + 1) == WorstTotal(k) + WorstCost(k)
  {
    var q, r := k / 5, k % 5;
    assert k == 5 * q + r;
    assert (k + 1) / 5 == if r == 4 then q + 1 else q;
    assert k > 0 ==> (k - 1) / 5 == if r == 0 then q - 1 else q;
  }

  function WorstCost(k: nat): nat {
    if k == 0 then 100 else [10100, 200, 400, 800, 1600][k % 5]
  }

  lemma WorstStep(n: nat, k: nat)
    requires k < n
    ensures Elapsed(Worst(n), k + 1) == Elapsed(Worst(n), k) + WorstCost(k)
  {
    WorstStreak(n, k);
    assert Pow2(1) == 2 && Pow2(2) == 4 && Pow2(3) == 8 && Pow2(4) == 16;
  }

  /** The rate bound cannot be improved: it is met with equality by arbitrarily long runs. */
  lemma RateBoundIsTight(m: nat)
    requires m > 0
    ensures 2620 * (5 * m) == Elapsed(Worst(5 * m), 5 * m) + 10000
  {
    WorstElapsed(5 * m, 5 * m);
  }
}
