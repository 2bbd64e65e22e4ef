/** The shutdown broadcast, and the tasks that watch it: the main task, the heartbeat, one supervisor per
    listener, and the serve loop each supervisor runs.

    A schedule is any sequence of steps of these tasks; a step that is not possible in the current
    state changes nothing. Tearing down the runtime, which would cancel a serve task from outside,
    is not among the steps. */
module Shutdown {

  // ----- the channel -----

  datatype Task = Main | Heartbeat | Sup(i: nat) | Serve(i: nat)

  /** The watch channel: its value, and the tasks whose `cancelled()` holds a receiver. */
  datatype Chan = Chan(value: bool, waiting: set<Task>)

  /** `watch::Sender::send(true)`: without a receiver the send fails and the value stays as it was. */
  function Send(ch: Chan): Chan {
    if ch.waiting == {} then ch else ch.(value := true)
  }

  /** First poll of `cancelled()`: subscribe, and keep the receiver only if the flag is down. */
  function Join(ch: Chan, t: Task): Chan {
    if ch.value then ch else ch.(waiting := ch.waiting + {t})
  }

  /** The `cancelled()` future ends or is dropped, and its receiver with it. */
  function Leave(ch: Chan, t: Task): Chan {
    ch.(waiting := ch.waiting - {t})
  }

  datatype ChanOp = Sends | Joins(t: Task) | Leaves(t: Task)

  function Do(ch: Chan, op: ChanOp): Chan {
    match op case Sends => Send(ch) case Joins(t) => Join(ch, t) case Leaves(t) => Leave(ch, t)
  }

  function DoAll(ch: Chan, ops: seq<ChanOp>): Chan
    decreases |ops|
  {
    if ops == [] then ch else DoAll(Do(ch, ops[0]), ops[1..])
  }

  /** The rest of a wait for the flag, when the other tasks do `env[0]`, `env[1]`, ... between polls. */
  function Await(ch: Chan, t: Task, env: seq<seq<ChanOp>>): Chan
    decreases |env|
  {
    if env == [] then ch
    else
      var next := DoAll(ch, env[0]);
      if next.value then Leave(next, t) else Await(next, t, env[1..])
  }

  /** No operation is by `t` itself. */
  predicate ByOthers(t: Task, ops: seq<ChanOp>) {
    forall i :: 0 <= i < |ops| ==> ops[i] != Joins(t) && ops[i] != Leaves(t)
  }

  /** The value never falls; while `t` waits, a send is never lost, and nothing else raises the flag. */
  lemma {:induction false} WaiterSeesSend(ch: Chan, t: Task, ops: seq<ChanOp>)
    requires t in ch.waiting && ByOthers(t, ops)
    ensures t in DoAll(ch, ops).waiting
    ensures DoAll(ch, ops).value <==> ch.value || Sends in ops
    decreases |ops|
  {
    if ops != [] {
      WaiterSeesSend(Do(ch, ops[0]), t, ops[1..]);
    }
  }

  /** The channel behind `Shutdown`. */
  class Channel {
    var value: bool
    var waiting: set<Task>

    ghost function View(): Chan
      reads this
    {
      Chan(value, waiting)
    }

    /** `Shutdown::new` drops the receiver it gets. */
    constructor ()
      ensures View() == Chan(false, {})
    {
      value, waiting := false, {};
    }

    /** `trigger`. */
    method Trigger()
      modifies this
      ensures View() == Send(old(View()))
    {
      if |waiting| > 0 {
        value := true;
      }
    }

    /** `is_triggered`. */
    method IsTriggered() returns (b: bool)
      ensures b == value
    {
      b := value;
    }

    /** The first poll of `cancelled()`. */
    method Subscribe(t: Task) returns (resolved: bool)
      modifies this
      ensures View() == Join(old(View()), t) && resolved == old(value)
    {
      resolved := value;
      if !resolved {
        waiting := waiting + {t};
      }
    }

    method Unsubscribe(t: Task)
      modifies this
      ensures View() == Leave(old(View()), t)
    {
      waiting := waiting - {t};
    }

    /** What other tasks do between two polls. */
    method Others(ops: seq<ChanOp>)
      modifies this
      ensures View() == DoAll(old(View()), ops)
    {
      var i := 0;
      assert ops[0..] == ops;
      while i < |ops|
        invariant 0 <= i <= |ops| && DoAll(View(), ops[i..]) == DoAll(old(View()), ops)
      {
        assert ops[i..][1..] == ops[i + 1..];
        match ops[i] {
          case Sends => Trigger();
          case Joins(t) => var _ := Subscribe(t);
          case Leaves(t) => Unsubscribe(t);
        }
        i := i + 1;
      }
    }

    /** `cancelled` by task `t`. It resolves exactly when the flag is up or a signal is sent meanwhile;
        while it has not resolved it keeps its receiver. */
    method Cancelled(t: Task, env: seq<seq<ChanOp>>) returns (resolved: bool)
      requires t !in waiting && forall i :: 0 <= i < |env| ==> ByOthers(t, env[i])
      modifies this
      ensures View() == if old(value) then old(View()) else Await(Join(old(View()), t), t, env)
      ensures resolved <==> old(value) || exists i :: 0 <= i < |env| && Sends in env[i]
      ensures value == resolved && (t in waiting <==> !resolved)
    {
      resolved := Subscribe(t);
      if resolved {
        return;
      }
      var i := 0;
      assert env[0..] == env;
      while i < |env|
        invariant 0 <= i <= |env| && !value && t in waiting && !resolved
        invariant Await(View(), t, env[i..]) == Await(Join(old(View()), t), t, env)
        invariant forall j :: 0 <= j < i ==> Sends !in env[j]
      {
        WaiterSeesSend(View(), t, env[i]);
        assert env[i..][0] == env[i] && env[i..][1..] == env[i + 1..];
        Others(env[i]);
        if value {
          Unsubscribe(t);
          return true;
        }
        i := i + 1;
      }
    }
  }

  // ----- the tasks -----

  /** `run_userspace`: launching listeners and signal handlers, heartbeat spawned, waiting, on its way out. */
  datatype MainPc = Launching | Launched | Waiting | Finishing

  /** The heartbeat: not spawned, before its select, in it, about to look at the flag, ended. */
  datatype BeatPc = NotSpawned | BeforeSelect | InSelect | Looking | Stopped

  datatype Ending = CleanStop | Failed | Panicked

  /** `supervise`: loop head, serve spawned, in the first select, serve joined, about to back off, in
      the second select, returned. */
  datatype SupPc = Head | Spawned | Selecting | Joined(how: Ending) | BackingOff | Sleeping | Exited

  /** `serve`: not running, binding, loop head, in its select, handling an event, ended. */
  datatype ServePc = Idle | Binding | LoopHead | Accepting | Handling | Ended(how: Ending)

  /** `fired` says the signal task has run. */
  datatype State = State(ch: Chan, fired: bool, main: MainPc, beat: BeatPc, sups: seq<SupPc>, serves: seq<ServePc>)

  datatype Step =
    | Signal
    | MainSpawnsBeat | MainWaits | MainWakes
    | BeatSelects(slept: bool) | BeatCancelled | BeatSlept | BeatLooks
    | SupChecks(i: nat) | SupSelects(i: nat) | SupCancelled(i: nat) | SupJoins(i: nat) | SupJudges(i: nat)
    | SupSleeps(i: nat) | SupSleepCancelled(i: nat) | SupSleepDone(i: nat)
    | ServeBinds(i: nat, ok: bool) | ServeSelects(i: nat) | ServeWakes(i: nat) | ServeEvent(i: nat)
    | ServeContinues(i: nat) | ServePanics(i: nat)

  function Init(n: nat): State {
    State(Chan(false, {}), false, Launching, NotSpawned, seq(n, _ => Head), seq(n, _ => Idle))
  }

  predicate Sized(s: State) {
    |s.sups| == |s.serves|
  }

  function SetSup(s: State, i: nat, pc: SupPc): State
    requires i < |s.sups|
  {
    s.(sups := s.sups[i := pc])
  }

  function SetServe(s: State, i: nat, pc: ServePc): State
    requires i < |s.serves|
  {
    s.(serves := s.serves[i := pc])
  }

  function Leaving(s: State, t: Task): State {
    s.(ch := Leave(s.ch, t))
  }

  /** The supervisor returns; a running serve task is aborted and its receiver goes with it. */
  function Return(s: State, i: nat): State
    requires Sized(s) && i < |s.sups|
  {
    SetServe(SetSup(Leaving(Leaving(s, Sup(i)), Serve(i)), i, Exited), i, Idle)
  }

  function Apply(s: State, step: Step): (r: State)
    requires Sized(s)
    ensures Sized(r) && |r.sups| == |s.sups|
  {
    match step
    case Signal => if s.fired then s else s.(fired := true, ch := Send(s.ch))
    case MainSpawnsBeat => if s.main.Launching? then s.(main := Launched, beat := BeforeSelect) else s
    case MainWaits =>
      if !s.main.Launched? then s else s.(main := if s.ch.value then Finishing else Waiting, ch := Join(s.ch, Main))
    case MainWakes => if s.main.Waiting? && s.ch.value then Leaving(s, Main).(main := Finishing) else s
    case BeatSelects(slept) => if s.beat.BeforeSelect? then BeatEnters(s, slept) else s
    case BeatCancelled => if s.beat.InSelect? && s.ch.value then Leaving(s, Heartbeat).(beat := Stopped) else s
    case BeatSlept => if s.beat.InSelect? then Leaving(s, Heartbeat).(beat := Looking) else s
    case BeatLooks => if s.beat.Looking? then s.(beat := if s.ch.value then Stopped else BeforeSelect) else s
    case SupChecks(i) => if i < |s.sups| then Check(s, i) else s
    case SupSelects(i) => if i < |s.sups| && s.sups[i].Spawned? then Select(s, i, Selecting) else s
    case SupCancelled(i) => if i < |s.sups| && s.sups[i].Selecting? && s.ch.value then Return(s, i) else s
    case SupJoins(i) => if i < |s.sups| then Joining(s, i) else s
    case SupJudges(i) => if i < |s.sups| then Judge(s, i) else s
    case SupSleeps(i) => if i < |s.sups| && s.sups[i].BackingOff? then Select(s, i, Sleeping) else s
    case SupSleepCancelled(i) => if i < |s.sups| && s.sups[i].Sleeping? && s.ch.value then Return(s, i) else s
    case SupSleepDone(i) =>
      if i < |s.sups| && s.sups[i].Sleeping? then SetSup(Leaving(s, Sup(i)), i, Head) else s
    case ServeBinds(i, ok) =>
      if i < |s.serves| && s.serves[i].Binding? then SetServe(s, i, if ok then LoopHead else Ended(Failed)) else s
    case ServeSelects(i) => if i < |s.serves| then Accept(s, i) else s
    case ServeWakes(i) =>
      if i < |s.serves| && s.serves[i].Accepting? && s.ch.value
      then SetServe(Leaving(s, Serve(i)), i, Ended(CleanStop)) else s
    case ServeEvent(i) =>
      if i < |s.serves| && s.serves[i].Accepting? && !s.ch.value
      then SetServe(Leaving(s, Serve(i)), i, Handling) else s
    case ServeContinues(i) => if i < |s.serves| && s.serves[i].Handling? then SetServe(s, i, LoopHead) else s
    case ServePanics(i) =>
      if i < |s.serves| && !s.serves[i].Idle? && !s.serves[i].Ended?
      then SetServe(Leaving(s, Serve(i)), i, Ended(Panicked)) else s
  }

  /** The heartbeat's select has no fixed order: with an interval of zero the sleep may be ready at
      once, whatever the flag says. */
  function BeatEnters(s: State, slept: bool): State {
    if slept then s.(beat := Looking)
    else s.(beat := if s.ch.value then Stopped else InSelect, ch := Join(s.ch, Heartbeat))
  }

  /** Loop head: leave, or spawn the serve task. */
  function Check(s: State, i: nat): State
    requires Sized(s) && i < |s.sups|
  {
    if !s.sups[i].Head? then s
    else if s.ch.value then Return(s, i)
    else SetServe(SetSup(s, i, Spawned), i, Binding)
  }

  /** First poll of a select that includes `cancelled()`: resolve at once or start waiting. */
  function Select(s: State, i: nat, pc: SupPc): State
    requires Sized(s) && i < |s.sups|
  {
    if s.ch.value then Return(s, i) else SetSup(s.(ch := Join(s.ch, Sup(i))), i, pc)
  }

  /** The serve task ended first; the select is biased, so only while the flag is down. */
  function Joining(s: State, i: nat): State
    requires Sized(s) && i < |s.sups|
  {
    if s.sups[i].Selecting? && s.serves[i].Ended? && !s.ch.value
    then SetServe(SetSup(Leaving(s, Sup(i)), i, Joined(s.serves[i].how)), i, Idle)
    else s
  }

  /** A clean stop ends the supervisor, anything else leads to a backoff unless shutdown came. */
  function Judge(s: State, i: nat): State
    requires Sized(s) && i < |s.sups|
  {
    if !s.sups[i].Joined? then s
    else if s.sups[i].how.CleanStop? || s.ch.value then Return(s, i)
    else SetSup(s, i, BackingOff)
  }

  /** Loop head of `serve`. */
  function Accept(s: State, i: nat): State
    requires Sized(s) && i < |s.serves|
  {
    if !s.serves[i].LoopHead? then s
    else SetServe(s.(ch := Join(s.ch, Serve(i))), i, if s.ch.value then Ended(CleanStop) else Accepting)
  }

  function Exec(s: State, schedule: seq<Step>): (r: State)
    requires Sized(s)
    ensures Sized(r) && |r.sups| == |s.sups|
    decreases |schedule|
  {
    if schedule == [] then s else Exec(Apply(s, schedule[0]), schedule[1..])
  }

  // ----- what every run keeps -----

  ghost predicate Inv(s: State) {
    Sized(s) && TopOk(s) && Caused(s) && Paired(s)
  }

  /** The flag, the main task and the heartbeat. */
  predicate TopOk(s: State) {
    && (s.ch.value ==> s.fired)
    && (s.beat.NotSpawned? <==> s.main.Launching?)
    && (s.main.Waiting? ==> Main in s.ch.waiting)
    && (s.beat.InSelect? ==> Heartbeat in s.ch.waiting)
    && (s.main.Finishing? ==> s.ch.value)
    && (s.beat.Stopped? ==> s.ch.value)
  }

  /** Supervisors exit and serve tasks stop cleanly only for the flag. */
  ghost predicate Caused(s: State) {
    && (forall i :: 0 <= i < |s.sups| ==> s.sups[i].Exited? || s.sups[i] == Joined(CleanStop) ==> s.ch.value)
    && (forall i :: 0 <= i < |s.serves| ==> s.serves[i] == Ended(CleanStop) ==> s.ch.value)
  }

  /** A serve task runs exactly while its supervisor has spawned it and not yet joined it. */
  ghost predicate Paired(s: State)
    requires Sized(s)
  {
    forall i :: 0 <= i < |s.sups| ==> (s.serves[i].Idle? <==> !s.sups[i].Spawned? && !s.sups[i].Selecting?)
  }

  /** The steps of the serve tasks. */
  predicate ByServe(step: Step) {
    step.ServeBinds? || step.ServeSelects? || step.ServeWakes? || step.ServeEvent? || step.ServeContinues? || step.ServePanics?
  }

  lemma ServeKeepsPaired(s: State, step: Step)
    requires Sized(s) && Paired(s) && ByServe(step)
    ensures Paired(Apply(s, step))
  {
  }

  lemma OthersKeepPaired(s: State, step: Step)
    requires Sized(s) && Paired(s) && !ByServe(step)
    ensures Paired(Apply(s, step))
  {
  }

  lemma ApplyKeepsPaired(s: State, step: Step)
    requires Sized(s) && Paired(s)
    ensures Paired(Apply(s, step))
  {
    hide Apply, Paired;
    if ByServe(step) {
      ServeKeepsPaired(s, step);
    } else {
      OthersKeepPaired(s, step);
    }
  }

  lemma ApplyKeepsTop(s: State, step: Step)
    requires Sized(s) && TopOk(s)
    ensures TopOk(Apply(s, step))
  {
  }

  lemma ApplyKeepsCaused(s: State, step: Step)
    requires Sized(s) && Caused(s)
    ensures Caused(Apply(s, step))
  {
  }

  lemma ApplyKeepsInv(s: State, step: Step)
    requires Inv(s)
    ensures Inv(Apply(s, step))
  {
    hide Apply, TopOk, Caused, Paired;
    ApplyKeepsTop(s, step);
    ApplyKeepsCaused(s, step);
    ApplyKeepsPaired(s, step);
  }

  lemma {:induction false} ExecKeepsInv(s: State, schedule: seq<Step>)
    requires Inv(s)
    ensures Inv(Exec(s, schedule))
    decreases |schedule|
  {
    hide Apply, Inv;
    if schedule != [] {
      ApplyKeepsInv(s, schedule[0]);
      InvIsSized(s);
      ExecKeepsInv(Apply(s, schedule[0]), schedule[1..]);
    }
  }

  lemma InvIsSized(s: State)
    requires Inv(s)
    ensures Sized(s)
  {
  }

  lemma FlagStep(s: State, step: Step)
    requires Sized(s)
    ensures s.ch.value ==> Apply(s, step).ch.value
    ensures s.fired ==> Apply(s, step).fired && Apply(s, step).ch.value == s.ch.value
    ensures Apply(s, step).ch.value && !s.ch.value ==> step.Signal? && s.ch.waiting != {}
  {
  }

  /** Once the flag is up it stays up, and once the signal has been used up the flag stays as it is. */
  lemma {:induction false} FlagIsPermanent(s: State, more: seq<Step>)
    requires Sized(s)
    ensures s.ch.value ==> Exec(s, more).ch.value
    ensures s.fired ==> Exec(s, more).ch.value == s.ch.value
    decreases |more|
  {
    hide Apply;
    if more != [] {
      FlagStep(s, more[0]);
      FlagIsPermanent(Apply(s, more[0]), more[1..]);
    }
  }

  // ----- main results -----

  /** A supervisor, the heartbeat or the main task leaves only after shutdown was really signalled: the
      flag is up, and somewhere before stands the signal that raised it, at a moment when some task
      was waiting. */
  lemma ExitsOnlyAfterShutdown(n: nat, schedule: seq<Step>, i: nat)
    requires var s := Exec(Init(n), schedule); (i < n && s.sups[i].Exited?) || s.beat.Stopped? || s.main.Finishing?
    ensures Exec(Init(n), schedule).ch.value
    ensures exists k :: RaisedAt(Init(n), schedule, k)
  {
    hide Exec, Apply, RaisedAt;
    ExecKeepsInv(Init(n), schedule);
    var k := FlagHasCause(Init(n), schedule);
  }

  /** Step `k` is the signal, and some task is waiting when it comes. */
  ghost predicate RaisedAt(s: State, schedule: seq<Step>, k: nat)
    requires Sized(s)
  {
    k < |schedule| && schedule[k] == Signal && Exec(s, schedule[..k]).ch.waiting != {}
  }

  lemma {:induction false} FlagHasCause(s: State, schedule: seq<Step>) returns (k: nat)
    requires Sized(s) && !s.ch.value && Exec(s, schedule).ch.value
    ensures RaisedAt(s, schedule, k)
    decreases |schedule|
  {
    hide Apply;
    FlagStep(s, schedule[0]);
    var next := Apply(s, schedule[0]);
    if next.ch.value {
      k := 0;
      assert schedule[..0] == [];
    } else {
      k := FlagHasCause(next, schedule[1..]);
      assert schedule[..k + 1][1..] == schedule[1..][..k] && schedule[..k + 1][0] == schedule[0];
      k := k + 1;
    }
  }

  /** The signal decides the whole rest of the run: shutdown is seen by every later observer exactly
      when some task was waiting at that moment, and otherwise it never happens. */
  lemma SignalTakesEffectIff(n: nat, before: seq<Step>, after: seq<Step>)
    requires !Exec(Init(n), before).fired
    ensures var s := Exec(Init(n), before);
      Exec(Apply(s, Signal), after).ch.value <==> s.ch.waiting != {}
  {
    hide Exec;
    var s := Exec(Init(n), before);
    ExecKeepsInv(Init(n), before);
    FlagIsPermanent(Apply(s, Signal), after);
  }

  /** The signal can come before anyone waits, and is then lost for good. */
  lemma EarlySignalIsLost(n: nat, after: seq<Step>)
    ensures !Exec(Apply(Init(n), Signal), after).ch.value
  {
    assert Exec(Init(n), []) == Init(n);
    SignalTakesEffectIff(n, [], after);
  }

  /** From the moment the main task or the heartbeat waits, the signal cannot be lost. */
  lemma MainMakesItSafe(n: nat, before: seq<Step>, after: seq<Step>)
    requires var s := Exec(Init(n), before); (s.main.Waiting? || s.beat.InSelect?) && !s.fired
    ensures Exec(Apply(Exec(Init(n), before), Signal), after).ch.value
  {
    hide Exec;
    ExecKeepsInv(Init(n), before);
    SignalTakesEffectIff(n, before, after);
  }

  /** Once the main task waits, and until the flag is up, there is a receiver whatever else happens. */
  lemma {:induction false} MainStaysReceiver(s: State, more: seq<Step>)
    requires Inv(s) && s.main.Waiting?
    ensures var r := Exec(s, more); r.ch.value || (r.main.Waiting? && r.ch.waiting != {})
    decreases |more|
  {
    hide Apply, Inv;
    InvIsSized(s);
    if more == [] {
      MainIsReceiver(s);
    } else {
      ApplyKeepsInv(s, more[0]);
      MainStays(s, more[0]);
      if Apply(s, more[0]).ch.value {
        FlagIsPermanent(Apply(s, more[0]), more[1..]);
      } else {
        MainStaysReceiver(Apply(s, more[0]), more[1..]);
      }
    }
  }

  lemma MainIsReceiver(s: State)
    requires Inv(s) && s.main.Waiting?
    ensures Main in s.ch.waiting
  {
  }

  lemma MainStays(s: State, step: Step)
    requires Inv(s) && s.main.Waiting?
    ensures Apply(s, step).ch.value || Apply(s, step).main.Waiting?
  {
  }

  // ----- a listener comes back -----

  /** How far a supervised listener is from accepting, if nothing fails from here on. */
  function Distance(s: State, i: nat): nat
    requires i < |s.sups| && i < |s.serves|
  {
    match s.serves[i]
    case Accepting => 0
    case LoopHead => 1
    case Binding => 2
    case Handling => 2
    case Ended(_) => if s.sups[i].Spawned? then 8 else 7
    case Idle =>
      (match s.sups[i] case Head => 3 case Sleeping => 4 case BackingOff => 5 case Joined(_) => 6 case _ => 9)
  }

  function Toward(s: State, i: nat): Step
    requires i < |s.sups| && i < |s.serves|
  {
    match s.serves[i]
    case Accepting => ServeSelects(i)
    case LoopHead => ServeSelects(i)
    case Binding => ServeBinds(i, true)
    case Handling => ServeContinues(i)
    case Ended(_) => if s.sups[i].Spawned? then SupSelects(i) else SupJoins(i)
    case Idle =>
      (match s.sups[i] case Head => SupChecks(i) case Sleeping => SupSleepDone(i) case BackingOff => SupSleeps(i) case _ => SupJudges(i))
  }

  /** A step of the listener itself brings it closer. */
  predicate Closer(s: State, r: State, i: nat)
    requires Sized(s) && i < |s.sups|
  {
    !r.ch.value && Sized(r) && |r.sups| == |s.sups| && Distance(r, i) < Distance(s, i)
  }

  lemma StepTowardServing(s: State, i: nat)
    requires Sized(s) && !s.ch.value && i < |s.sups| && Distance(s, i) > 0 && !s.serves[i].Idle? && !s.serves[i].Ended?
    ensures Closer(s, Apply(s, Toward(s, i)), i)
  {
  }

  lemma StepTowardJoining(s: State, i: nat)
    requires Inv(s) && !s.ch.value && i < |s.sups| && s.serves[i].Ended?
    ensures Closer(s, Apply(s, Toward(s, i)), i)
  {
  }

  lemma StepTowardSpawning(s: State, i: nat)
    requires Inv(s) && !s.ch.value && i < |s.sups| && s.serves[i].Idle?
    ensures Closer(s, Apply(s, Toward(s, i)), i)
  {
  }

  lemma StepToward(s: State, i: nat)
    requires Inv(s) && !s.ch.value && i < |s.sups| && Distance(s, i) > 0
    ensures Closer(s, Apply(s, Toward(s, i)), i)
  {
    hide Apply, Inv, Toward, Closer;
    InvIsSized(s);
    if s.serves[i].Idle? {
      StepTowardSpawning(s, i);
    } else if s.serves[i].Ended? {
      StepTowardJoining(s, i);
    } else {
      StepTowardServing(s, i);
    }
  }

  /** While no shutdown has come, from every reachable state every listener can come back to accepting:
      whatever its serve task did, the supervisor starts it again. */
  lemma {:induction false} ServesAgain(s: State, i: nat) returns (schedule: seq<Step>)
    requires Inv(s) && !s.ch.value && i < |s.sups|
    ensures Sized(s) && Exec(s, schedule).serves[i].Accepting? && !Exec(s, schedule).ch.value
    decreases if i < |s.serves| then Distance(s, i) else 0
  {
    hide Inv, Apply;
    InvIsSized(s);
    if Distance(s, i) == 0 {
      schedule := [];
    } else {
      StepToward(s, i);
      ApplyKeepsInv(s, Toward(s, i));
      var rest := ServesAgain(Apply(s, Toward(s, i)), i);
      schedule := [Toward(s, i)] + rest;
      assert schedule[0] == Toward(s, i) && schedule[1..] == rest;
    }
  }

  /** And the others do their work: the main task spawns the heartbeat and comes to wait, the heartbeat
      beats and comes to wait again, an accepting listener takes the next event. */
  lemma EveryoneWorks(s: State, i: nat)
    requires Inv(s) && !s.ch.value
    ensures s.main.Launching? ==>
      var r := Apply(Apply(s, MainSpawnsBeat), MainWaits); r.main.Waiting? && Main in r.ch.waiting && r.beat.BeforeSelect?
    ensures s.beat.BeforeSelect? ==> Apply(s, BeatSelects(false)).beat.InSelect?
    ensures s.beat.InSelect? ==> Apply(Apply(s, BeatSlept), BeatLooks).beat.BeforeSelect?
    ensures s.beat.Looking? ==> Apply(s, BeatLooks).beat.BeforeSelect?
    ensures i < |s.serves| && s.serves[i].Accepting? ==> Apply(s, ServeEvent(i)).serves[i].Handling?
  {
  }

  // ----- everyone leaves -----

  predicate Present(s: State, t: Task) {
    match t case Main => true case Heartbeat => true case Sup(i) => i < |s.sups| case Serve(i) => i < |s.serves|
  }

  /** How many steps a task can still take once the flag is up. */
  function Rank(s: State, t: Task): nat
    requires Present(s, t)
  {
    match t
    case Main => (match s.main case Launching => 2 case Launched => 1 case Waiting => 1 case Finishing => 0)
    case Heartbeat =>
      (match s.beat case NotSpawned => 3 case BeforeSelect => 2 case InSelect => 2 case Looking => 1 case Stopped => 0)
    case Sup(i) => (match s.sups[i] case Exited => 0 case Sleeping => 2 case _ => 1)
    case Serve(i) =>
      (match s.serves[i]
       case Idle => 0 case Ended(_) => 0 case LoopHead => 1 case Accepting => 1 case Binding => 2 case Handling => 2)
  }

  predicate SamePc(s: State, r: State, t: Task)
    requires Present(s, t) && Present(r, t)
  {
    match t
    case Main => r.main == s.main
    case Heartbeat => r.beat == s.beat
    case Sup(i) => r.sups[i] == s.sups[i]
    case Serve(i) => r.serves[i] == s.serves[i]
  }

  /** The steps of a run that move a task which has not yet ended. */
  function Moves(s: State, schedule: seq<Step>, t: Task): nat
    requires Sized(s) && Present(s, t)
    decreases |schedule|
  {
    if schedule == [] then 0
    else
      var r := Apply(s, schedule[0]);
      (if Rank(s, t) > 0 && !SamePc(s, r, t) then 1 else 0) + Moves(r, schedule[1..], t)
  }

  /** A step leaves the task alone or lowers its rank. */
  predicate Lowers(s: State, r: State, t: Task)
    requires Present(s, t)
  {
    && Present(r, t) && Rank(r, t) <= Rank(s, t)
    && (Rank(s, t) > 0 && !SamePc(s, r, t) ==> Rank(r, t) < Rank(s, t))
  }

  lemma StepLowersMain(s: State, step: Step)
    requires Inv(s) && s.ch.value
    ensures Lowers(s, Apply(s, step), Main) && Lowers(s, Apply(s, step), Heartbeat)
  {
  }

  lemma StepLowersSup(s: State, step: Step, i: nat)
    requires Sized(s) && s.ch.value && i < |s.sups|
    ensures Lowers(s, Apply(s, step), Sup(i))
  {
  }

  lemma StepLowersServe(s: State, step: Step, i: nat)
    requires Sized(s) && s.ch.value && i < |s.serves|
    ensures Lowers(s, Apply(s, step), Serve(i))
  {
  }

  lemma StepLowersRank(s: State, step: Step, t: Task)
    requires Inv(s) && s.ch.value && Present(s, t)
    ensures Apply(s, step).ch.value && Lowers(s, Apply(s, step), t)
  {
    hide Apply, Lowers;
    FlagStep(s, step);
    match t
    case Main => StepLowersMain(s, step);
    case Heartbeat => StepLowersMain(s, step);
    case Sup(i) => StepLowersSup(s, step, i);
    case Serve(i) => StepLowersServe(s, step, i);
  }

  /** Once the flag is up, no schedule lets a task take more steps than its rank before it has ended, at
      most three for the heartbeat and two for any other, and no ended task starts again. */
  lemma {:induction false} EveryoneLeaves(s: State, schedule: seq<Step>, t: Task)
    requires Inv(s) && s.ch.value && Present(s, t)
    ensures Present(Exec(s, schedule), t)
    ensures Moves(s, schedule, t) + Rank(Exec(s, schedule), t) <= Rank(s, t) <= if t.Heartbeat? then 3 else 2
    decreases |schedule|
  {
    hide Apply, Inv;
    InvIsSized(s);
    if schedule != [] {
      ApplyKeepsInv(s, schedule[0]);
      StepLowersRank(s, schedule[0], t);
      EveryoneLeaves(Apply(s, schedule[0]), schedule[1..], t);
    }
  }

  /** A step by which a task that has not ended moves on. */
  function NextLook(s: State, t: Task): Step
    requires Present(s, t)
  {
    match t
    case Main => (match s.main case Launching => MainSpawnsBeat case Launched => MainWaits case _ => MainWakes)
    case Heartbeat =>
      (match s.beat
       case NotSpawned => MainSpawnsBeat case BeforeSelect => BeatSelects(false) case InSelect => BeatCancelled case _ => BeatLooks)
    case Sup(i) =>
      (match s.sups[i]
       case Head => SupChecks(i)
       case Spawned => SupSelects(i)
       case Selecting => SupCancelled(i)
       case Joined(_) => SupJudges(i)
       case BackingOff => SupSleeps(i)
       case Sleeping => SupSleepCancelled(i)
       case Exited => SupChecks(i))
    case Serve(i) =>
      (match s.serves[i]
       case Binding => ServeBinds(i, true)
       case LoopHead => ServeSelects(i)
       case Accepting => ServeWakes(i)
       case _ => ServeContinues(i))
  }

  /** No task is stuck: while it has not ended, a step of its own moves it on; a supervisor ends with it. */
  lemma NextLookReturns(s: State, t: Task)
    requires Inv(s) && s.ch.value && Present(s, t)
    ensures var r := Apply(s, NextLook(s, t));
      && Present(r, t)
      && (Rank(s, t) > 0 ==> Rank(r, t) < Rank(s, t))
      && (t.Sup? ==> r.sups[t.i].Exited?)
  {
  }
}
