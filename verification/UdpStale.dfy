/** Stale handles: when a datagram can go out on a session whose reverse task has gone. */
module UdpStale {
  import opened Udp
  import opened UdpRuns

  // ----- runs, step by step -----

  /** One step, as a total function: reachable states are sane. */
  function Then(s: State, step: Step): State {
    if Sane(s) then Apply(s, step) else s
  }

  lemma InvIsSane(s: State)
    requires Inv(s)
    ensures Sane(s)
  {
  }

  lemma ExecOne(s: State, step: Step)
    requires Inv(s)
    ensures Inv(Then(s, step)) && Exec(s, [step]) == Then(s, step)
  {
    hide Inv, Apply;
    InvIsSane(s);
    ApplyKeepsInv(s, step);
    assert [step][1..] == [];
  }

  lemma {:induction false} ExecAppend(s: State, a: seq<Step>, b: seq<Step>)
    requires Inv(s)
    ensures Exec(s, a + b) == Exec(Exec(s, a), b)
    decreases |a|
  {
    hide Inv, Apply;
    if a == [] {
      assert a + b == b;
    } else {
      InvIsSane(s);
      ApplyKeepsInv(s, a[0]);
      assert (a + b)[0] == a[0] && (a + b)[1..] == a[1..] + b;
      ExecAppend(Apply(s, a[0]), a[1..], b);
    }
  }

  /** Two steps. */
  lemma ExecTwo(s: State, a: Step, b: Step)
    requires Inv(s)
    ensures Inv(Then(Then(s, a), b)) && Exec(s, [a, b]) == Then(Then(s, a), b)
  {
    hide Inv, Then, Exec;
    ExecOne(s, a);
    ExecOne(Then(s, a), b);
    assert [a] + [b] == [a, b];
    ExecAppend(s, [a], [b]);
  }

  lemma {:induction false} TimeGrows(s: State, schedule: seq<Step>)
    requires Inv(s)
    ensures s.now <= Exec(s, schedule).now
    decreases |schedule|
  {
    hide Inv, Apply;
    if schedule != [] {
      InvIsSane(s);
      ApplyKeepsInv(s, schedule[0]);
      ClockStep(s, schedule[0]);
      TimeGrows(Apply(s, schedule[0]), schedule[1..]);
    }
  }

  lemma ClockStep(s: State, step: Step)
    requires Inv(s)
    ensures Apply(s, step).now == if step.Tick? then s.now + step.ms else s.now
  {
    InvIsSane(s);
    hide Inv;
  }

  // ----- a session that does not fail stays for its lifetime -----

  /** No socket of the session fails in this run. */
  predicate NoFailure(schedule: seq<Step>, sid: nat) {
    forall k :: 0 <= k < |schedule| ==> !Fails(schedule[k], sid)
  }

  predicate Fails(step: Step, sid: nat) {
    step == HearFails(sid) || step == Reply(sid, false)
  }

  function Later(a: nat, b: nat): nat {
    if a >= b then a else b
  }

  /** The session is there, its timer was armed no earlier than `armed` and its last activity is no
      earlier than `last`; or it is about to get its task. */
  predicate Stays(s: State, sid: nat, armed: nat, last: nat) {
    && sid < |s.sessions| && armed <= s.now && last <= s.sessions[sid].last
    && ((s.loop.Guarded? && s.loop.sid == sid && sid !in s.tasks) || (sid in s.tasks && Quiet(s.tasks[sid], s.sessions[sid].last, armed)))
  }

  predicate Quiet(t: Task, last: nat, armed: nat) {
    match t
    case Waiting(a) => armed <= a
    case Received(_) => true
    case Replying(_) => true
    case Judging(clock) => clock < last + TTL
    case Closing => false
    case Removed => false
  }

  lemma LoopStays(s: State, step: Step, sid: nat, armed: nat, last: nat)
    requires Sane(s) && LoopInv(s) && sid < |s.sessions| && s.sessions[sid].last <= s.now && Stays(s, sid, armed, last) && !ByTask(step)
    ensures Stays(Apply(s, step), sid, armed, last)
  {
  }

  lemma TaskStays(s: State, step: Step, sid: nat, armed: nat, last: nat)
    requires Sane(s) && Stays(s, sid, armed, last) && s.sessions[sid].last <= s.now
    requires ByTask(step) && step.sid == sid && !Fails(step, sid) && s.now < Later(armed, last) + TTL
    ensures Stays(Apply(s, step), sid, armed, last)
  {
  }

  lemma StaysStep(s: State, step: Step, sid: nat, armed: nat, last: nat)
    requires Inv(s) && Stays(s, sid, armed, last) && !Fails(step, sid) && Apply(s, step).now < Later(armed, last) + TTL
    ensures Stays(Apply(s, step), sid, armed, last)
  {
    assert Clean(s, sid);
    hide Apply, Bijection, AllClean, Conserved, AllBooked, Gauged, PicksOk, PicksUsed, ErrorsOk, ClocksOk, LoopInv;
    ClockStep(s, step);
    if !ByTask(step) {
      LoopStays(s, step, sid, armed, last);
    } else if step.sid == sid {
      TaskStays(s, step, sid, armed, last);
    } else {
      TaskFrame(s, step, sid);
    }
  }

  /** Without a socket failure a session is still there as long as the clock has not passed a lifetime
      after both its arming and its last activity, whatever the tasks do. */
  lemma {:induction false} StaysRun(s: State, schedule: seq<Step>, sid: nat, armed: nat, last: nat)
    requires Inv(s) && Stays(s, sid, armed, last) && NoFailure(schedule, sid)
    requires Exec(s, schedule).now < Later(armed, last) + TTL
    ensures Stays(Exec(s, schedule), sid, armed, last)
    decreases |schedule|
  {
    hide Inv, Apply, Stays, Fails;
    if schedule != [] {
      InvIsSane(s);
      ApplyKeepsInv(s, schedule[0]);
      TimeGrows(Apply(s, schedule[0]), schedule[1..]);
      StaysStep(s, schedule[0], sid, armed, last);
      StaysRun(Apply(s, schedule[0]), schedule[1..], sid, armed, last);
    }
  }

  // ----- a session that is left alone can be closed then -----

  lemma FireAndJudge(s: State, sid: nat)
    requires Sane(s) && sid in s.tasks && s.tasks[sid].Waiting?
    requires s.tasks[sid].armed + TTL <= s.now && s.sessions[sid].last + TTL <= s.now
    ensures Then(Then(s, Fire(sid)), Judge(sid)) == SetTask(s, sid, Closing)
  {
    assert s.tasks[sid := Judging(s.now)][sid := Closing] == s.tasks[sid := Closing];
  }

  /** The session is closed and gone; nothing else of the loop has changed. */
  predicate Gone(s: State, r: State, sid: nat)
    requires sid < |s.sessions|
  {
    && r.loop == s.loop && sid !in r.tasks && |r.maps| == |s.maps|
    && s.sessions[sid].gen < |r.maps| && s.sessions[sid].peer !in r.maps[s.sessions[sid].gen]
  }

  lemma RemoveAndDrop(s: State, sid: nat)
    requires Sane(s) && sid in s.tasks && s.tasks[sid].Closing?
    ensures var r := Then(Then(s, Remove(sid)), DropGuard(sid)); Gone(s, r, sid) && r.now == s.now
  {
  }

  /** Close a session whose task is on its way out. */
  lemma Finish(s: State, sid: nat) returns (schedule: seq<Step>)
    requires Inv(s) && sid in s.tasks && s.tasks[sid].Closing?
    ensures NoFailure(schedule, sid) && sid < |s.sessions|
    ensures Gone(s, Exec(s, schedule), sid) && Exec(s, schedule).now == s.now
  {
    InvIsSane(s);
    hide Inv, Then, Exec, Gone;
    schedule := [Remove(sid), DropGuard(sid)];
    ExecTwo(s, Remove(sid), DropGuard(sid));
    RemoveAndDrop(s, sid);
  }

  /** A quiet session can be gone by clock `t`, once both lifetimes have passed by then. */
  lemma CloseQuietly(s: State, sid: nat, t: nat) returns (schedule: seq<Step>)
    requires Inv(s) && sid in s.tasks && s.tasks[sid].Waiting? && sid < |s.sessions| && s.now <= t
    requires Later(s.tasks[sid].armed, s.sessions[sid].last) + TTL <= t
    ensures NoFailure(schedule, sid) && Gone(s, Exec(s, schedule), sid) && Exec(s, schedule).now <= t
  {
    hide Inv, Exec, Gone;
    var s1 := Then(s, Tick(t - s.now));
    ExecOne(s, Tick(t - s.now));
    InvIsSane(s);
    InvIsSane(s1);
    assert s1 == s.(now := t);
    ExecTwo(s1, Fire(sid), Judge(sid));
    FireAndJudge(s1, sid);
    var s2 := SetTask(s1, sid, Closing);
    var rest := Finish(s2, sid);
    var two := [Fire(sid), Judge(sid)];
    ExecAppend(s1, two, rest);
    ExecAppend(s, [Tick(t - s.now)], two + rest);
    schedule := [Tick(t - s.now)] + (two + rest);
    SameGone(s, s2, Exec(s2, rest), sid);
  }

  lemma SameGone(s: State, s2: State, r: State, sid: nat)
    requires sid < |s.sessions| && sid < |s2.sessions| && s2.loop == s.loop && s2.maps == s.maps && s2.sessions == s.sessions
    requires Gone(s2, r, sid)
    ensures Gone(s, r, sid)
  {
  }

  /** Exactly when a quiet session can be gone by clock `t` although no socket of it fails. */
  lemma CanBeGoneIff(s: State, sid: nat, t: nat)
    requires Inv(s) && sid in s.tasks && s.tasks[sid].Waiting? && sid < |s.sessions| && s.now <= t
    ensures (exists schedule :: NoFailure(schedule, sid) && Exec(s, schedule).now <= t && sid !in Exec(s, schedule).tasks)
       <==> Later(s.tasks[sid].armed, s.sessions[sid].last) + TTL <= t
  {
    var armed, last := s.tasks[sid].armed, s.sessions[sid].last;
    WaitingStays(s, sid);
    hide Inv, Exec, NoFailure;
    if Later(armed, last) + TTL <= t {
      var schedule := CloseQuietly(s, sid, t);
      assert sid !in Exec(s, schedule).tasks;
    } else {
      forall schedule | NoFailure(schedule, sid) && Exec(s, schedule).now <= t ensures sid in Exec(s, schedule).tasks {
        StaysRun(s, schedule, sid, armed, last);
        TaskNotGuarded(s, schedule, sid);
      }
    }
  }

  lemma WaitingStays(s: State, sid: nat)
    requires Inv(s) && sid in s.tasks && s.tasks[sid].Waiting?
    ensures sid < |s.sessions| && Stays(s, sid, s.tasks[sid].armed, s.sessions[sid].last)
  {
    hide Bijection, AllClean, Conserved, AllBooked, Gauged, PicksOk, PicksUsed, ErrorsOk, LoopInv;
  }

  /** A session that has had its task is never about to get one again. */
  lemma {:induction false} TaskNotGuarded(s: State, schedule: seq<Step>, sid: nat)
    requires Inv(s) && sid < |s.sessions| && NotOpening(s, sid)
    ensures NotOpening(Exec(s, schedule), sid)
    decreases |schedule|
  {
    hide Inv, Apply, NotOpening;
    if schedule != [] {
      InvIsSane(s);
      ApplyKeepsInv(s, schedule[0]);
      NotOpeningStep(s, schedule[0], sid);
      TaskNotGuarded(Apply(s, schedule[0]), schedule[1..], sid);
    }
  }

  predicate NotOpening(s: State, sid: nat) {
    (s.loop.Opened? || s.loop.Inserted? || s.loop.Counted? || s.loop.Guarded?) ==> s.loop.sid != sid
  }

  lemma NotOpeningStep(s: State, step: Step, sid: nat)
    requires Inv(s) && sid < |s.sessions| && NotOpening(s, sid)
    ensures |Apply(s, step).sessions| >= |s.sessions| && NotOpening(Apply(s, step), sid)
  {
    hide Bijection, AllClean, Conserved, AllBooked, Gauged, PicksOk, PicksUsed, ErrorsOk, ClocksOk;
  }

  // ----- stale sends -----

  /** The loop is about to send on a session that is closed and gone from the map. */
  predicate SendsStale(s: State, peer: Address, data: Datagram, sid: nat) {
    s.loop == Sending(peer, data, sid) && sid !in s.tasks && |s.maps| > 0 && peer !in Current(s)
  }

  /** The session on which the datagram in hand is going to be sent. */
  predicate OnSession(s: State, sid: nat)
    requires Sane(s)
  {
    || (s.loop.Looking? && s.loop.peer in Current(s) && Current(s)[s.loop.peer] == sid)
    || (s.loop.Guarded? && s.loop.sid == sid)
    || (s.loop.Holding? && s.loop.sid == sid)
  }

  /** The step by which the loop gets hold of that session. */
  function Grab(s: State): seq<Step> {
    if s.loop.Looking? then [Lookup] else if s.loop.Guarded? then [Spawn] else []
  }

  /** The loop holds the session for the datagram it had in hand. */
  predicate Held(s: State, r: State, sid: nat)
    requires !s.loop.Idle?
  {
    r.loop == Holding(s.loop.peer, s.loop.data, sid) && r.now == s.now && r.sessions == s.sessions
  }

  lemma GrabHolds(s: State, sid: nat)
    requires Inv(s) && OnSession(s, sid)
    ensures var r := Exec(s, Grab(s));
      && Held(s, r, sid)
      && r.tasks == (if s.loop.Guarded? then s.tasks[sid := Waiting(s.now)] else s.tasks)
  {
    hide Inv, Exec, Then;
    InvIsSane(s);
    if s.loop.Looking? {
      LookupHolds(s);
      ExecOne(s, Lookup);
    } else if s.loop.Guarded? {
      SpawnHolds(s);
      ExecOne(s, Spawn);
    } else {
      ExecNone(s);
    }
  }

  lemma LookupHolds(s: State)
    requires Sane(s) && s.loop.Looking? && s.loop.peer in Current(s)
    ensures var r := Then(s, Lookup); Held(s, r, Current(s)[s.loop.peer]) && r.tasks == s.tasks
  {
  }

  lemma SpawnHolds(s: State)
    requires Sane(s) && s.loop.Guarded?
    ensures var r := Then(s, Spawn); Held(s, r, s.loop.sid) && r.tasks == s.tasks[s.loop.sid := Waiting(s.now)]
  {
  }

  lemma ExecNone(s: State)
    requires Inv(s)
    ensures Exec(s, []) == s
  {
    hide Inv;
  }

  /** Once the session is gone, the loop's next step makes the send a stale one. */
  lemma TouchIsStale(s: State)
    requires Inv(s) && s.loop.Holding? && s.loop.sid !in s.tasks && s.loop.peer !in Current(s)
    ensures SendsStale(Exec(s, [Touch]), s.loop.peer, s.loop.data, s.loop.sid) && Exec(s, [Touch]).now == s.now
  {
    ExecOne(s, Touch);
    InvIsSane(s);
    hide Inv, Exec, Sane;
  }

  lemma HoldsMine(s: State)
    requires Inv(s) && s.loop.Holding?
    ensures Sane(s) && Mine(s, s.loop.peer, s.loop.sid) && OnlyEntry(s, s.loop.peer, s.loop.sid)
  {
  }

  /** A run that grabs the session, lets it go by `close`, and touches it. */
  lemma StaleRun(s: State, close: seq<Step>, sid: nat)
    requires Inv(s) && OnSession(s, sid)
    requires Exec(s, Grab(s)).loop.Holding? ==> sid < |Exec(s, Grab(s)).sessions| && Gone(Exec(s, Grab(s)), Exec(Exec(s, Grab(s)), close), sid)
    ensures var r := Exec(s, Grab(s) + close + [Touch]);
      && SendsStale(r, s.loop.peer, s.loop.data, sid)
      && r.now == Exec(Exec(s, Grab(s)), close).now
  {
    hide Inv, Exec, Grab, Sane, OnSession;
    GrabHolds(s, sid);
    var held := Exec(s, Grab(s));
    HoldsMine(held);
    var gone := Exec(held, close);
    TouchIsStale(gone);
    ExecAppend(s, Grab(s), close);
    ExecAppend(s, Grab(s) + close, [Touch]);
  }

  /** The task of the session is leaving; the loop, the maps and whose session it is are as before. */
  predicate Failing(s: State, r: State, sid: nat) {
    && sid in r.tasks && r.tasks[sid].Closing? && r.loop == s.loop && r.maps == s.maps && |r.sessions| == |s.sessions|
    && sid < |s.sessions| && r.sessions[sid].gen == s.sessions[sid].gen && r.sessions[sid].peer == s.sessions[sid].peer
  }

  lemma FailsNow(s: State, sid: nat)
    requires Sane(s) && sid in s.tasks
    ensures s.tasks[sid].Waiting? ==> Failing(s, Then(s, HearFails(sid)), sid)
    ensures s.tasks[sid].Replying? ==> Failing(s, Then(s, Reply(sid, false)), sid)
    ensures s.tasks[sid].Closing? ==> Failing(s, s, sid)
  {
  }

  lemma ReceivedFails(s: State, sid: nat)
    requires Sane(s) && sid in s.tasks && s.tasks[sid].Received?
    ensures Failing(s, Then(Then(s, TouchBack(sid)), Reply(sid, false)), sid)
  {
  }

  lemma JudgingFails(s: State, sid: nat)
    requires Sane(s) && sid in s.tasks && s.tasks[sid].Judging?
    ensures Failing(s, Then(Then(s, Judge(sid)), HearFails(sid)), sid)
  {
  }

  /** A task that has not removed itself can fail at once. */
  lemma FailFast(s: State, sid: nat) returns (schedule: seq<Step>)
    requires Inv(s) && Live(s, sid)
    ensures Failing(s, Exec(s, schedule), sid)
  {
    hide Inv, Exec, Then, Failing;
    InvIsSane(s);
    FailsNow(s, sid);
    match s.tasks[sid]
    case Waiting(_) =>
      schedule := [HearFails(sid)];
      ExecOne(s, HearFails(sid));
    case Received(_) =>
      ReceivedFails(s, sid);
      schedule := [TouchBack(sid), Reply(sid, false)];
      ExecTwo(s, TouchBack(sid), Reply(sid, false));
    case Replying(_) =>
      schedule := [Reply(sid, false)];
      ExecOne(s, Reply(sid, false));
    case Judging(_) =>
      JudgingFails(s, sid);
      schedule := [Judge(sid), HearFails(sid)];
      ExecTwo(s, Judge(sid), HearFails(sid));
    case Closing =>
      schedule := [];
      ExecNone(s);
  }

  /** Make the session go, whatever its task is doing. */
  lemma Vanish(s: State, sid: nat) returns (schedule: seq<Step>)
    requires Inv(s) && s.loop.Holding? && s.loop.sid == sid
    ensures sid < |s.sessions| && Gone(s, Exec(s, schedule), sid)
  {
    hide Inv, Exec, Sane;
    HoldsMine(s);
    HeldEntryIsLive(s);
    if Live(s, sid) {
      var fail := FailFast(s, sid);
      var rest := Finish(Exec(s, fail), sid);
      ExecAppend(s, fail, rest);
      schedule := fail + rest;
    } else if sid in s.tasks {
      schedule := [DropGuard(sid)];
      ExecOne(s, DropGuard(sid));
    } else {
      schedule := [];
      ExecNone(s);
    }
  }

  lemma HeldEntryIsLive(s: State)
    requires Inv(s) && s.loop.Holding?
    ensures s.loop.peer in Current(s) ==> Live(s, s.loop.sid)
  {
    if s.loop.peer in Current(s) {
      assert Owned(s, |s.maps| - 1, s.loop.peer);
    }
  }

  /** From every state in which the datagram in hand is going to be sent on a session, the first one of
      that session included, it can go out stale: the task fails and goes before the loop sends. */
  lemma StaleSendHappens(s: State, sid: nat) returns (schedule: seq<Step>)
    requires Inv(s) && OnSession(s, sid)
    ensures SendsStale(Exec(s, schedule), s.loop.peer, s.loop.data, sid)
  {
    InvIsSane(s);
    hide Inv, Exec, Grab, Gone;
    GrabHolds(s, sid);
    var close := Vanish(Exec(s, Grab(s)), sid);
    StaleRun(s, close, sid);
    schedule := Grab(s) + close + [Touch];
  }

  /** Some run without a socket failure of the session makes the send a stale one by clock `t`. */
  ghost predicate CanSendStale(s: State, sid: nat, t: nat)
    requires Inv(s) && !s.loop.Idle?
  {
    exists schedule ::
      NoFailure(schedule, sid) && Exec(s, schedule).now <= t && SendsStale(Exec(s, schedule), s.loop.peer, s.loop.data, sid)
  }

  /** The soonest a session can be gone without a socket failure. */
  function Soonest(s: State, sid: nat): nat
    requires sid < |s.sessions|
  {
    if s.loop.Guarded? && s.loop.sid == sid then s.now + TTL
    else if sid !in s.tasks then s.now
    else
      match s.tasks[sid]
      case Waiting(armed) => Later(armed, s.sessions[sid].last) + TTL
      case Received(_) => s.now + TTL
      case Replying(_) => s.now + TTL
      case Judging(clock) => if clock < s.sessions[sid].last + TTL then s.now + TTL else s.now
      case Closing => s.now
      case Removed => s.now
  }

  /** When the timer was armed, or is going to be at the earliest. */
  function ArmedSince(s: State, sid: nat): nat {
    if sid in s.tasks && s.tasks[sid].Waiting? then s.tasks[sid].armed else s.now
  }

  /** Exactly when a stale send is possible without a socket failure, for every datagram on its way to a
      session and every state of the session's task. */
  lemma StaleSendIff(s: State, sid: nat, t: nat)
    requires Inv(s) && OnSession(s, sid) && s.now <= t
    ensures sid < |s.sessions|
    ensures CanSendStale(s, sid, t) <==> Soonest(s, sid) <= t
  {
    hide Inv, CanSendStale, Soonest;
    SessionExists(s, sid);
    if Soonest(s, sid) <= t {
      InTimeIsStale(s, sid, t);
    } else {
      TooEarlyIsNot(s, sid, t);
    }
  }

  lemma InTimeIsStale(s: State, sid: nat, t: nat)
    requires Inv(s) && OnSession(s, sid) && !s.loop.Idle? && s.now <= t && sid < |s.sessions| && Soonest(s, sid) <= t
    ensures CanSendStale(s, sid, t)
  {
    hide Inv, Exec, NoFailure, OnSession, Sane, Gone, Soonest, SendsStale;
    SameSoonest(s, sid);
    var close := CloseBy(Exec(s, Grab(s)), sid, t);
    StaleRun(s, close, sid);
    NoFailureIn(s, close, sid);
    var schedule := Grab(s) + close + [Touch];
    assert NoFailure(schedule, sid) && Exec(s, schedule).now <= t && SendsStale(Exec(s, schedule), s.loop.peer, s.loop.data, sid);
  }

  lemma TooEarlyIsNot(s: State, sid: nat, t: nat)
    requires Inv(s) && OnSession(s, sid) && !s.loop.Idle? && s.now <= t && sid < |s.sessions| && t < Soonest(s, sid)
    ensures !CanSendStale(s, sid, t)
  {
    hide Inv, Exec, NoFailure, OnSession, Stays, Soonest, SendsStale, ArmedSince;
    SoonestStays(s, sid);
    forall schedule | NoFailure(schedule, sid) && Exec(s, schedule).now <= t
      ensures !SendsStale(Exec(s, schedule), s.loop.peer, s.loop.data, sid)
    {
      StaysRun(s, schedule, sid, ArmedSince(s, sid), s.sessions[sid].last);
      StaysIsNotStale(Exec(s, schedule), s.loop.peer, s.loop.data, sid, ArmedSince(s, sid), s.sessions[sid].last);
    }
  }

  lemma StaysIsNotStale(s: State, peer: Address, data: Datagram, sid: nat, armed: nat, last: nat)
    requires Stays(s, sid, armed, last)
    ensures !SendsStale(s, peer, data, sid)
  {
  }

  lemma SessionExists(s: State, sid: nat)
    requires Inv(s) && OnSession(s, sid)
    ensures sid < |s.sessions| && s.sessions[sid].last <= s.now
  {
    if s.loop.Looking? {
      assert Owned(s, |s.maps| - 1, s.loop.peer);
    }
    assert Clean(s, sid);
  }

  lemma SoonestStays(s: State, sid: nat)
    requires Inv(s) && OnSession(s, sid) && sid < |s.sessions| && s.now < Soonest(s, sid)
    ensures Stays(s, sid, ArmedSince(s, sid), s.sessions[sid].last)
    ensures Later(ArmedSince(s, sid), s.sessions[sid].last) + TTL == Soonest(s, sid)
  {
    SessionExists(s, sid);
    hide Bijection, AllClean, Conserved, AllBooked, Gauged, PicksOk, PicksUsed, ErrorsOk;
  }

  /** Getting hold of the session costs no time. */
  lemma SameSoonest(s: State, sid: nat)
    requires Inv(s) && OnSession(s, sid) && sid < |s.sessions|
    ensures var r := Exec(s, Grab(s)); Held(s, r, sid) && Soonest(r, sid) == Soonest(s, sid)
  {
    SessionExists(s, sid);
    hide Inv, Exec, OnSession;
    GrabHolds(s, sid);
  }

  /** Close the session the loop holds by clock `t`, without a failure. */
  lemma CloseBy(s: State, sid: nat, t: nat) returns (schedule: seq<Step>)
    requires Inv(s) && s.loop.Holding? && s.loop.sid == sid && sid < |s.sessions| && s.now <= t && Soonest(s, sid) <= t
    ensures NoFailure(schedule, sid) && Gone(s, Exec(s, schedule), sid) && Exec(s, schedule).now <= t
  {
    hide Inv, Exec, Sane, Then;
    HoldsMine(s);
    HeldEntryIsLive(s);
    if sid !in s.tasks {
      schedule := [];
      ExecNone(s);
    } else if s.tasks[sid].Waiting? {
      schedule := CloseQuietly(s, sid, t);
    } else if s.tasks[sid].Closing? {
      schedule := Finish(s, sid);
    } else if s.tasks[sid].Removed? {
      schedule := [DropGuard(sid)];
      ExecOne(s, DropGuard(sid));
      DropsGuard(s, sid);
    } else {
      var settle := SettleDown(s, sid);
      var r := Exec(s, settle);
      var rest: seq<Step>;
      if r.tasks[sid].Closing? {
        rest := Finish(r, sid);
      } else {
        rest := CloseQuietly(r, sid, t);
      }
      ExecAppend(s, settle, rest);
      schedule := settle + rest;
    }
  }

  lemma DropsGuard(s: State, sid: nat)
    requires Sane(s) && sid in s.tasks && s.tasks[sid].Removed?
    ensures var r := Then(s, DropGuard(sid)); r.loop == s.loop && r.maps == s.maps && sid !in r.tasks && r.now == s.now
  {
  }

  /** A busy task is back in its select, or on its way out if its verdict was already certain. */
  predicate Settles(s: State, r: State, sid: nat)
    requires sid < |s.sessions|
  {
    && sid in r.tasks && r.now == s.now && r.loop == s.loop && r.maps == s.maps && |r.sessions| == |s.sessions|
    && r.sessions[sid].gen == s.sessions[sid].gen && r.sessions[sid].peer == s.sessions[sid].peer && r.sessions[sid].last <= s.now
    && (r.tasks[sid] == Waiting(s.now) || r.tasks[sid].Closing?)
    && (r.tasks[sid].Closing? || s.now + TTL <= Soonest(s, sid))
  }

  lemma SettlesNow(s: State, sid: nat)
    requires Sane(s) && sid in s.tasks && s.sessions[sid].last <= s.now && !(s.loop.Guarded? && s.loop.sid == sid)
    ensures s.tasks[sid].Received? ==> Settles(s, Then(Then(s, TouchBack(sid)), Reply(sid, true)), sid)
    ensures s.tasks[sid].Replying? ==> Settles(s, Then(s, Reply(sid, true)), sid)
    ensures s.tasks[sid].Judging? ==> Settles(s, Then(s, Judge(sid)), sid)
  {
  }

  lemma SettleDown(s: State, sid: nat) returns (schedule: seq<Step>)
    requires Inv(s) && s.loop.Holding? && sid in s.tasks && sid < |s.sessions|
    requires s.tasks[sid].Received? || s.tasks[sid].Replying? || s.tasks[sid].Judging?
    ensures NoFailure(schedule, sid) && Settles(s, Exec(s, schedule), sid)
  {
    LastIsPast(s, sid);
    hide Inv, Exec, Then, Settles;
    SettlesNow(s, sid);
    match s.tasks[sid]
    case Received(_) =>
      schedule := [TouchBack(sid), Reply(sid, true)];
      ExecTwo(s, TouchBack(sid), Reply(sid, true));
    case Replying(_) =>
      schedule := [Reply(sid, true)];
      ExecOne(s, Reply(sid, true));
    case Judging(_) =>
      schedule := [Judge(sid)];
      ExecOne(s, Judge(sid));
  }

  lemma LastIsPast(s: State, sid: nat)
    requires Inv(s) && sid < |s.sessions|
    ensures Sane(s) && s.sessions[sid].last <= s.now
  {
    assert Clean(s, sid);
  }

  lemma NoFailureIn(s: State, close: seq<Step>, sid: nat)
    requires NoFailure(close, sid)
    ensures NoFailure(Grab(s) + close + [Touch], sid)
  {
  }
}
