/** UDP session NAT: one receive loop and any number of reverse tasks over shared session maps.

    A schedule is any sequence of the atomic steps below, by any task, in any order; a step that is
    not possible in the current state changes nothing. "Read the clock and store it" is one step.
    Sessions are numbered as their sockets are opened; a number stands for the socket. Each serve
    generation has its own map; reverse tasks outlive the generation that started them. */
module Udp {
  import opened RoundRobin

  type Address = string
  type Datagram = string

  /** Idle lifetime in milliseconds. */
  const TTL: nat := 60000

  /** A session: where it belongs, the target its socket is connected to, its activity clock, and what
      has passed through it. */
  datatype Session = Session(
    gen: nat, peer: Address, target: nat, last: nat,
    touches: seq<nat>,
    sent: seq<Datagram>,
    heard: seq<Datagram>, replied: seq<Datagram>, repliedTo: set<Address>)

  /** What became of a datagram: sent on a socket, dropped because no session could be opened for it,
      or lost with the serve task that held it. */
  datatype Fate = Sent(sid: nat) | Refused | Interrupted

  /** A datagram the loop is done with. */
  datatype Settled = Settled(peer: Address, data: Datagram, fate: Fate)

  /** A reverse task: in its select with the timer armed, holding a reply, judging idleness by a clock
      value it has read, leaving the loop, gone from the map. */
  datatype Task = Waiting(armed: nat) | Received(data: Datagram) | Replying(data: Datagram) | Judging(clock: nat) | Closing | Removed

  /** The receive loop; `sid` may be stale, its reverse task may be gone. */
  datatype Loop =
    | Idle
    | Looking(peer: Address, data: Datagram)
    | Opening(peer: Address, data: Datagram, target: nat)
    | Opened(peer: Address, data: Datagram, sid: nat)
    | Inserted(peer: Address, data: Datagram, sid: nat)
    | Counted(peer: Address, data: Datagram, sid: nat)
    | Guarded(peer: Address, data: Datagram, sid: nat)
    | Holding(peer: Address, data: Datagram, sid: nat)
    | Sending(peer: Address, data: Datagram, sid: nat)

  datatype State = State(
    targets: nat, rr: nat, picks: seq<nat>, outcomes: seq<bool>,
    now: nat,
    maps: seq<map<Address, nat>>,
    sessions: seq<Session>,
    tasks: map<nat, Task>,
    loop: Loop,
    accepted: nat, active: int, ended: nat, errors: nat, deaf: nat,
    arrived: seq<(Address, Datagram)>, settled: seq<Settled>)

  datatype Step =
    | Tick(ms: nat)
    | Receive(peer: Address, data: Datagram) | ReceiveFails | Lookup | Touch | Send
    | OpenFails | OpenWorks | Insert | CountAccepted | CountActive | Spawn | Restart
    | Hear(sid: nat, data: Datagram) | TouchBack(sid: nat) | Reply(sid: nat, ok: bool) | HearFails(sid: nat)
    | Fire(sid: nat) | Judge(sid: nat) | Remove(sid: nat) | DropGuard(sid: nat)

  function Init(targets: nat): State {
    State(targets, 0, [], [], 0, [map[]], [], map[], Idle, 0, 0, 0, 0, 0, [], [])
  }

  /** Shapes that make the steps well defined. */
  predicate Sane(s: State) {
    && s.targets > 0 && |s.maps| > 0
    && (forall sid :: sid in s.tasks ==> sid < |s.sessions|)
    && (forall i :: 0 <= i < |s.sessions| ==> s.sessions[i].gen < |s.maps|)
    && match s.loop
       case Idle => true
       case Looking(_, _) => true
       case Opening(_, _, t) => t < s.targets
       case Opened(_, _, sid) => sid < |s.sessions|
       case Inserted(_, _, sid) => sid < |s.sessions|
       case Counted(_, _, sid) => sid < |s.sessions|
       case Guarded(_, _, sid) => sid < |s.sessions|
       case Holding(_, _, sid) => sid < |s.sessions|
       case Sending(_, _, sid) => sid < |s.sessions|
  }

  /** The map of the running generation. */
  function Current(s: State): map<Address, nat>
    requires |s.maps| > 0
  {
    s.maps[|s.maps| - 1]
  }

  function SetTask(s: State, sid: nat, t: Task): State {
    s.(tasks := s.tasks[sid := t])
  }

  function SetSession(s: State, sid: nat, x: Session): State
    requires sid < |s.sessions|
  {
    s.(sessions := s.sessions[sid := x])
  }

  /** Store the current time in a session's activity clock. */
  function Stamp(s: State, sid: nat): State
    requires sid < |s.sessions|
  {
    var x := s.sessions[sid];
    SetSession(s, sid, x.(last := s.now, touches := x.touches + [s.now]))
  }

  // ----- the receive loop -----

  function DoLookup(s: State): State
    requires Sane(s) && s.loop.Looking?
  {
    var peer, data := s.loop.peer, s.loop.data;
    if peer in Current(s) then s.(loop := Holding(peer, data, Current(s)[peer]))
    else
      var i := PickIndex(s.rr, s.targets);
      s.(loop := Opening(peer, data, i), rr := Advance(s.rr, s.targets), picks := s.picks + [i])
  }

  function DoSend(s: State): State
    requires Sane(s) && s.loop.Sending?
  {
    var x := s.sessions[s.loop.sid];
    SetSession(s, s.loop.sid, x.(sent := x.sent + [s.loop.data]))
      .(loop := Idle, settled := s.settled + [Settled(s.loop.peer, s.loop.data, Sent(s.loop.sid))])
  }

  function DoOpenFails(s: State): State
    requires s.loop.Opening?
  {
    s.(loop := Idle, errors := s.errors + 1, outcomes := s.outcomes + [false], settled := s.settled + DropHeld(s.loop, Refused))
  }

  function DoOpenWorks(s: State): State
    requires Sane(s) && s.loop.Opening?
  {
    var x := Session(|s.maps| - 1, s.loop.peer, s.loop.target, s.now, [s.now], [], [], [], {});
    s.(sessions := s.sessions + [x], outcomes := s.outcomes + [true], loop := Opened(s.loop.peer, s.loop.data, |s.sessions|))
  }

  function DoInsert(s: State): State
    requires Sane(s) && s.loop.Opened?
  {
    var g := |s.maps| - 1;
    var m: map<Address, nat> := s.maps[g][s.loop.peer := s.loop.sid];
    s.(maps := s.maps[g := m], loop := Inserted(s.loop.peer, s.loop.data, s.loop.sid))
  }

  function DoSpawn(s: State): State
    requires s.loop.Guarded?
  {
    SetTask(s, s.loop.sid, Waiting(s.now)).(loop := Holding(s.loop.peer, s.loop.data, s.loop.sid))
  }

  /** What the loop holds when a datagram is on its way through it. */
  function InFlight(l: Loop): seq<(Address, Datagram)> {
    if l.Idle? then [] else [(l.peer, l.data)]
  }

  /** The record of a datagram that goes no further than the loop. */
  function DropHeld(l: Loop, why: Fate): seq<Settled> {
    if l.Idle? then [] else [Settled(l.peer, l.data, why)]
  }

  /** Only at an await point can the serve task be dropped. */
  predicate AtAwait(l: Loop) {
    l.Idle? || l.Opening? || l.Sending?
  }

  function DoRestart(s: State): State {
    s.(maps := s.maps + [map[]], loop := Idle, rr := 0, picks := [], outcomes := [], settled := s.settled + DropHeld(s.loop, Interrupted))
  }

  // ----- the reverse tasks -----

  function DoTouchBack(s: State, sid: nat): State
    requires Sane(s) && sid in s.tasks && s.tasks[sid].Received?
  {
    SetTask(Stamp(s, sid), sid, Replying(s.tasks[sid].data))
  }

  function DoReply(s: State, sid: nat, ok: bool): State
    requires Sane(s) && sid in s.tasks && s.tasks[sid].Replying?
  {
    var x := s.sessions[sid];
    SetTask(SetSession(s, sid, x.(replied := x.replied + [s.tasks[sid].data], repliedTo := x.repliedTo + {x.peer})),
            sid, if ok then Waiting(s.now) else Closing)
  }

  /** `saturating_sub`. */
  function SatSub(a: nat, b: nat): nat {
    if a >= b then a - b else 0
  }

  function DoJudge(s: State, sid: nat): State
    requires Sane(s) && sid in s.tasks && s.tasks[sid].Judging?
  {
    SetTask(s, sid, if SatSub(s.tasks[sid].clock, s.sessions[sid].last) >= TTL then Closing else Waiting(s.now))
  }

  function DoRemove(s: State, sid: nat): State
    requires Sane(s) && sid in s.tasks
  {
    var x := s.sessions[sid];
    SetTask(s.(maps := s.maps[x.gen := s.maps[x.gen] - {x.peer}]), sid, Removed)
  }

  function DoDropGuard(s: State, sid: nat): State {
    s.(tasks := s.tasks - {sid}, active := s.active - 1, ended := s.ended + 1)
  }

  function Apply(s: State, step: Step): State
    requires Sane(s)
  {
    match step
    case Tick(ms) => s.(now := s.now + ms)
    case Receive(peer, data) =>
      if s.loop.Idle? then s.(loop := Looking(peer, data), arrived := s.arrived + [(peer, data)]) else s
    case ReceiveFails => if s.loop.Idle? then s.(errors := s.errors + 1, deaf := s.deaf + 1) else s
    case Lookup => if s.loop.Looking? then DoLookup(s) else s
    case Touch =>
      if s.loop.Holding? then Stamp(s, s.loop.sid).(loop := Sending(s.loop.peer, s.loop.data, s.loop.sid)) else s
    case Send => if s.loop.Sending? then DoSend(s) else s
    case OpenFails => if s.loop.Opening? then DoOpenFails(s) else s
    case OpenWorks => if s.loop.Opening? then DoOpenWorks(s) else s
    case Insert => if s.loop.Opened? then DoInsert(s) else s
    case CountAccepted =>
      if s.loop.Inserted? then s.(accepted := s.accepted + 1, loop := Counted(s.loop.peer, s.loop.data, s.loop.sid)) else s
    case CountActive =>
      if s.loop.Counted? then s.(active := s.active + 1, loop := Guarded(s.loop.peer, s.loop.data, s.loop.sid)) else s
    case Spawn => if s.loop.Guarded? then DoSpawn(s) else s
    case Restart => if AtAwait(s.loop) then DoRestart(s) else s
    case Hear(sid, data) =>
      if sid in s.tasks && s.tasks[sid].Waiting? then
        SetTask(SetSession(s, sid, s.sessions[sid].(heard := s.sessions[sid].heard + [data])), sid, Received(data))
      else s
    case TouchBack(sid) => if sid in s.tasks && s.tasks[sid].Received? then DoTouchBack(s, sid) else s
    case Reply(sid, ok) => if sid in s.tasks && s.tasks[sid].Replying? then DoReply(s, sid, ok) else s
    case HearFails(sid) => if sid in s.tasks && s.tasks[sid].Waiting? then SetTask(s, sid, Closing) else s
    case Fire(sid) =>
      if sid in s.tasks && s.tasks[sid].Waiting? && s.tasks[sid].armed + TTL <= s.now
      then SetTask(s, sid, Judging(s.now)) else s
    case Judge(sid) => if sid in s.tasks && s.tasks[sid].Judging? then DoJudge(s, sid) else s
    case Remove(sid) => if sid in s.tasks && s.tasks[sid].Closing? then DoRemove(s, sid) else s
    case DropGuard(sid) => if sid in s.tasks && s.tasks[sid].Removed? then DoDropGuard(s, sid) else s
  }

  /** The steps of the reverse tasks. */
  predicate ByTask(step: Step) {
    step.Hear? || step.TouchBack? || step.Reply? || step.HearFails? || step.Fire? || step.Judge? || step.Remove? || step.DropGuard?
  }

  /** A reverse task touches nothing of another session, nor the loop, nor the clock. */
  lemma TaskFrame(s: State, step: Step, i: nat)
    requires Sane(s) && ByTask(step) && i != step.sid
    ensures var r := Apply(s, step);
      && r.loop == s.loop && r.now == s.now && |r.sessions| == |s.sessions|
      && (i in r.tasks <==> i in s.tasks) && (i in s.tasks ==> r.tasks[i] == s.tasks[i])
      && (i < |s.sessions| ==> r.sessions[i] == s.sessions[i])
  {
  }

  // ----- what every step keeps -----

  /** The reverse task runs and has not yet removed its entry. */
  predicate Live(s: State, sid: nat) {
    sid in s.tasks && !s.tasks[sid].Removed?
  }

  /** Inserted by the loop, its task not yet spawned. */
  predicate Pending(s: State, sid: nat) {
    (s.loop.Inserted? || s.loop.Counted? || s.loop.Guarded?) && s.loop.sid == sid
  }

  predicate HasEntry(s: State, sid: nat)
    requires Sane(s) && sid < |s.sessions|
  {
    var x := s.sessions[sid];
    x.peer in s.maps[x.gen] && s.maps[x.gen][x.peer] == sid
  }

  /** An entry belongs to the session it names: right generation, right peer, owner still there. */
  predicate Owned(s: State, g: nat, p: Address)
    requires g < |s.maps| && p in s.maps[g]
  {
    var sid := s.maps[g][p];
    sid < |s.sessions| && s.sessions[sid].gen == g && s.sessions[sid].peer == p && (Live(s, sid) || Pending(s, sid))
  }

  /** Map entries and owners are in bijection. */
  ghost predicate Bijection(s: State)
    requires Sane(s)
  {
    && (forall g, p :: 0 <= g < |s.maps| && p in s.maps[g] ==> Owned(s, g, p))
    && (forall sid :: 0 <= sid < |s.sessions| && (Live(s, sid) || Pending(s, sid)) ==> HasEntry(s, sid))
  }

  /** Where the loop stands with the session it is handling. */
  predicate LoopInv(s: State)
    requires Sane(s)
  {
    match s.loop
    case Idle => true
    case Looking(_, _) => true
    case Opening(p, _, _) => p !in Current(s)
    case Opened(p, _, sid) => p !in Current(s) && Mine(s, p, sid) && sid !in s.tasks
    case Inserted(p, _, sid) => Mine(s, p, sid) && sid !in s.tasks
    case Counted(p, _, sid) => Mine(s, p, sid) && sid !in s.tasks
    case Guarded(p, _, sid) => Mine(s, p, sid) && sid !in s.tasks
    case Holding(p, _, sid) => Mine(s, p, sid) && OnlyEntry(s, p, sid)
    case Sending(p, _, sid) => Mine(s, p, sid) && OnlyEntry(s, p, sid)
  }

  /** If the peer still has an entry it is this one: only the loop inserts. */
  predicate OnlyEntry(s: State, p: Address, sid: nat)
    requires |s.maps| > 0
  {
    p in Current(s) ==> Current(s)[p] == sid
  }

  predicate Mine(s: State, p: Address, sid: nat)
    requires |s.maps| > 0
  {
    sid < |s.sessions| && s.sessions[sid].peer == p && s.sessions[sid].gen == |s.maps| - 1
  }

  lemma LoopIsSane(s: State, step: Step)
    requires Sane(s) && Bijection(s) && LoopInv(s) && !ByTask(step)
    ensures Sane(Apply(s, step))
  {
  }

  lemma TaskIsSane(s: State, step: Step)
    requires Sane(s) && ByTask(step)
    ensures Sane(Apply(s, step))
  {
  }

  lemma ApplyIsSane(s: State, step: Step)
    requires Sane(s) && Bijection(s) && LoopInv(s)
    ensures Sane(Apply(s, step))
  {
    hide Apply, Bijection, LoopInv, Sane;
    if ByTask(step) {
      TaskIsSane(s, step);
    } else {
      LoopIsSane(s, step);
    }
  }

  lemma LookupKeepsLoopInv(s: State)
    requires Sane(s) && Bijection(s) && s.loop.Looking? && Sane(DoLookup(s))
    ensures LoopInv(DoLookup(s))
  {
    if s.loop.peer in Current(s) {
      assert Owned(s, |s.maps| - 1, s.loop.peer);
    }
  }

  lemma SpawnKeepsLoopInv(s: State)
    requires Sane(s) && Bijection(s) && LoopInv(s) && s.loop.Guarded? && Sane(DoSpawn(s))
    ensures LoopInv(DoSpawn(s))
  {
    assert Pending(s, s.loop.sid);
    assert HasEntry(s, s.loop.sid);
  }

  lemma OthersKeepLoopInv(s: State, step: Step)
    requires Sane(s) && LoopInv(s) && Sane(Apply(s, step)) && !ByTask(step) && !step.Lookup? && !step.Spawn?
    ensures LoopInv(Apply(s, step))
  {
  }

  lemma LoopKeepsLoopInv(s: State, step: Step)
    requires Sane(s) && Bijection(s) && LoopInv(s) && Sane(Apply(s, step)) && !ByTask(step)
    ensures LoopInv(Apply(s, step))
  {
    hide Bijection, LoopInv, Sane;
    if step.Lookup? && s.loop.Looking? {
      LookupKeepsLoopInv(s);
    } else if step.Spawn? && s.loop.Guarded? {
      SpawnKeepsLoopInv(s);
    } else if !step.Lookup? && !step.Spawn? {
      OthersKeepLoopInv(s, step);
    }
  }

  lemma TaskKeepsLoopInv(s: State, step: Step)
    requires Sane(s) && LoopInv(s) && Sane(Apply(s, step)) && ByTask(step)
    ensures LoopInv(Apply(s, step))
  {
  }

  lemma ApplyKeepsLoopInv(s: State, step: Step)
    requires Sane(s) && Bijection(s) && LoopInv(s) && Sane(Apply(s, step))
    ensures LoopInv(Apply(s, step))
  {
    hide Apply, Bijection, LoopInv;
    if ByTask(step) {
      TaskKeepsLoopInv(s, step);
    } else {
      LoopKeepsLoopInv(s, step);
    }
  }

  predicate Owner(s: State, sid: nat) {
    Live(s, sid) || Pending(s, sid)
  }

  /** Same maps, same owners, and the sessions keep their place. */
  ghost predicate SameOwners(s: State, r: State) {
    && r.maps == s.maps && |r.sessions| >= |s.sessions|
    && (forall i :: 0 <= i < |s.sessions| ==> r.sessions[i].gen == s.sessions[i].gen && r.sessions[i].peer == s.sessions[i].peer)
    && (forall i :: 0 <= i < |r.sessions| ==> (Owner(r, i) <==> i < |s.sessions| && Owner(s, i)))
  }

  lemma SameOwnersKeep(s: State, r: State)
    requires Sane(s) && Bijection(s) && Sane(r) && SameOwners(s, r)
    ensures Bijection(r)
  {
    forall g, p | 0 <= g < |r.maps| && p in r.maps[g] ensures Owned(r, g, p) {
      assert Owned(s, g, p);
      assert Owner(s, s.maps[g][p]);
    }
    forall sid | 0 <= sid < |r.sessions| && (Live(r, sid) || Pending(r, sid)) ensures HasEntry(r, sid) {
      assert Owner(r, sid);
      assert HasEntry(s, sid);
    }
  }

  lemma LoopKeepsOwners(s: State, step: Step)
    requires Sane(s) && LoopInv(s) && !step.Insert? && !step.Restart? && !ByTask(step)
    ensures SameOwners(s, Apply(s, step))
  {
  }

  lemma TaskKeepsOwners(s: State, step: Step)
    requires Sane(s) && LoopInv(s) && ByTask(step) && !step.Remove?
    ensures SameOwners(s, Apply(s, step))
  {
  }

  lemma InsertKeepsBijection(s: State)
    requires Sane(s) && Bijection(s) && LoopInv(s) && s.loop.Opened? && Sane(DoInsert(s))
    ensures Bijection(DoInsert(s))
  {
    var r := DoInsert(s);
    forall g, p | 0 <= g < |r.maps| && p in r.maps[g] ensures Owned(r, g, p) {
      if p in s.maps[g] {
        assert Owned(s, g, p);
      }
    }
    forall sid | 0 <= sid < |r.sessions| && (Live(r, sid) || Pending(r, sid)) ensures HasEntry(r, sid) {
      if Live(s, sid) {
        assert HasEntry(s, sid);
      }
    }
  }

  lemma RemoveKeepsBijection(s: State, sid: nat)
    requires Sane(s) && Bijection(s) && LoopInv(s) && Live(s, sid) && Sane(DoRemove(s, sid))
    ensures Bijection(DoRemove(s, sid))
  {
    var r := DoRemove(s, sid);
    assert HasEntry(s, sid);
    forall g, p | 0 <= g < |r.maps| && p in r.maps[g] ensures Owned(r, g, p) {
      assert Owned(s, g, p);
    }
    forall i | 0 <= i < |r.sessions| && (Live(r, i) || Pending(r, i)) ensures HasEntry(r, i) {
      assert HasEntry(s, i);
    }
  }

  lemma RestartKeepsBijection(s: State)
    requires Sane(s) && Bijection(s) && AtAwait(s.loop) && Sane(DoRestart(s))
    ensures Bijection(DoRestart(s))
  {
    var r := DoRestart(s);
    forall g, p | 0 <= g < |r.maps| && p in r.maps[g] ensures Owned(r, g, p) {
      assert g < |s.maps|;
      assert Owned(s, g, p);
    }
    forall i | 0 <= i < |r.sessions| && (Live(r, i) || Pending(r, i)) ensures HasEntry(r, i) {
      assert Live(s, i);
      assert HasEntry(s, i);
    }
  }

  lemma ApplyKeepsBijection(s: State, step: Step)
    requires Sane(s) && Bijection(s) && LoopInv(s) && Sane(Apply(s, step))
    ensures Bijection(Apply(s, step))
  {
    hide Bijection;
    if step.Insert? && s.loop.Opened? {
      InsertKeepsBijection(s);
    } else if step.Remove? && step.sid in s.tasks && s.tasks[step.sid].Closing? {
      RemoveKeepsBijection(s, step.sid);
    } else if step.Restart? && AtAwait(s.loop) {
      RestartKeepsBijection(s);
    } else if !step.Insert? && !step.Remove? && !step.Restart? {
      if ByTask(step) {
        TaskKeepsOwners(s, step);
      } else {
        LoopKeepsOwners(s, step);
      }
      SameOwnersKeep(s, Apply(s, step));
    }
  }

  // ----- histories -----

  /** A reply read from the socket and not yet handed to the listener. */
  function Carried(s: State, sid: nat): seq<Datagram> {
    if sid in s.tasks && (s.tasks[sid].Received? || s.tasks[sid].Replying?) then [s.tasks[sid].data] else []
  }

  /** Replies go to the session's own peer, each one heard is passed on once and in order; the activity
      clock shows the latest touch. */
  ghost predicate Clean(s: State, sid: nat)
    requires sid < |s.sessions|
  {
    var x := s.sessions[sid];
    && x.repliedTo <= {x.peer}
    && x.heard == x.replied + Carried(s, sid)
    && x.last in x.touches && (forall t :: t in x.touches ==> t <= x.last) && x.last <= s.now
  }

  ghost predicate AllClean(s: State) {
    forall sid :: 0 <= sid < |s.sessions| ==> Clean(s, sid)
  }

  lemma LoopKeepsClean(s: State, step: Step)
    requires Sane(s) && LoopInv(s) && AllClean(s) && !ByTask(step)
    ensures AllClean(Apply(s, step))
  {
    var r := Apply(s, step);
    forall sid | 0 <= sid < |r.sessions| ensures Clean(r, sid) {
      if sid < |s.sessions| {
        assert Clean(s, sid);
      }
    }
  }

  lemma TaskKeepsClean(s: State, step: Step)
    requires Sane(s) && AllClean(s) && ByTask(step)
    ensures AllClean(Apply(s, step))
  {
    hide Apply, Sane;
    var r := Apply(s, step);
    TaskFrame(s, step, step.sid + 1);
    forall sid | 0 <= sid < |r.sessions| ensures Clean(r, sid) {
      assert Clean(s, sid);
      if sid == step.sid {
        TaskKeepsOwnClean(s, step);
      } else {
        TaskFrame(s, step, sid);
      }
    }
  }

  lemma TaskKeepsOwnClean(s: State, step: Step)
    requires Sane(s) && ByTask(step) && step.sid < |s.sessions| && Clean(s, step.sid)
    ensures |Apply(s, step).sessions| == |s.sessions| && Clean(Apply(s, step), step.sid)
  {
  }

  lemma ApplyKeepsClean(s: State, step: Step)
    requires Sane(s) && LoopInv(s) && AllClean(s)
    ensures AllClean(Apply(s, step))
  {
    hide Apply, LoopInv, AllClean;
    if ByTask(step) {
      TaskKeepsClean(s, step);
    } else {
      LoopKeepsClean(s, step);
    }
  }

  /** The datagrams of the settled entries. */
  function Datagrams(settled: seq<Settled>): seq<(Address, Datagram)> {
    seq(|settled|, i requires 0 <= i < |settled| => (settled[i].peer, settled[i].data))
  }

  /** The payloads sent on socket `sid`, in order. */
  function Payloads(settled: seq<Settled>, sid: nat): seq<Datagram> {
    if settled == [] then []
    else
      var n := |settled| - 1;
      Payloads(settled[..n], sid) + if settled[n].fate == Sent(sid) then [settled[n].data] else []
  }

  lemma PayloadsSnoc(settled: seq<Settled>, e: Settled, sid: nat)
    ensures Payloads(settled + [e], sid) == Payloads(settled, sid) + if e.fate == Sent(sid) then [e.data] else []
  {
    assert (settled + [e])[..|settled|] == settled;
  }

  /** Every datagram received has been settled once, in order of arrival, but for the one in the loop's
      hands. */
  predicate Conserved(s: State) {
    s.arrived == Datagrams(s.settled) + InFlight(s.loop)
  }

  /** What the books say was sent on a socket is what went out on it, and came from the one peer the
      socket was opened for. */
  ghost predicate Booked(s: State, sid: nat)
    requires sid < |s.sessions|
  {
    && s.sessions[sid].sent == Payloads(s.settled, sid)
    && forall k :: 0 <= k < |s.settled| && s.settled[k].fate == Sent(sid) ==> s.settled[k].peer == s.sessions[sid].peer
  }

  ghost predicate AllBooked(s: State) {
    && (forall sid :: 0 <= sid < |s.sessions| ==> Booked(s, sid))
    && (forall k :: 0 <= k < |s.settled| && s.settled[k].fate.Sent? ==> s.settled[k].fate.sid < |s.sessions|)
  }

  /** What the other steps leave alone. */
  predicate SameBooks(s: State, r: State) {
    && r.settled == s.settled && |r.sessions| == |s.sessions| && InFlight(r.loop) == InFlight(s.loop) && r.arrived == s.arrived
    && forall i :: 0 <= i < |s.sessions| ==> r.sessions[i].sent == s.sessions[i].sent && r.sessions[i].peer == s.sessions[i].peer
  }

  /** The steps that open a session, receive, send or drop. */
  predicate Books(step: Step) {
    step.Receive? || step.Send? || step.OpenFails? || step.OpenWorks? || step.Restart?
  }

  lemma TaskKeepsBooks(s: State, step: Step)
    requires Sane(s) && ByTask(step)
    ensures SameBooks(s, Apply(s, step))
  {
  }

  lemma LoopKeepsBooks(s: State, step: Step)
    requires Sane(s) && !ByTask(step) && !Books(step)
    ensures SameBooks(s, Apply(s, step))
  {
  }

  lemma SettleKeepsBooks(s: State, r: State, e: Settled)
    requires Sane(s) && AllBooked(s) && r.settled == s.settled + [e]
    requires |r.sessions| == |s.sessions| && forall i :: 0 <= i < |s.sessions| ==> r.sessions[i].peer == s.sessions[i].peer
    requires forall i :: 0 <= i < |s.sessions| ==>
      r.sessions[i].sent == s.sessions[i].sent + if e.fate == Sent(i) then [e.data] else []
    requires e.fate.Sent? ==> e.fate.sid < |s.sessions| && e.peer == s.sessions[e.fate.sid].peer
    ensures AllBooked(r)
  {
    forall sid | 0 <= sid < |r.sessions| ensures Booked(r, sid) {
      assert Booked(s, sid);
      PayloadsSnoc(s.settled, e, sid);
    }
  }

  lemma {:induction false} NotYetSent(settled: seq<Settled>, sid: nat)
    requires forall k :: 0 <= k < |settled| ==> settled[k].fate != Sent(sid)
    ensures Payloads(settled, sid) == []
  {
    if settled != [] {
      NotYetSent(settled[..|settled| - 1], sid);
    }
  }

  lemma OpenKeepsBooks(s: State)
    requires Sane(s) && AllBooked(s) && s.loop.Opening?
    ensures AllBooked(DoOpenWorks(s))
  {
    var r := DoOpenWorks(s);
    NotYetSent(s.settled, |s.sessions|);
    forall sid | 0 <= sid < |r.sessions| ensures Booked(r, sid) {
      if sid < |s.sessions| {
        assert Booked(s, sid);
      }
    }
  }

  lemma SameBooksKeep(s: State, r: State)
    requires AllBooked(s) && SameBooks(s, r)
    ensures AllBooked(r)
  {
    forall sid | 0 <= sid < |r.sessions| ensures Booked(r, sid) {
      assert Booked(s, sid);
    }
  }

  lemma ApplyKeepsBooked(s: State, step: Step)
    requires Sane(s) && LoopInv(s) && AllBooked(s)
    ensures AllBooked(Apply(s, step))
  {
    hide AllBooked;
    var r := Apply(s, step);
    if ByTask(step) {
      TaskKeepsBooks(s, step);
      SameBooksKeep(s, r);
    } else if !Books(step) {
      LoopKeepsBooks(s, step);
      SameBooksKeep(s, r);
    } else {
      BookStep(s, step);
    }
  }

  lemma BookStep(s: State, step: Step)
    requires Sane(s) && LoopInv(s) && AllBooked(s) && Books(step)
    ensures AllBooked(Apply(s, step))
  {
    hide AllBooked;
    var r := Apply(s, step);
    if step.Send? && s.loop.Sending? {
      SettleKeepsBooks(s, r, Settled(s.loop.peer, s.loop.data, Sent(s.loop.sid)));
    } else if step.OpenFails? && s.loop.Opening? {
      SettleKeepsBooks(s, r, Settled(s.loop.peer, s.loop.data, Refused));
    } else if step.OpenWorks? && s.loop.Opening? {
      OpenKeepsBooks(s);
    } else if step.Restart? && AtAwait(s.loop) && !s.loop.Idle? {
      SettleKeepsBooks(s, r, Settled(s.loop.peer, s.loop.data, Interrupted));
    } else {
      NoBooks(s, r);
    }
  }

  lemma NoBooks(s: State, r: State)
    requires AllBooked(s) && r.settled == s.settled && r.sessions == s.sessions
    ensures AllBooked(r)
  {
    forall sid | 0 <= sid < |r.sessions| ensures Booked(r, sid) {
      assert Booked(s, sid);
    }
  }

  lemma ConservedStep(s: State, r: State, e: Settled)
    requires Conserved(s) && r.settled == s.settled + [e] && r.arrived == s.arrived && r.loop.Idle?
    requires InFlight(s.loop) == [(e.peer, e.data)]
    ensures Conserved(r)
  {
    assert Datagrams(r.settled) == Datagrams(s.settled) + [(e.peer, e.data)];
  }

  lemma ApplyKeepsConserved(s: State, step: Step)
    requires Sane(s) && Conserved(s)
    ensures Conserved(Apply(s, step))
  {
    var r := Apply(s, step);
    hide Datagrams;
    if ByTask(step) {
      TaskKeepsBooks(s, step);
    } else if !Books(step) {
      LoopKeepsBooks(s, step);
    } else {
      ConservedBookStep(s, step);
    }
  }

  lemma ConservedBookStep(s: State, step: Step)
    requires Sane(s) && Conserved(s) && Books(step)
    ensures Conserved(Apply(s, step))
  {
    hide Datagrams;
    var r := Apply(s, step);
    if step.Send? && s.loop.Sending? {
      ConservedStep(s, r, Settled(s.loop.peer, s.loop.data, Sent(s.loop.sid)));
    } else if step.OpenFails? && s.loop.Opening? {
      ConservedStep(s, r, Settled(s.loop.peer, s.loop.data, Refused));
    } else if step.Restart? && AtAwait(s.loop) && !s.loop.Idle? {
      ConservedStep(s, r, Settled(s.loop.peer, s.loop.data, Interrupted));
    } else if step.Restart? && s.loop.Idle? {
      assert r.settled == s.settled;
    } else if step.Receive? && s.loop.Idle? {
      assert Datagrams(s.settled) + [] == Datagrams(s.settled);
    }
  }

  /** The gauge counts the reverse tasks alive and a guard about to be handed to one; `accepted` counts
      those, the ended ones, and an accept between its two increments. */
  predicate Gauged(s: State) {
    && s.active == |s.tasks.Keys| + (if s.loop.Guarded? then 1 else 0)
    && s.accepted == s.active + s.ended + (if s.loop.Counted? then 1 else 0)
  }

  lemma SpawnKeepsGauged(s: State)
    requires Sane(s) && LoopInv(s) && Gauged(s) && s.loop.Guarded?
    ensures Gauged(DoSpawn(s))
  {
    assert DoSpawn(s).tasks.Keys == s.tasks.Keys + {s.loop.sid};
  }

  lemma DropKeepsGauged(s: State, sid: nat)
    requires Gauged(s) && sid in s.tasks
    ensures Gauged(DoDropGuard(s, sid))
  {
    assert DoDropGuard(s, sid).tasks.Keys == s.tasks.Keys - {sid};
  }

  /** What the gauge depends on. */
  predicate SameGauge(s: State, r: State) {
    && r.tasks.Keys == s.tasks.Keys && r.active == s.active && r.accepted == s.accepted && r.ended == s.ended
    && r.loop.Guarded? == s.loop.Guarded? && r.loop.Counted? == s.loop.Counted?
  }

  lemma LoopKeepsGauge(s: State, step: Step)
    requires Sane(s) && !ByTask(step) && !step.Spawn? && !step.CountAccepted? && !step.CountActive?
    ensures SameGauge(s, Apply(s, step))
  {
  }

  lemma TaskKeepsGauge(s: State, step: Step)
    requires Sane(s) && ByTask(step) && !step.DropGuard?
    ensures SameGauge(s, Apply(s, step))
  {
    var r := Apply(s, step);
    assert r.tasks.Keys == s.tasks.Keys;
  }

  lemma ApplyKeepsGauged(s: State, step: Step)
    requires Sane(s) && LoopInv(s) && Gauged(s)
    ensures Gauged(Apply(s, step))
  {
    hide LoopInv, Sane, Apply;
    if step.Spawn? || step.DropGuard? || step.CountAccepted? || step.CountActive? {
      CountKeepsGauged(s, step);
    } else if ByTask(step) {
      TaskKeepsGauge(s, step);
    } else {
      LoopKeepsGauge(s, step);
    }
  }

  lemma CountKeepsGauged(s: State, step: Step)
    requires Sane(s) && LoopInv(s) && Gauged(s) && (step.Spawn? || step.DropGuard? || step.CountAccepted? || step.CountActive?)
    ensures Gauged(Apply(s, step))
  {
    hide LoopInv, Sane;
    if step.Spawn? && s.loop.Guarded? {
      SpawnKeepsGauged(s);
    } else if step.DropGuard? && step.sid in s.tasks && s.tasks[step.sid].Removed? {
      DropKeepsGauged(s, step.sid);
    }
  }

  /** The targets picked in this generation are the round-robin picks, failed openings included. */
  predicate PicksOk(s: State)
    requires s.targets > 0
  {
    s.picks == Picks(0, s.targets, |s.picks|) && s.rr == After(0, s.targets, |s.picks|)
  }

  lemma ApplyKeepsPicks(s: State, step: Step)
    requires Sane(s) && PicksOk(s)
    ensures Apply(s, step).targets == s.targets && PicksOk(Apply(s, step))
  {
    PicksSnoc(0, s.targets, |s.picks|);
    hide Picks;
    assert Picks(0, s.targets, 0) == [] by {
      NoPicks(s.targets);
    }
  }

  lemma NoPicks(n: nat)
    requires n > 0
    ensures Picks(0, n, 0) == [] && After(0, n, 0) == 0
  {
  }

  // ----- where sessions go -----

  /** The picks whose opening worked, in order. */
  function Worked(picks: seq<nat>, outcomes: seq<bool>): seq<nat>
    requires |outcomes| <= |picks|
  {
    if outcomes == [] then []
    else
      var n := |outcomes| - 1;
      Worked(picks, outcomes[..n]) + if outcomes[n] then [picks[n]] else []
  }

  /** The targets that the sessions of one generation are connected to, in order of opening. */
  function TargetsOf(xs: seq<Session>, gen: nat): seq<nat> {
    if xs == [] then []
    else
      var n := |xs| - 1;
      TargetsOf(xs[..n], gen) + if xs[n].gen == gen then [xs[n].target] else []
  }

  /** Every pick leads to an opening, failed or not, of a session to the picked target. */
  ghost predicate PicksUsed(s: State)
    requires |s.maps| > 0
  {
    && |s.picks| == |s.outcomes| + (if s.loop.Opening? then 1 else 0)
    && (s.loop.Opening? ==> s.loop.target == s.picks[|s.picks| - 1])
    && TargetsOf(s.sessions, |s.maps| - 1) == Worked(s.picks, s.outcomes)
  }

  lemma {:induction false} WorkedExtends(picks: seq<nat>, outcomes: seq<bool>, i: nat)
    requires |outcomes| <= |picks|
    ensures Worked(picks + [i], outcomes) == Worked(picks, outcomes)
    decreases |outcomes|
  {
    if outcomes != [] {
      WorkedExtends(picks, outcomes[..|outcomes| - 1], i);
    }
  }

  lemma WorkedSnoc(picks: seq<nat>, outcomes: seq<bool>, b: bool)
    requires |outcomes| < |picks|
    ensures Worked(picks, outcomes + [b]) == Worked(picks, outcomes) + if b then [picks[|outcomes|]] else []
  {
    assert (outcomes + [b])[..|outcomes|] == outcomes;
  }

  lemma TargetsSnoc(xs: seq<Session>, x: Session, gen: nat)
    ensures TargetsOf(xs + [x], gen) == TargetsOf(xs, gen) + if x.gen == gen then [x.target] else []
  {
    assert (xs + [x])[..|xs|] == xs;
  }

  lemma {:induction false} SameTargets(xs: seq<Session>, ys: seq<Session>, gen: nat)
    requires |xs| == |ys| && forall i :: 0 <= i < |xs| ==> xs[i].gen == ys[i].gen && xs[i].target == ys[i].target
    ensures TargetsOf(xs, gen) == TargetsOf(ys, gen)
  {
    if xs != [] {
      SameTargets(xs[..|xs| - 1], ys[..|ys| - 1], gen);
    }
  }

  lemma {:induction false} NoTargets(xs: seq<Session>, gen: nat)
    requires forall i :: 0 <= i < |xs| ==> xs[i].gen < gen
    ensures TargetsOf(xs, gen) == []
  {
    if xs != [] {
      NoTargets(xs[..|xs| - 1], gen);
    }
  }

  /** What the other steps leave alone. */
  predicate SameUse(s: State, r: State) {
    && r.picks == s.picks && r.outcomes == s.outcomes && |r.maps| == |s.maps| && !s.loop.Opening? == !r.loop.Opening?
    && (s.loop.Opening? ==> r.loop == s.loop) && |r.sessions| == |s.sessions|
    && forall i :: 0 <= i < |s.sessions| ==> s.sessions[i].gen == r.sessions[i].gen && s.sessions[i].target == r.sessions[i].target
  }

  lemma LoopKeepsUse(s: State, step: Step)
    requires Sane(s) && !ByTask(step) && !step.Lookup? && !step.OpenFails? && !step.OpenWorks? && !step.Restart?
    ensures SameUse(s, Apply(s, step))
  {
  }

  lemma TaskKeepsUse(s: State, step: Step)
    requires Sane(s) && ByTask(step)
    ensures SameUse(s, Apply(s, step))
  {
  }

  lemma UseStep(s: State, step: Step)
    requires Sane(s) && PicksUsed(s) && (step.Lookup? || step.OpenFails? || step.OpenWorks? || step.Restart?)
    requires |Apply(s, step).maps| > 0
    ensures PicksUsed(Apply(s, step))
  {
    hide TargetsOf, Worked;
    var g := |s.maps| - 1;
    if step.Lookup? && s.loop.Looking? {
      WorkedExtends(s.picks, s.outcomes, PickIndex(s.rr, s.targets));
    } else if step.OpenFails? && s.loop.Opening? {
      WorkedSnoc(s.picks, s.outcomes, false);
    } else if step.OpenWorks? && s.loop.Opening? {
      WorkedSnoc(s.picks, s.outcomes, true);
      TargetsSnoc(s.sessions, DoOpenWorks(s).sessions[|s.sessions|], g);
    } else if step.Restart? && AtAwait(s.loop) {
      NoTargets(s.sessions, |s.maps|);
      NoneWorked([]);
    }
  }

  lemma NoneWorked(picks: seq<nat>)
    ensures Worked(picks, []) == []
  {
  }

  lemma ApplyKeepsUse(s: State, step: Step)
    requires Sane(s) && PicksUsed(s) && |Apply(s, step).maps| > 0
    ensures PicksUsed(Apply(s, step))
  {
    hide Apply, TargetsOf, Worked;
    if step.Lookup? || step.OpenFails? || step.OpenWorks? || step.Restart? {
      UseStep(s, step);
    } else {
      if ByTask(step) {
        TaskKeepsUse(s, step);
      } else {
        LoopKeepsUse(s, step);
      }
      SameTargets(s.sessions, Apply(s, step).sessions, |s.maps| - 1);
    }
  }

  // ----- errors -----

  function Refusals(settled: seq<Settled>): nat {
    if settled == [] then 0
    else
      var n := |settled| - 1;
      Refusals(settled[..n]) + if settled[n].fate.Refused? then 1 else 0
  }

  /** Errors are failed receives and failed openings. */
  predicate ErrorsOk(s: State) {
    s.errors == s.deaf + Refusals(s.settled)
  }

  lemma RefusalsSnoc(settled: seq<Settled>, e: Settled)
    ensures Refusals(settled + [e]) == Refusals(settled) + if e.fate.Refused? then 1 else 0
  {
    assert (settled + [e])[..|settled|] == settled;
  }

  lemma SameErrors(s: State, step: Step)
    requires Sane(s) && !step.Send? && !step.OpenFails? && !step.Restart? && !step.ReceiveFails?
    ensures var r := Apply(s, step); r.errors == s.errors && r.deaf == s.deaf && r.settled == s.settled
  {
  }

  lemma ApplyKeepsErrors(s: State, step: Step)
    requires Sane(s) && ErrorsOk(s)
    ensures ErrorsOk(Apply(s, step))
  {
    hide Refusals;
    if step.Send? && s.loop.Sending? {
      RefusalsSnoc(s.settled, Settled(s.loop.peer, s.loop.data, Sent(s.loop.sid)));
    } else if step.OpenFails? && s.loop.Opening? {
      RefusalsSnoc(s.settled, Settled(s.loop.peer, s.loop.data, Refused));
    } else if step.Restart? && AtAwait(s.loop) && !s.loop.Idle? {
      RefusalsSnoc(s.settled, Settled(s.loop.peer, s.loop.data, Interrupted));
    } else if step.Restart? && s.loop.Idle? {
      assert Apply(s, step).settled == s.settled;
    } else if !step.Send? && !step.OpenFails? && !step.Restart? && !step.ReceiveFails? {
      SameErrors(s, step);
    }
  }

  /** No clock value held by a task lies in the future. */
  predicate ClocksOk(s: State) {
    forall sid :: sid in s.tasks ==>
      && (s.tasks[sid].Waiting? ==> s.tasks[sid].armed <= s.now)
      && (s.tasks[sid].Judging? ==> s.tasks[sid].clock <= s.now)
  }

  lemma ApplyKeepsClocks(s: State, step: Step)
    requires Sane(s) && ClocksOk(s)
    ensures ClocksOk(Apply(s, step))
  {
  }

  // ----- runs -----

  ghost predicate Inv(s: State) {
    && Sane(s) && Bijection(s) && LoopInv(s) && AllClean(s) && Conserved(s) && AllBooked(s) && Gauged(s) && PicksOk(s)
    && PicksUsed(s) && ErrorsOk(s) && ClocksOk(s)
  }

  lemma ApplyKeepsInv(s: State, step: Step)
    requires Inv(s)
    ensures Inv(Apply(s, step))
  {
    ApplyIsSane(s, step);
    ApplyKeepsLoopInv(s, step);
    ApplyKeepsBijection(s, step);
    ApplyKeepsClean(s, step);
    ApplyKeepsConserved(s, step);
    ApplyKeepsBooked(s, step);
    ApplyKeepsGauged(s, step);
    ApplyKeepsPicks(s, step);
    ApplyKeepsUse(s, step);
    ApplyKeepsErrors(s, step);
    ApplyKeepsClocks(s, step);
    hide Apply, Bijection, LoopInv, AllClean, Conserved, AllBooked, Gauged, PicksOk, PicksUsed, ErrorsOk, ClocksOk;
  }

  /** The state after a schedule; the invariant is what makes every step well defined. */
  ghost function Exec(s: State, schedule: seq<Step>): (r: State)
    requires Inv(s)
    ensures Inv(r)
    decreases |schedule|
  {
    if schedule == [] then s
    else
      ApplyKeepsInv(s, schedule[0]);
      Exec(Apply(s, schedule[0]), schedule[1..])
  }

  lemma InitInv(targets: nat)
    requires targets > 0
    ensures Inv(Init(targets))
  {
    NoPicks(targets);
  }
}
