/** Main results about the UDP session NAT, over every interleaving. */
module UdpRuns {
  import opened RoundRobin
  import opened Udp

  /** The state after running `schedule` from the start, with `targets` configured targets. */
  ghost function Reach(targets: nat, schedule: seq<Step>): (s: State)
    requires targets > 0
    ensures Inv(s)
  {
    InitInv(targets);
    Exec(Init(targets), schedule)
  }

  // ----- the session maps -----

  /** In every reachable state, map entries and unremoved reverse tasks (with the one about to be
      spawned) are in bijection: each entry names the session of its own generation and peer, each
      such task has its entry, and no two of one generation share a peer. */
  lemma EntriesMatchTasks(targets: nat, schedule: seq<Step>)
    requires targets > 0
    ensures var s := Reach(targets, schedule);
      && (forall g, p :: 0 <= g < |s.maps| && p in s.maps[g] ==> Owned(s, g, p))
      && (forall sid :: 0 <= sid < |s.sessions| && Owner(s, sid) ==> HasEntry(s, sid))
      && (forall a, b :: 0 <= a < b < |s.sessions| && Owner(s, a) && Owner(s, b) && s.sessions[a].gen == s.sessions[b].gen
            ==> s.sessions[a].peer != s.sessions[b].peer)
  {
    var s := Reach(targets, schedule);
    forall a, b | 0 <= a < b < |s.sessions| && Owner(s, a) && Owner(s, b) && s.sessions[a].gen == s.sessions[b].gen
      ensures s.sessions[a].peer != s.sessions[b].peer
    {
      assert HasEntry(s, a) && HasEntry(s, b);
    }
  }

  /** Insert never overwrites: the peer has no entry, and no unremoved task of this generation. */
  lemma InsertIsFresh(targets: nat, schedule: seq<Step>, sid: nat)
    requires targets > 0 && Reach(targets, schedule).loop.Opened?
    ensures var s := Reach(targets, schedule);
      && s.loop.peer !in Current(s)
      && (sid < |s.sessions| && Live(s, sid) && s.sessions[sid].gen == |s.maps| - 1 ==> s.sessions[sid].peer != s.loop.peer)
  {
    var s := Reach(targets, schedule);
    if sid < |s.sessions| && Live(s, sid) {
      assert HasEntry(s, sid);
    }
  }

  /** Remove deletes the task's own entry and nothing else, in its own generation's map. */
  lemma RemoveIsOwn(targets: nat, schedule: seq<Step>, sid: nat, g: nat, p: Address)
    requires targets > 0
    requires var s := Reach(targets, schedule); sid in s.tasks && s.tasks[sid].Closing? && g < |s.maps|
    ensures var s := Reach(targets, schedule);
      var r := Apply(s, Remove(sid));
      var x := s.sessions[sid];
      && |r.maps| == |s.maps|
      && (g == x.gen && p == x.peer ==> p in s.maps[g] && s.maps[g][p] == sid && p !in r.maps[g])
      && (g != x.gen || p != x.peer ==> (p in r.maps[g] <==> p in s.maps[g]) && (p in s.maps[g] ==> r.maps[g][p] == s.maps[g][p]))
  {
    assert HasEntry(Reach(targets, schedule), sid);
  }

  // ----- isolation and affinity -----

  /** What a session keeps for ever, and how its histories grow. */
  predicate Continues(x: Session, y: Session) {
    && y.gen == x.gen && y.peer == x.peer && y.target == x.target
    && x.sent <= y.sent && x.heard <= y.heard && x.replied <= y.replied && x.touches <= y.touches && x.last <= y.last
  }

  lemma ApplyContinues(s: State, step: Step, sid: nat)
    requires Inv(s) && sid < |s.sessions|
    ensures var r := Apply(s, step); |r.sessions| >= |s.sessions| && Continues(s.sessions[sid], r.sessions[sid])
  {
    assert Clean(s, sid);
    hide Bijection, AllClean, AllBooked;
  }

  /** A session stays with its peer, generation and target for the whole rest of the run. */
  lemma {:induction false} SessionIsFixed(s: State, more: seq<Step>, sid: nat)
    requires Inv(s) && sid < |s.sessions|
    ensures var r := Exec(s, more); |r.sessions| >= |s.sessions| && Continues(s.sessions[sid], r.sessions[sid])
    decreases |more|
  {
    if more != [] {
      ApplyKeepsInv(s, more[0]);
      ApplyContinues(s, more[0], sid);
      hide Inv, Apply;
      SessionIsFixed(Apply(s, more[0]), more[1..], sid);
    }
  }

  /** Isolation over whole runs, stale handles included: everything sent on a socket is, in order, what
      the books say was sent there, all of it from the one peer the socket was opened for; everything
      read from it is passed on once, in order, and only to that peer. */
  lemma SessionsAreIsolated(targets: nat, schedule: seq<Step>, sid: nat)
    requires targets > 0 && sid < |Reach(targets, schedule).sessions|
    ensures var s := Reach(targets, schedule);
      var x := s.sessions[sid];
      && x.sent == Payloads(s.settled, sid)
      && (forall k :: 0 <= k < |s.settled| && s.settled[k].fate == Sent(sid) ==> s.settled[k].peer == x.peer)
      && x.repliedTo <= {x.peer}
      && x.heard == x.replied + Carried(s, sid)
  {
    var s := Reach(targets, schedule);
    assert Clean(s, sid) && Booked(s, sid);
  }

  /** The places in the order of arrival of the datagrams sent on socket `sid`. */
  function Places(settled: seq<Settled>, sid: nat): seq<nat> {
    if settled == [] then []
    else
      var n := |settled| - 1;
      Places(settled[..n], sid) + if settled[n].fate == Sent(sid) then [n] else []
  }

  predicate Increasing(p: seq<nat>) {
    forall i, j :: 0 <= i < j < |p| ==> p[i] < p[j]
  }

  lemma {:induction false} PlacesAre(settled: seq<Settled>, sid: nat)
    ensures var p := Places(settled, sid);
      && |p| == |Payloads(settled, sid)| && Increasing(p)
      && (forall j :: 0 <= j < |p| ==> p[j] < |settled| && settled[p[j]].fate == Sent(sid) && settled[p[j]].data == Payloads(settled, sid)[j])
      && (forall k :: 0 <= k < |settled| && settled[k].fate == Sent(sid) ==> k in p)
  {
    if settled != [] {
      PlacesAre(settled[..|settled| - 1], sid);
    }
  }

  /** What went out on a socket is a subsequence, in order and without repetition, of what its peer sent
      to the listener, and no datagram goes out on two sockets. */
  lemma SentOnceInOrder(targets: nat, schedule: seq<Step>, sid: nat)
    requires targets > 0 && sid < |Reach(targets, schedule).sessions|
    ensures var s := Reach(targets, schedule);
      var x, p := s.sessions[sid], Places(s.settled, sid);
      && |p| == |x.sent| && Increasing(p)
      && (forall j :: 0 <= j < |p| ==> p[j] < |s.arrived| && s.arrived[p[j]] == (x.peer, x.sent[j]))
      && (forall other, k :: other != sid && k in p ==> k !in Places(s.settled, other))
  {
    hide Reach;
    var s := Reach(targets, schedule);
    SessionsAreIsolated(targets, schedule, sid);
    DatagramsAreConserved(targets, schedule);
    PlacesAre(s.settled, sid);
    var p := Places(s.settled, sid);
    hide Places, Payloads;
    forall j | 0 <= j < |p| ensures p[j] < |s.arrived| && s.arrived[p[j]] == (s.sessions[sid].peer, s.sessions[sid].sent[j]) {
      assert s.arrived[p[j]] == Datagrams(s.settled)[p[j]];
    }
    forall other, k | other != sid && k in p ensures k !in Places(s.settled, other) {
      PlacesAre(s.settled, other);
    }
  }

  /** Affinity: while a peer has an entry, its next datagram goes out on that session's socket, hence
      to that session's target; and it is this peer's datagram that goes out there. */
  lemma DatagramFollowsEntry(targets: nat, schedule: seq<Step>)
    requires targets > 0
    ensures var s := Reach(targets, schedule);
      && (s.loop.Looking? && s.loop.peer in Current(s) ==>
            Apply(s, Lookup).loop == Holding(s.loop.peer, s.loop.data, Current(s)[s.loop.peer]))
      && (s.loop.Sending? ==>
            && s.sessions[s.loop.sid].peer == s.loop.peer
            && Apply(s, Send).sessions[s.loop.sid].sent == s.sessions[s.loop.sid].sent + [s.loop.data])
  {
  }

  /** Nothing is lost or duplicated inside the loop: every datagram is settled in order of arrival, sent
      on one socket or dropped, but for the one in hand; and every entry booked as sent on a socket is
      one of the payloads that left it. */
  lemma DatagramsAreConserved(targets: nat, schedule: seq<Step>)
    requires targets > 0
    ensures var s := Reach(targets, schedule);
      && s.arrived == Datagrams(s.settled) + InFlight(s.loop)
      && (forall k :: 0 <= k < |s.settled| && s.settled[k].fate.Sent? ==>
            s.settled[k].fate.sid < |s.sessions| && s.settled[k].data in s.sessions[s.settled[k].fate.sid].sent)
  {
    var s := Reach(targets, schedule);
    hide Reach;
    forall k | 0 <= k < |s.settled| && s.settled[k].fate.Sent?
      ensures s.settled[k].fate.sid < |s.sessions| && s.settled[k].data in s.sessions[s.settled[k].fate.sid].sent
    {
      var sid := s.settled[k].fate.sid;
      assert Booked(s, sid);
      PlacesAre(s.settled, sid);
      assert k in Places(s.settled, sid);
      hide Places, Payloads;
    }
  }

  /** The gauge never underflows and counts exactly the live sessions, across restarts. */
  lemma GaugeIsExact(targets: nat, schedule: seq<Step>)
    requires targets > 0
    ensures var s := Reach(targets, schedule);
      && s.active == |s.tasks.Keys| + (if s.loop.Guarded? then 1 else 0)
      && 0 <= s.active <= s.accepted
      && s.accepted == s.active + s.ended + (if s.loop.Counted? then 1 else 0)
  {
  }

  /** Targets are picked fairly within a generation, whether or not the openings succeed. */
  lemma PicksAreFair(targets: nat, schedule: seq<Step>)
    requires targets > 0 && |Reach(targets, schedule).picks| <= WORD
    ensures Fair(Reach(targets, schedule).picks, targets)
    ensures Reach(targets, schedule).targets == targets
  {
    TargetsFixed(Init(targets), schedule);
    WindowIsFair(0, targets, |Reach(targets, schedule).picks|);
  }

  /** Round robin is about where sessions go: the one being opened goes to the last pick, and the targets
      of the running generation's sessions, in order of opening, are exactly the picks whose opening
      worked, all of them if none failed. */
  lemma SessionsFollowPicks(targets: nat, schedule: seq<Step>)
    requires targets > 0
    ensures var s := Reach(targets, schedule);
      && |s.picks| == |s.outcomes| + (if s.loop.Opening? then 1 else 0)
      && (s.loop.Opening? ==> s.loop.target == s.picks[|s.picks| - 1])
      && TargetsOf(s.sessions, |s.maps| - 1) == Worked(s.picks, s.outcomes)
      && (false !in s.outcomes ==> TargetsOf(s.sessions, |s.maps| - 1) == s.picks[..|s.outcomes|])
  {
    var s := Reach(targets, schedule);
    if false !in s.outcomes {
      AllWorked(s.picks, s.outcomes);
    }
  }

  lemma {:induction false} AllWorked(picks: seq<nat>, outcomes: seq<bool>)
    requires |outcomes| <= |picks| && false !in outcomes
    ensures Worked(picks, outcomes) == picks[..|outcomes|]
    decreases |outcomes|
  {
    if outcomes != [] {
      AllWorked(picks, outcomes[..|outcomes| - 1]);
    }
  }

  /** While no opening fails, the sessions of a generation are spread evenly over the targets. */
  lemma SessionsAreSpread(targets: nat, schedule: seq<Step>)
    requires targets > 0
    requires var s := Reach(targets, schedule); false !in s.outcomes && |s.picks| <= WORD
    ensures var s := Reach(targets, schedule); Fair(TargetsOf(s.sessions, |s.maps| - 1), targets)
  {
    var s := Reach(targets, schedule);
    SessionsFollowPicks(targets, schedule);
    TargetsFixed(Init(targets), schedule);
    PicksPrefix(0, targets, |s.picks|, |s.outcomes|);
    WindowIsFair(0, targets, |s.outcomes|);
  }

  lemma {:induction false} PicksPrefix(counter: nat, n: nat, k: nat, j: nat)
    requires n > 0 && j <= k
    ensures Picks(counter, n, k)[..j] == Picks(counter, n, j)
    decreases j
  {
    if j > 0 {
      PicksPrefix(Advance(counter, n), n, k - 1, j - 1);
      hide Advance, PickIndex;
    }
  }

  /** A restart begins with an empty map and a counter of zero, and leaves the maps of the tasks that
      still run, their sessions and the stats alone. */
  lemma RestartIsFresh(targets: nat, schedule: seq<Step>)
    requires targets > 0 && AtAwait(Reach(targets, schedule).loop)
    ensures var s := Reach(targets, schedule);
      var r := Apply(s, Restart);
      && |r.maps| == |s.maps| + 1 && Current(r) == map[] && r.maps[..|s.maps|] == s.maps
      && r.rr == 0 && r.loop.Idle? && r.tasks == s.tasks && r.sessions == s.sessions
      && r.active == s.active && r.accepted == s.accepted && r.errors == s.errors
  {
  }

  /** The error counter counts failed receives and datagrams for which no session could be opened. */
  lemma ErrorsAreExact(targets: nat, schedule: seq<Step>)
    requires targets > 0
    ensures var s := Reach(targets, schedule); s.errors == s.deaf + Refusals(s.settled)
  {
  }

  /** Activity is recorded before it happens: whenever the loop comes to send on a session, or a task to
      pass a reply on, the session's clock shows that moment, and it never falls behind it later. */
  lemma ActivityIsRecorded(s: State, step: Step, more: seq<Step>, sid: nat)
    requires Inv(s)
    ensures var r := Apply(s, step);
      && Inv(r)
      && (!s.loop.Sending? && r.loop.Sending? && r.loop.sid == sid ==>
            sid < |r.sessions| && r.sessions[sid].last == r.now && sid < |Exec(r, more).sessions| && Exec(r, more).sessions[sid].last >= r.now)
      && (sid in r.tasks && r.tasks[sid].Replying? && !(sid in s.tasks && s.tasks[sid].Replying?) ==>
            sid < |r.sessions| && r.sessions[sid].last == r.now && sid < |Exec(r, more).sessions| && Exec(r, more).sessions[sid].last >= r.now)
  {
    ApplyKeepsInv(s, step);
    EntryIsStamped(s, step, sid);
    var r := Apply(s, step);
    if sid < |r.sessions| {
      SessionIsFixed(r, more, sid);
    }
    hide Inv, Apply;
  }

  lemma EntryIsStamped(s: State, step: Step, sid: nat)
    requires Sane(s)
    ensures var r := Apply(s, step);
      && (!s.loop.Sending? && r.loop.Sending? && r.loop.sid == sid ==> sid < |r.sessions| && r.sessions[sid].last == r.now)
      && (sid in r.tasks && r.tasks[sid].Replying? && !(sid in s.tasks && s.tasks[sid].Replying?) ==>
            sid < |r.sessions| && r.sessions[sid].last == r.now)
  {
  }

  lemma {:induction false} TargetsFixed(s: State, more: seq<Step>)
    requires Inv(s)
    ensures Exec(s, more).targets == s.targets
    decreases |more|
  {
    if more != [] {
      ApplyKeepsInv(s, more[0]);
      ApplyKeepsPicks(s, more[0]);
      hide Inv, Apply;
      TargetsFixed(Apply(s, more[0]), more[1..]);
    }
  }

  // ----- idle reaping -----

  /** Reaping is safe: a timer ends a session only when at least the TTL has passed since every
      activity recorded in either direction, even though the clock was read before the activity
      clock was loaded. */
  lemma ReapIsSafe(targets: nat, schedule: seq<Step>, sid: nat)
    requires targets > 0
    requires var s := Reach(targets, schedule); sid in s.tasks && s.tasks[sid].Judging?
    ensures var s := Reach(targets, schedule);
      var x := s.sessions[sid];
      && (Apply(s, Judge(sid)).tasks[sid].Closing? <==> x.last + 60000 <= s.tasks[sid].clock)
      && (Apply(s, Judge(sid)).tasks[sid].Closing? ==> forall t :: t in x.touches ==> t + 60000 <= s.now)
  {
    var s := Reach(targets, schedule);
    assert Clean(s, sid);
  }

  /** Timers fire on their deadline: time passes only while the loop is at an await point and every
      reverse task is in its select, and never beyond an armed deadline. */
  predicate Punctual(s: State, step: Step) {
    step.Tick? ==>
      && AtAwait(s.loop)
      && forall sid :: sid in s.tasks ==> s.tasks[sid].Waiting? && s.now + step.ms <= s.tasks[sid].armed + TTL
  }

  ghost predicate PunctualRun(s: State, schedule: seq<Step>)
    requires Inv(s)
    decreases |schedule|
  {
    schedule == [] || (
      ApplyKeepsInv(s, schedule[0]);
      Punctual(s, schedule[0]) && PunctualRun(Apply(s, schedule[0]), schedule[1..]))
  }

  /** Where a punctual run keeps each session's clocks. */
  predicate Timely(s: State, sid: nat)
    requires Sane(s) && sid in s.tasks
  {
    var last := s.sessions[sid].last;
    && s.now < last + 2 * TTL
    && (s.tasks[sid].Waiting? ==> s.now <= s.tasks[sid].armed + TTL && s.tasks[sid].armed < last + TTL)
    && (s.tasks[sid].Replying? ==> last == s.now)
    && (s.tasks[sid].Judging? ==> s.tasks[sid].clock == s.now)
  }

  predicate TimelyLoop(s: State)
    requires Sane(s)
  {
    (s.loop.Opened? || s.loop.Inserted? || s.loop.Counted? || s.loop.Guarded?) ==> s.sessions[s.loop.sid].last == s.now
  }

  predicate AllTimely(s: State)
    requires Sane(s)
  {
    TimelyLoop(s) && forall sid :: sid in s.tasks ==> Timely(s, sid)
  }

  lemma LoopKeepsTimely(s: State, step: Step)
    requires Sane(s) && LoopInv(s) && AllClean(s) && AllTimely(s) && Punctual(s, step) && Sane(Apply(s, step)) && !ByTask(step)
    ensures AllTimely(Apply(s, step))
  {
    var r := Apply(s, step);
    forall sid | sid in r.tasks ensures Timely(r, sid) {
      if sid in s.tasks {
        assert Timely(s, sid) && Clean(s, sid);
      }
    }
  }

  lemma TaskKeepsTimely(s: State, step: Step)
    requires Sane(s) && LoopInv(s) && AllClean(s) && AllTimely(s) && Sane(Apply(s, step)) && ByTask(step)
    ensures AllTimely(Apply(s, step))
  {
    hide Apply, AllClean;
    var r := Apply(s, step);
    TaskFrame(s, step, step.sid + 1);
    if s.loop.Opened? || s.loop.Inserted? || s.loop.Counted? || s.loop.Guarded? {
      if s.loop.sid == step.sid {
        NoTaskNoStep(s, step);
      } else {
        TaskFrame(s, step, s.loop.sid);
      }
    }
    forall sid | sid in r.tasks ensures Timely(r, sid) {
      if sid == step.sid {
        TaskKeepsOwnTimely(s, step);
      } else {
        TaskFrame(s, step, sid);
        assert Timely(s, sid);
      }
    }
  }

  lemma NoTaskNoStep(s: State, step: Step)
    requires Sane(s) && ByTask(step) && step.sid !in s.tasks
    ensures Apply(s, step) == s
  {
  }

  lemma TaskKeepsOwnTimely(s: State, step: Step)
    requires Sane(s) && AllClean(s) && ByTask(step) && Sane(Apply(s, step)) && step.sid in Apply(s, step).tasks
    requires step.sid in s.tasks ==> Timely(s, step.sid)
    ensures Timely(Apply(s, step), step.sid)
  {
    if step.sid in s.tasks {
      assert Clean(s, step.sid);
    }
  }

  lemma ApplyKeepsTimely(s: State, step: Step)
    requires Inv(s) && AllTimely(s) && Punctual(s, step) && Sane(Apply(s, step))
    ensures AllTimely(Apply(s, step))
  {
    hide Apply, Bijection, LoopInv, AllClean, Gauged, PicksOk, PicksUsed, ErrorsOk, Conserved, AllBooked, ClocksOk, Sane, AllTimely, Punctual;
    if ByTask(step) {
      TaskKeepsTimely(s, step);
    } else {
      LoopKeepsTimely(s, step);
    }
  }

  lemma {:induction false} PunctualIsTimely(s: State, schedule: seq<Step>)
    requires Inv(s) && AllTimely(s) && PunctualRun(s, schedule)
    ensures AllTimely(Exec(s, schedule))
    decreases |schedule|
  {
    if schedule != [] {
      ApplyKeepsInv(s, schedule[0]);
      ApplyKeepsTimely(s, schedule[0]);
      hide Inv, Apply, AllTimely, Punctual;
      PunctualIsTimely(Apply(s, schedule[0]), schedule[1..]);
    }
  }

  /** Reaping is timely: with timers on their deadline, a session still in a map has been active within
      the last two lifetimes. */
  lemma ReapIsTimely(targets: nat, schedule: seq<Step>, g: nat, p: Address)
    requires targets > 0
    requires (InitInv(targets); PunctualRun(Init(targets), schedule))
    requires var s := Reach(targets, schedule); g < |s.maps| && p in s.maps[g]
    ensures var s := Reach(targets, schedule);
      s.maps[g][p] < |s.sessions| && s.now < s.sessions[s.maps[g][p]].last + 120000
  {
    InitInv(targets);
    PunctualIsTimely(Init(targets), schedule);
    var s := Reach(targets, schedule);
    assert Owned(s, g, p);
    if Live(s, s.maps[g][p]) {
      assert Timely(s, s.maps[g][p]);
    }
  }
}
