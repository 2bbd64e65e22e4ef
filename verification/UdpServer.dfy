/** The UDP listener as it lives on the heap. A session is a socket and an activity clock, two objects
    that the map entry, the receive loop and the reverse task share; the reverse task works on the map,
    peer, socket and clock it captured when it was spawned. The methods update these objects in place;
    each is proved to take one step of the state machine, and running any schedule of them to reach
    exactly the state that the results about whole runs speak of. */
module UdpServer {
  import opened RoundRobin
  import opened Udp

  /** An outbound socket connected to one target, with all that has passed through it. */
  class Socket {
    const id: nat
    const target: nat
    var sent: seq<Datagram>
    var heard: seq<Datagram>
    var passedOn: seq<Datagram>
    var passedTo: set<Address>

    constructor (id: nat, target: nat)
      ensures this.id == id && this.target == target && sent == heard == passedOn == [] && passedTo == {}
    {
      this.id, this.target := id, target;
      sent, heard, passedOn, passedTo := [], [], [], {};
    }
  }

  /** The activity clock of a session, an atomic. */
  class Clock {
    var last: nat
    ghost var stores: seq<nat>

    constructor (now: nat)
      ensures last == now && stores == [now]
    {
      last, stores := now, [now];
    }

    method Store(now: nat)
      modifies this
      ensures last == now && stores == old(stores) + [now]
    {
      last := now;
      stores := stores + [now];
    }
  }

  /** The handles to a session, as the map keeps them and as they are cloned out of it. */
  datatype Handle = Handle(out: Socket, last: Clock)

  /** The captured variables of a reverse task, and where it is. */
  class ReverseTask {
    const gen: nat
    const peer: Address
    const handle: Handle
    var pc: Task

    constructor (gen: nat, peer: Address, handle: Handle, pc: Task)
      ensures this.gen == gen && this.peer == peer && this.handle == handle && this.pc == pc
    {
      this.gen, this.peer, this.handle, this.pc := gen, peer, handle, pc;
    }
  }

  datatype Stage = AtOpened | AtInserted | AtCounted | AtGuarded | AtHolding | AtSending

  /** The local variables of the receive loop. */
  datatype Receiving =
    | Resting
    | Fetched(peer: Address, data: Datagram)
    | Connecting(peer: Address, data: Datagram, target: nat)
    | Using(stage: Stage, peer: Address, data: Datagram, handle: Handle)

  // ----- what the heap stands for -----

  /** `h` holds the socket and the clock of session `sid`. */
  ghost predicate Refers(socks: seq<Socket>, clocks: seq<Clock>, h: Handle, sid: nat) {
    sid < |socks| && sid < |clocks| && h.out == socks[sid] && h.last == clocks[sid]
  }

  ghost predicate MapOk(socks: seq<Socket>, clocks: seq<Clock>, m: map<Address, Handle>, v: map<Address, nat>) {
    m.Keys == v.Keys && forall p :: p in m ==> Refers(socks, clocks, m[p], v[p])
  }

  ghost predicate EntriesOk(socks: seq<Socket>, clocks: seq<Clock>, maps: seq<map<Address, Handle>>, v: seq<map<Address, nat>>) {
    |maps| == |v| && forall g :: 0 <= g < |maps| ==> MapOk(socks, clocks, maps[g], v[g])
  }

  /** Every session has its own socket and its own clock. */
  ghost predicate ObjectsOk(socks: seq<Socket>, clocks: seq<Clock>, repr: set<object>) {
    && |socks| == |clocks|
    && (forall i :: 0 <= i < |socks| ==> socks[i] in repr && socks[i].id == i)
    && (forall i :: 0 <= i < |clocks| ==> clocks[i] in repr)
    && (forall i, j :: 0 <= i < j < |clocks| ==> clocks[i] != clocks[j])
  }

  /** The socket and the clock show session `x`. */
  ghost predicate Shows(out: Socket, last: Clock, x: Session)
    reads out, last
  {
    && x.target == out.target && x.sent == out.sent && x.heard == out.heard
    && x.replied == out.passedOn && x.repliedTo == out.passedTo
    && x.last == last.last && x.touches == last.stores
  }

  ghost predicate SessionsOk(socks: seq<Socket>, clocks: seq<Clock>, xs: seq<Session>)
    reads socks, clocks
  {
    |socks| == |clocks| == |xs| && forall i :: 0 <= i < |socks| ==> Shows(socks[i], clocks[i], xs[i])
  }

  /** Whose session it is. */
  datatype Owner = Owner(gen: nat, peer: Address)

  predicate OwnersOk(owners: seq<Owner>, xs: seq<Session>) {
    |owners| == |xs| && forall i :: 0 <= i < |xs| ==> owners[i] == Owner(xs[i].gen, xs[i].peer)
  }

  /** A task's captured variables are those of its session. */
  ghost predicate Captured(socks: seq<Socket>, clocks: seq<Clock>, owners: seq<Owner>, t: ReverseTask, sid: nat) {
    Refers(socks, clocks, t.handle, sid) && sid < |owners| && owners[sid] == Owner(t.gen, t.peer)
  }

  ghost predicate CapturesOk(socks: seq<Socket>, clocks: seq<Clock>, owners: seq<Owner>, tasks: map<nat, ReverseTask>, repr: set<object>) {
    forall sid :: sid in tasks ==> tasks[sid] in repr && Captured(socks, clocks, owners, tasks[sid], sid)
  }

  ghost predicate TasksOk(tasks: map<nat, ReverseTask>, v: map<nat, Task>)
    reads tasks.Values
  {
    tasks.Keys == v.Keys && forall sid :: sid in tasks ==> tasks[sid].pc == v[sid]
  }

  ghost predicate LoopOk(socks: seq<Socket>, clocks: seq<Clock>, loop: Receiving, v: Loop) {
    match loop
    case Resting => v == Idle
    case Fetched(p, d) => v == Looking(p, d)
    case Connecting(p, d, t) => v == Opening(p, d, t)
    case Using(stage, p, d, h) => Refers(socks, clocks, h, h.out.id) && v == LoopAt(stage, p, d, h.out.id)
  }

  function LoopAt(stage: Stage, p: Address, d: Datagram, sid: nat): Loop {
    match stage
    case AtOpened => Opened(p, d, sid)
    case AtInserted => Inserted(p, d, sid)
    case AtCounted => Counted(p, d, sid)
    case AtGuarded => Guarded(p, d, sid)
    case AtHolding => Holding(p, d, sid)
    case AtSending => Sending(p, d, sid)
  }

  // ----- how the parts change -----

  lemma EntriesGrow(socks: seq<Socket>, clocks: seq<Clock>, maps: seq<map<Address, Handle>>, v: seq<map<Address, nat>>, out: Socket, last: Clock)
    requires EntriesOk(socks, clocks, maps, v)
    ensures EntriesOk(socks + [out], clocks + [last], maps, v)
  {
    forall g | 0 <= g < |maps| ensures MapOk(socks + [out], clocks + [last], maps[g], v[g]) {
      assert MapOk(socks, clocks, maps[g], v[g]);
      forall p | p in maps[g] ensures Refers(socks + [out], clocks + [last], maps[g][p], v[g][p]) {
        assert Refers(socks, clocks, maps[g][p], v[g][p]);
      }
    }
  }

  lemma EntriesSet(socks: seq<Socket>, clocks: seq<Clock>, maps: seq<map<Address, Handle>>, v: seq<map<Address, nat>>,
                   g: nat, m: map<Address, Handle>, w: map<Address, nat>)
    requires EntriesOk(socks, clocks, maps, v) && g < |maps| && MapOk(socks, clocks, m, w)
    ensures EntriesOk(socks, clocks, maps[g := m], v[g := w])
  {
  }

  lemma EntriesPush(socks: seq<Socket>, clocks: seq<Clock>, maps: seq<map<Address, Handle>>, v: seq<map<Address, nat>>)
    requires EntriesOk(socks, clocks, maps, v)
    ensures EntriesOk(socks, clocks, maps + [map[]], v + [map[]])
  {
    assert MapOk(socks, clocks, map[], map[]);
  }

  lemma MapInsert(socks: seq<Socket>, clocks: seq<Clock>, m: map<Address, Handle>, v: map<Address, nat>, p: Address, h: Handle, sid: nat)
    requires MapOk(socks, clocks, m, v) && Refers(socks, clocks, h, sid)
    ensures MapOk(socks, clocks, m[p := h], v[p := sid])
  {
  }

  lemma MapRemove(socks: seq<Socket>, clocks: seq<Clock>, m: map<Address, Handle>, v: map<Address, nat>, p: Address)
    requires MapOk(socks, clocks, m, v)
    ensures MapOk(socks, clocks, m - {p}, v - {p})
  {
  }

  lemma CapturesGrow(socks: seq<Socket>, clocks: seq<Clock>, owners: seq<Owner>, tasks: map<nat, ReverseTask>, repr: set<object>,
                     out: Socket, last: Clock, owner: Owner, more: set<object>)
    requires CapturesOk(socks, clocks, owners, tasks, repr) && repr <= more
    ensures CapturesOk(socks + [out], clocks + [last], owners + [owner], tasks, more)
  {
    forall sid | sid in tasks ensures Captured(socks + [out], clocks + [last], owners + [owner], tasks[sid], sid) {
      assert Captured(socks, clocks, owners, tasks[sid], sid);
    }
  }

  lemma ObjectsDiffer(socks: seq<Socket>, clocks: seq<Clock>, repr: set<object>)
    requires ObjectsOk(socks, clocks, repr)
    ensures forall i, j :: 0 <= i < |socks| && 0 <= j < |socks| && i != j ==> socks[i] != socks[j]
    ensures forall i, j :: 0 <= i < |clocks| && 0 <= j < |clocks| && i != j ==> clocks[i] != clocks[j]
  {
    forall i, j | 0 <= i < |clocks| && 0 <= j < |clocks| && i != j ensures clocks[i] != clocks[j] {
      assert if i < j then clocks[i] != clocks[j] else clocks[j] != clocks[i];
    }
  }

  lemma HandleId(socks: seq<Socket>, clocks: seq<Clock>, repr: set<object>, h: Handle, sid: nat)
    requires ObjectsOk(socks, clocks, repr) && Refers(socks, clocks, h, sid)
    ensures h.out.id == sid
  {
  }

  lemma EntryRefers(socks: seq<Socket>, clocks: seq<Clock>, maps: seq<map<Address, Handle>>, v: seq<map<Address, nat>>, g: nat, p: Address)
    requires EntriesOk(socks, clocks, maps, v) && g < |maps|
    ensures |v| == |maps| && MapOk(socks, clocks, maps[g], v[g])
    ensures p in maps[g] <==> p in v[g]
    ensures p in maps[g] ==> Refers(socks, clocks, maps[g][p], v[g][p])
  {
    assert MapOk(socks, clocks, maps[g], v[g]);
  }

  lemma EntriesLength(socks: seq<Socket>, clocks: seq<Clock>, maps: seq<map<Address, Handle>>, v: seq<map<Address, nat>>)
    requires EntriesOk(socks, clocks, maps, v)
    ensures |maps| == |v|
  {
  }

  lemma SaneMaps(s: State)
    requires Sane(s)
    ensures |s.maps| > 0 && s.targets > 0
  {
  }

  lemma OpenView(s: State)
    requires Sane(s) && s.loop.Opening?
    ensures var l := s.loop;
      Apply(s, OpenWorks) == s.(
        sessions := s.sessions + [Session(|s.maps| - 1, l.peer, l.target, s.now, [s.now], [], [], [], {})],
        outcomes := s.outcomes + [true],
        loop := Loop.Opened(l.peer, l.data, |s.sessions|))
  {
  }

  lemma SpawnView(s: State)
    requires Sane(s) && s.loop.Guarded?
    ensures var l := s.loop;
      Apply(s, Spawn) == s.(tasks := s.tasks[l.sid := Task.Waiting(s.now)], loop := Loop.Holding(l.peer, l.data, l.sid))
  {
  }

  lemma NewShows(out: Socket, last: Clock, x: Session)
    requires out.sent == out.heard == out.passedOn == [] && out.passedTo == {} && last.stores == [last.last]
    requires x == Session(x.gen, x.peer, out.target, last.last, [last.last], [], [], [], {})
    ensures Shows(out, last, x)
  {
  }

  lemma NewestRefers(socks: seq<Socket>, clocks: seq<Clock>, out: Socket, last: Clock)
    requires |socks| == |clocks|
    ensures Refers(socks + [out], clocks + [last], Handle(out, last), |socks|)
  {
  }

  lemma OwnersKeep(owners: seq<Owner>, xs: seq<Session>, sid: nat, x: Session)
    requires OwnersOk(owners, xs) && sid < |xs| && x.gen == xs[sid].gen && x.peer == xs[sid].peer
    ensures OwnersOk(owners, xs[sid := x])
  {
  }

  lemma OwnersGrow(owners: seq<Owner>, xs: seq<Session>, x: Session)
    requires OwnersOk(owners, xs)
    ensures OwnersOk(owners + [Owner(x.gen, x.peer)], xs + [x])
  {
  }

  lemma OwnerAt(owners: seq<Owner>, xs: seq<Session>, sid: nat)
    requires OwnersOk(owners, xs) && sid < |xs|
    ensures |owners| == |xs| && owners[sid] == Owner(xs[sid].gen, xs[sid].peer)
  {
  }

  lemma CapturedAt(socks: seq<Socket>, clocks: seq<Clock>, owners: seq<Owner>, tasks: map<nat, ReverseTask>, repr: set<object>, sid: nat)
    requires CapturesOk(socks, clocks, owners, tasks, repr) && sid in tasks
    ensures tasks[sid] in repr && Captured(socks, clocks, owners, tasks[sid], sid)
  {
  }

  lemma TaskAt(tasks: map<nat, ReverseTask>, v: map<nat, Task>, sid: nat)
    requires TasksOk(tasks, v)
    ensures sid in tasks <==> sid in v
    ensures sid in tasks ==> tasks[sid].pc == v[sid]
  {
  }

  lemma TasksSpawn(socks: seq<Socket>, clocks: seq<Clock>, owners: seq<Owner>, tasks: map<nat, ReverseTask>, v: map<nat, Task>, repr: set<object>,
                   sid: nat, t: ReverseTask)
    requires CapturesOk(socks, clocks, owners, tasks, repr) && TasksOk(tasks, v) && Captured(socks, clocks, owners, t, sid)
    ensures CapturesOk(socks, clocks, owners, tasks[sid := t], repr + {t})
    ensures TasksOk(tasks[sid := t], v[sid := t.pc])
  {
    hide Captured;
  }

  lemma TasksDrop(socks: seq<Socket>, clocks: seq<Clock>, owners: seq<Owner>, tasks: map<nat, ReverseTask>, v: map<nat, Task>, repr: set<object>, sid: nat)
    requires CapturesOk(socks, clocks, owners, tasks, repr) && TasksOk(tasks, v)
    ensures CapturesOk(socks, clocks, owners, tasks - {sid}, repr)
    ensures TasksOk(tasks - {sid}, v - {sid})
  {
    hide Captured;
  }

  lemma ObjectsGrow(socks: seq<Socket>, clocks: seq<Clock>, repr: set<object>, out: Socket, last: Clock)
    requires ObjectsOk(socks, clocks, repr) && out.id == |socks| && last !in repr
    ensures ObjectsOk(socks + [out], clocks + [last], repr + {out, last})
  {
  }

  lemma ObjectsMore(socks: seq<Socket>, clocks: seq<Clock>, repr: set<object>, more: set<object>)
    requires ObjectsOk(socks, clocks, repr) && repr <= more
    ensures ObjectsOk(socks, clocks, more)
  {
  }

  lemma SessionsGrow(socks: seq<Socket>, clocks: seq<Clock>, xs: seq<Session>, out: Socket, last: Clock, x: Session)
    requires SessionsOk(socks, clocks, xs) && Shows(out, last, x)
    ensures SessionsOk(socks + [out], clocks + [last], xs + [x])
  {
    var ss, cs, ys := socks + [out], clocks + [last], xs + [x];
    forall i | 0 <= i < |ss| ensures Shows(ss[i], cs[i], ys[i]) {
      if i < |socks| {
        assert Shows(socks[i], clocks[i], xs[i]);
      }
    }
  }

  lemma SessionAt(socks: seq<Socket>, clocks: seq<Clock>, xs: seq<Session>, sid: nat)
    requires SessionsOk(socks, clocks, xs) && sid < |xs|
    ensures |socks| == |clocks| == |xs| && Shows(socks[sid], clocks[sid], xs[sid])
  {
  }

  /** A new session with a new socket and a new clock. */
  lemma AllGrow(socks: seq<Socket>, clocks: seq<Clock>, owners: seq<Owner>, maps: seq<map<Address, Handle>>, s: State,
                tasks: map<nat, ReverseTask>, repr: set<object>, out: Socket, last: Clock, x: Session)
    requires ObjectsOk(socks, clocks, repr) && OwnersOk(owners, s.sessions) && EntriesOk(socks, clocks, maps, s.maps)
    requires SessionsOk(socks, clocks, s.sessions) && CapturesOk(socks, clocks, owners, tasks, repr)
    requires |socks| == |clocks| && out.id == |socks| && last !in repr && last.stores == [last.last]
    requires out.sent == out.heard == out.passedOn == [] && out.passedTo == {}
    requires x == Session(x.gen, x.peer, out.target, last.last, [last.last], [], [], [], {})
    ensures ObjectsOk(socks + [out], clocks + [last], repr + {out, last})
    ensures OwnersOk(owners + [Owner(x.gen, x.peer)], s.sessions + [x])
    ensures EntriesOk(socks + [out], clocks + [last], maps, s.maps)
    ensures SessionsOk(socks + [out], clocks + [last], s.sessions + [x])
    ensures CapturesOk(socks + [out], clocks + [last], owners + [Owner(x.gen, x.peer)], tasks, repr + {out, last})
    ensures Refers(socks + [out], clocks + [last], Handle(out, last), |socks|)
  {
    hide ObjectsOk, OwnersOk, EntriesOk, SessionsOk, CapturesOk, Shows;
    ObjectsGrow(socks, clocks, repr, out, last);
    OwnersGrow(owners, s.sessions, x);
    EntriesGrow(socks, clocks, maps, s.maps, out, last);
    NewShows(out, last, x);
    SessionsGrow(socks, clocks, s.sessions, out, last, x);
    CapturesGrow(socks, clocks, owners, tasks, repr, out, last, Owner(x.gen, x.peer), repr + {out, last});
    NewestRefers(socks, clocks, out, last);
  }

  /** A task spawned by the loop captures what the loop holds. */
  lemma AllSpawn(socks: seq<Socket>, clocks: seq<Clock>, owners: seq<Owner>, s: State, tasks: map<nat, ReverseTask>, repr: set<object>, t: ReverseTask)
    requires Sane(s) && LoopInv(s) && s.loop.Guarded? && t.peer == s.loop.peer && t.gen == |s.maps| - 1
    requires ObjectsOk(socks, clocks, repr) && OwnersOk(owners, s.sessions)
    requires CapturesOk(socks, clocks, owners, tasks, repr) && TasksOk(tasks, s.tasks) && Refers(socks, clocks, t.handle, s.loop.sid)
    ensures ObjectsOk(socks, clocks, repr + {t})
    ensures CapturesOk(socks, clocks, owners, tasks[s.loop.sid := t], repr + {t})
    ensures TasksOk(tasks[s.loop.sid := t], s.tasks[s.loop.sid := t.pc])
  {
    OwnerAt(owners, s.sessions, s.loop.sid);
    ObjectsMore(socks, clocks, repr, repr + {t});
    TasksSpawn(socks, clocks, owners, tasks, s.tasks, repr, s.loop.sid, t);
    hide ObjectsOk, OwnersOk, CapturesOk, TasksOk;
  }

  /** Tasks of different sessions are different objects. */
  lemma TasksDiffer(socks: seq<Socket>, clocks: seq<Clock>, owners: seq<Owner>, tasks: map<nat, ReverseTask>, repr: set<object>, a: nat, b: nat)
    requires ObjectsOk(socks, clocks, repr) && CapturesOk(socks, clocks, owners, tasks, repr) && a in tasks && b in tasks && a != b
    ensures tasks[a] != tasks[b]
  {
    assert Captured(socks, clocks, owners, tasks[a], a) && Captured(socks, clocks, owners, tasks[b], b);
  }

  class Server {
    const targets: nat
    var rr: nat
    var now: nat
    var serial: nat
    var maps: seq<map<Address, Handle>>
    var loop: Receiving
    var tasks: map<nat, ReverseTask>
    var accepted: nat
    var active: int
    var ended: nat
    var errors: nat
    ghost var socks: seq<Socket>
    ghost var clocks: seq<Clock>
    ghost var owners: seq<Owner>
    ghost var view: State
    ghost var Repr: set<object>

    ghost predicate Counts()
      reads this
    {
      && view.targets == targets && view.rr == rr && view.now == now && |socks| == serial && this !in Repr
      && view.accepted == accepted && view.active == active && view.ended == ended && view.errors == errors
    }

    /** The heap represents `view`. */
    ghost predicate Valid()
      reads this, Repr
    {
      && Counts() && ObjectsOk(socks, clocks, Repr) && OwnersOk(owners, view.sessions)
      && EntriesOk(socks, clocks, maps, view.maps)
      && SessionsOk(socks, clocks, view.sessions)
      && CapturesOk(socks, clocks, owners, tasks, Repr) && TasksOk(tasks, view.tasks)
      && LoopOk(socks, clocks, loop, view.loop)
    }

    constructor (targets: nat)
      ensures Valid() && view == Init(targets) && fresh(Repr)
    {
      this.targets := targets;
      rr, now, serial, maps, loop, tasks := 0, 0, 0, [map[]], Resting, map[];
      accepted, active, ended, errors := 0, 0, 0, 0;
      socks, clocks, owners, view, Repr := [], [], [], Init(targets), {};
    }

    // ----- changes to one object -----

    /** Move a task on. */
    method SetPc(sid: nat, pc: Task)
      requires Valid() && sid in tasks
      modifies tasks[sid]
      ensures TasksOk(tasks, view.tasks[sid := pc]) && SessionsOk(socks, clocks, view.sessions)
    {
      hide EntriesOk, OwnersOk, LoopOk, ObjectsOk, CapturesOk, SessionsOk;
      forall k | k in tasks && k != sid ensures tasks[k] != tasks[sid] {
        TasksDiffer(socks, clocks, owners, tasks, Repr, k, sid);
      }
      tasks[sid].pc := pc;
    }

    /** Store the time in a session's clock: whoever shares the clock sees it. */
    method StoreTime(last: Clock, ghost sid: nat)
      requires Valid() && sid < |view.sessions| && sid < |clocks| && clocks[sid] == last
      modifies last
      ensures SessionsOk(socks, clocks, Stamp(view, sid).sessions) && TasksOk(tasks, view.tasks)
    {
      hide EntriesOk, OwnersOk, LoopOk, CapturesOk, ObjectsOk, TasksOk;
      ObjectsDiffer(socks, clocks, Repr);
      last.Store(now);
    }

    /** One more datagram out on a socket. */
    method SendOn(out: Socket, data: Datagram, ghost sid: nat)
      requires Valid() && sid < |view.sessions| && sid < |socks| && socks[sid] == out
      modifies out
      ensures var x := view.sessions[sid]; SessionsOk(socks, clocks, view.sessions[sid := x.(sent := x.sent + [data])])
      ensures TasksOk(tasks, view.tasks)
    {
      hide EntriesOk, OwnersOk, LoopOk, CapturesOk, ObjectsOk, TasksOk;
      ObjectsDiffer(socks, clocks, Repr);
      out.sent := out.sent + [data];
    }

    /** One more datagram read from a socket. */
    method HearOn(out: Socket, data: Datagram, ghost sid: nat)
      requires Valid() && sid < |view.sessions| && sid < |socks| && socks[sid] == out
      modifies out
      ensures var x := view.sessions[sid]; SessionsOk(socks, clocks, view.sessions[sid := x.(heard := x.heard + [data])])
      ensures TasksOk(tasks, view.tasks)
    {
      hide EntriesOk, OwnersOk, LoopOk, CapturesOk, ObjectsOk, TasksOk;
      ObjectsDiffer(socks, clocks, Repr);
      out.heard := out.heard + [data];
    }

    /** One more datagram passed on from a socket to `peer`. */
    method PassOn(out: Socket, data: Datagram, peer: Address, ghost sid: nat)
      requires Valid() && sid < |view.sessions| && sid < |socks| && socks[sid] == out
      modifies out
      ensures var x := view.sessions[sid];
        SessionsOk(socks, clocks, view.sessions[sid := x.(replied := x.replied + [data], repliedTo := x.repliedTo + {peer})])
      ensures TasksOk(tasks, view.tasks)
    {
      hide EntriesOk, OwnersOk, LoopOk, CapturesOk, ObjectsOk, TasksOk;
      ObjectsDiffer(socks, clocks, Repr);
      out.passedOn := out.passedOn + [data];
      out.passedTo := out.passedTo + {peer};
    }

    lemma Lengths()
      requires Valid()
      ensures |socks| == |clocks| == |owners| == |view.sessions|
    {
    }

    // ----- the receive loop -----

    method Tick(ms: nat)
      requires Valid() && Sane(view)
      modifies this
      ensures Valid() && view == Apply(old(view), Step.Tick(ms)) && Repr == old(Repr)
    {
      hide ObjectsOk, OwnersOk, EntriesOk, SessionsOk, CapturesOk, TasksOk;
      now := now + ms;
      view := Apply(view, Step.Tick(ms));
    }

    method Receive(peer: Address, data: Datagram)
      requires Valid() && Sane(view) && loop.Resting?
      modifies this
      ensures Valid() && view == Apply(old(view), Step.Receive(peer, data)) && Repr == old(Repr)
    {
      hide ObjectsOk, OwnersOk, EntriesOk, SessionsOk, CapturesOk, TasksOk, Refers, Sane;
      loop := Fetched(peer, data);
      view := Apply(view, Step.Receive(peer, data));
    }

    method ReceiveFails()
      requires Valid() && Sane(view) && loop.Resting?
      modifies this
      ensures Valid() && view == Apply(old(view), Step.ReceiveFails) && Repr == old(Repr)
    {
      hide ObjectsOk, OwnersOk, EntriesOk, SessionsOk, CapturesOk, TasksOk, Refers, Sane;
      errors := errors + 1;
      view := Apply(view, Step.ReceiveFails);
    }

    /** `pick_target`. */
    method PickTarget() returns (i: nat)
      requires targets > 0
      modifies this`rr
      ensures i == PickIndex(old(rr), targets) && rr == Advance(old(rr), targets)
    {
      i := 0;
      if targets != 1 {
        i := rr % targets;
        rr := (rr + 1) % WORD;
      }
    }

    /** `lookup`, which clones the handles out of the map, or else `pick_target`. */
    method LookUp()
      requires Valid() && Sane(view) && loop.Fetched?
      modifies this
      ensures Valid() && view == Apply(old(view), Lookup) && Repr == old(Repr)
    {
      hide ObjectsOk, OwnersOk, EntriesOk, SessionsOk, CapturesOk, TasksOk, Refers, Sane;
      EntriesLength(socks, clocks, maps, view.maps);
      SaneMaps(view);
      var m := maps[|maps| - 1];
      EntryRefers(socks, clocks, maps, view.maps, |maps| - 1, loop.peer);
      if loop.peer in m {
        HandleId(socks, clocks, Repr, m[loop.peer], Current(view)[loop.peer]);
        loop := Using(AtHolding, loop.peer, loop.data, m[loop.peer]);
      } else {
        var i := PickTarget();
        loop := Connecting(loop.peer, loop.data, i);
      }
      view := Apply(view, Lookup);
    }

    method OpenFails()
      requires Valid() && Sane(view) && loop.Connecting?
      modifies this
      ensures Valid() && view == Apply(old(view), Step.OpenFails) && Repr == old(Repr)
    {
      hide ObjectsOk, OwnersOk, EntriesOk, SessionsOk, CapturesOk, TasksOk, Refers, Sane;
      errors := errors + 1;
      loop := Resting;
      view := Apply(view, Step.OpenFails);
    }

    /** A new socket and a new clock. */
    method Open()
      requires Valid() && Sane(view) && loop.Connecting?
      modifies this
      ensures Valid() && view == Apply(old(view), OpenWorks) && fresh(Repr - old(Repr))
    {
      hide ObjectsOk, OwnersOk, EntriesOk, SessionsOk, CapturesOk, TasksOk, Refers, Sane, Shows, Apply, Captured;
      Lengths();
      SaneMaps(view);
      OpenView(view);
      ghost var x := Session(|view.maps| - 1, loop.peer, loop.target, now, [now], [], [], [], {});
      var out := new Socket(serial, loop.target);
      var last := new Clock(now);
      AllGrow(socks, clocks, owners, maps, view, tasks, Repr, out, last, x);
      loop := Using(AtOpened, loop.peer, loop.data, Handle(out, last));
      serial := serial + 1;
      socks, clocks, owners, Repr := socks + [out], clocks + [last], owners + [Owner(x.gen, x.peer)], Repr + {out, last};
      view := Apply(view, OpenWorks);
    }

    /** Put a copy of the handles into the map. */
    method Insert()
      requires Valid() && Sane(view) && loop.Using? && loop.stage == AtOpened
      modifies this
      ensures Valid() && view == Apply(old(view), Step.Insert) && Repr == old(Repr)
    {
      hide ObjectsOk, OwnersOk, EntriesOk, SessionsOk, CapturesOk, TasksOk;
      EntriesLength(socks, clocks, maps, view.maps);
      var g := |maps| - 1;
      ghost var sid := loop.handle.out.id;
      EntryRefers(socks, clocks, maps, view.maps, g, loop.peer);
      MapInsert(socks, clocks, maps[g], view.maps[g], loop.peer, loop.handle, sid);
      EntriesSet(socks, clocks, maps, view.maps, g, maps[g][loop.peer := loop.handle], view.maps[g][loop.peer := sid]);
      maps := maps[g := maps[g][loop.peer := loop.handle]];
      loop := loop.(stage := AtInserted);
      view := Apply(view, Step.Insert);
    }

    /** The first increment of `on_accept`. */
    method CountAccepted()
      requires Valid() && Sane(view) && loop.Using? && loop.stage == AtInserted
      modifies this
      ensures Valid() && view == Apply(old(view), Step.CountAccepted) && Repr == old(Repr)
    {
      hide ObjectsOk, OwnersOk, EntriesOk, SessionsOk, CapturesOk, TasksOk, Refers, Sane;
      accepted := accepted + 1;
      loop := loop.(stage := AtCounted);
      view := Apply(view, Step.CountAccepted);
    }

    /** The second increment of `on_accept`. */
    method CountActive()
      requires Valid() && Sane(view) && loop.Using? && loop.stage == AtCounted
      modifies this
      ensures Valid() && view == Apply(old(view), Step.CountActive) && Repr == old(Repr)
    {
      hide ObjectsOk, OwnersOk, EntriesOk, SessionsOk, CapturesOk, TasksOk, Refers, Sane;
      active := active + 1;
      loop := loop.(stage := AtGuarded);
      view := Apply(view, Step.CountActive);
    }

    /** `spawn_reverse`: the task captures the map, the peer and the same two objects. */
    method SpawnReverse()
      requires Valid() && Sane(view) && LoopInv(view) && loop.Using? && loop.stage == AtGuarded
      modifies this
      ensures Valid() && view == Apply(old(view), Spawn) && fresh(Repr - old(Repr))
    {
      hide ObjectsOk, OwnersOk, EntriesOk, SessionsOk, CapturesOk, TasksOk, Sane, LoopInv, Refers, Apply;
      SaneMaps(view);
      EntriesLength(socks, clocks, maps, view.maps);
      SpawnView(view);
      var t := new ReverseTask(|maps| - 1, loop.peer, loop.handle, Task.Waiting(now));
      AllSpawn(socks, clocks, owners, view, tasks, Repr, t);
      tasks := tasks[loop.handle.out.id := t];
      loop := loop.(stage := AtHolding);
      Repr := Repr + {t};
      view := Apply(view, Spawn);
    }

    /** Store the time in the clock in hand: the map entry and the reverse task see it too. */
    method Touch()
      requires Valid() && Sane(view) && loop.Using? && loop.stage == AtHolding
      modifies this, loop.handle.last
      ensures Valid() && view == Apply(old(view), Step.Touch) && Repr == old(Repr)
    {
      hide ObjectsOk, OwnersOk, EntriesOk, SessionsOk, CapturesOk, TasksOk;
      ghost var sid := loop.handle.out.id;
      Lengths();
      OwnersKeep(owners, view.sessions, sid, Stamp(view, sid).sessions[sid]);
      StoreTime(loop.handle.last, sid);
      loop := loop.(stage := AtSending);
      view := Apply(view, Step.Touch);
    }

    /** Send on the socket in hand; the outcome is only logged. */
    method Send()
      requires Valid() && Sane(view) && loop.Using? && loop.stage == AtSending
      modifies this, loop.handle.out
      ensures Valid() && view == Apply(old(view), Step.Send) && Repr == old(Repr)
    {
      hide ObjectsOk, OwnersOk, EntriesOk, SessionsOk, CapturesOk, TasksOk;
      ghost var sid := loop.handle.out.id;
      Lengths();
      ghost var x := view.sessions[sid];
      OwnersKeep(owners, view.sessions, sid, x.(sent := x.sent + [loop.data]));
      SendOn(loop.handle.out, loop.data, sid);
      loop := Resting;
      view := Apply(view, Step.Send);
    }

    /** The serve future is dropped and started anew: a fresh map and counter; tasks and stats live on. */
    method Restart()
      requires Valid() && Sane(view) && AtAwait(view.loop)
      modifies this
      ensures Valid() && view == Apply(old(view), Step.Restart) && Repr == old(Repr)
    {
      hide ObjectsOk, OwnersOk, EntriesOk, SessionsOk, CapturesOk, TasksOk;
      EntriesPush(socks, clocks, maps, view.maps);
      maps, rr, loop := maps + [map[]], 0, Resting;
      view := Apply(view, Step.Restart);
    }

    // ----- a reverse task -----

    method Hear(sid: nat, data: Datagram)
      requires Valid() && Sane(view) && sid in tasks && tasks[sid].pc.Waiting?
      modifies this, tasks[sid], tasks[sid].handle.out
      ensures Valid() && view == Apply(old(view), Step.Hear(sid, data)) && Repr == old(Repr)
    {
      hide ObjectsOk, OwnersOk, EntriesOk, SessionsOk, CapturesOk, TasksOk;
      var t := tasks[sid];
      TaskAt(tasks, view.tasks, sid);
      CapturedAt(socks, clocks, owners, tasks, Repr, sid);
      Lengths();
      ghost var x := view.sessions[sid];
      OwnersKeep(owners, view.sessions, sid, x.(heard := x.heard + [data]));
      HearOn(t.handle.out, data, sid);
      ghost var heard := view.(sessions := view.sessions[sid := x.(heard := x.heard + [data])]);
      view := heard;
      SetPc(sid, Received(data));
      view := Apply(old(view), Step.Hear(sid, data));
    }

    method TouchBack(sid: nat)
      requires Valid() && Sane(view) && sid in tasks && tasks[sid].pc.Received?
      modifies this, tasks[sid], tasks[sid].handle.last
      ensures Valid() && view == Apply(old(view), Step.TouchBack(sid)) && Repr == old(Repr)
    {
      hide ObjectsOk, OwnersOk, EntriesOk, SessionsOk, CapturesOk, TasksOk;
      var t := tasks[sid];
      TaskAt(tasks, view.tasks, sid);
      CapturedAt(socks, clocks, owners, tasks, Repr, sid);
      Lengths();
      var data := t.pc.data;
      OwnersKeep(owners, view.sessions, sid, Stamp(view, sid).sessions[sid]);
      StoreTime(t.handle.last, sid);
      view := Stamp(view, sid);
      SetPc(sid, Replying(data));
      view := Apply(old(view), Step.TouchBack(sid));
    }

    /** Pass the reply to the captured peer; a failure ends the task, success re-arms the timer. */
    method Reply(sid: nat, ok: bool)
      requires Valid() && Sane(view) && sid in tasks && tasks[sid].pc.Replying?
      modifies this, tasks[sid], tasks[sid].handle.out
      ensures Valid() && view == Apply(old(view), Step.Reply(sid, ok)) && Repr == old(Repr)
    {
      hide ObjectsOk, OwnersOk, EntriesOk, SessionsOk, CapturesOk, TasksOk;
      var t := tasks[sid];
      TaskAt(tasks, view.tasks, sid);
      CapturedAt(socks, clocks, owners, tasks, Repr, sid);
      Lengths();
      OwnerAt(owners, view.sessions, sid);
      var data := t.pc.data;
      ghost var x := view.sessions[sid];
      ghost var y := x.(replied := x.replied + [data], repliedTo := x.repliedTo + {t.peer});
      OwnersKeep(owners, view.sessions, sid, y);
      PassOn(t.handle.out, data, t.peer, sid);
      view := view.(sessions := view.sessions[sid := y]);
      SetPc(sid, if ok then Task.Waiting(now) else Closing);
      view := Apply(old(view), Step.Reply(sid, ok));
    }

    method HearFails(sid: nat)
      requires Valid() && Sane(view) && sid in tasks && tasks[sid].pc.Waiting?
      modifies this, tasks[sid]
      ensures Valid() && view == Apply(old(view), Step.HearFails(sid)) && Repr == old(Repr)
    {
      hide ObjectsOk, OwnersOk, EntriesOk, SessionsOk, CapturesOk, TasksOk;
      TaskAt(tasks, view.tasks, sid);
      SetPc(sid, Closing);
      view := Apply(view, Step.HearFails(sid));
    }

    /** The timer branch up to reading the time. */
    method Fire(sid: nat)
      requires Valid() && Sane(view) && sid in tasks && tasks[sid].pc.Waiting? && tasks[sid].pc.armed + TTL <= now
      modifies this, tasks[sid]
      ensures Valid() && view == Apply(old(view), Step.Fire(sid)) && Repr == old(Repr)
    {
      hide ObjectsOk, OwnersOk, EntriesOk, SessionsOk, CapturesOk, TasksOk;
      TaskAt(tasks, view.tasks, sid);
      SetPc(sid, Judging(now));
      view := Apply(view, Step.Fire(sid));
    }

    /** Load the shared clock, subtract with saturation, compare with the lifetime. */
    method Judge(sid: nat)
      requires Valid() && Sane(view) && sid in tasks && tasks[sid].pc.Judging?
      modifies this, tasks[sid]
      ensures Valid() && view == Apply(old(view), Step.Judge(sid)) && Repr == old(Repr)
    {
      hide ObjectsOk, OwnersOk, EntriesOk, SessionsOk, CapturesOk, TasksOk;
      var t := tasks[sid];
      TaskAt(tasks, view.tasks, sid);
      CapturedAt(socks, clocks, owners, tasks, Repr, sid);
      Lengths();
      SessionAt(socks, clocks, view.sessions, sid);
      var last := t.handle.last.last;
      var idle := if t.pc.clock >= last then t.pc.clock - last else 0;
      SetPc(sid, if idle >= TTL then Closing else Task.Waiting(now));
      view := Apply(view, Step.Judge(sid));
    }

    /** Remove the captured peer from the captured map. */
    method Remove(sid: nat)
      requires Valid() && Sane(view) && sid in tasks && tasks[sid].pc.Closing?
      modifies this, tasks[sid]
      ensures Valid() && view == Apply(old(view), Step.Remove(sid)) && Repr == old(Repr)
    {
      hide ObjectsOk, OwnersOk, EntriesOk, SessionsOk, CapturesOk, TasksOk;
      var t := tasks[sid];
      TaskAt(tasks, view.tasks, sid);
      CapturedAt(socks, clocks, owners, tasks, Repr, sid);
      Lengths();
      OwnerAt(owners, view.sessions, sid);
      EntriesLength(socks, clocks, maps, view.maps);
      EntryRefers(socks, clocks, maps, view.maps, t.gen, t.peer);
      MapRemove(socks, clocks, maps[t.gen], view.maps[t.gen], t.peer);
      EntriesSet(socks, clocks, maps, view.maps, t.gen, maps[t.gen] - {t.peer}, view.maps[t.gen] - {t.peer});
      SetPc(sid, Removed);
      maps := maps[t.gen := maps[t.gen] - {t.peer}];
      view := Apply(view, Step.Remove(sid));
    }

    /** The task ends and its guard is dropped. */
    method DropGuard(sid: nat)
      requires Valid() && Sane(view) && sid in tasks && tasks[sid].pc.Removed?
      modifies this
      ensures Valid() && view == Apply(old(view), Step.DropGuard(sid)) && Repr == old(Repr)
    {
      hide ObjectsOk, OwnersOk, EntriesOk, SessionsOk, CapturesOk, TasksOk;
      TaskAt(tasks, view.tasks, sid);
      TasksDrop(socks, clocks, owners, tasks, view.tasks, Repr, sid);
      tasks := tasks - {sid};
      active := active - 1;
      ended := ended + 1;
      view := Apply(view, Step.DropGuard(sid));
    }

    // ----- any interleaving -----

    /** Take one step of one task, if it is possible now. */
    method Take(step: Step)
      requires Valid() && Sane(view) && LoopInv(view)
      modifies this, Repr
      ensures Valid() && view == Apply(old(view), step) && fresh(Repr - old(Repr))
    {
      hide Sane, LoopInv, ObjectsOk, OwnersOk, EntriesOk, SessionsOk, CapturesOk, TasksOk, Counts;
      Members();
      if ByTask(step) {
        TakeTask(step);
      } else {
        TakeLoop(step);
      }
    }

    /** Everything the steps change is part of the representation. */
    lemma Members()
      requires Valid()
      ensures forall sid :: sid in tasks ==> tasks[sid] in Repr && tasks[sid].handle.out in Repr && tasks[sid].handle.last in Repr
      ensures loop.Using? ==> loop.handle.out in Repr && loop.handle.last in Repr
      ensures tasks.Keys == view.tasks.Keys && forall sid :: sid in tasks ==> tasks[sid].pc == view.tasks[sid]
      ensures now == view.now
    {
      forall sid | sid in tasks ensures tasks[sid] in Repr && tasks[sid].handle.out in Repr && tasks[sid].handle.last in Repr {
        CapturedAt(socks, clocks, owners, tasks, Repr, sid);
      }
    }

    method TakeLoop(step: Step)
      requires Valid() && Sane(view) && LoopInv(view) && !ByTask(step)
      modifies this, Repr
      ensures Valid() && view == Apply(old(view), step) && fresh(Repr - old(Repr))
    {
      hide Sane, LoopInv, ObjectsOk, OwnersOk, EntriesOk, SessionsOk, CapturesOk, TasksOk, Counts;
      Members();
      match step {
        case Tick(ms) => Tick(ms);
        case Receive(peer, data) =>
          if loop.Resting? {
            Receive(peer, data);
          }
        case ReceiveFails =>
          if loop.Resting? {
            ReceiveFails();
          }
        case Lookup =>
          if loop.Fetched? {
            LookUp();
          }
        case Touch =>
          if loop.Using? && loop.stage == AtHolding {
            Touch();
          }
        case Send =>
          if loop.Using? && loop.stage == AtSending {
            Send();
          }
        case OpenFails =>
          if loop.Connecting? {
            OpenFails();
          }
        case OpenWorks =>
          if loop.Connecting? {
            Open();
          }
        case Insert =>
          if loop.Using? && loop.stage == AtOpened {
            Insert();
          }
        case CountAccepted =>
          if loop.Using? && loop.stage == AtInserted {
            CountAccepted();
          }
        case CountActive =>
          if loop.Using? && loop.stage == AtCounted {
            CountActive();
          }
        case Spawn =>
          if loop.Using? && loop.stage == AtGuarded {
            SpawnReverse();
          }
        case Restart =>
          if loop.Resting? || loop.Connecting? || (loop.Using? && loop.stage == AtSending) {
            Restart();
          }
      }
    }

    method TakeTask(step: Step)
      requires Valid() && Sane(view) && ByTask(step)
      modifies this, Repr
      ensures Valid() && view == Apply(old(view), step) && Repr == old(Repr)
    {
      hide Sane, ObjectsOk, OwnersOk, EntriesOk, SessionsOk, CapturesOk, TasksOk, Counts;
      Members();
      if step.sid !in tasks {
        return;
      }
      var pc := tasks[step.sid].pc;
      match step {
        case Hear(sid, data) =>
          if pc.Waiting? {
            Hear(sid, data);
          }
        case TouchBack(sid) =>
          if pc.Received? {
            TouchBack(sid);
          }
        case Reply(sid, ok) =>
          if pc.Replying? {
            Reply(sid, ok);
          }
        case HearFails(sid) =>
          if pc.Waiting? {
            HearFails(sid);
          }
        case Fire(sid) =>
          if pc.Waiting? && pc.armed + TTL <= now {
            Fire(sid);
          }
        case Judge(sid) =>
          if pc.Judging? {
            Judge(sid);
          }
        case Remove(sid) =>
          if pc.Closing? {
            Remove(sid);
          }
        case DropGuard(sid) =>
          if pc.Removed? {
            DropGuard(sid);
          }
      }
    }

    /** Every interleaving of the tasks reaches the state the schedule determines. */
    method Run(schedule: seq<Step>)
      requires Valid() && Inv(view)
      modifies this, Repr
      ensures Valid() && Inv(view) && view == Exec(old(view), schedule)
    {
      hide Inv, Apply, Sane, LoopInv, Valid;
      var i := 0;
      assert schedule[0..] == schedule;
      while i < |schedule|
        invariant 0 <= i <= |schedule| && Valid() && fresh(Repr - old(Repr))
        invariant Inv(view) && Exec(view, schedule[i..]) == Exec(old(view), schedule)
      {
        SaneAndKept(view, schedule[i]);
        assert schedule[i..][0] == schedule[i] && schedule[i..][1..] == schedule[i + 1..];
        Take(schedule[i]);
        i := i + 1;
      }
    }
  }

  lemma SaneAndKept(s: State, step: Step)
    requires Inv(s)
    ensures Sane(s) && LoopInv(s) && Inv(Apply(s, step))
  {
    ApplyKeepsInv(s, step);
  }
}
