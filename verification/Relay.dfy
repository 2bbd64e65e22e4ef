/** The bidirectional relay: two copy loops, the first to finish ends both.

    Everything the outside decides is an `Event`: how many bytes a read returns, how many a write
    takes, when a source closes, when a call fails. A schedule is any sequence of such events for
    either direction; one that cannot happen in the current state changes nothing. */
module Relay {
  import opened Common

  datatype Pc = Reading | Writing | EndedOk | EndedErr

  /** One direction: `input` is what its source has sent so far, `consumed` how much of it was read,
      `pending` what was read and not yet written, `chunk` the size of the last read. */
  datatype Dir = Dir(
    input: Bytes, closed: bool, consumed: nat, delivered: Bytes, pending: Bytes, chunk: nat, total: nat, pc: Pc)

  datatype Event = Arrive(data: Bytes) | Close | Read(n: nat) | ReadFails | Write(k: nat) | WriteFails

  const START := Dir("", false, 0, "", "", 0, 0, Reading)

  predicate Ended(d: Dir) {
    d.pc.EndedOk? || d.pc.EndedErr?
  }

  /** One event of `copy_one` with a buffer of `size` bytes. */
  function Step(d: Dir, size: nat, ev: Event): Dir
    requires d.consumed <= |d.input|
  {
    match ev
    case Arrive(data) => if d.closed then d else d.(input := d.input + data)
    case Close => d.(closed := true)
    case Read(n) =>
      if !d.pc.Reading? then d
      else
        var m := Min(Min(n, size), |d.input| - d.consumed);
        if m > 0 then
          d.(consumed := d.consumed + m, pending := d.input[d.consumed..d.consumed + m], chunk := m, pc := Writing)
        else if size == 0 || (d.closed && d.consumed == |d.input|) then d.(pc := EndedOk)
        else d
    case ReadFails => if d.pc.Reading? then d.(pc := EndedErr) else d
    case Write(k) =>
      if !d.pc.Writing? then d
      else if k == 0 then d.(pc := EndedErr)
      else
        var m := Min(k, |d.pending|);
        var d' := d.(delivered := d.delivered + d.pending[..m], pending := d.pending[m..]);
        if d'.pending == "" then d'.(total := d.total + d.chunk, pc := Reading) else d'
    case WriteFails => if d.pc.Writing? then d.(pc := EndedErr) else d
  }

  /** Where one direction can be. */
  ghost predicate DirInv(d: Dir, size: nat) {
    && d.consumed <= |d.input|
    && d.delivered + d.pending == d.input[..d.consumed]
    && |d.pending| <= size
    && match d.pc
       case Reading => d.pending == "" && d.total == |d.delivered|
       case Writing => 0 < |d.pending| <= d.chunk && d.total + d.chunk == |d.delivered| + |d.pending|
       case EndedOk => d.pending == "" && d.total == |d.delivered| && (size > 0 ==> d.closed && d.consumed == |d.input|)
       case EndedErr => d.total <= |d.delivered|
  }

  lemma StepKeepsInv(d: Dir, size: nat, ev: Event)
    requires DirInv(d, size) && !Ended(d)
    ensures DirInv(Step(d, size, ev), size)
  {
    match ev
    case Arrive(data) =>
      SliceConcat(d.input, data, d.consumed);
    case Read(n) =>
      var d' := Step(d, size, ev);
      if d.pc.Reading? && d'.pc.Writing? {
        assert d.delivered == d.input[..d.consumed];
        assert d.input[..d'.consumed] == d.input[..d.consumed] + d'.pending;
      }
    case Write(k) =>
      if d.pc.Writing? && k > 0 {
        var m := Min(k, |d.pending|);
        assert d.pending == d.pending[..m] + d.pending[m..];
        Assoc(d.delivered, d.pending[..m], d.pending[m..]);
      }
    case _ =>
  }

  // ----- both directions -----

  datatype Side = AToB | BToA

  datatype Relay = Relay(size: nat, ab: Dir, ba: Dir)

  datatype Turn = Turn(side: Side, event: Event)

  /** `transport` is over as soon as one direction has ended; the other is cancelled where it stands. */
  predicate Over(r: Relay) {
    Ended(r.ab) || Ended(r.ba)
  }

  predicate InBounds(r: Relay) {
    r.ab.consumed <= |r.ab.input| && r.ba.consumed <= |r.ba.input|
  }

  function Apply(r: Relay, t: Turn): (r': Relay)
    requires InBounds(r)
    ensures InBounds(r') && r'.size == r.size
  {
    if Over(r) then r
    else if t.side == AToB then r.(ab := Step(r.ab, r.size, t.event))
    else r.(ba := Step(r.ba, r.size, t.event))
  }

  function Exec(r: Relay, schedule: seq<Turn>): (r': Relay)
    requires InBounds(r)
    ensures InBounds(r') && r'.size == r.size
    decreases |schedule|
  {
    if schedule == [] then r else Exec(Apply(r, schedule[0]), schedule[1..])
  }

  function Init(size: nat): Relay {
    Relay(size, START, START)
  }

  ghost predicate Inv(r: Relay) {
    DirInv(r.ab, r.size) && DirInv(r.ba, r.size) && !(Ended(r.ab) && Ended(r.ba))
  }

  lemma {:induction false} ExecKeepsInv(r: Relay, schedule: seq<Turn>)
    requires Inv(r)
    ensures Inv(Exec(r, schedule))
    decreases |schedule|
  {
    if schedule != [] {
      var t := schedule[0];
      if !Over(r) {
        StepKeepsInv(if t.side == AToB then r.ab else r.ba, r.size, t.event);
      }
      ExecKeepsInv(Apply(r, t), schedule[1..]);
    }
  }

  function Of(r: Relay, side: Side): Dir {
    if side == AToB then r.ab else r.ba
  }

  /** In every interleaving: a destination has received a prefix of its source; what was read is
      exactly what was delivered followed by what is in the buffer; and the running total is the
      number of bytes delivered whenever the loop is at its head. */
  lemma RelayIsFaithful(size: nat, schedule: seq<Turn>, side: Side)
    ensures var d := Of(Exec(Init(size), schedule), side);
      && d.delivered <= d.input
      && d.consumed <= |d.input| && d.delivered + d.pending == d.input[..d.consumed]
      && |d.pending| <= size
      && (d.pc.Reading? ==> d.pending == "" && d.total == |d.delivered|)
  {
    ExecKeepsInv(Init(size), schedule);
    var d := Of(Exec(Init(size), schedule), side);
    assert d.delivered == d.input[..|d.delivered|] by {
      assert d.delivered == (d.delivered + d.pending)[..|d.delivered|];
    }
  }

  /** In every run at most one direction ends. */
  lemma AtMostOneEnds(size: nat, schedule: seq<Turn>)
    ensures var r := Exec(Init(size), schedule); !(Ended(r.ab) && Ended(r.ba))
  {
    ExecKeepsInv(Init(size), schedule);
  }

  /** Once one direction has ended nothing moves any more. */
  lemma {:induction false} FirstToFinishWins(r: Relay, more: seq<Turn>)
    requires InBounds(r) && Over(r)
    ensures Exec(r, more) == r
    decreases |more|
  {
    if more != [] {
      FirstToFinishWins(r, more[1..]);
    }
  }

  /** A direction that ends without error has delivered everything its source sent. */
  ghost predicate OkMeansComplete(size: nat) {
    forall schedule: seq<Turn>, side: Side ::
      var d := Of(Exec(Init(size), schedule), side);
      d.pc.EndedOk? ==> d.closed && d.delivered == d.input && d.total == |d.input|
  }

  /** That holds exactly for a non-empty buffer: with an empty one every read returns zero bytes and
      is taken for the end of the stream. */
  lemma OkMeansCompleteIff(size: nat)
    ensures OkMeansComplete(size) <==> size > 0
  {
    if size > 0 {
      forall schedule: seq<Turn>, side: Side ensures
        var d := Of(Exec(Init(size), schedule), side);
        d.pc.EndedOk? ==> d.closed && d.delivered == d.input && d.total == |d.input|
      {
        ExecKeepsInv(Init(size), schedule);
        var d := Of(Exec(Init(size), schedule), side);
        assert d.input[..|d.input|] == d.input;
        assert d.delivered + "" == d.delivered;
      }
    } else {
      var t := Turn(AToB, Read(1));
      var bad := [t];
      assert bad[0] == t && bad[1..] == [];
      var d := Exec(Apply(Init(0), t), []).ab;
      assert Exec(Init(0), bad) == Exec(Apply(Init(0), t), []);
      assert d.pc.EndedOk? && !d.closed;
      assert d == Of(Exec(Init(size), bad), AToB);
    }
  }

  // ----- errors -----

  /** The event makes the call the loop is in fail. */
  predicate Breaks(d: Dir, ev: Event) {
    (d.pc.Reading? && ev.ReadFails?) || (d.pc.Writing? && (ev.WriteFails? || ev == Write(0)))
  }

  /** Step `k` of the run is a failing call of this direction, while both directions are running. */
  ghost predicate BreaksAt(r: Relay, schedule: seq<Turn>, side: Side, k: nat)
    requires InBounds(r)
  {
    && k < |schedule| && schedule[k].side == side
    && !Over(Exec(r, schedule[..k])) && Breaks(Of(Exec(r, schedule[..k]), side), schedule[k].event)
  }

  /** Only a failing call ends a direction with an error. */
  lemma ErrorStep(r: Relay, t: Turn, side: Side)
    requires InBounds(r) && !Over(r)
    ensures Of(Apply(r, t), side).pc.EndedErr? <==> t.side == side && Breaks(Of(r, side), t.event)
  {
  }

  lemma {:induction false} ExecFrom(r: Relay, schedule: seq<Turn>, k: nat)
    requires InBounds(r) && 0 < k <= |schedule|
    ensures Exec(r, schedule[..k]) == Exec(Apply(r, schedule[0]), schedule[1..][..k - 1])
  {
    assert schedule[..k][0] == schedule[0] && schedule[..k][1..] == schedule[1..][..k - 1];
  }

  lemma {:induction false} ErrorFrom(r: Relay, schedule: seq<Turn>, side: Side)
    requires InBounds(r) && !Over(r)
    ensures Of(Exec(r, schedule), side).pc.EndedErr? <==> exists k :: BreaksAt(r, schedule, side, k)
    decreases |schedule|
  {
    if schedule != [] {
      var next := Apply(r, schedule[0]);
      ErrorStep(r, schedule[0], side);
      assert schedule[..0] == [];
      if Over(next) {
        FirstToFinishWins(next, schedule[1..]);
        assert next.ab.pc.EndedErr? || next.ba.pc.EndedErr? || next.ab.pc.EndedOk? || next.ba.pc.EndedOk?;
        NothingBreaksLater(r, schedule, side);
        if Of(next, side).pc.EndedErr? {
          assert BreaksAt(r, schedule, side, 0);
        }
      } else {
        ErrorFrom(next, schedule[1..], side);
        BreaksShift(r, schedule, side);
      }
    }
  }

  /** A direction ends with an error exactly when, while the relay was running, a read of it failed, or a
      write of it failed or took nothing; what the other direction does cannot make it fail. */
  lemma ErrorIff(size: nat, schedule: seq<Turn>, side: Side)
    ensures Of(Exec(Init(size), schedule), side).pc.EndedErr? <==> exists k :: BreaksAt(Init(size), schedule, side, k)
  {
    ErrorFrom(Init(size), schedule, side);
  }

  lemma NothingBreaksLater(r: Relay, schedule: seq<Turn>, side: Side)
    requires InBounds(r) && schedule != [] && Over(Apply(r, schedule[0]))
    ensures forall k :: k > 0 ==> !BreaksAt(r, schedule, side, k)
  {
    forall k: nat | 0 < k <= |schedule| ensures Over(Exec(r, schedule[..k])) {
      ExecFrom(r, schedule, k);
      FirstToFinishWins(Apply(r, schedule[0]), schedule[1..][..k - 1]);
    }
  }

  lemma BreaksShift(r: Relay, schedule: seq<Turn>, side: Side)
    requires InBounds(r) && schedule != [] && !BreaksAt(r, schedule, side, 0)
    ensures (exists k :: BreaksAt(r, schedule, side, k)) <==> exists k :: BreaksAt(Apply(r, schedule[0]), schedule[1..], side, k)
  {
    var next := Apply(r, schedule[0]);
    forall k: nat | 0 < k < |schedule| ensures BreaksAt(r, schedule, side, k) == BreaksAt(next, schedule[1..], side, k - 1) {
      ExecFrom(r, schedule, k);
    }
    if k: nat :| BreaksAt(r, schedule, side, k) {
      assert k > 0;
      assert BreaksAt(next, schedule[1..], side, k - 1);
    }
    if j: nat :| BreaksAt(next, schedule[1..], side, j) {
      assert BreaksAt(r, schedule, side, j + 1);
    }
  }

  // ----- progress -----

  /** A read or a write that succeeds. */
  predicate Succeeds(t: Turn, side: Side) {
    t.side == side && (t.event.Read? || (t.event.Write? && t.event.k > 0))
  }

  /** The direction has delivered all that had arrived, and has ended if its source had closed. */
  predicate CaughtUp(d: Dir, e: Dir) {
    && e.delivered == d.input == e.input && e.closed == d.closed && e.total == |d.input|
    && (if d.closed then e.pc.EndedOk? else e.pc.Reading?)
  }

  lemma OneTurn(r: Relay, t: Turn)
    requires InBounds(r)
    ensures Exec(r, [t]) == Apply(r, t)
  {
    assert [t][1..] == [];
  }

  lemma ExecCons(r: Relay, t: Turn, more: seq<Turn>)
    requires InBounds(r)
    ensures Exec(r, [t] + more) == Exec(Apply(r, t), more)
  {
    assert ([t] + more)[1..] == more;
  }

  /** From every state of a running relay, reads and writes that succeed bring a direction to deliver all
      that has arrived, and to end without error if its source has closed: nothing is stuck. */
  lemma {:induction false} Delivers(r: Relay, side: Side) returns (more: seq<Turn>)
    requires Inv(r) && !Over(r) && r.size > 0
    ensures forall k :: 0 <= k < |more| ==> Succeeds(more[k], side)
    ensures CaughtUp(Of(r, side), Of(Exec(r, more), side))
    decreases |Of(r, side).input| - |Of(r, side).delivered|, if Of(r, side).pc.Writing? then 0 else 1
  {
    hide Exec, Step, DirInv;
    var d := Of(r, side);
    BoundsOf(r.ab, r.size);
    BoundsOf(r.ba, r.size);
    if d.pc.Writing? || d.consumed < |d.input| {
      var t := Turn(side, if d.pc.Writing? then Write(|d.pending|) else Read(r.size));
      if d.pc.Writing? {
        WritesAll(d, r.size);
      } else {
        ReadsSome(d, r.size);
      }
      StepKeepsInv(d, r.size, t.event);
      var rest := Delivers(Apply(r, t), side);
      ExecCons(r, t, rest);
      more := [t] + rest;
    } else if d.closed {
      var t := Turn(side, Read(1));
      OneTurn(r, t);
      EndsClosed(d, r.size);
      more := [t];
    } else {
      AllDelivered(d, r.size);
      NoTurns(r);
      more := [];
    }
  }

  lemma BoundsOf(d: Dir, size: nat)
    requires DirInv(d, size)
    ensures d.consumed <= |d.input| && (d.pc.Writing? ==> |d.pending| > 0)
  {
  }

  lemma NoTurns(r: Relay)
    requires InBounds(r)
    ensures Exec(r, []) == r
  {
  }

  lemma EndsClosed(d: Dir, size: nat)
    requires DirInv(d, size) && d.pc.Reading? && d.consumed == |d.input| && d.closed
    ensures CaughtUp(d, Step(d, size, Read(1)))
  {
    AllDelivered(d, size);
  }

  lemma WritesAll(d: Dir, size: nat)
    requires DirInv(d, size) && d.pc.Writing?
    ensures var e := Step(d, size, Write(|d.pending|));
      e.pc.Reading? && e.input == d.input && e.closed == d.closed && |e.delivered| > |d.delivered| && |e.delivered| <= |d.input|
  {
    assert d.pending[..|d.pending|] == d.pending;
  }

  lemma ReadsSome(d: Dir, size: nat)
    requires DirInv(d, size) && d.pc.Reading? && d.consumed < |d.input| && size > 0
    ensures var e := Step(d, size, Read(size));
      e.pc.Writing? && e.input == d.input && e.closed == d.closed && e.delivered == d.delivered
  {
  }

  lemma AllDelivered(d: Dir, size: nat)
    requires DirInv(d, size) && d.pc.Reading? && d.consumed == |d.input|
    ensures d.delivered == d.input && d.total == |d.input|
  {
    assert d.delivered + "" == d.delivered && d.input[..|d.input|] == d.input;
  }

  // ----- the loop with its one reused buffer -----

  /** `copy_one` suspended between two awaits: the fixed buffer is kept for the whole connection and
      overwritten by every read; `buf[off..n]` is what is still to be written. */
  class Copier {
    var input: Bytes
    var closed: bool
    var consumed: nat
    var delivered: Bytes
    var total: nat
    var pc: Pc
    const buf: array<char>
    var n: nat
    var off: nat

    ghost predicate Valid()
      reads this
    {
      off <= n <= buf.Length && consumed <= |input|
    }

    ghost function View(): Dir
      requires Valid()
      reads this, buf
    {
      Dir(input, closed, consumed, delivered, buf[off..n], n, total, pc)
    }

    constructor (size: nat)
      ensures Valid() && fresh(buf) && buf.Length == size && View() == START
    {
      input, closed, consumed, delivered, total, pc := "", false, 0, "", 0, Reading;
      buf := new char[size];
      n, off := 0, 0;
    }

    /** Copy the next `m` source bytes to the front of the buffer. */
    method Fill(m: nat)
      requires Valid() && m <= buf.Length && consumed + m <= |input|
      modifies this`n, this`off, this`consumed, buf
      ensures Valid() && consumed == old(consumed) + m && off == 0 && n == m
      ensures buf[..m] == input[old(consumed)..consumed]
    {
      for i := 0 to m
        invariant consumed == old(consumed)
        invariant forall k :: 0 <= k < i ==> buf[k] == input[consumed + k]
      {
        buf[i] := input[consumed + i];
      }
      n, off, consumed := m, 0, consumed + m;
    }

    /** Hand the writer at most `k` of the pending bytes. */
    method Drain(k: nat)
      requires Valid() && pc.Writing? && k > 0
      modifies this`delivered, this`off, this`total, this`pc
      ensures Valid() && View() == Step(old(View()), buf.Length, Write(k))
    {
      var m := Min(k, n - off);
      assert buf[off..n][..m] == buf[off..off + m] && buf[off..n][m..] == buf[off + m..n];
      delivered := delivered + buf[off..off + m];
      off := off + m;
      if off == n {
        total := total + n;
        pc := Reading;
      }
    }

    method Poll(ev: Event)
      requires Valid()
      modifies this, buf
      ensures Valid() && View() == Step(old(View()), buf.Length, ev)
    {
      match ev {
        case Arrive(data) =>
          if !closed {
            input := input + data;
          }
        case Close =>
          closed := true;
        case Read(want) =>
          if pc.Reading? {
            var m := Min(Min(want, buf.Length), |input| - consumed);
            if m > 0 {
              Fill(m);
              pc := Writing;
            } else if buf.Length == 0 || (closed && consumed == |input|) {
              pc := EndedOk;
            }
          }
        case ReadFails =>
          if pc.Reading? {
            pc := EndedErr;
          }
        case Write(k) =>
          if pc.Writing? {
            if k == 0 {
              pc := EndedErr;
            } else {
              Drain(k);
            }
          }
        case WriteFails =>
          if pc.Writing? {
            pc := EndedErr;
          }
      }
    }
  }

  /** `transport`: both loops polled in the order the schedule gives, until one ends. */
  method Transport(a: Copier, b: Copier, schedule: seq<Turn>) returns (left: seq<Turn>)
    requires a != b && a.buf != b.buf && a.buf.Length == b.buf.Length
    requires a.Valid() && b.Valid()
    modifies a, b, a.buf, b.buf
    ensures a.Valid() && b.Valid()
    ensures Relay(a.buf.Length, a.View(), b.View())
         == Exec(Relay(a.buf.Length, old(a.View()), old(b.View())), schedule)
    ensures left != [] ==> Over(Relay(a.buf.Length, a.View(), b.View()))
  {
    ghost var start := Relay(a.buf.Length, a.View(), b.View());
    left := schedule;
    while left != [] && !(a.pc.EndedOk? || a.pc.EndedErr? || b.pc.EndedOk? || b.pc.EndedErr?)
      invariant a.Valid() && b.Valid()
      invariant Exec(Relay(a.buf.Length, a.View(), b.View()), left) == Exec(start, schedule)
      decreases |left|
    {
      var t := left[0];
      if t.side == AToB {
        a.Poll(t.event);
      } else {
        b.Poll(t.event);
      }
      left := left[1..];
    }
    if left != [] {
      FirstToFinishWins(Relay(a.buf.Length, a.View(), b.View()), left);
    }
  }
}
