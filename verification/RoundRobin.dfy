/** Round-robin target selection, shared by the TCP and UDP listeners. */
module RoundRobin {
  import opened Common

  /** `usize` on the 64-bit targets the program is built for. */
  const WORD: nat := 0x1_0000_0000_0000_0000

  /** The position chosen when the counter reads `counter`. */
  function PickIndex(counter: nat, n: nat): (i: nat)
    requires n > 0
    ensures i < n
  {
    if n == 1 then 0 else counter % n
  }

  /** The counter after a pick: untouched with one target, wrapping at the word size otherwise. */
  function Advance(counter: nat, n: nat): nat {
    if n == 1 then counter else (counter + 1) % WORD
  }

  /** The positions chosen by `k` consecutive picks. */
  function Picks(counter: nat, n: nat, k: nat): (p: seq<nat>)
    requires n > 0
    ensures |p| == k
    ensures forall x :: x in p ==> x < n
    decreases k
  {
    if k == 0 then [] else [PickIndex(counter, n)] + Picks(Advance(counter, n), n, k - 1)
  }

  function Count(p: seq<nat>, i: nat): nat {
    if p == [] then 0 else (if p[0] == i then 1 else 0) + Count(p[1..], i)
  }

  /** No two positions are chosen more than one time apart. */
  ghost predicate Fair(p: seq<nat>, n: nat) {
    forall i, j :: 0 <= i < n && 0 <= j < n ==> Count(p, i) <= Count(p, j) + 1
  }

  /** The counter a listener keeps; `Pick` is `pick_target`. */
  class Picker {
    var rr: nat
    ghost var chosen: seq<nat>
    ghost const start: nat

    ghost predicate Valid(n: nat)
      reads this
    {
      n > 0 && start < WORD && rr < WORD && chosen == Picks(start, n, |chosen|)
      && rr == After(start, n, |chosen|)
    }

    constructor (n: nat)
      requires n > 0
      ensures Valid(n) && rr == 0 && chosen == [] && start == 0
    {
      rr, chosen, start := 0, [], 0;
    }

    method Pick(targets: seq<string>) returns (target: string)
      requires Valid(|targets|)
      modifies this
      ensures Valid(|targets|)
      ensures chosen == old(chosen) + [PickIndex(old(rr), |targets|)]
      ensures target == targets[PickIndex(old(rr), |targets|)]
      ensures rr == Advance(old(rr), |targets|)
    {
      var i := 0;
      if |targets| != 1 {
        i := rr % |targets|;
        rr := (rr + 1) % WORD;
      }
      target := targets[i];
      PicksSnoc(start, |targets|, |chosen|);
      chosen := chosen + [i];
    }
  }

  /** The counter after `k` picks. */
  function After(counter: nat, n: nat, k: nat): nat {
    if n == 1 then counter else (counter + k) % WORD
  }

  lemma {:induction false} PicksSnoc(counter: nat, n: nat, k: nat)
    requires n > 0 && counter < WORD
    ensures Picks(counter, n, k + 1) == Picks(counter, n, k) + [PickIndex(After(counter, n, k), n)]
    ensures Advance(After(counter, n, k), n) == After(counter, n, k + 1)
    decreases k
  {
    hide After, Advance, PickIndex;
    AfterAdvance(counter, n, k);
    var next := Advance(counter, n);
    if k > 0 {
      AdvanceFits(counter, n);
      AfterAdvance(counter, n, k - 1);
      PicksSnoc(next, n, k - 1);
      Assoc([PickIndex(counter, n)], Picks(next, n, k - 1), [PickIndex(After(counter, n, k), n)]);
    } else {
      AfterNone(counter, n);
    }
  }

  lemma AdvanceFits(counter: nat, n: nat)
    requires counter < WORD
    ensures Advance(counter, n) < WORD
  {
  }

  lemma AfterNone(counter: nat, n: nat)
    requires counter < WORD
    ensures After(counter, n, 0) == counter
  {
  }

  lemma AfterAdvance(counter: nat, n: nat, k: nat)
    requires n > 0 && counter < WORD
    ensures After(Advance(counter, n), n, k) == After(counter, n, k + 1)
    ensures Advance(After(counter, n, k), n) == After(counter, n, k + 1)
  {
    if n > 1 {
      var q, r := (counter + k) / WORD, (counter + k) % WORD;
      assert counter + k == WORD * q + r;
      if r + 1 < WORD {
        DivUnique(counter + k + 1, WORD, q, r + 1);
      } else {
        DivUnique(counter + k + 1, WORD, q + 1, 0);
      }
      if counter + 1 == WORD {
        DivUnique(k + WORD, WORD, k / WORD + 1, k % WORD);
      }
    }
  }

  // ----- counting residues -----

  /** How many of the first `m` counters pick position `i`. */
  function Below(m: nat, n: nat, i: nat): nat
    requires n > 0
  {
    m / n + if i < m % n then 1 else 0
  }

  lemma BelowStep(m: nat, n: nat, i: nat)
    requires n > 0 && i < n
    ensures Below(m + 1, n, i) == Below(m, n, i) + if m % n == i then 1 else 0
  {
    var q, r := m / n, m % n;
    assert m + 1 == n * q + (r + 1);
    if r + 1 < n {
      DivUnique(m + 1, n, q, r + 1);
    } else {
      DivUnique(m + 1, n, q + 1, 0);
    }
  }

  lemma DivUnique(m: nat, n: nat, q: nat, r: nat)
    requires n > 0 && r < n && m == n * q + r
    ensures m / n == q && m % n == r
  {
    var p, s := m / n, m % n;
    assert n * p + s == m;
    assert n * p - n * q == n * (p - q) == -(n * (q - p));
    if p != q {
      MulAtLeast(n, if p > q then p - q else q - p);
    }
  }

  lemma MulAtLeast(n: nat, d: nat)
    requires d >= 1
    ensures n * d >= n
  {
    if d > 1 {
      MulAtLeast(n, d - 1);
      assert n * d == n * (d - 1) + n;
    }
  }

  lemma {:induction false} CountIsWindow(counter: nat, n: nat, k: nat, i: nat)
    requires n > 1 && i < n && (counter + k <= WORD || WORD % n == 0) && counter < WORD
    ensures Count(Picks(counter, n, k), i) == Below(counter + k, n, i) - Below(counter, n, i)
    decreases k
  {
    hide Below, Picks, Count;
    if k > 0 {
      CountFirst(counter, n, k, i);
      BelowStep(counter, n, i);
      if counter + 1 < WORD {
        CountIsWindow(counter + 1, n, k - 1, i);
      } else if k > 1 {
        CountIsWindow(0, n, k - 1, i);
        BelowPeriodic(k - 1, n, i);
        BelowPeriodic(0, n, i);
        BelowNone(n, i);
      } else {
        NoPicksCounted(0, n, i);
      }
    } else {
      NoPicksCounted(counter, n, i);
    }
  }

  lemma NoPicksCounted(counter: nat, n: nat, i: nat)
    requires n > 0
    ensures Count(Picks(counter, n, 0), i) == 0
  {
  }

  lemma {:induction false} CountFirst(counter: nat, n: nat, k: nat, i: nat)
    requires n > 1 && k > 0 && counter < WORD
    ensures Count(Picks(counter, n, k), i)
         == (if counter % n == i then 1 else 0) + Count(Picks(if counter + 1 < WORD then counter + 1 else 0, n, k - 1), i)
  {
    var p := Picks(counter, n, k);
    var next := Advance(counter, n);
    assert p == [PickIndex(counter, n)] + Picks(next, n, k - 1);
    assert p[1..] == Picks(next, n, k - 1);
    NextCounter(counter, n);
    hide Picks, Advance;
  }

  lemma NextCounter(counter: nat, n: nat)
    requires n > 1 && counter < WORD
    ensures Advance(counter, n) == if counter + 1 < WORD then counter + 1 else 0
  {
  }

  lemma BelowNone(n: nat, i: nat)
    requires n > 0
    ensures Below(0, n, i) == 0
  {
    DivUnique(0, n, 0, 0);
  }

  /** A whole number of rounds adds the same amount to every position. */
  lemma BelowPeriodic(m: nat, n: nat, i: nat)
    requires n > 1 && WORD % n == 0
    ensures Below(WORD + m, n, i) == WORD / n + Below(m, n, i)
  {
    var q := WORD / n;
    assert WORD == n * q;
    assert WORD + m == n * (q + m / n) + m % n;
    DivUnique(WORD + m, n, q + m / n, m % n);
  }

  lemma {:induction false} CountOnlyZero(counter: nat, k: nat)
    ensures Count(Picks(counter, 1, k), 0) == k
    decreases k
  {
    if k > 0 {
      assert Picks(counter, 1, k)[1..] == Picks(counter, 1, k - 1);
      CountOnlyZero(counter, k - 1);
    }
  }

  // ----- main results -----

  /** A window in which the counter does not wrap is fair. */
  lemma WindowIsFair(counter: nat, n: nat, k: nat)
    requires n > 0 && counter < WORD && (counter + k <= WORD || WORD % n == 0)
    ensures Fair(Picks(counter, n, k), n)
  {
    var p := Picks(counter, n, k);
    forall i, j | 0 <= i < n && 0 <= j < n ensures Count(p, i) <= Count(p, j) + 1 {
      if n > 1 {
        CountIsWindow(counter, n, k, i);
        CountIsWindow(counter, n, k, j);
      }
    }
  }

  /** The picks across the wrap when the word size is not a multiple of the number of targets:
      position 0 is chosen twice before position `WORD % n` is chosen at all. */
  lemma WrapIsUnfair(n: nat) returns (c: nat, k: nat)
    requires n > 0 && WORD % n != 0
    ensures c == WORD - WORD % n && k == WORD % n + 1
    ensures !Fair(Picks(c, n, k), n)
  {
    var q, r := WORD / n, WORD % n;
    assert WORD == n * q + r;
    WrapCounts(n, q, r);
    c, k := n * q, r + 1;
    assert Count(Picks(c, n, k), 0) > Count(Picks(c, n, k), r) + 1;
  }

  lemma {:induction false} WrapCounts(n: nat, q: nat, r: nat)
    requires 0 < r < n && WORD == n * q + r
    ensures WORD - r >= 0
    ensures Count(Picks(WORD - r, n, r + 1), 0) == 2 && Count(Picks(WORD - r, n, r + 1), r) == 0
  {
    hide Picks, Count;
    var c := n * q;
    DivUnique(c, n, q, 0);
    DivUnique(c + r, n, q, r);
    CountIsWindow(c, n, r, 0);
    CountIsWindow(c, n, r, r);
    PicksSnoc(c, n, r);
    DivUnique(0, n, 0, 0);
    assert PickIndex(After(c, n, r), n) == 0;
    CountSnoc(Picks(c, n, r), 0, 0);
    CountSnoc(Picks(c, n, r), 0, r);
  }

  lemma {:induction false} CountSnoc(p: seq<nat>, x: nat, i: nat)
    ensures Count(p + [x], i) == Count(p, i) + if x == i then 1 else 0
  {
    if p == [] {
      assert (p + [x])[1..] == [];
    } else {
      assert (p + [x])[1..] == p[1..] + [x];
      CountSnoc(p[1..], x, i);
    }
  }

  ghost predicate FairForever(n: nat)
    requires n > 0
  {
    forall c: nat, k: nat :: c < WORD ==> Fair(Picks(c, n, k), n)
  }

  /** Every window from every counter value is fair exactly when the number of targets divides the
      word size. */
  lemma FairForeverIff(n: nat)
    requires n > 0
    ensures FairForever(n) <==> WORD % n == 0
  {
    if WORD % n == 0 {
      forall c: nat, k: nat | c < WORD ensures Fair(Picks(c, n, k), n) {
        WindowIsFair(c, n, k);
      }
    } else {
      var c, k := WrapIsUnfair(n);
      assert c < WORD && !Fair(Picks(c, n, k), n);
    }
  }
}
