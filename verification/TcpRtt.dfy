/**
 * The round-trip estimator of tcp_in.c and the retransmission timeout of
 * tcp.c, in 16-bit arithmetic: `sa` is eight times the smoothed round trip and
 * `sv` four times its deviation, in slow-timer ticks.
 */
module TcpRtt {

  type s16 = x: int | -0x8000 <= x <= 0x7fff

  /** The cast `(s16_t)x`. */
  function S16(x: int): s16 {
    var r := x % 0x1_0000;
    if r < 0x8000 then r else r - 0x1_0000
  }

  lemma {:induction false} Fits(x: int)
    requires -0x8000 <= x <= 0x7fff
    ensures S16(x) == x
  {
  }

  /** The estimator's state as numbers that cannot overflow. */
  datatype Est = Est(sa: int, sv: int, rto: int)

  /** 3000 / TCP_SLOW_INTERVAL */
  const START := Est(0, 6, 6)

  function Abs(x: int): nat { if x < 0 then -x else x }

  /** Jacobson's filter: a gain of 1/8 on the mean, 1/4 on the deviation. */
  function Sampled(e: Est, m: int): Est {
    var err := m - e.sa / 8;
    var sa, sv := e.sa + err, e.sv + Abs(err) - e.sv / 4;
    Est(sa, sv, sa / 8 + sv)
  }

  const TCP_BACKOFF: seq<nat> := [1, 2, 3, 4, 5, 6, 7, 7, 7, 7, 7, 7, 7]

  function Pow2(n: nat): (r: nat)
    ensures r >= 1
  {
    if n == 0 then 1 else 2 * Pow2(n - 1)
  }

  function Shift(nrtx: nat): nat {
    TCP_BACKOFF[if nrtx < |TCP_BACKOFF| - 1 then nrtx else |TCP_BACKOFF| - 1]
  }

  function Min(a: int, b: int): int { if a < b then a else b }

  function BackedOff(e: Est, nrtx: nat): Est {
    e.(rto := Min((e.sa / 8 + e.sv) * Pow2(Shift(nrtx)), 0x7fff))
  }

  /** The timeout without backoff. */
  function Restored(e: Est): Est {
    e.(rto := e.sa / 8 + e.sv)
  }

  function Most(a: int, b: int): int { if a < b then b else a }

  /** With samples of at most `M` ticks. */
  predicate Bounded(e: Est, M: nat) {
    && 0 <= e.sa <= 8 * M + 7
    && 3 <= e.sv <= Most(6, 4 * M + 3)
    && 3 <= e.rto <= 0x7fff
  }

  /** A measured round trip, a retransmission timeout, an acknowledgement of new data. */
  datatype Event = Sample(m: nat) | Backoff(nrtx: nat) | Acked

  function Step(e: Est, ev: Event): Est {
    match ev
    case Sample(m) => Sampled(e, m)
    case Backoff(nrtx) => BackedOff(e, nrtx)
    case Acked => Restored(e)
  }

  function Run(e: Est, evs: seq<Event>): Est {
    if evs == [] then e else Step(Run(e, evs[..|evs| - 1]), evs[|evs| - 1])
  }

  lemma {:induction false} SampleKeepsBounds(e: Est, m: nat, M: nat)
    requires Bounded(e, M) && m <= M <= 4095
    ensures Bounded(Sampled(e, m), M)
  {
    assert 0 <= e.sa / 8 <= M;
    assert Abs(m - e.sa / 8) <= M;
    assert e.sv - e.sv / 4 >= 3;
    assert e.sv - e.sv / 4 + M <= Most(6, 4 * M + 3);
  }

  /** No step of the filter leaves the 16-bit range. */
  lemma {:induction false} SampleFits(e: Est, m: nat, M: nat)
    requires Bounded(e, M) && m <= M <= 4095
    ensures Bounded(Sampled(e, m), M)
    ensures var err := m - e.sa / 8; var sa := e.sa + err;
      && S16(m) == m && S16(err) == err && S16(sa) == sa && (err < 0 ==> S16(-err) == -err)
      && S16(Abs(err) - e.sv / 4) == Abs(err) - e.sv / 4
      && S16(e.sv + (Abs(err) - e.sv / 4)) == e.sv + Abs(err) - e.sv / 4
      && S16(sa / 8 + (e.sv + Abs(err) - e.sv / 4)) == Sampled(e, m).rto
  {
    hide S16;
    SampleKeepsBounds(e, m, M);
    var err := m - e.sa / 8;
    assert 0 <= e.sa / 8 <= M && 0 <= e.sv / 4 <= M + 1;
    Fits(m);
    Fits(err);
    Fits(-err);
    Fits(e.sa + err);
    Fits(Abs(err) - e.sv / 4);
    Fits(e.sv + Abs(err) - e.sv / 4);
    Fits(Sampled(e, m).rto);
  }

  lemma {:induction false} ShiftKeepsAtLeast(x: int, k: nat)
    requires 0 <= x
    ensures x <= x * Pow2(k)
  {
    var p := Pow2(k);
    assert x * p == x + x * (p - 1) && 0 <= x * (p - 1);
  }

  lemma {:induction false} BackoffKeepsBounds(e: Est, nrtx: nat, M: nat)
    requires Bounded(e, M)
    ensures Bounded(BackedOff(e, nrtx), M)
  {
    ShiftKeepsAtLeast(e.sa / 8 + e.sv, Shift(nrtx));
  }

  lemma {:induction false} RestoreKeepsBounds(e: Est, M: nat)
    requires Bounded(e, M) && M <= 4095
    ensures Bounded(Restored(e), M)
  {
  }

  /** The new mean is seven parts old and one part sample, the new deviation three parts old and one part error,
      rounded up to the next eighth and quarter. */
  lemma {:induction false} SampleWeights(e: Est, m: int)
    ensures var e' := Sampled(e, m);
      && 7 * e.sa + 8 * m <= 8 * e'.sa <= 7 * e.sa + 8 * m + 7
      && 3 * e.sv + 4 * Abs(m - e.sa / 8) <= 4 * e'.sv <= 3 * e.sv + 4 * Abs(m - e.sa / 8) + 3
      && e'.rto == Restored(e').rto
  {
  }

  /** The first retransmission doubles the timeout, and so does each of the next six; after that it stays, and it
      never exceeds 0x7fff. */
  lemma {:induction false} BackoffDoubles(e: Est, nrtx: nat, M: nat)
    requires Bounded(e, M)
    ensures BackedOff(e, 0).rto == Min(2 * Restored(e).rto, 0x7fff)
    ensures nrtx < 6 ==> BackedOff(e, nrtx + 1).rto == Min(2 * BackedOff(e, nrtx).rto, 0x7fff)
    ensures nrtx >= 6 ==> BackedOff(e, nrtx + 1).rto == BackedOff(e, nrtx).rto
  {
    var x := e.sa / 8 + e.sv;
    assert Pow2(1) == 2 by { assert Pow2(0) == 1; }
    if nrtx < 6 {
      assert Shift(nrtx + 1) == Shift(nrtx) + 1;
      assert x * Pow2(Shift(nrtx) + 1) == 2 * (x * Pow2(Shift(nrtx)));
    } else {
      assert Shift(nrtx + 1) == 7 == Shift(nrtx);
    }
  }

  /** However often the timer has expired, an acknowledgement of new data brings the timeout back. */
  lemma {:induction false} AckedUndoes(e: Est, evs: seq<Event>)
    requires forall i :: 0 <= i < |evs| ==> evs[i].Backoff?
    ensures Run(e, evs + [Acked]) == Restored(e)
  {
    assert (evs + [Acked])[..|evs|] == evs;
    BackoffsKeep(e, evs);
  }

  lemma {:induction false} BackoffsKeep(e: Est, evs: seq<Event>)
    requires forall i :: 0 <= i < |evs| ==> evs[i].Backoff?
    ensures Run(e, evs).sa == e.sa && Run(e, evs).sv == e.sv
  {
    if evs != [] { BackoffsKeep(e, evs[..|evs| - 1]); }
  }

  /** Over every run of samples, backoffs and acknowledgements, whatever their number. */
  lemma {:induction false} RunKeepsBounds(e: Est, evs: seq<Event>, M: nat)
    requires Bounded(e, M) && M <= 4095
    requires forall i :: 0 <= i < |evs| && evs[i].Sample? ==> evs[i].m <= M
    ensures Bounded(Run(e, evs), M)
  {
    hide Bounded, Sampled, BackedOff, Restored;
    if evs != [] {
      var n := |evs| - 1;
      RunKeepsBounds(e, evs[..n], M);
      var e' := Run(e, evs[..n]);
      match evs[n]
      case Sample(m) => SampleKeepsBounds(e', m, M);
      case Backoff(nrtx) => BackoffKeepsBounds(e', nrtx, M);
      case Acked => RestoreKeepsBounds(e', M);
    }
  }

  // ------------------------------------------------------------ convergence

  /** Settled on a constant round trip of m ticks. */
  predicate Settled(e: Est, m: nat) {
    e.sa / 8 == m && e.sv == 3 && e.rto == m + 3
  }

  /** How far the mean is from a round trip of m ticks. */
  function Distance(e: Est, m: nat): nat {
    if e.sa < 8 * m then 8 * m - e.sa else if e.sa > 8 * m + 7 then e.sa - (8 * m + 7) else 0
  }

  lemma {:induction false} SettledStays(e: Est, m: nat)
    requires Settled(e, m)
    ensures Sampled(e, m) == e
  {
  }

  /** On a constant round trip the mean moves towards it and never past it. */
  lemma {:induction false} MeanApproaches(e: Est, m: nat)
    requires e.sa >= 0
    ensures Distance(e, m) > 0 ==> Distance(Sampled(e, m), m) < Distance(e, m)
    ensures Distance(e, m) == 0 ==> Sampled(e, m).sa == e.sa && Sampled(e, m).sv == e.sv - e.sv / 4
  {
  }

  function Repeat(e: Est, m: nat, n: nat): Est
    decreases n
  {
    if n == 0 then e else Repeat(Sampled(e, m), m, n - 1)
  }

  lemma {:induction false} MeanSettles(e: Est, m: nat, M: nat) returns (n: nat)
    requires Bounded(e, M) && m <= M <= 4095
    ensures n <= Distance(e, m) && Distance(Repeat(e, m, n), m) == 0 && Bounded(Repeat(e, m, n), M)
    decreases Distance(e, m)
  {
    hide Sampled;
    MeanApproaches(e, m);
    n := 0;
    if Distance(e, m) > 0 {
      SampleKeepsBounds(e, m, M);
      n := MeanSettles(Sampled(e, m), m, M);
      n := n + 1;
    }
  }

  /** Once the mean is there the deviation falls, down to 3. */
  lemma {:induction false} DeviationStep(e: Est, m: nat, M: nat)
    requires Bounded(e, M) && m <= M <= 4095 && Distance(e, m) == 0
    ensures Bounded(Sampled(e, m), M) && Distance(Sampled(e, m), m) == 0 && 3 <= Sampled(e, m).sv && 3 <= e.sv
    ensures if e.sv == 3 then Settled(Sampled(e, m), m) else Sampled(e, m).sv < e.sv
  {
    MeanApproaches(e, m);
    SampleKeepsBounds(e, m, M);
  }

  lemma {:induction false} DeviationSettles(e: Est, m: nat, M: nat) returns (n: nat)
    requires Bounded(e, M) && m <= M <= 4095 && Distance(e, m) == 0
    ensures 0 < n <= e.sv - 2 && Settled(Repeat(e, m, n), m)
    decreases e.sv
  {
    hide Sampled, Bounded, Distance, Settled;
    DeviationStep(e, m, M);
    if e.sv == 3 {
      n := 1;
      assert Repeat(Sampled(e, m), m, 0) == Sampled(e, m);
    } else {
      n := DeviationSettles(Sampled(e, m), m, M);
      n := n + 1;
    }
  }

  lemma {:induction false} RepeatAdds(e: Est, m: nat, a: nat, b: nat)
    ensures Repeat(e, m, a + b) == Repeat(Repeat(e, m, a), m, b)
    decreases a
  {
    if a > 0 { RepeatAdds(Sampled(e, m), m, a - 1, b); }
  }

  lemma {:induction false} RepeatStays(e: Est, m: nat, n: nat)
    requires Settled(e, m)
    ensures Repeat(e, m, n) == e
  {
    SettledStays(e, m);
    if n > 0 { RepeatStays(e, m, n - 1); }
  }

  /** Whatever has happened before, a constant round trip of m ticks brings the
      timeout to m + 3 ticks, within a known number of samples, and keeps it there. */
  lemma {:induction false} TimeoutConverges(e: Est, m: nat, M: nat, k: nat)
    requires Bounded(e, M) && m <= M <= 4095
    requires k >= 12 * M + 11
    ensures Settled(Repeat(e, m, k), m)
  {
    hide Repeat, Sampled, Settled;
    var a := MeanSettles(e, m, M);
    assert a <= 8 * M + 7;
    var b := DeviationSettles(Repeat(e, m, a), m, M);
    RepeatAdds(e, m, a, b);
    RepeatAdds(e, m, a + b, k - (a + b));
    RepeatStays(Repeat(e, m, a + b), m, k - (a + b));
  }

  // ------------------------------------------------------------- the program

  /** The fields of tcp_pcb that the estimator uses. */
  class Estimator {
    var sa: s16
    var sv: s16
    var rto: s16

    ghost function State(): Est
      reads this
    {
      Est(sa, sv, rto)
    }

    /** tcp_alloc */
    constructor ()
      ensures State() == START && sa == 0 && sv == rto == 6 && forall M: nat :: Bounded(State(), M)
    {
      sa, sv, rto := 0, 6, 6;
    }

    /** tcp_receive, on the acknowledgement of the timed segment: `ticks` is the
        counter now and `rttest` when it was sent, less than `M + 1` ticks ago */
    method Measure(ticks: nat, rttest: nat, ghost M: nat)
      requires Bounded(State(), M) && M <= 4095 && 0 <= ticks - rttest <= M
      modifies this
      ensures State() == Sampled(old(State()), ticks - rttest) && Bounded(State(), M)
    {
      hide S16;
      SampleFits(State(), ticks - rttest, M);
      var m: s16 := S16(ticks - rttest);
      m := S16(m - sa / 8);
      sa := S16(sa + m);
      if m < 0 { m := S16(-m); }
      m := S16(m - sv / 4);
      sv := S16(sv + m);
      rto := S16(sa / 8 + sv);
    }

    /** tcp_receive, on an acknowledgement of new data */
    method Restore(ghost M: nat)
      requires Bounded(State(), M) && M <= 4095
      modifies this`rto
      ensures State() == Restored(old(State())) && Bounded(State(), M)
    {
      RestoreKeepsBounds(State(), M);
      Fits(sa / 8 + sv);
      rto := S16(sa / 8 + sv);
    }

    /** tcp_slowtmr, on a retransmission timeout */
    method Expire(nrtx: nat, ghost M: nat)
      requires Bounded(State(), M) && M <= 4095
      modifies this`rto
      ensures State() == BackedOff(old(State()), nrtx) && Bounded(State(), M)
    {
      BackoffKeepsBounds(State(), nrtx, M);
      var longer := (sa / 8 + sv) * Pow2(Shift(nrtx));
      rto := S16(Min(longer, 0x7fff));
    }
  }
}
