/** The retransmit-time estimator (AoE/AoEService.cpp, update_rto and get_rto_us). */
module RtoEstimator {
  import opened Common

  const TWO32: int := 0x1_0000_0000
  const TWO64: int := 0x1_0000_0000_0000_0000

  type U64 = x: nat | x < TWO64

  // m_nRTO_ns (64-bit unsigned), m_nScaledRTTavg and m_nScaledRTTvar (32-bit signed).
  datatype Rto = Rto(ns: U64, avg: int, dev: int)

  predicate FitsInt32(x: int) {
    -0x8000_0000 <= x < 0x8000_0000
  }

  // Two's complement truncation to a 32-bit int.
  function Wrap32(x: int): (r: int)
    ensures FitsInt32(r)
  {
    if FitsInt32(x) then x else (x + 0x8000_0000) % TWO32 - 0x8000_0000
  }

  // It is the one value of that range that differs from x by a multiple of 2^32.
  lemma WrapIsTruncation(x: int, y: int)
    requires FitsInt32(y)
    ensures Wrap32(x) == y <==> (x - y) % 0x1_0000_0000 == 0
  {
    var z := x + 0x8000_0000;
    assert z == (z / TWO32) * TWO32 + z % TWO32;
    if !FitsInt32(x) { assert x - Wrap32(x) == (z / TWO32) * TWO32; }
    assert (x - Wrap32(x)) % TWO32 == 0;
  }

  // Conversion of an int to an unsigned 64-bit value.
  function ToU64(x: int): U64
    requires FitsInt32(x)
  {
    if x < 0 then x + TWO64 else x
  }

  // Arithmetic right shifts are floor divisions, as Dafny's `/` is for a positive divisor.
  function UpdateRto(r: Rto, rtt: nat): Rto {
    var err := Wrap32(rtt - r.avg);
    var avg := Wrap32(r.avg + err / 8);
    var size := if err < 0 then Wrap32(-err) else err;
    var dev := Wrap32(r.dev + Wrap32(size - r.dev) / 4);
    Rto(ToU64(Wrap32(avg + Wrap32(4 * dev))), avg, dev)
  }

  // The rounding addition is done on 64 bits, so it may wrap.
  function GetRtoUs(r: Rto): (us: nat)
    ensures us == 0 || us >= 1000
  {
    var rounded := Max(r.ns, RTO_MIN_NS) + 500;
    (if rounded < TWO64 then rounded else rounded % TWO64) / 1000
  }

  function InitialRto(): Rto {
    Rto(RTO_MAX_NS, 0, 0)
  }

  // The estimator after the samples `rtts`, oldest first.
  function Estimate(r: Rto, rtts: seq<nat>): Rto
    decreases |rtts|
  {
    if rtts == [] then r else Estimate(UpdateRto(r, rtts[0]), rtts[1..])
  }

  ghost predicate InBounds(r: Rto, m: nat) {
    0 <= r.avg <= m && 0 <= r.dev <= m
  }

  // One sample in [0, m] keeps the estimates in [0, m] and no 32-bit step overflows.
  lemma UpdateInBounds(r: Rto, rtt: nat, m: nat)
    requires InBounds(r, m) && rtt <= m && 5 * m < 0x8000_0000
    ensures var r' := UpdateRto(r, rtt);
      && InBounds(r', m)
      && r'.avg == r.avg + (rtt - r.avg) / 8
      && r'.dev == r.dev + ((if rtt < r.avg then r.avg - rtt else rtt - r.avg) - r.dev) / 4
      && r'.ns == r'.avg + 4 * r'.dev <= 5 * m
  {
  }

  ghost predicate AllAtMost(rtts: seq<nat>, m: nat) {
    forall k :: 0 <= k < |rtts| ==> rtts[k] <= m
  }

  // Every run of samples in [0, m] stays in bounds, and the resulting retransmit time is
  // at least RTO_MIN and at most the larger of RTO_MAX and 5m.
  lemma {:induction false} EstimateInBounds(r: Rto, rtts: seq<nat>, m: nat)
    requires InBounds(r, m) && 5 * m < 0x8000_0000
    requires r.ns <= Max(RTO_MAX_NS, 5 * m)
    requires AllAtMost(rtts, m)
    ensures var r' := Estimate(r, rtts);
      && InBounds(r', m)
      && (rtts != [] ==> r'.ns == r'.avg + 4 * r'.dev <= 5 * m)
      && 1_000 <= GetRtoUs(r') <= Max(10_000, (5 * m + 500) / 1000)
    decreases |rtts|
  {
    if rtts != [] {
      UpdateInBounds(r, rtts[0], m);
      EstimateInBounds(UpdateRto(r, rtts[0]), rtts[1..], m);
    }
  }

  // ---- Convergence under a constant round-trip time ----

  // The estimator after n samples that all equal rtt.
  function Iterate(r: Rto, rtt: nat, n: nat): Rto
    decreases n
  {
    if n == 0 then r else Iterate(UpdateRto(r, rtt), rtt, n - 1)
  }

  ghost predicate AverageSettled(r: Rto, rtt: nat) {
    rtt - 7 <= r.avg <= rtt
  }

  // While the average is outside [rtt-7, rtt] each sample brings it strictly closer and
  // never past the band; once inside it no longer moves.
  lemma AverageStep(r: Rto, rtt: nat, m: nat)
    requires InBounds(r, m) && rtt <= m && 5 * m < 0x8000_0000
    ensures var a := UpdateRto(r, rtt).avg;
      && (r.avg > rtt ==> rtt <= a < r.avg)
      && (r.avg < rtt - 7 ==> r.avg < a <= rtt)
      && (AverageSettled(r, rtt) ==> a == r.avg)
  {
    UpdateInBounds(r, rtt, m);
  }

  // With the average settled, every further sample keeps it so, and a deviation above 7
  // drops by at least one.
  lemma {:induction false} SettledStays(r: Rto, rtt: nat, m: nat, n: nat)
    requires InBounds(r, m) && rtt <= m && 5 * m < 0x8000_0000 && AverageSettled(r, rtt)
    ensures var r' := Iterate(r, rtt, n);
      && AverageSettled(r', rtt) && InBounds(r', m)
      && r'.dev <= Max(7, r.dev - n)
      && (n > 0 ==> r'.ns == r'.avg + 4 * r'.dev)
    decreases n
  {
    if n > 0 {
      UpdateInBounds(r, rtt, m);
      AverageStep(r, rtt, m);
      SettledStays(UpdateRto(r, rtt), rtt, m, n - 1);
    }
  }

  function Distance(r: Rto, rtt: nat): nat {
    if r.avg < rtt then rtt - r.avg else r.avg - rtt
  }

  lemma OneCloser(r: Rto, rtt: nat, m: nat) returns (r': Rto)
    requires InBounds(r, m) && rtt <= m && 5 * m < 0x8000_0000 && !AverageSettled(r, rtt)
    ensures r' == UpdateRto(r, rtt) && InBounds(r', m) && Distance(r', rtt) < Distance(r, rtt)
  {
    r' := UpdateRto(r, rtt);
    UpdateInBounds(r, rtt, m);
    AverageStep(r, rtt, m);
  }

  // From any start in bounds, |rtt - avg| + m samples of one round-trip time (so at most 2m)
  // bring the estimator into the band, where it stays.
  lemma {:induction false} Converges(r: Rto, rtt: nat, m: nat, n: nat)
    requires InBounds(r, m) && rtt <= m && 5 * m < 0x8000_0000
    requires n > 0 && n >= m + Distance(r, rtt)
    ensures var r' := Iterate(r, rtt, n);
      && rtt - 7 <= r'.avg <= rtt
      && 0 <= r'.dev <= 7
      && rtt - 7 <= r'.ns <= rtt + 28
    decreases n
  {
    if AverageSettled(r, rtt) {
      SettledStays(r, rtt, m, n);
    } else {
      var r' := OneCloser(r, rtt, m);
      assert Iterate(r, rtt, n) == Iterate(r', rtt, n - 1);
      Converges(r', rtt, m, n - 1);
    }
  }
}
