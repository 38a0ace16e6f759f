/** Round-trip time estimation: `rtt_init`, `rtt_start`, `rtt_stop` and `rtt_timeout`, over the reals. */
module Rtt {

  const RTT_RXTMIN: real := 2.0
  const RTT_RXTMAX: real := 60.0
  const RTT_MAXNREXMT: nat := 3

  /** `struct rtt_info`; times in seconds. */
  datatype Est = Est(rtt: real, srtt: real, rttvar: real, rto: real, nrexmt: nat, base: nat)

  function MinMax(rto: real): (r: real)
    ensures RTT_RXTMIN <= r <= RTT_RXTMAX
    ensures RTT_RXTMIN <= rto <= RTT_RXTMAX ==> r == rto
  {
    if rto < RTT_RXTMIN then RTT_RXTMIN else if rto > RTT_RXTMAX then RTT_RXTMAX else rto
  }

  function RtoCalc(srtt: real, rttvar: real): real
  {
    srtt + 4.0 * rttvar
  }

  function Initial(sec: nat): Est
  {
    Est(0.0, 0.0, 0.75, MinMax(RtoCalc(0.0, 0.75)), 0, sec)
  }

  function Abs(x: real): real { if x < 0.0 then -x else x }

  /** The estimators after a sample of `m` seconds (Jacobson, with gains 1/8 and 1/4). */
  function Sampled(e: Est, m: real): Est
  {
    var delta := m - e.srtt;
    var srtt := e.srtt + delta / 8.0;
    var rttvar := e.rttvar + (Abs(delta) - e.rttvar) / 4.0;
    e.(rtt := m, srtt := srtt, rttvar := rttvar, rto := MinMax(RtoCalc(srtt, rttvar)))
  }

  function TimedOut(e: Est): Est
  {
    e.(rto := e.rto * 2.0, nrexmt := e.nrexmt + 1)
  }

  predicate GivesUp(e: Est) { e.nrexmt > RTT_MAXNREXMT }

  /** Rounded to whole seconds for `alarm`. */
  function Alarm(e: Est): int
  {
    (e.rto + 0.5).Floor
  }

  class RttInfo {
    var rtt_rtt: real
    var rtt_srtt: real
    var rtt_rttvar: real
    var rtt_rto: real
    var rtt_nrexmt: nat
    var rtt_base: nat

    /** Static storage, all zero until `Init`. */
    constructor ()
      ensures View() == Est(0.0, 0.0, 0.0, 0.0, 0, 0)
    {
      rtt_rtt, rtt_srtt, rtt_rttvar, rtt_rto, rtt_nrexmt, rtt_base := 0.0, 0.0, 0.0, 0.0, 0, 0;
    }

    function View(): Est
      reads this
    {
      Est(rtt_rtt, rtt_srtt, rtt_rttvar, rtt_rto, rtt_nrexmt, rtt_base)
    }

    /** `rtt_init` at second `sec`; the count of retransmissions is left as it was. */
    method Init(sec: nat)
      modifies this
      ensures View() == Initial(sec).(nrexmt := old(rtt_nrexmt))
    {
      rtt_base := sec;
      rtt_rtt := 0.0;
      rtt_srtt := 0.0;
      rtt_rttvar := 0.75;
      rtt_rto := MinMax(RtoCalc(rtt_srtt, rtt_rttvar));
    }

    method NewPack()
      modifies this
      ensures View() == old(View()).(nrexmt := 0)
    {
      rtt_nrexmt := 0;
    }

    method Start() returns (seconds: int)
      ensures seconds == Alarm(View())
    {
      seconds := (rtt_rto + 0.5).Floor;
    }

    method Stop(ms: nat)
      modifies this
      ensures View() == Sampled(old(View()), ms as real / 1000.0)
    {
      rtt_rtt := ms as real / 1000.0;
      var delta := rtt_rtt - rtt_srtt;
      rtt_srtt := rtt_srtt + delta / 8.0;
      if delta < 0.0 {
        delta := -delta;
      }
      rtt_rttvar := rtt_rttvar + (delta - rtt_rttvar) / 4.0;
      rtt_rto := MinMax(RtoCalc(rtt_srtt, rtt_rttvar));
    }

    method Timeout() returns (rc: int)
      modifies this
      ensures View() == TimedOut(old(View()))
      ensures rc == if GivesUp(View()) then -1 else 0
    {
      rtt_rto := rtt_rto * 2.0;
      rtt_nrexmt := rtt_nrexmt + 1;
      if rtt_nrexmt > RTT_MAXNREXMT {
        return -1;
      }
      return 0;
    }
  }

  // ---------- the timeouts of one request ----------

  function Power(b: real, k: nat): real
  {
    if k == 0 then 1.0 else b * Power(b, k - 1)
  }

  /** Backing off from a timeout in range: where a request stands after `e.nrexmt` timeouts. */
  ghost predicate Backing(e: Est, rto0: real)
  {
    RTT_RXTMIN <= rto0 <= RTT_RXTMAX && e.rto == rto0 * Power(2.0, e.nrexmt)
  }

  lemma PowersOfTwo()
    ensures Power(2.0, 0) == 1.0 && Power(2.0, 1) == 2.0 && Power(2.0, 2) == 4.0 && Power(2.0, 3) == 8.0
  {
  }

  lemma BackingStep(e: Est, rto0: real)
    requires Backing(e, rto0)
    ensures Backing(TimedOut(e), rto0)
  {
    var p := Power(2.0, e.nrexmt);
    assert Power(2.0, e.nrexmt + 1) == 2.0 * p;
    assert rto0 * (2.0 * p) == (rto0 * p) * 2.0;
  }

  /** Every alarm of a request is between 2 and 480 seconds. */
  lemma AlarmBounds(e: Est, rto0: real)
    requires Backing(e, rto0) && !GivesUp(e)
    ensures 2 <= Alarm(e) <= 480
    ensures e.nrexmt == 0 ==> Alarm(e) <= 60
    ensures e.nrexmt == 1 ==> Alarm(e) <= 120
    ensures e.nrexmt == 2 ==> Alarm(e) <= 240
  {
    PowersOfTwo();
  }

  /** The alarm is the timeout rounded to the nearest second, halves upward. */
  lemma AlarmRounds(e: Est)
    ensures e.rto - 0.5 < Alarm(e) as real <= e.rto + 0.5
  {
  }

  /** The alarms of a request that is given up on. */
  function AlarmsFrom(e: Est): int
    decreases 4 - e.nrexmt
  {
    if GivesUp(e) then 0 else Alarm(e) + AlarmsFrom(TimedOut(e))
  }

  /** A request that never gets an answer is given up on after at most 15 minutes. */
  lemma GivesUpWithin(e: Est)
    requires RTT_RXTMIN <= e.rto <= RTT_RXTMAX && e.nrexmt == 0
    ensures 30 <= AlarmsFrom(e) <= 900
  {
    var e1 := TimedOut(e);
    var e2 := TimedOut(e1);
    var e3 := TimedOut(e2);
    var e4 := TimedOut(e3);
    assert AlarmsFrom(e) == Alarm(e) + AlarmsFrom(e1);
    assert AlarmsFrom(e1) == Alarm(e1) + AlarmsFrom(e2);
    assert AlarmsFrom(e2) == Alarm(e2) + AlarmsFrom(e3);
    assert AlarmsFrom(e3) == Alarm(e3) + AlarmsFrom(e4);
    assert AlarmsFrom(e4) == 0;
  }

  // ---------- convergence ----------

  /** `k` samples of the same round-trip time. */
  function Steady(e: Est, m: real, k: nat): Est
  {
    if k == 0 then e else Sampled(Steady(e, m, k - 1), m)
  }

  /** `x` multiplied `k` times by `b`: the k-th power of `b`, times `x`. */
  function Decayed(b: real, x: real, k: nat): real
  {
    if k == 0 then x else b * Decayed(b, x, k - 1)
  }

  lemma {:induction false} DecayedPower(b: real, x: real, k: nat)
    ensures Decayed(b, x, k) == Power(b, k) * x
  {
    if k > 0 {
      DecayedPower(b, x, k - 1);
      var p := Power(b, k - 1);
      assert (b * p) * x == b * (p * x);
    }
  }

  /**
   * From any estimators, above or below: after `k` samples of `m` the error is exactly (7/8)^k of
   * what it was, and the deviation decays with its size.
   */
  lemma {:induction false} SteadyFrom(e: Est, m: real, k: nat)
    ensures var d, r := m - e.srtt, Steady(e, m, k);
            && m - r.srtt == Decayed(0.875, d, k)
            && (d >= 0.0 ==> m >= r.srtt && r.rttvar == Decayed(0.75, e.rttvar - 2.0 * d, k) + 2.0 * (m - r.srtt))
            && (d <= 0.0 ==> m <= r.srtt && r.rttvar == Decayed(0.75, e.rttvar + 2.0 * d, k) + 2.0 * (r.srtt - m))
  {
    if k > 0 {
      SteadyFrom(e, m, k - 1);
    }
  }

  /**
   * From the initial state, a constant round-trip time `m` is approached from below: after
   * `k` samples the error is exactly (7/8)^k of `m`, and the deviation decays with it.
   */
  lemma SteadyDecays(sec: nat, m: real, k: nat)
    requires m >= 0.0
    ensures var e := Steady(Initial(sec), m, k);
            && m - e.srtt == Decayed(0.875, m, k) >= 0.0
            && e.rttvar == Decayed(0.75, 0.75 - 2.0 * m, k) + 2.0 * Decayed(0.875, m, k)
  {
    SteadyFrom(Initial(sec), m, k);
  }
}
