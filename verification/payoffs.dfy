/**
 * The coupon-bond payoff: cash flows paid at given times, valued at an
 * observation time through the model's zero-bond payoff on a state.
 */
module Payoffs {
  import opened NumPy

  /** `CouponBond(model, observation_time, pay_times, cash_flows)`; the model enters as `zeroBond`. */
  datatype CouponBond = CouponBond(observationTime: real, payTimes: seq<real>, cashFlows: seq<real>)

  /** `zip(cash_flows, pay_times)` stops at the shorter list. */
  function Paired(bond: CouponBond): nat {
    if |bond.cashFlows| <= |bond.payTimes| then |bond.cashFlows| else |bond.payTimes|
  }

  /** The terms cf * zero_bond_payoff(x, observation_time, T), one per zipped pair. */
  function Terms<S>(bond: CouponBond, zeroBond: (S, real, real) -> real, x: S): (r: seq<real>)
    ensures |r| == Paired(bond)
    ensures forall i :: 0 <= i < |r| ==>
      r[i] == bond.cashFlows[i] * zeroBond(x, bond.observationTime, bond.payTimes[i])
  {
    seq(Paired(bond), i requires 0 <= i < Paired(bond) =>
      bond.cashFlows[i] * zeroBond(x, bond.observationTime, bond.payTimes[i]))
  }

  /** `CouponBond.at(x)`: the sum of the terms, added from the first. */
  function At<S>(bond: CouponBond, zeroBond: (S, real, real) -> real, x: S): real {
    Sum(Terms(bond, zeroBond, x))
  }

  /** A bond with non-negative cash flows and zero-bond prices is worth at least 0. */
  lemma AtNonNegative<S>(bond: CouponBond, zeroBond: (S, real, real) -> real, x: S)
    requires forall i :: 0 <= i < Paired(bond) ==>
      bond.cashFlows[i] >= 0.0 && zeroBond(x, bond.observationTime, bond.payTimes[i]) >= 0.0
    ensures At(bond, zeroBond, x) >= 0.0
  {
    var t := Terms(bond, zeroBond, x);
    forall i | 0 <= i < |t| ensures 0.0 <= t[i] {
      MulMonotone(bond.cashFlows[i], 0.0, zeroBond(x, bond.observationTime, bond.payTimes[i]));
    }
    SumAtLeast(t, 0.0);
  }

  /** An empty schedule is worth nothing. */
  lemma AtEmptySchedule<S>(bond: CouponBond, zeroBond: (S, real, real) -> real, x: S)
    requires |bond.payTimes| == 0 || |bond.cashFlows| == 0
    ensures At(bond, zeroBond, x) == 0.0
  {
  }

  /** Pay times or cash flows beyond the shorter list are ignored. */
  lemma AtIgnoresUnpaired<S>(bond: CouponBond, zeroBond: (S, real, real) -> real, x: S)
    ensures At(bond, zeroBond, x) == At(CouponBond(bond.observationTime,
      bond.payTimes[..Paired(bond)], bond.cashFlows[..Paired(bond)]), zeroBond, x)
  {
    var cut := CouponBond(bond.observationTime, bond.payTimes[..Paired(bond)], bond.cashFlows[..Paired(bond)]);
    var t, u := Terms(bond, zeroBond, x), Terms(cut, zeroBond, x);
    assert |t| == |u|;
    forall i | 0 <= i < |t| ensures t[i] == u[i] {
      assert cut.cashFlows[i] == bond.cashFlows[i] && cut.payTimes[i] == bond.payTimes[i];
    }
    assert t == u;
  }

  /** Scaling every cash flow by l scales the value by l. */
  lemma AtScales<S>(bond: CouponBond, zeroBond: (S, real, real) -> real, x: S, l: real)
    ensures At(CouponBond(bond.observationTime, bond.payTimes, Scale(l, bond.cashFlows)), zeroBond, x)
      == l * At(bond, zeroBond, x)
  {
    var scaled := CouponBond(bond.observationTime, bond.payTimes, Scale(l, bond.cashFlows));
    var t := Terms(bond, zeroBond, x);
    forall i | 0 <= i < |t| ensures Terms(scaled, zeroBond, x)[i] == Scale(l, t)[i] {
      var z := zeroBond(x, bond.observationTime, bond.payTimes[i]);
      assert (l * bond.cashFlows[i]) * z == l * (bond.cashFlows[i] * z);
    }
    assert Terms(scaled, zeroBond, x) == Scale(l, t);
    SumScale(l, t);
  }

  /**
   * Two schedules observed at one time, the first with as many cash flows
   * as pay times, are worth together the sum of their values.
   */
  lemma AtConcatenation<S>(b1: CouponBond, b2: CouponBond, zeroBond: (S, real, real) -> real, x: S)
    requires b1.observationTime == b2.observationTime
    requires |b1.payTimes| == |b1.cashFlows|
    ensures At(CouponBond(b1.observationTime, b1.payTimes + b2.payTimes, b1.cashFlows + b2.cashFlows), zeroBond, x)
      == At(b1, zeroBond, x) + At(b2, zeroBond, x)
  {
    var both := CouponBond(b1.observationTime, b1.payTimes + b2.payTimes, b1.cashFlows + b2.cashFlows);
    var t, t1, t2 := Terms(both, zeroBond, x), Terms(b1, zeroBond, x), Terms(b2, zeroBond, x);
    var n1 := |b1.payTimes|;
    assert |t| == |t1 + t2|;
    forall i | 0 <= i < |t| ensures t[i] == (t1 + t2)[i] {
      if i < n1 {
        assert both.cashFlows[i] == b1.cashFlows[i] && both.payTimes[i] == b1.payTimes[i];
      } else {
        assert both.cashFlows[i] == b2.cashFlows[i - n1] && both.payTimes[i] == b2.payTimes[i - n1];
      }
    }
    assert t == t1 + t2;
    SumConcat(Terms(b1, zeroBond, x), Terms(b2, zeroBond, x));
  }

  /**
   * The value depends on the zero-bond payoff only at the observation time
   * and the paired pay times.
   */
  lemma AtUsesObservationTime<S>(bond: CouponBond, zb1: (S, real, real) -> real, zb2: (S, real, real) -> real, x: S)
    requires forall i :: 0 <= i < Paired(bond) ==>
      zb1(x, bond.observationTime, bond.payTimes[i]) == zb2(x, bond.observationTime, bond.payTimes[i])
    ensures At(bond, zb1, x) == At(bond, zb2, x)
  {
    var t1, t2 := Terms(bond, zb1, x), Terms(bond, zb2, x);
    forall i | 0 <= i < |t1| ensures t1[i] == t2[i] {
    }
    assert t1 == t2;
  }
}
