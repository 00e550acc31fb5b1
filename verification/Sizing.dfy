/**
 Worker-count sizing: the Go scaler's max of a utilization rule and a square-root staffing rule,
 and the simulator's base-plus-spare plan.

 math.Sqrt is not computable over the reals, so the staffing count is found by search from its
 defining inequality; HalfinWhittIsCeilOfSqrt ties the search back to the source's formula.
 */
module Sizing {
  import opened Arithmetic

  /** n workers keep the average utilization at or below the target. */
  predicate MeetsUtilization(n: int, load: real, utilization: real) {
    n as real * utilization >= load
  }

  /** n workers cover the load plus beta square roots of it (squared, so without the root). */
  predicate MeetsStaffing(n: int, load: real, beta: real) {
    var slack := n as real - load;
    slack >= 0.0 && slack * slack >= beta * beta * load
  }

  predicate Adequate(n: int, load: real, utilization: real, beta: real) {
    load > 0.0 ==> MeetsUtilization(n, load, utilization) && MeetsStaffing(n, load, beta)
  }

  function UtilizationDesired(load: real, utilization: real): (n: int)
    requires load > 0.0 && 0.0 < utilization <= 1.0
    ensures forall k: int :: MeetsUtilization(k, load, utilization) <==> n <= k
    ensures n >= Ceil(load) >= 1
  {
    var n := Ceil(load / utilization);
    UtilizationThreshold(load, utilization);
    n
  }

  lemma UtilizationThreshold(load: real, utilization: real)
    requires load > 0.0 && 0.0 < utilization <= 1.0
    ensures forall k: int :: MeetsUtilization(k, load, utilization) <==> Ceil(load / utilization) <= k
    ensures Ceil(load / utilization) >= Ceil(load) >= 1
  {
    var x := load / utilization;
    assert x * utilization == load;
    assert x >= load;
    forall k: int
      ensures MeetsUtilization(k, load, utilization) <==> Ceil(x) <= k
    {
      if k as real >= x {
        MulMonotone(x, k as real, utilization);
      } else {
        MulStrict(k as real, x, utilization);
      }
    }
  }

  lemma MulMonotone(a: real, b: real, c: real)
    requires a <= b && c >= 0.0
    ensures a * c <= b * c
  {
    assert (b - a) * c >= 0.0;
  }

  lemma MulStrict(a: real, b: real, c: real)
    requires a < b && c > 0.0
    ensures a * c < b * c
  {
    assert (b - a) * c > 0.0;
  }

  lemma SquareMonotone(a: real, b: real)
    requires 0.0 <= a <= b
    ensures a * a <= b * b
  {
    MulMonotone(a, b, a);
    MulMonotone(a, b, b);
  }

  lemma StaffingUpwardClosed(n: int, m: int, load: real, beta: real)
    requires n <= m && MeetsStaffing(n, load, beta)
    ensures MeetsStaffing(m, load, beta)
  {
    SquareMonotone(n as real - load, m as real - load);
  }

  /** A count that certainly satisfies the staffing rule: sqrt(x) never exceeds x + 1. */
  lemma StaffingBound(load: real, beta: real)
    requires load > 0.0 && beta >= 0.0
    ensures MeetsStaffing(Ceil(load + beta * (load + 1.0)), load, beta)
  {
    var slack := beta * (load + 1.0);
    assert slack * slack == beta * beta * ((load + 1.0) * (load + 1.0));
    assert (load + 1.0) * (load + 1.0) >= load;
    MulMonotone(load, (load + 1.0) * (load + 1.0), beta * beta);
    SquareMonotone(slack, Ceil(load + slack) as real - load);
  }

  /** The least count from start on that satisfies the staffing rule; enough certainly does. */
  function LeastStaffing(load: real, beta: real, start: int, enough: int): (n: int)
    requires start <= enough && MeetsStaffing(enough, load, beta)
    ensures start <= n <= enough && MeetsStaffing(n, load, beta)
    ensures forall k: int | start <= k < n :: !MeetsStaffing(k, load, beta)
    decreases enough - start
  {
    if MeetsStaffing(start, load, beta) then start else LeastStaffing(load, beta, start + 1, enough)
  }

  function HalfinWhittDesired(load: real, beta: real): (n: int)
    requires load > 0.0 && beta >= 0.0
    ensures n >= Ceil(load) >= 1
    ensures forall k: int :: MeetsStaffing(k, load, beta) <==> n <= k
  {
    StaffingBound(load, beta);
    MulNonNegative(beta, load + 1.0);
    var n := LeastStaffing(load, beta, Ceil(load), Ceil(load + beta * (load + 1.0)));
    StaffingThreshold(load, beta, n);
    n
  }

  lemma MulNonNegative(a: real, b: real)
    requires a >= 0.0 && b >= 0.0
    ensures a * b >= 0.0
  {}

  lemma StaffingThreshold(load: real, beta: real, n: int)
    requires load > 0.0 && MeetsStaffing(n, load, beta)
    requires forall k: int | Ceil(load) <= k < n :: !MeetsStaffing(k, load, beta)
    ensures forall k: int :: MeetsStaffing(k, load, beta) <==> n <= k
  {
    forall k: int
      ensures MeetsStaffing(k, load, beta) <==> n <= k
    {
      if n <= k {
        StaffingUpwardClosed(n, k, load, beta);
      }
    }
  }

  /** The search finds the source's ceil(load + beta * sqrt(load)), whatever non-negative root math.Sqrt returns. */
  lemma HalfinWhittIsCeilOfSqrt(load: real, beta: real, root: real)
    requires load > 0.0 && beta >= 0.0 && root >= 0.0 && root * root == load
    ensures HalfinWhittDesired(load, beta) == Ceil(load + beta * root)
  {
    var need := beta * root;
    var c := Ceil(load + need);
    assert need >= 0.0;
    assert need * need == beta * beta * load by {
      assert need * need == beta * beta * (root * root);
    }
    SquareMonotone(need, c as real - load);
    assert MeetsStaffing(c, load, beta);
    var slack := (c - 1) as real - load;
    if slack >= 0.0 {
      assert slack < need;
      StrictSquareMonotone(slack, need);
    }
    assert !MeetsStaffing(c - 1, load, beta);
  }

  lemma StrictSquareMonotone(a: real, b: real)
    requires 0.0 <= a < b
    ensures a * a < b * b
  {
    assert b * b - a * a == (b - a) * (b + a);
    MulStrict(0.0, b - a, b + a);
  }

  /** Offered load in busy workers: smoothed arrivals plus, while there is backlog, the drain rate. */
  function LoadFor(arrivalRate: real, backlog: int, drainRate: real, capacity: real): (load: real)
    requires capacity > 0.0
  {
    var required := arrivalRate + if backlog > 0 then drainRate else 0.0;
    if required > 0.0 then required / capacity else 0.0
  }

  /**
   computeRateBasedDesiredCapacity: the least count that is adequate for the offered load, clamped to
   the configured bounds.
   */
  function DesiredCount(arrivalRate: real, backlog: int, drainRate: real, capacity: real,
                        utilization: real, beta: real, minCount: int, maxCount: int): (n: int)
    requires capacity > 0.0 && 0.0 < utilization <= 1.0 && beta >= 0.0
    requires 0 <= minCount <= maxCount
    ensures minCount <= n <= maxCount
    ensures n < maxCount ==> Adequate(n, LoadFor(arrivalRate, backlog, drainRate, capacity), utilization, beta)
    ensures forall k: int | minCount <= k < n ::
              !Adequate(k, LoadFor(arrivalRate, backlog, drainRate, capacity), utilization, beta)
  {
    var load := LoadFor(arrivalRate, backlog, drainRate, capacity);
    var utilizationDesired := if load > 0.0 then UtilizationDesired(load, utilization) else 0;
    var halfinWhittDesired := if load > 0.0 then HalfinWhittDesired(load, beta) else 0;
    var rawDesired := Min(Max(Max(utilizationDesired, halfinWhittDesired), 0), maxCount);
    Min(Max(rawDesired, minCount), maxCount)
  }

  /** The simulator's computeScalePlan, sized as base plus spare consumers: the same count on the same inputs. */
  function SimulatorDesired(arrivalRate: real, backlog: int, drainRate: real, capacity: real,
                            utilization: real, beta: real, minCount: int, maxCount: int): (n: int)
    requires capacity > 0.0 && 0.0 < utilization <= 1.0 && beta >= 0.0
    requires 0 <= minCount <= maxCount
    ensures n == DesiredCount(arrivalRate, backlog, drainRate, capacity, utilization, beta, minCount, maxCount)
  {
    var load := LoadFor(arrivalRate, backlog, drainRate, capacity);
    var base := if load > 0.0 then Ceil(load) else 0;
    var utilizationDesired := if load > 0.0 then UtilizationDesired(load, utilization) else 0;
    var halfinWhittDesired := if load > 0.0 then HalfinWhittDesired(load, beta) else 0;
    var spare := Max(0, Max(utilizationDesired - base, halfinWhittDesired - base));
    Min(maxCount, Max(minCount, base + spare))
  }

  // ----- The same count without dividing -----

  /**
   n workers of the given capacity carry the required rate: at the utilization target, and with beta square roots of the
   load to spare.
   */
  predicate Carries(n: int, required: real, capacity: real, utilization: real, beta: real) {
    var supply := n as real * capacity;
    required > 0.0 ==>
      && supply * utilization >= required
      && IsSpare(supply - required, required, capacity, beta)
  }

  /** That much rate to spare is not negative and worth beta square roots of the load (squared, so without the root). */
  predicate IsSpare(spare: real, required: real, capacity: real, beta: real) {
    spare >= 0.0 && spare * spare >= beta * beta * required * capacity
  }

  /** The least count within the bounds that carries the required rate, or the upper bound if none does. */
  ghost predicate IsTarget(n: int, required: real, capacity: real, utilization: real, beta: real,
                           minCount: int, maxCount: int) {
    && minCount <= n <= maxCount
    && (n < maxCount ==> Carries(n, required, capacity, utilization, beta))
    && forall k: int | minCount <= k < n :: !Carries(k, required, capacity, utilization, beta)
  }

  lemma TargetIsUnique(n: int, m: int, required: real, capacity: real, utilization: real, beta: real,
                       minCount: int, maxCount: int)
    requires IsTarget(n, required, capacity, utilization, beta, minCount, maxCount)
    requires IsTarget(m, required, capacity, utilization, beta, minCount, maxCount)
    ensures n == m
  {
    hide Carries;
    assert n < m ==> Carries(n, required, capacity, utilization, beta);
    assert m < n ==> Carries(m, required, capacity, utilization, beta);
  }

  lemma DesiredCountIsTarget(arrivalRate: real, backlog: int, drainRate: real, capacity: real,
                             utilization: real, beta: real, minCount: int, maxCount: int)
    requires capacity > 0.0 && 0.0 < utilization <= 1.0 && beta >= 0.0
    requires 0 <= minCount <= maxCount
    ensures
      var required := arrivalRate + if backlog > 0 then drainRate else 0.0;
      IsTarget(DesiredCount(arrivalRate, backlog, drainRate, capacity, utilization, beta, minCount, maxCount),
               required, capacity, utilization, beta, minCount, maxCount)
  {
    hide Adequate, Carries, LoadFor;
    var required := arrivalRate + if backlog > 0 then drainRate else 0.0;
    var load := LoadFor(arrivalRate, backlog, drainRate, capacity);
    forall n: int
      ensures Adequate(n, load, utilization, beta) <==> Carries(n, required, capacity, utilization, beta)
    {
      AdequateIsCarrying(n, arrivalRate, backlog, drainRate, capacity, utilization, beta);
    }
  }

  lemma AdequateIsCarrying(n: int, arrivalRate: real, backlog: int, drainRate: real, capacity: real,
                           utilization: real, beta: real)
    requires capacity > 0.0
    ensures
      var required := arrivalRate + if backlog > 0 then drainRate else 0.0;
      var load := LoadFor(arrivalRate, backlog, drainRate, capacity);
      Adequate(n, load, utilization, beta) <==> Carries(n, required, capacity, utilization, beta)
  {
    var required := arrivalRate + if backlog > 0 then drainRate else 0.0;
    if required > 0.0 {
      var load := LoadFor(arrivalRate, backlog, drainRate, capacity);
      assert load * capacity == required && load > 0.0;
      CarriesLoad(n, load, required, capacity, utilization, beta);
    }
  }

  lemma CarriesLoad(n: int, load: real, required: real, capacity: real, utilization: real, beta: real)
    requires capacity > 0.0 && load > 0.0 && load * capacity == required && required > 0.0
    ensures Adequate(n, load, utilization, beta) <==> Carries(n, required, capacity, utilization, beta)
  {
    hide MeetsUtilization, MeetsStaffing, IsSpare;
    UtilizationScales(n, load, required, capacity, utilization);
    StaffingScales(n, load, required, capacity, beta);
  }

  lemma UtilizationScales(n: int, load: real, required: real, capacity: real, utilization: real)
    requires capacity > 0.0 && load * capacity == required
    ensures MeetsUtilization(n, load, utilization) <==> n as real * capacity * utilization >= required
  {
    ScaledAtLeast(n as real * utilization, load, capacity);
    SwapFactors(n as real, utilization, capacity);
  }

  lemma StaffingScales(n: int, load: real, required: real, capacity: real, beta: real)
    requires capacity > 0.0 && load * capacity == required
    ensures MeetsStaffing(n, load, beta) <==> IsSpare(n as real * capacity - required, required, capacity, beta)
  {
    Distribute(n as real, load, capacity);
    SpareScales(n as real - load, n as real * capacity - required, load, required, capacity, beta);
  }

  lemma SpareScales(slack: real, spare: real, load: real, required: real, capacity: real, beta: real)
    requires capacity > 0.0 && load * capacity == required && slack * capacity == spare
    ensures slack >= 0.0 && slack * slack >= beta * beta * load <==> IsSpare(spare, required, capacity, beta)
  {
    ScaledAtLeast(slack, 0.0, capacity);
    ScaledAtLeast(slack * slack, beta * beta * load, capacity);
    ScaledAtLeast(slack * slack * capacity, beta * beta * load * capacity, capacity);
    SquareOfProduct(slack, capacity);
    Regroup(beta * beta, load, capacity);
  }

  lemma SquareOfProduct(a: real, b: real)
    ensures (a * b) * (a * b) == a * a * b * b
  {}

  lemma Regroup(a: real, b: real, c: real)
    ensures a * (b * c) * c == a * b * c * c
  {}

  lemma SwapFactors(a: real, b: real, c: real)
    ensures a * b * c == a * c * b
  {}

  lemma Distribute(a: real, b: real, c: real)
    ensures (a - b) * c == a * c - b * c
  {}

  lemma ScaledAtLeast(a: real, b: real, c: real)
    requires c > 0.0
    ensures a * c >= b * c <==> a >= b
  {
    if a >= b {
      MulMonotone(b, a, c);
    } else {
      MulStrict(a, b, c);
    }
  }

  lemma AdequateAntitoneInLoad(n: int, small: real, large: real, utilization: real, beta: real)
    requires small <= large && Adequate(n, large, utilization, beta)
    ensures Adequate(n, small, utilization, beta)
  {
    if small > 0.0 {
      SquareMonotone(n as real - large, n as real - small);
      assert beta * beta >= 0.0;
      MulMonotone(small, large, beta * beta);
    }
  }

  /** More arrivals, the presence of backlog and slower workers never lower the desired count. */
  lemma DesiredIsMonotone(arrival1: real, backlog1: int, capacity1: real, arrival2: real, backlog2: int,
                          capacity2: real,
                          drainRate: real, utilization: real, beta: real, minCount: int, maxCount: int)
    requires 0.0 < utilization <= 1.0 && beta >= 0.0 && drainRate >= 0.0
    requires 0 <= minCount <= maxCount
    requires arrival1 <= arrival2 && (backlog1 > 0 ==> backlog2 > 0) && 0.0 < capacity2 <= capacity1
    ensures DesiredCount(arrival1, backlog1, drainRate, capacity1, utilization, beta, minCount, maxCount)
         <= DesiredCount(arrival2, backlog2, drainRate, capacity2, utilization, beta, minCount, maxCount)
  {
    var load1 := LoadFor(arrival1, backlog1, drainRate, capacity1);
    var load2 := LoadFor(arrival2, backlog2, drainRate, capacity2);
    if load1 > 0.0 {
      QuotientMonotone(arrival1 + if backlog1 > 0 then drainRate else 0.0, capacity1,
                       arrival2 + if backlog2 > 0 then drainRate else 0.0, capacity2);
    }
    var n2 := DesiredCount(arrival2, backlog2, drainRate, capacity2, utilization, beta, minCount, maxCount);
    if n2 < maxCount {
      AdequateAntitoneInLoad(n2, load1, load2, utilization, beta);
    }
  }

  lemma QuotientMonotone(r1: real, c1: real, r2: real, c2: real)
    requires 0.0 < r1 <= r2 && 0.0 < c2 <= c1
    ensures r1 / c1 <= r2 / c2
  {
    var l1, l2 := r1 / c1, r2 / c2;
    assert l1 * c1 == r1 && l2 * c2 == r2;
    MulMonotone(c2, c1, l1);
    if l2 < l1 {
      MulStrict(l2, l1, c2);
    }
  }
}
