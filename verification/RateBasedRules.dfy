/**
 What each decision of the rate-based scaler does, in terms of the configuration, the estimates, the clock and the
 stored times alone. The entry points are proved against functions; the rules here do not mention the functions' parts.
 */
module RateBasedRules {
  import opened Arithmetic
  import opened ScalingTypes
  import opened Sizing
  import opened RateBased

  /**
   A poll. Let the target be the least count within the bounds that carries the smoothed arrival rate, plus the drain
   rate while there is backlog, at the estimated capacity per worker (the configured one without an estimate). A count
   below the target rises, to the target or by the step cap, exactly if the scale-up cooldown is over; a count above it
   falls by one exactly if the quiet period and the scale-down cooldown are over; at the target it stays.
   */
  lemma PollByRule(c: Config, v: View, m: Aggregate, now: int)
    requires ValidConfig(c)
    ensures
      var r := PollOf(c, v, m, now);
      var required := (if r.view.arrival.Some? then r.view.arrival.value else 0.0)
        + if m.backlog > 0 then c.drainRate else 0.0;
      var capacity := if r.view.capacity.Some? && r.view.capacity.value > 0.0 then r.view.capacity.value
                      else c.initialCapacity;
      && r.view.lastNoSync == v.lastNoSync
      && exists target ::
           && IsTarget(target, required, capacity, c.utilization, c.beta, c.minCount, c.maxCount)
           && MovesBy(c, v, target, r, now)
  {
    hide IsTarget, Estimates, DesiredCount, Carries, Decide, MovesBy;
    var r, e := PollOf(c, v, m, now), Estimates(c, v, m);
    var target := Desired(c, e, m.backlog);
    DesiredCountIsTarget(GetOr(e.arrival, 0.0), m.backlog, c.drainRate, Capacity(c, e), c.utilization, c.beta,
                         c.minCount, c.maxCount);
    DecideByRule(c, v, e, target, now);
    var required := (if r.view.arrival.Some? then r.view.arrival.value else 0.0)
      + if m.backlog > 0 then c.drainRate else 0.0;
    assert required == GetOr(e.arrival, 0.0) + if m.backlog > 0 then c.drainRate else 0.0;
    assert IsTarget(target, required, Capacity(c, e), c.utilization, c.beta, c.minCount, c.maxCount);
    assert MovesBy(c, v, target, r, now);
  }

  /** The step a poll at the given time takes from v towards the target. */
  predicate MovesBy(c: Config, v: View, target: int, r: PollResult, now: int) {
    if v.count < target && now - v.lastUp >= c.upCooldown then
      && r.view.count == (if target - v.count <= c.maxStep then target else v.count + c.maxStep)
      && r.view.lastUp == now && r.view.lastDown == v.lastDown
      && r.actions == [Action(UpdateWorkerSetSize, Some(r.view.count), "")] && r.reason == NotBlocked
    else if v.count > target && now - v.lastNoSync >= c.noSyncQuiet && now - v.lastDown >= c.downCooldown then
      && r.view.count == v.count - 1
      && r.view.lastUp == v.lastUp && r.view.lastDown == now
      && r.actions == [Action(UpdateWorkerSetSize, Some(r.view.count), "")] && r.reason == NotBlocked
    else
      && r.view.count == v.count && r.view.lastUp == v.lastUp && r.view.lastDown == v.lastDown
      && r.actions == []
      && r.reason == (if v.count < target then BlockedByUpCooldown
                      else if v.count == target then DesiredEqualsCurrent
                      else if now - v.lastNoSync < c.noSyncQuiet then BlockedByNoSyncQuiet
                      else BlockedByDownCooldown)
  }

  lemma DecideByRule(c: Config, v: View, e: View, target: int, now: int)
    requires ValidConfig(c) && c.minCount <= target <= c.maxCount
    requires e == v.(arrival := e.arrival, dispatch := e.dispatch, capacity := e.capacity)
    ensures
      var r := Decide(c, e, target, now);
      && r.view == e.(count := r.view.count, lastUp := r.view.lastUp, lastDown := r.view.lastDown)
      && MovesBy(c, v, target, r, now)
  {
  }

  /**
   The estimates a poll leaves. Samples are smoothed by alpha, the first one taken as it is, and an idle poll leaves
   both rates at zero; with enough backlog, dispatch per worker is blended into the capacity.
   */
  lemma PollEstimatesByRule(c: Config, v: View, m: Aggregate, now: int)
    requires ValidConfig(c)
    ensures
      var r := PollOf(c, v, m, now).view;
      var idle := m.backlog == 0 && m.arrivalRate == 0.0 && m.dispatchRate == 0.0;
      && (!m.hasData ==> r.arrival == v.arrival && r.dispatch == v.dispatch)
      && (m.hasData && idle ==> r.arrival == r.dispatch == Some(0.0))
      && (m.hasData && !idle ==> IsSmoothed(c.alpha, m.arrivalRate, v.arrival, r.arrival))
      && (m.hasData && !idle ==> IsSmoothed(c.alpha, m.dispatchRate, v.dispatch, r.dispatch))
      && (if m.backlog >= c.backlogThreshold then IsSampled(c, v, m.dispatchRate, r.capacity)
          else r.capacity == v.capacity)
  {
    hide Desired, Smooth, SampleCapacity, IsSmoothed, IsSampled;
    var r, e := PollOf(c, v, m, now).view, Estimates(c, v, m);
    assert r.arrival == e.arrival && r.dispatch == e.dispatch && r.capacity == e.capacity;
    SampleKeeps(c, SnapIdle(SmoothRates(c, v, m), m), m.dispatchRate);
    SmoothMeans(c.alpha, m.arrivalRate, v.arrival);
    SmoothMeans(c.alpha, m.dispatchRate, v.dispatch);
    SampleMeans(c, SnapIdle(SmoothRates(c, v, m), m), v, m.dispatchRate);
  }

  /** The first sample is taken as it is, a later one moves the rate by alpha. */
  predicate IsSmoothed(alpha: real, sample: real, before: Option<real>, after: Option<real>) {
    && (before.None? ==> after == Some(sample))
    && (before.Some? ==> after.Some? && after.value == alpha * sample + (1.0 - alpha) * before.value)
  }

  lemma SmoothMeans(alpha: real, sample: real, before: Option<real>)
    ensures IsSmoothed(alpha, sample, before, Some(Smooth(alpha, sample, before)))
  {
  }

  /** Dispatch per planned worker is blended into the capacity, or into the initial one; none leaves it as it is. */
  predicate IsSampled(c: Config, v: View, dispatchRate: real, after: Option<real>) {
    var before := if v.capacity.Some? && v.capacity.value > 0.0 then v.capacity.value else c.initialCapacity;
    if v.count > 0 && dispatchRate > 0.0
    then after.Some? && after.value == c.alpha * (dispatchRate / v.count as real) + (1.0 - c.alpha) * before
    else after == v.capacity
  }

  lemma SampleMeans(c: Config, smoothed: View, v: View, dispatchRate: real)
    requires smoothed.count == v.count && smoothed.capacity == v.capacity
    ensures IsSampled(c, v, dispatchRate, SampleCapacity(c, smoothed, dispatchRate).capacity)
  {
  }

  lemma SampleKeeps(c: Config, v: View, dispatchRate: real)
    ensures SampleCapacity(c, v, dispatchRate) == v.(capacity := SampleCapacity(c, v, dispatchRate).capacity)
  {
  }

  /**
   A task-add. One that carries a no-sync match stamps its time, asks for a deferred decision, and adds one worker
   exactly if the count is below the maximum and the scale-up cooldown is over; only then is its batch not throttled.
   Any other does nothing.
   */
  lemma TaskAddByRule(c: Config, v: View, isSyncMatch: bool, noSyncBatch: int, now: int)
    ensures
      var r := TaskAddOf(c, v, isSyncMatch, noSyncBatch, now);
      var noSync := !isSyncMatch || noSyncBatch != 0;
      var grows := noSync && v.count < c.maxCount && now - v.lastUp >= c.upCooldown;
      && (r.view.count == v.count + 1 <==> grows) && (r.view.count == v.count <==> !grows)
      && r.view.lastUp == (if grows then now else v.lastUp)
      && r.view.lastNoSync == (if noSync then now else v.lastNoSync)
      && r.view == v.(count := r.view.count, lastUp := r.view.lastUp, lastNoSync := r.view.lastNoSync)
      && r.actions == (if grows then [Action(UpdateWorkerSetSize, Some(r.view.count), "")] else [])
           + (if noSync then [Action(DeferredScalingDecision, None, "")] else [])
      && r.throttled == if noSync && !grows then noSyncBatch else 0
  {
  }

  /**
   A deferred decision fails exactly without a getter, or when workers are planned and the fetch fails; otherwise all it
   can change is the capacity, by the dispatch rate per planned worker.
   */
  lemma DeferredByRule(c: Config, v: View, getter: SnapshotGetter)
    requires ValidConfig(c)
    ensures
      var r := DeferredOf(c, v, getter);
      var m := if getter.Fetches? && getter.snapshot.Some? then AggregateOf(getter.snapshot.value) else NO_METRICS;
      && (r.None? <==> getter.NoGetter? || (v.count > 0 && getter.FetchFails?))
      && (r.Some? ==> r.value == v.(capacity := r.value.capacity))
      && (r.Some? ==> IsSampled(c, v, m.dispatchRate, r.value.capacity))
  {
    hide SampleCapacity, IsSampled;
    SampleKeeps(c, v, AggregateMaybe(if getter.Fetches? then getter.snapshot else None).dispatchRate);
    var m := AggregateMaybe(if getter.Fetches? then getter.snapshot else None);
    SampleMeans(c, v, v, m.dispatchRate);
  }

  /** Registering task queues takes the count to the nearest one within the bounds that is not zero, and only that. */
  lemma RegistrationByRule(c: Config, v: View)
    requires ValidConfig(c)
    ensures
      var r := RegistrationOf(c, v);
      var low := if c.minCount > 0 then c.minCount else 1;
      && r == v.(count := r.count)
      && r.count == if v.count < low then low else if v.count > c.maxCount then c.maxCount else v.count
  {
  }

  /**
   Cleaning keeps a slot untouched or drops it. It keeps exactly: a worker count that is a whole number within int32 and
   not negative, a finite rate, a finite positive capacity, and a time that is a whole number within int64 and not
   negative.
   */
  lemma CleanedByRule(s: Status, k: Key)
    ensures k in Cleaned(s) ==> k in s && Cleaned(s)[k] == s[k]
    ensures k in Cleaned(s) <==>
              k in s && match k
                        case WorkerCount =>
                          (s[k].Integer? && 0 <= s[k].n <= 0x7fff_ffff)
                            || (s[k].Float? && IsWhole(s[k].x) && 0.0 <= s[k].x <= 0x7fff_ffff as real)
                        case EwmaArrival => s[k].Float?
                        case EwmaDispatch => s[k].Float?
                        case EwmaCapacity => s[k].Float? && s[k].x > 0.0
                        case Unknown(_) => false
                        case _ =>
                          (s[k].Integer? && 0 <= s[k].n)
                            || (s[k].Float? && IsWhole(s[k].x) && 0.0 <= s[k].x < 0x8000_0000_0000_0000 as real)
  {
  }

  /** The reading of a clean status: each slot's number, the initial count and zero times where a slot is missing. */
  lemma ViewByRule(c: Config, s: Status)
    requires WellFormed(s)
    ensures
      var v := ViewOf(c, s);
      && (WorkerCount !in s ==> v.count == c.initialCount) && (WorkerCount in s ==> IsNumber(s[WorkerCount], v.count))
      && (LastUp !in s ==> v.lastUp == 0) && (LastUp in s ==> IsNumber(s[LastUp], v.lastUp))
      && (LastDown !in s ==> v.lastDown == 0) && (LastDown in s ==> IsNumber(s[LastDown], v.lastDown))
      && (LastNoSync !in s ==> v.lastNoSync == 0) && (LastNoSync in s ==> IsNumber(s[LastNoSync], v.lastNoSync))
      && v.arrival == (if EwmaArrival in s then Some(s[EwmaArrival].x) else None)
      && v.dispatch == (if EwmaDispatch in s then Some(s[EwmaDispatch].x) else None)
      && v.capacity == (if EwmaCapacity in s then Some(s[EwmaCapacity].x) else None)
  {
  }

  /** The slot holds the integer n, as an integer or, after a trip through JSON, as a float. */
  predicate IsNumber(raw: Raw, n: int) {
    raw == Float(n as real) || (raw.Integer? && raw.n == n)
  }
}
