/**
 The rate-based scaler. The persisted status is a map of loosely typed slots; the entry points clean it
 and then edit it slot by slot. Each entry point is proved against a function on View, the trusted
 reading of a cleaned status.
 */
module RateBased {
  import opened Arithmetic
  import opened ScalingTypes
  import opened Sizing

  // ----- Configuration -----

  datatype Config = Config(
    minCount: int, maxCount: int, initialCount: int, pollInterval: int,
    alpha: real, initialCapacity: real, drainRate: real, backlogThreshold: int,
    utilization: real, beta: real, maxStep: int,
    upCooldown: int, downCooldown: int, noSyncQuiet: int)

  datatype ConfigError =
    | BelowMinimum | ExceedsInt32 | MinExceedsMax | InitialOutOfRange
    | BadAlpha | BadCapacity | BadUtilization
    | PollShorterThanUpCooldown | PollShorterThanDownCooldown

  predicate ValidConfig(c: Config) {
    && 0 <= c.minCount <= c.initialCount <= c.maxCount
    && 1 <= c.maxCount <= MAX_INT32
    && 1 <= c.maxStep <= MAX_INT32
    && c.backlogThreshold >= 1
    && 0.0 < c.alpha <= 1.0 && 0.0 < c.utilization <= 1.0
    && c.initialCapacity > 0.0 && c.drainRate >= 0.0 && c.beta >= 0.0
    && 0 <= c.upCooldown <= c.pollInterval && 0 <= c.downCooldown <= c.pollInterval
    && c.pollInterval >= 30_000 && c.noSyncQuiet >= 0
  }

  /** The checks in the source's order. */
  function ValidateConfig(c: Config): (error: Option<ConfigError>)
    ensures error.None? <==> ValidConfig(c)
  {
    if || c.minCount < 0 || c.maxCount < 1 || c.initialCount < 0 || c.pollInterval < 30_000
       || c.backlogThreshold < 1 || c.maxStep < 1 || c.upCooldown < 0 || c.downCooldown < 0 || c.noSyncQuiet < 0
    then Some(BelowMinimum)
    else if c.alpha < 0.0 || c.initialCapacity < 0.0 || c.drainRate < 0.0 || c.utilization < 0.0 || c.beta < 0.0
    then Some(BelowMinimum)
    else if c.minCount > MAX_INT32 || c.maxCount > MAX_INT32 || c.initialCount > MAX_INT32 || c.maxStep > MAX_INT32
    then Some(ExceedsInt32)
    else if c.minCount > c.maxCount then Some(MinExceedsMax)
    else if c.initialCount < c.minCount || c.initialCount > c.maxCount then Some(InitialOutOfRange)
    else if c.alpha <= 0.0 || c.alpha > 1.0 then Some(BadAlpha)
    else if c.initialCapacity <= 0.0 then Some(BadCapacity)
    else if c.utilization <= 0.0 || c.utilization > 1.0 then Some(BadUtilization)
    else if c.upCooldown > 0 && c.pollInterval < c.upCooldown then Some(PollShorterThanUpCooldown)
    else if c.downCooldown > 0 && c.pollInterval < c.downCooldown then Some(PollShorterThanDownCooldown)
    else None
  }

  // ----- Persisted status -----

  datatype Key =
    | WorkerCount | EwmaArrival | EwmaDispatch | EwmaCapacity
    | LastUp | LastDown | LastNoSync
    | Unknown(name: string)

  /** A stored slot: a Go int or int64, a finite float64, a non-finite one, or anything else. */
  datatype Raw = Integer(n: int64) | Float(x: real) | NonFinite | Other

  type Status = map<Key, Raw>

  predicate IsWhole(x: real) { x.Floor as real == x }

  predicate ValidNonNegativeInt32(raw: Raw) {
    match raw
    case Integer(n) => 0 <= n <= MAX_INT32
    case Float(x) => 0.0 <= x <= MAX_INT32 as real && IsWhole(x)
    case _ => false
  }

  predicate ValidNonNegativeInt64(raw: Raw) {
    match raw
    case Integer(n) => n >= 0
    case Float(x) => 0.0 <= x < TWO_TO_THE_63 as real && IsWhole(x)
    case _ => false
  }

  /** What later code may rely on for one slot. */
  predicate ValidSlot(k: Key, raw: Raw) {
    match k
    case WorkerCount => ValidNonNegativeInt32(raw)
    case EwmaArrival => raw.Float?
    case EwmaDispatch => raw.Float?
    case EwmaCapacity => raw.Float? && raw.x > 0.0
    case LastUp => ValidNonNegativeInt64(raw)
    case LastDown => ValidNonNegativeInt64(raw)
    case LastNoSync => ValidNonNegativeInt64(raw)
    case Unknown(_) => false
  }

  ghost predicate WellFormed(s: Status) {
    forall k | k in s :: ValidSlot(k, s[k])
  }

  /** What cleaning keeps. */
  function Cleaned(s: Status): (r: Status)
    ensures WellFormed(r)
    ensures WellFormed(s) ==> r == s
  {
    map k | k in s && ValidSlot(k, s[k]) :: s[k]
  }

  /** cleanRateBasedState: deletes, pass by pass, whatever Cleaned does not keep. */
  method CleanState(prior: Status) returns (s: Status)
    ensures s == Cleaned(prior)
  {
    s := DropUnknownSlots(prior);
    s := DropWrongTypedFloats(s);
    s := DropBadNumbers(s);
    s := DropBadTimestamps(s);
  }

  /** The first loop: slots nobody knows. */
  method DropUnknownSlots(prior: Status) returns (s: Status)
    ensures s == map k | k in prior && !k.Unknown? :: prior[k]
  {
    s := prior;
    var unvisited := s.Keys;
    while unvisited != {}
      invariant unvisited <= prior.Keys
      invariant s == map k | k in prior && (k in unvisited || !k.Unknown?) :: prior[k]
      decreases unvisited
    {
      var k :| k in unvisited;
      unvisited := unvisited - {k};
      if k.Unknown? {
        s := s - {k};
      }
    }
  }

  /** The second loop: rate slots that do not hold a finite float. */
  method DropWrongTypedFloats(prior: Status) returns (s: Status)
    ensures s == map k | k in prior && (k in {EwmaArrival, EwmaDispatch, EwmaCapacity} ==> prior[k].Float?) :: prior[k]
  {
    s := prior;
    var keys := [EwmaArrival, EwmaDispatch, EwmaCapacity];
    for i := 0 to 3
      invariant s == map k | k in prior && (k in keys[..i] ==> prior[k].Float?) :: prior[k]
    {
      var key := keys[i];
      assert keys[..i + 1] == keys[..i] + [key];
      if key in s && !s[key].Float? {
        s := s - {key};
      }
    }
    assert keys[..3] == keys;
  }

  /** Capacity estimates that are not positive, counts that are not non-negative int32s. */
  method DropBadNumbers(prior: Status) returns (s: Status)
    ensures s == map k | k in prior && (k == EwmaCapacity && prior[k].Float? ==> prior[k].x > 0.0)
                       && (k == WorkerCount ==> ValidNonNegativeInt32(prior[k])) :: prior[k]
  {
    s := prior;
    if EwmaCapacity in s && s[EwmaCapacity].Float? && s[EwmaCapacity].x <= 0.0 {
      s := s - {EwmaCapacity};
    }
    if WorkerCount in s && !ValidNonNegativeInt32(s[WorkerCount]) {
      s := s - {WorkerCount};
    }
  }

  /** The last loop: timestamps that are not non-negative integers. */
  method DropBadTimestamps(prior: Status) returns (s: Status)
    ensures s == map k | k in prior
        && (k in {LastUp, LastDown, LastNoSync} ==> ValidNonNegativeInt64(prior[k])) :: prior[k]
  {
    s := prior;
    var keys := [LastUp, LastDown, LastNoSync];
    for i := 0 to 3
      invariant s == map k | k in prior && (k in keys[..i] ==> ValidNonNegativeInt64(prior[k])) :: prior[k]
    {
      var key := keys[i];
      assert keys[..i + 1] == keys[..i] + [key];
      if key in s && !ValidNonNegativeInt64(s[key]) {
        s := s - {key};
      }
    }
    assert keys[..3] == keys;
  }

  /** Persisting through JSON turns every integer into a float64. */
  function JsonTrip(s: Status): Status {
    map k | k in s :: (match s[k] case Integer(n) => Float(n as real) case raw => raw)
  }

  // ----- The trusted reading of a status -----

  datatype View = View(count: int, arrival: Option<real>, dispatch: Option<real>, capacity: Option<real>,
                       lastUp: int, lastDown: int, lastNoSync: int)

  function GetOr(o: Option<real>, default: real): real {
    match o case None => default case Some(x) => x
  }

  function IntField(s: Status, k: Key, default: int): int {
    if k !in s then default else
    match s[k]
    case Integer(n) => n
    case Float(x) => if x >= 0.0 then x.Floor else -((-x).Floor)
    case _ => default
  }

  function FloatField(s: Status, k: Key): Option<real> {
    if k in s && s[k].Float? then Some(s[k].x) else None
  }

  /** currentRateBasedPlannedCount: the stored count, or initial_count before the first decision. */
  function PlannedCount(c: Config, s: Status): int {
    if WorkerCount in s then IntField(s, WorkerCount, 0) else c.initialCount
  }

  function ViewOf(c: Config, s: Status): View {
    View(PlannedCount(c, s), FloatField(s, EwmaArrival), FloatField(s, EwmaDispatch), FloatField(s, EwmaCapacity),
         IntField(s, LastUp, 0), IntField(s, LastDown, 0), IntField(s, LastNoSync, 0))
  }

  /** A status any entry point may return survives the JSON trip: still clean, and read the same. */
  lemma JsonTripPreserves(c: Config, s: Status)
    requires WellFormed(s)
    ensures WellFormed(JsonTrip(s)) && Cleaned(JsonTrip(s)) == JsonTrip(s)
    ensures ViewOf(c, Cleaned(JsonTrip(s))) == ViewOf(c, s)
  {
    forall k | k in s
      ensures ValidSlot(k, JsonTrip(s)[k])
    {
      if s[k].Integer? {
        assert IsWhole(s[k].n as real);
      }
    }
  }

  // ----- Metrics -----

  datatype Aggregate = Aggregate(backlog: int, arrivalRate: real, dispatchRate: real, hasData: bool,
                                 dropped: seq<QueueType>)

  const NO_METRICS := Aggregate(0, 0.0, 0.0, false, [])

  /** A sample counts only when both rates are finite and nothing is negative. */
  predicate Usable(m: QueueMetrics) {
    m.arrivalRate.Finite? && m.processingRate.Finite? &&
    m.arrivalRate.value >= 0.0 && m.processingRate.value >= 0.0 && m.backlog >= 0
  }

  predicate HasSample(m: Option<QueueMetrics>) { m.Some? && Usable(m.value) }

  /** A nil queue adds nothing, an unusable one is only reported as dropped. */
  function Include(a: Aggregate, q: QueueType, m: Option<QueueMetrics>): (r: Aggregate)
    ensures r.hasData <==> a.hasData || HasSample(m)
    ensures HasSample(m) ==> r.backlog == a.backlog + m.value.backlog >= a.backlog
    ensures HasSample(m) ==> r.arrivalRate == a.arrivalRate + m.value.arrivalRate.value >= a.arrivalRate
    ensures HasSample(m) ==> r.dispatchRate == a.dispatchRate + m.value.processingRate.value >= a.dispatchRate
    ensures !HasSample(m) ==> r == a.(dropped := r.dropped)
    ensures r.dropped == if m.Some? && !Usable(m.value) then a.dropped + [q] else a.dropped
  {
    if m.None? then a
    else if !Usable(m.value) then a.(dropped := a.dropped + [q])
    else a.(backlog := a.backlog + m.value.backlog, arrivalRate := a.arrivalRate + m.value.arrivalRate.value,
            dispatchRate := a.dispatchRate + m.value.processingRate.value, hasData := true)
  }

  function AggregateOf(s: Snapshot): (a: Aggregate)
    ensures a.hasData <==> HasSample(s.workflow) || HasSample(s.activity) || HasSample(s.nexus)
    ensures a.backlog >= 0 && a.arrivalRate >= 0.0 && a.dispatchRate >= 0.0
    ensures !a.hasData ==> a == NO_METRICS.(dropped := a.dropped)
  {
    Include(Include(Include(NO_METRICS, WorkflowQueue, s.workflow), ActivityQueue, s.activity), NexusQueue, s.nexus)
  }

  /** What one queue reports, unless it is absent or reports something negative or not finite. */
  function Reported(m: Option<QueueMetrics>): Option<(int, real, real)> {
    match m
    case Some(QueueMetrics(backlog, Finite(arrivals), Finite(dispatches))) =>
      if backlog >= 0 && arrivals >= 0.0 && dispatches >= 0.0 then Some((backlog, arrivals, dispatches)) else None
    case _ => None
  }

  function BacklogIn(m: Option<QueueMetrics>): int { if Reported(m).Some? then Reported(m).value.0 else 0 }

  function ArrivalsIn(m: Option<QueueMetrics>): real { if Reported(m).Some? then Reported(m).value.1 else 0.0 }

  function DispatchesIn(m: Option<QueueMetrics>): real { if Reported(m).Some? then Reported(m).value.2 else 0.0 }

  /** The aggregate sums what the queues report; a queue is dropped exactly if it is there and reports nothing. */
  lemma AggregateSums(s: Snapshot)
    ensures
      var a := AggregateOf(s);
      && a.backlog == BacklogIn(s.workflow) + BacklogIn(s.activity) + BacklogIn(s.nexus)
      && a.arrivalRate == ArrivalsIn(s.workflow) + ArrivalsIn(s.activity) + ArrivalsIn(s.nexus)
      && a.dispatchRate == DispatchesIn(s.workflow) + DispatchesIn(s.activity) + DispatchesIn(s.nexus)
      && (a.hasData <==> Reported(s.workflow).Some? || Reported(s.activity).Some? || Reported(s.nexus).Some?)
      && (forall q :: q in a.dropped <==> s.Of(q).Some? && Reported(s.Of(q)).None?)
  {
    var w := Include(NO_METRICS, WorkflowQueue, s.workflow);
    var wa := Include(w, ActivityQueue, s.activity);
    IncludeAddsReport(NO_METRICS, WorkflowQueue, s.workflow);
    IncludeAddsReport(w, ActivityQueue, s.activity);
    IncludeAddsReport(wa, NexusQueue, s.nexus);
    forall q
      ensures q in AggregateOf(s).dropped <==> s.Of(q).Some? && Reported(s.Of(q)).None?
    {
      hide Include, BacklogIn, ArrivalsIn, DispatchesIn, Reported;
      match q
      case WorkflowQueue =>
      case ActivityQueue =>
      case NexusQueue =>
    }
    hide Include, BacklogIn, ArrivalsIn, DispatchesIn, Reported;
  }

  lemma IncludeAddsReport(a: Aggregate, q: QueueType, m: Option<QueueMetrics>)
    ensures
      var r := Include(a, q, m);
      && r.backlog == a.backlog + BacklogIn(m) && r.arrivalRate == a.arrivalRate + ArrivalsIn(m)
      && r.dispatchRate == a.dispatchRate + DispatchesIn(m) && (r.hasData <==> a.hasData || Reported(m).Some?)
      && r.dropped == if m.Some? && Reported(m).None? then a.dropped + [q] else a.dropped
  {
    if m.Some? {
      assert Usable(m.value) <==> Reported(m).Some?;
    }
  }

  ghost function Included(s: Snapshot, i: nat): Aggregate
    requires i <= 3
  {
    if i == 0 then NO_METRICS else Include(Included(s, i - 1), QUEUE_TYPES[i - 1], s.Of(QUEUE_TYPES[i - 1]))
  }

  lemma IncludedAll(s: Snapshot)
    ensures Included(s, 3) == AggregateOf(s)
  {
    assert Included(s, 1) == Include(NO_METRICS, WorkflowQueue, s.workflow);
    assert Included(s, 2) == Include(Included(s, 1), ActivityQueue, s.activity);
  }

  lemma IncludedStep(s: Snapshot, i: nat)
    requires i < 3
    ensures Included(s, 0) == NO_METRICS
    ensures Included(s, i + 1) == Include(Included(s, i), QUEUE_TYPES[i], s.Of(QUEUE_TYPES[i]))
  {
  }

  /** aggregateRateBasedMetrics: sums the usable queues, whatever the others hold. */
  method AggregateMetrics(snapshot: Option<Snapshot>) returns (a: Aggregate)
    ensures a == if snapshot.None? then NO_METRICS else AggregateOf(snapshot.value)
  {
    hide Included, AggregateOf;
    a := NO_METRICS;
    if snapshot.None? {
      return;
    }
    ghost var s := snapshot.value;
    IncludedAll(s);
    IncludedStep(s, 0);
    for i := 0 to |QUEUE_TYPES|
      invariant a == Included(s, i)
    {
      var q := QUEUE_TYPES[i];
      IncludedStep(s, i);
      var metrics := snapshot.value.Of(q);
      if metrics.None? {
        continue;
      }
      var m := metrics.value;
      if !Usable(m) {
        a := a.(dropped := a.dropped + [q]);
        continue;
      }
      a := a.(hasData := true);
      a := a.(backlog := a.backlog + m.backlog);
      a := a.(arrivalRate := a.arrivalRate + m.arrivalRate.value);
      a := a.(dispatchRate := a.dispatchRate + m.processingRate.value);
    }
  }

  // ----- Estimates -----

  /** estimatedRateBasedPerConsumerCapacity. */
  function Capacity(c: Config, v: View): real {
    if v.capacity.Some? && v.capacity.value > 0.0 then v.capacity.value else c.initialCapacity
  }

  function Blend(alpha: real, sample: real, previous: real): real {
    alpha * sample + (1.0 - alpha) * previous
  }

  lemma BlendIsBetween(alpha: real, sample: real, previous: real)
    requires 0.0 < alpha <= 1.0
    ensures sample <= previous ==> sample <= Blend(alpha, sample, previous) <= previous
    ensures previous <= sample ==> previous <= Blend(alpha, sample, previous) <= sample
  {
    BlendShifts(alpha, sample, previous, sample - previous, alpha * (sample - previous));
  }

  /** A smoothing step moves by alpha of the distance d, that is, part of the way. */
  lemma BlendShifts(alpha: real, sample: real, previous: real, d: real, shift: real)
    requires 0.0 < alpha <= 1.0 && d == sample - previous && shift == alpha * d
    ensures Blend(alpha, sample, previous) == previous + shift
    ensures (d >= 0.0 ==> 0.0 <= shift <= d) && (d <= 0.0 ==> d <= shift <= 0.0)
  {
    BlendAsShift(alpha, sample, previous, d, shift);
    ShiftIsPartial(alpha, d, shift);
    hide *;
  }

  lemma BlendAsShift(alpha: real, sample: real, previous: real, d: real, shift: real)
    requires d == sample - previous && shift == alpha * d
    ensures Blend(alpha, sample, previous) == previous + shift
  {
    assert alpha * sample == alpha * (previous + d) == alpha * previous + shift;
  }

  lemma ShiftIsPartial(alpha: real, d: real, shift: real)
    requires 0.0 < alpha <= 1.0 && shift == alpha * d
    ensures d >= 0.0 ==> 0.0 <= shift <= d
    ensures d <= 0.0 ==> d <= shift <= 0.0
  {
    if d >= 0.0 {
      MulMonotone(alpha, 1.0, d);
    } else {
      MulMonotone(alpha, 1.0, -d);
      assert alpha * (-d) == -shift;
    }
  }

  /** updateRateBasedEWMAValue: the first sample is taken as it is. */
  function Smooth(alpha: real, sample: real, previous: Option<real>): real {
    if previous.None? then sample else Blend(alpha, sample, previous.value)
  }

  function SmoothRates(c: Config, v: View, m: Aggregate): View {
    if !m.hasData then v
    else v.(arrival := Some(Smooth(c.alpha, m.arrivalRate, v.arrival)),
            dispatch := Some(Smooth(c.alpha, m.dispatchRate, v.dispatch)))
  }

  predicate IsIdle(m: Aggregate) {
    m.hasData && m.backlog == 0 && m.arrivalRate == 0.0 && m.dispatchRate == 0.0
  }

  function SnapIdle(v: View, m: Aggregate): View {
    if IsIdle(m) && !(GetOr(v.arrival, 0.0) == 0.0 && GetOr(v.dispatch, 0.0) == 0.0)
    then v.(arrival := Some(0.0), dispatch := Some(0.0))
    else v
  }

  function SampleCapacity(c: Config, v: View, dispatchRate: real): View {
    if v.count <= 0 || dispatchRate <= 0.0 then v
    else v.(capacity := Some(Blend(c.alpha, dispatchRate / v.count as real, Capacity(c, v))))
  }

  /** The estimates a poll decides on. */
  function Estimates(c: Config, v: View, m: Aggregate): (r: View)
    ensures r == v.(arrival := r.arrival, dispatch := r.dispatch, capacity := r.capacity)
  {
    var smoothed := SnapIdle(SmoothRates(c, v, m), m);
    if m.backlog >= c.backlogThreshold then SampleCapacity(c, smoothed, m.dispatchRate) else smoothed
  }

  function Desired(c: Config, v: View, backlog: int): int
    requires ValidConfig(c)
  {
    DesiredCount(GetOr(v.arrival, 0.0), backlog, c.drainRate, Capacity(c, v),
                 c.utilization, c.beta, c.minCount, c.maxCount)
  }

  // ----- Decisions, on the trusted reading -----

  datatype TaskAddResult = TaskAddResult(view: View, actions: seq<Action>, throttled: int)

  function TaskAddOf(c: Config, v: View, isSyncMatch: bool, noSyncBatch: int, now: int): TaskAddResult {
    if isSyncMatch && noSyncBatch == 0 then TaskAddResult(v, [], 0)
    else
      var stamped := v.(lastNoSync := now);
      if v.count >= c.maxCount || now - v.lastUp < c.upCooldown
      then TaskAddResult(stamped, [DEFER], noSyncBatch)
      else TaskAddResult(stamped.(count := v.count + 1, lastUp := now),
                         [Resize(v.count + 1), DEFER], 0)
  }

  /** The lazily called metrics getter: absent, failing, or answering (possibly with nil). */
  datatype SnapshotGetter = NoGetter | FetchFails | Fetches(snapshot: Option<Snapshot>)

  function AggregateMaybe(s: Option<Snapshot>): Aggregate {
    if s.None? then NO_METRICS else AggregateOf(s.value)
  }

  /** None is the error outcome: the caller keeps the prior status. */
  function DeferredOf(c: Config, v: View, getter: SnapshotGetter): Option<View> {
    if getter.NoGetter? then None
    else if v.count <= 0 then Some(v)
    else if getter.FetchFails? then None
    else
      var m := AggregateMaybe(getter.snapshot);
      Some(if m.hasData then SampleCapacity(c, v, m.dispatchRate) else v)
  }

  datatype BlockReason =
    | NotBlocked | DesiredEqualsCurrent
    | BlockedByMaxCount | BlockedByUpCooldown
    | BlockedByMinCount | BlockedByNoSyncQuiet | BlockedByDownCooldown

  datatype PollResult = PollResult(view: View, actions: seq<Action>, reason: BlockReason)

  /** The scaling step of a poll for a given desired count. */
  function Decide(c: Config, v: View, desired: int, now: int): PollResult
    requires ValidConfig(c)
  {
    if desired > v.count then
      if now - v.lastUp < c.upCooldown then PollResult(v, [], BlockedByUpCooldown)
      else
        var add := Min(Min(c.maxStep, desired - v.count), c.maxCount - v.count);
        if add <= 0 then PollResult(v, [], BlockedByMaxCount)
        else PollResult(v.(count := v.count + add, lastUp := now), [Resize(v.count + add)], NotBlocked)
    else if desired < v.count then
      if now - v.lastNoSync < c.noSyncQuiet then PollResult(v, [], BlockedByNoSyncQuiet)
      else if now - v.lastDown < c.downCooldown then PollResult(v, [], BlockedByDownCooldown)
      else
        var next := Max(c.minCount, v.count - 1);
        if next == v.count then PollResult(v, [], BlockedByMinCount)
        else PollResult(v.(count := next, lastDown := now), [Resize(next)], NotBlocked)
    else PollResult(v, [], DesiredEqualsCurrent)
  }

  /** A whole poll. */
  function PollOf(c: Config, v: View, m: Aggregate, now: int): PollResult
    requires ValidConfig(c)
  {
    var estimated := Estimates(c, v, m);
    Decide(c, estimated, Desired(c, estimated, m.backlog), now)
  }

  /**
   A scale-up adds as much as the step cap allows, a scale-down exactly one worker, neither passes the
   desired count, each gate blocks exactly when its time is not over, and the two "no room" outcomes
   cannot occur.
   */
  lemma PollMovesTowardDesired(c: Config, v: View, m: Aggregate, now: int)
    requires ValidConfig(c)
    ensures
      var r := PollOf(c, v, m, now);
      var estimated := Estimates(c, v, m);
      var desired := Desired(c, estimated, m.backlog);
      && r.reason != BlockedByMaxCount && r.reason != BlockedByMinCount
      && (r.reason == DesiredEqualsCurrent <==> v.count == desired)
      && (r.reason == BlockedByUpCooldown <==> v.count < desired && now - v.lastUp < c.upCooldown)
      && (r.reason == BlockedByNoSyncQuiet <==> desired < v.count && now - v.lastNoSync < c.noSyncQuiet)
      && (r.reason == BlockedByDownCooldown <==>
            desired < v.count && now - v.lastNoSync >= c.noSyncQuiet && now - v.lastDown < c.downCooldown)
      && (r.reason != NotBlocked ==> r.view == estimated && r.actions == [])
      && (r.reason == NotBlocked ==> r.actions == [Resize(r.view.count)])
      && (r.reason == NotBlocked && v.count < desired ==>
            v.count < r.view.count == Min(desired, v.count + c.maxStep)
                && r.view == estimated.(count := r.view.count, lastUp := now))
      && (r.reason == NotBlocked && desired < v.count ==>
            desired <= r.view.count == v.count - 1 && r.view == estimated.(count := r.view.count, lastDown := now))
  {
  }

  function RegistrationOf(c: Config, v: View): View {
    v.(count := Max(1, Min(Max(v.count, c.minCount), c.maxCount)))
  }

  // ----- Entry points, on the stored status -----

  lemma WriteCount(c: Config, s: Status, n: int64)
    requires WellFormed(s) && 0 <= n <= MAX_INT32
    ensures WellFormed(s[WorkerCount := Integer(n)])
    ensures ViewOf(c, s[WorkerCount := Integer(n)]) == ViewOf(c, s).(count := n)
  {
  }

  lemma WriteStamps(c: Config, s: Status, now: int64)
    requires WellFormed(s) && now >= 0
    ensures WellFormed(s[LastUp := Integer(now)]) && WellFormed(s[LastDown := Integer(now)])
        && WellFormed(s[LastNoSync := Integer(now)])
    ensures ViewOf(c, s[LastUp := Integer(now)]) == ViewOf(c, s).(lastUp := now)
    ensures ViewOf(c, s[LastDown := Integer(now)]) == ViewOf(c, s).(lastDown := now)
    ensures ViewOf(c, s[LastNoSync := Integer(now)]) == ViewOf(c, s).(lastNoSync := now)
  {
  }

  method ProcessTaskAdd(c: Config, prior: Status, isSyncMatch: bool, noSyncBatch: int, nowMs: int64)
    returns (actions: seq<Action>, status: Status, throttled: int)
    requires ValidConfig(c) && nowMs >= 0
    ensures WellFormed(status) && WorkerCount in status
    ensures TaskAddResult(ViewOf(c, status), actions, throttled)
         == TaskAddOf(c, ViewOf(c, Cleaned(prior)), isSyncMatch, noSyncBatch, nowMs)
  {
    actions := [];
    throttled := 0;
    status := CleanState(prior);
    var currentCount := PlannedCount(c, status);
    PlannedCountInRange(c, status);
    status := status[WorkerCount := Integer(currentCount)];
    if isSyncMatch && noSyncBatch == 0 {
      return;
    }
    WriteStamps(c, status, nowMs);
    status := status[LastNoSync := Integer(nowMs)];
    throttled := noSyncBatch;
    if currentCount >= c.maxCount {
      actions := actions + [DEFER];
      return;
    }
    if nowMs - IntField(status, LastUp, 0) < c.upCooldown {
      actions := actions + [DEFER];
      return;
    }
    var newCount := currentCount + 1;
    WriteCount(c, status, newCount);
    status := status[WorkerCount := Integer(newCount)];
    WriteStamps(c, status, nowMs);
    status := status[LastUp := Integer(nowMs)];
    actions := actions + [Resize(newCount)];
    actions := actions + [DEFER];
    throttled := 0;
  }

  lemma PlannedCountInRange(c: Config, s: Status)
    requires ValidConfig(c) && WellFormed(s)
    ensures 0 <= PlannedCount(c, s) <= MAX_INT32
    ensures ViewOf(c, s[WorkerCount := Integer(PlannedCount(c, s))]) == ViewOf(c, s)
    ensures WellFormed(s[WorkerCount := Integer(PlannedCount(c, s))])
  {
    if WorkerCount in s {
      assert ValidSlot(WorkerCount, s[WorkerCount]);
    }
    WriteCount(c, s, PlannedCount(c, s));
  }

  method ProcessDeferredScalingDecision(c: Config, prior: Status, getter: SnapshotGetter)
    returns (status: Option<Status>)
    requires ValidConfig(c)
    ensures status.Some? ==> WellFormed(status.value) && WorkerCount in status.value
    ensures (if status.Some? then Some(ViewOf(c, status.value)) else None)
        == DeferredOf(c, ViewOf(c, Cleaned(prior)), getter)
  {
    var updated := CleanState(prior);
    var currentCount := PlannedCount(c, updated);
    PlannedCountInRange(c, updated);
    updated := updated[WorkerCount := Integer(currentCount)];
    if getter.NoGetter? {
      return None;
    }
    if currentCount <= 0 {
      return Some(updated);
    }
    if getter.FetchFails? {
      return None;
    }
    var metrics := AggregateMetrics(getter.snapshot);
    if metrics.hasData {
      updated := UpdateCapacity(c, updated, currentCount, metrics.dispatchRate);
    }
    return Some(updated);
  }

  /** updateRateBasedPerConsumerCapacity. */
  method UpdateCapacity(c: Config, s: Status, plannedCount: int, dispatchRate: real) returns (r: Status)
    requires ValidConfig(c) && WellFormed(s) && plannedCount == PlannedCount(c, s)
    ensures WellFormed(r) && s.Keys <= r.Keys && ViewOf(c, r) == SampleCapacity(c, ViewOf(c, s), dispatchRate)
  {
    r := s;
    if plannedCount <= 0 || dispatchRate <= 0.0 {
      return;
    }
    var observed := dispatchRate / plannedCount as real;
    var previous := Capacity(c, ViewOf(c, s));
    BlendIsBetween(c.alpha, observed, previous);
    r := r[EwmaCapacity := Float(Blend(c.alpha, observed, previous))];
  }

  /** updateRateBasedEWMA. */
  method UpdateEwma(c: Config, s: Status, m: Aggregate) returns (r: Status)
    requires ValidConfig(c) && WellFormed(s) && m.hasData
    ensures WellFormed(r) && s.Keys <= r.Keys && ViewOf(c, r) == SmoothRates(c, ViewOf(c, s), m)
  {
    r := s[EwmaArrival := Float(Smooth(c.alpha, m.arrivalRate, FloatField(s, EwmaArrival)))];
    r := r[EwmaDispatch := Float(Smooth(c.alpha, m.dispatchRate, FloatField(r, EwmaDispatch)))];
  }

  /** snapIdleRateBasedEWMAToZero. */
  method SnapIdleToZero(c: Config, s: Status, m: Aggregate) returns (r: Status, snapped: bool)
    requires WellFormed(s)
    ensures WellFormed(r) && s.Keys <= r.Keys && ViewOf(c, r) == SnapIdle(ViewOf(c, s), m)
    ensures snapped <==> r != s
  {
    r, snapped := s, false;
    if !m.hasData {
      return;
    }
    if m.backlog != 0 || m.arrivalRate != 0.0 || m.dispatchRate != 0.0 {
      return;
    }
    if GetOr(FloatField(s, EwmaArrival), 0.0) == 0.0 && GetOr(FloatField(s, EwmaDispatch), 0.0) == 0.0 {
      return;
    }
    r := r[EwmaArrival := Float(0.0)];
    r := r[EwmaDispatch := Float(0.0)];
    snapped := true;
  }

  method ProcessMetricsPoll(c: Config, prior: Status, snapshot: Snapshot, nowMs: int64)
    returns (actions: seq<Action>, status: Status, nextPollMs: int, reason: BlockReason)
    requires ValidConfig(c) && nowMs >= 0
    ensures WellFormed(status) && WorkerCount in status && nextPollMs == c.pollInterval
    ensures PollResult(ViewOf(c, status), actions, reason)
         == PollOf(c, ViewOf(c, Cleaned(prior)), AggregateOf(snapshot), nowMs)
  {
    nextPollMs := c.pollInterval;
    var metrics := AggregateMetrics(Some(snapshot));
    var currentCount;
    status, currentCount := PollEstimates(c, prior, metrics);
    var desired := Desired(c, ViewOf(c, status), metrics.backlog);
    actions, status, reason := ScaleTowards(c, status, currentCount, desired, nowMs);
  }

  /** The first half of a poll: bring the estimates up to date. */
  method PollEstimates(c: Config, prior: Status, metrics: Aggregate) returns (status: Status, currentCount: int)
    requires ValidConfig(c)
    ensures WellFormed(status) && currentCount == PlannedCount(c, status) && WorkerCount in status
    ensures ViewOf(c, status) == Estimates(c, ViewOf(c, Cleaned(prior)), metrics)
  {
    status := CleanState(prior);
    currentCount := PlannedCount(c, status);
    PlannedCountInRange(c, status);
    status := status[WorkerCount := Integer(currentCount)];
    if metrics.hasData {
      status := UpdateEwma(c, status, metrics);
    }
    var idleSnapToZero;
    status, idleSnapToZero := SnapIdleToZero(c, status, metrics);
    if metrics.backlog >= c.backlogThreshold && currentCount > 0 && metrics.dispatchRate > 0.0 {
      status := UpdateCapacity(c, status, currentCount, metrics.dispatchRate);
    }
  }

  /** The second half of a poll: one scaling step. */
  method ScaleTowards(c: Config, s: Status, currentCount: int, desired: int, nowMs: int64)
    returns (actions: seq<Action>, status: Status, reason: BlockReason)
    requires ValidConfig(c) && nowMs >= 0 && WellFormed(s) && WorkerCount in s && currentCount == PlannedCount(c, s)
    ensures WellFormed(status) && WorkerCount in status
    ensures PollResult(ViewOf(c, status), actions, reason) == Decide(c, ViewOf(c, s), desired, nowMs)
  {
    actions, status, reason := [], s, NotBlocked;
    PlannedCountInRange(c, s);
    if desired > currentCount {
      if nowMs - IntField(s, LastUp, 0) >= c.upCooldown {
        var addCount := Min(Min(c.maxStep, desired - currentCount), c.maxCount - currentCount);
        if addCount > 0 {
          var newCount := currentCount + addCount;
          WriteCount(c, status, newCount);
          status := status[WorkerCount := Integer(newCount)];
          WriteStamps(c, status, nowMs);
          status := status[LastUp := Integer(nowMs)];
          actions := actions + [Resize(newCount)];
        } else {
          reason := BlockedByMaxCount;
        }
      } else {
        reason := BlockedByUpCooldown;
      }
    } else if desired < currentCount {
      if nowMs - IntField(s, LastNoSync, 0) >= c.noSyncQuiet && nowMs - IntField(s, LastDown, 0) >= c.downCooldown {
        var newCount := Max(c.minCount, currentCount - 1);
        if newCount != currentCount {
          WriteCount(c, status, newCount);
          status := status[WorkerCount := Integer(newCount)];
          WriteStamps(c, status, nowMs);
          status := status[LastDown := Integer(nowMs)];
          actions := actions + [Resize(newCount)];
        } else {
          reason := BlockedByMinCount;
        }
      } else if nowMs - IntField(s, LastNoSync, 0) < c.noSyncQuiet {
        reason := BlockedByNoSyncQuiet;
      } else {
        reason := BlockedByDownCooldown;
      }
    } else {
      reason := DesiredEqualsCurrent;
    }
  }

  method TaskQueueRegistrationActions(c: Config, prior: Status) returns (actions: seq<Action>, status: Status)
    requires ValidConfig(c)
    ensures WellFormed(status) && WorkerCount in status
        && ViewOf(c, status) == RegistrationOf(c, ViewOf(c, Cleaned(prior)))
    ensures actions == [Resize(PlannedCount(c, status))]
  {
    status := CleanState(prior);
    var planned := PlannedCount(c, status);
    var size := Max(1, Min(Max(planned, c.minCount), c.maxCount));
    status := status[WorkerCount := Integer(size)];
    actions := [Resize(size)];
  }

  /** Scales to zero and forgets everything but the zero count; silent when nothing was running. */
  method InactiveGroupActions(c: Config, prior: Status) returns (actions: seq<Action>, status: Status)
    ensures WellFormed(status) && status == map[WorkerCount := Integer(0)] && PlannedCount(c, status) == 0
    ensures actions == if IntField(Cleaned(prior), WorkerCount, 0) <= 0 then [] else [Resize(0)]
  {
    status := map[WorkerCount := Integer(0)];
    var cleaned := CleanState(prior);
    if IntField(cleaned, WorkerCount, 0) <= 0 {
      return [], status;
    }
    return [Resize(0)], status;
  }
}
