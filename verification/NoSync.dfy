/**
 The no-sync scaler: invokes single workers, shares one cooloff timer across queue types, and keeps a
 per-queue detector that suppresses scale-ups while the dispatch rate stays in a band. Each entry point
 is proved against a function on View, the reading of the status every call starts from.
 */
module NoSync {
  import opened Arithmetic
  import opened ScalingTypes

  // ----- Configuration -----

  datatype Config = Config(
    cooloff: int, backlogThreshold: int, lifetime: int, epsilon: real, pollInterval: int,
    confirmSet: Option<int>, suppressSet: Option<int>, suppressPollSet: Option<int>)
  {
    function Confirm(): int { if confirmSet.Some? then confirmSet.value else 90_000 }
    function Suppress(): int { if suppressSet.Some? then suppressSet.value else 120_000 }
    function SuppressPoll(): int { if suppressPollSet.Some? then suppressPollSet.value else 90_000 }
  }

  datatype ConfigError =
    | BelowMinimum | PollShorterThanCooloff | EpsilonTooLarge | ConfirmTooShort
    | SuppressPollNotPositive | SuppressTooShort | RequiresEpsilon

  predicate AtLeastZero(o: Option<int>) { o.Some? ==> o.value >= 0 }

  predicate ValidConfig(c: Config) {
    && c.cooloff >= 0 && c.backlogThreshold >= 0 && c.lifetime >= 0
    && c.pollInterval >= 10_000 && c.cooloff <= c.pollInterval
    && 0.0 <= c.epsilon <= 0.10
    && if c.epsilon > 0.0
       then c.Confirm() > c.pollInterval && 0 < c.SuppressPoll() < c.Suppress()
       else c.confirmSet.None? && c.suppressSet.None? && c.suppressPollSet.None?
  }

  /** The checks in the source's order. */
  function ValidateConfig(c: Config): (error: Option<ConfigError>)
    ensures error.None? <==> ValidConfig(c)
  {
    if || c.cooloff < 0 || c.backlogThreshold < 0 || c.lifetime < 0 || c.epsilon < 0.0 || c.pollInterval < 10_000
       || !AtLeastZero(c.confirmSet) || !AtLeastZero(c.suppressSet) || !AtLeastZero(c.suppressPollSet)
    then Some(BelowMinimum)
    else if c.cooloff > 0 && c.pollInterval < c.cooloff then Some(PollShorterThanCooloff)
    else if c.epsilon > 0.0 then
      if c.epsilon > 0.10 then Some(EpsilonTooLarge)
      else if c.Confirm() <= c.pollInterval then Some(ConfirmTooShort)
      else if c.SuppressPoll() <= 0 then Some(SuppressPollNotPositive)
      else if c.Suppress() <= c.SuppressPoll() then Some(SuppressTooShort)
      else None
    else if c.confirmSet.Some? || c.suppressSet.Some? || c.suppressPollSet.Some? then Some(RequiresEpsilon)
    else None
  }

  /** dispatchRateEpsilon: zero, that is disabled, outside the permitted range. */
  function Epsilon(c: Config): real {
    if 0.0 < c.epsilon <= 0.10 then c.epsilon else 0.0
  }

  // ----- Status -----

  datatype Key = LastScaleUp | Since(q: QueueType) | Until(q: QueueType) | RefRate(q: QueueType) | Unknown(name: string)

  datatype Slot = IntSlot(n: int) | RealSlot(x: real) | OtherSlot

  type Status = map<Key, Slot>

  function GetInt(s: Status, k: Key, default: int): int {
    if k !in s then default else
    match s[k]
    case IntSlot(n) => n
    case RealSlot(x) => if x >= 0.0 then x.Floor else -((-x).Floor)
    case OtherSlot => default
  }

  function GetReal(s: Status, k: Key, default: real): real {
    if k !in s then default else
    match s[k]
    case IntSlot(n) => n as real
    case RealSlot(x) => x
    case OtherSlot => default
  }

  /** One queue type's hysteresis: when the band was entered, until when to suppress, and the band's centre. */
  datatype Detector = Detector(since: int, until: int, refRate: real)

  const RESET := Detector(0, 0, -1.0)

  datatype View = View(lastScaleUp: int, workflow: Detector, activity: Detector, nexus: Detector)
  {
    function Of(q: QueueType): Detector {
      match q case WorkflowQueue => workflow case ActivityQueue => activity case NexusQueue => nexus
    }
  }

  function DetectorOf(s: Status, q: QueueType): Detector {
    Detector(GetInt(s, Since(q), 0), GetInt(s, Until(q), 0), GetReal(s, RefRate(q), -1.0))
  }

  function ViewOf(s: Status): View {
    View(GetInt(s, LastScaleUp, 0),
         DetectorOf(s, WorkflowQueue), DetectorOf(s, ActivityQueue), DetectorOf(s, NexusQueue))
  }

  /** Persisting through JSON turns every integer into a float64. */
  function JsonTrip(s: Status): Status {
    map k | k in s :: (match s[k] case IntSlot(n) => RealSlot(n as real) case slot => slot)
  }

  /** The reading survives the JSON trip, whatever is stored. */
  lemma JsonTripPreserves(s: Status)
    ensures ViewOf(JsonTrip(s)) == ViewOf(s)
  {
  }

  predicate KnownOnly(s: Status) { forall k | k in s :: !k.Unknown? }

  method DropUnknownSlots(prior: Status) returns (s: Status)
    ensures KnownOnly(s) && ViewOf(s) == ViewOf(prior)
  {
    s := prior;
    var unvisited := s.Keys;
    while unvisited != {}
      invariant unvisited <= prior.Keys
      invariant s == map k | k in prior && (k in unvisited || !k.Unknown?) :: prior[k]
      decreases unvisited
    {
      var k :| k in unvisited;
      unvisited := unvisited - {k};
      if k.Unknown? {
        s := s - {k};
      }
    }
  }

  // ----- The detector -----

  /** One queue's last backlog and processing rate. */
  datatype Sample = Sample(backlog: int, rate: real)

  datatype Samples = Samples(workflow: Option<Sample>, activity: Option<Sample>, nexus: Option<Sample>)
  {
    function Of(q: QueueType): Option<Sample> {
      match q case WorkflowQueue => workflow case ActivityQueue => activity case NexusQueue => nexus
    }
  }

  function Abs(x: real): real { if x < 0.0 then -x else x }

  predicate NeedsWorkers(c: Config, m: Sample) { m.backlog > c.backlogThreshold }

  /** Backlogged and dispatching: the precondition for being in any band. */
  predicate Eligible(c: Config, m: Sample) { NeedsWorkers(c, m) && m.rate > 0.0 }

  predicate InBand(c: Config, m: Sample, refRate: real) {
    Eligible(c, m) && Abs(m.rate - refRate) <= Epsilon(c) * refRate
  }

  /** What one poll makes of a queue's detector. */
  function Detect(c: Config, d: Detector, sample: Option<Sample>, now: int): Detector {
    if Epsilon(c) == 0.0 then RESET
    else if sample.None? then d
    else if !Eligible(c, sample.value) || (d.refRate >= 0.0 && !InBand(c, sample.value, d.refRate)) then RESET
    else if d.since == 0 then Detector(now, d.until, sample.value.rate)
    else if now - d.since >= c.Confirm() then d.(until := now + c.Suppress())
    else d
  }

  predicate Suppresses(c: Config, d: Detector, sample: Option<Sample>, now: int) {
    Epsilon(c) > 0.0 && sample.Some? && Detect(c, d, sample, now).until > now
  }

  /** shouldSuppressScaleUpWhenDispatchWithinEpsilon: reads the prior status, writes the updated one. */
  method UpdateDetector(c: Config, prior: Status, s: Status, q: QueueType, metrics: Option<Sample>, nowMs: int)
    returns (updated: Status, suppressed: bool)
    requires KnownOnly(s) && DetectorOf(s, q) == DetectorOf(prior, q)
    ensures KnownOnly(updated) && GetInt(updated, LastScaleUp, 0) == GetInt(s, LastScaleUp, 0)
    ensures DetectorOf(updated, q) == Detect(c, DetectorOf(prior, q), metrics, nowMs)
    ensures forall p | p != q :: DetectorOf(updated, p) == DetectorOf(s, p)
    ensures suppressed == Suppresses(c, DetectorOf(prior, q), metrics, nowMs)
  {
    updated := s;
    var epsilon := Epsilon(c);
    if epsilon == 0.0 {
      updated := updated - {Until(q)};
      updated := updated - {Since(q)};
      updated := updated - {RefRate(q)};
      return updated, false;
    }
    if metrics.None? {
      return updated, false;
    }
    var rate := metrics.value.rate;
    var since := GetInt(prior, Since(q), 0);
    var until := GetInt(prior, Until(q), 0);
    var refRate := GetReal(prior, RefRate(q), -1.0);
    var scaleUpForBacklog := metrics.value.backlog > c.backlogThreshold;
    var outsideBand := refRate >= 0.0 && Abs(rate - refRate) > epsilon * refRate;
    if !scaleUpForBacklog || outsideBand || rate <= 0.0 {
      until, since, refRate := 0, 0, -1.0;
    } else if since == 0 {
      since, refRate := nowMs, rate;
    } else if nowMs - since >= c.Confirm() {
      until := nowMs + c.Suppress();
    }
    WriteDetector(s, q, Detector(since, until, refRate));
    updated := updated[Since(q) := IntSlot(since)];
    updated := updated[RefRate(q) := RealSlot(refRate)];
    updated := updated[Until(q) := IntSlot(until)];
    suppressed := until > nowMs;
  }

  lemma WriteDetector(s: Status, q: QueueType, d: Detector)
    requires KnownOnly(s)
    ensures
      var t := s[Since(q) := IntSlot(d.since)][RefRate(q) := RealSlot(d.refRate)][Until(q) := IntSlot(d.until)];
      && KnownOnly(t) && GetInt(t, LastScaleUp, 0) == GetInt(s, LastScaleUp, 0)
      && DetectorOf(t, q) == d && forall p | p != q :: DetectorOf(t, p) == DetectorOf(s, p)
  {
  }

  // ----- Decisions, on the reading -----

  /** queueTypeName has no entry for the other task-queue types, so those are never suppressed. */
  predicate HeldBack(c: Config, v: View, q: Option<QueueType>, now: int) {
    Epsilon(c) > 0.0 && q.Some? && now < v.Of(q.value).until
  }

  datatype TaskAddResult = TaskAddResult(view: View, invoke: bool, throttled: int)

  function TaskAddOf(c: Config, v: View, q: Option<QueueType>, isSyncMatch: bool, noSyncBatch: int, now: int)
    : TaskAddResult
  {
    if isSyncMatch && noSyncBatch <= 0 then TaskAddResult(v, false, 0)
    else if HeldBack(c, v, q, now) || now - v.lastScaleUp < c.cooloff then TaskAddResult(v, false, noSyncBatch)
    else TaskAddResult(v.(lastScaleUp := now), true, 0)
  }

  /** A queue asks for a worker when its backlog is over the threshold, the cooloff is over and it is not suppressed. */
  predicate AsksForBacklog(c: Config, v: View, s: Samples, q: QueueType, now: int) {
    && s.Of(q).Some? && NeedsWorkers(c, s.Of(q).value)
    && now - v.lastScaleUp >= c.cooloff
    && !Suppresses(c, v.Of(q), s.Of(q), now)
  }

  /** The worker refresh, which suppression does not touch. */
  predicate AsksForRefresh(c: Config, v: View, s: Samples, q: QueueType, now: int) {
    && s.Of(q).Some? && s.Of(q).value.backlog > 0
    && c.lifetime > 0 && now - v.lastScaleUp >= c.lifetime
  }

  predicate Asks(c: Config, v: View, s: Samples, q: QueueType, now: int) {
    AsksForBacklog(c, v, s, q, now) || AsksForRefresh(c, v, s, q, now)
  }

  datatype PollResult = PollResult(view: View, invoke: bool, nextPoll: int)

  function PollOf(c: Config, v: View, s: Samples, now: int): PollResult {
    var invoke := Asks(c, v, s, WorkflowQueue, now) || Asks(c, v, s, ActivityQueue, now)
        || Asks(c, v, s, NexusQueue, now);
    var suppressing := Suppresses(c, v.workflow, s.workflow, now) || Suppresses(c, v.activity, s.activity, now)
                    || Suppresses(c, v.nexus, s.nexus, now);
    PollResult(View(if invoke then now else v.lastScaleUp, Detect(c, v.workflow, s.workflow, now),
                    Detect(c, v.activity, s.activity, now), Detect(c, v.nexus, s.nexus, now)),
               invoke, if suppressing then c.SuppressPoll() else c.pollInterval)
  }

  // ----- Entry points, on the stored status -----

  method ProcessTaskAdd(c: Config, prior: Status, q: Option<QueueType>, isSyncMatch: bool, noSyncBatch: int, nowMs: int)
    returns (actions: seq<Action>, status: Status, throttled: int)
    ensures KnownOnly(status)
    ensures TaskAddResult(ViewOf(status), actions != [], throttled)
        == TaskAddOf(c, ViewOf(prior), q, isSyncMatch, noSyncBatch, nowMs)
    ensures actions == [] || actions == [INVOKE]
  {
    actions := [];
    throttled := 0;
    status := DropUnknownSlots(prior);
    if !isSyncMatch || noSyncBatch > 0 {
      var elapsed := nowMs - GetInt(prior, LastScaleUp, 0);
      var suppressed := Epsilon(c) > 0.0 && q.Some? && nowMs < GetInt(prior, Until(q.value), 0);
      assert q.Some? ==> GetInt(prior, Until(q.value), 0) == ViewOf(prior).Of(q.value).until;
      if suppressed {
        throttled := noSyncBatch;
      } else if elapsed >= c.cooloff {
        actions := actions + [INVOKE];
        status := status[LastScaleUp := IntSlot(nowMs)];
      } else {
        throttled := noSyncBatch;
      }
    }
  }

  /** The reading with the detectors of the first i queue types already polled. */
  ghost predicate PolledSoFar(c: Config, prior: View, s: Samples, now: int, current: View, i: nat) {
    && current.lastScaleUp == prior.lastScaleUp
    && current.workflow == (if i > 0 then Detect(c, prior.workflow, s.workflow, now) else prior.workflow)
    && current.activity == (if i > 1 then Detect(c, prior.activity, s.activity, now) else prior.activity)
    && current.nexus == (if i > 2 then Detect(c, prior.nexus, s.nexus, now) else prior.nexus)
  }

  ghost predicate AskedSoFar(c: Config, v: View, s: Samples, now: int, i: nat) {
    || (i > 0 && Asks(c, v, s, WorkflowQueue, now))
    || (i > 1 && Asks(c, v, s, ActivityQueue, now))
    || (i > 2 && Asks(c, v, s, NexusQueue, now))
  }

  ghost predicate SuppressedSoFar(c: Config, v: View, s: Samples, now: int, i: nat) {
    || (i > 0 && Suppresses(c, v.workflow, s.workflow, now))
    || (i > 1 && Suppresses(c, v.activity, s.activity, now))
    || (i > 2 && Suppresses(c, v.nexus, s.nexus, now))
  }

  method ProcessMetricsPoll(c: Config, prior: Status, samples: Samples, nowMs: int)
    returns (actions: seq<Action>, status: Status, nextPollMs: int)
    ensures KnownOnly(status)
    ensures PollResult(ViewOf(status), actions != [], nextPollMs) == PollOf(c, ViewOf(prior), samples, nowMs)
    ensures actions == [] || actions == [INVOKE]
  {
    hide Asks, Detect, Suppresses, DetectorOf, GetInt;
    actions := [];
    status := DropUnknownSlots(prior);
    ghost var v := ViewOf(prior);
    var suppressedAny, scaleUp := false, false;
    for i := 0 to |QUEUE_TYPES|
      invariant KnownOnly(status) && PolledSoFar(c, v, samples, nowMs, ViewOf(status), i)
      invariant scaleUp == AskedSoFar(c, v, samples, nowMs, i)
      invariant suppressedAny == SuppressedSoFar(c, v, samples, nowMs, i)
    {
      var q := QUEUE_TYPES[i];
      var suppressed, perTypeScaleUp;
      status, suppressed, perTypeScaleUp := PollQueue(c, prior, status, q, samples, nowMs);
      suppressedAny := suppressedAny || suppressed;
      scaleUp := scaleUp || perTypeScaleUp;
    }
    if scaleUp {
      actions := actions + [INVOKE];
      WriteLastScaleUp(status, nowMs);
      status := status[LastScaleUp := IntSlot(nowMs)];
    }
    nextPollMs := c.pollInterval;
    if suppressedAny {
      nextPollMs := c.SuppressPoll();
    }
  }

  function With(v: View, q: QueueType, d: Detector): View {
    match q
    case WorkflowQueue => v.(workflow := d)
    case ActivityQueue => v.(activity := d)
    case NexusQueue => v.(nexus := d)
  }

  /** The body of the poll's loop over queue types. */
  method PollQueue(c: Config, prior: Status, s: Status, q: QueueType, samples: Samples, nowMs: int)
    returns (updated: Status, suppressed: bool, perTypeScaleUp: bool)
    requires KnownOnly(s) && ViewOf(s).Of(q) == ViewOf(prior).Of(q)
    ensures KnownOnly(updated)
    ensures ViewOf(updated) == With(ViewOf(s), q, Detect(c, ViewOf(prior).Of(q), samples.Of(q), nowMs))
    ensures suppressed == Suppresses(c, ViewOf(prior).Of(q), samples.Of(q), nowMs)
    ensures perTypeScaleUp == Asks(c, ViewOf(prior), samples, q, nowMs)
  {
    hide Detect, Suppresses, GetInt;
    var metrics := samples.Of(q);
    var elapsed := nowMs - GetInt(prior, LastScaleUp, 0);
    updated, suppressed := UpdateDetector(c, prior, s, q, metrics, nowMs);
    perTypeScaleUp := false;
    if metrics.None? {
      return;
    }
    var backlog := metrics.value.backlog;
    if backlog > c.backlogThreshold && elapsed >= c.cooloff {
      perTypeScaleUp := true;
    }
    if perTypeScaleUp && suppressed {
      perTypeScaleUp := false;
    }
    if !perTypeScaleUp && c.lifetime > 0 && backlog > 0 && elapsed >= c.lifetime {
      perTypeScaleUp := true;
    }
  }

  lemma WriteLastScaleUp(s: Status, now: int)
    ensures ViewOf(s[LastScaleUp := IntSlot(now)]) == ViewOf(s).(lastScaleUp := now)
  {
  }
}
