/** Guarantees of the rate-based scaler over whole runs of its entry points under one valid configuration. */
module RateBasedRuns {
  import opened Arithmetic
  import opened ScalingTypes
  import opened Sizing
  import opened RateBased

  /** One call of an entry point; the clock reading is the call's own, in milliseconds. */
  datatype Event =
    | TaskAdd(now: int, isSyncMatch: bool, noSyncBatch: int)
    | Deferred(getter: SnapshotGetter)
    | Poll(now: int, snapshot: Snapshot)
    | Registration

  datatype Outcome = Outcome(view: View, actions: seq<Action>)

  /** A call on the persisted status; a failed deferred decision leaves it alone. */
  function Step(c: Config, v: View, e: Event): Outcome
    requires ValidConfig(c)
  {
    match e
    case TaskAdd(now, isSyncMatch, noSyncBatch) =>
      var r := TaskAddOf(c, v, isSyncMatch, noSyncBatch, now);
      Outcome(r.view, r.actions)
    case Deferred(getter) =>
      var r := DeferredOf(c, v, getter);
      Outcome(if r.Some? then r.value else v, [])
    case Poll(now, snapshot) =>
      var r := PollOf(c, v, AggregateOf(snapshot), now);
      Outcome(r.view, r.actions)
    case Registration =>
      var r := RegistrationOf(c, v);
      Outcome(r, [Resize(r.count)])
  }

  function After(c: Config, v: View, es: seq<Event>): View
    requires ValidConfig(c)
    decreases es
  {
    if es == [] then v else After(c, Step(c, v, es[0]).view, es[1..])
  }

  function Emitted(c: Config, v: View, es: seq<Event>): seq<Action>
    requires ValidConfig(c)
    decreases es
  {
    if es == [] then [] else Step(c, v, es[0]).actions + Emitted(c, Step(c, v, es[0]).view, es[1..])
  }

  // ----- Worker counts -----

  predicate InBounds(c: Config, v: View) { c.minCount <= v.count <= c.maxCount }

  lemma {:induction false} CountStaysInBounds(c: Config, v: View, es: seq<Event>)
    requires ValidConfig(c) && InBounds(c, v)
    ensures InBounds(c, After(c, v, es))
    decreases es
  {
    if es != [] {
      CountStaysInBounds(c, Step(c, v, es[0]).view, es[1..]);
    }
  }

  /** What one action makes of a worker pool. */
  function Resized(pool: int, a: Action): int {
    if a.kind.UpdateWorkerSetSize? && a.count.Some? then a.count.value else pool
  }

  /** What a worker pool of the given size becomes when the resizes are applied to it in order. */
  function Replay(pool: int, actions: seq<Action>): int
    decreases actions
  {
    if actions == [] then pool
    else Replay(Resized(pool, actions[0]), actions[1..])
  }

  lemma {:induction false} ReplayAppend(pool: int, a: seq<Action>, b: seq<Action>)
    ensures Replay(pool, a + b) == Replay(Replay(pool, a), b)
    decreases a
  {
    if a == [] {
      assert a + b == b;
    } else {
      assert (a + b)[1..] == a[1..] + b;
      ReplayAppend(Resized(pool, a[0]), a[1..], b);
    }
  }

  lemma ReplayStep(c: Config, v: View, e: Event)
    requires ValidConfig(c)
    ensures Replay(v.count, Step(c, v, e).actions) == Step(c, v, e).view.count
  {
    var actions := Step(c, v, e).actions;
    if |actions| == 1 {
      assert actions[1..] == [];
    } else if |actions| == 2 {
      assert actions[1..] == [DEFER];
      assert Replay(v.count + 1, [DEFER]) == Replay(v.count + 1, []);
    }
  }

  /** The stored count is what the emitted resizes make of a pool that began at it. */
  lemma {:induction false} ResizesReproduceCount(c: Config, v: View, es: seq<Event>)
    requires ValidConfig(c)
    ensures Replay(v.count, Emitted(c, v, es)) == After(c, v, es).count
    decreases es
  {
    if es != [] {
      var next := Step(c, v, es[0]);
      ReplayStep(c, v, es[0]);
      ReplayAppend(v.count, next.actions, Emitted(c, next.view, es[1..]));
      ResizesReproduceCount(c, next.view, es[1..]);
    }
  }

  /** With nothing stored yet the pool begins at initial_count, inside the bounds. */
  lemma FreshRun(c: Config, es: seq<Event>)
    requires ValidConfig(c)
    ensures
      var empty := ViewOf(c, Cleaned(map[]));
      && Replay(c.initialCount, Emitted(c, empty, es)) == After(c, empty, es).count
      && InBounds(c, After(c, empty, es))
  {
    var empty := ViewOf(c, Cleaned(map[]));
    ResizesReproduceCount(c, empty, es);
    CountStaysInBounds(c, empty, es);
  }

  // ----- Cooldowns -----

  predicate IsScaling(e: Event) { !e.Registration? }

  predicate InWindow(e: Event, first: int, last: int) {
    (e.TaskAdd? || e.Poll?) && first <= e.now <= last
  }

  /** Workers added by calls whose clock reading lies in the window. */
  function WorkersAdded(c: Config, v: View, es: seq<Event>, first: int, last: int): int
    requires ValidConfig(c)
    decreases es
  {
    if es == [] then 0 else
      var next := Step(c, v, es[0]).view;
      (if InWindow(es[0], first, last) then Max(0, next.count - v.count) else 0)
      + WorkersAdded(c, next, es[1..], first, last)
  }

  /** Calls in the window that lowered the count. */
  function ScaleDowns(c: Config, v: View, es: seq<Event>, first: int, last: int): nat
    requires ValidConfig(c)
    decreases es
  {
    if es == [] then 0 else
      var next := Step(c, v, es[0]).view;
      (if InWindow(es[0], first, last) && next.count < v.count then 1 else 0)
      + ScaleDowns(c, next, es[1..], first, last)
  }

  /** A call that adds workers finds the cooldown over, stamps its time and respects the step cap. */
  lemma ScaleUpStep(c: Config, v: View, e: Event)
    requires ValidConfig(c) && IsScaling(e)
    ensures
      var next := Step(c, v, e).view;
      if next.count > v.count
      then (e.TaskAdd? || e.Poll?) && e.now - v.lastUp >= c.upCooldown && next.lastUp == e.now
          && next.count - v.count <= c.maxStep
      else next.lastUp == v.lastUp
  {
  }

  lemma {:induction false} WorkersAddedBound(c: Config, v: View, es: seq<Event>, first: int, last: int)
    requires ValidConfig(c) && c.upCooldown > 0
    requires forall e | e in es :: IsScaling(e)
    ensures WorkersAdded(c, v, es, first, last)
         <= c.maxStep * Slots(Max(first, v.lastUp + c.upCooldown), last, c.upCooldown)
    decreases es
  {
    assert c.maxStep >= 0;
    hide Step, Slots, ValidConfig, IsScaling;
    if es != [] {
      var e, next := es[0], Step(c, v, es[0]).view;
      var begin, later := Max(first, v.lastUp + c.upCooldown), Max(first, next.lastUp + c.upCooldown);
      ScaleUpStep(c, v, e);
      WorkersAddedBound(c, next, es[1..], first, last);
      var before, after := Slots(begin, last, c.upCooldown), Slots(later, last, c.upCooldown);
      if next.count > v.count && InWindow(e, first, last) {
        SlotsAfterPoint(begin, last, c.upCooldown, e.now);
        StepProduct(c.maxStep, after, before);
      } else {
        SlotsAntitone(begin, later, last, c.upCooldown);
        ProductMonotone(c.maxStep, after, before);
      }
    }
  }

  lemma ProductMonotone(step: int, a: int, b: int)
    requires 0 <= step && a <= b
    ensures step * a <= step * b
  {
    assert step * (b - a) >= 0;
  }

  lemma StepProduct(step: int, a: int, b: int)
    requires 0 <= step && 1 + a <= b
    ensures step + step * a <= step * b
  {
    ProductMonotone(step, 1 + a, b);
    assert step * (1 + a) == step + step * a;
  }

  /** Any window of the given width gains at most one step cap per started scale-up cooldown. */
  lemma ScaleUpRateBound(c: Config, v: View, es: seq<Event>, first: int, width: nat)
    requires ValidConfig(c) && c.upCooldown > 0
    requires forall e | e in es :: IsScaling(e)
    ensures WorkersAdded(c, v, es, first, first + width) <= c.maxStep * (width / c.upCooldown + 1)
  {
    var begin := Max(first, v.lastUp + c.upCooldown);
    WorkersAddedBound(c, v, es, first, first + width);
    SlotsAntitone(first, begin, first + width, c.upCooldown);
    SlotsInWindow(first, width, c.upCooldown);
    ProductMonotone(c.maxStep, Slots(begin, first + width, c.upCooldown), width / c.upCooldown + 1);
  }

  lemma ScaleDownStep(c: Config, v: View, e: Event)
    requires ValidConfig(c) && IsScaling(e)
    ensures
      var next := Step(c, v, e).view;
      if next.count < v.count
      then e.Poll? && c.minCount <= next.count == v.count - 1 && next.lastDown == e.now &&
           e.now - v.lastDown >= c.downCooldown && e.now - v.lastNoSync >= c.noSyncQuiet
      else next.lastDown == v.lastDown
  {
  }

  lemma {:induction false} ScaleDownsBound(c: Config, v: View, es: seq<Event>, first: int, last: int)
    requires ValidConfig(c) && c.downCooldown > 0
    requires forall e | e in es :: IsScaling(e)
    ensures ScaleDowns(c, v, es, first, last) <= Slots(Max(first, v.lastDown + c.downCooldown), last, c.downCooldown)
    decreases es
  {
    hide Step, Slots, ValidConfig, IsScaling;
    if es != [] {
      var e, next := es[0], Step(c, v, es[0]).view;
      var begin, later := Max(first, v.lastDown + c.downCooldown), Max(first, next.lastDown + c.downCooldown);
      ScaleDownStep(c, v, e);
      ScaleDownsBound(c, next, es[1..], first, last);
      if next.count < v.count && InWindow(e, first, last) {
        SlotsAfterPoint(begin, last, c.downCooldown, e.now);
      } else {
        SlotsAntitone(begin, later, last, c.downCooldown);
      }
    }
  }

  /** Any window of the given width sees at most one scale-down per started scale-down cooldown. */
  lemma ScaleDownRateBound(c: Config, v: View, es: seq<Event>, first: int, width: nat)
    requires ValidConfig(c) && c.downCooldown > 0
    requires forall e | e in es :: IsScaling(e)
    ensures ScaleDowns(c, v, es, first, first + width) <= width / c.downCooldown + 1
  {
    ScaleDownsBound(c, v, es, first, first + width);
    SlotsAntitone(first, Max(first, v.lastDown + c.downCooldown), first + width, c.downCooldown);
    SlotsInWindow(first, width, c.downCooldown);
  }

  // ----- Quiet period -----

  predicate IsNoSync(e: Event) { e.TaskAdd? && !(e.isSyncMatch && e.noSyncBatch == 0) }

  /** The clock reading of the latest no-sync task-add of a run, or the stored one if there is none. */
  function LastNoSync(stored: int, es: seq<Event>): int
    decreases es
  {
    if es == [] then stored else LastNoSync(if IsNoSync(es[0]) then es[0].now else stored, es[1..])
  }

  lemma {:induction false} StoredNoSyncIsLatest(c: Config, v: View, es: seq<Event>)
    requires ValidConfig(c)
    ensures After(c, v, es).lastNoSync == LastNoSync(v.lastNoSync, es)
    decreases es
  {
    if es != [] {
      NoSyncStep(c, v, es[0]);
      hide Step;
      StoredNoSyncIsLatest(c, Step(c, v, es[0]).view, es[1..]);
    }
  }

  lemma NoSyncStep(c: Config, v: View, e: Event)
    requires ValidConfig(c)
    ensures Step(c, v, e).view.lastNoSync == if IsNoSync(e) then e.now else v.lastNoSync
  {
  }

  /** Without any assumption on the clock: no scale-down comes within no_sync_quiet of the latest no-sync task-add. */
  lemma ScaleDownRespectsLatestNoSync(c: Config, v: View, es: seq<Event>, e: Event)
    requires ValidConfig(c) && IsScaling(e)
    requires Step(c, After(c, v, es), e).view.count < After(c, v, es).count
    ensures e.Poll? && e.now - LastNoSync(v.lastNoSync, es) >= c.noSyncQuiet
  {
    StoredNoSyncIsLatest(c, v, es);
    ScaleDownStep(c, After(c, v, es), e);
  }

  /** The next call lowers the count only no_sync_quiet or more after the given reading. */
  ghost predicate QuietAfter(c: Config, v: View, reading: int)
    requires ValidConfig(c)
  {
    forall e: Event | IsScaling(e) && Step(c, v, e).view.count < v.count :: e.Poll? && e.now - reading >= c.noSyncQuiet
  }

  /** A poll that reports an idle queue. */
  function IdlePoll(now: int): Event {
    Poll(now, Snapshot(Some(QueueMetrics(0, Finite(0.0), Finite(0.0))), None, None))
  }

  /**
   Exactly when the quiet period of a no-sync task-add anywhere in a run is kept: when a later one has not stored an
   earlier reading, or when nothing could be scaled down within it anyway, for want of workers or in the cooldown.
   */
  lemma QuietIsKeptExactly(c: Config, v: View, es: seq<Event>, i: nat)
    requires ValidConfig(c) && i < |es| && IsNoSync(es[i])
    ensures
      var w := After(c, v, es);
      QuietAfter(c, w, es[i].now) <==>
        || es[i].now <= LastNoSync(v.lastNoSync, es)
        || w.count <= c.minCount
        || es[i].now + c.noSyncQuiet - 1 - w.lastDown < c.downCooldown
  {
    var w := After(c, v, es);
    StoredNoSyncIsLatest(c, v, es);
    forall e: Event | IsScaling(e) && Step(c, w, e).view.count < w.count
      ensures e.Poll? && w.count > c.minCount && e.now - w.lastNoSync >= c.noSyncQuiet
          && e.now - w.lastDown >= c.downCooldown
    {
      ScaleDownStep(c, w, e);
    }
    if w.lastNoSync < es[i].now && w.count > c.minCount
        && es[i].now + c.noSyncQuiet - 1 - w.lastDown >= c.downCooldown {
      var e := IdlePoll(es[i].now + c.noSyncQuiet - 1);
      IdleStep(c, w, e);
      assert Step(c, w, e).view.count < w.count;
    }
  }

  /**
   If no later no-sync task-add has stored an earlier reading, no scale-down comes within the quiet period of this
   one.
   */
  lemma NoScaleDownWhileNotQuiet(c: Config, v: View, es: seq<Event>, i: nat, e: Event)
    requires ValidConfig(c) && i < |es| && IsNoSync(es[i]) && es[i].now <= LastNoSync(v.lastNoSync, es)
    requires IsScaling(e) && Step(c, After(c, v, es), e).view.count < After(c, v, es).count
    ensures e.Poll? && e.now - es[i].now >= c.noSyncQuiet
  {
    QuietIsKeptExactly(c, v, es, i);
    hide Step;
    assert QuietAfter(c, After(c, v, es), es[i].now);
  }

  /** The no-sync task-adds read the clock in order; other calls may read what they like. */
  ghost predicate NoSyncInOrder(es: seq<Event>) {
    forall i, j | 0 <= i < j < |es| && IsNoSync(es[i]) && IsNoSync(es[j]) :: es[i].now <= es[j].now
  }

  /** A clock that the no-sync task-adds read in order is enough: then the latest reading is the greatest. */
  lemma {:induction false} LatestIsGreatest(stored: int, es: seq<Event>, i: nat)
    requires NoSyncInOrder(es) && i < |es| && IsNoSync(es[i])
    ensures es[i].now <= LastNoSync(stored, es)
    decreases es
  {
    if j :| 0 < j < |es| && i <= j && IsNoSync(es[j]) {
      assert es[1..][j - 1] == es[j];
      assert forall k, l | 0 <= k < l < |es[1..]| :: es[1..][k] == es[k + 1] && es[1..][l] == es[l + 1];
      LatestIsGreatest(if IsNoSync(es[0]) then es[0].now else stored, es[1..], j - 1);
    } else {
      NothingLater(es[i].now, es[1..]);
    }
  }

  lemma {:induction false} NothingLater(stored: int, es: seq<Event>)
    requires forall j | 0 <= j < |es| :: !IsNoSync(es[j])
    ensures LastNoSync(stored, es) == stored
    decreases es
  {
    if es != [] {
      NothingLater(stored, es[1..]);
    }
  }

  /**
   A step back of the clock between two no-sync task-adds, by as little as a millisecond, breaks the guarantee: an idle
   poll scales down within the quiet period of the first, whenever it could once that period is over.
   */
  lemma StepBackBreaksQuiet(c: Config, v: View, late: int, back: int)
    requires ValidConfig(c) && 0 < back && c.minCount < v.count
    requires late + c.noSyncQuiet - 1 - v.lastDown >= c.downCooldown
    ensures
      var es := [TaskAdd(late, false, 1), TaskAdd(late - back, false, 1)];
      !QuietAfter(c, After(c, v, es), es[0].now)
  {
    var es := [TaskAdd(late, false, 1), TaskAdd(late - back, false, 1)];
    var one := Step(c, v, es[0]).view;
    var two := Step(c, one, es[1]).view;
    assert es[1..] == [es[1]] && es[1..][1..] == [];
    assert After(c, v, es) == After(c, one, es[1..]) == After(c, two, []) == two;
    assert LastNoSync(v.lastNoSync, es) == LastNoSync(late, es[1..]) == LastNoSync(late - back, []) == late - back;
    QuietIsKeptExactly(c, v, es, 0);
  }

  // ----- Idleness -----

  /** Polls that report data and nothing but zeros, spaced at least a poll interval apart. */
  ghost predicate IdlePolls(c: Config, es: seq<Event>) {
    && (forall i | 0 <= i < |es| :: es[i].Poll? && IsIdle(AggregateOf(es[i].snapshot)))
    && (forall i | 0 < i < |es| :: es[i].now - es[i - 1].now >= c.pollInterval)
  }

  lemma IdleStep(c: Config, v: View, e: Event)
    requires ValidConfig(c) && v.count >= c.minCount
    requires e.Poll? && IsIdle(AggregateOf(e.snapshot))
    requires e.now - v.lastNoSync >= c.noSyncQuiet && e.now - v.lastDown >= c.downCooldown
    ensures
      var next := Step(c, v, e).view;
      && next.count == Max(c.minCount, v.count - 1)
      && next.lastNoSync == v.lastNoSync
      && (next.lastDown == v.lastDown || next.lastDown == e.now)
      && next.arrival == Some(0.0) && next.dispatch == Some(0.0)
  {
    var m := AggregateOf(e.snapshot);
    var estimated := Estimates(c, v, m);
    assert GetOr(estimated.arrival, 0.0) == 0.0;
    assert LoadFor(0.0, 0, c.drainRate, Capacity(c, estimated)) == 0.0;
    assert Desired(c, estimated, 0) == c.minCount;
  }

  lemma IdlePollsTail(c: Config, es: seq<Event>)
    requires es != [] && IdlePolls(c, es)
    ensures es[0].Poll? && IsIdle(AggregateOf(es[0].snapshot)) && IdlePolls(c, es[1..])
    ensures |es| > 1 ==> es[1].Poll? && es[1].now - es[0].now >= c.pollInterval
  {
    hide IsIdle, AggregateOf;
    assert forall i | 0 <= i < |es[1..]| :: es[1..][i] == es[i + 1];
  }

  /** Once quiet and cooled down, k idle polls remove exactly k workers, stopping at min_count. */
  lemma {:induction false} IdleRunScalesDownByOne(c: Config, v: View, es: seq<Event>)
    requires ValidConfig(c) && v.count >= c.minCount && IdlePolls(c, es)
    requires es != [] ==> es[0].now - v.lastNoSync >= c.noSyncQuiet && es[0].now - v.lastDown >= c.downCooldown
    ensures After(c, v, es).count == Max(c.minCount, v.count - |es|)
    decreases es
  {
    assert c.pollInterval >= c.downCooldown;
    hide Step, ValidConfig, IsIdle, AggregateOf, IdlePolls;
    if es != [] {
      IdlePollsTail(c, es);
      var next := Step(c, v, es[0]).view;
      IdleStep(c, v, es[0]);
      IdleRunScalesDownByOne(c, next, es[1..]);
    }
  }

  // ----- Estimates -----

  predicate Within(x: real, low: real, high: real) { low <= x <= high }

  lemma BlendWithin(alpha: real, sample: real, previous: real, low: real, high: real)
    requires 0.0 < alpha <= 1.0 && Within(sample, low, high) && Within(previous, low, high)
    ensures Within(Blend(alpha, sample, previous), low, high)
  {
    BlendIsBetween(alpha, sample, previous);
  }

  datatype Range = Range(low: real, high: real)

  predicate RateWithin(rate: Option<real>, r: Range) {
    rate.Some? ==> Within(rate.value, r.low, r.high)
  }

  predicate SampleWithin(e: Event, arrivals: Range, dispatches: Range) {
    e.Poll? ==>
      var m := AggregateOf(e.snapshot);
      m.hasData ==>
          Within(m.arrivalRate, arrivals.low, arrivals.high) && Within(m.dispatchRate, dispatches.low, dispatches.high)
  }

  lemma SmoothWithin(alpha: real, sample: real, previous: Option<real>, r: Range)
    requires 0.0 < alpha <= 1.0 && Within(sample, r.low, r.high) && RateWithin(previous, r)
    ensures Within(Smooth(alpha, sample, previous), r.low, r.high)
  {
    if previous.Some? {
      BlendWithin(alpha, sample, previous.value, r.low, r.high);
    }
  }

  /** Only polls move the rates: to the smoothed samples, or to zero when there is nothing left. */
  lemma StepRates(c: Config, v: View, e: Event)
    requires ValidConfig(c)
    ensures var next := Step(c, v, e).view;
      if e.Poll? then
        var smoothed := SnapIdle(SmoothRates(c, v, AggregateOf(e.snapshot)), AggregateOf(e.snapshot));
        next.arrival == smoothed.arrival && next.dispatch == smoothed.dispatch
      else next.arrival == v.arrival && next.dispatch == v.dispatch
  {
    hide DesiredCount, SmoothRates, SnapIdle, AggregateOf, Capacity;
  }

  lemma RatesStepWithin(c: Config, v: View, e: Event, arrivals: Range, dispatches: Range)
    requires ValidConfig(c) && SampleWithin(e, arrivals, dispatches)
    requires RateWithin(v.arrival, arrivals) && RateWithin(v.dispatch, dispatches)
    ensures RateWithin(Step(c, v, e).view.arrival, arrivals)
    ensures RateWithin(Step(c, v, e).view.dispatch, dispatches)
  {
    StepRates(c, v, e);
    if e.Poll? && AggregateOf(e.snapshot).hasData {
      var m := AggregateOf(e.snapshot);
      SmoothWithin(c.alpha, m.arrivalRate, v.arrival, arrivals);
      SmoothWithin(c.alpha, m.dispatchRate, v.dispatch, dispatches);
    }
    hide Step, Smooth, AggregateOf;
  }

  /** The smoothed rates never leave a range that holds the samples seen (and a stored start value). */
  lemma {:induction false} RatesStayWithinSamples(c: Config, v: View, es: seq<Event>, arrivals: Range,
                                                  dispatches: Range)
    requires ValidConfig(c) && forall e | e in es :: SampleWithin(e, arrivals, dispatches)
    requires RateWithin(v.arrival, arrivals) && RateWithin(v.dispatch, dispatches)
    ensures RateWithin(After(c, v, es).arrival, arrivals) && RateWithin(After(c, v, es).dispatch, dispatches)
    decreases es
  {
    if es != [] {
      RatesStepWithin(c, v, es[0], arrivals, dispatches);
      RatesStayWithinSamples(c, Step(c, v, es[0]).view, es[1..], arrivals, dispatches);
    }
  }

  /** The capacity sample a call takes, if it takes one: the dispatch rate per planned worker. */
  function ObservedRatio(c: Config, v: View, e: Event): Option<real> {
    var m := match e
      case Deferred(Fetches(s)) => AggregateMaybe(s)
      case Poll(_, s) => if AggregateOf(s).backlog >= c.backlogThreshold then AggregateOf(s) else NO_METRICS
      case _ => NO_METRICS;
    if v.count > 0 && m.dispatchRate > 0.0 then Some(m.dispatchRate / v.count as real) else None
  }

  predicate RatiosWithin(c: Config, v: View, es: seq<Event>, low: real, high: real)
    requires ValidConfig(c)
    decreases es
  {
    es == [] ||
    (var ratio := ObservedRatio(c, v, es[0]);
     (ratio.Some? ==> Within(ratio.value, low, high)) && RatiosWithin(c, Step(c, v, es[0]).view, es[1..], low, high))
  }

  lemma CapacityStep(c: Config, v: View, e: Event)
    requires ValidConfig(c)
    ensures
      var next := Step(c, v, e).view;
      var ratio := ObservedRatio(c, v, e);
      next.capacity == if ratio.Some? then Some(Blend(c.alpha, ratio.value, Capacity(c, v))) else v.capacity
  {
    hide Blend, Smooth, Desired, AggregateOf;
    if e.Poll? {
      var m := AggregateOf(e.snapshot);
      assert Step(c, v, e).view.capacity == Estimates(c, v, m).capacity;
    }
  }

  /** The capacity estimate stays positive and between the extremes of its start and of the ratios observed. */
  lemma {:induction false} CapacityStaysWithinObservations(c: Config, v: View, es: seq<Event>, low: real, high: real)
    requires ValidConfig(c) && 0.0 < low
    requires Within(Capacity(c, v), low, high) && RatiosWithin(c, v, es, low, high)
    ensures Within(Capacity(c, After(c, v, es)), low, high)
    decreases es
  {
    if es != [] {
      var next := Step(c, v, es[0]).view;
      var ratio := ObservedRatio(c, v, es[0]);
      CapacityStep(c, v, es[0]);
      if ratio.Some? {
        BlendWithin(c.alpha, ratio.value, Capacity(c, v), low, high);
      }
      CapacityStaysWithinObservations(c, next, es[1..], low, high);
    }
  }

  /** A poll that reports this busy aggregate. */
  predicate IsSteady(e: Event, arrivalRate: real, dispatchRate: real) {
    e.Poll? &&
    var m := AggregateOf(e.snapshot);
    m.hasData && !IsIdle(m) && m.arrivalRate == arrivalRate && m.dispatchRate == dispatchRate
  }

  lemma SteadyStep(c: Config, v: View, e: Event, arrivalRate: real, dispatchRate: real)
    requires ValidConfig(c) && IsSteady(e, arrivalRate, dispatchRate)
    requires v.arrival.Some? && v.dispatch.Some?
    ensures
      var next := Step(c, v, e).view;
      && next.arrival == Some(Blend(c.alpha, arrivalRate, v.arrival.value))
      && next.dispatch == Some(Blend(c.alpha, dispatchRate, v.dispatch.value))
  {
    var m := AggregateOf(e.snapshot);
    assert SnapIdle(SmoothRates(c, v, m), m) == SmoothRates(c, v, m);
  }

  /** k smoothing steps towards the same sample. */
  function Blends(alpha: real, sample: real, start: real, k: nat): real
    decreases k
  {
    if k == 0 then start else Blends(alpha, sample, Blend(alpha, sample, start), k - 1)
  }

  lemma {:induction false} SteadyRun(c: Config, v: View, es: seq<Event>, arrivalRate: real, dispatchRate: real)
    requires ValidConfig(c) && forall e | e in es :: IsSteady(e, arrivalRate, dispatchRate)
    requires v.arrival.Some? && v.dispatch.Some?
    ensures
      var last := After(c, v, es);
      && last.arrival == Some(Blends(c.alpha, arrivalRate, v.arrival.value, |es|))
      && last.dispatch == Some(Blends(c.alpha, dispatchRate, v.dispatch.value, |es|))
    decreases es
  {
    if es != [] {
      SteadyStep(c, v, es[0], arrivalRate, dispatchRate);
      SteadyRun(c, Step(c, v, es[0]).view, es[1..], arrivalRate, dispatchRate);
    }
  }

  lemma {:induction false} BlendsError(alpha: real, sample: real, start: real, k: nat)
    ensures Blends(alpha, sample, start, k) - sample == Pow(1.0 - alpha, k) * (start - sample)
    decreases k
  {
    if k > 0 {
      var rest, error := 1.0 - alpha, start - sample;
      var next := Blend(alpha, sample, start);
      BlendsError(alpha, sample, next, k - 1);
      BlendError(alpha, rest, sample, start, error);
      Reassociate(rest, Pow(rest, k - 1), Pow(rest, k), error, next - sample);
    }
  }

  lemma BlendError(alpha: real, rest: real, sample: real, previous: real, error: real)
    requires rest == 1.0 - alpha && error == previous - sample
    ensures Blend(alpha, sample, previous) - sample == rest * error
  {
  }

  lemma Reassociate(a: real, b: real, power: real, x: real, y: real)
    requires y == a * x && power == a * b
    ensures b * y == power * x
  {
  }

  /** Under a steady load the smoothing error shrinks by exactly 1 - alpha per poll. */
  lemma SteadyErrorDecaysGeometrically(c: Config, v: View, es: seq<Event>, arrivalRate: real, dispatchRate: real)
    requires ValidConfig(c) && forall e | e in es :: IsSteady(e, arrivalRate, dispatchRate)
    requires v.arrival.Some? && v.dispatch.Some?
    ensures
      var last := After(c, v, es);
      && last.arrival.Some? && last.dispatch.Some?
      && last.arrival.value - arrivalRate == Pow(1.0 - c.alpha, |es|) * (v.arrival.value - arrivalRate)
      && last.dispatch.value - dispatchRate == Pow(1.0 - c.alpha, |es|) * (v.dispatch.value - dispatchRate)
  {
    hide *;
    SteadyRun(c, v, es, arrivalRate, dispatchRate);
    var last := After(c, v, es);
    StoredError(last.arrival, c.alpha, arrivalRate, v.arrival.value, |es|);
    StoredError(last.dispatch, c.alpha, dispatchRate, v.dispatch.value, |es|);
  }

  lemma StoredError(rate: Option<real>, alpha: real, sample: real, start: real, k: nat)
    requires rate == Some(Blends(alpha, sample, start, k))
    ensures rate.value - sample == Pow(1.0 - alpha, k) * (start - sample)
  {
    BlendsError(alpha, sample, start, k);
  }

  // ----- Runs on the stored status -----

  /** The clock is a Unix time in milliseconds. */
  predicate Readable(e: Event) {
    (e.TaskAdd? || e.Poll?) ==> 0 <= e.now < TWO_TO_THE_63
  }

  lemma {:induction false} AfterOneMore(c: Config, v: View, es: seq<Event>, e: Event)
    requires ValidConfig(c)
    ensures After(c, v, es + [e]) == Step(c, After(c, v, es), e).view
    ensures Emitted(c, v, es + [e]) == Emitted(c, v, es) + Step(c, After(c, v, es), e).actions
    decreases es
  {
    hide Step;
    if es == [] {
      assert [e][1..] == [] && es + [e] == [e];
      assert Emitted(c, v, [e]) == Step(c, v, e).actions + [];
    } else {
      assert (es + [e])[1..] == es[1..] + [e];
      AfterOneMore(c, Step(c, v, es[0]).view, es[1..], e);
    }
  }

  /**
   Calling the entry points on what is stored, with a JSON trip between calls, is the run on readings that the theorems
   above are about. The stored status has been read back from JSON, and may hold anything else.
   */
  method RunStored(c: Config, stored: Status, es: seq<Event>) returns (status: Status, actions: seq<Action>)
    requires ValidConfig(c) && JsonTrip(stored) == stored && forall e | e in es :: Readable(e)
    ensures ViewOf(c, Cleaned(status)) == After(c, ViewOf(c, Cleaned(stored)), es)
    ensures actions == Emitted(c, ViewOf(c, Cleaned(stored)), es)
  {
    hide Step, Cleaned, Readable;
    ghost var v := ViewOf(c, Cleaned(stored));
    status, actions := stored, [];
    assert es[..0] == [];
    for i := 0 to |es|
      invariant JsonTrip(status) == status
      invariant ViewOf(c, Cleaned(status)) == After(c, v, es[..i]) && actions == Emitted(c, v, es[..i])
    {
      var emitted;
      AfterOneMore(c, v, es[..i], es[i]);
      status, emitted := CallStored(c, status, es[i]);
      actions := actions + emitted;
      assert es[..i + 1] == es[..i] + [es[i]];
    }
    assert es[..|es|] == es;
  }

  /** The entry point that an event calls; a failed deferred decision keeps the stored status. */
  method CallStored(c: Config, prior: Status, e: Event) returns (status: Status, actions: seq<Action>)
    requires ValidConfig(c) && JsonTrip(prior) == prior && Readable(e)
    ensures JsonTrip(status) == status
    ensures Outcome(ViewOf(c, Cleaned(status)), actions) == Step(c, ViewOf(c, Cleaned(prior)), e)
  {
    hide Cleaned, TaskAddOf, DeferredOf, PollOf, RegistrationOf, AggregateOf;
    match e {
      case TaskAdd(now, isSyncMatch, noSyncBatch) =>
        var throttled;
        actions, status, throttled := ProcessTaskAdd(c, prior, isSyncMatch, noSyncBatch, now);
      case Deferred(getter) =>
        actions := [];
        var r := ProcessDeferredScalingDecision(c, prior, getter);
        if r.None? {
          return prior, actions;
        }
        status := r.value;
      case Poll(now, snapshot) =>
        var nextPollMs, reason;
        actions, status, nextPollMs, reason := ProcessMetricsPoll(c, prior, snapshot, now);
      case Registration =>
        actions, status := TaskQueueRegistrationActions(c, prior);
    }
    JsonTripPreserves(c, status);
    status := JsonTrip(status);
  }
}
