/** Guarantees of the no-sync scaler over whole runs of task-adds and polls under one configuration. */
module NoSyncRuns {
  import opened Arithmetic
  import opened ScalingTypes
  import opened NoSync

  /** One call; the clock reading is the call's own, in milliseconds since the epoch. */
  datatype Event =
    | TaskAdd(now: int, q: Option<QueueType>, isSyncMatch: bool, noSyncBatch: int)
    | Poll(now: int, samples: Samples)

  datatype Outcome = Outcome(view: View, invoke: bool)

  function Step(c: Config, v: View, e: Event): Outcome {
    match e
    case TaskAdd(now, q, isSyncMatch, noSyncBatch) =>
      var r := TaskAddOf(c, v, q, isSyncMatch, noSyncBatch, now);
      Outcome(r.view, r.invoke)
    case Poll(now, samples) =>
      var r := PollOf(c, v, samples, now);
      Outcome(r.view, r.invoke)
  }

  /** The reading after a run; the last event is the most recent. */
  function After(c: Config, v: View, es: seq<Event>): View
    decreases es
  {
    if es == [] then v else Step(c, After(c, v, es[..|es| - 1]), es[|es| - 1]).view
  }

  /** Nothing persisted yet. */
  const FRESH := View(0, RESET, RESET, RESET)

  lemma FreshIsEmptyStatus()
    ensures ViewOf(map[]) == FRESH
  {
  }

  ghost predicate ClockAdvances(es: seq<Event>) {
    && (forall i | 0 <= i < |es| :: es[i].now > 0)
    && (forall i, j | 0 <= i < j < |es| :: es[i].now <= es[j].now)
  }

  // ----- Spacing of invocations -----

  /** The shorter of the two timers that permit an invocation; a zero lifetime is disabled. */
  function MinGap(c: Config): int {
    if c.lifetime > 0 then Min(c.cooloff, c.lifetime) else c.cooloff
  }

  lemma InvocationStep(c: Config, v: View, e: Event)
    ensures
      var r := Step(c, v, e);
      if r.invoke then e.now - v.lastScaleUp >= MinGap(c) && r.view.lastScaleUp == e.now
      else r.view.lastScaleUp == v.lastScaleUp
  {
  }

  /** Invocations whose clock reading lies in the window. */
  function Invocations(c: Config, v: View, es: seq<Event>, first: int, last: int): nat
    decreases es
  {
    if es == [] then 0 else
      var r := Step(c, v, es[0]);
      (if r.invoke && first <= es[0].now <= last then 1 else 0) + Invocations(c, r.view, es[1..], first, last)
  }

  lemma {:induction false} InvocationsBound(c: Config, v: View, es: seq<Event>, first: int, last: int)
    requires MinGap(c) > 0
    ensures Invocations(c, v, es, first, last) <= Slots(Max(first, v.lastScaleUp + MinGap(c)), last, MinGap(c))
    decreases es
  {
    hide Step, Slots;
    if es != [] {
      var e, r, gap := es[0], Step(c, v, es[0]), MinGap(c);
      var begin, later := Max(first, v.lastScaleUp + gap), Max(first, r.view.lastScaleUp + gap);
      InvocationStep(c, v, e);
      InvocationsBound(c, r.view, es[1..], first, last);
      if r.invoke && first <= e.now <= last {
        SlotsAfterPoint(begin, last, gap, e.now);
      } else {
        SlotsAntitone(begin, later, last, gap);
      }
    }
  }

  /** Whatever path or queue type asks, a window of the given width holds at most width / gap + 1 invocations. */
  lemma InvocationRateBound(c: Config, v: View, es: seq<Event>, first: int, width: nat)
    requires MinGap(c) > 0
    ensures Invocations(c, v, es, first, first + width) <= width / MinGap(c) + 1
  {
    hide Invocations, Slots;
    InvocationsBound(c, v, es, first, first + width);
    SlotsAntitone(first, Max(first, v.lastScaleUp + MinGap(c)), first + width, MinGap(c));
    SlotsInWindow(first, width, MinGap(c));
  }

  predicate SeesBacklog(s: Samples) {
    exists q :: s.Of(q).Some? && s.Of(q).value.backlog > 0
  }

  /**
   Every event comes within p of the latest poll before it (the first one of the time lastPoll), and every poll sees
   backlog.
   */
  predicate PolledEvery(es: seq<Event>, lastPoll: int, p: int)
    decreases es
  {
    es == [] ||
    (lastPoll <= es[0].now <= lastPoll + p && (es[0].Poll? ==> SeesBacklog(es[0].samples)) &&
     PolledEvery(es[1..], if es[0].Poll? then es[0].now else lastPoll, p))
  }

  /** At every event the latest invocation before it is at most gap old: another one always comes in time. */
  predicate NeverLaterThan(c: Config, v: View, es: seq<Event>, gap: int)
    decreases es
  {
    es == [] ||
    (var r := Step(c, v, es[0]);
     es[0].now - v.lastScaleUp <= gap && NeverLaterThan(c, r.view, es[1..], gap))
  }

  lemma PollRefreshes(c: Config, v: View, e: Event)
    requires c.lifetime > 0 && e.Poll? && SeesBacklog(e.samples)
    ensures
      var r := Step(c, v, e);
      (e.now - v.lastScaleUp >= c.lifetime ==> r.invoke) && e.now - r.view.lastScaleUp < c.lifetime
  {
    var q :| e.samples.Of(q).Some? && e.samples.Of(q).value.backlog > 0;
    if e.now - v.lastScaleUp >= c.lifetime {
      assert AsksForRefresh(c, v, e.samples, q, e.now);
    }
  }

  /**
   The lifetime refresh is never suppressed: with backlog at every poll, invocations are at most lifetime + p apart.
   */
  lemma {:induction false} RefreshIsNeverSuppressed(c: Config, v: View, es: seq<Event>, lastPoll: int, p: nat)
    requires c.lifetime > 0 && lastPoll - v.lastScaleUp < c.lifetime && PolledEvery(es, lastPoll, p)
    ensures NeverLaterThan(c, v, es, c.lifetime + p)
    decreases es
  {
    if es != [] {
      hide Step;
      var e, r := es[0], Step(c, v, es[0]);
      InvocationStep(c, v, e);
      if e.Poll? {
        PollRefreshes(c, v, e);
      }
      RefreshIsNeverSuppressed(c, r.view, es[1..], if e.Poll? then e.now else lastPoll, p);
    }
  }

  // ----- What the detector remembers -----

  predicate Carries(e: Event, q: QueueType) { e.Poll? && e.samples.Of(q).Some? }

  function SampleOf(e: Event, q: QueueType): Sample
    requires Carries(e, q)
  {
    e.samples.Of(q).value
  }

  /** Backlogged and dispatching, as a poll must be to open a stretch. */
  predicate Opens(c: Config, m: Sample) {
    m.backlog > c.backlogThreshold && m.rate > 0.0
  }

  /** Such a poll, dispatching at most epsilon away from the opener's rate. */
  predicate Stays(c: Config, m: Sample, centre: real) {
    Opens(c, m) && centre - c.epsilon * centre <= m.rate <= centre + c.epsilon * centre
  }

  /** The detector's own tests are these, and its windows are these. */
  lemma DetectMeans(c: Config, d: Detector, m: Sample, now: int)
    requires ValidConfig(c) && c.epsilon > 0.0
    ensures Epsilon(c) > 0.0 && SuppressMs(c) > 0 && ConfirmMs(c) > 0
    ensures Stays(c, m, d.refRate) ==> Opens(c, m)
    ensures Detect(c, d, None, now) == d
    ensures Detect(c, d, Some(m), now)
         == if !Opens(c, m) || (d.refRate >= 0.0 && !Stays(c, m, d.refRate)) then RESET
            else if d.since == 0 then Detector(now, d.until, m.rate)
            else if now - d.since >= ConfirmMs(c) then d.(until := now + SuppressMs(c))
            else d
  {
    assert c.SuppressPoll() > 0 && c.Suppress() == SuppressMs(c) && c.Confirm() == ConfirmMs(c);
  }

  /**
   The poll that opened the stable stretch a history ends in, from the metrics alone: a stretch opens at an
   eligible poll, lasts while every poll that carries metrics stays in the opener's band, and ends otherwise.
   */
  function StretchStart(c: Config, es: seq<Event>, q: QueueType): (start: Option<int>)
    ensures start.Some? ==>
              0 <= start.value < |es| && Carries(es[start.value], q) && Opens(c, SampleOf(es[start.value], q))
    ensures start.Some? ==> forall j | start.value < j < |es| && Carries(es[j], q) ::
                              Stays(c, SampleOf(es[j], q), SampleOf(es[start.value], q).rate)
    decreases es
  {
    if es == [] then None else
      var n := |es| - 1;
      var earlier := StretchStart(c, es[..n], q);
      if !Carries(es[n], q) then earlier
      else if earlier.None? then (if Opens(c, SampleOf(es[n], q)) then Some(n) else None)
      else if Stays(c, SampleOf(es[n], q), SampleOf(es[earlier.value], q).rate) then earlier
      else None
  }

  /** What the stored triple says about the history before the clock reading. */
  ghost predicate Remembers(c: Config, d: Detector, es: seq<Event>, q: QueueType) {
    var start := StretchStart(c, es, q);
    if start.None? then d == RESET
    else
      && d.since == es[start.value].now > 0
      && d.refRate == SampleOf(es[start.value], q).rate > 0.0
      && IsDeadline(c, es, q, start.value, d.until)
  }

  /** The deadline is set by the last poll that confirmed the stretch, and zero without one. */
  ghost predicate IsDeadline(c: Config, es: seq<Event>, q: QueueType, start: int, until: int) {
    && (until != 0 ==> exists k :: Confirms(c, es, q, start, k) && until == es[k].now + SuppressMs(c))
    && (forall k :: Confirms(c, es, q, start, k) ==> es[k].now + SuppressMs(c) <= until)
  }

  /** How long a stretch must last to suppress, for how long it then does, and the poll interval meanwhile. */
  function ConfirmMs(c: Config): int { match c.confirmSet case None => 90_000 case Some(ms) => ms }

  function SuppressMs(c: Config): int { match c.suppressSet case None => 120_000 case Some(ms) => ms }

  function SuppressPollMs(c: Config): int { match c.suppressPollSet case None => 90_000 case Some(ms) => ms }

  /** Poll k carried metrics and found the stretch at least the confirm window long. */
  predicate Confirms(c: Config, es: seq<Event>, q: QueueType, start: int, k: int) {
    0 <= start <= k < |es| && Carries(es[k], q) && es[k].now - es[start].now >= ConfirmMs(c)
  }

  lemma StepDetector(c: Config, v: View, e: Event, q: QueueType)
    ensures Step(c, v, e).view.Of(q) == if e.Poll? then Detect(c, v.Of(q), e.samples.Of(q), e.now) else v.Of(q)
  {
  }

  lemma RememberStep(c: Config, d: Detector, es: seq<Event>, q: QueueType)
    requires ValidConfig(c) && c.epsilon > 0.0 && ClockAdvances(es) && es != []
    requires Remembers(c, d, es[..|es| - 1], q)
    ensures
      var e := es[|es| - 1];
      Remembers(c, if e.Poll? then Detect(c, d, e.samples.Of(q), e.now) else d, es, q)
  {
    hide StretchStart, InBand, Eligible, Detect, Stays, Opens, IsDeadline;
    var n := |es| - 1;
    var prefix, e := es[..n], es[n];
    StretchStep(c, es, q);
    var before, after := StretchStart(c, prefix, q), StretchStart(c, es, q);
    if before.Some? {
      assert prefix[before.value] == es[before.value] && d.refRate == SampleOf(es[before.value], q).rate;
      DeadlineStep(c, es, q, before.value, d.until);
    }
    if Carries(e, q) {
      DetectMeans(c, d, SampleOf(e, q), e.now);
      if before.None? && after.Some? {
        OpensPositive(c, SampleOf(e, q));
        NoDeadlineYet(c, es, q);
      }
    } else {
      assert e.Poll? ==> e.samples.Of(q) == None;
      DetectMeans(c, d, Sample(0, 0.0), e.now);
    }
  }

  lemma OpensPositive(c: Config, m: Sample)
    requires Opens(c, m)
    ensures m.rate > 0.0
  {
  }

  lemma StretchStep(c: Config, es: seq<Event>, q: QueueType)
    requires es != []
    ensures
      var n := |es| - 1;
      var earlier := StretchStart(c, es[..n], q);
      StretchStart(c, es, q) ==
      if !Carries(es[n], q) then earlier
      else if earlier.None? then (if Opens(c, SampleOf(es[n], q)) then Some(n) else None)
      else if Stays(c, SampleOf(es[n], q), SampleOf(es[earlier.value], q).rate) then earlier
      else None
  {
    hide Stays, Opens;
  }

  /** A poll that confirms sets the deadline; before the first that could, it is zero. */
  lemma DeadlineStep(c: Config, es: seq<Event>, q: QueueType, start: nat, until: int)
    requires ClockAdvances(es) && start < |es| - 1 && IsDeadline(c, es[..|es| - 1], q, start, until)
    ensures
      var n := |es| - 1;
      var confirmed := es[n].now - es[start].now >= ConfirmMs(c);
      && (Carries(es[n], q) && confirmed ==> IsDeadline(c, es, q, start, es[n].now + SuppressMs(c)))
      && (!Carries(es[n], q) || !confirmed ==> IsDeadline(c, es, q, start, until))
      && (!confirmed ==> until == 0)
  {
    var n := |es| - 1;
    var prefix := es[..n];
    forall k | 0 <= k < n
      ensures Confirms(c, es, q, start, k) <==> Confirms(c, prefix, q, start, k)
      ensures prefix[k] == es[k] && es[k].now <= es[n].now
    {
    }
    if until != 0 {
      var k :| Confirms(c, prefix, q, start, k) && until == prefix[k].now + SuppressMs(c);
      assert Confirms(c, es, q, start, k) && until == es[k].now + SuppressMs(c);
    }
    forall k | Confirms(c, es, q, start, k)
      ensures es[k].now <= es[n].now && (k < n ==> es[k].now + SuppressMs(c) <= until)
    {
      assert k < n ==> prefix[k] == es[k];
    }
    if Carries(es[n], q) && es[n].now - es[start].now >= ConfirmMs(c) {
      assert Confirms(c, es, q, start, n);
    }
  }

  lemma NoDeadlineYet(c: Config, es: seq<Event>, q: QueueType)
    requires es != [] && ConfirmMs(c) > 0
    ensures IsDeadline(c, es, q, |es| - 1, 0)
  {
  }

  /**
   The stored triple of every queue type is a function of its polls: it opens, keeps and forgets stretches exactly as
   they do.
   */
  lemma {:induction false} DetectorRemembersHistory(c: Config, es: seq<Event>, q: QueueType)
    requires ValidConfig(c) && c.epsilon > 0.0 && ClockAdvances(es)
    ensures Remembers(c, After(c, FRESH, es).Of(q), es, q)
    decreases es
  {
    if es != [] {
      var prefix := es[..|es| - 1];
      DetectorRemembersHistory(c, prefix, q);
      RememberStep(c, After(c, FRESH, prefix).Of(q), es, q);
      StepDetector(c, After(c, FRESH, prefix), es[|es| - 1], q);
    }
  }

  lemma AfterStep(c: Config, es: seq<Event>, q: QueueType)
    requires es != []
    ensures
      var n := |es| - 1;
      var d := After(c, FRESH, es[..n]).Of(q);
      After(c, FRESH, es).Of(q) == if es[n].Poll? then Detect(c, d, es[n].samples.Of(q), es[n].now) else d
  {
    StepDetector(c, After(c, FRESH, es[..|es| - 1]), es[|es| - 1], q);
  }

  /** The last event of the history is a poll that suppresses q. */
  predicate SuppressedAtEnd(c: Config, es: seq<Event>, q: QueueType) {
    es != [] && es[|es| - 1].Poll? &&
    Suppresses(c, After(c, FRESH, es[..|es| - 1]).Of(q), es[|es| - 1].samples.Of(q), es[|es| - 1].now)
  }

  /** The history ends in a poll that carries metrics for q, and in a stretch at least the confirm window long. */
  predicate EndsConfirmed(c: Config, es: seq<Event>, q: QueueType) {
    var start := StretchStart(c, es, q);
    c.epsilon > 0.0 && start.Some? && Confirms(c, es, q, start.value, |es| - 1)
  }

  /**
   A poll suppresses a queue type exactly when it carries metrics for it and the stretch it ends is at least the
   confirm window long; it then holds task-adds back until suppress_scale_up_ms after itself.
   */
  lemma SuppressionIffConfirmedStretch(c: Config, es: seq<Event>, q: QueueType)
    requires ValidConfig(c) && c.epsilon > 0.0 && ClockAdvances(es) && es != []
    ensures
      var n := |es| - 1;
      var start := StretchStart(c, es, q);
      SuppressedAtEnd(c, es, q) <==> Carries(es[n], q) && start.Some? && es[n].now - es[start.value].now >= ConfirmMs(c)
    ensures SuppressedAtEnd(c, es, q) <==> EndsConfirmed(c, es, q)
    ensures SuppressedAtEnd(c, es, q) ==> After(c, FRESH, es).Of(q).until == es[|es| - 1].now + SuppressMs(c)
  {
    hide StretchStart, After, InBand, Eligible, Detect, Stays, Opens, IsDeadline;
    var n := |es| - 1;
    var prefix, e := es[..n], es[n];
    var d := After(c, FRESH, prefix).Of(q);
    DetectorRemembersHistory(c, prefix, q);
    AfterStep(c, es, q);
    StretchStep(c, es, q);
    var before := StretchStart(c, prefix, q);
    if before.Some? {
      assert prefix[before.value] == es[before.value] && d.refRate == SampleOf(es[before.value], q).rate;
      DeadlineStep(c, es, q, before.value, d.until);
    }
    if Carries(e, q) {
      DetectMeans(c, d, SampleOf(e, q), e.now);
    } else {
      DetectMeans(c, d, Sample(0, 0.0), e.now);
    }
  }

  /** Consecutive polls that carry metrics for q are at most gap apart. */
  ghost predicate CarriedEvery(es: seq<Event>, q: QueueType, gap: int) {
    forall i, j | 0 <= i < j < |es| && Carries(es[i], q) && Carries(es[j], q) && es[j].now - es[i].now > gap ::
      exists k :: i < k < j && Carries(es[k], q)
  }

  /** At the regular poll cadence suppression needs a third in-band poll between the opener and the confirmer. */
  lemma SuppressionTakesThreePolls(c: Config, es: seq<Event>, q: QueueType)
    requires ValidConfig(c) && c.epsilon > 0.0 && ClockAdvances(es)
    requires SuppressedAtEnd(c, es, q) && CarriedEvery(es, q, c.pollInterval)
    ensures
      var start := StretchStart(c, es, q);
      start.Some? && exists k :: start.value < k < |es| - 1 && Carries(es[k], q) &&
                                 Stays(c, SampleOf(es[k], q), SampleOf(es[start.value], q).rate)
  {
    SuppressionIffConfirmedStretch(c, es, q);
    var start := StretchStart(c, es, q).value;
    assert es[|es| - 1].now - es[start].now > c.pollInterval;
    var k :| start < k < |es| - 1 && Carries(es[k], q);
    assert Stays(c, SampleOf(es[k], q), SampleOf(es[start], q).rate);
  }

  // ----- Task-adds under suppression -----

  lemma {:induction false} TaskAddsKeepDetectors(c: Config, v: View, adds: seq<Event>, q: QueueType)
    requires forall e | e in adds :: e.TaskAdd?
    ensures After(c, v, adds).Of(q) == v.Of(q)
    decreases adds
  {
    if adds != [] {
      TaskAddsKeepDetectors(c, v, adds[..|adds| - 1], q);
      StepDetector(c, After(c, v, adds[..|adds| - 1]), adds[|adds| - 1], q);
    }
  }

  /** Until the next poll the suppressing poll asked for, every task-add of that type is held back. */
  lemma SuppressionHasNoGap(c: Config, es: seq<Event>, q: QueueType, adds: seq<Event>, e: Event)
    requires ValidConfig(c) && c.epsilon > 0.0 && ClockAdvances(es) && SuppressedAtEnd(c, es, q)
    requires (forall a | a in adds :: a.TaskAdd?) && e.TaskAdd? && e.q == Some(q)
    requires
      var n := |es| - 1;
      e.now <= es[n].now + PollOf(c, After(c, FRESH, es[..n]), es[n].samples, es[n].now).nextPoll
    ensures !Step(c, After(c, After(c, FRESH, es), adds), e).invoke
    ensures HeldBack(c, After(c, After(c, FRESH, es), adds), e.q, e.now)
  {
    SuppressionIffConfirmedStretch(c, es, q);
    TaskAddsKeepDetectors(c, After(c, FRESH, es), adds, q);
  }

  /** Some poll of the stretch that the history ends in confirmed it, less than suppress_scale_up_ms ago. */
  ghost predicate RecentlyConfirmed(c: Config, es: seq<Event>, q: QueueType, now: int) {
    var start := StretchStart(c, es, q);
    c.epsilon > 0.0 && start.Some? &&
    exists k :: Confirms(c, es, q, start.value, k) && now < es[k].now + SuppressMs(c)
  }

  /** Task-adds are held back exactly while the current stretch has recently been confirmed. */
  lemma HeldBackIffRecentlyConfirmed(c: Config, es: seq<Event>, q: QueueType, now: int)
    requires ValidConfig(c) && ClockAdvances(es) && now >= 0
    ensures HeldBack(c, After(c, FRESH, es), Some(q), now) <==> RecentlyConfirmed(c, es, q, now)
  {
    hide After, StretchStart;
    if c.epsilon > 0.0 {
      DetectorRemembersHistory(c, es, q);
    }
  }

  /**
   Suppression never outlives its cause: a held-back task-add comes within suppress_scale_up_ms of a suppressing poll.
   */
  lemma HeldBackNearConfirmingPoll(c: Config, es: seq<Event>, q: QueueType, now: int)
    requires ValidConfig(c) && c.epsilon > 0.0 && ClockAdvances(es)
    requires HeldBack(c, After(c, FRESH, es), Some(q), now) && now >= 0
    ensures exists k :: 0 <= k < |es| && SuppressedAtEnd(c, es[..k + 1], q) && now < es[k].now + SuppressMs(c)
  {
    hide After, StretchStart, SuppressedAtEnd, Suppresses, Stays, Opens;
    HeldBackIffRecentlyConfirmed(c, es, q, now);
    var start := StretchStart(c, es, q).value;
    var k :| Confirms(c, es, q, start, k) && now < es[k].now + SuppressMs(c);
    var upTo := es[..k + 1];
    StretchOfPrefix(c, es, q, k + 1);
    assert upTo[|upTo| - 1] == es[k] && upTo[start] == es[start];
    SuppressionIffConfirmedStretch(c, upTo, q);
  }

  /** A stretch is already open at every earlier point from its start on. */
  lemma {:induction false} StretchOfPrefix(c: Config, es: seq<Event>, q: QueueType, m: nat)
    requires StretchStart(c, es, q).Some? && StretchStart(c, es, q).value < m <= |es|
    ensures StretchStart(c, es[..m], q) == StretchStart(c, es, q)
    decreases es
  {
    if m < |es| {
      var prefix := es[..|es| - 1];
      assert prefix[..m] == es[..m];
      StretchOfPrefix(c, prefix, q, m);
    } else {
      assert es[..m] == es;
    }
  }

  // ----- When a run invokes -----

  /** Call i of a run from an empty status invokes a worker. */
  predicate Invokes(c: Config, es: seq<Event>, i: nat)
    requires i < |es|
  {
    Step(c, After(c, FRESH, es[..i]), es[i]).invoke
  }

  /** When the run last invoked a worker; zero before the first time. */
  function LatestInvocation(c: Config, es: seq<Event>): int
    decreases es
  {
    if es == [] then 0
    else if Invokes(c, es, |es| - 1) then es[|es| - 1].now
    else LatestInvocation(c, es[..|es| - 1])
  }

  lemma {:induction false} LatestIsStored(c: Config, es: seq<Event>)
    ensures After(c, FRESH, es).lastScaleUp == LatestInvocation(c, es)
    decreases es
  {
    hide Step;
    if es != [] {
      LatestIsStored(c, es[..|es| - 1]);
      InvocationStep(c, After(c, FRESH, es[..|es| - 1]), es[|es| - 1]);
    }
  }

  /**
   A poll invokes a worker if and only if some queue type that it carries has either a backlog above the threshold,
   with the cooloff over and the stretch ending here unconfirmed, or any backlog at all with the enabled lifetime over.
   While some type is confirmed it asks to be polled again at the suppression interval.
   */
  lemma PollInvokesIff(c: Config, es: seq<Event>)
    requires ValidConfig(c) && ClockAdvances(es) && es != [] && es[|es| - 1].Poll?
    ensures
      var n := |es| - 1;
      var since := es[n].now - LatestInvocation(c, es[..n]);
      Invokes(c, es, n) <==>
        exists q :: Carries(es[n], q) &&
          var backlog := SampleOf(es[n], q).backlog;
          || (backlog > c.backlogThreshold && since >= c.cooloff && !EndsConfirmed(c, es, q))
          || (backlog > 0 && c.lifetime > 0 && since >= c.lifetime)
    ensures
      var n := |es| - 1;
      PollOf(c, After(c, FRESH, es[..n]), es[n].samples, es[n].now).nextPoll
        == if exists q :: EndsConfirmed(c, es, q) then SuppressPollMs(c) else c.pollInterval
  {
    var n := |es| - 1;
    var v, e := After(c, FRESH, es[..n]), es[n];
    LatestIsStored(c, es[..n]);
    forall q
      ensures Suppresses(c, v.Of(q), e.samples.Of(q), e.now) <==> EndsConfirmed(c, es, q)
    {
      if c.epsilon > 0.0 {
        SuppressionIffConfirmedStretch(c, es, q);
      }
    }
    hide After, Suppresses, EndsConfirmed, Detect, ClockAdvances, LatestInvocation;
    PollAsks(c, v, e);
  }

  lemma PollAsks(c: Config, v: View, e: Event)
    requires e.Poll?
    ensures Step(c, v, e).invoke <==> exists q :: Asks(c, v, e.samples, q, e.now)
    ensures PollOf(c, v, e.samples, e.now).nextPoll
         == if exists q :: Suppresses(c, v.Of(q), e.samples.Of(q), e.now) then c.SuppressPoll() else c.pollInterval
  {
    hide Asks, Suppresses, Detect;
    var s, now := e.samples, e.now;
    forall q: QueueType
      ensures Asks(c, v, s, q, now) ==>
                Asks(c, v, s, WorkflowQueue, now) || Asks(c, v, s, ActivityQueue, now) || Asks(c, v, s, NexusQueue, now)
    {
      assert q == WorkflowQueue || q == ActivityQueue || q == NexusQueue;
    }
    forall q: QueueType
      ensures Suppresses(c, v.Of(q), s.Of(q), now) ==>
                || Suppresses(c, v.workflow, s.workflow, now) || Suppresses(c, v.activity, s.activity, now)
                || Suppresses(c, v.nexus, s.nexus, now)
    {
      assert q == WorkflowQueue || q == ActivityQueue || q == NexusQueue;
    }
    assert v.Of(WorkflowQueue) == v.workflow && v.Of(ActivityQueue) == v.activity && v.Of(NexusQueue) == v.nexus;
    assert s.Of(WorkflowQueue) == s.workflow && s.Of(ActivityQueue) == s.activity && s.Of(NexusQueue) == s.nexus;
  }

  /**
   A task-add invokes a worker if and only if it carries a no-sync match, the cooloff is over and the queue type's
   stretch has not recently been confirmed; one with a no-sync match that does not invoke reports its batch throttled.
   */
  lemma TaskAddInvokesIff(c: Config, es: seq<Event>)
    requires ValidConfig(c) && ClockAdvances(es) && es != [] && es[|es| - 1].TaskAdd?
    ensures
      var n := |es| - 1;
      var noSync := !es[n].isSyncMatch || es[n].noSyncBatch > 0;
      && (Invokes(c, es, n) <==>
            noSync && es[n].now - LatestInvocation(c, es[..n]) >= c.cooloff
              && !(es[n].q.Some? && RecentlyConfirmed(c, es[..n], es[n].q.value, es[n].now)))
      && TaskAddOf(c, After(c, FRESH, es[..n]), es[n].q, es[n].isSyncMatch, es[n].noSyncBatch, es[n].now).throttled
           == if noSync && !Invokes(c, es, n) then es[n].noSyncBatch else 0
  {
    var n := |es| - 1;
    LatestIsStored(c, es[..n]);
    if es[n].q.Some? {
      HeldBackIffRecentlyConfirmed(c, es[..n], es[n].q.value, es[n].now);
    }
    hide After, HeldBack, RecentlyConfirmed, LatestInvocation;
    assert es[n].q.None? ==> !HeldBack(c, After(c, FRESH, es[..n]), es[n].q, es[n].now);
  }

  // ----- Runs on the stored status -----

  /**
   From an empty status on, calling the entry points on what is stored, with a JSON trip between calls, is the run on
   readings that the theorems above are about; a call emits an action exactly when its step invokes.
   */
  method RunStored(c: Config, es: seq<Event>) returns (status: Status, invocations: seq<bool>)
    ensures ViewOf(status) == After(c, FRESH, es)
    ensures |invocations| == |es|
    ensures forall i | 0 <= i < |es| :: invocations[i] == Step(c, After(c, FRESH, es[..i]), es[i]).invoke
  {
    status, invocations := map[], [];
    FreshIsEmptyStatus();
    hide Step;
    for i := 0 to |es|
      invariant ViewOf(status) == After(c, FRESH, es[..i]) && |invocations| == i
      invariant forall j | 0 <= j < i :: invocations[j] == Step(c, After(c, FRESH, es[..j]), es[j]).invoke
    {
      JsonTripPreserves(status);
      var invoke;
      status, invoke := CallStored(c, JsonTrip(status), es[i]);
      invocations := invocations + [invoke];
      assert es[..i + 1][..i] == es[..i];
    }
    assert es[..|es|] == es;
  }

  /** The entry point that an event calls. */
  method CallStored(c: Config, prior: Status, e: Event) returns (status: Status, invoke: bool)
    ensures Outcome(ViewOf(status), invoke) == Step(c, ViewOf(prior), e)
  {
    var actions;
    match e {
      case TaskAdd(now, q, isSyncMatch, noSyncBatch) =>
        var throttled;
        actions, status, throttled := ProcessTaskAdd(c, prior, q, isSyncMatch, noSyncBatch, now);
      case Poll(now, samples) =>
        var nextPollMs;
        actions, status, nextPollMs := ProcessMetricsPoll(c, prior, samples, now);
    }
    invoke := actions != [];
  }
}
