/**
 The controller's run loop in timer-selector mode, over any chain of continue-as-new runs.

 The environment is an arbitrary finite script of moves. The workflow code runs without interruption between the points
 where it blocks; at each such point any number of moves may happen: signals arrive, an update or delete completes, the
 server suggests continue-as-new, time passes, timers fire. A script that ends while the loop waits is a cancelled wait.
 */
module RunLoop {
  import opened Arithmetic

  /** A task-add request; its contents do not matter here. */
  datatype Request = Request(payload: nat)

  type Signal = Option<Request>

  datatype Move = Move(arrivals: seq<Signal>, deletes: bool, changesState: bool, suggestsContinueAsNew: bool,
                       elapsedMs: nat, firesPoll: bool, firesValidation: bool)

  datatype Outcome = Deleted | ContinuedAsNew | Failed

  const MAX_PENDING_TASK_ADD_SIGNALS := 4000
  const BATCH_SIZE := 100
  const MAX_POLL_INTERVAL_MS := 300_000

  // ----- What has happened -----

  /**
   Everything a history records, in order: the environment's moves and what the workflow does with signals and timers.
   */
  datatype Happening =
    | Moved(move: Move)
    | Received(signal: Signal)
    | HandedOver(request: Request)
    | TimerRan(isPoll: bool)
    | PollSet(afterMs: nat)
    | RunStarted
    | RunArmed
    | LoopLeft

  /** Where a chain of runs begins: the persisted queue and poll deadline, and the clock. */
  datatype Beginning = Beginning(queue: seq<Request>, deadline: Option<int>, nowMs: int)

  /**
   What a history amounts to. The queue is the reference bounded queue: a received signal goes to its end unless it is
   nil or the queue holds 4000, a hand-over takes its head. due and deleted say whether, since the current run started,
   a reason to end the run or a delete has come; timely that every hand-over was of the head of the queue, that nothing
   started while the run was due to end and that no poll ran before its deadline. clock, deadline and armedAt are the
   time, the deadline of the next poll and the time at which a run last armed it; timers, runs and armings count.
   */
  datatype Summary = Summary(
    moves: seq<Move>, arrived: seq<Signal>, received: seq<Signal>, accepted: seq<Request>, refused: nat,
    handed: seq<Request>, queue: seq<Request>, due: bool, deleted: bool, timely: bool,
    clock: int, deadline: Option<int>, armedAt: int, timers: nat, runs: nat, armings: nat)

  function Empty(start: Beginning): Summary {
    Summary([], [], [], [], 0, [], start.queue, false, false, true, start.nowMs, start.deadline, start.nowMs, 0, 0, 0)
  }

  function Next(t: Summary, x: Happening): Summary {
    match x
    case Moved(m) =>
      t.(moves := t.moves + [m], arrived := t.arrived + m.arrivals, clock := t.clock + m.elapsedMs,
         due := t.due || m.deletes || m.changesState || m.suggestsContinueAsNew, deleted := t.deleted || m.deletes)
    case Received(signal) =>
      var r := t.(received := t.received + [signal]);
      if signal.None? then r
      else if |t.queue| >= MAX_PENDING_TASK_ADD_SIGNALS then r.(refused := t.refused + 1)
      else r.(accepted := t.accepted + [signal.value], queue := t.queue + [signal.value])
    case HandedOver(request) =>
      t.(handed := t.handed + [request], queue := if t.queue == [] then [] else t.queue[1..],
         timely := t.timely && !t.due && t.queue != [] && t.queue[0] == request)
    case TimerRan(isPoll) =>
      t.(timely := t.timely && !t.due && (isPoll ==> t.deadline.Some? && t.deadline.value <= t.clock),
         timers := t.timers + 1)
    case PollSet(afterMs) => t.(deadline := Some(t.clock + afterMs))
    case RunStarted => t.(due := false, deleted := false, runs := t.runs + 1)
    case RunArmed => t.(deadline := Some(Rearm(t.clock, t.deadline)), armedAt := t.clock, armings := t.armings + 1)
    case LoopLeft => t
  }

  function Trace(start: Beginning, history: seq<Happening>): Summary {
    if history == [] then Empty(start)
    else Next(Trace(start, history[..|history| - 1]), history[|history| - 1])
  }

  lemma TraceStep(start: Beginning, history: seq<Happening>, x: Happening)
    ensures Trace(start, history + [x]) == Next(Trace(start, history), x)
  {
    assert (history + [x])[..|history|] == history;
  }

  /** A history is its last happening after the rest. */
  lemma TraceEnds(start: Beginning, history: seq<Happening>)
    ensures history == [] ==> Trace(start, history) == Empty(start)
    ensures history != [] ==>
              Trace(start, history) == Next(Trace(start, history[..|history| - 1]), history[|history| - 1])
  {
  }

  /** Nothing accepted is lost or reordered, and the queue keeps its bound. */
  lemma {:induction false} AcceptedIsHandedOrQueued(start: Beginning, history: seq<Happening>)
    requires Trace(start, history).timely && |start.queue| <= MAX_PENDING_TASK_ADD_SIGNALS
    ensures
      var t := Trace(start, history);
      start.queue + t.accepted == t.handed + t.queue && |t.queue| <= 4000
    decreases |history|
  {
    hide Trace;
    TraceEnds(start, history);
    if history != [] {
      var before, x := Trace(start, history[..|history| - 1]), history[|history| - 1];
      AcceptedIsHandedOrQueued(start, history[..|history| - 1]);
      if x.Received? && x.signal.Some? {
        Reassociate(start.queue, before.accepted, [x.signal.value]);
        Reassociate(before.handed, before.queue, [x.signal.value]);
      } else if x.HandedOver? {
        assert before.queue == [x.request] + before.queue[1..];
        Reassociate(before.handed, [x.request], before.queue[1..]);
      }
    }
  }

  /** Received signals are the accepted ones, the nil ones and the refused ones. */
  lemma {:induction false} ReceivedIsAcceptedNilOrRefused(start: Beginning, history: seq<Happening>)
    ensures
      var t := Trace(start, history);
      |t.received| == |t.accepted| + t.refused + NilCount(t.received)
    decreases |history|
  {
    hide Trace, Next, NilCount;
    TraceEnds(start, history);
    if history == [] {
      NilCountStep([], None);
    } else {
      var before, x := Trace(start, history[..|history| - 1]), history[|history| - 1];
      ReceivedIsAcceptedNilOrRefused(start, history[..|history| - 1]);
      ReceivedStep(before, x);
    }
  }

  lemma ReceivedStep(t: Summary, x: Happening)
    requires |t.received| == |t.accepted| + t.refused + NilCount(t.received)
    ensures |Next(t, x).received| == |Next(t, x).accepted| + Next(t, x).refused + NilCount(Next(t, x).received)
  {
    hide NilCount;
    if x.Received? {
      NilCountStep(t.received, x.signal);
    }
  }

  /** A receipt accepts its signal at the end of the queue, unless it is nil or 4000 wait there: then it is refused. */
  lemma ReceiptOutcome(start: Beginning, history: seq<Happening>, i: nat)
    requires i < |history| && history[i].Received?
    ensures
      var before, after := Trace(start, history[..i]), Trace(start, history[..i + 1]);
      match history[i].signal
      case None => after.queue == before.queue && after.accepted == before.accepted && after.refused == before.refused
      case Some(request) =>
        if |before.queue| < 4000
        then after.queue == before.queue + [request] && after.accepted == before.accepted + [request]
        else after.queue == before.queue && after.accepted == before.accepted && after.refused == before.refused + 1
  {
    assert history[..i + 1] == history[..i] + [history[i]];
    TraceStep(start, history[..i], history[i]);
  }

  lemma NilCountStep(signals: seq<Signal>, s: Signal)
    ensures NilCount([]) == 0 && NilCount(signals + [s]) == NilCount(signals) + if s.None? then 1 else 0
  {
    assert (signals + [s])[..|signals|] == signals;
  }

  function NilCount(signals: seq<Signal>): nat {
    if signals == [] then 0
    else NilCount(signals[..|signals| - 1]) + if signals[|signals| - 1].None? then 1 else 0
  }

  /**
   In a timely history every hand-over and timer body started while its run was not due to end, each hand-over with
   the head and each poll at its deadline or later.
   */
  lemma {:induction false} NothingStartsWhenDue(start: Beginning, history: seq<Happening>, i: nat)
    requires Trace(start, history).timely && i < |history| && (history[i].HandedOver? || history[i].TimerRan?)
    ensures
      var t := Trace(start, history[..i]);
      && !t.due && (history[i].HandedOver? ==> t.queue != [] && t.queue[0] == history[i].request)
      && (history[i].TimerRan? && history[i].isPoll ==> t.deadline.Some? && t.deadline.value <= t.clock)
    decreases |history|
  {
    var n := |history| - 1;
    if i < n {
      NothingStartsWhenDue(start, history[..n], i);
      assert history[..n][..i] == history[..i];
    }
  }

  /**
   The fold's due says that a reason to end the run has come since the latest run started, and its deleted that a delete
   has.
   */
  lemma {:induction false} FlagsMeanMoves(start: Beginning, history: seq<Happening>)
    ensures Trace(start, history).deleted <==>
              exists i :: 0 <= i < |history| && history[i].Moved? && history[i].move.deletes && SameRunFrom(history, i)
    ensures Trace(start, history).due <==>
              exists i :: 0 <= i < |history| && history[i].Moved? && SameRunFrom(history, i)
                && (history[i].move.deletes || history[i].move.changesState || history[i].move.suggestsContinueAsNew)
    decreases |history|
  {
    hide Trace;
    TraceEnds(start, history);
    if history != [] {
      var n := |history| - 1;
      FlagsMeanMoves(start, history[..n]);
      forall i | 0 <= i < n
        ensures SameRunFrom(history, i) <==> SameRunFrom(history[..n], i) && !history[n].RunStarted?
      {
        SameRunPrefix(history, n, i);
      }
      assert SameRunFrom(history, n);
    }
  }

  ghost predicate SameRunFrom(history: seq<Happening>, i: int) {
    forall j | i < j < |history| && 0 <= j :: !history[j].RunStarted?
  }

  lemma SameRunPrefix(history: seq<Happening>, n: nat, i: nat)
    requires n == |history| - 1 && i < n
    ensures SameRunFrom(history, i) <==> SameRunFrom(history[..n], i) && !history[n].RunStarted?
  {
    if SameRunFrom(history, i) {
      assert forall j | i < j < n :: history[..n][j] == history[j];
    } else {
      var j :| i < j < |history| && history[j].RunStarted?;
      assert j < n ==> history[..n][j] == history[j];
    }
  }

  /** From the given point on, the history starts with the receipts of the signals. */
  ghost predicate ReceivedFrom(history: seq<Happening>, from: nat, signals: seq<Signal>) {
    from + |signals| <= |history| && forall i | 0 <= i < |signals| :: history[from + i] == Received(signals[i])
  }

  lemma NothingReceived(history: seq<Happening>, from: nat)
    requires from <= |history|
    ensures ReceivedFrom(history, from, [])
  {
  }

  lemma ReceivedOneMore(history: seq<Happening>, from: nat, signals: seq<Signal>, done: nat)
    requires done < |signals| && |history| == from + done && ReceivedFrom(history, from, signals[..done])
    ensures ReceivedFrom(history + [Received(signals[done])], from, signals[..done + 1])
  {
  }

  lemma ReceivedStays(later: seq<Happening>, earlier: seq<Happening>, from: nat, signals: seq<Signal>)
    requires Continues(later, earlier) && ReceivedFrom(earlier, from, signals)
    ensures ReceivedFrom(later, from, signals)
  {
    assert forall i | 0 <= i < |earlier| :: earlier[i] == later[i];
  }

  /** From the given point on, some run left its loop after a delete had come since it started. */
  ghost predicate MetDelete(start: Beginning, history: seq<Happening>, from: nat) {
    exists i :: from <= i < |history| && history[i].LoopLeft? && Trace(start, history[..i]).deleted
  }

  lemma MetDeleteInParts(start: Beginning, later: seq<Happening>, n: nat, from: nat)
    requires from <= n <= |later|
    ensures MetDelete(start, later, from) <==> MetDelete(start, later[..n], from) || MetDelete(start, later, n)
  {
    hide Trace;
    forall i | 0 <= i < n
      ensures later[..n][i] == later[i] && later[..n][..i] == later[..i]
    {
    }
    if MetDelete(start, later, from) && !MetDelete(start, later, n) {
      var i :| from <= i < |later| && later[i].LoopLeft? && Trace(start, later[..i]).deleted;
      assert later[..n][i].LoopLeft? && Trace(start, later[..n][..i]).deleted;
    }
    if MetDelete(start, later[..n], from) {
      var i :| from <= i < n && later[..n][i].LoopLeft? && Trace(start, later[..n][..i]).deleted;
      assert later[i].LoopLeft? && Trace(start, later[..i]).deleted;
    }
  }

  /** The later history continues the earlier one within the loop of the same run, or before or after it. */
  ghost predicate Continues(later: seq<Happening>, earlier: seq<Happening>) {
    && |earlier| <= |later| && later[..|earlier|] == earlier
    && forall i | |earlier| <= i < |later| :: !later[i].RunStarted? && !later[i].LoopLeft?
  }

  /** One run has continued the history, leaving its loop at the given point and starting nothing after it. */
  ghost predicate LeavesLoopAt(start: Beginning, later: seq<Happening>, earlier: seq<Happening>, at: nat) {
    && |earlier| <= at < |later| && later[at] == LoopLeft
    && Continues(later[..at], earlier) && Continues(later, later[..at + 1])
    && Trace(start, later[..at]).handed == Trace(start, later).handed
    && Trace(start, later[..at]).timers == Trace(start, later).timers
  }

  lemma LeavesLoopOnce(start: Beginning, later: seq<Happening>, earlier: seq<Happening>, at: nat)
    requires LeavesLoopAt(start, later, earlier, at)
    ensures later[..|earlier|] == earlier
    ensures MetDelete(start, later, |earlier|) <==> Trace(start, later[..at]).deleted
  {
    hide Trace;
    assert later[..at][..|earlier|] == later[..|earlier|];
    forall i | |earlier| <= i < |later| && i != at
      ensures !later[i].LoopLeft?
    {
      if i < at {
        assert later[..at][i] == later[i];
      }
    }
  }

  lemma ContinuesStep(later: seq<Happening>, earlier: seq<Happening>, x: Happening)
    requires Continues(later, earlier) && !x.RunStarted? && !x.LoopLeft?
    ensures Continues(later + [x], earlier)
  {
  }

  lemma PrefixOf(later: seq<Happening>, earlier: seq<Happening>)
    requires Continues(later, earlier)
    ensures |earlier| <= |later| && later[..|earlier|] == earlier
  {
  }

  lemma NextIs(later: seq<Happening>, earlier: seq<Happening>, x: Happening)
    requires Continues(later, earlier + [x])
    ensures |earlier| < |later| && later[|earlier|] == x
  {
    assert later[|earlier|] == later[..|earlier| + 1][|earlier|];
  }

  lemma ContinuesItself(history: seq<Happening>)
    ensures Continues(history, history)
  {
  }

  lemma ContinuesOneMore(history: seq<Happening>, x: Happening)
    requires !x.RunStarted? && !x.LoopLeft?
    ensures Continues(history + [x], history)
  {
  }

  lemma ContinuesByAtMostOne(latest: seq<Happening>, later: seq<Happening>, earlier: seq<Happening>)
    requires Continues(later, earlier)
    requires latest == later || exists x: Happening :: latest == later + [x] && !x.RunStarted? && !x.LoopLeft?
    ensures Continues(latest, earlier)
  {
  }

  lemma ContinuesTransitively(latest: seq<Happening>, later: seq<Happening>, earlier: seq<Happening>)
    requires Continues(latest, later) && Continues(later, earlier)
    ensures Continues(latest, earlier)
  {
    assert latest[..|earlier|] == latest[..|later|][..|earlier|];
    assert forall i | |earlier| <= i < |later| :: latest[i] == latest[..|later|][i];
  }

  /** Re-arming the metrics poll at the start of a run. */
  function Rearm(now: int, stored: Option<int>): int {
    if stored.None? then now + MAX_POLL_INTERVAL_MS else now + Max(0, stored.value - now)
  }

  lemma {:induction false} ClockRunsOn(start: Beginning, history: seq<Happening>, n: nat)
    requires n <= |history|
    ensures Trace(start, history[..n]).clock <= Trace(start, history).clock
    ensures start.nowMs <= Trace(start, history).armedAt <= Trace(start, history).clock
    decreases |history|
  {
    hide Trace;
    TraceEnds(start, history);
    var m := |history| - 1;
    if n < |history| {
      ClockRunsOn(start, history[..m], n);
      assert history[..m][..n] == history[..n];
    } else {
      assert history[..n] == history;
      if history != [] {
        ClockRunsOn(start, history[..m], 0);
      }
    }
  }

  predicate NoPollSet(history: seq<Happening>, n: nat) {
    forall i | n <= i < |history| :: !history[i].PollSet?
  }

  predicate KeepsDeadline(before: Summary, after: Summary)
    requires before.deadline.Some?
  {
    && before.armings <= after.armings
    && after.deadline == Some(if after.armings == before.armings then before.deadline.value
                              else Max(before.deadline.value, after.armedAt))
  }

  /**
   However often the workflow continues as new, a stretch in which no poll sets a new deadline keeps one that is still
   ahead, and makes an overdue one due when the latest run armed it.
   */
  lemma {:induction false} ChainKeepsPollDeadline(start: Beginning, history: seq<Happening>, n: nat)
    requires n <= |history| && Trace(start, history[..n]).deadline.Some?
    requires NoPollSet(history, n)
    ensures KeepsDeadline(Trace(start, history[..n]), Trace(start, history))
    decreases |history|
  {
    hide Trace;
    TraceEnds(start, history);
    var m := |history| - 1;
    if n < |history| {
      assert history[..m][..n] == history[..n];
      ChainKeepsPollDeadline(start, history[..m], n);
      ClockRunsOn(start, history[..m], n);
    } else {
      assert history[..n] == history;
    }
  }

  /** No run has started or armed its poll in between. */
  predicate SameRun(later: Summary, earlier: Summary) {
    later.runs == earlier.runs && later.armings == earlier.armings && later.armedAt == earlier.armedAt
  }

  /** Only the environment has acted. */
  predicate OnlyMoved(later: Summary, earlier: Summary) {
    && later == earlier.(moves := later.moves, arrived := later.arrived, due := later.due, deleted := later.deleted,
                         clock := later.clock)
    && (earlier.due ==> later.due) && earlier.clock <= later.clock
  }

  /** One timer body has run, and the environment has acted meanwhile. */
  predicate OnlyTimed(later: Summary, earlier: Summary) {
    && later == earlier.(moves := later.moves, arrived := later.arrived, due := later.due, deleted := later.deleted,
                         clock := later.clock, deadline := later.deadline, timers := earlier.timers + 1)
    && earlier.clock <= later.clock
    && (later.deadline == earlier.deadline || (later.deadline.Some? && later.deadline.value >= later.clock))
  }

  lemma PollSetIsTimed(later: Summary, earlier: Summary, afterMs: nat)
    requires OnlyTimed(later, earlier)
    ensures OnlyTimed(Next(later, PollSet(afterMs)), earlier)
  {
  }

  /** A move passes from the script to the history, and its signals to the channel. */
  lemma MoveIsTraced(t: Summary, m: Move, script: seq<Move>, channel: seq<Signal>, moves: seq<Move>)
    requires script != [] && script[0] == m && t.moves + script == moves && t.arrived == t.received + channel
    ensures
      var next := Next(t, Moved(m));
      && next.moves + script[1..] == moves && next.arrived == next.received + (channel + m.arrivals)
      && OnlyMoved(next, t) && next.timely == t.timely && next.queue == t.queue
      && next.clock == t.clock + m.elapsedMs && next.deadline == t.deadline
      && next.due == (t.due || m.deletes || m.changesState || m.suggestsContinueAsNew)
          && next.deleted == (t.deleted || m.deletes)
  {
    assert script == [m] + script[1..];
    Reassociate(t.moves, [m], script[1..]);
    Reassociate(t.received, channel, m.arrivals);
  }

  class WorkflowRunner {
    // Persisted across continue-as-new.
    var queue: seq<Request>
    var nextPollTime: Option<int>
    // Local to a run.
    var deleteInstance: bool
    var stateChanged: bool
    var continueAsNewSuggested: bool
    // A poll timer is running, or has fired and waits to be selected.
    var pollArmed: bool
    var pollFired: bool
    var validationFired: bool
    // The environment.
    var channel: seq<Signal>
    var nowMs: int
    var script: seq<Move>
    // How the chain began, the whole script, and all that has happened.
    ghost const start: Beginning
    ghost const moves: seq<Move>
    ghost var history: seq<Happening>

    constructor (queue: seq<Request>, nextPollTime: Option<int>, nowMs: int, script: seq<Move>)
      requires |queue| <= MAX_PENDING_TASK_ADD_SIGNALS
      ensures Valid() && start == Beginning(queue, nextPollTime, nowMs) && moves == script && history == []
      ensures this.queue == queue && this.nextPollTime == nextPollTime && channel == []
    {
      this.queue, this.nextPollTime, this.nowMs, this.script := queue, nextPollTime, nowMs, script;
      deleteInstance, stateChanged, continueAsNewSuggested := false, false, false;
      pollArmed, pollFired, validationFired := false, false, false;
      channel := [];
      start, moves, history := Beginning(queue, nextPollTime, nowMs), script, [];
    }

    ghost function Now(): Summary
      reads `history
    {
      Trace(start, history)
    }

    /**
     The state is what the history makes of it, q being the queue: the moves made and the script left are the whole
     script, what arrived has been received or waits in the channel, in order, and every start was timely.
     */
    ghost predicate Matches(q: seq<Request>)
      reads `history, `channel, `script, `deleteInstance, `stateChanged, `continueAsNewSuggested, `nowMs, `nextPollTime,
            `pollArmed, `pollFired
    {
      && |start.queue| <= MAX_PENDING_TASK_ADD_SIGNALS
      && Now().timely && Now().queue == q && |q| <= MAX_PENDING_TASK_ADD_SIGNALS
      && Now().moves + script == moves
      && Now().arrived == Now().received + channel
      && Now().due == ShouldContinueAsNew() && Now().deleted == deleteInstance
      && Now().clock == nowMs && Now().deadline == nextPollTime
      && (pollFired ==> pollArmed && nextPollTime.Some? && nextPollTime.value <= nowMs)
    }

    ghost predicate Valid()
      reads `history, `channel, `script, `deleteInstance, `stateChanged, `continueAsNewSuggested, `nowMs, `nextPollTime,
            `pollArmed, `pollFired
      reads `queue
    {
      Matches(queue)
    }

    predicate ShouldContinueAsNew()
      reads `deleteInstance, `stateChanged, `continueAsNewSuggested
    {
      deleteInstance || stateChanged || continueAsNewSuggested
    }

    /** The environment has made no move in between. */
    twostate predicate Silent()
      reads this
    {
      && script == old(script) && channel == old(channel) && history == old(history)
      && pollFired == old(pollFired) && validationFired == old(validationFired)
      && ShouldContinueAsNew() == old(ShouldContinueAsNew())
    }

    /** Work that is left when the environment stays silent. */
    ghost function Work(): nat
      reads `channel, `queue
    {
      2 * |channel| + |queue|
    }

    /** The next move of the script, if one is left. */
    method Yield()
      requires Valid()
      modifies `channel, `deleteInstance, `stateChanged, `continueAsNewSuggested, `nowMs, `pollFired, `validationFired,
               `script, `history
      ensures Valid() && OnlyMoved(Now(), old(Now()))
      ensures if old(script) == [] then Silent()
              else script == old(script)[1..] && history == old(history) + [Moved(old(script)[0])]
    {
      hide Trace;
      if script == [] {
        return;
      }
      var m := script[0];
      MoveIsTraced(Now(), m, script, channel, moves);
      TraceStep(start, history, Moved(m));
      hide Next;
      script := script[1..];
      history := history + [Moved(m)];
      channel := channel + m.arrivals;
      Feel(m);
    }

    /** What a move does to the flags, the clock and the timers. */
    method Feel(m: Move)
      modifies `deleteInstance, `stateChanged, `continueAsNewSuggested, `nowMs, `pollFired, `validationFired
      ensures deleteInstance == (old(deleteInstance) || m.deletes) && nowMs == old(nowMs) + m.elapsedMs
      ensures ShouldContinueAsNew()
          == (old(ShouldContinueAsNew()) || m.deletes || m.changesState || m.suggestsContinueAsNew)
      ensures pollFired == (old(pollFired)
                || (m.firesPoll && pollArmed && nextPollTime.Some? && nextPollTime.value <= nowMs))
    {
      if m.deletes {
        deleteInstance := true;
      }
      if m.changesState || m.deletes {
        stateChanged := true;
      }
      if m.suggestsContinueAsNew {
        continueAsNewSuggested := true;
      }
      nowMs := nowMs + m.elapsedMs;
      if m.firesPoll && pollArmed && nextPollTime.Some? && nextPollTime.value <= nowMs {
        pollFired := true;
      }
      if m.firesValidation {
        validationFired := true;
      }
    }

    /** Waits for activities to finish: any number of moves. */
    method WaitForActivities()
      requires Valid()
      modifies `channel, `deleteInstance, `stateChanged, `continueAsNewSuggested, `nowMs, `pollFired, `validationFired,
               `script, `history
      ensures Valid()
      ensures Continues(history, old(history)) && OnlyMoved(Now(), old(Now()))
      ensures |script| < |old(script)| || Silent()
    {
      assert Continues(history, history);
      hide Valid, ShouldContinueAsNew, Trace, Continues;
      var count: int := *;
      for i := 0 to Max(0, count)
        invariant Valid()
        invariant Continues(history, old(history)) && OnlyMoved(Now(), old(Now()))
        invariant |script| < |old(script)| || Silent()
      {
        ghost var before := history;
        Yield();
        assert history == before || history == before + [history[|before|]];
        ContinuesByAtMostOne(history, before, old(history));
      }
    }

    /** Queues a received signal unless it is nil or the queue is full. */
    method QueueTaskAddSignal(signal: Signal)
      modifies `queue
      ensures queue == if signal.Some? && |old(queue)| < MAX_PENDING_TASK_ADD_SIGNALS
                       then old(queue) + [signal.value] else old(queue)
    {
      if signal.None? {
        return;
      }
      if |queue| >= MAX_PENDING_TASK_ADD_SIGNALS {
        return;
      }
      queue := queue + [signal.value];
    }

    /** The signal selector's receive: the front of the channel goes through QueueTaskAddSignal. */
    method ReceiveSignal()
      requires Valid() && channel != []
      modifies `channel, `queue, `history
      ensures Valid() && channel == old(channel)[1..] && history == old(history) + [Received(old(channel)[0])]
      ensures |queue| <= |old(queue)| + 1 && Now() == Next(old(Now()), Received(old(channel)[0]))
    {
      hide Trace;
      var signal := channel[0];
      TraceStep(start, history, Received(signal));
      assert channel == [signal] + channel[1..];
      Reassociate(Now().received, [signal], channel[1..]);
      channel := channel[1..];
      history := history + [Received(signal)];
      QueueTaskAddSignal(signal);
    }

    /** Receives everything in the channel. */
    method DrainTaskAddSignalChannelToQueue()
      requires Valid()
      modifies `channel, `queue, `history
      ensures Valid() && channel == []
      ensures Continues(history, old(history)) && Now().received == old(Now().received + channel)
      ensures |history| == |old(history)| + |old(channel)| && ReceivedFrom(history, |old(history)|, old(channel))
      ensures Now().handed == old(Now().handed) && Now().timers == old(Now().timers) && SameRun(Now(), old(Now()))
    {
      assert Continues(history, history);
      hide Valid, Trace, Continues, ReceivedFrom;
      ghost var done := 0;
      NothingReceived(history, |history|);
      while channel != []
        invariant Valid() && Continues(history, old(history))
        invariant Now().received + channel == old(Now().received + channel)
        invariant |history| == |old(history)| + done && done <= |old(channel)| && channel == old(channel)[done..]
        invariant ReceivedFrom(history, |old(history)|, old(channel)[..done])
        invariant Now().handed == old(Now().handed) && Now().timers == old(Now().timers) && SameRun(Now(), old(Now()))
        decreases |channel|
      {
        ghost var t, signals := Now(), channel;
        assert signals == [signals[0]] + signals[1..];
        Reassociate(t.received, [signals[0]], signals[1..]);
        ContinuesStep(history, old(history), Received(channel[0]));
        ReceivedOneMore(history, |old(history)|, old(channel), done);
        ReceiveSignal();
        done := done + 1;
      }
    }

    /** Hands a signal to the scaling activities; what they do is up to the environment. */
    method HandleNoSyncMatchSignal(request: Request)
      requires Matches([request] + queue) && !ShouldContinueAsNew()
      modifies `channel, `deleteInstance, `stateChanged, `continueAsNewSuggested, `nowMs, `pollFired, `validationFired,
               `script, `history
      ensures Valid() && Continues(history, old(history))
      ensures OnlyMoved(Now(), Next(old(Now()), HandedOver(request)))
      ensures |script| < |old(script)| || SilentBut(HandedOver(request))
    {
      TraceStep(start, history, HandedOver(request));
      ContinuesStep(history, history, HandedOver(request));
      hide Trace, Continues;
      history := history + [HandedOver(request)];
      ghost var started := history;
      assert ([request] + queue)[1..] == queue;
      WaitForActivities();
      ContinuesTransitively(history, started, old(history));
    }

    /** Nothing but the one happening, which is not the environment's. */
    twostate predicate SilentBut(x: Happening)
      reads this
    {
      && script == old(script) && channel == old(channel) && history == old(history) + [x]
      && pollFired == old(pollFired) && validationFired == old(validationFired)
      && ShouldContinueAsNew() == old(ShouldContinueAsNew())
    }

    method ProcessNextQueuedTaskAddSignal() returns (processed: bool)
      requires Valid() && !ShouldContinueAsNew()
      modifies `queue, `channel, `deleteInstance, `stateChanged, `continueAsNewSuggested, `nowMs, `pollFired,
               `validationFired, `script, `history
      ensures Valid() && processed == (old(queue) != []) && Continues(history, old(history))
      ensures queue == (if processed then old(queue)[1..] else [])
      ensures processed ==> OnlyMoved(Now(), Next(old(Now()), HandedOver(old(queue)[0])))
      ensures !processed ==> Silent()
      ensures processed ==> |script| < |old(script)| || SilentBut(HandedOver(old(queue)[0]))
    {
      hide Trace;
      if queue == [] {
        return false;
      }
      var request := queue[0];
      assert queue == [request] + queue[1..];
      queue := queue[1..];
      HandleNoSyncMatchSignal(request);
      return true;
    }

    /** Signals received and handed over so far. */
    ghost function Done(): nat
      reads `history
    {
      |Now().received| + |Now().handed|
    }

    /** One round of a batch: hand over the head of the queue, then receive one signal; false when there was neither. */
    method BatchRound() returns (more: bool)
      requires Valid() && !ShouldContinueAsNew()
      modifies `queue, `channel, `deleteInstance, `stateChanged, `continueAsNewSuggested, `nowMs, `pollFired,
               `validationFired, `script, `history
      ensures Valid() && Continues(history, old(history)) && Now().refused == old(Now().refused)
          && SameRun(Now(), old(Now()))
      ensures |Now().handed| == |old(Now().handed)| + (if old(queue) != [] then 1 else 0)
          && |queue| <= Max(1, |old(queue)|)
      ensures |script| < |old(script)|
          || (script == old(script) && pollFired == old(pollFired) && validationFired == old(validationFired)
                && !ShouldContinueAsNew() && Work() + (if more then 1 else 0) <= old(Work()) && (!more ==> Work() == 0))
      ensures Done() >= old(Done()) + (if more then 1 else 0) && (!more ==> queue == [] && channel == [])
    {
      hide Valid, Trace, Continues;
      QueueIsTraced();
      more := ProcessNextQueuedTaskAddSignal();
      QueueIsTraced();
      if channel != [] {
        ContinuesStep(history, old(history), Received(channel[0]));
        ReceiveSignal();
        more := true;
      }
    }

    /**
     Up to a hundred rounds: it stops when the run is due to end, when nothing is left, or after a hundred. A batch
     never refuses a signal and never leaves the queue longer than it was (or than one); it hands over something if it
     can, and once the run is due to end it does nothing at all.
     */
    method ProcessTaskAddBatch()
      requires Valid()
      modifies `queue, `channel, `deleteInstance, `stateChanged, `continueAsNewSuggested, `nowMs, `pollFired,
               `validationFired, `script, `history
      ensures Valid() && Continues(history, old(history)) && SameRun(Now(), old(Now()))
      ensures |old(Now().handed)| <= |Now().handed| <= |old(Now().handed)| + BATCH_SIZE
      ensures |queue| <= Max(1, |old(queue)|) && Now().refused == old(Now().refused)
      ensures ShouldContinueAsNew() || (queue == [] && channel == []) || Done() >= old(Done()) + 100
      ensures old(ShouldContinueAsNew()) ==> history == old(history) && queue == old(queue)
      ensures !old(ShouldContinueAsNew()) && old(queue) != [] ==> |Now().handed| > |old(Now().handed)|
      ensures |script| < |old(script)|
          || Settled(old(script), old(pollFired), old(validationFired), old(Work()), old(ShouldContinueAsNew()))
    {
      assert Continues(history, history);
      hide Valid, Trace, Continues;
      for round := 0 to BATCH_SIZE
        invariant Valid() && Continues(history, old(history)) && SameRun(Now(), old(Now()))
        invariant |old(Now().handed)| <= |Now().handed| <= |old(Now().handed)| + round
        invariant |queue| <= Max(1, |old(queue)|) && Now().refused == old(Now().refused)
        invariant Done() >= old(Done()) + round
        invariant round == 0 ==>
            history == old(history) && queue == old(queue) && ShouldContinueAsNew() == old(ShouldContinueAsNew())
        invariant round > 0 ==>
            !old(ShouldContinueAsNew()) && (old(queue) != [] ==> |Now().handed| > |old(Now().handed)|)
        invariant |script| < |old(script)|
            || (script == old(script) && pollFired == old(pollFired) && validationFired == old(validationFired)
                                               && ShouldContinueAsNew() == old(ShouldContinueAsNew())
                                                   && Work() + round <= old(Work()))
      {
        if ShouldContinueAsNew() {
          return;
        }
        ghost var before := history;
        var more := BatchRound();
        ContinuesTransitively(history, before, old(history));
        if !more {
          return;
        }
      }
    }

    lemma QueueIsTraced()
      requires Valid()
      ensures Now().queue == queue && |queue| <= MAX_PENDING_TASK_ADD_SIGNALS
    {
    }

    /** The environment made no move, so the work shrank unless there was none or continue-as-new was due. */
    ghost predicate Settled(oldScript: seq<Move>, oldPoll: bool, oldValidation: bool, oldWork: nat, wasDue: bool)
      reads this
    {
      && script == oldScript && pollFired == oldPoll && validationFired == oldValidation && Work() <= oldWork
      && ShouldContinueAsNew() == wasDue && (wasDue || oldWork == 0 || Work() < oldWork)
    }

    /** Runs one fired timer: the metrics poll or the periodic validation; the poll re-arms itself. */
    method SelectTimer()
      requires Valid() && !ShouldContinueAsNew() && (pollFired || validationFired)
      modifies `nextPollTime, `channel, `deleteInstance, `stateChanged, `continueAsNewSuggested, `nowMs, `pollArmed,
               `pollFired, `validationFired, `script, `history
      ensures Valid() && Continues(history, old(history))
      ensures |old(history)| < |history| && history[|old(history)|].TimerRan? && OnlyTimed(Now(), old(Now()))
      ensures !history[|old(history)|].isPoll ==> old(validationFired) && nextPollTime == old(nextPollTime)
      ensures history[|old(history)|].isPoll ==> old(pollFired) && history[|history| - 1].PollSet?
      ensures |script| < |old(script)|
              || (script == old(script) && !ShouldContinueAsNew() && Work() == old(Work())
                  && Timers(pollFired, validationFired) < Timers(old(pollFired), old(validationFired)))
    {
      hide Valid, Trace, Continues;
      var pollFirst: bool := *;
      var isPoll := pollFired && (pollFirst || !validationFired);
      NowIsTraced();
      StartTimer(isPoll);
      ContinuesOneMore(old(history), TimerRan(isPoll));
      ghost var started := history;
      WaitForActivities();
      NextIs(history, old(history), TimerRan(isPoll));
      ContinuesTransitively(history, started, old(history));
      NoTimerMeansNoPoll();
      NowIsTraced();
      if isPoll {
        var nextPollMs: nat := *;
        ContinuesStep(history, old(history), PollSet(nextPollMs));
        PollSetIsTimed(Now(), old(Now()), nextPollMs);
        AddStatsPullTimer(nextPollMs);
      }
    }

    /** A fired timer is taken out of the selector and its body begins. */
    method StartTimer(isPoll: bool)
      requires Valid() && !ShouldContinueAsNew() && (if isPoll then pollFired else validationFired)
      modifies `pollArmed, `pollFired, `validationFired, `history
      ensures Valid() && history == old(history) + [TimerRan(isPoll)] && Now() == Next(old(Now()), TimerRan(isPoll))
      ensures isPoll ==> !pollArmed && !pollFired && validationFired == old(validationFired)
      ensures !isPoll ==> !validationFired && pollArmed == old(pollArmed) && pollFired == old(pollFired)
    {
      TraceStep(start, history, TimerRan(isPoll));
      hide Trace;
      history := history + [TimerRan(isPoll)];
      if isPoll {
        pollArmed, pollFired := false, false;
      } else {
        validationFired := false;
      }
    }

    lemma NowIsTraced()
      requires Valid()
      ensures Now().timely && Now().clock == nowMs && Now().deadline == nextPollTime
    {
    }

    lemma NoTimerMeansNoPoll()
      requires Valid()
      ensures !pollArmed ==> !pollFired
      ensures pollFired ==> Now().deadline.Some? && Now().deadline.value <= Now().clock
    {
    }

    /** Arms the metrics poll after a poll and persists its deadline. */
    method AddStatsPullTimer(nextPollMs: nat)
      requires Valid() && !pollFired
      modifies `nextPollTime, `pollArmed, `history
      ensures Valid() && pollArmed && nextPollTime == Some(nowMs + nextPollMs)
      ensures history == old(history) + [PollSet(nextPollMs)] && Now() == Next(old(Now()), PollSet(nextPollMs))
    {
      TraceStep(start, history, PollSet(nextPollMs));
      hide Trace;
      nextPollTime, pollArmed := Some(nowMs + nextPollMs), true;
      history := history + [PollSet(nextPollMs)];
    }

    /** Blocks until there is something to do; false when the script ends first. */
    method AwaitWork() returns (ok: bool)
      requires Valid()
      modifies `channel, `deleteInstance, `stateChanged, `continueAsNewSuggested, `nowMs, `pollFired, `validationFired,
               `script, `history
      ensures Valid() && Continues(history, old(history)) && OnlyMoved(Now(), old(Now()))
      ensures ok <==> ShouldContinueAsNew() || channel != [] || queue != [] || pollFired || validationFired
      ensures !ok ==> script == [] && channel == [] && queue == [] && !pollFired && !validationFired
      ensures |script| < |old(script)| || Silent()
    {
      assert Continues(history, history);
      hide Valid, Trace, Continues;
      while !(ShouldContinueAsNew() || channel != [] || queue != [] || pollFired || validationFired)
        invariant Valid() && Continues(history, old(history)) && OnlyMoved(Now(), old(Now()))
        invariant |script| < |old(script)| || Silent()
        decreases |script|
      {
        if script == [] {
          return false;
        }
        ghost var before := history;
        Yield();
        assert history == before || history == before + [history[|before|]];
        ContinuesByAtMostOne(history, before, old(history));
      }
      return true;
    }

    /**
     Alternates batches and timers until the run is due to end. It gives up only when the script has ended and every
     signal that arrived has been received and handed over (or refused).
     */
    method RunTimerSelectorLoop() returns (ok: bool)
      requires Valid()
      modifies this
      ensures Valid() && Continues(history, old(history)) && SameRun(Now(), old(Now()))
      ensures ok ==> ShouldContinueAsNew()
      ensures !ok ==> !ShouldContinueAsNew() && queue == [] && channel == [] && script == []
      ensures !ok ==> !pollFired && !validationFired
      ensures old(nextPollTime).Some? && NoPollSet(history, |old(history)|) ==> KeepsDeadline(old(Now()), Now())
    {
      assert Continues(history, history);
      DeadlineIsTraced();
      hide Valid, ShouldContinueAsNew, Trace, Continues, NoPollSet, KeepsDeadline;
      while !ShouldContinueAsNew()
        invariant Valid() && Continues(history, old(history)) && SameRun(Now(), old(Now()))
        decreases |script|, Work(), Timers(pollFired, validationFired)
      {
        ghost var before := history;
        ProcessTaskAddBatch();
        ContinuesTransitively(history, before, old(history));
        if !ShouldContinueAsNew() && (pollFired || validationFired) {
          before := history;
          SelectTimer();
          ContinuesTransitively(history, before, old(history));
        }
        before := history;
        var awake := AwaitWork();
        ContinuesTransitively(history, before, old(history));
        if !awake {
          PrefixOf(history, old(history));
          DeadlineIsKept(old(history));
          return false;
        }
      }
      PrefixOf(history, old(history));
      DeadlineIsKept(old(history));
      return true;
    }

    /** What is persisted as the next poll's time follows from the history. */
    lemma DeadlineIsKept(earlier: seq<Happening>)
      requires |earlier| <= |history| && history[..|earlier|] == earlier
      ensures Trace(start, earlier).deadline.Some? && NoPollSet(history, |earlier|) ==>
                KeepsDeadline(Trace(start, earlier), Now())
    {
      hide Trace, KeepsDeadline;
      if Trace(start, earlier).deadline.Some? && NoPollSet(history, |earlier|) {
        ChainKeepsPollDeadline(start, history, |earlier|);
      }
    }

    lemma DeadlineIsTraced()
      requires Valid()
      ensures Now().deadline == nextPollTime
    {
    }

    /** Arms the first poll of a run for the persisted deadline, or for now if that has passed. */
    method ArmPollTimer()
      requires Valid() && !pollFired
      modifies `nextPollTime, `pollArmed, `history
      ensures Valid() && pollArmed && nextPollTime == Some(Rearm(nowMs, old(nextPollTime)))
      ensures nextPollTime
           == Some(if old(nextPollTime).None? then nowMs + 300_000 else Max(nowMs, old(nextPollTime.value)))
      ensures history == old(history) + [RunArmed] && Now() == Next(old(Now()), RunArmed)
    {
      TraceStep(start, history, RunArmed);
      hide Trace;
      history := history + [RunArmed];
      pollArmed := true;
      if nextPollTime.Some? {
        var remaining := nextPollTime.value - nowMs;
        if remaining < 0 {
          remaining := 0;
        }
        nextPollTime := Some(nowMs + remaining);
      } else {
        nextPollTime := Some(nowMs + MAX_POLL_INTERVAL_MS);
      }
    }

    /**
     One run, from its first workflow task to its end. It ends deleted if and only if a delete had come since it started
     when it left its loop; otherwise it continues as new with an empty channel, or fails by a wait that the end of the
     script cancels. It leaves the loop once, because it is due to end or the script is over, and starts nothing more.
     */
    method Run() returns (outcome: Outcome)
      requires Valid() && !pollFired && !validationFired
      modifies this
      ensures Valid() && |old(history)| <= |history| && history[..|old(history)|] == old(history)
      ensures ReceivedFrom(history, |old(history)| + 1, old(channel))
      ensures exists at: nat :: LeavesLoopAt(start, history, old(history), at)
                && (Trace(start, history[..at]).due || Trace(start, history[..at]).moves == moves)
      ensures outcome.Deleted? <==> MetDelete(start, history, |old(history)|)
      ensures Now().runs == old(Now().runs) && Now().armings == old(Now().armings) + 1
      ensures outcome.ContinuedAsNew? ==> channel == [] && (Now().due || script == [])
      ensures old(nextPollTime).Some? && NoPollSet(history, |old(history)|) ==> KeepsDeadline(old(Now()), Now())
      ensures outcome.Failed? ==> script == [] && (Now().due || (queue == [] && channel == []))
    {
      DeadlineIsTraced();
      hide Valid, ShouldContinueAsNew, Trace, Continues, NoPollSet, KeepsDeadline, MetDelete, LeavesLoopAt;
      hide ReceivedFrom;
      ghost var before := history;
      ContinuesOneMore(history, RunArmed);
      ArmPollTimer();
      ghost var armed := history;
      DrainTaskAddSignalChannelToQueue();
      ContinuesTransitively(history, armed, before);
      ghost var drained := history;
      var ok := RunTimerSelectorLoop();
      ReceivedStays(history, drained, |armed|, old(channel));
      ContinuesTransitively(history, drained, before);
      ghost var inLoop := history;
      FlagsAreTraced();
      outcome := EndRun();
      RunIsOver(before, inLoop);
      ReceivedInLoop(inLoop, |armed|, old(channel));
      DeadlineIsKept(before);
    }

    /** The end of a run that leaves its loop: a deleted instance stops at once. */
    method EndRun() returns (outcome: Outcome)
      requires Valid() && (ShouldContinueAsNew() || (script == [] && queue == [] && channel == []))
      modifies `queue, `channel, `deleteInstance, `stateChanged, `continueAsNewSuggested, `nowMs, `pollFired,
               `validationFired, `script, `history
      ensures Valid() && Continues(history, old(history) + [LoopLeft]) && SameRun(Now(), old(Now()))
      ensures Now().handed == old(Now().handed) && Now().timers == old(Now().timers)
      ensures outcome.Deleted? <==> old(deleteInstance)
      ensures outcome.ContinuedAsNew? ==> channel == [] && (Now().due || script == [])
      ensures outcome.Failed? ==> script == [] && (Now().due || (queue == [] && channel == []))
    {
      hide Valid, ShouldContinueAsNew, Trace, Continues;
      FlagsAreTraced();
      LeaveLoop();
      ghost var left := history;
      ContinuesItself(history);
      if deleteInstance {
        return Deleted;
      }
      WaitForActivities();
      FlagsAreTraced();
      QueueIsTraced();
      var cancelled: bool := *;
      if script == [] && cancelled {
        return Failed;
      }
      ghost var waited := history;
      DrainTaskAddSignalChannelToQueue();
      ContinuesTransitively(history, waited, left);
      FlagsAreTraced();
      return ContinuedAsNew;
    }

    /** Notes that the loop is left. */
    ghost method LeaveLoop()
      requires Valid()
      modifies `history
      ensures Valid() && history == old(history) + [LoopLeft] && Now() == old(Now())
    {
      TraceStep(start, history, LoopLeft);
      hide Trace;
      history := history + [LoopLeft];
    }

    lemma ReceivedInLoop(inLoop: seq<Happening>, from: nat, signals: seq<Signal>)
      requires Continues(history, inLoop + [LoopLeft]) && ReceivedFrom(inLoop, from, signals)
      ensures ReceivedFrom(history, from, signals)
    {
      ReceivedStays(history, inLoop + [LoopLeft], from, signals);
    }

    lemma RunIsOver(before: seq<Happening>, inLoop: seq<Happening>)
      requires Continues(inLoop, before) && Continues(history, inLoop + [LoopLeft])
      requires Trace(start, inLoop).handed == Now().handed && Trace(start, inLoop).timers == Now().timers
      ensures |inLoop| < |history| && history[..|inLoop|] == inLoop && history[..|before|] == before
      ensures LeavesLoopAt(start, history, before, |inLoop|)
      ensures MetDelete(start, history, |before|) <==> Trace(start, inLoop).deleted
    {
      hide Trace, MetDelete;
      var at := |inLoop|;
      assert history[..at + 1] == inLoop + [LoopLeft];
      assert history[at] == history[..at + 1][at];
      assert history[..at] == history[..at + 1][..at] == inLoop;
      LeavesLoopOnce(start, history, before, at);
    }

    lemma FlagsAreTraced()
      requires Valid()
      ensures Now().due == ShouldContinueAsNew() && Now().deleted == deleteInstance
      ensures ShouldContinueAsNew() == (deleteInstance || stateChanged || continueAsNewSuggested)
    {
    }

    /**
     The next run starts from the persisted state with no timer armed; moves made before its first workflow task
     already count for it.
     */
    method StartRun()
      requires Valid()
      modifies `channel, `deleteInstance, `stateChanged, `continueAsNewSuggested, `nowMs, `pollArmed, `pollFired,
               `validationFired, `script, `history
      ensures Valid() && !pollFired && !validationFired
      ensures |old(history)| < |history| && Continues(history, old(history) + [RunStarted])
      ensures OnlyMoved(Now(), Next(old(Now()), RunStarted))
    {
      TraceStep(start, history, RunStarted);
      hide Trace;
      deleteInstance, stateChanged, continueAsNewSuggested := false, false, false;
      pollArmed, pollFired := false, false;
      history := history + [RunStarted];
      WaitForActivities();
      NoTimerMeansNoPoll();
      validationFired := false;
    }

    /**
     A chain of up to the given number of continue-as-new runs. Whatever the environment does, Valid holds at its end,
     so the accepted signals are those handed over and those still queued, in order; a chain that does not continue
     ended with a delete or because the script did.
     */
    method RunChain(runs: nat) returns (outcome: Outcome)
      requires Valid()
      modifies this
      ensures Valid() && |old(history)| <= |history| && history[..|old(history)|] == old(history)
      ensures Now().runs <= old(Now().runs) + runs
      ensures Now().armings - old(Now().armings) == Now().runs - old(Now().runs)
      ensures old(nextPollTime).Some? && NoPollSet(history, |old(history)|) ==> KeepsDeadline(old(Now()), Now())
      ensures outcome.ContinuedAsNew? ==> Now().runs == old(Now().runs) + runs && (runs > 0 ==> channel == [])
      ensures outcome.Deleted? <==> MetDelete(start, history, |old(history)|)
      ensures outcome.Failed? ==> script == [] && (Now().due || (queue == [] && channel == []))
      ensures Now().arrived == Now().received + channel && start.queue + Now().accepted == Now().handed + queue
    {
      DeadlineIsTraced();
      assert !MetDelete(start, history, |history|);
      hide Trace, ShouldContinueAsNew, Valid, NoPollSet, KeepsDeadline, MetDelete, LeavesLoopAt;
      outcome := ContinuedAsNew;
      for i := 0 to runs
        invariant Valid() && |old(history)| <= |history| && history[..|old(history)|] == old(history)
        invariant Now().runs <= old(Now().runs) + i
        invariant Now().armings - old(Now().armings) == Now().runs - old(Now().runs)
        invariant outcome.ContinuedAsNew? ==> Now().runs == old(Now().runs) + i && (i > 0 ==> channel == [])
        invariant outcome.Deleted? <==> MetDelete(start, history, |old(history)|)
        invariant outcome.Failed? ==> script == [] && (Now().due || (queue == [] && channel == []))
      {
        if outcome.ContinuedAsNew? {
          ghost var before := history;
          outcome := StartAndRun();
          MetDeleteInParts(start, history, |before|, |old(history)|);
        }
      }
      AllIsAccounted();
      DeadlineIsKept(old(history));
    }

    /** The next run of a chain. */
    method StartAndRun() returns (outcome: Outcome)
      requires Valid()
      modifies this
      ensures Valid() && |old(history)| <= |history| && history[..|old(history)|] == old(history)
      ensures Now().runs == old(Now().runs) + 1 && Now().armings == old(Now().armings) + 1
      ensures outcome.Deleted? <==> MetDelete(start, history, |old(history)|)
      ensures outcome.ContinuedAsNew? ==> channel == []
      ensures outcome.Failed? ==> script == [] && (Now().due || (queue == [] && channel == []))
    {
      hide Trace, ShouldContinueAsNew, Valid, NoPollSet, KeepsDeadline, MetDelete, LeavesLoopAt;
      ghost var before := history;
      StartRun();
      ghost var started := history;
      StartMeetsNoDelete(before);
      outcome := Run();
      assert history[..|before|] == started[..|before|] == before;
      MetDeleteInParts(start, history, |started|, |before|);
      MetDeleteInParts(start, started, |before|, |before|);
    }

    lemma StartMeetsNoDelete(before: seq<Happening>)
      requires |before| < |history| && Continues(history, before + [RunStarted])
      ensures history[..|before|] == before && !MetDelete(start, history, |before|)
    {
      hide Trace;
      assert history[..|before| + 1] == before + [RunStarted];
      assert history[|before|] == history[..|before| + 1][|before|];
      assert history[..|before|] == history[..|before| + 1][..|before|];
    }

    lemma AllIsAccounted()
      requires Valid()
      ensures Now().arrived == Now().received + channel && start.queue + Now().accepted == Now().handed + queue
    {
      AcceptedIsHandedOrQueued(start, history);
    }
  }

  function Timers(poll: bool, validation: bool): nat {
    (if poll then 1 else 0) + (if validation then 1 else 0)
  }

  lemma Reassociate<T>(a: seq<T>, b: seq<T>, c: seq<T>)
    ensures (a + b) + c == a + (b + c)
  {
  }
}
