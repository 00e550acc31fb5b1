/**
 The dispatch of scaling actions. A deferred decision runs an activity whose answer is dispatched in turn, without the
 task-add request, so nothing can be deferred twice. What the activities answer, and what updates of the instance do to
 the workflow's state while an activity is pending, is a script the proofs know nothing about.
 */
module ActionDispatch {
  import opened Arithmetic
  import opened PullStats
  import opened ScalingTypes

  datatype Result =
    | Answered(status: Status, actions: seq<Action>)
    | Done
    | ApplicationError(message: string)
    | OtherError

  /**
   The groups of the spec (none if the spec is nil), their statuses, and the message of the failed validation status,
   if one is set.
   */
  datatype State = State(spec: set<string>, status: map<string, Status>, failure: Option<string>)

  /**
   How an activity ends, and the states that updates put in place while the workflow waits, if any do: by the time the
   activity has ended, and after a provider's error, by the time the version workflow has been signalled.
   */
  datatype Reply = Reply(result: Result, meanwhile: Option<State>, whileSignalling: Option<State>)
  {
    predicate IsQuiet() { meanwhile.None? && whileSignalling.None? }
  }

  /** An activity that was run: what it was told and how it ended. */
  datatype Call =
    | DeferredCall(key: string, seen: Status, reply: Reply)
    | InvokeCall(key: string, reply: Reply)
    | ResizeCall(key: string, size: int, reply: Reply)

  datatype World = World(state: State, calls: seq<Call>, replies: seq<Reply>)
  {
    function Next(): Reply { if replies == [] then Reply(OtherError, None, None) else replies[0] }
  }

  function Replaced(s: State, update: Option<State>): State { if update.Some? then update.value else s }

  /**
   The state after a call: an update's, if there was one, with the answer of a deferred decision noted. A provider's
   error is noted too, and signalled, and while that goes on another update may replace the state.
   */
  function Told(s: State, c: Call): State {
    var current, result := Replaced(s, c.reply.meanwhile), c.reply.result;
    if c.DeferredCall? && result.Answered? && result.status.Some?
    then current.(status := current.status[c.key := result.status])
    else if !c.DeferredCall? && result.ApplicationError?
    then Replaced(current.(failure := Some(result.message)), c.reply.whileSignalling)
    else current
  }

  function AfterCall(w: World, c: Call): World {
    World(Told(w.state, c), w.calls + [c], if w.replies == [] then [] else w.replies[1..])
  }

  function Level(hasRequest: bool): nat { if hasRequest then 1 else 0 }

  predicate IsKnown(spec: set<string>, a: Action) { a.key != "" && a.key in spec }

  /** An action that reaches the deferral branch of its group and is well formed. */
  predicate Eligible(spec: set<string>, a: Action) {
    IsKnown(spec, a) && a.kind.DeferredScalingDecision? && a.count.None?
  }

  function Deferral(a: Action, w: World): Call {
    DeferredCall(a.key, Previous(w.state.status, a.key), w.Next())
  }

  function DispatchOne(a: Action, hasRequest: bool, w: World): World
    decreases Level(hasRequest), 0, 0
  {
    if !IsKnown(w.state.spec, a) then w
    else
      match a.kind
      case DeferredScalingDecision =>
        if a.count.Some? || !hasRequest then w
        else
          var told := AfterCall(w, Deferral(a, w));
          if w.Next().result.Answered? then Dispatch(w.Next().result.actions, false, told) else told
      case InvokeWorker => AfterCall(w, InvokeCall(a.key, w.Next()))
      case UpdateWorkerSetSize =>
        if a.count.Some? && a.count.value < 0 then w
        else AfterCall(w, ResizeCall(a.key, if a.count.Some? then a.count.value else 1, w.Next()))
      case OtherKind(_) => w
  }

  function Dispatch(actions: seq<Action>, hasRequest: bool, w: World): World
    decreases Level(hasRequest), |actions|, 1
  {
    if actions == [] then w
    else DispatchOne(actions[|actions| - 1], hasRequest, Dispatch(actions[..|actions| - 1], hasRequest, w))
  }

  // ----- What the calls say about the run -----

  function StateAfter(start: State, calls: seq<Call>): State {
    if calls == [] then start else Told(StateAfter(start, calls[..|calls| - 1]), calls[|calls| - 1])
  }

  /**
   A call goes to a group of the spec of its time, with a size that is not negative; a deferred decision sees the
   status of its time.
   */
  predicate CallOk(start: State, calls: seq<Call>, i: nat)
    requires i < |calls|
  {
    var s := StateAfter(start, calls[..i]);
    && calls[i].key in s.spec
    && (calls[i].ResizeCall? ==> calls[i].size >= 0)
    && (calls[i].DeferredCall? ==> calls[i].seen == Previous(s.status, calls[i].key))
  }

  /** w is where the calls it holds lead from the start. */
  predicate Explained(start: State, w: World) {
    w.state == StateAfter(start, w.calls) && forall i | 0 <= i < |w.calls| :: CallOk(start, w.calls, i)
  }

  lemma CallStep(start: State, w: World, c: Call)
    requires Explained(start, w) && c.key in w.state.spec && (c.ResizeCall? ==> c.size >= 0)
    requires c.DeferredCall? ==> c.seen == Previous(w.state.status, c.key)
    ensures Explained(start, AfterCall(w, c))
  {
    var n, calls := |w.calls|, w.calls + [c];
    assert calls[..n] == w.calls;
    forall i | 0 <= i < |calls|
      ensures CallOk(start, calls, i)
    {
      if i < n {
        assert CallOk(start, w.calls, i);
        assert calls[..i] == w.calls[..i] && calls[i] == w.calls[i];
      }
    }
  }

  lemma {:induction false} DispatchOneIsExplained(start: State, a: Action, hasRequest: bool, w: World)
    requires Explained(start, w)
    ensures Explained(start, DispatchOne(a, hasRequest, w))
    decreases Level(hasRequest), 0, 0
  {
    hide Explained, AfterCall;
    if IsKnown(w.state.spec, a) {
      match a.kind
      case DeferredScalingDecision =>
        if a.count.None? && hasRequest {
          CallStep(start, w, Deferral(a, w));
          if w.Next().result.Answered? {
            DispatchIsExplained(start, w.Next().result.actions, false, AfterCall(w, Deferral(a, w)));
          }
        }
      case InvokeWorker =>
        CallStep(start, w, InvokeCall(a.key, w.Next()));
      case UpdateWorkerSetSize =>
        if a.count.None? || a.count.value >= 0 {
          CallStep(start, w, ResizeCall(a.key, if a.count.Some? then a.count.value else 1, w.Next()));
        }
      case OtherKind(_) =>
    }
  }

  lemma {:induction false} DispatchIsExplained(start: State, actions: seq<Action>, hasRequest: bool, w: World)
    requires Explained(start, w)
    ensures Explained(start, Dispatch(actions, hasRequest, w))
    decreases Level(hasRequest), |actions|, 1
  {
    hide Explained, DispatchOne;
    if actions != [] {
      var n := |actions| - 1;
      DispatchIsExplained(start, actions[..n], hasRequest, w);
      DispatchOneIsExplained(start, actions[n], hasRequest, Dispatch(actions[..n], hasRequest, w));
    }
  }

  /**
   Every deferred decision of a run sees the status that earlier answers and updates left, provider calls go to groups
   that are in the spec at that time with sizes that are not negative, and the final state is the one the calls explain.
   */
  lemma CallsExplainTheRun(actions: seq<Action>, hasRequest: bool, start: World)
    requires start.calls == []
    ensures Explained(start.state, Dispatch(actions, hasRequest, start))
  {
    DispatchIsExplained(start.state, actions, hasRequest, start);
  }

  /** No update replaced the state while the calls ran. */
  predicate AllQuiet(calls: seq<Call>) { forall c | c in calls :: c.reply.IsQuiet() }

  /** The call is a deferred decision for the group that answered with a status. */
  predicate AnswersFor(c: Call, key: string) {
    c.DeferredCall? && c.key == key && c.reply.result.Answered? && c.reply.result.status.Some?
  }

  /** The call is one to a provider that ended in an application error. */
  predicate ProviderFails(c: Call) {
    (c.InvokeCall? || c.ResizeCall?) && c.reply.result.ApplicationError?
  }

  /** The latest call that answers for the group; -1 is before the first. */
  predicate IsLatestAnswer(calls: seq<Call>, key: string, i: int) {
    && -1 <= i < |calls| && (i >= 0 ==> AnswersFor(calls[i], key))
    && forall j | i < j < |calls| :: !AnswersFor(calls[j], key)
  }

  /** The latest provider call that ended in an application error; -1 is before the first. */
  predicate IsLatestFailure(calls: seq<Call>, i: int) {
    && -1 <= i < |calls| && (i >= 0 ==> ProviderFails(calls[i]))
    && forall j | i < j < |calls| :: !ProviderFails(calls[j])
  }

  /**
   While no update comes in between, a group's status is the one that its latest deferred decision answered with, and
   the earlier one without such an answer.
   */
  lemma {:induction false} LatestAnswerStays(start: State, calls: seq<Call>, key: string, i: int)
    requires AllQuiet(calls) && IsLatestAnswer(calls, key, i)
    ensures
      var s := StateAfter(start, calls);
      && s.spec == start.spec
      && (i < 0 ==> (key in s.status <==> key in start.status))
      && (i < 0 && key in s.status ==> s.status[key] == start.status[key])
      && (i >= 0 ==> key in s.status && s.status[key] == calls[i].reply.result.status)
    decreases |calls|
  {
    if calls != [] {
      var n := |calls| - 1;
      assert calls[n] in calls && AllQuiet(calls[..n]);
      CallOutcome(StateAfter(start, calls[..n]), calls[n]);
      if i < n {
        assert IsLatestAnswer(calls[..n], key, i);
        LatestAnswerStays(start, calls[..n], key, i);
      } else {
        SpecStays(start, calls[..n]);
      }
    }
  }

  lemma {:induction false} SpecStays(start: State, calls: seq<Call>)
    requires AllQuiet(calls)
    ensures StateAfter(start, calls).spec == start.spec
    decreases |calls|
  {
    if calls != [] {
      var n := |calls| - 1;
      assert calls[n] in calls && AllQuiet(calls[..n]);
      SpecStays(start, calls[..n]);
    }
  }

  /**
   While no update comes in between, the noted failure is the message of the latest provider call that ended in an
   application error, and the earlier one without such a call.
   */
  lemma {:induction false} LatestFailureStays(start: State, calls: seq<Call>, i: int)
    requires AllQuiet(calls) && IsLatestFailure(calls, i)
    ensures StateAfter(start, calls).failure == if i < 0 then start.failure else Some(calls[i].reply.result.message)
    decreases |calls|
  {
    if calls != [] {
      var n := |calls| - 1;
      assert calls[n] in calls && AllQuiet(calls[..n]);
      CallOutcome(StateAfter(start, calls[..n]), calls[n]);
      if i < n {
        assert IsLatestFailure(calls[..n], i);
        LatestFailureStays(start, calls[..n], i);
      }
    }
  }

  /**
   What any call leaves behind, with updates: first the state of the update that came meanwhile, if one did, then the
   answer in the group's slot or the error's message, and last the update that came during the signal.
   */
  lemma CallOutcome(s: State, c: Call)
    ensures
      var after := Told(s, c);
      var current := if c.reply.meanwhile.Some? then c.reply.meanwhile.value else s;
      if ProviderFails(c) then
        after == if c.reply.whileSignalling.Some? then c.reply.whileSignalling.value
                 else State(current.spec, current.status, Some(c.reply.result.message))
      else
        && after.spec == current.spec && after.failure == current.failure
        && (forall k :: k in after.status <==> k in current.status || AnswersFor(c, k))
        && (forall k | k in after.status ::
              after.status[k] == if AnswersFor(c, k) then c.reply.result.status else current.status[k])
  {
  }

  // ----- What the actions amount to -----

  /** The spec that each action of a list meets. */
  function SpecsMet(actions: seq<Action>, hasRequest: bool, w: World): (specs: seq<set<string>>)
    ensures |specs| == |actions|
    decreases |actions|
  {
    if actions == [] then []
    else
      var n := |actions| - 1;
      SpecsMet(actions[..n], hasRequest, w) + [Dispatch(actions[..n], hasRequest, w).state.spec]
  }

  /** If no update comes in between, that is the same spec throughout. */
  lemma {:induction false} SpecsMetAreFixed(actions: seq<Action>, hasRequest: bool, w: World)
    requires forall r | r in w.replies :: r.IsQuiet()
    ensures forall s | s in SpecsMet(actions, hasRequest, w) :: s == w.state.spec
    ensures Dispatch(actions, hasRequest, w).state.spec == w.state.spec
    ensures forall r | r in Dispatch(actions, hasRequest, w).replies :: r.IsQuiet()
    decreases Level(hasRequest), |actions|, 1
  {
    if actions != [] {
      var n := |actions| - 1;
      SpecsMetAreFixed(actions[..n], hasRequest, w);
      SpecIsFixedByOne(actions[n], hasRequest, Dispatch(actions[..n], hasRequest, w));
    }
  }

  lemma {:induction false} SpecIsFixedByOne(a: Action, hasRequest: bool, w: World)
    requires forall r | r in w.replies :: r.IsQuiet()
    ensures DispatchOne(a, hasRequest, w).state.spec == w.state.spec
    ensures forall r | r in DispatchOne(a, hasRequest, w).replies :: r.IsQuiet()
    decreases Level(hasRequest), 0, 0
  {
    assert w.Next().IsQuiet();
    if Eligible(w.state.spec, a) && hasRequest && w.Next().result.Answered? {
      SpecsMetAreFixed(w.Next().result.actions, false, AfterCall(w, Deferral(a, w)));
    }
  }

  function DeferredCalls(calls: seq<Call>): nat {
    if calls == [] then 0 else DeferredCalls(calls[..|calls| - 1]) + if calls[|calls| - 1].DeferredCall? then 1 else 0
  }

  /** How many well-formed deferred actions meet their group in the spec. */
  function EligibleActions(specs: seq<set<string>>, actions: seq<Action>): nat
    requires |specs| == |actions|
  {
    if actions == [] then 0
    else
      var n := |actions| - 1;
      EligibleActions(specs[..n], actions[..n]) + if Eligible(specs[n], actions[n]) then 1 else 0
  }

  /** What a provider is told to do. */
  datatype Order = InvokeOne(key: string) | SetSize(key: string, size: int)

  /** The order in one action: unknown groups, unknown kinds and negative sizes give none; a missing size is one. */
  function OrderIn(spec: set<string>, a: Action): seq<Order> {
    if !IsKnown(spec, a) then []
    else if a.kind.InvokeWorker? then [InvokeOne(a.key)]
    else if a.kind.UpdateWorkerSetSize? && a.count.None? then [SetSize(a.key, 1)]
    else if a.kind.UpdateWorkerSetSize? && a.count.value >= 0 then [SetSize(a.key, a.count.value)]
    else []
  }

  function Orders(specs: seq<set<string>>, actions: seq<Action>): seq<Order>
    requires |specs| == |actions|
  {
    if actions == [] then []
    else
      var n := |actions| - 1;
      Orders(specs[..n], actions[..n]) + OrderIn(specs[n], actions[n])
  }

  /** The order that a call gives. */
  function GivenBy(c: Call): seq<Order> {
    match c
    case DeferredCall(_, _, _) => []
    case InvokeCall(key, _) => [InvokeOne(key)]
    case ResizeCall(key, size, _) => [SetSize(key, size)]
  }

  function Given(calls: seq<Call>): seq<Order> {
    if calls == [] then [] else Given(calls[..|calls| - 1]) + GivenBy(calls[|calls| - 1])
  }

  lemma OneMoreCall(calls: seq<Call>, c: Call)
    ensures DeferredCalls(calls + [c]) == DeferredCalls(calls) + if c.DeferredCall? then 1 else 0
    ensures Given(calls + [c]) == Given(calls) + GivenBy(c)
  {
    assert (calls + [c])[..|calls|] == calls;
  }

  /** What one action that is not a deferral, or comes without the request, amounts to. */
  lemma PlainOne(a: Action, hasRequest: bool, w: World)
    requires !Eligible(w.state.spec, a) || !hasRequest
    ensures Given(DispatchOne(a, hasRequest, w).calls) == Given(w.calls) + OrderIn(w.state.spec, a)
    ensures DeferredCalls(DispatchOne(a, hasRequest, w).calls) == DeferredCalls(w.calls)
  {
    hide Dispatch, Given, DeferredCalls;
    var after := DispatchOne(a, hasRequest, w);
    if after != w {
      OneMoreCall(w.calls, after.calls[|w.calls|]);
    }
  }

  /**
   Dispatching the actions of a poll or of a deferred decision defers nothing, and gives exactly their orders, in order,
   however calls end.
   */
  lemma {:induction false} OrdersAreGiven(actions: seq<Action>, w: World)
    ensures
      var calls := Dispatch(actions, false, w).calls;
      && Given(calls) == Given(w.calls) + Orders(SpecsMet(actions, false, w), actions)
      && DeferredCalls(calls) == DeferredCalls(w.calls)
    decreases |actions|
  {
    hide DispatchOne, Given, DeferredCalls, OrderIn;
    if actions != [] {
      var n := |actions| - 1;
      OrdersAreGiven(actions[..n], w);
      PlainOne(actions[n], false, Dispatch(actions[..n], false, w));
      assert SpecsMet(actions, false, w)[..n] == SpecsMet(actions[..n], false, w);
    }
  }

  /** The orders that the answer to a deferred action asks for; a failed one asks for none. */
  function AnswerOrders(a: Action, w: World): seq<Order> {
    var result := w.Next().result;
    if result.Answered? then Orders(SpecsMet(result.actions, false, AfterCall(w, Deferral(a, w))), result.actions)
        else []
  }

  /** The orders of a list with a request: each well-formed deferred action stands for the orders of its answer. */
  function SplicedOrders(actions: seq<Action>, w: World): seq<Order> {
    if actions == [] then []
    else
      var n := |actions| - 1;
      var a, before := actions[n], Dispatch(actions[..n], true, w);
      SplicedOrders(actions[..n], w)
      + if Eligible(before.state.spec, a) then AnswerOrders(a, before) else OrderIn(before.state.spec, a)
  }

  lemma DeferredOne(a: Action, w: World)
    requires Eligible(w.state.spec, a)
    ensures Given(DispatchOne(a, true, w).calls) == Given(w.calls) + AnswerOrders(a, w)
    ensures DeferredCalls(DispatchOne(a, true, w).calls) == DeferredCalls(w.calls) + 1
  {
    hide Dispatch, Given, DeferredCalls, Orders, SpecsMet;
    var c := Deferral(a, w);
    OneMoreCall(w.calls, c);
    if w.Next().result.Answered? {
      OrdersAreGiven(w.Next().result.actions, AfterCall(w, c));
    }
  }

  /**
   On the path of a task-add exactly one deferred decision runs per well-formed deferred action whose group is in the
   spec when its turn comes, and the orders are the list's own with each answer's orders in the place of its action.
   */
  lemma {:induction false} DeferralsMatchActions(actions: seq<Action>, w: World)
    ensures
      var calls := Dispatch(actions, true, w).calls;
      && DeferredCalls(calls) == DeferredCalls(w.calls) + EligibleActions(SpecsMet(actions, true, w), actions)
      && Given(calls) == Given(w.calls) + SplicedOrders(actions, w)
    decreases |actions|
  {
    hide DispatchOne, Given, DeferredCalls, OrderIn, AnswerOrders;
    if actions != [] {
      var n := |actions| - 1;
      var a, before := actions[n], Dispatch(actions[..n], true, w);
      DeferralsMatchActions(actions[..n], w);
      assert SpecsMet(actions, true, w)[..n] == SpecsMet(actions[..n], true, w);
      if Eligible(before.state.spec, a) {
        DeferredOne(a, before);
      } else {
        PlainOne(a, true, before);
      }
    }
  }

  // ----- The runner -----

  class ActionRunner {
    var spec: set<string>
    var status: map<string, Status>
    var failure: Option<string>
    // The activities run so far and the replies still to come.
    var calls: seq<Call>
    var replies: seq<Reply>

    constructor (state: State, replies: seq<Reply>)
      ensures Now() == World(state, [], replies)
    {
      spec, status, failure := state.spec, state.status, state.failure;
      calls, this.replies := [], replies;
    }

    function Now(): World
      reads this
    {
      World(State(spec, status, failure), calls, replies)
    }

    /** Blocks until the activity has ended; an update of the instance may have replaced the state by then. */
    method ExecuteActivity() returns (reply: Reply)
      modifies `replies, `spec, `status, `failure
      ensures reply == old(Now().Next()) && replies == (if old(replies) == [] then [] else old(replies)[1..])
      ensures Now().state == Replaced(old(Now().state), reply.meanwhile)
    {
      reply := Reply(OtherError, None, None);
      if replies != [] {
        reply := replies[0];
        replies := replies[1..];
      }
      Update(reply.meanwhile);
    }

    /** What an update that has completed leaves behind. */
    method Update(update: Option<State>)
      modifies `spec, `status, `failure
      ensures Now().state == Replaced(old(Now().state), update)
    {
      if update.Some? {
        spec, status, failure := update.value.spec, update.value.status, update.value.failure;
      }
    }

    /** Notes a provider's application error and signals the version workflow, which blocks once more. */
    method NoteFailure(reply: Reply)
      modifies `spec, `status, `failure
      ensures Now().state == if !reply.result.ApplicationError? then old(Now().state)
        else Replaced(old(Now().state).(failure := Some(reply.result.message)), reply.whileSignalling)
    {
      if reply.result.ApplicationError? {
        failure := Some(reply.result.message);
        Update(reply.whileSignalling);
      }
    }

    /** One iteration of handleActions. */
    method HandleAction(a: Action, hasRequest: bool)
      modifies this
      ensures Now() == DispatchOne(a, hasRequest, old(Now()))
      decreases Level(hasRequest), 0, 0
    {
      hide Dispatch;
      if a.key == "" || a.key !in spec {
        return;
      }
      match a.kind
      case DeferredScalingDecision =>
        if a.count.Some? || !hasRequest {
          return;
        }
        var seen := Previous(status, a.key);
        var reply := ExecuteActivity();
        calls := calls + [DeferredCall(a.key, seen, reply)];
        if reply.result.Answered? {
          if reply.result.status.Some? {
            status := status[a.key := reply.result.status];
          }
          HandleActions(reply.result.actions, false);
        }
      case InvokeWorker =>
        var reply := ExecuteActivity();
        calls := calls + [InvokeCall(a.key, reply)];
        NoteFailure(reply);
      case UpdateWorkerSetSize =>
        var size := 1;
        if a.count.Some? {
          if a.count.value < 0 {
            return;
          }
          size := a.count.value;
        }
        var reply := ExecuteActivity();
        calls := calls + [ResizeCall(a.key, size, reply)];
        NoteFailure(reply);
      case OtherKind(_) =>
    }

    /** handleActions: it terminates because the answer of a deferred decision is dispatched without the request. */
    method HandleActions(actions: seq<Action>, hasRequest: bool)
      modifies this
      ensures Now() == Dispatch(actions, hasRequest, old(Now()))
      decreases Level(hasRequest), |actions|, 1
    {
      for i := 0 to |actions|
        invariant Now() == Dispatch(actions[..i], hasRequest, old(Now()))
      {
        assert actions[..i + 1][..i] == actions[..i];
        HandleAction(actions[i], hasRequest);
      }
      assert actions[..|actions|] == actions;
    }
  }
}
