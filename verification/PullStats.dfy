/**
 The poll activity's loop over scaling groups: what each group's algorithm answered is folded into one list of actions,
 one status map and one time to the next poll. Groups come in an arbitrary order.
 */
module PullStats {
  import opened Arithmetic
  import opened ScalingTypes

  const SECOND := 1_000_000_000
  const MIN_POLL := 30_000_000_000
  const MAX_POLL := 300_000_000_000

  /** An algorithm status; None is Go's nil map. */
  type Status = Option<string>

  /**
   What a group's algorithm makes of the poll, by whether the group serves anything here. Times are in nanoseconds.
   */
  datatype Answer =
    | Unavailable
    | InactiveAnswer(status: Status, actions: seq<Action>)
    | ActiveAnswer(status: Status, actions: seq<Action>, nextPoll: Option<int>)

  function Keyed(actions: seq<Action>, key: string): seq<Action> {
    if actions == [] then [] else Keyed(actions[..|actions| - 1], key) + [actions[|actions| - 1].(key := key)]
  }

  /** An algorithm's actions, marked with the group, without the deferred ones that nobody would answer. */
  function WithoutDeferred(actions: seq<Action>, key: string): seq<Action> {
    if actions == [] then []
    else
      var n := |actions| - 1;
      WithoutDeferred(actions[..n], key) + if actions[n].kind.DeferredScalingDecision? then []
          else [actions[n].(key := key)]
  }

  lemma {:induction false} FilteredActions(actions: seq<Action>, key: string, a: Action)
    ensures a in WithoutDeferred(actions, key) <==>
      && a.key == key && !a.kind.DeferredScalingDecision?
      && (exists b :: b in actions && b.kind == a.kind && b.count == a.count)
    decreases |actions|
  {
    if actions != [] {
      var n := |actions| - 1;
      FilteredActions(actions[..n], key, a);
      assert actions == actions[..n] + [actions[n]];
      if b :| b in actions && b.kind == a.kind && b.count == a.count {
        assert b in actions[..n] || b == actions[n];
      }
    }
  }

  /** Marking changes the group key of every action and nothing else. */
  lemma {:induction false} KeyedInPlace(actions: seq<Action>, key: string)
    ensures |Keyed(actions, key)| == |actions|
    ensures forall i | 0 <= i < |actions| :: Keyed(actions, key)[i] == Action(actions[i].kind, actions[i].count, key)
    decreases |actions|
  {
    if actions != [] {
      KeyedInPlace(actions[..|actions| - 1], key);
    }
  }

  /** The kept actions are the marked ones at the given positions: in order, and all that are not deferred. */
  ghost predicate Selects(positions: seq<nat>, actions: seq<Action>, kept: seq<Action>, key: string) {
    && |positions| == |kept|
    && (forall i | 0 <= i < |positions| :: positions[i] < |actions|)
    && (forall i, j | 0 <= i < j < |positions| :: positions[i] < positions[j])
    && (forall p: nat | p < |actions| :: p in positions <==> actions[p].kind != DeferredScalingDecision)
    && (forall i | 0 <= i < |positions| ::
          kept[i] == Action(actions[positions[i]].kind, actions[positions[i]].count, key))
  }

  /** Filtering keeps every action that is not deferred exactly once, in order, and marks it. */
  lemma {:induction false} FilteredInOrder(actions: seq<Action>, key: string)
    ensures exists positions :: Selects(positions, actions, WithoutDeferred(actions, key), key)
    decreases |actions|
  {
    hide WithoutDeferred, Selects;
    if actions == [] {
      SelectsNothing(key);
    } else {
      var n := |actions| - 1;
      FilteredInOrder(actions[..n], key);
      var kept := WithoutDeferred(actions[..n], key);
      var positions :| Selects(positions, actions[..n], kept, key);
      WithoutDeferredStep(actions, key);
      SelectsOneMore(positions, actions, kept, key);
    }
  }

  lemma SelectsNothing(key: string)
    ensures Selects([], [], WithoutDeferred([], key), key)
  {
  }

  lemma WithoutDeferredStep(actions: seq<Action>, key: string)
    requires actions != []
    ensures
      var n := |actions| - 1;
      var last, kept := actions[n], WithoutDeferred(actions[..n], key);
      WithoutDeferred(actions, key) == if last.kind == DeferredScalingDecision then kept else kept + [last.(key := key)]
  {
  }

  lemma SelectsOneMore(positions: seq<nat>, actions: seq<Action>, kept: seq<Action>, key: string)
    requires actions != [] && Selects(positions, actions[..|actions| - 1], kept, key)
    ensures
      var n := |actions| - 1;
      var last := actions[n];
      if last.kind == DeferredScalingDecision then Selects(positions, actions, kept, key)
      else Selects(positions + [n], actions, kept + [last.(key := key)], key)
  {
    var n := |actions| - 1;
    var longer := positions + [n];
    forall p: nat | p < n
      ensures p in positions <==> actions[p].kind != DeferredScalingDecision
    {
      assert actions[..n][p] == actions[p];
    }
    forall p: nat | p < |actions|
      ensures p in longer <==> p in positions || p == n
    {
    }
    assert forall i | 0 <= i < |positions| :: actions[..n][positions[i]] == actions[positions[i]];
  }

  /** The filter that HandleDeferredScalingDecision and PullStats share: no nested deferred action goes out. */
  method DropDeferred(actions: seq<Action>, key: string) returns (kept: seq<Action>)
    ensures kept == WithoutDeferred(actions, key)
  {
    kept := [];
    for i := 0 to |actions|
      invariant kept == WithoutDeferred(actions[..i], key)
    {
      assert actions[..i + 1][..i] == actions[..i];
      if actions[i].kind.DeferredScalingDecision? {
        continue;
      }
      kept := kept + [actions[i].(key := key)];
    }
    assert actions[..|actions|] == actions;
  }

  method MarkAll(actions: seq<Action>, key: string) returns (marked: seq<Action>)
    ensures marked == Keyed(actions, key)
  {
    marked := [];
    for i := 0 to |actions|
      invariant marked == Keyed(actions[..i], key)
    {
      assert actions[..i + 1][..i] == actions[..i];
      marked := marked + [actions[i].(key := key)];
    }
    assert actions[..|actions|] == actions;
  }

  /** What one group contributes to the list. */
  function Contribution(answer: Answer, key: string): seq<Action> {
    match answer
    case Unavailable => []
    case InactiveAnswer(_, actions) => Keyed(actions, key)
    case ActiveAnswer(_, actions, _) => WithoutDeferred(actions, key)
  }

  /** The part of a list that belongs to one group. */
  function Share(actions: seq<Action>, key: string): seq<Action> {
    if actions == [] then []
    else
      var n := |actions| - 1;
      Share(actions[..n], key) + if actions[n].key == key then [actions[n]] else []
  }

  lemma {:induction false} ShareOfSum(a: seq<Action>, b: seq<Action>, key: string)
    ensures Share(a + b, key) == Share(a, key) + Share(b, key)
    decreases |b|
  {
    if b == [] {
      assert a + b == a;
    } else {
      var n := |b| - 1;
      assert (a + b)[..|a| + n] == a + b[..n];
      ShareOfSum(a, b[..n], key);
    }
  }

  lemma {:induction false} ShareOfOne(actions: seq<Action>, owner: string, key: string)
    requires forall a | a in actions :: a.key == owner
    ensures Share(actions, key) == if key == owner then actions else []
    decreases |actions|
  {
    if actions != [] {
      var n := |actions| - 1;
      assert actions[n] in actions && actions == actions[..n] + [actions[n]];
      ShareOfOne(actions[..n], owner, key);
    }
  }

  lemma {:induction false} MarksAreOwn(actions: seq<Action>, key: string)
    ensures forall a | a in Keyed(actions, key) + WithoutDeferred(actions, key) :: a.key == key
    decreases |actions|
  {
    if actions != [] {
      MarksAreOwn(actions[..|actions| - 1], key);
    }
  }

  /** Adding one group's contribution changes that group's share only. */
  lemma ShareAfter(actions: seq<Action>, answer: Answer, owner: string, key: string)
    ensures Share(actions + Contribution(answer, owner), key)
         == Share(actions, key) + if key == owner then Contribution(answer, owner) else []
  {
    match answer
    case Unavailable =>
      assert actions + [] == actions;
    case InactiveAnswer(_, added) =>
      MarksAreOwn(added, owner);
      ShareOfOne(Keyed(added, owner), owner, key);
      ShareOfSum(actions, Keyed(added, owner), key);
    case ActiveAnswer(_, added, _) =>
      MarksAreOwn(added, owner);
      ShareOfOne(WithoutDeferred(added, owner), owner, key);
      ShareOfSum(actions, WithoutDeferred(added, owner), key);
  }

  /** Every visited group has its contribution in the list, in its own order, and nobody else has anything there. */
  ghost predicate HoldsContributions(actions: seq<Action>, answers: map<string, Answer>, done: set<string>) {
    forall k :: Share(actions, k) == if k in answers && k in done then Contribution(answers[k], k) else []
  }

  lemma ContributionsStep(actions: seq<Action>, answers: map<string, Answer>, done: set<string>, k: string)
    requires k in answers && k !in done && HoldsContributions(actions, answers, done)
    ensures HoldsContributions(actions + Contribution(answers[k], k), answers, done + {k})
  {
    forall key
      ensures Share(actions + Contribution(answers[k], k), key)
           == if key in answers && key in done + {k} then Contribution(answers[key], key) else []
    {
      ShareAfter(actions, answers[k], k, key);
    }
  }

  /** The status a group keeps: the algorithm's, or the previous one if the algorithm could not be asked. */
  function StatusFor(answer: Answer, previous: Status): Status {
    match answer
    case Unavailable => previous
    case InactiveAnswer(status, _) => status
    case ActiveAnswer(status, _, _) => status
  }

  function Previous(statuses: map<string, Status>, key: string): Status {
    if key in statuses then statuses[key] else None
  }

  function Updated(answers: map<string, Answer>, previous: map<string, Status>, done: set<string>)
    : map<string, Status>
  {
    map k | k in answers && k in done && !(answers[k].InactiveAnswer? && answers[k].status.None?) ::
      StatusFor(answers[k], Previous(previous, k))
  }

  lemma UpdatedStep(answers: map<string, Answer>, previous: map<string, Status>, done: set<string>, k: string)
    requires k in answers && k !in done
    ensures Updated(answers, previous, done + {k}) ==
      if answers[k].InactiveAnswer? && answers[k].status.None? then Updated(answers, previous, done)
      else Updated(answers, previous, done)[k := StatusFor(answers[k], Previous(previous, k))]
  {
  }

  /**
   A group keeps its previous status (nil if it had none) when its algorithm cannot be asked, loses it when the
   algorithm of an inactive group returns none, and has the returned one otherwise.
   */
  lemma StatusByRule(answers: map<string, Answer>, previous: map<string, Status>, k: string)
    ensures
      var statuses := Updated(answers, previous, answers.Keys);
      if k !in answers then k !in statuses
      else match answers[k]
           case Unavailable => k in statuses && statuses[k] == if k in previous then previous[k] else None
           case InactiveAnswer(None, _) => k !in statuses
           case InactiveAnswer(Some(status), _) => k in statuses && statuses[k] == Some(status)
           case ActiveAnswer(status, _, _) => k in statuses && statuses[k] == status
  {
  }

  predicate Requests(answer: Answer, wait: int) { answer.ActiveAnswer? && answer.nextPoll == Some(wait) }

  /** wait is the least of the longest wait and every wait that the groups in done ask for. */
  ghost predicate IsLeastWait(answers: map<string, Answer>, done: set<string>, wait: int) {
    && wait <= 300_000_000_000
    && (forall k, w | k in answers && k in done && Requests(answers[k], w) :: wait <= w)
    && (wait == 300_000_000_000 || exists k :: k in answers && k in done && Requests(answers[k], wait))
  }

  lemma LeastWaitStep(answers: map<string, Answer>, done: set<string>, k: string, wait: int)
    requires k in answers && IsLeastWait(answers, done, wait)
    ensures IsLeastWait(answers, done + {k},
              if answers[k].ActiveAnswer? && answers[k].nextPoll.Some?
              then Min(wait, answers[k].nextPoll.value) else wait)
  {
    if answers[k].ActiveAnswer? && answers[k].nextPoll.Some? {
      assert Requests(answers[k], answers[k].nextPoll.value);
    }
  }

  /** There is one least wait, so the time to the next poll does not depend on the order of the groups. */
  lemma LeastWaitIsUnique(answers: map<string, Answer>, done: set<string>, v: int, w: int)
    requires IsLeastWait(answers, done, v) && IsLeastWait(answers, done, w)
    ensures v == w
  {
    if v != MAX_POLL {
      var k :| k in answers && k in done && Requests(answers[k], v);
    }
    if w != MAX_POLL {
      var k :| k in answers && k in done && Requests(answers[k], w);
    }
  }

  /** The group loop of PullStats. */
  method PullStats(answers: map<string, Answer>, previous: map<string, Status>)
    returns (actions: seq<Action>, statuses: map<string, Status>, nextPollSeconds: int)
    ensures HoldsContributions(actions, answers, answers.Keys)
    ensures statuses == Updated(answers, previous, answers.Keys)
    ensures exists wait :: IsLeastWait(answers, answers.Keys, wait)
              && nextPollSeconds == Max(30_000_000_000, wait) / 1_000_000_000
    ensures 30 <= nextPollSeconds <= 300
  {
    actions, statuses := [], map[];
    assert HoldsContributions([], answers, {});
    assert IsLeastWait(answers, {}, MAX_POLL) && Updated(answers, previous, {}) == map[];
    hide HoldsContributions, Keyed, WithoutDeferred, IsLeastWait, Updated;
    var nextPoll := MAX_POLL;
    ghost var least := MAX_POLL;
    var unvisited := answers.Keys;
    assert answers.Keys - unvisited == {};
    while unvisited != {}
      invariant unvisited <= answers.Keys
      invariant HoldsContributions(actions, answers, answers.Keys - unvisited)
      invariant statuses == Updated(answers, previous, answers.Keys - unvisited)
      invariant IsLeastWait(answers, answers.Keys - unvisited, least) && nextPoll == Max(MIN_POLL, least)
      decreases unvisited
    {
      var k :| k in unvisited;
      var added := [];
      ghost var before, done := least, answers.Keys - unvisited;
      match answers[k] {
        case Unavailable =>
          statuses := statuses[k := Previous(previous, k)];
        case InactiveAnswer(status, proposed) =>
          if status.Some? {
            statuses := statuses[k := status];
          }
          added := MarkAll(proposed, k);
        case ActiveAnswer(status, proposed, wait) =>
          statuses := statuses[k := status];
          added := DropDeferred(proposed, k);
          if wait.Some? {
            nextPoll := Max(MIN_POLL, Min(nextPoll, wait.value));
            least := Min(least, wait.value);
          }
      }
      ContributionsStep(actions, answers, done, k);
      LeastWaitStep(answers, done, k, before);
      UpdatedStep(answers, previous, done, k);
      actions := actions + added;
      unvisited := unvisited - {k};
      assert answers.Keys - unvisited == done + {k};
    }
    assert answers.Keys - unvisited == answers.Keys;
    nextPollSeconds := nextPoll / SECOND;
  }
}
