/**
 The engine of the worker-set simulator. Random durations, arrival times, the form inputs and the scaler's target are
 arbitrary values, and the events of the queue may be taken in any order, so what holds here holds for every run.
 */
module Simulator {
  import opened Arithmetic
  import opened SimulatorState

  /** The form inputs the engine reads; they may change between any two events. */
  datatype Params = Params(minConsumers: nat, maxConsumers: nat, slotsPerConsumer: nat, spinUpMs: real,
                           upCooldownMs: real)

  const EPSILON_MS := 0.0001

  function MaxConsumers(p: Params): int { Max(1, p.maxConsumers) }

  function SlotsPerConsumer(p: Params): nat { if p.slotsPerConsumer >= 1 then p.slotsPerConsumer else 1 }

  /** boundPlannedConsumerUpdate: only the bound in the direction of the change applies. */
  function BoundPlannedUpdate(p: Params, value: int, current: int): (next: int)
    ensures current >= 0 ==> next >= 0
    ensures value > current >= 0 ==> next <= MaxConsumers(p) && (next >= current || next == MaxConsumers(p))
    ensures Max(0, value) < current ==> next >= p.minConsumers && (next <= current || next == p.minConsumers)
    ensures p.minConsumers <= value <= MaxConsumers(p) ==> next == value
    ensures value > current >= 0 ==> next == value || (next < value && next == Max(1, p.maxConsumers))
    ensures 0 <= value < current ==> next == value || (next > value && next == p.minConsumers)
    ensures value == current >= 0 ==> next == current
  {
    var normalized := Max(0, value);
    if normalized > current then Min(normalized, MaxConsumers(p))
    else if normalized < current then Max(normalized, p.minConsumers)
    else current
  }

  function RemoveById(ps: seq<PendingConsumer>, id: nat): seq<PendingConsumer> {
    if ps == [] then [] else (if ps[0].id == id then [] else [ps[0]]) + RemoveById(ps[1..], id)
  }

  lemma {:induction false} RemoveByIdAbsent(ps: seq<PendingConsumer>, id: nat)
    requires forall i | 0 <= i < |ps| :: ps[i].id != id
    ensures RemoveById(ps, id) == ps
  {
    if ps != [] {
      RemoveByIdAbsent(ps[1..], id);
    }
  }

  lemma {:induction false} RemoveByIdPresent(ps: seq<PendingConsumer>, i: nat)
    requires i < |ps| && forall a, b | 0 <= a < b < |ps| :: ps[a].id != ps[b].id
    ensures RemoveById(ps, ps[i].id) == Without(ps, i)
  {
    if i == 0 {
      RemoveByIdAbsent(ps[1..], ps[0].id);
    } else {
      RemoveByIdPresent(ps[1..], i - 1);
      assert Without(ps, i) == [ps[0]] + Without(ps[1..], i - 1);
    }
  }

  lemma ScheduledViews(q: EventQueue, k: nat, e: Event)
    requires k !in q
    ensures k !in Completions(q) && k !in Readies(q)
    ensures Completions(q[k := e]) == if e.kind.Completion? then Completions(q)[k := e.kind] else Completions(q)
    ensures Readies(q[k := e]) == if e.kind.ConsumerReady? then Readies(q)[k := e.kind] else Readies(q)
    ensures Cadences(q[k := e]) == if e.kind.Cadence? then Cadences(q)[k := e] else Cadences(q)
  {
  }

  lemma TakenViews(q: EventQueue, k: nat)
    requires k in q
    ensures Completions(q - {k}) == if q[k].kind.Completion? then Completions(q) - {k} else Completions(q)
    ensures Readies(q - {k}) == if q[k].kind.ConsumerReady? then Readies(q) - {k} else Readies(q)
    ensures !q[k].kind.Cadence? ==> Cadences(q - {k}) == Cadences(q)
  {
  }

  class Engine {
    var simTimeMs: real
    var events: EventQueue
    var nextEventId: nat
    var nextTaskId: nat
    var nextConsumerId: nat
    var consumers: seq<Consumer>
    var pending: seq<PendingConsumer>
    var backlog: seq<Task>
    var planned: int
    var lastScaleUpMs: Option<real>
    var syncMatches: nat
    var noSyncMatches: nat
    var completedCount: nat
    ghost var completed: multiset<nat>

    /** The engine's invariant while the given tasks are in nobody's hands and ps are the starting consumers. */
    ghost predicate Holds(ps: seq<PendingConsumer>, extra: multiset<nat>)
      reads `consumers, `nextConsumerId, `events, `nextEventId, `backlog, `nextTaskId, `completed, `completedCount
    {
      && IdsOk(consumers, ps, nextConsumerId)
      && CompletionsOk(Completions(events), consumers, ps, nextConsumerId)
      && ReadiesOk(Readies(events), ps)
      && Conserved(backlog, consumers, completed, extra, nextTaskId)
      && (forall k | k in events :: k < nextEventId)
      && nextTaskId >= 1 && |completed| == completedCount
    }

    /**
     Every task is in exactly one place, every busy slot awaits exactly one event, no slot idles while there is
     backlog, and the active and starting consumers are as many as planned.
     */
    ghost predicate Valid()
      reads `consumers, `nextConsumerId, `events, `nextEventId, `backlog, `nextTaskId, `completed, `completedCount,
            `pending, `planned
    {
      Holds(pending, multiset{}) && NoIdleSlot(backlog, consumers) && |consumers| + |pending| == planned
    }

    method Schedule(at: real, kind: EventKind)
      requires forall k | k in events :: k < nextEventId
      modifies `events, `nextEventId
      ensures events == old(events)[old(nextEventId) := Event(at, kind)] && nextEventId == old(nextEventId) + 1
    {
      events := events[nextEventId := Event(at, kind)];
      nextEventId := nextEventId + 1;
    }

    predicate IsFree(i: nat, j: nat)
      reads `consumers
    {
      i < |consumers| && j < |consumers[i].slots| && consumers[i].slots[j].Free?
    }

    /** The first free slot: of the first consumer that has one, the first. */
    predicate IsFirstFree(i: nat, j: nat)
      reads `consumers
    {
      && IsFree(i, j)
      && (forall a, b | 0 <= a < i && 0 <= b < |consumers[a].slots| :: consumers[a].slots[b].Busy?)
      && (forall b | 0 <= b < j :: consumers[i].slots[b].Busy?)
    }

    predicate IsBusyWith(i: nat, j: nat, task: Task)
      reads `consumers
    {
      i < |consumers| && j < |consumers[i].slots| && consumers[i].slots[j] == Busy(task)
    }

    method FindFreeSlot() returns (free: Option<(nat, nat)>)
      ensures free.None? ==> AllBusy(consumers)
      ensures free.Some? ==> IsFirstFree(free.value.0, free.value.1)
    {
      for i := 0 to |consumers|
        invariant forall a, b | 0 <= a < i && 0 <= b < |consumers[a].slots| :: consumers[a].slots[b].Busy?
      {
        var slots := consumers[i].slots;
        for j := 0 to |slots|
          invariant forall b | 0 <= b < j :: slots[b].Busy?
        {
          if slots[j].Free? {
            return Some((i, j));
          }
        }
      }
      return None;
    }

    method AssignTaskToSlot(ghost ps: seq<PendingConsumer>, task: Task, i: nat, j: nat)
      requires Holds(ps, multiset{task.id})
      requires IsFree(i, j)
      modifies `consumers, `events, `nextEventId
      ensures Holds(ps, multiset{})
      ensures consumers == old(consumers[i := consumers[i].(slots := consumers[i].slots[j := Busy(task)])])
      ensures Cadences(events) == old(Cadences(events))
    {
      hide Conserved, CompletionsOk, ReadiesOk, IdsOk, Completions, Readies, Cadences;
      var sampled: real := *;
      var durationMs := if sampled < 100.0 then 100.0 else sampled;
      var consumer := consumers[i];
      ghost var k := nextEventId;
      ScheduledViews(events, k, Event(simTimeMs + durationMs, Completion(consumer.id, j, task.id)));
      CompletionsAfterAssign(Completions(events), consumers, ps, nextConsumerId, i, j, task, k);
      ConservedAfterAssign(backlog, consumers, completed, nextTaskId, i, j, task);
      consumers := consumers[i := consumer.(slots := consumer.slots[j := Busy(task)])];
      Schedule(simTimeMs + durationMs, Completion(consumer.id, j, task.id));
    }

    /** Dispatches from the front of the backlog until it is empty or no slot is free. */
    method DrainBacklog(ghost ps: seq<PendingConsumer>) returns (dispatched: nat)
      requires Holds(ps, multiset{})
      modifies `consumers, `events, `nextEventId, `backlog
      ensures Holds(ps, multiset{}) && NoIdleSlot(backlog, consumers)
      ensures OnlyFills(old(consumers), consumers)
      ensures dispatched <= |old(backlog)| && backlog == old(backlog)[dispatched..]
      ensures Cadences(events) == old(Cadences(events))
    {
      hide TaskIds, BusyTasks, SlotTasks, Issued, Conserved, CompletionsOk, ReadiesOk, IdsOk, Completions, Readies,
           Cadences, AllBusy;
      FillsNothing(consumers);
      hide OnlyFills, SlotsOnlyFill;
      dispatched := 0;
      ghost var waiting := backlog;
      while backlog != []
        invariant Holds(ps, multiset{}) && OnlyFills(old(consumers), consumers)
        invariant Cadences(events) == old(Cadences(events))
        invariant dispatched <= |waiting| && backlog == waiting[dispatched..]
        decreases |backlog|
      {
        var free := FindFreeSlot();
        if free.None? {
          break;
        }
        var task := backlog[0];
        ConservedAfterShift(backlog, consumers, completed, nextTaskId);
        backlog := backlog[1..];
        FillsOneMore(old(consumers), consumers, free.value.0, free.value.1, task);
        AssignTaskToSlot(ps, task, free.value.0, free.value.1);
        dispatched := dispatched + 1;
      }
    }

    /** A starting consumer (in the pending list or about to skip it) becomes active and takes backlog. */
    method ActivatePendingConsumer(p: PendingConsumer, ghost ps: seq<PendingConsumer>)
      requires ps == RemoveById(pending, p.id) && Holds(ps, multiset{})
      requires p.id < nextConsumerId && p.slotsPerConsumer >= 1
      requires (forall i | 0 <= i < |consumers| :: consumers[i].id != p.id)
          && (forall i | 0 <= i < |ps| :: ps[i].id != p.id)
      requires forall k | k in Completions(events) :: Completions(events)[k].consumerId != p.id
      modifies `pending, `consumers, `events, `nextEventId, `backlog
      ensures Holds(pending, multiset{}) && NoIdleSlot(backlog, consumers)
      ensures pending == ps
      ensures OnlyFills(old(consumers) + [NewConsumer(p.id, simTimeMs, p.slotsPerConsumer)], consumers)
      ensures IsSuffix(backlog, old(backlog))
      ensures Cadences(events) == old(Cadences(events))
    {
      hide Conserved, CompletionsOk, ReadiesOk, IdsOk, Completions, Readies, Cadences, SlotsOnlyFill;
      var consumer := NewConsumer(p.id, simTimeMs, p.slotsPerConsumer);
      pending := RemoveById(pending, p.id);
      CompletionsAfterActivate(Completions(events), consumers, ps, nextConsumerId, consumer);
      ConservedAfterActivate(backlog, consumers, completed, nextTaskId, consumer);
      consumers := consumers + [consumer];
      var dispatched := DrainBacklog(ps);
    }

    method StartConsumerAfterPlannedIncrease(p: Params)
      requires Holds(pending, multiset{}) && NoIdleSlot(backlog, consumers)
      modifies `nextConsumerId, `pending, `consumers, `events, `nextEventId, `backlog
      ensures Holds(pending, multiset{}) && NoIdleSlot(backlog, consumers)
      ensures |consumers| + |pending| == old(|consumers| + |pending|) + 1
      ensures IsSuffix(backlog, old(backlog))
      ensures p.spinUpMs > EPSILON_MS ==>
        && consumers == old(consumers) && backlog == old(backlog)
        && pending == old(pending) + [PendingConsumer(old(nextConsumerId), simTimeMs, SlotsPerConsumer(p))]
        && Event(simTimeMs + p.spinUpMs, ConsumerReady(old(nextConsumerId))) in events.Values
      ensures p.spinUpMs <= EPSILON_MS ==>
        && pending == old(pending)
        && OnlyFills(old(consumers) + [NewConsumer(old(nextConsumerId), simTimeMs, SlotsPerConsumer(p))], consumers)
      ensures Cadences(events) == old(Cadences(events))
    {
      hide Conserved, ReadiesOk, Completions, Readies, Cadences, IdsOk, CompletionsOk, NoIdleSlot, SlotsOnlyFill;
      var starting := PendingConsumer(nextConsumerId, simTimeMs, SlotsPerConsumer(p));
      NewConsumerIdIsUnused(Completions(events), consumers, pending, nextConsumerId);
      nextConsumerId := nextConsumerId + 1;
      if p.spinUpMs <= EPSILON_MS {
        RemoveByIdAbsent(pending, starting.id);
        ActivatePendingConsumer(starting, pending);
      } else {
        ghost var k := nextEventId;
        ScheduledViews(events, k, Event(simTimeMs + p.spinUpMs, ConsumerReady(starting.id)));
        ReadiesAfterPlan(Readies(events), pending, starting, k);
        CompletionsAfterPlan(Completions(events), consumers, pending, nextConsumerId, starting);
        pending := pending + [starting];
        Schedule(simTimeMs + p.spinUpMs, ConsumerReady(starting.id));
        assert k in events && events[k] == Event(simTimeMs + p.spinUpMs, ConsumerReady(starting.id));
      }
    }

    /** The starting consumer planned last; ties go to the larger id. */
    method NewestPending() returns (t: nat)
      requires pending != []
      ensures IsNewestPending(pending, t)
    {
      t := 0;
      for i := 1 to |pending|
        invariant t < |pending| && forall a | 0 <= a < i :: !PlannedAfter(pending[a], pending[t])
      {
        if PlannedAfter(pending[i], pending[t]) {
          t := i;
        }
      }
    }

    /** The active consumer created last; ties go to the larger id. */
    method NewestConsumer() returns (t: nat)
      requires consumers != []
      ensures IsNewestConsumer(consumers, t)
    {
      t := 0;
      for i := 1 to |consumers|
        invariant t < |consumers| && forall a | 0 <= a < i :: !CreatedAfter(consumers[a], consumers[t])
      {
        if CreatedAfter(consumers[i], consumers[t]) {
          t := i;
        }
      }
    }

    /** Cancels the newest starting consumer, or else stops the newest active one and requeues its tasks in front. */
    method ApplyPlannedDecrease() returns (changed: bool)
      requires Holds(pending, multiset{}) && NoIdleSlot(backlog, consumers) && planned >= 0
      modifies `pending, `consumers, `events, `nextEventId, `backlog
      ensures Holds(pending, multiset{}) && NoIdleSlot(backlog, consumers)
      ensures changed <==> old(|consumers| + |pending|) > planned
      ensures |consumers| + |pending| == old(|consumers| + |pending|) - if changed then 1 else 0
      ensures !changed ==> pending == old(pending) && consumers == old(consumers) && backlog == old(backlog)
      ensures changed && old(pending) != [] ==> consumers == old(consumers) && backlog == old(backlog)
      ensures changed && old(pending) != [] ==>
          exists t: nat :: IsNewestPending(old(pending), t) && pending == Without(old(pending), t)
      ensures changed && old(pending) == [] ==> pending == []
      ensures changed && old(pending) == [] ==>
                exists t: nat :: IsNewestConsumer(old(consumers), t) && OnlyFills(Without(old(consumers), t), consumers)
                                 && IsSuffix(backlog, Interrupted(old(consumers)[t].slots) + old(backlog))
      ensures Cadences(events) == old(Cadences(events))
    {
      hide Conserved, ReadiesOk, CompletionsOk, IdsOk, Completions, Readies, Cadences, NoIdleSlot, SlotsOnlyFill;
      if |consumers| + |pending| <= planned {
        return false;
      }
      if pending != [] {
        var t := NewestPending();
        CancelStarting(t);
        return true;
      }
      var t := NewestConsumer();
      StopActive(t);
      return true;
    }

    method CancelStarting(t: nat)
      requires Holds(pending, multiset{}) && t < |pending|
      modifies `pending, `events
      ensures Holds(pending, multiset{}) && pending == Without(old(pending), t) && |pending| == |old(pending)| - 1
      ensures Cadences(events) == old(Cadences(events))
    {
      hide Conserved, ReadiesOk, CompletionsOk, IdsOk, Completions, Readies, Cadences;
      var id := pending[t].id;
      CancelLeavesOrder(events, consumers, pending, nextConsumerId, t);
      CancelledViews(events, id);
      pending := RemoveById(pending, id);
      events := WithoutReady(events, id);
    }

    method StopActive(t: nat)
      requires Holds(pending, multiset{}) && t < |consumers|
      modifies `consumers, `events, `nextEventId, `backlog
      ensures Holds(pending, multiset{}) && NoIdleSlot(backlog, consumers)
      ensures OnlyFills(Without(old(consumers), t), consumers)
      ensures IsSuffix(backlog, Interrupted(old(consumers)[t].slots) + old(backlog))
      ensures Cadences(events) == old(Cadences(events))
    {
      hide Conserved, ReadiesOk, CompletionsOk, IdsOk, Completions, Readies, Cadences, SlotsOnlyFill;
      var interrupted := Interrupted(consumers[t].slots);
      CompletionsAfterStop(Completions(events), consumers, pending, nextConsumerId, t);
      ConservedAfterStop(backlog, consumers, completed, nextTaskId, t);
      consumers := Without(consumers, t);
      backlog := interrupted + backlog;
      var dispatched := DrainBacklog(pending);
    }

    /** Moves the planned count towards the target as far as the bounds allow and starts or stops consumers to match. */
    method UpdatePlannedConsumerCount(nextCount: int, p: Params) returns (changed: bool)
      requires Valid()
      modifies `planned, `nextConsumerId, `pending, `consumers, `events, `nextEventId, `backlog
      ensures Valid()
      ensures planned == BoundPlannedUpdate(p, nextCount, old(planned)) && (changed <==> planned != old(planned))
      ensures Cadences(events) == old(Cadences(events))
    {
      var previous := planned;
      var next := BoundPlannedUpdate(p, nextCount, previous);
      var delta := next - previous;
      if delta == 0 {
        return false;
      }
      hide Conserved, ReadiesOk, CompletionsOk, IdsOk, Completions, Readies, Cadences, NoIdleSlot, OnlyFills,
           IsSuffix, Without, Interrupted;
      planned := next;
      if delta > 0 {
        for i := 0 to delta
          invariant Holds(pending, multiset{}) && NoIdleSlot(backlog, consumers)
          invariant Cadences(events) == old(Cadences(events))
          invariant planned == next && |consumers| + |pending| == previous + i
        {
          StartConsumerAfterPlannedIncrease(p);
        }
      } else {
        for i := 0 to -delta
          invariant Holds(pending, multiset{}) && NoIdleSlot(backlog, consumers)
          invariant Cadences(events) == old(Cadences(events))
          invariant planned == next && |consumers| + |pending| == previous - i
        {
          var stopped := ApplyPlannedDecrease();
        }
      }
      return true;
    }

    lemma PlannedIsCount()
      requires Valid()
      ensures planned == |consumers| + |pending|
    {
    }

    /** One more consumer, unless the maximum is reached or the cooldown is running. */
    method MaybeScaleUpFromNoSync(p: Params) returns (changed: bool)
      requires Valid()
      modifies `planned, `nextConsumerId, `pending, `consumers, `events, `nextEventId, `backlog, `lastScaleUpMs
      ensures Valid()
      ensures changed <==> old(planned) < MaxConsumers(p)
                           && (old(lastScaleUpMs).Some? ==> simTimeMs - old(lastScaleUpMs).value >= p.upCooldownMs)
      ensures planned == old(planned) + (if changed then 1 else 0)
      ensures lastScaleUpMs == if changed then Some(simTimeMs) else old(lastScaleUpMs)
      ensures !changed ==> consumers == old(consumers) && backlog == old(backlog) && pending == old(pending)
      ensures Cadences(events) == old(Cadences(events))
    {
      hide Valid;
      PlannedIsCount();
      if planned >= MaxConsumers(p) {
        return false;
      }
      if lastScaleUpMs.Some? && simTimeMs - lastScaleUpMs.value < p.upCooldownMs {
        return false;
      }
      changed := UpdatePlannedConsumerCount(planned + 1, p);
      if changed {
        lastScaleUpMs := Some(simTimeMs);
      }
    }

    /**
     One arriving task: matched to a free slot if there is one, or else put last in the backlog, which may start a
     consumer.
     */
    method Arrive(p: Params)
      requires Valid()
      modifies `planned, `nextConsumerId, `pending, `consumers, `events, `nextEventId, `backlog, `lastScaleUpMs
      modifies `nextTaskId, `syncMatches, `noSyncMatches
      ensures Valid() && nextTaskId == old(nextTaskId) + 1
      ensures syncMatches == old(syncMatches) + (if old(AllBusy(consumers)) then 0 else 1)
      ensures noSyncMatches == old(noSyncMatches) + (if old(AllBusy(consumers)) then 1 else 0)
      ensures !old(AllBusy(consumers)) ==>
          OnlyFills(old(consumers), consumers) && backlog == old(backlog) && planned == old(planned)
      ensures !old(AllBusy(consumers)) ==>
                exists i: nat, j: nat :: old(IsFirstFree(i, j)) && IsBusyWith(i, j, Task(old(nextTaskId), simTimeMs))
      ensures old(AllBusy(consumers)) && planned == old(planned) ==>
                consumers == old(consumers) && backlog == old(backlog) + [Task(old(nextTaskId), simTimeMs)]
      ensures planned <= old(planned) + 1
      ensures Cadences(events) == old(Cadences(events))
    {
      hide Conserved, ReadiesOk, CompletionsOk, IdsOk, Completions, Readies, Cadences, AllBusy, TaskIds, BusyTasks,
           SlotTasks, Issued, OnlyFills, SlotsOnlyFill, MaxConsumers;
      var task := Task(nextTaskId, simTimeMs);
      ConservedAfterIssue(backlog, consumers, completed, nextTaskId);
      nextTaskId := nextTaskId + 1;
      var free := FindFreeSlot();
      if free.Some? {
        syncMatches := syncMatches + 1;
        FreeMeansNotAllBusy(consumers, free.value.0, free.value.1);
        Match(task, free.value.0, free.value.1);
        assert old(IsFirstFree(free.value.0, free.value.1)) && IsBusyWith(free.value.0, free.value.1, task);
      } else {
        noSyncMatches := noSyncMatches + 1;
        Enqueue(task);
        hide Valid;
        var changed := MaybeScaleUpFromNoSync(p);
      }
    }

    method Match(task: Task, i: nat, j: nat)
      requires Holds(pending, multiset{task.id}) && IsFree(i, j)
      requires backlog == [] && |consumers| + |pending| == planned
      modifies `consumers, `events, `nextEventId
      ensures Valid() && OnlyFills(old(consumers), consumers) && IsBusyWith(i, j, task)
      ensures Cadences(events) == old(Cadences(events))
    {
      hide Conserved, ReadiesOk, CompletionsOk, IdsOk, Completions, Readies, Cadences, AllBusy, TaskIds, BusyTasks,
           SlotTasks, Issued;
      assert OnlyFills(consumers, consumers);
      hide OnlyFills, SlotsOnlyFill;
      FillsOneMore(consumers, consumers, i, j, task);
      AssignTaskToSlot(pending, task, i, j);
    }

    method Enqueue(task: Task)
      requires Holds(pending, multiset{task.id}) && AllBusy(consumers) && |consumers| + |pending| == planned
      modifies `backlog
      ensures Valid() && backlog == old(backlog) + [task]
    {
      hide Conserved, ReadiesOk, CompletionsOk, IdsOk, Completions, Readies, Cadences, AllBusy;
      ConservedAfterQueue(backlog, consumers, completed, nextTaskId, task);
      backlog := backlog + [task];
    }

    method FindConsumer(id: nat) returns (found: Option<nat>)
      ensures found.None? ==> forall i | 0 <= i < |consumers| :: consumers[i].id != id
      ensures found.Some? ==> found.value < |consumers| && consumers[found.value].id == id
    {
      for i := 0 to |consumers|
        invariant forall a | 0 <= a < i :: consumers[a].id != id
      {
        if consumers[i].id == id {
          return Some(i);
        }
      }
      return None;
    }

    /**
     A completion for a removed consumer is stale and ignored. Any other finds its slot still busy with its task, so the
     source's check for a changed slot never fires; the slot takes over the head of the backlog.
     */
    method ProcessCompletion(k: nat)
      requires Valid() && k in events && events[k].kind.Completion?
      modifies `consumers, `events, `nextEventId, `backlog, `completed, `completedCount
      ensures Valid()
      ensures IsLive(old(consumers), old(events[k].kind)) ==>
                completed == old(completed) + multiset{old(events[k].kind).taskId}
      ensures !IsLive(old(consumers), old(events[k].kind)) ==> completed == old(completed)
      ensures IsLive(old(consumers), old(events[k].kind)) ==> exists i: nat ::
                CompletesAt(old(consumers), i, old(events[k].kind))
                && consumers == Refilled(old(consumers), i, old(events[k].kind).slotIndex, old(backlog))
      ensures !IsLive(old(consumers), old(events[k].kind)) ==> consumers == old(consumers) && backlog == old(backlog)
      ensures IsLive(old(consumers), old(events[k].kind)) ==>
          backlog == if old(backlog) == [] then [] else old(backlog)[1..]
      ensures Cadences(events) == old(Cadences(events))
    {
      hide TaskIds, BusyTasks, SlotTasks, Issued;
      hide Conserved, ReadiesOk, CompletionsOk, IdsOk, Completions, Readies, Cadences, NoIdleSlot;
      var e := events[k].kind;
      CompletionKind(events, k);
      TakenViews(events, k);
      var found := FindConsumer(e.consumerId);
      if found.None? {
        CompletionsAfterStale(Completions(events), consumers, pending, nextConsumerId, k);
        events := events - {k};
        assert completed == old(completed) + multiset{};
        return;
      }
      var i, consumer := found.value, consumers[found.value];
      CompletionsAfterFinish(Completions(events), consumers, pending, nextConsumerId, k, i);
      var slot := consumer.slots[e.slotIndex];
      if slot.Free? || slot.task.id != e.taskId {
        assert false;
      }
      ConservedAfterFinish(backlog, consumers, completed, nextTaskId, i, e.slotIndex);
      RefillKeepsAllBusy(backlog, consumers, i, e.slotIndex);
      events := events - {k};
      consumers := consumers[i := consumer.(slots := consumer.slots[e.slotIndex := Free])];
      completedCount := completedCount + 1;
      completed := completed + multiset{e.taskId};
      ghost var freed := consumers;
      RefillSlot(i, e.slotIndex);
      if old(backlog) != [] {
        ghost var next := Busy(old(backlog)[0]);
        UpdateTwice(consumer.slots, e.slotIndex, Free, next);
        UpdateTwice(old(consumers), i, freed[i], consumer.(slots := consumer.slots[e.slotIndex := next]));
      }
      assert CompletesAt(old(consumers), i, e);
      assert consumers == Refilled(old(consumers), i, e.slotIndex, old(backlog));
    }

    /** The slot that has just become free takes over the head of the backlog. */
    method RefillSlot(i: nat, j: nat)
      requires Holds(pending, multiset{}) && IsFree(i, j) && |consumers| + |pending| == planned
      requires backlog != [] ==> forall task ::
                 NoIdleSlot(backlog[1..], consumers[i := consumers[i].(slots := consumers[i].slots[j := Busy(task)])])
      modifies `consumers, `events, `nextEventId, `backlog
      ensures Valid() && backlog == if old(backlog) == [] then [] else old(backlog)[1..]
      ensures consumers == if old(backlog) == [] then old(consumers)
                           else old(consumers[i := consumers[i].(slots := consumers[i].slots[j := Busy(backlog[0])])])
      ensures Cadences(events) == old(Cadences(events))
    {
      hide Conserved, ReadiesOk, CompletionsOk, IdsOk, Completions, Readies, Cadences, AllBusy, TaskIds, BusyTasks,
           SlotTasks, Issued;
      if backlog != [] {
        var task := backlog[0];
        ConservedAfterShift(backlog, consumers, completed, nextTaskId);
        backlog := backlog[1..];
        AssignTaskToSlot(pending, task, i, j);
      }
    }

    method ProcessConsumerReady(k: nat)
      requires Valid() && k in events && events[k].kind.ConsumerReady?
      modifies `pending, `consumers, `events, `nextEventId, `backlog
      ensures Valid() && IsSuffix(backlog, old(backlog))
      ensures exists t: nat ::
                && t < |old(pending)| && old(pending)[t].id == old(events[k].kind).consumerId
                && pending == Without(old(pending), t)
                && var slots := old(pending)[t].slotsPerConsumer;
                   OnlyFills(old(consumers) + [NewConsumer(old(pending)[t].id, simTimeMs, slots)], consumers)
      ensures Cadences(events) == old(Cadences(events))
    {
      hide Conserved, ReadiesOk, CompletionsOk, IdsOk, Completions, Readies, Cadences, NoIdleSlot, RemoveById,
           Without;
      var t := FindPending(k);
      ReadyLeavesOrder(events, consumers, pending, nextConsumerId, k, t);
      TakenViews(events, k);
      events := events - {k};
      ActivatePendingConsumer(pending[t], Without(pending, t));
    }

    /** Every ready event names a starting consumer, so the source's find never fails. */
    method FindPending(k: nat) returns (t: nat)
      requires ReadiesOk(Readies(events), pending) && k in events && events[k].kind.ConsumerReady?
      ensures t < |pending| && pending[t].id == events[k].kind.consumerId
    {
      ghost var id := events[k].kind.consumerId;
      assert Readies(events)[k] == ConsumerReady(id) && IsPending(pending, id);
      t := 0;
      while pending[t].id != events[k].kind.consumerId
        invariant t < |pending| && forall a | 0 <= a < t :: pending[a].id != id
        decreases |pending| - t
      {
        t := t + 1;
      }
    }

    /** Drops the scheduled arrivals and, if they go on, schedules the next one. */
    method ScheduleNextArrival()
      requires Valid()
      modifies `events, `nextEventId
      ensures Valid() && Cadences(events) == old(Cadences(events))
    {
      hide Conserved, ReadiesOk, CompletionsOk, IdsOk, Completions, Readies, Cadences, NoIdleSlot;
      DroppedViews(events, true);
      events := WithoutTimers(events, true);
      var arrivalsContinue: bool := *;
      if arrivalsContinue {
        var gap: real := *;
        var at := simTimeMs + if gap < 0.0 then 0.0 else gap;
        ScheduledViews(events, nextEventId, Event(at, Arrival(1, false)));
        Schedule(at, Arrival(1, false));
      }
    }

    /** Drops the scheduled cadences and schedules the next one, a second from now or later. */
    method ScheduleNextCadence()
      requires Valid()
      modifies `events, `nextEventId
      ensures Valid() && HasOneCadence(events, simTimeMs + 1000.0)
    {
      hide Conserved, ReadiesOk, CompletionsOk, IdsOk, Completions, Readies, Cadences, NoIdleSlot;
      DroppedViews(events, false);
      events := WithoutTimers(events, false);
      var cadenceMs: real := *;
      var at := simTimeMs + if cadenceMs < 1000.0 then 1000.0 else cadenceMs;
      ScheduledViews(events, nextEventId, Event(at, Cadence));
      ghost var k := nextEventId;
      Schedule(at, Cadence);
      assert Cadences(events) == map[k := Event(at, Cadence)];
      assert k in Cadences(events) && Cadences(events).Keys == {k} && Cadences(events)[k].at >= simTimeMs + 1000.0;
    }

    method ProcessArrival(k: nat, p: Params)
      requires Valid() && k in events && events[k].kind.Arrival?
      modifies `planned, `nextConsumerId, `pending, `consumers, `events, `nextEventId, `backlog, `lastScaleUpMs
      modifies `nextTaskId, `syncMatches, `noSyncMatches
      ensures Valid()
      ensures nextTaskId == old(nextTaskId) + Max(1, old(events[k].kind.count))
      ensures syncMatches + noSyncMatches == old(syncMatches + noSyncMatches) + Max(1, old(events[k].kind.count))
      ensures Cadences(events) == old(Cadences(events))
    {
      hide Conserved, ReadiesOk, CompletionsOk, IdsOk, Completions, Readies, Cadences, NoIdleSlot;
      var e := events[k].kind;
      TakenViews(events, k);
      events := events - {k};
      var count := if e.count == 0 then 1 else e.count;
      for i := 0 to count
        invariant Valid() && nextTaskId == old(nextTaskId) + i
        invariant Cadences(events) == old(Cadences(events))
        invariant syncMatches + noSyncMatches == old(syncMatches + noSyncMatches) + i
      {
        Arrive(p);
      }
      if !e.manual {
        ScheduleNextArrival();
      }
    }

    /**
     The scaler's decision is an arbitrary target here; the engine has to follow any. A scale-up leaves its time behind;
     so does one whose maximum has fallen below the count, which then shrinks.
     */
    method ProcessCadence(k: nat, target: int, p: Params)
      requires Valid() && k in events && events[k].kind.Cadence?
      modifies `planned, `nextConsumerId, `pending, `consumers, `events, `nextEventId, `backlog, `lastScaleUpMs
      ensures Valid() && planned == BoundPlannedUpdate(p, target, old(planned))
      ensures lastScaleUpMs == old(lastScaleUpMs) || lastScaleUpMs == Some(simTimeMs)
      ensures planned > old(planned) ==> lastScaleUpMs == Some(simTimeMs)
      ensures planned == old(planned) ==> lastScaleUpMs == old(lastScaleUpMs)
      ensures HasOneCadence(events, simTimeMs + 1000.0)
    {
      hide Conserved, ReadiesOk, CompletionsOk, IdsOk, Completions, Readies, Cadences, NoIdleSlot;
      TakenViews(events, k);
      events := events - {k};
      var meantUp: bool := *;
      var before := planned;
      var changed := UpdatePlannedConsumerCount(target, p);
      if changed && (meantUp || planned > before) {
        lastScaleUpMs := Some(simTimeMs);
      }
      ScheduleNextCadence();
    }

    method ProcessEvent(k: nat, p: Params)
      requires Valid() && k in events
      modifies this
      ensures Valid() && simTimeMs == old(events[k].at) && old(completed) <= completed && old(nextTaskId) <= nextTaskId
      ensures if old(events[k].kind).Cadence? then HasOneCadence(events, simTimeMs + 1000.0)
              else Cadences(events) == old(Cadences(events))
    {
      hide Valid, MaxConsumers, BoundPlannedUpdate, IsSuffix, Without, IsLive, Refilled, Cadences, HasOneCadence;
      simTimeMs := events[k].at;
      match events[k].kind
      case Arrival(_, _) => ProcessArrival(k, p);
      case Completion(_, _, _) => ProcessCompletion(k);
      case ConsumerReady(_) => ProcessConsumerReady(k);
      case Cadence =>
        var target: int := *;
        ProcessCadence(k, target, p);
    }

    /** The add-task and burst buttons. */
    method AddManualArrival(count: nat)
      requires Valid()
      modifies `events, `nextEventId
      ensures Valid()
      ensures Cadences(events) == old(Cadences(events))
    {
      hide Conserved, ReadiesOk, CompletionsOk, IdsOk, Completions, Readies, Cadences, NoIdleSlot;
      ScheduledViews(events, nextEventId, Event(simTimeMs, Arrival(count, true)));
      Schedule(simTimeMs, Arrival(count, true));
    }

    /** reset: the initial consumers, within the bounds, are active at once. */
    constructor (p: Params, initial: nat)
      ensures Valid() && planned == |consumers| == Min(MaxConsumers(p), Max(p.minConsumers, initial))
      ensures nextTaskId == 1 && backlog == [] && completed == multiset{}
    {
      var count := Min(MaxConsumers(p), Max(p.minConsumers, initial));
      simTimeMs := 0.0;
      events := map[];
      nextEventId := 1;
      nextTaskId := 1;
      nextConsumerId := count + 1;
      consumers := InitialConsumers(count, SlotsPerConsumer(p));
      pending := [];
      backlog := [];
      planned := count;
      lastScaleUpMs := None;
      syncMatches, noSyncMatches, completedCount := 0, 0, 0;
      completed := multiset{};
      new;
      hide Conserved, ReadiesOk, CompletionsOk, IdsOk, Completions, Readies, Cadences, InitialConsumers, NoIdleSlot;
      InitiallyInOrder(count, SlotsPerConsumer(p));
    }

    /** The rest of reset: the first arrival and the first cadence. */
    method ScheduleTimers()
      requires Valid()
      modifies `events, `nextEventId
      ensures Valid() && HasOneCadence(events, simTimeMs + 1000.0)
    {
      ScheduleNextArrival();
      ScheduleNextCadence();
    }

    /**
     Any number of events, taken in any order, under any inputs, with buttons pressed in between. The next scaling
     decision stays scheduled, and only once.
     */
    method Run(steps: nat)
      requires Valid()
      modifies this
      ensures Valid() && old(completed) <= completed && old(nextTaskId) <= nextTaskId
      ensures old(|Cadences(events)|) == 1 ==> |Cadences(events)| == 1
    {
      hide Valid, Cadences, HasOneCadence;
      for i := 0 to steps
        invariant Valid() && old(completed) <= completed && old(nextTaskId) <= nextTaskId
        invariant old(|Cadences(events)|) == 1 ==> |Cadences(events)| == 1
      {
        var p: Params := *;
        var burst: bool := *;
        if burst {
          var count: nat := *;
          AddManualArrival(count);
        } else if events != map[] {
          var k :| k in events;
          ProcessEvent(k, p);
          OneCadence(events, simTimeMs + 1000.0);
        }
      }
    }
  }

  /** A fresh simulation, run for any number of events. */
  method Simulate(p: Params, initial: nat, steps: nat) returns (e: Engine)
    ensures fresh(e) && e.Valid() && |Cadences(e.events)| == 1
  {
    e := new Engine(p, initial);
    e.ScheduleTimers();
    OneCadence(e.events, e.simTimeMs + 1000.0);
    e.Run(steps);
  }

  lemma UpdateTwice<T>(s: seq<T>, i: nat, x: T, y: T)
    requires i < |s|
    ensures s[i := x][i := y] == s[i := y]
  {
  }

  /** The completion names an active consumer. */
  predicate IsLive(cs: seq<Consumer>, e: EventKind)
    requires e.Completion?
  {
    exists i :: 0 <= i < |cs| && cs[i].id == e.consumerId
  }

  /** The slot whose task is done is free, or has the head of the backlog. */
  function Refilled(cs: seq<Consumer>, i: nat, j: nat, backlog: seq<Task>): seq<Consumer>
    requires i < |cs| && j < |cs[i].slots|
  {
    cs[i := cs[i].(slots := cs[i].slots[j := if backlog == [] then Free else Busy(backlog[0])])]
  }

  /** The completion is that of a busy slot of consumer i. */
  predicate CompletesAt(cs: seq<Consumer>, i: nat, e: EventKind)
    requires e.Completion?
  {
    && i < |cs| && cs[i].id == e.consumerId && e.slotIndex < |cs[i].slots|
    && cs[i].slots[e.slotIndex].Busy? && cs[i].slots[e.slotIndex].task.id == e.taskId
  }

  lemma CompletionKind(q: EventQueue, k: nat)
    requires k in q && q[k].kind.Completion?
    ensures k in Completions(q) && Completions(q)[k] == q[k].kind
  {
  }

  /** Exactly one cadence is scheduled, and not before the given time. */
  ghost predicate HasOneCadence(q: EventQueue, earliest: real) {
    exists j :: j in Cadences(q) && Cadences(q).Keys == {j} && Cadences(q)[j].at >= earliest
  }

  lemma OneCadence(q: EventQueue, earliest: real)
    ensures HasOneCadence(q, earliest) ==> |Cadences(q)| == 1
  {
    assert |Cadences(q)| == |Cadences(q).Keys|;
  }

  predicate IsTimer(kind: EventKind, arrivals: bool) { if arrivals then kind.Arrival? else kind.Cadence? }

  function WithoutTimers(q: EventQueue, arrivals: bool): EventQueue {
    map k | k in q && !IsTimer(q[k].kind, arrivals) :: q[k]
  }

  lemma DroppedViews(q: EventQueue, arrivals: bool)
    ensures Completions(WithoutTimers(q, arrivals)) == Completions(q)
        && Readies(WithoutTimers(q, arrivals)) == Readies(q)
    ensures Cadences(WithoutTimers(q, arrivals)) == if arrivals then Cadences(q) else map[]
  {
  }

  function NewConsumer(id: nat, createdAt: real, slots: nat): Consumer {
    Consumer(id, createdAt, FreeSlots(slots))
  }

  function FreeSlots(n: nat): (slots: seq<Slot>)
    ensures |slots| == n && forall s | s in slots :: s.Free?
  {
    if n == 0 then [] else FreeSlots(n - 1) + [Free]
  }

  function InitialConsumers(count: nat, slots: nat): (cs: seq<Consumer>)
    ensures |cs| == count && BusyTasks(cs) == multiset{}
    ensures forall i | 0 <= i < count :: cs[i] == Consumer(i + 1, 0.0, FreeSlots(slots))
  {
    if count == 0 then [] else
      var rest, c := InitialConsumers(count - 1, slots), Consumer(count, 0.0, FreeSlots(slots));
      BusyTasksAppend(rest, c);
      NoTasksInFreeSlots(c.slots);
      rest + [c]
  }

  lemma InitiallyInOrder(count: nat, slots: nat)
    requires slots >= 1
    ensures
      var cs := InitialConsumers(count, slots);
      && IdsOk(cs, [], count + 1) && NoIdleSlot([], cs)
      && CompletionsOk(Completions(map[]), cs, [], count + 1) && ReadiesOk(Readies(map[]), [])
      && Conserved([], cs, multiset{}, multiset{}, 1)
  {
    assert Completions(map[]) == map[] && Readies(map[]) == map[];
  }

  /** The one ready event of a starting consumer. */
  lemma ReadyTaken(q: EventQueue, k: nat, id: nat, ps: seq<PendingConsumer>)
    requires ReadiesOk(Readies(q), ps) && k in q && q[k].kind == ConsumerReady(id)
    ensures Readies(q - {k}) == map j | j in Readies(q) && Readies(q)[j] != ConsumerReady(id) :: Readies(q)[j]
    ensures Completions(q - {k}) == Completions(q)
  {
    TakenViews(q, k);
    assert Readies(q)[k] == ConsumerReady(id);
  }

  lemma ReadyLeavesOrder(q: EventQueue, cs: seq<Consumer>, ps: seq<PendingConsumer>, nextConsumerId: nat, k: nat,
                         t: nat)
    requires IdsOk(cs, ps, nextConsumerId) && CompletionsOk(Completions(q), cs, ps, nextConsumerId)
        && ReadiesOk(Readies(q), ps)
    requires t < |ps| && k in q && q[k].kind == ConsumerReady(ps[t].id)
    ensures
      var ps' := Without(ps, t);
      && ps' == RemoveById(ps, ps[t].id) && |ps'| == |ps| - 1 && ps[t].id < nextConsumerId
          && ps[t].slotsPerConsumer >= 1
      && IdsOk(cs, ps', nextConsumerId) && CompletionsOk(Completions(q - {k}), cs, ps', nextConsumerId)
      && ReadiesOk(Readies(q - {k}), ps')
      && (forall i | 0 <= i < |cs| :: cs[i].id != ps[t].id) && (forall i | 0 <= i < |ps'| :: ps'[i].id != ps[t].id)
      && (forall j | j in Completions(q - {k}) :: Completions(q - {k})[j].consumerId != ps[t].id)
  {
    ReadyTaken(q, k, ps[t].id, ps);
    CompletionsAfterUnplan(Completions(q), cs, ps, nextConsumerId, t);
    hide CompletionsOk, ReadiesOk, Completions, Readies;
    RemoveByIdPresent(ps, t);
    ReadiesAfterUnplan(Readies(q), ps, t, Readies(q - {k}));
  }

  lemma ConservedAfterFinish(backlog: seq<Task>, cs: seq<Consumer>, completed: multiset<nat>, nextTaskId: nat, i: nat,
                             j: nat)
    requires Conserved(backlog, cs, completed, multiset{}, nextTaskId)
    requires i < |cs| && j < |cs[i].slots| && cs[i].slots[j].Busy?
    ensures
      var c := cs[i].(slots := cs[i].slots[j := Free]);
      Conserved(backlog, cs[i := c], completed + multiset{cs[i].slots[j].task.id}, multiset{}, nextTaskId)
  {
    var c, done := cs[i].(slots := cs[i].slots[j := Free]), multiset{cs[i].slots[j].task.id};
    SlotTasksUpdate(cs[i].slots, j, Free);
    BusyTasksUpdate(cs, i, c);
    GainOne(BusyTasks(cs), SlotTasks(c.slots), BusyTasks(cs[i := c]), SlotTasks(cs[i].slots), done);
    assert TaskIds(backlog) + (BusyTasks(cs[i := c]) + done) + completed + multiset{}
        == TaskIds(backlog) + BusyTasks(cs[i := c]) + (completed + done) + multiset{};
  }

  /** Refilling the slot that just became free restores a fully busy pool. */
  lemma RefillKeepsAllBusy(backlog: seq<Task>, cs: seq<Consumer>, i: nat, j: nat)
    requires NoIdleSlot(backlog, cs) && i < |cs| && j < |cs[i].slots|
    ensures
      var freed := cs[i := cs[i].(slots := cs[i].slots[j := Free])];
      && (backlog == [] ==> NoIdleSlot(backlog, freed))
      && (backlog != [] ==> forall task ::
            NoIdleSlot(backlog[1..], freed[i := freed[i].(slots := freed[i].slots[j := Busy(task)])]))
  {
  }

  lemma FreeMeansNotAllBusy(cs: seq<Consumer>, i: nat, j: nat)
    requires i < |cs| && j < |cs[i].slots| && cs[i].slots[j].Free?
    ensures !AllBusy(cs)
  {
  }

  /** The entry that the source's sort puts first. */
  ghost predicate IsNewestPending(ps: seq<PendingConsumer>, t: nat) {
    t < |ps| && forall i | 0 <= i < |ps| ::
      ps[i].plannedAt < ps[t].plannedAt || (ps[i].plannedAt == ps[t].plannedAt && ps[i].id <= ps[t].id)
  }

  ghost predicate IsNewestConsumer(cs: seq<Consumer>, t: nat) {
    t < |cs| && forall i | 0 <= i < |cs| ::
      cs[i].createdAt < cs[t].createdAt || (cs[i].createdAt == cs[t].createdAt && cs[i].id <= cs[t].id)
  }

  predicate PlannedAfter(a: PendingConsumer, b: PendingConsumer) {
    a.plannedAt > b.plannedAt || (a.plannedAt == b.plannedAt && a.id > b.id)
  }

  predicate CreatedAfter(a: Consumer, b: Consumer) {
    a.createdAt > b.createdAt || (a.createdAt == b.createdAt && a.id > b.id)
  }

  function WithoutReady(q: EventQueue, id: nat): EventQueue {
    map k | k in q && q[k].kind != ConsumerReady(id) :: q[k]
  }

  lemma CancelledViews(q: EventQueue, id: nat)
    ensures Completions(WithoutReady(q, id)) == Completions(q) && Cadences(WithoutReady(q, id)) == Cadences(q)
    ensures Readies(WithoutReady(q, id))
         == map k | k in Readies(q) && Readies(q)[k] != ConsumerReady(id) :: Readies(q)[k]
  {
  }

  lemma CancelLeavesOrder(q: EventQueue, cs: seq<Consumer>, ps: seq<PendingConsumer>, nextConsumerId: nat, t: nat)
    requires IdsOk(cs, ps, nextConsumerId) && CompletionsOk(Completions(q), cs, ps, nextConsumerId)
        && ReadiesOk(Readies(q), ps)
    requires t < |ps|
    ensures
      var q', ps' := WithoutReady(q, ps[t].id), RemoveById(ps, ps[t].id);
      && ps' == Without(ps, t)
      && IdsOk(cs, ps', nextConsumerId) && CompletionsOk(Completions(q'), cs, ps', nextConsumerId)
          && ReadiesOk(Readies(q'), ps')
  {
    var id := ps[t].id;
    assert forall a, b | 0 <= a < b < |ps| :: ps[a].id != ps[b].id;
    CancelledViews(q, id);
    RemoveByIdPresent(ps, t);
    hide Completions, Readies, CompletionsOk;
    CompletionsAfterUnplan(Completions(q), cs, ps, nextConsumerId, t);
    hide IdsOk, ReadiesOk;
    ReadiesAfterUnplan(Readies(q), ps, t, Readies(WithoutReady(q, id)));
  }

  lemma ConservedAfterStop(backlog: seq<Task>, cs: seq<Consumer>, completed: multiset<nat>, nextTaskId: nat, t: nat)
    requires t < |cs| && Conserved(backlog, cs, completed, multiset{}, nextTaskId)
    ensures Conserved(Interrupted(cs[t].slots) + backlog, Without(cs, t), completed, multiset{}, nextTaskId)
  {
    var moved, rest := SlotTasks(cs[t].slots), BusyTasks(Without(cs, t));
    TaskIdsAppend(Interrupted(cs[t].slots), backlog);
    BusyTasksWithout(cs, t);
    Move(moved, TaskIds(backlog), rest, completed);
  }

  lemma Move(moved: multiset<nat>, a: multiset<nat>, b: multiset<nat>, c: multiset<nat>)
    ensures (moved + a) + b + c + multiset{} == a + (b + moved) + c + multiset{}
  {
  }

  lemma ConservedAfterIssue(backlog: seq<Task>, cs: seq<Consumer>, completed: multiset<nat>, nextTaskId: nat)
    requires nextTaskId >= 1 && Conserved(backlog, cs, completed, multiset{}, nextTaskId)
    ensures Conserved(backlog, cs, completed, multiset{nextTaskId}, nextTaskId + 1)
  {
    var places := TaskIds(backlog) + BusyTasks(cs) + completed;
    assert places + multiset{} == places;
  }

  lemma ConservedAfterQueue(backlog: seq<Task>, cs: seq<Consumer>, completed: multiset<nat>, nextTaskId: nat,
                            task: Task)
    requires Conserved(backlog, cs, completed, multiset{task.id}, nextTaskId)
    ensures Conserved(backlog + [task], cs, completed, multiset{}, nextTaskId)
  {
    TaskIdsAppend(backlog, [task]);
    assert TaskIds([task]) == multiset{task.id} + TaskIds([]);
    Move(multiset{task.id}, TaskIds(backlog), BusyTasks(cs), completed);
    assert TaskIds(backlog) + (BusyTasks(cs) + multiset{task.id}) + completed + multiset{}
        == TaskIds(backlog) + BusyTasks(cs) + completed + multiset{task.id};
    assert TaskIds(backlog + [task]) == multiset{task.id} + TaskIds(backlog);
  }

  /** The next consumer id has never been used. */
  lemma NewConsumerIdIsUnused(done: map<nat, EventKind>, cs: seq<Consumer>, ps: seq<PendingConsumer>,
                              nextConsumerId: nat)
    requires IdsOk(cs, ps, nextConsumerId) && CompletionsOk(done, cs, ps, nextConsumerId)
    ensures IdsOk(cs, ps, nextConsumerId + 1) && CompletionsOk(done, cs, ps, nextConsumerId + 1)
    ensures (forall i | 0 <= i < |cs| :: cs[i].id != nextConsumerId)
        && (forall i | 0 <= i < |ps| :: ps[i].id != nextConsumerId)
    ensures forall k | k in done :: done[k].Completion? && done[k].consumerId != nextConsumerId
  {
  }

  lemma CompletionsAfterPlan(done: map<nat, EventKind>, cs: seq<Consumer>, ps: seq<PendingConsumer>,
                             nextConsumerId: nat, p: PendingConsumer)
    requires IdsOk(cs, ps, nextConsumerId) && CompletionsOk(done, cs, ps, nextConsumerId)
    requires p.id < nextConsumerId && p.slotsPerConsumer >= 1
    requires (forall i | 0 <= i < |cs| :: cs[i].id != p.id) && (forall i | 0 <= i < |ps| :: ps[i].id != p.id)
    requires forall k | k in done :: done[k].consumerId != p.id
    ensures CompletionsOk(done, cs, ps + [p], nextConsumerId) && IdsOk(cs, ps + [p], nextConsumerId)
  {
  }

  lemma ConservedAfterShift(backlog: seq<Task>, cs: seq<Consumer>, completed: multiset<nat>, nextTaskId: nat)
    requires backlog != [] && Conserved(backlog, cs, completed, multiset{}, nextTaskId)
    ensures Conserved(backlog[1..], cs, completed, multiset{backlog[0].id}, nextTaskId)
  {
    var first, rest := multiset{backlog[0].id}, TaskIds(backlog[1..]);
    assert (first + rest) + BusyTasks(cs) + completed + multiset{} == rest + BusyTasks(cs) + completed + first;
  }

  lemma ConservedAfterActivate(backlog: seq<Task>, cs: seq<Consumer>, completed: multiset<nat>, nextTaskId: nat,
                               c: Consumer)
    requires Conserved(backlog, cs, completed, multiset{}, nextTaskId) && forall s | s in c.slots :: s.Free?
    ensures Conserved(backlog, cs + [c], completed, multiset{}, nextTaskId)
  {
    NoTasksInFreeSlots(c.slots);
    BusyTasksAppend(cs, c);
    assert BusyTasks(cs) + multiset{} == BusyTasks(cs);
  }

  lemma ConservedAfterAssign(backlog: seq<Task>, cs: seq<Consumer>, completed: multiset<nat>, nextTaskId: nat, i: nat,
                             j: nat, task: Task)
    requires Conserved(backlog, cs, completed, multiset{task.id}, nextTaskId)
    requires i < |cs| && j < |cs[i].slots| && cs[i].slots[j].Free?
    ensures
      var c := cs[i].(slots := cs[i].slots[j := Busy(task)]);
      Conserved(backlog, cs[i := c], completed, multiset{}, nextTaskId)
  {
    var c := cs[i].(slots := cs[i].slots[j := Busy(task)]);
    SlotTasksUpdate(cs[i].slots, j, Busy(task));
    BusyTasksUpdate(cs, i, c);
    GainOne(BusyTasks(cs[i := c]), SlotTasks(cs[i].slots), BusyTasks(cs), SlotTasks(c.slots), multiset{task.id});
    Regroup(TaskIds(backlog), BusyTasks(cs), completed, multiset{task.id});
  }

  lemma GainOne(after: multiset<nat>, slotBefore: multiset<nat>, before: multiset<nat>, slotAfter: multiset<nat>,
                gained: multiset<nat>)
    requires after + slotBefore == before + slotAfter && slotAfter + multiset{} == slotBefore + gained
    ensures after == before + gained
  {
    assert (after + slotBefore) - slotBefore == after;
    assert (before + (slotBefore + gained)) - slotBefore == before + gained;
    assert slotAfter == slotBefore + gained;
  }

  lemma Regroup(a: multiset<nat>, b: multiset<nat>, c: multiset<nat>, d: multiset<nat>)
    ensures a + b + c + d == a + (b + d) + c + multiset{}
  {
  }
}
