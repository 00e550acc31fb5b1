/**
 The simulator's state and the invariant of its engine, as predicates on values with one lemma per elementary change.
 */
module SimulatorState {
  datatype Task = Task(id: nat, arrivedAt: real)

  datatype Slot = Free | Busy(task: Task)

  datatype Consumer = Consumer(id: nat, createdAt: real, slots: seq<Slot>)

  datatype PendingConsumer = PendingConsumer(id: nat, plannedAt: real, slotsPerConsumer: nat)

  datatype EventKind =
    | Arrival(count: nat, manual: bool)
    | Completion(consumerId: nat, slotIndex: nat, taskId: nat)
    | ConsumerReady(consumerId: nat)
    | Cadence

  datatype Event = Event(at: real, kind: EventKind)

  /** The event queue by event id; the engine never relies on the order in which events are taken. */
  type EventQueue = map<nat, Event>

  // ----- Where the tasks are -----

  function TaskIn(s: Slot): multiset<nat> {
    if s.Busy? then multiset{s.task.id} else multiset{}
  }

  function SlotTasks(slots: seq<Slot>): multiset<nat> {
    if slots == [] then multiset{} else TaskIn(slots[0]) + SlotTasks(slots[1..])
  }

  function BusyTasks(cs: seq<Consumer>): multiset<nat> {
    if cs == [] then multiset{} else SlotTasks(cs[0].slots) + BusyTasks(cs[1..])
  }

  function TaskIds(tasks: seq<Task>): multiset<nat> {
    if tasks == [] then multiset{} else multiset{tasks[0].id} + TaskIds(tasks[1..])
  }

  /** Every id handed out so far, once. */
  function Issued(nextTaskId: nat): multiset<nat> {
    if nextTaskId <= 1 then multiset{} else Issued(nextTaskId - 1) + multiset{nextTaskId - 1}
  }

  /** The tasks of the busy slots, in slot order. */
  function Interrupted(slots: seq<Slot>): (tasks: seq<Task>)
    ensures TaskIds(tasks) == SlotTasks(slots)
  {
    if slots == [] then []
    else if slots[0].Free? then Interrupted(slots[1..])
    else
      var rest := Interrupted(slots[1..]);
      assert ([slots[0].task] + rest)[1..] == rest;
      [slots[0].task] + rest
  }

  lemma {:induction false} TaskIdsAppend(a: seq<Task>, b: seq<Task>)
    ensures TaskIds(a + b) == TaskIds(a) + TaskIds(b)
  {
    if a == [] {
      assert a + b == b;
    } else {
      assert (a + b)[1..] == a[1..] + b;
      TaskIdsAppend(a[1..], b);
    }
  }

  lemma SumShift(a: multiset<nat>, b1: multiset<nat>, x1: multiset<nat>, b2: multiset<nat>, x2: multiset<nat>)
    requires b1 + x1 == b2 + x2
    ensures (a + b1) + x1 == (a + b2) + x2
  {
    assert (a + b1) + x1 == a + (b1 + x1) == (a + b2) + x2;
  }

  lemma SwapEnds(a: multiset<nat>, b: multiset<nat>, x: multiset<nat>)
    ensures (a + b) + x == (x + b) + a
  {
  }

  lemma {:induction false} SlotTasksUpdate(slots: seq<Slot>, j: nat, s: Slot)
    requires j < |slots|
    ensures SlotTasks(slots[j := s]) + TaskIn(slots[j]) == SlotTasks(slots) + TaskIn(s)
  {
    var updated := slots[j := s];
    assert SlotTasks(slots) == TaskIn(slots[0]) + SlotTasks(slots[1..]);
    assert SlotTasks(updated) == TaskIn(updated[0]) + SlotTasks(updated[1..]);
    hide *;
    if j > 0 {
      assert updated[0] == slots[0] && updated[1..] == slots[1..][j - 1 := s];
      SlotTasksUpdate(slots[1..], j - 1, s);
      SumShift(TaskIn(slots[0]), SlotTasks(updated[1..]), TaskIn(slots[j]), SlotTasks(slots[1..]), TaskIn(s));
    } else {
      assert updated[0] == s && updated[1..] == slots[1..];
      SwapEnds(TaskIn(s), SlotTasks(slots[1..]), TaskIn(slots[0]));
    }
  }

  lemma {:induction false} BusyTasksUpdate(cs: seq<Consumer>, i: nat, c: Consumer)
    requires i < |cs|
    ensures BusyTasks(cs[i := c]) + SlotTasks(cs[i].slots) == BusyTasks(cs) + SlotTasks(c.slots)
  {
    var updated := cs[i := c];
    assert BusyTasks(cs) == SlotTasks(cs[0].slots) + BusyTasks(cs[1..]);
    assert BusyTasks(updated) == SlotTasks(updated[0].slots) + BusyTasks(updated[1..]);
    hide *;
    if i > 0 {
      assert updated[0] == cs[0] && updated[1..] == cs[1..][i - 1 := c];
      BusyTasksUpdate(cs[1..], i - 1, c);
      SumShift(SlotTasks(cs[0].slots), BusyTasks(updated[1..]), SlotTasks(cs[i].slots),
               BusyTasks(cs[1..]), SlotTasks(c.slots));
    } else {
      assert updated[0] == c && updated[1..] == cs[1..];
      SwapEnds(SlotTasks(c.slots), BusyTasks(cs[1..]), SlotTasks(cs[0].slots));
    }
  }

  lemma {:induction false} BusyTasksAppend(cs: seq<Consumer>, c: Consumer)
    ensures BusyTasks(cs + [c]) == BusyTasks(cs) + SlotTasks(c.slots)
  {
    if cs == [] {
      assert cs + [c] == [c];
    } else {
      assert (cs + [c])[1..] == cs[1..] + [c];
      BusyTasksAppend(cs[1..], c);
    }
  }

  function BusyCount(slots: seq<Slot>): nat {
    if slots == [] then 0 else (if slots[0].Busy? then 1 else 0) + BusyCount(slots[1..])
  }

  /** Interrupted tasks come in the order of their slots, each busy slot's once. */
  lemma {:induction false} InterruptedInOrder(slots: seq<Slot>, i: nat)
    ensures |Interrupted(slots)| == BusyCount(slots)
    ensures i < |slots| && slots[i].Busy? ==>
              BusyCount(slots[..i]) < BusyCount(slots) && Interrupted(slots)[BusyCount(slots[..i])] == slots[i].task
  {
    if slots != [] {
      InterruptedInOrder(slots[1..], if i > 0 then i - 1 else 0);
      if 0 < i < |slots| {
        assert slots[..i][1..] == slots[1..][..i - 1];
      }
    }
  }

  function Without<T>(s: seq<T>, i: nat): seq<T>
    requires i < |s|
  {
    s[..i] + s[i + 1..]
  }

  lemma {:induction false} BusyTasksWithout(cs: seq<Consumer>, i: nat)
    requires i < |cs|
    ensures BusyTasks(Without(cs, i)) + SlotTasks(cs[i].slots) == BusyTasks(cs)
  {
    if i > 0 {
      assert Without(cs, i)[1..] == Without(cs[1..], i - 1);
      BusyTasksWithout(cs[1..], i - 1);
    } else {
      assert Without(cs, i) == cs[1..];
    }
  }

  lemma {:induction false} NoTasksInFreeSlots(slots: seq<Slot>)
    requires forall s | s in slots :: s.Free?
    ensures SlotTasks(slots) == multiset{}
  {
    if slots != [] {
      assert slots[0] in slots;
      NoTasksInFreeSlots(slots[1..]);
    }
  }

  lemma {:induction false} SlotTaskIsBusy(slots: seq<Slot>, j: nat)
    requires j < |slots| && slots[j].Busy?
    ensures slots[j].task.id in SlotTasks(slots)
  {
    if j > 0 {
      SlotTaskIsBusy(slots[1..], j - 1);
    }
  }

  lemma {:induction false} ConsumerTasksAreBusy(cs: seq<Consumer>, i: nat)
    requires i < |cs|
    ensures SlotTasks(cs[i].slots) <= BusyTasks(cs)
  {
    if i > 0 {
      ConsumerTasksAreBusy(cs[1..], i - 1);
    }
  }

  // ----- Identity of consumers -----

  ghost predicate IdsOk(cs: seq<Consumer>, ps: seq<PendingConsumer>, nextConsumerId: nat) {
    && (forall i | 0 <= i < |cs| :: cs[i].id < nextConsumerId && |cs[i].slots| >= 1)
    && (forall i | 0 <= i < |ps| :: ps[i].id < nextConsumerId && ps[i].slotsPerConsumer >= 1)
    && (forall i, j | 0 <= i < j < |cs| :: cs[i].id != cs[j].id)
    && (forall i, j | 0 <= i < j < |ps| :: ps[i].id != ps[j].id)
    && (forall i, j | 0 <= i < |cs| && 0 <= j < |ps| :: cs[i].id != ps[j].id)
  }

  // ----- Events -----

  function Completions(q: EventQueue): map<nat, EventKind> {
    map k | k in q && q[k].kind.Completion? :: q[k].kind
  }

  function Readies(q: EventQueue): map<nat, EventKind> {
    map k | k in q && q[k].kind.ConsumerReady? :: q[k].kind
  }

  function Cadences(q: EventQueue): EventQueue {
    map k | k in q && q[k].kind.Cadence? :: q[k]
  }

  predicate Targets(e: EventKind, consumerId: nat, slotIndex: nat) {
    e.Completion? && e.consumerId == consumerId && e.slotIndex == slotIndex
  }

  /** A free slot awaits no completion; a busy one exactly one, and it names the slot's task. */
  ghost predicate SlotOk(done: map<nat, EventKind>, consumerId: nat, j: nat, s: Slot) {
    if s.Free? then forall k | k in done :: !Targets(done[k], consumerId, j)
    else exists k :: AwaitedBy(done, consumerId, j, s.task.id, k)
  }

  ghost predicate AwaitedBy(done: map<nat, EventKind>, consumerId: nat, j: nat, taskId: nat, k: nat) {
    && k in done && done[k] == Completion(consumerId, j, taskId)
    && forall k' | k' in done && Targets(done[k'], consumerId, j) :: k' == k
  }

  ghost predicate SlotsOk(done: map<nat, EventKind>, c: Consumer) {
    && (forall j | 0 <= j < |c.slots| :: SlotOk(done, c.id, j, c.slots[j]))
    && (forall k | k in done && done[k].Completion? && done[k].consumerId == c.id :: done[k].slotIndex < |c.slots|)
  }

  /**
   Completion events name slots of active consumers as they are, or consumers that were removed, but never starting
   ones.
   */
  ghost predicate CompletionsOk(done: map<nat, EventKind>, cs: seq<Consumer>, ps: seq<PendingConsumer>,
                                nextConsumerId: nat) {
    && (forall i | 0 <= i < |cs| :: SlotsOk(done, cs[i]))
    && (forall k | k in done :: done[k].Completion? && done[k].consumerId < nextConsumerId)
    && (forall k, i | k in done && 0 <= i < |ps| :: done[k].consumerId != ps[i].id)
  }

  ghost predicate IsPending(ps: seq<PendingConsumer>, id: nat) {
    exists i :: 0 <= i < |ps| && ps[i].id == id
  }

  ghost predicate HasReady(ready: map<nat, EventKind>, id: nat) {
    exists k :: k in ready && ready[k] == ConsumerReady(id)
  }

  /** Starting consumers and ready events are in bijection. */
  ghost predicate ReadiesOk(ready: map<nat, EventKind>, ps: seq<PendingConsumer>) {
    && (forall k | k in ready :: ready[k].ConsumerReady? && IsPending(ps, ready[k].consumerId))
    && (forall i | 0 <= i < |ps| :: HasReady(ready, ps[i].id))
    && (forall k, k' | k in ready && k' in ready && ready[k] == ready[k'] :: k == k')
  }

  lemma CompletionsAfterAssign(done: map<nat, EventKind>, cs: seq<Consumer>, ps: seq<PendingConsumer>,
                               nextConsumerId: nat,
                               i: nat, j: nat, task: Task, k: nat)
    requires IdsOk(cs, ps, nextConsumerId) && CompletionsOk(done, cs, ps, nextConsumerId)
    requires i < |cs| && j < |cs[i].slots| && cs[i].slots[j].Free? && k !in done
    ensures
      var c := cs[i].(slots := cs[i].slots[j := Busy(task)]);
      var done' := done[k := Completion(cs[i].id, j, task.id)];
      CompletionsOk(done', cs[i := c], ps, nextConsumerId) && IdsOk(cs[i := c], ps, nextConsumerId)
  {
    var c := cs[i].(slots := cs[i].slots[j := Busy(task)]);
    var cs' := cs[i := c];
    var done' := done[k := Completion(cs[i].id, j, task.id)];
    forall a | 0 <= a < |cs'|
      ensures SlotsOk(done', cs'[a])
    {
      forall b | 0 <= b < |cs'[a].slots|
        ensures SlotOk(done', cs'[a].id, b, cs'[a].slots[b])
      {
        if a == i && b == j {
          assert AwaitedBy(done', c.id, j, task.id, k);
        } else {
          assert SlotOk(done, cs[a].id, b, cs[a].slots[b]);
          if cs[a].slots[b].Busy? {
            var k' :| AwaitedBy(done, cs[a].id, b, cs[a].slots[b].task.id, k');
            assert AwaitedBy(done', cs[a].id, b, cs[a].slots[b].task.id, k');
          }
        }
      }
    }
  }

  lemma CompletionsAfterFinish(done: map<nat, EventKind>, cs: seq<Consumer>, ps: seq<PendingConsumer>,
                               nextConsumerId: nat,
                               k: nat, i: nat)
    requires IdsOk(cs, ps, nextConsumerId) && CompletionsOk(done, cs, ps, nextConsumerId)
    requires k in done && i < |cs| && done[k].consumerId == cs[i].id
    ensures done[k].slotIndex < |cs[i].slots|
    ensures cs[i].slots[done[k].slotIndex].Busy? && cs[i].slots[done[k].slotIndex].task.id == done[k].taskId
    ensures
      var c := cs[i].(slots := cs[i].slots[done[k].slotIndex := Free]);
      CompletionsOk(done - {k}, cs[i := c], ps, nextConsumerId) && IdsOk(cs[i := c], ps, nextConsumerId)
  {
    var j := done[k].slotIndex;
    assert SlotsOk(done, cs[i]);
    assert SlotOk(done, cs[i].id, j, cs[i].slots[j]);
    assert Targets(done[k], cs[i].id, j);
    var c := cs[i].(slots := cs[i].slots[j := Free]);
    var cs' := cs[i := c];
    forall a | 0 <= a < |cs'|
      ensures SlotsOk(done - {k}, cs'[a])
    {
      forall b | 0 <= b < |cs'[a].slots|
        ensures SlotOk(done - {k}, cs'[a].id, b, cs'[a].slots[b])
      {
        if !(a == i && b == j) {
          assert SlotOk(done, cs[a].id, b, cs[a].slots[b]);
          SlotKept(done, cs[a].id, b, cs[a].slots[b], k);
        }
      }
    }
  }

  /** Taking away an event aimed elsewhere leaves a slot's events as they are. */
  lemma SlotKept(done: map<nat, EventKind>, consumerId: nat, j: nat, s: Slot, k: nat)
    requires SlotOk(done, consumerId, j, s) && (k in done ==> !Targets(done[k], consumerId, j))
    ensures SlotOk(done - {k}, consumerId, j, s)
  {
    if s.Busy? {
      var k' :| AwaitedBy(done, consumerId, j, s.task.id, k');
      assert AwaitedBy(done - {k}, consumerId, j, s.task.id, k');
    }
  }

  lemma CompletionsAfterStale(done: map<nat, EventKind>, cs: seq<Consumer>, ps: seq<PendingConsumer>,
                              nextConsumerId: nat, k: nat)
    requires CompletionsOk(done, cs, ps, nextConsumerId)
    requires k in done && forall i | 0 <= i < |cs| :: cs[i].id != done[k].consumerId
    ensures CompletionsOk(done - {k}, cs, ps, nextConsumerId)
  {
    forall a | 0 <= a < |cs|
      ensures SlotsOk(done - {k}, cs[a])
    {
      forall b | 0 <= b < |cs[a].slots|
        ensures SlotOk(done - {k}, cs[a].id, b, cs[a].slots[b])
      {
        SlotKept(done, cs[a].id, b, cs[a].slots[b], k);
      }
    }
  }

  /** A consumer that becomes active: nothing in the queue names it yet. */
  lemma CompletionsAfterActivate(done: map<nat, EventKind>, cs: seq<Consumer>, ps: seq<PendingConsumer>,
                                 nextConsumerId: nat, c: Consumer)
    requires IdsOk(cs, ps, nextConsumerId) && CompletionsOk(done, cs, ps, nextConsumerId)
    requires c.id < nextConsumerId && |c.slots| >= 1 && forall s | s in c.slots :: s.Free?
    requires (forall i | 0 <= i < |cs| :: cs[i].id != c.id) && (forall i | 0 <= i < |ps| :: ps[i].id != c.id)
    requires forall k | k in done :: done[k].consumerId != c.id
    ensures CompletionsOk(done, cs + [c], ps, nextConsumerId) && IdsOk(cs + [c], ps, nextConsumerId)
  {
    assert SlotsOk(done, c);
  }

  lemma CompletionsAfterStop(done: map<nat, EventKind>, cs: seq<Consumer>, ps: seq<PendingConsumer>,
                             nextConsumerId: nat, i: nat)
    requires IdsOk(cs, ps, nextConsumerId) && CompletionsOk(done, cs, ps, nextConsumerId) && i < |cs|
    ensures CompletionsOk(done, Without(cs, i), ps, nextConsumerId) && IdsOk(Without(cs, i), ps, nextConsumerId)
  {
    forall a | 0 <= a < |Without(cs, i)|
      ensures SlotsOk(done, Without(cs, i)[a])
    {
      assert Without(cs, i)[a] == cs[if a < i then a else a + 1];
    }
  }

  lemma CompletionsAfterUnplan(done: map<nat, EventKind>, cs: seq<Consumer>, ps: seq<PendingConsumer>,
                               nextConsumerId: nat, i: nat)
    requires IdsOk(cs, ps, nextConsumerId) && CompletionsOk(done, cs, ps, nextConsumerId) && i < |ps|
    ensures CompletionsOk(done, cs, Without(ps, i), nextConsumerId) && IdsOk(cs, Without(ps, i), nextConsumerId)
    ensures forall a | 0 <= a < |Without(ps, i)| :: Without(ps, i)[a].id != ps[i].id
    ensures (forall a | 0 <= a < |cs| :: cs[a].id != ps[i].id)
        && (forall k | k in done :: done[k].consumerId != ps[i].id)
  {
    assert forall a | 0 <= a < |Without(ps, i)| :: Without(ps, i)[a] == ps[if a < i then a else a + 1];
  }

  lemma ReadiesAfterUnplan(ready: map<nat, EventKind>, ps: seq<PendingConsumer>, i: nat, ready': map<nat, EventKind>)
    requires ReadiesOk(ready, ps) && i < |ps|
    requires forall a, b | 0 <= a < b < |ps| :: ps[a].id != ps[b].id
    requires ready' == map k | k in ready && ready[k] != ConsumerReady(ps[i].id) :: ready[k]
    ensures ReadiesOk(ready', Without(ps, i))
  {
    var ps' := Without(ps, i);
    forall k | k in ready'
      ensures IsPending(ps', ready'[k].consumerId)
    {
      var a :| 0 <= a < |ps| && ps[a].id == ready[k].consumerId;
      assert ps'[if a < i then a else a - 1] == ps[a];
    }
    forall a | 0 <= a < |ps'|
      ensures HasReady(ready', ps'[a].id)
    {
      var b := if a < i then a else a + 1;
      assert ps'[a] == ps[b] && HasReady(ready, ps[b].id);
      var k :| k in ready && ready[k] == ConsumerReady(ps[b].id);
      assert k in ready';
    }
  }

  lemma ReadiesAfterPlan(ready: map<nat, EventKind>, ps: seq<PendingConsumer>, p: PendingConsumer, k: nat)
    requires ReadiesOk(ready, ps) && k !in ready
    requires forall i | 0 <= i < |ps| :: ps[i].id != p.id
    ensures ReadiesOk(ready[k := ConsumerReady(p.id)], ps + [p])
  {
    var ready', ps' := ready[k := ConsumerReady(p.id)], ps + [p];
    assert ps'[|ps|] == p && ready'[k] == ConsumerReady(p.id);
    forall j | j in ready'
      ensures IsPending(ps', ready'[j].consumerId)
    {
      if j != k {
        assert IsPending(ps, ready[j].consumerId);
        var a :| 0 <= a < |ps| && ps[a].id == ready[j].consumerId;
        assert ps'[a] == ps[a];
      }
    }
    forall a | 0 <= a < |ps'|
      ensures HasReady(ready', ps'[a].id)
    {
      if a < |ps| {
        assert HasReady(ready, ps[a].id);
        var j :| j in ready && ready[j] == ConsumerReady(ps[a].id);
        assert ready'[j] == ConsumerReady(ps'[a].id);
      }
    }
    assert !IsPending(ps, p.id);
    assert forall j | j in ready :: ready[j] != ConsumerReady(p.id);
  }

  // ----- Conservation and work conservation -----

  /** Backlog, busy slots, finished tasks and the given ones together are the issued ids, each once. */
  ghost predicate Conserved(backlog: seq<Task>, cs: seq<Consumer>, completed: multiset<nat>, extra: multiset<nat>,
                            nextTaskId: nat) {
    TaskIds(backlog) + BusyTasks(cs) + completed + extra == Issued(nextTaskId)
  }

  ghost predicate NoIdleSlot(backlog: seq<Task>, cs: seq<Consumer>) {
    backlog != [] ==> AllBusy(cs)
  }

  predicate AllBusy(cs: seq<Consumer>) {
    forall i, j | 0 <= i < |cs| && 0 <= j < |cs[i].slots| :: cs[i].slots[j].Busy?
  }

  /** Conservation spelled out: each issued id is in exactly one place, and there once. */
  lemma EachTaskInExactlyOnePlace(backlog: seq<Task>, cs: seq<Consumer>, completed: multiset<nat>, nextTaskId: nat,
                                  id: nat)
    requires Conserved(backlog, cs, completed, multiset{}, nextTaskId)
    ensures TaskIds(backlog)[id] + BusyTasks(cs)[id] + completed[id] == (if 1 <= id < nextTaskId then 1 else 0)
  {
    var places := TaskIds(backlog) + BusyTasks(cs) + completed;
    assert places + multiset{} == places;
    IssuedOnce(nextTaskId, id);
  }

  lemma {:induction false} IssuedOnce(nextTaskId: nat, id: nat)
    ensures Issued(nextTaskId)[id] == if 1 <= id < nextTaskId then 1 else 0
  {
    if nextTaskId > 1 {
      IssuedOnce(nextTaskId - 1, id);
    }
  }

  // ----- What dispatching may change -----

  /** The same consumers, with every busy slot as it was. */
  ghost predicate OnlyFills(before: seq<Consumer>, after: seq<Consumer>) {
    && |after| == |before|
    && forall i | 0 <= i < |before| :: SlotsOnlyFill(before[i], after[i])
  }

  ghost predicate SlotsOnlyFill(before: Consumer, after: Consumer) {
    && (after.id, after.createdAt) == (before.id, before.createdAt)
    && |after.slots| == |before.slots|
    && forall j | 0 <= j < |before.slots| && before.slots[j].Busy? :: after.slots[j] == before.slots[j]
  }

  lemma FillsNothing(cs: seq<Consumer>)
    ensures OnlyFills(cs, cs)
  {
  }

  lemma FillsOneMore(before: seq<Consumer>, cs: seq<Consumer>, i: nat, j: nat, task: Task)
    requires OnlyFills(before, cs) && i < |cs| && j < |cs[i].slots| && cs[i].slots[j].Free?
    ensures OnlyFills(before, cs[i := cs[i].(slots := cs[i].slots[j := Busy(task)])])
  {
    var c := cs[i].(slots := cs[i].slots[j := Busy(task)]);
    assert SlotsOnlyFill(before[i], cs[i]);
    assert SlotsOnlyFill(before[i], c);
  }

  ghost predicate IsSuffix(s: seq<Task>, t: seq<Task>) {
    |s| <= |t| && s == t[|t| - |s|..]
  }
}
