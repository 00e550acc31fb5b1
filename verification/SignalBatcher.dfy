/**
 Batching of task-add signals per worker controller instance. The mutex makes each call one step; the clock is read
 before the lock, so the readings that successive steps bring may come in any order.
 */
module SignalBatcher {
  import opened Arithmetic

  /**
   Counts since the last send; stamp is the reading that the last send carried, 0 before the first. Times are in
   nanoseconds.
   */
  datatype Batch = Batch(stamp: int, sync: nat, noSync: nat)

  const EMPTY := Batch(0, 0, 0)

  /** A batch handed over: the reading it was stamped with, its counts and the interval it had to wait for. */
  datatype Send = Send(stamp: int, sync: nat, noSync: nat, interval: int)

  function Counted(b: Batch, isSync: bool): Batch {
    if isSync then b.(sync := b.sync + 1) else b.(noSync := b.noSync + 1)
  }

  function SyncInterval(configured: int): int { if configured <= 0 then 60_000 else configured }

  function NoSyncInterval(configured: int): int { if configured <= 0 then 500 else configured }

  /** One no-sync match in the batch is enough for the shorter wait. */
  function IntervalFor(b: Batch, syncConfigured: int, noSyncConfigured: int): int {
    1_000_000 * if b.noSync > 0 then NoSyncInterval(noSyncConfigured) else SyncInterval(syncConfigured)
  }

  /** The batch to send now, if the last send is long enough ago. */
  function Due(b: Batch, syncConfigured: int, noSyncConfigured: int, now: int): Option<Send> {
    var interval := IntervalFor(b, syncConfigured, noSyncConfigured);
    if b.stamp + interval < now then Some(Send(now, b.sync, b.noSync, interval)) else None
  }

  function TotalSync(sends: seq<Send>): nat {
    if sends == [] then 0 else TotalSync(sends[..|sends| - 1]) + sends[|sends| - 1].sync
  }

  function TotalNoSync(sends: seq<Send>): nat {
    if sends == [] then 0 else TotalNoSync(sends[..|sends| - 1]) + sends[|sends| - 1].noSync
  }

  function LastStamp(sends: seq<Send>): int {
    if sends == [] then 0 else sends[|sends| - 1].stamp
  }

  /**
   Every send is stamped more than its interval after the one before it, the first one after the epoch; none is empty.
   */
  predicate Spaced(sends: seq<Send>) {
    forall i | 0 <= i < |sends| ::
      && sends[i].interval > 0 && sends[i].sync + sends[i].noSync > 0
      && sends[i].stamp > LastStamp(sends[..i]) + sends[i].interval
  }

  /** What has happened to one id: the events seen, by kind, and the batches sent. */
  datatype History = History(seenSync: nat, seenNoSync: nat, sends: seq<Send>)

  const NOTHING := History(0, 0, [])

  /** The history with one more event and perhaps one more send. */
  function Recorded(h: History, isSync: bool, sent: Option<Send>): History {
    History(
      h.seenSync + if isSync then 1 else 0,
      h.seenNoSync + if isSync then 0 else 1,
      h.sends + if sent.Some? then [sent.value] else [])
  }

  /** Seen = sent + pending, kind by kind, and the sends are spaced. */
  predicate Accounted(b: Batch, h: History) {
    && h.seenSync == TotalSync(h.sends) + b.sync
    && h.seenNoSync == TotalNoSync(h.sends) + b.noSync
    && b.stamp == LastStamp(h.sends)
    && Spaced(h.sends)
  }

  class TaskHook {
    var lastSignalDetails: map<string, Batch>
    ghost var history: map<string, History>

    constructor ()
      ensures Valid() && forall id :: Pending(id) == EMPTY && Past(id) == NOTHING
    {
      lastSignalDetails, history := map[], map[];
    }

    function Pending(id: string): Batch
      reads `lastSignalDetails
    {
      if id in lastSignalDetails then lastSignalDetails[id] else EMPTY
    }

    ghost function Past(id: string): History
      reads `history
    {
      if id in history then history[id] else NOTHING
    }

    ghost predicate Valid()
      reads this
    {
      forall id :: Accounted(Pending(id), Past(id))
    }

    /** batchMatchSignals. */
    method BatchMatchSignals(id: string, isSync: bool, now: int, syncConfigured: int, noSyncConfigured: int)
      returns (sync: nat, noSync: nat, skip: bool)
      requires Valid()
      modifies this
      ensures Valid()
      ensures forall other | other != id :: Pending(other) == old(Pending(other)) && Past(other) == old(Past(other))
      ensures sync == Counted(old(Pending(id)), isSync).sync && noSync == Counted(old(Pending(id)), isSync).noSync
      ensures var due := Due(Counted(old(Pending(id)), isSync), syncConfigured, noSyncConfigured, now);
        && skip == due.None?
        && Pending(id) == (if skip then Counted(old(Pending(id)), isSync) else Batch(now, 0, 0))
        && Past(id) == Recorded(old(Past(id)), isSync, due)
      ensures sync == old(Pending(id)).sync + (if isSync then 1 else 0)
      ensures noSync == old(Pending(id)).noSync + (if isSync then 0 else 1)
      ensures
        var ms := if noSync > 0 then (if noSyncConfigured > 0 then noSyncConfigured else 500)
                  else if syncConfigured > 0 then syncConfigured else 60_000;
        !skip <==> now > old(Pending(id)).stamp + 1_000_000 * ms
      ensures Pending(id) == if skip then Batch(old(Pending(id)).stamp, sync, noSync) else Batch(now, 0, 0)
      ensures Past(id).sends == old(Past(id)).sends + if skip then [] else [Past(id).sends[|old(Past(id)).sends|]]
      ensures !skip ==>
        var sent := Past(id).sends[|old(Past(id)).sends|];
        sent.stamp == now && sent.sync == sync && sent.noSync == noSync
    {
      hide Accounted, Spaced, LastStamp, TotalSync, TotalNoSync;
      var last := EMPTY;
      if id in lastSignalDetails {
        last := lastSignalDetails[id];
      }
      ghost var pending, past := last, Past(id);
      assert pending == Pending(id) && Accounted(pending, past);
      hide Valid, Pending, Past, Recorded;
      if isSync {
        last := last.(sync := last.sync + 1);
      } else {
        last := last.(noSync := last.noSync + 1);
      }
      var sendBy := SendBy(last, syncConfigured, noSyncConfigured);
      sync, noSync := last.sync, last.noSync;
      ghost var due := Due(last, syncConfigured, noSyncConfigured, now);
      CallIsAccounted(pending, past, isSync, syncConfigured, noSyncConfigured, now);
      skip := now <= sendBy;
      if !skip {
        last := Batch(now, 0, 0);
      }
      Store(id, last, Recorded(past, isSync, due));
    }

    /** The reading after which the batch is due. */
    static method SendBy(b: Batch, syncConfigured: int, noSyncConfigured: int) returns (due: int)
      ensures due == b.stamp + IntervalFor(b, syncConfigured, noSyncConfigured)
    {
      var minSync := syncConfigured;
      if minSync <= 0 {
        minSync := 60_000;
      }
      due := b.stamp + minSync * 1_000_000;
      if b.noSync > 0 {
        var minNoSync := noSyncConfigured;
        if minNoSync <= 0 {
          minNoSync := 500;
        }
        due := b.stamp + minNoSync * 1_000_000;
      }
    }

    method Store(id: string, batch: Batch, ghost past: History)
      requires Valid() && Accounted(batch, past)
      modifies this
      ensures Valid() && Pending(id) == batch && Past(id) == past
      ensures forall other | other != id :: Pending(other) == old(Pending(other)) && Past(other) == old(Past(other))
    {
      hide Accounted;
      lastSignalDetails := lastSignalDetails[id := batch];
      history := history[id := past];
      forall other
        ensures Accounted(Pending(other), Past(other))
      {
        assert old(Accounted(Pending(other), Past(other)));
      }
    }
  }

  /** Counting one event and sending the batch, if it is due, keep an id's history accounted for. */
  lemma CallIsAccounted(b: Batch, h: History, isSync: bool, syncConfigured: int, noSyncConfigured: int, now: int)
    requires Accounted(b, h)
    ensures var c := Counted(b, isSync);
      var due := Due(c, syncConfigured, noSyncConfigured, now);
      Accounted(if due.Some? then Batch(now, 0, 0) else c, Recorded(h, isSync, due))
  {
    var c := Counted(b, isSync);
    var due := Due(c, syncConfigured, noSyncConfigured, now);
    if due.Some? {
      SendStep(h.sends, due.value);
    } else {
      assert h.sends + [] == h.sends;
    }
  }

  /**
   A batch is sent exactly if its last send is longer ago than the no-sync interval (500 ms unless configured), or than
   the sync interval (60 s unless configured) when it holds no no-sync match; it goes out whole.
   */
  lemma DueByRule(b: Batch, isSync: bool, syncConfigured: int, noSyncConfigured: int, now: int)
    ensures
      var due := Due(Counted(b, isSync), syncConfigured, noSyncConfigured, now);
      var noSync := b.noSync + if isSync then 0 else 1;
      var ms := if noSync > 0 then (if noSyncConfigured > 0 then noSyncConfigured else 500)
                else if syncConfigured > 0 then syncConfigured else 60_000;
      && (due.Some? <==> now - b.stamp > 1_000_000 * ms)
      && (due.Some? ==> due.value == Send(now, b.sync + (if isSync then 1 else 0), noSync, 1_000_000 * ms))
  {
  }

  lemma SendStep(sends: seq<Send>, s: Send)
    requires Spaced(sends) && s.interval > 0 && s.sync + s.noSync > 0 && s.stamp > LastStamp(sends) + s.interval
    ensures Spaced(sends + [s]) && LastStamp(sends + [s]) == s.stamp
    ensures TotalSync(sends + [s]) == TotalSync(sends) + s.sync
    ensures TotalNoSync(sends + [s]) == TotalNoSync(sends) + s.noSync
  {
    var longer := sends + [s];
    assert longer[..|sends|] == sends;
    forall i | 0 <= i < |longer|
      ensures && longer[i].interval > 0 && longer[i].sync + longer[i].noSync > 0
              && longer[i].stamp > LastStamp(longer[..i]) + longer[i].interval
    {
      if i < |sends| {
        assert longer[..i] == sends[..i] && longer[i] == sends[i];
      }
    }
  }

  // ----- What spacing means for a receiver -----

  function SendsWithin(sends: seq<Send>, first: int, last: int): nat {
    if sends == [] then 0
    else
      var n := |sends| - 1;
      SendsWithin(sends[..n], first, last) + if first <= sends[n].stamp <= last then 1 else 0
  }

  lemma SpacedPrefix(sends: seq<Send>, n: nat)
    requires Spaced(sends) && n <= |sends|
    ensures Spaced(sends[..n])
  {
    forall i | 0 <= i < n
      ensures LastStamp(sends[..n][..i]) == LastStamp(sends[..i])
    {
      assert sends[..n][..i] == sends[..i];
    }
  }

  /** The sends stamped within a range fit into slots that end with the last send. */
  lemma {:induction false} SendsFitSlots(sends: seq<Send>, first: int, last: int, gap: int)
    requires Spaced(sends) && gap > 0 && forall s | s in sends :: s.interval >= gap
    ensures SendsWithin(sends, first, last) <= Slots(first, Min(last, LastStamp(sends)), gap)
    decreases |sends|
  {
    if sends != [] {
      var n := |sends| - 1;
      var rest, s := sends[..n], sends[n];
      SpacedPrefix(sends, n);
      SendsFitSlots(rest, first, last, gap);
      assert s.stamp > LastStamp(rest) + gap;
      hide Spaced, SendsWithin, Slots;
      SlotsMonotone(first, Min(last, LastStamp(rest)), Min(last, s.stamp), gap);
      if first <= s.stamp <= last {
        SlotsMonotone(first, Min(last, LastStamp(rest)), s.stamp - gap, gap);
        SlotsAtEnd(first, s.stamp, gap);
      }
    }
  }

  lemma SlotsMonotone(first: int, last: int, later: int, gap: int)
    requires gap > 0 && last <= later
    ensures Slots(first, last, gap) <= Slots(first, later, gap)
  {
    SlotsShift(first, last, later - last, gap);
    SlotsAntitone(first, first + (later - last), later, gap);
  }

  lemma SlotsAtEnd(first: int, last: int, gap: int)
    requires gap > 0 && first <= last
    ensures Slots(first, last, gap) == 1 + Slots(first, last - gap, gap)
  {
    SlotsShift(first, last - gap, gap, gap);
  }

  /**
   However the clock readings are ordered, a window of the given width holds the stamps of at most width / gap + 1 sends
   to one workflow, gap being the least interval in force.
   */
  lemma SendRateBound(sends: seq<Send>, first: int, width: nat, gap: int)
    requires Spaced(sends) && gap > 0 && forall s | s in sends :: s.interval >= gap
    ensures SendsWithin(sends, first, first + width) <= width / gap + 1
  {
    hide Spaced, SendsWithin, Slots;
    SendsFitSlots(sends, first, first + width, gap);
    SlotsMonotone(first, Min(first + width, LastStamp(sends)), first + width, gap);
    SlotsInWindow(first, width, gap);
  }

  /** Stamps grow along the sends, whatever readings the calls bring. */
  lemma {:induction false} StampsGrow(sends: seq<Send>, i: nat, j: nat)
    requires Spaced(sends) && i < j < |sends|
    ensures sends[i].stamp + sends[j].interval < sends[j].stamp
    decreases j
  {
    assert LastStamp(sends[..j]) == sends[j - 1].stamp;
    if i < j - 1 {
      StampsGrow(sends, i, j - 1);
    }
  }
}
