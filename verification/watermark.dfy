/** The body of the polling callback: read the `lastSaleTime` watermark,
    sort the fetched batch, and walk it, writing each event's creation time to
    the cache before handing the event to `formatAndSendEmbed`. The fetch and
    the timer are not modelled: the callback runs on the response it got, and
    "now" is a given instant in milliseconds. */
module Watermark {
  import opened Wrappers
  import opened SaleEvent
  import opened SaleOrder

  const MinuteMillis := 60000
  const DefaultLagMillis := 59000

  /** Luxon's `toUnixInteger`: whole seconds, rounded down. */
  function UnixSeconds(ms: int): (r: int)
    ensures r * 1000 <= ms < r * 1000 + 1000
  {
    ms / 1000
  }

  lemma UnixSecondsMonotone(a: int, b: int)
    requires a <= b
    ensures UnixSeconds(a) <= UnixSeconds(b)
  {
  }

  /** `startOf('minute')` on an instant whose zone offset is a whole number of
      minutes. */
  function StartOfMinute(ms: int): (r: int)
    ensures r % MinuteMillis == 0
    ensures r <= ms < r + MinuteMillis
  {
    ms - ms % MinuteMillis
  }

  /** `DateTime.now().startOf('minute').minus(59000).toUnixInteger()`: the
      start of the current minute less 59 seconds, i.e. the second that is one
      second past the start of the previous minute. */
  function DefaultWatermark(nowMillis: int): (r: int)
    ensures (r + 59) % 60 == 0
    ensures r * 1000 + DefaultLagMillis <= nowMillis < r * 1000 + DefaultLagMillis + MinuteMillis
  {
    var m := StartOfMinute(nowMillis);
    var r := UnixSeconds(m - DefaultLagMillis);
    assert m == (m / MinuteMillis) * MinuteMillis;
    assert m - DefaultLagMillis == (m / MinuteMillis) * 60000 - 59000;
    assert r == (m / MinuteMillis) * 60 - 59;
    r
  }

  /** `cache.get('lastSaleTime', null) || default`: the stored value unless it
      is absent or falsy (a stored 0 also falls back to the default). */
  function ReadWatermark(cache: Option<int>, nowMillis: int): (r: int)
    ensures cache.Some? && cache.value != 0 ==> r == cache.value
    ensures cache.None? || cache.value == 0 ==> r == DefaultWatermark(nowMillis)
  {
    if cache.Some? && cache.value != 0 then cache.value else DefaultWatermark(nowMillis)
  }

  /** The observable steps of one callback, in program order. */
  datatype Action = SetLastSaleTime(seconds: int) | HandOff(event: RawEvent)

  datatype CycleResult = CycleResult(trace: seq<Action>, cache: Option<int>)

  /** `_.each` over the sorted events: write the watermark, then hand off. */
  function Walk(events: seq<RawEvent>, cache: Option<int>): (r: CycleResult)
    ensures |r.trace| == 2 * |events|
    ensures events == [] ==> r.cache == cache
    ensures events != [] ==> r.cache == Some(UnixSeconds(Key(events[|events| - 1])))
    decreases |events|
  {
    if events == [] then CycleResult([], cache)
    else
      var t := UnixSeconds(Key(events[0]));
      var rest := Walk(events[1..], Some(t));
      CycleResult([SetLastSaleTime(t), HandOff(events[0])] + rest.trace, rest.cache)
  }

  /** The walk writes the watermark for the i-th event right before handing
      that event off. */
  lemma {:induction false} WalkInterleaves(events: seq<RawEvent>, cache: Option<int>, i: int)
    requires 0 <= i < |events|
    ensures Walk(events, cache).trace[2 * i] == SetLastSaleTime(UnixSeconds(Key(events[i])))
    ensures Walk(events, cache).trace[2 * i + 1] == HandOff(events[i])
    decreases |events|
  {
    if i > 0 {
      var t := UnixSeconds(Key(events[0]));
      WalkInterleaves(events[1..], Some(t), i - 1);
    }
  }

  /** One callback on the fetch's outcome. `None` is a failed request, or a
      response without `asset_events`: then `events.length` throws before the
      walk and the `.catch` swallows it. The watermark read is not used. */
  function RunCycle(cache: Option<int>, response: Option<seq<RawEvent>>): (r: CycleResult)
    ensures response.None? ==> r.trace == [] && r.cache == cache
    ensures response.Some? ==> |r.trace| == 2 * |response.value|
  {
    match response
    case None => CycleResult([], cache)
    case Some(batch) => Walk(SortByCreated(batch), cache)
  }

  /** The events handed off, in order. */
  function HandOffs(trace: seq<Action>): (r: seq<RawEvent>)
    ensures |r| <= |trace|
  {
    if trace == [] then [] else HandOffOf(trace[0]) + HandOffs(trace[1..])
  }

  /** The watermark writes, in order. */
  function Writes(trace: seq<Action>): (r: seq<int>)
    ensures |r| <= |trace|
  {
    if trace == [] then [] else WriteOf(trace[0]) + Writes(trace[1..])
  }

  /** The creation seconds of `events`, in order. */
  function SecondsOf(events: seq<RawEvent>): (r: seq<int>)
    ensures |r| == |events|
    ensures forall i :: 0 <= i < |events| ==> r[i] == UnixSeconds(Key(events[i]))
    decreases |events|
  {
    if events == [] then [] else [UnixSeconds(Key(events[0]))] + SecondsOf(events[1..])
  }

  function HandOffOf(a: Action): seq<RawEvent> {
    if a.HandOff? then [a.event] else []
  }

  function WriteOf(a: Action): seq<int> {
    if a.SetLastSaleTime? then [a.seconds] else []
  }

  lemma {:induction false} HandOffsAppend(a: seq<Action>, b: seq<Action>)
    ensures HandOffs(a + b) == HandOffs(a) + HandOffs(b)
    decreases |a|
  {
    if a == [] {
      assert a + b == b;
    } else {
      var ab := a + b;
      assert ab[0] == a[0];
      assert ab[1..] == a[1..] + b;
      assert HandOffs(ab) == HandOffOf(a[0]) + HandOffs(a[1..] + b);
      HandOffsAppend(a[1..], b);
      assert HandOffs(a) == HandOffOf(a[0]) + HandOffs(a[1..]);
    }
  }

  lemma {:induction false} WritesAppend(a: seq<Action>, b: seq<Action>)
    ensures Writes(a + b) == Writes(a) + Writes(b)
    decreases |a|
  {
    if a == [] {
      assert a + b == b;
    } else {
      var ab := a + b;
      assert ab[0] == a[0];
      assert ab[1..] == a[1..] + b;
      assert Writes(ab) == WriteOf(a[0]) + Writes(a[1..] + b);
      WritesAppend(a[1..], b);
      assert Writes(a) == WriteOf(a[0]) + Writes(a[1..]);
    }
  }

  /** The walk unrolled once: the write and hand-off of the first event,
      then the walk of the rest. */
  lemma WalkUnfold(events: seq<RawEvent>, cache: Option<int>)
    requires events != []
    ensures var t := UnixSeconds(Key(events[0]));
            Walk(events, cache).trace
              == [SetLastSaleTime(t), HandOff(events[0])] + Walk(events[1..], Some(t)).trace
  {
  }

  lemma {:induction false} WalkHandOffs(events: seq<RawEvent>, cache: Option<int>)
    ensures HandOffs(Walk(events, cache).trace) == events
    decreases |events|
  {
    if events != [] {
      var t := UnixSeconds(Key(events[0]));
      var head := [SetLastSaleTime(t), HandOff(events[0])];
      var rest := Walk(events[1..], Some(t)).trace;
      WalkUnfold(events, cache);
      WalkHandOffs(events[1..], Some(t));
      HandOffsAppend(head, rest);
      assert head[1..][1..] == [];
      assert HandOffs(head) == [events[0]];
      assert events == [events[0]] + events[1..];
    }
  }

  lemma {:induction false} WalkWrites(events: seq<RawEvent>, cache: Option<int>)
    ensures Writes(Walk(events, cache).trace) == SecondsOf(events)
    decreases |events|
  {
    if events != [] {
      var t := UnixSeconds(Key(events[0]));
      var head := [SetLastSaleTime(t), HandOff(events[0])];
      var rest := Walk(events[1..], Some(t)).trace;
      WalkUnfold(events, cache);
      WalkWrites(events[1..], Some(t));
      WritesAppend(head, rest);
      assert head[1..][1..] == [];
      assert Writes(head) == [t];
    }
  }

  /** Every fetched event is handed off, duplicates included, in the stable
      ascending order of creation. */
  lemma CycleOrder(cache: Option<int>, batch: seq<RawEvent>)
    ensures IsStableSortOf(HandOffs(RunCycle(cache, Some(batch)).trace), batch)
    ensures multiset(HandOffs(RunCycle(cache, Some(batch)).trace)) == multiset(batch)
  {
    SortByCreatedIsStable(batch);
    WalkHandOffs(SortByCreated(batch), cache);
  }

  /** There is one watermark write per fetched event, and the i-th hand-off
      comes right after the write of that event's creation second. */
  lemma CycleWriteBeforeHandOff(cache: Option<int>, batch: seq<RawEvent>, i: int)
    requires 0 <= i < |batch|
    ensures var r := RunCycle(cache, Some(batch));
            && |Writes(r.trace)| == |batch|
            && |HandOffs(r.trace)| == |batch|
            && r.trace[2 * i] == SetLastSaleTime(Writes(r.trace)[i])
            && r.trace[2 * i + 1] == HandOff(HandOffs(r.trace)[i])
            && Writes(r.trace)[i] == UnixSeconds(Key(HandOffs(r.trace)[i]))
  {
    var sorted := SortByCreated(batch);
    WalkHandOffs(sorted, cache);
    WalkWrites(sorted, cache);
    WalkInterleaves(sorted, cache, i);
  }

  /** The watermark writes never go backwards. */
  lemma CycleWritesNonDecreasing(cache: Option<int>, batch: seq<RawEvent>)
    ensures var w := Writes(RunCycle(cache, Some(batch)).trace);
            forall i, j :: 0 <= i < j < |w| ==> w[i] <= w[j]
  {
    var sorted := SortByCreated(batch);
    SortByCreatedIsSorted(batch);
    WalkWrites(sorted, cache);
    var w := Writes(RunCycle(cache, Some(batch)).trace);
    forall i, j | 0 <= i < j < |w|
      ensures w[i] <= w[j]
    {
      UnixSecondsMonotone(Key(sorted[i]), Key(sorted[j]));
    }
  }

  /** After a batch the cache holds the latest creation second of the batch;
      an empty batch leaves it as it was. */
  lemma CycleFinalWatermark(cache: Option<int>, batch: seq<RawEvent>)
    ensures batch == [] ==> RunCycle(cache, Some(batch)).cache == cache
    ensures batch != [] ==>
              var c := RunCycle(cache, Some(batch)).cache;
              && c.Some?
              && (exists i :: 0 <= i < |batch| && c.value == UnixSeconds(Key(batch[i])))
              && forall i :: 0 <= i < |batch| ==> UnixSeconds(Key(batch[i])) <= c.value
  {
    if batch != [] {
      var sorted := SortByCreated(batch);
      var last := sorted[|sorted| - 1];
      var c := RunCycle(cache, Some(batch)).cache;
      assert c == Some(UnixSeconds(Key(last)));
      SortedLastIsLatest(batch);
      var k :| 0 <= k < |batch| && batch[k] == last;
      forall i | 0 <= i < |batch|
        ensures UnixSeconds(Key(batch[i])) <= c.value
      {
        UnixSecondsMonotone(Key(batch[i]), Key(last));
      }
    }
  }

  lemma {:induction false} WalkTraceIgnoresCache(events: seq<RawEvent>, c1: Option<int>, c2: Option<int>)
    ensures Walk(events, c1).trace == Walk(events, c2).trace
    decreases |events|
  {
    if events != [] {
      var t := UnixSeconds(Key(events[0]));
      WalkTraceIgnoresCache(events[1..], Some(t), Some(t));
    }
  }

  /** No event is held back by the watermark: what is handed off depends only
      on the response, and an event created at or before the watermark read
      at the start of the callback is handed off all the same. */
  lemma NoWatermarkFilter(cache: Option<int>, nowMillis: int, batch: seq<RawEvent>, e: RawEvent, other: Option<int>)
    requires e in batch
    requires UnixSeconds(Key(e)) <= ReadWatermark(cache, nowMillis)
    ensures HandOff(e) in RunCycle(cache, Some(batch)).trace
    ensures RunCycle(cache, Some(batch)).trace == RunCycle(other, Some(batch)).trace
  {
    var sorted := SortByCreated(batch);
    SortByCreatedIsStable(batch);
    WalkTraceIgnoresCache(sorted, cache, other);
    assert e in multiset(sorted) by { assert e in multiset(batch); }
    var j :| 0 <= j < |sorted| && sorted[j] == e;
    WalkInterleaves(sorted, cache, j);
    assert RunCycle(cache, Some(batch)).trace[2 * j + 1] == HandOff(e);
  }
}
