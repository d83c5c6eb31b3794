/** Trend windows over persisted call events (trends.go). Instants are nanoseconds since the
    zero time of Go's `time` package, so 0 is the instant that counts as unset. */
module Trends {
  import opened CallCounters
  import opened Common
  import opened Text

  const HOUR := 3_600_000_000_000
  const DAY := 24 * HOUR

  datatype Window = Last24H | Last7D | Last30D {
    function Duration(): int {
      match this
      case Last24H => 24 * HOUR
      case Last7D => 7 * DAY
      case Last30D => 30 * DAY
    }

    function Step(): (step: int)
      ensures step > 0
    {
      if Last24H? then HOUR else DAY
    }
  }

  /** A persisted event as loaded; any integers may come from the store. */
  datatype RawEvent = RawEvent(capturedAt: int, finishedAt: int, tool: string, counters: Counters)

  datatype Event = Event(capturedAt: int, call: Call)

  function AtLeast(v: int, least: int): int {
    if v < least then least else v
  }

  /** `normalizeTrendEvent`: the capture time falls back on the finish time, then on `now`;
      no counter stays negative and no total stays below its parts. */
  function NormalizeEvent(e: RawEvent, now: int): Event {
    var c := e.counters;
    var request, response := NonNegativeOr0(c.request), NonNegativeOr0(c.response);
    var inputSaved, outputSaved := NonNegativeOr0(c.inputSaved), NonNegativeOr0(c.outputSaved);
    Event(if e.capturedAt != 0 then e.capturedAt else if e.finishedAt != 0 then e.finishedAt else now,
          Call(NormalizeToolName(e.tool),
               Counters(AtLeastOneCall(c.calls), request, response,
                        AtLeast(NonNegativeOr0(c.total), request + response), inputSaved, outputSaved,
                        AtLeast(NonNegativeOr0(c.saved), inputSaved + outputSaved))))
  }

  /** The instant, the tool and the counters that an event counts with. */
  lemma NormalizedEvent(e: RawEvent, now: int)
    ensures var n, c := NormalizeEvent(e, now), NormalizeEvent(e, now).call.counters;
      (e.capturedAt != 0 ==> n.capturedAt == e.capturedAt)
      && (e.capturedAt == 0 && e.finishedAt != 0 ==> n.capturedAt == e.finishedAt)
      && (e.capturedAt == 0 && e.finishedAt == 0 ==> n.capturedAt == now)
      && n.call.tool == (if TrimSpace(e.tool) != "" then TrimSpace(e.tool) else "unknown")
      && c.calls == (if e.counters.calls > 0 then e.counters.calls else 1)
      && c.request == (if e.counters.request > 0 then e.counters.request else 0)
      && c.response == (if e.counters.response > 0 then e.counters.response else 0)
      && c.inputSaved == (if e.counters.inputSaved > 0 then e.counters.inputSaved else 0)
      && c.outputSaved == (if e.counters.outputSaved > 0 then e.counters.outputSaved else 0)
      && c.total == (if e.counters.total > c.request + c.response then e.counters.total else c.request + c.response)
      && c.saved == (if e.counters.saved > c.inputSaved + c.outputSaved then e.counters.saved else c.inputSaved + c.outputSaved)
  {
    hide TrimSpace;
  }

  function NormalizeEvents(events: seq<RawEvent>, now: int): seq<Event> {
    seq(|events|, i requires 0 <= i < |events| => NormalizeEvent(events[i], now))
  }

  /** `alignTrendBucket` for a positive step */
  function AlignBucket(t: int, step: int): int
    requires step > 0
  {
    t - t % step
  }

  // ----- what a window should show -----

  /** The events captured from `lo` until before `hi`, in order. */
  ghost function Select(events: seq<Event>, lo: int, hi: int): seq<Event> {
    if events == [] then []
    else
      var last := events[|events| - 1];
      Select(events[..|events| - 1], lo, hi) + if lo <= last.capturedAt < hi then [last] else []
  }

  /** The counters of the events added up: of all of them, or of one tool. */
  ghost function Total(events: seq<Event>, tool: Option<string>): Counters {
    if events == [] then ZERO
    else
      var last := events[|events| - 1];
      var rest := Total(events[..|events| - 1], tool);
      if tool == None || tool == Some(last.call.tool) then Add(rest, last.call.counters) else rest
  }

  /** The counters and the tool breakdown are those of exactly these events. */
  ghost predicate Shows(counters: Counters, tools: Tools, events: seq<Event>) {
    counters == Total(events, None) && forall t :: ToolAt(tools, t) == Total(events, Some(t))
  }

  datatype Point = Point(start: int, end: int, counters: Counters, tools: Tools)

  lemma ShowsMore(counters: Counters, tools: Tools, events: seq<Event>, e: Event)
    requires Shows(counters, tools, events)
    ensures Shows(Add(counters, e.call.counters), MergeTool(tools, e.call), events + [e])
  {
    hide Add;
    var more := events + [e];
    assert more[..|more| - 1] == events;
    forall t ensures ToolAt(MergeTool(tools, e.call), t) == Total(more, Some(t)) {
      ToolAfterMerge(tools, e.call, t);
      assert ToolAt(tools, t) == Total(events, Some(t));
    }
  }

  lemma SelectMore(events: seq<Event>, e: Event, lo: int, hi: int)
    ensures Select(events + [e], lo, hi)
         == if lo <= e.capturedAt < hi then Select(events, lo, hi) + [e] else Select(events, lo, hi)
  {
    assert (events + [e])[..|events|] == events;
  }

  // ----- buckets -----

  lemma AlignFacts(t: int, step: int)
    requires step > 0
    ensures AlignBucket(t, step) <= t < AlignBucket(t, step) + step
    ensures AlignBucket(t, step) % step == 0
  {
    var q := t / step;
    assert t == step * q + t % step;
    MultipleOf(q, step);
  }

  lemma MultipleOf(q: int, step: int)
    requires step > 0
    ensures (step * q) % step == 0
  {
    if (step * q) % step != 0 {
      var p, r := (step * q) / step, (step * q) % step;
      assert step * q == step * p + r;
      assert step * (q - p) == r;
      if q - p >= 1 { Grows(q - p, step); } else if q - p <= -1 { Grows(p - q, step); }
      assert false;
    }
  }

  lemma Grows(d: int, step: int)
    requires d >= 1 && step > 0
    ensures step * d >= step
  {}

  /** Two aligned instants less than a step apart are the same. */
  lemma AlignedApart(a: int, b: int, step: int)
    requires step > 0 && a % step == 0 && b % step == 0 && a <= b < a + step
    ensures a == b
  {
    var p, q := a / step, b / step;
    assert a == step * p && b == step * q && step * (q - p) == b - a;
    if q - p >= 1 { Grows(q - p, step); } else if q - p <= -1 { Grows(p - q, step); }
  }

  /** The aligned instants from `first` until before `next` are the keys of the index, and
      each leads to the point that starts there. */
  ghost predicate Indexed(points: seq<Point>, index: map<int, nat>, first: int, next: int, step: int)
  {
    step > 0 && first <= next && first % step == 0 && next % step == 0
    && (forall c :: c in index <==> first <= c < next && c % step == 0)
    && (forall c :: c in index ==> index[c] < |points| && points[index[c]].start == c)
    && (forall i :: 0 <= i < |points| ==>
         points[i].start in index && index[points[i].start] == i && points[i].end == points[i].start + step)
    && Contiguous(points, first, next)
  }

  /** The points follow each other without gap from `first` to `next`. */
  ghost predicate Contiguous(points: seq<Point>, first: int, next: int) {
    if points == [] then first == next
    else points[0].start == first && first <= points[0].end && Contiguous(points[1..], points[0].end, next)
  }

  lemma {:induction false} ContiguousEnds(points: seq<Point>, first: int, next: int)
    requires Contiguous(points, first, next)
    ensures first <= next && forall i :: 0 <= i < |points| ==> points[i].end <= next
  {
    if points != [] {
      ContiguousEnds(points[1..], points[0].end, next);
      forall i | 0 < i < |points| ensures points[i].end <= next { assert points[i] == points[1..][i - 1]; }
    }
  }

  lemma {:induction false} ContiguousMore(points: seq<Point>, first: int, next: int, p: Point)
    requires Contiguous(points, first, next) && p.start == next <= p.end
    ensures Contiguous(points + [p], first, p.end)
  {
    if points == [] {
      assert [p][1..] == [];
    } else {
      assert (points + [p])[1..] == points[1..] + [p];
      ContiguousMore(points[1..], points[0].end, next, p);
    }
  }

  lemma {:induction false} ContiguousUpdate(points: seq<Point>, first: int, next: int, i: nat, p: Point)
    requires Contiguous(points, first, next) && i < |points|
    requires p.start == points[i].start && p.end == points[i].end
    ensures Contiguous(points[i := p], first, next)
  {
    if i > 0 {
      assert points[i := p][1..] == points[1..][i - 1 := p];
      ContiguousUpdate(points[1..], points[0].end, next, i - 1, p);
    } else {
      assert points[i := p][1..] == points[1..];
    }
  }

  lemma IndexedMore(points: seq<Point>, index: map<int, nat>, first: int, cursor: int, step: int, p: Point)
    requires Indexed(points, index, first, cursor, step) && p.start == cursor && p.end == cursor + step
    ensures Indexed(points + [p], index[cursor := |points|], first, cursor + step, step)
  {
    var more, wider := points + [p], index[cursor := |points|];
    assert (cursor + step) % step == 0 by {
      var q := cursor / step;
      assert cursor + step == step * (q + 1);
      MultipleOf(q + 1, step);
    }
    forall c ensures c in wider <==> first <= c < cursor + step && c % step == 0 {
      if cursor <= c < cursor + step && c % step == 0 { AlignedApart(cursor, c, step); }
    }
    ContiguousMore(points, first, cursor, p);
  }

  /** The bucket of an instant in range exists, and no other bucket holds the instant. */
  lemma BucketExists(points: seq<Point>, index: map<int, nat>, first: int, next: int, step: int, t: int)
    requires Indexed(points, index, first, next, step) && first <= t < next
    ensures AlignBucket(t, step) in index
    ensures forall i :: 0 <= i < |points| && points[i].start <= t < points[i].end
              <==> i == index[AlignBucket(t, step)]
  {
    var b := AlignBucket(t, step);
    AlignFacts(t, step);
    if b < first {
      AlignedApart(b, first, step);
    }
    forall i | 0 <= i < |points| && points[i].start <= t < points[i].end ensures i == index[b] {
      var s := points[i].start;
      if s <= b { AlignedApart(s, b, step); } else { AlignedApart(b, s, step); }
    }
  }

  // ----- accumulating -----

  class TrendAccumulator {
    const startAt: int
    const endAt: int
    const step: int
    var counters: Counters
    var tools: Tools
    var points: seq<Point>
    var pointIndex: map<int, nat>
    ghost var added: seq<Event>   // the events accumulated so far

    ghost predicate Valid()
      reads this
    {
      step > 0
      && (exists next :: endAt <= next < endAt + step && Indexed(points, pointIndex, AlignBucket(startAt, step), next, step))
      && Shows(counters, tools, added)
      && PointsShow(points, added)
    }

    /** `newTrendAccumulator` */
    constructor (window: Window, now: int)
      ensures Valid() && added == []
      ensures startAt == now - window.Duration() && endAt == now && step == window.Step()
    {
      startAt := now - window.Duration();
      endAt := now;
      step := window.Step();
      counters, tools, added := ZERO, map[], [];
      points, pointIndex := [], map[];
      new;
      var cursor := AlignBucket(startAt, step);
      AlignFacts(startAt, step);
      while cursor < endAt
        invariant Indexed(points, pointIndex, AlignBucket(startAt, step), cursor, step) && cursor < endAt + step
        invariant forall i :: 0 <= i < |points| ==> points[i].counters == ZERO && points[i].tools == map[]
        invariant counters == ZERO && tools == map[] && added == []
        decreases endAt - cursor
      {
        var point := Point(cursor, cursor + step, ZERO, map[]);
        IndexedMore(points, pointIndex, AlignBucket(startAt, step), cursor, step, point);
        pointIndex := pointIndex[cursor := |points|];
        points := points + [point];
        cursor := cursor + step;
      }
    }

    /** Adds an event of the window; its bucket is always found. */
    method AddEvent(event: Event)
      requires Valid() && startAt <= event.capturedAt < endAt
      modifies this
      ensures Valid() && added == old(added) + [event]
    {
      hide Shows, Indexed, Select, AlignBucket;
      ghost var next :| endAt <= next < endAt + step && Indexed(points, pointIndex, AlignBucket(startAt, step), next, step);
      ghost var first := AlignBucket(startAt, step);
      AlignFacts(startAt, step);
      BucketExists(points, pointIndex, first, next, step, event.capturedAt);
      ShowsMore(counters, tools, added, event);
      counters := Add(counters, event.call.counters);
      tools := MergeTool(tools, event.call);
      var bucketStart := AlignBucket(event.capturedAt, step);
      if bucketStart in pointIndex {
        IndexInRange(points, pointIndex, first, next, step, bucketStart);
        var index := pointIndex[bucketStart];
        var point := points[index];
        ghost var before := points;
        point := point.(counters := Add(point.counters, event.call.counters));
        point := point.(tools := MergeTool(point.tools, event.call));
        ShowsMore(points[index].counters, points[index].tools, Select(added, point.start, point.end), event);
        IndexedUpdate(points, pointIndex, first, next, step, index, point);
        points := points[index := point];
        forall i | 0 <= i < |points|
          ensures Shows(points[i].counters, points[i].tools, Select(added + [event], points[i].start, points[i].end))
        {
          SelectMore(added, event, points[i].start, points[i].end);
          assert before[i].start <= event.capturedAt < before[i].end <==> i == index;
        }
      }
      added := added + [event];
      assert endAt <= next < endAt + step && Indexed(points, pointIndex, first, next, step);
      assert Shows(counters, tools, added);
      assert PointsShow(points, added);
    }
  }

  lemma IndexInRange(points: seq<Point>, index: map<int, nat>, first: int, next: int, step: int, c: int)
    requires Indexed(points, index, first, next, step) && c in index
    ensures index[c] < |points|
  {}

  lemma IndexedUpdate(points: seq<Point>, index: map<int, nat>, first: int, next: int, step: int, i: nat, p: Point)
    requires Indexed(points, index, first, next, step) && i < |points|
    requires p.start == points[i].start && p.end == points[i].end
    ensures Indexed(points[i := p], index, first, next, step)
  {
    ContiguousUpdate(points, first, next, i, p);
  }

  datatype Snapshot = Snapshot(startAt: int, endAt: int, counters: Counters, tools: Tools, points: seq<Point>)

  /** What the window must report of the events: the sums over its range, and one point for
      every bucket with the sums over the bucket. */
  ghost predicate Reports(s: Snapshot, window: Window, events: seq<Event>, now: int) {
    s.startAt == now - window.Duration() && s.endAt == now
    && Shows(s.counters, s.tools, Select(events, s.startAt, s.endAt))
    && (exists next :: now <= next < now + window.Step() && Contiguous(s.points, AlignBucket(s.startAt, window.Step()), next))
    && (forall i :: 0 <= i < |s.points| ==> s.points[i].end == s.points[i].start + window.Step())
    && PointsShow(s.points, Select(events, s.startAt, s.endAt))
  }

  /** Every point shows the sums over the events that fall into its bucket. */
  ghost predicate PointsShow(points: seq<Point>, events: seq<Event>) {
    forall i :: 0 <= i < |points| ==>
      Shows(points[i].counters, points[i].tools, Select(events, points[i].start, points[i].end))
  }

  /** The range of a window ends now and is 24 hours, 7 days or 30 days long; its buckets are hours
      or days, aligned to these, and the first one holds the start. */
  lemma ReportedRange(s: Snapshot, window: Window, events: seq<Event>, now: int)
    requires Reports(s, window, events, now)
    ensures var hour := 3600 * 1_000_000_000;
      var step := if window.Last24H? then hour else 24 * hour;
      s.endAt == now
      && s.endAt - s.startAt == (if window.Last24H? then 24 * hour else if window.Last7D? then 168 * hour else 720 * hour)
      && (forall i :: 0 <= i < |s.points| ==> s.points[i].end - s.points[i].start == step)
      && (forall i :: 0 <= i < |s.points| ==> s.points[i].start < now)
      && (s.points != [] ==> s.points[0].start <= s.startAt < s.points[0].start + step && s.points[0].start % step == 0)
  {
    AlignFacts(s.startAt, window.Step());
    var first := AlignBucket(s.startAt, window.Step());
    var next :| now <= next < now + window.Step() && Contiguous(s.points, first, next);
    ContiguousEnds(s.points, first, next);
    hide Shows, PointsShow, AlignBucket;
  }

  /** Selecting keeps the events of a range, each as often as there are. */
  lemma {:induction false} SelectExact(events: seq<Event>, lo: int, hi: int, e: Event)
    ensures multiset(Select(events, lo, hi))[e] == if lo <= e.capturedAt < hi then multiset(events)[e] else 0
  {
    if events != [] {
      var n := |events| - 1;
      SelectExact(events[..n], lo, hi, e);
      assert events == events[..n] + [events[n]];
    }
  }

  lemma SnapshotReports(a: TrendAccumulator, window: Window, events: seq<Event>, now: int)
    requires a.Valid() && a.startAt == now - window.Duration() && a.endAt == now && a.step == window.Step()
    requires a.added == Select(events, now - window.Duration(), now)
    ensures Reports(Snapshot(a.startAt, a.endAt, a.counters, a.tools, a.points), window, events, now)
  {
    hide Shows, Select, AlignBucket, Contiguous;
  }

  /** The accumulators of the windows are distinct objects, each fed its own events. */
  ghost predicate Fed(accumulators: map<Window, TrendAccumulator>, events: seq<Event>, now: int)
    reads accumulators.Values
  {
    (forall w :: w in accumulators ==>
      accumulators[w].startAt == now - w.Duration() && accumulators[w].endAt == now
      && accumulators[w].step == w.Step()
      && accumulators[w].Valid()
      && accumulators[w].added == Select(events, now - w.Duration(), now))
    && forall v, w :: v in accumulators && w in accumulators && v != w ==> accumulators[v] != accumulators[w]
  }

  ghost predicate Distinct(windows: seq<Window>) {
    forall i, j :: 0 <= i < j < |windows| ==> windows[i] != windows[j]
  }

  /** The first loop of `aggregateTrendWindows`: an empty accumulator for every window. */
  method OpenWindows(windows: seq<Window>, now: int) returns (accumulators: map<Window, TrendAccumulator>)
    requires Distinct(windows)
    ensures forall w :: w in accumulators <==> w in windows
    ensures forall w :: w in accumulators ==> fresh(accumulators[w])
    ensures Fed(accumulators, [], now)
  {
    hide TrendAccumulator.Valid, Select;
    accumulators := map[];
    SelectNone();
    for i := 0 to |windows|
      invariant forall w :: w in accumulators <==> w in windows[..i]
      invariant forall w :: w in accumulators ==> fresh(accumulators[w])
      invariant Fed(accumulators, [], now)
    {
      var accumulator := new TrendAccumulator(windows[i], now);
      assert windows[..i + 1] == windows[..i] + [windows[i]];
      accumulators := accumulators[windows[i] := accumulator];
    }
    assert windows[..|windows|] == windows;
  }

  /** The last loop of `aggregateTrendWindows`: a snapshot of every accumulator. */
  method SnapshotWindows(accumulators: map<Window, TrendAccumulator>, windows: seq<Window>,
                         ghost events: seq<Event>, now: int)
    returns (out: map<Window, Snapshot>)
    requires forall w :: w in accumulators <==> w in windows
    requires Fed(accumulators, events, now)
    ensures forall w :: w in out <==> w in windows
    ensures forall w :: w in out ==> Reports(out[w], w, events, now)
  {
    hide TrendAccumulator.Valid, Reports, Select;
    out := map[];
    for i := 0 to |windows|
      invariant forall w :: w in out <==> w in windows[..i]
      invariant forall w :: w in out ==> Reports(out[w], w, events, now)
    {
      var w := windows[i];
      var a := accumulators[w];
      assert windows[..i + 1] == windows[..i] + [w];
      SnapshotReports(a, w, events, now);
      out := out[w := Snapshot(a.startAt, a.endAt, a.counters, a.tools, a.points)];
    }
    assert windows[..|windows|] == windows;
  }

  /** `aggregateTrendWindows`, for windows already deduplicated. A query without an instant of
      its own, the zero one, is about the clock's. */
  method AggregateTrends(rawEvents: seq<RawEvent>, windows: seq<Window>, queryNow: int, clock: int)
    returns (out: map<Window, Snapshot>)
    requires Distinct(windows)
    ensures forall w :: w in out <==> w in windows
    ensures var now := if queryNow == 0 then clock else queryNow;
      forall w :: w in out ==> Reports(out[w], w, NormalizeEvents(rawEvents, now), now)
  {
    hide Fed, Reports, NormalizeEvent;
    var now := queryNow;
    if now == 0 {
      now := clock;
    }
    var accumulators := OpenWindows(windows, now);
    ghost var events := NormalizeEvents(rawEvents, now);
    assert events[..0] == [];
    for i := 0 to |rawEvents|
      invariant forall w :: w in accumulators ==> fresh(accumulators[w])
      invariant Fed(accumulators, events[..i], now)
    {
      var event := NormalizeEvent(rawEvents[i], now);
      assert events[..i + 1] == events[..i] + [event];
      FeedEvent(accumulators, windows, event, events[..i], now);
    }
    assert events[..|rawEvents|] == events;
    out := SnapshotWindows(accumulators, windows, events, now);
  }

  lemma SelectNone()
    ensures forall lo, hi :: Select([], lo, hi) == []
  {}

  /** Offers an event to one window, which takes it if it lies in its range. */
  method Offer(accumulator: TrendAccumulator, event: Event, ghost events: seq<Event>)
    requires accumulator.Valid() && accumulator.added == Select(events, accumulator.startAt, accumulator.endAt)
    modifies accumulator
    ensures accumulator.Valid()
    ensures accumulator.added == Select(events + [event], accumulator.startAt, accumulator.endAt)
  {
    hide Select, TrendAccumulator.Valid;
    SelectMore(events, event, accumulator.startAt, accumulator.endAt);
    if event.capturedAt < accumulator.startAt || !(event.capturedAt < accumulator.endAt) {
      return;
    }
    accumulator.AddEvent(event);
  }

  /** The inner loop of `aggregateTrendWindows`: offers one event to every window. */
  method FeedEvent(accumulators: map<Window, TrendAccumulator>, windows: seq<Window>, event: Event,
                   ghost events: seq<Event>, now: int)
    requires Distinct(windows)
    requires forall w :: w in accumulators <==> w in windows
    requires Fed(accumulators, events, now)
    modifies accumulators.Values
    ensures Fed(accumulators, events + [event], now)
  {
    hide Select, TrendAccumulator.Valid;
    for i := 0 to |windows|
      invariant forall w :: w in accumulators ==>
        accumulators[w].Valid()
        && accumulators[w].added == if w in windows[..i] then Select(events + [event], now - w.Duration(), now)
                                    else Select(events, now - w.Duration(), now)
    {
      var w := windows[i];
      assert windows[..i + 1] == windows[..i] + [w];
      assert w !in windows[..i];
      Offer(accumulators[w], event, events);
    }
    assert windows[..|windows|] == windows;
  }

  // ----- conservation -----

  lemma {:induction false} RangeSplits(events: seq<Event>, lo: int, mid: int, hi: int, tool: Option<string>)
    requires lo <= mid <= hi
    ensures Total(Select(events, lo, hi), tool)
         == Add(Total(Select(events, lo, mid), tool), Total(Select(events, mid, hi), tool))
  {
    hide Select, Total, Add;
    if events == [] {
      SelectNone();
      NoneTotal(tool);
    } else {
      var n := |events| - 1;
      var e, a, b := events[n], Select(events[..n], lo, mid), Select(events[..n], mid, hi);
      assert events == events[..n] + [e];
      RangeSplits(events[..n], lo, mid, hi, tool);
      SelectMore(events[..n], e, lo, hi);
      SelectMore(events[..n], e, lo, mid);
      SelectMore(events[..n], e, mid, hi);
      TotalMore(Select(events[..n], lo, hi), e, tool);
      TotalMore(a, e, tool);
      TotalMore(b, e, tool);
      AddSwaps(Total(a, tool), Total(b, tool), e.call.counters);
    }
  }

  lemma NoneTotal(tool: Option<string>)
    ensures Total([], tool) == ZERO && Add(ZERO, ZERO) == ZERO
  {}

  lemma TotalMore(events: seq<Event>, e: Event, tool: Option<string>)
    ensures Total(events + [e], tool)
         == if tool == None || tool == Some(e.call.tool) then Add(Total(events, tool), e.call.counters)
            else Total(events, tool)
  {
    assert (events + [e])[..|events|] == events;
  }

  /** The counters of the points added up: in all, or of one tool. */
  ghost function PointTotal(points: seq<Point>, tool: Option<string>): Counters {
    if points == [] then ZERO
    else
      Add(if tool == None then points[0].counters else ToolAt(points[0].tools, tool.value),
          PointTotal(points[1..], tool))
  }

  lemma {:induction false} PointsAddUp(points: seq<Point>, events: seq<Event>, first: int, next: int,
                                       tool: Option<string>)
    requires Contiguous(points, first, next) && PointsShow(points, events)
    ensures first <= next && PointTotal(points, tool) == Total(Select(events, first, next), tool)
  {
    hide Select, Total, Add, Shows;
    if points == [] {
      EmptyRange(events, first);
      NoneTotal(tool);
    } else {
      var p := points[0];
      assert forall i :: 0 <= i < |points[1..]| ==> points[1..][i] == points[i + 1];
      PointsAddUp(points[1..], events, p.end, next, tool);
      RangeSplits(events, first, p.end, next, tool);
      assert Shows(p.counters, p.tools, Select(events, p.start, p.end));
      ShownTotal(p.counters, p.tools, Select(events, p.start, p.end), tool);
    }
  }

  lemma ShownTotal(counters: Counters, tools: Tools, events: seq<Event>, tool: Option<string>)
    requires Shows(counters, tools, events)
    ensures (if tool == None then counters else ToolAt(tools, tool.value)) == Total(events, tool)
  {}

  lemma {:induction false} EmptyRange(events: seq<Event>, at: int)
    ensures Select(events, at, at) == []
  {
    if events != [] { EmptyRange(events[..|events| - 1], at); }
  }

  lemma {:induction false} SelectInside(events: seq<Event>, lo: int, hi: int, first: int, next: int)
    requires first <= lo && hi <= next
    ensures Select(Select(events, lo, hi), first, next) == Select(events, lo, hi)
  {
    if events != [] {
      var n := |events| - 1;
      SelectInside(events[..n], lo, hi, first, next);
      assert events == events[..n] + [events[n]];
      SelectMore(events[..n], events[n], lo, hi);
      if lo <= events[n].capturedAt < hi {
        SelectMore(Select(events[..n], lo, hi), events[n], first, next);
      }
    }
  }

  /** The counters of a window, and of every tool in it, are the sums over its points. */
  lemma WindowIsSumOfPoints(s: Snapshot, window: Window, events: seq<Event>, now: int, tool: Option<string>)
    requires Reports(s, window, events, now)
    ensures PointTotal(s.points, tool) == (if tool == None then s.counters else ToolAt(s.tools, tool.value))
  {
    hide Total, Select, Contiguous;
    var inside, first := Select(events, s.startAt, s.endAt), AlignBucket(s.startAt, window.Step());
    var next :| now <= next < now + window.Step() && Contiguous(s.points, first, next);
    AlignFacts(s.startAt, window.Step());
    PointsAddUp(s.points, inside, first, next, tool);
    SelectInside(events, s.startAt, s.endAt, first, next);
  }

  lemma {:induction false} NormalizedTotals(events: seq<RawEvent>, now: int, lo: int, hi: int, tool: Option<string>)
    ensures NonNegative(Total(Select(NormalizeEvents(events, now), lo, hi), tool))
  {
    if events != [] {
      var n := |events| - 1;
      var all := NormalizeEvents(events, now);
      NormalizedTotals(events[..n], now, lo, hi, tool);
      assert all == NormalizeEvents(events[..n], now) + [NormalizeEvent(events[n], now)];
      SelectMore(NormalizeEvents(events[..n], now), all[n], lo, hi);
      TotalMore(Select(NormalizeEvents(events[..n], now), lo, hi), all[n], tool);
    }
  }

  /** A shorter window never reports more than a longer one, in total or for any tool. */
  lemma ShorterWindowsReportLess(events: seq<RawEvent>, now: int, short: Window, long: Window, a: Snapshot, b: Snapshot,
                                 tool: string)
    requires short.Duration() <= long.Duration()
    requires Reports(a, short, NormalizeEvents(events, now), now)
    requires Reports(b, long, NormalizeEvents(events, now), now)
    ensures AtMost(a.counters, b.counters) && AtMost(ToolAt(a.tools, tool), ToolAt(b.tools, tool))
  {
    hide Total, Select, NormalizeEvent;
    var all := NormalizeEvents(events, now);
    assert long.Duration() >= 0 && short.Duration() >= 0;
    RangeSplits(all, b.startAt, a.startAt, now, None);
    RangeSplits(all, b.startAt, a.startAt, now, Some(tool));
    NormalizedTotals(events, now, b.startAt, a.startAt, None);
    NormalizedTotals(events, now, b.startAt, a.startAt, Some(tool));
  }
}
