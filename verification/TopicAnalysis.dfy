/**
  Full-topic statistics, crates/kaas-ui-core/src/analysis.rs: an accumulator for each partition, and one
  for all of them together. The value-level fold comes first, then what it means, then the code.
*/
module TopicAnalysis {
  import opened Text
  import opened Numbers
  import opened SizeHistogram
  import opened SizeSketches
  import opened HyperLogLogs

  const MAX_HOURLY_BUCKETS: nat := 10_000
  const HOUR: nat := 3_600_000

  datatype Record = Record(partition: int, offset: int, timestamp: int, logAppend: bool,
                           key: Option<Bytes>, value: Option<Bytes>)

  /** What the scan feeds the fold: a record, or a batch of a partition that would not decode. */
  datatype Event = Recorded(record: Record) | Malformed(partition: int) {

    function Partition(): int {
      if Recorded? then record.partition else this.partition
    }
  }

  // ----- one accumulator, as a value -----

  datatype Counters = Counters(
    total: nat, minOffset: Option<int>, maxOffset: Option<int>, minTimestamp: Option<int>, maxTimestamp: Option<int>,
    missingTimestamps: nat, nullKeys: nat, nullValues: nat, malformed: nat, sawCreate: bool, sawAppend: bool)

  /** Everything an accumulator holds except the hour chart, which depends on order once it is full. */
  datatype Stats = Stats(counters: Counters, keys: Registers, values: Registers, keySizes: Sizes, valueSizes: Sizes,
                         hours: map<int, nat>)

  const NO_COUNTS := Counters(0, None, None, None, None, 0, 0, 0, 0, false, false)
  const NOTHING_FOLDED := Stats(NO_COUNTS, NoRegisters(), NoRegisters(), NO_SIZES, NO_SIZES, map[])

  function LeastOf(a: Option<int>, b: Option<int>): Option<int> {
    if a.None? then b else if b.None? || a.value < b.value then a else b
  }

  function GreatestOf(a: Option<int>, b: Option<int>): Option<int> {
    if a.None? then b else if b.None? || b.value < a.value then a else b
  }

  function One(counted: bool): nat { if counted then 1 else 0 }

  function CountRecord(c: Counters, r: Record): Counters {
    c.(total := c.total + 1,
       minOffset := LeastOf(c.minOffset, Some(r.offset)), maxOffset := GreatestOf(c.maxOffset, Some(r.offset)),
       sawCreate := c.sawCreate || !r.logAppend, sawAppend := c.sawAppend || r.logAppend)
  }

  function CountTimestamp(c: Counters, timestamp: int): Counters {
    if timestamp < 0 then c.(missingTimestamps := c.missingTimestamps + 1)
    else c.(minTimestamp := LeastOf(c.minTimestamp, Some(timestamp)),
            maxTimestamp := GreatestOf(c.maxTimestamp, Some(timestamp)))
  }

  function CountNulls(c: Counters, r: Record): Counters {
    c.(nullKeys := c.nullKeys + One(r.key.None?), nullValues := c.nullValues + One(r.value.None?))
  }

  function StepCounters(c: Counters, r: Record): Counters {
    CountNulls(CountTimestamp(CountRecord(c, r), r.timestamp), r)
  }

  function CountMalformed(c: Counters): Counters {
    c.(malformed := c.malformed + 1)
  }

  function Length(bytes: Bytes): U64 { Min(|bytes|, U64_MAX) }

  function StepRegisters(registers: Registers, hash: Hash, item: Option<Bytes>): Registers {
    if item.Some? then OfferTo(registers, hash(item.value)) else registers
  }

  function StepSizes(sizes: Sizes, item: Option<Bytes>): Sizes {
    if item.Some? then sizes.Offer(Length(item.value)) else sizes
  }

  function StepHours(hours: map<int, nat>, r: Record): map<int, nat> {
    if r.timestamp < 0 then hours else Bump(hours, r.timestamp / HOUR)
  }

  function Step(hash: Hash, s: Stats, event: Event): Stats {
    match event
    case Malformed(_) =>
      Stats(CountMalformed(s.counters), s.keys, s.values, s.keySizes, s.valueSizes, s.hours)
    case Recorded(r) =>
      Stats(StepCounters(s.counters, r),
            StepRegisters(s.keys, hash, r.key), StepRegisters(s.values, hash, r.value),
            StepSizes(s.keySizes, r.key), StepSizes(s.valueSizes, r.value),
            StepHours(s.hours, r))
  }

  function StatsOf(hash: Hash, events: seq<Event>): Stats {
    if events == [] then NOTHING_FOLDED else Step(hash, StatsOf(hash, events[..|events| - 1]), events[|events| - 1])
  }

  // ----- what the fields mean -----

  /** The outermost value: the bounds of a list hold every item and are attained. */
  ghost predicate IsBounds(least: Option<int>, most: Option<int>, items: seq<int>) {
    if items == [] then least.None? && most.None?
    else
      && least.Some? && most.Some? && least.value in items && most.value in items
      && forall item | item in items :: least.value <= item <= most.value
  }

  function Offsets(events: seq<Event>): seq<int> {
    if events == [] then []
    else
      var last := events[|events| - 1];
      Offsets(events[..|events| - 1]) + if last.Recorded? then [last.record.offset] else []
  }

  /** The timestamps there are: a negative one stands for none. */
  function Timestamps(events: seq<Event>): seq<int> {
    if events == [] then []
    else
      var last := events[|events| - 1];
      Timestamps(events[..|events| - 1])
      + if last.Recorded? && last.record.timestamp >= 0 then [last.record.timestamp] else []
  }

  lemma BoundsOfOneMore(least: Option<int>, most: Option<int>, items: seq<int>, item: int)
    requires IsBounds(least, most, items)
    ensures IsBounds(LeastOf(least, Some(item)), GreatestOf(most, Some(item)), items + [item])
  {
    assert item in items + [item] && forall x | x in items :: x in items + [item];
  }

  /**
    The offset and timestamp bounds are attained and hold every record; one without a timestamp is counted
    and bounds nothing.
  */
  lemma {:induction false} CountersMean(hash: Hash, events: seq<Event>)
    ensures var c := StatsOf(hash, events).counters;
            && IsBounds(c.minOffset, c.maxOffset, Offsets(events))
            && IsBounds(c.minTimestamp, c.maxTimestamp, Timestamps(events))
            && c.total == |Offsets(events)|
            && c.total == c.missingTimestamps + |Timestamps(events)|
  {
    hide StepRegisters, StepSizes, StepHours;
    if events != [] {
      var front, last := events[..|events| - 1], events[|events| - 1];
      CountersMean(hash, front);
      var c := StatsOf(hash, front).counters;
      if last.Recorded? {
        BoundsOfOneMore(c.minOffset, c.maxOffset, Offsets(front), last.record.offset);
        if last.record.timestamp >= 0 {
          BoundsOfOneMore(c.minTimestamp, c.maxTimestamp, Timestamps(front), last.record.timestamp);
        }
      }
    }
  }

  /** Which clocks stamped the records, and how many batches were spoiled: every event that is no record. */
  lemma {:induction false} ClocksMean(hash: Hash, events: seq<Event>)
    ensures var c := StatsOf(hash, events).counters;
            && c.malformed + |Offsets(events)| == |events|
            && (c.sawCreate <==> exists event | event in events :: event.Recorded? && !event.record.logAppend)
            && (c.sawAppend <==> exists event | event in events :: event.Recorded? && event.record.logAppend)
  {
    hide StepRegisters, StepSizes, StepHours;
    if events != [] {
      var front, last := events[..|events| - 1], events[|events| - 1];
      ClocksMean(hash, front);
      assert events == front + [last];
      assert forall event :: event in events <==> event in front || event == last;
    }
  }

  /** How many of the timestamps fall in an hour. */
  function InHour(timestamps: seq<int>, hour: int): nat {
    if timestamps == [] then 0
    else
      InHour(timestamps[..|timestamps| - 1], hour) + if timestamps[|timestamps| - 1] / 3_600_000 == hour then 1 else 0
  }

  lemma {:induction false} HoursMean(hash: Hash, events: seq<Event>, hour: int)
    ensures CountAt(StatsOf(hash, events).hours, hour) == InHour(Timestamps(events), hour)
    ensures hour in StatsOf(hash, events).hours <==> InHour(Timestamps(events), hour) > 0
  {
    if events != [] {
      var front, last := events[..|events| - 1], events[|events| - 1];
      HoursMean(hash, front, hour);
      var stamps := Timestamps(events);
      if stamps != Timestamps(front) {
        assert stamps[..|stamps| - 1] == Timestamps(front);
      }
    }
  }

  // ----- joining accumulators -----

  function JoinCounters(a: Counters, b: Counters): Counters {
    Counters(
      a.total + b.total,
      LeastOf(a.minOffset, b.minOffset), GreatestOf(a.maxOffset, b.maxOffset),
      LeastOf(a.minTimestamp, b.minTimestamp), GreatestOf(a.maxTimestamp, b.maxTimestamp),
      a.missingTimestamps + b.missingTimestamps, a.nullKeys + b.nullKeys, a.nullValues + b.nullValues,
      a.malformed + b.malformed, a.sawCreate || b.sawCreate, a.sawAppend || b.sawAppend)
  }

  /** Counters add, bounds take the outer one, registers the larger, and hour counts add. */
  function Join(a: Stats, b: Stats): Stats {
    Stats(JoinCounters(a.counters, b.counters),
          JoinRegisters(a.keys, b.keys), JoinRegisters(a.values, b.values),
          a.keySizes.Join(b.keySizes), a.valueSizes.Join(b.valueSizes),
          AddCounts(a.hours, b.hours))
  }

  lemma JoinCountedRecord(a: Counters, b: Counters, r: Record)
    ensures JoinCounters(a, CountRecord(b, r)) == CountRecord(JoinCounters(a, b), r)
    ensures JoinCounters(CountRecord(a, r), b) == CountRecord(JoinCounters(a, b), r)
  {
  }

  lemma JoinCountedTimestamp(a: Counters, b: Counters, timestamp: int)
    ensures JoinCounters(a, CountTimestamp(b, timestamp)) == CountTimestamp(JoinCounters(a, b), timestamp)
    ensures JoinCounters(CountTimestamp(a, timestamp), b) == CountTimestamp(JoinCounters(a, b), timestamp)
  {
  }

  lemma JoinCountedNulls(a: Counters, b: Counters, r: Record)
    ensures JoinCounters(a, CountNulls(b, r)) == CountNulls(JoinCounters(a, b), r)
    ensures JoinCounters(CountNulls(a, r), b) == CountNulls(JoinCounters(a, b), r)
  {
  }

  lemma JoinSteppedCounters(a: Counters, b: Counters, r: Record)
    ensures JoinCounters(a, StepCounters(b, r)) == StepCounters(JoinCounters(a, b), r)
    ensures JoinCounters(StepCounters(a, r), b) == StepCounters(JoinCounters(a, b), r)
  {
    var ts := r.timestamp;
    JoinCountedRecord(a, b, r);
    JoinCountedTimestamp(a, CountRecord(b, r), ts);
    JoinCountedTimestamp(CountRecord(a, r), b, ts);
    JoinCountedNulls(a, CountTimestamp(CountRecord(b, r), ts), r);
    JoinCountedNulls(CountTimestamp(CountRecord(a, r), ts), b, r);
  }

  lemma JoinSteppedRegisters(a: Registers, b: Registers, hash: Hash, item: Option<Bytes>)
    ensures JoinRegisters(a, StepRegisters(b, hash, item)) == StepRegisters(JoinRegisters(a, b), hash, item)
    ensures JoinRegisters(StepRegisters(a, hash, item), b) == StepRegisters(JoinRegisters(a, b), hash, item)
  {
    if item.Some? {
      JoinOfferedHash(a, b, hash(item.value));
    }
  }

  lemma JoinSteppedSizes(a: Sizes, b: Sizes, item: Option<Bytes>)
    ensures a.Join(StepSizes(b, item)) == StepSizes(a.Join(b), item)
    ensures StepSizes(a, item).Join(b) == StepSizes(a.Join(b), item)
  {
    if item.Some? {
      JoinOffered(a, b, Length(item.value));
    }
  }

  lemma JoinSteppedHours(a: map<int, nat>, b: map<int, nat>, r: Record)
    ensures AddCounts(a, StepHours(b, r)) == StepHours(AddCounts(a, b), r)
    ensures AddCounts(StepHours(a, r), b) == StepHours(AddCounts(a, b), r)
  {
    if r.timestamp >= 0 {
      AddBumped(a, b, r.timestamp / HOUR);
      AddBumped(b, a, r.timestamp / HOUR);
      assert AddCounts(Bump(a, r.timestamp / HOUR), b) == AddCounts(b, Bump(a, r.timestamp / HOUR));
      assert AddCounts(a, b) == AddCounts(b, a);
    }
  }

  /** One more event on either side is one more event in the join. */
  lemma JoinStepped(hash: Hash, a: Stats, b: Stats, event: Event)
    ensures Join(a, Step(hash, b, event)) == Step(hash, Join(a, b), event)
    ensures Join(Step(hash, a, event), b) == Step(hash, Join(a, b), event)
  {
    if event.Recorded? {
      var r := event.record;
      JoinSteppedCounters(a.counters, b.counters, r);
      JoinSteppedRegisters(a.keys, b.keys, hash, r.key);
      JoinSteppedRegisters(a.values, b.values, hash, r.value);
      JoinSteppedSizes(a.keySizes, b.keySizes, r.key);
      JoinSteppedSizes(a.valueSizes, b.valueSizes, r.value);
      JoinSteppedHours(a.hours, b.hours, r);
    }
  }

  // ----- totals are the join of the partitions -----

  /** The events of one partition. */
  function Only(events: seq<Event>, partition: int): seq<Event> {
    if events == [] then []
    else
      var front, last := events[..|events| - 1], events[|events| - 1];
      if last.Partition() == partition then Only(front, partition) + [last] else Only(front, partition)
  }

  function JoinAll(hash: Hash, events: seq<Event>, partitions: seq<int>): Stats {
    if partitions == [] then NOTHING_FOLDED
    else
      Join(JoinAll(hash, events, partitions[..|partitions| - 1]),
           StatsOf(hash, Only(events, partitions[|partitions| - 1])))
  }

  predicate Distinct(items: seq<int>) {
    forall i, j | 0 <= i < j < |items| :: items[i] != items[j]
  }

  lemma JoinNoCounts(none: Counters)
    requires none == NO_COUNTS
    ensures JoinCounters(none, none) == none
  {
    assert LeastOf(none.minOffset, none.minOffset) == none.minOffset;
    assert GreatestOf(none.maxOffset, none.maxOffset) == none.maxOffset;
    assert LeastOf(none.minTimestamp, none.minTimestamp) == none.minTimestamp;
    assert GreatestOf(none.maxTimestamp, none.maxTimestamp) == none.maxTimestamp;
  }

  lemma JoinNoSizes()
    ensures NO_SIZES.Join(NO_SIZES) == NO_SIZES
  {
    assert AddCounts<nat>(map[], map[]) == map[];
  }

  lemma JoinByParts(a: Stats)
    requires JoinCounters(a.counters, a.counters) == a.counters
    requires a.keySizes.Join(a.keySizes) == a.keySizes && a.valueSizes.Join(a.valueSizes) == a.valueSizes
    requires AddCounts(a.hours, a.hours) == a.hours
    ensures Join(a, a) == a
  {
    JoinWithItself(a.keys);
    JoinWithItself(a.values);
  }

  lemma NoHours(hours: map<int, nat>)
    requires hours == map[]
    ensures AddCounts(hours, hours) == hours
  {
  }

  lemma JoinNothing()
    ensures Join(NOTHING_FOLDED, NOTHING_FOLDED) == NOTHING_FOLDED
  {
    JoinNoCounts(NOTHING_FOLDED.counters);
    JoinNoSizes();
    NoHours(NOTHING_FOLDED.hours);
    JoinByParts(NOTHING_FOLDED);
  }

  lemma {:induction false} JoinAllOfNothing(hash: Hash, partitions: seq<int>)
    ensures JoinAll(hash, [], partitions) == NOTHING_FOLDED
  {
    if partitions != [] {
      JoinAllOfNothing(hash, partitions[..|partitions| - 1]);
      JoinNothing();
    }
  }

  /** One more event, seen from the last partition of a list. */
  lemma JoinLastStepped(hash: Hash, joined: Stats, events: seq<Event>, event: Event, last: int)
    ensures event.Partition() == last ==>
              Join(joined, StatsOf(hash, Only(events + [event], last)))
              == Step(hash, Join(joined, StatsOf(hash, Only(events, last))), event)
    ensures event.Partition() != last ==> Only(events + [event], last) == Only(events, last)
    ensures Join(Step(hash, joined, event), StatsOf(hash, Only(events, last)))
         == Step(hash, Join(joined, StatsOf(hash, Only(events, last))), event)
  {
    hide Join, Step;
    assert (events + [event])[..|events|] == events;
    JoinStepped(hash, joined, StatsOf(hash, Only(events, last)), event);
    StatsStepped(hash, Only(events, last), event);
  }

  lemma {:induction false} JoinAllStepped(hash: Hash, events: seq<Event>, event: Event, partitions: seq<int>)
    requires Distinct(partitions)
    ensures var before := JoinAll(hash, events, partitions);
            JoinAll(hash, events + [event], partitions)
            == if event.Partition() in partitions then Step(hash, before, event) else before
  {
    hide Join, Step, StatsOf, Only;
    if partitions != [] {
      var front, last := partitions[..|partitions| - 1], partitions[|partitions| - 1];
      assert partitions == front + [last];
      assert last !in front;
      JoinAllStepped(hash, events, event, front);
      JoinLastStepped(hash, JoinAll(hash, events, front), events, event, last);
    }
  }

  lemma StatsStepped(hash: Hash, events: seq<Event>, event: Event)
    ensures StatsOf(hash, events + [event]) == Step(hash, StatsOf(hash, events), event)
  {
    assert (events + [event])[..|events|] == events;
  }

  /**
    The totals are the join of the partitions: counters sum, offset and timestamp bounds are the outermost,
    registers the largest, size histograms and hour counts add. For any list of partitions that holds each
    partition of the stream once.
  */
  lemma {:induction false} TotalsAreTheJoin(hash: Hash, events: seq<Event>, partitions: seq<int>)
    requires Distinct(partitions) && forall event | event in events :: event.Partition() in partitions
    ensures StatsOf(hash, events) == JoinAll(hash, events, partitions)
  {
    if events == [] {
      JoinAllOfNothing(hash, partitions);
    } else {
      var front, last := events[..|events| - 1], events[|events| - 1];
      assert events == front + [last];
      assert last.Partition() in partitions;
      TotalsAreTheJoin(hash, front, partitions);
      JoinAllStepped(hash, front, last, partitions);
      StatsStepped(hash, front, last);
    }
  }

  // ----- the hour chart and its cap -----

  datatype Hours = Hours(counts: map<int, nat>, truncated: bool)

  /** One hour counted: a new bucket is opened only while there is room. */
  function CountHour(h: Hours, r: Record): Hours {
    if r.timestamp < 0 then h
    else
      var hour := r.timestamp / HOUR;
      if |h.counts| < MAX_HOURLY_BUCKETS || hour in h.counts then h.(counts := Bump(h.counts, hour))
      else h.(truncated := true)
  }

  function HoursOf(events: seq<Event>): Hours {
    if events == [] then Hours(map[], false)
    else
      var last := events[|events| - 1];
      var before := HoursOf(events[..|events| - 1]);
      if last.Recorded? then CountHour(before, last.record) else before
  }

  /** `kept` are hours of the exact chart, each with its exact count. */
  predicate ExactPart(kept: map<int, nat>, exact: map<int, nat>) {
    forall hour | hour in kept :: hour in exact && kept[hour] == exact[hour]
  }

  lemma CardinalityOfKeys(a: map<int, nat>, b: map<int, nat>)
    requires a.Keys <= b.Keys
    ensures |a| <= |b|
    ensures |a| == |b| <==> a.Keys == b.Keys
  {
    assert b.Keys == a.Keys + (b.Keys - a.Keys);
    assert |b.Keys| == |a.Keys| + |b.Keys - a.Keys|;
  }

  /**
    The chart never holds more than the cap. It is truncated exactly when the stream spans more hours than
    that, every hour it does show is exact, and untruncated it is the whole exact chart.
  */
  lemma {:induction false} HourChart(hash: Hash, events: seq<Event>)
    ensures var chart, exact := HoursOf(events), StatsOf(hash, events).hours;
            && ExactPart(chart.counts, exact)
            && |chart.counts| == (if |exact| < 10_000 then |exact| else 10_000)
            && (chart.truncated <==> |exact| > 10_000)
            && (!chart.truncated ==> chart.counts == exact)
  {
    if events != [] {
      var front, last := events[..|events| - 1], events[|events| - 1];
      HourChart(hash, front);
      if last.Recorded? && last.record.timestamp >= 0 {
        CountHourKeepsExact(HoursOf(front), StatsOf(hash, front).hours, last.record);
      }
    }
  }

  lemma CountHourKeepsExact(chart: Hours, exact: map<int, nat>, r: Record)
    requires r.timestamp >= 0 && ExactPart(chart.counts, exact)
    requires |chart.counts| == if |exact| < MAX_HOURLY_BUCKETS then |exact| else MAX_HOURLY_BUCKETS
    requires chart.truncated <==> |exact| > MAX_HOURLY_BUCKETS
    requires !chart.truncated ==> chart.counts == exact
    ensures var after, counted := CountHour(chart, r), StepHours(exact, r);
            && ExactPart(after.counts, counted)
            && |after.counts| == (if |counted| < MAX_HOURLY_BUCKETS then |counted| else MAX_HOURLY_BUCKETS)
            && (after.truncated <==> |counted| > MAX_HOURLY_BUCKETS)
            && (!after.truncated ==> after.counts == counted)
  {
    var hour := r.timestamp / HOUR;
    var after, counted := CountHour(chart, r), StepHours(exact, r);
    assert forall h | h in chart.counts.Keys :: h in exact.Keys;
    CardinalityOfKeys(chart.counts, exact);
    BumpSize(exact, hour);
    BumpSize(chart.counts, hour);
    CardinalityOfKeys(after.counts, counted);
  }

  lemma BumpSize(counts: map<int, nat>, hour: int)
    ensures |Bump(counts, hour)| == |counts| + if hour in counts then 0 else 1
  {
    assert Bump(counts, hour).Keys == counts.Keys + {hour};
  }

  lemma {:induction false} JoinAllHours(hash: Hash, events: seq<Event>, partitions: seq<int>, p: int)
    requires p in partitions
    ensures StatsOf(hash, Only(events, p)).hours.Keys <= JoinAll(hash, events, partitions).hours.Keys
  {
    var front, last := partitions[..|partitions| - 1], partitions[|partitions| - 1];
    assert partitions == front + [last];
    if p in front {
      JoinAllHours(hash, events, front, p);
    }
  }

  /** If the topic's chart is whole, so is every partition's, and the partitions' charts add up to it. */
  lemma UntruncatedTotals(hash: Hash, events: seq<Event>, partitions: seq<int>)
    requires Distinct(partitions) && forall event | event in events :: event.Partition() in partitions
    requires !HoursOf(events).truncated
    ensures HoursOf(events).counts == JoinAll(hash, events, partitions).hours
    ensures forall p | p in partitions ::
              && !HoursOf(Only(events, p)).truncated
              && HoursOf(Only(events, p)).counts == StatsOf(hash, Only(events, p)).hours
  {
    HourChart(hash, events);
    TotalsAreTheJoin(hash, events, partitions);
    forall p | p in partitions
      ensures !HoursOf(Only(events, p)).truncated
           && HoursOf(Only(events, p)).counts == StatsOf(hash, Only(events, p)).hours
    {
      HourChart(hash, Only(events, p));
      JoinAllHours(hash, events, partitions, p);
      CardinalityOfKeys(StatsOf(hash, Only(events, p)).hours, StatsOf(hash, events).hours);
    }
  }

  // ----- the books balance -----

  function PayloadLength(r: Record): nat {
    (if r.key.Some? then |r.key.value| else 0) + (if r.value.Some? then |r.value.value| else 0)
  }

  function PayloadBytes(events: seq<Event>): nat {
    if events == [] then 0
    else
      var last := events[|events| - 1];
      PayloadBytes(events[..|events| - 1]) + if last.Recorded? then PayloadLength(last.record) else 0
  }

  /**
    Every record has its key and its value either sized or counted as absent, and the bytes scanned are the
    bytes sized, as long as 64 bits hold them.
  */
  lemma {:induction false} BooksBalance(hash: Hash, events: seq<Event>)
    ensures var s := StatsOf(hash, events);
            && s.counters.total == s.keySizes.count + s.counters.nullKeys
            && s.counters.total == s.valueSizes.count + s.counters.nullValues
            && s.keySizes.sum + s.valueSizes.sum <= PayloadBytes(events)
            && (PayloadBytes(events) <= U64_MAX ==> s.keySizes.sum + s.valueSizes.sum == PayloadBytes(events))
            && (s.counters.minOffset.None? <==> s.counters.total == 0)
  {
    if events != [] {
      BooksBalance(hash, events[..|events| - 1]);
    }
  }
}
