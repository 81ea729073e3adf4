/** The accumulators of crates/kaas-ui-core/src/analysis.rs as they are kept, each proved to hold its fold. */
module AnalysisBuilders {
  import opened Text
  import opened SizeHistogram
  import opened SizeSketches
  import opened HyperLogLogs
  import opened TopicAnalysis

  /** The lengths a size sketch is offered. */
  function KeyLengths(events: seq<Event>): seq<U64> {
    if events == [] then []
    else
      var last := events[|events| - 1];
      KeyLengths(events[..|events| - 1])
      + if last.Recorded? && last.record.key.Some? then [Length(last.record.key.value)] else []
  }

  function ValueLengths(events: seq<Event>): seq<U64> {
    if events == [] then []
    else
      var last := events[|events| - 1];
      ValueLengths(events[..|events| - 1])
      + if last.Recorded? && last.record.value.Some? then [Length(last.record.value.value)] else []
  }

  /** The keys a cardinality sketch is offered. */
  function Keys(events: seq<Event>): seq<Bytes> {
    if events == [] then []
    else
      var last := events[|events| - 1];
      Keys(events[..|events| - 1]) + if last.Recorded? && last.record.key.Some? then [last.record.key.value] else []
  }

  lemma OfferedLast(hash: Hash, items: seq<Bytes>, item: Bytes)
    ensures RegistersOf(hash, items + [item]) == OfferTo(RegistersOf(hash, items), hash(item))
  {
    assert (items + [item])[..|items|] == items;
  }

  /**
    The registers are those of the keys seen, so their count depends on which keys there were and not on
    their order or repeats.
  */
  lemma {:induction false} KeyRegisters(hash: Hash, events: seq<Event>)
    ensures StatsOf(hash, events).keys == RegistersOf(hash, Keys(events))
  {
    hide StepCounters, StepSizes, StepHours, OfferTo;
    if events != [] {
      var front, last := events[..|events| - 1], events[|events| - 1];
      KeyRegisters(hash, front);
      if last.Recorded? && last.record.key.Some? {
        OfferedLast(hash, Keys(front), last.record.key.value);
      } else {
        assert Keys(events) == Keys(front);
      }
    }
  }

  /** The values a cardinality sketch is offered. */
  function Values(events: seq<Event>): seq<Bytes> {
    if events == [] then []
    else
      var last := events[|events| - 1];
      Values(events[..|events| - 1]) + if last.Recorded? && last.record.value.Some? then [last.record.value.value] else []
  }

  /** And those of the values are counted the same way. */
  lemma {:induction false} ValueRegisters(hash: Hash, events: seq<Event>)
    ensures StatsOf(hash, events).values == RegistersOf(hash, Values(events))
  {
    hide StepCounters, StepSizes, StepHours, OfferTo;
    if events != [] {
      var front, last := events[..|events| - 1], events[|events| - 1];
      ValueRegisters(hash, front);
      if last.Recorded? && last.record.value.Some? {
        OfferedLast(hash, Values(front), last.record.value.value);
      } else {
        assert Values(events) == Values(front);
      }
    }
  }

  class Accumulator {
    var counters: Counters
    const keys: HyperLogLog
    const values: HyperLogLog
    const keySizes: SizeSketch
    const valueSizes: SizeSketch
    var hourly: map<int, nat>
    var hourlyTruncated: bool
    /** What this accumulator was fed. */
    ghost var events: seq<Event>

    /** Fixed at construction: an accumulator never takes on another object. */
    ghost function Repr(): set<object> {
      {this, keys.registers, values.registers, keySizes, valueSizes}
    }

    ghost predicate Parts() {
      && keys.Valid() && values.Valid() && keys.hash == values.hash
      && keys.registers != values.registers && keySizes != valueSizes
    }

    ghost predicate Valid()
      reads Repr()
    {
      && Parts() && keySizes.Valid() && valueSizes.Valid()
      && var s := StatsOf(keys.hash, events);
         && counters == s.counters
         && keys.registers[..] == s.keys
         && values.registers[..] == s.values
         && keySizes.View() == s.keySizes
         && valueSizes.View() == s.valueSizes
         && keySizes.offered == KeyLengths(events)
         && valueSizes.offered == ValueLengths(events)
         && Hours(hourly, hourlyTruncated) == HoursOf(events)
    }

    constructor (hash: Hash)
      ensures Valid() && fresh(Repr()) && keys.hash == hash && events == []
    {
      counters := NO_COUNTS;
      keys := new HyperLogLog(hash);
      values := new HyperLogLog(hash);
      keySizes := new SizeSketch();
      valueSizes := new SizeSketch();
      hourly, hourlyTruncated, events := map[], false, [];
    }

    /** The size half of `record`: one key or value offered to its registers and its histogram. */
    static method OfferItem(registers: HyperLogLog, sizes: SizeSketch, item: Option<Bytes>)
      requires registers.Valid() && sizes.Valid()
      modifies registers.registers, sizes
      ensures sizes.Valid()
      ensures registers.registers[..] == StepRegisters(old(registers.registers[..]), registers.hash, item)
      ensures sizes.View() == StepSizes(old(sizes.View()), item)
      ensures sizes.offered == old(sizes.offered) + if item.Some? then [Length(item.value)] else []
    {
      if item.Some? {
        registers.Offer(item.value);
        ghost var before := sizes.offered;
        sizes.Offer(Length(item.value));
        assert (before + [Length(item.value)])[..|before|] == before;
      }
    }

    /** The offsets of a record, and which clock stamped it. */
    method CountOffsets(r: Record)
      modifies this`counters
      ensures counters == CountRecord(old(counters), r)
    {
      var least := if counters.minOffset.None? || r.offset < counters.minOffset.value then r.offset else counters.minOffset.value;
      var most := if counters.maxOffset.None? || counters.maxOffset.value < r.offset then r.offset else counters.maxOffset.value;
      counters := counters.(total := counters.total + 1, minOffset := Some(least), maxOffset := Some(most));
      if r.logAppend {
        counters := counters.(sawAppend := true);
      } else {
        counters := counters.(sawCreate := true);
      }
    }

    /** The timestamp of a record, and the hour it falls in. */
    method CountTime(r: Record)
      modifies this`counters, this`hourly, this`hourlyTruncated
      ensures counters == CountTimestamp(old(counters), r.timestamp)
      ensures Hours(hourly, hourlyTruncated) == CountHour(Hours(old(hourly), old(hourlyTruncated)), r)
    {
      var ts := r.timestamp;
      if ts < 0 {
        counters := counters.(missingTimestamps := counters.missingTimestamps + 1);
      } else {
        var least := if counters.minTimestamp.None? || ts < counters.minTimestamp.value then ts else counters.minTimestamp.value;
        var most := if counters.maxTimestamp.None? || counters.maxTimestamp.value < ts then ts else counters.maxTimestamp.value;
        counters := counters.(minTimestamp := Some(least), maxTimestamp := Some(most));
        var hour := ts / HOUR;
        if |hourly| < MAX_HOURLY_BUCKETS || hour in hourly {
          var before := if hour in hourly then hourly[hour] else 0;
          hourly := hourly[hour := before + 1];
        } else {
          hourlyTruncated := true;
        }
      }
    }

    method CountAbsent(r: Record)
      modifies this`counters
      ensures counters == CountNulls(old(counters), r)
    {
      if r.key.None? {
        counters := counters.(nullKeys := counters.nullKeys + 1);
      }
      if r.value.None? {
        counters := counters.(nullValues := counters.nullValues + 1);
      }
    }

    method Record(r: Record)
      requires Valid()
      modifies Repr()
      ensures Valid() && events == old(events) + [Recorded(r)]
    {
      CountOffsets(r);
      CountTime(r);
      CountAbsent(r);
      OfferItem(keys, keySizes, r.key);
      OfferItem(values, valueSizes, r.value);
      ghost var before := events;
      events := events + [Recorded(r)];
      assert events[..|events| - 1] == before;
    }

    method Malformed(partition: int)
      requires Valid()
      modifies this
      ensures Valid() && events == old(events) + [Event.Malformed(partition)]
    {
      counters := counters.(malformed := counters.malformed + 1);
      ghost var before := events;
      events := events + [Event.Malformed(partition)];
      assert events[..|events| - 1] == before;
    }
  }

  /** One accumulator fed everything, and one a partition. */
  class TopicAnalysisBuilder {
    const totals: Accumulator
    var partitions: map<int, Accumulator>
    var bytesScanned: nat
    ghost var events: seq<Event>
    /** The objects of the partitions' accumulators. */
    ghost var footprint: set<object>

    ghost function Repr(): set<object>
      reads this
    {
      {this} + totals.Repr() + footprint
    }

    /** No two accumulators share an object. */
    ghost predicate Separate()
      reads this`partitions, this`footprint
    {
      && this !in totals.Repr() && this !in footprint && totals.Repr() !! footprint
      && (forall p | p in partitions :: partitions[p].Repr() <= footprint)
      && forall p, q | p in partitions && q in partitions && p != q :: partitions[p].Repr() !! partitions[q].Repr()
    }

    /** Each partition's accumulator holds the events of that partition, and each partition seen has one. */
    ghost predicate PartitionsHold(seen: seq<Event>)
      requires Separate()
      reads this`partitions, this`footprint, footprint
    {
      && (forall event | event in seen :: event.Partition() in partitions)
      && forall p | p in partitions ::
           && partitions[p].Valid()
           && partitions[p].keys.hash == totals.keys.hash
           && partitions[p].events == Only(seen, p)
    }

    ghost predicate Valid()
      reads Repr()
    {
      && Separate()
      && totals.Valid() && totals.events == events
      && bytesScanned == PayloadBytes(events)
      && PartitionsHold(events)
    }

    constructor (hash: Hash)
      ensures Valid() && fresh(Repr()) && events == [] && totals.keys.hash == hash
    {
      totals := new Accumulator(hash);
      partitions, bytesScanned, events, footprint := map[], 0, [], {};
    }

    /** `entry(partition).or_insert_with(Accumulator::new)`. */
    method Entry(partition: int, ghost seen: seq<Event>)
      requires Separate() && PartitionsHold(seen)
      modifies this`partitions, this`footprint
      ensures Separate() && PartitionsHold(seen)
      ensures fresh(footprint - old(footprint))
      ensures partition in partitions
    {
      hide Accumulator.Valid, Only;
      if partition !in partitions {
        var accumulator := new Accumulator(totals.keys.hash);
        NoneOf(seen, partition);
        partitions := partitions[partition := accumulator];
        footprint := footprint + accumulator.Repr();
      }
    }

    /** The partition half of an event: its own accumulator takes it, and no other changes. */
    method FeedPartition(event: Event, ghost seen: seq<Event>)
      requires Separate() && PartitionsHold(seen)
      modifies this`partitions, this`footprint, footprint
      ensures Separate() && PartitionsHold(seen + [event])
      ensures fresh(footprint - old(footprint))
    {
      var partition := event.Partition();
      Entry(partition, seen);
      Feed(event, seen);
    }

    method Feed(event: Event, ghost seen: seq<Event>)
      requires Separate() && PartitionsHold(seen) && event.Partition() in partitions
      modifies partitions[event.Partition()].Repr()
      ensures Separate() && PartitionsHold(seen + [event])
    {
      hide Accumulator.Valid;
      var accumulator := partitions[event.Partition()];
      match event {
        case Recorded(r) => accumulator.Record(r);
        case Malformed(partition) => accumulator.Malformed(partition);
      }
      forall p | p in partitions
        ensures partitions[p].Valid()
        ensures partitions[p].events == Only(seen + [event], p)
      {
        OnlyStepped(seen, event, p);
        assert p != event.Partition() ==> partitions[p].Repr() !! accumulator.Repr();
      }
    }

    /** Fold one record, into the totals and its partition's accumulator. */
    method Record(r: Record)
      requires Valid()
      modifies Repr()
      ensures Valid() && fresh(Repr() - old(Repr()))
      ensures events == old(events) + [Recorded(r)]
    {
      hide Accumulator.Valid, PartitionsHold, PayloadBytes;
      PayloadStepped(events, Recorded(r));
      bytesScanned := bytesScanned + PayloadLength(r);
      totals.Record(r);
      assert PartitionsHold(events);
      FeedPartition(Recorded(r), events);
      events := events + [Recorded(r)];
    }

    /** A spoiled batch counts twice: once overall, and once for its partition. */
    method Malformed(partition: int)
      requires Valid()
      modifies Repr()
      ensures Valid() && fresh(Repr() - old(Repr()))
      ensures events == old(events) + [Event.Malformed(partition)]
    {
      hide Accumulator.Valid, PartitionsHold, PayloadBytes;
      PayloadStepped(events, Event.Malformed(partition));
      totals.Malformed(partition);
      assert PartitionsHold(events);
      FeedPartition(Event.Malformed(partition), events);
      events := events + [Event.Malformed(partition)];
    }
  }

  lemma PayloadStepped(events: seq<Event>, event: Event)
    ensures PayloadBytes(events + [event])
         == PayloadBytes(events) + if event.Recorded? then PayloadLength(event.record) else 0
  {
    assert (events + [event])[..|events|] == events;
  }

  lemma OnlyStepped(events: seq<Event>, event: Event, p: int)
    ensures Only(events + [event], p) == if event.Partition() == p then Only(events, p) + [event] else Only(events, p)
  {
    assert (events + [event])[..|events|] == events;
  }

  /** A partition's events: its records and the batches of it that would not decode, all of them and no others. */
  lemma {:induction false} OnlyMeans(events: seq<Event>, p: int, event: Event)
    ensures event in Only(events, p)
       <==> event in events && (event == Event.Malformed(p) || (event.Recorded? && event.record.partition == p))
  {
    if events != [] {
      var front, last := events[..|events| - 1], events[|events| - 1];
      OnlyMeans(front, p, event);
      assert events == front + [last];
    }
  }

  lemma {:induction false} NoneOf(events: seq<Event>, partition: int)
    requires forall event | event in events :: event.Partition() != partition
    ensures Only(events, partition) == []
  {
    if events != [] {
      var front := events[..|events| - 1];
      assert forall event | event in front :: event in events;
      assert events[|events| - 1] in events;
      NoneOf(front, partition);
    }
  }

  /**
    What the rendered page can rely on, in whatever order the records arrived: the totals row is the join of
    the partition rows, and if its hour chart is whole then so is each of theirs, and they add up to it.
  */
  lemma TotalsJoinPartitions(builder: TopicAnalysisBuilder, order: seq<int>)
    requires builder.Valid()
    requires Distinct(order) && forall p :: p in order <==> p in builder.partitions
    ensures var hash, totals := builder.totals.keys.hash, builder.totals;
            var joined := JoinAll(hash, builder.events, order);
            && totals.counters == joined.counters
            && totals.keys.registers[..] == joined.keys && totals.values.registers[..] == joined.values
            && totals.keySizes.View() == joined.keySizes && totals.valueSizes.View() == joined.valueSizes
            && (!totals.hourlyTruncated ==>
                  && totals.hourly == joined.hours
                  && forall p | p in order ::
                       && !builder.partitions[p].hourlyTruncated
                       && builder.partitions[p].hourly == StatsOf(hash, Only(builder.events, p)).hours)
  {
    var hash := builder.totals.keys.hash;
    TotalsAreTheJoin(hash, builder.events, order);
    if !builder.totals.hourlyTruncated {
      UntruncatedTotals(hash, builder.events, order);
      forall p | p in order
        ensures !builder.partitions[p].hourlyTruncated
             && builder.partitions[p].hourly == StatsOf(hash, Only(builder.events, p)).hours
      {
        assert builder.partitions[p].Valid() && builder.partitions[p].events == Only(builder.events, p);
      }
    }
  }
}
