/**
  The stream governor of crates/kaas-ui-api/src/streaming.rs: who holds a slot, who is evicted, and what
  the latches say. Latches are kept in the order they are made, so a latch is its index.
*/
module Governors {
  import opened Text
  import opened Numbers

  const MAX_PER_PRINCIPAL: nat := 5
  const MAX_TOTAL: nat := 50
  const U64: nat := 0x1_0000_0000_0000_0000

  /** A stream that holds a slot: its id, and its latch. */
  datatype Live = Live(id: nat, stop: nat)

  /** What a stream is charged to, and whether only one caller can be behind it. */
  datatype Principal = Principal(key: string, distinguishable: bool)

  datatype Refusal = Process(limit: nat)

  datatype Permit = Permit(principal: string, id: nat, evicted: nat)

  type Streams = map<string, seq<Live>>

  // ----- counting -----

  /** Every stream counted, over all callers. */
  ghost function Count(streams: Streams): nat
    decreases |streams.Keys|
  {
    if streams.Keys == {} then 0
    else
      var key :| key in streams.Keys;
      |streams[key]| + Count(streams - {key})
  }

  lemma RemovedTwice(streams: Streams, a: string, b: string)
    requires a in streams && b in streams && a != b
    ensures streams - {a} - {b} == streams - {b} - {a}
    ensures (streams - {a})[b] == streams[b] && (streams - {b})[a] == streams[a]
  {
  }

  lemma {:induction false} CountWithout(streams: Streams, key: string)
    requires key in streams
    ensures Count(streams) == |streams[key]| + Count(streams - {key})
    decreases |streams.Keys|
  {
    var first :| first in streams.Keys && Count(streams) == |streams[first]| + Count(streams - {first});
    if first != key {
      RemovedTwice(streams, first, key);
      CountWithout(streams - {first}, key);
      CountWithout(streams - {key}, first);
    }
  }

  /** Setting one caller's streams changes the count by exactly that caller's difference. */
  lemma CountUpdated(streams: Streams, key: string, entry: seq<Live>)
    ensures Count(streams[key := entry])
         == Count(streams) - (if key in streams then |streams[key]| else 0) + |entry|
  {
    CountWithout(streams[key := entry], key);
    assert streams[key := entry] - {key} == streams - {key};
    if key in streams {
      CountWithout(streams, key);
    } else {
      assert streams - {key} == streams;
    }
  }

  lemma CountRemoved(streams: Streams, key: string)
    requires key in streams
    ensures Count(streams - {key}) == Count(streams) - |streams[key]|
  {
    CountWithout(streams, key);
  }

  lemma {:induction false} CountOfNone(streams: Streams)
    requires forall key | key in streams :: streams[key] != []
    ensures Count(streams) == 0 <==> streams == map[]
  {
    if streams != map[] {
      var key :| key in streams.Keys;
      CountWithout(streams, key);
    }
  }

  // ----- the steps, as a state machine -----

  datatype State = State(total: nat, nextId: nat, streams: Streams, latches: seq<bool>)

  const EMPTY := State(0, 0, map[], [])

  function EntryOf(s: State, key: string): seq<Live> {
    if key in s.streams then s.streams[key] else []
  }

  /** Whether an acquisition evicts the caller's oldest stream. */
  predicate Evicts(s: State, who: Principal) {
    who.distinguishable && |EntryOf(s, who.key)| >= MAX_PER_PRINCIPAL
  }

  /** `ShutdownSignal::stop`: told once, remembered forever. */
  function Trip(latches: seq<bool>, at: nat): seq<bool> {
    if at < |latches| then latches[at := true] else latches
  }

  function Kept(s: State, who: Principal): seq<Live> {
    if Evicts(s, who) then EntryOf(s, who.key)[1..] else EntryOf(s, who.key)
  }

  function Acquired(s: State, who: Principal): (State, Permit) {
    var latches := if Evicts(s, who) then Trip(s.latches, EntryOf(s, who.key)[0].stop) else s.latches;
    (State((if Evicts(s, who) then SatSub(s.total, 1) else s.total) + 1, (s.nextId + 1) % U64,
           s.streams[who.key := Kept(s, who) + [Live(s.nextId, |s.latches|)]], latches + [false]),
     Permit(who.key, s.nextId, |s.latches|))
  }

  /** Where a permit's stream stands among its caller's, if it is still counted. */
  function Position(entry: seq<Live>, id: nat): (at: Option<nat>)
    ensures at.Some? ==> at.value < |entry| && entry[at.value].id == id
    ensures at.None? ==> forall live | live in entry :: live.id != id
  {
    if entry == [] then None
    else if entry[0].id == id then Some(0)
    else
      match Position(entry[1..], id)
      case Some(at) => Some(at + 1)
      case None => None
  }

  function Without(entry: seq<Live>, at: nat): seq<Live>
    requires at < |entry|
  {
    entry[..at] + entry[at + 1..]
  }

  function Dropped(s: State, permit: Permit): State {
    if permit.principal !in s.streams then s
    else
      var entry := s.streams[permit.principal];
      match Position(entry, permit.id)
      case None => s
      case Some(at) =>
        var rest := Without(entry, at);
        s.(total := SatSub(s.total, 1),
           streams := if rest == [] then s.streams - {permit.principal}
                      else s.streams[permit.principal := rest])
  }

  // ----- what every step keeps -----

  /** The count is right, no caller is kept with nothing, and the process ceiling holds. */
  predicate Counted(s: State) {
    && s.nextId < U64
    && (forall key | key in s.streams :: s.streams[key] != [])
    && (forall key | key in s.streams :: forall live | live in s.streams[key] :: live.stop < |s.latches|)
    && s.total <= MAX_TOTAL
  }

  ghost predicate Balanced(s: State) {
    s.total == Count(s.streams)
  }

  lemma AcquireKeepsCount(s: State, who: Principal)
    requires Counted(s) && Balanced(s) && s.total < MAX_TOTAL
    ensures Counted(Acquired(s, who).0) && Balanced(Acquired(s, who).0)
    ensures Evicts(s, who) ==> s.total >= MAX_PER_PRINCIPAL
  {
    var t := Acquired(s, who).0;
    CountUpdated(s.streams, who.key, t.streams[who.key]);
    if Evicts(s, who) {
      CountWithout(s.streams, who.key);
    }
  }

  /** A permit that finds its stream finds a count above zero: no subtraction ever saturates. */
  lemma DropKeepsCount(s: State, permit: Permit)
    requires Counted(s) && Balanced(s)
    ensures Counted(Dropped(s, permit)) && Balanced(Dropped(s, permit))
    ensures Position(EntryOf(s, permit.principal), permit.id).Some? ==> s.total >= 1
  {
    if permit.principal in s.streams {
      var entry := s.streams[permit.principal];
      var found := Position(entry, permit.id);
      if found.Some? {
        CountWithout(s.streams, permit.principal);
        var rest := Without(entry, found.value);
        CountUpdated(s.streams, permit.principal, rest);
        CountRemoved(s.streams, permit.principal);
        assert forall live | live in rest :: live in entry;
      }
    }
  }

  // ----- ids and latches, until the id counter wraps -----

  /** A stream's id is its latch, and the next of both is the same: true until 2^64 streams were opened. */
  predicate Unwrapped(s: State) {
    && s.nextId == |s.latches|
    && forall key | key in s.streams :: forall live | live in s.streams[key] :: live.id == live.stop
  }

  predicate Increasing(entry: seq<Live>) {
    forall i, j | 0 <= i < j < |entry| :: entry[i].id < entry[j].id
  }

  /** A caller's own stream is among those counted for it. */
  predicate Counting(s: State, permit: Permit) {
    exists live | live in EntryOf(s, permit.principal) :: live.id == permit.id
  }

  /** What the permits in circulation say about the governor, and the governor about them. */
  ghost predicate Consistent(s: State, held: set<Permit>) {
    && Counted(s) && Balanced(s) && Unwrapped(s)
    // Oldest first, each stream once.
    && (forall key | key in s.streams :: Increasing(s.streams[key]))
    && (forall a, b | a in held && b in held && a.id == b.id :: a == b)
    // A permit's latch is its own; it is tripped exactly when the stream is no longer counted.
    && (forall permit | permit in held :: permit.id == permit.evicted < |s.latches|)
    && (forall permit | permit in held :: s.latches[permit.evicted] <==> !Counting(s, permit))
    // Every stream counted is somebody's.
    && forall key | key in s.streams :: forall live | live in s.streams[key] :: Permit(key, live.id, live.stop) in held
  }

  lemma EmptyIsConsistent()
    ensures Consistent(EMPTY, {})
  {
  }

  lemma AcquireKeepsConsistent(s: State, who: Principal, held: set<Permit>)
    requires Consistent(s, held) && s.total < MAX_TOTAL && s.nextId + 1 < U64
    ensures var (t, permit) := Acquired(s, who);
            permit !in held && Consistent(t, held + {permit})
  {
    AcquireKeepsCount(s, who);
    AcquireKeepsPermits(s, who, held);
    AcquireKeepsLatches(s, who, held);
  }

  lemma AcquireKeepsPermits(s: State, who: Principal, held: set<Permit>)
    requires Consistent(s, held) && s.nextId + 1 < U64
    ensures var (t, permit) := Acquired(s, who);
            && permit !in held && Unwrapped(t)
            && (forall key | key in t.streams :: Increasing(t.streams[key]))
            && (forall a, b | a in held + {permit} && b in held + {permit} && a.id == b.id :: a == b)
            && (forall key | key in t.streams :: forall live | live in t.streams[key] ::
                  Permit(key, live.id, live.stop) in held + {permit})
  {
    var (t, permit) := Acquired(s, who);
    assert permit.id == |s.latches| && permit !in held;
    var after := t.streams[who.key];
    assert after == Kept(s, who) + [Live(permit.id, permit.evicted)];
    AcquiredList(s, who, held);
    forall key, live | key in t.streams && live in t.streams[key]
      ensures live.id == live.stop && Permit(key, live.id, live.stop) in held + {permit}
    {
      if key != who.key {
        assert t.streams[key] == s.streams[key];
      }
    }
    assert forall key | key in t.streams && key != who.key :: t.streams[key] == s.streams[key];
  }

  /** What one caller's list is like. */
  lemma ListOf(s: State, key: string, held: set<Permit>)
    requires Consistent(s, held)
    ensures Increasing(EntryOf(s, key)) && s.nextId == |s.latches|
    ensures forall live | live in EntryOf(s, key) ::
              live.id == live.stop < |s.latches| && Permit(key, live.id, live.stop) in held
  {
  }

  lemma AcquiredList(s: State, who: Principal, held: set<Permit>)
    requires Consistent(s, held)
    ensures var after := Kept(s, who) + [Live(s.nextId, |s.latches|)];
            && Increasing(after)
            && forall live | live in after ::
                 && live.id == live.stop
                 && Permit(who.key, live.id, live.stop) in held + {Permit(who.key, s.nextId, |s.latches|)}
  {
    hide Consistent;
    var entry, kept := EntryOf(s, who.key), Kept(s, who);
    ListOf(s, who.key, held);
    assert kept == entry || kept == entry[1..];
    assert forall i | 0 <= i < |kept| :: kept[i] in entry;
    assert Increasing(kept);
  }

  lemma AcquireKeepsLatches(s: State, who: Principal, held: set<Permit>)
    requires Consistent(s, held) && s.nextId + 1 < U64
    ensures var (t, permit) := Acquired(s, who);
            forall p | p in held + {permit} ::
              p.id == p.evicted < |t.latches| && (t.latches[p.evicted] <==> !Counting(t, p))
  {
    var (t, permit) := Acquired(s, who);
    var entry, after := EntryOf(s, who.key), EntryOf(t, who.key);
    forall p | p in held + {permit}
      ensures p.id == p.evicted < |t.latches| && (t.latches[p.evicted] <==> !Counting(t, p))
    {
      if p == permit {
        assert after[|after| - 1] == Live(permit.id, permit.evicted);
      } else if p.principal == who.key {
        AcquireKeepsOwn(s, who, held, p);
      } else {
        assert EntryOf(t, p.principal) == EntryOf(s, p.principal);
        if Evicts(s, who) {
          OldestIsHeld(s, who.key, held);
          assert p.id != entry[0].id;
        }
      }
    }
  }

  lemma OldestIsHeld(s: State, key: string, held: set<Permit>)
    requires Consistent(s, held) && EntryOf(s, key) != []
    ensures var oldest := EntryOf(s, key)[0];
            oldest.id == oldest.stop && Permit(key, oldest.id, oldest.stop) in held
  {
    assert EntryOf(s, key)[0] in s.streams[key];
  }

  lemma AcquireKeepsOwn(s: State, who: Principal, held: set<Permit>, p: Permit)
    requires Consistent(s, held) && s.nextId + 1 < U64
    requires p in held && p.principal == who.key
    ensures var t := Acquired(s, who).0;
            t.latches[p.evicted] <==> !Counting(t, p)
  {
    var t := Acquired(s, who).0;
    var entry, after := EntryOf(s, who.key), EntryOf(t, who.key);
    assert after == Kept(s, who) + [Live(s.nextId, |s.latches|)];
    assert Counting(t, p) <==> exists live | live in Kept(s, who) :: live.id == p.id by {
      assert p.id < s.nextId;
      AddedStream(Kept(s, who), Live(s.nextId, |s.latches|), p.id);
    }
    if Evicts(s, who) {
      OldestIsHeld(s, who.key, held);
      FirstRemoved(entry, p.id);
      assert Counting(s, p) <==> exists live | live in entry :: live.id == p.id;
    }
  }

  lemma AddedStream(kept: seq<Live>, added: Live, id: nat)
    requires id != added.id
    ensures (exists live | live in kept + [added] :: live.id == id) <==> (exists live | live in kept :: live.id == id)
  {
    assert forall live | live in kept :: live in kept + [added];
  }

  lemma FirstRemoved(entry: seq<Live>, id: nat)
    requires entry != [] && Increasing(entry)
    ensures (exists live | live in entry[1..] :: live.id == id)
       <==> entry[0].id != id && exists live | live in entry :: live.id == id
  {
    assert entry == [entry[0]] + entry[1..];
    assert forall live | live in entry[1..] :: live in entry && entry[0].id < live.id;
  }

  /**
    Who makes room: the caller's own oldest stream and nobody else. One latch is tripped if one is evicted and
    none otherwise, every stream it leaves counted is newer, and no other caller's streams change.
  */
  lemma OnlyTheOldestMakesRoom(s: State, who: Principal, held: set<Permit>)
    requires Consistent(s, held) && s.nextId + 1 < U64
    ensures var (t, permit) := Acquired(s, who);
            && (forall key | key != who.key :: EntryOf(t, key) == EntryOf(s, key))
            && (forall i | 0 <= i < |s.latches| ::
                  t.latches[i] <==> s.latches[i] || (Evicts(s, who) && i == EntryOf(s, who.key)[0].stop))
            && (Evicts(s, who) ==> forall live | live in EntryOf(t, who.key) :: EntryOf(s, who.key)[0].id < live.id)
            && !t.latches[permit.evicted]
            && |EntryOf(t, who.key)| == |EntryOf(s, who.key)| + (if Evicts(s, who) then 0 else 1)
  {
    hide Consistent;
    var entry := EntryOf(s, who.key);
    ListOf(s, who.key, held);
    if Evicts(s, who) {
      assert entry[0] in entry;
      FirstRemoved(entry, entry[0].id);
      NewerStay(entry, Live(s.nextId, |s.latches|));
    }
  }

  /**
    When an acquisition evicts: exactly where the key names one caller who has five streams already. That
    caller's oldest then goes; otherwise the list is the old one and the new stream.
  */
  lemma SixthStreamEvicts(s: State, who: Principal, held: set<Permit>)
    requires Consistent(s, held)
    ensures var (t, permit) := Acquired(s, who);
            var entry, added := EntryOf(s, who.key), Live(permit.id, permit.evicted);
            && |t.latches| == |s.latches| + 1
            && ((exists i | 0 <= i < |s.latches| :: t.latches[i] && !s.latches[i]) <==> who.distinguishable && |entry| >= 5)
            && EntryOf(t, who.key) == (if who.distinguishable && |entry| >= 5 then entry[1..] else entry) + [added]
  {
    var t, entry := Acquired(s, who).0, EntryOf(s, who.key);
    if who.distinguishable && |entry| >= 5 {
      OldestIsHeld(s, who.key, held);
      var permit := Permit(who.key, entry[0].id, entry[0].stop);
      assert permit in held && Counting(s, permit);
      assert t.latches[entry[0].stop] && !s.latches[entry[0].stop];
    }
  }

  lemma NewerStay(entry: seq<Live>, added: Live)
    requires entry != [] && Increasing(entry) && entry[0].id < added.id
    ensures forall live | live in entry[1..] + [added] :: entry[0].id < live.id
  {
    forall live | live in entry[1..] + [added] ensures entry[0].id < live.id {
      var i :| 0 <= i < |entry| && (entry[1..] + [added])[i] == live;
    }
  }

  /** Dropping a permit whose stream was evicted changes nothing: it was released when it was evicted. */
  lemma LateDropIsNothing(s: State, permit: Permit)
    requires Position(EntryOf(s, permit.principal), permit.id).None?
    ensures Dropped(s, permit) == s
  {
  }

  lemma DropKeepsConsistent(s: State, permit: Permit, held: set<Permit>)
    requires Consistent(s, held) && permit in held
    ensures Consistent(Dropped(s, permit), held - {permit})
  {
    DropKeepsCount(s, permit);
    var entry := EntryOf(s, permit.principal);
    var found := Position(entry, permit.id);
    if found.None? {
      LateDropIsNothing(s, permit);
      assert forall live | live in entry :: live.id != permit.id;
    } else {
      DropKeepsLists(s, permit, held, found.value);
      DropKeepsLatches(s, permit, held, found.value);
    }
  }

  lemma WithoutList(entry: seq<Live>, at: nat)
    requires at < |entry| && Increasing(entry)
    ensures Increasing(Without(entry, at))
    ensures forall live | live in Without(entry, at) :: live in entry && live.id != entry[at].id
  {
    forall live | live in Without(entry, at) ensures live in entry && live.id != entry[at].id {
      var i :| 0 <= i < |Without(entry, at)| && Without(entry, at)[i] == live;
      assert live == entry[if i < at then i else i + 1];
    }
  }

  lemma DropKeepsLists(s: State, permit: Permit, held: set<Permit>, at: nat)
    requires Consistent(s, held) && permit in held
    requires Position(EntryOf(s, permit.principal), permit.id) == Some(at)
    ensures var t := Dropped(s, permit);
            && (forall key | key in t.streams :: Increasing(t.streams[key]))
            && (forall key | key in t.streams :: forall live | live in t.streams[key] ::
                  live.id == live.stop && Permit(key, live.id, live.stop) in held - {permit})
  {
    var t := Dropped(s, permit);
    var entry := s.streams[permit.principal];
    WithoutList(entry, at);
    forall key | key in t.streams
      ensures Increasing(t.streams[key])
      ensures forall live | live in t.streams[key] ::
                live.id == live.stop && Permit(key, live.id, live.stop) in held - {permit}
    {
      if key == permit.principal {
        assert t.streams[key] == Without(entry, at);
      } else {
        assert t.streams[key] == s.streams[key];
      }
    }
  }

  lemma DropKeepsLatches(s: State, permit: Permit, held: set<Permit>, at: nat)
    requires Consistent(s, held) && permit in held
    requires Position(EntryOf(s, permit.principal), permit.id) == Some(at)
    ensures var t := Dropped(s, permit);
            && t.latches == s.latches
            && forall p | p in held - {permit} :: Counting(t, p) <==> Counting(s, p)
  {
    var t := Dropped(s, permit);
    var entry := EntryOf(s, permit.principal);
    assert EntryOf(t, permit.principal) == Without(entry, at);
    forall p | p in held - {permit} ensures Counting(t, p) <==> Counting(s, p) {
      if p.principal == permit.principal {
        DropKeepsOthers(entry, at, p.id);
      } else {
        assert EntryOf(t, p.principal) == EntryOf(s, p.principal);
      }
    }
  }

  lemma DropKeepsOthers(entry: seq<Live>, at: nat, id: nat)
    requires at < |entry| && entry[at].id != id
    ensures (exists live | live in Without(entry, at) :: live.id == id) <==> (exists live | live in entry :: live.id == id)
  {
    if live :| live in entry && live.id == id {
      var i :| 0 <= i < |entry| && entry[i] == live;
      assert Without(entry, at)[if i < at then i else i - 1] == live;
    }
  }

  lemma StreamIsHeld(s: State, held: set<Permit>, key: string) returns (permit: Permit)
    requires Consistent(s, held) && key in s.streams
    ensures permit in held
  {
    var oldest := s.streams[key][0];
    permit := Permit(key, oldest.id, oldest.stop);
    assert oldest in s.streams[key];
  }

  /** When the last permit is gone so is the last count: the total is zero and no caller is remembered. */
  lemma AllDropped(s: State)
    requires Consistent(s, {})
    ensures s.total == 0 && s.streams == map[]
  {
    if key :| key in s.streams {
      var permit := StreamIsHeld(s, {}, key);
      assert false;
    }
    CountOfNone(s.streams);
  }

  // ----- every run -----

  datatype Op = Acquire(who: Principal) | Release(permit: Permit)

  /** One call, on the governor and the permits in circulation: a refusal changes neither. */
  function Step(s: State, held: set<Permit>, op: Op): (State, set<Permit>) {
    match op
    case Acquire(who) =>
      if s.total >= MAX_TOTAL then (s, held)
      else (Acquired(s, who).0, held + {Acquired(s, who).1})
    case Release(permit) => (Dropped(s, permit), held - {permit})
  }

  /** Acquisitions in any order, and each permit dropped at most once, whenever it likes. */
  ghost predicate IsRun(states: seq<State>, held: seq<set<Permit>>, ops: seq<Op>) {
    && |states| == |held| == |ops| + 1
    && states[0] == EMPTY && held[0] == {}
    && forall i | 0 <= i < |ops| ::
         && (ops[i].Release? ==> ops[i].permit in held[i])
         && (states[i + 1], held[i + 1]) == Step(states[i], held[i], ops[i])
  }

  lemma LastStep(states: seq<State>, held: seq<set<Permit>>, ops: seq<Op>, i: nat)
    requires IsRun(states, held, ops) && 0 < i < |states|
    ensures |states| == |held| == |ops| + 1
    ensures (states[i], held[i]) == Step(states[i - 1], held[i - 1], ops[i - 1])
    ensures |states[i - 1].latches| <= |states[i].latches|
  {
    assert (states[i - 1 + 1], held[i - 1 + 1]) == Step(states[i - 1], held[i - 1], ops[i - 1]);
  }

  /** The count, and the ceiling on it, hold in every run whatsoever. */
  lemma {:induction false} EveryRunIsCounted(states: seq<State>, held: seq<set<Permit>>, ops: seq<Op>, i: nat)
    requires IsRun(states, held, ops) && i < |states|
    ensures Counted(states[i]) && Balanced(states[i]) && states[i].total <= 50
  {
    if i > 0 {
      EveryRunIsCounted(states, held, ops, i - 1);
      match ops[i - 1] {
        case Acquire(who) =>
          if states[i - 1].total < MAX_TOTAL {
            AcquireKeepsCount(states[i - 1], who);
          }
        case Release(permit) => DropKeepsCount(states[i - 1], permit);
      }
    }
  }

  /** And permits, ids and latches agree with it, for as long as fewer than 2^64 streams have been opened. */
  lemma {:induction false} EveryRunIsConsistent(states: seq<State>, held: seq<set<Permit>>, ops: seq<Op>, i: nat)
    requires IsRun(states, held, ops) && i < |states| && |states[i].latches| < 0x1_0000_0000_0000_0000
    ensures Consistent(states[i], held[i])
  {
    if i == 0 {
      EmptyIsConsistent();
    } else {
      assert |states[i - 1].latches| <= |states[i].latches|;
      EveryRunIsConsistent(states, held, ops, i - 1);
      match ops[i - 1] {
        case Acquire(who) =>
          if states[i - 1].total < MAX_TOTAL {
            AcquireKeepsConsistent(states[i - 1], who, held[i - 1]);
          }
        case Release(permit) => DropKeepsConsistent(states[i - 1], permit, held[i - 1]);
      }
    }
  }

  // ----- past 2^64 streams -----

  predicate Ordered(entry: seq<Live>) {
    forall i, j | 0 <= i < j < |entry| :: entry[i].stop < entry[j].stop
  }

  /** A caller's streams in the order of opening, each under its number modulo 2^64, of the first `count` opened. */
  predicate ListNumbered(entry: seq<Live>, count: nat) {
    Ordered(entry) && forall live | live in entry :: live.stop < count && live.id == live.stop % 0x1_0000_0000_0000_0000
  }

  predicate Numbered(s: State) {
    s.nextId == |s.latches| % U64 && forall key | key in s.streams :: ListNumbered(s.streams[key], |s.latches|)
  }

  lemma ListGrows(entry: seq<Live>, count: nat)
    requires ListNumbered(entry, count)
    ensures ListNumbered(entry, count + 1)
    ensures ListNumbered(entry + [Live(count % U64, count)], count + 1)
  {
  }

  lemma ListShrinks(entry: seq<Live>, at: nat, count: nat)
    requires ListNumbered(entry, count) && at < |entry|
    ensures ListNumbered(Without(entry, at), count)
    ensures entry[at] !in Without(entry, at)
  {
    var rest := Without(entry, at);
    forall i | 0 <= i < |rest| ensures rest[i] in entry && rest[i] != entry[at] {
      assert rest[i] == entry[if i < at then i else i + 1];
    }
  }

  lemma AcquireKeepsNumbers(s: State, who: Principal)
    requires Numbered(s)
    ensures Numbered(Acquired(s, who).0)
  {
    hide ListNumbered;
    var t, count := Acquired(s, who).0, |s.latches|;
    NextNumber(count);
    ListNumberedOf(s, who.key);
    if Evicts(s, who) {
      ListShrinks(EntryOf(s, who.key), 0, count);
      assert Without(EntryOf(s, who.key), 0) == Kept(s, who);
    }
    ListGrows(Kept(s, who), count);
    forall key | key in t.streams ensures ListNumbered(t.streams[key], count + 1) {
      if key != who.key {
        ListGrows(s.streams[key], count);
      }
    }
  }

  lemma NextNumber(n: nat)
    ensures (n % U64 + 1) % U64 == (n + 1) % U64
  {
  }

  lemma ListNumberedOf(s: State, key: string)
    requires Numbered(s)
    ensures ListNumbered(EntryOf(s, key), |s.latches|)
  {
  }

  lemma DropKeepsNumbers(s: State, permit: Permit)
    requires Numbered(s)
    ensures Numbered(Dropped(s, permit))
  {
    hide ListNumbered;
    if permit.principal in s.streams {
      var found := Position(s.streams[permit.principal], permit.id);
      if found.Some? {
        ListShrinks(s.streams[permit.principal], found.value, |s.latches|);
      }
    }
  }

  /** In every run, however long. */
  lemma {:induction false} EveryRunIsNumbered(states: seq<State>, held: seq<set<Permit>>, ops: seq<Op>, i: nat)
    requires IsRun(states, held, ops) && i < |states|
    ensures Numbered(states[i])
  {
    if i > 0 {
      EveryRunIsNumbered(states, held, ops, i - 1);
      match ops[i - 1] {
        case Acquire(who) => AcquireKeepsNumbers(states[i - 1], who);
        case Release(permit) => DropKeepsNumbers(states[i - 1], permit);
      }
    }
  }

  /**
    What the wrap costs: a drop releases its own stream exactly when no older stream of that caller, opened a
    multiple of 2^64 streams before, is still counted. Otherwise the older one is released in its place.
  */
  lemma DropReleasesItsOwnIff(s: State, permit: Permit, at: nat)
    requires Numbered(s) && at < |EntryOf(s, permit.principal)|
    requires EntryOf(s, permit.principal)[at] == Live(permit.id, permit.evicted)
    ensures var entry := EntryOf(s, permit.principal);
            var after := EntryOf(Dropped(s, permit), permit.principal);
            && (entry[at] !in after <==> forall older | older in entry[..at] :: older.stop % U64 != permit.evicted % U64)
            && (entry[at] in after ==>
                  exists older | older in entry[..at] :: older.id == permit.id && older !in after)
  {
    hide Numbered, ListNumbered, Position;
    var entry := EntryOf(s, permit.principal);
    ListNumberedOf(s, permit.principal);
    NumbersOf(entry, |s.latches|);
    var found := Position(entry, permit.id).value;
    FirstWithId(entry, permit.id, at);
    ListShrinks(entry, found, |s.latches|);
    assert EntryOf(Dropped(s, permit), permit.principal) == Without(entry, found);
    assert forall older | older in entry[..at] :: older in entry;
    if found < at {
      assert entry[..at][found] == entry[found];
      assert entry[at] == Without(entry, found)[at - 1];
    } else {
      assert forall older | older in entry[..at] :: older.id != permit.id;
    }
  }

  lemma NumbersOf(entry: seq<Live>, count: nat)
    requires ListNumbered(entry, count)
    ensures forall live | live in entry :: live.id == live.stop % U64
  {
  }

  lemma {:induction false} FirstWithId(entry: seq<Live>, id: nat, at: nat)
    requires at < |entry| && entry[at].id == id
    ensures var found := Position(entry, id);
            && found.Some? && found.value <= at
            && forall older | older in entry[..found.value] :: older.id != id
  {
    if entry[0].id != id {
      FirstWithId(entry[1..], id, at - 1);
      var found := Position(entry[1..], id).value;
      assert entry[..found + 1] == [entry[0]] + entry[1..][..found];
    }
  }

  /**
    Which step of a run evicts which stream: an acquisition below fifty, for one caller who has five, and the
    oldest of those five. No stream is told to stop while its caller has fewer, or by anybody's drop.
  */
  lemma EvictedInRunIff(states: seq<State>, held: seq<set<Permit>>, ops: seq<Op>, i: nat, latch: nat)
    requires IsRun(states, held, ops) && i < |ops| && |states[i + 1].latches| < U64
    requires latch < |states[i].latches| && !states[i].latches[latch]
    ensures latch < |states[i + 1].latches|
    ensures states[i + 1].latches[latch]
       <==> && ops[i].Acquire? && ops[i].who.distinguishable && states[i].total < 50
            && var entry := EntryOf(states[i], ops[i].who.key);
               |entry| >= 5 && entry[0].stop == latch
  {
    hide Consistent;
    LastStep(states, held, ops, i + 1);
    EveryRunIsConsistent(states, held, ops, i);
    if ops[i].Acquire? && states[i].total < MAX_TOTAL {
      UnwrappedOf(states[i], held[i]);
      OnlyTheOldestMakesRoom(states[i], ops[i].who, held[i]);
    }
  }

  lemma UnwrappedOf(s: State, held: set<Permit>)
    requires Consistent(s, held)
    ensures s.nextId == |s.latches|
  {
  }

  /** A latch is told once and remembered: nothing a run does resets it. */
  lemma {:induction false} LatchesStayTripped(states: seq<State>, held: seq<set<Permit>>, ops: seq<Op>, i: nat, j: nat)
    requires IsRun(states, held, ops) && i <= j < |states|
    ensures |states[i].latches| <= |states[j].latches|
    ensures forall k | 0 <= k < |states[i].latches| && states[i].latches[k] :: states[j].latches[k]
  {
    if i < j {
      LatchesStayTripped(states, held, ops, i, j - 1);
    }
  }

  // ----- the per-caller ceiling -----

  /** A key that always named one caller never counts more than five streams. */
  lemma {:induction false} CallerCeiling(states: seq<State>, held: seq<set<Permit>>, ops: seq<Op>, i: nat, key: string)
    requires IsRun(states, held, ops) && i < |states|
    requires forall op | op in ops[..i] && op.Acquire? && op.who.key == key :: op.who.distinguishable
    ensures |EntryOf(states[i], key)| <= 5
  {
    if i > 0 {
      assert ops[..i] == ops[..i - 1] + [ops[i - 1]];
      CallerCeiling(states, held, ops, i - 1, key);
      assert ops[i - 1] in ops[..i];
    }
  }

  /** No stream of this key's was told to stop. */
  predicate Spared(s: State, held: set<Permit>, key: string) {
    forall p | p in held && p.principal == key :: p.evicted < |s.latches| && !s.latches[p.evicted]
  }

  /** An acquisition under another key, or one that names nobody, trips no latch of this key's. */
  lemma AcquireSpares(s: State, who: Principal, held: set<Permit>, key: string)
    requires Consistent(s, held) && Spared(s, held, key)
    requires who.key == key ==> !who.distinguishable
    ensures Spared(Acquired(s, who).0, held + {Acquired(s, who).1}, key)
  {
    if Evicts(s, who) {
      OldestIsHeld(s, who.key, held);
    }
  }

  lemma StepSpares(s: State, op: Op, held: set<Permit>, key: string)
    requires Consistent(s, held) && Spared(s, held, key)
    requires op.Acquire? && op.who.key == key ==> !op.who.distinguishable
    ensures var (t, after) := Step(s, held, op);
            Spared(t, after, key)
  {
    hide Consistent;
    if op.Acquire? && s.total < MAX_TOTAL {
      hide Spared, Acquired;
      AcquireSpares(s, op.who, held, key);
    }
  }

  /** A key that never names one caller loses no stream, whatever else is acquired and dropped in between. */
  lemma {:induction false} SharedKeyIsNeverEvicted(states: seq<State>, held: seq<set<Permit>>, ops: seq<Op>, i: nat,
                                                   key: string)
    requires IsRun(states, held, ops) && i < |states| && |states[i].latches| < U64
    requires forall op | op in ops[..i] && op.Acquire? && op.who.key == key :: !op.who.distinguishable
    ensures Spared(states[i], held[i], key)
  {
    if i > 0 {
      hide IsRun, Step, Consistent, Spared;
      assert ops[..i] == ops[..i - 1] + [ops[i - 1]] && ops[i - 1] in ops[..i];
      LastStep(states, held, ops, i);
      SharedKeyIsNeverEvicted(states, held, ops, i - 1, key);
      EveryRunIsConsistent(states, held, ops, i - 1);
      StepSpares(states[i - 1], ops[i - 1], held[i - 1], key);
    }
  }

  /** And it may come to hold every slot there is: acquisitions under it alone. */
  function SharedKey(n: nat, key: string): State {
    if n == 0 then EMPTY else Step(SharedKey(n - 1, key), {}, Acquire(Principal(key, false))).0
  }

  lemma {:induction false} SharedKeyFillsTheProcess(n: nat, key: string)
    ensures |EntryOf(SharedKey(n, key), key)| == SharedKey(n, key).total == if n < 50 then n else 50
    ensures true !in SharedKey(n, key).latches
  {
    if n > 0 {
      SharedKeyFillsTheProcess(n - 1, key);
    }
  }

  lemma OldestHasALatch(s: State, key: string)
    requires Counted(s) && EntryOf(s, key) != []
    ensures EntryOf(s, key)[0].stop < |s.latches|
  {
    assert EntryOf(s, key)[0] in s.streams[key];
  }

  // ----- the governor as it is kept -----

  class StreamGovernor {
    var total: nat
    var nextId: nat
    var perPrincipal: Streams
    /** Every latch made, by the order of making: whether it has been told to stop. */
    var latches: seq<bool>
    /** The permits taken and not yet dropped. */
    ghost var held: set<Permit>

    ghost function View(): State
      reads this
    {
      State(total, nextId, perPrincipal, latches)
    }

    ghost predicate Valid()
      reads this
    {
      Counted(View()) && Balanced(View()) && (|latches| < U64 ==> Consistent(View(), held))
    }

    constructor ()
      ensures Valid() && View() == EMPTY && held == {}
    {
      total, nextId, perPrincipal, latches, held := 0, 0, map[], [], {};
      new;
      EmptyIsConsistent();
    }

    /** `acquire`: refused only at the process ceiling; at the caller's own, their oldest stream makes room. */
    method TakeSlot(who: Principal) returns (result: Result<Permit, Refusal>)
      requires Valid()
      modifies this
      ensures Valid()
      ensures result == if old(total) >= 50 then Err(Process(50)) else Ok(Acquired(old(View()), who).1)
      ensures (View(), held) == Step(old(View()), old(held), Acquire(who))
    {
      if total >= MAX_TOTAL {
        return Err(Process(MAX_TOTAL));
      }
      hide Consistent, Balanced, Counted;
      ghost var before := View();
      AcquireKeepsCount(before, who);
      if |latches| + 1 < U64 {
        AcquireKeepsConsistent(before, who, held);
      }
      var id := nextId;
      nextId := (nextId + 1) % U64;
      var latch := |latches|;
      latches := latches + [false];
      var entry := if who.key in perPrincipal then perPrincipal[who.key] else [];
      if who.distinguishable && |entry| >= MAX_PER_PRINCIPAL {
        var oldest := entry[0];
        entry := entry[1..];
        OldestHasALatch(before, who.key);
        latches := latches[oldest.stop := true];
        total := SatSub(total, 1);
      }
      perPrincipal := perPrincipal[who.key := entry + [Live(id, latch)]];
      total := total + 1;
      assert View() == Acquired(before, who).0;
      var permit := Permit(who.key, id, latch);
      held := held + {permit};
      result := Ok(permit);
    }

    /** `Drop for StreamPermit`, by id: the stream may be gone already. */
    method DropPermit(permit: Permit)
      requires Valid() && permit in held
      modifies this
      ensures Valid()
      ensures (View(), held) == Step(old(View()), old(held), Release(permit))
    {
      hide Consistent, Balanced, Counted;
      DropKeepsCount(View(), permit);
      if |latches| < U64 {
        DropKeepsConsistent(View(), permit, held);
      }
      held := held - {permit};
      if permit.principal !in perPrincipal {
        return;
      }
      var entry := perPrincipal[permit.principal];
      var position := Position(entry, permit.id);
      if position.None? {
        return;
      }
      entry := entry[..position.value] + entry[position.value + 1..];
      total := SatSub(total, 1);
      if entry == [] {
        perPrincipal := perPrincipal - {permit.principal};
      } else {
        perPrincipal := perPrincipal[permit.principal := entry];
      }
    }
  }
}
