/**
  The drop-oldest hand-off of crates/kaas-ui-api/src/streaming.rs: what is done under the lock, and the
  protocol around it, in every interleaving of its lock and notify steps.
*/
module Rings {
  import opened Text

  // ----- under the lock -----

  datatype Slots<T> = Slots(queue: seq<T>, capacity: nat, dropped: nat, senderGone: bool, receiverGone: bool)

  /** One push: the newest `capacity` items stay. */
  function Pushed<T>(s: Slots<T>, item: T): Slots<T> {
    if s.receiverGone then s
    else
      var queue := s.queue + [item];
      var over := if |queue| > s.capacity then |queue| - s.capacity else 0;
      s.(queue := queue[over..], dropped := s.dropped + over)
  }

  /** The state behind the mutex. */
  class Shared<T> {
    var queue: seq<T>
    const capacity: nat
    var dropped: nat
    var senderGone: bool
    var receiverGone: bool

    ghost function View(): Slots<T>
      reads this
    {
      Slots(queue, capacity, dropped, senderGone, receiverGone)
    }

    ghost predicate Valid()
      reads this
    {
      |queue| <= capacity && capacity >= 1
    }

    /** `ring(capacity)`: never less than one slot. */
    constructor (capacity: nat)
      ensures Valid() && View() == Slots([], if capacity < 1 then 1 else capacity, 0, false, false)
    {
      this.capacity := if capacity < 1 then 1 else capacity;
      queue, dropped, senderGone, receiverGone := [], 0, false, false;
    }

    /** The locked part of `push`: evict from the front until the item fits. */
    method Push(item: T) returns (evicted: nat)
      requires Valid()
      modifies this
      ensures Valid() && View() == Pushed(old(View()), item)
      ensures evicted == dropped - old(dropped)
      ensures evicted == if !receiverGone && old(|queue|) == capacity then 1 else 0
    {
      if receiverGone {
        return 0;
      }
      queue := queue + [item];
      evicted := 0;
      while |queue| > capacity
        invariant 0 <= evicted <= |old(queue) + [item]|
        invariant queue == (old(queue) + [item])[evicted..]
        invariant evicted == 0 || |queue| >= capacity
        invariant unchanged(`dropped) && unchanged(`senderGone) && unchanged(`receiverGone)
      {
        queue := queue[1..];
        evicted := evicted + 1;
      }
      dropped := dropped + evicted;
      assert (old(queue) + [item])[0..] == old(queue) + [item];
    }

    /** The locked part of `recv`. */
    method Take() returns (item: Option<T>)
      requires Valid()
      modifies this
      ensures Valid()
      ensures View() == old(View()).(queue := if old(queue) == [] then [] else old(queue)[1..])
      ensures item == if old(queue) == [] then None else Some(old(queue)[0])
    {
      if queue == [] {
        return None;
      }
      item := Some(queue[0]);
      queue := queue[1..];
    }
  }

  // ----- the protocol -----

  /**
    Where a call to `recv` is: its `Notified` made, the queue found empty, queued as the waiter, or
    woken and not yet run.
  */
  datatype Phase = Idle | Started | Checked | Parked | Woken

  /**
    The ring with its `ready` notification. `permit` is a stored wake-up and `owed` counts the
    `notify_one` calls still to come from pushes and drops that have let go of the lock.
    `accepted`, `fates` and `received` are history: what was pushed, what became of each item that left
    the queue (received or dropped), and what the receiver got.
  */
  datatype State<T> = State(slots: Slots<T>, permit: bool, owed: nat, phase: Phase, ended: bool,
                            accepted: seq<T>, fates: seq<bool>, received: seq<T>)

  datatype Step<T> =
    | Push(item: T)
    | Notify
    | DropSender
    | Start
    | Check
    | Poll
    | Resume
    | Cancel
    | DropReceiver

  function Fresh<T>(capacity: nat): State<T> {
    State(Slots([], if capacity < 1 then 1 else capacity, 0, false, false), false, 0, Idle, false, [], [], [])
  }

  predicate Enabled<T>(s: State<T>, step: Step<T>) {
    match step
    case Push(_) => !s.slots.senderGone
    case Notify => s.owed > 0
    case DropSender => !s.slots.senderGone
    case Start => s.phase == Idle && !s.slots.receiverGone
    case Check => s.phase == Started
    case Poll => s.phase == Checked
    case Resume => s.phase == Woken
    case Cancel => s.phase != Idle
    case DropReceiver => s.phase == Idle && !s.slots.receiverGone
  }

  function Falses(n: nat): seq<bool> { seq(n, _ => false) }

  function Next<T>(s: State<T>, step: Step<T>): State<T>
    requires Enabled(s, step)
  {
    match step
    case Push(item) =>
      if s.slots.receiverGone then s
      else
        var after := Pushed(s.slots, item);
        s.(slots := after, owed := s.owed + 1, accepted := s.accepted + [item],
           fates := s.fates + Falses(|s.slots.queue| + 1 - |after.queue|))
    case Notify =>
      if s.phase == Parked then s.(owed := s.owed - 1, phase := Woken)
      else s.(owed := s.owed - 1, permit := true)
    case DropSender => s.(slots := s.slots.(senderGone := true), owed := s.owed + 1)
    case Start => s.(phase := Started)
    case Check =>
      if s.slots.queue != [] then
        s.(slots := s.slots.(queue := s.slots.queue[1..]), phase := Idle,
           fates := s.fates + [true], received := s.received + [s.slots.queue[0]])
      else if s.slots.senderGone then s.(phase := Idle, ended := true)
      else s.(phase := Checked)
    case Poll => if s.permit then s.(permit := false, phase := Started) else s.(phase := Parked)
    case Resume => s.(phase := Started)
    // A woken waiter that is dropped hands its wake-up back.
    case Cancel => s.(phase := Idle, permit := s.permit || s.phase == Woken)
    case DropReceiver => s.(slots := s.slots.(receiverGone := true))
  }

  // ----- the window law -----

  function Falsehoods(fates: seq<bool>): nat {
    if fates == [] then 0 else Falsehoods(fates[..|fates| - 1]) + if fates[|fates| - 1] then 0 else 1
  }

  /** The items whose fate was to be received, in push order. */
  function Received<T>(items: seq<T>, fates: seq<bool>): seq<T>
    requires |items| == |fates|
  {
    if fates == [] then []
    else
      var n := |fates| - 1;
      Received(items[..n], fates[..n]) + if fates[n] then [items[n]] else []
  }

  /**
    The queue is the newest accepted items and never more than the capacity; every older one was either
    received, in push order, or dropped; and the dropped ones are counted.
  */
  ghost predicate Window<T>(s: State<T>) {
    && 1 <= s.slots.capacity && |s.slots.queue| <= s.slots.capacity
    && |s.fates| + |s.slots.queue| == |s.accepted|
    && s.slots.queue == s.accepted[|s.fates|..]
    && s.received == Received(s.accepted[..|s.fates|], s.fates)
    && s.slots.dropped == Falsehoods(s.fates)
  }

  lemma {:induction false} WindowCounts<T>(items: seq<T>, fates: seq<bool>)
    requires |items| == |fates|
    ensures |Received(items, fates)| + Falsehoods(fates) == |items|
  {
    if fates != [] {
      WindowCounts(items[..|fates| - 1], fates[..|fates| - 1]);
    }
  }

  lemma FateAdded<T>(accepted: seq<T>, fates: seq<bool>, fate: bool)
    requires |fates| < |accepted|
    ensures Falsehoods(fates + [fate]) == Falsehoods(fates) + if fate then 0 else 1
    ensures Received(accepted[..|fates| + 1], fates + [fate])
         == Received(accepted[..|fates|], fates) + if fate then [accepted[|fates|]] else []
  {
    assert (fates + [fate])[..|fates|] == fates;
    assert accepted[..|fates| + 1][..|fates|] == accepted[..|fates|];
  }

  lemma PushKeepsWindow<T>(s: State<T>, item: T)
    requires Window(s) && Enabled(s, Push(item)) && !s.slots.receiverGone
    ensures Window(Next(s, Push(item)))
  {
    var t := Next(s, Push(item));
    var k := |s.fates|;
    assert t.accepted[..k] == s.accepted[..k];
    if |s.slots.queue| == s.slots.capacity {
      FateAdded(t.accepted, s.fates, false);
      assert Falses(1) == [false];
      assert t.slots.queue == (s.slots.queue + [item])[1..] == t.accepted[k + 1..];
    } else {
      assert Falses(0) == [];
      assert t.fates == s.fates;
      assert t.slots.queue == s.slots.queue + [item] == t.accepted[k..];
    }
  }

  lemma CheckKeepsWindow<T>(s: State<T>)
    requires Window(s) && Enabled(s, Check) && s.slots.queue != []
    ensures Window(Next(s, Check))
  {
    FateAdded(s.accepted, s.fates, true);
    assert s.accepted[|s.fates|] == s.slots.queue[0];
    assert s.accepted[|s.fates| + 1..] == s.slots.queue[1..];
  }

  lemma StepKeepsWindow<T>(s: State<T>, step: Step<T>)
    requires Window(s) && Enabled(s, step)
    ensures Window(Next(s, step))
  {
    match step {
      case Push(item) =>
        if !s.slots.receiverGone {
          PushKeepsWindow(s, item);
        }
      case Check =>
        if s.slots.queue != [] {
          CheckKeepsWindow(s);
        }
      case _ =>
    }
  }

  // ----- no lost wake-up -----

  /** There is something for `recv` to answer with. */
  predicate Answerable<T>(s: State<T>) {
    s.slots.queue != [] || s.slots.senderGone
  }

  /**
    A receiver that is about to sleep, or asleep, with something to answer has a wake-up stored or owed.
    `None` was only ever answered once everything was received or dropped.
  */
  ghost predicate Awake<T>(s: State<T>) {
    && (s.phase == Parked ==> !s.permit)
    && (s.phase == Checked && Answerable(s) ==> s.permit || s.owed > 0)
    && (s.phase == Parked && Answerable(s) ==> s.owed > 0)
    && (s.ended ==> s.slots.senderGone && s.slots.queue == [])
  }

  lemma StepKeepsAwake<T>(s: State<T>, step: Step<T>)
    requires Window(s) && Awake(s) && Enabled(s, step)
    ensures Awake(Next(s, step))
  {
  }

  // ----- every run -----

  /** The states of a run, one step after another. */
  ghost predicate IsRun<T>(states: seq<State<T>>, steps: seq<Step<T>>, capacity: nat) {
    && |states| == |steps| + 1
    && states[0] == Fresh(capacity)
    && forall i | 0 <= i < |steps| :: Enabled(states[i], steps[i]) && states[i + 1] == Next(states[i], steps[i])
  }

  /** Both laws hold in every state of every interleaving. */
  lemma {:induction false} EveryRun<T>(states: seq<State<T>>, steps: seq<Step<T>>, capacity: nat, i: nat)
    requires IsRun(states, steps, capacity) && i < |states|
    ensures Window(states[i]) && Awake(states[i])
    ensures states[i].slots.capacity == if capacity < 1 then 1 else capacity
  {
    if i > 0 {
      EveryRun(states, steps, capacity, i - 1);
      StepKeepsWindow(states[i - 1], steps[i - 1]);
      StepKeepsAwake(states[i - 1], steps[i - 1]);
    }
  }

  // ----- no false alarm -----

  /** The wake-ups stored, owed, and delivered to a receiver that has not run. */
  function WakeUps<T>(s: State<T>): nat {
    s.owed + (if s.permit then 1 else 0) + (if s.phase == Woken then 1 else 0)
  }

  /** Every wake-up there is comes of a push or of the sender's going. */
  ghost predicate Earned<T>(s: State<T>) {
    WakeUps(s) <= |s.accepted| + if s.slots.senderGone then 1 else 0
  }

  /** A push and the sender's going make one; a receiver uses one up to look again; nothing else makes any. */
  lemma WakeUpsAreUsedOnce<T>(s: State<T>, step: Step<T>)
    requires Awake(s) && Enabled(s, step)
    ensures var t := Next(s, step);
            match step
            case Push(_) => WakeUps(t) == WakeUps(s) + if s.slots.receiverGone then 0 else 1
            case DropSender => WakeUps(t) == WakeUps(s) + 1
            case Poll => WakeUps(t) == WakeUps(s) - if t.phase == Started then 1 else 0
            case Resume => WakeUps(t) == WakeUps(s) - 1
            // A wake-up meets a stored one, and they are one.
            case Notify => WakeUps(t) == WakeUps(s) - if s.permit then 1 else 0
            case Cancel => WakeUps(t) == WakeUps(s) - if s.permit && s.phase == Woken then 1 else 0
            case _ => WakeUps(t) == WakeUps(s)
  {
  }

  /** So a receiver is never woken before anything was pushed or the sender went, in any interleaving. */
  lemma {:induction false} WakeUpsAreEarned<T>(states: seq<State<T>>, steps: seq<Step<T>>, capacity: nat, i: nat)
    requires IsRun(states, steps, capacity) && i < |states|
    ensures Earned(states[i])
  {
    if i > 0 {
      WakeUpsAreEarned(states, steps, capacity, i - 1);
      EveryRun(states, steps, capacity, i - 1);
      EarnedStep(states[i - 1], steps[i - 1]);
    }
  }

  lemma EarnedStep<T>(s: State<T>, step: Step<T>)
    requires Awake(s) && Enabled(s, step) && Earned(s)
    ensures Earned(Next(s, step))
  {
    WakeUpsAreUsedOnce(s, step);
    hide WakeUps;
  }

  /** Nothing is unaccounted for; once `None` is answered, nothing is left. */
  lemma Conservation<T>(states: seq<State<T>>, steps: seq<Step<T>>, capacity: nat, i: nat)
    requires IsRun(states, steps, capacity) && i < |states|
    ensures var s := states[i];
            && s.slots.dropped + |s.received| + |s.slots.queue| == |s.accepted|
            && (s.ended ==> s.slots.dropped + |s.received| == |s.accepted|)
  {
    EveryRun(states, steps, capacity, i);
    var s := states[i];
    WindowCounts(s.accepted[..|s.fates|], s.fates);
  }

  /**
    Finishing one `recv` with the wake-ups already stored or owed, and no new step of the sender: what a
    scheduler runs for a receiver that has something to answer.
  */
  function Finish<T>(s: State<T>): State<T>
    requires Awake(s) && Answerable(s) && s.phase != Idle
  {
    match s.phase
    case Started => Next(s, Check)
    case Checked =>
      var told := if s.permit then s else Next(s, Notify);
      Next(Next(told, Poll), Check)
    case Parked => Next(Next(Next(s, Notify), Resume), Check)
    case Woken => Next(Next(s, Resume), Check)
  }

  /** A `recv` with something to answer is never stuck: it takes the oldest item, or answers `None`. */
  lemma RecvFinishes<T>(s: State<T>)
    requires Window(s) && Awake(s) && Answerable(s) && s.phase != Idle
    ensures var t := Finish(s);
            && t.phase == Idle && Awake(t)
            && (if s.slots.queue == [] then t.ended && t.received == s.received && t.slots.queue == []
                else t.received == s.received + [s.slots.queue[0]] && t.slots.queue == s.slots.queue[1..])
  {
  }

  // ----- whatever the schedule -----

  predicate AllEnabled<T>(s: State<T>, steps: seq<Step<T>>)
    decreases |steps|
  {
    steps == [] || (Enabled(s, steps[0]) && AllEnabled(Next(s, steps[0]), steps[1..]))
  }

  function Run<T>(s: State<T>, steps: seq<Step<T>>): State<T>
    requires AllEnabled(s, steps)
    decreases |steps|
  {
    if steps == [] then s else Run(Next(s, steps[0]), steps[1..])
  }

  /** The receiver's own steps and the notifications still owed: nothing new, and no giving up. */
  predicate Quiet<T>(step: Step<T>) {
    step == Check || step == Poll || step == Resume || step == Notify
  }

  /** What is left to do before the call under way is answered. */
  function Work<T>(s: State<T>): nat {
    var own := match s.phase
      case Idle => 0
      case Started => 1
      case Woken => 2
      case Parked => 3
      case Checked => 4;
    own + s.owed
  }

  /** The call that was under way in `s` has taken the oldest item, or answered the end. */
  ghost predicate Answered<T>(s: State<T>, t: State<T>) {
    && t.phase == Idle
    && if s.slots.queue == [] then t.ended && t.received == s.received && t.slots.queue == []
       else t.received == s.received + [s.slots.queue[0]] && t.slots.queue == s.slots.queue[1..]
  }

  /** It is still under way, and nothing but the wake-ups has moved. */
  ghost predicate UnderWay<T>(s: State<T>, t: State<T>) {
    t.phase != Idle && t.slots == s.slots && t.received == s.received
  }

  lemma QuietStep<T>(s: State<T>, t: State<T>, step: Step<T>)
    requires Window(t) && Awake(t) && Answerable(s) && (UnderWay(s, t) || Answered(s, t))
    requires Quiet(step) && Enabled(t, step)
    ensures UnderWay(s, Next(t, step)) || Answered(s, Next(t, step))
    ensures Work(Next(t, step)) < Work(t)
  {
  }

  lemma QuietStepIsEnabled<T>(t: State<T>) returns (step: Step<T>)
    requires Awake(t) && Answerable(t) && t.phase != Idle
    ensures Quiet(step) && Enabled(t, step)
  {
    step := match t.phase
      case Started => Check
      case Checked => Poll
      case Parked => Notify
      case _ => Resume;
  }

  lemma {:induction false} ScheduleFrom<T>(s: State<T>, t: State<T>, steps: seq<Step<T>>)
    requires Window(t) && Awake(t) && Answerable(s) && (UnderWay(s, t) || Answered(s, t))
    requires AllEnabled(t, steps) && forall step | step in steps :: Quiet(step)
    ensures |steps| <= Work(t)
    ensures var u := Run(t, steps);
            Awake(u) && (UnderWay(s, u) || Answered(s, u))
    decreases |steps|
  {
    if steps != [] {
      hide Window, Awake, UnderWay, Answered, Work;
      assert steps[0] in steps && forall step | step in steps[1..] :: step in steps;
      QuietStep(s, t, steps[0]);
      StepKeepsWindow(t, steps[0]);
      StepKeepsAwake(t, steps[0]);
      ScheduleFrom(s, Next(t, steps[0]), steps[1..]);
    }
  }

  /**
    However the receiver's steps and the owed notifications are interleaved, a call to `recv` with something to
    answer answers it: the schedule is no longer than the work there is, some step is always enabled before the
    answer, and the answer is the oldest item, or `None` where there is none.
  */
  lemma EveryScheduleAnswers<T>(s: State<T>, steps: seq<Step<T>>)
    requires Window(s) && Awake(s) && Answerable(s) && s.phase != Idle
    requires AllEnabled(s, steps) && forall step | step in steps :: Quiet(step)
    ensures |steps| <= Work(s)
    ensures Answered(s, Run(s, steps)) || exists step :: Quiet(step) && Enabled(Run(s, steps), step)
  {
    ScheduleFrom(s, s, steps);
    var t := Run(s, steps);
    if !Answered(s, t) {
      var step := QuietStepIsEnabled(t);
    }
  }

  /** Receive until `None`: what the reader does. */
  function Drained<T>(s: State<T>): State<T>
    requires Window(s) && Awake(s) && s.slots.senderGone && !s.slots.receiverGone && s.phase == Idle
    decreases |s.slots.queue|
  {
    StepKeepsAwake(s, Start);
    var started := Next(s, Start);
    RecvFinishes(started);
    var t := Finish(started);
    if s.slots.queue == [] then t
    else
      FinishKeepsWindow(started);
      Drained(t)
  }

  lemma FinishKeepsWindow<T>(s: State<T>)
    requires Window(s) && Awake(s) && Answerable(s) && s.phase != Idle
    ensures Window(Finish(s)) && Finish(s).slots.senderGone == s.slots.senderGone
    ensures Finish(s).slots.receiverGone == s.slots.receiverGone
  {
    match s.phase {
      case Started => StepKeepsWindow(s, Check);
      case Checked =>
        var told := if s.permit then s else Next(s, Notify);
        StepKeepsWindow(Next(told, Poll), Check);
      case Parked => StepKeepsWindow(Next(Next(s, Notify), Resume), Check);
      case Woken => StepKeepsWindow(Next(s, Resume), Check);
    }
  }

  /** After the sender is gone, every queued item is received, in order, before `None`. */
  lemma {:induction false} QueuedItemsAreReceived<T>(s: State<T>)
    requires Window(s) && Awake(s) && s.slots.senderGone && !s.slots.receiverGone && s.phase == Idle
    ensures Drained(s).ended && Drained(s).received == s.received + s.slots.queue
    decreases |s.slots.queue|
  {
    hide Finish;
    StepKeepsAwake(s, Start);
    var started := Next(s, Start);
    RecvFinishes(started);
    FinishKeepsWindow(started);
    if s.slots.queue != [] {
      var t := Finish(started);
      QueuedItemsAreReceived(t);
      assert s.slots.queue == [s.slots.queue[0]] + s.slots.queue[1..];
      assert Drained(s) == Drained(t);
    }
  }
}
