/**
  One Connect cluster's client: the probe, the health it reports, and the connector-list cache of
  crates/kaas-ui-connect/src/client.rs. Instants and durations are nanoseconds; a request is its answer.
*/
module ConnectClients {
  import opened Text
  import opened Numbers
  import opened Bits
  import opened WriteGate
  import opened ConnectWire

  const SECOND: nat := 1_000_000_000
  const PROBE_BACKOFF_MIN: nat := SECOND
  const PROBE_BACKOFF_MAX: nat := 60 * SECOND
  const U32_MAX: nat := 0xFFFF_FFFF

  datatype ServerInfo = ServerInfo(version: Option<string>, commit: Option<string>, kafkaClusterId: Option<string>)

  datatype Fault =
    | Unreachable(error: string)
    | Refused(error: string)
    | Misconfigured(error: string)
    | Rebalancing(error: string)
    | NotFound(error: string)
    | Absent(error: string)
    | Invalid(error: string)
    | Rejected(error: string)

  datatype Health =
    | Unprobed
    | Ready(info: ServerInfo, since: nat)
    | Down(error: string, since: nat, attempts: nat)
    | Unusable(error: string, since: nat)
  {
    predicate Faulty() { Down? || Unusable? }
  }

  /** The latest probe: its result and instant, and the failures in a row up to it. */
  datatype Probe = Probe(outcome: Option<Result<ServerInfo, Fault>>, at: Option<nat>, attempts: nat)

  datatype Cached<T> = Cached(value: T, at: nat)

  // ----- backoff -----

  function Backoff(attempts: nat): nat {
    var shift := Min(if attempts == 0 then 0 else attempts - 1, 6);
    Min(PROBE_BACKOFF_MIN * Pow2(shift), PROBE_BACKOFF_MAX)
  }

  /** 1, 2, 4, 8, 16, 32 and then 60 seconds. */
  lemma BackoffSchedule(attempts: nat)
    ensures Backoff(attempts) == if attempts <= 1 then SECOND
                                 else if attempts <= 6 then SECOND * Pow2(attempts - 1)
                                 else 60 * SECOND
    ensures SECOND <= Backoff(attempts) <= Backoff(attempts + 1) <= 60 * SECOND
  {
    assert Pow2(5) == 32 && Pow2(6) == 64 by {
      assert Pow2(3) == 8;
    }
    if attempts <= 6 {
      Pow2Monotone(Min(if attempts == 0 then 0 else attempts - 1, 6), 5);
    }
  }

  /** How long a failed probe is believed. */
  function Due(fault: Fault, attempts: nat): nat {
    if fault.Unreachable? || fault.Rebalancing? then Backoff(attempts) else PROBE_BACKOFF_MAX
  }

  /**
    How long, in seconds: the schedule while the workers cannot be reached or rebalance, and a minute for every
    fault that waiting does not mend.
  */
  lemma DueMeans(fault: Fault, attempts: nat)
    ensures Due(fault, attempts) == 1_000_000_000 *
              if !fault.Unreachable? && !fault.Rebalancing? then 60
              else if attempts <= 1 then 1
              else if attempts == 2 then 2
              else if attempts == 3 then 4
              else if attempts == 4 then 8
              else if attempts == 5 then 16
              else if attempts == 6 then 32
              else 60
  {
    BackoffSchedule(attempts);
    assert Pow2(1) == 2 && Pow2(2) == 4 && Pow2(3) == 8 && Pow2(4) == 16 && Pow2(5) == 32;
  }

  // ----- a run of failed probes -----

  /** When one probe's request was started, and when its answer was in. */
  datatype Attempt = Attempt(start: nat, done: nat)

  /** Each probe of the run started a backoff after the one before it was answered. */
  predicate Spaced(failures: seq<Attempt>) {
    && (forall i | 0 <= i < |failures| :: failures[i].start <= failures[i].done)
    && forall i | 1 <= i < |failures| :: failures[i - 1].done + Backoff(i) <= failures[i].start
  }

  /** Backoff(1) + ... + Backoff(n). */
  function BackoffSum(n: nat): nat {
    if n == 0 then 0 else BackoffSum(n - 1) + Backoff(n)
  }

  lemma NoFailures()
    ensures Spaced([])
  {
  }

  /** The k-th consecutive failed probe starts no earlier than the k-1 backoffs before it allow. */
  lemma {:induction false} FailuresAreSpread(failures: seq<Attempt>, k: nat)
    requires Spaced(failures) && 1 <= k <= |failures|
    ensures failures[0].start + BackoffSum(k - 1) <= failures[k - 1].start
    ensures failures[0].start + (k - 1) * SECOND <= failures[k - 1].start
  {
    if k > 1 {
      FailuresAreSpread(failures, k - 1);
      BackoffSchedule(k - 1);
    }
  }

  /** A failed probe started once the one before it was due extends the run. */
  lemma SpacedStep(failures: seq<Attempt>, next: Attempt, probe: Probe)
    requires Spaced(failures) && next.start <= next.done
    requires probe.attempts == Min(|failures|, U32_MAX)
    requires failures != [] ==>
               && probe.outcome.Some? && probe.outcome.value.Err?
               && failures[|failures| - 1].done + Due(probe.outcome.value.error, probe.attempts) <= next.start
    ensures Spaced(failures + [next])
  {
    BackoffSaturates(|failures|);
    BackoffSchedule(|failures|);
  }

  // ----- health after a fault -----

  /** The health `record_fault` stores. */
  function AfterFault(previous: Health, fault: Fault, attempts: nat, now: nat): Health {
    var since := if previous.Faulty() then previous.since else now;
    if fault.Refused? || fault.Misconfigured? then Unusable(fault.error, since)
    else Down(fault.error, since, Max(attempts, 1))
  }

  /**
    A refusal or a misconfiguration is unusable, and everything else an outage with its attempts, of which there is
    always one. Both say what went wrong and since when.
  */
  lemma AfterFaultMeans(previous: Health, fault: Fault, attempts: nat, now: nat)
    ensures var health := AfterFault(previous, fault, attempts, now);
            && health.Faulty() && health.error == fault.error
            && (health.Unusable? <==> fault.Refused? || fault.Misconfigured?)
            && (health.Down? ==> health.attempts == if attempts == 0 then 1 else attempts)
            && health.since == (if previous.Down? || previous.Unusable? then previous.since else now)
  {
  }

  datatype FaultSeen = FaultSeen(fault: Fault, attempts: nat, now: nat)

  function AfterFaults(health: Health, faults: seq<FaultSeen>): Health {
    if faults == [] then health
    else
      var last := faults[|faults| - 1];
      AfterFault(AfterFaults(health, faults[..|faults| - 1]), last.fault, last.attempts, last.now)
  }

  /** Through any run of faults, of whatever kinds, `since` stays the instant of the first. */
  lemma {:induction false} SinceIsTheFirstFault(health: Health, faults: seq<FaultSeen>)
    requires faults != []
    ensures AfterFaults(health, faults).Faulty()
    ensures AfterFaults(health, faults).since == if health.Faulty() then health.since else faults[0].now
  {
    var before := faults[..|faults| - 1];
    if before != [] {
      SinceIsTheFirstFault(health, before);
    }
  }

  // ----- the client -----

  class ConnectClient {
    const id: string
    const connectorsTtl: nat
    var health: Health
    var probe: Probe
    var connectors: Option<Cached<seq<string>>>
    var requests: nat

    /** The gate of this process. */
    ghost const gate: Gate
    /** The probes that failed since the last one that did not. */
    ghost var failures: seq<Attempt>
    /** Whether the fault `health` reports is a failed probe's, not a write's or another read's. */
    ghost var probed: bool
    /** Every write request put on the wire. */
    ghost var sent: seq<Sent>

    ghost predicate Valid()
      reads this, gate
    {
      && (health.Ready? <==> probe.outcome.Some? && probe.outcome.value.Ok?)
      && (health.Ready? ==> probe.outcome.value.value == health.info)
      && (probe.outcome.Some? <==> probe.at.Some?)
      && probe.attempts == Min(|failures|, U32_MAX)
      && Spaced(failures)
      && (failures != [] <==> probe.outcome.Some? && probe.outcome.value.Err?)
      && (failures != [] ==> probe.at.value == failures[|failures| - 1].done && health.Faulty())
      && (health.Down? ==> health.attempts == if probed then FailedInARow() else 1)
      && (probed ==> failures != [])
      && forall s | s in sent :: Lawful(s, id) && gate.Minted(s.grant)
    }

    /** How many probes have failed since one that did not, in the 32 bits kept for it. */
    ghost function FailedInARow(): nat
      reads this
    {
      Min(|failures|, 0xFFFF_FFFF)
    }

    constructor (id: string, connectorsTtl: nat, ghost gate: Gate)
      ensures Valid() && this.id == id && this.connectorsTtl == connectorsTtl && this.gate == gate
      ensures health == Unprobed && requests == 0 && failures == [] && sent == []
    {
      this.id, this.connectorsTtl, this.gate := id, connectorsTtl, gate;
      probed := false;
      health, probe := Unprobed, Probe(None, None, 0);
      connectors, requests := None, 0;
      failures, sent := [], [];
    }

    /** A failed probe is still believed at `now`. */
    ghost predicate Waiting(now: nat)
      reads this
    {
      && probe.outcome.Some? && probe.outcome.value.Err? && probe.at.Some?
      && now < probe.at.value + Due(probe.outcome.value.error, probe.attempts)
    }

    /**
      `record_fault`. `probeHeld` is whether a probe holds the lock, in which case its outcome is left
      for the probe to write. Only a probe has a number of attempts to give; the other callers give 0,
      and then the number reported is the number of failed probes exactly while that is at most one.
    */
    method RecordFault(fault: Fault, attempts: nat, now: nat, probeHeld: bool)
      requires if probeHeld then attempts > 0 ==> failures != [] else Valid() && attempts == 0
      modifies this`health, this`probe, this`probed
      ensures health == AfterFault(old(health), fault, attempts, now)
      ensures probed == (attempts > 0)
      ensures probeHeld ==> probe == old(probe)
      ensures !probeHeld ==> Valid()
      ensures !probeHeld && health.Down? ==>
                (health.attempts == Max(FailedInARow(), 1) <==> |failures| <= 1)
      ensures !probeHeld ==> probe == if old(health).Ready? then Probe(None, None, old(probe).attempts) else old(probe)
    {
      hide Lawful, Spaced;
      var since := match health
        case Down(_, since, _) => since
        case Unusable(_, since) => since
        case _ => now;
      health := match fault
        case Refused(error) => Unusable(error, since)
        case Misconfigured(error) => Unusable(error, since)
        case other => Down(other.error, since, Max(attempts, 1));
      probed := attempts > 0;
      if !probeHeld && probe.outcome.Some? && probe.outcome.value.Ok? {
        probe := probe.(outcome := None, at := None);
      }
    }

    /** What a caller is told at `now`, if asking would bring back `answer`. */
    ghost function Answers(now: nat, answer: Result<ServerInfo, Fault>): Result<ServerInfo, Fault>
      reads this
    {
      if health.Ready? then Ok(health.info) else if Waiting(now) then probe.outcome.value else answer
    }

    /**
      `ready`: the workers' description, or the fault that hides it. `now` and `done` are the instants before and after the
      request, `answer` is what it brought back, and `wall` the wall clock.
    */
    method Probed(now: nat, answer: Result<ServerInfo, Fault>, done: nat, wall: nat)
      returns (result: Result<ServerInfo, Fault>)
      requires Valid() && now <= done
      modifies this`health, this`probe, this`requests, this`failures, this`probed
      ensures Valid()
      // Ready, or inside the backoff: answered from memory, and nothing is sent.
      ensures result == old(Answers(now, answer))
      ensures old(health).Ready? || old(Waiting(now)) ==> unchanged(this)
      // Otherwise one request decides everything.
      ensures !old(health).Ready? && !old(Waiting(now)) ==>
                && requests == old(requests) + 1
                && probe.outcome == Some(answer) && probe.at == Some(done)
                && failures == (if answer.Ok? then [] else old(failures) + [Attempt(now, done)])
                && (answer.Ok? ==> health == Ready(answer.value, wall))
                && (answer.Err? ==>
                      (health.Faulty() && health.since == if old(health).Faulty() then old(health).since else wall))
                && (health.Down? ==> health.attempts == FailedInARow())
    {
      hide Lawful, Backoff, Spaced;
      if health.Ready? {
        return Ok(health.info);
      }
      if probe.outcome.Some? && probe.at.Some? {
        // A probe that succeeded answers here too, but then health is Ready and has answered above.
        var due := match probe.outcome.value
          case Ok(_) => 0
          case Err(fault) => Due(fault, probe.attempts);
        if now < probe.at.value + due {
          return probe.outcome.value;
        }
      }
      requests := requests + 1;
      // A request that brings no answer, or a refusal, is recorded where it is made.
      if answer.Err? && (answer.error.Unreachable? || answer.error.Refused?) {
        RecordFault(answer.error, 0, wall, true);
      }
      match answer {
        case Ok(info) =>
          probe := Probe(Some(answer), Some(done), 0);
          health := Ready(info, wall);
          NoFailures();
          failures, probed := [], false;
        case Err(fault) =>
          SpacedStep(failures, Attempt(now, done), probe);
          failures := failures + [Attempt(now, done)];
          probe := probe.(attempts := Min(probe.attempts + 1, U32_MAX), at := Some(done));
          RecordFault(fault, probe.attempts, wall, true);
          probe := probe.(outcome := Some(answer));
      }
      result := answer;
    }

    /**
      `connectors`: the list, believed for its TTL. `probeAnswer` and `answer` are what the two requests
      behind a miss bring back.
    */
    method Connectors(now: nat, probeAnswer: Result<ServerInfo, Fault>, answer: Result<seq<string>, Fault>,
                      done: nat, wall: nat)
      returns (result: Result<seq<string>, Fault>)
      requires Valid() && now <= done
      modifies this`health, this`probe, this`requests, this`failures, this`probed, this`connectors
      ensures Valid()
      ensures old(connectors).Some? && now < old(connectors).value.at + connectorsTtl ==>
                result == Ok(old(connectors).value.value) && unchanged(this)
      // A list that was forgotten, or has aged out, is never served; what failed takes its place.
      ensures old(connectors).None? || old(connectors).value.at + connectorsTtl <= now ==>
                var probed := old(Answers(now, probeAnswer));
                if probed.Err? then result == Err(probed.error) && connectors == old(connectors)
                else result == answer && connectors == if answer.Ok? then Some(Cached(answer.value, done)) else old(connectors)
    {
      if connectors.Some? && now < connectors.value.at + connectorsTtl {
        return Ok(connectors.value.value);
      }
      var ready := Probed(now, probeAnswer, done, wall);
      if ready.Err? {
        return Err(ready.error);
      }
      requests := requests + 1;
      if answer.Err? {
        if answer.error.Unreachable? || answer.error.Refused? {
          RecordFault(answer.error, 0, wall, false);
        }
        return Err(answer.error);
      }
      connectors := Some(Cached(answer.value, done));
      result := answer;
    }
  }

  /**
    How long a failure is believed, in any state a client comes to: until the wait for that many failures in a row
    is over, counted from the answer of the last.
  */
  lemma WaitingMeans(client: ConnectClient, now: nat)
    requires client.Valid()
    ensures client.Waiting(now)
       <==> && client.failures != []
            && client.probe.outcome.Some? && client.probe.outcome.value.Err?
            && now < client.failures[|client.failures| - 1].done + Due(client.probe.outcome.value.error, |client.failures|)
  {
    BackoffSaturates(|client.failures|);
  }

  /**
    What `attempts` reports, whatever was called in whatever order: the number of failed probes, at least
    one, exactly when the fault is a probe's or at most one probe has failed.
  */
  lemma AttemptsMean(client: ConnectClient)
    requires client.Valid() && client.health.Down?
    ensures client.health.attempts == Max(client.FailedInARow(), 1) <==> client.probed || |client.failures| <= 1
  {
  }

  /** Five failed probes and then a write nobody answered: one attempt is reported. */
  method FaultAfterFiveProbes(ghost gate: Gate) returns (client: ConnectClient)
    ensures fresh(client) && client.Valid() && |client.failures| == 5
    ensures client.health.Down? && client.health.attempts == 1 != client.FailedInARow()
  {
    client := new ConnectClient("connect", 0, gate);
    var unanswered := Unreachable("connection refused");
    var now: nat := 0;
    for i := 0 to 5
      invariant fresh(client) && client.Valid() && |client.failures| == i && !client.health.Ready?
      invariant i > 0 ==> client.probe.at == Some(now - PROBE_BACKOFF_MAX)
      invariant i > 0 ==> client.probe.outcome == Some(Err(unanswered))
    {
      hide Lawful;
      BackoffSchedule(i);
      var result := client.Probed(now, Err(unanswered), now, now);
      now := now + PROBE_BACKOFF_MAX;
    }
    client.RecordFault(unanswered, 0, now, false);
  }

  /** Past the sixth failure the wait no longer depends on the exact count, so saturating it changes nothing. */
  lemma BackoffSaturates(n: nat)
    ensures Backoff(Min(n, U32_MAX)) == Backoff(n)
  {
  }
}
