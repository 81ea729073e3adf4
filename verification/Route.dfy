/**
  A write from request to outcome, `perform` in crates/kaas-ui-api/src/routes/connect_write.rs: lookup, gate,
  confirmation, intent, write, outcome.
*/
module ConnectRoutes {
  import opened Text
  import opened AccessPolicy
  import opened WriteGate
  import opened ConfigRedaction
  import opened PercentEncoding
  import opened ConnectWire
  import opened ConnectClients
  import opened ConnectWrites

  // ----- callers -----

  /** What a session cookie carries. */
  datatype Session = Session(subject: string, name: string, roles: seq<string>)

  /** Whoever asks, and what the policy gives them: `Caller` in crates/kaas-ui-api/src/auth.rs. */
  function CallerOf(policy: Policy, session: Option<Session>): (Principal, Access) {
    match session
    case None => (ANONYMOUS, policy.AccessOf(ANONYMOUS))
    case Some(Session(subject, name, roles)) =>
      (Principal(subject, Some(name), {}, {}, true), policy.AccessForRoles(roles))
  }

  /** Without a session a caller is nobody where roles are enforced, bar the roles that spell `anonymous` out. */
  lemma NobodyIsAnonymous(policy: Policy, role: Role)
    ensures var (who, access) := CallerOf(policy, None);
            && !who.authenticated
            && (access.administrator <==> !policy.enforcing)
            && (role in access.roles <==> policy.enforcing && role in policy.roles && "anonymous" in role.subjects)
  {
    AnonymousNeedsToBeNamed(role);
  }

  // ----- audit -----

  datatype Line = Intent(grant: Grant) | Outcome(grant: Grant, ok: bool)

  class Audit {
    var lines: seq<Line>

    /** A line is written whole or not at all. */
    method Record(line: Line, written: bool)
      modifies this
      ensures lines == old(lines) + if written then [line] else []
    {
      if written {
        lines := lines + [line];
      }
    }
  }

  // ----- requests -----

  datatype WriteRequest = WriteRequest(includeTasks: bool, onlyFailed: bool, config: Option<Config>,
                                       offsets: Option<seq<StoredOffset>>, confirm: Option<string>, dryRun: bool)

  datatype Answer =
    | NoSuchConnect
    | Refused(denied: Denied)
    | BadRequest(error: string)
    | Faulted(fault: Fault)
    | IntentUnrecorded
    | OutcomeUnrecorded
    | Validated
    | Applied(auditId: string)

  /**
    Everything a write meets outside: the labels of the Kafka cluster named by the entry, if it is
    configured; whether the caller may view the topics the lookup asks about; the worker's copy of the
    config and its answer; whether each audit line can be written; and the clocks.
  */
  datatype Outside = Outside(kafkaLabels: Option<Labels>, readable: bool, raw: Result<Config, Fault>,
                             response: Response, intentWritten: bool, outcomeWritten: bool, millis: nat, wall: nat)

  /** The operations that carry a config. */
  predicate Reconfiguring(operation: Operation) {
    operation == ConnectorEdit || operation == ConnectorCreate
  }

  /** The config an edit or a creation comes to, where there is one. */
  function ConfigToSend(operation: Operation, name: string, request: WriteRequest, raw: Result<Config, Fault>)
    : Option<Config>
  {
    if request.config.None? then None
    else
      var submitted := request.config.value;
      var config :=
        if operation == ConnectorEdit then (if raw.Ok? then Restored(raw.value, submitted) else None)
        else if (forall key | key in submitted :: submitted[key] != REDACTED) && "connector.class" in submitted
        then Some(submitted)
        else None;
      if config.Some? && NameAgrees(name, config.value) then config else None
  }

  /** What the request itself has to bring, beside being permitted. */
  predicate WellAsked(operation: Operation, name: string, request: WriteRequest, raw: Result<Config, Fault>) {
    && (TierOf(operation) == Destroys ==> request.confirm == Some(name))
    && (request.dryRun ==> Reconfiguring(operation))
    && (operation == ConnectorAlterOffsets ==> request.offsets.Some?)
    && (Reconfiguring(operation) ==> ConfigToSend(operation, name, request, raw).Some?)
  }

  /** Whether a granted request is sent: a write only once its intent is written down. */
  predicate Goes(operation: Operation, name: string, request: WriteRequest, outside: Outside) {
    && WellAsked(operation, name, request, outside.raw)
    && if request.dryRun
       then "connector.class" in ConfigToSend(operation, name, request, outside.raw).value
       else outside.intentWritten
  }

  /** What it leaves in the audit: an intent exactly where something goes out that changes something. */
  function AuditLines(grant: Grant, name: string, request: WriteRequest, outside: Outside): (lines: seq<Line>)
    ensures forall i | 0 <= i < |lines| :: lines[i].Outcome? <==> i == 1
    ensures lines == [] <==> request.dryRun || !Goes(grant.operation, name, request, outside)
  {
    if request.dryRun || !Goes(grant.operation, name, request, outside) then []
    else if !outside.outcomeWritten then [Intent(grant)]
    else [Intent(grant), Outcome(grant, outside.response.Succeeded?)]
  }

  // ----- what goes out -----

  /** The request a write is: the call a worker reads in it, and everything that was asked for with it. */
  predicate IsWrite(sent: Request, operation: Operation, name: string, request: WriteRequest, task: Option<int>,
                    config: Option<Config>)
  {
    && Route(sent.verb, sent.path)
       == Some(if operation == ConnectorCreate then NewConnector else OnConnector(operation, Utf8(name)))
    && match operation
       case ConnectorRestart =>
         && QueryParts(sent.path) == ["includeTasks=" + (if request.includeTasks then "true" else "false"),
                                      "onlyFailed=" + (if request.onlyFailed then "true" else "false")]
         && sent.body == NoBody
       case ConnectorRestartTask =>
         && |PathParts(sent.path)| >= 3
         && PathParts(sent.path)[3..] == ["tasks", SignedDecimal(task.GetOr(0)), "restart"]
         && sent.body == NoBody
       case ConnectorEdit => config.Some? && sent.body == ConfigBody(config.value)
       case ConnectorCreate => config.Some? && sent.body == CreateBody(name, config.value)
       case ConnectorAlterOffsets => request.offsets.Some? && sent.body == OffsetsBody(request.offsets.value)
       case _ => sent.body == NoBody
  }

  /** The request a dry run is: to the plugin, with the config under its own name. */
  predicate IsDryRun(sent: Request, name: string, config: Config) {
    && "connector.class" in config
    && Route(sent.verb, sent.path) == Some(DryRun(Utf8(config["connector.class"])))
    && sent.body == ConfigBody(config["name" := name])
  }

  /** What is sent for a granted request. */
  predicate IsAsked(sent: Request, operation: Operation, name: string, request: WriteRequest, task: Option<int>,
                    outside: Outside)
  {
    var config := ConfigToSend(operation, name, request, outside.raw);
    if request.dryRun then config.Some? && IsDryRun(sent, name, config.value)
    else IsWrite(sent, operation, name, request, task, config)
  }

  lemma IsAskedPerforms(sent: Request, operation: Operation, name: string, request: WriteRequest, task: Option<int>,
                        outside: Outside)
    requires IsAsked(sent, operation, name, request, task, outside)
    ensures Performed(sent) == if request.dryRun then None else Some(operation)
  {
  }

  /**
    What a request has to have brought to go out: the name, typed, for what cannot be undone; and the config that
    is sent is the submitted one, on an edit with each `******` restored from the worker's, and names no other
    connector.
  */
  lemma WhatGoes(sent: Request, operation: Operation, name: string, request: WriteRequest, task: Option<int>,
                 outside: Outside)
    requires Goes(operation, name, request, outside) && IsAsked(sent, operation, name, request, task, outside)
    ensures operation in {ConnectorDelete, ConnectorResetOffsets, ConnectorAlterOffsets} ==> request.confirm == Some(name)
    ensures request.dryRun ==> operation in {ConnectorEdit, ConnectorCreate}
    ensures !request.dryRun ==> outside.intentWritten
    ensures operation == ConnectorEdit ==>
              && request.config.Some? && outside.raw.Ok?
              && var config := Restored(outside.raw.value, request.config.value);
                 && config.Some? && ("name" in config.value ==> config.value["name"] == name)
                 && sent.body == ConfigBody(if request.dryRun then config.value["name" := name] else config.value)
    ensures operation == ConnectorCreate ==>
              && request.config.Some?
              && var config := request.config.value;
                 && "connector.class" in config && (forall key | key in config :: config[key] != "******")
                 && ("name" in config ==> config["name"] == name)
                 && sent.body == if request.dryRun then ConfigBody(config["name" := name]) else CreateBody(name, config)
  {
  }

  // ----- what the log of writes says -----

  /** It was sent under a grant given to the holder of a session, under this ceiling, in this environment. */
  ghost predicate Asked(granted: seq<Authorization>, policy: Policy, ceiling: seq<Operation>, environment: string,
                        s: Sent)
  {
    exists a, session ::
      && a in granted && a.grant == s.grant && a.ceiling == ceiling
      && a.grant.target.environment == environment
      && (a.who, a.access) == CallerOf(policy, Some(session))
  }

  /** If it changes anything, its intent is on record. */
  predicate OnRecord(lines: seq<Line>, s: Sent) {
    Performed(s.request).Some? ==> Intent(s.grant) in lines
  }

  lemma AskedStays(before: seq<Authorization>, after: seq<Authorization>, policy: Policy, ceiling: seq<Operation>,
                   environment: string, s: Sent)
    requires before <= after && Asked(before, policy, ceiling, environment, s)
    ensures Asked(after, policy, ceiling, environment, s)
  {
    var a, session :| && a in before && a.grant == s.grant && a.ceiling == ceiling
                      && a.grant.target.environment == environment
                      && (a.who, a.access) == CallerOf(policy, Some(session));
    assert a in after;
  }

  lemma AskedUnder(granted: seq<Authorization>, policy: Policy, a: Authorization, session: Session)
    requires a in granted && (a.who, a.access) == CallerOf(policy, Some(session))
    ensures forall s: Sent | s.grant == a.grant ::
              Asked(granted, policy, a.ceiling, a.grant.target.environment, s)
  {
  }

  // ----- a Connect cluster and the writes to it -----

  /** One write, once its grant, its config and its intent are there: exactly one request, and the granted one. */
  method Apply(writer: ConnectWriter, request: WriteRequest, task: Option<int>, prepared: Option<PreparedConfig>,
               response: Response, wall: nat)
    returns (result: Result<(), Fault>)
    requires writer.Valid() && writer.grant.target.name.Some?
    requires Reconfiguring(writer.grant.operation) ==>
               prepared.Some? && Some(prepared.value.name) == writer.grant.target.name
    requires writer.grant.operation == ConnectorAlterOffsets ==> request.offsets.Some?
    modifies writer.client`health, writer.client`probe, writer.client`probed, writer.client`connectors,
             writer.client`requests, writer.client`sent
    ensures writer.Valid()
    ensures result == ResultOf(response)
    ensures |writer.client.sent| == |old(writer.client.sent)| + 1
    ensures old(writer.client.sent) <= writer.client.sent
    ensures var s := writer.client.sent[|old(writer.client.sent)|];
            && s.grant == writer.grant
            && IsWrite(s.request, writer.grant.operation, writer.grant.target.name.value, request, task,
                       if prepared.Some? then Some(prepared.value.config) else None)
  {
    hide Route, Lawful, PathParts, QueryParts, SignedDecimal, Utf8;
    match writer.grant.operation {
      case ConnectorRestart => result := writer.Restart(request.includeTasks, request.onlyFailed, response, wall);
      case ConnectorRestartTask => result := writer.RestartTask(task.GetOr(0), response, wall);
      case ConnectorPause => result := writer.State(ConnectorPause, response, wall);
      case ConnectorResume => result := writer.State(ConnectorResume, response, wall);
      case ConnectorStop => result := writer.State(ConnectorStop, response, wall);
      case ConnectorResetTopics => result := writer.ResetTopics(response, wall);
      case ConnectorEdit => result := writer.Edit(prepared.value, response, wall);
      case ConnectorCreate => result := writer.Create(prepared.value, response, wall);
      case ConnectorDelete => result := writer.Delete(response, wall);
      case ConnectorResetOffsets => result := writer.ResetOffsets(response, wall);
      case ConnectorAlterOffsets => result := writer.AlterOffsets(request.offsets.value, response, wall);
    }
  }

  class ConnectHandle {
    const environment: string
    /** The Kafka cluster the entry names as its workers' store, if it names one. */
    const kafka: Option<string>
    const writes: Option<seq<Operation>>
    const client: ConnectClient
    const gate: Gate
    const audit: Audit

    /** No `writes` block is the empty ceiling. */
    function Ceiling(): seq<Operation> { writes.GetOr([]) }

    /** `connect_target`: that Kafka cluster and its labels, or the Connect cluster's own id and environment. */
    function TargetOf(kafkaLabels: Option<Labels>, connector: Option<string>): Target {
      var bare: Labels := map["env" := environment];
      if kafka.Some? then Target(environment, kafka.value, kafkaLabels.GetOr(bare), client.id, connector)
      else Target(environment, client.id, bare, client.id, connector)
    }

    /** `connect_cluster`, on an entry that is there. */
    predicate Visible(access: Access, outside: Outside) {
      var target := TargetOf(outside.kafkaLabels, None);
      access.May(target.cluster, target.labels, Connect, View, Some(client.id)) && outside.readable
    }

    /**
      Everything its client ever sent was asked for by the holder of a session, under this handle's own
      ceiling, and is on record if it changes anything.
    */
    ghost predicate Valid()
      reads client, gate, audit
    {
      && client.gate == gate && gate.Valid() && client.Valid()
      && forall s | s in client.sent ::
           Asked(gate.granted, gate.policy, Ceiling(), environment, s) && OnRecord(audit.lines, s)
    }

    constructor (environment: string, kafka: Option<string>, writes: Option<seq<Operation>>, client: ConnectClient,
                 gate: Gate, audit: Audit)
      requires client.Valid() && gate.Valid() && client.gate == gate && client.sent == []
      ensures Valid()
      ensures this.environment == environment && this.kafka == kafka && this.writes == writes
      ensures this.client == client && this.gate == gate && this.audit == audit
    {
      this.environment, this.kafka, this.writes := environment, kafka, writes;
      this.client, this.gate, this.audit := client, gate, audit;
    }

    /** The gate, as this caller. */
    method Allow(session: Option<Session>, name: string, operation: Operation, labels: Option<Labels>, millis: nat)
      returns (result: Result<Grant, Denied>)
      requires Valid()
      modifies gate
      ensures Valid() && old(gate.granted) <= gate.granted
      ensures result.Ok? <==> Permits(session, name, operation, labels)
      ensures result.Err? ==> gate.granted == old(gate.granted)
      ensures result.Ok? ==> && |gate.granted| == |old(gate.granted)| + 1
                             && gate.granted[|old(gate.granted)|].grant == result.value
                             && Presented(result.value) && result.value.operation == operation
                             && result.value.target == TargetOf(labels, Some(name))
    {
      hide RoleAgrees, ConnectClient.Valid, Asked;
      var (who, access) := CallerOf(gate.policy, session);
      assert Gave(gate.policy, access);
      ghost var before := gate.granted;
      var target := TargetOf(labels, Some(name));
      result := gate.Authorize(access, who, operation, target, Ceiling(), millis);
      if result.Ok? {
        var a := Authorization(result.value, access, who, Ceiling());
        assert gate.granted[|before|] == a && a in gate.granted;
        AskedUnder(gate.granted, gate.policy, a, session.value);
      }
      assert before <= gate.granted;
      ClientStaysValid(before);
      forall s | s in client.sent ensures Asked(gate.granted, gate.policy, Ceiling(), environment, s) {
        AskedStays(before, gate.granted, gate.policy, Ceiling(), environment, s);
      }
    }

    twostate lemma ClientStaysValid(before: seq<Authorization>)
      requires old(client.Valid()) && unchanged(client) && client.gate == gate
      requires before == old(gate.granted) && before <= gate.granted
      ensures client.Valid()
    {
      hide Lawful, Spaced;
      forall s | s in client.sent ensures gate.Minted(s.grant) {
        var a :| a in before && a.grant == s.grant;
        assert a in gate.granted;
      }
    }

    /** A grant given to the holder of a session, under this ceiling. */
    ghost predicate Presented(grant: Grant)
      reads gate
    {
      && gate.Minted(grant) && grant.target.host == client.id
      && forall s: Sent | s.grant == grant :: Asked(gate.granted, gate.policy, Ceiling(), environment, s)
    }

    /** The gate lets this caller. */
    predicate Permits(session: Option<Session>, name: string, operation: Operation, labels: Option<Labels>) {
      var (who, access) := CallerOf(gate.policy, session);
      && who.authenticated && !access.administrator && operation in Ceiling()
      && RoleAgrees(access, operation, TargetOf(labels, Some(name)))
    }

    /** The config an edit or a creation needs, restored and checked. */
    method PrepareConfig(writer: ConnectWriter, name: string, request: WriteRequest, raw: Result<Config, Fault>)
      returns (result: Result<PreparedConfig, Answer>)
      requires writer.grant.target.name == Some(name) && Reconfiguring(writer.grant.operation)
      ensures result.Ok? ==> result.value.name == name
      ensures ConfigToSend(writer.grant.operation, name, request, raw)
           == if result.Ok? then Some(result.value.config) else None
      ensures result.Err? ==> !result.error.Applied?
    {
      if request.config.None? {
        return Err(BadRequest("this needs a `config`"));
      }
      var prepared;
      if writer.grant.operation == ConnectorEdit {
        prepared := writer.PrepareEdit(request.config.value, raw);
      } else {
        prepared := writer.PrepareCreate(request.config.value);
      }
      result := if prepared.Ok? then Ok(prepared.value) else Err(Faulted(prepared.error));
    }

    /** What the request itself has to bring. */
    method Prepare(writer: ConnectWriter, name: string, request: WriteRequest, raw: Result<Config, Fault>)
      returns (result: Result<Option<PreparedConfig>, Answer>)
      requires writer.grant.target.name == Some(name)
      ensures result.Ok? <==> WellAsked(writer.grant.operation, name, request, raw)
      ensures result.Ok? && Reconfiguring(writer.grant.operation) ==>
                && result.value.Some? && result.value.value.name == name
                && ConfigToSend(writer.grant.operation, name, request, raw) == Some(result.value.value.config)
      ensures result.Ok? && request.dryRun ==> Reconfiguring(writer.grant.operation)
      ensures result.Err? ==> !result.error.Applied?
    {
      hide ConfigToSend;
      var operation := writer.grant.operation;
      if TierOf(operation) == Destroys && request.confirm != Some(name) {
        return Err(BadRequest("this cannot be undone: send the connector's name as `confirm`"));
      }
      if request.dryRun && !Reconfiguring(operation) {
        return Err(BadRequest("only an edit or a create can be validated first"));
      }
      if operation == ConnectorAlterOffsets && request.offsets.None? {
        return Err(BadRequest("connector.alter_offsets needs `offsets`"));
      }
      if !Reconfiguring(operation) {
        return Ok(None);
      }
      var prepared := PrepareConfig(writer, name, request, raw);
      result := if prepared.Ok? then Ok(Some(prepared.value)) else Err(prepared.error);
    }

    /** What a granted write comes to, on the log of requests and the audit. */
    twostate predicate Carried(grant: Grant, name: string, request: WriteRequest, task: Option<int>, outside: Outside,
                               answer: Answer)
      reads client, audit
    {
      var lines := AuditLines(grant, name, request, outside);
      && audit.lines == old(audit.lines) + lines
      && (answer.Applied? <==> |lines| == 2 && lines[1].ok)
      && (answer.Applied? ==> answer.auditId == grant.id)
      && if !Goes(grant.operation, name, request, outside) then client.sent == old(client.sent)
         else
           && |client.sent| == |old(client.sent)| + 1 && old(client.sent) <= client.sent
           && client.sent[|old(client.sent)|].grant == grant
           && IsAsked(client.sent[|old(client.sent)|].request, grant.operation, name, request, task, outside)
    }

    /** One more request under a grant this gate gave, with its intent on record, leaves the handle valid. */
    twostate lemma StaysValid(grant: Grant)
      requires old(Valid()) && unchanged(gate) && client.Valid() && old(Presented(grant))
      requires old(audit.lines) <= audit.lines
      requires |client.sent| == |old(client.sent)| + 1 && old(client.sent) <= client.sent
      requires client.sent[|old(client.sent)|].grant == grant && OnRecord(audit.lines, client.sent[|old(client.sent)|])
      ensures Valid()
    {
      hide Asked, Performed, ConnectClient.Valid;
      forall s | s in client.sent
        ensures Asked(gate.granted, gate.policy, Ceiling(), environment, s) && OnRecord(audit.lines, s)
      {
        var i :| 0 <= i < |client.sent| && client.sent[i] == s;
        if i < |old(client.sent)| {
          assert s == old(client.sent)[i];
        }
      }
    }

    /** The intent, the write and its outcome, in that order: without the intent nothing is sent. */
    method Write(writer: ConnectWriter, name: string, request: WriteRequest, task: Option<int>,
                 prepared: Option<PreparedConfig>, outside: Outside)
      returns (answer: Answer)
      requires writer.Valid() && writer.client == client && writer.grant.target.name == Some(name)
      requires WellAsked(writer.grant.operation, name, request, outside.raw) && !request.dryRun
      requires Reconfiguring(writer.grant.operation) ==>
                 && prepared.Some? && prepared.value.name == name
                 && ConfigToSend(writer.grant.operation, name, request, outside.raw) == Some(prepared.value.config)
      modifies client`health, client`probe, client`probed, client`connectors, client`requests, client`sent, audit
      ensures writer.Valid() && Carried(writer.grant, name, request, task, outside, answer)
    {
      hide ConfigToSend, Performed, ConnectWriter.Valid;
      if !outside.intentWritten {
        return IntentUnrecorded;
      }
      audit.Record(Intent(writer.grant), outside.intentWritten);
      var outcome := Apply(writer, request, task, prepared, outside.response, outside.wall);
      audit.Record(Outcome(writer.grant, outcome.Ok?), outside.outcomeWritten);
      answer := if !outside.outcomeWritten then OutcomeUnrecorded
                else if outcome.Err? then Faulted(outcome.error)
                else Applied(writer.grant.id);
    }

    /** A dry run is on no record, because it changes nothing. */
    method TryOut(writer: ConnectWriter, name: string, request: WriteRequest, task: Option<int>,
                  prepared: PreparedConfig, outside: Outside)
      returns (answer: Answer)
      requires writer.Valid() && writer.client == client && writer.grant.target.name == Some(name)
      requires WellAsked(writer.grant.operation, name, request, outside.raw) && request.dryRun
      requires ConfigToSend(writer.grant.operation, name, request, outside.raw) == Some(prepared.config)
      requires prepared.name == name
      modifies client`health, client`probe, client`probed, client`connectors, client`requests, client`sent
      ensures writer.Valid() && Carried(writer.grant, name, request, task, outside, answer)
    {
      hide ConfigToSend, Route, ConnectWriter.Valid;
      var verdict := writer.Validate(prepared, outside.response, outside.wall);
      answer := if verdict.Ok? then Validated else Faulted(verdict.error);
    }

    /** Once granted: what the request has to bring, then the dry run or the write. */
    method Attempt(writer: ConnectWriter, name: string, request: WriteRequest, task: Option<int>, outside: Outside)
      returns (answer: Answer)
      requires writer.Valid() && writer.client == client && writer.grant.target.name == Some(name)
      modifies client`health, client`probe, client`probed, client`connectors, client`requests, client`sent, audit
      ensures writer.Valid() && Carried(writer.grant, name, request, task, outside, answer)
    {
      hide WellAsked, ConfigToSend, Performed, ConnectWriter.Valid;
      var prepared := Prepare(writer, name, request, outside.raw);
      if prepared.Err? {
        return prepared.error;
      }
      if request.dryRun {
        answer := TryOut(writer, name, request, task, prepared.value.value, outside);
      } else {
        answer := Write(writer, name, request, task, prepared.value, outside);
      }
    }

    method Carry(grant: Grant, name: string, request: WriteRequest, task: Option<int>, outside: Outside)
      returns (answer: Answer)
      requires Valid() && Presented(grant) && grant.target.name == Some(name)
      modifies client`health, client`probe, client`probed, client`connectors, client`requests, client`sent, audit
      ensures Valid() && Carried(grant, name, request, task, outside, answer)
    {
      hide ConfigToSend, Performed, Asked, ConnectClient.Valid;
      // The client is this handle's own, and the grant was made out to it: never refused here.
      var made := WriterFor(client, grant);
      answer := Attempt(made.value, name, request, task, outside);
      if client.sent != old(client.sent) {
        IsAskedPerforms(client.sent[|old(client.sent)|].request, grant.operation, name, request, task, outside);
        StaysValid(grant);
      }
    }

    /**
      Exactly one request goes out where every gate agrees and the intent is written down, and none otherwise.
      It is the asked one, under a grant of its own. Its intent is recorded if and only if it then goes out.
    */
    method Perform(session: Option<Session>, name: string, operation: Operation, request: WriteRequest,
                   task: Option<int>, outside: Outside)
      returns (answer: Answer)
      requires Valid()
      modifies client`health, client`probe, client`probed, client`connectors, client`requests, client`sent, gate, audit
      ensures Valid()
      ensures old(gate.granted) <= gate.granted && old(audit.lines) <= audit.lines
      ensures if Visible(CallerOf(gate.policy, session).1, outside)
                 && Permits(session, name, operation, outside.kafkaLabels)
              then
                && |gate.granted| == |old(gate.granted)| + 1
                && var grant := gate.granted[|old(gate.granted)|].grant;
                   && grant.operation == operation && grant.target == TargetOf(outside.kafkaLabels, Some(name))
                   && Carried(grant, name, request, task, outside, answer)
              else
                && gate.granted == old(gate.granted)
                && client.sent == old(client.sent) && audit.lines == old(audit.lines)
                && (answer.NoSuchConnect? || answer.Refused?)
    {
      hide Visible, Permits, WellAsked, Asked, ConnectClient.Valid;
      if !Visible(CallerOf(gate.policy, session).1, outside) {
        return NoSuchConnect;
      }
      var authorized := Allow(session, name, operation, outside.kafkaLabels, outside.millis);
      if authorized.Err? {
        return Answer.Refused(authorized.error);
      }
      answer := Carry(authorized.value, name, request, task, outside);
    }
  }

  /** The same gate and audit serve every Connect cluster: what the others do leaves a handle as it is. */
  twostate lemma OthersKeepValid(handle: ConnectHandle)
    requires old(handle.Valid()) && unchanged(handle.client) && handle.gate.Valid()
    requires old(handle.gate.granted) <= handle.gate.granted && old(handle.audit.lines) <= handle.audit.lines
    ensures handle.Valid()
  {
    hide Asked, Performed, ConnectClient.Valid;
    handle.ClientStaysValid(old(handle.gate.granted));
    forall s | s in handle.client.sent
      ensures Asked(handle.gate.granted, handle.gate.policy, handle.Ceiling(), handle.environment, s)
      ensures OnRecord(handle.audit.lines, s)
    {
      AskedStays(old(handle.gate.granted), handle.gate.granted, handle.gate.policy, handle.Ceiling(),
                 handle.environment, s);
    }
  }

  // ----- who may write -----

  /** The permission each operation asks for: a creation of the Connect cluster, the others of the connector. */
  predicate GrantsOperation(permission: Permission, operation: Operation, host: string, name: string) {
    match operation
    case ConnectorCreate => Grants(permission, Connect, Create, Some(host))
    case ConnectorEdit => Grants(permission, Connector, Edit, Some(name))
    case ConnectorDelete => Grants(permission, Connector, Action.Delete, Some(name))
    case ConnectorResetOffsets => Grants(permission, Connector, ResetOffsets, Some(name))
    case ConnectorAlterOffsets => Grants(permission, Connector, ResetOffsets, Some(name))
    case _ => Grants(permission, Connector, Operate, Some(name))
  }

  /** What a session's roles permit, read off the policy and the names it carries. */
  lemma SessionPermits(policy: Policy, session: Session, cluster: string, labels: Labels, resource: Resource,
                       action: Action, name: Option<string>)
    requires policy.enforcing
    ensures CallerOf(policy, Some(session)).1.RolePermits(cluster, labels, resource, action, name)
       <==> exists role | role in policy.roles && role.name in session.roles ::
              && Reaches(role, cluster, labels)
              && exists permission | permission in role.permissions :: Grants(permission, resource, action, name)
  {
    var access := CallerOf(policy, Some(session)).1;
    hide Reaches, Grants;
    PermittedIff(access, cluster, labels, resource, action, name);
    forall role: Role ensures role in access.roles <==> role in policy.roles && role.name in session.roles {
      AccessMeans(policy, ANONYMOUS, session.roles, role);
    }
  }

  /** A role the session names lets its holder see the Connect cluster. */
  predicate MaySee(policy: Policy, session: Session, cluster: string, labels: Labels, host: string) {
    exists role | role in policy.roles && role.name in session.roles ::
      && Reaches(role, cluster, labels)
      && exists permission | permission in role.permissions :: Grants(permission, Connect, View, Some(host))
  }

  /** A role the session names lets its holder perform the operation there. */
  predicate MayDo(policy: Policy, session: Session, cluster: string, labels: Labels, operation: Operation, host: string,
                  name: string)
  {
    exists role | role in policy.roles && role.name in session.roles ::
      && Reaches(role, cluster, labels)
      && exists permission | permission in role.permissions :: GrantsOperation(permission, operation, host, name)
  }

  lemma SessionMaySee(policy: Policy, session: Session, cluster: string, labels: Labels, host: string)
    requires policy.enforcing
    ensures CallerOf(policy, Some(session)).1.May(cluster, labels, Connect, View, Some(host))
       <==> MaySee(policy, session, cluster, labels, host)
  {
    hide Reaches, Grants;
    SessionPermits(policy, session, cluster, labels, Connect, View, Some(host));
  }

  lemma SessionMayDo(policy: Policy, session: Session, operation: Operation, target: Target)
    requires policy.enforcing && target.name.Some?
    ensures RoleAgrees(CallerOf(policy, Some(session)).1, operation, target)
       <==> MayDo(policy, session, target.cluster, target.labels, operation, target.host, target.name.value)
  {
    hide Reaches, Grants, Access.RolePermits, CallerOf;
    var (resource, action) := operation.Permission();
    SessionPermits(policy, session, target.cluster, target.labels, resource, action, Named(operation, target));
    forall permission: Permission
      ensures GrantsOperation(permission, operation, target.host, target.name.value)
         <==> Grants(permission, resource, action, Named(operation, target))
    {
    }
  }

  /**
    Who gets past lookup and gate, from the configuration alone: the holder of a session, where roles are enforced,
    the entry's `writes` lists the operation, and roles that session names reach the workers' Kafka cluster, or the
    Connect cluster where the entry names none, one to see it and one for the operation.
  */
  lemma WhoMayWrite(handle: ConnectHandle, session: Option<Session>, name: string, operation: Operation, outside: Outside)
    ensures var (policy, host) := (handle.gate.policy, handle.client.id);
            var cluster := if handle.kafka.Some? then handle.kafka.value else host;
            var labels: Labels :=
              if handle.kafka.Some? && outside.kafkaLabels.Some? then outside.kafkaLabels.value
              else map["env" := handle.environment];
            (handle.Visible(CallerOf(policy, session).1, outside)
             && handle.Permits(session, name, operation, outside.kafkaLabels))
            <==>
            (&& session.Some? && policy.enforcing && outside.readable
             && handle.writes.Some? && operation in handle.writes.value
             && MaySee(policy, session.value, cluster, labels, host)
             && MayDo(policy, session.value, cluster, labels, operation, host, name))
  {
    hide MaySee, MayDo, RoleAgrees, Access.May;
    var policy, target := handle.gate.policy, handle.TargetOf(outside.kafkaLabels, Some(name));
    if session.Some? && policy.enforcing {
      SessionMaySee(policy, session.value, target.cluster, target.labels, handle.client.id);
      SessionMayDo(policy, session.value, operation, target);
    }
  }

  // ----- every run -----

  /**
    Whatever was written to a Connect cluster in any run: the holder of a session asked for it, one of the
    roles that session names is configured and enforced and permits it on this target, this cluster's own
    ceiling lists it, and if it changes anything the audit has its intent.
  */
  lemma EveryWriteWasAskedFor(handle: ConnectHandle, s: Sent)
    requires handle.Valid() && s in handle.client.sent
    ensures handle.gate.policy.enforcing
    ensures s.grant.operation in handle.Ceiling()
    ensures s.grant.target.host == handle.client.id && s.grant.target.environment == handle.environment
    ensures Performed(s.request).Some? ==> Intent(s.grant) in handle.audit.lines
    ensures exists session: Session, role ::
              && session.subject == s.grant.subject && session.name == s.grant.displayName
              && role in handle.gate.policy.roles && role.name in session.roles
              && var (resource, action) := s.grant.operation.Permission();
                 role.Permits(s.grant.target.cluster, s.grant.target.labels, resource, action,
                              Named(s.grant.operation, s.grant.target))
  {
    var policy := handle.gate.policy;
    assert Lawful(s, handle.client.id);
    var a, session :| && a in handle.gate.granted && a.grant == s.grant && a.ceiling == handle.Ceiling()
                      && a.grant.target.environment == handle.environment
                      && (a.who, a.access) == CallerOf(policy, Some(session));
    assert a.Agreed();
    var (resource, action) := s.grant.operation.Permission();
    var role :| role in a.access.roles
             && role.Permits(s.grant.target.cluster, s.grant.target.labels, resource, action,
                             Named(s.grant.operation, s.grant.target));
    assert policy.enforcing;
    assert role in policy.roles && role.name in session.roles;
  }

  /** What a worker performs is on its own cluster's ceiling; without a `writes` block nothing is ever sent. */
  lemma CeilingBoundsEveryRun(handle: ConnectHandle)
    requires handle.Valid()
    ensures forall s | s in handle.client.sent && Performed(s.request).Some? ::
              Performed(s.request).value in handle.Ceiling()
    ensures handle.Ceiling() == [] ==> handle.client.sent == []
  {
    forall s | s in handle.client.sent && Performed(s.request).Some?
      ensures Performed(s.request).value in handle.Ceiling()
    {
      EveryWriteWasAskedFor(handle, s);
      assert Lawful(s, handle.client.id);
    }
    if handle.client.sent != [] {
      EveryWriteWasAskedFor(handle, handle.client.sent[0]);
    }
  }
}
