/** Writes to a Connect cluster: crates/kaas-ui-connect/src/writer.rs. */
module ConnectWrites {
  import opened Text
  import opened Ordered
  import opened PercentEncoding
  import opened ConfigRedaction
  import opened WriteGate
  import opened ConnectWire
  import opened ConnectClients

  // ----- restoring withheld values -----

  /** The value an edit leaves at a key: `******` keeps the current one. */
  function Kept(current: Config, submitted: Config, key: string): string
    requires key in submitted
  {
    if submitted[key] == REDACTED && key in current then current[key] else submitted[key]
  }

  /** Every `******` has a current value to stand for. */
  predicate Restorable(current: Config, submitted: Config) {
    forall key | key in submitted && submitted[key] == REDACTED :: key in current
  }

  /** What an edit comes to, or nothing where some `******` stands for no value. */
  function Restored(current: Config, submitted: Config): Option<Config> {
    if Restorable(current, submitted) then Some(map key | key in submitted :: Kept(current, submitted, key))
    else None
  }

  /** The loop of `prepare_edit`. */
  method Restore(current: Config, submitted: Config) returns (restored: Option<Config>)
    ensures restored == Restored(current, submitted)
  {
    var config: Config := map[];
    var order := Walk(submitted.Keys);
    for i := 0 to |order|
      invariant forall key :: key in config <==> key in order[..i]
      invariant forall key | key in config :: key in submitted && config[key] == Kept(current, submitted, key)
      invariant forall key | key in config && submitted[key] == REDACTED :: key in current
    {
      var key := order[i];
      assert order[..i + 1] == order[..i] + [key];
      assert key in submitted.Keys;
      var value := submitted[key];
      if value == REDACTED {
        if key !in current {
          return None;
        }
        config := config[key := current[key]];
      } else {
        config := config[key := value];
      }
    }
    assert order[..|order|] == order;
    assert Restorable(current, submitted);
    assert config == Restored(current, submitted).value;
    restored := Some(config);
  }

  /** What a reader of the redacted form submits: each key with the value shown for it. */
  function Shown(entries: seq<Entry>): Config {
    if entries == [] then map[]
    else
      var last := entries[|entries| - 1];
      Shown(entries[..|entries| - 1])[last.key := last.value]
  }

  /** The form an editor starts from. */
  function EditForm(config: Config, keys: Option<PluginKeys>): Config {
    Shown(Redact(config, keys).0)
  }

  lemma EntryShowsOrWithholds(key: string, value: string, rules: Rules)
    ensures EntryOf(key, value, rules).key == key
    ensures EntryOf(key, value, rules).value == value || EntryOf(key, value, rules).value == REDACTED
  {
  }

  /** A form with the config's keys, each at its value or withheld. */
  predicate Shows(form: Config, config: Config) {
    form.Keys == config.Keys && forall key | key in form :: form[key] == config[key] || form[key] == REDACTED
  }

  lemma {:induction false} ShownEntries(config: Config, order: seq<string>, rules: Rules)
    requires forall key | key in order :: key in config
    ensures var form := Shown(Entries(config, order, rules));
            && (forall key :: key in form <==> key in order)
            && (forall key | key in form :: form[key] == config[key] || form[key] == REDACTED)
  {
    var entries := Entries(config, order, rules);
    if order != [] {
      var front, key := order[..|order| - 1], order[|order| - 1];
      assert order == front + [key];
      assert key in order;
      assert forall k | k in front :: k in order;
      ShownEntries(config, front, rules);
      assert entries[..|entries| - 1] == Entries(config, front, rules);
      EntryShowsOrWithholds(key, config[key], rules);
    }
  }

  lemma ShownConfig(config: Config, order: seq<string>, rules: Rules)
    requires Walks(order, config)
    ensures Shows(Shown(Entries(config, order, rules)), config)
  {
    ShownEntries(config, order, rules);
    assert Shown(Entries(config, order, rules)).Keys == config.Keys;
  }

  lemma EditFormShows(config: Config, keys: Option<PluginKeys>)
    ensures Shows(EditForm(config, keys), config)
  {
    ShownConfig(config, StringKeys(config.Keys), RulesOf(keys));
  }

  lemma RestoreShown(current: Config, form: Config)
    requires Shows(form, current)
    ensures Restored(current, form) == Some(current)
  {
    assert Restorable(current, form);
    assert Restored(current, form).value == current;
  }

  /** Submitting what was shown changes nothing, secrets included, whatever was known of the plugin. */
  lemma RedactThenEditIsIdentity(current: Config, keys: Option<PluginKeys>)
    ensures Restored(current, EditForm(current, keys)) == Some(current)
  {
    EditFormShows(current, keys);
    RestoreShown(current, EditForm(current, keys));
  }

  lemma RestoreOneChange(current: Config, form: Config, key: string, value: string)
    requires Shows(form, current)
    ensures Restored(current, form[key := value])
         == if value != REDACTED then Some(current[key := value])
            else if key in current then Some(current)
            else None
  {
    var submitted := form[key := value];
    if value == REDACTED && key !in current {
      assert key in submitted && submitted[key] == REDACTED;
    } else {
      assert Restorable(current, submitted);
      var restored := Restored(current, submitted).value;
      assert restored == if value != REDACTED then current[key := value] else current;
    }
  }

  /**
    Changing one shown value changes exactly that key. Setting it to `******` keeps the current value,
    and is refused where there is none.
  */
  lemma EditingOneKey(current: Config, keys: Option<PluginKeys>, key: string, value: string)
    ensures Restored(current, EditForm(current, keys)[key := value])
         == if value != REDACTED then Some(current[key := value])
            else if key in current then Some(current)
            else None
  {
    EditFormShows(current, keys);
    RestoreOneChange(current, EditForm(current, keys), key, value);
  }

  /** Deleting a key from the form deletes it from the config, and touches no other. */
  lemma DeletingOneKey(current: Config, keys: Option<PluginKeys>, key: string)
    ensures Restored(current, EditForm(current, keys) - {key}) == Some(current - {key})
  {
    EditFormShows(current, keys);
    var form := EditForm(current, keys);
    RestoreDeletion(current, form, key);
  }

  lemma RestoreDeletion(current: Config, form: Config, key: string)
    requires Shows(form, current)
    ensures Restored(current, form - {key}) == Some(current - {key})
  {
    assert Restorable(current, form - {key});
    assert Restored(current, form - {key}).value == current - {key};
  }

  // ----- prepared configs -----

  datatype PreparedRecord = PreparedRecord(name: string, config: Config)

  /** The fields are private and both constructors check the name. */
  type PreparedConfig = prepared: PreparedRecord | NameAgrees(prepared.name, prepared.config)
    witness PreparedRecord("", map[])

  function CheckName(name: string, config: Config): Result<(), Fault> {
    if "name" in config && config["name"] != name then Err(Invalid("this change is for another connector"))
    else Ok(())
  }

  // ----- the writer -----

  /** What one request brought back, and where that is a success, whether its body is a dry run's verdict. */
  datatype Response =
    | Unreached(error: string)
    | Failed(fault: Fault)
    | Succeeded(validation: bool)

  function ResultOf(response: Response): Result<(), Fault> {
    match response
    case Unreached(error) => Err(Fault.Unreachable(error))
    case Failed(fault) => Err(fault)
    case Succeeded(_) => Ok(())
  }

  const NO_OPERATION_MATCH := "a grant was used for something else"
  const NO_CONNECTOR := "a grant names no connector"
  const NO_VERDICT := "the validation answer is not the Connect REST API's"

  /** The grant covers one of the operations, on a named connector. */
  predicate Covers(grant: Grant, expected: seq<Operation>) {
    grant.operation in expected && grant.target.name.Some?
  }

  function Flag(value: bool): string { if value then "true" else "false" }

  function RestartQuery(includeTasks: bool, onlyFailed: bool): (query: string) {
    "?" + ("includeTasks=" + Flag(includeTasks) + "&" + ("onlyFailed=" + Flag(onlyFailed)))
  }

  class ConnectWriter {
    const client: ConnectClient
    const grant: Grant

    ghost predicate Valid()
      reads client, client.gate
    {
      client.Valid() && grant.target.host == client.id && client.gate.Minted(grant)
    }

    /** `ConnectClient::writer`, for a grant on this Connect cluster. */
    constructor (client: ConnectClient, grant: Grant)
      requires client.Valid() && client.gate.Minted(grant) && grant.target.host == client.id
      ensures this.client == client && this.grant == grant && Valid()
    {
      this.client, this.grant := client, grant;
    }

    /** Checks the grant against the verbs it may serve, and gives the name it was made out to. */
    method Connector(expected: seq<Operation>) returns (result: Result<string, Fault>)
      ensures result.Ok? <==> Covers(grant, expected)
      ensures result.Ok? ==> Some(result.value) == grant.target.name
      ensures result.Err? ==> result.error.Rejected?
    {
      if grant.operation !in expected {
        return Err(Rejected(NO_OPERATION_MATCH));
      }
      match grant.target.name {
        case None => result := Err(Rejected(NO_CONNECTOR));
        case Some(name) => result := Ok(name);
      }
    }

    /**
      The only mutating request. The list is forgotten when an answer came, whatever it said; a request
      that brought none leaves it as it was.
    */
    method Send(verb: Verb, path: string, body: Body, response: Response, wall: nat)
      returns (result: Result<(), Fault>)
      requires Valid()
      requires Lawful(Sent(grant, Request(verb, path, body)), client.id)
      modifies client`health, client`probe, client`probed, client`connectors, client`requests, client`sent
      ensures Valid()
      ensures result == ResultOf(response)
      ensures client.sent == old(client.sent) + [Sent(grant, Request(verb, path, body))]
      ensures client.requests == old(client.requests) + 1
      ensures client.connectors == if response.Unreached? then old(client.connectors) else None
      // A worker that cannot be reached, or refuses, is remembered; any other answer leaves health alone.
      ensures client.health ==
              match response
              case Unreached(error) => AfterFault(old(client.health), Fault.Unreachable(error), 0, wall)
              case Failed(fault) =>
                if fault.Unreachable? || fault.Refused? then AfterFault(old(client.health), fault, 0, wall)
                else old(client.health)
              case Succeeded(_) => old(client.health)
    {
      client.requests := client.requests + 1;
      client.sent := client.sent + [Sent(grant, Request(verb, path, body))];
      if response.Unreached? {
        var fault := Fault.Unreachable(response.error);
        client.RecordFault(fault, 0, wall, false);
        return Err(fault);
      }
      client.connectors := None;
      if response.Failed? {
        if response.fault.Unreachable? || response.fault.Refused? {
          client.RecordFault(response.fault, 0, wall, false);
        }
        return Err(response.fault);
      }
      result := Ok(());
    }

    /** Exactly one request went out, under this grant. */
    twostate predicate Added()
      reads client
    {
      && |client.sent| == |old(client.sent)| + 1
      && client.sent[..|old(client.sent)|] == old(client.sent)
      && client.sent[|old(client.sent)|].grant == grant
    }

    /** Exactly one request went out, and the worker reads it as `operation` on the granted connector. */
    twostate predicate SentOne(operation: Operation)
      reads client
    {
      && Added()
      && grant.target.name.Some?
      && var request := client.sent[|old(client.sent)|].request;
         Route(request.verb, request.path) == Some(OnConnector(operation, Utf8(grant.target.name.value)))
    }

    /** The request that went out last. */
    ghost function Last(): Request
      requires client.sent != []
      reads client
    {
      client.sent[|client.sent| - 1].request
    }

    /** One request on the granted connector, for a grant already checked to be for it. */
    method SendFor(operation: Operation, verb: Verb, name: string, tail: seq<string>, query: string, body: Body,
                       response: Response, wall: nat)
      returns (result: Result<(), Fault>)
      requires Valid() && grant.operation == operation && grant.target.name == Some(name)
      requires forall piece | piece in tail :: Plain(piece)
      requires query == "" || (query[0] == '?' && '?' !in query[1..])
      requires OperationAt(verb, tail) == Some(operation)
      requires operation == ConnectorEdit <==> body.ConfigBody?
      requires body.ConfigBody? ==> NameAgrees(name, body.config)
      modifies client`health, client`probe, client`probed, client`connectors, client`requests, client`sent
      ensures Valid() && SentOne(operation)
      ensures result == ResultOf(response)
      ensures Last() == Request(verb, Path("connectors", name, tail, query), body)
      ensures client.connectors == if response.Unreached? then old(client.connectors) else None
    {
      ConnectorPathIsReadBack(verb, name, tail, query);
      result := Send(verb, Path("connectors", name, tail, query), body, response, wall);
    }

    method Restart(includeTasks: bool, onlyFailed: bool, response: Response, wall: nat)
      returns (result: Result<(), Fault>)
      requires Valid()
      modifies client`health, client`probe, client`probed, client`connectors, client`requests, client`sent
      ensures Valid()
      ensures !Covers(grant, [ConnectorRestart]) ==> result.Err? && result.error.Rejected? && unchanged(client)
      ensures Covers(grant, [ConnectorRestart]) ==>
                && result == ResultOf(response) && SentOne(ConnectorRestart) && Last().body == NoBody
                && QueryParts(Last().path) == ["includeTasks=" + Flag(includeTasks), "onlyFailed=" + Flag(onlyFailed)]
    {
      var name := Connector([ConnectorRestart]);
      if name.Err? {
        return Err(name.error);
      }
      var query := RestartQuery(includeTasks, onlyFailed);
      RestartQueryIsReadBack(name.value, includeTasks, onlyFailed);
      result := SendFor(ConnectorRestart, Post, name.value, ["restart"], query, NoBody, response, wall);
    }

    method RestartTask(task: int, response: Response, wall: nat) returns (result: Result<(), Fault>)
      requires Valid()
      modifies client`health, client`probe, client`probed, client`connectors, client`requests, client`sent
      ensures Valid()
      ensures !Covers(grant, [ConnectorRestartTask]) ==> result.Err? && result.error.Rejected? && unchanged(client)
      ensures Covers(grant, [ConnectorRestartTask]) ==>
                && result == ResultOf(response) && SentOne(ConnectorRestartTask) && Last().body == NoBody
                && |PathParts(Last().path)| >= 3
                && PathParts(Last().path)[3..] == ["tasks", SignedDecimal(task), "restart"]
    {
      var name := Connector([ConnectorRestartTask]);
      if name.Err? {
        return Err(name.error);
      }
      var tail := ["tasks", SignedDecimal(task), "restart"];
      SignedDecimalIsPlain(task);
      TailIsReadBack(name.value, tail);
      result := SendFor(ConnectorRestartTask, Post, name.value, tail, "", NoBody, response, wall);
    }

    /** Three verbs of one shape, each with its own operation. */
    method State(operation: Operation, response: Response, wall: nat) returns (result: Result<(), Fault>)
      requires Valid()
      requires operation == ConnectorPause || operation == ConnectorResume || operation == ConnectorStop
      modifies client`health, client`probe, client`probed, client`connectors, client`requests, client`sent
      ensures Valid()
      ensures !Covers(grant, [operation]) ==> result.Err? && result.error.Rejected? && unchanged(client)
      ensures Covers(grant, [operation]) ==>
                result == ResultOf(response) && SentOne(operation) && Last().body == NoBody
    {
      var name := Connector([operation]);
      if name.Err? {
        return Err(name.error);
      }
      var verb := match operation
        case ConnectorPause => "pause"
        case ConnectorResume => "resume"
        case _ => "stop";
      result := SendFor(operation, Put, name.value, [verb], "", NoBody, response, wall);
    }

    method ResetTopics(response: Response, wall: nat) returns (result: Result<(), Fault>)
      requires Valid()
      modifies client`health, client`probe, client`probed, client`connectors, client`requests, client`sent
      ensures Valid()
      ensures !Covers(grant, [ConnectorResetTopics]) ==> result.Err? && result.error.Rejected? && unchanged(client)
      ensures Covers(grant, [ConnectorResetTopics]) ==>
                result == ResultOf(response) && SentOne(ConnectorResetTopics) && Last().body == NoBody
    {
      var name := Connector([ConnectorResetTopics]);
      if name.Err? {
        return Err(name.error);
      }
      result := SendFor(ConnectorResetTopics, Put, name.value, ["topics", "reset"], "", NoBody, response, wall);
    }

    method Delete(response: Response, wall: nat) returns (result: Result<(), Fault>)
      requires Valid()
      modifies client`health, client`probe, client`probed, client`connectors, client`requests, client`sent
      ensures Valid()
      ensures !Covers(grant, [ConnectorDelete]) ==> result.Err? && result.error.Rejected? && unchanged(client)
      ensures Covers(grant, [ConnectorDelete]) ==>
                result == ResultOf(response) && SentOne(ConnectorDelete) && Last().body == NoBody
    {
      var name := Connector([ConnectorDelete]);
      if name.Err? {
        return Err(name.error);
      }
      result := SendFor(ConnectorDelete, Verb.Delete, name.value, [], "", NoBody, response, wall);
    }

    method ResetOffsets(response: Response, wall: nat) returns (result: Result<(), Fault>)
      requires Valid()
      modifies client`health, client`probe, client`probed, client`connectors, client`requests, client`sent
      ensures Valid()
      ensures !Covers(grant, [ConnectorResetOffsets]) ==> result.Err? && result.error.Rejected? && unchanged(client)
      ensures Covers(grant, [ConnectorResetOffsets]) ==>
                result == ResultOf(response) && SentOne(ConnectorResetOffsets) && Last().body == NoBody
    {
      var name := Connector([ConnectorResetOffsets]);
      if name.Err? {
        return Err(name.error);
      }
      result := SendFor(ConnectorResetOffsets, Verb.Delete, name.value, ["offsets"], "", NoBody, response, wall);
    }

    method AlterOffsets(offsets: seq<StoredOffset>, response: Response, wall: nat)
      returns (result: Result<(), Fault>)
      requires Valid()
      modifies client`health, client`probe, client`probed, client`connectors, client`requests, client`sent
      ensures Valid()
      ensures !Covers(grant, [ConnectorAlterOffsets]) ==> result.Err? && result.error.Rejected? && unchanged(client)
      ensures Covers(grant, [ConnectorAlterOffsets]) ==>
                && result == ResultOf(response) && SentOne(ConnectorAlterOffsets)
                && Last().body == OffsetsBody(offsets)
    {
      var name := Connector([ConnectorAlterOffsets]);
      if name.Err? {
        return Err(name.error);
      }
      result := SendFor(ConnectorAlterOffsets, Patch, name.value, ["offsets"], "", OffsetsBody(offsets), response, wall);
    }

    /**
      Turns the submitted form into what the worker is to hold. `raw` is the answer to reading what it holds
      now, which stands in for every `******`.
    */
    method PrepareEdit(submitted: Config, raw: Result<Config, Fault>) returns (result: Result<PreparedConfig, Fault>)
      ensures !Covers(grant, [ConnectorEdit]) ==> result.Err? && result.error.Rejected?
      ensures Covers(grant, [ConnectorEdit]) && raw.Err? ==> result.Err? && result.error == raw.error
      ensures Covers(grant, [ConnectorEdit]) && raw.Ok? ==>
                var name := grant.target.name.value;
                var config := Restored(raw.value, submitted);
                if config.Some? && NameAgrees(name, config.value)
                then result == Ok(PreparedRecord(name, config.value))
                else result.Err? && result.error.Invalid?
    {
      var name := Connector([ConnectorEdit]);
      if name.Err? {
        return Err(name.error);
      }
      if raw.Err? {
        return Err(raw.error);
      }
      var restored := Restore(raw.value, submitted);
      if restored.None? {
        return Err(Invalid("a withheld value, and nothing for it to keep"));
      }
      var config := restored.value;
      var checked := CheckName(name.value, config);
      if checked.Err? {
        return Err(checked.error);
      }
      result := Ok(PreparedRecord(name.value, config));
    }

    /** A new connector's config: a class, no placeholder, and no other name. */
    method PrepareCreate(submitted: Config) returns (result: Result<PreparedConfig, Fault>)
      ensures result.Ok? <==> && Covers(grant, [ConnectorCreate])
                              && (forall key | key in submitted :: submitted[key] != REDACTED)
                              && "connector.class" in submitted
                              && NameAgrees(grant.target.name.value, submitted)
      ensures result.Ok? ==> result.value == PreparedRecord(grant.target.name.value, submitted)
      ensures result.Err? ==> if Covers(grant, [ConnectorCreate]) then result.error.Invalid? else result.error.Rejected?
    {
      var name := Connector([ConnectorCreate]);
      if name.Err? {
        return Err(name.error);
      }
      if exists key | key in submitted :: submitted[key] == REDACTED {
        return Err(Invalid("a new connector has no withheld value to keep"));
      }
      if "connector.class" !in submitted {
        return Err(Invalid("a connector needs `connector.class`"));
      }
      var checked := CheckName(name.value, submitted);
      if checked.Err? {
        return Err(checked.error);
      }
      result := Ok(PreparedRecord(name.value, submitted));
    }

    /**
      The dry run. It is not checked that the config was prepared for the granted connector: the body
      names the granted one exactly when it was.
    */
    method Validate(prepared: PreparedConfig, response: Response, wall: nat) returns (result: Result<(), Fault>)
      requires Valid()
      modifies client`health, client`probe, client`probed, client`connectors, client`requests, client`sent
      ensures Valid()
      ensures var ready := Covers(grant, [ConnectorEdit, ConnectorCreate]) && "connector.class" in prepared.config;
              if !ready then result.Err? && unchanged(client)
              else
                && result == (if response == Succeeded(false) then Err(Misconfigured(NO_VERDICT)) else ResultOf(response))
                && Added()
                && Route(Last().verb, Last().path) == Some(DryRun(Utf8(prepared.config["connector.class"])))
                && Last().body == ConfigBody(prepared.config["name" := prepared.name])
                && (NameAgrees(grant.target.name.value, Last().body.config)
                    <==> prepared.name == grant.target.name.value)
    {
      var name := Connector([ConnectorEdit, ConnectorCreate]);
      if name.Err? {
        return Err(name.error);
      }
      if "connector.class" !in prepared.config {
        return Err(Invalid("a connector needs `connector.class`"));
      }
      var plugin := prepared.config["connector.class"];
      var config := prepared.config["name" := prepared.name];
      assert "connector.class" != "name" by { assert |"connector.class"| != |"name"|; }
      ValidatePathIsReadBack(plugin);
      var path := Path("connector-plugins", plugin, ["config", "validate"], "");
      result := Send(Put, path, ConfigBody(config), response, wall);
      if response == Succeeded(false) {
        result := Err(Misconfigured(NO_VERDICT));
      }
    }

    /** Sends an edit, unless it was prepared for another connector. */
    method Edit(prepared: PreparedConfig, response: Response, wall: nat) returns (result: Result<(), Fault>)
      requires Valid()
      modifies client`health, client`probe, client`probed, client`connectors, client`requests, client`sent
      ensures Valid()
      ensures var ready := Covers(grant, [ConnectorEdit]) && grant.target.name == Some(prepared.name);
              if !ready then result.Err? && result.error.Rejected? && unchanged(client)
              else result == ResultOf(response) && SentOne(ConnectorEdit) && Last().body == ConfigBody(prepared.config)
    {
      var name := Connector([ConnectorEdit]);
      if name.Err? {
        return Err(name.error);
      }
      if prepared.name != name.value {
        return Err(Rejected("this change is for another connector"));
      }
      result := SendFor(ConnectorEdit, Put, name.value, ["config"], "", ConfigBody(prepared.config), response, wall);
    }

    /** Create a connector. */
    method Create(prepared: PreparedConfig, response: Response, wall: nat) returns (result: Result<(), Fault>)
      requires Valid()
      modifies client`health, client`probe, client`probed, client`connectors, client`requests, client`sent
      ensures Valid()
      ensures var ready := Covers(grant, [ConnectorCreate]) && grant.target.name == Some(prepared.name);
              if !ready then result.Err? && result.error.Rejected? && unchanged(client)
              else
                && result == ResultOf(response)
                && Added()
                && Route(Last().verb, Last().path) == Some(NewConnector)
                && Last().body == CreateBody(prepared.name, prepared.config)
    {
      var name := Connector([ConnectorCreate]);
      if name.Err? {
        return Err(name.error);
      }
      if prepared.name != name.value {
        return Err(Rejected("this change is for another connector"));
      }
      CreatePathIsReadBack();
      result := Send(Post, "/connectors", CreateBody(prepared.name, prepared.config), response, wall);
    }
  }

  /** `ConnectClient::writer`: a grant for another Connect cluster is refused. */
  method WriterFor(client: ConnectClient, grant: Grant) returns (result: Result<ConnectWriter, Fault>)
    requires client.Valid() && client.gate.Minted(grant)
    ensures result.Ok? <==> grant.target.host == client.id
    ensures result.Ok? ==> fresh(result.value) && result.value.Valid()
                           && result.value.client == client && result.value.grant == grant
    ensures result.Err? ==> result.error.Rejected?
  {
    if grant.target.host != client.id {
      return Err(Rejected("a grant was presented to another Connect cluster"));
    }
    var writer := new ConnectWriter(client, grant);
    result := Ok(writer);
  }

  lemma TailIsReadBack(name: string, tail: seq<string>)
    requires forall piece | piece in tail :: Plain(piece)
    ensures var parts := PathParts(Path("connectors", name, tail, ""));
            |parts| >= 3 && parts[3..] == tail
  {
    PathIsReadBack("connectors", name, tail, "");
    assert (["", "connectors", Segmented(name)] + tail)[3..] == tail;
  }

  lemma SignedDecimalIsPlain(n: int)
    ensures Plain(SignedDecimal(n))
  {
    assert forall c | c in Decimal(if n < 0 then -n else n) :: IsAsciiDigit(c);
  }

  lemma RestartQueryIsReadBack(name: string, includeTasks: bool, onlyFailed: bool)
    ensures var query := RestartQuery(includeTasks, onlyFailed);
            && query[0] == '?' && '?' !in query[1..]
            && QueryParts(Path("connectors", name, ["restart"], query))
               == ["includeTasks=" + Flag(includeTasks), "onlyFailed=" + Flag(onlyFailed)]
  {
    hide Flag;
    var tasks, failed := "includeTasks=" + Flag(includeTasks), "onlyFailed=" + Flag(onlyFailed);
    FlagIsPlain("includeTasks=", includeTasks);
    FlagIsPlain("onlyFailed=", onlyFailed);
    SplitSettings(tasks, failed);
    var query := RestartQuery(includeTasks, onlyFailed);
    assert query[1..] == tasks + "&" + failed;
    PathIsReadBack("connectors", name, ["restart"], query);
  }

  lemma FlagIsPlain(setting: string, value: bool)
    requires '&' !in setting && '?' !in setting
    ensures '&' !in setting + Flag(value) && '?' !in setting + Flag(value)
  {
  }

  lemma SplitSettings(first: string, second: string)
    requires '&' !in first && '&' !in second && '?' !in first && '?' !in second
    ensures '?' !in first + "&" + second
    ensures Split(first + "&" + second, '&') == [first, second]
  {
    SplitAppend(first, second, '&');
    SplitOfOnePiece(first, '&');
    SplitOfOnePiece(second, '&');
  }

  // ----- the whole trace -----

  /**
    Everything a client has ever put on the wire was authorized by the gate of its process: the request is
    the granted one, a caller who signed in asked for it under a ceiling that lists it, and a role that is
    configured and enforced permits it on the target addressed.
  */
  lemma EverySentRequestWasAuthorized(client: ConnectClient, i: nat)
    requires client.Valid() && client.gate.Valid() && i < |client.sent|
    ensures Lawful(client.sent[i], client.id)
    ensures client.gate.policy.enforcing
    ensures var grant := client.sent[i].grant;
            exists a, role ::
              && a in client.gate.granted && a.grant == grant
              && a.who.authenticated && a.who.subject == grant.subject && grant.operation in a.ceiling
              && role in a.access.roles && role in client.gate.policy.roles && role.name in grant.roles
              && var (resource, action) := grant.operation.Permission();
                 role.Permits(grant.target.cluster, grant.target.labels, resource, action,
                              Named(grant.operation, grant.target))
  {
    assert client.sent[i] in client.sent;
    GrantHasARole(client.gate, client.sent[i].grant);
  }

  /** A deployment without an identity provider changes nothing, in any run. */
  lemma OpenDeploymentSendsNothing(client: ConnectClient)
    requires client.Valid() && client.gate.Valid() && !client.gate.policy.enforcing
    ensures client.sent == []
  {
    if client.sent != [] {
      EverySentRequestWasAuthorized(client, 0);
    }
  }

  /** The operation a worker performs on reading a request: a dry run performs none. */
  function Performed(request: Request): Option<Operation> {
    match Route(request.verb, request.path)
    case Some(OnConnector(operation, _)) => Some(operation)
    case Some(NewConnector) => Some(ConnectorCreate)
    case _ => None
  }

  /** An operation that no ceiling for this Connect cluster listed is performed by nothing that is ever sent. */
  lemma NothingBeyondTheCeilings(client: ConnectClient, operation: Operation)
    requires client.Valid() && client.gate.Valid()
    requires forall a | a in client.gate.granted && a.grant.target.host == client.id :: operation !in a.ceiling
    ensures forall s | s in client.sent :: Performed(s.request) != Some(operation)
  {
    forall s | s in client.sent ensures Performed(s.request) != Some(operation) {
      assert Lawful(s, client.id);
      var a :| a in client.gate.granted && a.grant == s.grant;
      assert a.Agreed();
    }
  }
}
