/**
  What the writer puts on the wire, and how the Connect REST API reads it back: the request paths of
  crates/kaas-ui-connect/src/writer.rs against an independent reader of them.
*/
module ConnectWire {
  import opened Text
  import opened PercentEncoding
  import opened ConfigRedaction
  import opened WriteGate

  datatype Verb = Post | Put | Delete | Patch

  datatype StoredOffset = StoredOffset(partition: string, offset: string)

  datatype Body =
    | NoBody
    | ConfigBody(config: Config)
    | CreateBody(name: string, config: Config)
    | OffsetsBody(offsets: seq<StoredOffset>)

  datatype Request = Request(verb: Verb, path: string, body: Body)

  /** One request, and the grant it was sent under. */
  datatype Sent = Sent(grant: Grant, request: Request)

  // ----- the worker's reading of a request -----

  datatype Call =
    | OnConnector(operation: Operation, connector: seq<Byte>)
    | NewConnector
    | DryRun(plugin: seq<Byte>)

  /** The part of a path before its query, cut at every `/`. */
  function PathParts(path: string): seq<string> {
    Split(Split(path, '?')[0], '/')
  }

  /** The `&`-separated settings of a path's query, if it has one. */
  function QueryParts(path: string): seq<string> {
    var pieces := Split(path, '?');
    if |pieces| == 1 then [] else Split(pieces[1], '&')
  }

  /** The operation behind `/connectors/{name}` and what follows the name. */
  function OperationAt(verb: Verb, tail: seq<string>): Option<Operation> {
    match verb
    case Post =>
      if tail == ["restart"] then Some(ConnectorRestart)
      else if |tail| == 3 && tail[0] == "tasks" && tail[2] == "restart" then Some(ConnectorRestartTask)
      else None
    case Put =>
      if tail == ["pause"] then Some(ConnectorPause)
      else if tail == ["resume"] then Some(ConnectorResume)
      else if tail == ["stop"] then Some(ConnectorStop)
      else if tail == ["config"] then Some(ConnectorEdit)
      else if tail == ["topics", "reset"] then Some(ConnectorResetTopics)
      else None
    case Delete =>
      if tail == [] then Some(ConnectorDelete)
      else if tail == ["offsets"] then Some(ConnectorResetOffsets)
      else None
    case Patch =>
      if tail == ["offsets"] then Some(ConnectorAlterOffsets) else None
  }

  /** The endpoints under `/connectors/{name}`, and no others. */
  lemma EndpointsMean(verb: Verb, tail: seq<string>, operation: Operation)
    ensures OperationAt(verb, tail) == Some(operation) <==>
            match operation
            case ConnectorRestart => verb == Post && tail == ["restart"]
            case ConnectorRestartTask => verb == Post && |tail| == 3 && tail == ["tasks", tail[1], "restart"]
            case ConnectorPause => verb == Put && tail == ["pause"]
            case ConnectorResume => verb == Put && tail == ["resume"]
            case ConnectorStop => verb == Put && tail == ["stop"]
            case ConnectorResetTopics => verb == Put && tail == ["topics", "reset"]
            case ConnectorEdit => verb == Put && tail == ["config"]
            case ConnectorDelete => verb == Delete && tail == []
            case ConnectorResetOffsets => verb == Delete && tail == ["offsets"]
            case ConnectorAlterOffsets => verb == Patch && tail == ["offsets"]
            case ConnectorCreate => false
  {
    if tail != [] {
      FirstPieces(tail[0]);
    }
  }

  lemma FirstPieces(piece: string)
    ensures piece == "pause" ==> piece !in {"resume", "stop", "config", "topics"}
    ensures piece == "resume" ==> piece !in {"stop", "config", "topics"}
    ensures piece == "stop" ==> piece !in {"config", "topics"}
    ensures piece == "config" ==> piece != "topics"
    ensures piece == "restart" ==> piece != "tasks"
  {
    assert |"pause"| == 5 && |"resume"| == 6 && |"stop"| == 4 && |"config"| == 6 && |"topics"| == 6;
    assert "resume"[0] == 'r' && "config"[0] == 'c' && "topics"[0] == 't' && |"restart"| == 7 && |"tasks"| == 5;
  }

  /** The call a worker makes of a verb and a path: the route first, then the decoded name. */
  function Route(verb: Verb, path: string): Option<Call> {
    var parts := PathParts(path);
    if verb == Post && parts == ["", "connectors"] then Some(NewConnector)
    else if |parts| < 3 || parts[0] != "" || Decoded(parts[2]).None? then None
    else if parts[1] == "connector-plugins" then
      if verb == Put && parts[3..] == ["config", "validate"] then Some(DryRun(Decoded(parts[2]).value)) else None
    else if parts[1] == "connectors" then
      match OperationAt(verb, parts[3..])
      case Some(operation) => Some(OnConnector(operation, Decoded(parts[2]).value))
      case None => None
    else None
  }

  // ----- the writer's paths -----

  function Slashed(tail: seq<string>): string {
    if tail == [] then "" else "/" + tail[0] + Slashed(tail[1..])
  }

  /** A piece a path may hold verbatim. */
  predicate Plain(piece: string) {
    '/' !in piece && '?' !in piece
  }

  lemma {:induction false} SlashedParts(head: string, tail: seq<string>)
    requires Plain(head) && forall piece | piece in tail :: Plain(piece)
    ensures Split(head + Slashed(tail), '/') == [head] + tail
    ensures '?' !in Slashed(tail)
    decreases |tail|
  {
    if tail == [] {
      assert head + Slashed(tail) == head;
      SplitOfOnePiece(head, '/');
    } else {
      SlashedParts(tail[0], tail[1..]);
      assert head + Slashed(tail) == head + "/" + (tail[0] + Slashed(tail[1..]));
      SplitAppend(head, tail[0] + Slashed(tail[1..]), '/');
      SplitOfOnePiece(head, '/');
      assert [tail[0]] + tail[1..] == tail;
    }
  }

  /** The path `/{root}/{name}{tail}{query}`, with the name encoded. */
  function Path(root: string, name: string, tail: seq<string>, query: string): string {
    Slashed([root, Segmented(name)] + tail) + query
  }

  /** Whatever the name holds, the path is cut where the writer meant it to be. */
  lemma PathIsReadBack(root: string, name: string, tail: seq<string>, query: string)
    requires Plain(root) && forall piece | piece in tail :: Plain(piece)
    requires query == "" || (query[0] == '?' && '?' !in query[1..])
    ensures PathParts(Path(root, name, tail, query)) == ["", root, Segmented(name)] + tail
    ensures QueryParts(Path(root, name, tail, query)) == if query == "" then [] else Split(query[1..], '&')
    ensures Decoded(Segmented(name)) == Some(Utf8(name))
  {
    EncodedAlphabet(Utf8(name));
    DecodedOfEncoded(Utf8(name));
    var pieces := [root, Segmented(name)] + tail;
    SlashedParts("", pieces);
    var route := Slashed(pieces);
    assert "" + route == route;
    assert [""] + pieces == ["", root, Segmented(name)] + tail;
    SplitOfOnePiece(route, '?');
    if query == "" {
      assert route + query == route;
    } else {
      assert route + query == route + "?" + query[1..];
      SplitAppend(route, query[1..], '?');
      SplitOfOnePiece(query[1..], '?');
    }
  }

  /** A connector path is read back as its own operation on its own connector. */
  lemma ConnectorPathIsReadBack(verb: Verb, name: string, tail: seq<string>, query: string)
    requires forall piece | piece in tail :: Plain(piece)
    requires query == "" || (query[0] == '?' && '?' !in query[1..])
    requires OperationAt(verb, tail).Some?
    ensures Route(verb, Path("connectors", name, tail, query))
         == Some(OnConnector(OperationAt(verb, tail).value, Utf8(name)))
  {
    PathIsReadBack("connectors", name, tail, query);
    var parts := ["", "connectors", Segmented(name)] + tail;
    assert parts[3..] == tail;
    assert |parts[1]| != |"connector-plugins"|;
  }

  lemma ValidatePathIsReadBack(plugin: string)
    ensures Route(Put, Path("connector-plugins", plugin, ["config", "validate"], "")) == Some(DryRun(Utf8(plugin)))
  {
    PathIsReadBack("connector-plugins", plugin, ["config", "validate"], "");
    var parts := ["", "connector-plugins", Segmented(plugin)] + ["config", "validate"];
    assert parts[3..] == ["config", "validate"];
  }

  lemma CreatePathParts()
    ensures PathParts("/connectors") == ["", "connectors"]
  {
    SlashedParts("", ["connectors"]);
    assert Slashed(["connectors"]) == "/connectors" by {
      assert ["connectors"][1..] == [];
    }
    assert "" + "/connectors" == "/connectors";
    SplitOfOnePiece("/connectors", '?');
  }

  lemma CreatePathIsReadBack()
    ensures Route(Post, "/connectors") == Some(NewConnector)
  {
    CreatePathParts();
  }

  // ----- what may be sent -----

  /** If the config names a connector, it is this one. */
  predicate NameAgrees(name: string, config: Config) {
    "name" in config ==> config["name"] == name
  }

  /**
    A request its grant covers: the worker reads it as the granted operation on the granted connector
    of this Connect cluster, and a config in it carries no other name. Only a dry run is about a plugin
    instead.
  */
  ghost predicate Lawful(sent: Sent, host: string) {
    var Sent(grant, request) := sent;
    && grant.target.host == host
    && grant.target.name.Some?
    && var name := grant.target.name.value;
       match Route(request.verb, request.path)
       case None => false
       case Some(OnConnector(operation, connector)) =>
         && operation == grant.operation
         && connector == Utf8(name)
         && (operation == ConnectorEdit <==> request.body.ConfigBody?)
         && (request.body.ConfigBody? ==> NameAgrees(name, request.body.config))
       case Some(NewConnector) =>
         && grant.operation == ConnectorCreate
         && request.body.CreateBody?
         && request.body.name == name
         && NameAgrees(name, request.body.config)
       case Some(DryRun(plugin)) =>
         && (grant.operation == ConnectorEdit || grant.operation == ConnectorCreate)
         && request.body.ConfigBody?
         && "name" in request.body.config
         && "connector.class" in request.body.config
         && plugin == Utf8(request.body.config["connector.class"])
  }

  /** One request is lawful for one connector and, dry runs and creation apart, one operation only. */
  lemma LawfulPinsTheGrant(request: Request, host: string, first: Grant, second: Grant)
    requires Lawful(Sent(first, request), host) && Lawful(Sent(second, request), host)
    requires !Route(request.verb, request.path).value.DryRun?
    ensures first.operation == second.operation && first.target.name == second.target.name
  {
    if Route(request.verb, request.path).value.OnConnector? {
      Utf8Injective(first.target.name.value, second.target.name.value);
    }
  }
}
