/** The write gate: crates/kaas-ui-auth/src/gate.rs. */
module WriteGate {
  import opened Text
  import opened AccessPolicy

  datatype Operation =
    | ConnectorRestart
    | ConnectorRestartTask
    | ConnectorPause
    | ConnectorResume
    | ConnectorStop
    | ConnectorResetTopics
    | ConnectorEdit
    | ConnectorCreate
    | ConnectorDelete
    | ConnectorResetOffsets
    | ConnectorAlterOffsets
  {
    /** What a role has to list for it. */
    function Permission(): (Resource, Action) {
      match this
      case ConnectorEdit => (Connector, Edit)
      case ConnectorCreate => (Connect, Create)
      case ConnectorDelete => (Connector, Delete)
      case ConnectorResetOffsets => (Connector, ResetOffsets)
      case ConnectorAlterOffsets => (Connector, ResetOffsets)
      case _ => (Connector, Operate)
    }
  }

  /** How bad a mistaken write would be. It decides how it is confirmed, and nothing about who may do it. */
  datatype Tier = Reversible | Reconfigures | Destroys

  function TierOf(operation: Operation): Tier {
    match operation
    case ConnectorEdit => Reconfigures
    case ConnectorCreate => Reconfigures
    case ConnectorDelete => Destroys
    case ConnectorResetOffsets => Destroys
    case ConnectorAlterOffsets => Destroys
    case _ => Reversible
  }

  /** The two tables agree: a role that may only operate loses nothing, and only two verbs destroy. */
  lemma PermissionFollowsTier(operation: Operation)
    ensures TierOf(operation) == Reversible <==> operation.Permission() == (Connector, Operate)
    ensures TierOf(operation) == Destroys <==> operation.Permission().1 in {Delete, ResetOffsets}
    ensures TierOf(operation) == Reconfigures <==> operation.Permission() in {(Connector, Edit), (Connect, Create)}
  {
  }

  /** The operation a write action of a role is there for. */
  function Performing(resource: Resource, action: Action): Option<Operation> {
    match (resource, action)
    case (Connector, Operate) => Some(ConnectorPause)
    case (Connector, Edit) => Some(ConnectorEdit)
    case (Connector, Delete) => Some(ConnectorDelete)
    case (Connector, ResetOffsets) => Some(ConnectorResetOffsets)
    case (Connect, Create) => Some(ConnectorCreate)
    case _ => None
  }

  /**
    The verbs a role may list are exactly those something performs: every operation needs an action its
    resource has, and every action there that does not only read is needed by an operation.
  */
  lemma VerbsAreTheOperations(resource: Resource, action: Action)
    ensures (exists operation: Operation :: operation.Permission() == (resource, action))
       <==> action in resource.Actions() && action != View && action != MessagesRead
  {
    var performing := Performing(resource, action);
    if performing.Some? {
      assert performing.value.Permission() == (resource, action);
    }
  }

  datatype Target = Target(environment: string, cluster: string, labels: Labels, host: string, name: Option<string>)

  datatype Denied = Anonymous | NotEnabled(operation: Operation) | Forbidden(operation: Operation)

  /** What a permission's pattern is held against: for `create` the host, for the rest the connector. */
  function Named(operation: Operation, target: Target): Option<string> {
    if operation.Permission().0 == Connect then Some(target.host) else target.name
  }

  /** A role of the caller's permits the operation on the target. */
  predicate RoleAgrees(access: Access, operation: Operation, target: Target) {
    var (resource, action) := operation.Permission();
    access.RolePermits(target.cluster, target.labels, resource, action, Named(operation, target))
  }

  function Check(access: Access, operation: Operation, target: Target, ceiling: seq<Operation>)
    : Result<(), Denied>
  {
    if access.administrator then Err(Anonymous)
    else if operation !in ceiling then Err(NotEnabled(operation))
    else if !RoleAgrees(access, operation, target) then Err(Forbidden(operation))
    else Ok(())
  }

  /** Which permission each operation comes to, and for creation on which name. */
  lemma AgreesMeans(access: Access, operation: Operation, target: Target)
    ensures RoleAgrees(access, operation, target) <==>
            match operation
            case ConnectorCreate =>
              access.RolePermits(target.cluster, target.labels, Connect, Create, Some(target.host))
            case ConnectorEdit => access.RolePermits(target.cluster, target.labels, Connector, Edit, target.name)
            case ConnectorDelete =>
              access.RolePermits(target.cluster, target.labels, Connector, Action.Delete, target.name)
            case ConnectorResetOffsets =>
              access.RolePermits(target.cluster, target.labels, Connector, ResetOffsets, target.name)
            case ConnectorAlterOffsets =>
              access.RolePermits(target.cluster, target.labels, Connector, ResetOffsets, target.name)
            case _ => access.RolePermits(target.cluster, target.labels, Connector, Operate, target.name)
  {
  }

  /** Roles that list only reading authorize no operation, on any target and under any ceiling. */
  lemma ReadersWriteNothing(access: Access, operation: Operation, target: Target, ceiling: seq<Operation>)
    requires forall role, permission | role in access.roles && permission in role.permissions ::
               forall action | action in permission.actions :: action == View || action == MessagesRead
    ensures !RoleAgrees(access, operation, target) && Check(access, operation, target, ceiling).Err?
  {
    var (resource, action) := operation.Permission();
    PermittedIff(access, target.cluster, target.labels, resource, action, Named(operation, target));
  }

  /**
    Its fields are private to the gate, and only `Authorize` fills them in: a grant there is is one the
    gate recorded, `Gate.Minted`.
  */
  datatype Grant = Grant(operation: Operation, target: Target, subject: string, displayName: string,
                         roles: seq<string>, id: string)

  /** A grant, and whom, with what access and under which ceiling the gate gave it. */
  datatype Authorization = Authorization(grant: Grant, access: Access, who: Principal, ceiling: seq<Operation>) {

    /** Everything the gate has to have agreed to: the caller, the ceiling and a role. */
    predicate Agreed() {
      && who.authenticated
      && !access.administrator
      && grant.operation in ceiling
      && RoleAgrees(access, grant.operation, grant.target)
      && grant.subject == who.subject
      && grant.displayName == (if who.name.Some? then who.name.value else who.subject)
      && grant.roles == access.RoleNames()
    }
  }

  // ----- ids -----

  /** `w-{millis}-{counter}`. */
  function GrantId(millis: nat, counter: nat): string {
    "w-" + Decimal(millis) + "-" + Decimal(counter)
  }

  /** An id gives back the counter it was made from, whatever the wall clock did in between. */
  lemma GrantIdInjective(millis: nat, counter: nat, otherMillis: nat, otherCounter: nat)
    ensures GrantId(millis, counter) == GrantId(otherMillis, otherCounter)
       <==> millis == otherMillis && counter == otherCounter
  {
    GrantIdParts(millis, counter);
    GrantIdParts(otherMillis, otherCounter);
    DecimalRoundTrip(millis);
    DecimalRoundTrip(otherMillis);
    DecimalRoundTrip(counter);
    DecimalRoundTrip(otherCounter);
  }

  lemma GrantIdParts(millis: nat, counter: nat)
    ensures Split(GrantId(millis, counter), '-') == ["w", Decimal(millis), Decimal(counter)]
  {
    assert GrantId(millis, counter) == "w" + "-" + (Decimal(millis) + "-" + Decimal(counter));
    SplitThree("w", Decimal(millis), Decimal(counter), '-');
  }

  const U64 := 0x1_0000_0000_0000_0000

  /** The id of the i-th drawing, from the clock readings of them all. */
  function IdAt(drawn: seq<nat>, i: nat): string
    requires i < |drawn|
  {
    GrantId(drawn[i], i % U64)
  }

  /** Every grant was agreed to, for an access this policy gave, and carries an id of its own drawing. */
  ghost predicate Justified(policy: Policy, drawn: seq<nat>, granted: seq<Authorization>) {
    && |granted| == |drawn|
    && (forall i | 0 <= i < |granted| :: granted[i].grant.id == IdAt(drawn, i))
    && forall a | a in granted :: a.Agreed() && Gave(policy, a.access)
  }

  lemma OneMoreJustified(policy: Policy, drawn: seq<nat>, granted: seq<Authorization>, millis: nat, a: Authorization)
    requires Justified(policy, drawn, granted) && a.Agreed() && Gave(policy, a.access)
    requires a.grant.id == IdAt(drawn + [millis], |drawn|)
    ensures Justified(policy, drawn + [millis], granted + [a])
  {
    hide Authorization.Agreed, Gave, GrantId;
  }

  /** The gate of one process: its policy, which no reload changes, and the counter behind `next_id`. */
  class Gate {
    const policy: Policy
    var counter: nat

    /** The clock readings of the ids drawn, in order. */
    ghost var drawn: seq<nat>
    /** What was authorized, in order. */
    ghost var granted: seq<Authorization>

    /** The i-th id drawn. */
    ghost function Drawn(i: nat): string
      requires i < |drawn|
      reads this
    {
      IdAt(drawn, i)
    }

    ghost predicate Valid()
      reads this
    {
      counter == |drawn| % U64 && Justified(policy, drawn, granted)
    }

    /** The gate gave this grant. */
    ghost predicate Minted(grant: Grant)
      reads this
    {
      exists a | a in granted :: a.grant == grant
    }

    constructor (policy: Policy)
      ensures Valid() && this.policy == policy && granted == [] && drawn == []
    {
      this.policy, counter, drawn, granted := policy, 0, [], [];
    }

    /**
      `fetch_add(1)`, wrapping at 64 bits. The id was drawn before exactly when the clock reads what it read
      a multiple of 2^64 drawings ago; so for the first 2^64 it never was.
    */
    method NextId(millis: nat) returns (id: string)
      requires counter == |drawn| % U64
      modifies this`counter, this`drawn
      ensures drawn == old(drawn) + [millis] && counter == |drawn| % U64
      ensures id == Drawn(|old(drawn)|)
      ensures (exists i | 0 <= i < |old(drawn)| :: old(Drawn(i)) == id)
         <==> exists i | 0 <= i < |old(drawn)| :: i % U64 == |old(drawn)| % U64 && old(drawn)[i] == millis
      ensures |old(drawn)| < U64 ==> forall i | 0 <= i < |old(drawn)| :: old(Drawn(i)) != id
    {
      id := GrantId(millis, counter);
      forall i | 0 <= i < |drawn|
        ensures Drawn(i) == id <==> i % U64 == |drawn| % U64 && drawn[i] == millis
      {
        GrantIdInjective(drawn[i], i % U64, millis, counter);
      }
      counter := (counter + 1) % U64;
      drawn := drawn + [millis];
    }

    /** `Access::authorize`: a grant exactly when every gate agrees, and the first that does not is named. */
    method Authorize(access: Access, who: Principal, operation: Operation, target: Target,
                     ceiling: seq<Operation>, millis: nat)
      returns (result: Result<Grant, Denied>)
      // There is one policy to a process, and nothing else makes an access.
      requires Valid() && Gave(policy, access)
      modifies this
      ensures Valid()
      ensures result.Ok? <==> && who.authenticated && !access.administrator && operation in ceiling
                              && RoleAgrees(access, operation, target)
      ensures result.Ok? ==> && result.value.operation == operation && result.value.target == target
                             && granted == old(granted) + [Authorization(result.value, access, who, ceiling)]
      ensures result.Err? ==>
                && unchanged(this)
                && result.error in {Anonymous, NotEnabled(operation), Forbidden(operation)}
                && (result.error == Anonymous <==> !who.authenticated || access.administrator)
                && (result.error == NotEnabled(operation)
                    <==> who.authenticated && !access.administrator && operation !in ceiling)
    {
      hide RoleAgrees, GrantId, Justified, Gave;
      if !who.authenticated {
        return Err(Anonymous);
      }
      var checked := Check(access, operation, target, ceiling);
      if checked.Err? {
        return Err(checked.error);
      }
      var id := NextId(millis);
      var grant := Grant(operation, target, who.subject, who.name.GetOr(who.subject), access.RoleNames(), id);
      OneMoreJustified(policy, old(drawn), granted, millis, Authorization(grant, access, who, ceiling));
      granted := granted + [Authorization(grant, access, who, ceiling)];
      result := Ok(grant);
    }
  }

  /** An id joins the two audit lines of one grant and of no other, for the first 2^64. */
  lemma GrantIdsAreUnique(gate: Gate, i: nat, j: nat)
    requires gate.Valid() && i < j < |gate.granted| <= 0x1_0000_0000_0000_0000
    ensures gate.granted[i].grant.id != gate.granted[j].grant.id
  {
    hide GrantId, Gate.Valid;
    IdOfGrant(gate, i);
    IdOfGrant(gate, j);
    GrantIdInjective(gate.drawn[i], i % U64, gate.drawn[j], j % U64);
  }

  lemma IdOfGrant(gate: Gate, i: nat)
    requires gate.Valid() && i < |gate.granted|
    ensures |gate.granted| == |gate.drawn| && gate.granted[i].grant.id == GrantId(gate.drawn[i], i % U64)
  {
  }

  /**
    What a grant proves: it was asked for by a caller who signed in, under a ceiling that lists its
    operation, and a role configured in this policy, and enforced, permits that on its target.
  */
  lemma GrantHasARole(gate: Gate, grant: Grant)
    requires gate.Valid() && gate.Minted(grant)
    ensures gate.policy.enforcing
    ensures exists a, role ::
              && a in gate.granted && a.grant == grant
              && a.who.authenticated && a.who.subject == grant.subject && grant.operation in a.ceiling
              && role in a.access.roles && role in gate.policy.roles && role.name in grant.roles
              && var (resource, action) := grant.operation.Permission();
                 role.Permits(grant.target.cluster, grant.target.labels, resource, action,
                              Named(grant.operation, grant.target))
  {
    var a :| a in gate.granted && a.grant == grant;
    var (resource, action) := grant.operation.Permission();
    var role :| role in a.access.roles
             && role.Permits(grant.target.cluster, grant.target.labels, resource, action,
                             Named(grant.operation, grant.target));
    AccessComesFromThePolicy(gate.policy, a.access);
    RoleNamesHold(a.access);
  }
}
