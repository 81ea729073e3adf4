/**
  Which fleets start: the ids, references and credential claims of `Config::validate` in
  crates/kaas-ui-core/src/config.rs.
*/
module FleetConfig {
  import opened Text
  import opened PercentEncoding

  datatype Registry = Registry(id: string, readsClientSecret: bool)

  datatype Sasl = NoSasl | PasswordMechanism | OauthBearer | OtherMechanism

  datatype Cluster = Cluster(id: string, sasl: Sasl, schemaRegistry: Option<string>)

  datatype ConnectCluster = ConnectCluster(id: string, kafkaCluster: Option<string>)

  datatype Environment = Environment(id: string, registries: seq<Registry>, clusters: seq<Cluster>,
                                     resources: seq<string>, connects: seq<ConnectCluster>)

  // ----- derived credential variables -----

  datatype Credential = Password | BearerToken | ClientSecret {

    function Name(): string {
      match this
      case Password => "password"
      case BearerToken => "bearer_token"
      case ClientSecret => "client_secret"
    }
  }

  datatype Kind = SchemaRegistry | KafkaCluster | ConnectKind {

    function Name(): string {
      match this
      case SchemaRegistry => "schema registry"
      case KafkaCluster => "cluster"
      case ConnectKind => "Connect cluster"
    }
  }

  function Flatten(id: string): string {
    seq(|id|, i requires 0 <= i < |id| => if IsAsciiAlphanumeric(id[i]) then ToUpper(id[i]) else '_')
  }

  function SecretVar(credential: string, environment: string, id: string): string {
    "KAAS_UI_" + Flatten(credential) + "_" + Flatten(environment) + "_" + Flatten(id)
  }

  /** One cluster's or registry's claim on a variable. */
  datatype Claim = Claim(credential: Credential, environment: string, kind: Kind, id: string) {

    function Variable(): string { SecretVar(credential.Name(), environment, id) }

    /** Who a variable is taken by: the kind and the id, and not the environment. */
    function Owner(): string { kind.Name() + " \"" + id + "\"" }
  }

  predicate IsPathSafe(id: string) {
    forall c | c in id :: IsAsciiAlphanumeric(c) || c == '-' || c == '_'
  }

  lemma {:induction false} PathSafeBytes(id: string)
    ensures IsPathSafe(id) ==> Encoded(Utf8(id)) == id
  {
    if IsPathSafe(id) && id != [] {
      assert forall c | c in id[1..] :: c in id;
      PathSafeBytes(id[1..]);
      assert id[0] in id && id == [id[0]] + id[1..];
      assert Utf8(id) == [id[0] as int] + Utf8(id[1..]);
      assert Utf8(id)[1..] == Utf8(id[1..]);
    }
  }

  /** Path-safe ids are those that stand in a path as they are, bar the two unreserved marks they may not use. */
  lemma PathSafeIff(id: string)
    ensures IsPathSafe(id) <==> Segmented(id) == id && '.' !in id && '~' !in id
  {
    PathSafeBytes(id);
    EncodedAlphabet(Utf8(id));
    EncodedLength(Utf8(id));
    Utf8Length(id);
    if Segmented(id) == id && '.' !in id && '~' !in id {
      forall c | c in id ensures IsAsciiAlphanumeric(c) || c == '-' || c == '_' {
        assert c in Encoded(Utf8(id));
      }
    }
  }

  /** The owner says exactly the kind and the id. */
  lemma OwnerInjective(a: Claim, b: Claim)
    requires IsPathSafe(a.id) && IsPathSafe(b.id)
    ensures a.Owner() == b.Owner() <==> a.kind == b.kind && a.id == b.id
  {
    OwnerParts(a);
    OwnerParts(b);
    KindNamesDiffer(a.kind, b.kind);
  }

  lemma OwnerParts(claim: Claim)
    requires IsPathSafe(claim.id)
    ensures Split(claim.Owner(), '"') == [claim.kind.Name() + " ", claim.id, ""]
  {
    var front := claim.kind.Name() + " ";
    assert claim.Owner() == front + ['"'] + (claim.id + ['"'] + "");
    SplitThree(front, claim.id, "", '"');
  }

  lemma KindNamesDiffer(a: Kind, b: Kind)
    ensures a.Name() + " " == b.Name() + " " ==> a == b
  {
    assert |a.Name() + " "| == |a.Name()| + 1 && |b.Name() + " "| == |b.Name()| + 1;
    assert |SchemaRegistry.Name()| == 15 && |KafkaCluster.Name()| == 7 && |ConnectKind.Name()| == 15;
    assert (SchemaRegistry.Name() + " ")[0] == 's' && (ConnectKind.Name() + " ")[0] == 'C';
  }

  // ----- what is claimed -----

  function RegistryClaims(env: string, registry: Registry): seq<Claim> {
    [Claim(Password, env, SchemaRegistry, registry.id), Claim(BearerToken, env, SchemaRegistry, registry.id)]
    + if registry.readsClientSecret then [Claim(ClientSecret, env, SchemaRegistry, registry.id)] else []
  }

  function ClusterClaims(env: string, cluster: Cluster): seq<Claim> {
    match cluster.sasl
    case PasswordMechanism => [Claim(Password, env, KafkaCluster, cluster.id)]
    case OauthBearer => [Claim(ClientSecret, env, KafkaCluster, cluster.id)]
    case _ => []
  }

  function ConnectClaims(env: string, connect: ConnectCluster): seq<Claim> {
    [Claim(Password, env, ConnectKind, connect.id), Claim(BearerToken, env, ConnectKind, connect.id)]
  }

  function Concat(lists: seq<seq<Claim>>): seq<Claim> {
    if lists == [] then [] else Concat(lists[..|lists| - 1]) + lists[|lists| - 1]
  }

  function RegistryLists(env: Environment): seq<seq<Claim>> {
    seq(|env.registries|, i requires 0 <= i < |env.registries| => RegistryClaims(env.id, env.registries[i]))
  }

  function ClusterLists(env: Environment): seq<seq<Claim>> {
    seq(|env.clusters|, i requires 0 <= i < |env.clusters| => ClusterClaims(env.id, env.clusters[i]))
  }

  function ConnectLists(env: Environment): seq<seq<Claim>> {
    seq(|env.connects|, i requires 0 <= i < |env.connects| => ConnectClaims(env.id, env.connects[i]))
  }

  function EnvironmentClaims(env: Environment): seq<Claim> {
    Concat(RegistryLists(env)) + Concat(ClusterLists(env)) + Concat(ConnectLists(env))
  }

  function FleetLists(fleet: seq<Environment>): seq<seq<Claim>> {
    seq(|fleet|, i requires 0 <= i < |fleet| => EnvironmentClaims(fleet[i]))
  }

  function FleetClaims(fleet: seq<Environment>): seq<Claim> {
    Concat(FleetLists(fleet))
  }

  // ----- the fleets that start, declared -----

  predicate Distinct(ids: seq<string>) {
    forall i, j | 0 <= i < j < |ids| :: ids[i] != ids[j]
  }

  /** Ids that can stand in a URL, each used once. */
  predicate GoodIds(ids: seq<string>) {
    Distinct(ids) && forall id | id in ids :: id != "" && IsPathSafe(id)
  }

  function RegistryIds(registries: seq<Registry>): seq<string> {
    seq(|registries|, i requires 0 <= i < |registries| => registries[i].id)
  }

  function ClusterIds(clusters: seq<Cluster>): seq<string> {
    seq(|clusters|, i requires 0 <= i < |clusters| => clusters[i].id)
  }

  function ConnectIds(connects: seq<ConnectCluster>): seq<string> {
    seq(|connects|, i requires 0 <= i < |connects| => connects[i].id)
  }

  function EnvironmentIds(fleet: seq<Environment>): seq<string> {
    seq(|fleet|, i requires 0 <= i < |fleet| => fleet[i].id)
  }

  predicate Resolves(reference: Option<string>, ids: seq<string>) {
    reference.Some? ==> reference.value in ids
  }

  predicate EnvironmentWellFormed(env: Environment) {
    && GoodIds(RegistryIds(env.registries))
    && GoodIds(ClusterIds(env.clusters))
    && (forall cluster | cluster in env.clusters :: Resolves(cluster.schemaRegistry, RegistryIds(env.registries)))
    && Distinct(env.resources) && "" !in env.resources
    && GoodIds(ConnectIds(env.connects))
    && (forall id | id in ConnectIds(env.connects) :: id !in env.resources)
    && forall connect | connect in env.connects :: Resolves(connect.kafkaCluster, ClusterIds(env.clusters))
  }

  /** Two claims on one variable are the same owner's. */
  predicate NoClash(claims: seq<Claim>) {
    forall a, b | a in claims && b in claims && a.Variable() == b.Variable() :: a.Owner() == b.Owner()
  }

  predicate WellFormed(fleet: seq<Environment>) {
    && fleet != []
    && GoodIds(EnvironmentIds(fleet))
    && (forall env | env in fleet :: EnvironmentWellFormed(env))
    && NoClash(FleetClaims(fleet))
    && HasClusters(fleet)
  }

  predicate HasClusters(fleet: seq<Environment>) {
    exists env | env in fleet :: env.clusters != []
  }

  // ----- claiming -----

  type Taken = map<string, string>

  /** `taken` is what a list of claims without a clash has taken. */
  ghost predicate Holds(taken: Taken, claims: seq<Claim>) {
    && (forall claim | claim in claims :: claim.Variable() in taken && taken[claim.Variable()] == claim.Owner())
    && forall variable | variable in taken :: exists claim | claim in claims :: claim.Variable() == variable
  }

  lemma HoldsMeansNoClash(taken: Taken, claims: seq<Claim>)
    requires Holds(taken, claims)
    ensures NoClash(claims)
  {
  }

  /** `claim`: take the variable, or find that somebody else has. */
  method TakeVariable(taken: Taken, claim: Claim, ghost claims: seq<Claim>) returns (ok: bool, after: Taken)
    requires Holds(taken, claims)
    ensures ok <==> NoClash(claims + [claim])
    ensures ok ==> Holds(after, claims + [claim])
  {
    hide Claim.Variable, Claim.Owner;
    var variable, owner := claim.Variable(), claim.Owner();
    ok := !(variable in taken && taken[variable] != owner);
    after := taken[variable := owner];
    HoldsMeansNoClash(taken, claims);
    assert claim in claims + [claim];
    assert forall c | c in claims :: c in claims + [claim];
    if !ok {
      ghost var other :| other in claims && other.Variable() == variable;
      assert other in claims + [claim];
    }
  }

  /** The claims of one entry, in order. */
  method TakeAll(taken: Taken, wanted: seq<Claim>, ghost claims: seq<Claim>) returns (ok: bool, after: Taken)
    requires Holds(taken, claims)
    ensures ok <==> NoClash(claims + wanted)
    ensures ok ==> Holds(after, claims + wanted)
  {
    after := taken;
    assert claims + wanted[..0] == claims;
    for i := 0 to |wanted|
      invariant Holds(after, claims + wanted[..i])
    {
      assert claims + wanted[..i] + [wanted[i]] == claims + wanted[..i + 1];
      ok, after := TakeVariable(after, wanted[i], claims + wanted[..i]);
      if !ok {
        ClashStays(claims + wanted[..i + 1], claims + wanted);
        return false, after;
      }
    }
    assert wanted[..|wanted|] == wanted;
    HoldsMeansNoClash(after, claims + wanted);
    ok := true;
  }

  lemma ClashStays(some: seq<Claim>, more: seq<Claim>)
    requires !NoClash(some) && forall claim | claim in some :: claim in more
    ensures !NoClash(more)
  {
  }

  // ----- one kind of entry after another -----

  lemma GoodIdsStep(ids: seq<string>, n: nat)
    requires n < |ids|
    ensures GoodIds(ids[..n + 1]) <==> GoodIds(ids[..n]) && ids[n] != "" && IsPathSafe(ids[n]) && ids[n] !in ids[..n]
  {
    assert ids[..n + 1] == ids[..n] + [ids[n]];
    assert ids[n] in ids[..n + 1] && forall id | id in ids[..n] :: id in ids[..n + 1];
    assert forall i | 0 <= i < n :: ids[..n][i] == ids[..n + 1][i];
    assert ids[..n + 1][n] == ids[n];
  }

  lemma BadIdsStay(ids: seq<string>, n: nat)
    requires n <= |ids| && !GoodIds(ids[..n])
    ensures !GoodIds(ids)
  {
    if GoodIds(ids) {
      assert forall id | id in ids[..n] :: id in ids;
      assert GoodIds(ids[..n]);
    }
  }

  lemma ConcatStep(before: seq<Claim>, lists: seq<seq<Claim>>, n: nat)
    requires n < |lists|
    ensures before + Concat(lists[..n]) + lists[n] == before + Concat(lists[..n + 1])
  {
    assert lists[..n + 1][..n] == lists[..n];
  }

  lemma {:induction false} ConcatGrows(lists: seq<seq<Claim>>, n: nat)
    requires n <= |lists|
    ensures forall claim | claim in Concat(lists[..n]) :: claim in Concat(lists)
  {
    if n == |lists| {
      assert lists[..n] == lists;
    } else {
      assert lists[..|lists| - 1][..n] == lists[..n];
      ConcatGrows(lists[..|lists| - 1], n);
    }
  }

  lemma ConcatNothing(before: seq<Claim>, lists: seq<seq<Claim>>)
    ensures before + Concat(lists[..0]) == before
  {
  }

  lemma ClashInPart(before: seq<Claim>, lists: seq<seq<Claim>>, n: nat)
    requires n <= |lists| && !NoClash(before + Concat(lists[..n]))
    ensures !NoClash(before + Concat(lists))
  {
    ConcatGrows(lists, n);
    ClashStays(before + Concat(lists[..n]), before + Concat(lists));
  }

  /** One id, path-safe and not seen before. */
  predicate Admissible(id: string, seen: set<string>) {
    id != "" && IsPathSafe(id) && id !in seen
  }

  method CheckRegistries(env: Environment, taken: Taken, ghost before: seq<Claim>)
    returns (ok: bool, seen: set<string>, after: Taken)
    requires Holds(taken, before)
    ensures ok <==> GoodIds(RegistryIds(env.registries)) && NoClash(before + Concat(RegistryLists(env)))
    ensures ok ==> Holds(after, before + Concat(RegistryLists(env)))
    ensures ok ==> forall id :: id in seen <==> id in RegistryIds(env.registries)
  {
    after, seen := taken, {};
    ghost var ids, lists := RegistryIds(env.registries), RegistryLists(env);
    assert before + Concat(lists[..0]) == before;
    for i := 0 to |env.registries|
      invariant GoodIds(ids[..i]) && Holds(after, before + Concat(lists[..i]))
      invariant forall id :: id in seen <==> id in ids[..i]
    {
      var registry := env.registries[i];
      GoodIdsStep(ids, i);
      if !Admissible(registry.id, seen) {
        BadIdsStay(ids, i + 1);
        return false, seen, after;
      }
      seen := seen + {registry.id};
      assert ids[..i + 1] == ids[..i] + [registry.id];
      ConcatStep(before, lists, i);
      ok, after := TakeAll(after, RegistryClaims(env.id, registry), before + Concat(lists[..i]));
      if !ok {
        ClashInPart(before, lists, i + 1);
        return false, seen, after;
      }
    }
    assert ids[..|ids|] == ids && lists[..|lists|] == lists;
    HoldsMeansNoClash(after, before + Concat(lists));
    ok := true;
  }

  method CheckClusters(env: Environment, registries: set<string>, taken: Taken, ghost before: seq<Claim>)
    returns (ok: bool, seen: set<string>, after: Taken)
    requires Holds(taken, before)
    requires forall id :: id in registries <==> id in RegistryIds(env.registries)
    ensures ok <==> && GoodIds(ClusterIds(env.clusters)) && NoClash(before + Concat(ClusterLists(env)))
                    && forall cluster | cluster in env.clusters ::
                         Resolves(cluster.schemaRegistry, RegistryIds(env.registries))
    ensures ok ==> Holds(after, before + Concat(ClusterLists(env)))
    ensures ok ==> forall id :: id in seen <==> id in ClusterIds(env.clusters)
  {
    after, seen := taken, {};
    ghost var ids, lists := ClusterIds(env.clusters), ClusterLists(env);
    assert before + Concat(lists[..0]) == before;
    for i := 0 to |env.clusters|
      invariant GoodIds(ids[..i]) && Holds(after, before + Concat(lists[..i]))
      invariant forall id :: id in seen <==> id in ids[..i]
      invariant forall cluster | cluster in env.clusters[..i] ::
                  Resolves(cluster.schemaRegistry, RegistryIds(env.registries))
    {
      var cluster := env.clusters[i];
      GoodIdsStep(ids, i);
      if !Admissible(cluster.id, seen) {
        BadIdsStay(ids, i + 1);
        return false, seen, after;
      }
      seen := seen + {cluster.id};
      assert ids[..i + 1] == ids[..i] + [cluster.id];
      ConcatStep(before, lists, i);
      ok, after := TakeAll(after, ClusterClaims(env.id, cluster), before + Concat(lists[..i]));
      if !ok {
        ClashInPart(before, lists, i + 1);
        return false, seen, after;
      }
      if cluster.schemaRegistry.Some? && cluster.schemaRegistry.value !in registries {
        assert cluster in env.clusters;
        return false, seen, after;
      }
      assert env.clusters[..i + 1] == env.clusters[..i] + [cluster];
    }
    assert ids[..|ids|] == ids && lists[..|lists|] == lists && env.clusters[..|env.clusters|] == env.clusters;
    HoldsMeansNoClash(after, before + Concat(lists));
    ok := true;
  }

  method CheckResources(resources: seq<string>) returns (ok: bool, seen: set<string>)
    ensures ok <==> Distinct(resources) && "" !in resources
    ensures ok ==> forall id :: id in seen <==> id in resources
  {
    seen := {};
    for i := 0 to |resources|
      invariant Distinct(resources[..i]) && "" !in resources[..i]
      invariant forall id :: id in seen <==> id in resources[..i]
    {
      var id := resources[i];
      assert resources[..i + 1] == resources[..i] + [id];
      if id == "" {
        return false, seen;
      }
      if id in seen {
        assert exists j | 0 <= j < i :: resources[..i][j] == id;
        return false, seen;
      }
      seen := seen + {id};
    }
    assert resources[..|resources|] == resources;
    ok := true;
  }

  /** How often an id is used: the duplicate check of the Connect clusters counts. */
  function Uses(ids: seq<string>, id: string): nat {
    if ids == [] then 0 else Uses(ids[..|ids| - 1], id) + if ids[|ids| - 1] == id then 1 else 0
  }

  lemma {:induction false} UsedOnce(ids: seq<string>, id: string)
    ensures Uses(ids, id) > 0 <==> id in ids
    ensures Uses(ids, id) > 1 <==> exists i, j | 0 <= i < j < |ids| :: ids[i] == id && ids[j] == id
  {
    if ids != [] {
      var n := |ids| - 1;
      UsedOnce(ids[..n], id);
      assert ids == ids[..n] + [ids[n]];
      if Uses(ids[..n], id) > 1 {
        var i, j :| 0 <= i < j < n && ids[..n][i] == id && ids[..n][j] == id;
        assert ids[i] == id && ids[j] == id;
      } else if ids[n] == id && Uses(ids[..n], id) > 0 {
        var i :| 0 <= i < n && ids[..n][i] == id;
        assert ids[i] == id && ids[n] == id;
      }
      if i, j :| 0 <= i < j < |ids| && ids[i] == id && ids[j] == id {
        if j < n {
          assert ids[..n][i] == id && ids[..n][j] == id;
        } else {
          assert ids[..n][i] == id;
        }
      }
    }
  }

  lemma DistinctMeansUsedOnce(ids: seq<string>)
    ensures Distinct(ids) <==> forall id | id in ids :: Uses(ids, id) <= 1
  {
    forall id | id in ids ensures Uses(ids, id) > 1 <==> exists i, j | 0 <= i < j < |ids| :: ids[i] == id && ids[j] == id {
      UsedOnce(ids, id);
    }
    if i, j :| 0 <= i < j < |ids| && ids[i] == ids[j] {
      assert ids[i] in ids;
      assert Uses(ids, ids[i]) > 1;
    }
  }

  method CheckConnects(env: Environment, clusters: set<string>, resources: set<string>, taken: Taken,
                       ghost before: seq<Claim>)
    returns (ok: bool, after: Taken)
    requires Holds(taken, before)
    requires forall id :: id in clusters <==> id in ClusterIds(env.clusters)
    requires forall id :: id in resources <==> id in env.resources
    ensures ok <==> && GoodIds(ConnectIds(env.connects)) && NoClash(before + Concat(ConnectLists(env)))
                    && (forall id | id in ConnectIds(env.connects) :: id !in env.resources)
                    && forall connect | connect in env.connects ::
                         Resolves(connect.kafkaCluster, ClusterIds(env.clusters))
    ensures ok ==> Holds(after, before + Concat(ConnectLists(env)))
  {
    hide NoClash, Holds, IsPathSafe, ConnectClaims, Concat, Uses;
    after := taken;
    var ids := ConnectIds(env.connects);
    ghost var lists := ConnectLists(env);
    DistinctMeansUsedOnce(ids);
    ConcatNothing(before, lists);
    for i := 0 to |env.connects|
      invariant Holds(after, before + Concat(lists[..i]))
      invariant forall id | id in ids[..i] :: id != "" && IsPathSafe(id) && Uses(ids, id) <= 1 && id !in env.resources
      invariant forall connect | connect in env.connects[..i] ::
                  Resolves(connect.kafkaCluster, ClusterIds(env.clusters))
    {
      var connect := env.connects[i];
      var id := connect.id;
      assert ids[i] == id && id in ids && connect in env.connects;
      if id == "" || !IsPathSafe(id) || Uses(ids, id) > 1 || id in resources {
        return false, after;
      }
      assert ids[..i + 1] == ids[..i] + [id];
      ConcatStep(before, lists, i);
      ok, after := TakeAll(after, ConnectClaims(env.id, connect), before + Concat(lists[..i]));
      if !ok {
        ClashInPart(before, lists, i + 1);
        return false, after;
      }
      if connect.kafkaCluster.Some? && connect.kafkaCluster.value !in clusters {
        return false, after;
      }
      assert env.connects[..i + 1] == env.connects[..i] + [connect];
    }
    assert ids[..|ids|] == ids && lists[..|lists|] == lists && env.connects[..|env.connects|] == env.connects;
    HoldsMeansNoClash(after, before + Concat(lists));
    ok := true;
  }

  lemma HasClustersStep(fleet: seq<Environment>, env: Environment)
    ensures HasClusters(fleet + [env]) <==> HasClusters(fleet) || env.clusters != []
  {
    assert env in fleet + [env] && forall e | e in fleet :: e in fleet + [env];
  }

  lemma HoldsNothing()
    ensures Holds(map[], []) && GoodIds([])
  {
  }

  // ----- the whole fleet -----

  method CheckEnvironment(env: Environment, taken: Taken, ghost before: seq<Claim>) returns (ok: bool, after: Taken)
    requires Holds(taken, before)
    ensures ok <==> EnvironmentWellFormed(env) && NoClash(before + EnvironmentClaims(env))
    ensures ok ==> Holds(after, before + EnvironmentClaims(env))
  {
    ghost var first := before + Concat(RegistryLists(env));
    ghost var second := first + Concat(ClusterLists(env));
    assert second + Concat(ConnectLists(env)) == before + EnvironmentClaims(env);
    var registries, clusters, resources;
    ok, registries, after := CheckRegistries(env, taken, before);
    if !ok {
      if !NoClash(first) {
        ClashStays(first, before + EnvironmentClaims(env));
      }
      return;
    }
    ok, clusters, after := CheckClusters(env, registries, after, first);
    if !ok {
      if !NoClash(second) {
        ClashStays(second, before + EnvironmentClaims(env));
      }
      return;
    }
    ok, resources := CheckResources(env.resources);
    if !ok {
      return;
    }
    ok, after := CheckConnects(env, clusters, resources, after, second);
  }

  /** `validate`: a fleet starts exactly when it is well formed. */
  method Validate(fleet: seq<Environment>) returns (ok: bool)
    ensures ok <==> WellFormed(fleet)
  {
    hide EnvironmentWellFormed, GoodIds, NoClash, EnvironmentClaims, Holds, IsPathSafe;
    if fleet == [] {
      return false;
    }
    HoldsNothing();
    var seen: set<string>, clusterCount: nat, taken: Taken := {}, 0, map[];
    ghost var ids, lists := EnvironmentIds(fleet), FleetLists(fleet);
    assert [] + Concat(lists[..0]) == [] && ids[..0] == [];
    for i := 0 to |fleet|
      invariant GoodIds(ids[..i]) && Holds(taken, [] + Concat(lists[..i]))
      invariant forall id :: id in seen <==> id in ids[..i]
      invariant forall env | env in fleet[..i] :: EnvironmentWellFormed(env)
      invariant clusterCount > 0 <==> HasClusters(fleet[..i])
    {
      var env := fleet[i];
      assert env in fleet && fleet[..i + 1] == fleet[..i] + [env];
      GoodIdsStep(ids, i);
      if !Admissible(env.id, seen) {
        BadIdsStay(ids, i + 1);
        return false;
      }
      seen := seen + {env.id};
      assert ids[..i + 1] == ids[..i] + [env.id];
      ConcatStep([], lists, i);
      ok, taken := CheckEnvironment(env, taken, [] + Concat(lists[..i]));
      if !ok {
        if !NoClash([] + Concat(lists[..i + 1])) {
          ClashInPart([], lists, i + 1);
          assert [] + Concat(lists) == Concat(lists);
        }
        return false;
      }
      clusterCount := clusterCount + |env.clusters|;
      HasClustersStep(fleet[..i], env);
    }
    assert ids[..|ids|] == ids && lists[..|lists|] == lists && fleet[..|fleet|] == fleet;
    assert [] + Concat(lists) == Concat(lists);
    HoldsMeansNoClash(taken, Concat(lists));
    ok := clusterCount > 0;
  }

  // ----- what the claims do and do not keep apart -----

  lemma {:induction false} ClaimsOfEntries(lists: seq<seq<Claim>>, claim: Claim)
    ensures claim in Concat(lists) <==> exists i | 0 <= i < |lists| :: claim in lists[i]
  {
    if lists != [] {
      var front, last := lists[..|lists| - 1], lists[|lists| - 1];
      ClaimsOfEntries(front, claim);
      if claim in Concat(front) {
        var i :| 0 <= i < |front| && claim in front[i];
        assert claim in lists[i];
      }
      if i :| 0 <= i < |lists| && claim in lists[i] {
        if i < |front| {
          assert claim in front[i];
        }
      }
    }
  }

  lemma RegistryClaimsAreSafe(env: Environment, claim: Claim)
    requires GoodIds(RegistryIds(env.registries)) && claim in Concat(RegistryLists(env))
    ensures IsPathSafe(claim.id)
  {
    hide IsPathSafe;
    ClaimsOfEntries(RegistryLists(env), claim);
    var j :| 0 <= j < |env.registries| && claim in RegistryLists(env)[j];
    assert RegistryIds(env.registries)[j] == claim.id;
  }

  lemma ClusterClaimsAreSafe(env: Environment, claim: Claim)
    requires GoodIds(ClusterIds(env.clusters)) && claim in Concat(ClusterLists(env))
    ensures IsPathSafe(claim.id)
  {
    hide IsPathSafe;
    ClaimsOfEntries(ClusterLists(env), claim);
    var j :| 0 <= j < |env.clusters| && claim in ClusterLists(env)[j];
    assert ClusterIds(env.clusters)[j] == claim.id;
  }

  lemma ConnectClaimsAreSafe(env: Environment, claim: Claim)
    requires GoodIds(ConnectIds(env.connects)) && claim in Concat(ConnectLists(env))
    ensures IsPathSafe(claim.id)
  {
    hide IsPathSafe;
    ClaimsOfEntries(ConnectLists(env), claim);
    var j :| 0 <= j < |env.connects| && claim in ConnectLists(env)[j];
    assert ConnectIds(env.connects)[j] == claim.id;
  }

  lemma EnvironmentClaimsAreSafe(env: Environment, claim: Claim)
    requires EnvironmentWellFormed(env) && claim in EnvironmentClaims(env)
    ensures IsPathSafe(claim.id)
  {
    hide NoClash, IsPathSafe, GoodIds, Concat;
    if claim in Concat(RegistryLists(env)) {
      RegistryClaimsAreSafe(env, claim);
    } else if claim in Concat(ClusterLists(env)) {
      ClusterClaimsAreSafe(env, claim);
    } else {
      ConnectClaimsAreSafe(env, claim);
    }
  }

  /** A claim of the fleet is for an entry with a path-safe id. */
  lemma ClaimsAreSafe(fleet: seq<Environment>, claim: Claim)
    requires (forall env | env in fleet :: EnvironmentWellFormed(env)) && claim in FleetClaims(fleet)
    ensures IsPathSafe(claim.id)
  {
    hide EnvironmentWellFormed, EnvironmentClaims, NoClash, IsPathSafe;
    ClaimsOfEntries(FleetLists(fleet), claim);
    var i :| 0 <= i < |fleet| && claim in FleetLists(fleet)[i];
    assert fleet[i] in fleet;
    EnvironmentClaimsAreSafe(fleet[i], claim);
  }

  lemma CredentialThenEnvironment(a: Credential, b: Credential, left: string, right: string)
    requires Flatten(a.Name()) + "_" + left == Flatten(b.Name()) + "_" + right
    ensures a == b && left == right
  {
    CredentialsDiffer(a, b);
    var text := Flatten(a.Name()) + "_" + left;
    assert text[0] == Flatten(a.Name())[0] && text[0] == Flatten(b.Name())[0];
    var k := |Flatten(a.Name()) + "_"|;
    assert text[k..] == left && text[k..] == right;
  }

  lemma SameTail(a: string, b: string, tail: string)
    requires a + tail == b + tail
    ensures a == b
  {
    assert |a| == |b|;
    assert (a + tail)[..|a|] == a && (b + tail)[..|b|] == b;
  }

  lemma SamePrefix(prefix: string, a: string, b: string)
    requires prefix + a == prefix + b
    ensures a == b
  {
    assert (prefix + a)[|prefix|..] == a && (prefix + b)[|prefix|..] == b;
  }

  /** The credential is spelled in the variable. */
  lemma VariableSpellsTheRest(a: Claim, b: Claim)
    requires a.id == b.id
    ensures a.Variable() == b.Variable()
       <==> a.credential == b.credential && Flatten(a.environment) == Flatten(b.environment)
  {
    hide Flatten;
    var tail := "_" + Flatten(a.id);
    var left := Flatten(a.credential.Name()) + "_" + Flatten(a.environment);
    var right := Flatten(b.credential.Name()) + "_" + Flatten(b.environment);
    assert a.Variable() == "KAAS_UI_" + (left + tail);
    assert b.Variable() == "KAAS_UI_" + (right + tail);
    if a.Variable() == b.Variable() {
      SamePrefix("KAAS_UI_", left + tail, right + tail);
      SameTail(left, right, tail);
      CredentialThenEnvironment(a.credential, b.credential, Flatten(a.environment), Flatten(b.environment));
    }
  }

  lemma CredentialsDiffer(a: Credential, b: Credential)
    ensures Flatten(a.Name()) != [] && Flatten(b.Name()) != []
    ensures Flatten(a.Name())[0] == Flatten(b.Name())[0] ==> a == b
  {
    assert Flatten(Password.Name())[0] == 'P';
    assert Flatten(BearerToken.Name())[0] == 'B';
    assert Flatten(ClientSecret.Name())[0] == 'C';
  }

  /**
    In a fleet that starts, exactly when two claims share a variable: one credential of one kind and id, in
    environments whose ids flatten to the same text. Across kinds, ids and credentials nothing is shared.
  */
  lemma SharedVariableIff(fleet: seq<Environment>, a: Claim, b: Claim)
    requires WellFormed(fleet) && a in FleetClaims(fleet) && b in FleetClaims(fleet)
    ensures a.Variable() == b.Variable()
       <==> && a.credential == b.credential && a.kind == b.kind && a.id == b.id
            && Flatten(a.environment) == Flatten(b.environment)
  {
    ClaimsAreSafe(fleet, a);
    ClaimsAreSafe(fleet, b);
    if a.Variable() == b.Variable() {
      OwnerInjective(a, b);
      VariableSpellsTheRest(a, b);
    } else if a.id == b.id {
      VariableSpellsTheRest(a, b);
    }
  }

  /** No two environments that flatten to the same text. */
  predicate FlattensApart(fleet: seq<Environment>) {
    forall i, j | 0 <= i < j < |fleet| :: Flatten(fleet[i].id) != Flatten(fleet[j].id)
  }

  /** Where no two environment ids flatten alike, every credential variable belongs to one entry alone. */
  lemma VariablesAreUnshared(fleet: seq<Environment>, a: Claim, b: Claim)
    requires WellFormed(fleet) && a in FleetClaims(fleet) && b in FleetClaims(fleet)
    requires FlattensApart(fleet) && a.Variable() == b.Variable()
    ensures a == b
  {
    hide EnvironmentClaims, WellFormed, SecretVar;
    SharedVariableIff(fleet, a, b);
    ClaimsOfEntries(FleetLists(fleet), a);
    ClaimsOfEntries(FleetLists(fleet), b);
    var i :| 0 <= i < |fleet| && a in FleetLists(fleet)[i];
    var j :| 0 <= j < |fleet| && b in FleetLists(fleet)[j];
    ClaimsNameTheirEnvironment(fleet[i], a);
    ClaimsNameTheirEnvironment(fleet[j], b);
  }

  /** Which credential an entry may take from the environment: what each block of the configuration claims. */
  predicate Entitled(env: Environment, claim: Claim) {
    && claim.environment == env.id
    && match claim.kind
       case SchemaRegistry =>
         exists registry | registry in env.registries ::
           && registry.id == claim.id
           && (claim.credential == ClientSecret ==> registry.readsClientSecret)
       case KafkaCluster =>
         exists cluster | cluster in env.clusters ::
           && cluster.id == claim.id
           && ((claim.credential == Password && cluster.sasl == PasswordMechanism)
               || (claim.credential == ClientSecret && cluster.sasl == OauthBearer))
       case ConnectKind =>
         claim.credential != ClientSecret && exists connect | connect in env.connects :: connect.id == claim.id
  }

  /** The claims of a fleet are those of its entries: all of them, and no others. */
  lemma ClaimedIff(fleet: seq<Environment>, claim: Claim)
    ensures claim in FleetClaims(fleet) <==> exists env | env in fleet :: Entitled(env, claim)
  {
    hide EnvironmentClaims, Entitled;
    ClaimsOfEntries(FleetLists(fleet), claim);
    forall env: Environment ensures claim in EnvironmentClaims(env) <==> Entitled(env, claim) {
      ClaimedInEnvironment(env, claim);
    }
    if i :| 0 <= i < |fleet| && claim in FleetLists(fleet)[i] {
      assert fleet[i] in fleet;
    }
    if env :| env in fleet && Entitled(env, claim) {
      var i :| 0 <= i < |fleet| && fleet[i] == env;
      assert claim in FleetLists(fleet)[i];
    }
  }

  lemma ClaimedInEnvironment(env: Environment, claim: Claim)
    ensures claim in EnvironmentClaims(env) <==> Entitled(env, claim)
  {
    ClaimedByRegistry(env, claim);
    ClaimedByCluster(env, claim);
    ClaimedByConnect(env, claim);
  }

  lemma ClaimedByRegistry(env: Environment, claim: Claim)
    ensures claim in Concat(RegistryLists(env)) <==> claim.kind == SchemaRegistry && Entitled(env, claim)
  {
    ClaimsOfEntries(RegistryLists(env), claim);
    forall i | 0 <= i < |env.registries|
      ensures claim in RegistryLists(env)[i]
         <==> && claim.kind == SchemaRegistry && claim.environment == env.id && env.registries[i].id == claim.id
              && (claim.credential == ClientSecret ==> env.registries[i].readsClientSecret)
    {
      assert RegistryLists(env)[i] == RegistryClaims(env.id, env.registries[i]);
    }
    if claim in Concat(RegistryLists(env)) {
      var i :| 0 <= i < |env.registries| && claim in RegistryLists(env)[i];
      assert env.registries[i] in env.registries;
    }
  }

  lemma ClaimedByCluster(env: Environment, claim: Claim)
    ensures claim in Concat(ClusterLists(env)) <==> claim.kind == KafkaCluster && Entitled(env, claim)
  {
    ClaimsOfEntries(ClusterLists(env), claim);
    forall i | 0 <= i < |env.clusters|
      ensures claim in ClusterLists(env)[i]
         <==> && claim.kind == KafkaCluster && claim.environment == env.id && env.clusters[i].id == claim.id
              && ((claim.credential == Password && env.clusters[i].sasl == PasswordMechanism)
                  || (claim.credential == ClientSecret && env.clusters[i].sasl == OauthBearer))
    {
      assert ClusterLists(env)[i] == ClusterClaims(env.id, env.clusters[i]);
    }
    if claim in Concat(ClusterLists(env)) {
      var i :| 0 <= i < |env.clusters| && claim in ClusterLists(env)[i];
      assert env.clusters[i] in env.clusters;
    }
  }

  lemma ClaimedByConnect(env: Environment, claim: Claim)
    ensures claim in Concat(ConnectLists(env)) <==> claim.kind == ConnectKind && Entitled(env, claim)
  {
    ClaimsOfEntries(ConnectLists(env), claim);
    forall i | 0 <= i < |env.connects|
      ensures claim in ConnectLists(env)[i]
         <==> && claim.kind == ConnectKind && claim.environment == env.id && env.connects[i].id == claim.id
              && claim.credential != ClientSecret
    {
      assert ConnectLists(env)[i] == ConnectClaims(env.id, env.connects[i]);
    }
    if claim in Concat(ConnectLists(env)) {
      var i :| 0 <= i < |env.connects| && claim in ConnectLists(env)[i];
      assert env.connects[i] in env.connects;
    }
  }

  lemma ClaimsNameTheirEnvironment(env: Environment, claim: Claim)
    requires claim in EnvironmentClaims(env)
    ensures claim.environment == env.id
  {
    ClaimsOfEntries(RegistryLists(env), claim);
    ClaimsOfEntries(ClusterLists(env), claim);
    ClaimsOfEntries(ConnectLists(env), claim);
  }

  /** Two teams' clusters of one name, in environments that differ in punctuation alone. */
  const TWO_ENVIRONMENTS: seq<Environment> := [
    Environment("a-b", [], [Cluster("kafka", PasswordMechanism, None)], [], []),
    Environment("a_b", [], [Cluster("kafka", PasswordMechanism, None)], [], [])
  ]

  lemma TwinClaims()
    ensures FleetClaims(TWO_ENVIRONMENTS)
         == [Claim(Password, "a-b", KafkaCluster, "kafka"), Claim(Password, "a_b", KafkaCluster, "kafka")]
  {
    var lists := FleetLists(TWO_ENVIRONMENTS);
    var first, second := TWO_ENVIRONMENTS[0], TWO_ENVIRONMENTS[1];
    assert ClusterLists(first) == [[Claim(Password, "a-b", KafkaCluster, "kafka")]];
    assert ClusterLists(second) == [[Claim(Password, "a_b", KafkaCluster, "kafka")]];
    assert Concat(ClusterLists(first)) == [Claim(Password, "a-b", KafkaCluster, "kafka")] by {
      assert ClusterLists(first)[..0] == [];
    }
    assert Concat(ClusterLists(second)) == [Claim(Password, "a_b", KafkaCluster, "kafka")] by {
      assert ClusterLists(second)[..0] == [];
    }
    assert EnvironmentClaims(first) == [Claim(Password, "a-b", KafkaCluster, "kafka")];
    assert EnvironmentClaims(second) == [Claim(Password, "a_b", KafkaCluster, "kafka")];
    assert lists[..1] == [EnvironmentClaims(first)] && lists[..1][..0] == [];
  }

  lemma TwinClaimsShare(a: Claim, b: Claim)
    requires a == Claim(Password, "a-b", KafkaCluster, "kafka") && b == Claim(Password, "a_b", KafkaCluster, "kafka")
    ensures a != b && a.Variable() == b.Variable() && a.Owner() == b.Owner()
  {
    assert a.environment[1] == '-' && b.environment[1] == '_';
    assert Flatten("a-b") == Flatten("a_b");
    VariableSpellsTheRest(a, b);
  }

  lemma TwinIds()
    ensures GoodIds(EnvironmentIds(TWO_ENVIRONMENTS))
  {
    assert EnvironmentIds(TWO_ENVIRONMENTS) == ["a-b", "a_b"];
    assert "a-b"[1] != "a_b"[1];
  }

  lemma TwinClaimsAgree()
    ensures NoClash(FleetClaims(TWO_ENVIRONMENTS))
  {
    hide Flatten, FleetClaims;
    var a, b := Claim(Password, "a-b", KafkaCluster, "kafka"), Claim(Password, "a_b", KafkaCluster, "kafka");
    TwinClaimsShare(a, b);
    TwinClaims();
    assert forall c | c in FleetClaims(TWO_ENVIRONMENTS) :: c == a || c == b;
  }

  lemma TwinFleetIsWellFormed()
    ensures WellFormed(TWO_ENVIRONMENTS)
  {
    hide EnvironmentWellFormed, GoodIds, NoClash, FleetClaims, EnvironmentIds;
    TwinClaimsAgree();
    TwinsAreWellFormed(TWO_ENVIRONMENTS[0]);
    TwinsAreWellFormed(TWO_ENVIRONMENTS[1]);
    TwinIds();
    assert TWO_ENVIRONMENTS[0].clusters != [];
  }

  /** Such a fleet starts, and both clusters log in with the one password variable. */
  lemma TwinEnvironmentsShareASecret()
    ensures WellFormed(TWO_ENVIRONMENTS)
    ensures exists a, b | a in FleetClaims(TWO_ENVIRONMENTS) && b in FleetClaims(TWO_ENVIRONMENTS) ::
              a != b && a.Variable() == b.Variable()
  {
    hide WellFormed, FleetClaims;
    TwinFleetIsWellFormed();
    TwinClaims();
    var a, b := FleetClaims(TWO_ENVIRONMENTS)[0], FleetClaims(TWO_ENVIRONMENTS)[1];
    TwinClaimsShare(a, b);
    assert a in FleetClaims(TWO_ENVIRONMENTS) && b in FleetClaims(TWO_ENVIRONMENTS);
  }

  lemma TwinsAreWellFormed(env: Environment)
    requires env.registries == [] && env.resources == [] && env.connects == []
    requires env.clusters == [Cluster("kafka", PasswordMechanism, None)]
    ensures EnvironmentWellFormed(env)
  {
    assert ClusterIds(env.clusters) == ["kafka"];
  }

  // ----- what a fleet that starts is like -----

  /** An id that addresses something: not empty, and its own path segment without a dot or a tilde. */
  predicate Addressable(id: string) {
    id != "" && Segmented(id) == id && '.' !in id && '~' !in id
  }

  lemma GoodIdsMean(ids: seq<string>)
    ensures GoodIds(ids)
       <==> && (forall i | 0 <= i < |ids| :: Addressable(ids[i]))
            && forall i, j | 0 <= i < j < |ids| :: ids[i] != ids[j]
  {
    hide Addressable, IsPathSafe;
    forall i | 0 <= i < |ids| ensures (ids[i] != "" && IsPathSafe(ids[i])) <==> Addressable(ids[i]) {
      AddressableIff(ids[i]);
    }
    if GoodIds(ids) {
      forall i | 0 <= i < |ids| ensures Addressable(ids[i]) {
        assert ids[i] in ids;
      }
    }
    if forall i | 0 <= i < |ids| :: Addressable(ids[i]) {
      forall id | id in ids ensures id != "" && IsPathSafe(id) {
        var i :| 0 <= i < |ids| && ids[i] == id;
      }
    }
  }

  lemma AddressableIff(id: string)
    ensures (id != "" && IsPathSafe(id)) <==> Addressable(id)
  {
    PathSafeIff(id);
  }

  /**
    An environment that starts, entry by entry: each registry, cluster and Connect cluster can be addressed and is
    the only one of its kind under its id, every reference names an entry of this environment, and no Connect
    cluster is also in the inventory.
  */
  lemma EnvironmentMeans(env: Environment)
    ensures EnvironmentWellFormed(env)
       <==> && (forall i | 0 <= i < |env.registries| :: Addressable(env.registries[i].id))
            && (forall i, j | 0 <= i < j < |env.registries| :: env.registries[i].id != env.registries[j].id)
            && (forall i | 0 <= i < |env.clusters| :: Addressable(env.clusters[i].id))
            && (forall i, j | 0 <= i < j < |env.clusters| :: env.clusters[i].id != env.clusters[j].id)
            && (forall cluster | cluster in env.clusters && cluster.schemaRegistry.Some? ::
                  exists registry | registry in env.registries :: registry.id == cluster.schemaRegistry.value)
            && (forall i | 0 <= i < |env.resources| :: env.resources[i] != "")
            && (forall i, j | 0 <= i < j < |env.resources| :: env.resources[i] != env.resources[j])
            && (forall i | 0 <= i < |env.connects| :: Addressable(env.connects[i].id))
            && (forall i, j | 0 <= i < j < |env.connects| :: env.connects[i].id != env.connects[j].id)
            && (forall connect | connect in env.connects :: connect.id !in env.resources)
            && (forall connect | connect in env.connects && connect.kafkaCluster.Some? ::
                  exists cluster | cluster in env.clusters :: cluster.id == connect.kafkaCluster.value)
  {
    hide GoodIds, Addressable;
    GoodIdsMean(RegistryIds(env.registries));
    GoodIdsMean(ClusterIds(env.clusters));
    GoodIdsMean(ConnectIds(env.connects));
    RegistryIdsHold(env.registries);
    ClusterIdsHold(env.clusters);
    ConnectIdsHold(env.connects);
    hide RegistryIds, ClusterIds, ConnectIds;
  }

  lemma RegistryIdsHold(registries: seq<Registry>)
    ensures |RegistryIds(registries)| == |registries|
    ensures forall i | 0 <= i < |registries| :: RegistryIds(registries)[i] == registries[i].id
    ensures forall id :: id in RegistryIds(registries) <==> exists registry | registry in registries :: registry.id == id
  {
    forall registry | registry in registries ensures registry.id in RegistryIds(registries) {
      var i :| 0 <= i < |registries| && registries[i] == registry;
      assert RegistryIds(registries)[i] == registry.id;
    }
  }

  lemma ClusterIdsHold(clusters: seq<Cluster>)
    ensures |ClusterIds(clusters)| == |clusters|
    ensures forall i | 0 <= i < |clusters| :: ClusterIds(clusters)[i] == clusters[i].id
    ensures forall id :: id in ClusterIds(clusters) <==> exists cluster | cluster in clusters :: cluster.id == id
  {
    forall cluster | cluster in clusters ensures cluster.id in ClusterIds(clusters) {
      var i :| 0 <= i < |clusters| && clusters[i] == cluster;
      assert ClusterIds(clusters)[i] == cluster.id;
    }
  }

  lemma ConnectIdsHold(connects: seq<ConnectCluster>)
    ensures |ConnectIds(connects)| == |connects|
    ensures forall i | 0 <= i < |connects| :: ConnectIds(connects)[i] == connects[i].id
    ensures forall id :: id in ConnectIds(connects) <==> exists connect | connect in connects :: connect.id == id
  {
    forall connect | connect in connects ensures connect.id in ConnectIds(connects) {
      var i :| 0 <= i < |connects| && connects[i] == connect;
      assert ConnectIds(connects)[i] == connect.id;
    }
  }

  /** A fleet that starts: environments that can be told apart, each as above, a cluster somewhere, and no clash. */
  lemma WellFormedMeans(fleet: seq<Environment>)
    ensures WellFormed(fleet)
       <==> && (forall i | 0 <= i < |fleet| :: Addressable(fleet[i].id) && EnvironmentWellFormed(fleet[i]))
            && (forall i, j | 0 <= i < j < |fleet| :: fleet[i].id != fleet[j].id)
            && (exists i | 0 <= i < |fleet| :: fleet[i].clusters != [])
            && (forall a, b | a in FleetClaims(fleet) && b in FleetClaims(fleet) && a.Variable() == b.Variable() ::
                  a.kind == b.kind && a.id == b.id)
  {
    hide GoodIds, Addressable, EnvironmentWellFormed, Claim.Variable, Claim.Owner, FleetClaims;
    GoodIdsMean(EnvironmentIds(fleet));
    assert |EnvironmentIds(fleet)| == |fleet|;
    assert forall i | 0 <= i < |fleet| :: EnvironmentIds(fleet)[i] == fleet[i].id;
    hide EnvironmentIds;
    if forall i | 0 <= i < |fleet| :: EnvironmentWellFormed(fleet[i]) {
      forall a, b | a in FleetClaims(fleet) && b in FleetClaims(fleet)
        ensures a.Owner() == b.Owner() <==> a.kind == b.kind && a.id == b.id
      {
        ClaimsAreSafe(fleet, a);
        ClaimsAreSafe(fleet, b);
        OwnerInjective(a, b);
      }
    }
  }

  // ----- the environment overlay -----

  /** `is_ours`, on a key already stripped of the `KAAS_UI_` prefix. */
  predicate IsOurs(key: string) {
    var lower := LowerAll(key);
    exists root | root in ["server", "environments"] ::
      lower == root || root + "." <= lower || root + "__" <= lower
  }

  /** What is read as configuration: the two roots of the file, and what is nested under them in either spelling. */
  lemma IsOursMeans(key: string)
    ensures var lower := LowerAll(key);
            IsOurs(key) <==> || lower == "server" || "server." <= lower || "server__" <= lower
                             || lower == "environments" || "environments." <= lower || "environments__" <= lower
  {
    var roots := ["server", "environments"];
    assert roots[0] == "server" && roots[1] == "environments";
    assert forall root | root in roots :: root == "server" || root == "environments";
    assert "server" + "." == "server." && "server" + "__" == "server__";
    assert "environments" + "." == "environments." && "environments" + "__" == "environments__";
  }

  lemma FlattenMeans(id: string, i: nat)
    requires i < |id|
    ensures |Flatten(id)| == |id|
    ensures Flatten(id)[i] == if 'a' <= id[i] <= 'z' then (id[i] as int - 32) as char
                              else if 'A' <= id[i] <= 'Z' || '0' <= id[i] <= '9' then id[i]
                              else '_'
  {
  }

  lemma CredentialNames()
    ensures "KAAS_UI_" + Flatten(Password.Name()) + "_" == "KAAS_UI_PASSWORD_"
    ensures "KAAS_UI_" + Flatten(BearerToken.Name()) + "_" == "KAAS_UI_BEARER_TOKEN_"
    ensures "KAAS_UI_" + Flatten(ClientSecret.Name()) + "_" == "KAAS_UI_CLIENT_SECRET_"
  {
  }

  /** The variable a credential is looked for under. */
  lemma VariableMeans(claim: Claim)
    ensures claim.Variable() == (match claim.credential
                                 case Password => "KAAS_UI_PASSWORD_"
                                 case BearerToken => "KAAS_UI_BEARER_TOKEN_"
                                 case ClientSecret => "KAAS_UI_CLIENT_SECRET_")
                                + Flatten(claim.environment) + "_" + Flatten(claim.id)
  {
    hide Flatten;
    CredentialNames();
  }

  /** No credential variable is read as configuration, whatever the ids. */
  lemma CredentialsAreNotOverrides(claim: Claim, key: string)
    requires claim.Variable() == "KAAS_UI_" + key
    ensures !IsOurs(key)
  {
    var name := Flatten(claim.credential.Name());
    CredentialsDiffer(claim.credential, Password);
    assert claim.Variable()[8..] == key;
    assert key[0] == name[0];
    assert name[0] == 'P' || name[0] == 'B' || name[0] == 'C' by {
      match claim.credential {
        case Password => assert Flatten(Password.Name())[0] == 'P';
        case BearerToken => assert Flatten(BearerToken.Name())[0] == 'B';
        case ClientSecret => assert Flatten(ClientSecret.Name())[0] == 'C';
      }
    }
    assert LowerAll(key)[0] == ToLower(key[0]);
    assert forall root | root in ["server", "environments"] :: root[0] == 's' || root[0] == 'e';
  }
}
