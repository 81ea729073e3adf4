/** What a caller may see and do: crates/kaas-ui-auth/src/policy.rs and identity.rs. */
module AccessPolicy {
  import opened Text
  import opened GlobMatching

  datatype Resource = ClusterConfig | Topic | Consumer | Connector | Connect {

    predicate IsNamed() { this != ClusterConfig }

    function Actions(): set<Action> {
      match this
      case Topic => {View, MessagesRead}
      case ClusterConfig => {View}
      case Consumer => {View}
      case Connector => {Operate, Edit, Delete, ResetOffsets}
      case Connect => {View, Create}
    }
  }

  /** `Resource::every`. */
  const EVERY_RESOURCE: seq<Resource> := [ClusterConfig, Topic, Consumer, Connector, Connect]

  datatype Action = View | MessagesRead | Operate | Edit | Create | Delete | ResetOffsets | All {

    function Expand(resource: Resource): set<Action> {
      if this == All then resource.Actions() else {this}
    }
  }

  type Labels = map<string, string>

  datatype Principal = Principal(subject: string, name: Option<string>, aliases: set<string>,
                                 groups: set<string>, authenticated: bool)
  {
    predicate Identified(id: string) {
      id == subject || id in aliases || id in groups
    }
  }

  const ANONYMOUS := Principal("anonymous", None, {}, {}, false)

  datatype Permission = Permission(resource: Resource, value: Option<string>, actions: seq<Action>) {

    predicate Covers(resource: Resource, action: Action, name: Option<string>) {
      && this.resource == resource
      && (exists held | held in actions :: action in held.Expand(resource))
      && (value.Some? && name.Some? && resource.IsNamed() ==> Glob(value.value, name.value))
    }
  }

  datatype Role = Role(name: string, subjects: seq<string>, clusters: seq<string>,
                       clusterLabels: Labels, permissions: seq<Permission>)
  {
    /** A subject of the role is this caller's, or is `*` and the caller signed in. */
    predicate AppliesTo(who: Principal) {
      exists subject | subject in subjects ::
        if subject == "*" then who.authenticated else who.Identified(subject)
    }

    predicate Selects(cluster: string, labels: Labels) {
      && (clusters == [] || exists pattern | pattern in clusters :: Glob(pattern, cluster))
      && forall key | key in clusterLabels :: key in labels && labels[key] == clusterLabels[key]
    }

    predicate Permits(cluster: string, labels: Labels, resource: Resource, action: Action, name: Option<string>) {
      && Selects(cluster, labels)
      && exists permission | permission in permissions :: permission.Covers(resource, action, name)
    }
  }

  datatype Access = Access(roles: seq<Role>, administrator: bool) {

    predicate Sees(cluster: string, labels: Labels) {
      administrator || exists role | role in roles :: role.Selects(cluster, labels) && role.permissions != []
    }

    predicate RolePermits(cluster: string, labels: Labels, resource: Resource, action: Action, name: Option<string>) {
      exists role | role in roles :: role.Permits(cluster, labels, resource, action, name)
    }

    predicate May(cluster: string, labels: Labels, resource: Resource, action: Action, name: Option<string>) {
      administrator || RolePermits(cluster, labels, resource, action, name)
    }

    function RoleNames(): seq<string> {
      seq(|roles|, i requires 0 <= i < |roles| => roles[i].name)
    }
  }

  function Filter<T(!new)>(items: seq<T>, keep: T -> bool): (kept: seq<T>)
    ensures forall x :: x in kept <==> x in items && keep(x)
  {
    if items == [] then []
    else if keep(items[0]) then [items[0]] + Filter(items[1..], keep)
    else Filter(items[1..], keep)
  }

  /** The `roles:` list, and whether it is enforced at all. */
  datatype Policy = Policy(roles: seq<Role>, enforcing: bool) {

    function AccessOf(who: Principal): Access {
      if !enforcing then Access([], true)
      else Access(Filter(roles, (role: Role) => role.AppliesTo(who)), false)
    }

    /** Rebuild an access from the role names a session carries. */
    function AccessForRoles(names: seq<string>): Access {
      if !enforcing then Access([], true)
      else Access(Filter(roles, (role: Role) => role.name in names), false)
    }
  }

  /** `Access::admin` and `Access::none`. */
  const ADMIN := Access([], true)
  const NOBODY := Access([], false)

  /** The accesses there are where this is the policy: no other code fills in their private fields. */
  ghost predicate Gave(policy: Policy, access: Access) {
    || access == ADMIN
    || access == NOBODY
    || (exists who :: access == policy.AccessOf(who))
    || exists names :: access == policy.AccessForRoles(names)
  }

  /** No role from anywhere else, and none at all where none is enforced. */
  lemma AccessComesFromThePolicy(policy: Policy, access: Access)
    requires Gave(policy, access)
    ensures forall role | role in access.roles :: role in policy.roles
    ensures !policy.enforcing ==> access.roles == []
  {
  }

  // ----- what a role gives -----

  /** What may be asked for at all, resource by resource. */
  const MEANINGFUL: set<(Resource, Action)> := {
    (ClusterConfig, View), (Topic, View), (Topic, MessagesRead), (Consumer, View),
    (Connector, Operate), (Connector, Edit), (Connector, Delete), (Connector, ResetOffsets),
    (Connect, View), (Connect, Create)
  }

  lemma ActionsMean(resource: Resource, action: Action)
    ensures action in resource.Actions() <==> (resource, action) in MEANINGFUL
    ensures (resource, All) !in MEANINGFUL
  {
  }

  /** A permission's list of actions, `all` standing for those of its resource. */
  lemma ExpandMeans(actions: seq<Action>, resource: Resource, action: Action)
    ensures (exists held | held in actions :: action in held.Expand(resource))
       <==> (action in actions && action != All) || (All in actions && (resource, action) in MEANINGFUL)
  {
    ActionsMean(resource, action);
    if action in actions && action != All {
      assert action in action.Expand(resource);
    }
    if All in actions && (resource, action) in MEANINGFUL {
      assert action in All.Expand(resource);
    }
  }

  /** What a permission is written for: its resource, the actions it lists or `all`, and the names it matches. */
  predicate Grants(permission: Permission, resource: Resource, action: Action, name: Option<string>) {
    && permission.resource == resource
    && ((action in permission.actions && action != All)
        || (All in permission.actions && (resource, action) in MEANINGFUL))
    && (permission.value.None? || name.None? || resource == ClusterConfig || Glob(permission.value.value, name.value))
  }

  /** Where a role applies: on clusters it matches by name, if it names any, and by every label. */
  predicate Reaches(role: Role, cluster: string, labels: Labels) {
    && (role.clusters == [] || exists pattern | pattern in role.clusters :: Glob(pattern, cluster))
    && forall key | key in role.clusterLabels :: key in labels && labels[key] == role.clusterLabels[key]
  }

  lemma CoversMeans(permission: Permission, resource: Resource, action: Action, name: Option<string>)
    ensures permission.Covers(resource, action, name) <==> Grants(permission, resource, action, name)
  {
    hide Glob;
    ExpandMeans(permission.actions, resource, action);
  }

  lemma SelectsMeans(role: Role, cluster: string, labels: Labels)
    ensures role.Selects(cluster, labels) <==> Reaches(role, cluster, labels)
  {
  }

  /** What an access permits: what a permission of one of its roles that reaches the cluster is written for. */
  lemma PermittedIff(access: Access, cluster: string, labels: Labels, resource: Resource, action: Action,
                     name: Option<string>)
    ensures access.RolePermits(cluster, labels, resource, action, name)
       <==> exists role | role in access.roles ::
              && Reaches(role, cluster, labels)
              && exists permission | permission in role.permissions :: Grants(permission, resource, action, name)
    ensures access.May(cluster, labels, resource, action, name)
       <==> access.administrator || access.RolePermits(cluster, labels, resource, action, name)
  {
    hide Reaches, Grants, Role.Permits;
    forall role | role in access.roles
      ensures role.Permits(cluster, labels, resource, action, name)
         <==> && Reaches(role, cluster, labels)
              && exists permission | permission in role.permissions :: Grants(permission, resource, action, name)
    {
      PermitsMeans(role, cluster, labels, resource, action, name);
    }
  }

  lemma PermitsMeans(role: Role, cluster: string, labels: Labels, resource: Resource, action: Action,
                     name: Option<string>)
    ensures role.Permits(cluster, labels, resource, action, name)
       <==> && Reaches(role, cluster, labels)
            && exists permission | permission in role.permissions :: Grants(permission, resource, action, name)
  {
    hide Glob, Reaches, Grants, Permission.Covers, Role.Selects;
    SelectsMeans(role, cluster, labels);
    forall permission | permission in role.permissions
      ensures permission.Covers(resource, action, name) <==> Grants(permission, resource, action, name)
    {
      CoversMeans(permission, resource, action, name);
    }
  }

  /** A cluster is seen by an administrator, and by whoever has any permission at all for it. */
  lemma SeesMeans(access: Access, cluster: string, labels: Labels)
    ensures access.Sees(cluster, labels)
       <==> access.administrator
            || exists role | role in access.roles :: role.permissions != [] && Reaches(role, cluster, labels)
  {
    hide Reaches, Role.Selects;
    forall role: Role ensures role.Selects(cluster, labels) <==> Reaches(role, cluster, labels) {
      SelectsMeans(role, cluster, labels);
    }
  }

  /** A role says nothing of a resource it has no permission for, whatever it may do elsewhere. */
  lemma OtherResourcesAreClosed(access: Access, cluster: string, labels: Labels, resource: Resource, action: Action,
                                name: Option<string>)
    requires forall role, permission | role in access.roles && permission in role.permissions ::
               permission.resource != resource
    ensures !access.RolePermits(cluster, labels, resource, action, name)
  {
    PermittedIff(access, cluster, labels, resource, action, name);
  }

  /** A role scoped to names reaches no other name. */
  lemma NamedScope(access: Access, cluster: string, labels: Labels, resource: Resource, action: Action, name: string)
    requires resource != ClusterConfig
    requires forall role, permission | role in access.roles && permission in role.permissions
                                       && permission.resource == resource ::
               permission.value.Some? && '*' !in permission.value.value && permission.value.value != name
    ensures !access.RolePermits(cluster, labels, resource, action, Some(name))
  {
    hide Glob, Reaches;
    PermittedIff(access, cluster, labels, resource, action, Some(name));
    forall role, permission | role in access.roles && permission in role.permissions
      ensures !Grants(permission, resource, action, Some(name))
    {
      if permission.resource == resource {
        LiteralPatternIsExact(permission.value.value, name);
      }
    }
  }

  /** Where there are no names a scope is void. */
  lemma UnnamedScope(access: Access, cluster: string, labels: Labels, action: Action, name: string)
    ensures access.RolePermits(cluster, labels, ClusterConfig, action, Some(name))
       <==> access.RolePermits(cluster, labels, ClusterConfig, action, None)
  {
    hide Reaches;
    PermittedIff(access, cluster, labels, ClusterConfig, action, Some(name));
    PermittedIff(access, cluster, labels, ClusterConfig, action, None);
  }

  /** Nothing is permitted, and nothing seen, on a cluster each role misses by a label or by every name. */
  lemma OutsideEverySelection(access: Access, cluster: string, labels: Labels, resource: Resource, action: Action,
                              name: Option<string>)
    requires forall role | role in access.roles ::
               || (role.clusters != [] && forall pattern | pattern in role.clusters :: !Glob(pattern, cluster))
               || exists key | key in role.clusterLabels ::
                    key !in labels || labels[key] != role.clusterLabels[key]
    ensures !access.RolePermits(cluster, labels, resource, action, name)
    ensures access.Sees(cluster, labels) ==> access.administrator
  {
    hide Glob;
    PermittedIff(access, cluster, labels, resource, action, name);
    SeesMeans(access, cluster, labels);
  }

  /** `Role::admin`: every action of every resource, on every cluster. */
  function AdminRole(name: string, subjects: seq<string>): Role {
    Role(name, subjects, ["*"], map[],
         seq(|EVERY_RESOURCE|, i requires 0 <= i < |EVERY_RESOURCE| => Permission(EVERY_RESOURCE[i], None, [All])))
  }

  lemma StarMatchesAll(value: string)
    ensures Glob("*", value)
  {
    assert "*" == "" + "*" + "";
    AnchoredAtBothEnds("", "", value);
  }

  /** It permits whatever means something, and no more. */
  lemma AdminRolePermits(role: string, subjects: seq<string>, cluster: string, labels: Labels, resource: Resource,
                         action: Action, name: Option<string>)
    ensures Access([AdminRole(role, subjects)], false).May(cluster, labels, resource, action, name)
       <==> (resource, action) in MEANINGFUL
  {
    var admin := AdminRole(role, subjects);
    AdminReaches(role, subjects, cluster, labels);
    AdminGrants(role, subjects, resource, action, name);
    hide Reaches, Grants, AdminRole;
    PermittedIff(Access([admin], false), cluster, labels, resource, action, name);
    assert [admin][0] == admin;
  }

  lemma AdminReaches(role: string, subjects: seq<string>, cluster: string, labels: Labels)
    ensures Reaches(AdminRole(role, subjects), cluster, labels)
  {
    hide Glob;
    StarMatchesAll(cluster);
    assert AdminRole(role, subjects).clusters[0] == "*";
  }

  lemma AdminGrants(role: string, subjects: seq<string>, resource: Resource, action: Action, name: Option<string>)
    ensures (exists permission | permission in AdminRole(role, subjects).permissions ::
               Grants(permission, resource, action, name))
       <==> (resource, action) in MEANINGFUL
  {
    var permissions := AdminRole(role, subjects).permissions;
    assert forall permission | permission in permissions :: permission.actions == [All] && permission.value == None;
    EveryResourceListed(resource);
    var i :| 0 <= i < |EVERY_RESOURCE| && EVERY_RESOURCE[i] == resource;
    var permission := permissions[i];
    assert permission == Permission(resource, None, [All]) && [All][0] == All;
    ActionsMean(resource, action);
    assert permission in permissions && (Grants(permission, resource, action, name) <==> (resource, action) in MEANINGFUL);
  }

  /** Which roles are a caller's: those with a subject for one of its names, or `*` for one who signed in. */
  lemma AccessMeans(policy: Policy, who: Principal, names: seq<string>, role: Role)
    requires policy.enforcing
    ensures role in policy.AccessOf(who).roles
       <==> && role in policy.roles
            && (("*" in role.subjects && who.authenticated)
                || exists subject | subject in role.subjects && subject != "*" ::
                     subject == who.subject || subject in who.aliases || subject in who.groups)
    ensures role in policy.AccessForRoles(names).roles <==> role in policy.roles && role.name in names
    ensures !policy.AccessOf(who).administrator && !policy.AccessForRoles(names).administrator
  {
  }

  // ----- the unnamed question -----

  /** The name a permission is sure to cover: its own pattern. */
  lemma CoversItsOwnPattern(permission: Permission, resource: Resource, action: Action)
    requires permission.Covers(resource, action, None)
    ensures permission.Covers(resource, action, Some(permission.value.GetOr("")))
  {
    PatternMatchesItself(permission.value.GetOr(""));
  }

  lemma UnnamedNeedsAName(access: Access, cluster: string, labels: Labels, resource: Resource, action: Action)
    returns (name: string)
    requires access.May(cluster, labels, resource, action, None)
    ensures access.May(cluster, labels, resource, action, Some(name))
  {
    name := "";
    if !access.administrator {
      var role :| role in access.roles && role.Permits(cluster, labels, resource, action, None);
      var permission :| permission in role.permissions && permission.Covers(resource, action, None);
      CoversItsOwnPattern(permission, resource, action);
      name := permission.value.GetOr("");
      assert role.Permits(cluster, labels, resource, action, Some(name));
    }
  }

  lemma NamedImpliesUnnamed(access: Access, cluster: string, labels: Labels, resource: Resource, action: Action,
                            name: string)
    requires access.May(cluster, labels, resource, action, Some(name))
    ensures access.May(cluster, labels, resource, action, None)
  {
    if !access.administrator {
      var role :| role in access.roles && role.Permits(cluster, labels, resource, action, Some(name));
      var permission :| permission in role.permissions && permission.Covers(resource, action, Some(name));
      assert permission.Covers(resource, action, None);
      assert role.Permits(cluster, labels, resource, action, None);
    }
  }

  /** Asking without a name asks whether some name is permitted. */
  lemma UnnamedIsExistential(access: Access, cluster: string, labels: Labels, resource: Resource, action: Action)
    ensures access.May(cluster, labels, resource, action, None)
       <==> exists name :: access.May(cluster, labels, resource, action, Some(name))
  {
    if access.May(cluster, labels, resource, action, None) {
      var name := UnnamedNeedsAName(access, cluster, labels, resource, action);
    }
    if name :| access.May(cluster, labels, resource, action, Some(name)) {
      NamedImpliesUnnamed(access, cluster, labels, resource, action, name);
    }
  }

  /** No answer is given about a cluster the caller cannot see. */
  lemma MayImpliesSees(access: Access, cluster: string, labels: Labels, resource: Resource, action: Action,
                       name: Option<string>)
    requires access.May(cluster, labels, resource, action, name)
    ensures access.Sees(cluster, labels)
  {
    if !access.administrator {
      var role :| role in access.roles && role.Permits(cluster, labels, resource, action, name);
      assert role.permissions != [];
    }
  }

  /** What `permissions` reports on: `messages_read` only where there are messages. */
  predicate Reported(resource: Resource, action: Action) {
    action == View || (action == MessagesRead && resource == Topic)
  }

  lemma EveryResourceListed(resource: Resource)
    ensures resource in EVERY_RESOURCE
  {
    var i := match resource
      case ClusterConfig => 0
      case Topic => 1
      case Consumer => 2
      case Connector => 3
      case Connect => 4;
    assert EVERY_RESOURCE[i] == resource;
  }

  /** The pairs a projection lists. */
  ghost function Listed(held: map<Resource, set<Action>>): iset<(Resource, Action)> {
    iset r, a | r in held && a in held[r] :: (r, a)
  }

  /** `held.entry(resource).or_default().insert(action)`. */
  function Insert(held: map<Resource, set<Action>>, resource: Resource, action: Action)
    : (more: map<Resource, set<Action>>)
    requires forall r | r in held :: held[r] != {}
    ensures Listed(more) == Listed(held) + iset{(resource, action)}
    ensures forall r | r in more :: more[r] != {}
  {
    var entry := if resource in held then held[resource] else {};
    held[resource := entry + {action}]
  }

  /** What the projection is meant to list: the actions some name is permitted. */
  ghost function Granted(access: Access, cluster: string, labels: Labels): (granted: iset<(Resource, Action)>)
    ensures forall r, a :: (r, a) in granted
                      <==> && (a == View || (a == MessagesRead && r == Topic))
                           && exists name :: access.May(cluster, labels, r, a, Some(name))
  {
    iset r, a | Reported(r, a) && exists name :: access.May(cluster, labels, r, a, Some(name)) :: (r, a)
  }

  method Ask(access: Access, cluster: string, labels: Labels, resource: Resource, action: Action)
    returns (may: bool)
    requires Reported(resource, action)
    ensures may <==> (resource, action) in Granted(access, cluster, labels)
  {
    UnnamedIsExistential(access, cluster, labels, resource, action);
    may := access.May(cluster, labels, resource, action, None);
  }

  /** `Access::permissions`: the projection lists an action exactly when some name is permitted it. */
  method Permissions(access: Access, cluster: string, labels: Labels) returns (held: map<Resource, set<Action>>)
    ensures Listed(held) == Granted(access, cluster, labels)
    ensures forall r | r in held :: held[r] != {}
  {
    held := map[];
    var actions := [View, MessagesRead];
    ghost var granted := Granted(access, cluster, labels);
    ghost var seen: iset<(Resource, Action)> := iset{};
    for i := 0 to |EVERY_RESOURCE|
      invariant Listed(held) == seen * granted
      invariant forall r | r in held :: held[r] != {}
      invariant forall r, a :: (r, a) in seen <==> r in EVERY_RESOURCE[..i] && a in actions
    {
      var resource := EVERY_RESOURCE[i];
      assert EVERY_RESOURCE[..i + 1] == EVERY_RESOURCE[..i] + [resource];
      ghost var before := seen;
      for j := 0 to |actions|
        invariant Listed(held) == seen * granted
        invariant forall r | r in held :: held[r] != {}
        invariant forall r, a :: (r, a) in seen <==> (r, a) in before || (r == resource && a in actions[..j])
      {
        var action := actions[j];
        assert actions[..j + 1] == actions[..j] + [action];
        seen := seen + iset{(resource, action)};
        if action == MessagesRead && resource != Topic {
          continue;
        }
        var may := Ask(access, cluster, labels, resource, action);
        if may {
          held := Insert(held, resource, action);
        }
      }
      assert actions[..|actions|] == actions;
    }
    forall r: Resource ensures r in EVERY_RESOURCE[..|EVERY_RESOURCE|] {
      EveryResourceListed(r);
    }
    assert actions[0] == View && actions[1] == MessagesRead;
  }

  // ----- rebuilding a session -----

  lemma {:induction false} FilterSubset<T(!new)>(items: seq<T>, p: T -> bool, q: T -> bool)
    requires forall x | x in items && p(x) :: q(x)
    ensures |Filter(items, p)| <= |Filter(items, q)|
    ensures Filter(items, p) == Filter(items, q) <==> forall x | x in items && q(x) :: p(x)
    ensures |Filter(items, p)| == |Filter(items, q)| ==> Filter(items, p) == Filter(items, q)
  {
    if items != [] {
      FilterSubset(items[1..], p, q);
      assert forall x :: x in items <==> x == items[0] || x in items[1..];
    }
  }

  predicate DistinctNames(roles: seq<Role>) {
    forall i, j | 0 <= i < j < |roles| :: roles[i].name != roles[j].name
  }

  /** Some role that does not apply to the caller shares its name with one that does. */
  predicate NameConfusion(roles: seq<Role>, who: Principal) {
    exists held, other | held in roles && other in roles ::
      held.name == other.name && held.AppliesTo(who) && !other.AppliesTo(who)
  }

  /**
    A session rebuilt from its role names keeps every role it had. It has exactly those, in the same
    order, if and only if no role that was not the caller's shares a name with one that was: `roles:`
    is not checked for duplicate names, so the condition is real.
  */
  lemma SessionRebuild(policy: Policy, who: Principal)
    ensures var access := policy.AccessOf(who);
            var rebuilt := policy.AccessForRoles(access.RoleNames());
            && (forall role | role in access.roles :: role in rebuilt.roles)
            && rebuilt.administrator == access.administrator
            && (rebuilt == access <==> !policy.enforcing || !NameConfusion(policy.roles, who))
  {
    if policy.enforcing {
      var access := policy.AccessOf(who);
      var names := access.RoleNames();
      RoleNamesHold(access);
      FilterSubset(policy.roles, (role: Role) => role.AppliesTo(who), (role: Role) => role.name in names);
    }
  }

  lemma RoleNamesHold(access: Access)
    ensures forall name :: name in access.RoleNames() <==> exists role | role in access.roles :: role.name == name
  {
    forall role | role in access.roles ensures role.name in access.RoleNames() {
      var i :| 0 <= i < |access.roles| && access.roles[i] == role;
      assert access.RoleNames()[i] == role.name;
    }
  }

  lemma DistinctNamesRebuildExactly(policy: Policy, who: Principal)
    requires DistinctNames(policy.roles)
    ensures policy.AccessForRoles(policy.AccessOf(who).RoleNames()) == policy.AccessOf(who)
  {
    SessionRebuild(policy, who);
  }

  const ALICE := Principal("alice", None, {}, {}, true)
  const DEV_OPS := Role("ops", ["alice"], ["dev"], map[], [Permission(Topic, None, [View])])
  const PROD_OPS := Role("ops", ["bob"], ["prod"], map[], [Permission(Topic, None, [MessagesRead])])

  lemma ProdOpsReadsProd()
    ensures PROD_OPS.Permits("prod", map[], Topic, MessagesRead, Some("payments"))
  {
    PatternMatchesItself("prod");
    var permission := PROD_OPS.permissions[0];
    assert PROD_OPS.clusters[0] == "prod" && permission.actions[0] == MessagesRead;
    assert MessagesRead in MessagesRead.Expand(Topic);
    assert PROD_OPS.permissions[0].Covers(Topic, MessagesRead, Some("payments"));
  }

  /** Two roles of one name, one of them the caller's: the rebuilt session gains the other. */
  lemma DuplicateNamesWidenASession()
    ensures var policy := Policy([DEV_OPS, PROD_OPS], true);
            var access := policy.AccessOf(ALICE);
            && !access.May("prod", map[], Topic, MessagesRead, Some("payments"))
            && policy.AccessForRoles(access.RoleNames()).May("prod", map[], Topic, MessagesRead, Some("payments"))
  {
    var policy := Policy([DEV_OPS, PROD_OPS], true);
    var access := policy.AccessOf(ALICE);
    var alice := DEV_OPS.subjects[0];
    assert alice == "alice" && alice != "*" by { assert |alice| == 5; }
    assert DEV_OPS.AppliesTo(ALICE) by { assert alice in DEV_OPS.subjects && ALICE.Identified(alice); }
    assert forall subject | subject in PROD_OPS.subjects :: subject == "bob";
    assert !PROD_OPS.AppliesTo(ALICE);
    assert policy.roles[0] == DEV_OPS && policy.roles[1] == PROD_OPS;
    RoleNamesHold(access);
    ProdOpsReadsProd();
    assert PROD_OPS in policy.AccessForRoles(access.RoleNames()).roles;
    assert forall permission | permission in DEV_OPS.permissions :: permission.actions == [View];
  }

  lemma {:induction false} FilterTwice<T(!new)>(items: seq<T>, p: T -> bool, q: T -> bool, both: T -> bool)
    requires forall x | x in items :: both(x) <==> p(x) && q(x)
    ensures Filter(Filter(items, p), q) == Filter(items, both)
  {
    if items != [] {
      FilterTwice(items[1..], p, q, both);
      if p(items[0]) {
        var kept := Filter(items[1..], p);
        assert ([items[0]] + kept)[1..] == kept;
      }
    }
  }

  /** A deleted role is gone from open sessions at their next request, and nothing else is. */
  lemma DeletedRoleIsRevoked(policy: Policy, gone: string, names: seq<string>)
    requires policy.enforcing
    ensures var keep := (role: Role) => role.name != gone;
            policy.(roles := Filter(policy.roles, keep)).AccessForRoles(names)
            == Access(Filter(policy.AccessForRoles(names).roles, keep), false)
  {
    var keep := (role: Role) => role.name != gone;
    var named := (role: Role) => role.name in names;
    var both := (role: Role) => role.name != gone && role.name in names;
    FilterTwice(policy.roles, keep, named, both);
    FilterTwice(policy.roles, named, keep, both);
  }

  // ----- who a role can reach -----

  /** `*` never reaches the anonymous caller; only a role that spells `anonymous` out does. */
  lemma AnonymousNeedsToBeNamed(role: Role)
    ensures role.AppliesTo(ANONYMOUS) <==> "anonymous" in role.subjects
  {
    if "anonymous" in role.subjects {
      assert "anonymous" != "*" by { assert |"anonymous"| != |"*"|; }
    }
  }

  /** With no identity provider everyone is an administrator, and holds no role a write could use. */
  lemma OpenDeploymentHoldsNoRole(policy: Policy, who: Principal, cluster: string, labels: Labels,
                                  resource: Resource, action: Action, name: Option<string>)
    ensures policy.AccessOf(who).administrator <==> !policy.enforcing
    ensures !policy.enforcing ==>
              && policy.AccessOf(who).May(cluster, labels, resource, action, name)
              && !policy.AccessOf(who).RolePermits(cluster, labels, resource, action, name)
  {
  }
}
