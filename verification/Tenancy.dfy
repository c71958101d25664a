/** What an actor may see. List filters and point checks are separate code paths that must agree, and neither
    may depend on the order in which bindings, groups and tenants happen to be listed. */
module Tenancy {
  import opened Options
  import opened Sequences
  import opened Actors
  import Roles

  predicate TenantRoleSatisfies(granted: string, required: string) {
    || granted == required
    || (granted == TENANT_ADMIN && (required == TENANT_OPERATOR || required == SERVICE_CONSUMER))
    || (granted == TENANT_OPERATOR && required == SERVICE_CONSUMER)
  }

  predicate PlatformRoleSatisfies(granted: string, required: string) {
    granted == required || granted == PLATFORM_ADMIN || TenantRoleSatisfies(granted, required)
  }

  predicate HasAny(actor: Actor, roles: seq<string>) {
    exists role | role in roles ::
      || (exists granted | granted in actor.roles :: PlatformRoleSatisfies(granted, role))
      || (exists t | t in actor.tenantRoles :: exists granted | granted in actor.tenantRoles[t] ::
          TenantRoleSatisfies(granted, role))
  }

  predicate IsPlatformAdmin(actor: Actor) {
    HasAny(actor, [PLATFORM_ADMIN])
  }

  predicate HasTenantRole(actor: Actor, tenant: string, roles: seq<string>) {
    && tenant != "" && tenant in actor.tenantRoles
    && exists role, granted | role in roles
        && granted in actor.tenantRoles[tenant] :: TenantRoleSatisfies(granted, role)
  }

  predicate HasTenantAccess(actor: Actor, tenant: string) {
    IsPlatformAdmin(actor) || (tenant in actor.tenantRoles && actor.tenantRoles[tenant] != {})
  }

  predicate TenantVisible(actor: Actor, tenant: Tenant) {
    || IsPlatformAdmin(actor)
    || HasTenantAccess(actor, tenant.name)
    || (actor.name != "" && exists u | u in tenant.ownerUsers ::
          u == actor.name || u == actor.email || u == actor.userName || u == actor.subject)
    || exists g | g in tenant.ownerGroups :: g in actor.groups
  }

  /* ---------- Lists ---------- */

  datatype Project = Project(name: string, tenant: string)

  datatype Instance = Instance(name: string, project: string)

  datatype Action = Action(name: string, target: string)

  ghost function VisibleTenants(actor: Actor, tenants: seq<Tenant>): seq<Tenant> {
    if IsPlatformAdmin(actor) then tenants else Filter(tenants, t => TenantVisible(actor, t))
  }

  ghost predicate ProjectAllowed(actor: Actor, project: Project, tenants: seq<Tenant>) {
    exists t | t in tenants :: t.name == project.tenant && TenantVisible(actor, t)
  }

  ghost function VisibleProjects(actor: Actor, projects: seq<Project>, tenants: seq<Tenant>): seq<Project> {
    if IsPlatformAdmin(actor) then projects else Filter(projects, p => ProjectAllowed(actor, p, tenants))
  }

  ghost predicate InstanceAllowed(actor: Actor, instance: Instance, projects: seq<Project>, tenants: seq<Tenant>) {
    exists p | p in projects :: p.name == instance.project && ProjectAllowed(actor, p, tenants)
  }

  ghost function VisibleInstances(actor: Actor, instances: seq<Instance>, projects: seq<Project>,
                                  tenants: seq<Tenant>): seq<Instance>
  {
    if IsPlatformAdmin(actor) then instances else Filter(instances, i => InstanceAllowed(actor, i, projects, tenants))
  }

  ghost function VisibleActions(actor: Actor, actions: seq<Action>, instances: seq<Instance>): seq<Action> {
    if IsPlatformAdmin(actor) then actions
    else Filter(actions, (a: Action) => exists i | i in instances :: i.name == a.target)
  }

  method ListTenants(actor: Actor, tenants: seq<Tenant>) returns (visible: seq<Tenant>)
    ensures visible == VisibleTenants(actor, tenants)
  {
    if IsPlatformAdmin(actor) {
      return tenants;
    }
    visible := [];
    ghost var keep := t => TenantVisible(actor, t);
    for i := 0 to |tenants|
      invariant visible == Filter(tenants[..i], keep)
    {
      assert tenants[..i + 1][..i] == tenants[..i];
      if TenantVisible(actor, tenants[i]) {
        visible := visible + [tenants[i]];
      }
    }
    assert tenants[..|tenants|] == tenants;
  }

  method ListProjects(actor: Actor, projects: seq<Project>, tenants: seq<Tenant>) returns (visible: seq<Project>)
    ensures visible == VisibleProjects(actor, projects, tenants)
  {
    if IsPlatformAdmin(actor) {
      return projects;
    }
    var visibleTenants := ListTenants(actor, tenants);
    var allowed := set t | t in visibleTenants :: t.name;
    visible := [];
    ghost var keep := p => ProjectAllowed(actor, p, tenants);
    for i := 0 to |projects|
      invariant visible == Filter(projects[..i], keep)
    {
      assert projects[..i + 1][..i] == projects[..i];
      if projects[i].tenant in allowed {
        visible := visible + [projects[i]];
      }
    }
    assert projects[..|projects|] == projects;
  }

  method ListInstances(actor: Actor, instances: seq<Instance>, projects: seq<Project>, tenants: seq<Tenant>)
    returns (visible: seq<Instance>)
    ensures visible == VisibleInstances(actor, instances, projects, tenants)
  {
    if IsPlatformAdmin(actor) {
      return instances;
    }
    var visibleProjects := ListProjects(actor, projects, tenants);
    var allowed := set p | p in visibleProjects :: p.name;
    visible := [];
    ghost var keep := i => InstanceAllowed(actor, i, projects, tenants);
    for i := 0 to |instances|
      invariant visible == Filter(instances[..i], keep)
    {
      assert instances[..i + 1][..i] == instances[..i];
      if instances[i].project in allowed {
        visible := visible + [instances[i]];
      }
    }
    assert instances[..|instances|] == instances;
  }

  method ListActions(actor: Actor, actions: seq<Action>, instances: seq<Instance>) returns (visible: seq<Action>)
    ensures visible == VisibleActions(actor, actions, instances)
  {
    if IsPlatformAdmin(actor) {
      return actions;
    }
    var allowed := set i | i in instances :: i.name;
    visible := [];
    ghost var keep := (a: Action) => exists i | i in instances :: i.name == a.target;
    for i := 0 to |actions|
      invariant visible == Filter(actions[..i], keep)
    {
      assert actions[..i + 1][..i] == actions[..i];
      if actions[i].target in allowed {
        visible := visible + [actions[i]];
      }
    }
    assert actions[..|actions|] == actions;
  }

  /* ---------- Point checks ---------- */

  /** A lookup by name: the first object of that name, which is the only one when names are unique. */
  function GetTenant(tenants: seq<Tenant>, name: string): Option<Tenant> {
    if tenants == [] then None else if tenants[0].name == name then Some(tenants[0]) else GetTenant(tenants[1..], name)
  }

  function GetProject(projects: seq<Project>, name: string): Option<Project> {
    if projects == [] then None
    else if projects[0].name == name then Some(projects[0])
    else GetProject(projects[1..], name)
  }

  predicate AuthorizeProject(actor: Actor, project: Project, tenants: seq<Tenant>) {
    || IsPlatformAdmin(actor)
    || var tenant := GetTenant(tenants, project.tenant);
       tenant.Some? && TenantVisible(actor, tenant.value)
  }

  predicate AuthorizeInstance(actor: Actor, instance: Instance, projects: seq<Project>, tenants: seq<Tenant>) {
    || IsPlatformAdmin(actor)
    || var project := GetProject(projects, instance.project);
       project.Some? && AuthorizeProject(actor, project.value, tenants)
  }

  ghost predicate UniqueTenants(tenants: seq<Tenant>) {
    forall i, j | 0 <= i < j < |tenants| :: tenants[i].name != tenants[j].name
  }

  ghost predicate UniqueProjects(projects: seq<Project>) {
    forall i, j | 0 <= i < j < |projects| :: projects[i].name != projects[j].name
  }

  lemma {:induction false} GetTenantFinds(tenants: seq<Tenant>, name: string)
    requires UniqueTenants(tenants)
    ensures forall t | t in tenants && t.name == name :: GetTenant(tenants, name) == Some(t)
    ensures GetTenant(tenants, name).Some?
            ==> GetTenant(tenants, name).value in tenants && GetTenant(tenants, name).value.name == name
  {
    if tenants != [] && tenants[0].name != name {
      GetTenantFinds(tenants[1..], name);
    }
  }

  lemma {:induction false} GetProjectFinds(projects: seq<Project>, name: string)
    requires UniqueProjects(projects)
    ensures forall p | p in projects && p.name == name :: GetProject(projects, name) == Some(p)
    ensures GetProject(projects, name).Some?
            ==> GetProject(projects, name).value in projects && GetProject(projects, name).value.name == name
  {
    if projects != [] && projects[0].name != name {
      GetProjectFinds(projects[1..], name);
    }
  }

  lemma ProjectChecksAgree(actor: Actor, project: Project, tenants: seq<Tenant>)
    requires UniqueTenants(tenants) && !IsPlatformAdmin(actor)
    ensures AuthorizeProject(actor, project, tenants) == ProjectAllowed(actor, project, tenants)
  {
    GetTenantFinds(tenants, project.tenant);
  }

  lemma InstanceChecksAgree(actor: Actor, instance: Instance, projects: seq<Project>, tenants: seq<Tenant>)
    requires UniqueTenants(tenants) && UniqueProjects(projects) && !IsPlatformAdmin(actor)
    ensures AuthorizeInstance(actor, instance, projects, tenants) == InstanceAllowed(actor, instance, projects, tenants)
  {
    GetProjectFinds(projects, instance.project);
    forall p | p in projects ensures AuthorizeProject(actor, p, tenants) == ProjectAllowed(actor, p, tenants) {
      ProjectChecksAgree(actor, p, tenants);
    }
  }

  /** The lists show, in order, exactly what the point checks accept. */
  lemma ListsAgreeWithPointChecks(actor: Actor, instances: seq<Instance>, projects: seq<Project>, tenants: seq<Tenant>)
    requires UniqueTenants(tenants) && UniqueProjects(projects)
    ensures VisibleInstances(actor, instances, projects, tenants)
         == Filter(instances, i => AuthorizeInstance(actor, i, projects, tenants))
    ensures VisibleProjects(actor, projects, tenants) == Filter(projects, p => AuthorizeProject(actor, p, tenants))
  {
    var instance := i => AuthorizeInstance(actor, i, projects, tenants);
    var project := p => AuthorizeProject(actor, p, tenants);
    if IsPlatformAdmin(actor) {
      FilterAll(instances, instance);
      FilterAll(projects, project);
    } else {
      forall i | i in instances
        ensures AuthorizeInstance(actor, i, projects, tenants) == InstanceAllowed(actor, i, projects, tenants)
      {
        InstanceChecksAgree(actor, i, projects, tenants);
      }
      forall p | p in projects ensures AuthorizeProject(actor, p, tenants) == ProjectAllowed(actor, p, tenants) {
        ProjectChecksAgree(actor, p, tenants);
      }
      FilterAgrees(instances, i => InstanceAllowed(actor, i, projects, tenants), instance);
      FilterAgrees(projects, p => ProjectAllowed(actor, p, tenants), project);
    }
  }

  /** Handlers filter tenants first, then projects against the filtered tenants, then instances against both:
      filtering early changes nothing. */
  lemma PrefilteringIsInvisible(actor: Actor, instances: seq<Instance>, projects: seq<Project>, tenants: seq<Tenant>)
    ensures VisibleProjects(actor, projects, VisibleTenants(actor, tenants))
         == VisibleProjects(actor, projects, tenants)
    ensures var seenTenants := VisibleTenants(actor, tenants);
            VisibleInstances(actor, instances, VisibleProjects(actor, projects, seenTenants), seenTenants)
            == VisibleInstances(actor, instances, projects, tenants)
  {
    if !IsPlatformAdmin(actor) {
      var seenTenants := VisibleTenants(actor, tenants);
      assert forall p :: ProjectAllowed(actor, p, seenTenants) == ProjectAllowed(actor, p, tenants);
      FilterAgrees(projects, p => ProjectAllowed(actor, p, seenTenants), p => ProjectAllowed(actor, p, tenants));
      var seenProjects := VisibleProjects(actor, projects, seenTenants);
      FilterAgrees(instances, i => InstanceAllowed(actor, i, seenProjects, seenTenants),
                   i => InstanceAllowed(actor, i, projects, tenants));
    }
  }

  /** The overview's last filter, run on the already filtered instances: an action is shown to a non-administrator
      exactly when it targets an instance that the point check accepts. */
  lemma ActionsFollowInstances(actor: Actor, actions: seq<Action>, instances: seq<Instance>, projects: seq<Project>,
                               tenants: seq<Tenant>)
    requires UniqueTenants(tenants) && UniqueProjects(projects)
    ensures VisibleActions(actor, actions, VisibleInstances(actor, instances, projects, tenants))
         == Filter(actions, (a: Action) => IsPlatformAdmin(actor)
              || exists i | i in instances :: i.name == a.target && AuthorizeInstance(actor, i, projects, tenants))
  {
    var visible := VisibleInstances(actor, instances, projects, tenants);
    ListsAgreeWithPointChecks(actor, instances, projects, tenants);
    var keep := (a: Action) => IsPlatformAdmin(actor)
      || exists i | i in instances :: i.name == a.target && AuthorizeInstance(actor, i, projects, tenants);
    if IsPlatformAdmin(actor) {
      FilterAll(actions, keep);
    } else {
      FilterAgrees(actions, (a: Action) => exists i | i in visible :: i.name == a.target, keep);
    }
  }

  /* ---------- Resolution does not depend on order, and more never means less ---------- */

  ghost predicate SameElements<T(!new)>(s: seq<T>, t: seq<T>) {
    forall x :: x in s <==> x in t
  }

  /** Any reordering, or repetition, of bindings, groups, tenants and claimed groups resolves to the same actor. */
  lemma ResolutionIgnoresOrder(directory: Directory, directory': Directory, identity: Identity, identity': Identity)
    requires directory'.users == directory.users && directory'.roles == directory.roles
    requires SameElements(directory.groups, directory'.groups)
    requires SameElements(directory.bindings, directory'.bindings)
    requires SameElements(directory.tenants, directory'.tenants)
    requires identity' == identity.(groups := identity'.groups) && SameElements(identity.groups, identity'.groups)
    ensures Resolved(directory, identity) == Resolved(directory', identity')
  {
    MatchIgnoresGroups(directory.users, identity, identity');
    var user := Matched(directory.users, identity);
    assert ExternalGroups(identity) == ExternalGroups(identity');
    var localGroups := LocalGroups(directory.groups, user, identity);
    assert localGroups == LocalGroups(directory'.groups, user, identity') by {
      forall g ensures InGroup(g, user, identity) == InGroup(g, user, identity') {}
    }
    var base := Base(identity, user, localGroups + ExternalGroups(identity));
    assert base == Base(identity', user, localGroups + ExternalGroups(identity'));
    assert Applying(directory.bindings, base, user, localGroups)
        == Applying(directory'.bindings, base, user, localGroups);
    assert OwnedTenants(directory.tenants, base, user) == OwnedTenants(directory'.tenants, base, user);
  }

  lemma {:induction false} MatchIgnoresGroups(users: seq<User>, identity: Identity, identity': Identity)
    requires identity' == identity.(groups := identity'.groups)
    ensures Matched(users, identity) == Matched(users, identity')
  {
    if users != [] {
      assert Subjects(identity) == Subjects(identity');
      MatchIgnoresGroups(users[1..], identity, identity');
    }
  }

  /** The second directory has every binding and tenant of the first, and its groups have at least as many members. */
  ghost predicate Grows(less: Directory, more: Directory) {
    && more.users == less.users && more.roles == less.roles
    && (forall b | b in less.bindings :: b in more.bindings)
    && (forall t | t in less.tenants :: t in more.tenants)
    && (forall g | g in less.groups :: exists g' | g' in more.groups ::
          && g'.name == g.name
          && (forall m | m in g.members :: m in g'.members)
          && (forall e | e in g.externals :: e in g'.externals))
  }

  /** The second actor is the first with more granted. */
  ghost predicate AtLeast(less: Actor, more: Actor) {
    && more == less.(roles := more.roles, tenantRoles := more.tenantRoles, groups := more.groups)
    && less.roles <= more.roles && less.groups <= more.groups
    && forall t | t in less.tenantRoles :: t in more.tenantRoles && less.tenantRoles[t] <= more.tenantRoles[t]
  }

  lemma ClaimsGrow(identity: Identity, identity': Identity)
    requires forall g | g in identity.groups :: g in identity'.groups
    ensures ExternalGroups(identity) <= ExternalGroups(identity')
  {
  }

  lemma GroupGrows(group: Group, group': Group, identity: Identity, identity': Identity, user: Option<User>)
    requires identity'.provider == identity.provider && ExternalGroups(identity) <= ExternalGroups(identity')
    requires (forall m | m in group.members :: m in group'.members)
             && forall e | e in group.externals :: e in group'.externals
    ensures InGroup(group, user, identity) ==> InGroup(group', user, identity')
  {
  }

  lemma GroupsGrow(less: Directory, more: Directory, identity: Identity, identity': Identity, user: Option<User>)
    requires Grows(less, more)
    requires identity' == identity.(groups := identity'.groups)
             && forall g | g in identity.groups :: g in identity'.groups
    ensures ExternalGroups(identity) <= ExternalGroups(identity')
    ensures LocalGroups(less.groups, user, identity) <= LocalGroups(more.groups, user, identity')
  {
    ClaimsGrow(identity, identity');
    forall name | name in LocalGroups(less.groups, user, identity)
      ensures name in LocalGroups(more.groups, user, identity')
    {
      var g :| g in less.groups && InGroup(g, user, identity) && g.name == name;
      LocalGroupGrows(less, more, identity, identity', user, g);
    }
  }

  lemma LocalGroupGrows(less: Directory, more: Directory, identity: Identity, identity': Identity, user: Option<User>,
                        g: Group)
    requires Grows(less, more) && g in less.groups && InGroup(g, user, identity)
    requires identity'.provider == identity.provider && ExternalGroups(identity) <= ExternalGroups(identity')
    ensures g.name in LocalGroups(more.groups, user, identity')
  {
    var g' :| g' in more.groups && g'.name == g.name && (forall m | m in g.members :: m in g'.members)
      && (forall e | e in g.externals :: e in g'.externals);
    GroupGrows(g, g', identity, identity', user);
  }

  lemma BoundRolesGrow(index: Roles.Index, less: set<Binding>, more: set<Binding>)
    requires less <= more
    ensures PlatformRoles(index, less) <= PlatformRoles(index, more)
    ensures BoundTenants(less) <= BoundTenants(more)
    ensures forall t :: BoundRoles(index, less, t) <= BoundRoles(index, more, t)
  {
  }

  /** More bindings, tenants, group members or claimed groups never grant less. */
  lemma ResolutionGrows(less: Directory, more: Directory, identity: Identity, identity': Identity)
    requires Grows(less, more)
    requires identity' == identity.(groups := identity'.groups)
             && forall g | g in identity.groups :: g in identity'.groups
    ensures Resolved(less, identity).Ok? <==> Resolved(more, identity').Ok?
    ensures Resolved(less, identity).Ok? ==> AtLeast(Resolved(less, identity).value, Resolved(more, identity').value)
  {
    MatchIgnoresGroups(less.users, identity, identity');
    var user := Matched(less.users, identity);
    if Resolved(less, identity).Ok? {
      GroupsGrow(less, more, identity, identity', user);
      var local, local' := LocalGroups(less.groups, user, identity), LocalGroups(more.groups, user, identity');
      var base, base' := Base(identity, user, local + ExternalGroups(identity)),
          Base(identity', user, local' + ExternalGroups(identity'));
      var applying, applying' := Applying(less.bindings, base, user, local),
          Applying(more.bindings, base', user, local');
      assert applying <= applying';
      assert OwnedTenants(less.tenants, base, user) <= OwnedTenants(more.tenants, base', user);
      BoundRolesGrow(Roles.Indexed(less.roles), applying, applying');
    }
  }

  /** Every check is monotone in what the actor was granted. */
  lemma ChecksGrow(less: Actor, more: Actor, roles: seq<string>, tenant: Tenant)
    requires AtLeast(less, more)
    ensures HasAny(less, roles) ==> HasAny(more, roles)
    ensures HasTenantRole(less, tenant.name, roles) ==> HasTenantRole(more, tenant.name, roles)
    ensures TenantVisible(less, tenant) ==> TenantVisible(more, tenant)
  {
    HasAnyGrows(less, more, roles);
    HasAnyGrows(less, more, [PLATFORM_ADMIN]);
  }

  lemma HasAnyGrows(less: Actor, more: Actor, roles: seq<string>)
    requires AtLeast(less, more)
    ensures HasAny(less, roles) ==> HasAny(more, roles)
  {
  }
}
