/** Who passes the role checks and who sees a tenant, told by the names of the granted roles and by the directory. */
module Access {
  import opened Actors
  import opened Grants
  import opened Options
  import opened Sequences
  import opened Tenancy

  /** What was granted on the platform or in any tenant. */
  ghost function Held(actor: Actor): set<string> {
    actor.roles + set t, role | t in actor.tenantRoles && role in actor.tenantRoles[t] :: role
  }

  /** Administrators of a tenant may do what its operators may, and both what service consumers may. */
  ghost predicate Suffices(granted: set<string>, required: string) {
    || required in granted
    || ("tenant-admin" in granted && required in ["tenant-operator", "service-consumer"])
    || ("tenant-operator" in granted && required == "service-consumer")
  }

  lemma OneSuffices(granted: set<string>, required: string)
    ensures Suffices(granted, required) <==> exists role | role in granted :: TenantRoleSatisfies(role, required)
  {
    if Suffices(granted, required) {
      var role :| role in ["tenant-admin", "tenant-operator", required] && role in granted
                  && TenantRoleSatisfies(role, required);
    }
  }

  /** A role is checked for in all that was granted; administrators of the platform pass every check. */
  lemma RoleCheckIff(actor: Actor, required: string)
    ensures HasAny(actor, [required]) <==> "platform-admin" in actor.roles || Suffices(Held(actor), required)
  {
    OneSuffices(Held(actor), required);
    assert required in [required];
    if HasAny(actor, [required]) {
      if granted :| granted in actor.roles && PlatformRoleSatisfies(granted, required) {
        assert granted in Held(actor);
      } else {
        var t :| t in actor.tenantRoles
                 && exists granted | granted in actor.tenantRoles[t] :: TenantRoleSatisfies(granted, required);
        var granted :| granted in actor.tenantRoles[t] && TenantRoleSatisfies(granted, required);
        assert granted in Held(actor);
      }
    }
    if "platform-admin" in actor.roles {
      assert PlatformRoleSatisfies("platform-admin", required);
    }
    if granted :| granted in Held(actor) && TenantRoleSatisfies(granted, required) {
      if granted in actor.roles {
        assert PlatformRoleSatisfies(granted, required);
      } else {
        var t :| t in actor.tenantRoles && granted in actor.tenantRoles[t];
      }
    }
  }

  /** Several roles are checked for one by one. */
  lemma AnyOfRoles(actor: Actor, roles: seq<string>)
    ensures HasAny(actor, roles) <==> exists role | role in roles :: HasAny(actor, [role])
  {
    forall role ensures HasAny(actor, [role]) <==>
      || (exists granted | granted in actor.roles :: PlatformRoleSatisfies(granted, role))
      || exists t | t in actor.tenantRoles :: exists granted | granted in actor.tenantRoles[t] ::
        TenantRoleSatisfies(granted, role)
    {
      assert forall asked | asked in [role] :: asked == role;
      assert role in [role];
    }
  }

  /** Whoever holds platform-admin anywhere, in a tenant too, is an administrator, and nobody else. */
  lemma AdministratorIff(actor: Actor)
    ensures IsPlatformAdmin(actor) <==> "platform-admin" in Held(actor)
  {
    RoleCheckIff(actor, "platform-admin");
  }

  /** A check within a tenant goes by what was granted in that tenant only. */
  lemma TenantRoleCheckIff(actor: Actor, tenant: string, roles: seq<string>)
    ensures HasTenantRole(actor, tenant, roles)
       <==> tenant != "" && tenant in actor.tenantRoles
            && exists role | role in roles :: Suffices(actor.tenantRoles[tenant], role)
  {
    if tenant in actor.tenantRoles {
      forall role ensures Suffices(actor.tenantRoles[tenant], role)
        <==> exists granted | granted in actor.tenantRoles[tenant] :: TenantRoleSatisfies(granted, role)
      {
        OneSuffices(actor.tenantRoles[tenant], role);
      }
    }
  }

  /* ---------- From the directory to the lists ---------- */

  /** A platform binding, or one of a tenant, names the identity and leads to platform-admin. */
  ghost predicate Administers(directory: Directory, identity: Identity, user: Option<User>) {
    || (exists b | b in directory.bindings ::
          b.scope.PlatformScope? && Names(b, directory, identity, user)
          && Leads(b, directory, "platform", "platform-admin"))
    || (exists b, t | b in directory.bindings && b.tenantRef == Some(t) ::
          BoundTo(b, t, directory, identity, user) && Leads(b, directory, "tenant", "platform-admin"))
  }

  lemma AdministersIff(directory: Directory, identity: Identity, user: Option<User>)
    requires Resolved(directory, identity).Ok? && UserIs(directory, identity, user)
    ensures IsPlatformAdmin(Resolved(directory, identity).value) <==> Administers(directory, identity, user)
  {
    AdministratorIff(Resolved(directory, identity).value);
    PlatformRoleIff(directory, identity, user, "platform-admin");
    TenantAdministersIff(directory, identity, user);
  }

  lemma TenantAdministersIff(directory: Directory, identity: Identity, user: Option<User>)
    requires Resolved(directory, identity).Ok? && UserIs(directory, identity, user)
    ensures var actor := Resolved(directory, identity).value;
            (exists t | t in actor.tenantRoles :: "platform-admin" in actor.tenantRoles[t])
            <==> exists b, t | b in directory.bindings && b.tenantRef == Some(t) ::
                   BoundTo(b, t, directory, identity, user) && Leads(b, directory, "tenant", "platform-admin")
  {
    var actor := Resolved(directory, identity).value;
    forall t ensures t in actor.tenantRoles && "platform-admin" in actor.tenantRoles[t]
      <==> exists b | b in directory.bindings ::
             BoundTo(b, t, directory, identity, user) && Leads(b, directory, "tenant", "platform-admin")
    {
      TenantRoleIff(directory, identity, user, t, "platform-admin");
    }
    if b, t :| b in directory.bindings && b.tenantRef == Some(t) && BoundTo(b, t, directory, identity, user)
               && Leads(b, directory, "tenant", "platform-admin") {
      assert "platform-admin" in actor.tenantRoles[t];
    }
    if t :| t in actor.tenantRoles && "platform-admin" in actor.tenantRoles[t] {
      var b :| b in directory.bindings && BoundTo(b, t, directory, identity, user)
               && Leads(b, directory, "tenant", "platform-admin");
      assert b.tenantRef == Some(t);
    }
  }

  /** Who sees a tenant of the directory: administrators, whoever a binding of the tenant gives some role, its owners,
      and users that it lists as owners under the name they are shown by. */
  lemma WhoSeesTenantIff(directory: Directory, identity: Identity, user: Option<User>, tenant: Tenant)
    requires Resolved(directory, identity).Ok? && UserIs(directory, identity, user) && tenant in directory.tenants
    ensures TenantVisible(Resolved(directory, identity).value, tenant)
       <==> || Administers(directory, identity, user)
            || (exists b, role | b in directory.bindings ::
                  BoundTo(b, tenant.name, directory, identity, user) && Leads(b, directory, "tenant", role))
            || (exists t | t in directory.tenants :: t.name == tenant.name && Owns(t, directory, identity, user))
            || (ShownName(identity, user) != "" && ShownName(identity, user) in tenant.ownerUsers)
  {
    var actor := Resolved(directory, identity).value;
    AdministersIff(directory, identity, user);
    UserIsMatched(directory, identity, user);
    BaseIs(directory, identity, user);
    SomeRoleIff(directory, identity, user, tenant.name);
    OwnerChecks(directory, identity, user, tenant);
  }

  lemma SomeRoleIff(directory: Directory, identity: Identity, user: Option<User>, tenant: string)
    requires Resolved(directory, identity).Ok? && UserIs(directory, identity, user)
    ensures var tenantRoles := Resolved(directory, identity).value.tenantRoles;
            tenant in tenantRoles && tenantRoles[tenant] != {}
            <==> || (exists b, role | b in directory.bindings ::
                       BoundTo(b, tenant, directory, identity, user) && Leads(b, directory, "tenant", role))
                 || (exists t | t in directory.tenants :: t.name == tenant && Owns(t, directory, identity, user))
  {
    var tenantRoles := Resolved(directory, identity).value.tenantRoles;
    TenantRoleIff(directory, identity, user, tenant, "tenant-admin");
    if b, role :| b in directory.bindings && BoundTo(b, tenant, directory, identity, user)
                  && Leads(b, directory, "tenant", role) {
      TenantRoleIff(directory, identity, user, tenant, role);
      assert role in tenantRoles[tenant];
    }
    if tenant in tenantRoles && tenantRoles[tenant] != {} {
      var role :| role in tenantRoles[tenant];
      TenantRoleIff(directory, identity, user, tenant, role);
    }
  }

  /** The owners a visibility check finds are those that resolution found, but for the shown name. */
  lemma OwnerChecks(directory: Directory, identity: Identity, user: Option<User>, tenant: Tenant)
    requires Resolved(directory, identity).Ok? && UserIs(directory, identity, user)
    ensures var actor := Resolved(directory, identity).value;
            (actor.name != "" && exists u | u in tenant.ownerUsers ::
               u == actor.name || u == actor.email || u == actor.userName || u == actor.subject)
            || (exists g | g in tenant.ownerGroups :: g in actor.groups)
            ==> Owns(tenant, directory, identity, user) || (actor.name != "" && actor.name in tenant.ownerUsers)
  {
    UserIsMatched(directory, identity, user);
    BaseIs(directory, identity, user);
  }

  lemma NothingToSee(actor: Actor, tenants: seq<Tenant>, projects: seq<Project>, instances: seq<Instance>,
                     actions: seq<Action>)
    requires !IsPlatformAdmin(actor) && forall t | t in tenants :: !TenantVisible(actor, t)
    ensures VisibleTenants(actor, tenants) == [] && VisibleProjects(actor, projects, tenants) == []
    ensures var seen := VisibleInstances(actor, instances, projects, tenants);
            seen == [] && VisibleActions(actor, actions, seen) == []
  {
    FilterNone(tenants, t => TenantVisible(actor, t));
    FilterNone(projects, p => ProjectAllowed(actor, p, tenants));
    FilterNone(instances, i => InstanceAllowed(actor, i, projects, tenants));
    FilterNone(actions, (a: Action) => exists i | i in VisibleInstances(actor, instances, projects, tenants) ::
        i.name == a.target);
  }

  /** An identity that no binding names, and that no tenant lists, itself or by a group, among its owners, is shown no
      tenant, project, instance or action. */
  lemma StrangersSeeNothing(directory: Directory, identity: Identity, user: Option<User>, projects: seq<Project>,
                            instances: seq<Instance>, actions: seq<Action>)
    requires Resolved(directory, identity).Ok? && UserIs(directory, identity, user)
    requires forall b | b in directory.bindings :: !Names(b, directory, identity, user)
    requires forall t | t in directory.tenants ::
               !Owns(t, directory, identity, user) && ShownName(identity, user) !in t.ownerUsers
    ensures var actor := Resolved(directory, identity).value;
            && VisibleTenants(actor, directory.tenants) == []
            && VisibleProjects(actor, projects, directory.tenants) == []
            && VisibleInstances(actor, instances, projects, directory.tenants) == []
            && VisibleActions(actor, actions, VisibleInstances(actor, instances, projects, directory.tenants)) == []
  {
    var actor, tenants := Resolved(directory, identity).value, directory.tenants;
    AdministersIff(directory, identity, user);
    forall t | t in tenants ensures !TenantVisible(actor, t) {
      WhoSeesTenantIff(directory, identity, user, t);
    }
    NothingToSee(actor, tenants, projects, instances, actions);
  }
}
