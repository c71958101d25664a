/** What resolving an identity grants, told by the directory and the identity alone. */
module Grants {
  import opened Actors
  import opened Options
  import opened Text
  import Roles

  ghost predicate Links(user: User, identity: Identity) {
    || (identity.isLocal && user.name == identity.subject)
    || exists external, subject | external in user.externals && subject in [identity.subject] + identity.altSubjects ::
         external.provider == identity.provider && external.name == TrimSpace(subject) != ""
  }

  /** The identity belongs to the user, and to none listed before. */
  ghost predicate FirstLinked(users: seq<User>, identity: Identity, i: int) {
    0 <= i < |users| && Links(users[i], identity) && forall j | 0 <= j < i :: !Links(users[j], identity)
  }

  /** The user that an identity is linked to: the first that is the local subject or has it among its external ones. */
  ghost predicate LinkedUser(directory: Directory, identity: Identity, user: User) {
    exists i :: FirstLinked(directory.users, identity, i) && directory.users[i] == user
  }

  lemma LinksIsUser(user: User, identity: Identity)
    ensures Links(user, identity) <==> IsUser(user, identity)
  {
    if external, subject :| external in user.externals && subject in [identity.subject] + identity.altSubjects
                            && external.provider == identity.provider && external.name == TrimSpace(subject) != "" {
      assert external.name in Subjects(identity);
    }
    if external :| external in user.externals && external.provider == identity.provider
                   && external.name in Subjects(identity) {
      var subject :| subject in [identity.subject] + identity.altSubjects && TrimSpace(subject) == external.name;
    }
  }

  lemma {:induction false} MatchedIsLinked(users: seq<User>, identity: Identity)
    ensures Matched(users, identity).Some? <==> exists user :: user in users && Links(user, identity)
    ensures forall i | FirstLinked(users, identity, i) :: Matched(users, identity) == Some(users[i])
  {
    if users != [] {
      LinksIsUser(users[0], identity);
      MatchedIsLinked(users[1..], identity);
      if !Links(users[0], identity) {
        forall i | FirstLinked(users, identity, i) ensures Matched(users, identity) == Some(users[i]) {
          assert users[1..][i - 1] == users[i];
          assert forall j | 0 <= j < i - 1 :: users[1..][j] == users[j + 1];
        }
      }
    }
  }

  /** The first nonblank of two texts. */
  function Either(a: string, b: string): string {
    if TrimSpace(a) != "" then a else if TrimSpace(b) != "" then b else ""
  }

  function EmailOf(identity: Identity, user: Option<User>): string {
    if user.None? then identity.email else Either(TrimSpace(user.value.email), identity.email)
  }

  function UserNameOf(identity: Identity, user: Option<User>): string {
    if user.None? then Either(identity.subject, identity.name) else user.value.name
  }

  /** The identity claims an external group, up to outer blanks. */
  ghost predicate Claims(identity: Identity, name: string) {
    name != "" && exists claim | claim in identity.groups :: TrimSpace(claim) == name
  }

  /** The group has the user as a member, or lists a claimed external group of the identity's provider. */
  ghost predicate Joins(group: Group, identity: Identity, user: Option<User>) {
    || (user.Some? && user.value.name in group.members)
    || exists external | external in group.externals ::
         external.provider == identity.provider && Claims(identity, external.name)
  }

  /** The binding names the identity: as a user by the linked user's name, the subject or the email, or by a group that
      it joins. */
  ghost predicate Names(binding: Binding, directory: Directory, identity: Identity, user: Option<User>) {
    || (exists name :: UserSubject(name) in binding.subjects
                       && ((user.Some? && name == user.value.name) || name == identity.subject
                           || name == EmailOf(identity, user)))
    || (exists group | group in directory.groups ::
          GroupSubject(group.name) in binding.subjects && Joins(group, identity, user))
  }

  /** The tenant lists the identity, or one of its groups, among its owners. */
  ghost predicate Owns(tenant: Tenant, directory: Directory, identity: Identity, user: Option<User>) {
    || (exists owner | owner in tenant.ownerUsers ::
          owner == EmailOf(identity, user) || owner == identity.subject || owner == UserNameOf(identity, user))
    || (exists owner | owner in tenant.ownerGroups ::
          Claims(identity, owner)
          || exists group | group in directory.groups :: group.name == owner && Joins(group, identity, user))
  }

  /** A role of the binding leads to the name, through permissions of roles of the scope. */
  ghost predicate Leads(binding: Binding, directory: Directory, scope: string, name: string) {
    exists role | role in binding.roles :: Roles.Reachable(Roles.Indexed(directory.roles), scope, role, name)
  }

  lemma ClaimsAreExternal(identity: Identity, name: string)
    ensures Claims(identity, name) <==> name in ExternalGroups(identity)
  {
  }

  lemma JoinsIsInGroup(group: Group, identity: Identity, user: Option<User>)
    ensures Joins(group, identity, user) <==> InGroup(group, user, identity)
  {
    forall name ensures Claims(identity, name) <==> name in ExternalGroups(identity) {
      ClaimsAreExternal(identity, name);
    }
  }

  lemma JoinedGroups(directory: Directory, identity: Identity, user: Option<User>, name: string)
    ensures name in LocalGroups(directory.groups, user, identity)
       <==> exists group | group in directory.groups :: group.name == name && Joins(group, identity, user)
  {
    forall group ensures Joins(group, identity, user) <==> InGroup(group, user, identity) {
      JoinsIsInGroup(group, identity, user);
    }
  }

  ghost function BaseOf(directory: Directory, identity: Identity, user: Option<User>): Actor {
    Base(identity, user, LocalGroups(directory.groups, user, identity) + ExternalGroups(identity))
  }

  /** The name that an identity is shown by. */
  function ShownName(identity: Identity, user: Option<User>): string {
    var own := Either(identity.name, identity.subject);
    if user.None? then own else Either(TrimSpace(user.value.displayName), Either(own, user.value.name))
  }

  /** Who the actor is: contact, names, provider and groups. */
  lemma BaseIs(directory: Directory, identity: Identity, user: Option<User>)
    ensures var base := BaseOf(directory, identity, user);
            && base.subject == identity.subject && base.provider == identity.provider && base.authenticated
            && base.email == EmailOf(identity, user) && base.userName == UserNameOf(identity, user)
            && base.name == ShownName(identity, user)
            && forall name :: name in base.groups <==>
                 Claims(identity, name)
                 || exists group | group in directory.groups :: group.name == name && Joins(group, identity, user)
  {
    var base := BaseOf(directory, identity, user);
    forall name ensures name in base.groups <==>
      Claims(identity, name)
      || exists group | group in directory.groups :: group.name == name && Joins(group, identity, user)
    {
      ClaimsAreExternal(identity, name);
      JoinedGroups(directory, identity, user, name);
    }
  }

  lemma NamesIsApplies(binding: Binding, directory: Directory, identity: Identity, user: Option<User>)
    ensures Names(binding, directory, identity, user)
       <==> Applies(binding, BaseOf(directory, identity, user), user, LocalGroups(directory.groups, user, identity))
  {
    BaseIs(directory, identity, user);
    var local := LocalGroups(directory.groups, user, identity);
    if group :| group in directory.groups && GroupSubject(group.name) in binding.subjects
                && Joins(group, identity, user) {
      JoinedGroups(directory, identity, user, group.name);
      assert group.name in local;
    }
    if Applies(binding, BaseOf(directory, identity, user), user, local) {
      AppliesNames(binding, directory, identity, user);
    }
  }

  lemma AppliesNames(binding: Binding, directory: Directory, identity: Identity, user: Option<User>)
    requires Applies(binding, BaseOf(directory, identity, user), user, LocalGroups(directory.groups, user, identity))
    ensures Names(binding, directory, identity, user)
  {
    BaseIs(directory, identity, user);
    var base, local := BaseOf(directory, identity, user), LocalGroups(directory.groups, user, identity);
    var subject :| subject in binding.subjects &&
      match subject
      case UserSubject(name) => (user.Some? && name == user.value.name) || name == base.subject || name == base.email
      case GroupSubject(name) => name in local
      case OtherSubject(_) => false;
    if subject.GroupSubject? {
      JoinedGroups(directory, identity, user, subject.name);
    }
  }

  lemma OwnsIsOwned(tenant: Tenant, directory: Directory, identity: Identity, user: Option<User>)
    ensures Owns(tenant, directory, identity, user) <==> Owned(tenant, BaseOf(directory, identity, user), user)
  {
    BaseIs(directory, identity, user);
  }

  lemma LeadsIsGranted(binding: Binding, directory: Directory, scope: string, name: string)
    ensures Leads(binding, directory, scope, name)
       <==> name in AllGrants(Roles.Indexed(directory.roles), scope, binding.roles)
  {
    var index := Roles.Indexed(directory.roles);
    if role :| role in binding.roles && Roles.Reachable(index, scope, role, name) {
      assert name in Roles.Grants(index, scope, role);
    }
    if name in AllGrants(index, scope, binding.roles) {
      var role :| role in binding.roles && name in Roles.Grants(index, scope, role);
      assert Roles.Reachable(index, scope, role, name);
    }
  }

  /** Only an external identity without a user is not linked. */
  lemma LinkedIff(directory: Directory, identity: Identity)
    ensures Resolved(directory, identity).Ok?
       <==> identity.isLocal || exists user :: user in directory.users && Links(user, identity)
  {
    MatchedIsLinked(directory.users, identity);
  }

  /** The user that resolution goes by. */
  ghost predicate UserIs(directory: Directory, identity: Identity, user: Option<User>) {
    match user
    case Some(linked) => LinkedUser(directory, identity, linked)
    case None => forall other | other in directory.users :: !Links(other, identity)
  }

  lemma UserIsMatched(directory: Directory, identity: Identity, user: Option<User>)
    requires UserIs(directory, identity, user)
    ensures Matched(directory.users, identity) == user
  {
    MatchedIsLinked(directory.users, identity);
  }

  /** A resolved actor has a platform role exactly when a platform binding names the identity and leads to the role. */
  lemma PlatformRoleIff(directory: Directory, identity: Identity, user: Option<User>, role: string)
    requires Resolved(directory, identity).Ok? && UserIs(directory, identity, user)
    ensures role in Resolved(directory, identity).value.roles
       <==> exists b | b in directory.bindings ::
              b.scope.PlatformScope? && Names(b, directory, identity, user) && Leads(b, directory, "platform", role)
  {
    UserIsMatched(directory, identity, user);
    forall b ensures Names(b, directory, identity, user) <==>
      Applies(b, BaseOf(directory, identity, user), user, LocalGroups(directory.groups, user, identity))
    {
      NamesIsApplies(b, directory, identity, user);
    }
    forall b ensures Leads(b, directory, "platform", role)
      <==> role in AllGrants(Roles.Indexed(directory.roles), Roles.PLATFORM, b.roles)
    {
      LeadsIsGranted(b, directory, "platform", role);
    }
  }

  /** A binding of the tenant names the identity. */
  ghost predicate BoundTo(binding: Binding, tenant: string, directory: Directory, identity: Identity,
                          user: Option<User>)
  {
    && binding.scope.TenantScope? && binding.tenantRef == Some(tenant) && tenant != ""
    && Names(binding, directory, identity, user)
  }

  /** And it has a role in a tenant exactly when a binding of that tenant names the identity and leads to the role, or
      the role is tenant-admin and a tenant of that name lists the identity among its owners. */
  lemma TenantRoleIff(directory: Directory, identity: Identity, user: Option<User>, tenant: string, role: string)
    requires Resolved(directory, identity).Ok? && UserIs(directory, identity, user)
    ensures var tenantRoles := Resolved(directory, identity).value.tenantRoles;
            tenant in tenantRoles && role in tenantRoles[tenant]
            <==> || (exists b | b in directory.bindings ::
                       BoundTo(b, tenant, directory, identity, user) && Leads(b, directory, "tenant", role))
                 || (role == "tenant-admin"
                     && exists t | t in directory.tenants :: t.name == tenant && Owns(t, directory, identity, user))
  {
    UserIsMatched(directory, identity, user);
    var base, local := BaseOf(directory, identity, user), LocalGroups(directory.groups, user, identity);
    var index, applying := Roles.Indexed(directory.roles), Applying(directory.bindings, base, user, local);
    BoundRoleIff(directory, identity, user, tenant, role);
    OwnedTenantIff(directory, identity, user, tenant);
    var bound, owned := BoundTenantRoles(index, applying), OwnedTenants(directory.tenants, base, user);
    assert Resolved(directory, identity).value.tenantRoles == WithOwned(bound, owned);
    assert role in BoundRoles(index, applying, tenant) ==> tenant in BoundTenants(applying);
  }

  lemma BoundRoleIff(directory: Directory, identity: Identity, user: Option<User>, tenant: string, role: string)
    ensures var base, local := BaseOf(directory, identity, user), LocalGroups(directory.groups, user, identity);
            role in BoundRoles(Roles.Indexed(directory.roles), Applying(directory.bindings, base, user, local), tenant)
            <==> exists b | b in directory.bindings ::
                   BoundTo(b, tenant, directory, identity, user) && Leads(b, directory, "tenant", role)
  {
    forall b ensures Names(b, directory, identity, user) <==>
      Applies(b, BaseOf(directory, identity, user), user, LocalGroups(directory.groups, user, identity))
    {
      NamesIsApplies(b, directory, identity, user);
    }
    forall b ensures Leads(b, directory, "tenant", role)
      <==> role in AllGrants(Roles.Indexed(directory.roles), Roles.TENANT, b.roles)
    {
      LeadsIsGranted(b, directory, "tenant", role);
    }
  }

  lemma OwnedTenantIff(directory: Directory, identity: Identity, user: Option<User>, tenant: string)
    ensures tenant in OwnedTenants(directory.tenants, BaseOf(directory, identity, user), user)
       <==> exists t | t in directory.tenants :: t.name == tenant && Owns(t, directory, identity, user)
  {
    forall t ensures Owns(t, directory, identity, user) <==> Owned(t, BaseOf(directory, identity, user), user) {
      OwnsIsOwned(t, directory, identity, user);
    }
  }

  /** An identity that no binding names and that owns no tenant is resolved without any role. */
  lemma StrangersHaveNoRoles(directory: Directory, identity: Identity, user: Option<User>)
    requires Resolved(directory, identity).Ok? && UserIs(directory, identity, user)
    requires forall b | b in directory.bindings :: !Names(b, directory, identity, user)
    requires forall t | t in directory.tenants :: !Owns(t, directory, identity, user)
    ensures var actor := Resolved(directory, identity).value;
            actor.roles == {} && forall t | t in actor.tenantRoles :: actor.tenantRoles[t] == {}
  {
    var actor := Resolved(directory, identity).value;
    forall role ensures role !in actor.roles {
      PlatformRoleIff(directory, identity, user, role);
    }
    forall t, role | t in actor.tenantRoles ensures role !in actor.tenantRoles[t] {
      TenantRoleIff(directory, identity, user, t, role);
    }
  }
}
