/** From an authenticated identity to an actor: which groups and bindings apply, and what they grant.
    `Resolved` says it as sets; the resolver with its nested loops is proved to compute it. */
module Actors {
  import opened Options
  import opened Text
  import opened Roles

  const PLATFORM_ADMIN := "platform-admin"
  const TENANT_ADMIN := "tenant-admin"
  const TENANT_OPERATOR := "tenant-operator"
  const SERVICE_CONSUMER := "service-consumer"

  /** A name qualified by the auth provider it comes from. */
  datatype External = External(provider: string, name: string)

  datatype User = User(name: string, displayName: string, email: string, externals: seq<External>)

  datatype Group = Group(name: string, members: seq<string>, externals: seq<External>)

  datatype Subject = UserSubject(name: string) | GroupSubject(name: string) | OtherSubject(name: string)

  datatype Scope = PlatformScope | TenantScope | OtherScope

  datatype Binding = Binding(scope: Scope, tenantRef: Option<string>, roles: seq<string>, subjects: seq<Subject>)

  datatype Tenant = Tenant(name: string, ownerUsers: seq<string>, ownerGroups: seq<string>)

  datatype Identity = Identity(provider: string, isLocal: bool, subject: string, altSubjects: seq<string>,
                               name: string, email: string, groups: seq<string>)

  datatype Directory = Directory(users: seq<User>, groups: seq<Group>, bindings: seq<Binding>,
                                 tenants: seq<Tenant>, roles: seq<Role>)

  datatype Actor = Actor(name: string, email: string, userName: string, provider: string, subject: string,
                         authenticated: bool, roles: set<string>, tenantRoles: map<string, set<string>>,
                         groups: set<string>)

  datatype Result<T> = Ok(value: T) | NotLinked

  /* ---------- Who the identity is ---------- */

  /** Names without outer blanks; blank ones do not count. */
  function NonBlank(names: seq<string>): set<string> {
    (set name | name in names :: TrimSpace(name)) - {""}
  }

  lemma OneMoreName(names: seq<string>, k: nat)
    requires k < |names|
    ensures NonBlank(names[..k + 1])
         == NonBlank(names[..k]) + if TrimSpace(names[k]) == "" then {} else {TrimSpace(names[k])}
  {
    assert names[..k + 1] == names[..k] + [names[k]];
  }

  /** The subjects an identity may be linked under. */
  function Subjects(identity: Identity): set<string> {
    NonBlank([identity.subject]) + NonBlank(identity.altSubjects)
  }

  predicate IsUser(user: User, identity: Identity) {
    || (identity.isLocal && user.name == identity.subject)
    || exists e | e in user.externals :: e.provider == identity.provider && e.name in Subjects(identity)
  }

  /** The first user that the identity belongs to. */
  function Matched(users: seq<User>, identity: Identity): Option<User> {
    if users == [] then None
    else if IsUser(users[0], identity) then Some(users[0])
    else Matched(users[1..], identity)
  }

  method CollectSubjects(identity: Identity) returns (subjects: set<string>)
    ensures subjects == Subjects(identity)
  {
    subjects := {};
    if TrimSpace(identity.subject) != "" {
      subjects := subjects + {TrimSpace(identity.subject)};
    }
    for i := 0 to |identity.altSubjects|
      invariant subjects == NonBlank([identity.subject]) + NonBlank(identity.altSubjects[..i])
    {
      OneMoreName(identity.altSubjects, i);
      var subject := TrimSpace(identity.altSubjects[i]);
      if subject != "" {
        subjects := subjects + {subject};
      }
    }
    assert identity.altSubjects[..|identity.altSubjects|] == identity.altSubjects;
  }

  method MatchUser(users: seq<User>, identity: Identity) returns (user: Option<User>)
    ensures user == Matched(users, identity)
  {
    var subjects := CollectSubjects(identity);
    for i := 0 to |users|
      invariant Matched(users, identity) == Matched(users[i..], identity)
    {
      if identity.isLocal && users[i].name == identity.subject {
        return Some(users[i]);
      }
      var externals := users[i].externals;
      for j := 0 to |externals|
        invariant forall k | 0 <= k < j ::
                  !(externals[k].provider == identity.provider && externals[k].name in subjects)
      {
        if externals[j].provider == identity.provider && externals[j].name in subjects {
          assert externals[j] in externals;
          return Some(users[i]);
        }
      }
    }
    return None;
  }

  /* ---------- Groups ---------- */

  function ExternalGroups(identity: Identity): set<string> {
    NonBlank(identity.groups)
  }

  predicate InGroup(group: Group, user: Option<User>, identity: Identity) {
    || (user.Some? && user.value.name in group.members)
    || exists e | e in group.externals :: e.provider == identity.provider && e.name in ExternalGroups(identity)
  }

  ghost function LocalGroups(groups: seq<Group>, user: Option<User>, identity: Identity): set<string> {
    set g | g in groups && InGroup(g, user, identity) :: g.name
  }

  method CollectGroups(groups: seq<Group>, user: Option<User>, identity: Identity)
    returns (localGroups: set<string>, externalGroups: set<string>)
    ensures localGroups == LocalGroups(groups, user, identity)
    ensures externalGroups == ExternalGroups(identity)
  {
    localGroups, externalGroups := {}, {};
    for i := 0 to |identity.groups|
      invariant externalGroups == NonBlank(identity.groups[..i])
    {
      OneMoreName(identity.groups, i);
      var name := TrimSpace(identity.groups[i]);
      if name != "" {
        externalGroups := externalGroups + {name};
      }
    }
    assert identity.groups[..|identity.groups|] == identity.groups;
    for i := 0 to |groups|
      invariant localGroups == LocalGroups(groups[..i], user, identity)
    {
      var group := groups[i];
      if user.Some? {
        for j := 0 to |group.members|
          invariant forall k | 0 <= k < j :: group.members[k] != user.value.name
          invariant localGroups == LocalGroups(groups[..i], user, identity)
        {
          if group.members[j] == user.value.name {
            localGroups := localGroups + {group.name};
            break;
          }
        }
      }
      var byMember := user.Some? && user.value.name in group.members;
      assert localGroups == LocalGroups(groups[..i], user, identity) + if byMember then {group.name} else {};
      for j := 0 to |group.externals|
        invariant forall k | 0 <= k < j ::
                    !(group.externals[k].provider == identity.provider && group.externals[k].name in externalGroups)
        invariant localGroups == LocalGroups(groups[..i], user, identity) + if byMember then {group.name} else {}
      {
        if group.externals[j].provider == identity.provider && group.externals[j].name in externalGroups {
          assert group.externals[j] in group.externals;
          localGroups := localGroups + {group.name};
          break;
        }
      }
      assert groups[..i + 1] == groups[..i] + [group];
      assert localGroups == LocalGroups(groups[..i], user, identity)
                            + if InGroup(group, user, identity) then {group.name} else {};
    }
    assert groups[..|groups|] == groups;
  }

  /* ---------- Bindings and tenants ---------- */

  /** The actor before any role is granted. */
  function Base(identity: Identity, user: Option<User>, groups: set<string>): Actor {
    var name := FirstNonBlank(identity.name, identity.subject);
    Actor(
      if user.None? then name
      else FirstNonBlank(FirstNonBlank(TrimSpace(user.value.displayName), name), user.value.name),
      if user.Some? then FirstNonBlank(TrimSpace(user.value.email), identity.email) else identity.email,
      if user.Some? then user.value.name else FirstNonBlank(identity.subject, identity.name),
      identity.provider, identity.subject, true, {}, map[], groups)
  }

  predicate Applies(binding: Binding, base: Actor, user: Option<User>, localGroups: set<string>) {
    exists s | s in binding.subjects ::
      match s
      case UserSubject(name) => (user.Some? && name == user.value.name) || name == base.subject || name == base.email
      case GroupSubject(name) => name in localGroups
      case OtherSubject(_) => false
  }

  /** Ownership recorded on the tenant itself. */
  predicate Owned(tenant: Tenant, base: Actor, user: Option<User>) {
    || (exists u | u in tenant.ownerUsers ::
          || (user.Some? && u == user.value.name)
          || u == base.email || u == base.subject || u == base.userName)
    || exists g | g in tenant.ownerGroups :: g in base.groups
  }

  predicate NamesTenant(binding: Binding) {
    binding.scope.TenantScope? && binding.tenantRef.Some? && binding.tenantRef.value != ""
  }

  ghost function AllGrants(index: Index, scope: string, roles: seq<string>): set<string> {
    set role, name | role in roles && name in Grants(index, scope, role) :: name
  }

  /** The bindings of a directory that reach an actor. */
  ghost function Applying(bindings: seq<Binding>, base: Actor, user: Option<User>,
                          localGroups: set<string>): set<Binding>
  {
    set b | b in bindings && Applies(b, base, user, localGroups)
  }

  ghost function PlatformRoles(index: Index, applying: set<Binding>): set<string> {
    set b, name | b in applying && b.scope.PlatformScope? && name in AllGrants(index, PLATFORM, b.roles) :: name
  }

  ghost function BoundRoles(index: Index, applying: set<Binding>, tenant: string): set<string> {
    set b, name | b in applying && NamesTenant(b) && b.tenantRef.value == tenant
        && name in AllGrants(index, TENANT, b.roles) :: name
  }

  ghost function BoundTenants(applying: set<Binding>): set<string> {
    set b | b in applying && NamesTenant(b) :: b.tenantRef.value
  }

  ghost function BoundTenantRoles(index: Index, applying: set<Binding>): map<string, set<string>> {
    map t | t in BoundTenants(applying) :: BoundRoles(index, applying, t)
  }

  ghost function OwnedTenants(tenants: seq<Tenant>, base: Actor, user: Option<User>): set<string> {
    set t | t in tenants && Owned(t, base, user) :: t.name
  }

  ghost function WithOwned(bound: map<string, set<string>>, owned: set<string>): map<string, set<string>> {
    map t | t in bound.Keys + owned ::
      (if t in bound then bound[t] else {}) + (if t in owned then {TENANT_ADMIN} else {})
  }

  /** What resolving an identity means: the union of what every applying binding grants, with tenant-admin for
      every owned tenant. */
  ghost function Resolved(directory: Directory, identity: Identity): Result<Actor> {
    var user := Matched(directory.users, identity);
    if !identity.isLocal && user.None? then NotLinked
    else
      var localGroups := LocalGroups(directory.groups, user, identity);
      var base := Base(identity, user, localGroups + ExternalGroups(identity));
      var index := Indexed(directory.roles);
      var applying := Applying(directory.bindings, base, user, localGroups);
      Ok(base.(
        roles := PlatformRoles(index, applying),
        tenantRoles := WithOwned(BoundTenantRoles(index, applying), OwnedTenants(directory.tenants, base, user))))
  }

  lemma OneMoreRole(index: Index, scope: string, roles: seq<string>, i: nat)
    requires i < |roles|
    ensures AllGrants(index, scope, roles[..i + 1])
         == AllGrants(index, scope, roles[..i]) + Grants(index, scope, roles[i])
  {
    assert roles[..i + 1] == roles[..i] + [roles[i]];
  }

  /** Adds to a set everything a list of roles expands to. */
  method AddExpanded(index: Index, scope: string, roles: seq<string>, granted: set<string>) returns (more: set<string>)
    ensures more == granted + AllGrants(index, scope, roles)
  {
    more := granted;
    for i := 0 to |roles|
      invariant more == granted + AllGrants(index, scope, roles[..i])
    {
      var expanded := Expand(index, roles[i], scope);
      ghost var before := more;
      for j := 0 to |expanded|
        invariant more == before + set n | n in expanded[..j]
      {
        more := more + {expanded[j]};
      }
      assert expanded[..|expanded|] == expanded;
      assert (set n | n in expanded) == Grants(index, scope, roles[i]);
      OneMoreRole(index, scope, roles, i);
    }
    assert roles[..|roles|] == roles;
  }

  method ResolveActor(directory: Directory, identity: Identity) returns (result: Result<Actor>)
    ensures result == Resolved(directory, identity)
  {
    var index := NewRoleExpander(directory.roles);
    var user := MatchUser(directory.users, identity);
    if !identity.isLocal && user.None? {
      return NotLinked;
    }
    var localGroups, externalGroups := CollectGroups(directory.groups, user, identity);
    var base := Base(identity, user, localGroups + externalGroups);
    var roles, tenantRoles := CollectRoles(index, directory.bindings, base, user, localGroups);
    tenantRoles := AddOwned(directory.tenants, base, user, tenantRoles);
    return Ok(base.(roles := roles, tenantRoles := tenantRoles));
  }

  /** What one more applying binding changes. */
  ghost function AddBinding(index: Index, bound: map<string, set<string>>, binding: Binding): map<string, set<string>> {
    if !NamesTenant(binding) then bound
    else
      var tenant := binding.tenantRef.value;
      bound[tenant := (if tenant in bound then bound[tenant] else {}) + AllGrants(index, TENANT, binding.roles)]
  }

  lemma OneMoreBound(index: Index, applying: set<Binding>, binding: Binding, tenant: string)
    ensures BoundRoles(index, applying + {binding}, tenant)
         == BoundRoles(index, applying, tenant)
            + if NamesTenant(binding) && binding.tenantRef.value == tenant then AllGrants(index, TENANT, binding.roles)
              else {}
    ensures tenant !in BoundTenants(applying) ==> BoundRoles(index, applying, tenant) == {}
  {
  }

  lemma OneMorePlatform(index: Index, applying: set<Binding>, binding: Binding)
    ensures PlatformRoles(index, applying + {binding})
         == PlatformRoles(index, applying)
            + if binding.scope.PlatformScope? then AllGrants(index, PLATFORM, binding.roles) else {}
  {
  }

  lemma OneMoreTenant(applying: set<Binding>, binding: Binding)
    ensures BoundTenants(applying + {binding})
         == BoundTenants(applying) + if NamesTenant(binding) then {binding.tenantRef.value} else {}
  {
  }

  lemma OneMoreBinding(index: Index, applying: set<Binding>, binding: Binding)
    ensures BoundTenantRoles(index, applying + {binding})
         == AddBinding(index, BoundTenantRoles(index, applying), binding)
  {
    OneMoreTenant(applying, binding);
    var more, bound := BoundTenantRoles(index, applying + {binding}), BoundTenantRoles(index, applying);
    var added := AddBinding(index, bound, binding);
    assert more.Keys == added.Keys;
    forall t | t in more.Keys ensures more[t] == added[t] {
      OneMoreBound(index, applying, binding, t);
    }
  }

  method CollectRoles(index: Index, bindings: seq<Binding>, base: Actor, user: Option<User>, localGroups: set<string>)
    returns (roles: set<string>, tenantRoles: map<string, set<string>>)
    ensures roles == PlatformRoles(index, Applying(bindings, base, user, localGroups))
    ensures tenantRoles == BoundTenantRoles(index, Applying(bindings, base, user, localGroups))
  {
    roles, tenantRoles := {}, map[];
    ghost var applying: set<Binding> := {};
    for i := 0 to |bindings|
      invariant applying == Applying(bindings[..i], base, user, localGroups)
      invariant roles == PlatformRoles(index, applying)
      invariant tenantRoles == BoundTenantRoles(index, applying)
    {
      var binding := bindings[i];
      OneMoreApplying(bindings, i, base, user, localGroups);
      if !Applies(binding, base, user, localGroups) {
        continue;
      }
      OneMoreBinding(index, applying, binding);
      OneMorePlatform(index, applying, binding);
      applying := applying + {binding};
      match binding.scope {
        case PlatformScope =>
          roles := AddExpanded(index, PLATFORM, binding.roles, roles);
        case TenantScope =>
          if binding.tenantRef.Some? && binding.tenantRef.value != "" {
            var tenant := binding.tenantRef.value;
            var granted := if tenant in tenantRoles then tenantRoles[tenant] else {};
            granted := AddExpanded(index, TENANT, binding.roles, granted);
            tenantRoles := tenantRoles[tenant := granted];
          }
        case OtherScope =>
      }
    }
    assert bindings[..|bindings|] == bindings;
  }

  lemma OneMoreApplying(bindings: seq<Binding>, i: nat, base: Actor, user: Option<User>, localGroups: set<string>)
    requires i < |bindings|
    ensures Applying(bindings[..i + 1], base, user, localGroups)
         == Applying(bindings[..i], base, user, localGroups)
            + if Applies(bindings[i], base, user, localGroups) then {bindings[i]} else {}
  {
    assert bindings[..i + 1] == bindings[..i] + [bindings[i]];
  }

  lemma NothingOwned(bound: map<string, set<string>>)
    ensures WithOwned(bound, {}) == bound
  {
    forall t | t in bound.Keys ensures WithOwned(bound, {})[t] == bound[t] {}
  }

  lemma OneMoreOwned(bound: map<string, set<string>>, owned: set<string>, tenant: string)
    ensures var before := WithOwned(bound, owned);
            WithOwned(bound, owned + {tenant})
            == before[tenant := (if tenant in before then before[tenant] else {}) + {TENANT_ADMIN}]
  {
    var before, after := WithOwned(bound, owned), WithOwned(bound, owned + {tenant});
    var granted := (if tenant in before then before[tenant] else {}) + {TENANT_ADMIN};
    assert after[tenant] == granted;
    assert forall t | t in after && t != tenant :: t in before && after[t] == before[t];
  }

  method AddOwned(tenants: seq<Tenant>, base: Actor, user: Option<User>, bound: map<string, set<string>>)
    returns (tenantRoles: map<string, set<string>>)
    ensures tenantRoles == WithOwned(bound, OwnedTenants(tenants, base, user))
  {
    tenantRoles := bound;
    NothingOwned(bound);
    ghost var owned: set<string> := {};
    for i := 0 to |tenants|
      invariant owned == OwnedTenants(tenants[..i], base, user)
      invariant tenantRoles == WithOwned(bound, owned)
    {
      var tenant := tenants[i];
      assert tenants[..i + 1] == tenants[..i] + [tenant];
      if Owned(tenant, base, user) {
        OneMoreOwned(bound, owned, tenant.name);
        owned := owned + {tenant.name};
        var granted := if tenant.name in tenantRoles then tenantRoles[tenant.name] else {};
        tenantRoles := tenantRoles[tenant.name := granted + {TENANT_ADMIN}];
      }
    }
    assert tenants[..|tenants|] == tenants;
  }
}
