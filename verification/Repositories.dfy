/** Registered Git repositories and their Argo CD mirrors: two sets of secrets that the create and delete handlers keep
    in step, one API call at a time. Handlers run serially; any single API call may fail without effect. */
module Repositories {
  import opened Options
  import opened Text

  datatype Request = Request(name: string, displayName: string, scope: string, tenantName: string, projectName: string,
                             url: string, authType: string, username: string, password: string, sshKey: string)

  /** The labels the handlers read; a missing label reads as the empty string. */
  datatype Labels = Labels(scope: string, tenant: string, project: string)

  /** A repository secret: a stored registration. A missing data entry reads as the empty string. */
  datatype Secret = Secret(name: string, labels: Labels, displayName: string, url: string, authType: string,
                           username: string, password: string, sshKey: string)

  /** An Argo CD repository secret; `servicer` is the label that marks the mirrors the handlers made. */
  datatype Mirror = Mirror(name: string, servicer: bool, labels: Labels, url: string, username: string,
                           password: string, sshKey: string)

  /** A canonical URL and the kind of its scheme. */
  datatype Canonical = Canonical(url: string, kind: string)

  /** How mirrors are named from a URL and a scope key, and how URLs are made canonical (None when rejected). */
  datatype Settings = Settings(nameFor: (string, string) -> string, canonical: string -> Option<Canonical>)

  /* ---------- Requests and secrets ---------- */

  function Scope(request: Request): string {
    if TrimSpace(request.scope) != "" then TrimSpace(request.scope)
    else if TrimSpace(request.tenantName) != "" then "tenant"
    else "project"
  }

  function ScopeHashKey(request: Request): string {
    if Scope(request) == "tenant" then "tenant/" + TrimSpace(request.tenantName)
    else "project/" + TrimSpace(request.projectName)
  }

  function ArgoRepoSecretName(settings: Settings, request: Request): string {
    settings.nameFor(request.url, ScopeHashKey(request))
  }

  function RepositorySecret(request: Request, name: string, labels: Labels): Secret {
    var http, ssh := request.authType == "http", request.authType == "ssh";
    Secret(name, labels, request.displayName, request.url, request.authType,
           if http then request.username else "", if http then request.password else "",
           if ssh then request.sshKey else "")
  }

  function TrimPrefix(s: string, prefix: string): string {
    if prefix <= s then s[|prefix|..] else s
  }

  function RepositoryName(secret: Secret): string {
    var scope, tenant := secret.labels.scope, secret.labels.tenant;
    if (scope == "tenant" || scope == "") && tenant != "" then TrimPrefix(secret.name, TenantSecretName(tenant, ""))
    else TrimPrefix(secret.name, "repo-")
  }

  function RequestFromSecret(secret: Secret): Request {
    Request(RepositoryName(secret), secret.displayName, secret.labels.scope, secret.labels.tenant,
            secret.labels.project, secret.url, secret.authType, secret.username, secret.password, secret.sshKey)
  }

  function ProjectSecretName(repository: string): string {
    "repo-" + repository
  }

  function TenantSecretName(tenant: string, repository: string): string {
    "repo-tenant-" + tenant + "-" + repository
  }

  function ProjectLabels(project: string): Labels {
    Labels("project", "", project)
  }

  function TenantLabels(tenant: string): Labels {
    Labels("tenant", tenant, "")
  }

  function MirrorSecret(settings: Settings, request: Request): Mirror {
    var http, ssh := request.authType == "http", request.authType == "ssh";
    Mirror(ArgoRepoSecretName(settings, request), true,
           Labels(Scope(request), request.tenantName, request.projectName), request.url,
           if http then request.username else "", if http then request.password else "",
           if ssh then request.sshKey else "")
  }

  /** The request as the handlers of a project, or of a tenant, complete it. */
  function ForProject(request: Request, project: string): Option<Request> {
    if request.projectName != "" && TrimSpace(request.projectName) != project then None
    else if request.tenantName != "" || TrimSpace(request.scope) == "tenant" then None
    else Some(request.(scope := "project", projectName := project))
  }

  function ForTenant(request: Request, tenant: string): Option<Request> {
    if request.tenantName != "" && TrimSpace(request.tenantName) != tenant then None
    else if request.projectName != "" || TrimSpace(request.scope) == "project" then None
    else Some(request.(scope := "tenant", tenantName := tenant))
  }

  predicate IsNameChar(c: char) {
    'a' <= c <= 'z' || '0' <= c <= '9'
  }

  predicate NameValid(name: string) {
    && 2 <= |name| <= 63
    && 'a' <= name[0] <= 'z' && IsNameChar(name[|name| - 1])
    && forall i | 0 <= i < |name| :: IsNameChar(name[i]) || name[i] == '-'
  }

  predicate OwnerValid(request: Request) {
    var scope := if request.scope != "" then request.scope
                 else if request.tenantName != "" then "tenant" else "project";
    if scope == "project" then request.projectName != "" && request.tenantName == ""
    else scope == "tenant" && request.tenantName != "" && request.projectName == ""
  }

  const KEY_MARK := "PRIVATE KEY"

  predicate CredentialsValid(request: Request, kind: string) {
    if request.authType == "none" then
      kind == "https" && request.username == "" && request.password == "" && request.sshKey == ""
    else if request.authType == "http" then
      kind == "https" && request.username != "" && request.password != "" && request.sshKey == ""
    else
      && request.authType == "ssh" && kind == "ssh" && request.username == "" && request.password == ""
      && Contains(request.sshKey, KEY_MARK)
  }

  /** Validation trims every field, makes the URL canonical and the auth type explicit, and otherwise accepts or
      rejects. */
  function Validated(settings: Settings, request: Request): Option<Request> {
    var trimmed := Request(TrimSpace(request.name), TrimSpace(request.displayName), TrimSpace(request.scope),
                           TrimSpace(request.tenantName), TrimSpace(request.projectName), TrimSpace(request.url),
                           TrimSpace(request.authType), TrimSpace(request.username), TrimSpace(request.password),
                           TrimSpace(request.sshKey));
    if !NameValid(trimmed.name) || trimmed.displayName == "" || !OwnerValid(trimmed) || trimmed.url == "" then None
    else match settings.canonical(trimmed.url)
      case None => None
      case Some(canonical) =>
        var valid := trimmed.(url := canonical.url, authType := FirstNonEmpty(trimmed.authType, "none"));
        if CredentialsValid(valid, canonical.kind) then Some(valid) else None
  }

  lemma ValidatedKeepsOwner(settings: Settings, request: Request)
    requires Validated(settings, request).Some?
    ensures var valid := Validated(settings, request).value;
            && valid.scope == TrimSpace(request.scope)
            && valid.tenantName == TrimSpace(request.tenantName)
            && valid.projectName == TrimSpace(request.projectName)
  {
  }

  /** The mirror a stored registration belongs to, computed from what was stored. */
  function MirrorOf(settings: Settings): Secret -> string {
    secret => ArgoRepoSecretName(settings, RequestFromSecret(secret))
  }

  /** Storing a validated request and reading it back never changes which mirror it belongs to. */
  lemma ProjectReadBack(settings: Settings, request: Request, project: string, name: string)
    requires TrimSpace(project) == project
    requires ForProject(request, project).Some? && Validated(settings, ForProject(request, project).value).Some?
    ensures var valid := Validated(settings, ForProject(request, project).value).value;
            MirrorOf(settings)(RepositorySecret(valid, name, ProjectLabels(project)))
                == ArgoRepoSecretName(settings, valid)
  {
    ValidatedKeepsOwner(settings, ForProject(request, project).value);
    TrimmedStays("project", IsSpace);
  }

  lemma TenantReadBack(settings: Settings, request: Request, tenant: string, name: string)
    requires TrimSpace(tenant) == tenant
    requires ForTenant(request, tenant).Some? && Validated(settings, ForTenant(request, tenant).value).Some?
    ensures var valid := Validated(settings, ForTenant(request, tenant).value).value;
            MirrorOf(settings)(RepositorySecret(valid, name, TenantLabels(tenant)))
                == ArgoRepoSecretName(settings, valid)
  {
    ValidatedKeepsOwner(settings, ForTenant(request, tenant).value);
    TrimmedStays("tenant", IsSpace);
  }

  /* ---------- The two stores and the handlers ---------- */

  datatype State = State(repositories: map<string, Secret>, mirrors: map<string, Mirror>)

  /** Which API calls of a handler fail; a failing call changes nothing. */
  datatype CreateFaults = CreateFaults(create: bool, getMirror: bool, writeMirror: bool, rollback: bool)

  datatype DeleteFaults = DeleteFaults(get: bool, dependencies: bool, list: bool, getMirror: bool, deleteMirror: bool,
                                       delete: bool)

  const NO_CREATE_FAULTS := CreateFaults(false, false, false, false)
  const NO_DELETE_FAULTS := DeleteFaults(false, false, false, false, false, false)

  datatype Outcome = Done | Rejected | Conflict | Failed

  /** Labels laid over existing ones. */
  function Over(existing: Labels, desired: Labels): Labels {
    Labels(FirstNonEmpty(desired.scope, existing.scope), FirstNonEmpty(desired.tenant, existing.tenant),
           FirstNonEmpty(desired.project, existing.project))
  }

  function MirrorWritten(mirrors: map<string, Mirror>, mirror: Mirror): map<string, Mirror> {
    var labels := if mirror.name in mirrors then Over(mirrors[mirror.name].labels, mirror.labels) else mirror.labels;
    mirrors[mirror.name := mirror.(labels := labels)]
  }

  function AfterCreate(state: State, secret: Secret, mirror: Mirror, faults: CreateFaults): State {
    if faults.create || secret.name in state.repositories then state
    else
      var stored := state.(repositories := state.repositories[secret.name := secret]);
      if faults.getMirror || faults.writeMirror then (if faults.rollback then stored else state)
      else stored.(mirrors := MirrorWritten(state.mirrors, mirror))
  }

  predicate SharesMirror(mirrorOf: Secret -> string, repositories: map<string, Secret>, removed: Secret) {
    exists name | name in repositories ::
      repositories[name].name != removed.name && mirrorOf(repositories[name]) == mirrorOf(removed)
  }

  function AfterCleanup(mirrorOf: Secret -> string, state: State, removed: Secret): State {
    if SharesMirror(mirrorOf, state.repositories, removed) then state
    else state.(mirrors := state.mirrors - {mirrorOf(removed)})
  }

  predicate CleanupFails(mirrorOf: Secret -> string, state: State, removed: Secret, faults: DeleteFaults) {
    || faults.list
    || (!SharesMirror(mirrorOf, state.repositories, removed)
        && (faults.getMirror || (mirrorOf(removed) in state.mirrors && faults.deleteMirror)))
  }

  function AfterDelete(mirrorOf: Secret -> string, state: State, name: string, owned: Labels -> bool, inUse: bool,
                       faults: DeleteFaults): State
  {
    if faults.get || name !in state.repositories then state
    else
      var secret := state.repositories[name];
      if !owned(secret.labels) || faults.dependencies || inUse then state
      else if CleanupFails(mirrorOf, state, secret, faults) then state
      else
        var cleaned := AfterCleanup(mirrorOf, state, secret);
        if faults.delete then cleaned else cleaned.(repositories := cleaned.repositories - {name})
  }

  function CreateOutcome(state: State, secret: Secret, faults: CreateFaults): Outcome {
    if faults.create || secret.name in state.repositories then Failed
    else if faults.getMirror || faults.writeMirror then Failed
    else Done
  }

  function DeleteOutcome(mirrorOf: Secret -> string, state: State, name: string, owned: Labels -> bool, inUse: bool,
                         faults: DeleteFaults): Outcome
  {
    if faults.get || name !in state.repositories then Failed
    else if !owned(state.repositories[name].labels) then Rejected
    else if faults.dependencies then Failed
    else if inUse then Conflict
    else if CleanupFails(mirrorOf, state, state.repositories[name], faults) || faults.delete then Failed
    else Done
  }

  /** Every secret is stored under its own name. */
  ghost predicate Named(state: State) {
    && (forall name | name in state.repositories :: state.repositories[name].name == name)
    && (forall name | name in state.mirrors :: state.mirrors[name].name == name)
  }

  class Handlers {
    const settings: Settings
    var repositories: map<string, Secret>
    var mirrors: map<string, Mirror>

    function Current(): State
      reads this
    {
      State(repositories, mirrors)
    }

    constructor (settings: Settings, foreign: map<string, Mirror>)
      ensures this.settings == settings && Current() == State(map[], foreign)
    {
      this.settings := settings;
      repositories, mirrors := map[], foreign;
    }

    /** Creates the mirror or brings the existing one up to date. */
    method EnsureMirror(request: Request, faults: CreateFaults) returns (ok: bool)
      requires Named(Current())
      modifies this`mirrors
      ensures ok == !(faults.getMirror || faults.writeMirror)
      ensures mirrors == if ok then MirrorWritten(old(mirrors), MirrorSecret(settings, request)) else old(mirrors)
    {
      var mirror := MirrorSecret(settings, request);
      if faults.getMirror {
        return false;
      }
      if mirror.name !in mirrors {
        if faults.writeMirror {
          return false;
        }
        mirrors := mirrors[mirror.name := mirror];
        return true;
      }
      var existing := mirrors[mirror.name];
      existing := existing.(url := mirror.url, username := mirror.username, password := mirror.password,
                            sshKey := mirror.sshKey);
      existing := existing.(servicer := true, labels := Over(existing.labels, mirror.labels));
      if faults.writeMirror {
        return false;
      }
      mirrors := mirrors[mirror.name := existing];
      return true;
    }

    /** Stores the repository, mirrors it, and takes it back if mirroring fails. */
    method Register(request: Request, secret: Secret, faults: CreateFaults) returns (outcome: Outcome)
      requires Named(Current())
      modifies this
      ensures Current() == AfterCreate(old(Current()), secret, MirrorSecret(settings, request), faults)
      ensures outcome == CreateOutcome(old(Current()), secret, faults)
    {
      if faults.create || secret.name in repositories {
        return Failed;
      }
      repositories := repositories[secret.name := secret];
      var ok := EnsureMirror(request, faults);
      if !ok {
        if !faults.rollback {
          repositories := repositories - {secret.name};
          assert repositories == old(repositories);
        }
        return Failed;
      }
      return Done;
    }

    /** Removes the mirror of a repository that is about to go, unless another repository needs it. */
    method CleanupMirrorIfUnused(removed: Secret, faults: DeleteFaults) returns (ok: bool)
      modifies this`mirrors
      ensures ok == !CleanupFails(MirrorOf(settings), old(Current()), removed, faults)
      ensures Current() == if ok then AfterCleanup(MirrorOf(settings), old(Current()), removed) else old(Current())
    {
      var mirrorName := MirrorOf(settings)(removed);
      if faults.list {
        return false;
      }
      var names := repositories.Keys;
      while names != {}
        invariant names <= repositories.Keys
        invariant forall name | name in repositories.Keys - names ::
                    !(repositories[name].name != removed.name && MirrorOf(settings)(repositories[name]) == mirrorName)
        decreases |names|
      {
        var name :| name in names;
        if repositories[name].name != removed.name && MirrorOf(settings)(repositories[name]) == mirrorName {
          return true;
        }
        names := names - {name};
      }
      if faults.getMirror {
        return false;
      }
      if mirrorName !in mirrors {
        assert mirrors - {mirrorName} == mirrors;
        return true;
      }
      if faults.deleteMirror {
        return false;
      }
      mirrors := mirrors - {mirrorName};
      return true;
    }

    method Unregister(name: string, owned: Labels -> bool, inUse: bool, faults: DeleteFaults) returns (outcome: Outcome)
      modifies this
      ensures Current() == AfterDelete(MirrorOf(settings), old(Current()), name, owned, inUse, faults)
      ensures outcome == DeleteOutcome(MirrorOf(settings), old(Current()), name, owned, inUse, faults)
    {
      if faults.get || name !in repositories {
        return Failed;
      }
      var secret := repositories[name];
      if !owned(secret.labels) {
        return Rejected;
      }
      if faults.dependencies {
        return Failed;
      }
      if inUse {
        return Conflict;
      }
      var ok := CleanupMirrorIfUnused(secret, faults);
      if !ok || faults.delete {
        return Failed;
      }
      repositories := repositories - {name};
      return Done;
    }

    /* The four handlers, after authorisation: the owner comes trimmed from the request path. */

    method CreateProjectRepository(project: string, request: Request, faults: CreateFaults) returns (outcome: Outcome)
      requires Named(Current())
      modifies this
      ensures Current() == Step(settings, old(Current()), CreateForProject(project, request, faults))
      ensures outcome == Answer(settings, old(Current()), CreateForProject(project, request, faults))
    {
      var completed := ForProject(request, project);
      if completed.None? {
        return Rejected;
      }
      var valid := Validated(settings, completed.value);
      if valid.None? {
        return Rejected;
      }
      var secret := RepositorySecret(valid.value, ProjectSecretName(valid.value.name), ProjectLabels(project));
      assert Completed(settings, CreateForProject(project, request, faults)) == Some(Registration(valid.value, secret));
      outcome := Register(valid.value, secret, faults);
    }

    method CreateTenantRepository(tenant: string, request: Request, faults: CreateFaults) returns (outcome: Outcome)
      requires Named(Current())
      modifies this
      ensures Current() == Step(settings, old(Current()), CreateForTenant(tenant, request, faults))
      ensures outcome == Answer(settings, old(Current()), CreateForTenant(tenant, request, faults))
    {
      var completed := ForTenant(request, tenant);
      if completed.None? {
        return Rejected;
      }
      var valid := Validated(settings, completed.value);
      if valid.None? {
        return Rejected;
      }
      var secret := RepositorySecret(valid.value, TenantSecretName(tenant, valid.value.name), TenantLabels(tenant));
      assert Completed(settings, CreateForTenant(tenant, request, faults)) == Some(Registration(valid.value, secret));
      outcome := Register(valid.value, secret, faults);
    }

    method DeleteProjectRepository(project: string, repository: string, inUse: bool, faults: DeleteFaults)
      returns (outcome: Outcome)
      modifies this
      ensures Current() == Step(settings, old(Current()), DeleteFromProject(project, repository, inUse, faults))
      ensures outcome == Answer(settings, old(Current()), DeleteFromProject(project, repository, inUse, faults))
    {
      outcome := Unregister(ProjectSecretName(repository), OwnedByProject(project), inUse, faults);
    }

    method DeleteTenantRepository(tenant: string, repository: string, inUse: bool, faults: DeleteFaults)
      returns (outcome: Outcome)
      modifies this
      ensures Current() == Step(settings, old(Current()), DeleteFromTenant(tenant, repository, inUse, faults))
      ensures outcome == Answer(settings, old(Current()), DeleteFromTenant(tenant, repository, inUse, faults))
    {
      outcome := Unregister(TenantSecretName(tenant, repository), OwnedByTenant(tenant), inUse, faults);
    }
  }

  /* ---------- What one request does ---------- */

  datatype Op =
    | CreateForProject(project: string, request: Request, createFaults: CreateFaults)
    | CreateForTenant(tenant: string, request: Request, createFaults: CreateFaults)
    | DeleteFromProject(project: string, repository: string, inUse: bool, deleteFaults: DeleteFaults)
    | DeleteFromTenant(tenant: string, repository: string, inUse: bool, deleteFaults: DeleteFaults)

  predicate Creates(op: Op) {
    op.CreateForProject? || op.CreateForTenant?
  }

  predicate Faultless(op: Op) {
    if Creates(op) then op.createFaults == NO_CREATE_FAULTS else op.deleteFaults == NO_DELETE_FAULTS
  }

  /** Path values reach the handlers trimmed. */
  predicate OwnerTrimmed(op: Op) {
    match op
    case CreateForProject(project, _, _) => TrimSpace(project) == project
    case CreateForTenant(tenant, _, _) => TrimSpace(tenant) == tenant
    case _ => true
  }

  function OwnedByProject(project: string): Labels -> bool {
    (labels: Labels) => labels.project == project
  }

  function OwnedByTenant(tenant: string): Labels -> bool {
    (labels: Labels) => labels.tenant == tenant
  }

  /** A request that passed validation, and the secret it is stored as. */
  datatype Registration = Registration(request: Request, secret: Secret)

  function Completed(settings: Settings, op: Op): Option<Registration> {
    match op
    case CreateForProject(project, request, _) =>
      var completed := ForProject(request, project);
      if completed.None? || Validated(settings, completed.value).None? then None
      else
        var valid := Validated(settings, completed.value).value;
        Some(Registration(valid, RepositorySecret(valid, ProjectSecretName(valid.name), ProjectLabels(project))))
    case CreateForTenant(tenant, request, _) =>
      var completed := ForTenant(request, tenant);
      if completed.None? || Validated(settings, completed.value).None? then None
      else
        var valid := Validated(settings, completed.value).value;
        Some(Registration(valid, RepositorySecret(valid, TenantSecretName(tenant, valid.name), TenantLabels(tenant))))
    case _ => None
  }

  /** The secret that a deletion is about, and whom it must belong to. */
  function Doomed(op: Op): string
    requires !Creates(op)
  {
    match op
    case DeleteFromProject(_, repository, _, _) => ProjectSecretName(repository)
    case DeleteFromTenant(tenant, repository, _, _) => TenantSecretName(tenant, repository)
  }

  function Owner(op: Op): Labels -> bool
    requires !Creates(op)
  {
    match op
    case DeleteFromProject(project, _, _, _) => OwnedByProject(project)
    case DeleteFromTenant(tenant, _, _, _) => OwnedByTenant(tenant)
  }

  function AfterRequest(settings: Settings, state: State, accepted: Option<Registration>, faults: CreateFaults): State {
    if accepted.None? then state
    else AfterCreate(state, accepted.value.secret, MirrorSecret(settings, accepted.value.request), faults)
  }

  function RequestOutcome(state: State, accepted: Option<Registration>, faults: CreateFaults): Outcome {
    if accepted.None? then Rejected else CreateOutcome(state, accepted.value.secret, faults)
  }

  function Step(settings: Settings, state: State, op: Op): State {
    if Creates(op) then AfterRequest(settings, state, Completed(settings, op), op.createFaults)
    else AfterDelete(MirrorOf(settings), state, Doomed(op), Owner(op), op.inUse, op.deleteFaults)
  }

  function Answer(settings: Settings, state: State, op: Op): Outcome {
    if Creates(op) then RequestOutcome(state, Completed(settings, op), op.createFaults)
    else DeleteOutcome(MirrorOf(settings), state, Doomed(op), Owner(op), op.inUse, op.deleteFaults)
  }

  /** The data of a mirror are those of a registration. */
  predicate Carries(mirror: Mirror, secret: Secret) {
    && mirror.url == secret.url && mirror.username == secret.username && mirror.password == secret.password
    && mirror.sshKey == secret.sshKey
  }

  /** What a request stores belongs, when it is read back, to the mirror that the request writes, with the same data. */
  lemma CompletedReadsBack(settings: Settings, op: Op)
    requires OwnerTrimmed(op) && Completed(settings, op).Some?
    ensures var accepted := Completed(settings, op).value;
            && MirrorOf(settings)(accepted.secret) == MirrorSecret(settings, accepted.request).name
            && Carries(MirrorSecret(settings, accepted.request), accepted.secret)
  {
    match op {
      case CreateForProject(project, request, _) =>
        ProjectReadBack(settings, request, project, Completed(settings, op).value.secret.name);
      case CreateForTenant(tenant, request, _) =>
        TenantReadBack(settings, request, tenant, Completed(settings, op).value.secret.name);
    }
  }

  lemma CreationIsTrue(state: State, secret: Secret, mirror: Mirror, faults: CreateFaults)
    requires Named(state)
    ensures var after := AfterCreate(state, secret, mirror, faults);
            if CreateOutcome(state, secret, faults).Done? then
              && secret.name !in state.repositories
              && after == State(state.repositories[secret.name := secret], MirrorWritten(state.mirrors, mirror))
            else after.mirrors == state.mirrors && (faults == NO_CREATE_FAULTS ==> after == state)
  {
  }

  lemma DeletionIsTrue(mirrorOf: Secret -> string, state: State, name: string, owned: Labels -> bool, inUse: bool,
                       faults: DeleteFaults)
    ensures var after, outcome := AfterDelete(mirrorOf, state, name, owned, inUse, faults),
                                  DeleteOutcome(mirrorOf, state, name, owned, inUse, faults);
            && after.repositories == (if outcome.Done? then state.repositories - {name} else state.repositories)
            && (outcome.Done? ==> name in state.repositories)
            && (forall m | m in after.mirrors :: m in state.mirrors && after.mirrors[m] == state.mirrors[m])
            && (outcome.Rejected? || outcome.Conflict? ==> after == state)
            && (faults == NO_DELETE_FAULTS && !outcome.Done? ==> after == state)
  {
  }

  lemma WritesOneMirror(mirrors: map<string, Mirror>, mirror: Mirror)
    ensures var after := MirrorWritten(mirrors, mirror);
            && after.Keys == mirrors.Keys + {mirror.name}
            && after[mirror.name] == mirror.(labels := after[mirror.name].labels)
            && forall m | m in mirrors && m != mirror.name :: after[m] == mirrors[m]
  {
  }

  /** Done means that the registration is stored and its mirror written. */
  lemma DoneCreates(settings: Settings, state: State, op: Op)
    requires Named(state) && OwnerTrimmed(op) && Creates(op) && Answer(settings, state, op).Done?
    ensures Completed(settings, op).Some?
    ensures var secret, after := Completed(settings, op).value.secret, Step(settings, state, op);
            var mirror := MirrorOf(settings)(secret);
            && secret.name !in state.repositories && after.repositories == state.repositories[secret.name := secret]
            && after.mirrors.Keys == state.mirrors.Keys + {mirror}
            && after.mirrors[mirror].servicer && Carries(after.mirrors[mirror], secret)
            && forall m | m in state.mirrors && m != mirror :: after.mirrors[m] == state.mirrors[m]
  {
    var accepted := Completed(settings, op).value;
    var mirror := MirrorSecret(settings, accepted.request);
    CompletedReadsBack(settings, op);
    CreationIsTrue(state, accepted.secret, mirror, op.createFaults);
    WritesOneMirror(state.mirrors, mirror);
  }

  /** Done means removed, and nothing else removes. */
  lemma DoneDeletes(settings: Settings, state: State, op: Op)
    requires !Creates(op)
    ensures Answer(settings, state, op).Done?
       <==> Doomed(op) in state.repositories && Doomed(op) !in Step(settings, state, op).repositories
    ensures Step(settings, state, op).repositories
         == if Answer(settings, state, op).Done? then state.repositories - {Doomed(op)} else state.repositories
  {
    DeletionIsTrue(MirrorOf(settings), state, Doomed(op), Owner(op), op.inUse, op.deleteFaults);
  }

  /** Only a successful creation writes mirrors. */
  lemma OthersWriteNoMirror(settings: Settings, state: State, op: Op)
    requires Named(state) && !(Creates(op) && Answer(settings, state, op).Done?)
    ensures var after := Step(settings, state, op).mirrors;
            forall m | m in after :: m in state.mirrors && after[m] == state.mirrors[m]
  {
    if !Creates(op) {
      DeletionIsTrue(MirrorOf(settings), state, Doomed(op), Owner(op), op.inUse, op.deleteFaults);
    } else if Completed(settings, op).Some? {
      var accepted := Completed(settings, op).value;
      CreationIsTrue(state, accepted.secret, MirrorSecret(settings, accepted.request), op.createFaults);
    }
  }

  /** A refusal leaves everything untouched, and without failing calls so does every answer but done. */
  lemma RefusalChangesNothing(settings: Settings, state: State, op: Op)
    requires Named(state)
    requires var answer := Answer(settings, state, op);
             answer.Rejected? || answer.Conflict? || (Faultless(op) && !answer.Done?)
    ensures Step(settings, state, op) == state
  {
    if !Creates(op) {
      DeletionIsTrue(MirrorOf(settings), state, Doomed(op), Owner(op), op.inUse, op.deleteFaults);
    } else if Completed(settings, op).Some? {
      var accepted := Completed(settings, op).value;
      CreationIsTrue(state, accepted.secret, MirrorSecret(settings, accepted.request), op.createFaults);
    }
  }
}
