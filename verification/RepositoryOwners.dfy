/** Whose registrations the repository handlers store and remove, told by requests and stored labels alone. */
module RepositoryOwners {
  import opened Options
  import opened Repositories
  import opened RepositoryRuns
  import opened Text

  /* ---------- What a creation stores ---------- */

  /** The secret of a request: the request's own texts without outer blanks, the canonical URL, and the credentials of
      its auth type. */
  ghost predicate StoredAs(settings: Settings, request: Request, name: string, labels: Labels, secret: Secret) {
    && secret.name == name && secret.labels == labels && secret.displayName == TrimSpace(request.displayName)
    && (exists kind :: settings.canonical(TrimSpace(request.url)) == Some(Canonical(secret.url, kind)))
    && secret.authType == (if TrimSpace(request.authType) == "" then "none" else TrimSpace(request.authType))
    && secret.username == (if secret.authType == "http" then TrimSpace(request.username) else "")
    && secret.password == (if secret.authType == "http" then TrimSpace(request.password) else "")
    && secret.sshKey == (if secret.authType == "ssh" then TrimSpace(request.sshKey) else "")
  }

  lemma ValidatedTexts(settings: Settings, request: Request)
    requires Validated(settings, request).Some?
    ensures var valid := Validated(settings, request).value;
            && valid.name == TrimSpace(request.name) && valid.displayName == TrimSpace(request.displayName)
            && (exists kind :: settings.canonical(TrimSpace(request.url)) == Some(Canonical(valid.url, kind)))
            && valid.authType == (if TrimSpace(request.authType) == "" then "none" else TrimSpace(request.authType))
            && valid.username == TrimSpace(request.username) && valid.password == TrimSpace(request.password)
            && valid.sshKey == TrimSpace(request.sshKey)
  {
    var canonical := settings.canonical(TrimSpace(request.url)).value;
    assert settings.canonical(TrimSpace(request.url)) == Some(Canonical(canonical.url, canonical.kind));
  }

  /** A project's creation that is done has stored what was asked for, under the project's label and the name the
      project registrations have, and has written the mirror of its canonical URL and the project. */
  lemma ProjectCreationStores(settings: Settings, state: State, project: string, request: Request, faults: CreateFaults)
    requires Named(state) && TrimSpace(project) == project
    requires Answer(settings, state, CreateForProject(project, request, faults)).Done?
    ensures var name := "repo-" + TrimSpace(request.name);
            var after := Step(settings, state, CreateForProject(project, request, faults));
            && name !in state.repositories && name in after.repositories
            && after.repositories == state.repositories[name := after.repositories[name]]
            && StoredAs(settings, request, name, Labels("project", "", project), after.repositories[name])
            && MirroredAs(settings, state, after, after.repositories[name], "project/" + project)
  {
    var op := CreateForProject(project, request, faults);
    DoneCreates(settings, state, op);
    ValidatedTexts(settings, ForProject(request, project).value);
    MirrorLabels(settings, state, op);
    MirrorOfProject(settings, Completed(settings, op).value.secret, project);
  }

  lemma TenantCreationStores(settings: Settings, state: State, tenant: string, request: Request, faults: CreateFaults)
    requires Named(state) && TrimSpace(tenant) == tenant
    requires Answer(settings, state, CreateForTenant(tenant, request, faults)).Done?
    ensures var name := "repo-tenant-" + tenant + "-" + TrimSpace(request.name);
            var after := Step(settings, state, CreateForTenant(tenant, request, faults));
            && name !in state.repositories && name in after.repositories
            && after.repositories == state.repositories[name := after.repositories[name]]
            && StoredAs(settings, request, name, Labels("tenant", tenant, ""), after.repositories[name])
            && MirroredAs(settings, state, after, after.repositories[name], "tenant/" + tenant)
  {
    var op := CreateForTenant(tenant, request, faults);
    DoneCreates(settings, state, op);
    ValidatedTexts(settings, ForTenant(request, tenant).value);
    MirrorLabels(settings, state, op);
    MirrorOfTenant(settings, Completed(settings, op).value.secret, tenant);
  }

  /** The mirror of a URL within a scope now carries the secret's data and is marked as made by the handlers; no other
      mirror has changed. */
  ghost predicate MirroredAs(settings: Settings, before: State, after: State, secret: Secret, scopeKey: string) {
    var mirror := settings.nameFor(secret.url, scopeKey);
    && mirror in after.mirrors && after.mirrors == before.mirrors[mirror := after.mirrors[mirror]]
    && after.mirrors[mirror].servicer && after.mirrors[mirror].url == secret.url
    && after.mirrors[mirror].username == secret.username && after.mirrors[mirror].password == secret.password
    && after.mirrors[mirror].sshKey == secret.sshKey
    && Labelled(if mirror in before.mirrors then before.mirrors[mirror].labels else Labels("", "", ""),
                secret.labels, after.mirrors[mirror].labels)
  }

  /** The secret's labels are laid over those that the mirror had. */
  ghost predicate Labelled(before: Labels, labels: Labels, after: Labels) {
    && after.scope == labels.scope
    && after.tenant == (if labels.tenant == "" then before.tenant else labels.tenant)
    && after.project == (if labels.project == "" then before.project else labels.project)
  }

  lemma WrittenLabels(mirrors: map<string, Mirror>, mirror: Mirror)
    requires mirror.labels.scope != ""
    ensures var after := MirrorWritten(mirrors, mirror);
            && mirror.name in after
            && Labelled(if mirror.name in mirrors then mirrors[mirror.name].labels else Labels("", "", ""),
                        mirror.labels, after[mirror.name].labels)
  {
  }

  lemma MirrorHasSecretLabels(settings: Settings, op: Op)
    requires OwnerTrimmed(op) && Completed(settings, op).Some?
    ensures var accepted := Completed(settings, op).value;
            MirrorSecret(settings, accepted.request).labels == accepted.secret.labels
            && accepted.secret.labels.scope != ""
  {
    TrimmedStays("project", IsSpace);
    TrimmedStays("tenant", IsSpace);
    match op {
      case CreateForProject(project, request, _) =>
        ValidatedKeepsOwner(settings, ForProject(request, project).value);
        ProjectOwner(settings, request, project);
      case CreateForTenant(tenant, request, _) =>
        ValidatedKeepsOwner(settings, ForTenant(request, tenant).value);
        TenantOwner(settings, request, tenant);
    }
  }

  lemma ProjectOwner(settings: Settings, request: Request, project: string)
    requires TrimSpace(project) == project
    requires ForProject(request, project).Some? && Validated(settings, ForProject(request, project).value).Some?
    ensures var valid := Validated(settings, ForProject(request, project).value).value;
            valid.scope == "project" && valid.tenantName == "" && valid.projectName == project
  {
    TrimmedStays("project", IsSpace);
  }

  lemma TenantOwner(settings: Settings, request: Request, tenant: string)
    requires TrimSpace(tenant) == tenant
    requires ForTenant(request, tenant).Some? && Validated(settings, ForTenant(request, tenant).value).Some?
    ensures var valid := Validated(settings, ForTenant(request, tenant).value).value;
            valid.scope == "tenant" && valid.tenantName == tenant && valid.projectName == ""
  {
    TrimmedStays("tenant", IsSpace);
  }

  lemma MirrorLabels(settings: Settings, state: State, op: Op)
    requires Named(state) && OwnerTrimmed(op) && Creates(op) && Answer(settings, state, op).Done?
    ensures Completed(settings, op).Some?
    ensures var secret := Completed(settings, op).value.secret;
            var mirror, after := MirrorOf(settings)(secret), Step(settings, state, op);
            && mirror in after.mirrors
            && Labelled(if mirror in state.mirrors then state.mirrors[mirror].labels else Labels("", "", ""),
                        secret.labels, after.mirrors[mirror].labels)
  {
    var accepted := Completed(settings, op).value;
    var mirror := MirrorSecret(settings, accepted.request);
    CompletedReadsBack(settings, op);
    MirrorHasSecretLabels(settings, op);
    CreationIsTrue(state, accepted.secret, mirror, op.createFaults);
    WrittenLabels(state.mirrors, mirror);
  }

  /** What is read back from a stored registration is what was stored, under the name that was asked for. */
  lemma StoredReadsBack(secret: Secret, owner: string, name: string)
    requires || (secret.labels == Labels("project", "", owner) && secret.name == "repo-" + name)
             || (secret.labels == Labels("tenant", owner, "") && owner != ""
                 && secret.name == "repo-tenant-" + owner + "-" + name)
    ensures RequestFromSecret(secret)
         == Request(name, secret.displayName, secret.labels.scope, secret.labels.tenant, secret.labels.project,
                    secret.url, secret.authType, secret.username, secret.password, secret.sshKey)
  {
    if secret.labels.tenant == "" {
      assert secret.name[|"repo-"|..] == name;
    } else {
      assert secret.name == TenantSecretName(owner, "") + name;
    }
  }

  /** A stored registration of a project belongs to the mirror of its URL and that project. */
  lemma MirrorOfProject(settings: Settings, secret: Secret, project: string)
    requires secret.labels == Labels("project", "", project) && TrimSpace(project) == project
    ensures MirrorOf(settings)(secret) == settings.nameFor(secret.url, "project/" + project)
  {
    TrimmedStays("project", IsSpace);
  }

  lemma MirrorOfTenant(settings: Settings, secret: Secret, tenant: string)
    requires secret.labels == Labels("tenant", tenant, "") && TrimSpace(tenant) == tenant
    ensures MirrorOf(settings)(secret) == settings.nameFor(secret.url, "tenant/" + tenant)
  {
    TrimmedStays("tenant", IsSpace);
  }

  /* ---------- Which creations are accepted ---------- */

  /** A lower-case letter, then letters, digits and dashes, of which the last is no dash; at most 63 characters. */
  ghost predicate LegalName(name: string) {
    && 2 <= |name| <= 63 && 'a' <= name[0] <= 'z' && name[|name| - 1] != '-'
    && forall c | c in name :: 'a' <= c <= 'z' || '0' <= c <= '9' || c == '-'
  }

  ghost predicate Blank(s: string) {
    TrimSpace(s) == ""
  }

  /** Without credentials and with a password only over HTTPS, with a private key only over SSH, and never two of them.
      */
  ghost predicate CredentialsFit(request: Request, kind: string) {
    var auth, key := TrimSpace(request.authType), TrimSpace(request.sshKey);
    || (auth in ["", "none"] && kind == "https" && Blank(request.username) && Blank(request.password) && key == "")
    || (auth == "http" && kind == "https" && !Blank(request.username) && !Blank(request.password) && key == "")
    || (auth == "ssh" && kind == "ssh" && Blank(request.username) && Blank(request.password)
        && exists k :: 0 <= k <= |key| && "PRIVATE KEY" <= key[k..])
  }

  ghost predicate Acceptable(settings: Settings, request: Request) {
    && LegalName(TrimSpace(request.name)) && !Blank(request.displayName) && !Blank(request.url)
    && settings.canonical(TrimSpace(request.url)).Some?
    && CredentialsFit(request, settings.canonical(TrimSpace(request.url)).value.kind)
  }

  lemma LegalNameIff(name: string)
    ensures LegalName(name) <==> NameValid(name)
  {
    if NameValid(name) {
      forall c | c in name ensures 'a' <= c <= 'z' || '0' <= c <= '9' || c == '-' {
        var i :| 0 <= i < |name| && name[i] == c;
      }
    }
    if LegalName(name) {
      assert forall i | 0 <= i < |name| :: name[i] in name;
    }
  }

  lemma CredentialsFitIff(request: Request, valid: Request, kind: string)
    requires valid.authType == FirstNonEmpty(TrimSpace(request.authType), "none")
    requires valid.username == TrimSpace(request.username) && valid.password == TrimSpace(request.password)
             && valid.sshKey == TrimSpace(request.sshKey)
    ensures CredentialsFit(request, kind) <==> CredentialsValid(valid, kind)
  {
    ContainsIff(valid.sshKey, KEY_MARK);
  }

  lemma OwnerFitsIff(request: Request, trimmed: Request)
    requires request.scope == "project" || request.scope == "tenant"
    requires trimmed.scope == TrimSpace(request.scope) && trimmed.projectName == TrimSpace(request.projectName)
             && trimmed.tenantName == TrimSpace(request.tenantName)
    ensures OwnerValid(trimmed)
       <==> && !Blank(if request.scope == "project" then request.projectName else request.tenantName)
            && Blank(if request.scope == "project" then request.tenantName else request.projectName)
  {
    TrimmedStays("project", IsSpace);
    TrimmedStays("tenant", IsSpace);
  }

  lemma ValidatedIff(settings: Settings, request: Request)
    requires request.scope == "project" || request.scope == "tenant"
    ensures Validated(settings, request).Some?
       <==> && Acceptable(settings, request)
            && !Blank(if request.scope == "project" then request.projectName else request.tenantName)
            && Blank(if request.scope == "project" then request.tenantName else request.projectName)
  {
    var trimmed := Request(TrimSpace(request.name), TrimSpace(request.displayName), TrimSpace(request.scope),
                           TrimSpace(request.tenantName), TrimSpace(request.projectName), TrimSpace(request.url),
                           TrimSpace(request.authType), TrimSpace(request.username), TrimSpace(request.password),
                           TrimSpace(request.sshKey));
    LegalNameIff(trimmed.name);
    OwnerFitsIff(request, trimmed);
    if settings.canonical(trimmed.url).Some? {
      var canonical := settings.canonical(trimmed.url).value;
      var valid := trimmed.(url := canonical.url, authType := FirstNonEmpty(trimmed.authType, "none"));
      CredentialsFitIff(request, valid, canonical.kind);
    }
  }

  /** Without failing calls a project's creation is done exactly when the request is acceptable, asks for no other
      owner, and the name is free; a request that is not acceptable or asks for another owner is rejected. */
  lemma ProjectCreationIsDoneIff(settings: Settings, state: State, project: string, request: Request)
    requires Named(state) && TrimSpace(project) == project
    ensures var answer := Answer(settings, state, CreateForProject(project, request, NO_CREATE_FAULTS));
            var taken := "repo-" + TrimSpace(request.name) in state.repositories;
            var fits := && project != "" && Acceptable(settings, request)
                        && (request.projectName == "" || TrimSpace(request.projectName) == project)
                        && request.tenantName == "" && TrimSpace(request.scope) != "tenant";
            (answer.Done? <==> fits && !taken) && (answer.Rejected? <==> !fits)
  {
    if ForProject(request, project).Some? {
      ValidatedIff(settings, ForProject(request, project).value);
    }
  }

  lemma TenantCreationIsDoneIff(settings: Settings, state: State, tenant: string, request: Request)
    requires Named(state) && TrimSpace(tenant) == tenant
    ensures var answer := Answer(settings, state, CreateForTenant(tenant, request, NO_CREATE_FAULTS));
            var taken := "repo-tenant-" + tenant + "-" + TrimSpace(request.name) in state.repositories;
            var fits := && tenant != "" && Acceptable(settings, request)
                        && (request.tenantName == "" || TrimSpace(request.tenantName) == tenant)
                        && request.projectName == "" && TrimSpace(request.scope) != "project";
            (answer.Done? <==> fits && !taken) && (answer.Rejected? <==> !fits)
  {
    if ForTenant(request, tenant).Some? {
      ValidatedIff(settings, ForTenant(request, tenant).value);
    }
  }

  /* ---------- Whom a deletion may serve ---------- */

  /** Without failing calls a project's deletion is done exactly when the registration is stored with that project's
      label and nothing uses it; each other case has its own answer, and changes nothing. */
  lemma ProjectDeletionIsDoneIff(settings: Settings, state: State, project: string, repository: string, inUse: bool)
    requires Named(state)
    ensures var op := DeleteFromProject(project, repository, inUse, NO_DELETE_FAULTS);
            var name, answer, after := "repo-" + repository, Answer(settings, state, op), Step(settings, state, op);
            && (answer.Done? <==>
                  name in state.repositories && state.repositories[name].labels.project == project && !inUse)
            && (answer.Rejected? <==> name in state.repositories && state.repositories[name].labels.project != project)
            && (answer.Conflict? <==>
                  name in state.repositories && state.repositories[name].labels.project == project && inUse)
            && after.repositories == (if answer.Done? then state.repositories - {name} else state.repositories)
            && (!answer.Done? ==> after == state)
  {
    var op := DeleteFromProject(project, repository, inUse, NO_DELETE_FAULTS);
    DoneDeletes(settings, state, op);
    if !Answer(settings, state, op).Done? {
      RefusalChangesNothing(settings, state, op);
    }
  }

  lemma TenantDeletionIsDoneIff(settings: Settings, state: State, tenant: string, repository: string, inUse: bool)
    requires Named(state)
    ensures var op := DeleteFromTenant(tenant, repository, inUse, NO_DELETE_FAULTS);
            var name := "repo-tenant-" + tenant + "-" + repository;
            var answer, after := Answer(settings, state, op), Step(settings, state, op);
            && (answer.Done? <==>
                  name in state.repositories && state.repositories[name].labels.tenant == tenant && !inUse)
            && (answer.Rejected? <==> name in state.repositories && state.repositories[name].labels.tenant != tenant)
            && (answer.Conflict? <==>
                  name in state.repositories && state.repositories[name].labels.tenant == tenant && inUse)
            && after.repositories == (if answer.Done? then state.repositories - {name} else state.repositories)
            && (!answer.Done? ==> after == state)
  {
    var op := DeleteFromTenant(tenant, repository, inUse, NO_DELETE_FAULTS);
    DoneDeletes(settings, state, op);
    if !Answer(settings, state, op).Done? {
      RefusalChangesNothing(settings, state, op);
    }
  }

  /** A deletion from the owner that the stored labels name. */
  predicate DeletionByOwner(op: Op, secret: Secret) {
    match op
    case DeleteFromProject(project, repository, inUse, _) =>
      secret.name == "repo-" + repository && secret.labels.project == project && !inUse
    case DeleteFromTenant(tenant, repository, inUse, _) =>
      secret.name == "repo-tenant-" + tenant + "-" + repository && secret.labels.tenant == tenant && !inUse
    case _ => false
  }

  /** Whatever call fails, a request that makes a stored registration go is a deletion from its owner. */
  lemma OnlyOwnersRemove(settings: Settings, state: State, op: Op, secret: Secret)
    requires Named(state) && Stored(state, secret) && !Stored(Step(settings, state, op), secret)
    ensures DeletionByOwner(op, secret)
  {
    if Creates(op) {
      CreationKeeps(settings, state, op, secret);
    } else {
      DeletionIsTrue(MirrorOf(settings), state, Doomed(op), Owner(op), op.inUse, op.deleteFaults);
      DoneDeletes(settings, state, op);
    }
  }

  lemma CreationKeeps(settings: Settings, state: State, op: Op, secret: Secret)
    requires Named(state) && Creates(op) && Stored(state, secret)
    ensures Stored(Step(settings, state, op), secret)
  {
  }

  lemma {:induction false} RunStaysNamed(settings: Settings, start: State, ops: seq<Op>)
    requires Named(start) && forall i | 0 <= i < |ops| :: OwnerTrimmed(ops[i])
    ensures Named(RunOps(settings, start, ops))
  {
    if ops != [] {
      var rest := ops[..|ops| - 1];
      RunStaysNamed(settings, start, rest);
      StepKeeps(settings, RunOps(settings, start, rest), ops[|ops| - 1]);
    }
  }

  /** Over all serial runs, with any calls failing, a stored registration goes only by a deletion from its owner. */
  lemma {:induction false} RemovedByOwner(settings: Settings, start: State, ops: seq<Op>, secret: Secret)
    returns (i: nat)
    requires Named(start) && forall i | 0 <= i < |ops| :: OwnerTrimmed(ops[i])
    requires Stored(start, secret) && !Stored(RunOps(settings, start, ops), secret)
    ensures i < |ops| && DeletionByOwner(ops[i], secret)
  {
    var rest := ops[..|ops| - 1];
    if Stored(RunOps(settings, start, rest), secret) {
      RunStaysNamed(settings, start, rest);
      OnlyOwnersRemove(settings, RunOps(settings, start, rest), ops[|ops| - 1], secret);
      i := |rest|;
    } else {
      i := RemovedByOwner(settings, start, rest, secret);
    }
  }
}
