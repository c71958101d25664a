/** Namespace claims, the service instances the reconciler keeps for them, and the admission webhook that both kinds of
    objects pass through. */
module NamespaceClaims {
  import opened Options
  import opened Text

  datatype Vault = Vault(server: string, path: string, version: string, authSecret: string)

  datatype SecretPolicy = SecretPolicy(deliveryMode: string, provider: string, vault: Option<Vault>)

  /** Raw parameters: none, a JSON object, or anything else. */
  datatype Json = NoJson | Object(entries: map<string, string>) | NotAnObject

  datatype InstanceSpec = InstanceSpec(project: string, serviceClass: string, servicePlan: string, version: string,
                                       parameters: Json, exposure: string, secretPolicy: SecretPolicy,
                                       deletionPolicy: string)

  datatype ClaimSpec = ClaimSpec(project: string, displayName: string, quotas: map<string, string>,
                                 labels: map<string, string>, deletionPolicy: string)

  /* ---------- Admission ---------- */

  function DefaultSecretPolicy(policy: SecretPolicy): SecretPolicy {
    var mode := FirstNonEmpty(policy.deliveryMode, "external-secret");
    SecretPolicy(
      mode,
      if mode == "external-secret" then FirstNonEmpty(policy.provider, "kubernetes") else policy.provider,
      if policy.vault.None? then None
      else Some(policy.vault.value.(path := FirstNonEmpty(policy.vault.value.path, "secret"),
                                    version := FirstNonEmpty(policy.vault.value.version, "v2"))))
  }

  function DefaultInstance(spec: InstanceSpec): InstanceSpec {
    spec.(exposure := FirstNonEmpty(spec.exposure, "cluster-internal"),
          secretPolicy := DefaultSecretPolicy(spec.secretPolicy),
          deletionPolicy := FirstNonEmpty(spec.deletionPolicy, "delete"))
  }

  function DefaultClaim(spec: ClaimSpec): ClaimSpec {
    spec.(deletionPolicy := FirstNonEmpty(spec.deletionPolicy, "delete"))
  }

  predicate DeletionPolicyValid(policy: string) {
    policy == "delete" || policy == "orphan" || policy == "snapshot"
  }

  predicate ExposureValid(mode: string) {
    mode == "cluster-internal" || mode == "private-ingress" || mode == "public-ingress"
  }

  predicate VaultValid(vault: Vault) {
    && TrimSpace(vault.server) != "" && TrimSpace(vault.path) != "" && TrimSpace(vault.authSecret) != ""
    && (vault.version == "" || vault.version == "v1" || vault.version == "v2")
  }

  predicate SecretPolicyValid(policy: SecretPolicy) {
    && (policy.deliveryMode == "external-secret" || policy.deliveryMode == "direct-secret-ref"
        || policy.deliveryMode == "manual")
    && if policy.deliveryMode != "external-secret" then policy.provider == ""
       else if policy.provider == "" || policy.provider == "kubernetes" then policy.vault.None?
       else policy.provider == "vault" && policy.vault.Some? && VaultValid(policy.vault.value)
  }

  predicate InstanceValid(spec: InstanceSpec) {
    && spec.project != "" && spec.serviceClass != "" && spec.servicePlan != ""
    && ExposureValid(spec.exposure) && SecretPolicyValid(spec.secretPolicy) && DeletionPolicyValid(spec.deletionPolicy)
    && !spec.parameters.NotAnObject?
  }

  predicate SameReferences(previous: InstanceSpec, current: InstanceSpec) {
    && previous.project == current.project && previous.serviceClass == current.serviceClass
    && previous.servicePlan == current.servicePlan
  }

  predicate InstanceUpdateValid(previous: InstanceSpec, current: InstanceSpec) {
    InstanceValid(current) && SameReferences(previous, current)
  }

  /** `labelValid` stands for the library's rules on label keys and values. */
  predicate ClaimValid(labelValid: (string, string) -> bool, spec: ClaimSpec) {
    && spec.project != "" && DeletionPolicyValid(spec.deletionPolicy)
    && (forall key | key in spec.quotas :: key != "" && spec.quotas[key] != "")
    && (forall key | key in spec.labels :: labelValid(key, spec.labels[key]))
  }

  predicate ClaimUpdateValid(labelValid: (string, string) -> bool, previous: ClaimSpec, current: ClaimSpec) {
    ClaimValid(labelValid, current) && previous.project == current.project
  }

  /** An object passes admission on creation, or on update, as its defaulted self. */
  function AdmitInstance(previous: Option<InstanceSpec>, spec: InstanceSpec): Option<InstanceSpec> {
    var current := DefaultInstance(spec);
    var valid := if previous.None? then InstanceValid(current) else InstanceUpdateValid(previous.value, current);
    if valid then Some(current) else None
  }

  function AdmitClaim(labelValid: (string, string) -> bool, previous: Option<ClaimSpec>,
                      spec: ClaimSpec): Option<ClaimSpec>
  {
    var current := DefaultClaim(spec);
    var valid := if previous.None? then ClaimValid(labelValid, current)
                 else ClaimUpdateValid(labelValid, previous.value, current);
    if valid then Some(current) else None
  }

  /* ---------- The reconciler ---------- */

  function Desired(claim: ClaimSpec): InstanceSpec {
    InstanceSpec(claim.project, "namespace", "namespace-team", "",
                 if claim.quotas == map[] then NoJson else Object(claim.quotas),
                 "cluster-internal", SecretPolicy("manual", "", None), claim.deletionPolicy)
  }

  /** The claim and the instance of one name, as the API server stores them. */
  datatype State = State(claim: Option<ClaimSpec>, instance: Option<InstanceSpec>)

  datatype Outcome = NoClaim | ProjectUnavailable | Written | WriteRejected

  function ReconcileOutcome(state: State, projectExists: bool): Outcome {
    if state.claim.None? then NoClaim
    else if !projectExists then ProjectUnavailable
    else if AdmitInstance(state.instance, Desired(state.claim.value)).Some? then Written
    else WriteRejected
  }

  function AfterReconcile(state: State, projectExists: bool): State {
    if ReconcileOutcome(state, projectExists).Written?
    then state.(instance := AdmitInstance(state.instance, Desired(state.claim.value)))
    else state
  }

  class NamespaceClaimReconciler {
    var claim: Option<ClaimSpec>
    var instance: Option<InstanceSpec>
    var accepted: bool

    function Current(): State
      reads this
    {
      State(claim, instance)
    }

    constructor (state: State)
      ensures Current() == state && !accepted
    {
      claim, instance, accepted := state.claim, state.instance, false;
    }

    method Reconcile(projectExists: bool) returns (outcome: Outcome)
      modifies this
      ensures outcome == ReconcileOutcome(old(Current()), projectExists)
      ensures Current() == AfterReconcile(old(Current()), projectExists)
      ensures accepted == match outcome
                          case ProjectUnavailable => false
                          case Written => true
                          case _ => old(accepted)
    {
      if claim.None? {
        return NoClaim;
      }
      if !projectExists {
        accepted := false;
        return ProjectUnavailable;
      }
      var backing := Desired(claim.value);
      if instance.None? {
        var created := AdmitInstance(None, backing);
        if created.None? {
          return WriteRejected;
        }
        instance := created;
      } else {
        var updated := AdmitInstance(instance, backing);
        if updated.None? {
          return WriteRejected;
        }
        instance := updated;
      }
      accepted := true;
      return Written;
    }
  }

  /* ---------- Histories ---------- */

  /** What can happen to a claim and its instance; requests that admission rejects, or that do not fit what is stored,
      change nothing. */
  datatype Event =
    | CreateClaim(claim: ClaimSpec)
    | UpdateClaim(claim: ClaimSpec)
    | DeleteClaim
    | CreateInstance(instance: InstanceSpec)
    | EditInstance(instance: InstanceSpec)
    | DeleteInstance
    | Reconciled(projectExists: bool)

  function Apply(labelValid: (string, string) -> bool, state: State, event: Event): State {
    match event
    case CreateClaim(claim) =>
      if state.claim.None? then state.(claim := AdmitClaim(labelValid, None, claim)) else state
    case UpdateClaim(claim) =>
      if state.claim.Some? && AdmitClaim(labelValid, state.claim, claim).Some?
      then state.(claim := AdmitClaim(labelValid, state.claim, claim)) else state
    case DeleteClaim => state.(claim := None)
    case CreateInstance(instance) =>
      if state.instance.None? then state.(instance := AdmitInstance(None, instance)) else state
    case EditInstance(instance) =>
      if state.instance.Some? && AdmitInstance(state.instance, instance).Some?
      then state.(instance := AdmitInstance(state.instance, instance)) else state
    case DeleteInstance => state.(instance := None)
    case Reconciled(projectExists) => AfterReconcile(state, projectExists)
  }

  function Run(labelValid: (string, string) -> bool, state: State, events: seq<Event>): State {
    if events == [] then state
    else Apply(labelValid, Run(labelValid, state, events[..|events| - 1]), events[|events| - 1])
  }

  /** Defaulting never touches what the reconciler wants for an admitted claim, and creation accepts it. */
  lemma DesiredIsAdmitted(labelValid: (string, string) -> bool, claim: ClaimSpec)
    requires ClaimValid(labelValid, claim)
    ensures DefaultInstance(Desired(claim)) == Desired(claim)
    ensures AdmitInstance(None, Desired(claim)) == Some(Desired(claim))
  {
  }

  /** For an admitted claim, the reconciler's write is accepted exactly when there is no instance yet or the stored
      one has the claim's project and the namespace class and plan. */
  lemma WriteAcceptedIff(labelValid: (string, string) -> bool, state: State)
    requires state.claim.Some? && ClaimValid(labelValid, state.claim.value)
    ensures ReconcileOutcome(state, true).Written?
       <==> state.instance.None? || SameReferences(state.instance.value, Desired(state.claim.value))
    ensures ReconcileOutcome(state, true).Written?
            ==> AfterReconcile(state, true).instance == Some(Desired(state.claim.value))
  {
    DesiredIsAdmitted(labelValid, state.claim.value);
  }

  /** A claim that is stored has been admitted. */
  ghost predicate Admitted(labelValid: (string, string) -> bool, state: State) {
    state.claim.Some? ==> ClaimValid(labelValid, state.claim.value)
  }

  lemma {:induction false} ClaimsStayAdmitted(labelValid: (string, string) -> bool, start: State, events: seq<Event>)
    requires Admitted(labelValid, start)
    ensures Admitted(labelValid, Run(labelValid, start, events))
  {
    if events != [] {
      ClaimsStayAdmitted(labelValid, start, events[..|events| - 1]);
    }
  }

  /** At any point of any history: a write goes through exactly when there is no instance yet or the stored one is a
      namespace of the claim's project, and it leaves the instance with the claim's project, quotas and deletion policy,
      and with the class, plan, exposure and secret policy of namespaces. */
  lemma WrittenInstanceIs(labelValid: (string, string) -> bool, start: State, events: seq<Event>)
    requires Admitted(labelValid, start) && Run(labelValid, start, events).claim.Some?
    ensures var before := Run(labelValid, start, events);
            var claim, after := before.claim.value, Apply(labelValid, before, Reconciled(true));
            var written := after.instance;
            && after.claim == before.claim
            && (before.instance.None? || (before.instance.value.project == claim.project
                                          && before.instance.value.serviceClass == "namespace"
                                          && before.instance.value.servicePlan == "namespace-team")
                <==> ReconcileOutcome(before, true).Written?)
            && (!ReconcileOutcome(before, true).Written? ==> after == before)
            && (ReconcileOutcome(before, true).Written? ==>
                  && written.Some? && written.value.project == claim.project
                  && written.value.serviceClass == "namespace" && written.value.servicePlan == "namespace-team"
                  && written.value.version == "" && written.value.exposure == "cluster-internal"
                  && written.value.secretPolicy == SecretPolicy("manual", "", None)
                  && written.value.deletionPolicy == claim.deletionPolicy
                  && (if claim.quotas == map[] then written.value.parameters.NoJson?
                      else written.value.parameters.Object? && written.value.parameters.entries == claim.quotas))
  {
    ClaimsStayAdmitted(labelValid, start, events);
    WriteAcceptedIff(labelValid, Run(labelValid, start, events));
  }

  /** The instance is one that the reconciler makes for claims of the project. */
  predicate ForProject(project: string, instance: InstanceSpec) {
    instance.project == project && instance.serviceClass == "namespace" && instance.servicePlan == "namespace-team"
  }

  /** The stored claim is admitted and of the project, and so is the instance. */
  ghost predicate Backed(labelValid: (string, string) -> bool, project: string, state: State) {
    && (state.claim.Some? ==> ClaimValid(labelValid, state.claim.value) && state.claim.value.project == project)
    && (state.instance.Some? ==> InstanceValid(state.instance.value) && ForProject(project, state.instance.value))
  }

  /** Claims are made for the project only, and instances made by hand are of the kind the reconciler makes; everything
      else may happen, deletions and new claims included. */
  predicate Harmless(project: string, event: Event) {
    match event
    case CreateClaim(claim) => claim.project == project
    case CreateInstance(instance) => ForProject(project, instance)
    case _ => true
  }

  lemma StepStaysBacked(labelValid: (string, string) -> bool, project: string, state: State, event: Event)
    requires Backed(labelValid, project, state) && Harmless(project, event)
    ensures Backed(labelValid, project, Apply(labelValid, state, event))
  {
    if state.claim.Some? {
      WriteAcceptedIff(labelValid, state);
    }
  }

  /** Over any history of harmless events a write of the reconciler is never rejected, and project, class and plan of
      the instance are always the same. */
  lemma {:induction false} ReconcilerIsNeverRejected(labelValid: (string, string) -> bool, project: string,
                                                     start: State, events: seq<Event>)
    requires Backed(labelValid, project, start) && forall i | 0 <= i < |events| :: Harmless(project, events[i])
    ensures var end := Run(labelValid, start, events);
            && Backed(labelValid, project, end)
            && !ReconcileOutcome(end, true).WriteRejected?
            && (start.instance.Some? && end.instance.Some? ==> SameReferences(start.instance.value, end.instance.value))
  {
    var end := Run(labelValid, start, events);
    if events != [] {
      var rest := events[..|events| - 1];
      ReconcilerIsNeverRejected(labelValid, project, start, rest);
      StepStaysBacked(labelValid, project, Run(labelValid, start, rest), events[|events| - 1]);
    }
    if end.claim.Some? {
      WriteAcceptedIff(labelValid, end);
    }
  }

  /** The instance in the claim's place is not the claim's. */
  ghost predicate Stuck(labelValid: (string, string) -> bool, state: State) {
    && state.claim.Some? && ClaimValid(labelValid, state.claim.value)
    && state.instance.Some? && !SameReferences(state.instance.value, Desired(state.claim.value))
  }

  lemma TwoEvents(labelValid: (string, string) -> bool, state: State, first: Event, second: Event)
    ensures Run(labelValid, state, [first, second]) == Apply(labelValid, Apply(labelValid, state, first), second)
  {
    var events := [first, second];
    assert events[..1] == [first] && events[..1][..0] == [];
    assert Run(labelValid, state, events[..1]) == Apply(labelValid, state, first);
  }

  /** A claim that is deleted and made again for another project finds the old instance in its way. */
  lemma RecreatedClaimIsStuck(labelValid: (string, string) -> bool, project: string, state: State, claim: ClaimSpec)
    requires Backed(labelValid, project, state) && state.instance.Some?
    requires ClaimValid(labelValid, DefaultClaim(claim)) && claim.project != project
    ensures Stuck(labelValid, Run(labelValid, state, [DeleteClaim, CreateClaim(claim)]))
  {
    TwoEvents(labelValid, state, DeleteClaim, CreateClaim(claim));
  }

  /** So does a claim that is made where an instance of its name was made by hand for something else. */
  lemma HandMadeInstanceIsStuck(labelValid: (string, string) -> bool, instance: InstanceSpec, claim: ClaimSpec)
    requires InstanceValid(DefaultInstance(instance)) && ClaimValid(labelValid, DefaultClaim(claim))
    requires !SameReferences(instance, Desired(claim))
    ensures Stuck(labelValid, Run(labelValid, State(None, None), [CreateInstance(instance), CreateClaim(claim)]))
  {
    TwoEvents(labelValid, State(None, None), CreateInstance(instance), CreateClaim(claim));
  }

  /** And it stays so: until the claim or the instance is deleted, every write of the reconciler is rejected. */
  lemma {:induction false} StuckStaysStuck(labelValid: (string, string) -> bool, state: State, events: seq<Event>)
    requires Stuck(labelValid, state)
    requires forall i | 0 <= i < |events| :: !events[i].DeleteClaim? && !events[i].DeleteInstance?
    ensures Stuck(labelValid, Run(labelValid, state, events))
    ensures ReconcileOutcome(Run(labelValid, state, events), true).WriteRejected?
  {
    if events != [] {
      StuckStaysStuck(labelValid, state, events[..|events| - 1]);
    }
    WriteAcceptedIff(labelValid, Run(labelValid, state, events));
  }

  /* ---------- Exactly when a write is rejected ---------- */

  /** The event puts a claim and an instance together that do not belong together. */
  ghost predicate Clashes(labelValid: (string, string) -> bool, state: State, event: Event) {
    match event
    case CreateClaim(claim) =>
      && state.claim.None? && state.instance.Some? && AdmitClaim(labelValid, None, claim).Some?
      && !SameReferences(state.instance.value, Desired(claim))
    case CreateInstance(instance) =>
      && state.instance.None? && state.claim.Some? && AdmitInstance(None, instance).Some?
      && !SameReferences(instance, Desired(state.claim.value))
    case _ => false
  }

  lemma RejectedIffStuck(labelValid: (string, string) -> bool, state: State)
    requires Admitted(labelValid, state)
    ensures ReconcileOutcome(state, true).WriteRejected? <==> Stuck(labelValid, state)
  {
    if state.claim.Some? {
      WriteAcceptedIff(labelValid, state);
    }
  }

  lemma StepSticksIffClashes(labelValid: (string, string) -> bool, state: State, event: Event)
    requires Admitted(labelValid, state) && !Stuck(labelValid, state)
    ensures Admitted(labelValid, Apply(labelValid, state, event))
    ensures Stuck(labelValid, Apply(labelValid, state, event)) <==> Clashes(labelValid, state, event)
  {
    if state.claim.Some? {
      WriteAcceptedIff(labelValid, state);
    }
  }

  ghost predicate NoClash(labelValid: (string, string) -> bool, state: State, events: seq<Event>)
    decreases |events|
  {
    events == [] || (!Clashes(labelValid, state, events[0])
                     && NoClash(labelValid, Apply(labelValid, state, events[0]), events[1..]))
  }

  /** At every point of the history the reconciler's write would be accepted. */
  ghost predicate AlwaysAccepted(labelValid: (string, string) -> bool, state: State, events: seq<Event>)
    decreases |events|
  {
    && !ReconcileOutcome(state, true).WriteRejected?
    && (events == [] || AlwaysAccepted(labelValid, Apply(labelValid, state, events[0]), events[1..]))
  }

  /** Over all histories of claims, instances and reconciliations: no write is ever rejected exactly when no claim is
      made next to an instance that is not its own, and no instance next to a claim that it does not belong to. */
  lemma {:induction false} AlwaysAcceptedIff(labelValid: (string, string) -> bool, state: State, events: seq<Event>)
    requires Admitted(labelValid, state) && !Stuck(labelValid, state)
    ensures AlwaysAccepted(labelValid, state, events) <==> NoClash(labelValid, state, events)
    decreases |events|
  {
    RejectedIffStuck(labelValid, state);
    if events != [] {
      var next := Apply(labelValid, state, events[0]);
      StepSticksIffClashes(labelValid, state, events[0]);
      RejectedIffStuck(labelValid, next);
      if !Stuck(labelValid, next) {
        AlwaysAcceptedIff(labelValid, next, events[1..]);
      }
    }
  }
}
