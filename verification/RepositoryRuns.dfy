/** Runs of the repository handlers: which mirrors they leave behind, and whose credentials those hold. */
module RepositoryRuns {
  import opened Options
  import MirrorNames
  import opened Repositories
  import opened Text

  function RunOps(settings: Settings, state: State, ops: seq<Op>): State {
    if ops == [] then state
    else Step(settings, RunOps(settings, state, ops[..|ops| - 1]), ops[|ops| - 1])
  }

  /** The mirror names of the live repositories. */
  ghost function Image(mirrorOf: Secret -> string, repositories: map<string, Secret>): set<string> {
    set name | name in repositories :: mirrorOf(repositories[name])
  }

  ghost function ServicerMirrors(state: State): set<string> {
    set name | name in state.mirrors && state.mirrors[name].servicer
  }

  /** No Servicer mirror without a live repository that belongs to it. */
  ghost predicate NoOrphans(mirrorOf: Secret -> string, state: State) {
    ServicerMirrors(state) <= Image(mirrorOf, state.repositories)
  }

  ghost predicate Exact(mirrorOf: Secret -> string, state: State) {
    ServicerMirrors(state) == Image(mirrorOf, state.repositories)
  }

  lemma ImageGrows(mirrorOf: Secret -> string, repositories: map<string, Secret>, secret: Secret)
    requires secret.name !in repositories
    ensures Image(mirrorOf, repositories[secret.name := secret]) == Image(mirrorOf, repositories) + {mirrorOf(secret)}
  {
    var more := repositories[secret.name := secret];
    forall m | m in Image(mirrorOf, repositories) ensures m in Image(mirrorOf, more) {
      var name :| name in repositories && mirrorOf(repositories[name]) == m;
      assert more[name] == repositories[name];
    }
    assert more[secret.name] == secret;
  }

  lemma ImageShrinks(mirrorOf: Secret -> string, state: State, name: string)
    requires Named(state) && name in state.repositories
    ensures var gone := mirrorOf(state.repositories[name]);
            Image(mirrorOf, state.repositories - {name})
            == if SharesMirror(mirrorOf, state.repositories, state.repositories[name])
               then Image(mirrorOf, state.repositories)
               else Image(mirrorOf, state.repositories) - {gone}
  {
    var less, removed := state.repositories - {name}, state.repositories[name];
    forall m | m in Image(mirrorOf, state.repositories)
        && (m != mirrorOf(removed) || SharesMirror(mirrorOf, state.repositories, removed))
      ensures m in Image(mirrorOf, less)
    {
      var kept :| kept in state.repositories && mirrorOf(state.repositories[kept]) == m && kept != name;
      assert less[kept] == state.repositories[kept];
    }
  }

  lemma CreateKeeps(mirrorOf: Secret -> string, state: State, secret: Secret, mirror: Mirror, faults: CreateFaults)
    requires Named(state) && mirror.servicer && mirrorOf(secret) == mirror.name
    ensures var after := AfterCreate(state, secret, mirror, faults);
            && Named(after)
            && (NoOrphans(mirrorOf, state) ==> NoOrphans(mirrorOf, after))
            && (Exact(mirrorOf, state) && faults == NO_CREATE_FAULTS ==> Exact(mirrorOf, after))
  {
    if secret.name !in state.repositories {
      ImageGrows(mirrorOf, state.repositories, secret);
      var written := state.(mirrors := MirrorWritten(state.mirrors, mirror));
      assert ServicerMirrors(written) == ServicerMirrors(state) + {mirror.name};
    }
  }

  lemma DeleteKeeps(mirrorOf: Secret -> string, state: State, name: string, owned: Labels -> bool, inUse: bool,
                    faults: DeleteFaults)
    requires Named(state)
    ensures var after := AfterDelete(mirrorOf, state, name, owned, inUse, faults);
            && Named(after)
            && (NoOrphans(mirrorOf, state) ==> NoOrphans(mirrorOf, after))
            && (Exact(mirrorOf, state) && faults == NO_DELETE_FAULTS ==> Exact(mirrorOf, after))
  {
    if name in state.repositories {
      ImageShrinks(mirrorOf, state, name);
      var removed := state.repositories[name];
      var cleaned := AfterCleanup(mirrorOf, state, removed);
      assert ServicerMirrors(cleaned)
          == ServicerMirrors(state)
             - if SharesMirror(mirrorOf, state.repositories, removed) then {} else {mirrorOf(removed)};
    }
  }

  /** In any serial run, with any calls failing, no Servicer mirror outlives its repositories; and in a run without
      failures the mirrors are exactly the mirrors of the live repositories. */
  lemma {:induction false} MirrorsFollowRepositories(settings: Settings, start: State, ops: seq<Op>)
    requires Named(start) && NoOrphans(MirrorOf(settings), start)
    requires forall i | 0 <= i < |ops| :: OwnerTrimmed(ops[i])
    ensures var end := RunOps(settings, start, ops);
            && Named(end)
            && NoOrphans(MirrorOf(settings), end)
            && (Exact(MirrorOf(settings), start) && (forall i | 0 <= i < |ops| :: Faultless(ops[i]))
                ==> Exact(MirrorOf(settings), end))
  {
    if ops == [] {
    } else {
      MirrorsFollowRepositories(settings, start, ops[..|ops| - 1]);
      StepKeeps(settings, RunOps(settings, start, ops[..|ops| - 1]), ops[|ops| - 1]);
    }
  }

  lemma StepKeeps(settings: Settings, state: State, op: Op)
    requires Named(state) && OwnerTrimmed(op)
    ensures var after := Step(settings, state, op);
            && Named(after)
            && (NoOrphans(MirrorOf(settings), state) ==> NoOrphans(MirrorOf(settings), after))
            && (Exact(MirrorOf(settings), state) && Faultless(op) ==> Exact(MirrorOf(settings), after))
  {
    if !Creates(op) {
      DeleteKeeps(MirrorOf(settings), state, Doomed(op), Owner(op), op.inUse, op.deleteFaults);
    } else if Completed(settings, op).Some? {
      var Registration(request, secret) := Completed(settings, op).value;
      CompletedReadsBack(settings, op);
      CreateKeeps(MirrorOf(settings), state, secret, MirrorSecret(settings, request), op.createFaults);
    }
  }

  /** The settings the program runs with. */
  ghost function Production(naming: MirrorNames.Naming, kind: string -> string): Settings {
    Settings((url: string, scopeKey: string) => MirrorNames.MirrorName(naming, url, scopeKey),
             (url: string) => match naming.canonical(url)
                              case None => None
                              case Some(canonical) => Some(Canonical(canonical, kind(canonical))))
  }

  /** So every mirror the handlers ever leave behind, whatever fails, has a name the API server accepts. */
  lemma MirrorsHaveLegalNames(naming: MirrorNames.Naming, kind: string -> string, start: State, ops: seq<Op>,
                              mirror: string)
    requires naming.Valid() && Named(start) && NoOrphans(MirrorOf(Production(naming, kind)), start)
    requires forall i | 0 <= i < |ops| :: OwnerTrimmed(ops[i])
    requires mirror in ServicerMirrors(RunOps(Production(naming, kind), start, ops))
    ensures MirrorNames.DnsLabel(mirror)
  {
    var settings := Production(naming, kind);
    var end := RunOps(settings, start, ops);
    MirrorsFollowRepositories(settings, start, ops);
    var name :| name in end.repositories && MirrorOf(settings)(end.repositories[name]) == mirror;
    var request := RequestFromSecret(end.repositories[name]);
    MirrorNames.MirrorNameIsDnsLabel(naming, request.url, ScopeHashKey(request));
  }

  /* ---------- Whose credentials a mirror holds ---------- */

  /** The request succeeds and writes the mirror. */
  predicate Registers(settings: Settings, state: State, op: Op, mirror: string) {
    && Completed(settings, op).Some? && Answer(settings, state, op).Done?
    && MirrorOf(settings)(Completed(settings, op).value.secret) == mirror
  }

  /** The last successful registration of a run that belongs to a mirror. */
  ghost function Latest(settings: Settings, start: State, ops: seq<Op>, mirror: string): Option<Secret> {
    if ops == [] then None
    else
      var rest, last := ops[..|ops| - 1], ops[|ops| - 1];
      if Registers(settings, RunOps(settings, start, rest), last, mirror) then
          Some(Completed(settings, last).value.secret)
      else Latest(settings, start, rest, mirror)
  }

  lemma StepWritesOrLeaves(settings: Settings, state: State, op: Op, mirror: string)
    requires Named(state) && OwnerTrimmed(op) && mirror in ServicerMirrors(Step(settings, state, op))
    ensures var after := Step(settings, state, op);
            if Registers(settings, state, op, mirror)
            then Carries(after.mirrors[mirror], Completed(settings, op).value.secret)
            else mirror in ServicerMirrors(state) && after.mirrors[mirror] == state.mirrors[mirror]
  {
    if Creates(op) && Answer(settings, state, op).Done? {
      DoneCreates(settings, state, op);
    } else {
      OthersWriteNoMirror(settings, state, op);
    }
  }

  /** In any serial run, with any calls failing, a Servicer mirror holds the data of the last registration that
      succeeded for it. */
  lemma {:induction false} MirrorsHoldLatest(settings: Settings, start: State, ops: seq<Op>, mirror: string)
    requires Named(start) && NoOrphans(MirrorOf(settings), start) && ServicerMirrors(start) == {}
    requires forall i | 0 <= i < |ops| :: OwnerTrimmed(ops[i])
    requires mirror in ServicerMirrors(RunOps(settings, start, ops))
    ensures Latest(settings, start, ops, mirror).Some?
    ensures Carries(RunOps(settings, start, ops).mirrors[mirror], Latest(settings, start, ops, mirror).value)
  {
    if ops != [] {
      var rest, last := ops[..|ops| - 1], ops[|ops| - 1];
      var before := RunOps(settings, start, rest);
      MirrorsFollowRepositories(settings, start, rest);
      StepWritesOrLeaves(settings, before, last, mirror);
      if !Registers(settings, before, last, mirror) {
        MirrorsHoldLatest(settings, start, rest, mirror);
      }
    }
  }

  predicate Stored(state: State, secret: Secret) {
    secret.name in state.repositories && state.repositories[secret.name] == secret
  }

  /** The request removes a stored registration. */
  predicate Removes(settings: Settings, state: State, op: Op, name: string) {
    !Creates(op) && Doomed(op) == name && Answer(settings, state, op).Done?
  }

  /** Whether the last registration of a mirror has been removed since it was made. */
  ghost predicate RemovedSince(settings: Settings, start: State, ops: seq<Op>, mirror: string) {
    ops != [] &&
    var rest, last := ops[..|ops| - 1], ops[|ops| - 1];
    var before := RunOps(settings, start, rest);
    && !Registers(settings, before, last, mirror)
    && (|| RemovedSince(settings, start, rest, mirror)
        || (Latest(settings, start, rest, mirror).Some?
            && Removes(settings, before, last, Latest(settings, start, rest, mirror).value.name)))
  }

  lemma {:induction false} LatestBelongs(settings: Settings, start: State, ops: seq<Op>, mirror: string)
    requires Latest(settings, start, ops, mirror).Some?
    ensures MirrorOf(settings)(Latest(settings, start, ops, mirror).value) == mirror
  {
    var rest, last := ops[..|ops| - 1], ops[|ops| - 1];
    if !Registers(settings, RunOps(settings, start, rest), last, mirror) {
      LatestBelongs(settings, start, rest, mirror);
    }
  }

  lemma CreationKeepsStored(settings: Settings, state: State, op: Op, secret: Secret)
    requires Named(state) && OwnerTrimmed(op) && Creates(op) && Answer(settings, state, op).Done?
    requires !Registers(settings, state, op, MirrorOf(settings)(secret))
    ensures Stored(Step(settings, state, op), secret) <==> Stored(state, secret)
  {
    DoneCreates(settings, state, op);
    assert Completed(settings, op).value.secret != secret;
  }

  lemma DeletionKeepsStored(settings: Settings, state: State, op: Op, secret: Secret)
    requires Named(state) && !Creates(op)
    ensures Stored(Step(settings, state, op), secret)
       <==> Stored(state, secret) && !Removes(settings, state, op, secret.name)
  {
    DoneDeletes(settings, state, op);
  }

  /** A faultless request that does not register for the mirror of a secret stores it no more and no less than before,
      unless it removes it. */
  lemma StepKeepsStored(settings: Settings, state: State, op: Op, secret: Secret)
    requires Named(state) && OwnerTrimmed(op) && Faultless(op)
    requires !Registers(settings, state, op, MirrorOf(settings)(secret))
    ensures Stored(Step(settings, state, op), secret)
       <==> Stored(state, secret) && !Removes(settings, state, op, secret.name)
  {
    if !Creates(op) {
      DeletionKeepsStored(settings, state, op, secret);
    } else if Answer(settings, state, op).Done? {
      CreationKeepsStored(settings, state, op, secret);
    } else {
      RefusalChangesNothing(settings, state, op);
    }
  }

  lemma {:induction false} LatestIsStoredIff(settings: Settings, start: State, ops: seq<Op>, mirror: string)
    requires Named(start) && NoOrphans(MirrorOf(settings), start)
    requires forall i | 0 <= i < |ops| :: OwnerTrimmed(ops[i]) && Faultless(ops[i])
    requires Latest(settings, start, ops, mirror).Some?
    ensures Stored(RunOps(settings, start, ops), Latest(settings, start, ops, mirror).value)
       <==> !RemovedSince(settings, start, ops, mirror)
  {
    var rest, last := ops[..|ops| - 1], ops[|ops| - 1];
    var before := RunOps(settings, start, rest);
    MirrorsFollowRepositories(settings, start, rest);
    if Registers(settings, before, last, mirror) {
      DoneCreates(settings, before, last);
    } else {
      LatestIsStoredIff(settings, start, rest, mirror);
      LatestBelongs(settings, start, rest, mirror);
      StepKeepsStored(settings, before, last, Latest(settings, start, rest, mirror).value);
    }
  }

  /** In a serial run without failing calls, a mirror holds the data of the last registration made for it, and that
      registration is still live exactly when it has not been removed since. */
  lemma MirrorIsStaleIffRemoved(settings: Settings, start: State, ops: seq<Op>, mirror: string)
    requires Named(start) && NoOrphans(MirrorOf(settings), start) && ServicerMirrors(start) == {}
    requires forall i | 0 <= i < |ops| :: OwnerTrimmed(ops[i]) && Faultless(ops[i])
    requires mirror in ServicerMirrors(RunOps(settings, start, ops))
    ensures Latest(settings, start, ops, mirror).Some?
    ensures var end, latest := RunOps(settings, start, ops), Latest(settings, start, ops, mirror).value;
            && Carries(end.mirrors[mirror], latest)
            && (Stored(end, latest) <==> !RemovedSince(settings, start, ops, mirror))
  {
    MirrorsHoldLatest(settings, start, ops, mirror);
    LatestIsStoredIff(settings, start, ops, mirror);
  }

  /* ---------- Two registrations of one URL ---------- */

  const EMPTY := State(map[], map[])

  function Sample(name: string, password: string): Request {
    Request(name, name, "", "", "", "u", "http", "x", password, "")
  }

  function SampleCreation(name: string, password: string): Op {
    CreateForProject("p", Sample(name, password), NO_CREATE_FAULTS)
  }

  function SampleSecret(name: string, password: string): Secret {
    Secret("repo-" + name, Labels("project", "", "p"), name, "u", "http", "x", password, "")
  }

  lemma SampleCompletes(settings: Settings, name: string, password: string)
    requires settings.canonical("u") == Some(Canonical("u", "https"))
    requires NameValid(name) && password != "" && Trimmed(password, IsSpace)
    ensures var op := SampleCreation(name, password);
            Completed(settings, op).Some? && Completed(settings, op).value.secret == SampleSecret(name, password)
  {
    var completed := ForProject(Sample(name, password), "p").value;
    SampleTrims();
    TrimmedStays(name, IsSpace);
    TrimmedStays(password, IsSpace);
    var valid := completed.(authType := "http");
    assert NameValid(completed.name) && OwnerValid(completed) && CredentialsValid(valid, "https");
    assert Validated(settings, completed) == Some(valid);
  }

  lemma SampleTrims()
    ensures TrimSpace("") == "" && TrimSpace("p") == "p" && TrimSpace("u") == "u" && TrimSpace("x") == "x"
    ensures TrimSpace("http") == "http" && TrimSpace("project") == "project"
  {
    TrimmedStays("", IsSpace);
    TrimmedStays("p", IsSpace);
    TrimmedStays("u", IsSpace);
    TrimmedStays("x", IsSpace);
    TrimmedStays("http", IsSpace);
    TrimmedStays("project", IsSpace);
  }

  lemma TwoOps(settings: Settings, start: State, first: Op, second: Op)
    ensures RunOps(settings, start, [first, second]) == Step(settings, Step(settings, start, first), second)
  {
    var ops := [first, second];
    assert ops[..1] == [first] && ops[..1][..0] == [];
    assert RunOps(settings, start, ops[..1]) == Step(settings, start, first);
  }

  lemma SampleStep(settings: Settings, state: State, name: string, password: string)
    requires settings.canonical("u") == Some(Canonical("u", "https"))
    requires NameValid(name) && password != "" && Trimmed(password, IsSpace)
    requires Named(state) && Exact(MirrorOf(settings), state) && "repo-" + name !in state.repositories
    ensures var after, secret := Step(settings, state, SampleCreation(name, password)), SampleSecret(name, password);
            var mirror := MirrorOf(settings)(secret);
            && Named(after) && Exact(MirrorOf(settings), after)
            && after.repositories == state.repositories[secret.name := secret]
            && after.mirrors.Keys == state.mirrors.Keys + {mirror} && Carries(after.mirrors[mirror], secret)
  {
    var op := SampleCreation(name, password);
    SampleTrims();
    SampleCompletes(settings, name, password);
    DoneCreates(settings, state, op);
    StepKeeps(settings, state, op);
  }

  lemma SampleSecretsDiffer(name: string, name': string)
    requires name != name'
    ensures "repo-" + name != "repo-" + name'
  {
    assert name == ("repo-" + name)[5..] && name' == ("repo-" + name')[5..];
  }

  /** Two registrations of one URL in one project share a mirror, which holds the second one's password. */
  lemma SamplesShareMirror(settings: Settings, name: string, password: string, name': string, password': string)
    requires settings.canonical("u") == Some(Canonical("u", "https"))
    requires NameValid(name) && password != "" && Trimmed(password, IsSpace)
    requires NameValid(name') && password' != "" && Trimmed(password', IsSpace) && name != name'
    ensures var end := RunOps(settings, EMPTY, [SampleCreation(name, password), SampleCreation(name', password')]);
            var one, two := SampleSecret(name, password), SampleSecret(name', password');
            var mirror := MirrorOf(settings)(one);
            && Named(end) && Exact(MirrorOf(settings), end)
            && end.repositories == map[one.name := one, two.name := two] && one.name != two.name
            && mirror == MirrorOf(settings)(two)
            && end.mirrors.Keys == {mirror} && Carries(end.mirrors[mirror], two)
  {
    var mid := Step(settings, EMPTY, SampleCreation(name, password));
    SampleSecretsDiffer(name, name');
    SampleStep(settings, EMPTY, name, password);
    SampleStep(settings, mid, name', password');
    TwoOps(settings, EMPTY, SampleCreation(name, password), SampleCreation(name', password'));
  }

  lemma OneLess(mirrorOf: Secret -> string, state: State, one: Secret, two: Secret, owned: Labels -> bool)
    requires one.name != two.name && mirrorOf(one) == mirrorOf(two) && owned(two.labels)
    requires state.repositories == map[one.name := one, two.name := two]
    ensures AfterDelete(mirrorOf, state, two.name, owned, false, NO_DELETE_FAULTS)
         == State(map[one.name := one], state.mirrors)
  {
    assert SharesMirror(mirrorOf, state.repositories, two) by {
      assert one.name in state.repositories;
    }
    assert state.repositories - {two.name} == map[one.name := one];
  }

  /** Removing the second of two registrations leaves a mirror whose password no live registration has. */
  lemma StaleMirror(settings: Settings, name: string, password: string, name': string, password': string)
    requires settings.canonical("u") == Some(Canonical("u", "https"))
    requires NameValid(name) && password != "" && Trimmed(password, IsSpace)
    requires NameValid(name') && password' != "" && Trimmed(password', IsSpace)
    requires name != name' && password != password'
    ensures var ops := [SampleCreation(name, password), SampleCreation(name', password')];
            var end := RunOps(settings, EMPTY, ops + [DeleteFromProject("p", name', false, NO_DELETE_FAULTS)]);
            exists mirror :: mirror in ServicerMirrors(end)
              && forall live | live in end.repositories :: !Carries(end.mirrors[mirror], end.repositories[live])
  {
    var samples := [SampleCreation(name, password), SampleCreation(name', password')];
    var ops := samples + [DeleteFromProject("p", name', false, NO_DELETE_FAULTS)];
    assert ops[..|ops| - 1] == samples;
    SamplesShareMirror(settings, name, password, name', password');
    var before, one, two := RunOps(settings, EMPTY, samples), SampleSecret(name, password),
        SampleSecret(name', password');
    OneLess(MirrorOf(settings), before, one, two, OwnedByProject("p"));
    var end, mirror := State(map[one.name := one], before.mirrors), MirrorOf(settings)(one);
    assert RunOps(settings, EMPTY, ops) == end;
    assert mirror in Image(MirrorOf(settings), before.repositories) by {
      assert one.name in before.repositories;
    }
    assert mirror in ServicerMirrors(before) && mirror in ServicerMirrors(end);
  }

  /* ---------- Deletions that interleave ---------- */

  /** The end of a deletion, once it has looked whether the mirror is shared. */
  function FinishDelete(mirrorOf: Secret -> string, state: State, name: string, shared: bool): State
    requires name in state.repositories
  {
    State(state.repositories - {name},
          if shared then state.mirrors else state.mirrors - {mirrorOf(state.repositories[name])})
  }

  lemma DeleteLooksThenFinishes(mirrorOf: Secret -> string, state: State, name: string, owned: Labels -> bool)
    requires name in state.repositories && owned(state.repositories[name].labels)
    ensures AfterDelete(mirrorOf, state, name, owned, false, NO_DELETE_FAULTS)
         == FinishDelete(mirrorOf, state, name, SharesMirror(mirrorOf, state.repositories, state.repositories[name]))
  {
  }

  /** Two deletions that both look before either goes on. */
  function BothLookFirst(mirrorOf: Secret -> string, state: State, a: string, b: string): State
    requires a in state.repositories && b in state.repositories && a != b
  {
    var sharedA := SharesMirror(mirrorOf, state.repositories, state.repositories[a]);
    var sharedB := SharesMirror(mirrorOf, state.repositories, state.repositories[b]);
    FinishDelete(mirrorOf, FinishDelete(mirrorOf, state, a, sharedA), b, sharedB)
  }

  /** A third registration of the same mirror. */
  predicate ThirdShares(mirrorOf: Secret -> string, repositories: map<string, Secret>, a: string, b: string)
    requires a in repositories
  {
    exists c | c in repositories :: c != a && c != b && mirrorOf(repositories[c]) == mirrorOf(repositories[a])
  }

  lemma ImageWithout(mirrorOf: Secret -> string, repositories: map<string, Secret>, a: string, b: string,
                     mirror: string)
    requires mirror in Image(mirrorOf, repositories)
    requires forall name | name in repositories && (name == a || name == b) :: mirrorOf(repositories[name]) != mirror
    ensures mirror in Image(mirrorOf, repositories - {a} - {b})
  {
    var name :| name in repositories && mirrorOf(repositories[name]) == mirror;
    assert name in repositories - {a} - {b};
  }

  lemma BothLookFirstSafe(mirrorOf: Secret -> string, state: State, a: string, b: string, mirror: string)
    requires Named(state) && Exact(mirrorOf, state) && a in state.repositories && b in state.repositories && a != b
    requires mirrorOf(state.repositories[a]) == mirrorOf(state.repositories[b])
             ==> ThirdShares(mirrorOf, state.repositories, a, b)
    requires mirror in ServicerMirrors(BothLookFirst(mirrorOf, state, a, b))
    ensures mirror in Image(mirrorOf, BothLookFirst(mirrorOf, state, a, b).repositories)
  {
    var repositories := state.repositories;
    var left := repositories - {a} - {b};
    assert mirror in Image(mirrorOf, repositories);
    if mirror != mirrorOf(repositories[a]) && mirror != mirrorOf(repositories[b]) {
      ImageWithout(mirrorOf, repositories, a, b, mirror);
    } else {
      var c :| c in repositories && c != a && c != b && mirrorOf(repositories[c]) == mirror;
      assert left[c] == repositories[c];
    }
  }

  /** Two deletions that interleave like this leave no orphaned mirror exactly when they do not share a mirror or a
      third registration shares it with them. */
  lemma InterleavedDeletionsSafeIff(mirrorOf: Secret -> string, state: State, a: string, b: string)
    requires Named(state) && Exact(mirrorOf, state) && a in state.repositories && b in state.repositories && a != b
    ensures NoOrphans(mirrorOf, BothLookFirst(mirrorOf, state, a, b))
       <==> (mirrorOf(state.repositories[a]) == mirrorOf(state.repositories[b])
             ==> ThirdShares(mirrorOf, state.repositories, a, b))
  {
    var repositories, end := state.repositories, BothLookFirst(mirrorOf, state, a, b);
    var mirror := mirrorOf(repositories[a]);
    if mirror == mirrorOf(repositories[b]) && !ThirdShares(mirrorOf, repositories, a, b) {
      assert mirror in Image(mirrorOf, repositories);
      assert mirror in ServicerMirrors(end);
      assert mirror !in Image(mirrorOf, end.repositories);
    } else {
      forall m | m in ServicerMirrors(end) ensures m in Image(mirrorOf, end.repositories) {
        BothLookFirstSafe(mirrorOf, state, a, b, m);
      }
    }
  }

  lemma OnlyTwoOrphan(mirrorOf: Secret -> string, state: State, one: Secret, two: Secret)
    requires Named(state) && Exact(mirrorOf, state) && one.name != two.name && mirrorOf(one) == mirrorOf(two)
    requires state.repositories == map[one.name := one, two.name := two]
    ensures one.name in state.repositories && two.name in state.repositories
    ensures !NoOrphans(mirrorOf, BothLookFirst(mirrorOf, state, one.name, two.name))
  {
    assert !ThirdShares(mirrorOf, state.repositories, one.name, two.name);
    InterleavedDeletionsSafeIff(mirrorOf, state, one.name, two.name);
  }

  /** So the handlers must run serially: after two registrations of one URL, interleaved deletions of them leave a
      mirror without a registration, which serial ones never do. */
  lemma InterleavedDeletionsOrphanMirror(settings: Settings, name: string, password: string, name': string,
                                         password': string)
    requires settings.canonical("u") == Some(Canonical("u", "https"))
    requires NameValid(name) && password != "" && Trimmed(password, IsSpace)
    requires NameValid(name') && password' != "" && Trimmed(password', IsSpace) && name != name'
    ensures var state := RunOps(settings, EMPTY, [SampleCreation(name, password), SampleCreation(name', password')]);
            var a, b := "repo-" + name, "repo-" + name';
            && a in state.repositories && b in state.repositories && a != b
            && !NoOrphans(MirrorOf(settings), BothLookFirst(MirrorOf(settings), state, a, b))
  {
    SamplesShareMirror(settings, name, password, name', password');
    var state := RunOps(settings, EMPTY, [SampleCreation(name, password), SampleCreation(name', password')]);
    OnlyTwoOrphan(MirrorOf(settings), state, SampleSecret(name, password), SampleSecret(name', password'));
  }
}
