/** What observations and topology requests do to the cache topology over whole runs. */
module ValkeyRuns {
  import opened Options
  import opened Sequences
  import opened Text
  import opened ValkeyTopology

  /* ---------- Observing what was observed ---------- */

  /** Whether an observation reaches a fixed point at once: it keeps some standby and none without a name, or it keeps
      none and the parameters have none to offer either. */
  predicate Settles(context: Context, parameters: Parameters, status: Topology) {
    var kept := KeptNames(context, parameters, status);
    if kept != [] then "" !in kept
    else forall name | name in parameters.standbys :: name == Primary(context, parameters, status)
  }

  lemma {:induction false} LastEntryIsListed(standbys: seq<Standby>, name: string)
    requires name in Names(standbys)
    ensures LastEntry(standbys, name) in standbys && LastEntry(standbys, name).name == name
  {
    var i :| 0 <= i < |standbys| && Names(standbys)[i] == name;
    if standbys[|standbys| - 1].name != name {
      assert Names(standbys[..|standbys| - 1])[i] == name;
      LastEntryIsListed(standbys[..|standbys| - 1], name);
    }
  }

  /** Names survive observation in order, and each entry is the one its name's last entry leads to. */
  lemma ObservedEntries(parameters: Parameters, existing: seq<Standby>, names: seq<string>)
    ensures Names(ObservedAll(parameters, existing, names)) == names
    ensures forall name | name in names ::
              LastEntry(ObservedAll(parameters, existing, names), name)
                  == Observed(parameters, LastEntry(existing, name), name)
  {
    var all := ObservedAll(parameters, existing, names);
    assert Names(all) == names;
    forall name | name in names
      ensures LastEntry(all, name) == Observed(parameters, LastEntry(existing, name), name)
    {
      LastEntryIsListed(all, name);
    }
  }

  lemma ObservedAgain(parameters: Parameters, existing: Standby, name: string)
    ensures Observed(parameters, Observed(parameters, existing, name), name) == Observed(parameters, existing, name)
  {
  }

  /** The standbys that a second observation with the same inputs looks at. */
  lemma SecondNames(context: Context, parameters: Parameters, status: Topology)
    requires context.Failover()
    ensures var first := Observe(context, parameters, status);
            var kept := KeptNames(context, parameters, status);
            && Primary(context, parameters, first) == Primary(context, parameters, status)
            && KeptNames(context, parameters, first)
               == if kept == [] then Filter(parameters.standbys, NotEqual(Primary(context, parameters, status)))
                  else Filter(kept, NotEqual(""))
  {
    var first, kept := Observe(context, parameters, status), KeptNames(context, parameters, status);
    var primary := Primary(context, parameters, status);
    ObservedEntries(parameters, status.standbys, kept);
    if kept != [] {
      assert first.standbys != [];
      FilterAll(Filter(kept, NotEqual("")), NotEqual(primary));
    }
  }

  lemma SameNamesSameStandbys(context: Context, parameters: Parameters, status: Topology)
    requires context.Failover()
    requires KeptNames(context, parameters, Observe(context, parameters, status))
          == KeptNames(context, parameters, status)
    ensures Observe(context, parameters, Observe(context, parameters, status)) == Observe(context, parameters, status)
  {
    var first, kept := Observe(context, parameters, status), KeptNames(context, parameters, status);
    SecondNames(context, parameters, status);
    ObservedEntries(parameters, status.standbys, kept);
    var again := ObservedAll(parameters, first.standbys, kept);
    forall i | 0 <= i < |kept| ensures again[i] == first.standbys[i] {
      ObservedAgain(parameters, LastEntry(status.standbys, kept[i]), kept[i]);
    }
    assert again == first.standbys;
  }

  /** Observing the stored observation again with the same inputs changes nothing exactly when the status settles:
      for every status, with repeated, unnamed or self-referring standbys too. */
  lemma ObserveTwiceIffSettles(context: Context, parameters: Parameters, status: Topology)
    requires context.Failover()
    ensures Observe(context, parameters, Observe(context, parameters, status)) == Observe(context, parameters, status)
       <==> Settles(context, parameters, status)
  {
    var first, kept := Observe(context, parameters, status), KeptNames(context, parameters, status);
    var primary := Primary(context, parameters, status);
    SecondNames(context, parameters, status);
    var second := KeptNames(context, parameters, first);
    FilterDrops(kept, NotEqual(""));
    if second == kept {
      SameNamesSameStandbys(context, parameters, status);
      if kept == [] {
        forall name | name in parameters.standbys ensures name == primary {
          assert name !in Filter(parameters.standbys, NotEqual(primary));
        }
      }
    } else {
      ObservedEntries(parameters, status.standbys, kept);
      ObservedEntries(parameters, first.standbys, second);
      if Settles(context, parameters, status) && kept != [] {
        FilterAll(kept, NotEqual(""));
      }
      if Settles(context, parameters, status) && kept == [] {
        assert forall name :: name !in second;
      }
    }
  }

  /** A status that lists nothing but its own primary loses its entries, and the next observation then turns to the
      standbys that the parameters declare. */
  lemma FirstObservationMayNotSettle(context: Context, parameters: Parameters, status: Topology, other: string)
    requires context.Failover() && status.primary != "" && status.standbys != []
    requires forall i | 0 <= i < |status.standbys| :: status.standbys[i].name == status.primary
    requires other in parameters.standbys && other != status.primary
    ensures Observe(context, parameters, Observe(context, parameters, status)) != Observe(context, parameters, status)
  {
    var names := Names(status.standbys);
    assert forall name | name in names :: name == status.primary;
    var kept := KeptNames(context, parameters, status);
    assert forall name :: name !in kept;
    ObserveTwiceIffSettles(context, parameters, status);
  }

  /** With named standbys in the parameters, two observations always settle. */
  lemma TwoObservationsSettle(context: Context, parameters: Parameters, status: Topology)
    requires context.Failover() && "" !in parameters.standbys
    ensures var first := Observe(context, parameters, status);
            var second := Observe(context, parameters, first);
            Observe(context, parameters, second) == second
  {
    var first, kept := Observe(context, parameters, status), KeptNames(context, parameters, status);
    SecondNames(context, parameters, status);
    ObserveTwiceIffSettles(context, parameters, first);
    if kept == [] {
      var offered := Filter(parameters.standbys, NotEqual(Primary(context, parameters, status)));
      assert KeptNames(context, parameters, first) == offered;
      forall name | name in parameters.standbys && offered == [] ensures name == Primary(context, parameters, first) {
        assert name !in offered;
      }
    } else {
      assert forall name | name in kept :: name != "" by {
        if status.standbys == [] {
          assert forall name | name in kept :: name in parameters.standbys;
        }
      }
      FilterAll(kept, NotEqual(""));
    }
  }

  /** A status that an observation could have left behind. */
  ghost predicate Clean(status: Topology) {
    status.primary != "" && status.standbys != []
    && forall i | 0 <= i < |status.standbys| ::
         status.standbys[i].name != "" && status.standbys[i].name != status.primary
  }

  lemma CleanKeepsNames(context: Context, parameters: Parameters, status: Topology)
    requires context.Failover() && Clean(status)
    ensures Primary(context, parameters, status) == status.primary
    ensures KeptNames(context, parameters, status) == Names(status.standbys)
    ensures Names(Observe(context, parameters, status).standbys) == Names(status.standbys)
    ensures Clean(Observe(context, parameters, status))
  {
    var names := Names(status.standbys);
    assert forall name | name in names :: name != "" && name != status.primary;
    FilterAll(names, NotEqual(""));
    FilterAll(names, NotEqual(status.primary));
    ObservedEntries(parameters, status.standbys, names);
    var after := Observe(context, parameters, status);
    assert Names(after.standbys) == names;
    forall i | 0 <= i < |after.standbys|
      ensures after.standbys[i].name != "" && after.standbys[i].name != status.primary
    {
      assert Names(after.standbys)[i] in names;
    }
  }

  /** No status that an observation could have left behind is of that kind: a clean status settles at once. */
  lemma CleanStatusesSettle(context: Context, parameters: Parameters, status: Topology)
    requires Clean(status) && context.Failover()
    ensures Observe(context, parameters, Observe(context, parameters, status)) == Observe(context, parameters, status)
  {
    CleanKeepsNames(context, parameters, status);
    var kept := KeptNames(context, parameters, status);
    assert |kept| == |status.standbys|;
    forall name | name in kept ensures name != "" {
      var i :| 0 <= i < |kept| && kept[i] == name;
      assert status.standbys[i].name == name;
    }
    ObserveTwiceIffSettles(context, parameters, status);
  }

  /** Whatever it starts from, an observation that finds a primary and keeps only named standbys leaves a clean
      status. */
  lemma ObservationsAreClean(context: Context, parameters: Parameters, status: Topology)
    requires context.Failover() && Primary(context, parameters, status) != ""
    requires KeptNames(context, parameters, status) != [] && "" !in KeptNames(context, parameters, status)
    ensures Clean(Observe(context, parameters, status))
  {
    var kept := KeptNames(context, parameters, status);
    ObservedEntries(parameters, status.standbys, kept);
    var after := Observe(context, parameters, status);
    forall i | 0 <= i < |after.standbys| ensures after.standbys[i].name != "" && after.standbys[i].name != after.primary
    {
      assert Names(after.standbys)[i] in kept;
    }
  }

  lemma {:induction false} CountsReady(standbys: seq<Standby>)
    ensures 0 < CountReady(standbys) <==> exists i :: 0 <= i < |standbys| && standbys[i].ready
  {
    if standbys != [] {
      CountsReady(standbys[..|standbys| - 1]);
      if exists i :: 0 <= i < |standbys| && standbys[i].ready {
        var i :| 0 <= i < |standbys| && standbys[i].ready;
        if i < |standbys| - 1 {
          assert standbys[..|standbys| - 1][i].ready;
        }
      }
    }
  }

  /** Failover readiness says Ready exactly when some kept standby has an observed lag within the threshold and is not
      marked for resynchronisation. */
  lemma ReadyIffSomeStandbyEligible(context: Context, parameters: Parameters, status: Topology)
    requires context.Failover()
    ensures var after := Observe(context, parameters, status);
            after.readiness.Ready? <==>
              exists i :: 0 <= i < |after.standbys| && after.standbys[i].lagObserved
                          && after.standbys[i].lag <= MaxLag(parameters) && !after.standbys[i].resyncRequired
  {
    var after := Observe(context, parameters, status);
    CountsReady(after.standbys);
    if i :| 0 <= i < |after.standbys| && after.standbys[i].ready {
      assert after.standbys[i].lagObserved && after.standbys[i].lag <= MaxLag(parameters)
             && !after.standbys[i].resyncRequired;
    }
  }

  /* ---------- Runs ---------- */

  /* Here an observation is read and stored with nothing in between. */

  /** A mark sets the flag on every entry of a standby, and may or may not withdraw its readiness at once. */
  datatype Step =
    | Observation(context: Context, parameters: Parameters)
    | Mark(name: string, message: Message, withdraws: bool)
    | FailoverTo(candidate: string)
    | ResyncOf(name: string, message: Message)

  function Marks(standbys: seq<Standby>, name: string, message: Message, withdraws: bool): seq<Standby> {
    seq(|standbys|, i requires 0 <= i < |standbys| =>
      if standbys[i].name != name then standbys[i]
      else standbys[i].(ready := standbys[i].ready && !withdraws, resyncRequired := true, message := message))
  }

  function Apply(status: Topology, step: Step): Topology {
    match step
    case Observation(context, parameters) => Observe(context, parameters, status)
    case Mark(name, message, withdraws) => status.(standbys := Marks(status.standbys, name, message, withdraws))
    case FailoverTo(candidate) => Failover(status, candidate)
    case ResyncOf(name, message) => Resync(status, name, message)
  }

  /** Every plan in the run is a failover plan. */
  predicate FailoverPlans(steps: seq<Step>) {
    forall i | 0 <= i < |steps| :: steps[i].Observation? ==> steps[i].context.Failover()
  }

  function Run(status: Topology, steps: seq<Step>): Topology {
    if steps == [] then status else Apply(Run(status, steps[..|steps| - 1]), steps[|steps| - 1])
  }

  ghost predicate Flagged(status: Topology, name: string) {
    LastEntry(status.standbys, name).resyncRequired
  }

  lemma MarksKeepNames(standbys: seq<Standby>, name: string, message: Message, withdraws: bool)
    ensures Names(Marks(standbys, name, message, withdraws)) == Names(standbys)
  {
  }

  lemma MarksOfPrefix(standbys: seq<Standby>, name: string, message: Message, withdraws: bool)
    requires standbys != []
    ensures var all := Marks(standbys, name, message, withdraws);
            all[..|all| - 1] == Marks(standbys[..|standbys| - 1], name, message, withdraws)
  {
  }

  lemma {:induction false} MarksKeepEntries(standbys: seq<Standby>, name: string, message: Message, withdraws: bool,
                                            other: string)
    ensures var before, after := LastEntry(standbys, other),
            LastEntry(Marks(standbys, name, message, withdraws), other);
            (before.resyncRequired ==> after.resyncRequired) && after.lagObserved == before.lagObserved
  {
    if standbys != [] {
      MarksOfPrefix(standbys, name, message, withdraws);
      MarksKeepEntries(standbys[..|standbys| - 1], name, message, withdraws, other);
    }
  }

  /** Through any observations with changing parameters and any marks, a nonempty primary and a nonempty list of
      standby names never change, and no standby, as its last entry has it, loses a resynchronisation mark or an
      observed lag. */
  lemma {:induction false} ObservationsKeepTopology(status: Topology, steps: seq<Step>)
    requires Clean(status) && FailoverPlans(steps)
    requires forall i | 0 <= i < |steps| :: steps[i].Observation? || steps[i].Mark?
    ensures var end := Run(status, steps);
            && Clean(end) && end.primary == status.primary && Names(end.standbys) == Names(status.standbys)
            && forall name :: (Flagged(status, name) ==> Flagged(end, name))
                              && (LastEntry(status.standbys, name).lagObserved
                                  ==> LastEntry(end.standbys, name).lagObserved)
  {
    if steps == [] {
    } else {
      var rest := steps[..|steps| - 1];
      ObservationsKeepTopology(status, rest);
      var before := Run(status, rest);
      match steps[|steps| - 1] {
        case Observation(context, parameters) =>
          CleanKeepsNames(context, parameters, before);
          ObservedEntries(parameters, before.standbys, Names(before.standbys));
          forall name | name !in Names(before.standbys) ensures LastEntry(before.standbys, name) == NO_STANDBY {
            UnknownEntry(before.standbys, name);
          }
        case Mark(name, message, withdraws) =>
          var marked := before.(standbys := Marks(before.standbys, name, message, withdraws));
          MarksKeepNames(before.standbys, name, message, withdraws);
          forall other ensures (Flagged(before, other) ==> Flagged(marked, other))
            && LastEntry(marked.standbys, other).lagObserved == LastEntry(before.standbys, other).lagObserved
          {
            MarksKeepEntries(before.standbys, name, message, withdraws, other);
          }
          SameNamesStayClean(before, marked);
        case _ =>
      }
    }
  }

  lemma SameNamesStayClean(status: Topology, next: Topology)
    requires Clean(status) && next.primary == status.primary && Names(next.standbys) == Names(status.standbys)
    ensures Clean(next)
  {
    assert |next.standbys| == |Names(status.standbys)|;
    forall i | 0 <= i < |next.standbys| ensures next.standbys[i].name == status.standbys[i].name {
      assert next.standbys[i].name == Names(next.standbys)[i];
    }
  }

  lemma {:induction false} UnknownEntry(standbys: seq<Standby>, name: string)
    requires name !in Names(standbys)
    ensures LastEntry(standbys, name) == NO_STANDBY
  {
    if standbys != [] {
      assert Names(standbys)[|standbys| - 1] != name;
      assert Names(standbys[..|standbys| - 1]) == Names(standbys)[..|standbys| - 1];
      UnknownEntry(standbys[..|standbys| - 1], name);
    }
  }

  /* ---------- A resynchronisation request may be forgotten ---------- */

  lemma {:induction false} LastEntryFrom(standbys: seq<Standby>, name: string, i: nat)
    requires i < |standbys| && standbys[i].name == name && forall k | i < k < |standbys| :: standbys[k].name != name
    ensures LastEntry(standbys, name) == standbys[i]
  {
    if i < |standbys| - 1 {
      LastEntryFrom(standbys[..|standbys| - 1], name, i);
    }
  }

  lemma {:induction false} LastIndex(standbys: seq<Standby>, name: string) returns (i: nat)
    requires exists k :: 0 <= k < |standbys| && standbys[k].name == name
    ensures i < |standbys| && standbys[i].name == name && forall k | i < k < |standbys| :: standbys[k].name != name
  {
    var last := |standbys| - 1;
    if standbys[last].name == name {
      i := last;
    } else {
      var k :| 0 <= k < |standbys| && standbys[k].name == name;
      assert standbys[..last][k].name == name;
      i := LastIndex(standbys[..last], name);
      assert forall k | i < k < last :: standbys[k] == standbys[..last][k];
    }
  }

  /** A request marks the first entry of a standby, while the next observation carries over the last one: the mark
      survives it exactly when the standby is listed once, or its last entry was marked before. */
  lemma ResyncSurvivesObservationIff(context: Context, parameters: Parameters, status: Topology, name: string,
                                     message: Message)
    requires Clean(status) && context.Failover() && MayResync(status, name) && !AlreadyResyncing(status, name)
    ensures Flagged(Observe(context, parameters, Resync(status, name, message)), name)
       <==> || Flagged(status, name)
            || forall i, j | 0 <= i < |status.standbys| && 0 <= j < |status.standbys| &&
                             status.standbys[i].name == name == status.standbys[j].name :: i == j
  {
    var first := FirstEntryIsAt(status.standbys, name);
    var last := LastIndex(status.standbys, name);
    MarkFirstAt(status.standbys, name, message, first);
    var marked := Resync(status, name, message);
    assert Names(marked.standbys) == Names(status.standbys);
    SameNamesStayClean(status, marked);
    CleanKeepsNames(context, parameters, marked);
    ObservedEntries(parameters, marked.standbys, Names(marked.standbys));
    assert Names(marked.standbys)[last] == name;
    LastEntryFrom(status.standbys, name, last);
    LastEntryFrom(marked.standbys, name, last);
  }

  /* ---------- Promotions use standbys up ---------- */

  /** Marked for resynchronisation and not ready: nothing but an observation of another entry could make it
      promotable. */
  predicate Spent(entry: Standby) {
    entry.resyncRequired && !entry.ready
  }

  ghost function NameSet(standbys: seq<Standby>): set<string> {
    set i | 0 <= i < |standbys| :: standbys[i].name
  }

  ghost function Clusters(status: Topology): set<string> {
    {status.primary} + NameSet(status.standbys)
  }

  /** The standbys with an entry that is not spent. */
  ghost function Candidates(status: Topology): set<string> {
    set i | 0 <= i < |status.standbys| && !Spent(status.standbys[i]) :: status.standbys[i].name
  }

  /** How one step may change a clean status. */
  ghost predicate Advances(status: Topology, next: Topology) {
    && Clean(next) && Clusters(next) == Clusters(status) && Candidates(next) <= Candidates(status)
    && (if next.primary == status.primary then |next.standbys| == |status.standbys|
        else && next.primary in Candidates(status) && next.primary !in Candidates(next)
             && status.primary in NameSet(next.standbys) && status.primary !in Candidates(next)
             && |next.standbys| == |status.standbys| + 1)
  }

  /** Same names in the same places, and no new candidates. */
  lemma SamePlacesAdvance(status: Topology, next: Topology)
    requires Clean(status) && next.primary == status.primary && |next.standbys| == |status.standbys|
    requires forall i | 0 <= i < |status.standbys| ::
               && next.standbys[i].name == status.standbys[i].name
               && (!Spent(next.standbys[i]) ==> next.standbys[i].name in Candidates(status))
    ensures Advances(status, next)
  {
    forall name | name in NameSet(status.standbys) ensures name in NameSet(next.standbys) {
      var i :| 0 <= i < |status.standbys| && status.standbys[i].name == name;
      assert next.standbys[i].name == name;
    }
    forall i | 0 <= i < |next.standbys| ensures next.standbys[i].name in NameSet(status.standbys) {
      assert next.standbys[i].name == status.standbys[i].name;
    }
  }

  lemma ObservationAdvances(context: Context, parameters: Parameters, status: Topology)
    requires Clean(status) && context.Failover()
    ensures Advances(status, Observe(context, parameters, status))
  {
    CleanKeepsNames(context, parameters, status);
    var next := Observe(context, parameters, status);
    assert |next.standbys| == |Names(status.standbys)|;
    forall i | 0 <= i < |status.standbys|
      ensures next.standbys[i].name == status.standbys[i].name
      ensures !Spent(next.standbys[i]) ==> next.standbys[i].name in Candidates(status)
    {
      assert Names(status.standbys)[i] in Names(status.standbys);
      LastEntryIsListed(status.standbys, status.standbys[i].name);
    }
    SamePlacesAdvance(status, next);
  }

  lemma ResyncAdvances(status: Topology, name: string, message: Message)
    requires Clean(status)
    ensures Advances(status, Resync(status, name, message))
  {
    if !AlreadyResyncing(status, name) && MayResync(status, name) {
      var i := FirstEntryIsAt(status.standbys, name);
      MarkFirstAt(status.standbys, name, message, i);
    }
    SamePlacesAdvance(status, Resync(status, name, message));
  }

  /** What a promotion does to the entries: those of the candidate stand for the demoted primary, and one more is
      added. */
  ghost predicate Replaced(before: seq<Standby>, after: seq<Standby>, candidate: string, previous: string) {
    && |after| == |before| + 1 && after[|before|] == Demoted(previous)
    && forall i | 0 <= i < |before| ::
        after[i] == (if before[i].name == candidate then Demoted(previous) else before[i])
  }

  lemma PromotionReplaces(status: Topology, candidate: string)
    requires Clean(status) && Preflight(status, candidate)
    ensures Replaced(status.standbys, Promote(status, candidate).standbys, candidate, status.primary)
    ensures candidate in Candidates(status) && candidate != status.primary
            && status.primary !in NameSet(status.standbys)
  {
    var chosen := FirstEntryIsAt(status.standbys, candidate);
    assert !Spent(status.standbys[chosen]) && status.standbys[chosen].name == candidate;
    assert status.primary !in Names(status.standbys);
    forall i | 0 <= i < |status.standbys| ensures status.standbys[i].name != status.primary {
      assert Names(status.standbys)[i] in Names(status.standbys);
    }
  }

  lemma ReplacedNames(before: seq<Standby>, after: seq<Standby>, candidate: string, previous: string)
    requires Replaced(before, after, candidate, previous) && candidate != previous
    ensures NameSet(after) == NameSet(before) - {candidate} + {previous}
  {
    assert after[|before|].name == previous;
    forall name | name in NameSet(before) && name != candidate ensures name in NameSet(after) {
      var i :| 0 <= i < |before| && before[i].name == name;
      assert after[i].name == name;
    }
    forall i | 0 <= i < |after| ensures after[i].name in NameSet(before) - {candidate} + {previous} {
      if i < |before| && before[i].name != candidate {
        assert after[i] == before[i];
      }
    }
  }

  lemma ReplacedCandidates(status: Topology, next: Topology, candidate: string)
    requires Replaced(status.standbys, next.standbys, candidate, status.primary)
    ensures Candidates(next) <= Candidates(status) - {candidate}
  {
    forall name | name in Candidates(next) ensures name in Candidates(status) && name != candidate {
      var i :| 0 <= i < |next.standbys| && !Spent(next.standbys[i]) && next.standbys[i].name == name;
      assert status.standbys[i].name == name;
    }
  }

  lemma ReplacedClean(status: Topology, next: Topology, candidate: string)
    requires Clean(status) && candidate in NameSet(status.standbys) && candidate != status.primary
    requires Replaced(status.standbys, next.standbys, candidate, status.primary) && next.primary == candidate
    ensures Clean(next)
  {
    var i :| 0 <= i < |status.standbys| && status.standbys[i].name == candidate;
    forall i | 0 <= i < |next.standbys| ensures next.standbys[i].name != "" && next.standbys[i].name != next.primary {
      if i < |status.standbys| && status.standbys[i].name != candidate {
        assert next.standbys[i] == status.standbys[i];
      }
    }
  }

  lemma PromotionAdvances(status: Topology, candidate: string)
    requires Clean(status) && Preflight(status, candidate)
    ensures Advances(status, Promote(status, candidate)) && Promote(status, candidate).primary != status.primary
  {
    var next := Promote(status, candidate);
    PromotionReplaces(status, candidate);
    ReplacedNames(status.standbys, next.standbys, candidate, status.primary);
    ReplacedCandidates(status, next, candidate);
    ReplacedClean(status, next, candidate);
    forall name | name in Candidates(status) ensures name in NameSet(status.standbys) {
      var i :| 0 <= i < |status.standbys| && !Spent(status.standbys[i]) && status.standbys[i].name == name;
    }
  }

  lemma StepAdvances(status: Topology, step: Step)
    requires Clean(status) && (step.Observation? ==> step.context.Failover())
    ensures Advances(status, Apply(status, step))
  {
    match step {
      case Observation(context, parameters) => ObservationAdvances(context, parameters, status);
      case Mark(_, _, _) => SamePlacesAdvance(status, Apply(status, step));
      case FailoverTo(candidate) =>
        if TrimSpace(status.primary) != candidate && Preflight(status, candidate) {
          PromotionAdvances(status, candidate);
        } else {
          SamePlacesAdvance(status, status);
        }
      case ResyncOf(name, message) => ResyncAdvances(status, name, message);
    }
  }

  /** How often the primary changes during a run. */
  ghost function Promotions(status: Topology, steps: seq<Step>): nat {
    if steps == [] then 0
    else
      var rest := steps[..|steps| - 1];
      Promotions(status, rest) + if Run(status, steps).primary != Run(status, rest).primary then 1 else 0
  }

  lemma {:induction false} RunAdvances(status: Topology, steps: seq<Step>)
    requires Clean(status) && FailoverPlans(steps)
    ensures var end := Run(status, steps);
            && Clean(end) && Clusters(end) == Clusters(status) && Candidates(end) <= Candidates(status)
            && |end.standbys| == |status.standbys| + Promotions(status, steps)
            && |Candidates(end)| + Promotions(status, steps) <= |Candidates(status)|
            && (end.primary == status.primary || end.primary in Candidates(status))
  {
    if steps == [] {
    } else {
      var rest := steps[..|steps| - 1];
      RunAdvances(status, rest);
      var before, after := Run(status, rest), Run(status, steps);
      StepAdvances(before, steps[|steps| - 1]);
      if after.primary != before.primary {
        assert Candidates(after) <= Candidates(before) - {after.primary};
        SubsetIsSmaller(Candidates(after), Candidates(before) - {after.primary});
      } else {
        SubsetIsSmaller(Candidates(after), Candidates(before));
      }
    }
  }

  lemma SubsetIsSmaller(less: set<string>, more: set<string>)
    requires less <= more
    ensures |less| <= |more|
  {
    assert more == less + (more - less);
  }

  /** Over any run of observations, marks, failovers, rollbacks and resynchronisation requests: no cluster appears or
      disappears, each promotion lengthens the standby list by one entry, and there are at most as many promotions as
      there were standbys that were not spent at the start. */
  lemma PromotionsAreBounded(status: Topology, steps: seq<Step>)
    requires Clean(status) && FailoverPlans(steps)
    ensures Clusters(Run(status, steps)) == Clusters(status)
    ensures |Run(status, steps).standbys| == |status.standbys| + Promotions(status, steps)
    ensures Promotions(status, steps) <= |Candidates(status)|
  {
    RunAdvances(status, steps);
  }

  /** A primary that has been replaced never becomes primary again, by rollback or otherwise. */
  lemma FormerPrimaryNeverReturns(status: Topology, candidate: string, steps: seq<Step>)
    requires Clean(status) && Preflight(status, candidate) && FailoverPlans(steps)
    ensures Run(Promote(status, candidate), steps).primary != status.primary
  {
    PromotionAdvances(status, candidate);
    RunAdvances(Promote(status, candidate), steps);
  }

  /** A promotion lists the replaced primary at least twice. */
  lemma PromotionRepeatsFormerPrimary(status: Topology, candidate: string)
    requires Clean(status) && Preflight(status, candidate)
    ensures var after := Promote(status, candidate);
            exists i, j :: 0 <= i < j < |after.standbys|
                && after.standbys[i].name == status.primary == after.standbys[j].name
  {
    var i := FirstEntryIsAt(status.standbys, candidate);
    PromotionReplaces(status, candidate);
    var after := Promote(status, candidate);
    assert after.standbys[i].name == status.primary && after.standbys[|status.standbys|].name == status.primary;
  }

  /* ---------- Rollbacks that find their own target ---------- */

  /** Whenever an entry is marked, the first entry of its name is spent. */
  ghost predicate MarksLead(standbys: seq<Standby>) {
    forall i | 0 <= i < |standbys| && standbys[i].resyncRequired :: LedBySpent(standbys, standbys[i].name)
  }

  ghost predicate LedBySpent(standbys: seq<Standby>, name: string) {
    FirstEntry(standbys, name).Some? && Spent(FirstEntry(standbys, name).value)
  }

  lemma {:induction false} FirstEntryFrom(standbys: seq<Standby>, name: string, i: nat)
    requires i < |standbys| && standbys[i].name == name && forall k | 0 <= k < i :: standbys[k].name != name
    ensures FirstEntry(standbys, name) == Some(standbys[i])
  {
    if i != 0 {
      FirstEntryFrom(standbys[1..], name, i - 1);
    }
  }

  lemma {:induction false} FirstEntryExists(standbys: seq<Standby>, i: nat)
    requires i < |standbys|
    ensures FirstEntry(standbys, standbys[i].name).Some?
  {
    if i != 0 {
      FirstEntryExists(standbys[1..], i - 1);
    }
  }

  /** Where entries of a name keep their places and stay spent, it is still led by a spent one. */
  lemma StillLed(before: seq<Standby>, after: seq<Standby>, name: string)
    requires |before| <= |after| && LedBySpent(before, name)
    requires forall i | 0 <= i < |before| :: before[i].name == name <==> after[i].name == name
    requires forall i | 0 <= i < |before| && before[i].name == name && Spent(before[i]) :: Spent(after[i])
    ensures LedBySpent(after, name)
  {
    var i := FirstEntryIsAt(before, name);
    FirstEntryFrom(after, name, i);
  }

  /** Where all entries of a name are spent, the first one is. */
  lemma AllSpentLed(standbys: seq<Standby>, i: nat)
    requires i < |standbys|
    requires forall k | 0 <= k < |standbys| && standbys[k].name == standbys[i].name :: Spent(standbys[k])
    ensures LedBySpent(standbys, standbys[i].name)
  {
    FirstEntryExists(standbys, i);
    var first := FirstEntryIsAt(standbys, standbys[i].name);
  }

  /** An observation makes all entries of a name alike, from whatever status. */
  lemma ObservationLeads(context: Context, parameters: Parameters, status: Topology)
    ensures MarksLead(Observe(context, parameters, status).standbys)
  {
    var after := Observe(context, parameters, status).standbys;
    forall i | 0 <= i < |after| && after[i].resyncRequired ensures LedBySpent(after, after[i].name) {
      AllSpentLed(after, i);
    }
  }

  lemma MarkLeads(standbys: seq<Standby>, name: string, message: Message)
    requires MarksLead(standbys)
    ensures MarksLead(Marks(standbys, name, message, true))
  {
    var after := Marks(standbys, name, message, true);
    forall i | 0 <= i < |after| && after[i].resyncRequired ensures LedBySpent(after, after[i].name) {
      if after[i].name == name {
        AllSpentLed(after, i);
      } else {
        StillLed(standbys, after, after[i].name);
      }
    }
  }

  lemma ResyncLeads(status: Topology, name: string, message: Message)
    requires MarksLead(status.standbys)
    ensures MarksLead(Resync(status, name, message).standbys)
  {
    if !AlreadyResyncing(status, name) && MayResync(status, name) {
      var first := FirstEntryIsAt(status.standbys, name);
      MarkFirstAt(status.standbys, name, message, first);
      var after := Resync(status, name, message).standbys;
      FirstEntryFrom(after, name, first);
      forall i | 0 <= i < |after| && after[i].resyncRequired ensures LedBySpent(after, after[i].name) {
        if after[i].name != name {
          StillLed(status.standbys, after, after[i].name);
        }
      }
    }
  }

  lemma PromotionLeads(status: Topology, candidate: string)
    requires Clean(status) && Preflight(status, candidate) && MarksLead(status.standbys)
    ensures MarksLead(Promote(status, candidate).standbys)
  {
    PromotionReplaces(status, candidate);
    var before, after := status.standbys, Promote(status, candidate).standbys;
    forall i | 0 <= i < |after| && after[i].resyncRequired ensures LedBySpent(after, after[i].name) {
      if after[i].name == status.primary {
        AllSpentLed(after, i);
      } else {
        assert before[i] == after[i];
        StillLed(before, after, after[i].name);
      }
    }
  }

  /** Every mark in the run withdraws readiness. */
  predicate WithdrawingMarks(steps: seq<Step>) {
    forall i | 0 <= i < |steps| :: steps[i].Mark? ==> steps[i].withdraws
  }

  lemma {:induction false} RunLeads(status: Topology, steps: seq<Step>)
    requires Clean(status) && MarksLead(status.standbys) && FailoverPlans(steps) && WithdrawingMarks(steps)
    ensures MarksLead(Run(status, steps).standbys)
  {
    if steps != [] {
      var rest := steps[..|steps| - 1];
      RunLeads(status, rest);
      RunAdvances(status, rest);
      var before := Run(status, rest);
      match steps[|steps| - 1] {
        case Observation(context, parameters) => ObservationLeads(context, parameters, before);
        case Mark(name, message, _) => MarkLeads(before.standbys, name, message);
        case FailoverTo(candidate) =>
          if TrimSpace(before.primary) != candidate && Preflight(before, candidate) {
            PromotionLeads(before, candidate);
          }
        case ResyncOf(name, message) => ResyncLeads(before, name, message);
      }
    }
  }

  lemma {:induction false} RollbackTargetIsMarked(standbys: seq<Standby>) returns (i: nat)
    requires RollbackTarget(standbys).Some?
    ensures i < |standbys| && standbys[i].name == RollbackTarget(standbys).value && standbys[i].resyncRequired
  {
    if standbys[0].resyncRequired {
      i := 0;
    } else {
      var rest := RollbackTargetIsMarked(standbys[1..]);
      i := rest + 1;
    }
  }

  /** A rollback that is left to find its own target never changes anything: the first entry of the target it finds is
      not ready, so the preflight refuses it. */
  lemma ImplicitRollbackIsRefused(status: Topology)
    requires MarksLead(status.standbys) && RollbackTarget(status.standbys).Some?
    ensures Failover(status, RollbackTarget(status.standbys).value) == status
  {
    var i := RollbackTargetIsMarked(status.standbys);
    assert LedBySpent(status.standbys, status.standbys[i].name);
  }

  lemma PreflightTakesCandidates(status: Topology, candidate: string)
    requires Preflight(status, candidate)
    ensures candidate in Candidates(status)
  {
    var i := FirstEntryIsAt(status.standbys, candidate);
    assert !Spent(status.standbys[i]) ==> status.standbys[i].name in Candidates(status);
  }

  /** What an observed status gives as a target is spent in all its entries. */
  lemma ObservedTargetIsSpent(context: Context, parameters: Parameters, status: Topology)
    requires RollbackTarget(Observe(context, parameters, status).standbys).Some?
    ensures var after := Observe(context, parameters, status);
            RollbackTarget(after.standbys).value !in Candidates(after)
  {
    var i := RollbackTargetIsMarked(Observe(context, parameters, status).standbys);
  }

  /** A rollback is tried on a later status than its target was found in: it is still refused if all entries of the
      target were spent when it was found, whatever was observed, marked and requested since. */
  lemma DelayedRollbackIsRefused(status: Topology, steps: seq<Step>, target: string)
    requires Clean(status) && FailoverPlans(steps) && target !in Candidates(status)
    ensures Failover(Run(status, steps), target) == Run(status, steps)
  {
    RunAdvances(status, steps);
    if Preflight(Run(status, steps), target) {
      PreflightTakesCandidates(Run(status, steps), target);
    }
  }

  /* ---------- From a fresh instance on ---------- */

  /** A fresh instance lists no standbys; its plan fails over, a primary is known, and every declared standby has a
      name and one of them is not the primary. */
  predicate Fresh(context: Context, parameters: Parameters, status: Topology) {
    && status.standbys == [] && context.Failover() && Primary(context, parameters, status) != ""
    && "" !in parameters.standbys
    && exists name | name in parameters.standbys :: name != Primary(context, parameters, status)
  }

  lemma FreshInstancesAreClean(context: Context, parameters: Parameters, status: Topology)
    requires Fresh(context, parameters, status)
    ensures Clean(Observe(context, parameters, status))
  {
    var name :| name in parameters.standbys && name != Primary(context, parameters, status);
    assert name in KeptNames(context, parameters, status);
    ObservationsAreClean(context, parameters, status);
  }

  /** From the first observation of a fresh instance on, whatever is observed, marked and requested: promotions are
      bounded by the number of standbys observed first, replaced primaries never return, and while marks withdraw
      readiness no rollback finds a target of its own that it may promote. */
  lemma FreshRunsPromote(context: Context, parameters: Parameters, status: Topology, steps: seq<Step>)
    requires Fresh(context, parameters, status) && FailoverPlans(steps)
    ensures var start := Observe(context, parameters, status);
            var end := Run(start, steps);
            && Clean(end) && Clusters(end) == Clusters(start)
            && |end.standbys| == |start.standbys| + Promotions(start, steps)
            && Promotions(start, steps) <= |NameSet(start.standbys)|
            && (forall candidate: string, more: seq<Step> | Preflight(end, candidate) && FailoverPlans(more) ::
                  Run(Promote(end, candidate), more).primary != end.primary)
            && (WithdrawingMarks(steps) && RollbackTarget(end.standbys).Some? ==>
                  Failover(end, RollbackTarget(end.standbys).value) == end)
  {
    var start := Observe(context, parameters, status);
    var end := Run(start, steps);
    FreshInstancesAreClean(context, parameters, status);
    RunAdvances(start, steps);
    SubsetIsSmaller(Candidates(start), NameSet(start.standbys));
    forall candidate: string, more: seq<Step> | Preflight(end, candidate) && FailoverPlans(more)
      ensures Run(Promote(end, candidate), more).primary != end.primary
    {
      FormerPrimaryNeverReturns(end, candidate, more);
    }
    if WithdrawingMarks(steps) && RollbackTarget(end.standbys).Some? {
      ObservationLeads(context, parameters, status);
      RunLeads(start, steps);
      ImplicitRollbackIsRefused(end);
    }
  }
}
