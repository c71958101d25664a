/** Which cluster an observation takes for the primary, which standbys it lists, which lag it gives them, and whom a
    failover may promote: told by parameters and stored entries alone. */
module ValkeyLags {
  import opened Options
  import opened Sequences
  import opened Text
  import opened ValkeyTopology
  import opened ValkeyRuns

  /* ---------- One observation ---------- */

  /** The threshold: as given, unless that is negative, or else 30. */
  function Threshold(parameters: Parameters): int {
    match parameters.maxLag
    case Some(given) => if given < 0 then 30 else given
    case None => 30
  }

  /** The last entry of a name, if it has any. */
  ghost predicate LastOf(standbys: seq<Standby>, name: string, entry: Standby) {
    exists i | 0 <= i < |standbys| :: IsLastOf(standbys, name, i) && standbys[i] == entry
  }

  ghost predicate IsLastOf(standbys: seq<Standby>, name: string, i: int)
    requires 0 <= i < |standbys|
  {
    standbys[i].name == name && forall k | i < k < |standbys| :: standbys[k].name != name
  }

  lemma LastOfIsLookedUp(standbys: seq<Standby>, name: string, entry: Standby)
    requires LastOf(standbys, name, entry)
    ensures LastEntry(standbys, name) == entry
  {
    var i :| 0 <= i < |standbys| && IsLastOf(standbys, name, i) && standbys[i] == entry;
    LastEntryFrom(standbys, name, i);
  }

  lemma LookedUpIsLastOf(standbys: seq<Standby>, name: string)
    requires exists k :: 0 <= k < |standbys| && standbys[k].name == name
    ensures LastOf(standbys, name, LastEntry(standbys, name))
  {
    var i := LastIndex(standbys, name);
    LastEntryFrom(standbys, name, i);
    assert IsLastOf(standbys, name, i);
  }

  /** What an entry says after an observation: a reported lag is taken over, else the one observed before, else there is
      none; the mark is carried over, with its message; and it is ready exactly when a lag is known, within the
      threshold, and unmarked, which is what its message says otherwise. */
  ghost predicate Reads(parameters: Parameters, before: Standby, after: Standby) {
    && after.resyncRequired == before.resyncRequired
    && (if after.name in parameters.lags then after.lagObserved && after.lag == parameters.lags[after.name]
        else after.lagObserved == before.lagObserved && after.lag == if before.lagObserved then before.lag else 0)
    && (after.ready <==> after.lagObserved && after.lag <= Threshold(parameters) && !after.resyncRequired)
    && after.message == (if after.resyncRequired && before.message != NoMessage then before.message
                         else if after.resyncRequired then NeedsResync
                         else if !after.lagObserved then NotObserved
                         else if after.ready then WithinThreshold(after.lag, Threshold(parameters))
                         else AboveThreshold(after.lag, Threshold(parameters)))
  }

  /** For every status: each observed entry reads the last stored entry of its name, or nothing if there is none; and
      the service is Ready exactly when one of them is, else Blocked. */
  lemma ObservationReads(context: Context, parameters: Parameters, status: Topology, i: nat)
    requires context.Failover() && i < |Observe(context, parameters, status).standbys|
    ensures var entry := Observe(context, parameters, status).standbys[i];
            && (forall before | LastOf(status.standbys, entry.name, before) :: Reads(parameters, before, entry))
            && ((forall k | 0 <= k < |status.standbys| :: status.standbys[k].name != entry.name) ==>
                  Reads(parameters, NO_STANDBY, entry))
  {
    var entry := Observe(context, parameters, status).standbys[i];
    forall before | LastOf(status.standbys, entry.name, before) ensures Reads(parameters, before, entry) {
      LastOfIsLookedUp(status.standbys, entry.name, before);
    }
    if forall k | 0 <= k < |status.standbys| :: status.standbys[k].name != entry.name {
      assert entry.name !in Names(status.standbys);
      UnknownEntry(status.standbys, entry.name);
    }
  }

  lemma ReadinessIsThatOfEntries(context: Context, parameters: Parameters, status: Topology)
    requires context.Failover()
    ensures var after := Observe(context, parameters, status);
            && (after.readiness.Ready? <==> exists i :: 0 <= i < |after.standbys| && after.standbys[i].ready)
            && (after.readiness.Ready? || after.readiness.Blocked?)
  {
    CountsReady(Observe(context, parameters, status).standbys);
  }

  /** The primary is the stored one, else the one the parameters name, else the cluster of the placement. Listed are, in
      order, the named standbys of the status if it has any, else those of the parameters, in both cases without the
      primary. */
  lemma ObservationLists(context: Context, parameters: Parameters, status: Topology)
    requires context.Failover()
    ensures var after := Observe(context, parameters, status);
            && after.mode == context.mode
            && after.primary == (if status.primary != "" then status.primary
                                 else if parameters.primary != "" then parameters.primary else context.placement)
            && (status.standbys == [] ==>
                  Names(after.standbys) == Filter(parameters.standbys, (name: string) => name != after.primary))
            && (status.standbys != [] ==>
                  Names(after.standbys)
                  == Filter(Names(status.standbys), (name: string) => name != "" && name != after.primary))
  {
    var after := Observe(context, parameters, status);
    ObservedEntries(parameters, status.standbys, KeptNames(context, parameters, status));
    if status.standbys == [] {
      FilterAgrees(parameters.standbys, NotEqual(after.primary), (name: string) => name != after.primary);
    } else {
      FilterTwice(Names(status.standbys), NotEqual(""), NotEqual(after.primary),
                  (name: string) => name != "" && name != after.primary);
    }
  }

  lemma {:induction false} FilterTwice(s: seq<string>, first: string -> bool, second: string -> bool,
                                       both: string -> bool)
    requires forall x :: both(x) <==> first(x) && second(x)
    ensures Filter(Filter(s, first), second) == Filter(s, both)
  {
    if s != [] {
      var rest, last := s[..|s| - 1], s[|s| - 1];
      FilterTwice(rest, first, second, both);
      var kept := Filter(rest, first);
      if first(last) {
        var more := kept + [last];
        assert Filter(s, first) == more && more[..|more| - 1] == kept && more[|more| - 1] == last;
      } else {
        assert Filter(s, first) == kept + [] == kept;
      }
    }
  }

  /* ---------- Runs ---------- */

  ghost predicate ListedOnce(standbys: seq<Standby>, name: string) {
    forall i, j | 0 <= i < |standbys| && 0 <= j < |standbys| && standbys[i].name == name == standbys[j].name :: i == j
  }

  ghost predicate Listed(standbys: seq<Standby>, name: string) {
    exists i :: 0 <= i < |standbys| && standbys[i].name == name
  }

  /** The lag of a standby after a run, told by what was reported: the last reported one, unless a request has since
      marked the standby, listed once, or a promotion has demoted or used it up; before any report, the one stored at
      the start. */
  ghost function LastReported(status: Topology, steps: seq<Step>, name: string): Option<int> {
    if steps == [] then StoredLag(status, name)
    else
      var rest, last := steps[..|steps| - 1], steps[|steps| - 1];
      var known, before, after := LastReported(status, rest, name), Run(status, rest), Run(status, steps);
      match last
      case Observation(_, parameters) =>
        if name in parameters.lags && Listed(before.standbys, name) then Some(parameters.lags[name]) else known
      case Mark(_, _, _) => known
      case ResyncOf(other, _) =>
        if other == name && after.standbys != before.standbys && ListedOnce(before.standbys, name) then None else known
      case FailoverTo(candidate) =>
        if after.primary != before.primary && (name == candidate || name == before.primary) then None else known
  }

  ghost function StoredLag(status: Topology, name: string): Option<int> {
    var entry := LastEntry(status.standbys, name);
    if entry.lagObserved then Some(entry.lag) else None
  }

  lemma ObservationTakesReport(context: Context, parameters: Parameters, status: Topology, name: string)
    requires Clean(status) && context.Failover()
    ensures StoredLag(Observe(context, parameters, status), name)
         == if name in parameters.lags && Listed(status.standbys, name) then Some(parameters.lags[name])
            else StoredLag(status, name)
  {
    CleanKeepsNames(context, parameters, status);
    var after := Observe(context, parameters, status);
    if i :| 0 <= i < |status.standbys| && status.standbys[i].name == name {
      assert Names(status.standbys)[i] == name;
      ObservedEntries(parameters, status.standbys, Names(status.standbys));
    } else {
      assert name !in Names(status.standbys);
      UnknownEntry(status.standbys, name);
      UnknownEntry(after.standbys, name);
    }
  }

  lemma {:induction false} MarksKeepLags(standbys: seq<Standby>, name: string, message: Message, withdraws: bool,
                                         other: string)
    ensures var before := LastEntry(standbys, other);
            var after := LastEntry(Marks(standbys, name, message, withdraws), other);
            after.lagObserved == before.lagObserved && after.lag == before.lag
  {
    if standbys != [] {
      MarksOfPrefix(standbys, name, message, withdraws);
      MarksKeepLags(standbys[..|standbys| - 1], name, message, withdraws, other);
    }
  }

  /** Entries of a name that stay where they were, with the same last one. */
  lemma SameLast(before: seq<Standby>, after: seq<Standby>, name: string)
    requires |before| <= |after| && forall i | |before| <= i < |after| :: after[i].name != name
    requires forall i | 0 <= i < |before| :: before[i].name == name <==> after[i].name == name
    requires forall i | 0 <= i < |before| && IsLastOf(before, name, i) :: after[i] == before[i]
    ensures LastEntry(after, name) == LastEntry(before, name)
  {
    if Listed(before, name) {
      var i := LastIndex(before, name);
      assert IsLastOf(before, name, i);
      LastEntryFrom(before, name, i);
      LastEntryFrom(after, name, i);
    } else {
      forall i | 0 <= i < |after| ensures after[i].name != name {
        if i < |before| {
          assert before[i].name != name;
        }
      }
      assert name !in Names(before) && name !in Names(after);
      UnknownEntry(before, name);
      UnknownEntry(after, name);
    }
  }

  lemma ResyncClears(status: Topology, other: string, message: Message, name: string)
    ensures var after := Resync(status, other, message);
            StoredLag(after, name)
            == if other == name && after.standbys != status.standbys && ListedOnce(status.standbys, name) then None
               else StoredLag(status, name)
  {
    var after := Resync(status, other, message);
    if !AlreadyResyncing(status, other) && MayResync(status, other) {
      var first := FirstEntryIsAt(status.standbys, other);
      MarkFirstAt(status.standbys, other, message, first);
      assert after.standbys[first] != status.standbys[first];
      if other == name && ListedOnce(status.standbys, name) {
        LastEntryFrom(after.standbys, name, first);
      } else if other == name {
        var last := LastIndex(status.standbys, name);
        assert last != first;
        LastEntryFrom(status.standbys, name, last);
        LastEntryFrom(after.standbys, name, last);
      } else {
        SameLast(status.standbys, after.standbys, name);
      }
    }
  }

  lemma PromotionClears(status: Topology, candidate: string, name: string)
    requires Clean(status) && Preflight(status, candidate)
    ensures StoredLag(Promote(status, candidate), name)
         == if name == candidate || name == status.primary then None else StoredLag(status, name)
  {
    PromotionReplaces(status, candidate);
    var before, after := status.standbys, Promote(status, candidate).standbys;
    if name == status.primary {
      LastEntryFrom(after, name, |before|);
    } else if name == candidate {
      forall i | 0 <= i < |after| ensures after[i].name != name {
        if i < |before| {
          assert after[i] == if before[i].name == candidate then Demoted(status.primary) else before[i];
        }
      }
      assert name !in Names(after);
      UnknownEntry(after, name);
    } else {
      SameLast(before, after, name);
    }
  }

  /** Over any run: the lag that is stored for a standby is the last one reported since it was last marked by a request,
      demoted, or promoted. */
  lemma {:induction false} LagIsLastReported(status: Topology, steps: seq<Step>, name: string)
    requires Clean(status) && FailoverPlans(steps)
    ensures StoredLag(Run(status, steps), name) == LastReported(status, steps, name)
  {
    if steps != [] {
      var rest, last := steps[..|steps| - 1], steps[|steps| - 1];
      var before := Run(status, rest);
      LagIsLastReported(status, rest, name);
      RunAdvances(status, rest);
      match last {
        case Observation(context, parameters) => ObservationTakesReport(context, parameters, before, name);
        case Mark(other, message, withdraws) => MarksKeepLags(before.standbys, other, message, withdraws, name);
        case ResyncOf(other, message) => ResyncClears(before, other, message, name);
        case FailoverTo(candidate) =>
          if TrimSpace(before.primary) != candidate && Preflight(before, candidate) {
            PromotionAdvances(before, candidate);
            PromotionClears(before, candidate, name);
          }
      }
    }
  }

  /** A standby that a run's last observation says is ready has a last reported lag, and it is within that observation's
      threshold. */
  lemma ReadyMeansRecentLag(status: Topology, steps: seq<Step>, i: nat)
    requires Clean(status) && FailoverPlans(steps) && steps != [] && steps[|steps| - 1].Observation?
    requires i < |Run(status, steps).standbys| && Run(status, steps).standbys[i].ready
    ensures var lag := LastReported(status, steps, Run(status, steps).standbys[i].name);
            lag.Some? && lag.value <= Threshold(steps[|steps| - 1].parameters)
  {
    var Observation(context, parameters) := steps[|steps| - 1];
    var before, after := Run(status, steps[..|steps| - 1]), Run(status, steps);
    var entry := after.standbys[i];
    LagIsLastReported(status, steps, entry.name);
    RunAdvances(status, steps[..|steps| - 1]);
    CleanKeepsNames(context, parameters, before);
    assert Names(after.standbys)[i] == entry.name;
    ObservedEntries(parameters, before.standbys, Names(before.standbys));
    assert entry == Observed(parameters, LastEntry(before.standbys, entry.name), entry.name);
  }

  /* ---------- Who may be promoted and resynchronised ---------- */

  /** The first entry of a name. */
  ghost predicate IsFirstOf(standbys: seq<Standby>, name: string, i: int) {
    0 <= i < |standbys| && standbys[i].name == name && forall k | 0 <= k < i :: standbys[k].name != name
  }

  /** The candidate is the primary, every entry of its name has become one of the former primary, marked, not ready and
      without a lag, and if the former primary was not listed before one more such entry is added. */
  ghost predicate Promoted(before: Topology, after: Topology, candidate: string) {
    var demoted := Standby(before.primary, false, true, false, 0, FormerPrimary);
    && after.primary == candidate && after.readiness == Readiness.Promoted
    && after.mode == before.mode && after.traffic == before.traffic && |before.standbys| <= |after.standbys|
    && (forall i | 0 <= i < |before.standbys| ::
          after.standbys[i] == if before.standbys[i].name == candidate then demoted else before.standbys[i])
    && after.standbys[|before.standbys|..] == if Listed(before.standbys, before.primary) then [] else [demoted]
  }

  /** A failover is accepted exactly under a multi-cluster plan, with a known primary that is another cluster, for a
      standby whose first entry is ready; then it is promoted, and otherwise nothing changes. */
  lemma FailoverAcceptedIff(status: Topology, candidate: string)
    requires candidate == TrimSpace(candidate)
    ensures var accepted :=
              && status.mode == "multi-cluster-failover" && status.primary != "" && candidate != status.primary
              && candidate != TrimSpace(status.primary)
              && exists i :: IsFirstOf(status.standbys, candidate, i) && status.standbys[i].ready;
            && (accepted ==> Promoted(status, Failover(status, candidate), candidate))
            && (!accepted ==> Failover(status, candidate) == status)
  {
    if i :| IsFirstOf(status.standbys, candidate, i) {
      FirstEntryFrom(status.standbys, candidate, i);
    }
    if FirstEntry(status.standbys, candidate).Some? {
      var i := FirstEntryIsAt(status.standbys, candidate);
      assert IsFirstOf(status.standbys, candidate, i);
    }
    if Preflight(status, candidate) && TrimSpace(status.primary) != candidate {
      PromotionIs(status, candidate);
    }
  }

  lemma PromotionIs(status: Topology, candidate: string)
    requires status.primary != "" && candidate != status.primary
    ensures Promoted(status, Promote(status, candidate), candidate)
  {
    var names := Names(status.standbys);
    assert Listed(status.standbys, status.primary) <==> status.primary in names by {
      assert forall i | 0 <= i < |names| :: names[i] == status.standbys[i].name;
    }
  }

  /** A resynchronisation is accepted exactly under a multi-cluster plan, for a known standby other than the primary
      whose first entry is ready or not yet marked; that entry is then marked, not ready and without a lag. */
  lemma ResyncAcceptedIff(status: Topology, name: string, message: Message)
    ensures var after := Resync(status, name, message);
            && (forall i | status.mode == "multi-cluster-failover" && name != status.primary
                           && IsFirstOf(status.standbys, name, i)
                           && (status.standbys[i].ready || !status.standbys[i].resyncRequired) ::
                  after.standbys == status.standbys[i := Standby(name, false, true, false, 0, message)])
            && (!(status.mode == "multi-cluster-failover" && name != status.primary
                  && exists i :: IsFirstOf(status.standbys, name, i)
                                 && (status.standbys[i].ready || !status.standbys[i].resyncRequired)) ==>
                  after == status)
  {
    if i :| IsFirstOf(status.standbys, name, i) {
      MarkFirstAt(status.standbys, name, message, i);
    }
    if FirstEntry(status.standbys, name).Some? {
      var i := FirstEntryIsAt(status.standbys, name);
      assert IsFirstOf(status.standbys, name, i);
    }
  }
}
