/** The reconciler and the action executor write the same status. The reconciler stores what it computed from an earlier
    read over whatever is there by then; these are the runs in which that happens. */
module ValkeyInterleavings {
  import opened Options
  import opened Text
  import opened ValkeyTopology
  import opened ValkeyRuns

  /** What a reconciliation has read and not yet stored. */
  datatype Reading = Reading(snapshot: Topology, context: Context, parameters: Parameters)

  /** `target` is what a rollback without an explicit target has found and not yet tried; `retired` remembers the
      primaries that accepted promotions have replaced. */
  datatype System = System(status: Topology, reading: Option<Reading>, target: Option<string>, retired: set<string>)

  /** One reconciliation at a time: it reads, and later stores the topology it observed, or the one it read if it stops
      early with other news; it stores nothing only if it has no news at all, or gives up. */
  datatype Event =
    | Read(context: Context, parameters: Parameters)
    | Store(observed: bool)
    | GiveUp
    | Request(step: Step)
    | FindTarget
    | Rollback

  function Desired(reading: Reading, observed: bool): Topology {
    if observed then Observe(reading.context, reading.parameters, reading.snapshot) else reading.snapshot
  }

  ghost predicate Enabled(system: System, event: Event) {
    match event
    case Read(_, _) => system.reading.None?
    case Store(_) => system.reading.Some?
    case GiveUp => system.reading.Some?
    case Request(step) => !step.Observation?
    case FindTarget => system.target.None?
    case Rollback => system.target.Some?
  }

  /** A status change by a request; a changed primary is a promotion, which retires the former one. */
  function Changed(system: System, next: Topology): System {
    var retired := if next.primary == system.status.primary then {} else {system.status.primary};
    system.(status := next, retired := system.retired + retired)
  }

  ghost function Deliver(system: System, event: Event): System
    requires Enabled(system, event)
  {
    match event
    case Read(context, parameters) => system.(reading := Some(Reading(system.status, context, parameters)))
    case Store(observed) => system.(status := Desired(system.reading.value, observed), reading := None)
    case GiveUp => system.(reading := None)
    case Request(step) => Changed(system, Apply(system.status, step))
    case FindTarget => system.(target := RollbackTarget(system.status.standbys))
    case Rollback => Changed(system, Failover(system.status, system.target.value)).(target := None)
  }

  ghost predicate Runs(start: System, events: seq<Event>, end: System)
    decreases |events|
  {
    if events == [] then start == end
    else Enabled(start, events[0]) && Runs(Deliver(start, events[0]), events[1..], end)
  }

  /** Whether an event is an accepted promotion. */
  function Counts(start: System, event: Event, next: System): nat {
    if !event.Store? && next.status.primary != start.status.primary then 1 else 0
  }

  /** The promotions that a run accepts. */
  ghost function Accepted(start: System, events: seq<Event>): nat
    decreases |events|
  {
    if events == [] || !Enabled(start, events[0]) then 0
    else
      var next := Deliver(start, events[0]);
      Accepted(next, events[1..]) + Counts(start, events[0], next)
  }

  /* ---------- What one late store undoes ---------- */

  /** A store undoes the promotions since its read, exactly if there were any: then the primary of that time is back. */
  lemma StoreKeepsPrimaryIff(context: Context, parameters: Parameters, snapshot: Topology, steps: seq<Step>)
    requires Clean(snapshot) && context.Failover() && FailoverPlans(steps)
    ensures Observe(context, parameters, snapshot).primary == snapshot.primary
    ensures Observe(context, parameters, snapshot).primary == Run(snapshot, steps).primary
       <==> Promotions(snapshot, steps) == 0
  {
    CleanKeepsNames(context, parameters, snapshot);
    RunLeavesPrimaryIff(snapshot, steps);
  }

  /** A primary that is replaced does not come back in a run, so the first and the last primary are one only if there
      was no promotion. */
  lemma {:induction false} RunLeavesPrimaryIff(status: Topology, steps: seq<Step>)
    requires Clean(status) && FailoverPlans(steps)
    ensures Run(status, steps).primary == status.primary <==> Promotions(status, steps) == 0
    ensures Promotions(status, steps) != 0 ==> status.primary !in Candidates(Run(status, steps))
  {
    if steps != [] {
      var rest := steps[..|steps| - 1];
      RunLeavesPrimaryIff(status, rest);
      RunAdvances(status, rest);
      StepAdvances(Run(status, rest), steps[|steps| - 1]);
    }
  }

  lemma ObservationKeepsFlags(context: Context, parameters: Parameters, status: Topology, name: string)
    requires Clean(status) && context.Failover()
    ensures Flagged(Observe(context, parameters, status), name) == Flagged(status, name)
  {
    CleanKeepsNames(context, parameters, status);
    var after := Observe(context, parameters, status);
    if name in Names(status.standbys) {
      ObservedEntries(parameters, status.standbys, Names(status.standbys));
    } else {
      UnknownEntry(status.standbys, name);
      UnknownEntry(after.standbys, name);
    }
  }

  /** A store undoes no resynchronisation mark exactly when every standby that is marked by then was marked at the
      read. */
  lemma StoreKeepsMarksIff(context: Context, parameters: Parameters, snapshot: Topology, current: Topology)
    requires Clean(snapshot) && context.Failover()
    ensures (forall name | Flagged(current, name) :: Flagged(Observe(context, parameters, snapshot), name))
       <==> forall name | Flagged(current, name) :: Flagged(snapshot, name)
  {
    forall name ensures Flagged(Observe(context, parameters, snapshot), name) == Flagged(snapshot, name) {
      ObservationKeepsFlags(context, parameters, snapshot, name);
    }
  }

  /* ---------- When replaced primaries stay out ---------- */

  /** The store would change the primary: a promotion has been accepted since its read. */
  ghost predicate Overtaken(system: System, event: Event) {
    event.Store? && system.reading.Some?
        && Desired(system.reading.value, event.observed).primary != system.status.primary
  }

  ghost predicate NeverOvertaken(start: System, events: seq<Event>)
    decreases |events|
  {
    events == [] ||
    (Enabled(start, events[0]) && !Overtaken(start, events[0])
     && NeverOvertaken(Deliver(start, events[0]), events[1..]))
  }

  /** At no point of the run is a replaced primary the primary. */
  ghost predicate StayOut(start: System, events: seq<Event>)
    decreases |events|
  {
    && start.status.primary !in start.retired
    && (events == [] || (Enabled(start, events[0]) && StayOut(Deliver(start, events[0]), events[1..])))
  }

  /** Every reconciliation reads a failover plan. */
  predicate FailoverReads(events: seq<Event>) {
    forall i | 0 <= i < |events| :: events[i].Read? ==> events[i].context.Failover()
  }

  /** A topology in which no retired cluster can be promoted. */
  ghost predicate Keeps(status: Topology, clusters: set<string>, retired: set<string>) {
    && Clean(status) && Clusters(status) == clusters
    && status.primary !in retired && retired !! Candidates(status)
  }

  /** A reading that has not been overtaken is as good as the status; one that has been is a retired primary's. */
  ghost predicate Sound(system: System, clusters: set<string>) {
    && Keeps(system.status, clusters, system.retired) && system.retired <= clusters
    && (system.reading.Some? ==>
          && var Reading(snapshot, context, _) := system.reading.value;
             && Clean(snapshot) && context.Failover()
             && (if snapshot.primary == system.status.primary
                 then Keeps(snapshot, clusters, system.retired) && |snapshot.standbys| == |system.status.standbys|
                 else snapshot.primary in system.retired))
  }

  lemma DesiredKeepsPrimary(reading: Reading, observed: bool)
    requires Clean(reading.snapshot) && reading.context.Failover()
    ensures Desired(reading, observed).primary == reading.snapshot.primary
    ensures Advances(reading.snapshot, Desired(reading, observed))
  {
    if observed {
      ObservationAdvances(reading.context, reading.parameters, reading.snapshot);
      CleanKeepsNames(reading.context, reading.parameters, reading.snapshot);
    } else {
      SamePlacesAdvance(reading.snapshot, reading.snapshot);
    }
  }

  lemma StoreStaysSound(system: System, observed: bool, clusters: set<string>)
    requires Sound(system, clusters) && system.reading.Some?
    ensures Overtaken(system, Store(observed))
       <==> Deliver(system, Store(observed)).status.primary in system.retired
    ensures !Overtaken(system, Store(observed)) ==>
              && Sound(Deliver(system, Store(observed)), clusters)
              && |Deliver(system, Store(observed)).status.standbys| == |system.status.standbys|
  {
    DesiredKeepsPrimary(system.reading.value, observed);
  }

  lemma ChangeStaysSound(system: System, next: Topology, clusters: set<string>)
    requires Sound(system, clusters) && Advances(system.status, next)
    ensures Sound(Changed(system, next), clusters)
    ensures |next.standbys| == |system.status.standbys| + |Changed(system, next).retired| - |system.retired|
    ensures |Changed(system, next).retired|
         == |system.retired| + if next.primary != system.status.primary then 1 else 0
  {
    if next.primary != system.status.primary {
      assert Changed(system, next).retired == system.retired + {system.status.primary};
    } else {
      assert Changed(system, next).retired == system.retired;
    }
  }

  lemma FailoverAdvances(status: Topology, candidate: string)
    requires Clean(status)
    ensures Advances(status, Failover(status, candidate))
  {
    StepAdvances(status, FailoverTo(candidate));
  }

  /** Every event but an overtaken store keeps the system sound, and each retirement lengthens the standby list by
      one. */
  lemma EventStaysSound(system: System, event: Event, clusters: set<string>)
    requires Sound(system, clusters) && Enabled(system, event) && !Overtaken(system, event)
    requires event.Read? ==> event.context.Failover()
    ensures var next := Deliver(system, event);
            && Sound(next, clusters)
            && |next.status.standbys| + |system.retired| == |system.status.standbys| + |next.retired|
            && |next.retired| == |system.retired| + Counts(system, event, next)
  {
    match event
    case Store(observed) => StoreStaysSound(system, observed, clusters);
    case Request(step) =>
      StepAdvances(system.status, step);
      ChangeStaysSound(system, Apply(system.status, step), clusters);
    case Rollback =>
      FailoverAdvances(system.status, system.target.value);
      ChangeStaysSound(system, Failover(system.status, system.target.value), clusters);
    case _ =>
  }

  lemma {:induction false} StayOutIff(start: System, events: seq<Event>, end: System, clusters: set<string>)
    requires Sound(start, clusters) && Runs(start, events, end) && FailoverReads(events)
    ensures StayOut(start, events) <==> NeverOvertaken(start, events)
    decreases |events|
  {
    if events != [] {
      var next, rest := Deliver(start, events[0]), events[1..];
      assert FailoverReads(rest) by {
        forall i | 0 <= i < |rest| ensures rest[i].Read? ==> rest[i].context.Failover() {
          assert rest[i] == events[i + 1];
        }
      }
      if Overtaken(start, events[0]) {
        StoreStaysSound(start, events[0].observed, clusters);
      } else {
        EventStaysSound(start, events[0], clusters);
        StayOutIff(next, rest, end, clusters);
      }
    }
  }

  /** From any clean status on, in any interleaving: no replaced primary is ever primary again exactly when no store
      has been overtaken by a promotion since its read. */
  lemma FormerPrimariesStayOutIff(status: Topology, events: seq<Event>, end: System)
    requires Clean(status) && Runs(Initial(status), events, end) && FailoverReads(events)
    ensures StayOut(Initial(status), events) <==> NeverOvertaken(Initial(status), events)
  {
    StayOutIff(Initial(status), events, end, Clusters(status));
  }

  function Initial(status: Topology): System {
    System(status, None, None, {})
  }

  lemma {:induction false} RunStaysSound(start: System, events: seq<Event>, end: System, clusters: set<string>)
    requires Sound(start, clusters) && Runs(start, events, end) && FailoverReads(events)
             && NeverOvertaken(start, events)
    ensures Sound(end, clusters)
    ensures |end.status.standbys| + |start.retired| == |start.status.standbys| + |end.retired|
    ensures |end.retired| == |start.retired| + Accepted(start, events)
    decreases |events|
  {
    if events != [] {
      var next, rest := Deliver(start, events[0]), events[1..];
      assert FailoverReads(rest) by {
        forall i | 0 <= i < |rest| ensures rest[i].Read? ==> rest[i].context.Failover() {
          assert rest[i] == events[i + 1];
        }
      }
      EventStaysSound(start, events[0], clusters);
      RunStaysSound(next, rest, end, clusters);
    }
  }

  /** While no store is overtaken by a promotion, whatever else interleaves: the clusters stay the same, every promotion
      retires another one and lengthens the standby list by one entry, and at most all standbys get their turn. */
  lemma InterleavedPromotionsAreBounded(status: Topology, events: seq<Event>, end: System)
    requires Clean(status) && Runs(Initial(status), events, end) && FailoverReads(events)
    requires NeverOvertaken(Initial(status), events)
    ensures Clean(end.status) && Clusters(end.status) == Clusters(status)
    ensures |end.status.standbys| == |status.standbys| + Accepted(Initial(status), events)
    ensures Accepted(Initial(status), events) == |end.retired| <= |NameSet(status.standbys)|
  {
    RunStaysSound(Initial(status), events, end, Clusters(status));
    var names := NameSet(status.standbys);
    assert Clusters(status) == names + {status.primary};
    SubsetIsSmaller(end.retired, Clusters(status) - {end.status.primary});
    assert |Clusters(status) - {end.status.primary}| == |Clusters(status)| - 1;
  }

  /* ---------- Timely stores ---------- */

  /** Every store finds the status that was read. */
  ghost predicate Timely(start: System, events: seq<Event>)
    decreases |events|
  {
    events == [] ||
    (&& Enabled(start, events[0])
     && (events[0].Store? ==> start.reading.value.snapshot == start.status)
     && Timely(Deliver(start, events[0]), events[1..]))
  }

  /** The steps that a timely event amounts to. */
  ghost function StepsOf(system: System, event: Event): seq<Step>
    requires Enabled(system, event)
  {
    match event
    case Store(true) => [Observation(system.reading.value.context, system.reading.value.parameters)]
    case Request(step) => [step]
    case Rollback => [FailoverTo(system.target.value)]
    case _ => []
  }

  lemma {:induction false} RunFrom(status: Topology, first: seq<Step>, more: seq<Step>)
    ensures Run(status, first + more) == Run(Run(status, first), more)
  {
    if more == [] {
      assert first + more == first;
    } else {
      assert (first + more)[..|first + more| - 1] == first + more[..|more| - 1];
      RunFrom(status, first, more[..|more| - 1]);
    }
  }

  lemma TimelyEventIsARun(system: System, event: Event)
    requires Enabled(system, event) && (event.Store? ==> system.reading.value.snapshot == system.status)
    ensures Deliver(system, event).status == Run(system.status, StepsOf(system, event))
  {
    var steps := StepsOf(system, event);
    if |steps| == 1 {
      assert steps[..0] == [];
    }
  }

  /** While every store finds the status that was read, the interleaved run is one of the runs in which observations are
      read and stored at once, and what is proved of those holds. */
  lemma {:induction false} TimelyRunsAreRuns(start: System, events: seq<Event>, end: System) returns (steps: seq<Step>)
    requires Runs(start, events, end) && Timely(start, events)
    requires FailoverReads(events) && (start.reading.Some? ==> start.reading.value.context.Failover())
    ensures FailoverPlans(steps) && end.status == Run(start.status, steps)
    decreases |events|
  {
    if events == [] {
      steps := [];
    } else {
      var next, rest, first := Deliver(start, events[0]), events[1..], StepsOf(start, events[0]);
      assert FailoverReads(rest) by {
        forall i | 0 <= i < |rest| ensures rest[i].Read? ==> rest[i].context.Failover() {
          assert rest[i] == events[i + 1];
        }
      }
      TimelyEventIsARun(start, events[0]);
      var more := TimelyRunsAreRuns(next, rest, end);
      RunFrom(start.status, first, more);
      steps := first + more;
    }
  }

  /* ---------- What overtaken stores allow ---------- */

  /** A reconciliation reads, a failover is accepted, and the observation is stored. */
  function LateRound(context: Context, parameters: Parameters, candidate: string): seq<Event> {
    [Read(context, parameters), Request(FailoverTo(candidate)), Store(true)]
  }

  function LateRounds(context: Context, parameters: Parameters, candidate: string, rounds: nat): seq<Event> {
    if rounds == 0 then []
    else LateRound(context, parameters, candidate) + LateRounds(context, parameters, candidate, rounds - 1)
  }

  lemma AfterEvent(start: System, event: Event, more: seq<Event>, end: System)
    requires Enabled(start, event) && Runs(Deliver(start, event), more, end)
    ensures var next := Deliver(start, event);
            && Runs(start, [event] + more, end)
            && Accepted(start, [event] + more) == Accepted(next, more) + Counts(start, event, next)
  {
    assert ([event] + more)[1..] == more;
  }

  lemma ThreeEvents(start: System, a: Event, one: System, b: Event, two: System, c: Event, three: System,
                    more: seq<Event>, end: System)
    requires Enabled(start, a) && one == Deliver(start, a) && Enabled(one, b) && two == Deliver(one, b)
    requires Enabled(two, c) && three == Deliver(two, c) && Runs(three, more, end)
    ensures Runs(start, [a, b, c] + more, end)
    ensures Accepted(start, [a, b, c] + more)
         == Counts(start, a, one) + Counts(one, b, two) + Counts(two, c, three) + Accepted(three, more)
  {
    AfterEvent(two, c, more, end);
    AfterEvent(one, b, [c] + more, end);
    AfterEvent(start, a, [b] + ([c] + more), end);
    assert [a] + ([b] + ([c] + more)) == [a, b, c] + more;
  }

  lemma LateRoundStates(context: Context, parameters: Parameters, start: System, candidate: string)
    returns (one: System, two: System, three: System)
    requires Clean(start.status) && context.Failover() && start.reading.None?
    requires Observe(context, parameters, start.status) == start.status
    requires Preflight(start.status, candidate) && TrimSpace(start.status.primary) != candidate
    ensures one == Deliver(start, Read(context, parameters)) && one.status == start.status
    ensures Enabled(one, Request(FailoverTo(candidate))) && two == Deliver(one, Request(FailoverTo(candidate)))
    ensures two.status.primary != start.status.primary
    ensures Enabled(two, Store(true)) && three == Deliver(two, Store(true))
    ensures three == start.(retired := start.retired + {start.status.primary})
  {
    one := Deliver(start, Read(context, parameters));
    two := Deliver(one, Request(FailoverTo(candidate)));
    three := Deliver(two, Store(true));
    PromotionAdvances(start.status, candidate);
    assert two.status == Promote(start.status, candidate) && two.reading == one.reading;
  }

  /** A late round leads back to where it began, with one promotion accepted. */
  lemma LateRoundReturns(context: Context, parameters: Parameters, start: System, candidate: string, more: seq<Event>,
                         end: System)
    requires Clean(start.status) && context.Failover() && start.reading.None?
    requires Observe(context, parameters, start.status) == start.status
    requires Preflight(start.status, candidate) && TrimSpace(start.status.primary) != candidate
    requires Runs(start.(retired := start.retired + {start.status.primary}), more, end)
    ensures var events := LateRound(context, parameters, candidate) + more;
            && Runs(start, events, end)
            && Accepted(start, events) == Accepted(start.(retired := start.retired + {start.status.primary}), more) + 1
  {
    var read, fail, store := Read(context, parameters), Request(FailoverTo(candidate)), Store(true);
    var one, two, three := LateRoundStates(context, parameters, start, candidate);
    ThreeEvents(start, read, one, fail, two, store, three, more, end);
  }

  /** Stores that are overtaken every time undo every promotion, so any number of promotions is accepted and the
      status is what it was. */
  lemma {:induction false} LateStoresRepeat(context: Context, parameters: Parameters, start: System, candidate: string,
                                            rounds: nat)
    returns (end: System)
    requires Clean(start.status) && context.Failover() && start.reading.None?
    requires Observe(context, parameters, start.status) == start.status
    requires Preflight(start.status, candidate) && TrimSpace(start.status.primary) != candidate
    ensures Runs(start, LateRounds(context, parameters, candidate, rounds), end)
    ensures end.status == start.status
    ensures Accepted(start, LateRounds(context, parameters, candidate, rounds)) == rounds
    decreases rounds
  {
    if rounds == 0 {
      end := start;
    } else {
      var again := start.(retired := start.retired + {start.status.primary});
      end := LateStoresRepeat(context, parameters, again, candidate, rounds - 1);
      LateRoundReturns(context, parameters, start, candidate,
                       LateRounds(context, parameters, candidate, rounds - 1), end);
    }
  }

  lemma {:induction false} FirstMarkedIs(standbys: seq<Standby>, i: nat)
    requires i < |standbys| && standbys[i].resyncRequired && forall k | 0 <= k < i :: !standbys[k].resyncRequired
    ensures RollbackTarget(standbys) == Some(standbys[i].name)
  {
    if i != 0 {
      FirstMarkedIs(standbys[1..], i - 1);
    }
  }

  lemma RequestedResyncIsTarget(status: Topology, standby: string, message: Message)
    requires Preflight(status, standby)
    requires forall i | 0 <= i < |status.standbys| :: !status.standbys[i].resyncRequired
    ensures RollbackTarget(Resync(status, standby, message).standbys) == Some(standby)
  {
    var i := FirstEntryIsAt(status.standbys, standby);
    MarkFirstAt(status.standbys, standby, message, i);
    var marked := Resync(status, standby, message);
    assert marked.standbys == status.standbys[i := Marked(status.standbys[i], message)];
    FirstMarkedIs(marked.standbys, i);
  }

  /** A store that is overtaken by a resynchronisation request takes the mark back, and a rollback that found its
      target by that mark is then let through. */
  lemma OvertakenMarkLetsRollbackThrough(context: Context, parameters: Parameters, status: Topology, standby: string,
                                         message: Message)
    returns (end: System)
    requires Clean(status) && context.Failover() && Observe(context, parameters, status) == status
    requires forall i | 0 <= i < |status.standbys| :: !status.standbys[i].resyncRequired
    requires Preflight(status, standby) && TrimSpace(status.primary) != standby
    ensures var late := [Read(context, parameters), Request(ResyncOf(standby, message)), FindTarget, Store(true)];
            Runs(Initial(status), late + [Rollback], end) && end.status.primary == standby != status.primary
  {
    var read, ask := Read(context, parameters), Request(ResyncOf(standby, message));
    var one, two := LateResyncStates(context, parameters, status, standby, message);
    var three := two.(target := Some(standby));
    var four := System(status, None, Some(standby), {});
    end := Deliver(four, Rollback);
    RequestedResyncIsTarget(status, standby, message);
    PromotionAdvances(status, standby);
    AfterEvent(four, Rollback, [], end);
    assert [Rollback] + [] == [Rollback];
    AfterEvent(three, Store(true), [Rollback], end);
    ThreeEvents(Initial(status), read, one, ask, two, FindTarget, three, [Store(true)] + [Rollback], end);
    assert [read, ask, FindTarget] + ([Store(true)] + [Rollback])
        == [read, ask, FindTarget, Store(true)] + [Rollback];
  }

  lemma LateResyncStates(context: Context, parameters: Parameters, status: Topology, standby: string, message: Message)
    returns (one: System, two: System)
    ensures one == Deliver(Initial(status), Read(context, parameters))
    ensures Enabled(one, Request(ResyncOf(standby, message)))
    ensures two == Deliver(one, Request(ResyncOf(standby, message)))
    ensures two == System(Resync(status, standby, message), Some(Reading(status, context, parameters)), None, {})
  {
    one := Deliver(Initial(status), Read(context, parameters));
    two := Deliver(one, Request(ResyncOf(standby, message)));
    assert Resync(status, standby, message).primary == status.primary;
  }

  /* ---------- Patches that land on something else ---------- */

  /** A merge patch carries the fields in which the wanted status differs from the base it was made against. */
  function Patched(current: Topology, base: Topology, wanted: Topology): Topology {
    Topology(if wanted.mode == base.mode then current.mode else wanted.mode,
             if wanted.primary == base.primary then current.primary else wanted.primary,
             if wanted.traffic == base.traffic then current.traffic else wanted.traffic,
             if wanted.standbys == base.standbys then current.standbys else wanted.standbys,
             if wanted.readiness == base.readiness then current.readiness else wanted.readiness,
             if wanted.summary == base.summary then current.summary else wanted.summary)
  }

  /** On its own base a patch gives the wanted status. On the result of a promotion that came in between, an
      observation's patch that changes the standbys keeps the promoted primary and lists it as a standby too, so the
      status is not clean. */
  lemma TornPatchListsPrimary(context: Context, parameters: Parameters, base: Topology, candidate: string)
    requires Clean(base) && context.Failover() && Preflight(base, candidate)
    ensures var wanted := Observe(context, parameters, base);
            && Patched(base, base, wanted) == wanted
            && (wanted.standbys != base.standbys ==>
                  && var torn := Patched(Promote(base, candidate), base, wanted);
                     && torn.primary == candidate && torn.standbys == wanted.standbys
                     && candidate in Names(torn.standbys) && !Clean(torn))
  {
    CleanKeepsNames(context, parameters, base);
    var wanted := Observe(context, parameters, base);
    var i := FirstEntryIsAt(base.standbys, candidate);
    assert Names(wanted.standbys)[i] == Names(base.standbys)[i] == candidate;
    assert wanted.standbys[i].name == candidate;
  }

  /** With a single standby that leaves nothing but the primary listed: a status that the next observation does not
      settle. */
  lemma TornPatchDoesNotSettle(context: Context, parameters: Parameters, base: Topology, candidate: string,
                               other: string)
    requires Clean(base) && context.Failover() && Preflight(base, candidate)
    requires forall i | 0 <= i < |base.standbys| :: base.standbys[i].name == candidate
    requires Observe(context, parameters, base).standbys != base.standbys
    requires other in parameters.standbys && other != candidate
    ensures var torn := Patched(Promote(base, candidate), base, Observe(context, parameters, base));
            Observe(context, parameters, Observe(context, parameters, torn)) != Observe(context, parameters, torn)
  {
    TornPatchListsPrimary(context, parameters, base, candidate);
    CleanKeepsNames(context, parameters, base);
    var torn := Patched(Promote(base, candidate), base, Observe(context, parameters, base));
    assert |torn.standbys| == |Names(torn.standbys)| && Names(torn.standbys) == Names(base.standbys);
    forall i | 0 <= i < |torn.standbys| ensures torn.standbys[i].name == torn.primary {
      assert Names(torn.standbys)[i] == base.standbys[i].name;
    }
    FirstObservationMayNotSettle(context, parameters, torn, other);
  }
}
