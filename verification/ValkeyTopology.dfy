/** The cache topology of a Valkey service: recomputed by every observation from the status the previous one stored,
    and changed in place by failover, rollback and resynchronisation requests. */
module ValkeyTopology {
  import opened Options
  import opened Sequences
  import opened Text

  const MULTI_CLUSTER := "multi-cluster-failover"
  const MULTI_REGION := "multi-region"
  const DEFAULT_MAX_LAG := 30

  /** Status messages; two messages are equal exactly when their texts are. */
  datatype Message =
    | NoMessage
    | WithinThreshold(lag: int, maxLag: int)
    | AboveThreshold(lag: int, maxLag: int)
    | NotObserved
    | NeedsResync
    | FormerPrimary
    | Other(text: string)

  datatype Standby = Standby(name: string, ready: bool, resyncRequired: bool, lagObserved: bool, lag: int,
                             message: Message)

  /** What a lookup of an unknown standby yields: the zero value. */
  const NO_STANDBY := Standby("", false, false, false, 0, NoMessage)

  datatype Readiness = NoReadiness | Unavailable | Blocked | Ready | Promoted | Resyncing

  /** The summary that goes with the readiness. */
  datatype Summary =
    | SingleCluster
    | NoneEligible
    | Eligible(count: int)
    | PromotedFrom(candidate: string, previous: string)
    | ResyncingFrom(standby: string, primary: string)

  /** Where clients connect, and the ConfigMap with the traffic policy. */
  datatype Traffic = Traffic(endpoint: string, policy: string, namespace: string)

  datatype Topology = Topology(mode: string, primary: string, traffic: Option<Traffic>, standbys: seq<Standby>,
                               readiness: Readiness, summary: Summary)

  datatype Parameters = Parameters(primary: string, standbys: seq<string>, lags: map<string, int>, maxLag: Option<int>)

  /** The plan's topology, the cluster the instance is placed on, and the names it goes by. */
  datatype Context = Context(mode: string, placement: string, instance: string, project: string, namespace: string) {
    predicate Failover() {
      mode == MULTI_CLUSTER || mode == MULTI_REGION
    }

    function Endpoint(): Traffic {
      Traffic(instance + "." + project + ".cache.servicer.local:6379", instance + "-traffic-policy", namespace)
    }
  }

  /* ---------- Observing ---------- */

  function MaxLag(parameters: Parameters): int {
    if parameters.maxLag.Some? && 0 <= parameters.maxLag.value then parameters.maxLag.value else DEFAULT_MAX_LAG
  }

  function RequestedPrimary(context: Context, parameters: Parameters): string {
    FirstNonEmpty(parameters.primary, context.placement)
  }

  function Primary(context: Context, parameters: Parameters, status: Topology): string {
    FirstNonEmpty(status.primary, RequestedPrimary(context, parameters))
  }

  function Names(standbys: seq<Standby>): seq<string> {
    seq(|standbys|, i requires 0 <= i < |standbys| => standbys[i].name)
  }

  function NotEqual(name: string): string -> bool {
    other => other != name
  }

  /** The standbys the status lists, or else the ones the parameters declare. */
  function StandbyNames(parameters: Parameters, status: Topology): seq<string> {
    if status.standbys != [] then Filter(Names(status.standbys), NotEqual("")) else parameters.standbys
  }

  function KeptNames(context: Context, parameters: Parameters, status: Topology): seq<string> {
    Filter(StandbyNames(parameters, status), NotEqual(Primary(context, parameters, status)))
  }

  /** The last entry of a name is the one that is carried over. */
  function LastEntry(standbys: seq<Standby>, name: string): Standby {
    if standbys == [] then NO_STANDBY
    else if standbys[|standbys| - 1].name == name then standbys[|standbys| - 1]
    else LastEntry(standbys[..|standbys| - 1], name)
  }

  /** What an observation says about one standby. */
  function Observed(parameters: Parameters, existing: Standby, name: string): Standby {
    var reported := name in parameters.lags;
    var observed := reported || existing.lagObserved;
    var lag := if reported then parameters.lags[name] else if existing.lagObserved then existing.lag else 0;
    var timely := observed && lag <= MaxLag(parameters);
    var message :=
      if existing.resyncRequired then (if existing.message == NoMessage then NeedsResync else existing.message)
      else if !observed then NotObserved
      else if !timely then AboveThreshold(lag, MaxLag(parameters))
      else WithinThreshold(lag, MaxLag(parameters));
    Standby(name, timely && !existing.resyncRequired, existing.resyncRequired, observed, lag, message)
  }

  function ObservedAll(parameters: Parameters, existing: seq<Standby>, names: seq<string>): seq<Standby> {
    seq(|names|, i requires 0 <= i < |names| => Observed(parameters, LastEntry(existing, names[i]), names[i]))
  }

  lemma ObservedAppends(parameters: Parameters, existing: seq<Standby>, names: seq<string>, name: string)
    ensures ObservedAll(parameters, existing, names + [name])
         == ObservedAll(parameters, existing, names) + [Observed(parameters, LastEntry(existing, name), name)]
  {
  }

  function CountReady(standbys: seq<Standby>): nat {
    if standbys == [] then 0
    else CountReady(standbys[..|standbys| - 1]) + if standbys[|standbys| - 1].ready then 1 else 0
  }

  function Observe(context: Context, parameters: Parameters, status: Topology): Topology {
    if !context.Failover() then Topology(context.mode, context.placement, None, [], Unavailable, SingleCluster)
    else
      var standbys := ObservedAll(parameters, status.standbys, KeptNames(context, parameters, status));
      var eligible := CountReady(standbys);
      Topology(context.mode, Primary(context, parameters, status), Some(context.Endpoint()), standbys,
               if 0 < eligible then Ready else Blocked, if 0 < eligible then Eligible(eligible) else NoneEligible)
  }

  /* ---------- Requests that change the stored status ---------- */

  function FirstEntry(standbys: seq<Standby>, name: string): Option<Standby> {
    if standbys == [] then None
    else if standbys[0].name == name then Some(standbys[0])
    else FirstEntry(standbys[1..], name)
  }

  /** A candidate may be promoted when its first entry is ready. */
  predicate Preflight(status: Topology, candidate: string) {
    && status.mode == MULTI_CLUSTER && status.primary != "" && candidate != status.primary
    && FirstEntry(status.standbys, candidate).Some? && FirstEntry(status.standbys, candidate).value.ready
  }

  function Demoted(name: string): Standby {
    Standby(name, false, true, false, 0, FormerPrimary)
  }

  function Swapped(standbys: seq<Standby>, candidate: string, previous: string): seq<Standby> {
    seq(|standbys|, i requires 0 <= i < |standbys| =>
      if standbys[i].name == candidate then Demoted(previous) else standbys[i])
  }

  function Promote(status: Topology, candidate: string): Topology {
    var swapped := Swapped(status.standbys, candidate, status.primary);
    var found := status.primary != candidate && status.primary in Names(status.standbys);
    status.(primary := candidate, readiness := Promoted, summary := PromotedFrom(candidate, status.primary),
            standbys := swapped + if !found && status.primary != "" then [Demoted(status.primary)] else [])
  }

  function Failover(status: Topology, candidate: string): Topology {
    if TrimSpace(status.primary) == candidate || !Preflight(status, candidate) then status
    else Promote(status, candidate)
  }

  function Marked(entry: Standby, message: Message): Standby {
    entry.(ready := false, resyncRequired := true, lagObserved := false, lag := 0, message := message)
  }

  /** Marks the first entry of a standby only. */
  function MarkFirst(standbys: seq<Standby>, name: string, message: Message): seq<Standby> {
    if standbys == [] then []
    else if standbys[0].name == name then [Marked(standbys[0], message)] + standbys[1..]
    else [standbys[0]] + MarkFirst(standbys[1..], name, message)
  }

  lemma {:induction false} MarkFirstAt(standbys: seq<Standby>, name: string, message: Message, i: nat)
    requires i < |standbys| && standbys[i].name == name && forall k | 0 <= k < i :: standbys[k].name != name
    ensures MarkFirst(standbys, name, message) == standbys[i := Marked(standbys[i], message)]
    ensures FirstEntry(standbys, name) == Some(standbys[i])
  {
    if i != 0 {
      MarkFirstAt(standbys[1..], name, message, i - 1);
    }
  }

  lemma {:induction false} FirstEntryIsAt(standbys: seq<Standby>, name: string) returns (i: nat)
    requires FirstEntry(standbys, name).Some?
    ensures i < |standbys| && standbys[i].name == name && FirstEntry(standbys, name).value == standbys[i]
    ensures forall k | 0 <= k < i :: standbys[k].name != name
  {
    if standbys[0].name == name {
      i := 0;
    } else {
      var rest := FirstEntryIsAt(standbys[1..], name);
      i := rest + 1;
      forall k | 0 <= k < i ensures standbys[k].name != name {
        if k != 0 {
          assert standbys[k] == standbys[1..][k - 1];
        }
      }
    }
  }

  predicate AlreadyResyncing(status: Topology, name: string) {
    var entry := FirstEntry(status.standbys, name);
    entry.Some? && entry.value.resyncRequired && !entry.value.ready
  }

  predicate MayResync(status: Topology, name: string) {
    status.mode == MULTI_CLUSTER && name != status.primary && FirstEntry(status.standbys, name).Some?
  }

  function Resync(status: Topology, name: string, message: Message): Topology {
    if AlreadyResyncing(status, name) || !MayResync(status, name) then status
    else status.(standbys := MarkFirst(status.standbys, name, message), readiness := Resyncing,
                 summary := ResyncingFrom(name, status.primary))
  }

  /** A rollback without an explicit target goes to the first standby that is marked for resynchronisation. */
  function RollbackTarget(standbys: seq<Standby>): Option<string> {
    if standbys == [] then None
    else if standbys[0].resyncRequired then Some(standbys[0].name)
    else RollbackTarget(standbys[1..])
  }

  /** The stored status of a service instance, which the observer overwrites and the requests update in place. */
  class CacheInstance {
    var topology: Topology

    constructor (topology: Topology)
      ensures this.topology == topology
    {
      this.topology := topology;
    }

    /** Stores what a reconciliation makes of the topology it has read, over whatever is stored by now; `otherNews` says
        that it changed another part of the status. Without a plan nothing is observed. */
    method StoreObservation(snapshot: Topology, plan: Option<Context>, parameters: Parameters, otherNews: bool)
      modifies this
      ensures var desired := if plan.None? then snapshot else Observe(plan.value, parameters, snapshot);
              topology == if desired == snapshot && !otherNews then old(topology) else desired
    {
      var desired := snapshot;
      if plan.Some? {
        desired := ObserveSnapshot(plan.value, parameters, snapshot);
      }
      if desired == snapshot && !otherNews {
        return;
      }
      topology := desired;
    }

    static method ObserveSnapshot(context: Context, parameters: Parameters, snapshot: Topology)
      returns (status: Topology)
      ensures status == Observe(context, parameters, snapshot)
    {
      if !context.Failover() {
        return Topology(context.mode, context.placement, None, [], Unavailable, SingleCluster);
      }
      var primary := Primary(context, parameters, snapshot);
      var existing := IndexStandbys(snapshot.standbys);
      var names := StandbyNames(parameters, snapshot);
      var standbys, ready := ObserveStandbys(parameters, snapshot.standbys, existing, names, primary);
      return Topology(context.mode, primary, Some(context.Endpoint()), standbys,
                      if 0 < ready then Ready else Blocked, if 0 < ready then Eligible(ready) else NoneEligible);
    }

    static method ObserveStandbys(parameters: Parameters, ghost stored: seq<Standby>, existing: map<string, Standby>,
                                  names: seq<string>, primary: string)
      returns (standbys: seq<Standby>, ready: nat)
      requires forall name :: (if name in existing then existing[name] else NO_STANDBY) == LastEntry(stored, name)
      ensures standbys == ObservedAll(parameters, stored, Filter(names, NotEqual(primary)))
      ensures ready == CountReady(standbys)
    {
      standbys, ready := [], 0;
      for i := 0 to |names|
        invariant standbys == ObservedAll(parameters, stored, Filter(names[..i], NotEqual(primary)))
        invariant ready == CountReady(standbys)
      {
        assert names[..i + 1][..i] == names[..i];
        var name := names[i];
        if name == primary {
          continue;
        }
        var computed := ObserveOne(parameters, if name in existing then existing[name] else NO_STANDBY, name);
        if computed.ready {
          ready := ready + 1;
        }
        ObservedAppends(parameters, stored, Filter(names[..i], NotEqual(primary)), name);
        assert (standbys + [computed])[..|standbys|] == standbys;
        standbys := standbys + [computed];
      }
      assert names[..|names|] == names;
    }

    static method ObserveOne(parameters: Parameters, existing: Standby, name: string) returns (computed: Standby)
      ensures computed == Observed(parameters, existing, name)
    {
      var maxLag := MaxLag(parameters);
      var observed := name in parameters.lags;
      var lag := if observed then parameters.lags[name] else 0;
      if !observed && existing.lagObserved {
        lag := existing.lag;
        observed := true;
      }
      var ready := observed && lag <= maxLag;
      var message := WithinThreshold(lag, maxLag);
      if existing.resyncRequired {
        ready := false;
        message := existing.message;
        if message == NoMessage {
          message := NeedsResync;
        }
      } else if !observed {
        message := NotObserved;
      } else if !ready {
        message := AboveThreshold(lag, maxLag);
      }
      computed := Standby(name, ready, existing.resyncRequired, observed, lag, message);
    }

    static method IndexStandbys(standbys: seq<Standby>) returns (existing: map<string, Standby>)
      ensures forall name :: (if name in existing then existing[name] else NO_STANDBY) == LastEntry(standbys, name)
    {
      existing := map[];
      for i := 0 to |standbys|
        invariant forall name ::
                  (if name in existing then existing[name] else NO_STANDBY) == LastEntry(standbys[..i], name)
      {
        assert standbys[..i + 1][..i] == standbys[..i];
        existing := existing[standbys[i].name := standbys[i]];
      }
      assert standbys[..|standbys|] == standbys;
    }

    /** A failover, or a rollback to an explicit target. */
    method RequestFailover(candidate: string)
      modifies this
      ensures topology == Failover(old(topology), candidate)
    {
      if TrimSpace(topology.primary) == candidate || !Preflight(topology, candidate) {
        return;
      }
      var previous := topology.primary;
      var standbys := topology.standbys;
      var found := false;
      for i := 0 to |standbys|
        invariant topology == old(topology) && |standbys| == |topology.standbys|
        invariant forall k | 0 <= k < i :: standbys[k] == Swapped(topology.standbys, candidate, previous)[k]
        invariant forall k | i <= k < |standbys| :: standbys[k] == topology.standbys[k]
        invariant found <==> exists k | 0 <= k < i :: topology.standbys[k].name == previous
      {
        if standbys[i].name == candidate {
          standbys := standbys[i := Demoted(previous)];
        } else if standbys[i].name == previous {
          found := true;
        }
      }
      assert standbys == Swapped(topology.standbys, candidate, previous);
      assert found <==> previous in Names(topology.standbys) by {
        forall k | 0 <= k < |topology.standbys| && topology.standbys[k].name == previous
          ensures previous in Names(topology.standbys)
        {
          assert Names(topology.standbys)[k] == previous;
        }
      }
      if !found && previous != "" {
        standbys := standbys + [Demoted(previous)];
      }
      topology := topology.(primary := candidate, readiness := Promoted, summary := PromotedFrom(candidate, previous),
                            standbys := standbys);
    }

    method RequestResync(name: string, message: Message)
      modifies this
      ensures topology == Resync(old(topology), name, message)
    {
      if AlreadyResyncing(topology, name) || !MayResync(topology, name) {
        return;
      }
      var standbys := topology.standbys;
      ghost var first := FirstEntryIsAt(standbys, name);
      for i := 0 to |standbys|
        invariant topology == old(topology) && i <= first
      {
        if standbys[i].name == name {
          MarkFirstAt(standbys, name, message, i);
          standbys := standbys[i := standbys[i].(ready := false, resyncRequired := true, lagObserved := false,
                                                 lag := 0, message := message)];
          topology := topology.(standbys := standbys, readiness := Resyncing,
                                summary := ResyncingFrom(name, topology.primary));
          return;
        }
      }
    }
  }
}
