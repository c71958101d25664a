/** The retained audit log: events stored one per ConfigMap under a content-derived name, listed, expired and
    created by several replicas whose calls interleave. */
module AuditStore {
  import Options

  type Time = int

  /** `time` is None when the event's time is empty or cannot be parsed: such an event never expires. */
  datatype Moment = None | At(time: Time)

  datatype Event = Event(time: Moment, body: string)

  /** A ConfigMap with the audit label holds an event, or data that does not decode to one. */
  datatype Stored = Holds(event: Event) | Unreadable

  datatype Item = Item(name: string, stored: Stored)

  type Store = map<string, Stored>

  /** Names are a fixed number of hash digits, so they cannot tell all events apart: where it matters that no two events
      of a run collide, that is required. */
  datatype Settings = Settings(name: Event -> string, retention: int) {
    ghost predicate Injective(on: set<Event>) {
      forall a, b | a in on && b in on && name(a) == name(b) :: a == b
    }

    function Cutoff(now: Time): Time {
      now - retention
    }
  }

  predicate Before(event: Event, cutoff: Time) {
    event.time.At? && event.time.time < cutoff
  }

  /* ---------- The loops of one merge ---------- */

  /** The listed events that have not expired, in listing order. */
  function Kept(items: seq<Item>, cutoff: Time): seq<Event> {
    if items == [] then []
    else
      var last := items[|items| - 1].stored;
      Kept(items[..|items| - 1], cutoff) + if last.Holds? && !Before(last.event, cutoff) then [last.event] else []
  }

  function Stale(items: seq<Item>, cutoff: Time): seq<Item> {
    if items == [] then []
    else
      var last := items[|items| - 1];
      Stale(items[..|items| - 1], cutoff)
      + if last.stored.Holds? && Before(last.stored.event, cutoff) then [last] else []
  }

  /** Each event once, where it occurs first. */
  function FirstOccurrences(events: seq<Event>): seq<Event> {
    if events == [] then []
    else
      var before, last := FirstOccurrences(events[..|events| - 1]), events[|events| - 1];
      if last in before then before else before + [last]
  }

  function Merged(left: seq<Event>, right: seq<Event>): seq<Event> {
    FirstOccurrences(left + right)
  }

  function Created(settings: Settings, store: Store, event: Event): Store {
    if settings.name(event) in store then store else store[settings.name(event) := Holds(event)]
  }

  /** Creations run until one fails for another reason than that the name is taken. */
  function Persisted(settings: Settings, store: Store, events: seq<Event>, cutoff: Time, failing: set<string>): Store
    decreases |events|
  {
    if events == [] then store
    else if Before(events[0], cutoff) then Persisted(settings, store, events[1..], cutoff, failing)
    else if settings.name(events[0]) in failing then store
    else Persisted(settings, Created(settings, store, events[0]), events[1..], cutoff, failing)
  }

  predicate PersistFails(settings: Settings, events: seq<Event>, cutoff: Time, failing: set<string>) {
    exists event | event in events :: !Before(event, cutoff) && settings.name(event) in failing
  }

  /** A deletion that fails is skipped. */
  function Removed(store: Store, stale: seq<Item>, failing: set<string>): Store
    decreases |stale|
  {
    if stale == [] then store
    else Removed(if stale[0].name in failing then store else store - {stale[0].name}, stale[1..], failing)
  }

  /** Exactly the listed stale items go whose deletion does not fail. */
  lemma {:induction false} RemovedLeaves(store: Store, stale: seq<Item>, failing: set<string>)
    ensures Removed(store, stale, failing) == store - set item | item in stale && item.name !in failing :: item.name
    decreases |stale|
  {
    if stale != [] {
      var first, rest := stale[0], stale[1..];
      assert stale == [first] + rest;
      var gone := set item | item in rest && item.name !in failing :: item.name;
      RemovedLeaves(if first.name in failing then store else store - {first.name}, rest, failing);
      assert (set item | item in stale && item.name !in failing :: item.name)
          == gone + if first.name in failing then {} else {first.name};
    }
  }

  /** The event is unexpired, and no creation up to and including its own fails. */
  ghost predicate Reached(settings: Settings, events: seq<Event>, cutoff: Time, failing: set<string>, i: int) {
    && 0 <= i < |events| && !Before(events[i], cutoff)
    && forall j | 0 <= j <= i && !Before(events[j], cutoff) :: settings.name(events[j]) !in failing
  }

  /** The first event reached that has the name. */
  ghost predicate Creates(settings: Settings, events: seq<Event>, cutoff: Time, failing: set<string>, i: int,
                          name: string)
  {
    && Reached(settings, events, cutoff, failing, i) && settings.name(events[i]) == name
    && forall j | 0 <= j < i && !Before(events[j], cutoff) :: settings.name(events[j]) != name
  }

  /** What was stored stays; a free name is taken exactly if some event reached has it, and by the first such event. */
  lemma {:induction false} PersistedHolds(settings: Settings, store: Store, events: seq<Event>, cutoff: Time,
                                          failing: set<string>, name: string)
    ensures var after := Persisted(settings, store, events, cutoff, failing);
            && (name in store ==> name in after && after[name] == store[name])
            && (name !in store ==>
                  && (name in after <==> exists i :: Creates(settings, events, cutoff, failing, i, name))
                  && forall i | Creates(settings, events, cutoff, failing, i, name) :: after[name] == Holds(events[i]))
    decreases |events|
  {
    if events != [] {
      var first, rest := events[0], events[1..];
      assert forall i | 0 <= i < |rest| :: rest[i] == events[i + 1];
      if Before(first, cutoff) {
        PersistedHolds(settings, store, rest, cutoff, failing, name);
        CreatesSkips(settings, events, cutoff, failing, name);
      } else if settings.name(first) in failing {
        assert settings.name(events[0]) in failing && !Before(events[0], cutoff);
        forall i ensures !Reached(settings, events, cutoff, failing, i) {}
      } else {
        PersistedHolds(settings, Created(settings, store, first), rest, cutoff, failing, name);
        if settings.name(first) == name {
          CreatesFirst(settings, events, cutoff, failing, name);
        } else {
          CreatesSkips(settings, events, cutoff, failing, name);
        }
      }
    }
  }

  lemma CreatesSkips(settings: Settings, events: seq<Event>, cutoff: Time, failing: set<string>, name: string)
    requires events != []
    requires Before(events[0], cutoff) || (settings.name(events[0]) !in failing && settings.name(events[0]) != name)
    ensures forall i :: Creates(settings, events, cutoff, failing, i + 1, name)
                   <==> Creates(settings, events[1..], cutoff, failing, i, name)
    ensures !Creates(settings, events, cutoff, failing, 0, name)
  {
    var rest := events[1..];
    forall i ensures Creates(settings, events, cutoff, failing, i + 1, name)
                <==> Creates(settings, rest, cutoff, failing, i, name)
    {
      assert forall j | 0 <= j < |rest| :: rest[j] == events[j + 1];
      if Creates(settings, events, cutoff, failing, i + 1, name) && 0 <= i {
        forall j | 0 <= j <= i && !Before(rest[j], cutoff) ensures settings.name(rest[j]) !in failing {
          assert rest[j] == events[j + 1];
        }
        forall j | 0 <= j < i && !Before(rest[j], cutoff) ensures settings.name(rest[j]) != name {
          assert rest[j] == events[j + 1];
        }
      }
    }
  }

  lemma CreatesFirst(settings: Settings, events: seq<Event>, cutoff: Time, failing: set<string>, name: string)
    requires events != [] && !Before(events[0], cutoff) && settings.name(events[0]) !in failing
    requires settings.name(events[0]) == name
    ensures Creates(settings, events, cutoff, failing, 0, name)
    ensures forall i | Creates(settings, events, cutoff, failing, i, name) :: i == 0
  {
    assert settings.name(events[0]) == name && !Before(events[0], cutoff);
  }

  method MergeAuditEvents(left: seq<Event>, right: seq<Event>) returns (merged: seq<Event>)
    ensures merged == Merged(left, right)
  {
    var events := left + right;
    var seen: set<Event> := {};
    merged := [];
    for i := 0 to |events|
      invariant merged == FirstOccurrences(events[..i])
      invariant forall e :: e in seen <==> e in merged
    {
      assert events[..i + 1][..i] == events[..i];
      if events[i] in seen {
        continue;
      }
      seen := seen + {events[i]};
      merged := merged + [events[i]];
    }
    assert events[..|events|] == events;
  }

  /** The audit store of one replica when no other replica calls the API in between. */
  class Replica {
    const settings: Settings
    var configMaps: Store

    constructor (settings: Settings, configMaps: Store)
      ensures this.settings == settings && this.configMaps == configMaps
    {
      this.settings := settings;
      this.configMaps := configMaps;
    }

    /** Deletes what has expired among the listed items and returns the rest. */
    method Retained(items: seq<Item>, cutoff: Time, failing: set<string>) returns (events: seq<Event>)
      modifies this
      ensures events == Kept(items, cutoff)
      ensures configMaps == Removed(old(configMaps), Stale(items, cutoff), failing)
    {
      events := [];
      for i := 0 to |items|
        invariant events == Kept(items[..i], cutoff)
        invariant configMaps == Removed(old(configMaps), Stale(items[..i], cutoff), failing)
      {
        assert items[..i + 1][..i] == items[..i];
        assert Stale(items[..i], cutoff) + [] == Stale(items[..i], cutoff);
        match items[i].stored {
          case Unreadable =>
          case Holds(event) =>
            if Before(event, cutoff) {
              RemovedAppends(old(configMaps), Stale(items[..i], cutoff), items[i], failing);
              if items[i].name !in failing {
                configMaps := configMaps - {items[i].name};
              }
            } else {
              events := events + [event];
            }
        }
      }
      assert items[..|items|] == items;
    }

    method Persist(events: seq<Event>, cutoff: Time, failing: set<string>) returns (ok: bool)
      modifies this
      ensures configMaps == Persisted(settings, old(configMaps), events, cutoff, failing)
      ensures ok == !PersistFails(settings, events, cutoff, failing)
    {
      for i := 0 to |events|
        invariant Persisted(settings, configMaps, events[i..], cutoff, failing)
               == Persisted(settings, old(configMaps), events, cutoff, failing)
        invariant forall k | 0 <= k < i :: Before(events[k], cutoff) || settings.name(events[k]) !in failing
      {
        if Before(events[i], cutoff) {
          continue;
        }
        var name := settings.name(events[i]);
        if name in failing {
          assert events[i] in events;
          return false;
        }
        if name !in configMaps {
          configMaps := configMaps[name := Holds(events[i])];
        }
      }
      return true;
    }

    /** `listing` is None when the API server cannot be listed. */
    method Merge(events: seq<Event>, listing: Options.Option<seq<Item>>, listedAt: Time, persistedAt: Time,
                 faults: Faults)
      returns (merged: Options.Option<seq<Event>>)
      modifies this
      ensures listing.None? ==> merged.None? && configMaps == old(configMaps)
      ensures listing.Some? ==>
                && merged == MergeReturns(settings, events, listing.value, listedAt, persistedAt, faults)
                && configMaps
                    == MergeAlone(settings, old(configMaps), events, listing.value, listedAt, persistedAt, faults)
    {
      if listing.None? {
        return Options.None;
      }
      var retained := Retained(listing.value, settings.Cutoff(listedAt), faults.deletes);
      var all := MergeAuditEvents(retained, events);
      var ok := Persist(events, settings.Cutoff(persistedAt), faults.creates);
      return if ok then Options.Some(all) else Options.None;
    }
  }

  /** The names for which deletions, and for which creations, fail. */
  datatype Faults = Faults(deletes: set<string>, creates: set<string>)

  function MergeAlone(settings: Settings, store: Store, events: seq<Event>, items: seq<Item>, listedAt: Time,
                      persistedAt: Time, faults: Faults): Store
  {
    var retained := Removed(store, Stale(items, settings.Cutoff(listedAt)), faults.deletes);
    Persisted(settings, retained, events, settings.Cutoff(persistedAt), faults.creates)
  }

  function MergeReturns(settings: Settings, events: seq<Event>, items: seq<Item>, listedAt: Time, persistedAt: Time,
                        faults: Faults): Options.Option<seq<Event>>
  {
    if PersistFails(settings, events, settings.Cutoff(persistedAt), faults.creates) then Options.None
    else Options.Some(Merged(Kept(items, settings.Cutoff(listedAt)), events))
  }

  lemma {:induction false} RemovedAppends(store: Store, stale: seq<Item>, item: Item, failing: set<string>)
    ensures Removed(store, stale + [item], failing)
         == Removed(store, stale, failing) - if item.name in failing then {} else {item.name}
    decreases |stale|
  {
    if stale == [] {
      assert Removed(store, [], failing) - {} == store;
    } else {
      assert (stale + [item])[1..] == stale[1..] + [item];
      RemovedAppends(if stale[0].name in failing then store else store - {stale[0].name}, stale[1..], item, failing);
    }
  }

  /* ---------- Replicas interleave ---------- */

  /** Where a replica is inside a merge; `Creating` also serves a lone recorded event. */
  datatype Phase =
    | Idle
    | Listed(items: seq<Item>, events: seq<Event>)
    | Deleting(stale: seq<Item>, merged: seq<Event>, events: seq<Event>)
    | Creating(cutoff: Time, pending: seq<Event>, merged: seq<Event>)

  /** `submitted` is the history of all events callers ever passed in. */
  datatype State = State(store: Store, clock: Time, phases: map<nat, Phase>, submitted: set<Event>)

  datatype Step =
    | Tick(elapsed: nat)
    | List(replica: nat, items: seq<Item>, events: seq<Event>)
    | Cut(replica: nat)
    | Delete(replica: nat, succeeds: bool)
    | StartPersist(replica: nat)
    | Record(replica: nat, event: Event)
    | Create(replica: nat)
    | CreateFails(replica: nat)
    | Return(replica: nat)

  function PhaseOf(state: State, replica: nat): Phase {
    if replica in state.phases then state.phases[replica] else Idle
  }

  /** A listing returns every ConfigMap once, in some order. */
  ghost predicate Lists(items: seq<Item>, store: Store) {
    && (forall i, j | 0 <= i < j < |items| :: items[i].name != items[j].name)
    && (forall i | 0 <= i < |items| :: items[i].name in store && store[items[i].name] == items[i].stored)
    && (forall name | name in store :: Item(name, store[name]) in items)
  }

  ghost predicate Enabled(state: State, step: Step) {
    match step
    case Tick(_) => true
    case List(r, items, _) => PhaseOf(state, r).Idle? && Lists(items, state.store)
    case Cut(r) => PhaseOf(state, r).Listed?
    case Delete(r, _) => PhaseOf(state, r).Deleting? && PhaseOf(state, r).stale != []
    case StartPersist(r) => PhaseOf(state, r).Deleting? && PhaseOf(state, r).stale == []
    case Record(r, _) => PhaseOf(state, r).Idle?
    case Create(r) => PhaseOf(state, r).Creating? && PhaseOf(state, r).pending != []
    case CreateFails(r) =>
      var phase := PhaseOf(state, r);
      phase.Creating? && phase.pending != [] && !Before(phase.pending[0], phase.cutoff)
    case Return(r) => PhaseOf(state, r).Creating? && PhaseOf(state, r).pending == []
  }

  function Enter(state: State, replica: nat, phase: Phase): State {
    state.(phases := state.phases[replica := phase])
  }

  ghost function Apply(settings: Settings, state: State, step: Step): State
    requires Enabled(state, step)
  {
    match step
    case Tick(elapsed) => state.(clock := state.clock + elapsed)
    case List(r, items, events) =>
      Enter(state, r, Listed(items, events)).(submitted := state.submitted + set e | e in events)
    case Cut(r) =>
      var Listed(items, events) := PhaseOf(state, r);
      var cutoff := settings.Cutoff(state.clock);
      Enter(state, r, Deleting(Stale(items, cutoff), Merged(Kept(items, cutoff), events), events))
    case Delete(r, succeeds) =>
      var Deleting(stale, merged, events) := PhaseOf(state, r);
      var next := Enter(state, r, Deleting(stale[1..], merged, events));
      if succeeds then next.(store := state.store - {stale[0].name}) else next
    case StartPersist(r) =>
      var Deleting(_, merged, events) := PhaseOf(state, r);
      Enter(state, r, Creating(settings.Cutoff(state.clock), events, merged))
    case Record(r, event) =>
      Enter(state, r, Creating(settings.Cutoff(state.clock), [event], [])).(submitted := state.submitted + {event})
    case Create(r) =>
      var Creating(cutoff, pending, merged) := PhaseOf(state, r);
      var next := Enter(state, r, Creating(cutoff, pending[1..], merged));
      if Before(pending[0], cutoff) then next else next.(store := Created(settings, state.store, pending[0]))
    case CreateFails(r) => Enter(state, r, Idle)
    case Return(r) => Enter(state, r, Idle)
  }

  ghost predicate Runs(settings: Settings, start: State, steps: seq<Step>, end: State)
    decreases |steps|
  {
    if steps == [] then start == end
    else Enabled(start, steps[0]) && Runs(settings, Apply(settings, start, steps[0]), steps[1..], end)
  }

  ghost predicate Initial(settings: Settings, state: State) {
    state.phases == map[] && Sound(settings, state)
  }

  ghost predicate Addressed(settings: Settings, state: State, item: Item) {
    item.stored.Holds? ==> item.name == settings.name(item.stored.event) && item.stored.event in state.submitted
  }

  ghost predicate SoundPhase(settings: Settings, state: State, phase: Phase) {
    match phase
    case Idle => true
    case Listed(items, events) =>
      && (forall item | item in items :: Addressed(settings, state, item))
      && (forall e | e in events :: e in state.submitted)
    case Deleting(stale, merged, events) =>
      && (forall item | item in stale ::
            && item.stored.Holds? && Addressed(settings, state, item)
            && Before(item.stored.event, settings.Cutoff(state.clock)))
      && (forall e | e in merged :: e in state.submitted)
      && (forall e | e in events :: e in state.submitted)
    case Creating(_, pending, merged) =>
      && (forall e | e in pending :: e in state.submitted)
      && (forall e | e in merged :: e in state.submitted)
  }

  /** Events sit under their own names, and only names of expired events await deletion. */
  ghost predicate Sound(settings: Settings, state: State) {
    && (forall name | name in state.store :: Addressed(settings, state, Item(name, state.store[name])))
    && (forall r | r in state.phases :: SoundPhase(settings, state, state.phases[r]))
  }

  lemma {:induction false} KeptAndStale(items: seq<Item>, cutoff: Time)
    ensures forall e ::
              e in Kept(items, cutoff) <==> exists item | item in items :: item.stored == Holds(e) && !Before(e, cutoff)
    ensures forall item ::
              item in Stale(items, cutoff) <==> item in items && item.stored.Holds? && Before(item.stored.event, cutoff)
  {
    if items == [] {
    } else {
      var rest, last := items[..|items| - 1], items[|items| - 1];
      KeptAndStale(rest, cutoff);
      assert items == rest + [last];
      forall e ensures e in Kept(items, cutoff)
          <==> exists item | item in items :: item.stored == Holds(e) && !Before(e, cutoff)
      {
        if last.stored == Holds(e) && !Before(e, cutoff) {
          assert last in items;
        }
      }
    }
  }

  /** Merging keeps exactly the events of both sides, each exactly once. */
  lemma {:induction false} OccursOnce(events: seq<Event>)
    ensures forall e :: multiset(FirstOccurrences(events))[e] == if e in events then 1 else 0
  {
    if events == [] {
    } else {
      var rest, last := events[..|events| - 1], events[|events| - 1];
      OccursOnce(rest);
      assert events == rest + [last];
      forall e ensures multiset(FirstOccurrences(events))[e] == if e in events then 1 else 0 {
        assert e in FirstOccurrences(rest) <==> multiset(FirstOccurrences(rest))[e] > 0;
        assert last in FirstOccurrences(rest) <==> multiset(FirstOccurrences(rest))[last] > 0;
      }
    }
  }

  lemma MergedHolds(left: seq<Event>, right: seq<Event>, event: Event)
    ensures multiset(Merged(left, right))[event] == if event in left || event in right then 1 else 0
    ensures event in Merged(left, right) <==> event in left || event in right
  {
    OccursOnce(left + right);
    assert event in Merged(left, right) <==> multiset(Merged(left, right))[event] > 0;
  }

  lemma SubmittedGrows(settings: Settings, state: State, next: State, phase: Phase)
    requires SoundPhase(settings, state, phase)
    requires state.submitted <= next.submitted && state.clock <= next.clock
    ensures SoundPhase(settings, next, phase)
  {
  }

  /** A replica may move on to any sound phase, and sound phases of the others stay sound. */
  lemma EnterStaysSound(settings: Settings, state: State, r: nat, phase: Phase)
    requires Sound(settings, state) && SoundPhase(settings, state, phase)
    ensures Sound(settings, Enter(state, r, phase))
  {
    var next := Enter(state, r, phase);
    forall other | SoundPhase(settings, state, other) ensures SoundPhase(settings, next, other) {
      SubmittedGrows(settings, state, next, other);
    }
  }

  /** Time passes, events are submitted, and names of their own are stored or removed. */
  lemma ChangeStaysSound(settings: Settings, state: State, next: State)
    requires Sound(settings, state) && next.phases == state.phases
    requires state.submitted <= next.submitted && state.clock <= next.clock
    requires forall name | name in next.store ::
               || (name in state.store && next.store[name] == state.store[name])
               || Addressed(settings, next, Item(name, next.store[name]))
    ensures Sound(settings, next)
  {
    forall phase | SoundPhase(settings, state, phase) ensures SoundPhase(settings, next, phase) {
      SubmittedGrows(settings, state, next, phase);
    }
    forall name | name in next.store ensures Addressed(settings, next, Item(name, next.store[name])) {
      if name in state.store && next.store[name] == state.store[name] {
        assert Addressed(settings, state, Item(name, state.store[name]));
      }
    }
  }

  lemma ListStaysSound(settings: Settings, state: State, r: nat, items: seq<Item>, events: seq<Event>)
    requires Sound(settings, state) && Lists(items, state.store)
    ensures Sound(settings, Enter(state, r, Listed(items, events)).(submitted := state.submitted + set e | e in events))
  {
    var grown := state.(submitted := state.submitted + set e | e in events);
    ChangeStaysSound(settings, state, grown);
    forall item | item in items ensures Addressed(settings, grown, item) {
      assert Addressed(settings, grown, Item(item.name, grown.store[item.name]));
    }
    EnterStaysSound(settings, grown, r, Listed(items, events));
  }

  lemma CutStaysSound(settings: Settings, state: State, r: nat)
    requires Sound(settings, state) && PhaseOf(state, r).Listed?
    ensures Sound(settings, Apply(settings, state, Cut(r)))
  {
    var Listed(items, events) := PhaseOf(state, r);
    var cutoff := settings.Cutoff(state.clock);
    var merged := Merged(Kept(items, cutoff), events);
    assert SoundPhase(settings, state, Listed(items, events));
    KeptAndStale(items, cutoff);
    forall e | e in merged ensures e in state.submitted {
      MergedHolds(Kept(items, cutoff), events, e);
    }
    EnterStaysSound(settings, state, r, Deleting(Stale(items, cutoff), merged, events));
  }

  lemma DeleteStaysSound(settings: Settings, state: State, r: nat, succeeds: bool)
    requires Sound(settings, state) && Enabled(state, Delete(r, succeeds))
    ensures Sound(settings, Apply(settings, state, Delete(r, succeeds)))
  {
    var Deleting(stale, merged, events) := PhaseOf(state, r);
    assert SoundPhase(settings, state, PhaseOf(state, r));
    var next := Enter(state, r, Deleting(stale[1..], merged, events));
    EnterStaysSound(settings, state, r, Deleting(stale[1..], merged, events));
    ChangeStaysSound(settings, next, next.(store := state.store - {stale[0].name}));
  }

  lemma CreateStaysSound(settings: Settings, state: State, r: nat)
    requires Sound(settings, state) && Enabled(state, Create(r))
    ensures Sound(settings, Apply(settings, state, Create(r)))
  {
    var Creating(cutoff, pending, merged) := PhaseOf(state, r);
    assert SoundPhase(settings, state, PhaseOf(state, r));
    var next := Enter(state, r, Creating(cutoff, pending[1..], merged));
    EnterStaysSound(settings, state, r, Creating(cutoff, pending[1..], merged));
    ChangeStaysSound(settings, next, next.(store := Created(settings, state.store, pending[0])));
  }

  lemma StepStaysSound(settings: Settings, state: State, step: Step)
    requires Sound(settings, state) && Enabled(state, step)
    ensures Sound(settings, Apply(settings, state, step))
  {
    match step {
      case Tick(_) => ChangeStaysSound(settings, state, Apply(settings, state, step));
      case List(r, items, events) => ListStaysSound(settings, state, r, items, events);
      case Cut(r) => CutStaysSound(settings, state, r);
      case Delete(r, succeeds) => DeleteStaysSound(settings, state, r, succeeds);
      case StartPersist(r) =>
        assert SoundPhase(settings, state, PhaseOf(state, r));
        EnterStaysSound(settings, state, r, Apply(settings, state, step).phases[r]);
      case Record(r, event) =>
        var grown := state.(submitted := state.submitted + {event});
        ChangeStaysSound(settings, state, grown);
        EnterStaysSound(settings, grown, r, Creating(settings.Cutoff(state.clock), [event], []));
      case Create(r) => CreateStaysSound(settings, state, r);
      case CreateFails(r) => EnterStaysSound(settings, state, r, Idle);
      case Return(r) => EnterStaysSound(settings, state, r, Idle);
    }
  }

  lemma {:induction false} RunStaysSound(settings: Settings, start: State, steps: seq<Step>, end: State)
    requires Sound(settings, start) && Runs(settings, start, steps, end)
    ensures Sound(settings, end) && start.clock <= end.clock && start.submitted <= end.submitted
    decreases |steps|
  {
    if steps == [] {
    } else {
      StepStaysSound(settings, start, steps[0]);
      RunStaysSound(settings, Apply(settings, start, steps[0]), steps[1..], end);
    }
  }

  ghost predicate HoldsEvent(settings: Settings, state: State, event: Event) {
    settings.name(event) in state.store && state.store[settings.name(event)] == Holds(event)
  }

  /** Whatever the replicas do, a stored event stays stored for as long as it has not expired. */
  lemma {:induction false} StoredUntilExpired(settings: Settings, start: State, steps: seq<Step>, end: State,
                                              event: Event)
    requires settings.Injective(end.submitted) && Sound(settings, start) && Runs(settings, start, steps, end)
    requires HoldsEvent(settings, start, event) && !Before(event, settings.Cutoff(end.clock))
    ensures HoldsEvent(settings, end, event)
    decreases |steps|
  {
    if steps == [] {
    } else {
      var next := Apply(settings, start, steps[0]);
      StepStaysSound(settings, start, steps[0]);
      RunStaysSound(settings, next, steps[1..], end);
      assert Addressed(settings, start, Item(settings.name(event), Holds(event)));
      StoredUntilExpired(settings, next, steps[1..], end, event);
    }
  }

  /** After a creation succeeds, every merge that lists later returns the event exactly once until it expires, and
      after that only if its caller passes the event in again. */
  lemma RetainedExactlyOnce(settings: Settings, start: State, until: seq<Step>, list: Step, between: seq<Step>,
                            cut: State, event: Event)
    requires settings.Injective(cut.submitted) && Sound(settings, start) && HoldsEvent(settings, start, event)
    requires list.List?
    requires exists listed :: Runs(settings, start, until, listed) && Enabled(listed, list)
                              && Runs(settings, Apply(settings, listed, list), between, cut)
    requires PhaseOf(cut, list.replica) == Listed(list.items, list.events)
    ensures PhaseOf(Apply(settings, cut, Cut(list.replica)), list.replica).Deleting?
    ensures var merged := PhaseOf(Apply(settings, cut, Cut(list.replica)), list.replica).merged;
            multiset(merged)[event]
            == if !Before(event, settings.Cutoff(cut.clock)) || event in list.events then 1 else 0
  {
    var listed :| Runs(settings, start, until, listed) && Enabled(listed, list)
                  && Runs(settings, Apply(settings, listed, list), between, cut);
    var cutoff := settings.Cutoff(cut.clock);
    RunStaysSound(settings, start, until, listed);
    StepStaysSound(settings, listed, list);
    RunStaysSound(settings, Apply(settings, listed, list), between, cut);
    KeptAndStale(list.items, cutoff);
    MergedHolds(Kept(list.items, cutoff), list.events, event);
    if !Before(event, cutoff) {
      StoredUntilExpired(settings, start, until, listed, event);
      assert Item(settings.name(event), Holds(event)) in list.items;
    }
  }

  /** A successful creation of an unexpired event stores it, unless data that does not decode already has the name. */
  lemma CreateStores(settings: Settings, state: State, replica: nat)
    requires settings.Injective(state.submitted) && Sound(settings, state) && Enabled(state, Create(replica))
    requires !Before(PhaseOf(state, replica).pending[0], PhaseOf(state, replica).cutoff)
    ensures var event := PhaseOf(state, replica).pending[0];
            HoldsEvent(settings, Apply(settings, state, Create(replica)), event)
            <==> !(settings.name(event) in state.store && state.store[settings.name(event)].Unreadable?)
  {
    var event := PhaseOf(state, replica).pending[0];
    assert SoundPhase(settings, state, PhaseOf(state, replica));
    if settings.name(event) in state.store {
      assert Addressed(settings, state, Item(settings.name(event), state.store[settings.name(event)]));
    }
  }

  /** No run returns or stores an event that no caller ever passed in. */
  lemma NothingIsInvented(settings: Settings, start: State, steps: seq<Step>, end: State, replica: nat)
    requires Initial(settings, start) && Runs(settings, start, steps, end)
    ensures forall name | name in end.store && end.store[name].Holds? :: end.store[name].event in end.submitted
    ensures PhaseOf(end, replica).Creating? ==> forall e | e in PhaseOf(end, replica).merged :: e in end.submitted
  {
    RunStaysSound(settings, start, steps, end);
    forall name | name in end.store && end.store[name].Holds? ensures end.store[name].event in end.submitted {
      assert Addressed(settings, end, Item(name, end.store[name]));
    }
  }

  /* ---------- The loops of one replica are a run of the protocol ---------- */

  lemma {:induction false} RunsAppend(settings: Settings, start: State, steps: seq<Step>, mid: State, more: seq<Step>,
                                      end: State)
    requires Runs(settings, start, steps, mid) && Runs(settings, mid, more, end)
    ensures Runs(settings, start, steps + more, end)
    decreases |steps|
  {
    if steps == [] {
      assert steps + more == more;
    } else {
      assert (steps + more)[1..] == steps[1..] + more;
      RunsAppend(settings, Apply(settings, start, steps[0]), steps[1..], mid, more, end);
    }
  }

  lemma {:induction false} DeleteAll(settings: Settings, start: State, r: nat, stale: seq<Item>, merged: seq<Event>,
                                     events: seq<Event>, failing: set<string>)
    returns (steps: seq<Step>, end: State)
    requires PhaseOf(start, r) == Deleting(stale, merged, events)
    ensures Runs(settings, start, steps, end)
    ensures end == Enter(start, r, Deleting([], merged, events)).(store := Removed(start.store, stale, failing))
    decreases |stale|
  {
    if stale == [] {
      steps, end := [], start;
      assert start.phases[r := Deleting([], merged, events)] == start.phases;
    } else {
      var delete := Delete(r, stale[0].name !in failing);
      var more;
      more, end := DeleteAll(settings, Apply(settings, start, delete), r, stale[1..], merged, events, failing);
      steps := [delete] + more;
      assert steps[1..] == more;
    }
  }

  lemma {:induction false} CreateAll(settings: Settings, start: State, r: nat, cutoff: Time, pending: seq<Event>,
                                     merged: seq<Event>, failing: set<string>)
    returns (steps: seq<Step>, end: State)
    requires PhaseOf(start, r) == Creating(cutoff, pending, merged)
    ensures Runs(settings, start, steps, end)
    ensures end.store == Persisted(settings, start.store, pending, cutoff, failing)
    ensures PhaseOf(end, r)
         == if PersistFails(settings, pending, cutoff, failing) then Idle else Creating(cutoff, [], merged)
    decreases |pending|
  {
    if pending == [] {
      steps, end := [], start;
    } else if !Before(pending[0], cutoff) && settings.name(pending[0]) in failing {
      steps, end := [CreateFails(r)], Apply(settings, start, CreateFails(r));
      assert steps[1..] == [] && pending[0] in pending;
    } else {
      var more;
      more, end := CreateAll(settings, Apply(settings, start, Create(r)), r, cutoff, pending[1..], merged, failing);
      steps := [Create(r)] + more;
      assert steps[1..] == more;
      assert pending == [pending[0]] + pending[1..];
    }
  }

  lemma TwoSteps(settings: Settings, start: State, one: Step, two: Step)
    requires Enabled(start, one) && Enabled(Apply(settings, start, one), two)
    ensures Runs(settings, start, [one, two], Apply(settings, Apply(settings, start, one), two))
  {
    assert [one, two][1..] == [two] && [two][1..] == [];
  }

  lemma ListAndDelete(settings: Settings, start: State, r: nat, events: seq<Event>, items: seq<Item>,
                      failing: set<string>)
    returns (steps: seq<Step>, deleted: State)
    requires PhaseOf(start, r).Idle? && Lists(items, start.store)
    ensures Runs(settings, start, steps, deleted)
    ensures deleted.clock == start.clock
    ensures var cutoff := settings.Cutoff(start.clock);
            deleted.store == Removed(start.store, Stale(items, cutoff), failing)
            && PhaseOf(deleted, r) == Deleting([], Merged(Kept(items, cutoff), events), events)
  {
    var cutoff := settings.Cutoff(start.clock);
    var merged := Merged(Kept(items, cutoff), events);
    var cut := Apply(settings, Apply(settings, start, List(r, items, events)), Cut(r));
    TwoSteps(settings, start, List(r, items, events), Cut(r));
    var deletes;
    deletes, deleted := DeleteAll(settings, cut, r, Stale(items, cutoff), merged, events, failing);
    RunsAppend(settings, start, [List(r, items, events), Cut(r)], cut, deletes, deleted);
    steps := [List(r, items, events), Cut(r)] + deletes;
  }

  /** When nobody interferes, the protocol's steps of one merge do what the class method does, whichever calls fail. */
  lemma MergeAloneIsARun(settings: Settings, start: State, r: nat, events: seq<Event>, items: seq<Item>, pause: nat,
                         faults: Faults)
    returns (steps: seq<Step>, end: State)
    requires PhaseOf(start, r).Idle? && Lists(items, start.store)
    ensures Runs(settings, start, steps, end)
    ensures end.store == MergeAlone(settings, start.store, events, items, start.clock, start.clock + pause, faults)
    ensures match MergeReturns(settings, events, items, start.clock, start.clock + pause, faults)
            case None => PhaseOf(end, r).Idle?
            case Some(merged) => PhaseOf(end, r) == Creating(settings.Cutoff(start.clock + pause), [], merged)
  {
    var cutoff := settings.Cutoff(start.clock + pause);
    var merged := Merged(Kept(items, settings.Cutoff(start.clock)), events);
    var deletes, deleted := ListAndDelete(settings, start, r, events, items, faults.deletes);
    var persisting := Apply(settings, Apply(settings, deleted, Tick(pause)), StartPersist(r));
    TwoSteps(settings, deleted, Tick(pause), StartPersist(r));
    RunsAppend(settings, start, deletes, deleted, [Tick(pause), StartPersist(r)], persisting);
    var creates;
    creates, end := CreateAll(settings, persisting, r, cutoff, events, merged, faults.creates);
    steps := deletes + [Tick(pause), StartPersist(r)];
    RunsAppend(settings, start, steps, persisting, creates, end);
    steps := steps + creates;
  }
}
