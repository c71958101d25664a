/** How long the audit log keeps an event, told by the event's age alone. */
module AuditAges {
  import Options
  import opened AuditStore

  /** The event has no readable time, or is at most as old as the retention. */
  predicate Young(settings: Settings, event: Event, now: Time) {
    event.time.None? || now - event.time.time <= settings.retention
  }

  lemma YoungIsNotExpired(settings: Settings, event: Event, now: Time)
    ensures Young(settings, event, now) <==> !Before(event, settings.Cutoff(now))
  {
  }

  /** Whatever the replicas do and whichever calls fail, a stored event stays stored while it is no older than the
      retention, and for ever if it has no readable time. */
  lemma StoredWhileYoung(settings: Settings, start: State, steps: seq<Step>, end: State, event: Event)
    requires settings.Injective(end.submitted) && Sound(settings, start) && Runs(settings, start, steps, end)
    requires settings.name(event) in start.store && start.store[settings.name(event)] == Holds(event)
    requires event.time.At? ==> end.clock - event.time.time <= settings.retention
    ensures settings.name(event) in end.store && end.store[settings.name(event)] == Holds(event)
  {
    YoungIsNotExpired(settings, event, end.clock);
    StoredUntilExpired(settings, start, steps, end, event);
  }

  /** Every merge that lists a stored event, and whose replica sets its cutoff at a moment when the event is no older
      than the retention, holds the event once; when it is older by then, the merge holds it, once, only if its caller
      passes it in. */
  lemma MergedWhileYoung(settings: Settings, start: State, until: seq<Step>, list: Step, between: seq<Step>, cut: State,
                         event: Event)
    requires settings.Injective(cut.submitted) && Sound(settings, start)
    requires settings.name(event) in start.store && start.store[settings.name(event)] == Holds(event)
    requires list.List?
    requires exists listed :: Runs(settings, start, until, listed) && Enabled(listed, list)
                              && Runs(settings, Apply(settings, listed, list), between, cut)
    requires PhaseOf(cut, list.replica) == Listed(list.items, list.events)
    ensures PhaseOf(Apply(settings, cut, Cut(list.replica)), list.replica).Deleting?
    ensures var merged := PhaseOf(Apply(settings, cut, Cut(list.replica)), list.replica).merged;
            var young := event.time.At? ==> cut.clock - event.time.time <= settings.retention;
            multiset(merged)[event] == if young || event in list.events then 1 else 0
  {
    YoungIsNotExpired(settings, event, cut.clock);
    RetainedExactlyOnce(settings, start, until, list, between, cut, event);
  }

  const NO_FAULTS := Faults({}, {})

  /** After an undisturbed merge without failing calls, an event that was older than the retention at the listing is no
      longer stored, and its name is taken exactly if an event that was passed in, and is not too old, has it. */
  lemma MergeDropsOld(settings: Settings, store: Store, events: seq<Event>, items: seq<Item>, listedAt: Time,
                      persistedAt: Time, event: Event)
    requires Lists(items, store) && event.time.At? && settings.retention < listedAt - event.time.time
    requires settings.name(event) in store && store[settings.name(event)] == Holds(event)
    ensures var after := MergeAlone(settings, store, events, items, listedAt, persistedAt, NO_FAULTS);
            && (settings.name(event) in after <==>
                  exists e | e in events :: Young(settings, e, persistedAt) && settings.name(e) == settings.name(event))
            && (settings.name(event) in after ==>
                  exists e | e in events :: Young(settings, e, persistedAt) && after[settings.name(event)] == Holds(e))
  {
    var name, cutoff := settings.name(event), settings.Cutoff(persistedAt);
    var stale := Stale(items, settings.Cutoff(listedAt));
    var left := Removed(store, stale, {});
    KeptAndStale(items, settings.Cutoff(listedAt));
    YoungIsNotExpired(settings, event, listedAt);
    RemovedLeaves(store, stale, {});
    assert Item(name, store[name]) in stale;
    assert name !in left;
    PersistedHolds(settings, left, events, cutoff, {}, name);
    if exists e | e in events :: Young(settings, e, persistedAt) && settings.name(e) == name {
      var e :| e in events && Young(settings, e, persistedAt) && settings.name(e) == name;
      YoungIsNotExpired(settings, e, persistedAt);
      var k :| 0 <= k < |events| && events[k] == e;
      var i := FirstCreator(settings, events, cutoff, name, k);
    }
    if i :| Creates(settings, events, cutoff, {}, i, name) {
      YoungIsNotExpired(settings, events[i], persistedAt);
      assert events[i] in events;
    }
  }

  /** The first unexpired event of a name, at or before a given one. */
  lemma {:induction false} FirstCreator(settings: Settings, events: seq<Event>, cutoff: Time, name: string, k: nat)
    returns (i: nat)
    requires k < |events| && !Before(events[k], cutoff) && settings.name(events[k]) == name
    ensures Creates(settings, events, cutoff, {}, i, name)
    decreases k
  {
    if j :| 0 <= j < k && !Before(events[j], cutoff) && settings.name(events[j]) == name {
      i := FirstCreator(settings, events, cutoff, name, j);
    } else {
      i := k;
    }
  }

  /** One that was no older than the retention at the listing is still stored. */
  lemma MergeKeepsYoung(settings: Settings, store: Store, events: seq<Event>, items: seq<Item>, listedAt: Time,
                        persistedAt: Time, event: Event)
    requires Lists(items, store) && settings.name(event) in store && store[settings.name(event)] == Holds(event)
    requires Young(settings, event, listedAt)
    ensures var after := MergeAlone(settings, store, events, items, listedAt, persistedAt, NO_FAULTS);
            settings.name(event) in after && after[settings.name(event)] == Holds(event)
  {
    var name, stale := settings.name(event), Stale(items, settings.Cutoff(listedAt));
    KeptAndStale(items, settings.Cutoff(listedAt));
    YoungIsNotExpired(settings, event, listedAt);
    RemovedLeaves(store, stale, {});
    assert name in Removed(store, stale, {});
    PersistedHolds(settings, Removed(store, stale, {}), events, settings.Cutoff(persistedAt), {}, name);
  }

  /* ---------- In which order events are returned ---------- */

  ghost predicate Increasing(at: seq<nat>, below: nat) {
    (forall k | 0 <= k < |at| :: at[k] < below) && forall k, l | 0 <= k < l < |at| :: at[k] < at[l]
  }

  lemma OneMorePlace(at: seq<nat>, n: nat)
    requires Increasing(at, n)
    ensures Increasing(at, n + 1) && Increasing(at + [n], n + 1)
    ensures forall i :: i in at + [n] <==> i in at || i == n
  {
  }

  /** The places hold the kept events, and are those of all listed events that are not too old. */
  ghost predicate KeptAt(settings: Settings, items: seq<Item>, now: Time, kept: seq<Event>, at: seq<nat>) {
    && Increasing(at, |items|) && |at| == |kept|
    && (forall k | 0 <= k < |at| :: items[at[k]].stored == Holds(kept[k]))
    && forall i | 0 <= i < |items| ::
         i in at <==> items[i].stored.Holds? && Young(settings, items[i].stored.event, now)
  }

  lemma KeptAtGrows(settings: Settings, items: seq<Item>, now: Time, kept: seq<Event>, at: seq<nat>, item: Item)
    requires KeptAt(settings, items, now, kept, at)
    ensures if item.stored.Holds? && Young(settings, item.stored.event, now)
            then KeptAt(settings, items + [item], now, kept + [item.stored.event], at + [|items|])
            else KeptAt(settings, items + [item], now, kept, at)
  {
    OneMorePlace(at, |items|);
    assert forall i | 0 <= i < |items| :: (items + [item])[i] == items[i];
  }

  /** The listed events that a merge keeps are those no older than the retention, in the order of the listing. */
  lemma {:induction false} KeptInOrder(settings: Settings, items: seq<Item>, now: Time) returns (at: seq<nat>)
    ensures KeptAt(settings, items, now, Kept(items, settings.Cutoff(now)), at)
  {
    if items == [] {
      at := [];
    } else {
      var rest, last := items[..|items| - 1], items[|items| - 1];
      at := KeptInOrder(settings, rest, now);
      KeptAtGrows(settings, rest, now, Kept(rest, settings.Cutoff(now)), at, last);
      assert items == rest + [last];
      if last.stored.Holds? && Young(settings, last.stored.event, now) {
        at := at + [|rest|];
      }
    }
  }

  /** The places where the events first occur. */
  ghost predicate OnceAt(events: seq<Event>, once: seq<Event>, at: seq<nat>) {
    && Increasing(at, |events|) && |at| == |once|
    && (forall k | 0 <= k < |at| :: events[at[k]] == once[k] && once[k] !in events[..at[k]])
    && forall event :: event in once <==> event in events
  }

  lemma OnceAtGrows(events: seq<Event>, once: seq<Event>, at: seq<nat>, event: Event)
    requires OnceAt(events, once, at)
    ensures if event in events then OnceAt(events + [event], once, at)
            else OnceAt(events + [event], once + [event], at + [|events|])
  {
    OneMorePlace(at, |events|);
    assert (events + [event])[..|events|] == events;
    forall k | 0 <= k < |at| ensures (events + [event])[..at[k]] == events[..at[k]] {
    }
  }

  /** A merge returns each event once, in the order in which the retained events and then those passed in first name
      them. */
  lemma {:induction false} OccurrencesInOrder(events: seq<Event>) returns (at: seq<nat>)
    ensures OnceAt(events, FirstOccurrences(events), at)
  {
    if events == [] {
      at := [];
    } else {
      var rest, last := events[..|events| - 1], events[|events| - 1];
      at := OccurrencesInOrder(rest);
      OnceAtGrows(rest, FirstOccurrences(rest), at, last);
      assert events == rest + [last];
      if last !in rest {
        at := at + [|rest|];
      }
    }
  }
}
