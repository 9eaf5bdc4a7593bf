/** The allocator run over a list of calls: discovered targets and observed collectors, in any order. */
module Replay {
  import opened Allocation
  import opened AllocationHistory
  import opened Discovery

  /** What reaches the allocator: targets, with what the relabelling hook decides at the time, or collectors. */
  datatype Call =
    | TargetsFound(sets: TargetSets, filter: Filter)
    | CollectorsSeen(names: set<string>)

  /** The event is what the call comes to. Of targets with one hash any may come through. */
  ghost predicate Matches(fingerprint: Fingerprint, call: Call, e: Event) {
    match call
    case CollectorsSeen(names) => e == CollectorsSet(names)
    case TargetsFound(sets, filter) =>
      && e.TargetsSet?
      && (forall k | k in e.targets ::
            ComesFrom(fingerprint, AllFound(sets), k, e.targets[k]) && Keeps(filter, e.targets[k]))
      && (ToldApart(fingerprint, AllFound(sets)) ==> e.targets == KeptByHash(fingerprint, AllFound(sets), filter))
  }

  ghost predicate AllMatch(fingerprint: Fingerprint, calls: seq<Call>, events: seq<Event>) {
    |calls| == |events| && forall i | 0 <= i < |calls| :: Matches(fingerprint, calls[i], events[i])
  }

  predicate AllNamed(calls: seq<Call>) {
    forall i | 0 <= i < |calls| && calls[i].CollectorsSeen? :: "" !in calls[i].names
  }

  // ---------------------------------------------------------------- the run

  /** Whatever the allocator refers to was there before or is new. */
  twostate predicate OldOrFresh(allocator: ConsistentHashingAllocator)
    reads allocator
  {
    && (forall k | k in allocator.targetItems ::
          (k in old(allocator.targetItems) && allocator.targetItems[k] == old(allocator.targetItems)[k])
          || fresh(allocator.targetItems[k]))
    && (forall c | c in allocator.collectors ::
          (c in old(allocator.collectors) && allocator.collectors[c] == old(allocator.collectors)[c])
          || fresh(allocator.collectors[c]))
  }

  method SetHook(allocator: ConsistentHashingAllocator, filter: Filter)
    requires allocator.Good(true)
    modifies allocator`filter
    ensures allocator.Good(true) && allocator.filter == filter && allocator.Abs() == old(allocator.Abs())
  {
    allocator.SetFilter(filter);
  }

  /** Targets that name no collector leave the accounts exact. */
  method SetNameless(allocator: ConsistentHashingAllocator, items: map<string, Item>)
    requires allocator.Good(true) && Keyed(items) && forall k | k in items :: items[k].collectorName == ""
    modifies allocator`targetItems, allocator`targetItemsPerJobPerCollector,
             allocator.collectors.Values`numTargets, items.Values`collectorName
    ensures allocator.Good(true)
    ensures forall k | k in allocator.targetItems ::
              (k in old(allocator.targetItems) && allocator.targetItems[k] == old(allocator.targetItems)[k])
              || (k in items && allocator.targetItems[k] == items[k])
    ensures allocator.Abs() ==
              AfterSetTargets(allocator.ring, old(allocator.Abs()), Described(Filtered(allocator.filter, items)))
  {
    allocator.ValidIsSoundAndExact();
    assert allocator.Unclaimed(Filtered(allocator.filter, items));
    allocator.SetTargets(items);
    allocator.ValidIsSoundAndExact();
  }

  method FindTargets(allocator: ConsistentHashingAllocator, fingerprint: Fingerprint, sets: TargetSets)
      returns (ghost e: Event)
    requires allocator.Good(true)
    modifies allocator`targetItems, allocator`targetItemsPerJobPerCollector, allocator.collectors.Values`numTargets
    ensures allocator.Good(true) && OldOrFresh(allocator)
    ensures Matches(fingerprint, TargetsFound(sets, allocator.filter), e)
    ensures allocator.Abs() == Step(allocator.ring, old(allocator.Abs()), e)
  {
    var items := DiscoverFor(fingerprint, sets, allocator.filter);
    e := TargetsSet(Described(Filtered(allocator.filter, items)));
    SetNameless(allocator, items);
  }

  method DiscoverFor(fingerprint: Fingerprint, sets: TargetSets, ghost filter: Filter)
      returns (items: map<string, Item>)
    ensures Keyed(items) && forall k | k in items :: fresh(items[k]) && items[k].collectorName == ""
    ensures Matches(fingerprint, TargetsFound(sets, filter), TargetsSet(Described(Filtered(filter, items))))
  {
    items := Discover(fingerprint, sets);
    CollectedMatches(fingerprint, items, sets, filter);
  }

  lemma CollectedMatches(fingerprint: Fingerprint, items: map<string, Item>, sets: TargetSets, filter: Filter)
    requires Collected(fingerprint, items, AllFound(sets))
    ensures Matches(fingerprint, TargetsFound(sets, filter), TargetsSet(Described(Filtered(filter, items))))
  {
    if ToldApart(fingerprint, AllFound(sets)) {
      DiscoveredByHash(fingerprint, items, AllFound(sets), filter);
    }
  }

  method SeeCollectors(allocator: ConsistentHashingAllocator, names: set<string>) returns (ghost e: Event)
    requires allocator.Good(true) && "" !in names
    modifies allocator, allocator.targetItems.Values, allocator.collectors.Values
    ensures allocator.Good(true) && OldOrFresh(allocator) && e == CollectorsSet(names)
    ensures allocator.Abs() == Step(allocator.ring, old(allocator.Abs()), e)
  {
    e := CollectorsSet(names);
    ghost var s := allocator.Abs();
    var collectors := NewCollectors(names);
    assert allocator.Abs() == s;
    allocator.SetCollectors(collectors);
    assert OldOrFresh(allocator);
  }

  method NewCollectors(names: set<string>) returns (collectors: map<string, Collector>)
    ensures collectors.Keys == names && forall c | c in collectors :: collectors[c].name == c
  {
    collectors := map[];
    var rest := names;
    while rest != {}
      invariant rest <= names && collectors.Keys == names - rest
      invariant forall c | c in collectors :: collectors[c].name == c
    {
      var name :| name in rest;
      var collector := new Collector(name);
      collectors := collectors[name := collector];
      rest := rest - {name};
    }
  }

  method ReplayOne(allocator: ConsistentHashingAllocator, fingerprint: Fingerprint, call: Call) returns (ghost e: Event)
    requires allocator.Good(true) && (call.CollectorsSeen? ==> "" !in call.names)
    modifies allocator, allocator.targetItems.Values, allocator.collectors.Values
    ensures allocator.Good(true) && OldOrFresh(allocator) && Matches(fingerprint, call, e)
    ensures allocator.Abs() == Step(allocator.ring, old(allocator.Abs()), e)
  {
    match call {
      case TargetsFound(sets, filter) =>
        SetHook(allocator, filter);
        e := FindTargets(allocator, fingerprint, sets);
      case CollectorsSeen(names) => e := SeeCollectors(allocator, names);
    }
  }

  method ReplayNext(allocator: ConsistentHashingAllocator, fingerprint: Fingerprint, calls: seq<Call>, i: nat,
                    ghost events: seq<Event>) returns (ghost more: seq<Event>)
    requires i < |calls| && AllNamed(calls) && AllMatch(fingerprint, calls[..i], events)
    requires allocator.Good(true) && allocator.Abs() == Run(allocator.ring, events)
    modifies allocator, allocator.targetItems.Values, allocator.collectors.Values
    ensures AllMatch(fingerprint, calls[..i + 1], more) && OldOrFresh(allocator)
    ensures allocator.Good(true) && allocator.Abs() == Run(allocator.ring, more)
  {
    ghost var e := ReplayOne(allocator, fingerprint, calls[i]);
    MatchedOneMore(fingerprint, calls, i, events, e);
    RunOneMore(allocator.ring, events, e);
    more := events + [e];
  }

  /** After any calls a new allocator is in the state of the history they come to, with exact accounts; if hashes tell
      apart all that was discovered, in the state its last discovery and the last collectors call for. */
  method ReplayAll(ring: Ring, fingerprint: Fingerprint, calls: seq<Call>)
      returns (allocator: ConsistentHashingAllocator, ghost events: seq<Event>)
    requires AllNamed(calls)
    ensures fresh(allocator) && allocator.ring == ring && allocator.Valid()
    ensures AllMatch(fingerprint, calls, events) && allocator.Abs() == Run(ring, events)
    ensures ToldApart(fingerprint, FoundIn(calls)) ==>
              allocator.Abs() == Canonical(ring, LastSeen(calls), LastFound(fingerprint, calls))
  {
    allocator, events := ReplayInTurn(ring, fingerprint, calls);
    ReplayIsCanonical(ring, fingerprint, calls, events);
  }

  method ReplayInTurn(ring: Ring, fingerprint: Fingerprint, calls: seq<Call>)
      returns (allocator: ConsistentHashingAllocator, ghost events: seq<Event>)
    requires AllNamed(calls)
    ensures fresh(allocator) && allocator.ring == ring && allocator.Valid()
    ensures AllMatch(fingerprint, calls, events) && allocator.Abs() == Run(ring, events)
  {
    allocator := new ConsistentHashingAllocator(ring, NoFilter);
    allocator.ValidIsSoundAndExact();
    events := [];
    for i := 0 to |calls|
      invariant fresh(allocator) && allocator.ring == ring && allocator.Good(true)
      invariant forall k | k in allocator.targetItems :: fresh(allocator.targetItems[k])
      invariant forall c | c in allocator.collectors :: fresh(allocator.collectors[c])
      invariant AllMatch(fingerprint, calls[..i], events) && allocator.Abs() == Run(ring, events)
    {
      events := ReplayNext(allocator, fingerprint, calls, i, events);
    }
    allocator.ValidIsSoundAndExact();
    assert calls[..|calls|] == calls;
  }

  lemma RunOneMore(ring: Ring, events: seq<Event>, e: Event)
    ensures Run(ring, events + [e]) == Step(ring, Run(ring, events), e)
  {
    assert (events + [e])[..|events|] == events;
  }

  lemma MatchedOneMore(fingerprint: Fingerprint, calls: seq<Call>, i: nat, events: seq<Event>, e: Event)
    requires i < |calls| && AllMatch(fingerprint, calls[..i], events) && Matches(fingerprint, calls[i], e)
    ensures AllMatch(fingerprint, calls[..i + 1], events + [e])
  {
    forall j | 0 <= j < i + 1
      ensures Matches(fingerprint, calls[..i + 1][j], (events + [e])[j])
    {
      if j < i {
        assert Matches(fingerprint, calls[..i][j], events[j]);
      }
    }
  }

  // ---------------------------------------------------------------- agreement of replicas

  function FoundIn(calls: seq<Call>): set<Found> {
    if calls == [] then {}
    else FoundIn(calls[..|calls| - 1]) + match calls[|calls| - 1]
      case TargetsFound(sets, _) => AllFound(sets)
      case CollectorsSeen(_) => {}
  }

  /** The targets of the last discovery, by hash. */
  ghost function LastFound(fingerprint: Fingerprint, calls: seq<Call>): map<string, Target> {
    if calls == [] then map[]
    else match calls[|calls| - 1]
      case TargetsFound(sets, filter) => KeptByHash(fingerprint, AllFound(sets), filter)
      case CollectorsSeen(_) => LastFound(fingerprint, calls[..|calls| - 1])
  }

  function LastSeen(calls: seq<Call>): set<string> {
    if calls == [] then {}
    else match calls[|calls| - 1]
      case CollectorsSeen(names) => if names == {} then LastSeen(calls[..|calls| - 1]) else names
      case TargetsFound(_, _) => LastSeen(calls[..|calls| - 1])
  }

  lemma {:induction false} FoundInSome(calls: seq<Call>, i: nat)
    requires i < |calls| && calls[i].TargetsFound?
    ensures AllFound(calls[i].sets) <= FoundIn(calls)
  {
    if i < |calls| - 1 {
      FoundInSome(calls[..|calls| - 1], i);
    }
  }

  lemma {:induction false} MatchedHistory(fingerprint: Fingerprint, calls: seq<Call>, events: seq<Event>)
    requires AllMatch(fingerprint, calls, events) && AllNamed(calls) && ToldApart(fingerprint, FoundIn(calls))
    ensures Named(events)
    ensures LastCollectors(events) == LastSeen(calls) && LastTargets(events) == LastFound(fingerprint, calls)
  {
    if calls != [] {
      var n := |calls| - 1;
      MatchedHistory(fingerprint, calls[..n], events[..n]);
      assert Matches(fingerprint, calls[n], events[n]);
      assert forall i | 0 <= i < n :: events[..n][i] == events[i];
    }
  }

  /** Where hashes tell apart all that was ever discovered, they fix the targets of the history. */
  lemma MatchedHashesFixTargets(fingerprint: Fingerprint, calls: seq<Call>, events: seq<Event>, all: set<Found>)
    requires AllMatch(fingerprint, calls, events) && FoundIn(calls) <= all && ToldApart(fingerprint, all)
    ensures HashFixesTarget(events, k => TargetWith(fingerprint, all, k))
  {
    forall i, k | 0 <= i < |events| && events[i].TargetsSet? && k in events[i].targets
      ensures events[i].targets[k] == TargetWith(fingerprint, all, k)
    {
      assert Matches(fingerprint, calls[i], events[i]);
      FoundInSome(calls, i);
      StillComesFrom(fingerprint, AllFound(calls[i].sets), all, k, events[i].targets[k]);
      OnlyTarget(fingerprint, all, k, events[i].targets[k]);
    }
  }

  lemma StillComesFrom(fingerprint: Fingerprint, found: set<Found>, all: set<Found>, k: string, target: Target)
    requires found <= all && ComesFrom(fingerprint, found, k, target)
    ensures ComesFrom(fingerprint, all, k, target)
  {
  }

  /** For discovered targets, then: the allocator's state is one computation from the last discovery and the last
      collectors that were seen, whatever came before and in whatever order it was found. */
  lemma ReplayIsCanonical(ring: Ring, fingerprint: Fingerprint, calls: seq<Call>, events: seq<Event>)
    requires AllNamed(calls) && AllMatch(fingerprint, calls, events)
    ensures ToldApart(fingerprint, FoundIn(calls)) ==>
              Run(ring, events) == Canonical(ring, LastSeen(calls), LastFound(fingerprint, calls))
  {
    if ToldApart(fingerprint, FoundIn(calls)) {
      MatchedHistory(fingerprint, calls, events);
      MatchedHashesFixTargets(fingerprint, calls, events, FoundIn(calls));
      FixedTargetsAreLast(events, k => TargetWith(fingerprint, FoundIn(calls), k));
      HistoryIsForgotten(ring, events);
    }
  }

  /** Replicas that have discovered the same at last and seen the same collectors agree, if different label sets have
      different fingerprints and no group of targets sets the address. */
  lemma ReplicasOfDiscoveryAgree(ring: Ring, fingerprint: Fingerprint, calls: seq<Call>, events: seq<Event>,
                                 calls': seq<Call>, events': seq<Event>)
    requires AllNamed(calls) && AllMatch(fingerprint, calls, events) && Regular(fingerprint, FoundIn(calls))
    requires AllNamed(calls') && AllMatch(fingerprint, calls', events') && Regular(fingerprint, FoundIn(calls'))
    requires LastSeen(calls) == LastSeen(calls') && LastFound(fingerprint, calls) == LastFound(fingerprint, calls')
    ensures Run(ring, events) == Run(ring, events')
  {
    RegularIsToldApart(fingerprint, FoundIn(calls));
    RegularIsToldApart(fingerprint, FoundIn(calls'));
    ReplayIsCanonical(ring, fingerprint, calls, events);
    ReplayIsCanonical(ring, fingerprint, calls', events');
  }
}
