/** The watch on collector pods that feeds the allocator. */
module CollectorWatch {
  import opened Allocation

  datatype Pod = Pod(name: string, terminating: bool)

  /** What the watch loop can see. `Unwatchable` says that no further watch can be opened. */
  datatype Event =
    | Added(name: string)
    | Deleted(name: string)
    | Modified(name: string)
    | NotAPod
    | ChannelClosed
    | TimedOut
    | Unwatchable
    | ClientClosed

  // ---------------------------------------------------------------- specification

  function Listed(pods: seq<Pod>): set<string> {
    set i | 0 <= i < |pods| && !pods[i].terminating :: pods[i].name
  }

  predicate EndsWatching(e: Event) {
    e.Unwatchable? || e.ClientClosed?
  }

  predicate ShowsPod(e: Event) {
    e.Added? || e.Deleted? || e.Modified?
  }

  /** The events up to the one that ends the watching. */
  function Seen(stream: seq<Event>): seq<Event> {
    if stream == [] || EndsWatching(stream[0]) then [] else [stream[0]] + Seen(stream[1..])
  }

  function NamesAfter(names: set<string>, e: Event): set<string> {
    match e
    case Added(n) => names + {n}
    case Deleted(n) => names - {n}
    case _ => names
  }

  /** The name sets handed to the allocator, in order; a restart of the watch hands over nothing. */
  function Published(names: set<string>, stream: seq<Event>): seq<set<string>>
    decreases stream
  {
    if stream == [] || EndsWatching(stream[0]) then []
    else
      var names' := NamesAfter(names, stream[0]);
      (if ShowsPod(stream[0]) then [names'] else [])
      + Published(names', stream[1..])
  }

  function LastNonEmpty(published: seq<set<string>>, otherwise: set<string>): set<string> {
    if published == [] then otherwise
    else if published[|published| - 1] != {} then published[|published| - 1]
    else LastNonEmpty(published[..|published| - 1], otherwise)
  }

  function SetAll(ring: Ring, s: State, published: seq<set<string>>): State
    decreases published
  {
    if published == [] then s
    else SetAll(ring, AfterSetCollectors(ring, s, published[0]), published[1..])
  }

  /** A pod is taken to run if the last thing heard of it was its arrival, or if nothing was heard of it and it was
      listed at the start. */
  predicate TakenToRun(listed: set<string>, seen: seq<Event>, n: string) {
    if seen == [] then n in listed
    else
      var e := seen[|seen| - 1];
      if e == Added(n) then true
      else if e == Deleted(n) then false
      else TakenToRun(listed, seen[..|seen| - 1], n)
  }

  lemma {:induction false} SetAllInParts(ring: Ring, s: State, before: seq<set<string>>, after: seq<set<string>>)
    ensures SetAll(ring, s, before + after) == SetAll(ring, SetAll(ring, s, before), after)
    decreases before
  {
    if before == [] {
      assert before + after == after;
    } else {
      assert (before + after)[1..] == before[1..] + after;
      SetAllInParts(ring, AfterSetCollectors(ring, s, before[0]), before[1..], after);
    }
  }

  lemma FirstPublished(ring: Ring, s: State, names: set<string>, stream: seq<Event>)
    requires stream != [] && !EndsWatching(stream[0])
    ensures var names' := NamesAfter(names, stream[0]);
            SetAll(ring, s, Published(names, stream)) ==
            SetAll(ring, if ShowsPod(stream[0]) then AfterSetCollectors(ring, s, names')
              else s, Published(names', stream[1..]))
  {
    var names' := NamesAfter(names, stream[0]);
    var later := Published(names', stream[1..]);
    if ShowsPod(stream[0]) {
      assert ([names'] + later)[1..] == later;
    } else {
      assert [] + later == later;
    }
  }

  /** The allocator's members are the last non-empty publication; they never become empty again. */
  lemma {:induction false} MembersAreLastNonEmpty(ring: Ring, s: State, published: seq<set<string>>)
    ensures SetAll(ring, s, published).members == LastNonEmpty(published, s.members)
    ensures s.members != {} ==> SetAll(ring, s, published).members != {}
    ensures SetAll(ring, s, published).items.Keys == s.items.Keys
  {
    if published != [] {
      var n := |published| - 1;
      MembersAreLastNonEmpty(ring, s, published[..n]);
      SetAllInParts(ring, s, published[..n], [published[n]]);
      assert published == published[..n] + [published[n]];
      var earlier := SetAll(ring, s, published[..n]);
      assert [published[n]][1..] == [];
      assert SetAll(ring, earlier, [published[n]]) == AfterSetCollectors(ring, earlier, published[n]);
    }
  }

  function FinalNames(names: set<string>, stream: seq<Event>): set<string>
    decreases stream
  {
    if stream == [] || EndsWatching(stream[0]) then names
    else FinalNames(NamesAfter(names, stream[0]), stream[1..])
  }

  lemma {:induction false} FinalNamesTakenToRun(names: set<string>, stream: seq<Event>, n: string)
    ensures n in FinalNames(names, stream) <==> TakenToRun(names, Seen(stream), n)
    decreases stream
  {
    if stream != [] && !EndsWatching(stream[0]) {
      FinalNamesTakenToRun(NamesAfter(names, stream[0]), stream[1..], n);
      TakenToRunFromSecond(names, stream[0], Seen(stream[1..]), n);
    }
  }

  lemma {:induction false} TakenToRunFromSecond(names: set<string>, e: Event, later: seq<Event>, n: string)
    ensures TakenToRun(names, [e] + later, n) <==> TakenToRun(NamesAfter(names, e), later, n)
  {
    if later == [] {
      assert [e] + later == [e] && [e][..0] == [];
    } else {
      assert ([e] + later)[..|later|] == [e] + later[..|later| - 1];
      TakenToRunFromSecond(names, e, later[..|later| - 1], n);
    }
  }

  /** After the last publication nothing is pending: the last name set published, if any, is the final one. */
  lemma {:induction false} LastPublishedIsFinal(names: set<string>, stream: seq<Event>)
    ensures var all := [names] + Published(names, stream); all[|all| - 1] == FinalNames(names, stream)
    decreases stream
  {
    if stream != [] && !EndsWatching(stream[0]) {
      LastPublishedIsFinal(NamesAfter(names, stream[0]), stream[1..]);
    }
  }

  // ---------------------------------------------------------------- the client

  class Client {
    var collectorMap: map<string, Collector>
    var stream: seq<Event>

    /** The map is keyed by names, and the pods still to arrive have names. */
    ghost predicate Valid()
      reads this
    {
      && "" !in collectorMap
      && (forall n | n in collectorMap :: collectorMap[n].name == n)
      && forall i | 0 <= i < |stream| && stream[i].Added? :: stream[i].name != ""
    }

    constructor (stream: seq<Event>)
      requires forall i | 0 <= i < |stream| && stream[i].Added? :: stream[i].name != ""
      ensures Valid() && collectorMap == map[] && this.stream == stream
    {
      this.collectorMap := map[];
      this.stream := stream;
    }

    /** The state the allocator will be in once everything left in the stream has been handled. */
    ghost function Outcome(allocator: ConsistentHashingAllocator): State
      reads this, allocator, allocator.targetItems.Values`collectorName
    {
      SetAll(allocator.ring, allocator.Abs(), Published(collectorMap.Keys, stream))
    }

    ghost function OutcomeNames(): set<string>
      reads this
    {
      FinalNames(collectorMap.Keys, stream)
    }

    /** The collectors the allocator held before are the same objects, all others are new. */
    twostate predicate OldOrFresh(allocator: ConsistentHashingAllocator)
      reads allocator
    {
      forall c | c in allocator.collectors ::
        (c in old(allocator.collectors) && allocator.collectors[c] == old(allocator.collectors)[c])
        || fresh(allocator.collectors[c])
    }

    method UpdateMap(event: Event)
      requires Valid() && ShowsPod(event) && (event.Added? ==> event.name != "")
      modifies this`collectorMap
      ensures Valid() && collectorMap.Keys == NamesAfter(old(collectorMap).Keys, event)
    {
      if event.Added? {
        var collector := new Collector(event.name);
        collectorMap := collectorMap[event.name := collector];
      } else if event.Deleted? {
        collectorMap := collectorMap - {event.name};
      }
    }

    /** Handles one pod event: the map is updated and handed to the allocator. */
    method HandleEvent(allocator: ConsistentHashingAllocator, event: Event, ghost exact: bool)
      requires Valid() && allocator.Good(exact) && ShowsPod(event) && (event.Added? ==> event.name != "")
      modifies this`collectorMap, allocator`collectors, allocator`hasher, allocator`targetItems,
               allocator`targetItemsPerJobPerCollector,
               allocator.targetItems.Values`collectorName, allocator.collectors.Values`numTargets
      ensures Valid() && allocator.Good(exact) && allocator.targetItems == old(allocator.targetItems)
      ensures OldOrFresh(allocator)
      ensures collectorMap.Keys == NamesAfter(old(collectorMap).Keys, event)
      ensures allocator.Abs() == AfterSetCollectors(allocator.ring, old(allocator.Abs()), collectorMap.Keys)
    {
      UpdateMap(event);
      allocator.SetCollectors(collectorMap);
    }

    /** The half-way state of following the stream: nothing of the outcome is lost. */
    ghost predicate Following(allocator: ConsistentHashingAllocator, stored: map<string, Item>, exact: bool,
                              outcome: State, finalNames: set<string>)
      reads this, allocator, allocator.targetItems.Values, allocator.collectors.Values
    {
      && Valid() && allocator.Good(exact) && allocator.targetItems == stored
      && Outcome(allocator) == outcome && OutcomeNames() == finalNames
    }

    method TakeNext(allocator: ConsistentHashingAllocator, ghost stored: map<string, Item>, ghost exact: bool,
                    ghost outcome: State, ghost finalNames: set<string>)
      requires Following(allocator, stored, exact, outcome, finalNames) && stream != [] && ShowsPod(stream[0])
      modifies this, allocator`collectors, allocator`hasher, allocator`targetItems,
               allocator`targetItemsPerJobPerCollector,
               allocator.targetItems.Values`collectorName, allocator.collectors.Values`numTargets
      ensures Following(allocator, stored, exact, outcome, finalNames) && OldOrFresh(allocator)
      ensures stream == old(stream)[1..]
    {
      FirstPublished(allocator.ring, allocator.Abs(), collectorMap.Keys, stream);
      var event := Receive();
      HandleEvent(allocator, event, exact);
    }

    method Receive() returns (event: Event)
      requires Valid() && stream != []
      modifies this`stream
      ensures Valid() && event == old(stream)[0] && stream == old(stream)[1..]
      ensures event.Added? ==> event.name != ""
    {
      event := stream[0];
      stream := stream[1..];
    }

    method SkipNext(ghost allocator: ConsistentHashingAllocator)
      requires Valid() && stream != [] && !ShowsPod(stream[0]) && !EndsWatching(stream[0])
      modifies this`stream
      ensures Valid() && stream == old(stream)[1..]
      ensures Outcome(allocator) == old(Outcome(allocator)) && OutcomeNames() == old(OutcomeNames())
    {
      FirstPublished(allocator.ring, allocator.Abs(), collectorMap.Keys, stream);
      stream := stream[1..];
    }

    /** Handles events until the watch has to be restarted (false) or the watching ends (true). */
    method RunWatch(allocator: ConsistentHashingAllocator, ghost exact: bool) returns (closed: bool)
      requires Valid() && allocator.Good(exact)
      modifies this, allocator`collectors, allocator`hasher, allocator`targetItems,
               allocator`targetItemsPerJobPerCollector,
               allocator.targetItems.Values`collectorName, allocator.collectors.Values`numTargets
      ensures Valid() && allocator.Good(exact) && allocator.targetItems == old(allocator.targetItems)
      ensures OldOrFresh(allocator)
      ensures closed ==> allocator.Abs() == old(Outcome(allocator)) && collectorMap.Keys == old(OutcomeNames())
      ensures !closed ==> Outcome(allocator) == old(Outcome(allocator)) && OutcomeNames() == old(OutcomeNames())
      ensures |stream| <= |old(stream)|
      ensures !closed ==> |stream| < |old(stream)| || (stream == old(stream) != [] && stream[0].Unwatchable?)
    {
      ghost var outcome, finalNames := Outcome(allocator), OutcomeNames();
      while stream != []
        invariant Following(allocator, old(allocator.targetItems), exact, outcome, finalNames)
        invariant OldOrFresh(allocator)
        invariant |stream| < |old(stream)| || stream == old(stream)
        decreases |stream|
      {
        var event := stream[0];
        if event.ClientClosed? {
          return true;
        }
        if event.Unwatchable? {
          return false;
        }
        if !ShowsPod(event) {
          SkipNext(allocator);
          return false;
        }
        TakeNext(allocator, old(allocator.targetItems), exact, outcome, finalNames);
      }
      return true;
    }

    /** Opens a watch and runs it. True if another one is due afterwards. */
    method RestartWatch(allocator: ConsistentHashingAllocator, ghost exact: bool) returns (again: bool)
      requires Valid() && allocator.Good(exact)
      modifies this, allocator`collectors, allocator`hasher, allocator`targetItems,
               allocator`targetItemsPerJobPerCollector,
               allocator.targetItems.Values`collectorName, allocator.collectors.Values`numTargets
      ensures Valid() && allocator.Good(exact) && allocator.targetItems == old(allocator.targetItems)
      ensures OldOrFresh(allocator)
      ensures !again ==> allocator.Abs() == old(Outcome(allocator)) && collectorMap.Keys == old(OutcomeNames())
      ensures again ==> Outcome(allocator) == old(Outcome(allocator)) && OutcomeNames() == old(OutcomeNames())
      ensures |stream| <= |old(stream)| && (again ==> |stream| < |old(stream)|)
    {
      if stream != [] && stream[0].Unwatchable? {
        return false;
      }
      var closed := RunWatch(allocator, exact);
      again := !closed;
    }

    /** Follows the events, opening a new watch whenever one stops. */
    method Follow(allocator: ConsistentHashingAllocator, ghost exact: bool)
      requires Valid() && allocator.Good(exact)
      modifies this, allocator`collectors, allocator`hasher, allocator`targetItems,
               allocator`targetItemsPerJobPerCollector,
               allocator.targetItems.Values`collectorName, allocator.collectors.Values`numTargets
      ensures Valid() && allocator.Good(exact) && allocator.targetItems == old(allocator.targetItems)
      ensures allocator.Abs() == old(Outcome(allocator)) && collectorMap.Keys == old(OutcomeNames())
    {
      ghost var outcome, finalNames := Outcome(allocator), OutcomeNames();
      var again := true;
      while again
        invariant Valid() && allocator.Good(exact) && allocator.targetItems == old(allocator.targetItems)
        invariant OldOrFresh(allocator)
        invariant if again then Outcome(allocator) == outcome && OutcomeNames() == finalNames
                  else allocator.Abs() == outcome && collectorMap.Keys == finalNames
        decreases |stream|, again
      {
        again := RestartWatch(allocator, exact);
      }
    }

    /** Lists the pods and hands them over. */
    method Start(pods: seq<Pod>, allocator: ConsistentHashingAllocator, ghost exact: bool)
      requires Valid() && allocator.Good(exact) && collectorMap == map[]
      requires forall i | 0 <= i < |pods| :: pods[i].name != ""
      modifies this`collectorMap, allocator`collectors, allocator`hasher, allocator`targetItems,
               allocator`targetItemsPerJobPerCollector,
               allocator.targetItems.Values`collectorName, allocator.collectors.Values`numTargets
      ensures Valid() && allocator.Good(exact) && allocator.targetItems == old(allocator.targetItems)
      ensures OldOrFresh(allocator) && collectorMap.Keys == Listed(pods)
      ensures allocator.Abs() == AfterSetCollectors(allocator.ring, old(allocator.Abs()), Listed(pods))
    {
      List(pods);
      allocator.SetCollectors(collectorMap);
    }

    /** Lists the pods, hands them over and then follows the events. */
    method Watch(pods: seq<Pod>, allocator: ConsistentHashingAllocator, ghost exact: bool)
      requires Valid() && allocator.Good(exact) && collectorMap == map[]
      requires forall i | 0 <= i < |pods| :: pods[i].name != ""
      modifies this, allocator`collectors, allocator`hasher, allocator`targetItems,
               allocator`targetItemsPerJobPerCollector,
               allocator.targetItems.Values`collectorName, allocator.collectors.Values`numTargets
      ensures Valid() && allocator.Good(exact) && allocator.targetItems == old(allocator.targetItems)
      ensures var published := [Listed(pods)] + Published(Listed(pods), old(stream));
              && allocator.Abs() == SetAll(allocator.ring, old(allocator.Abs()), published)
              && allocator.hasher == allocator.collectors.Keys ==
                 LastNonEmpty(published, old(allocator.collectors).Keys)
      ensures collectorMap.Keys == FinalNames(Listed(pods), old(stream))
      ensures forall n :: n in collectorMap <==> TakenToRun(Listed(pods), Seen(old(stream)), n)
    {
      forall n ensures n in FinalNames(Listed(pods), stream) <==> TakenToRun(Listed(pods), Seen(stream), n) {
        FinalNamesTakenToRun(Listed(pods), stream, n);
      }
      ghost var published := [Listed(pods)] + Published(Listed(pods), stream);
      assert published[1..] == Published(Listed(pods), stream);
      MembersAreLastNonEmpty(allocator.ring, allocator.Abs(), published);
      Start(pods, allocator, exact);
      Follow(allocator, exact);
    }

    method List(pods: seq<Pod>)
      requires Valid() && collectorMap == map[]
      requires forall i | 0 <= i < |pods| :: pods[i].name != ""
      modifies this`collectorMap
      ensures Valid() && collectorMap.Keys == Listed(pods)
      ensures forall n :: n in collectorMap <==> exists i | 0 <= i < |pods| :: pods[i].name == n && !pods[i].terminating
    {
      for i := 0 to |pods|
        invariant Valid() && collectorMap.Keys == Listed(pods[..i])
      {
        assert Listed(pods[..i + 1]) == Listed(pods[..i]) + if pods[i].terminating then {} else {pods[i].name} by {
          assert forall j | 0 <= j < i :: pods[..i + 1][j] == pods[..i][j];
        }
        if !pods[i].terminating {
          var collector := new Collector(pods[i].name);
          collectorMap := collectorMap[pods[i].name := collector];
        }
      }
      assert pods[..|pods|] == pods;
    }
  }
}
