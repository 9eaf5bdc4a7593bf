/** What the allocator's state owes to the history of calls: only the last targets and the last collectors matter. */
module AllocationHistory {
  import opened Allocation

  datatype Event =
    | TargetsSet(targets: map<string, Target>)
    | CollectorsSet(members: set<string>)

  function Step(ring: Ring, s: State, e: Event): State {
    match e
    case TargetsSet(targets) => AfterSetTargets(ring, s, targets)
    case CollectorsSet(members) => AfterSetCollectors(ring, s, members)
  }

  function Run(ring: Ring, history: seq<Event>): State {
    if history == [] then EMPTY_STATE
    else Step(ring, Run(ring, history[..|history| - 1]), history[|history| - 1])
  }

  function LastTargets(history: seq<Event>): map<string, Target> {
    if history == [] then map[]
    else match history[|history| - 1]
      case TargetsSet(targets) => targets
      case CollectorsSet(_) => LastTargets(history[..|history| - 1])
  }

  /** The last collector set that was not empty. */
  function LastCollectors(history: seq<Event>): set<string> {
    if history == [] then {}
    else match history[|history| - 1]
      case CollectorsSet(members) => if members == {} then LastCollectors(history[..|history| - 1]) else members
      case TargetsSet(_) => LastCollectors(history[..|history| - 1])
  }

  /** No collector is nameless. */
  ghost predicate Named(history: seq<Event>) {
    forall i | 0 <= i < |history| && history[i].CollectorsSet? :: "" !in history[i].members
  }

  /** A hash stands for the same target wherever it occurs. */
  ghost predicate HashFixesTarget(history: seq<Event>, describe: string -> Target) {
    forall i, k | 0 <= i < |history| && history[i].TargetsSet? && k in history[i].targets ::
      history[i].targets[k] == describe(k)
  }

  /** The state two last inputs call for, computed in one go. */
  function Canonical(ring: Ring, members: set<string>, targets: map<string, Target>): State {
    State(members, map k | k in targets ::
      Stored(targets[k], if members == {} then "" else Owner(ring, members, targets[k])))
  }

  /** Every reachable state is well placed. */
  lemma {:induction false} ReachableWellPlaced(ring: Ring, history: seq<Event>)
    requires Named(history)
    ensures WellPlaced(ring, Run(ring, history))
    ensures LastCollectors(history) != {} ==> PlacedByAddress(ring, Run(ring, history))
    ensures Run(ring, history).members == LastCollectors(history)
    ensures Run(ring, history).items.Keys == LastTargets(history).Keys
  {
    if history != [] {
      var earlier, e := history[..|history| - 1], history[|history| - 1];
      ReachableWellPlaced(ring, earlier);
      var s := Run(ring, earlier);
      match e {
        case TargetsSet(targets) => ReplacementPlacesWell(ring, s, targets);
        case CollectorsSet(members) =>
          if members != {} {
            RelocationPlacesWell(ring, members, s.items);
          }
      }
    }
  }

  /** The targets as they were when their keys were last introduced: a key that is held already is not looked at. */
  function Introduced(history: seq<Event>): map<string, Target> {
    if history == [] then map[]
    else
      var earlier := Introduced(history[..|history| - 1]);
      match history[|history| - 1]
      case TargetsSet(targets) => map k | k in targets :: if k in earlier then earlier[k] else targets[k]
      case CollectorsSet(_) => earlier
  }

  lemma {:induction false} TargetsAreIntroduced(ring: Ring, history: seq<Event>)
    ensures Run(ring, history).items.Keys == Introduced(history).Keys == LastTargets(history).Keys
    ensures forall k | k in Introduced(history) :: Run(ring, history).items[k].target == Introduced(history)[k]
  {
    if history != [] {
      TargetsAreIntroduced(ring, history[..|history| - 1]);
    }
  }

  /** The incremental updates add up to one computation: from the last collectors and the targets as introduced. */
  lemma HistoryIsCanonical(ring: Ring, history: seq<Event>)
    requires Named(history)
    ensures Run(ring, history) == Canonical(ring, LastCollectors(history), Introduced(history))
  {
    ReachableWellPlaced(ring, history);
    TargetsAreIntroduced(ring, history);
    assert Run(ring, history).items == Canonical(ring, LastCollectors(history), Introduced(history)).items;
  }

  lemma CanonicalTargets(ring: Ring, members: set<string>, targets: map<string, Target>, targets': map<string, Target>)
    ensures Canonical(ring, members, targets) == Canonical(ring, members, targets') <==> targets == targets'
  {
    var s, s' := Canonical(ring, members, targets), Canonical(ring, members, targets');
    if s == s' {
      assert targets.Keys == s.items.Keys && targets'.Keys == s'.items.Keys;
      assert forall k | k in targets :: targets[k] == s.items[k].target && targets'[k] == s'.items[k].target;
    }
  }

  /** What went before the last inputs is forgotten if and only if every target still is as it was introduced. */
  lemma HistoryIsForgotten(ring: Ring, history: seq<Event>)
    requires Named(history)
    ensures Run(ring, history) == Canonical(ring, LastCollectors(history), LastTargets(history)) <==>
              Introduced(history) == LastTargets(history)
  {
    HistoryIsCanonical(ring, history);
    CanonicalTargets(ring, LastCollectors(history), Introduced(history), LastTargets(history));
  }

  /** It is enough for this that a hash stands for one target throughout. */
  lemma {:induction false} FixedTargetsAreLast(history: seq<Event>, describe: string -> Target)
    requires HashFixesTarget(history, describe)
    ensures Introduced(history) == LastTargets(history)
    ensures forall k | k in Introduced(history) :: Introduced(history)[k] == describe(k)
  {
    if history != [] {
      var e := history[|history| - 1];
      FixedTargetsAreLast(history[..|history| - 1], describe);
      assert e.TargetsSet? ==> forall k | k in e.targets :: e.targets[k] == describe(k);
    }
  }

  /** Replica agreement: whatever their histories, replicas are in the same state - assign every target alike, and so
      count and answer alike - if and only if their last collectors coincide and so do their targets as introduced. */
  lemma ReplicasAgree(ring: Ring, history: seq<Event>, history': seq<Event>)
    requires Named(history) && Named(history')
    ensures Run(ring, history) == Run(ring, history') <==>
              LastCollectors(history) == LastCollectors(history') && Introduced(history) == Introduced(history')
  {
    HistoryIsCanonical(ring, history);
    HistoryIsCanonical(ring, history');
    CanonicalTargets(ring, LastCollectors(history), Introduced(history), Introduced(history'));
  }

  /** Replicas whose last inputs coincide agree, provided a hash stands for one target. */
  lemma ReplicaAgreement(ring: Ring, history: seq<Event>, history': seq<Event>, describe: string -> Target)
    requires Named(history) && HashFixesTarget(history, describe)
    requires Named(history') && HashFixesTarget(history', describe)
    requires LastTargets(history) == LastTargets(history') && LastCollectors(history) == LastCollectors(history')
    ensures Run(ring, history) == Run(ring, history')
  {
    FixedTargetsAreLast(history, describe);
    FixedTargetsAreLast(history', describe);
    ReplicasAgree(ring, history, history');
  }

  /** Accurate accounts leave no freedom: replicas that assign alike also count and index alike. */
  lemma AccountsAreDetermined(s: State, counts: map<string, int>, counts': map<string, int>, index: Index,
                              index': Index)
    requires counts.Keys == counts'.Keys == s.members
    requires CountsAccurate(counts, s.items) && CountsAccurate(counts', s.items)
    requires IndexAccurate(s.members, index, s.items) && IndexAccurate(s.members, index', s.items)
    ensures counts == counts'
    ensures forall c, job :: IndexCell(index, c, job) == IndexCell(index', c, job)
  {
    forall c | c in counts
      ensures counts[c] == counts'[c]
    {
    }
    forall c, job
      ensures IndexCell(index, c, job) == IndexCell(index', c, job)
    {
      if c in s.members {
        assert IndexCell(index, c, job) == HeldOfJob(s.items, c, job);
      }
    }
  }

  lemma Extended(history: seq<Event>, e: Event)
    ensures LastTargets(history + [e]) == if e.TargetsSet? then e.targets else LastTargets(history)
    ensures LastCollectors(history + [e]) ==
            if e.CollectorsSet? && e.members != {} then e.members else LastCollectors(history)
    ensures Introduced(history + [e]) ==
            if e.CollectorsSet? then Introduced(history)
            else map k | k in e.targets :: if k in Introduced(history) then Introduced(history)[k] else e.targets[k]
  {
    assert (history + [e])[..|history|] == history;
  }

  /** Two targets with one hash, one after the other, and then any collectors: a replica that has seen both keeps the
      first, one that has seen only the second has the second. */
  lemma CollidingHashesDisagree(ring: Ring, key: string, t: Target, t': Target, members: set<string>)
    requires "" !in members
    ensures var h := [TargetsSet(map[key := t]), TargetsSet(map[key := t']), CollectorsSet(members)];
            var h' := [TargetsSet(map[key := t']), CollectorsSet(members)];
            && LastTargets(h) == LastTargets(h') && LastCollectors(h) == LastCollectors(h')
            && (Run(ring, h) == Run(ring, h') <==> t == t')
  {
    var first, second, last := TargetsSet(map[key := t]), TargetsSet(map[key := t']), CollectorsSet(members);
    SeenBoth(key, t, t');
    SeenOne(key, t');
    Extended([first, second], last);
    Extended([second], last);
    assert [first, second] + [last] == [first, second, last] && [second] + [last] == [second, last];
    assert map[key := t][key] == t && map[key := t'][key] == t';
    ReplicasAgree(ring, [first, second, last], [second, last]);
  }

  lemma SeenOne(key: string, t: Target)
    ensures Introduced([TargetsSet(map[key := t])]) == LastTargets([TargetsSet(map[key := t])]) == map[key := t]
    ensures LastCollectors([TargetsSet(map[key := t])]) == {}
  {
    Extended([], TargetsSet(map[key := t]));
    assert [] + [TargetsSet(map[key := t])] == [TargetsSet(map[key := t])];
  }

  lemma SeenBoth(key: string, t: Target, t': Target)
    ensures var h := [TargetsSet(map[key := t]), TargetsSet(map[key := t'])];
            Introduced(h) == map[key := t] && LastTargets(h) == map[key := t'] && LastCollectors(h) == {}
  {
    SeenOne(key, t);
    var first, second := TargetsSet(map[key := t]), TargetsSet(map[key := t']);
    Extended([first], second);
    assert [first] + [second] == [first, second];
  }
}
