/** Target discovery: label sets become items, filed under their hashes. When do hashes tell targets apart? */
module Discovery {
  import opened Allocation

  const ADDRESS_LABEL := "__address__"

  /** Targets that are discovered together, and the labels they have in common. */
  datatype Group = Group(targets: seq<LabelSet>, labels: LabelSet)

  /** What the discovery manager hands over: the groups of each job. */
  type TargetSets = map<string, seq<Group>>

  /** One discovered target with its own labels and those of its group. */
  datatype Found = Found(job: string, own: LabelSet, group: LabelSet)

  function Address(f: Found): string {
    if ADDRESS_LABEL in f.own then f.own[ADDRESS_LABEL] else ""
  }

  /** The labels of the group win. */
  function Labels(f: Found): LabelSet {
    f.own + f.group
  }

  function TargetOf(f: Found): Target {
    Target(f.job, [Address(f)], Labels(f))
  }

  function Hash(fingerprint: Fingerprint, f: Found): string {
    HashOf(fingerprint, f.job, Address(f), Labels(f))
  }

  function OfGroup(job: string, group: Group): set<Found> {
    set own | own in group.targets :: Found(job, own, group.labels)
  }

  function OfGroups(job: string, groups: seq<Group>): set<Found> {
    if groups == [] then {}
    else OfGroups(job, groups[..|groups| - 1]) + OfGroup(job, groups[|groups| - 1])
  }

  function AllFound(sets: TargetSets): set<Found> {
    set job, f | job in sets && f in OfGroups(job, sets[job]) :: f
  }

  // ---------------------------------------------------------------- what hashes tell apart

  /** Two targets have the same hash exactly if job and address, written together, coincide and the fingerprints do. */
  lemma SameHash(fingerprint: Fingerprint, f: Found, f': Found)
    ensures Hash(fingerprint, f) == Hash(fingerprint, f') <==>
              f.job + Address(f) == f'.job + Address(f') && fingerprint(Labels(f)) == fingerprint(Labels(f'))
  {
    var a, a' := f.job + Address(f), f'.job + Address(f');
    var p, p' := fingerprint(Labels(f)), fingerprint(Labels(f'));
    assert (a + p)[..|a|] == a && (a + p)[|a|..] == p;
    assert (a' + p')[..|a'|] == a' && (a' + p')[|a'|..] == p';
  }

  /** No two of these targets have one hash unless they are the same. */
  ghost predicate ToldApart(fingerprint: Fingerprint, found: set<Found>) {
    forall f, f' | f in found && f' in found && Hash(fingerprint, f) == Hash(fingerprint, f') ::
      TargetOf(f) == TargetOf(f')
  }

  /** Exactly when hashes tell targets apart: whenever job and address, written together, coincide and the fingerprints
      do, job and labels coincide. */
  lemma ToldApartExactly(fingerprint: Fingerprint, found: set<Found>)
    ensures ToldApart(fingerprint, found) <==>
              forall f, f' | f in found && f' in found
                             && f.job + Address(f) == f'.job + Address(f')
                             && fingerprint(Labels(f)) == fingerprint(Labels(f')) ::
                f.job == f'.job && Labels(f) == Labels(f')
  {
    forall f, f' | f in found && f' in found
      ensures Hash(fingerprint, f) == Hash(fingerprint, f') <==>
                f.job + Address(f) == f'.job + Address(f') && fingerprint(Labels(f)) == fingerprint(Labels(f'))
      ensures f.job + Address(f) == f'.job + Address(f') && f.job == f'.job ==> Address(f) == Address(f')
    {
      SameHash(fingerprint, f, f');
      if f.job + Address(f) == f'.job + Address(f') {
        SameAround(f.job, Address(f), f'.job, Address(f'));
      }
    }
  }

  /** Of two parts of a text each decides the other. */
  lemma SameAround(a: string, b: string, a': string, b': string)
    requires a + b == a' + b'
    ensures a == a' <==> b == b'
  {
    assert (a + b)[..|a|] == a && (a + b)[|a|..] == b;
    assert (a' + b')[..|a'|] == a' && (a' + b')[|a'|..] == b';
    assert b == b' ==> |a| == |a'|;
  }

  /** The group overrides the address the target was found under. */
  predicate SetsAddress(f: Found) {
    ADDRESS_LABEL in f.group
  }

  /** Different label sets have different fingerprints, and no group sets the address. */
  ghost predicate Regular(fingerprint: Fingerprint, found: set<Found>) {
    && (forall f, f' | f in found && f' in found && fingerprint(Labels(f)) == fingerprint(Labels(f')) ::
          Labels(f) == Labels(f'))
    && (forall f | f in found :: !SetsAddress(f))
  }

  /** Otherwise the labels have the address, so the fingerprint decides where the job ends. */
  lemma RegularIsToldApart(fingerprint: Fingerprint, found: set<Found>)
    requires Regular(fingerprint, found)
    ensures ToldApart(fingerprint, found)
  {
    forall f, f' | f in found && f' in found && Hash(fingerprint, f) == Hash(fingerprint, f')
      ensures TargetOf(f) == TargetOf(f')
    {
      SameHash(fingerprint, f, f');
      AddressIsInLabels(f);
      AddressIsInLabels(f');
      SameAround(f.job, Address(f), f'.job, Address(f'));
    }
  }

  lemma AddressIsInLabels(f: Found)
    requires !SetsAddress(f)
    ensures Address(f) == if ADDRESS_LABEL in Labels(f) then Labels(f)[ADDRESS_LABEL] else ""
  {
  }

  /** A group that sets the address hides where the job ends: whatever the fingerprint, moving the end of the job to the
      front of the address gives another target with the same hash. */
  lemma GroupAddressCollides(fingerprint: Fingerprint, job: string, middle: string, url: string, shown: string)
    ensures var f := Found(job, map[ADDRESS_LABEL := middle + url], map[ADDRESS_LABEL := shown]);
            var f' := Found(job + middle, map[ADDRESS_LABEL := url], map[ADDRESS_LABEL := shown]);
            Hash(fingerprint, f) == Hash(fingerprint, f') && (TargetOf(f) == TargetOf(f') <==> middle == "")
  {
    var f := Found(job, map[ADDRESS_LABEL := middle + url], map[ADDRESS_LABEL := shown]);
    var f' := Found(job + middle, map[ADDRESS_LABEL := url], map[ADDRESS_LABEL := shown]);
    assert Labels(f) == map[ADDRESS_LABEL := shown] == Labels(f');
    assert job + (middle + url) == job + middle + url;
    SameHash(fingerprint, f, f');
    assert |job + middle| == |job| + |middle|;
    assert middle == "" ==> middle + url == url && job + middle == job;
  }

  /** So do label sets with the same fingerprint if they differ in the addresses just so. */
  lemma FingerprintCollides(fingerprint: Fingerprint, f: Found, f': Found)
    requires fingerprint(Labels(f)) == fingerprint(Labels(f')) && Labels(f) != Labels(f')
    ensures ToldApart(fingerprint, {f, f'}) <==> f.job + Address(f) != f'.job + Address(f')
  {
    ToldApartExactly(fingerprint, {f, f'});
  }

  // ---------------------------------------------------------------- discovery

  /** The items are what some of the targets found so far became, one under each of their hashes, and unassigned. */
  ghost predicate Collected(fingerprint: Fingerprint, items: map<string, Item>, found: set<Found>)
    reads items.Values`collectorName
  {
    && Keyed(items)
    && (forall k | k in items :: items[k].collectorName == "" && ComesFrom(fingerprint, found, k, items[k].target))
    && (forall f | f in found :: Hash(fingerprint, f) in items)
  }

  ghost predicate ComesFrom(fingerprint: Fingerprint, found: set<Found>, k: string, target: Target) {
    exists f :: f in found && Hash(fingerprint, f) == k && TargetOf(f) == target
  }

  method Discover(fingerprint: Fingerprint, sets: TargetSets) returns (items: map<string, Item>)
    ensures Collected(fingerprint, items, AllFound(sets))
    ensures forall k | k in items :: fresh(items[k])
  {
    items := map[];
    ghost var found: set<Found> := {};
    var rest := sets.Keys;
    while rest != {}
      invariant rest <= sets.Keys
      invariant forall f :: f in found <==> exists job :: job in sets && job !in rest && f in OfGroups(job, sets[job])
      invariant Collected(fingerprint, items, found) && forall k | k in items :: fresh(items[k])
    {
      var job :| job in rest;
      items := DiscoverJob(fingerprint, job, sets[job], items, found);
      found := found + OfGroups(job, sets[job]);
      rest := rest - {job};
    }
    assert found == AllFound(sets);
  }

  method DiscoverJob(fingerprint: Fingerprint, job: string, groups: seq<Group>, before: map<string, Item>,
                     ghost found: set<Found>) returns (items: map<string, Item>)
    requires Collected(fingerprint, before, found)
    ensures Collected(fingerprint, items, found + OfGroups(job, groups))
    ensures forall k | k in items :: (k in before && items[k] == before[k]) || fresh(items[k])
  {
    items := before;
    assert found + {} == found;
    for i := 0 to |groups|
      invariant Collected(fingerprint, items, found + OfGroups(job, groups[..i]))
      invariant forall k | k in items :: (k in before && items[k] == before[k]) || fresh(items[k])
    {
      items := DiscoverGroup(fingerprint, job, groups[i], items, found + OfGroups(job, groups[..i]));
      OneMoreGroup(found, job, groups, i);
    }
    assert groups[..|groups|] == groups;
  }

  lemma OneMoreGroup(found: set<Found>, job: string, groups: seq<Group>, i: nat)
    requires i < |groups|
    ensures found + OfGroups(job, groups[..i + 1]) == found + OfGroups(job, groups[..i]) + OfGroup(job, groups[i])
  {
    assert groups[..i + 1][..i] == groups[..i];
  }

  method DiscoverGroup(fingerprint: Fingerprint, job: string, group: Group, before: map<string, Item>,
                       ghost found: set<Found>) returns (items: map<string, Item>)
    requires Collected(fingerprint, before, found)
    ensures Collected(fingerprint, items, found + OfGroup(job, group))
    ensures forall k | k in items :: (k in before && items[k] == before[k]) || fresh(items[k])
  {
    items := before;
    assert found + OfGroup(job, Group([], group.labels)) == found;
    for j := 0 to |group.targets|
      invariant Collected(fingerprint, items, found + OfGroup(job, Group(group.targets[..j], group.labels)))
      invariant forall k | k in items :: (k in before && items[k] == before[k]) || fresh(items[k])
    {
      ghost var sofar := found + OfGroup(job, Group(group.targets[..j], group.labels));
      items := DiscoverOne(fingerprint, Found(job, group.targets[j], group.labels), items, sofar);
      OneMoreOfGroup(found, job, group, j);
    }
    assert group.targets[..|group.targets|] == group.targets;
  }

  method DiscoverOne(fingerprint: Fingerprint, f: Found, before: map<string, Item>, ghost found: set<Found>)
      returns (items: map<string, Item>)
    requires Collected(fingerprint, before, found)
    ensures Collected(fingerprint, items, found + {f})
    ensures forall k | k in items :: (k in before && items[k] == before[k]) || fresh(items[k])
  {
    var item := NewItem(fingerprint, f);
    CollectedOneMore(fingerprint, before, found, f, item);
    items := before[item.hash := item];
  }

  method NewItem(fingerprint: Fingerprint, f: Found) returns (item: Item)
    ensures fresh(item) && item.collectorName == ""
    ensures item.hash == Hash(fingerprint, f) && item.target == TargetOf(f)
  {
    item := new Item(fingerprint, f.job, Address(f), Labels(f), "");
  }

  lemma OneMoreOfGroup(found: set<Found>, job: string, group: Group, j: nat)
    requires j < |group.targets|
    ensures found + OfGroup(job, Group(group.targets[..j + 1], group.labels)) ==
            found + OfGroup(job, Group(group.targets[..j], group.labels))
            + {Found(job, group.targets[j], group.labels)}
  {
    assert group.targets[..j + 1] == group.targets[..j] + [group.targets[j]];
  }

  lemma CollectedOneMore(fingerprint: Fingerprint, items: map<string, Item>, found: set<Found>, f: Found, item: Item)
    requires Collected(fingerprint, items, found)
    requires item.hash == Hash(fingerprint, f) && item.target == TargetOf(f) && item.collectorName == ""
    ensures Collected(fingerprint, items[item.hash := item], found + {f})
  {
    var more := items[item.hash := item];
    forall k | k in more
      ensures ComesFrom(fingerprint, found + {f}, k, more[k].target)
    {
      if k == item.hash {
        assert f in found + {f};
      } else {
        var f' :| f' in found && Hash(fingerprint, f') == k && TargetOf(f') == items[k].target;
        assert f' in found + {f};
      }
    }
  }

  // ---------------------------------------------------------------- targets by hash

  /** The targets found that the hook keeps, by their hashes, if these tell them apart. */
  ghost function KeptByHash(fingerprint: Fingerprint, found: set<Found>, filter: Filter): map<string, Target> {
    map k | k in (set f | f in found && Keeps(filter, TargetOf(f)) :: Hash(fingerprint, f)) ::
      TargetWith(fingerprint, found, k)
  }

  /** Some target found with this hash. */
  ghost function TargetWith(fingerprint: Fingerprint, found: set<Found>, k: string): (target: Target)
    ensures (exists f :: f in found && Hash(fingerprint, f) == k) ==> ComesFrom(fingerprint, found, k, target)
  {
    if f :| f in found && Hash(fingerprint, f) == k then TargetOf(f) else Target("", [], map[])
  }

  lemma OnlyTarget(fingerprint: Fingerprint, found: set<Found>, k: string, target: Target)
    requires ToldApart(fingerprint, found) && ComesFrom(fingerprint, found, k, target)
    ensures target == TargetWith(fingerprint, found, k)
  {
    var f :| f in found && Hash(fingerprint, f) == k && TargetOf(f) == target;
    assert ComesFrom(fingerprint, found, k, TargetWith(fingerprint, found, k));
    var f' :| f' in found && Hash(fingerprint, f') == k && TargetOf(f') == TargetWith(fingerprint, found, k);
  }

  /** If hashes tell the targets found apart, it does not matter in which order they are found. */
  lemma DiscoveredByHash(fingerprint: Fingerprint, items: map<string, Item>, found: set<Found>, filter: Filter)
    requires Collected(fingerprint, items, found) && ToldApart(fingerprint, found)
    ensures Described(Filtered(filter, items)) == KeptByHash(fingerprint, found, filter)
  {
    var kept := KeptByHash(fingerprint, found, filter);
    forall k | k in items
      ensures k in kept <==> Keeps(filter, items[k].target)
      ensures k in kept ==> kept[k] == items[k].target
    {
      OnlyTarget(fingerprint, found, k, items[k].target);
      OnlyTargetIsKept(fingerprint, found, k, filter, items[k].target);
    }
    forall k | k in kept
      ensures k in items
    {
      KeptIsFound(fingerprint, items, found, filter, k);
    }
    SameTargets(items, kept, filter);
  }

  lemma KeptIsFound(fingerprint: Fingerprint, items: map<string, Item>, found: set<Found>, filter: Filter, k: string)
    requires Collected(fingerprint, items, found) && k in KeptByHash(fingerprint, found, filter)
    ensures k in items
  {
    var f :| f in found && Keeps(filter, TargetOf(f)) && Hash(fingerprint, f) == k;
    assert Hash(fingerprint, f) in items;
  }

  lemma SameTargets(items: map<string, Item>, kept: map<string, Target>, filter: Filter)
    requires forall k | k in items :: k in kept <==> Keeps(filter, items[k].target)
    requires forall k | k in items && k in kept :: kept[k] == items[k].target
    requires forall k | k in kept :: k in items
    ensures Described(Filtered(filter, items)) == kept
  {
  }

  lemma OnlyTargetIsKept(fingerprint: Fingerprint, found: set<Found>, k: string, filter: Filter, target: Target)
    requires ToldApart(fingerprint, found) && ComesFrom(fingerprint, found, k, target)
    ensures k in KeptByHash(fingerprint, found, filter) <==> Keeps(filter, target)
  {
    var f :| f in found && Hash(fingerprint, f) == k && TargetOf(f) == target;
  }
}
