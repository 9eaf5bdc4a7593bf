/** The consistent-hashing allocator: three redundant views of one assignment of scrape targets to collectors. */
module Allocation {
  import Diff
  import Strings

  // ---------------------------------------------------------------- the abstract assignment

  type LabelSet = map<string, string>

  /** What a discovered target is, apart from who scrapes it. */
  datatype Target = Target(job: string, url: seq<string>, labels: LabelSet)

  /** A stored target and the collector it names; the empty name means "nobody yet". */
  datatype Stored = Stored(target: Target, collector: string)

  /** The consistent-hash ring, reduced to the one thing the allocator relies on: as soon as there are members,
      every key is located at one of them, and the location depends on the members and the key alone. */
  type Ring = ring: (set<string>, string) -> string | LocatesMembers(ring) ghost witness AnyMember

  ghost predicate LocatesMembers(ring: (set<string>, string) -> string) {
    forall members, key :: members != {} ==> ring(members, key) in members
  }

  ghost function AnyMember(members: set<string>, key: string): string {
    if members == {} then key else var m :| m in members; m
  }

  function Joined(parts: seq<string>): string {
    if parts == [] then "" else parts[0] + Joined(parts[1..])
  }

  function Owner(ring: Ring, members: set<string>, target: Target): string {
    ring(members, Joined(target.url))
  }

  /** The parts of an address are put together in their order. */
  lemma {:induction false} JoinedInOrder(parts: seq<string>, i: nat)
    requires i < |parts|
    ensures Joined(parts) == Joined(parts[..i]) + parts[i] + Joined(parts[i + 1..])
    ensures parts == [parts[0]] ==> Joined(parts) == parts[0]
  {
    if i > 0 {
      JoinedInOrder(parts[1..], i - 1);
      assert parts[1..][..i - 1] == parts[..i][1..] && parts[1..][i..] == parts[i + 1..];
      assert parts[..i][0] == parts[0];
    }
  }

  lemma {:induction false} JoinedWithoutSeparator(parts: seq<string>)
    ensures Joined(parts) == Strings.Join(parts, "")
  {
    if parts != [] {
      JoinedWithoutSeparator(parts[1..]);
    }
  }

  /** Keys of the targets collector `c` holds, and of those among them that belong to `job`. */
  function Held(items: map<string, Stored>, c: string): set<string> {
    set k | k in items && items[k].collector == c
  }

  function HeldOfJob(items: map<string, Stored>, c: string, job: string): set<string> {
    set k | k in items && items[k].collector == c && items[k].target.job == job
  }

  datatype State = State(members: set<string>, items: map<string, Stored>)

  const EMPTY_STATE: State := State({}, map[])

  /** Storing a target under a new name for its holder, or for the first time. */
  function Assigned(items: map<string, Stored>, k: string, target: Target, c: string): map<string, Stored> {
    items[k := Stored(target, c)]
  }

  /** The effect of SetTargets: the key set is replaced, a retained target keeps its holder, a new one is located
      if there is anyone to locate. */
  function AfterSetTargets(ring: Ring, s: State, targets: map<string, Target>): State {
    s.(items := map k | k in targets ::
         if k in s.items then s.items[k]
         else Stored(targets[k], if s.members == {} then "" else Owner(ring, s.members, targets[k])))
  }

  /** The stored targets once those in `done` have been located afresh. */
  function Relocated(ring: Ring, members: set<string>, items: map<string, Stored>,
                     done: set<string>): map<string, Stored>
  {
    map k | k in items ::
      if k in done then Stored(items[k].target, Owner(ring, members, items[k].target)) else items[k]
  }

  /** The effect of SetCollectors: an empty set is ignored, an unchanged set changes nothing, and otherwise every
      target is located afresh among the new members. */
  function AfterSetCollectors(ring: Ring, s: State, members: set<string>): State {
    if members == {} || members == s.members then s
    else State(members, Relocated(ring, members, s.items, s.items.Keys))
  }

  /** Every target is with the member that owns it, or with nobody as long as there are no members. */
  ghost predicate WellPlaced(ring: Ring, s: State) {
    && "" !in s.members
    && forall k | k in s.items ::
         s.items[k].collector == if s.members == {} then "" else Owner(ring, s.members, s.items[k].target)
  }

  /** The address alone decides who scrapes a target: it is with the member at which the ring locates its address, and
      so is every other target of that address, whatever its job and labels. */
  ghost predicate PlacedByAddress(ring: Ring, s: State) {
    && (forall k, u | k in s.items && s.items[k].target.url == [u] :: s.items[k].collector == ring(s.members, u))
    && (forall k | k in s.items :: s.items[k].collector == ring(s.members, Strings.Join(s.items[k].target.url, "")))
    && (forall k, k' | k in s.items && k' in s.items && s.items[k].target.url == s.items[k'].target.url ::
          s.items[k].collector == s.items[k'].collector)
  }

  lemma WellPlacedByAddress(ring: Ring, s: State)
    requires WellPlaced(ring, s) && s.members != {}
    ensures PlacedByAddress(ring, s)
  {
    forall k | k in s.items
      ensures s.items[k].collector == ring(s.members, Strings.Join(s.items[k].target.url, ""))
    {
      JoinedWithoutSeparator(s.items[k].target.url);
    }
  }

  type Index = map<string, map<string, set<string>>>

  function IndexCell(index: Index, c: string, job: string): set<string> {
    if c in index && job in index[c] then index[c][job] else {}
  }

  /** The count kept for each collector is the number of stored targets naming it. */
  ghost predicate CountsAccurate(counts: map<string, int>, items: map<string, Stored>) {
    forall c | c in counts :: counts[c] == |Held(items, c)|
  }

  /** The index of each collector and job holds exactly the stored targets of that job naming that collector. */
  ghost predicate IndexAccurate(members: set<string>, index: Index, items: map<string, Stored>) {
    && index.Keys <= members
    && forall c, job | c in members :: IndexCell(index, c, job) == HeldOfJob(items, c, job)
  }

  /** The counts with `delta` added to that of `c`, if `c` is counted. */
  function Shifted(counts: map<string, int>, c: string, delta: int): map<string, int> {
    map x | x in counts :: counts[x] + if x == c then delta else 0
  }

  lemma HeldAfterAssigning(items: map<string, Stored>, k: string, target: Target, c: string, x: string)
    ensures |Held(Assigned(items, k, target, c), x)| ==
            |Held(items, x)| + (if x == c then 1 else 0) - (if k in items && items[k].collector == x then 1 else 0)
  {
    assert Held(Assigned(items, k, target, c), x) == if x == c then Held(items, x) + {k} else Held(items, x) - {k};
  }

  /** By how much each count is off. */
  function Errors(counts: map<string, int>, items: map<string, Stored>): map<string, int> {
    map c | c in counts :: counts[c] - |Held(items, c)|
  }

  ghost predicate AllZero(errors: map<string, int>) {
    forall c | c in errors :: errors[c] == 0
  }

  lemma NoErrors(counts: map<string, int>, items: map<string, Stored>)
    ensures CountsAccurate(counts, items) <==> AllZero(Errors(counts, items))
  {
    assert forall c | c in counts :: Errors(counts, items)[c] == counts[c] - |Held(items, c)|;
  }

  lemma ErrorsAfterMoving(counts: map<string, int>, items: map<string, Stored>, k: string, owner: string)
    requires k in items
    ensures Errors(Shifted(Shifted(counts, items[k].collector, -1), owner, 1),
                   Assigned(items, k, items[k].target, owner)) == Errors(counts, items)
  {
    forall c | c in counts
      ensures Shifted(Shifted(counts, items[k].collector, -1), owner, 1)[c]
              - |Held(Assigned(items, k, items[k].target, owner), c)| == counts[c] - |Held(items, c)|
    {
      HeldAfterAssigning(items, k, items[k].target, owner, c);
    }
  }

  lemma ErrorsAfterEntering(counts: map<string, int>, items: map<string, Stored>,
                            k: string, target: Target, before: string, owner: string)
    requires k !in items
    ensures Errors(Shifted(Shifted(counts, before, -1), owner, 1), Assigned(items, k, target, owner)) ==
              Shifted(Errors(counts, items), before, -1)
  {
    forall c | c in counts
      ensures Shifted(Shifted(counts, before, -1), owner, 1)[c] - |Held(Assigned(items, k, target, owner), c)| ==
                counts[c] - |Held(items, c)| - if c == before then 1 else 0
    {
      HeldAfterAssigning(items, k, target, owner, c);
    }
  }

  /** Moving target k from `before` to `owner`, editing both counts, is as accurate as before if k was counted under
      `before`; otherwise the count of `before`, if there is one, comes out one too low. */
  lemma ErrorsAfterAssigning(counts: map<string, int>, items: map<string, Stored>,
                             k: string, target: Target, before: string, owner: string)
    requires k in items ==> items[k] == Stored(target, before)
    ensures Errors(Shifted(Shifted(counts, before, -1), owner, 1), Assigned(items, k, target, owner)) ==
              if k in items then Errors(counts, items) else Shifted(Errors(counts, items), before, -1)
  {
    if k in items {
      ErrorsAfterMoving(counts, items, k, owner);
    } else {
      ErrorsAfterEntering(counts, items, k, target, before, owner);
    }
  }

  /** So the counts stay accurate exactly when k was counted under `before`, or `before` is nobody's name. */
  lemma CountsAfterAssigning(counts: map<string, int>, items: map<string, Stored>,
                             k: string, target: Target, before: string, owner: string)
    requires CountsAccurate(counts, items)
    requires k in items ==> items[k] == Stored(target, before)
    ensures CountsAccurate(Shifted(Shifted(counts, before, -1), owner, 1), Assigned(items, k, target, owner)) <==>
            (k in items || before !in counts)
  {
    ErrorsAfterAssigning(counts, items, k, target, before, owner);
    NoErrors(counts, items);
    NoErrors(Shifted(Shifted(counts, before, -1), owner, 1), Assigned(items, k, target, owner));
    if k !in items && before in counts {
      assert Shifted(Errors(counts, items), before, -1)[before] == -1;
    }
  }

  /** The errors once targets have arrived that name their collectors themselves. */
  function Lowered(errors: map<string, int>, arrivals: map<string, Stored>): map<string, int> {
    map c | c in errors :: errors[c] - |Held(arrivals, c)|
  }

  lemma LoweredByNone(errors: map<string, int>)
    ensures Lowered(errors, map[]) == errors
  {
    assert forall c :: Held(map[], c) == {};
  }

  lemma HeldOnceMore(arrivals: map<string, Stored>, done: set<string>, k: string, c: string)
    requires k in arrivals && k !in done
    ensures |Held(Restricted(arrivals, done + {k}), c)| ==
              |Held(Restricted(arrivals, done), c)| + if c == arrivals[k].collector then 1 else 0
  {
    assert Held(Restricted(arrivals, done + {k}), c) ==
      Held(Restricted(arrivals, done), c) + if c == arrivals[k].collector then {k} else {};
  }

  lemma LoweredOnceMore(errors: map<string, int>, arrivals: map<string, Stored>, done: set<string>, k: string)
    requires k in arrivals && k !in done
    ensures Lowered(errors, Restricted(arrivals, done + {k})) ==
              Shifted(Lowered(errors, Restricted(arrivals, done)), arrivals[k].collector, -1)
  {
    forall c | c in errors
      ensures |Held(Restricted(arrivals, done + {k}), c)| ==
                |Held(Restricted(arrivals, done), c)| + if c == arrivals[k].collector then 1 else 0
    {
      HeldOnceMore(arrivals, done, k, c);
    }
  }

  lemma NotAmongArrivals(arrivals: map<string, Stored>, done: set<string>, k: string)
    requires k !in arrivals
    ensures Restricted(arrivals, done + {k}) == Restricted(arrivals, done)
  {
  }

  lemma IndexAfterAssigning(members: set<string>, index: Index, index': Index, items: map<string, Stored>,
                            k: string, target: Target, before: string, owner: string)
    requires IndexAccurate(members, index, items) && index'.Keys <= members
    requires k in items ==> items[k] == Stored(target, before)
    requires forall c, job ::
               IndexCell(index', c, job) ==
               (IndexCell(index, c, job) - (if c == before && c in members && job == target.job then {k} else {}))
               + (if c == owner && job == target.job then {k} else {})
    ensures IndexAccurate(members, index', Assigned(items, k, target, owner))
  {
    forall c, job | c in members
      ensures IndexCell(index', c, job) == HeldOfJob(Assigned(items, k, target, owner), c, job)
    {
      assert IndexCell(index, c, job) == HeldOfJob(items, c, job);
    }
  }

  lemma ErrorsAfterRemoving(counts: map<string, int>, items: map<string, Stored>, k: string)
    requires k in items
    ensures Errors(Shifted(counts, items[k].collector, -1), items - {k}) == Errors(counts, items)
  {
    forall c | c in counts
      ensures |Held(items - {k}, c)| == |Held(items, c)| - if c == items[k].collector then 1 else 0
    {
      assert Held(items - {k}, c) == Held(items, c) - {k};
    }
  }

  lemma IndexAfterRemoving(members: set<string>, index: Index, index': Index, items: map<string, Stored>, k: string)
    requires IndexAccurate(members, index, items) && index'.Keys <= members && k in items
    requires forall c, job ::
               IndexCell(index', c, job) ==
               IndexCell(index, c, job)
               - (if c == items[k].collector && c in members && job == items[k].target.job then {k} else {})
    ensures IndexAccurate(members, index', items - {k})
  {
    forall c, job | c in members
      ensures IndexCell(index', c, job) == HeldOfJob(items - {k}, c, job)
    {
      assert IndexCell(index, c, job) == HeldOfJob(items, c, job);
    }
  }

  lemma Reinserted<T>(m: map<string, T>, k: string)
    requires k in m
    ensures m[k := m[k]] == m
  {
  }

  lemma WithoutNone<T>(m: map<string, T>)
    ensures m - {} == m
  {
  }

  lemma WithoutOneMore<T>(m: map<string, T>, gone: set<string>, k: string)
    ensures (m - gone) - {k} == m - (gone + {k})
  {
  }

  lemma WithoutAll<T>(m: map<string, T>, gone: set<string>, ks: set<string>)
    requires m.Keys * ks <= gone <= ks
    ensures m - gone == m - ks
  {
    assert forall k | k in m :: k in ks ==> k in m.Keys * ks;
  }

  /** Of what is done, what `m` has already is left alone. */
  lemma WithOneMore<T>(m: map<string, T>, extra: map<string, T>, done: set<string>, k: string)
    requires k in extra
    ensures k !in m ==> (Restricted(extra, done) + m)[k := extra[k]] == Restricted(extra, done + {k}) + m
    ensures k in m ==> Restricted(extra, done) + m == Restricted(extra, done + {k}) + m
  {
  }

  lemma RestrictedToAll<T>(m: map<string, T>, ks: set<string>)
    requires m.Keys <= ks
    ensures Restricted(m, ks) == m
  {
  }

  function Restricted<T>(m: map<string, T>, ks: set<string>): map<string, T> {
    map k | k in m && k in ks :: m[k]
  }

  lemma EnteredOneMore(items: map<string, Stored>, entered: set<string>, done: set<string>,
                       k: string, target: Target, c: string)
    ensures Restricted(Assigned(items, k, target, c), entered + (done + {k})) ==
              Assigned(Restricted(items, entered + done), k, target, c)
  {
  }

  /** The errors after the collectors have changed: a collector that stays keeps its error, a new one is off by the
      targets that name it already. */
  function Carried(members: set<string>, errors: map<string, int>, items: map<string, Stored>): map<string, int> {
    map c | c in members :: if c in errors then errors[c] else -|Held(items, c)|
  }

  lemma ErrorsOfLaterCollectors(items: map<string, Stored>, errors: map<string, int>, between: map<string, int>)
    requires forall k | k in items :: items[k].collector in errors
    requires forall c | c in between :: between[c] == if c in errors then errors[c] else 0
    ensures between == Carried(between.Keys, errors, items)
  {
    forall c | c in between && c !in errors
      ensures |Held(items, c)| == 0
    {
      assert Held(items, c) == {};
    }
  }

  lemma ErrorsOfFirstCollectors(items: map<string, Stored>, between: map<string, int>)
    requires forall c | c in between :: between[c] == 0
    ensures Lowered(between, items) == Carried(between.Keys, map[], items)
  {
  }

  /** What relocation makes of the errors, in the two cases there are: nothing or everything was entered before. */
  lemma ErrorsOfNewCollectors(items: map<string, Stored>, entered: map<string, Stored>,
                              errors: map<string, int>, between: map<string, int>)
    requires entered == if errors == map[] then map[] else items
    requires forall k | k in entered :: entered[k].collector in errors
    requires forall c | c in between :: between[c] == if c in errors then errors[c] else 0
    ensures Lowered(between, items - entered.Keys) == Carried(between.Keys, errors, items)
  {
    if errors == map[] {
      WithoutNone(items);
      assert entered.Keys == {};
      ErrorsOfFirstCollectors(items, between);
    } else {
      assert items - entered.Keys == map[];
      LoweredByNone(between);
      ErrorsOfLaterCollectors(items, errors, between);
    }
  }

  lemma CarriedToTheSame(items: map<string, Stored>, errors: map<string, int>)
    ensures Carried(errors.Keys, errors, items) == errors
  {
  }

  /** Exact counts stay exact, if no stored target names a collector that is yet to come. */
  lemma CarriedIsExact(members: set<string>, items: map<string, Stored>, errors: map<string, int>)
    requires AllZero(errors)
    requires forall k | k in items :: items[k].collector !in members - errors.Keys
    ensures AllZero(Carried(members, errors, items))
  {
    forall c | c in members && c !in errors
      ensures |Held(items, c)| == 0
    {
      assert Held(items, c) == {};
    }
  }

  ghost predicate NameNone(arrivals: map<string, Stored>, members: set<string>) {
    forall k | k in arrivals :: arrivals[k].collector !in members
  }

  /** Exact counts stay exact if and only if no target arrives naming a collector. */
  lemma LoweredIsExact(errors: map<string, int>, arrivals: map<string, Stored>)
    requires AllZero(errors)
    ensures AllZero(Lowered(errors, arrivals)) <==> NameNone(arrivals, errors.Keys)
  {
    forall k | k in arrivals && arrivals[k].collector in errors
      ensures Lowered(errors, arrivals)[arrivals[k].collector] < 0
    {
      assert k in Held(arrivals, arrivals[k].collector);
    }
    if NameNone(arrivals, errors.Keys) {
      assert forall c | c in errors :: Held(arrivals, c) == {};
    }
  }

  lemma RelocatedNoneOrAll(ring: Ring, members: set<string>, items: map<string, Stored>, done: set<string>)
    ensures done == {} ==> Relocated(ring, members, items, done) == items
    ensures items.Keys <= done ==> Relocated(ring, members, items, done) == Relocated(ring, members, items, items.Keys)
  {
  }

  lemma RelocatedOneMore(ring: Ring, members: set<string>, items: map<string, Stored>, done: set<string>, k: string)
    requires k in items
    ensures Assigned(Relocated(ring, members, items, done), k, items[k].target, Owner(ring, members, items[k].target))
            == Relocated(ring, members, items, done + {k})
  {
  }

  lemma AccurateForFewer(counts: map<string, int>, index: Index, items: map<string, Stored>, c: string)
    requires IndexAccurate(counts.Keys, index, items)
    ensures IndexAccurate(counts.Keys - {c}, index - {c}, items)
    ensures Errors(counts - {c}, items) == Errors(counts, items) - {c}
  {
    forall c', job | c' in counts.Keys - {c}
      ensures IndexCell(index - {c}, c', job) == HeldOfJob(items, c', job)
    {
      assert IndexCell(index, c', job) == HeldOfJob(items, c', job);
    }
  }

  lemma AccurateForOneMore(counts: map<string, int>, index: Index, items: map<string, Stored>, c: string)
    requires IndexAccurate(counts.Keys, index, items)
    requires c !in counts && forall k | k in items :: items[k].collector != c
    ensures IndexAccurate(counts.Keys + {c}, index, items)
    ensures Errors(counts[c := 0], items) == Errors(counts, items)[c := 0]
  {
    assert Held(items, c) == {};
    forall c', job | c' in counts.Keys + {c}
      ensures IndexCell(index, c', job) == HeldOfJob(items, c', job)
    {
      assert c' in counts ==> IndexCell(index, c', job) == HeldOfJob(items, c', job);
    }
  }

  lemma HoldersAreMembers(ring: Ring, s: State)
    requires WellPlaced(ring, s)
    ensures forall k | k in s.items :: s.items[k].collector in if s.members == {} then {""} else s.members
  {
  }

  lemma RelocationPlacesWell(ring: Ring, members: set<string>, items: map<string, Stored>)
    requires members != {} && "" !in members
    ensures WellPlaced(ring, State(members, Relocated(ring, members, items, items.Keys)))
    ensures PlacedByAddress(ring, State(members, Relocated(ring, members, items, items.Keys)))
  {
    WellPlacedByAddress(ring, State(members, Relocated(ring, members, items, items.Keys)));
  }

  /** Dropping what is gone and adding what is new, located, is what replacing the targets amounts to. */
  lemma ReplacedByDifference(ring: Ring, s: State, targets: map<string, Target>,
                             gone: set<string>, located: map<string, Stored>)
    requires forall k | k in s.items :: k in gone <==> k !in targets
    requires located == map k | k in targets && k !in s.items ::
                          Stored(targets[k], if s.members == {} then "" else Owner(ring, s.members, targets[k]))
    ensures located + (s.items - gone) == AfterSetTargets(ring, s, targets).items
  {
  }

  lemma ReplacementPlacesWell(ring: Ring, s: State, targets: map<string, Target>)
    requires WellPlaced(ring, s)
    ensures WellPlaced(ring, AfterSetTargets(ring, s, targets))
    ensures s.members != {} ==> PlacedByAddress(ring, AfterSetTargets(ring, s, targets))
  {
    if s.members != {} {
      WellPlacedByAddress(ring, AfterSetTargets(ring, s, targets));
    }
  }

  lemma MembersByDifference(members: set<string>, next: set<string>, added: set<string>, removed: set<string>)
    requires forall c :: c in added <==> c in next && c !in members
    requires forall c :: c in removed <==> c in members && c !in next
    ensures (members - removed) + added == next
    ensures added == {} && removed == {} <==> members == next
  {
    assert (members - removed) + added == next;
  }

  /** Sum of the counts of the collectors in `cs`. */
  ghost function Total(counts: map<string, int>, cs: set<string>): int
    requires cs <= counts.Keys
  {
    if cs == {} then 0 else var c :| c in cs; counts[c] + Total(counts, cs - {c})
  }

  lemma {:induction false} TotalIsHeldByAny(counts: map<string, int>, items: map<string, Stored>, cs: set<string>)
    requires CountsAccurate(counts, items) && cs <= counts.Keys
    ensures Total(counts, cs) == |set k | k in items && items[k].collector in cs|
    decreases cs
  {
    if cs == {} {
      assert (set k | k in items && items[k].collector in cs) == {};
    } else {
      var c :| c in cs && Total(counts, cs) == counts[c] + Total(counts, cs - {c});
      TotalIsHeldByAny(counts, items, cs - {c});
      var others := set k | k in items && items[k].collector in cs - {c};
      assert (set k | k in items && items[k].collector in cs) == Held(items, c) + others;
      assert Held(items, c) !! others;
    }
  }

  /** Conservation: as soon as there are collectors, their counts add up to the number of stored targets. */
  lemma CountsAddUp(ring: Ring, s: State, counts: map<string, int>)
    requires WellPlaced(ring, s) && s.members != {}
    requires counts.Keys == s.members && CountsAccurate(counts, s.items)
    ensures Total(counts, s.members) == |s.items|
  {
    TotalIsHeldByAny(counts, s.items, s.members);
    HoldersAreMembers(ring, s);
    forall k | k in s.items
      ensures s.items[k].collector in s.members
    {
      assert s.items[k].collector == Owner(ring, s.members, s.items[k].target);
    }
    assert (set k | k in s.items && s.items[k].collector in s.members) == s.items.Keys;
  }

  function OfJob(items: map<string, Stored>, job: string): set<string> {
    set k | k in items && items[k].target.job == job
  }

  /** The listings of the collectors partition the targets of a job. */
  lemma ListingsPartition(ring: Ring, s: State, job: string)
    requires WellPlaced(ring, s) && s.members != {}
    ensures forall k | k in OfJob(s.items, job) ::
              s.items[k].collector in s.members && k in HeldOfJob(s.items, s.items[k].collector, job)
    ensures forall c, d | c in s.members && d in s.members && c != d ::
              HeldOfJob(s.items, c, job) !! HeldOfJob(s.items, d, job)
    ensures forall c | c in s.members :: HeldOfJob(s.items, c, job) <= OfJob(s.items, job)
  {
    forall k | k in OfJob(s.items, job)
      ensures s.items[k].collector in s.members
    {
      assert s.items[k].collector == Owner(ring, s.members, s.items[k].target);
    }
  }

  // ---------------------------------------------------------------- the objects

  const FINGERPRINT_WIDTH := 16

  /** The library's fingerprint of a label set: 64 bits in hexadecimal digits. All that is used is its fixed width. */
  type Fingerprint = fingerprint: LabelSet -> string | HasFixedWidth(fingerprint) ghost witness SameForAll

  ghost predicate HasFixedWidth(fingerprint: LabelSet -> string) {
    forall labels :: |fingerprint(labels)| == FINGERPRINT_WIDTH
  }

  ghost function SameForAll(labels: LabelSet): string {
    seq(FINGERPRINT_WIDTH, _ => '0')
  }

  /** The job, the address and the fingerprint of the labels, written one after the other. */
  function HashOf(fingerprint: Fingerprint, job: string, url: string, labels: LabelSet): string {
    job + url + fingerprint(labels)
  }

  class Item {
    const hash: string
    const target: Target
    var collectorName: string

    constructor (fingerprint: Fingerprint, job: string, url: string, labels: LabelSet, collectorName: string)
      ensures hash == HashOf(fingerprint, job, url, labels) && target == Target(job, [url], labels)
      ensures this.collectorName == collectorName
    {
      this.hash := HashOf(fingerprint, job, url, labels);
      this.target := Target(job, [url], labels);
      this.collectorName := collectorName;
    }
  }

  class Collector {
    const name: string
    var numTargets: int

    constructor (name: string)
      ensures this.name == name && numTargets == 0
    {
      this.name := name;
      this.numTargets := 0;
    }
  }

  /** The relabelling hook, reduced to its decision, which depends on the job and the labels of a target. */
  datatype Filter = NoFilter | KeepIf(keep: Target -> bool)

  predicate Keeps(filter: Filter, target: Target) {
    filter.KeepIf? ==> filter.keep(target)
  }

  function Filtered(filter: Filter, targets: map<string, Item>): map<string, Item> {
    map k | k in targets && Keeps(filter, targets[k].target) :: targets[k]
  }

  ghost predicate Keyed(items: map<string, Item>) {
    forall k | k in items :: items[k].hash == k
  }

  ghost function Described(items: map<string, Item>): map<string, Target> {
    map k | k in items :: items[k].target
  }

  ghost function StoredItems(items: map<string, Item>): map<string, Stored>
    reads items.Values`collectorName
  {
    map k | k in items :: Stored(items[k].target, items[k].collectorName)
  }

  lemma SavedUnderNoName(ring: Ring, before: map<string, Item>, targets: map<string, Item>)
    requires forall k | k in targets && k !in before :: targets[k].collectorName == ""
    ensures StoredItems(Diff.Merged(before, targets)) ==
            AfterSetTargets(ring, State({}, StoredItems(before)), Described(targets)).items
  {
  }

  lemma NothingChanged<T>(current: map<string, T>, additions: map<string, T>, removals: set<string>)
    requires additions == map[] && removals == {}
    ensures additions + (current - removals) == current
  {
  }

  /** `listing` holds the stored targets with the keys in `ks`, each once. */
  ghost predicate Lists(stored: map<string, Item>, listing: seq<Item>, ks: set<string>) {
    && (forall i | 0 <= i < |listing| ::
          listing[i].hash in ks && listing[i].hash in stored && stored[listing[i].hash] == listing[i])
    && (forall i, j | 0 <= i < j < |listing| :: listing[i].hash != listing[j].hash)
    && |listing| == |ks|
    && (forall k | k in ks :: exists i :: 0 <= i < |listing| && listing[i].hash == k)
  }

  lemma ListedOneMore(stored: map<string, Item>, listing: seq<Item>, ks: set<string>, k: string)
    requires Lists(stored, listing, ks) && k !in ks && k in stored && stored[k].hash == k
    ensures Lists(stored, listing + [stored[k]], ks + {k})
  {
    var longer := listing + [stored[k]];
    forall x | x in ks + {k}
      ensures exists i :: 0 <= i < |longer| && longer[i].hash == x
    {
      if x == k {
        assert longer[|listing|].hash == x;
      } else {
        var i :| 0 <= i < |listing| && listing[i].hash == x;
        assert longer[i].hash == x;
      }
    }
  }

  ghost predicate Displays(stored: map<string, Item>, items: map<string, Stored>, display: map<string, seq<Item>>,
                           job: string) {
    forall c | c in display :: Lists(stored, display[c], HeldOfJob(items, c, job))
  }

  lemma DisplayedOneMore(stored: map<string, Item>, items: map<string, Stored>, display: map<string, seq<Item>>,
                         job: string, c: string, listing: seq<Item>)
    requires Displays(stored, items, display, job) && Lists(stored, listing, HeldOfJob(items, c, job))
    ensures Displays(stored, items, display[c := listing], job)
  {
  }

  lemma AdditionsAlone(additions: map<string, Item>, kept: map<string, Item>)
    requires additions.Keys !! kept.Keys
    ensures additions - kept.Keys == additions
  {
  }

  lemma NothingDone(additions: map<string, Item>, stored: map<string, Item>, items: map<string, Stored>,
                    errors: map<string, int>, located: map<string, Stored>, arrivals: map<string, Stored>)
    ensures Restricted(additions, {}) + stored == stored && Restricted(located, {}) + items == items
    ensures Lowered(errors, Restricted(arrivals, {})) == errors
  {
    assert Restricted(arrivals, {}) == map[];
    LoweredByNone(errors);
  }

  class ConsistentHashingAllocator {
    const ring: Ring
    var filter: Filter
    var hasher: set<string>
    var collectors: map<string, Collector>
    var targetItems: map<string, Item>
    var targetItemsPerJobPerCollector: Index

    ghost function Items(): map<string, Stored>
      reads this`targetItems, targetItems.Values`collectorName
    {
      StoredItems(targetItems)
    }

    ghost function Abs(): State
      reads this`collectors, this`targetItems, targetItems.Values`collectorName
    {
      State(collectors.Keys, Items())
    }

    /** The maps are keyed by the names of their entries and the ring knows exactly the collectors. */
    ghost predicate Wired()
      reads this`collectors, this`targetItems, this`hasher
    {
      && Keyed(targetItems)
      && (forall c | c in collectors :: collectors[c].name == c)
      && hasher == collectors.Keys
    }

    ghost function Counts(): map<string, int>
      reads this`collectors, collectors.Values`numTargets
    {
      map c | c in collectors :: collectors[c].numTargets
    }

    /** The index has exactly these targets. */
    ghost predicate Indexed(entered: map<string, Stored>)
      reads this`collectors, this`targetItemsPerJobPerCollector
    {
      IndexAccurate(collectors.Keys, targetItemsPerJobPerCollector, entered)
    }

    ghost predicate Accounts()
      reads this, targetItems.Values, collectors.Values
    {
      CountsAccurate(Counts(), Items()) && Indexed(Items())
    }

    ghost predicate Valid()
      reads this, targetItems.Values, collectors.Values
    {
      Wired() && Accounts() && WellPlaced(ring, Abs())
    }

    /** The targets that have been counted and indexed: none without collectors, otherwise all. */
    ghost function Entered(): map<string, Stored>
      reads this`collectors, this`targetItems, targetItems.Values`collectorName
    {
      if collectors == map[] then map[] else Items()
    }

    /** What holds whatever names targets arrive with: the index is exact and every target is with its owner, as soon as
        there are collectors. */
    ghost predicate Sound()
      reads this, targetItems.Values, collectors.Values
    {
      && Wired() && "" !in collectors && Indexed(Entered())
      && (collectors != map[] ==> WellPlaced(ring, Abs()))
    }

    /** By how much the counts are off. */
    ghost function CountErrors(): map<string, int>
      reads this`collectors, this`targetItems, targetItems.Values`collectorName, collectors.Values`numTargets
    {
      Errors(Counts(), Entered())
    }

    /** No count is off, and without collectors no target names one. */
    ghost predicate Exact()
      reads this`collectors, this`targetItems, targetItems.Values`collectorName, collectors.Values`numTargets
    {
      && AllZero(CountErrors())
      && (collectors == map[] ==> forall k | k in targetItems :: targetItems[k].collectorName == "")
    }

    /** Sound, and exact besides if that is asked for. */
    ghost predicate Good(exact: bool)
      reads this, targetItems.Values, collectors.Values
    {
      Sound() && (exact ==> Exact())
    }

    lemma ValidIsSoundAndExact()
      ensures Valid() <==> Good(true)
      ensures Valid() <==> Sound() && Exact()
    {
      NoErrors(Counts(), Items());
      if collectors == map[] {
        assert Indexed(map[]) <==> Indexed(Items());
        assert WellPlaced(ring, Abs()) <==> forall k | k in targetItems :: Items()[k].collector == "";
      }
    }

    constructor (ring: Ring, filter: Filter)
      ensures Valid() && Sound() && Abs() == EMPTY_STATE && targetItems == map[] && collectors == map[]
      ensures this.ring == ring && this.filter == filter
    {
      this.ring := ring;
      this.filter := filter;
      this.hasher := {};
      this.collectors := map[];
      this.targetItems := map[];
      this.targetItemsPerJobPerCollector := map[];
    }

    method SetFilter(filter: Filter)
      modifies this`filter
      ensures this.filter == filter
    {
      this.filter := filter;
    }

    method AddCollectorTargetItemMapping(tg: Item)
      modifies this`targetItemsPerJobPerCollector
      ensures targetItemsPerJobPerCollector.Keys == old(targetItemsPerJobPerCollector).Keys + {tg.collectorName}
      ensures forall c, job ::
                IndexCell(targetItemsPerJobPerCollector, c, job) ==
                IndexCell(old(targetItemsPerJobPerCollector), c, job)
                + (if c == tg.collectorName && job == tg.target.job then {tg.hash} else {})
    {
      var index := targetItemsPerJobPerCollector;
      if tg.collectorName !in index {
        index := index[tg.collectorName := map[]];
      }
      var row := index[tg.collectorName];
      if tg.target.job !in row {
        row := row[tg.target.job := {}];
      }
      row := row[tg.target.job := row[tg.target.job] + {tg.hash}];
      targetItemsPerJobPerCollector := index[tg.collectorName := row];
    }

    /** Deleting from a missing row or cell is a no-op. */
    method RemoveFromIndex(c: string, job: string, hash: string)
      modifies this`targetItemsPerJobPerCollector
      ensures targetItemsPerJobPerCollector.Keys == old(targetItemsPerJobPerCollector).Keys
      ensures forall c', job' ::
                IndexCell(targetItemsPerJobPerCollector, c', job') ==
                IndexCell(old(targetItemsPerJobPerCollector), c', job')
                - (if c' == c && job' == job then {hash} else {})
    {
      if c in targetItemsPerJobPerCollector && job in targetItemsPerJobPerCollector[c] {
        var row := targetItemsPerJobPerCollector[c];
        row := row[job := row[job] - {hash}];
        targetItemsPerJobPerCollector := targetItemsPerJobPerCollector[c := row];
      }
    }

    method ShiftCount(c: string, delta: int)
      requires c in collectors && forall c | c in collectors :: collectors[c].name == c
      modifies collectors.Values`numTargets
      ensures Counts() == Shifted(old(Counts()), c, delta)
    {
      collectors[c].numTargets := collectors[c].numTargets + delta;
    }

    /** Takes `tg` off the count and the index row of the collector it names. */
    method Leave(tg: Item)
      requires tg.collectorName in collectors
      requires forall c | c in collectors :: collectors[c].name == c
      modifies this`targetItemsPerJobPerCollector, collectors.Values`numTargets
      ensures Counts() == Shifted(old(Counts()), tg.collectorName, -1)
      ensures targetItemsPerJobPerCollector.Keys == old(targetItemsPerJobPerCollector).Keys
      ensures forall c, job ::
                IndexCell(targetItemsPerJobPerCollector, c, job) ==
                IndexCell(old(targetItemsPerJobPerCollector), c, job)
                - (if c == tg.collectorName && job == tg.target.job then {tg.hash} else {})
    {
      ShiftCount(tg.collectorName, -1);
      RemoveFromIndex(tg.collectorName, tg.target.job, tg.hash);
    }

    /** Stores `tg` under collector `owner` and enters it in that collector's count and index row. */
    method Join(tg: Item, owner: string)
      requires Keyed(targetItems) && (forall c | c in collectors :: collectors[c].name == c)
      requires owner in collectors
      requires tg.hash in targetItems ==> targetItems[tg.hash] == tg
      modifies this`targetItems, this`targetItemsPerJobPerCollector, tg`collectorName, collectors.Values`numTargets
      ensures targetItems == old(targetItems)[tg.hash := tg] && Keyed(targetItems) && tg.collectorName == owner
      ensures Items() == Assigned(old(Items()), tg.hash, tg.target, owner)
      ensures Counts() == Shifted(old(Counts()), owner, 1)
      ensures targetItemsPerJobPerCollector.Keys == old(targetItemsPerJobPerCollector).Keys + {owner}
      ensures forall c, job ::
                IndexCell(targetItemsPerJobPerCollector, c, job) ==
                IndexCell(old(targetItemsPerJobPerCollector), c, job)
                + (if c == owner && job == tg.target.job then {tg.hash} else {})
    {
      ghost var counts := Counts();
      Store(tg, owner);
      AddCollectorTargetItemMapping(tg);
      assert Counts() == counts;
      ShiftCount(owner, 1);
    }

    method Store(tg: Item, owner: string)
      requires Keyed(targetItems) && (tg.hash in targetItems ==> targetItems[tg.hash] == tg)
      modifies this`targetItems, tg`collectorName
      ensures targetItems == old(targetItems)[tg.hash := tg] && Keyed(targetItems) && tg.collectorName == owner
      ensures Items() == Assigned(old(Items()), tg.hash, tg.target, owner)
    {
      tg.collectorName := owner;
      targetItems := targetItems[tg.hash := tg];
    }

    /** Assigns `tg` to its owner and stores it. A target that has been entered in the accounts leaves its previous
        holder first; the code recognises a previous holder by name alone, so any other target that arrives naming a
        collector takes one off that collector's count. The counts therefore stay exact exactly when that is not the
        case; the index does in any case. */
    method AddTargetToTargetItems(tg: Item, ghost entered: map<string, Stored>)
      requires Wired() && Indexed(entered) && collectors != map[]
      requires tg.hash in targetItems ==> targetItems[tg.hash] == tg
      requires tg.hash in entered ==> entered[tg.hash] == Stored(tg.target, tg.collectorName)
      modifies this`targetItems, this`targetItemsPerJobPerCollector, tg`collectorName, collectors.Values`numTargets
      ensures Wired() && targetItems == old(targetItems)[tg.hash := tg]
      ensures forall u | tg.target.url == [u] :: tg.collectorName == ring(collectors.Keys, u)
      ensures Items() == Assigned(old(Items()), tg.hash, tg.target, Owner(ring, collectors.Keys, tg.target))
      ensures var entered' := Assigned(entered, tg.hash, tg.target, Owner(ring, collectors.Keys, tg.target));
              && Indexed(entered')
              && Errors(Counts(), entered') ==
                   (if tg.hash in entered then Errors(old(Counts()), entered)
                    else Shifted(Errors(old(Counts()), entered), old(tg.collectorName), -1))
              && (CountsAccurate(old(Counts()), entered) ==>
                    (CountsAccurate(Counts(), entered') <==>
                      tg.hash in entered || old(tg.collectorName) !in collectors))
    {
      ghost var counts, index := Counts(), targetItemsPerJobPerCollector;
      ghost var before := tg.collectorName;
      MoveToOwner(tg);
      LocatedByAddress(tg.target);
      ghost var owner := Owner(ring, collectors.Keys, tg.target);
      ErrorsAfterAssigning(counts, entered, tg.hash, tg.target, before, owner);
      if CountsAccurate(counts, entered) {
        CountsAfterAssigning(counts, entered, tg.hash, tg.target, before, owner);
      }
      IndexAfterAssigning(collectors.Keys, index, targetItemsPerJobPerCollector, entered, tg.hash, tg.target, before,
        owner);
    }

    /** Whoever names a collector that is there leaves it, whether entered there or not. */
    method LeavePrevious(tg: Item)
      requires forall c | c in collectors :: collectors[c].name == c
      modifies this`targetItemsPerJobPerCollector, collectors.Values`numTargets
      ensures Counts() == Shifted(old(Counts()), tg.collectorName, -1)
      ensures targetItemsPerJobPerCollector.Keys == old(targetItemsPerJobPerCollector).Keys
      ensures forall c, job ::
                IndexCell(targetItemsPerJobPerCollector, c, job) ==
                IndexCell(old(targetItemsPerJobPerCollector), c, job)
                - (if c == tg.collectorName && c in collectors && job == tg.target.job then {tg.hash} else {})
    {
      if tg.collectorName in collectors {
        Leave(tg);
      }
    }

    lemma LocatedByAddress(target: Target)
      ensures forall u | target.url == [u] :: Owner(ring, collectors.Keys, target) == ring(collectors.Keys, u)
    {
      if |target.url| == 1 {
        JoinedInOrder(target.url, 0);
      }
    }

    /** The edits themselves, whatever they do to the accounts. */
    method MoveToOwner(tg: Item)
      requires Wired() && collectors != map[] && targetItemsPerJobPerCollector.Keys <= collectors.Keys
      requires tg.hash in targetItems ==> targetItems[tg.hash] == tg
      modifies this`targetItems, this`targetItemsPerJobPerCollector, tg`collectorName, collectors.Values`numTargets
      ensures var owner := Owner(ring, collectors.Keys, tg.target);
              && Wired() && targetItems == old(targetItems)[tg.hash := tg] && tg.collectorName == owner
              && Items() == Assigned(old(Items()), tg.hash, tg.target, owner)
              && Counts() == Shifted(Shifted(old(Counts()), old(tg.collectorName), -1), owner, 1)
              && targetItemsPerJobPerCollector.Keys <= collectors.Keys
              && forall c, job ::
                   IndexCell(targetItemsPerJobPerCollector, c, job) ==
                   (IndexCell(old(targetItemsPerJobPerCollector), c, job)
                    - (if c == old(tg.collectorName) && c in collectors && job == tg.target.job then {tg.hash} else {}))
                   + (if c == owner && job == tg.target.job then {tg.hash} else {})
    {
      LeavePrevious(tg);
      var owner := ring(hasher, Joined(tg.target.url));
      Join(tg, owner);
    }

    /** Forgets the stored target k. Its collector is looked up without a check, so it has to be there. */
    method RemoveTarget(k: string)
      requires Wired() && Indexed(Items())
      requires k in targetItems && targetItems[k].collectorName in collectors
      modifies this`targetItems, this`targetItemsPerJobPerCollector, collectors.Values`numTargets
      ensures Wired() && Indexed(Items()) && Errors(Counts(), Items()) == old(Errors(Counts(), Items()))
      ensures targetItems == old(targetItems) - {k} && Items() == old(Items()) - {k}
    {
      ghost var items, counts, index := Items(), Counts(), targetItemsPerJobPerCollector;
      Leave(targetItems[k]);
      targetItems := targetItems - {k};
      assert Items() == items - {k};
      ErrorsAfterRemoving(counts, items, k);
      IndexAfterRemoving(collectors.Keys, index, targetItemsPerJobPerCollector, items, k);
    }

    /** The half-way state of the removals: those `gone` are forgotten, the accounts are as good as they were. */
    ghost predicate Removing(stored: map<string, Item>, items: map<string, Stored>, errors: map<string, int>,
                             gone: set<string>)
      reads this, targetItems.Values, collectors.Values
    {
      && Wired() && Indexed(Items()) && Errors(Counts(), Items()) == errors
      && targetItems == stored - gone && Items() == items - gone
    }

    method RemoveOne(k: string, ghost stored: map<string, Item>, ghost items: map<string, Stored>,
                     ghost errors: map<string, int>, ghost gone: set<string>)
      requires Removing(stored, items, errors, gone) && k in stored && k !in gone && k in items
          && items[k].collector in collectors
      modifies this`targetItems, this`targetItemsPerJobPerCollector, collectors.Values`numTargets
      ensures Removing(stored, items, errors, gone + {k})
    {
      assert Items()[k] == items[k];
      WithoutOneMore(stored, gone, k);
      WithoutOneMore(items, gone, k);
      RemoveTarget(k);
    }

    method HandleRemovals<T>(removals: map<string, T>)
      requires Wired() && Indexed(Items())
      requires forall k | k in targetItems :: Items()[k].collector in collectors
      modifies this`targetItems, this`targetItemsPerJobPerCollector, collectors.Values`numTargets
      ensures Wired() && Indexed(Items()) && Errors(Counts(), Items()) == old(Errors(Counts(), Items()))
      ensures targetItems == old(targetItems) - removals.Keys && Items() == old(Items()) - removals.Keys
    {
      ghost var items, stored, errors, gone := Items(), targetItems, Errors(Counts(), Items()), {};
      WithoutNone(stored);
      WithoutNone(items);
      var rest := targetItems.Keys;
      while rest != {}
        invariant rest <= stored.Keys && gone <= removals.Keys
            && (forall k | k in stored && k in removals :: k in rest <==> k !in gone)
        invariant Removing(stored, items, errors, gone)
      {
        var k :| k in rest;
        if k in removals {
          RemoveOne(k, stored, items, errors, gone);
          gone := gone + {k};
        }
        rest := rest - {k};
      }
      WithoutAll(stored, gone, removals.Keys);
      WithoutAll(items, gone, removals.Keys);
    }

    /** The entries of `additions` as they are stored once each is with its owner. */
    ghost function Located(additions: map<string, Item>): map<string, Stored>
      reads this`collectors
    {
      map k | k in additions :: Stored(additions[k].target, Owner(ring, collectors.Keys, additions[k].target))
    }

    /** The half-way state of the additions: of those `done` the new ones are stored and located; the counts are off by
        the collectors that the new ones named. */
    ghost predicate Added(additions: map<string, Item>, stored: map<string, Item>, items: map<string, Stored>,
                          errors: map<string, int>, arrivals: map<string, Stored>, done: set<string>)
      reads this, targetItems.Values, collectors.Values
    {
      && Wired() && Indexed(Items())
      && Errors(Counts(), Items()) == Lowered(errors, Restricted(arrivals, done))
      && targetItems == Restricted(additions, done) + stored
      && Items() == Restricted(Located(additions), done) + items
    }

    ghost predicate Adding(additions: map<string, Item>, stored: map<string, Item>, items: map<string, Stored>,
                           errors: map<string, int>, arrivals: map<string, Stored>, done: set<string>)
      reads this, targetItems.Values, collectors.Values, additions.Values
    {
      Added(additions, stored, items, errors, arrivals, done) && Awaited(additions, stored, arrivals, done)
    }

    /** Those that are not `done` are as they came. */
    ghost predicate Awaited(additions: map<string, Item>, stored: map<string, Item>, arrivals: map<string, Stored>,
                            done: set<string>)
      reads additions.Values
    {
      forall k | k in arrivals && k !in done ::
        k in additions && k !in stored && arrivals[k] == Stored(additions[k].target, additions[k].collectorName)
    }

    lemma AddedByAddress(additions: map<string, Item>, stored: map<string, Item>, items: map<string, Stored>)
      requires targetItems == additions + stored && items.Keys == stored.Keys && Items() == Located(additions) + items
      ensures forall k, u | k in additions && k !in stored && additions[k].target.url == [u] ::
                additions[k].collectorName == ring(collectors.Keys, u)
    {
      forall k, u | k in additions && k !in stored && additions[k].target.url == [u]
        ensures additions[k].collectorName == ring(collectors.Keys, u)
      {
        LocatedByAddress(additions[k].target);
        assert Items()[k] == Located(additions)[k] && targetItems[k] == additions[k];
      }
    }

    lemma NoneAdded(additions: map<string, Item>, arrivals: map<string, Stored>)
      requires Wired() && Indexed(Items()) && arrivals == StoredItems(additions - targetItems.Keys)
      ensures Adding(additions, targetItems, Items(), Errors(Counts(), Items()), arrivals, {})
    {
      NothingDone(additions, targetItems, Items(), Errors(Counts(), Items()), Located(additions), arrivals);
    }

    lemma AllAdded(additions: map<string, Item>, stored: map<string, Item>, items: map<string, Stored>,
                   errors: map<string, int>, arrivals: map<string, Stored>, done: set<string>)
      requires Adding(additions, stored, items, errors, arrivals, done)
      requires additions.Keys <= done && arrivals.Keys <= done
      ensures targetItems == additions + stored && Items() == Located(additions) + items
      ensures Errors(Counts(), Items()) == Lowered(errors, arrivals)
    {
      RestrictedToAll(additions, done);
      RestrictedToAll(Located(additions), done);
      RestrictedToAll(arrivals, done);
    }

    method AddNew(tg: Item, ghost additions: map<string, Item>, ghost stored: map<string, Item>,
                  ghost items: map<string, Stored>, ghost errors: map<string, int>, ghost arrivals: map<string, Stored>,
                  ghost done: set<string>)
      requires collectors != map[] && tg.hash in additions && additions[tg.hash] == tg
      requires tg.hash !in done && tg.hash !in targetItems && tg.hash !in stored && tg.hash !in items
      requires tg.hash in arrivals && arrivals[tg.hash].collector == tg.collectorName
      requires Added(additions, stored, items, errors, arrivals, done)
      modifies this`targetItems, this`targetItemsPerJobPerCollector, collectors.Values`numTargets, tg`collectorName
      ensures Added(additions, stored, items, errors, arrivals, done + {tg.hash})
    {
      WithOneMore(stored, additions, done, tg.hash);
      WithOneMore(items, Located(additions), done, tg.hash);
      LoweredOnceMore(errors, arrivals, done, tg.hash);
      AddTargetToTargetItems(tg, Items());
    }

    method AddOne(additions: map<string, Item>, k: string, ghost stored: map<string, Item>,
                  ghost items: map<string, Stored>, ghost errors: map<string, int>, ghost arrivals: map<string, Stored>,
                  ghost done: set<string>)
      requires Keyed(additions) && collectors != map[] && k in additions && k !in done
      requires arrivals.Keys == additions.Keys - stored.Keys && items.Keys == stored.Keys
      requires Adding(additions, stored, items, errors, arrivals, done)
      modifies this`targetItems, this`targetItemsPerJobPerCollector, collectors.Values`numTargets,
               additions.Values`collectorName
      ensures Adding(additions, stored, items, errors, arrivals, done + {k})
    {
      if k !in targetItems {
        AddNew(additions[k], additions, stored, items, errors, arrivals, done);
      } else {
        WithOneMore(stored, additions, done, k);
        WithOneMore(items, Located(additions), done, k);
        NotAmongArrivals(arrivals, done, k);
      }
    }

    /** Additions whose key is stored are skipped. The others end with their owners whatever collector they name, but
        each that names one takes one off its count. */
    method HandleAdditions(additions: map<string, Item>, ghost arrivals: map<string, Stored>)
      requires Wired() && Indexed(Items()) && collectors != map[] && Keyed(additions)
      requires arrivals == StoredItems(additions - targetItems.Keys)
      modifies this`targetItems, this`targetItemsPerJobPerCollector, collectors.Values`numTargets,
               additions.Values`collectorName
      ensures Wired() && Indexed(Items())
      ensures targetItems == additions + old(targetItems)
      ensures forall k, u | k in additions && k !in old(targetItems) && additions[k].target.url == [u] ::
                additions[k].collectorName == ring(collectors.Keys, u)
      ensures Items() == Located(additions) + old(Items())
      ensures Errors(Counts(), Items()) == Lowered(old(Errors(Counts(), Items())), arrivals)
    {
      ghost var stored, items, errors, done := targetItems, Items(), Errors(Counts(), Items()), {};
      assert arrivals.Keys == additions.Keys - stored.Keys && items.Keys == stored.Keys;
      NoneAdded(additions, arrivals);
      var rest := additions.Keys;
      while rest != {}
        invariant rest <= additions.Keys && forall k | k in additions :: k in rest <==> k !in done
        invariant Adding(additions, stored, items, errors, arrivals, done)
      {
        var k :| k in rest;
        AddOne(additions, k, stored, items, errors, arrivals, done);
        done := done + {k};
        rest := rest - {k};
      }
      AllAdded(additions, stored, items, errors, arrivals, done);
      AddedByAddress(additions, stored, items);
    }

    /** Removals come first, so an addition is skipped only if its key is stored and not among them. */
    method HandleTargets(changes: Diff.Changes<Item>, ghost arrivals: map<string, Stored>)
      requires Wired() && Indexed(Items()) && collectors != map[] && Keyed(changes.additions)
      requires forall k | k in targetItems :: Items()[k].collector in collectors
      requires arrivals == StoredItems(changes.additions - (targetItems - changes.removals.Keys).Keys)
      modifies this`targetItems, this`targetItemsPerJobPerCollector, collectors.Values`numTargets,
               changes.additions.Values`collectorName
      ensures Wired() && Indexed(Items())
      ensures targetItems == changes.additions + (old(targetItems) - changes.removals.Keys)
      ensures Items() == Located(changes.additions) + (old(Items()) - changes.removals.Keys)
      ensures Errors(Counts(), Items()) == Lowered(old(Errors(Counts(), Items())), arrivals)
    {
      HandleRemovals(changes.removals);
      HandleAdditions(changes.additions, arrivals);
    }

    method DropCollector(name: string, ghost entered: map<string, Stored>)
      requires Wired() && Indexed(entered)
      modifies this`collectors, this`hasher, this`targetItemsPerJobPerCollector
      ensures Wired() && Indexed(entered) && Errors(Counts(), entered) == old(Errors(Counts(), entered)) - {name}
      ensures collectors == old(collectors) - {name}
    {
      ghost var counts, index := Counts(), targetItemsPerJobPerCollector;
      AccurateForFewer(counts, index, entered, name);
      collectors := collectors - {name};
      targetItemsPerJobPerCollector := targetItemsPerJobPerCollector - {name};
      hasher := hasher - {name};
      assert Counts() == counts - {name};
      assert collectors.Keys == counts.Keys - {name};
    }

    method InsertCollector(name: string, ghost entered: map<string, Stored>)
      requires Wired() && Indexed(entered) && name !in collectors
      requires forall k | k in entered :: entered[k].collector != name
      modifies this`collectors, this`hasher
      ensures Wired() && Indexed(entered) && Errors(Counts(), entered) == old(Errors(Counts(), entered))[name := 0]
      ensures name in collectors && fresh(collectors[name]) && collectors == old(collectors)[name := collectors[name]]
    {
      var collector := new Collector(name);
      Enter(collector, entered);
    }

    method Enter(collector: Collector, ghost entered: map<string, Stored>)
      requires Wired() && Indexed(entered) && collector.name !in collectors && collector.numTargets == 0
      requires forall k | k in entered :: entered[k].collector != collector.name
      modifies this`collectors, this`hasher
      ensures Wired() && Indexed(entered)
          && Errors(Counts(), entered) == old(Errors(Counts(), entered))[collector.name := 0]
      ensures collectors == old(collectors)[collector.name := collector]
    {
      ghost var counts := Counts();
      AccurateForOneMore(counts, targetItemsPerJobPerCollector, entered, collector.name);
      collectors := collectors[collector.name := collector];
      hasher := hasher + {collector.name};
      assert Counts() == counts[collector.name := 0];
      assert collectors.Keys == counts.Keys + {collector.name};
    }

    method DropCollectors(removals: map<string, Collector>, ghost entered: map<string, Stored>)
      requires Wired() && Indexed(entered)
      requires forall c | c in removals :: removals[c].name == c
      modifies this`collectors, this`hasher, this`targetItemsPerJobPerCollector
      ensures Wired() && Indexed(entered)
      ensures Errors(Counts(), entered) == old(Errors(Counts(), entered)) - removals.Keys
      ensures collectors == old(collectors) - removals.Keys
    {
      ghost var before, errors, gone := collectors, Errors(Counts(), entered), {};
      WithoutNone(before);
      WithoutNone(errors);
      var rest := removals.Keys;
      while rest != {}
        invariant rest <= removals.Keys && gone <= removals.Keys && forall c | c in removals :: c in rest || c in gone
        invariant Wired() && Indexed(entered) && collectors == before - gone
            && Errors(Counts(), entered) == errors - gone
      {
        var c :| c in rest;
        WithoutOneMore(before, gone, c);
        WithoutOneMore(errors, gone, c);
        DropCollector(removals[c].name, entered);
        gone := gone + {c};
        rest := rest - {c};
      }
      assert gone == removals.Keys;
    }

    /** The half-way state of the insertions: whoever has come has no error, the others have the errors they had. */
    ghost predicate Inserting(errors: map<string, int>, entered: map<string, Stored>)
      reads this`collectors, this`targetItems, this`hasher, this`targetItemsPerJobPerCollector,
            collectors.Values`numTargets
    {
      && Wired() && Indexed(entered)
      && forall c | c in collectors :: Errors(Counts(), entered)[c] == if c in errors then errors[c] else 0
    }

    method InsertOne(name: string, ghost errors: map<string, int>, ghost entered: map<string, Stored>)
      requires Inserting(errors, entered) && name !in collectors && name !in errors
      requires forall k | k in entered :: entered[k].collector != name
      modifies this`collectors, this`hasher
      ensures Inserting(errors, entered)
      ensures name in collectors && fresh(collectors[name]) && collectors == old(collectors)[name := collectors[name]]
    {
      InsertCollector(name, entered);
    }

    /** New collectors among which none is named by a target that has been entered. */
    method InsertCollectors(additions: map<string, Collector>, ghost entered: map<string, Stored>)
      requires Wired() && Indexed(entered)
      requires forall c | c in additions :: additions[c].name == c
      requires additions.Keys !! collectors.Keys
      requires forall k | k in entered :: entered[k].collector !in additions
      modifies this`collectors, this`hasher
      ensures Wired() && Indexed(entered)
      ensures collectors.Keys == old(collectors).Keys + additions.Keys
      ensures forall c | c in collectors ::
                if c in old(collectors) then collectors[c] == old(collectors)[c] else fresh(collectors[c])
      ensures forall c | c in collectors ::
                Errors(Counts(), entered)[c] == if c in old(collectors) then old(Errors(Counts(), entered))[c] else 0
    {
      ghost var before, errors := collectors, Errors(Counts(), entered);
      assert errors.Keys == before.Keys;
      var rest := additions.Keys;
      while rest != {}
        invariant rest <= additions.Keys && Inserting(errors, entered)
        invariant forall c :: c in collectors <==> c in before || (c in additions && c !in rest)
        invariant forall c | c in collectors ::
                    if c in before then collectors[c] == before[c] else fresh(collectors[c])
      {
        var c :| c in rest;
        InsertOne(additions[c].name, errors, entered);
        rest := rest - {c};
      }
      assert collectors.Keys == before.Keys + additions.Keys;
    }

    /** The half-way state of the relocation: the targets in `done` are with their new owners, the others are where
        they were, even if their collectors are gone. Entered are those that were at the start and those `done`. */
    ghost predicate Reallocating(stored: map<string, Item>, items: map<string, Stored>, errors: map<string, int>,
                                 entered: set<string>, done: set<string>)
      reads this, targetItems.Values, collectors.Values
    {
      && Wired() && targetItems == stored
      && Items() == Relocated(ring, collectors.Keys, items, done)
      && Indexed(Restricted(Items(), entered + done))
      && Errors(Counts(), Restricted(Items(), entered + done)) == Lowered(errors, Restricted(items - entered, done))
    }

    method ReallocateOne(k: string, ghost stored: map<string, Item>, ghost items: map<string, Stored>,
                         ghost errors: map<string, int>, ghost entered: set<string>, ghost done: set<string>)
      requires collectors != map[] && k in targetItems && k in items && k !in done
      requires Reallocating(stored, items, errors, entered, done)
      modifies this`targetItems, this`targetItemsPerJobPerCollector, targetItems.Values`collectorName,
               collectors.Values`numTargets
      ensures Reallocating(stored, items, errors, entered, done + {k})
    {
      assert Items()[k] == items[k] && items[k].target == targetItems[k].target;
      RelocatedOneMore(ring, collectors.Keys, items, done, k);
      Reinserted(stored, k);
      EnteredOneMore(Items(), entered, done, k, items[k].target, Owner(ring, collectors.Keys, items[k].target));
      if k in entered {
        NotAmongArrivals(items - entered, done, k);
      } else {
        LoweredOnceMore(errors, items - entered, done, k);
      }
      AddTargetToTargetItems(targetItems[k], Restricted(Items(), entered + done));
    }

    /** Relocates every stored target. Each leaves its previous collector if that one is still there. */
    method ReallocateAll(ghost entered: map<string, Stored>)
      requires Wired() && collectors != map[] && Indexed(entered) && entered == Restricted(Items(), entered.Keys)
      modifies this`targetItems, this`targetItemsPerJobPerCollector,
               targetItems.Values`collectorName, collectors.Values`numTargets
      ensures Wired() && Indexed(Items())
      ensures targetItems == old(targetItems)
      ensures Items() == Relocated(ring, collectors.Keys, old(Items()), old(Items()).Keys)
      ensures forall k, u | k in targetItems && targetItems[k].target.url == [u] ::
                targetItems[k].collectorName == ring(collectors.Keys, u)
      ensures Errors(Counts(), Items()) == Lowered(old(Errors(Counts(), entered)), old(Items()) - entered.Keys)
    {
      ghost var items, stored, errors, named, done := Items(), targetItems, Errors(Counts(), entered), entered.Keys, {};
      var rest := targetItems.Keys;
      RelocatedNoneOrAll(ring, collectors.Keys, items, done);
      LoweredByNone(errors);
      assert Restricted(items - named, done) == map[] && named + done == named;
      while rest != {}
        invariant rest <= stored.Keys && forall k | k in stored :: k in rest <==> k !in done
        invariant Reallocating(stored, items, errors, named, done)
      {
        var k :| k in rest;
        ReallocateOne(k, stored, items, errors, named, done);
        done := done + {k};
        rest := rest - {k};
      }
      RelocatedNoneOrAll(ring, collectors.Keys, items, done);
      RestrictedToAll(Items(), named + done);
      RestrictedToAll(items - named, done);
      RelocatedByAddress(items);
    }

    lemma RelocatedByAddress(items: map<string, Stored>)
      requires Items() == Relocated(ring, collectors.Keys, items, items.Keys)
      ensures forall k, u | k in targetItems && targetItems[k].target.url == [u] ::
                targetItems[k].collectorName == ring(collectors.Keys, u)
    {
      forall k, u | k in targetItems && targetItems[k].target.url == [u]
        ensures targetItems[k].collectorName == ring(collectors.Keys, u)
      {
        LocatedByAddress(targetItems[k].target);
        assert k in Items() && k in items;
        assert Items()[k].collector == Owner(ring, collectors.Keys, items[k].target);
      }
    }

    /** What has been entered is stored as it is, under collectors that are there. */
    lemma EnteredIsStored()
      requires Sound()
      ensures Entered() == Restricted(Items(), Entered().Keys)
      ensures Entered() == if CountErrors() == map[] then map[] else Items()
      ensures forall k | k in Entered() ::
                Entered()[k].collector in collectors && Entered()[k].collector in CountErrors()
    {
      assert CountErrors().Keys == collectors.Keys;
      if collectors != map[] {
        HoldersAreMembers(ring, Abs());
        RestrictedToAll(Items(), Items().Keys);
      } else {
        assert CountErrors() == map[];
      }
    }

    lemma AllAreEntered()
      requires Sound() && collectors != map[]
      ensures Indexed(Items()) && CountErrors() == Errors(Counts(), Items())
      ensures forall k | k in targetItems :: Items()[k].collector in collectors
    {
      HoldersAreMembers(ring, Abs());
    }

    lemma IsSound()
      requires Wired() && Indexed(Items()) && collectors != map[] && WellPlaced(ring, Abs())
      ensures Sound() && CountErrors() == Errors(Counts(), Items())
    {
    }

    method HandleCollectors(changes: Diff.Changes<Collector>)
      requires Sound()
      requires forall c | c in changes.removals :: changes.removals[c].name == c
      requires forall c | c in changes.additions :: changes.additions[c].name == c
      requires changes.additions.Keys !! collectors.Keys && "" !in changes.additions
      requires (collectors.Keys - changes.removals.Keys) + changes.additions.Keys != {}
      modifies this`collectors, this`hasher, this`targetItems, this`targetItemsPerJobPerCollector,
               targetItems.Values`collectorName, collectors.Values`numTargets
      ensures Sound()
      ensures targetItems == old(targetItems)
      ensures collectors.Keys == (old(collectors).Keys - changes.removals.Keys) + changes.additions.Keys
      ensures forall c | c in collectors ::
                (c in old(collectors) && collectors[c] == old(collectors)[c]) || fresh(collectors[c])
      ensures Items() == Relocated(ring, collectors.Keys, old(Items()), old(Items()).Keys)
      ensures PlacedByAddress(ring, Abs())
      ensures CountErrors() == Carried(collectors.Keys, old(CountErrors()), old(Items()))
    {
      ghost var items, entered, errors := Items(), Entered(), CountErrors();
      EnteredIsStored();
      ChangeCollectors(changes, items, entered, errors);
      ReallocateAll(entered);
      RelocationPlacesWell(ring, collectors.Keys, items);
      WellPlacedByAddress(ring, Abs());
      IsSound();
    }

    method ChangeCollectors(changes: Diff.Changes<Collector>, ghost items: map<string, Stored>,
                            ghost entered: map<string, Stored>, ghost errors: map<string, int>)
      requires Wired() && Indexed(entered) && "" !in collectors
      requires forall k | k in entered :: entered[k].collector in collectors
      requires forall c | c in changes.removals :: changes.removals[c].name == c
      requires forall c | c in changes.additions :: changes.additions[c].name == c
      requires changes.additions.Keys !! collectors.Keys && "" !in changes.additions
      requires errors == Errors(Counts(), entered) && entered == if errors == map[] then map[] else items
      modifies this`collectors, this`hasher, this`targetItemsPerJobPerCollector
      ensures Wired() && Indexed(entered) && "" !in collectors
      ensures collectors.Keys == (old(collectors).Keys - changes.removals.Keys) + changes.additions.Keys
      ensures forall c | c in collectors ::
                (c in old(collectors) && collectors[c] == old(collectors)[c]) || fresh(collectors[c])
      ensures Lowered(Errors(Counts(), entered), items - entered.Keys) == Carried(collectors.Keys, errors, items)
      ensures Items() == old(Items())
    {
      assert errors.Keys == collectors.Keys;
      DropCollectors(changes.removals, entered);
      InsertCollectors(changes.additions, entered);
      WillBeCarried(items, entered, errors);
    }

    lemma WillBeCarried(items: map<string, Stored>, entered: map<string, Stored>, errors: map<string, int>)
      requires entered == if errors == map[] then map[] else items
      requires forall k | k in entered :: entered[k].collector in errors
      requires forall c | c in collectors :: Errors(Counts(), entered)[c] == if c in errors then errors[c] else 0
      ensures Lowered(Errors(Counts(), entered), items - entered.Keys) == Carried(collectors.Keys, errors, items)
    {
      assert Errors(Counts(), entered).Keys == collectors.Keys;
      ErrorsOfNewCollectors(items, entered, errors, Errors(Counts(), entered));
    }

    /** Saves the targets whose key is not taken. */
    method Save(additions: map<string, Item>)
      modifies this`targetItems
      ensures targetItems == additions + old(targetItems)
    {
      ghost var stored, done := targetItems, {};
      var rest := additions.Keys;
      while rest != {}
        invariant rest <= additions.Keys && done <= additions.Keys <= done + rest
        invariant targetItems == Restricted(additions, done) + stored
      {
        var k :| k in rest;
        if k !in targetItems {
          targetItems := targetItems[k := additions[k]];
        }
        done := done + {k};
        rest := rest - {k};
      }
      RestrictedToAll(additions, done);
    }

    method Forget<T>(removals: map<string, T>)
      modifies this`targetItems
      ensures targetItems == old(targetItems) - removals.Keys
    {
      ghost var stored, gone := targetItems, {};
      var rest := removals.Keys;
      while rest != {}
        invariant rest <= removals.Keys && gone <= removals.Keys <= gone + rest
        invariant targetItems == stored - gone
      {
        var k :| k in rest;
        WithoutOneMore(stored, gone, k);
        targetItems := targetItems - {k};
        gone := gone + {k};
        rest := rest - {k};
      }
    }

    /** The entries of the targets that are not stored yet, as they arrive. */
    ghost function Arrivals(targets: map<string, Item>): map<string, Stored>
      reads this`targetItems, targets.Values`collectorName
    {
      map k | k in targets && k !in targetItems :: Stored(targets[k].target, targets[k].collectorName)
    }

    lemma ArrivalsAreAdditions(targets: map<string, Item>, additions: map<string, Item>)
      requires additions == targets - targetItems.Keys
      ensures StoredItems(additions) == Arrivals(targets)
    {
    }

    /** No new target names a collector; without collectors, it names nothing at all. */
    ghost predicate Unclaimed(targets: map<string, Item>)
      reads this`collectors, this`targetItems, targets.Values`collectorName
    {
      forall k | k in targets && k !in targetItems ::
        if collectors == map[] then targets[k].collectorName == "" else targets[k].collectorName !in collectors
    }

    /** The case without collectors: the targets are only saved. */
    method SaveTargets(targets: map<string, Item>)
      requires Keyed(targetItems) && Keyed(targets)
      modifies this`targetItems
      ensures targetItems == Diff.Merged(old(targetItems), targets)
    {
      if targetItems == map[] {
        Save(targets);
      } else {
        var changes := Diff.Maps(targetItems, targets, (item: Item) => item.hash);
        Diff.DifferenceOfKeyed(targetItems, targets, (item: Item) => item.hash, changes);
        Diff.MergedByDifference(targetItems, targets, changes);
        Save(changes.additions);
        Forget(changes.removals);
      }
    }

    method StoredDifference(targets: map<string, Item>, ghost items: map<string, Stored>,
                            ghost errors: map<string, int>)
        returns (changes: Diff.Changes<Item>)
      requires items == Items() && errors == Errors(Counts(), Items())
      ensures items == Items() && errors == Errors(Counts(), Items())
      requires Keyed(targetItems) && Keyed(targets)
      ensures changes.additions == targets - targetItems.Keys
      ensures forall k | k in targetItems :: k in changes.removals <==> k !in targets
      ensures changes.additions + (targetItems - changes.removals.Keys) == Diff.Merged(targetItems, targets)
    {
      changes := Diff.Maps(targetItems, targets, (item: Item) => item.hash);
      Diff.DifferenceOfKeyed(targetItems, targets, (item: Item) => item.hash, changes);
      assert changes.additions == targets - targetItems.Keys;
    }

    /** The difference to the stored targets; applied, with what is new located, it replaces them. */
    method TargetChanges(targets: map<string, Item>, ghost items: map<string, Stored>,
                         ghost arrivals: map<string, Stored>, ghost errors: map<string, int>)
        returns (changes: Diff.Changes<Item>)
      requires items == Items() && errors == Errors(Counts(), Items())
      ensures items == Items() && errors == Errors(Counts(), Items())
      requires Keyed(targetItems) && Keyed(targets) && collectors != map[] && arrivals == Arrivals(targets)
      ensures changes.additions == targets - targetItems.Keys && StoredItems(changes.additions) == arrivals
      ensures changes.additions.Keys !! (targetItems - changes.removals.Keys).Keys
      ensures changes.additions + (targetItems - changes.removals.Keys) == Diff.Merged(targetItems, targets)
      ensures Located(changes.additions) + (Items() - changes.removals.Keys) ==
                AfterSetTargets(ring, Abs(), Described(targets)).items
    {
      changes := StoredDifference(targets, items, errors);
      ArrivalsAreAdditions(targets, changes.additions);
      ReplacedByDifference(ring, Abs(), Described(targets), changes.removals.Keys, Located(changes.additions));
    }

    /** Nothing is done if nothing has changed. */
    method ApplyTargetChanges(changes: Diff.Changes<Item>, ghost arrivals: map<string, Stored>)
      requires Wired() && Indexed(Items()) && collectors != map[] && Keyed(changes.additions)
      requires changes.additions.Keys !! (targetItems - changes.removals.Keys).Keys
      requires StoredItems(changes.additions) == arrivals
      requires forall k | k in targetItems :: Items()[k].collector in collectors
      modifies this`targetItems, this`targetItemsPerJobPerCollector, collectors.Values`numTargets,
               changes.additions.Values`collectorName
      ensures Wired() && Indexed(Items())
      ensures targetItems == changes.additions + (old(targetItems) - changes.removals.Keys)
      ensures Items() == Located(changes.additions) + (old(Items()) - changes.removals.Keys)
      ensures Errors(Counts(), Items()) == Lowered(old(Errors(Counts(), Items())), arrivals)
    {
      AdditionsAlone(changes.additions, targetItems - changes.removals.Keys);
      if changes.additions != map[] || changes.removals != map[] {
        HandleTargets(changes, arrivals);
      } else {
        NothingChanged(targetItems, changes.additions, changes.removals.Keys);
        NothingChanged(Items(), Located(changes.additions), changes.removals.Keys);
        assert StoredItems(changes.additions) == map[];
        LoweredByNone(Errors(Counts(), Items()));
      }
    }

    /** The case with collectors: what is new is assigned, what is gone is unassigned. */
    method AllocateTargets(targets: map<string, Item>)
      requires Sound() && collectors != map[] && Keyed(targets)
      modifies this`targetItems, this`targetItemsPerJobPerCollector, collectors.Values`numTargets,
               targets.Values`collectorName
      ensures Sound() && targetItems == Diff.Merged(old(targetItems), targets)
      ensures Abs() == AfterSetTargets(ring, old(Abs()), Described(targets))
      ensures CountErrors() == Lowered(old(CountErrors()), old(Arrivals(targets)))
    {
      ghost var s, arrivals, errors := Abs(), Arrivals(targets), CountErrors();
      AllAreEntered();
      ReplacementPlacesWell(ring, s, Described(targets));
      var changes := TargetChanges(targets, s.items, arrivals, errors);
      ApplyTargetChanges(changes, arrivals);
      assert Abs() == AfterSetTargets(ring, s, Described(targets));
      IsSound();
    }

    lemma UnclaimedArrivals(targets: map<string, Item>)
      requires collectors != map[]
      ensures Unclaimed(targets) <==> NameNone(Arrivals(targets), collectors.Keys)
    {
      if NameNone(Arrivals(targets), collectors.Keys) {
        forall k | k in targets && k !in targetItems
          ensures targets[k].collectorName !in collectors
        {
          assert k in Arrivals(targets);
        }
      }
    }

    /** Whether the accounts stay exact, from what has become of the errors. */
    lemma StaysExact(errors: map<string, int>, arrivals: map<string, Stored>)
      requires collectors != map[] && errors.Keys == collectors.Keys
      requires CountErrors() == Lowered(errors, arrivals)
      ensures AllZero(errors) ==> (Exact() <==> NameNone(arrivals, collectors.Keys))
    {
      if AllZero(errors) {
        LoweredIsExact(errors, arrivals);
      }
    }

    /** Accepts newly discovered targets. The stored keys become those of the targets that are kept. With collectors,
        every target is with its owner then, but each that arrives naming a collector makes that collector's count one
        too low; without, it keeps the name it arrives with. */
    method SetTargets(targets: map<string, Item>)
      requires Sound() && Keyed(targets)
      modifies this`targetItems, this`targetItemsPerJobPerCollector, collectors.Values`numTargets,
               targets.Values`collectorName
      ensures Sound() && targetItems == Diff.Merged(old(targetItems), Filtered(filter, targets))
      ensures collectors != map[] ==>
                && Abs() == AfterSetTargets(ring, old(Abs()), Described(Filtered(filter, targets)))
                && PlacedByAddress(ring, Abs())
                && CountErrors() == Lowered(old(CountErrors()), old(Arrivals(Filtered(filter, targets))))
      ensures forall k :: k in targetItems <==> k in targets && (filter.KeepIf? ==> filter.keep(targets[k].target))
      ensures collectors == map[] ==>
                Items() == Diff.Merged(old(Items()), old(StoredItems(Filtered(filter, targets))))
      ensures old(Unclaimed(Filtered(filter, targets))) ==>
                Abs() == AfterSetTargets(ring, old(Abs()), Described(Filtered(filter, targets)))
      ensures old(Valid()) ==> (Valid() <==> old(Unclaimed(Filtered(filter, targets))))
    {
      ValidIsSoundAndExact();
      var kept := Filtered(filter, targets);
      if collectors == map[] {
        SaveUnassigned(kept);
      } else {
        SetAssigned(kept);
      }
      ValidIsSoundAndExact();
    }

    /** With collectors, the counts stay exact if and only if nothing new names a collector. */
    method SetAssigned(targets: map<string, Item>)
      requires Sound() && collectors != map[] && Keyed(targets)
      modifies this`targetItems, this`targetItemsPerJobPerCollector, collectors.Values`numTargets,
               targets.Values`collectorName
      ensures Sound() && targetItems == Diff.Merged(old(targetItems), targets)
      ensures Abs() == AfterSetTargets(ring, old(Abs()), Described(targets)) && PlacedByAddress(ring, Abs())
      ensures CountErrors() == Lowered(old(CountErrors()), old(Arrivals(targets)))
      ensures old(Exact()) ==> (Exact() <==> old(Unclaimed(targets)))
    {
      ghost var errors, arrivals := CountErrors(), Arrivals(targets);
      assert errors.Keys == collectors.Keys;
      UnclaimedArrivals(targets);
      AllocateTargets(targets);
      WellPlacedByAddress(ring, Abs());
      StaysExact(errors, arrivals);
    }

    /** Without collectors, saving keeps the accounts exact if and only if nothing new names a collector. */
    method SaveUnassigned(targets: map<string, Item>)
      requires Sound() && collectors == map[] && Keyed(targets)
      modifies this`targetItems
      ensures Sound() && targetItems == Diff.Merged(old(targetItems), targets)
      ensures Items() == Diff.Merged(old(Items()), old(StoredItems(targets)))
      ensures old(Unclaimed(targets)) ==> Abs() == AfterSetTargets(ring, old(Abs()), Described(targets))
      ensures old(Exact()) ==> (Exact() <==> old(Unclaimed(targets)))
    {
      ghost var before := targetItems;
      SaveTargets(targets);
      assert Items() == Diff.Merged(StoredItems(before), StoredItems(targets));
      assert forall k | k in targetItems :: targetItems[k] == if k in before then before[k] else targets[k];
      assert forall k | k in targets && k !in before :: k in targetItems;
      if forall k | k in targets && k !in before :: targets[k].collectorName == "" {
        SavedUnderNoName(ring, before, targets);
      }
    }

    /** Accepts the present collectors. An empty set is ignored. The errors of the counts remain; and a collector that
        was named by targets before it came is off by their number. */
    method SetCollectors(next: map<string, Collector>)
      requires Sound()
      requires "" !in next && forall c | c in next :: next[c].name == c
      modifies this`collectors, this`hasher, this`targetItems, this`targetItemsPerJobPerCollector,
               targetItems.Values`collectorName, collectors.Values`numTargets
      ensures Sound()
      ensures Abs() == AfterSetCollectors(ring, old(Abs()), next.Keys)
      ensures collectors != map[] ==> PlacedByAddress(ring, Abs())
      ensures targetItems == old(targetItems)
      ensures forall c | c in collectors ::
                (c in old(collectors) && collectors[c] == old(collectors)[c]) || fresh(collectors[c])
      ensures CountErrors() == Carried(collectors.Keys, old(CountErrors()), old(Items()))
      ensures old(Exact()) ==> Exact()
      ensures old(Valid()) ==> Valid()
    {
      ValidIsSoundAndExact();
      ghost var items, errors, exact := Items(), CountErrors(), Exact();
      EnteredIsStored();
      CarriedToTheSame(items, errors);
      if next != map[] {
        ChangeToNext(next);
        if exact {
          CarriedIsExact(collectors.Keys, items, errors);
        }
      }
      if collectors != map[] {
        WellPlacedByAddress(ring, Abs());
      }
      ValidIsSoundAndExact();
    }

    /** The difference to the present collectors; applied, it leads to the next ones. */
    method CollectorChanges(next: map<string, Collector>) returns (changes: Diff.Changes<Collector>)
      requires Wired() && forall c | c in next :: next[c].name == c
      ensures forall c | c in changes.removals :: changes.removals[c].name == c
      ensures forall c | c in changes.additions :: c in next && changes.additions[c].name == c
      ensures changes.additions.Keys !! collectors.Keys
      ensures (collectors.Keys - changes.removals.Keys) + changes.additions.Keys == next.Keys
      ensures changes.additions == map[] && changes.removals == map[] <==> collectors.Keys == next.Keys
    {
      changes := Diff.Maps(collectors, next, (c: Collector) => c.name);
      Diff.DifferenceOfKeyed(collectors, next, (c: Collector) => c.name, changes);
      MembersByDifference(collectors.Keys, next.Keys, changes.additions.Keys, changes.removals.Keys);
    }

    method ChangeToNext(next: map<string, Collector>)
      requires Sound() && next != map[]
      requires "" !in next && forall c | c in next :: next[c].name == c
      modifies this`collectors, this`hasher, this`targetItems, this`targetItemsPerJobPerCollector,
               targetItems.Values`collectorName, collectors.Values`numTargets
      ensures Sound()
      ensures Abs() == AfterSetCollectors(ring, old(Abs()), next.Keys) && collectors != map[]
      ensures targetItems == old(targetItems)
      ensures forall c | c in collectors ::
                (c in old(collectors) && collectors[c] == old(collectors)[c]) || fresh(collectors[c])
      ensures CountErrors() == Carried(collectors.Keys, old(CountErrors()), old(Items()))
    {
      ghost var items, errors := Items(), CountErrors();
      var changes := CollectorChanges(next);
      assert Items() == items && CountErrors() == errors;
      ApplyCollectorChanges(changes, next.Keys);
    }

    /** Nothing is done if nothing has changed. */
    method ApplyCollectorChanges(changes: Diff.Changes<Collector>, ghost next: set<string>)
      requires Sound() && next != {} && "" !in next
      requires forall c | c in changes.removals :: changes.removals[c].name == c
      requires forall c | c in changes.additions :: c in next && changes.additions[c].name == c
      requires changes.additions.Keys !! collectors.Keys
      requires (collectors.Keys - changes.removals.Keys) + changes.additions.Keys == next
      requires changes.additions == map[] && changes.removals == map[] <==> collectors.Keys == next
      modifies this`collectors, this`hasher, this`targetItems, this`targetItemsPerJobPerCollector,
               targetItems.Values`collectorName, collectors.Values`numTargets
      ensures Sound()
      ensures Abs() == AfterSetCollectors(ring, old(Abs()), next) && collectors != map[]
      ensures targetItems == old(targetItems)
      ensures forall c | c in collectors ::
                (c in old(collectors) && collectors[c] == old(collectors)[c]) || fresh(collectors[c])
      ensures CountErrors() == Carried(collectors.Keys, old(CountErrors()), old(Items()))
    {
      assert CountErrors().Keys == collectors.Keys;
      CarriedToTheSame(Items(), CountErrors());
      if changes.additions != map[] || changes.removals != map[] {
        HandleCollectors(changes);
      }
    }

    method GetTargetsForCollectorAndJob(c: string, job: string) returns (listing: seq<Item>)
      requires Sound()
      ensures Lists(targetItems, listing, if c in collectors then HeldOfJob(Items(), c, job) else {})
    {
      listing := [];
      if c !in targetItemsPerJobPerCollector || job !in targetItemsPerJobPerCollector[c] {
        assert IndexCell(targetItemsPerJobPerCollector, c, job) == {};
        return;
      }
      ghost var ks := HeldOfJob(Items(), c, job);
      assert IndexCell(targetItemsPerJobPerCollector, c, job) == ks;
      listing := ListCell(targetItemsPerJobPerCollector[c][job]);
    }

    /** The stored targets with the given keys. */
    method ListCell(cell: set<string>) returns (listing: seq<Item>)
      requires Keyed(targetItems) && cell <= targetItems.Keys
      ensures Lists(targetItems, listing, cell)
    {
      listing := [];
      var rest := cell;
      ghost var done := {};
      while rest != {}
        invariant rest <= cell && forall k :: k in done <==> k in cell && k !in rest
        invariant Lists(targetItems, listing, done)
      {
        var k :| k in rest;
        ListedOneMore(targetItems, listing, done, k);
        listing := listing + [targetItems[k]];
        done := done + {k};
        rest := rest - {k};
      }
      assert done == cell;
    }

    /** The server's overview of a job: one listing per collector. */
    method GetAllTargetsByJob(job: string) returns (display: map<string, seq<Item>>)
      requires Sound()
      ensures display.Keys == collectors.Keys
      ensures Displays(targetItems, Items(), display, job)
    {
      display := map[];
      ghost var stored, items := targetItems, Items();
      var rest := collectors.Keys;
      while rest != {}
        invariant forall c | c in rest :: c in collectors
        invariant (forall c | c in display :: c in collectors)
            && forall c | c in collectors :: c in display || c in rest
        invariant Displays(stored, items, display, job)
      {
        var c :| c in rest;
        var listing := GetTargetsForCollectorAndJob(collectors[c].name, job);
        assert Items() == items;
        DisplayedOneMore(stored, items, display, job, c, listing);
        display := display[collectors[c].name := listing];
        rest := rest - {c};
      }
    }
  }
}
