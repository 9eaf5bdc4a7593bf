/** The reconciliation loop of the operator against an API server whose calls may fail. */
module Reconcile {
  import opened Wrappers
  import opened Manifests
  import opened Cluster

  datatype Fault = Conflict | Unavailable

  datatype Error = NotFound | Conflicted | Failed | ImmutableChange | UnsupportedKind

  datatype Reply<T> = Ok(value: T) | Err(error: Error)

  /** The server. Each call it gets may fail, as `faults` says, and has no effect if it does; only updates are told of a
      conflict. Nobody else writes to it. */
  class ApiServer {
    const faults: nat -> Option<Fault>
    var calls: nat
    var objects: map<Key, Obj>
    var nextUid: nat

    constructor (faults: nat -> Option<Fault>)
      ensures this.faults == faults && State() == Cluster.State(map[], 1) && State().Valid()
    {
      this.faults := faults;
      calls := 0;
      objects := map[];
      nextUid := 1;
    }

    function State(): Cluster.State
      reads this`objects, this`nextUid
    {
      Cluster.State(objects, nextUid)
    }

    /** No call will fail from now on. */
    ghost predicate Reliable()
      reads this`calls
    {
      forall n | n >= calls :: faults(n) == None
    }

    method Answers() returns (fault: Option<Fault>)
      modifies this`calls
      ensures fault == faults(old(calls)) && calls == old(calls) + 1
    {
      fault := faults(calls);
      calls := calls + 1;
    }

    method Get(k: Key) returns (r: Reply<Obj>)
      modifies this`calls
      ensures old(Reliable()) ==> Reliable()
      ensures r.Ok? ==> k in objects && r.value == objects[k]
      ensures r == Err(NotFound) ==> k !in objects
      ensures r.Err? ==> r.error == NotFound || r.error == Failed
      ensures old(Reliable()) && k in objects ==> r.Ok?
      ensures old(Reliable()) && k !in objects ==> r == Err(NotFound)
    {
      var fault := Answers();
      if fault.Some? {
        return Err(Failed);
      }
      if k !in objects {
        return Err(NotFound);
      }
      return Ok(objects[k]);
    }

    method Create(k: Key, o: Obj) returns (r: Reply<nat>)
      requires k !in objects
      modifies this
      ensures old(Reliable()) ==> Reliable()
      ensures r.Ok? ==> State() == Created(old(State()), k, o) && r.value == old(nextUid)
      ensures r.Err? ==> State() == old(State()) && r.error == Failed
      ensures old(Reliable()) ==> r.Ok?
    {
      var fault := Answers();
      if fault.Some? {
        return Err(Failed);
      }
      r := Ok(nextUid);
      objects := objects[k := Defaulted(o).(uid := nextUid)];
      nextUid := nextUid + 1;
    }

    method Update(k: Key, o: Obj) returns (r: Reply<()>)
      requires k in objects
      modifies this
      ensures old(Reliable()) ==> Reliable()
      ensures r.Ok? ==> State() == Updated(old(State()), k, o)
      ensures r.Err? ==> State() == old(State()) && (r.error == Conflicted || r.error == Failed)
      ensures old(Reliable()) ==> r.Ok?
    {
      var fault := Answers();
      if fault.Some? {
        return Err(if fault.value == Conflict then Conflicted else Failed);
      }
      objects := objects[k := Defaulted(o).(uid := objects[k].uid)];
      return Ok(());
    }

    method Delete(k: Key) returns (r: Reply<()>)
      modifies this
      ensures old(Reliable()) ==> Reliable()
      ensures nextUid == old(nextUid)
      ensures r.Ok? ==> k in old(objects) && objects == old(objects) - {k}
      ensures r.Err? ==> objects == old(objects) && (r.error == NotFound || r.error == Failed)
      ensures old(Reliable()) && k in old(objects) ==> r.Ok?
    {
      var fault := Answers();
      if fault.Some? {
        return Err(Failed);
      }
      if k !in objects {
        return Err(NotFound);
      }
      objects := objects - {k};
      return Ok(());
    }

    /** The objects of one kind in the owner's namespace with the owner's labels, by identity. */
    method List(owner: Owner, kind: Kind) returns (r: Reply<map<nat, Key>>)
      requires State().Valid()
      modifies this`calls
      ensures old(Reliable()) ==> Reliable()
      ensures r.Ok? ==> IsListing(State(), owner, {kind}, r.value)
      ensures r.Err? ==> r.error == Failed
      ensures old(Reliable()) ==> r.Ok?
    {
      var fault := Answers();
      if fault.Some? {
        return Err(Failed);
      }
      var listed := set k | k in objects && k.kind == kind && IsLabelled(State(), owner, k);
      var found := FileByUid(listed);
      IndexedAll(State(), owner, kind, listed, found);
      return Ok(found);
    }

    method FileByUid(listed: set<Key>) returns (found: map<nat, Key>)
      requires listed <= objects.Keys
      ensures Indexing(objects, listed, {}, found)
    {
      var rest := listed;
      found := map[];
      while rest != {}
        invariant Indexing(objects, listed, rest, found)
      {
        var k :| k in rest;
        IndexedOneMore(objects, listed, rest, found, k);
        found := found[objects[k].uid := k];
        rest := rest - {k};
      }
    }
  }

  /** Half-way through a listing, those that do not remain are filed. */
  ghost predicate Indexing(objects: map<Key, Obj>, listed: set<Key>, rest: set<Key>, found: map<nat, Key>) {
    && rest <= listed <= objects.Keys
    && (forall u | u in found :: found[u] in listed && objects[found[u]].uid == u)
    && (forall k | k in listed && k !in rest :: objects[k].uid in found)
  }

  lemma IndexedAll(s: State, owner: Owner, kind: Kind, listed: set<Key>, found: map<nat, Key>)
    requires Indexing(s.objects, listed, {}, found)
    requires listed == set k | k in s.objects && k.kind == kind && IsLabelled(s, owner, k)
    ensures IsListing(s, owner, {kind}, found)
  {
  }

  lemma IndexedOneMore(objects: map<Key, Obj>, listed: set<Key>, rest: set<Key>, found: map<nat, Key>, k: Key)
    requires Indexing(objects, listed, rest, found) && k in rest
    ensures Indexing(objects, listed, rest - {k}, found[objects[k].uid := k])
  {
  }

  predicate IsLabelled(s: State, owner: Owner, k: Key) {
    k in s.objects && k.namespace == owner.namespace && Carries(s.objects[k].labels, owner.labels)
  }

  /** The labelled objects of some kinds, by identity. */
  ghost predicate IsListing(s: State, owner: Owner, kinds: set<Kind>, found: map<nat, Key>) {
    && (forall u | u in found ::
          IsLabelled(s, owner, found[u]) && found[u].kind in kinds && s.objects[found[u]].uid == u)
    && (forall k | IsLabelled(s, owner, k) && k.kind in kinds :: s.objects[k].uid in found)
  }

  // ---------------------------------------------------------------- the search for owned objects

  lemma ListingsUnite(s: State, owner: Owner, a: set<Kind>, b: set<Kind>, m: map<nat, Key>, n: map<nat, Key>)
    requires IsListing(s, owner, a, m) && IsListing(s, owner, b, n)
    ensures IsListing(s, owner, a + b, m + n)
  {
  }

  method FindOwnedObjects(server: ApiServer, owner: Owner) returns (r: Reply<map<nat, Key>>)
    requires server.State().Valid()
    modifies server`calls
    ensures r.Ok? ==> IsSearchResult(server.State(), owner, r.value)
    ensures old(server.Reliable()) ==> r.Ok? && server.Reliable()
  {
    var kinds := [ConfigMap, Service, ServiceAccount, Deployment, StatefulSet, DaemonSet];
    var found: map<nat, Key> := map[];
    for i := 0 to |kinds|
      invariant old(server.Reliable()) ==> server.Reliable()
      invariant IsListing(server.State(), owner, set j | 0 <= j < i :: kinds[j], found)
    {
      var listed := server.List(owner, kinds[i]);
      if listed.Err? {
        return Err(listed.error);
      }
      ListingsUnite(server.State(), owner, set j | 0 <= j < i :: kinds[j], {kinds[i]}, found, listed.value);
      assert (set j | 0 <= j < i + 1 :: kinds[j]) == (set j | 0 <= j < i :: kinds[j]) + {kinds[i]};
      found := found + listed.value;
    }
    SearchedKinds(kinds);
    return Ok(found);
  }

  lemma SearchedKinds(kinds: seq<Kind>)
    requires kinds == [ConfigMap, Service, ServiceAccount, Deployment, StatefulSet, DaemonSet]
    ensures forall k: Kind :: k in (set j | 0 <= j < |kinds| :: kinds[j]) <==> IsSearched(k)
  {
    assert kinds[0] == ConfigMap && kinds[1] == Service && kinds[2] == ServiceAccount;
    assert kinds[3] == Deployment && kinds[4] == StatefulSet && kinds[5] == DaemonSet;
  }

  // ---------------------------------------------------------------- configuring one object

  /** The object to start from: the stored one, or what is at hand if there is none. */
  function StartingPoint(s: State, k: Key, existing: Obj): Obj {
    if k in s.objects then s.objects[k] else existing
  }

  function Expected(outcome: Outcome): Reply<()> {
    match outcome
    case Mutated(_) => Ok(())
    case Immutable => Err(ImmutableChange)
    case Unsupported => Err(UnsupportedKind)
  }

  /** Fills in the object that is stored, if there is one. */
  method Fetch(server: ApiServer, k: Key, existing: Manifest) returns (got: Reply<Obj>)
    modifies server`calls, existing
    ensures got == Err(Failed)
        || (if got.Ok? then k in server.objects && got.value == server.objects[k] else k !in server.objects)
    ensures got != Err(Failed) ==> existing.Value() == StartingPoint(server.State(), k, old(existing.Value()))
    ensures old(server.Reliable()) ==> server.Reliable() && got != Err(Failed)
  {
    got := server.Get(k);
    if got.Ok? {
      existing.Hydrate(got.value);
    }
  }

  /** One attempt to bring the stored object to its desired form, or to create it. */
  method CreateOrUpdate(server: ApiServer, k: Key, existing: Manifest, desired: Manifest, merge: Merge)
      returns (r: Reply<()>)
    requires server.State().Valid() && existing != desired
    requires k !in server.objects ==> existing.Value() == desired.Value() && existing.uid == 0
    modifies server, existing, desired`claims
    ensures var m := Mutation(k.kind, StartingPoint(old(server.State()), k, old(existing.Value())),
        old(desired.Value()), merge);
            && (r.Ok? ==> m.Mutated? && server.State() == Applied(old(server.State()), k, m))
            && (r.Err? ==> server.State() == old(server.State()))
            && (r == Err(ImmutableChange) ==> m.Immutable? && k in server.objects)
            && (r == Err(UnsupportedKind) ==> m.Unsupported?)
            && (r == Err(Conflicted) ==>
               k in server.objects && desired.Value() == old(desired.Value()).(claims := desired.claims)
                                         && Mutation(k.kind, server.objects[k], desired.Value(), merge) == m)
            && (old(server.Reliable()) ==> r == Expected(m) && server.Reliable())
    ensures r.Err? ==> r.error != NotFound
    ensures r.Ok? || r == Err(ImmutableChange) ==>
              existing.uid == if k in old(server.objects) then old(server.objects)[k].uid else old(server.nextUid)
  {
    var got := Fetch(server, k, existing);
    if got == Err(Failed) {
      return Err(Failed);
    }
    ghost var before, start := desired.Value(), existing.Value();
    var outcome := existing.Mutate(k.kind, desired, merge);
    FilledMakesNoDifference(k.kind, start, before, merge);
    r := Send(server, k, existing, got, outcome);
  }

  /** Updates the object that was found, unless there is nothing to update, or creates it. */
  method Send(server: ApiServer, k: Key, existing: Manifest, got: Reply<Obj>, outcome: Outcome) returns (r: Reply<()>)
    requires if got.Ok? then k in server.objects && got.value == server.objects[k] else k !in server.objects
    requires got.Ok? ==> existing.uid == got.value.uid
    modifies server, existing`uid
    ensures r.Ok? ==> outcome.Mutated? && server.State() == Applied(old(server.State()), k, outcome)
    ensures r.Err? ==> server.State() == old(server.State()) && r.error != NotFound
    ensures (r == Err(ImmutableChange) ==> outcome.Immutable?) && (r == Err(UnsupportedKind) ==> outcome.Unsupported?)
    ensures r == Err(Conflicted) ==> k in server.objects && outcome.Mutated?
    ensures old(server.Reliable()) ==> r == Expected(outcome) && server.Reliable()
    ensures r.Ok? ==> existing.uid == if k in old(server.objects) then old(server.objects)[k].uid
        else old(server.nextUid)
    ensures r.Err? ==> existing.uid == old(existing.uid)
  {
    match outcome {
      case Immutable => return Err(ImmutableChange);
      case Unsupported => return Err(UnsupportedKind);
      case Mutated(o) =>
        if got.Ok? {
          if o == got.value {
            return Ok(());
          }
          var updated := server.Update(k, o);
          return if updated.Ok? then Ok(()) else updated;
        } else {
          var created := server.Create(k, o);
          if created.Err? {
            return Err(Failed);
          }
          existing.uid := created.value;
          return Ok(());
        }
    }
  }

  const RETRIES := 5

  /** Attempts are repeated, a few times, for as long as they end in a conflict. */
  method RetryOnConflict(server: ApiServer, k: Key, existing: Manifest, desired: Manifest, merge: Merge)
      returns (r: Reply<()>)
    requires server.State().Valid() && existing != desired
    requires existing.Value() == desired.Value() && existing.uid == 0
    modifies server, existing, desired`claims
    ensures var m := Mutation(k.kind, StartingPoint(old(server.State()), k, old(existing.Value())),
        old(desired.Value()), merge);
            && (r.Ok? ==> m.Mutated? && server.State() == Applied(old(server.State()), k, m))
            && (r.Err? ==> server.State() == old(server.State()))
            && (r == Err(ImmutableChange) ==> m.Immutable? && k in server.objects)
            && (old(server.Reliable()) ==> r == Expected(m) && server.Reliable())
    ensures r.Ok? || r == Err(ImmutableChange) ==>
              existing.uid == if k in old(server.objects) then old(server.objects)[k].uid else old(server.nextUid)
  {
    ghost var s, m := server.State(),
        Mutation(k.kind, StartingPoint(server.State(), k, existing.Value()), desired.Value(), merge);
    r := CreateOrUpdate(server, k, existing, desired, merge);
    var attempts := 1;
    while r == Err(Conflicted) && attempts < RETRIES
      invariant r.Ok? ==> m.Mutated? && server.State() == Applied(s, k, m)
      invariant r.Err? ==> server.State() == s
      invariant r == Err(ImmutableChange) ==> m.Immutable? && k in server.objects
      invariant r == Err(Conflicted) ==> k in s.objects && Mutation(k.kind, s.objects[k], desired.Value(), merge) == m
      invariant r.Ok? || r == Err(ImmutableChange) ==>
          existing.uid == if k in s.objects then s.objects[k].uid else s.nextUid
      invariant old(server.Reliable()) ==> r == Expected(m) && server.Reliable()
      decreases RETRIES - attempts
    {
      r := CreateOrUpdate(server, k, existing, desired, merge);
      attempts := attempts + 1;
    }
  }

  // ---------------------------------------------------------------- configuring all objects

  /** The end of one object's turn: it is remembered, it is reported, or the whole round stops. */
  datatype Turn = Done(uid: nat) | Reported(error: Error) | Stopped(error: Error)

  method ConfigureOne(server: ApiServer, owner: Owner, d: Desired, merge: Merge) returns (turn: Turn)
    requires server.State().Valid()
    modifies server
    ensures turn.Done? ==> CanClaim(owner, d) && d.key.kind != OtherKind
                           && server.State() == Configured(old(server.State()), owner, d, merge)
                           && turn.uid == Remembered(old(server.State()), owner, d, merge)
    ensures turn.Done? && d.key in server.objects ==> IsControlled(owner, d, server.objects[d.key])
    ensures turn.Done? && d.key.kind != ClusterRole && d.key.kind != ClusterRoleBinding ==>
              && d.key.namespace == owner.namespace
              && (d.obj.controller == None || d.obj.controller == Some(owner.id))
    ensures !turn.Done? ==> server.State() == old(server.State())
    ensures old(server.Reliable()) ==> server.Reliable() && !turn.Stopped?
                                       && (turn.Done? <==> CanClaim(owner, d) && d.key.kind != OtherKind)
  {
    var desired := new Manifest(d.obj.(uid := 0));
    if IsNamespaced(d.key.kind) {
      if d.key.namespace != owner.namespace || (desired.controller != None && desired.controller != Some(owner.id)) {
        return Reported(Failed);
      }
      desired.controller := Some(owner.id);
    }
    assert desired.Value() == Claimed(owner, d);
    if d.key.kind != OtherKind {
      ConfiguredIsControlled(server.State(), owner, d, merge);
    }
    var existing := new Manifest(desired.Value());
    var r := RetryOnConflict(server, d.key, existing, desired, merge);
    if r == Err(ImmutableChange) {
      var deleted := server.Delete(d.key);
      if deleted.Err? {
        return Stopped(deleted.error);
      }
      return Done(existing.uid);
    }
    if r.Err? {
      return Reported(r.error);
    }
    return Done(existing.uid);
  }

  predicate CanAll(owner: Owner, ds: seq<Desired>) {
    forall i | 0 <= i < |ds| :: CanClaim(owner, ds[i]) && ds[i].key.kind != OtherKind
  }

  /** What configuring may do to the other objects, complete or not: nothing. What it may delete: workloads. */
  ghost predicate OnlyTouches(s: State, s': State, keys: set<Key>) {
    && s'.Valid()
    && (forall k | k !in keys ::
          (k in s'.objects <==> k in s.objects) && (k in s.objects ==> s'.objects[k] == s.objects[k]))
    && (forall k | k in s.objects && k !in s'.objects :: HasFixedSelector(k.kind))
  }

  lemma ConfiguringTouchesOne(s: State, owner: Owner, d: Desired, merge: Merge)
    requires s.Valid()
    ensures OnlyTouches(s, Configured(s, owner, d, merge), {d.key})
  {
    ConfiguredIsValid(s, owner, d, merge);
  }

  lemma TouchedInTurn(s: State, s': State, s'': State, keys: set<Key>, k: Key)
    requires OnlyTouches(s, s', keys) && OnlyTouches(s', s'', {k})
    ensures OnlyTouches(s, s'', keys + {k})
  {
  }

  lemma OneMoreTouched(s: State, s': State, owner: Owner, ds: seq<Desired>, i: nat, merge: Merge)
    requires i < |ds| && OnlyTouches(s, s', Keys(ds[..i]))
    ensures OnlyTouches(s, Configured(s', owner, ds[i], merge), Keys(ds[..i + 1]))
    ensures OnlyTouches(s, s', Keys(ds[..i + 1]))
  {
    assert ds[..i + 1][..i] == ds[..i];
    KeysOfLast(ds[..i + 1]);
    ConfiguringTouchesOne(s', owner, ds[i], merge);
    TouchedInTurn(s, s', Configured(s', owner, ds[i], merge), Keys(ds[..i]), ds[i].key);
    TouchedInTurn(s, s', s', Keys(ds[..i]), ds[i].key);
  }

  lemma OneMore(s: State, owner: Owner, ds: seq<Desired>, i: nat, merge: Merge)
    requires i < |ds|
    ensures CanAll(owner, ds[..i + 1]) <==>
        CanAll(owner, ds[..i]) && CanClaim(owner, ds[i]) && ds[i].key.kind != OtherKind
    ensures ConfiguredAll(s, owner, ds[..i + 1], merge) ==
        Configured(ConfiguredAll(s, owner, ds[..i], merge), owner, ds[i], merge)
    ensures RememberedAll(s, owner, ds[..i + 1], merge) ==
              RememberedAll(s, owner, ds[..i], merge)
              + {Remembered(ConfiguredAll(s, owner, ds[..i], merge), owner, ds[i], merge)}
  {
    assert ds[..i + 1][..i] == ds[..i];
    assert forall j | 0 <= j < i :: ds[..i + 1][j] == ds[..i][j];
    assert ds[..i + 1][i] == ds[i];
  }

  /** Where dealing with these objects has led: all went well if `ok`. */
  ghost predicate SoFar(s: State, s': State, owner: Owner, ds: seq<Desired>, merge: Merge, ok: bool, uids: set<nat>) {
    && OnlyTouches(s, s', Keys(ds))
    && (ok ==>
          CanAll(owner, ds) && s' == ConfiguredAll(s, owner, ds, merge) && uids == RememberedAll(s, owner, ds, merge))
  }

  lemma SoFarOneMore(s: State, s': State, s'': State, owner: Owner, ds: seq<Desired>, i: nat, merge: Merge,
                     ok: bool, uids: set<nat>, turn: Turn)
    requires i < |ds| && SoFar(s, s', owner, ds[..i], merge, ok, uids)
    requires turn.Done? ==> CanClaim(owner, ds[i]) && ds[i].key.kind != OtherKind
                            && s'' == Configured(s', owner, ds[i], merge)
                            && turn.uid == Remembered(s', owner, ds[i], merge)
    requires !turn.Done? ==> s'' == s'
    ensures SoFar(s, s'', owner, ds[..i + 1], merge, ok && turn.Done?, if turn.Done? then uids + {turn.uid} else uids)
  {
    OneMore(s, owner, ds, i, merge);
    OneMoreTouched(s, s', owner, ds, i, merge);
  }

  /** Deals with the desired objects one by one. It gives the identities to keep only if all went well. */
  method ReconcileDesiredObjectUIDs(server: ApiServer, owner: Owner, ds: seq<Desired>, merge: Merge)
      returns (r: Reply<set<nat>>)
    requires server.State().Valid()
    modifies server
    ensures OnlyTouches(old(server.State()), server.State(), Keys(ds))
    ensures r.Ok? ==> CanAll(owner, ds) && server.State() == ConfiguredAll(old(server.State()), owner, ds, merge)
                      && r.value == RememberedAll(old(server.State()), owner, ds, merge)
    ensures old(server.Reliable()) ==> server.Reliable() && (r.Ok? <==> CanAll(owner, ds))
  {
    ghost var s := server.State();
    var errs, uids := [], {};
    for i := 0 to |ds|
      invariant SoFar(s, server.State(), owner, ds[..i], merge, errs == [], uids)
      invariant old(server.Reliable()) ==> server.Reliable() && (errs == [] <==> CanAll(owner, ds[..i]))
    {
      ghost var before, ok := server.State(), errs == [];
      var turn := ConfigureOne(server, owner, ds[i], merge);
      SoFarOneMore(s, before, server.State(), owner, ds, i, merge, ok, uids, turn);
      OneMore(s, owner, ds, i, merge);
      match turn {
        case Stopped(error) =>
          MoreTouched(s, server.State(), ds, i + 1);
          return Err(error);
        case Reported(error) =>
          errs := errs + [error];
        case Done(uid) =>
          uids := uids + {uid};
      }
    }
    assert ds[..|ds|] == ds;
    if errs != [] {
      return Err(errs[0]);
    }
    return Ok(uids);
  }

  lemma MoreTouched(s: State, s': State, ds: seq<Desired>, i: nat)
    requires i <= |ds| && OnlyTouches(s, s', Keys(ds[..i]))
    ensures OnlyTouches(s, s', Keys(ds))
  {
    assert forall j | 0 <= j < i :: ds[..i][j] == ds[j];
  }

  // ---------------------------------------------------------------- pruning

  function Unremembered(owned: map<nat, Key>, uids: set<nat>): set<Key> {
    set u | u in owned && u !in uids :: owned[u]
  }

  /** Some of the objects that may go are gone, and nothing else has happened. */
  ghost predicate OnlyRemoves(before: map<Key, Obj>, after: map<Key, Obj>, keys: set<Key>) {
    && (forall k | k in after :: k in before && after[k] == before[k])
    && (forall k | k in before && k !in after :: k in keys)
  }

  ghost predicate CanBeRemoved(objects: map<Key, Obj>, owned: map<nat, Key>, uids: set<nat>) {
    && (forall u | u in owned && u !in uids :: owned[u] in objects)
    && (forall u, v | u in owned && v in owned && owned[u] == owned[v] :: u == v)
  }

  method PruneStaleObjects(server: ApiServer, owned: map<nat, Key>, uids: set<nat>) returns (errs: seq<Error>)
    modifies server
    ensures server.nextUid == old(server.nextUid)
    ensures OnlyRemoves(old(server.objects), server.objects, Unremembered(owned, uids))
    ensures errs == [] ==> forall k | k in Unremembered(owned, uids) :: k !in server.objects
    ensures old(server.Reliable()) && CanBeRemoved(old(server.objects), owned, uids) ==> errs == []
  {
    ghost var before, could := server.objects, server.Reliable() && CanBeRemoved(server.objects, owned, uids);
    errs := [];
    var rest := owned.Keys;
    while rest != {}
      invariant rest <= owned.Keys
      invariant server.nextUid == old(server.nextUid)
      invariant OnlyRemoves(before, server.objects, Unremembered(owned, uids))
      invariant errs == [] ==> forall u | u in owned && u !in rest && u !in uids :: owned[u] !in server.objects
      invariant could ==> errs == [] && server.Reliable()
                          && forall u | u in rest && u !in uids :: owned[u] in server.objects
    {
      var u :| u in rest;
      if u !in uids {
        var deleted := server.Delete(owned[u]);
        if deleted.Err? {
          errs := errs + [deleted.error];
        }
      }
      rest := rest - {u};
    }
  }

  // ---------------------------------------------------------------- a round

  datatype RoundResult = Completed | SearchFailed | ConfiguringFailed | PruningFailed

  /** What was found before configuring and is not remembered is what pruning is meant for, and it can be removed. */
  lemma UnrememberedIsStale(s: State, owner: Owner, ds: seq<Desired>, merge: Merge, owned: map<nat, Key>)
    requires s.Valid() && IsSearchResult(s, owner, owned)
    ensures var uids := RememberedAll(s, owner, ds, merge);
            && Unremembered(owned, uids) == StaleKeys(s, owner, uids) == OwnedKeys(s, owner) - Keys(ds)
            && CanBeRemoved(ConfiguredAll(s, owner, ds, merge).objects, owned, uids)
  {
    var uids := RememberedAll(s, owner, ds, merge);
    NothingDesiredIsPruned(s, owner, ds, merge);
    ConfiguredAllIsValid(s, owner, ds, merge);
    forall k | k in StaleKeys(s, owner, uids) ensures k in Unremembered(owned, uids) {
      var u := s.objects[k].uid;
      assert u in owned && s.objects[owned[u]].uid == u;
    }
  }

  lemma PrunedIsRound(s: State, owner: Owner, ds: seq<Desired>, merge: Merge, s': State)
    requires var all := ConfiguredAll(s, owner, ds, merge);
             var stale := StaleKeys(s, owner, RememberedAll(s, owner, ds, merge));
             && s'.nextUid == all.nextUid && OnlyRemoves(all.objects, s'.objects, stale)
             && forall k | k in stale :: k !in s'.objects
    ensures s' == Round(s, owner, ds, merge)
  {
    assert s'.objects == Round(s, owner, ds, merge).objects;
  }

  /** One round: search, configure, prune. Pruning takes place only if configuring went well, and then removes exactly
      the owned objects that are not desired. Whatever fails, an object disappears only if it is owned and no longer
      desired, or if it is a desired workload that has to be replaced. */
  lemma RoundControls(s: State, owner: Owner, ds: seq<Desired>, merge: Merge)
    requires s.Valid() && CanAll(owner, ds)
    ensures forall i | 0 <= i < |ds| && ds[i].key in Round(s, owner, ds, merge).objects
                       && ds[i].key.kind != ClusterRole && ds[i].key.kind != ClusterRoleBinding ::
              Round(s, owner, ds, merge).objects[ds[i].key].controller == Some(owner.id)
  {
    forall i | 0 <= i < |ds| && ds[i].key in Round(s, owner, ds, merge).objects
               && ds[i].key.kind != ClusterRole && ds[i].key.kind != ClusterRoleBinding
      ensures Round(s, owner, ds, merge).objects[ds[i].key].controller == Some(owner.id)
    {
      ConfiguredAllAreControlled(s, owner, ds, merge, i);
    }
  }

  method ReconcileDesiredObjectsWPrune(server: ApiServer, owner: Owner, ds: seq<Desired>, merge: Merge)
      returns (r: RoundResult)
    requires server.State().Valid()
    modifies server
    ensures r == Completed ==> CanAll(owner, ds) && server.State() == Round(old(server.State()), owner, ds, merge)
    ensures r == Completed ==>
              forall i | 0 <= i < |ds| && ds[i].key in server.objects
                         && ds[i].key.kind != ClusterRole && ds[i].key.kind != ClusterRoleBinding ::
                server.objects[ds[i].key].controller == Some(owner.id)
    ensures r == SearchFailed ==> server.State() == old(server.State())
    ensures r == ConfiguringFailed ==> OnlyTouches(old(server.State()), server.State(), Keys(ds))
    ensures r == PruningFailed ==>
        OnlyRemoves(ConfiguredAll(old(server.State()), owner, ds, merge).objects, server.objects,
                                               OwnedKeys(old(server.State()), owner) - Keys(ds))
    ensures forall k | k in old(server.objects) && k !in server.objects ::
              if k in Keys(ds) then HasFixedSelector(k.kind) else k in OwnedKeys(old(server.State()), owner)
    ensures old(server.Reliable()) ==> r == if CanAll(owner, ds) then Completed else ConfiguringFailed
  {
    ghost var s := server.State();
    var owned := FindOwnedObjects(server, owner);
    if owned.Err? {
      return SearchFailed;
    }
    var uids := ReconcileDesiredObjectUIDs(server, owner, ds, merge);
    if uids.Err? {
      return ConfiguringFailed;
    }
    UnrememberedIsStale(s, owner, ds, merge, owned.value);
    var errs := PruneStaleObjects(server, owned.value, uids.value);
    if errs != [] {
      return PruningFailed;
    }
    PrunedIsRound(s, owner, ds, merge, server.State());
    RoundControls(s, owner, ds, merge);
    return Completed;
  }
}
