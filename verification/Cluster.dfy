/** The API server as the operator uses it, and what one reconciliation round makes of a cluster. */
module Cluster {
  import opened Wrappers
  import opened Manifests

  /** The stored objects and the next identity to hand out. */
  datatype State = State(objects: map<Key, Obj>, nextUid: nat) {
    /** Identities are never shared and never handed out again. */
    ghost predicate Valid() {
      && nextUid > 0
      && (forall k | k in objects :: 0 < objects[k].uid < nextUid)
      && (forall k, l | k in objects && l in objects && objects[k].uid == objects[l].uid :: k == l)
    }
  }

  /** A resource that owns objects; they carry its labels. */
  datatype Owner = Owner(id: string, namespace: string, labels: map<string, string>)

  datatype Desired = Desired(key: Key, obj: Obj)

  predicate IsNamespaced(kind: Kind) {
    kind != ClusterRole && kind != ClusterRoleBinding
  }

  /** An object gets a controller only once, and only one from its own namespace. */
  predicate CanClaim(owner: Owner, d: Desired) {
    IsNamespaced(d.key.kind) ==>
      d.key.namespace == owner.namespace && (d.obj.controller == None || d.obj.controller == Some(owner.id))
  }

  function Claimed(owner: Owner, d: Desired): Obj {
    (if IsNamespaced(d.key.kind) then d.obj.(controller := Some(owner.id)) else d.obj).(uid := 0)
  }

  // ---------------------------------------------------------------- configuring the desired objects

  /** The object to start from: the stored one if there is one, otherwise the desired one. */
  function Found(s: State, owner: Owner, d: Desired): Obj {
    if d.key in s.objects then s.objects[d.key] else Claimed(owner, d)
  }

  function Attempt(s: State, owner: Owner, d: Desired, merge: Merge): Outcome {
    Mutation(d.key.kind, Found(s, owner, d), Claimed(owner, d), merge)
  }

  function Created(s: State, k: Key, o: Obj): State {
    State(s.objects[k := Defaulted(o).(uid := s.nextUid)], s.nextUid + 1)
  }

  function Updated(s: State, k: Key, o: Obj): State
    requires k in s.objects
  {
    s.(objects := s.objects[k := Defaulted(o).(uid := s.objects[k].uid)])
  }

  /** The cluster once the outcome for one key is carried out: the object is brought to its desired form, created, or
      deleted because it cannot be brought there. */
  function Applied(s: State, k: Key, outcome: Outcome): State {
    match outcome
    case Mutated(o) =>
      if k !in s.objects then Created(s, k, o)
      else if o == s.objects[k] then s
      else Updated(s, k, o)
    case Immutable => s.(objects := s.objects - {k})
    case Unsupported => s
  }

  function Configured(s: State, owner: Owner, d: Desired, merge: Merge): State {
    Applied(s, d.key, Attempt(s, owner, d, merge))
  }

  /** The identity the operator remembers for a desired object, even if it has just deleted it. */
  function Remembered(s: State, owner: Owner, d: Desired, merge: Merge): nat {
    if d.key in s.objects then s.objects[d.key].uid
    else if Attempt(s, owner, d, merge).Mutated? then s.nextUid
    else 0
  }

  function ConfiguredAll(s: State, owner: Owner, ds: seq<Desired>, merge: Merge): State {
    if ds == [] then s
    else Configured(ConfiguredAll(s, owner, ds[..|ds| - 1], merge), owner, ds[|ds| - 1], merge)
  }

  function RememberedAll(s: State, owner: Owner, ds: seq<Desired>, merge: Merge): set<nat> {
    if ds == [] then {}
    else
      var before := ds[..|ds| - 1];
      RememberedAll(s, owner, before, merge)
      + {Remembered(ConfiguredAll(s, owner, before, merge), owner, ds[|ds| - 1], merge)}
  }

  function Keys(ds: seq<Desired>): set<Key> {
    set i | 0 <= i < |ds| :: ds[i].key
  }

  /** Every object but the cluster-wide ones is the owner's; those keep the controller they ask for, if they do. */
  predicate IsControlled(owner: Owner, d: Desired, o: Obj) {
    && (d.key.kind != ClusterRole && d.key.kind != ClusterRoleBinding ==> o.controller == Some(owner.id))
    && (d.obj.controller.Some? ==> o.controller == d.obj.controller)
  }

  /** What is configured gets its controller. */
  lemma ConfiguredIsControlled(s: State, owner: Owner, d: Desired, merge: Merge)
    requires CanClaim(owner, d) && d.key.kind != OtherKind
    ensures d.key in Configured(s, owner, d, merge).objects ==>
              IsControlled(owner, d, Configured(s, owner, d, merge).objects[d.key])
  {
  }

  /** So does everything that is configured in turn. */
  lemma {:induction false} ConfiguredAllAreControlled(s: State, owner: Owner, ds: seq<Desired>, merge: Merge, i: nat)
    requires s.Valid() && i < |ds| && ds[i].key.kind != ClusterRole && ds[i].key.kind != ClusterRoleBinding
    requires forall j | 0 <= j < |ds| :: CanClaim(owner, ds[j]) && ds[j].key.kind != OtherKind
    ensures ds[i].key in ConfiguredAll(s, owner, ds, merge).objects ==>
              ConfiguredAll(s, owner, ds, merge).objects[ds[i].key].controller == Some(owner.id)
  {
    var before, d := ds[..|ds| - 1], ds[|ds| - 1];
    var s' := ConfiguredAll(s, owner, before, merge);
    if ds[i].key == d.key {
      ConfiguredIsControlled(s', owner, d, merge);
    } else {
      ConfiguredAllAreControlled(s, owner, before, merge, i);
      ConfiguredAllIsValid(s, owner, before, merge);
      ConfiguredIsValid(s', owner, d, merge);
    }
  }

  // ---------------------------------------------------------------- pruning

  predicate IsSearched(kind: Kind) {
    kind in {ConfigMap, Service, ServiceAccount, Deployment, StatefulSet, DaemonSet}
  }

  predicate Carries(labels: map<string, string>, wanted: map<string, string>) {
    forall l | l in wanted :: l in labels && labels[l] == wanted[l]
  }

  predicate IsOwned(s: State, owner: Owner, k: Key) {
    k in s.objects && IsSearched(k.kind) && k.namespace == owner.namespace && Carries(s.objects[k].labels, owner.labels)
  }

  /** The keys of the objects the search for owned objects finds. */
  function OwnedKeys(s: State, owner: Owner): set<Key> {
    set k | k in s.objects && IsOwned(s, owner, k)
  }

  /** The owned objects by identity. */
  ghost predicate IsSearchResult(s: State, owner: Owner, found: map<nat, Key>) {
    && (forall u | u in found :: IsOwned(s, owner, found[u]) && s.objects[found[u]].uid == u)
    && (forall k | IsOwned(s, owner, k) :: s.objects[k].uid in found)
  }

  function StaleKeys(s: State, owner: Owner, remembered: set<nat>): set<Key> {
    set k | k in s.objects && IsOwned(s, owner, k) && s.objects[k].uid !in remembered
  }

  /** One fault-free round: the desired objects are configured, then what was owned before it and is not remembered is
      deleted. */
  function Round(s: State, owner: Owner, ds: seq<Desired>, merge: Merge): State {
    var configured := ConfiguredAll(s, owner, ds, merge);
    configured.(objects := configured.objects - StaleKeys(s, owner, RememberedAll(s, owner, ds, merge)))
  }

  // ---------------------------------------------------------------- one desired object

  lemma ConfiguredIsValid(s: State, owner: Owner, d: Desired, merge: Merge)
    requires s.Valid()
    ensures Configured(s, owner, d, merge).Valid()
    ensures forall k | k != d.key :: (k in Configured(s, owner, d, merge).objects <==> k in s.objects)
                                     && (k in s.objects ==> Configured(s, owner, d, merge).objects[k] == s.objects[k])
    ensures d.key in s.objects && d.key in Configured(s, owner, d, merge).objects ==>
              Configured(s, owner, d, merge).objects[d.key].uid == s.objects[d.key].uid
    ensures d.key in Configured(s, owner, d, merge).objects ==>
              Configured(s, owner, d, merge).objects[d.key].uid == Remembered(s, owner, d, merge)
              || (Attempt(s, owner, d, merge).Unsupported? && d.key in s.objects)
  {
  }

  lemma {:induction false} ConfiguredAllIsValid(s: State, owner: Owner, ds: seq<Desired>, merge: Merge)
    requires s.Valid()
    ensures ConfiguredAll(s, owner, ds, merge).Valid()
    ensures s.nextUid <= ConfiguredAll(s, owner, ds, merge).nextUid
    ensures forall k | k !in Keys(ds) :: (k in ConfiguredAll(s, owner, ds, merge).objects <==> k in s.objects)
                                         && (k in s.objects ==>
                                            ConfiguredAll(s, owner, ds, merge).objects[k] == s.objects[k])
  {
    if ds != [] {
      var before, d := ds[..|ds| - 1], ds[|ds| - 1];
      ConfiguredAllIsValid(s, owner, before, merge);
      ConfiguredIsValid(ConfiguredAll(s, owner, before, merge), owner, d, merge);
      KeysOfLast(ds);
    }
  }

  lemma KeysOfLast(ds: seq<Desired>)
    requires ds != []
    ensures Keys(ds) == Keys(ds[..|ds| - 1]) + {ds[|ds| - 1].key}
  {
    var before, d := ds[..|ds| - 1], ds[|ds| - 1];
    forall k | k in Keys(ds) ensures k in Keys(before) + {d.key} {
      var i :| 0 <= i < |ds| && ds[i].key == k;
      assert i < |before| ==> before[i] == ds[i];
    }
    forall k | k in Keys(before) + {d.key} ensures k in Keys(ds) {
      if k != d.key {
        var i :| 0 <= i < |before| && before[i].key == k;
        assert ds[i] == before[i];
      }
    }
  }

  // ---------------------------------------------------------------- what pruning leaves alone

  /** An object that was there and is still desired is remembered under the identity it had. */
  lemma {:induction false} DesiredIsRemembered(s: State, owner: Owner, ds: seq<Desired>, merge: Merge, k: Key)
    requires s.Valid() && k in Keys(ds) && k in s.objects
    ensures s.objects[k].uid in RememberedAll(s, owner, ds, merge)
  {
    var before, d := ds[..|ds| - 1], ds[|ds| - 1];
    KeysOfLast(ds);
    if k in Keys(before) {
      DesiredIsRemembered(s, owner, before, merge, k);
    } else {
      ConfiguredAllIsValid(s, owner, before, merge);
    }
  }

  /** Nothing that is desired is pruned, neither the key nor the identity. */
  lemma NothingDesiredIsPruned(s: State, owner: Owner, ds: seq<Desired>, merge: Merge)
    requires s.Valid()
    ensures StaleKeys(s, owner, RememberedAll(s, owner, ds, merge)) == OwnedKeys(s, owner) - Keys(ds)
    ensures forall k | k in Keys(ds) && k in ConfiguredAll(s, owner, ds, merge).objects ::
              k in Round(s, owner, ds, merge).objects
              && Round(s, owner, ds, merge).objects[k] == ConfiguredAll(s, owner, ds, merge).objects[k]
  {
    forall k | k in Keys(ds) && k in s.objects
      ensures s.objects[k].uid in RememberedAll(s, owner, ds, merge)
    {
      DesiredIsRemembered(s, owner, ds, merge, k);
    }
    forall k | k in OwnedKeys(s, owner) && k !in Keys(ds)
      ensures s.objects[k].uid !in RememberedAll(s, owner, ds, merge)
    {
      UndesiredIsNotRemembered(s, owner, ds, merge, k);
    }
  }

  /** The identity of an object that is not desired is not among those remembered. */
  lemma {:induction false} UndesiredIsNotRemembered(s: State, owner: Owner, ds: seq<Desired>, merge: Merge, k: Key)
    requires s.Valid() && k !in Keys(ds) && k in s.objects
    ensures s.objects[k].uid !in RememberedAll(s, owner, ds, merge)
  {
    if ds != [] {
      var before := ds[..|ds| - 1];
      KeysOfLast(ds);
      UndesiredIsNotRemembered(s, owner, before, merge, k);
      ConfiguredAllIsValid(s, owner, before, merge);
    }
  }
}
