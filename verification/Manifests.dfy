/** Kubernetes objects as the operator writes them, and how a live object is brought to its desired form. */
module Manifests {
  import opened Wrappers

  datatype Kind =
    | ConfigMap | Service | ServiceAccount | Deployment | DaemonSet | StatefulSet
    | Secret | Role | RoleBinding | ClusterRole | ClusterRoleBinding
    | HorizontalPodAutoscaler | PodDisruptionBudget | Ingress | Route | ServiceMonitor | PodMonitor
    | OtherKind

  datatype Key = Key(kind: Kind, namespace: string, name: string)

  /** A volume claim template; `rest` is what is copied without being compared. */
  datatype Claim = Claim(name: string, annotations: map<string, string>, spec: string, volumeMode: Option<string>,
      rest: string)

  /** An object. Its `uid` is 0 until the server has created it. The fields of its specification that the operator
      replaces and those it merges are kept apart; which they are depends on the kind. */
  datatype Obj = Obj(
    uid: nat, labels: map<string, string>, annotations: map<string, string>, controller: Option<string>,
    selector: map<string, string>, claims: seq<Claim>, replaced: string, merged: string)

  /** The deep merge of specifications, which lets the second argument win; the library's own business. */
  type Merge = (string, string) -> string

  datatype Outcome = Mutated(obj: Obj) | Immutable | Unsupported

  /** Kinds whose labels and annotations are replaced rather than merged. */
  predicate ReplacesMetadata(kind: Kind) {
    kind != ConfigMap && kind != Service && kind != Deployment && kind != DaemonSet && kind != StatefulSet
  }

  predicate HasFixedSelector(kind: Kind) {
    kind == Deployment || kind == DaemonSet || kind == StatefulSet
  }

  predicate IsUnset(mode: Option<string>) {
    mode == None || mode == Some("")
  }

  // ---------------------------------------------------------------- what mutation means

  /** A desired claim with the volume mode the server filled in. */
  function Adopted(desired: Claim, existing: Claim): Claim {
    if IsUnset(desired.volumeMode) then desired.(volumeMode := existing.volumeMode) else desired
  }

  predicate SameClaim(desired: Claim, existing: Claim) {
    desired.name == existing.name && desired.annotations == existing.annotations
    && desired.spec == existing.spec && desired.volumeMode == existing.volumeMode
  }

  predicate SameClaims(desired: seq<Claim>, existing: seq<Claim>) {
    |desired| == |existing| && forall i | 0 <= i < |desired| :: SameClaim(Adopted(desired[i], existing[i]), existing[i])
  }

  function AdoptedClaims(desired: seq<Claim>, existing: seq<Claim>): (adopted: seq<Claim>)
    requires |desired| == |existing|
    ensures |adopted| == |desired|
  {
    seq(|desired|, i requires 0 <= i < |desired| => Adopted(desired[i], existing[i]))
  }

  /** An object that exists already cannot become the desired one. */
  predicate Conflicts(kind: Kind, existing: Obj, desired: Obj) {
    existing.uid != 0 && HasFixedSelector(kind)
    && (existing.selector != desired.selector || (kind == StatefulSet && !SameClaims(desired.claims, existing.claims)))
  }

  function NewSelector(kind: Kind, existing: Obj, desired: Obj): map<string, string> {
    if kind == Service then existing.selector + desired.selector
    else if HasFixedSelector(kind) then desired.selector
    else existing.selector
  }

  function NewClaims(kind: Kind, existing: Obj, desired: Obj): seq<Claim> {
    if kind != StatefulSet || |desired.claims| != |existing.claims| then existing.claims
    else if existing.uid == 0 then desired.claims
    else AdoptedClaims(desired.claims, existing.claims)
  }

  /** The desired claims once they have been compared. */
  function Filled(kind: Kind, existing: Obj, desired: Obj): seq<Claim> {
    if kind == StatefulSet && existing.uid != 0 && |desired.claims| == |existing.claims|
    then AdoptedClaims(desired.claims, existing.claims) else desired.claims
  }

  /** The object after mutation: what the desired one asks for, with the identity of the existing one. */
  function Result(kind: Kind, existing: Obj, desired: Obj, merge: Merge): Obj {
    Obj(existing.uid,
        if ReplacesMetadata(kind) then desired.labels else existing.labels + desired.labels,
        if ReplacesMetadata(kind) then desired.annotations else existing.annotations + desired.annotations,
        if desired.controller.Some? then desired.controller else existing.controller,
        NewSelector(kind, existing, desired),
        NewClaims(kind, existing, desired),
        if kind == ServiceAccount || kind == DaemonSet then existing.replaced else desired.replaced,
        if HasFixedSelector(kind) then merge(existing.merged, desired.merged) else existing.merged)
  }

  function Mutation(kind: Kind, existing: Obj, desired: Obj, merge: Merge): Outcome {
    if kind == OtherKind then Unsupported
    else if Conflicts(kind, existing, desired) then Immutable
    else Mutated(Result(kind, existing, desired, merge))
  }

  /** Kind by kind: five merge labels and annotations, the others replace them; three have a selector that is set once
      and a specification that is merged; a service adds to its selector. All keep their identity. */
  lemma ResultByKind(kind: Kind, existing: Obj, desired: Obj, merge: Merge)
    ensures var o := Result(kind, existing, desired, merge);
            && o.uid == existing.uid
            && o.controller == (if desired.controller == None then existing.controller else desired.controller)
            && (kind in {ConfigMap, Service, Deployment, DaemonSet, StatefulSet} ==>
                  && o.labels == existing.labels + desired.labels
                  && o.annotations == existing.annotations + desired.annotations)
            && (kind !in {ConfigMap, Service, Deployment, DaemonSet, StatefulSet} ==>
                  o.labels == desired.labels && o.annotations == desired.annotations)
            && (kind in {Deployment, DaemonSet, StatefulSet} ==>
                  o.selector == desired.selector && o.merged == merge(existing.merged, desired.merged))
            && (kind == Service ==> o.selector == existing.selector + desired.selector)
            && (kind !in {Deployment, DaemonSet, StatefulSet} ==> o.merged == existing.merged)
            && (kind !in {Deployment, DaemonSet, StatefulSet, Service} ==> o.selector == existing.selector)
            && (kind !in {ServiceAccount, DaemonSet} ==> o.replaced == desired.replaced)
            && (kind in {ServiceAccount, DaemonSet} ==> o.replaced == existing.replaced)
  {
  }

  /** Two claims differ: in name, annotations or specification, or in a volume mode that is asked for. */
  predicate ClaimsDiffer(desired: Claim, existing: Claim) {
    || desired.name != existing.name || desired.annotations != existing.annotations || desired.spec != existing.spec
    || (desired.volumeMode != None && desired.volumeMode != Some("") && desired.volumeMode != existing.volumeMode)
  }

  /** An object conflicts if it exists and its selector would change, or else the claims of a stateful set. */
  lemma ConflictsExactly(kind: Kind, existing: Obj, desired: Obj)
    ensures Conflicts(kind, existing, desired) <==>
              && existing.uid != 0 && kind in {Deployment, DaemonSet, StatefulSet}
              && (|| existing.selector != desired.selector
                  || (kind == StatefulSet && |desired.claims| != |existing.claims|)
                  || (kind == StatefulSet
                      && exists i | 0 <= i < |desired.claims| :: ClaimsDiffer(desired.claims[i], existing.claims[i])))
  {
    forall i | 0 <= i < |desired.claims| && |desired.claims| == |existing.claims|
      ensures ClaimsDiffer(desired.claims[i], existing.claims[i]) <==>
                !SameClaim(Adopted(desired.claims[i], existing.claims[i]), existing.claims[i])
    {
    }
  }

  // ---------------------------------------------------------------- mutation in place

  /** An object in the operator's memory. */
  class Manifest {
    var uid: nat
    var labels: map<string, string>
    var annotations: map<string, string>
    var controller: Option<string>
    var selector: map<string, string>
    var claims: seq<Claim>
    var replaced: string
    var merged: string

    function Value(): Obj
      reads this
    {
      Obj(uid, labels, annotations, controller, selector, claims, replaced, merged)
    }

    constructor (o: Obj)
      ensures Value() == o
    {
      uid, labels, annotations, controller := o.uid, o.labels, o.annotations, o.controller;
      selector, claims, replaced, merged := o.selector, o.claims, o.replaced, o.merged;
    }

    /** The copy read from the server takes the place of what was there. */
    method Hydrate(o: Obj)
      modifies this
      ensures Value() == o
    {
      uid, labels, annotations, controller := o.uid, o.labels, o.annotations, o.controller;
      selector, claims, replaced, merged := o.selector, o.claims, o.replaced, o.merged;
    }

    /** Brings this object to its desired form. The desired object may have volume modes filled in on the way. */
    method Mutate(kind: Kind, desired: Manifest, merge: Merge) returns (outcome: Outcome)
      requires desired != this
      requires uid == 0 ==> |claims| == |desired.claims|
      modifies this, desired`claims
      ensures uid == old(uid)
      ensures outcome == Mutation(kind, old(Value()), old(desired.Value()), merge)
      ensures outcome.Mutated? ==> Value() == outcome.obj
      ensures outcome.Mutated? ==> desired.claims == Filled(kind, old(Value()), old(desired.Value()))
    {
      ghost var before := Value();
      MergeMetadata(desired);
      outcome := MutateSpecification(kind, desired, merge, before);
    }

    method MutateSpecification(kind: Kind, desired: Manifest, merge: Merge, ghost before: Obj)
        returns (outcome: Outcome)
      requires desired != this
      requires uid == 0 ==> |claims| == |desired.claims|
      requires Value() == before.(labels := before.labels + desired.labels,
                                  annotations := before.annotations + desired.annotations,
                                  controller := if desired.controller.Some? then desired.controller
                                    else before.controller)
      modifies this, desired`claims
      ensures uid == old(uid)
      ensures outcome == Mutation(kind, before, old(desired.Value()), merge)
      ensures outcome.Mutated? ==>
          Value() == outcome.obj && desired.claims == Filled(kind, before, old(desired.Value()))
    {
      if HasFixedSelector(kind) {
        var changed := MutateWorkload(kind, desired, merge);
        outcome := if changed then Immutable else Mutated(Value());
        return;
      }
      if kind == OtherKind {
        return Unsupported;
      }
      MutateOther(kind, desired, merge, before);
      outcome := Mutated(Value());
    }

    /** The kinds that can always be brought to their desired form. */
    method MutateOther(kind: Kind, desired: Manifest, ghost merge: Merge, ghost before: Obj)
      requires desired != this && kind != OtherKind && !HasFixedSelector(kind)
      requires Value() == before.(labels := before.labels + desired.labels,
                                  annotations := before.annotations + desired.annotations,
                                  controller := if desired.controller.Some? then desired.controller
                                    else before.controller)
      modifies this`selector, this`annotations, this`labels, this`replaced
      ensures Value() == Result(kind, before, desired.Value(), merge)
    {
      if kind == Service {
        selector := selector + desired.selector;
      }
      if ReplacesMetadata(kind) {
        annotations, labels := desired.annotations, desired.labels;
      }
      if kind != ServiceAccount {
        replaced := desired.replaced;
      }
      assert selector == NewSelector(kind, before, desired.Value())
          && claims == NewClaims(kind, before, desired.Value());
      assert ReplacesMetadata(kind) || (labels == before.labels + desired.labels
                                        && annotations == before.annotations + desired.annotations);
    }

    method MergeMetadata(desired: Manifest)
      modifies this`labels, this`annotations, this`controller
      ensures annotations == old(annotations) + old(desired.annotations) && labels == old(labels) + old(desired.labels)
      ensures controller == if desired.controller.Some? then desired.controller else old(controller)
    {
      annotations := annotations + desired.annotations;
      labels := labels + desired.labels;
      if desired.controller.Some? {
        controller := desired.controller;
      }
    }

    method MutateWorkload(kind: Kind, desired: Manifest, merge: Merge) returns (changed: bool)
      requires desired != this && HasFixedSelector(kind)
      requires uid == 0 ==> |claims| == |desired.claims|
      modifies this`selector, this`claims, this`replaced, this`merged, desired`claims
      ensures changed <==> Conflicts(kind, old(Value()), old(desired.Value()))
      ensures !changed ==> selector == desired.selector && merged == merge(old(merged), desired.merged)
                           && replaced == (if kind == DaemonSet then old(replaced) else desired.replaced)
                           && claims == NewClaims(kind, old(Value()), old(desired.Value()))
                           && desired.claims == Filled(kind, old(Value()), old(desired.Value()))
    {
      if kind == StatefulSet {
        changed := MutateStatefulSet(desired, merge);
        return;
      }
      if uid != 0 && desired.selector != selector {
        return true;
      }
      if uid == 0 {
        selector := desired.selector;
      }
      if kind == Deployment {
        replaced := desired.replaced;
      }
      merged := merge(merged, desired.merged);
      changed := false;
    }

    method MutateStatefulSet(desired: Manifest, merge: Merge) returns (changed: bool)
      requires desired != this
      requires uid == 0 ==> |claims| == |desired.claims|
      modifies this`selector, this`claims, this`replaced, this`merged, desired`claims
      ensures changed <==> Conflicts(StatefulSet, old(Value()), old(desired.Value()))
      ensures !changed ==> selector == desired.selector && replaced == desired.replaced
                           && merged == merge(old(merged), desired.merged)
                           && claims == NewClaims(StatefulSet, old(Value()), old(desired.Value()))
                           && desired.claims == Filled(StatefulSet, old(Value()), old(desired.Value()))
    {
      changed := HasImmutableFieldChange(desired);
      if changed {
        return;
      }
      if uid == 0 {
        selector := desired.selector;
      }
      replaced := desired.replaced;
      ghost var wanted := desired.claims;
      for i := 0 to |claims|
        modifies this`claims
        invariant |claims| == |wanted| && desired.claims == wanted
        invariant claims[..i] == wanted[..i]
      {
        claims := claims[i := desired.claims[i]];
        assert claims[..i + 1] == claims[..i] + [claims[i]] && wanted[..i + 1] == wanted[..i] + [wanted[i]];
      }
      assert claims[..|claims|] == claims && wanted[..|wanted|] == wanted;
      merged := merge(merged, desired.merged);
    }

    method HasImmutableFieldChange(desired: Manifest) returns (changed: bool)
      requires desired != this
      modifies desired`claims
      ensures changed <==> Conflicts(StatefulSet, Value(), old(desired.Value()))
      ensures uid == 0 ==> desired.claims == old(desired.claims)
      ensures uid != 0 && !changed ==> |desired.claims| == |old(desired.claims)| == |claims|
                                       && desired.claims == AdoptedClaims(old(desired.claims), claims)
    {
      if uid == 0 {
        return false;
      }
      if desired.selector != selector {
        return true;
      }
      changed := HasVolumeClaimsTemplatesChanged(desired);
    }

    /** Compares claim by claim, filling in the volume modes the server chose. */
    method HasVolumeClaimsTemplatesChanged(desired: Manifest) returns (changed: bool)
      requires desired != this
      modifies desired`claims
      ensures changed <==> !SameClaims(old(desired.claims), claims)
      ensures !changed ==>
                |old(desired.claims)| == |claims| && desired.claims == AdoptedClaims(old(desired.claims), claims)
    {
      if |desired.claims| != |claims| {
        return true;
      }
      ghost var wanted := desired.claims;
      for i := 0 to |claims|
        invariant |desired.claims| == |wanted|
        invariant forall j | 0 <= j < i ::
                    desired.claims[j] == Adopted(wanted[j], claims[j]) && SameClaim(desired.claims[j], claims[j])
        invariant forall j | i <= j < |wanted| :: desired.claims[j] == wanted[j]
      {
        if IsUnset(desired.claims[i].volumeMode) {
          desired.claims := desired.claims[i := desired.claims[i].(volumeMode := claims[i].volumeMode)];
        }
        assert desired.claims[i] == Adopted(wanted[i], claims[i]);
        if !SameClaim(desired.claims[i], claims[i]) {
          return true;
        }
      }
      assert desired.claims == AdoptedClaims(wanted, claims);
      return false;
    }
  }

  // ---------------------------------------------------------------- laws of mutation

  /** A merge that has nothing to do the second time. */
  ghost predicate Settles(merge: Merge) {
    forall a, b :: merge(merge(a, b), b) == merge(a, b)
  }

  /** What the server adds to what it stores: volume modes left open. */
  function Defaulted(o: Obj): (stored: Obj)
    ensures stored == o.(claims := stored.claims) && |stored.claims| == |o.claims|
  {
    o.(claims := seq(|o.claims|, i requires 0 <= i < |o.claims| =>
      if o.claims[i].volumeMode == None then o.claims[i].(volumeMode := Some("Filesystem")) else o.claims[i]))
  }

  /** Volume modes filled in by an earlier attempt make no difference to a later one. */
  lemma FilledMakesNoDifference(kind: Kind, existing: Obj, desired: Obj, merge: Merge)
    ensures var filled := desired.(claims := Filled(kind, existing, desired));
            Mutation(kind, existing, filled, merge) == Mutation(kind, existing, desired, merge)
  {
    var filled := desired.(claims := Filled(kind, existing, desired));
    if |desired.claims| == |existing.claims| {
      assert forall i | 0 <= i < |desired.claims| ::
          Adopted(Adopted(desired.claims[i], existing.claims[i]), existing.claims[i]) ==
            Adopted(desired.claims[i], existing.claims[i]);
      assert AdoptedClaims(filled.claims, existing.claims) == AdoptedClaims(desired.claims, existing.claims);
    }
  }

  /** What the server has stored does not conflict with what it was made from, defaults included. */
  lemma StoredDoesNotConflict(kind: Kind, existing: Obj, desired: Obj, merge: Merge, uid: nat)
    requires Mutation(kind, existing, desired, merge).Mutated?
    requires existing.uid == 0 ==> existing == desired
    ensures !Conflicts(kind, Defaulted(Result(kind, existing, desired, merge)).(uid := uid), desired)
  {
    var claims := NewClaims(kind, existing, desired);
    var stored := Defaulted(Result(kind, existing, desired, merge)).claims;
    if kind == StatefulSet {
      assert |stored| == |desired.claims|;
      assert forall i | 0 <= i < |stored| :: SameClaim(Adopted(desired.claims[i], stored[i]), stored[i]);
    }
  }

  /** Mutating what was stored gives what was stored, if the merge settles. */
  lemma StoredIsSettled(kind: Kind, existing: Obj, desired: Obj, merge: Merge, uid: nat)
    requires Mutation(kind, existing, desired, merge).Mutated? && Settles(merge)
    requires existing.uid == 0 ==> existing == desired
    requires uid != 0
    ensures var stored := Defaulted(Result(kind, existing, desired, merge)).(uid := uid);
            Defaulted(Result(kind, stored, desired, merge)) == stored
  {
    var stored := Defaulted(Result(kind, existing, desired, merge)).(uid := uid);
    var again := Result(kind, stored, desired, merge);
    assert (existing.labels + desired.labels) + desired.labels == existing.labels + desired.labels;
    assert (existing.annotations + desired.annotations) + desired.annotations == existing.annotations
        + desired.annotations;
    assert (existing.selector + desired.selector) + desired.selector == existing.selector + desired.selector;
    assert Defaulted(again).claims == stored.claims;
  }
}
