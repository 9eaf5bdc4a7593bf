/** Repeated reconciliation rounds, without faults or other writers, lead any cluster to the desired objects. */
module Convergence {
  import opened Wrappers
  import opened Manifests
  import opened Cluster

  /** Desired objects as the operator builds them for one owner: no key twice, all of kinds it can handle and claim,
      all with the owner's labels. */
  ghost predicate WellFormed(owner: Owner, ds: seq<Desired>) {
    && (forall i, j | 0 <= i < j < |ds| :: ds[i].key != ds[j].key)
    && (forall i | 0 <= i < |ds| ::
          ds[i].key.kind != OtherKind && CanClaim(owner, ds[i]) && Carries(ds[i].obj.labels, owner.labels))
  }

  predicate MustBeReplaced(s: State, d: Desired) {
    d.key in s.objects && Conflicts(d.key.kind, s.objects[d.key], d.obj)
  }

  /** The object has what the desired one asks for, whatever else it has. */
  predicate HasContent(kind: Kind, o: Obj, want: Obj) {
    && Carries(o.labels, want.labels) && Carries(o.annotations, want.annotations)
    && (ReplacesMetadata(kind) ==> o.labels == want.labels && o.annotations == want.annotations)
    && (want.controller.Some? ==> o.controller == want.controller)
    && (HasFixedSelector(kind) ==> o.selector == want.selector)
    && (kind == Service ==> Carries(o.selector, want.selector))
    && (kind != ServiceAccount && kind != DaemonSet ==> o.replaced == want.replaced)
  }

  /** The object is there with the contents and the controller asked for, it carries the owner's labels, and nothing
      stands in the way of updating it. */
  predicate InPlace(s: State, owner: Owner, d: Desired) {
    && d.key in s.objects && !MustBeReplaced(s, d)
    && HasContent(d.key.kind, s.objects[d.key], d.obj) && IsControlled(owner, d, s.objects[d.key])
    && Carries(s.objects[d.key].labels, owner.labels)
  }

  /** Mutation leaves the object alone, or the server makes of it what it has stored already. */
  predicate UpToDate(s: State, owner: Owner, d: Desired, merge: Merge) {
    d.key in s.objects
    && var o := Result(d.key.kind, s.objects[d.key], Claimed(owner, d), merge);
       o == s.objects[d.key] || Defaulted(o) == s.objects[d.key]
  }

  predicate AllInPlace(s: State, owner: Owner, ds: seq<Desired>) {
    forall i | 0 <= i < |ds| :: InPlace(s, owner, ds[i])
  }

  predicate AllUpToDate(s: State, owner: Owner, ds: seq<Desired>, merge: Merge) {
    forall i | 0 <= i < |ds| :: UpToDate(s, owner, ds[i], merge)
  }

  /** The desired keys among the kinds that are searched for owned objects. */
  function SearchedKeys(ds: seq<Desired>): set<Key> {
    set i | 0 <= i < |ds| && IsSearched(ds[i].key.kind) :: ds[i].key
  }

  // ---------------------------------------------------------------- one desired object

  lemma CarriesOverlaid(labels: map<string, string>, more: map<string, string>, wanted: map<string, string>)
    requires Carries(more, wanted)
    ensures Carries(labels + more, wanted)
  {
  }

  lemma ResultHasContent(kind: Kind, existing: Obj, want: Obj, merge: Merge)
    ensures HasContent(kind, Result(kind, existing, want, merge), want)
  {
    CarriesOverlaid(existing.labels, want.labels, want.labels);
    CarriesOverlaid(existing.annotations, want.annotations, want.annotations);
    CarriesOverlaid(existing.selector, want.selector, want.selector);
  }

  lemma AfterConfiguring(s: State, owner: Owner, d: Desired, merge: Merge)
    requires s.Valid() && d.key.kind != OtherKind && CanClaim(owner, d) && Carries(d.obj.labels, owner.labels)
    ensures MustBeReplaced(s, d) ==> d.key !in Configured(s, owner, d, merge).objects
    ensures !MustBeReplaced(s, d) ==> InPlace(Configured(s, owner, d, merge), owner, d)
    ensures !MustBeReplaced(s, d) && Settles(merge) ==> UpToDate(Configured(s, owner, d, merge), owner, d, merge)
  {
    if !MustBeReplaced(s, d) {
      InPlaceAfterConfiguring(s, owner, d, merge);
      if Settles(merge) {
        UpToDateAfterConfiguring(s, owner, d, merge);
      }
    }
  }

  lemma InPlaceAfterConfiguring(s: State, owner: Owner, d: Desired, merge: Merge)
    requires s.Valid() && d.key.kind != OtherKind && CanClaim(owner, d) && Carries(d.obj.labels, owner.labels)
    requires !MustBeReplaced(s, d)
    ensures InPlace(Configured(s, owner, d, merge), owner, d)
  {
    var kind, found, want := d.key.kind, Found(s, owner, d), Claimed(owner, d);
    var uid := if d.key in s.objects then s.objects[d.key].uid else s.nextUid;
    ConfiguredIsControlled(s, owner, d, merge);
    ConfiguredIsStored(s, owner, d, merge);
    var stored := Configured(s, owner, d, merge).objects[d.key];
    StoredIsAsAsked(kind, found, want, merge, uid, stored, owner.labels);
    ClaimedContent(owner, d, stored);
  }

  /** What is stored of a mutated object, or was so already, has the contents asked for and can be mutated again. */
  lemma StoredIsAsAsked(kind: Kind, found: Obj, want: Obj, merge: Merge, uid: nat, stored: Obj,
                        labels: map<string, string>)
    requires Mutation(kind, found, want, merge).Mutated? && (found.uid == 0 ==> found == want)
    requires Carries(want.labels, labels)
    requires var o := Result(kind, found, want, merge);
             stored == Defaulted(o).(uid := uid) || stored == o == found
    ensures HasContent(kind, stored, want) && Carries(stored.labels, labels) && !Conflicts(kind, stored, want)
  {
    CarriesOverlaid(found.labels, want.labels, labels);
    ResultHasContent(kind, found, want, merge);
    StoredDoesNotConflict(kind, found, want, merge, uid);
    DefaultsAreNoContent(kind, Result(kind, found, want, merge), want, uid);
  }

  lemma DefaultsAreNoContent(kind: Kind, o: Obj, want: Obj, uid: nat)
    requires HasContent(kind, o, want)
    ensures HasContent(kind, Defaulted(o).(uid := uid), want) && Defaulted(o).(uid := uid).labels == o.labels
  {
  }

  /** Not counting the controller, the claimed object asks for what the desired one asks for. */
  lemma ClaimedContent(owner: Owner, d: Desired, o: Obj)
    requires CanClaim(owner, d)
    ensures HasContent(d.key.kind, o, Claimed(owner, d)) && IsControlled(owner, d, o) ==>
              HasContent(d.key.kind, o, d.obj)
    ensures Conflicts(d.key.kind, o, Claimed(owner, d)) <==> Conflicts(d.key.kind, o, d.obj)
  {
  }

  /** An object that is not replaced is stored as mutation makes it, but for what the server fills in; or it was so
      already. */
  lemma ConfiguredIsStored(s: State, owner: Owner, d: Desired, merge: Merge)
    requires s.Valid() && d.key.kind != OtherKind && !MustBeReplaced(s, d)
    ensures var o := Result(d.key.kind, Found(s, owner, d), Claimed(owner, d), merge);
            var uid := if d.key in s.objects then s.objects[d.key].uid else s.nextUid;
            && d.key in Configured(s, owner, d, merge).objects
            && var stored := Configured(s, owner, d, merge).objects[d.key];
               stored == Defaulted(o).(uid := uid) || (stored == o && d.key in s.objects && o == s.objects[d.key])
  {
  }

  lemma UpToDateAfterConfiguring(s: State, owner: Owner, d: Desired, merge: Merge)
    requires s.Valid() && d.key.kind != OtherKind && !MustBeReplaced(s, d) && Settles(merge)
    ensures UpToDate(Configured(s, owner, d, merge), owner, d, merge)
  {
    var kind, found, want := d.key.kind, Found(s, owner, d), Claimed(owner, d);
    var o := Result(kind, found, want, merge);
    var uid := if d.key in s.objects then s.objects[d.key].uid else s.nextUid;
    StoredIsSettled(kind, found, want, merge, uid);
    if !(d.key in s.objects && o == s.objects[d.key]) {
      assert Configured(s, owner, d, merge).objects[d.key] == Defaulted(o).(uid := uid);
    }
  }

  // ---------------------------------------------------------------- all desired objects

  lemma WellFormedPrefix(owner: Owner, ds: seq<Desired>)
    requires ds != [] && WellFormed(owner, ds)
    ensures WellFormed(owner, ds[..|ds| - 1]) && ds[|ds| - 1].key !in Keys(ds[..|ds| - 1])
  {
  }

  /** Configuring all deals with each on its own: an object that cannot be updated is gone, any other is in place. */
  lemma {:induction false} AfterConfiguringAll(s: State, owner: Owner, ds: seq<Desired>, merge: Merge, i: nat)
    requires s.Valid() && WellFormed(owner, ds) && i < |ds|
    ensures MustBeReplaced(s, ds[i]) ==> ds[i].key !in ConfiguredAll(s, owner, ds, merge).objects
    ensures !MustBeReplaced(s, ds[i]) ==> InPlace(ConfiguredAll(s, owner, ds, merge), owner, ds[i])
    ensures !MustBeReplaced(s, ds[i]) && Settles(merge) ==>
        UpToDate(ConfiguredAll(s, owner, ds, merge), owner, ds[i], merge)
  {
    var before, d := ds[..|ds| - 1], ds[|ds| - 1];
    var s' := ConfiguredAll(s, owner, before, merge);
    WellFormedPrefix(owner, ds);
    ConfiguredAllIsValid(s, owner, before, merge);
    if i == |ds| - 1 {
      AfterConfiguring(s', owner, d, merge);
    } else {
      AfterConfiguringAll(s, owner, before, merge, i);
      ConfiguredIsValid(s', owner, d, merge);
      assert before[i] == ds[i] && ds[i].key != d.key;
    }
  }

  /** The same objects as far as creating and deleting goes. */
  ghost predicate SameIdentities(s: State, s': State) {
    && s'.objects.Keys == s.objects.Keys && s'.nextUid == s.nextUid
    && forall k | k in s.objects :: s'.objects[k].uid == s.objects[k].uid
  }

  lemma ConfiguringOneInPlace(s: State, owner: Owner, d: Desired, merge: Merge)
    requires s.Valid() && d.key.kind != OtherKind && d.key in s.objects && !MustBeReplaced(s, d)
    ensures SameIdentities(s, Configured(s, owner, d, merge))
    ensures UpToDate(s, owner, d, merge) ==> Configured(s, owner, d, merge) == s
  {
    ConfiguredIsValid(s, owner, d, merge);
    assert s.objects[d.key := s.objects[d.key]] == s.objects;
  }

  /** With all objects in place, configuring them creates and deletes nothing. */
  lemma {:induction false} ConfiguringInPlace(s: State, owner: Owner, ds: seq<Desired>, merge: Merge)
    requires s.Valid() && WellFormed(owner, ds) && AllInPlace(s, owner, ds)
    ensures SameIdentities(s, ConfiguredAll(s, owner, ds, merge))
    ensures AllUpToDate(s, owner, ds, merge) ==> ConfiguredAll(s, owner, ds, merge) == s
  {
    if ds != [] {
      var before, d := ds[..|ds| - 1], ds[|ds| - 1];
      WellFormedPrefix(owner, ds);
      assert forall i | 0 <= i < |before| :: before[i] == ds[i];
      ConfiguringInPlace(s, owner, before, merge);
      var s' := ConfiguredAll(s, owner, before, merge);
      ConfiguredAllIsValid(s, owner, before, merge);
      assert InPlace(s, owner, d) && s'.objects[d.key] == s.objects[d.key];
      ConfiguringOneInPlace(s', owner, d, merge);
    }
  }

  // ---------------------------------------------------------------- rounds

  /** After one round the owner has no objects but desired ones, and exactly those that could not be updated are
      gone. */
  lemma AfterOneRound(s: State, owner: Owner, ds: seq<Desired>, merge: Merge)
    requires s.Valid() && WellFormed(owner, ds)
    ensures var s' := Round(s, owner, ds, merge);
            && s'.Valid()
            && OwnedKeys(s', owner) <= Keys(ds)
            && (forall i | 0 <= i < |ds| ::
                  if MustBeReplaced(s, ds[i]) then ds[i].key !in s'.objects else InPlace(s', owner, ds[i]))
            && (Settles(merge) ==> forall i | 0 <= i < |ds| ::
                  !MustBeReplaced(s, ds[i]) ==> UpToDate(s', owner, ds[i], merge))
  {
    var s', configured := Round(s, owner, ds, merge), ConfiguredAll(s, owner, ds, merge);
    ConfiguredAllIsValid(s, owner, ds, merge);
    NothingDesiredIsPruned(s, owner, ds, merge);
    forall i | 0 <= i < |ds|
      ensures if MustBeReplaced(s, ds[i]) then ds[i].key !in s'.objects else InPlace(s', owner, ds[i])
      ensures Settles(merge) && !MustBeReplaced(s, ds[i]) ==> UpToDate(s', owner, ds[i], merge)
    {
      AfterConfiguringAll(s, owner, ds, merge, i);
      assert ds[i].key in Keys(ds);
    }
  }

  lemma OwnedOnceInPlace(s: State, owner: Owner, ds: seq<Desired>)
    requires WellFormed(owner, ds) && AllInPlace(s, owner, ds) && OwnedKeys(s, owner) <= Keys(ds)
    ensures OwnedKeys(s, owner) == SearchedKeys(ds)
  {
    forall k | k in OwnedKeys(s, owner) ensures k in SearchedKeys(ds) {
      var i :| 0 <= i < |ds| && ds[i].key == k;
    }
    forall k | k in SearchedKeys(ds) ensures k in OwnedKeys(s, owner) {
      var i :| 0 <= i < |ds| && IsSearched(ds[i].key.kind) && ds[i].key == k;
      assert InPlace(s, owner, ds[i]) && CanClaim(owner, ds[i]);
    }
  }

  /** The owner's objects are all in place and are exactly the desired ones. */
  ghost predicate Converged(s: State, owner: Owner, ds: seq<Desired>) {
    s.Valid() && AllInPlace(s, owner, ds) && OwnedKeys(s, owner) == SearchedKeys(ds)
  }

  /** One round is enough if and only if no object has to be replaced. */
  lemma OneRoundConverges(s: State, owner: Owner, ds: seq<Desired>, merge: Merge)
    requires s.Valid() && WellFormed(owner, ds)
    ensures Converged(Round(s, owner, ds, merge), owner, ds) <==>
              forall i | 0 <= i < |ds| :: !MustBeReplaced(s, ds[i])
  {
    var s' := Round(s, owner, ds, merge);
    AfterOneRound(s, owner, ds, merge);
    if forall i | 0 <= i < |ds| :: !MustBeReplaced(s, ds[i]) {
      OwnedOnceInPlace(s', owner, ds);
    } else {
      var i :| 0 <= i < |ds| && MustBeReplaced(s, ds[i]);
      assert ds[i].key !in s'.objects && !InPlace(s', owner, ds[i]);
    }
  }

  /** Two rounds are enough for any cluster. */
  lemma TwoRoundsConverge(s: State, owner: Owner, ds: seq<Desired>, merge: Merge)
    requires s.Valid() && WellFormed(owner, ds)
    ensures Converged(Round(Round(s, owner, ds, merge), owner, ds, merge), owner, ds)
    ensures Settles(merge) ==> AllUpToDate(Round(Round(s, owner, ds, merge), owner, ds, merge), owner, ds, merge)
  {
    var s' := Round(s, owner, ds, merge);
    AfterOneRound(s, owner, ds, merge);
    assert forall i | 0 <= i < |ds| :: !MustBeReplaced(s', ds[i]);
    OneRoundConverges(s', owner, ds, merge);
    AfterOneRound(s', owner, ds, merge);
  }

  /** Once converged, a round creates and deletes nothing; if all is up to date as well, it changes nothing at all. */
  lemma ConvergedIsSteady(s: State, owner: Owner, ds: seq<Desired>, merge: Merge)
    requires WellFormed(owner, ds) && Converged(s, owner, ds)
    ensures var s' := Round(s, owner, ds, merge);
            && Converged(s', owner, ds)
            && SameIdentities(s, s')
            && (AllUpToDate(s, owner, ds, merge) ==> s' == s)
  {
    ConfiguringInPlace(s, owner, ds, merge);
    NothingIsPruned(s, owner, ds, merge);
    OneRoundConverges(s, owner, ds, merge);
  }

  lemma NothingIsPruned(s: State, owner: Owner, ds: seq<Desired>, merge: Merge)
    requires WellFormed(owner, ds) && Converged(s, owner, ds)
    ensures Round(s, owner, ds, merge) == ConfiguredAll(s, owner, ds, merge)
  {
    NothingDesiredIsPruned(s, owner, ds, merge);
    assert SearchedKeys(ds) <= Keys(ds);
    assert StaleKeys(s, owner, RememberedAll(s, owner, ds, merge)) == {};
    var objects := ConfiguredAll(s, owner, ds, merge).objects;
    assert objects - {} == objects;
  }

  function Rounds(s: State, owner: Owner, ds: seq<Desired>, merge: Merge, n: nat): State {
    if n == 0 then s else Round(Rounds(s, owner, ds, merge, n - 1), owner, ds, merge)
  }

  lemma OneMoreRound(two: State, s: State, owner: Owner, ds: seq<Desired>, merge: Merge)
    requires WellFormed(owner, ds) && Converged(s, owner, ds) && SameIdentities(two, s)
    ensures Converged(Round(s, owner, ds, merge), owner, ds) && SameIdentities(two, Round(s, owner, ds, merge))
    ensures s == two && AllUpToDate(two, owner, ds, merge) ==> Round(s, owner, ds, merge) == two
  {
    ConvergedIsSteady(s, owner, ds, merge);
  }

  lemma {:induction false} RoundsAfterConverging(s: State, owner: Owner, ds: seq<Desired>, merge: Merge, n: nat)
    requires WellFormed(owner, ds) && Converged(s, owner, ds)
    ensures Converged(Rounds(s, owner, ds, merge, n), owner, ds) && SameIdentities(s, Rounds(s, owner, ds, merge, n))
    ensures Settles(merge) && AllUpToDate(s, owner, ds, merge) ==> Rounds(s, owner, ds, merge, n) == s
  {
    if n > 0 {
      RoundsAfterConverging(s, owner, ds, merge, n - 1);
      OneMoreRound(s, Rounds(s, owner, ds, merge, n - 1), owner, ds, merge);
    }
  }

  /** From any cluster, after two rounds and whatever number of rounds more, the owner's objects are exactly the desired
      ones, and no object is created, deleted or replaced any more; with a merge that settles, nothing changes. */
  lemma Convergence(s: State, owner: Owner, ds: seq<Desired>, merge: Merge, n: nat)
    requires s.Valid() && WellFormed(owner, ds)
    ensures var two := Round(Round(s, owner, ds, merge), owner, ds, merge);
            && Converged(Rounds(two, owner, ds, merge, n), owner, ds)
            && SameIdentities(two, Rounds(two, owner, ds, merge, n))
            && (Settles(merge) ==> Rounds(two, owner, ds, merge, n) == two)
  {
    TwoRoundsConverge(s, owner, ds, merge);
    RoundsAfterConverging(Round(Round(s, owner, ds, merge), owner, ds, merge), owner, ds, merge, n);
  }

  /** The claims are those asked for, up to volume modes. */
  predicate HasClaims(kind: Kind, o: Obj, want: Obj) {
    var claims := NewClaims(kind, o, want);
    claims == o.claims || Defaulted(o.(claims := claims)) == o
  }

  /** Exactly when an object is up to date: it has the contents and the controller asked for, the merge has nothing left
      to do, and its claims are those asked for. */
  lemma UpToDateExactly(s: State, owner: Owner, d: Desired, merge: Merge)
    requires d.key in s.objects && CanClaim(owner, d)
    ensures UpToDate(s, owner, d, merge) <==>
              && HasContent(d.key.kind, s.objects[d.key], d.obj) && IsControlled(owner, d, s.objects[d.key])
              && (HasFixedSelector(d.key.kind) ==>
                    merge(s.objects[d.key].merged, d.obj.merged) == s.objects[d.key].merged)
              && HasClaims(d.key.kind, s.objects[d.key], d.obj)
  {
    var kind, o, want := d.key.kind, s.objects[d.key], Claimed(owner, d);
    OverlaidIsSame(o.labels, want.labels);
    OverlaidIsSame(o.annotations, want.annotations);
    OverlaidIsSame(o.selector, want.selector);
    var result := Result(kind, o, want, merge);
    assert result.(claims := o.claims) == o <==>
        HasContent(kind, o, want) && (HasFixedSelector(kind) ==> merge(o.merged, want.merged) == o.merged);
  }

  lemma OverlaidIsSame(m: map<string, string>, more: map<string, string>)
    ensures m + more == m <==> Carries(m, more)
  {
    assert m + more == m ==> forall k | k in more :: (m + more)[k] == more[k];
  }

  // ---------------------------------------------------------------- objects of others

  /** Of the objects that are not desired a round deletes exactly those the search takes for the owner's; the others it
      does not touch. */
  lemma SurvivesRound(s: State, owner: Owner, ds: seq<Desired>, merge: Merge, k: Key)
    requires s.Valid() && k in s.objects && k !in Keys(ds)
    ensures var s' := Round(s, owner, ds, merge);
            && (k in s'.objects <==> !IsOwned(s, owner, k))
            && (k in s'.objects ==> s'.objects[k] == s.objects[k])
  {
    NothingDesiredIsPruned(s, owner, ds, merge);
    ConfiguredAllIsValid(s, owner, ds, merge);
  }

  /** The search knows owners by their labels alone: what only another owner desires survives a round if and only if it
      is in another namespace or does not carry this owner's labels. */
  lemma SharedLabelsPrune(s: State, owner: Owner, other: Owner, ds: seq<Desired>, merge: Merge, k: Key)
    requires s.Valid() && IsOwned(s, other, k) && k !in Keys(ds)
    ensures k in Round(s, owner, ds, merge).objects <==>
              owner.namespace != other.namespace || !Carries(s.objects[k].labels, owner.labels)
    ensures owner.namespace == other.namespace && owner.labels == other.labels ==>
        k !in Round(s, owner, ds, merge).objects
  {
    SurvivesRound(s, owner, ds, merge, k);
  }
}
