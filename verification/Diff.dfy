/** Differences between two keyed collections, the basis of every incremental update the allocator makes. */
module Diff {

  datatype Changes<+T> = Changes(additions: map<string, T>, removals: map<string, T>)

  /** Entry k of `next` is new, or carries another hash than the entry of the same key in `current`. */
  predicate Differs<T>(current: map<string, T>, next: map<string, T>, hash: T -> string, k: string)
    requires k in current && k in next
  {
    hash(current[k]) != hash(next[k])
  }

  /** What a caller obtains by first removing and then adding. */
  function Apply<T>(current: map<string, T>, changes: Changes<T>): map<string, T> {
    (current - changes.removals.Keys) + changes.additions
  }

  method Maps<T>(current: map<string, T>, next: map<string, T>, hash: T -> string) returns (changes: Changes<T>)
    ensures changes.additions ==
            map k | k in next && (k in current ==> Differs(current, next, hash, k)) :: next[k]
    ensures changes.removals ==
            map k | k in current && (k in next ==> Differs(current, next, hash, k)) :: current[k]
  {
    var additions: map<string, T> := map[];
    var removals: map<string, T> := map[];
    var rest := next.Keys;
    while rest != {}
      invariant rest <= next.Keys
      invariant additions ==
                map k | k in next && k !in rest && (k in current ==> Differs(current, next, hash, k)) :: next[k]
      invariant removals ==
                map k | k in current && k in next && k !in rest && Differs(current, next, hash, k) :: current[k]
    {
      var key :| key in rest;
      if key !in current {
        additions := additions[key := next[key]];
      } else if hash(current[key]) != hash(next[key]) {
        additions := additions[key := next[key]];
        removals := removals[key := current[key]];
      }
      rest := rest - {key};
    }
    rest := current.Keys;
    while rest != {}
      invariant rest <= current.Keys
      invariant removals ==
                map k | k in current && (if k in next then Differs(current, next, hash, k) else k !in rest) ::
                  current[k]
    {
      var key :| key in rest;
      if key !in next {
        removals := removals[key := current[key]];
      }
      rest := rest - {key};
    }
    changes := Changes(additions, removals);
  }

  /** Applying the difference yields the new key set, and every entry has the hash the new collection gives it.
      An entry of unchanged hash is kept, not replaced. */
  lemma ApplyingDifference<T>(current: map<string, T>, next: map<string, T>, hash: T -> string, changes: Changes<T>)
    requires changes.additions ==
             map k | k in next && (k in current ==> Differs(current, next, hash, k)) :: next[k]
    requires changes.removals ==
             map k | k in current && (k in next ==> Differs(current, next, hash, k)) :: current[k]
    ensures Apply(current, changes).Keys == next.Keys
    ensures forall k | k in next ::
              && hash(Apply(current, changes)[k]) == hash(next[k])
              && (k in current && !Differs(current, next, hash, k) ==> Apply(current, changes)[k] == current[k])
  {
    assert forall k | k in next :: k in Apply(current, changes);
  }

  /** The entries of `next`, those also in `current` in their current form. */
  function Merged<T>(current: map<string, T>, next: map<string, T>): map<string, T> {
    map k | k in next :: if k in current then current[k] else next[k]
  }

  /** Where every entry is filed under its own hash, the two parts are plain differences of key sets. */
  lemma DifferenceOfKeyed<T>(current: map<string, T>, next: map<string, T>, hash: T -> string, changes: Changes<T>)
    requires changes.additions ==
             map k | k in next && (k in current ==> Differs(current, next, hash, k)) :: next[k]
    requires changes.removals ==
             map k | k in current && (k in next ==> Differs(current, next, hash, k)) :: current[k]
    requires forall k | k in current :: hash(current[k]) == k
    requires forall k | k in next :: hash(next[k]) == k
    ensures changes.additions == map k | k in next && k !in current :: next[k]
    ensures changes.removals == map k | k in current && k !in next :: current[k]
  {
    forall k | k in current && k in next
      ensures !Differs(current, next, hash, k)
    {
    }
  }

  lemma MergedByDifference<T>(current: map<string, T>, next: map<string, T>, changes: Changes<T>)
    requires changes.additions == map k | k in next && k !in current :: next[k]
    requires changes.removals == map k | k in current && k !in next :: current[k]
    ensures Apply(current, changes) == Merged(current, next)
    ensures (changes.additions + current) - changes.removals.Keys == Merged(current, next)
  {
  }
}
