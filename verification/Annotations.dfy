/** The annotations that ask for instrumentation: what it means to select languages, and the mutations that bring it
    about. */
module Annotations {

  type Annotations = map<string, string>

  datatype Language = Java | NodeJS | Python | DotNet | Go

  const SUPPORTED := {Java, NodeJS, Python, DotNet}
  const TRUE := "true"

  const INJECT_PREFIX := "instrumentation.opentelemetry.io/inject-"
  const ANNOTATE_PREFIX := "cloudwatch.aws.amazon.com/auto-annotate-"

  function Name(l: Language): string {
    match l
    case Java => "java"
    case NodeJS => "nodejs"
    case Python => "python"
    case DotNet => "dotnet"
    case Go => "go"
  }

  function InjectKey(l: Language): string {
    INJECT_PREFIX + Name(l)
  }

  function AnnotateKey(l: Language): string {
    ANNOTATE_PREFIX + Name(l)
  }

  /** The keys in full. */
  lemma KeysInFull()
    ensures InjectKey(Java) == "instrumentation.opentelemetry.io/inject-" + "java"
    ensures InjectKey(Python) == "instrumentation.opentelemetry.io/inject-" + "python"
    ensures InjectKey(DotNet) == "instrumentation.opentelemetry.io/inject-" + "dotnet"
    ensures InjectKey(NodeJS) == "instrumentation.opentelemetry.io/inject-" + "nodejs"
    ensures AnnotateKey(Java) == "cloudwatch.aws.amazon.com/auto-annotate-" + "java"
    ensures AnnotateKey(Python) == "cloudwatch.aws.amazon.com/auto-annotate-" + "python"
    ensures AnnotateKey(DotNet) == "cloudwatch.aws.amazon.com/auto-annotate-" + "dotnet"
    ensures AnnotateKey(NodeJS) == "cloudwatch.aws.amazon.com/auto-annotate-" + "nodejs"
  {
  }

  function KeysOf(l: Language): set<string> {
    {InjectKey(l), AnnotateKey(l)}
  }

  lemma NamesDiffer(l: Language, m: Language)
    ensures Name(l) == Name(m) <==> l == m
  {
    assert Name(NodeJS)[0] == 'n' && Name(Python)[0] == 'p' && Name(DotNet)[0] == 'd';
    assert |Name(Java)| == 4 && |Name(Go)| == 2 && |Name(NodeJS)| == 6 && |Name(Python)| == 6 && |Name(DotNet)| == 6;
  }

  lemma PrefixedDiffer(p: string, s: string, t: string)
    ensures p + s == p + t <==> s == t
  {
    assert (p + s)[|p|..] == s && (p + t)[|p|..] == t;
  }

  /** No key belongs to two languages, and the two keys of a language differ. */
  lemma KeysDiffer(l: Language, m: Language)
    ensures l != m ==> KeysOf(l) !! KeysOf(m)
    ensures InjectKey(l) != AnnotateKey(m)
  {
    NamesDiffer(l, m);
    PrefixedDiffer(INJECT_PREFIX, Name(l), Name(m));
    PrefixedDiffer(ANNOTATE_PREFIX, Name(l), Name(m));
    assert InjectKey(l)[0] == 'i' && InjectKey(m)[0] == 'i' && AnnotateKey(l)[0] == 'c' && AnnotateKey(m)[0] == 'c';
  }

  // ---------------------------------------------------------------- what selecting languages means

  predicate HasBoth(a: Annotations, l: Language) {
    InjectKey(l) in a && AnnotateKey(l) in a
  }

  predicate IsKeyOf(k: string, l: Language) {
    k == InjectKey(l) || k == AnnotateKey(l)
  }

  lemma KeyOfOne(k: string, l: Language, m: Language)
    requires IsKeyOf(k, l) && l != m
    ensures !IsKeyOf(k, m)
  {
    KeysDiffer(l, m);
    assert k in KeysOf(l) && k !in KeysOf(m);
  }

  /** A selected language asks for its keys. */
  predicate IsAskedFor(all: set<Language>, selected: set<Language>, k: string) {
    exists l | l in all && l in selected :: IsKeyOf(k, l)
  }

  /** A language that is not selected loses its keys, if it has both. */
  predicate IsLost(a: Annotations, all: set<Language>, selected: set<Language>, k: string) {
    exists l | l in all && l !in selected :: IsKeyOf(k, l) && HasBoth(a, l)
  }

  function AllKeys(all: set<Language>): (keys: set<string>)
    ensures forall k :: k in keys <==> exists l | l in all :: IsKeyOf(k, l)
  {
    (set l | l in all :: InjectKey(l)) + (set l | l in all :: AnnotateKey(l))
  }

  predicate IsDeclared(a: Annotations, all: set<Language>, selected: set<Language>, k: string) {
    !IsLost(a, all, selected, k) && (k in a || IsAskedFor(all, selected, k))
  }

  /** The annotations after the languages `selected` out of `all` have been selected. */
  function Declared(a: Annotations, all: set<Language>, selected: set<Language>): (d: Annotations)
    ensures forall k :: k in d <==> IsDeclared(a, all, selected, k)
    ensures forall k | k in d :: d[k] == if k in a then a[k] else TRUE
  {
    map k | k in a.Keys + AllKeys(all) && IsDeclared(a, all, selected, k) :: if k in a then a[k] else TRUE
  }

  /** What differs between two sets of annotations that agree where both have a value: what is new and what is gone. */
  function Difference(before: Annotations, after: Annotations): (difference: Annotations)
    ensures forall k :: k in difference <==> (k in before <==> k !in after)
    ensures forall k | k in difference :: difference[k] == if k in before then before[k] else after[k]
  {
    (after - before.Keys) + (before - after.Keys)
  }

  // ---------------------------------------------------------------- laws

  /** Once selected out of `all`, exactly the selected languages have both keys. */
  lemma BothKeysMeansSelected(a: Annotations, all: set<Language>, selected: set<Language>, l: Language)
    requires l in all
    ensures HasBoth(Declared(a, all, selected), l) <==> l in selected
  {
    if l in selected {
      NotLost(a, all, selected, l, InjectKey(l));
      NotLost(a, all, selected, l, AnnotateKey(l));
    } else {
      NotAskedFor(all, selected, l, InjectKey(l));
      NotAskedFor(all, selected, l, AnnotateKey(l));
      if HasBoth(a, l) {
        assert IsLost(a, all, selected, InjectKey(l));
      }
    }
  }

  lemma NotLost(a: Annotations, all: set<Language>, selected: set<Language>, l: Language, k: string)
    requires l in selected && IsKeyOf(k, l)
    ensures !IsLost(a, all, selected, k)
  {
    forall m | m !in selected
      ensures !IsKeyOf(k, m)
    {
      KeyOfOne(k, l, m);
    }
  }

  lemma NotAskedFor(all: set<Language>, selected: set<Language>, l: Language, k: string)
    requires l !in selected && IsKeyOf(k, l)
    ensures !IsAskedFor(all, selected, k)
  {
    forall m | m in selected
      ensures !IsKeyOf(k, m)
    {
      KeyOfOne(k, l, m);
    }
  }

  /** Other keys are untouched, existing values are never overwritten, and one key on its own is left alone. */
  lemma OthersAreUntouched(a: Annotations, all: set<Language>, selected: set<Language>)
    ensures forall k | k !in AllKeys(all) :: k in Declared(a, all, selected) <==> k in a
    ensures forall k | k in a && k in Declared(a, all, selected) :: Declared(a, all, selected)[k] == a[k]
    ensures forall l, k | l in all && !HasBoth(a, l) && IsKeyOf(k, l) && k in a :: k in Declared(a, all, selected)
  {
    forall l, k | l in all && !HasBoth(a, l) && IsKeyOf(k, l) && k in a
      ensures k in Declared(a, all, selected)
    {
      forall m | HasBoth(a, m)
        ensures !IsKeyOf(k, m)
      {
        KeyOfOne(k, l, m);
      }
    }
  }

  /** Selecting the same languages again changes nothing. */
  lemma SelectingTwice(a: Annotations, all: set<Language>, selected: set<Language>)
    ensures Declared(Declared(a, all, selected), all, selected) == Declared(a, all, selected)
  {
    var d := Declared(a, all, selected);
    forall k | k in d
      ensures !IsLost(d, all, selected, k)
    {
      if l :| l in all && l !in selected && IsKeyOf(k, l) && HasBoth(d, l) {
        BothKeysMeansSelected(a, all, selected, l);
      }
    }
    forall k | IsAskedFor(all, selected, k)
      ensures k in d
    {
      var l :| l in all && l in selected && IsKeyOf(k, l);
      NotLost(a, all, selected, l, k);
    }
  }

  /** The difference is empty exactly when nothing changed. */
  lemma NoDifference(a: Annotations, all: set<Language>, selected: set<Language>)
    ensures Difference(a, Declared(a, all, selected)) == map[] <==> Declared(a, all, selected) == a
  {
    var d := Declared(a, all, selected);
    if Difference(a, d) == map[] {
      assert forall k | k in d && k !in a :: k in Difference(a, d);
      assert forall k | k in a && k !in d :: k in Difference(a, d);
    }
  }

  // ---------------------------------------------------------------- mutations

  datatype Mutation = Insert(insert: Annotations) | Remove(remove: seq<string>)

  function Keys(s: seq<string>): set<string> {
    set k | k in s
  }

  predicate HasAll(a: Annotations, keys: seq<string>) {
    forall k | k in keys :: k in a
  }

  function Mutated(m: Mutation, a: Annotations): Annotations {
    match m
    case Insert(insert) => insert + a
    case Remove(remove) => if HasAll(a, remove) then a - Keys(remove) else a
  }

  /** What a mutation reports to have changed. */
  function Reported(m: Mutation, a: Annotations): Annotations {
    match m
    case Insert(insert) => insert - a.Keys
    case Remove(remove) => if HasAll(a, remove) then a - (a.Keys - Keys(remove)) else map[]
  }

  function MutatedAll(ms: seq<Mutation>, a: Annotations): Annotations {
    if ms == [] then a else Mutated(ms[|ms| - 1], MutatedAll(ms[..|ms| - 1], a))
  }

  function ReportedAll(ms: seq<Mutation>, a: Annotations): Annotations {
    if ms == [] then map[]
    else
      var before := ms[..|ms| - 1];
      ReportedAll(before, a) + Reported(ms[|ms| - 1], MutatedAll(before, a))
  }

  function MutationFor(l: Language, selected: bool): Mutation {
    if selected then Insert(map[InjectKey(l) := TRUE, AnnotateKey(l) := TRUE])
      else Remove([InjectKey(l), AnnotateKey(l)])
  }

  /** A list of mutations brings about the selection of languages, on any annotations. */
  ghost predicate Selects(ms: seq<Mutation>, all: set<Language>, selected: set<Language>) {
    forall a: Annotations :: MutatedAll(ms, a) == Declared(a, all, selected)
                             && ReportedAll(ms, a) == Difference(a, Declared(a, all, selected))
  }

  lemma NoMutationsSelectNothing(selected: set<Language>)
    ensures Selects([], {}, selected)
  {
    forall a: Annotations
      ensures MutatedAll([], a) == Declared(a, {}, selected)
      ensures ReportedAll([], a) == Difference(a, Declared(a, {}, selected))
    {
      assert Declared(a, {}, selected) == a;
    }
  }

  lemma OwnKeyDeclared(a: Annotations, all: set<Language>, selected: set<Language>, l: Language, k: string)
    requires l !in all && IsKeyOf(k, l)
    ensures k in Declared(a, all, selected) <==> k in a
    ensures k in Declared(a, all + {l}, selected) <==> if l in selected then true else k in a && !HasBoth(a, l)
  {
    KeyOfNoOther(a, all, selected, l, k);
    assert l in all + {l};
    assert IsAskedFor(all + {l}, selected, k) <==> l in selected;
    assert IsLost(a, all + {l}, selected, k) <==> l !in selected && HasBoth(a, l);
  }

  lemma OtherKeyDeclared(a: Annotations, all: set<Language>, selected: set<Language>, l: Language, k: string)
    requires !IsKeyOf(k, l)
    ensures k in Declared(a, all + {l}, selected) <==> k in Declared(a, all, selected)
  {
    assert IsAskedFor(all + {l}, selected, k) <==> IsAskedFor(all, selected, k);
    assert IsLost(a, all + {l}, selected, k) <==> IsLost(a, all, selected, k);
  }

  lemma PairInserted(a: Annotations, d: Annotations, d': Annotations, x: string, y: string)
    requires forall k | k in d :: d[k] == if k in a then a[k] else TRUE
    requires forall k | k in d' :: d'[k] == if k in a then a[k] else TRUE
    requires (x in d <==> x in a) && (y in d <==> y in a) && x in d' && y in d'
    requires forall k | k != x && k != y :: k in d' <==> k in d
    ensures var m := Insert(map[x := TRUE, y := TRUE]);
            Mutated(m, d) == d' && Reported(m, d) == Difference(d, d')
  {
    var insert: Annotations := map[x := TRUE, y := TRUE];
    assert insert.Keys == {x, y};
    assert insert + d == d';
    assert insert - d.Keys == Difference(d, d');
  }

  lemma PairRemoved(a: Annotations, d: Annotations, d': Annotations, x: string, y: string)
    requires forall k | k in d :: d[k] == if k in a then a[k] else TRUE
    requires forall k | k in d' :: d'[k] == if k in a then a[k] else TRUE
    requires (x in d <==> x in a) && (y in d <==> y in a)
    requires (x in d' <==> x in a && y !in a) && (y in d' <==> y in a && x !in a)
    requires forall k | k != x && k != y :: k in d' <==> k in d
    ensures Mutated(Remove([x, y]), d) == d' && Reported(Remove([x, y]), d) == Difference(d, d')
  {
    assert [x, y][0] == x && [x, y][1] == y;
    assert HasAll(d, [x, y]) <==> x in d && y in d;
    assert Keys([x, y]) == {x, y};
    if HasAll(d, [x, y]) {
      assert d - {x, y} == d';
      assert d - (d.Keys - {x, y}) == Difference(d, d');
    } else {
      assert d == d';
      assert Difference(d, d') == map[];
    }
  }

  /** One more language, whichever it is, can be dealt with last. */
  lemma OneMoreDeclared(a: Annotations, all: set<Language>, selected: set<Language>, l: Language)
    requires l !in all
    ensures var m, d, d' := MutationFor(l, l in selected), Declared(a, all, selected), Declared(a, all + {l}, selected);
            Mutated(m, d) == d' && Reported(m, d) == Difference(d, d')
  {
    var d, d' := Declared(a, all, selected), Declared(a, all + {l}, selected);
    OwnKeyDeclared(a, all, selected, l, InjectKey(l));
    OwnKeyDeclared(a, all, selected, l, AnnotateKey(l));
    forall k | k != InjectKey(l) && k != AnnotateKey(l)
      ensures k in d' <==> k in d
    {
      OtherKeyDeclared(a, all, selected, l, k);
    }
    if l in selected {
      PairInserted(a, d, d', InjectKey(l), AnnotateKey(l));
    } else {
      PairRemoved(a, d, d', InjectKey(l), AnnotateKey(l));
    }
  }

  /** Reports add up: no key is reported by two languages. */
  lemma DifferencesAddUp(a: Annotations, all: set<Language>, selected: set<Language>, l: Language)
    requires l !in all
    ensures var d, d' := Declared(a, all, selected), Declared(a, all + {l}, selected);
            Difference(a, d) + Difference(d, d') == Difference(a, d')
  {
    var d, d' := Declared(a, all, selected), Declared(a, all + {l}, selected);
    OwnKeyDeclared(a, all, selected, l, InjectKey(l));
    OwnKeyDeclared(a, all, selected, l, AnnotateKey(l));
    forall k | k != InjectKey(l) && k != AnnotateKey(l)
      ensures k in d' <==> k in d
    {
      OtherKeyDeclared(a, all, selected, l, k);
    }
    AddUp(a, d, d', InjectKey(l), AnnotateKey(l));
  }

  lemma AddUp(a: Annotations, d: Annotations, d': Annotations, x: string, y: string)
    requires forall k | k in d :: d[k] == if k in a then a[k] else TRUE
    requires forall k | k in d' :: d'[k] == if k in a then a[k] else TRUE
    requires x in d <==> x in a
    requires y in d <==> y in a
    requires forall k | k != x && k != y :: k in d' <==> k in d
    ensures Difference(a, d) + Difference(d, d') == Difference(a, d')
  {
    forall k
      ensures k in Difference(a, d) + Difference(d, d') <==> k in Difference(a, d')
    {
      KeysAddUp(a, d, d', x, y, k);
    }
  }

  lemma KeysAddUp(a: Annotations, d: Annotations, d': Annotations, x: string, y: string, k: string)
    requires x in d <==> x in a
    requires y in d <==> y in a
    requires k != x && k != y ==> (k in d' <==> k in d)
    ensures k in Difference(a, d) + Difference(d, d') <==> k in Difference(a, d')
  {
  }

  lemma OneMoreMutation(ms: seq<Mutation>, all: set<Language>, selected: set<Language>, l: Language)
    requires Selects(ms, all, selected) && l !in all
    ensures Selects(ms + [MutationFor(l, l in selected)], all + {l}, selected)
  {
    var more := ms + [MutationFor(l, l in selected)];
    assert more[..|more| - 1] == ms;
    forall a: Annotations
      ensures MutatedAll(more, a) == Declared(a, all + {l}, selected)
      ensures ReportedAll(more, a) == Difference(a, Declared(a, all + {l}, selected))
    {
      assert MutatedAll(ms, a) == Declared(a, all, selected);
      OneMoreDeclared(a, all, selected, l);
      DifferencesAddUp(a, all, selected, l);
    }
  }

  lemma KeyOfNoOther(a: Annotations, all: set<Language>, selected: set<Language>, l: Language, k: string)
    requires l !in all && IsKeyOf(k, l)
    ensures forall m | m in all :: !IsKeyOf(k, m)
    ensures !IsAskedFor(all, selected, k) && !IsLost(a, all, selected, k)
  {
    forall m | m in all
      ensures !IsKeyOf(k, m)
    {
      KeyOfOne(k, l, m);
    }
  }
}
