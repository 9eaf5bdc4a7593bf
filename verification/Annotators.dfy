/** The two implementations that annotate workloads and namespaces: one looks a list of mutations up by the name of the
    object, the other goes through the languages selected for it. */
module Annotators {
  import opened Wrappers
  import opened Annotations

  datatype Kind = Namespace | Deployment | DaemonSet | StatefulSet | OtherKind

  /** The names for which one language is configured. */
  datatype Resources = Resources(namespaces: seq<string>, deployments: seq<string>, daemonSets: seq<string>,
      statefulSets: seq<string>)

  datatype Config = Config(java: Resources, python: Resources, dotNet: Resources, nodeJS: Resources)

  function ResourcesOf(cfg: Config, l: Language): Resources {
    match l
    case Java => cfg.java
    case Python => cfg.python
    case DotNet => cfg.dotNet
    case NodeJS => cfg.nodeJS
    case Go => Resources([], [], [], [])
  }

  function NamesOf(r: Resources, kind: Kind): seq<string> {
    match kind
    case Namespace => r.namespaces
    case Deployment => r.deployments
    case DaemonSet => r.daemonSets
    case StatefulSet => r.statefulSets
    case OtherKind => []
  }

  /** A namespace or a workload; the annotations and labels of a workload are those of its pod template. */
  class Object {
    const kind: Kind
    const namespace: string
    const name: string
    const labels: map<string, string>
    var annotations: Annotations

    constructor (kind: Kind, namespace: string, name: string, labels: map<string, string>, annotations: Annotations)
      ensures this.kind == kind && this.namespace == namespace && this.name == name && this.labels == labels
      ensures this.annotations == annotations
    {
      this.kind, this.namespace, this.name, this.labels := kind, namespace, name, labels;
      this.annotations := annotations;
    }

    function FullName(): string {
      if kind == Namespace then name else namespace + "/" + name
    }

    function TemplateLabels(): map<string, string> {
      if kind == Deployment || kind == StatefulSet || kind == DaemonSet then labels else map[]
    }
  }

  /** The configuration of a language has the name in the list of the kind. */
  predicate Names(cfg: Config, l: Language, kind: Kind, name: string) {
    || (l == Java && IsIn(cfg.java, kind, name)) || (l == Python && IsIn(cfg.python, kind, name))
    || (l == DotNet && IsIn(cfg.dotNet, kind, name)) || (l == NodeJS && IsIn(cfg.nodeJS, kind, name))
  }

  predicate IsIn(r: Resources, kind: Kind, name: string) {
    || (kind == Namespace && name in r.namespaces) || (kind == Deployment && name in r.deployments)
    || (kind == DaemonSet && name in r.daemonSets) || (kind == StatefulSet && name in r.statefulSets)
  }

  /** The configuration of a language has the object: a namespace by its name, a workload by its namespace and name. */
  predicate NamesObject(cfg: Config, l: Language, o: Object) {
    Names(cfg, l, o.kind, if o.kind == Namespace then o.name else o.namespace + "/" + o.name)
  }

  lemma NamesExactly(cfg: Config, l: Language, kind: Kind, name: string)
    ensures Names(cfg, l, kind, name) <==> name in NamesOf(ResourcesOf(cfg, l), kind)
  {
  }

  /** The languages configured for an object, by its name or, if asked, by its namespace. */
  function LanguagesOf(cfg: Config, o: Object, checkNamespace: bool): set<Language> {
    set l | l in SUPPORTED && ((checkNamespace && o.namespace in ResourcesOf(cfg, l).namespaces)
                               || o.FullName() in NamesOf(ResourcesOf(cfg, l), o.kind))
  }

  method CollectLanguages(cfg: Config, o: Object, checkNamespace: bool) returns (selected: set<Language>)
    ensures selected == LanguagesOf(cfg, o, checkNamespace)
    ensures forall l :: l in selected <==>
              || NamesObject(cfg, l, o)
              || (checkNamespace && Names(cfg, l, Namespace, o.namespace))
  {
    forall l
      ensures NamesObject(cfg, l, o) || (checkNamespace && Names(cfg, l, Namespace, o.namespace)) <==>
                l in LanguagesOf(cfg, o, checkNamespace)
    {
      NamesExactly(cfg, l, o.kind, o.FullName());
      NamesExactly(cfg, l, Namespace, o.namespace);
    }
    selected := {};
    if checkNamespace {
      var rest := SUPPORTED;
      while rest != {}
        invariant rest <= SUPPORTED
        invariant forall l :: l in selected <==>
            l in SUPPORTED && l !in rest && o.namespace in ResourcesOf(cfg, l).namespaces
      {
        var l :| l in rest;
        if o.namespace in ResourcesOf(cfg, l).namespaces {
          selected := selected + {l};
        }
        rest := rest - {l};
      }
    }
    ghost var byNamespace := selected;
    var rest := SUPPORTED;
    while rest != {}
      invariant rest <= SUPPORTED
      invariant forall l :: l in selected <==>
                  l in byNamespace || (l in SUPPORTED && l !in rest
                    && o.FullName() in NamesOf(ResourcesOf(cfg, l), o.kind))
    {
      var l :| l in rest;
      if o.FullName() in NamesOf(ResourcesOf(cfg, l), o.kind) {
        selected := selected + {l};
      }
      rest := rest - {l};
    }
  }

  // ---------------------------------------------------------------- mutations in place

  method InsertAnnotations(o: Object, insert: Annotations) returns (mutated: Annotations)
    modifies o`annotations
    ensures o.annotations == Mutated(Insert(insert), old(o.annotations))
    ensures mutated == Reported(Insert(insert), old(o.annotations))
  {
    ghost var a := o.annotations;
    mutated := map[];
    var rest := insert.Keys;
    while rest != {}
      invariant rest <= insert.Keys
      invariant forall k :: k in o.annotations <==> k in a || (k in insert && k !in rest)
      invariant forall k | k in o.annotations :: o.annotations[k] == if k in a then a[k] else insert[k]
      invariant forall k :: k in mutated <==> k in insert && k !in rest && k !in a
      invariant forall k | k in mutated :: mutated[k] == insert[k]
    {
      var k :| k in rest;
      if k !in o.annotations {
        o.annotations := o.annotations[k := insert[k]];
        mutated := mutated[k := insert[k]];
      }
      rest := rest - {k};
    }
    assert o.annotations == insert + a;
    assert mutated == insert - a.Keys;
  }

  method ShouldRemove(a: Annotations, remove: seq<string>) returns (all: bool)
    ensures all <==> HasAll(a, remove)
  {
    for i := 0 to |remove|
      invariant forall j | 0 <= j < i :: remove[j] in a
    {
      if remove[i] !in a {
        return false;
      }
    }
    return true;
  }

  method RemoveAnnotations(o: Object, remove: seq<string>) returns (mutated: Annotations)
    modifies o`annotations
    ensures o.annotations == Mutated(Remove(remove), old(o.annotations))
    ensures mutated == Reported(Remove(remove), old(o.annotations))
  {
    ghost var a := o.annotations;
    mutated := map[];
    var all := ShouldRemove(o.annotations, remove);
    if !all {
      return;
    }
    for i := 0 to |remove|
      invariant forall k :: k in o.annotations <==> k in a && k !in remove[..i]
      invariant forall k | k in o.annotations :: o.annotations[k] == a[k]
      invariant forall k :: k in mutated <==> k in a && k in remove[..i]
      invariant forall k | k in mutated :: mutated[k] == a[k]
    {
      assert forall k :: k in remove[..i + 1] <==> k in remove[..i] || k == remove[i];
      if remove[i] in o.annotations {
        mutated := mutated[remove[i] := o.annotations[remove[i]]];
        o.annotations := o.annotations - {remove[i]};
      }
    }
    assert o.annotations == a - Keys(remove);
    assert mutated == a - (a.Keys - Keys(remove));
  }

  method ApplyMutation(m: Mutation, o: Object) returns (mutated: Annotations)
    modifies o`annotations
    ensures o.annotations == Mutated(m, old(o.annotations))
    ensures mutated == Reported(m, old(o.annotations))
  {
    match m
    case Insert(insert) => mutated := InsertAnnotations(o, insert);
    case Remove(remove) => mutated := RemoveAnnotations(o, remove);
  }

  method ApplyMutations(ms: seq<Mutation>, o: Object) returns (mutated: Annotations)
    modifies o`annotations
    ensures o.annotations == MutatedAll(ms, old(o.annotations))
    ensures mutated == ReportedAll(ms, old(o.annotations))
  {
    ghost var a := o.annotations;
    mutated := map[];
    for i := 0 to |ms|
      invariant o.annotations == MutatedAll(ms[..i], a)
      invariant mutated == ReportedAll(ms[..i], a)
    {
      assert ms[..i + 1][..i] == ms[..i];
      var more := ApplyMutation(ms[i], o);
      mutated := mutated + more;
    }
    assert ms[..|ms|] == ms;
  }

  // ---------------------------------------------------------------- the inverted index

  function TypesFor(resources: map<Language, seq<string>>, name: string): set<Language> {
    set l | l in resources && name in resources[l]
  }

  /** What the index says of each name: the languages it is listed under. */
  ghost predicate IsIndexOf(index: map<string, set<Language>>, resources: map<Language, seq<string>>) {
    && (forall n :: n in index <==> TypesFor(resources, n) != {})
    && (forall n | n in index :: index[n] == TypesFor(resources, n))
  }

  method InvertResources(resources: map<Language, seq<string>>) returns (index: map<string, set<Language>>)
    ensures IsIndexOf(index, resources)
  {
    index := map[];
    var rest := resources.Keys;
    ghost var done: map<Language, seq<string>> := map[];
    while rest != {}
      invariant rest <= resources.Keys
      invariant forall l :: l in done <==> l in resources && l !in rest
      invariant forall l | l in done :: done[l] == resources[l]
      invariant IsIndexOf(index, done)
    {
      var l :| l in rest;
      index := AddNames(index, l, resources[l], done);
      done := done[l := resources[l]];
      rest := rest - {l};
    }
    assert done == resources;
  }

  method AddNames(index: map<string, set<Language>>, l: Language, names: seq<string>,
                  ghost done: map<Language, seq<string>>)
    returns (index': map<string, set<Language>>)
    requires IsIndexOf(index, done) && l !in done
    ensures IsIndexOf(index', done[l := names])
  {
    index' := index;
    ghost var start := done[l := names[..0]];
    assert forall n :: TypesFor(start, n) == TypesFor(done, n);
    for i := 0 to |names|
      invariant IsIndexOf(index', done[l := names[..i]])
    {
      var types := if names[i] in index' then index'[names[i]] else {};
      OneMoreName(done, l, names, i);
      IndexedOneMore(index', done[l := names[..i]], done[l := names[..i + 1]], l, names[i]);
      index' := index'[names[i] := types + {l}];
    }
    assert names[..|names|] == names;
  }

  ghost predicate ListsOneMore(before: map<Language, seq<string>>, after: map<Language, seq<string>>,
                               l: Language, name: string) {
    forall n :: TypesFor(after, n) == TypesFor(before, n) + if n == name then {l} else {}
  }

  lemma OneMoreName(done: map<Language, seq<string>>, l: Language, names: seq<string>, i: nat)
    requires i < |names|
    ensures ListsOneMore(done[l := names[..i]], done[l := names[..i + 1]], l, names[i])
  {
    assert names[..i + 1] == names[..i] + [names[i]];
  }

  lemma IndexedOneMore(index: map<string, set<Language>>, before: map<Language, seq<string>>,
                       after: map<Language, seq<string>>, l: Language, name: string)
    requires IsIndexOf(index, before)
    requires ListsOneMore(before, after, l, name)
    ensures IsIndexOf(index[name := (if name in index then index[name] else {}) + {l}], after)
  {
    assert l in TypesFor(after, name);
  }

  // ---------------------------------------------------------------- the mutations for a name

  method BuildMutator(typeSet: set<Language>, selected: set<Language>) returns (ms: seq<Mutation>)
    ensures Selects(ms, typeSet, selected)
  {
    ms := [];
    NoMutationsSelectNothing(selected);
    var rest := typeSet;
    ghost var done: set<Language> := {};
    while rest != {}
      invariant rest <= typeSet && done <= typeSet <= done + rest && done !! rest
      invariant Selects(ms, done, selected)
    {
      var l :| l in rest;
      OneMoreMutation(ms, done, selected, l);
      ms := ms + [MutationFor(l, l in selected)];
      done := done + {l};
      rest := rest - {l};
    }
    assert done == typeSet;
  }

  /** Each name has its mutations; a name that has none is listed nowhere. */
  ghost predicate AreMutatorsFor(mutators: map<string, seq<Mutation>>, typeSet: set<Language>,
                                 resources: map<Language, seq<string>>)
  {
    && (forall n | n in mutators :: Selects(mutators[n], typeSet, TypesFor(resources, n)))
    && (forall n | n !in mutators :: TypesFor(resources, n) == {})
  }

  method BuildMutators(typeSet: set<Language>, resources: map<Language, seq<string>>)
      returns (mutators: map<string, seq<Mutation>>)
    ensures AreMutatorsFor(mutators, typeSet, resources)
  {
    var index := InvertResources(resources);
    mutators := map[];
    var rest := index.Keys;
    while rest != {}
      invariant rest <= index.Keys
      invariant forall n :: n in mutators <==> n in index && n !in rest
      invariant forall n | n in mutators :: Selects(mutators[n], typeSet, TypesFor(resources, n))
    {
      var n :| n in rest;
      var ms := BuildMutator(typeSet, index[n]);
      mutators := mutators[n := ms];
      rest := rest - {n};
    }
  }

  function ResourceNames(cfg: Config, typeSet: set<Language>, kind: Kind): map<Language, seq<string>> {
    map l | l in typeSet :: NamesOf(ResourcesOf(cfg, l), kind)
  }

  /** The languages of a type set that are configured for an object. */
  function Configured(cfg: Config, typeSet: set<Language>, o: Object): set<Language> {
    set l | l in typeSet && o.FullName() in NamesOf(ResourcesOf(cfg, l), o.kind)
  }

  class AnnotationMutators {
    const namespaceMutators: map<string, seq<Mutation>>
    const deploymentMutators: map<string, seq<Mutation>>
    const daemonSetMutators: map<string, seq<Mutation>>
    const statefulSetMutators: map<string, seq<Mutation>>
    const defaultMutator: seq<Mutation>

    function MutatorsFor(kind: Kind): map<string, seq<Mutation>> {
      match kind
      case Namespace => namespaceMutators
      case Deployment => deploymentMutators
      case DaemonSet => daemonSetMutators
      case StatefulSet => statefulSetMutators
      case OtherKind => map[]
    }

    ghost predicate BuiltFrom(cfg: Config, typeSet: set<Language>) {
      && Selects(defaultMutator, typeSet, {})
      && AreMutatorsFor(namespaceMutators, typeSet, ResourceNames(cfg, typeSet, Namespace))
      && AreMutatorsFor(deploymentMutators, typeSet, ResourceNames(cfg, typeSet, Deployment))
      && AreMutatorsFor(daemonSetMutators, typeSet, ResourceNames(cfg, typeSet, DaemonSet))
      && AreMutatorsFor(statefulSetMutators, typeSet, ResourceNames(cfg, typeSet, StatefulSet))
    }

    constructor (cfg: Config, typeSet: set<Language>)
      ensures BuiltFrom(cfg, typeSet)
    {
      var onNamespaces := BuildMutators(typeSet, ResourceNames(cfg, typeSet, Namespace));
      var onDeployments := BuildMutators(typeSet, ResourceNames(cfg, typeSet, Deployment));
      var onDaemonSets := BuildMutators(typeSet, ResourceNames(cfg, typeSet, DaemonSet));
      var onStatefulSets := BuildMutators(typeSet, ResourceNames(cfg, typeSet, StatefulSet));
      var removeAll := BuildMutator(typeSet, {});
      namespaceMutators, deploymentMutators := onNamespaces, onDeployments;
      daemonSetMutators, statefulSetMutators := onDaemonSets, onStatefulSets;
      defaultMutator := removeAll;
    }

    /** Looks the mutations up by the object's name. There is nothing to report for other kinds of objects. */
    method MutateObject(o: Object, ghost cfg: Config, ghost typeSet: set<Language>)
        returns (mutated: Option<Annotations>, changed: bool)
      requires BuiltFrom(cfg, typeSet)
      modifies o`annotations
      ensures o.annotations == if o.kind == OtherKind then old(o.annotations)
                               else Declared(old(o.annotations), typeSet, Configured(cfg, typeSet, o))
      ensures o.kind != OtherKind ==> forall l | l in typeSet ::
                InjectKey(l) in o.annotations && AnnotateKey(l) in o.annotations <==> NamesObject(cfg, l, o)
      ensures mutated == if o.kind == OtherKind then None else Some(Difference(old(o.annotations), o.annotations))
      ensures changed <==> o.annotations != old(o.annotations)
    {
      if o.kind == OtherKind {
        return None, false;
      }
      var mutators := MutatorsFor(o.kind);
      assert AreMutatorsFor(mutators, typeSet, ResourceNames(cfg, typeSet, o.kind));
      var name := o.FullName();
      assert TypesFor(ResourceNames(cfg, typeSet, o.kind), name) == Configured(cfg, typeSet, o);
      var ms := if name in mutators then mutators[name] else defaultMutator;
      assert Selects(ms, typeSet, Configured(cfg, typeSet, o));
      NoDifference(o.annotations, typeSet, Configured(cfg, typeSet, o));
      ghost var a := o.annotations;
      var reported := ApplyMutations(ms, o);
      forall l | l in typeSet
        ensures InjectKey(l) in o.annotations && AnnotateKey(l) in o.annotations <==> NamesObject(cfg, l, o)
      {
        BothKeysMeansSelected(a, typeSet, Configured(cfg, typeSet, o), l);
        NamesExactly(cfg, l, o.kind, name);
      }
      return Some(reported), reported != map[];
    }
  }
}
