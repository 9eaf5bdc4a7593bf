/** Automatic selection of languages for workloads, and its agreement with the selection by name. */
module Monitor {
  import opened Wrappers
  import opened Annotations
  import opened Annotators

  /** Whether the object may be changed, which may restart pods. */
  predicate SafeToMutate(kind: Kind, restartPods: bool, templateChanged: bool) {
    kind == Namespace || (kind != OtherKind && (restartPods || templateChanged))
  }

  const EXCLUDED_NAMESPACES := [
    "monitoring", "loki", "observability", "opentelemetry-operator-system", "amazon-cloudwatch", "tracing",
    "ingress-nginx", "traefik", "istio-system", "linkerd", "cert-manager", "external-dns",
    "aws-load-balancer-controller", "kube-system", "external-dns",
    "kyverno", "gatekeeper-system", "falco", "vault",
    "argocd", "flux-system", "jenkins", "tekton-pipelines", "spinnaker", "harbor", "reloader",
    "keda", "velero", "minio"]

  datatype Service = Service(namespace: string, selector: map<string, string>)

  predicate Matches(selector: map<string, string>, labels: map<string, string>) {
    forall k | k in selector :: k in labels && labels[k] == selector[k]
  }

  predicate Serves(s: Service, o: Object) {
    s.selector != map[] && s.namespace == o.namespace && Matches(s.selector, o.TemplateLabels())
  }

  datatype MonitorConfig = MonitorConfig(
    monitorAllServices: bool, languages: set<Language>, restartPods: bool, exclude: Config, customSelector: Config)

  class Monitor {
    const config: MonitorConfig
    var services: seq<Service>

    /** No languages means all that are supported. */
    constructor (config: MonitorConfig, services: seq<Service>)
      ensures this.config == (if config.languages == {} then config.(languages := SUPPORTED) else config)
      ensures this.services == services
    {
      this.config := if config.languages == {} then config.(languages := SUPPORTED) else config;
      this.services := services;
    }

    ghost predicate AutoMonitored(o: Object)
      reads this`services
    {
      && config.monitorAllServices && o.kind != Namespace && o.namespace !in EXCLUDED_NAMESPACES
      && exists i | 0 <= i < |services| :: Serves(services[i], o)
    }

    method IsWorkloadAutoMonitored(o: Object) returns (monitored: bool)
      ensures monitored <==> AutoMonitored(o)
      ensures o.kind != OtherKind ==>
                (monitored <==> config.monitorAllServices && o.namespace !in EXCLUDED_NAMESPACES
                                && o.kind in {Deployment, DaemonSet, StatefulSet} && IsServed(o))
    {
      ServedExactly(o);
      if o.kind == Namespace {
        return false;
      }
      if !config.monitorAllServices {
        return false;
      }
      if o.namespace in EXCLUDED_NAMESPACES {
        return false;
      }
      for i := 0 to |services|
        invariant forall j | 0 <= j < i :: !Serves(services[j], o)
      {
        if services[i].selector == map[] || services[i].namespace != o.namespace {
          continue;
        }
        if Matches(services[i].selector, o.TemplateLabels()) {
          return true;
        }
      }
      return false;
    }

    /** The languages an object is to have: chosen for it or for all services, unless excluded for it or its
        namespace. */
    ghost function Selected(o: Object): set<Language>
      reads this`services
    {
      LanguagesOf(config.customSelector, o, false) + (if AutoMonitored(o) then config.languages else {})
      - LanguagesOf(config.exclude, o, true)
    }

    /** A service with a selector, in the namespace of the workload, selects its pods. */
    ghost predicate IsServed(o: Object)
      reads this`services
    {
      exists i | 0 <= i < |services| ::
        && services[i].selector != map[] && services[i].namespace == o.namespace
        && forall k | k in services[i].selector :: k in o.labels && o.labels[k] == services[i].selector[k]
    }

    /** The language is chosen: by the custom list of the object's kind, or for all workloads that are served. */
    ghost predicate Chosen(o: Object, l: Language)
      reads this`services
    {
      || NamesObject(config.customSelector, l, o)
      || (&& config.monitorAllServices && l in config.languages && o.namespace !in EXCLUDED_NAMESPACES
          && o.kind in {Deployment, DaemonSet, StatefulSet} && IsServed(o))
    }

    /** It is excluded, for the object or for its namespace. */
    predicate Excluded(o: Object, l: Language) {
      NamesObject(config.exclude, l, o) || Names(config.exclude, l, Namespace, o.namespace)
    }

    lemma SelectedExactly(o: Object, l: Language)
      requires l in SUPPORTED && o.kind != OtherKind
      ensures l in Selected(o) <==> Chosen(o, l) && !Excluded(o, l)
    {
      NamesExactly(config.customSelector, l, o.kind, o.FullName());
      NamesExactly(config.exclude, l, o.kind, o.FullName());
      NamesExactly(config.exclude, l, Namespace, o.namespace);
      ServedExactly(o);
    }

    lemma ServedExactly(o: Object)
      ensures o.kind in {Deployment, DaemonSet, StatefulSet} ==>
                (IsServed(o) <==> exists i | 0 <= i < |services| :: Serves(services[i], o))
    {
      forall i | 0 <= i < |services| && o.kind in {Deployment, DaemonSet, StatefulSet}
        ensures Serves(services[i], o) <==>
                  && services[i].selector != map[] && services[i].namespace == o.namespace
                  && forall k | k in services[i].selector :: k in o.labels && o.labels[k] == services[i].selector[k]
      {
      }
    }

    /** Annotates an object, if that is safe, for exactly the selected languages: afterwards a supported language has
        both its keys if and only if it is chosen and not excluded. */
    method MutateObject(o: Object, templateChanged: bool) returns (mutated: Annotations)
      modifies o`annotations
      ensures o.kind == Namespace
              || (o.kind in {Deployment, DaemonSet, StatefulSet} && (config.restartPods || templateChanged)) ==>
                forall l | l in SUPPORTED ::
                  InjectKey(l) in o.annotations && AnnotateKey(l) in o.annotations <==> Chosen(o, l) && !Excluded(o, l)
      ensures o.kind == OtherKind || (o.kind != Namespace && !config.restartPods && !templateChanged) ==>
                o.annotations == old(o.annotations)
      ensures o.annotations == if SafeToMutate(o.kind, config.restartPods, templateChanged)
                               then Declared(old(o.annotations), SUPPORTED, Selected(o)) else old(o.annotations)
      ensures mutated == Difference(old(o.annotations), o.annotations)
    {
      if !SafeToMutate(o.kind, config.restartPods, templateChanged) {
        return map[];
      }
      var languages := CollectLanguages(config.customSelector, o, false);
      var monitored := IsWorkloadAutoMonitored(o);
      if monitored {
        languages := languages + config.languages;
      }
      var excluded := CollectLanguages(config.exclude, o, true);
      languages := languages - excluded;
      assert languages == Selected(o);
      ghost var a := o.annotations;
      mutated := Mutate(o, languages);
      forall l | l in SUPPORTED
        ensures InjectKey(l) in o.annotations && AnnotateKey(l) in o.annotations <==> Chosen(o, l) && !Excluded(o, l)
      {
        BothKeysMeansSelected(a, SUPPORTED, Selected(o), l);
        SelectedExactly(o, l);
      }
    }
  }

  /** Goes through the supported languages, in any order. */
  method Mutate(o: Object, selected: set<Language>) returns (mutated: Annotations)
    modifies o`annotations
    ensures o.annotations == Declared(old(o.annotations), SUPPORTED, selected)
    ensures mutated == Difference(old(o.annotations), o.annotations)
  {
    ghost var a := o.annotations;
    mutated := map[];
    var rest := SUPPORTED;
    ghost var done: set<Language> := {};
    NoMutationsSelectNothing(selected);
    assert MutatedAll([], a) == Declared(a, {}, selected) && ReportedAll([], a) == map[];
    while rest != {}
      invariant rest <= SUPPORTED && done <= SUPPORTED <= done + rest && done !! rest
      invariant o.annotations == Declared(a, done, selected)
      invariant mutated == Difference(a, o.annotations)
    {
      var l :| l in rest;
      OneMoreDeclared(a, done, selected, l);
      DifferencesAddUp(a, done, selected, l);
      var more := ApplyMutation(MutationFor(l, l in selected), o);
      mutated := mutated + more;
      done := done + {l};
      rest := rest - {l};
    }
    assert done == SUPPORTED;
  }

  // ---------------------------------------------------------------- agreement

  /** Looking mutations up by name and going through the configured languages come to the same, on all annotations, if
      and only if the lookup was built for the supported languages. */
  lemma AnnotatorsAgree(cfg: Config, typeSet: set<Language>, o: Object)
    ensures (forall a: Annotations :: Declared(a, typeSet, Configured(cfg, typeSet, o))
                                      == Declared(a, SUPPORTED, LanguagesOf(cfg, o, false)))
            <==> typeSet == SUPPORTED
  {
    if typeSet == SUPPORTED {
      assert Configured(cfg, typeSet, o) == LanguagesOf(cfg, o, false);
    } else {
      var l: Language :| l in typeSet <==> l !in SUPPORTED;
      if l in typeSet {
        assert l == Go;
        assert l !in Configured(cfg, typeSet, o);
        TypesMatter(typeSet, Configured(cfg, typeSet, o), SUPPORTED, LanguagesOf(cfg, o, false), l);
      } else {
        TypesMatter(SUPPORTED, LanguagesOf(cfg, o, false), typeSet, Configured(cfg, typeSet, o), l);
      }
    }
  }

  function BothKeys(l: Language): (a: Annotations)
    ensures HasBoth(a, l)
  {
    map[InjectKey(l) := TRUE, AnnotateKey(l) := TRUE]
  }

  lemma KeptByOthers(a: Annotations, all: set<Language>, selected: set<Language>, l: Language)
    requires l !in all
    ensures HasBoth(Declared(a, all, selected), l) <==> HasBoth(a, l)
  {
    OwnKeyDeclared(a, all, selected, l, InjectKey(l));
    OwnKeyDeclared(a, all, selected, l, AnnotateKey(l));
  }

  /** Annotations on which it matters whether a language is among those considered. */
  lemma TypesMatter(all: set<Language>, selected: set<Language>, other: set<Language>, selected': set<Language>,
                    l: Language)
    requires l in all && l !in other
    ensures exists a: Annotations :: Declared(a, all, selected) != Declared(a, other, selected')
  {
    var a := if l in selected then map[] else BothKeys(l);
    assert HasBoth(a, l) <==> l !in selected;
    BothKeysMeansSelected(a, all, selected, l);
    KeptByOthers(a, other, selected', l);
    assert Declared(a, all, selected) != Declared(a, other, selected');
  }

  /** After annotating, and after annotating again, exactly the selected languages have both keys; everything else is as
      it was. The second time there is nothing to report. */
  lemma AnnotatedOnce(a: Annotations, selected: set<Language>)
    ensures var d := Declared(a, SUPPORTED, selected);
            && (forall l | l in SUPPORTED :: HasBoth(d, l) <==> l in selected)
            && (forall k | k in a && k in d :: d[k] == a[k])
            && (forall k | k !in AllKeys(SUPPORTED) :: k in d <==> k in a)
            && Difference(d, Declared(d, SUPPORTED, selected)) == map[]
  {
    forall l | l in SUPPORTED
      ensures HasBoth(Declared(a, SUPPORTED, selected), l) <==> l in selected
    {
      BothKeysMeansSelected(a, SUPPORTED, selected, l);
    }
    OthersAreUntouched(a, SUPPORTED, selected);
    SelectingTwice(a, SUPPORTED, selected);
    NoDifference(Declared(a, SUPPORTED, selected), SUPPORTED, selected);
  }
}
