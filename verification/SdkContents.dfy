/** What an injected environment says, in terms of the pod, the resource and what the user had. */
module SdkContents {
  import opened Wrappers
  import opened Strings
  import opened Env
  import opened ResourceAttributes
  import opened SdkInjection
  import opened SdkLaws
  import opened JavaInjection

  /** An attribute that the user has not set has this value, from the pod or else from the resource. */
  ghost predicate HasValue(c: Setting, env: seq<EnvVar>, k: string, v: string) {
    AttributeIs(c.spec.attributes, ExistingKeys(env), c.pod, c.name, k, v)
  }

  /** The last entry has the user's attributes first and then, printed, what the pod and the resource say. */
  lemma AttributesInjected(c: Setting, env: seq<EnvVar>)
    ensures var env' := Inject(c, env);
            && env' != [] && env'[|env'| - 1] == AttributesVar(env, Printed(Attributes(c, env)))
            && Says(c.spec, c.pod, c.name, c.image, ExistingKeys(env), env, Attributes(c, env))
  {
    InjectedShape(c, env);
    FinalAttributesSay(c.spec, c.pod, c.name, c.image, ExistingKeys(env), env);
  }

  /** The version of an image is its tag, the text behind the last colon - unless that is a port, before a path. */
  lemma VersionIsTag(repository: string, tag: string)
    requires ':' !in tag
    ensures ChooseServiceVersion(repository + ":" + tag) == if Contains(tag, "/") then "" else tag
    ensures ChooseServiceVersion(tag) == if Contains(tag, "/") then "" else tag
  {
    SplitAtSeparator(repository, ':', tag);
    SplitWithoutSeparator(tag, ':');
    assert repository + [':'] + tag == repository + ":" + tag;
  }

  // ---------------------------------------------------------------- the other entries

  /** The attributes that can name the service, first come first served. */
  const SERVICE_NAMES := [
    "k8s.deployment.name", "k8s.replicaset.name", "k8s.statefulset.name", "k8s.daemonset.name", "k8s.cronjob.name",
    "k8s.job.name", "k8s.pod.name"]

  /** The service is named after the first of these attributes that has a value, or else after the container. */
  lemma ServiceNameIsFirst(res: map<string, string>, containerName: string)
    ensures forall i | 0 <= i < 7 && Value(res, SERVICE_NAMES[i]) != ""
                       && (forall j | 0 <= j < i :: Value(res, SERVICE_NAMES[j]) == "") ::
              ChooseServiceName(res, containerName) == Value(res, SERVICE_NAMES[i])
    ensures (forall j | 0 <= j < 7 :: Value(res, SERVICE_NAMES[j]) == "") ==>
              ChooseServiceName(res, containerName) == containerName
  {
    assert SERVICE_NAMES[0] == "k8s.deployment.name" && SERVICE_NAMES[1] == "k8s.replicaset.name";
    assert SERVICE_NAMES[2] == "k8s.statefulset.name" && SERVICE_NAMES[3] == "k8s.daemonset.name";
    assert SERVICE_NAMES[4] == "k8s.cronjob.name" && SERVICE_NAMES[5] == "k8s.job.name";
    assert SERVICE_NAMES[6] == POD_NAME;
  }

  /** So the service name that is injected is that of the first attribute that names it, or else the container's. */
  lemma ServiceNameInjected(c: Setting, env: seq<EnvVar>)
    requires !Defines(env, ENV_SERVICE_NAME)
    ensures forall i, v | 0 <= i < 7 && HasValue(c, env, SERVICE_NAMES[i], v)
                          && (forall j, w | 0 <= j < i :: !HasValue(c, env, SERVICE_NAMES[j], w)) ::
              GetEnvValue(Inject(c, env), ENV_SERVICE_NAME) == v
    ensures (forall j, w | 0 <= j < 7 :: !HasValue(c, env, SERVICE_NAMES[j], w)) ==>
              GetEnvValue(Inject(c, env), ENV_SERVICE_NAME) == c.name
  {
    ServiceNameIsFirst(Found(c, env), c.name);
    ServiceNameIsChosen(c, env);
    forall i, v | 0 <= i < 7 && HasValue(c, env, SERVICE_NAMES[i], v)
                  && (forall j, w | 0 <= j < i :: !HasValue(c, env, SERVICE_NAMES[j], w))
      ensures GetEnvValue(Inject(c, env), ENV_SERVICE_NAME) == v
    {
      ValueFound(c.spec.attributes, ExistingKeys(env), c.pod, c.name, SERVICE_NAMES[i]);
      NoneIsValued(c, env, i);
    }
    if forall j, w | 0 <= j < 7 :: !HasValue(c, env, SERVICE_NAMES[j], w) {
      NoneIsValued(c, env, 7);
    }
  }

  lemma NoneIsValued(c: Setting, env: seq<EnvVar>, n: nat)
    requires n <= 7 && forall j, w | 0 <= j < n :: !HasValue(c, env, SERVICE_NAMES[j], w)
    ensures forall j | 0 <= j < n :: Value(Found(c, env), SERVICE_NAMES[j]) == ""
  {
    forall j | 0 <= j < n
      ensures Value(Found(c, env), SERVICE_NAMES[j]) == ""
    {
      EmptyUnlessValued(c, env, SERVICE_NAMES[j]);
    }
  }

  lemma ServiceNameIsChosen(c: Setting, env: seq<EnvVar>)
    requires !Defines(env, ENV_SERVICE_NAME)
    ensures GetEnvValue(Inject(c, env), ENV_SERVICE_NAME) == ChooseServiceName(Found(c, env), c.name)
  {
    NamesAreDistinct();
    EntryOfInjected(c, env, ENV_SERVICE_NAME);
    var v := ServiceNameVar(env, Found(c, env), c.name);
    assert Added(c, env)[0] == v[0];
    FirstIsIndex(Added(c, env), ENV_SERVICE_NAME, 0);
  }

  /** Of pieces that are told apart by the lengths of their names, the one that can have the name has the entry. */
  lemma EntryOfSeven(s: seq<EnvVar>, e: seq<EnvVar>, n: seq<EnvVar>, u: seq<EnvVar>, d: seq<EnvVar>, p: seq<EnvVar>,
                     t: seq<EnvVar>, name: string)
    requires OfLength(s, {17}) && OfLength(e, {27}) && OfLength(n, {33}) && OfLength(u, {32}) && OfLength(d, {34})
    requires OfLength(p, {16}) && OfLength(t, {19, 23})
    ensures var entry := EntryOf((s + e + n + u + d) + (p + t), name);
            && (|name| == 17 ==> entry == EntryOf(s, name)) && (|name| == 27 ==> entry == EntryOf(e, name))
            && (|name| == 33 ==> entry == EntryOf(n, name)) && (|name| == 32 ==> entry == EntryOf(u, name))
            && (|name| == 34 ==> entry == EntryOf(d, name)) && (|name| == 16 ==> entry == EntryOf(p, name))
            && (|name| in {19, 23} ==> entry == EntryOf(t, name))
  {
    NotDefinedIn(s, {17}, name);
    NotDefinedIn(e, {27}, name);
    NotDefinedIn(n, {33}, name);
    NotDefinedIn(u, {32}, name);
    NotDefinedIn(d, {34}, name);
    NotDefinedIn(p, {16}, name);
    NotDefinedIn(t, {19, 23}, name);
    EntryOfAppended(s, e, name);
    EntryOfAppended(s + e, n, name);
    EntryOfAppended(s + e + n, u, name);
    EntryOfAppended(s + e + n + u, d, name);
    EntryOfAppended(p, t, name);
    EntryOfAppended(s + e + n + u + d, p + t, name);
  }

  lemma NotDefinedIn(env: seq<EnvVar>, lengths: set<int>, name: string)
    requires OfLength(env, lengths)
    ensures |name| !in lengths ==> !Defines(env, name) && EntryOf(env, name) == None
  {
  }

  lemma EntryOfAdded(c: Setting, env: seq<EnvVar>, name: string)
    requires !Defines(env, name) && name != ENV_RESOURCE_ATTRS
    ensures var entry, res, existing := EntryOf(Inject(c, env), name), Found(c, env), ExistingKeys(env);
            && (|name| == 27 ==> entry == EntryOf(EndpointVar(env, c.spec.endpoint), name))
            && (|name| == 33 ==> entry == EntryOf(PodNameVar(res, existing), name))
            && (|name| == 32 ==> entry == EntryOf(PodUidVar(c.spec, res), name))
            && (|name| == 34 ==> entry == EntryOf(NodeNameVar(res, existing), name))
            && (|name| == 16 ==> entry == EntryOf(PropagatorsVar(c.spec, env), name))
            && (|name| in {19, 23} ==> entry == EntryOf(SamplerVars(c.spec, env), name))
  {
    var res, existing := Found(c, env), ExistingKeys(env);
    AddedLengths(c, env);
    AddedAfterLengths(c, env);
    EntryOfInjected(c, env, name);
    EntryOfSeven(ServiceNameVar(env, res, c.name), EndpointVar(env, c.spec.endpoint), PodNameVar(res, existing),
                 PodUidVar(c.spec, res), NodeNameVar(res, existing), PropagatorsVar(c.spec, env),
                 SamplerVars(c.spec, env), name);
  }

  /** Where the container leaves it open, the endpoint is that of the resource. */
  lemma EndpointInjected(c: Setting, env: seq<EnvVar>)
    requires c.spec.endpoint != "" && !Defines(env, ENV_ENDPOINT)
    ensures EntryOf(Inject(c, env), ENV_ENDPOINT) == Some(EnvVar(ENV_ENDPOINT, c.spec.endpoint, ""))
  {
    assert |ENV_ENDPOINT| == 27 && |ENV_RESOURCE_ATTRS| == 24 by { NamesAreDistinct(); }
    EntryOfAdded(c, env, ENV_ENDPOINT);
    EntryOfOne(EnvVar(ENV_ENDPOINT, c.spec.endpoint, ""), ENV_ENDPOINT);
  }

  /** So are the propagators. */
  lemma PropagatorsInjected(c: Setting, env: seq<EnvVar>)
    requires c.spec.propagators != [] && !Defines(env, ENV_PROPAGATORS)
    ensures EntryOf(Inject(c, env), ENV_PROPAGATORS) == Some(EnvVar(ENV_PROPAGATORS, Join(c.spec.propagators, ","), ""))
  {
    assert |ENV_PROPAGATORS| == 16 && |ENV_RESOURCE_ATTRS| == 24 by { NamesAreDistinct(); }
    EntryOfAdded(c, env, ENV_PROPAGATORS);
    EntryOfOne(EnvVar(ENV_PROPAGATORS, Join(c.spec.propagators, ","), ""), ENV_PROPAGATORS);
  }

  /** And so are the sampler and its argument, if the container leaves both open. */
  lemma SamplerInjected(c: Setting, env: seq<EnvVar>)
    requires c.spec.samplerType != "" && !Defines(env, ENV_TRACES_SAMPLER) && !Defines(env, ENV_TRACES_SAMPLER_ARG)
    ensures EntryOf(Inject(c, env), ENV_TRACES_SAMPLER) == Some(EnvVar(ENV_TRACES_SAMPLER, c.spec.samplerType, ""))
    ensures EntryOf(Inject(c, env), ENV_TRACES_SAMPLER_ARG) ==
              if c.spec.samplerArgument == "" then None
              else Some(EnvVar(ENV_TRACES_SAMPLER_ARG, c.spec.samplerArgument, ""))
  {
    assert |ENV_TRACES_SAMPLER| == 19 && |ENV_TRACES_SAMPLER_ARG| == 23 && |ENV_RESOURCE_ATTRS| == 24 by {
      NamesAreDistinct();
    }
    EntryOfAdded(c, env, ENV_TRACES_SAMPLER);
    EntryOfAdded(c, env, ENV_TRACES_SAMPLER_ARG);
    SamplerEntries(c.spec, env);
  }

  lemma SamplerEntries(spec: Spec, env: seq<EnvVar>)
    requires spec.samplerType != "" && !Defines(env, ENV_TRACES_SAMPLER) && !Defines(env, ENV_TRACES_SAMPLER_ARG)
    ensures EntryOf(SamplerVars(spec, env), ENV_TRACES_SAMPLER) ==
              Some(EnvVar(ENV_TRACES_SAMPLER, spec.samplerType, ""))
    ensures EntryOf(SamplerVars(spec, env), ENV_TRACES_SAMPLER_ARG) ==
              if spec.samplerArgument == "" then None
              else Some(EnvVar(ENV_TRACES_SAMPLER_ARG, spec.samplerArgument, ""))
  {
    NamesAreDistinct();
    var v := EnvVar(ENV_TRACES_SAMPLER, spec.samplerType, "");
    var w := EnvVar(ENV_TRACES_SAMPLER_ARG, spec.samplerArgument, "");
    var more := Optional(spec.samplerArgument != "", w);
    assert SamplerVars(spec, env) == [v] + more;
    EntryOfAppended([v], more, ENV_TRACES_SAMPLER);
    EntryOfAppended([v], more, ENV_TRACES_SAMPLER_ARG);
    EntryOfOne(v, ENV_TRACES_SAMPLER);
    EntryOfOne(v, ENV_TRACES_SAMPLER_ARG);
  }

  /** What is referred to in the attributes takes its value from the right field of the pod. */
  lemma ReferencesInjected(c: Setting, env: seq<EnvVar>)
    ensures POD_NAME !in ExistingKeys(env) && (forall v :: !HasValue(c, env, POD_NAME, v))
            && !Defines(env, ENV_POD_NAME) ==>
              EntryOf(Inject(c, env), ENV_POD_NAME) == Some(EnvVar(ENV_POD_NAME, "", "metadata.name"))
    ensures c.spec.addK8sUID && (forall v :: !HasValue(c, env, POD_UID, v)) && !Defines(env, ENV_POD_UID) ==>
              EntryOf(Inject(c, env), ENV_POD_UID) == Some(EnvVar(ENV_POD_UID, "", "metadata.uid"))
    ensures NODE_NAME !in ExistingKeys(env) && (forall v :: !HasValue(c, env, NODE_NAME, v))
            && !Defines(env, ENV_NODE_NAME) ==>
              EntryOf(Inject(c, env), ENV_NODE_NAME) == Some(EnvVar(ENV_NODE_NAME, "", "spec.nodeName"))
  {
    NamesAreDistinct();
    EmptyUnlessValued(c, env, POD_NAME);
    EmptyUnlessValued(c, env, POD_UID);
    EmptyUnlessValued(c, env, NODE_NAME);
    if !Defines(env, ENV_POD_NAME) {
      EntryOfAdded(c, env, ENV_POD_NAME);
    }
    if !Defines(env, ENV_POD_UID) {
      EntryOfAdded(c, env, ENV_POD_UID);
    }
    if !Defines(env, ENV_NODE_NAME) {
      EntryOfAdded(c, env, ENV_NODE_NAME);
    }
  }

  lemma EmptyUnlessValued(c: Setting, env: seq<EnvVar>, k: string)
    ensures (forall v :: !HasValue(c, env, k, v)) ==> Value(Found(c, env), k) == ""
  {
    ValueFound(c.spec.attributes, ExistingKeys(env), c.pod, c.name, k);
    assert Value(Found(c, env), k) != "" ==> HasValue(c, env, k, Value(Found(c, env), k));
  }
}
