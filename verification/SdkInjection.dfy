/** Injection of the common SDK configuration into the environment of a container. */
module SdkInjection {
  import opened Wrappers
  import opened Strings
  import opened Env
  import opened ResourceAttributes

  const ENV_SERVICE_NAME := "OTEL_SERVICE_NAME"
  const ENV_ENDPOINT := "OTEL_EXPORTER_OTLP_ENDPOINT"
  const ENV_RESOURCE_ATTRS := "OTEL_RESOURCE_ATTRIBUTES"
  const ENV_PROPAGATORS := "OTEL_PROPAGATORS"
  const ENV_TRACES_SAMPLER := "OTEL_TRACES_SAMPLER"
  const ENV_TRACES_SAMPLER_ARG := "OTEL_TRACES_SAMPLER_ARG"
  const ENV_POD_NAME := "OTEL_RESOURCE_ATTRIBUTES_POD_NAME"
  const ENV_POD_UID := "OTEL_RESOURCE_ATTRIBUTES_POD_UID"
  const ENV_NODE_NAME := "OTEL_RESOURCE_ATTRIBUTES_NODE_NAME"

  const POD_NAME := "k8s.pod.name"
  const POD_UID := "k8s.pod.uid"
  const NODE_NAME := "k8s.node.name"
  const SERVICE_VERSION := "service.version"
  const SERVICE_NAME_SOURCE := "com.amazonaws.cloudwatch." + "entity.internal." + "service.name.source"

  /** What the Instrumentation resource asks for. */
  datatype Spec = Spec(
    attributes: map<string, string>, addK8sUID: bool, endpoint: string, env: seq<EnvVar>,
    propagators: seq<string>, samplerType: string, samplerArgument: string)

  /** The pod as the injector finds it; `parents` are the attributes its owners contribute. */
  datatype Pod = Pod(name: string, uid: string, nodeName: string, namespace: string, parents: map<string, string>)

  class Container {
    const name: string
    const image: string
    var env: seq<EnvVar>

    constructor (name: string, image: string, env: seq<EnvVar>)
      ensures this.name == name && this.image == image && this.env == env
    {
      this.name := name;
      this.image := image;
      this.env := env;
    }
  }

  function Value(m: map<string, string>, k: string): string {
    if k in m then m[k] else ""
  }

  function Reference(name: string): string {
    "$(" + name + ")"
  }

  // ---------------------------------------------------------------- the attribute map

  function ServiceInstanceId(namespace: string, podName: string, containerName: string): string {
    if namespace != "" && podName != "" && containerName != "" then namespace + "." + podName + "." + containerName
      else ""
  }

  function K8sResources(pod: Pod, containerName: string): map<string, string> {
    map["k8s.namespace.name" := pod.namespace,
        "k8s.container.name" := containerName,
        POD_NAME := pod.name,
        POD_UID := pod.uid,
        NODE_NAME := pod.nodeName,
        "service.instance.id" := ServiceInstanceId(pod.namespace, pod.name, containerName)] + pod.parents
  }

  /** The attributes to add: what the pod provides goes before what the resource asks for, and what the user already
      set goes before both. */
  function ResourceMap(attributes: map<string, string>, k8s: map<string, string>,
                       existing: set<string>): map<string, string>
  {
    map k | k in attributes.Keys + k8s.Keys && k !in existing && (k in attributes || k8s[k] != "") ::
      if k in k8s && k8s[k] != "" then k8s[k] else attributes[k]
  }

  /** The pod provides this value for an attribute: by one of its parents, or else by a field of its own. */
  predicate Provides(pod: Pod, containerName: string, k: string, v: string) {
    && v != ""
    && if k in pod.parents then v == pod.parents[k]
       else
         || (k == "k8s.namespace.name" && v == pod.namespace)
         || (k == "k8s.container.name" && v == containerName)
         || (k == "k8s.pod.name" && v == pod.name)
         || (k == "k8s.pod.uid" && v == pod.uid)
         || (k == "k8s.node.name" && v == pod.nodeName)
         || (k == "service.instance.id" && pod.namespace != "" && pod.name != "" && containerName != ""
             && v == pod.namespace + "." + pod.name + "." + containerName)
  }

  /** What the user has set is left out. Of the other attributes, the pod's values go before those of the resource. */
  ghost predicate PodBeforeResource(res: map<string, string>, attributes: map<string, string>, existing: set<string>,
                                    pod: Pod, containerName: string) {
    && (forall k | k in existing :: k !in res)
    && (forall k, v | k !in existing && Provides(pod, containerName, k, v) :: k in res && res[k] == v)
    && (forall k | k !in existing && (forall v :: !Provides(pod, containerName, k, v)) ::
          (k in res <==> k in attributes) && (k in res ==> res[k] == attributes[k]))
  }

  /** The keys of the pod's own fields are different ones. */
  lemma PodKeysDiffer()
    ensures "k8s.namespace.name" != "k8s.container.name"
    ensures |"k8s.namespace.name"| == |"k8s.container.name"| == 18 && |POD_NAME| == 12 && |POD_UID| == 11
    ensures |NODE_NAME| == 13 && |"service.instance.id"| == 19
  {
    assert "k8s.namespace.name"[4] == 'n' && "k8s.container.name"[4] == 'c';
  }

  lemma ProvidedByPod(pod: Pod, containerName: string, k: string, v: string)
    ensures Provides(pod, containerName, k, v) <==>
              v != "" && k in K8sResources(pod, containerName) && K8sResources(pod, containerName)[k] == v
  {
    PodKeysDiffer();
  }

  lemma ResourceMapIsOrdered(attributes: map<string, string>, existing: set<string>, pod: Pod, containerName: string)
    ensures PodBeforeResource(ResourceMap(attributes, K8sResources(pod, containerName), existing),
                              attributes, existing, pod, containerName)
  {
    var k8s := K8sResources(pod, containerName);
    var res := ResourceMap(attributes, k8s, existing);
    forall k, v
      ensures Provides(pod, containerName, k, v) <==> v != "" && k in k8s && k8s[k] == v
    {
      ProvidedByPod(pod, containerName, k, v);
    }
    forall k | k !in existing && forall v :: !Provides(pod, containerName, k, v)
      ensures (k in res <==> k in attributes) && (k in res ==> res[k] == attributes[k])
    {
      assert k in k8s ==> !Provides(pod, containerName, k, k8s[k]);
    }
  }

  function ExistingKeys(env: seq<EnvVar>): set<string> {
    var idx := IndexOf(env, ENV_RESOURCE_ATTRS);
    if idx == -1 then {} else ParsedKeys(env[idx].value)
  }

  method CreateResourceMap(spec: Spec, pod: Pod, app: Container)
      returns (res: map<string, string>, existing: set<string>)
    ensures existing == ExistingKeys(app.env)
    ensures PodBeforeResource(res, spec.attributes, existing, pod, app.name)
    ensures res == ResourceMap(spec.attributes, K8sResources(pod, app.name), existing)
  {
    existing := {};
    var idx := GetIndexOfEnv(app.env, ENV_RESOURCE_ATTRS);
    if idx > -1 {
      existing := ParseExisting(app.env[idx].value);
    }
    res := map[];
    var rest := spec.attributes.Keys;
    while rest != {}
      invariant rest <= spec.attributes.Keys
      invariant res == map k | k in spec.attributes && k !in rest && k !in existing :: spec.attributes[k]
    {
      var k :| k in rest;
      if k !in existing {
        res := res[k := spec.attributes[k]];
      }
      rest := rest - {k};
    }
    var k8s := K8sResources(pod, app.name);
    res := AddK8sResources(res, spec.attributes, k8s, existing);
    ResourceMapIsOrdered(spec.attributes, existing, pod, app.name);
  }

  method AddK8sResources(start: map<string, string>, ghost attributes: map<string, string>,
                         k8s: map<string, string>, existing: set<string>) returns (res: map<string, string>)
    requires start == map k | k in attributes && k !in existing :: attributes[k]
    ensures res == ResourceMap(attributes, k8s, existing)
  {
    res := start;
    var rest := k8s.Keys;
    while rest != {}
      invariant rest <= k8s.Keys
      invariant forall k :: k in res <==>
          k !in existing && (k in attributes || (k in k8s && k !in rest && k8s[k] != ""))
      invariant forall k | k in res :: res[k] == if k in k8s && k !in rest && k8s[k] != "" then k8s[k]
          else attributes[k]
    {
      var k :| k in rest;
      if k !in existing && k8s[k] != "" {
        res := res[k := k8s[k]];
      }
      rest := rest - {k};
    }
  }

  // ---------------------------------------------------------------- what is injected

  function ChooseServiceName(res: map<string, string>, containerName: string): string {
    if Value(res, "k8s.deployment.name") != "" then res["k8s.deployment.name"]
    else if Value(res, "k8s.replicaset.name") != "" then res["k8s.replicaset.name"]
    else if Value(res, "k8s.statefulset.name") != "" then res["k8s.statefulset.name"]
    else if Value(res, "k8s.daemonset.name") != "" then res["k8s.daemonset.name"]
    else if Value(res, "k8s.cronjob.name") != "" then res["k8s.cronjob.name"]
    else if Value(res, "k8s.job.name") != "" then res["k8s.job.name"]
    else if Value(res, POD_NAME) != "" then res[POD_NAME]
    else containerName
  }

  /** The text after the last colon of the image, unless that colon introduces a registry port. */
  function ChooseServiceVersion(image: string): string {
    var parts := Split(image, ':');
    var tag := parts[|parts| - 1];
    if Contains(tag, "/") then "" else tag
  }

  predicate NeedsPodName(res: map<string, string>, existing: set<string>) {
    POD_NAME !in existing && Value(res, POD_NAME) == ""
  }

  predicate NeedsPodUid(spec: Spec, res: map<string, string>) {
    spec.addK8sUID && Value(res, POD_UID) == ""
  }

  predicate NeedsNodeName(res: map<string, string>, existing: set<string>) {
    NODE_NAME !in existing && Value(res, NODE_NAME) == ""
  }

  predicate NeedsVersion(env: seq<EnvVar>, image: string) {
    var idx := IndexOf(env, ENV_RESOURCE_ATTRS);
    ChooseServiceVersion(image) != "" && (idx == -1 || !Contains(env[idx].value, SERVICE_VERSION))
  }

  predicate NeedsSource(res: map<string, string>, existing: set<string>) {
    SERVICE_NAME_SOURCE !in existing && Value(res, SERVICE_NAME_SOURCE) == ""
  }

  function SourceOf(env: seq<EnvVar>): string {
    if Defines(env, ENV_SERVICE_NAME) then "Instrumentation" else "K8sWorkload"
  }

  function With(m: map<string, string>, condition: bool, k: string, v: string): map<string, string> {
    if condition then m[k := v] else m
  }

  /** The attributes that end up being printed. */
  function FinalAttributes(spec: Spec, image: string, res: map<string, string>, existing: set<string>,
                           env: seq<EnvVar>): map<string, string> {
    var named := With(res, NeedsPodName(res, existing), POD_NAME, Reference(ENV_POD_NAME));
    var identified := With(named, NeedsPodUid(spec, res), POD_UID, Reference(ENV_POD_UID));
    var versioned := With(identified, NeedsVersion(env, image), SERVICE_VERSION, ChooseServiceVersion(image));
    var located := With(versioned, NeedsNodeName(res, existing), NODE_NAME, Reference(ENV_NODE_NAME));
    With(located, NeedsSource(res, existing), SERVICE_NAME_SOURCE, SourceOf(env))
  }

  /** The value of an attribute that the user has not set: the pod's, or else the resource's. */
  ghost predicate AttributeIs(attributes: map<string, string>, existing: set<string>, pod: Pod, containerName: string,
                              k: string, v: string) {
    && v != "" && k !in existing
    && (|| Provides(pod, containerName, k, v)
        || ((forall w :: !Provides(pod, containerName, k, w)) && k in attributes && attributes[k] == v))
  }

  /** The image has a version and the user's attributes do not mention one. */
  predicate GivesVersion(env: seq<EnvVar>, image: string) {
    ChooseServiceVersion(image) != "" && !Contains(GetEnvValue(env, ENV_RESOURCE_ATTRS), "service.version")
  }

  lemma VersionIsNeeded(env: seq<EnvVar>, image: string)
    ensures GivesVersion(env, image) <==> NeedsVersion(env, image)
  {
    assert |SERVICE_VERSION| == 15 by { KeysAreDistinct(); }
    assert !Contains("", SERVICE_VERSION);
  }

  ghost predicate HasNoValue(attributes: map<string, string>, existing: set<string>, pod: Pod, containerName: string,
                             k: string) {
    forall v :: !AttributeIs(attributes, existing, pod, containerName, k, v)
  }

  /** What the printed attributes `m` say: every value of the pod or the resource, but for a version that the image
      gives; the name and the node of the pod by reference if nothing else says what they are, its UID if asked for; the
      version and the source of the service name. */
  ghost predicate Says(spec: Spec, pod: Pod, name: string, image: string, existing: set<string>, env: seq<EnvVar>,
                       m: map<string, string>) {
    && (forall k, v | AttributeIs(spec.attributes, existing, pod, name, k, v)
                      && !(k == SERVICE_VERSION && GivesVersion(env, image)) :: k in m && m[k] == v)
    && (POD_NAME !in existing && HasNoValue(spec.attributes, existing, pod, name, POD_NAME) ==>
          POD_NAME in m && m[POD_NAME] == "$(" + ENV_POD_NAME + ")")
    && (NODE_NAME !in existing && HasNoValue(spec.attributes, existing, pod, name, NODE_NAME) ==>
          NODE_NAME in m && m[NODE_NAME] == "$(" + ENV_NODE_NAME + ")")
    && (spec.addK8sUID && HasNoValue(spec.attributes, existing, pod, name, POD_UID) ==>
          POD_UID in m && m[POD_UID] == "$(" + ENV_POD_UID + ")")
    && (GivesVersion(env, image) ==> SERVICE_VERSION in m && m[SERVICE_VERSION] == ChooseServiceVersion(image))
    && (SERVICE_NAME_SOURCE !in existing && HasNoValue(spec.attributes, existing, pod, name, SERVICE_NAME_SOURCE) ==>
          SERVICE_NAME_SOURCE in m
          && m[SERVICE_NAME_SOURCE] == if Defines(env, ENV_SERVICE_NAME) then "Instrumentation" else "K8sWorkload")
    && (forall k | k in m && k !in {POD_NAME, POD_UID, NODE_NAME, SERVICE_VERSION, SERVICE_NAME_SOURCE} ::
          k !in existing && (k in spec.attributes || Provides(pod, name, k, m[k])))
  }

  /** The attributes found have the values they are to have. */
  lemma ValueFound(attributes: map<string, string>, existing: set<string>, pod: Pod, name: string, k: string)
    ensures var v := Value(ResourceMap(attributes, K8sResources(pod, name), existing), k);
            && (v == "" <==> HasNoValue(attributes, existing, pod, name, k))
            && forall w :: AttributeIs(attributes, existing, pod, name, k, w) <==> w == v != ""
  {
    ResourceMapIsOrdered(attributes, existing, pod, name);
    var res := ResourceMap(attributes, K8sResources(pod, name), existing);
    var v := Value(res, k);
    if k !in existing {
      if w :| Provides(pod, name, k, w) {
        assert res[k] == w;
        assert AttributeIs(attributes, existing, pod, name, k, w);
      } else if v != "" {
        assert AttributeIs(attributes, existing, pod, name, k, v);
      }
    }
  }

  lemma FinalAttributesSay(spec: Spec, pod: Pod, name: string, image: string, existing: set<string>, env: seq<EnvVar>)
    ensures var res := ResourceMap(spec.attributes, K8sResources(pod, name), existing);
            Says(spec, pod, name, image, existing, env, FinalAttributes(spec, image, res, existing, env))
  {
    var res := ResourceMap(spec.attributes, K8sResources(pod, name), existing);
    var m := FinalAttributes(spec, image, res, existing, env);
    VersionIsNeeded(env, image);
    FinalValues(spec, image, res, existing, env);
    forall k, v | AttributeIs(spec.attributes, existing, pod, name, k, v)
                  && !(k == SERVICE_VERSION && GivesVersion(env, image))
      ensures k in m && m[k] == v
    {
      ValueFound(spec.attributes, existing, pod, name, k);
    }
    ValueFound(spec.attributes, existing, pod, name, POD_NAME);
    ValueFound(spec.attributes, existing, pod, name, NODE_NAME);
    ValueFound(spec.attributes, existing, pod, name, POD_UID);
    ValueFound(spec.attributes, existing, pod, name, SERVICE_NAME_SOURCE);
    forall k | k in m && k !in {POD_NAME, POD_UID, NODE_NAME, SERVICE_VERSION, SERVICE_NAME_SOURCE}
      ensures k !in existing && (k in spec.attributes || Provides(pod, name, k, m[k]))
    {
      FoundSomewhere(spec.attributes, existing, pod, name, k);
    }
  }

  lemma FoundSomewhere(attributes: map<string, string>, existing: set<string>, pod: Pod, name: string, k: string)
    requires k in ResourceMap(attributes, K8sResources(pod, name), existing)
    ensures k !in existing
    ensures k in attributes || Provides(pod, name, k, ResourceMap(attributes, K8sResources(pod, name), existing)[k])
  {
    ProvidedByPod(pod, name, k, ResourceMap(attributes, K8sResources(pod, name), existing)[k]);
  }

  lemma FinalValues(spec: Spec, image: string, res: map<string, string>, existing: set<string>, env: seq<EnvVar>)
    ensures var m := FinalAttributes(spec, image, res, existing, env);
            && (forall k | Value(res, k) != "" && !(k == SERVICE_VERSION && NeedsVersion(env, image)) ::
                  k in m && m[k] == res[k])
            && (NeedsPodName(res, existing) ==> POD_NAME in m && m[POD_NAME] == "$(" + ENV_POD_NAME + ")")
            && (NeedsNodeName(res, existing) ==> NODE_NAME in m && m[NODE_NAME] == "$(" + ENV_NODE_NAME + ")")
            && (NeedsPodUid(spec, res) ==> POD_UID in m && m[POD_UID] == "$(" + ENV_POD_UID + ")")
            && (NeedsVersion(env, image) ==> SERVICE_VERSION in m && m[SERVICE_VERSION] == ChooseServiceVersion(image))
            && (NeedsSource(res, existing) ==> SERVICE_NAME_SOURCE in m && m[SERVICE_NAME_SOURCE] == SourceOf(env))
            && (forall k | k in m && k !in {POD_NAME, POD_UID, NODE_NAME, SERVICE_VERSION, SERVICE_NAME_SOURCE} ::
                  k in res && m[k] == res[k])
  {
    KeysAreDistinct();
  }

  function Optional(condition: bool, v: EnvVar): seq<EnvVar> {
    if condition then [v] else []
  }

  function ServiceNameVar(env: seq<EnvVar>, res: map<string, string>, name: string): seq<EnvVar> {
    Optional(!Defines(env, ENV_SERVICE_NAME), EnvVar(ENV_SERVICE_NAME, ChooseServiceName(res, name), ""))
  }

  function EndpointVar(env: seq<EnvVar>, endpoint: string): seq<EnvVar> {
    Optional(endpoint != "" && !Defines(env, ENV_ENDPOINT), EnvVar(ENV_ENDPOINT, endpoint, ""))
  }

  function PodNameVar(res: map<string, string>, existing: set<string>): seq<EnvVar> {
    Optional(NeedsPodName(res, existing), EnvVar(ENV_POD_NAME, "", "metadata.name"))
  }

  function PodUidVar(spec: Spec, res: map<string, string>): seq<EnvVar> {
    Optional(NeedsPodUid(spec, res), EnvVar(ENV_POD_UID, "", "metadata.uid"))
  }

  function NodeNameVar(res: map<string, string>, existing: set<string>): seq<EnvVar> {
    Optional(NeedsNodeName(res, existing), EnvVar(ENV_NODE_NAME, "", "spec.nodeName"))
  }

  /** The entries added to an environment before the attributes, and those added after. */
  function AddedBefore(spec: Spec, name: string, res: map<string, string>, existing: set<string>,
                       env: seq<EnvVar>): seq<EnvVar> {
    ServiceNameVar(env, res, name) + EndpointVar(env, spec.endpoint)
    + PodNameVar(res, existing) + PodUidVar(spec, res) + NodeNameVar(res, existing)
  }

  function PropagatorsVar(spec: Spec, env: seq<EnvVar>): seq<EnvVar> {
    Optional(spec.propagators != [] && !Defines(env, ENV_PROPAGATORS),
             EnvVar(ENV_PROPAGATORS, Join(spec.propagators, ","), ""))
  }

  function SamplerVars(spec: Spec, env: seq<EnvVar>): seq<EnvVar> {
    if spec.samplerType == "" || Defines(env, ENV_TRACES_SAMPLER) || Defines(env, ENV_TRACES_SAMPLER_ARG) then []
    else [EnvVar(ENV_TRACES_SAMPLER, spec.samplerType, "")]
         + Optional(spec.samplerArgument != "", EnvVar(ENV_TRACES_SAMPLER_ARG, spec.samplerArgument, ""))
  }

  function AddedAfter(spec: Spec, env: seq<EnvVar>): seq<EnvVar> {
    PropagatorsVar(spec, env) + SamplerVars(spec, env)
  }

  /** A printed map behind the value the user had. */
  function Appended(value: string, printed: string): string {
    value + (if !HasSuffix(value, ',') && printed != "" then "," else "") + printed
  }

  /** The attributes entry that results. */
  function AttributesVar(env: seq<EnvVar>, printed: string): EnvVar {
    var idx := IndexOf(env, ENV_RESOURCE_ATTRS);
    if idx == -1 then EnvVar(ENV_RESOURCE_ATTRS, printed, "")
    else env[idx].(value := Appended(env[idx].value, printed))
  }

  /** The environment after the injection: what was there, without the attributes; what is added; the attributes. */
  ghost function Injected(spec: Spec, pod: Pod, name: string, image: string, appEnv: seq<EnvVar>,
                          env: seq<EnvVar>): seq<EnvVar>
  {
    var existing := ExistingKeys(appEnv);
    var res := ResourceMap(spec.attributes, K8sResources(pod, name), existing);
    Without(env, IndexOf(env, ENV_RESOURCE_ATTRS))
    + AddedBefore(spec, name, res, existing, env) + AddedAfter(spec, env)
    + [AttributesVar(env, Printed(FinalAttributes(spec, image, res, existing, env)))]
  }

  lemma NamesAreDistinct()
    ensures |ENV_SERVICE_NAME| == 17 && |ENV_ENDPOINT| == 27 && |ENV_RESOURCE_ATTRS| == 24 && |ENV_PROPAGATORS| == 16
    ensures |ENV_TRACES_SAMPLER| == 19 && |ENV_TRACES_SAMPLER_ARG| == 23
    ensures |ENV_POD_NAME| == 33 && |ENV_POD_UID| == 32 && |ENV_NODE_NAME| == 34
  {
  }

  lemma {:induction false} UndefinedIn(env: seq<EnvVar>, lengths: set<int>, name: string)
    requires forall i | 0 <= i < |env| :: |env[i].name| in lengths
    requires |name| !in lengths
    ensures !Defines(env, name)
  {
  }

  lemma LengthsAdded(spec: Spec, name: string, res: map<string, string>, existing: set<string>, env: seq<EnvVar>)
    ensures forall i | 0 <= i < |AddedBefore(spec, name, res, existing, env)| ::
              |AddedBefore(spec, name, res, existing, env)[i].name| in {17, 27, 33, 32, 34}
    ensures forall i | 0 <= i < |AddedAfter(spec, env)| :: |AddedAfter(spec, env)[i].name| in {16, 19, 23}
  {
    NamesAreDistinct();
  }

  lemma NoAttributesAdded(spec: Spec, name: string, res: map<string, string>, existing: set<string>, env: seq<EnvVar>)
    ensures !Defines(AddedBefore(spec, name, res, existing, env) + AddedAfter(spec, env), ENV_RESOURCE_ATTRS)
  {
    var before, after := AddedBefore(spec, name, res, existing, env), AddedAfter(spec, env);
    assert |ENV_RESOURCE_ATTRS| == 24 by { NamesAreDistinct(); }
    LengthsAdded(spec, name, res, existing, env);
    UndefinedIn(before, {17, 27, 33, 32, 34}, ENV_RESOURCE_ATTRS);
    UndefinedIn(after, {16, 19, 23}, ENV_RESOURCE_ATTRS);
    IndexOfAppended(before, after, ENV_RESOURCE_ATTRS);
  }

  /** None of the keys the injector handles by name is another. */
  lemma KeysAreDistinct()
    ensures |POD_NAME| == 12 && |POD_UID| == 11 && |NODE_NAME| == 13 && |SERVICE_VERSION| == 15
    ensures |SERVICE_NAME_SOURCE| == 60
  {
  }

  method AddServiceName(agent: Container, res: map<string, string>, name: string) returns (source: string)
    modifies agent`env
    ensures agent.env == old(agent.env) + ServiceNameVar(old(agent.env), res, name)
    ensures source == SourceOf(old(agent.env))
  {
    var idx := GetIndexOfEnv(agent.env, ENV_SERVICE_NAME);
    source := "Instrumentation";
    if idx == -1 {
      agent.env := agent.env + [EnvVar(ENV_SERVICE_NAME, ChooseServiceName(res, name), "")];
      source := "K8sWorkload";
    }
  }

  method AddEndpoint(agent: Container, endpoint: string)
    modifies agent`env
    ensures agent.env == old(agent.env) + EndpointVar(old(agent.env), endpoint)
  {
    if endpoint != "" {
      var idx := GetIndexOfEnv(agent.env, ENV_ENDPOINT);
      if idx == -1 {
        agent.env := agent.env + [EnvVar(ENV_ENDPOINT, endpoint, "")];
      }
    }
  }

  /** An attribute still without a value is taken from a field of the pod, by way of a variable. */
  method AddReference(agent: Container, res: map<string, string>, wanted: bool, k: string, name: string, field: string)
    returns (res': map<string, string>)
    modifies agent`env
    ensures agent.env == old(agent.env) + Optional(wanted && Value(res, k) == "", EnvVar(name, "", field))
    ensures res' == With(res, wanted && Value(res, k) == "", k, Reference(name))
  {
    res' := res;
    if wanted && Value(res, k) == "" {
      agent.env := agent.env + [EnvVar(name, "", field)];
      res' := res'[k := Reference(name)];
    }
  }

  method AddVersion(agent: Container, res: map<string, string>, image: string) returns (res': map<string, string>)
    ensures res' == With(res, NeedsVersion(agent.env, image), SERVICE_VERSION, ChooseServiceVersion(image))
  {
    res' := res;
    var idx := GetIndexOfEnv(agent.env, ENV_RESOURCE_ATTRS);
    if idx == -1 || !Contains(agent.env[idx].value, SERVICE_VERSION) {
      var vsn := ChooseServiceVersion(image);
      if vsn != "" {
        res' := res'[SERVICE_VERSION := vsn];
      }
    }
  }

  /** Entries of other names do not matter to the questions asked of an environment. */
  lemma UnaffectedBy(env: seq<EnvVar>, more: seq<EnvVar>, lengths: set<int>, name: string, image: string)
    requires forall i | 0 <= i < |more| :: |more[i].name| in lengths
    requires |name| !in lengths
    ensures Defines(env + more, name) <==> Defines(env, name)
    ensures name == ENV_RESOURCE_ATTRS ==> (NeedsVersion(env + more, image) <==> NeedsVersion(env, image))
  {
    UndefinedIn(more, lengths, name);
    IndexOfAppended(env, more, name);
  }

  lemma FivePieces(env: seq<EnvVar>, a: seq<EnvVar>, b: seq<EnvVar>, c: seq<EnvVar>, d: seq<EnvVar>, e: seq<EnvVar>)
    ensures env + a + b + c + d + e == env + (a + b + c + d + e)
    ensures env + a + b + c + d == env + (a + b + c + d)
  {
  }

  method InjectCommonSDKConfig(spec: Spec, pod: Pod, agent: Container, app: Container)
    modifies agent`env
    ensures agent.env == Injected(spec, pod, app.name, app.image, old(app.env), old(agent.env))
    ensures exists m ::
              && Says(spec, pod, app.name, app.image, ExistingKeys(old(app.env)), old(agent.env), m)
              && agent.env != [] && agent.env[|agent.env| - 1] == AttributesVar(old(agent.env), Printed(m))
  {
    ghost var env := agent.env;
    FinalAttributesSay(spec, pod, app.name, app.image, ExistingKeys(app.env), env);
    var res0, existing := CreateResourceMap(spec, pod, app);
    var res := AddKnown(spec, agent, app.name, app.image, res0, existing);
    LengthsAdded(spec, app.name, res0, existing, env);
    InjectAttributes(spec, agent, res, env, AddedBefore(spec, app.name, res0, existing, env));
  }

  /** The first half: service name, endpoint, and the attributes only the injector can know. */
  method AddKnown(spec: Spec, agent: Container, name: string, image: string,
                  res0: map<string, string>, existing: set<string>) returns (res: map<string, string>)
    modifies agent`env
    ensures agent.env == old(agent.env) + AddedBefore(spec, name, res0, existing, old(agent.env))
    ensures res == FinalAttributes(spec, image, res0, existing, old(agent.env))
  {
    ghost var env := agent.env;
    var source := AddServiceName(agent, res0, name);
    ghost var a := ServiceNameVar(env, res0, name);
    UnaffectedByServiceName(env, res0, name);
    AddEndpoint(agent, spec.endpoint);
    ghost var b := EndpointVar(env, spec.endpoint);
    res := AddAttributes(spec, agent, image, res0, existing, source, env, a + b);
    assert env + a + b == env + (a + b);
    FivePieces(env, a, b, PodNameVar(res0, existing), PodUidVar(spec, res0), NodeNameVar(res0, existing));
  }

  lemma UnaffectedByServiceName(env: seq<EnvVar>, res: map<string, string>, name: string)
    ensures EndpointVar(env + ServiceNameVar(env, res, name), "") == EndpointVar(env, "")
    ensures Defines(env + ServiceNameVar(env, res, name), ENV_ENDPOINT) <==> Defines(env, ENV_ENDPOINT)
  {
    NamesAreDistinct();
    UnaffectedBy(env, ServiceNameVar(env, res, name), {17}, ENV_ENDPOINT, "");
  }

  /** The resource map with references to the pod's name and UID where they are wanted. */
  function Identified(spec: Spec, res: map<string, string>, existing: set<string>): map<string, string> {
    With(With(res, NeedsPodName(res, existing), POD_NAME, Reference(ENV_POD_NAME)),
         NeedsPodUid(spec, res), POD_UID, Reference(ENV_POD_UID))
  }

  method AddPodAttributes(spec: Spec, agent: Container, res0: map<string, string>, existing: set<string>)
    returns (res: map<string, string>)
    modifies agent`env
    ensures agent.env == old(agent.env) + PodNameVar(res0, existing) + PodUidVar(spec, res0)
    ensures res == Identified(spec, res0, existing)
    ensures Value(res, NODE_NAME) == Value(res0, NODE_NAME)
        && Value(res, SERVICE_NAME_SOURCE) == Value(res0, SERVICE_NAME_SOURCE)
  {
    res := AddReference(agent, res0, POD_NAME !in existing, POD_NAME, ENV_POD_NAME, "metadata.name");
    ReferenceLeavesOthers(res0, NeedsPodName(res0, existing), POD_NAME, Reference(ENV_POD_NAME));
    ghost var named := res;
    res := AddReference(agent, res, spec.addK8sUID, POD_UID, ENV_POD_UID, "metadata.uid");
    ReferenceLeavesOthers(named, NeedsPodUid(spec, res0), POD_UID, Reference(ENV_POD_UID));
  }

  /** The attributes that are not known from the resource, the user or the pod. */
  method AddAttributes(spec: Spec, agent: Container, image: string, res0: map<string, string>, existing: set<string>,
                       source: string, ghost env: seq<EnvVar>, ghost added: seq<EnvVar>)
      returns (res: map<string, string>)
    requires agent.env == env + added && source == SourceOf(env)
    requires forall i | 0 <= i < |added| :: |added[i].name| in {17, 27}
    modifies agent`env
    ensures agent.env == env + added + PodNameVar(res0, existing) + PodUidVar(spec, res0) + NodeNameVar(res0, existing)
    ensures res == FinalAttributes(spec, image, res0, existing, env)
  {
    res := AddPodAttributes(spec, agent, res0, existing);
    ghost var identified := res;
    UnaffectedByPod(spec, res0, existing, env, added, image);
    res := AddVersion(agent, res, image);
    ghost var versioned := res;
    ReferenceLeavesOthers(identified, NeedsVersion(env, image), SERVICE_VERSION, ChooseServiceVersion(image));
    res := AddReference(agent, res, NODE_NAME !in existing, NODE_NAME, ENV_NODE_NAME, "spec.nodeName");
    ReferenceLeavesOthers(versioned, NeedsNodeName(res0, existing), NODE_NAME, Reference(ENV_NODE_NAME));
    if SERVICE_NAME_SOURCE !in existing && Value(res, SERVICE_NAME_SOURCE) == "" {
      res := res[SERVICE_NAME_SOURCE := source];
    }
  }

  lemma UnaffectedByPod(spec: Spec, res0: map<string, string>, existing: set<string>, env: seq<EnvVar>,
                        added: seq<EnvVar>, image: string)
    requires forall i | 0 <= i < |added| :: |added[i].name| in {17, 27}
    ensures NeedsVersion(env + added + PodNameVar(res0, existing) + PodUidVar(spec, res0), image) <==>
        NeedsVersion(env, image)
  {
    var more := added + PodNameVar(res0, existing) + PodUidVar(spec, res0);
    assert env + added + PodNameVar(res0, existing) + PodUidVar(spec, res0) == env + more;
    assert forall i | 0 <= i < |more| :: |more[i].name| in {17, 27, 33, 32} by { NamesAreDistinct(); }
    UnaffectedByAdded(env, more, image);
  }

  lemma UnaffectedByAdded(env: seq<EnvVar>, more: seq<EnvVar>, image: string)
    requires forall i | 0 <= i < |more| :: |more[i].name| in {17, 27, 33, 32}
    ensures NeedsVersion(env + more, image) <==> NeedsVersion(env, image)
  {
    NamesAreDistinct();
    UnaffectedBy(env, more, {17, 27, 33, 32}, ENV_RESOURCE_ATTRS, image);
  }

  lemma ReferenceLeavesOthers(m: map<string, string>, condition: bool, k: string, v: string)
    ensures k != POD_UID ==> Value(With(m, condition, k, v), POD_UID) == Value(m, POD_UID)
    ensures k != NODE_NAME ==> Value(With(m, condition, k, v), NODE_NAME) == Value(m, NODE_NAME)
    ensures k != SERVICE_NAME_SOURCE ==>
              Value(With(m, condition, k, v), SERVICE_NAME_SOURCE) == Value(m, SERVICE_NAME_SOURCE)
  {
  }

  method AddPropagators(spec: Spec, agent: Container)
    modifies agent`env
    ensures agent.env == old(agent.env) + PropagatorsVar(spec, old(agent.env))
  {
    var idx := GetIndexOfEnv(agent.env, ENV_PROPAGATORS);
    if idx == -1 && |spec.propagators| > 0 {
      agent.env := agent.env + [EnvVar(ENV_PROPAGATORS, Join(spec.propagators, ","), "")];
    }
  }

  method AddSampler(spec: Spec, agent: Container)
    modifies agent`env
    ensures agent.env == old(agent.env) + SamplerVars(spec, old(agent.env))
  {
    var idx := GetIndexOfEnv(agent.env, ENV_TRACES_SAMPLER);
    if idx == -1 && spec.samplerType != "" {
      var idxSamplerArg := GetIndexOfEnv(agent.env, ENV_TRACES_SAMPLER_ARG);
      if idxSamplerArg == -1 {
        agent.env := agent.env + [EnvVar(ENV_TRACES_SAMPLER, spec.samplerType, "")];
        if spec.samplerArgument != "" {
          agent.env := agent.env + [EnvVar(ENV_TRACES_SAMPLER_ARG, spec.samplerArgument, "")];
        }
      }
    }
  }

  /** An environment with the attributes entry written at its place, or at the end if there was none. */
  function WithAttributes(env: seq<EnvVar>, added: seq<EnvVar>, v: EnvVar): seq<EnvVar> {
    var idx := IndexOf(env, ENV_RESOURCE_ATTRS);
    if idx == -1 then env + added + [v] else env[idx := v] + added
  }

  method WriteAttributes(agent: Container, resStr: string, ghost env: seq<EnvVar>, ghost added: seq<EnvVar>)
    requires agent.env == env + added && !Defines(added, ENV_RESOURCE_ATTRS)
    modifies agent`env
    ensures agent.env == WithAttributes(env, added, AttributesVar(env, resStr))
  {
    IndexOfAppended(env, added, ENV_RESOURCE_ATTRS);
    var idx := GetIndexOfEnv(agent.env, ENV_RESOURCE_ATTRS);
    if idx == -1 {
      agent.env := agent.env + [EnvVar(ENV_RESOURCE_ATTRS, resStr, "")];
    } else {
      ExtendAttributes(agent, idx, resStr);
      ghost var v := env[idx].(value := Appended(env[idx].value, resStr));
      assert (env + added)[idx := v] == env[idx := v] + added;
    }
  }

  method ExtendAttributes(agent: Container, idx: nat, resStr: string)
    requires idx < |agent.env|
    modifies agent`env
    ensures agent.env ==
              old(agent.env)[idx := old(agent.env)[idx].(value := Appended(old(agent.env)[idx].value, resStr))]
  {
    var suffix := if !HasSuffix(agent.env[idx].value, ',') && resStr != "" then "," + resStr else resStr;
    assert Appended(agent.env[idx].value, resStr) == agent.env[idx].value + suffix;
    agent.env := agent.env[idx := agent.env[idx].(value := agent.env[idx].value + suffix)];
  }

  lemma AfterAttributes(env: seq<EnvVar>, added: seq<EnvVar>, v: EnvVar, name: string)
    requires v.name == ENV_RESOURCE_ATTRS != name && !Defines(added, name)
    ensures Defines(WithAttributes(env, added, v), name) <==> Defines(env, name)
  {
    var idx := IndexOf(env, ENV_RESOURCE_ATTRS);
    if idx == -1 {
      IndexOfAppended(env, added + [v], name);
      assert env + added + [v] == env + (added + [v]);
      assert !Defines(added + [v], name);
    } else {
      IndexOfAppended(env[idx := v], added, name);
      if i :| 0 <= i < |env| && env[i].name == name {
        assert env[idx := v][i].name == name;
      }
    }
  }

  /** Moving the attributes entry to the end leaves what was there, what is added, and the entry. */
  lemma MovedAttributes(env: seq<EnvVar>, added: seq<EnvVar>, more: seq<EnvVar>, v: EnvVar)
    requires v.name == ENV_RESOURCE_ATTRS && !Defines(added, ENV_RESOURCE_ATTRS)
    ensures var all := WithAttributes(env, added, v) + more;
            var idx := IndexOf(all, ENV_RESOURCE_ATTRS);
            && idx >= 0 && all[idx] == v
            && Without(all, idx) == Without(env, IndexOf(env, ENV_RESOURCE_ATTRS)) + added + more
  {
    if Defines(env, ENV_RESOURCE_ATTRS) {
      MovedPresent(env, added, more, v);
    } else {
      MovedAbsent(env, added, more, v);
    }
  }

  lemma MovedAbsent(env: seq<EnvVar>, added: seq<EnvVar>, more: seq<EnvVar>, v: EnvVar)
    requires v.name == ENV_RESOURCE_ATTRS && !Defines(added, ENV_RESOURCE_ATTRS) && !Defines(env, ENV_RESOURCE_ATTRS)
    ensures var all := WithAttributes(env, added, v) + more;
            var idx := IndexOf(all, ENV_RESOURCE_ATTRS);
            && idx >= 0 && all[idx] == v
            && Without(all, idx) == Without(env, IndexOf(env, ENV_RESOURCE_ATTRS)) + added + more
  {
    var all, at := WithAttributes(env, added, v) + more, |env + added|;
    IndexOfAppended(env, added, ENV_RESOURCE_ATTRS);
    assert all[..at] == env + added && all[at] == v;
    FirstIsIndex(all, ENV_RESOURCE_ATTRS, at);
    assert all[at + 1..] == more;
  }

  lemma MovedPresent(env: seq<EnvVar>, added: seq<EnvVar>, more: seq<EnvVar>, v: EnvVar)
    requires v.name == ENV_RESOURCE_ATTRS && Defines(env, ENV_RESOURCE_ATTRS)
    ensures var all := WithAttributes(env, added, v) + more;
            var idx := IndexOf(all, ENV_RESOURCE_ATTRS);
            && idx >= 0 && all[idx] == v
            && Without(all, idx) == Without(env, IndexOf(env, ENV_RESOURCE_ATTRS)) + added + more
  {
    var all, idx := WithAttributes(env, added, v) + more, IndexOf(env, ENV_RESOURCE_ATTRS);
    Replaced(env, idx, added, more, v);
    assert !Defines(all[..idx], ENV_RESOURCE_ATTRS);
    FirstIsIndex(all, ENV_RESOURCE_ATTRS, idx);
  }

  lemma Replaced(env: seq<EnvVar>, idx: nat, added: seq<EnvVar>, more: seq<EnvVar>, v: EnvVar)
    requires idx < |env|
    ensures var all := env[idx := v] + added + more;
            && |all| == |env| + |added| + |more| && all[idx] == v && all[..idx] == env[..idx]
            && all[..idx] + all[idx + 1..] == env[..idx] + env[idx + 1..] + added + more
  {
    var all := env[idx := v] + added + more;
    assert all[idx + 1..] == env[idx + 1..] + (added + more);
    Regrouped(env[idx + 1..], added, more);
    Regrouped(env[..idx], env[idx + 1..] + added, more);
    Regrouped(env[..idx], env[idx + 1..], added);
  }

  /** The second half: the attributes are printed, propagators and sampler are added, the attributes go last. */
  method InjectAttributes(spec: Spec, agent: Container, res: map<string, string>,
                          ghost env: seq<EnvVar>, ghost added: seq<EnvVar>)
    requires agent.env == env + added
    requires forall i | 0 <= i < |added| :: |added[i].name| in {17, 27, 33, 32, 34}
    modifies agent`env
    ensures agent.env == Without(env, IndexOf(env, ENV_RESOURCE_ATTRS)) + added + AddedAfter(spec, env)
                         + [AttributesVar(env, Printed(res))]
  {
    var resStr := ResourceMapToStr(res);
    ghost var v := AttributesVar(env, resStr);
    ghost var written := WithAttributes(env, added, v);
    AfterVarsOf(spec, env, added, v);
    WriteAttributes(agent, resStr, env, added);
    AddPropagators(spec, agent);
    AddSampler(spec, agent);
    assert agent.env == written + AddedAfter(spec, env);
    MovedAttributes(env, added, AddedAfter(spec, env), v);
    var idx := GetIndexOfEnv(agent.env, ENV_RESOURCE_ATTRS);
    var envs := MoveEnvToListEnd(agent.env, idx);
    agent.env := envs;
  }

  lemma AfterVarsOf(spec: Spec, env: seq<EnvVar>, added: seq<EnvVar>, v: EnvVar)
    requires v.name == ENV_RESOURCE_ATTRS
    requires forall i | 0 <= i < |added| :: |added[i].name| in {17, 27, 33, 32, 34}
    ensures !Defines(added, ENV_RESOURCE_ATTRS)
    ensures var written := WithAttributes(env, added, v);
            && PropagatorsVar(spec, written) == PropagatorsVar(spec, env)
            && SamplerVars(spec, written + PropagatorsVar(spec, env)) == SamplerVars(spec, env)
  {
    NamesAreDistinct();
    var written := WithAttributes(env, added, v);
    AfterAttributes(env, added, v, ENV_PROPAGATORS);
    AfterAttributes(env, added, v, ENV_TRACES_SAMPLER);
    AfterAttributes(env, added, v, ENV_TRACES_SAMPLER_ARG);
    UnaffectedBy(written, PropagatorsVar(spec, env), {16}, ENV_TRACES_SAMPLER, "");
    UnaffectedBy(written, PropagatorsVar(spec, env), {16}, ENV_TRACES_SAMPLER_ARG, "");
  }
}
