/** Injection of the Java agent, the language layer between the container's own environment and the common one. */
module JavaInjection {
  import opened Wrappers
  import opened Strings
  import opened Env
  import opened ResourceAttributes
  import opened SdkInjection
  import opened SdkLaws

  const ENV_JAVA_TOOL_OPTIONS := "JAVA_TOOL_OPTIONS"
  const JAVA_ARGUMENT := " -javaagent:/otel-auto-instrumentation-java/javaagent.jar"
  const ENV_APPLICATION_SIGNALS := "OTEL_AWS_APPLICATION_SIGNALS_ENABLED"
  const ENV_TRACES_ENDPOINT := "OTEL_EXPORTER_OTLP_TRACES_ENDPOINT"
  const ENV_METRICS_ENDPOINT := "OTEL_EXPORTER_OTLP_METRICS_ENDPOINT"
  const ENV_LOGS_ENDPOINT := "OTEL_EXPORTER_OTLP_LOGS_ENDPOINT"
  const STANDARD_ENDPOINT := "cloudwatch-agent.amazon-cloudwatch"
  const WINDOWS_ENDPOINT := "cloudwatch-agent-windows-headless.amazon-cloudwatch.svc.cluster.local"

  /** The two settings of a security context that matter here. */
  datatype SecurityContext = SecurityContext(runAsUser: Option<int>, runAsNonRoot: Option<bool>)

  // ---------------------------------------------------------------- conditions

  /** Case folding as far as it can lead to one of the letters of "true" and "false". */
  function Folded(c: char): char {
    if 'A' <= c <= 'Z' then (c as int + 32) as char else if c == '\U{17f}' then 's' else c
  }

  predicate EqualsFolded(s: string, lower: string) {
    |s| == |lower| && forall i | 0 <= i < |s| :: Folded(s[i]) == lower[i]
  }

  predicate ExplicitlyEnabled(envs: seq<EnvVar>) {
    EqualsFolded(GetEnvValue(envs, ENV_APPLICATION_SIGNALS), "true")
  }

  predicate ExplicitlyDisabled(envs: seq<EnvVar>) {
    EqualsFolded(GetEnvValue(envs, ENV_APPLICATION_SIGNALS), "false")
  }

  predicate IsCloudWatchAgent(endpoint: string) {
    Contains(endpoint, "://" + STANDARD_ENDPOINT) || Contains(endpoint, "://" + WINDOWS_ENDPOINT)
  }

  predicate LeavesEndpoint(envs: seq<EnvVar>, name: string) {
    GetEnvValue(envs, name) == "" || IsCloudWatchAgent(GetEnvValue(envs, name))
  }

  predicate ShouldInjectADOTSDK(envs: seq<EnvVar>, pod: Option<SecurityContext>, container: Option<SecurityContext>) {
    if pod.Some? && pod.value.runAsNonRoot == Some(true) && pod.value.runAsUser.None? then false
    else
      var podUser := if pod.Some? && pod.value.runAsUser.Some? then pod.value.runAsUser.value else -1;
      var user := if container.Some? && container.value.runAsUser.Some? then container.value.runAsUser.value
          else podUser;
      if container.Some? && container.value.runAsNonRoot == Some(true) && user == -1 then false
      else
        || ExplicitlyEnabled(envs)
        || (LeavesEndpoint(envs, ENV_ENDPOINT) && LeavesEndpoint(envs, ENV_TRACES_ENDPOINT)
            && LeavesEndpoint(envs, ENV_METRICS_ENDPOINT) && LeavesEndpoint(envs, ENV_LOGS_ENDPOINT))
  }

  /** An endpoint that is set and names neither address of the agent. */
  predicate IsThirdParty(endpoint: string) {
    && endpoint != "" && !Contains(endpoint, "://" + "cloudwatch-agent.amazon-cloudwatch")
    && !Contains(endpoint, "://" + "cloudwatch-agent-windows-headless.amazon-cloudwatch.svc.cluster.local")
  }

  /** One of the four endpoints is a third party's. */
  predicate SendsElsewhere(envs: seq<EnvVar>) {
    || IsThirdParty(GetEnvValue(envs, ENV_ENDPOINT)) || IsThirdParty(GetEnvValue(envs, ENV_TRACES_ENDPOINT))
    || IsThirdParty(GetEnvValue(envs, ENV_METRICS_ENDPOINT)) || IsThirdParty(GetEnvValue(envs, ENV_LOGS_ENDPOINT))
  }

  predicate AsksForSignals(envs: seq<EnvVar>) {
    EqualsFolded(GetEnvValue(envs, ENV_APPLICATION_SIGNALS), "true")
  }

  predicate MustNotRunAsRoot(context: Option<SecurityContext>) {
    context.Some? && context.value.runAsNonRoot == Some(true)
  }

  /** A user is named; -1 counts as none. */
  predicate NamesUser(context: Option<SecurityContext>) {
    context.Some? && context.value.runAsUser.Some? && context.value.runAsUser != Some(-1)
  }

  /** A pod that must not run as root but has no user is left alone, whatever its container says; so is a container that
      must not and for which nobody names a user. */
  predicate MayRun(pod: Option<SecurityContext>, container: Option<SecurityContext>) {
    && (MustNotRunAsRoot(pod) ==> pod.value.runAsUser.Some?)
    && (MustNotRunAsRoot(container) ==>
          if container.value.runAsUser.Some? then NamesUser(container) else NamesUser(pod))
  }

  lemma AgentAddresses(endpoint: string)
    ensures endpoint != "" && !IsCloudWatchAgent(endpoint) <==> IsThirdParty(endpoint)
  {
  }

  /** Who is injected: security contexts permitting, whoever asks for Application Signals, and everybody else who does
      not send what is measured elsewhere. */
  lemma WhoIsInjected(envs: seq<EnvVar>, pod: Option<SecurityContext>, container: Option<SecurityContext>)
    ensures ShouldInjectADOTSDK(envs, pod, container) <==>
              MayRun(pod, container) && (AsksForSignals(envs) || !SendsElsewhere(envs))
  {
    AgentAddresses(GetEnvValue(envs, ENV_ENDPOINT));
    AgentAddresses(GetEnvValue(envs, ENV_TRACES_ENDPOINT));
    AgentAddresses(GetEnvValue(envs, ENV_METRICS_ENDPOINT));
    AgentAddresses(GetEnvValue(envs, ENV_LOGS_ENDPOINT));
  }

  /** A container with none of the five variables sends nothing elsewhere. */
  lemma OrdinaryIsNotElsewhere(envs: seq<EnvVar>)
    requires !Defines(envs, ENV_ENDPOINT) && !Defines(envs, ENV_TRACES_ENDPOINT)
    requires !Defines(envs, ENV_METRICS_ENDPOINT) && !Defines(envs, ENV_LOGS_ENDPOINT)
    ensures !SendsElsewhere(envs)
  {
  }

  predicate ShouldInjectEnvVar(envs: seq<EnvVar>, name: string) {
    GetEnvValue(envs, name) == "" && !ExplicitlyDisabled(envs)
  }

  /** The first entry of that name takes its value from a field of the pod. */
  predicate TakenFromField(env: seq<EnvVar>, name: string) {
    var idx := IndexOf(env, name);
    idx >= 0 && env[idx].valueFrom != ""
  }

  // ---------------------------------------------------------------- the language layer

  function Allowed(layer: seq<EnvVar>, envs: seq<EnvVar>): seq<EnvVar> {
    if layer == [] then []
    else
      var last := layer[|layer| - 1];
      Allowed(layer[..|layer| - 1], envs) + if ShouldInjectEnvVar(envs, last.name) then [last] else []
  }

  function WithJavaOption(env: seq<EnvVar>): seq<EnvVar> {
    var idx := IndexOf(env, ENV_JAVA_TOOL_OPTIONS);
    if idx == -1 then env + [EnvVar(ENV_JAVA_TOOL_OPTIONS, JAVA_ARGUMENT, "")]
    else env[idx := env[idx].(value := env[idx].value + JAVA_ARGUMENT)]
  }

  method InjectJavaagent(layer: seq<EnvVar>, container: Container, envs: seq<EnvVar>,
                         podContext: Option<SecurityContext>, containerContext: Option<SecurityContext>)
    returns (injected: bool)
    modifies container`env
    ensures injected <==> !TakenFromField(old(container.env), ENV_JAVA_TOOL_OPTIONS)
                          && ShouldInjectADOTSDK(envs, podContext, containerContext)
    ensures injected <==> !TakenFromField(old(container.env), ENV_JAVA_TOOL_OPTIONS)
                          && MayRun(podContext, containerContext) && (AsksForSignals(envs) || !SendsElsewhere(envs))
    ensures container.env == if injected then WithJavaOption(old(container.env) + Allowed(layer, envs))
        else old(container.env)
  {
    WhoIsInjected(envs, podContext, containerContext);
    var idx := GetIndexOfEnv(container.env, ENV_JAVA_TOOL_OPTIONS);
    if idx != -1 && container.env[idx].valueFrom != "" {
      return false;
    }
    if !ShouldInjectADOTSDK(envs, podContext, containerContext) {
      return false;
    }
    AppendAllowed(layer, container, envs);
    AppendJavaOption(container);
    return true;
  }

  method AppendAllowed(layer: seq<EnvVar>, container: Container, envs: seq<EnvVar>)
    modifies container`env
    ensures container.env == old(container.env) + Allowed(layer, envs)
  {
    ghost var env := container.env;
    for i := 0 to |layer|
      invariant container.env == env + Allowed(layer[..i], envs)
    {
      assert layer[..i + 1][..i] == layer[..i];
      if ShouldInjectEnvVar(envs, layer[i].name) {
        container.env := container.env + [layer[i]];
      }
    }
    assert layer[..|layer|] == layer;
  }

  method AppendJavaOption(container: Container)
    modifies container`env
    ensures container.env == WithJavaOption(old(container.env))
  {
    var idx := GetIndexOfEnv(container.env, ENV_JAVA_TOOL_OPTIONS);
    if idx == -1 {
      container.env := container.env + [EnvVar(ENV_JAVA_TOOL_OPTIONS, JAVA_ARGUMENT, "")];
    } else {
      container.env := container.env[idx := container.env[idx].(value := container.env[idx].value + JAVA_ARGUMENT)];
    }
  }

  // ---------------------------------------------------------------- the common layer

  function Missing(layer: seq<EnvVar>, env: seq<EnvVar>): seq<EnvVar> {
    if layer == [] then []
    else
      var missing := Missing(layer[..|layer| - 1], env);
      var last := layer[|layer| - 1];
      if Defines(env + missing, last.name) then missing else missing + [last]
  }

  method InjectCommonEnvVar(layer: seq<EnvVar>, container: Container)
    modifies container`env
    ensures container.env == old(container.env) + Missing(layer, old(container.env))
  {
    ghost var env := container.env;
    for i := 0 to |layer|
      invariant container.env == env + Missing(layer[..i], env)
    {
      assert layer[..i + 1][..i] == layer[..i];
      var idx := GetIndexOfEnv(container.env, layer[i].name);
      if idx == -1 {
        container.env := container.env + [layer[i]];
      }
    }
    assert layer[..|layer|] == layer;
  }

  // ---------------------------------------------------------------- all layers

  /** The environment when the SDK configuration is about to be added. */
  function BeforeSdk(c: Setting, layer: seq<EnvVar>, user: seq<EnvVar>): seq<EnvVar> {
    var withJava := WithJavaOption(user + Allowed(layer, user));
    withJava + Missing(c.spec.env, withJava)
  }

  ghost function AfterAll(c: Setting, layer: seq<EnvVar>, user: seq<EnvVar>): seq<EnvVar> {
    Inject(c, BeforeSdk(c, layer, user))
  }

  /** The Java branch of the injector, for a container without envFrom. */
  method InjectJava(c: Setting, layer: seq<EnvVar>, container: Container,
                    podContext: Option<SecurityContext>, containerContext: Option<SecurityContext>)
    returns (injected: bool)
    requires container.name == c.name && container.image == c.image
    modifies container`env
    ensures container.env == if injected then AfterAll(c, layer, old(container.env)) else old(container.env)
    ensures injected <==> !TakenFromField(old(container.env), ENV_JAVA_TOOL_OPTIONS)
                          && ShouldInjectADOTSDK(old(container.env), podContext, containerContext)
    ensures injected <==>
              && !TakenFromField(old(container.env), ENV_JAVA_TOOL_OPTIONS) && MayRun(podContext, containerContext)
              && (AsksForSignals(old(container.env)) || !SendsElsewhere(old(container.env)))
    ensures MayRun(podContext, containerContext)
            && (forall name | name in {ENV_JAVA_TOOL_OPTIONS, ENV_ENDPOINT, ENV_TRACES_ENDPOINT, ENV_METRICS_ENDPOINT,
                                       ENV_LOGS_ENDPOINT} :: !Defines(old(container.env), name)) ==>
              injected
  {
    if forall name | name in {ENV_ENDPOINT, ENV_TRACES_ENDPOINT, ENV_METRICS_ENDPOINT, ENV_LOGS_ENDPOINT} ::
         !Defines(container.env, name) {
      OrdinaryIsNotElsewhere(container.env);
    }
    injected := InjectJavaagent(layer, container, container.env, podContext, containerContext);
    if injected {
      InjectCommonEnvVar(c.spec.env, container);
      InjectCommonSDKConfig(c.spec, c.pod, container, container);
    }
  }

  // ---------------------------------------------------------------- the first entry of a name

  function EntryOf(env: seq<EnvVar>, name: string): (entry: Option<EnvVar>)
    ensures entry.Some? <==> Defines(env, name)
  {
    var idx := IndexOf(env, name);
    if idx == -1 then None else Some(env[idx])
  }

  /** The entry of the first layer that has one. */
  function FirstEntry(layers: seq<seq<EnvVar>>, name: string): Option<EnvVar> {
    if layers == [] then None
    else if Defines(layers[0], name) then EntryOf(layers[0], name)
    else FirstEntry(layers[1..], name)
  }

  lemma FirstOf(layer: seq<EnvVar>, others: seq<seq<EnvVar>>, name: string)
    ensures FirstEntry([layer] + others, name) ==
              if Defines(layer, name) then EntryOf(layer, name) else FirstEntry(others, name)
  {
    assert ([layer] + others)[1..] == others;
  }

  lemma FirstOfThree(a: seq<EnvVar>, b: seq<EnvVar>, c: seq<EnvVar>, name: string)
    ensures FirstEntry([a, b, c], name) ==
              if Defines(a, name) then EntryOf(a, name) else if Defines(b, name) then EntryOf(b, name)
                else EntryOf(c, name)
  {
    FirstOf(c, [], name);
    FirstOf(b, [c], name);
    FirstOf(a, [b, c], name);
    assert [a] + [b, c] == [a, b, c] && [b] + [c] == [b, c] && [c] + [] == [c];
  }

  lemma FirstOfFour(a: seq<EnvVar>, b: seq<EnvVar>, c: seq<EnvVar>, d: seq<EnvVar>, name: string)
    ensures FirstEntry([a, b, c, d], name) ==
              if FirstEntry([a, b, c], name).Some? then FirstEntry([a, b, c], name) else EntryOf(d, name)
  {
    FirstOfThree(a, b, c, name);
    FirstOfThree(b, c, d, name);
    FirstOf(a, [b, c, d], name);
    assert [a] + [b, c, d] == [a, b, c, d];
  }

  lemma EntryOfAppended(a: seq<EnvVar>, b: seq<EnvVar>, name: string)
    ensures EntryOf(a + b, name) == if Defines(a, name) then EntryOf(a, name) else EntryOf(b, name)
  {
    IndexOfAppended(a, b, name);
    if !Defines(a, name) && Defines(b, name) {
      var idx := IndexOf(b, name);
      assert (a + b)[..|a| + idx] == a + b[..idx];
      IndexOfAppended(a, b[..idx], name);
      FirstIsIndex(a + b, name, |a| + idx);
    }
  }

  lemma EntryOfOne(v: EnvVar, name: string)
    ensures EntryOf([v], name) == if v.name == name then Some(v) else None
  {
    assert v.name == name ==> [v][0].name == name;
  }

  lemma DistinctAppended(a: seq<EnvVar>, b: seq<EnvVar>)
    ensures Distinct(a + b) <==> Distinct(a) && Distinct(b) && forall i | 0 <= i < |b| :: !Defines(a, b[i].name)
  {
    var ab := a + b;
    if Distinct(ab) {
      forall i, j | 0 <= i < j < |a| ensures a[i].name != a[j].name {
        assert ab[i] == a[i] && ab[j] == a[j];
      }
      forall i, j | 0 <= i < j < |b| ensures b[i].name != b[j].name {
        assert ab[|a| + i] == b[i] && ab[|a| + j] == b[j];
      }
      forall i | 0 <= i < |b| ensures !Defines(a, b[i].name) {
        forall k | 0 <= k < |a| ensures a[k].name != b[i].name {
          assert ab[k] == a[k] && ab[|a| + i] == b[i];
        }
      }
    }
  }

  lemma EntryOfOthers(env: seq<EnvVar>, idx: nat, name: string)
    requires idx < |env| && env[idx].name != name
    ensures EntryOf(Without(env, idx), name) == EntryOf(env, name)
  {
    var before, after := env[..idx], env[idx + 1..];
    assert env == before + ([env[idx]] + after);
    EntryOfAppended(before, [env[idx]] + after, name);
    EntryOfAppended([env[idx]], after, name);
    EntryOfAppended(before, after, name);
    EntryOfOne(env[idx], name);
  }

  // ---------------------------------------------------------------- what each layer contributes

  lemma {:induction false} EntryOfAllowed(layer: seq<EnvVar>, envs: seq<EnvVar>, name: string)
    ensures EntryOf(Allowed(layer, envs), name) == if ShouldInjectEnvVar(envs, name) then EntryOf(layer, name) else None
  {
    if layer != [] {
      var before, last := layer[..|layer| - 1], layer[|layer| - 1];
      EntryOfAllowed(before, envs, name);
      assert layer == before + [last];
      EntryOfAppended(before, [last], name);
      EntryOfAppended(Allowed(before, envs), if ShouldInjectEnvVar(envs, last.name) then [last] else [], name);
      EntryOfOne(last, name);
    }
  }

  lemma {:induction false} AllowedIsDistinct(layer: seq<EnvVar>, envs: seq<EnvVar>)
    requires Distinct(layer)
    ensures Distinct(Allowed(layer, envs))
  {
    if layer != [] {
      var before, last := layer[..|layer| - 1], layer[|layer| - 1];
      AllowedIsDistinct(before, envs);
      assert layer == before + [last];
      DistinctAppended(before, [last]);
      assert !Defines(before, [last][0].name);
      EntryOfAllowed(before, envs, last.name);
      DistinctAppended(Allowed(before, envs), if ShouldInjectEnvVar(envs, last.name) then [last] else []);
    }
  }

  lemma {:induction false} EntryOfMissing(layer: seq<EnvVar>, env: seq<EnvVar>, name: string)
    ensures EntryOf(Missing(layer, env), name) == if Defines(env, name) then None else EntryOf(layer, name)
  {
    if layer != [] {
      var before, last := layer[..|layer| - 1], layer[|layer| - 1];
      EntryOfMissing(before, env, name);
      EntryOfMissing(before, env, last.name);
      assert layer == before + [last];
      EntryOfAppended(before, [last], name);
      EntryOfAppended(Missing(before, env), [last], name);
      EntryOfOne(last, name);
      IndexOfAppended(env, Missing(before, env), last.name);
    }
  }

  lemma {:induction false} MissingIsDistinct(layer: seq<EnvVar>, env: seq<EnvVar>)
    ensures Distinct(env + Missing(layer, env)) <==> Distinct(env)
  {
    if layer == [] {
      assert env + [] == env;
    } else {
      var before, last := layer[..|layer| - 1], layer[|layer| - 1];
      var missing := Missing(before, env);
      MissingIsDistinct(before, env);
      DistinctAppended(env + missing, [last]);
      assert env + (missing + [last]) == env + missing + [last];
    }
  }

  /** Only the value of the Java options changes: it keeps what it had and gets the agent. */
  lemma JavaOptionAlone(env: seq<EnvVar>)
    ensures GetEnvValue(WithJavaOption(env), ENV_JAVA_TOOL_OPTIONS) == GetEnvValue(env, ENV_JAVA_TOOL_OPTIONS)
        + JAVA_ARGUMENT
    ensures forall name | name != ENV_JAVA_TOOL_OPTIONS :: EntryOf(WithJavaOption(env), name) == EntryOf(env, name)
    ensures Distinct(WithJavaOption(env)) <==> Distinct(env)
  {
    var idx := IndexOf(env, ENV_JAVA_TOOL_OPTIONS);
    var v := EnvVar(ENV_JAVA_TOOL_OPTIONS, JAVA_ARGUMENT, "");
    if idx == -1 {
      DistinctAppended(env, [v]);
      EntryOfAppended(env, [v], ENV_JAVA_TOOL_OPTIONS);
      EntryOfOne(v, ENV_JAVA_TOOL_OPTIONS);
    } else {
      RenamedNowhere(env, WithJavaOption(env));
      SameNamesSameIndex(env, WithJavaOption(env), ENV_JAVA_TOOL_OPTIONS);
    }
    forall name | name != ENV_JAVA_TOOL_OPTIONS
      ensures EntryOf(WithJavaOption(env), name) == EntryOf(env, name)
    {
      if idx == -1 {
        EntryOfAppended(env, [v], name);
        EntryOfOne(v, name);
      } else {
        SameNamesSameIndex(env, WithJavaOption(env), name);
      }
    }
  }

  predicate SameNames(a: seq<EnvVar>, b: seq<EnvVar>) {
    |a| == |b| && forall i | 0 <= i < |a| :: a[i].name == b[i].name
  }

  lemma RenamedNowhere(a: seq<EnvVar>, b: seq<EnvVar>)
    requires SameNames(a, b)
    ensures Distinct(a) <==> Distinct(b)
  {
  }

  lemma SameNamesSameIndex(a: seq<EnvVar>, b: seq<EnvVar>, name: string)
    requires SameNames(a, b)
    ensures IndexOf(a, name) == IndexOf(b, name)
  {
    var idx := IndexOf(a, name);
    if idx == -1 {
      forall i | 0 <= i < |b| ensures b[i].name != name {
        assert a[i].name != name;
      }
    } else {
      forall i | 0 <= i < idx ensures b[..idx][i].name != name {
        assert a[..idx][i].name != name;
      }
      FirstIsIndex(b, name, idx);
    }
  }

  // ---------------------------------------------------------------- precedence

  /** The layers before the SDK configuration, in order of precedence. The language layer is empty when the container
      explicitly switches Application Signals off. */
  function Layers(c: Setting, layer: seq<EnvVar>, user: seq<EnvVar>): (layers: seq<seq<EnvVar>>)
    ensures |layers| == 3
  {
    [user, if ExplicitlyDisabled(user) then [] else layer, c.spec.env]
  }

  /** What the SDK configuration provides, whatever the other layers define. The sampler and its argument go together:
      they are left out as soon as either is defined. */
  function Config(c: Setting, env: seq<EnvVar>): seq<EnvVar> {
    var res, existing := Found(c, env), ExistingKeys(env);
    [EnvVar(ENV_SERVICE_NAME, ChooseServiceName(res, c.name), "")]
    + Optional(c.spec.endpoint != "", EnvVar(ENV_ENDPOINT, c.spec.endpoint, ""))
    + (PodNameVar(res, existing) + PodUidVar(c.spec, res) + NodeNameVar(res, existing))
    + Optional(c.spec.propagators != [], EnvVar(ENV_PROPAGATORS, Join(c.spec.propagators, ","), ""))
    + SamplerVars(c.spec, env)
  }

  lemma EntryBeforeSdk(c: Setting, layer: seq<EnvVar>, user: seq<EnvVar>, name: string)
    requires name != ENV_JAVA_TOOL_OPTIONS
    ensures EntryOf(BeforeSdk(c, layer, user), name) == FirstEntry(Layers(c, layer, user), name)
  {
    var allowed := user + Allowed(layer, user);
    var withJava := WithJavaOption(allowed);
    JavaOptionAlone(allowed);
    EntryOfAppended(withJava, Missing(c.spec.env, withJava), name);
    EntryOfMissing(c.spec.env, withJava, name);
    EntryOfAppended(user, Allowed(layer, user), name);
    EntryOfAllowed(layer, user, name);
    var layers := Layers(c, layer, user);
    FirstOfThree(layers[0], layers[1], layers[2], name);
  }

  lemma EntryOfInjected(c: Setting, env: seq<EnvVar>, name: string)
    requires name != ENV_RESOURCE_ATTRS
    ensures EntryOf(Inject(c, env), name) == if Defines(env, name) then EntryOf(env, name)
        else EntryOf(Added(c, env), name)
  {
    InjectedShape(c, env);
    var idx := IndexOf(env, ENV_RESOURCE_ATTRS);
    var kept, v := Without(env, idx), AttributesVar(env, Printed(Attributes(c, env)));
    if idx >= 0 {
      EntryOfOthers(env, idx, name);
    }
    EntryOfAppended(kept, Added(c, env), name);
    EntryOfAppended(kept + Added(c, env), [v], name);
    EntryOfOne(v, name);
  }

  lemma EntryUnlessDefined(condition: bool, env: seq<EnvVar>, v: EnvVar, name: string)
    requires !Defines(env, name)
    ensures EntryOf(Optional(condition && !Defines(env, v.name), v), name) == EntryOf(Optional(condition, v), name)
  {
    EntryOfOne(v, name);
  }

  lemma EntryOfFive(a: seq<EnvVar>, b: seq<EnvVar>, h: seq<EnvVar>, p: seq<EnvVar>, s: seq<EnvVar>,
                    a': seq<EnvVar>, b': seq<EnvVar>, p': seq<EnvVar>, name: string)
    requires EntryOf(a, name) == EntryOf(a', name) && EntryOf(b, name) == EntryOf(b', name)
        && EntryOf(p, name) == EntryOf(p', name)
    ensures EntryOf(a + b + h + p + s, name) == EntryOf(a' + b' + h + p' + s, name)
  {
    EntryOfAppended(a, b, name);
    EntryOfAppended(a', b', name);
    EntryOfAppended(a + b, h, name);
    EntryOfAppended(a' + b', h, name);
    EntryOfAppended(a + b + h, p, name);
    EntryOfAppended(a' + b' + h, p', name);
    EntryOfAppended(a + b + h + p, s, name);
    EntryOfAppended(a' + b' + h + p', s, name);
  }

  lemma SevenAsFive(s: seq<EnvVar>, e: seq<EnvVar>, n: seq<EnvVar>, u: seq<EnvVar>, d: seq<EnvVar>,
                    p: seq<EnvVar>, t: seq<EnvVar>)
    ensures (s + e + n + u + d) + (p + t) == s + e + (n + u + d) + p + t
  {
  }

  lemma EntryOfConfig(c: Setting, env: seq<EnvVar>, name: string)
    requires !Defines(env, name)
    ensures EntryOf(Added(c, env), name) == EntryOf(Config(c, env), name)
  {
    var res, existing := Found(c, env), ExistingKeys(env);
    ConfigPieces(env, EnvVar(ENV_SERVICE_NAME, ChooseServiceName(res, c.name), ""),
                 c.spec.endpoint != "", EnvVar(ENV_ENDPOINT, c.spec.endpoint, ""),
                 PodNameVar(res, existing), PodUidVar(c.spec, res), NodeNameVar(res, existing),
                 c.spec.propagators != [], EnvVar(ENV_PROPAGATORS, Join(c.spec.propagators, ","), ""),
                 SamplerVars(c.spec, env), name);
  }

  /** Entries whose names are taken are left out; for a name that is not taken that makes no difference. */
  lemma ConfigPieces(env: seq<EnvVar>, s: EnvVar, withEndpoint: bool, e: EnvVar,
                     n: seq<EnvVar>, u: seq<EnvVar>, d: seq<EnvVar>, withPropagators: bool, p: EnvVar,
                     t: seq<EnvVar>, name: string)
    requires !Defines(env, name)
    ensures EntryOf((Optional(!Defines(env, s.name), s) + Optional(withEndpoint && !Defines(env, e.name), e) + n + u
        + d)
                    + (Optional(withPropagators && !Defines(env, p.name), p) + t), name)
            == EntryOf([s] + Optional(withEndpoint, e) + (n + u + d) + Optional(withPropagators, p) + t, name)
  {
    EntryUnlessDefined(true, env, s, name);
    EntryUnlessDefined(withEndpoint, env, e, name);
    EntryUnlessDefined(withPropagators, env, p, name);
    EntryOfFive(Optional(!Defines(env, s.name), s), Optional(withEndpoint && !Defines(env, e.name), e), n + u + d,
                Optional(withPropagators && !Defines(env, p.name), p), t,
                [s], Optional(withEndpoint, e), Optional(withPropagators, p), name);
    SevenAsFive(Optional(!Defines(env, s.name), s), Optional(withEndpoint && !Defines(env, e.name), e), n, u, d,
                Optional(withPropagators && !Defines(env, p.name), p), t);
  }

  /** Each name other than the two that are edited takes its entry from the first layer that defines it: the container,
      the language, the common layer, the SDK configuration. */
  lemma FourLayers(c: Setting, layer: seq<EnvVar>, user: seq<EnvVar>, name: string)
    requires name != ENV_JAVA_TOOL_OPTIONS && name != ENV_RESOURCE_ATTRS
    ensures EntryOf(AfterAll(c, layer, user), name)
            == FirstEntry(Layers(c, layer, user) + [Config(c, BeforeSdk(c, layer, user))], name)
  {
    var env, layers := BeforeSdk(c, layer, user), Layers(c, layer, user);
    EntryBeforeSdk(c, layer, user, name);
    EntryOfInjected(c, env, name);
    if !Defines(env, name) {
      EntryOfConfig(c, env, name);
    }
    FirstOfFour(layers[0], layers[1], layers[2], Config(c, env), name);
    assert layers + [Config(c, env)] == [layers[0], layers[1], layers[2], Config(c, env)];
    assert layers == [layers[0], layers[1], layers[2]];
  }

  /** The agent is loaded after whatever options the container, or else the language layer, asks for. */
  lemma AgentIsLoaded(c: Setting, layer: seq<EnvVar>, user: seq<EnvVar>)
    ensures GetEnvValue(AfterAll(c, layer, user), ENV_JAVA_TOOL_OPTIONS) ==
              (if Defines(user, ENV_JAVA_TOOL_OPTIONS) then GetEnvValue(user, ENV_JAVA_TOOL_OPTIONS)
               else if ExplicitlyDisabled(user) then ""
               else GetEnvValue(layer, ENV_JAVA_TOOL_OPTIONS)) + JAVA_ARGUMENT
  {
    var allowed := user + Allowed(layer, user);
    var withJava := WithJavaOption(allowed);
    JavaOptionAlone(allowed);
    EntryOfAppended(user, Allowed(layer, user), ENV_JAVA_TOOL_OPTIONS);
    EntryOfAllowed(layer, user, ENV_JAVA_TOOL_OPTIONS);
    EntryOfAppended(withJava, Missing(c.spec.env, withJava), ENV_JAVA_TOOL_OPTIONS);
    assert Defines(withJava, ENV_JAVA_TOOL_OPTIONS) by { JavaOptionIsDefined(allowed); }
    assert ENV_JAVA_TOOL_OPTIONS != ENV_RESOURCE_ATTRS by { NamesAreDistinct(); }
    EntryOfInjected(c, BeforeSdk(c, layer, user), ENV_JAVA_TOOL_OPTIONS);
  }

  lemma JavaOptionIsDefined(env: seq<EnvVar>)
    ensures Defines(WithJavaOption(env), ENV_JAVA_TOOL_OPTIONS)
  {
    var idx := IndexOf(env, ENV_JAVA_TOOL_OPTIONS);
    assert WithJavaOption(env)[if idx == -1 then |env| else idx].name == ENV_JAVA_TOOL_OPTIONS;
  }

  // ---------------------------------------------------------------- distinct names

  /** None of the variables the injector invents is defined already. */
  predicate HelpersAreFree(c: Setting, env: seq<EnvVar>) {
    var res, existing := Found(c, env), ExistingKeys(env);
    && (NeedsPodName(res, existing) ==> !Defines(env, ENV_POD_NAME))
    && (NeedsPodUid(c.spec, res) ==> !Defines(env, ENV_POD_UID))
    && (NeedsNodeName(res, existing) ==> !Defines(env, ENV_NODE_NAME))
  }

  /** What the user defines without a value is not defined by the language layer. */
  predicate EmptyOnesAreFree(layer: seq<EnvVar>, user: seq<EnvVar>) {
    forall i | 0 <= i < |layer| :: Defines(user, layer[i].name) ==> !ShouldInjectEnvVar(user, layer[i].name)
  }

  predicate OfLength(env: seq<EnvVar>, lengths: set<int>) {
    forall i | 0 <= i < |env| :: |env[i].name| in lengths
  }

  lemma DistinctByLength(a: seq<EnvVar>, b: seq<EnvVar>, l: set<int>, m: set<int>)
    requires Distinct(a) && Distinct(b) && OfLength(a, l) && OfLength(b, m) && l !! m
    ensures Distinct(a + b) && OfLength(a + b, l + m)
  {
  }

  lemma SevenDistinct(s: seq<EnvVar>, e: seq<EnvVar>, n: seq<EnvVar>, u: seq<EnvVar>, d: seq<EnvVar>,
                      p: seq<EnvVar>, t: seq<EnvVar>)
    requires Distinct(s) && Distinct(e) && Distinct(n) && Distinct(u) && Distinct(d) && Distinct(p) && Distinct(t)
    requires OfLength(s, {17}) && OfLength(e, {27}) && OfLength(n, {33}) && OfLength(u, {32}) && OfLength(d, {34})
    requires OfLength(p, {16}) && OfLength(t, {19, 23})
    ensures Distinct((s + e + n + u + d) + (p + t))
  {
    DistinctByLength(s, e, {17}, {27});
    DistinctByLength(s + e, n, {17} + {27}, {33});
    DistinctByLength(s + e + n, u, {17} + {27} + {33}, {32});
    DistinctByLength(s + e + n + u, d, {17} + {27} + {33} + {32}, {34});
    DistinctByLength(p, t, {16}, {19, 23});
    DistinctByLength(s + e + n + u + d, p + t, {17} + {27} + {33} + {32} + {34}, {16} + {19, 23});
  }

  lemma AddedLengths(c: Setting, env: seq<EnvVar>)
    ensures var res, existing := Found(c, env), ExistingKeys(env);
            && OfLength(ServiceNameVar(env, res, c.name), {17}) && OfLength(EndpointVar(env, c.spec.endpoint), {27})
            && OfLength(PodNameVar(res, existing), {33}) && OfLength(PodUidVar(c.spec, res), {32})
            && OfLength(NodeNameVar(res, existing), {34})
  {
    NamesAreDistinct();
  }

  lemma AddedAfterLengths(c: Setting, env: seq<EnvVar>)
    ensures OfLength(PropagatorsVar(c.spec, env), {16}) && OfLength(SamplerVars(c.spec, env), {19, 23})
    ensures Distinct(SamplerVars(c.spec, env))
  {
    NamesAreDistinct();
  }

  lemma AddedIsDistinct(c: Setting, env: seq<EnvVar>)
    ensures Distinct(Added(c, env))
  {
    var res, existing := Found(c, env), ExistingKeys(env);
    AddedLengths(c, env);
    AddedAfterLengths(c, env);
    SevenDistinct(ServiceNameVar(env, res, c.name), EndpointVar(env, c.spec.endpoint), PodNameVar(res, existing),
                  PodUidVar(c.spec, res), NodeNameVar(res, existing),
                  PropagatorsVar(c.spec, env), SamplerVars(c.spec, env));
  }

  predicate AllNew(env: seq<EnvVar>, more: seq<EnvVar>) {
    forall i | 0 <= i < |more| :: !Defines(env, more[i].name)
  }

  lemma AllNewInParts(env: seq<EnvVar>, a: seq<EnvVar>, b: seq<EnvVar>)
    ensures AllNew(env, a + b) <==> AllNew(env, a) && AllNew(env, b)
  {
    if AllNew(env, a + b) {
      assert forall i | 0 <= i < |a| :: (a + b)[i] == a[i];
      assert forall i | 0 <= i < |b| :: (a + b)[|a| + i] == b[i];
    }
  }

  lemma OptionalIsNew(env: seq<EnvVar>, condition: bool, v: EnvVar)
    ensures AllNew(env, Optional(condition, v)) <==> (condition ==> !Defines(env, v.name))
  {
    assert [v][0] == v;
  }

  lemma SevenNew(env: seq<EnvVar>, s: seq<EnvVar>, e: seq<EnvVar>, n: seq<EnvVar>, u: seq<EnvVar>, d: seq<EnvVar>,
                 p: seq<EnvVar>, t: seq<EnvVar>)
    requires AllNew(env, s) && AllNew(env, e) && AllNew(env, p) && AllNew(env, t)
    ensures AllNew(env, (s + e + n + u + d) + (p + t)) <==> AllNew(env, n) && AllNew(env, u) && AllNew(env, d)
  {
    AllNewInParts(env, s, e);
    AllNewInParts(env, s + e, n);
    AllNewInParts(env, s + e + n, u);
    AllNewInParts(env, s + e + n + u, d);
    AllNewInParts(env, p, t);
    AllNewInParts(env, s + e + n + u + d, p + t);
  }

  lemma AddedIsNew(c: Setting, env: seq<EnvVar>)
    ensures AllNew(env, Added(c, env)) <==> HelpersAreFree(c, env)
  {
    var res, existing := Found(c, env), ExistingKeys(env);
    OptionalIsNew(env, !Defines(env, ENV_SERVICE_NAME), EnvVar(ENV_SERVICE_NAME, ChooseServiceName(res, c.name), ""));
    OptionalIsNew(env, c.spec.endpoint != "" && !Defines(env, ENV_ENDPOINT), EnvVar(ENV_ENDPOINT, c.spec.endpoint, ""));
    OptionalIsNew(env, c.spec.propagators != [] && !Defines(env, ENV_PROPAGATORS),
                  EnvVar(ENV_PROPAGATORS, Join(c.spec.propagators, ","), ""));
    OptionalIsNew(env, NeedsPodName(res, existing), EnvVar(ENV_POD_NAME, "", "metadata.name"));
    OptionalIsNew(env, NeedsPodUid(c.spec, res), EnvVar(ENV_POD_UID, "", "metadata.uid"));
    OptionalIsNew(env, NeedsNodeName(res, existing), EnvVar(ENV_NODE_NAME, "", "spec.nodeName"));
    SevenNew(env, ServiceNameVar(env, res, c.name), EndpointVar(env, c.spec.endpoint), PodNameVar(res, existing),
             PodUidVar(c.spec, res), NodeNameVar(res, existing), PropagatorsVar(c.spec, env), SamplerVars(c.spec, env));
  }

  lemma DistinctByPlaces(a: seq<EnvVar>, b: seq<EnvVar>, place: int -> int)
    requires Distinct(a)
    requires forall i | 0 <= i < |b| :: 0 <= place(i) < |a| && b[i] == a[place(i)]
    requires forall i, j | 0 <= i < j < |b| :: place(i) != place(j)
    ensures Distinct(b)
  {
  }

  lemma DistinctOnceMoved(before: seq<EnvVar>, v: EnvVar, after: seq<EnvVar>)
    requires Distinct(before + [v] + after)
    ensures Distinct(before + after + [v])
  {
    var l, r, n := before + [v] + after, before + after + [v], |before|;
    DistinctByPlaces(l, r, i => if i < n then i else if i < |r| - 1 then i + 1 else n);
  }

  lemma DistinctBeforeMoved(before: seq<EnvVar>, v: EnvVar, after: seq<EnvVar>)
    requires Distinct(before + after + [v])
    ensures Distinct(before + [v] + after)
  {
    var l, r, n := before + [v] + after, before + after + [v], |before|;
    DistinctByPlaces(r, l, i => if i < n then i else if i == n then |r| - 1 else i - 1);
  }

  lemma DistinctAround(before: seq<EnvVar>, v: EnvVar, after: seq<EnvVar>)
    ensures Distinct(before + [v] + after) <==> Distinct(before + after + [v])
  {
    if Distinct(before + [v] + after) {
      DistinctOnceMoved(before, v, after);
    } else if Distinct(before + after + [v]) {
      DistinctBeforeMoved(before, v, after);
    }
  }

  lemma InjectedIsDistinct(c: Setting, env: seq<EnvVar>)
    ensures Distinct(Inject(c, env)) <==> Distinct(env) && HelpersAreFree(c, env)
  {
    InjectedShape(c, env);
    AddedIsDistinct(c, env);
    AddedIsNew(c, env);
    DistinctAppended(env, Added(c, env));
    AttributesKeepDistinct(env, Added(c, env), AttributesVar(env, Printed(Attributes(c, env))));
  }

  lemma AttributesKeepDistinct(env: seq<EnvVar>, added: seq<EnvVar>, v: EnvVar)
    requires v.name == ENV_RESOURCE_ATTRS && !Defines(added, ENV_RESOURCE_ATTRS)
    ensures Distinct(Without(env, IndexOf(env, ENV_RESOURCE_ATTRS)) + added + [v]) <==> Distinct(env + added)
  {
    var idx := IndexOf(env, ENV_RESOURCE_ATTRS);
    if idx == -1 {
      IndexOfAppended(env, added, ENV_RESOURCE_ATTRS);
      DistinctAppended(env + added, [v]);
    } else {
      var after := env[idx + 1..] + added;
      DistinctAround(env[..idx], v, after);
      assert Without(env, idx) + added == env[..idx] + after;
      RenamedNowhere(env + added, env[..idx] + [v] + after);
    }
  }

  /** Names that are distinct in the container and in the language layer stay distinct, if and only if the language
      layer leaves the container's entries without a value alone and the injector's own variables are still free. */
  lemma NamesStayDistinct(c: Setting, layer: seq<EnvVar>, user: seq<EnvVar>)
    requires Distinct(user) && Distinct(layer)
    ensures Distinct(AfterAll(c, layer, user)) <==>
              EmptyOnesAreFree(layer, user) && HelpersAreFree(c, BeforeSdk(c, layer, user))
  {
    var allowed := user + Allowed(layer, user);
    var withJava := WithJavaOption(allowed);
    AllowedIsDistinct(layer, user);
    DistinctAppended(user, Allowed(layer, user));
    AllowedIsNew(layer, user);
    JavaOptionAlone(allowed);
    MissingIsDistinct(c.spec.env, withJava);
    InjectedIsDistinct(c, BeforeSdk(c, layer, user));
  }

  lemma {:induction false} AllowedIsNew(layer: seq<EnvVar>, user: seq<EnvVar>)
    ensures AllNew(user, Allowed(layer, user)) <==> EmptyOnesAreFree(layer, user)
  {
    if layer != [] {
      var before, last := layer[..|layer| - 1], layer[|layer| - 1];
      AllowedIsNew(before, user);
      AllNewInParts(user, Allowed(before, user), if ShouldInjectEnvVar(user, last.name) then [last] else []);
      assert layer == before + [last];
      assert EmptyOnesAreFree(layer, user) <==>
        EmptyOnesAreFree(before, user) && (Defines(user, last.name) ==> !ShouldInjectEnvVar(user, last.name));
      assert [last][0] == last;
    }
  }

  /** The four-layer law on the inputs it is meant for: distinct names in the container and in the language layer, no
      container entry without a value, no layer using the injector's own names. */
  lemma Precedence(c: Setting, layer: seq<EnvVar>, user: seq<EnvVar>)
    requires Distinct(user) && Distinct(layer)
    requires forall i | 0 <= i < |user| :: user[i].value != ""
    requires forall name | name in {ENV_POD_NAME, ENV_POD_UID, ENV_NODE_NAME} ::
        FirstEntry(Layers(c, layer, user), name).None?
    ensures Distinct(AfterAll(c, layer, user))
    ensures forall name | name != ENV_JAVA_TOOL_OPTIONS && name != ENV_RESOURCE_ATTRS ::
              EntryOf(AfterAll(c, layer, user), name)
              == FirstEntry(Layers(c, layer, user) + [Config(c, BeforeSdk(c, layer, user))], name)
  {
    forall name | name != ENV_JAVA_TOOL_OPTIONS && name != ENV_RESOURCE_ATTRS
      ensures EntryOf(AfterAll(c, layer, user), name)
              == FirstEntry(Layers(c, layer, user) + [Config(c, BeforeSdk(c, layer, user))], name)
    {
      FourLayers(c, layer, user, name);
    }
    HelperStaysFree(c, layer, user, ENV_POD_NAME);
    HelperStaysFree(c, layer, user, ENV_POD_UID);
    HelperStaysFree(c, layer, user, ENV_NODE_NAME);
    NamesStayDistinct(c, layer, user);
  }

  lemma HelperStaysFree(c: Setting, layer: seq<EnvVar>, user: seq<EnvVar>, name: string)
    requires name in {ENV_POD_NAME, ENV_POD_UID, ENV_NODE_NAME} && FirstEntry(Layers(c, layer, user), name).None?
    ensures !Defines(BeforeSdk(c, layer, user), name)
  {
    assert name != ENV_JAVA_TOOL_OPTIONS by { NamesAreDistinct(); }
    EntryBeforeSdk(c, layer, user, name);
  }

  lemma FirstLayerWins(layers: seq<seq<EnvVar>>, last: seq<EnvVar>, name: string)
    requires layers != [] && Defines(layers[0], name)
    ensures FirstEntry(layers + [last], name) == EntryOf(layers[0], name)
  {
    assert (layers + [last])[0] == layers[0];
  }

  /** Whatever the container defines comes first in the list under its name. */
  lemma ContainerComesFirst(c: Setting, layer: seq<EnvVar>, user: seq<EnvVar>, name: string)
    requires name != ENV_JAVA_TOOL_OPTIONS && name != ENV_RESOURCE_ATTRS && Defines(user, name)
    ensures EntryOf(AfterAll(c, layer, user), name) == EntryOf(user, name)
  {
    FourLayers(c, layer, user, name);
    FirstLayerWins(Layers(c, layer, user), Config(c, BeforeSdk(c, layer, user)), name);
  }

  /** An entry the container defines without a value, and the language layer defines too, ends up in the list twice. */
  lemma EmptyEntryIsRepeated(c: Setting, layer: seq<EnvVar>, user: seq<EnvVar>, i: nat)
    requires Distinct(user) && Distinct(layer) && i < |layer|
    requires Defines(user, layer[i].name) && GetEnvValue(user, layer[i].name) == "" && !ExplicitlyDisabled(user)
    ensures !Distinct(AfterAll(c, layer, user))
  {
    assert !EmptyOnesAreFree(layer, user);
    NamesStayDistinct(c, layer, user);
  }
}
