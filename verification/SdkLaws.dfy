/** What the injection guarantees: the user's settings survive, definitions come before uses, and when a second
    injection changes nothing. The container that is configured is also the one that is described. */
module SdkLaws {
  import opened Wrappers
  import opened Strings
  import opened Env
  import opened ResourceAttributes
  import opened SdkInjection

  /** A container and everything else the injection depends on. */
  datatype Setting = Setting(spec: Spec, pod: Pod, name: string, image: string)

  ghost function Inject(c: Setting, env: seq<EnvVar>): seq<EnvVar> {
    Injected(c.spec, c.pod, c.name, c.image, env, env)
  }

  function Found(c: Setting, env: seq<EnvVar>): map<string, string> {
    ResourceMap(c.spec.attributes, K8sResources(c.pod, c.name), ExistingKeys(env))
  }

  function Attributes(c: Setting, env: seq<EnvVar>): map<string, string> {
    FinalAttributes(c.spec, c.image, Found(c, env), ExistingKeys(env), env)
  }

  function Added(c: Setting, env: seq<EnvVar>): seq<EnvVar> {
    AddedBefore(c.spec, c.name, Found(c, env), ExistingKeys(env), env) + AddedAfter(c.spec, env)
  }

  /** The value the user gave the attributes. */
  function UserValue(env: seq<EnvVar>): string {
    GetEnvValue(env, ENV_RESOURCE_ATTRS)
  }

  lemma InjectedShape(c: Setting, env: seq<EnvVar>)
    ensures Inject(c, env) == Without(env, IndexOf(env, ENV_RESOURCE_ATTRS)) + Added(c, env)
                              + [AttributesVar(env, Printed(Attributes(c, env)))]
    ensures !Defines(Added(c, env), ENV_RESOURCE_ATTRS)
  {
    NoAttributesAdded(c.spec, c.name, Found(c, env), ExistingKeys(env), env);
    var before, after := AddedBefore(c.spec, c.name, Found(c, env), ExistingKeys(env), env), AddedAfter(c.spec, env);
    Regrouped(Without(env, IndexOf(env, ENV_RESOURCE_ATTRS)), before, after);
  }

  // ---------------------------------------------------------------- the user's settings survive

  /** The user's attributes are the beginning of the new ones, and every other entry keeps its value and its place in
      the order. */
  lemma UserSettingsSurvive(c: Setting, env: seq<EnvVar>)
    ensures var env' := Inject(c, env);
            && env' != [] && env'[|env'| - 1].name == ENV_RESOURCE_ATTRS
            && Without(env, IndexOf(env, ENV_RESOURCE_ATTRS)) <= env'
            && UserValue(env) <= env'[|env'| - 1].value
  {
    InjectedShape(c, env);
  }

  /** What is appended repeats none of the user's keys - unless the pod's UID is asked for and the user has set it,
      which the code does not check. */
  lemma UserKeysAreNotRepeated(c: Setting, env: seq<EnvVar>)
    ensures Attributes(c, env).Keys !! ExistingKeys(env) <==> !(c.spec.addK8sUID && POD_UID in ExistingKeys(env))
  {
    var existing := ExistingKeys(env);
    AttributesAsSet(c, env);
    if NeedsVersion(env, c.image) && SERVICE_VERSION in existing {
      var idx := IndexOf(env, ENV_RESOURCE_ATTRS);
      ParsedKeysAreContained(env[idx].value, SERVICE_VERSION);
    }
    if c.spec.addK8sUID && POD_UID in existing {
      assert POD_UID !in Found(c, env);
      assert POD_UID in Attributes(c, env);
    }
  }

  // ---------------------------------------------------------------- definitions before uses

  /** Each variable the injector refers to in the attributes is defined earlier in the list, the attributes being its
      last entry. */
  lemma DefinitionsBeforeUses(c: Setting, env: seq<EnvVar>)
    ensures var before := Inject(c, env)[..|Inject(c, env)| - 1];
            var res, existing := Found(c, env), ExistingKeys(env);
            && (NeedsPodName(res, existing) ==>
               RefersTo(c, env, POD_NAME, ENV_POD_NAME) && Defines(before, ENV_POD_NAME))
            && (NeedsPodUid(c.spec, res) ==> RefersTo(c, env, POD_UID, ENV_POD_UID) && Defines(before, ENV_POD_UID))
            && (NeedsNodeName(res, existing) ==>
               RefersTo(c, env, NODE_NAME, ENV_NODE_NAME) && Defines(before, ENV_NODE_NAME))
  {
    References(c, env);
    ReferencesAreAdded(c, env);
    AddedComesBefore(c, env, ENV_POD_NAME);
    AddedComesBefore(c, env, ENV_POD_UID);
    AddedComesBefore(c, env, ENV_NODE_NAME);
  }

  lemma References(c: Setting, env: seq<EnvVar>)
    ensures var res, existing := Found(c, env), ExistingKeys(env);
            && (NeedsPodName(res, existing) ==> RefersTo(c, env, POD_NAME, ENV_POD_NAME))
            && (NeedsPodUid(c.spec, res) ==> RefersTo(c, env, POD_UID, ENV_POD_UID))
            && (NeedsNodeName(res, existing) ==> RefersTo(c, env, NODE_NAME, ENV_NODE_NAME))
  {
    AttributesAsSet(c, env);
  }

  /** The attributes are what was found and, under five keys of its own, what the injector adds. */
  lemma AttributesAsSet(c: Setting, env: seq<EnvVar>)
    ensures var res, existing, r := Found(c, env), ExistingKeys(env), Attributes(c, env);
            && (NeedsPodName(res, existing) ==> POD_NAME in r && r[POD_NAME] == Reference(ENV_POD_NAME))
            && (NeedsPodUid(c.spec, res) ==> POD_UID in r && r[POD_UID] == Reference(ENV_POD_UID))
            && (NeedsVersion(env, c.image) ==>
               SERVICE_VERSION in r && r[SERVICE_VERSION] == ChooseServiceVersion(c.image))
            && (NeedsNodeName(res, existing) ==> NODE_NAME in r && r[NODE_NAME] == Reference(ENV_NODE_NAME))
            && (NeedsSource(res, existing) ==> SERVICE_NAME_SOURCE in r && r[SERVICE_NAME_SOURCE] == SourceOf(env))
            && (forall k | k in res :: k in r)
            && (forall k | k in r :: k in res
                  || (NeedsPodName(res, existing) && k == POD_NAME) || (NeedsPodUid(c.spec, res) && k == POD_UID)
                  || (NeedsVersion(env, c.image) && k == SERVICE_VERSION)
                  || (NeedsNodeName(res, existing) && k == NODE_NAME)
                  || (NeedsSource(res, existing) && k == SERVICE_NAME_SOURCE))
  {
    var res, existing := Found(c, env), ExistingKeys(env);
    KeysAreDistinct();
    FiveWith(res, NeedsPodName(res, existing), POD_NAME, Reference(ENV_POD_NAME),
             NeedsPodUid(c.spec, res), POD_UID, Reference(ENV_POD_UID),
             NeedsVersion(env, c.image), SERVICE_VERSION, ChooseServiceVersion(c.image),
             NeedsNodeName(res, existing), NODE_NAME, Reference(ENV_NODE_NAME),
             NeedsSource(res, existing), SERVICE_NAME_SOURCE, SourceOf(env));
  }

  /** Values set under different keys are all there in the end. */
  lemma FiveWith(m: map<string, string>, a: bool, k: string, v: string, b: bool, l: string, w: string,
                 c: bool, x: string, y: string, d: bool, n: string, z: string, e: bool, o: string, u: string)
    requires |k| != |l| && |l| != |x| && |k| != |x| && |n| != |k| && |n| != |l| && |n| != |x|
    requires |o| != |k| && |o| != |l| && |o| != |x| && |o| != |n|
    ensures var r := With(With(With(With(With(m, a, k, v), b, l, w), c, x, y), d, n, z), e, o, u);
            && (a ==> k in r && r[k] == v) && (b ==> l in r && r[l] == w) && (c ==> x in r && r[x] == y)
            && (d ==> n in r && r[n] == z) && (e ==> o in r && r[o] == u)
            && (forall j | j in m :: j in r)
            && (forall j | j in r ::
                  j in m || (a && j == k) || (b && j == l) || (c && j == x) || (d && j == n) || (e && j == o))
  {
  }

  lemma ReferencesAreAdded(c: Setting, env: seq<EnvVar>)
    ensures var res, existing := Found(c, env), ExistingKeys(env);
            && (NeedsPodName(res, existing) ==> Defines(PodNameVar(res, existing), ENV_POD_NAME))
            && (NeedsPodUid(c.spec, res) ==> Defines(PodUidVar(c.spec, res), ENV_POD_UID))
            && (NeedsNodeName(res, existing) ==> Defines(NodeNameVar(res, existing), ENV_NODE_NAME))
  {
    var res, existing := Found(c, env), ExistingKeys(env);
    OptionalDefines(NeedsPodName(res, existing), EnvVar(ENV_POD_NAME, "", "metadata.name"));
    OptionalDefines(NeedsPodUid(c.spec, res), EnvVar(ENV_POD_UID, "", "metadata.uid"));
    OptionalDefines(NeedsNodeName(res, existing), EnvVar(ENV_NODE_NAME, "", "spec.nodeName"));
  }

  predicate RefersTo(c: Setting, env: seq<EnvVar>, k: string, name: string) {
    k in Attributes(c, env) && Attributes(c, env)[k] == Reference(name)
  }

  lemma AddedComesBefore(c: Setting, env: seq<EnvVar>, name: string)
    ensures var res, existing := Found(c, env), ExistingKeys(env);
            Defines(PodNameVar(res, existing), name) || Defines(PodUidVar(c.spec, res), name)
            || Defines(NodeNameVar(res, existing), name) ==>
            Defines(Inject(c, env)[..|Inject(c, env)| - 1], name)
  {
    InjectedShape(c, env);
    AddedPieces(c, env, name);
    var kept := Without(env, IndexOf(env, ENV_RESOURCE_ATTRS));
    IndexOfAppended(kept, Added(c, env), name);
    assert Inject(c, env)[..|Inject(c, env)| - 1] == kept + Added(c, env);
  }

  lemma OptionalDefines(condition: bool, v: EnvVar)
    ensures Defines(Optional(condition, v), v.name) <==> condition
  {
    assert [v][0].name == v.name;
  }

  /** What is added is found under its name. */
  lemma AddedPieces(c: Setting, env: seq<EnvVar>, name: string)
    ensures var res, existing := Found(c, env), ExistingKeys(env);
            Defines(Added(c, env), name) <==>
              || Defines(ServiceNameVar(env, res, c.name), name) || Defines(EndpointVar(env, c.spec.endpoint), name)
              || Defines(PodNameVar(res, existing), name) || Defines(PodUidVar(c.spec, res), name)
              || Defines(NodeNameVar(res, existing), name)
              || Defines(PropagatorsVar(c.spec, env), name) || Defines(SamplerVars(c.spec, env), name)
  {
    var res, existing := Found(c, env), ExistingKeys(env);
    SevenPieces(ServiceNameVar(env, res, c.name), EndpointVar(env, c.spec.endpoint), PodNameVar(res, existing),
                PodUidVar(c.spec, res), NodeNameVar(res, existing),
                PropagatorsVar(c.spec, env), SamplerVars(c.spec, env), name);
  }

  lemma SevenPieces(a: seq<EnvVar>, b: seq<EnvVar>, c: seq<EnvVar>, d: seq<EnvVar>, e: seq<EnvVar>,
                    f: seq<EnvVar>, g: seq<EnvVar>, name: string)
    ensures Defines((a + b + c + d + e) + (f + g), name) <==>
              || Defines(a, name) || Defines(b, name) || Defines(c, name) || Defines(d, name) || Defines(e, name)
              || Defines(f, name) || Defines(g, name)
  {
    IndexOfAppended(a, b, name);
    IndexOfAppended(a + b, c, name);
    IndexOfAppended(a + b + c, d, name);
    IndexOfAppended(a + b + c + d, e, name);
    IndexOfAppended(f, g, name);
    IndexOfAppended(a + b + c + d + e, f + g, name);
  }

  // ---------------------------------------------------------------- injecting twice

  lemma ParsedKeysOfValueAppended(value: string, printed: string)
    ensures ParsedKeys(Appended(value, printed)) == ParsedKeys(value) + ParsedKeys(printed)
  {
    NoKeysInEmpty();
    if printed == "" {
      assert Appended(value, printed) == value;
    } else if HasSuffix(value, ',') {
      var stem := value[..|value| - 1];
      assert value == stem + "," + "" && Appended(value, printed) == stem + "," + printed;
      ParsedKeysOfAppended(stem, "");
      ParsedKeysOfAppended(stem, printed);
    } else {
      ParsedKeysOfAppended(value, printed);
    }
  }

  /** From position j on, the list repeats one entry. */
  predicate AllEqual(env: seq<EnvVar>, j: int)
    requires 0 <= j
  {
    forall i | j <= i < |env| :: env[i] == env[j]
  }

  /** The attributes entry that an injection leaves behind. */
  ghost function Result(c: Setting, env: seq<EnvVar>): EnvVar {
    AttributesVar(env, Printed(Attributes(c, env)))
  }

  /** Either there is no second attributes entry, or it and all that comes behind it already are what the injection
      makes of the first, and nothing is added. */
  ghost predicate OthersAgree(c: Setting, env: seq<EnvVar>) {
    var others := Without(env, IndexOf(env, ENV_RESOURCE_ATTRS));
    var j := IndexOf(others, ENV_RESOURCE_ATTRS);
    j == -1 || (Added(c, env) == [] && forall i | j <= i < |others| :: others[i] == Result(c, env))
  }

  /** Where the first attributes entry is after an injection. */
  lemma FirstAfterInjection(c: Setting, env: seq<EnvVar>)
    ensures var env', others := Inject(c, env), Without(env, IndexOf(env, ENV_RESOURCE_ATTRS));
            var j := IndexOf(others, ENV_RESOURCE_ATTRS);
            && IndexOf(env', ENV_RESOURCE_ATTRS) == (if j == -1 then |env'| - 1 else j)
            && env' == others + Added(c, env) + [Result(c, env)]
  {
    InjectedShape(c, env);
    FirstOfInjected(Without(env, IndexOf(env, ENV_RESOURCE_ATTRS)), Added(c, env), Result(c, env));
  }

  lemma FirstOfInjected(others: seq<EnvVar>, added: seq<EnvVar>, v: EnvVar)
    requires v.name == ENV_RESOURCE_ATTRS && !Defines(added, ENV_RESOURCE_ATTRS)
    ensures var j, all := IndexOf(others, ENV_RESOURCE_ATTRS), others + added + [v];
            IndexOf(all, ENV_RESOURCE_ATTRS) == (if j == -1 then |all| - 1 else j)
  {
    var all := others + added + [v];
    if Defines(others, ENV_RESOURCE_ATTRS) {
      assert all == others + (added + [v]);
      IndexOfAppended(others, added + [v], ENV_RESOURCE_ATTRS);
    } else {
      IndexOfAppended(others, added, ENV_RESOURCE_ATTRS);
      assert all[..|all| - 1] == others + added;
      FirstIsIndex(all, ENV_RESOURCE_ATTRS, |all| - 1);
    }
  }

  /** After an injection the list repeats one entry from its first attributes entry on, if and only if the others
      agree. */
  lemma RepeatsIfOthersAgree(c: Setting, env: seq<EnvVar>)
    ensures var env' := Inject(c, env);
            var j := IndexOf(env', ENV_RESOURCE_ATTRS);
            && j >= 0
            && (AllEqual(env', j) <==> OthersAgree(c, env))
            && (AllEqual(env', j) ==> env'[j] == Result(c, env))
  {
    var others := Without(env, IndexOf(env, ENV_RESOURCE_ATTRS));
    FirstAfterInjection(c, env);
    InjectedShape(c, env);
    RepeatsInParts(others, Added(c, env), Result(c, env), IndexOf(others, ENV_RESOURCE_ATTRS));
  }

  lemma NoneOrDefined(env: seq<EnvVar>, v: EnvVar)
    requires forall i | 0 <= i < |env| :: env[i] == v
    ensures env == [] || Defines(env, v.name)
  {
    if env != [] {
      assert env[0] == v;
    }
  }

  lemma RepeatsInParts(others: seq<EnvVar>, added: seq<EnvVar>, v: EnvVar, j: int)
    requires -1 <= j < |others| && v.name == ENV_RESOURCE_ATTRS && !Defines(added, ENV_RESOURCE_ATTRS)
    ensures var all := others + added + [v];
            j >= 0 ==> (AllEqual(all, j) <==> added == [] && forall i | j <= i < |others| :: others[i] == v)
    ensures var all := others + added + [v]; AllEqual(all, |all| - 1) && all[|all| - 1] == v
  {
    var all := others + added + [v];
    assert all[|all| - 1] == v;
    assert forall i | 0 <= i < |others| :: all[i] == others[i];
    assert forall i | 0 <= i < |added| :: all[|others| + i] == added[i];
    if j >= 0 && AllEqual(all, j) {
      assert all[|all| - 1] == all[j];
      NoneOrDefined(added, v);
    }
  }

  /** Exactly which lists an injection leaves alone: those with an attributes entry that nothing but its repetitions
      follows, and to which there is nothing to add. */
  lemma FixedPoints(c: Setting, env: seq<EnvVar>)
    ensures Inject(c, env) == env <==>
              var j := IndexOf(env, ENV_RESOURCE_ATTRS);
              j >= 0 && AllEqual(env, j) && Added(c, env) == [] && Attributes(c, env) == map[]
  {
    var j := IndexOf(env, ENV_RESOURCE_ATTRS);
    InjectedShape(c, env);
    if j == -1 {
      Longer(env, Added(c, env), Result(c, env));
    } else {
      MovedEqual(env, j, Added(c, env), Result(c, env));
      AppendedIsLonger(c, env);
    }
  }

  lemma Longer(env: seq<EnvVar>, added: seq<EnvVar>, v: EnvVar)
    ensures env + added + [v] != env
  {
    assert |env + added + [v]| > |env|;
  }

  lemma MovedEqual(env: seq<EnvVar>, j: nat, added: seq<EnvVar>, v: EnvVar)
    requires j < |env|
    ensures Without(env, j) + added + [v] == env <==> added == [] && AllEqual(env, j) && v == env[j]
  {
    var moved := Without(env, j) + added + [v];
    if added == [] {
      assert forall i | 0 <= i < |env| :: moved[i] == if i < j then env[i] else if i < |env| - 1 then env[i + 1] else v;
      if moved == env {
        forall i | j <= i < |env| - 1
          ensures env[i] == env[i + 1]
        {
          assert moved[i] == env[i + 1];
        }
        EqualFrom(env, j);
        assert moved[|env| - 1] == v;
      }
    } else {
      assert |moved| > |env| - 1 + 1;
    }
  }

  lemma {:induction false} EqualFrom(env: seq<EnvVar>, j: nat)
    requires j < |env| && forall i | j <= i < |env| - 1 :: env[i] == env[i + 1]
    ensures AllEqual(env, j)
    decreases |env| - j
  {
    if j < |env| - 1 {
      EqualFrom(env, j + 1);
    }
  }

  /** The attributes entry stays the same exactly if there are no attributes to add. */
  lemma AppendedIsLonger(c: Setting, env: seq<EnvVar>)
    requires Defines(env, ENV_RESOURCE_ATTRS)
    ensures Result(c, env) == env[IndexOf(env, ENV_RESOURCE_ATTRS)] <==> Attributes(c, env) == map[]
  {
    var v := env[IndexOf(env, ENV_RESOURCE_ATTRS)];
    if Attributes(c, env) == map[] {
      PrintedEmpty();
      AppendedNothing(v.value);
    } else {
      var k :| k in Attributes(c, env);
      PairIsPrinted(Attributes(c, env), k);
      assert |Result(c, env).value| > |v.value|;
    }
  }

  /** After an injection, if the others agree, the keys recognised are the user's and those recognised in what was
      printed. */
  lemma AfterOneInjection(c: Setting, env: seq<EnvVar>)
    requires OthersAgree(c, env)
    ensures var env' := Inject(c, env);
            && IndexOf(env', ENV_RESOURCE_ATTRS) >= 0
            && env'[IndexOf(env', ENV_RESOURCE_ATTRS)] == Result(c, env)
            && ExistingKeys(env') == ExistingKeys(env) + ParsedKeys(Printed(Attributes(c, env)))
  {
    RepeatsIfOthersAgree(c, env);
    ParsedKeysOfValueAppended(UserValue(env), Printed(Attributes(c, env)));
  }

  /** In any case, with a second entry the keys recognised next are that entry's. */
  lemma SecondEntryIsReadNext(c: Setting, env: seq<EnvVar>)
    requires Defines(Without(env, IndexOf(env, ENV_RESOURCE_ATTRS)), ENV_RESOURCE_ATTRS)
    ensures ExistingKeys(Inject(c, env)) == ParsedKeys(UserValue(Without(env, IndexOf(env, ENV_RESOURCE_ATTRS))))
  {
    FirstAfterInjection(c, env);
  }

  lemma StillDefined(c: Setting, env: seq<EnvVar>, name: string)
    requires name != ENV_RESOURCE_ATTRS
    ensures Defines(Inject(c, env), name) <==> Defines(env, name) || Defines(Added(c, env), name)
  {
    InjectedShape(c, env);
    var idx := IndexOf(env, ENV_RESOURCE_ATTRS);
    var kept, v := Without(env, idx), AttributesVar(env, Printed(Attributes(c, env)));
    if idx >= 0 {
      WithoutKeepsOthers(env, idx, name);
    }
    IndexOfAppended(kept, Added(c, env), name);
    IndexOfAppended(kept + Added(c, env), [v], name);
    assert !Defines([v], name);
  }

  /** Every attribute the injection takes from the resource or the pod is recognised again in the printed form. */
  ghost predicate Recovered(c: Setting, env: seq<EnvVar>) {
    forall k | k in Found(c, env) :: k in ParsedKeys(Printed(Attributes(c, env)))
  }

  /** The attributes the injector makes up are always recognised again. */
  lemma OwnAttributesAreRecovered(c: Setting, env: seq<EnvVar>)
    ensures var res, existing, keys := Found(c, env), ExistingKeys(env), ParsedKeys(Printed(Attributes(c, env)));
            && (NeedsPodName(res, existing) ==> POD_NAME in keys)
            && (NeedsNodeName(res, existing) ==> NODE_NAME in keys)
            && (NeedsSource(res, existing) ==> SERVICE_NAME_SOURCE in keys)
  {
    AttributesAsSet(c, env);
    var res, existing, m := Found(c, env), ExistingKeys(env), Attributes(c, env);
    if NeedsPodName(res, existing) {
      OwnAttributeIsRecovered(m, POD_NAME);
    }
    if NeedsNodeName(res, existing) {
      OwnAttributeIsRecovered(m, NODE_NAME);
    }
    if NeedsSource(res, existing) {
      OwnAttributeIsRecovered(m, SERVICE_NAME_SOURCE);
    }
  }

  lemma OwnAttributeIsRecovered(m: map<string, string>, k: string)
    requires k in m && k in {POD_NAME, NODE_NAME, SERVICE_NAME_SOURCE}
    requires m[k] in {Reference(ENV_POD_NAME), Reference(ENV_NODE_NAME), "Instrumentation", "K8sWorkload"}
    ensures k in ParsedKeys(Printed(m))
  {
    OwnKeysAreClean();
    OwnValuesAreClean();
    SplitWithoutSeparator(m[k], ',');
    RecoveredFromPrinted(m, k);
  }

  lemma CleanConcatenation(a: string, b: string)
    requires CleanKey(a) && CleanKey(b) && a != ""
    ensures CleanKey(a + b)
  {
  }

  lemma SourceKeyIsClean()
    ensures CleanKey(SERVICE_NAME_SOURCE)
  {
    assert CleanKey("com.amazonaws.cloudwatch.");
    assert CleanKey("entity.internal.");
    assert CleanKey("service.name.source");
    CleanConcatenation("com.amazonaws.cloudwatch.", "entity.internal.");
    CleanConcatenation("com.amazonaws.cloudwatch." + "entity.internal.", "service.name.source");
  }

  lemma OwnKeysAreClean()
    ensures CleanKey(POD_NAME) && CleanKey(NODE_NAME) && CleanKey(SERVICE_NAME_SOURCE)
  {
    SourceKeyIsClean();
  }

  lemma OwnValuesAreClean()
    ensures CleanValue(Reference(ENV_POD_NAME)) && CleanValue(Reference(ENV_NODE_NAME))
    ensures CleanValue("Instrumentation") && CleanValue("K8sWorkload")
  {
    PodNameIsClean();
    NodeNameIsClean();
    SourcesAreClean();
    assert CleanValue("$(") && CleanValue(")");
  }

  lemma PodNameIsClean()
    ensures CleanValue(ENV_POD_NAME)
  {
    PrefixIsClean();
    assert CleanValue("POD_NAME");
    assert ENV_POD_NAME == "OTEL_RESOURCE_ATTRIBUTES_" + "POD_NAME";
  }

  lemma NodeNameIsClean()
    ensures CleanValue(ENV_NODE_NAME)
  {
    PrefixIsClean();
    assert CleanValue("NODE_NAME");
    assert ENV_NODE_NAME == "OTEL_RESOURCE_ATTRIBUTES_" + "NODE_NAME";
  }

  lemma PrefixIsClean()
    ensures CleanValue("OTEL_RESOURCE_ATTRIBUTES_")
  {
    assert CleanValue("OTEL_RESOURCE_");
    assert CleanValue("ATTRIBUTES_");
    assert "OTEL_RESOURCE_ATTRIBUTES_" == "OTEL_RESOURCE_" + "ATTRIBUTES_";
  }

  lemma SourcesAreClean()
    ensures CleanValue("Instrumentation") && CleanValue("K8sWorkload")
  {
    assert CleanValue("Instrumentation");
    assert CleanValue("K8sWorkload");
  }

  /** The condition under which the second injection finds nothing left to add. */
  lemma NothingLeftToAdd(c: Setting, env: seq<EnvVar>)
    requires OthersAgree(c, env) && Recovered(c, env) && !c.spec.addK8sUID
    ensures var env' := Inject(c, env); Attributes(c, env') == map[] && Added(c, env') == []
  {
    var env', res, existing := Inject(c, env), Found(c, env), ExistingKeys(env);
    var existing', res' := ExistingKeys(env'), Found(c, env');
    AfterOneInjection(c, env);
    OwnAttributesAreRecovered(c, env);
    assert existing' == existing + ParsedKeys(Printed(Attributes(c, env)));
    assert POD_NAME in existing' && NODE_NAME in existing' && SERVICE_NAME_SOURCE in existing';
    assert res' == map[] by {
      assert forall k | k in c.spec.attributes.Keys + K8sResources(c.pod, c.name).Keys :: k in res ==> k in existing';
    }
    VersionIsThere(c, env);
    NothingLeftToDefine(c, env);
  }

  lemma ContainedInAppended(value: string, printed: string, t: string)
    requires Contains(value, t) || Contains(printed, t)
    ensures Contains(Appended(value, printed), t)
  {
    var comma := if !HasSuffix(value, ',') && printed != "" then "," else "";
    if Contains(value, t) {
      ContainedInConcatenation(value, comma, t);
      ContainedInConcatenation(value + comma, printed, t);
    } else {
      ContainedInConcatenation(value + comma, printed, t);
    }
  }

  lemma VersionIsThere(c: Setting, env: seq<EnvVar>)
    requires OthersAgree(c, env)
    ensures !NeedsVersion(Inject(c, env), c.image)
  {
    AfterOneInjection(c, env);
    if ChooseServiceVersion(c.image) != "" {
      VersionIsWritten(c, env);
    }
  }

  lemma VersionIsWritten(c: Setting, env: seq<EnvVar>)
    requires ChooseServiceVersion(c.image) != ""
    ensures Contains(AttributesVar(env, Printed(Attributes(c, env))).value, SERVICE_VERSION)
  {
    if NeedsVersion(env, c.image) {
      VersionIsAttribute(c, env);
      PairIsPrinted(Attributes(c, env), SERVICE_VERSION);
    }
    if Defines(env, ENV_RESOURCE_ATTRS) {
      ContainedInAppended(UserValue(env), Printed(Attributes(c, env)), SERVICE_VERSION);
    }
  }

  lemma VersionIsAttribute(c: Setting, env: seq<EnvVar>)
    requires NeedsVersion(env, c.image)
    ensures SERVICE_VERSION in Attributes(c, env)
  {
    AttributesAsSet(c, env);
  }

  /** A name is defined afterwards if it was before or if one of the added pieces defines it. */
  lemma DefinedAfterwards(c: Setting, env: seq<EnvVar>, name: string)
    requires |name| != 24
    ensures var res := Found(c, env);
            Defines(env, name) || Defines(ServiceNameVar(env, res, c.name), name)
              || Defines(EndpointVar(env, c.spec.endpoint), name)
            || Defines(PropagatorsVar(c.spec, env), name) || Defines(SamplerVars(c.spec, env), name)
            ==> Defines(Inject(c, env), name)
    ensures Defines(env, name) ==> Defines(Inject(c, env), name)
  {
    assert name != ENV_RESOURCE_ATTRS by { NamesAreDistinct(); }
    StillDefined(c, env, name);
    AddedPieces(c, env, name);
  }

  lemma ServiceNameIsDefined(c: Setting, env: seq<EnvVar>)
    ensures Defines(Inject(c, env), ENV_SERVICE_NAME)
  {
    assert |ENV_SERVICE_NAME| != 24;
    DefinedAfterwards(c, env, ENV_SERVICE_NAME);
    OptionalDefines(!Defines(env, ENV_SERVICE_NAME),
      EnvVar(ENV_SERVICE_NAME, ChooseServiceName(Found(c, env), c.name), ""));
  }

  lemma EndpointIsDefined(c: Setting, env: seq<EnvVar>)
    ensures c.spec.endpoint != "" ==> Defines(Inject(c, env), ENV_ENDPOINT)
  {
    assert |ENV_ENDPOINT| != 24;
    DefinedAfterwards(c, env, ENV_ENDPOINT);
    OptionalDefines(c.spec.endpoint != "" && !Defines(env, ENV_ENDPOINT), EnvVar(ENV_ENDPOINT, c.spec.endpoint, ""));
  }

  lemma PropagatorsAreDefined(c: Setting, env: seq<EnvVar>)
    ensures c.spec.propagators != [] ==> Defines(Inject(c, env), ENV_PROPAGATORS)
  {
    assert |ENV_PROPAGATORS| != 24;
    DefinedAfterwards(c, env, ENV_PROPAGATORS);
    OptionalDefines(c.spec.propagators != [] && !Defines(env, ENV_PROPAGATORS),
                    EnvVar(ENV_PROPAGATORS, Join(c.spec.propagators, ","), ""));
  }

  lemma SamplerIsDefined(c: Setting, env: seq<EnvVar>)
    ensures c.spec.samplerType != "" ==>
              Defines(Inject(c, env), ENV_TRACES_SAMPLER) || Defines(Inject(c, env), ENV_TRACES_SAMPLER_ARG)
  {
    assert |ENV_TRACES_SAMPLER| != 24 && |ENV_TRACES_SAMPLER_ARG| != 24;
    DefinedAfterwards(c, env, ENV_TRACES_SAMPLER);
    DefinedAfterwards(c, env, ENV_TRACES_SAMPLER_ARG);
    if c.spec.samplerType != "" && !Defines(env, ENV_TRACES_SAMPLER) && !Defines(env, ENV_TRACES_SAMPLER_ARG) {
      assert SamplerVars(c.spec, env)[0].name == ENV_TRACES_SAMPLER;
    }
  }

  lemma NothingLeftToDefine(c: Setting, env: seq<EnvVar>)
    ensures var env' := Inject(c, env);
            && Defines(env', ENV_SERVICE_NAME) && EndpointVar(env', c.spec.endpoint) == []
            && AddedAfter(c.spec, env') == []
  {
    ServiceNameIsDefined(c, env);
    EndpointIsDefined(c, env);
    PropagatorsAreDefined(c, env);
    SamplerIsDefined(c, env);
  }

  lemma AppendedNothing(value: string)
    ensures Appended(value, "") == value
  {
  }

  /** What is not recognised again is added again; so is the pod's UID, whether recognised or not. */
  lemma AddedAgain(c: Setting, env: seq<EnvVar>)
    requires OthersAgree(c, env) && (c.spec.addK8sUID || !Recovered(c, env))
    ensures Attributes(c, Inject(c, env)) != map[]
  {
    var env' := Inject(c, env);
    if c.spec.addK8sUID {
      UidIsAttribute(c, env');
    } else {
      AfterOneInjection(c, env);
      var k :| k in Found(c, env) && k !in ParsedKeys(Printed(Attributes(c, env)));
      assert k in Found(c, env');
      FoundIsAttribute(c, env', k);
    }
  }

  lemma UidIsAttribute(c: Setting, env: seq<EnvVar>)
    requires c.spec.addK8sUID
    ensures POD_UID in Attributes(c, env)
  {
    AttributesAsSet(c, env);
  }

  lemma FoundIsAttribute(c: Setting, env: seq<EnvVar>, k: string)
    requires k in Found(c, env)
    ensures k in Attributes(c, env)
  {
  }

  /** Injecting twice equals injecting once if and only if the pod's UID is not asked for, every attribute is recognised
      again in what was printed, and the attributes entries behind the first, if any, already agree with the result. */
  lemma InjectingTwice(c: Setting, env: seq<EnvVar>)
    ensures Inject(c, Inject(c, env)) == Inject(c, env) <==>
              Recovered(c, env) && !c.spec.addK8sUID && OthersAgree(c, env)
  {
    RepeatsIfOthersAgree(c, env);
    FixedPoints(c, Inject(c, env));
    if OthersAgree(c, env) {
      if Recovered(c, env) && !c.spec.addK8sUID {
        NothingLeftToAdd(c, env);
      } else {
        AddedAgain(c, env);
      }
    }
  }

  /** With at most one attributes entry there are no others. */
  lemma SingleEntryAgrees(c: Setting, env: seq<EnvVar>)
    requires Single(env, ENV_RESOURCE_ATTRS)
    ensures OthersAgree(c, env)
  {
    WithoutSingle(env, ENV_RESOURCE_ATTRS);
  }

  /** The values of what is found have no equals sign before their first comma. */
  ghost predicate TameValues(c: Setting, env: seq<EnvVar>) {
    forall k | k in Found(c, env) && k in Attributes(c, env) :: '=' !in Split(Attributes(c, env)[k], ',')[0]
  }

  /** With such values an injection is idempotent exactly if the pod's UID is not asked for, all keys found are clean
      and the other entries agree. */
  lemma CleanAttributesSettle(c: Setting, env: seq<EnvVar>)
    requires TameValues(c, env)
    ensures Inject(c, Inject(c, env)) == Inject(c, env) <==>
              (forall k | k in Found(c, env) :: CleanKey(k)) && !c.spec.addK8sUID && OthersAgree(c, env)
  {
    forall k | k in Found(c, env)
      ensures k in ParsedKeys(Printed(Attributes(c, env))) <==> CleanKey(k)
    {
      FoundIsAttribute(c, env, k);
      if CleanKey(k) {
        RecoveredFromPrinted(Attributes(c, env), k);
      } else if k in ParsedKeys(Printed(Attributes(c, env))) {
        ParsedKeysAreClean(Printed(Attributes(c, env)), k);
      }
    }
    InjectingTwice(c, env);
  }

  /** A key with a comma, an equals sign or leading space is never recognised: every injection, into whatever list, adds
      it once more, and none is idempotent. */
  lemma UncleanKeyNeverSettles(c: Setting, env: seq<EnvVar>, k: string)
    requires k in c.spec.attributes && !CleanKey(k)
    ensures k in Attributes(c, env)
    ensures Inject(c, Inject(c, env)) != Inject(c, env)
  {
    if k in ExistingKeys(env) {
      ParsedKeysAreClean(UserValue(env), k);
    }
    FoundIsAttribute(c, env, k);
    if Recovered(c, env) {
      ParsedKeysAreClean(Printed(Attributes(c, env)), k);
    }
    InjectingTwice(c, env);
  }

  /** With two attributes entries the injections take turns: each edits the first one and moves it behind the other.
      They can only settle if the value of the second begins with that of the first. */
  lemma TwoEntriesTakeTurns(c: Setting, env: seq<EnvVar>)
    requires var others := Without(env, IndexOf(env, ENV_RESOURCE_ATTRS));
             Defines(others, ENV_RESOURCE_ATTRS) && !(UserValue(env) <= UserValue(others))
    ensures Inject(c, Inject(c, env)) != Inject(c, env)
  {
    assert UserValue(env) <= Result(c, env).value;
    InjectingTwice(c, env);
  }
}
