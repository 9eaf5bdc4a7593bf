/** Lists of environment variables, in the order the container runtime sees them. */
module Env {

  /** Either a literal value or, if `valueFrom` is not empty, a field of the pod. */
  datatype EnvVar = EnvVar(name: string, value: string, valueFrom: string)

  predicate Defines(env: seq<EnvVar>, name: string) {
    exists i | 0 <= i < |env| :: env[i].name == name
  }

  /** The position of the first entry with that name, or -1. */
  function IndexOf(env: seq<EnvVar>, name: string): (idx: int)
    ensures -1 <= idx < |env|
    ensures idx == -1 <==> !Defines(env, name)
    ensures idx >= 0 ==> env[idx].name == name && !Defines(env[..idx], name)
  {
    if env == [] then -1
    else if env[0].name == name then 0
    else
      var later := IndexOf(env[1..], name);
      assert env == [env[0]] + env[1..];
      assert later >= 0 ==> env[..later + 1] == [env[0]] + env[1..][..later];
      if later == -1 then -1 else later + 1
  }

  method GetIndexOfEnv(env: seq<EnvVar>, name: string) returns (idx: int)
    ensures idx == IndexOf(env, name)
  {
    for i := 0 to |env|
      invariant !Defines(env[..i], name)
    {
      if env[i].name == name {
        FirstIsIndex(env, name, i);
        return i;
      }
      assert env[..i + 1] == env[..i] + [env[i]];
    }
    assert env[..|env|] == env;
    return -1;
  }

  lemma FirstIsIndex(env: seq<EnvVar>, name: string, i: nat)
    requires i < |env| && env[i].name == name && !Defines(env[..i], name)
    ensures IndexOf(env, name) == i
  {
    var idx := IndexOf(env, name);
    assert forall j | 0 <= j < i :: env[..i][j] == env[j] && env[j].name != name;
    assert forall j | 0 <= j < idx :: env[..idx][j] == env[j] && env[j].name != name;
  }

  lemma IndexOfAppended(env: seq<EnvVar>, more: seq<EnvVar>, name: string)
    ensures Defines(env + more, name) <==> Defines(env, name) || Defines(more, name)
    ensures Defines(env, name) ==> IndexOf(env + more, name) == IndexOf(env, name)
  {
    if Defines(env, name) {
      var idx := IndexOf(env, name);
      assert (env + more)[idx] == env[idx];
      assert (env + more)[..idx] == env[..idx];
      FirstIsIndex(env + more, name, idx);
    } else if Defines(more, name) {
      var idx := IndexOf(more, name);
      assert (env + more)[|env| + idx] == more[idx];
    }
  }

  function GetEnvValue(env: seq<EnvVar>, name: string): string {
    var idx := IndexOf(env, name);
    if idx == -1 then "" else env[idx].value
  }

  /** At most one entry has that name. */
  predicate Single(env: seq<EnvVar>, name: string) {
    forall i, j | 0 <= i < j < |env| :: env[i].name != name || env[j].name != name
  }

  predicate Distinct(env: seq<EnvVar>) {
    forall i, j | 0 <= i < j < |env| :: env[i].name != env[j].name
  }

  function Without(env: seq<EnvVar>, idx: int): seq<EnvVar> {
    if 0 <= idx < |env| then env[..idx] + env[idx + 1..] else env
  }

  method MoveEnvToListEnd(env: seq<EnvVar>, idx: int) returns (moved: seq<EnvVar>)
    ensures moved == if 0 <= idx < |env| then Without(env, idx) + [env[idx]] else env
    ensures multiset(moved) == multiset(env)
  {
    moved := env;
    if 0 <= idx < |env| {
      var envToMove := moved[idx];
      moved := moved[..idx] + moved[idx + 1..];
      moved := moved + [envToMove];
      assert env == env[..idx] + [env[idx]] + env[idx + 1..];
    }
  }

  lemma WithoutSingle(env: seq<EnvVar>, name: string)
    requires Single(env, name)
    ensures !Defines(Without(env, IndexOf(env, name)), name)
  {
    var idx := IndexOf(env, name);
    if idx >= 0 {
      var rest := Without(env, idx);
      forall i | 0 <= i < |rest|
        ensures rest[i].name != name
      {
        assert rest[i] == if i < idx then env[i] else env[i + 1];
      }
    }
  }

  lemma WithoutKeepsOthers(env: seq<EnvVar>, idx: nat, name: string)
    requires idx < |env| && env[idx].name != name
    ensures Defines(Without(env, idx), name) <==> Defines(env, name)
  {
    var rest := Without(env, idx);
    assert forall i | 0 <= i < |rest| :: rest[i] == if i < idx then env[i] else env[i + 1];
    if i :| 0 <= i < |env| && env[i].name == name {
      assert rest[if i < idx then i else i - 1] == env[i];
    }
  }
}
