/** Environment variables of a container built from a name-to-value map
    (`StUtils.createContainerEnvVarsFromMap`). */
module ContainerEnv {

  datatype ContainerEnvVar = ContainerEnvVar(name: string, value: string)

  /** The variables read back as a map; a later variable of the same name
      wins, as it does for a container's environment. */
  function EnvMap(vars: seq<ContainerEnvVar>): map<string, string>
  {
    if |vars| == 0 then map[]
    else EnvMap(vars[..|vars| - 1])[vars[|vars| - 1].name := vars[|vars| - 1].value]
  }

  predicate DistinctNames(vars: seq<ContainerEnvVar>) {
    forall i, j :: 0 <= i < j < |vars| ==> vars[i].name != vars[j].name
  }

  /** The set of names. */
  function NameSet(vars: seq<ContainerEnvVar>): set<string>
  {
    if |vars| == 0 then {} else NameSet(vars[..|vars| - 1]) + {vars[|vars| - 1].name}
  }

  /** The map has a key for each name and no other. */
  lemma {:induction false} EnvMapKeys(vars: seq<ContainerEnvVar>)
    ensures EnvMap(vars).Keys == NameSet(vars)
  {
    if |vars| > 0 {
      EnvMapKeys(vars[..|vars| - 1]);
    }
  }

  /** Variables that each agree with `m` read back as a part of `m`. */
  lemma {:induction false} EnvMapAgrees(vars: seq<ContainerEnvVar>, m: map<string, string>)
    requires forall i :: 0 <= i < |vars| ==> vars[i].name in m && m[vars[i].name] == vars[i].value
    ensures forall key :: key in EnvMap(vars) ==> key in m && EnvMap(vars)[key] == m[key]
  {
    if |vars| > 0 {
      var init := vars[..|vars| - 1];
      assert forall i :: 0 <= i < |init| ==> init[i] == vars[i];
      EnvMapAgrees(init, m);
    }
  }

  /** `createContainerEnvVarsFromMap`: one variable per entry of the map, in
      the map's iteration order, which the result does not depend on for its
      contents. */
  method CreateContainerEnvVarsFromMap(envVars: map<string, string>) returns (r: seq<ContainerEnvVar>)
    ensures EnvMap(r) == envVars
    ensures DistinctNames(r)
    ensures |r| == |envVars|
    ensures forall i :: 0 <= i < |r| ==> r[i].name in envVars && envVars[r[i].name] == r[i].value
  {
    r := [];
    var remaining := envVars;
    while remaining != map[]
      invariant Progress(r, remaining, envVars)
      decreases |remaining|
    {
      var k :| k in remaining;
      var v := ContainerEnvVar(k, remaining[k]);
      ProgressStep(r, remaining, envVars, k);
      r := r + [v];
      remaining := remaining - {k};
    }
    ProgressDone(r, envVars);
  }

  /** What the loop of `CreateContainerEnvVarsFromMap` keeps: the variables
      made so far and the entries still to do split the map between them,
      and no name was made twice. */
  predicate Progress(r: seq<ContainerEnvVar>, remaining: map<string, string>, envVars: map<string, string>) {
    && (forall key :: key in remaining ==> key in envVars && remaining[key] == envVars[key])
    && (forall i :: 0 <= i < |r| ==> r[i].name in envVars && envVars[r[i].name] == r[i].value)
    && NameSet(r) + remaining.Keys == envVars.Keys
    && NameSet(r) !! remaining.Keys
    && |NameSet(r)| == |r|
  }

  /** Once no entry is left, the variables are the map. */
  lemma ProgressDone(r: seq<ContainerEnvVar>, envVars: map<string, string>)
    requires Progress(r, map[], envVars)
    ensures EnvMap(r) == envVars
    ensures DistinctNames(r) && |r| == |envVars|
    ensures forall i :: 0 <= i < |r| ==> r[i].name in envVars && envVars[r[i].name] == r[i].value
  {
    EnvMapKeys(r);
    EnvMapAgrees(r, envVars);
    NameSetDistinct(r);
    assert NameSet(r) == envVars.Keys;
  }

  lemma ProgressStep(r: seq<ContainerEnvVar>, remaining: map<string, string>, envVars: map<string, string>, k: string)
    requires Progress(r, remaining, envVars) && k in remaining
    ensures Progress(r + [ContainerEnvVar(k, remaining[k])], remaining - {k}, envVars)
    ensures |remaining - {k}| < |remaining|
  {
    StepNames(r, remaining, k);
    StepValues(r, remaining, envVars, k);
  }

  /** The new name moves from the entries still to do to the names made. */
  lemma StepNames(r: seq<ContainerEnvVar>, remaining: map<string, string>, k: string)
    requires k in remaining && NameSet(r) !! remaining.Keys
    ensures NameSet(r + [ContainerEnvVar(k, remaining[k])]) == NameSet(r) + {k}
    ensures (remaining - {k}).Keys == remaining.Keys - {k}
    ensures NameSet(r + [ContainerEnvVar(k, remaining[k])]) !! (remaining - {k}).Keys
    ensures |NameSet(r + [ContainerEnvVar(k, remaining[k])])| == |NameSet(r)| + 1
    ensures |remaining - {k}| < |remaining|
  {
    var r' := r + [ContainerEnvVar(k, remaining[k])];
    assert r'[..|r|] == r;
    assert remaining.Keys == (remaining - {k}).Keys + {k};
  }

  /** The new variable agrees with the map, and so do the old ones. */
  lemma StepValues(r: seq<ContainerEnvVar>, remaining: map<string, string>, envVars: map<string, string>, k: string)
    requires k in remaining && k in envVars && remaining[k] == envVars[k]
    requires forall i :: 0 <= i < |r| ==> r[i].name in envVars && envVars[r[i].name] == r[i].value
    ensures var r' := r + [ContainerEnvVar(k, remaining[k])];
      forall i :: 0 <= i < |r'| ==> r'[i].name in envVars && envVars[r'[i].name] == r'[i].value
  {
  }

  /** There are never more names than variables. */
  lemma {:induction false} NameSetSize(vars: seq<ContainerEnvVar>)
    ensures |NameSet(vars)| <= |vars|
  {
    if |vars| > 0 {
      NameSetSize(vars[..|vars| - 1]);
    }
  }

  /** Every variable's name is in the set. */
  lemma {:induction false} NameSetMembers(vars: seq<ContainerEnvVar>)
    ensures forall i :: 0 <= i < |vars| ==> vars[i].name in NameSet(vars)
  {
    if |vars| > 0 {
      var init := vars[..|vars| - 1];
      NameSetMembers(init);
      assert forall i :: 0 <= i < |init| ==> init[i] == vars[i];
    }
  }

  /** As many names as variables means no name occurs twice. */
  lemma {:induction false} NameSetDistinct(vars: seq<ContainerEnvVar>)
    requires |NameSet(vars)| == |vars|
    ensures DistinctNames(vars)
  {
    if |vars| > 0 {
      var init := vars[..|vars| - 1];
      var last := vars[|vars| - 1];
      NameSetSize(init);
      assert last.name !in NameSet(init);
      NameSetDistinct(init);
      NameSetMembers(init);
      forall i, j | 0 <= i < j < |vars| ensures vars[i].name != vars[j].name {
        assert vars[i] == init[i];
        if j < |init| {
          assert vars[j] == init[j];
        }
      }
    }
  }
}
