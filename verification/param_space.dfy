/** The parameter-space encoding of the tuner (blobcity/config/tuner.py:119-147).

    A model's parameter space is an ordered list of (parameter name, spec)
    pairs; a spec is an ordered list of (datatype tag, arguments) pairs.
    `getParams` turns it into one configuration by asking the trial for a
    suggestion per recognised tag. The trial is an abstract oracle: three
    total functions standing for `suggest_int`, `suggest_float` and
    `suggest_categorical`. */
module ParamSpace {
  import opened Wrappers

  /** The Python values that appear as arguments and suggestions. */
  datatype Value =
    | IntV(i: int)
    | FloatV(x: real)
    | StrV(s: string)
    | BoolV(b: bool)
    | NoneV
    | ObjV(id: nat)

  type Args = seq<Value>
  type Spec = seq<(string, Args)>
  type Space = seq<(string, Spec)>
  type Params = map<string, Value>

  /** The trial oracle: each function receives the parameter name first. */
  datatype Trial = Trial(
    suggestInt: (string, Value, Value) -> Value,
    suggestFloat: (string, Value, Value) -> Value,
    suggestCategorical: (string, Args) -> Value)

  /** `arg[0]` or `arg[1]` raised IndexError. Python's IndexError carries
      neither the parameter name nor the tag: `key` and `tag` are
      annotations the model adds to say where it was raised. */
  datatype ParamError = IndexError(key: string, tag: string)

  /** Tags that take a (low, high) pair of bounds. */
  predicate Bounded(tag: string)
  {
    tag == "int" || tag == "float"
  }

  /** Tags that take a list of choices. */
  predicate Categorical(tag: string)
  {
    tag in {"str", "bool", "object"}
  }

  predicate Recognised(tag: string)
  {
    Bounded(tag) || Categorical(tag)
  }

  /** A bounded tag whose argument list cannot supply both bounds. */
  predicate ShortBounds(tag: string, arg: Args)
  {
    Bounded(tag) && |arg| < 2
  }

  ghost predicate WellFormedSpec(spec: Spec)
  {
    forall j :: 0 <= j < |spec| ==> !ShortBounds(spec[j].0, spec[j].1)
  }

  ghost predicate WellFormedSpace(space: Space)
  {
    forall i :: 0 <= i < |space| ==> WellFormedSpec(space[i].1)
  }

  ghost predicate HasRecognised(spec: Spec)
  {
    exists j :: 0 <= j < |spec| && Recognised(spec[j].0)
  }

  /** Entry j holds the last recognised tag of the spec. */
  ghost predicate LastRecognised(spec: Spec, j: int)
  {
    && 0 <= j < |spec|
    && Recognised(spec[j].0)
    && forall m :: j < m < |spec| ==> !Recognised(spec[m].0)
  }

  /** The names whose spec holds at least one recognised tag. */
  ghost function RecognisedKeys(space: Space): set<string>
  {
    set i | 0 <= i < |space| && HasRecognised(space[i].1) :: space[i].0
  }

  /** Parameter names are dictionary keys, hence pairwise distinct. */
  ghost predicate DistinctKeys(space: Space)
  {
    forall i, j :: 0 <= i < j < |space| ==> space[i].0 != space[j].0
  }

  /** One (tag, arguments) entry: the suggestion it assigns, None for an
      unrecognised tag, or the IndexError of a missing bound. */
  function Suggest(trial: Trial, key: string, tag: string, arg: Args): (r: Result<Option<Value>, ParamError>)
    ensures r.Failure? <==> ShortBounds(tag, arg)
    ensures r.Failure? ==> r.error == IndexError(key, tag)
    ensures r == Success(None) <==> !Recognised(tag)
    ensures tag == "int" && |arg| >= 2 ==> r == Success(Some(trial.suggestInt(key, arg[0], arg[1])))
    ensures tag == "float" && |arg| >= 2 ==> r == Success(Some(trial.suggestFloat(key, arg[0], arg[1])))
    ensures Categorical(tag) ==> r == Success(Some(trial.suggestCategorical(key, arg)))
  {
    if tag == "int" then
      if |arg| < 2 then Failure(IndexError(key, tag))
      else Success(Some(trial.suggestInt(key, arg[0], arg[1])))
    else if tag == "float" then
      if |arg| < 2 then Failure(IndexError(key, tag))
      else Success(Some(trial.suggestFloat(key, arg[0], arg[1])))
    else if Categorical(tag) then
      Success(Some(trial.suggestCategorical(key, arg)))
    else
      Success(None)
  }

  /** The inner loop over one parameter's spec: each recognised tag
      (re)assigns `params[key]`, so the last one decides. */
  function SpecLoop(trial: Trial, key: string, spec: Spec, params: Params): (r: Result<Params, ParamError>)
    ensures r.Success? <==> WellFormedSpec(spec)
    ensures r.Failure? ==> r.error.key == key
    ensures r.Failure? ==>
              exists j :: 0 <= j < |spec| && spec[j].0 == r.error.tag && ShortBounds(spec[j].0, spec[j].1)
    ensures r.Success? ==> r.value.Keys == params.Keys + (if HasRecognised(spec) then {key} else {})
    ensures r.Success? ==> forall k :: k in params && k != key ==> r.value[k] == params[k]
    ensures r.Success? && !HasRecognised(spec) ==> r.value == params
    ensures r.Success? ==> forall j :: LastRecognised(spec, j) ==>
              key in r.value && Suggest(trial, key, spec[j].0, spec[j].1) == Success(Some(r.value[key]))
    decreases |spec|
  {
    if |spec| == 0 then Success(params)
    else
      var rest := spec[1..];
      assert forall j :: 0 <= j < |rest| ==> rest[j] == spec[j + 1];
      match Suggest(trial, key, spec[0].0, spec[0].1)
      case Failure(e) => Failure(e)
      case Success(None) => SpecLoop(trial, key, rest, params)
      case Success(Some(x)) => SpecLoop(trial, key, rest, params[key := x])
  }

  /** The outer loop over the parameter space, in insertion order. */
  function ParamsLoop(trial: Trial, space: Space, params: Params): (r: Result<Params, ParamError>)
    ensures r.Success? <==> WellFormedSpace(space)
    ensures r.Success? ==> r.value.Keys == params.Keys + RecognisedKeys(space)
    ensures r.Success? ==> forall k :: k in params && k !in RecognisedKeys(space) ==> r.value[k] == params[k]
    decreases |space|
  {
    if |space| == 0 then Success(params)
    else
      var rest := space[1..];
      assert forall i :: 0 <= i < |rest| ==> rest[i] == space[i + 1];
      RecognisedKeysCons(space);
      match SpecLoop(trial, space[0].0, space[0].1, params)
      case Failure(e) => Failure(e)
      case Success(next) => ParamsLoop(trial, rest, next)
  }

  lemma RecognisedKeysCons(space: Space)
    requires |space| > 0
    ensures RecognisedKeys(space) ==
              (if HasRecognised(space[0].1) then {space[0].0} else {}) + RecognisedKeys(space[1..])
  {
  }

  /** getParams: the configuration one trial proposes for the space. */
  function GetParams(trial: Trial, space: Space): (r: Result<Params, ParamError>)
    ensures r.Success? <==> WellFormedSpace(space)
    ensures r.Success? ==> r.value.Keys == RecognisedKeys(space)
  {
    ParamsLoop(trial, space, map[])
  }

  /** Within each parameter's spec the last recognised tag decides the value. */
  lemma {:induction false} ParamsLoopLastTagWins(trial: Trial, space: Space, params: Params)
    requires DistinctKeys(space)
    requires WellFormedSpace(space)
    ensures forall i, j :: 0 <= i < |space| && LastRecognised(space[i].1, j) ==>
              space[i].0 in ParamsLoop(trial, space, params).value &&
              Suggest(trial, space[i].0, space[i].1[j].0, space[i].1[j].1)
                == Success(Some(ParamsLoop(trial, space, params).value[space[i].0]))
    decreases |space|
  {
    if |space| > 0 {
      var rest := space[1..];
      var key := space[0].0;
      var next := SpecLoop(trial, key, space[0].1, params).value;
      assert DistinctKeys(rest);
      assert WellFormedSpace(rest);
      ParamsLoopLastTagWins(trial, rest, next);
      assert ParamsLoop(trial, space, params) == ParamsLoop(trial, rest, next);
      forall i | 0 <= i < |rest|
        ensures rest[i].0 != key
      {
        assert rest[i] == space[i + 1];
      }
      assert key !in RecognisedKeys(rest);
      forall i, j | 0 <= i < |space| && LastRecognised(space[i].1, j)
        ensures space[i].0 in ParamsLoop(trial, space, params).value &&
                Suggest(trial, space[i].0, space[i].1[j].0, space[i].1[j].1)
                  == Success(Some(ParamsLoop(trial, space, params).value[space[i].0]))
      {
        if i > 0 {
          assert rest[i - 1] == space[i];
        }
      }
    }
  }

  /** getParams assigns each named parameter the suggestion of the last
      recognised tag of its spec. */
  lemma GetParamsLastTagWins(trial: Trial, space: Space)
    requires DistinctKeys(space)
    requires WellFormedSpace(space)
    ensures forall i, j :: 0 <= i < |space| && LastRecognised(space[i].1, j) ==>
              space[i].0 in GetParams(trial, space).value &&
              Suggest(trial, space[i].0, space[i].1[j].0, space[i].1[j].1)
                == Success(Some(GetParams(trial, space).value[space[i].0]))
  {
    ParamsLoopLastTagWins(trial, space, map[]);
  }

  /** A registry entry: the model's constructor and its parameter space. */
  datatype ModelEntry = ModelEntry(modelClass: string, space: Space)

  /** `list(...)[0]` on an empty selection (IndexError) or a name missing from
      the registry (KeyError). */
  datatype LookupError = EmptySelection | UnknownModel(name: string)

  /** getParamList: the first key of the selection names the registry entry. */
  function GetParamList<S>(modelKey: seq<(string, S)>, modelList: map<string, ModelEntry>): (r: Result<ModelEntry, LookupError>)
    ensures r.Success? <==> |modelKey| > 0 && modelKey[0].0 in modelList
    ensures r.Success? ==> r.value == modelList[modelKey[0].0]
    ensures |modelKey| == 0 ==> r == Failure(EmptySelection)
    ensures |modelKey| > 0 && modelKey[0].0 !in modelList ==> r == Failure(UnknownModel(modelKey[0].0))
  {
    if |modelKey| == 0 then Failure(EmptySelection)
    else
      var name := modelKey[0].0;
      if name in modelList then Success(modelList[name]) else Failure(UnknownModel(name))
  }

  /** Only the first selected name matters: the rest of the selection and
      every other registry entry are ignored. */
  lemma GetParamListFirstKeyOnly<S>(modelKey: seq<(string, S)>, other: seq<(string, S)>,
                                    modelList: map<string, ModelEntry>, extra: map<string, ModelEntry>)
    requires |modelKey| > 0
    requires modelKey[0].0 in modelList
    ensures GetParamList(modelKey[..1] + other, modelList + extra) ==
              Success((modelList + extra)[modelKey[0].0])
    ensures modelKey[0].0 !in extra ==>
              GetParamList(modelKey[..1] + other, modelList + extra) == GetParamList(modelKey, modelList)
  {
  }
}
