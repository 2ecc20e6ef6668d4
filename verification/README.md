# BlobCity tuner: early stopping and parameter-space encoding in Dafny

This project models the decision logic of BlobCity AutoAI's hyperparameter
tuner (`blobcity/config/tuner.py`). The tuner runs an Optuna study that
maximises a model's cross-validated accuracy. Two parts of it are modelled:

- **Early stopping** (`EarlyStopping`, `early_stopping.dfy`). The callback
  `early_stopping_opt` keeps a class-level state: a recorded best score
  (initially `None`) and an iteration counter bounded by `iter_stop = 10`.
  It runs after every finished trial and sees the study's running best
  value. It asks the study to stop when the best value reaches 0.99. It also
  asks to stop when the best value sits strictly between 0.90 and 0.99 and
  has not improved for `iter_stop` callbacks. `study.stop()` does not return
  early, so the rest of the step still runs. One `Step` therefore yields a
  new state plus a stop flag, and `Run` folds `Step` over a series of
  callbacks.
- **Running best** (`Study`, `study.dfy`). The study maximises, so the value
  the callback sees is the prefix maximum of the trial values. This is why
  the lemmas that need it assume a non-decreasing input.
- **Parameter-space encoding** (`ParamSpace`, `param_space.dfy`).
  `getParamList` picks the registry entry named by the first selected model.
  `getParams` walks the (name, spec) pairs in insertion order. It dispatches
  each datatype tag to the trial oracle: `suggest_int` or `suggest_float`
  with bounds `arg[0]`, `arg[1]`, or `suggest_categorical` over `arg` for
  `"str"`, `"bool"` and `"object"`. Python dicts keep insertion order, so
  the model uses sequences of pairs. The oracle is a datatype of three total
  functions.

`wrappers.dfy` holds the `Option` and `Result` types: `None` for Python's
`None`, and `Failure` for a raised exception.

The stall timing depends on how the plateau began. From the initial state
the adopting callback already counts (tuner.py:49, 55-57), so a stall-stop
comes after the first value plus 10 more equal values. After an
improvement, the counter is zeroed without counting that callback
(tuner.py:53), so it takes 11 further equal values. The docstring's "has
not changed for the last ten trials" (tuner.py:46) fits the first case.

The docstring (tuner.py:45) says "between 90%-99%". The code tests
`> 0.90 and < 0.99` (tuner.py:55), which is strict at both ends. The model
follows the code.

## Model

| member | source | states |
|---|---|---|
| EarlyStopping.Step | blobcity/config/tuner.py:38-62 | Stop is requested exactly when the best value is at least 0.99, or it is strictly inside (0.90, 0.99) without improvement and the counter has reached 10. A stop always means a value above 0.90. An improvement records the new best and zeroes the counter. A non-improving in-band callback below the limit adds exactly 1 and does not stall-stop. At the limit it stops, zeroes the counter and clears the record. Outside the band a non-improving callback keeps the counter and the (adopted) record. The counter never exceeds 10. |
| EarlyStopping.Run | blobcity/config/tuner.py:49-61 | Over any series of callbacks there is one flag per callback. Every value of at least 0.99 raises its flag. No flag is raised for a value at or below 0.90. A counter that starts within 10 stays within 10. |
| EarlyStopping.PlateauRun | blobcity/config/tuner.py:55-61 | With a constant in-band best value, from a state that records it (or is empty) with c non-improving callbacks behind it, the counter cycles with period 11. Callback i requests stop exactly when (c + i) mod 11 = 10. |
| EarlyStopping.PlateauStopsOnEleventh | blobcity/config/tuner.py:49-61 | From the initial state, a best value that stays strictly inside (0.90, 0.99) first requests stop on the 11th callback and never earlier. |
| EarlyStopping.ImprovementRestartsPlateau | blobcity/config/tuner.py:51-61 | After a callback that improves the record to an in-band value, the same value on 11 further callbacks is needed before a stall-stop. No stop comes at indices 0 to 10, and the stop comes at index 11. |
| EarlyStopping.RunCons | blobcity/config/tuner.py:49-61 | A series of callbacks behaves as its first callback followed by the rest of the series from the state that first callback left. |
| EarlyStopping.RunTracks | blobcity/config/tuner.py:49-61 | On a non-decreasing series from the initial state, the counter is at most 10 and at most the number of callbacks. A record, when present, equals the latest value. The last `count` values are all equal. |
| EarlyStopping.StallStopNeedsPlateau | blobcity/config/tuner.py:51-61 | On a non-decreasing series from the initial state, a stop below 0.99 comes at callback 10 or later. The same value was then seen on that callback and the 10 before it. |
| EarlyStopping.StrictImprovementNeverStops | blobcity/config/tuner.py:50-61 | From the initial state, a best value that strictly improves on every callback and stays below 0.99 never requests stop. |
| EarlyStopping.CarriedRecordCountsUp | blobcity/config/tuner.py:34-36 | From a record carried over from an earlier study, up to 10 in-band callbacks at or below that record each raise the counter by one. The record stays unchanged and no stop is requested in between. |
| EarlyStopping.CarriedStateStopsImprovingSeries | blobcity/config/tuner.py:34-36 | An 11-value series that strictly improves inside the band requests stop on its 11th callback when it starts from a record of 0.995 left by an earlier study. The same series never stops from the initial state. |
| EarlyStopping.TargetReachedStopsEveryLaterCallback | blobcity/config/tuner.py:50 | Fed with the study's running best, once some trial reaches 0.99 every later callback requests stop, whatever the starting state. |
| Study.RunningBest | blobcity/config/tuner.py:183-184 | The best value after each trial of a maximising study is non-decreasing. It is at least every earlier trial value, and it equals one of them. |
| ParamSpace.Suggest | blobcity/config/tuner.py:141-146 | `"int"` and `"float"` call the matching oracle with the key and bounds `arg[0]`, `arg[1]`. They fail with IndexError exactly when fewer than two arguments exist. The three categorical tags call `suggest_categorical(key, arg)`. Any other tag assigns nothing. |
| ParamSpace.SpecLoop | blobcity/config/tuner.py:140-146 | It succeeds exactly when no bounded tag lacks a bound. A failure records the key and an offending tag. These are the model's annotations: Python's IndexError carries neither. The key is added exactly when the spec holds a recognised tag. Other keys are untouched. Without a recognised tag nothing changes. The value is the suggestion of the last recognised tag. |
| ParamSpace.ParamsLoop | blobcity/config/tuner.py:138-147 | It succeeds exactly when every spec is well formed. The result's keys are the incoming keys plus the names with a recognised tag. Incoming entries whose name has no recognised tag keep their values. |
| ParamSpace.GetParams | blobcity/config/tuner.py:130-147 | It fails exactly when some bounded tag lacks a bound. On success the keys are exactly the parameter names whose spec holds at least one recognised tag. Names with only unrecognised tags are omitted. |
| ParamSpace.ParamsLoopLastTagWins | blobcity/config/tuner.py:139-146 | With distinct names, every name ends up with the suggestion of the last recognised tag in its own spec. Later entries never overwrite it. |
| ParamSpace.GetParamsLastTagWins | blobcity/config/tuner.py:139-146 | In getParams' result, each parameter's value is the oracle's suggestion for the last recognised tag of its spec. |
| ParamSpace.GetParamList | blobcity/config/tuner.py:119-128 | It succeeds exactly when the selection is non-empty and its first name is in the registry. It then returns that entry. An empty selection is an IndexError. A missing name is a KeyError naming it. |
| ParamSpace.GetParamListFirstKeyOnly | blobcity/config/tuner.py:127-128 | Only the first selected name matters. The rest of the selection and the other registry entries do not change the result. |

## Left out

- `regression_metrics`, `classification_metrics`, `metricResults` (tuner.py:64-117): thin calls into sklearn metrics and train/test splitting over floating-point arrays.
- `objective` and `tuneModel` (tuner.py:149-189): Optuna study orchestration, `cross_val_score`, model construction and fitting are foreign calls. The catch-all `except` that prints and returns nothing is I/O.
- `modelSelection.getKFold` (tuner.py:180) is not part of this model. The warning and logging setup (tuner.py:23-27) is environment plumbing.
- Concurrency: the study runs trials with `n_jobs=-1`, so callbacks may interleave and race on the class-level counters. Callbacks are modelled as a sequential series.
- Failed trials: Optuna raises ValueError from `study.best_value` while no trial has completed. This happens when the first trial fails or its objective returns NaN, for example a `cross_val_score` mean over failed folds. The model instead gives every callback a real. Callbacks after a failed trial see the previous best repeated. Only `EarlyStopping.Run` over arbitrary values covers that. `Study.RunningBest` has one entry per completed trial value and omits the repeated entries.
- StrictImprovementNeverStops: holds only from the initial state. The class-level state (tuner.py:34-36) is never reset between studies, so a later study starts from whatever the previous one left (see Findings).
- Callbacks after a stop: `Run` keeps folding after a stop flag. In the source, `study.stop()` ends `optimize` once the running trials finish, and `n_trials=50` (tuner.py:184) caps the number of callbacks. Continued series model callbacks the study still delivers, such as parallel stragglers or a later study, not a real continuation. This covers `TargetReachedStopsEveryLaterCallback` and `PlateauRun` past its first stop.
- Floating point: accuracies are Dafny reals. The policy only compares them with constants and with the recorded best.
- The trial oracle is pure, so Optuna's side effects are not modelled. For example, it does not model registering a distribution per name. Nor does it model raising when one name is suggested with incompatible distributions, with an empty choice list, or with a low bound above the high bound.
- Arguments are modelled as a list of values. A spec argument that is not a sequence is not modelled.
- A registry entry is modelled as a (model class, parameter space) pair. An entry that is too short to index `[0]` and `[1]` is not modelled.
- ParamSpace.ParamsLoopLastTagWins, ParamSpace.GetParamsLastTagWins: state the value only for distinct parameter names, which the source's dict guarantees.

## Findings

| source | as written | input that shows it | evidently intended | confidence | as-written member | corrected member |
|---|---|---|---|---|---|---|
| blobcity/config/tuner.py:34-36 | The early-stopping state lives on the class. `tuneModel` (tuner.py:163-189) never resets it, so a second study in the same process starts from the previous study's record and counter. | The first study stops at 0.995, leaving the record at 0.995 and the counter at 0. A second study's best values 0.91, 0.92, …, 0.98, 0.985, 0.986, 0.987 improve strictly, yet it is stopped on its 11th callback, with no stop before. | Each study starts from an empty record and a zero counter, and then a strictly improving series below 0.99 never stops. | medium; not executed | EarlyStopping.CarriedStateStopsImprovingSeries | EarlyStopping.StrictImprovementNeverStops |
