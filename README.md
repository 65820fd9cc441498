# Smart-heating decision engine, modelled in Dafny

This project models the decision-making component of a small MQTT smart-heating
system. The component subscribes to `temperature_meter/<user_id>` messages
carrying `{"temperature": t}`. It keeps, per user, a rolling window of the last
`FIRST_SAMPLES_COUNT = 100` readings and an on/off heater state, and it publishes
`{"action": "turn_on"}` / `{"action": "turn_off"}` on
`heating_system/<user_id>/control`. It publishes when the mean of a full window
lies on the other side of the threshold from the heater's state, and only for
readings that the z-score test (`OUTLIER_THRESHOLD = 3`) does not flag.

Layout, one module per concept:

- `wrappers.dfy`, module `Wrappers`: `Option`.
- `statistics.dfy`, module `Statistics`: sum, mean, sample variance (the square of `statistics.stdev`), and the facts about them used below.
- `rolling_window.dfy`, module `RollingWindow`: the `deque(maxlen=100)` per user (`Append`), and `Last`, the newest `k` elements of a sequence.
- `outlier.dfy`, module `Outlier`: `detect_outlier`.
- `heating_control.dfy`, module `HeatingControl`: the hysteresis rule of `control_heating_system`, the command and its topic, and alternation of commands.
- `topic.dfy`, module `Topic`: `str.split("/")` and its inverse.
- `engine.dfy`, module `DecisionEngine`:
  - the per-user state and the pure step functions `ControlStep`, `RecordStep`, `HandleStep`, `Dispatch` and `MessageStep`;
  - streams of readings (`Run`) and the lemmas about them;
  - the class `DecisionMakingComponent`. Its map fields are updated in place, and each of its methods is proved to produce exactly the state and command of the matching step function.

The model follows the code's order of operations. The reading is appended to the
window before the outlier test, so a flagged outlier stays in the window. The
mean handed to the controller and the mean and variance of the z-score test are
all taken over the window that already holds the new reading (`RunWindow`).

The z-score test `|value - mean| / stdev > 3` is stated without square roots, as
`(value - mean)² > 3² · variance` when the variance is non-zero. A zero variance
makes the code divide by zero; the exception is caught and the test answers
false, and the model answers false directly. `OutlierIsZScore` proves the two
forms agree whenever `sd` is a positive square root of the variance.

## Model

| member | source | states |
|---|---|---|
| RollingWindow.Append | decision_making_component.py:78-81 | the window after `deque(maxlen=100).append(x)` holds min(n+1, 100) readings, `x` last, and the previous readings kept in order with the oldest dropped when it was full |
| RollingWindow.AppendKeepsNewest | decision_making_component.py:78-81 | appending to the newest 100 of a history gives the newest 100 of the history extended by the reading |
| RollingWindow.AppendIsLast | decision_making_component.py:78-81 | appending to a window of at most 100 readings is keeping the newest 100 of window plus reading |
| Statistics.Variance | decision_making_component.py:111 | the sample variance (stdev squared) is never negative |
| Statistics.ZeroVarianceIffConstant | decision_making_component.py:111-112 | the variance is zero exactly when every sample equals the first |
| Statistics.Mean | decision_making_component.py:90 | `statistics.mean` of a non-empty window lies between its smallest and its largest reading |
| Statistics.VarianceOf | decision_making_component.py:111 | the variance is `v` whenever the squared deviations from the mean add up to (n - 1) · v |
| Statistics.ConstantMean | decision_making_component.py:90 | the mean of equal readings `c` is `c` |
| Outlier.DetectOutlier | decision_making_component.py:95-120 | a reading can only be flagged against at least 100 samples |
| Outlier.OutlierIsZScore | decision_making_component.py:110-117 | with 100 or more samples and positive stdev `sd`, the test flags `value` iff `abs((value - mean) / sd) > 3` |
| Outlier.ZeroSpreadNeverOutlier | decision_making_component.py:111-120 | when all samples are equal (stdev 0, division error caught) no value is flagged |
| Outlier.SpreadOutlier | decision_making_component.py:110-117 | when the samples are not all equal the test is the squared z-score comparison against 3² times the variance |
| Outlier.RampSumSqDev | decision_making_component.py:110-111 | the squared deviations of the readings a, a + 1, ..., a + n - 1 from any `m` add up to the closed form `SquareSum(a - m, n)` |
| Outlier.RampStatistics | decision_making_component.py:110-111 | a window of readings a, a + 1, ..., a + n - 1 has mean a + (n - 1)/2 and variance n(n + 1)/12 |
| Outlier.RampWindowNotOutlier | unittest/test_decision_making_component.py:38-40 | the samples 20.0, 21.0, ..., 119.0 do not flag 25.0 |
| HeatingControl.Decide | decision_making_component.py:131-140 | the new heater state is `avg < threshold`; an action is emitted iff the state changes, and it is the toggle of the old state (turn_on from off, turn_off from on) |
| HeatingControl.DecideSettles | decision_making_component.py:131-140 | deciding again on the same mean emits nothing |
| HeatingControl.ControlTopic | decision_making_component.py:133 | the control topic is `heating_system/`, then the user id whole, then `/control` |
| HeatingControl.ControlTopicInjective | decision_making_component.py:133 | two users never share a control topic `heating_system/<user_id>/control` |
| HeatingControl.AlternatingNoRepeat | decision_making_component.py:131-140 | in an alternating command sequence the i-th command toggles the state reached after i commands, and no command is repeated back to back |
| Topic.Split | decision_making_component.py:58 | `topic.split("/")` yields at least one segment, no segment contains `/`, and joining them with `/` gives the topic back |
| Topic.SplitJoin | decision_making_component.py:58 | splitting segments joined with `/` gives the segments back when none contains `/` |
| Topic.SplitSegment | decision_making_component.py:58-59 | a topic `a/t` with `a` free of `/` splits into `a` followed by the segments of `t` |
| Topic.SplitWhole | decision_making_component.py:58-59 | a topic without `/` is a single segment |
| DecisionEngine.ControlStep | decision_making_component.py:122-142 | for a known user the heater becomes `avg < threshold`; a command to that user is returned iff the heater changes, and it toggles the old state; an unknown user (KeyError, caught) changes nothing and sends nothing; a well-formed state stays well formed |
| DecisionEngine.Admitted | decision_making_component.py:83-88 | the controller runs only on a full window, and on a full window without spread it always runs |
| DecisionEngine.RecordStep | decision_making_component.py:77-81 | an unseen user gets an empty window and heater False, then the reading is appended; no other entry changes and the state stays well formed |
| DecisionEngine.HandleStep | decision_making_component.py:68-93 | the reading is always appended; the heater is set to mean < threshold only when the window is then full and the reading is not an outlier against it; a command is sent iff the heater flips; only that user's entries change |
| DecisionEngine.FirstReading | decision_making_component.py:77-84 | the first reading of an unseen user leaves the window `[t]` and the heater off, and sends no command |
| DecisionEngine.OtherUsersUnchanged | decision_making_component.py:77-91 | a reading leaves every other user's window and heater as they were |
| DecisionEngine.Dispatch | decision_making_component.py:57-66 | a message is handled only if its topic is `temperature_meter/<user_id>`, possibly followed by further `/` segments, with a user id free of `/` (the whole second segment), and its payload decodes and holds `temperature`, which is the reading's value |
| DecisionEngine.MessageStep | decision_making_component.py:48-66 | a dropped message changes nothing and sends nothing; the state stays well formed |
| DecisionEngine.DispatchTemperatureMeter | decision_making_component.py:58-64 | a message on `temperature_meter/<u>`, or on `temperature_meter/<u>/...` with further segments, with a temperature reaches the handler with user `u` and that value |
| DecisionEngine.DispatchNeedsUser | decision_making_component.py:58-59 | a topic without a second segment (IndexError, caught) is dropped |
| DecisionEngine.MessageRecordsReading | unittest/test_decision_making_component.py:26-28 | after a reading on `temperature_meter/<u>`, `u` is known and the reading is the newest in its window |
| DecisionEngine.Run | decision_making_component.py:68-93 | handling a stream of readings keeps the state well formed and sends at most one command per reading |
| DecisionEngine.RunWindow | decision_making_component.py:78-81 | every reading is appended, outliers included: a user's window is the newest 100 of everything it ever received |
| DecisionEngine.StepWindow | decision_making_component.py:78-81 | one reading adds its value to its own user's window only |
| DecisionEngine.StepActions | decision_making_component.py:131-140 | one reading sends a user the toggle of that user's heater when it flips, and nothing otherwise |
| DecisionEngine.RunAlternates | decision_making_component.py:131-140 | over any stream, each user's commands alternate starting from that user's heater state |
| DecisionEngine.FromInitialFirstTurnsOn | decision_making_component.py:79 | from a fresh component, each user's first command is turn_on and no two consecutive commands to a user are equal |
| DecisionEngine.RunWarmUp | decision_making_component.py:83-84 | while a user's window holds fewer than 100 readings, the user gets no command and the heater keeps its state |
| DecisionEngine.FromInitialWindow | unittest/test_decision_making_component.py:30-36 | from a fresh component a user's window holds min(received, 100) readings with the newest last |
| DecisionEngine.ConstantStreamTurnsOn | decision_making_component.py:68-93 | 100 equal readings `t` from a fresh component send nothing during the first 99 readings, exactly one turn_on in all when `t < threshold` (none otherwise), and leave the heater at `t < threshold` |
| DecisionEngine.ConstantStep | decision_making_component.py:81-91 | a reading `t` on a window of equal readings `t` grows it by one and sets the heater only when that fills the window |
| DecisionEngine.ConstantFill | decision_making_component.py:68-93 | the last n readings that fill a window of equal readings send one turn_on iff `t < threshold` |
| DecisionEngine.DecisionMakingComponent.constructor | decision_making_component.py:33-35 | a new component stores the threshold and knows no user |
| DecisionEngine.DecisionMakingComponent.ControlHeatingSystem | decision_making_component.py:122-142 | updates `heatingSystems` in place and returns the command exactly as `ControlStep`, keeping a well-formed state well formed |
| DecisionEngine.DecisionMakingComponent.HandleTemperature | decision_making_component.py:68-93 | updates both maps in place and returns the command exactly as `HandleStep`, keeping the state well formed |
| DecisionEngine.DecisionMakingComponent.OnMessage | decision_making_component.py:48-66 | dispatches and handles a message in place exactly as `MessageStep` |

## Left out

- MQTT I/O is not modelled: `mqtt.Client()`, `connect`, `subscribe("temperature_meter/+")` and `loop_forever`. Publishing is modelled as the returned `Command`, whose `Topic()` is the control topic. The JSON body `{"action": ...}` is the `Action`.
- Publishing always succeeds in the model. In the code `publish` runs before the heater state is updated, so a publish that raised would leave the state unchanged. The model does not capture that.
- `json.loads` is abstracted into the `Payload` datatype:
  - text that does not decode is `Undecodable`;
  - a decoded value without a usable `temperature` (a missing key, or a JSON value that is not an object) is `Decoded(None)`.
- Temperatures that are not numbers are left out. The model's readings are reals.
- Floating point is left out. Readings, means and variances are exact reals, and `sqrt` inside `statistics.stdev` is replaced by the squared comparison.
- All `print` logging is left out, and so are the argparse `__main__` block and `start`.
- The other `except Exception` handlers are left out: they catch nothing for real-valued readings on a well-formed state. The model keeps the caught exceptions that define behaviour: the zero-stdev division, the dropped message, and the KeyError of an unknown user in the controller.
- simulate_temperature.py and simulate_heating_system.py are not part of this model: they are a random publisher and a print-only actuator.
- Concurrency is left out. The MQTT loop calls `on_message` one message at a time, and the model handles readings in sequence.
- Outlier.DetectOutlier: its own contract only says that flagging needs a full window. The z-score meaning is stated by `OutlierIsZScore`, `ZeroSpreadNeverOutlier` and `SpreadOutlier`.
- DecisionEngine.Run: its own contract bounds the number of commands; what each user receives is stated by `RunWindow`, `RunAlternates` and `RunWarmUp`.
