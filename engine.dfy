/**
 * The decision-making component: per-user state, the handling of one
 * temperature reading (append, warm-up, outlier gate, controller), the
 * dispatch of an MQTT message to that handler, and whole streams of readings.
 *
 * The pure functions below state what one call does to the component's
 * state; the class DecisionMakingComponent at the end does it in place and is
 * proved to agree with them.
 */
module DecisionEngine {
  import opened Wrappers
  import opened Statistics
  import opened RollingWindow
  import opened Outlier
  import opened HeatingControl
  import opened Topic

  type UserId = string

  /** `self.temperatures` (a window per user) and `self.heating_systems` (on/off per user). */
  datatype State = State(temperatures: map<UserId, seq<real>>, heatingSystems: map<UserId, bool>)

  /** Both maps know the same users, and no window outgrows Capacity. */
  ghost predicate WellFormed(st: State)
  {
    forall u :: (u in st.temperatures <==> u in st.heatingSystems) && (u in st.temperatures ==> |st.temperatures[u]| <= Capacity)
  }

  /** A freshly constructed component knows no user. */
  const Initial: State := State(map[], map[])

  /** A user's window; a user not seen yet has none. */
  function WindowOf(st: State, u: UserId): seq<real>
  {
    if u in st.temperatures then st.temperatures[u] else []
  }

  /** A user's heater state; a user not seen yet has it off. */
  function HeatingOf(st: State, u: UserId): bool
  {
    u in st.heatingSystems && st.heatingSystems[u]
  }

  /** The state after a call, and the command it published, if any. */
  datatype Outcome = Outcome(state: State, command: Option<Command>)

  /**
   * `control_heating_system(user_id, avg_temp)`: sets the user's heater to
   * `avg < threshold` and publishes a command to the user's control topic
   * exactly when that changes it. An unknown user raises a KeyError that is
   * caught: nothing changes and nothing is published.
   */
  function ControlStep(threshold: real, st: State, userId: UserId, avg: real): (r: Outcome)
    ensures userId in st.heatingSystems ==> r.state == st.(heatingSystems := st.heatingSystems[userId := avg < threshold])
    ensures userId !in st.heatingSystems ==> r == Outcome(st, None)
    ensures WellFormed(st) ==> WellFormed(r.state)
    ensures r.command.Some? <==> HeatingOf(r.state, userId) != HeatingOf(st, userId)
    ensures r.command.Some? ==> r.command.value == Command(Toggle(HeatingOf(st, userId)), userId)
  {
    if userId !in st.heatingSystems then Outcome(st, None)
    else
      var d := Decide(st.heatingSystems[userId], avg, threshold);
      var command := if d.action.Some? then Some(Command(d.action.value, userId)) else None;
      Outcome(st.(heatingSystems := st.heatingSystems[userId := d.on]), command)
  }

  /**
   * The gate in front of the controller: the window, with the new reading
   * in it, must be full, and the reading must not be an outlier against it.
   * A full window without spread lets every reading through.
   */
  function Admitted(window: seq<real>, temperature: real): (r: bool)
    ensures r ==> |window| == Capacity
    ensures |window| == Capacity && Variance(window) == 0.0 ==> r
  {
    |window| == Capacity && !DetectOutlier(window, temperature)
  }

  /**
   * The first half of `handle_temperature`: an unseen user gets an empty
   * window and a heater that is off, then the reading is appended to the
   * user's window, whatever it is. Every other user is left as it was.
   */
  function RecordStep(st: State, userId: UserId, temperature: real): (r: State)
    requires WellFormed(st)
    ensures WellFormed(r)
    ensures r.temperatures == st.temperatures[userId := Append(WindowOf(st, userId), temperature)]
    ensures r.heatingSystems == st.heatingSystems[userId := HeatingOf(st, userId)]
  {
    var heatingSystems := if userId in st.temperatures then st.heatingSystems else st.heatingSystems[userId := false];
    var w := Append(WindowOf(st, userId), temperature);
    assert heatingSystems == st.heatingSystems[userId := HeatingOf(st, userId)];
    UpdateWellFormed(st, userId, w, HeatingOf(st, userId));
    State(st.temperatures[userId := w], heatingSystems)
  }

  /** Setting one user's window (within Capacity) and heater keeps the state well formed. */
  lemma UpdateWellFormed(st: State, userId: UserId, w: seq<real>, on: bool)
    requires WellFormed(st) && |w| <= Capacity
    ensures WellFormed(State(st.temperatures[userId := w], st.heatingSystems[userId := on]))
  {
  }

  /**
   * `handle_temperature(user_id, temperature)`. The reading is recorded
   * first. Only when the window is then full and the reading is no outlier
   * against it does the controller run, on the mean of that window; it
   * publishes a command exactly when it flips the user's heater. Every other
   * user is left as it was.
   */
  function HandleStep(threshold: real, st: State, userId: UserId, temperature: real): (r: Outcome)
    requires WellFormed(st)
    ensures WellFormed(r.state)
    ensures var w := Append(WindowOf(st, userId), temperature);
            && r.state.temperatures == st.temperatures[userId := w]
            && r.state.heatingSystems == st.heatingSystems[userId := if Admitted(w, temperature) then Mean(w) < threshold else HeatingOf(st, userId)]
    ensures r.command.Some? <==> HeatingOf(r.state, userId) != HeatingOf(st, userId)
    ensures r.command.Some? ==> r.command.value == Command(Toggle(HeatingOf(st, userId)), userId)
  {
    var recorded := RecordStep(st, userId, temperature);
    var window := recorded.temperatures[userId];
    if |window| < Capacity then Outcome(recorded, None)
    else if DetectOutlier(window, temperature) then Outcome(recorded, None)
    else ControlStep(threshold, recorded, userId, Mean(window))
  }

  /**
   * The first reading of an unseen user: the user gets a window holding
   * just that reading and a heater that is off, and no command is sent.
   */
  lemma FirstReading(threshold: real, st: State, u: UserId, t: real)
    requires WellFormed(st) && u !in st.temperatures
    ensures var o := HandleStep(threshold, st, u, t);
            && u in o.state.temperatures && o.state.temperatures[u] == [t]
            && u in o.state.heatingSystems && !o.state.heatingSystems[u]
            && o.command == None
  {
    assert Append([], t) == [t];
  }

  /** A reading for one user leaves every other user's window and heater as they were. */
  lemma OtherUsersUnchanged(threshold: real, st: State, userId: UserId, t: real, v: UserId)
    requires WellFormed(st) && v != userId
    ensures var o := HandleStep(threshold, st, userId, t);
            && WindowOf(o.state, v) == WindowOf(st, v)
            && HeatingOf(o.state, v) == HeatingOf(st, v)
  {
    var o := HandleStep(threshold, st, userId, t);
    var w := Append(WindowOf(st, userId), t);
    var on := if Admitted(w, t) then Mean(w) < threshold else HeatingOf(st, userId);
    assert o.state.temperatures == st.temperatures[userId := w];
    assert o.state.heatingSystems == st.heatingSystems[userId := on];
  }

  /** A decoded message payload: undecodable JSON, or an object that may lack `temperature`. */
  datatype Payload = Undecodable | Decoded(temperature: Option<real>)

  /** One temperature reading for one user. */
  datatype Reading = Reading(userId: UserId, value: real)

  /**
   * The checks of `on_message`: the user id is the second `/`-separated
   * segment of the topic (a topic without one raises an IndexError), the
   * payload must decode, the first segment must be `temperature_meter`, and
   * the payload must hold `temperature` (else a KeyError). Every failure drops
   * the message.
   */
  function Dispatch(topic: string, payload: Payload): (r: Option<Reading>)
    ensures r.Some? ==> var head := "temperature_meter" + [Separator] + r.value.userId;
                        && head <= topic
                        && (|topic| == |head| || topic[|head|] == Separator)
    ensures r.Some? ==> Separator !in r.value.userId
    ensures r.Some? ==> payload == Decoded(Some(r.value.value))
  {
    var segments := Split(topic);
    if |segments| < 2 then None
    else if payload.Undecodable? then None
    else if segments[0] != "temperature_meter" then None
    else if payload.temperature.None? then None
    else
      var tail := Join(segments[1..]);
      assert topic == segments[0] + [Separator] + tail;
      assert |segments| == 2 ==> tail == segments[1];
      assert |segments| > 2 ==> tail == segments[1] + [Separator] + Join(segments[2..]);
      Some(Reading(segments[1], payload.temperature.value))
  }

  /** `on_message`: a dropped message changes nothing and publishes nothing. */
  function MessageStep(threshold: real, st: State, topic: string, payload: Payload): (r: Outcome)
    requires WellFormed(st)
    ensures WellFormed(r.state)
    ensures Dispatch(topic, payload).None? ==> r == Outcome(st, None)
  {
    match Dispatch(topic, payload)
    case None => Outcome(st, None)
    case Some(reading) => HandleStep(threshold, st, reading.userId, reading.value)
  }

  /**
   * A reading message on `temperature_meter/<u>`, possibly followed by
   * further segments, reaches the handler with user `u` and its value.
   */
  lemma DispatchTemperatureMeter(u: UserId, rest: string, t: real)
    requires Separator !in u
    requires rest == [] || rest[0] == Separator
    ensures Dispatch("temperature_meter" + [Separator] + u + rest, Decoded(Some(t))) == Some(Reading(u, t))
  {
    assert "temperature_meter" + [Separator] + u + rest == "temperature_meter" + [Separator] + (u + rest);
    SplitSegment("temperature_meter", u + rest);
    if rest == [] {
      assert u + rest == u;
      SplitWhole(u);
    } else {
      assert u + rest == u + [Separator] + rest[1..];
      SplitSegment(u, rest[1..]);
    }
  }

  /** A topic without a separator has no user id and is dropped. */
  lemma DispatchNeedsUser(topic: string, payload: Payload)
    requires Separator !in topic
    ensures Dispatch(topic, payload) == None
  {
    SplitWhole(topic);
  }

  /**
   * The unit test of `on_message`: after a reading on `temperature_meter/<u>`
   * the user is known and the reading is the newest in its window.
   */
  lemma MessageRecordsReading(threshold: real, st: State, u: UserId, t: real)
    requires WellFormed(st)
    requires Separator !in u
    ensures var w := MessageStep(threshold, st, "temperature_meter" + [Separator] + u, Decoded(Some(t))).state.temperatures;
            u in w && |w[u]| > 0 && w[u][|w[u]| - 1] == t
  {
    assert "temperature_meter" + [Separator] + u + [] == "temperature_meter" + [Separator] + u;
    DispatchTemperatureMeter(u, [], t);
  }

  // ---------------------------------------------------------------------------
  // Streams of readings

  /** The state after a stream of readings, and every command published on the way. */
  datatype Trace = Trace(state: State, commands: seq<Command>)

  /** Handling the readings one after another: at most one command per reading. */
  function Run(threshold: real, st: State, readings: seq<Reading>): (r: Trace)
    requires WellFormed(st)
    ensures WellFormed(r.state)
    ensures |r.commands| <= |readings|
    decreases |readings|
  {
    if readings == [] then Trace(st, [])
    else
      var o := HandleStep(threshold, st, readings[0].userId, readings[0].value);
      var rest := Run(threshold, o.state, readings[1..]);
      Trace(rest.state, (if o.command.Some? then [o.command.value] else []) + rest.commands)
  }

  /** The values of `u`'s readings, in arrival order. */
  function ValuesFor(u: UserId, readings: seq<Reading>): seq<real>
  {
    if readings == [] then []
    else (if readings[0].userId == u then [readings[0].value] else []) + ValuesFor(u, readings[1..])
  }

  /** The actions sent to `u`'s control topic, in order. */
  function ActionsFor(u: UserId, commands: seq<Command>): seq<Action>
  {
    if commands == [] then []
    else (if commands[0].userId == u then [commands[0].action] else []) + ActionsFor(u, commands[1..])
  }

  /**
   * Every reading is appended, outliers included: a user's window is always
   * the newest Capacity of all the readings it ever received.
   */
  lemma {:induction false} RunWindow(threshold: real, st: State, readings: seq<Reading>, u: UserId)
    requires WellFormed(st)
    ensures WindowOf(Run(threshold, st, readings).state, u) == Last(WindowOf(st, u) + ValuesFor(u, readings), Capacity)
    decreases |readings|
  {
    var w := WindowOf(st, u);
    if readings == [] {
      LastShort(w, Capacity);
      assert w + [] == w;
    } else {
      var x := readings[0];
      var o := HandleStep(threshold, st, x.userId, x.value);
      var now, later := (if x.userId == u then [x.value] else []), ValuesFor(u, readings[1..]);
      assert WindowOf(Run(threshold, st, readings).state, u) == WindowOf(Run(threshold, o.state, readings[1..]).state, u) by {
        RunFirst(threshold, st, readings);
      }
      RunWindow(threshold, o.state, readings[1..], u);
      StepWindow(threshold, st, x, u);
      LastOfLastConcat(w, now, later, Capacity);
      assert ValuesFor(u, readings) == now + later;
    }
  }

  /** One reading adds its value to its own user's window only. */
  lemma StepWindow(threshold: real, st: State, x: Reading, u: UserId)
    requires WellFormed(st)
    ensures WindowOf(HandleStep(threshold, st, x.userId, x.value).state, u)
            == Last(WindowOf(st, u) + (if x.userId == u then [x.value] else []), Capacity)
  {
    var r := HandleStep(threshold, st, x.userId, x.value).state;
    WindowBound(st, x.userId);
    WindowBound(st, u);
    AppendedWindow(st, r, x.userId, x.value, u);
  }

  /** In a well-formed state no window outgrows Capacity. */
  lemma WindowBound(st: State, u: UserId)
    requires WellFormed(st)
    ensures |WindowOf(st, u)| <= Capacity
  {
  }

  /** The window of `u` once `t` has been appended to the window of `userId`. */
  lemma AppendedWindow(st: State, r: State, userId: UserId, t: real, u: UserId)
    requires |WindowOf(st, userId)| <= Capacity && |WindowOf(st, u)| <= Capacity
    requires r.temperatures == st.temperatures[userId := Append(WindowOf(st, userId), t)]
    ensures WindowOf(r, u) == Last(WindowOf(st, u) + (if userId == u then [t] else []), Capacity)
  {
    var w := WindowOf(st, u);
    if userId == u {
      assert WindowOf(r, u) == Append(w, t);
      AppendIsLast(w, t);
    } else {
      assert WindowOf(r, u) == w;
      LastShort(w + [], Capacity);
    }
  }


  /** The commands of one reading, as a (possibly empty) sequence. */
  function Emitted(o: Outcome): seq<Command>
  {
    if o.command.Some? then [o.command.value] else []
  }

  lemma RunFirst(threshold: real, st: State, readings: seq<Reading>)
    requires WellFormed(st) && readings != []
    ensures var o := HandleStep(threshold, st, readings[0].userId, readings[0].value);
            Run(threshold, st, readings) == Trace(Run(threshold, o.state, readings[1..]).state, Emitted(o) + Run(threshold, o.state, readings[1..]).commands)
  {
  }

  /** A stream seen by one user: the first reading's commands, then the rest's. */
  lemma RunFirstFor(threshold: real, st: State, readings: seq<Reading>, u: UserId)
    requires WellFormed(st) && readings != []
    ensures var o := HandleStep(threshold, st, readings[0].userId, readings[0].value);
            var rest := Run(threshold, o.state, readings[1..]);
            && ActionsFor(u, Run(threshold, st, readings).commands) == ActionsFor(u, Emitted(o)) + ActionsFor(u, rest.commands)
            && HeatingOf(Run(threshold, st, readings).state, u) == HeatingOf(rest.state, u)
  {
    var o := HandleStep(threshold, st, readings[0].userId, readings[0].value);
    RunFirst(threshold, st, readings);
    ActionsForAppend(u, Emitted(o), Run(threshold, o.state, readings[1..]).commands);
  }

  /** What one reading sends to `u`: the toggle of `u`'s heater when it flips, nothing otherwise. */
  lemma StepActions(threshold: real, st: State, x: Reading, u: UserId)
    requires WellFormed(st)
    ensures var o := HandleStep(threshold, st, x.userId, x.value);
            ActionsFor(u, Emitted(o)) == if HeatingOf(o.state, u) != HeatingOf(st, u) then [Toggle(HeatingOf(st, u))] else []
  {
    var o := HandleStep(threshold, st, x.userId, x.value);
    if o.command.Some? {
      assert Emitted(o)[1..] == [];
    }
  }

  /**
   * Edge triggering: the commands a user receives alternate, starting from
   * the user's heater state before the stream.
   */
  lemma {:induction false} RunAlternates(threshold: real, st: State, readings: seq<Reading>, u: UserId)
    requires WellFormed(st)
    ensures Alternating(ActionsFor(u, Run(threshold, st, readings).commands), HeatingOf(st, u))
    decreases |readings|
  {
    if readings != [] {
      var x := readings[0];
      var o := HandleStep(threshold, st, x.userId, x.value);
      var rest := Run(threshold, o.state, readings[1..]);
      var now, later := ActionsFor(u, Emitted(o)), ActionsFor(u, rest.commands);
      assert ActionsFor(u, Run(threshold, st, readings).commands) == now + later by {
        RunFirst(threshold, st, readings);
        ActionsForAppend(u, Emitted(o), rest.commands);
      }
      assert Alternating(later, HeatingOf(o.state, u)) by {
        RunAlternates(threshold, o.state, readings[1..], u);
      }
      assert now == if HeatingOf(o.state, u) != HeatingOf(st, u) then [Toggle(HeatingOf(st, u))] else [] by {
        StepActions(threshold, st, x, u);
      }
      AlternatingPrepend(now, later, HeatingOf(st, u), HeatingOf(o.state, u));
    }
  }

  lemma AlternatingPrepend(first: seq<Action>, later: seq<Action>, on: bool, on': bool)
    requires first == if on' != on then [Toggle(on)] else []
    requires Alternating(later, on')
    ensures Alternating(first + later, on)
  {
    if on' != on {
      assert (first + later)[1..] == later;
    } else {
      assert first + later == later;
    }
  }

  lemma {:induction false} ActionsForAppend(u: UserId, a: seq<Command>, b: seq<Command>)
    ensures ActionsFor(u, a + b) == ActionsFor(u, a) + ActionsFor(u, b)
  {
    if a != [] {
      assert (a + b)[1..] == a[1..] + b;
      ActionsForAppend(u, a[1..], b);
    } else {
      assert a + b == b;
    }
  }

  /**
   * From a fresh component, each user's commands strictly alternate and the
   * first of them is turn_on.
   */
  lemma FromInitialFirstTurnsOn(threshold: real, readings: seq<Reading>, u: UserId)
    ensures var acts := ActionsFor(u, Run(threshold, Initial, readings).commands);
            && (|acts| > 0 ==> acts[0] == TurnOn)
            && forall i :: 0 <= i < |acts| - 1 ==> acts[i] != acts[i + 1]
  {
    RunAlternates(threshold, Initial, readings, u);
    AlternatingNoRepeat(ActionsFor(u, Run(threshold, Initial, readings).commands), false);
  }

  /**
   * Warm-up: while a user's window has not filled, the user receives no
   * command and its heater keeps its state.
   */
  lemma {:induction false} RunWarmUp(threshold: real, st: State, readings: seq<Reading>, u: UserId)
    requires WellFormed(st)
    requires |WindowOf(st, u)| + |ValuesFor(u, readings)| < Capacity
    ensures ActionsFor(u, Run(threshold, st, readings).commands) == []
    ensures HeatingOf(Run(threshold, st, readings).state, u) == HeatingOf(st, u)
    decreases |readings|
  {
    if readings != [] {
      var x := readings[0];
      var o := HandleStep(threshold, st, x.userId, x.value);
      var rest := Run(threshold, o.state, readings[1..]);
      RunFirst(threshold, st, readings);
      if x.userId == u {
        assert ValuesFor(u, readings) == [x.value] + ValuesFor(u, readings[1..]);
      } else {
        assert ValuesFor(u, readings) == ValuesFor(u, readings[1..]);
      }
      RunWarmUp(threshold, o.state, readings[1..], u);
      StepActions(threshold, st, x, u);
      ActionsForAppend(u, Emitted(o), rest.commands);
    }
  }

  /**
   * The unit test of `handle_temperature`, for any stream: from a fresh
   * component, a user's window holds as many readings as it received, up to
   * Capacity, and the newest of them last.
   */
  lemma FromInitialWindow(threshold: real, readings: seq<Reading>, u: UserId)
    ensures var w, vs := WindowOf(Run(threshold, Initial, readings).state, u), ValuesFor(u, readings);
            && |w| == Min(|vs|, Capacity)
            && (|vs| > 0 ==> w[|w| - 1] == vs[|vs| - 1])
  {
    RunWindow(threshold, Initial, readings, u);
    assert WindowOf(Initial, u) + ValuesFor(u, readings) == ValuesFor(u, readings);
  }

  /** `n` copies of `x`. */
  function Repeat<T>(x: T, n: nat): (r: seq<T>)
    ensures |r| == n
    ensures forall i :: 0 <= i < n ==> r[i] == x
  {
    if n == 0 then [] else [x] + Repeat(x, n - 1)
  }

  /**
   * Capacity equal readings `t` from a fresh component: no command during
   * the warm-up, then, on the reading that fills the window (whose spread
   * is zero, so it is no outlier), turn_on exactly when `t` is below the
   * threshold.
   */
  lemma ConstantStreamTurnsOn(threshold: real, u: UserId, t: real)
    ensures ActionsFor(u, Run(threshold, Initial, Repeat(Reading(u, t), Capacity - 1)).commands) == []
    ensures var r := Run(threshold, Initial, Repeat(Reading(u, t), Capacity));
            && ActionsFor(u, r.commands) == (if t < threshold then [TurnOn] else [])
            && HeatingOf(r.state, u) == (t < threshold)
  {
    ValuesForRepeat(u, t, Capacity - 1);
    RunWarmUp(threshold, Initial, Repeat(Reading(u, t), Capacity - 1), u);
    ConstantFill(threshold, Initial, u, t, Capacity);
  }

  /** `n` readings `t` for `u` are `n` values of `u`. */
  lemma {:induction false} ValuesForRepeat(u: UserId, t: real, n: nat)
    ensures ValuesFor(u, Repeat(Reading(u, t), n)) == Repeat(t, n)
  {
    if n > 0 {
      var readings := Repeat(Reading(u, t), n);
      assert readings[1..] == Repeat(Reading(u, t), n - 1);
      ValuesForRepeat(u, t, n - 1);
    }
  }

  /** The last `n` readings `t` that fill a window already holding Capacity - n readings `t`. */
  lemma {:induction false} ConstantFill(threshold: real, st: State, u: UserId, t: real, n: nat)
    requires WellFormed(st)
    requires 1 <= n <= Capacity
    requires WindowOf(st, u) == Repeat(t, Capacity - n) && !HeatingOf(st, u)
    ensures var r := Run(threshold, st, Repeat(Reading(u, t), n));
            && ActionsFor(u, r.commands) == (if t < threshold then [TurnOn] else [])
            && HeatingOf(r.state, u) == (t < threshold)
    decreases n, 1
  {
    var readings := Repeat(Reading(u, t), n);
    var o := HandleStep(threshold, st, u, t);
    var rest := Run(threshold, o.state, readings[1..]);
    RunFirstFor(threshold, st, readings, u);
    ConstantStep(threshold, st, u, t, n);
    if n == 1 {
      assert readings[1..] == [];
    } else {
      ConstantFillTail(threshold, o.state, u, t, n);
    }
  }

  /** The readings after the first of `n` (n >= 2), from the state that first one left. */
  lemma {:induction false} ConstantFillTail(threshold: real, st: State, u: UserId, t: real, n: nat)
    requires WellFormed(st)
    requires 2 <= n <= Capacity
    requires WindowOf(st, u) == Repeat(t, Capacity - (n - 1)) && !HeatingOf(st, u)
    ensures var r := Run(threshold, st, Repeat(Reading(u, t), n)[1..]);
            && ActionsFor(u, r.commands) == (if t < threshold then [TurnOn] else [])
            && HeatingOf(r.state, u) == (t < threshold)
    decreases n, 0
  {
    var tail := Repeat(Reading(u, t), n - 1);
    assert Repeat(Reading(u, t), n)[1..] == tail;
    ConstantFill(threshold, st, u, t, n - 1);
  }

  /**
   * One reading `t` on a window of Capacity - n readings `t`: the window
   * grows by one, and the heater is set to `t < threshold` only when that
   * fills it (n == 1), which is also the only time a command is sent.
   */
  lemma ConstantStep(threshold: real, st: State, u: UserId, t: real, n: nat)
    requires WellFormed(st)
    requires 1 <= n <= Capacity && WindowOf(st, u) == Repeat(t, Capacity - n)
    ensures var o := HandleStep(threshold, st, u, t);
            && WindowOf(o.state, u) == Repeat(t, Capacity - (n - 1))
            && HeatingOf(o.state, u) == (if n == 1 then t < threshold else HeatingOf(st, u))
            && ActionsFor(u, Emitted(o)) == if HeatingOf(o.state, u) != HeatingOf(st, u) then [Toggle(HeatingOf(st, u))] else []
  {
    StepActions(threshold, st, Reading(u, t), u);
    var w := Append(Repeat(t, Capacity - n), t);
    assert w == Repeat(t, Capacity - (n - 1));
    if n == 1 {
      ZeroSpreadNeverOutlier(w, t);
      ConstantMean(w, t);
    }
  }


  // ---------------------------------------------------------------------------
  // The component itself, updating its dictionaries in place

  class DecisionMakingComponent {
    const threshold: real
    var temperatures: map<UserId, seq<real>>
    var heatingSystems: map<UserId, bool>

    function Current(): State
      reads this
    {
      State(temperatures, heatingSystems)
    }

    ghost predicate Valid()
      reads this
    {
      WellFormed(Current())
    }

    /** `__init__`, without the broker connection. */
    constructor (threshold: real)
      ensures Valid()
      ensures this.threshold == threshold && Current() == Initial
    {
      this.threshold := threshold;
      temperatures := map[];
      heatingSystems := map[];
    }

    method ControlHeatingSystem(userId: UserId, avg: real) returns (command: Option<Command>)
      modifies this
      ensures Outcome(Current(), command) == ControlStep(threshold, old(Current()), userId, avg)
      ensures old(Valid()) ==> Valid()
    {
      command := None;
      if userId !in heatingSystems {
        return;
      }
      if avg < threshold && !heatingSystems[userId] {
        command := Some(Command(TurnOn, userId));
        heatingSystems := heatingSystems[userId := true];
      } else if avg >= threshold && heatingSystems[userId] {
        command := Some(Command(TurnOff, userId));
        heatingSystems := heatingSystems[userId := false];
      }
    }

    method HandleTemperature(userId: UserId, temperature: real) returns (command: Option<Command>)
      requires Valid()
      modifies this
      ensures Valid()
      ensures Outcome(Current(), command) == HandleStep(threshold, old(Current()), userId, temperature)
    {
      ghost var st := Current();
      if userId !in temperatures {
        temperatures := temperatures[userId := []];
        heatingSystems := heatingSystems[userId := false];
      }
      temperatures := temperatures[userId := Append(temperatures[userId], temperature)];
      assert Current() == RecordStep(st, userId, temperature);
      command := None;
      if |temperatures[userId]| < Capacity {
        return;
      }
      var isOutlier := DetectOutlier(temperatures[userId], temperature);
      if isOutlier {
        return;
      }
      var avg := Mean(temperatures[userId]);
      command := ControlHeatingSystem(userId, avg);
    }

    method OnMessage(topic: string, payload: Payload) returns (command: Option<Command>)
      requires Valid()
      modifies this
      ensures Valid()
      ensures Outcome(Current(), command) == MessageStep(threshold, old(Current()), topic, payload)
    {
      command := None;
      var reading := Dispatch(topic, payload);
      if reading.Some? {
        command := HandleTemperature(reading.value.userId, reading.value.value);
      }
    }
  }
}
