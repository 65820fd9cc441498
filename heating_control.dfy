/**
 * `control_heating_system`: a two-state (off/on) hysteresis controller per
 * user that emits a command only when its state changes.
 */
module HeatingControl {
  import opened Wrappers

  datatype Action = TurnOn | TurnOff

  /** A command for one user's heating system: payload {"action": ...}, published on Topic(). */
  datatype Command = Command(action: Action, userId: string)
  {
    function Topic(): string
    {
      ControlTopic(userId)
    }
  }

  const ControlPrefix: string := "heating_system/"
  const ControlSuffix: string := "/control"

  /**
   * The topic a user's heating system listens on, heating_system/<user_id>/control:
   * the user id sits whole between the fixed prefix and suffix.
   */
  function ControlTopic(userId: string): (r: string)
    ensures |r| == |ControlPrefix| + |userId| + |ControlSuffix|
    ensures r[..|ControlPrefix|] == ControlPrefix
    ensures r[|ControlPrefix|..|r| - |ControlSuffix|] == userId
    ensures r[|r| - |ControlSuffix|..] == ControlSuffix
  {
    ControlPrefix + userId + ControlSuffix
  }

  /** Different users never share a control topic. */
  lemma ControlTopicInjective(u: string, v: string)
    requires ControlTopic(u) == ControlTopic(v)
    ensures u == v
  {
    var t := ControlTopic(u);
    assert u == t[|ControlPrefix|..|t| - |ControlSuffix|] == v;
  }

  /** The command that leaves state `on`. */
  function Toggle(on: bool): Action
  {
    if on then TurnOff else TurnOn
  }

  /** The heater state after a decision, and the command it emits, if any. */
  datatype Decision = Decision(on: bool, action: Option<Action>)

  /**
   * One controller step for a user whose heater is `on`, given the average
   * of the window. Turns on below the threshold, off at or above it, and
   * stays silent when the heater is already where it should be.
   */
  function Decide(on: bool, avg: real, threshold: real): (d: Decision)
    ensures d.on <==> avg < threshold
    ensures d.action.Some? <==> d.on != on
    ensures d.action.Some? ==> d.action.value == Toggle(on)
  {
    if avg < threshold && !on then Decision(true, Some(TurnOn))
    else if avg >= threshold && on then Decision(false, Some(TurnOff))
    else Decision(on, None)
  }

  /** Deciding again on the same average never emits a second command. */
  lemma DecideSettles(on: bool, avg: real, threshold: real)
    ensures Decide(Decide(on, avg, threshold).on, avg, threshold).action == None
  {
  }

  /** Each command in `acts` toggles the heater, starting from state `on`. */
  predicate Alternating(acts: seq<Action>, on: bool)
  {
    acts == [] || (acts[0] == Toggle(on) && Alternating(acts[1..], !on))
  }

  /**
   * Commands that alternate never repeat back to back; from the initial
   * state (off) the first is turn_on, and the i-th is turn_on exactly when
   * i is even.
   */
  lemma {:induction false} AlternatingNoRepeat(acts: seq<Action>, on: bool)
    requires Alternating(acts, on)
    ensures forall i :: 0 <= i < |acts| ==> acts[i] == Toggle(if i % 2 == 0 then on else !on)
    ensures forall i :: 0 <= i < |acts| - 1 ==> acts[i] != acts[i + 1]
  {
    if acts != [] {
      AlternatingNoRepeat(acts[1..], !on);
      forall i | 1 <= i < |acts|
        ensures acts[i] == Toggle(if i % 2 == 0 then on else !on)
      {
        assert acts[i] == acts[1..][i - 1];
      }
    }
  }
}
