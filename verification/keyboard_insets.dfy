/** Model of the shared C keyboard-state core (keyboard_insets.c).

    The core keeps six module-level variables: the two callback slots, the
    last reported inset, its target, the largest target ever seen and the
    animation flag. The platform layers feed it (current, target) pairs
    through platform_update_inset; the host reads it through three getters
    and is told about changes through the two callbacks.

    The C floats are only stored and compared, never computed with, so they
    are modelled as `real`. A callback invocation is an observable effect:
    every call returns the effects it caused, in the order they happen. */
module KeyboardInsets {
  import opened Wrappers

  /** Identity of a registered C function pointer; the null pointer is `None`. */
  type CallbackId = nat

  /** What a call into the core does outside its own state. */
  datatype Effect =
    | InsetCallback(callback: CallbackId, inset: real)
    | StateCallback(callback: CallbackId, isVisible: bool, isAnimating: bool)
    | PlatformSetAnimation(isEnabled: bool)

  /** The module-level state of the core, as a value. */
  datatype State = State(
    insetCallback: Option<CallbackId>,
    stateCallback: Option<CallbackId>,
    currentInset: real,
    currentTarget: real,
    maxInset: real,
    animationEnabled: bool)

  /** The static initialisers: no callbacks, every inset -1, animation on. */
  const Initial := State(None, None, -1.0, -1.0, -1.0, true)

  /** What is_keyboard_visible reports: the target decides while animation is
      handled by the core, the inset itself once it is switched off. */
  predicate Visible(s: State)
  {
    if s.animationEnabled then s.currentTarget > 0.0 else s.currentInset > 0.0
  }

  /** What is_keyboard_animating reports: the inset has not reached its target. */
  predicate Animating(s: State)
  {
    s.currentInset != s.currentTarget
  }

  /** Every entry point of the core that changes its state. */
  datatype Call =
    | RegisterInsetCallback(insetCallback: Option<CallbackId>)
    | RegisterStateCallback(stateCallback: Option<CallbackId>)
    | UnregisterInsetCallback
    | UnregisterStateCallback
    | SetKeyboardAnimation(isEnabled: bool)
    | PlatformUpdateInset(current: real, target: real)

  /** The state after a call and the effects the call produced. */
  datatype Transition = Transition(state: State, effects: seq<Effect>)

  /** platform_update_inset: a report whose `current` equals the stored inset
      is dropped whole (its target too); any other report is stored, raises
      the running maximum, is forwarded to the inset callback when one is
      registered and animation is on, and is followed by a state
      notification computed from the new state when a state callback is
      registered. */
  function UpdateInset(s: State, current: real, target: real): (r: Transition)
    ensures current == s.currentInset ==> r == Transition(s, [])
    ensures current != s.currentInset ==>
      && r.state.currentInset == current
      && r.state.currentTarget == target
      && r.state.maxInset >= s.maxInset
      && r.state.maxInset >= target
      && (r.state.maxInset == s.maxInset || r.state.maxInset == target)
      && r.state.insetCallback == s.insetCallback
      && r.state.stateCallback == s.stateCallback
      && r.state.animationEnabled == s.animationEnabled
    // the inset callback fires, with `current`, exactly when the report is
    // accepted, a callback is registered and animation is on
    ensures forall cb: CallbackId, x: real {:trigger InsetCallback(cb, x)} ::
      InsetCallback(cb, x) in r.effects <==>
        current != s.currentInset && s.insetCallback == Some(cb) && s.animationEnabled && x == current
    // the state callback fires on every accepted report, whatever the
    // animation flag, and it fires last, with the flags of the new state
    ensures current != s.currentInset && s.stateCallback.Some? ==>
      |r.effects| > 0 &&
      r.effects[|r.effects| - 1] ==
        StateCallback(s.stateCallback.value, Visible(r.state), Animating(r.state))
    // at most those two effects, each at most once
    ensures |r.effects| ==
      (if current != s.currentInset && s.insetCallback.Some? && s.animationEnabled then 1 else 0) +
      (if current != s.currentInset && s.stateCallback.Some? then 1 else 0)
    ensures forall e :: e in r.effects ==> !e.PlatformSetAnimation?
  {
    if current == s.currentInset then Transition(s, [])
    else
      var next := s.(currentInset := current, currentTarget := target,
                     maxInset := if s.maxInset < target then target else s.maxInset);
      var inset := if s.insetCallback.Some? && s.animationEnabled
                   then [InsetCallback(s.insetCallback.value, current)] else [];
      var state := if s.stateCallback.Some?
                   then [StateCallback(s.stateCallback.value, Visible(next), Animating(next))] else [];
      Transition(next, inset + state)
  }

  /** One call into the core. Only platform_update_inset touches the insets;
      only set_keyboard_animation touches the flag and talks to the platform;
      register and unregister touch their own slot and nothing else;
      registering a null pointer stores it, which empties the slot. */
  function Step(s: State, call: Call): (r: Transition)
    ensures r.state.maxInset >= s.maxInset
    ensures !call.PlatformUpdateInset? ==>
      && r.state.currentInset == s.currentInset
      && r.state.currentTarget == s.currentTarget
      && r.state.maxInset == s.maxInset
    ensures !call.SetKeyboardAnimation? ==> r.state.animationEnabled == s.animationEnabled
    ensures call.SetKeyboardAnimation? ==>
      r.state == s.(animationEnabled := call.isEnabled) && r.effects == [PlatformSetAnimation(call.isEnabled)]
    ensures call.RegisterInsetCallback? || call.UnregisterInsetCallback? ==>
      r.state.stateCallback == s.stateCallback && r.effects == [] &&
      r.state.insetCallback == (if call.RegisterInsetCallback? then call.insetCallback else None)
    ensures call.RegisterStateCallback? || call.UnregisterStateCallback? ==>
      r.state.insetCallback == s.insetCallback && r.effects == [] &&
      r.state.stateCallback == (if call.RegisterStateCallback? then call.stateCallback else None)
  {
    match call
    case RegisterInsetCallback(cb) => Transition(s.(insetCallback := cb), [])
    case RegisterStateCallback(cb) => Transition(s.(stateCallback := cb), [])
    case UnregisterInsetCallback => Transition(s.(insetCallback := None), [])
    case UnregisterStateCallback => Transition(s.(stateCallback := None), [])
    case SetKeyboardAnimation(enabled) =>
      Transition(s.(animationEnabled := enabled), [PlatformSetAnimation(enabled)])
    case PlatformUpdateInset(current, target) => UpdateInset(s, current, target)
  }

  /** The state after a sequence of calls. */
  function Replay(s: State, calls: seq<Call>): (r: State)
    ensures r.maxInset >= s.maxInset
    decreases |calls|
  {
    if calls == [] then s else Replay(Step(s, calls[0]).state, calls[1..])
  }

  /** Reference definition of which reports the core accepts: follow only the
      stored inset (starting from `last`) and keep each (current, target)
      report whose current differs from it. */
  function Accepted(last: real, calls: seq<Call>): (accepted: seq<(real, real)>)
    decreases |calls|
  {
    if calls == [] then []
    else match calls[0]
      case PlatformUpdateInset(current, target) =>
        if current == last then Accepted(last, calls[1..])
        else [(current, target)] + Accepted(current, calls[1..])
      case _ => Accepted(last, calls[1..])
  }

  /** The largest of `m` and the targets of `reports`. */
  function MaxTarget(m: real, reports: seq<(real, real)>): (max: real)
    decreases |reports|
  {
    if reports == [] then m
    else MaxTarget(if m < reports[0].1 then reports[0].1 else m, reports[1..])
  }

  /** MaxTarget is the maximum: an upper bound of `m` and of every target,
      and one of them. */
  lemma {:induction false} MaxTargetIsMaximum(m: real, reports: seq<(real, real)>)
    ensures MaxTarget(m, reports) >= m
    ensures forall i :: 0 <= i < |reports| ==> MaxTarget(m, reports) >= reports[i].1
    ensures MaxTarget(m, reports) == m ||
            exists i :: 0 <= i < |reports| && MaxTarget(m, reports) == reports[i].1
    decreases |reports|
  {
    if reports != [] {
      var m' := if m < reports[0].1 then reports[0].1 else m;
      MaxTargetIsMaximum(m', reports[1..]);
      var rest := reports[1..];
      assert forall i :: 1 <= i < |reports| ==> reports[i] == rest[i - 1];
      if MaxTarget(m', rest) != m' {
        var j :| 0 <= j < |rest| && MaxTarget(m', rest) == rest[j].1;
        assert MaxTarget(m, reports) == reports[j + 1].1;
      }
    }
  }

  /** get_keyboard_height after any sequence of calls is the running maximum
      of the starting height and the targets of all accepted reports. */
  lemma {:induction false} HeightIsMaxOfAcceptedTargets(s: State, calls: seq<Call>)
    ensures Replay(s, calls).maxInset == MaxTarget(s.maxInset, Accepted(s.currentInset, calls))
    decreases |calls|
  {
    if calls != [] {
      HeightIsMaxOfAcceptedTargets(Step(s, calls[0]).state, calls[1..]);
    }
  }

  /** From the initial state the height is -1 until a report is accepted and
      afterwards the largest accepted target (or -1 if all were below it). */
  lemma HeightFromStart(calls: seq<Call>)
    ensures var h := Replay(Initial, calls).maxInset;
      var acc := Accepted(-1.0, calls);
      && h >= -1.0
      && (forall i :: 0 <= i < |acc| ==> h >= acc[i].1)
      && (h == -1.0 || exists i :: 0 <= i < |acc| && h == acc[i].1)
  {
    HeightIsMaxOfAcceptedTargets(Initial, calls);
    MaxTargetIsMaximum(-1.0, Accepted(-1.0, calls));
  }

  /** The stored (inset, target) pair is the last accepted report, or the
      starting pair when no report was accepted. */
  lemma {:induction false} PairIsLastAccepted(s: State, calls: seq<Call>)
    ensures var r := Replay(s, calls);
      var acc := Accepted(s.currentInset, calls);
      && (acc == [] ==> r.currentInset == s.currentInset && r.currentTarget == s.currentTarget)
      && (acc != [] ==> (r.currentInset, r.currentTarget) == acc[|acc| - 1])
    decreases |calls|
  {
    if calls != [] {
      PairIsLastAccepted(Step(s, calls[0]).state, calls[1..]);
    }
  }

  /** Two consecutive accepted reports always carry different insets, and the
      first differs from the inset stored before: the core only ever reacts
      to a change of `current`. */
  lemma {:induction false} AcceptedInsetsChange(last: real, calls: seq<Call>)
    ensures var acc := Accepted(last, calls);
      && (acc != [] ==> acc[0].0 != last)
      && (forall i :: 0 < i < |acc| ==> acc[i - 1].0 != acc[i].0)
    decreases |calls|
  {
    if calls != [] {
      match calls[0]
      case PlatformUpdateInset(current, target) =>
        if current == last {
          AcceptedInsetsChange(last, calls[1..]);
        } else {
          AcceptedInsetsChange(current, calls[1..]);
          var rest := Accepted(current, calls[1..]);
          assert Accepted(last, calls) == [(current, target)] + rest;
        }
      case _ =>
        AcceptedInsetsChange(last, calls[1..]);
    }
  }

  /** A report that changes only the target is lost: after (c, t1) is
      accepted, (c, t2) leaves the target at t1 and notifies nobody. */
  lemma LostTargetChange(s: State, c: real, t1: real, t2: real)
    requires c != s.currentInset
    ensures var s1 := UpdateInset(s, c, t1).state;
      && UpdateInset(s1, c, t2) == Transition(s1, [])
      && s1.currentTarget == t1
  {
  }

  /** Registering a null pointer is the same call as unregistering. */
  lemma RegisterNullIsUnregister(s: State)
    ensures Step(s, RegisterInsetCallback(None)) == Step(s, UnregisterInsetCallback)
    ensures Step(s, RegisterStateCallback(None)) == Step(s, UnregisterStateCallback)
  {
  }

  /** At rest (inset equal to target) both readings of is_keyboard_visible
      agree, so the animation flag only matters in the middle of a transition. */
  lemma VisibleAgreesAtRest(s: State)
    requires !Animating(s)
    ensures Visible(s) == Visible(s.(animationEnabled := !s.animationEnabled))
  {
  }

  /** The core's module-level variables, updated in place. */
  class KeyboardInsetCore {
    var insetCallback: Option<CallbackId>
    var stateCallback: Option<CallbackId>
    var currentInset: real
    var currentTarget: real
    var maxInset: real
    var isKeyboardAnimationEnabled: bool

    /** The abstract value of the variables. */
    function Snapshot(): State
      reads this
    {
      State(insetCallback, stateCallback, currentInset, currentTarget, maxInset,
            isKeyboardAnimationEnabled)
    }

    /** The static initialisers: the keyboard is neither visible nor
        animating and its height reads -1. */
    constructor ()
      ensures Snapshot() == Initial
      ensures KeyboardHeight() == -1.0 && !IsKeyboardVisible() && !IsKeyboardAnimating()
    {
      insetCallback := None;
      stateCallback := None;
      currentInset := -1.0;
      currentTarget := -1.0;
      maxInset := -1.0;
      isKeyboardAnimationEnabled := true;
    }

    /** get_keyboard_height: the running maximum of accepted targets
        (see HeightIsMaxOfAcceptedTargets). */
    function KeyboardHeight(): (h: real)
      reads this
      ensures h == Snapshot().maxInset
    {
      maxInset
    }

    /** is_keyboard_visible. */
    function IsKeyboardVisible(): (visible: bool)
      reads this
      ensures visible <==>
        (if isKeyboardAnimationEnabled then currentTarget > 0.0 else currentInset > 0.0)
    {
      Visible(Snapshot())
    }

    /** is_keyboard_animating. */
    function IsKeyboardAnimating(): (animating: bool)
      reads this
      ensures animating <==> currentInset != currentTarget
    {
      Animating(Snapshot())
    }

    /** register_inset_callback: stores the pointer as given (a null pointer
        empties the slot), nothing else changes. */
    method RegisterInsetCallback(callback: Option<CallbackId>)
      modifies this
      ensures Snapshot() == old(Snapshot()).(insetCallback := callback)
      ensures Transition(Snapshot(), []) == Step(old(Snapshot()), Call.RegisterInsetCallback(callback))
    {
      insetCallback := callback;
    }

    /** register_state_callback: stores the pointer as given (a null pointer
        empties the slot), nothing else changes. */
    method RegisterStateCallback(callback: Option<CallbackId>)
      modifies this
      ensures Snapshot() == old(Snapshot()).(stateCallback := callback)
      ensures Transition(Snapshot(), []) == Step(old(Snapshot()), Call.RegisterStateCallback(callback))
    {
      stateCallback := callback;
    }

    /** unregister_inset_callback: clears the inset slot, nothing else changes. */
    method UnregisterInsetCallback()
      modifies this
      ensures Snapshot() == old(Snapshot()).(insetCallback := None)
      ensures Transition(Snapshot(), []) == Step(old(Snapshot()), Call.UnregisterInsetCallback)
    {
      insetCallback := None;
    }

    /** unregister_state_callback: clears the state slot, nothing else changes. */
    method UnregisterStateCallback()
      modifies this
      ensures Snapshot() == old(Snapshot()).(stateCallback := None)
      ensures Transition(Snapshot(), []) == Step(old(Snapshot()), Call.UnregisterStateCallback)
    {
      stateCallback := None;
    }

    /** set_keyboard_animation: stores the flag and forwards it, once, to the
        platform layer. */
    method SetKeyboardAnimation(isEnabled: bool) returns (effects: seq<Effect>)
      modifies this
      ensures Snapshot() == old(Snapshot()).(animationEnabled := isEnabled)
      ensures effects == [PlatformSetAnimation(isEnabled)]
      ensures Transition(Snapshot(), effects) == Step(old(Snapshot()), Call.SetKeyboardAnimation(isEnabled))
    {
      isKeyboardAnimationEnabled := isEnabled;
      effects := [PlatformSetAnimation(isEnabled)];
    }

    /** platform_update_inset, called by the platform layers on every sample. */
    method PlatformUpdateInset(current: real, target: real) returns (effects: seq<Effect>)
      modifies this
      ensures current == old(currentInset) ==> unchanged(this) && effects == []
      ensures current != old(currentInset) ==>
        currentInset == current && currentTarget == target &&
        maxInset >= old(maxInset) && maxInset >= target
      ensures Transition(Snapshot(), effects) == UpdateInset(old(Snapshot()), current, target)
      ensures Transition(Snapshot(), effects) == Step(old(Snapshot()), Call.PlatformUpdateInset(current, target))
    {
      effects := [];
      if current == currentInset {
        return;
      }

      currentInset := current;
      currentTarget := target;
      if maxInset < target {
        maxInset := target;
      }

      if insetCallback.Some? && isKeyboardAnimationEnabled {
        effects := effects + [InsetCallback(insetCallback.value, current)];
      }

      if stateCallback.Some? {
        effects := effects + [StateCallback(stateCallback.value, IsKeyboardVisible(), IsKeyboardAnimating())];
      }
    }
  }
}
