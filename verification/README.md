# keyboard_insets — a Dafny model of the keyboard-state core and the safe-area de-duplicator

The keyboard_insets plugin reports two things from the native UI to a
Flutter app: the keyboard's height as it shows and hides, and the bottom
safe-area inset. This is the gesture bar or navigation bar. The project
models the two pieces of the plugin that hold state and make decisions.

- **The shared C keyboard-state core** (`keyboard_insets.c`, used by both
  Android and iOS) is modelled in `keyboard_insets.dfy`, module
  `KeyboardInsets`.
  - The platform layers report `(current, target)` samples through
    `platform_update_inset`.
  - The core drops a sample whose `current` equals the stored inset.
    Otherwise it stores the pair and raises a running maximum, which is
    what `get_keyboard_height` returns.
  - It then calls the inset callback, but only when animation is enabled.
    After that it calls the state callback with the "visible" and
    "animating" flags.
  - The module-level variables are fields of the class
    `KeyboardInsetCore`. Each entry point is a method that returns the
    callback invocations it made, in order, as a sequence of `Effect`s.
  - The getters are functions on the class.
  - Each method is tied to a pure specification: `Step` over a `State`
    value, with `UpdateInset` for `platform_update_inset`.
  - The lemmas about whole call sequences are stated over `Replay`. They
    cover the running maximum, the last stored pair, and the fact that
    only changes of `current` are accepted.
- **The Android safe-area monitor** (`SafeAreaMonitor.kt`) is modelled in
  `safe_area_monitor.dfy`, module `SafeArea`.
  - The `SafeAreaMonitor` class has the object's fields `activity`,
    `rootView` and `lastInsetPx`, plus the set of views that carry its
    insets listener.
  - The inputs are abstracted as parameters: the SDK level, the two
    bottom insets in pixels, and whether there are insets, an activity and
    a decor view.
  - A push emits the chosen pixel value only when it differs from
    `lastInsetPx`. `ObserveAll` specifies a sequence of pushes. The lemmas
    prove that no two consecutive emissions are equal and that the
    remembered inset is always the most recent reading.

`wrappers.dfy` holds the `Option` type. It stands for a nullable reference
or a null function pointer.

Behaviour of the Android monitor worth noting:
- The safe-area comparison has no epsilon. Whole pixel values are compared
  for exact equality.
- `stopSafeAreaObserver` does not clear `lastInsetPx`, so a restart that
  reads the same inset emits nothing (`RestartWithSameInsetIsSilent`).
- The first push after start emits whenever the reading differs from the
  remembered value, including a reading of 0 the first time.

## Model

| member | source | states |
|---|---|---|
| KeyboardInsets.UpdateInset | keyboard_insets_mobile/src/keyboard_insets.c:51-69 | A sample whose current equals the stored inset changes nothing and fires nothing. Otherwise: the pair is stored; the max is at least the old max and the target, and equals one of them; the flag and slots are unchanged. The inset callback fires with `current` iff a callback is registered and animation is on. The state callback fires last, with the new state's visible/animating flags, even with animation off. There are no other effects. |
| KeyboardInsets.Step | keyboard_insets_mobile/src/keyboard_insets.c:29-69 | No call lowers the max. Only an update touches the insets. Only set_keyboard_animation changes the flag, and it forwards the flag once to the platform. Register stores the given pointer (null empties the slot) and unregister clears it; each leaves the other slot alone and fires nothing. |
| KeyboardInsets.Replay | keyboard_insets_mobile/src/keyboard_insets.c:58-60 | max_inset never decreases over any sequence of calls. |
| KeyboardInsets.MaxTargetIsMaximum | keyboard_insets_mobile/src/keyboard_insets.c:58-60 | The running maximum is at least the start value and every target, and equals one of them. |
| KeyboardInsets.HeightIsMaxOfAcceptedTargets | keyboard_insets_mobile/src/keyboard_insets.c:13-15 | After any calls, the height equals the max of the start height and the targets of exactly the accepted samples. Acceptance is defined independently, by following only the stored `current`. |
| KeyboardInsets.HeightFromStart | keyboard_insets_mobile/src/keyboard_insets.c:7-15 | From the initial state, the height is at least -1 and at least every accepted target. It is either -1 or one of those targets. |
| KeyboardInsets.PairIsLastAccepted | keyboard_insets_mobile/src/keyboard_insets.c:52-57 | After any calls, (current_inset, current_target) is the last accepted sample, or the starting pair if none was accepted. |
| KeyboardInsets.AcceptedInsetsChange | keyboard_insets_mobile/src/keyboard_insets.c:52-54 | Consecutive accepted samples have different `current`s, and the first differs from the stored inset. |
| KeyboardInsets.LostTargetChange | keyboard_insets_mobile/src/keyboard_insets.c:52-57 | After (c, t1) is accepted, a later (c, t2) is dropped. The target stays t1 and nothing fires. |
| KeyboardInsets.RegisterNullIsUnregister | keyboard_insets_mobile/src/keyboard_insets.c:29-42 | Registering a null inset or state callback is the same call as the matching unregister: same state, no effects. |
| KeyboardInsets.VisibleAgreesAtRest | keyboard_insets_mobile/src/keyboard_insets.c:17-27 | When not animating, the two readings of "visible" agree, so the animation flag matters only during a transition. |
| KeyboardInsets.KeyboardInsetCore.constructor | keyboard_insets_mobile/src/keyboard_insets.c:4-11 | Initially: no callbacks, all three values -1, animation enabled. So the height is -1 and the keyboard is neither visible nor animating. |
| KeyboardInsets.KeyboardInsetCore.KeyboardHeight | keyboard_insets_mobile/src/keyboard_insets.c:13-15 | Returns max_inset, the running maximum characterised by HeightIsMaxOfAcceptedTargets. |
| KeyboardInsets.KeyboardInsetCore.IsKeyboardVisible | keyboard_insets_mobile/src/keyboard_insets.c:17-23 | Returns Visible of the state: current_target > 0 when animation is enabled, current_inset > 0 otherwise. |
| KeyboardInsets.KeyboardInsetCore.IsKeyboardAnimating | keyboard_insets_mobile/src/keyboard_insets.c:25-27 | True exactly when current_inset differs from current_target. |
| KeyboardInsets.KeyboardInsetCore.RegisterInsetCallback | keyboard_insets_mobile/src/keyboard_insets.c:29-31 | Stores the pointer as given in the inset slot, so a null pointer empties it; nothing else changes. |
| KeyboardInsets.KeyboardInsetCore.RegisterStateCallback | keyboard_insets_mobile/src/keyboard_insets.c:33-35 | Stores the pointer as given in the state slot, so a null pointer empties it; nothing else changes. |
| KeyboardInsets.KeyboardInsetCore.UnregisterInsetCallback | keyboard_insets_mobile/src/keyboard_insets.c:37-39 | Clears the inset slot; nothing else changes. |
| KeyboardInsets.KeyboardInsetCore.UnregisterStateCallback | keyboard_insets_mobile/src/keyboard_insets.c:40-42 | Clears the state slot; nothing else changes. |
| KeyboardInsets.KeyboardInsetCore.SetKeyboardAnimation | keyboard_insets_mobile/src/keyboard_insets.c:44-48 | Stores the flag, changes nothing else, and forwards the flag to the platform exactly once. |
| KeyboardInsets.KeyboardInsetCore.PlatformUpdateInset | keyboard_insets_mobile/src/keyboard_insets.c:51-69 | A dropped sample leaves the object unchanged and fires nothing. An accepted one stores the pair and raises the max. The new state and the effects are exactly those of UpdateInset/Step. |
| SafeArea.CoerceAtLeast | keyboard_insets_mobile/android/src/main/kotlin/com/example/keyboard_insets/SafeAreaMonitor.kt:72-73 | The result is the larger of the value and the minimum. |
| SafeArea.BottomInsetPx | keyboard_insets_mobile/android/src/main/kotlin/com/example/keyboard_insets/SafeAreaMonitor.kt:69-78 | On SDK >= Q, the max of the gesture and system-bar bottom insets; below Q, the system-bar inset. |
| SafeArea.Reading | keyboard_insets_mobile/android/src/main/kotlin/com/example/keyboard_insets/SafeAreaMonitor.kt:64-78 | There is a reading iff both the insets and the activity are present. It is then the chosen bottom inset. |
| SafeArea.Observe | keyboard_insets_mobile/android/src/main/kotlin/com/example/keyboard_insets/SafeAreaMonitor.kt:80-85 | A push emits iff there is a reading and it differs from lastInsetPx. Whatever is emitted becomes lastInsetPx. With no reading, lastInsetPx is unchanged. |
| SafeArea.ObserveAll | keyboard_insets_mobile/android/src/main/kotlin/com/example/keyboard_insets/SafeAreaMonitor.kt:80-85 | After any pushes, lastInsetPx is the last value emitted, or the start value if nothing was emitted. There are no more emissions than pushes. |
| SafeArea.EmissionsNeverRepeat | keyboard_insets_mobile/android/src/main/kotlin/com/example/keyboard_insets/SafeAreaMonitor.kt:80-85 | Two consecutive emissions never carry the same pixel value. The first emission differs from the value remembered before it. |
| SafeArea.RememberedIsLastReading | keyboard_insets_mobile/android/src/main/kotlin/com/example/keyboard_insets/SafeAreaMonitor.kt:80-81 | After any pushes, lastInsetPx is the most recent pixel reading, whether or not it was emitted. |
| SafeArea.RepeatedReadingsEmitNothing | keyboard_insets_mobile/android/src/main/kotlin/com/example/keyboard_insets/SafeAreaMonitor.kt:80 | Any number of readings equal to the remembered inset emit nothing. For example, a keyboard that shows or hides without moving the bars. |
| SafeArea.FirstReadingIsEmitted | keyboard_insets_mobile/android/src/main/kotlin/com/example/keyboard_insets/SafeAreaMonitor.kt:26 | Starting from -1, the first reading of any non-negative inset is emitted and remembered. |
| SafeArea.SafeAreaMonitor.constructor | keyboard_insets_mobile/android/src/main/kotlin/com/example/keyboard_insets/SafeAreaMonitor.kt:24-26 | Initially there is no activity, no root view and no listener, and lastInsetPx is -1. |
| SafeArea.SafeAreaMonitor.SetActivity | keyboard_insets_mobile/android/src/main/kotlin/com/example/keyboard_insets/SafeAreaMonitor.kt:28-30 | Stores the activity; nothing else changes. |
| SafeArea.SafeAreaMonitor.PushSafeAreaInset | keyboard_insets_mobile/android/src/main/kotlin/com/example/keyboard_insets/SafeAreaMonitor.kt:64-86 | The new lastInsetPx and the emission are those of Observe on this push's Reading. The activity, root view and listeners are untouched. |
| SafeArea.SafeAreaMonitor.StartSafeAreaObserver | keyboard_insets_mobile/android/src/main/kotlin/com/example/keyboard_insets/SafeAreaMonitor.kt:34-53 | With no activity or no decor view, nothing changes and nothing is emitted. Otherwise: the decor view becomes rootView, exactly one push is made with the initial insets, and the listener is installed on that view. |
| SafeArea.SafeAreaMonitor.StopSafeAreaObserver | keyboard_insets_mobile/android/src/main/kotlin/com/example/keyboard_insets/SafeAreaMonitor.kt:57-62 | Removes the listener from rootView, if there is one, and clears rootView. The activity and lastInsetPx are kept. A second call changes nothing. |
| SafeArea.RestartWithSameInsetIsSilent | keyboard_insets_mobile/android/src/main/kotlin/com/example/keyboard_insets/SafeAreaMonitor.kt:34-62 | On a monitor whose activity has a decor view, start, stop, then start again with the same insets. The first start emits the chosen inset unless it equals lastInsetPx. The second start emits nothing, because stop keeps lastInsetPx. Afterwards lastInsetPx is the chosen inset. |

## Left out

- The iOS Swift layer (`ios/Classes/KeyboardInsetsMobilePlugin.swift`) is not part of this model. It covers the keyboard notifications, the `CASpringAnimation`/`CADisplayLink` interpolation, the settle timer and the iOS safe-area observer. All of it is timing, GUI objects and floating-point arithmetic.
- The Android keyboard observer (`KeyboardInsetsImpl.kt`) is not part of this model. It is glue over `ViewCompat`, and its only computation is a clamp followed by a division by the display density.
- The JNI bridge (`keyboard_insets_jni.c`), the Flutter plugin lifecycle (`KeyboardInsetsMobilePlugin.kt`) and the iOS forwarding shim (`ios/Classes/keyboard_insets.c`) are not part of this model. They contain no logic beyond forwarding calls.
- `start_listening_insets`, `stop_listening_insets` and `platform_set_keyboard_animation` are implemented by the platform layers. The model records only the core's call to `platform_set_keyboard_animation`, as the effect `PlatformSetAnimation`.
- The C side of `platform_update_safe_area`, which receives the safe-area emission, is not part of this model.
- SafeArea.PushSafeAreaInset emits the pixel value, not `bottomInsetPx / density`. The float division by the display density is left out.
- KeyboardInsets.UpdateInset uses `real` equality for the C float comparison `current == current_inset`. IEEE details are not modelled: a NaN sample would always be accepted in C, and -0.0 equals 0.0.
- The callbacks themselves are not modelled. A registered function pointer is an opaque `CallbackId`, and a call to it is recorded as an `Effect`. What the callback does, including any re-entry into the core, is outside the model.
- The window-insets listener is modelled only as the set of views it is installed on. The framework's later calls to it are host events; each such call is one PushSafeAreaInset.
- The plugin never calls `SafeAreaMonitor.setActivity`, so in the shipped wiring `startSafeAreaObserver` always returns at its first guard. The monitor is modelled on its own, with the activity as an input, and that case is covered by StartSafeAreaObserver's first postcondition.
- Kotlin's 32-bit `Int` is modelled as an unbounded `int`. The monitor only compares and stores pixel values, so no wrap-around can occur.
