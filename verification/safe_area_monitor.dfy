/** Model of the Android safe-area de-duplicator (SafeAreaMonitor.kt).

    The monitor picks a bottom inset in whole pixels from the window insets
    and hands it to the native side only when it differs from the last one
    it handed over. The SDK level, the insets the framework delivers and the
    activity's decor view are inputs. The emission is the pixel value; the
    conversion to density-independent units (a float division by the display
    density) is left to the caller. */
module SafeArea {
  import opened Wrappers

  /** Build.VERSION_CODES.Q (Android 10), from which gesture insets exist. */
  const VersionCodeQ := 29

  /** Identity of a View object. */
  type View = nat

  /** The parts of an Activity the monitor looks at: `window?.decorView`. */
  datatype Activity = Activity(decorView: Option<View>)

  /** The two bottom insets, in pixels, the monitor reads from a
      WindowInsetsCompat: system gestures and system bars. */
  datatype Insets = Insets(systemGesturesBottom: int, systemBarsBottom: int)

  /** Kotlin's Int.coerceAtLeast. */
  function CoerceAtLeast(x: int, minimum: int): (r: int)
    ensures r >= x && r >= minimum
    ensures r == x || r == minimum
  {
    if x < minimum then minimum else x
  }

  /** The bottom inset chosen by pushSafeAreaInset: from Android Q on the
      larger of the gesture and system-bar insets, before it the system-bar
      inset alone. */
  function BottomInsetPx(sdkInt: int, insets: Insets): (px: int)
    ensures sdkInt >= VersionCodeQ ==>
      && px >= insets.systemGesturesBottom
      && px >= insets.systemBarsBottom
      && (px == insets.systemGesturesBottom || px == insets.systemBarsBottom)
    ensures sdkInt < VersionCodeQ ==> px == insets.systemBarsBottom
  {
    if sdkInt >= VersionCodeQ then
      CoerceAtLeast(insets.systemGesturesBottom, insets.systemBarsBottom)
    else
      insets.systemBarsBottom
  }

  /** The pixel reading a push acts on: none when the insets are null or no
      activity is set, in which case the push returns at once. */
  function Reading(activity: Option<Activity>, sdkInt: int, insets: Option<Insets>): (reading: Option<int>)
    ensures reading.Some? <==> insets.Some? && activity.Some?
    ensures reading.Some? ==> reading.value == BottomInsetPx(sdkInt, insets.value)
  {
    if insets.None? || activity.None? then None
    else Some(BottomInsetPx(sdkInt, insets.value))
  }

  /** The remembered inset after a push and what the push emitted. */
  datatype Push = Push(lastInsetPx: int, emitted: Option<int>)

  /** One push: a reading equal to the remembered inset, or no reading at all,
      changes nothing and emits nothing; any other reading is remembered and
      emitted. */
  function Observe(last: int, reading: Option<int>): (r: Push)
    ensures r.emitted.Some? <==> reading.Some? && reading.value != last
    ensures r.emitted.Some? ==> r.emitted.value == r.lastInsetPx
    ensures r.lastInsetPx == if reading.Some? then reading.value else last
  {
    match reading
    case None => Push(last, None)
    case Some(px) =>
      if px == last then Push(last, None)
      else Push(px, Some(px))
  }

  /** The remembered inset after a sequence of pushes and every value emitted. */
  datatype Log = Log(lastInsetPx: int, emitted: seq<int>)

  /** A sequence of pushes starting from the remembered inset `last`. The
      remembered inset is always the last value emitted (or `last` if none
      was). */
  function ObserveAll(last: int, readings: seq<Option<int>>): (r: Log)
    ensures r.emitted == [] ==> r.lastInsetPx == last
    ensures r.emitted != [] ==> r.lastInsetPx == r.emitted[|r.emitted| - 1]
    ensures |r.emitted| <= |readings|
    decreases |readings|
  {
    if readings == [] then Log(last, [])
    else
      var p := Observe(last, readings[0]);
      var rest := ObserveAll(p.lastInsetPx, readings[1..]);
      match p.emitted
      case None => rest
      case Some(px) => Log(rest.lastInsetPx, [px] + rest.emitted)
  }

  /** No two consecutive emissions carry the same pixel value, and the first
      differs from the inset remembered before. */
  lemma {:induction false} EmissionsNeverRepeat(last: int, readings: seq<Option<int>>)
    ensures var e := ObserveAll(last, readings).emitted;
      && (e != [] ==> e[0] != last)
      && (forall i :: 0 < i < |e| ==> e[i - 1] != e[i])
    decreases |readings|
  {
    if readings != [] {
      var p := Observe(last, readings[0]);
      EmissionsNeverRepeat(p.lastInsetPx, readings[1..]);
      var rest := ObserveAll(p.lastInsetPx, readings[1..]).emitted;
      if p.emitted.Some? {
        assert ObserveAll(last, readings).emitted == [p.emitted.value] + rest;
      }
    }
  }

  /** The last pixel reading present in `readings`, or `last` if there is none. */
  function LastReading(last: int, readings: seq<Option<int>>): (px: int)
    decreases |readings|
  {
    if readings == [] then last
    else LastReading(if readings[0].Some? then readings[0].value else last, readings[1..])
  }

  /** Whatever was emitted, the remembered inset is the most recent reading:
      a reading equal to the remembered inset leaves it as it is. */
  lemma {:induction false} RememberedIsLastReading(last: int, readings: seq<Option<int>>)
    ensures ObserveAll(last, readings).lastInsetPx == LastReading(last, readings)
    decreases |readings|
  {
    if readings != [] {
      RememberedIsLastReading(Observe(last, readings[0]).lastInsetPx, readings[1..]);
    }
  }

  /** A reading that repeats the previous one is never emitted, so readings
      that do not move the gesture or system-bar inset (a keyboard showing
      or hiding) produce nothing. */
  lemma {:induction false} RepeatedReadingsEmitNothing(px: int, n: nat)
    ensures ObserveAll(px, seq(n, _ => Some(px))).emitted == []
    decreases n
  {
    if n > 0 {
      var readings := seq(n, _ => Some(px));
      assert readings[1..] == seq(n - 1, _ => Some(px));
      RepeatedReadingsEmitNothing(px, n - 1);
    }
  }

  /** Because the remembered inset starts at -1, the first valid reading of
      any non-negative inset is emitted. */
  lemma FirstReadingIsEmitted(px: int)
    requires px >= 0
    ensures Observe(-1, Some(px)) == Push(px, Some(px))
  {
  }

  /** The monitor object: its three fields and the views that carry its
      window-insets listener. */
  class SafeAreaMonitor {
    var activity: Option<Activity>
    var rootView: Option<View>
    var lastInsetPx: int
    /** Views on which the monitor's insets listener is installed. */
    var listenedViews: set<View>

    /** The object's initial state: no activity, no view, -1 remembered. */
    constructor ()
      ensures activity == None && rootView == None && lastInsetPx == -1 && listenedViews == {}
    {
      activity := None;
      rootView := None;
      lastInsetPx := -1;
      listenedViews := {};
    }

    /** setActivity: stores the activity, nothing else changes. */
    method SetActivity(act: Option<Activity>)
      modifies this
      ensures activity == act
      ensures rootView == old(rootView) && lastInsetPx == old(lastInsetPx)
      ensures listenedViews == old(listenedViews)
    {
      activity := act;
    }

    /** pushSafeAreaInset, run on the initial read and by the listener. */
    method PushSafeAreaInset(sdkInt: int, insets: Option<Insets>) returns (emitted: Option<int>)
      modifies this
      ensures Push(lastInsetPx, emitted) == Observe(old(lastInsetPx), Reading(activity, sdkInt, insets))
      ensures activity == old(activity) && rootView == old(rootView)
      ensures listenedViews == old(listenedViews)
    {
      emitted := None;
      if insets.None? {
        return;
      }
      if activity.None? {
        return;
      }

      var bottomInsetPx: int;
      if sdkInt >= VersionCodeQ {
        bottomInsetPx := CoerceAtLeast(insets.value.systemGesturesBottom, insets.value.systemBarsBottom);
      } else {
        bottomInsetPx := insets.value.systemBarsBottom;
      }

      if bottomInsetPx == lastInsetPx {
        return;
      }
      lastInsetPx := bottomInsetPx;
      emitted := Some(bottomInsetPx);
    }

    /** startSafeAreaObserver: without an activity or a decor view nothing
        happens; otherwise the decor view becomes the root view, one push is
        made with the view's current insets, and the listener is installed. */
    method StartSafeAreaObserver(sdkInt: int, initialInsets: Option<Insets>) returns (emitted: Option<int>)
      modifies this
      ensures activity == old(activity)
      ensures old(activity).None? || old(activity).value.decorView.None? ==>
        unchanged(this) && emitted == None
      ensures old(activity).Some? && old(activity).value.decorView.Some? ==>
        var view := old(activity).value.decorView.value;
        && rootView == Some(view)
        && listenedViews == old(listenedViews) + {view}
        && Push(lastInsetPx, emitted) == Observe(old(lastInsetPx), Reading(activity, sdkInt, initialInsets))
    {
      emitted := None;
      if activity.None? {
        return;
      }
      var act := activity.value;
      if act.decorView.None? {
        return;
      }
      var view := act.decorView.value;

      rootView := Some(view);

      emitted := PushSafeAreaInset(sdkInt, initialInsets);

      listenedViews := listenedViews + {view};
    }

    /** stopSafeAreaObserver: removes the listener from the root view, if
        any, and forgets the view. The remembered inset is kept, and a second
        call changes nothing. */
    method StopSafeAreaObserver()
      modifies this
      ensures rootView == None
      ensures listenedViews == if old(rootView).Some? then old(listenedViews) - {old(rootView).value} else old(listenedViews)
      ensures activity == old(activity) && lastInsetPx == old(lastInsetPx)
      ensures old(rootView).None? ==> unchanged(this)
    {
      if rootView.Some? {
        listenedViews := listenedViews - {rootView.value};
      }
      rootView := None;
    }
  }

  /** Stop does not forget the remembered inset: starting, stopping and
      starting again on a view whose insets have not moved emits nothing the
      second time. */
  method RestartWithSameInsetIsSilent(m: SafeAreaMonitor, sdkInt: int, insets: Insets)
      returns (first: Option<int>, second: Option<int>)
    requires m.activity.Some? && m.activity.value.decorView.Some?
    modifies m
    ensures first == (if BottomInsetPx(sdkInt, insets) == old(m.lastInsetPx) then None
                      else Some(BottomInsetPx(sdkInt, insets)))
    ensures second == None
    ensures m.lastInsetPx == BottomInsetPx(sdkInt, insets)
  {
    first := m.StartSafeAreaObserver(sdkInt, Some(insets));
    m.StopSafeAreaObserver();
    second := m.StartSafeAreaObserver(sdkInt, Some(insets));
  }
}
