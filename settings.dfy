/** The settings dialog's display-scale controls: zoom in and out in steps
    of ten percent within [50, 200], and reset to 100. Each handler passes a
    new settings object to the caller; nothing is updated in place. */
module Settings {
  import opened Json

  const MinZoom: int := 50
  const MaxZoom: int := 200
  const ZoomStep: int := 10
  const DefaultZoom: int := 100

  /** Settings whose `zoom` member is a number. */
  predicate HasZoom(settings: Record) {
    "zoom" in settings && settings["zoom"].JNum?
  }

  function Zoom(settings: Record): int
    requires HasZoom(settings)
  {
    settings["zoom"].n
  }

  predicate InRange(settings: Record) {
    HasZoom(settings) && MinZoom <= Zoom(settings) <= MaxZoom
  }

  /** Every member other than `zoom` is carried over unchanged, and no member is added. */
  predicate SameOtherFields(before: Record, after: Record) {
    && after.Keys == before.Keys + {"zoom"}
    && forall f :: f in before && f != "zoom" ==> after[f] == before[f]
  }

  /** `handleZoomIn`: one step larger, capped at the maximum. */
  function ZoomIn(settings: Record): (r: Record)
    requires HasZoom(settings)
    ensures HasZoom(r) && Zoom(r) <= MaxZoom
    ensures Zoom(r) == Zoom(settings) + ZoomStep || Zoom(r) == MaxZoom
    ensures Zoom(r) <= Zoom(settings) + ZoomStep
    ensures SameOtherFields(settings, r)
  {
    settings["zoom" := JNum(Min(Zoom(settings) + ZoomStep, MaxZoom))]
  }

  /** `handleZoomOut`: one step smaller, floored at the minimum. */
  function ZoomOut(settings: Record): (r: Record)
    requires HasZoom(settings)
    ensures HasZoom(r) && MinZoom <= Zoom(r)
    ensures Zoom(r) == Zoom(settings) - ZoomStep || Zoom(r) == MinZoom
    ensures Zoom(settings) - ZoomStep <= Zoom(r)
    ensures SameOtherFields(settings, r)
  {
    settings["zoom" := JNum(Max(Zoom(settings) - ZoomStep, MinZoom))]
  }

  /** `handleReset`: a settings object holding only the default zoom. */
  function Reset(): Record {
    map["zoom" := JNum(DefaultZoom)]
  }

  /** Reset drops every other member and lands inside the range. */
  lemma ResetDefaults(settings: Record)
    ensures InRange(Reset()) && Zoom(Reset()) == DefaultZoom
    ensures Reset().Keys == {"zoom"}
    ensures forall f :: f in settings && f != "zoom" ==> f !in Reset()
  {
  }

  /** The "Smaller" button is disabled at or below the minimum. */
  predicate ZoomOutDisabled(settings: Record)
    requires HasZoom(settings)
  {
    Zoom(settings) <= MinZoom
  }

  /** The "Larger" button is disabled at or above the maximum. */
  predicate ZoomInDisabled(settings: Record)
    requires HasZoom(settings)
  {
    Zoom(settings) >= MaxZoom
  }

  /** Within the range, a button is disabled exactly when pressing it would
      change nothing. */
  lemma DisabledIffNoChange(settings: Record)
    requires InRange(settings)
    ensures ZoomInDisabled(settings) <==> ZoomIn(settings) == settings
    ensures ZoomOutDisabled(settings) <==> ZoomOut(settings) == settings
  {
    if ZoomIn(settings) == settings {
      assert Zoom(ZoomIn(settings)) == Zoom(settings);
    }
    if ZoomOut(settings) == settings {
      assert Zoom(ZoomOut(settings)) == Zoom(settings);
    }
    if ZoomInDisabled(settings) {
      assert ZoomIn(settings) == settings["zoom" := settings["zoom"]];
    }
    if ZoomOutDisabled(settings) {
      assert ZoomOut(settings) == settings["zoom" := settings["zoom"]];
    }
  }

  /** Away from the maximum, zooming out undoes zooming in. */
  lemma ZoomOutUndoesZoomIn(settings: Record)
    requires HasZoom(settings) && MinZoom <= Zoom(settings) <= MaxZoom - ZoomStep
    ensures ZoomOut(ZoomIn(settings)) == settings
  {
    var z := Zoom(settings);
    assert ZoomIn(settings) == settings["zoom" := JNum(z + ZoomStep)];
    assert ZoomOut(ZoomIn(settings)) == settings["zoom" := JNum(z)];
    assert settings["zoom" := JNum(z)] == settings;
  }

  /** Away from the minimum, zooming in undoes zooming out. */
  lemma ZoomInUndoesZoomOut(settings: Record)
    requires HasZoom(settings) && MinZoom + ZoomStep <= Zoom(settings) <= MaxZoom
    ensures ZoomIn(ZoomOut(settings)) == settings
  {
    var z := Zoom(settings);
    assert ZoomOut(settings) == settings["zoom" := JNum(z - ZoomStep)];
    assert ZoomIn(ZoomOut(settings)) == settings["zoom" := JNum(z)];
    assert settings["zoom" := JNum(z)] == settings;
  }

  /** A press of one of the two zoom buttons. */
  datatype Press = Larger | Smaller

  /** The settings after a run of presses, each handled in turn. */
  function AfterPresses(settings: Record, presses: seq<Press>): Record
    requires HasZoom(settings)
    decreases |presses|
  {
    if presses == [] then settings
    else
      var next := if presses[0] == Larger then ZoomIn(settings) else ZoomOut(settings);
      AfterPresses(next, presses[1..])
  }

  /** From a zoom within the range, any run of presses keeps the zoom within
      the range and every other member as it was. */
  lemma {:induction false} PressesStayInRange(settings: Record, presses: seq<Press>)
    requires InRange(settings)
    ensures InRange(AfterPresses(settings, presses))
    ensures SameOtherFields(settings, AfterPresses(settings, presses))
    decreases |presses|
  {
    if presses != [] {
      var next := if presses[0] == Larger then ZoomIn(settings) else ZoomOut(settings);
      PressesStayInRange(next, presses[1..]);
    }
  }
}
