/** What both revisions share about triggers and the animation state: the
    caller's descriptors and how the constructor normalises them, the page
    snapshot a tick reads, and the three-state decision. */
module Triggers {
  import opened Objects

  /** The source's `this.state`: 0 = Inactive, 1 = Active, 2 = Done. */
  datatype State = Inactive | Active | Done

  /** What one tick reads from the page: the vertical scroll offset
      (`window.pageYOffset`, `scrollPolyfix.scrollY()`) and the current
      `getBoundingClientRect().top` of each element, by id. */
  datatype Snapshot = Snapshot(scrollY: real, tops: map<string, real>)

  /** A triggering point as the caller passes it: `{id, posY}` where either
      field may be missing or null (None). */
  datatype TriggerSpec = TriggerSpec(id: Option<string>, posY: Option<real>)

  /** A triggering point after normalisation: an absolute page offset, or a
      reference element with an offset. */
  datatype Trigger = Absolute(posY: real) | Element(id: string, posY: real)

  /** `Object.assign({id: null, posY: 0}, spec)`, read the way the source
      reads it: a missing or null `posY` counts as 0, and the trigger refers
      to an element exactly when its `id` is truthy (a non-empty string). */
  function NormalizeTrigger(spec: TriggerSpec): (t: Trigger)
    ensures t.Element? <==> spec.id.Some? && spec.id.value != ""
    ensures t.Element? ==> t.id == spec.id.value
    ensures spec.posY.None? ==> t.posY == 0.0
    ensures spec.posY.Some? ==> t.posY == spec.posY.value
  {
    var posY := if spec.posY.Some? then spec.posY.value else 0.0;
    if spec.id.Some? && spec.id.value != "" then Element(spec.id.value, posY) else Absolute(posY)
  }

  /** The element a trigger refers to is on the page (otherwise the source
      fails with a TypeError on `getElementById(...)` returning null). */
  predicate Resolves(t: Trigger, snap: Snapshot) {
    t.Element? ==> t.id in snap.tops
  }

  /** `checkState`'s decision once each trigger has been tested: the end
      trigger wins, then the begin trigger. */
  function Classify(beginCrossed: bool, endCrossed: bool): State {
    if endCrossed then Done else if beginCrossed then Active else Inactive
  }

  /** Done exactly when the end trigger is crossed, whatever the begin
      trigger says; Active exactly when only the begin trigger is crossed. */
  lemma ClassifyCases(beginCrossed: bool, endCrossed: bool)
    ensures Classify(beginCrossed, endCrossed) == Done <==> endCrossed
    ensures Classify(beginCrossed, endCrossed) == Active <==> beginCrossed && !endCrossed
    ensures Classify(beginCrossed, endCrossed) == Inactive <==> !beginCrossed && !endCrossed
  {
  }

  /** The controlled objects argument: a single id or an array of ids. */
  datatype ControlledObjects = Single(id: string) | Many(ids: seq<string>)

  /** `ControlledObjects instanceof Array ? ControlledObjects.slice() : [ControlledObjects]` */
  function NormalizeIds(objects: ControlledObjects): seq<string> {
    match objects
    case Single(id) => [id]
    case Many(ids) => ids
  }
}
