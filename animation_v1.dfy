/** The earlier revision (src/scrollinganimation.js): a controller that
    validates its two style states, normalises its triggers, and keeps its
    state and ratio up to date from the page on two timers. It writes no
    styles. */
module AnimationV1 {
  import opened Objects
  import opened Values
  import opened Triggers
  import Animation

  /** `validateAnimStates`: count the keys of the first object, stopping at
      the first one the second object lacks, then count the keys of the
      second and refuse it when it has more. */
  method ValidateAnimStates<V>(o1: Obj<V>, o2: Obj<V>) returns (ok: bool)
    requires Wf(o1) && Wf(o2)
    ensures ok <==> o1.fields.Keys == o2.fields.Keys
  {
    KeyListsMatch(o1, o2);
    var numberOfKeys1, numberOfKeys2 := 0, 0;
    var i := 0;
    while i < |o1.keys|
      invariant 0 <= i <= |o1.keys| && numberOfKeys1 == i
      invariant forall j :: 0 <= j < i ==> o1.keys[j] in o2.fields
    {
      numberOfKeys1 := numberOfKeys1 + 1;
      if o1.keys[i] !in o2.fields {
        return false;
      }
      i := i + 1;
    }
    i := 0;
    while i < |o2.keys|
      invariant 0 <= i <= |o2.keys| && numberOfKeys2 == i
    {
      numberOfKeys2 := numberOfKeys2 + 1;
      i := i + 1;
    }
    if numberOfKeys2 > numberOfKeys1 {
      return false;
    }
    return true;
  }

  /** A trigger is crossed when an element trigger's top has reached the
      top of the viewport (its `posY` is ignored), or when the scroll
      offset has reached an absolute trigger's `posY`. */
  predicate Crossed(t: Trigger, snap: Snapshot)
    requires Resolves(t, snap)
  {
    match t
    case Absolute(posY) => snap.scrollY >= posY
    case Element(id, _) => snap.tops[id] <= 0.0
  }

  /** The state `checkState` assigns, from the snapshot alone. */
  function StateAt(b: Trigger, e: Trigger, snap: Snapshot): State
    requires Resolves(b, snap) && Resolves(e, snap)
  {
    Classify(Crossed(b, snap), Crossed(e, snap))
  }

  function Abs(x: real): real {
    if x < 0.0 then -x else x
  }

  /** What `checkRatio` can evaluate without failing: the branch is chosen
      by the begin trigger alone, so an element begin trigger needs an
      element end trigger (the lookup of a null id yields no element). */
  predicate Evaluable(b: Trigger, e: Trigger, snap: Snapshot) {
    Resolves(b, snap) && Resolves(e, snap) && (b.Element? ==> e.Element?)
  }

  /** The divisor of `checkRatio` in state 1: the distance between the two
      element tops, or between the two `posY` fields. */
  function Span(b: Trigger, e: Trigger, snap: Snapshot): real
    requires Evaluable(b, e, snap)
  {
    if b.Element? then snap.tops[e.id] - snap.tops[b.id] else e.posY - b.posY
  }

  /** `checkRatio` for state `st`, which may be older than the snapshot
      because the two timers run independently. Division by zero is left
      out, so state 1 needs a non-zero span. In state 1 the ratio says how
      far the reference point has come from the begin trigger to the end
      trigger: the scroll offset between the two `posY` fields, or the
      viewport top between two element tops once the begin element has
      passed it. */
  function Ratio(st: State, b: Trigger, e: Trigger, snap: Snapshot): (r: real)
    requires Evaluable(b, e, snap)
    requires st == Active ==> Span(b, e, snap) != 0.0
    ensures st == Inactive ==> r == 0.0
    ensures st == Done ==> r == 1.0
    ensures st == Active && b.Absolute? ==> Lerp(b.posY, e.posY, r) == snap.scrollY
    ensures st == Active && b.Element? && snap.tops[b.id] <= 0.0
            ==> Lerp(snap.tops[b.id], snap.tops[e.id], r) == 0.0
  {
    match st
    case Inactive => 0.0
    case Done => 1.0
    case Active =>
      var total := Span(b, e, snap);
      if b.Element? then
        var r := Abs(snap.tops[b.id]) / total;
        assert r * total == Abs(snap.tops[b.id]);
        r
      else
        var r := (snap.scrollY - b.posY) / total;
        assert r * total == snap.scrollY - b.posY;
        assert Lerp(b.posY, e.posY, r) == b.posY + r * total;
        r
  }

  /** With triggers of the same kind, the state of the same snapshot makes
      the span positive and puts the state 1 ratio in [0, 1). */
  lemma RatioInUnitInterval(b: Trigger, e: Trigger, snap: Snapshot)
    requires Resolves(b, snap) && Resolves(e, snap) && b.Element? == e.Element?
    ensures StateAt(b, e, snap) == Active ==> Span(b, e, snap) > 0.0
    ensures StateAt(b, e, snap) == Active ==> 0.0 <= Ratio(Active, b, e, snap) < 1.0
  {
    if StateAt(b, e, snap) == Active {
      if b.Element? {
        Animation.FractionBounds(-snap.tops[b.id], Span(b, e, snap));
      } else {
        Animation.FractionBounds(snap.scrollY - b.posY, Span(b, e, snap));
      }
    }
  }

  /** An absolute begin trigger with an element end trigger: the span is
      taken from the end trigger's `posY` (0 by default) rather than from
      its element, so the ratio of state 1 can leave [0, 1]. Begin at 100,
      end element with top 50 and scroll 150: state 1 and ratio -0.5. */
  lemma MixedTriggersLeaveUnitInterval()
    ensures var b, e := Absolute(100.0), Element("end", 0.0);
            var snap := Snapshot(150.0, map["end" := 50.0]);
            && StateAt(b, e, snap) == Active
            && Span(b, e, snap) == -100.0
            && Ratio(Active, b, e, snap) == -0.5
  {
  }

  /** With absolute triggers the two revisions compute the same state and
      the same ratio; with element triggers whose `posY` is 0 they compute
      the same state. */
  lemma RevisionsAgree(b: Trigger, e: Trigger, snap: Snapshot)
    requires Resolves(b, snap) && Resolves(e, snap)
    ensures b.Absolute? && e.Absolute? ==> StateAt(b, e, snap) == Animation.StateAt(b, e, snap)
    ensures b.Absolute? && e.Absolute? && e.posY != b.posY
            ==> Ratio(StateAt(b, e, snap), b, e, snap)
                == Animation.Ratio(Animation.StateAt(b, e, snap), b, e, snap)
    ensures b.posY == 0.0 && e.posY == 0.0 ==> StateAt(b, e, snap) == Animation.StateAt(b, e, snap)
  {
    if b.Absolute? && e.Absolute? && e.posY != b.posY && StateAt(b, e, snap) == Active {
      var r := Ratio(Active, b, e, snap);
      var r' := Animation.Ratio(Active, b, e, snap);
      assert Lerp(b.posY, e.posY, r) == Lerp(b.posY, e.posY, r');
      LerpInjective(b.posY, e.posY, r, r');
    }
  }

  lemma LerpInjective(a: real, b: real, r: real, r': real)
    requires a != b && Lerp(a, b, r) == Lerp(a, b, r')
    ensures r == r'
  {
    assert (r - r') * (b - a) == 0.0;
  }

  class ScrollingAnimation {
    /** `this.CO`: the ids of the controlled objects, in order. */
    var co: seq<string>
    /** `this.ABS` and `this.AES`. */
    var abs: Obj<PropValue>
    var aes: Obj<PropValue>
    var btp: Trigger
    var etp: Trigger
    var state: State
    var ratio: real
    /** Whether the two intervals started by the constructor are set. */
    var intervalsActive: bool
    /** Whether the constructor got past `validateAnimStates`. */
    var initialized: bool
    /** Whether the constructor reported unmatched keys on the console. */
    ghost var errorLogged: bool

    ghost predicate Valid()
      reads this`initialized, this`abs, this`aes
    {
      initialized && Wf(abs) && Wf(aes) && abs.fields.Keys == aes.fields.Keys
    }

    /** The constructor: the ids as an array, copies of the two states,
        and, when their keys match, the normalised triggers, state 0, ratio
        0 and the two intervals. */
    constructor (objects: ControlledObjects, beginning: Obj<PropValue>, ending: Obj<PropValue>,
                 begin: TriggerSpec, end: TriggerSpec)
      requires Wf(beginning) && Wf(ending)
      ensures co == NormalizeIds(objects) && abs == beginning && aes == ending
      ensures initialized <==> beginning.fields.Keys == ending.fields.Keys
      ensures !initialized ==> errorLogged && !intervalsActive
      ensures initialized ==> Valid() && !errorLogged
      ensures initialized ==> btp == NormalizeTrigger(begin) && etp == NormalizeTrigger(end)
      ensures initialized ==> state == Inactive && ratio == 0.0
      ensures initialized ==> intervalsActive
    {
      co := NormalizeIds(objects);
      abs := beginning;
      aes := ending;
      var ok := ValidateAnimStates(beginning, ending);
      if !ok {
        initialized := false;
        errorLogged := true;
        intervalsActive := false;
      } else {
        btp := NormalizeTrigger(begin);
        etp := NormalizeTrigger(end);
        state := Inactive;
        ratio := 0.0;
        initialized := true;
        errorLogged := false;
        intervalsActive := true;
      }
    }

    /** `checkState`: the state from this snapshot alone. */
    method CheckState(snap: Snapshot)
      requires Valid() && Resolves(btp, snap) && Resolves(etp, snap)
      modifies this`state
      ensures state == StateAt(btp, etp, snap)
    {
      match btp {
        case Element(id, _) =>
          state := if snap.tops[id] <= 0.0 then Active else Inactive;
        case Absolute(posY) =>
          state := if snap.scrollY >= posY then Active else Inactive;
      }
      match etp {
        case Element(id, _) =>
          if snap.tops[id] <= 0.0 {
            state := Done;
          }
        case Absolute(posY) =>
          if snap.scrollY >= posY {
            state := Done;
          }
      }
    }

    /** `checkRatio` on its own timer: the ratio for whatever state the
        other timer last left. */
    method CheckRatio(snap: Snapshot)
      requires Valid() && Evaluable(btp, etp, snap)
      requires state == Active ==> Span(btp, etp, snap) != 0.0
      modifies this`ratio
      ensures ratio == Ratio(state, btp, etp, snap)
    {
      if state == Inactive {
        ratio := 0.0;
      } else if state == Done {
        ratio := 1.0;
      } else {
        if btp.Element? {
          var startTop := snap.tops[btp.id];
          var endTop := snap.tops[etp.id];
          var total := endTop - startTop;
          ratio := Abs(startTop) / total;
        } else {
          var total := etp.posY - btp.posY;
          ratio := (snap.scrollY - btp.posY) / total;
        }
      }
    }

    /** Both timers firing in turn on one snapshot, with triggers of one
        kind: the state is that of the snapshot and the ratio lies in
        [0, 1]. */
    method Tick(snap: Snapshot)
      requires Valid() && Resolves(btp, snap) && Resolves(etp, snap) && btp.Element? == etp.Element?
      modifies this`state, this`ratio
      ensures state == StateAt(btp, etp, snap)
      ensures ratio == Ratio(state, btp, etp, snap)
      ensures 0.0 <= ratio <= 1.0
    {
      CheckState(snap);
      RatioInUnitInterval(btp, etp, snap);
      CheckRatio(snap);
    }
  }
}
