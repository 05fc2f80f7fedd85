/** The later revision (docs/res/scrollinganimation.js): a controller that,
    on every tick of its interval, recomputes the state from the scroll
    position and two triggers, recomputes the ratio, and writes the
    interpolated styles of its controlled objects through a per-element
    cache. */
module Animation {
  import opened Objects
  import opened Values
  import opened Triggers
  import opened Style

  /** `validateAnimStates`: the two style states have the same key count
      and every key of the first is among the keys of the second. */
  function ValidateAnimStates<V>(o1: Obj<V>, o2: Obj<V>): (ok: bool)
    requires Wf(o1) && Wf(o2)
    ensures ok <==> o1.fields.Keys == o2.fields.Keys
  {
    KeyListsMatch(o1, o2);
    |o1.keys| == |o2.keys| && forall k :: k in o1.keys ==> k in o2.keys
  }

  /** `areEquivalent`: the same number of own properties, then a walk over
      the first object's properties that stops at the first one reading
      differently in the second. */
  method AreEquivalent(o1: Obj<real>, o2: Obj<real>) returns (same: bool)
    ensures same <==> Equivalent(o1, o2)
  {
    if |o1.keys| != |o2.keys| {
      return false;
    }
    var i := 0;
    while i < |o1.keys|
      invariant 0 <= i <= |o1.keys|
      invariant forall j :: 0 <= j < i ==> Get(o1, o1.keys[j]) == Get(o2, o1.keys[j])
    {
      var prop := o1.keys[i];
      if Get(o1, prop) != Get(o2, prop) {
        return false;
      }
      i := i + 1;
    }
    return true;
  }

  /** Has the page reached trigger `t`? For an element trigger, its top has
      moved up past `-posY`; for an absolute one, the scroll offset has
      reached `posY`. */
  predicate Crossed(t: Trigger, snap: Snapshot)
    requires Resolves(t, snap)
  {
    match t
    case Absolute(posY) => snap.scrollY >= posY
    case Element(id, posY) => snap.tops[id] <= -posY
  }

  /** The trigger's position on the page, as `checkRatio` computes it
      (`BTPPos`, `ETPPos`). */
  function PagePosition(t: Trigger, snap: Snapshot): real
    requires Resolves(t, snap)
  {
    match t
    case Absolute(posY) => posY
    case Element(id, posY) => snap.tops[id] + posY + snap.scrollY
  }

  /** Both kinds of trigger test the same thing: whether the scroll offset
      has reached the trigger's page position. */
  lemma CrossedIffReached(t: Trigger, snap: Snapshot)
    requires Resolves(t, snap)
    ensures Crossed(t, snap) <==> PagePosition(t, snap) <= snap.scrollY
  {
  }

  /** The state `checkState` assigns, from the snapshot alone. */
  function StateAt(b: Trigger, e: Trigger, snap: Snapshot): State
    requires Resolves(b, snap) && Resolves(e, snap)
  {
    Classify(Crossed(b, snap), Crossed(e, snap))
  }

  /** In state 1 the scroll offset lies between the two trigger positions,
      so the ratio's denominator is positive. */
  lemma ActiveBetweenTriggers(b: Trigger, e: Trigger, snap: Snapshot)
    requires Resolves(b, snap) && Resolves(e, snap)
    ensures StateAt(b, e, snap) == Active
            ==> PagePosition(b, snap) <= snap.scrollY < PagePosition(e, snap)
  {
    CrossedIffReached(b, snap);
    CrossedIffReached(e, snap);
  }

  lemma FractionBounds(n: real, d: real)
    requires 0.0 <= n < d
    ensures 0.0 <= n / d < 1.0
    ensures (n / d) * d == n
  {
    var r := n / d;
    assert r * d == n;
    if r >= 1.0 {
      MulMonotone(1.0, r, d);
    }
  }

  /** `checkRatio`: 0 in state 0, 1 in state 2, and in state 1 the
      fraction of the way the scroll offset has come from the begin
      trigger's position to the end trigger's. */
  function Ratio(st: State, b: Trigger, e: Trigger, snap: Snapshot): (r: real)
    requires Resolves(b, snap) && Resolves(e, snap)
    requires st == StateAt(b, e, snap)
    ensures st == Inactive ==> r == 0.0
    ensures st == Done ==> r == 1.0
    ensures st == Active ==> 0.0 <= r < 1.0
    ensures st == Active ==> Lerp(PagePosition(b, snap), PagePosition(e, snap), r) == snap.scrollY
  {
    match st
    case Inactive => 0.0
    case Done => 1.0
    case Active =>
      var from, to := PagePosition(b, snap), PagePosition(e, snap);
      ActiveBetweenTriggers(b, e, snap);
      FractionBounds(snap.scrollY - from, to - from);
      (snap.scrollY - from) / (to - from)
  }

  /** With absolute triggers at 100 and 300: scroll 50 is state 0 at ratio
      0, 100 is state 1 at ratio 0, 200 is state 1 at ratio 0.5, and 300 and
      400 are state 2 at ratio 1. */
  lemma AbsoluteTriggerExample()
    ensures var b, e := Absolute(100.0), Absolute(300.0);
            var at := (y: real) => Snapshot(y, map[]);
            && StateAt(b, e, at(50.0)) == Inactive && Ratio(Inactive, b, e, at(50.0)) == 0.0
            && StateAt(b, e, at(100.0)) == Active && Ratio(Active, b, e, at(100.0)) == 0.0
            && StateAt(b, e, at(200.0)) == Active && Ratio(Active, b, e, at(200.0)) == 0.5
            && StateAt(b, e, at(300.0)) == Done && Ratio(Done, b, e, at(300.0)) == 1.0
            && StateAt(b, e, at(400.0)) == Done && Ratio(Done, b, e, at(400.0)) == 1.0
  {
  }

  class ScrollingAnimation {
    /** `this.CO`: the ids of the controlled objects, in order. */
    var co: seq<string>
    /** `this.ABS` and `this.AES`. */
    var abs: Obj<PropValue>
    var aes: Obj<PropValue>
    /** `this.COState`: per controlled object, the value last written for each property. */
    var coState: seq<map<string, PropValue>>
    /** `element.style` of each controlled object. */
    var style: seq<map<string, PropValue>>
    var btp: Trigger
    var etp: Trigger
    var state: State
    var ratio: real
    /** `this.config.killOnEnd`. */
    var killOnEnd: bool
    /** Whether the interval started by the constructor is still set. */
    var intervalActive: bool
    /** Whether the constructor got past `validateAnimStates`. */
    var initialized: bool
    /** Whether the constructor reported unmatched keys on the console. */
    ghost var errorLogged: bool
    /** Every assignment to an element's style, in order. */
    ghost var log: seq<StyleWrite>

    ghost predicate Valid()
      reads this`initialized, this`abs, this`aes, this`co, this`coState, this`style
    {
      && initialized
      && WellKinded(abs) && WellKinded(aes) && abs.fields.Keys == aes.fields.Keys
      && |coState| == |co| && |style| == |co|
      && (forall i :: 0 <= i < |co| ==> coState[i].Keys == abs.fields.Keys && abs.fields.Keys <= style[i].Keys)
    }

    function CurrentFrame(): Frame
      reads this`state, this`ratio, this`abs, this`aes
    {
      Frame(state, ratio, abs, aes)
    }

    /** The constructor. `domStyle` is each controlled object's style when
        the animator is created, from which `COState` is read. */
    constructor (objects: ControlledObjects, beginning: Obj<PropValue>, ending: Obj<PropValue>,
                 begin: TriggerSpec, end: TriggerSpec, config: Option<bool>,
                 domStyle: seq<map<string, PropValue>>)
      requires WellKinded(beginning) && WellKinded(ending)
      requires |domStyle| == |NormalizeIds(objects)|
      requires forall i :: 0 <= i < |domStyle| ==> beginning.fields.Keys <= domStyle[i].Keys
      ensures co == NormalizeIds(objects) && abs == beginning && aes == ending
      ensures initialized <==> beginning.fields.Keys == ending.fields.Keys
      ensures !initialized ==> errorLogged && !intervalActive
      ensures initialized ==> Valid() && !errorLogged
      ensures initialized ==> btp == NormalizeTrigger(begin) && etp == NormalizeTrigger(end)
      ensures initialized ==> state == Inactive && ratio == 0.0
      ensures initialized ==> killOnEnd == (config.Some? && config.value)
      ensures initialized ==> intervalActive
      ensures initialized ==> style == domStyle && log == []
      ensures initialized ==> forall i :: 0 <= i < |co| ==> coState[i] == map k | k in beginning.fields :: domStyle[i][k]
    {
      co := NormalizeIds(objects);
      abs := beginning;
      aes := ending;
      style := domStyle;
      log := [];
      if !ValidateAnimStates(beginning, ending) {
        initialized := false;
        errorLogged := true;
        intervalActive := false;
      } else {
        coState := seq(|domStyle|, i requires 0 <= i < |domStyle| => map k | k in beginning.fields :: domStyle[i][k]);
        btp := NormalizeTrigger(begin);
        etp := NormalizeTrigger(end);
        state := Inactive;
        ratio := 0.0;
        killOnEnd := if config.Some? then config.value else false;
        initialized := true;
        errorLogged := false;
        intervalActive := true;
      }
    }

    /** `checkState`: the state from this snapshot alone; with `killOnEnd`,
        reaching state 2 clears the interval. */
    method CheckState(snap: Snapshot)
      requires Valid() && Resolves(btp, snap) && Resolves(etp, snap)
      modifies this`state, this`intervalActive
      ensures Valid()
      ensures state == StateAt(btp, etp, snap)
      ensures intervalActive == (old(intervalActive) && !(killOnEnd && state == Done))
    {
      match btp {
        case Element(id, posY) =>
          state := if snap.tops[id] <= -posY then Active else Inactive;
        case Absolute(posY) =>
          state := if snap.scrollY >= posY then Active else Inactive;
      }
      match etp {
        case Element(id, posY) =>
          if snap.tops[id] <= -posY {
            state := Done;
          }
        case Absolute(posY) =>
          if snap.scrollY >= posY {
            state := Done;
          }
      }
      if killOnEnd && state == Done {
        intervalActive := false;
      }
    }

    /** `checkRatio`, run after `checkState` on the same snapshot. */
    method CheckRatio(snap: Snapshot)
      requires Valid() && Resolves(btp, snap) && Resolves(etp, snap)
      requires state == StateAt(btp, etp, snap)
      modifies this`ratio
      ensures Valid()
      ensures ratio == Ratio(state, btp, etp, snap)
    {
      if state == Inactive {
        ratio := 0.0;
      } else if state == Done {
        ratio := 1.0;
      } else {
        var btpPos := match btp
          case Element(id, posY) => snap.tops[id] + posY + snap.scrollY
          case Absolute(posY) => posY;
        var etpPos := match etp
          case Element(id, posY) => snap.tops[id] + posY + snap.scrollY
          case Absolute(posY) => posY;
        var total := etpPos - btpPos;
        ActiveBetweenTriggers(btp, etp, snap);
        ratio := (snap.scrollY - btpPos) / total;
      }
    }

    /** The body of `updateStyle`'s `for-in` loop for property `prop` of an
        element whose cache is `cache` and whose style is `elementStyle`:
        the value compared, the `stateChange` test, and on a change the unit
        fill and the two assignments. */
    static method UpdateProperty(f: Frame, prop: string, cache: map<string, PropValue>, elementStyle: map<string, PropValue>)
      returns (newCache: map<string, PropValue>, newStyle: map<string, PropValue>, written: bool)
      requires FrameOk(f) && prop in f.abs.fields && prop in cache
      ensures written == Changed(f, prop, cache[prop])
      ensures newCache == (if written then cache[prop := Target(f, prop)] else cache)
      ensures newStyle == (if written then elementStyle[prop := Target(f, prop)] else elementStyle)
    {
      var current: PropValue;
      if f.state == Inactive {
        current := f.abs.fields[prop];
      } else if f.state == Done {
        current := f.aes.fields[prop];
      } else {
        current := Interpolate(prop, f.abs.fields[prop], f.aes.fields[prop], f.ratio);
      }
      if current.Color? {
        var same := AreEquivalent(OwnProps(current), OwnProps(cache[prop]));
        written := !same;
      } else {
        written := current != cache[prop];
      }
      assert written == Differs(current, cache[prop]);
      DiffersIffUnequal(current, cache[prop]);
      newCache, newStyle := cache, elementStyle;
      if written {
        if f.state != Active && KindOf(prop) == PositionKind && UnitOf(current) == "" {
          var other := if f.state == Inactive then f.aes.fields[prop] else f.abs.fields[prop];
          current := Position(current.mag, OrPx(UnitOf(other)));
        }
        newStyle := newStyle[prop := current];
        newCache := newCache[prop := current];
      }
    }

    /** The `for-in` loop of `updateStyle` over the element at `i`, whose
        cache is `c0` and whose style is `s0`: the walk over ABS's keys in
        state 0 and AES's otherwise, giving the element's new cache, its new
        style and the assignments made to it. */
    static method WalkProperties(f: Frame, i: nat, c0: map<string, PropValue>, s0: map<string, PropValue>)
      returns (cache: map<string, PropValue>, elementStyle: map<string, PropValue>, ghost writes: seq<StyleWrite>)
      requires FrameOk(f) && c0.Keys == f.abs.fields.Keys && c0.Keys <= s0.Keys
      ensures cache == NextCache(f, c0)
      ensures elementStyle == NextStyle(f, c0, s0)
      ensures writes == ElementWrites(f, i, Walk(f), c0)
    {
      var props := Walk(f);
      cache, elementStyle, writes := c0, s0, [];
      AppendEmpty(WritesFrom(i, props, 0, Writes(f, c0)));
      var j := 0;
      while j < |props|
        invariant 0 <= j <= |props|
        invariant cache == Overlay(c0, Writes(f, c0), props, j)
        invariant elementStyle == Overlay(s0, Writes(f, c0), props, j)
        invariant WritesFrom(i, props, 0, Writes(f, c0)) == writes + WritesFrom(i, props, j, Writes(f, c0))
      {
        var prop := props[j];
        WalkFresh(f, j);
        OverlayFresh(c0, Writes(f, c0), props, j);
        var cache', elementStyle', written := UpdateProperty(f, prop, cache, elementStyle);
        ghost var writes' := if written then writes + [StyleWrite(i, prop, cache'[prop])] else writes;
        WalkStep(f, i, c0, s0, j, cache, elementStyle, writes, written, cache', elementStyle', writes');
        cache, elementStyle, writes := cache', elementStyle', writes';
        j := j + 1;
      }
      AppendEmpty(writes);
      WalkEnds(f, c0, s0);
    }

    /** The `forEach` of `updateStyle` over the controlled objects, whose
        caches are `caches0` and whose styles are `styles0`, each element
        walked by `WalkProperties`. */
    static method WalkElements(f: Frame, caches0: seq<map<string, PropValue>>, styles0: seq<map<string, PropValue>>)
      returns (caches: seq<map<string, PropValue>>, styles: seq<map<string, PropValue>>, ghost writes: seq<StyleWrite>)
      requires FrameOk(f) && CachesOk(f, caches0) && |styles0| == |caches0|
      requires forall j :: 0 <= j < |caches0| ==> caches0[j].Keys <= styles0[j].Keys
      ensures |caches| == |styles| == |caches0|
      ensures forall j :: 0 <= j < |caches0| ==> caches[j] == NextCache(f, caches0[j])
      ensures forall j :: 0 <= j < |caches0| ==> styles[j] == NextStyle(f, caches0[j], styles0[j])
      ensures writes == TickWrites(f, caches0)
    {
      caches, styles, writes := caches0, styles0, [];
      var i := 0;
      while i < |caches0|
        invariant 0 <= i <= |caches0| == |caches| == |styles|
        invariant forall j :: 0 <= j < i ==> caches[j] == NextCache(f, caches0[j])
        invariant forall j :: 0 <= j < i ==> styles[j] == NextStyle(f, caches0[j], styles0[j])
        invariant forall j :: i <= j < |caches0| ==> caches[j] == caches0[j] && styles[j] == styles0[j]
        invariant writes == TickWrites(f, caches0[..i])
      {
        TickWritesStep(f, caches0, i);
        var cache, elementStyle, elementWrites := WalkProperties(f, i, caches[i], styles[i]);
        caches := caches[i := cache];
        styles := styles[i := elementStyle];
        writes := writes + elementWrites;
        i := i + 1;
      }
      assert caches0[..i] == caches0;
    }

    /** `updateStyle`: every controlled object's cache and style move to the
        tick's result, and the writes are those of `TickWrites`. */
    method UpdateStyle()
      requires Valid()
      modifies this`coState, this`style, this`log
      ensures Valid()
      ensures forall i :: 0 <= i < |co| ==> coState[i] == NextCache(CurrentFrame(), old(coState[i]))
      ensures forall i :: 0 <= i < |co| ==> style[i] == NextStyle(CurrentFrame(), old(coState[i]), old(style[i]))
      ensures log == old(log) + TickWrites(CurrentFrame(), old(coState))
    {
      var f := CurrentFrame();
      var caches, styles, writes := WalkElements(f, coState, style);
      coState, style, log := caches, styles, log + writes;
      assert CurrentFrame() == f;
    }

    /** `update`: one tick of the interval. */
    method Update(snap: Snapshot)
      requires Valid() && Resolves(btp, snap) && Resolves(etp, snap)
      modifies this`state, this`ratio, this`intervalActive, this`coState, this`style, this`log
      ensures Valid()
      ensures state == StateAt(btp, etp, snap) && ratio == Ratio(state, btp, etp, snap)
      ensures intervalActive == (old(intervalActive) && !(killOnEnd && state == Done))
      ensures forall i :: 0 <= i < |co| ==> coState[i] == NextCache(CurrentFrame(), old(coState[i]))
      ensures forall i :: 0 <= i < |co| ==> style[i] == NextStyle(CurrentFrame(), old(coState[i]), old(style[i]))
      ensures log == old(log) + TickWrites(CurrentFrame(), old(coState))
    {
      CheckState(snap);
      CheckRatio(snap);
      UpdateStyle();
    }
  }
}
