/** The values the animator moves between: numbers, positional strings such
    as "10px" and colour records `{red, green, blue, alpha}`, how a property
    name decides which of them it holds, and the per-value helpers of the
    later revision (`extractUnit` on a value, `areEquivalent`'s meaning,
    the `stateChange` test). */
module Values {
  import opened Objects

  /** A style value. `Position(mag, unit)` stands for the string made of a
      canonical numeral for `mag` followed by `unit` ("10px", "-2.5em");
      with `unit == ""` it stands for a unitless number or numeral (10, "10"),
      which the animator treats alike. */
  datatype PropValue =
    | Scalar(num: real)
    | Position(mag: real, unit: string)
    | Color(red: real, green: real, blue: real, alpha: real)

  /** The three ways `updateStyle` treats a property, chosen by its name. */
  datatype Kind = ColorKind | PositionKind | ScalarKind

  function KindOf(prop: string): Kind {
    if prop == "backgroundColor" || prop == "color" then ColorKind
    else if prop == "left" || prop == "right" || prop == "top" || prop == "bottom" then PositionKind
    else ScalarKind
  }

  predicate HasKind(v: PropValue, k: Kind) {
    match k
    case ColorKind => v.Color?
    case PositionKind => v.Position?
    case ScalarKind => v.Scalar?
  }

  /** A style-state object (ABS or AES) whose every value has the shape its
      property name calls for. */
  ghost predicate WellKinded(o: Obj<PropValue>) {
    Wf(o) && forall k :: k in o.fields ==> HasKind(o.fields[k], KindOf(k))
  }

  /** `extractUnit` applied to a value: a number or a colour object has no
      `substr`, so its unit is ""; a positional string yields its suffix
      (the text-level computation is `Units.ExtractUnit`). */
  function UnitOf(v: PropValue): string {
    if v.Position? then v.unit else ""
  }

  /** `unit || "px"`: the empty string is falsy in JavaScript. */
  function OrPx(unit: string): (u: string)
    ensures u != ""
    ensures unit != "" ==> u == unit
  {
    if unit != "" then unit else "px"
  }

  /** `a + ratio * (b - a)`, the interpolation every numeric quantity uses. */
  function Lerp(a: real, b: real, t: real): real {
    a + t * (b - a)
  }

  lemma LerpEnds(a: real, b: real)
    ensures Lerp(a, b, 0.0) == a && Lerp(a, b, 1.0) == b
  {
  }

  /** For a ratio in [0, 1] the interpolated value lies between the two ends. */
  lemma LerpBetween(a: real, b: real, t: real)
    requires 0.0 <= t <= 1.0
    ensures a <= b ==> a <= Lerp(a, b, t) <= b
    ensures b <= a ==> b <= Lerp(a, b, t) <= a
  {
    var d := b - a;
    assert Lerp(a, b, t) == a + t * d;
    if a <= b {
      ScaledBetween(t, d);
    } else {
      ScaledBetween(t, -d);
      NegatedProduct(t, d);
      assert d <= t * d <= 0.0;
    }
  }

  /** A fraction of a non-negative distance is no longer than the distance. */
  lemma ScaledBetween(t: real, d: real)
    requires 0.0 <= t <= 1.0 && 0.0 <= d
    ensures 0.0 <= t * d <= d
  {
    MulMonotone(t, 1.0, d);
    MulMonotone(0.0, t, d);
  }

  lemma NegatedProduct(t: real, d: real)
    ensures t * -d == -(t * d)
  {
  }

  lemma MulMonotone(x: real, y: real, d: real)
    requires x <= y && 0.0 <= d
    ensures x * d <= y * d
  {
    var e := y - x;
    assert y * d == x * d + e * d;
    assert 0.0 <= e * d;
  }

  /** `Object.getOwnPropertyNames` and property access on a value: a colour
      record has the four channel properties; a number has none, and a
      string's own properties (its indices and `length`) hold no channel
      name, so for `areEquivalent` it behaves as an object without them. */
  function OwnProps(v: PropValue): Obj<real> {
    if v.Color? then
      Obj(["red", "green", "blue", "alpha"],
          map["red" := v.red, "green" := v.green, "blue" := v.blue, "alpha" := v.alpha])
    else
      Obj([], map[])
  }

  /** What `areEquivalent(o1, o2)` decides: same number of own properties,
      and every property of `o1` reads the same in `o2`. */
  predicate Equivalent(o1: Obj<real>, o2: Obj<real>) {
    |o1.keys| == |o2.keys|
    && forall i :: 0 <= i < |o1.keys| ==> Get(o1, o1.keys[i]) == Get(o2, o1.keys[i])
  }

  /** For well-formed objects, equivalence is equality of their contents. */
  lemma EquivalentIffSameFields(o1: Obj<real>, o2: Obj<real>)
    requires Wf(o1) && Wf(o2)
    ensures Equivalent(o1, o2) <==> o1.fields == o2.fields
  {
    KeyListsMatch(o1, o2);
    if Equivalent(o1, o2) {
      forall k | k in o1.keys ensures k in o2.fields && o2.fields[k] == o1.fields[k] {
        var i :| 0 <= i < |o1.keys| && o1.keys[i] == k;
        assert Get(o1, k) == Get(o2, k);
      }
      assert o1.fields.Keys == o2.fields.Keys;
    }
  }

  /** `stateChange` in `updateStyle`: an object is compared with
      `areEquivalent`, anything else with `!==`. */
  predicate Differs(current: PropValue, cached: PropValue) {
    if current.Color? then !Equivalent(OwnProps(current), OwnProps(cached))
    else current != cached
  }

  /** The change test is exactly value inequality: a colour record is
      equivalent only to a colour record with the same four channels. */
  lemma DiffersIffUnequal(current: PropValue, cached: PropValue)
    ensures Differs(current, cached) <==> current != cached
  {
    if current.Color? {
      var o1, o2 := OwnProps(current), OwnProps(cached);
      if cached.Color? {
        assert Wf(o1) && Wf(o2);
        EquivalentIffSameFields(o1, o2);
        if o1.fields == o2.fields {
          assert o1.fields["red"] == o2.fields["red"];
          assert o1.fields["green"] == o2.fields["green"];
          assert o1.fields["blue"] == o2.fields["blue"];
          assert o1.fields["alpha"] == o2.fields["alpha"];
        }
      } else {
        assert |o1.keys| != |o2.keys|;
      }
    }
  }

  lemma EquivalentToItself(o: Obj<real>)
    ensures Equivalent(o, o)
  {
  }
}
