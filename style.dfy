/** What `updateStyle` of the later revision computes on one tick, as
    functions of what it reads: the value it compares with each element's
    cache entry, the value it writes, which writes happen, and the cache
    afterwards. The class in module Animation is proved against these. */
module Style {
  import opened Objects
  import opened Values
  import opened Triggers

  /** Everything `updateStyle` reads besides the caches: the state, the
      ratio and the beginning and ending style states (ABS and AES). */
  datatype Frame = Frame(state: State, ratio: real, abs: Obj<PropValue>, aes: Obj<PropValue>)

  /** ABS and AES as the constructor accepted them. */
  ghost predicate FrameOk(f: Frame) {
    WellKinded(f.abs) && WellKinded(f.aes) && f.abs.fields.Keys == f.aes.fields.Keys
  }

  /** The keys `updateStyle` walks, in order: ABS's in state 0, AES's otherwise. */
  function Walk(f: Frame): seq<string> {
    if f.state == Inactive then f.abs.keys else f.aes.keys
  }

  lemma WalkCoversKeys(f: Frame)
    requires FrameOk(f)
    ensures Distinct(Walk(f))
    ensures forall k :: k in Walk(f) <==> k in f.abs.fields
  {
  }

  /** The state-1 value of one property: each colour channel, the
      magnitude of a positional value, or the number, interpolated
      independently; a positional value takes ABS's unit, else AES's,
      else "px". */
  function Interpolate(prop: string, b: PropValue, e: PropValue, t: real): PropValue
    requires HasKind(b, KindOf(prop)) && HasKind(e, KindOf(prop))
  {
    match KindOf(prop)
    case ColorKind =>
      Color(Lerp(b.red, e.red, t), Lerp(b.green, e.green, t), Lerp(b.blue, e.blue, t), Lerp(b.alpha, e.alpha, t))
    case PositionKind =>
      Position(Lerp(b.mag, e.mag, t), OrPx(if UnitOf(b) != "" then UnitOf(b) else UnitOf(e)))
    case ScalarKind =>
      Scalar(Lerp(b.num, e.num, t))
  }

  /** States 0 and 2: a positional value without a unit gets the other
      state's unit, or "px". */
  function WithUnit(prop: string, v: PropValue, other: PropValue): PropValue {
    if KindOf(prop) == PositionKind && v.Position? && v.unit == "" then Position(v.mag, OrPx(UnitOf(other)))
    else v
  }

  /** The value `updateStyle` compares with the cache (`currentProp` at the
      `stateChange` test): the raw ABS or AES value in states 0 and 2, the
      interpolated value in state 1. */
  function Probe(f: Frame, prop: string): PropValue
    requires FrameOk(f) && prop in f.abs.fields
  {
    match f.state
    case Inactive => f.abs.fields[prop]
    case Done => f.aes.fields[prop]
    case Active => Interpolate(prop, f.abs.fields[prop], f.aes.fields[prop], f.ratio)
  }

  /** The value `updateStyle` writes to the element and records in the cache. */
  function Target(f: Frame, prop: string): PropValue
    requires FrameOk(f) && prop in f.abs.fields
  {
    match f.state
    case Inactive => WithUnit(prop, f.abs.fields[prop], f.aes.fields[prop])
    case Done => WithUnit(prop, f.aes.fields[prop], f.abs.fields[prop])
    case Active => Probe(f, prop)
  }

  /** Whether `updateStyle` writes `prop` of an element whose cache holds
      `cached`: its `stateChange` test, which by `DiffersIffUnequal` is
      inequality of the value compared and the cached value. */
  predicate Changed(f: Frame, prop: string, cached: PropValue)
    requires FrameOk(f) && prop in f.abs.fields
  {
    Probe(f, prop) != cached
  }

  /** One assignment `element.style[prop] = value` to the element at
      `element` in the controlled objects. For a colour the source writes
      the `rgba(...)` text formatted from `value`. */
  datatype StyleWrite = StyleWrite(element: nat, prop: string, value: PropValue)

  /** The writes to element `i` while walking `props` from position `j`
      on, given the values `w` it assigns by property. */
  function WritesFrom(i: nat, props: seq<string>, j: nat, w: map<string, PropValue>): seq<StyleWrite>
    decreases |props| - j
  {
    if j >= |props| then []
    else (if props[j] in w then [StyleWrite(i, props[j], w[props[j]])] else []) + WritesFrom(i, props, j + 1, w)
  }

  /** The writes to element `i`, whose cache is `cache`, while walking `props`. */
  function ElementWrites(f: Frame, i: nat, props: seq<string>, cache: map<string, PropValue>): seq<StyleWrite>
    requires FrameOk(f) && cache.Keys == f.abs.fields.Keys
  {
    WritesFrom(i, props, 0, Writes(f, cache))
  }

  ghost predicate CachesOk(f: Frame, caches: seq<map<string, PropValue>>) {
    forall i :: 0 <= i < |caches| ==> caches[i].Keys == f.abs.fields.Keys
  }

  /** The writes of one `updateStyle`, element after element, over the
      caches it starts from. */
  function TickWrites(f: Frame, caches: seq<map<string, PropValue>>): seq<StyleWrite>
    requires FrameOk(f) && CachesOk(f, caches)
  {
    if caches == [] then []
    else
      TickWrites(f, caches[..|caches| - 1]) + ElementWrites(f, |caches| - 1, Walk(f), caches[|caches| - 1])
  }

  /** The properties of an element whose cache is `cache` that one
      `updateStyle` assigns, with the values it assigns. */
  function Writes(f: Frame, cache: map<string, PropValue>): map<string, PropValue>
    requires FrameOk(f) && cache.Keys == f.abs.fields.Keys
  {
    map k | k in cache && Changed(f, k, cache[k]) :: Target(f, k)
  }

  /** An element's cache after `updateStyle`. */
  function NextCache(f: Frame, cache: map<string, PropValue>): map<string, PropValue>
    requires FrameOk(f) && cache.Keys == f.abs.fields.Keys
  {
    cache + Writes(f, cache)
  }

  /** An element's style after `updateStyle`: only the animated properties
      that are written change. */
  function NextStyle(f: Frame, cache: map<string, PropValue>, style: map<string, PropValue>): map<string, PropValue>
    requires FrameOk(f) && cache.Keys == f.abs.fields.Keys
  {
    style + Writes(f, cache)
  }

  /** A tick keeps the animated properties of the cache and of the style. */
  lemma NextKeys(f: Frame, cache: map<string, PropValue>, style: map<string, PropValue>)
    requires FrameOk(f) && cache.Keys == f.abs.fields.Keys
    ensures NextCache(f, cache).Keys == cache.Keys
    ensures style.Keys <= NextStyle(f, cache, style).Keys <= style.Keys + cache.Keys
  {
  }

  /** `m` once the first `n` keys of `props` have been reached and those
      that `w` assigns have been assigned: an element's cache or style part
      way through the walk. */
  function Overlay(m: map<string, PropValue>, w: map<string, PropValue>, props: seq<string>, n: nat): map<string, PropValue>
    requires n <= |props|
  {
    if n == 0 then m
    else
      var prev := Overlay(m, w, props, n - 1);
      if props[n - 1] in w then prev[props[n - 1] := w[props[n - 1]]] else prev
  }

  /** Key by key: an entry holds `w`'s value once its key has been reached,
      and `m`'s before. */
  lemma {:induction false} OverlayAt(m: map<string, PropValue>, w: map<string, PropValue>, props: seq<string>, n: nat)
    requires n <= |props| && w.Keys <= m.Keys
    ensures Overlay(m, w, props, n) == map k | k in m :: if k in props[..n] && k in w then w[k] else m[k]
  {
    if n > 0 {
      OverlayAt(m, w, props, n - 1);
      assert props[..n] == props[..n - 1] + [props[n - 1]];
    }
  }

  /** A key not yet reached still holds its value in `m`. */
  lemma OverlayFresh(m: map<string, PropValue>, w: map<string, PropValue>, props: seq<string>, n: nat)
    requires n < |props| && w.Keys <= m.Keys && props[n] in m && props[n] !in props[..n]
    ensures props[n] in Overlay(m, w, props, n) && Overlay(m, w, props, n)[props[n]] == m[props[n]]
  {
    OverlayAt(m, w, props, n);
  }

  /** Once every key of `w` has been reached, the result is `m + w`. */
  lemma OverlayEnds(m: map<string, PropValue>, w: map<string, PropValue>, props: seq<string>)
    requires w.Keys <= m.Keys && forall k :: k in w ==> k in props
    ensures Overlay(m, w, props, |props|) == m + w
  {
    OverlayAt(m, w, props, |props|);
    assert props[..|props|] == props;
  }

  // ---------------------------------------------------------------------
  // Which writes happen

  /** The key the walk reaches at step `j` is an animated property it has
      not handled before. */
  lemma WalkFresh(f: Frame, j: nat)
    requires FrameOk(f) && j < |Walk(f)|
    ensures Walk(f)[j] in f.abs.fields && Walk(f)[j] !in Walk(f)[..j]
  {
    WalkCoversKeys(f);
    DistinctAt(Walk(f), j);
  }

  /** Before the walk an element's cache and style are as they were; after
      it they are the tick's result. */
  lemma WalkEnds(f: Frame, c0: map<string, PropValue>, s0: map<string, PropValue>)
    requires FrameOk(f) && c0.Keys == f.abs.fields.Keys && c0.Keys <= s0.Keys
    ensures Overlay(c0, Writes(f, c0), Walk(f), |Walk(f)|) == NextCache(f, c0)
    ensures Overlay(s0, Writes(f, c0), Walk(f), |Walk(f)|) == NextStyle(f, c0, s0)
  {
    WalkCoversKeys(f);
    OverlayEnds(c0, Writes(f, c0), Walk(f));
    OverlayEnds(s0, Writes(f, c0), Walk(f));
  }

  /** Step `j` of the walk over an element's properties: from the cache,
      the style and the writes of the steps before it, handling property
      `p` as `updateStyle` does (assigning and recording `Target(f, p)`
      exactly when it is changed) leads to those of the steps up to `j`. */
  lemma WalkStep(f: Frame, i: nat, c0: map<string, PropValue>, s0: map<string, PropValue>, j: nat,
                 cache: map<string, PropValue>, style: map<string, PropValue>, writes: seq<StyleWrite>,
                 written: bool, cache': map<string, PropValue>, style': map<string, PropValue>, writes': seq<StyleWrite>)
    requires FrameOk(f) && c0.Keys == f.abs.fields.Keys && c0.Keys <= s0.Keys && j < |Walk(f)|
    requires cache == Overlay(c0, Writes(f, c0), Walk(f), j) && style == Overlay(s0, Writes(f, c0), Walk(f), j)
    requires WritesFrom(i, Walk(f), 0, Writes(f, c0)) == writes + WritesFrom(i, Walk(f), j, Writes(f, c0))
    requires Walk(f)[j] in f.abs.fields && Walk(f)[j] in cache
    requires var p := Walk(f)[j];
             && written == Changed(f, p, cache[p])
             && cache' == (if written then cache[p := Target(f, p)] else cache)
             && style' == (if written then style[p := Target(f, p)] else style)
             && writes' == (if written then writes + [StyleWrite(i, p, cache'[p])] else writes)
    ensures cache' == Overlay(c0, Writes(f, c0), Walk(f), j + 1)
    ensures style' == Overlay(s0, Writes(f, c0), Walk(f), j + 1)
    ensures WritesFrom(i, Walk(f), 0, Writes(f, c0)) == writes' + WritesFrom(i, Walk(f), j + 1, Writes(f, c0))
  {
    var props, p, w := Walk(f), Walk(f)[j], Writes(f, c0);
    WalkFresh(f, j);
    OverlayFresh(c0, w, props, j);
    OverlayFresh(s0, w, props, j);
    NextCacheHoldsWritten(f, c0, p);
    var rest := WritesFrom(i, props, j + 1, w);
    if written {
      assert WritesFrom(i, props, j, w) == [StyleWrite(i, p, w[p])] + rest;
      AppendAssociates(writes, [StyleWrite(i, p, w[p])], rest);
    } else {
      assert WritesFrom(i, props, j, w) == rest;
    }
  }

  lemma AppendAssociates(a: seq<StyleWrite>, b: seq<StyleWrite>, c: seq<StyleWrite>)
    ensures a + (b + c) == (a + b) + c
  {
  }

  lemma AppendEmpty(a: seq<StyleWrite>)
    ensures [] + a == a && a + [] == a
  {
  }

  /** One more element in `updateStyle`'s `forEach` appends its writes. */
  lemma TickWritesStep(f: Frame, caches: seq<map<string, PropValue>>, n: nat)
    requires FrameOk(f) && CachesOk(f, caches) && n < |caches|
    ensures CachesOk(f, caches[..n]) && CachesOk(f, caches[..n + 1])
    ensures TickWrites(f, caches[..n + 1]) == TickWrites(f, caches[..n]) + ElementWrites(f, n, Walk(f), caches[n])
  {
    assert caches[..n + 1][..n] == caches[..n];
  }

  lemma {:induction false} WritesFromExactly(i: nat, props: seq<string>, j: nat, w: map<string, PropValue>, x: StyleWrite)
    requires j <= |props|
    ensures x in WritesFrom(i, props, j, w)
            <==> x.element == i && x.prop in props[j..] && x.prop in w && x.value == w[x.prop]
    decreases |props| - j
  {
    if j < |props| {
      WritesFromExactly(i, props, j + 1, w, x);
      assert forall k :: k in props[j..] <==> k == props[j] || k in props[j + 1..];
    }
  }

  lemma ElementWritesExactly(f: Frame, i: nat, props: seq<string>, cache: map<string, PropValue>, w: StyleWrite)
    requires FrameOk(f) && cache.Keys == f.abs.fields.Keys
    ensures w in ElementWrites(f, i, props, cache)
            <==> w.element == i && w.prop in props && w.prop in cache
                 && Changed(f, w.prop, cache[w.prop]) && w.value == Target(f, w.prop)
  {
    WritesFromExactly(i, props, 0, Writes(f, cache), w);
    assert props[0..] == props;
  }

  /** Cache discipline: a tick writes property `p` of element `i` exactly
      when the value compared differs from `caches[i][p]`, and what it
      writes is the state's target value. */
  lemma {:induction false} TickWritesExactly(f: Frame, caches: seq<map<string, PropValue>>, w: StyleWrite)
    requires FrameOk(f) && CachesOk(f, caches)
    ensures w in TickWrites(f, caches)
            <==> w.element < |caches| && w.prop in f.abs.fields
                 && Changed(f, w.prop, caches[w.element][w.prop]) && w.value == Target(f, w.prop)
  {
    WalkCoversKeys(f);
    if caches != [] {
      var n := |caches| - 1;
      TickWritesExactly(f, caches[..n], w);
      ElementWritesExactly(f, n, Walk(f), caches[n], w);
    }
  }

  /** After a tick the cache holds, for every property, the value last
      written, or its old value when nothing was written. */
  lemma NextCacheHoldsWritten(f: Frame, cache: map<string, PropValue>, prop: string)
    requires FrameOk(f) && cache.Keys == f.abs.fields.Keys && prop in cache
    ensures prop in Writes(f, cache) <==> Changed(f, prop, cache[prop])
    ensures Changed(f, prop, cache[prop]) ==> NextCache(f, cache)[prop] == Writes(f, cache)[prop] == Target(f, prop)
    ensures !Changed(f, prop, cache[prop]) ==> NextCache(f, cache)[prop] == cache[prop] == Probe(f, prop)
  {
  }

  // ---------------------------------------------------------------------
  // Repeating a tick

  /** The value compared is the value written: always in state 1, and in
      states 0 and 2 unless a positional value lacks its unit. */
  ghost predicate Settled(f: Frame)
    requires FrameOk(f)
  {
    forall k :: k in f.abs.fields ==> Probe(f, k) == Target(f, k)
  }

  lemma SettledCases(f: Frame)
    requires FrameOk(f)
    ensures f.state == Active ==> Settled(f)
    ensures Settled(f)
            <==> (f.state == Active
                  || forall k :: k in f.abs.fields && KindOf(k) == PositionKind ==> UnitOf(Probe(f, k)) != "")
  {
  }

  /** Repeating a settled tick writes nothing: every cache entry then
      already holds the value compared. */
  lemma {:induction false} SettledTickIsQuiet(f: Frame, caches: seq<map<string, PropValue>>, next: seq<map<string, PropValue>>)
    requires FrameOk(f) && CachesOk(f, caches) && Settled(f)
    requires |next| == |caches|
    requires forall i :: 0 <= i < |caches| ==> next[i] == NextCache(f, caches[i])
    ensures CachesOk(f, next)
    ensures TickWrites(f, next) == []
  {
    assert CachesOk(f, next);
    if TickWrites(f, next) != [] {
      var w := TickWrites(f, next)[0];
      TickWritesExactly(f, next, w);
      var c := caches[w.element];
      NextCacheHoldsWritten(f, c, w.prop);
      assert false;
    }
  }

  /** As written, states 0 and 2 compare the raw value before its unit is
      appended: once a unitless positional value has been written with its
      unit, the cache never matches it again, so it is written on every tick. */
  lemma UnitlessPositionAlwaysRewritten(f: Frame, prop: string)
    requires FrameOk(f) && prop in f.abs.fields
    requires f.state != Active && KindOf(prop) == PositionKind && UnitOf(Probe(f, prop)) == ""
    ensures Changed(f, prop, Target(f, prop))
  {
  }

  // ---------------------------------------------------------------------
  // The values written

  /** Every positional write carries a unit: in states 0 and 1 ABS's unit,
      else AES's, else "px"; in state 2 AES's, else ABS's, else "px". */
  lemma PositionUnits(f: Frame, prop: string)
    requires FrameOk(f) && prop in f.abs.fields && KindOf(prop) == PositionKind
    ensures Target(f, prop).Position?
    ensures var b, e := UnitOf(f.abs.fields[prop]), UnitOf(f.aes.fields[prop]);
            UnitOf(Target(f, prop))
            == if f.state == Done then (if e != "" then e else if b != "" then b else "px")
               else (if b != "" then b else if e != "" then e else "px")
    ensures UnitOf(Target(f, prop)) != ""
  {
  }

  /** States 0 and 2 write the ABS and AES values verbatim, except that a
      unitless positional value gains a unit. */
  lemma EndStatesVerbatim(f: Frame, prop: string)
    requires FrameOk(f) && prop in f.abs.fields && f.state != Active
    ensures var v := if f.state == Inactive then f.abs.fields[prop] else f.aes.fields[prop];
            Target(f, prop) == v || (KindOf(prop) == PositionKind && UnitOf(v) == "" && Target(f, prop).mag == v.mag)
  {
  }

  /** In state 1 every number written lies between its ABS and AES values:
      each colour channel, each positional magnitude and each scalar. */
  lemma InterpolationBetween(f: Frame, prop: string)
    requires FrameOk(f) && prop in f.abs.fields && f.state == Active && 0.0 <= f.ratio <= 1.0
    ensures var b, e, v := f.abs.fields[prop], f.aes.fields[prop], Target(f, prop);
            match KindOf(prop)
            case ColorKind =>
              Within(v.red, b.red, e.red) && Within(v.green, b.green, e.green)
              && Within(v.blue, b.blue, e.blue) && Within(v.alpha, b.alpha, e.alpha)
            case PositionKind => Within(v.mag, b.mag, e.mag)
            case ScalarKind => Within(v.num, b.num, e.num)
  {
    var b, e, t := f.abs.fields[prop], f.aes.fields[prop], f.ratio;
    match KindOf(prop)
    case ColorKind =>
      LerpBetween(b.red, e.red, t);
      LerpBetween(b.green, e.green, t);
      LerpBetween(b.blue, e.blue, t);
      LerpBetween(b.alpha, e.alpha, t);
    case PositionKind =>
      LerpBetween(b.mag, e.mag, t);
    case ScalarKind =>
      LerpBetween(b.num, e.num, t);
  }

  predicate Within(x: real, a: real, b: real) {
    (a <= x <= b) || (b <= x <= a)
  }

  /** Ratio 0 in state 1 writes exactly what state 0 writes. */
  lemma ActiveAtZeroIsBeginning(f: Frame, prop: string)
    requires FrameOk(f) && prop in f.abs.fields
    ensures Target(f.(state := Active, ratio := 0.0), prop) == Target(f.(state := Inactive), prop)
  {
    var b, e := f.abs.fields[prop], f.aes.fields[prop];
    if KindOf(prop) == PositionKind {
      LerpEnds(b.mag, e.mag);
    }
  }

  /** Ratio 1 in state 1 would write what state 2 writes, except for a
      positional value whose ABS and AES carry two different units: state 1
      keeps ABS's unit where state 2 takes AES's. */
  lemma ActiveAtOneIsEnding(f: Frame, prop: string)
    requires FrameOk(f) && prop in f.abs.fields
    ensures var b, e := UnitOf(f.abs.fields[prop]), UnitOf(f.aes.fields[prop]);
            Target(f.(state := Active, ratio := 1.0), prop) == Target(f.(state := Done), prop)
            <==> KindOf(prop) != PositionKind || b == "" || e == "" || b == e
  {
    var b, e := f.abs.fields[prop], f.aes.fields[prop];
    match KindOf(prop)
    case PositionKind => LerpEnds(b.mag, e.mag);
    case ScalarKind => LerpEnds(b.num, e.num);
    case ColorKind =>
      LerpEnds(b.red, e.red);
      LerpEnds(b.green, e.green);
      LerpEnds(b.blue, e.blue);
      LerpEnds(b.alpha, e.alpha);
  }

  /** Colour interpolation at ratio 0.5 from opaque black to transparent
      white: channels 127.5 and alpha 0.5, before formatting. */
  lemma HalfwayColor()
    ensures Interpolate("color", Color(0.0, 0.0, 0.0, 1.0), Color(255.0, 255.0, 255.0, 0.0), 0.5)
            == Color(127.5, 127.5, 127.5, 0.5)
  {
  }

  /** A unitless beginning value and an ending value in "px" interpolate in "px". */
  lemma UnitFromEnding()
    ensures Interpolate("left", Position(10.0, ""), Position(20.0, "px"), 0.5) == Position(15.0, "px")
  {
  }
}
