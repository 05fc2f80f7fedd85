# ScrollingAnimation in Dafny

`ScrollingAnimation` is a scroll-driven style animator for web pages. It is
given one or more controlled elements, a beginning style state (ABS), an
ending style state (AES), and two triggering points: a begin trigger (BTP)
and an end trigger (ETP). Each trigger is an absolute page offset or a
reference element. On every timer tick the animator does three things:

- It classifies the scroll position into state 0 (Inactive), 1 (Active) or
  2 (Done).
- It computes a ratio: 0 in state 0, 1 in state 2, and in state 1 the
  fraction of the way from the begin trigger to the end trigger.
- In the later revision, it writes interpolated styles. A per-element
  cache (`COState`) makes sure a property is assigned only when its value
  changes.

The project models both revisions of the animator.

- **`Objects`** (`objects.dfy`): JavaScript objects as an ordered key list
  plus a map. Holds the counting argument both `validateAnimStates`
  versions rely on.
- **`Values`** (`values.dfy`): scalars, positional values with a unit, and
  RGBA colour records; the interpolation `a + ratio * (b - a)`; the
  `stateChange` test built on `areEquivalent`.
- **`Units`** (`units.dfy`): `extractUnit` on the text of a value.
- **`Triggers`** (`triggers.dfy`): the three states, trigger normalisation,
  the page snapshot that one tick reads, and the classification rule
  (end trigger first).
- **`Style`** (`style.dfy`): what one `updateStyle` computes, as functions:
  - the value compared with the cache and the value written;
  - the writes made, element by element and property by property;
  - each cache and each style afterwards;
  - the facts about them (cache discipline, units, bounds, quiet repeats).
- **`Animation`** (`animation.dfy`): the later revision
  (`docs/res/scrollinganimation.js`) as a class with its fields. It holds
  the constructor, `checkState`, `checkRatio`, the loops of `updateStyle`
  (proved against `Style`) and `update`. `validateAnimStates` and
  `areEquivalent` are also here.
- **`AnimationV1`** (`animation_v1.dfy`): the earlier revision
  (`src/scrollinganimation.js`). It covers the loop-based
  `validateAnimStates`, the `checkState` that ignores `posY` for element
  triggers, and the `checkRatio` that branches on the begin trigger alone.
  It also relates this revision to the later one.

The page enters the model as a value rather than through DOM calls. A
`Snapshot` holds the scroll offset and the current `getBoundingClientRect().top`
of each element by id. Each element's `style` is a map from property to
value. Every style assignment is appended to a ghost log, so "written only
on change" and "nothing else is written" can be stated.

## Model

| member | source | states |
|---|---|---|
| Objects.KeyListsMatch | docs/res/scrollinganimation.js:241-254 | Two well-formed objects have equal key sets exactly when the second lists no more keys than the first and holds every key the first lists; equal key sets mean equal key counts. |
| Animation.ValidateAnimStates | docs/res/scrollinganimation.js:241-254 | True exactly when ABS and AES have the same key set. |
| AnimationV1.ValidateAnimStates | src/scrollinganimation.js:57-75 | The counting loops, with an early return on the first key of the first object that the second lacks, return true exactly when the two key sets are equal. |
| Animation.AreEquivalent | docs/res/scrollinganimation.js:61-78 | The index loop with early returns yields true exactly when the own-property counts agree and every property of the first reads the same in the second. |
| Values.EquivalentIffSameFields | docs/res/scrollinganimation.js:61-78 | For well-formed objects, `areEquivalent` holds exactly when their contents are equal. |
| Values.EquivalentToItself | docs/res/scrollinganimation.js:61-78 | Every object is equivalent to itself. |
| Values.DiffersIffUnequal | docs/res/scrollinganimation.js:91-92 | The `stateChange` test (`!areEquivalent` for colour objects, `!==` otherwise) holds exactly when the computed value differs from the cached one. |
| Triggers.NormalizeTrigger | docs/res/scrollinganimation.js:28-29 | With the `{id: null, posY: 0}` defaults, a trigger refers to an element exactly when its id is a non-empty string, and a missing or null `posY` becomes 0. |
| Triggers.ClassifyCases | docs/res/scrollinganimation.js:287-319 | The state is 2 exactly when the end trigger is crossed, even if the begin trigger is not; 1 exactly when only the begin trigger is crossed; 0 when neither is. |
| Animation.CrossedIffReached | docs/res/scrollinganimation.js:290-319 | An element trigger counts as crossed when `top <= -posY` and an absolute one when `pageYOffset >= posY`; both mean the scroll offset has reached the trigger's page position. |
| Animation.ActiveBetweenTriggers | docs/res/scrollinganimation.js:257-319 | In state 1, on the snapshot `checkState` used, BTPPos <= pageYOffset < ETPPos, so the ratio's divisor is positive. |
| Animation.Ratio | docs/res/scrollinganimation.js:257-283 | The ratio is 0 in state 0 and 1 in state 2. In state 1 it lies in [0, 1) and is exactly the fraction at which the scroll offset sits between the two trigger positions. |
| Animation.AbsoluteTriggerExample | docs/res/scrollinganimation.js:257-319 | Triggers at 100 and 300: scroll 50 gives state 0 and ratio 0; 100 gives state 1 and ratio 0; 200 gives state 1 and ratio 0.5; 300 and 400 give state 2 and ratio 1. |
| Animation.ScrollingAnimation.constructor | docs/res/scrollinganimation.js:1-46 | On unmatched keys, the error is logged and nothing after it is set up (no interval). Otherwise each cache holds the element's initial style for every ABS key, the triggers are normalised, state and ratio are 0, `killOnEnd` defaults to false, and the interval runs. |
| Animation.ScrollingAnimation.CheckState | docs/res/scrollinganimation.js:287-324 | The state comes from the snapshot alone (`StateAt`). The interval is cleared exactly when `killOnEnd` is set and the state is 2. |
| Animation.ScrollingAnimation.CheckRatio | docs/res/scrollinganimation.js:257-284 | The ratio field becomes `Ratio` of the state and the snapshot. |
| Animation.ScrollingAnimation.UpdateProperty | docs/res/scrollinganimation.js:82-221 | One property of one element: it is written exactly when the compared value (raw ABS/AES value, or interpolated value in state 1) differs from the cache entry. The value written to the style and the cache is the state's target value, with the unit filled in. Nothing else changes. |
| Animation.ScrollingAnimation.WalkProperties | docs/res/scrollinganimation.js:162-221 | The `for-in` walk over one element (ABS keys in state 0, AES keys otherwise) leaves the cache at `NextCache`, the style at `NextStyle`, and makes exactly the writes of `ElementWrites`, in walk order. |
| Animation.ScrollingAnimation.WalkElements | docs/res/scrollinganimation.js:81-223 | The `forEach` over the controlled objects moves every cache and every style to its next value and makes the writes of `TickWrites`, element after element. |
| Animation.ScrollingAnimation.UpdateStyle | docs/res/scrollinganimation.js:81-223 | Every cache and style moves to the tick's result, the writes appended to the log are those of `TickWrites`, and the class invariant holds. |
| Animation.ScrollingAnimation.Update | docs/res/scrollinganimation.js:49-53 | One tick runs `checkState`, `checkRatio` and `updateStyle` in order on one snapshot. |
| Style.WalkCoversKeys | docs/res/scrollinganimation.js:84-87 | The keys walked (ABS's in state 0, AES's otherwise) are distinct and are exactly the animated properties. |
| Style.NextKeys | docs/res/scrollinganimation.js:117-118 | A tick keeps each cache's key set, and adds to a style only animated properties. |
| Style.ElementWritesExactly | docs/res/scrollinganimation.js:84-120 | A write is made to element `i` exactly for each walked property whose compared value differs from the cache entry, with the state's target value. |
| Style.TickWritesExactly | docs/res/scrollinganimation.js:81-223 | Cache discipline over a whole tick: property `p` of element `i` is assigned exactly when the compared value differs from `COState[i][p]`. The value assigned is the target value. No other element or property is written. |
| Style.NextCacheHoldsWritten | docs/res/scrollinganimation.js:204-218 | After the tick the cache holds the value written where a write happened, and otherwise its old value, which equals the compared value. |
| Style.SettledCases | docs/res/scrollinganimation.js:82-221 | The compared value equals the written value in state 1 always. In states 0 and 2 it does so exactly when no positional value lacks its unit. |
| Style.SettledTickIsQuiet | docs/res/scrollinganimation.js:81-223 | When settled, repeating a tick on the caches it produced makes no write at all. |
| Style.UnitlessPositionAlwaysRewritten | docs/res/scrollinganimation.js:103-117 | In states 0 and 2 a unitless positional value is cached with its unit appended, so the cache never matches the raw value again and the property is rewritten on every tick. |
| Style.PositionUnits | docs/res/scrollinganimation.js:103-196 | Every positional write carries a unit. In states 0 and 1 it is ABS's unit, else AES's, else "px"; in state 2 it is AES's, else ABS's, else "px". |
| Style.EndStatesVerbatim | docs/res/scrollinganimation.js:82-159 | States 0 and 2 write the ABS and AES values verbatim; the only exception is a unitless positional value, which gains a unit and keeps its magnitude. |
| Style.InterpolationBetween | docs/res/scrollinganimation.js:171-198 | In state 1 with a ratio in [0, 1], each colour channel, each positional magnitude and each scalar written lies between its ABS and AES values. |
| Style.ActiveAtZeroIsBeginning | docs/res/scrollinganimation.js:171-198 | State 1 at ratio 0 writes exactly what state 0 writes. |
| Style.ActiveAtOneIsEnding | docs/res/scrollinganimation.js:171-198 | State 1 at ratio 1 writes what state 2 writes, exactly unless a positional property has two different non-empty units in ABS and AES. |
| Style.HalfwayColor | docs/res/scrollinganimation.js:172-179 | Colour channels are interpolated independently: opaque black to transparent white at ratio 0.5 gives channels 127.5 and alpha 0.5. |
| Style.UnitFromEnding | docs/res/scrollinganimation.js:185-195 | A unitless ABS value and an AES value in "px" interpolate in "px". |
| Values.OrPx | docs/res/scrollinganimation.js:193-195 | The unit fallback (the unit, or "px" when it is empty) is never empty, and it keeps a non-empty unit. |
| Values.LerpBetween | docs/res/scrollinganimation.js:174-198 | For a ratio in [0, 1], `a + ratio * (b - a)` lies between `a` and `b`. |
| Units.ExtractUnitOfNumeral | docs/res/scrollinganimation.js:226-238 | For any numeral `-?d+(.d+)?` followed by a unit that cannot continue the numeral, `extractUnit` returns exactly that unit. |
| Units.ExtractUnitExamples | docs/res/scrollinganimation.js:226-238 | "10px" gives "px" and "-2.5em" gives "em". |
| Units.ExtractUnitUnitless | docs/res/scrollinganimation.js:226-238 | "0" and "12.75" give "". |
| AnimationV1.Ratio | src/scrollinganimation.js:78-97 | The ratio is 0 in state 0 and 1 in state 2. In state 1 it is the fraction at which the scroll offset sits between the two `posY` fields. With element triggers, once the begin element's top has passed the viewport top, it is the fraction at which the viewport top sits between the two element tops. |
| AnimationV1.RatioInUnitInterval | src/scrollinganimation.js:85-94 | With triggers of one kind, state 1 on the same snapshot makes the divisor positive and the ratio lie in [0, 1). |
| AnimationV1.MixedTriggersLeaveUnitInterval | src/scrollinganimation.js:85-94 | An absolute begin trigger at 100 with an end element whose top is 50, at scroll 150, gives state 1 with divisor -100 and ratio -0.5. The branch is chosen by the begin trigger alone. |
| AnimationV1.RevisionsAgree | src/scrollinganimation.js:100-135 | With absolute triggers the two revisions agree on state and ratio. With element triggers whose `posY` is 0 they agree on state. |
| AnimationV1.ScrollingAnimation.constructor | src/scrollinganimation.js:26-51 | On unmatched keys, the error is logged and no interval is set. Otherwise the ids become an array, the triggers are normalised, state and ratio are 0, and both intervals run. |
| AnimationV1.ScrollingAnimation.CheckState | src/scrollinganimation.js:100-135 | The state comes from the snapshot alone. An element trigger counts as crossed when its top is <= 0, whatever its `posY`. |
| AnimationV1.ScrollingAnimation.CheckRatio | src/scrollinganimation.js:78-97 | The ratio becomes `Ratio` of whatever state the other timer last left. |
| AnimationV1.ScrollingAnimation.Tick | src/scrollinganimation.js:49-50 | Both timers firing in turn on one snapshot, with triggers of one kind, give the snapshot's state and a ratio in [0, 1]. |

## Left out

- The DOM is not modelled: `document.getElementById`, `getBoundingClientRect`, `window.pageYOffset` and the `scrollPolyfix` helpers. They become a `Snapshot` parameter, and a trigger element missing from the page (a TypeError in the source) is excluded by `Resolves`.
- Controlled objects stay ids rather than DOM elements. Two entries naming the same element would share one `style`; the model gives each entry its own style map.
- Timers are not modelled. `setInterval` and `clearInterval` become a boolean field. The earlier revision's two independent timers become separate `CheckState` and `CheckRatio` calls; `CheckRatio` accepts a state left by an earlier snapshot. Other interleavings are not modelled.
- `colorFromObj` formatting is not modelled (`parseInt` of each channel and string concatenation). A colour write records the channel values.
- IEEE-754 doubles are not modelled: numbers are reals. Division by zero, Infinity and NaN are outside the model.
- Animation.ScrollingAnimation.CheckRatio: requires the state to come from the same snapshot, as `update` guarantees. This keeps the divisor positive.
- AnimationV1.ScrollingAnimation.CheckRatio: requires a non-zero divisor in state 1, because division by zero gives Infinity or NaN. It also requires an element end trigger when the begin trigger is an element, because the lookup of a null id finds no element.
- Units.ExtractUnitOfNumeral: covers only canonical numerals. `parseFloat(str).toString().length` on non-canonical text ("010px", "1e2px", "1.50px") measures a different prefix.
- Scalar style values are numbers. The string concatenation a string scalar in ABS would trigger in state 1 is not modelled. A positional value without a unit stands for both a number and a unitless numeric string, which the later revision treats alike.
- The initial `element.style` values are a constructor parameter (`domStyle`). It must hold a value for every ABS key, since the DOM reads an unset property as "".
- `for-in` over inherited prototype properties is not modelled: objects have only their own keys.
- Animation.ScrollingAnimation.WalkProperties and Animation.ScrollingAnimation.WalkElements: work on the frame (state, ratio, ABS, AES) and the caches passed to them as values. `UpdateStyle` stores the new caches and styles once the walk is over. The source assigns each property in place, as the walk goes.
