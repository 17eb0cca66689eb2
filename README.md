# play-list-project: slide navigation model

This project models the `play-list-project` element. It is a slideshow that finds its `play-list-slide` children when it mounts, tracks the current slide `index`, and moves that index with the previous/next buttons, the left/right arrow keys and clickable indicator dots. A jump sent by a dot dispatches a `slide-changed` event.

The model has three modules:

- `Navigation` (`navigation.dfy`) holds the index arithmetic as pure functions:
  - `Next` and `Prev` are the steps of `nextSlide` and `prevSlide`.
  - `ClampIndex` is the clamp that `firstUpdated` applies.
  - `Steps` iterates a step `k` times.
  - Lemmas prove the wrap-around edges, that the two steps are inverses, that the index stays in range, and that `slideCount` steps in either direction come back to the start.
- `Rendering` (`rendering.dfy`) treats `render` and `renderSlide` as a pure projection of `(slides, index)` into panels and indicator dots. It proves that the active marker sits on position `index` only: one panel is active when `index` is a valid position, and none otherwise.
- `PlayList` (`play_list_project.dfy`) holds the class `PlayListProject`:
  - Its fields are `title`, `index`, `slides` and `slideCount`, plus an event log `events` that stands in for `dispatchEvent`.
  - There is one method per JavaScript method, and each has a field-precise `modifies` clause.
  - Three client methods replay the slideshow scenarios: a three-slide cycle, an index of 5 clamped over two slides, and the zero-slide edge.

The model keeps these edge cases of the code:

- With zero slides, `prevSlide` from index 0 sets the index to -1 (`slideCount - 1`). It is not a no-op. `nextSlide` from 0 stays at 0.
- `goToSlide(i)` stores `i` without any range check.
- `firstUpdated` clamps only from above. A negative index is kept.
- A heading attribute is rendered only when it is truthy in JavaScript. A missing attribute and an empty one are both omitted.

## Model

| member | source | states |
|---|---|---|
| `Navigation.Next` | play-list-project.js:68-70 | on a valid index the step stays in `[0, slideCount)` and equals `(index + 1) mod slideCount` |
| `Navigation.Prev` | play-list-project.js:64-66 | on a valid index the step stays in `[0, slideCount)` and equals `(index - 1) mod slideCount` |
| `Navigation.Max` | play-list-project.js:48 | `Math.max`: the result is one of the two arguments and at least both |
| `Navigation.ClampIndex` | play-list-project.js:47-48 | an index below `slideCount` is kept; an index past the end becomes the last slide, or 0 with no slides; the result never exceeds the input; a non-negative index ends in `[0, slideCount)` when there are slides |
| `Navigation.ClampIdempotent` | play-list-project.js:47-48 | clamping an already clamped index changes nothing |
| `Navigation.WrapAround` | play-list-project.js:64-70 | from `slideCount - 1` next goes to 0; from 0 prev goes to `slideCount - 1`, so to -1 with zero slides, where next from 0 stays at 0 |
| `Navigation.PrevUndoesNext` | play-list-project.js:64-70 | on a valid index, prev after next restores the index |
| `Navigation.NextUndoesPrev` | play-list-project.js:64-70 | on a valid index, next after prev restores the index |
| `Navigation.StepsCompose` | play-list-project.js:64-70 | `a + b` steps in one direction equal `a` steps followed by `b` steps |
| `Navigation.ForwardRun` | play-list-project.js:68-70 | forward steps that stay short of the last slide add one each |
| `Navigation.BackwardRun` | play-list-project.js:64-66 | backward steps that stay at or above 0 subtract one each |
| `Navigation.StepsInRange` | play-list-project.js:64-70 | any number of steps in either direction keeps a valid index valid |
| `Navigation.NextCycle` | play-list-project.js:68-70 | `slideCount` successive next steps return to the starting index |
| `Navigation.PrevCycle` | play-list-project.js:64-66 | `slideCount` successive prev steps return to the starting index |
| `Rendering.Shown` | play-list-project.js:57-58 | a heading is shown exactly when the attribute is present and non-empty, and then unchanged |
| `Rendering.RenderSlide` | play-list-project.js:52-61 | panel `i` is active iff `i == index`; it carries the shown headings and the slide's body |
| `Rendering.RenderPanels` | play-list-project.js:206 | one panel per slide, in order; panel `i` is active iff `i == index`, with slide `i`'s body and shown headings |
| `Rendering.RenderIndicators` | play-list-project.js:210-212 | one indicator per slide; indicator `i` is active iff `i == index` and jumps to `i` |
| `Rendering.Render` | play-list-project.js:198-219 | the view is the viewport's panels beside the footer's indicators, one of each per slide, with indicator `i` active exactly when panel `i` is |
| `Rendering.CountMarkedAt` | play-list-project.js:56 | panels marked exactly at `index` contain one active panel if `index` is one of their positions, else none |
| `Rendering.ExactlyOneActivePanel` | play-list-project.js:198-213 | exactly one panel is active, panel `index`, when `0 <= index < |slides|`; none is active otherwise |
| `Rendering.IndicatorsFollowPanels` | play-list-project.js:206-211 | the indicators match the panels in number, and indicator `i` is active iff panel `i` is |
| `PlayList.OneActivePanel` | play-list-project.js:198-213 | on an element whose `slideCount` matches its slides and whose index is in range, exactly one panel of the rendered view is active, panel `index` |
| `PlayList.PlayListProject.constructor` | play-list-project.js:21-26 | initial state: empty title, index 0, no slides, `slideCount` 0, no events |
| `PlayList.PlayListProject.FirstUpdated` | play-list-project.js:44-50 | stores the discovered slides and their count; the index becomes `ClampIndex` of the old one; a non-negative index ends in range when there are slides; no event is emitted |
| `PlayList.PlayListProject.PrevSlide` | play-list-project.js:64-66 | index becomes `Prev(old index)`; `slideCount` still matches the slides; an in-range index stays in range; slides, count and events are unchanged |
| `PlayList.PlayListProject.NextSlide` | play-list-project.js:68-70 | index becomes `Next(old index)`; `slideCount` still matches the slides; an in-range index stays in range; slides, count and events are unchanged |
| `PlayList.PlayListProject.HandleKeyDown` | play-list-project.js:72-78 | `ArrowLeft` has exactly the effect of `PrevSlide`, `ArrowRight` that of `NextSlide`; any other key changes nothing; `slideCount` still matches the slides and an in-range index stays in range; no event is emitted |
| `PlayList.PlayListProject.GoToSlide` | play-list-project.js:80-87 | index becomes exactly `i`, unclamped; exactly one `slide-changed` event with index `i` is appended; slides and count are unchanged, so `slideCount` still matches the slides |

## Left out

- Lit templating, the `html`/`css` tagged templates, the `styles` block and the `.innerHTML` binding are presentation handled by a foreign framework. Panels and indicators are modelled only as records with their active flag, headings, body and jump target.
- The DOM query `querySelectorAll("play-list-slide")` and `getAttribute` are left out. The discovered slides are a parameter of `FirstUpdated`, and an absent attribute is `None`.
- For `CustomEvent`, only the `detail.index` payload is recorded in `events`. Bubbling and crossing shadow boundaries are left out.
- PlayList.PlayListProject.GoToSlide: `dispatchEvent` runs every `slide-changed` listener synchronously, before `goToSlide` returns, and a listener on any ancestor may set `index` or call `goToSlide` again. The model treats dispatch as an inert append to `events`, so its promises `index == i` and "exactly one event" assume that no listener touches the element during dispatch.
- Lit reactive properties, attribute reflection of `index`, the re-render trigger, the `t` translation table and the `DDDSuper`/`I18NMixin` mixins are foreign framework behaviour. The `title` field is kept only as initial state.
- The module-load registration `customElements.define` is a global side effect and is left out.
- `index` is an unbounded integer. Non-integer, NaN or out-of-safe-range JavaScript `Number` values, which the element could receive through its attribute, are not modelled.
- The event object passed to `handleKeyDown` is reduced to its `key` string.
- The test file only checks that the element exists and passes an accessibility audit. It gives no behavioural fact to model.
