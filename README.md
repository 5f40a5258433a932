# Embiggen: best-fit autoscale, modelled in Dafny

Embiggen shows a block of text as large as it can be inside a rectangular
viewport. Its `Embiggen` component (`resizeContent`) works in two phases:

1. It searches for a wrap width. It tries the fractions 1.00, 0.99, …, 0.01 of
   the outer element's natural width. It keeps the fraction whose reflowed
   aspect ratio is closest to the container's.
2. It scales the outer element uniformly with `scale(min(containerW/innerW,
   containerH/innerH))`.

The older `App` component (`zoom`, `updateZoom`) does only the second phase.

The model treats the browser's layout engine as a pair of total functions
(`Embiggen.Layout`):

- `outerBox(width)`: the outer element's offset box for a given inline width.
- `innerRect(width, transform)`: the inner text's bounding rectangle.

All lengths are positive reals (`Geometry.Positive`). An element's inline
style is a `Dom.Style` object whose `width` and `transform` fields the methods
update in place. `None` means the property is not set.

Modules:

- `Geometry` (geometry.dfy): boxes, aspect ratio, and the fit-to-container
  scale `FitScale` with its no-clip, flush-axis and maximality properties.
- `Dom` (dom.dfy): `Option` and the `Style` class.
- `BestFit` (search.dfy): the search over the 100 measured distances. Step `i`
  (fraction i/100) is at index `i - 1`. This module holds the reference
  definition `SearchDown` of what the loop computes and the lemmas that
  characterise it as an argmin. The first candidate is excluded from being
  recorded, and ties go to the earlier candidate.
- `Embiggen` (embiggen.dfy): the layout interface, the candidate widths and
  distances, the loop `FindBestFactor`, and `ResizeContent`.
- `App` (app.dfy): `Zoom`, `ZoomScale` and `UpdateZoom`.

A few points where the model makes the source's behaviour explicit:

- **Factor 1.00 is never recorded.** The first step only seeds the best distance. So
  when no later fraction is strictly closer than 1.00, nothing is committed
  and the width constraint is removed.
- **Truthiness.** `bestFactor ? … : null` uses JavaScript truthiness, where
  null and 0 are falsy. It is modelled as `BestFit.Truthy`.
  `BestFit.CommitBounds` shows that, for a recorded factor, this matches
  "a factor was recorded", because every recorded factor lies in
  [0.01, 0.99].
- **Order of measurements.** The target ratio is read from the container
  before the old styles are removed. The container's size does not depend on
  the outer element's styles, so this order does not matter.
- **Transform during measurement.** The inner rectangle is measured while the
  outer element has no transform: the transform is removed before the search
  and set only after the measurement. The model passes the current
  `transform` to `innerRect`, so this is visible in the contract
  (`innerRect(width, None)`).

## Model

| member | source | states |
|---|---|---|
| Embiggen.ResizeContent | src/Embiggen.tsx:11-56 | If the container or inner element is missing, the outer element's styles are unchanged and nothing is measured. Otherwise exactly 100 widths are tried, and the final width is the committed best fit. The final transform is `FitScale` of the container over the inner rectangle, measured at the committed width with no transform. Neither final style depends on the styles before the call. |
| Embiggen.FindBestFactor | src/Embiggen.tsx:27-44 | The loop reads the natural width, then imposes the candidate widths `natural * i/100` for i = 100 down to 1 (exactly 100, in that order), and returns the factor that the reference search `BestFactor` records over the measured distances. The transform is left untouched. |
| Embiggen.ResizeContentTwice | src/Embiggen.tsx:22-24 | Running `resizeContent` twice with unchanged measurements leaves the same width and transform as running it once, because the cleanup makes the result independent of earlier runs. |
| Embiggen.CandidateWidthBounds | src/Embiggen.tsx:31-32 | Every candidate width is positive and at most the natural width. Only factor 1.00 reaches the natural width. |
| Embiggen.CandidateWidthsDecrease | src/Embiggen.tsx:30-32 | The candidate widths strictly decrease as `i` decreases. |
| Embiggen.Distance | src/Embiggen.tsx:35-36 | The distance is non-negative, and it is zero exactly when the box's aspect ratio equals the target ratio. |
| Embiggen.Dist | src/Embiggen.tsx:32-36 | The distance measured at a step of the search is non-negative. |
| Embiggen.Distances | src/Embiggen.tsx:30-36 | The 100 distances the loop measures, step i at index i - 1. Each is non-negative, and it is zero exactly when that step's candidate width `natural * i/100` reflows the outer element to the target aspect ratio. |
| Embiggen.ConstantRatioCommitsNoWidth | src/Embiggen.tsx:38-48 | If every candidate reflows to exactly the container's aspect ratio, every step ties with factor 1.00, and no width is committed. |
| Embiggen.Abs | src/Embiggen.tsx:36 | `Math.abs`: the result is non-negative and equals x or −x. |
| BestFit.Factor | src/Embiggen.tsx:30-31 | The fraction i/100 of steps 1..100 lies in (0, 1]. |
| BestFit.FactorsDecrease | src/Embiggen.tsx:30-31 | The fractions strictly decrease as `i` decreases. |
| BestFit.Visit | src/Embiggen.tsx:38-43 | One step of the loop. Afterwards `bestDistance` is set, and it is no larger than this step's distance or the previous best. `bestFactor` either keeps its value or becomes this step's factor. It changes only when a best distance was already set and this step is strictly closer, and then `bestDistance` becomes this step's distance. |
| BestFit.SearchDownIsMin | src/Embiggen.tsx:36-43 | After visiting steps 100 down to `lo`, `bestDistance` is set, is at most every visited distance, and equals one of them: it is the minimum. |
| BestFit.SearchDownIsArgmin | src/Embiggen.tsx:38-43 | Loop invariant as a lemma. `bestFactor` is null exactly when no visited step is strictly closer than factor 1.00, and then `bestDistance` is factor 1.00's distance. Otherwise `bestFactor` is i/100 for the winning step i < 100, whose distance is `bestDistance`. The winner is strictly closer than every earlier step (so on a tie the earlier step keeps the spot) and no worse than every later step. |
| BestFit.WinnerIsUnique | src/Embiggen.tsx:38-43 | At most one step satisfies the winning condition, so that condition determines the recorded factor. |
| BestFit.BestFactorIsArgmin | src/Embiggen.tsx:28-44 | Concerns `BestFactor`, the factor that `SearchDown` records: the loop of lines 28-44 as a fold of `Visit` over steps 100 down to 1. After all 100 steps, there is no factor exactly when 1.00 is not strictly beaten. Otherwise the recorded factor belongs to the winning step and lies in [0.01, 0.99]. |
| BestFit.BestFactorRange | src/Embiggen.tsx:38-43 | The first candidate never becomes `bestFactor`. The recorded factor is null exactly when 1.00 is not strictly beaten, and otherwise lies in [0.01, 0.99]. |
| BestFit.AllTiedRecordsNothing | src/Embiggen.tsx:38-43 | If every step measures the same distance, no factor is recorded. |
| BestFit.CommitBounds | src/Embiggen.tsx:47-48 | Concerns `Commit`, the `bestFactor ? … : null` of line 47, where `Truthy` is JavaScript truthiness. With no factor, the width property is removed. With a factor in (0, 1), the width is `natural * bestFactor`, which is positive and narrower than the natural width. |
| BestFit.CommittedWidth | src/Embiggen.tsx:38-48 | The width committed after the full search. There is none exactly when factor 1.00 is not strictly beaten. Otherwise it is `natural` times the recorded factor, strictly between 0 and the natural width. |
| Geometry.FitScale | src/Embiggen.tsx:51-55 | The scale is positive. The scaled content fits the container on both axes and is flush on at least one. |
| Geometry.FitScaleIsLargest | src/Embiggen.tsx:52-54 | No scale under which the content still fits is larger than `FitScale`. |
| Geometry.Min | src/Embiggen.tsx:54 | `Math.min`: the result is at most both arguments and equals one of them. |
| Geometry.Ratio | src/Embiggen.tsx:35 | The aspect ratio width/height of a measured box is positive. |
| App.Zoom | src/App.tsx:15-19 | If the inner element is mounted, its transform becomes `scale(val)` and its width is unchanged. If it is missing, nothing happens. |
| App.ZoomScale | src/App.tsx:24-30 | The scale is 1 when the outer element is missing. Otherwise it is positive, the scaled inner box fits the outer box on both axes, and it is flush on at least one. |
| App.ZoomScaleIsLargest | src/App.tsx:28-30 | No larger scale keeps the inner box inside the outer box. |
| App.UpdateZoom | src/App.tsx:21-32 | The inner transform becomes `ZoomScale`. That is `scale(1)` when either element is missing (a no-op when the inner element itself is missing), and otherwise the smaller of the width and height ratios. |
| App.UpdateZoomTwice | src/App.tsx:21-32 | Running `updateZoom` twice with unchanged measurements leaves the same transform as running it once. |

## Left out

- The 10 ms `setTimeout` wait inside `resizeContent` (src/Embiggen.tsx:18) and the immediate-plus-100 ms re-run of `updateZoomWithDelay` (src/App.tsx:34-39). These are timer scheduling. Between runs, the last write wins, which is a concurrency matter.
- The ResizeObserver and layout-effect triggers (src/Embiggen.tsx:58-64) and the window/document listener wiring (src/App.tsx:61-73, src/use-listener.ts). These are event plumbing.
- The fullscreen request and its error message, the `zoom` class toggle, dark mode, and all JSX/form markup in src/App.tsx. These are UI and browser API wrappers.
- src/update-svh.ts (a viewport-height CSS variable), src/main.tsx (React bootstrap) and src/types.d.ts (type declarations). None of them has logic the components depend on.
- The browser's layout engine itself is not modelled. Reflow is the abstract `outerBox`/`innerRect` functions, and offset sizes are assumed independent of transforms, as in CSS.
- IEEE floating point, the integer rounding of `offsetWidth`, and the CSS strings (`${w}px`, `scale(${s})`). Numbers are reals, `i/100` is exact, widths are reals of pixels, and a transform is its scale factor.
- Zero or missing sizes. The source divides by container and element sizes without a guard, which can produce NaN or Infinity. The model admits only positive lengths, so the degenerate-box behaviour is not modelled.
- `resizeContent` is `async`. The model runs it as one synchronous step, because everything after the timer wait is synchronous code.
