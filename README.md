# Drafts: probability events, samplers, a processor chain and three MIDI/UI scenes

This project models, in Dafny, the logic at the heart of a collection of Rust drafts:

- **prob2.rs** — a continuous event algebra over the real line. A `Range` is `Empty`, an open interval `Simple(lo, hi)` or a `Union` of two ranges. It supports membership, intersection, union and a Lebesgue length measure. A uniform random variable `Unif(a, b)` answers `probability_of(ev)` as the length of `support ∩ ev` divided by the length of the support. An `AddedConstantVariable` wraps a variable and a constant. Module `Events` holds the algebra; module `Probability` holds `Unif` and the added constant.
- **prob.rs** — the `Unif`, `Bern` and `Bin` samplers (module `Samplers`). The uniform source `u()` is a finite sequence of draws that each sample consumes from the front.
- **recursive_template.rs** — a chain of processors built by `add` and run by `process` (module `RecursiveTemplate`). A processor is a function on the data.
- **midi_one.rs** (module `MidiOne`):
  - a 128-slot keyboard array written in place by note-on/note-off messages;
  - the `interpolate` smoothing function;
  - the renderer's `last_keyboard` field.
- **cursive_renderer.rs** (module `CursiveRenderer`):
  - the patient-record model;
  - the action reducer that pushes and removes records;
  - the loops that reconcile the view's rows with the records.
- **plot.rs** — a four-track scene (module `Plot`). Note-on messages select the active track, and pitch-bend messages write into that track's parameter only.

Module `Midi` holds the MIDI message type shared by the scenes. Module `Wrappers` holds `Option`.

## Modelling choices

- **Numbers.** `f32` is modelled as `real`. `usize` is modelled as `nat`, and `u8` as the subset type `Byte` (0..255).
- **Literal algebra.** The event algebra is reproduced literally. When the left operand is `Union(s, t)`, both `intersection` and `union` recurse on `s` twice and never look at `t`. `IntersectFixed` and `UnionWithFixed` are the corrected versions. The corrected intersection is proved exact. The corrected union is proved to contain every outcome of both operands, and to cover exactly the points they cover. It can gain the shared endpoint of two touching intervals, because the source merges them. `ProbabilityOf` uses the literal operations, because that is what the source computes.
- **Measure and fuel.** `lebesgue_measure` recurses on `s.intersection(t)`, which can be as deep as `Union(s, t)` itself, so it does not always terminate. `LebesgueMeasure` therefore takes a fuel argument and returns `None` when the fuel runs out. The recursive call is not a tail call, since its result is subtracted afterwards, and each level adds a stack frame: a run of the compiled program on such a range ends in a stack overflow rather than running forever. "Never terminates" below means that the recursion never reaches a base case, which `None` at every fuel expresses. `MeasureDiverges` proves that on `Union(Q, Q)` with `Q = Union(A, A)` it returns `None` for every fuel, so no fuel is ever enough. Inclusion–exclusion suggests that the recursion ends; the literal code does not always end, and the model follows the code. `SelfIntersectionDiverges` and `ThreeIntervalUnionDiverges` show that such ranges arise from `Range::new` and `union` alone: the self-intersection of two disjoint intervals, and the union of three disjoint intervals, never get a measure.
- **Union is not commutative.** One would expect union to be commutative in measure. The literal code is not: `UnionMeasureNotSymmetric` gives a pair whose two orders have measures 1 and 2. `UnionWithOfLeavesMeasure` proves that the two orders do agree when both operands are single intervals or empty.
- **Probability outcomes.** `ProbabilityOf` returns:
  - `Ratio(p)`;
  - `DegenerateSupport` when the support has length zero. `Unif::new` accepts a == b, and the source then divides by zero.
  - `Undetermined` when the measure recursion runs out of fuel.
- **Panics.** A panic (`Unif::new` with a > b, a keyboard index ≥ 128, `Vec::remove` past the end) is modelled as an error result or a `panicked` flag, with the state left unchanged.
- **u8 addition.** The sum `new + old` in `interpolate` wraps at 256, as an unchecked `u8` addition does in a release build. `InterpolateSevenBit` and `RenderKeepsSevenBit` prove that with 7-bit MIDI data bytes (MIDI 1.0 Detailed Specification) the sum never reaches 256.

## Model

| member | source | states |
|---|---|---|
| Events.NewRange | src/prob2.rs:70-76 | Empty exactly when a > b; otherwise a well-formed interval containing exactly the x with a < x < b and covering, as a closed interval, exactly the x with a ≤ x ≤ b, so a == b gives the zero-length interval at a |
| Events.ContainsIffInSomeInterval | src/prob2.rs:89-95 | a range contains x exactly when one of its leaf intervals contains x strictly inside; Empty contains nothing |
| Events.Unmeasurable | src/prob2.rs:77-83 | an unmeasurable range contains no outcome; a well-formed Simple is unmeasurable exactly when its measure is 0 |
| Events.Intersect | src/prob2.rs:96-118 | intersecting well-formed ranges gives a well-formed range |
| Events.IntersectOfIntervals | src/prob2.rs:98-115 | Simple(a,b) ∩ Simple(c,d) is Empty exactly when a > d or b < c, and otherwise Simple(max, min), which lies inside both operands; Empty on the left, or on the right of a leaf, gives Empty |
| Events.IntersectSound | src/prob2.rs:96-118 | every outcome of the literal intersection lies in both operands |
| Events.IntersectExactOnShallow | src/prob2.rs:103-115 | with a leaf on the left and at most one Union level on the right, the intersection contains exactly the common outcomes |
| Events.IntersectWithEmptyContainsNothing | src/prob2.rs:98-104 | intersecting anything with Empty contains no outcome |
| Events.LeftUnionIgnoresRightChild | src/prob2.rs:99-102 | for a Union on the left, intersection and union do not depend on its right child |
| Events.IntersectDropsRightChild | src/prob2.rs:99-102 | Union(Empty, (0,2)) ∩ (0,2) loses the outcome 1, which both operands contain |
| Events.UnionWith | src/prob2.rs:119-139 | the union of well-formed ranges is well formed |
| Events.UnionWithOfIntervals | src/prob2.rs:121-136 | disjoint intervals give Union(self, other) in that order; overlapping or touching ones merge to Simple(min, max); Empty ∪ r is r and Simple ∪ Empty is the Simple |
| Events.UnionWithCoversOperands | src/prob2.rs:125-136 | with a leaf on the left and at most one Union level on the right, the union contains every outcome of both operands, open and closed |
| Events.UnionWithSound | src/prob2.rs:119-139 | every point the literal union covers is covered by one of the operands |
| Events.UnionTouchingGainsEndpoint | src/prob2.rs:130-135 | merging touching intervals (0,1) and (1,2) adds the outcome 1, which neither contains |
| Events.UnionDropsRightChild | src/prob2.rs:122-124 | Union(Empty, (0,2)) ∪ Empty loses the outcome 1 |
| Events.MeasureFuelMonotone | src/prob2.rs:140-149 | once the measure is determined, more fuel gives the same value |
| Events.IntersectOfLeavesMeasure | src/prob2.rs:143-147 | for two leaves, the intersection is a leaf no longer than either, and m(x)+m(y)−m(x∩y) is the length of their set union |
| Events.MeasureOfShallow | src/prob2.rs:140-149 | on a well-formed range with at most one Union level the measure terminates with the inclusion–exclusion length, which is ≥ 0 |
| Events.UnionWithOfLeavesMeasure | src/prob2.rs:119-149 | the measure of the union of two leaves is the length of their set union, in either order |
| Events.UnionMeasureNotSymmetric | src/prob2.rs:119-149 | the measure of a union depends on the operand order when the left operand is a Union |
| Events.MeasureDiverges | src/prob2.rs:143-146 | the measure of Union(Q,Q) with Q = Union(A,A) never terminates, whatever the fuel |
| Events.DoubledHalfEmptyDiverges | src/prob2.rs:143-146 | the measure of Union(P,P) with P = Union((0,1), Empty) never terminates, whatever the fuel |
| Events.SelfIntersectionDiverges | src/prob2.rs:96-149 | for e = new(0,1) ∪ new(2,3), the measure of e ∩ e never terminates, whatever the fuel |
| Events.ThreeIntervalUnionDiverges | src/prob2.rs:119-149 | the measure of (new(0,1) ∪ new(2,3)) ∪ new(4,5) never terminates, whatever the fuel |
| Events.IntersectFixed | src/prob2.rs:96-118 | the corrected intersection contains exactly the outcomes common to both operands |
| Events.UnionWithFixed | src/prob2.rs:119-139 | the corrected union contains every outcome of either operand and covers exactly the points either operand covers |
| Events.LiteralAgreesWithFixedOnShallow | src/prob2.rs:103-136 | where the left operand is not a Union, the literal and corrected operations coincide |
| Probability.NewUnif | src/prob2.rs:54-59 | Unif::new succeeds exactly when a ≤ b (a == b included), with a well-formed support |
| Probability.ProbabilityOfInterval | src/prob2.rs:153-156 | for a < b and an interval event: a ratio in [0,1], 0 when disjoint from the support, 1 when covering it, (d−c)/(b−a) when inside it |
| Probability.ProbabilityOfShallowEvent | src/prob2.rs:153-156 | for an event with at most one Union level the probability is the intersected length over b−a, in [0,1] |
| Probability.ProbabilityOfDegenerateSupport | src/prob2.rs:153-156 | with a == b (which Unif::new accepts) no ratio results: the denominator is zero |
| Probability.ProbabilityUndeterminedOnDoubledUnion | src/prob2.rs:143-156 | an event overlapping the support built as a doubled Union makes probability_of never finish |
| Probability.DesiredUsageExpectation | src/prob2.rs:39-45 | the test value 0.3 for [0,0.3] on Unif(0,1) |
| Probability.MoreAssertionsExpectations | src/prob2.rs:159-166 | the test values 1, 0.25, 0.25 and 1 on Unif(0,80) |
| Probability.AddedIgnoresConstant | src/prob2.rs:217-225 | the added-constant variable's probability equals the wrapped variable's, whatever the constant |
| Probability.ShiftTestExpectationsFail | src/prob2.rs:168-178 | the ignored test's expectations do not hold: 0.2 against 0.0, and 0.8 where 0 is expected |
| Probability.Shift | src/prob2.rs:168-178 | shifting a range by k moves every outcome by k and keeps its shape |
| Probability.ShiftRoundTrip | src/prob2.rs:168-178 | shifting by k and then by −k gives the range back |
| Probability.ShiftIntersect | src/prob2.rs:168-178 | intersection commutes with shifting |
| Probability.ShiftMeasure | src/prob2.rs:168-178 | shifting preserves the measure at every fuel |
| Probability.ShiftedProbabilityOf | src/prob2.rs:217-225 | the corrected probability of X+k at ev is that of Unif(a+k, b+k) at ev |
| Probability.ShiftTestExpectationsHold | src/prob2.rs:168-178 | with the corrected shift the ignored test's expectations hold |
| Samplers.UnifSample | src/prob.rs:11-20 | consumes one draw; for a draw in [0,1] the sample lies in [a,b] when a ≤ b and in [b,a] when b < a; whenever a ≠ b the draw can be read back from the sample |
| Samplers.SampleBetween | src/prob.rs:16-19 | a + u·(b − a) for u in [0,1] lies between a and b, whichever of the two is larger |
| Samplers.SampleReadBack | src/prob.rs:16-19 | for a ≠ b, (a + u·(b − a) − a)/(b − a) is u |
| Samplers.BernSample | src/prob.rs:36-44 | consumes one draw; the sample is 1.0 or 0.0, and 1.0 exactly when the draw is < p |
| Samplers.BernSuccess | src/prob.rs:31-33 | success exactly when the draw is < p |
| Samplers.Successes | src/prob.rs:59-62 | the number of successes is at most the number of trials |
| Samplers.BinSample | src/prob.rs:58-62 | consumes n draws; the sample is the number of draws below p, in [0, n] |
| Samplers.SuccessesCountsIndices | src/prob.rs:61 | counting successes one by one equals the size of the set of trials below p |
| Samplers.SuccessesMonotone | src/prob.rs:61 | a larger p never gives fewer successes on the same draws |
| Samplers.SuccessesExtremes | src/prob.rs:58-62 | p ≤ 0 with non-negative draws gives no success; p > 1 with draws below 1 makes every trial succeed |
| Samplers.BinSampleExtremes | src/prob.rs:58-62 | Bin gives 0 for p ≤ 0 and n for p > 1 on draws in [0,1) |
| RecursiveTemplate.Add | src/recursive_template.rs:16-22 | the added processor becomes the last of the chain's processors |
| RecursiveTemplate.ProcessAppliesInOrder | src/recursive_template.rs:42-59 | processing runs the chain's processors in insertion order; System is the identity |
| RecursiveTemplate.ProcessAdded | src/recursive_template.rs:42-48 | a chain with one more processor runs the old chain and then that processor |
| RecursiveTemplate.CreateChainExpectation | src/recursive_template.rs:96-107 | the test's chain turns "chobis" into the expected string |
| MidiOne.Scene.constructor | src/midi_one.rs:41-50 | the scene starts unpaused at clock zero with every key at 0 |
| MidiOne.Scene.OnTick | src/midi_one.rs:54-61 | the clock advances by the tick only when not paused |
| MidiOne.Scene.OnMidiMessage | src/midi_one.rs:64-76 | NoteOn sets keyboard[key] to vel; NoteOff sets it to 0; other slots and other messages change nothing; a key ≥ 128 panics; the new keyboard is Pressed of the old one |
| MidiOne.PressedKeepsSevenBit | src/midi_one.rs:64-76 | note messages with 7-bit velocities keep a 7-bit keyboard 7-bit and its length unchanged |
| MidiOne.Interpolate | src/midi_one.rs:102-108 | the result is as long as the shorter input; each element is the new value when it exceeds the old one (no addition, so no overflow); when the sum stays below 256 each element is at least the new value and is either the new value or at most the old one; when the new value is ≤ the old one and the sum stays below 256, the element is their midpoint (new + old)/2 |
| MidiOne.InterpolateSevenBit | src/midi_one.rs:102-108 | on 7-bit data each element lies between the new value and max(new, old), and stays 7-bit |
| MidiOne.InterpolateWrapsOnWideBytes | src/midi_one.rs:106 | with velocities above 127 the u8 sum wraps: smoothing 100 against 200 gives 22 |
| MidiOne.InitialLastKeyboard | src/midi_one.rs:95-99 | the starting last keyboard has 36 entries, entry i being i |
| MidiOne.Window | src/midi_one.rs:130-131 | skip 24, take 36: element i of the window is key 24+i |
| MidiOne.Visual.constructor | src/midi_one.rs:94-99 | last_keyboard starts as 0..35 |
| MidiOne.Visual.Render | src/midi_one.rs:129-134 | the shown keyboard is the window smoothed against the last keyboard, and becomes the last keyboard |
| MidiOne.RenderKeepsWidth | src/midi_one.rs:130-134 | rendering a 128-key scene keeps the last keyboard 36 keys wide |
| MidiOne.RenderKeepsSevenBit | src/midi_one.rs:130-134 | rendering a 7-bit keyboard keeps the last keyboard 7-bit and 36 wide, so no frame overflows |
| CursiveRenderer.Model.constructor | src/cursive_renderer.rs:40-64 | the model starts with exactly the three listed records |
| CursiveRenderer.Reduce | src/cursive_renderer.rs:188-217 | handling panics exactly for DeleteRecord with an index past the end; quitting is requested exactly by Quit |
| CursiveRenderer.HandleEvent | src/cursive_renderer.rs:188-217 | the model's records change in place as Reduce says; a panic leaves them unchanged |
| CursiveRenderer.CreateNewAppends | src/cursive_renderer.rs:203-212 | CreateNew appends Eucebio Valente (72, 67.8) and leaves existing records in place |
| CursiveRenderer.DeleteRecordRemoves | src/cursive_renderer.rs:213-215 | DeleteRecord(i) with i in range keeps earlier records, shifts later ones left, shrinks by one and removes exactly record i |
| CursiveRenderer.QuitAndChangeNameKeepRecords | src/cursive_renderer.rs:195-202 | Quit and ChangeName leave the records as they are; only Quit asks to quit |
| CursiveRenderer.CreateThenDeleteRestores | src/cursive_renderer.rs:203-215 | deleting the record just created gives the original records back |
| CursiveRenderer.BoundRows | src/cursive_renderer.rs:122-124 | after binding, row i shows record i and its delete button sends i |
| CursiveRenderer.RecordsLayout.Reconcile | src/cursive_renderer.rs:120-121 | afterwards the row count equals the record count; surplus rows go from the front, missing rows are appended blank |
| CursiveRenderer.RecordsLayout.DropFront | src/cursive_renderer.rs:120 | with more rows than records, rows are removed from the front until the counts match, keeping the last ones; otherwise nothing changes |
| CursiveRenderer.RecordsLayout.PadBlank | src/cursive_renderer.rs:121 | with fewer rows than records, blank rows are appended until the counts match, existing rows kept in place; otherwise nothing changes |
| CursiveRenderer.RecordsLayout.Update | src/cursive_renderer.rs:116-126 | after an update the rows are exactly the records bound to their indices |
| CursiveRenderer.BoundDeleteIsValid | src/cursive_renderer.rs:171-178 | a delete pressed on any bound row is accepted and removes exactly the record that row shows |
| Plot.TrackForKey | src/plot.rs:126-137 | a note-on key selects a track exactly when it is 28, 29, 30 or 31 |
| Plot.TrackKeyRoundTrip | src/plot.rs:126-137 | each track has exactly one selecting key, W/X/Y/Z for 28/29/30/31 |
| Plot.BendValue | src/plot.rs:139 | the stored value is ≥ 0, at most 1 for a 14-bit amount, 0 exactly for 0 and 1 exactly for 16383 |
| Plot.BendValueMonotone | src/plot.rs:139 | larger amounts give larger values |
| Plot.Scene.constructor | src/plot.rs:98-111 | the scene starts on track W with w = x = y = z = 1 and not paused |
| Plot.Scene.OnTick | src/plot.rs:114-121 | the clock advances by the tick only when not paused; nothing else changes |
| Plot.Scene.OnMidiMessage | src/plot.rs:123-152 | note-on 28..31 selects a track and changes nothing else; a pitch bend writes amount/16383 into the active track's field only and keeps every field in [0,1] for 14-bit amounts; other messages change nothing |

## Left out

- `Exp` in prob.rs: it samples through a logarithm, which has no counterpart over the reals here.
- IEEE `f32` behaviour (rounding, NaN from 0/0, infinities): numbers are reals. The tests' `assert_eq!` values are exact over the reals.
- The sources of randomness and time: `u()` is a finite sequence of draws; `Clock` and `Tick` are reals; thread sleeps are omitted.
- Events.LebesgueMeasure: the fuel bound leaves out the non-terminating runs themselves; they show up as `None` (`Undetermined` in `ProbabilityOf`).
- Events.MeasureOfShallow: non-negativity, the intersection bound and the set-union length of the measure are proved only for shallow events (at most one Union level); deeper events built by `union` may have no measure at all, as `ThreeIntervalUnionDiverges` shows.
- Processor state in recursive_template.rs: processors take `&mut self`, but none shown changes state, so they are pure functions here.
- MidiOne.Interpolate: models release-build `u8` wrap-around; a debug build panics on the same overflow instead.
- `spiral_points`, meshes, transforms and the camera in midi_one.rs and plot.rs: trigonometric float geometry.
- The `println!` calls in plot.rs.
- The cursive UI construction (`configure`, `PatientView::create`/`bind` widget calls): library calls. A row is modelled as `Blank` or `Bound(record, index)`, and `backend.quit()` as the `quit` flag.
- Application wiring, MIDI device I/O, `GetProperties` and `GetCamera`.

## Findings

| source | as written | input that shows it | evidently intended | confidence | as-written member | corrected member |
|---|---|---|---|---|---|---|
| src/prob2.rs:99-102 | a Union on the left intersects its left child twice and ignores its right child | Union(Empty, Simple(0,2)) ∩ Simple(0,2) does not contain 1 | Union(s ∩ o, t ∩ o) | not executed | Events.IntersectDropsRightChild | Events.IntersectFixed |
| src/prob2.rs:122-124 | a Union on the left unions its left child twice and ignores its right child | Union(Empty, Simple(0,2)) ∪ Empty does not contain 1 | Union(s ∪ o, t ∪ o) | not executed | Events.UnionDropsRightChild | Events.UnionWithFixed |
| src/prob2.rs:223-225 | the added constant is never applied to the event | X ~ Unif(0,10), Y = X+10: P(Y ∈ (12,14)) is 0 instead of 0.2 | evaluate the wrapped variable at the event shifted by −k | not executed | Probability.ShiftTestExpectationsFail | Probability.ShiftedProbabilityOf |
