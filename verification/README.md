# Falcon libraries: a verified model

This project models the parts of the Falcon libraries that carry their own algorithms and
state, and proves what they promise. `dafny verify dfyconfig.toml` checks all of it.

- **Runtime graph** (`Graph.dfy`, `ValueEquality.dfy`, `GraphLaws.dfy`). Structs, arrays and tuples are heap
  objects that may share one another. `Denotes(deep, v, g)` says that heap value `v` unfolds
  to the finite graph `g`, which records the node behind every part; `Erase(g)` is the value
  without the nodes, which `EqualIffAlike` shows to be equality of values as the heap has it, and
  `Separated(g)` says that no node is met twice. The two clones of the
  library are one method with a flag: the control axis clone copies the array behind an Array
  struct (`deep`), the direction clone shares it. An in-place field write on an unshared graph
  is one update of the graph at one path, which is how every voltage update is accounted for.
- **Sparse control geometry** (`SparseVector.dfy`, `Rounds.dfy`, `Accessors.dfy`,
  `Direction.dfy`, `Projection.dfy`, `AxisGraph.dfy`, `AxisView.dfy`, `DirectionView.dfy`,
  `ControlAxis.dfy`, `AxisLaws.dfy`, `AxisMotion.dfy`, `CrossedGates.dfy`). A direction or a
  point is a pair of parallel arrays searched from the front. `SparseVector` and `Rounds` are
  the algebra of such lists, with no heap; `DirectionOps`, `Projection` and `ControlAxis` are
  the routines as the library runs them, each proved against that algebra; `AxisLaws`,
  `AxisMotion` and `CrossedGates` prove laws that cross several routines, as programs that call
  them.
- **Strings** (`Strings.dfy`). The scan of Format, the unescaper and the in-place ReplaceAll
  loop are all related to one function, the cut of a string at the leftmost occurrences of a
  separator, which is itself characterised without an algorithm.
- **Output capture** (`Io.dfy`). A descriptor table, a pipe without capacity, and the capture
  object. Reading requires that the read does not wait, so a verified read loop is one that
  never hangs.
- **Manifest** (`Manifest.dfy`, `ManifestLaws.dfy`, `ManifestShape.dfy`). The line machine of
  the hash updater, what a run makes of the text of the lines, and what a second run does.
- **Tests** (`TestRunner.dfy`). Contexts, the runner and the generated harness loop.

What the code does where its documentation says otherwise:

- `ToPoint` documents offset + coordinate * direction at every gate, but looks the amplitude
  up at the direction's own i-th gate (control/controlAxis/control-axis-wrapper.cpp:347). It
  meets its promise, for all amplitudes, exactly when the direction lists the offset's gates
  first and in order (`ToPointMeetsPromiseIffAligned`), as `NewFromPoints` arranges.
- The clone that `Scale`, `Add` and `Subtract` start from stands under the heading "Deep Clone"
  (control/direction/direction-wrapper.cpp:83-85) but shares the receiver's two arrays (line 98),
  so the receiver changes too. Results are stated in terms of the state before the call. The
  receiver keeps its vector exactly when the factor is 1 or all coefficients are 0
  (`ScaleKeepsIff`); under `Add` and `Subtract`, exactly when other lists no new gate and its
  coefficients for each gate add up to 0, or, for an other of distinct gates on the receiver's
  own values array, when it lists no new gate and every coefficient is 0 (`RoundsKeepIff`).
  An axis shifted by what `Scale` makes of its own direction has been scaled as well: its point
  at t is the old one at t * u + u, and not at t + u (`MovedByOwnDirection`, `MovedAlongAxis`).
- `Add` and `Subtract` are documented as element-wise (control/direction/direction.fal:118-122).
  When two directions share one array of values under different keys, the loop reads what it has
  written. For an other with distinct gates the result is then element-wise if and only if every
  gate with a non-zero coefficient is new to the receiver or listed there no later than in other
  (`SharedSumIff`); `AddCrossedGates` runs `Add` on two such directions, and the coefficients 1
  and 2 add up to 4.
- io/README.md:141 says that End passes captured text on to the real stdout or stderr; the
  code writes it to stdout in both cases (io/io-wrapper.cpp:123-126). The promise is kept if and
  only if the captured stream is stdout, or both streams are one device, or nothing was printed
  to the captured stream (`Session`, `TeeIff`); `StderrTextGoesToStdout` is a capture for which
  it fails.
- io/README.md:308 says that beginning a capture while another is active fails. For the other
  stream it succeeds (io/io-wrapper.cpp:64-67): a begin during a capture leaves it as it is if and
  only if it is for the same stream or there is no pipe (`BeginDuring`); otherwise the text under
  way is neither returned nor passed on (`OtherCaptureLosesText`).
- The hash updater is run on every library's manifest (Makefile:71-75), but a second run may
  change the file again. It is idempotent exactly when the text does not end, with a newline, in
  an open ffi section in which nothing was recognised, and no library whose entry the run writes
  has a name that contains the name of one listed earlier (`IdempotentIff`). So the builds for
  which every other text is stable are those in which no name is contained in a later one
  (`PlainIff`); they are also the builds for which a third run never changes anything
  (`SettlesIff`).

## Model

| member | source | states |
|---|---|---|
| RuntimeGraph.CloneValue | control/controlAxis/control-axis-wrapper.cpp:181-204 | Cloning any value that unfolds ends with a value of equal content, on nodes that are all new and unshared; nothing that existed before changes. |
| RuntimeGraph.CloneElements | control/controlAxis/control-axis-wrapper.cpp:124-126 | The element loop keeps order and count; the copies are new and pairwise disjoint, even where the source elements were one object. |
| RuntimeGraph.CloneArray | control/controlAxis/control-axis-wrapper.cpp:113-129 | An array's clone is a private copy with the same element type name and as many elements; a null array stays null. |
| RuntimeGraph.CloneTuple | control/controlAxis/control-axis-wrapper.cpp:165-179 | A tuple's clone is a private copy; a null tuple stays null. |
| RuntimeGraph.CloneFields | control/controlAxis/control-axis-wrapper.cpp:158-160 | Whatever order the fields come in, the copy has the same field names and private copies of their values. |
| RuntimeGraph.CloneHandle | control/controlAxis/control-axis-wrapper.cpp:140-156 | The storage behind an Array struct is copied by the axis clone; any other handle, and every handle in the direction clone, is shared as it is. |
| RuntimeGraph.CloneStruct | control/controlAxis/control-axis-wrapper.cpp:131-163 | A struct's clone is a private copy of it, native storage included as CloneHandle says; a null struct stays null. |
| RuntimeGraph.SetField | control/controlAxis/control-axis-wrapper.cpp:89-92 | Writing a field changes that field of that struct only; a scalar written to one node of an unshared graph changes the graph's value at that one path and nowhere else. |
| ValueEquality.EqualIffAlike | control/controlAxis/control-axis-wrapper.cpp:107-204 | Two heap values unfold to one graph, nodes forgotten, if and only if no number of accesses tells them apart: same struct and element type names, field names, lengths, order, scalars and shared handles, looking behind Array structs as the clone does. |
| GraphLaws.UnfoldingIsUnique | control/controlAxis/control-axis-wrapper.cpp:107-204 | A heap value unfolds to at most one graph, so its value is well defined. |
| GraphLaws.AcyclicUnfolds | control/controlAxis/control-axis-wrapper.cpp:107-204 | Every value of an acyclic graph of structs, arrays and tuples unfolds, within its own nodes. |
| GraphLaws.CloneAcyclic | control/controlAxis/control-axis-wrapper.cpp:107-204 | On every acyclic graph the clone terminates with an equal value, as the heap has it, on new nodes of which no two coincide. |
| GraphLaws.SeparatedMeansNothingShared | control/controlAxis/control-axis-wrapper.cpp:107-204 | The clone's guarantee, put without recursion: two different access paths never lead to the same node. |
| Accessors.FindGate | control/controlAxis/control-axis-wrapper.cpp:289-302 | The search loop of directions and axes finds the first position at which a gate is listed, or none if there is none. |
| SparseVector.CoeffAddInto | control/direction/direction-wrapper.cpp:233-251 | Adding a list to a vector changes the coefficient at each gate by everything the list gives for that gate, repeated gates included. |
| SparseVector.AddIsPointwise | control/direction/direction-wrapper.cpp:220-254 | Add is element-wise addition with a missing gate read as 0. |
| SparseVector.SubtractIsPointwise | control/direction/direction-wrapper.cpp:260-295 | Subtract is element-wise subtraction with a missing gate read as 0. |
| SparseVector.SubtractUndoesAdd | control/direction/direction-wrapper.cpp:220-295 | Adding w and subtracting it again restores every coefficient, for any w. |
| SparseVector.AddKeepsGates | control/direction/direction-wrapper.cpp:233-251 | Add keeps gates distinct and in place, and appends only gates that the other direction lists. |
| SparseVector.DotAdditive | control/direction/direction-wrapper.cpp:172-254 | Dot is additive in its first argument through Add, for all lists. |
| SparseVector.DotScale | control/direction/direction-wrapper.cpp:172-214 | Dot is homogeneous in its first argument through Scale. |
| SparseVector.CoeffIsFirst | control/direction/direction-wrapper.cpp:51-67 | A vector's coefficient at a gate is that of the first entry listed for it, and 0 if there is none. |
| SparseVector.DotUnit | control/direction/direction-wrapper.cpp:172-193 | Dot with a single gate reads the coefficient there: with additivity and homogeneity this fixes Dot on all lists. |
| SparseVector.NormSquaredAdds | control/direction/direction-wrapper.cpp:69-81 | The squared norm of a list is the sum over its parts, and the square of the coefficient for one entry. |
| SparseVector.DotSymmetric | control/direction/direction-wrapper.cpp:172-193 | Dot is symmetric for directions with distinct gates, in whatever orders they list them. |
| SparseVector.DotSelfIsNormSquared | control/direction/direction.fal:69-72 | The two ways of computing a squared norm, Dot with itself and the native sum of squares, agree. |
| SparseVector.CauchySchwarz | control/direction/direction-wrapper.cpp:172-193 | The square of a gate-matched dot product is at most the product of the squared norms. |
| SparseVector.NormalizedHasUnitNorm | control/direction/direction-wrapper.cpp:301-317 | A normalized direction has squared norm 1, or 0 if every coefficient was 0. |
| SparseVector.NormalizedTimesNorm | control/direction/direction-wrapper.cpp:301-317 | The norm times the normalized vector is the old vector, so signs and proportions stay; a zero vector stays as it is. |
| SparseVector.NormIsUnique | control/direction/direction-wrapper.cpp:301-306 | A vector has exactly one norm, and it is not negative. |
| SparseVector.NormalizedDotInUnitInterval | control/direction/direction-wrapper.cpp:301-317 | Two normalized directions have a dot product between -1 and 1. |
| SparseVector.ResidualIsOrthogonal | control/direction/direction.fal:87-109 | The law of vectors behind Orthogonalize: v minus its projection on w is orthogonal to w. |
| SparseVector.ShiftIsPointwise | control/controlAxis/control-axis-wrapper.cpp:289-302 | Shifted adds the direction's coefficient at every gate of the axis and keeps the gates. |
| SparseVector.ShiftTwiceIsShiftBySum | control/controlAxis/control-axis-wrapper.cpp:275-307 | Shifting by d1 and then d2 equals shifting by the Add of the two, entry for entry. |
| SparseVector.ToPointMeetsPromiseIffAligned | control/controlAxis/control-axis-wrapper.cpp:340-353 | ToPoint yields offset + coordinate * amplitude for every amplitude its gates may carry, and every coordinate, if and only if the direction lists the offset's gates first and in order. |
| SparseVector.AlignedMeetsPromise | control/controlAxis/controlAxis.fal:99-103 | For an aligned axis ToPoint is exactly the documented formula. |
| SparseVector.PointReadsOwnGate | control/controlAxis/control-axis-wrapper.cpp:344-351 | For every layout, repeated gates included, entry i is its offset plus the coordinate times the coefficient first listed for the direction's i-th gate. |
| SparseVector.MisalignedBreaksPromise | control/controlAxis/control-axis-wrapper.cpp:347 | For every misaligned axis, the direction with amplitude 1 at the misplaced gate is a concrete input on which the formula fails. |
| SparseVector.AffineEnds | control/controlAxis/control-axis-wrapper.cpp:232-273 | Coordinate 0 of the axis through two points is the first point, coordinate 1 the second when they list the same gates. |
| SparseVector.PointOnAxisThrough | control/controlAxis/control-axis-wrapper.cpp:232-358 | ToPoint on the direction that NewFromPoints builds is offset + t * (point - offset) at every gate. |
| SparseVector.PointMovesAlongDirection | control/controlAxis/control-axis-wrapper.cpp:275-358 | The law of vectors behind MovedAlongAxis: the point at t + u is the point at t shifted by u times the direction. |
| SparseVector.PointOfShifted | control/controlAxis/control-axis-wrapper.cpp:275-358 | ToPoint of a shifted axis is the shift of its point, for every shift and every layout of the gates. |
| Rounds.SharedSumIff | control/direction/direction-wrapper.cpp:233-295 | On a shared values array, for an other with distinct gates, the loops of Add and Subtract give the element-wise result if and only if no round changes a coefficient that a later round reads. |
| Rounds.CrossedGatesMisadd | control/direction/direction-wrapper.cpp:233-251 | A concrete case: two directions that list two gates in opposite orders on one values array. |
| Rounds.SeparateRounds | control/direction/direction-wrapper.cpp:233-295 | With values arrays of their own the loops add or subtract the other vector as it was. |
| Rounds.ScaleKeepsIff | control/direction/direction-wrapper.cpp:199-214 | Scale leaves the receiver's vector as it was if and only if the factor is 1 or every coefficient is 0. |
| Rounds.RoundsKeepIff | control/direction/direction-wrapper.cpp:220-295 | Add and Subtract leave the receiver's vector as it was if and only if other lists no new gate and its coefficients for each gate add up to 0; on a shared values array, for an other with distinct gates, if and only if it lists no new gate and every coefficient is 0. |
| Rounds.RoundsKeepDistinct | control/direction/direction-wrapper.cpp:233-295 | After any number of rounds distinct gates are still distinct, on separate and on shared values arrays. |
| CrossedGates.AddCrossedGates | control/direction/direction-wrapper.cpp:220-254 | Add, run on two new directions that hold one values array under crossed gates: the coefficients of a gate are 1 and 2 before, and 4 after. |
| DirectionOps.CoefficientAt | control/direction/direction-wrapper.cpp:51-67 | The coefficient of the first matching gate and whether there is one; 0 if not. |
| DirectionOps.NormSquaredOf | control/direction/direction-wrapper.cpp:69-81 | The loop's result is the sum of the squares of all coefficients. |
| DirectionOps.DotOf | control/direction/direction-wrapper.cpp:172-193 | The loop's result is the gate-matched dot product of the two vectors. |
| DirectionOps.SharedClone | control/direction/direction-wrapper.cpp:89-105 | The clone of a direction is a direction on the same two arrays. |
| DirectionOps.CloneDirection | control/direction/direction-wrapper.cpp:89-105 | The clone has new structs, down to the map and the two Array structs, shares both arrays, and leaves both vectors as they were. |
| DirectionOps.ScaleValues | control/direction/direction-wrapper.cpp:207-211 | Every value of the array is multiplied once, in place. |
| DirectionOps.ScaleDirection | control/direction/direction-wrapper.cpp:199-214 | Scale returns the scaled vector and leaves the receiver scaled as well. |
| DirectionOps.NormalizeDirection | control/direction/direction-wrapper.cpp:301-317 | Normalize divides in place: the norm times each new coefficient is the old one at its position; a zero direction is left alone. |
| DirectionOps.AddEntry | control/direction/direction-wrapper.cpp:236-250 | One coefficient is added at the first matching gate, or gate and coefficient are appended to both arrays. |
| DirectionOps.CombineEntry | control/direction/direction-wrapper.cpp:233-251 | One round of the outer loop, whatever arrays the two directions share: the coefficient read is other's own, or the current one of the receiver if the values are shared. |
| DirectionOps.Combine | control/direction/direction-wrapper.cpp:233-251 | The whole loop is AfterRounds of the two old vectors, keeping the two arrays parallel, whatever they share. |
| DirectionOps.AddDirections | control/direction/direction-wrapper.cpp:220-254 | Add leaves the sum of the two old vectors in its result and in the receiver, unless shared values spoil it, and otherwise exactly what the rounds give; distinct gates stay distinct, and the only new keys are other's. |
| DirectionOps.SubtractDirections | control/direction/direction-wrapper.cpp:260-295 | The same for the old vector plus the negated other. |
| Projection.Project | control/direction/direction.fal:88-96 | Project leaves the projection in its result and in other, which it scales in place; on a zero direction it returns nothing and changes nothing. |
| Projection.AssignDirection | control/direction/direction.fal:108 | Assigning the result's dir_ makes the receiver the same direction and leaves every other direction alone. |
| Projection.Orthogonalize | control/direction/direction.fal:100-109 | Afterwards the receiver is orthogonal, for an other with distinct gates, to the old other and to its scaled version, also when both arguments are on one pair of arrays; with arrays apart, other ends as the projection. |
| AxisGraph.PutVoltage | control/controlAxis/control-axis-wrapper.cpp:89-92 | Writing one voltage in place replaces one element of the list of voltages. |
| AxisGraph.SamePoint | control/controlAxis/control-axis-wrapper.cpp:131-163 | Graphs of equal value stand for the same point, so a clone of a point is the same point. |
| AxisGraph.EraseWithVolts | control/controlAxis/control-axis-wrapper.cpp:289-302 | Replacing voltages acts on values alone: it does not depend on which nodes hold them. |
| ControlAxis.VoltageAt | control/controlAxis/control-axis-wrapper.cpp:85-87 | The i-th voltage read from the clone is the one the edit so far has put there. |
| ControlAxis.SetVoltageValue | control/controlAxis/control-axis-wrapper.cpp:89-92 | Setting the i-th voltage changes that element of the list and leaves gates and arrays as they were. |
| ControlAxis.ShiftEntry | control/controlAxis/control-axis-wrapper.cpp:290-301 | One coefficient is added to the first offset listed for its gate; a gate the axis does not list has no effect. |
| ControlAxis.ShiftOffsets | control/controlAxis/control-axis-wrapper.cpp:289-302 | The nested loops shift the offsets by the whole direction. |
| ControlAxis.Shifted | control/controlAxis/control-axis-wrapper.cpp:275-307 | The result is a private copy of the axis with shifted offsets and equal in everything else; nothing the inputs reach changes. |
| ControlAxis.AmplitudeAt | control/controlAxis/control-axis-wrapper.cpp:344-351 | The amplitude the code looks up: that of the direction's own i-th gate, or 0 for an empty direction. |
| ControlAxis.EvaluateAll | control/controlAxis/control-axis-wrapper.cpp:340-353 | The loop sets every voltage to offset + coordinate * that amplitude. |
| ControlAxis.ToPoint | control/controlAxis/control-axis-wrapper.cpp:324-358 | The result is a private copy of the offset with the evaluated voltages and equal in everything else; the axis does not change. |
| ControlAxis.ZeroOffsets | control/controlAxis/control-axis-wrapper.cpp:309-322 | Every offset voltage of the receiver becomes 0, under any sharing; only value fields of those voltage structs change. On an unshared offset this is the one replacement of its list of voltages by zeros. |
| ControlAxis.FillDirection | control/controlAxis/control-axis-wrapper.cpp:257-268 | The loop lists the offset's gates with the voltage differences, paired by position. |
| ControlAxis.NewFromPoints | control/controlAxis/control-axis-wrapper.cpp:232-273 | The axis is a ControlAxis struct of exactly two fields, a private copy of the offset point and a direction on new structs and arrays that lists the voltage differences; its whole value is given, and both arguments stay as they were. |
| ControlAxis.ZeroAll | control/controlAxis/control-axis-wrapper.cpp:316-319 | The loop sets the value field of every voltage struct listed, once or repeatedly, and nothing else; on an unshared graph under edit the list of voltages ends as zeros. |
| DirectionView.SameDirection | control/controlAxis/control-axis-wrapper.cpp:131-163 | Graphs of equal value are the same direction, so a deep clone keeps an axis's direction. |
| DirectionView.DirectionHere | control/controlAxis/control-axis-wrapper.cpp:34-54 | Where a value unfolds to a direction, the heap holds two parallel arrays that stand for its vector. |
| AxisLaws.PointBetween | control/controlAxis/control-axis-wrapper.cpp:232-358 | ToPoint on an axis built by NewFromPoints is the affine combination of the two points, whatever the points share. |
| AxisLaws.ShiftTwiceAndOnce | control/controlAxis/control-axis-wrapper.cpp:275-307 | For a d1 with no arrays of the axis, shifting twice and shifting once by the Add of the two directions, read before Add, yield axes of equal value in every field: the old axis with its offsets shifted by that sum. |
| AxisLaws.ShiftBySum | control/controlAxis/control-axis-wrapper.cpp:275-307 | Shifting by Add(d1, d2) gives the offset plus both old vectors, also when Add rewrites arrays of the axis itself, such as its own direction. |
| AxisLaws.ShiftOffsetsTwiceAndOnce | control/controlAxis/control-axis-wrapper.cpp:275-307 | The law of the two shifts for the offsets, also for a d1 that is the axis's own direction or a multiple of it, as long as the axis's offset point does not hold its arrays. |
| AxisLaws.ZeroedAxis | control/controlAxis/control-axis-wrapper.cpp:240-322 | ZeroOffsets on an axis built by NewFromPoints leaves the axis that was built with every offset 0 and equal in everything else, gates and direction included, and changes nothing that existed before. |
| AxisMotion.ShiftedToPoint | control/controlAxis/control-axis-wrapper.cpp:275-358 | Calling Shifted and then ToPoint yields the axis's point, shifted, with every other field as in the axis's offset. |
| AxisMotion.MovedAlongAxis | control/controlAxis/control-axis-wrapper.cpp:275-358 | ToPoint at t + u, and ToPoint at t of the axis shifted by u times its direction, yield points of equal value in every field. |
| AxisMotion.MovedByOwnDirection | control/controlAxis/control-axis-wrapper.cpp:275-358 | When Scale by u is called on the axis's own direction and the axis is shifted by its result, the point at t is offset + t * (u * direction) + u * direction, since Scale has rewritten the axis's direction; on an aligned axis that is the old axis's point at t * u + u. |
| AxisMotion.DirectionUnfolds | control/controlAxis/control-axis-wrapper.cpp:34-54 | The converse of DirectionHere: two parallel arrays behind copied Array structs unfold to a direction of the same vector. |
| AxisLaws.NormalizeAndDot | control/direction/direction-wrapper.cpp:172-317 | Normalizing two directions that share no arrays and then taking Dot gives the dot product of the two normalized vectors, which is in [-1, 1]. |
| Strings.Find | strings/strings-wrapper.cpp:192 | The first occurrence at or after a position, or none if there is none. |
| Strings.SplitIsTheLeftmostCut | strings/strings-wrapper.cpp:190-196 | A list of pieces is the cut of s if and only if joining it gives s and no occurrence starts earlier than its separators do. |
| Strings.ReplaceAll | strings/strings-wrapper.cpp:184-198 | The in-place loop ends for every non-empty from, also when to contains it, with the cut pieces joined by to; an empty from changes nothing. |
| Strings.ReplacedLength | strings/strings-wrapper.cpp:184-198 | Every leftmost occurrence is replaced exactly once: the length changes by their number times the difference. |
| Strings.ReplacesFirst | strings/strings-wrapper.cpp:184-198 | From left to right: the first occurrence is replaced and then those in the rest; without one the string stays. |
| Strings.FormatString | strings/strings-wrapper.cpp:14-35 | Format interleaves the pieces of the format with the arguments and keeps a placeholder literally once they run out. |
| Strings.FormatFillsFirst | strings/strings-wrapper.cpp:14-35 | The first placeholder takes the first argument, and the rest of the text the other arguments, in order. |
| Strings.FormatKeeps | strings/strings-wrapper.cpp:14-35 | Without arguments, or without a placeholder, the text stays as it is. |
| Strings.FormatEqualIsReplace | strings/strings-wrapper.cpp:14-35 | With enough arguments, all equal to x, Format is ReplaceAll of the placeholder by x. |
| Strings.FormatSurplus | strings/strings-wrapper.cpp:22-26 | With too few arguments the text from the first unmatched placeholder on is kept verbatim. |
| Strings.UnescapePattern | strings/strings-wrapper.cpp:37-50 | The scan is ReplaceAll of two backslashes by one. |
| Strings.ReplaceRoundTrip | strings/strings-wrapper.cpp:184-198 | Replacing a by sep and back restores s when the first byte of sep occurs in no piece between the a's. |
| Strings.ByteRoundTrip | strings/strings-wrapper.cpp:184-198 | For every byte c not in s, replacing a by c and c by a restores s. |
| Strings.UnescapeUndoesEscape | strings/strings-wrapper.cpp:37-50 | Unescaping a string whose backslashes were all doubled restores it. |
| Io.Kernel.Read | io/io-wrapper.cpp:117 | read(2) on a pipe: the next bytes, end of file only if the pipe is empty and no write end is open, or nothing yet without blocking. |
| Io.StdoutCapture.Begin | io/io-wrapper.cpp:35-91 | A begin succeeds unless the stream is captured already or pipe or dup fails; then the redirected stream is the only way into a new empty pipe. One refused before there is a pipe changes no field, descriptor or device; one whose dup fails leaves the table, the buffer and every older device as they were, and the object's pipe descriptors closed. |
| Io.StdoutCapture.Redirect | io/io-wrapper.cpp:56-60 | The stream's descriptor becomes the pipe's write end and the spare write descriptor is closed. |
| Io.StdoutCapture.Drain | io/io-wrapper.cpp:115-119 | The read loop ends, never waits, and moves exactly the bytes of the pipe to the end of the buffer. |
| Io.StdoutCapture.Peek | io/io-wrapper.cpp:131-145 | Peek returns all text captured so far, keeps the capture going, and restores the blocking mode. |
| Io.StdoutCapture.RestoreStreams | io/io-wrapper.cpp:98-112 | Every captured stream leads again where its saved descriptor does, the saved descriptors are closed, and nobody can write to the pipe. |
| Io.StdoutCapture.ActiveEnds | io/io-wrapper.cpp:93-112 | For one capture that is the table from before Begin plus the pipe's read end. |
| Io.BeginDuring | io/README.md:308 | A begin during a capture leaves the capture under way if and only if it is for the same stream or there is no pipe; it is then refused, and text and devices stay. |
| Io.OtherCaptureLosesText | io/io-wrapper.cpp:64-129 | Beginning to capture the other stream succeeds; ending then restores both streams, but what the first pipe held is not returned and reaches no device, and its read end stays open. |
| Io.StdoutCapture.End | io/io-wrapper.cpp:93-129 | End restores the descriptor table of before Begin exactly, returns all captured text, and sends it once to standard output; with both streams captured it does so for the later pipe. |
| Io.StdoutCapture.WritePast | io/io-wrapper.cpp:147-157 | A bypass write reaches the stream's real device and not the captured text. |
| Io.WriteEvent | io/io-wrapper.cpp:147-157 | A write or bypass write during a capture adds exactly its bytes to the pipe if the capture takes it, and to the right device if not. |
| Io.Perform | io/io-wrapper.cpp:131-157 | Any one stream write, bypass write, Peek or refused Begin keeps the capture's invariant, adds its bytes to the right place, and a Peek returns all captured so far. |
| Io.RunEvents | io/io-wrapper.cpp:131-157 | The same over every sequence of such events. |
| Io.Session | io/io-wrapper.cpp:35-157 | For every interleaving of writes, Peeks and refused begins, End returns the captured writes in order, each Peek what was captured before it, every device receives its direct and bypass writes and then stdout's the captured text once, and the table is restored; captured text reaches the captured stream's own device exactly under TeeKept. |
| Io.PeeksGrow | io/README.md:153-165 | Successive Peeks return growing prefixes of what End returns. |
| Io.BytesConserved | io/io-wrapper.cpp:35-157 | After End the devices of stdout and stderr, two or one, have received every byte written exactly once, counted byte by byte. |
| Io.StderrReceivesOnlyPast | io/io-wrapper.cpp:93-129 | After a capture of stderr with a device of its own, End included, that device has received the bypass writes only. |
| Io.TeeIff | io/README.md:137-148 | What a capture leaves on the captured stream's device is its other bytes and then the captured text, as documented, if and only if the stream is stdout, both streams are one device, or nothing was printed to it. |
| Io.StderrTextGoesToStdout | io/io-wrapper.cpp:64-129 | A capture for which the documented tee fails: text printed to a captured stderr ends on stdout's device. |
| Manifest.ReadLines | scripts/update_hashes.py:20-21 | The lines read, put together, are the text. |
| ManifestLaws.ReadGivesLines | scripts/update_hashes.py:20-21 | They are cut after every newline and nowhere else: each holds one newline, at its end, except perhaps the last. |
| Manifest.FindEntry | scripts/update_hashes.py:46-51 | The search finds the first library, in directory order, that the line mentions by either form of its name. |
| Manifest.AddMissing | scripts/update_hashes.py:63-67 | The loop adds an entry for each library that has none yet, in order, and marks it. |
| Manifest.AddAll | scripts/update_hashes.py:76-78 | The loop lists an entry for every library, in order. |
| Manifest.UpdateManifest | scripts/update_hashes.py:15-82 | The script's loops compute the line machine Update, whose properties the following rows state. |
| ManifestLaws.EntryRecognisedIff | scripts/update_hashes.py:48-55 | A written entry is read back as the entry of its own library if and only if no library listed earlier has a name contained in its name. |
| ManifestShape.EntryText | scripts/update_hashes.py:54-55 | An entry is indented, and holds path, colon and hash on a line of its own. |
| ManifestShape.WhiteSpaceIs | scripts/update_hashes.py:38 | What strip removes: the white space of ASCII and of Unicode, character by character. |
| ManifestShape.StripIs | scripts/update_hashes.py:38 | Strip takes white space off both ends, and all of it. |
| ManifestShape.MentionedIsFirst | scripts/update_hashes.py:46-51 | A line is taken for the first library, in directory order, whose name occurs in it, and for none if there is none. |
| ManifestShape.EndingIff | scripts/update_hashes.py:59 | A line ends a section if and only if it is no heading, names no library, and is blank or holds a colon without starting with '-' or "build/"; every other line leaves it open. |
| ManifestShape.OutsideStays | scripts/update_hashes.py:71 | Outside a section every line stays and nothing is marked. |
| ManifestShape.InsideIsRewritten | scripts/update_hashes.py:44-71 | Inside a section every line that names a library becomes its entry, one for one, the others stay, and the section stays open. |
| ManifestShape.AbsentInOrder | scripts/update_hashes.py:63-67 | The entries added are those of the libraries not marked, each once and in directory order. |
| ManifestShape.SectionIsCompleted | scripts/update_hashes.py:37-81 | For a manifest whose section some line ends, a blank one or the next key, the new lines are given exactly: the missing entries stand directly in front of that line, the lines before and after stay, and every library is listed. |
| ManifestShape.OpenSectionIsRewritten | scripts/update_hashes.py:37-81 | For a section open at the end, its lines become entries where they stand; if none names a library, the text stays and a section with every entry follows. |
| ManifestShape.NoSectionIsAppended | scripts/update_hashes.py:73-78 | Without a heading the text stays and a section with every entry follows. |
| ManifestLaws.ReadBack | scripts/update_hashes.py:20-81 | Writing lines and reading them again gives the same lines. |
| ManifestLaws.PassStable | scripts/update_hashes.py:37-71 | A second pass over the lines of a first changes none and ends in the same state, from any state, if every entry written is read back as its own library's. |
| ManifestLaws.SecondRunAfterSome | scripts/update_hashes.py:15-82 | If the first run recognised a library, and what it writes is read back as its own, the second run changes nothing. |
| ManifestLaws.SecondRunAfterNone | scripts/update_hashes.py:73-78 | If it recognised none, and every library's entry is read back as its own, the next run recognises every library, and the second run's text is given exactly. |
| ManifestLaws.UnsettledIff | scripts/update_hashes.py:37-71 | The exceptional state, read off the lines: there is an ffi heading, and after a heading come only headings and lines that neither close the section nor mention a library. |
| ManifestLaws.MisreadAfterSome | scripts/update_hashes.py:37-71 | If the first run recognised a library and writes an entry that is misread as another library's, the second run changes the text. |
| ManifestLaws.IdempotentIff | scripts/update_hashes.py:15-82 | For every build and text, running the script twice equals running it once if and only if the text does not end, with a newline, in an ffi section with nothing recognised, and no library listed earlier has a name contained in that of a library whose entry is written. |
| ManifestLaws.PlainIff | scripts/update_hashes.py:15-82 | The builds for which every text but that kind is stable after one run, and the builds for which the empty text is, are those in which no library name is contained in a later one. |
| ManifestLaws.SettlesIff | scripts/update_hashes.py:15-82 | The builds for which a third run never changes anything are the same; for any other build, a section that a blank line closes at once is a text that the third run changes. |
| ManifestLaws.BareHeadingIsUnsettled | scripts/update_hashes.py:73-78 | A manifest that is just an ffi heading is such a text for every build. |
| ManifestLaws.SecondRunSettles | scripts/update_hashes.py:15-82 | For a build in which no library name is contained in a later one, a third run never changes anything. |
| ManifestLaws.PassKeepsAndMarks | scripts/update_hashes.py:37-71 | The lines kept are the unrecognised ones, all of them and in order, and the libraries marked are those that got an entry. |
| ManifestLaws.UpdatePreserves | scripts/update_hashes.py:37-81 | The new text consists of the unrecognised lines, verbatim and in order, and of current entries; if nothing was recognised the old text is kept whole in front. |
| ManifestLaws.CompleteIff | scripts/update_hashes.py:37-78 | For a build in which no library name is contained in a later one, a second reading recognises every library, as an entry in an open section or because a line ended one, if and only if the first reading recognised none or all; and what it recognises is listed with its current entry. |
| ManifestLaws.DoneIsRecognised | scripts/update_hashes.py:37-71 | Which libraries the script marks, read off the lines: those that some line in an open section mentions first, and all of them if a line ends such a section. |
| ManifestLaws.ListedIff | scripts/update_hashes.py:37-81 | A library leaves listed with its current hash if and only if the manifest had none recognised, or recognised this one, or held its current entry among the lines the script leaves alone; for a library whose entry is read back as its own, among any lines. |
| ManifestLaws.EveryLibraryListed | scripts/update_hashes.py:59-78 | With no ffi heading, or with an ffi section that some line closes, every built library has a line with its current hash. |
| Testing.PassesIff | testing/testing-wrapper.cpp:23-26 | A test passes if and only if all its expectations hold. |
| Testing.FailuresAt | testing/testing-wrapper.cpp:25 | Every expectation that fails adds its own message, in its own place. |
| Testing.TestContext.Expect | testing/testing-wrapper.cpp:25 | A failed expectation appends its message; one that holds changes nothing; neither aborts. |
| Testing.TestRunner.Register | testing/testing-wrapper.cpp:51 | A name is appended and no result changes. |
| Testing.TestRunner.BeginCurrent | testing/testing-wrapper.cpp:60-66 | The context is new, has the current test's name and no failures. |
| Testing.TestRunner.EndCurrent | testing/testing-wrapper.cpp:68-82 | Result, messages and index advance together and agree: the result is true if and only if there are no failures. |
| Testing.TestRunner.Passed | testing/testing-wrapper.cpp:44 | The loop's result is the number of indices at which the result is true. |
| Testing.TestRunner.Failed | testing/testing-wrapper.cpp:45 | Passed and failed add up to the total; after a complete run failed is 0 if and only if no test has a failure. |
| Testing.TestRunner.Summary | testing/testing-wrapper.cpp:84-104 | Once there is no next test the summary indexes in range and gives every test's account, then the totals that are not 0. |
| Testing.SummaryIsFaithful | testing/testing-wrapper.cpp:89-97 | The summary names every test once, in order and with its result, and gives every failure message once, in order. |
| Testing.SummaryIsInOrder | testing/testing-wrapper.cpp:89-97 | The account line by line: the line of each test in order, directly followed by its failure messages. |
| Testing.RunCurrent | testing/README.md:43-46 | One turn of the harness runs setup, the test and teardown for the test whose turn it is, in this order, records the failures of both, and hands on the state the teardown leaves. |
| Testing.TeardownCounts | testing/README.md:43-46 | Over a whole suite: each test runs on what setup makes of the state before it, its teardown runs on what the test leaves and counts towards the test, and the next setup gets what the teardown leaves. |
| Testing.Init | testing/README.md:42 | All test names are registered, in order, and no test has run. |
| Testing.Loop | testing/README.md:43-46 | The loop ends after running each registered test once, in order, with the results of running them one after the other. |
| Testing.RunSuite | testing/README.md:36-47 | For every suite: each test runs once in order, passed is the number of tests without a failure, passed + failed is the number of tests, failed is 0 if and only if no expectation failed, and the summary is the account of all tests and the totals. |
| Testing.ResettingSetupIsolates | testing/README.md:78-118 | With a setup that resets every shared variable, a test's failures do not depend on what ran before it. |

## Left out

- falconCore, hub and database: marshalling around libraries that are not part of this model, and all JSON conversions.
- The packing and unpacking of arguments for foreign calls: every model starts from unpacked arguments.
- control/math, collections and the string routines contains, prefix, suffix, substring and trim: each is a single expression or step. Regular expressions, number parsing and case conversion belong to the C++ standard library.
- log: configuration only.
- Floating point: doubles are reals, so rounding, overflow and NaN are not modelled. A square root is any non-negative number whose square is the argument, passed in as root. `coeff / norm` is multiplication by `1 / norm`, and `lhs - rhs` is addition of `-rhs`.
- Equality of runtime values: the operator on StructInstance is not part of this model. Gates are structs with a name and are compared by name, both where the code uses `==` and where it uses `runtime_equal`.
- Strings: bytes are Dafny characters.
- RuntimeGraph.CloneStruct: requires that the value unfolds to a finite graph; on a cyclic graph the code does not terminate. An Array struct's handle is required to be an array, since the code casts it unchecked.
- DirectionOps.AddDirections: requires, as every routine on directions does, that keys and values are two arrays of equal length, of gates and of numbers.
- Projection.Orthogonalize: requires other not to be zero; for a zero other the code subtracts a direction that was never assigned, which is not part of this model. What becomes of other's vector is not stated when the two directions share one of their arrays.
- AxisMotion.MovedByOwnDirection: requires an acyclic axis whose offset point does not hold the direction's values array.
- AxisLaws.ShiftBySum: requires that d1 has no array of the axis's own offset point, since new gates in the offset's keys would have no voltages, and that d2's gates do not reach d1's keys, since the axis would be cyclic and its clone would not end.
- ControlAxis.NewFromPoints: requires the second point to list at least as many voltages as the first, since the code indexes it by position.
- ControlAxis.Shifted: requires at least one gate, since the code reads element 0 after its loop; so does ControlAxis.ToPoint.
- Io: stdio buffering, pipe capacity, the mutex and the debug messages. What the operating system hands out (descriptors, pipes, failures) is the parameter Grant.
- Io.BeginDuring: events after a begin that overlays a capture are not described, except End; neither is what becomes of a capture when the dup of such a begin fails, because the object then holds closed descriptors.
- Manifest: the file accesses, the early returns when there is no manifest or build directory, and the computation of the hash, which is any function from file names to hexadecimal strings. Texts are as Python reads them, with line ends already translated.
- ManifestLaws.IdempotentIff: requires library file names as a directory lists them (each once, ending in .so, no slash), without line breaks, which Python would translate on reading.
- ManifestLaws.CompleteIff: requires that no library name is contained in one listed later; otherwise no reading recognises the library whose entry is misread, except where a line ends a section.
- Testing: colours and wording; how a failed comparison's message is put together. Tests act on shared variables only through their own states.
