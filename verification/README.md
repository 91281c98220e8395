# Matrix<T> in Dafny

This project models `Matrix<T>` from the IUP Matrices toolkit: a generic
two-dimensional grid stored rows-first. Dimension 0 is the row (`y`) and
dimension 1 the column (`x`). `Width` is the length of dimension 1 and `Height`
the length of dimension 0.

The matrix offers:

- coordinate indexers, by `(x, y)` or by a coordinate value;
- a bounds predicate;
- bulk initialisation from a position-keyed function;
- row-major flattening;
- `Recreate`, which wipes the matrix to a new size;
- `Resize`, which grows or shrinks each axis and keeps an aligned overlap of
  the old content.

Files:

- `csharp_int.dfy` (module `CSharpInt`): C#'s truncating `/` and `%` for a
  positive divisor. Dafny's own operators are Euclidean.
- `resize_rules.dfy` (module `ResizeRules`): the rule enums `WidthResizeRule`
  and `HeightResizeRule`, and the `Alignment` each one selects. In the source
  this is an integer code 0..3; here it is a closed datatype.
- `axis_plan.dfy` (module `AxisPlan`): the per-axis copy plan of `Resize`
  (`CalculateMatrixComponentParams`) as pure functions, with lemmas on
  iteration counts, bounds, and where each rule puts the change.
- `row_major.dfy` (module `RowMajor`): row-major flattening of a rectangular
  grid, with the lemma that element `i` is column `i % width` of row
  `i / width`.
- `matrix.dfy` (module `Matrices`): class `Matrix<T>` over an `array2<T>`, the
  copy loop of `Resize`, and the lemmas about the two defects listed under
  Findings.

C#'s `default(T)` is the constant field `DefaultValue`, which is fixed when the
matrix is constructed. Every allocation fills its cells with it.

`Resize` is modelled as the code is written:

- It allocates the new storage as `[updatedWidth, updatedHeight]`, so
  afterwards `Height` is the updated width and `Width` the updated height.
- Its precondition `ResizeCopyFits` is exactly the condition under which the
  copy loop stays inside that storage. Outside it, the runtime throws.
- An axis whose size does not change copies nothing.

Both behaviours go against the source's own conventions. The constructor
(`Matrix.cs:29`) and `Recreate` (`Matrix.cs:75`) allocate `[height, width]`.
The doc comment of `Resize` (`Matrix.cs:81-84`) says a positive offset adds
columns or rows according to the rule, not that the content is discarded.
The model follows the code, and `ResizeIntended` is the corrected variant
(see Findings).

Like the source, `Resize` and `ResizeIntended` default to offsets 0 and the
rules `Left` and `Up`.

## Model

| member | source | states |
|---|---|---|
| CSharpInt.CsDiv | Matrices/Runtime/Matrix.cs:144-167 | C# `/` by a positive divisor rounds toward zero: the remainder it leaves is in `[0, b)` for a non-negative dividend and in `(-b, 0]` for a negative one |
| CSharpInt.CsRem | Matrices/Runtime/Matrix.cs:145-156 | C# `%` by a positive divisor differs from the dividend by a multiple of the divisor, is smaller than the divisor in magnitude and takes the sign of the dividend; together these fix its value |
| CSharpInt.OddTestIsParity | Matrices/Runtime/Matrix.cs:145-156 | the odd-unit test `offset % 2 != 0` of the centre rules holds exactly when the offset is odd, for either sign |
| ResizeRules.WidthAlignment | Matrices/Runtime/Matrix.cs:177-184 | `Left` selects the start code, `Right` the end code, `CenterLeft` the centre-start code and `CenterRight` the centre-end code, each in both directions: no other rule selects that code |
| ResizeRules.HeightAlignment | Matrices/Runtime/Matrix.cs:194-201 | `Up` selects the start code, `Down` the end code, `CenterUp` the centre-start code and `CenterDown` the centre-end code, each in both directions: no other rule selects that code |
| ResizeRules.WidthAlignmentBijective | Matrices/Runtime/Matrix.cs:177-184 | the width-rule switch gives each of the four rules its own code and reaches every code |
| ResizeRules.HeightAlignmentBijective | Matrices/Runtime/Matrix.cs:194-201 | the height-rule switch gives each of the four rules its own code and reaches every code |
| AxisPlan.ClampedSize | Matrices/Runtime/Matrix.cs:94-103 | the updated size is the least non-negative value at or above `size + offset`: an offset past zero is clamped, never rejected |
| AxisPlan.AlignedPlan | Matrices/Runtime/Matrix.cs:124-173 | the rule switch never yields a negative offset and leaves at least one of the two offsets zero; for a consistent change to a positive size, the copy stays inside both the old and the new axis |
| AxisPlan.ComponentPlan | Matrices/Runtime/Matrix.cs:110-175 | `CalculateMatrixComponentParams` as written: offsets are non-negative and one of them is zero; when the updated size is the clamp of `oldSize + offset`, then `oldOffset + iterCount <= oldSize` and `newOffset + iterCount <= updatedSize` |
| AxisPlan.PlanFor | Matrices/Runtime/Matrix.cs:185-208 | the plan `Resize` computes for one axis never reads past the old axis or writes past the clamped new one |
| AxisPlan.IterCountIsOverlap | Matrices/Runtime/Matrix.cs:119-124 | the iteration count is 0 when the updated size is 0 or equals the old size, and is otherwise `min(oldSize, updatedSize)` |
| AxisPlan.GapsSplitOffset | Matrices/Runtime/Matrix.cs:124-169 | whenever an axis really changes size, under every rule, the unmatched positions at the start plus those at the end equal `abs(offset)` |
| AxisPlan.StartRulePlan | Matrices/Runtime/Matrix.cs:127-136 | start rule: growth gives `newOffset = offset`, `oldOffset = 0`; shrinking gives `oldOffset = -offset`, `newOffset = 0`; the end gap is empty either way |
| AxisPlan.EndRulePlan | Matrices/Runtime/Matrix.cs:138-139 | end rule: both offsets are 0, so the start gap is empty |
| AxisPlan.CenterRulePlans | Matrices/Runtime/Matrix.cs:141-169 | centre rules: the start-tie-break rule puts `ceil(abs(offset)/2)` on the start side and the end-tie-break rule `floor(abs(offset)/2)`, as `newOffset` when growing and as `oldOffset` when shrinking; they differ by `abs(offset) % 2` |
| AxisPlan.UnchangedAxisCopiesNothing | Matrices/Runtime/Matrix.cs:122 | as written, an axis whose clamped size equals its old size has iteration count 0 |
| AxisPlan.IntendedPlan | Matrices/Runtime/Matrix.cs:119-124 | corrected guard (`updatedSize > 0` only): the same offset and bounds guarantees as the plan as written |
| AxisPlan.IntendedPlanFor | Matrices/Runtime/Matrix.cs:185-208 | the corrected per-axis plan never reads past the old axis or writes past the clamped new one |
| AxisPlan.IntendedPlanKeepsOverlap | Matrices/Runtime/Matrix.cs:119-124 | the corrected plan copies `min(oldSize, updatedSize)` elements, equals the plan as written whenever the size changes, and is the identity `(oldSize, 0, 0)` when it does not |
| RowMajor.FlattenLength | Matrices/Runtime/Matrix.cs:244 | a flattened rectangular grid has `height * width` elements |
| RowMajor.FlattenAt | Matrices/Runtime/Matrix.cs:245-250 | element `i` of the flattened grid is row `i / width`, column `i % width`, and that row exists |
| RowMajor.FlattenCell | Matrices/Runtime/Matrix.cs:245-250 | for a `width` x `height` grid and `i < width * height`: the width is positive, `i / width < height`, `i % width < width`, and element `i` of the flattening is that cell |
| Matrices.ResizeCopyFits | Matrices/Runtime/Matrix.cs:210-218 | holds exactly when every cell the copy as written writes, at row `y` and column `x`, has `0 <= y` below the updated width (the length of dimension 0) and `0 <= x` below the updated height (the length of dimension 1): the copy then cannot throw |
| Matrices.CopyOverlap | Matrices/Runtime/Matrix.cs:211-218 | after the nested loop, each target cell inside the copied rectangle holds the source cell its two plans map it from; every other target cell is unchanged |
| Matrices.CopiedInto | Matrices/Runtime/Matrix.cs:210-218 | fresh `rows` x `cols` storage in which each cell of the copied rectangle holds the source cell its plans map it from, and every other cell is default |
| Matrices.CopyRowMajor | Matrices/Runtime/Matrix.cs:244-250 | the loop of `ToArray` fills a fresh array with exactly the rows of the storage laid out one after another |
| Matrices.Matrix.Count | Matrices/Runtime/Matrix.cs:41 | the element count is the number of elements the rows hold together |
| Matrices.Matrix.Cells | Matrices/Runtime/Matrix.cs:43 | the storage viewed as `Height()` rows of `Width()` elements, with row `y`, column `x` equal to `cells[y, x]` |
| Matrices.Matrix.Empty | Matrices/Runtime/Matrix.cs:17-20 | the parameterless constructor gives a fresh 0 x 0 matrix |
| Matrices.Matrix.constructor | Matrices/Runtime/Matrix.cs:27-30 | `Width() == width`, `Height() == height`, every in-domain cell is default |
| Matrices.Matrix.IsCoordinateInDefinitionDomain | Matrices/Runtime/Matrix.cs:270-273 | true exactly when `y` is a valid row index and `x` a valid column index of the storage |
| Matrices.Matrix.IsCoordinateInDefinitionDomainAt | Matrices/Runtime/Matrix.cs:259-262 | the coordinate-value overload answers the same as the `(x, y)` one |
| Matrices.Matrix.At | Matrices/Runtime/Matrix.cs:62-64 | the `(x, y)` getter returns column `x` of row `y` of the matrix's contents |
| Matrices.Matrix.AtCoordinate | Matrices/Runtime/Matrix.cs:50-52 | the coordinate-value getter returns the same element as the `(x, y)` getter |
| Matrices.Matrix.Set | Matrices/Runtime/Matrix.cs:62-66 | after writing `v` at `(x, y)`, reading `(x, y)` gives `v` and every other cell is unchanged |
| Matrices.Matrix.SetAtCoordinate | Matrices/Runtime/Matrix.cs:50-54 | the coordinate-value setter writes the same cell as the `(x, y)` one: both getters then return `v`, and nothing else changes |
| Matrices.Matrix.Recreate | Matrices/Runtime/Matrix.cs:73-76 | fresh storage with `Width() == width` and `Height() == height`; every cell is default whatever the old content was |
| Matrices.Matrix.InitAllElements | Matrices/Runtime/Matrix.cs:227-236 | afterwards every in-domain cell `(x, y)` equals `init(x, y)` |
| Matrices.Matrix.ToArray | Matrices/Runtime/Matrix.cs:242-252 | a fresh array of `Count()` elements; element `i` is `At(i % Width(), i / Width())`, whose coordinate is in the domain; the array is the row-major flattening of the rows; when the matrix is empty, so is the array |
| Matrices.Matrix.Resize | Matrices/Runtime/Matrix.cs:88-220 | as written: requires the swapped storage to fit the copy; afterwards `Height()` is the clamped new width and `Width()` the clamped new height; each storage cell `[y, x]` in the copied rectangle holds the old storage cell its plans map it from, and every other cell is default |
| Matrices.Matrix.ResizeIntended | Matrices/Runtime/Matrix.cs:88-220 | corrected: with no precondition, `Width()` and `Height()` are the clamped new sizes; each storage cell `[y, x]` in the copied rectangle of the corrected plans holds the old storage cell they map it from, and every other cell is default |
| Matrices.SquareResizeFits | Matrices/Runtime/Matrix.cs:210-218 | when the two clamped sizes are equal, the copy as written never leaves the swapped storage |
| Matrices.SquareResizeAgrees | Matrices/Runtime/Matrix.cs:119-218 | when both axes change size and the two clamped sizes are equal, the copy as written fits and uses the same plans as the corrected variant, so `Resize` and `ResizeIntended` leave the same state |
| Matrices.SwappedAllocationThrows | Matrices/Runtime/Matrix.cs:210-216 | a 3 x 3 matrix grown by two columns and one row breaks the copy precondition as written; the corrected plans fit the correctly shaped storage |
| Matrices.ZeroOffsetDiscardsContent | Matrices/Runtime/Matrix.cs:119-219 | as written, a zero offset on either axis leaves no cell in the copied rectangle, so the resized matrix is entirely default |
| Matrices.IntendedZeroResizeIsIdentity | Matrices/Runtime/Matrix.cs:119-124 | with the corrected plans, resizing by zero on both axes maps every cell onto itself |
| Matrices.GrowLeftScenario | Matrices/Runtime/Matrix.cs:127-136 | growing a 3-wide axis by 2 under `Left` copies 3 columns to new columns 2..4; as written, an unchanged 3-high axis copies nothing, and corrected it copies all 3 rows in place |
| Matrices.ShrinkRightScenario | Matrices/Runtime/Matrix.cs:138-139 | the width plan for shrinking a 3-wide axis by 1 under `Right` maps old columns 0..1 to the same columns; as written it takes effect only if the height changes too, since an unchanged height copies nothing |
| Matrices.CenterLeftScenario | Matrices/Runtime/Matrix.cs:141-158 | the width plan for growing a 4-wide axis by 3 under `CenterLeft` gives width 7 and maps the old columns to 2..5; as written it takes effect only if the height changes too, since an unchanged height copies nothing |

## Findings

| source | as written | input that shows it | evidently intended | confidence | as-written member | corrected member |
|---|---|---|---|---|---|---|
| Matrices/Runtime/Matrix.cs:210 | the new storage is `new T[updatedWidth, updatedHeight]`, so the rows get the updated width | a 3 x 3 matrix and `Resize(2, 1, Left, Up)`: the copy writes column index 4 into storage with 4 columns and throws; `Resize(2, 0)` ends with `Width` 3 and `Height` 5 | `new T[updatedHeight, updatedWidth]`, as in the constructor and `Recreate` | high, not executed | Matrices.SwappedAllocationThrows | Matrices.Matrix.ResizeIntended |
| Matrices/Runtime/Matrix.cs:122 | an axis is copied only when `updatedSize > 0 && updatedSize != oldSize` | a 3 x 3 matrix and `Resize(2, 0, Left, Up)`: the height is unchanged, so its iteration count is 0 and every cell becomes default | an axis whose size does not change is copied whole (guard `updatedSize > 0`) | medium, not executed | Matrices.ZeroOffsetDiscardsContent | AxisPlan.IntendedPlanKeepsOverlap |

## Left out

- `GetEnumerator` (both overloads) is not modelled. It returns the .NET enumerator of the two-dimensional array through a cast and has no logic of its own.
- The read-only interfaces are not modelled as separate types. `IReadOnlyMatrixIndexer<T>` only declares `Width`, `Height` and the two getters, and the class offers all four directly. `IReadonlyMatrix<T>`, which the class implements, is not part of this model.
- The `ArgumentOutOfRangeException` default branches of the rule switches are left out. The rules and codes are closed datatypes here, so those branches cannot be reached.
- `Vector2Int` is the datatype `Coordinate(x, y)`.
- `default(T)` is the field `DefaultValue`, a value chosen at construction.
- Integer width: sizes, offsets and products are unbounded. The model ignores C# 32-bit overflow in `Width + widthOffset`, `Width * Height` and `-componentOffset`.
- Matrices.Matrix.constructor, Matrices.Matrix.Recreate: the runtime throws on a negative size; here negative sizes are excluded by the precondition.
- Matrices.Matrix.At: an out-of-range index throws at runtime; here it is excluded by a precondition, and `IsCoordinateInDefinitionDomain` is the caller's guard. The same holds for `AtCoordinate`, `Set` and `SetAtCoordinate`.
- Matrices.Matrix.Resize: the throwing case is excluded by the precondition `ResizeCopyFits`. A throw happens before `_matrix` is reassigned, so the matrix itself is never left half-updated.
- Matrices.Matrix.InitAllElements: the callback is a pure function of `(x, y)`. The source's order of calls (row by row) matters only for a callback with side effects, and is not modelled.
- Matrices.Matrix.Width, Matrices.Matrix.Height: plain reads of the storage lengths, with no contract of their own. The other members' contracts use them.
