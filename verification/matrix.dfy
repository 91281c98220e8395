/** `Matrix<T>`: a two-dimensional grid over a rows-first `array2<T>`, with
    coordinate access, a bounds predicate, bulk initialisation, row-major
    flattening, recreation and resizing that keeps an aligned overlap. */
module Matrices {
  import opened ResizeRules
  import opened AxisPlan
  import opened RowMajor

  /** A cell address: `x` is the column, `y` the row. */
  datatype Coordinate = Coordinate(x: int, y: int)

  /** `Resize` allocates its new storage as `[updatedWidth, updatedHeight]`, so
      dimension 0 (rows) has the updated WIDTH as its length and dimension 1
      (columns) the updated HEIGHT. The copy indexes dimension 0 with row numbers
      and dimension 1 with column numbers, so it stays inside that storage
      exactly when this holds: every cell the copy writes, at row `y` and column
      `x`, has `y` below the updated width and `x` below the updated height.
      Otherwise the runtime throws. */
  predicate ResizeCopyFits(width: int, height: int, widthOffset: int, heightOffset: int,
                           widthRule: WidthResizeRule, heightRule: HeightResizeRule): (r: bool)
    ensures var px := PlanFor(width, widthOffset, WidthAlignment(widthRule));
            var py := PlanFor(height, heightOffset, HeightAlignment(heightRule));
            r <==> forall x, y :: InCopy(px, py, x, y) ==>
                     0 <= y < ClampedSize(width, widthOffset) &&
                     0 <= x < ClampedSize(height, heightOffset)
  {
    var px := PlanFor(width, widthOffset, WidthAlignment(widthRule));
    var py := PlanFor(height, heightOffset, HeightAlignment(heightRule));
    var fits := px.iterCount <= 0 || py.iterCount <= 0 ||
      (py.newOffset + py.iterCount <= ClampedSize(width, widthOffset) &&
       px.newOffset + px.iterCount <= ClampedSize(height, heightOffset));
    // The last cell of the copied rectangle is the one that breaks the bounds.
    assert !fits ==> InCopy(px, py, px.newOffset + px.iterCount - 1, py.newOffset + py.iterCount - 1);
    fits
  }

  /** The nested copy loop of `Resize`: for every row `y < py.iterCount` and
      column `x < px.iterCount`, `target[y + py.newOffset, x + px.newOffset]`
      receives `source[y + py.oldOffset, x + px.oldOffset]`; every other cell of
      `target` keeps its value. */
  method CopyOverlap<T>(source: array2<T>, target: array2<T>, px: Plan, py: Plan)
    requires source != target
    requires 0 <= px.oldOffset && 0 <= px.newOffset && 0 <= py.oldOffset && 0 <= py.newOffset
    requires py.oldOffset + py.iterCount <= source.Length0
    requires px.oldOffset + px.iterCount <= source.Length1
    requires px.iterCount <= 0 || py.iterCount <= 0 ||
             (py.newOffset + py.iterCount <= target.Length0 &&
              px.newOffset + px.iterCount <= target.Length1)
    modifies target
    ensures forall y, x :: 0 <= y < target.Length0 && 0 <= x < target.Length1 ==>
              target[y, x] ==
                if InCopy(px, py, x, y)
                then source[y - py.newOffset + py.oldOffset, x - px.newOffset + px.oldOffset]
                else old(target[y, x])
  {
    var y := 0;
    while y < py.iterCount
      invariant y == 0 || 0 < y <= py.iterCount
      invariant forall j, i :: 0 <= j < target.Length0 && 0 <= i < target.Length1 ==>
                  target[j, i] ==
                    if InCopy(px, py.(iterCount := y), i, j)
                    then source[j - py.newOffset + py.oldOffset, i - px.newOffset + px.oldOffset]
                    else old(target[j, i])
    {
      var x := 0;
      while x < px.iterCount
        invariant x == 0 || 0 < x <= px.iterCount
        invariant forall j, i :: 0 <= j < target.Length0 && 0 <= i < target.Length1 ==>
                    target[j, i] ==
                      if InCopy(px, py.(iterCount := y), i, j) ||
                         (j == y + py.newOffset && px.newOffset <= i < px.newOffset + x)
                      then source[j - py.newOffset + py.oldOffset, i - px.newOffset + px.oldOffset]
                      else old(target[j, i])
      {
        target[y + py.newOffset, x + px.newOffset] := source[y + py.oldOffset, x + px.oldOffset];
        x := x + 1;
      }
      y := y + 1;
    }
  }

  /** Fresh `rows` x `cols` storage filled with `d`, into which `CopyOverlap`
      copies the overlap of `source` under the two plans. */
  method CopiedInto<T>(source: array2<T>, px: Plan, py: Plan, rows: nat, cols: nat, d: T)
      returns (target: array2<T>)
    requires 0 <= px.oldOffset && 0 <= px.newOffset && 0 <= py.oldOffset && 0 <= py.newOffset
    requires py.oldOffset + py.iterCount <= source.Length0
    requires px.oldOffset + px.iterCount <= source.Length1
    requires px.iterCount <= 0 || py.iterCount <= 0 ||
             (py.newOffset + py.iterCount <= rows && px.newOffset + px.iterCount <= cols)
    ensures fresh(target) && target.Length0 == rows && target.Length1 == cols
    ensures forall y, x :: 0 <= y < rows && 0 <= x < cols ==>
              target[y, x] ==
                if InCopy(px, py, x, y)
                then source[y - py.newOffset + py.oldOffset, x - px.newOffset + px.oldOffset]
                else d
  {
    target := new T[rows, cols]((_, _) => d);
    CopyOverlap(source, target, px, py);
  }

  /** The loop of `ToArray`: element `i` of a fresh array receives storage cell
      `[i / width, i % width]`, which lays the rows of `g` out one after another. */
  method CopyRowMajor<T>(m: array2<T>, ghost g: seq<seq<T>>, d: T) returns (a: array<T>)
    requires |g| == m.Length0 && IsRectangular(g, m.Length1)
    requires forall y, x :: 0 <= y < m.Length0 && 0 <= x < m.Length1 ==> g[y][x] == m[y, x]
    ensures fresh(a) && a[..] == Flatten(g)
  {
    var width, height := m.Length1, m.Length0;
    a := new T[width * height](_ => d);
    FlattenLength(g, width);
    var i := 0;
    while i < a.Length
      invariant 0 <= i <= a.Length == |Flatten(g)|
      invariant forall k :: 0 <= k < i ==> a[k] == Flatten(g)[k]
    {
      FlattenCell(g, width, height, i);
      a[i] := m[i / width, i % width];
      i := i + 1;
    }
  }

  class Matrix<T> {
    /** The value a freshly allocated element holds (C#'s `default(T)`). */
    const DefaultValue: T
    /** The storage: dimension 0 is the row (y), dimension 1 the column (x). */
    var cells: array2<T>

    /** Number of columns: the length of dimension 1. */
    function Width(): nat
      reads this
    {
      cells.Length1
    }

    /** Number of rows: the length of dimension 0. */
    function Height(): nat
      reads this
    {
      cells.Length0
    }

    /** The number of elements held: as many as the rows hold together. */
    function Count(): (n: int)
      reads this, cells
      ensures n == |Flatten(Cells())|
    {
      FlattenLength(Cells(), Width());
      cells.Length0 * cells.Length1
    }

    /** The contents as a list of rows, each a list of column values. */
    ghost function Cells(): (g: seq<seq<T>>)
      reads this, cells
      ensures |g| == Height() && IsRectangular(g, Width())
      ensures forall y, x :: 0 <= y < Height() && 0 <= x < Width() ==> g[y][x] == cells[y, x]
    {
      var a := cells;
      seq(a.Length0, y requires 0 <= y < a.Length0 reads a =>
        seq(a.Length1, x requires 0 <= x < a.Length1 reads a => a[y, x]))
    }

    /** An empty 0 x 0 matrix. */
    constructor Empty(defaultValue: T)
      ensures DefaultValue == defaultValue && fresh(cells)
      ensures Width() == 0 && Height() == 0 && Cells() == []
    {
      DefaultValue := defaultValue;
      cells := new T[0, 0]((_, _) => defaultValue);
    }

    /** A `width` x `height` matrix with every element default. */
    constructor (width: int, height: int, defaultValue: T)
      requires 0 <= width && 0 <= height
      ensures DefaultValue == defaultValue && fresh(cells)
      ensures Width() == width && Height() == height
      ensures forall x, y :: IsCoordinateInDefinitionDomain(x, y) ==> At(x, y) == defaultValue
    {
      DefaultValue := defaultValue;
      cells := new T[height, width]((_, _) => defaultValue);
    }

    /** The coordinate addresses an element: its row exists and its column lies
        within that row. */
    function IsCoordinateInDefinitionDomain(x: int, y: int): (r: bool)
      reads this
      ensures r <==> 0 <= y < cells.Length0 && 0 <= x < cells.Length1
    {
      x >= 0 && x < Width() && y >= 0 && y < Height()
    }

    /** The coordinate-value overload gives the same answer as the (x, y) one. */
    function IsCoordinateInDefinitionDomainAt(c: Coordinate): (r: bool)
      reads this
      ensures r == IsCoordinateInDefinitionDomain(c.x, c.y)
    {
      c.x >= 0 && c.x < Width() && c.y >= 0 && c.y < Height()
    }

    /** The element in column `x` of row `y`. */
    function At(x: int, y: int): (v: T)
      reads this, cells
      requires IsCoordinateInDefinitionDomain(x, y)
      ensures v == Cells()[y][x]
    {
      cells[y, x]
    }

    /** The coordinate-value getter reads the same cell as the (x, y) one. */
    function AtCoordinate(c: Coordinate): (v: T)
      reads this, cells
      requires IsCoordinateInDefinitionDomainAt(c)
      ensures v == At(c.x, c.y)
    {
      cells[c.y, c.x]
    }

    /** Writes one element; a later read of it returns `v` and nothing else changes. */
    method Set(x: int, y: int, v: T)
      requires IsCoordinateInDefinitionDomain(x, y)
      modifies cells
      ensures At(x, y) == v
      ensures forall i, j :: IsCoordinateInDefinitionDomain(i, j) && (i != x || j != y) ==>
                At(i, j) == old(At(i, j))
    {
      cells[y, x] := v;
    }

    /** The coordinate-value setter writes the same cell as `Set(c.x, c.y, v)`. */
    method SetAtCoordinate(c: Coordinate, v: T)
      requires IsCoordinateInDefinitionDomainAt(c)
      modifies cells
      ensures AtCoordinate(c) == v && At(c.x, c.y) == v
      ensures forall i, j :: IsCoordinateInDefinitionDomain(i, j) && (i != c.x || j != c.y) ==>
                At(i, j) == old(At(i, j))
    {
      cells[c.y, c.x] := v;
    }

    /** Replaces the storage by a fresh `width` x `height` one; no element survives. */
    method Recreate(width: int, height: int)
      requires 0 <= width && 0 <= height
      modifies this
      ensures fresh(cells)
      ensures Width() == width && Height() == height
      ensures forall x, y :: IsCoordinateInDefinitionDomain(x, y) ==> At(x, y) == DefaultValue
    {
      cells := new T[height, width]((_, _) => DefaultValue);
    }

    /** Sets every element to `init(x, y)` of its own column and row. */
    method InitAllElements(init: (int, int) -> T)
      modifies cells
      ensures forall x, y :: IsCoordinateInDefinitionDomain(x, y) ==> At(x, y) == init(x, y)
    {
      var y := 0;
      while y < cells.Length0
        invariant 0 <= y <= cells.Length0
        invariant forall j, i :: 0 <= j < y && 0 <= i < cells.Length1 ==> cells[j, i] == init(i, j)
      {
        var x := 0;
        while x < cells.Length1
          invariant 0 <= x <= cells.Length1
          invariant forall j, i :: 0 <= j < y && 0 <= i < cells.Length1 ==> cells[j, i] == init(i, j)
          invariant forall i :: 0 <= i < x ==> cells[y, i] == init(i, y)
        {
          cells[y, x] := init(x, y);
          x := x + 1;
        }
        y := y + 1;
      }
    }

    /** A fresh one-dimensional copy in row-major order: element `i` is column
        `i % Width()` of row `i / Width()`, and it is empty when the matrix is. */
    method ToArray() returns (a: array<T>)
      ensures fresh(a)
      ensures a.Length == Count()
      ensures forall i :: 0 <= i < a.Length ==>
                0 < Width() && IsCoordinateInDefinitionDomain(i % Width(), i / Width()) &&
                a[i] == At(i % Width(), i / Width())
      ensures a[..] == Flatten(Cells())
    {
      var width, height := Width(), Height();
      ghost var g := Cells();
      a := CopyRowMajor(cells, g, DefaultValue);
      FlattenLength(g, width);
      forall k | 0 <= k < a.Length
        ensures 0 < width && IsCoordinateInDefinitionDomain(k % width, k / width)
        ensures a[k] == At(k % width, k / width)
      {
        FlattenCell(g, width, height, k);
      }
    }

    /** `Resize` as written. Each dimension is clamped at zero and each axis gets
        its copy plan; the new storage is allocated as `[updatedWidth,
        updatedHeight]`, so afterwards the HEIGHT is the updated width and the
        WIDTH the updated height. A cell inside the copied rectangle holds the old
        element its plan maps it from; every other cell is default. */
    method Resize(widthOffset: int := 0, heightOffset: int := 0,
                  widthRule: WidthResizeRule := Left, heightRule: HeightResizeRule := Up)
      requires ResizeCopyFits(Width(), Height(), widthOffset, heightOffset, widthRule, heightRule)
      modifies this
      ensures fresh(cells)
      ensures Height() == ClampedSize(old(Width()), widthOffset)
      ensures Width() == ClampedSize(old(Height()), heightOffset)
      ensures var px := PlanFor(old(Width()), widthOffset, WidthAlignment(widthRule));
              var py := PlanFor(old(Height()), heightOffset, HeightAlignment(heightRule));
              forall x, y :: IsCoordinateInDefinitionDomain(x, y) ==>
                cells[y, x] ==
                  if InCopy(px, py, x, y)
                  then old(cells[y - py.newOffset + py.oldOffset, x - px.newOffset + px.oldOffset])
                  else DefaultValue
    {
      var updatedWidth := ClampedSize(Width(), widthOffset);
      var updatedHeight := ClampedSize(Height(), heightOffset);
      var px := PlanFor(Width(), widthOffset, WidthAlignment(widthRule));
      var py := PlanFor(Height(), heightOffset, HeightAlignment(heightRule));
      cells := CopiedInto(cells, px, py, updatedWidth, updatedHeight, DefaultValue);
    }

    /** `Resize` with both defects corrected: the storage is allocated as
        `[updatedHeight, updatedWidth]`, so the new width and height are the
        updated ones, and an axis whose size does not change is copied whole.
        It never goes out of bounds, so it requires nothing. */
    method ResizeIntended(widthOffset: int := 0, heightOffset: int := 0,
                          widthRule: WidthResizeRule := Left, heightRule: HeightResizeRule := Up)
      modifies this
      ensures fresh(cells)
      ensures Width() == ClampedSize(old(Width()), widthOffset)
      ensures Height() == ClampedSize(old(Height()), heightOffset)
      ensures var px := IntendedPlanFor(old(Width()), widthOffset, WidthAlignment(widthRule));
              var py := IntendedPlanFor(old(Height()), heightOffset, HeightAlignment(heightRule));
              forall x, y :: IsCoordinateInDefinitionDomain(x, y) ==>
                cells[y, x] ==
                  if InCopy(px, py, x, y)
                  then old(cells[y - py.newOffset + py.oldOffset, x - px.newOffset + px.oldOffset])
                  else DefaultValue
    {
      var updatedWidth := ClampedSize(Width(), widthOffset);
      var updatedHeight := ClampedSize(Height(), heightOffset);
      var px := IntendedPlanFor(Width(), widthOffset, WidthAlignment(widthRule));
      var py := IntendedPlanFor(Height(), heightOffset, HeightAlignment(heightRule));
      cells := CopiedInto(cells, px, py, updatedHeight, updatedWidth, DefaultValue);
    }
  }

  /** When the two updated sizes are equal, the swapped allocation has the right
      shape and the copy as written never goes out of bounds. */
  lemma SquareResizeFits(width: int, height: int, widthOffset: int, heightOffset: int,
                         widthRule: WidthResizeRule, heightRule: HeightResizeRule)
    requires 0 <= width && 0 <= height
    requires ClampedSize(width, widthOffset) == ClampedSize(height, heightOffset)
    ensures ResizeCopyFits(width, height, widthOffset, heightOffset, widthRule, heightRule)
  {
  }

  /** When both axes change size and the two updated sizes are equal, `Resize` as
      written and the corrected `ResizeIntended` agree: the copy fits the swapped
      storage, which then has the right shape, and both use the same plans. */
  lemma SquareResizeAgrees(width: int, height: int, widthOffset: int, heightOffset: int,
                           widthRule: WidthResizeRule, heightRule: HeightResizeRule)
    requires 0 <= width && 0 <= height
    requires ClampedSize(width, widthOffset) == ClampedSize(height, heightOffset)
    requires ClampedSize(width, widthOffset) != width
    requires ClampedSize(height, heightOffset) != height
    ensures ResizeCopyFits(width, height, widthOffset, heightOffset, widthRule, heightRule)
    ensures PlanFor(width, widthOffset, WidthAlignment(widthRule)) ==
            IntendedPlanFor(width, widthOffset, WidthAlignment(widthRule))
    ensures PlanFor(height, heightOffset, HeightAlignment(heightRule)) ==
            IntendedPlanFor(height, heightOffset, HeightAlignment(heightRule))
  {
    SquareResizeFits(width, height, widthOffset, heightOffset, widthRule, heightRule);
    IntendedPlanKeepsOverlap(width, widthOffset, WidthAlignment(widthRule));
    IntendedPlanKeepsOverlap(height, heightOffset, HeightAlignment(heightRule));
  }

  /** A 3 x 3 matrix grown by two columns and one row: the copy as written writes
      column index 4 into storage whose dimension 1 has length 4 (the updated
      height), so it throws; the corrected storage has 5 columns. */
  lemma SwappedAllocationThrows()
    ensures !ResizeCopyFits(3, 3, 2, 1, Left, Up)
    ensures var px := IntendedPlanFor(3, 2, Start);
            var py := IntendedPlanFor(3, 1, Start);
            px.newOffset + px.iterCount <= ClampedSize(3, 2) &&
            py.newOffset + py.iterCount <= ClampedSize(3, 1)
  {
  }

  /** As written, a zero offset on either axis leaves no cell inside the copied
      rectangle, so the whole resized matrix is default. */
  lemma ZeroOffsetDiscardsContent(width: int, height: int, widthOffset: int, heightOffset: int,
                                  widthRule: WidthResizeRule, heightRule: HeightResizeRule)
    requires 0 <= width && 0 <= height
    requires widthOffset == 0 || heightOffset == 0
    ensures var px := PlanFor(width, widthOffset, WidthAlignment(widthRule));
            var py := PlanFor(height, heightOffset, HeightAlignment(heightRule));
            forall x, y :: !InCopy(px, py, x, y)
  {
  }

  /** With the corrected plans, resizing by zero on both axes copies every cell
      onto itself, so the matrix is unchanged. */
  lemma IntendedZeroResizeIsIdentity(width: int, height: int,
                                     widthRule: WidthResizeRule, heightRule: HeightResizeRule)
    requires 0 <= width && 0 <= height
    ensures var px := IntendedPlanFor(width, 0, WidthAlignment(widthRule));
            var py := IntendedPlanFor(height, 0, HeightAlignment(heightRule));
            px == Plan(width, 0, 0) && py == Plan(height, 0, 0) &&
            forall x, y :: 0 <= x < width && 0 <= y < height ==> InCopy(px, py, x, y)
  {
  }

  /** Growth to the left: a 3-wide axis grown by 2 under `Left` copies its 3
      columns to new columns 2..4; as written the unchanged 3-high axis copies
      nothing, with the correction it copies all 3 rows in place. */
  lemma GrowLeftScenario()
    ensures PlanFor(3, 2, WidthAlignment(Left)) == Plan(3, 0, 2)
    ensures PlanFor(3, 0, HeightAlignment(Up)).iterCount == 0
    ensures IntendedPlanFor(3, 0, HeightAlignment(Up)) == Plan(3, 0, 0)
  {
  }

  /** Shrink to the right: the width plan of a 3-wide axis shrunk by 1 under
      `Right` maps old columns 0 and 1 to new columns 0 and 1. As written, an
      unchanged height copies nothing (see `GrowLeftScenario`), so this plan
      takes effect only when the height changes too. */
  lemma ShrinkRightScenario()
    ensures PlanFor(3, -1, WidthAlignment(Right)) == Plan(2, 0, 0)
  {
  }

  /** Centre growth with the odd unit on the start side: the width plan of a
      4-wide axis grown by 3 under `CenterLeft` maps its columns to new columns
      2..5 of 7. As written, an unchanged height copies nothing (see
      `GrowLeftScenario`), so this plan takes effect only when the height
      changes too. */
  lemma CenterLeftScenario()
    ensures PlanFor(4, 3, WidthAlignment(CenterLeft)) == Plan(4, 0, 2)
    ensures ClampedSize(4, 3) == 7
  {
  }
}
