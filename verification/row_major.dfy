/** Row-major flattening of a rectangular grid, the order `Matrix<T>.ToArray`
    produces: row 0 first, each row from column 0 upward. */
module RowMajor {

  /** The grid has rows of exactly `width` elements. */
  predicate IsRectangular<T>(g: seq<seq<T>>, width: int)
  {
    forall y :: 0 <= y < |g| ==> |g[y]| == width
  }

  /** The rows of `g` concatenated in order. */
  function Flatten<T>(g: seq<seq<T>>): seq<T>
  {
    if g == [] then [] else g[0] + Flatten(g[1..])
  }

  /** Stepping one row further moves a row-major index on by `width`. */
  lemma {:induction false} DivModStep(k: int, width: int)
    requires 0 <= k && 0 < width
    ensures (k + width) / width == k / width + 1
    ensures (k + width) % width == k % width
  {
    var q, r := k / width, k % width;
    assert k == q * width + r && 0 <= r < width;
    assert k + width == (q + 1) * width + r;
    DivModUnique(k + width, width, q + 1, r);
  }

  /** Euclidean quotient and remainder are determined by `n == q * width + r`. */
  lemma {:induction false} DivModUnique(n: int, width: int, q: int, r: int)
    requires 0 < width && 0 <= r < width && n == q * width + r
    ensures n / width == q && n % width == r
  {
    var q', r' := n / width, n % width;
    assert n == q' * width + r' && 0 <= r' < width;
    assert (q - q') * width == r' - r;
    if q - q' >= 1 {
      assert false;
    } else if q - q' <= -1 {
      assert false;
    }
  }

  /** A flattened rectangular grid holds `|g| * width` elements. */
  lemma {:induction false} FlattenLength<T>(g: seq<seq<T>>, width: nat)
    requires IsRectangular(g, width)
    ensures |Flatten(g)| == |g| * width
  {
    if g != [] {
      FlattenLength(g[1..], width);
    }
  }

  /** Element `i` of the flattened grid is row `i / width`, column `i % width`. */
  lemma {:induction false} FlattenAt<T>(g: seq<seq<T>>, width: nat, i: int)
    requires IsRectangular(g, width)
    requires 0 <= i < |g| * width
    ensures 0 < width && i / width < |g| && |Flatten(g)| == |g| * width
    ensures Flatten(g)[i] == g[i / width][i % width]
  {
    FlattenLength(g, width);
    FlattenLength(g[1..], width);
    if i < width {
      DivModUnique(i, width, 0, i);
    } else {
      FlattenAt(g[1..], width, i - width);
      DivModStep(i - width, width);
    }
  }

  /** Element `i` of a flattened `width` x `height` grid, with the bounds of the
      row and column it comes from. */
  lemma FlattenCell<T>(g: seq<seq<T>>, width: nat, height: nat, i: int)
    requires IsRectangular(g, width) && |g| == height
    requires 0 <= i < width * height
    ensures 0 < width && 0 <= i / width < height && 0 <= i % width < width
    ensures |Flatten(g)| == width * height
    ensures Flatten(g)[i] == g[i / width][i % width]
  {
    FlattenAt(g, width, i);
  }
}
