/**
 * Which keypoints extraction yields, and in what order: for one triple of
 * adjacent layers, every pixel of the middle layer that passes the
 * extremum test, scanned row by row and left to right; for the pyramid,
 * the triples of each octave in interval order, octave after octave.
 */
module Extraction {
  import opened Imaging
  import opened OctaveMaps

  /** The keypoint emitted for pixel (row, col) of the middle layer: x is the column, y the row. */
  function PointAt(mid: OctaveLayer, row: int, col: int): PointData
    reads mid, mid.signs
    requires mid.Valid() && 0 <= row < mid.height && 0 <= col < mid.width
  {
    PointData(col, row, mid.scale, mid.radius, mid.signs[row, col])
  }

  /** Keypoints of columns [0, n) of row `row`, left to right. */
  function RowPoints(bot: OctaveLayer, mid: OctaveLayer, top: OctaveLayer, threshold: real,
                     row: int, n: int): seq<PointData>
    reads bot, mid, top, bot.detHessians, mid.detHessians, top.detHessians, mid.signs
    requires Aligned(bot, mid, top)
    requires 0 <= row < mid.height && 0 <= n <= mid.width
    decreases n
  {
    if n == 0 then []
    else
      RowPoints(bot, mid, top, threshold, row, n - 1)
        + (if IsExtremum(row, n - 1, bot, mid, top, threshold) then [PointAt(mid, row, n - 1)] else [])
  }

  /** Keypoints of rows [0, n), row by row. */
  function TriplePoints(bot: OctaveLayer, mid: OctaveLayer, top: OctaveLayer, threshold: real,
                        n: int): seq<PointData>
    reads bot, mid, top, bot.detHessians, mid.detHessians, top.detHessians, mid.signs
    requires Aligned(bot, mid, top)
    requires 0 <= n <= mid.height
    decreases n
  {
    if n == 0 then []
    else TriplePoints(bot, mid, top, threshold, n - 1) + RowPoints(bot, mid, top, threshold, n - 1, mid.width)
  }

  /** a comes before b in a row-major scan. */
  predicate RowMajorBefore(a: PointData, b: PointData) {
    a.y < b.y || (a.y == b.y && a.x < b.x)
  }

  /** Every point of the first n columns of a row is an extremum of that row, emitted with the middle layer's data. */
  lemma {:induction false} RowPointsSound(bot: OctaveLayer, mid: OctaveLayer, top: OctaveLayer, threshold: real,
                                          row: int, n: int)
    requires Aligned(bot, mid, top)
    requires 0 <= row < mid.height && 0 <= n <= mid.width
    ensures forall p | p in RowPoints(bot, mid, top, threshold, row, n) ::
              && p.y == row && 0 <= p.x < n
              && IsExtremum(p.y, p.x, bot, mid, top, threshold)
              && p == PointAt(mid, p.y, p.x)
    ensures forall a, b | 0 <= a < b < |RowPoints(bot, mid, top, threshold, row, n)| ::
              RowPoints(bot, mid, top, threshold, row, n)[a].x < RowPoints(bot, mid, top, threshold, row, n)[b].x
    decreases n
  {
    if n > 0 {
      RowPointsSound(bot, mid, top, threshold, row, n - 1);
    }
  }

  /**
   * Soundness and order: every point of the first n rows is an extremum of
   * the triple at (y, x), carries the middle layer's scale, radius and sign
   * at that pixel, and the points are in strict row-major order.
   */
  lemma {:induction false} TriplePointsSound(bot: OctaveLayer, mid: OctaveLayer, top: OctaveLayer,
                                             threshold: real, n: int)
    requires Aligned(bot, mid, top)
    requires 0 <= n <= mid.height
    ensures forall p | p in TriplePoints(bot, mid, top, threshold, n) ::
              && 0 <= p.y < n && 0 <= p.x < mid.width
              && IsExtremum(p.y, p.x, bot, mid, top, threshold)
              && p.scale == mid.scale && p.radius == mid.radius && p.sign == mid.signs[p.y, p.x]
    ensures forall a, b | 0 <= a < b < |TriplePoints(bot, mid, top, threshold, n)| ::
              RowMajorBefore(TriplePoints(bot, mid, top, threshold, n)[a], TriplePoints(bot, mid, top, threshold, n)[b])
    decreases n
  {
    if n > 0 {
      TriplePointsSound(bot, mid, top, threshold, n - 1);
      RowPointsSound(bot, mid, top, threshold, n - 1, mid.width);
      var prev := TriplePoints(bot, mid, top, threshold, n - 1);
      var row := RowPoints(bot, mid, top, threshold, n - 1, mid.width);
      assert TriplePoints(bot, mid, top, threshold, n) == prev + row;
      forall a, b | 0 <= a < b < |prev + row|
        ensures RowMajorBefore((prev + row)[a], (prev + row)[b])
      {
        if b >= |prev| {
          assert row[b - |prev|] in row;
          if a < |prev| {
            assert prev[a] in prev;
          }
        }
      }
    }
  }

  /** Completeness within a row: every extremum among the first n columns is emitted. */
  lemma {:induction false} RowPointsComplete(bot: OctaveLayer, mid: OctaveLayer, top: OctaveLayer, threshold: real,
                                             row: int, n: int, col: int)
    requires Aligned(bot, mid, top)
    requires 0 <= row < mid.height && 0 <= col < n <= mid.width
    requires IsExtremum(row, col, bot, mid, top, threshold)
    ensures PointAt(mid, row, col) in RowPoints(bot, mid, top, threshold, row, n)
    decreases n
  {
    if col < n - 1 {
      RowPointsComplete(bot, mid, top, threshold, row, n - 1, col);
    }
  }

  /** Completeness: every extremum in the first n rows is emitted. */
  lemma {:induction false} TriplePointsComplete(bot: OctaveLayer, mid: OctaveLayer, top: OctaveLayer,
                                                threshold: real, n: int, row: int, col: int)
    requires Aligned(bot, mid, top)
    requires 0 <= row < n <= mid.height && 0 <= col < mid.width
    requires IsExtremum(row, col, bot, mid, top, threshold)
    ensures PointAt(mid, row, col) in TriplePoints(bot, mid, top, threshold, n)
    decreases n
  {
    if row < n - 1 {
      TriplePointsComplete(bot, mid, top, threshold, n - 1, row, col);
    } else {
      RowPointsComplete(bot, mid, top, threshold, row, mid.width, col);
    }
  }

  /**
   * A layer no more than 2 * radius + 1 pixels high or wide has no pixel
   * inside the border, so its triple yields no keypoint (a 3x3 image with
   * radius one among them).
   */
  lemma {:induction false} SmallLayerYieldsNothing(bot: OctaveLayer, mid: OctaveLayer, top: OctaveLayer,
                                                   threshold: real, n: int)
    requires Aligned(bot, mid, top)
    requires 0 <= n <= mid.height
    requires top.height <= 2 * top.radius + 1 || top.width <= 2 * top.radius + 1
    ensures TriplePoints(bot, mid, top, threshold, n) == []
    decreases n
  {
    if n > 0 {
      SmallLayerYieldsNothing(bot, mid, top, threshold, n - 1);
      RowWithoutExtremum(bot, mid, top, threshold, n - 1, mid.width);
    }
  }

  /** A row none of whose first n pixels is an extremum yields no keypoint. */
  lemma {:induction false} RowWithoutExtremum(bot: OctaveLayer, mid: OctaveLayer, top: OctaveLayer,
                                              threshold: real, row: int, n: int)
    requires Aligned(bot, mid, top)
    requires 0 <= row < mid.height && 0 <= n <= mid.width
    requires forall c | 0 <= c < n :: !IsExtremum(row, c, bot, mid, top, threshold)
    ensures RowPoints(bot, mid, top, threshold, row, n) == []
    decreases n
  {
    if n > 0 {
      RowWithoutExtremum(bot, mid, top, threshold, row, n - 1);
    }
  }

  /** Every layer of the grid has a filter radius of at least one, as the extremum test needs. */
  ghost predicate Scannable(m: OctaveMap)
    reads m, m.Repr
  {
    m.Valid() && forall o, i | m.InRange(o, i) :: 1 <= m.grid[o, i].radius
  }

  /** Keypoints of the first k interval triples (k, k + 1, k + 2) of octave `oct`. */
  ghost function OctavePoints(m: OctaveMap, threshold: real, oct: int, k: int): seq<PointData>
    reads m, m.Repr
    requires Scannable(m)
    requires m.octaveStart <= oct <= m.octaveEnd && 0 <= k <= INTERVALS - 2
    decreases k
  {
    if k == 0 then []
    else
      var bot, mid, top := m.grid[oct - 1, k - 1], m.grid[oct - 1, k], m.grid[oct - 1, k + 1];
      OctavePoints(m, threshold, oct, k - 1) + TriplePoints(bot, mid, top, threshold, mid.height)
  }

  /**
   * Keypoints of the octaves from octaveStart up to, not including, `oct`;
   * `oct` is at most one past the last octave, or else not past the first.
   */
  ghost function PyramidPoints(m: OctaveMap, threshold: real, oct: int): seq<PointData>
    reads m, m.Repr
    requires Scannable(m)
    requires oct <= m.octaveEnd + 1 || oct <= m.octaveStart
    decreases oct - m.octaveStart
  {
    if oct <= m.octaveStart then []
    else PyramidPoints(m, threshold, oct - 1) + OctavePoints(m, threshold, oct - 1, INTERVALS - 2)
  }

  /** One more octave appends that octave's keypoints. */
  lemma PyramidPointsStep(m: OctaveMap, threshold: real, oct: int)
    requires Scannable(m)
    requires m.octaveStart <= oct <= m.octaveEnd
    ensures PyramidPoints(m, threshold, oct + 1)
            == PyramidPoints(m, threshold, oct) + OctavePoints(m, threshold, oct, INTERVALS - 2)
  {
  }

  /** The three layers of triple k of octave `oct` are present and aligned. */
  lemma TripleAligned(m: OctaveMap, oct: int, k: int)
    requires Scannable(m)
    requires m.octaveStart <= oct <= m.octaveEnd && 0 <= k < INTERVALS - 2
    ensures m.grid[oct - 1, k] != null && m.grid[oct - 1, k + 1] != null && m.grid[oct - 1, k + 2] != null
    ensures Aligned(m.grid[oct - 1, k], m.grid[oct - 1, k + 1], m.grid[oct - 1, k + 2])
  {
    assert m.InRange(oct - 1, k) && m.InRange(oct - 1, k + 1) && m.InRange(oct - 1, k + 2);
  }

  /** One more triple of an octave appends that triple's keypoints. */
  lemma OctavePointsStep(m: OctaveMap, threshold: real, oct: int, k: int)
    requires Scannable(m)
    requires m.octaveStart <= oct <= m.octaveEnd && 0 <= k < INTERVALS - 2
    ensures m.grid[oct - 1, k] != null && m.grid[oct - 1, k + 1] != null && m.grid[oct - 1, k + 2] != null
    ensures Aligned(m.grid[oct - 1, k], m.grid[oct - 1, k + 1], m.grid[oct - 1, k + 2])
    ensures OctavePoints(m, threshold, oct, k + 1)
            == OctavePoints(m, threshold, oct, k)
               + TriplePoints(m.grid[oct - 1, k], m.grid[oct - 1, k + 1], m.grid[oct - 1, k + 2], threshold,
                              m.grid[oct - 1, k + 1].height)
  {
    TripleAligned(m, oct, k);
  }

  /**
   * p is the keypoint of an extremum of triple k of octave `oct`: a pixel
   * of the middle layer that passes the extremum test, emitted with that
   * layer's data.
   */
  ghost predicate FromTriple(m: OctaveMap, threshold: real, oct: int, k: int, p: PointData)
    reads m, m.Repr
    requires Scannable(m)
    requires m.octaveStart <= oct <= m.octaveEnd && 0 <= k < INTERVALS - 2
  {
    TripleAligned(m, oct, k);
    var bot, mid, top := m.grid[oct - 1, k], m.grid[oct - 1, k + 1], m.grid[oct - 1, k + 2];
    && 0 <= p.y < mid.height && 0 <= p.x < mid.width
    && IsExtremum(p.y, p.x, bot, mid, top, threshold)
    && p == PointAt(mid, p.y, p.x)
  }

  /** Every keypoint of the first k triples of an octave comes from an extremum of one of them. */
  lemma {:induction false} OctavePointsSound(m: OctaveMap, threshold: real, oct: int, k: int)
    requires Scannable(m)
    requires m.octaveStart <= oct <= m.octaveEnd && 0 <= k <= INTERVALS - 2
    ensures forall p | p in OctavePoints(m, threshold, oct, k) ::
              exists j | 0 <= j < k :: FromTriple(m, threshold, oct, j, p)
    decreases k
  {
    if k > 0 {
      OctavePointsSound(m, threshold, oct, k - 1);
      OctavePointsStep(m, threshold, oct, k - 1);
      var bot, mid, top := m.grid[oct - 1, k - 1], m.grid[oct - 1, k], m.grid[oct - 1, k + 1];
      TriplePointsSound(bot, mid, top, threshold, mid.height);
      forall p | p in OctavePoints(m, threshold, oct, k)
        ensures exists j | 0 <= j < k :: FromTriple(m, threshold, oct, j, p)
      {
        if p !in OctavePoints(m, threshold, oct, k - 1) {
          assert p in TriplePoints(bot, mid, top, threshold, mid.height);
          assert FromTriple(m, threshold, oct, k - 1, p);
        }
      }
    }
  }

  /** Every extremum of one of the first k triples of an octave is among the octave's keypoints. */
  lemma {:induction false} OctavePointsComplete(m: OctaveMap, threshold: real, oct: int, k: int, j: int, p: PointData)
    requires Scannable(m)
    requires m.octaveStart <= oct <= m.octaveEnd && 0 <= j < k <= INTERVALS - 2
    requires FromTriple(m, threshold, oct, j, p)
    ensures p in OctavePoints(m, threshold, oct, k)
    decreases k
  {
    OctavePointsStep(m, threshold, oct, k - 1);
    if j < k - 1 {
      OctavePointsComplete(m, threshold, oct, k - 1, j, p);
    } else {
      var bot, mid, top := m.grid[oct - 1, j], m.grid[oct - 1, j + 1], m.grid[oct - 1, j + 2];
      TriplePointsComplete(bot, mid, top, threshold, mid.height, p.y, p.x);
    }
  }

  /**
   * Soundness over the pyramid: every keypoint of the octaves before `oct`
   * comes from an extremum of one of their triples.
   */
  lemma {:induction false} PyramidPointsSound(m: OctaveMap, threshold: real, oct: int)
    requires Scannable(m) && oct <= m.octaveEnd + 1
    ensures forall p | p in PyramidPoints(m, threshold, oct) ::
              exists o, k | m.octaveStart <= o < oct && 0 <= k < INTERVALS - 2 :: FromTriple(m, threshold, o, k, p)
    decreases oct - m.octaveStart
  {
    if oct > m.octaveStart {
      PyramidPointsSound(m, threshold, oct - 1);
      PyramidPointsStep(m, threshold, oct - 1);
      OctavePointsSound(m, threshold, oct - 1, INTERVALS - 2);
      forall p | p in PyramidPoints(m, threshold, oct)
        ensures exists o, k | m.octaveStart <= o < oct && 0 <= k < INTERVALS - 2 :: FromTriple(m, threshold, o, k, p)
      {
        if p !in PyramidPoints(m, threshold, oct - 1) {
          var k :| 0 <= k < INTERVALS - 2 && FromTriple(m, threshold, oct - 1, k, p);
        }
      }
    }
  }

  /** The keypoints of the octaves before `lo` come first among those of the octaves before `oct`. */
  lemma {:induction false} PyramidPointsPrefix(m: OctaveMap, threshold: real, lo: int, oct: int)
    requires Scannable(m) && lo <= oct <= m.octaveEnd + 1
    ensures PyramidPoints(m, threshold, lo) <= PyramidPoints(m, threshold, oct)
    decreases oct - lo
  {
    if lo < oct && m.octaveStart < oct {
      PyramidPointsPrefix(m, threshold, lo, oct - 1);
      PyramidPointsStep(m, threshold, oct - 1);
    }
  }

  /** Completeness over the pyramid: every extremum of a triple of an octave before `oct` is emitted. */
  lemma PyramidPointsComplete(m: OctaveMap, threshold: real, oct: int, o: int, k: int, p: PointData)
    requires Scannable(m) && m.octaveStart <= o < oct <= m.octaveEnd + 1 && 0 <= k < INTERVALS - 2
    requires FromTriple(m, threshold, o, k, p)
    ensures p in PyramidPoints(m, threshold, oct)
  {
    OctavePointsComplete(m, threshold, o, INTERVALS - 2, k, p);
    PyramidPointsStep(m, threshold, o);
    PyramidPointsPrefix(m, threshold, o + 1, oct);
    var before, all := PyramidPoints(m, threshold, o + 1), PyramidPoints(m, threshold, oct);
    var n :| 0 <= n < |before| && before[n] == p;
    assert all[n] == p;
  }
}
