/**
 * The detector and matcher object (S_Surf): keypoint extraction over the
 * scale pyramid, descriptor computation, distance normalisation and greedy
 * matching, each proved against the value-level definitions of the
 * Extraction, Descriptors and Matching modules.
 */
module Surf {
  import opened Imaging
  import opened OctaveMaps
  import opened Extraction
  import opened Descriptors
  import opened Matching

  /** q whole steps of a positive length stay below n steps exactly when q < n. */
  lemma StepsBelow(q: int, n: int, step: int)
    requires 0 < step
    ensures q * step < n * step <==> q < n
  {
    assert n * step - q * step == (n - q) * step;
    if q < n {
      assert 0 < (n - q) * step;
    } else {
      assert (n - q) * step <= 0;
    }
  }

  /** Rows [0, |pairs|) of result hold the paired points, the remaining rows nothing. */
  ghost predicate ResultRows(result: array2<FeaturePoint?>, points_1: array<FeaturePoint>,
                             points_2: array<FeaturePoint>, pairs: seq<(int, int)>, rows: int)
    reads result, points_1, points_2
  {
    && |pairs| <= rows <= result.Length0 && result.Length1 == 2
    && (forall r | 0 <= r < |pairs| ::
          && 0 <= pairs[r].0 < points_1.Length && 0 <= pairs[r].1 < points_2.Length
          && result[r, 0] == points_1[pairs[r].0] && result[r, 1] == points_2[pairs[r].1])
    && (forall r | |pairs| <= r < rows :: result[r, 0] == null && result[r, 1] == null)
  }

  class S_Surf {
    const threshold: real
    const octaveStart: int
    const octaveEnd: int
    /** The pyramid of the last extraction; none before the first. */
    var octMap: OctaveMap?

    constructor (octaveStart: int, octaveEnd: int, threshold: real)
      ensures this.octaveStart == octaveStart && this.octaveEnd == octaveEnd
      ensures this.threshold == threshold && octMap == null
    {
      this.threshold := threshold;
      this.octaveStart := octaveStart;
      this.octaveEnd := octaveEnd;
      octMap := null;
    }

    /** Square root of the sum of squared differences of the first `length` entries. */
    method EuclideanDistance(desc_1: seq<real>, desc_2: seq<real>, length: int, sqrt: Sqrt) returns (d: real)
      requires 0 <= length <= |desc_1| && length <= |desc_2|
      ensures d == Euclidean(desc_1, desc_2, length, sqrt)
    {
      var sum := 0.0;
      for i := 0 to length
        invariant sum == SumSquares(desc_1, desc_2, i)
      {
        sum := sum + (desc_1[i] - desc_2[i]) * (desc_1[i] - desc_2[i]);
      }
      return sqrt(sum);
    }

    /**
     * Builds and computes a new pyramid, then scans, octave by octave and
     * for each triple of adjacent intervals, every pixel of the middle
     * layer: each extremum becomes a new keypoint with the middle layer's
     * scale, radius and sign. The result lists exactly the pyramid's
     * extrema, in scan order.
     */
    method ExtractPoints(img: IntegImage, imgWidth: int, imgHeight: int, schedule: FilterSchedule)
      returns (resPoints: seq<FeaturePoint>)
      requires 1 <= octaveStart && 0 <= octaveEnd && 0 <= imgWidth && 0 <= imgHeight
      requires forall o, i | octaveStart <= o <= octaveEnd && 1 <= i <= INTERVALS :: 1 <= schedule.radius(o, i)
      modifies this
      ensures octMap != null && fresh(octMap) && Scannable(octMap) && octMap.Computed()
      ensures octMap.img == img && octMap.width == imgWidth && octMap.height == imgHeight
      ensures octMap.octaveStart == octaveStart && octMap.octaveEnd == octaveEnd
      ensures forall o, i | octMap.InRange(o, i) ::
                && octMap.grid[o, i].scale == schedule.scale(o + 1, i + 1)
                && octMap.grid[o, i].radius == schedule.radius(o + 1, i + 1)
      ensures Describes(resPoints, PyramidPoints(octMap, threshold, octaveEnd + 1))
      ensures forall p | p in resPoints :: fresh(p) && p.descriptor == []
    {
      var m := new OctaveMap(octaveStart, octaveEnd, img, imgWidth, imgHeight, schedule);
      assert Scannable(m) by {
        forall o, i | m.InRange(o, i) ensures 1 <= m.grid[o, i].radius {
          assert 1 <= schedule.radius(o + 1, i + 1);
        }
      }
      octMap := m;
      m.ComputeMap();
      resPoints := ScanPyramid(m);
    }

    /** The scan of every octave of the pyramid from octaveStart to octaveEnd, in order. */
    method ScanPyramid(m: OctaveMap) returns (resPoints: seq<FeaturePoint>)
      requires Scannable(m) && m.octaveStart == octaveStart && m.octaveEnd == octaveEnd
      ensures Describes(resPoints, PyramidPoints(m, threshold, octaveEnd + 1))
      ensures forall p | p in resPoints :: fresh(p) && p.descriptor == []
    {
      resPoints := [];
      var oct := octaveStart;
      while oct <= octaveEnd
        invariant oct == octaveStart || oct <= octaveEnd + 1
        invariant Describes(resPoints, PyramidPoints(m, threshold, oct))
        invariant forall p | p in resPoints :: fresh(p) && p.descriptor == []
      {
        resPoints := AppendOctave(m, oct, resPoints);
        oct := oct + 1;
      }
    }

    /** Appends the scan of octave `oct` to the keypoints of the octaves before it. */
    method AppendOctave(m: OctaveMap, oct: int, prev: seq<FeaturePoint>) returns (res: seq<FeaturePoint>)
      requires Scannable(m) && m.octaveStart <= oct <= m.octaveEnd
      requires Describes(prev, PyramidPoints(m, threshold, oct))
      ensures Describes(res, PyramidPoints(m, threshold, oct + 1))
      ensures forall p | p in res :: p in prev || (fresh(p) && p.descriptor == [])
    {
      ghost var before := PyramidPoints(m, threshold, oct);
      ghost var octave := OctavePoints(m, threshold, oct, INTERVALS - 2);
      PyramidPointsStep(m, threshold, oct);
      var found := ScanOctave(m, oct);
      assert before == PyramidPoints(m, threshold, oct) && octave == OctavePoints(m, threshold, oct, INTERVALS - 2);
      DescribesAppend(prev, found, before, octave);
      res := prev + found;
    }

    /** The scan of one octave: its triples of adjacent intervals, in interval order. */
    method ScanOctave(m: OctaveMap, oct: int) returns (found: seq<FeaturePoint>)
      requires Scannable(m) && m.octaveStart <= oct <= m.octaveEnd
      ensures Describes(found, OctavePoints(m, threshold, oct, INTERVALS - 2))
      ensures forall p | p in found :: fresh(p) && p.descriptor == []
    {
      found := [];
      for k := 0 to INTERVALS - 2
        invariant Describes(found, OctavePoints(m, threshold, oct, k))
        invariant forall p | p in found :: fresh(p) && p.descriptor == []
      {
        OctavePointsStep(m, threshold, oct, k);
        var bot := m.grid[oct - 1, k];
        var mid := m.grid[oct - 1, k + 1];
        var top := m.grid[oct - 1, k + 2];
        var triple := ScanTriple(m, bot, mid, top);
        assert Describes(found, OctavePoints(m, threshold, oct, k));
        DescribesAppend(found, triple, OctavePoints(m, threshold, oct, k),
                        TriplePoints(bot, mid, top, threshold, mid.height));
        found := found + triple;
      }
    }

    /**
     * The scan of one triple of adjacent layers: every pixel of the middle
     * layer, row by row and left to right; each extremum becomes a new
     * keypoint; the extremum test is evaluated a second time, to no effect.
     */
    method ScanTriple(m: OctaveMap, bot: OctaveLayer, mid: OctaveLayer, top: OctaveLayer)
      returns (found: seq<FeaturePoint>)
      requires Aligned(bot, mid, top)
      ensures Describes(found, TriplePoints(bot, mid, top, threshold, mid.height))
      ensures forall p | p in found :: fresh(p) && p.descriptor == []
    {
      found := [];
      for i := 0 to mid.height
        invariant Describes(found, TriplePoints(bot, mid, top, threshold, i))
        invariant forall p | p in found :: fresh(p) && p.descriptor == []
      {
        ghost var before := TriplePoints(bot, mid, top, threshold, i);
        var row := ScanRow(m, bot, mid, top, i);
        DescribesAppend(found, row, before, RowPoints(bot, mid, top, threshold, i, mid.width));
        found := found + row;
      }
    }

    /** The column loop of the triple scan: row i of the middle layer, left to right. */
    method ScanRow(m: OctaveMap, bot: OctaveLayer, mid: OctaveLayer, top: OctaveLayer, i: int)
      returns (row: seq<FeaturePoint>)
      requires Aligned(bot, mid, top) && 0 <= i < mid.height
      ensures Describes(row, RowPoints(bot, mid, top, threshold, i, mid.width))
      ensures forall p | p in row :: fresh(p) && p.descriptor == []
    {
      row := [];
      for j := 0 to mid.width
        invariant Describes(row, RowPoints(bot, mid, top, threshold, i, j))
        invariant forall p | p in row :: fresh(p) && p.descriptor == []
      {
        var isExtremum := m.PointIsExtremum(i, j, bot, mid, top, threshold);
        if isExtremum {
          isExtremum := m.PointIsExtremum(i, j, bot, mid, top, threshold);
          var p := new FeaturePoint(j, i, mid.scale, mid.radius, mid.signs[i, j]);
          assert p.Data() == PointAt(mid, i, j);
          row := row + [p];
        }
      }
    }

    /**
     * Sets the keypoint's descriptor: for a scale of at least one, the 64
     * sums of Haar responses over the 4x4 quadrants of its window; for any
     * other scale the window is empty and the descriptor is all zeros.
     */
    method SetDescriptor(p: FeaturePoint, img: IntegImage, imgWidth: int, imgHeight: int)
      modifies p
      ensures p.descriptor == if 1 <= p.scale then Descriptor(img, p.x, p.y, p.scale) else ZeroDescriptor()
    {
      var haarFilterSize := 2 * p.scale;
      var desc := new real[DESC_SIZE](_ => 0.0);
      var descSide := HAAR_SCALE * p.scale;
      var quadStep := descSide / QUADRANTS;
      var subQuadStep := quadStep / SUB_SAMPLES;
      var leftTop_row := p.y - descSide / 2;
      var leftTop_col := p.x - descSide / 2;
      var count := 0;
      ghost var s := p.scale;
      if 1 <= s {
        SampleCentreInWindow(p.y, s, 0, 0);
        assert descSide == QUADRANTS * quadStep;
      }
      assert desc[..] == ZeroDescriptor();
      var r := leftTop_row;
      ghost var qr: nat := 0;
      while r < leftTop_row + descSide
        invariant 1 <= s ==> qr <= QUADRANTS && r == leftTop_row + qr * quadStep
        invariant s < 1 ==> qr == 0 && r == leftTop_row && desc[..] == ZeroDescriptor()
        invariant count == 4 * QUADRANTS * qr
        invariant desc[..count] == DescriptorUpTo(img, p.x, p.y, s, qr)
        decreases leftTop_row + descSide - r
      {
        StepsBelow(qr, QUADRANTS, quadStep);
        count := QuadrantRow(desc, count, img, r, leftTop_col, descSide, quadStep, subQuadStep, haarFilterSize,
                             p.x, p.y, s, qr);
        assert (qr + 1) * quadStep == qr * quadStep + quadStep;
        r := r + quadStep;
        qr := qr + 1;
      }
      if 1 <= s {
        StepsBelow(qr, QUADRANTS, quadStep);
        assert desc[..] == desc[..count];
      }
      p.descriptor := desc[..];
    }

    /**
     * The quadrant loop of setDescriptor for quadrant row qr, whose top edge
     * is row r: the sums of its 4 quadrants, left to right, stored from count on.
     */
    static method QuadrantRow(desc: array<real>, count: int, img: IntegImage, r: int, leftTop_col: int,
                              descSide: int, quadStep: int, subQuadStep: int, haarFilterSize: int,
                              ghost x: int, ghost y: int, ghost s: int, ghost qr: nat) returns (newCount: int)
      requires 1 <= s && qr < QUADRANTS
      requires descSide == DescSide(s) == QUADRANTS * quadStep && quadStep == QuadStep(s) == SUB_SAMPLES * s
      requires subQuadStep == SubQuadStep(s) == s && haarFilterSize == HaarSize(s)
      requires r == y - descSide / 2 + qr * quadStep && leftTop_col == x - descSide / 2
      requires desc.Length == DESC_SIZE && count == 4 * QUADRANTS * qr
      requires desc[..count] == DescriptorUpTo(img, x, y, s, qr)
      modifies desc
      ensures newCount == count + 4 * QUADRANTS
      ensures desc[..newCount] == DescriptorUpTo(img, x, y, s, qr + 1)
    {
      newCount := count;
      var c := leftTop_col;
      ghost var qc: nat := 0;
      while c < leftTop_col + descSide
        invariant qc <= QUADRANTS && c == leftTop_col + qc * quadStep
        invariant newCount == count + 4 * qc
        invariant desc[..newCount] == DescriptorUpTo(img, x, y, s, qr) + RowEntries(img, x, y, s, qr, qc)
        decreases leftTop_col + descSide - c
      {
        StepsBelow(qc, QUADRANTS, quadStep);
        var dx, dy, abs_dx, abs_dy := QuadrantScan(img, r, c, quadStep, subQuadStep, haarFilterSize,
                                                   x, y, s, qr, qc);
        ghost var above, row := DescriptorUpTo(img, x, y, s, qr), RowEntries(img, x, y, s, qr, qc);
        newCount := StoreSums(desc, newCount, dx, dy, abs_dx, abs_dy);
        assert (above + row) + Entries(Sums(dx, dy, abs_dx, abs_dy)) == above + RowEntries(img, x, y, s, qr, qc + 1);
        assert (qc + 1) * quadStep == qc * quadStep + quadStep;
        c := c + quadStep;
        qc := qc + 1;
      }
      StepsBelow(qc, QUADRANTS, quadStep);
    }

    /** The four stores `desc[count++] = ...` of setDescriptor: a quadrant's sums, in order, from count on. */
    static method StoreSums(desc: array<real>, count: int, dx: real, dy: real, abs_dx: real, abs_dy: real)
      returns (newCount: int)
      requires 0 <= count && count + 4 <= desc.Length
      modifies desc
      ensures newCount == count + 4
      ensures desc[..newCount] == old(desc[..count]) + Entries(Sums(dx, dy, abs_dx, abs_dy))
    {
      newCount := count;
      desc[newCount] := dx;
      newCount := newCount + 1;
      desc[newCount] := dy;
      newCount := newCount + 1;
      desc[newCount] := abs_dx;
      newCount := newCount + 1;
      desc[newCount] := abs_dy;
      newCount := newCount + 1;
    }

    /**
     * The two inner loops of setDescriptor: the sums of the Haar responses
     * at the 5x5 sub-samples of quadrant (qr, qc), whose top-left corner is
     * (r, c), for a keypoint at (x, y) of scale s.
     */
    static method QuadrantScan(img: IntegImage, r: int, c: int, quadStep: int, subQuadStep: int, haarFilterSize: int,
                               ghost x: int, ghost y: int, ghost s: int, ghost qr: int, ghost qc: int)
      returns (dx: real, dy: real, abs_dx: real, abs_dy: real)
      requires 1 <= s && subQuadStep == SubQuadStep(s) == s && quadStep == SUB_SAMPLES * s
      requires haarFilterSize == HaarSize(s)
      requires r + subQuadStep / 2 - haarFilterSize / 2 == SampleCorner(y, s, qr, 0)
      requires c + subQuadStep / 2 - haarFilterSize / 2 == SampleCorner(x, s, qc, 0)
      ensures Sums(dx, dy, abs_dx, abs_dy) == QuadrantSums(img, x, y, s, qr, qc, SUB_SAMPLES)
    {
      dx, dy, abs_dx, abs_dy := 0.0, 0.0, 0.0, 0.0;
      var sub_r := r;
      ghost var a := 0;
      while sub_r < r + quadStep
        invariant 0 <= a <= SUB_SAMPLES && sub_r == r + a * subQuadStep
        invariant Sums(dx, dy, abs_dx, abs_dy) == QuadrantSums(img, x, y, s, qr, qc, a)
        decreases r + quadStep - sub_r
      {
        StepsBelow(a, SUB_SAMPLES, subQuadStep);
        SampleCornerAt(y, s, qr, a, r);
        dx, dy, abs_dx, abs_dy := SubRowScan(img, sub_r, c, quadStep, subQuadStep, haarFilterSize,
                                             x, y, s, qr, qc, a, dx, dy, abs_dx, abs_dy);
        assert (a + 1) * subQuadStep == a * subQuadStep + subQuadStep;
        sub_r := sub_r + subQuadStep;
        a := a + 1;
      }
      StepsBelow(a, SUB_SAMPLES, subQuadStep);
    }

    /**
     * The innermost loop of setDescriptor: sub-row a of quadrant (qr, qc),
     * five sub-samples left to right, added to the sums of the sub-rows above.
     */
    static method SubRowScan(img: IntegImage, sub_r: int, c: int, quadStep: int, subQuadStep: int, haarFilterSize: int,
                             ghost x: int, ghost y: int, ghost s: int, ghost qr: int, ghost qc: int, ghost a: nat,
                             dx0: real, dy0: real, abs_dx0: real, abs_dy0: real)
      returns (dx: real, dy: real, abs_dx: real, abs_dy: real)
      requires 1 <= s && subQuadStep == SubQuadStep(s) == s && quadStep == SUB_SAMPLES * s
      requires haarFilterSize == HaarSize(s)
      requires sub_r + subQuadStep / 2 - haarFilterSize / 2 == SampleCorner(y, s, qr, a)
      requires c + subQuadStep / 2 - haarFilterSize / 2 == SampleCorner(x, s, qc, 0)
      ensures Sums(dx, dy, abs_dx, abs_dy)
              == SubRowSums(img, x, y, s, qr, qc, a, Sums(dx0, dy0, abs_dx0, abs_dy0), SUB_SAMPLES)
    {
      dx, dy, abs_dx, abs_dy := dx0, dy0, abs_dx0, abs_dy0;
      var sub_c := c;
      ghost var b := 0;
      while sub_c < c + quadStep
        invariant 0 <= b <= SUB_SAMPLES && sub_c == c + b * subQuadStep
        invariant Sums(dx, dy, abs_dx, abs_dy) == SubRowSums(img, x, y, s, qr, qc, a, Sums(dx0, dy0, abs_dx0, abs_dy0), b)
        decreases c + quadStep - sub_c
      {
        StepsBelow(b, SUB_SAMPLES, subQuadStep);
        var cntr_r := sub_r + subQuadStep / 2;
        var cntr_c := sub_c + subQuadStep / 2;
        var cur_r := cntr_r - haarFilterSize / 2;
        var cur_c := cntr_c - haarFilterSize / 2;
        var cur_dx := img.haarX(cur_r, cur_c, haarFilterSize);
        var cur_dy := img.haarY(cur_r, cur_c, haarFilterSize);
        SampleCornerAt(x, s, qc, b, c);
        assert cur_r == SampleCorner(y, s, qr, a) && cur_c == SampleCorner(x, s, qc, b);
        assert (b + 1) * subQuadStep == b * subQuadStep + subQuadStep;
        dx := dx + cur_dx;
        dy := dy + cur_dy;
        abs_dx := abs_dx + Abs(cur_dx);
        abs_dy := abs_dy + Abs(cur_dy);
        sub_c := sub_c + subQuadStep;
        b := b + 1;
      }
      StepsBelow(b, SUB_SAMPLES, subQuadStep);
    }

    /**
     * Divides every non-negative distance among the first `length` entries
     * by their largest, unless that is 0; unused (negative) entries and the
     * entries from `length` on are left as they are.
     */
    method NormalizeDist(ar: array<MatchInfo>, length: int)
      requires 0 <= length <= ar.Length
      modifies ar
      ensures ar[..length] == Normalize(old(ar[..length]))
      ensures ar[length..] == old(ar[length..])
    {
      var max := LargestDist(ar, length);
      DivideByLargest(ar, length, max);
    }

    /** The first loop of the normalisation: the largest non-negative distance among the first `length` records, 0 if none. */
    static method LargestDist(ar: array<MatchInfo>, length: int) returns (max: real)
      requires 0 <= length <= ar.Length
      ensures max == MaxDist(ar[..length])
    {
      max := 0.0;
      for i := 0 to length
        invariant max == MaxDist(ar[..i])
      {
        assert ar[..i + 1][..i] == ar[..i];
        if ar[i].euclideanDist >= 0.0 {
          if i == 0 {
            max := ar[i].euclideanDist;
          } else {
            if ar[i].euclideanDist > max {
              max := ar[i].euclideanDist;
            }
          }
        }
      }
    }

    /** The second loop of the normalisation: divides each non-negative distance by max, unless max is 0. */
    static method DivideByLargest(ar: array<MatchInfo>, length: int, max: real)
      requires 0 <= length <= ar.Length && max == MaxDist(ar[..length])
      modifies ar
      ensures ar[..length] == Normalize(old(ar[..length]))
      ensures ar[length..] == old(ar[length..])
    {
      ghost var t := Normalize(ar[..length]);
      for i := 0 to length
        invariant forall k | 0 <= k < i :: ar[k] == t[k]
        invariant forall k | i <= k < ar.Length :: ar[k] == old(ar[k])
      {
        if max != 0.0 && ar[i].euclideanDist >= 0.0 {
          ar[i] := ar[i].(euclideanDist := ar[i].euclideanDist / max);
        }
      }
      assert ar[..length] == t;
      assert ar[length..] == old(ar[length..]);
    }

    /** Distance between the descriptors of two keypoints, over all DESC_SIZE entries. */
    method DescriptorDistance(q: FeaturePoint, p: FeaturePoint, sqrt: Sqrt) returns (d: real)
      requires |q.descriptor| == DESC_SIZE && |p.descriptor| == DESC_SIZE
      ensures d == Distance(Key(q), Key(p), sqrt)
    {
      d := EuclideanDistance(q.descriptor, p.descriptor, DESC_SIZE, sqrt);
    }

    /** Distance from q to p, pool point j, which is entry j of the distances ds from q to the pool ks. */
    method PoolDistance(q: FeaturePoint, p: FeaturePoint, j: int, sqrt: Sqrt,
                        ghost kq: PointKey, ghost ks: seq<PointKey>, ghost ds: seq<real>) returns (d: real)
      requires kq == Key(q) && |kq.descriptor| == DESC_SIZE
      requires Described(ks) && 0 <= j < |ks| && ks[j] == Key(p) && ds == Distances(kq, ks, sqrt)
      ensures d == ds[j]
    {
      d := DescriptorDistance(q, p, sqrt);
      DistancesAt(kq, ks, sqrt, j);
    }

    /** The nearest-point loop of the matcher: the first strictly nearest eligible pool point. */
    method NearestScan(q: FeaturePoint, pool: array<FeaturePoint>, n: int, used: array<bool>, sqrt: Sqrt,
                       ghost kq: PointKey, ghost ks: seq<PointKey>, ghost u: seq<bool>, ghost ds: seq<real>)
      returns (bestDist: real, bestIndex: int)
      requires 0 <= n <= pool.Length && used.Length == n
      requires kq == Key(q) && |kq.descriptor| == DESC_SIZE
      requires |ks| == n && (forall k | 0 <= k < n :: ks[k] == Key(pool[k]))
      requires Described(ks) && u == used[..] && ds == Distances(kq, ks, sqrt)
      ensures Best(bestIndex, bestDist) == Nearest(kq, ks, u, ds, n)
    {
      assert ScanArgs(ks, u, ds, n);
      bestDist := -1.0;
      bestIndex := -1;
      for j := 0 to n
        invariant Best(bestIndex, bestDist) == Nearest(kq, ks, u, ds, j)
      {
        assert u[j] == used[j] && ks[j] == Key(pool[j]);
        NearestStep(kq, ks, u, ds, j);
        if !used[j] && q.sign == pool[j].sign {
          var curDist := PoolDistance(q, pool[j], j, sqrt, kq, ks, ds);
          if bestDist == -1.0 {
            bestDist := curDist;
            bestIndex := j;
          } else if curDist < bestDist {
            bestDist := curDist;
            bestIndex := j;
          }
        }
      }
    }

    /**
     * The second-nearest loop of the matcher as it is written: the first
     * eligible distance, replaced only by one strictly between bestDist and
     * the current value.
     */
    method SecondNearestScanAsWritten(q: FeaturePoint, pool: array<FeaturePoint>, n: int, used: array<bool>,
                                      bestDist: real, sqrt: Sqrt,
                                      ghost kq: PointKey, ghost ks: seq<PointKey>, ghost u: seq<bool>,
                                      ghost ds: seq<real>) returns (bestDist_2: real)
      requires 0 <= n <= pool.Length && used.Length == n
      requires kq == Key(q) && |kq.descriptor| == DESC_SIZE
      requires |ks| == n && (forall k | 0 <= k < n :: ks[k] == Key(pool[k]))
      requires Described(ks) && u == used[..] && ds == Distances(kq, ks, sqrt)
      ensures bestDist_2 == SecondDistAsWritten(kq, ks, u, ds, bestDist, n)
    {
      assert ScanArgs(ks, u, ds, n);
      bestDist_2 := -1.0;
      for j := 0 to n
        invariant bestDist_2 == SecondDistAsWritten(kq, ks, u, ds, bestDist, j)
      {
        assert u[j] == used[j] && ks[j] == Key(pool[j]);
        SecondDistAsWrittenStep(kq, ks, u, ds, bestDist, j);
        if !used[j] && q.sign == pool[j].sign {
          var curDist := PoolDistance(q, pool[j], j, sqrt, kq, ks, ds);
          if bestDist_2 < 0.0 {
            bestDist_2 := curDist;
          } else if curDist > bestDist && curDist < bestDist_2 {
            bestDist_2 := curDist;
          }
        }
      }
    }

    /** The second-nearest loop as intended: the least distance to an eligible point other than bestIndex. */
    method SecondNearestScan(q: FeaturePoint, pool: array<FeaturePoint>, n: int, used: array<bool>,
                             bestIndex: int, sqrt: Sqrt,
                             ghost kq: PointKey, ghost ks: seq<PointKey>, ghost u: seq<bool>, ghost ds: seq<real>)
      returns (bestDist_2: real)
      requires 0 <= n <= pool.Length && used.Length == n
      requires kq == Key(q) && |kq.descriptor| == DESC_SIZE
      requires |ks| == n && (forall k | 0 <= k < n :: ks[k] == Key(pool[k]))
      requires Described(ks) && u == used[..] && ds == Distances(kq, ks, sqrt)
      ensures bestDist_2 == SecondNearest(kq, ks, u, ds, bestIndex, n)
    {
      assert ScanArgs(ks, u, ds, n);
      bestDist_2 := -1.0;
      for j := 0 to n
        invariant bestDist_2 == SecondNearest(kq, ks, u, ds, bestIndex, j)
      {
        assert u[j] == used[j] && ks[j] == Key(pool[j]);
        SecondNearestStep(kq, ks, u, ds, bestIndex, j);
        if !used[j] && q.sign == pool[j].sign && j != bestIndex {
          var curDist := PoolDistance(q, pool[j], j, sqrt, kq, ks, ds);
          if bestDist_2 < 0.0 || curDist < bestDist_2 {
            bestDist_2 := curDist;
          }
        }
      }
    }

    /**
     * Matches the first len_1 points of points_1 with the first len_2 of
     * points_2: the shorter side is the query side (the second array when
     * the lengths are equal), accepted matches are recorded greedily,
     * their distances normalised, and those within the threshold fill the
     * rows of the result in record order, column 0 from points_1 and
     * column 1 from points_2; the remaining rows stay empty. `scan` picks
     * the second distance of the ratio test: AsWritten runs the matcher's
     * own loop, Intended the second-nearest distance it evidently means.
     */
    method MatchPoints(points_1: array<FeaturePoint>, len_1: int, points_2: array<FeaturePoint>, len_2: int,
                       threshold: real, sqrt: Sqrt, scan: SecondScan) returns (result: array2<FeaturePoint?>)
      requires 0 <= len_1 <= points_1.Length && 0 <= len_2 <= points_2.Length
      requires Described(Keys(points_1[..len_1])) && Described(Keys(points_2[..len_2]))
      ensures fresh(result)
      ensures result.Length0 == (if len_1 < len_2 then len_1 else len_2)
      ensures ResultRows(result, points_1, points_2,
                         old(MatchedPairs(scan, Keys(points_1[..len_1]), Keys(points_2[..len_2]), sqrt, threshold)),
                         result.Length0)
    {
      ghost var K1, K2 := Keys(points_1[..len_1]), Keys(points_2[..len_2]);
      var minLength := if len_1 < len_2 then len_1 else len_2;
      var isSwap := false;
      var p_1, p_2 := points_1, points_2;
      var n_1, n_2 := len_1, len_2;
      if minLength == len_2 {
        p_1, p_2 := points_2, points_1;
        n_1, n_2 := len_2, len_1;
        isSwap := true;
      }
      ghost var P, Q := Keys(p_1[..n_1]), Keys(p_2[..n_2]);
      ghost var D := DistanceTable(P, Q, sqrt);
      assert isSwap == Swapped(K1, K2);
      assert forall k | 0 <= k < n_1 :: P[k] == Key(p_1[k]);
      assert forall k | 0 <= k < n_2 :: Q[k] == Key(p_2[k]);
      result := MatchOriented(P, Q, D, p_1, n_1, p_2, n_2, isSwap, threshold, sqrt, scan);
      assert Orient(KeptOf(scan, P, Q, D, threshold), isSwap) == MatchedPairs(scan, K1, K2, sqrt, threshold);
    }

    /**
     * Matching once the query side p_1 (n_1 points, the shorter side) and
     * the pool p_2 are fixed: the greedy table, its normalisation, and the
     * pruned result, whose columns are swapped back when isSwap holds.
     */
    method MatchOriented(ghost P: seq<PointKey>, ghost Q: seq<PointKey>, ghost D: seq<seq<real>>,
                         p_1: array<FeaturePoint>, n_1: int, p_2: array<FeaturePoint>, n_2: int,
                         isSwap: bool, threshold: real, sqrt: Sqrt, scan: SecondScan)
      returns (result: array2<FeaturePoint?>)
      requires 0 <= n_1 <= p_1.Length && 0 <= n_2 <= p_2.Length
      requires |P| == n_1 && forall k | 0 <= k < n_1 :: P[k] == Key(p_1[k])
      requires |Q| == n_2 && forall k | 0 <= k < n_2 :: Q[k] == Key(p_2[k])
      requires Described(P) && Described(Q) && DistanceTableOf(P, Q, D)
      requires forall i | 0 <= i < n_1 :: D[i] == Distances(P[i], Q, sqrt)
      ensures fresh(result) && result.Length0 == n_1
      ensures ResultRows(result, if isSwap then p_2 else p_1, if isSwap then p_1 else p_2,
                         Orient(KeptOf(scan, P, Q, D, threshold), isSwap), n_1)
    {
      var distMap := GreedyTable(P, Q, D, p_1, n_1, p_2, n_2, sqrt, scan);
      ghost var padded := distMap[..];
      assert padded[..n_1] == padded;
      NormalizeDist(distMap, n_1);
      assert distMap[..] == distMap[..n_1];
      ghost var table := NormalizedTable(scan, P, Q, D);
      assert distMap[..] == table;
      NormalizedTableInRange(scan, P, Q, D);
      result := FillResult(distMap, table, p_1, p_2, isSwap, threshold);
    }

    /**
     * The greedy loop of the matcher: a table of n_1 records, the accepted
     * matches of the query points p_1[..n_1] against the pool p_2[..n_2] in
     * query order, followed by unmatched entries.
     */
    method GreedyTable(ghost P: seq<PointKey>, ghost Q: seq<PointKey>, ghost D: seq<seq<real>>,
                       p_1: array<FeaturePoint>, n_1: int, p_2: array<FeaturePoint>, n_2: int, sqrt: Sqrt,
                       scan: SecondScan) returns (distMap: array<MatchInfo>)
      requires 0 <= n_1 <= p_1.Length && 0 <= n_2 <= p_2.Length
      requires |P| == n_1 && forall k | 0 <= k < n_1 :: P[k] == Key(p_1[k])
      requires |Q| == n_2 && forall k | 0 <= k < n_2 :: Q[k] == Key(p_2[k])
      requires Described(P) && Described(Q) && DistanceTableOf(P, Q, D)
      requires forall i | 0 <= i < n_1 :: D[i] == Distances(P[i], Q, sqrt)
      ensures fresh(distMap)
      ensures distMap[..] == Padded(GreedyMatch(scan, P, Q, D, n_1).records, n_1)
    {
      var alreadyMatched;
      distMap, alreadyMatched := EmptyTables(n_1, n_2);
      var countMatched := 0;
      for i := 0 to n_1
        invariant forall k | 0 <= k < n_1 :: P[k] == Key(p_1[k])
        invariant forall k | 0 <= k < n_2 :: Q[k] == Key(p_2[k])
        invariant Mirrors(GreedyMatch(scan, P, Q, D, i), distMap, alreadyMatched, countMatched)
      {
        countMatched := MatchOne(GreedyMatch(scan, P, Q, D, i), P[i], Q, D[i], i, p_1[i], p_2, n_2,
                                 distMap, alreadyMatched, countMatched, sqrt, scan);
      }
    }

    /** A table of n_1 unmatched entries and n_2 unused flags, as the greedy loop starts from. */
    static method EmptyTables(n_1: nat, n_2: nat) returns (distMap: array<MatchInfo>, alreadyMatched: array<bool>)
      ensures fresh(distMap) && fresh(alreadyMatched)
      ensures distMap.Length == n_1 && alreadyMatched.Length == n_2
      ensures Mirrors(Greedy([], NoneUsed(n_2)), distMap, alreadyMatched, 0)
    {
      distMap := new MatchInfo[n_1](_ => UNMATCHED);
      alreadyMatched := new bool[n_2](_ => false);
      assert distMap[..] == Padded([], n_1);
    }

    /** The arrays of the greedy loop hold the greedy state g: its records padded with sentinels, and its flags. */
    static ghost predicate Mirrors(g: Greedy, distMap: array<MatchInfo>, alreadyMatched: array<bool>, count: int)
      reads distMap, alreadyMatched
    {
      && count == |g.records| <= distMap.Length
      && distMap[..] == Padded(g.records, distMap.Length)
      && alreadyMatched[..] == g.used
    }

    /**
     * One pass of the greedy loop for query point q, number i, whose
     * distances to the pool are ds: the nearest scan, the second scan that
     * `scan` selects, then the ratio test; an accepted match goes into the next free entry
     * of distMap and consumes its pool point. Table and flags go from the
     * greedy state g to the next one.
     */
    method MatchOne(ghost g: Greedy, ghost qk: PointKey, ghost Q: seq<PointKey>, ghost ds: seq<real>,
                    i: int, q: FeaturePoint, p_2: array<FeaturePoint>, n_2: int,
                    distMap: array<MatchInfo>, alreadyMatched: array<bool>, countMatched: int, sqrt: Sqrt,
                    scan: SecondScan) returns (newCount: int)
      requires 0 <= n_2 <= p_2.Length && alreadyMatched.Length == n_2
      requires qk == Key(q) && |qk.descriptor| == DESC_SIZE
      requires |Q| == n_2 && (forall k | 0 <= k < n_2 :: Q[k] == Key(p_2[k]))
      requires Described(Q) && ds == Distances(qk, Q, sqrt)
      requires Mirrors(g, distMap, alreadyMatched, countMatched) && countMatched < distMap.Length
      modifies distMap, alreadyMatched
      ensures Mirrors(MatchStep(scan, g, i, qk, Q, ds), distMap, alreadyMatched, newCount)
      ensures forall k | 0 <= k < n_2 :: Q[k] == Key(p_2[k])
    {
      newCount := countMatched;
      var bestDist, bestIndex := NearestScan(q, p_2, n_2, alreadyMatched, sqrt, qk, Q, g.used, ds);
      var bestDist_2;
      if scan == AsWritten {
        bestDist_2 := SecondNearestScanAsWritten(q, p_2, n_2, alreadyMatched, bestDist, sqrt, qk, Q, g.used, ds);
      } else {
        bestDist_2 := SecondNearestScan(q, p_2, n_2, alreadyMatched, bestIndex, sqrt, qk, Q, g.used, ds);
      }
      ghost var h := MatchStep(scan, g, i, qk, Q, ds);
      if bestDist_2 > 0.0 && bestDist >= 0.0 && bestDist / bestDist_2 < RATIO_THRESHOLD {
        ghost var rec := MatchInfo(i, bestIndex, bestDist);
        assert h == Greedy(g.records + [rec], g.used[bestIndex := true]);
        assert Padded(h.records, distMap.Length) == Padded(g.records, distMap.Length)[countMatched := rec];
        distMap[countMatched] := MatchInfo(i, bestIndex, bestDist);
        newCount := countMatched + 1;
        alreadyMatched[bestIndex] := true;
      } else {
        assert h == g;
      }
    }

    /**
     * Row c of result, the first free one, gets the pair (points_1[i1],
     * points_2[i2]) as the pruning loop stores it.
     */
    static method PutPair(result: array2<FeaturePoint?>, c: int, points_1: array<FeaturePoint>,
                          points_2: array<FeaturePoint>, ghost pairs: seq<(int, int)>, i1: int, i2: int)
      requires ResultRows(result, points_1, points_2, pairs, result.Length0) && c == |pairs| < result.Length0
      requires 0 <= i1 < points_1.Length && 0 <= i2 < points_2.Length
      modifies result
      ensures ResultRows(result, points_1, points_2, pairs + [(i1, i2)], result.Length0)
    {
      result[c, 0] := points_1[i1];
      result[c, 1] := points_2[i2];
    }

    /**
     * The pruning loop of the matcher: the entries of the normalised table
     * within the threshold fill the rows of result in table order, p_1's
     * point in column 0 and p_2's in column 1, or the other way round when
     * the sides were swapped.
     */
    method FillResult(distMap: array<MatchInfo>, ghost table: seq<MatchInfo>,
                      p_1: array<FeaturePoint>, p_2: array<FeaturePoint>, isSwap: bool, threshold: real)
      returns (result: array2<FeaturePoint?>)
      requires table == distMap[..]
      requires forall k | 0 <= k < |table| && 0.0 <= table[k].euclideanDist ::
                 0 <= table[k].ind1 < p_1.Length && 0 <= table[k].ind2 < p_2.Length
      ensures fresh(result) && result.Length0 == |table|
      ensures ResultRows(result, if isSwap then p_2 else p_1, if isSwap then p_1 else p_2,
                         Orient(Kept(table, threshold), isSwap), result.Length0)
    {
      result := new FeaturePoint?[distMap.Length, 2]((_, _) => null);
      var c := 0;
      for i := 0 to distMap.Length
        invariant c == |Kept(table[..i], threshold)| && c <= i
        invariant ResultRows(result, if isSwap then p_2 else p_1, if isSwap then p_1 else p_2,
                             Orient(Kept(table[..i], threshold), isSwap), result.Length0)
      {
        assert table[..i + 1][..i] == table[..i];
        ghost var kept := Kept(table[..i], threshold);
        if distMap[i].euclideanDist >= 0.0 && distMap[i].euclideanDist <= threshold {
          assert Kept(table[..i + 1], threshold) == kept + [table[i]];
          OrientSnoc(kept, table[i], isSwap);
          if !isSwap {
            PutPair(result, c, p_1, p_2, Orient(kept, isSwap), distMap[i].ind1, distMap[i].ind2);
            c := c + 1;
          } else {
            PutPair(result, c, p_2, p_1, Orient(kept, isSwap), distMap[i].ind2, distMap[i].ind1);
            c := c + 1;
          }
        } else {
          assert Kept(table[..i + 1], threshold) == kept;
        }
      }
      assert table[..distMap.Length] == table;
    }
  }
}
