/**
 * The scale pyramid (OctaveMap): a grid of layers indexed by
 * [octave - 1, interval - 1], the computation of its layers, and the
 * 3x3x3 non-maximum-suppression test over three adjacent layers.
 */
module OctaveMaps {
  import opened Imaging

  /** Number of intervals (layers) per octave. */
  const INTERVALS: int := 4

  /** Bot, mid and top cover the same image and top's filter has a radius of at least one. */
  ghost predicate Aligned(bot: OctaveLayer, mid: OctaveLayer, top: OctaveLayer)
    reads bot, mid, top
  {
    && bot.Valid() && mid.Valid() && top.Valid()
    && bot.width == top.width && mid.width == top.width
    && bot.height == top.height && mid.height == top.height
    && 1 <= top.radius
  }

  /** (row, col) is further than top's radius from every edge of the image. */
  predicate InsideBorder(row: int, col: int, top: OctaveLayer)
    reads top
  {
    && top.radius < row && top.radius < col
    && row + top.radius < top.height && col + top.radius < top.width
  }

  /**
   * The response at (r, c) in the top and bottom layers, and in the middle
   * layer unless (r, c) is the centre itself, is strictly below the centre's.
   */
  predicate BelowCentre(row: int, col: int, r: int, c: int, bot: OctaveLayer, mid: OctaveLayer, top: OctaveLayer)
    reads bot, mid, top, bot.detHessians, mid.detHessians, top.detHessians
    requires Aligned(bot, mid, top)
    requires 0 <= row < top.height && 0 <= col < top.width
    requires 0 <= r < top.height && 0 <= c < top.width
  {
    var cur := mid.detHessians[row, col];
    && top.detHessians[r, c] < cur
    && bot.detHessians[r, c] < cur
    && ((r, c) != (row, col) ==> mid.detHessians[r, c] < cur)
  }

  /**
   * The extremum test: (row, col) is inside the border, its middle-layer
   * response reaches the threshold, and it is a strict maximum of the
   * 3x3x3 cube around it; a neighbour equal to the centre disqualifies it.
   */
  predicate IsExtremum(row: int, col: int, bot: OctaveLayer, mid: OctaveLayer, top: OctaveLayer, threshold: real)
    reads bot, mid, top, bot.detHessians, mid.detHessians, top.detHessians
    requires Aligned(bot, mid, top)
  {
    && InsideBorder(row, col, top)
    && threshold <= mid.detHessians[row, col]
    && forall r, c | row - 1 <= r <= row + 1 && col - 1 <= c <= col + 1 ::
         BelowCentre(row, col, r, c, bot, mid, top)
  }

  class OctaveMap {
    const grid: array2<OctaveLayer?>
    const img: IntegImage
    const octaveStart: int
    const octaveEnd: int
    /** Size of the image every layer was built for. */
    ghost const width: int
    ghost const height: int
    /** The map, its grid, its layers and their response maps. */
    ghost var Repr: set<object>

    /** The layers present in the grid. */
    ghost function Layers(): set<OctaveLayer>
      reads this, grid
    {
      set o, i | 0 <= o < grid.Length0 && 0 <= i < grid.Length1 && grid[o, i] != null :: grid[o, i] as OctaveLayer
    }

    /** Cell [o, i] belongs to an octave in [octaveStart, octaveEnd]. */
    predicate InRange(o: int, i: int) {
      octaveStart <= o + 1 <= octaveEnd && 0 <= i < INTERVALS
    }

    /**
     * The grid is octaveEnd x INTERVALS; exactly the cells of octaves from
     * octaveStart on hold a layer, and the layer in cell [o, i] is layer
     * (o + 1, i + 1) of a width x height image.
     */
    ghost predicate Valid()
      reads this, Repr
    {
      && this in Repr && grid in Repr
      && 1 <= octaveStart
      && grid.Length0 == octaveEnd && grid.Length1 == INTERVALS
      && forall o, i | 0 <= o < octaveEnd && 0 <= i < INTERVALS ::
           && (grid[o, i] != null <==> octaveStart <= o + 1)
           && (grid[o, i] != null ==>
                 && grid[o, i] in Repr && grid[o, i].detHessians in Repr && grid[o, i].signs in Repr
                 && IsLayer(grid[o, i], o + 1, i + 1))
    }

    ghost predicate IsLayer(layer: OctaveLayer, octave: int, interval: int)
      reads layer
    {
      && layer.Valid()
      && layer.octave == octave && layer.interval == interval
      && layer.width == width && layer.height == height
    }

    /** Every layer of the grid holds the responses of the image. */
    ghost predicate Computed()
      reads this, Repr
      requires Valid()
    {
      forall o, i | InRange(o, i) :: grid[o, i].Computed(img)
    }

    constructor (octaveStart: int, octaveEnd: int, img: IntegImage,
                 imgWidth: int, imgHeight: int, schedule: FilterSchedule)
      requires 1 <= octaveStart && 0 <= octaveEnd
      requires 0 <= imgWidth && 0 <= imgHeight
      ensures Valid() && fresh(Repr)
      ensures this.octaveStart == octaveStart && this.octaveEnd == octaveEnd && this.img == img
      ensures width == imgWidth && height == imgHeight
      ensures forall o, i | InRange(o, i) ::
                && fresh(grid[o, i])
                && grid[o, i].scale == schedule.scale(o + 1, i + 1)
                && grid[o, i].radius == schedule.radius(o + 1, i + 1)
    {
      this.img := img;
      this.octaveStart := octaveStart;
      this.octaveEnd := octaveEnd;
      width := imgWidth;
      height := imgHeight;
      var m := new OctaveLayer?[octaveEnd, INTERVALS]((_, _) => null);
      ghost var r: set<object> := {m};
      var oct := octaveStart;
      while oct <= octaveEnd
        invariant oct == octaveStart || oct <= octaveEnd + 1
        invariant octaveStart <= oct
        invariant m in r && fresh(r)
        invariant forall o, i | 0 <= o < octaveEnd && 0 <= i < INTERVALS ::
                    && (m[o, i] != null <==> octaveStart <= o + 1 < oct)
                    && (m[o, i] != null ==> Holds(r, m[o, i]) && Built(m[o, i], o + 1, i + 1, imgWidth, imgHeight, schedule))
      {
        var i := 1;
        while i <= INTERVALS
          invariant 1 <= i <= INTERVALS + 1
          invariant m in r && fresh(r)
          invariant forall o, j | 0 <= o < octaveEnd && 0 <= j < INTERVALS ::
                      && (m[o, j] != null <==> octaveStart <= o + 1 < oct || (o + 1 == oct && j + 1 < i))
                      && (m[o, j] != null ==> Holds(r, m[o, j]) && Built(m[o, j], o + 1, j + 1, imgWidth, imgHeight, schedule))
        {
          var layer := new OctaveLayer(oct, i, imgWidth, imgHeight, schedule);
          m[oct - 1, i - 1] := layer;
          r := r + {layer, layer.detHessians, layer.signs};
          i := i + 1;
        }
        oct := oct + 1;
      }
      grid := m;
      new;
      Repr := r + {this};
    }

    /** The layer and both of its response maps are in `r`. */
    static ghost predicate Holds(r: set<object>, layer: OctaveLayer)
      reads layer
    {
      layer in r && layer.detHessians in r && layer.signs in r
    }

    /** Layer (octave, interval) of a w x h image, with the schedule's geometry. */
    static ghost predicate Built(layer: OctaveLayer, octave: int, interval: int,
                                 w: int, h: int, schedule: FilterSchedule)
      reads layer
    {
      && layer.Valid()
      && layer.octave == octave && layer.interval == interval
      && layer.width == w && layer.height == h
      && layer.scale == schedule.scale(octave, interval)
      && layer.radius == schedule.radius(octave, interval)
    }

    /** Computes every layer of every octave in range; the grid itself is left as it is. */
    method ComputeMap()
      requires Valid()
      modifies this, Layers()
      ensures Valid() && Computed()
    {
      var oct := octaveStart;
      while oct <= octaveEnd
        invariant Valid()
        invariant oct == octaveStart || oct <= octaveEnd + 1
        invariant forall o, i | InRange(o, i) && o + 1 < oct :: grid[o, i].Computed(img)
      {
        ComputeOctave(oct);
        oct := oct + 1;
      }
    }

    /** The interval loop of computeMap: computes the layers of octave `oct`, keeping those of the octaves before it. */
    method ComputeOctave(oct: int)
      requires Valid() && octaveStart <= oct <= octaveEnd
      requires forall o, i | InRange(o, i) && o + 1 < oct :: grid[o, i].Computed(img)
      modifies this, Layers()
      ensures Valid()
      ensures forall o, i | InRange(o, i) && o + 1 <= oct :: grid[o, i].Computed(img)
    {
      for i := 0 to INTERVALS
        invariant Valid()
        invariant forall o, j | InRange(o, j) && (o + 1 < oct || (o + 1 == oct && j < i)) ::
                    grid[o, j].Computed(img)
      {
        grid[oct - 1, i].ComputeLayer(img);
        Repr := Repr + {grid[oct - 1, i].detHessians, grid[oct - 1, i].signs};
      }
    }

    /**
     * The extremum test as a scan: border guard, threshold, then the 3x3
     * neighbourhood in the three layers, returning false at the first
     * neighbour that is not strictly below the centre. It reads only.
     */
    method PointIsExtremum(row: int, col: int, bot: OctaveLayer, mid: OctaveLayer,
                           top: OctaveLayer, threshold: real) returns (b: bool)
      requires Aligned(bot, mid, top)
      ensures b == IsExtremum(row, col, bot, mid, top, threshold)
    {
      if row <= top.radius || col <= top.radius ||
         row + top.radius >= top.height || col + top.radius >= top.width {
        return false;
      }
      var curPoint := mid.detHessians[row, col];
      if curPoint < threshold {
        return false;
      }
      var i := -1;
      while i <= 1
        invariant -1 <= i <= 2
        invariant forall r, c | row - 1 <= r < row + i && col - 1 <= c <= col + 1 ::
                    BelowCentre(row, col, r, c, bot, mid, top)
      {
        var r := row + i;
        var j := -1;
        while j <= 1
          invariant -1 <= j <= 2
          invariant forall r, c | row - 1 <= r < row + i && col - 1 <= c <= col + 1 ::
                      BelowCentre(row, col, r, c, bot, mid, top)
          invariant forall c | col - 1 <= c < col + j :: BelowCentre(row, col, r, c, bot, mid, top)
        {
          var topPoint := top.detHessians[row + i, col + j];
          var midPoint := mid.detHessians[row + i, col + j];
          var botPoint := bot.detHessians[row + i, col + j];
          if topPoint >= curPoint || botPoint >= curPoint {
            assert !BelowCentre(row, col, row + i, col + j, bot, mid, top);
            return false;
          }
          if i != 0 || j != 0 {
            if midPoint >= curPoint {
              assert !BelowCentre(row, col, row + i, col + j, bot, mid, top);
              return false;
            }
          }
          j := j + 1;
        }
        i := i + 1;
      }
      return true;
    }
  }
}
