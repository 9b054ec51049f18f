/**
 * The collaborators of the keypoint core whose code is not part of this model:
 * the integral image (IntegImage), a scale layer of the pyramid (OctaveLayer)
 * and the keypoint record (FeaturePoint). Only what the core relies on is kept:
 * their fields, their constructors as the core calls them, and what a layer
 * holds once it has been computed. Every computation hidden behind them
 * (box filters, Haar responses, the filter-size schedule, Math.Sqrt) is an
 * uninterpreted function value supplied by the caller.
 */
module Imaging {

  /** Length of a descriptor: 4x4 quadrants times 4 sums. */
  const DESC_SIZE: int := 64

  /** Math.Sqrt as the matcher relies on it: never negative on a non-negative argument. */
  type Sqrt = f: real -> real | RootLike(f)
    witness (x: real) => if x < 0.0 then 0.0 else x

  /** f never returns a negative value for a non-negative argument. */
  ghost predicate RootLike(f: real -> real) {
    forall x: real :: 0.0 <= x ==> 0.0 <= f(x)
  }

  /**
   * A source image as its consumers see it. `haarX`/`haarY` answer
   * HaarWavelet_X/Y(row, col, size); `hessian` and `laplacian` give, for
   * (octave, interval, row, col), the determinant of the approximate Hessian
   * and the sign of the Laplacian that OctaveLayer.computeLayer derives from
   * this image.
   */
  datatype IntegImage = IntegImage(
    haarX: (int, int, int) -> real,
    haarY: (int, int, int) -> real,
    hessian: (int, int, int, int) -> real,
    laplacian: (int, int, int, int) -> int)

  /** The box-filter schedule of OctaveLayer: scale and radius of layer (octave, interval). */
  datatype FilterSchedule = FilterSchedule(
    scale: (int, int) -> int,
    radius: (int, int) -> int)

  /** One (octave, interval) layer of the scale pyramid. */
  class OctaveLayer {
    const octave: int
    const interval: int
    const width: int
    const height: int
    const scale: int
    const radius: int
    var detHessians: array2<real>
    var signs: array2<int>

    /** Both response maps cover the image: `height` rows of `width` columns. */
    ghost predicate Valid()
      reads this
    {
      && 0 <= width && 0 <= height
      && detHessians.Length0 == height && detHessians.Length1 == width
      && signs.Length0 == height && signs.Length1 == width
    }

    /** Every pixel holds the response the image gives for this layer. */
    ghost predicate Computed(img: IntegImage)
      reads this, detHessians, signs
      requires Valid()
    {
      forall r, c | 0 <= r < height && 0 <= c < width ::
        && detHessians[r, c] == img.hessian(octave, interval, r, c)
        && signs[r, c] == img.laplacian(octave, interval, r, c)
    }

    constructor (octave: int, interval: int, width: int, height: int, schedule: FilterSchedule)
      requires 0 <= width && 0 <= height
      ensures Valid()
      ensures this.octave == octave && this.interval == interval
      ensures this.width == width && this.height == height
      ensures scale == schedule.scale(octave, interval) && radius == schedule.radius(octave, interval)
      ensures fresh(detHessians) && fresh(signs)
    {
      this.octave := octave;
      this.interval := interval;
      this.width := width;
      this.height := height;
      scale := schedule.scale(octave, interval);
      radius := schedule.radius(octave, interval);
      detHessians := new real[height, width];
      signs := new int[height, width];
    }

    /** Fills both maps from the image; the maps are new arrays of the same size. */
    method ComputeLayer(img: IntegImage)
      requires Valid()
      modifies this
      ensures Valid() && Computed(img)
      ensures fresh(detHessians) && fresh(signs)
    {
      var o, i := octave, interval;
      detHessians := new real[height, width]((r, c) => img.hessian(o, i, r, c));
      signs := new int[height, width]((r, c) => img.laplacian(o, i, r, c));
    }
  }

  /** What extraction fixes about a keypoint: position, scale, radius and Laplacian sign. */
  datatype PointData = PointData(x: int, y: int, scale: int, radius: int, sign: int)

  /** A keypoint. Its descriptor is attached after extraction, in place. */
  class FeaturePoint {
    const x: int
    const y: int
    const scale: int
    const radius: int
    const sign: int
    var descriptor: seq<real>

    constructor (x: int, y: int, scale: int, radius: int, sign: int)
      ensures Data() == PointData(x, y, scale, radius, sign)
      ensures descriptor == []
    {
      this.x := x;
      this.y := y;
      this.scale := scale;
      this.radius := radius;
      this.sign := sign;
      descriptor := [];
    }

    function Data(): PointData {
      PointData(x, y, scale, radius, sign)
    }
  }

  /** `ps` holds, in order, the points whose data `ds` lists. */
  predicate Describes(ps: seq<FeaturePoint>, ds: seq<PointData>) {
    |ps| == |ds| && forall n | 0 <= n < |ps| :: ps[n].Data() == ds[n]
  }

  /** Describing is compatible with concatenation. */
  lemma DescribesAppend(ps: seq<FeaturePoint>, qs: seq<FeaturePoint>, ds: seq<PointData>, es: seq<PointData>)
    requires Describes(ps, ds) && Describes(qs, es)
    ensures Describes(ps + qs, ds + es)
  {
    forall n | 0 <= n < |ps + qs| ensures (ps + qs)[n].Data() == (ds + es)[n] {
      if n >= |ps| {
        assert (ps + qs)[n] == qs[n - |ps|];
      }
    }
  }
}
