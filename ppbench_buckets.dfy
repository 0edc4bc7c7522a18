/** The statistics half of `Ppbench.bands` and `Ppbench.add_comparisonplot`:
    splitting a series into `n` fixed-width size buckets, aborting on an empty
    bucket, deriving the four percentile levels from a confidence, and pairing
    the buckets of a compared series with those of the reference series.
    The medians and percentiles themselves come from a statistics library that
    is not part of this model: a bucket keeps the values they are taken of. */
module PpbenchBuckets {
  import opened Wrappers
  import opened Measurements

  /** Ruby's `Integer#/`, which rounds toward negative infinity. */
  function FloorDiv(a: int, b: int): (q: int)
    requires b != 0
    ensures b > 0 ==> b * q <= a < b * q + b
    ensures b < 0 ==> b * q >= a > b * q + b
  {
    if b > 0 then a / b else (-a) / (-b)
  }

  /** `[v[:length], v[to_plot]]`: a message size and the plotted value. */
  datatype Point = Point(x: int, y: real)

  function Points(data: seq<Entry>, toPlot: Field): (ps: seq<Point>)
    ensures |ps| == |data|
    ensures forall i :: 0 <= i < |data| ==> ps[i] == Point(data[i].length, Value(data[i], toPlot))
  {
    if data == [] then []
    else [Point(data[0].length, Value(data[0], toPlot))] + Points(data[1..], toPlot)
  }

  /** `p[0] < i * step && p[0] >= (i - 1) * step` */
  function InBucket(i: int, step: int): Point -> bool
  {
    (p: Point) => p.x < i * step && p.x >= (i - 1) * step
  }

  /** `.map { |p| p[1] }` */
  function Ys(ps: seq<Point>): (ys: seq<real>)
    ensures |ys| == |ps|
    ensures forall k :: 0 <= k < |ps| ==> ys[k] == ps[k].y
  {
    if ps == [] then [] else [ps[0].y] + Ys(ps[1..])
  }

  /** Bucket `i` (counted from 1) is labelled with its upper bound `i * step`. */
  datatype Bucket = Bucket(x: int, points: seq<Point>)

  /** `1.upto(n).map { |i| [i * step, points.select { ... }] }`: no bucket at all when `n < 1`. */
  function Buckets(ps: seq<Point>, n: int, step: int): (bs: seq<Bucket>)
    ensures |bs| == if n < 0 then 0 else n
  {
    seq(if n < 0 then 0 else n, k requires 0 <= k => Bucket((k + 1) * step, Select(ps, InBucket(k + 1, step))))
  }

  /** Why an analysis run is aborted: `length / n` with `n == 0` raises, and an
      empty bucket makes the run print a precision hint naming the bucket's
      upper bound and exit. */
  datatype Abort = ZeroPrecision | NotEnoughData(x: int)

  datatype Result<T> = Ok(value: T) | Err(abort: Abort)

  /** Index of the first empty bucket, if any. */
  function FirstEmpty(bs: seq<Bucket>): (r: Option<nat>)
    ensures r.Some? ==> r.value < |bs| && bs[r.value].points == []
                        && forall k :: 0 <= k < r.value ==> bs[k].points != []
    ensures r.None? ==> forall k :: 0 <= k < |bs| ==> bs[k].points != []
  {
    if bs == [] then None
    else if bs[0].points == [] then Some(0)
    else match FirstEmpty(bs[1..])
      case None => None
      case Some(k) => Some(k + 1)
  }

  /** The buckets of a series, or the abort the first empty one causes. */
  function Bucketed(data: seq<Entry>, toPlot: Field, n: int, length: int): (r: Result<seq<Bucket>>)
    ensures r.Ok? ==> |r.value| == if n < 0 then 0 else n
  {
    if n == 0 then Err(ZeroPrecision)
    else
      var bs := Buckets(Points(data, toPlot), n, FloorDiv(length, n));
      match FirstEmpty(bs)
      case Some(k) => Err(NotEnoughData(bs[k].x))
      case None => Ok(bs)
  }

  // ---------------------------------------------------------------------------
  // Confidence levels

  /** The percentiles `bands` asks for around the median. */
  datatype Levels = Levels(lower: int, semiLower: int, semiUpper: int, upper: int)

  function ConfidenceLevels(confidence: int): (l: Levels)
    ensures 2 * l.lower <= 100 - confidence < 2 * l.lower + 2
    ensures l.semiUpper == 100 - l.semiLower && l.upper == 100 - l.lower
    ensures 0 <= confidence <= 100 ==> 0 <= l.lower <= l.semiLower <= 50 <= l.semiUpper <= l.upper <= 100
  {
    Levels((100 - confidence) / 2,
           (100 - confidence / 2) / 2,
           100 - (100 - confidence / 2) / 2,
           100 - (100 - confidence) / 2)
  }

  /** The default confidence of 90 gives the 5th, 27th, 73rd and 95th percentiles. */
  lemma DefaultLevels()
    ensures ConfidenceLevels(90) == Levels(5, 27, 73, 95)
  {
  }

  /** What a confidence band is drawn from: the levels and, per bucket, the values
      whose median and percentiles at those levels are plotted. */
  datatype Band = Band(levels: Levels, buckets: seq<Bucket>)

  /** `bands`, less the R text. */
  function Bands(data: seq<Entry>, toPlot: Field, n: int, length: int, confidence: int): Result<Band>
  {
    match Bucketed(data, toPlot, n, length)
    case Err(a) => Err(a)
    case Ok(bs) => Ok(Band(ConfidenceLevels(confidence), bs))
  }

  // ---------------------------------------------------------------------------
  // Properties of the bucketing

  lemma MulMonotone(a: int, b: int, step: int)
    requires a <= b && step >= 0
    ensures a * step <= b * step
  {
    assert b * step - a * step == (b - a) * step;
  }

  /** The bucket bounds are `step, 2 * step, ..., n * step`, increasing when `step > 0`. */
  lemma BucketBounds(ps: seq<Point>, n: int, step: int, k: int, l: int)
    requires 0 <= k < l < |Buckets(ps, n, step)|
    ensures Buckets(ps, n, step)[k].x == (k + 1) * step
    ensures step > 0 ==> Buckets(ps, n, step)[k].x < Buckets(ps, n, step)[l].x
  {
    BucketAt(ps, n, step, k);
    BucketAt(ps, n, step, l);
    if step > 0 {
      MulMonotone(k + 2, l + 1, step);
      assert (k + 2) * step == (k + 1) * step + step;
    }
  }

  /** Bucket `i` holds exactly the points with `(i - 1) * step <= x < i * step`,
      in their original order and multiplicity. */
  lemma BucketContents(ps: seq<Point>, n: int, step: int, k: nat, p: Point)
    requires k < |Buckets(ps, n, step)|
    ensures multiset(Buckets(ps, n, step)[k].points)[p]
         == if k * step <= p.x < (k + 1) * step then multiset(ps)[p] else 0
  {
    BucketAt(ps, n, step, k);
    SelectCount(ps, InBucket(k + 1, step), p);
    assert InBucket(k + 1, step)(p) <==> k * step <= p.x < (k + 1) * step;
  }

  lemma BucketAt(ps: seq<Point>, n: int, step: int, k: int)
    requires 0 <= k < |Buckets(ps, n, step)|
    ensures Buckets(ps, n, step)[k] == Bucket((k + 1) * step, Select(ps, InBucket(k + 1, step)))
  {
  }

  /** No point lies in two buckets. */
  lemma BucketsDisjoint(step: int, i: int, j: int, x: int)
    requires i * step > x >= (i - 1) * step
    requires j * step > x >= (j - 1) * step
    ensures i == j
  {
    if i < j {
      MulMonotone(i, j - 1, step);
    } else if j < i {
      MulMonotone(j, i - 1, step);
    }
  }

  /** A point of size `x` with `0 <= x < n * step` lands in bucket `x / step + 1`;
      a point of size `x >= n * step` or `x < 0` lands in none. */
  lemma BucketOf(n: int, step: int, p: Point)
    requires step > 0
    ensures 0 <= p.x < n * step ==> 1 <= p.x / step + 1 <= n && InBucket(p.x / step + 1, step)(p)
    ensures p.x >= n * step || p.x < 0 ==> forall i :: 1 <= i <= n ==> !InBucket(i, step)(p)
  {
    var x := p.x;
    if 0 <= x < n * step {
      var q := x / step;
      assert q * step <= x < (q + 1) * step;
      if q + 1 > n {
        MulMonotone(n, q, step);
      }
    }
    if x >= n * step {
      forall i | 1 <= i <= n
        ensures !InBucket(i, step)(p)
      {
        MulMonotone(i, n, step);
      }
    }
    if x < 0 {
      forall i | 1 <= i <= n
        ensures !InBucket(i, step)(p)
      {
        MulMonotone(0, i - 1, step);
      }
    }
  }

  /** `bands` aborts exactly when the precision is 0 or some bucket is empty,
      naming the first empty bucket; otherwise it has `n` buckets. */
  lemma BandsAbort(data: seq<Entry>, toPlot: Field, n: int, length: int, confidence: int)
    ensures n == 0 ==> Bands(data, toPlot, n, length, confidence) == Err(ZeroPrecision)
    ensures n != 0 ==>
              var bs := Buckets(Points(data, toPlot), n, FloorDiv(length, n));
              match Bands(data, toPlot, n, length, confidence)
              case Err(a) => a.NotEnoughData? && exists k :: 0 <= k < |bs| && bs[k].points == [] && a.x == bs[k].x
                                                  && forall k' :: 0 <= k' < k ==> bs[k'].points != []
              case Ok(band) => band.buckets == bs && (forall k :: 0 <= k < |bs| ==> bs[k].points != [])
                               && band.levels == ConfidenceLevels(confidence)
  {
  }

  // ---------------------------------------------------------------------------
  // Comparison against a reference series

  /** One point of a comparison line: at bucket bound `x`, the ratio of the
      median of `serie` to the median of `reference`. */
  datatype Ratio = Ratio(x: int, serie: seq<real>, reference: seq<real>)

  /** Reference definition of the points `add_comparisonplot` draws: both series
      are bucketed (the reference first, so its empty bucket is reported first),
      then one ratio per bucket in bucket order. */
  function Comparison(reference: seq<Entry>, serie: seq<Entry>, toPlot: Field, length: int, n: int): Result<seq<Ratio>>
  {
    match Bucketed(reference, toPlot, n, length)
    case Err(a) => Err(a)
    case Ok(rs) =>
      match Bucketed(serie, toPlot, n, length)
      case Err(a) => Err(a)
      case Ok(ss) => Ok(Ratios(rs, ss))
  }

  /** One ratio per reference bucket, at its bound, against the compared
      series' bucket of the same rank. */
  function Ratios(rs: seq<Bucket>, ss: seq<Bucket>): (r: seq<Ratio>)
    requires |rs| <= |ss|
    ensures |r| == |rs|
    ensures forall k :: 0 <= k < |rs| ==> r[k] == Ratio(rs[k].x, Ys(ss[k].points), Ys(rs[k].points))
  {
    seq(|rs|, k requires 0 <= k < |rs| => Ratio(rs[k].x, Ys(ss[k].points), Ys(rs[k].points)))
  }

  /** `ref_values` / `serie_values`: bucket bound to the values of the bucket, as a hash. */
  function ValuesByBound(bs: seq<Bucket>): (m: map<int, seq<real>>)
    ensures forall k :: 0 <= k < |bs| ==> bs[k].x in m
  {
    if bs == [] then map[]
    else ValuesByBound(bs[..|bs| - 1])[bs[|bs| - 1].x := Ys(bs[|bs| - 1].points)]
  }

  lemma {:induction false} ValuesByBoundAt(bs: seq<Bucket>, k: nat)
    requires k < |bs|
    requires forall i, j :: 0 <= i < j < |bs| ==> bs[i].x < bs[j].x
    ensures ValuesByBound(bs)[bs[k].x] == Ys(bs[k].points)
  {
    if k < |bs| - 1 {
      ValuesByBoundAt(bs[..|bs| - 1], k);
    }
  }

  /** Once neither series aborts, their buckets share strictly increasing bounds. */
  lemma AlignedBuckets(reference: seq<Entry>, serie: seq<Entry>, toPlot: Field, length: int, n: int)
    requires Bucketed(reference, toPlot, n, length).Ok? && Bucketed(serie, toPlot, n, length).Ok?
    ensures var rs, ss := Bucketed(reference, toPlot, n, length).value, Bucketed(serie, toPlot, n, length).value;
            && |rs| == |ss|
            && (forall k :: 0 <= k < |rs| ==> rs[k].x == ss[k].x)
            && (forall i, j :: 0 <= i < j < |ss| ==> ss[i].x < ss[j].x)
            && Comparison(reference, serie, toPlot, length, n) == Ok(Ratios(rs, ss))
  {
    OrderedBounds(Points(serie, toPlot), n, FloorDiv(length, n));
  }

  /** `add_comparisonplot`, less the R text: the loop over the reference's
      buckets pushing bound and ratio for every bound the compared series has. */
  method ComparisonLine(reference: seq<Entry>, serie: seq<Entry>, toPlot: Field, length: int, n: int)
    returns (r: Result<seq<Ratio>>)
    ensures r == Comparison(reference, serie, toPlot, length, n)
  {
    var refBuckets := Bucketed(reference, toPlot, n, length);
    if refBuckets.Err? {
      return Err(refBuckets.abort);
    }
    var serieBuckets := Bucketed(serie, toPlot, n, length);
    if serieBuckets.Err? {
      return Err(serieBuckets.abort);
    }
    var rs, ss := refBuckets.value, serieBuckets.value;
    AlignedBuckets(reference, serie, toPlot, length, n);
    var ys := RatioLine(rs, ss);
    r := Ok(ys);
  }

  /** The loop of `add_comparisonplot`: for every reference bucket whose bound
      the compared series has, push the bound and the pair of value lists. */
  method RatioLine(rs: seq<Bucket>, ss: seq<Bucket>) returns (ys: seq<Ratio>)
    requires |rs| == |ss|
    requires forall k :: 0 <= k < |rs| ==> rs[k].x == ss[k].x
    requires forall i, j :: 0 <= i < j < |ss| ==> ss[i].x < ss[j].x
    ensures ys == Ratios(rs, ss)
  {
    var serieValues := ValuesByBound(ss);
    ys := [];
    var k := 0;
    while k < |rs|
      invariant 0 <= k <= |rs|
      invariant ys == Ratios(rs, ss)[..k]
    {
      var x, values := rs[k].x, Ys(rs[k].points);
      ValuesByBoundAt(ss, k);
      assert x == ss[k].x && serieValues[x] == Ys(ss[k].points);
      assert Ratio(x, serieValues[x], values) == Ratios(rs, ss)[k];
      if x in serieValues {
        ys := ys + [Ratio(x, serieValues[x], values)];
      }
      assert Ratios(rs, ss)[..k + 1] == Ratios(rs, ss)[..k] + [Ratios(rs, ss)[k]];
      k := k + 1;
    }
    assert Ratios(rs, ss)[..k] == Ratios(rs, ss);
  }

  /** With no empty bucket the step is positive, so the bounds are strictly increasing. */
  lemma OrderedBounds(ps: seq<Point>, n: int, step: int)
    requires forall k :: 0 <= k < |Buckets(ps, n, step)| ==> Buckets(ps, n, step)[k].points != []
    ensures forall i, j :: 0 <= i < j < |Buckets(ps, n, step)| ==> Buckets(ps, n, step)[i].x < Buckets(ps, n, step)[j].x
  {
    var bs := Buckets(ps, n, step);
    if |bs| > 0 {
      var p := bs[0].points[0];
      assert p in bs[0].points;
      assert step > 0;
      forall i, j | 0 <= i < j < |bs|
        ensures bs[i].x < bs[j].x
      {
        BucketBounds(ps, n, step, i, j);
      }
    }
  }

  /** A series compared with itself: every ratio divides a bucket's median by
      itself, so the line is 1 wherever the median is not 0. */
  lemma SelfComparison(s: seq<Entry>, toPlot: Field, length: int, n: int)
    ensures match Comparison(s, s, toPlot, length, n)
            case Ok(rs) => |rs| == (if n < 0 then 0 else n) && forall k :: 0 <= k < |rs| ==> rs[k].serie == rs[k].reference
            case Err(_) => true
  {
  }

  /** An empty bucket in either series aborts the comparison before any ratio;
      otherwise there is one ratio per bucket, at the bucket bounds, in order. */
  lemma ComparisonOutcome(reference: seq<Entry>, serie: seq<Entry>, toPlot: Field, length: int, n: int)
    ensures Comparison(reference, serie, toPlot, length, n).Ok? <==>
              Bucketed(reference, toPlot, n, length).Ok? && Bucketed(serie, toPlot, n, length).Ok?
    ensures Comparison(reference, serie, toPlot, length, n).Ok? ==>
              var rs := Comparison(reference, serie, toPlot, length, n).value;
              && |rs| == (if n < 0 then 0 else n)
              && (forall k :: 0 <= k < |rs| ==> rs[k].x == (k + 1) * FloorDiv(length, n))
              && (forall k :: 0 <= k < |rs| ==> rs[k].reference != [] && rs[k].serie != [])
  {
  }
}
