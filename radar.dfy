/** The car's radar: five rays fanned around the heading, each marched outwards one unit
    at a time until it leaves the screen, lands on a border pixel or reaches its range. */
module Radar {
  import opened Geometry

  /** The march runs while length < MaxRange, so the furthest traced length is 149. */
  const MaxRange := 150

  /** range(-90, 120, 45): the ray offsets from the heading, in the order they are cast. */
  const Offsets: seq<int> := [-90, -45, 0, 45, 90]

  /** range(-90, 120, 45) steps by 45 from -90. */
  lemma OffsetsStep(k: nat)
    requires k < |Offsets|
    ensures Offsets[k] == -90 + 45 * k
  {
  }

  /** The sensor vector the policy reads has this many entries. */
  const SensorWidth := 5

  /** A ray's distance is divided by this before the policy sees it. */
  const DistanceScale := 30.0

  /** One radar entry: the last traced pixel and int(hypot(...)) of its offset from the
      centre. */
  datatype Reading = Reading(hit: Pixel, dist: nat)

  /** The pixel traced at `length` along `heading` from the centre `c`. */
  function TracePoint(m: Math, c: Point, heading: int, length: nat): Pixel {
    Pixel(Trunc(c.x + DirX(m, heading) * length as real),
          Trunc(c.y + DirY(m, heading) * length as real))
  }

  /** The march breaks at `length`: the traced pixel is off the screen or on the border. */
  predicate Stops(track: Track, m: Math, c: Point, heading: int, length: nat) {
    Impassable(track, TracePoint(m, c, heading, length))
  }

  /** The length at which the march that has reached `length` ends: the first breaking
      length, or 149 when none breaks (the loop exits with length == 150 but its pixel
      was traced at 149). */
  function MarchFrom(track: Track, m: Math, c: Point, heading: int, length: nat): (r: nat)
    requires length < MaxRange
    ensures length <= r < MaxRange
    ensures forall l :: length <= l < r ==> !Stops(track, m, c, heading, l)
    ensures r < MaxRange - 1 ==> Stops(track, m, c, heading, r)
    decreases MaxRange - length
  {
    if Stops(track, m, c, heading, length) || length == MaxRange - 1 then length
    else MarchFrom(track, m, c, heading, length + 1)
  }

  /** The final march length of a ray, starting at length 0. */
  function March(track: Track, m: Math, c: Point, heading: int): nat {
    MarchFrom(track, m, c, heading, 0)
  }

  /** The march length is the first length that breaks, or 149 if none does: any length
      with that description is the march length. */
  lemma MarchIsFirstStop(track: Track, m: Math, c: Point, heading: int, n: nat)
    requires n < MaxRange
    requires forall l :: 0 <= l < n ==> !Stops(track, m, c, heading, l)
    requires n == MaxRange - 1 || Stops(track, m, c, heading, n)
    ensures March(track, m, c, heading) == n
  {
    var r: nat := March(track, m, c, heading);
    assert r < MaxRange - 1 ==> Stops(track, m, c, heading, r);
    assert r < n ==> !Stops(track, m, c, heading, r);
    assert n < r ==> !Stops(track, m, c, heading, n);
  }

  /** The reading of one ray cast along `heading` (the car's angle plus an offset). */
  function Ray(track: Track, m: Math, c: Point, heading: int): Reading {
    var p := TracePoint(m, c, heading, March(track, m, c, heading));
    var h := m.hypot(p.x as real - c.x, p.y as real - c.y);
    TruncBounds(h);
    Reading(p, Trunc(h))
  }

  /** What the radar holds after a refresh: one reading per offset, in offset order. */
  function Scan(track: Track, m: Math, c: Point, angle: int): (r: seq<Reading>)
    ensures |r| == |Offsets| == SensorWidth
  {
    seq(|Offsets|, k requires 0 <= k < |Offsets| => Ray(track, m, c, angle + Offsets[k]))
  }

  /** The sensor vector: each reading's distance over 30, padded on the right with zeros
      up to five entries ([0] * n is empty for negative n, so nothing is cut off). */
  function SensorVector(radars: seq<Reading>): (v: seq<real>)
    ensures |radars| <= SensorWidth ==> |v| == SensorWidth
    ensures SensorWidth < |radars| ==> |v| == |radars|
    ensures forall i :: 0 <= i < |v| ==>
      v[i] == if i < |radars| then radars[i].dist as real / DistanceScale else 0.0
  {
    seq(|radars|, i requires 0 <= i < |radars| => radars[i].dist as real / DistanceScale)
      + seq(if |radars| < SensorWidth then SensorWidth - |radars| else 0, _ => 0.0)
  }

  /** The inner while loop of the radar refresh: march one ray and measure it. */
  method CastRay(track: Track, m: Math, c: Point, heading: int) returns (reading: Reading)
    ensures reading == Ray(track, m, c, heading)
  {
    var length := 0;
    var x, y := 0, 0;
    while length < MaxRange
      invariant 0 <= length <= MaxRange
      invariant forall l :: 0 <= l < length ==> !Stops(track, m, c, heading, l)
      invariant 0 < length ==> Pixel(x, y) == TracePoint(m, c, heading, length - 1)
    {
      var p := TracePoint(m, c, heading, length);
      x, y := p.x, p.y;
      if !(0 <= x < Width && 0 <= y < Height) {
        MarchIsFirstStop(track, m, c, heading, length);
        break;
      }
      if track.pixel(x, y) == BorderColor {
        MarchIsFirstStop(track, m, c, heading, length);
        break;
      }
      length := length + 1;
    }
    if length == MaxRange {
      // the loop ran out: the last pixel was traced at length 149
      MarchIsFirstStop(track, m, c, heading, MaxRange - 1);
    }
    assert Pixel(x, y) == Ray(track, m, c, heading).hit;
    var h := m.hypot(x as real - c.x, y as real - c.y);
    TruncBounds(h);
    reading := Reading(Pixel(x, y), Trunc(h));
  }

  /** A centre already on a border pixel or off the screen: every ray stops at length 0
      and its pixel is the truncated centre. */
  lemma BlockedCentreScan(track: Track, m: Math, c: Point, angle: int)
    requires Impassable(track, TruncPoint(c))
    ensures forall k :: 0 <= k < |Offsets| ==>
      March(track, m, c, angle + Offsets[k]) == 0 && Scan(track, m, c, angle)[k].hit == TruncPoint(c)
  {
    forall k | 0 <= k < |Offsets|
      ensures March(track, m, c, angle + Offsets[k]) == 0
    {
      assert TracePoint(m, c, angle + Offsets[k], 0) == TruncPoint(c);
    }
  }

  /** A ray whose whole range is clear is traced to its last length, 149. */
  lemma OpenRayFullRange(track: Track, m: Math, c: Point, heading: int)
    requires forall l :: 0 <= l < MaxRange ==> !Stops(track, m, c, heading, l)
    ensures March(track, m, c, heading) == MaxRange - 1
    ensures Ray(track, m, c, heading).hit == TracePoint(m, c, heading, MaxRange - 1)
    ensures InBounds(Ray(track, m, c, heading).hit)
  {
    MarchIsFirstStop(track, m, c, heading, MaxRange - 1);
    assert !Stops(track, m, c, heading, MaxRange - 1);
  }

  /** Every pixel traced before the end of a march is on the screen and off the border;
      a march that did not break ran to length 149 and ends on the screen. */
  lemma RayTrace(track: Track, m: Math, c: Point, heading: int)
    ensures var n := March(track, m, c, heading);
      && n < MaxRange
      && Ray(track, m, c, heading).hit == TracePoint(m, c, heading, n)
      && (forall l :: 0 <= l < n ==> InBounds(TracePoint(m, c, heading, l)))
      && (!Stops(track, m, c, heading, n) ==> n == MaxRange - 1 && InBounds(Ray(track, m, c, heading).hit))
  {
    var n := March(track, m, c, heading);
    forall l | 0 <= l < n
      ensures InBounds(TracePoint(m, c, heading, l))
    {
      assert !Stops(track, m, c, heading, l);
    }
  }
}
