/**
 * The per-tick quantities of the driving animation (VehicleMap.js lines 337-378): the pulsing
 * radius of the vehicle marker and the distance accumulated along the route.
 *
 * The radius is held in half-pixels so that its steps of 0.5 are whole numbers: it starts at
 * 8 px (16) and bounces between 8 px and 15 px (30).
 */
module Animation {
  import opened Geometry

  /** A non-negative length in metres. */
  type Length = r: real | 0.0 <= r

  const PulseMin: int := 16
  const PulseMax: int := 30
  /** Moving ticks in one full grow-and-shrink cycle of the radius. */
  const PulsePeriod: int := 2 * (PulseMax - PulseMin)

  /** The marker's radius and whether it is currently growing. */
  datatype Pulse = Pulse(radius: int, growing: bool)

  /** Lines 363-365: step the radius by half a pixel, then turn round at either bound. */
  function PulseStep(p: Pulse): (r: Pulse)
    ensures r.radius == p.radius + 1 || r.radius == p.radius - 1
    ensures r.radius >= PulseMax ==> !r.growing
    ensures r.radius <= PulseMin ==> r.growing
  {
    var radius := if p.growing then p.radius + 1 else p.radius - 1;
    var growing := if radius >= PulseMax then false else p.growing;
    Pulse(radius, if radius <= PulseMin then true else growing)
  }

  /** The radius and direction after n moving ticks of one animation. */
  function PulseAfter(n: nat): (r: Pulse)
    ensures PulseMin <= r.radius <= PulseMax
    ensures r.radius == PulseMax ==> !r.growing
    ensures r.radius == PulseMin ==> r.growing
  {
    if n == 0 then Pulse(PulseMin, true) else PulseStep(PulseAfter(n - 1))
  }

  /** The triangle wave the radius follows: up for half a period, then down. */
  function Triangle(m: int): int
  {
    if m <= PulsePeriod / 2 then m else PulsePeriod - m
  }

  lemma ModStep(n: nat)
    requires n > 0
    ensures n % PulsePeriod == if (n - 1) % PulsePeriod == PulsePeriod - 1 then 0 else (n - 1) % PulsePeriod + 1
  {
  }

  /**
   * The radius after n moving ticks is 8 px plus a triangle wave of period 28 ticks and
   * amplitude 7 px: it grows for 14 ticks to 15 px and shrinks for 14 ticks back to 8 px.
   */
  lemma {:induction false} PulseIsTriangleWave(n: nat)
    ensures PulseAfter(n) == Pulse(PulseMin + Triangle(n % PulsePeriod), n % PulsePeriod < PulsePeriod / 2)
  {
    if n > 0 {
      PulseIsTriangleWave(n - 1);
      ModStep(n);
    }
  }

  /** The radius stays within 8 px to 15 px. */
  lemma PulseInRange(n: nat)
    ensures PulseMin <= PulseAfter(n).radius <= PulseMax
  {
    PulseIsTriangleWave(n);
  }

  /**
   * The distance added by the first k moving ticks: the sum of the great-circle lengths of
   * the first k segments of the route.
   */
  function Travelled(route: seq<Coord>, k: nat, geo: (Coord, Coord) -> Length): (r: real)
    requires k == 0 || k < |route|
    ensures r >= 0.0
  {
    if k == 0 then 0.0 else Travelled(route, k - 1, geo) + geo(route[k - 1], route[k])
  }

  /** Segment lengths are never negative, so the travelled distance never goes down. */
  lemma {:induction false} TravelledMonotone(route: seq<Coord>, j: nat, k: nat, geo: (Coord, Coord) -> Length)
    requires j <= k && (k == 0 || k < |route|)
    ensures Travelled(route, j, geo) <= Travelled(route, k, geo)
  {
    if j < k {
      TravelledMonotone(route, j, k - 1, geo);
    }
  }

  /** The travel line after `step` moves (line 375): the route up to and including coordinate `step`. */
  function TraceUpTo(route: seq<Coord>, step: nat): (r: seq<Coord>)
    requires step < |route|
    ensures |r| == step + 1 && r[step] == route[step]
    ensures forall i :: 0 <= i <= step ==> r[i] == route[i]
  {
    route[..step + 1]
  }
}
