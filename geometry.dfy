/**
 * Coordinates of the projected (EPSG:3857) frame and the node keys derived from them.
 *
 * A raw coordinate is held in integer millimetres. A node key is what the road-graph
 * builder writes as `${x.toFixed(2)}|${y.toFixed(2)}`: each component printed with two
 * fractional digits, i.e. rounded to centimetres. `toFixed` prints the sign and then the
 * magnitude rounded half up, so a printed component is a sign and a magnitude in
 * hundredths; `Number(...)` reads it back (and reads "-0.00" as zero).
 */
module Geometry {

  /** A point of the projected frame, in millimetres. */
  datatype Coord = Coord(x: int, y: int)

  /** One component as `toFixed(2)` prints it: a minus sign or none, then the digits. */
  datatype Fixed = Fixed(negative: bool, hundredths: nat)

  /** A node key: the two printed components (the `|` separator never occurs in a number). */
  datatype Key = Key(x: Fixed, y: Fixed)

  /** Millimetres per printed hundredth of a metre. */
  const Step: int := 10

  /** The value `Number(...)` reads back from a printed component, in millimetres. */
  function FixedValue(f: Fixed): int
  {
    if f.negative then -(f.hundredths * Step) else f.hundredths * Step
  }

  /**
   * `v.toFixed(2)` for a value of v millimetres: the sign of v, then the magnitude rounded
   * to the nearest hundredth, the larger one on a tie. The printed value is never more than
   * half a step away from v.
   */
  function ToFixed(v: int): (f: Fixed)
    ensures f.negative <==> v < 0
    ensures -(Step / 2) <= FixedValue(f) - v <= Step / 2
  {
    var m := if v < 0 then -v else v;
    Fixed(v < 0, (m + Step / 2) / Step)
  }

  /** The node key of a coordinate (VehicleMap.js line 174). */
  function KeyOf(c: Coord): (k: Key)
    ensures -(Step / 2) <= FixedValue(k.x) - c.x <= Step / 2
    ensures -(Step / 2) <= FixedValue(k.y) - c.y <= Step / 2
  {
    Key(ToFixed(c.x), ToFixed(c.y))
  }

  /** The coordinate a key is read back as: `k.split('|').map(Number)` (lines 304 and 321). */
  function Decode(k: Key): (c: Coord)
    ensures c.x % Step == 0 && c.y % Step == 0
  {
    Coord(FixedValue(k.x), FixedValue(k.y))
  }

  /** Squared planar distance; in exact arithmetic it orders points as `Math.hypot` of the differences does. */
  function SqDist(p: Coord, q: Coord): (d: nat)
    ensures d == 0 <==> p == q
  {
    (p.x - q.x) * (p.x - q.x) + (p.y - q.y) * (p.y - q.y)
  }

  /** A printed component other than "-0.00" reads back to a value that prints the same. */
  lemma FixedRoundTrip(f: Fixed)
    ensures ToFixed(FixedValue(f)) == f <==> !(f.negative && f.hundredths == 0)
  {
    if f.negative && f.hundredths > 0 {
      assert FixedValue(f) < 0;
      assert -FixedValue(f) == f.hundredths * Step;
      assert (f.hundredths * Step + Step / 2) / Step == f.hundredths;
    } else if !f.negative {
      assert (f.hundredths * Step + Step / 2) / Step == f.hundredths;
    }
  }

  /** Decoding a key and keying the result again gives the key back, unless a component is "-0.00". */
  lemma KeyRoundTrip(k: Key)
    requires !(k.x.negative && k.x.hundredths == 0) && !(k.y.negative && k.y.hundredths == 0)
    ensures KeyOf(Decode(k)) == k
  {
    FixedRoundTrip(k.x);
    FixedRoundTrip(k.y);
  }

  /** Two values that print the same are less than one step apart: keys only merge nearby points. */
  lemma SameFixedIsNear(u: int, v: int)
    requires ToFixed(u) == ToFixed(v)
    ensures -Step < u - v < Step
  {
  }

  /** Two values that print with the same sign and are rounded to the same hundredth merge. */
  lemma SameBucketSameFixed(u: int, v: int, h: nat)
    requires (u < 0 <==> v < 0)
    requires h * Step <= (if u < 0 then -u else u) + Step / 2 < (h + 1) * Step
    requires h * Step <= (if v < 0 then -v else v) + Step / 2 < (h + 1) * Step
    ensures ToFixed(u) == ToFixed(v) == Fixed(u < 0, h)
  {
    var mu := if u < 0 then -u else u;
    var mv := if v < 0 then -v else v;
    DivBucket(mu + Step / 2, h);
    DivBucket(mv + Step / 2, h);
  }

  lemma DivBucket(n: int, h: nat)
    requires h * Step <= n < (h + 1) * Step
    ensures n / Step == h
  {
  }

  /**
   * `toFixed` prints a small negative value as "-0.00" and a small positive one as "0.00":
   * two points 2 mm apart that read back as the same point get different keys.
   */
  lemma NegativeZeroSplits()
    ensures KeyOf(Coord(-1, 0)) != KeyOf(Coord(1, 0))
    ensures Decode(KeyOf(Coord(-1, 0))) == Decode(KeyOf(Coord(1, 0)))
  {
  }
}
