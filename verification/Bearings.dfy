/**
 Compass bearings in degrees: the normalising loop, magnetic bearings and the
 circular distance between two of them. Angles are exact reals.
 */
module Bearings {
  import opened Reals

  // The angle `a` after `k` further whole turns.
  function Turned(a: real, k: int): real {
    a + 360.0 * (k as real)
  }

  // Two angles name the same direction when they differ by whole turns.
  ghost predicate SameDirection(a: real, b: real) {
    exists k: int :: a == Turned(b, k)
  }

  // Whole turns in an angle, rounded down.
  function Turns(a: real): int {
    (a / 360.0).Floor
  }

  // math.Mod(a, 360) for a non-negative angle.
  function Mod360(a: real): (m: real)
    requires a >= 0.0
    ensures 0.0 <= m < 360.0
  {
    a - 360.0 * (Turns(a) as real)
  }

  // The representative of an angle in (0, 360].
  function Normalized(a: real): (v: real)
    ensures 0.0 < v <= 360.0
  {
    var m := a - 360.0 * (Turns(a) as real);
    if m == 0.0 then 360.0 else m
  }

  // Normalized is the only member of (0, 360] in the direction of `a`.
  lemma NormalizedIsTheRepresentative(a: real, v: real)
    ensures v == Normalized(a) <==> 0.0 < v <= 360.0 && SameDirection(v, a)
  {
    var n := Normalized(a);
    assert SameDirection(n, a) by {
      var k := if a == 360.0 * (Turns(a) as real) then 1 - Turns(a) else -Turns(a);
      assert n == Turned(a, k);
    }
    if 0.0 < v <= 360.0 && SameDirection(v, a) {
      var j: int :| v == Turned(a, j);
      var k: int :| n == Turned(a, k);
      assert v - n == 360.0 * ((j - k) as real);
      assert -1 < j - k < 1;
    }
  }

  lemma SameDirectionNormalizesAlike(a: real, b: real)
    requires SameDirection(a, b)
    ensures Normalized(a) == Normalized(b)
  {
    NormalizedIsTheRepresentative(b, Normalized(b));
    var k: int :| Normalized(b) == Turned(b, k);
    var j: int :| a == Turned(b, j);
    assert Normalized(b) == Turned(a, k - j);
    NormalizedIsTheRepresentative(a, Normalized(b));
  }

  method Normalize(a: real) returns (r: real)
    ensures r == Normalized(a)
  {
    var theta := a;
    ghost var k: int := 0;
    while theta < 0.0
      invariant theta == Turned(a, k)
      invariant theta < 360.0 || theta == a
      decreases -theta
    {
      theta := theta + 360.0;
      k := k + 1;
    }
    assert SameDirection(theta, a);
    SameDirectionNormalizesAlike(theta, a);
    theta := Mod360(theta);
    if theta == 0.0 {
      theta := 360.0;
    }
    r := theta;
  }

  // A bearing relative to magnetic north. Values are immutable; the field
  // holds what NewMagneticBearing stored.
  datatype Magnetic = Magnetic(theta: real) {
    function Value(): (v: real)
      ensures 0.0 < v <= 360.0
    {
      Normalized(theta)
    }

    function RoundedDegrees(): (d: int)
      ensures 0 <= d <= 360
    {
      Round(Value())
    }

    function Reciprocal(): Magnetic {
      NewMagneticBearing(Value() + 180.0)
    }
  }

  function NewMagneticBearing(value: real): Magnetic {
    Magnetic(Normalized(value))
  }

  // Degrees are rounded to the nearest whole number.
  lemma RoundedIsNearest(b: Magnetic)
    ensures -0.5 < b.RoundedDegrees() as real - b.Value() <= 0.5
  {
  }

  // The smaller of the two arcs between two bearings.
  function AngularDistance(a: Magnetic, b: Magnetic): (d: real)
    ensures 0.0 <= d <= 180.0
  {
    var diff := Abs(a.Value() - b.Value());
    if diff > 180.0 then 360.0 - diff else diff
  }

  // Normalising twice changes nothing, so a stored bearing reads back as built.
  lemma ValueOfNew(value: real)
    ensures NewMagneticBearing(value).Value() == Normalized(value)
    ensures Normalized(Normalized(value)) == Normalized(value)
  {
    NormalizedIsTheRepresentative(value, Normalized(value));
    SameDirectionNormalizesAlike(Normalized(value), value);
  }

  lemma ReciprocalDirection(b: Magnetic)
    ensures SameDirection(b.Reciprocal().Value(), b.theta + 180.0)
    ensures b.Reciprocal().Reciprocal().Value() == b.Value()
  {
    var n := b.Value();
    NormalizedIsTheRepresentative(b.theta, n);
    var k: int :| n == Turned(b.theta, k);
    ValueOfNew(n + 180.0);
    var r := b.Reciprocal().Value();
    NormalizedIsTheRepresentative(n + 180.0, r);
    var j: int :| r == Turned(n + 180.0, j);
    assert r == Turned(b.theta + 180.0, k + j);
    ValueOfNew(r + 180.0);
    assert n == Turned(r + 180.0, -j - 1);
    NormalizedIsTheRepresentative(r + 180.0, n);
  }

  // AngularDistance is the least absolute difference over all representatives
  // of the two directions: nothing in the same directions is closer.
  lemma AngularDistanceIsLeast(a: Magnetic, b: Magnetic, x: real, y: real)
    requires SameDirection(x, a.theta) && SameDirection(y, b.theta)
    ensures AngularDistance(a, b) <= Abs(x - y)
    ensures exists z :: SameDirection(z, b.theta) && AngularDistance(a, b) == Abs(a.Value() - z)
  {
    var u, v := a.Value(), b.Value();
    NormalizedIsTheRepresentative(a.theta, u);
    NormalizedIsTheRepresentative(b.theta, v);
    var ku: int :| u == Turned(a.theta, ku);
    var kv: int :| v == Turned(b.theta, kv);
    var kx: int :| x == Turned(a.theta, kx);
    var ky: int :| y == Turned(b.theta, ky);
    var m := kx - ky - ku + kv;
    assert x - y == u - v + 360.0 * (m as real);
    if m >= 1 {
      assert x - y >= u - v + 360.0;
    } else if m <= -1 {
      assert x - y <= u - v - 360.0;
    }
    var z := if u - v > 180.0 then v + 360.0 else if u - v < -180.0 then v - 360.0 else v;
    var kz := if u - v > 180.0 then kv + 1 else if u - v < -180.0 then kv - 1 else kv;
    assert z == Turned(b.theta, kz);
    assert SameDirection(z, b.theta);
  }
}
