/**
 Target aspect: how the track of a target relates to the bearing it is seen on.
 ATP 3-52.4 Chapter IV section 6, Figure 1.
 */
module AspectAngles {
  import opened Reals
  import opened Bearings

  datatype Aspect = UnknownAspect | Hot | Flank | Beam | Drag

  function Classify(theta: real): Aspect {
    if 0.0 <= theta <= 35.0 then Hot
    else if 35.0 < theta <= 75.0 then Flank
    else if 75.0 < theta <= 115.0 then Beam
    else if 115.0 < theta <= 245.0 then Drag
    else if 245.0 < theta <= 285.0 then Beam
    else if 285.0 < theta <= 325.0 then Flank
    else if 325.0 < theta <= 360.0 then Hot
    else UnknownAspect
  }

  // The angle that is classified, by the branch the two values select.
  function AspectAngle(bearing: Magnetic, track: Magnetic): (theta: real)
    ensures 0.0 < theta <= 360.0
  {
    var theta :=
      if bearing.Reciprocal().Value() > track.Value()
      then bearing.Reciprocal().Value() - track.Value()
      else track.Reciprocal().Value() - bearing.Value();
    NewMagneticBearing(theta).Value()
  }

  function AspectFromAngle(bearing: Magnetic, track: Magnetic): Aspect {
    Classify(AspectAngle(bearing, track))
  }

  // The reference definition: bands of the circular distance.
  function Band(distance: real): Aspect {
    if distance <= 35.0 then Hot
    else if distance <= 75.0 then Flank
    else if distance <= 115.0 then Beam
    else Drag
  }

  // Unsigned difference of the target's reciprocal bearing and its track.
  function Divergence(bearing: Magnetic, track: Magnetic): real {
    Abs(bearing.Reciprocal().Value() - track.Value())
  }

  // Both branches compute the same quantity: the divergence, with 0 read as 360.
  lemma BranchesAgree(bearing: Magnetic, track: Magnetic)
    ensures AspectAngle(bearing, track)
         == if Divergence(bearing, track) == 0.0 then 360.0 else Divergence(bearing, track)
  {
    var recip, t := bearing.Reciprocal().Value(), track.Value();
    var d := Divergence(bearing, track);
    if recip > t {
      ValueOfNew(d);
      assert d == Turned(d, 0);
      NormalizedIsTheRepresentative(d, d);
    } else {
      var theta := track.Reciprocal().Value() - bearing.Value();
      var k := ReciprocalTurns(bearing);
      var j := ReciprocalTurns(track);
      var v := if d == 0.0 then 360.0 else d;
      assert v == Turned(theta, if d == 0.0 then -j - k else -j - k - 1);
      ValueOfNew(theta);
      NormalizedIsTheRepresentative(theta, v);
    }
  }

  lemma ReciprocalTurns(b: Magnetic) returns (k: int)
    ensures b.Reciprocal().Value() == Turned(b.Value() + 180.0, k)
  {
    ValueOfNew(b.Value() + 180.0);
    NormalizedIsTheRepresentative(b.Value() + 180.0, b.Reciprocal().Value());
    k :| b.Reciprocal().Value() == Turned(b.Value() + 180.0, k);
  }

  lemma AspectIsAlwaysKnown(bearing: Magnetic, track: Magnetic)
    ensures AspectFromAngle(bearing, track) != UnknownAspect
  {
    var theta := AspectAngle(bearing, track);
  }

  // On the wrapped side the band edges belong to the wider band, so the
  // classifier is the banded circular distance except at three divergences.
  lemma AspectIsBandedDistance(bearing: Magnetic, track: Magnetic)
    ensures AspectFromAngle(bearing, track) == Band(AngularDistance(bearing.Reciprocal(), track))
       <==> Divergence(bearing, track) !in {245.0, 285.0, 325.0}
  {
    BranchesAgree(bearing, track);
  }

  // A rigid motion of the compass: an optional mirroring, then a rotation.
  function Moved(x: real, mirror: bool, r: real): real {
    (if mirror then -x else x) + r
  }

  function MoveBearing(b: Magnetic, mirror: bool, r: real): Magnetic {
    NewMagneticBearing(Moved(b.theta, mirror, r))
  }

  lemma MovedDirection(x: real, y: real, mirror: bool, r: real)
    requires SameDirection(x, y)
    ensures SameDirection(Moved(x, mirror, r), Moved(y, mirror, r))
  {
    var k: int :| x == Turned(y, k);
    assert Moved(x, mirror, r) == Turned(Moved(y, mirror, r), if mirror then -k else k);
  }

  lemma SameDirectionTransitive(x: real, y: real, z: real)
    requires SameDirection(x, y) && SameDirection(y, z)
    ensures SameDirection(x, z) && SameDirection(y, x)
  {
    var k: int :| x == Turned(y, k);
    var j: int :| y == Turned(z, j);
    assert x == Turned(z, k + j);
    assert y == Turned(x, -k);
  }

  lemma MoveDoesNotSpread(a: Magnetic, b: Magnetic, a': Magnetic, b': Magnetic, mirror: bool, r: real)
    requires SameDirection(a'.theta, Moved(a.theta, mirror, r))
    requires SameDirection(b'.theta, Moved(b.theta, mirror, r))
    ensures AngularDistance(a', b') <= AngularDistance(a, b)
  {
    var u := a.Value();
    NormalizedIsTheRepresentative(a.theta, u);
    AngularDistanceIsLeast(a, b, u, b.Value()) by { NormalizedIsTheRepresentative(b.theta, b.Value()); }
    var z :| SameDirection(z, b.theta) && AngularDistance(a, b) == Abs(u - z);
    MovedDirection(u, a.theta, mirror, r);
    MovedDirection(z, b.theta, mirror, r);
    Backwards(a'.theta, Moved(a.theta, mirror, r));
    Backwards(b'.theta, Moved(b.theta, mirror, r));
    SameDirectionTransitive(Moved(u, mirror, r), Moved(a.theta, mirror, r), a'.theta);
    SameDirectionTransitive(Moved(z, mirror, r), Moved(b.theta, mirror, r), b'.theta);
    AngularDistanceIsLeast(a', b', Moved(u, mirror, r), Moved(z, mirror, r));
  }

  lemma Backwards(x: real, y: real)
    requires SameDirection(x, y)
    ensures SameDirection(y, x)
  {
    assert y == Turned(y, 0);
    SameDirectionTransitive(x, y, y);
  }

  lemma MoveKeepsDistance(a: Magnetic, b: Magnetic, a': Magnetic, b': Magnetic, mirror: bool, r: real)
    requires SameDirection(a'.theta, Moved(a.theta, mirror, r))
    requires SameDirection(b'.theta, Moved(b.theta, mirror, r))
    ensures AngularDistance(a', b') == AngularDistance(a, b)
  {
    var back := if mirror then r else -r;
    MoveDoesNotSpread(a, b, a', b', mirror, r);
    MovedDirection(a'.theta, Moved(a.theta, mirror, r), mirror, back);
    MovedDirection(b'.theta, Moved(b.theta, mirror, r), mirror, back);
    Backwards(Moved(a'.theta, mirror, back), a.theta);
    Backwards(Moved(b'.theta, mirror, back), b.theta);
    MoveDoesNotSpread(a', b', a, b, mirror, back);
  }

  // The reciprocal of a moved bearing points where the moved reciprocal points.
  lemma ReciprocalMoves(b: Magnetic, mirror: bool, r: real)
    ensures SameDirection(MoveBearing(b, mirror, r).theta, Moved(b.theta, mirror, r))
    ensures SameDirection(MoveBearing(b, mirror, r).Reciprocal().theta, Moved(b.Reciprocal().theta, mirror, r))
  {
    var b' := MoveBearing(b, mirror, r);
    NormalizedIsTheRepresentative(Moved(b.theta, mirror, r), b'.theta);
    var k: int :| b'.theta == Turned(Moved(b.theta, mirror, r), k);
    var i := ThetaOfReciprocal(b);
    var j := ThetaOfReciprocal(b');
    assert b'.Reciprocal().theta
        == Turned(Moved(b.Reciprocal().theta, mirror, r), if mirror then k + j + i + 1 else k + j - i);
  }

  lemma ThetaOfReciprocal(b: Magnetic) returns (k: int)
    ensures b.Reciprocal().theta == Turned(b.theta + 180.0, k)
  {
    ReciprocalDirection(b);
    ValueOfNew(b.Value() + 180.0);
    k :| b.Reciprocal().Value() == Turned(b.theta + 180.0, k);
  }

  ghost predicate Invariant(bearing: Magnetic, track: Magnetic) {
    forall mirror, r {:trigger MoveBearing(bearing, mirror, r)} ::
      AspectFromAngle(MoveBearing(bearing, mirror, r), MoveBearing(track, mirror, r)) == AspectFromAngle(bearing, track)
  }

  lemma MovedDistance(bearing: Magnetic, track: Magnetic, mirror: bool, r: real)
    ensures AngularDistance(MoveBearing(bearing, mirror, r).Reciprocal(), MoveBearing(track, mirror, r))
         == AngularDistance(bearing.Reciprocal(), track)
  {
    ReciprocalMoves(bearing, mirror, r);
    ReciprocalMoves(track, mirror, r);
    MoveKeepsDistance(bearing.Reciprocal(), track, MoveBearing(bearing, mirror, r).Reciprocal(),
                      MoveBearing(track, mirror, r), mirror, r);
  }

  // Rotating or mirroring the whole picture keeps the aspect, exactly when the
  // target does not sit on a band edge.
  lemma AspectIsInvariantOffTheEdges(bearing: Magnetic, track: Magnetic)
    ensures Invariant(bearing, track)
       <==> AngularDistance(bearing.Reciprocal(), track) !in {35.0, 75.0, 115.0}
  {
    var d := AngularDistance(bearing.Reciprocal(), track);
    if d !in {35.0, 75.0, 115.0} {
      AspectIsBandedDistance(bearing, track);
      forall mirror, r
        ensures AspectFromAngle(MoveBearing(bearing, mirror, r), MoveBearing(track, mirror, r))
             == AspectFromAngle(bearing, track)
      {
        MovedDistance(bearing, track, mirror, r);
        AspectIsBandedDistance(MoveBearing(bearing, mirror, r), MoveBearing(track, mirror, r));
      }
    } else {
      var r, s := EdgeRotations(bearing, track);
      AspectIsBandedDistance(MoveBearing(bearing, false, r), MoveBearing(track, false, r));
      AspectIsBandedDistance(MoveBearing(bearing, false, s), MoveBearing(track, false, s));
      MovedDistance(bearing, track, false, r);
      MovedDistance(bearing, track, false, s);
      assert AspectFromAngle(MoveBearing(bearing, false, r), MoveBearing(track, false, r))
          != AspectFromAngle(MoveBearing(bearing, false, s), MoveBearing(track, false, s));
    }
  }

  // From any edge geometry one rotation shows the plain divergence and another
  // the wrapped one.
  lemma EdgeRotations(bearing: Magnetic, track: Magnetic) returns (r: real, s: real)
    requires AngularDistance(bearing.Reciprocal(), track) in {35.0, 75.0, 115.0}
    ensures Divergence(MoveBearing(bearing, false, r), MoveBearing(track, false, r))
         == AngularDistance(bearing.Reciprocal(), track)
    ensures Divergence(MoveBearing(bearing, false, s), MoveBearing(track, false, s))
         == 360.0 - AngularDistance(bearing.Reciprocal(), track)
  {
    var a := bearing.Reciprocal();
    var d := AngularDistance(a, track);
    NormalizedIsTheRepresentative(a.theta, a.Value());
    NormalizedIsTheRepresentative(track.theta, track.Value());
    AngularDistanceIsLeast(a, track, a.Value(), track.Value());
    var z :| SameDirection(z, track.theta) && d == Abs(a.Value() - z);
    var low := if a.Value() < z then a.Value() else z;
    r, s := 1.0 - low, 360.0 - d / 2.0 - low;
    Placed(bearing, track, a.Value(), z, r, a.Value() + r, z + r);
    var u, v := a.Value() + s, z + s;
    var u' := if u > 360.0 then u - 360.0 else u;
    var v' := if v > 360.0 then v - 360.0 else v;
    assert u' == Turned(u, if u > 360.0 then -1 else 0);
    assert v' == Turned(v, if v > 360.0 then -1 else 0);
    Placed(bearing, track, a.Value(), z, s, u', v');
  }

  lemma Placed(bearing: Magnetic, track: Magnetic, x: real, z: real, r: real, u: real, v: real)
    requires SameDirection(x, bearing.Reciprocal().theta) && SameDirection(z, track.theta)
    requires 0.0 < u <= 360.0 && 0.0 < v <= 360.0
    requires u == x + r || SameDirection(u, x + r)
    requires v == z + r || SameDirection(v, z + r)
    ensures MoveBearing(bearing, false, r).Reciprocal().Value() == u
    ensures MoveBearing(track, false, r).Value() == v
  {
    assert x + r == Turned(x + r, 0);
    assert z + r == Turned(z + r, 0);
    var a := bearing.Reciprocal();
    ReciprocalMoves(bearing, false, r);
    ReciprocalMoves(track, false, r);
    MovedDirection(x, a.theta, false, r);
    MovedDirection(z, track.theta, false, r);
    var a', t' := MoveBearing(bearing, false, r).Reciprocal(), MoveBearing(track, false, r);
    Backwards(a'.theta, Moved(a.theta, false, r));
    Backwards(t'.theta, Moved(track.theta, false, r));
    SameDirectionTransitive(x + r, Moved(a.theta, false, r), a'.theta);
    SameDirectionTransitive(z + r, Moved(track.theta, false, r), t'.theta);
    SameDirectionTransitive(u, x + r, a'.theta);
    SameDirectionTransitive(v, z + r, t'.theta);
    NormalizedIsTheRepresentative(a'.theta, u);
    NormalizedIsTheRepresentative(t'.theta, v);
  }
}
