/**
 Altitudes rounded the way controllers speak them, and altitude STACKS: layers
 of aircraft, each reported at its highest altitude. Lengths are exact feet.
 */
module Altitudes {
  import opened Reals
  import opened Sorting

  // ---- Rounding -----------------------------------------------------------

  function NormalizeAltitude(altitude: real): (rounded: real)
    ensures rounded >= 0.0
  {
    var height := Abs(altitude);
    var bucketWidth := if height < 1000.0 then 100 else 1000;
    var bucket := Round(height / (bucketWidth as real));
    (bucketWidth * bucket) as real
  }

  // Speakable altitudes: whole hundreds up to 1000 ft, whole thousands above.
  function Hundreds(n: nat): real {
    (100 * n) as real
  }

  ghost predicate Speakable(x: real) {
    exists n: nat :: x == Hundreds(n) && (n <= 10 || n % 10 == 0)
  }

  lemma NormalizeIsSpeakable(altitude: real)
    ensures Speakable(NormalizeAltitude(altitude))
  {
    var height := Abs(altitude);
    if height < 1000.0 {
      assert NormalizeAltitude(altitude) == Hundreds(Round(height / 100.0));
    } else {
      assert NormalizeAltitude(altitude) == Hundreds(10 * Round(height / 1000.0));
    }
  }

  // Rounding to a bucket moves a height by at most half the bucket, and not
  // at all from a whole number of buckets.
  lemma RoundToBucket(height: real, bucketWidth: int)
    requires height >= 0.0 && bucketWidth in {100, 1000}
    ensures Abs((bucketWidth * Round(height / (bucketWidth as real))) as real - height) <= (bucketWidth as real) / 2.0
    ensures forall n: nat :: height == (bucketWidth * n) as real ==> Round(height / (bucketWidth as real)) == n
  {
    if bucketWidth == 100 {
      assert height / (bucketWidth as real) == height / 100.0;
      forall n: nat | height == (bucketWidth * n) as real ensures Round(height / 100.0) == n {
        assert height / 100.0 == n as real;
      }
    } else {
      assert height / (bucketWidth as real) == height / 1000.0;
      forall n: nat | height == (bucketWidth * n) as real ensures Round(height / 1000.0) == n {
        assert height / 1000.0 == n as real;
      }
    }
  }

  lemma NormalizeIsNear(altitude: real)
    ensures Abs(NormalizeAltitude(altitude) - Abs(altitude)) <= if Abs(altitude) < 1000.0 then 50.0 else 500.0
  {
    RoundToBucket(Abs(altitude), if Abs(altitude) < 1000.0 then 100 else 1000);
  }

  // Speakable altitudes are exactly the fixed points of rounding.
  lemma NormalizeFixesSpeakable(altitude: real)
    ensures NormalizeAltitude(altitude) == altitude <==> Speakable(altitude)
  {
    NormalizeIsSpeakable(altitude);
    if Speakable(altitude) {
      var n: nat :| altitude == Hundreds(n) && (n <= 10 || n % 10 == 0);
      if n < 10 {
        RoundToBucket(altitude, 100);
        assert altitude == (100 * n) as real;
      } else {
        RoundToBucket(altitude, 1000);
        assert altitude == (1000 * (n / 10)) as real;
      }
    }
  }

  lemma NormalizeIsIdempotent(altitude: real)
    ensures NormalizeAltitude(NormalizeAltitude(altitude)) == NormalizeAltitude(altitude)
  {
    NormalizeIsSpeakable(altitude);
    NormalizeFixesSpeakable(NormalizeAltitude(altitude));
  }

  function Normalizations(a: seq<real>): (s: seq<real>)
    ensures |s| == |a|
    ensures forall i :: 0 <= i < |a| ==> s[i] == NormalizeAltitude(a[i])
  {
    seq(|a|, i requires 0 <= i < |a| => NormalizeAltitude(a[i]))
  }

  // The library sort, known by its result.
  method SortAscending(a: array<real>)
    modifies a
    ensures a[..] == Sorted(old(a[..]), BY_REAL)
  {
    var sorted := Sorted(a[..], BY_REAL);
    forall i | 0 <= i < a.Length {
      a[i] := sorted[i];
    }
  }
}
