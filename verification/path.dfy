/** An equipment's waypoints and the distance shown for them (`updateInfo`). */
module Path {

  /** A map coordinate as Leaflet reports it on a click. */
  datatype LatLng = LatLng(lat: real, lng: real)

  /** The map's distance function (`map.distance`), left uninterpreted. */
  type Metric = (LatLng, LatLng) -> real

  ghost predicate NonNegative(d: Metric)
  {
    forall a, b :: d(a, b) >= 0.0
  }

  /** Sum of the distances between consecutive waypoints, extended at the end. */
  function PathLength(ps: seq<LatLng>, d: Metric): real
    decreases |ps|
  {
    if |ps| < 2 then 0.0
    else PathLength(ps[..|ps| - 1], d) + d(ps[|ps| - 2], ps[|ps| - 1])
  }

  /** An independent reading of the same sum, taken from the front of the path. */
  function PathLengthFromStart(ps: seq<LatLng>, d: Metric): real
    decreases |ps|
  {
    if |ps| < 2 then 0.0
    else d(ps[0], ps[1]) + PathLengthFromStart(ps[1..], d)
  }

  /** The loop of `updateInfo`: for i = 1 .. n-1 add the distance from point i-1 to point i. */
  method TotalDistance(ps: seq<LatLng>, d: Metric) returns (dist: real)
    ensures dist == PathLength(ps, d)
    ensures |ps| < 2 ==> dist == 0.0
  {
    dist := 0.0;
    if |ps| == 0 {
      return;
    }
    var i := 1;
    while i < |ps|
      invariant 1 <= i <= |ps|
      invariant dist == PathLength(ps[..i], d)
    {
      assert ps[..i + 1][..i] == ps[..i];
      dist := dist + d(ps[i - 1], ps[i]);
      i := i + 1;
    }
    assert ps[..i] == ps;
  }

  /** Appending a waypoint grows the distance by exactly the last leg; a path of fewer than
      two waypoints has distance 0. */
  lemma PathLengthAppend(ps: seq<LatLng>, q: LatLng, d: Metric)
    ensures |ps| == 0 ==> PathLength(ps + [q], d) == 0.0
    ensures |ps| >= 1 ==> PathLength(ps + [q], d) == PathLength(ps, d) + d(ps[|ps| - 1], q)
  {
  }

  /** Summing from the front and summing from the back agree. */
  lemma {:induction false} PathLengthFromStartAgrees(ps: seq<LatLng>, d: Metric)
    ensures PathLengthFromStart(ps, d) == PathLength(ps, d)
    decreases |ps|
  {
    if |ps| >= 3 {
      var tail := ps[1..];
      PathLengthFromStartAgrees(tail, d);
      PathLengthFromStartAgrees(ps[..|ps| - 1], d);
      PathLengthFromStartAgrees(tail[..|tail| - 1], d);
      assert ps[..|ps| - 1][1..] == tail[..|tail| - 1];
      assert PathLengthFromStart(ps[..|ps| - 1], d)
          == d(ps[0], ps[1]) + PathLengthFromStart(tail[..|tail| - 1], d);
    } else if |ps| == 2 {
      assert ps[1..] == [ps[1]];
      assert ps[..1] == [ps[0]];
    }
  }

  /** The displayed distance is never negative. */
  lemma {:induction false} PathLengthNonNegative(ps: seq<LatLng>, d: Metric)
    requires NonNegative(d)
    ensures PathLength(ps, d) >= 0.0
    decreases |ps|
  {
    if |ps| >= 2 {
      PathLengthNonNegative(ps[..|ps| - 1], d);
    }
  }

  /** The distance of a prefix never exceeds the distance of the whole path. */
  lemma {:induction false} PathLengthPrefixMonotone(ps: seq<LatLng>, k: nat, d: Metric)
    requires NonNegative(d)
    requires k <= |ps|
    ensures PathLength(ps[..k], d) <= PathLength(ps, d)
    decreases |ps| - k
  {
    if k < |ps| {
      PathLengthPrefixMonotone(ps, k + 1, d);
      var longer := ps[..k + 1];
      assert longer[..k] == ps[..k];
      if k >= 1 {
        assert PathLength(longer, d) == PathLength(ps[..k], d) + d(ps[k - 1], ps[k]);
      }
    } else {
      assert ps[..k] == ps;
    }
  }
}
