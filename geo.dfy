/** Coordinates and the radius test of the dispatch hub. The haversine
    arithmetic itself (floating-point trigonometry) is not modelled: every
    operation that needs a distance receives it as a parameter. */
module Geo {

  /** A GeoJSON-style position. The wire format is the array [lon, lat]. */
  datatype Coord = Coord(lon: real, lat: real)

  /** The signature of calculateDistance: (lat1, lon1, lat2, lon2) -> km.
      Note the argument order: latitude first, unlike the wire format. */
  type DistanceFn = (real, real, real, real) -> real

  /** The fixed match radius, in kilometres. */
  const RadiusKm: real := 1000.0

  /** isWithinRadius: unpacks both positions as [lon, lat], hands them to the
      distance function latitude first, and compares with `<=`. */
  predicate IsWithinRadius(coord1: Coord, coord2: Coord, radius: real, dist: DistanceFn)
  {
    var Coord(lon1, lat1) := coord1;
    var Coord(lon2, lat2) := coord2;
    var distance := dist(lat1, lon1, lat2, lon2);
    distance <= radius
  }

  /** The boundary belongs to the disc: a point exactly `radius` away is
      inside, any point farther away is outside. */
  lemma RadiusBoundary(coord1: Coord, coord2: Coord, radius: real, dist: DistanceFn)
    ensures dist(coord1.lat, coord1.lon, coord2.lat, coord2.lon) == radius ==>
              IsWithinRadius(coord1, coord2, radius, dist)
    ensures dist(coord1.lat, coord1.lon, coord2.lat, coord2.lon) > radius ==>
              !IsWithinRadius(coord1, coord2, radius, dist)
  {
  }
}
