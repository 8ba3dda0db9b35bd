/**
 * `ip_to_lon_lat` of the `map_ssh_attacks` revision: a coordinate looked up
 * in the module-level pair of city databases, one per IP version. Unlike
 * `coord_by_addr` it has no miss handling: a missing record is None, and
 * subscripting None raises TypeError.
 */
module Attacks {
  import opened Wrappers
  import opened Exceptions
  import opened Address
  import opened Geo

  /**
   * `GEOIP_DBS[ip_address.version].record_by_addr(str(ip_address))`, then the
   * record's longitude and latitude, in that order.
   */
  function IpToLonLat(dbs: map<nat, GeoDb>, addr: Addr): (r: Result<Coordinate, Exception>)
    requires IsLoaded(dbs) && addr.Valid()
    ensures r.Ok? <==> addr in dbs[addr.Version()]
    ensures r.Ok? ==> r.value == Coordinate(dbs[addr.Version()][addr].longitude, dbs[addr.Version()][addr].latitude)
    ensures r.Err? ==> r.error == TypeError
  {
    LiteralRoundTrip(addr);
    match RecordByText(dbs[addr.Version()], Literal(addr))
    case None => Err(TypeError)
    case Some(record) => Ok(Coordinate(record.longitude, record.latitude))
  }

  /**
   * The older function and the cache class's `coord_by_addr` lookup agree on
   * every address found; on a miss they fail differently, TypeError here and
   * GeoIPError there.
   */
  lemma IpToLonLatAgrees(dbs: map<nat, GeoDb>, addr: Addr)
    requires IsLoaded(dbs) && addr.Valid()
    ensures var direct := IpToLonLat(dbs, addr);
      var cached := CoordOf(dbs[addr.Version()], addr);
      (direct.Ok? <==> cached.Ok?) &&
      (direct.Ok? ==> direct == cached) &&
      (direct.Err? ==> direct.error == TypeError && cached.error == GeoIPError)
  {
  }

  /** An IPv4 address is looked up in the version 4 database and an IPv6 address in the version 6 one. */
  lemma IpToLonLatDispatch(d1: map<nat, GeoDb>, d2: map<nat, GeoDb>, addr: Addr)
    requires IsLoaded(d1) && IsLoaded(d2) && addr.Valid()
    requires addr.IPv4? ==> d1[4] == d2[4]
    requires addr.IPv6? ==> d1[6] == d2[6]
    ensures IpToLonLat(d1, addr) == IpToLonLat(d2, addr)
  {
  }
}
