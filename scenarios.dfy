/** Concrete runs of the hub: two sedans, one next to the pickup and one
    thousands of kilometres away. */
module Scenarios {
  import opened Geo
  import opened Records
  import opened Dispatch
  import opened SocketServer
  import Registry

  function Sedan(lon: real, lat: real): Presence
  {
    Presence(None, Some(Coord(lon, lat)), Some("sedan"), Some(Available), map[])
  }

  function PickupAtOrigin(vehicleType: string): Booking
  {
    Booking(Some(Coord(0.0, 0.0)), Some(vehicleType), map[])
  }

  /** A sedan at the pickup is matched, a sedan far away is not. */
  lemma NearSedanOnly(dist: DistanceFn)
    requires dist(0.0, 0.0, 0.0, 0.0) == 0.0
    requires dist(0.0, 0.0, 50.0, 50.0) > RadiusKm
    ensures Scan([Driver(Sedan(0.0, 0.0), "d1"), Driver(Sedan(50.0, 50.0), "d2")], PickupAtOrigin("sedan"), dist)
            == Completed([Emit("d1", NewBooking, PickupAtOrigin("sedan"))])
  {
  }

  /** A booking for another vehicle type reaches no sedan, even one at the
      pickup point. */
  lemma NoSuvAmongSedans(dist: DistanceFn)
    ensures Scan([Driver(Sedan(0.0, 0.0), "d1"), Driver(Sedan(50.0, 50.0), "d2")], PickupAtOrigin("suv"), dist)
            == Completed([])
  {
  }

  /** An unavailable driver without a location is skipped before its
      location is read, so the scan goes on to the next driver. */
  lemma UnavailableWithoutLocationIsSkipped(dist: DistanceFn)
    requires dist(0.0, 0.0, 0.0, 0.0) == 0.0
    ensures Scan([Driver(Presence(None, None, Some("sedan"), Some("busy"), map[]), "d0"),
                  Driver(Sedan(0.0, 0.0), "d1")], PickupAtOrigin("sedan"), dist)
            == Completed([Emit("d1", NewBooking, PickupAtOrigin("sedan"))])
  {
  }

  /** An available sedan without a location aborts the scan: the sedan
      after it is never reached. */
  lemma AvailableWithoutLocationAborts(dist: DistanceFn)
    ensures Scan([Driver(Presence(None, None, Some("sedan"), Some(Available), map[]), "d0"),
                  Driver(Sedan(0.0, 0.0), "d1")], PickupAtOrigin("sedan"), dist)
            == Threw([])
  {
  }

  /** The booking posted when only the far sedan is registered. */
  lemma FarSedanAloneGetsNothing(dist: DistanceFn)
    requires dist(0.0, 0.0, 50.0, 50.0) > RadiusKm
    ensures EmitEndpoint(Some(NewBooking), Some(PickupAtOrigin("sedan")),
                         [Driver(Sedan(50.0, 50.0), "d2")], dist)
            == Replied(200, "Event emitted", [])
  {
    assert Scan([Driver(Sedan(50.0, 50.0), "d2")], PickupAtOrigin("sedan"), dist) == Completed([]);
  }

  lemma OnlyKeySnapshot(m: map<string, Driver>, keys: seq<string>, d: Driver)
    requires keys == [d.socketId] && d.socketId in m && m[d.socketId] == d
    ensures Registry.InOrder(m, keys) == [d]
  {
    var r := Registry.InOrder(m, keys);
    assert |r| == 1 && r[0] == d;
  }

  /** Both sedans connect, then the near one disconnects. The payload's
      own socketId ("spoofed") is overwritten by the socket's id. */
  method ConnectBothDropNear() returns (hub: Server)
    ensures fresh(hub) && hub.Valid()
    ensures hub.order == ["d2"]
    ensures "d2" in hub.drivers && hub.drivers["d2"] == Driver(Sedan(50.0, 50.0), "d2")
  {
    hub := new Server();
    hub.OnDriverInfo("d1", Payload(Sedan(0.0, 0.0), Some("spoofed")));
    hub.OnDriverInfo("d2", Payload(Sedan(50.0, 50.0), None));
    TwoKeysDropFirst("d1", "d2");
    hub.OnDisconnect("d1");
  }

  /** Setting two distinct keys into an empty Map and deleting the first
      leaves only the second. */
  lemma TwoKeysDropFirst(k1: string, k2: string)
    requires k1 != k2
    ensures Registry.Without(Registry.Upserted(Registry.Upserted([], k1), k2), k1) == [k2]
  {
    assert Registry.Upserted([], k1) == [k1];
    assert k2 !in [k1];
    assert Registry.Upserted([k1], k2) == [k1, k2];
    assert Registry.Distinct([k1, k2]);
    Registry.WithoutRemovesSlot([k1, k2], k1, 0);
    assert [k1, k2][1..] == [k2];
  }

  /** After the near sedan disconnects, the booking reaches nobody while
      the handler still answers 200. */
  method DisconnectedDriverMissesBooking(dist: DistanceFn) returns (resp: Response)
    requires dist(0.0, 0.0, 50.0, 50.0) > RadiusKm
    ensures resp == Replied(200, "Event emitted", [])
  {
    var hub := ConnectBothDropNear();
    OnlyKeySnapshot(hub.drivers, hub.order, Driver(Sedan(50.0, 50.0), "d2"));
    FarSedanAloneGetsNothing(dist);
    resp := hub.PostEmit(Some(NewBooking), Some(PickupAtOrigin("sedan")), dist);
  }
}
