/** The process-wide state of the hub and the handlers that touch it: the
    `drivers` Map keyed by socket id, kept here as a map plus the Map's
    insertion order. */
module SocketServer {
  import opened Geo
  import opened Records
  import opened Registry
  import opened Dispatch

  class Server {
    /** The records of the `drivers` Map. */
    var drivers: map<string, Driver>
    /** The keys of the `drivers` Map in iteration (insertion) order. */
    var order: seq<string>

    /** The order lists each key of the map once, and each record is stamped
        with the socket id it is filed under. */
    ghost predicate Valid()
      reads this
    {
      && Distinct(order)
      && (forall k :: k in order <==> k in drivers)
      && (forall k | k in drivers :: drivers[k].socketId == k)
    }

    /** The records as `drivers.forEach` visits them. */
    ghost function Snapshot(): seq<Driver>
      reads this
      requires Valid()
    {
      InOrder(drivers, order)
    }

    constructor ()
      ensures Valid()
      ensures drivers == map[] && order == []
    {
      drivers := map[];
      order := [];
    }

    /** The "driver-info" handler of socket `socketId`: the whole record is
        replaced by the payload stamped with the socket id; a new key goes
        last in iteration order, a present key keeps its place. */
    method OnDriverInfo(socketId: string, data: Payload)
      requires Valid()
      modifies this
      ensures Valid()
      ensures drivers == old(drivers)[socketId := Stamp(data, socketId)]
      ensures socketId in drivers
      ensures drivers[socketId].socketId == socketId && drivers[socketId].fields == data.fields
      ensures order == Upserted(old(order), socketId)
    {
      drivers := drivers[socketId := Stamp(data, socketId)];
      if socketId !in order {
        order := order + [socketId];
      }
    }

    /** The "disconnect" handler of socket `socketId`: removes its record,
        if any, and nothing else. */
    method OnDisconnect(socketId: string)
      requires Valid()
      modifies this
      ensures Valid()
      ensures drivers == old(drivers) - {socketId}
      ensures order == Without(old(order), socketId)
      ensures socketId !in old(drivers) ==> drivers == old(drivers) && order == old(order)
    {
      WithoutDistinct(order, socketId);
      if socketId !in order {
        WithoutAbsent(order, socketId);
      }
      drivers := drivers - {socketId};
      order := Without(order, socketId);
    }

    /** emitToRelevantDrivers: walks the registry in iteration order and
        emits "new-booking" to every driver that passes the three checks,
        stopping at the first candidate whose coordinates cannot be read.
        The registry is only read. */
    method EmitToRelevantDrivers(booking: Booking, dist: DistanceFn) returns (r: Outcome)
      requires Valid()
      ensures r == Scan(Snapshot(), booking, dist)
    {
      ghost var snap := Snapshot();
      var emits: seq<Emit> := [];
      var i := 0;
      while i < |order|
        invariant 0 <= i <= |order|
        invariant Scan(snap, booking, dist) == Resume(emits, Scan(snap[i..], booking, dist))
      {
        var driver := drivers[order[i]];
        ScanStep(snap, i, booking, dist);
        if driver.fields.status == Some(Available) && driver.fields.vehicleType == booking.vehicleType {
          if booking.pickup.None? || driver.fields.location.None? {
            ResumeNone(emits);
            r := Threw(emits);
            return;
          }
          if IsWithinRadius(booking.pickup.value, driver.fields.location.value, RadiusKm, dist) {
            var e := Emit(driver.socketId, NewBooking, booking);
            ResumeAppend(emits, e, Scan(snap[i + 1..], booking, dist));
            emits := emits + [e];
          }
        }
        i := i + 1;
      }
      ResumeNone(emits);
      r := Completed(emits);
    }

    /** The POST /emit handler: dispatches only for the event "new-booking". */
    method PostEmit(event: Option<string>, data: Option<Booking>, dist: DistanceFn) returns (resp: Response)
      requires Valid()
      ensures resp == EmitEndpoint(event, data, Snapshot(), dist)
    {
      if event == Some(NewBooking) {
        if data.None? {
          resp := Failed([]);
          return;
        }
        var outcome := EmitToRelevantDrivers(data.value, dist);
        if outcome.Threw? {
          resp := Failed(outcome.emits);
          return;
        }
        resp := Replied(200, "Event emitted", outcome.emits);
      } else {
        resp := Replied(200, "Event emitted", []);
      }
    }

    /** The registry's records carry distinct socket ids, each equal to the
        key the record is filed under. */
    lemma SnapshotIds()
      requires Valid()
      ensures DistinctIds(Snapshot())
      ensures forall i | 0 <= i < |order| :: Snapshot()[i].socketId == order[i]
    {
    }

    /** When dispatch runs to the end, every registered socket whose driver
        is eligible receives exactly one "new-booking", every other
        registered socket none, and no unregistered socket any. */
    lemma DispatchReachesEachEligibleOnce(b: Booking, dist: DistanceFn)
      requires Valid()
      requires Scan(Snapshot(), b, dist).Completed?
      ensures forall k | k in drivers ::
                CountTo(Scan(Snapshot(), b, dist).emits, k) == if Eligible(drivers[k], b, dist) then 1 else 0
      ensures forall k | k !in drivers :: CountTo(Scan(Snapshot(), b, dist).emits, k) == 0
    {
      var snap := Snapshot();
      var es := Scan(snap, b, dist).emits;
      SnapshotIds();
      EachEligibleNotifiedOnce(snap, b, dist);
      ScanSound(snap, b, dist);
      forall k | k in drivers
        ensures CountTo(es, k) == if Eligible(drivers[k], b, dist) then 1 else 0
      {
        assert k in order;
        var i :| 0 <= i < |order| && order[i] == k;
        assert snap[i] == drivers[k];
      }
      forall k | k !in drivers
        ensures CountTo(es, k) == 0
      {
        forall e | e in es
          ensures e.target != k
        {
          var d :| d in snap && d.socketId == e.target && Eligible(d, b, dist);
          var j :| 0 <= j < |snap| && snap[j] == d;
          assert order[j] in drivers;
        }
        CountToAbsent(es, k);
      }
    }
  }
}
