/** emitToRelevantDrivers and the /emit event gate, as functions over a
    snapshot of the registry in iteration order. */
module Dispatch {
  import opened Geo
  import opened Records

  /** A driver that passes the first two checks: status is "available" and
      the vehicle type is strictly equal to the booking's (two missing
      types are equal, as `undefined === undefined` holds). */
  predicate Candidate(d: Driver, b: Booking)
  {
    d.fields.status == Some(Available) && d.fields.vehicleType == b.vehicleType
  }

  /** A candidate for which reading the coordinates throws: the booking has
      no pickup coordinates or the driver no location coordinates. */
  predicate Blocks(d: Driver, b: Booking)
  {
    Candidate(d, b) && (b.pickup.None? || d.fields.location.None?)
  }

  /** The reference definition of who should get the booking: all three
      checks hold, the radius test with the fixed 1000 km radius. */
  predicate Eligible(d: Driver, b: Booking, dist: DistanceFn)
  {
    && Candidate(d, b)
    && b.pickup.Some?
    && d.fields.location.Some?
    && IsWithinRadius(b.pickup.value, d.fields.location.value, RadiusKm, dist)
  }

  /** How a scan ends: it ran to the end of the registry, or an exception
      escaped after the emits already made. */
  datatype Outcome = Completed(emits: seq<Emit>) | Threw(emits: seq<Emit>)

  /** The outcome `o` preceded by the emits `es`. */
  function Resume(es: seq<Emit>, o: Outcome): Outcome
  {
    match o
    case Completed(rest) => Completed(es + rest)
    case Threw(rest) => Threw(es + rest)
  }

  /** The `forEach` of emitToRelevantDrivers over the drivers `ds`, with the
      checks evaluated in the source's short-circuit order: the location is
      read only after status and type pass, and a failed read abandons the
      rest of the scan. At most one emit per driver. */
  function Scan(ds: seq<Driver>, b: Booking, dist: DistanceFn): (r: Outcome)
    ensures |r.emits| <= |ds|
  {
    if ds == [] then Completed([])
    else
      var d := ds[0];
      var rest := Scan(ds[1..], b, dist);
      if d.fields.status != Some(Available) then rest
      else if d.fields.vehicleType != b.vehicleType then rest
      else if b.pickup.None? || d.fields.location.None? then Threw([])
      else if IsWithinRadius(b.pickup.value, d.fields.location.value, RadiusKm, dist) then
        Resume([Emit(d.socketId, NewBooking, b)], rest)
      else rest
  }

  /** One step of the scan, from position `i` of `ds`. */
  lemma ScanStep(ds: seq<Driver>, i: nat, b: Booking, dist: DistanceFn)
    requires i < |ds|
    ensures var d, rest := ds[i], Scan(ds[i + 1..], b, dist);
            Scan(ds[i..], b, dist) ==
              if !Candidate(d, b) then rest
              else if b.pickup.None? || d.fields.location.None? then Threw([])
              else if IsWithinRadius(b.pickup.value, d.fields.location.value, RadiusKm, dist) then
                Resume([Emit(d.socketId, NewBooking, b)], rest)
              else rest
  {
    assert ds[i..][0] == ds[i] && ds[i..][1..] == ds[i + 1..];
  }

  lemma ResumeAppend(es: seq<Emit>, e: Emit, o: Outcome)
    ensures Resume(es, Resume([e], o)) == Resume(es + [e], o)
  {
    assert (es + [e]) + o.emits == es + ([e] + o.emits);
  }

  lemma ResumeNone(es: seq<Emit>)
    ensures Resume(es, Completed([])) == Completed(es)
    ensures Resume(es, Threw([])) == Threw(es)
  {
    assert es + [] == es;
  }

  /** The fixed 1000 km radius includes its boundary: a candidate exactly
      1000 km from the pickup receives the booking, one farther away does not. */
  lemma DispatchRadiusBoundary(d: Driver, b: Booking, dist: DistanceFn)
    requires Candidate(d, b) && b.pickup.Some? && d.fields.location.Some?
    ensures var p, q := b.pickup.value, d.fields.location.value;
            dist(p.lat, p.lon, q.lat, q.lon) == RadiusKm ==>
              Scan([d], b, dist) == Completed([Emit(d.socketId, NewBooking, b)])
    ensures var p, q := b.pickup.value, d.fields.location.value;
            dist(p.lat, p.lon, q.lat, q.lon) > RadiusKm ==>
              Scan([d], b, dist) == Completed([])
  {
  }

  /** Every emit of the scan is a "new-booking" carrying the unchanged
      booking, addressed to the socket id of an eligible driver of `ds`. */
  lemma {:induction false} ScanSound(ds: seq<Driver>, b: Booking, dist: DistanceFn)
    ensures forall e | e in Scan(ds, b, dist).emits ::
              && e.event == NewBooking
              && e.booking == b
              && exists d | d in ds :: d.socketId == e.target && Eligible(d, b, dist)
  {
    if ds != [] {
      ScanSound(ds[1..], b, dist);
      forall e | e in Scan(ds[1..], b, dist).emits
        ensures exists d | d in ds :: d.socketId == e.target && Eligible(d, b, dist)
      {
        var d :| d in ds[1..] && d.socketId == e.target && Eligible(d, b, dist);
        assert d in ds;
      }
    }
  }

  /** The eligible drivers of `ds`, in the order of `ds`. */
  function Matching(ds: seq<Driver>, b: Booking, dist: DistanceFn): (r: seq<Driver>)
    ensures |r| <= |ds|
  {
    if ds == [] then []
    else if Eligible(ds[0], b, dist) then [ds[0]] + Matching(ds[1..], b, dist)
    else Matching(ds[1..], b, dist)
  }

  /** A driver is matched if and only if it is one of `ds` and eligible. */
  lemma {:induction false} MatchingMembers(ds: seq<Driver>, b: Booking, dist: DistanceFn)
    ensures forall d :: d in Matching(ds, b, dist) <==> d in ds && Eligible(d, b, dist)
  {
    if ds != [] {
      MatchingMembers(ds[1..], b, dist);
      assert ds == [ds[0]] + ds[1..];
    }
  }

  /** One "new-booking" emit per driver of `ds`, in order, each addressed to
      that driver's socketId and carrying `b`. */
  function Notify(ds: seq<Driver>, b: Booking): (r: seq<Emit>)
    ensures |r| == |ds|
    ensures forall i | 0 <= i < |ds| :: r[i] == Emit(ds[i].socketId, NewBooking, b)
  {
    if ds == [] then [] else [Emit(ds[0].socketId, NewBooking, b)] + Notify(ds[1..], b)
  }

  /** The position of the first driver whose coordinate read throws, or
      `|ds|` when there is none. */
  function FirstBlocker(ds: seq<Driver>, b: Booking): (k: nat)
    ensures k <= |ds|
    ensures forall i | 0 <= i < k :: !Blocks(ds[i], b)
    ensures k < |ds| ==> Blocks(ds[k], b)
  {
    if ds == [] then 0
    else if Blocks(ds[0], b) then 0
    else 1 + FirstBlocker(ds[1..], b)
  }

  /** The scan is the declarative match cut at the first throwing driver:
      it emits the booking to exactly the eligible drivers before that
      point, in iteration order, and it completes exactly when no driver
      throws. */
  lemma {:induction false} ScanIsMatchingPrefix(ds: seq<Driver>, b: Booking, dist: DistanceFn)
    ensures var k := FirstBlocker(ds, b);
            var es := Notify(Matching(ds[..k], b, dist), b);
            Scan(ds, b, dist) == if k == |ds| then Completed(es) else Threw(es)
  {
    if ds == [] {
    } else if Blocks(ds[0], b) {
      assert Scan(ds, b, dist) == Threw([]);
      assert ds[..0] == [];
    } else {
      var d, rest := ds[0], ds[1..];
      var k' := FirstBlocker(rest, b);
      ScanIsMatchingPrefix(rest, b, dist);
      assert FirstBlocker(ds, b) == 1 + k';
      PrefixCons(ds, k');
      MatchingCons(d, rest[..k'], b, dist);
      var m := Matching(rest[..k'], b, dist);
      if Eligible(d, b, dist) {
        assert Scan(ds, b, dist) == Resume([Emit(d.socketId, NewBooking, b)], Scan(rest, b, dist));
        assert Notify([d] + m, b) == [Emit(d.socketId, NewBooking, b)] + Notify(m, b);
      } else {
        assert Scan(ds, b, dist) == Scan(rest, b, dist);
      }
    }
  }

  lemma PrefixCons(ds: seq<Driver>, k: nat)
    requires k < |ds|
    ensures ds[..k + 1] == [ds[0]] + ds[1..][..k]
  {
  }

  lemma MatchingCons(d: Driver, ds: seq<Driver>, b: Booking, dist: DistanceFn)
    ensures Matching([d] + ds, b, dist) ==
              (if Eligible(d, b, dist) then [d] else []) + Matching(ds, b, dist)
  {
    assert ([d] + ds)[1..] == ds;
  }

  /** Location-less drivers that are unavailable or of another vehicle
      type never make the scan fail: it completes if and only if no
      available driver of the booking's type meets a missing coordinate. */
  lemma {:induction false} ScanCompletesIff(ds: seq<Driver>, b: Booking, dist: DistanceFn)
    ensures Scan(ds, b, dist).Completed? <==> forall i | 0 <= i < |ds| :: !Blocks(ds[i], b)
  {
    ScanIsMatchingPrefix(ds, b, dist);
  }

  /** The number of emits addressed to `target`. */
  function CountTo(es: seq<Emit>, target: string): nat
  {
    if es == [] then 0
    else (if es[0].target == target then 1 else 0) + CountTo(es[1..], target)
  }

  lemma {:induction false} CountToAbsent(es: seq<Emit>, target: string)
    requires forall e | e in es :: e.target != target
    ensures CountTo(es, target) == 0
  {
    if es != [] {
      CountToAbsent(es[1..], target);
    }
  }

  /** Socket ids that occur at most once among the drivers. */
  ghost predicate DistinctIds(ds: seq<Driver>)
  {
    forall i, j | 0 <= i < j < |ds| :: ds[i].socketId != ds[j].socketId
  }

  /** When the scan completes over drivers with distinct socket ids, every
      eligible driver receives exactly one emit and every other driver none. */
  lemma {:induction false} EachEligibleNotifiedOnce(ds: seq<Driver>, b: Booking, dist: DistanceFn)
    requires DistinctIds(ds)
    requires Scan(ds, b, dist).Completed?
    ensures forall i | 0 <= i < |ds| ::
              CountTo(Scan(ds, b, dist).emits, ds[i].socketId) == if Eligible(ds[i], b, dist) then 1 else 0
  {
    if ds != [] {
      var rest := ds[1..];
      var d := ds[0];
      var tail := Scan(rest, b, dist);
      var es := Scan(ds, b, dist).emits;
      assert !Blocks(d, b);
      assert tail.Completed?;
      EachEligibleNotifiedOnce(rest, b, dist);
      ScanSound(rest, b, dist);
      assert es == if Eligible(d, b, dist) then [Emit(d.socketId, NewBooking, b)] + tail.emits
                   else tail.emits;
      forall e | e in tail.emits
        ensures e.target != d.socketId
      {
        var x :| x in rest && x.socketId == e.target && Eligible(x, b, dist);
        var j :| 0 <= j < |rest| && rest[j] == x;
        assert ds[j + 1] == x;
      }
      CountToAbsent(tail.emits, d.socketId);
      forall i | 0 <= i < |ds|
        ensures CountTo(es, ds[i].socketId) == if Eligible(ds[i], b, dist) then 1 else 0
      {
        if Eligible(d, b, dist) {
          assert ([Emit(d.socketId, NewBooking, b)] + tail.emits)[1..] == tail.emits;
        }
        if i > 0 {
          assert ds[i] == rest[i - 1];
        }
      }
    }
  }

  /** What the /emit handler does: HTTP status 200 with the message "Event
      emitted", or an exception that escapes the handler, in both cases
      after the emits listed. */
  datatype Response =
    | Replied(status: int, message: string, emits: seq<Emit>)
    | Failed(emits: seq<Emit>)

  /** The /emit handler over a registry snapshot: only the event name
      "new-booking" starts dispatch; a "new-booking" without data throws
      when the booking is destructured, before any emit. */
  function EmitEndpoint(event: Option<string>, data: Option<Booking>, snapshot: seq<Driver>, dist: DistanceFn): (r: Response)
    ensures event != Some(NewBooking) ==> r == Replied(200, "Event emitted", [])
    ensures r.Replied? ==> r.status == 200 && r.message == "Event emitted"
    ensures event == Some(NewBooking) && data.None? ==> r == Failed([])
    ensures event == Some(NewBooking) && data.Some? ==>
              r.emits == Scan(snapshot, data.value, dist).emits &&
              (r.Replied? <==> Scan(snapshot, data.value, dist).Completed?)
  {
    if event != Some(NewBooking) then Replied(200, "Event emitted", [])
    else if data.None? then Failed([])
    else
      match Scan(snapshot, data.value, dist)
      case Completed(es) => Replied(200, "Event emitted", es)
      case Threw(es) => Failed(es)
  }
}
