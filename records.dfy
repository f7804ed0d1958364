/** The records exchanged by the hub: the presence a driver reports, the
    record the registry stores for it, the booking a caller posts, and the
    event emitted to a driver. */
module Records {
  import opened Geo

  datatype Option<+T> = None | Some(value: T)

  /** The only status value that makes a driver eligible. */
  const Available := "available"

  /** The name of the event posted to /emit that triggers dispatch, and the
      name of the event sent to each matched driver. */
  const NewBooking := "new-booking"

  /** The fields of a "driver-info" payload. Every field may be missing
      (`None`), as a JavaScript property may be `undefined`. A missing
      `location`, or a `location` without `coordinates`, is `None`.
      `extra` holds any other properties, which the hub carries but never reads. */
  datatype Presence = Presence(
    driverId: Option<string>,
    location: Option<Coord>,
    vehicleType: Option<string>,
    status: Option<string>,
    extra: map<string, string>)

  /** A "driver-info" payload as sent by the client, which may carry a
      `socketId` property of its own. */
  datatype Payload = Payload(fields: Presence, socketId: Option<string>)

  /** A registry record: the reported fields plus the reporting socket's id. */
  datatype Driver = Driver(fields: Presence, socketId: string)

  /** A booking posted to /emit. `pickup` is `pickupLocation.coordinates`,
      `None` when either is missing. */
  datatype Booking = Booking(
    pickup: Option<Coord>,
    vehicleType: Option<string>,
    extra: map<string, string>)

  /** One `io.to(target).emit(event, booking)` call. */
  datatype Emit = Emit(target: string, event: string, booking: Booking)

  /** `{ ...data, socketId: socketId }`: the explicit property comes after the
      spread, so the payload's own `socketId`, if any, is overwritten, and
      every reported field is kept as sent. */
  function Stamp(data: Payload, socketId: string): (d: Driver)
    ensures d.socketId == socketId
    ensures d.fields == data.fields
  {
    Driver(data.fields, socketId)
  }
}
