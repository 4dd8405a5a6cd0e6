/** The records the booking engine works on: the schemas of
    backend/src/models and the transient slot of the availability queries. */
module Records {
  import opened Time

  datatype Option<+T> = None | Some(value: T)

  /** The error paths of the controllers. */
  datatype Failure =
    | InvalidInput     // an express-validator chain rejected the request
    | NotFound         // `Service.findById` found nothing
    | SlotUnavailable  // the booking conflicts with an existing one
    | SchemaRejected   // the schema refused the document and `create` threw

  datatype Result<+T> = Ok(value: T) | Err(failure: Failure)

  /** The HTTP status of each failure: the one its `AppError` carries, and
      500 for an error thrown past `asyncHandler`. */
  function StatusCode(f: Failure): (code: int)
    ensures code == 404 <==> f == NotFound
    ensures code == 500 <==> f == SchemaRejected
    ensures code == 400 <==> f == InvalidInput || f == SlotUnavailable
  {
    match f
    case InvalidInput => 400
    case NotFound => 404
    case SlotUnavailable => 400
    case SchemaRejected => 500
  }

  /** A Mongo object id. */
  type ServiceId = nat

  datatype Service = Service(
    id: ServiceId,
    name: string,
    price: real,
    durationMinutes: int,
    available: bool)

  datatype Appointment = Appointment(
    serviceId: ServiceId,
    customerName: string,
    customerEmail: string,
    startTime: Instant,
    endTime: Instant)

  /** A candidate slot: never stored, has no identity. */
  datatype Slot = Slot(startTime: Instant, endTime: Instant, duration: int)

  /** `Service.findById` over the catalog: the first service with that id. */
  function FindService(services: seq<Service>, id: ServiceId): (r: Option<Service>)
    ensures r.Some? ==> r.value in services && r.value.id == id
    ensures r.None? <==> forall s :: s in services ==> s.id != id
  {
    if services == [] then None
    else if services[0].id == id then Some(services[0])
    else FindService(services[1..], id)
  }
}
