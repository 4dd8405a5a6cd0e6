/** The booking create path of backend/src/controllers/appointment.controller.js:
    look the service up, look for a clashing booking of the same service
    with the controller's own `$or` filter, and append the new booking. */
module AppointmentController {
  import opened Time
  import opened Records

  /** The `findOne` filter: an existing booking `e` of the requested
      service that starts inside `[n.start, n.end)` or ends inside
      `(n.start, n.end]`. */
  predicate SourceConflict(e: Appointment, n: Appointment)
  {
    e.serviceId == n.serviceId &&
    ((e.startTime < n.endTime && e.startTime >= n.startTime) ||
     (e.endTime > n.startTime && e.endTime <= n.endTime))
  }

  /** Half-open intervals that share an instant. */
  predicate Overlaps(e: Appointment, n: Appointment)
  {
    e.startTime < n.endTime && n.startTime < e.endTime
  }

  predicate WellFormed(a: Appointment)
  {
    a.startTime < a.endTime
  }

  /** `n` lies strictly inside `e`. */
  predicate StrictlyInside(n: Appointment, e: Appointment)
  {
    e.startTime < n.startTime && n.endTime < e.endTime
  }

  /** `Appointment.findOne(...)`: the first stored booking the filter matches. */
  function FindConflict(store: seq<Appointment>, n: Appointment): (r: Option<Appointment>)
    ensures r.Some? ==> r.value in store && SourceConflict(r.value, n)
    ensures r.None? <==> forall e :: e in store ==> !SourceConflict(e, n)
  {
    if store == [] then None
    else if SourceConflict(store[0], n) then Some(store[0])
    else FindConflict(store[1..], n)
  }

  /** The shared appointment store, with the service catalog it is checked
      against. */
  class AppointmentStore {
    var services: seq<Service>
    var appointments: seq<Appointment>

    constructor (services: seq<Service>, appointments: seq<Appointment>)
      ensures this.services == services && this.appointments == appointments
    {
      this.services := services;
      this.appointments := appointments;
    }

    /** `createAppointment`; `invalidInput` stands for a failed
        express-validator chain, and `request` holds the sanitised fields,
        so its name is already trimmed. Check and insert run as one step;
        `customerName` is `required` in the schema, so an empty name makes
        `Appointment.create` throw after the conflict check. */
    method CreateAppointment(invalidInput: bool, request: Appointment) returns (r: Result<Appointment>)
      modifies this`appointments
      ensures invalidInput ==> r == Err(InvalidInput) && appointments == old(appointments)
      ensures !invalidInput && FindService(services, request.serviceId).None? ==>
                r == Err(NotFound) && appointments == old(appointments)
      ensures !invalidInput && FindService(services, request.serviceId).Some? &&
              (exists e :: e in old(appointments) && SourceConflict(e, request)) ==>
                r == Err(SlotUnavailable) && appointments == old(appointments)
      ensures !invalidInput && FindService(services, request.serviceId).Some? &&
              (forall e :: e in old(appointments) ==> !SourceConflict(e, request)) &&
              request.customerName == "" ==>
                r == Err(SchemaRejected) && appointments == old(appointments)
      ensures !invalidInput && FindService(services, request.serviceId).Some? &&
              (forall e :: e in old(appointments) ==> !SourceConflict(e, request)) &&
              request.customerName != "" ==>
                r == Ok(request) && appointments == old(appointments) + [request]
    {
      if invalidInput {
        return Err(InvalidInput);
      }
      var service := FindService(services, request.serviceId);
      if service.None? {
        return Err(NotFound);
      }
      var existingAppointment := FindConflict(appointments, request);
      if existingAppointment.Some? {
        return Err(SlotUnavailable);
      }
      if request.customerName == "" {
        return Err(SchemaRejected);
      }
      appointments := appointments + [request];
      r := Ok(request);
    }
  }

  // ---------------------------------------------------------------------
  // The filter against true overlap.

  /** For well-formed intervals of one service the filter is overlap minus
      one case: a request strictly inside an existing booking. */
  lemma SourceConflictIsOverlapMinusContainment(e: Appointment, n: Appointment)
    requires WellFormed(e) && WellFormed(n) && e.serviceId == n.serviceId
    ensures SourceConflict(e, n) <==> Overlaps(e, n) && !StrictlyInside(n, e)
  {
  }

  /** What the filter flags does overlap. */
  lemma SourceConflictImpliesOverlap(e: Appointment, n: Appointment)
    requires WellFormed(e) && WellFormed(n)
    ensures SourceConflict(e, n) ==> Overlaps(e, n)
  {
  }

  /** Containment is missed: a request strictly inside a stored booking
      matches neither half of the filter. */
  lemma ContainmentNotFlagged(e: Appointment, n: Appointment)
    requires StrictlyInside(n, e)
    ensures !SourceConflict(e, n)
  {
  }

  /** Bookings of other services never clash. */
  lemma OtherServicesNeverConflict(store: seq<Appointment>, n: Appointment)
    requires forall e :: e in store ==> e.serviceId != n.serviceId
    ensures FindConflict(store, n).None?
  {
  }

  /** Only same-service bookings decide: the same-service part of the
      store finds a conflict exactly when the whole store does. */
  lemma {:induction false} ConflictDependsOnServiceOnly(store: seq<Appointment>, others: seq<Appointment>, n: Appointment)
    requires forall e :: e in others ==> e.serviceId != n.serviceId
    ensures FindConflict(store + others, n) == FindConflict(store, n)
  {
    if store == [] {
      assert store + others == others;
    } else {
      assert (store + others)[1..] == store[1..] + others;
      ConflictDependsOnServiceOnly(store[1..], others, n);
    }
  }

  /** The same well-formed interval can be booked only once. */
  lemma IdenticalRequestConflicts(e: Appointment, n: Appointment)
    requires WellFormed(n)
    requires e.serviceId == n.serviceId && e.startTime == n.startTime && e.endTime == n.endTime
    ensures SourceConflict(e, n)
  {
  }

  // ---------------------------------------------------------------------
  // The no-double-booking invariant.

  /** No two bookings of one service overlap. */
  predicate NoOverlap(store: seq<Appointment>)
  {
    forall i, j :: 0 <= i < j < |store| && store[i].serviceId == store[j].serviceId ==>
      !Overlaps(store[i], store[j])
  }

  /** An accepted request keeps the invariant unless a booking of its
      service strictly contains it; inverted intervals included. */
  lemma AcceptedKeepsNoOverlap(store: seq<Appointment>, n: Appointment)
    requires NoOverlap(store)
    requires FindConflict(store, n).None?
    requires forall e :: e in store && e.serviceId == n.serviceId ==> !StrictlyInside(n, e)
    ensures NoOverlap(store + [n])
  {
    var s := store + [n];
    forall i, j | 0 <= i < j < |s| && s[i].serviceId == s[j].serviceId
      ensures !Overlaps(s[i], s[j])
    {
      if j == |store| {
        assert s[i] in store;
        assert !SourceConflict(s[i], n);
      } else {
        assert s[i] == store[i] && s[j] == store[j];
      }
    }
  }

  /** The filter misses containment, so the invariant can break: a request
      strictly inside a stored booking is accepted and the two overlap. */
  lemma ContainedRequestBreaksNoOverlap()
    ensures var e := Appointment(1, "a", "a@x", 600, 720);
            var n := Appointment(1, "b", "b@x", 630, 660);
            && NoOverlap([e]) && WellFormed(n)
            && FindConflict([e], n).None?
            && !NoOverlap([e] + [n])
  {
    var e := Appointment(1, "a", "a@x", 600, 720);
    var n := Appointment(1, "b", "b@x", 630, 660);
    assert ([e] + [n])[0] == e && ([e] + [n])[1] == n;
  }

  /** Nothing checks `start < end`: a request that ends no later than it
      starts matches neither half of the filter, whatever is stored, so a
      known service accepts it when its name is not empty. */
  lemma InvertedRequestNeverConflicts(store: seq<Appointment>, n: Appointment)
    requires n.endTime <= n.startTime
    ensures FindConflict(store, n).None?
  {
  }
}
