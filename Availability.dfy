/** The availability queries of backend/src/controllers/availability.controller.js:
    the working-day slot generator, the store queries of the plain and the
    smart path, and the plain path's exact-start filter. */
module Availability {
  import opened Time
  import opened Records
  import opened Arith
  import SmartScheduler

  const OpeningHour := 9
  const ClosingHour := 17
  /** 09:00 to 17:00. */
  const WorkdayMinutes := 480
  /** `addMinutes(date, 86400)`: the fetch window is 86400 minutes (60 days) long. */
  const FetchWindowMinutes := 86400
  /** A bound on the duration under which the generator's hour test is
      reached on the day it started in: every slot start up to 16:59 plus
      420 minutes is still before midnight. Some longer durations wrap
      past midnight (450 to 479 minutes, and 900 and more); the model
      does not cover them. */
  const MaxModelledDuration := 420

  /** `date.setHours(9, 0, 0)`. */
  function OpeningTime(date: Instant): Instant
  {
    DayStart(date) + OpeningHour * MinutesPerHour
  }

  /** The i-th slot the generator emits. */
  function BackendSlot(date: Instant, d: int, i: nat): Slot
  {
    Slot(OpeningTime(date) + i * d, OpeningTime(date) + (i + 1) * d, d)
  }

  /** What `getAvailableSlotsForService` returns. */
  function BackendSlots(date: Instant, d: int): (r: seq<Slot>)
    requires 1 <= d
  {
    seq(CeilDiv(WorkdayMinutes, d), i requires 0 <= i => BackendSlot(date, d, i))
  }

  /** `getAvailableSlotsForService`: from 09:00 of the day of `date`, emit
      a slot of `d` minutes and move to its end, as long as the current
      hour is before 17. */
  method GetAvailableSlotsForService(d: int, date: Instant) returns (slots: seq<Slot>)
    requires 1 <= d <= MaxModelledDuration
    ensures slots == BackendSlots(date, d)
  {
    var midnight := DayStart(date);
    var currentTime := OpeningTime(date);
    slots := [];
    ClockAt(midnight, OpeningHour * MinutesPerHour);
    while Hour(currentTime) < ClosingHour
      invariant currentTime == OpeningTime(date) + |slots| * d
      invariant (|slots| - 1) * d < WorkdayMinutes
      invariant forall i :: 0 <= i < |slots| ==> slots[i] == BackendSlot(date, d, i)
      invariant Hour(currentTime) < ClosingHour ==> |slots| * d < WorkdayMinutes
      invariant Hour(currentTime) >= ClosingHour ==> |slots| * d >= WorkdayMinutes
      decreases WorkdayMinutes - |slots| * d
    {
      var endTime := currentTime + d;
      slots := slots + [Slot(currentTime, endTime, d)];
      currentTime := endTime;
      assert |slots| * d == (|slots| - 1) * d + d;
      ClockAt(midnight, OpeningHour * MinutesPerHour + |slots| * d);
    }
    CeilDivUnique(WorkdayMinutes, d, |slots|);
  }

  // ---------------------------------------------------------------------
  // Properties of the generated slots.

  /** The first slot opens at 09:00 of the given day, each slot lasts `d`
      minutes, and each starts where the previous one ends. */
  lemma SlotsAreContiguous(date: Instant, d: int)
    requires 1 <= d <= MaxModelledDuration
    ensures var s := BackendSlots(date, d);
            && |s| > 0
            && s[0].startTime == DayStart(date) + 9 * 60
            && (forall i :: 0 <= i < |s| ==> s[i].endTime == s[i].startTime + d && s[i].duration == d)
            && (forall i :: 0 <= i < |s| - 1 ==> s[i + 1].startTime == s[i].endTime)
  {
    var s := BackendSlots(date, d);
    assert CeilDiv(WorkdayMinutes, d) >= 1;
    forall i | 0 <= i < |s| ensures s[i].endTime == s[i].startTime + d {
      assert (i + 1) * d == i * d + d;
    }
  }

  /** Every slot starts before 17:00 on the day of `date`. */
  lemma SlotsStartBeforeClosing(date: Instant, d: int)
    requires 1 <= d <= MaxModelledDuration
    ensures var s := BackendSlots(date, d);
            forall i :: 0 <= i < |s| ==> SameDay(s[i].startTime, date) && Hour(s[i].startTime) < ClosingHour
  {
    var s := BackendSlots(date, d);
    var n := |s|;
    CeilDivUnique(WorkdayMinutes, d, n);
    forall i | 0 <= i < n
      ensures SameDay(s[i].startTime, date) && Hour(s[i].startTime) < ClosingHour
    {
      MulMonotone(i, n - 1, d);
      ClockAt(DayStart(date), OpeningHour * MinutesPerHour + i * d);
    }
  }

  /** There are ⌈480 / d⌉ slots, and the last one ends at or after 17:00:
      strictly after exactly when `d` does not divide 480. */
  lemma LastSlotEnd(date: Instant, d: int)
    requires 1 <= d <= MaxModelledDuration
    ensures var s := BackendSlots(date, d);
            && |s| == CeilDiv(WorkdayMinutes, d)
            && s[|s| - 1].endTime >= DayStart(date) + ClosingHour * MinutesPerHour
            && (s[|s| - 1].endTime > DayStart(date) + ClosingHour * MinutesPerHour <==> WorkdayMinutes % d != 0)
  {
    var s := BackendSlots(date, d);
    var n := |s|;
    CeilDivUnique(WorkdayMinutes, d, n);
    assert s[n - 1].endTime == DayStart(date) + OpeningHour * MinutesPerHour + n * d;
    var q, r := WorkdayMinutes / d, WorkdayMinutes % d;
    assert WorkdayMinutes == q * d + r;
    assert (q + 1) * d == q * d + d;
    CeilDivUnique(WorkdayMinutes, d, q);
    CeilDivUnique(WorkdayMinutes, d, q + 1);
  }

  /** A 45-minute service gets eleven slots; the last runs 16:30 to 17:15. */
  lemma FortyFiveMinuteDay(midnight: Instant)
    requires midnight % MinutesPerDay == 0
    ensures var s := BackendSlots(midnight, 45);
            |s| == 11 && s[10].startTime == midnight + 16 * 60 + 30 &&
            s[10].endTime == midnight + 17 * 60 + 15
  {
  }

  // ---------------------------------------------------------------------
  // The store queries.

  /** `startTime: { $gte: date }, endTime: { $lte: addMinutes(date, 86400) }` */
  predicate InFetchWindow(a: Appointment, date: Instant)
  {
    a.startTime >= date && a.endTime <= date + FetchWindowMinutes
  }

  /** `Appointment.find({ serviceId, startTime, endTime })` of the plain path. */
  function FetchForService(store: seq<Appointment>, serviceId: ServiceId, date: Instant): (r: seq<Appointment>)
    ensures |r| <= |store|
    ensures forall a :: a in r <==> a in store && a.serviceId == serviceId && InFetchWindow(a, date)
  {
    if store == [] then []
    else if store[0].serviceId == serviceId && InFetchWindow(store[0], date) then
      [store[0]] + FetchForService(store[1..], serviceId, date)
    else FetchForService(store[1..], serviceId, date)
  }

  /** `Appointment.find({ startTime, endTime })` of the smart path: every
      service's bookings. */
  function FetchAllServices(store: seq<Appointment>, date: Instant): (r: seq<Appointment>)
    ensures |r| <= |store|
    ensures forall a :: a in r <==> a in store && InFetchWindow(a, date)
  {
    if store == [] then []
    else if InFetchWindow(store[0], date) then [store[0]] + FetchAllServices(store[1..], date)
    else FetchAllServices(store[1..], date)
  }

  // ---------------------------------------------------------------------
  // The plain filter.

  /** The `some` test: a fetched booking on the slot's day that starts at
      the slot's start instant. */
  predicate IsTaken(slot: Slot, booked: seq<Appointment>)
  {
    exists a :: a in booked && SameDay(a.startTime, slot.startTime) && a.startTime == slot.startTime
  }

  /** `slots.filter(slot => !bookedAppointments.some(...))`. */
  function FilterAvailable(slots: seq<Slot>, booked: seq<Appointment>): (r: seq<Slot>)
    ensures |r| <= |slots|
    ensures forall s :: s in r <==>
              s in slots && forall a :: a in booked ==> a.startTime != s.startTime
    ensures forall s :: multiset(r)[s] ==
              if forall a :: a in booked ==> a.startTime != s.startTime then multiset(slots)[s] else 0
  {
    if slots == [] then []
    else
      assert slots == [slots[0]] + slots[1..];
      if IsTaken(slots[0], booked) then FilterAvailable(slots[1..], booked)
      else [slots[0]] + FilterAvailable(slots[1..], booked)
  }

  /** `a` is `b` with some elements left out, in order. */
  predicate IsSubsequence<T(==)>(a: seq<T>, b: seq<T>)
    decreases |b|
  {
    a == [] || (b != [] && ((a[0] == b[0] && IsSubsequence(a[1..], b[1..])) || IsSubsequence(a, b[1..])))
  }

  /** The filter keeps the generated order. */
  lemma {:induction false} FilterIsSubsequence(slots: seq<Slot>, booked: seq<Appointment>)
    ensures IsSubsequence(FilterAvailable(slots, booked), slots)
  {
    if slots != [] {
      FilterIsSubsequence(slots[1..], booked);
      var r := FilterAvailable(slots, booked);
      if !IsTaken(slots[0], booked) {
        assert r[1..] == FilterAvailable(slots[1..], booked);
      }
    }
  }

  /** Only the start instant counts: adding a booking that starts at no
      slot's start leaves the result as it was, however much it overlaps. */
  lemma {:induction false} OverlapAloneRemovesNothing(slots: seq<Slot>, booked: seq<Appointment>, b: Appointment)
    requires forall s :: s in slots ==> b.startTime != s.startTime
    ensures FilterAvailable(slots, booked + [b]) == FilterAvailable(slots, booked)
  {
    if slots != [] {
      OverlapAloneRemovesNothing(slots[1..], booked, b);
      assert IsTaken(slots[0], booked + [b]) == IsTaken(slots[0], booked);
    }
  }

  // ---------------------------------------------------------------------
  // The two endpoints.

  /** `getAvailability`. */
  method GetAvailability(invalidQuery: bool, services: seq<Service>, store: seq<Appointment>,
                         serviceId: ServiceId, date: Instant)
    returns (r: Result<seq<Slot>>)
    requires FindService(services, serviceId).Some? ==>
               1 <= FindService(services, serviceId).value.durationMinutes <= MaxModelledDuration
    ensures invalidQuery ==> r == Err(InvalidInput)
    ensures !invalidQuery && FindService(services, serviceId).None? ==> r == Err(NotFound)
    ensures !invalidQuery && FindService(services, serviceId).Some? ==>
              r == Ok(FilterAvailable(BackendSlots(date, FindService(services, serviceId).value.durationMinutes),
                                      FetchForService(store, serviceId, date)))
  {
    if invalidQuery {
      return Err(InvalidInput);
    }
    var service := FindService(services, serviceId);
    if service.None? {
      return Err(NotFound);
    }
    var slots := GetAvailableSlotsForService(service.value.durationMinutes, date);
    var bookedAppointments := FetchForService(store, serviceId, date);
    r := Ok(FilterAvailable(slots, bookedAppointments));
  }

  /** `getSmartAvailability`: the same slots, ranked against every
      service's bookings in the window. */
  method GetSmartAvailability(invalidQuery: bool, services: seq<Service>, store: seq<Appointment>,
                              serviceId: ServiceId, date: Instant)
    returns (r: Result<seq<SmartScheduler.ScoredSlot>>)
    requires FindService(services, serviceId).Some? ==>
               1 <= FindService(services, serviceId).value.durationMinutes <= MaxModelledDuration
    ensures invalidQuery ==> r == Err(InvalidInput)
    ensures !invalidQuery && FindService(services, serviceId).None? ==> r == Err(NotFound)
    ensures !invalidQuery && FindService(services, serviceId).Some? ==>
              r == Ok(SmartScheduler.GetSmartAvailabilityUtil(
                        BackendSlots(date, FindService(services, serviceId).value.durationMinutes),
                        FetchAllServices(store, date)))
  {
    if invalidQuery {
      return Err(InvalidInput);
    }
    var service := FindService(services, serviceId);
    if service.None? {
      return Err(NotFound);
    }
    var slots := GetAvailableSlotsForService(service.value.durationMinutes, date);
    var bookedAppointments := FetchAllServices(store, date);
    r := Ok(SmartScheduler.GetSmartAvailabilityUtil(slots, bookedAppointments));
  }

  /** Booking round trip: when `date` is a midnight, a stored booking of a
      generated slot removes that slot from the plain listing. */
  lemma BookedSlotNotOffered(store: seq<Appointment>, serviceId: ServiceId, date: Instant, d: int, i: nat, a: Appointment)
    requires date % MinutesPerDay == 0
    requires 1 <= d <= MaxModelledDuration && i < CeilDiv(WorkdayMinutes, d)
    requires a in store && a.serviceId == serviceId
    requires a.startTime == BackendSlot(date, d, i).startTime && a.endTime == BackendSlot(date, d, i).endTime
    ensures BackendSlot(date, d, i) !in FilterAvailable(BackendSlots(date, d), FetchForService(store, serviceId, date))
  {
    var c := CeilDiv(WorkdayMinutes, d);
    CeilDivUnique(WorkdayMinutes, d, c);
    MulMonotone(i + 1, c, d);
    assert (c - 1) * d == c * d - d;
    assert (i + 1) * d < WorkdayMinutes + d;
    assert DayStart(date) == date;
    assert InFetchWindow(a, date);
    assert a in FetchForService(store, serviceId, date);
    var slots := BackendSlots(date, d);
    assert slots[i] == BackendSlot(date, d, i);
  }

  /** The smart path applies no booked-slot filter: with a 60-minute
      service and a stored 09:00–09:30 booking of it, no slot scores, so
      the fallback offers all 8 slots, the booked 09:00 slot first. */
  lemma SmartPathOffersBookedSlot(midnight: Instant)
    requires midnight % MinutesPerDay == 0
    ensures var a := Appointment(1, "n", "e", midnight + 540, midnight + 570);
            var r := SmartScheduler.GetSmartAvailabilityUtil(BackendSlots(midnight, 60),
                                                             FetchAllServices([a], midnight));
            && |r| == 8 && r[0].slot == BackendSlot(midnight, 60, 0) && r[0].score == 0
            && a.startTime == r[0].slot.startTime
  {
    var a := Appointment(1, "n", "e", midnight + 540, midnight + 570);
    var slots := BackendSlots(midnight, 60);
    var booked := FetchAllServices([a], midnight);
    assert |slots| == 8;
    assert DayStart(midnight) == midnight;
    forall i | 0 <= i < |slots| ensures SmartScheduler.Score(slots[i], booked) == 0 {
      assert slots[i].duration == 60;
      assert forall b :: b in booked ==> SmartScheduler.GetDuration(b) == 30;
    }
    SmartScheduler.RankingFallback(slots, booked);
  }

  /** Without the midnight, the round trip fails: queried at noon, a
      booking of the 09:00 slot is outside the fetch window and the slot
      is offered again. */
  lemma MorningBookingMissedAtNoon(midnight: Instant)
    requires midnight % MinutesPerDay == 0
    ensures var a := Appointment(1, "n", "e", midnight + 540, midnight + 600);
            BackendSlot(midnight + 720, 60, 0) in
              FilterAvailable(BackendSlots(midnight + 720, 60), FetchForService([a], 1, midnight + 720))
  {
    var a := Appointment(1, "n", "e", midnight + 540, midnight + 600);
    assert FetchForService([a], 1, midnight + 720) == [];
    ClockAt(midnight, 720);
    assert BackendSlots(midnight + 720, 60)[0] == BackendSlot(midnight + 720, 60, 0);
  }
}
