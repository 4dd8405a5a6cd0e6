/** The weekly booking grid of frontend/src/pages/AdminAppointments.tsx:
    its own slot loop (rows that end by 17:00), seven day columns, the
    exact-match "booked" test, the three-way cell status, and the page
    state that clicks, submits and week navigation update. */
module AdminAppointments {
  import opened Time
  import opened Text
  import opened Records
  import opened Arith

  const GridStartHour := 9
  const GridEndHour := 17

  /** A grid row: the hour and minute its slots start at. */
  datatype TimeOfDay = TimeOfDay(hour: int, minute: int)

  /** Minutes after midnight. */
  function MinuteOfDay(t: TimeOfDay): int
  {
    t.hour * MinutesPerHour + t.minute
  }

  /** The k-th row for slots of `d` minutes. */
  function RowAt(d: int, k: nat): TimeOfDay
  {
    var offset := GridStartHour * MinutesPerHour + k * d;
    TimeOfDay(offset / MinutesPerHour, offset % MinutesPerHour)
  }

  /** The `while (current + duration <= end)` loop of `renderTimeGrid`:
      `today` is the browser's clock, whose date the rows do not depend on. */
  method GridRows(today: Instant, d: int) returns (rows: seq<TimeOfDay>)
    requires d > 0
    ensures |rows| == (GridEndHour - GridStartHour) * MinutesPerHour / d
    ensures forall k :: 0 <= k < |rows| ==> rows[k] == RowAt(d, k)
  {
    var midnight := DayStart(today);
    var current := midnight + GridStartHour * MinutesPerHour;
    var end := midnight + GridEndHour * MinutesPerHour;
    rows := [];
    while current + d <= end
      invariant current == midnight + GridStartHour * MinutesPerHour + |rows| * d
      invariant |rows| * d <= (GridEndHour - GridStartHour) * MinutesPerHour
      invariant forall k :: 0 <= k < |rows| ==> rows[k] == RowAt(d, k)
      decreases end - current
    {
      ClockAt(midnight, GridStartHour * MinutesPerHour + |rows| * d);
      rows := rows + [TimeOfDay(Hour(current), Minute(current))];
      current := current + d;
      assert |rows| * d == (|rows| - 1) * d + d;
    }
    FloorDivUnique((GridEndHour - GridStartHour) * MinutesPerHour, d, |rows|);
  }

  /** Rows start at 09:00, each `d` minutes after the one before, and the
      slot of every row ends by 17:00. */
  lemma RowsFitTheDay(d: int, k: nat)
    requires d > 0 && k < (GridEndHour - GridStartHour) * MinutesPerHour / d
    ensures MinuteOfDay(RowAt(d, 0)) == GridStartHour * MinutesPerHour
    ensures MinuteOfDay(RowAt(d, k)) == GridStartHour * MinutesPerHour + k * d
    ensures MinuteOfDay(RowAt(d, k)) + d <= GridEndHour * MinutesPerHour
    ensures 0 <= RowAt(d, k).hour < HoursPerDay && 0 <= RowAt(d, k).minute < MinutesPerHour
  {
    var n := (GridEndHour - GridStartHour) * MinutesPerHour;
    FloorDivUnique(n, d, n / d);
    MulMonotone(k + 1, n / d, d);
    assert (k + 1) * d == k * d + d;
    var offset := GridStartHour * MinutesPerHour + k * d;
    assert 0 <= offset < MinutesPerDay;
    assert MinuteOfDay(RowAt(d, k)) == offset;
  }

  // ---------------------------------------------------------------------
  // Cells.

  /** A fetched appointment; `serviceId` is populated and may be absent. */
  datatype ListedAppointment = ListedAppointment(service: Option<ServiceId>, startTime: Instant, endTime: Instant)

  datatype Status = Past | Booked | Available  // gray, red, green

  datatype Cell = Cell(startTime: Instant, endTime: Instant, status: Status)

  /** `weekStart.add(day, "day").hour(h).minute(m).second(0)`. */
  function CellStart(weekStart: Instant, day: int, row: TimeOfDay): (r: Instant)
    requires 0 <= row.hour < HoursPerDay && 0 <= row.minute < MinutesPerHour
    ensures DayStart(r) == DayStart(weekStart) + day * MinutesPerDay
    ensures r - DayStart(r) == MinuteOfDay(row)
    ensures Hour(r) == row.hour && Minute(r) == row.minute
  {
    DayStartShift(weekStart, day);
    ClockAt(DayStart(weekStart + day * MinutesPerDay), MinuteOfDay(row));
    DayStart(weekStart + day * MinutesPerDay) + MinuteOfDay(row)
  }

  /** `appointments.filter(appt => appt.serviceId?._id === selectedServiceId)`. */
  function OfService(appts: seq<ListedAppointment>, selected: ServiceId): (r: seq<ListedAppointment>)
    ensures forall a :: a in r <==> a in appts && a.service == Some(selected)
  {
    if appts == [] then []
    else if appts[0].service == Some(selected) then [appts[0]] + OfService(appts[1..], selected)
    else OfService(appts[1..], selected)
  }

  /** `isSlotBooked`: an appointment of the selected service with the same
      start minute and the same end minute. */
  function IsSlotBooked(appts: seq<ListedAppointment>, selected: ServiceId, start: Instant, end: Instant): (b: bool)
    ensures b <==> exists a :: a in appts && a.service == Some(selected) &&
                              a.startTime == start && a.endTime == end
  {
    exists a :: a in OfService(appts, selected) && a.startTime == start && a.endTime == end
  }

  /** `isPast ? "gray" : booked ? "red" : "green"`. */
  function CellStatus(now: Instant, start: Instant, booked: bool): (s: Status)
    ensures s == Past <==> now > start
    ensures s == Booked <==> now <= start && booked
    ensures s == Available <==> now <= start && !booked
  {
    if now > start then Past else if booked then Booked else Available
  }

  /** The cell in column `day` of `row`. */
  function MakeCell(appts: seq<ListedAppointment>, selected: ServiceId, d: int,
                    weekStart: Instant, now: Instant, day: int, row: TimeOfDay): (c: Cell)
    requires 0 <= row.hour < HoursPerDay && 0 <= row.minute < MinutesPerHour
    ensures DayStart(c.startTime) == DayStart(weekStart) + day * MinutesPerDay
    ensures c.startTime - DayStart(c.startTime) == MinuteOfDay(row)
    ensures c.endTime == c.startTime + d
    ensures c.status == CellStatus(now, c.startTime,
                                   exists a :: a in appts && a.service == Some(selected) &&
                                               a.startTime == c.startTime && a.endTime == c.endTime)
  {
    var start := CellStart(weekStart, day, row);
    var end := start + d;
    Cell(start, end, CellStatus(now, start, IsSlotBooked(appts, selected, start, end)))
  }

  /** `renderTimeGrid`: nothing without a selected service, otherwise one
      row per grid row and seven day columns. */
  method RenderTimeGrid(services: seq<Service>, selected: ServiceId, weekStart: Instant,
                        now: Instant, appts: seq<ListedAppointment>)
    returns (grid: Option<seq<seq<Cell>>>)
    requires FindService(services, selected).Some? ==> FindService(services, selected).value.durationMinutes > 0
    ensures grid.None? <==> FindService(services, selected).None?
    ensures grid.Some? ==>
              var d := FindService(services, selected).value.durationMinutes;
              && |grid.value| == (GridEndHour - GridStartHour) * MinutesPerHour / d
              && forall r :: 0 <= r < |grid.value| ==>
                   && |grid.value[r]| == DaysPerWeek
                   && forall c :: 0 <= c < DaysPerWeek ==>
                        var row := RowAt(d, r);
                        && 0 <= row.hour < HoursPerDay && 0 <= row.minute < MinutesPerHour
                        && grid.value[r][c] == MakeCell(appts, selected, d, weekStart, now, c, row)
  {
    var service := FindService(services, selected);
    if service.None? {
      return None;
    }
    var d := service.value.durationMinutes;
    var rows := GridRows(now, d);
    forall k | 0 <= k < |rows|
      ensures 0 <= rows[k].hour < HoursPerDay && 0 <= rows[k].minute < MinutesPerHour
    {
      RowsFitTheDay(d, k);
    }
    var table := seq(|rows|, r requires 0 <= r < |rows| =>
                   seq(DaysPerWeek, c => MakeCell(appts, selected, d, weekStart, now, c, rows[r])));
    grid := Some(table);
  }

  /** Every cell of the grid: on day `weekStart + c`, at its row's time,
      `d` long, ending by 17:00, with the status rule applied. */
  lemma CellsOfTheGrid(appts: seq<ListedAppointment>, selected: ServiceId, d: int,
                       weekStart: Instant, now: Instant, c: int, k: nat)
    requires d > 0 && k < (GridEndHour - GridStartHour) * MinutesPerHour / d && 0 <= c < DaysPerWeek
    ensures 0 <= RowAt(d, k).hour < HoursPerDay && 0 <= RowAt(d, k).minute < MinutesPerHour &&
            var cell := MakeCell(appts, selected, d, weekStart, now, c, RowAt(d, k));
            && DayStart(cell.startTime) == DayStart(weekStart) + c * MinutesPerDay
            && cell.startTime - DayStart(cell.startTime) == GridStartHour * MinutesPerHour + k * d
            && cell.endTime == cell.startTime + d
            && cell.endTime <= DayStart(cell.startTime) + GridEndHour * MinutesPerHour
            && (cell.status == Past <==> now > cell.startTime)
            && (cell.status == Booked <==>
                  (now <= cell.startTime &&
                   exists a :: a in appts && a.service == Some(selected) &&
                               a.startTime == cell.startTime && a.endTime == cell.endTime))
  {
    RowsFitTheDay(d, k);
    var row := RowAt(d, k);
    var start := CellStart(weekStart, c, row);
    var booked := IsSlotBooked(appts, selected, start, start + d);
    assert MakeCell(appts, selected, d, weekStart, now, c, row) ==
           Cell(start, start + d, CellStatus(now, start, booked));
  }

  /** The backend offers ⌈480 / d⌉ slots, the grid ⌊480 / d⌋ rows: the two
      agree exactly when `d` divides 480, and otherwise the grid has one
      row fewer. */
  lemma GridHasOneRowFewerUnlessDivides(d: int)
    requires d > 0
    ensures var n := (GridEndHour - GridStartHour) * MinutesPerHour;
            CeilDiv(n, d) == (if n % d == 0 then n / d else n / d + 1)
  {
    CeilIsFloorPlusRemainder((GridEndHour - GridStartHour) * MinutesPerHour, d);
  }

  // ---------------------------------------------------------------------
  // Page state.

  datatype SelectedSlot = SelectedSlot(startTime: Instant, endTime: Instant)

  /** The body posted to /api/appointments. */
  datatype BookingRequest = BookingRequest(
    serviceId: ServiceId,
    customerName: string,
    customerEmail: string,
    startTime: Instant,
    endTime: Instant)

  /** The guard of `handleSubmit` on the values it reads. */
  predicate SubmitGuard(slot: Option<SelectedSlot>, name: string, email: string)
  {
    slot.Some? && Trim(name) != [] && Trim(email) != []
  }

  class AdminPage {
    var weekStart: Instant
    var selectedServiceId: ServiceId
    var appointments: seq<ListedAppointment>
    var selectedSlot: Option<SelectedSlot>
    var name: string
    var email: string
    var success: bool

    /** The page as first rendered; `monday` is `dayjs().weekday(1)`. */
    constructor (monday: Instant, selectedServiceId: ServiceId)
      ensures weekStart == monday && this.selectedServiceId == selectedServiceId
      ensures appointments == [] && selectedSlot == None && name == "" && email == "" && !success
    {
      weekStart := monday;
      this.selectedServiceId := selectedServiceId;
      appointments := [];
      selectedSlot := None;
      name := "";
      email := "";
      success := false;
    }

    /** The guard at the top of `handleSubmit`. */
    predicate CanSubmit()
      reads this
    {
      SubmitGuard(selectedSlot, name, email)
    }

    /** The `onClick` of a cell: only a green cell selects its slot. */
    method ClickCell(cell: Cell)
      modifies this`selectedSlot, this`success
      ensures cell.status == Available ==>
                selectedSlot == Some(SelectedSlot(cell.startTime, cell.endTime)) && !success
      ensures cell.status != Available ==>
                selectedSlot == old(selectedSlot) && success == old(success)
    {
      if cell.status == Available {
        selectedSlot := Some(SelectedSlot(cell.startTime, cell.endTime));
        success := false;
      }
    }

    /** `handleSubmit`: `postOk` is the outcome of the POST; `refetched`
        the appointments the follow-up GET returned, if it did. */
    method HandleSubmit(postOk: bool, refetched: Option<seq<ListedAppointment>>)
      returns (posted: Option<BookingRequest>)
      modifies this`name, this`email, this`selectedSlot, this`success, this`appointments
      ensures posted.Some? <==> old(CanSubmit())
      ensures posted.Some? ==>
                posted.value == BookingRequest(selectedServiceId, old(name), old(email),
                                               old(selectedSlot).value.startTime,
                                               old(selectedSlot).value.endTime)
      ensures posted.Some? && postOk ==>
                && name == "" && email == "" && selectedSlot == None && success
                && appointments == (if refetched.Some? then refetched.value else old(appointments))
      ensures posted.None? || !postOk ==>
                && name == old(name) && email == old(email) && selectedSlot == old(selectedSlot)
                && success == old(success) && appointments == old(appointments)
    {
      if !CanSubmit() {
        return None;
      }
      posted := Some(BookingRequest(selectedServiceId, name, email,
                                    selectedSlot.value.startTime, selectedSlot.value.endTime));
      if !postOk {
        return;
      }
      name := "";
      email := "";
      selectedSlot := None;
      success := true;
      if refetched.Some? {
        appointments := refetched.value;
      }
    }

    /** "← Previous". */
    method PreviousWeek()
      modifies this`weekStart
      ensures weekStart == old(weekStart) - DaysPerWeek * MinutesPerDay
    {
      weekStart := weekStart - DaysPerWeek * MinutesPerDay;
    }

    /** "Next →". */
    method NextWeek()
      modifies this`weekStart
      ensures weekStart == old(weekStart) + DaysPerWeek * MinutesPerDay
    {
      weekStart := weekStart + DaysPerWeek * MinutesPerDay;
    }
  }

  /** A submit posts only with a slot chosen and a name and an email that
      are not all whitespace. */
  lemma SubmitGuardMeansNonBlank(slot: Option<SelectedSlot>, name: string, email: string)
    ensures SubmitGuard(slot, name, email) <==> slot.Some? && !Blank(name) && !Blank(email)
  {
    TrimEmptyIffBlank(name);
    TrimEmptyIffBlank(email);
  }
}
