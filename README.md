# SimpleScheduler booking engine in Dafny

This project models the availability and booking engine of SimpleScheduler. Operators define services, each with a name, a price and a duration. Customers book time slots against a service. The model covers five parts:

- **Backend slot generator and plain availability** (`Availability`). Starting at 09:00 of the requested day, the generator emits slots of the service's duration while the current hour is before 17. The plain listing drops a slot only when a fetched booking of that service starts at exactly the slot's start instant. The smart listing fetches every service's bookings in the same window and hands them to the ranker.
- **Smart ranker** (`SmartScheduler`). A slot scores one point for a same-duration booking that ends where it starts, and one for a same-duration booking that starts where it ends. If any slot scores, only the scoring slots are returned, sorted by descending score with a stable sort. Otherwise every slot is returned with score 0.
- **Booking create path** (`AppointmentController`). A class holds the appointment store and the service catalog. `CreateAppointment` answers InvalidInput, NotFound, SlotUnavailable, SchemaRejected (an empty trimmed name, which the schema's `required` refuses), or appends the booking. It uses the controller's own `$or` conflict filter, which is not true interval overlap.
- **Admin weekly grid** (`AdminAppointments`). This is a second slot loop, whose rows must end by 17:00. Each row has seven day columns. A cell is "booked" only when a booking matches both its start and its end exactly. The cell status is past, then booked, then available. A page class handles clicks, submit and week navigation.
- **Service form** (`ServiceTypes`). Validation runs in order: name, then price, then duration. Unparseable input falls back to 0. A successful submit appends the created service and resets the form.

Supporting modules:

- `Time` treats instants as integer minutes on the local wall clock. The hour of an instant is `(t / 60) % 24`, and the day starts at `t - t % 1440`. There are no time zones and no DST.
- `Text` models JavaScript's `trim`.
- `Arith` holds the division facts behind the slot counts.
- `Records` holds the record shapes from `backend/src/models`.

Quirks of the code that the model keeps:

- **Backend slot count.** The backend loop tests only the start hour, so it emits ⌈480/D⌉ slots, and when D does not divide 480 the last slot ends after 17:00 (`Availability.LastSlotEnd`, `Availability.FortyFiveMinuteDay`). Only the admin grid gives ⌊480/D⌋ rows (`AdminAppointments.GridHasOneRowFewerUnlessDivides`).
- **Plain filter.** The backend removes a slot only when a booking starts at the same instant; a booking that merely overlaps it removes nothing (`Availability.OverlapAloneRemovesNothing`).
- **Create path.** The conflict check is the controller's own `$or` filter, not half-open interval overlap, and the model keeps it as written. `AppointmentController.SourceConflictIsOverlapMinusContainment` shows how the two relate: for well-formed intervals, the filter equals overlap except when the request lies strictly inside an existing booking. That gap can break the no-double-booking invariant (`AppointmentController.ContainedRequestBreaksNoOverlap`). Apart from it, the invariant holds for every accepted request, inverted intervals included (`AppointmentController.AcceptedKeepsNoOverlap`).
- **Fetch window.** It runs from the query instant for 86400 minutes (60 days), not one day. It starts at the query instant, not at midnight. So if the query instant is later than 09:00, earlier bookings on that day are not fetched (`Availability.MorningBookingMissedAtNoon`).
- **Smart path.** The smart listing applies no booked-slot filter. A slot that is already booked is offered again whenever it does not lose out to a scoring slot (`Availability.SmartPathOffersBookedSlot`).
- **Empty name.** The validator trims the customer name but does not require it to be non-empty. The schema's `required` check then makes `Appointment.create` throw after the conflict check, and nothing is stored.

## Model

| member | source | states |
|---|---|---|
| `Records.FindService` | backend/src/controllers/availability.controller.js:33-37 | `Service.findById`: returns a service of the catalog with that id, or nothing exactly when no service has it |
| `Records.StatusCode` | backend/src/controllers/appointment.controller.js:20-42 | Not-found is reported as 404; invalid input and a taken slot are both reported as 400; a document the schema refuses, thrown past `asyncHandler`, as 500 |
| `Availability.GetAvailableSlotsForService` | backend/src/controllers/availability.controller.js:9-20 | The stepping loop, for 1 ≤ D ≤ 420, returns exactly `BackendSlots(date, D)`: ⌈480/D⌉ slots, where slot i runs from 09:00 + i·D to 09:00 + (i+1)·D with duration D |
| `Availability.SlotsAreContiguous` | backend/src/controllers/availability.controller.js:11-16 | The first slot starts at 09:00 of the date's day; every slot has end = start + D and duration D; each slot starts where the previous one ends |
| `Availability.SlotsStartBeforeClosing` | backend/src/controllers/availability.controller.js:13 | Every emitted slot starts on the requested day, with hour below 17 |
| `Availability.LastSlotEnd` | backend/src/controllers/availability.controller.js:13-16 | There are ⌈480/D⌉ slots; the last ends at or after 17:00, and strictly after exactly when D does not divide 480 |
| `Availability.FortyFiveMinuteDay` | backend/src/controllers/availability.controller.js:13-16 | D = 45 gives 11 slots; the last runs 16:30–17:15 |
| `Availability.FetchForService` | backend/src/controllers/availability.controller.js:41-45 | A booking is fetched iff it is stored, has the service's id, starts at or after the query instant, and ends within 86400 minutes of it |
| `Availability.FetchAllServices` | backend/src/controllers/availability.controller.js:76-79 | The same window with no service filter: any stored booking in the window is fetched |
| `Availability.FilterAvailable` | backend/src/controllers/availability.controller.js:47-51 | A slot is kept iff it was generated and no fetched booking starts at its start instant; the same-day test adds nothing; each kept slot keeps its multiplicity; the output is never longer than the input |
| `Availability.FilterIsSubsequence` | backend/src/controllers/availability.controller.js:47-51 | The filtered listing is an order-preserving subsequence of the generated slots |
| `Availability.OverlapAloneRemovesNothing` | backend/src/controllers/availability.controller.js:47-51 | Adding a booking that starts at no slot's start leaves the listing unchanged, however it overlaps |
| `Availability.GetAvailability` | backend/src/controllers/availability.controller.js:22-55 | Invalid query gives InvalidInput; unknown service gives NotFound and no slots; otherwise the result is the generated slots filtered against the service's fetched bookings |
| `Availability.GetSmartAvailability` | backend/src/controllers/availability.controller.js:57-84 | Invalid query gives InvalidInput; unknown service gives NotFound; otherwise the result is the ranker applied to the generated slots and to every service's bookings in the window |
| `Availability.BookedSlotNotOffered` | backend/src/controllers/availability.controller.js:39-51 | When the query instant is a midnight, a stored booking of generated slot i for that service keeps slot i out of the plain listing |
| `Availability.SmartPathOffersBookedSlot` | backend/src/controllers/availability.controller.js:74-81 | With a 60-minute service and a stored 09:00–09:30 booking of it, no slot scores, so the smart listing returns all 8 slots, led by the booked 09:00 slot with score 0 |
| `Availability.MorningBookingMissedAtNoon` | backend/src/controllers/availability.controller.js:41-45 | Queried at 12:00, a booking of the 09:00 slot is outside the fetch window, so the 09:00 slot is offered again |
| `SmartScheduler.Find` | backend/src/utils/smartScheduler.js:10-22 | `find`: nothing iff no element satisfies the test; otherwise the first element that does |
| `SmartScheduler.Score` | backend/src/utils/smartScheduler.js:7-25 | 0 ≤ score ≤ 2; score > 0 iff some booking with end = slot start, or with start = slot end, has the slot's duration; score 2 iff both kinds exist |
| `SmartScheduler.ScoreSlots` | backend/src/utils/smartScheduler.js:6-28 | The `map` keeps one scored slot per input slot, in order, with the slot unchanged and a score equal to that slot's `Score` (so in 0..2, positive iff an adjacent same-duration booking exists, 2 iff both kinds exist) |
| `SmartScheduler.Positive` | backend/src/utils/smartScheduler.js:30 | Keeps exactly the slots with score > 0, with their multiplicities |
| `SmartScheduler.Insert` | backend/src/utils/smartScheduler.js:31 | Insertion step of the sort: adds one element and keeps non-increasing score order |
| `SmartScheduler.SortByScoreDesc` | backend/src/utils/smartScheduler.js:31 | `sort((a, b) => b.score - a.score)` returns a permutation in non-increasing score order |
| `SmartScheduler.SortIsStable` | backend/src/utils/smartScheduler.js:31 | The sort is stable: for every score, the elements with that score keep their input order |
| `SmartScheduler.GetSmartAvailabilityUtil` | backend/src/utils/smartScheduler.js:5-32 | The output is never longer than the input |
| `SmartScheduler.RankedAreScoredInputs` | backend/src/utils/smartScheduler.js:27 | Every output element is an input slot with its fields unchanged and only its score added |
| `SmartScheduler.RankingWhenSomeSlotScores` | backend/src/utils/smartScheduler.js:30-31 | If some slot scores > 0, the output is exactly the positive-score slots, in non-increasing score order, with ties in input order |
| `SmartScheduler.RankingFallback` | backend/src/utils/smartScheduler.js:31 | If no slot scores, the output is every input slot, in input order, with score 0 |
| `SmartScheduler.SortedDeterminedByScoreClasses` | backend/src/utils/smartScheduler.js:31 | Two score-sorted sequences whose per-score subsequences agree are equal, so the ranking properties above fix the output |
| `SmartScheduler.AdjacencyExample` | backend/src/utils/smartScheduler.js:5-32 | 30-minute slots at 10:00 and 14:00 and a 30-minute booking ending at 10:00: only the 10:00 slot is returned, with score 1 |
| `AppointmentController.FindConflict` | backend/src/controllers/appointment.controller.js:32-38 | `findOne`: finds nothing iff no stored booking of the same service starts in [start, end) or ends in (start, end] of the request |
| `AppointmentController.AppointmentStore.CreateAppointment` | backend/src/controllers/appointment.controller.js:19-53 | Invalid input yields InvalidInput, an unknown service NotFound, a filter match SlotUnavailable, and then an empty (trimmed) customer name SchemaRejected; in those four cases the store is unchanged. Otherwise the result is Ok with the request, and the store is the old store plus that one booking. Neither start < end nor the duration is checked |
| `AppointmentController.SourceConflictIsOverlapMinusContainment` | backend/src/controllers/appointment.controller.js:32-38 | For well-formed intervals of one service: the filter matches iff the intervals overlap (half-open) and the request is not strictly inside the existing booking |
| `AppointmentController.SourceConflictImpliesOverlap` | backend/src/controllers/appointment.controller.js:34-37 | For well-formed intervals, a filter match implies half-open overlap |
| `AppointmentController.ContainmentNotFlagged` | backend/src/controllers/appointment.controller.js:34-37 | A request strictly inside a stored booking matches neither half of the filter |
| `AppointmentController.OtherServicesNeverConflict` | backend/src/controllers/appointment.controller.js:33 | Bookings of other services never produce a conflict |
| `AppointmentController.ConflictDependsOnServiceOnly` | backend/src/controllers/appointment.controller.js:33 | Appending other services' bookings to the store does not change what the conflict lookup finds |
| `AppointmentController.IdenticalRequestConflicts` | backend/src/controllers/appointment.controller.js:35 | A well-formed interval already booked for the same service is rejected the second time |
| `AppointmentController.InvertedRequestNeverConflicts` | backend/src/controllers/appointment.controller.js:16-17 | A request with end ≤ start matches no stored booking, so it is accepted for a known service when its name is not empty |
| `AppointmentController.AcceptedKeepsNoOverlap` | backend/src/controllers/appointment.controller.js:32-50 | The same-service no-overlap invariant survives every accepted request that no same-service booking strictly contains, whether or not its start is before its end |
| `AppointmentController.ContainedRequestBreaksNoOverlap` | backend/src/controllers/appointment.controller.js:32-50 | Counterexample: store 10:00–12:00, request 10:30–11:00 of the same service; the filter finds nothing, and the resulting store has an overlap |
| `AdminAppointments.GridRows` | frontend/src/pages/AdminAppointments.tsx:131-143 | The `current + D ≤ 17:00` loop yields ⌊480/D⌋ rows, row k being the time 09:00 + k·D |
| `AdminAppointments.RowsFitTheDay` | frontend/src/pages/AdminAppointments.tsx:128-143 | Rows start at 09:00 and advance by D; every row's slot ends at or before 17:00; hour and minute are in range |
| `AdminAppointments.GridHasOneRowFewerUnlessDivides` | frontend/src/pages/AdminAppointments.tsx:137-143 | The backend's ⌈480/D⌉ equals the grid's ⌊480/D⌋ when D divides 480 and is one more otherwise |
| `AdminAppointments.CellStart` | frontend/src/pages/AdminAppointments.tsx:149 | The cell start lies on day `weekStart + d days`, at the row's hour and minute |
| `AdminAppointments.MakeCell` | frontend/src/pages/AdminAppointments.tsx:148-155 | The cell starts on day `weekStart + day` at the row's time of day, ends D minutes later, and gets the status rule applied with the exact start-and-end match test |
| `AdminAppointments.OfService` | frontend/src/pages/AdminAppointments.tsx:79 | Keeps exactly the appointments whose populated service is the selected one |
| `AdminAppointments.IsSlotBooked` | frontend/src/pages/AdminAppointments.tsx:77-85 | True iff some appointment of the selected service has the same start and the same end; partial overlaps are not flagged |
| `AdminAppointments.CellStatus` | frontend/src/pages/AdminAppointments.tsx:152-155 | Past iff now is after the start; Booked iff not past and booked; Available iff neither; past wins over booked |
| `AdminAppointments.RenderTimeGrid` | frontend/src/pages/AdminAppointments.tsx:123-182 | No grid iff the selected service is missing; otherwise ⌊480/D⌋ rows of 7 cells, where cell (r, c) is the cell of day c at row r |
| `AdminAppointments.CellsOfTheGrid` | frontend/src/pages/AdminAppointments.tsx:148-155 | The cell of column c and row k starts on day `weekStart + c`, at 09:00 + k·D; it ends D later and by 17:00; its status follows the status rule with the exact-match booked test |
| `AdminAppointments.AdminPage.constructor` | frontend/src/pages/AdminAppointments.tsx:27-34 | The page starts on the given Monday with the given service, with no appointments, no selected slot, empty name and email, and no success flag |
| `AdminAppointments.AdminPage.ClickCell` | frontend/src/pages/AdminAppointments.tsx:170-174 | Only a green cell selects its slot and clears `success`; other clicks change nothing |
| `AdminAppointments.AdminPage.HandleSubmit` | frontend/src/pages/AdminAppointments.tsx:92-121 | Posts iff a slot is selected and the trimmed name and email are non-empty. The untrimmed fields are sent. On success the form and slot are cleared, `success` is set, and the refetched list, if any, replaces the old one. Otherwise nothing changes |
| `AdminAppointments.SubmitGuardMeansNonBlank` | frontend/src/pages/AdminAppointments.tsx:94 | The guard holds iff a slot is selected and neither name nor email is all whitespace |
| `AdminAppointments.AdminPage.PreviousWeek` | frontend/src/pages/AdminAppointments.tsx:204 | `weekStart` moves back by exactly 7 days |
| `AdminAppointments.AdminPage.NextWeek` | frontend/src/pages/AdminAppointments.tsx:208 | `weekStart` moves forward by exactly 7 days |
| `Text.TrimEmptyIffBlank` | frontend/src/components/ServiceTypes.tsx:39 | `s.trim()` is empty iff every character of `s` is JavaScript whitespace |
| `ServiceTypes.Validate` | frontend/src/components/ServiceTypes.tsx:39-41 | A blank name is rejected first; then price ≤ 0; then duration ≤ 0; only a form passing all three validates |
| `ServiceTypes.UnparseableInputRejected` | frontend/src/components/ServiceTypes.tsx:101-114 | Unparseable price or duration input becomes 0, which the validator then rejects |
| `ServiceTypes.ServiceTypesPage.constructor` | frontend/src/components/ServiceTypes.tsx:12-17 | The page holds the fetched services and the initial form: empty name, price 0, duration 0 |
| `ServiceTypes.ServiceTypesPage.SetName` | frontend/src/components/ServiceTypes.tsx:89 | Only the name changes, to the typed text |
| `ServiceTypes.ServiceTypesPage.SetPriceInput` | frontend/src/components/ServiceTypes.tsx:101 | Only the price changes, to the parsed value or 0 |
| `ServiceTypes.ServiceTypesPage.SetDurationInput` | frontend/src/components/ServiceTypes.tsx:113-115 | Only the duration changes, to the parsed value or 0 |
| `ServiceTypes.ServiceTypesPage.HandleSubmit` | frontend/src/components/ServiceTypes.tsx:36-62 | Posts the form iff it validates, with the validator's message otherwise. On an ok response the list becomes the old list plus the new service at the end, and the form is reset to the initial form. On a non-ok response or an exception, the list and form are unchanged |

## Left out

- Express routing, the express-validator chains (ISO-8601 parsing, Mongo id checks, trimming, escaping and email normalisation), rate limiting, helmet and morgan: these are library calls. A failed chain is modelled as the boolean input `invalidInput` / `invalidQuery`, which yields InvalidInput.
- Mongoose persistence: the queries are modelled as in-memory sequence filters. `populate` and `getAllAppointments` are not modelled. Mongo `_id`s are modelled only as the `nat` service ids. The `createdAt` and `updatedAt` timestamps are not modelled. Store outages are not modelled: a query that throws because the database fails reaches the error handler as a 500, and the model has no such path. The one input-dependent throw, the schema refusing an empty customer name, is modelled as SchemaRejected. The other `required` fields cannot be empty once their validators pass.
- The race between `findOne` and `create` is concurrency, which the model does not cover. `CreateAppointment` runs check-then-insert as a single step, so the model does not show double bookings from concurrent requests.
- Process bootstrap, seeding and the service-create handler. Only the rule that a service's duration is at least 1 is used, as a precondition.
- Availability.GetAvailableSlotsForService: requires D ≤ 420 as well as D ≥ 1. 420 is a safe bound, not the exact limit. Durations from 421 to 449 and from 480 to 899 still stop on the same day. Durations from 450 to 479, and from 900 up, can step past midnight while the hour test still holds, and when D is a multiple of 1440 the loop never stops. The endpoints carry the same bound on the found service's duration.
- AdminAppointments.GridRows: requires D > 0, because for D ≤ 0 the source loop never ends. The backend never creates such services.
- Time zones, DST and the parsing inside `Date`, dayjs and date-fns are not modelled. Instants are whole minutes, so dayjs's minute-level `isSame` becomes equality and seconds and milliseconds disappear.
- `parseFloat` and `parseInt` themselves are not modelled. Their result is an input: `None` stands for NaN. Prices are `real`s and are only compared with 0.
- React rendering, colours, labels, toasts, scrolling and focus, and axios/fetch wiring are not modelled. This includes the `useEffect` fetches and the service selector. All of `frontend/src/pages/BookAppointment.tsx` and `frontend/src/App.tsx` is left out as UI wiring.
- The `from`/`to` parameters that the admin page sends with its appointment fetch are ignored by the backend, and the model ignores them too. The page's appointment list is an input.
