# Barbershop scheduling and record-keeping, modelled in Dafny

The application is a single-page barbershop booking app. A client picks a day
and gets the bookable half-hour start times. A barber keeps the day's agenda,
a catalog of services, weekly opening hours and daily statistics. All state
lives in five cells: the signed-in user, the barber accounts, the services,
the appointments and the business hours.

This project models that logic and proves its properties. The modules follow
the program's files:

- `Types` (types.dfy): the records of `types.ts`. Prices are integer cents, times of day are "HH:MM" strings.
- `Seqs` (seqs.dfy): the `filter`, `find` and `map` the views use. `find` is built on a search for the index of the first match.
- `Ordering` (ordering.dfy): code-point string order and a sort by time or by (date, time).
- `Clock` (clock.dfy): "HH:MM" strings and minutes since midnight (`ParseTime` and `FormatTime`), and the proof that string order on such times matches chronological order.
- `Seed` (seed.dfy): the default catalog and week of `constants.ts`.
- `ClientDashboard` (client_dashboard.dfy): the availability engine and the client's booking and history.
  - `Slots` is the specification of the available times.
  - `AvailableSlots`/`WalkGrid` is the source's imperative 30-minute loop, proved equal to it.
- `BarberDashboard` (barber_dashboard.dfy): the agenda, the statistics, service create/edit/delete, the hours editor and the actions offered on an appointment.
- `AuthView` (auth_view.dfy): the sign-in decision tree. It either rejects the form, logs in, or registers a barber and then logs that barber in.
- `AppState` (app.dfy): the class `App`.
  - Its fields are the five state cells.
  - Its methods are the state handlers and the screens' submissions wired to them.
  - The ghost predicate `Valid` (unique barber phones, unique service ids, seven weekday rows) holds initially. Every operation that cannot break it keeps it.

Some inputs become parameters:

- the weekday of the selected date;
- "today";
- the random ids the app generates.

Two behaviours of the code are modelled as written:

- Creating or editing a service does not validate its fields. The checks exist only as HTML form attributes.
- The barber's "Cancelar" deletes the record instead of writing the cancelled status (`App.tsx:106`).

Two consequences of the code are proved rather than corrected:

- A client signs in under a new id every time. When no appointment carries the new id, the client's history is empty, whatever was booked earlier under the same name and phone (`ClientLoginStartsWithEmptyHistory`). The model does not state that a generated id is new.
- Nothing keeps a day's end after its start (`InvertedHoursOfferNothing`).

## Model

| member | source | states |
|---|---|---|
| Seed.InitialServices | constants.ts:4-10 | five services with pairwise distinct ids, positive prices and positive durations |
| Seed.InitialBusinessHours | constants.ts:12-20 | seven rows with row i for weekday i; only Sunday is closed; every start and end is a well-formed "HH:MM" time with start before end |
| Clock.ParseTime | src/views/ClientDashboard.tsx:39-40 | reading a row's start or end: a readable time is five characters, two digits, ':' and two digits, and reads as a minute below 1440; anything else is unreadable |
| Clock.FormatTime | src/views/ClientDashboard.tsx:43 | the rendering of a minute of day is exactly five characters with ':' at the middle position (ParseFormat shows it reads back as that minute) |
| Clock.ParseFormat | src/views/ClientDashboard.tsx:39-43 | rendering a minute of day as "HH:MM" and reading it back gives the same minute |
| Clock.FormatParse | src/views/ClientDashboard.tsx:39-43 | every string that reads as a time is the canonical zero-padded rendering of that time |
| Clock.FormatMonotone | src/views/BarberDashboard.tsx:33-37 | an earlier minute renders to a string that is strictly smaller in string order |
| Clock.TimeOrderIsChronological | src/views/BarberDashboard.tsx:33-37 | on well-formed times, string order holds exactly when chronological order holds (both directions) |
| ClientDashboard.HoursFor | src/views/ClientDashboard.tsx:34 | no row iff no row has the weekday; otherwise the first row with that weekday |
| ClientDashboard.Taken | src/views/ClientDashboard.tsx:45-49 | cancelled appointments hold no slot: a list of only cancelled records leaves every date and time free (TakenByLiveRecord gives the full iff with a live record) |
| ClientDashboard.TakenByLiveRecord | src/views/ClientDashboard.tsx:45-49 | a date and time are taken iff some non-cancelled appointment of the list is on that date at that time |
| ClientDashboard.TakenAppend | src/views/ClientDashboard.tsx:45-49 | one more appointment takes its own date and time unless cancelled, and nothing else |
| ClientDashboard.FreeFrom | src/views/ClientDashboard.tsx:38-55 | the recursive form of the loop: every produced minute lies between the current minute and end, end excluded |
| ClientDashboard.Slots | src/views/ClientDashboard.tsx:31-58 | the available times, as minutes, all lie within the day |
| ClientDashboard.AvailableSlots | src/views/ClientDashboard.tsx:31-58 | the looping computation returns exactly the "HH:MM" renderings of Slots: empty for a missing or closed row or unreadable hours, otherwise the loop result |
| ClientDashboard.WalkGrid | src/views/ClientDashboard.tsx:38-57 | the while loop from start in 30-minute steps, strictly before end, keeps exactly the untaken grid points, in order |
| ClientDashboard.FreeFromMembership | src/views/ClientDashboard.tsx:39-54 | a minute is produced exactly when it is start + 30k below end and not held (both directions) |
| ClientDashboard.FreeFromIncreasing | src/views/ClientDashboard.tsx:38-57 | the produced minutes are strictly increasing, so contain no duplicates |
| ClientDashboard.NoSlotsWhenClosed | src/views/ClientDashboard.tsx:32-36 | no row for the weekday, or a closed first row for it, gives no slots |
| ClientDashboard.SlotsOfOpenDay | src/views/ClientDashboard.tsx:38-57 | on an open day with start s and end e: t is offered iff s <= t < e, t - s is a multiple of 30 and no live appointment holds t on the date; slots increase; a free s is the first slot; s >= e gives none |
| ClientDashboard.SlotsIncreasing | src/views/ClientDashboard.tsx:38-57 | for every input, the slots are strictly increasing |
| ClientDashboard.SlotStringsAscending | src/views/ClientDashboard.tsx:38-57 | every offered string reads back as its slot minute, and the strings are in strictly increasing string order |
| ClientDashboard.OpenMondayScenario | src/views/ClientDashboard.tsx:31-58 | an open day from 09:00 to 11:00 with no bookings offers 09:00, 09:30, 10:00 and 10:30 |
| Ordering.SortBy | src/views/BarberDashboard.tsx:36 | the sort used by the agenda and the client history (ClientDashboard.tsx line 28): a permutation of its input, sorted by the chosen order |
| ClientDashboard.Book | src/views/ClientDashboard.tsx:60-72 | no booking iff the service or the time is empty; otherwise a pending appointment with the user's id, name and phone and the chosen service, date and time, the service id unchecked |
| ClientDashboard.BookedSlotIsTaken | src/views/ClientDashboard.tsx:45-53 | after a booking is added, its time is no longer offered on its date and every other offered minute still is (both directions) |
| ClientDashboard.MyAppointments | src/views/ClientDashboard.tsx:25-29 | exactly the appointments of the client, each as often as in the list, sorted by (date, time) |
| ClientDashboard.BookingShowsInHistory | src/views/ClientDashboard.tsx:25-29 | a booking appears in its client's history |
| ClientDashboard.FreshClientHasNoHistory | src/views/ClientDashboard.tsx:25-29 | a client id with no bookings has an empty history |
| BarberDashboard.Agenda | src/views/BarberDashboard.tsx:33-37 | exactly the appointments dated filterDate, each as often as in the list, sorted by time |
| BarberDashboard.AgendaIsChronological | src/views/BarberDashboard.tsx:33-37 | on well-formed times an earlier agenda entry is no later in minutes than a later one |
| BarberDashboard.PriceOf | src/views/BarberDashboard.tsx:47 | an id in the catalog costs the price of the first service with that id; a missing id costs 0; a nonzero price is that of a service with the id |
| BarberDashboard.Stats | src/views/BarberDashboard.tsx:39-49 | the completed count never exceeds the total count |
| BarberDashboard.StatsOfNothing | src/views/BarberDashboard.tsx:39-49 | with no appointments all three counters are zero |
| BarberDashboard.StatsAppend | src/views/BarberDashboard.tsx:39-49 | adding one appointment: +1 to the total if dated today; +1 to completed and its service's price (0 if missing) to revenue if it is also completed |
| BarberDashboard.RevenueAppend | src/views/BarberDashboard.tsx:45-47 | the revenue of a list with one more appointment grows by that appointment's price |
| BarberDashboard.Revenue | src/views/BarberDashboard.tsx:45-47 | the sum of the prices of a list starts at 0 and, with non-negative prices, is never negative |
| BarberDashboard.EditService | src/views/BarberDashboard.tsx:64-65 | the length and every id are kept; records with the edited id take the form's fields; all others stay in place |
| BarberDashboard.CreateService | src/views/BarberDashboard.tsx:66-71 | exactly one record, built from the form with the new id, is appended; the existing records are a prefix |
| BarberDashboard.SaveService | src/views/BarberDashboard.tsx:62-72 | while editing: the length is kept, records with the edited id take the form's fields, others stay in place; otherwise the old catalog plus one service built from the form with the new id |
| BarberDashboard.EditServiceIdempotent | src/views/BarberDashboard.tsx:64-65 | saving the same edit twice equals saving it once |
| BarberDashboard.EditServiceIsFound | src/views/BarberDashboard.tsx:64-65 | after editing an existing id, looking the id up gives the form's fields |
| BarberDashboard.SaveServiceKeepsIdsDistinct | src/views/BarberDashboard.tsx:62-74 | saving keeps service ids unique when the id of a new service is fresh |
| BarberDashboard.ConfirmDeleteService | src/views/BarberDashboard.tsx:76-81 | with nothing selected the catalog is unchanged; otherwise a service survives iff it was there and has another id, and each survivor is kept exactly as many times as it occurred |
| BarberDashboard.DeleteServiceKeepsOrder | src/views/BarberDashboard.tsx:78 | for every id, deletion distributes over concatenation, so the survivors keep their order |
| BarberDashboard.DeleteAbsentServiceIsNoOp | src/views/BarberDashboard.tsx:78 | deleting an id no service carries changes nothing |
| BarberDashboard.DeletedServiceEarnsNothing | src/views/BarberDashboard.tsx:76-81 | after deletion, appointments for that service are priced 0 |
| BarberDashboard.DeleteServiceKeepsIdsDistinct | src/views/BarberDashboard.tsx:76-81 | deletion keeps service ids unique |
| BarberDashboard.ToggleDay | src/views/BarberDashboard.tsx:83-85 | rows of that day flip isOpen and keep start and end; other rows and the length are unchanged |
| BarberDashboard.ToggleDayTwice | src/views/BarberDashboard.tsx:83-85 | toggling a day twice restores the hours |
| BarberDashboard.ToggleDayKeepsWeek | src/views/BarberDashboard.tsx:83-85 | toggling keeps seven rows with row i for weekday i |
| BarberDashboard.ChangeTime | src/views/BarberDashboard.tsx:87-89 | rows of that day get the named field replaced and nothing else; other rows and the length are unchanged |
| BarberDashboard.ChangeTimeKeepsWeek | src/views/BarberDashboard.tsx:87-89 | a time change keeps seven rows with row i for weekday i |
| BarberDashboard.InvertedHoursOfferNothing | src/views/BarberDashboard.tsx:87-89 | nothing prevents setting an end at or before the start, and that day then offers no slots |
| BarberDashboard.OfferedActions | src/views/BarberDashboard.tsx:164-177 | actions are offered iff the appointment is pending, and then both conclude and cancel are offered |
| AuthView.Submit | src/views/AuthView.tsx:19-64 | barber registration: missing field gives a missing-fields error, a taken phone a phone-taken error, success iff neither, with a barber user holding the form's name, phone and password; barber login: success iff some account has equal phone and password, and then the first such account, else a credentials error; client: error iff name or phone is empty, else a fresh client user with no password |
| AuthView.RegistryAfter | src/views/AuthView.tsx:40 | the old registry is a prefix; only a registration adds exactly one account, the registered user |
| AuthView.SessionAfter | src/views/AuthView.tsx:41-57 | a rejection keeps the session; a login or registration makes the outcome's user the signed-in user |
| AuthView.RejectionChangesNothing | src/views/AuthView.tsx:25-56 | a rejected submission leaves the registry and the signed-in user as they were |
| AuthView.SubmitKeepsPhonesDistinct | src/views/AuthView.tsx:29-40 | if barber phones are distinct before a submission, they are distinct after it |
| AuthView.LoginFindsTheAccount | src/views/AuthView.tsx:44-46 | with distinct phones, a login with an account's phone and password signs in that very account |
| AppState.WithStatus | App.tsx:56-58 | the length is kept; records with the id get the new status; other records' status is kept; no other field of any record changes |
| AppState.WithoutAppointment | App.tsx:60-62 | a record survives iff it was there and has another id, with its multiplicity kept |
| AppState.WithoutAppointmentKeepsOrder | App.tsx:60-62 | deletion distributes over concatenation, so the survivors keep their order |
| AppState.DeleteUndoesAdd | App.tsx:52-62 | adding an appointment with a fresh id and then deleting it restores the list |
| AppState.WithStatusRestores | App.tsx:56-58 | setting a unique id's status and then setting it back restores the list |
| AppState.ConcludeKeepsSlots | App.tsx:56-58 | concluding never frees a slot; unless a cancelled record carries the id, it takes none |
| AppState.DeletionNeverTakesSlot | App.tsx:60-62 | deleting appointments never makes a free slot taken |
| AppState.CancelReleasesSlot | App.tsx:60-62 | when every live holder of a slot has the deleted id, the slot is free afterwards |
| AppState.PerformAction | App.tsx:105-106 | concluding is the status update to completed; cancelling is the deletion of the id, so no record with the id is left and every other record is kept, in order and multiplicity |
| AppState.ActionsNeverWriteCancelled | src/views/BarberDashboard.tsx:164-177 | every cancelled record after an action was already present before it |
| AppState.ClientLoginStartsWithEmptyHistory | src/views/AuthView.tsx:53-62 | a client signs in under the fresh id, and when no appointment carries that id the history is empty |
| AppState.App.constructor | App.tsx:10-33 | with nothing stored: no user, no accounts, the default catalog, no appointments and the default week; Valid holds |
| AppState.App.Logout | App.tsx:44-46 | the user is cleared; the four collections are unchanged |
| AppState.App.Login | App.tsx:66-70 | the user is set; the four collections are unchanged |
| AppState.App.RegisterBarber | App.tsx:48-50 | exactly one account is appended; everything else is unchanged |
| AppState.App.AddAppointment | App.tsx:52-54 | the appointment is appended; everything else is unchanged |
| AppState.App.UpdateAppointmentStatus | App.tsx:56-58 | appointments become WithStatus of the old list; everything else is unchanged |
| AppState.App.DeleteAppointment | App.tsx:60-62 | appointments become WithoutAppointment of the old list; everything else is unchanged |
| AppState.App.UpdateServices | App.tsx:107 | the catalog is replaced; everything else is unchanged |
| AppState.App.UpdateHours | App.tsx:108 | the hours are replaced; everything else is unchanged |
| AppState.App.SubmitAuth | src/views/AuthView.tsx:19-64 | the outcome is Submit's; only a registration appends the account, then signs it in; a rejection changes nothing; Valid is kept |
| AppState.App.BookAppointment | src/views/ClientDashboard.tsx:60-72 | the booking is Book's for the signed-in user; it is appended when made; nothing else changes |
| AppState.App.BarberAction | src/views/BarberDashboard.tsx:164-177 | on a pending appointment, conclude sets it completed and cancel deletes it; Valid is kept |
| AppState.App.SaveService | src/views/BarberDashboard.tsx:62-74 | the catalog becomes SaveService's result; Valid is kept when a new service's id is fresh |
| AppState.App.DeleteService | src/views/BarberDashboard.tsx:76-81 | the catalog becomes ConfirmDeleteService's result; appointments are untouched; Valid is kept |
| AppState.App.ToggleDay | src/views/BarberDashboard.tsx:83-85 | the hours become ToggleDay's result; Valid is kept |
| AppState.App.ChangeTime | src/views/BarberDashboard.tsx:87-89 | the hours become ChangeTime's result; Valid is kept |

## Left out

- Persistence: the reads and writes of the browser's local storage and the JSON encoding are external I/O. Only the initial state with nothing stored is modelled.
- Id generation: random ids are method parameters (`freshId`). Their freshness is a precondition where it matters.
- Calendar machinery:
  - Finding the weekday of a date is not modelled; the weekday is a parameter. A value outside 0..6 stands for an unreadable date.
  - "Today" is a parameter.
  - Time zones and daylight-saving shifts are not modelled.
- Time strings: only zero-padded "HH:MM" with hours below 24 is read as a time.
  - A start or end the date parser would reject yields no slots, as in the source, where an invalid date makes the loop condition false.
  - Non-padded forms and "24:00", which the date parser might read, are treated as unreadable.
- ClientDashboard.MyAppointments: orders by (date, time) in code-point string order rather than by the parsed timestamp. The two agree for well-formed dates and times, but that is proved only for the time part (`Clock.TimeOrderIsChronological`). Malformed dates, whose timestamp is NaN, are not modelled.
- BarberDashboard.Agenda: uses code-point order in place of the locale-aware string comparison. The two agree on zero-padded "HH:MM" strings. They can differ on unpadded ones such as "1:00" against "10:00", because locale collation puts ':' before digits.
- Sort stability: the insertion sort is stable, but the contracts state only sortedness and the permutation.
- Prices are integer cents. Floating-point prices, number parsing and price formatting are not modelled. Revenue is an exact integer sum.
- Presentation: rendering, tabs, modals, form wiring, alerts and the HTML `required` attributes are not modelled. As a result the service form's fields are not validated, matching the handler code.
- The build configuration (vite.config.ts) holds no logic.
- Concurrency and double booking: the app is single-threaded. A booking does not re-check that its time is still offered, and neither does the model.
- The service's duration does not affect the slots. Each slot is a 30-minute grid point, as in the source.
