# Hotel manager add-on: a Dafny model

This project models the business core of the `hotel_manager` add-on, a hotel
application built on an ORM framework. It covers these parts:

- **Rooms** (`rooms.dfy`, module `Rooms`): the room table, its three states,
  the capacity computed from the beds, and the reference drawn from a
  sequence on create.
- **Reservations** (`reservations.dfy`, module `Reservations`):
  - the four-state workflow buttons;
  - nights, room price, the services total and the total price;
  - the form validators (dates, age, room availability, NPS score);
  - the service-line synchronisation that runs after every write;
  - invoice assembly, with its configuration errors;
  - `button_done`, which rolls back when invoicing fails;
  - the NPS wizard;
  - the periodic sweep that reconciles room states with the reservation list.
- **Guests** (`guests.dfy`, module `Guests`):
  - `create`'s e-mail, phone, guardian and contact rules. The two regular
    expressions are modelled exactly as Python's `re.match` applies them.
  - The de-duplicated display name.
  - The CRM metrics: previous reservations, average spend, annual stay
    frequency, remaining healthspan and customer lifetime value.
- **Daily analysis** (`analysis.dfy`, module `Analysis`):
  - the per-day snapshot: repeated-guest percentage, revenue totals, RevPAR,
    ADR, loyal guests, occupancy rate and TRevPAR, each ratio guarded
    against a zero denominator;
  - the backfill loop that creates a snapshot for every day it walks that
    has none.
- **Dashboard** (`dashboard.dfy`, module `Dashboard`): the reducers of the
  dashboard component: the NPS tally, the per-service occurrence counts and
  the room-state chart.

`base.dfy` holds the shared vocabulary: options, the validation errors,
ordinal dates, decimal rendering and the "New" sequence rule. `services.dfy`
holds the service record.

Record tables that the source updates in place are classes whose fields
are sequences of records: `Rooms.RoomTable`, `Reservations.ReservationTable`
and `Analysis.AnalysisTable`. A reservation refers to its room and guest by
their position in the other table; a reference that is missing or out of
range means "no record", as an empty Many2one does. Services are different:
a reservation and its service lines hold copies of the service records, and
a guest line holds a copy of the guest's age (see "## Left out").

Every write to a reservation is followed by the service-line
synchronisation, as the overridden `write` does. This is why each
state-changing method of `ReservationTable` ends in `AfterWrite`.

A raised `ValidationError` is modelled by the `Check` or `Result` the
operation returns, and the state is left unchanged. Values the source takes
from its environment are parameters: the current date, the next value of an
`ir.sequence`, the record sets a search returns.

Dates are proleptic ordinals, so `check_out - check_in` is a day count, and
`Base.YearOf` gives the calendar year. Amounts of money are integers.
Ratios are exact reals.

Two places where the model follows the code rather than its description:

- The backfill ends at the check-out of the reservation with the *latest
  check-in*, not at the latest check-out (see Findings).
- The occupancy rate divides the number of reserved rooms by the number of
  *available* rooms, so it can exceed 100.

## Model

| member | source | states |
|---|---|---|
| Base.NatToString | odoo/addons/hotel_manager/models/hotel_guest.py:126 | The counter appended to a repeated name is rendered as a nonempty string of decimal digits, one digit long exactly below 10. |
| Base.NatToStringInjective | odoo/addons/hotel_manager/models/hotel_guest.py:126 | Distinct counters give distinct renderings. |
| Base.SequenceOrNew | odoo/addons/hotel_manager/models/hotel_room.py:39-40 | A reference the caller supplies, other than "New", is kept. Otherwise the sequence's next value is used, and "New" is kept when the sequence yields nothing. |
| Rooms.CountState | odoo/addons/hotel_manager/static/src/components/dashboard.js:189-191 | The number of rooms in a state never exceeds the number of rooms. |
| Rooms.CountStatePartition | odoo/addons/hotel_manager/models/hotel_room.py:17-21 | The three room states partition the rooms: their counts add up to the number of rooms. |
| Rooms.CountStateAfterWrite | odoo/addons/hotel_manager/models/hotel_room.py:28-30 | A state write moves exactly one room from the count of its old state to the count of its new state; the other counts are unchanged. |
| Rooms.RoomTable.Create | odoo/addons/hotel_manager/models/hotel_room.py:37-41 | Appends one room and leaves the others unchanged. Its number follows the sequence rule, its capacity is single beds plus twice the double beds, and it starts available unless a state is given. |
| Rooms.RoomTable.WriteBeds | odoo/addons/hotel_manager/models/hotel_room.py:32-35 | Writing the beds recomputes that room's capacity as single plus twice double. Every other room is unchanged. Every stored capacity stays current. |
| Rooms.RoomTable.SetState | odoo/addons/hotel_manager/models/hotel_room.py:28-30 | Writes one room's state. Every other field and room is unchanged. |
| Rooms.RoomTable.ButtonFree | odoo/addons/hotel_manager/models/hotel_room.py:28 | The room becomes available, from any state; nothing else changes. |
| Rooms.RoomTable.ButtonReserve | odoo/addons/hotel_manager/models/hotel_room.py:29 | The room becomes reserved, from any state; nothing else changes. |
| Rooms.RoomTable.ButtonMaintenance | odoo/addons/hotel_manager/models/hotel_room.py:30 | The room goes under maintenance, from any state; nothing else changes. |
| Reservations.ServicesTotalAppend | odoo/addons/hotel_manager/models/reservation.py:153-159 | The services total of a concatenation of lines is the sum of the two totals. |
| Reservations.LineTotal | odoo/addons/hotel_manager/models/reservation.py:259-262 | A line of one unit costs its unit price; a line with no negative quantity or price has no negative total. |
| Reservations.Nights | odoo/addons/hotel_manager/models/reservation.py:126-131 | Check-in plus the nights is the check-out; the nights are positive exactly when check-out comes after check-in. |
| Reservations.TotalPriceBranches | odoo/addons/hotel_manager/models/reservation.py:143-151 | The single-branch total equals the source's three branches: room price times nights plus the services total when all three are nonzero, room price times nights when only the services total is 0, and 0 when the room price or the nights are 0. |
| Reservations.RoomOf | odoo/addons/hotel_manager/models/reservation.py:73-75 | A room reference designates a room exactly when it is set and within the table, and then it is that room. |
| Reservations.NumAdults | odoo/addons/hotel_manager/models/reservation.py:114-118 | No more adults than guest lines, and all of them exactly when every guest is 18 or over. |
| Reservations.NumKids | odoo/addons/hotel_manager/models/reservation.py:120-124 | No more kids than guest lines, and none exactly when every guest is 18 or over. |
| Reservations.AdultsAndKidsPartitionGuests | odoo/addons/hotel_manager/models/reservation.py:114-124 | Every guest line is counted either as an adult (18 or over) or as a kid, never both. |
| Reservations.CheckDates | odoo/addons/hotel_manager/models/reservation.py:161-166 | Passes exactly when check-out follows check-in and check-in is not before today. A date order violation is reported first; a past check-in is reported only for correctly ordered dates. |
| Reservations.CheckAge | odoo/addons/hotel_manager/models/reservation.py:138-141 | Passes exactly for an age of 0 (unset) or 18 and over; otherwise raises the under-age error. |
| Reservations.CheckNpsScore | odoo/addons/hotel_manager/models/reservation.py:230-234 | Passes exactly for scores 0 to 10 inclusive; otherwise raises the range error. |
| Reservations.CheckRoomAvailability | odoo/addons/hotel_manager/models/reservation.py:168-175 | A room under maintenance or already reserved is refused with its own error, and the rooms are unchanged. An available room passes and is marked reserved; nothing else changes. |
| Reservations.AddedLines | odoo/addons/hotel_manager/models/reservation.py:211-219 | The synchronisation adds no more lines than there are services, each a new line (quantity 1 at the service's price) for one of the reservation's services that has no line yet. |
| Reservations.AddedLinesDistinct | odoo/addons/hotel_manager/models/reservation.py:211-219 | Over services with distinct ids, no two added lines are for the same service: at most one line per service. |
| Reservations.AfterWrite | odoo/addons/hotel_manager/models/reservation.py:188-193 | A write changes only the service lines: the old lines are kept as a prefix, and afterwards every service of the reservation has a line. |
| Reservations.SyncCoversServices | odoo/addons/hotel_manager/models/reservation.py:211-219 | After synchronisation every service of the reservation has at least one line. |
| Reservations.AddedLinesNoneWhenCovered | odoo/addons/hotel_manager/models/reservation.py:212-213 | When every service already has a line, nothing is added. |
| Reservations.SyncIdempotent | odoo/addons/hotel_manager/models/reservation.py:211-219 | Synchronising twice is the same as synchronising once. |
| Reservations.SyncFromNoLines | odoo/addons/hotel_manager/models/reservation.py:195-202 | A new reservation gets exactly one line per service, in service order. |
| Reservations.SyncStep | odoo/addons/hotel_manager/models/reservation.py:212-219 | One iteration of the line loop: extending the processed services by one appends a line exactly when that service has none yet. |
| Reservations.FirstServiceLineError | odoo/addons/hotel_manager/models/reservation.py:89-97 | No error exactly when every service line's service has a product and an income account. |
| Reservations.FirstServiceLineErrorAt | odoo/addons/hotel_manager/models/reservation.py:89-97 | When all earlier lines are billable, the error reported is that of the first unbillable line. A missing product is reported before a missing income account. |
| Reservations.ServiceInvoiceLines | odoo/addons/hotel_manager/models/reservation.py:99-103 | One invoice line per service line. |
| Reservations.RoomInvoiceLines | odoo/addons/hotel_manager/models/reservation.py:74-87 | Without a room there is no room line and no error. A room without a product raises the missing-product error, and a room with a product but no income account raises the missing-account error; otherwise there is exactly one room line, for the nights at the room's price with its product and account. |
| Reservations.InvoiceFor | odoo/addons/hotel_manager/models/reservation.py:68-112 | A second invoice is refused. Otherwise an invoice is built exactly when the room (if any) has a product and an income account and every service line's service has both. The invoice is dated today. The error reported is the room's error if it has one, and otherwise the first unbillable service line's error. |
| Reservations.InvoiceLinesFollowServiceLines | odoo/addons/hotel_manager/models/reservation.py:82-103 | A created invoice has one room line, billing the nights at the room's price and product, when a room is set. Then it has exactly one line per service line, in order, with that line's quantity and unit price, no product, and its service's income account. The room line carries the room's income account. |
| Reservations.ServiceInvoiceAmount | odoo/addons/hotel_manager/models/reservation.py:99-103 | The service invoice lines amount to the reservation's services total. |
| Reservations.InvoiceAmountMatchesTotalPrice | odoo/addons/hotel_manager/models/reservation.py:143-151 | A created invoice bills room price times nights plus the services total. For a nonzero room price and number of nights, that is the reservation's total price. |
| Reservations.SweptState | odoo/addons/hotel_manager/models/reservation.py:178-186 | A room under maintenance stays so. Otherwise the last reservation naming the room decides its state: available if that reservation checked out before today, reserved if not. A room no reservation names keeps its state. |
| Reservations.SweepOrderMatters | odoo/addons/hotel_manager/models/reservation.py:179-186 | The same two reservations leave a room reserved in one list order and available in the other. |
| Reservations.LastCheckOutNone | odoo/addons/hotel_manager/models/reservation.py:177-186 | No check-out decides a room exactly when no reservation names it. |
| Reservations.LastCheckOutIsLast | odoo/addons/hotel_manager/models/reservation.py:177-186 | The deciding check-out is that of a reservation naming the room that no later reservation in the list names. |
| Reservations.ReservationTable.SyncServiceLines | odoo/addons/hotel_manager/models/reservation.py:211-219 | The loop leaves exactly the reservation's synchronised lines. No other reservation changes. |
| Reservations.ReservationTable.Create | odoo/addons/hotel_manager/models/reservation.py:195-209 | Appends a draft reservation whose reference follows the sequence rule. It has no score, feedback or invoice, one guest line for its guest, and one line per service. |
| Reservations.ReservationTable.WriteState | odoo/addons/hotel_manager/models/reservation.py:188-193 | A state write changes only that reservation's state and then re-synchronises its lines. |
| Reservations.ReservationTable.ButtonConfirm | odoo/addons/hotel_manager/models/reservation.py:51 | Confirms the reservation from any state; nothing else changes apart from the line synchronisation. |
| Reservations.ReservationTable.ButtonDraft | odoo/addons/hotel_manager/models/reservation.py:52 | Resets the reservation to draft from any state; nothing else changes apart from the line synchronisation. |
| Reservations.ReservationTable.ButtonCancel | odoo/addons/hotel_manager/models/reservation.py:53 | Cancels the reservation from any state; nothing else changes apart from the line synchronisation. |
| Reservations.ReservationTable.WriteServices | odoo/addons/hotel_manager/models/reservation.py:188-193 | Writing the services keeps every existing line and adds lines only for new services. |
| Reservations.ReservationTable.CreateInvoice | odoo/addons/hotel_manager/models/reservation.py:68-112 | Passes exactly when an invoice can be built. Then it links that invoice; apart from the line synchronisation that this write triggers, nothing else changes. On an error the table is unchanged. |
| Reservations.ReservationTable.ButtonDone | odoo/addons/hotel_manager/models/reservation.py:54-56 | On success the reservation is done and invoiced. When invoicing fails, the error is returned and the table is left exactly as before (the transaction rolls back). |
| Reservations.ReservationTable.SubmitNps | odoo/addons/hotel_manager/models/reservation.py:236-243 | An out-of-range score is refused and nothing changes. Otherwise score and feedback are written to that reservation alone. |
| Reservations.ReservationTable.MakeRoomsAvailable | odoo/addons/hotel_manager/models/reservation.py:177-186 | Every room ends in its swept state: rooms under maintenance are untouched, and the last reservation naming a room decides the others. Only room states change. |
| Guests.EmailCharset | odoo/addons/hotel_manager/models/hotel_guest.py:174-177 | An accepted address holds exactly one `@`, and apart from it only lower-case letters, digits, `_`, `-` and `.`, save one final newline. |
| Guests.EmailAcceptsTrailingNewline | odoo/addons/hotel_manager/models/hotel_guest.py:175 | Because `$` also matches before a final newline, an accepted address with a newline appended is accepted too. |
| Guests.PhoneMatchesIsRegex | odoo/addons/hotel_manager/models/hotel_guest.py:179-182 | The phone check accepts exactly the strings with a prefix of an optional `+` followed by 10 to 12 digits. |
| Guests.PhoneIgnoresSuffix | odoo/addons/hotel_manager/models/hotel_guest.py:180 | The match is anchored only at the start, so any text after an accepted number is accepted. |
| Guests.PhoneMatches | odoo/addons/hotel_manager/models/hotel_guest.py:179-182 | An accepted number has at least ten characters. |
| Guests.ValidateCreate | odoo/addons/hotel_manager/models/hotel_guest.py:172-190 | Passes exactly when the e-mail and phone (when given) match, a nonzero age under 18 has a guardian, and an age from 18 on has an e-mail, phone or NIN. Each error is raised exactly in its own case, in the source's order. |
| Guests.Holders | odoo/addons/hotel_manager/models/hotel_guest.py:122-124 | The count of other guests holding the name is 0 exactly when no other guest holds it. |
| Guests.CandidateInjective | odoo/addons/hotel_manager/models/hotel_guest.py:126 | Names with distinct counters are distinct. |
| Guests.ComputeName | odoo/addons/hotel_manager/models/hotel_guest.py:114-128 | The name is empty exactly when a name part is missing. A base name no other guest holds is used as it is; a held one gets the counter of its holders plus one. |
| Guests.NamesakeCollides | odoo/addons/hotel_manager/models/hotel_guest.py:121-126 | For every set of other names, the as-written name is taken exactly when the bare name is taken and so is the name with the counter its holders give. |
| Guests.ThirdNamesakeCollides | odoo/addons/hotel_manager/models/hotel_guest.py:121-126 | A third guest called "A B" is given "A B (2)", the name the second one already holds. |
| Guests.FirstFreeCounter | odoo/addons/hotel_manager/models/hotel_guest.py:126 | The counter found is no smaller than where the search starts, and its name is not taken. |
| Guests.UniqueName | odoo/addons/hotel_manager/models/hotel_guest.py:114-128 | The corrected name is empty exactly when a name part is missing and otherwise no other guest's name. It agrees with the as-written name whenever that one is free. |
| Guests.Stays | odoo/addons/hotel_manager/models/hotel_guest.py:32-38 | Holds only the guest's reservations that are neither draft nor cancelled. |
| Guests.StaysComplete | odoo/addons/hotel_manager/models/hotel_guest.py:32-38 | Every counted reservation of the guest appears as often as in the store, and no other reservation appears. |
| Guests.PreviousReservations | odoo/addons/hotel_manager/models/hotel_guest.py:130-133 | Never more than the reservations in the store. |
| Guests.NoPreviousReservations | odoo/addons/hotel_manager/models/hotel_guest.py:130-133 | The count is 0 exactly when no reservation in the store is a counted one of the guest. |
| Guests.Average | odoo/addons/hotel_manager/models/hotel_guest.py:139-141 | The division guarded against no items: 0 for none, otherwise the result times the number of items equals the sum. |
| Guests.AverageSpendPerStay | odoo/addons/hotel_manager/models/hotel_guest.py:135-141 | 0 without counted reservations; otherwise the average of their total prices, whose bounds the next two rows state. |
| Guests.AverageSpendBetween | odoo/addons/hotel_manager/models/hotel_guest.py:135-141 | The average spend lies between the smallest and largest total price of the counted reservations. |
| Guests.AverageSpendNonNegative | odoo/addons/hotel_manager/models/hotel_guest.py:135-141 | When no counted reservation has a negative total price, the average spend is not negative, with or without reservations. |
| Guests.CountInYear | odoo/addons/hotel_manager/models/hotel_guest.py:148 | Counts no more reservations than it is given. |
| Guests.CountInYearZero | odoo/addons/hotel_manager/models/hotel_guest.py:148 | The count is 0 exactly when no reservation checks in during the year. |
| Guests.CountInYearAll | odoo/addons/hotel_manager/models/hotel_guest.py:148 | Every reservation is counted exactly when all of them check in during the year. |
| Guests.AnnualStayFrequency | odoo/addons/hotel_manager/models/hotel_guest.py:144-149 | The stays checking in this calendar year never exceed the counted reservations. |
| Guests.NoStayThisYear | odoo/addons/hotel_manager/models/hotel_guest.py:144-149 | annual_stay_frequency is 0 exactly when the guest has no reservation, other than a draft or cancelled one, that checks in during the current year. |
| Guests.RemainingHealthspan | odoo/addons/hotel_manager/models/hotel_guest.py:161-169 | Never negative. 0 for an unset age or from 75 on; otherwise age plus healthspan is 75. It is at most 75 for any nonnegative age. |
| Guests.Clv | odoo/addons/hotel_manager/models/hotel_guest.py:151-158 | The lifetime value is 0 without counted reservations, without a stay this year, for an unset age, or from age 75 on. |
| Guests.ClvNonNegative | odoo/addons/hotel_manager/models/hotel_guest.py:151-158 | The lifetime value is never negative when no counted reservation has a negative total price. |
| Analysis.OldestCheckIn | odoo/addons/hotel_manager/models/hotel_analysis.py:120-125 | Today without reservations; otherwise a check-in of some reservation that no check-in precedes. |
| Analysis.Window | odoo/addons/hotel_manager/models/hotel_analysis.py:45-49 | Holds only reservations checked in no earlier than the oldest check-in and checked out by the snapshot date. |
| Analysis.WindowComplete | odoo/addons/hotel_manager/models/hotel_analysis.py:45-49 | Every matching reservation, in any state, appears as often as in the store, and nothing else appears. |
| Analysis.RevenueWindow | odoo/addons/hotel_manager/models/hotel_analysis.py:69-75 | Holds only such reservations that are neither draft nor cancelled, and no more than the full window. |
| Analysis.RevenueWindowComplete | odoo/addons/hotel_manager/models/hotel_analysis.py:69-75 | Every matching reservation that is neither draft nor cancelled appears as often as in the store, and nothing else appears. |
| Analysis.GuestSet | odoo/addons/hotel_manager/models/hotel_analysis.py:51 | Holds every guest of the window, and never more guests than reservations. |
| Analysis.GuestSetExact | odoo/addons/hotel_manager/models/hotel_analysis.py:51 | The guest set is exactly the set of guests the reservations name. |
| Analysis.LoyalCount | odoo/addons/hotel_manager/models/hotel_analysis.py:103-106 | The loyal guests never outnumber the guests. |
| Analysis.LoyalCountZero | odoo/addons/hotel_manager/models/hotel_analysis.py:103-106 | loyal_guests is 0 exactly when no guest has the loyalty flag set. |
| Analysis.LoyalCountAll | odoo/addons/hotel_manager/models/hotel_analysis.py:103-106 | loyal_guests equals the number of guests exactly when every guest has the loyalty flag set. |
| Analysis.SafeDiv | odoo/addons/hotel_manager/models/hotel_analysis.py:84-87 | 0 for a zero denominator; otherwise the exact quotient. |
| Analysis.RepeatedGuestPercentage | odoo/addons/hotel_manager/models/hotel_analysis.py:42-55 | Distinct guests over reservations, times 100, for a nonempty window; 0 for an empty one; always between 0 and 100. |
| Analysis.OccupancyRate | odoo/addons/hotel_manager/models/hotel_analysis.py:108-118 | 0 without available rooms; otherwise it times the available rooms equals 100 times the reserved rooms. |
| Analysis.Measure | odoo/addons/hotel_manager/models/hotel_analysis.py:57-118 | A snapshot keeps the totals it is given. RevPAR, TRevPAR, occupancy and ADR each satisfy their defining ratio, or are 0 when the denominator is 0. |
| Analysis.SnapshotFor | odoo/addons/hotel_manager/models/hotel_analysis.py:142-152 | A created snapshot carries its date and the available-room count. Its revenues are the sums over the counted window, every ratio law holds, the repeated-guest percentage is that of the full window, and the loyal count is all loyal guests. |
| Analysis.RoomRevenueIncludesServices | odoo/addons/hotel_manager/models/hotel_analysis.py:57-78 | Room revenue already includes the services totals, so TRevPAR's numerator counts services twice. |
| Analysis.OccupancyCanExceedHundred | odoo/addons/hotel_manager/models/hotel_analysis.py:108-118 | Two reserved rooms and one available room give an occupancy rate of 200. |
| Analysis.LatestCheckInIndex | odoo/addons/hotel_manager/models/hotel_analysis.py:130-135 | The last reservation of the check-in ordering: no check-in is later, and no later position has the same check-in. |
| Analysis.BackfillEnd | odoo/addons/hotel_manager/models/hotel_analysis.py:130-135 | The end is the check-out of a reservation whose check-in no other check-in follows. |
| Analysis.BackfillEndMissesLongStays | odoo/addons/hotel_manager/models/hotel_analysis.py:130-135 | A long stay (10 to 100) followed by a later short one (20 to 25) ends the backfill at day 25, leaving days 26 to 100 without snapshots. |
| Analysis.LatestCheckOut | odoo/addons/hotel_manager/models/hotel_analysis.py:135 | The latest check-out of any reservation. |
| Analysis.FullSpanCoversStays | odoo/addons/hotel_manager/models/hotel_analysis.py:127-154 | Backfilling up to the latest check-out gives every day of every stay a snapshot. That end is never before the as-written one. |
| Analysis.MissingDays | odoo/addons/hotel_manager/models/hotel_analysis.py:137-143 | Exactly the days of the span without a snapshot, in increasing order; none for an empty span. |
| Analysis.BackfillStep | odoo/addons/hotel_manager/models/hotel_analysis.py:139-154 | One loop iteration: snapshots added earlier are dated before the current day, so its presence check sees only the original records. |
| Analysis.BackfillCoversSpan | odoo/addons/hotel_manager/models/hotel_analysis.py:137-154 | After the backfill every day of the span has a snapshot. |
| Analysis.BackfillAddsOnlyMissing | odoo/addons/hotel_manager/models/hotel_analysis.py:139-152 | A day gets a new snapshot exactly when it lies in the span and had none. |
| Analysis.BackfillIdempotent | odoo/addons/hotel_manager/models/hotel_analysis.py:139-152 | A second backfill over the same span creates nothing. |
| Analysis.BackfillFromEmpty | odoo/addons/hotel_manager/models/hotel_analysis.py:137-154 | On an empty table the backfill creates one snapshot per day of the span. |
| Analysis.AnalysisTable.Backfill | odoo/addons/hotel_manager/models/hotel_analysis.py:137-154 | The day walk appends, in day order, the snapshot of each missing day of the span. Existing snapshots are kept unchanged. |
| Analysis.AnalysisTable.UpdateAnalysisData | odoo/addons/hotel_manager/models/hotel_analysis.py:127-154 | Without reservations nothing changes. Otherwise the span from the oldest check-in to the backfill end is backfilled. |
| Dashboard.BucketOf | odoo/addons/hotel_manager/static/src/components/dashboard.js:109-117 | Score -1 has no bucket. Otherwise promoters are exactly scores from 9, detractors exactly scores below 7, and neutrals the rest. |
| Dashboard.CountBucket | odoo/addons/hotel_manager/static/src/components/dashboard.js:108-119 | A bucket never counts more reservations than there are. |
| Dashboard.Scored | odoo/addons/hotel_manager/static/src/components/dashboard.js:120 | The scored reservations never outnumber the reservations. |
| Dashboard.BucketsPartitionScored | odoo/addons/hotel_manager/static/src/components/dashboard.js:108-120 | Every scored reservation lands in exactly one bucket: the three counts add up to the scored reservations. |
| Dashboard.TallyNps | odoo/addons/hotel_manager/static/src/components/dashboard.js:108-120 | The reduce yields each bucket's count, and the feedback total is the number of scored reservations. |
| Dashboard.Occurrences | odoo/addons/hotel_manager/static/src/components/dashboard.js:155-161 | A service occurs in no more reservations than there are. |
| Dashboard.CountServiceOccurrences | odoo/addons/hotel_manager/static/src/components/dashboard.js:150-164 | The map has a key for exactly each service id, holding the number of reservations that include it. |
| Dashboard.RoomChart | odoo/addons/hotel_manager/static/src/components/dashboard.js:189-198 | The chart as written: the bar labelled Reserved holds the available count, the bar labelled Free the reserved count, the third bar the under-maintenance count; together all rooms. |
| Dashboard.RoomChartSwapsLabels | odoo/addons/hotel_manager/static/src/components/dashboard.js:193-198 | For every set of rooms, the bars labelled Reserved and Free show their own state's count exactly when the available and reserved counts are equal; the third bar is right. |
| Dashboard.RoomChartOneFreeRoom | odoo/addons/hotel_manager/static/src/components/dashboard.js:193-198 | With one available room, the bar labelled Reserved shows 1 and the bar labelled Free shows 0. |
| Dashboard.LabelledRoomChart | odoo/addons/hotel_manager/static/src/components/dashboard.js:189-198 | Every bar shows the count of the state its label names. The three labels are distinct and the bars add up to the number of rooms. |

## Left out

- The loyalty classifier (`update_loyalty_status`, the unpickling shim): it loads a pickled estimator from a file and scores guests in floating point. The model takes each guest's loyalty flag as stored.
- The `act_window` dictionaries returned by `button_done` and the NPS wizard: these are view actions. `SubmitNps` takes the reservation's position, not the `active_id` read from the request context.
- `_onchange_country_id` and the address fields: a view-domain helper with no effect on stored data.
- The ORM itself is not modelled (search domains, ordering, record rules, `account.move` creation, `ir.sequence`). The next sequence value and the current date are parameters. An invoice is represented by its date and lines.
- `Analysis.LatestCheckInIndex`: a search ordered by check-in may order tied check-ins either way. The model takes the last of them in store order.
- The domains `('state', 'in', ('available'))` (odoo/addons/hotel_manager/models/hotel_analysis.py:76) and `('state', 'in', ('reserved'))` (odoo/addons/hotel_manager/models/hotel_analysis.py:113) pass a bare string where `in` expects a collection. What the framework does with such a term depends on its version. The model assumes it selects the rooms in that one state.
- The `price_unit` of a service line is a related field. The model fixes it at the service's price when the line is created, so a later change to a service's price is not propagated.
- Reservations.ServiceLine: the line holds a copy of its service, taken when the line is created. The source reads the service's name, product and income account live through `service_id` when it builds the invoice (odoo/addons/hotel_manager/models/reservation.py:91-97). A later change to a service that already has a line is therefore not seen by Reservations.InvoiceFor or Reservations.ReservationTable.CreateInvoice. For example, an income account added to a service after its line was created still yields the missing-account error in the model.
- Reservations.GuestLine: the line holds a copy of the guest's age. The source reads `guest_id.age` each time it recomputes the adult and kid counts (odoo/addons/hotel_manager/models/reservation.py:117 and :123). A later change to a guest's age is therefore not seen by Reservations.NumAdults or Reservations.NumKids.
- The unset-date branches of `_compute_nights` and `_compute_total_price`: both dates are required fields, so a stored reservation always has them. `CheckDates` keeps them optional because it runs on an unsaved form.
- The `not reservation.exists()` test of the sweep: it cannot hold for a record returned by `search`.
- Floating-point rounding: amounts are integers and ratios are exact reals. The dashboard's `toFixed`, number formatting, percentage rounding and NaN display are not modelled. Nor is its second multiplication of the occupancy rate by 100.
- The dashboard's data fetching and the luxon day filters (today's check-ins, check-outs and stays): these are I/O and calendar display. Which label the service chart puts next to which count is not modelled either.
- Concurrency between overlapping runs of the backfill or the sweep: each operation is modelled as one atomic transaction.
- The additional-services model (`add_services.py`) is the `Services.Service` record, with no behaviour of its own.
- Guests.AverageSpendPerStay: its own contract states only the case without reservations; the quotient law is stated on Guests.Average, which it applies, and its bounds by Guests.AverageSpendBetween and Guests.AverageSpendNonNegative, because a product law stated directly on it made the solver unstable.
- Base.YearOf: no contract of its own; it follows the 400/100/4/1-year decomposition of Python's `date.year`, which is library code, not the add-on's.
- Rooms.Capacity: no contract of its own beyond its formula; the room rows state that the stored capacity follows it.
- Guests.EmailMatches: no contract of its own; what it accepts is stated by Guests.EmailCharset and Guests.EmailAcceptsTrailingNewline.
- Base.NEW: the placeholder reference is the untranslated "New"; the source compares against `_('New')`, which is translated into the user's language, so in another language the placeholder is a different string and an explicit "New" is kept as given.
- Guests.RemainingHealthspan: the bound of 75 is stated only for nonnegative ages, because the age field accepts a negative age, which yields more than 75.

## Findings

| source | as written | input that shows it | evidently intended | confidence | as-written member | corrected member |
|---|---|---|---|---|---|---|
| odoo/addons/hotel_manager/models/hotel_guest.py:121-126 | The counter is the number of other guests holding the bare name, plus one | guests "A B" and "A B (2)" exist and a third "A B" is created: it is named "A B (2)" again | A counter that skips names already taken, so display names stay distinct | not executed | Guests.ThirdNamesakeCollides | Guests.UniqueName |
| odoo/addons/hotel_manager/models/hotel_analysis.py:130-135 | The backfill ends at the check-out of the reservation with the latest check-in | stays 10 to 100 and 20 to 25: the walk ends at day 25, and days 26 to 100 get no snapshot | Walk up to the latest date any reservation reaches, since the table is meant to hold one snapshot for every day of every stay; the docstring's "newest reservations" can be read either way | not executed | Analysis.BackfillEndMissesLongStays | Analysis.FullSpanCoversStays |
| odoo/addons/hotel_manager/static/src/components/dashboard.js:194-197 | The values are the available, reserved and maintenance counts, under the labels Reserved, Free, Under Maintenance | any rooms whose available and reserved counts differ, such as one available room: the bar labelled Reserved shows 1 and Free shows 0 | Each count under the label of its own state | not executed | Dashboard.RoomChartSwapsLabels | Dashboard.LabelledRoomChart |
