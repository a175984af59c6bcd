/** Reservations (hotel.reservation): the four-state workflow, the derived
    nights and prices, invoice assembly, the form validators, the service-line
    synchronisation run after every write, and the periodic sweep that
    reconciles room states with the reservation list. */
module Reservations {
  import opened Base
  import opened Services
  import opened Rooms

  datatype ReservationState = Draft | Confirmed | Done | Cancelled

  /** A service line: `priceUnit` is the service's price when the line is made. */
  datatype ServiceLine = ServiceLine(service: Service, quantity: int, priceUnit: int)

  /** A guest line carries the guest's age (a related field). */
  datatype GuestLine = GuestLine(guest: nat, age: int)

  /** An invoice line; only the room line names a product. */
  datatype InvoiceLine = InvoiceLine(product: Option<nat>, quantity: int, priceUnit: int, account: nat)

  /** The customer invoice, represented by its date and its lines. */
  datatype Invoice = Invoice(date: Date, lines: seq<InvoiceLine>)

  /** A stored reservation. Check-in and check-out are required fields, so a
      stored reservation always has both. `services` is a Many2many: it never
      holds the same service twice (see ReservationTable.Valid). */
  datatype Reservation = Reservation(
    reservId: string,
    guest: nat,
    room: Option<nat>,
    checkIn: Date,
    checkOut: Date,
    services: seq<Service>,
    serviceLines: seq<ServiceLine>,
    guestLines: seq<GuestLine>,
    state: ReservationState,
    npsScore: int,
    feedback: string,
    invoice: Option<Invoice>)

  /** What a caller passes to `create`. */
  datatype ReservationVals = ReservationVals(
    reservId: Option<string>,
    guest: nat,
    room: Option<nat>,
    checkIn: Date,
    checkOut: Date,
    services: seq<Service>)

  /** The NPS score of a reservation no feedback was given for. */
  const NO_SCORE := -1

  // ---------------------------------------------------------------- pricing

  /** The stored total of a service line: quantity times unit price, so a
      single unit costs its price and no negative factor means no negative
      total. */
  function LineTotal(l: ServiceLine): (t: int)
    ensures l.quantity == 1 ==> t == l.priceUnit
    ensures 0 <= l.quantity && 0 <= l.priceUnit ==> 0 <= t
  {
    l.quantity * l.priceUnit
  }

  /** `services_total_price`: the sum of the line totals, 0 without lines. */
  function ServicesTotal(lines: seq<ServiceLine>): int
  {
    if lines == [] then 0 else ServicesTotal(lines[..|lines| - 1]) + LineTotal(lines[|lines| - 1])
  }

  lemma {:induction false} ServicesTotalAppend(a: seq<ServiceLine>, b: seq<ServiceLine>)
    ensures ServicesTotal(a + b) == ServicesTotal(a) + ServicesTotal(b)
    decreases |b|
  {
    if b != [] {
      assert (a + b)[..|a + b| - 1] == a + b[..|b| - 1];
      assert (a + b)[|a + b| - 1] == b[|b| - 1];
      ServicesTotalAppend(a, b[..|b| - 1]);
    } else {
      assert a + b == a;
    }
  }

  /** `nights`: the number of days between check-in and check-out;
      positive exactly when check-out comes after check-in. */
  function Nights(r: Reservation): (n: int)
    ensures r.checkIn + n == r.checkOut
    ensures n > 0 <==> r.checkIn < r.checkOut
  {
    r.checkOut - r.checkIn
  }

  /** The room a reference designates; a missing or dangling reference
      designates none, like an empty recordset. */
  function RoomOf(rooms: seq<Room>, ref: Option<nat>): (o: Option<Room>)
    ensures o.Some? <==> ref.Some? && ref.value < |rooms|
    ensures o.Some? ==> o.value == rooms[ref.value]
  {
    if ref.Some? && ref.value < |rooms| then Some(rooms[ref.value]) else None
  }

  /** `room_id.price`, which reads as 0 without a room. */
  function RoomPrice(r: Reservation, rooms: seq<Room>): int
  {
    match RoomOf(rooms, r.room)
    case None => 0
    case Some(room) => room.price
  }

  /** `total_price`. The source has two branches, with and without a nonzero
      services total; both give room price times nights plus the services
      total, so one branch suffices. It is 0 whenever the room price or the
      number of nights is 0. */
  function TotalPrice(r: Reservation, rooms: seq<Room>): int
  {
    var price, nights := RoomPrice(r, rooms), Nights(r);
    if price != 0 && nights != 0 then price * nights + ServicesTotal(r.serviceLines) else 0
  }

  /** The source's three branches, with a nonzero services total, without
      one, and otherwise 0, give the single-branch total. */
  lemma TotalPriceBranches(r: Reservation, rooms: seq<Room>)
    ensures var price, nights, services := RoomPrice(r, rooms), Nights(r), ServicesTotal(r.serviceLines);
            TotalPrice(r, rooms)
            == if price != 0 && services != 0 && nights != 0 then price * nights + services
               else if price != 0 && nights != 0 then price * nights
               else 0
  {
  }

  /** `num_adults`: guest lines of age 18 or more; all of them exactly when
      every guest is an adult. */
  function NumAdults(lines: seq<GuestLine>): (n: nat)
    ensures n <= |lines|
    ensures n == |lines| <==> forall k :: 0 <= k < |lines| ==> lines[k].age >= 18
  {
    if lines == [] then 0
    else
      var init := lines[..|lines| - 1];
      assert forall k :: 0 <= k < |init| ==> init[k] == lines[k];
      NumAdults(init) + (if lines[|lines| - 1].age >= 18 then 1 else 0)
  }

  /** `num_kids`: guest lines under 18; none exactly when every guest is an
      adult. */
  function NumKids(lines: seq<GuestLine>): (n: nat)
    ensures n <= |lines|
    ensures n == 0 <==> forall k :: 0 <= k < |lines| ==> lines[k].age >= 18
  {
    if lines == [] then 0
    else
      var init := lines[..|lines| - 1];
      assert forall k :: 0 <= k < |init| ==> init[k] == lines[k];
      NumKids(init) + (if lines[|lines| - 1].age < 18 then 1 else 0)
  }

  /** Every guest line is counted exactly once, as an adult or as a kid. */
  lemma {:induction false} AdultsAndKidsPartitionGuests(lines: seq<GuestLine>)
    ensures NumAdults(lines) + NumKids(lines) == |lines|
  {
    if lines != [] {
      AdultsAndKidsPartitionGuests(lines[..|lines| - 1]);
    }
  }

  // ------------------------------------------------------------- validators

  /** `_check_dates`, on the values of an unsaved form: the order of the
      dates is checked first, then that check-in is not in the past. */
  function CheckDates(checkIn: Option<Date>, checkOut: Option<Date>, today: Date): (c: Check)
    ensures (c == Pass) <==> ((checkIn.Some? && checkOut.Some? ==> checkIn.value < checkOut.value)
                              && (checkIn.Some? ==> today <= checkIn.value))
    ensures (c == Fail(CheckOutNotAfterCheckIn)) <==> (checkIn.Some? && checkOut.Some? && checkOut.value <= checkIn.value)
    ensures (c == Fail(CheckInInPast)) <==> (checkIn.Some? && checkIn.value < today
                                             && !(checkOut.Some? && checkOut.value <= checkIn.value))
  {
    if checkIn.Some? && checkOut.Some? && checkOut.value <= checkIn.value then Fail(CheckOutNotAfterCheckIn)
    else if checkIn.Some? && checkIn.value < today then Fail(CheckInInPast)
    else Pass
  }

  /** `_check_age`: a guest with a nonzero age under 18 cannot reserve; an
      age of 0 (unset) is let through. */
  function CheckAge(age: int): (c: Check)
    ensures c == Pass <==> age == 0 || 18 <= age
    ensures c != Pass ==> c == Fail(Underage)
  {
    if age != 0 && age < 18 then Fail(Underage) else Pass
  }

  /** The NPS wizard's constraint: scores from 0 to 10 inclusive. */
  function CheckNpsScore(score: int): (c: Check)
    ensures c == Pass <==> 0 <= score <= 10
    ensures c != Pass ==> c == Fail(NpsOutOfRange)
  {
    if score < 0 || score > 10 then Fail(NpsOutOfRange) else Pass
  }

  /** `_check_room_availability`: a room under maintenance or already
      reserved is refused; otherwise the selected room is marked reserved at
      once, whether or not the reservation is ever saved. */
  method CheckRoomAvailability(t: RoomTable, room: Option<nat>) returns (c: Check)
    requires t.Valid()
    modifies t
    ensures t.Valid()
    ensures var o := RoomOf(old(t.rooms), room);
            && (o.Some? && o.value.state == UnderMaintenance ==>
                  c == Fail(RoomUnderMaintenance) && t.rooms == old(t.rooms))
            && (o.Some? && o.value.state == Reserved ==>
                  c == Fail(RoomAlreadyReserved) && t.rooms == old(t.rooms))
            && (o.Some? && o.value.state == Available ==>
                  c == Pass && t.rooms == old(t.rooms)[room.value := o.value.(state := Reserved)])
            && (o.None? ==> c == Pass && t.rooms == old(t.rooms))
  {
    var o := RoomOf(t.rooms, room);
    if o.Some? && o.value.state == UnderMaintenance {
      return Fail(RoomUnderMaintenance);
    }
    if o.Some? && o.value.state == Reserved {
      return Fail(RoomAlreadyReserved);
    }
    if o.Some? {
      t.ButtonReserve(room.value);
    }
    c := Pass;
  }

  // ------------------------------------------------ service-line synchronisation

  /** The line `_create_services_lines` makes for a service: quantity 1 at
      the service's price. */
  function NewLine(s: Service): ServiceLine
  {
    ServiceLine(s, 1, s.price)
  }

  predicate HasLine(lines: seq<ServiceLine>, id: nat)
  {
    exists k :: 0 <= k < |lines| && lines[k].service.id == id
  }

  predicate DistinctIds(ss: seq<Service>)
  {
    forall a, b :: 0 <= a < b < |ss| ==> ss[a].id != ss[b].id
  }

  /** The lines a synchronisation adds: one new line for each service, in
      order, that has no line yet. */
  function AddedLines(lines: seq<ServiceLine>, ss: seq<Service>): (added: seq<ServiceLine>)
    ensures |added| <= |ss|
    ensures forall m :: 0 <= m < |added| ==>
              added[m] == NewLine(added[m].service) && added[m].service in ss
              && !HasLine(lines, added[m].service.id)
  {
    if ss == [] then []
    else AddedLines(lines, ss[..|ss| - 1])
         + (if HasLine(lines, ss[|ss| - 1].id) then [] else [NewLine(ss[|ss| - 1])])
  }

  /** Over services with distinct ids, a synchronisation adds at most one
      line per service. */
  lemma {:induction false} AddedLinesDistinct(lines: seq<ServiceLine>, ss: seq<Service>)
    requires DistinctIds(ss)
    ensures forall m, n :: 0 <= m < n < |AddedLines(lines, ss)|
              ==> AddedLines(lines, ss)[m].service.id != AddedLines(lines, ss)[n].service.id
  {
    if ss != [] {
      var init := ss[..|ss| - 1];
      var last := ss[|ss| - 1];
      assert DistinctIds(init) by {
        forall a, b | 0 <= a < b < |init| ensures init[a].id != init[b].id {
          assert init[a] == ss[a] && init[b] == ss[b];
        }
      }
      AddedLinesDistinct(lines, init);
      var a := AddedLines(lines, init);
      assert forall x, y :: 0 <= x < y < |a| ==> a[x].service.id != a[y].service.id;
      forall m | 0 <= m < |a| ensures a[m].service.id != last.id {
        var j :| 0 <= j < |init| && init[j] == a[m].service;
        assert ss[j] == init[j];
      }
      var added := AddedLines(lines, ss);
      assert added == a + (if HasLine(lines, last.id) then [] else [NewLine(last)]);
      forall m, n | 0 <= m < n < |added| ensures added[m].service.id != added[n].service.id {
        assert m < |a| && added[m] == a[m];
        if n < |a| {
          assert added[n] == a[n];
          assert a[m].service.id != a[n].service.id;
        } else {
          assert added[n].service == last;
          assert a[m].service.id != last.id;
        }
      }
    }
  }

  /** The service lines after a synchronisation: the old lines, untouched,
      followed by the added ones. */
  function Synced(lines: seq<ServiceLine>, ss: seq<Service>): seq<ServiceLine>
  {
    lines + AddedLines(lines, ss)
  }

  /** A reservation after one of its writes: `write` re-synchronises the
      service lines with the service list. */
  function AfterWrite(r: Reservation): (a: Reservation)
    ensures a.(serviceLines := r.serviceLines) == r
    ensures |r.serviceLines| <= |a.serviceLines| && a.serviceLines[..|r.serviceLines|] == r.serviceLines
    ensures forall k :: 0 <= k < |r.services| ==> HasLine(a.serviceLines, r.services[k].id)
  {
    SyncCoversServices(r.serviceLines, r.services);
    r.(serviceLines := Synced(r.serviceLines, r.services))
  }

  lemma HasLineAppend(a: seq<ServiceLine>, b: seq<ServiceLine>, id: nat)
    ensures HasLine(a + b, id) <==> HasLine(a, id) || HasLine(b, id)
  {
    if HasLine(a + b, id) {
      var k :| 0 <= k < |a + b| && (a + b)[k].service.id == id;
      if k >= |a| {
        assert b[k - |a|].service.id == id;
      }
    }
    if HasLine(b, id) {
      var k :| 0 <= k < |b| && b[k].service.id == id;
      assert (a + b)[|a| + k] == b[k];
    }
    if HasLine(a, id) {
      var k :| 0 <= k < |a| && a[k].service.id == id;
      assert (a + b)[k] == a[k];
    }
  }

  /** After a synchronisation every listed service has at least one line. */
  lemma {:induction false} SyncCoversServices(lines: seq<ServiceLine>, ss: seq<Service>)
    ensures forall k :: 0 <= k < |ss| ==> HasLine(Synced(lines, ss), ss[k].id)
  {
    if ss != [] {
      var init, s := ss[..|ss| - 1], ss[|ss| - 1];
      SyncCoversServices(lines, init);
      var prev := AddedLines(lines, init);
      var tail := if HasLine(lines, s.id) then [] else [NewLine(s)];
      assert AddedLines(lines, ss) == prev + tail;
      assert Synced(lines, ss) == Synced(lines, init) + tail;
      forall k | 0 <= k < |ss|
        ensures HasLine(Synced(lines, ss), ss[k].id)
      {
        HasLineAppend(Synced(lines, init), tail, ss[k].id);
        if k < |ss| - 1 {
          assert ss[k] == init[k];
        } else if !HasLine(lines, s.id) {
          assert tail[0].service.id == s.id;
        } else {
          HasLineAppend(lines, prev, s.id);
        }
      }
    }
  }

  /** Services that already have a line get no new one. */
  lemma {:induction false} AddedLinesNoneWhenCovered(lines: seq<ServiceLine>, ss: seq<Service>)
    requires forall k :: 0 <= k < |ss| ==> HasLine(lines, ss[k].id)
    ensures AddedLines(lines, ss) == []
  {
    if ss != [] {
      AddedLinesNoneWhenCovered(lines, ss[..|ss| - 1]);
      assert HasLine(lines, ss[|ss| - 1].id);
    }
  }

  /** Synchronising twice adds nothing the first run did not. */
  lemma SyncIdempotent(lines: seq<ServiceLine>, ss: seq<Service>)
    ensures Synced(Synced(lines, ss), ss) == Synced(lines, ss)
  {
    SyncCoversServices(lines, ss);
    AddedLinesNoneWhenCovered(Synced(lines, ss), ss);
  }

  /** On a reservation without lines (as at creation), synchronising makes
      exactly one line per service, in order, with quantity 1 and the
      service's price. */
  lemma {:induction false} SyncFromNoLines(ss: seq<Service>)
    ensures |AddedLines([], ss)| == |ss|
    ensures forall k :: 0 <= k < |ss| ==> AddedLines([], ss)[k] == ServiceLine(ss[k], 1, ss[k].price)
  {
    if ss != [] {
      var init := ss[..|ss| - 1];
      SyncFromNoLines(init);
      assert !HasLine([], ss[|ss| - 1].id);
      var added := AddedLines([], ss);
      assert added == AddedLines([], init) + [NewLine(ss[|ss| - 1])];
      forall k | 0 <= k < |ss|
        ensures added[k] == ServiceLine(ss[k], 1, ss[k].price)
      {
        if k < |init| {
          assert added[k] == AddedLines([], init)[k];
          assert init[k] == ss[k];
        }
      }
    }
  }

  /** One step of the synchronisation loop: with distinct services, the
      lines added for the first k services never match service k, so
      checking the growing list is the same as checking the original one. */
  lemma SyncStep(lines: seq<ServiceLine>, ss: seq<Service>, k: nat)
    requires DistinctIds(ss) && k < |ss|
    ensures HasLine(Synced(lines, ss[..k]), ss[k].id) <==> HasLine(lines, ss[k].id)
    ensures AddedLines(lines, ss[..k + 1])
            == AddedLines(lines, ss[..k]) + (if HasLine(lines, ss[k].id) then [] else [NewLine(ss[k])])
  {
    var added := AddedLines(lines, ss[..k]);
    HasLineAppend(lines, added, ss[k].id);
    forall m | 0 <= m < |added|
      ensures added[m].service.id != ss[k].id
    {
      var j :| 0 <= j < k && ss[..k][j] == added[m].service;
      assert ss[j].id != ss[k].id;
    }
    assert ss[..k + 1][..k] == ss[..k];
  }

  // ------------------------------------------------------------------ invoices

  /** A service can be billed when it has a product and an income account. */
  predicate Billable(l: ServiceLine)
  {
    l.service.product.Some? && l.service.incomeAccount.Some?
  }

  /** The error a service line raises at invoicing, if any. */
  function ServiceLineError(l: ServiceLine): Option<Error>
  {
    if l.service.product.None? then Some(ServiceWithoutProduct(l.service.name))
    else if l.service.incomeAccount.None? then Some(ServiceWithoutIncomeAccount(l.service.name))
    else None
  }

  /** The first error raised while walking the service lines in order. */
  function FirstServiceLineError(lines: seq<ServiceLine>): (e: Option<Error>)
    ensures e.None? <==> forall k :: 0 <= k < |lines| ==> Billable(lines[k])
  {
    if lines == [] then None
    else if ServiceLineError(lines[0]).Some? then ServiceLineError(lines[0])
    else FirstServiceLineError(lines[1..])
  }

  /** The error raised is the one of the first unbillable line. */
  lemma {:induction false} FirstServiceLineErrorAt(lines: seq<ServiceLine>, k: nat)
    requires k < |lines| && !Billable(lines[k])
    requires forall j :: 0 <= j < k ==> Billable(lines[j])
    ensures FirstServiceLineError(lines) == ServiceLineError(lines[k])
  {
    if k > 0 {
      assert Billable(lines[0]);
      FirstServiceLineErrorAt(lines[1..], k - 1);
    }
  }

  /** The invoice line of a billable service line: no product, the line's
      quantity and unit price, the service's income account. */
  function ServiceInvoiceLine(l: ServiceLine): InvoiceLine
    requires Billable(l)
  {
    InvoiceLine(None, l.quantity, l.priceUnit, l.service.incomeAccount.value)
  }

  function ServiceInvoiceLines(lines: seq<ServiceLine>): (r: seq<InvoiceLine>)
    requires forall k :: 0 <= k < |lines| ==> Billable(lines[k])
    ensures |r| == |lines|
  {
    seq(|lines|, k requires 0 <= k < |lines| => ServiceInvoiceLine(lines[k]))
  }

  /** The room's invoice line, if the reservation has a room: quantity
      `nights` at the room's price; a room without product or income
      account raises. */
  function RoomInvoiceLines(r: Reservation, rooms: seq<Room>): (res: Result<seq<InvoiceLine>>)
    ensures res.Err? ==> RoomOf(rooms, r.room).Some?
    ensures res.Err? ==>
              var room := RoomOf(rooms, r.room).value;
              res.error == if room.product.None? then RoomWithoutProduct(room.roomNo) else RoomWithoutIncomeAccount(room.roomNo)
    ensures RoomOf(rooms, r.room).None? ==> res == Ok([])
    ensures res.Ok? && RoomOf(rooms, r.room).Some? ==>
              var room := RoomOf(rooms, r.room).value;
              room.product.Some? && room.incomeAccount.Some?
              && res.value == [InvoiceLine(room.product, Nights(r), room.price, room.incomeAccount.value)]
  {
    match RoomOf(rooms, r.room)
    case None => Ok([])
    case Some(room) =>
      if room.product.None? then Err(RoomWithoutProduct(room.roomNo))
      else if room.incomeAccount.None? then Err(RoomWithoutIncomeAccount(room.roomNo))
      else Ok([InvoiceLine(room.product, Nights(r), room.price, room.incomeAccount.value)])
  }

  /** What `create_invoice` produces for a reservation: the "already has an
      invoice" error first, then the room's errors, then the first service
      line's error; otherwise the room line followed by one line per service
      line, in order. */
  function InvoiceFor(r: Reservation, rooms: seq<Room>, today: Date): (res: Result<Invoice>)
    ensures r.invoice.Some? ==> res == Err(AlreadyInvoiced)
    ensures res.Ok? <==> r.invoice.None? && RoomInvoiceLines(r, rooms).Ok?
                         && forall k :: 0 <= k < |r.serviceLines| ==> Billable(r.serviceLines[k])
    ensures res.Ok? ==> res.value.date == today
    ensures r.invoice.None? && RoomInvoiceLines(r, rooms).Err? ==> res == Err(RoomInvoiceLines(r, rooms).error)
    ensures r.invoice.None? && RoomInvoiceLines(r, rooms).Ok? && res.Err? ==>
              FirstServiceLineError(r.serviceLines).Some? && res.error == FirstServiceLineError(r.serviceLines).value
  {
    if r.invoice.Some? then Err(AlreadyInvoiced)
    else match RoomInvoiceLines(r, rooms)
      case Err(e) => Err(e)
      case Ok(roomLines) =>
        match FirstServiceLineError(r.serviceLines)
        case Some(e) => Err(e)
        case None => Ok(Invoice(today, roomLines + ServiceInvoiceLines(r.serviceLines)))
  }

  /** The layout of a created invoice: with a room, line 0 bills `nights`
      at the room price; then line `offset + k` carries the quantity and
      unit price of service line k. */
  lemma InvoiceLinesFollowServiceLines(r: Reservation, rooms: seq<Room>, today: Date)
    requires InvoiceFor(r, rooms, today).Ok?
    ensures var inv := InvoiceFor(r, rooms, today).value;
            var offset := if RoomOf(rooms, r.room).Some? then 1 else 0;
            && |inv.lines| == offset + |r.serviceLines|
            && (offset == 1 ==> inv.lines[0].quantity == Nights(r) && inv.lines[0].priceUnit == RoomPrice(r, rooms)
                                && inv.lines[0].product == RoomOf(rooms, r.room).value.product
                                && inv.lines[0].account == RoomOf(rooms, r.room).value.incomeAccount.value)
            && forall k :: 0 <= k < |r.serviceLines| ==>
                 inv.lines[offset + k].quantity == r.serviceLines[k].quantity
                 && inv.lines[offset + k].priceUnit == r.serviceLines[k].priceUnit
                 && inv.lines[offset + k].product.None?
                 && inv.lines[offset + k].account == r.serviceLines[k].service.incomeAccount.value
  {
  }

  /** The amount an invoice bills. */
  function InvoiceAmount(lines: seq<InvoiceLine>): int
  {
    if lines == [] then 0
    else InvoiceAmount(lines[..|lines| - 1]) + lines[|lines| - 1].quantity * lines[|lines| - 1].priceUnit
  }

  lemma {:induction false} InvoiceAmountAppend(a: seq<InvoiceLine>, b: seq<InvoiceLine>)
    ensures InvoiceAmount(a + b) == InvoiceAmount(a) + InvoiceAmount(b)
    decreases |b|
  {
    if b != [] {
      assert (a + b)[..|a + b| - 1] == a + b[..|b| - 1];
      assert (a + b)[|a + b| - 1] == b[|b| - 1];
      InvoiceAmountAppend(a, b[..|b| - 1]);
    } else {
      assert a + b == a;
    }
  }

  lemma {:induction false} ServiceInvoiceAmount(lines: seq<ServiceLine>)
    requires forall k :: 0 <= k < |lines| ==> Billable(lines[k])
    ensures InvoiceAmount(ServiceInvoiceLines(lines)) == ServicesTotal(lines)
  {
    if lines != [] {
      var init := lines[..|lines| - 1];
      ServiceInvoiceAmount(init);
      assert ServiceInvoiceLines(lines)[..|lines| - 1] == ServiceInvoiceLines(init);
    }
  }

  /** A created invoice bills room price times nights plus the services
      total, which is the reservation's total price whenever the room price
      and the number of nights are nonzero. (When either is 0 the total
      price is 0 but the invoice still bills the services.) */
  lemma InvoiceAmountMatchesTotalPrice(r: Reservation, rooms: seq<Room>, today: Date)
    requires InvoiceFor(r, rooms, today).Ok?
    ensures var amount := InvoiceAmount(InvoiceFor(r, rooms, today).value.lines);
            && amount == RoomPrice(r, rooms) * Nights(r) + ServicesTotal(r.serviceLines)
            && (RoomPrice(r, rooms) != 0 && Nights(r) != 0 ==> amount == TotalPrice(r, rooms))
  {
    var roomLines := RoomInvoiceLines(r, rooms).value;
    InvoiceAmountAppend(roomLines, ServiceInvoiceLines(r.serviceLines));
    ServiceInvoiceAmount(r.serviceLines);
    if roomLines != [] {
      assert roomLines[..0] == [];
    }
  }

  // ------------------------------------------------------------------ the sweep

  /** The check-out date of the last reservation, in list order, naming room `j`. */
  function LastCheckOut(rs: seq<Reservation>, j: nat): Option<Date>
  {
    if rs == [] then None
    else if rs[|rs| - 1].room == Some(j) then Some(rs[|rs| - 1].checkOut)
    else LastCheckOut(rs[..|rs| - 1], j)
  }

  /** No check-out exactly when no reservation names the room. */
  lemma {:induction false} LastCheckOutNone(rs: seq<Reservation>, j: nat)
    ensures LastCheckOut(rs, j).None? <==> forall k :: 0 <= k < |rs| ==> rs[k].room != Some(j)
  {
    if rs != [] && rs[|rs| - 1].room != Some(j) {
      var init := rs[..|rs| - 1];
      LastCheckOutNone(init, j);
      assert forall k :: 0 <= k < |init| ==> init[k] == rs[k];
    }
  }

  /** A check-out found is that of a reservation naming the room that no
      later reservation names. */
  lemma {:induction false} LastCheckOutIsLast(rs: seq<Reservation>, j: nat)
    ensures LastCheckOut(rs, j).Some? ==>
              exists k :: 0 <= k < |rs| && rs[k].room == Some(j) && rs[k].checkOut == LastCheckOut(rs, j).value
                          && forall m :: k < m < |rs| ==> rs[m].room != Some(j)
  {
    if rs != [] {
      var n := |rs| - 1;
      if rs[n].room == Some(j) {
        assert rs[n].checkOut == LastCheckOut(rs, j).value;
      } else if LastCheckOut(rs, j).Some? {
        var init := rs[..n];
        LastCheckOutIsLast(init, j);
        var k :| 0 <= k < n && init[k].room == Some(j) && init[k].checkOut == LastCheckOut(init, j).value
                 && forall m :: k < m < n ==> init[m].room != Some(j);
        assert rs[k] == init[k];
        assert forall m :: k < m < n ==> rs[m] == init[m];
      }
    }
  }

  /** A room's state after the sweep: a room under maintenance keeps it; any
      other room is decided by the last reservation naming it, available
      if that one checked out before today and reserved otherwise; a room no
      reservation names keeps its state. */
  function SweptState(st: RoomState, last: Option<Date>, today: Date): (r: RoomState)
    ensures r == UnderMaintenance <==> st == UnderMaintenance
    ensures st != UnderMaintenance && last.Some? ==> (r == Available <==> last.value < today)
    ensures last.None? ==> r == st
  {
    if st == UnderMaintenance then UnderMaintenance
    else match last
      case None => st
      case Some(c) => if c < today then Available else Reserved
  }

  /** The sweep is order-dependent: the same two reservations of room 0,
      one checked out yesterday and one checking out tomorrow, leave the room
      reserved in one order and available in the other. Reservation state
      plays no part: either may be cancelled. */
  lemma SweepOrderMatters(past: Reservation, future: Reservation, today: Date)
    requires past.room == Some(0) && future.room == Some(0)
    requires past.checkOut == today - 1 && future.checkOut == today + 1
    ensures SweptState(Available, LastCheckOut([past, future], 0), today) == Reserved
    ensures SweptState(Available, LastCheckOut([future, past], 0), today) == Available
  {
    assert [past, future][..1] == [past];
    assert [future, past][..1] == [future];
  }

  // --------------------------------------------------------- the reservation table

  /** The table of reservations, in search order; a reservation is referred
      to by its position. */
  class ReservationTable {
    var reservations: seq<Reservation>

    /** A Many2many never holds the same service twice. */
    ghost predicate Valid()
      reads this
    {
      forall i :: 0 <= i < |reservations| ==> DistinctIds(reservations[i].services)
    }

    constructor ()
      ensures Valid() && reservations == []
    {
      reservations := [];
    }

    /** `_create_services_lines`: walks the services and creates a line
        (quantity 1, the service's price) for each one that has none. */
    method SyncServiceLines(i: nat)
      requires Valid() && i < |reservations|
      modifies this
      ensures Valid()
      ensures reservations == old(reservations)[i := AfterWrite(old(reservations[i]))]
    {
      var r := reservations[i];
      var lines := r.serviceLines;
      var k := 0;
      while k < |r.services|
        invariant 0 <= k <= |r.services|
        invariant lines == Synced(r.serviceLines, r.services[..k])
        invariant reservations == old(reservations)
      {
        var s := r.services[k];
        SyncStep(r.serviceLines, r.services, k);
        if !HasLine(lines, s.id) {
          lines := lines + [NewLine(s)];
        }
        k := k + 1;
      }
      assert r.services[..k] == r.services;
      reservations := reservations[i := r.(serviceLines := lines)];
    }

    /** `create`: the reference is drawn from the sequence unless supplied,
        the reservation starts as a draft without NPS feedback or invoice,
        gets one guest line for its guest and one service line per service. */
    method Create(vals: ReservationVals, next: Option<string>, guestAge: int) returns (i: nat)
      requires Valid() && DistinctIds(vals.services)
      modifies this
      ensures Valid()
      ensures i == old(|reservations|) && |reservations| == i + 1 && reservations[..i] == old(reservations)
      ensures reservations[i] == Reservation(
                SequenceOrNew(vals.reservId, next), vals.guest, vals.room, vals.checkIn, vals.checkOut,
                vals.services, AddedLines([], vals.services), [GuestLine(vals.guest, guestAge)],
                Draft, NO_SCORE, "", None)
    {
      var r := Reservation(SequenceOrNew(vals.reservId, next), vals.guest, vals.room,
                           vals.checkIn, vals.checkOut, vals.services, [],
                           [GuestLine(vals.guest, guestAge)], Draft, NO_SCORE, "", None);
      i := |reservations|;
      reservations := reservations + [r];
      SyncServiceLines(i);
    }

    /** Writes the state and, as every write does, re-synchronises lines. */
    method WriteState(i: nat, st: ReservationState)
      requires Valid() && i < |reservations|
      modifies this
      ensures Valid()
      ensures reservations == old(reservations)[i := AfterWrite(old(reservations[i]).(state := st))]
    {
      reservations := reservations[i := reservations[i].(state := st)];
      SyncServiceLines(i);
    }

    /** `button_confirm`: confirmed, from any state. */
    method ButtonConfirm(i: nat)
      requires Valid() && i < |reservations|
      modifies this
      ensures Valid()
      ensures reservations == old(reservations)[i := AfterWrite(old(reservations[i]).(state := Confirmed))]
    {
      WriteState(i, Confirmed);
    }

    /** `button_draft`: draft, from any state. */
    method ButtonDraft(i: nat)
      requires Valid() && i < |reservations|
      modifies this
      ensures Valid()
      ensures reservations == old(reservations)[i := AfterWrite(old(reservations[i]).(state := Draft))]
    {
      WriteState(i, Draft);
    }

    /** `button_cancel`: cancelled, from any state. */
    method ButtonCancel(i: nat)
      requires Valid() && i < |reservations|
      modifies this
      ensures Valid()
      ensures reservations == old(reservations)[i := AfterWrite(old(reservations[i]).(state := Cancelled))]
    {
      WriteState(i, Cancelled);
    }

    /** Writing the service list keeps every existing line (also lines of
        services no longer listed) and adds lines for new services only. */
    method WriteServices(i: nat, services: seq<Service>)
      requires Valid() && i < |reservations| && DistinctIds(services)
      modifies this
      ensures Valid()
      ensures reservations == old(reservations)[i := AfterWrite(old(reservations[i]).(services := services))]
    {
      reservations := reservations[i := reservations[i].(services := services)];
      SyncServiceLines(i);
    }

    /** `create_invoice`: refuses a second invoice, then builds the room line
        and one line per service line, raising on the first missing product
        or income account; on success links the invoice (a write, so the
        service lines are re-synchronised). */
    method CreateInvoice(i: nat, rooms: seq<Room>, today: Date) returns (c: Check)
      requires Valid() && i < |reservations|
      modifies this
      ensures Valid()
      ensures var res := InvoiceFor(old(reservations[i]), rooms, today);
              && (c == Pass <==> res.Ok?)
              && (res.Err? ==> c == Fail(res.error) && reservations == old(reservations))
              && (res.Ok? ==> reservations == old(reservations)[i := AfterWrite(old(reservations[i]).(invoice := Some(res.value)))])
    {
      var r := reservations[i];
      if r.invoice.Some? {
        return Fail(AlreadyInvoiced);
      }
      var lines: seq<InvoiceLine> := [];
      var room := RoomOf(rooms, r.room);
      if room.Some? {
        if room.value.product.None? {
          return Fail(RoomWithoutProduct(room.value.roomNo));
        }
        if room.value.incomeAccount.None? {
          return Fail(RoomWithoutIncomeAccount(room.value.roomNo));
        }
        lines := lines + [InvoiceLine(room.value.product, Nights(r), room.value.price, room.value.incomeAccount.value)];
      }
      var roomLines := lines;
      assert RoomInvoiceLines(r, rooms) == Ok(roomLines) by {
        if room.Some? {
          assert roomLines == [InvoiceLine(room.value.product, Nights(r), room.value.price, room.value.incomeAccount.value)];
        }
      }
      var k := 0;
      while k < |r.serviceLines|
        invariant 0 <= k <= |r.serviceLines|
        invariant forall j :: 0 <= j < k ==> Billable(r.serviceLines[j])
        invariant lines == roomLines + ServiceInvoiceLines(r.serviceLines[..k])
      {
        var line := r.serviceLines[k];
        if line.service.product.None? {
          FirstServiceLineErrorAt(r.serviceLines, k);
          return Fail(ServiceWithoutProduct(line.service.name));
        }
        if line.service.incomeAccount.None? {
          FirstServiceLineErrorAt(r.serviceLines, k);
          return Fail(ServiceWithoutIncomeAccount(line.service.name));
        }
        assert ServiceInvoiceLines(r.serviceLines[..k + 1])
               == ServiceInvoiceLines(r.serviceLines[..k]) + [ServiceInvoiceLine(line)];
        lines := lines + [ServiceInvoiceLine(line)];
        k := k + 1;
      }
      assert r.serviceLines[..k] == r.serviceLines;
      reservations := reservations[i := r.(invoice := Some(Invoice(today, lines)))];
      SyncServiceLines(i);
      c := Pass;
    }

    /** `button_done`: sets done (a write), then creates the invoice. An
        invoicing error aborts the whole transaction, so the reservation is
        left as it was. */
    method ButtonDone(i: nat, rooms: seq<Room>, today: Date) returns (c: Check)
      requires Valid() && i < |reservations|
      modifies this
      ensures Valid()
      ensures var done := AfterWrite(old(reservations[i]).(state := Done));
              var res := InvoiceFor(done, rooms, today);
              && (c == Pass <==> res.Ok?)
              && (res.Err? ==> c == Fail(res.error) && reservations == old(reservations))
              && (res.Ok? ==> reservations == old(reservations)[i := done.(invoice := Some(res.value))])
    {
      var saved := reservations;
      WriteState(i, Done);
      var done := reservations[i];
      c := CreateInvoice(i, rooms, today);
      if c != Pass {
        reservations := saved;
      } else {
        SyncIdempotent(old(reservations[i]).serviceLines, old(reservations[i]).services);
        var linked := done.(invoice := Some(InvoiceFor(done, rooms, today).value));
        assert AfterWrite(linked) == linked;
      }
    }

    /** The NPS wizard: an out-of-range score is refused; otherwise score and
        feedback are written to the reservation. */
    method SubmitNps(i: nat, score: int, feedback: string) returns (c: Check)
      requires Valid() && i < |reservations|
      modifies this
      ensures Valid()
      ensures c == CheckNpsScore(score)
      ensures c != Pass ==> reservations == old(reservations)
      ensures c == Pass ==> reservations == old(reservations)[i := AfterWrite(old(reservations[i]).(npsScore := score, feedback := feedback))]
    {
      c := CheckNpsScore(score);
      if c == Pass {
        reservations := reservations[i := reservations[i].(npsScore := score, feedback := feedback)];
        SyncServiceLines(i);
      }
    }

    /** `make_rooms_available`: visits the reservations in order and, for
        each one's room, makes a reserved room available when the check-out
        is past, and an available room reserved when it is today or later.
        Rooms under maintenance are never touched and the reservation's own
        state is ignored. */
    method MakeRoomsAvailable(t: RoomTable, today: Date)
      requires t.Valid()
      modifies t
      ensures t.Valid() && |t.rooms| == old(|t.rooms|)
      ensures forall j :: 0 <= j < |t.rooms| ==>
                t.rooms[j] == old(t.rooms[j]).(state := SweptState(old(t.rooms[j].state), LastCheckOut(reservations, j), today))
    {
      var k := 0;
      while k < |reservations|
        invariant 0 <= k <= |reservations|
        invariant t.Valid() && |t.rooms| == old(|t.rooms|)
        invariant forall j :: 0 <= j < |t.rooms| ==>
                    t.rooms[j] == old(t.rooms[j]).(state := SweptState(old(t.rooms[j].state), LastCheckOut(reservations[..k], j), today))
      {
        var r := reservations[k];
        assert reservations[..k + 1][..k] == reservations[..k];
        if r.room.Some? && r.room.value < |t.rooms| {
          var j := r.room.value;
          var st := t.rooms[j].state;
          if r.checkOut < today && st == Reserved {
            t.SetState(j, Available);
          } else if r.checkOut >= today && st == Available {
            t.SetState(j, Reserved);
          } else if st == UnderMaintenance {
            t.SetState(j, UnderMaintenance);
          }
        }
        k := k + 1;
      }
      assert reservations[..k] == reservations;
    }
  }
}
