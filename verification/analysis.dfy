/** Daily analytics (hotel.analysis): one snapshot per calendar day of
    revenue, occupancy and guest ratios, and the backfill that walks the days
    spanned by the reservations and creates a snapshot for each day lacking
    one. */
module Analysis {
  import opened Base
  import opened Rooms
  import opened Reservations
  import opened Guests

  /** A stored snapshot; monetary totals are exact amounts, ratios reals. */
  datatype Snapshot = Snapshot(
    date: Date,
    totalRoomRevenue: int,
    repeatedGuestPercentage: real,
    totalAvailableRooms: nat,
    revpar: real,
    adr: real,
    occupancyRate: real,
    totalOtherRevenue: int,
    trevpar: real,
    loyalGuests: nat)

  // --------------------------------------------------------------- the window

  /** `oldest_check_in_date`: the earliest check-in, or today without
      reservations. */
  function OldestCheckIn(rs: seq<Reservation>, today: Date): (d: Date)
    ensures rs == [] ==> d == today
    ensures rs != [] ==> exists k :: 0 <= k < |rs| && rs[k].checkIn == d
    ensures forall k :: 0 <= k < |rs| ==> d <= rs[k].checkIn
  {
    if rs == [] then today
    else if |rs| == 1 then rs[0].checkIn
    else
      var d := OldestCheckIn(rs[..|rs| - 1], today);
      var c := rs[|rs| - 1].checkIn;
      assert forall k :: 0 <= k < |rs| - 1 ==> rs[..|rs| - 1][k] == rs[k];
      if c < d then c else d
  }

  /** A reservation the window search matches. */
  predicate InWindow(r: Reservation, oldest: Date, date: Date)
  {
    oldest <= r.checkIn && r.checkOut <= date
  }

  /** The reservations a snapshot dated `date` looks at: checked in no
      earlier than `oldest` and checked out by `date`, in any state. The
      search returns every matching record once and nothing else. */
  function Window(rs: seq<Reservation>, oldest: Date, date: Date): (w: seq<Reservation>)
    ensures |w| <= |rs|
    ensures forall k :: 0 <= k < |w| ==> InWindow(w[k], oldest, date)
  {
    if rs == [] then []
    else
      var r := rs[|rs| - 1];
      Window(rs[..|rs| - 1], oldest, date) + (if InWindow(r, oldest, date) then [r] else [])
  }

  /** The window holds every matching reservation as often as the store
      does, and nothing else. */
  lemma {:induction false} WindowComplete(rs: seq<Reservation>, oldest: Date, date: Date)
    ensures forall x :: multiset(Window(rs, oldest, date))[x] == if InWindow(x, oldest, date) then multiset(rs)[x] else 0
  {
    if rs != [] {
      WindowComplete(rs[..|rs| - 1], oldest, date);
      assert rs == rs[..|rs| - 1] + [rs[|rs| - 1]];
    }
  }

  /** The window's reservations that are neither draft nor cancelled. */
  function RevenueWindow(rs: seq<Reservation>, oldest: Date, date: Date): (w: seq<Reservation>)
    ensures |w| <= |Window(rs, oldest, date)|
    ensures forall k :: 0 <= k < |w| ==> Counted(w[k]) && InWindow(w[k], oldest, date)
  {
    if rs == [] then []
    else
      var r := rs[|rs| - 1];
      RevenueWindow(rs[..|rs| - 1], oldest, date)
        + (if Counted(r) && InWindow(r, oldest, date) then [r] else [])
  }

  /** The revenue window holds every matching reservation that is neither
      draft nor cancelled as often as the store does, and nothing else. */
  lemma {:induction false} RevenueWindowComplete(rs: seq<Reservation>, oldest: Date, date: Date)
    ensures forall x :: multiset(RevenueWindow(rs, oldest, date))[x]
                        == if Counted(x) && InWindow(x, oldest, date) then multiset(rs)[x] else 0
  {
    if rs != [] {
      RevenueWindowComplete(rs[..|rs| - 1], oldest, date);
      assert rs == rs[..|rs| - 1] + [rs[|rs| - 1]];
    }
  }

  /** The distinct guests of some reservations: exactly the guests some
      reservation names, never more of them than reservations. */
  function GuestSet(w: seq<Reservation>): (g: set<nat>)
    ensures |g| <= |w|
    ensures forall k :: 0 <= k < |w| ==> w[k].guest in g
  {
    if w == [] then {}
    else
      var init := GuestSet(w[..|w| - 1]);
      assert forall k :: 0 <= k < |w| - 1 ==> w[..|w| - 1][k] == w[k];
      init + {w[|w| - 1].guest}
  }

  /** The guest set holds the guests of the reservations and no other id. */
  lemma {:induction false} GuestSetExact(w: seq<Reservation>)
    ensures GuestSet(w) == set k | 0 <= k < |w| :: w[k].guest
  {
    if w != [] {
      var init := w[..|w| - 1];
      GuestSetExact(init);
      forall x | x in GuestSet(w) ensures exists k :: 0 <= k < |w| && w[k].guest == x {
        if x != w[|w| - 1].guest {
          var k :| 0 <= k < |init| && init[k].guest == x;
          assert w[k].guest == x;
        }
      }
    }
  }

  /** The summed `services_total_price` of some reservations. */
  function OtherSum(w: seq<Reservation>): int
  {
    if w == [] then 0 else OtherSum(w[..|w| - 1]) + ServicesTotal(w[|w| - 1].serviceLines)
  }

  /** The summed room price times nights of some reservations. */
  function StaySum(w: seq<Reservation>, rooms: seq<Room>): int
  {
    if w == [] then 0 else StaySum(w[..|w| - 1], rooms) + RoomPrice(w[|w| - 1], rooms) * Nights(w[|w| - 1])
  }

  /** Guests whose loyalty flag is set. */
  function LoyalCount(guests: seq<Guest>): (n: nat)
    ensures n <= |guests|
  {
    if guests == [] then 0 else LoyalCount(guests[..|guests| - 1]) + (if guests[|guests| - 1].loyal then 1 else 0)
  }

  /** The loyal count is 0 exactly when no guest is loyal. */
  lemma {:induction false} LoyalCountZero(guests: seq<Guest>)
    ensures LoyalCount(guests) == 0 <==> forall k :: 0 <= k < |guests| ==> !guests[k].loyal
  {
    if guests != [] {
      var init := guests[..|guests| - 1];
      LoyalCountZero(init);
      assert forall k :: 0 <= k < |init| ==> init[k] == guests[k];
    }
  }

  /** The loyal count is the guest count exactly when every guest is loyal. */
  lemma {:induction false} LoyalCountAll(guests: seq<Guest>)
    ensures LoyalCount(guests) == |guests| <==> forall k :: 0 <= k < |guests| ==> guests[k].loyal
  {
    if guests != [] {
      var init := guests[..|guests| - 1];
      LoyalCountAll(init);
      assert forall k :: 0 <= k < |init| ==> init[k] == guests[k];
    }
  }

  // ---------------------------------------------------------------- the ratios

  /** A quotient guarded against a zero denominator, which gives 0. */
  function SafeDiv(num: real, den: nat): (q: real)
    ensures den == 0 ==> q == 0.0
    ensures den > 0 ==> q * den as real == num
  {
    if den == 0 then 0.0 else num / den as real
  }

  /** `repeated_guest_percentage`: distinct guests over reservations in the
      window, times 100; 0 for an empty window. */
  function RepeatedGuestPercentage(w: seq<Reservation>): (p: real)
    ensures w == [] ==> p == 0.0
    ensures w != [] ==> p == |GuestSet(w)| as real / |w| as real * 100.0
    ensures 0.0 <= p <= 100.0
  {
    Percentage(|GuestSet(w)|, |w|)
  }

  /** `part` out of `whole` as a percentage, 0 for an empty whole. */
  function Percentage(part: nat, whole: nat): (p: real)
    requires part <= whole
    ensures whole == 0 ==> p == 0.0
    ensures whole > 0 ==> p == part as real / whole as real * 100.0
    ensures 0.0 <= p <= 100.0
  {
    if whole > 0 then
      var q := part as real / whole as real;
      QuotientBetween(q, whole as real, 0.0, 1.0);
      q * 100.0
    else 0.0
  }

  /** `occupancy_rate`: reserved rooms over available rooms, times 100; 0
      without available rooms. */
  function OccupancyRate(reserved: nat, available: nat): (o: real)
    ensures available == 0 ==> o == 0.0
    ensures available > 0 ==> o * available as real == 100.0 * reserved as real
  {
    var q := SafeDiv(reserved as real, available);
    assert q * 100.0 * available as real == 100.0 * (q * available as real);
    q * 100.0
  }

  /** The guarded ratio laws of a snapshot: ADR spreads room revenue over
      the `counted` reservations of the window; RevPAR, TRevPAR and the
      occupancy rate (of `reserved` rooms) are per available room; each is 0
      when its denominator is. */
  predicate RatiosHold(s: Snapshot, counted: nat, reserved: nat)
  {
    var n := s.totalAvailableRooms;
    && (counted == 0 ==> s.adr == 0.0)
    && (counted > 0 ==> s.adr * counted as real == s.totalRoomRevenue as real)
    && (n == 0 ==> s.revpar == 0.0 && s.trevpar == 0.0 && s.occupancyRate == 0.0)
    && (n > 0 ==> s.revpar * n as real == s.totalRoomRevenue as real
                  && s.trevpar * n as real == (s.totalRoomRevenue + s.totalOtherRevenue) as real
                  && s.occupancyRate * n as real == 100.0 * reserved as real)
  }

  /** A snapshot from its totals, with every ratio computed behind its
      zero-denominator guard. */
  function Measure(d: Date, roomRevenue: int, otherRevenue: int, counted: nat, available: nat,
                   reserved: nat, repeated: real, loyal: nat): (s: Snapshot)
    ensures s.date == d && s.totalAvailableRooms == available && s.repeatedGuestPercentage == repeated
    ensures s.totalRoomRevenue == roomRevenue && s.totalOtherRevenue == otherRevenue && s.loyalGuests == loyal
    ensures RatiosHold(s, counted, reserved)
  {
    Snapshot(d, roomRevenue, repeated, available,
             SafeDiv(roomRevenue as real, available),
             SafeDiv(roomRevenue as real, counted),
             OccupancyRate(reserved, available),
             otherRevenue,
             SafeDiv((roomRevenue + otherRevenue) as real, available),
             loyal)
  }

  /** The snapshot `update_analysis_data` stores for day `d`: the record is
      created with its date and every metric is then computed over the
      current store. Revenue sums over the window's reservations that are
      neither draft nor cancelled; the repeated-guest ratio looks at the
      whole window. */
  function SnapshotFor(d: Date, rs: seq<Reservation>, rooms: seq<Room>, guests: seq<Guest>, today: Date): (s: Snapshot)
    ensures s.date == d
    ensures s.totalAvailableRooms == CountState(rooms, Available)
    ensures var w := RevenueWindow(rs, OldestCheckIn(rs, today), d);
            && s.totalRoomRevenue == SpendSum(w, rooms) && s.totalOtherRevenue == OtherSum(w)
            && RatiosHold(s, |w|, CountState(rooms, Reserved))
    ensures s.repeatedGuestPercentage == RepeatedGuestPercentage(Window(rs, OldestCheckIn(rs, today), d))
    ensures s.loyalGuests == LoyalCount(guests) <= |guests|
  {
    var oldest := OldestCheckIn(rs, today);
    var w := RevenueWindow(rs, oldest, d);
    Measure(d, SpendSum(w, rooms), OtherSum(w), |w|, CountState(rooms, Available), CountState(rooms, Reserved),
            RepeatedGuestPercentage(Window(rs, oldest, d)), LoyalCount(guests))
  }

  /** Room revenue already holds each reservation's services total, so the
      TRevPAR numerator, room revenue plus other revenue, counts services
      twice whenever every reservation has a priced room and a stay. */
  lemma {:induction false} RoomRevenueIncludesServices(w: seq<Reservation>, rooms: seq<Room>)
    requires forall k :: 0 <= k < |w| ==> RoomPrice(w[k], rooms) != 0 && Nights(w[k]) != 0
    ensures SpendSum(w, rooms) == StaySum(w, rooms) + OtherSum(w)
  {
    if w != [] {
      RoomRevenueIncludesServices(w[..|w| - 1], rooms);
    }
  }

  /** The occupancy rate divides reserved rooms by available ones, not by
      all rooms, so it exceeds 100 when reserved rooms outnumber free ones. */
  lemma OccupancyCanExceedHundred(free: Room, taken: Room, rs: seq<Reservation>, guests: seq<Guest>, d: Date, today: Date)
    requires free.state == Available && taken.state == Reserved
    ensures SnapshotFor(d, rs, [taken, taken, free], guests, today).occupancyRate == 200.0
  {
    var rooms := [taken, taken, free];
    assert rooms[..2] == [taken, taken];
    assert [taken, taken][..1] == [taken];
    assert [taken][..0] == [];
    assert CountState([taken], Available) == 0 && CountState([taken], Reserved) == 1;
    assert CountState([taken, taken], Available) == 0 && CountState([taken, taken], Reserved) == 2;
    assert CountState(rooms, Available) == 1;
    assert CountState(rooms, Reserved) == 2;
  }

  // ------------------------------------------------------------- the backfill

  /** The position `update_analysis_data` reads its end date from: the last
      reservation when sorted by check-in, taken as the last of those with
      the latest check-in in store order (a stable sort; the database may
      order ties otherwise). */
  function LatestCheckInIndex(rs: seq<Reservation>): (i: nat)
    requires |rs| > 0
    ensures i < |rs|
    ensures forall k :: 0 <= k < |rs| ==> rs[k].checkIn <= rs[i].checkIn
    ensures forall k :: i < k < |rs| ==> rs[k].checkIn < rs[i].checkIn
  {
    if |rs| == 1 then 0
    else
      var i := LatestCheckInIndex(rs[..|rs| - 1]);
      assert forall k :: 0 <= k < |rs| - 1 ==> rs[..|rs| - 1][k] == rs[k];
      if rs[i].checkIn <= rs[|rs| - 1].checkIn then |rs| - 1 else i
  }

  /** The last day the backfill visits: the check-out of the reservation
      with the latest check-in. */
  function BackfillEnd(rs: seq<Reservation>): (e: Date)
    requires |rs| > 0
    ensures exists i :: 0 <= i < |rs| && rs[i].checkOut == e && forall k :: 0 <= k < |rs| ==> rs[k].checkIn <= rs[i].checkIn
  {
    rs[LatestCheckInIndex(rs)].checkOut
  }

  /** The backfill end is not the latest check-out: a long stay that began
      first ends after the short stay that began last, and its last days get
      no snapshot. */
  lemma BackfillEndMissesLongStays(long: Reservation, short: Reservation)
    requires long.checkIn == 10 && long.checkOut == 100
    requires short.checkIn == 20 && short.checkOut == 25
    ensures BackfillEnd([long, short]) == 25
    ensures forall d :: 25 < d <= 100 ==> !CoveredAfterBackfill([], 10, 25, d)
  {
    assert [long, short][..1] == [long];
  }

  /** The latest check-out of any reservation: the end the backfill needs
      for every stay to be covered. */
  function LatestCheckOut(rs: seq<Reservation>): (d: Date)
    requires |rs| > 0
    ensures exists k :: 0 <= k < |rs| && rs[k].checkOut == d
    ensures forall k :: 0 <= k < |rs| ==> rs[k].checkOut <= d
  {
    if |rs| == 1 then rs[0].checkOut
    else
      var d := LatestCheckOut(rs[..|rs| - 1]);
      var c := rs[|rs| - 1].checkOut;
      assert forall k :: 0 <= k < |rs| - 1 ==> rs[..|rs| - 1][k] == rs[k];
      if d < c then c else d
  }

  /** Backfilling from the earliest check-in to the latest check-out leaves
      a snapshot on every day of every stay, and that end never precedes
      the end the backfill uses as written. */
  lemma FullSpanCoversStays(records: seq<Snapshot>, rs: seq<Reservation>, rooms: seq<Room>,
                            guests: seq<Guest>, today: Date, k: nat, d: Date)
    requires k < |rs| && rs[k].checkIn <= d <= rs[k].checkOut
    ensures BackfillEnd(rs) <= LatestCheckOut(rs)
    ensures HasRecord(records + Snapshots(MissingDays(records, OldestCheckIn(rs, today), LatestCheckOut(rs)),
                                          rs, rooms, guests, today), d)
  {
    BackfillCoversSpan(records, OldestCheckIn(rs, today), LatestCheckOut(rs), rs, rooms, guests, today, d);
  }

  /** Some snapshot is dated `d`. */
  predicate HasRecord(records: seq<Snapshot>, d: Date)
  {
    exists k :: 0 <= k < |records| && records[k].date == d
  }

  /** The days from `first` to `last`, in increasing order, that no snapshot in
      `records` is dated. */
  function MissingDays(records: seq<Snapshot>, first: Date, last: Date): (ds: seq<Date>)
    ensures forall k :: 0 <= k < |ds| ==> first <= ds[k] <= last && !HasRecord(records, ds[k])
    ensures forall k, m :: 0 <= k < m < |ds| ==> ds[k] < ds[m]
    ensures forall d :: first <= d <= last && !HasRecord(records, d) ==> d in ds
    ensures last < first ==> ds == []
    decreases last - first
  {
    if last < first then []
    else MissingDays(records, first, last - 1) + (if HasRecord(records, last) then [] else [last])
  }

  /** Day `d` has a snapshot once `first`..`last` is backfilled over
      `records`: it had one already or the backfill adds one. */
  predicate CoveredAfterBackfill(records: seq<Snapshot>, first: Date, last: Date, d: Date)
  {
    HasRecord(records, d) || d in MissingDays(records, first, last)
  }

  /** The snapshots created for some days, in order. */
  function Snapshots(days: seq<Date>, rs: seq<Reservation>, rooms: seq<Room>, guests: seq<Guest>, today: Date): (ss: seq<Snapshot>)
    ensures |ss| == |days|
    ensures forall k :: 0 <= k < |ss| ==> ss[k] == SnapshotFor(days[k], rs, rooms, guests, today)
    ensures forall k :: 0 <= k < |ss| ==> ss[k].date == days[k]
  {
    seq(|days|, k requires 0 <= k < |days| => SnapshotFor(days[k], rs, rooms, guests, today))
  }

  /** After a backfill every day of the walked span has a snapshot. */
  lemma BackfillCoversSpan(records: seq<Snapshot>, first: Date, last: Date, rs: seq<Reservation>,
                           rooms: seq<Room>, guests: seq<Guest>, today: Date, d: Date)
    requires first <= d <= last
    ensures HasRecord(records + Snapshots(MissingDays(records, first, last), rs, rooms, guests, today), d)
  {
    var ds := MissingDays(records, first, last);
    var recs := records + Snapshots(ds, rs, rooms, guests, today);
    if HasRecord(records, d) {
      var k :| 0 <= k < |records| && records[k].date == d;
      assert recs[k] == records[k];
    } else {
      var k :| 0 <= k < |ds| && ds[k] == d;
      assert recs[|records| + k].date == d;
    }
  }

  /** A backfill gives a day a new snapshot exactly when the day lies in
      the span and had none. */
  lemma BackfillAddsOnlyMissing(records: seq<Snapshot>, first: Date, last: Date, rs: seq<Reservation>,
                                rooms: seq<Room>, guests: seq<Guest>, today: Date, d: Date)
    ensures HasRecord(Snapshots(MissingDays(records, first, last), rs, rooms, guests, today), d)
            <==> first <= d <= last && !HasRecord(records, d)
  {
    var ds := MissingDays(records, first, last);
    var added := Snapshots(ds, rs, rooms, guests, today);
    if first <= d <= last && !HasRecord(records, d) {
      var k :| 0 <= k < |ds| && ds[k] == d;
      assert added[k].date == d;
    }
    if HasRecord(added, d) {
      var k :| 0 <= k < |added| && added[k].date == d;
      assert ds[k] == d;
    }
  }

  /** A second backfill over the same span creates nothing. */
  lemma BackfillIdempotent(records: seq<Snapshot>, first: Date, last: Date, rs: seq<Reservation>,
                           rooms: seq<Room>, guests: seq<Guest>, today: Date)
    ensures MissingDays(records + Snapshots(MissingDays(records, first, last), rs, rooms, guests, today), first, last) == []
  {
    var after := records + Snapshots(MissingDays(records, first, last), rs, rooms, guests, today);
    var again := MissingDays(after, first, last);
    if again != [] {
      BackfillCoversSpan(records, first, last, rs, rooms, guests, today, again[0]);
      assert false;
    }
  }

  /** On an empty table the backfill creates one snapshot per day of the
      span. */
  lemma {:induction false} BackfillFromEmpty(first: Date, last: Date)
    requires first <= last + 1
    ensures |MissingDays([], first, last)| == last - first + 1
    decreases last - first
  {
    if first <= last {
      BackfillFromEmpty(first, last - 1);
      assert !HasRecord([], last);
    }
  }

  lemma SnapshotsAppend(ds: seq<Date>, d: Date, rs: seq<Reservation>, rooms: seq<Room>, guests: seq<Guest>, today: Date)
    ensures Snapshots(ds + [d], rs, rooms, guests, today)
            == Snapshots(ds, rs, rooms, guests, today) + [SnapshotFor(d, rs, rooms, guests, today)]
  {
    var a, b := Snapshots(ds + [d], rs, rooms, guests, today), Snapshots(ds, rs, rooms, guests, today);
    assert |a| == |b| + 1;
    forall k | 0 <= k < |a| ensures a[k] == (b + [SnapshotFor(d, rs, rooms, guests, today)])[k] {
      assert (ds + [d])[k] == if k < |ds| then ds[k] else d;
    }
  }

  /** One day of the backfill: the snapshots added for earlier days are all
      dated before `cur`, so whether `cur` has a record is decided by the
      records the backfill started from. */
  lemma BackfillStep(before: seq<Snapshot>, first: Date, cur: Date, rs: seq<Reservation>,
                     rooms: seq<Room>, guests: seq<Guest>, today: Date)
    requires first <= cur
    ensures var ds := MissingDays(before, first, cur - 1);
            var recs := before + Snapshots(ds, rs, rooms, guests, today);
            && (HasRecord(recs, cur) <==> HasRecord(before, cur))
            && (HasRecord(before, cur) ==> MissingDays(before, first, cur) == ds)
            && (!HasRecord(before, cur) ==>
                  recs + [SnapshotFor(cur, rs, rooms, guests, today)]
                  == before + Snapshots(MissingDays(before, first, cur), rs, rooms, guests, today))
  {
    var ds := MissingDays(before, first, cur - 1);
    var added := Snapshots(ds, rs, rooms, guests, today);
    var recs := before + added;
    if HasRecord(recs, cur) {
      var k :| 0 <= k < |recs| && recs[k].date == cur;
      assert k < |before| && before[k] == recs[k];
    }
    if HasRecord(before, cur) {
      var k :| 0 <= k < |before| && before[k].date == cur;
      assert recs[k] == before[k];
    } else {
      SnapshotsAppend(ds, cur, rs, rooms, guests, today);
    }
  }

  /** The table of snapshots. */
  class AnalysisTable {
    var records: seq<Snapshot>

    constructor ()
      ensures records == []
    {
      records := [];
    }

    /** The day walk of `update_analysis_data`: every day from `first` to
        `last`, one per iteration, gets a snapshot appended when it has none;
        nothing happens when `last` precedes `first`. */
    method Backfill(first: Date, last: Date, rs: seq<Reservation>, rooms: seq<Room>, guests: seq<Guest>, today: Date)
      modifies this
      ensures records == old(records) + Snapshots(MissingDays(old(records), first, last), rs, rooms, guests, today)
    {
      var cur := first;
      ghost var before := records;
      while cur <= last
        invariant first <= cur && (cur <= last + 1 || cur == first)
        invariant records == before + Snapshots(MissingDays(before, first, cur - 1), rs, rooms, guests, today)
        decreases last - cur
      {
        BackfillStep(before, first, cur, rs, rooms, guests, today);
        if !HasRecord(records, cur) {
          records := records + [SnapshotFor(cur, rs, rooms, guests, today)];
        }
        cur := cur + 1;
      }
      assert MissingDays(before, first, cur - 1) == MissingDays(before, first, last) by {
        if last < first {
          assert MissingDays(before, first, cur - 1) == [];
        } else {
          assert cur - 1 == last;
        }
      }
    }

    /** `update_analysis_data`: nothing without reservations; otherwise the
        days from the earliest check-in to the backfill end are walked. */
    method UpdateAnalysisData(rs: seq<Reservation>, rooms: seq<Room>, guests: seq<Guest>, today: Date)
      modifies this
      ensures rs == [] ==> records == old(records)
      ensures rs != [] ==>
                records == old(records)
                           + Snapshots(MissingDays(old(records), OldestCheckIn(rs, today), BackfillEnd(rs)),
                                       rs, rooms, guests, today)
    {
      if rs == [] {
        return;
      }
      Backfill(OldestCheckIn(rs, today), BackfillEnd(rs), rs, rooms, guests, today);
    }
  }
}
