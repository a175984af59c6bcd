/** Vocabulary shared by every model of the hotel add-on: optional values,
    the validation errors the add-on raises, calendar dates, the decimal
    rendering of counters and the "New" sequence rule of the `create` hooks. */
module Base {

  datatype Option<T> = None | Some(value: T)

  /** The ValidationError conditions raised by the add-on, one per message. */
  datatype Error =
    | AlreadyInvoiced
    | RoomWithoutProduct(roomNo: string)
    | RoomWithoutIncomeAccount(roomNo: string)
    | ServiceWithoutProduct(serviceName: string)
    | ServiceWithoutIncomeAccount(serviceName: string)
    | CheckOutNotAfterCheckIn
    | CheckInInPast
    | RoomUnderMaintenance
    | RoomAlreadyReserved
    | Underage
    | NpsOutOfRange
    | InvalidEmail
    | InvalidPhone
    | GuardianRequired
    | ContactRequired

  /** Outcome of a validator: it passes or raises one error. */
  datatype Check = Pass | Fail(error: Error)

  /** Outcome of an operation that builds a value or raises one error. */
  datatype Result<T> = Ok(value: T) | Err(error: Error)

  /** A calendar day as a proleptic Gregorian ordinal: day 1 is 0001-01-01,
      so the difference of two dates is the number of days between them. */
  type Date = int

  const DAYS_IN_400_YEARS := 146097
  const DAYS_IN_100_YEARS := 36524
  const DAYS_IN_4_YEARS := 1461

  /** The calendar year of an ordinal date, by the 400/100/4/1-year cycle
      decomposition of the Gregorian calendar. */
  function YearOf(d: Date): int
  {
    var n := d - 1;
    var n400, r400 := n / DAYS_IN_400_YEARS, n % DAYS_IN_400_YEARS;
    var n100, r100 := r400 / DAYS_IN_100_YEARS, r400 % DAYS_IN_100_YEARS;
    var n4, r4 := r100 / DAYS_IN_4_YEARS, r100 % DAYS_IN_4_YEARS;
    var n1 := r4 / 365;
    var year := n400 * 400 + 1 + n100 * 100 + n4 * 4 + n1;
    // the last day of a leap year and of a 400-year cycle belongs to the year before
    if n1 == 4 || n100 == 4 then year - 1 else year
  }

  /** The character of a decimal digit. */
  function DigitChar(d: nat): char
    requires d < 10
  {
    ('0' as int + d) as char
  }

  /** The decimal rendering of a natural number, without leading zeros. */
  function NatToString(n: nat): (s: string)
    ensures |s| >= 1
    ensures |s| == 1 <==> n < 10
    ensures forall k :: 0 <= k < |s| ==> '0' <= s[k] <= '9'
  {
    if n < 10 then [DigitChar(n)] else NatToString(n / 10) + [DigitChar(n % 10)]
  }

  /** Distinct counters are rendered as distinct strings. */
  lemma {:induction false} NatToStringInjective(a: nat, b: nat)
    requires NatToString(a) == NatToString(b)
    ensures a == b
    decreases a
  {
    if 10 <= a {
      var sa, sb := NatToString(a), NatToString(b);
      assert sa[|sa| - 1] == DigitChar(a % 10) && sb[|sb| - 1] == DigitChar(b % 10);
      assert sa[..|sa| - 1] == NatToString(a / 10);
      assert sb[..|sb| - 1] == NatToString(b / 10);
      NatToStringInjective(a / 10, b / 10);
    }
  }

  /** The placeholder a reference field holds until a sequence number is drawn. */
  const NEW: string := "New"

  /** The reference a `create` hook stores: the caller's value unless it is
      missing or still the placeholder; otherwise the sequence's next value,
      falling back to the placeholder when the sequence yields nothing. */
  function SequenceOrNew(given: Option<string>, next: Option<string>): (r: string)
    ensures given.Some? && given.value != NEW ==> r == given.value
    ensures (given.None? || given.value == NEW) && next.Some? && next.value != "" ==> r == next.value
    ensures (given.None? || given.value == NEW) && (next.None? || next.value == "") ==> r == NEW
  {
    if given.Some? && given.value != NEW then given.value
    else if next.Some? && next.value != "" then next.value
    else NEW
  }
}
