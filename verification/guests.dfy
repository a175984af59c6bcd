/** Guests (hotel.guest): the checks `create` applies to a new guest's
    values, the de-duplicated display name, and the CRM metrics derived from
    a guest's counted reservations. */
module Guests {
  import opened Base
  import opened Rooms
  import opened Reservations

  /** A stored guest. Character fields hold "" when unset. */
  datatype Guest = Guest(
    firstName: string,
    lastName: string,
    fullName: string,
    email: string,
    number: string,
    age: int,
    parent: Option<nat>,
    nin: string,
    loyal: bool)

  /** What a caller passes to `create`. */
  datatype GuestVals = GuestVals(
    firstName: string,
    lastName: string,
    email: string,
    number: string,
    age: int,
    parent: Option<nat>,
    nin: string)

  // ------------------------------------------------------------------ e-mail

  predicate Lower(c: char) { 'a' <= c <= 'z' }
  predicate IsDigit(c: char) { '0' <= c <= '9' }

  /** `[_a-z0-9-]` for the local part, `[a-z0-9-]` for the domain. */
  predicate WordChar(c: char, inDomain: bool)
  {
    Lower(c) || IsDigit(c) || c == '-' || (!inDomain && c == '_')
  }

  /** One or more words of word characters separated by single dots:
      `W+(\.W+)*`. */
  predicate DotWords(s: string, inDomain: bool)
  {
    && |s| > 0 && s[0] != '.' && s[|s| - 1] != '.'
    && (forall k :: 0 <= k < |s| ==> s[k] == '.' || WordChar(s[k], inDomain))
    && (forall k :: 0 <= k < |s| - 1 ==> !(s[k] == '.' && s[k + 1] == '.'))
  }

  /** `[a-z0-9-]+(\.[a-z0-9-]+)*(\.[a-z]{2,4})`: dotted words ending in a
      dot and two to four letters. */
  predicate DomainMatches(d: string)
  {
    exists p :: 0 < p < |d| && d[p] == '.' && DotWords(d[..p], true)
                && 2 <= |d| - p - 1 <= 4 && (forall k :: p < k < |d| ==> Lower(d[k]))
  }

  /** The whole string is `local@domain`. */
  predicate FullEmail(s: string)
  {
    exists a :: 0 < a < |s| && s[a] == '@' && DotWords(s[..a], false) && DomainMatches(s[a + 1..])
  }

  /** The e-mail pattern as `re.match` applies it: anchored at the start by
      `^` and at the end by `$`, which also matches just before a final
      newline. */
  predicate EmailMatches(s: string)
  {
    FullEmail(s) || (|s| > 0 && s[|s| - 1] == '\n' && FullEmail(s[..|s| - 1]))
  }

  /** The characters the e-mail pattern can consume besides its one '@'. */
  predicate AddressChar(c: char)
  {
    Lower(c) || IsDigit(c) || c == '_' || c == '-' || c == '.'
  }

  lemma DotWordsCharset(s: string, inDomain: bool)
    requires DotWords(s, inDomain)
    ensures forall k :: 0 <= k < |s| ==> AddressChar(s[k])
  {
  }

  lemma DomainCharset(d: string)
    requires DomainMatches(d)
    ensures forall k :: 0 <= k < |d| ==> AddressChar(d[k])
  {
    var p :| 0 < p < |d| && d[p] == '.' && DotWords(d[..p], true)
             && 2 <= |d| - p - 1 <= 4 && (forall k :: p < k < |d| ==> Lower(d[k]));
    var body := d[..p];
    DotWordsCharset(body, true);
    forall k | 0 <= k < |d| ensures AddressChar(d[k]) {
      if k < p { assert body[k] == d[k]; }
    }
  }

  lemma FullEmailCharset(e: string)
    requires FullEmail(e)
    ensures exists a :: 0 < a < |e| && e[a] == '@' && forall k :: 0 <= k < |e| && k != a ==> AddressChar(e[k])
  {
    var a :| 0 < a < |e| && e[a] == '@' && DotWords(e[..a], false) && DomainMatches(e[a + 1..]);
    var local, d := e[..a], e[a + 1..];
    DotWordsCharset(local, false);
    DomainCharset(d);
    forall k | 0 <= k < |e| && k != a ensures AddressChar(e[k]) {
      if k < a { assert local[k] == e[k]; }
      else { assert d[k - a - 1] == e[k]; }
    }
  }

  /** The pattern is anchored: an accepted address holds exactly one '@',
      and apart from it only lower-case letters, digits, '_', '-' and '.',
      save one final newline that `$` tolerates. */
  lemma EmailCharset(s: string)
    requires EmailMatches(s)
    ensures exists a :: 0 < a < |s| && s[a] == '@'
              && forall k :: 0 <= k < |s| && k != a && !(k == |s| - 1 && s[k] == '\n') ==> AddressChar(s[k])
  {
    if FullEmail(s) {
      FullEmailCharset(s);
    } else {
      var e := s[..|s| - 1];
      FullEmailCharset(e);
      var a :| 0 < a < |e| && e[a] == '@' && forall k :: 0 <= k < |e| && k != a ==> AddressChar(e[k]);
      assert s[a] == '@';
      forall k | 0 <= k < |s| && k != a && !(k == |s| - 1 && s[k] == '\n') ensures AddressChar(s[k]) {
        assert e[k] == s[k];
      }
    }
  }

  /** The trailing-newline tolerance of `$`: an address followed by a
      newline is still accepted. */
  lemma EmailAcceptsTrailingNewline(s: string)
    requires FullEmail(s)
    ensures EmailMatches(s + "\n")
  {
    assert (s + "\n")[..|s|] == s;
  }

  // ------------------------------------------------------------------- phone

  /** The number of digits the string starts with. */
  function LeadingDigits(s: string): (n: nat)
    ensures n <= |s|
  {
    if s == [] || !IsDigit(s[0]) then 0 else 1 + LeadingDigits(s[1..])
  }

  /** `\+{0,1}[0-9]{10,12}` as `re.match` applies it: an optional '+' and
      then at least ten digits at the start; whatever follows is ignored. */
  predicate PhoneMatches(s: string): (b: bool)
    ensures b ==> 10 <= |s|
  {
    var rest := if |s| > 0 && s[0] == '+' then s[1..] else s;
    LeadingDigits(rest) >= 10
  }

  /** `n` digits start at position `start`. */
  predicate DigitsAt(s: string, start: nat, n: nat)
  {
    start + n <= |s| && forall k :: start <= k < start + n ==> IsDigit(s[k])
  }

  /** The regular expression's own reading: some choice of zero or one '+'
      and of ten to twelve digits matches a prefix of the string. */
  predicate PhoneRegex(s: string)
  {
    exists plus: nat, n: nat :: plus <= 1 && 10 <= n <= 12
      && (plus == 1 ==> |s| > 0 && s[0] == '+') && DigitsAt(s, plus, n)
  }

  lemma {:induction false} LeadingDigitsCount(s: string, n: nat)
    ensures n <= LeadingDigits(s) <==> DigitsAt(s, 0, n)
  {
    if s != [] && IsDigit(s[0]) && n > 0 {
      LeadingDigitsCount(s[1..], n - 1);
      if DigitsAt(s[1..], 0, n - 1) {
        forall k | 0 <= k < n ensures IsDigit(s[k]) {
          if k > 0 { assert s[1..][k - 1] == s[k]; }
        }
      }
      if DigitsAt(s, 0, n) {
        forall k | 0 <= k < n - 1 ensures IsDigit(s[1..][k]) {
          assert s[1..][k] == s[k + 1];
        }
      }
    }
  }

  lemma DigitsAtShift(s: string, n: nat)
    requires |s| > 0
    ensures DigitsAt(s, 1, n) <==> DigitsAt(s[1..], 0, n)
  {
    if DigitsAt(s, 1, n) {
      forall k | 0 <= k < n ensures IsDigit(s[1..][k]) { assert s[1..][k] == s[k + 1]; }
    }
    if DigitsAt(s[1..], 0, n) {
      forall k | 1 <= k < 1 + n ensures IsDigit(s[k]) { assert s[1..][k - 1] == s[k]; }
    }
  }

  /** The leading-digit count decides exactly what the regular expression
      accepts: the two readings agree on every string. */
  lemma PhoneMatchesIsRegex(s: string)
    ensures PhoneMatches(s) <==> PhoneRegex(s)
  {
    var plus: nat := if |s| > 0 && s[0] == '+' then 1 else 0;
    var rest := s[plus..];
    LeadingDigitsCount(rest, 10);
    if plus == 1 {
      DigitsAtShift(s, 10);
    } else {
      assert rest == s;
    }
    if PhoneMatches(s) {
      assert DigitsAt(s, plus, 10);
    }
    if PhoneRegex(s) {
      var pl: nat, n: nat :| pl <= 1 && 10 <= n <= 12
        && (pl == 1 ==> |s| > 0 && s[0] == '+') && DigitsAt(s, pl, n);
      if pl != plus {
        // with a leading '+' the other choice would need '+' to be a digit
        assert s[0] == '+' && !IsDigit(s[0]);
      }
      assert DigitsAt(s, plus, 10);
    }
  }

  /** The match is not anchored at the end: anything may follow an
      accepted number. */
  lemma PhoneIgnoresSuffix(s: string, t: string)
    requires PhoneMatches(s)
    ensures PhoneMatches(s + t)
  {
    PhoneMatchesIsRegex(s);
    var pl: nat, n: nat :| pl <= 1 && 10 <= n <= 12
      && (pl == 1 ==> |s| > 0 && s[0] == '+') && DigitsAt(s, pl, n);
    assert forall k :: 0 <= k < |s| ==> (s + t)[k] == s[k];
    assert DigitsAt(s + t, pl, n);
    PhoneMatchesIsRegex(s + t);
  }

  // --------------------------------------------------------- create validation

  /** The e-mail and phone checks a new guest's values pass. */
  predicate ContactsWellFormed(v: GuestVals)
  {
    (v.email == "" || EmailMatches(v.email)) && (v.number == "" || PhoneMatches(v.number))
  }

  /** `create`'s checks, in their order: e-mail pattern, phone pattern, then
      (only for a nonzero age) a guardian under 18 and at least one of
      e-mail, phone and NIN from 18 on. */
  function ValidateCreate(v: GuestVals): (c: Check)
    ensures c == Pass <==> ContactsWellFormed(v)
                           && (v.age != 0 && v.age < 18 ==> v.parent.Some?)
                           && (18 <= v.age ==> v.email != "" || v.number != "" || v.nin != "")
    ensures v.email != "" && !EmailMatches(v.email) ==> c == Fail(InvalidEmail)
    ensures (c == Fail(InvalidPhone)) <==> ((v.email == "" || EmailMatches(v.email))
                                           && v.number != "" && !PhoneMatches(v.number))
    ensures (c == Fail(GuardianRequired)) <==> (ContactsWellFormed(v) && v.age != 0 && v.age < 18 && v.parent.None?)
    ensures (c == Fail(ContactRequired)) <==> (ContactsWellFormed(v) && 18 <= v.age
                                              && v.email == "" && v.number == "" && v.nin == "")
  {
    if v.email != "" && !EmailMatches(v.email) then Fail(InvalidEmail)
    else if v.number != "" && !PhoneMatches(v.number) then Fail(InvalidPhone)
    else if v.age != 0 && v.age < 18 && v.parent.None? then Fail(GuardianRequired)
    else if v.age != 0 && 18 <= v.age && v.email == "" && v.number == "" && v.nin == "" then Fail(ContactRequired)
    else Pass
  }

  // -------------------------------------------------------------- display name

  function BaseName(first: string, last: string): string
  {
    first + " " + last
  }

  /** The number of other guests whose stored name is exactly `name`. */
  function Holders(others: seq<string>, name: string): (n: nat)
    ensures n <= |others|
    ensures n == 0 <==> name !in others
  {
    if others == [] then 0
    else Holders(others[..|others| - 1], name) + (if others[|others| - 1] == name then 1 else 0)
  }

  /** The name with a counter appended: "first last (k)". */
  function Candidate(base: string, k: nat): string
  {
    base + " (" + NatToString(k) + ")"
  }

  lemma CandidateInjective(base: string, a: nat, b: nat)
    requires Candidate(base, a) == Candidate(base, b)
    ensures a == b
  {
    var sa, sb := NatToString(a), NatToString(b);
    var ca, cb := Candidate(base, a), Candidate(base, b);
    assert |sa| == |sb|;
    assert ca[|base| + 2..|base| + 2 + |sa|] == sa;
    assert cb[|base| + 2..|base| + 2 + |sb|] == sb;
    NatToStringInjective(a, b);
  }

  /** `_compute_name` as written: "" when a name part is missing; the base
      name when no other guest holds it; otherwise the base name with the
      count of its other holders plus one. `others` are the stored names of
      every other guest. */
  function ComputeName(others: seq<string>, first: string, last: string): (r: string)
    ensures r == "" <==> first == "" || last == ""
    ensures first != "" && last != "" && BaseName(first, last) !in others ==> r == BaseName(first, last)
    ensures first != "" && last != "" && BaseName(first, last) in others
            ==> r == Candidate(BaseName(first, last), Holders(others, BaseName(first, last)) + 1)
  {
    if first == "" || last == "" then ""
    else
      var base := BaseName(first, last);
      var n := Holders(others, base);
      if n > 0 then Candidate(base, n + 1) else base
  }

  /** The as-written name is another guest's name exactly when the bare
      name is taken and so is the name with the counter the holders of the
      bare name give: holders of counted names are not looked at. */
  lemma NamesakeCollides(others: seq<string>, first: string, last: string)
    requires first != "" && last != ""
    ensures ComputeName(others, first, last) in others
            <==> BaseName(first, last) in others
                 && Candidate(BaseName(first, last), Holders(others, BaseName(first, last)) + 1) in others
  {
  }

  /** The counter only counts holders of the bare name, so a third guest of
      the same name receives the name the second one already holds. */
  lemma ThirdNamesakeCollides()
    ensures var first := ComputeName([], "A", "B");
            var second := ComputeName([first], "A", "B");
            var third := ComputeName([first, second], "A", "B");
            && first == "A B" && second == "A B (2)" && third == second
  {
    var first := ComputeName([], "A", "B");
    assert first == "A B";
    assert Holders([first], "A B") == 1 by {
      assert [first][..0] == [];
    }
    assert NatToString(2) == "2";
    var second := ComputeName([first], "A", "B");
    assert second == "A B (2)";
    assert Holders([first, second], "A B") == 1 by {
      assert [first, second][..1] == [first];
      assert [first][..0] == [];
    }
  }

  /** The smallest counter from `k` on whose name is not taken. */
  function FirstFreeCounter(base: string, taken: set<string>, k: nat): (c: nat)
    ensures k <= c && Candidate(base, c) !in taken
    decreases |taken|
  {
    if Candidate(base, k) !in taken then k
    else
      var c := FirstFreeCounter(base, taken - {Candidate(base, k)}, k + 1);
      if Candidate(base, c) == Candidate(base, k) then
        CandidateInjective(base, c, k);
        k
      else c
  }

  /** The display name with the intended de-duplication: the counter starts
      where `_compute_name` starts it and moves on while the name is taken,
      so the result is never another guest's name. */
  function UniqueName(others: seq<string>, first: string, last: string): (r: string)
    ensures r == "" <==> first == "" || last == ""
    ensures r != "" ==> r !in others
    ensures ComputeName(others, first, last) !in others ==> r == ComputeName(others, first, last)
  {
    if first == "" || last == "" then ""
    else
      var base := BaseName(first, last);
      var n := Holders(others, base);
      if n == 0 then base
      else
        var c := FirstFreeCounter(base, (set x | x in others), n + 1);
        assert Candidate(base, c) != "";
        Candidate(base, c)
  }

  // ------------------------------------------------------------- CRM metrics

  /** A reservation counts for the CRM metrics unless draft or cancelled. */
  predicate Counted(r: Reservation)
  {
    r.state != Draft && r.state != Cancelled
  }

  /** `reserv_ids`: the guest's counted reservations, in store order: every
      one of them, once, and nothing else. */
  function Stays(rs: seq<Reservation>, g: nat): (s: seq<Reservation>)
    ensures |s| <= |rs|
    ensures forall k :: 0 <= k < |s| ==> Counted(s[k]) && s[k].guest == g
  {
    if rs == [] then []
    else Stays(rs[..|rs| - 1], g)
         + (if Counted(rs[|rs| - 1]) && rs[|rs| - 1].guest == g then [rs[|rs| - 1]] else [])
  }

  /** The guest's stays hold each of their counted reservations as often as
      the store does, and nothing else. */
  lemma {:induction false} StaysComplete(rs: seq<Reservation>, g: nat)
    ensures forall x :: multiset(Stays(rs, g))[x] == if Counted(x) && x.guest == g then multiset(rs)[x] else 0
  {
    if rs != [] {
      StaysComplete(rs[..|rs| - 1], g);
      assert rs == rs[..|rs| - 1] + [rs[|rs| - 1]];
    }
  }

  /** `previous_reservations`: how many counted reservations the guest has. */
  function PreviousReservations(rs: seq<Reservation>, g: nat): (n: nat)
    ensures n <= |rs|
  {
    |Stays(rs, g)|
  }

  /** A guest has no previous reservations exactly when none of the
      store's reservations is a counted one of theirs. */
  lemma NoPreviousReservations(rs: seq<Reservation>, g: nat)
    ensures PreviousReservations(rs, g) == 0 <==> forall k :: 0 <= k < |rs| ==> !(Counted(rs[k]) && rs[k].guest == g)
  {
    var s := Stays(rs, g);
    StaysComplete(rs, g);
    forall k | 0 <= k < |rs| && Counted(rs[k]) && rs[k].guest == g ensures s != [] {
      assert rs[k] in multiset(rs);
      assert rs[k] in multiset(s);
    }
  }

  /** The summed `total_price` of some reservations. */
  function SpendSum(stays: seq<Reservation>, rooms: seq<Room>): int
  {
    if stays == [] then 0 else SpendSum(stays[..|stays| - 1], rooms) + TotalPrice(stays[|stays| - 1], rooms)
  }

  /** A sum spread over `n` items; 0 without items. */
  function Average(sum: int, n: nat): (a: real)
    ensures n == 0 ==> a == 0.0
    ensures n > 0 ==> a * n as real == sum as real
  {
    if n == 0 then 0.0
    else
      QuotientTimesDivisor(sum as real, n as real);
      sum as real / n as real
  }

  lemma QuotientTimesDivisor(x: real, n: real)
    requires n != 0.0
    ensures x / n * n == x
  {
  }

  /** `average_spend_per_stay`: summed total price over the number of
      counted reservations, 0 without any. */
  function AverageSpendPerStay(rs: seq<Reservation>, rooms: seq<Room>, g: nat): (a: real)
    ensures PreviousReservations(rs, g) == 0 ==> a == 0.0
  {
    Average(SpendSum(Stays(rs, g), rooms), PreviousReservations(rs, g))
  }

  /** How many of some reservations check in during `year`. */
  function CountInYear(stays: seq<Reservation>, year: int): (n: nat)
    ensures n <= |stays|
  {
    if stays == [] then 0
    else CountInYear(stays[..|stays| - 1], year) + (if YearOf(stays[|stays| - 1].checkIn) == year then 1 else 0)
  }

  /** No stay is counted exactly when none checks in during `year`. */
  lemma {:induction false} CountInYearZero(stays: seq<Reservation>, year: int)
    ensures CountInYear(stays, year) == 0 <==> forall k :: 0 <= k < |stays| ==> YearOf(stays[k].checkIn) != year
  {
    if stays != [] {
      var init := stays[..|stays| - 1];
      CountInYearZero(init, year);
      assert forall k :: 0 <= k < |init| ==> init[k] == stays[k];
    }
  }

  /** Every stay is counted exactly when all of them check in during `year`. */
  lemma {:induction false} CountInYearAll(stays: seq<Reservation>, year: int)
    ensures CountInYear(stays, year) == |stays| <==> forall k :: 0 <= k < |stays| ==> YearOf(stays[k].checkIn) == year
  {
    if stays != [] {
      var init := stays[..|stays| - 1];
      CountInYearAll(init, year);
      assert forall k :: 0 <= k < |init| ==> init[k] == stays[k];
    }
  }

  /** `annual_stay_frequency`: counted reservations checking in this year;
      never more than the counted reservations. */
  function AnnualStayFrequency(rs: seq<Reservation>, g: nat, today: Date): (n: nat)
    ensures n <= PreviousReservations(rs, g)
  {
    CountInYear(Stays(rs, g), YearOf(today))
  }

  /** `annual_stay_frequency` is 0 exactly when the guest has no counted
      reservation checking in during the current year. */
  lemma NoStayThisYear(rs: seq<Reservation>, g: nat, today: Date)
    ensures AnnualStayFrequency(rs, g, today) == 0 <==>
            forall k :: 0 <= k < |rs| ==> !(Counted(rs[k]) && rs[k].guest == g && YearOf(rs[k].checkIn) == YearOf(today))
  {
    var s := Stays(rs, g);
    StaysComplete(rs, g);
    CountInYearZero(s, YearOf(today));
    forall k | 0 <= k < |rs| && Counted(rs[k]) && rs[k].guest == g
      ensures exists j :: 0 <= j < |s| && s[j] == rs[k]
    {
      assert rs[k] in multiset(rs);
      assert rs[k] in multiset(s);
    }
    forall j | 0 <= j < |s|
      ensures exists k :: 0 <= k < |rs| && rs[k] == s[j] && Counted(rs[k]) && rs[k].guest == g
    {
      assert s[j] in multiset(s);
      assert s[j] in multiset(rs);
    }
  }

  const AVERAGE_LIFESPAN := 75

  /** `remaining_healthspan`: years left to an average lifespan of 75, never
      negative, and 0 for an unset (0) age. */
  function RemainingHealthspan(age: int): (h: int)
    ensures 0 <= h
    ensures 0 <= age ==> h <= AVERAGE_LIFESPAN
    ensures age == 0 || AVERAGE_LIFESPAN <= age ==> h == 0
    ensures age != 0 && age < AVERAGE_LIFESPAN ==> h + age == AVERAGE_LIFESPAN
  {
    if age != 0 then (if AVERAGE_LIFESPAN - age > 0 then AVERAGE_LIFESPAN - age else 0) else 0
  }

  /** `clv`: average spend times annual frequency times remaining healthspan;
      0 without counted reservations, without a stay this year, for an unset
      age or from the average lifespan on. */
  function Clv(rs: seq<Reservation>, rooms: seq<Room>, g: nat, age: int, today: Date): (c: real)
    ensures (|| PreviousReservations(rs, g) == 0 || AnnualStayFrequency(rs, g, today) == 0
             || age == 0 || AVERAGE_LIFESPAN <= age) ==> c == 0.0
  {
    ProductZero(AverageSpendPerStay(rs, rooms, g), AnnualStayFrequency(rs, g, today) as real,
                RemainingHealthspan(age) as real);
    AverageSpendPerStay(rs, rooms, g) * (AnnualStayFrequency(rs, g, today) as real)
      * (RemainingHealthspan(age) as real)
  }

  lemma {:induction false} SpendSumAtLeast(stays: seq<Reservation>, rooms: seq<Room>, lo: int)
    requires forall k :: 0 <= k < |stays| ==> lo <= TotalPrice(stays[k], rooms)
    ensures |stays| * lo <= SpendSum(stays, rooms)
  {
    if stays != [] {
      var n := |stays|;
      SpendSumAtLeast(stays[..n - 1], rooms, lo);
      assert n * lo == (n - 1) * lo + lo;
    }
  }

  lemma {:induction false} SpendSumAtMost(stays: seq<Reservation>, rooms: seq<Room>, hi: int)
    requires forall k :: 0 <= k < |stays| ==> TotalPrice(stays[k], rooms) <= hi
    ensures SpendSum(stays, rooms) <= |stays| * hi
  {
    if stays != [] {
      var n := |stays|;
      SpendSumAtMost(stays[..n - 1], rooms, hi);
      assert n * hi == (n - 1) * hi + hi;
    }
  }

  /** A quotient lies between the bounds its dividend lies between, scaled. */
  lemma QuotientBetween(a: real, n: real, lo: real, hi: real)
    requires n > 0.0 && lo * n <= a * n <= hi * n
    ensures lo <= a <= hi
  {
  }

  /** The average spend lies between the smallest and the largest total
      price of the guest's counted reservations. */
  lemma AverageSpendBetween(rs: seq<Reservation>, rooms: seq<Room>, g: nat, lo: int, hi: int)
    requires PreviousReservations(rs, g) > 0
    requires forall k :: 0 <= k < |Stays(rs, g)| ==> lo <= TotalPrice(Stays(rs, g)[k], rooms) <= hi
    ensures lo as real <= AverageSpendPerStay(rs, rooms, g) <= hi as real
  {
    var stays := Stays(rs, g);
    SpendSumAtLeast(stays, rooms, lo);
    SpendSumAtMost(stays, rooms, hi);
    AverageBetween(SpendSum(stays, rooms), |stays|, lo, hi);
  }

  /** An average lies between `lo` and `hi` when the sum lies between `n`
      times each. */
  lemma AverageBetween(sum: int, n: nat, lo: int, hi: int)
    requires n > 0 && n * lo <= sum <= n * hi
    ensures lo as real <= Average(sum, n) <= hi as real
  {
    IntProductAsReal(n, lo);
    IntProductAsReal(n, hi);
    QuotientBetween(Average(sum, n), n as real, lo as real, hi as real);
  }

  lemma IntProductAsReal(n: int, x: int)
    ensures (n * x) as real == x as real * n as real
  {
  }

  lemma ProductNonNegative(x: real, y: real, z: real)
    ensures 0.0 <= x && 0.0 <= y && 0.0 <= z ==> 0.0 <= x * y * z
  {
    if 0.0 <= x && 0.0 <= y && 0.0 <= z {
      assert 0.0 <= x * y;
    }
  }

  lemma ProductZero(x: real, y: real, z: real)
    ensures x == 0.0 || y == 0.0 || z == 0.0 ==> x * y * z == 0.0
  {
  }

  /** The average spend is never negative when no total price is. */
  lemma AverageSpendNonNegative(rs: seq<Reservation>, rooms: seq<Room>, g: nat)
    ensures (forall k :: 0 <= k < |Stays(rs, g)| ==> 0 <= TotalPrice(Stays(rs, g)[k], rooms)) ==>
              0.0 <= AverageSpendPerStay(rs, rooms, g)
  {
    var stays := Stays(rs, g);
    if forall k :: 0 <= k < |stays| ==> 0 <= TotalPrice(stays[k], rooms) {
      SpendSumAtLeast(stays, rooms, 0);
      AverageNonNegative(SpendSum(stays, rooms), |stays|);
    }
  }

  lemma AverageNonNegative(sum: int, n: nat)
    requires 0 <= sum
    ensures 0.0 <= Average(sum, n)
  {
    if n > 0 {
      QuotientBetween(Average(sum, n), n as real, 0.0, Average(sum, n));
    }
  }

  /** The lifetime value is never negative when no total price is. */
  lemma ClvNonNegative(rs: seq<Reservation>, rooms: seq<Room>, g: nat, age: int, today: Date)
    requires forall k :: 0 <= k < |Stays(rs, g)| ==> 0 <= TotalPrice(Stays(rs, g)[k], rooms)
    ensures Clv(rs, rooms, g, age, today) >= 0.0
  {
    AverageSpendNonNegative(rs, rooms, g);
    ProductNonNegative(AverageSpendPerStay(rs, rooms, g), AnnualStayFrequency(rs, g, today) as real,
                       RemainingHealthspan(age) as real);
  }
}
