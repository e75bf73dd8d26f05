/** Scheduling a screening (EmployeeAddScreeningController): the hour options
    of the form, and `add`, which refuses a slot in the past or a slot that
    another screening already holds, and otherwise stores a screening with
    fifty free seats and shows it on the dashboard. */
module Scheduling {
  import opened JavaLang
  import opened Dates
  import opened Seats
  import opened Screenings
  import opened Repository
  import opened Dashboard

  /** The seats of a new screening. */
  const NUMBER_OF_SEATS: nat := 50
  /** The hours the time box offers. */
  const FIRST_HOUR: int := 12
  const LAST_HOUR: int := 24

  // ---------------------------------------------------------------------
  // The time box
  // ---------------------------------------------------------------------

  /** The entry of the time box for an hour: `i + ":00"`. */
  function TimeOption(hour: int): string {
    IntToString(hour) + ":00"
  }

  /** `setupTimeAndDate`: one entry per hour from 12 to 24. */
  method TimeOptions() returns (options: seq<string>)
    ensures |options| == LAST_HOUR - FIRST_HOUR + 1
    ensures forall k :: 0 <= k < |options| ==> options[k] == TimeOption(FIRST_HOUR + k)
  {
    options := [];
    var i := FIRST_HOUR;
    while i <= LAST_HOUR
      invariant FIRST_HOUR <= i <= LAST_HOUR + 1
      invariant |options| == i - FIRST_HOUR
      invariant forall k :: 0 <= k < |options| ==> options[k] == TimeOption(FIRST_HOUR + k)
    {
      options := options + [TimeOption(i)];
      i := i + 1;
    }
  }

  /** `Integer.parseInt(item.substring(0, 2))`: the hour `add` reads off the
      chosen entry; None where parseInt throws. */
  function HourOf(option: string): Option<Int32>
    requires |option| >= 2
  {
    ParseInt(option[..2])
  }

  lemma TwoDigits(n: int)
    requires 10 <= n <= 99
    ensures |IntToString(n)| == 2
  {
    assert NatToString(n) == NatToString(n / 10) + [DigitChar(n % 10)];
  }

  /** Every entry of the time box reads back as its hour, so `add` only ever
      sees hours from 12 to 24. */
  lemma HourOfOption(hour: int)
    requires FIRST_HOUR <= hour <= LAST_HOUR
    ensures |TimeOption(hour)| >= 2 && HourOf(TimeOption(hour)) == Some(hour)
  {
    TwoDigits(hour);
    ParseIntToString(hour);
    assert TimeOption(hour)[..2] == IntToString(hour);
  }

  // ---------------------------------------------------------------------
  // The checks of add
  // ---------------------------------------------------------------------

  /** A row holds the slot: `getDate().equals(date)` and `getTime() == time`. */
  predicate SameSlot(row: ScreeningRow, date: string, time: int) {
    row.date == date && row.time == time
  }

  /** No two screenings share date and hour. */
  predicate SlotsUnique(rows: seq<ScreeningRow>) {
    forall i, j :: 0 <= i < j < |rows| ==> !SameSlot(rows[i], rows[j].date, rows[j].time)
  }

  /** The scan of `add` over every stored screening: the first row that
      holds the slot, or -1. */
  method FindSlot(rows: seq<ScreeningRow>, date: string, time: int) returns (idx: int)
    ensures idx >= -1
    ensures idx == -1 <==> forall i :: 0 <= i < |rows| ==> !SameSlot(rows[i], date, time)
    ensures idx >= 0 ==> idx < |rows| && SameSlot(rows[idx], date, time)
    ensures idx >= 0 ==> forall i :: 0 <= i < idx ==> !SameSlot(rows[i], date, time)
  {
    var i := 0;
    while i < |rows|
      invariant 0 <= i <= |rows|
      invariant forall k :: 0 <= k < i ==> !SameSlot(rows[k], date, time)
    {
      var tempScreen := rows[i];
      if tempScreen.date == date {
        if tempScreen.time == time {
          return i;
        }
      }
      i := i + 1;
    }
    return -1;
  }

  datatype Rejection =
    /** "You cannot schedule a screening in the past." */
    | InPast
    /** "This time slot is already taken", naming the screening that holds it. */
    | SlotTaken(existing: ScreeningRow)

  /** The two refusals of `add`, in order: a slot in the past, then a slot
      any stored screening holds, whatever its movie. */
  method Vet(rows: seq<ScreeningRow>, date: CalendarDate, time: Int32, today: Date, currentHour: int)
    returns (rejection: Option<Rejection>)
    ensures IsPast(date, time, today, currentHour) ==> rejection == Some(InPast)
    ensures !IsPast(date, time, today, currentHour) ==>
      (rejection.None? <==> forall i :: 0 <= i < |rows| ==> !SameSlot(rows[i], IsoString(date), time))
    ensures !IsPast(date, time, today, currentHour) && rejection.Some? ==>
      rejection.value.SlotTaken? && rejection.value.existing in rows
      && SameSlot(rejection.value.existing, IsoString(date), time)
  {
    if IsPast(date, time, today, currentHour) {
      return Some(InPast);
    }
    var idx := FindSlot(rows, IsoString(date), time);
    if idx >= 0 {
      return Some(SlotTaken(rows[idx]));
    }
    return None;
  }

  // ---------------------------------------------------------------------
  // The new screening
  // ---------------------------------------------------------------------

  /** `n` characters '0'. */
  function Zeros(n: nat): (s: string)
    ensures |s| == n
  {
    seq(n, _ => '0')
  }

  /** The StringBuilder loop of `add`: one '0' per seat. */
  method ZeroSeats(numberOfSeats: nat) returns (seatString: string)
    ensures seatString == Zeros(numberOfSeats)
  {
    seatString := "";
    var i := 0;
    while i < numberOfSeats
      invariant 0 <= i <= numberOfSeats
      invariant seatString == Zeros(i)
    {
      seatString := seatString + "0";
      i := i + 1;
    }
  }

  /** A string of zeros decodes to free seats: none booked, all available,
      and it is a well-formed seat string. */
  lemma ZerosAreFree(n: nat)
    ensures DecodeFlags(Zeros(n)) == seq(n, _ => false)
    ensures IsSeatString(Zeros(n))
    ensures CountBooked(DecodeFlags(Zeros(n))) == 0 && CountFree(DecodeFlags(Zeros(n))) == n
  {
    assert DecodeFlags(Zeros(n)) == seq(n, _ => false);
    AllFreeCounts(n);
  }

  /** The new screening object, filled in through its setters. Its id stays
      the 0 the constructor gave it. */
  method NewScreening(movieId: int, movieName: string, date: CalendarDate, time: Int32)
    returns (newScreening: Screening)
    ensures fresh(newScreening) && newScreening.Valid()
    ensures newScreening.screenId == 0 && newScreening.movieId == movieId && newScreening.movieName == movieName
    ensures newScreening.date == date && newScreening.time == time
    ensures KeysOf(newScreening.seats) == LayoutKeys(NUMBER_OF_SEATS)
    ensures FlagsOf(newScreening.seats) == seq(NUMBER_OF_SEATS, _ => false)
  {
    newScreening := new Screening();
    var seatString := ZeroSeats(NUMBER_OF_SEATS);
    ZerosAreFree(NUMBER_OF_SEATS);
    newScreening.SetSeats(seatString);
    ghost var list := newScreening.seats;
    ghost var ks, fl := KeysOf(list), FlagsOf(list);
    newScreening.date := date;
    newScreening.time := time;
    newScreening.movieId := movieId;
    newScreening.movieName := movieName;
    assert newScreening.seats == list && KeysOf(list) == ks && FlagsOf(list) == fl;
  }

  /** The new screening and the row `addScreening` inserts for it: the insert
      names no id and nothing reads one back. */
  method Schedule(db: Database, movieId: int, movieName: string, date: CalendarDate, time: Int32)
    returns (newScreening: Screening, id: int)
    requires db.Valid()
    modifies db
    ensures db.Valid() && fresh(newScreening) && newScreening.Valid()
    ensures newScreening.screenId == 0 && newScreening.movieId == movieId && newScreening.movieName == movieName
    ensures newScreening.date == date && newScreening.time == time
    ensures KeysOf(newScreening.seats) == LayoutKeys(NUMBER_OF_SEATS)
    ensures FlagsOf(newScreening.seats) == seq(NUMBER_OF_SEATS, _ => false)
    ensures id == old(db.nextScreenId)
    ensures db.screenings == old(db.screenings) + [ScreeningRow(id, movieId, Zeros(NUMBER_OF_SEATS), IsoString(date), time)]
    ensures db.bookings == old(db.bookings)
    ensures db.nextScreenId == old(db.nextScreenId) + 1 && db.nextBookingId == old(db.nextBookingId)
  {
    newScreening := NewScreening(movieId, movieName, date, time);
    var stored := newScreening.GetSeats();
    ZerosAreFree(NUMBER_OF_SEATS);
    assert EncodeFlags(seq(NUMBER_OF_SEATS, _ => false)) == Zeros(NUMBER_OF_SEATS);
    id := db.AddScreening(newScreening.movieId, stored, IsoString(newScreening.date), newScreening.time);
  }

  datatype AddOutcome = Rejected(reason: Rejection) | Added(screening: Screening)

  /** `add` as written: the screening object appended to the dashboard keeps
      id 0 while its row gets the next id of the table. */
  method AddAsWritten(db: Database, dashboard: EmployeeDashboard, movieId: int, movieName: string,
                      selectedDate: CalendarDate, option: string, today: Date, currentHour: int)
    returns (outcome: AddOutcome)
    requires db.Valid() && |option| >= 2 && HourOf(option).Some?
    modifies db, dashboard
    ensures db.Valid()
    ensures outcome.Added? ==>
      outcome.screening.screenId == 0
      && |db.screenings| == |old(db.screenings)| + 1
      && db.screenings[|db.screenings| - 1].screenId == old(db.nextScreenId) >= 1
      && dashboard.observableList == old(dashboard.observableList) + [outcome.screening]
      && db.nextScreenId == old(db.nextScreenId) + 1 && db.nextBookingId == old(db.nextBookingId)
  {
    var time := HourOf(option).value;
    var rejection := Vet(db.screenings, selectedDate, time, today, currentHour);
    if rejection.Some? {
      return Rejected(rejection.value);
    }
    var newScreening, id := Schedule(db, movieId, movieName, selectedDate, time);
    dashboard.AppendScreening(newScreening);
    outcome := Added(newScreening);
  }

  /** Deleting by id 0 removes no stored screening, as every stored id is at
      least 1: the dashboard entry `add` appended cannot delete its row. */
  lemma StaleIdDeletesNothing(rows: seq<ScreeningRow>, row: ScreeningRow, stale: Screening)
    requires forall r :: r in rows ==> 1 <= r.screenId
    requires row in rows && stale.screenId == 0
    ensures row in WithoutScreening(rows, stale.screenId)
    ensures !HasId([stale], row.screenId)
  {
  }

  /** `add` with the id of the inserted row read back into the screening
      object before it goes on the dashboard. A refused slot changes
      nothing; an accepted one appends exactly one row, with fifty free
      seats, the chosen date, hour and movie, and keeps the slots distinct. */
  method AddScreening(db: Database, dashboard: EmployeeDashboard, movieId: int, movieName: string,
                      selectedDate: CalendarDate, option: string, today: Date, currentHour: int)
    returns (outcome: AddOutcome)
    requires db.Valid() && |option| >= 2 && HourOf(option).Some?
    modifies db, dashboard
    ensures db.Valid()
    ensures IsPast(selectedDate, HourOf(option).value, today, currentHour) ==> outcome == Rejected(InPast)
    ensures outcome.Rejected? ==>
      db.screenings == old(db.screenings) && db.bookings == old(db.bookings)
      && dashboard.observableList == old(dashboard.observableList)
      && db.nextScreenId == old(db.nextScreenId) && db.nextBookingId == old(db.nextBookingId)
    ensures outcome.Rejected? && outcome.reason.SlotTaken? ==>
      outcome.reason.existing in old(db.screenings)
      && SameSlot(outcome.reason.existing, IsoString(selectedDate), HourOf(option).value)
    ensures outcome.Added? <==>
      !IsPast(selectedDate, HourOf(option).value, today, currentHour)
      && forall i :: 0 <= i < |old(db.screenings)| ==>
           !SameSlot(old(db.screenings)[i], IsoString(selectedDate), HourOf(option).value)
    ensures outcome.Added? ==>
      fresh(outcome.screening)
      && outcome.screening.screenId == old(db.nextScreenId)
      && outcome.screening.movieId == movieId && outcome.screening.movieName == movieName
      && outcome.screening.date == selectedDate && outcome.screening.time == HourOf(option).value
      && FlagsOf(outcome.screening.seats) == seq(NUMBER_OF_SEATS, _ => false)
      && db.screenings == old(db.screenings)
         + [ScreeningRow(outcome.screening.screenId, movieId, Zeros(NUMBER_OF_SEATS),
                         IsoString(selectedDate), HourOf(option).value)]
      && db.bookings == old(db.bookings)
      && dashboard.observableList == old(dashboard.observableList) + [outcome.screening]
      && db.nextScreenId == old(db.nextScreenId) + 1 && db.nextBookingId == old(db.nextBookingId)
    ensures SlotsUnique(old(db.screenings)) ==> SlotsUnique(db.screenings)
  {
    var time := HourOf(option).value;
    var rejection := Vet(db.screenings, selectedDate, time, today, currentHour);
    if rejection.Some? {
      return Rejected(rejection.value);
    }
    ghost var rows0 := db.screenings;
    var newScreening, id := Schedule(db, movieId, movieName, selectedDate, time);
    newScreening.screenId := id;
    dashboard.AppendScreening(newScreening);
    AppendKeepsSlotsUnique(rows0, db.screenings[|db.screenings| - 1]);
    outcome := Added(newScreening);
  }

  /** Appending a row whose slot no row holds keeps the slots distinct. */
  lemma AppendKeepsSlotsUnique(rows: seq<ScreeningRow>, row: ScreeningRow)
    requires forall i :: 0 <= i < |rows| ==> !SameSlot(rows[i], row.date, row.time)
    ensures SlotsUnique(rows) ==> SlotsUnique(rows + [row])
  {
  }

  /** The slot check compares the ISO text of the date, which is the same
      as comparing the dates. */
  lemma SlotCheckIsDateCheck(row: ScreeningRow, d: CalendarDate, e: CalendarDate, time: int)
    requires row.date == IsoString(e)
    ensures SameSlot(row, IsoString(d), time) <==> d == e && row.time == time
  {
    IsoStringInjective(d, e);
  }

  /** A new screening has fifty seats, none booked and all available. */
  lemma NewScreeningCounts(fs: seq<bool>)
    requires fs == seq(NUMBER_OF_SEATS, _ => false)
    ensures |fs| == 50 && CountBooked(fs) == 0 && CountFree(fs) == 50
  {
    AllFreeCounts(NUMBER_OF_SEATS);
  }
}
