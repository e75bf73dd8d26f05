/** The employee dashboard (EmployeeDashboardController): the upcoming
    screenings with search and sort, the deletion of selected screenings
    together with their bookings, and the CSV export of screenings with
    their seat counts. */
module Dashboard {
  import opened JavaLang
  import opened Dates
  import opened Seats
  import opened Screenings
  import opened Comparators
  import opened Listings
  import opened Repository

  // ---------------------------------------------------------------------
  // CSV projection
  // ---------------------------------------------------------------------

  const HEADER: string := "Movie Title,Date,Time,Total Seats,Booked Seats,Available Seats"

  /** The fields of an exported line, in column order: name, date, hour with
      ":00", and the three seat counts. */
  function CsvFields(name: string, date: CalendarDate, time: int, total: int, booked: int, available: int): (f: seq<string>)
    ensures |f| == 6
  {
    [name, IsoString(date), IntToString(time) + ":00", IntToString(total), IntToString(booked), IntToString(available)]
  }

  /** One exported line: its fields separated by commas. */
  function CsvRow(name: string, date: CalendarDate, time: int, total: int, booked: int, available: int): string {
    JoinWith(CsvFields(name, date, time, total, booked, available), ',')
  }

  /** The line of one screening, with its counts as the getters compute them. */
  function RowText(s: Screening): string
    reads s, s.seats
  {
    CsvRow(s.movieName, s.date, s.time, |s.seats|, CountBooked(FlagsOf(s.seats)), CountFree(FlagsOf(s.seats)))
  }

  /** The lines of a list of screenings, in list order. */
  function RowTexts(ss: seq<Screening>): (ts: seq<string>)
    reads ss, SeatsOfAll(ss)
    ensures |ts| == |ss|
  {
    if ss == [] then []
    else
      SeatsOfAllHead(ss);
      [RowText(ss[0])] + RowTexts(ss[1..])
  }

  /** Every line preceded by the line separator. */
  function Lines(ts: seq<string>, lineSep: string): string {
    if ts == [] then "" else lineSep + ts[0] + Lines(ts[1..], lineSep)
  }

  /** The file `export` writes for the list `ss`. */
  function Csv(ss: seq<Screening>, lineSep: string): string
    reads ss, SeatsOfAll(ss)
  {
    HEADER + Lines(RowTexts(ss), lineSep)
  }

  lemma IsoStringChars(d: Date)
    requires ValidDate(d)
    ensures forall i :: 0 <= i < |IsoString(d)| ==> IsDigit(IsoString(d)[i]) || IsoString(d)[i] == '-'
  {
    var a, b, c := Digits(d.year, 4), Digits(d.month, 2), Digits(d.day, 2);
    assert IsoString(d) == a + "-" + b + "-" + c;
  }

  /** Six pieces separated by commas are the six pieces joined with ','. */
  lemma JoinSix(a: string, b: string, c: string, d: string, e: string, f: string)
    ensures a + "," + b + "," + c + "," + d + "," + e + "," + f == JoinWith([a, b, c, d, e, f], ',')
  {
    var p := [a, b, c, d, e, f];
    assert p[1..] == [b, c, d, e, f];
    assert p[1..][1..] == [c, d, e, f];
    assert p[1..][1..][1..] == [d, e, f];
    assert p[1..][1..][1..][1..] == [e, f];
    assert p[1..][1..][1..][1..][1..] == [f];
    assert JoinWith([e, f], ',') == e + "," + f;
    assert JoinWith([d, e, f], ',') == d + "," + (e + "," + f);
    assert JoinWith([c, d, e, f], ',') == c + "," + (d + "," + (e + "," + f));
    assert JoinWith([b, c, d, e, f], ',') == b + "," + (c + "," + (d + "," + (e + "," + f)));
  }

  /** A line whose movie name has no comma splits back into its six fields,
      and the three counts read back as the numbers written. */
  lemma CsvRowSplit(name: string, date: CalendarDate, time: int, total: Int32, booked: Int32, available: Int32)
    requires ',' !in name
    ensures var f := Split(CsvRow(name, date, time, total, booked, available), ',');
      f == CsvFields(name, date, time, total, booked, available)
      && ParseInt(f[3]) == Some(total) && ParseInt(f[4]) == Some(booked) && ParseInt(f[5]) == Some(available)
  {
    var f := CsvFields(name, date, time, total, booked, available);
    IsoStringChars(date);
    assert ',' !in f[1];
    assert ',' !in f[2] by {
      assert f[2] == IntToString(time) + ":00";
    }
    SplitJoin(f, ',');
    ParseIntToString(total);
    ParseIntToString(booked);
    ParseIntToString(available);
  }

  /** In every exported line the booked and the available count add up to the total. */
  lemma RowCountsAddUp(s: Screening)
    requires ',' !in s.movieName && |s.seats| <= INT_MAX
    ensures var f := Split(RowText(s), ',');
      |f| == 6
      && exists t: Int32, b: Int32, a: Int32 ::
           ParseInt(f[3]) == Some(t) && ParseInt(f[4]) == Some(b) && ParseInt(f[5]) == Some(a) && b + a == t
  {
    var fs := FlagsOf(s.seats);
    CountsAddUp(fs);
    var t: Int32, b: Int32, a: Int32 := |s.seats|, CountBooked(fs), CountFree(fs);
    CsvRowSplit(s.movieName, s.date, s.time, t, b, a);
  }

  /** Lines joined to a first line are the pieces joined by the separator. */
  lemma {:induction false} LinesIsJoin(first: string, ts: seq<string>, sep: char)
    ensures first + Lines(ts, [sep]) == JoinWith([first] + ts, sep)
    decreases |ts|
  {
    if ts != [] {
      LinesIsJoin(ts[0], ts[1..], sep);
      assert ([first] + ts)[1..] == [ts[0]] + ts[1..];
      assert [ts[0]] + ts[1..] == ts;
    }
  }

  /** A header and lines none of which holds the one-character separator split
      back into the header and the lines, in order. */
  lemma LinesSplit(header: string, ts: seq<string>, sep: char)
    requires sep !in header
    requires forall i :: 0 <= i < |ts| ==> sep !in ts[i] && ts[i] != []
    ensures Split(header + Lines(ts, [sep]), sep) == [header] + ts
  {
    var parts := [header] + ts;
    LinesIsJoin(header, ts, sep);
    forall k | 0 <= k < |parts|
      ensures sep !in parts[k]
    {
      if k > 0 {
        assert parts[k] == ts[k - 1];
      }
    }
    if ts == [] {
      assert header + Lines(ts, [sep]) == header;
      assert Split(header, sep) == [header];
    } else {
      assert parts[|parts| - 1] == ts[|ts| - 1];
      SplitJoin(parts, sep);
    }
  }

  /** With a one-character line separator that no line contains, the file
      splits into the header and one line per screening, in list order. */
  lemma CsvLines(ss: seq<Screening>, sep: char)
    requires sep !in HEADER
    requires forall i :: 0 <= i < |ss| ==> sep !in RowTexts(ss)[i] && RowTexts(ss)[i] != []
    ensures Split(Csv(ss, [sep]), sep) == [HEADER] + RowTexts(ss)
  {
    LinesSplit(HEADER, RowTexts(ss), sep);
  }

  /** The export file starts with the header. */
  lemma CsvStartsWithHeader(ss: seq<Screening>, lineSep: string)
    ensures |Csv(ss, lineSep)| >= |HEADER| && Csv(ss, lineSep)[..|HEADER|] == HEADER
  {
  }

  lemma {:induction false} RowTextsAt(ss: seq<Screening>, i: nat)
    requires i < |ss|
    ensures RowTexts(ss)[i] == RowText(ss[i])
  {
    if i > 0 {
      RowTextsAt(ss[1..], i - 1);
    }
  }

  /** The lines of a list depend only on its screenings and their seats. */
  twostate lemma {:induction false} RowTextsUnchanged(ss: seq<Screening>)
    requires forall s :: s in ss ==> old(allocated(s)) && unchanged(s)
    requires forall s, x :: s in ss && x in s.seats ==> old(allocated(x)) && unchanged(x)
    ensures RowTexts(ss) == old(RowTexts(ss))
  {
    if ss != [] {
      assert ss[0] in ss;
      assert forall s :: s in ss[1..] ==> s in ss;
      RowTextsUnchanged(ss[1..]);
      var s0 := ss[0];
      assert s0.seats == old(s0.seats);
      forall k | 0 <= k < |s0.seats|
        ensures FlagsOf(s0.seats)[k] == old(FlagsOf(s0.seats))[k]
      {
        assert s0.seats[k] in s0.seats;
      }
      assert FlagsOf(s0.seats) == old(FlagsOf(s0.seats));
      assert RowText(s0) == old(RowText(s0));
    }
  }

  /** The appends of `export` for one line give the six fields joined by commas. */
  lemma AppendedRow(a: string, b: string, h: string, d: string, e: string, f: string)
    ensures a + "," + b + "," + h + ":00," + d + "," + e + "," + f == JoinWith([a, b, h + ":00", d, e, f], ',')
  {
    var front := a + "," + b + ",";
    assert front + h + ":00," == front + (h + ":00") + ",";
    JoinSix(a, b, h + ":00", d, e, f);
  }

  /** The line `export` appends for one screening, from its getters. */
  method ExportRow(screening: Screening) returns (row: string)
    ensures row == RowText(screening)
  {
    var total := screening.GetTotalSeats();
    var booked := screening.GetBookedSeats();
    var available := screening.GetAvailableSeats();
    var hour := IntToString(screening.time);
    row := screening.movieName + ",";
    row := row + IsoString(screening.date) + ",";
    row := row + hour + ":00,";
    row := row + IntToString(total) + ",";
    row := row + IntToString(booked) + ",";
    row := row + IntToString(available);
    AppendedRow(screening.movieName, IsoString(screening.date), hour,
                IntToString(total), IntToString(booked), IntToString(available));
  }

  /** The line of the `i`-th screening, read through its getters; reading
      changes no line. */
  method ExportRowAt(screenings: seq<Screening>, i: nat) returns (row: string)
    requires i < |screenings|
    ensures row == RowTexts(screenings)[i]
    ensures RowTexts(screenings) == old(RowTexts(screenings))
  {
    label Before:
    row := ExportRow(screenings[i]);
    RowTextsUnchanged@Before(screenings);
    RowTextsAt(screenings, i);
  }

  /** One line more of the file: what is written plus what is left stays the whole file. */
  lemma LinesStep(rows: seq<string>, i: nat, lineSep: string, csv: string, whole: string)
    requires i < |rows| && csv + Lines(rows[i..], lineSep) == whole
    ensures (csv + lineSep + rows[i]) + Lines(rows[i + 1..], lineSep) == whole
  {
    assert rows[i..][1..] == rows[i + 1..];
    assert Lines(rows[i..], lineSep) == lineSep + rows[i] + Lines(rows[i + 1..], lineSep);
  }

  /** `export`: the header, then for every screening a line separator and its line. */
  method Export(screenings: seq<Screening>, lineSep: string) returns (csv: string)
    ensures csv == Csv(screenings, lineSep)
  {
    ghost var rows := RowTexts(screenings);
    csv := HEADER;
    var i := 0;
    while i < |screenings|
      invariant 0 <= i <= |screenings|
      invariant rows == RowTexts(screenings)
      invariant csv + Lines(rows[i..], lineSep) == HEADER + Lines(rows, lineSep)
    {
      var row := ExportRowAt(screenings, i);
      LinesStep(rows, i, lineSep, csv, HEADER + Lines(rows, lineSep));
      csv := csv + lineSep + row;
      i := i + 1;
    }
    assert rows[i..] == [];
  }

  // ---------------------------------------------------------------------
  // Deleting screenings together with their bookings
  // ---------------------------------------------------------------------

  /** Some screening of the list has this id. */
  predicate HasId(ss: seq<Screening>, id: int)
    reads ss
  {
    exists j :: 0 <= j < |ss| && ss[j].screenId == id
  }

  lemma HasIdStep(ss: seq<Screening>, i: nat, id: int)
    requires i < |ss|
    ensures HasId(ss[..i + 1], id) <==> HasId(ss[..i], id) || ss[i].screenId == id
  {
    if HasId(ss[..i + 1], id) {
      var j :| 0 <= j < i + 1 && ss[..i + 1][j].screenId == id;
      if j < i {
        assert ss[..i][j] == ss[j];
      }
    }
    if HasId(ss[..i], id) {
      var j :| 0 <= j < i && ss[..i][j].screenId == id;
      assert ss[..i + 1][j] == ss[j];
    }
    if ss[i].screenId == id {
      assert ss[..i + 1][i] == ss[i];
    }
  }

  /** Booking ids are keys: two rows of the table with the same id are one row. */
  lemma SameBookingId(rows: seq<BookingRow>, x: BookingRow, y: BookingRow)
    requires UniqueBookingIds(rows) && x in rows && y in rows && x.bookingId == y.bookingId
    ensures x == y
  {
    var i :| 0 <= i < |rows| && rows[i] == x;
    var j :| 0 <= j < |rows| && rows[j] == y;
    assert i == j;
  }

  /** Some row of the list carries this booking id. */
  predicate IdAmong(list: seq<BookingRow>, bookingId: int) {
    exists j :: 0 <= j < |list| && list[j].bookingId == bookingId
  }

  /** A row's id is among the ids `searchBookings(id)` returned exactly when
      the row belongs to screening `id`. */
  lemma BookingsOfIds(rows: seq<BookingRow>, id: int, r: BookingRow)
    requires UniqueBookingIds(rows) && r in rows
    ensures IdAmong(BookingsOf(rows, id), r.bookingId) <==> r.screenId == id
  {
    var found := BookingsOf(rows, id);
    if r.screenId == id {
      assert r in found;
      var j :| 0 <= j < |found| && found[j] == r;
      assert found[j].bookingId == r.bookingId;
    } else {
      forall j | 0 <= j < |found|
        ensures found[j].bookingId != r.bookingId
      {
        assert found[j] in found;
        if found[j].bookingId == r.bookingId {
          SameBookingId(rows, found[j], r);
        }
      }
    }
  }

  /** The rows whose id `searchBookings(id)` did not return are exactly the
      rows of the other screenings. */
  lemma NotAmongIds(rows: seq<BookingRow>, id: int)
    requires UniqueBookingIds(rows)
    ensures forall r :: r in rows ==> (!IdAmong(BookingsOf(rows, id), r.bookingId) <==> r.screenId != id)
  {
    forall r | r in rows
      ensures !IdAmong(BookingsOf(rows, id), r.bookingId) <==> r.screenId != id
    {
      BookingsOfIds(rows, id, r);
    }
  }

  lemma IdAmongStep(list: seq<BookingRow>, k: nat, bookingId: int)
    requires k < |list|
    ensures IdAmong(list[..k + 1], bookingId) <==> IdAmong(list[..k], bookingId) || list[k].bookingId == bookingId
  {
    if IdAmong(list[..k + 1], bookingId) {
      var j :| 0 <= j < k + 1 && list[..k + 1][j].bookingId == bookingId;
      if j < k {
        assert list[..k][j] == list[j];
      }
    }
    if list[k].bookingId == bookingId {
      assert list[..k + 1][k] == list[k];
    }
    if IdAmong(list[..k], bookingId) {
      var j :| 0 <= j < k && list[..k][j].bookingId == bookingId;
      assert list[..k + 1][j] == list[j];
    }
  }

  /** One deletion more: the rows left are those whose id is none of the
      first `k + 1` ids. */
  lemma DeleteStep(b0: seq<BookingRow>, before: seq<BookingRow>, after: seq<BookingRow>, list: seq<BookingRow>, k: nat)
    requires k < |list|
    requires forall r :: r in before <==> r in b0 && !IdAmong(list[..k], r.bookingId)
    requires forall r :: r in after <==> r in before && r.bookingId != list[k].bookingId
    ensures forall r :: r in after <==> r in b0 && !IdAmong(list[..k + 1], r.bookingId)
  {
    forall r: BookingRow
      ensures IdAmong(list[..k + 1], r.bookingId) <==> IdAmong(list[..k], r.bookingId) || list[k].bookingId == r.bookingId
    {
      IdAmongStep(list, k, r.bookingId);
    }
  }

  /** The inner loop of `deleteScreenings`: every booking `searchBookings`
      returns for the screening is deleted by its id. */
  method DeleteBookingsOf(db: Database, screenId: int)
    requires db.Valid()
    modifies db
    ensures db.Valid()
    ensures forall r :: r in db.bookings <==> r in old(db.bookings) && r.screenId != screenId
    ensures db.screenings == old(db.screenings)
    ensures db.nextScreenId == old(db.nextScreenId) && db.nextBookingId == old(db.nextBookingId)
  {
    var bookingList := db.SearchBookings(screenId);
    ghost var b0 := db.bookings;
    var k := 0;
    while k < |bookingList|
      invariant 0 <= k <= |bookingList|
      invariant db.Valid()
      invariant forall r :: r in db.bookings <==> r in b0 && !IdAmong(bookingList[..k], r.bookingId)
      invariant db.screenings == old(db.screenings)
      invariant db.nextScreenId == old(db.nextScreenId) && db.nextBookingId == old(db.nextBookingId)
    {
      ghost var before := db.bookings;
      db.DeleteBooking(bookingList[k].bookingId);
      DeleteStep(b0, before, db.bookings, bookingList, k);
      k := k + 1;
    }
    assert bookingList[..k] == bookingList;
    NotAmongIds(b0, screenId);
  }

  /** One screening more: the rows left are those of none of the first
      `i + 1` selected screenings. */
  lemma CascadeStep(b0: seq<BookingRow>, b1: seq<BookingRow>, b2: seq<BookingRow>,
                    s0: seq<ScreeningRow>, s1: seq<ScreeningRow>, s2: seq<ScreeningRow>,
                    selected: seq<Screening>, i: nat)
    requires i < |selected|
    requires forall r :: r in b1 <==> r in b0 && !HasId(selected[..i], r.screenId)
    requires forall r :: r in s1 <==> r in s0 && !HasId(selected[..i], r.screenId)
    requires forall r :: r in b2 <==> r in b1 && r.screenId != selected[i].screenId
    requires forall r :: r in s2 <==> r in s1 && r.screenId != selected[i].screenId
    ensures forall r :: r in b2 <==> r in b0 && !HasId(selected[..i + 1], r.screenId)
    ensures forall r :: r in s2 <==> r in s0 && !HasId(selected[..i + 1], r.screenId)
  {
    forall id
      ensures HasId(selected[..i + 1], id) <==> HasId(selected[..i], id) || selected[i].screenId == id
    {
      HasIdStep(selected, i, id);
    }
  }

  /** The outer loop of `deleteScreenings`: for each selected screening, its
      bookings, then the screening itself. */
  method DeleteCascade(db: Database, selected: seq<Screening>)
    requires db.Valid()
    modifies db
    ensures db.Valid()
    ensures forall r :: r in db.bookings <==> r in old(db.bookings) && !HasId(selected, r.screenId)
    ensures forall r :: r in db.screenings <==> r in old(db.screenings) && !HasId(selected, r.screenId)
    ensures db.nextScreenId == old(db.nextScreenId) && db.nextBookingId == old(db.nextBookingId)
  {
    ghost var b0, s0 := db.bookings, db.screenings;
    var i := 0;
    while i < |selected|
      invariant 0 <= i <= |selected|
      invariant db.Valid()
      invariant forall r :: r in db.bookings <==> r in b0 && !HasId(selected[..i], r.screenId)
      invariant forall r :: r in db.screenings <==> r in s0 && !HasId(selected[..i], r.screenId)
      invariant db.nextScreenId == old(db.nextScreenId) && db.nextBookingId == old(db.nextBookingId)
    {
      var screening := selected[i];
      ghost var bookingsBefore, screeningsBefore := db.bookings, db.screenings;
      DeleteBookingsOf(db, screening.screenId);
      db.DeleteScreening(screening.screenId);
      CascadeStep(b0, bookingsBefore, db.bookings, s0, screeningsBefore, db.screenings, selected, i);
      i := i + 1;
    }
    assert selected[..i] == selected;
  }

  // ---------------------------------------------------------------------
  // The dashboard
  // ---------------------------------------------------------------------

  class EmployeeDashboard {
    var screeningList: seq<Screening>
    var observableList: seq<Screening>
    /** The text of the search box the shown list was last filtered with. */
    var query: string
    /** The comparator of the sorted view. */
    var ordering: Ordering

    constructor ()
      ensures screeningList == [] && observableList == [] && query == "" && ordering == ByDate
    {
      screeningList := [];
      observableList := [];
      query := "";
      ordering := ByDate;
    }

    /** What the list view shows, before sorting. */
    function Shown(): seq<Screening>
      reads this, observableList
    {
      Keep(observableList, NameMatches(query))
    }

    /** `setListView` with `loaded` the screenings the database returns. */
    method SetListView(loaded: seq<Screening>, today: Date, currentHour: int)
      modifies this
      ensures screeningList == Keep(loaded, NotPast(today, currentHour))
      ensures observableList == screeningList && query == old(query) && ordering == ByDate
    {
      screeningList := RemoveDropped(loaded, NotPast(today, currentHour));
      observableList := screeningList;
      ordering := ByDate;
    }

    /** `search`: installs the predicate for the text of the search box. */
    method SetSearch(searchString: string)
      modifies this
      ensures query == searchString
      ensures screeningList == old(screeningList) && observableList == old(observableList)
      ensures ordering == old(ordering)
    {
      query := searchString;
    }

    /** The sort box's handler: entry 0 sorts by date, any other by name. */
    method ChooseSort(selectedIndex: int)
      modifies this
      ensures ordering == ComparatorFor(selectedIndex)
      ensures screeningList == old(screeningList) && observableList == old(observableList)
      ensures query == old(query)
    {
      if selectedIndex == 0 {
        ordering := ByDate;
      } else {
        ordering := ByName;
      }
    }

    /** `getObservableList().add(s)`, as the scheduling form calls it. */
    method AppendScreening(s: Screening)
      modifies this
      ensures observableList == old(observableList) + [s]
      ensures screeningList == old(screeningList) && query == old(query) && ordering == old(ordering)
    {
      observableList := observableList + [s];
    }

    /** `deleteScreenings` on the selected screenings: when confirmed, the
        bookings of each are deleted, then the screening itself, and the
        selection leaves the list; declined, nothing happens. */
    method DeleteScreenings(db: Database, selected: seq<Screening>, confirmed: bool)
      requires db.Valid()
      modifies this, db
      ensures db.Valid()
      ensures !confirmed ==> db.bookings == old(db.bookings) && db.screenings == old(db.screenings)
                             && observableList == old(observableList)
      ensures confirmed ==> forall r :: r in db.bookings <==> r in old(db.bookings) && !HasId(selected, r.screenId)
      ensures confirmed ==> forall r :: r in db.screenings <==> r in old(db.screenings) && !HasId(selected, r.screenId)
      ensures confirmed ==> observableList == RemoveAll(old(observableList), selected)
      ensures db.nextScreenId == old(db.nextScreenId) && db.nextBookingId == old(db.nextBookingId)
      ensures screeningList == old(screeningList) && query == old(query) && ordering == old(ordering)
    {
      if confirmed {
        DeleteCascade(db, selected);
        observableList := RemoveAll(observableList, selected);
      }
    }

    /** `exportSelectedScreenings`. */
    method ExportSelected(selected: seq<Screening>, lineSep: string) returns (csv: string)
      ensures csv == Csv(selected, lineSep)
    {
      csv := Export(selected, lineSep);
    }

    /** `exportAllScreenings` with `loaded` the screenings the database returns. */
    method ExportAll(loaded: seq<Screening>, lineSep: string) returns (csv: string)
      ensures csv == Csv(loaded, lineSep)
    {
      csv := Export(loaded, lineSep);
    }

    /** `exportAllUpcomingScreenings`: past slots removed by the export's own
        rule, which keeps the same screenings as the dashboard's list. */
    method ExportAllUpcoming(loaded: seq<Screening>, today: Date, currentHour: int, lineSep: string) returns (csv: string)
      ensures csv == Csv(Keep(loaded, NotPast(today, currentHour)), lineSep)
    {
      var upcoming := RemoveDropped(loaded, ExportUpcoming(today, currentHour));
      ExportFilterIsUpcomingFilter(loaded, today, currentHour);
      csv := Export(upcoming, lineSep);
    }
  }
}
