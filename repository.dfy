/** The two tables the engine reads and writes (ScreeningDAO, BookingDAO), as
    an in-memory store. Rows are values; the store is an object whose row
    lists the operations replace. Row ids come from counters, as the
    database's autoincrement keys do. */
module Repository {
  import opened JavaLang

  /** A row of the `screenings` table; `date` is the ISO text of the date. */
  datatype ScreeningRow = ScreeningRow(screenId: int, movieId: int, seats: string, date: string, time: Int32)

  /** A row of the `bookings` table; `seats` is the comma-terminated seat list. */
  datatype BookingRow = BookingRow(bookingId: int, username: string, screenId: int, seats: string)

  // ---------------------------------------------------------------------
  // The effect of each statement on a list of rows
  // ---------------------------------------------------------------------

  /** `UPDATE screenings SET seats = … WHERE screenID = id`. */
  function WithSeats(rows: seq<ScreeningRow>, id: int, seats: string): (r: seq<ScreeningRow>)
    ensures |r| == |rows|
    ensures forall i :: 0 <= i < |rows| && rows[i].screenId == id ==> r[i] == rows[i].(seats := seats)
    ensures forall i :: 0 <= i < |rows| && rows[i].screenId != id ==> r[i] == rows[i]
  {
    if rows == [] then []
    else [if rows[0].screenId == id then rows[0].(seats := seats) else rows[0]] + WithSeats(rows[1..], id, seats)
  }

  /** Two updates of the same row keep the last value: the loop in the
      cancellation that updates after every seat leaves the final seat string. */
  lemma WithSeatsOverwrite(rows: seq<ScreeningRow>, id: int, a: string, b: string)
    ensures WithSeats(WithSeats(rows, id, a), id, b) == WithSeats(rows, id, b)
  {
  }

  /** `DELETE FROM screenings WHERE screenID = id`. */
  function WithoutScreening(rows: seq<ScreeningRow>, id: int): (r: seq<ScreeningRow>)
    ensures |r| <= |rows|
    ensures forall x :: x in r <==> x in rows && x.screenId != id
  {
    if rows == [] then []
    else (if rows[0].screenId == id then [] else [rows[0]]) + WithoutScreening(rows[1..], id)
  }

  /** `DELETE FROM bookings WHERE bookingID = id`. */
  function WithoutBooking(rows: seq<BookingRow>, id: int): (r: seq<BookingRow>)
    ensures |r| <= |rows|
    ensures forall x :: x in r <==> x in rows && x.bookingId != id
  {
    if rows == [] then []
    else (if rows[0].bookingId == id then [] else [rows[0]]) + WithoutBooking(rows[1..], id)
  }

  /** The bookings of one screening, in table order (`searchBookings(screenID)`). */
  function BookingsOf(rows: seq<BookingRow>, screenId: int): (r: seq<BookingRow>)
    ensures |r| <= |rows|
    ensures forall x :: x in r <==> x in rows && x.screenId == screenId
  {
    if rows == [] then []
    else (if rows[0].screenId == screenId then [rows[0]] else []) + BookingsOf(rows[1..], screenId)
  }

  /** The ids of a list of booking rows. */
  function BookingIds(rows: seq<BookingRow>): (ids: seq<int>)
    ensures |ids| == |rows|
    ensures forall i :: 0 <= i < |rows| ==> ids[i] == rows[i].bookingId
  {
    seq(|rows|, i requires 0 <= i < |rows| => rows[i].bookingId)
  }

  predicate UniqueScreenIds(rows: seq<ScreeningRow>) {
    forall i, j :: 0 <= i < j < |rows| ==> rows[i].screenId != rows[j].screenId
  }

  predicate UniqueBookingIds(rows: seq<BookingRow>) {
    forall i, j :: 0 <= i < j < |rows| ==> rows[i].bookingId != rows[j].bookingId
  }

  /** Deleting rows keeps the remaining ids distinct. */
  lemma {:induction false} WithoutScreeningKeepsUnique(rows: seq<ScreeningRow>, id: int)
    requires UniqueScreenIds(rows)
    ensures UniqueScreenIds(WithoutScreening(rows, id))
  {
    if rows != [] {
      WithoutScreeningKeepsUnique(rows[1..], id);
      var rest := WithoutScreening(rows[1..], id);
      assert forall x :: x in rest ==> x in rows[1..];
      assert forall x :: x in rest ==> x.screenId != rows[0].screenId;
    }
  }

  lemma {:induction false} WithoutBookingKeepsUnique(rows: seq<BookingRow>, id: int)
    requires UniqueBookingIds(rows)
    ensures UniqueBookingIds(WithoutBooking(rows, id))
  {
    if rows != [] {
      WithoutBookingKeepsUnique(rows[1..], id);
      var rest := WithoutBooking(rows[1..], id);
      assert forall x :: x in rest ==> x in rows[1..];
      assert forall x :: x in rest ==> x.bookingId != rows[0].bookingId;
    }
  }

  class Database {
    var screenings: seq<ScreeningRow>
    var bookings: seq<BookingRow>
    /** The ids the next inserts receive. */
    var nextScreenId: int
    var nextBookingId: int

    /** Ids are positive, distinct, and below the next id to hand out. */
    ghost predicate Valid()
      reads this
    {
      1 <= nextScreenId && 1 <= nextBookingId
      && UniqueScreenIds(screenings) && UniqueBookingIds(bookings)
      && (forall r :: r in screenings ==> 1 <= r.screenId < nextScreenId)
      && (forall r :: r in bookings ==> 1 <= r.bookingId < nextBookingId)
    }

    constructor ()
      ensures Valid() && screenings == [] && bookings == []
    {
      screenings := [];
      bookings := [];
      nextScreenId := 1;
      nextBookingId := 1;
    }

    /** `addScreening`: the insert names no id, so the row gets the next one. */
    method AddScreening(movieId: int, seats: string, date: string, time: Int32) returns (id: int)
      requires Valid()
      modifies this
      ensures Valid()
      ensures id == old(nextScreenId)
      ensures screenings == old(screenings) + [ScreeningRow(id, movieId, seats, date, time)]
      ensures bookings == old(bookings) && nextBookingId == old(nextBookingId)
      ensures nextScreenId == old(nextScreenId) + 1
    {
      id := nextScreenId;
      screenings := screenings + [ScreeningRow(id, movieId, seats, date, time)];
      nextScreenId := nextScreenId + 1;
    }

    /** `updateScreening`: replaces the seat string of the row with this id. */
    method UpdateScreeningSeats(screenId: int, seats: string)
      requires Valid()
      modifies this
      ensures Valid()
      ensures screenings == WithSeats(old(screenings), screenId, seats)
      ensures bookings == old(bookings)
      ensures nextScreenId == old(nextScreenId) && nextBookingId == old(nextBookingId)
    {
      screenings := WithSeats(screenings, screenId, seats);
      assert forall i :: 0 <= i < |screenings| ==> screenings[i].screenId == old(screenings)[i].screenId;
    }

    /** `deleteScreening`. */
    method DeleteScreening(screenId: int)
      requires Valid()
      modifies this
      ensures Valid()
      ensures screenings == WithoutScreening(old(screenings), screenId)
      ensures bookings == old(bookings)
      ensures nextScreenId == old(nextScreenId) && nextBookingId == old(nextBookingId)
    {
      WithoutScreeningKeepsUnique(screenings, screenId);
      screenings := WithoutScreening(screenings, screenId);
    }

    /** `addBooking`: username, screening id and seat text; the id is the next one. */
    method AddBooking(username: string, screenId: int, seats: string) returns (id: int)
      requires Valid()
      modifies this
      ensures Valid()
      ensures id == old(nextBookingId)
      ensures bookings == old(bookings) + [BookingRow(id, username, screenId, seats)]
      ensures screenings == old(screenings) && nextScreenId == old(nextScreenId)
      ensures nextBookingId == old(nextBookingId) + 1
    {
      id := nextBookingId;
      bookings := bookings + [BookingRow(id, username, screenId, seats)];
      nextBookingId := nextBookingId + 1;
    }

    /** `deleteBooking`: removes the row with this booking id. */
    method DeleteBooking(bookingId: int)
      requires Valid()
      modifies this
      ensures Valid()
      ensures bookings == WithoutBooking(old(bookings), bookingId)
      ensures screenings == old(screenings)
      ensures nextScreenId == old(nextScreenId) && nextBookingId == old(nextBookingId)
    {
      WithoutBookingKeepsUnique(bookings, bookingId);
      bookings := WithoutBooking(bookings, bookingId);
    }

    /** `searchBookings(screenID)`. */
    method SearchBookings(screenId: int) returns (rows: seq<BookingRow>)
      ensures rows == BookingsOf(bookings, screenId)
    {
      rows := BookingsOf(bookings, screenId);
    }
  }
}
