/** The customer's booking history (CustomerProfileController): cancelling a
    booking, which frees its seats in the screening and drops the booking,
    and the search box over the bookings' movie names. */
module Cancellation {
  import opened JavaLang
  import opened Dates
  import opened Seats
  import opened Screenings
  import opened Bookings
  import opened Repository
  import opened Reservations
  import Search

  datatype CancelOutcome =
    /** The screening's slot has begun: the booking stays. */
    | Past
    /** The confirmation dialog was answered "no". */
    | Declined
    | Cancelled

  // ---------------------------------------------------------------------
  // The search predicate
  // ---------------------------------------------------------------------

  /** The screenings the bookings of a list point to. */
  ghost function ScreeningsOf(bs: seq<Booking>): set<object>
    reads bs
  {
    set b | b in bs && b.screening != null :: b.screening as object
  }

  /** Every booking of the list knows its screening. */
  predicate AllLinked(bs: seq<Booking>)
    reads bs
  {
    forall b :: b in bs ==> b.screening != null
  }

  /** The bookings the search box lets through, in their order: those whose
      screening's movie name matches the query. */
  function KeepBookings(bs: seq<Booking>, query: string): seq<Booking>
    requires AllLinked(bs)
    reads bs, ScreeningsOf(bs)
  {
    if bs == [] then []
    else
      assert bs[0] in bs;
      assert forall b :: b in bs[1..] ==> b in bs;
      (if Search.Matches(query, bs[0].screening.movieName) then [bs[0]] else []) + KeepBookings(bs[1..], query)
  }

  /** A booking is shown exactly when it is listed and its movie name matches. */
  lemma {:induction false} KeepBookingsMembership(bs: seq<Booking>, query: string, x: Booking)
    requires AllLinked(bs) && x.screening != null
    ensures x in KeepBookings(bs, query) <==> x in bs && Search.Matches(query, x.screening.movieName)
  {
    if bs != [] {
      assert forall b :: b in bs[1..] ==> b in bs;
      KeepBookingsMembership(bs[1..], query, x);
      assert bs == [bs[0]] + bs[1..];
    }
  }

  /** An empty search box shows every booking. */
  lemma {:induction false} EmptyQueryKeepsAllBookings(bs: seq<Booking>)
    requires AllLinked(bs)
    ensures KeepBookings(bs, "") == bs
  {
    if bs != [] {
      assert forall b :: b in bs[1..] ==> b in bs;
      EmptyQueryKeepsAllBookings(bs[1..]);
      assert bs == [bs[0]] + bs[1..];
    }
  }

  /** A non-empty search shows a booking exactly when its lower-cased movie
      name holds the lower-cased query somewhere. */
  lemma BookingSearchIff(bs: seq<Booking>, query: string, x: Booking)
    requires AllLinked(bs) && x.screening != null && query != []
    ensures x in KeepBookings(bs, query)
        <==> x in bs && exists i :: OccursAt(ToLower(x.screening.movieName), ToLower(query), i)
  {
    KeepBookingsMembership(bs, query, x);
    Search.MatchesIff(query, x.screening.movieName);
  }

  // ---------------------------------------------------------------------
  // deleteBookings
  // ---------------------------------------------------------------------

  /** The seat flip of one pass of the release loop: the screening's seat
      with the identity of `seatList[j]` is flagged free. */
  method FreeSeat(screening: Screening, seatList: seq<Seat>, j: nat)
    requires screening.Valid() && j < |seatList| && seatList[j].Key() in KeysOf(screening.seats)
    modifies screening.seats
    ensures screening.Valid()
    ensures KeysOf(seatList) == old(KeysOf(seatList))
    ensures KeysOf(screening.seats) == old(KeysOf(screening.seats))
    ensures FlagsOf(screening.seats)
         == old(FlagsOf(screening.seats))[IndexOfKey(old(KeysOf(screening.seats)), old(seatList[j].Key())) := false]
  {
    ghost var sel := KeysOf(seatList);
    var screeningSeatList := screening.seats;
    var seatIndex := IndexOf(screeningSeatList, seatList[j]);
    SetFlag(screeningSeatList, seatIndex, false);
    forall i | 0 <= i < |seatList|
      ensures seatList[i].Key() == sel[i]
    {
      if seatList[i] == screeningSeatList[seatIndex] {
        assert KeysOf(screeningSeatList)[seatIndex] == old(KeysOf(screeningSeatList))[seatIndex];
      }
    }
    assert KeysOf(seatList) == sel;
  }

  /** One pass of the release loop: the seat is freed and the screening's row
      gets the new seat string. */
  method ReleaseOne(db: Database, screening: Screening, seatList: seq<Seat>, j: nat)
    requires db.Valid() && screening.Valid() && j < |seatList| && seatList[j].Key() in KeysOf(screening.seats)
    modifies db, screening.seats
    ensures db.Valid() && screening.Valid()
    ensures KeysOf(seatList) == old(KeysOf(seatList))
    ensures KeysOf(screening.seats) == old(KeysOf(screening.seats))
    ensures FlagsOf(screening.seats)
         == old(FlagsOf(screening.seats))[IndexOfKey(old(KeysOf(screening.seats)), old(seatList[j].Key())) := false]
    ensures db.screenings == WithSeats(old(db.screenings), screening.screenId, EncodeFlags(FlagsOf(screening.seats)))
    ensures db.bookings == old(db.bookings)
    ensures db.nextScreenId == old(db.nextScreenId) && db.nextBookingId == old(db.nextBookingId)
  {
    FreeSeat(screening, seatList, j);
    var seatString := screening.GetSeats();
    db.UpdateScreeningSeats(screening.screenId, seatString);
  }

  /** The state the release loop keeps after freeing the first `j` seats. */
  ghost predicate Released(db: Database, screening: Screening, seatList: seq<Seat>, j: nat,
                     fs0: seq<bool>, ks: seq<SeatKey>, sel: seq<SeatKey>, rows0: seq<ScreeningRow>)
    reads db, screening, screening.seats, seatList
  {
    j <= |seatList| && |sel| == |seatList| && |fs0| == |ks|
    && (forall i :: 0 <= i < |sel| ==> sel[i] in ks)
    && db.Valid() && screening.Valid()
    && KeysOf(screening.seats) == ks && KeysOf(seatList) == sel
    && FlagsOf(screening.seats) == Release(fs0, ks, sel[..j])
    && (j == 0 ==> db.screenings == rows0)
    && (j > 0 ==> db.screenings == WithSeats(rows0, screening.screenId, EncodeFlags(FlagsOf(screening.seats))))
  }

  /** One turn of the release loop moves `Released` from `j` to `j + 1`. */
  method ReleaseNext(db: Database, screening: Screening, seatList: seq<Seat>, j: nat,
                     ghost fs0: seq<bool>, ghost ks: seq<SeatKey>, ghost sel: seq<SeatKey>,
                     ghost rows0: seq<ScreeningRow>)
    requires j < |seatList| && Released(db, screening, seatList, j, fs0, ks, sel, rows0)
    modifies db, screening.seats
    ensures Released(db, screening, seatList, j + 1, fs0, ks, sel, rows0)
    ensures db.bookings == old(db.bookings)
    ensures db.nextScreenId == old(db.nextScreenId) && db.nextBookingId == old(db.nextBookingId)
  {
    assert seatList[j].Key() == sel[j];
    ReleaseStep(fs0, ks, sel[..j], sel[j]);
    assert sel[..j + 1] == sel[..j] + [sel[j]];
    ReleaseOne(db, screening, seatList, j);
    WithSeatsOverwrite(rows0, screening.screenId, EncodeFlags(Release(fs0, ks, sel[..j])), EncodeFlags(FlagsOf(screening.seats)));
  }

  /** The release loop of `deleteBookings`: for every seat of the booking, the
      screening's seat with that identity is freed and the screening's row is
      rewritten, so the row ends with the final seat string. */
  method ReleaseSeats(db: Database, screening: Screening, seatList: seq<Seat>)
    requires db.Valid() && screening.Valid()
    requires forall j :: 0 <= j < |seatList| ==> seatList[j].Key() in KeysOf(screening.seats)
    modifies db, screening.seats
    ensures db.Valid() && screening.Valid()
    ensures KeysOf(seatList) == old(KeysOf(seatList))
    ensures KeysOf(screening.seats) == old(KeysOf(screening.seats))
    ensures FlagsOf(screening.seats)
         == Release(old(FlagsOf(screening.seats)), old(KeysOf(screening.seats)), old(KeysOf(seatList)))
    ensures seatList == [] ==> db.screenings == old(db.screenings)
    ensures seatList != [] ==>
      db.screenings == WithSeats(old(db.screenings), screening.screenId, EncodeFlags(FlagsOf(screening.seats)))
    ensures db.bookings == old(db.bookings)
    ensures db.nextScreenId == old(db.nextScreenId) && db.nextBookingId == old(db.nextBookingId)
  {
    ghost var fs0, ks, sel, rows0 := FlagsOf(screening.seats), KeysOf(screening.seats), KeysOf(seatList), db.screenings;
    assert Release(fs0, ks, sel[..0]) == fs0;
    var j := 0;
    while j < |seatList|
      invariant 0 <= j <= |seatList|
      invariant Released(db, screening, seatList, j, fs0, ks, sel, rows0)
      invariant db.bookings == old(db.bookings)
      invariant db.nextScreenId == old(db.nextScreenId) && db.nextBookingId == old(db.nextBookingId)
    {
      ReleaseNext(db, screening, seatList, j, fs0, ks, sel, rows0);
      j := j + 1;
    }
    assert sel[..j] == sel;
  }

  /** The database side of a confirmed cancellation: `deleteBooking`, then
      the release loop. */
  method Unbook(db: Database, selected: Booking)
    requires db.Valid() && selected.screening != null && selected.screening.Valid()
    requires forall j :: 0 <= j < |selected.seatList| ==>
               selected.seatList[j].Key() in KeysOf(selected.screening.seats)
    modifies db, selected.screening.seats
    ensures db.Valid()
    ensures KeysOf(selected.screening.seats) == old(KeysOf(selected.screening.seats))
    ensures db.bookings == WithoutBooking(old(db.bookings), selected.bookingId)
    ensures FlagsOf(selected.screening.seats)
         == Release(old(FlagsOf(selected.screening.seats)), old(KeysOf(selected.screening.seats)),
                    old(KeysOf(selected.seatList)))
    ensures selected.seatList == [] ==> db.screenings == old(db.screenings)
    ensures selected.seatList != [] ==>
      db.screenings == WithSeats(old(db.screenings), selected.screening.screenId,
                                 EncodeFlags(FlagsOf(selected.screening.seats)))
    ensures db.nextScreenId == old(db.nextScreenId) && db.nextBookingId == old(db.nextBookingId)
  {
    db.DeleteBooking(selected.bookingId);
    ReleaseSeats(db, selected.screening, selected.seatList);
  }

  class BookingHistory {
    /** The bookings of the logged-in customer, as the table shows them. */
    var bookingList: seq<Booking>
    /** The text of the search box the table was last filtered with. */
    var query: string

    constructor ()
      ensures bookingList == [] && query == ""
    {
      bookingList := [];
      query := "";
    }

    /** What the table shows. */
    function Shown(): seq<Booking>
      requires AllLinked(bookingList)
      reads this, bookingList, ScreeningsOf(bookingList)
    {
      KeepBookings(bookingList, query)
    }

    /** `search`: installs the predicate for the text of the search box. */
    method SetSearch(searchString: string)
      modifies this
      ensures query == searchString && bookingList == old(bookingList)
    {
      query := searchString;
    }

    /** `deleteBookings` on the selected booking. A booking whose slot has
        begun is kept. Otherwise, once confirmed, its row is deleted, each of
        its seats is freed in the screening and the screening's row is
        rewritten, and the booking leaves the table. */
    method DeleteBookings(db: Database, selected: Booking, today: Date, currentHour: int, confirmed: bool)
      returns (outcome: CancelOutcome)
      requires db.Valid() && selected.screening != null && selected.screening.Valid()
      requires forall j :: 0 <= j < |selected.seatList| ==>
                 selected.seatList[j].Key() in KeysOf(selected.screening.seats)
      modifies this, db, selected.screening.seats
      ensures db.Valid() && query == old(query)
      ensures db.nextScreenId == old(db.nextScreenId) && db.nextBookingId == old(db.nextBookingId)
      ensures KeysOf(selected.screening.seats) == old(KeysOf(selected.screening.seats))
      ensures IsPast(selected.screening.date, selected.screening.time, today, currentHour) ==> outcome == Past
      ensures !IsPast(selected.screening.date, selected.screening.time, today, currentHour) && !confirmed ==>
                outcome == Declined
      ensures outcome != Cancelled ==>
        db.bookings == old(db.bookings) && db.screenings == old(db.screenings)
        && FlagsOf(selected.screening.seats) == old(FlagsOf(selected.screening.seats))
        && bookingList == old(bookingList)
      ensures outcome == Cancelled ==>
        !IsPast(selected.screening.date, selected.screening.time, today, currentHour) && confirmed
        && db.bookings == WithoutBooking(old(db.bookings), selected.bookingId)
        && FlagsOf(selected.screening.seats)
           == Release(old(FlagsOf(selected.screening.seats)), old(KeysOf(selected.screening.seats)),
                      old(KeysOf(selected.seatList)))
        && (selected.seatList == [] ==> db.screenings == old(db.screenings))
        && (selected.seatList != [] ==>
              db.screenings == WithSeats(old(db.screenings), selected.screening.screenId,
                                         EncodeFlags(FlagsOf(selected.screening.seats))))
        && bookingList == RemoveFirst(old(bookingList), selected)
    {
      var screening := selected.screening;
      if IsPast(screening.date, screening.time, today, currentHour) {
        return Past;
      }
      if !confirmed {
        return Declined;
      }
      Cancel(db, selected);
      outcome := Cancelled;
    }

    /** A confirmed cancellation: the database side, then the booking leaves
        the table. */
    method Cancel(db: Database, selected: Booking)
      requires db.Valid() && selected.screening != null && selected.screening.Valid()
      requires forall j :: 0 <= j < |selected.seatList| ==>
                 selected.seatList[j].Key() in KeysOf(selected.screening.seats)
      modifies this, db, selected.screening.seats
      ensures db.Valid() && query == old(query)
      ensures db.nextScreenId == old(db.nextScreenId) && db.nextBookingId == old(db.nextBookingId)
      ensures KeysOf(selected.screening.seats) == old(KeysOf(selected.screening.seats))
      ensures db.bookings == WithoutBooking(old(db.bookings), selected.bookingId)
      ensures FlagsOf(selected.screening.seats)
           == Release(old(FlagsOf(selected.screening.seats)), old(KeysOf(selected.screening.seats)),
                      old(KeysOf(selected.seatList)))
      ensures selected.seatList == [] ==> db.screenings == old(db.screenings)
      ensures selected.seatList != [] ==>
        db.screenings == WithSeats(old(db.screenings), selected.screening.screenId,
                                   EncodeFlags(FlagsOf(selected.screening.seats)))
      ensures bookingList == RemoveFirst(old(bookingList), selected)
    {
      Unbook(db, selected);
      bookingList := RemoveFirst(bookingList, selected);
    }
  }

  /** Every booking other than the cancelled one stays in the table. */
  lemma OthersRemain(bs: seq<Booking>, cancelled: Booking, other: Booking)
    requires other != cancelled
    ensures other in RemoveFirst(bs, cancelled) <==> other in bs
  {
    assert multiset(RemoveFirst(bs, cancelled))[other] == multiset(bs)[other];
  }

  /** Over a layout without duplicates, cancelling frees exactly the
      booking's seats and leaves every other seat's flag as it was. */
  lemma CancelFreesExactly(fs: seq<bool>, ks: seq<SeatKey>, booked: seq<SeatKey>, i: nat)
    requires |fs| == |ks| && UniqueKeys(ks) && i < |fs|
    ensures ks[i] in booked ==> !Release(fs, ks, booked)[i]
    ensures ks[i] !in booked ==> Release(fs, ks, booked)[i] == fs[i]
  {
    ReserveReleaseUnique(fs, ks, booked);
  }
}
