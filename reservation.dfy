/** Confirming a booking (CustomerProgrammeMovieController): the picked copies
    become a booking, and the screening's own seats with the same identities
    are flagged booked. Also the price labels shown while seats are picked,
    and the value-level rules for marking and freeing seats that the
    cancellation in the booking history undoes. */
module Reservations {
  import opened JavaLang
  import opened Seats
  import opened Screenings
  import opened Bookings
  import opened Repository
  import opened Helpers

  // ---------------------------------------------------------------------
  // Marking and freeing seats, as values
  // ---------------------------------------------------------------------

  /** Position `i` of the layout `ks` is what `indexOf` finds for some identity
      of `sel`: the seat there has a listed identity and is its first holder. */
  predicate Picked(ks: seq<SeatKey>, sel: seq<SeatKey>, i: int)
    requires 0 <= i < |ks|
  {
    ks[i] in sel && IndexOfKey(ks, ks[i]) == i
  }

  /** The flags after `get(indexOf(seat)).setBooked(true)` for every identity of `sel`. */
  function Reserve(fs: seq<bool>, ks: seq<SeatKey>, sel: seq<SeatKey>): (r: seq<bool>)
    requires |fs| == |ks|
    ensures |r| == |fs|
  {
    seq(|fs|, i requires 0 <= i < |fs| => fs[i] || Picked(ks, sel, i))
  }

  /** The flags after `get(indexOf(seat)).setBooked(false)` for every identity of `sel`. */
  function Release(fs: seq<bool>, ks: seq<SeatKey>, sel: seq<SeatKey>): (r: seq<bool>)
    requires |fs| == |ks|
    ensures |r| == |fs|
  {
    seq(|fs|, i requires 0 <= i < |fs| => fs[i] && !Picked(ks, sel, i))
  }

  /** In a layout without duplicates every seat is the first holder of its identity. */
  lemma UniqueIndexOf(ks: seq<SeatKey>, i: nat)
    requires UniqueKeys(ks) && i < |ks|
    ensures IndexOfKey(ks, ks[i]) == i
  {
    assert ks[i] !in ks[..i] by {
      forall j | 0 <= j < i ensures ks[..i][j] != ks[i] {
        assert ks[..i][j] == ks[j];
      }
    }
    FirstIndexIsIndexOf(ks, ks[i], i);
  }

  /** Over a layout without duplicates, reserving books exactly the listed
      seats and leaves every other flag as it was; releasing frees exactly
      the listed seats. */
  lemma ReserveReleaseUnique(fs: seq<bool>, ks: seq<SeatKey>, sel: seq<SeatKey>)
    requires |fs| == |ks| && UniqueKeys(ks)
    ensures forall i :: 0 <= i < |fs| ==> Reserve(fs, ks, sel)[i] == (fs[i] || ks[i] in sel)
    ensures forall i :: 0 <= i < |fs| ==> Release(fs, ks, sel)[i] == (fs[i] && ks[i] !in sel)
  {
    forall i | 0 <= i < |fs| ensures Picked(ks, sel, i) == (ks[i] in sel) {
      UniqueIndexOf(ks, i);
    }
  }

  /** One more identity marks one more position: the loop step of confirmBooking. */
  lemma ReserveStep(fs: seq<bool>, ks: seq<SeatKey>, sel: seq<SeatKey>, k: SeatKey)
    requires |fs| == |ks| && k in ks
    ensures Reserve(fs, ks, sel + [k]) == Reserve(fs, ks, sel)[IndexOfKey(ks, k) := true]
  {
    var p := IndexOfKey(ks, k);
    forall i | 0 <= i < |fs| ensures Picked(ks, sel + [k], i) == (Picked(ks, sel, i) || i == p) {
      if i == p {
        assert ks[i] == k;
      }
    }
  }

  /** One more identity frees one more position: the loop step of deleteBookings. */
  lemma ReleaseStep(fs: seq<bool>, ks: seq<SeatKey>, sel: seq<SeatKey>, k: SeatKey)
    requires |fs| == |ks| && k in ks
    ensures Release(fs, ks, sel + [k]) == Release(fs, ks, sel)[IndexOfKey(ks, k) := false]
  {
    var p := IndexOfKey(ks, k);
    forall i | 0 <= i < |fs| ensures Picked(ks, sel + [k], i) == (Picked(ks, sel, i) || i == p) {
      if i == p {
        assert ks[i] == k;
      }
    }
  }

  /** Setting one flag moves the booked count by at most one. */
  lemma {:induction false} CountBookedUpdate(fs: seq<bool>, p: nat, b: bool)
    requires p < |fs|
    ensures CountBooked(fs[p := b]) + (if fs[p] then 1 else 0) == CountBooked(fs) + (if b then 1 else 0)
  {
    var n := |fs| - 1;
    if p < n {
      assert fs[p := b][..n] == fs[..n][p := b];
      CountBookedUpdate(fs[..n], p, b);
    } else {
      assert fs[p := b][..n] == fs[..n];
    }
  }

  /** Distinct free seats of the layout, once reserved, raise the booked count
      by their number and lower the available count by the same amount. */
  lemma {:induction false} ReserveCounts(fs: seq<bool>, ks: seq<SeatKey>, sel: seq<SeatKey>)
    requires |fs| == |ks| && UniqueKeys(sel)
    requires forall j :: 0 <= j < |sel| ==> sel[j] in ks && !fs[IndexOfKey(ks, sel[j])]
    ensures CountBooked(Reserve(fs, ks, sel)) == CountBooked(fs) + |sel|
    ensures CountFree(Reserve(fs, ks, sel)) + |sel| == CountFree(fs)
  {
    if sel == [] {
      assert Reserve(fs, ks, sel) == fs;
    } else {
      var n := |sel| - 1;
      var s, k := sel[..n], sel[n];
      assert sel == s + [k];
      assert UniqueKeys(s);
      ReserveCounts(fs, ks, s);
      var p := IndexOfKey(ks, k);
      assert k !in s by {
        forall j | 0 <= j < n ensures s[j] != k {
          assert sel[j] != sel[n];
        }
      }
      assert !Reserve(fs, ks, s)[p];
      ReserveStep(fs, ks, s, k);
      CountBookedUpdate(Reserve(fs, ks, s), p, true);
      CountsAddUp(Reserve(fs, ks, sel));
      CountsAddUp(fs);
    }
  }

  /** Reserving seats that were free and then releasing the same identities
      gives the flags back. */
  lemma ReserveThenRelease(fs: seq<bool>, ks: seq<SeatKey>, sel: seq<SeatKey>)
    requires |fs| == |ks|
    requires forall i :: 0 <= i < |fs| && Picked(ks, sel, i) ==> !fs[i]
    ensures Release(Reserve(fs, ks, sel), ks, sel) == fs
  {
  }

  // ---------------------------------------------------------------------
  // confirmBooking
  // ---------------------------------------------------------------------

  /** `screening.getSeatList().get(seatIndex).setBooked(b)`: one seat of the list
      changes its flag; its identity and every other seat stay as they were. */
  method SetFlag(seats: seq<Seat>, p: int, b: bool)
    requires UniqueKeys(KeysOf(seats)) && 0 <= p < |seats|
    modifies seats[p]
    ensures KeysOf(seats) == old(KeysOf(seats))
    ensures FlagsOf(seats) == old(FlagsOf(seats))[p := b]
  {
    ghost var ks, fs := KeysOf(seats), FlagsOf(seats);
    seats[p].SetBooked(b);
    assert forall i :: 0 <= i < |seats| && i != p ==> ks[i] != ks[p] && seats[i] != seats[p];
    assert KeysOf(seats) == ks;
    assert FlagsOf(seats) == fs[p := b];
  }

  /** The marking loop of confirmBooking: for each picked seat, the screening's
      seat with the same identity is flagged booked. */
  method MarkBooked(seats: seq<Seat>, selected: seq<Seat>)
    requires UniqueKeys(KeysOf(seats))
    requires forall j :: 0 <= j < |selected| ==> selected[j].Key() in KeysOf(seats)
    modifies seats
    ensures KeysOf(seats) == old(KeysOf(seats)) && KeysOf(selected) == old(KeysOf(selected))
    ensures FlagsOf(seats) == Reserve(old(FlagsOf(seats)), old(KeysOf(seats)), old(KeysOf(selected)))
  {
    ghost var fs0, ks, sel := FlagsOf(seats), KeysOf(seats), KeysOf(selected);
    assert Reserve(fs0, ks, sel[..0]) == fs0;
    var j := 0;
    while j < |selected|
      invariant 0 <= j <= |selected|
      invariant KeysOf(seats) == ks && KeysOf(selected) == sel
      invariant FlagsOf(seats) == Reserve(fs0, ks, sel[..j])
    {
      var seatIndex := IndexOf(seats, selected[j]);
      ReserveStep(fs0, ks, sel[..j], sel[j]);
      assert sel[..j + 1] == sel[..j] + [sel[j]];
      SetFlag(seats, seatIndex, true);
      assert forall i :: 0 <= i < |selected| ==> selected[i].Key() == sel[i];
      j := j + 1;
    }
    assert sel[..j] == sel;
  }

  datatype Outcome = NoSeatsSelected | Created(booking: Booking)

  /** The booking confirmBooking builds through its setters. */
  method NewBooking(username: string, screening: Screening, selected: seq<Seat>) returns (booking: Booking)
    ensures fresh(booking)
    ensures booking.username == username && booking.screenId == screening.screenId
    ensures booking.screening == screening && booking.seatList == selected && booking.bookingId == 0
  {
    booking := new Booking();
    booking.username := username;
    booking.screenId := screening.screenId;
    booking.screening := screening;
    booking.SetSeatList(selected);
  }

  /** The two writes of confirmBooking: `updateScreening` with the new seat
      string, then `addBooking`. */
  method Store(db: Database, screenId: int, seatString: string, username: string, bookingSeats: string)
    requires db.Valid()
    modifies db
    ensures db.Valid()
    ensures db.screenings == WithSeats(old(db.screenings), screenId, seatString)
    ensures db.bookings == old(db.bookings) + [BookingRow(old(db.nextBookingId), username, screenId, bookingSeats)]
    ensures db.nextScreenId == old(db.nextScreenId) && db.nextBookingId == old(db.nextBookingId) + 1
  {
    db.UpdateScreeningSeats(screenId, seatString);
    var id := db.AddBooking(username, screenId, bookingSeats);
  }

  /** The writes of confirmBooking for a booking whose seats are flagged: the
      screening's current seat string and the booking's seat text. */
  method Record(db: Database, screening: Screening, booking: Booking)
    requires db.Valid()
    modifies db
    ensures db.Valid()
    ensures db.screenings == WithSeats(old(db.screenings), screening.screenId, EncodeFlags(FlagsOf(screening.seats)))
    ensures db.bookings
         == old(db.bookings)
            + [BookingRow(old(db.nextBookingId), booking.username, screening.screenId, SerializeKeys(KeysOf(booking.seatList)))]
    ensures db.nextScreenId == old(db.nextScreenId) && db.nextBookingId == old(db.nextBookingId) + 1
  {
    var seatString := screening.GetSeats();
    var bookingSeats := booking.GetSeats();
    ghost var flags, keys := FlagsOf(screening.seats), KeysOf(booking.seatList);
    Store(db, screening.screenId, seatString, booking.username, bookingSeats);
    assert FlagsOf(screening.seats) == flags && KeysOf(booking.seatList) == keys;
  }

  /** `confirmBooking` with the picked copies `selected` and the logged-in
      `username`. An empty pick is refused and nothing changes. Otherwise a
      new booking takes the picked list as it is, the screening's matching
      seats are flagged booked, the screening's row gets the new seat string
      and a booking row is inserted. A picked identity that is not in the
      screening makes `get(-1)` throw; callers rule that out. */
  method ConfirmBooking(db: Database, screening: Screening, selected: seq<Seat>, username: string)
    returns (outcome: Outcome)
    requires db.Valid() && screening.Valid()
    requires forall j :: 0 <= j < |selected| ==> selected[j].Key() in KeysOf(screening.seats)
    modifies db, screening.seats
    ensures db.Valid()
    ensures KeysOf(screening.seats) == old(KeysOf(screening.seats))
    ensures selected == [] ==>
      outcome == NoSeatsSelected
      && FlagsOf(screening.seats) == old(FlagsOf(screening.seats))
      && db.screenings == old(db.screenings) && db.bookings == old(db.bookings)
    ensures selected != [] ==>
      outcome.Created? && fresh(outcome.booking)
      && outcome.booking.username == username
      && outcome.booking.screenId == screening.screenId
      && outcome.booking.screening == screening
      && outcome.booking.seatList == selected
      && FlagsOf(screening.seats)
         == Reserve(old(FlagsOf(screening.seats)), old(KeysOf(screening.seats)), old(KeysOf(selected)))
      && db.screenings
         == WithSeats(old(db.screenings), screening.screenId, EncodeFlags(FlagsOf(screening.seats)))
      && db.bookings
         == old(db.bookings)
            + [BookingRow(old(db.nextBookingId), username, screening.screenId, SerializeKeys(old(KeysOf(selected))))]
    ensures db.nextScreenId == old(db.nextScreenId)
    ensures db.nextBookingId == old(db.nextBookingId) + (if selected == [] then 0 else 1)
  {
    if |selected| == 0 {
      return NoSeatsSelected;
    }
    var booking := BookSeats(db, screening, selected, username);
    outcome := Created(booking);
  }

  /** The non-empty path of confirmBooking: the new booking, the flags and the
      two writes. */
  method BookSeats(db: Database, screening: Screening, selected: seq<Seat>, username: string)
    returns (booking: Booking)
    requires db.Valid() && screening.Valid()
    requires forall j :: 0 <= j < |selected| ==> selected[j].Key() in KeysOf(screening.seats)
    modifies db, screening.seats
    ensures db.Valid()
    ensures KeysOf(screening.seats) == old(KeysOf(screening.seats))
    ensures fresh(booking)
      && booking.username == username && booking.screenId == screening.screenId
      && booking.screening == screening && booking.seatList == selected
    ensures FlagsOf(screening.seats)
         == Reserve(old(FlagsOf(screening.seats)), old(KeysOf(screening.seats)), old(KeysOf(selected)))
    ensures db.screenings
         == WithSeats(old(db.screenings), screening.screenId, EncodeFlags(FlagsOf(screening.seats)))
    ensures db.bookings
         == old(db.bookings)
            + [BookingRow(old(db.nextBookingId), username, screening.screenId, SerializeKeys(old(KeysOf(selected))))]
    ensures db.nextScreenId == old(db.nextScreenId) && db.nextBookingId == old(db.nextBookingId) + 1
  {
    ghost var fs0, ks0, sel := FlagsOf(screening.seats), KeysOf(screening.seats), KeysOf(selected);
    booking := NewBooking(username, screening, selected);
    assert KeysOf(screening.seats) == ks0 && FlagsOf(screening.seats) == fs0 && KeysOf(selected) == sel;
    MarkBooked(screening.seats, selected);
    ghost var fs1 := FlagsOf(screening.seats);
    assert fs1 == Reserve(fs0, ks0, sel) && KeysOf(booking.seatList) == sel;
    Record(db, screening, booking);
    assert FlagsOf(screening.seats) == fs1 && KeysOf(screening.seats) == ks0;
  }

  // ---------------------------------------------------------------------
  // updateLabels
  // ---------------------------------------------------------------------

  /** The price of one seat, in whole pounds. */
  const SEAT_PRICE: int := 8

  /** `"£ " + size * 8 + ".00"`; the product is a Java `int`. */
  function PriceLabel(size: Int32): (s: string)
    ensures |s| >= 6 && s[..2] == "£ " && s[|s| - 3..] == ".00"
    ensures ParseInt(s[2..|s| - 3]) == Some(Wrap32(size * SEAT_PRICE))
    ensures 0 <= size * SEAT_PRICE <= INT_MAX ==> ParseInt(s[2..|s| - 3]) == Some(size * SEAT_PRICE)
  {
    var amount := IntToString(Wrap32(size * SEAT_PRICE));
    ParseIntToString(Wrap32(size * SEAT_PRICE));
    var s := "£ " + amount + ".00";
    assert s[2..|s| - 3] == amount;
    s
  }

  /** `size + " x £ 8.00"`. */
  function PriceCalcLabel(size: Int32): (s: string)
    ensures |s| >= 10 && s[|s| - 9..] == " x £ 8.00"
    ensures ParseInt(s[..|s| - 9]) == Some(size)
  {
    ParseIntToString(size);
    var s := IntToString(size) + " x £ 8.00";
    assert s[..|s| - 9] == IntToString(size);
    s
  }

  /** `updateLabels`: the picked seats as text, the count times the unit
      price, and the total price. */
  method UpdateLabels(selectedSeats: seq<Seat>) returns (seatsText: string, calcText: string, priceText: string)
    requires |selectedSeats| <= INT_MAX
    ensures seatsText == Joined(KeyStrings(KeysOf(selectedSeats)))
    ensures calcText == PriceCalcLabel(|selectedSeats|)
    ensures priceText == PriceLabel(|selectedSeats|)
  {
    seatsText := FormatSeatList(selectedSeats);
    calcText := PriceCalcLabel(|selectedSeats|);
    priceText := PriceLabel(|selectedSeats|);
  }
}
