/** The seat picker of the cinema room (CinemaRoomController): a click on a
    free seat of the screening adds a copy of it to the selection, or takes
    the copy out again when the seat is already selected. Booked seats do
    not react. Only copies are flagged, so the screening is left alone. */
module Selection {
  import opened JavaLang
  import opened Seats
  import opened Screenings

  /** The selection as identities after a click on the seat `k`. */
  function Toggle(ks: seq<SeatKey>, k: SeatKey): seq<SeatKey> {
    if k in ks then RemoveFirst(ks, k) else ks + [k]
  }

  /** Taking out the first occurrence is cutting the list at its index. */
  lemma {:induction false} RemoveFirstIsCut(ks: seq<SeatKey>, k: SeatKey)
    requires k in ks
    ensures var i := IndexOfKey(ks, k);
      RemoveFirst(ks, k) == ks[..i] + ks[i + 1..]
  {
    if ks[0] != k {
      RemoveFirstIsCut(ks[1..], k);
      var i := IndexOfKey(ks[1..], k);
      assert ks[..i + 1] == [ks[0]] + ks[1..][..i];
      assert ks[i + 2..] == ks[1..][i + 1..];
    }
  }

  /** Cutting one position out of a list without duplicates. */
  lemma CutUnique(ks: seq<SeatKey>, i: nat)
    requires UniqueKeys(ks) && i < |ks|
    ensures UniqueKeys(ks[..i] + ks[i + 1..])
    ensures ks[i] !in ks[..i] + ks[i + 1..]
    ensures forall j :: j != ks[i] ==> (j in ks[..i] + ks[i + 1..] <==> j in ks)
  {
    var cut := ks[..i] + ks[i + 1..];
    assert forall a :: 0 <= a < |cut| ==> cut[a] == ks[if a < i then a else a + 1];
    forall j | j in ks && j != ks[i] ensures j in cut {
      var b :| 0 <= b < |ks| && ks[b] == j;
      assert cut[if b < i then b else b - 1] == j;
    }
  }

  /** With distinct identities, removing `k` removes every trace of it and keeps the rest. */
  lemma RemoveFirstUnique(ks: seq<SeatKey>, k: SeatKey)
    requires UniqueKeys(ks)
    ensures UniqueKeys(RemoveFirst(ks, k))
    ensures k !in RemoveFirst(ks, k)
    ensures forall j :: j != k ==> (j in RemoveFirst(ks, k) <==> j in ks)
  {
    if k in ks {
      RemoveFirstIsCut(ks, k);
      CutUnique(ks, IndexOfKey(ks, k));
    }
  }

  /** Toggling keeps the selection free of duplicates. */
  lemma ToggleKeepsUnique(ks: seq<SeatKey>, k: SeatKey)
    requires UniqueKeys(ks)
    ensures UniqueKeys(Toggle(ks, k))
  {
    if k in ks {
      RemoveFirstUnique(ks, k);
    }
  }

  /** After a toggle `k` is selected exactly when it was not, and no other seat changes. */
  lemma ToggleMembership(ks: seq<SeatKey>, k: SeatKey)
    requires UniqueKeys(ks)
    ensures k in Toggle(ks, k) <==> k !in ks
    ensures forall j :: j != k ==> (j in Toggle(ks, k) <==> j in ks)
  {
    if k in ks {
      RemoveFirstUnique(ks, k);
    }
  }

  /** Two clicks on a seat that was not selected give the selection back as it was. */
  lemma ToggleTwiceRestores(ks: seq<SeatKey>, k: SeatKey)
    requires k !in ks
    ensures Toggle(Toggle(ks, k), k) == ks
  {
    RemoveFirstIsCut(ks + [k], k);
    assert IndexOfKey(ks + [k], k) == |ks| by {
      FirstIndexIsIndexOf(ks + [k], k, |ks|);
    }
  }

  /** Two clicks on a seat that was selected restore the same seats, the
      clicked one now at the end. */
  lemma ToggleTwiceMovesToEnd(ks: seq<SeatKey>, k: SeatKey)
    requires UniqueKeys(ks) && k in ks
    ensures Toggle(Toggle(ks, k), k) == RemoveFirst(ks, k) + [k]
    ensures multiset(Toggle(Toggle(ks, k), k)) == multiset(ks)
  {
    RemoveFirstUnique(ks, k);
  }

  class CinemaRoom {
    var screening: Screening?
    /** The screening's own seat list, taken by `populateSeats`. */
    var seats: seq<Seat>
    /** The copies of the seats picked so far. */
    var selectedSeats: seq<Seat>

    /** No seat twice, every pick flagged booked, and no pick is one of the
        screening's own seat objects. */
    ghost predicate Valid()
      reads this, selectedSeats
    {
      UniqueKeys(KeysOf(selectedSeats))
      && (forall i :: 0 <= i < |selectedSeats| ==> selectedSeats[i].booked)
      && (forall i :: 0 <= i < |selectedSeats| ==> selectedSeats[i] !in seats)
    }

    constructor ()
      ensures Valid() && screening == null && seats == [] && selectedSeats == []
    {
      screening := null;
      seats := [];
      selectedSeats := [];
    }

    /** `populateSeats`: the room shows the screening's seats (the images are
        left out). The seat objects are shared with the screening. */
    method PopulateSeats(s: Screening)
      requires selectedSeats == []
      modifies this
      ensures Valid() && screening == s && seats == s.seats && selectedSeats == []
    {
      screening := s;
      seats := s.seats;
    }

    /** Takes the pick at position `i` out of the selection (`selectedSeats.remove`). */
    method Deselect(i: nat)
      requires Valid() && i < |selectedSeats|
      modifies this
      ensures Valid()
      ensures screening == old(screening) && seats == old(seats)
      ensures selectedSeats == old(selectedSeats[..i] + selectedSeats[i + 1..])
      ensures KeysOf(seats) == old(KeysOf(seats)) && FlagsOf(seats) == old(FlagsOf(seats))
      ensures KeysOf(selectedSeats) == old(KeysOf(selectedSeats)[..i] + KeysOf(selectedSeats)[i + 1..])
    {
      ghost var ks := KeysOf(selectedSeats);
      CutUnique(ks, i);
      var rest := selectedSeats[..i] + selectedSeats[i + 1..];
      assert forall a :: 0 <= a < |rest| ==> rest[a] == selectedSeats[if a < i then a else a + 1];
      assert KeysOf(rest) == ks[..i] + ks[i + 1..];
      selectedSeats := rest;
    }

    /** Appends a new copy to the selection and flags the copy booked
        (`selectedSeats.add` then `setBooked(true)`). */
    method SelectCopy(c: Seat)
      requires Valid() && c !in seats && c !in selectedSeats && c.Key() !in KeysOf(selectedSeats)
      modifies this, c
      ensures Valid()
      ensures screening == old(screening) && seats == old(seats)
      ensures selectedSeats == old(selectedSeats) + [c] && c.booked && c.Key() == old(c.Key())
      ensures KeysOf(seats) == old(KeysOf(seats)) && FlagsOf(seats) == old(FlagsOf(seats))
      ensures KeysOf(selectedSeats) == old(KeysOf(selectedSeats)) + [c.Key()]
    {
      ghost var ks := KeysOf(selectedSeats);
      selectedSeats := selectedSeats + [c];
      c.SetBooked(true);
      assert KeysOf(selectedSeats) == ks + [c.Key()];
    }

    /** The free-seat branch of the click handler for the copy `c`: take the
        earlier copy out and clear `c`'s flag when the seat is already picked,
        otherwise add `c`. */
    method ToggleCopy(c: Seat)
      requires Valid() && c !in seats && c !in selectedSeats
      modifies this, c
      ensures Valid()
      ensures screening == old(screening) && seats == old(seats)
      ensures KeysOf(seats) == old(KeysOf(seats)) && FlagsOf(seats) == old(FlagsOf(seats))
      ensures c.Key() == old(c.Key())
      ensures KeysOf(selectedSeats) == Toggle(old(KeysOf(selectedSeats)), c.Key())
      ensures c.Key() !in old(KeysOf(selectedSeats)) ==> selectedSeats == old(selectedSeats) + [c] && c.booked
      ensures c.Key() in old(KeysOf(selectedSeats)) ==> !c.booked
    {
      var seatIndex := IndexOf(selectedSeats, c);
      if seatIndex >= 0 {
        Unpick(c, seatIndex);
      } else {
        SelectCopy(c);
      }
    }

    /** The already-picked branch: the earlier copy at `i` leaves the selection
        and the new copy `c` is flagged free again. */
    method Unpick(c: Seat, i: int)
      requires Valid() && c !in seats && c !in selectedSeats
      requires 0 <= i && i == IndexOfKey(KeysOf(selectedSeats), c.Key())
      modifies this, c
      ensures Valid()
      ensures screening == old(screening) && seats == old(seats)
      ensures KeysOf(seats) == old(KeysOf(seats)) && FlagsOf(seats) == old(FlagsOf(seats))
      ensures c.Key() == old(c.Key()) && !c.booked
      ensures KeysOf(selectedSeats) == Toggle(old(KeysOf(selectedSeats)), c.Key())
    {
      RemoveFirstIsCut(KeysOf(selectedSeats), c.Key());
      ghost var before := selectedSeats;
      Deselect(i);
      ghost var sel, ks := selectedSeats, KeysOf(selectedSeats);
      ghost var seatKeys, seatFlags := KeysOf(seats), FlagsOf(seats);
      assert forall a :: 0 <= a < |sel| ==> sel[a] == before[if a < i then a else a + 1];
      assert c !in sel;
      c.SetBooked(false);
      assert KeysOf(sel) == ks && KeysOf(seats) == seatKeys && FlagsOf(seats) == seatFlags;
    }

    /** `SeatSelectionHandler.handle` for a click on seat `seatNum`. */
    method HandleClick(seatNum: int)
      requires Valid()
      requires 0 <= seatNum < |seats|
      modifies this
      ensures Valid()
      ensures screening == old(screening) && seats == old(seats)
      ensures KeysOf(seats) == old(KeysOf(seats)) && FlagsOf(seats) == old(FlagsOf(seats))
      ensures old(seats[seatNum].booked) ==> selectedSeats == old(selectedSeats)
      ensures !old(seats[seatNum].booked) ==>
        KeysOf(selectedSeats) == Toggle(old(KeysOf(selectedSeats)), seats[seatNum].Key())
      ensures !old(seats[seatNum].booked) && seats[seatNum].Key() !in old(KeysOf(selectedSeats)) ==>
        selectedSeats[..|old(selectedSeats)|] == old(selectedSeats)
        && |selectedSeats| == |old(selectedSeats)| + 1
        && fresh(selectedSeats[|old(selectedSeats)|])
        && selectedSeats[|old(selectedSeats)|].booked
        && selectedSeats[|old(selectedSeats)|].Key() == seats[seatNum].Key()
    {
      var selectedSeat := seats[seatNum].Clone();
      if !selectedSeat.booked {
        ToggleCopy(selectedSeat);
      }
    }
  }
}
