/** A screening (Screening.java): one showing of a movie at a date and hour,
    with its own list of seat objects. The seat list is stored as a string of
    '0' (free) and '1' (booked), one character per seat in layout order. */
module Screenings {
  import opened JavaLang
  import opened Dates
  import opened Seats

  const SEATS_PER_ROW: nat := 10

  /** The largest layout whose row letters `'A' + i / 10` stay below the UTF-16
      surrogate range, where Java characters and Dafny characters part ways. */
  const MAX_LAYOUT: nat := 552310

  // ---------------------------------------------------------------------
  // The layout and the seat string, as values
  // ---------------------------------------------------------------------

  /** Row of the seat at position `i`: `(char)(65 + i / 10)`. */
  function RowAt(i: nat): char
    requires i < MAX_LAYOUT
  {
    (65 + i / SEATS_PER_ROW) as char
  }

  /** Number of the seat at position `i`: `i % 10 + 1`. */
  function NumberAt(i: nat): Int32 {
    i % SEATS_PER_ROW + 1
  }

  /** The identities of the first `n` seats of the layout. */
  function LayoutKeys(n: nat): (ks: seq<SeatKey>)
    requires n <= MAX_LAYOUT
    ensures |ks| == n
  {
    seq(n, i requires 0 <= i < n => SeatKey(RowAt(i), NumberAt(i)))
  }

  /** No two positions of the layout name the same seat. */
  lemma LayoutKeysUnique(n: nat)
    requires n <= MAX_LAYOUT
    ensures UniqueKeys(LayoutKeys(n))
  {
  }

  /** Every row of the layout is a letter from 'A' upwards, never a comma. */
  lemma LayoutRowsAreNotCommas(n: nat)
    requires n <= MAX_LAYOUT
    ensures forall k :: k in LayoutKeys(n) ==> k.row != ',' && 'A' <= k.row
  {
  }

  /** Booked flags read off a seat string: any character but '0' means booked. */
  function DecodeFlags(s: string): (fs: seq<bool>)
    ensures |fs| == |s|
  {
    seq(|s|, i requires 0 <= i < |s| => s[i] != '0')
  }

  /** The seat string of a list of flags: '1' for booked, '0' for free. */
  function EncodeFlags(fs: seq<bool>): (s: string)
    ensures |s| == |fs|
  {
    seq(|fs|, i requires 0 <= i < |fs| => if fs[i] then '1' else '0')
  }

  predicate IsSeatString(s: string) {
    forall i :: 0 <= i < |s| ==> s[i] == '0' || s[i] == '1'
  }

  /** A string of '0's and '1's survives decoding and encoding unchanged. */
  lemma EncodeDecode(s: string)
    requires IsSeatString(s)
    ensures EncodeFlags(DecodeFlags(s)) == s
  {
  }

  /** Any other character is read as booked and comes back as '1'. */
  lemma EncodeDecodeAny(s: string)
    ensures forall i :: 0 <= i < |s| ==> EncodeFlags(DecodeFlags(s))[i] == (if s[i] == '0' then '0' else '1')
  {
  }

  /** Encoding then decoding gives the flags back. */
  lemma DecodeEncode(fs: seq<bool>)
    ensures DecodeFlags(EncodeFlags(fs)) == fs
    ensures IsSeatString(EncodeFlags(fs))
  {
  }

  // ---------------------------------------------------------------------
  // Counting
  // ---------------------------------------------------------------------

  function CountBooked(fs: seq<bool>): nat {
    if fs == [] then 0
    else CountBooked(fs[..|fs| - 1]) + (if fs[|fs| - 1] then 1 else 0)
  }

  function CountFree(fs: seq<bool>): nat {
    if fs == [] then 0
    else CountFree(fs[..|fs| - 1]) + (if fs[|fs| - 1] then 0 else 1)
  }

  function CountChar(s: string, c: char): nat {
    if s == [] then 0
    else CountChar(s[..|s| - 1], c) + (if s[|s| - 1] == c then 1 else 0)
  }

  /** available + booked == total. */
  lemma {:induction false} CountsAddUp(fs: seq<bool>)
    ensures CountBooked(fs) + CountFree(fs) == |fs|
  {
    if fs != [] {
      CountsAddUp(fs[..|fs| - 1]);
    }
  }

  /** The booked count is the number of '1's in the seat string. */
  lemma {:induction false} BookedIsOnes(fs: seq<bool>)
    ensures CountChar(EncodeFlags(fs), '1') == CountBooked(fs)
  {
    if fs != [] {
      var e := EncodeFlags(fs);
      assert e[..|e| - 1] == EncodeFlags(fs[..|fs| - 1]);
      BookedIsOnes(fs[..|fs| - 1]);
    }
  }

  /** All-free flags: nothing booked, everything available. */
  lemma {:induction false} AllFreeCounts(n: nat)
    ensures CountBooked(seq(n, _ => false)) == 0
    ensures CountFree(seq(n, _ => false)) == n
  {
    if n > 0 {
      assert seq(n, _ => false)[..n - 1] == seq(n - 1, _ => false);
      AllFreeCounts(n - 1);
    }
  }

  /** One step of the counting loops: the count of a prefix grows by the next flag. */
  lemma CountStep(fs: seq<bool>, i: nat)
    requires i < |fs|
    ensures CountBooked(fs[..i + 1]) == CountBooked(fs[..i]) + (if fs[i] then 1 else 0)
    ensures CountFree(fs[..i + 1]) == CountFree(fs[..i]) + (if fs[i] then 0 else 1)
  {
    assert fs[..i + 1][..i] == fs[..i];
  }

  /** Every seat object of every screening of a list: what a function over the
      seat counts of several screenings reads. */
  ghost function SeatsOfAll(ss: seq<Screening>): set<object>
    reads ss
  {
    set s, x | s in ss && x in s.seats :: x
  }

  lemma SeatsOfAllHead(ss: seq<Screening>)
    requires ss != []
    ensures forall x :: x in ss[0].seats ==> x in SeatsOfAll(ss)
    ensures SeatsOfAll(ss[1..]) <= SeatsOfAll(ss)
  {
    forall x | x in ss[0].seats ensures x in SeatsOfAll(ss) {
      assert ss[0] in ss;
    }
    forall x | x in SeatsOfAll(ss[1..]) ensures x in SeatsOfAll(ss) {
      var s :| s in ss[1..] && x in s.seats;
      assert s in ss;
    }
  }

  class Screening {
    var screenId: int
    var movieId: int
    /** The name of the movie this screening shows (`getMovie().getName()`). */
    var movieName: string
    var date: CalendarDate
    var time: Int32
    var seats: seq<Seat>

    /** A new screening has no seats yet. */
    constructor ()
      ensures screenId == 0 && movieId == 0 && time == 0 && seats == []
    {
      screenId := 0;
      movieId := 0;
      movieName := "";
      date := Date(2000, 1, 1);
      time := 0;
      seats := [];
    }

    /** The object invariant: no two seats of the list share row and number. */
    ghost predicate Valid()
      reads this, seats
    {
      UniqueKeys(KeysOf(seats))
    }

    /** `seatStringToArrayList`: one new seat per character, laid out ten to a row. */
    method SeatStringToArrayList(seatString: string) returns (list: seq<Seat>)
      requires |seatString| <= MAX_LAYOUT
      ensures KeysOf(list) == LayoutKeys(|seatString|)
      ensures FlagsOf(list) == DecodeFlags(seatString)
      ensures forall k :: 0 <= k < |list| ==> fresh(list[k])
    {
      list := [];
      var i := 0;
      while i < |seatString|
        invariant 0 <= i <= |seatString| && |list| == i
        invariant forall k :: 0 <= k < i ==> fresh(list[k])
        invariant forall k :: 0 <= k < i ==>
          list[k].row == RowAt(k) && list[k].number == NumberAt(k) && list[k].booked == (seatString[k] != '0')
      {
        var row := (65 + i / SEATS_PER_ROW) as char;
        var number := (i % SEATS_PER_ROW) + 1;
        var seat;
        if seatString[i] == '0' {
          seat := new Seat(row, number, false);
        } else {
          seat := new Seat(row, number, true);
        }
        list := list + [seat];
        i := i + 1;
      }
      assert KeysOf(list) == LayoutKeys(|seatString|);
      assert FlagsOf(list) == DecodeFlags(seatString);
    }

    /** `setSeats(String)`: replaces the seat list by the decoded string. */
    method SetSeats(seatsStr: string)
      requires |seatsStr| <= MAX_LAYOUT
      modifies this
      ensures Valid()
      ensures KeysOf(seats) == LayoutKeys(|seatsStr|)
      ensures FlagsOf(seats) == DecodeFlags(seatsStr)
      ensures forall k :: 0 <= k < |seats| ==> fresh(seats[k])
      ensures screenId == old(screenId) && movieId == old(movieId) && movieName == old(movieName)
      ensures date == old(date) && time == old(time)
    {
      seats := SeatStringToArrayList(seatsStr);
      LayoutKeysUnique(|seatsStr|);
    }

    /** `seatArrayListToString`: one character per seat, '1' iff booked. */
    static method SeatArrayListToString(list: seq<Seat>) returns (s: string)
      ensures s == EncodeFlags(FlagsOf(list))
    {
      s := "";
      var i := 0;
      while i < |list|
        invariant 0 <= i <= |list| && |s| == i
        invariant forall k :: 0 <= k < i ==> s[k] == (if list[k].booked then '1' else '0')
      {
        if list[i].booked {
          s := s + "1";
        } else {
          s := s + "0";
        }
        i := i + 1;
      }
    }

    /** `getSeats()`: the seat string of the current seat list. */
    method GetSeats() returns (s: string)
      ensures s == EncodeFlags(FlagsOf(seats))
    {
      s := SeatArrayListToString(seats);
    }

    /** `getAvailableSeats()`: the number of seats not booked. */
    method GetAvailableSeats() returns (seatCount: int)
      ensures seatCount == CountFree(FlagsOf(seats))
    {
      seatCount := 0;
      var i := 0;
      while i < |seats|
        invariant 0 <= i <= |seats|
        invariant seatCount == CountFree(FlagsOf(seats)[..i])
      {
        CountStep(FlagsOf(seats), i);
        if !seats[i].booked {
          seatCount := seatCount + 1;
        }
        i := i + 1;
      }
      assert FlagsOf(seats)[..i] == FlagsOf(seats);
    }

    /** `getBookedSeats()`: the number of seats booked. */
    method GetBookedSeats() returns (seatCount: int)
      ensures seatCount == CountBooked(FlagsOf(seats))
    {
      seatCount := 0;
      var i := 0;
      while i < |seats|
        invariant 0 <= i <= |seats|
        invariant seatCount == CountBooked(FlagsOf(seats)[..i])
      {
        CountStep(FlagsOf(seats), i);
        if seats[i].booked {
          seatCount := seatCount + 1;
        }
        i := i + 1;
      }
      assert FlagsOf(seats)[..i] == FlagsOf(seats);
    }

    /** `getTotalSeats()`: every seat is either booked or available. */
    function GetTotalSeats(): (total: int)
      reads this, seats
      ensures total == CountBooked(FlagsOf(seats)) + CountFree(FlagsOf(seats))
    {
      CountsAddUp(FlagsOf(seats));
      |seats|
    }
  }
}
