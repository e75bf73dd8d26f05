/** A seat of the cinema (Seat.java): a row letter, a number within the row and
    a booked flag. Seats are compared by row and number only; the booked flag
    is state that controllers flip in place. */
module Seats {
  import opened JavaLang

  /** The identity of a seat: what `equals` compares. */
  datatype SeatKey = SeatKey(row: char, number: Int32)

  /** The text of a seat identity, `"" + row + number` (e.g. `A10`). */
  function KeyString(k: SeatKey): (s: string)
    ensures |s| >= 2 && s[0] == k.row && s[1..] == IntToString(k.number)
  {
    assert ([k.row] + IntToString(k.number))[1..] == IntToString(k.number);
    [k.row] + IntToString(k.number)
  }

  /** The number after the row letter reads back as the seat's number. */
  lemma KeyStringParses(k: SeatKey)
    ensures ParseInt(KeyString(k)[1..]) == Some(k.number) && ',' !in KeyString(k)[1..]
  {
    ParseIntToString(k.number);
  }

  /** The identifiers of a list of seats as text, one piece per seat. */
  function KeyStrings(ks: seq<SeatKey>): (ts: seq<string>)
    ensures |ts| == |ks|
  {
    seq(|ks|, i requires 0 <= i < |ks| => KeyString(ks[i]))
  }

  class Seat {
    var row: char
    var number: Int32
    var booked: bool

    constructor (row: char, number: Int32, booked: bool)
      ensures this.row == row && this.number == number && this.booked == booked
    {
      this.row := row;
      this.number := number;
      this.booked := booked;
    }

    function Key(): SeatKey
      reads this
    {
      SeatKey(row, number)
    }

    /** `clone()`: a new seat object with the same row, number and flag. */
    method Clone() returns (c: Seat)
      ensures fresh(c)
      ensures c.row == row && c.number == number && c.booked == booked
    {
      c := new Seat(row, number, booked);
    }

    /** `toString()`: the row character, then the decimal number. */
    function ToString(): (s: string)
      reads this
      ensures s == KeyString(Key())
    {
      [row] + IntToString(number)
    }

    /** `equals(Object)`: false for null and for non-seats, otherwise the row and
        the number decide; the booked flag plays no part. */
    predicate Equals(other: object?)
      reads this, other
      ensures Equals(other) ==> other != null && other is Seat
      ensures other is Seat ==> (Equals(other) <==> (other as Seat).Key() == Key())
    {
      other != null && other is Seat
      && (other as Seat).number == number && (other as Seat).row == row
    }

    method SetRow(row: char)
      modifies this
      ensures this.row == row && number == old(number) && booked == old(booked)
    {
      this.row := row;
    }

    method SetNumber(number: Int32)
      modifies this
      ensures this.number == number && row == old(row) && booked == old(booked)
    {
      this.number := number;
    }

    /** `setBooked`: changes the flag and nothing else. */
    method SetBooked(booked: bool)
      modifies this
      ensures this.booked == booked && row == old(row) && number == old(number)
    {
      this.booked := booked;
    }
  }

  /** Seat equality is an equivalence, so `list.indexOf(x)` (which asks
      `x.equals(e)`) and `e.equals(x)` agree. */
  lemma EqualsIsEquivalence(a: Seat, b: Seat, c: Seat)
    ensures a.Equals(a)
    ensures a.Equals(b) == b.Equals(a)
    ensures a.Equals(b) && b.Equals(c) ==> a.Equals(c)
  {
  }

  /** A clone that is then re-flagged still equals its original, and the
      original keeps its own flag: the clone is a separate object. */
  method CloneIsIndependent(s: Seat, flag: bool) returns (c: Seat)
    modifies {}
    ensures fresh(c) && c.Equals(s) && c.booked == flag
    ensures s.booked == old(s.booked) && s.Key() == old(s.Key())
  {
    c := s.Clone();
    c.SetBooked(flag);
  }

  // ---------------------------------------------------------------------
  // Views of a list of seats
  // ---------------------------------------------------------------------

  /** The identities of a list of seats, in order. */
  function KeysOf(ss: seq<Seat>): (ks: seq<SeatKey>)
    reads ss
    ensures |ks| == |ss|
  {
    seq(|ss|, i requires 0 <= i < |ss| reads ss => ss[i].Key())
  }

  /** The booked flags of a list of seats, in order. */
  function FlagsOf(ss: seq<Seat>): (fs: seq<bool>)
    reads ss
    ensures |fs| == |ss|
  {
    seq(|ss|, i requires 0 <= i < |ss| reads ss => ss[i].booked)
  }

  predicate UniqueKeys(ks: seq<SeatKey>) {
    forall i, j :: 0 <= i < j < |ks| ==> ks[i] != ks[j]
  }

  /** The first position of `k` in `ks`, or -1: `ArrayList.indexOf` under seat equality. */
  function IndexOfKey(ks: seq<SeatKey>, k: SeatKey): (r: int)
    ensures r == -1 <==> k !in ks
    ensures r >= 0 ==> r < |ks| && ks[r] == k && k !in ks[..r]
  {
    if ks == [] then -1
    else if ks[0] == k then 0
    else
      var r := IndexOfKey(ks[1..], k);
      assert ks[1..][..if r < 0 then 0 else r] == ks[1..1 + if r < 0 then 0 else r];
      if r < 0 then -1 else r + 1
  }

  /** A position holding `k` with no earlier `k` is the one IndexOfKey finds. */
  lemma FirstIndexIsIndexOf(ks: seq<SeatKey>, k: SeatKey, i: int)
    requires 0 <= i < |ks| && ks[i] == k && k !in ks[..i]
    ensures IndexOfKey(ks, k) == i
  {
  }

  /** `list.indexOf(o)` for a list of seats: the scan of the ArrayList. */
  method IndexOf(list: seq<Seat>, o: Seat) returns (idx: int)
    ensures idx == IndexOfKey(KeysOf(list), o.Key())
  {
    idx := 0;
    while idx < |list|
      invariant 0 <= idx <= |list|
      invariant o.Key() !in KeysOf(list)[..idx]
    {
      if o.Equals(list[idx]) {
        FirstIndexIsIndexOf(KeysOf(list), o.Key(), idx);
        return;
      }
      assert KeysOf(list)[..idx + 1] == KeysOf(list)[..idx] + [list[idx].Key()];
      idx := idx + 1;
    }
    idx := -1;
  }
}
