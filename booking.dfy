/** A booking (Booking.java): a customer's reservation of some seats of one
    screening. In the database its seats are a comma-terminated list of seat
    identifiers such as `A8,D10,`; in memory they are the screening's own seat
    objects, found again by row and number. */
module Bookings {
  import opened JavaLang
  import opened Seats
  import opened Screenings

  // ---------------------------------------------------------------------
  // The seat-list text, as values
  // ---------------------------------------------------------------------

  /** Every piece followed by a comma. */
  function CommaTerminated(ts: seq<string>): string {
    if ts == [] then "" else CommaTerminated(ts[..|ts| - 1]) + ts[|ts| - 1] + ","
  }

  /** What `getSeats` builds: every seat identifier followed by a comma. */
  function SerializeKeys(ks: seq<SeatKey>): string {
    CommaTerminated(KeyStrings(ks))
  }

  /** Appending a seat appends its identifier and a comma; this is the step of
      the accumulating loop in `getSeats`. */
  lemma SerializeKeysSnoc(ks: seq<SeatKey>, k: SeatKey)
    ensures SerializeKeys(ks + [k]) == SerializeKeys(ks) + KeyString(k) + ","
  {
    var ts := KeyStrings(ks + [k]);
    assert ts[..|ts| - 1] == KeyStrings(ks);
  }

  /** Joining with one more piece appends the separator and the piece. */
  lemma {:induction false} JoinSnoc(parts: seq<string>, x: string, sep: char)
    requires |parts| >= 1
    ensures JoinWith(parts + [x], sep) == JoinWith(parts, sep) + [sep] + x
  {
    if |parts| > 1 {
      assert (parts + [x])[1..] == parts[1..] + [x];
      JoinSnoc(parts[1..], x, sep);
    }
  }

  /** Comma-terminated pieces are the pieces joined by commas, with one empty
      piece after the final comma. */
  lemma {:induction false} CommaTerminatedIsJoin(ts: seq<string>)
    ensures CommaTerminated(ts) == JoinWith(ts + [""], ',')
  {
    if ts != [] {
      var init, t := ts[..|ts| - 1], ts[|ts| - 1];
      CommaTerminatedIsJoin(init);
      assert ts + [""] == init + [t] + [""];
      if init == [] {
        assert ts == [t];
      } else {
        JoinSnoc(init, "", ',');
        JoinSnoc(init, t, ',');
        JoinSnoc(init + [t], "", ',');
      }
    }
  }

  /** The serialised text is the identifiers joined by commas, with one empty
      piece after the final comma. */
  lemma SerializeIsJoin(ks: seq<SeatKey>)
    ensures SerializeKeys(ks) == JoinWith(KeyStrings(ks) + [""], ',')
  {
    CommaTerminatedIsJoin(KeyStrings(ks));
  }

  /** A non-empty serialisation ends with the trailing comma. */
  lemma SerializeEndsWithComma(ks: seq<SeatKey>)
    requires ks != []
    ensures |SerializeKeys(ks)| >= 3 && SerializeKeys(ks)[|SerializeKeys(ks)| - 1] == ','
  {
    SerializeKeysSnoc(ks[..|ks| - 1], ks[|ks| - 1]);
    assert ks[..|ks| - 1] + [ks[|ks| - 1]] == ks;
  }

  /** One piece of the text: the first character is the row and the rest must
      parse as the number (`charAt(0)` and `Integer.parseInt(substring(1))`). */
  datatype SeatsError =
    | EmptyToken   // StringIndexOutOfBoundsException from charAt(0)
    | BadNumber    // NumberFormatException from parseInt
    | NoScreening  // NullPointerException: the booking has no screening
    | UnknownSeat  // IndexOutOfBoundsException from get(-1)

  datatype TokenResult = TokenKey(key: SeatKey) | TokenError(error: SeatsError)

  function ParseToken(t: string): (r: TokenResult)
    ensures r.TokenKey? ==> |t| >= 1 && r.key.row == t[0] && ParseInt(t[1..]) == Some(r.key.number)
    ensures r.TokenError? ==> r.error == EmptyToken || r.error == BadNumber
    ensures r.TokenError? ==> (r.error == EmptyToken <==> t == [])
    ensures r.TokenError? && r.error == BadNumber ==> |t| >= 1 && ParseInt(t[1..]).None?
  {
    if |t| == 0 then TokenError(EmptyToken)
    else match ParseInt(t[1..])
      case None => TokenError(BadNumber)
      case Some(n) => TokenKey(SeatKey(t[0], n))
  }

  /** The outcome of resolving the tokens against a seat layout: the positions
      found, in token order, and the error that stopped the scan, if any. */
  datatype Resolution = Resolution(indices: seq<nat>, error: Option<SeatsError>)

  /** Tokens resolved one after the other; the first failure stops the scan and
      keeps what was resolved before it. `layout` is None when there is no
      screening to look the seats up in. */
  function Resolve(tokens: seq<string>, layout: Option<seq<SeatKey>>): (r: Resolution)
    ensures |r.indices| <= |tokens|
    ensures r.error.None? ==> |r.indices| == |tokens|
    ensures layout.Some? ==> forall j :: 0 <= j < |r.indices| ==> r.indices[j] < |layout.value|
    ensures layout.None? ==> r.indices == []
  {
    if tokens == [] then Resolution([], None)
    else match ParseToken(tokens[0])
      case TokenError(e) => Resolution([], Some(e))
      case TokenKey(k) =>
        if layout.None? then Resolution([], Some(NoScreening))
        else
          var idx := IndexOfKey(layout.value, k);
          if idx < 0 then Resolution([], Some(UnknownSeat))
          else
            var rest := Resolve(tokens[1..], layout);
            Resolution([idx as nat] + rest.indices, rest.error)
  }

  /** Every position found holds the seat its token names. */
  lemma {:induction false} ResolveFindsNamedSeats(tokens: seq<string>, layout: seq<SeatKey>)
    ensures var r := Resolve(tokens, Some(layout));
      forall j :: 0 <= j < |r.indices| ==>
        ParseToken(tokens[j]).TokenKey? && layout[r.indices[j]] == ParseToken(tokens[j]).key
  {
    if tokens != [] {
      ResolveFindsNamedSeats(tokens[1..], layout);
    }
  }

  /** The seats at the given positions of a seat list. */
  function SeatsAt(ss: seq<Seat>, indices: seq<nat>): (r: seq<Seat>)
    requires forall j :: 0 <= j < |indices| ==> indices[j] < |ss|
    ensures |r| == |indices|
  {
    seq(|indices|, j requires 0 <= j < |indices| => ss[indices[j]])
  }

  /** Parsing the text `getSeats` writes gives back exactly the identifiers
      that were written, provided there is at least one and every row is not a
      comma; looked up in a layout that holds them, the seats found are the
      named ones. */
  lemma SerializeResolveRoundTrip(ks: seq<SeatKey>, layout: seq<SeatKey>)
    requires ks != []
    requires forall j :: 0 <= j < |ks| ==> ks[j].row != ',' && ks[j] in layout
    ensures Split(SerializeKeys(ks), ',') == KeyStrings(ks)
    ensures var r := Resolve(Split(SerializeKeys(ks), ','), Some(layout));
      r.error == None && seq(|r.indices|, j requires 0 <= j < |r.indices| => layout[r.indices[j]]) == ks
  {
    var ts := KeyStrings(ks);
    SerializeIsJoin(ks);
    assert forall j :: 0 <= j < |ts| ==> ts[j] != [] && ',' !in ts[j] by {
      forall j | 0 <= j < |ts| ensures ts[j] != [] && ',' !in ts[j] {
        assert ts[j] == [ts[j][0]] + ts[j][1..];
      }
    }
    SplitTrailingComma(ts);
    var r := Resolve(ts, Some(layout));
    ResolveKeyStrings(ks, layout);
    ResolveLength(ts, Some(layout));
    ResolveFindsNamedSeats(ts, layout);
    forall j | 0 <= j < |ks| ensures layout[r.indices[j]] == ks[j] {
      ParseKeyString(ks[j]);
    }
  }

  /** A seat identifier parses back to its row and number. */
  lemma ParseKeyString(k: SeatKey)
    ensures ParseToken(KeyString(k)) == TokenKey(k)
  {
    KeyStringParses(k);
  }

  /** A resolution without error found a position for every token. */
  lemma {:induction false} ResolveLength(tokens: seq<string>, layout: Option<seq<SeatKey>>)
    ensures Resolve(tokens, layout).error == None ==> |Resolve(tokens, layout).indices| == |tokens|
  {
    if tokens != [] {
      ResolveLength(tokens[1..], layout);
    }
  }

  /** Split of pieces joined with a trailing separator. */
  lemma SplitTrailingComma(ts: seq<string>)
    requires ts != []
    requires forall j :: 0 <= j < |ts| ==> ts[j] != [] && ',' !in ts[j]
    ensures Split(JoinWith(ts + [""], ','), ',') == ts
  {
    var parts := ts + [""];
    SplitAllJoin(parts, ',');
    JoinContainsSeparator(parts, ',');
    assert parts[..|parts| - 1] == ts;
    assert DropTrailingEmpty(ts) == ts;
    assert DropTrailingEmpty(parts) == DropTrailingEmpty(ts);
  }

  lemma {:induction false} JoinContainsSeparator(parts: seq<string>, sep: char)
    requires |parts| >= 2
    ensures sep in JoinWith(parts, sep)
  {
    assert JoinWith(parts, sep) == parts[0] + [sep] + JoinWith(parts[1..], sep);
    assert JoinWith(parts, sep)[|parts[0]|] == sep;
  }

  /** The identifiers of seats in the layout all resolve. */
  lemma {:induction false} ResolveKeyStrings(ks: seq<SeatKey>, layout: seq<SeatKey>)
    requires forall j :: 0 <= j < |ks| ==> ks[j] in layout
    ensures Resolve(KeyStrings(ks), Some(layout)).error == None
  {
    if ks != [] {
      var ts := KeyStrings(ks);
      assert ts[1..] == KeyStrings(ks[1..]);
      ParseKeyString(ks[0]);
      ResolveKeyStrings(ks[1..], layout);
    }
  }

  /** The text of an empty seat list is `""`, and parsing it fails on its single
      empty piece, so an empty booking cannot be read back. */
  lemma EmptySeatListDoesNotParse(layout: Option<seq<SeatKey>>)
    ensures SerializeKeys([]) == ""
    ensures Resolve(Split("", ','), layout) == Resolution([], Some(EmptyToken))
  {
    assert Split("", ',') == [""];
  }

  /** A row separator the parser cannot see past: a single comma splits into no
      pieces at all, which parses as an empty list without error. */
  lemma LoneCommaParsesAsEmpty(layout: Option<seq<SeatKey>>)
    ensures Resolve(Split(",", ','), layout) == Resolution([], None)
  {
    assert SplitAll(",", ',') == [[], []];
  }

  /** The resolution as the parse loop sees it: after `i` tokens, the positions
      found so far, followed by the resolution of the rest. */
  lemma ResolveStep(tokens: seq<string>, i: nat, layout: Option<seq<SeatKey>>)
    requires i < |tokens|
    ensures var r := Resolve(tokens[i..], layout);
      var t := ParseToken(tokens[i]);
      r == if t.TokenError? then Resolution([], Some(t.error))
           else if layout.None? then Resolution([], Some(NoScreening))
           else if IndexOfKey(layout.value, t.key) < 0 then Resolution([], Some(UnknownSeat))
           else Resolution([IndexOfKey(layout.value, t.key) as nat] + Resolve(tokens[i + 1..], layout).indices,
                           Resolve(tokens[i + 1..], layout).error)
  {
    assert tokens[i..][1..] == tokens[i + 1..];
  }

  /** `Integer.parseInt(t.substring(1))` on a non-empty token. */
  method ParseTokenNumber(t: string) returns (number: Option<Int32>)
    requires |t| >= 1
    ensures number == ParseInt(t[1..])
  {
    number := ParseInt(t[1..]);
  }

  function LayoutOf(s: Screening?): (r: Option<seq<SeatKey>>)
    reads s, if s == null then {} else set x | x in s.seats
    ensures s == null <==> r.None?
  {
    if s == null then None else Some(KeysOf(s.seats))
  }

  /** The parse loop of `setSeats(String)` over the screening's seat list:
      the seats found, in token order, up to the first piece that fails. */
  method ResolveSeats(tokens: seq<string>, ss: seq<Seat>) returns (list: seq<Seat>, error: Option<SeatsError>)
    ensures var r := Resolve(tokens, Some(KeysOf(ss)));
      error == r.error && list == SeatsAt(ss, r.indices)
  {
    ghost var ks := KeysOf(ss);
    ghost var layout := Some(ks);
    list := [];
    var i := 0;
    ghost var found: seq<nat> := [];
    while i < |tokens|
      invariant 0 <= i <= |tokens|
      invariant ks == KeysOf(ss) && |ks| == |ss|
      invariant Resolve(tokens, layout).indices == found + Resolve(tokens[i..], layout).indices
      invariant Resolve(tokens, layout).error == Resolve(tokens[i..], layout).error
      invariant forall j :: 0 <= j < |found| ==> found[j] < |ss|
      invariant list == SeatsAt(ss, found)
    {
      ResolveStep(tokens, i, layout);
      var seatIndex, tokenError := LookUpToken(tokens[i], ss, ks);
      if tokenError.Some? {
        return list, tokenError;
      }
      list := list + [ss[seatIndex]];
      found := found + [seatIndex as nat];
      i := i + 1;
    }
    assert tokens[i..] == [];
    error := None;
  }

  /** One pass of the parse loop: the token's row letter and number, and the
      position of the seat with that identity in the screening's list. */
  method LookUpToken(token: string, ss: seq<Seat>, ghost ks: seq<SeatKey>) returns (seatIndex: int, error: Option<SeatsError>)
    requires ks == KeysOf(ss)
    ensures var t := ParseToken(token);
      if t.TokenError? then error == Some(t.error)
      else if IndexOfKey(ks, t.key) < 0 then error == Some(UnknownSeat)
      else error == None && seatIndex == IndexOfKey(ks, t.key)
  {
    seatIndex := -1;
    if |token| == 0 {
      return seatIndex, Some(EmptyToken);
    }
    var row := token[0];
    var number := ParseTokenNumber(token);
    if number.None? {
      return seatIndex, Some(BadNumber);
    }
    var tempSeat := new Seat(row, number.value, true);
    assert KeysOf(ss) == ks;
    seatIndex := IndexOf(ss, tempSeat);
    if seatIndex < 0 {
      return seatIndex, Some(UnknownSeat);
    }
    error := None;
  }

  /** The same loop when the booking has no screening: the first piece that
      parses fails on the missing screening. */
  method ResolveWithoutScreening(tokens: seq<string>) returns (error: Option<SeatsError>)
    ensures error == Resolve(tokens, None).error
  {
    if |tokens| == 0 {
      return None;
    }
    ResolveStep(tokens, 0, None);
    assert tokens[0..] == tokens;
    var token := tokens[0];
    if |token| == 0 {
      return Some(EmptyToken);
    }
    var number := ParseTokenNumber(token);
    if number.None? {
      return Some(BadNumber);
    }
    error := Some(NoScreening);
  }

  class Booking {
    var bookingId: int
    var screenId: int
    var username: string
    var seatList: seq<Seat>
    var screening: Screening?

    constructor ()
      ensures bookingId == 0 && screenId == 0 && username == "" && seatList == [] && screening == null
    {
      bookingId := 0;
      screenId := 0;
      username := "";
      seatList := [];
      screening := null;
    }

    /** `getSeats()`: every seat's row and number, each followed by a comma. */
    method GetSeats() returns (seatString: string)
      ensures seatString == SerializeKeys(KeysOf(seatList))
    {
      seatString := "";
      var i := 0;
      while i < |seatList|
        invariant 0 <= i <= |seatList|
        invariant seatString == SerializeKeys(KeysOf(seatList)[..i])
      {
        assert KeysOf(seatList)[..i + 1] == KeysOf(seatList)[..i] + [seatList[i].Key()];
        SerializeKeysSnoc(KeysOf(seatList)[..i], seatList[i].Key());
        seatString := seatString + seatList[i].ToString() + ",";
        i := i + 1;
      }
      assert KeysOf(seatList)[..i] == KeysOf(seatList);
    }

    /** `setSeats(String)`: split on commas, and for each piece take the seat of
        the screening with that row and number. The list holds the screening's
        own seat objects. When a piece fails, the exception leaves the list with
        the seats resolved before it; the failure is returned. */
    method SetSeatsFromString(seatString: string) returns (error: Option<SeatsError>)
      modifies this
      ensures var r := Resolve(Split(seatString, ','), LayoutOf(screening));
        error == r.error
        && (screening == null ==> seatList == [])
        && (screening != null ==> seatList == SeatsAt(screening.seats, r.indices))
      ensures screening == old(screening) && bookingId == old(bookingId)
      ensures screenId == old(screenId) && username == old(username)
    {
      var tokens := Split(seatString, ',');
      if screening == null {
        seatList := [];
        error := ResolveWithoutScreening(tokens);
      } else {
        seatList, error := ResolveSeats(tokens, screening.seats);
      }
    }

    /** `setSeats(ArrayList)`: the list is taken as it is, not copied. */
    method SetSeatList(list: seq<Seat>)
      modifies this
      ensures seatList == list
      ensures screening == old(screening) && bookingId == old(bookingId)
      ensures screenId == old(screenId) && username == old(username)
    {
      seatList := list;
    }
  }

  /** `getFormattedTime()`: the hour followed by ":00". */
  function FormattedTime(hour: Int32): (s: string)
    ensures |s| >= 4 && s[|s| - 3..] == ":00"
    ensures ParseInt(s[..|s| - 3]) == Some(hour)
  {
    ParseIntToString(hour);
    var r := IntToString(hour) + ":00";
    assert r[..|r| - 3] == IntToString(hour);
    r
  }
}
