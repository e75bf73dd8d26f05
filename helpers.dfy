/** The two display helpers of Helpers.java: the day-first rendering of an ISO
    date and the comma-separated list of seat identifiers. */
module Helpers {
  import opened JavaLang
  import opened Dates
  import opened Seats

  /** `formatDateString`: split on '-' and put the third piece first, then the
      second, then the first, separated by '/'. Fewer than three pieces make
      `strArray[2]` throw, modelled as None. Pieces after the third are ignored. */
  function FormatDateString(dateString: string): (r: Option<string>)
    ensures r.None? <==> |Split(dateString, '-')| < 3
  {
    var strArray := Split(dateString, '-');
    if |strArray| < 3 then None
    else Some(strArray[2] + "/" + strArray[1] + "/" + strArray[0])
  }

  /** `Y-M-D` becomes `D/M/Y`: day and year swap places and the month stays in
      the middle, for any fields without a dash and a non-empty day. */
  lemma FormatDateStringSwaps(y: string, m: string, d: string)
    requires '-' !in y && '-' !in m && '-' !in d && d != []
    ensures FormatDateString(y + "-" + m + "-" + d) == Some(d + "/" + m + "/" + y)
  {
    var parts := [y, m, d];
    assert JoinWith(parts, '-') == y + "-" + m + "-" + d by {
      assert parts[1..] == [m, d];
      assert [m, d][1..] == [d];
      assert JoinWith([m, d], '-') == m + "-" + d;
    }
    SplitJoin(parts, '-');
  }

  /** On the text of a date the result is DD/MM/YYYY. */
  lemma FormatIsoDate(date: Date)
    requires ValidDate(date)
    ensures FormatDateString(IsoString(date))
         == Some(Digits(date.day, 2) + "/" + Digits(date.month, 2) + "/" + Digits(date.year, 4))
  {
    DigitsHaveNoDash(Digits(date.year, 4));
    DigitsHaveNoDash(Digits(date.month, 2));
    DigitsHaveNoDash(Digits(date.day, 2));
    FormatDateStringSwaps(Digits(date.year, 4), Digits(date.month, 2), Digits(date.day, 2));
  }

  lemma DigitsHaveNoDash(s: string)
    requires AllDigits(s)
    ensures '-' !in s
  {
  }

  /** A string without a dash is a single piece and cannot be formatted. */
  lemma FormatDateStringNeedsDashes(s: string)
    requires '-' !in s
    ensures FormatDateString(s) == None
  {
  }

  // ---------------------------------------------------------------------
  // formatSeatList
  // ---------------------------------------------------------------------

  /** The pieces separated by ", " with nothing after the last one. */
  function Joined(ts: seq<string>): string {
    if |ts| == 0 then ""
    else if |ts| == 1 then ts[0]
    else Joined(ts[..|ts| - 1]) + ", " + ts[|ts| - 1]
  }

  /** What the accumulating loop holds: every piece followed by ", ". */
  function Terminated(ts: seq<string>): string {
    if ts == [] then "" else Terminated(ts[..|ts| - 1]) + ts[|ts| - 1] + ", "
  }

  function SumLengths(ts: seq<string>): nat {
    if ts == [] then 0 else SumLengths(ts[..|ts| - 1]) + |ts[|ts| - 1]|
  }

  /** Cutting the last two characters off the accumulated text leaves the
      pieces joined by separators, with none at the end. */
  lemma {:induction false} TerminatedIsJoined(ts: seq<string>)
    requires ts != []
    ensures Terminated(ts) == Joined(ts) + ", "
  {
    if |ts| > 1 {
      var init := ts[..|ts| - 1];
      TerminatedIsJoined(init);
    } else {
      assert ts[..0] == [];
    }
  }

  /** The length of the joined list: the pieces plus two characters between
      each pair of neighbours. */
  lemma {:induction false} JoinedLength(ts: seq<string>)
    requires ts != []
    ensures |Joined(ts)| == SumLengths(ts) + 2 * (|ts| - 1)
  {
    if |ts| > 1 {
      JoinedLength(ts[..|ts| - 1]);
    } else {
      assert ts[..0] == [];
    }
  }

  lemma TerminatedStep(ts: seq<string>, i: nat)
    requires i < |ts|
    ensures Terminated(ts[..i + 1]) == Terminated(ts[..i]) + ts[i] + ", "
  {
    assert ts[..i + 1][..i] == ts[..i];
  }

  lemma CutTerminated(ts: seq<string>)
    requires ts != []
    ensures |Terminated(ts)| >= 2 && Terminated(ts)[..|Terminated(ts)| - 2] == Joined(ts)
  {
    TerminatedIsJoined(ts);
  }

  lemma JoinedSmallCases(t: string)
    ensures Joined([]) == ""
    ensures Joined([t]) == t
  {
  }

  /** `formatSeatList`: each seat's text followed by ", ", then the last two
      characters cut off when there are at least two of them. */
  method FormatSeatList(seatList: seq<Seat>) returns (s: string)
    ensures s == Joined(KeyStrings(KeysOf(seatList)))
  {
    ghost var ts := KeyStrings(KeysOf(seatList));
    var returnString := "";
    var i := 0;
    while i < |seatList|
      invariant 0 <= i <= |seatList|
      invariant returnString == Terminated(ts[..i])
    {
      var piece := seatList[i].ToString();
      assert piece == ts[i];
      TerminatedStep(ts, i);
      returnString := returnString + piece + ", ";
      i := i + 1;
    }
    assert ts[..i] == ts;
    if ts != [] {
      CutTerminated(ts);
    }
    if |returnString| >= 2 {
      return returnString[..|returnString| - 2];
    }
    return "";
  }
}
