/** Calendar dates as the controllers use them (`java.time.LocalDate`), their
    ISO text form (the `date` column and `LocalDate.toString`), and the single
    rule that decides whether a screening slot is already in the past. */
module Dates {
  import opened JavaLang

  datatype Date = Date(year: int, month: int, day: int)

  /** `a.isBefore(b)`: chronological order, year first, then month, then day. */
  predicate IsBefore(a: Date, b: Date) {
    a.year < b.year
    || (a.year == b.year && a.month < b.month)
    || (a.year == b.year && a.month == b.month && a.day < b.day)
  }

  /** `a.isAfter(b)`. */
  predicate IsAfter(a: Date, b: Date) {
    IsBefore(b, a)
  }

  /** Dates whose ISO text has a four-digit year. */
  predicate ValidDate(d: Date) {
    0 <= d.year <= 9999 && 1 <= d.month <= 12 && 1 <= d.day <= 31
  }

  /** The dates a date picker yields and the `date` column holds. */
  type CalendarDate = d: Date | ValidDate(d) witness Date(2000, 1, 1)

  /** Exactly one of before, equal, after holds. */
  lemma Trichotomy(a: Date, b: Date)
    ensures IsBefore(a, b) || a == b || IsAfter(a, b)
    ensures !(IsBefore(a, b) && IsAfter(a, b))
    ensures !IsBefore(a, a)
  {
  }

  lemma BeforeTransitive(a: Date, b: Date, c: Date)
    requires IsBefore(a, b) && IsBefore(b, c)
    ensures IsBefore(a, c)
  {
  }

  // ---------------------------------------------------------------------
  // ISO text form
  // ---------------------------------------------------------------------

  function Pow10(w: nat): (p: nat)
    ensures p >= 1
  {
    if w == 0 then 1 else 10 * Pow10(w - 1)
  }

  /** The last `w` decimal digits of `n`, zero-padded. */
  function Digits(n: nat, w: nat): (s: string)
    ensures |s| == w && AllDigits(s)
  {
    if w == 0 then [] else Digits(n / 10, w - 1) + [DigitChar(n % 10)]
  }

  lemma {:induction false} DigitsValueOfDigits(n: nat, w: nat)
    requires n < Pow10(w)
    ensures DigitsValue(Digits(n, w)) == n
  {
    if w > 0 {
      var s := Digits(n, w);
      assert s[..w - 1] == Digits(n / 10, w - 1);
      DigitsValueOfDigits(n / 10, w - 1);
    }
  }

  /** `LocalDate.toString()`: YYYY-MM-DD. */
  function IsoString(d: Date): (s: string)
    requires ValidDate(d)
    ensures |s| == 10
  {
    Digits(d.year, 4) + "-" + Digits(d.month, 2) + "-" + Digits(d.day, 2)
  }

  /** Two valid dates have the same text exactly when they are the same date, so
      comparing the `date` strings (as the scheduler does) compares dates. */
  lemma IsoStringInjective(a: Date, b: Date)
    requires ValidDate(a) && ValidDate(b)
    ensures IsoString(a) == IsoString(b) <==> a == b
  {
    if IsoString(a) == IsoString(b) {
      var s, t := IsoString(a), IsoString(b);
      assert s[..4] == Digits(a.year, 4) && t[..4] == Digits(b.year, 4);
      assert s[5..7] == Digits(a.month, 2) && t[5..7] == Digits(b.month, 2);
      assert s[8..] == Digits(a.day, 2) && t[8..] == Digits(b.day, 2);
      DigitsValueOfDigits(a.year, 4);
      DigitsValueOfDigits(b.year, 4);
      DigitsValueOfDigits(a.month, 2);
      DigitsValueOfDigits(b.month, 2);
      DigitsValueOfDigits(a.day, 2);
      DigitsValueOfDigits(b.day, 2);
    }
  }

  // ---------------------------------------------------------------------
  // The temporal eligibility rule
  // ---------------------------------------------------------------------

  /** A slot `(date, hour)` is past, seen at `(today, currentHour)`, when its day
      is over or it is today and its hour has been reached. The clock is
      injected: `today` stands for `LocalDate.now()` and `currentHour` for
      `LocalTime.now().getHour()`. */
  predicate IsPast(date: Date, hour: int, today: Date, currentHour: int) {
    IsBefore(date, today) || (date == today && currentHour >= hour)
  }

  /** The complement, stated positively. */
  lemma UpcomingIff(date: Date, hour: int, today: Date, currentHour: int)
    ensures !IsPast(date, hour, today, currentHour)
        <==> IsAfter(date, today) || (date == today && hour > currentHour)
  {
    Trichotomy(date, today);
  }

  /** The boundary: the slot at the current hour is already past, the next hour is not. */
  lemma PastBoundary(today: Date, currentHour: int)
    ensures IsPast(today, currentHour, today, currentHour)
    ensures !IsPast(today, currentHour + 1, today, currentHour)
  {
  }
}
