/** The two orders in which screening lists are shown: by date and hour
    (ScreeningDateComparator) and by movie name, then date and hour
    (ScreeningNameComparator). Both are `compare` functions with Java's
    convention: negative, zero or positive. */
module Comparators {
  import opened JavaLang
  import opened Dates

  /** What the date comparator looks at. */
  datatype Slot = Slot(date: Date, hour: Int32)

  /** What the name comparator looks at. */
  datatype Listing = Listing(name: string, slot: Slot)

  function Sign(x: int): int {
    if x < 0 then -1 else if x > 0 then 1 else 0
  }

  /** Hours whose difference cannot overflow an `int`. */
  predicate HourInRange(h: int) {
    -0x4000_0000 <= h < 0x4000_0000
  }

  // ---------------------------------------------------------------------
  // ScreeningDateComparator
  // ---------------------------------------------------------------------

  /** `compare`: -1 when the first date is earlier, 1 when it is later, and on
      the same day `time1 - time2` as a Java `int` subtraction. */
  function DateCompare(a: Slot, b: Slot): (r: Int32)
    ensures IsBefore(a.date, b.date) ==> r == -1
    ensures IsAfter(a.date, b.date) ==> r == 1
    ensures a.date == b.date && HourInRange(a.hour) && HourInRange(b.hour) ==> r == a.hour - b.hour
  {
    if IsBefore(a.date, b.date) then -1
    else if IsAfter(a.date, b.date) then 1
    else Wrap32(a.hour - b.hour)
  }

  /** The order the comparator is meant to be: lexicographic on (date, hour). */
  predicate SlotLe(a: Slot, b: Slot) {
    IsBefore(a.date, b.date) || (a.date == b.date && a.hour <= b.hour)
  }

  /** Zero exactly for the same date and hour, whatever the hours. */
  lemma DateCompareZeroIff(a: Slot, b: Slot)
    ensures DateCompare(a, b) == 0 <==> a == b
  {
    Trichotomy(a.date, b.date);
    if a.date == b.date && a.hour != b.hour {
      var d := a.hour - b.hour;
      assert d != 0 && -0x1_0000_0000 < d < 0x1_0000_0000;
      assert (d - Wrap32(d)) % 0x1_0000_0000 == 0;
    }
  }

  /** Within the hour range, the comparator agrees with the lexicographic order. */
  lemma DateCompareIsSlotOrder(a: Slot, b: Slot)
    requires HourInRange(a.hour) && HourInRange(b.hour)
    ensures DateCompare(a, b) <= 0 <==> SlotLe(a, b)
    ensures DateCompare(a, b) < 0 <==> SlotLe(a, b) && a != b
  {
    Trichotomy(a.date, b.date);
  }

  lemma DateCompareAntisymmetric(a: Slot, b: Slot)
    requires HourInRange(a.hour) && HourInRange(b.hour)
    ensures Sign(DateCompare(a, b)) == -Sign(DateCompare(b, a))
  {
    Trichotomy(a.date, b.date);
  }

  lemma SlotLeTotalPreorder(a: Slot, b: Slot, c: Slot)
    ensures SlotLe(a, a)
    ensures SlotLe(a, b) || SlotLe(b, a)
    ensures SlotLe(a, b) && SlotLe(b, c) ==> SlotLe(a, c)
  {
    Trichotomy(a.date, b.date);
    if IsBefore(a.date, b.date) && IsBefore(b.date, c.date) {
      BeforeTransitive(a.date, b.date, c.date);
    }
  }

  /** The comparator is transitive, so sorting by it is well defined. */
  lemma DateCompareTransitive(a: Slot, b: Slot, c: Slot)
    requires HourInRange(a.hour) && HourInRange(b.hour) && HourInRange(c.hour)
    requires DateCompare(a, b) <= 0 && DateCompare(b, c) <= 0
    ensures DateCompare(a, c) <= 0
  {
    DateCompareIsSlotOrder(a, b);
    DateCompareIsSlotOrder(b, c);
    DateCompareIsSlotOrder(a, c);
    SlotLeTotalPreorder(a, b, c);
  }

  /** Outside the range the subtraction wraps and both directions come out
      negative: on the same day, hour -2147483648 against hour 0. */
  lemma DateCompareOverflow(d: Date)
    ensures DateCompare(Slot(d, -0x8000_0000), Slot(d, 0)) < 0
    ensures DateCompare(Slot(d, 0), Slot(d, -0x8000_0000)) < 0
  {
    assert Wrap32(0x8000_0000) == -0x8000_0000;
  }

  // ---------------------------------------------------------------------
  // String.compareTo
  // ---------------------------------------------------------------------

  /** `compareTo` on code-unit sequences: the difference of the first pair of
      units that differ, or else the difference of the lengths. */
  function UnitCompare(a: seq<int>, b: seq<int>): int {
    if a == [] || b == [] then |a| - |b|
    else if a[0] != b[0] then a[0] - b[0]
    else UnitCompare(a[1..], b[1..])
  }

  /** `a.compareTo(b)`: Java compares the strings' UTF-16 code units. */
  function StringCompare(a: string, b: string): int {
    UnitCompare(Utf16(a), Utf16(b))
  }

  /** Lexicographic order on code units, the reference for `compareTo`. */
  predicate LexLess(a: seq<int>, b: seq<int>) {
    if a == [] then b != []
    else if b == [] then false
    else if a[0] != b[0] then a[0] < b[0]
    else LexLess(a[1..], b[1..])
  }

  lemma {:induction false} UnitCompareZeroIff(a: seq<int>, b: seq<int>)
    ensures UnitCompare(a, b) == 0 <==> a == b
  {
    if a != [] && b != [] && a[0] == b[0] {
      UnitCompareZeroIff(a[1..], b[1..]);
      if a[1..] == b[1..] {
        assert a == [a[0]] + a[1..] && b == [b[0]] + b[1..];
      }
    }
  }

  lemma StringCompareZeroIff(a: string, b: string)
    ensures StringCompare(a, b) == 0 <==> a == b
  {
    UnitCompareZeroIff(Utf16(a), Utf16(b));
    if Utf16(a) == Utf16(b) {
      Utf16Injective(a, b);
    }
  }

  lemma {:induction false} UnitCompareAntisymmetric(a: seq<int>, b: seq<int>)
    ensures UnitCompare(a, b) == -UnitCompare(b, a)
  {
    if a != [] && b != [] && a[0] == b[0] {
      UnitCompareAntisymmetric(a[1..], b[1..]);
    }
  }

  /** Swapping the arguments negates the result exactly. */
  lemma StringCompareAntisymmetric(a: string, b: string)
    ensures StringCompare(a, b) == -StringCompare(b, a)
  {
    UnitCompareAntisymmetric(Utf16(a), Utf16(b));
  }

  lemma {:induction false} UnitCompareIsLexLess(a: seq<int>, b: seq<int>)
    ensures UnitCompare(a, b) < 0 <==> LexLess(a, b)
  {
    if a != [] && b != [] && a[0] == b[0] {
      UnitCompareIsLexLess(a[1..], b[1..]);
    }
  }

  /** A negative `compareTo` is exactly the code-unit order. */
  lemma StringCompareIsLexLess(a: string, b: string)
    ensures StringCompare(a, b) < 0 <==> LexLess(Utf16(a), Utf16(b))
  {
    UnitCompareIsLexLess(Utf16(a), Utf16(b));
  }

  /** Names below U+10000 compare character by character. */
  lemma StringCompareBelowSurrogatePairs(a: string, b: string, k: nat)
    requires forall i :: 0 <= i < |a| ==> (a[i] as int) < 0x1_0000
    requires forall i :: 0 <= i < |b| ==> (b[i] as int) < 0x1_0000
    requires k < |a| && k < |b| && a[..k] == b[..k] && a[k] != b[k]
    ensures StringCompare(a, b) == a[k] as int - b[k] as int
  {
    Utf16BelowSurrogatePairs(a);
    Utf16BelowSurrogatePairs(b);
    UnitsFirstDifference(Utf16(a), Utf16(b), k);
  }

  /** `compareTo` returns the difference at the first position the units differ. */
  lemma {:induction false} UnitsFirstDifference(a: seq<int>, b: seq<int>, k: nat)
    requires k < |a| && k < |b| && a[..k] == b[..k] && a[k] != b[k]
    ensures UnitCompare(a, b) == a[k] - b[k]
  {
    if k > 0 {
      assert a[0] == a[..k][0] && b[0] == b[..k][0];
      assert a[1..][..k - 1] == a[..k][1..] && b[1..][..k - 1] == b[..k][1..];
      UnitsFirstDifference(a[1..], b[1..], k - 1);
    }
  }

  /** Above U+FFFF the order is not the order of characters: U+FFFF sorts
      after U+10000, whose high surrogate 0xD800 is below 0xFFFF. */
  lemma SurrogatePairSortsBelow()
    ensures '\U{FFFF}' < '\U{10000}'
    ensures StringCompare("\U{FFFF}", "\U{10000}") == 0xFFFF - 0xD800
  {
    assert CodeUnits('\U{10000}') == [0xD800, 0xDC00];
    assert Utf16("\U{FFFF}") == [0xFFFF];
    assert Utf16("\U{10000}") == [0xD800, 0xDC00];
  }

  lemma {:induction false} LexLessTransitive(a: seq<int>, b: seq<int>, c: seq<int>)
    requires LexLess(a, b) && LexLess(b, c)
    ensures LexLess(a, c)
  {
    if a != [] && b != [] && c != [] && a[0] == b[0] && b[0] == c[0] {
      LexLessTransitive(a[1..], b[1..], c[1..]);
    }
  }

  lemma StringCompareTransitive(a: string, b: string, c: string)
    requires StringCompare(a, b) < 0 && StringCompare(b, c) < 0
    ensures StringCompare(a, c) < 0
  {
    StringCompareIsLexLess(a, b);
    StringCompareIsLexLess(b, c);
    StringCompareIsLexLess(a, c);
    LexLessTransitive(Utf16(a), Utf16(b), Utf16(c));
  }

  // ---------------------------------------------------------------------
  // ScreeningNameComparator
  // ---------------------------------------------------------------------

  /** `compare`: the names' `compareTo` when it is not zero, otherwise the date
      comparator. */
  function NameCompare(a: Listing, b: Listing): (r: int)
    ensures a.name != b.name ==> r == StringCompare(a.name, b.name)
    ensures a.name == b.name ==> r == DateCompare(a.slot, b.slot)
  {
    StringCompareZeroIff(a.name, b.name);
    if StringCompare(a.name, b.name) == 0 then DateCompare(a.slot, b.slot)
    else StringCompare(a.name, b.name)
  }

  /** The order the comparator is meant to be: lexicographic on (name, date,
      hour), names in code-unit order. */
  predicate ListingLe(a: Listing, b: Listing) {
    LexLess(Utf16(a.name), Utf16(b.name)) || (a.name == b.name && SlotLe(a.slot, b.slot))
  }

  lemma NameCompareZeroIff(a: Listing, b: Listing)
    ensures NameCompare(a, b) == 0 <==> a == b
  {
    StringCompareZeroIff(a.name, b.name);
    DateCompareZeroIff(a.slot, b.slot);
  }

  lemma NameCompareIsListingOrder(a: Listing, b: Listing)
    requires HourInRange(a.slot.hour) && HourInRange(b.slot.hour)
    ensures NameCompare(a, b) <= 0 <==> ListingLe(a, b)
  {
    StringCompareZeroIff(a.name, b.name);
    StringCompareIsLexLess(a.name, b.name);
    DateCompareIsSlotOrder(a.slot, b.slot);
  }

  lemma NameCompareAntisymmetric(a: Listing, b: Listing)
    requires HourInRange(a.slot.hour) && HourInRange(b.slot.hour)
    ensures Sign(NameCompare(a, b)) == -Sign(NameCompare(b, a))
  {
    StringCompareAntisymmetric(a.name, b.name);
    DateCompareAntisymmetric(a.slot, b.slot);
  }

  lemma ListingLeTotalPreorder(a: Listing, b: Listing, c: Listing)
    ensures ListingLe(a, a)
    ensures ListingLe(a, b) || ListingLe(b, a)
    ensures ListingLe(a, b) && ListingLe(b, c) ==> ListingLe(a, c)
  {
    SlotLeTotalPreorder(a.slot, b.slot, c.slot);
    StringCompareZeroIff(a.name, b.name);
    StringCompareIsLexLess(a.name, b.name);
    StringCompareIsLexLess(b.name, a.name);
    StringCompareAntisymmetric(a.name, b.name);
    if LexLess(Utf16(a.name), Utf16(b.name)) && LexLess(Utf16(b.name), Utf16(c.name)) {
      LexLessTransitive(Utf16(a.name), Utf16(b.name), Utf16(c.name));
    }
  }

  lemma NameCompareTransitive(a: Listing, b: Listing, c: Listing)
    requires HourInRange(a.slot.hour) && HourInRange(b.slot.hour) && HourInRange(c.slot.hour)
    requires NameCompare(a, b) <= 0 && NameCompare(b, c) <= 0
    ensures NameCompare(a, c) <= 0
  {
    NameCompareIsListingOrder(a, b);
    NameCompareIsListingOrder(b, c);
    NameCompareIsListingOrder(a, c);
    ListingLeTotalPreorder(a, b, c);
  }

  // ---------------------------------------------------------------------
  // The sort choice
  // ---------------------------------------------------------------------

  datatype Ordering = ByDate | ByName

  /** The sort box: the first entry ("Date") picks the date comparator, any
      other entry the name comparator. */
  function ComparatorFor(selectedIndex: int): (o: Ordering)
    ensures o == ByDate <==> selectedIndex == 0
  {
    if selectedIndex == 0 then ByDate else ByName
  }

  /** The comparison a chosen ordering makes. */
  function CompareBy(o: Ordering, a: Listing, b: Listing): (r: int)
    ensures o == ByDate ==> r == DateCompare(a.slot, b.slot)
    ensures o == ByName ==> r == NameCompare(a, b)
  {
    match o
    case ByDate => DateCompare(a.slot, b.slot)
    case ByName => NameCompare(a, b)
  }

  /** Whatever entry the sort box shows, its comparison is `<= 0` on a total
      preorder, so the sorted view is well defined (hours within the range
      where `time1 - time2` cannot overflow). */
  lemma SortEntryIsTotalPreorder(selectedIndex: int, a: Listing, b: Listing, c: Listing)
    requires HourInRange(a.slot.hour) && HourInRange(b.slot.hour) && HourInRange(c.slot.hour)
    ensures CompareBy(ComparatorFor(selectedIndex), a, a) <= 0
    ensures CompareBy(ComparatorFor(selectedIndex), a, b) <= 0 || CompareBy(ComparatorFor(selectedIndex), b, a) <= 0
    ensures CompareBy(ComparatorFor(selectedIndex), a, b) <= 0 && CompareBy(ComparatorFor(selectedIndex), b, c) <= 0
            ==> CompareBy(ComparatorFor(selectedIndex), a, c) <= 0
  {
    if selectedIndex == 0 {
      DateCompareIsSlotOrder(a.slot, a.slot);
      DateCompareIsSlotOrder(a.slot, b.slot);
      DateCompareIsSlotOrder(b.slot, a.slot);
      DateCompareIsSlotOrder(b.slot, c.slot);
      DateCompareIsSlotOrder(a.slot, c.slot);
      SlotLeTotalPreorder(a.slot, b.slot, c.slot);
    } else {
      NameCompareIsListingOrder(a, a);
      NameCompareIsListingOrder(a, b);
      NameCompareIsListingOrder(b, a);
      NameCompareIsListingOrder(b, c);
      NameCompareIsListingOrder(a, c);
      ListingLeTotalPreorder(a, b, c);
    }
  }

  /** The date entry ties exactly the screenings at the same date and hour;
      the name entry ties only equal listings. */
  lemma SortEntryZeroIff(selectedIndex: int, a: Listing, b: Listing)
    ensures selectedIndex == 0 ==> (CompareBy(ComparatorFor(selectedIndex), a, b) == 0 <==> a.slot == b.slot)
    ensures selectedIndex != 0 ==> (CompareBy(ComparatorFor(selectedIndex), a, b) == 0 <==> a == b)
  {
    DateCompareZeroIff(a.slot, b.slot);
    NameCompareZeroIff(a, b);
  }
}
