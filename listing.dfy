/** The list filters of the programme and the dashboard. Each walks the list
    from the last index down and removes the entries a rule rejects
    (`for (i = size - 1; i >= 0; i--) if (...) list.remove(i)`), or, for the
    search box, installs the rule as the shown list's predicate. */
module Listings {
  import opened JavaLang
  import opened Dates
  import opened Screenings
  import Search

  /** The rules the lists are filtered by. */
  datatype Criterion =
    /** `setListView` of the programme and the dashboard: drop past slots. */
    | NotPast(today: Date, currentHour: int)
    /** `exportAllUpcomingScreenings`: drop slots before today, or today with `time <= currentHour`. */
    | ExportUpcoming(today: Date, currentHour: int)
    /** `filterByDate`: drop every other date. */
    | OnDate(day: Date)
    /** The search box: drop the names the query does not match. */
    | NameMatches(query: string)

  /** The removal condition of the export filter, as its source writes it. */
  predicate IsPastForExport(date: Date, time: int, today: Date, currentHour: int) {
    IsBefore(date, today) || (date == today && time <= currentHour)
  }

  /** Both written forms of the past rule agree on every slot. */
  lemma ExportPastIsPast(date: Date, time: int, today: Date, currentHour: int)
    ensures IsPastForExport(date, time, today, currentHour) == IsPast(date, time, today, currentHour)
  {
  }

  /** Whether the rule removes a screening with this name, date and hour. */
  predicate Removes(c: Criterion, name: string, date: Date, time: int) {
    match c
    case NotPast(today, h) => IsPast(date, time, today, h)
    case ExportUpcoming(today, h) => IsPastForExport(date, time, today, h)
    case OnDate(day) => date != day
    case NameMatches(q) => !Search.Matches(q, name)
  }

  predicate Dropped(c: Criterion, s: Screening)
    reads s
  {
    Removes(c, s.movieName, s.date, s.time)
  }

  /** The screenings a rule lets through, in their order. */
  function Keep(ss: seq<Screening>, c: Criterion): seq<Screening>
    reads ss
  {
    if ss == [] then [] else (if Dropped(c, ss[0]) then [] else [ss[0]]) + Keep(ss[1..], c)
  }

  /** `b` holds `a`'s elements in the same order, possibly with others between. */
  predicate SubsequenceOf<T(==)>(a: seq<T>, b: seq<T>)
    decreases |b|
  {
    a == [] || (b != [] && if a[0] == b[0] then SubsequenceOf(a[1..], b[1..]) else SubsequenceOf(a, b[1..]))
  }

  /** A screening is kept exactly when it is listed and the rule lets it through. */
  lemma {:induction false} KeepMembership(ss: seq<Screening>, c: Criterion, x: Screening)
    ensures x in Keep(ss, c) <==> x in ss && !Dropped(c, x)
  {
    if ss != [] {
      KeepMembership(ss[1..], c, x);
      assert ss == [ss[0]] + ss[1..];
    }
  }

  /** Every kept screening occurs as often as before; every dropped one is gone. */
  lemma {:induction false} KeepCounts(ss: seq<Screening>, c: Criterion, x: Screening)
    ensures multiset(Keep(ss, c))[x] == if Dropped(c, x) then 0 else multiset(ss)[x]
  {
    if ss != [] {
      KeepCounts(ss[1..], c, x);
      assert ss == [ss[0]] + ss[1..];
    }
  }

  /** The survivors keep their relative order. */
  lemma {:induction false} KeepIsSubsequence(ss: seq<Screening>, c: Criterion)
    ensures SubsequenceOf(Keep(ss, c), ss)
  {
    if ss != [] {
      KeepIsSubsequence(ss[1..], c);
      var rest := Keep(ss[1..], c);
      assert [ss[0]] + ss[1..] == ss;
      if Dropped(c, ss[0]) {
        SubsequenceOfCons(rest, ss[1..], ss[0]);
        assert Keep(ss, c) == rest;
      } else {
        var k := [ss[0]] + rest;
        assert Keep(ss, c) == k && k[0] == ss[0] && k[1..] == rest;
        assert SubsequenceOf(k[1..], ss[1..]);
      }
    }
  }

  /** Putting an element in front keeps a subsequence a subsequence. */
  lemma {:induction false} SubsequenceOfCons<T>(a: seq<T>, b: seq<T>, x: T)
    requires SubsequenceOf(a, b)
    ensures SubsequenceOf(a, [x] + b)
    decreases |b|, 1
  {
    assert ([x] + b)[1..] == b;
    if a != [] && a[0] == x {
      SubsequenceOfDrop(a, b);
    }
  }

  /** Leaving out the first element keeps a subsequence a subsequence. */
  lemma {:induction false} SubsequenceOfDrop<T>(a: seq<T>, b: seq<T>)
    requires a != [] && SubsequenceOf(a, b)
    ensures SubsequenceOf(a[1..], b)
    decreases |b|, 0
  {
    assert b != [] && [b[0]] + b[1..] == b;
    if a[0] == b[0] {
      SubsequenceOfCons(a[1..], b[1..], b[0]);
    } else {
      SubsequenceOfDrop(a, b[1..]);
      SubsequenceOfCons(a[1..], b[1..], b[0]);
    }
  }

  /** Filtering twice by the same rule changes nothing more. */
  lemma {:induction false} KeepIdempotent(ss: seq<Screening>, c: Criterion)
    ensures Keep(Keep(ss, c), c) == Keep(ss, c)
  {
    if ss != [] {
      KeepIdempotent(ss[1..], c);
      if !Dropped(c, ss[0]) {
        var k := Keep(ss, c);
        assert k == [ss[0]] + Keep(ss[1..], c);
        assert k[0] == ss[0] && k[1..] == Keep(ss[1..], c);
        assert Keep(k, c) == [k[0]] + Keep(k[1..], c);
      } else {
        assert Keep(ss, c) == Keep(ss[1..], c);
      }
    }
  }

  /** The export filter and the dashboard's own filter keep the same screenings. */
  lemma {:induction false} ExportFilterIsUpcomingFilter(ss: seq<Screening>, today: Date, currentHour: int)
    ensures Keep(ss, ExportUpcoming(today, currentHour)) == Keep(ss, NotPast(today, currentHour))
  {
    if ss != [] {
      ExportFilterIsUpcomingFilter(ss[1..], today, currentHour);
      ExportPastIsPast(ss[0].date, ss[0].time, today, currentHour);
    }
  }

  /** An empty search shows every screening. */
  lemma {:induction false} EmptySearchKeepsAll(ss: seq<Screening>)
    ensures Keep(ss, NameMatches("")) == ss
  {
    if ss != [] {
      EmptySearchKeepsAll(ss[1..]);
      assert ss == [ss[0]] + ss[1..];
    }
  }

  /** Dropping the element at `i` of the unfiltered prefix, or keeping it: one
      step of the reverse-index loop. */
  lemma KeepStep(ss: seq<Screening>, c: Criterion, i: nat)
    requires i < |ss|
    ensures Keep(ss[i..], c) == (if Dropped(c, ss[i]) then [] else [ss[i]]) + Keep(ss[i + 1..], c)
  {
    assert ss[i..][1..] == ss[i + 1..];
  }

  /** One step of the reverse-index loop on the list as it stands: removing
      the entry at `i` when the rule drops it keeps the loop's shape. */
  lemma RemoveStep(list: seq<Screening>, c: Criterion, i: nat, kept: seq<Screening>)
    requires i < |list| && kept == list[..i + 1] + Keep(list[i + 1..], c)
    ensures i < |kept| && kept[i] == list[i]
    ensures (if Dropped(c, kept[i]) then kept[..i] + kept[i + 1..] else kept) == list[..i] + Keep(list[i..], c)
  {
    ghost var rest := Keep(list[i + 1..], c);
    KeepStep(list, c, i);
    assert list[..i + 1] == list[..i] + [list[i]];
    assert kept == list[..i] + [list[i]] + rest;
    if Dropped(c, list[i]) {
      assert kept[..i] == list[..i] && kept[i + 1..] == rest;
    }
  }

  /** The reverse-index removal loop: from the last index down, every entry
      the rule drops is removed in place. */
  method RemoveDropped(list: seq<Screening>, c: Criterion) returns (kept: seq<Screening>)
    ensures kept == Keep(list, c)
  {
    kept := list;
    var i := |list| - 1;
    RemoveBounds(list, c);
    while i >= 0
      invariant -1 <= i < |list|
      invariant kept == list[..i + 1] + Keep(list[i + 1..], c)
    {
      RemoveStep(list, c, i, kept);
      if Dropped(c, kept[i]) {
        kept := kept[..i] + kept[i + 1..];
      }
      i := i - 1;
    }
  }

  /** Where the reverse-index loop starts and ends: nothing filtered yet, and
      everything filtered. */
  lemma RemoveBounds(list: seq<Screening>, c: Criterion)
    ensures list == list[..|list|] + Keep(list[|list|..], c)
    ensures list[..0] + Keep(list[0..], c) == Keep(list, c)
  {
    assert list[|list|..] == [] && list[..|list|] == list;
    assert list[..0] == [] && list[0..] == list;
  }
}
