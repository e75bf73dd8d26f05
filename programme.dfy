/** The customer's programme (CustomerProgrammeController): the upcoming
    screenings, narrowed by a date picker and a search box, sorted by the
    comparator the sort box picks. `screeningList` holds what the last
    refresh kept; `observableList` is what the list view is built on. */
module Programme {
  import opened JavaLang
  import opened Dates
  import opened Screenings
  import opened Comparators
  import opened Listings

  class CustomerProgramme {
    var screeningList: seq<Screening>
    var observableList: seq<Screening>
    /** The text of the search box the shown list was last filtered with. */
    var query: string
    /** The comparator of the sorted view. */
    var ordering: Ordering

    constructor ()
      ensures screeningList == [] && observableList == [] && query == "" && ordering == ByDate
    {
      screeningList := [];
      observableList := [];
      query := "";
      ordering := ByDate;
    }

    /** What the list view shows, before sorting: the entries of
        `observableList` the search predicate accepts. */
    function Shown(): seq<Screening>
      reads this, observableList
    {
      Keep(observableList, NameMatches(query))
    }

    /** `setListView` with `loaded` the screenings the database returns:
        past slots are removed and the sorted view starts by date. */
    method SetListView(loaded: seq<Screening>, today: Date, currentHour: int)
      modifies this
      ensures screeningList == Keep(loaded, NotPast(today, currentHour))
      ensures observableList == screeningList && query == old(query) && ordering == ByDate
    {
      screeningList := RemoveDropped(loaded, NotPast(today, currentHour));
      observableList := screeningList;
      ordering := ByDate;
    }

    /** `filterByDate`: the shown list is reset to every kept screening and,
        when a date is picked, narrowed to that date. */
    method FilterByDate(filterDate: Option<Date>)
      modifies this
      ensures filterDate.None? ==> observableList == screeningList
      ensures filterDate.Some? ==> observableList == Keep(screeningList, OnDate(filterDate.value))
      ensures screeningList == old(screeningList) && query == old(query) && ordering == old(ordering)
    {
      observableList := screeningList;
      if filterDate.Some? {
        observableList := RemoveDropped(observableList, OnDate(filterDate.value));
      }
    }

    /** `clearDate`: the picker is emptied, so every kept screening is shown again. */
    method ClearDate()
      modifies this
      ensures observableList == screeningList
      ensures screeningList == old(screeningList) && query == old(query) && ordering == old(ordering)
    {
      FilterByDate(None);
    }

    /** `search`: installs the predicate for the text of the search box. */
    method SetSearch(searchString: string)
      modifies this
      ensures query == searchString
      ensures screeningList == old(screeningList) && observableList == old(observableList)
      ensures ordering == old(ordering)
    {
      query := searchString;
    }

    /** `clearSearch`: an empty search box shows everything. */
    method ClearSearch()
      modifies this
      ensures Shown() == observableList
      ensures screeningList == old(screeningList) && observableList == old(observableList)
      ensures ordering == old(ordering)
    {
      SetSearch("");
      EmptySearchKeepsAll(observableList);
    }

    /** The sort box's handler: entry 0 sorts by date, any other by name. */
    method ChooseSort(selectedIndex: int)
      modifies this
      ensures ordering == ComparatorFor(selectedIndex)
      ensures screeningList == old(screeningList) && observableList == old(observableList)
      ensures query == old(query)
    {
      if selectedIndex == 0 {
        ordering := ByDate;
      } else {
        ordering := ByName;
      }
    }
  }

  /** A screening survives the refresh exactly when it is listed and its slot is
      still ahead: a later day, or today at a later hour. */
  lemma UpcomingFilterIff(loaded: seq<Screening>, today: Date, currentHour: int, x: Screening)
    ensures x in Keep(loaded, NotPast(today, currentHour))
        <==> x in loaded && (IsAfter(x.date, today) || (x.date == today && x.time > currentHour))
  {
    KeepMembership(loaded, NotPast(today, currentHour), x);
    UpcomingIff(x.date, x.time, today, currentHour);
  }

  /** After a refresh and a date pick the list holds exactly the listed,
      upcoming screenings of that date. */
  lemma DateFilterIff(loaded: seq<Screening>, today: Date, currentHour: int, day: Date, x: Screening)
    ensures x in Keep(Keep(loaded, NotPast(today, currentHour)), OnDate(day))
        <==> x in loaded && !IsPast(x.date, x.time, today, currentHour) && x.date == day
  {
    KeepMembership(Keep(loaded, NotPast(today, currentHour)), OnDate(day), x);
    KeepMembership(loaded, NotPast(today, currentHour), x);
  }

  /** A non-empty search shows a screening exactly when the list has it and
      its lower-cased name holds the lower-cased query somewhere. */
  lemma SearchIff(list: seq<Screening>, query: string, x: Screening)
    requires query != []
    ensures x in Keep(list, NameMatches(query))
        <==> x in list && exists i :: OccursAt(ToLower(x.movieName), ToLower(query), i)
  {
    KeepMembership(list, NameMatches(query), x);
    Search.MatchesIff(query, x.movieName);
  }
}
