# Cinema seat inventory and scheduling — a Dafny model

This project models the booking core of a JavaFX cinema application: the
seats of a screening and their `'0'`/`'1'` seat-map string, the comma-separated
seat list of a booking, the display helpers, the two screening comparators,
the rule that decides whether a slot is in the past, and the controller logic
that schedules screenings, selects seats, books them, cancels bookings,
filters and sorts the programme, deletes screenings with their bookings and
exports screenings as CSV.

Layout, one module per file:

- `java.dfy` (`JavaLang`): the Java library behaviour the core relies on:
  32-bit `int`, decimal rendering and `Integer.parseInt`, `String.split`
  (with its dropping of trailing empty pieces), the UTF-16 code units of a
  string, ASCII `toLowerCase`,
  `contains`, `ArrayList.remove(Object)` and `removeAll`.
- `dates.dfy` (`Dates`): calendar dates, their ISO text, and the single
  "past slot" rule `date < today || (date == today && currentHour >= hour)`.
- `seat.dfy` (`Seats`): class `Seat` with row/number identity.
- `screening.dfy` (`Screenings`): class `Screening`, the seat-map codec and
  the seat counts.
- `booking.dfy` (`Bookings`): class `Booking`, the booking seat-list codec
  and its resolution against the screening's own seat objects.
- `helpers.dfy` (`Helpers`): `formatDateString` and `formatSeatList`.
- `comparators.dfy` (`Comparators`): the date and name comparators and the
  orders they implement.
- `repository.dfy` (`Repository`): class `Database`, the screening and
  booking tables as rows, with the insert, update, delete and search
  operations the controllers call.
- `selection.dfy` (`Selection`): class `CinemaRoom`, the seat-selection toggle.
- `reservation.dfy` (`Reservations`): `confirmBooking` and the price labels.
- `search.dfy` (`Search`): the case-insensitive movie-name search predicate.
- `listing.dfy` (`Listings`): the list filters and the reverse-index removal loop.
- `programme.dfy` (`Programme`): class `CustomerProgramme`.
- `dashboard.dfy` (`Dashboard`): class `EmployeeDashboard`, the cascading
  delete and the CSV export.
- `cancellation.dfy` (`Cancellation`): class `BookingHistory`, the booking
  search and `deleteBookings`.
- `scheduling.dfy` (`Scheduling`): the time options and `add` of the
  add-screening form.

The current date and hour (`LocalDate.now()`, `LocalTime.now().getHour()`)
are the parameters `today` and `currentHour`. The answer of a confirmation
dialog is the parameter `confirmed`. `System.lineSeparator()` is the
parameter `lineSep`. The database is the in-memory `Database` class: its tables
hold rows as values, and its id counters stand for the autoincrement
columns.

## Model

| member | source | states |
|---|---|---|
| JavaLang.Wrap32 | src/helpers/ScreeningDateComparator.java:39 | Java `int` arithmetic: the value itself when it fits in 32 bits, otherwise the 32-bit value congruent to it modulo 2^32 |
| JavaLang.IntToString | src/models/Seat.java:44 | the decimal text of an `int` is non-empty, has no comma, and has a minus sign at most in front |
| JavaLang.ParseInt | src/models/Booking.java:178 | a parsed text is a sign or an ASCII digit followed by ASCII digits, and a negative value comes only from a leading `-` |
| JavaLang.ParseIntToString | src/models/Booking.java:178 | `Integer.parseInt` reads back every `int` that string concatenation wrote |
| JavaLang.DropTrailingEmpty | src/models/Booking.java:171 | `split` drops only trailing empty pieces: the result is a prefix of the pieces, ends with a non-empty piece, and everything dropped is empty |
| JavaLang.Split | src/models/Booking.java:171 | text without the separator is its one piece; no piece holds the separator; when it splits, the last piece is never empty |
| JavaLang.JoinSplitAll | src/models/Booking.java:171 | joining the pieces of a split with the separator gives the string back |
| JavaLang.SplitJoin | src/models/Booking.java:171 | splitting a join of separator-free pieces whose last piece is non-empty gives the pieces back |
| JavaLang.CodeUnits | src/helpers/ScreeningNameComparator.java:27 | one unit outside the surrogate range below U+10000; otherwise a high surrogate then a low surrogate |
| JavaLang.Utf16Injective | src/helpers/ScreeningNameComparator.java:27 | different strings have different UTF-16 code units |
| JavaLang.ToLower | src/controllers/customer/CustomerProgrammeController.java:83-85 | same length, no ASCII capital left, capitals shifted by 32 and every other character kept |
| JavaLang.ToLowerIdempotent | src/controllers/customer/CustomerProgrammeController.java:83-85 | lower-casing twice is lower-casing once |
| JavaLang.IndexOfFrom | src/controllers/customer/CustomerProgrammeController.java:85 | the search returns the first position at or after `from` where the pattern occurs, or -1 exactly when it occurs nowhere there |
| JavaLang.ContainsIff | src/controllers/customer/CustomerProgrammeController.java:85 | `contains` holds exactly when the pattern occurs at some position |
| JavaLang.RemoveFirst | src/controllers/shared/partials/CinemaRoomController.java:131 | `ArrayList.remove(Object)` takes out one occurrence (multiset minus one) and changes nothing when the element is absent |
| JavaLang.RemoveAll | src/controllers/employee/EmployeeDashboardController.java:204 | `removeAll` keeps exactly the elements that are not in the removed list |
| Dates.Trichotomy | src/helpers/ScreeningDateComparator.java:32-40 | of two dates exactly one is before, equal to or after the other |
| Dates.BeforeTransitive | src/helpers/ScreeningDateComparator.java:32-33 | `isBefore` is transitive |
| Dates.IsoStringInjective | src/controllers/employee/EmployeeAddScreeningController.java:72 | two dates have the same `YYYY-MM-DD` text exactly when they are equal |
| Dates.IsPast | src/controllers/customer/CustomerProgrammeController.java:147-148 | the rule shared with EmployeeAddScreeningController.java:76-77 and CustomerProfileController.java:269-270: an earlier day, or today with the hour reached; UpcomingIff and PastBoundary state its complement and its edge |
| Dates.UpcomingIff | src/controllers/customer/CustomerProgrammeController.java:147-148 | a slot is not past exactly when its day is later than today, or it is today and its hour is after the current hour |
| Dates.PastBoundary | src/controllers/customer/CustomerProgrammeController.java:148 | a slot at the current hour is already past and the next hour is not |
| Seats.Seat.constructor | src/models/Seat.java:24-28 | the seat has the given row, number and flag |
| Seats.Seat.Clone | src/models/Seat.java:34-36 | the clone is a new object with the same row, number and flag |
| Seats.Seat.ToString | src/models/Seat.java:43-45 | the text is the row character followed by the decimal seat number |
| Seats.KeyStringParses | src/models/Seat.java:44 | the part of a seat's text after the row parses back to its number and holds no comma |
| Seats.Seat.Equals | src/models/Seat.java:52-64 | false for `null` and for objects that are not seats; for seats true exactly when row and number match, whatever the flags |
| Seats.EqualsIsEquivalence | src/models/Seat.java:63 | seat equality is reflexive, symmetric and transitive |
| Seats.Seat.SetRow | src/models/Seat.java:84-86 | only the row changes |
| Seats.Seat.SetNumber | src/models/Seat.java:100-102 | only the number changes |
| Seats.Seat.SetBooked | src/models/Seat.java:116-118 | only the flag changes; row and number stay |
| Seats.CloneIsIndependent | src/models/Seat.java:35 | setting the flag of a clone leaves the original's flag and identity unchanged, and the clone equals the original |
| Seats.IndexOfKey | src/controllers/customer/CustomerProgrammeMovieController.java:114 | `indexOf` by seat equality: -1 exactly when no seat has that row and number, otherwise the first position that has |
| Seats.IndexOf | src/controllers/customer/CustomerProgrammeMovieController.java:114 | the scan over a seat list returns `IndexOfKey` of the seats' identities |
| Screenings.LayoutKeysUnique | src/models/Screening.java:251-253 | the seats of a decoded map never share a row and number |
| Screenings.LayoutRowsAreNotCommas | src/models/Screening.java:251 | row characters start at `'A'` and are never a comma |
| Screenings.Screening.constructor | src/models/Screening.java:39-46 | a new screening has ids 0, hour 0 and no seats |
| Screenings.Screening.SeatStringToArrayList | src/models/Screening.java:244-265 | one new seat per character; seat i has row `'A' + i/10` and number `i%10 + 1`, and it is free exactly when character i is `'0'` |
| Screenings.Screening.SetSeats | src/models/Screening.java:131-133 | the seat list is replaced by the decoding of the string; the other fields stay |
| Screenings.Screening.GetSeats | src/models/Screening.java:122-124 | one character per seat in list order, `'1'` when booked and `'0'` when free |
| Screenings.Screening.SeatArrayListToString | src/models/Screening.java:273-285 | the StringBuilder loop yields one character per seat in list order, `'1'` when booked and `'0'` when free |
| Screenings.EncodeDecode | src/models/Screening.java:122-133 | for a string over `'0'`/`'1'`, `getSeats()` after `setSeats(s)` returns `s` |
| Screenings.EncodeDecodeAny | src/models/Screening.java:255-261 | for any string, a character other than `'0'` comes back as `'1'` |
| Screenings.DecodeEncode | src/models/Screening.java:273-285 | decoding the encoded flags gives the flags back, and the encoding is over `'0'`/`'1'` |
| Screenings.Screening.GetAvailableSeats | src/models/Screening.java:139-147 | the number of free seats |
| Screenings.Screening.GetBookedSeats | src/models/Screening.java:154-162 | the number of booked seats |
| Screenings.Screening.GetTotalSeats | src/models/Screening.java:168-170 | the total is the booked count plus the available count |
| Screenings.CountsAddUp | src/models/Screening.java:139-170 | available + booked = total for every seat list |
| Screenings.BookedIsOnes | src/models/Screening.java:154-162 | the booked count is the number of `'1'`s in the seat string |
| Bookings.Booking.constructor | src/models/Booking.java:44-48 | ids 0 and no screening, as in the source; where the source leaves the user name's value and the seat list null, the model starts from the empty name and the empty list |
| Bookings.Booking.GetSeats | src/models/Booking.java:153-159 | each seat's row and number followed by a comma, in list order |
| Bookings.SerializeEndsWithComma | src/models/Booking.java:156 | the text of a non-empty seat list ends with a comma |
| Bookings.SplitTrailingComma | src/models/Booking.java:171 | splitting comma-terminated non-empty tokens drops the trailing empty piece and gives the tokens back |
| Bookings.ParseToken | src/models/Booking.java:176-178 | a token is read as its first character and the number after it; an empty token fails (`charAt(0)`), exactly then, and a bad number is reported exactly when the rest of a non-empty token does not parse |
| Bookings.ParseKeyString | src/models/Booking.java:176-178 | a seat's own text reads back as its row and number |
| Bookings.Resolve | src/models/Booking.java:174-185 | at most one position per token, all of them inside the layout; no positions without a screening; one per token when nothing failed |
| Bookings.ResolveFindsNamedSeats | src/models/Booking.java:182-184 | every position found holds the seat its token names |
| Bookings.ResolveKeyStrings | src/models/Booking.java:182 | the texts of seats that are in the layout resolve without error |
| Bookings.SerializeResolveRoundTrip | src/models/Booking.java:153-186 | for a non-empty list of seats of the layout, `setSeats(getSeats())` finds the seats with exactly the original rows and numbers, in order, without error |
| Bookings.EmptySeatListDoesNotParse | src/models/Booking.java:171-176 | the text of an empty seat list is `""`, which fails on its single empty piece |
| Bookings.LoneCommaParsesAsEmpty | src/models/Booking.java:171 | the text `","` splits into no pieces and gives an empty list without error |
| Bookings.LookUpToken | src/models/Booking.java:176-182 | one token: its parse error, or the unknown-seat error, or the position of the named seat |
| Bookings.ResolveSeats | src/models/Booking.java:174-185 | the loop collects the screening's own seat objects at the resolved positions and stops with the resolution's error |
| Bookings.ResolveWithoutScreening | src/models/Booking.java:182 | with no screening the first parsable token fails on the missing screening |
| Bookings.Booking.SetSeatsFromString | src/models/Booking.java:169-186 | the seat list becomes the screening's seats named by the tokens, up to the first failure, which is returned; other fields stay |
| Bookings.Booking.SetSeatList | src/models/Booking.java:191-193 | the list is taken as it is; other fields stay |
| Bookings.FormattedTime | src/models/Booking.java:218-220 | the text ends in `":00"` and the part before it reads back as the hour |
| Helpers.FormatDateString | src/helpers/Helpers.java:44-49 | fails (index out of bounds) exactly when the text has fewer than three dash-separated pieces |
| Helpers.FormatDateStringSwaps | src/helpers/Helpers.java:44-49 | `"Y-M-D"` becomes `"D/M/Y"`: day and year swap, month stays |
| Helpers.FormatIsoDate | src/helpers/Helpers.java:44-49 | an ISO date becomes `DD/MM/YYYY` |
| Helpers.FormatDateStringNeedsDashes | src/helpers/Helpers.java:45-46 | a text without a dash fails |
| Helpers.FormatSeatList | src/helpers/Helpers.java:114-126 | the seats' texts joined by `", "`, in order, with no trailing separator |
| Helpers.JoinedSmallCases | src/helpers/Helpers.java:119-125 | no seats give `""`; one seat gives exactly its text |
| Helpers.JoinedLength | src/helpers/Helpers.java:115-122 | for n ≥ 1 seats the length is the sum of the seat texts plus 2·(n−1) |
| Helpers.TerminatedIsJoined | src/helpers/Helpers.java:116-118 | the loop's text is the joined list followed by `", "` |
| Helpers.CutTerminated | src/helpers/Helpers.java:120-123 | cutting the last two characters of the loop's text gives the joined list |
| Comparators.DateCompare | src/helpers/ScreeningDateComparator.java:24-41 | -1 for an earlier date, 1 for a later one, `time1 - time2` on the same date |
| Comparators.DateCompareZeroIff | src/helpers/ScreeningDateComparator.java:32-40 | 0 exactly when date and hour are both equal |
| Comparators.DateCompareIsSlotOrder | src/helpers/ScreeningDateComparator.java:32-40 | the sign of the result is the lexicographic order on (date, hour) |
| Comparators.DateCompareAntisymmetric | src/helpers/ScreeningDateComparator.java:32-40 | sign(compare(a, b)) = −sign(compare(b, a)) |
| Comparators.SlotLeTotalPreorder | src/helpers/ScreeningDateComparator.java:32-40 | the (date, hour) order is reflexive, total and transitive |
| Comparators.DateCompareTransitive | src/helpers/ScreeningDateComparator.java:32-40 | compare(a, b) ≤ 0 and compare(b, c) ≤ 0 give compare(a, c) ≤ 0 |
| Comparators.DateCompareOverflow | src/helpers/ScreeningDateComparator.java:39 | with hours −2^31 and 0 on one date both directions compare negative, which is why the order lemmas bound the hours |
| Comparators.StringCompare | src/helpers/ScreeningNameComparator.java:27-30 | `compareTo` is computed on the UTF-16 code units of both names; the lemmas below give its sign |
| Comparators.StringCompareZeroIff | src/helpers/ScreeningNameComparator.java:27 | `compareTo` is 0 exactly for equal strings |
| Comparators.StringCompareAntisymmetric | src/helpers/ScreeningNameComparator.java:27 | compare(a, b) = −compare(b, a) |
| Comparators.StringCompareIsLexLess | src/helpers/ScreeningNameComparator.java:30 | a negative result is exactly the lexicographic order of the UTF-16 code units |
| Comparators.StringCompareBelowSurrogatePairs | src/helpers/ScreeningNameComparator.java:30 | for names below U+10000 the result is the difference of the first differing characters |
| Comparators.SurrogatePairSortsBelow | src/helpers/ScreeningNameComparator.java:30 | U+FFFF sorts after U+10000 although it is the smaller character, as Java's code-unit order has it |
| Comparators.LexLessTransitive | src/helpers/ScreeningNameComparator.java:30 | the code-unit order is transitive |
| Comparators.StringCompareTransitive | src/helpers/ScreeningNameComparator.java:30 | negative results chain |
| Comparators.NameCompare | src/helpers/ScreeningNameComparator.java:24-32 | different names: the names' `compareTo` on UTF-16 code units; equal names: the date comparator's result |
| Comparators.NameCompareZeroIff | src/helpers/ScreeningNameComparator.java:25-31 | 0 exactly when name, date and hour are all equal |
| Comparators.NameCompareIsListingOrder | src/helpers/ScreeningNameComparator.java:25-31 | the sign of the result is the lexicographic order on (name, date, hour) |
| Comparators.NameCompareAntisymmetric | src/helpers/ScreeningNameComparator.java:25-31 | sign(compare(a, b)) = −sign(compare(b, a)) |
| Comparators.ListingLeTotalPreorder | src/helpers/ScreeningNameComparator.java:25-31 | the (name, date, hour) order, names by code units, is reflexive, total and transitive |
| Comparators.NameCompareTransitive | src/helpers/ScreeningNameComparator.java:25-31 | compare(a, b) ≤ 0 and compare(b, c) ≤ 0 give compare(a, c) ≤ 0 |
| Comparators.ComparatorFor | src/controllers/customer/CustomerProgrammeController.java:166-174 | sort entry 0 picks the date comparator; any other entry picks the name comparator |
| Comparators.CompareBy | src/controllers/customer/CustomerProgrammeController.java:169-172 | the comparison the sorted view makes under the installed comparator; its order is stated by the two lemmas below |
| Comparators.SortEntryIsTotalPreorder | src/controllers/customer/CustomerProgrammeController.java:166-174 | whichever entry is chosen, its comparison `<= 0` is reflexive, total and transitive, within the hour bound |
| Comparators.SortEntryZeroIff | src/controllers/customer/CustomerProgrammeController.java:166-174 | the date entry gives 0 exactly for the same date and hour; the name entry exactly for equal name, date and hour |
| Search.Matches | src/controllers/customer/CustomerProgrammeController.java:79-90 | the search predicate: an empty query lets every name through, otherwise the lower-cased name must contain the lower-cased query; MatchesIff, MatchesPiece and MatchesIgnoresCase characterize it |
| Search.MatchesIff | src/controllers/customer/CustomerProgrammeController.java:79-90 | a non-empty query matches exactly when the lower-cased query occurs in the lower-cased name |
| Search.MatchesPiece | src/controllers/customer/CustomerProgrammeController.java:85 | a name that holds the query verbatim matches |
| Search.MatchesIgnoresCase | src/controllers/customer/CustomerProgrammeController.java:83-85 | lower-casing the query or the name first changes nothing |
| Listings.Keep | src/controllers/customer/CustomerProgrammeController.java:143-151 | the screenings a rule lets through, in list order; KeepMembership, KeepCounts, KeepIsSubsequence and KeepIdempotent characterize it and RemoveDropped computes it in place |
| Listings.ExportPastIsPast | src/controllers/employee/EmployeeDashboardController.java:273-276 | the export's written condition (`time <= currentHour`) is the same past rule |
| Listings.KeepMembership | src/controllers/customer/CustomerProgrammeController.java:143-151 | a screening is kept exactly when it is listed and the rule does not drop it |
| Listings.KeepCounts | src/controllers/customer/CustomerProgrammeController.java:143-151 | the filter removes nothing else: a kept screening occurs as often as before, a dropped one not at all |
| Listings.KeepIsSubsequence | src/controllers/customer/CustomerProgrammeController.java:143-151 | the survivors keep their relative order |
| Listings.KeepIdempotent | src/controllers/customer/CustomerProgrammeController.java:143-151 | filtering twice by one rule is filtering once |
| Listings.ExportFilterIsUpcomingFilter | src/controllers/employee/EmployeeDashboardController.java:269-279 | the export filter keeps exactly what the dashboard filter keeps |
| Listings.EmptySearchKeepsAll | src/controllers/customer/CustomerProgrammeController.java:79-81 | an empty query keeps every screening |
| Listings.RemoveDropped | src/controllers/customer/CustomerProgrammeController.java:143-151 | the reverse-index removal loop leaves exactly the filtered list |
| Programme.CustomerProgramme.SetListView | src/controllers/customer/CustomerProgrammeController.java:132-175 | both lists become the upcoming screenings of the loaded list, in their order, and the date comparator is installed; the search text stays, so the installed search still filters what is shown |
| Programme.CustomerProgramme.FilterByDate | src/controllers/customer/CustomerProgrammeController.java:107-125 | the shown list is reset to the kept screenings and, when a date is picked, narrowed to that date |
| Programme.CustomerProgramme.ClearDate | src/controllers/customer/CustomerProgrammeController.java:199-203 | every kept screening is shown again |
| Programme.CustomerProgramme.SetSearch | src/controllers/customer/CustomerProgrammeController.java:68-92 | the search text is installed; the lists stay |
| Programme.CustomerProgramme.ClearSearch | src/controllers/customer/CustomerProgrammeController.java:205-209 | with the box emptied every listed screening is shown |
| Programme.CustomerProgramme.ChooseSort | src/controllers/customer/CustomerProgrammeController.java:166-174 | the comparator for the sort entry is installed; the lists stay |
| Programme.UpcomingFilterIff | src/controllers/customer/CustomerProgrammeController.java:143-151 | a screening survives the refresh exactly when it is listed and its day is later, or it is today at a later hour |
| Programme.DateFilterIff | src/controllers/customer/CustomerProgrammeController.java:111-123 | after a date pick the list holds exactly the listed, upcoming screenings of that date |
| Programme.SearchIff | src/controllers/customer/CustomerProgrammeController.java:83-90 | a non-empty search shows exactly the screenings whose lower-cased name holds the lower-cased query |
| Repository.WithSeats | src/models/ScreeningDAO.java:139-149 | the rows with that id get the new seat string; all others stay |
| Repository.WithSeatsOverwrite | src/models/ScreeningDAO.java:139-149 | two updates of one screening leave the last one |
| Repository.WithoutScreening | src/models/ScreeningDAO.java:156-163 | exactly the rows with another id remain |
| Repository.WithoutBooking | src/models/BookingDAO.java:210-217 | exactly the rows with another id remain |
| Repository.BookingsOf | src/models/BookingDAO.java:166-182 | exactly the bookings of that screening |
| Repository.WithoutScreeningKeepsUnique | src/models/ScreeningDAO.java:156-163 | deleting keeps the screening ids distinct |
| Repository.WithoutBookingKeepsUnique | src/models/BookingDAO.java:210-217 | deleting keeps the booking ids distinct |
| Repository.Database.AddScreening | src/models/ScreeningDAO.java:124-136 | one row is appended with the next id, which then advances by one; nothing else changes |
| Repository.Database.UpdateScreeningSeats | src/models/ScreeningDAO.java:139-149 | the screening's seat string is replaced; bookings stay |
| Repository.Database.DeleteScreening | src/models/ScreeningDAO.java:156-163 | the screening's rows go; bookings stay |
| Repository.Database.AddBooking | src/models/BookingDAO.java:190-203 | one row is appended with the next id, which then advances by one; screenings and the screening counter stay |
| Repository.Database.DeleteBooking | src/models/BookingDAO.java:210-217 | the booking's rows go; screenings stay |
| Repository.Database.SearchBookings | src/models/BookingDAO.java:166-182 | the bookings of the screening, in table order |
| Selection.Toggle | src/controllers/shared/partials/CinemaRoomController.java:127-145 | a click on a selected identity takes its first occurrence out, on an unselected one appends it; ToggleMembership, ToggleKeepsUnique and the two twice-click lemmas characterize it |
| Selection.ToggleKeepsUnique | src/controllers/shared/partials/CinemaRoomController.java:127-145 | the selection never holds two equal seats |
| Selection.ToggleMembership | src/controllers/shared/partials/CinemaRoomController.java:127-145 | after a click the seat is selected exactly when it was not, and no other seat changes |
| Selection.ToggleTwiceRestores | src/controllers/shared/partials/CinemaRoomController.java:127-145 | two clicks on an unselected seat give the selection back as it was |
| Selection.ToggleTwiceMovesToEnd | src/controllers/shared/partials/CinemaRoomController.java:127-145 | two clicks on a selected seat keep the same seats, with that seat moved to the end |
| Selection.CinemaRoom.PopulateSeats | src/controllers/shared/partials/CinemaRoomController.java:76-77 | the room shows the screening's own seat list |
| Selection.CinemaRoom.Deselect | src/controllers/shared/partials/CinemaRoomController.java:131 | the pick at that position leaves the selection; screening seats untouched |
| Selection.CinemaRoom.SelectCopy | src/controllers/shared/partials/CinemaRoomController.java:140-142 | the copy is appended and flagged booked; screening seats untouched |
| Selection.CinemaRoom.Unpick | src/controllers/shared/partials/CinemaRoomController.java:131-133 | the pick with the copy's identity leaves the selection and the copy is flagged free |
| Selection.CinemaRoom.ToggleCopy | src/controllers/shared/partials/CinemaRoomController.java:127-145 | the selection's identities are toggled by the copy's; a new pick is appended and flagged booked, a repeated one leaves the copy flagged free |
| Selection.CinemaRoom.HandleClick | src/controllers/shared/partials/CinemaRoomController.java:112-147 | a booked seat changes nothing; a free one toggles its identity, appending a new copy of that seat, flagged booked, when it was not selected; the screening's seats never change |
| Reservations.Reserve | src/controllers/customer/CustomerProgrammeMovieController.java:113-116 | the flags after booking the picked identities: same length, a flag set when it was set or its seat was picked; ReserveReleaseUnique, ReserveCounts and ReserveThenRelease characterize it |
| Reservations.Release | src/controllers/customer/CustomerProfileController.java:290-295 | the flags after cancelling: same length, a flag set when it was set and its seat was not listed; ReserveReleaseUnique and ReserveThenRelease characterize it |
| Reservations.ReserveReleaseUnique | src/controllers/customer/CustomerProgrammeMovieController.java:113-116 | after booking, seat i is booked exactly when it was or it is selected; after releasing, it is booked exactly when it was and it is not in the list |
| Reservations.ReserveCounts | src/controllers/customer/CustomerProgrammeMovieController.java:113-116 | booking distinct free seats raises the booked count and lowers the free count by the selection's size |
| Reservations.ReserveThenRelease | src/controllers/customer/CustomerProgrammeMovieController.java:113-116 | booking free seats and then releasing the same seats restores every flag |
| Reservations.SetFlag | src/controllers/customer/CustomerProgrammeMovieController.java:115 | only the flag at that position changes |
| Reservations.MarkBooked | src/controllers/customer/CustomerProgrammeMovieController.java:113-116 | the screening's flags become the old flags with every selected seat booked |
| Reservations.NewBooking | src/controllers/customer/CustomerProgrammeMovieController.java:106-111 | a new booking with the user, the screening's id, the screening and exactly the selected seats |
| Reservations.Store | src/controllers/customer/CustomerProgrammeMovieController.java:117-124 | the screening's seat string is updated and one booking row is appended |
| Reservations.Record | src/controllers/customer/CustomerProgrammeMovieController.java:119-121 | the stored seat string is the screening's encoding and the booking row holds the booking's seat text |
| Reservations.BookSeats | src/controllers/customer/CustomerProgrammeMovieController.java:105-124 | the booking is created, the selected seats are booked, and both tables are updated |
| Reservations.ConfirmBooking | src/controllers/customer/CustomerProgrammeMovieController.java:96-124 | an empty selection changes nothing; otherwise the booking holds exactly the selection, the selected seats become booked and no other flag changes, and the tables get the new seat string and the new booking, and only the booking id counter advances |
| Reservations.PriceLabel | src/controllers/customer/CustomerProgrammeMovieController.java:89 | `"£ "`, then 8 × seats as a Java `int`, then `".00"` |
| Reservations.PriceCalcLabel | src/controllers/customer/CustomerProgrammeMovieController.java:88 | the seat count followed by `" x £ 8.00"` |
| Reservations.UpdateLabels | src/controllers/customer/CustomerProgrammeMovieController.java:86-90 | the three label texts: the seat list, the calculation and the price |
| Cancellation.KeepBookings | src/controllers/customer/CustomerProfileController.java:240-254 | the bookings whose movie name the search predicate accepts, in list order; KeepBookingsMembership and EmptyQueryKeepsAllBookings characterize it |
| Cancellation.KeepBookingsMembership | src/controllers/customer/CustomerProfileController.java:240-254 | a booking is shown exactly when it is listed and its movie name matches the query |
| Cancellation.EmptyQueryKeepsAllBookings | src/controllers/customer/CustomerProfileController.java:242-243 | an empty query keeps every booking |
| Cancellation.BookingSearchIff | src/controllers/customer/CustomerProfileController.java:246-253 | a non-empty query keeps a booking exactly when its lower-cased movie name holds the lower-cased query |
| Cancellation.FreeSeat | src/controllers/customer/CustomerProfileController.java:292-294 | the screening seat with that identity is flagged free; nothing else changes |
| Cancellation.ReleaseOne | src/controllers/customer/CustomerProfileController.java:290-297 | one seat is freed and the screening's seat string is stored |
| Cancellation.ReleaseSeats | src/controllers/customer/CustomerProfileController.java:288-299 | every seat of the booking is freed and no other flag changes; the screening is stored only when the booking has seats |
| Cancellation.Unbook | src/controllers/customer/CustomerProfileController.java:284-299 | the booking row goes and its seats are freed |
| Cancellation.BookingHistory.SetSearch | src/controllers/customer/CustomerProfileController.java:230-255 | the search text is installed; the list stays |
| Cancellation.BookingHistory.DeleteBookings | src/controllers/customer/CustomerProfileController.java:260-311 | a past booking or a declined dialog changes nothing; otherwise the booking row goes, exactly its seats become free, the screening is stored when the booking has seats, and the booking leaves the list; the id counters never change |
| Cancellation.BookingHistory.Cancel | src/controllers/customer/CustomerProfileController.java:284-304 | the confirmed branch: row deleted, seats freed, booking removed from the list, id counters unchanged |
| Cancellation.OthersRemain | src/controllers/customer/CustomerProfileController.java:304 | every other booking stays in the list |
| Cancellation.CancelFreesExactly | src/controllers/customer/CustomerProfileController.java:290-295 | a seat of the booking becomes free; every other seat keeps its flag |
| Dashboard.CsvRow | src/controllers/employee/EmployeeDashboardController.java:316-321 | the six fields of a screening joined by commas; CsvRowSplit reads them back |
| Dashboard.CsvRowSplit | src/controllers/employee/EmployeeDashboardController.java:316-321 | a row with a comma-free name splits into its six fields, and the three counts read back |
| Dashboard.RowCountsAddUp | src/controllers/employee/EmployeeDashboardController.java:316-321 | in every row booked + available = total |
| Dashboard.Csv | src/controllers/employee/EmployeeDashboardController.java:310-322 | the header, then one row per screening, each row preceded by the line separator, so the file does not end with one; CsvLines and CsvStartsWithHeader characterize it and Export computes it |
| Dashboard.CsvLines | src/controllers/employee/EmployeeDashboardController.java:312-322 | split at the line separator, the export is the header followed by one row per screening in input order |
| Dashboard.CsvStartsWithHeader | src/controllers/employee/EmployeeDashboardController.java:312 | the export starts with the header |
| Dashboard.ExportRow | src/controllers/employee/EmployeeDashboardController.java:316-321 | the six appends build the screening's row |
| Dashboard.Export | src/controllers/employee/EmployeeDashboardController.java:310-322 | the loop builds the whole CSV text |
| Dashboard.BookingsOfIds | src/controllers/employee/EmployeeDashboardController.java:196-198 | a booking's id is among those found for a screening exactly when it belongs to that screening |
| Dashboard.DeleteBookingsOf | src/controllers/employee/EmployeeDashboardController.java:196-199 | exactly the bookings of the screening are deleted |
| Dashboard.DeleteCascade | src/controllers/employee/EmployeeDashboardController.java:194-202 | exactly the selected screenings and the bookings that refer to them are deleted; the id counters stay |
| Dashboard.EmployeeDashboard.SetListView | src/controllers/employee/EmployeeDashboardController.java:62-105 | the list becomes the upcoming screenings of the loaded list, sorted by date |
| Dashboard.EmployeeDashboard.SetSearch | src/controllers/employee/EmployeeDashboardController.java:128-153 | the search text is installed; the lists stay |
| Dashboard.EmployeeDashboard.ChooseSort | src/controllers/employee/EmployeeDashboardController.java:96-104 | the comparator for the sort entry is installed |
| Dashboard.EmployeeDashboard.AppendScreening | src/controllers/employee/EmployeeDashboardController.java:107-109 | the screening is appended to the shown list |
| Dashboard.EmployeeDashboard.DeleteScreenings | src/controllers/employee/EmployeeDashboardController.java:175-215 | declined: nothing changes; confirmed: the cascade runs and the selected screenings leave the shown list, all others remain; the id counters stay in both cases |
| Dashboard.EmployeeDashboard.ExportSelected | src/controllers/employee/EmployeeDashboardController.java:238-243 | the CSV of the selected screenings |
| Dashboard.EmployeeDashboard.ExportAll | src/controllers/employee/EmployeeDashboardController.java:250-257 | the CSV of every loaded screening |
| Dashboard.EmployeeDashboard.ExportAllUpcoming | src/controllers/employee/EmployeeDashboardController.java:264-285 | the CSV of the loaded screenings that are not past |
| Scheduling.TimeOptions | src/controllers/employee/EmployeeAddScreeningController.java:202-205 | one entry `h + ":00"` per hour from 12 to 24, in order |
| Scheduling.HourOf | src/controllers/employee/EmployeeAddScreeningController.java:74 | `parseInt` of the entry's first two characters, nothing where it throws; HourOfOption shows every offered entry yields its hour |
| Scheduling.HourOfOption | src/controllers/employee/EmployeeAddScreeningController.java:74 | the first two characters of every entry parse to its hour |
| Scheduling.FindSlot | src/controllers/employee/EmployeeAddScreeningController.java:91-105 | the first screening with the same date text and hour, or -1 exactly when there is none |
| Scheduling.Vet | src/controllers/employee/EmployeeAddScreeningController.java:76-105 | a past slot is refused; otherwise a slot is refused exactly when a stored screening holds it, and the refusal names that screening |
| Scheduling.ZeroSeats | src/controllers/employee/EmployeeAddScreeningController.java:113-117 | the StringBuilder loop yields the seat string of that many zeros |
| Scheduling.ZerosAreFree | src/controllers/employee/EmployeeAddScreeningController.java:113-118 | all-zero seats decode to free seats: none booked, all available |
| Scheduling.NewScreening | src/controllers/employee/EmployeeAddScreeningController.java:110-121 | a new screening with 50 free seats of the standard layout, the chosen date, hour and movie, and id 0 |
| Scheduling.Schedule | src/controllers/employee/EmployeeAddScreeningController.java:110-127 | the new screening is stored as one appended row with 50 zeros; the screening counter advances by one and the booking counter stays |
| Scheduling.NewScreeningCounts | src/controllers/employee/EmployeeAddScreeningController.java:112-118 | total 50, booked 0, available 50 |
| Scheduling.SlotCheckIsDateCheck | src/controllers/employee/EmployeeAddScreeningController.java:93-94 | comparing the ISO texts and hours compares the dates and hours |
| Scheduling.AppendKeepsSlotsUnique | src/controllers/employee/EmployeeAddScreeningController.java:91-105 | appending a slot nobody holds keeps all slots distinct |
| Scheduling.AddAsWritten | src/controllers/employee/EmployeeAddScreeningController.java:110-129 | as written, an accepted screening goes on the dashboard with id 0 while its row gets an id of at least 1; the screening counter advances by one |
| Scheduling.StaleIdDeletesNothing | src/controllers/employee/EmployeeAddScreeningController.java:124-129 | deleting by the id 0 keeps every stored row |
| Scheduling.AddScreening | src/controllers/employee/EmployeeAddScreeningController.java:69-132 | a past or taken slot is refused and changes nothing; otherwise exactly one row is appended with 50 zeros, the chosen date, hour and movie, the dashboard shows the new screening with its stored id, only the screening counter advances, and no two slots coincide afterwards |

## Left out

- Persistence: the DAO classes and the JDBC helper are replaced by the in-memory `Database`. SQL failures and the `printStackTrace` paths after them are not modelled. `ScreeningDAO.searchScreenings` and the loading of bookings are not modelled: the loaded lists are parameters (`loaded`).
- The user interface: FXML loading, images, opacity, labels, alerts, button enabling and scene changes. The answer of a confirmation dialog is a `bool` parameter.
- JavaFX collections: the observable, filtered and sorted lists are plain sequences. The search predicate is a `query` field with `Shown()`, and the comparator is an `ordering` field. Sorting itself is not performed; the comparators are proved to be total preorders instead.
- The clock and `System.lineSeparator()` are parameters.
- `Movie` and `MovieDAO` are not part of this model. `setMovieID`'s movie lookup is replaced by a `movieName` field, which the search, the name comparator and the export read.
- The movie cascade (EmployeeMovieListController), the add-movie form, QR codes, sign-up, login and profile editing are not part of this model.
- Dates: a screening's date is a calendar date, and its ISO text (`IsoString`) is what the table stores and what `add` compares. `LocalDate.parse` is therefore not modelled.
- JavaLang.ToLower: `toLowerCase` is ASCII only, with no Unicode case mapping, so it leaves capitals outside A-Z unchanged.
- JavaLang.ParseInt: accepts only the ASCII digits `0`-`9`. `Integer.parseInt` also accepts every other decimal digit `Character.digit` knows (Arabic-Indic `٣`, fullwidth `３`, and so on). Those are left out because that table depends on the Java version's Unicode data.
- Bookings.ParseToken: inherits that limit: a token such as `A٣` comes out as a bad number, where the source reads seat A3.
- Screenings.Screening.constructor: the source leaves the date's value and the movie null. The model starts from 2000-01-01 and the empty movie name, since `CalendarDate` and `string` have no null value. Every caller sets both before reading them.
- Bookings.FormattedTime: takes the hour as a parameter. The source reads `getScreening().getTime()`, which throws on a booking with no screening.
- Bookings.Booking.constructor: the source leaves the user name's value and the seat list null, so `getSeats()` on a fresh booking throws. The model starts from the empty name and the empty list instead, since a Dafny `string` or `seq` has no null value.
- Concurrency: none in the source, none modelled.
- The per-seat `setListView()` refresh inside `deleteBookings`, the `customerProgrammeController.setListView()` and `refreshBookingHistory()` calls after `confirmBooking`, and the summary view are not modelled.
- The formatted getters of `Booking` and `Screening`, other than `getFormattedTime`, are not modelled.
- Screenings.Screening.SeatStringToArrayList: requires the string to be at most `MAX_LAYOUT` long, so that every row letter `65 + i/10` is a valid character.
- Reservations.ConfirmBooking: requires every selected seat to be in the screening's layout. The source would throw on `get(-1)` otherwise. Cancellation.BookingHistory.DeleteBookings has the same requirement.
- Comparators.DateCompareIsSlotOrder: the order lemmas require hours within ±2^30, so that `time1 - time2` does not overflow. Comparators.DateCompareOverflow shows the overflow outside that range. The hours the form offers are 12 to 24.
- Bookings.SerializeResolveRoundTrip: stated only for non-empty seat lists whose rows are not commas. An empty list does not read back (Bookings.EmptySeatListDoesNotParse).

## Findings

| source | as written | input that shows it | evidently intended | confidence | as-written member | corrected member |
|---|---|---|---|---|---|---|
| src/controllers/employee/EmployeeAddScreeningController.java:110-129 | `add` inserts the row, whose id the database assigns, but never reads that id back; the `Screening` put on the dashboard keeps id 0 | schedule a screening, then delete it from the dashboard in the same session: `deleteScreenings` searches and deletes by id 0, so the stored row and its bookings stay while the entry leaves the list | the screening on the dashboard carries the id of its stored row | not executed | Scheduling.AddAsWritten, Scheduling.StaleIdDeletesNothing | Scheduling.AddScreening |
