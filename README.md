# Room-booking administration front-end: list pipeline and view state

This project models the deterministic core of a single-page React front-end for a
room-booking administration tool (`src/App.tsx`). The component holds the rooms and
bookings fetched from a REST API and shows them in tables. In front of each table sits
a **list pipeline**:

1. **filter**: keep the rows whose room name (or borrower name) contains the search
   text, compared after lower-casing both;
2. **sort**: order rooms by name and bookings by start time, with one shared
   ascending/descending control (bookings default to newest first);
3. **paginate**: cut out page `p` of `k` rows, `slice((p-1)*k, p*k)`, and show `p / (ceil(n/k) || 1)`
   in the footer.

Around it sit the footer's Prev/Next navigation and the resets on tab, search and page
size changes, the derived display values (room label with a `Ruang #<id>` fallback,
the last line of a status log, dashboard counts), and the room and booking edit forms.
An editing id decides between PUT to the record and POST to the collection. The forms
are pre-filled from a record and reset after a successful save.

Layout:

| file | module | contents |
|---|---|---|
| `common.dfy` | `Common` | `Option` (`None` is `null`, `undefined` or `NaN`) |
| `text.dfy` | `Text` | ASCII `toLowerCase`, `includes`, `split`/`join`, `toString` and `parseInt` for integers |
| `seqs.dfy` | `Seqs` | `filter`, stable `sort` with a numeric comparator, `slice` |
| `records.dfy` | `Records` | `Room`, `Booking`, the sort order and the tabs |
| `pipeline.dfy` | `Pipeline` | the filter/sort/paginate pipeline and footer navigation |
| `display.dfy` | `Display` | room label, status-log lines, dashboard counts |
| `requests.dfy` | `Requests` | save/delete/status requests as values, form pre-fill |
| `app.dfy` | `AppState` | class `App`: the component's state and its event handlers |

Modelling choices:

- `String.prototype.localeCompare` is a parameter `collate: (string, string) -> int`.
  Its results are assumed to form a consistent comparator (`Seqs.Consistent`): the sign
  flips when the arguments swap, and "not after" is transitive.
- `new Date(s).getTime()` is a parameter `timeOf: string -> int`.
- `toLowerCase` folds the ASCII letters only.
- `Array.prototype.sort` is stable (ECMAScript 2019 and later). It is modelled as a stable
  insertion sort. That sort is proved to be the only stable, ordered permutation, so the
  model fixes the browser's result exactly.
- `parseInt` without a radix works as follows: skip leading white space, read an optional
  sign, treat an `0x`/`0X` prefix as radix 16, then read the longest run of digits. No
  digits gives `NaN`, which is `None`. `JSON.stringify` sends `NaN` as `null`.
- The `editingRoomId ? … : …` tests use JavaScript truthiness. So an editing id of `0`
  selects POST to the collection, just as `null` does. The model keeps that
  (`Requests.IsEditing`, `Requests.EditRoomUnchanged`).
- `slice` follows its own index rules: a negative index counts from the end, and both
  ends are clipped to the length.
- A `statusHistory` of `null`/`undefined` is `None`. The empty string is falsy too, so it
  also has no lines.
- The effect that runs when `activeTab` changes is folded into `App.SelectTab`. A click
  on the tab that is already active changes nothing, as React skips the same-value update.
- Status values are free strings, compared with `"Pending"`.
- Every room save sends the description `"Ruangan Kampus"`, whatever the form holds.
- `Pipeline.ResortRooms` and `Pipeline.ResortBookings` hold for every input, ties included.

## Model

| member | source | states |
|---|---|---|
| `Text.Lower` | src/App.tsx:126 | ASCII `toLowerCase`, character by character; keeps the length |
| `Text.Contains` | src/App.tsx:126 | `includes`; its meaning is stated by `Text.ContainsIff` |
| `Text.ContainsIff` | src/App.tsx:126 | `includes` holds exactly when the needle occurs at some offset of the text (both directions) |
| `Text.Split` | src/App.tsx:401 | `split` on one character yields at least one piece, and no piece contains the separator |
| `Text.JoinSplit` | src/App.tsx:401 | joining the pieces of a split with the separator gives back the original text |
| `Text.SplitJoin` | src/App.tsx:539 | splitting a join of separator-free pieces gives back exactly those pieces |
| `Text.LastPiece` | src/App.tsx:402 | the last piece has no separator, is a suffix of the text, and is preceded by the separator when shorter than the text |
| `Text.FirstPiece` | src/App.tsx:108 | the first piece has no separator, is a prefix of the text, and is followed by the separator when shorter |
| `Text.NatToString` | src/App.tsx:76 | `toString` of a natural number is a non-empty string of decimal digits whose decimal value is the number; a leading '0' occurs only in the text "0" itself (the canonical form) |
| `Text.IntToString` | src/App.tsx:76 | `n.toString()`: a '-' before the canonical digits of a negative number; its meaning is stated by `Text.ParseIntOfIntToString` and `Text.IntToStringInjective` |
| `Text.DecimalPrefix` | src/App.tsx:67 | `parseInt` reads the longest prefix of decimal digits: a prefix, all digits, followed by a non-digit or the end |
| `Text.HexPrefix` | src/App.tsx:67 | the same for hexadecimal digits after `0x` |
| `Text.TrimStart` | src/App.tsx:67 | leading white space is dropped: the result is a suffix, everything before it is white space, and it does not start with white space |
| `Text.ParseInt` | src/App.tsx:67 | `parseInt` with no radix: white space, optional sign, `0x` for hex, longest digit run, `None` for `NaN`; its stages are stated by `Text.TrimStart`, `Text.DecimalPrefix` and `Text.HexPrefix`, its inverse by `Text.ParseIntOfIntToString` |
| `Text.ParseIntOfIntToString` | src/App.tsx:67-76 | `parseInt(n.toString())` is `n` for every integer, negatives included |
| `Text.IntToStringInjective` | src/App.tsx:62 | distinct integers have distinct decimal strings |
| `Seqs.Filter` | src/App.tsx:126 | every kept element satisfies the predicate, and the result is no longer than the input |
| `Seqs.FilterIsSubsequence` | src/App.tsx:126 | the filtered list is a subsequence of the input (original order) |
| `Seqs.FilterMultiset` | src/App.tsx:126 | every occurrence of a satisfying element is kept and no other element is |
| `Seqs.FilterKeepsAll` | src/App.tsx:126 | when every element satisfies the predicate the list is unchanged |
| `Seqs.FilterConcat` | src/App.tsx:56-57 | filtering distributes over concatenation |
| `Seqs.Insert` | src/App.tsx:127 | inserting adds exactly one occurrence of the element |
| `Seqs.Sort` | src/App.tsx:127 | the sorted list is a permutation of the input |
| `Seqs.InsertSorted` | src/App.tsx:127 | inserting into an ordered list keeps it ordered |
| `Seqs.SortSorted` | src/App.tsx:127 | the sorted list is ordered by the comparator for every consistent comparator |
| `Seqs.InsertTies` | src/App.tsx:127 | inserting an element places it in front of every element ranked equal to it |
| `Seqs.SortStableAt` | src/App.tsx:127 | for each element, the elements ranked equal to it keep their input order |
| `Seqs.SortStable` | src/App.tsx:127 | the sort is stable: every group of equally ranked elements keeps its input order |
| `Seqs.SortedUnique` | src/App.tsx:127 | two ordered, stable permutations of each other are equal |
| `Seqs.SortCharacterization` | src/App.tsx:127 | a list is the sort result exactly when it is an ordered, stable permutation of the input |
| `Seqs.SortResort` | src/App.tsx:127 | re-sorting with a comparator that has the same ties gives the same list as sorting the original once |
| `Seqs.Slice` | src/App.tsx:129 | for non-negative arguments, `slice(start, end)` is the run of elements from `start` up to `end` clipped to the length, empty when `end <= start` or `start` is past the end |
| `Pipeline.Matches` | src/App.tsx:126 | the lower-cased text contains the lower-cased query |
| `Pipeline.FilterRooms` | src/App.tsx:126 | the rooms whose name matches the query; stated by `Pipeline.FilterRoomsSpec` |
| `Pipeline.FilterBookings` | src/App.tsx:131 | the bookings whose borrower matches the query; stated by `Pipeline.FilterBookingsSpec` |
| `Pipeline.RoomComparator` | src/App.tsx:127 | `localeCompare` of the names, arguments swapped unless ascending; see `Pipeline.RoomComparatorConsistent` |
| `Pipeline.BookingComparator` | src/App.tsx:132-135 | difference of the start instants, `timeB - timeA` for descending; see `Pipeline.BookingComparatorConsistent` |
| `Pipeline.SortRooms` | src/App.tsx:127 | the rooms sorted with the room comparator; stated by `Pipeline.SortRoomsSpec` |
| `Pipeline.SortBookings` | src/App.tsx:132-135 | the bookings sorted with the booking comparator; stated by `Pipeline.SortBookingsSpec` |
| `Pipeline.FilterRoomsSpec` | src/App.tsx:126 | the filtered rooms are a subsequence holding every room whose lower-cased name contains the lower-cased query, and only those |
| `Pipeline.FilterBookingsSpec` | src/App.tsx:131 | the same for bookings, on the borrower's name |
| `Pipeline.EmptyQueryKeepsAll` | src/App.tsx:126-131 | the empty query keeps every room and every booking, in order |
| `Pipeline.RoomComparatorConsistent` | src/App.tsx:127 | the room comparator is consistent in both directions when `localeCompare` is |
| `Pipeline.BookingComparatorConsistent` | src/App.tsx:132-135 | the time-difference comparator is consistent in both directions |
| `Pipeline.SortRoomsSpec` | src/App.tsx:127 | sorted rooms are a permutation, ordered by name ascending for `asc` and descending otherwise, stable among equally collating names |
| `Pipeline.SortBookingsSpec` | src/App.tsx:132-135 | sorted bookings are a permutation, newest first for `desc` and oldest first for `asc`, stable among equal start times |
| `Pipeline.ResortRooms` | src/App.tsx:127 | sorting the rooms again with the other direction equals sorting the original with that direction |
| `Pipeline.ResortBookings` | src/App.tsx:132-135 | the same for bookings |
| `Pipeline.TotalPages` | src/App.tsx:128 | the page count is the ceiling of count / page size: the fewest pages that hold all rows, and 0 exactly for no rows |
| `Pipeline.DisplayedTotal` | src/App.tsx:450 | the total shown in the footer: the page count, or 1 when it is 0 |
| `Pipeline.PageOf` | src/App.tsx:129 | the current page of a sorted list, also at line 137; stated by `Pipeline.PageSpec` |
| `Pipeline.RowNumber` | src/App.tsx:324 | the "No." column, `(page-1)*k + index + 1`; its meaning is stated by `Pipeline.PageSpec` and `Pipeline.EveryRowOnItsPage` |
| `Pipeline.StartBeyondIff` | src/App.tsx:136-137 | a page starts at or past the end of the list exactly when its number exceeds the page count |
| `Pipeline.PageSpec` | src/App.tsx:129 | a page holds at most `k` rows; it is the run from row `(p-1)*k`, clipped to the list; row `i` has number `(p-1)*k+i+1`, its 1-based position in the sorted list |
| `Pipeline.PageEmptyIff` | src/App.tsx:334 | a page is empty, so the "no data" row shows, exactly when its number exceeds the page count |
| `Pipeline.LastPageLength` | src/App.tsx:128-129 | the last page of a non-empty list holds `n - (t-1)*k` rows, at least one |
| `Pipeline.EveryRowOnItsPage` | src/App.tsx:324 | row `j` of the sorted list appears on page `j/k+1` at position `j%k`, numbered `j+1` |
| `Pipeline.PrevPage` | src/App.tsx:449 | Prev: disabled on page 1, else one back |
| `Pipeline.NextPage` | src/App.tsx:451 | Next: disabled once the page reaches the count, else one forward |
| `Pipeline.Navigate` | src/App.tsx:449-451 | a run of clicks; its range is stated by `Pipeline.NavigationInRange` |
| `Pipeline.NavigationInRange` | src/App.tsx:449-451 | any run of Prev/Next clicks keeps a page in `1..max(1, totalPages)` |
| `Pipeline.NavigationFromFirstPage` | src/App.tsx:449-451 | starting from page 1, clicking keeps the page between 1 and the displayed total |
| `Pipeline.TwelveBookingsThirdPage` | src/App.tsx:136-137 | twelve bookings at five per page make three pages, the third with two rows |
| `Pipeline.RoomQueryExample` | src/App.tsx:126 | the query "room a" keeps only "Room A" of "Room A", "room b" and "Auditorium" |
| `Display.FindRoom` | src/App.tsx:353 | `find` returns the first room with the id, and nothing exactly when no room has it |
| `Display.RoomLabel` | src/App.tsx:353 | the label is the first matching room's name, or `Ruang #<id>` when no room matches or that name is empty |
| `Display.DeletedRoomLabel` | src/App.tsx:400 | a booking of a deleted room 3 is labelled `Ruang #3` |
| `Display.HistoryLines` | src/App.tsx:401 | the log's lines, none for a missing or empty log; stated by `Display.HistoryLinesSpec` |
| `Display.LastHistory` | src/App.tsx:402 | the last line or "Tidak ada catatan."; stated by `Display.LastHistorySpec` |
| `Display.Dashboard` | src/App.tsx:54-57 | the four dashboard counts; stated by `Display.DashboardCounts` |
| `Display.HistoryLinesSpec` | src/App.tsx:401 | a missing or empty log has no lines; otherwise the lines are newline-free and join back to the log |
| `Display.LastHistorySpec` | src/App.tsx:401-402 | the last-history cell is "Tidak ada catatan." for a missing or empty log, otherwise the text after the log's last newline |
| `Display.DashboardCounts` | src/App.tsx:54-57 | the pending and history counts are added up booking by booking, and neither exceeds the booking total |
| `Requests.IsEditing` | src/App.tsx:62-63 | the truthiness test of the editing id: set and not 0 |
| `Requests.RecordUrl` | src/App.tsx:62 | `` `${base}/${id}` ``; stated by `Requests.RecordUrlIdentifies` |
| `Requests.RoomFormFrom` | src/App.tsx:76 | the room form filled from a room; stated by `Requests.EditRoomUnchanged` |
| `Requests.BookingFormFrom` | src/App.tsx:106-109 | the booking form filled from a booking, timestamps cut at '.'; stated by `Requests.EditBookingUnchanged` |
| `Requests.StatusRequest` | src/App.tsx:114 | PUT of a status to `/Bookings/{id}/status`; stated by `Requests.WritesTargetOneRecord` |
| `Requests.DeleteRoomRequest` | src/App.tsx:81 | DELETE of `/Rooms/{id}`; stated by `Requests.WritesTargetOneRecord` |
| `Requests.DeleteBookingRequest` | src/App.tsx:118 | DELETE of `/Bookings/{id}`; stated by `Requests.WritesTargetOneRecord` |
| `Requests.RecordUrlIdentifies` | src/App.tsx:62 | a record URL determines its id and never equals the collection URL |
| `Requests.SaveRoomRequest` | src/App.tsx:62-67 | PUT to the room's URL exactly when an editing id is set (truthy), otherwise POST to the collection; body holds the name, the parsed capacity and the fixed description |
| `Requests.SaveBookingRequest` | src/App.tsx:87-95 | the same decision for bookings; body holds the parsed room id, the borrower and both timestamps as typed |
| `Requests.BeforeFirstDot` | src/App.tsx:108 | `split('.')[0]` is the prefix before the first '.', containing no '.' |
| `Requests.BeforeFirstDotStable` | src/App.tsx:108 | truncating twice is truncating once, and a timestamp without '.' is unchanged |
| `Requests.EditRoomUnchanged` | src/App.tsx:74-76 | editing a room and saving unchanged sends its name and capacity back to its own URL (POST if its id is 0) |
| `Requests.EditBookingUnchanged` | src/App.tsx:104-109 | editing a booking and saving unchanged sends its room id and borrower back, timestamps truncated at '.' |
| `Requests.VerifyActions` | src/App.tsx:364-367 | buttons exist exactly for a pending booking: two of them, Approve with status "Approved" then Reject with "Rejected", each a PUT to that booking's `/status` URL |
| `Requests.VerifyActionsTargetBooking` | src/App.tsx:366-367 | the buttons of two pending bookings send the same requests exactly when the ids agree |
| `Requests.WritesTargetOneRecord` | src/App.tsx:113-118 | delete and status requests for different ids are different requests |
| `AppState.App.TotalPages` | src/App.tsx:446 | the footer's count: the filtered rooms on the rooms tab, the filtered bookings elsewhere |
| `AppState.App.VisibleRooms` | src/App.tsx:126-129 | the rooms table's rows: filter, sort, page; see `AppState.ShownRowsEmptyIff` |
| `AppState.App.VisibleBookings` | src/App.tsx:131-137 | the bookings and history tables' rows: filter, sort, page; see `AppState.ShownRowsEmptyIff` |
| `AppState.App.HistoryDialogLines` | src/App.tsx:539 | the lines of the booking the history dialog shows |
| `AppState.App.constructor` | src/App.tsx:18-39 | the initial state: dashboard tab, empty collections, closed dialogs, blank forms, empty search, `desc`, page 1, five rows |
| `AppState.App.Loaded` | src/App.tsx:47-48 | fetched collections replace the old ones; the page number and everything else stay |
| `AppState.App.SelectTab` | src/App.tsx:41-44 | a different tab clears the search, goes to page 1 (in range) and sorts `desc`; the same tab changes nothing |
| `AppState.App.SetSearch` | src/App.tsx:298 | typing in the search box sets the query and goes to page 1 |
| `AppState.App.SetSortOrder` | src/App.tsx:299 | the direction changes and the page number stays |
| `AppState.App.SetItemsPerPage` | src/App.tsx:436 | a new page size (5, 10 or 15) goes to page 1 |
| `AppState.App.Prev` | src/App.tsx:449 | Prev decrements the page unless it is 1, and keeps an in-range page in range |
| `AppState.App.Next` | src/App.tsx:451 | Next increments the page unless it is at least the page count, and keeps an in-range page in range |
| `AppState.App.NewRoom` | src/App.tsx:304 | the add button opens a blank room form in creating mode |
| `AppState.App.EditRoom` | src/App.tsx:74-78 | the edit button sets the editing id, fills the form from the room and opens the dialog |
| `AppState.App.SetRoomName` | src/App.tsx:475 | typing in the name input changes the form's name and keeps its other fields |
| `AppState.App.SetRoomCapacity` | src/App.tsx:479 | typing in the capacity input changes the form's capacity and keeps its other fields |
| `AppState.App.CloseRoomModal` | src/App.tsx:470 | closing hides the dialog and keeps the fields |
| `AppState.App.RoomSaveRequest` | src/App.tsx:62-67 | the request submitting the room form sends from the current state; its meaning is stated by `Requests.SaveRoomRequest` |
| `AppState.App.RoomSaved` | src/App.tsx:69-71 | a successful save blanks the form, clears the editing id and closes the dialog; a failed one changes nothing |
| `AppState.App.NewBooking` | src/App.tsx:307 | the add button opens a blank booking form in creating mode |
| `AppState.App.EditBooking` | src/App.tsx:104-111 | the edit button sets the editing id, fills the form with timestamps free of '.', and opens the dialog |
| `AppState.App.SetBorrowerName` | src/App.tsx:498 | typing the borrower changes that field and keeps the others |
| `AppState.App.SetBookingRoom` | src/App.tsx:502 | choosing a room changes the form's room id and keeps the others |
| `AppState.App.SetBookingDate` | src/App.tsx:510 | editing the start changes that field and keeps the others |
| `AppState.App.SetEndTime` | src/App.tsx:514 | editing the end changes that field and keeps the others |
| `AppState.App.CloseBookingModal` | src/App.tsx:493 | closing hides the dialog and keeps the fields |
| `AppState.App.BookingSaveRequest` | src/App.tsx:87-95 | the request submitting the booking form sends from the current state; its meaning is stated by `Requests.SaveBookingRequest` |
| `AppState.App.BookingSaved` | src/App.tsx:97-101 | a successful save resets the form and, from the dashboard, switches to the bookings tab with its resets; a failed one changes nothing |
| `AppState.App.ShowHistory` | src/App.tsx:417 | the log button opens the history dialog on that booking |
| `AppState.App.CloseHistory` | src/App.tsx:531 | the close button empties the history dialog |
| `AppState.ShownRowsEmptyIff` | src/App.tsx:334 | the active table is empty exactly when the stored page number exceeds the page count |

## Left out

- HTTP: the `fetch` calls, JSON decoding, `async`/`then` ordering and the refetch after
  every write (`fetchData`) are I/O against an external API. Requests are values, and
  the caller passes in the response status (`ok`) and the fetched collections (`App.Loaded`).
- `window.confirm` before a delete is a UI prompt. The delete requests are modelled
  without it.
- `formatDateTime` and `Date` parsing depend on the locale and on the engine's date
  parser. The start time is the abstract `timeOf`. Invalid dates, whose `NaN` times leave
  the comparator inconsistent, are not modelled.
- `localeCompare` collation is the abstract `collate` and is assumed consistent. Unicode
  case folding is not modelled: only ASCII letters are folded.
- `Text.IntToString`: the exponent form `toString` uses when the magnitude is at least
  1e21 is not modelled, so `Text.ParseIntOfIntToString` is stated for unbounded integers
  and does not hold for the source at those magnitudes.
- `parseInt`: white space other than the ASCII controls, space, U+00A0, U+FEFF, U+2028
  and U+2029 is not skipped. Rounding of values beyond 2^53 and the sign of `-0` are not
  modelled, because numbers are unbounded integers here.
- `Math.ceil` of a floating-point quotient is modelled as exact integer ceiling
  division, which agrees for every collection size seen in practice.
- The sort mutates the array that `filter` has just created. It is modelled on values:
  no other reference to that array exists, so an in-place update cannot be observed.
- React's render scheduling and update batching are not modelled. So is the stale
  `activeTab` that `handleSaveBooking` reads after its `await`: each handler's updates
  are applied in order, to the current state.
- The Prev/Next footer is not rendered on the dashboard tab. `App.Prev` and `App.Next`
  do not forbid that tab; there the count uses the bookings, as the source computes it.
- The room `<select>` of the booking form offers the room ids as option values. `App.SetBookingRoom`
  accepts any text, not only those ids.
- All JSX, CSS, theme constants, modal rendering and tab markup.
