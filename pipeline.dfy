/**
  The list pipeline applied to the rooms and bookings held in memory: filter by a
  case-insensitive substring query, sort with the shared direction control, cut out
  the current page; plus the page-navigation rules of the footer.
*/
module Pipeline {
  import opened Text
  import opened Seqs
  import opened Records

  // ---------------------------------------------------------------------------
  // Filter

  /** `text.toLowerCase().includes(query.toLowerCase())`. */
  predicate Matches(text: string, query: string) {
    Contains(Lower(text), Lower(query))
  }

  function RoomMatches(query: string): Room -> bool {
    (r: Room) => Matches(r.name, query)
  }

  function BookingMatches(query: string): Booking -> bool {
    (b: Booking) => Matches(b.borrowerName, query)
  }

  function FilterRooms(rooms: seq<Room>, query: string): seq<Room> {
    Filter(rooms, RoomMatches(query))
  }

  function FilterBookings(bookings: seq<Booking>, query: string): seq<Booking> {
    Filter(bookings, BookingMatches(query))
  }

  /**
    The filtered rooms are a subsequence of the rooms, holding every occurrence of each
    room whose lower-cased name contains the lower-cased query and nothing else.
  */
  lemma FilterRoomsSpec(rooms: seq<Room>, query: string)
    ensures IsSubsequence(FilterRooms(rooms, query), rooms)
    ensures forall r :: multiset(FilterRooms(rooms, query))[r] ==
                        if Matches(r.name, query) then multiset(rooms)[r] else 0
  {
    FilterIsSubsequence(rooms, RoomMatches(query));
    FilterMultiset(rooms, RoomMatches(query));
  }

  /** The same for bookings, matched on the borrower's name. */
  lemma FilterBookingsSpec(bookings: seq<Booking>, query: string)
    ensures IsSubsequence(FilterBookings(bookings, query), bookings)
    ensures forall b :: multiset(FilterBookings(bookings, query))[b] ==
                        if Matches(b.borrowerName, query) then multiset(bookings)[b] else 0
  {
    FilterIsSubsequence(bookings, BookingMatches(query));
    FilterMultiset(bookings, BookingMatches(query));
  }

  lemma EmptyQueryMatches(text: string)
    ensures Matches(text, "")
  {
    EmptyIsContained(Lower(text));
  }

  /** The empty query keeps every room and every booking, in order. */
  lemma EmptyQueryKeepsAll(rooms: seq<Room>, bookings: seq<Booking>)
    ensures FilterRooms(rooms, "") == rooms
    ensures FilterBookings(bookings, "") == bookings
  {
    forall i | 0 <= i < |rooms|
      ensures RoomMatches("")(rooms[i])
    {
      EmptyQueryMatches(rooms[i].name);
    }
    FilterKeepsAll(rooms, RoomMatches(""));
    forall i | 0 <= i < |bookings|
      ensures BookingMatches("")(bookings[i])
    {
      EmptyQueryMatches(bookings[i].borrowerName);
    }
    FilterKeepsAll(bookings, BookingMatches(""));
  }

  // ---------------------------------------------------------------------------
  // Sort

  /**
    The room comparator: `collate` plays `String.prototype.localeCompare`; ascending
    compares `a` with `b`, any other setting `b` with `a`.
  */
  function RoomComparator(collate: (string, string) -> int, order: Order): (Room, Room) -> int {
    (a: Room, b: Room) => if order == Asc then collate(a.name, b.name) else collate(b.name, a.name)
  }

  /**
    The booking comparator on start instants: `timeOf` plays `new Date(s).getTime()`;
    descending returns `timeB - timeA`, ascending `timeA - timeB`.
  */
  function BookingComparator(timeOf: string -> int, order: Order): (Booking, Booking) -> int {
    (a: Booking, b: Booking) =>
      var timeA := timeOf(a.bookingDate);
      var timeB := timeOf(b.bookingDate);
      if order == Desc then timeB - timeA else timeA - timeB
  }

  function SortRooms(rooms: seq<Room>, collate: (string, string) -> int, order: Order): seq<Room> {
    Sort(rooms, RoomComparator(collate, order))
  }

  function SortBookings(bookings: seq<Booking>, timeOf: string -> int, order: Order): seq<Booking> {
    Sort(bookings, BookingComparator(timeOf, order))
  }

  lemma RoomComparatorConsistent(collate: (string, string) -> int, order: Order)
    requires Consistent(collate)
    ensures Consistent(RoomComparator(collate, order))
  {
    var cmp := RoomComparator(collate, order);
    forall a, b
      ensures cmp(a, b) < 0 <==> cmp(b, a) > 0
    {
      assert collate(a.name, b.name) < 0 <==> collate(b.name, a.name) > 0;
    }
    forall a, b, c | cmp(a, b) <= 0 && cmp(b, c) <= 0
      ensures cmp(a, c) <= 0
    {
      if order == Asc {
        assert collate(a.name, b.name) <= 0 && collate(b.name, c.name) <= 0;
      } else {
        assert collate(c.name, b.name) <= 0 && collate(b.name, a.name) <= 0;
      }
    }
  }

  lemma BookingComparatorConsistent(timeOf: string -> int, order: Order)
    ensures Consistent(BookingComparator(timeOf, order))
  {
  }

  /**
    Sorting the rooms gives a permutation ordered by name (ascending for `Asc`,
    descending otherwise) in which rooms with equally collating names keep their order.
  */
  lemma SortRoomsSpec(rooms: seq<Room>, collate: (string, string) -> int, order: Order)
    requires Consistent(collate)
    ensures var r := SortRooms(rooms, collate, order);
      && multiset(r) == multiset(rooms)
      && (forall i, j :: 0 <= i < j < |r| ==>
            if order == Asc then collate(r[i].name, r[j].name) <= 0 else collate(r[j].name, r[i].name) <= 0)
      && StableOver(r, rooms, RoomComparator(collate, order))
  {
    var cmp := RoomComparator(collate, order);
    RoomComparatorConsistent(collate, order);
    SortSorted(rooms, cmp);
    SortStable(rooms, cmp);
    var r := SortRooms(rooms, collate, order);
    forall i, j | 0 <= i < j < |r|
      ensures if order == Asc then collate(r[i].name, r[j].name) <= 0 else collate(r[j].name, r[i].name) <= 0
    {
      assert cmp(r[i], r[j]) <= 0;
    }
  }

  /**
    Sorting the bookings gives a permutation ordered by start instant, newest first for
    `Desc` and oldest first for `Asc`, in which bookings starting together keep their order.
  */
  lemma SortBookingsSpec(bookings: seq<Booking>, timeOf: string -> int, order: Order)
    ensures var r := SortBookings(bookings, timeOf, order);
      && multiset(r) == multiset(bookings)
      && (forall i, j :: 0 <= i < j < |r| ==>
            if order == Desc then timeOf(r[i].bookingDate) >= timeOf(r[j].bookingDate)
            else timeOf(r[i].bookingDate) <= timeOf(r[j].bookingDate))
      && StableOver(r, bookings, BookingComparator(timeOf, order))
  {
    var cmp := BookingComparator(timeOf, order);
    BookingComparatorConsistent(timeOf, order);
    SortSorted(bookings, cmp);
    SortStable(bookings, cmp);
    var r := SortBookings(bookings, timeOf, order);
    forall i, j | 0 <= i < j < |r|
      ensures if order == Desc then timeOf(r[i].bookingDate) >= timeOf(r[j].bookingDate)
              else timeOf(r[i].bookingDate) <= timeOf(r[j].bookingDate)
    {
      assert cmp(r[i], r[j]) <= 0;
    }
  }

  /** Flipping the direction control and sorting again gives the same list as sorting once. */
  lemma ResortRooms(rooms: seq<Room>, collate: (string, string) -> int, first: Order, second: Order)
    requires Consistent(collate)
    ensures SortRooms(SortRooms(rooms, collate, first), collate, second) == SortRooms(rooms, collate, second)
  {
    var c1, c2 := RoomComparator(collate, first), RoomComparator(collate, second);
    RoomComparatorConsistent(collate, first);
    RoomComparatorConsistent(collate, second);
    forall a, b
      ensures c1(a, b) == 0 <==> c2(a, b) == 0
    {
      assert collate(a.name, b.name) == 0 <==> collate(b.name, a.name) == 0;
    }
    SortResort(rooms, c1, c2);
  }

  lemma ResortBookings(bookings: seq<Booking>, timeOf: string -> int, first: Order, second: Order)
    ensures SortBookings(SortBookings(bookings, timeOf, first), timeOf, second) ==
      SortBookings(bookings, timeOf, second)
  {
    BookingComparatorConsistent(timeOf, first);
    BookingComparatorConsistent(timeOf, second);
    SortResort(bookings, BookingComparator(timeOf, first), BookingComparator(timeOf, second));
  }

  // ---------------------------------------------------------------------------
  // Paginate

  /** `Math.ceil(count / perPage)`: the fewest pages of `perPage` rows that hold `count` rows. */
  function TotalPages(count: nat, perPage: nat): (t: nat)
    requires perPage > 0
    ensures t * perPage >= count
    ensures t > 0 ==> (t - 1) * perPage < count
    ensures t == 0 <==> count == 0
  {
    var t := (count + perPage - 1) / perPage;
    var rem := (count + perPage - 1) % perPage;
    assert t * perPage + rem == count + perPage - 1;
    assert (t - 1) * perPage == t * perPage - perPage;
    t
  }

  /** `totalPages || 1`: what the footer shows. */
  function DisplayedTotal(t: nat): nat {
    if t == 0 then 1 else t
  }

  /** `s.slice((page - 1) * perPage, page * perPage)`. */
  function PageOf<T>(s: seq<T>, page: int, perPage: nat): seq<T> {
    Slice(s, (page - 1) * perPage, page * perPage)
  }

  /** The number in the "No." column of row `index` of the page. */
  function RowNumber(page: int, perPage: nat, index: nat): int {
    (page - 1) * perPage + index + 1
  }

  /**
    A page is the clipped run of at most `perPage` rows starting at row
    `(page - 1) * perPage`, and each row's number is its 1-based position in the list.
  */
  lemma PageSpec<T>(s: seq<T>, page: int, perPage: nat)
    requires perPage > 0 && page >= 1
    ensures var v := PageOf(s, page, perPage); var start := (page - 1) * perPage;
      && |v| <= perPage
      && |v| == (if start >= |s| then 0 else if |s| - start < perPage then |s| - start else perPage)
      && forall i :: 0 <= i < |v| ==>
           1 <= RowNumber(page, perPage, i) <= |s| && v[i] == s[RowNumber(page, perPage, i) - 1]
  {
  }

  lemma StartBeyondIff(count: nat, page: int, perPage: nat)
    requires perPage > 0 && page >= 1
    ensures (page - 1) * perPage >= count <==> page > TotalPages(count, perPage)
  {
    var t := TotalPages(count, perPage);
    if page > t {
      assert page - 1 >= t;
      assert (page - 1) * perPage >= t * perPage;
    } else {
      assert page <= t && t > 0;
      assert (page - 1) * perPage <= (t - 1) * perPage;
    }
  }

  /** A page is empty, and the "no data" row shows, exactly when it lies past the last page. */
  lemma PageEmptyIff<T>(s: seq<T>, page: int, perPage: nat)
    requires perPage > 0 && page >= 1
    ensures PageOf(s, page, perPage) == [] <==> page > TotalPages(|s|, perPage)
  {
    PageSpec(s, page, perPage);
    StartBeyondIff(|s|, page, perPage);
  }

  /** The last page holds the remainder of the rows, and at least one. */
  lemma LastPageLength<T>(s: seq<T>, perPage: nat)
    requires perPage > 0 && |s| > 0
    ensures var t := TotalPages(|s|, perPage);
      |PageOf(s, t, perPage)| == |s| - (t - 1) * perPage > 0
  {
    var t := TotalPages(|s|, perPage);
    PageSpec(s, t, perPage);
    assert t * perPage == (t - 1) * perPage + perPage;
  }

  /** Every row of the list appears on page `j / perPage + 1` at position `j % perPage`. */
  lemma EveryRowOnItsPage<T>(s: seq<T>, perPage: nat, j: nat)
    requires perPage > 0 && j < |s|
    ensures var p := j / perPage + 1; var v := PageOf(s, p, perPage);
      && 1 <= p <= TotalPages(|s|, perPage)
      && j % perPage < |v|
      && v[j % perPage] == s[j]
      && RowNumber(p, perPage, j % perPage) == j + 1
  {
    var p := j / perPage + 1;
    assert (p - 1) * perPage + j % perPage == j;
    StartBeyondIff(|s|, p, perPage);
    PageSpec(s, p, perPage);
  }

  // ---------------------------------------------------------------------------
  // Footer navigation

  /** "Prev" is disabled on page 1; otherwise it goes back one page. */
  function PrevPage(page: int): int {
    if page == 1 then page else page - 1
  }

  /** "Next" is disabled once `page >= totalPages`; otherwise it goes forward one page. */
  function NextPage(page: int, totalPages: nat): int {
    if page >= totalPages then page else page + 1
  }

  datatype Click = Prev | Next

  function Navigate(page: int, totalPages: nat, clicks: seq<Click>): int
    decreases |clicks|
  {
    if clicks == [] then page
    else
      var p := if clicks[0] == Prev then PrevPage(page) else NextPage(page, totalPages);
      Navigate(p, totalPages, clicks[1..])
  }

  predicate InRange(page: int, totalPages: nat) {
    1 <= page <= DisplayedTotal(totalPages)
  }

  /** Any run of Prev/Next clicks keeps an in-range page in range. */
  lemma {:induction false} NavigationInRange(page: int, totalPages: nat, clicks: seq<Click>)
    requires InRange(page, totalPages)
    ensures InRange(Navigate(page, totalPages, clicks), totalPages)
    decreases |clicks|
  {
    if clicks != [] {
      var p := if clicks[0] == Prev then PrevPage(page) else NextPage(page, totalPages);
      assert InRange(p, totalPages);
      NavigationInRange(p, totalPages, clicks[1..]);
    }
  }

  /** Starting from page 1, the page always stays between 1 and the displayed total. */
  lemma NavigationFromFirstPage(totalPages: nat, clicks: seq<Click>)
    ensures 1 <= Navigate(1, totalPages, clicks) <= DisplayedTotal(totalPages)
  {
    NavigationInRange(1, totalPages, clicks);
  }

  // ---------------------------------------------------------------------------
  // Worked cases

  /** Twelve bookings, five per page: page 3 shows two rows of three pages. */
  lemma TwelveBookingsThirdPage(bookings: seq<Booking>, timeOf: string -> int, order: Order)
    requires |bookings| == 12
    ensures var sorted := SortBookings(FilterBookings(bookings, ""), timeOf, order);
      TotalPages(|sorted|, 5) == 3 && |PageOf(sorted, 3, 5)| == 2
  {
    EmptyQueryKeepsAll([], bookings);
    var sorted := SortBookings(FilterBookings(bookings, ""), timeOf, order);
    PageSpec(sorted, 3, 5);
  }

  lemma LowerRoomA()
    ensures Lower("room a") == "room a" && Lower("Room A") == "room a"
  {
    assert forall i :: 0 <= i < 6 ==> Lower("room a")[i] == "room a"[i];
    assert forall i :: 0 <= i < 6 ==> Lower("Room A")[i] == "room a"[i];
  }

  lemma LowerOthers()
    ensures Lower("room b") == "room b" && Lower("Auditorium") == "auditorium"
  {
    assert forall i :: 0 <= i < 6 ==> Lower("room b")[i] == "room b"[i];
    assert forall i :: 0 <= i < 10 ==> Lower("Auditorium")[i] == "auditorium"[i];
  }

  lemma {:induction false} TooShortContainsNothing(hay: string, needle: string)
    requires |hay| < |needle|
    ensures !Contains(hay, needle)
    decreases |hay|
  {
    if hay != [] {
      TooShortContainsNothing(hay[1..], needle);
    }
  }

  lemma NoRoomA()
    ensures !Contains("room b", "room a")
    ensures !Contains("auditorium", "room a")
  {
    var q := "room a";
    TooShortContainsNothing("room b"[1..], q);
    assert !IsPrefix(q, "room b") by { assert "room b"[5] != q[5]; }
    var h := "auditorium";
    TooShortContainsNothing(h[5..], q);
    assert !IsPrefix(q, h[4..]) by { assert h[4..][0] != q[0]; }
    assert !IsPrefix(q, h[3..]) by { assert h[3..][0] != q[0]; }
    assert !IsPrefix(q, h[2..]) by { assert h[2..][0] != q[0]; }
    assert !IsPrefix(q, h[1..]) by { assert h[1..][0] != q[0]; }
    assert !IsPrefix(q, h) by { assert h[0] != q[0]; }
    assert h[1..][1..] == h[2..] && h[2..][1..] == h[3..] && h[3..][1..] == h[4..] && h[4..][1..] == h[5..];
  }

  lemma RoomAMatches()
    ensures Matches("Room A", "room a")
    ensures !Matches("room b", "room a") && !Matches("Auditorium", "room a")
  {
    LowerRoomA();
    LowerOthers();
    NoRoomA();
    assert IsPrefix("room a", "room a");
  }

  /** The query "room a" picks "Room A" out of "Room A", "room b" and "Auditorium". */
  lemma RoomQueryExample()
    ensures FilterRooms([Room(1, "Room A", "", 10), Room(2, "room b", "", 10), Room(3, "Auditorium", "", 10)], "room a")
      == [Room(1, "Room A", "", 10)]
  {
    var a, b, c := Room(1, "Room A", "", 10), Room(2, "room b", "", 10), Room(3, "Auditorium", "", 10);
    var p := RoomMatches("room a");
    RoomAMatches();
    assert p(a) && !p(b) && !p(c);
    assert [c][1..] == [] && [b, c][1..] == [c] && [a, b, c][1..] == [b, c];
    assert Filter([c], p) == [];
    assert Filter([b, c], p) == [];
    assert Filter([a, b, c], p) == [a];
  }
}
