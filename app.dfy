/**
  The component's state and its event handlers. Every `setX(...)` of a handler is an
  assignment to field `x`; the effect that runs when the active tab changes is folded
  into the handler that changes it. Requests are returned as values, and the outcome
  of a request (`res.ok`) is passed back in by the caller.
*/
module AppState {
  import opened Common
  import opened Records
  import opened Pipeline
  import opened Display
  import opened Requests

  /** The allowed page sizes: the options of the "rows per page" selector. */
  predicate IsPageSize(k: int) {
    k == 5 || k == 10 || k == 15
  }

  class App {
    var activeTab: Tab
    var rooms: seq<Room>
    var bookings: seq<Booking>

    var showRoomModal: bool
    var showBookingModal: bool
    var historyModal: Option<Booking>

    var roomForm: RoomForm
    var editingRoomId: Option<int>
    var bookingForm: BookingForm
    var editingBookingId: Option<int>

    var searchQuery: string
    var sortOrder: Order
    var currentPage: int
    var itemsPerPage: nat

    /** The page number never drops below 1 and the page size is one of the offered ones. */
    ghost predicate Valid()
      reads this
    {
      currentPage >= 1 && IsPageSize(itemsPerPage)
    }

    /** The footer's page count: rooms on the rooms tab, bookings on every other tab. */
    function TotalPages(): nat
      reads this
      requires Valid()
    {
      if activeTab == Ruangan then Pipeline.TotalPages(|FilterRooms(rooms, searchQuery)|, itemsPerPage)
      else Pipeline.TotalPages(|FilterBookings(bookings, searchQuery)|, itemsPerPage)
    }

    /** The rows of the rooms table. */
    function VisibleRooms(collate: (string, string) -> int): seq<Room>
      reads this
    {
      PageOf(SortRooms(FilterRooms(rooms, searchQuery), collate, sortOrder), currentPage, itemsPerPage)
    }

    /** The rows of the bookings and history tables. */
    function VisibleBookings(timeOf: string -> int): seq<Booking>
      reads this
    {
      PageOf(SortBookings(FilterBookings(bookings, searchQuery), timeOf, sortOrder), currentPage, itemsPerPage)
    }

    ghost predicate PageInRange()
      reads this
      requires Valid()
    {
      InRange(currentPage, TotalPages())
    }

    constructor ()
      ensures Valid() && PageInRange()
      ensures activeTab == Beranda && rooms == [] && bookings == []
      ensures !showRoomModal && !showBookingModal && historyModal == None
      ensures roomForm == BlankRoomForm && editingRoomId == None
      ensures bookingForm == BlankBookingForm && editingBookingId == None
      ensures searchQuery == "" && sortOrder == Desc && currentPage == 1 && itemsPerPage == 5
    {
      activeTab := Beranda;
      rooms, bookings := [], [];
      showRoomModal, showBookingModal, historyModal := false, false, None;
      roomForm, editingRoomId := BlankRoomForm, None;
      bookingForm, editingBookingId := BlankBookingForm, None;
      searchQuery, sortOrder, currentPage, itemsPerPage := "", Desc, 1, 5;
    }

    // -------------------------------------------------------------------------
    // Data

    /** The collections arrive from a fetch. The page number is left as it was. */
    method Loaded(newRooms: seq<Room>, newBookings: seq<Booking>)
      requires Valid()
      modifies this
      ensures Valid()
      ensures rooms == newRooms && bookings == newBookings
      ensures activeTab == old(activeTab) && searchQuery == old(searchQuery) && sortOrder == old(sortOrder)
      ensures currentPage == old(currentPage) && itemsPerPage == old(itemsPerPage)
      ensures showRoomModal == old(showRoomModal) && showBookingModal == old(showBookingModal)
      ensures historyModal == old(historyModal)
      ensures roomForm == old(roomForm) && editingRoomId == old(editingRoomId)
      ensures bookingForm == old(bookingForm) && editingBookingId == old(editingBookingId)
    {
      rooms, bookings := newRooms, newBookings;
    }

    // -------------------------------------------------------------------------
    // Filter, sort and page controls

    /** Choosing a different tab clears the search, goes to page 1 and sorts descending. */
    method SelectTab(t: Tab)
      requires Valid()
      modifies this
      ensures Valid()
      ensures activeTab == t
      ensures t != old(activeTab) ==> PageInRange()
      ensures t != old(activeTab) ==> searchQuery == "" && currentPage == 1 && sortOrder == Desc
      ensures t == old(activeTab) ==>
        searchQuery == old(searchQuery) && currentPage == old(currentPage) && sortOrder == old(sortOrder)
      ensures t == old(activeTab) && old(PageInRange()) ==> PageInRange()
      ensures rooms == old(rooms) && bookings == old(bookings) && itemsPerPage == old(itemsPerPage)
      ensures showRoomModal == old(showRoomModal) && showBookingModal == old(showBookingModal)
      ensures historyModal == old(historyModal)
      ensures roomForm == old(roomForm) && editingRoomId == old(editingRoomId)
      ensures bookingForm == old(bookingForm) && editingBookingId == old(editingBookingId)
    {
      if t != activeTab {
        activeTab := t;
        searchQuery, currentPage, sortOrder := "", 1, Desc;
      }
    }

    /** Typing in the search box goes back to page 1. */
    method SetSearch(q: string)
      requires Valid()
      modifies this`searchQuery, this`currentPage
      ensures Valid() && PageInRange()
      ensures searchQuery == q && currentPage == 1
    {
      searchQuery, currentPage := q, 1;
    }

    /** The direction control keeps the page number. */
    method SetSortOrder(order: Order)
      requires Valid()
      modifies this`sortOrder
      ensures Valid() && sortOrder == order
      ensures old(PageInRange()) ==> PageInRange()
    {
      sortOrder := order;
    }

    /** A new page size goes back to page 1. */
    method SetItemsPerPage(k: nat)
      requires Valid() && IsPageSize(k)
      modifies this`itemsPerPage, this`currentPage
      ensures Valid() && PageInRange()
      ensures itemsPerPage == k && currentPage == 1
    {
      itemsPerPage, currentPage := k, 1;
    }

    /** The "Prev" button: disabled on page 1. */
    method Prev()
      requires Valid()
      modifies this`currentPage
      ensures Valid()
      ensures currentPage == PrevPage(old(currentPage))
      ensures old(PageInRange()) ==> PageInRange()
    {
      if currentPage != 1 {
        currentPage := currentPage - 1;
      }
    }

    /** The "Next" button: disabled once the page reaches the page count. */
    method Next()
      requires Valid()
      modifies this`currentPage
      ensures Valid()
      ensures currentPage == NextPage(old(currentPage), TotalPages())
      ensures old(PageInRange()) ==> PageInRange()
    {
      if !(currentPage >= TotalPages()) {
        currentPage := currentPage + 1;
      }
    }

    // -------------------------------------------------------------------------
    // Room form

    /** "+ Tambah Ruangan": a blank form in creating mode. */
    method NewRoom()
      requires Valid()
      modifies this`editingRoomId, this`roomForm, this`showRoomModal
      ensures Valid()
      ensures editingRoomId == None && roomForm == BlankRoomForm && showRoomModal
    {
      editingRoomId, roomForm, showRoomModal := None, BlankRoomForm, true;
    }

    /** The edit button of a room: its fields in the form, editing its id. */
    method EditRoom(r: Room)
      requires Valid()
      modifies this`editingRoomId, this`roomForm, this`showRoomModal
      ensures Valid()
      ensures editingRoomId == Some(r.id) && roomForm == RoomFormFrom(r) && showRoomModal
    {
      editingRoomId := Some(r.id);
      roomForm := RoomFormFrom(r);
      showRoomModal := true;
    }

    /** Typing in the room name input (`{...roomForm, name: v}`). */
    method SetRoomName(v: string)
      requires Valid()
      modifies this`roomForm
      ensures Valid() && roomForm == old(roomForm).(name := v)
    {
      roomForm := roomForm.(name := v);
    }

    /** Typing in the room capacity input (`{...roomForm, capacity: v}`). */
    method SetRoomCapacity(v: string)
      requires Valid()
      modifies this`roomForm
      ensures Valid() && roomForm == old(roomForm).(capacity := v)
    {
      roomForm := roomForm.(capacity := v);
    }

    /** The close button hides the dialog and keeps what was typed. */
    method CloseRoomModal()
      requires Valid()
      modifies this`showRoomModal
      ensures Valid()
      ensures !showRoomModal
    {
      showRoomModal := false;
    }

    /** What submitting the room form sends. */
    function RoomSaveRequest(): Request
      reads this
    {
      SaveRoomRequest(roomForm, editingRoomId)
    }

    /** After the save request: on success a blank form in creating mode, dialog closed; otherwise nothing changes. */
    method RoomSaved(ok: bool)
      requires Valid()
      modifies this`roomForm, this`editingRoomId, this`showRoomModal
      ensures Valid()
      ensures ok ==> roomForm == BlankRoomForm && editingRoomId == None && !showRoomModal
      ensures !ok ==>
        roomForm == old(roomForm) && editingRoomId == old(editingRoomId) && showRoomModal == old(showRoomModal)
    {
      if ok {
        roomForm, editingRoomId, showRoomModal := BlankRoomForm, None, false;
      }
    }

    // -------------------------------------------------------------------------
    // Booking form

    /** "+ Input Pengajuan" and the dashboard card: a blank form in creating mode. */
    method NewBooking()
      requires Valid()
      modifies this`editingBookingId, this`bookingForm, this`showBookingModal
      ensures Valid()
      ensures editingBookingId == None && bookingForm == BlankBookingForm && showBookingModal
    {
      editingBookingId, bookingForm, showBookingModal := None, BlankBookingForm, true;
    }

    /** The edit button of a booking: its fields in the form, timestamps cut at the first '.'. */
    method EditBooking(b: Booking)
      requires Valid()
      modifies this`editingBookingId, this`bookingForm, this`showBookingModal
      ensures Valid()
      ensures editingBookingId == Some(b.id) && bookingForm == BookingFormFrom(b) && showBookingModal
      ensures '.' !in bookingForm.bookingDate && '.' !in bookingForm.endTime
    {
      editingBookingId := Some(b.id);
      bookingForm := BookingFormFrom(b);
      showBookingModal := true;
    }

    /** Typing in the borrower name input. */
    method SetBorrowerName(v: string)
      requires Valid()
      modifies this`bookingForm
      ensures Valid() && bookingForm == old(bookingForm).(borrowerName := v)
    {
      bookingForm := bookingForm.(borrowerName := v);
    }

    /** Choosing a room in the room selector (its option value is the room id). */
    method SetBookingRoom(v: string)
      requires Valid()
      modifies this`bookingForm
      ensures Valid() && bookingForm == old(bookingForm).(roomId := v)
    {
      bookingForm := bookingForm.(roomId := v);
    }

    /** Editing the start date-time input. */
    method SetBookingDate(v: string)
      requires Valid()
      modifies this`bookingForm
      ensures Valid() && bookingForm == old(bookingForm).(bookingDate := v)
    {
      bookingForm := bookingForm.(bookingDate := v);
    }

    /** Editing the end date-time input. */
    method SetEndTime(v: string)
      requires Valid()
      modifies this`bookingForm
      ensures Valid() && bookingForm == old(bookingForm).(endTime := v)
    {
      bookingForm := bookingForm.(endTime := v);
    }

    method CloseBookingModal()
      requires Valid()
      modifies this`showBookingModal
      ensures Valid()
      ensures !showBookingModal
    {
      showBookingModal := false;
    }

    /** What submitting the booking form sends. */
    function BookingSaveRequest(): Request
      reads this
    {
      SaveBookingRequest(bookingForm, editingBookingId)
    }

    /**
      After the save request: on success a blank form in creating mode, dialog closed, and
      from the dashboard a switch to the bookings tab (with that tab's resets); otherwise
      nothing changes.
    */
    method BookingSaved(ok: bool)
      requires Valid()
      modifies this
      ensures Valid()
      ensures ok ==> bookingForm == BlankBookingForm && editingBookingId == None && !showBookingModal
      ensures ok && old(activeTab) == Beranda ==>
        activeTab == Peminjaman && searchQuery == "" && currentPage == 1 && sortOrder == Desc
      ensures !ok || old(activeTab) != Beranda ==>
        activeTab == old(activeTab) && searchQuery == old(searchQuery)
        && currentPage == old(currentPage) && sortOrder == old(sortOrder)
      ensures !ok ==>
        bookingForm == old(bookingForm) && editingBookingId == old(editingBookingId)
        && showBookingModal == old(showBookingModal)
      ensures rooms == old(rooms) && bookings == old(bookings) && itemsPerPage == old(itemsPerPage)
      ensures showRoomModal == old(showRoomModal) && historyModal == old(historyModal)
      ensures roomForm == old(roomForm) && editingRoomId == old(editingRoomId)
    {
      if ok {
        bookingForm, editingBookingId, showBookingModal := BlankBookingForm, None, false;
        if activeTab == Beranda {
          SelectTab(Peminjaman);
        }
      }
    }

    // -------------------------------------------------------------------------
    // History dialog

    method ShowHistory(b: Booking)
      requires Valid()
      modifies this`historyModal
      ensures Valid()
      ensures historyModal == Some(b)
    {
      historyModal := Some(b);
    }

    method CloseHistory()
      requires Valid()
      modifies this`historyModal
      ensures Valid()
      ensures historyModal == None
    {
      historyModal := None;
    }

    /** The lines the history dialog lists for the booking it shows. */
    function HistoryDialogLines(): seq<string>
      reads this
    {
      if historyModal.Some? then HistoryLines(historyModal.value.statusHistory) else []
    }
  }

  /**
    The table shows its "no data" row exactly when the page number lies past the page
    count, which a reload that shrinks the collection can bring about.
  */
  lemma ShownRowsEmptyIff(app: App, collate: (string, string) -> int, timeOf: string -> int)
    requires app.Valid()
    ensures app.activeTab == Ruangan ==>
      (app.VisibleRooms(collate) == [] <==> app.currentPage > app.TotalPages())
    ensures app.activeTab != Ruangan ==>
      (app.VisibleBookings(timeOf) == [] <==> app.currentPage > app.TotalPages())
  {
    var rs := SortRooms(FilterRooms(app.rooms, app.searchQuery), collate, app.sortOrder);
    var bs := SortBookings(FilterBookings(app.bookings, app.searchQuery), timeOf, app.sortOrder);
    PageEmptyIff(rs, app.currentPage, app.itemsPerPage);
    PageEmptyIff(bs, app.currentPage, app.itemsPerPage);
  }
}
