/**
  The create-or-update decision of the two edit forms, the form pre-fill from a record,
  and the other write requests, as values: the HTTP exchange itself is not modelled.
*/
module Requests {
  import opened Common
  import opened Text
  import opened Records

  datatype Method = Post | Put | Delete

  /** JSON bodies. A `None` number is what `parseInt` makes of text without digits (`NaN`). */
  datatype Body =
    | NoBody
    | RoomBody(name: string, capacity: Option<int>, description: string)
    | BookingBody(roomId: Option<int>, borrowerName: string, bookingDate: string, endTime: string)
    | StatusBody(status: string)

  datatype Request = Request(verb: Method, url: string, body: Body)

  /** The room form's text fields. */
  datatype RoomForm = RoomForm(name: string, capacity: string, description: string)

  /** The booking form's text fields. */
  datatype BookingForm = BookingForm(roomId: string, borrowerName: string, bookingDate: string, endTime: string)

  const RoomsUrl := "http://localhost:5157/api/Rooms"
  const BookingsUrl := "http://localhost:5157/api/Bookings"

  /** Every saved room gets this description, whatever the form holds. */
  const DefaultDescription := "Ruangan Kampus"

  const BlankRoomForm := RoomForm("", "", "")
  const BlankBookingForm := BookingForm("", "", "", "")

  /** `editingId ? … : …`: JavaScript truthiness, so both `null` and id `0` mean "creating". */
  predicate IsEditing(editingId: Option<int>) {
    editingId.Some? && editingId.value != 0
  }

  /** `` `${base}/${id}` ``. */
  function RecordUrl(base: string, id: int): string {
    base + "/" + IntToString(id)
  }

  /** A record URL names exactly one record, and is never the collection URL. */
  lemma RecordUrlIdentifies(base: string, a: int, b: int)
    ensures RecordUrl(base, a) == RecordUrl(base, b) <==> a == b
    ensures RecordUrl(base, a) != base
  {
    if RecordUrl(base, a) == RecordUrl(base, b) {
      assert RecordUrl(base, a)[|base| + 1..] == IntToString(a);
      assert RecordUrl(base, b)[|base| + 1..] == IntToString(b);
      IntToStringInjective(a, b);
    }
  }

  // ---------------------------------------------------------------------------
  // Saving

  /** `handleSaveRoom`'s request: PUT to the record when editing, POST to the collection otherwise. */
  function SaveRoomRequest(form: RoomForm, editingId: Option<int>): (r: Request)
    ensures r.verb == Put <==> IsEditing(editingId)
    ensures r.verb == Put || r.verb == Post
    ensures r.url == if IsEditing(editingId) then RecordUrl(RoomsUrl, editingId.value) else RoomsUrl
    ensures r.body.RoomBody? && r.body.name == form.name && r.body.description == DefaultDescription
    ensures r.body.capacity == ParseInt(form.capacity)
  {
    var url := if IsEditing(editingId) then RecordUrl(RoomsUrl, editingId.value) else RoomsUrl;
    var verb := if IsEditing(editingId) then Put else Post;
    Request(verb, url, RoomBody(form.name, ParseInt(form.capacity), DefaultDescription))
  }

  /** `handleSaveBooking`'s request, decided the same way. */
  function SaveBookingRequest(form: BookingForm, editingId: Option<int>): (r: Request)
    ensures r.verb == Put <==> IsEditing(editingId)
    ensures r.verb == Put || r.verb == Post
    ensures r.url == if IsEditing(editingId) then RecordUrl(BookingsUrl, editingId.value) else BookingsUrl
    ensures r.body == BookingBody(ParseInt(form.roomId), form.borrowerName, form.bookingDate, form.endTime)
  {
    var url := if IsEditing(editingId) then RecordUrl(BookingsUrl, editingId.value) else BookingsUrl;
    var verb := if IsEditing(editingId) then Put else Post;
    Request(verb, url, BookingBody(ParseInt(form.roomId), form.borrowerName, form.bookingDate, form.endTime))
  }

  // ---------------------------------------------------------------------------
  // Pre-filling

  /** `s.split('.')[0]`: a timestamp cut before its fractional seconds. */
  function BeforeFirstDot(s: string): (r: string)
    ensures '.' !in r && IsPrefix(r, s)
    ensures |r| < |s| ==> s[|r|] == '.'
  {
    FirstPiece(s, '.');
    Split(s, '.')[0]
  }

  /** `handleEditRoomClick`'s form. */
  function RoomFormFrom(r: Room): RoomForm {
    RoomForm(r.name, IntToString(r.capacity), r.description)
  }

  /** `handleEditBookingClick`'s form: both timestamps cut at the first '.'. */
  function BookingFormFrom(b: Booking): BookingForm {
    BookingForm(IntToString(b.roomId), b.borrowerName, BeforeFirstDot(b.bookingDate), BeforeFirstDot(b.endTime))
  }

  /**
    Editing a room and saving it unchanged sends its name and capacity back to its own
    URL (by PUT unless its id is 0), with the fixed description.
  */
  lemma EditRoomUnchanged(r: Room)
    ensures SaveRoomRequest(RoomFormFrom(r), Some(r.id)) ==
      Request(if r.id != 0 then Put else Post,
              if r.id != 0 then RecordUrl(RoomsUrl, r.id) else RoomsUrl,
              RoomBody(r.name, Some(r.capacity), DefaultDescription))
  {
    ParseIntOfIntToString(r.capacity);
  }

  /**
    Editing a booking and saving it unchanged sends its room id and borrower back, with
    both timestamps truncated before the first '.'.
  */
  lemma EditBookingUnchanged(b: Booking)
    ensures SaveBookingRequest(BookingFormFrom(b), Some(b.id)) ==
      Request(if b.id != 0 then Put else Post,
              if b.id != 0 then RecordUrl(BookingsUrl, b.id) else BookingsUrl,
              BookingBody(Some(b.roomId), b.borrowerName, BeforeFirstDot(b.bookingDate), BeforeFirstDot(b.endTime)))
  {
    ParseIntOfIntToString(b.roomId);
  }

  /** Truncating is idempotent and leaves a timestamp without '.' as it is. */
  lemma BeforeFirstDotStable(s: string)
    ensures BeforeFirstDot(BeforeFirstDot(s)) == BeforeFirstDot(s)
    ensures '.' !in s ==> BeforeFirstDot(s) == s
  {
  }

  // ---------------------------------------------------------------------------
  // Other writes

  /** `handleUpdateStatus`. */
  function StatusRequest(bookingId: int, status: string): Request {
    Request(Put, RecordUrl(BookingsUrl, bookingId) + "/status", StatusBody(status))
  }

  function DeleteRoomRequest(id: int): Request {
    Request(Delete, RecordUrl(RoomsUrl, id), NoBody)
  }

  function DeleteBookingRequest(id: int): Request {
    Request(Delete, RecordUrl(BookingsUrl, id), NoBody)
  }

  /**
    The verification buttons of a booking's row: for a pending booking Approve, then
    Reject, each a PUT of that status to the booking's own status URL; none otherwise.
  */
  function VerifyActions(b: Booking): (actions: seq<Request>)
    ensures |actions| > 0 <==> b.status == "Pending"
    ensures b.status == "Pending" ==> |actions| == 2
    ensures forall i :: 0 <= i < |actions| ==>
      && actions[i].verb == Put
      && actions[i].url == RecordUrl(BookingsUrl, b.id) + "/status"
      && actions[i].body.StatusBody?
    ensures |actions| == 2 ==>
      actions[0].body == StatusBody("Approved") && actions[1].body == StatusBody("Rejected")
  {
    if b.status == "Pending" then [StatusRequest(b.id, "Approved"), StatusRequest(b.id, "Rejected")] else []
  }

  /** The buttons of two pending bookings send the same requests exactly when the bookings share an id. */
  lemma VerifyActionsTargetBooking(a: Booking, b: Booking)
    requires a.status == "Pending" && b.status == "Pending"
    ensures VerifyActions(a) == VerifyActions(b) <==> a.id == b.id
  {
    WritesTargetOneRecord(a.id, b.id, "Approved");
    if VerifyActions(a) == VerifyActions(b) {
      assert VerifyActions(a)[0] == VerifyActions(b)[0];
    }
  }

  /** Distinct records get distinct write requests. */
  lemma WritesTargetOneRecord(a: int, b: int, status: string)
    ensures DeleteRoomRequest(a) == DeleteRoomRequest(b) <==> a == b
    ensures DeleteBookingRequest(a) == DeleteBookingRequest(b) <==> a == b
    ensures StatusRequest(a, status) == StatusRequest(b, status) <==> a == b
  {
    RecordUrlIdentifies(RoomsUrl, a, b);
    RecordUrlIdentifies(BookingsUrl, a, b);
    if StatusRequest(a, status) == StatusRequest(b, status) {
      var ua, ub := RecordUrl(BookingsUrl, a), RecordUrl(BookingsUrl, b);
      assert ua + "/status" == ub + "/status";
      assert |ua| == |ub| ==> ua == (ua + "/status")[..|ua|] == (ub + "/status")[..|ub|] == ub;
      assert |ua| == |ub|;
    }
  }
}
