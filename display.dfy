/** Values the tables and the dashboard derive from the records. */
module Display {
  import opened Common
  import opened Text
  import opened Seqs
  import opened Records

  // ---------------------------------------------------------------------------
  // Room label of a booking

  /** Room `i` is the first room whose id is `id`. */
  predicate IsFirstWithId(rooms: seq<Room>, i: int, id: int) {
    0 <= i < |rooms| && rooms[i].id == id && forall j :: 0 <= j < i ==> rooms[j].id != id
  }

  /** `rooms.find(r => r.id === id)`. */
  function FindRoom(rooms: seq<Room>, id: int): (r: Option<Room>)
    ensures r.None? <==> forall i :: 0 <= i < |rooms| ==> rooms[i].id != id
    ensures r.Some? ==> exists i :: IsFirstWithId(rooms, i, id) && rooms[i] == r.value
  {
    if rooms == [] then None
    else if rooms[0].id == id then
      assert IsFirstWithId(rooms, 0, id);
      Some(rooms[0])
    else
      var r := FindRoom(rooms[1..], id);
      if r.Some? then
        var i :| IsFirstWithId(rooms[1..], i, id) && rooms[1..][i] == r.value;
        assert IsFirstWithId(rooms, i + 1, id);
        r
      else
        r
  }

  function FallbackLabel(roomId: int): string {
    "Ruang #" + IntToString(roomId)
  }

  /**
    `rooms.find(r => r.id === roomId)?.name || "Ruang #" + roomId`: the name of the first
    room with that id, or the placeholder when there is none or its name is empty.
  */
  function RoomLabel(rooms: seq<Room>, roomId: int): (shown: string)
    ensures (forall i :: 0 <= i < |rooms| ==> rooms[i].id != roomId) ==> shown == FallbackLabel(roomId)
    ensures forall i :: IsFirstWithId(rooms, i, roomId) ==>
      shown == if rooms[i].name != "" then rooms[i].name else FallbackLabel(roomId)
  {
    match FindRoom(rooms, roomId)
    case Some(r) => if r.name != "" then r.name else FallbackLabel(roomId)
    case None => FallbackLabel(roomId)
  }

  /** A booking whose room has been deleted is shown as "Ruang #<id>". */
  lemma DeletedRoomLabel(rooms: seq<Room>)
    requires forall i :: 0 <= i < |rooms| ==> rooms[i].id != 3
    ensures RoomLabel(rooms, 3) == "Ruang #3"
  {
    assert IntToString(3) == "3";
  }

  // ---------------------------------------------------------------------------
  // Status history

  const NoHistoryNote := "Tidak ada catatan."

  /** `statusHistory ? statusHistory.split('\n') : []`; a missing or empty log has no lines. */
  function HistoryLines(history: Option<string>): seq<string> {
    if history.Some? && history.value != "" then Split(history.value, '\n') else []
  }

  /** The last line of the log, or the "no notes" text when there are no lines. */
  function LastHistory(history: Option<string>): string {
    var lines := HistoryLines(history);
    if |lines| > 0 then lines[|lines| - 1] else NoHistoryNote
  }

  /** The log's lines contain no newline and, joined with newlines, give back the log. */
  lemma HistoryLinesSpec(history: Option<string>)
    ensures history.None? || history.value == "" ==> HistoryLines(history) == []
    ensures history.Some? && history.value != "" ==>
      var lines := HistoryLines(history);
      && |lines| >= 1
      && (forall i :: 0 <= i < |lines| ==> '\n' !in lines[i])
      && Join(lines, '\n') == history.value
  {
    if history.Some? && history.value != "" {
      JoinSplit(history.value, '\n');
    }
  }

  /**
    The "last history" cell: the note for a missing or empty log, otherwise the text
    after the log's last newline (the whole log when it has none).
  */
  lemma LastHistorySpec(history: Option<string>)
    ensures history.None? || history.value == "" ==> LastHistory(history) == NoHistoryNote
    ensures history.Some? && history.value != "" ==>
      var h, r := history.value, LastHistory(history);
      && '\n' !in r
      && |r| <= |h| && h[|h| - |r|..] == r
      && (|r| < |h| ==> h[|h| - |r| - 1] == '\n')
  {
    if history.Some? && history.value != "" {
      LastPiece(history.value, '\n');
    }
  }

  // ---------------------------------------------------------------------------
  // Dashboard counts

  predicate IsPending(b: Booking) {
    b.status == "Pending"
  }

  /** `b.statusHistory && b.statusHistory.length > 0`. */
  predicate HasHistory(b: Booking) {
    b.statusHistory.Some? && |b.statusHistory.value| > 0
  }

  datatype Stats = Stats(totalRooms: nat, totalBookings: nat, pendingBookings: nat, totalHistory: nat)

  function Dashboard(rooms: seq<Room>, bookings: seq<Booking>): Stats {
    Stats(|rooms|, |bookings|, |Filter(bookings, IsPending)|, |Filter(bookings, HasHistory)|)
  }

  /**
    Each count adds up booking by booking: a booking contributes one to "pending"
    exactly when its status is "Pending", and one to "history" exactly when it has a
    non-empty log; so neither exceeds the number of bookings.
  */
  lemma DashboardCounts(rooms: seq<Room>, a: seq<Booking>, b: seq<Booking>, x: Booking)
    ensures Dashboard(rooms, a + b).pendingBookings ==
      Dashboard(rooms, a).pendingBookings + Dashboard(rooms, b).pendingBookings
    ensures Dashboard(rooms, a + b).totalHistory ==
      Dashboard(rooms, a).totalHistory + Dashboard(rooms, b).totalHistory
    ensures Dashboard(rooms, [x]).pendingBookings == if IsPending(x) then 1 else 0
    ensures Dashboard(rooms, [x]).totalHistory == if HasHistory(x) then 1 else 0
    ensures Dashboard(rooms, a).pendingBookings <= Dashboard(rooms, a).totalBookings
    ensures Dashboard(rooms, a).totalHistory <= Dashboard(rooms, a).totalBookings
  {
    FilterConcat(a, b, IsPending);
    FilterConcat(a, b, HasHistory);
    assert [x][1..] == [];
  }
}
