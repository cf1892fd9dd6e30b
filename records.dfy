/** The records the component receives from the booking API, and its view-state enumerations. */
module Records {
  import opened Common

  datatype Room = Room(id: int, name: string, description: string, capacity: int)

  /**
    A booking. `statusHistory` is the server's newline-joined log; `None` stands for a
    missing (`null`/`undefined`) field, which the component guards against.
  */
  datatype Booking = Booking(
    id: int,
    roomId: int,
    borrowerName: string,
    bookingDate: string,
    endTime: string,
    status: string,
    statusHistory: Option<string>)

  /** The shared sort control: `'asc'` or `'desc'`. */
  datatype Order = Asc | Desc

  /** The four tabs: dashboard, rooms, bookings and status history. */
  datatype Tab = Beranda | Ruangan | Peminjaman | Riwayat
}
