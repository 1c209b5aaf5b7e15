/** The records kept in the three data files, and the pure tests on them. */
module Records {

  type Byte = n: int | 0 <= n < 0x100
  type U32 = n: int | 0 <= n < 0x1_0000_0000
  type U64 = n: int | 0 <= n < 0x1_0000_0000_0000_0000

  const U32_MAX: U32 := 0xFFFF_FFFF

  // Booking statuses.  A status is one byte, so a forced status may be any byte.
  const PENDING: Byte := 0
  const APPROVED: Byte := 1
  const REJECTED: Byte := 2

  const BOOKING_TIME_SLOT_SECONDS := 3600

  // User types.
  const GUEST: Byte := 0
  const USER: Byte := 1
  const SUPERUSER: Byte := 2

  datatype Booking = Booking(id: U32, room: U32, username: string, start: U64, end: U64, status: Byte)

  datatype Room = Room(id: U32, name: string)

  datatype TimeRange = TimeRange(start: U64, end: U64)

  datatype User = User(username: string, userType: Byte)

  /** What a failing operation returns: the all-zero record. */
  const ZERO_BOOKING := Booking(0, 0, "", 0, 0, PENDING)

  predicate InSameTimeSlot(start1: U64, end1: U64, start2: U64, end2: U64) {
    start1 < end2 && start2 < end1
  }

  predicate Overlap(a: Booking, b: Booking) {
    InSameTimeSlot(a.start, a.end, b.start, b.end)
  }

  /** Same room and overlapping in time: the two bookings cannot both take place. */
  predicate Clash(a: Booking, b: Booking) {
    a.room == b.room && Overlap(a, b)
  }

  predicate IsConflict(a: Booking, b: Booking) {
    && a.status != REJECTED && b.status != REJECTED
    && Clash(a, b)
    && (a.status == APPROVED || b.status == APPROVED || a.username == b.username)
  }

  /** Non-empty and a whole number of slots long. */
  predicate WholeSlots(b: Booking) {
    b.start < b.end && (b.end - b.start) % BOOKING_TIME_SLOT_SECONDS == 0
  }

  predicate RespectsTimeRequirements(b: Booking, now: nat) {
    WholeSlots(b) && now <= b.start
  }

  predicate InPast(b: Booking, now: nat) {
    b.end < now
  }

  /** Equal in every field but the status. */
  predicate SameButStatus(a: Booking, b: Booking) {
    a.(status := 0) == b.(status := 0)
  }

  predicate UniqueIds(rs: seq<Booking>) {
    forall i, j :: 0 <= i < j < |rs| ==> rs[i].id != rs[j].id
  }

  predicate NonZeroIds(rs: seq<Booking>) {
    forall i :: 0 <= i < |rs| ==> rs[i].id != 0
  }

  /** The later file extends the earlier one and differs from it in statuses only. */
  predicate Extends(earlier: seq<Booking>, later: seq<Booking>) {
    && |earlier| <= |later|
    && forall i :: 0 <= i < |earlier| ==> SameButStatus(earlier[i], later[i])
  }

  predicate RoomExists(rooms: seq<Room>, id: U32) {
    exists i :: 0 <= i < |rooms| && rooms[i].id == id
  }
}
