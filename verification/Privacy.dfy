/** The replies to the listing requests, and what they give away. */
module Privacy {
  import opened Records
  import opened Operations
  import opened Filters
  import opened Roles

  datatype Request =
    | ListRooms
    | RoomBookings(room: U32)
    | OwnBookings
    | BookingById(id: U32)
    | ByStatus(status: int)
    | ByRange(range: TimeRange)
    | AllBookings
    | ByUsername(needle: string)
    | CreatePreview(room: U32)

  /** The reply as the client sees it, names being C strings. */
  datatype Reply =
    | Refused
    | RoomList(rooms: seq<Room>)
    | BookingList(bookings: seq<Booking>)
    | OneBooking(booking: Booking)

  datatype Database = Database(bookings: seq<Booking>, rooms: seq<Room>)

  function OpcodeOf(q: Request): int {
    match q
    case ListRooms => OPCODE_ROOMS_LIST
    case RoomBookings(_) => OPCODE_BOOKINGS_LIST_BY_ROOM_ID
    case OwnBookings => OPCODE_USERS_BOOKINGS_LIST
    case BookingById(_) => OPCODE_BOOKINGS_LIST_BY_BOOKING_ID
    case ByStatus(_) => OPCODE_BOOKINGS_LIST_BY_STATUS
    case ByRange(_) => OPCODE_BOOKINGS_LIST_BY_TIME_RANGE
    case AllBookings => OPCODE_BOOKINGS_LIST_SUPERUSER
    case ByUsername(_) => OPCODE_BOOKINGS_LIST_BY_USERNAME
    case CreatePreview(_) => OPCODE_CREATE_BOOKING
  }

  function ListReply(db: Database, user: User, f: Filter, shouldMask: bool, now: nat): Reply {
    BookingList(ShownAll(Matching(db.bookings, f, Still(now, |db.bookings|)), shouldMask, user.username))
  }

  /** What the handler answers once the role check has passed. */
  function Handled(db: Database, user: User, q: Request, now: nat): Reply {
    var super := user.userType == SUPERUSER;
    match q
    case ListRooms => RoomList(db.rooms)
    case RoomBookings(room) =>
      if RoomExists(db.rooms, room) then ListReply(db, user, RoomFromNow(room), !super, now) else Refused
    case OwnBookings => ListReply(db, user, OwnFromNow(user.username), true, now)
    case BookingById(id) =>
      var found := FindFirst(db.bookings, id);
      if found.id == 0 || (!super && found.username != user.username) then Refused else OneBooking(found)
    case ByStatus(status) =>
      ListReply(db, user, if super then StatusFromNow(status) else StatusFromNowOf(status, user.username), false, now)
    case ByRange(range) =>
      ListReply(db, user, if super then InTimeRange(range) else InTimeRangeOf(range, user.username), false, now)
    case AllBookings => ListReply(db, user, Any, false, now)
    case ByUsername(needle) => ListReply(db, user, UsernameSubstringFromNow(needle), false, now)
    case CreatePreview(room) =>
      if RoomExists(db.rooms, room) then ListReply(db, user, RoomFromNowNotRejected(room), true, now) else Refused
  }

  function Answer(db: Database, user: User, q: Request, now: nat): Reply {
    if Allowed(OpcodeOf(q), user.userType) then Handled(db, user, q, now) else Refused
  }

  // ---------- two databases a user must not be able to tell apart ----------

  /** Equal if it is this user's booking; otherwise only the other owner's name and the id may differ. */
  predicate Alike(a: Booking, b: Booking, name: string) {
    if a.username == name || b.username == name then a == b
    else a.room == b.room && a.start == b.start && a.end == b.end && a.status == b.status
  }

  predicate AllAlike(xs: seq<Booking>, ys: seq<Booking>, name: string) {
    |xs| == |ys| && forall i :: 0 <= i < |xs| ==> Alike(xs[i], ys[i], name)
  }

  predicate Indistinguishable(db1: Database, db2: Database, name: string) {
    && db1.rooms == db2.rooms
    && UniqueIds(db1.bookings) && UniqueIds(db2.bookings)
    && AllAlike(db1.bookings, db2.bookings, name)
  }

  /** On alike records the filter decides alike and shows the same. */
  ghost predicate Blind(f: Filter, shouldMask: bool, name: string, now: nat) {
    forall a, b :: Alike(a, b, name) ==>
      && (Matches(f, a, now) <==> Matches(f, b, now))
      && (Matches(f, a, now) ==> Shown(a, shouldMask, name) == Shown(b, shouldMask, name))
  }

  function ListedFor(rs: seq<Booking>, f: Filter, shouldMask: bool, name: string, now: nat): seq<Booking> {
    ShownAll(Matching(rs, f, Still(now, |rs|)), shouldMask, name)
  }

  lemma ListedSnoc(rs: seq<Booking>, f: Filter, shouldMask: bool, name: string, now: nat)
    requires rs != []
    ensures var n := |rs| - 1;
      ListedFor(rs, f, shouldMask, name, now)
      == ListedFor(rs[..n], f, shouldMask, name, now)
         + if Matches(f, rs[n], now) then [Shown(rs[n], shouldMask, name)] else []
  {
    var n := |rs| - 1;
    assert Still(now, |rs|)[..n] == Still(now, n);
  }

  lemma {:induction false} BlindListsAgree(xs: seq<Booking>, ys: seq<Booking>, f: Filter, shouldMask: bool,
                                           name: string, now: nat)
    requires AllAlike(xs, ys, name) && Blind(f, shouldMask, name, now)
    ensures ListedFor(xs, f, shouldMask, name, now) == ListedFor(ys, f, shouldMask, name, now)
  {
    if xs != [] {
      var n := |xs| - 1;
      BlindListsAgree(xs[..n], ys[..n], f, shouldMask, name, now);
      assert Alike(xs[n], ys[n], name);
      ListedSnoc(xs, f, shouldMask, name, now);
      ListedSnoc(ys, f, shouldMask, name, now);
    }
  }

  lemma MaskedFiltersAreBlind(f: Filter, name: string, now: nat)
    requires f.RoomFromNow? || f.RoomFromNowNotRejected?
    ensures Blind(f, true, name, now)
  {}

  lemma OwnFiltersAreBlind(f: Filter, shouldMask: bool, name: string, now: nat)
    requires f.OwnFromNow? || f.InTimeRangeOf? || f.StatusFromNowOf?
    requires f.username == name
    ensures Blind(f, shouldMask, name, now)
  {}

  lemma IdRepliesAgree(db1: Database, db2: Database, user: User, id: U32, now: nat)
    requires user.userType != SUPERUSER && Indistinguishable(db1, db2, user.username)
    ensures Handled(db1, user, BookingById(id), now) == Handled(db2, user, BookingById(id), now)
  {}

  /** Privacy: two databases that differ only in names and ids of bookings of others get a guest or an ordinary user the
      same reply to every listing request and to the preview before creating a booking. */
  lemma OthersStayAnonymous(db1: Database, db2: Database, user: User, q: Request, now: nat)
    requires user.userType == GUEST || user.userType == USER
    requires Indistinguishable(db1, db2, user.username)
    ensures Answer(db1, user, q, now) == Answer(db2, user, q, now)
  {
    var xs, ys, name := db1.bookings, db2.bookings, user.username;
    if Allowed(OpcodeOf(q), user.userType) {
      match q {
        case ListRooms =>
        case RoomBookings(room) =>
          MaskedFiltersAreBlind(RoomFromNow(room), name, now);
          BlindListsAgree(xs, ys, RoomFromNow(room), true, name, now);
        case OwnBookings =>
          OwnFiltersAreBlind(OwnFromNow(name), true, name, now);
          BlindListsAgree(xs, ys, OwnFromNow(name), true, name, now);
        case BookingById(id) => IdRepliesAgree(db1, db2, user, id, now);
        case ByStatus(status) =>
          OwnFiltersAreBlind(StatusFromNowOf(status, name), false, name, now);
          BlindListsAgree(xs, ys, StatusFromNowOf(status, name), false, name, now);
        case ByRange(range) =>
          OwnFiltersAreBlind(InTimeRangeOf(range, name), false, name, now);
          BlindListsAgree(xs, ys, InTimeRangeOf(range, name), false, name, now);
        case CreatePreview(room) =>
          MaskedFiltersAreBlind(RoomFromNowNotRejected(room), name, now);
          BlindListsAgree(xs, ys, RoomFromNowNotRejected(room), true, name, now);
      }
    }
  }

  /** Neither id nor name is given away. */
  predicate Anonymous(b: Booking) {
    b.id == 0 && b.username == MASKED_NAME
  }

  /** A room's list gives a guest or an ordinary user no stored id or name if and only if it holds no booking under the
      viewer's own name.  For guests, who are all called "guest": if and only if nobody signed up under that name has a
      booking listed. */
  lemma RoomListsAreAnonymousExactly(db: Database, user: User, room: U32, now: nat)
    requires user.userType == GUEST || user.userType == USER
    requires RoomExists(db.rooms, room) && user.username != MASKED_NAME
    ensures var listed := Matching(db.bookings, RoomFromNow(room), Still(now, |db.bookings|));
      var reply := Answer(db, user, RoomBookings(room), now);
      && reply.BookingList? && |reply.bookings| == |listed|
      && ((forall i :: 0 <= i < |listed| ==> Anonymous(reply.bookings[i])) <==>
          (forall i :: 0 <= i < |listed| ==> listed[i].username != user.username))
  {
    var listed := Matching(db.bookings, RoomFromNow(room), Still(now, |db.bookings|));
    var reply := Answer(db, user, RoomBookings(room), now);
    assert Allowed(OPCODE_BOOKINGS_LIST_BY_ROOM_ID, user.userType) by {
      assert GUEST_OPCODES[3] == USER_OPCODES[3] == OPCODE_BOOKINGS_LIST_BY_ROOM_ID;
    }
    assert forall i :: 0 <= i < |listed| ==> (Anonymous(reply.bookings[i]) <==> listed[i].username != user.username);
  }

  /** The masking is what does it: an administrator asking for all bookings tells any two different files apart. */
  lemma AdministratorsSeeAll(db1: Database, db2: Database, user: User, now: nat)
    requires user.userType == SUPERUSER
    ensures Answer(db1, user, AllBookings, now) == Answer(db2, user, AllBookings, now) <==> db1.bookings == db2.bookings
  {
    AnyMatchesAll(db1.bookings, now, user.username);
    AnyMatchesAll(db2.bookings, now, user.username);
  }

  lemma {:induction false} AnyMatchesAll(rs: seq<Booking>, now: nat, viewer: string)
    ensures ListedFor(rs, Any, false, viewer, now) == rs
  {
    if rs != [] {
      AnyMatchesAll(rs[..|rs| - 1], now, viewer);
      ListedSnoc(rs, Any, false, viewer, now);
    }
  }
}
