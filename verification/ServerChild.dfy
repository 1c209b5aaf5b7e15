/** One server child: its session and its request handlers, over the three files and an outgoing packet stream. */
module ServerChild {
  import opened Records
  import opened Operations
  import opened Filters
  import opened Text
  import opened Rooms
  import opened Bookings
  import opened Wire
  import opened Roles
  import opened Accounts
  import opened Privacy

  /** The structures a child writes to its socket. */
  datatype Packet = Head(operation: int, size: nat) | Body(record: Record)

  const ERROR_REPLY: seq<Packet> := [Head(OPCODE_ERROR, 0)]

  function BookingRecords(bs: seq<Booking>): (r: seq<Packet>)
    ensures |r| == |bs|
  {
    seq(|bs|, i requires 0 <= i < |bs| => Body(BookingRecord(bs[i])))
  }

  function RoomRecords(rs: seq<Room>): (r: seq<Packet>)
    ensures |r| == |rs|
  {
    seq(|rs|, i requires 0 <= i < |rs| => Body(RoomRecord(rs[i])))
  }

  function Packets(r: Reply): seq<Packet> {
    match r
    case Refused => ERROR_REPLY
    case RoomList(rooms) => [Head(OPCODE_OK, |rooms| * ROOM_SIZE)] + RoomRecords(rooms)
    case BookingList(bs) => [Head(OPCODE_OK, |bs| * BOOKING_SIZE)] + BookingRecords(bs)
    case OneBooking(b) => [Head(OPCODE_OK, BOOKING_SIZE), Body(BookingRecord(b))]
  }

  /** A reply carrying the record an operation returned, where id 0 means failure. */
  function RecordReply(b: Booking): seq<Packet> {
    if b.id == 0 then ERROR_REPLY else [Head(OPCODE_OK, BOOKING_SIZE), Body(BookingRecord(b))]
  }

  function UserReply(u: User): seq<Packet> {
    if u.username == "" then ERROR_REPLY else [Head(OPCODE_OK, USER_SIZE), Body(UserRecord(u))]
  }

  // ---------- requests and what they do, on values ----------

  datatype Creation = Cancelled | Wanted(booking: Booking, later: nat)

  datatype Call =
    | Listing(q: Request)
    | LoginCall(sent: Credentials)
    | SignupCall(sent: Credentials)
    | LogoutCall
    | CreateRoomCall(rawName: string)
    | CreateBookingCall(room: U32, answer: Creation)
    | ApproveCall(booking: Booking)
    | RejectCall(booking: Booking)
    | ForceCall(booking: Booking)

  function OpcodeOfCall(call: Call): int {
    match call
    case Listing(q) => OpcodeOf(q)
    case LoginCall(_) => OPCODE_LOGIN
    case SignupCall(_) => OPCODE_SIGNUP
    case LogoutCall => OPCODE_LOGOUT
    case CreateRoomCall(_) => OPCODE_CREATE_ROOM
    case CreateBookingCall(_, _) => OPCODE_CREATE_BOOKING
    case ApproveCall(_) => OPCODE_APPROVE_BOOKING
    case RejectCall(_) => OPCODE_REJECT_BOOKING
    case ForceCall(_) => OPCODE_FORCE_BOOKING_STATUS
  }

  datatype World = World(bookings: seq<Booking>, rooms: seq<Room>, users: seq<UserSave>, user: User)

  function Db(w: World): Database {
    Database(w.bookings, w.rooms)
  }

  /** The second half of a creation: the name is the session's, whatever the payload says. */
  function ServeCreate(w: World, booking: Booking, now: nat): (World, seq<Packet>) {
    var wanted := booking.(username := w.user.username);
    if RoomExists(w.rooms, wanted.room) && RespectsTimeRequirements(wanted, now) then
      var (after, created) := CreateIn(w.bookings, wanted);
      (w.(bookings := after), RecordReply(created))
    else (w, ERROR_REPLY)
  }

  function Perform(w: World, call: Call, now: nat): (World, seq<Packet>) {
    match call
    case Listing(q) => (w, Packets(Handled(Db(w), w.user, q, now)))
    case LoginCall(sent) =>
      var u := ServeLogin(w.users, sent);
      (if u.username != "" then w.(user := u) else w, UserReply(u))
    case SignupCall(sent) =>
      var (users, u) := ServeSignup(w.users, sent);
      (w.(users := users, user := if u.username != "" then u else w.user), UserReply(u))
    case LogoutCall => (w.(user := GUEST_USER), [Head(OPCODE_OK, 0)])
    case CreateRoomCall(rawName) =>
      var (rooms, created) := CreateRoomIn(w.rooms, rawName);
      (w.(rooms := rooms),
       if created.name == "" then ERROR_REPLY else [Head(OPCODE_OK, ROOM_SIZE), Body(RoomRecord(created))])
    case CreateBookingCall(room, answer) =>
      var preview := Handled(Db(w), w.user, CreatePreview(room), now);
      if preview.Refused? || answer.Cancelled? then (w, Packets(preview))
      else
        var (after, reply) := ServeCreate(w, answer.booking, answer.later);
        (after, Packets(preview) + reply)
    case ApproveCall(b) =>
      var (after, approved) := ApproveIn(w.bookings, b, now);
      (w.(bookings := after), RecordReply(approved))
    case RejectCall(b) =>
      var (after, rejected) := RejectIn(w.bookings, b.id, now);
      (w.(bookings := after), RecordReply(rejected))
    case ForceCall(b) =>
      if b.id == 0 || w.user.userType != SUPERUSER then (w, ERROR_REPLY)
      else
        var (after, forced) := ForceIn(w.bookings, b.id, b.status);
        (w.(bookings := after), RecordReply(forced))
  }

  /** Only creating a room under a free name needs the next room id to fit. */
  predicate RoomFits(call: Call, rooms: seq<Room>) {
    call.CreateRoomCall? ==> NextRoomIdFits(rooms) || NameTaken(rooms, Sanitize(call.rawName))
  }

  /** One turn of the dispatch loop. */
  function Serve(w: World, call: Call, now: nat): (World, seq<Packet>) {
    if Allowed(OpcodeOfCall(call), w.user.userType) then Perform(w, call, now) else (w, ERROR_REPLY)
  }

  // ---------- the child itself ----------

  class Child {
    var user: User
    var outbox: seq<Packet>
    const bookings: BookingFile
    const rooms: RoomFile
    const users: UserFile

    constructor (bookings: BookingFile, rooms: RoomFile, users: UserFile)
      ensures this.bookings == bookings && this.rooms == rooms && this.users == users
      ensures user == GUEST_USER && outbox == []
    {
      this.bookings, this.rooms, this.users := bookings, rooms, users;
      user, outbox := GUEST_USER, [];
    }

    ghost function Contents(): World
      reads this, bookings, rooms, users
    {
      World(bookings.records, rooms.records, users.records, user)
    }

    method SendError()
      modifies this`outbox
      ensures outbox == old(outbox) + ERROR_REPLY
    {
      outbox := outbox + [Head(OPCODE_ERROR, 0)];
    }

    method SendRecord(b: Booking)
      modifies this`outbox
      ensures outbox == old(outbox) + RecordReply(b)
    {
      if b.id <= 0 {
        SendError();
        return;
      }
      outbox := outbox + [Head(OPCODE_OK, BOOKING_SIZE)];
      outbox := outbox + [Body(BookingRecord(b))];
    }

    method SendUser(u: User)
      modifies this`outbox
      ensures outbox == old(outbox) + UserReply(u)
    {
      if u.username == "" {
        SendError();
        return;
      }
      outbox := outbox + [Head(OPCODE_OK, USER_SIZE)];
      outbox := outbox + [Body(UserRecord(u))];
    }

    /** Count pass, header, send pass: the tail of every booking list handler. */
    method ReplyWithList(f: Filter, shouldMask: bool, now: nat)
      modifies this`outbox, bookings`pos
      ensures outbox == old(outbox) + Packets(ListReply(Db(Contents()), user, f, shouldMask, now))
    {
      var clocks := Still(now, |bookings.records|);
      ghost var listed := ShownAll(Matching(bookings.records, f, clocks), shouldMask, user.username);
      ghost var before := outbox;
      assert ListReply(Db(Contents()), user, f, shouldMask, now) == BookingList(listed);
      var count := bookings.CountBookings(f, clocks);
      outbox := outbox + [Head(OPCODE_OK, count * BOOKING_SIZE)];
      // The socket takes every record: the announced count does not limit what is sent.
      var sent := bookings.SendBookings(f, clocks, shouldMask, user.username, |bookings.records|);
      assert sent == listed && count == |listed|;
      outbox := outbox + BookingRecords(sent);
      assert outbox == before + ([Head(OPCODE_OK, count * BOOKING_SIZE)] + BookingRecords(listed));
    }

    method HandleLogin(sent: Credentials)
      modifies this
      ensures Contents() == Perform(old(Contents()), LoginCall(sent), 0).0
      ensures outbox == old(outbox) + Perform(old(Contents()), LoginCall(sent), 0).1
    {
      var loggedIn := users.Login(SanitizeCredentials(sent));
      if loggedIn.username != "" {
        user := loggedIn;
      }
      SendUser(loggedIn);
    }

    method HandleSignup(sent: Credentials)
      modifies this, users
      ensures Contents() == Perform(old(Contents()), SignupCall(sent), 0).0
      ensures outbox == old(outbox) + Perform(old(Contents()), SignupCall(sent), 0).1
    {
      var c := SanitizeCredentials(sent);
      if |c.username| < NAME_MIN || |c.username| >= NAME_SIZE || |c.password| < NAME_MIN || |c.password| >= NAME_SIZE {
        SendError();
        return;
      }
      var signedUp := users.Signup(c, USER);
      if signedUp.username != "" {
        user := signedUp;
      }
      SendUser(signedUp);
    }

    method HandleLogout()
      modifies this
      ensures Contents() == old(Contents()).(user := GUEST_USER)
      ensures outbox == old(outbox) + [Head(OPCODE_OK, 0)]
    {
      user := GUEST_USER;
      outbox := outbox + [Head(OPCODE_OK, 0)];
    }

    method HandleCreateRoom(rawName: string)
      requires RoomFits(CreateRoomCall(rawName), rooms.records)
      modifies this`outbox, rooms
      ensures Contents() == Perform(old(Contents()), CreateRoomCall(rawName), 0).0
      ensures outbox == old(outbox) + Perform(old(Contents()), CreateRoomCall(rawName), 0).1
    {
      var created := rooms.CreateRoom(rawName);
      if created.name == "" {
        SendError();
        return;
      }
      outbox := outbox + [Head(OPCODE_OK, ROOM_SIZE)];
      outbox := outbox + [Body(RoomRecord(created))];
    }

    /** The lists of one room, refused if there is no such room. */
    method ReplyWithRoomList(room: U32, f: Filter, shouldMask: bool, now: nat)
      modifies this`outbox, bookings`pos
      ensures outbox == old(outbox)
        + Packets(if RoomExists(rooms.records, room) then ListReply(Db(Contents()), user, f, shouldMask, now)
                  else Refused)
    {
      var there := rooms.RoomIsThere(room);
      if !there {
        SendError();
        return;
      }
      ReplyWithList(f, shouldMask, now);
    }

    method ReplyWithBooking(id: U32)
      modifies this`outbox, bookings`pos
      ensures outbox == old(outbox) + Packets(Handled(Db(Contents()), user, BookingById(id), 0))
    {
      var found := bookings.FindFirstById(id);
      if found.id <= 0 || (user.userType != SUPERUSER && found.username != user.username) {
        SendError();
        return;
      }
      outbox := outbox + [Head(OPCODE_OK, BOOKING_SIZE)];
      outbox := outbox + [Body(BookingRecord(found))];
    }

    method HandleListing(q: Request, now: nat)
      modifies this`outbox, bookings`pos
      ensures outbox == old(outbox) + Packets(Handled(Db(Contents()), user, q, now))
    {
      var super := user.userType == SUPERUSER;
      match q {
        case ListRooms =>
          outbox := outbox + [Head(OPCODE_OK, |rooms.records| * ROOM_SIZE)];
          outbox := outbox + RoomRecords(rooms.records);
        case RoomBookings(room) => ReplyWithRoomList(room, RoomFromNow(room), !super, now);
        case OwnBookings => ReplyWithList(OwnFromNow(user.username), true, now);
        case BookingById(id) => ReplyWithBooking(id);
        case ByStatus(status) =>
          ReplyWithList(if super then StatusFromNow(status) else StatusFromNowOf(status, user.username), false, now);
        case ByRange(range) =>
          ReplyWithList(if super then InTimeRange(range) else InTimeRangeOf(range, user.username), false, now);
        case AllBookings => ReplyWithList(Any, false, now);
        case ByUsername(needle) => ReplyWithList(UsernameSubstringFromNow(needle), false, now);
        case CreatePreview(room) => ReplyWithRoomList(room, RoomFromNowNotRejected(room), true, now);
      }
    }

    /** `create_booking` with its two unlocked checks, and the reply. */
    method Create(booking: Booking, now: nat)
      modifies this`outbox, bookings
      ensures Contents() == ServeCreate(old(Contents()), booking, now).0
      ensures outbox == old(outbox) + ServeCreate(old(Contents()), booking, now).1
    {
      var wanted := booking.(username := user.username);
      var there := rooms.RoomIsThere(wanted.room);
      if !there || !RespectsTimeRequirements(wanted, now) {
        SendError();
        return;
      }
      var created := bookings.CreateBooking(wanted);
      SendRecord(created);
    }

    method HandleCreateBooking(room: U32, answer: Creation, now: nat)
      modifies this`outbox, bookings
      ensures Contents() == Perform(old(Contents()), CreateBookingCall(room, answer), now).0
      ensures outbox == old(outbox) + Perform(old(Contents()), CreateBookingCall(room, answer), now).1
    {
      ghost var w, before := Contents(), outbox;
      var there := rooms.RoomIsThere(room);
      HandleListing(CreatePreview(room), now);
      assert Contents() == w;
      if !there || answer.Cancelled? {
        return;
      }
      ghost var preview := Packets(Handled(Db(w), w.user, CreatePreview(room), now));
      Create(answer.booking, answer.later);
      assert outbox == before + (preview + ServeCreate(w, answer.booking, answer.later).1);
    }

    method HandleApprove(b: Booking, now: nat)
      modifies this`outbox, bookings
      ensures Contents() == Perform(old(Contents()), ApproveCall(b), now).0
      ensures outbox == old(outbox) + Perform(old(Contents()), ApproveCall(b), now).1
    {
      var approved := bookings.ApproveBooking(b, now);
      SendRecord(approved);
    }

    method HandleReject(b: Booking, now: nat)
      modifies this`outbox, bookings
      ensures Contents() == Perform(old(Contents()), RejectCall(b), now).0
      ensures outbox == old(outbox) + Perform(old(Contents()), RejectCall(b), now).1
    {
      var rejected, at := bookings.RejectBooking(b.id, Still(now, |bookings.records|));
      SendRecord(rejected);
    }

    method HandleForce(b: Booking)
      modifies this`outbox, bookings
      ensures Contents() == Perform(old(Contents()), ForceCall(b), 0).0
      ensures outbox == old(outbox) + Perform(old(Contents()), ForceCall(b), 0).1
    {
      if b.id <= 0 || user.userType != SUPERUSER {
        SendError();
        return;
      }
      var forced := bookings.ForceBookingStatus(b.id, b.status);
      SendRecord(forced);
    }

    /** The body of the dispatch loop: the role check, then the handler. */
    method Dispatch(call: Call, now: nat)
      requires RoomFits(call, rooms.records)
      modifies this, bookings, rooms, users
      ensures Contents() == Serve(old(Contents()), call, now).0
      ensures outbox == old(outbox) + Serve(old(Contents()), call, now).1
    {
      var valid := IsValidOpcodeForUserByType(OpcodeOfCall(call), user.userType);
      if !valid {
        SendError();
        return;
      }
      match call {
        case Listing(q) => HandleListing(q, now);
        case LoginCall(sent) => HandleLogin(sent);
        case SignupCall(sent) => HandleSignup(sent);
        case LogoutCall => HandleLogout();
        case CreateRoomCall(rawName) => HandleCreateRoom(rawName);
        case CreateBookingCall(room, answer) => HandleCreateBooking(room, answer, now);
        case ApproveCall(b) => HandleApprove(b, now);
        case RejectCall(b) => HandleReject(b, now);
        case ForceCall(b) => HandleForce(b);
      }
    }
  }
}
