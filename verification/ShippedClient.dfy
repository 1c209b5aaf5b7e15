/** The shipped client: its command loop's role check and its handlers, each sending a request to its child and reading
    the reply from the child's stream.  Here the child answers at once; `Dialogue` treats the two sides' independent
    steps. */
module ShippedClient {
  import opened Records
  import opened Wire
  import opened Roles
  import opened Privacy
  import opened ServerChild

  predicate IsListCall(call: Call) {
    call.Listing? && IsListOpcode(OpcodeOf(call.q))
  }

  predicate ReadsOneRecord(call: Call) {
    || call.CreateRoomCall? || call.ApproveCall? || call.RejectCall? || call.ForceCall?
    || (call.Listing? && call.q.BookingById?)
  }

  /** An error header, or a header and exactly the records it announces. */
  predicate Announced(call: Call, reply: seq<Packet>) {
    || reply == ERROR_REPLY
    || (reply != [] && reply[0] == Head(OPCODE_OK, (|reply| - 1) * RecordSize(OpcodeOfCall(call)))
        && (IsListCall(call) || |reply| == 2)
        && forall i :: 1 <= i < |reply| ==> !reply[i].Head?)
  }

  lemma ListingsAreWhole(reply: Reply, call: Call)
    requires call.Listing? && !call.q.CreatePreview?
    requires reply.Refused? || (if call.q.BookingById? then reply.OneBooking?
                                else if call.q.ListRooms? then reply.RoomList? else reply.BookingList?)
    ensures Announced(call, Packets(reply))
  {}

  /** What each handler insists on is what the child's handlers deliver. */
  lemma RepliesAreWhole(w: World, call: Call, now: nat)
    requires IsListCall(call) || ReadsOneRecord(call) || call.LoginCall? || call.SignupCall?
    ensures Announced(call, Perform(w, call, now).1)
  {
    if call.Listing? {
      ListingsAreWhole(Handled(Db(w), w.user, call.q, now), call);
    }
  }

  lemma SignInReplies(w: World, call: Call, now: nat)
    requires call.LoginCall? || call.SignupCall?
    ensures var (after, reply) := Perform(w, call, now);
      (|reply| == 1 && after.user == w.user) || (|reply| == 2 && reply[1] == Body(UserRecord(after.user)))
  {}

  lemma CreationsAreWhole(w: World, room: U32, answer: Creation, now: nat, booking: Booking, later: nat)
    ensures Announced(CreateBookingCall(room, answer), ServeCreate(w, booking, later).1)
  {}

  /** The two phases of a creation as they follow each other in the child's stream. */
  lemma CreationStream(w: World, room: U32, answer: Creation, now: nat)
    ensures var preview := Handled(Db(w), w.user, CreatePreview(room), now);
      && (preview.Refused? <==> !RoomExists(w.rooms, room)) && (preview.Refused? || preview.BookingList?)
      && Perform(w, CreateBookingCall(room, answer), now).1
      == Packets(preview)
         + if preview.Refused? || answer.Cancelled? then [] else ServeCreate(w, answer.booking, answer.later).1
  {}

  lemma TakenApart(stream: seq<Packet>, at: nat, first: seq<Packet>, rest: seq<Packet>)
    requires at <= |stream| && stream[at..] == first + rest && first != []
    ensures at + |first| <= |stream| && stream[at] == first[0]
    ensures stream[at + 1..at + |first|] == first[1..] && stream[at + |first|..] == rest
  {
    assert stream[at..][..|first|] == first && stream[at..][|first|..] == rest;
    assert stream[at] == stream[at..][0];
  }

  class Client {
    var user: User
    var cursor: nat       // how much of the child's stream has been read
    const child: Child

    constructor (child: Child)
      requires child.user == GUEST_USER && child.outbox == []
      ensures this.child == child && InStep()
    {
      this.child := child;
      user, cursor := GUEST_USER, 0;
    }

    /** Both sides hold the same user, and nothing is left unread. */
    ghost predicate InStep()
      reads this, child
    {
      user == child.user && cursor == |child.outbox|
    }

    method ReadPacket() returns (p: Packet)
      requires cursor < |child.outbox|
      modifies this`cursor
      ensures p == child.outbox[old(cursor)] && cursor == old(cursor) + 1
    {
      p := child.outbox[cursor];
      cursor := cursor + 1;
    }

    /** The loop over an announced count. */
    method ReadRecords(count: nat) returns (records: seq<Packet>)
      requires cursor + count <= |child.outbox|
      modifies this`cursor
      ensures cursor == old(cursor) + count && records == child.outbox[old(cursor)..cursor]
    {
      records := [];
      for i := 0 to count
        invariant cursor == old(cursor) + i && records == child.outbox[old(cursor)..cursor]
      {
        var p := ReadPacket();
        records := records + [p];
      }
    }

    /** Header, then the records it announces: the tail of every handler. */
    method ReadReply(ghost call: Call, unit: nat) returns (records: seq<Packet>)
      requires unit == RecordSize(OpcodeOfCall(call)) && unit > 0
      requires cursor < |child.outbox| && Announced(call, child.outbox[cursor..])
      modifies this`cursor
      ensures cursor == |child.outbox| && records == child.outbox[old(cursor) + 1..]
    {
      ghost var start := cursor;
      ghost var reply := child.outbox[cursor..];
      var header := ReadPacket();
      assert header == reply[0];
      if header == Head(OPCODE_ERROR, 0) {
        return [];
      }
      records := ReadRecords(header.size / unit);
    }

    method HandleSignIn(call: Call, now: nat)
      requires InStep() && (call.LoginCall? || call.SignupCall?)
      requires Allowed(OpcodeOfCall(call), user.userType)
      modifies this, child, child.bookings, child.rooms, child.users
      ensures InStep() && child.Contents() == Perform(old(child.Contents()), call, now).0
    {
      ghost var w, before := child.Contents(), child.outbox;
      RepliesAreWhole(w, call, now);
      SignInReplies(w, call, now);
      child.Dispatch(call, now);
      assert child.outbox[cursor..] == child.outbox[|before|..] == Perform(w, call, now).1;
      var records := ReadReply(call, USER_SIZE);
      if |records| == 1 {
        user := records[0].record.user;
      }
    }

    method HandleLogout(now: nat)
      requires InStep() && Allowed(OPCODE_LOGOUT, user.userType)
      modifies this, child, child.bookings, child.rooms, child.users
      ensures InStep() && user == GUEST_USER && child.Contents() == Perform(old(child.Contents()), LogoutCall, now).0
    {
      ghost var before := child.outbox;
      child.Dispatch(LogoutCall, now);
      var header := ReadPacket();
      assert header == child.outbox[|before|];
      if header == Head(OPCODE_ERROR, 0) {
        return;
      }
      user := GUEST_USER;
    }

    /** Lists, single bookings and the administrators' operations: what is printed is exactly the reply's records. */
    method HandleRequest(call: Call, now: nat) returns (records: seq<Packet>)
      requires InStep() && (IsListCall(call) || ReadsOneRecord(call))
      requires Allowed(OpcodeOfCall(call), user.userType)
      requires RoomFits(call, child.rooms.records)
      modifies this, child, child.bookings, child.rooms, child.users
      ensures InStep() && child.Contents() == Perform(old(child.Contents()), call, now).0
      ensures records == Perform(old(child.Contents()), call, now).1[1..]
    {
      ghost var w := child.Contents();
      RepliesAreWhole(w, call, now);
      ghost var before := child.outbox;
      child.Dispatch(call, now);
      assert child.outbox[cursor..] == Perform(w, call, now).1;
      records := ReadReply(call, RecordSize(OpcodeOfCall(call)));
    }

    /** The first phase of a creation: a refusal, or the bookings of the room. */
    method ReadPreview(ghost reply: Reply, ghost rest: seq<Packet>) returns (refused: bool, preview: seq<Packet>)
      requires reply.Refused? || reply.BookingList?
      requires cursor <= |child.outbox| && child.outbox[cursor..] == Packets(reply) + rest
      modifies this`cursor
      ensures refused == reply.Refused? && preview == Packets(reply)[1..]
      ensures cursor <= |child.outbox| && child.outbox[cursor..] == rest
    {
      TakenApart(child.outbox, cursor, Packets(reply), rest);
      var header := ReadPacket();
      if header == Head(OPCODE_ERROR, 0) {
        return true, [];
      }
      assert |reply.bookings| * BOOKING_SIZE / BOOKING_SIZE == |reply.bookings|;
      refused := false;
      preview := ReadRecords(header.size / BOOKING_SIZE);
    }

    /** The two-phase exchange: preview, then nothing more if there is no such room or the user gives up, else one
        reply. */
    method HandleCreateBooking(room: U32, answer: Creation, now: nat)
      returns (preview: seq<Packet>, created: seq<Packet>)
      requires InStep() && Allowed(OPCODE_CREATE_BOOKING, user.userType)
      modifies this, child, child.bookings, child.rooms, child.users
      ensures InStep() && child.Contents() == Perform(old(child.Contents()), CreateBookingCall(room, answer), now).0
      ensures preview == Packets(Handled(Db(old(child.Contents())), old(user), CreatePreview(room), now))[1..]
      ensures answer.Wanted? && RoomExists(old(child.rooms.records), room) ==>
                created == ServeCreate(old(child.Contents()), answer.booking, answer.later).1[1..]
      ensures answer.Cancelled? || !RoomExists(old(child.rooms.records), room) ==> created == []
    {
      ghost var w := child.Contents();
      ghost var reply := Handled(Db(w), user, CreatePreview(room), now);
      ghost var rest := if reply.Refused? || answer.Cancelled? then []
                        else ServeCreate(w, answer.booking, answer.later).1;
      var call := CreateBookingCall(room, answer);
      CreationStream(w, room, answer, now);
      child.Dispatch(call, now);
      assert child.outbox[cursor..] == Packets(reply) + rest;
      var refused;
      refused, preview := ReadPreview(reply, rest);
      if refused || answer.Cancelled? {
        return preview, [];
      }
      CreationsAreWhole(w, room, answer, now, answer.booking, answer.later);
      created := ReadReply(call, BOOKING_SIZE);
    }

    /** One command: the client's own role check, then the handler.  The child's check, made with the same user,
        passes. */
    method Execute(call: Call, now: nat)
      requires InStep() && (call.Listing? ==> !call.q.CreatePreview?)
      requires RoomFits(call, child.rooms.records)
      modifies this, child, child.bookings, child.rooms, child.users
      ensures InStep()
      ensures child.Contents() == Serve(old(child.Contents()), call, now).0
      ensures !Allowed(OpcodeOfCall(call), old(user).userType) ==> child.outbox == old(child.outbox)
    {
      var valid := IsValidOpcodeForUserByType(OpcodeOfCall(call), user.userType);
      if !valid {
        return;
      }
      if call.LoginCall? || call.SignupCall? {
        HandleSignIn(call, now);
      } else if call.LogoutCall? {
        HandleLogout(now);
      } else if call.CreateBookingCall? {
        var preview, created := HandleCreateBooking(call.room, call.answer, now);
      } else {
        var records := HandleRequest(call, now);
      }
    }
  }
}
