/** What serving a request does and answers, told in fields, record by record and packet by packet. */
module Effects {
  import opened Records
  import opened Operations
  import opened Filters
  import opened Text
  import opened Wire
  import opened Roles
  import opened Rooms
  import opened Accounts
  import opened Privacy
  import opened ServerChild

  // ---------- lists ----------

  /** Positions in file order. */
  predicate InOrder(at: seq<nat>, n: nat) {
    && (forall k :: 0 <= k < |at| ==> at[k] < n)
    && (forall j, k :: 0 <= j < k < |at| ==> at[j] < at[k])
  }

  /** A header announcing n records of this size, and n packets behind it. */
  predicate Announces(packets: seq<Packet>, n: nat, size: nat) {
    |packets| == n + 1 && packets[0] == Head(200, n * size)
  }

  /** Nothing changes, and the reply announces and carries the bookings at these positions. */
  predicate Lists(w: World, served: (World, seq<Packet>), at: seq<nat>)
    requires InOrder(at, |w.bookings|)
  {
    && served.0 == w && Announces(served.1, |at|, 64)
    && forall k :: 0 <= k < |at| ==> served.1[k + 1] == Body(BookingRecord(w.bookings[at[k]]))
  }

  /** The same with other people's ids and names hidden. */
  predicate ListsMasked(w: World, served: (World, seq<Packet>), at: seq<nat>)
    requires InOrder(at, |w.bookings|)
  {
    && served.0 == w && Announces(served.1, |at|, 64)
    && forall k :: 0 <= k < |at| ==>
         var b := w.bookings[at[k]];
         served.1[k + 1] == Body(BookingRecord(
           if b.username == w.user.username then b else Booking(0, b.room, "***", b.start, b.end, b.status)))
  }

  lemma MatchesAt(rs: seq<Booking>, f: Filter, now: nat) returns (at: seq<nat>)
    ensures InOrder(at, |rs|)
    ensures forall i :: 0 <= i < |rs| ==> (i in at <==> Matches(f, rs[i], now))
    ensures var matching := Matching(rs, f, Still(now, |rs|));
      |matching| == |at| && forall k :: 0 <= k < |at| ==> matching[k] == rs[at[k]]
  {
    MatchingIsTheSubsequence(rs, f, Still(now, |rs|));
    at := MatchingAt(rs, f, Still(now, |rs|));
  }

  lemma ListedAt(w: World, served: (World, seq<Packet>), f: Filter, shouldMask: bool, now: nat) returns (at: seq<nat>)
    requires served == (w, Packets(ListReply(Db(w), w.user, f, shouldMask, now)))
    ensures InOrder(at, |w.bookings|)
    ensures forall i :: 0 <= i < |w.bookings| ==> (i in at <==> Matches(f, w.bookings[i], now))
    ensures if shouldMask then ListsMasked(w, served, at) else Lists(w, served, at)
  {
    at := MatchesAt(w.bookings, f, now);
    var matching := Matching(w.bookings, f, Still(now, |w.bookings|));
    forall k | 0 <= k < |at|
      ensures served.1[k + 1] == Body(BookingRecord(Shown(w.bookings[at[k]], shouldMask, w.user.username)))
    {
      assert matching[k] == w.bookings[at[k]];
    }
  }

  /** A room's bookings not over yet: with other people's ids and names hidden from all but administrators. */
  lemma RoomIsListed(w: World, room: U32, now: nat) returns (at: seq<nat>)
    requires w.user.userType <= 2 && exists i :: 0 <= i < |w.rooms| && w.rooms[i].id == room
    ensures InOrder(at, |w.bookings|)
    ensures forall i :: 0 <= i < |w.bookings| ==>
              (i in at <==> w.bookings[i].room == room && now <= w.bookings[i].end)
    ensures var served := Serve(w, Listing(RoomBookings(room)), now);
      if w.user.userType == 2 then Lists(w, served, at) else ListsMasked(w, served, at)
  {
    TablesExactly(OPCODE_BOOKINGS_LIST_BY_ROOM_ID, w.user.userType);
    var served := Serve(w, Listing(RoomBookings(room)), now);
    if w.user.userType == 2 {
      at := ListedAt(w, served, RoomFromNow(room), false, now);
    } else {
      at := ListedAt(w, served, RoomFromNow(room), true, now);
    }
  }

  lemma PreviewIsServed(w: World, room: U32, now: nat)
    requires w.user.userType == 1 && RoomExists(w.rooms, room)
    ensures Serve(w, CreateBookingCall(room, Cancelled), now)
         == (w, Packets(ListReply(Db(w), w.user, RoomFromNowNotRejected(room), true, now)))
  {
    TablesExactly(OPCODE_CREATE_BOOKING, w.user.userType);
  }

  /** The preview before a creation, when the user then gives up: without the rejected bookings. */
  lemma PreviewIsListed(w: World, room: U32, now: nat) returns (at: seq<nat>)
    requires w.user.userType == 1 && exists i :: 0 <= i < |w.rooms| && w.rooms[i].id == room
    ensures InOrder(at, |w.bookings|)
    ensures forall i :: 0 <= i < |w.bookings| ==>
              (i in at <==> w.bookings[i].room == room && now <= w.bookings[i].end && w.bookings[i].status != 2)
    ensures ListsMasked(w, Serve(w, CreateBookingCall(room, Cancelled), now), at)
  {
    PreviewIsServed(w, room, now);
    at := ListedAt(w, Serve(w, CreateBookingCall(room, Cancelled), now), RoomFromNowNotRejected(room), true, now);
  }

  lemma OwnAreListed(w: World, now: nat) returns (at: seq<nat>)
    requires w.user.userType == 1
    ensures InOrder(at, |w.bookings|)
    ensures forall i :: 0 <= i < |w.bookings| ==>
              (i in at <==> w.bookings[i].username == w.user.username && now <= w.bookings[i].end)
    ensures Lists(w, Serve(w, Listing(OwnBookings), now), at)
  {
    TablesExactly(OPCODE_USERS_BOOKINGS_LIST, w.user.userType);
    at := ListedAt(w, Serve(w, Listing(OwnBookings), now), OwnFromNow(w.user.username), true, now);
  }

  /** By status: an ordinary user's own bookings, an administrator's all. */
  lemma StatusIsListed(w: World, status: int, now: nat) returns (at: seq<nat>)
    requires w.user.userType == 1 || w.user.userType == 2
    ensures InOrder(at, |w.bookings|)
    ensures forall i :: 0 <= i < |w.bookings| ==>
              (i in at <==> w.bookings[i].status == status && now <= w.bookings[i].end
                            && (w.user.userType == 1 ==> w.bookings[i].username == w.user.username))
    ensures Lists(w, Serve(w, Listing(ByStatus(status)), now), at)
  {
    TablesExactly(OPCODE_BOOKINGS_LIST_BY_STATUS, w.user.userType);
    var served := Serve(w, Listing(ByStatus(status)), now);
    if w.user.userType == 2 {
      at := ListedAt(w, served, StatusFromNow(status), false, now);
    } else {
      at := ListedAt(w, served, StatusFromNowOf(status, w.user.username), false, now);
    }
  }

  /** By time range, over or not: whatever overlaps it. */
  lemma RangeIsListed(w: World, range: TimeRange, now: nat) returns (at: seq<nat>)
    requires w.user.userType == 1 || w.user.userType == 2
    ensures InOrder(at, |w.bookings|)
    ensures forall i :: 0 <= i < |w.bookings| ==>
              (i in at <==> w.bookings[i].start < range.end && range.start < w.bookings[i].end
                            && (w.user.userType == 1 ==> w.bookings[i].username == w.user.username))
    ensures Lists(w, Serve(w, Listing(ByRange(range)), now), at)
  {
    TablesExactly(OPCODE_BOOKINGS_LIST_BY_TIME_RANGE, w.user.userType);
    var served := Serve(w, Listing(ByRange(range)), now);
    if w.user.userType == 2 {
      at := ListedAt(w, served, InTimeRange(range), false, now);
    } else {
      at := ListedAt(w, served, InTimeRangeOf(range, w.user.username), false, now);
    }
  }

  /** Somewhere in the text the needle follows. */
  predicate Occurs(text: string, needle: string) {
    exists j :: 0 <= j <= |text| - |needle| && text[j..][..|needle|] == needle
  }

  lemma {:induction false} ContainsExactly(text: string, needle: string)
    ensures Contains(text, needle) <==> Occurs(text, needle)
  {
    if needle <= text {
      assert text[0..][..|needle|] == needle;
    } else if text != "" {
      ContainsExactly(text[1..], needle);
      if j :| 0 <= j <= |text[1..]| - |needle| && text[1..][j..][..|needle|] == needle {
        assert text[j + 1..] == text[1..][j..];
      }
      if j :| 0 <= j <= |text| - |needle| && text[j..][..|needle|] == needle {
        assert j > 0 by { assert text[0..] == text; }
        assert text[j..] == text[1..][j - 1..];
      }
    }
  }

  /** By part of the owner's name, for administrators. */
  lemma NamePartIsListed(w: World, needle: string, now: nat) returns (at: seq<nat>)
    requires w.user.userType == 2
    ensures InOrder(at, |w.bookings|)
    ensures forall i :: 0 <= i < |w.bookings| ==>
              (i in at <==> now <= w.bookings[i].end && Occurs(w.bookings[i].username, needle))
    ensures Lists(w, Serve(w, Listing(ByUsername(needle)), now), at)
  {
    TablesExactly(OPCODE_BOOKINGS_LIST_BY_USERNAME, w.user.userType);
    at := ListedAt(w, Serve(w, Listing(ByUsername(needle)), now), UsernameSubstringFromNow(needle), false, now);
    forall i | 0 <= i < |w.bookings|
      ensures i in at <==> now <= w.bookings[i].end && Occurs(w.bookings[i].username, needle)
    {
      ContainsExactly(w.bookings[i].username, needle);
    }
  }

  /** All bookings, for administrators. */
  lemma AllAreListed(w: World, now: nat)
    requires w.user.userType == 2
    ensures var (after, packets) := Serve(w, Listing(AllBookings), now);
      && after == w && Announces(packets, |w.bookings|, 64)
      && forall k :: 0 <= k < |w.bookings| ==> packets[k + 1] == Body(BookingRecord(w.bookings[k]))
  {
    TablesExactly(OPCODE_BOOKINGS_LIST_SUPERUSER, w.user.userType);
    AnyMatchesAll(w.bookings, now, w.user.username);
  }

  /** All rooms, for everybody. */
  lemma RoomsAreListed(w: World, now: nat)
    requires w.user.userType <= 2
    ensures var (after, packets) := Serve(w, Listing(ListRooms), now);
      && after == w && Announces(packets, |w.rooms|, 36)
      && forall k :: 0 <= k < |w.rooms| ==> packets[k + 1] == Body(RoomRecord(w.rooms[k]))
  {
    TablesExactly(OPCODE_ROOMS_LIST, w.user.userType);
  }

  /** One booking by its id: any for administrators, their own for ordinary users, and otherwise an error. */
  lemma OneIsListed(w: World, id: U32, now: nat)
    requires (w.user.userType == 1 || w.user.userType == 2) && UniqueIds(w.bookings) && NonZeroIds(w.bookings)
    ensures var (after, packets) := Serve(w, Listing(BookingById(id)), now);
      && after == w
      && (forall k :: 0 <= k < |w.bookings| && w.bookings[k].id == id
                      && (w.user.userType == 2 || w.bookings[k].username == w.user.username) ==>
            packets == [Head(200, 64), Body(BookingRecord(w.bookings[k]))])
      && ((forall k :: 0 <= k < |w.bookings| && w.bookings[k].id == id ==>
             w.user.userType == 1 && w.bookings[k].username != w.user.username) ==> packets == [Head(201, 0)])
  {
    TablesExactly(OPCODE_BOOKINGS_LIST_BY_BOOKING_ID, w.user.userType);
    var i := IndexOfId(w.bookings, id);
    assert forall k :: 0 <= k < |w.bookings| && w.bookings[k].id == id ==> k == i;
  }

  /** A room that does not exist has neither list nor preview. */
  lemma MissingRoomsAreRefused(w: World, room: U32, answer: Creation, now: nat)
    requires forall i :: 0 <= i < |w.rooms| ==> w.rooms[i].id != room
    ensures Serve(w, Listing(RoomBookings(room)), now) == (w, [Head(201, 0)])
    ensures Serve(w, CreateBookingCall(room, answer), now) == (w, [Head(201, 0)])
  {}

  // ---------- creating a booking ----------

  /** This user cannot have the booking: one in its room overlaps it that is approved, or the user's own and not
      rejected.  (The shipped client asks for pending bookings; an approved request is blocked by anybody's, a rejected
      one by none.) */
  predicate Blocked(rs: seq<Booking>, b: Booking, name: string) {
    b.status != 2 &&
    exists i :: 0 <= i < |rs| && rs[i].room == b.room && rs[i].start < b.end && b.start < rs[i].end
      && rs[i].status != 2 && (rs[i].status == 1 || b.status == 1 || rs[i].username == name)
  }

  predicate Storable(w: World, b: Booking, later: nat) {
    && (exists i :: 0 <= i < |w.rooms| && w.rooms[i].id == b.room)
    && b.start < b.end && (b.end - b.start) % 3600 == 0 && later <= b.start
    && !Blocked(w.bookings, b, w.user.username)
  }

  /** One above the greatest of these ids, starting at 1, and 0 behind the last 32-bit number. */
  predicate NextId(ids: seq<U32>, id: U32) {
    if 0xFFFF_FFFF in ids then id == 0 else (forall k :: k in ids ==> k < id) && (id == 1 || id - 1 in ids)
  }

  function BookingIds(rs: seq<Booking>): seq<U32> {
    seq(|rs|, i requires 0 <= i < |rs| => rs[i].id)
  }

  lemma NewIdIsNext(rs: seq<Booking>, b: Booking)
    ensures NextId(BookingIds(rs), NewRecord(rs, b).id)
  {
    NewId(rs, b);
    var ids, g := BookingIds(rs), Greatest(rs);
    assert forall i :: 0 <= i < |rs| ==> ids[i] == rs[i].id <= g;
    if g > 0 {
      var i :| 0 <= i < |rs| && rs[i].id == g;
      assert ids[i] == g;
    }
  }

  lemma BlockedExactly(rs: seq<Booking>, b: Booking, name: string)
    ensures HasConflict(rs, b.(username := name)) <==> Blocked(rs, b, name)
  {
    var wanted := b.(username := name);
    assert forall i :: 0 <= i < |rs| ==> (IsConflict(rs[i], wanted) <==>
      b.status != 2 && rs[i].room == b.room && rs[i].start < b.end && b.start < rs[i].end
      && rs[i].status != 2 && (rs[i].status == 1 || b.status == 1 || rs[i].username == name));
  }

  lemma CreatedExactly(w: World, b: Booking, later: nat)
    ensures var (after, packets) := ServeCreate(w, b, later);
      if Storable(w, b, later) then
        && |after.bookings| == |w.bookings| + 1 && after == w.(bookings := w.bookings + [after.bookings[|w.bookings|]])
        && var stored := after.bookings[|w.bookings|];
        && NextId(BookingIds(w.bookings), stored.id)
        && stored == Booking(stored.id, b.room, w.user.username, b.start, b.end, 0)
        && packets == if stored.id == 0 then [Head(201, 0)] else [Head(200, 64), Body(BookingRecord(stored))]
      else after == w && packets == [Head(201, 0)]
  {
    NewIdIsNext(w.bookings, b.(username := w.user.username));
    BlockedExactly(w.bookings, b, w.user.username);
  }

  /** A creation is stored exactly if the room exists, the time is whole slots not begun, and nothing blocks it.  The
      record stored is the one asked for, pending and in the session's name, with the next id; and it is what the user
      is sent, behind the preview, unless the ids have run out. */
  lemma CreationIsServed(w: World, room: U32, b: Booking, later: nat, now: nat)
    requires w.user.userType == 1 && exists i :: 0 <= i < |w.rooms| && w.rooms[i].id == room
    ensures var (after, packets) := Serve(w, CreateBookingCall(room, Wanted(b, later)), now);
      var preview := Serve(w, CreateBookingCall(room, Cancelled), now).1;
      if Storable(w, b, later) then
        && |after.bookings| == |w.bookings| + 1 && after == w.(bookings := w.bookings + [after.bookings[|w.bookings|]])
        && var stored := after.bookings[|w.bookings|];
        && NextId(BookingIds(w.bookings), stored.id)
        && stored == Booking(stored.id, b.room, w.user.username, b.start, b.end, 0)
        && packets == preview + if stored.id == 0 then [Head(201, 0)] else [Head(200, 64), Body(BookingRecord(stored))]
      else after == w && packets == preview + [Head(201, 0)]
  {
    TablesExactly(OPCODE_CREATE_BOOKING, w.user.userType);
    CreatedExactly(w, b, later);
  }

  // ---------- deciding on bookings ----------

  predicate Keyed(rs: seq<Booking>) {
    UniqueIds(rs) && NonZeroIds(rs)
  }

  /** An approval succeeds exactly if the booking is there and not over.  It is approved then, whatever its status was,
      the pending ones of its room overlapping it are rejected, and the booking sent is the one stored. */
  lemma ApprovalIsServed(w: World, id: U32, now: nat)
    requires w.user.userType == 2 && Keyed(w.bookings)
    ensures var (after, packets) := Serve(w, ApproveCall(ApproveRequest(id)), now);
      && |after.bookings| == |w.bookings| && after == w.(bookings := after.bookings)
      && (forall k :: 0 <= k < |w.bookings| && w.bookings[k].id == id && now <= w.bookings[k].end ==>
            && after.bookings[k] == w.bookings[k].(status := 1)
            && packets == [Head(200, 64), Body(BookingRecord(after.bookings[k]))]
            && forall i :: 0 <= i < |w.bookings| && i != k ==>
                 after.bookings[i]
                 == if w.bookings[i].status == 0 && w.bookings[i].room == w.bookings[k].room
                       && w.bookings[i].start < w.bookings[k].end && w.bookings[k].start < w.bookings[i].end
                    then w.bookings[i].(status := 2) else w.bookings[i])
      && ((forall k :: 0 <= k < |w.bookings| && w.bookings[k].id == id ==> w.bookings[k].end < now) ==>
            after == w && packets == [Head(201, 0)])
  {
    TablesExactly(OPCODE_APPROVE_BOOKING, w.user.userType);
    ApproveRefusedExactly(w.bookings, id, now);
    if k :| 0 <= k < |w.bookings| && w.bookings[k].id == id && now <= w.bookings[k].end {
      ApproveEffect(w.bookings, k, now);
      assert forall j :: 0 <= j < |w.bookings| && w.bookings[j].id == id ==> j == k;
    }
  }

  /** A rejection succeeds exactly if the booking is there, pending and not over. */
  lemma RejectionIsServed(w: World, b: Booking, now: nat)
    requires w.user.userType == 2 && Keyed(w.bookings)
    ensures var (after, packets) := Serve(w, RejectCall(b), now);
      && |after.bookings| == |w.bookings| && after == w.(bookings := after.bookings)
      && (forall k :: 0 <= k < |w.bookings| ==>
            after.bookings[k]
            == if w.bookings[k].id == b.id && w.bookings[k].status == 0 && now <= w.bookings[k].end
               then w.bookings[k].(status := 2) else w.bookings[k])
      && (forall k :: 0 <= k < |w.bookings| && w.bookings[k].id == b.id && w.bookings[k].status == 0
                      && now <= w.bookings[k].end ==>
            packets == [Head(200, 64), Body(BookingRecord(after.bookings[k]))])
      && (after == w ==> packets == [Head(201, 0)])
  {
    TablesExactly(OPCODE_REJECT_BOOKING, w.user.userType);
    RejectEffect(w.bookings, b.id, now);
    var k := RejectIndex(w.bookings, b.id, now);
    if k < |w.bookings| {
      assert RejectIn(w.bookings, b.id, now).0[k] != w.bookings[k];
      assert forall j :: 0 <= j < |w.bookings| && w.bookings[j].id == b.id ==> j == k;
    }
  }

  /** Forcing gives the booking the status asked for, whatever that is; with id 0 or an unknown id it is refused. */
  lemma ForcingIsServed(w: World, b: Booking, now: nat)
    requires w.user.userType == 2 && Keyed(w.bookings)
    ensures var (after, packets) := Serve(w, ForceCall(b), now);
      && |after.bookings| == |w.bookings| && after == w.(bookings := after.bookings)
      && (forall k :: 0 <= k < |w.bookings| ==>
            after.bookings[k] == if w.bookings[k].id == b.id then w.bookings[k].(status := b.status) else w.bookings[k])
      && (forall k :: 0 <= k < |w.bookings| && w.bookings[k].id == b.id ==>
            packets == [Head(200, 64), Body(BookingRecord(after.bookings[k]))])
      && ((forall k :: 0 <= k < |w.bookings| ==> w.bookings[k].id != b.id) ==>
            after == w && packets == [Head(201, 0)])
  {
    TablesExactly(OPCODE_FORCE_BOOKING_STATUS, w.user.userType);
    ForceEffect(w.bookings, b.id, b.status);
    var k := IndexOfId(w.bookings, b.id);
    assert forall j :: 0 <= j < |w.bookings| && w.bookings[j].id == b.id ==> j == k;
  }

  // ---------- rooms ----------

  function RoomIds(rooms: seq<Room>): seq<U32> {
    seq(|rooms|, i requires 0 <= i < |rooms| => rooms[i].id)
  }

  lemma RoomIdIsNext(rooms: seq<Room>)
    ensures NextId(RoomIds(rooms), (GreatestRoom(rooms) + 1) % 0x1_0000_0000)
  {
    var ids, g := RoomIds(rooms), GreatestRoom(rooms);
    assert forall i :: 0 <= i < |rooms| ==> ids[i] == rooms[i].id <= g;
    if g > 0 {
      var i :| 0 <= i < |rooms| && rooms[i].id == g;
      assert ids[i] == g;
    }
    assert g < 0xFFFF_FFFF ==> (g + 1) % 0x1_0000_0000 == g + 1;
  }

  lemma RoomCreatedExactly(rooms: seq<Room>, rawName: string)
    ensures var (after, created) := CreateRoomIn(rooms, rawName); var name := Sanitize(rawName);
      if exists i :: 0 <= i < |rooms| && rooms[i].name == name then after == rooms && created.name == ""
      else after == rooms + [created] && created.name == name && NextId(RoomIds(rooms), created.id)
  {
    RoomIdIsNext(rooms);
  }

  /** A room is created exactly if its sanitised name is free, with the next id, and is what the administrator is sent.
      (A room without a name is stored, too, but answered with an error.) */
  lemma RoomCreationIsServed(w: World, rawName: string, now: nat)
    requires w.user.userType == 2
    ensures var (after, packets) := Serve(w, CreateRoomCall(rawName), now); var name := Sanitize(rawName);
      if exists i :: 0 <= i < |w.rooms| && w.rooms[i].name == name then after == w && packets == [Head(201, 0)]
      else
        && |after.rooms| == |w.rooms| + 1 && after == w.(rooms := w.rooms + [after.rooms[|w.rooms|]])
        && after.rooms[|w.rooms|].name == name && NextId(RoomIds(w.rooms), after.rooms[|w.rooms|].id)
        && packets == if name == "" then [Head(201, 0)] else [Head(200, 36), Body(RoomRecord(after.rooms[|w.rooms|]))]
  {
    TablesExactly(OPCODE_CREATE_ROOM, w.user.userType);
    RoomCreatedExactly(w.rooms, rawName);
  }

  // ---------- sessions ----------

  /** A login succeeds exactly for a stored name and its password; the session, and the user sent, get the
      stored type. */
  lemma LoginIsServed(w: World, sent: Credentials, now: nat)
    requires w.user.userType == 0 && UniqueNames(w.users)
    ensures var (after, packets) := Serve(w, LoginCall(sent), now);
      var name, password := Sanitize(sent.username), Sanitize(sent.password);
      && (forall i :: 0 <= i < |w.users| && w.users[i].username == name && w.users[i].password == password
                      && name != "" ==>
            && after == w.(user := User(name, w.users[i].userType))
            && packets == [Head(200, 33), Body(UserRecord(after.user))])
      && ((forall i :: 0 <= i < |w.users| && w.users[i].username == name ==>
             w.users[i].password != password || name == "") ==>
            after == w && packets == [Head(201, 0)])
  {
    TablesExactly(OPCODE_LOGIN, w.user.userType);
    if Sanitize(sent.username) != "" {
      LoginSucceedsExactly(w.users, SanitizeCredentials(sent));
    }
  }

  /** A signup succeeds exactly if both lengths are from 5 to 31 and the name is free; it stores an ordinary user. */
  lemma SignupIsServed(w: World, sent: Credentials, now: nat)
    requires w.user.userType == 0
    ensures var (after, packets) := Serve(w, SignupCall(sent), now);
      var name, password := Sanitize(sent.username), Sanitize(sent.password);
      if 5 <= |name| < 32 && 5 <= |password| < 32 && forall i :: 0 <= i < |w.users| ==> w.users[i].username != name
      then
        && after == w.(users := w.users + [UserSave(name, password, 1)], user := User(name, 1))
        && packets == [Head(200, 33), Body(UserRecord(User(name, 1)))]
      else after == w && packets == [Head(201, 0)]
  {
    TablesExactly(OPCODE_SIGNUP, w.user.userType);
  }

  lemma LogoutIsServed(w: World, now: nat)
    requires w.user.userType == 1 || w.user.userType == 2
    ensures Serve(w, LogoutCall, now) == (w.(user := User("guest", 0)), [Head(200, 0)])
  {
    TablesExactly(OPCODE_LOGOUT, w.user.userType);
  }

  /** Everything else is refused and changes nothing. */
  lemma OthersAreRefused(w: World, call: Call, now: nat)
    requires match call {
      case LoginCall(_) => w.user.userType != 0
      case SignupCall(_) => w.user.userType != 0
      case LogoutCall => w.user.userType == 0
      case CreateBookingCall(_, _) => w.user.userType != 1
      case CreateRoomCall(_) => w.user.userType != 2
      case ApproveCall(_) => w.user.userType != 2
      case RejectCall(_) => w.user.userType != 2
      case ForceCall(_) => w.user.userType != 2
      case Listing(q) =>
        match q {
          case OwnBookings => w.user.userType != 1
          case CreatePreview(_) => w.user.userType != 1
          case AllBookings => w.user.userType != 2
          case ByUsername(_) => w.user.userType != 2
          case ListRooms => w.user.userType > 2
          case RoomBookings(_) => w.user.userType > 2
          case _ => w.user.userType != 1 && w.user.userType != 2
        }
    }
    ensures Serve(w, call, now) == (w, [Head(201, 0)])
  {
    TablesExactly(OpcodeOfCall(call), w.user.userType);
  }
}
