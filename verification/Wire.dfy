/** Byte order and the memory layout of the structures sent over the socket. */
module Wire {
  import opened Records
  import opened Roles

  datatype Order = Little | Big

  datatype Header = Header(operation: U32, payloadSize: U32)

  datatype Credentials = Credentials(username: string, password: string)

  // ---------- numbers as bytes ----------

  function Power(w: nat): nat {
    if w == 0 then 1 else 256 * Power(w - 1)
  }

  function ToLittle(n: nat, w: nat): (s: seq<Byte>)
    ensures |s| == w
  {
    if w == 0 then [] else [n % 256] + ToLittle(n / 256, w - 1)
  }

  function FromLittle(s: seq<Byte>): nat {
    if s == [] then 0 else s[0] + 256 * FromLittle(s[1..])
  }

  lemma {:induction false} LittleThere(n: nat, w: nat)
    requires n < Power(w)
    ensures FromLittle(ToLittle(n, w)) == n
  {
    if w > 0 {
      LittleThere(n / 256, w - 1);
      assert ToLittle(n, w)[1..] == ToLittle(n / 256, w - 1);
    }
  }

  lemma Digit(d: Byte, r: nat)
    ensures (d + 256 * r) % 256 == d && (d + 256 * r) / 256 == r
  {}

  lemma {:induction false} LittleBack(s: seq<Byte>)
    ensures FromLittle(s) < Power(|s|)
    ensures ToLittle(FromLittle(s), |s|) == s
  {
    if s != [] {
      var rest := s[1..];
      LittleBack(rest);
      Digit(s[0], FromLittle(rest));
      assert ToLittle(FromLittle(s), |s|) == [s[0]] + ToLittle(FromLittle(rest), |rest|);
    }
  }

  function Reversed(s: seq<Byte>): (r: seq<Byte>)
    ensures |r| == |s|
    ensures forall i :: 0 <= i < |s| ==> r[i] == s[|s| - 1 - i]
  {
    if s == [] then [] else Reversed(s[1..]) + [s[0]]
  }

  lemma ReversedTwice(s: seq<Byte>)
    ensures Reversed(Reversed(s)) == s
  {}

  /** An integer variable of `w` bytes in the memory of a host. */
  function Store(o: Order, n: nat, w: nat): (s: seq<Byte>)
    ensures |s| == w
  {
    if o == Little then ToLittle(n, w) else Reversed(ToLittle(n, w))
  }

  function Load(o: Order, s: seq<Byte>): nat {
    if o == Little then FromLittle(s) else FromLittle(Reversed(s))
  }

  /** `htonl`, `ntohl`, `htobe64` and `be64toh`: swap the bytes of the value, or do nothing on a big-endian host. */
  function Convert(o: Order, n: nat, w: nat): nat {
    if o == Little then FromLittle(Reversed(ToLittle(n, w))) else n
  }

  function Field(o: Order, n: nat, w: nat): (s: seq<Byte>)
    ensures |s| == w
  {
    Store(o, Convert(o, n, w), w)
  }

  function ReadField(o: Order, s: seq<Byte>): nat {
    Convert(o, Load(o, s), |s|)
  }

  /** A converted integer has the same bytes on every host, and every host gets the integer back. */
  lemma FieldCrosses(sender: Order, receiver: Order, n: nat, w: nat)
    requires n < Power(w)
    ensures Field(sender, n, w) == Reversed(ToLittle(n, w))
    ensures ReadField(receiver, Field(sender, n, w)) == n
  {
    var little := ToLittle(n, w);
    var wire := Reversed(little);
    LittleThere(n, w);
    LittleBack(wire);
    ReversedTwice(little);
  }

  lemma PowerOf4()
    ensures Power(4) == 0x1_0000_0000
  {}

  lemma PowerOf8()
    ensures Power(8) == 0x1_0000_0000_0000_0000
  {}

  // ---------- names ----------

  const NAME_SIZE := 32

  /** Fits, terminated, into 32 chars of one byte. */
  predicate ValidName(s: string) {
    |s| < NAME_SIZE && forall i :: 0 <= i < |s| ==> 0 < s[i] as int < 256
  }

  function NameBytes(s: string): (r: seq<Byte>)
    requires ValidName(s)
    ensures |r| == NAME_SIZE
  {
    seq(NAME_SIZE, i requires 0 <= i < NAME_SIZE => if i < |s| then s[i] as int else 0)
  }

  /** The C string at the start of the bytes. */
  function ReadName(bytes: seq<Byte>): string {
    if bytes == [] || bytes[0] == 0 then "" else [bytes[0] as char] + ReadName(bytes[1..])
  }

  lemma {:induction false} ReadNameIs(bytes: seq<Byte>, s: string)
    requires |s| < |bytes| && bytes[|s|] == 0
    requires forall i :: 0 <= i < |s| ==> 0 < s[i] as int < 256 && bytes[i] == s[i] as int
    ensures ReadName(bytes) == s
  {
    if s != "" {
      ReadNameIs(bytes[1..], s[1..]);
      assert s == [s[0]] + s[1..];
    }
  }

  lemma NameCrosses(s: string)
    requires ValidName(s)
    ensures ReadName(NameBytes(s)) == s
  {
    ReadNameIs(NameBytes(s), s);
  }

  // ---------- structures ----------

  const HEADER_SIZE := 8
  const ROOM_SIZE := 36
  const BOOKING_SIZE := 64
  const TIME_RANGE_SIZE := 16
  const USER_SIZE := 33
  const CREDENTIALS_SIZE := 64
  const STATUS_SIZE := 4

  /** The size of one record of a successful reply. */
  function RecordSize(opcode: int): nat {
    if opcode == OPCODE_LOGIN || opcode == OPCODE_SIGNUP then USER_SIZE
    else if opcode == OPCODE_LOGOUT then 0
    else if opcode == OPCODE_CREATE_ROOM || opcode == OPCODE_ROOMS_LIST then ROOM_SIZE
    else BOOKING_SIZE
  }

  /** Operations answered by any number of records. */
  predicate IsListOpcode(opcode: int) {
    opcode in [OPCODE_ROOMS_LIST, OPCODE_USERS_BOOKINGS_LIST, OPCODE_BOOKINGS_LIST_SUPERUSER,
               OPCODE_BOOKINGS_LIST_BY_ROOM_ID, OPCODE_BOOKINGS_LIST_BY_USERNAME,
               OPCODE_BOOKINGS_LIST_BY_TIME_RANGE, OPCODE_BOOKINGS_LIST_BY_STATUS]
  }

  function HeaderBytes(o: Order, h: Header): (s: seq<Byte>)
    ensures |s| == HEADER_SIZE
  {
    Field(o, h.operation, 4) + Field(o, h.payloadSize, 4)
  }

  lemma FieldFits(o: Order, s: seq<Byte>)
    ensures ReadField(o, s) < Power(|s|)
  {
    LittleBack(s);
    LittleBack(Reversed(s));
    LittleBack(Reversed(ToLittle(Load(o, s), |s|)));
  }

  function ReadU32(o: Order, s: seq<Byte>): U32
    requires |s| == 4
  {
    FieldFits(o, s); PowerOf4(); ReadField(o, s)
  }

  function ReadU64(o: Order, s: seq<Byte>): U64
    requires |s| == 8
  {
    FieldFits(o, s); PowerOf8(); ReadField(o, s)
  }

  lemma U32Crosses(sender: Order, receiver: Order, n: U32)
    ensures ReadU32(receiver, Field(sender, n, 4)) == n
  {
    PowerOf4();
    FieldCrosses(sender, receiver, n, 4);
  }

  lemma U64Crosses(sender: Order, receiver: Order, n: U64)
    ensures ReadU64(receiver, Field(sender, n, 8)) == n
  {
    PowerOf8();
    FieldCrosses(sender, receiver, n, 8);
  }

  function ReadHeader(o: Order, s: seq<Byte>): Header
    requires |s| == HEADER_SIZE
  {
    Header(ReadU32(o, s[..4]), ReadU32(o, s[4..]))
  }

  lemma HeaderCrosses(sender: Order, receiver: Order, h: Header)
    ensures ReadHeader(receiver, HeaderBytes(sender, h)) == h
  {
    var s := HeaderBytes(sender, h);
    assert s[..4] == Field(sender, h.operation, 4) && s[4..] == Field(sender, h.payloadSize, 4);
    U32Crosses(sender, receiver, h.operation);
    U32Crosses(sender, receiver, h.payloadSize);
  }

  function RoomBytes(o: Order, r: Room): (s: seq<Byte>)
    requires ValidName(r.name)
    ensures |s| == ROOM_SIZE
  {
    Field(o, r.id, 4) + NameBytes(r.name)
  }

  function ReadRoom(o: Order, s: seq<Byte>): Room
    requires |s| == ROOM_SIZE
  {
    Room(ReadU32(o, s[..4]), ReadName(s[4..]))
  }

  lemma RoomCrosses(sender: Order, receiver: Order, r: Room)
    requires ValidName(r.name)
    ensures ReadRoom(receiver, RoomBytes(sender, r)) == r
  {
    var s := RoomBytes(sender, r);
    assert s[..4] == Field(sender, r.id, 4) && s[4..] == NameBytes(r.name);
    U32Crosses(sender, receiver, r.id);
    NameCrosses(r.name);
  }

  const PADDING: seq<Byte> := [0, 0, 0, 0, 0, 0, 0]

  function BookingBytes(o: Order, b: Booking): (s: seq<Byte>)
    requires ValidName(b.username)
    ensures |s| == BOOKING_SIZE
  {
    Field(o, b.id, 4) + (Field(o, b.room, 4) + (NameBytes(b.username)
      + (Field(o, b.start, 8) + (Field(o, b.end, 8) + ([b.status] + PADDING)))))
  }

  function ReadBooking(o: Order, s: seq<Byte>): Booking
    requires |s| == BOOKING_SIZE
  {
    var s1 := s[4..];
    var s2 := s1[4..];
    var s3 := s2[NAME_SIZE..];
    var s4 := s3[8..];
    var s5 := s4[8..];
    Booking(ReadU32(o, s[..4]), ReadU32(o, s1[..4]), ReadName(s2[..NAME_SIZE]),
            ReadU64(o, s3[..8]), ReadU64(o, s4[..8]), s5[0])
  }

  lemma FrontAndRest(front: seq<Byte>, rest: seq<Byte>)
    ensures (front + rest)[..|front|] == front && (front + rest)[|front|..] == rest
  {}

  lemma BookingCrosses(sender: Order, receiver: Order, b: Booking)
    requires ValidName(b.username)
    ensures ReadBooking(receiver, BookingBytes(sender, b)) == b
  {
    var s5 := [b.status] + PADDING;
    var end, start := Field(sender, b.end, 8), Field(sender, b.start, 8);
    var name := NameBytes(b.username);
    var room, id := Field(sender, b.room, 4), Field(sender, b.id, 4);
    FrontAndRest(end, s5);
    FrontAndRest(start, end + s5);
    FrontAndRest(name, start + (end + s5));
    FrontAndRest(room, name + (start + (end + s5)));
    FrontAndRest(id, room + (name + (start + (end + s5))));
    U32Crosses(sender, receiver, b.id);
    U32Crosses(sender, receiver, b.room);
    NameCrosses(b.username);
    U64Crosses(sender, receiver, b.start);
    U64Crosses(sender, receiver, b.end);
  }

  /** The first eight bytes of a booking on the wire, taken for a header. */
  lemma BookingStartsLikeAHeader(sender: Order, receiver: Order, b: Booking)
    requires ValidName(b.username)
    ensures ReadHeader(receiver, BookingBytes(sender, b)[..HEADER_SIZE]) == Header(b.id, b.room)
  {
    var s, id, room := BookingBytes(sender, b), Field(sender, b.id, 4), Field(sender, b.room, 4);
    assert s[..HEADER_SIZE][..4] == id && s[..HEADER_SIZE][4..] == room;
    U32Crosses(sender, receiver, b.id);
    U32Crosses(sender, receiver, b.room);
  }

  function UserBytes(u: User): (s: seq<Byte>)
    requires ValidName(u.username)
    ensures |s| == USER_SIZE
  {
    NameBytes(u.username) + [u.userType]
  }

  function ReadUser(s: seq<Byte>): User
    requires |s| == USER_SIZE
  {
    User(ReadName(s[..NAME_SIZE]), s[NAME_SIZE])
  }

  lemma UserCrosses(u: User)
    requires ValidName(u.username)
    ensures ReadUser(UserBytes(u)) == u
  {
    assert UserBytes(u)[..NAME_SIZE] == NameBytes(u.username);
    NameCrosses(u.username);
  }

  function TimeRangeBytes(o: Order, t: TimeRange): (s: seq<Byte>)
    ensures |s| == TIME_RANGE_SIZE
  {
    Field(o, t.start, 8) + Field(o, t.end, 8)
  }

  function ReadTimeRange(o: Order, s: seq<Byte>): TimeRange
    requires |s| == TIME_RANGE_SIZE
  {
    TimeRange(ReadU64(o, s[..8]), ReadU64(o, s[8..]))
  }

  lemma TimeRangeCrosses(sender: Order, receiver: Order, t: TimeRange)
    ensures ReadTimeRange(receiver, TimeRangeBytes(sender, t)) == t
  {
    var s := TimeRangeBytes(sender, t);
    assert s[..8] == Field(sender, t.start, 8) && s[8..] == Field(sender, t.end, 8);
    U64Crosses(sender, receiver, t.start);
    U64Crosses(sender, receiver, t.end);
  }

  // ---------- the records of a reply ----------

  datatype Record = RoomRecord(room: Room) | BookingRecord(booking: Booking) | UserRecord(user: User)

  predicate ValidRecord(r: Record) {
    match r
    case RoomRecord(room) => ValidName(room.name)
    case BookingRecord(b) => ValidName(b.username)
    case UserRecord(user) => ValidName(user.username)
  }

  function SizeOf(r: Record): nat {
    match r
    case RoomRecord(_) => ROOM_SIZE
    case BookingRecord(_) => BOOKING_SIZE
    case UserRecord(_) => USER_SIZE
  }

  function RecordBytes(o: Order, r: Record): (s: seq<Byte>)
    requires ValidRecord(r)
    ensures |s| == SizeOf(r)
  {
    match r
    case RoomRecord(room) => RoomBytes(o, room)
    case BookingRecord(b) => BookingBytes(o, b)
    case UserRecord(user) => UserBytes(user)
  }

  function AllBytes(o: Order, rs: seq<Record>): seq<Byte>
    requires forall i :: 0 <= i < |rs| ==> ValidRecord(rs[i])
  {
    if rs == [] then [] else RecordBytes(o, rs[0]) + AllBytes(o, rs[1..])
  }

  lemma {:induction false} AllBytesLength(o: Order, rs: seq<Record>, unit: nat)
    requires forall i :: 0 <= i < |rs| ==> ValidRecord(rs[i]) && SizeOf(rs[i]) == unit
    ensures |AllBytes(o, rs)| == |rs| * unit
  {
    if rs != [] {
      AllBytesLength(o, rs[1..], unit);
      assert |rs| * unit == unit + (|rs| - 1) * unit;
    }
  }

  lemma BehindFront(first: seq<Byte>, rest: seq<Byte>, n: nat)
    requires |first| == BOOKING_SIZE && n + BOOKING_SIZE <= |rest|
    ensures (first + rest)[BOOKING_SIZE + n..][..BOOKING_SIZE] == rest[n..][..BOOKING_SIZE]
  {
    assert (first + rest)[BOOKING_SIZE + n..] == rest[n..];
  }

  /** Record k stands where the k records before it end. */
  lemma {:induction false} RecordAt(o: Order, rs: seq<Record>, k: nat)
    requires forall i :: 0 <= i < |rs| ==> ValidRecord(rs[i]) && SizeOf(rs[i]) == BOOKING_SIZE
    requires k < |rs|
    ensures |AllBytes(o, rs)| == |rs| * BOOKING_SIZE
    ensures AllBytes(o, rs)[k * BOOKING_SIZE..][..BOOKING_SIZE] == RecordBytes(o, rs[k])
  {
    AllBytesLength(o, rs, BOOKING_SIZE);
    var first, rest := RecordBytes(o, rs[0]), AllBytes(o, rs[1..]);
    if k == 0 {
      FrontAndRest(first, rest);
      assert AllBytes(o, rs)[0..] == AllBytes(o, rs);
    } else {
      RecordAt(o, rs[1..], k - 1);
      BehindFront(first, rest, (k - 1) * BOOKING_SIZE);
      assert rs[1..][k - 1] == rs[k];
    }
  }

  // ---------- any host ----------

  /** Whatever the bytes, hosts of both orders read the same number out of them, and write the same bytes. */
  lemma HostsAgree(o: Order, s: seq<Byte>)
    ensures ReadField(o, s) == ReadField(Big, s)
  {
    LittleBack(s);
  }

  lemma HeadersOnAnyHost(o: Order, s: seq<Byte>, h: Header)
    requires |s| == HEADER_SIZE
    ensures ReadHeader(o, s) == ReadHeader(Big, s) && HeaderBytes(o, h) == HeaderBytes(Big, h)
  {
    HostsAgree(o, s[..4]);
    HostsAgree(o, s[4..]);
    PowerOf4();
    FieldCrosses(o, o, h.operation, 4);
    FieldCrosses(Big, o, h.operation, 4);
    FieldCrosses(o, o, h.payloadSize, 4);
    FieldCrosses(Big, o, h.payloadSize, 4);
  }

  // ---------- the layout, byte by byte ----------

  lemma U32OnTheWire(o: Order, n: U32)
    ensures Field(o, n, 4) == [n / 0x100_0000, n / 0x1_0000 % 0x100, n / 0x100 % 0x100, n % 0x100]
  {
    PowerOf4();
    FieldCrosses(o, o, n, 4);
    U32Digits(n);
  }

  lemma U32Digits(n: U32)
    ensures Reversed(ToLittle(n, 4)) == [n / 0x100_0000, n / 0x1_0000 % 0x100, n / 0x100 % 0x100, n % 0x100]
  {
    var a := n / 0x100;
    var b := a / 0x100;
    var c := b / 0x100;
    assert b == n / 0x1_0000 && c == n / 0x100_0000 < 0x100;
    assert ToLittle(c, 1) == [c] + ToLittle(0, 0);
    assert ToLittle(b, 2) == [b % 0x100, c];
    assert ToLittle(a, 3) == [a % 0x100, b % 0x100, c];
    assert ToLittle(n, 4) == [n % 0x100, a % 0x100, b % 0x100, c];
  }

  /** Of a header the operation comes first, of a room the id; the fields of a booking come in the order of the
      record. */
  lemma HeaderLayout(o: Order, h: Header)
    ensures HeaderBytes(o, h)[..4] == Field(o, h.operation, 4) && HeaderBytes(o, h)[4..] == Field(o, h.payloadSize, 4)
  {}

  lemma RoomLayout(o: Order, r: Room)
    requires ValidName(r.name)
    ensures RoomBytes(o, r)[..4] == Field(o, r.id, 4) && RoomBytes(o, r)[4..] == NameBytes(r.name)
  {}

  lemma TimesLayout(o: Order, b: Booking, s: seq<Byte>)
    requires s == Field(o, b.start, 8) + (Field(o, b.end, 8) + ([b.status] + PADDING))
    ensures s[0..8] == Field(o, b.start, 8) && s[8..16] == Field(o, b.end, 8) && s[16] == b.status
  {}

  lemma BookingParts(id: seq<Byte>, room: seq<Byte>, name: seq<Byte>, times: seq<Byte>)
    requires |id| == |room| == 4 && |name| == 32 && |times| == 24
    ensures var s := id + (room + (name + times));
      && s[0..4] == id && s[4..8] == room && s[8..40] == name
      && s[40..48] == times[0..8] && s[48..56] == times[8..16] && s[56] == times[16]
  {
    var s := id + (room + (name + times));
    assert s == id + room + name + times;
  }

  lemma BookingLayout(o: Order, b: Booking)
    requires ValidName(b.username)
    ensures var s := BookingBytes(o, b);
      && s[0..4] == Field(o, b.id, 4) && s[4..8] == Field(o, b.room, 4) && s[8..40] == NameBytes(b.username)
      && s[40..48] == Field(o, b.start, 8) && s[48..56] == Field(o, b.end, 8) && s[56] == b.status
  {
    var times := Field(o, b.start, 8) + (Field(o, b.end, 8) + ([b.status] + PADDING));
    TimesLayout(o, b, times);
    BookingParts(Field(o, b.id, 4), Field(o, b.room, 4), NameBytes(b.username), times);
  }

  lemma TimeRangeLayout(o: Order, t: TimeRange)
    ensures TimeRangeBytes(o, t)[..8] == Field(o, t.start, 8) && TimeRangeBytes(o, t)[8..] == Field(o, t.end, 8)
  {}

  /** A name's characters, then zeros. */
  lemma NameLayout(s: string, i: nat)
    requires ValidName(s) && i < NAME_SIZE
    ensures NameBytes(s)[i] == if i < |s| then s[i] as int else 0
  {}
}
