/** Concrete conversations of client and child in which a list is not sent as announced: one after which a record stays
    unread, and one in which that record is taken for a reply header and the two sides come back into step by chance. */
module Conversations {
  import opened Records
  import opened Roles
  import opened Wire
  import opened Dialogue

  lemma {:induction false} RunContinues(s: State, ls: seq<Label>, more: seq<Label>)
    ensures Run(s, ls + more) == Run(Run(s, ls), more)
  {
    if more == [] {
      assert ls + more == ls;
    } else {
      RunContinues(s, ls, more[..|more| - 1]);
      assert (ls + more)[..|ls + more| - 1] == ls + more[..|more| - 1];
    }
  }

  lemma RunOfTwo(s: State, a: Label, b: Label)
    ensures Run(s, [a]) == Next(s, a) && Run(s, [a, b]) == Next(Next(s, a), b)
  {
    assert [a, b][..1] == [a] && [a][..0] == [];
  }

  /** However a reply is split on its way, it arrives as if sent at once. */
  lemma SplitsAreFree(s: State, count: nat)
    requires s.server.Replying? && 0 < count < |s.server.bytes|
    ensures var n := |s.server.bytes|;
      Run(s, [ServerSends(count), ServerSends(n - count)])
      == Next(s, ServerSends(n))
      == s.(toClient := s.toClient + s.server.bytes, server := s.server.next)
  {
    var bytes := s.server.bytes;
    RunOfTwo(s, ServerSends(count), ServerSends(|bytes| - count));
    assert bytes == bytes[..count] + bytes[count..] && bytes[..|bytes|] == bytes;
    assert bytes[count..][..|bytes| - count] == bytes[count..];
  }

  lemma TwoSteps(s: State, a: Label, b: Label, s1: State, s2: State)
    requires Next(s, a) == s1 && Next(s1, b) == s2
    ensures Run(s, [a, b]) == s2
  {
    RunOfTwo(s, a, b);
  }

  lemma ThreeSteps(s: State, a: Label, b: Label, c: Label, s1: State, s2: State, s3: State)
    requires Next(s, a) == s1 && Next(s1, b) == s2 && Next(s2, c) == s3
    ensures Run(s, [a, b, c]) == s3
  {
    RunOfTwo(s, a, b);
    assert [a, b, c][..2] == [a, b];
  }

  // ---------- a whole exchange, up to the reply in the client's stream ----------

  function Zeros(n: nat): (s: seq<Byte>)
    ensures |s| == n
  {
    seq(n, _ => 0)
  }

  /** Both sides idle with the same user; the client may have bytes before it. */
  function Resting(user: User, unread: seq<Byte>): State {
    State(Idle, Listening, user, user, [], unread)
  }

  /** The client of this user waits for the child, which is at this point of the exchange. */
  function Busy(x: Exchange, server: Server, user: User, toServer: seq<Byte>, unread: seq<Byte>): State {
    State(Waiting(x), server, user, user, toServer, unread)
  }

  predicate MayAsk(user: User, op: U32) {
    Allowed(op, user.userType) && op != OPCODE_CREATE_BOOKING
  }

  function Ask(op: U32): seq<Label> {
    var size := RequestSize(Simple(op));
    [Begin(op, Zeros(size)), ServerReads] + if size == 0 then [] else [ServerReads]
  }

  lemma SizesAgree(user: User, op: U32)
    requires MayAsk(user, op)
    ensures RequestSize(Simple(op)) == ExpectedSize(Simple(op)) && ExchangeFor(op) == Simple(op)
  {}

  lemma RequestIsSent(user: User, op: U32, payload: seq<Byte>, unread: seq<Byte>)
    requires MayAsk(user, op) && |payload| == RequestSize(Simple(op))
    ensures Next(Resting(user, unread), Begin(op, payload))
         == Busy(Simple(op), Listening, user, Request(Simple(op), payload), unread)
  {
    assert [] + Request(Simple(op), payload) == Request(Simple(op), payload);
  }

  lemma ReadStep(s: State, h: Header, rest: seq<Byte>)
    requires s.server.Listening? && |s.toServer| >= HEADER_SIZE
    requires HeadOf(s.toServer) == h && s.toServer[HEADER_SIZE..] == rest
    ensures Next(s, ServerReads) == ServerTakesHead(s.(toServer := rest), h)
  {}

  lemma DetailStep(s: State, h: Header, rest: seq<Byte>)
    requires s.server.Detail? && |s.toServer| >= HEADER_SIZE
    requires HeadOf(s.toServer) == h && s.toServer[HEADER_SIZE..] == rest
    ensures Next(s, ServerReads) == ServerTakesHead(s.(toServer := rest), h)
  {}

  lemma HeadIsTaken(user: User, op: U32, payload: seq<Byte>, unread: seq<Byte>)
    requires MayAsk(user, op) && |payload| == RequestSize(Simple(op))
    ensures var x := Simple(op);
      ServerTakesHead(Busy(x, Listening, user, payload, unread), Header(op, RequestSize(x)))
      == Busy(x, if payload == [] then Handling(x) else Payload(x), user, payload, unread)
  {
    SizesAgree(user, op);
  }

  lemma HeadIsRead(user: User, op: U32, payload: seq<Byte>, unread: seq<Byte>)
    requires MayAsk(user, op) && |payload| == RequestSize(Simple(op))
    ensures var x := Simple(op);
      Next(Busy(x, Listening, user, Request(x, payload), unread), ServerReads)
      == Busy(x, if payload == [] then Handling(x) else Payload(x), user, payload, unread)
  {
    var x := Simple(op);
    HeadCrosses(op, RequestSize(x), payload);
    ReadStep(Busy(x, Listening, user, Request(x, payload), unread), Header(op, RequestSize(x)), payload);
    HeadIsTaken(user, op, payload, unread);
  }

  lemma PayloadIsRead(user: User, x: Exchange, payload: seq<Byte>, unread: seq<Byte>)
    requires |payload| == ExpectedSize(x)
    ensures Next(Busy(x, Payload(x), user, payload, unread), ServerReads) == Busy(x, Handling(x), user, [], unread)
  {
    assert payload[|payload|..] == [];
  }

  /** The child has the request. */
  lemma Asked(user: User, op: U32, unread: seq<Byte>)
    requires MayAsk(user, op)
    ensures Run(Resting(user, unread), Ask(op)) == Busy(Simple(op), Handling(Simple(op)), user, [], unread)
  {
    var x, s, payload := Simple(op), Resting(user, unread), Zeros(RequestSize(Simple(op)));
    var heading := [Begin(op, payload), ServerReads];
    SizesAgree(user, op);
    RequestIsSent(user, op, payload, unread);
    HeadIsRead(user, op, payload, unread);
    RunOfTwo(s, heading[0], heading[1]);
    if payload == [] {
      assert Ask(op) == heading;
    } else {
      RunContinues(s, heading, [ServerReads]);
      RunOfTwo(Busy(x, Payload(x), user, payload, unread), ServerReads, ServerReads);
      PayloadIsRead(user, x, payload, unread);
    }
  }

  function Reply(op: U32, o: Outcome): seq<Label>
    requires Possible(Simple(op), o)
  {
    [ServerHandles(o), ServerSends(|ReplyBytes(Simple(op), o)|)]
  }

  /** The user the child holds after a request. */
  function After(user: User, op: U32, o: Outcome): User {
    if o.Succeeds? && o.records != [] && SetsUser(Simple(op)) && o.records[0].UserRecord? then o.records[0].user
    else user
  }

  lemma Sent(s: State, bytes: seq<Byte>, next: Server)
    requires s.server == Replying(bytes, next) && bytes != []
    ensures Next(s, ServerSends(|bytes|)) == s.(toClient := s.toClient + bytes, server := next)
  {
    assert bytes[..|bytes|] == bytes;
  }

  lemma Handled(user: User, op: U32, o: Outcome, unread: seq<Byte>, bytes: seq<Byte>)
    requires Possible(Simple(op), o) && op != OPCODE_LOGOUT && Afterwards(Simple(op), o) == Listening
    requires bytes == ReplyBytes(Simple(op), o)
    ensures var x := Simple(op);
      Next(Busy(x, Handling(x), user, [], unread), ServerHandles(o))
      == State(Waiting(x), Replying(bytes, Listening), user, After(user, op, o), [], unread)
  {}

  lemma Replied(user: User, op: U32, o: Outcome, unread: seq<Byte>)
    requires Possible(Simple(op), o) && op != OPCODE_LOGOUT && Afterwards(Simple(op), o) == Listening
    ensures var x := Simple(op);
      Run(Busy(x, Handling(x), user, [], unread), Reply(op, o))
      == State(Waiting(x), Listening, user, After(user, op, o), [], unread + ReplyBytes(x, o))
  {
    var x, bytes := Simple(op), ReplyBytes(Simple(op), o);
    RunOfTwo(Busy(x, Handling(x), user, [], unread), ServerHandles(o), ServerSends(|bytes|));
    Handled(user, op, o, unread, bytes);
    Sent(State(Waiting(x), Replying(bytes, Listening), user, After(user, op, o), [], unread), bytes, Listening);
  }

  function Serve(op: U32, o: Outcome): seq<Label>
    requires Possible(Simple(op), o)
  {
    Ask(op) + Reply(op, o)
  }

  lemma Served(user: User, op: U32, o: Outcome, unread: seq<Byte>)
    requires MayAsk(user, op) && Possible(Simple(op), o) && op != OPCODE_LOGOUT
    requires Afterwards(Simple(op), o) == Listening
    ensures Run(Resting(user, unread), Serve(op, o))
         == State(Waiting(Simple(op)), Listening, user, After(user, op, o), [], unread + ReplyBytes(Simple(op), o))
  {
    RunContinues(Resting(user, unread), Ask(op), Reply(op, o));
    Asked(user, op, unread);
    Replied(user, op, o, unread);
  }

  // ---------- the client reads ----------

  /** A client waiting for this reply, the child idle. */
  function Answered(x: Exchange, user: User, childUser: User, unread: seq<Byte>): State {
    State(Waiting(x), Listening, user, childUser, [], unread)
  }

  lemma ServedThen(user: User, op: U32, o: Outcome, unread: seq<Byte>, reply: seq<Byte>, more: seq<Label>)
    requires MayAsk(user, op) && Possible(Simple(op), o) && op != OPCODE_LOGOUT
    requires Afterwards(Simple(op), o) == Listening && reply == unread + ReplyBytes(Simple(op), o)
    ensures Run(Resting(user, unread), Serve(op, o) + more)
         == Run(Answered(Simple(op), user, After(user, op, o), reply), more)
  {
    Served(user, op, o, unread);
    RunContinues(Resting(user, unread), Serve(op, o), more);
  }

  lemma ReadHead(x: Exchange, user: User, childUser: User, unread: seq<Byte>, h: Header, rest: seq<Byte>)
    requires |unread| >= HEADER_SIZE && HeadOf(unread) == h && unread[HEADER_SIZE..] == rest
    ensures Next(Answered(x, user, childUser, unread), ClientReads)
         == ClientTakesHead(Answered(x, user, childUser, rest), x, h)
  {}

  lemma ReadOneRecord(x: Exchange, user: User, childUser: User, record: seq<Byte>)
    requires |record| == Unit(x)
    ensures Next(State(Reading(x, 1), Listening, user, childUser, [], record), ClientReads)
         == State(Done(x), Listening, if SetsUser(x) then ReadUser(record) else user, childUser, [], [])
  {
    assert record[Unit(x)..] == [] && record[..Unit(x)] == record;
  }

  /** Header and record of a reply with one record. */
  lemma ReadTwice(x: Exchange, user: User, childUser: User, reply: seq<Byte>, record: seq<Byte>)
    requires !IsList(x) && x.Simple? && Unit(x) > 0 && |record| == Unit(x) && |reply| >= HEADER_SIZE
    requires HeadOf(reply).operation == OPCODE_OK && HeadOf(reply).payloadSize == Unit(x)
    requires reply[HEADER_SIZE..] == record
    ensures Run(Answered(x, user, childUser, reply), [ClientReads, ClientReads])
         == State(Idle, Listening, if SetsUser(x) then ReadUser(record) else user, childUser, [], [])
  {
    RunOfTwo(Answered(x, user, childUser, reply), ClientReads, ClientReads);
    ReadHead(x, user, childUser, reply, HeadOf(reply), record);
    ReadOneRecord(x, user, childUser, record);
  }

  lemma OneRecord(r: Record)
    requires ValidRecord(r)
    ensures AllBytes(Big, [r]) == RecordBytes(Big, r)
  {
    assert [r][1..] == [];
    assert RecordBytes(Big, r) + [] == RecordBytes(Big, r);
  }

  lemma NothingBefore(bytes: seq<Byte>)
    ensures bytes == [] + bytes
  {}

  // ---------- a record too many ----------

  /** A list announced as empty, to which a booking joins before it is sent. */
  function Late(b: Booking): Outcome {
    Succeeds(0, [BookingRecord(b)])
  }

  predicate BookingsList(op: U32) {
    op == OPCODE_USERS_BOOKINGS_LIST || op == OPCODE_BOOKINGS_LIST_BY_ROOM_ID
  }

  lemma LateIsPossible(op: U32, b: Booking)
    requires BookingsList(op) && ValidName(b.username)
    ensures Possible(Simple(op), Late(b)) && Afterwards(Simple(op), Late(b)) == Listening
    ensures !Steady(ServerHandles(Late(b)))
  {}

  lemma LateReply(op: U32, b: Booking)
    requires BookingsList(op) && ValidName(b.username) && Possible(Simple(op), Late(b))
    ensures var reply := ReplyBytes(Simple(op), Late(b));
      HeadOf(reply) == Header(OPCODE_OK, 0) && reply[HEADER_SIZE..] == BookingBytes(Big, b)
  {
    OneRecord(BookingRecord(b));
    HeadCrosses(OPCODE_OK, 0, BookingBytes(Big, b));
  }

  function LateRun(op: U32, b: Booking): seq<Label>
    requires Possible(Simple(op), Late(b))
  {
    Serve(op, Late(b)) + [ClientReads]
  }

  lemma EmptyListIsRead(op: U32, user: User, reply: seq<Byte>, rest: seq<Byte>)
    requires BookingsList(op) && |reply| >= HEADER_SIZE
    requires HeadOf(reply) == Header(OPCODE_OK, 0) && reply[HEADER_SIZE..] == rest
    ensures Run(Answered(Simple(op), user, user, reply), [ClientReads]) == Resting(user, rest)
  {
    var s := Answered(Simple(op), user, user, reply);
    RunOfTwo(s, ClientReads, ClientReads);
    ReadHead(Simple(op), user, user, reply, Header(OPCODE_OK, 0), rest);
  }

  lemma ServedEmptyList(user: User, op: U32, o: Outcome, reply: seq<Byte>, rest: seq<Byte>)
    requires MayAsk(user, op) && BookingsList(op) && Possible(Simple(op), o) && Afterwards(Simple(op), o) == Listening
    requires reply == ReplyBytes(Simple(op), o)
    requires HeadOf(reply) == Header(OPCODE_OK, 0) && reply[HEADER_SIZE..] == rest
    ensures Run(Resting(user, []), Serve(op, o) + [ClientReads]) == Resting(user, rest)
  {
    assert After(user, op, o) == user;
    NothingBefore(reply);
    EmptyListIsRead(op, user, reply, rest);
    ServedThen(user, op, o, [], reply, [ClientReads]);
  }

  lemma LateRecordIsLeft(user: User, op: U32, b: Booking)
    requires MayAsk(user, op) && BookingsList(op) && ValidName(b.username) && Possible(Simple(op), Late(b))
    ensures Run(Resting(user, []), LateRun(op, b)) == Resting(user, BookingBytes(Big, b))
  {
    LateReply(op, b);
    ServedEmptyList(user, op, Late(b), ReplyBytes(Simple(op), Late(b)), BookingBytes(Big, b));
  }

  /** A booking that joins a room's list between the two passes is left unread while both sides are idle: the next reply
      header will be read out of its bytes. */
  lemma ExtraRecordStaysUnread(b: Booking) returns (ls: seq<Label>)
    requires ValidName(b.username)
    ensures var s := Run(CONNECTED, ls);
      s.client.Idle? && s.server.Listening? && s.toClient == BookingBytes(Big, b)
  {
    LateIsPossible(OPCODE_BOOKINGS_LIST_BY_ROOM_ID, b);
    ls := LateRun(OPCODE_BOOKINGS_LIST_BY_ROOM_ID, b);
    LateRecordIsLeft(GUEST_USER, OPCODE_BOOKINGS_LIST_BY_ROOM_ID, b);
  }

  // ---------- back into step by chance ----------

  lemma LoginIsPossible(user: User)
    requires ValidName(user.username)
    ensures var o := Succeeds(1, [UserRecord(user)]);
      Possible(Simple(OPCODE_LOGIN), o) && Afterwards(Simple(OPCODE_LOGIN), o) == Listening
  {}

  lemma LoginReply(user: User)
    requires ValidName(user.username) && Possible(Simple(OPCODE_LOGIN), Succeeds(1, [UserRecord(user)]))
    ensures var reply := ReplyBytes(Simple(OPCODE_LOGIN), Succeeds(1, [UserRecord(user)]));
      HeadOf(reply) == Header(OPCODE_OK, USER_SIZE) && reply[HEADER_SIZE..] == UserBytes(user)
  {
    OneRecord(UserRecord(user));
    HeadCrosses(OPCODE_OK, USER_SIZE, UserBytes(user));
  }

  function LoginRun(user: User): seq<Label>
    requires Possible(Simple(OPCODE_LOGIN), Succeeds(1, [UserRecord(user)]))
  {
    Serve(OPCODE_LOGIN, Succeeds(1, [UserRecord(user)])) + [ClientReads, ClientReads]
  }

  lemma ServedLogin(user: User, o: Outcome, reply: seq<Byte>, record: seq<Byte>)
    requires Possible(Simple(OPCODE_LOGIN), o) && Afterwards(Simple(OPCODE_LOGIN), o) == Listening
    requires After(GUEST_USER, OPCODE_LOGIN, o) == user && reply == ReplyBytes(Simple(OPCODE_LOGIN), o)
    requires HeadOf(reply) == Header(OPCODE_OK, USER_SIZE) && reply[HEADER_SIZE..] == record
    requires |record| == USER_SIZE && ReadUser(record) == user
    ensures Run(CONNECTED, Serve(OPCODE_LOGIN, o) + [ClientReads, ClientReads]) == Resting(user, [])
  {
    NothingBefore(reply);
    ReadTwice(Simple(OPCODE_LOGIN), GUEST_USER, user, reply, record);
    ServedThen(GUEST_USER, OPCODE_LOGIN, o, [], reply, [ClientReads, ClientReads]);
  }

  lemma LoggedIn(user: User)
    requires ValidName(user.username) && Possible(Simple(OPCODE_LOGIN), Succeeds(1, [UserRecord(user)]))
    ensures Run(CONNECTED, LoginRun(user)) == Resting(user, [])
  {
    var o := Succeeds(1, [UserRecord(user)]);
    LoginReply(user);
    UserCrosses(user);
    ServedLogin(user, o, ReplyBytes(Simple(OPCODE_LOGIN), o), UserBytes(user));
  }

  function MissRun(): seq<Label> {
    Serve(OPCODE_BOOKINGS_LIST_BY_BOOKING_ID, Fails) + [ClientReads, ClientReads]
  }

  /** The unread booking has the opcode for success for its id, and the size of a booking for its room. */
  predicate LooksLikeAReply(b: Booking) {
    b.id == OPCODE_OK && b.room == BOOKING_SIZE
  }

  lemma StartsLikeAReply(b: Booking, rest: seq<Byte>)
    requires ValidName(b.username) && LooksLikeAReply(b)
    ensures HeadOf(BookingBytes(Big, b) + rest) == Header(OPCODE_OK, BOOKING_SIZE)
  {
    BookingStartsLikeAHeader(Big, Big, b);
    assert (BookingBytes(Big, b) + rest)[..HEADER_SIZE] == BookingBytes(Big, b)[..HEADER_SIZE];
  }

  lemma ServedLookup(user: User, unread: seq<Byte>, reply: seq<Byte>)
    requires MayAsk(user, OPCODE_BOOKINGS_LIST_BY_BOOKING_ID)
    requires reply == unread + HeadBytes(OPCODE_ERROR, 0) && |reply| == HEADER_SIZE + BOOKING_SIZE
    requires HeadOf(reply) == Header(OPCODE_OK, BOOKING_SIZE)
    ensures Run(Resting(user, unread), MissRun()) == Resting(user, [])
  {
    ReadTwice(Simple(OPCODE_BOOKINGS_LIST_BY_BOOKING_ID), user, user, reply, reply[HEADER_SIZE..]);
    ServedThen(user, OPCODE_BOOKINGS_LIST_BY_BOOKING_ID, Fails, unread, reply, [ClientReads, ClientReads]);
  }

  /** Looking up an unknown id, the client takes the first eight bytes of the unread booking for the header of a
      booking, and the rest of it with the header of the failure for that booking. */
  lemma TakenForBooking(user: User, b: Booking)
    requires MayAsk(user, OPCODE_BOOKINGS_LIST_BY_BOOKING_ID) && ValidName(b.username) && LooksLikeAReply(b)
    ensures Run(Resting(user, BookingBytes(Big, b)), MissRun()) == Resting(user, [])
  {
    var op, unread := OPCODE_BOOKINGS_LIST_BY_BOOKING_ID, BookingBytes(Big, b);
    var reply := unread + HeadBytes(OPCODE_ERROR, 0);
    StartsLikeAReply(b, HeadBytes(OPCODE_ERROR, 0));
    ServedLookup(user, unread, reply);
  }

  lemma {:induction false} UnsteadyStepShows(ls: seq<Label>, k: nat, p: Label -> bool)
    requires k < |ls| && Enabled(Run(CONNECTED, ls[..k]), ls[k]) && !p(ls[k])
    ensures !Throughout(ls, p)
  {
    if k < |ls| - 1 {
      assert ls[..|ls| - 1][..k] == ls[..k];
      UnsteadyStepShows(ls[..|ls| - 1], k, p);
    }
  }

  lemma LateStepIsTaken(user: User, op: U32, b: Booking, before: seq<Label>)
    requires MayAsk(user, op) && BookingsList(op) && Possible(Simple(op), Late(b))
    requires Run(CONNECTED, before) == Resting(user, [])
    ensures Enabled(Run(CONNECTED, before + Ask(op)), ServerHandles(Late(b)))
  {
    RunContinues(CONNECTED, before, Ask(op));
    Asked(user, op, []);
  }

  lemma LateStepShows(user: User, op: U32, b: Booking, before: seq<Label>, after: seq<Label>)
    requires MayAsk(user, op) && BookingsList(op) && Possible(Simple(op), Late(b))
    requires Run(CONNECTED, before) == Resting(user, [])
    ensures !HandledSteadily(before + LateRun(op, b) + after)
  {
    var ls, asked := before + LateRun(op, b) + after, before + Ask(op);
    LateStepIsTaken(user, op, b, before);
    assert ls[..|asked|] == asked && ls[|asked|] == ServerHandles(Late(b));
    UnsteadyStepShows(ls, |asked|, Steady);
  }

  /** Why exact agreement needs its provision: a user's own list is sent with one booking too many, and then the two
      sides come back into step, if that booking has id 200 and room 64. */
  lemma BackIntoStepByChance(user: User, b: Booking) returns (ls: seq<Label>)
    requires user.userType == USER && ValidName(user.username) && ValidName(b.username) && LooksLikeAReply(b)
    ensures !HandledSteadily(ls) && InStep(Run(CONNECTED, ls))
  {
    LoginIsPossible(user);
    LateIsPossible(OPCODE_USERS_BOOKINGS_LIST, b);
    var login, late := LoginRun(user), LateRun(OPCODE_USERS_BOOKINGS_LIST, b);
    ls := login + late + MissRun();
    LoggedIn(user);
    LateRecordIsLeft(user, OPCODE_USERS_BOOKINGS_LIST, b);
    TakenForBooking(user, b);
    RunContinues(CONNECTED, login, late);
    RunContinues(CONNECTED, login + late, MissRun());
    LateStepShows(user, OPCODE_USERS_BOOKINGS_LIST, b, login, MissRun());
  }

  // ---------- every exchange can be completed ----------

  /** The client of this user waits for the reply to an exchange, which is before it; the child goes on
      from `server`. */
  function Facing(x: Exchange, server: Server, user: User, childUser: User, unread: seq<Byte>): State {
    State(Waiting(x), server, user, childUser, [], unread)
  }

  function Reads(n: nat): seq<Label> {
    seq(n, _ => ClientReads)
  }

  lemma ReadFirst(s: State, n: nat)
    requires n > 0
    ensures Run(s, Reads(n)) == Run(Next(s, ClientReads), Reads(n - 1))
  {
    assert Reads(n) == [ClientReads] + Reads(n - 1);
    RunContinues(s, [ClientReads], Reads(n - 1));
    RunOfTwo(s, ClientReads, ClientReads);
  }

  lemma {:induction false} ReadAll(x: Exchange, server: Server, user: User, childUser: User, n: nat, body: seq<Byte>)
    requires n > 0 && !SetsUser(x) && |body| == n * Unit(x)
    ensures Run(State(Reading(x, n), server, user, childUser, [], body), Reads(n))
         == State(Done(x), server, user, childUser, [], [])
  {
    var s := State(Reading(x, n), server, user, childUser, [], body);
    OneUnitLess(n, Unit(x));
    ReadFirst(s, n);
    if n == 1 {
      assert body[Unit(x)..] == [];
    } else {
      ReadAll(x, server, user, childUser, n - 1, body[Unit(x)..]);
    }
  }

  /** A steady success, header and body. */
  lemma SuccessIsRead(x: Exchange, server: Server, user: User, childUser: User, n: nat, reply: seq<Byte>)
    requires !SetsUser(x) && x != Simple(OPCODE_LOGOUT) && (IsList(x) || n == 1) && Unit(x) > 0
    requires |reply| >= HEADER_SIZE && |reply| - HEADER_SIZE == n * Unit(x)
    requires HeadOf(reply).operation == OPCODE_OK && HeadOf(reply).payloadSize == n * Unit(x)
    ensures Run(Facing(x, server, user, childUser, reply), Reads(n + 1))
         == State(Done(x), server, user, childUser, [], [])
  {
    var s, body := Facing(x, server, user, childUser, reply), reply[HEADER_SIZE..];
    WholeUnits(n, Unit(x));
    ReadFirst(s, n + 1);
    if n == 0 {
      assert body == [];
    } else {
      HeadBringsReading(x, server, user, childUser, n, reply);
      ReadAll(x, server, user, childUser, n, body);
    }
  }

  lemma HeadBringsReading(x: Exchange, server: Server, user: User, childUser: User, n: nat, reply: seq<Byte>)
    requires n > 0 && (IsList(x) || n == 1) && Unit(x) > 0 && |reply| >= HEADER_SIZE
    requires HeadOf(reply).operation == OPCODE_OK && HeadOf(reply).payloadSize == n * Unit(x)
    ensures Next(Facing(x, server, user, childUser, reply), ClientReads)
         == State(Reading(x, n), server, user, childUser, [], reply[HEADER_SIZE..])
  {
    WholeUnits(n, Unit(x));
    AtLeastOneUnit(n, Unit(x));
  }

  lemma FailureIsRead(x: Exchange, server: Server, user: User, childUser: User)
    ensures Run(Facing(x, server, user, childUser, HeadBytes(OPCODE_ERROR, 0)), Reads(1))
         == State(Idle, server, user, childUser, [], [])
  {
    var s := Facing(x, server, user, childUser, HeadBytes(OPCODE_ERROR, 0));
    ErrorHead();
    ReadFirst(s, 1);
    assert s.toClient[HEADER_SIZE..] == [];
  }

  /** How many reads a steady reply takes. */
  function ReadsFor(o: Outcome): nat {
    if o.Fails? then 1 else o.announced + 1
  }

  lemma ReplyIsRead(x: Exchange, server: Server, user: User, childUser: User, o: Outcome)
    requires Possible(x, o) && Steady(ServerHandles(o)) && !SetsUser(x) && x != Simple(OPCODE_LOGOUT) && Unit(x) > 0
    ensures Run(Facing(x, server, user, childUser, ReplyBytes(x, o)), Reads(ReadsFor(o)))
         == State(if o.Fails? then Idle else Done(x), server, user, childUser, [], [])
  {
    if o.Fails? {
      FailureIsRead(x, server, user, childUser);
    } else {
      SteadyReply(x, o);
      SuccessIsRead(x, server, user, childUser, o.announced, ReplyBytes(x, o));
    }
  }

  lemma ServedReply(user: User, op: U32, o: Outcome, reply: seq<Byte>, more: seq<Label>, end: State)
    requires MayAsk(user, op) && op != OPCODE_LOGOUT && Possible(Simple(op), o)
    requires Afterwards(Simple(op), o) == Listening && reply == ReplyBytes(Simple(op), o)
    requires Run(Facing(Simple(op), Listening, user, After(user, op, o), reply), more) == end
    ensures Run(Resting(user, []), Serve(op, o) + more) == end
  {
    NothingBefore(reply);
    ServedThen(user, op, o, [], reply, more);
  }

  lemma SignInReply(user: User, op: U32, o: Outcome, reply: seq<Byte>, record: seq<Byte>)
    requires op == OPCODE_LOGIN || op == OPCODE_SIGNUP
    requires Possible(Simple(op), o) && o.Succeeds? && |o.records| == o.announced
    requires reply == ReplyBytes(Simple(op), o) && record == AllBytes(Big, o.records)
    ensures HeadOf(reply).operation == OPCODE_OK && HeadOf(reply).payloadSize == USER_SIZE
    ensures reply[HEADER_SIZE..] == record && |record| == USER_SIZE && ReadUser(record) == After(user, op, o)
  {
    OneUser(Simple(op), o);
    SteadyReply(Simple(op), o);
  }

  lemma SignInIsRead(user: User, op: U32, o: Outcome, reply: seq<Byte>, record: seq<Byte>)
    requires op == OPCODE_LOGIN || op == OPCODE_SIGNUP
    requires Possible(Simple(op), o) && o.Succeeds? && |o.records| == o.announced
    requires reply == ReplyBytes(Simple(op), o) && record == AllBytes(Big, o.records)
    ensures Run(Facing(Simple(op), Listening, user, After(user, op, o), reply), [ClientReads, ClientReads])
         == Resting(After(user, op, o), [])
  {
    SignInReply(user, op, o, reply, record);
    UserIsRead(op, user, After(user, op, o), reply, record);
  }

  lemma UserIsRead(op: U32, user: User, newUser: User, reply: seq<Byte>, record: seq<Byte>)
    requires (op == OPCODE_LOGIN || op == OPCODE_SIGNUP) && |reply| >= HEADER_SIZE
    requires HeadOf(reply).operation == OPCODE_OK && HeadOf(reply).payloadSize == USER_SIZE
    requires reply[HEADER_SIZE..] == record && |record| == USER_SIZE && ReadUser(record) == newUser
    ensures Run(Facing(Simple(op), Listening, user, newUser, reply), [ClientReads, ClientReads]) == Resting(newUser, [])
  {
    ReadTwice(Simple(op), user, newUser, reply, record);
  }

  /** Every request but for creating a booking, with every steady outcome: the exchange can be completed, and leaves
      both sides idle with the same user, a new one for a login or signup. */
  lemma ExchangesComplete(user: User, op: U32, o: Outcome) returns (ls: seq<Label>)
    requires MayAsk(user, op) && op != OPCODE_LOGOUT && Possible(Simple(op), o) && Steady(ServerHandles(o))
    ensures Run(Resting(user, []), ls) == Resting(After(user, op, o), [])
  {
    var x, reply, end := Simple(op), ReplyBytes(Simple(op), o), Resting(After(user, op, o), []);
    if o.Fails? {
      FailureIsRead(x, Listening, user, user);
      ls := Serve(op, o) + Reads(1);
      ServedReply(user, op, o, reply, Reads(1), end);
    } else if SetsUser(x) {
      SignInIsRead(user, op, o, reply, AllBytes(Big, o.records));
      ls := Serve(op, o) + [ClientReads, ClientReads];
      ServedReply(user, op, o, reply, [ClientReads, ClientReads], end);
    } else {
      ReplyIsRead(x, Listening, user, user, o);
      ls := Serve(op, o) + Reads(ReadsFor(o));
      ServedReply(user, op, o, reply, Reads(ReadsFor(o)), end);
    }
  }

  lemma LogoutIsRead(user: User, reply: seq<Byte>)
    requires |reply| == HEADER_SIZE && HeadOf(reply) == Header(OPCODE_OK, 0)
    ensures Run(Facing(Simple(OPCODE_LOGOUT), Listening, user, GUEST_USER, reply), Reads(1)) == Resting(GUEST_USER, [])
  {
    ReadFirst(Facing(Simple(OPCODE_LOGOUT), Listening, user, GUEST_USER, reply), 1);
    assert reply[HEADER_SIZE..] == [];
  }

  lemma HandledAndSent(x: Exchange, user: User, childUser: User, o: Outcome, reply: seq<Byte>, next: Server)
    requires reply != [] && Next(Busy(x, Handling(x), user, [], []), ServerHandles(o))
                            == State(Waiting(x), Replying(reply, next), user, childUser, [], [])
    ensures Run(Busy(x, Handling(x), user, [], []), [ServerHandles(o), ServerSends(|reply|)])
         == Facing(x, next, user, childUser, reply)
  {
    var t := State(Waiting(x), Replying(reply, next), user, childUser, [], []);
    NothingBefore(reply);
    Sent(t, reply, next);
    TwoSteps(Busy(x, Handling(x), user, [], []), ServerHandles(o), ServerSends(|reply|),
             t, Facing(x, next, user, childUser, reply));
  }

  lemma LogoutReply(reply: seq<Byte>)
    requires reply == ReplyBytes(Simple(OPCODE_LOGOUT), Succeeds(0, []))
    ensures HeadOf(reply) == Header(OPCODE_OK, 0) && |reply| == HEADER_SIZE
  {
    SteadyReply(Simple(OPCODE_LOGOUT), Succeeds(0, []));
  }

  lemma LogoutIsReplied(user: User, reply: seq<Byte>)
    requires reply == ReplyBytes(Simple(OPCODE_LOGOUT), Succeeds(0, []))
    ensures var x := Simple(OPCODE_LOGOUT);
      Run(Busy(x, Handling(x), user, [], []), [ServerHandles(Succeeds(0, [])), ServerSends(|reply|)])
      == Facing(x, Listening, user, GUEST_USER, reply)
  {
    HandledAndSent(Simple(OPCODE_LOGOUT), user, GUEST_USER, Succeeds(0, []), reply, Listening);
  }

  /** Logging out, too, and both sides are guests. */
  lemma LogoutsComplete(user: User) returns (ls: seq<Label>)
    requires MayAsk(user, OPCODE_LOGOUT)
    ensures Run(Resting(user, []), ls) == Resting(GUEST_USER, [])
  {
    var op := OPCODE_LOGOUT;
    var reply := ReplyBytes(Simple(op), Succeeds(0, []));
    var handled := [ServerHandles(Succeeds(0, [])), ServerSends(|reply|)];
    Asked(user, op, []);
    LogoutReply(reply);
    LogoutIsReplied(user, reply);
    LogoutIsRead(user, reply);
    ls := Ask(op) + (handled + Reads(1));
    RunContinues(Resting(user, []), Ask(op), handled + Reads(1));
    RunContinues(Busy(Simple(op), Handling(Simple(op)), user, [], []), handled, Reads(1));
  }

  // ---------- the two-phase creation ----------

  lemma SentTo(x: Exchange, user: User, o: Outcome, reply: seq<Byte>)
    requires (x == CreateFirst || x == CreateSecond) && Possible(x, o) && reply == ReplyBytes(x, o)
    ensures Run(Busy(x, Handling(x), user, [], []), [ServerHandles(o), ServerSends(|reply|)])
         == Facing(x, Afterwards(x, o), user, user, reply)
  {
    HandledAndSent(x, user, user, o, reply, Afterwards(x, o));
  }

  /** From the handler of either phase to where the client has read the reply. */
  lemma PhaseIsAnswered(x: Exchange, user: User, o: Outcome) returns (ls: seq<Label>)
    requires (x == CreateFirst || x == CreateSecond) && Possible(x, o) && Steady(ServerHandles(o))
    ensures Run(Busy(x, Handling(x), user, [], []), ls)
         == State(if o.Fails? then Idle else Done(x), Afterwards(x, o), user, user, [], [])
  {
    var reply := ReplyBytes(x, o);
    var handled := [ServerHandles(o), ServerSends(|reply|)];
    SentTo(x, user, o, reply);
    ReplyIsRead(x, Afterwards(x, o), user, user, o);
    ls := handled + Reads(ReadsFor(o));
    RunContinues(Busy(x, Handling(x), user, [], []), handled, Reads(ReadsFor(o)));
  }

  lemma CreationIsBegun(user: User, payload: seq<Byte>)
    requires user.userType == USER && |payload| == ROOM_SIZE
    ensures Next(Resting(user, []), Begin(OPCODE_CREATE_BOOKING, payload))
         == Busy(CreateFirst, Listening, user, Request(CreateFirst, payload), [])
  {
    NothingBefore(Request(CreateFirst, payload));
  }

  lemma HeadIsReadAs(s: State, operation: U32, size: U32, payload: seq<Byte>, t: State)
    requires (s.server.Listening? || s.server.Detail?) && s.toServer == HeadBytes(operation, size) + payload
    requires ServerTakesHead(s.(toServer := payload), Header(operation, size)) == t
    ensures Next(s, ServerReads) == t
  {
    HeadCrosses(operation, size, payload);
    if s.server.Detail? {
      DetailStep(s, Header(operation, size), payload);
    } else {
      ReadStep(s, Header(operation, size), payload);
    }
  }

  lemma CreationHeadIsRead(user: User, payload: seq<Byte>)
    requires user.userType == USER && |payload| == ROOM_SIZE
    ensures Next(Busy(CreateFirst, Listening, user, Request(CreateFirst, payload), []), ServerReads)
         == Busy(CreateFirst, Payload(CreateFirst), user, payload, [])
  {
    HeadIsReadAs(Busy(CreateFirst, Listening, user, Request(CreateFirst, payload), []),
                 Opcode(CreateFirst), RequestSize(CreateFirst), payload,
                  Busy(CreateFirst, Payload(CreateFirst), user, payload, []));
  }

  lemma FirstPhaseIsAsked(user: User)
    requires user.userType == USER
    ensures Run(Resting(user, []), [Begin(OPCODE_CREATE_BOOKING, Zeros(ROOM_SIZE)), ServerReads, ServerReads])
         == Busy(CreateFirst, Handling(CreateFirst), user, [], [])
  {
    var payload := Zeros(ROOM_SIZE);
    CreationIsBegun(user, payload);
    CreationHeadIsRead(user, payload);
    PayloadIsRead(user, CreateFirst, payload, []);
    ThreeSteps(Resting(user, []), Begin(OPCODE_CREATE_BOOKING, payload), ServerReads, ServerReads,
               Busy(CreateFirst, Listening, user, Request(CreateFirst, payload), []),
               Busy(CreateFirst, Payload(CreateFirst), user, payload, []),
               Busy(CreateFirst, Handling(CreateFirst), user, [], []));
  }

  /** The client asks its user, the child waits for the details. */
  function Deciding(user: User): State {
    State(Choosing, Detail, user, user, [], [])
  }

  lemma CancelIsRead(user: User)
    ensures Run(Deciding(user), [Choose(false, []), ServerReads]) == Resting(user, [])
  {
    var bytes := HeadBytes(OPCODE_CANCEL, 0);
    var t := State(Idle, Detail, user, user, bytes, []);
    NothingBefore(bytes);
    HeadCrosses(OPCODE_CANCEL, 0, []);
    assert bytes + [] == bytes;
    DetailStep(t, Header(OPCODE_CANCEL, 0), []);
    TwoSteps(Deciding(user), Choose(false, []), ServerReads, t, Resting(user, []));
  }

  lemma DetailsAreSent(user: User, payload: seq<Byte>)
    requires |payload| == BOOKING_SIZE
    ensures Next(Deciding(user), Choose(true, payload))
         == Busy(CreateSecond, Detail, user, Request(CreateSecond, payload), [])
  {
    NothingBefore(Request(CreateSecond, payload));
  }

  lemma DetailsHeadIsRead(user: User, payload: seq<Byte>)
    requires |payload| == BOOKING_SIZE
    ensures Next(Busy(CreateSecond, Detail, user, Request(CreateSecond, payload), []), ServerReads)
         == Busy(CreateSecond, Payload(CreateSecond), user, payload, [])
  {
    HeadIsReadAs(Busy(CreateSecond, Detail, user, Request(CreateSecond, payload), []),
                 Opcode(CreateSecond), RequestSize(CreateSecond), payload,
                  Busy(CreateSecond, Payload(CreateSecond), user, payload, []));
  }

  lemma SecondPhaseIsAsked(user: User)
    ensures Run(Deciding(user), [Choose(true, Zeros(BOOKING_SIZE)), ServerReads, ServerReads])
         == Busy(CreateSecond, Handling(CreateSecond), user, [], [])
  {
    var payload := Zeros(BOOKING_SIZE);
    DetailsAreSent(user, payload);
    DetailsHeadIsRead(user, payload);
    PayloadIsRead(user, CreateSecond, payload, []);
    ThreeSteps(Deciding(user), Choose(true, payload), ServerReads, ServerReads,
               Busy(CreateSecond, Detail, user, Request(CreateSecond, payload), []),
               Busy(CreateSecond, Payload(CreateSecond), user, payload, []),
               Busy(CreateSecond, Handling(CreateSecond), user, [], []));
  }

  lemma SecondPhaseCompletes(user: User, proceed: bool, o: Outcome) returns (ls: seq<Label>)
    requires Possible(CreateSecond, o)
    ensures Run(Deciding(user), ls) == Resting(user, [])
  {
    if proceed {
      var asked := [Choose(true, Zeros(BOOKING_SIZE)), ServerReads, ServerReads];
      SecondPhaseIsAsked(user);
      var answered := PhaseIsAnswered(CreateSecond, user, o);
      RunContinues(Deciding(user), asked, answered);
      ls := asked + answered;
    } else {
      CancelIsRead(user);
      ls := [Choose(false, []), ServerReads];
    }
  }

  /** Whatever the preview brings, the user decides, and the creation brings, the exchange can be completed and leaves
      both sides idle with the same user. */
  lemma CreationsComplete(user: User, preview: Outcome, proceed: bool, o: Outcome) returns (ls: seq<Label>)
    requires user.userType == USER && Possible(CreateFirst, preview) && Steady(ServerHandles(preview))
    requires Possible(CreateSecond, o)
    ensures Run(Resting(user, []), ls) == Resting(user, [])
  {
    var asked := [Begin(OPCODE_CREATE_BOOKING, Zeros(ROOM_SIZE)), ServerReads, ServerReads];
    FirstPhaseIsAsked(user);
    var answered := PhaseIsAnswered(CreateFirst, user, preview);
    RunContinues(Resting(user, []), asked, answered);
    ls := asked + answered;
    if preview.Succeeds? {
      var rest := SecondPhaseCompletes(user, proceed, o);
      RunContinues(Resting(user, []), ls, rest);
      ls := ls + rest;
    }
  }
}
