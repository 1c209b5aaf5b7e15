/** The shipped client and its server child, stepping independently over two streams of bytes.  Each reads as many
    bytes as it expects and takes them for what it expects; a reader that cannot accept what it reads, or meets the end
    of the stream in the middle of a reply, gives up and is `Lost`.  Bytes are those of hosts of any order
    (`HeadersOnAnyHost`).  What the database makes of a request is an arbitrary outcome; `Listings` and `Refinement`
    say what it is for lists.  A label that is not enabled changes nothing. */
module Dialogue {
  import opened Records
  import opened Roles
  import opened Wire

  /** One request and its reply; creating a booking takes two of them. */
  datatype Exchange = Simple(opcode: U32) | CreateFirst | CreateSecond

  function ExchangeFor(opcode: U32): Exchange {
    if opcode == OPCODE_CREATE_BOOKING then CreateFirst else Simple(opcode)
  }

  function Opcode(x: Exchange): U32 {
    if x.Simple? then x.opcode else OPCODE_CREATE_BOOKING
  }

  /** The payload size the client announces. */
  function RequestSize(x: Exchange): U32 {
    match x
    case CreateFirst => ROOM_SIZE
    case CreateSecond => BOOKING_SIZE
    case Simple(op) =>
      if op == OPCODE_LOGIN || op == OPCODE_SIGNUP then CREDENTIALS_SIZE
      else if op == OPCODE_CREATE_ROOM || op == OPCODE_BOOKINGS_LIST_BY_ROOM_ID then ROOM_SIZE
      else if op == OPCODE_BOOKINGS_LIST_BY_USERNAME then USER_SIZE
      else if op == OPCODE_BOOKINGS_LIST_BY_STATUS then STATUS_SIZE
      else if op == OPCODE_BOOKINGS_LIST_BY_TIME_RANGE then TIME_RANGE_SIZE
      else if op == OPCODE_APPROVE_BOOKING || op == OPCODE_REJECT_BOOKING || op == OPCODE_FORCE_BOOKING_STATUS
           || op == OPCODE_BOOKINGS_LIST_BY_BOOKING_ID then BOOKING_SIZE
      else 0
  }

  /** The payload size the server's handler for the exchange insists on; the room list's does not look. */
  function ExpectedSize(x: Exchange): U32 {
    if x == CreateFirst || x == Simple(OPCODE_BOOKINGS_LIST_BY_ROOM_ID) || x == Simple(OPCODE_CREATE_ROOM)
    then ROOM_SIZE
    else if x == CreateSecond || x == Simple(OPCODE_APPROVE_BOOKING) || x == Simple(OPCODE_REJECT_BOOKING)
         || x == Simple(OPCODE_BOOKINGS_LIST_BY_BOOKING_ID) || x == Simple(OPCODE_FORCE_BOOKING_STATUS)
    then BOOKING_SIZE
    else if x == Simple(OPCODE_LOGIN) || x == Simple(OPCODE_SIGNUP) then CREDENTIALS_SIZE
    else if x == Simple(OPCODE_BOOKINGS_LIST_BY_USERNAME) then USER_SIZE
    else if x == Simple(OPCODE_BOOKINGS_LIST_BY_TIME_RANGE) then TIME_RANGE_SIZE
    else if x == Simple(OPCODE_BOOKINGS_LIST_BY_STATUS) then STATUS_SIZE
    else 0
  }

  predicate SizeAccepted(x: Exchange, size: U32) {
    x == Simple(OPCODE_ROOMS_LIST) || size == ExpectedSize(x)
  }

  /** The sizes by numbers. */
  lemma SizesExactly(op: U32)
    requires op != OPCODE_CREATE_BOOKING
    ensures RequestSize(Simple(op))
         == if op == 100 || op == 101 || op == 107 || op == 151 || op == 152 || op == 155 then 64
            else if op == 105 || op == 150 then 36
            else if op == 154 then 33
            else if op == 109 then 16
            else if op == 108 then 4
            else 0
    ensures RequestSize(CreateFirst) == 36 && RequestSize(CreateSecond) == 64
    ensures RecordSize(op)
         == if op == 100 || op == 101 then 33 else if op == 102 then 0 else if op == 104 || op == 150 then 36 else 64
  {}

  /** A header on the wire. */
  function HeadBytes(operation: U32, size: U32): (s: seq<Byte>)
    ensures |s| == HEADER_SIZE
  {
    HeaderBytes(Big, Header(operation, size))
  }

  /** What a reader of a header makes of the next bytes. */
  function HeadOf(s: seq<Byte>): Header
    requires |s| >= HEADER_SIZE
  {
    ReadHeader(Big, s[..HEADER_SIZE])
  }

  lemma HeadCrosses(operation: U32, size: U32, rest: seq<Byte>)
    ensures HeadOf(HeadBytes(operation, size) + rest) == Header(operation, size)
    ensures (HeadBytes(operation, size) + rest)[HEADER_SIZE..] == rest
  {
    HeaderCrosses(Big, Big, Header(operation, size));
    FrontAndRest(HeadBytes(operation, size), rest);
  }

  /** The size of one record of the reply. */
  function Unit(x: Exchange): nat {
    RecordSize(Opcode(x))
  }

  /** Replies with any number of records; all others have exactly one, or none for a logout. */
  predicate IsList(x: Exchange) {
    x.CreateFirst? || (x.Simple? && IsListOpcode(x.opcode))
  }

  predicate SetsUser(x: Exchange) {
    x == Simple(OPCODE_LOGIN) || x == Simple(OPCODE_SIGNUP)
  }

  // ---------- the two sides ----------

  datatype Client = Idle | Waiting(x: Exchange) | Reading(x: Exchange, left: nat) | Choosing | LostClient

  datatype Server =
    | Listening
    | Payload(x: Exchange)                            // header accepted, payload still to be read
    | Handling(x: Exchange)
    | Replying(bytes: seq<Byte>, next: Server)
    | Detail                                          // preview sent, second header of the creation still to be read
    | LostServer                                      // ended, the connection closed

  datatype State = State(client: Client, server: Server, clientUser: User, serverUser: User,
                         toServer: seq<Byte>, toClient: seq<Byte>)

  /** What the database makes of a request: failure, or success with so many records announced and these sent. */
  datatype Outcome = Fails | Succeeds(announced: nat, records: seq<Record>)

  datatype Label =
    | Begin(opcode: U32, payload: seq<Byte>)        // the user enters an opcode that passes the client's role check
    | Choose(proceed: bool, payload: seq<Byte>)     // the user gives the booking's details, or cancels
    | ClientReads
    | ServerReads
    | ServerHandles(outcome: Outcome)
    | ServerSends(count: nat)                       // as many bytes as the socket takes

  /** Counted in one locked section and sent in another, so more or fewer records than announced may be sent. */
  predicate IsTwoPass(x: Exchange) {
    IsList(x) && x != Simple(OPCODE_ROOMS_LIST)
  }

  /** A reply's size in bytes fits the header's field. */
  const LIST_LIMIT := 0x400_0000

  predicate Possible(x: Exchange, o: Outcome) {
    if x == Simple(OPCODE_LOGOUT) then o == Succeeds(0, [])
    else o.Succeeds? ==>
      && o.announced < LIST_LIMIT
      && (IsList(x) || o.announced == 1)
      && (|o.records| == o.announced || IsTwoPass(x))
      && forall i :: 0 <= i < |o.records| ==> ValidRecord(o.records[i]) && SizeOf(o.records[i]) == Unit(x)
  }

  /** As many records are sent as were announced. */
  predicate Steady(l: Label) {
    l.ServerHandles? && l.outcome.Succeeds? ==> |l.outcome.records| == l.outcome.announced
  }

  predicate Enabled(s: State, l: Label) {
    match l
    case Begin(op, payload) =>
      s.client.Idle? && Allowed(op, s.clientUser.userType) && |payload| == RequestSize(ExchangeFor(op))
    case Choose(proceed, payload) => s.client.Choosing? && |payload| == if proceed then RequestSize(CreateSecond) else 0
    case ClientReads =>
      && (s.client.Waiting? || s.client.Reading?)
      && (|s.toClient| >= (if s.client.Waiting? then HEADER_SIZE else Unit(s.client.x)) || s.server.LostServer?)
    case ServerReads =>
      || ((s.server.Listening? || s.server.Detail?) && |s.toServer| >= HEADER_SIZE)
      || (s.server.Payload? && |s.toServer| >= ExpectedSize(s.server.x))
    case ServerHandles(o) => s.server.Handling? && Possible(s.server.x, o)
    case ServerSends(count) => s.server.Replying? && 0 < count <= |s.server.bytes|
  }

  /** Where the client goes when the whole reply is read. */
  function Done(x: Exchange): Client {
    if x == CreateFirst then Choosing else Idle
  }

  /** The handlers differ in what they take for a failure. */
  predicate TakenForFailure(x: Exchange, h: Header) {
    if x == Simple(OPCODE_BOOKINGS_LIST_BY_TIME_RANGE) || x == Simple(OPCODE_BOOKINGS_LIST_BY_STATUS) then
      h.operation == OPCODE_ERROR || h.payloadSize == 0
    else if x == Simple(OPCODE_FORCE_BOOKING_STATUS) then h.operation == OPCODE_ERROR
    else h.operation == OPCODE_ERROR && h.payloadSize == 0
  }

  predicate TakenForSuccess(x: Exchange, h: Header) {
    h.operation == OPCODE_OK
    && if IsList(x) then h.payloadSize % Unit(x) == 0 else h.payloadSize == Unit(x)
  }

  function ClientTakesHead(s: State, x: Exchange, h: Header): State {
    if TakenForFailure(x, h) then s.(client := Idle)
    else if !TakenForSuccess(x, h) then s.(client := LostClient)
    else if h.payloadSize == 0 then
      s.(client := Done(x), clientUser := if x == Simple(OPCODE_LOGOUT) then GUEST_USER else s.clientUser)
    else s.(client := Reading(x, h.payloadSize / Unit(x)))
  }

  function ClientReadsMore(s: State): State
    requires Enabled(s, ClientReads)
  {
    var x := s.client.x;
    if s.client.Waiting? then
      if |s.toClient| < HEADER_SIZE then s.(client := LostClient)
      else ClientTakesHead(s.(toClient := s.toClient[HEADER_SIZE..]), x, HeadOf(s.toClient))
    else if |s.toClient| < Unit(x) then s.(client := LostClient)
    else
      s.(toClient := s.toClient[Unit(x)..],
         clientUser := if SetsUser(x) then ReadUser(s.toClient[..USER_SIZE]) else s.clientUser,
         client := if s.client.left <= 1 then Done(x) else Reading(x, s.client.left - 1))
  }

  function ServerTakesHead(s: State, h: Header): State {
    if s.server.Detail? then
      if h.operation == OPCODE_CANCEL then s.(server := Listening)
      else if h.operation == OPCODE_CREATE_BOOKING && h.payloadSize == BOOKING_SIZE then
        s.(server := Payload(CreateSecond))
      else s.(server := LostServer)
    else if !Allowed(h.operation, s.serverUser.userType) then
      // Refused: the payload, if any, stays unread.
      s.(toClient := s.toClient + HeadBytes(OPCODE_ERROR, 0))
    else
      var x := ExchangeFor(h.operation);
      if !SizeAccepted(x, h.payloadSize) then s.(server := LostServer)
      else s.(server := if ExpectedSize(x) == 0 then Handling(x) else Payload(x))
  }

  function ServerReadsMore(s: State): State
    requires Enabled(s, ServerReads)
  {
    if s.server.Payload? then
      s.(toServer := s.toServer[ExpectedSize(s.server.x)..], server := Handling(s.server.x))
    else
      ServerTakesHead(s.(toServer := s.toServer[HEADER_SIZE..]), HeadOf(s.toServer))
  }

  lemma AnnouncedFits(x: Exchange, o: Outcome)
    requires Possible(x, o) && o.Succeeds?
    ensures 0 <= o.announced * Unit(x) <= U32_MAX
  {}

  function ReplyBytes(x: Exchange, o: Outcome): (r: seq<Byte>)
    requires Possible(x, o)
    ensures |r| >= HEADER_SIZE
  {
    if o.Fails? then HeadBytes(OPCODE_ERROR, 0)
    else
      AnnouncedFits(x, o);
      HeadBytes(OPCODE_OK, o.announced * Unit(x)) + AllBytes(Big, o.records)
  }

  /** Where the child goes when its reply is sent: having sent fewer records than it announced, it ends itself. */
  function Afterwards(x: Exchange, o: Outcome): Server {
    if o.Succeeds? && |o.records| < o.announced then LostServer
    else if x == CreateFirst && o.Succeeds? then Detail
    else Listening
  }

  function ServerHandlesRequest(s: State, o: Outcome): State
    requires Enabled(s, ServerHandles(o))
  {
    var x := s.server.x;
    s.(server := Replying(ReplyBytes(x, o), Afterwards(x, o)),
       serverUser := if o.Fails? then s.serverUser
                     else if SetsUser(x) && o.records[0].UserRecord? then o.records[0].user
                     else if x == Simple(OPCODE_LOGOUT) then GUEST_USER
                     else s.serverUser)
  }

  function Request(x: Exchange, payload: seq<Byte>): seq<Byte> {
    HeadBytes(Opcode(x), RequestSize(x)) + payload
  }

  function Next(s: State, l: Label): State {
    if !Enabled(s, l) then s else
    match l
    case Begin(op, payload) =>
      s.(client := Waiting(ExchangeFor(op)), toServer := s.toServer + Request(ExchangeFor(op), payload))
    case Choose(proceed, payload) =>
      if proceed then s.(client := Waiting(CreateSecond), toServer := s.toServer + Request(CreateSecond, payload))
      else s.(client := Idle, toServer := s.toServer + HeadBytes(OPCODE_CANCEL, 0))
    case ClientReads => ClientReadsMore(s)
    case ServerReads => ServerReadsMore(s)
    case ServerHandles(o) => ServerHandlesRequest(s, o)
    case ServerSends(count) =>
      s.(toClient := s.toClient + s.server.bytes[..count],
         server := if count == |s.server.bytes| then s.server.next
                   else s.server.(bytes := s.server.bytes[count..]))
  }

  /** A list of bookings may be announced at one length and sent at any other. */
  lemma ListsOfAnyLength(x: Exchange, announced: nat, records: seq<Record>)
    requires x == CreateFirst || (x.Simple? && (x.opcode == 105 || x.opcode == 106 || x.opcode == 108
                                                || x.opcode == 109 || x.opcode == 153 || x.opcode == 154))
    requires announced < 0x400_0000
    requires forall i :: 0 <= i < |records| ==> records[i].BookingRecord? && ValidName(records[i].booking.username)
    ensures Possible(x, Succeeds(announced, records))
  {}

  function Run(s: State, ls: seq<Label>): State {
    if ls == [] then s else Next(Run(s, ls[..|ls| - 1]), ls[|ls| - 1])
  }

  const CONNECTED := State(Idle, Listening, GUEST_USER, GUEST_USER, [], [])

  /** p holds of every enabled step of the run. */
  predicate Throughout(ls: seq<Label>, p: Label -> bool) {
    ls == []
    || (Throughout(ls[..|ls| - 1], p) && (Enabled(Run(CONNECTED, ls[..|ls| - 1]), ls[|ls| - 1]) ==> p(ls[|ls| - 1])))
  }

  /** Every list the child handled along the run was sent as announced. */
  predicate HandledSteadily(ls: seq<Label>) {
    Throughout(ls, Steady)
  }

  // ---------- the invariant ----------

  /** Everything on its way to the client, sent or about to be sent. */
  function Coming(s: State): seq<Byte> {
    s.toClient + if s.server.Replying? then s.server.bytes else []
  }

  function Settled(s: State): Server {
    if s.server.Replying? then s.server.next else s.server
  }

  /** A header and what follows it make a whole reply. */
  predicate Answer(s: State, x: Exchange, h: Header, rest: seq<Byte>) {
    || (h == Header(OPCODE_ERROR, 0) && rest == [] && s.clientUser == s.serverUser && Settled(s) == Listening)
    || (h.operation == OPCODE_OK && h.payloadSize == |rest|
        && (if IsList(x) then |rest| % Unit(x) == 0 else |rest| == Unit(x))
        && RestOfReply(s, x, rest))
  }

  predicate WholeReply(s: State, x: Exchange, bytes: seq<Byte>) {
    |bytes| >= HEADER_SIZE && Answer(s, x, HeadOf(bytes), bytes[HEADER_SIZE..])
  }

  predicate RestOfReply(s: State, x: Exchange, bytes: seq<Byte>) {
    && (if SetsUser(x) then |bytes| == USER_SIZE && ReadUser(bytes) == s.serverUser
        else if x == Simple(OPCODE_LOGOUT) then s.serverUser == GUEST_USER
        else s.clientUser == s.serverUser)
    && Settled(s) == if x == CreateFirst then Detail else Listening
  }

  /** The stream holds a request and nothing else. */
  predicate Requested(stream: seq<Byte>, x: Exchange) {
    |stream| == HEADER_SIZE + RequestSize(x) && HeadOf(stream) == Header(Opcode(x), RequestSize(x))
  }

  predicate Cancelled(stream: seq<Byte>) {
    |stream| >= HEADER_SIZE && HeadOf(stream) == Header(OPCODE_CANCEL, 0)
  }

  predicate Asked(s: State, x: Exchange) {
    && s.clientUser == s.serverUser && s.toClient == []
    && Allowed(Opcode(x), s.serverUser.userType)
    && match s.server {
      case Listening => x != CreateSecond && Requested(s.toServer, x)
      case Payload(y) => y == x && RequestSize(x) > 0 && |s.toServer| == RequestSize(x)
      case Handling(y) => y == x && s.toServer == []
      case Detail =>
        if x == CreateSecond then Requested(s.toServer, x)
        else Cancelled(s.toServer) && Requested(s.toServer[HEADER_SIZE..], x)
      case _ => false
    }
  }

  predicate Inv(s: State) {
    && (s.server.Replying? ==> s.server.bytes != [] && (s.server.next.Listening? || s.server.next.Detail?))
    && match s.client {
      case Idle =>
        && s.clientUser == s.serverUser && s.toClient == []
        && ((s.server.Listening? && s.toServer == [])
            || (s.server.Detail? && Cancelled(s.toServer) && |s.toServer| == HEADER_SIZE))
      case Waiting(x) =>
        && (x.Simple? ==> x.opcode != OPCODE_CREATE_BOOKING)
        && (Asked(s, x) || (s.toServer == [] && WholeReply(s, x, Coming(s))))
      case Reading(x, left) =>
        && s.toServer == [] && left > 0 && x != Simple(OPCODE_LOGOUT)
        && |Coming(s)| == left * Unit(x) && RestOfReply(s, x, Coming(s))
      case Choosing => s.clientUser == s.serverUser && s.toServer == [] && s.toClient == [] && s.server.Detail?
      case LostClient => false
    }
    && (Settled(s).Detail? ==> Allowed(OPCODE_CREATE_BOOKING, s.serverUser.userType))
  }

  // ---------- every step keeps it ----------

  lemma RequestIsRequested(x: Exchange, payload: seq<Byte>)
    requires |payload| == RequestSize(x)
    ensures Requested(Request(x, payload), x)
  {
    HeadCrosses(Opcode(x), RequestSize(x), payload);
  }

  lemma BeginKeeps(s: State, op: U32, payload: seq<Byte>)
    requires Inv(s) && Enabled(s, Begin(op, payload))
    ensures Inv(Next(s, Begin(op, payload)))
  {
    var x := ExchangeFor(op);
    RequestIsRequested(x, payload);
    var t := Next(s, Begin(op, payload));
    if s.server.Detail? {
      assert t.toServer[..HEADER_SIZE] == s.toServer[..HEADER_SIZE];
      assert t.toServer[HEADER_SIZE..] == Request(x, payload);
    } else {
      assert t.toServer == Request(x, payload);
    }
  }

  lemma AskedIsInv(t: State, x: Exchange)
    requires t.client == Waiting(x) && Asked(t, x) && (x.Simple? ==> x.opcode != OPCODE_CREATE_BOOKING)
    requires t.server.Detail? ==> Allowed(OPCODE_CREATE_BOOKING, t.serverUser.userType)
    ensures Inv(t)
  {}

  lemma CancelKeeps(s: State)
    requires Inv(s) && Enabled(s, Choose(false, []))
    ensures Inv(Next(s, Choose(false, [])))
  {
    HeadCrosses(OPCODE_CANCEL, 0, []);
    assert HeadBytes(OPCODE_CANCEL, 0) + [] == HeadBytes(OPCODE_CANCEL, 0);
    assert [] + HeadBytes(OPCODE_CANCEL, 0) == HeadBytes(OPCODE_CANCEL, 0);
  }

  lemma ProceedKeeps(s: State, payload: seq<Byte>)
    requires Inv(s) && Enabled(s, Choose(true, payload))
    ensures Inv(Next(s, Choose(true, payload)))
  {
    RequestIsRequested(CreateSecond, payload);
    assert [] + Request(CreateSecond, payload) == Request(CreateSecond, payload);
    AskedIsInv(Next(s, Choose(true, payload)), CreateSecond);
  }

  lemma RequestHeadIsTaken(t: State, x: Exchange, h: Header)
    requires t.client == Waiting(x) && t.clientUser == t.serverUser && t.toClient == []
    requires Allowed(Opcode(x), t.serverUser.userType) && (x.Simple? ==> x.opcode != OPCODE_CREATE_BOOKING)
    requires h == Header(Opcode(x), RequestSize(x)) && |t.toServer| == RequestSize(x)
    requires if x == CreateSecond then t.server.Detail? else t.server.Listening?
    ensures Asked(ServerTakesHead(t, h), x) && !ServerTakesHead(t, h).server.Detail?
  {}

  /** A request read: header first, then the payload if there is one. */
  lemma RequestReadKeeps(s: State, x: Exchange)
    requires Inv(s) && Enabled(s, ServerReads) && s.client == Waiting(x) && Asked(s, x)
    requires s.server.Detail? ==> x == CreateSecond
    ensures Inv(Next(s, ServerReads))
  {
    if !s.server.Payload? {
      RequestHeadIsTaken(s.(toServer := s.toServer[HEADER_SIZE..]), x, HeadOf(s.toServer));
    }
    AskedIsInv(Next(s, ServerReads), x);
  }

  lemma CancelReadKeeps(s: State, x: Exchange)
    requires Inv(s) && Enabled(s, ServerReads) && s.client == Waiting(x) && Asked(s, x)
    requires s.server.Detail? && x != CreateSecond
    ensures Inv(Next(s, ServerReads))
  {
    AskedIsInv(Next(s, ServerReads), x);
  }

  lemma ServerReadsKeeps(s: State)
    requires Inv(s) && Enabled(s, ServerReads)
    ensures Inv(Next(s, ServerReads))
  {
    if s.client.Waiting? {
      if s.server.Detail? && s.client.x != CreateSecond {
        CancelReadKeeps(s, s.client.x);
      } else {
        RequestReadKeeps(s, s.client.x);
      }
    }
  }

  lemma ReplyTakenApart(x: Exchange, o: Outcome)
    requires Possible(x, o) && o.Succeeds?
    ensures var bytes := ReplyBytes(x, o);
      && HeadOf(bytes).operation == OPCODE_OK && HeadOf(bytes).payloadSize == o.announced * Unit(x)
      && bytes[HEADER_SIZE..] == AllBytes(Big, o.records)
  {
    AnnouncedFits(x, o);
    HeadCrosses(OPCODE_OK, o.announced * Unit(x), AllBytes(Big, o.records));
  }

  /** A steady reply is whole: its header announces the bytes behind it. */
  lemma SteadyReply(x: Exchange, o: Outcome)
    requires Possible(x, o) && o.Succeeds? && |o.records| == o.announced
    ensures var bytes := ReplyBytes(x, o);
      && HeadOf(bytes).operation == OPCODE_OK && HeadOf(bytes).payloadSize == |bytes| - HEADER_SIZE
      && |bytes| - HEADER_SIZE == o.announced * Unit(x)
      && bytes[HEADER_SIZE..] == AllBytes(Big, o.records)
  {
    ReplyTakenApart(x, o);
    AllBytesLength(Big, o.records, Unit(x));
  }

  lemma OneUser(x: Exchange, o: Outcome)
    requires Possible(x, o) && o.Succeeds? && SetsUser(x)
    ensures |o.records| == 1 && o.records[0].UserRecord?
    ensures AllBytes(Big, o.records) == UserBytes(o.records[0].user)
    ensures ReadUser(AllBytes(Big, o.records)) == o.records[0].user
  {
    assert o.records[1..] == [];
    UserCrosses(o.records[0].user);
  }

  lemma ErrorHead()
    ensures HeadOf(HeadBytes(OPCODE_ERROR, 0)) == Header(OPCODE_ERROR, 0)
  {
    HeadCrosses(OPCODE_ERROR, 0, []);
    assert HeadBytes(OPCODE_ERROR, 0) + [] == HeadBytes(OPCODE_ERROR, 0);
  }

  lemma FailureIsWhole(s: State, o: Outcome)
    requires Inv(s) && Enabled(s, ServerHandles(o)) && o.Fails?
    ensures var t := Next(s, ServerHandles(o)); WholeReply(t, s.server.x, ReplyBytes(s.server.x, o))
  {
    assert Asked(s, s.server.x);
    ErrorHead();
  }

  lemma SuccessIsAnswer(t: State, x: Exchange, o: Outcome, h: Header, rest: seq<Byte>)
    requires Possible(x, o) && o.Succeeds? && RestOfReply(t, x, rest)
    requires h.operation == OPCODE_OK && h.payloadSize == |rest| == o.announced * Unit(x)
    ensures Answer(t, x, h, rest)
  {
    WholeUnits(o.announced, Unit(x));
  }

  lemma SuccessIsWhole(t: State, x: Exchange, o: Outcome)
    requires Possible(x, o) && o.Succeeds? && |o.records| == o.announced
    requires RestOfReply(t, x, AllBytes(Big, o.records))
    ensures WholeReply(t, x, ReplyBytes(x, o))
  {
    SteadyReply(x, o);
    SuccessIsAnswer(t, x, o, HeadOf(ReplyBytes(x, o)), AllBytes(Big, o.records));
  }

  /** The child after handling a request, its reply being these bytes. */
  lemma HandledState(s: State, o: Outcome, bytes: seq<Byte>)
    requires Inv(s) && Enabled(s, ServerHandles(o)) && bytes == ReplyBytes(s.server.x, o)
    ensures var t, x := Next(s, ServerHandles(o)), s.server.x;
      && t.client == Waiting(x) && t.toServer == [] && t.toClient == [] && t.clientUser == s.serverUser
      && t.server == Replying(bytes, Afterwards(x, o))
      && (x.Simple? ==> x.opcode != OPCODE_CREATE_BOOKING)
      && (x == CreateFirst ==> Allowed(OPCODE_CREATE_BOOKING, t.serverUser.userType))
  {
    assert Asked(s, s.server.x);
  }

  lemma SuccessIsAnswered(s: State, o: Outcome)
    requires Inv(s) && Enabled(s, ServerHandles(o)) && Steady(ServerHandles(o)) && o.Succeeds?
    ensures var t, x := Next(s, ServerHandles(o)), s.server.x;
      RestOfReply(t, x, AllBytes(Big, o.records))
  {
    HandledState(s, o, ReplyBytes(s.server.x, o));
    if SetsUser(s.server.x) { OneUser(s.server.x, o); }
  }

  lemma HandledIsWhole(s: State, o: Outcome)
    requires Inv(s) && Enabled(s, ServerHandles(o)) && Steady(ServerHandles(o))
    ensures WholeReply(Next(s, ServerHandles(o)), s.server.x, ReplyBytes(s.server.x, o))
  {
    if o.Fails? {
      FailureIsWhole(s, o);
    } else {
      SuccessIsAnswered(s, o);
      SuccessIsWhole(Next(s, ServerHandles(o)), s.server.x, o);
    }
  }

  lemma RepliedIsInv(t: State, x: Exchange)
    requires t.client == Waiting(x) && t.toServer == [] && t.toClient == [] && t.server.Replying?
    requires (x.Simple? ==> x.opcode != OPCODE_CREATE_BOOKING) && WholeReply(t, x, t.server.bytes)
    requires t.server.next.Listening?
          || (t.server.next.Detail? && Allowed(OPCODE_CREATE_BOOKING, t.serverUser.userType))
    ensures Inv(t)
  {
    assert Coming(t) == t.server.bytes;
  }

  lemma ServerHandlesKeeps(s: State, o: Outcome)
    requires Inv(s) && Enabled(s, ServerHandles(o)) && Steady(ServerHandles(o))
    ensures Inv(Next(s, ServerHandles(o)))
  {
    HandledState(s, o, ReplyBytes(s.server.x, o));
    HandledIsWhole(s, o);
    RepliedIsInv(Next(s, ServerHandles(o)), s.server.x);
  }

  lemma WholeUnits(count: nat, unit: nat)
    requires unit == USER_SIZE || unit == ROOM_SIZE || unit == BOOKING_SIZE || unit == 0
    ensures unit > 0 ==> (count * unit) % unit == 0 && (count * unit) / unit == count
    ensures count == 1 ==> count * unit == unit
  {}

  lemma ServerSendsKeeps(s: State, count: nat)
    requires Inv(s) && Enabled(s, ServerSends(count))
    ensures Inv(Next(s, ServerSends(count)))
  {
    var t := Next(s, ServerSends(count));
    assert Coming(t) == Coming(s);
    assert Settled(t) == Settled(s);
  }

  /** The client has a whole reply before it. */
  predicate ReplyComing(s: State) {
    Inv(s) && Enabled(s, ClientReads) && s.client.Waiting? && s.toServer == [] && WholeReply(s, s.client.x, Coming(s))
  }

  lemma HeadIsComing(s: State)
    requires ReplyComing(s)
    ensures |s.toClient| >= HEADER_SIZE && HeadOf(s.toClient) == HeadOf(Coming(s))
    ensures Coming(s.(toClient := s.toClient[HEADER_SIZE..])) == Coming(s)[HEADER_SIZE..]
  {
    assert s.toClient[..HEADER_SIZE] == Coming(s)[..HEADER_SIZE];
  }

  lemma DividedUp(size: nat, unit: nat)
    requires unit == USER_SIZE || unit == ROOM_SIZE || unit == BOOKING_SIZE
    requires size > 0 && size % unit == 0
    ensures size / unit > 0 && size / unit * unit == size
  {}

  /** After the header of a successful reply the client reads exactly the records still coming. */
  lemma TakingHeadKeeps(u: State, x: Exchange, h: Header)
    requires u.client == Waiting(x) && u.toServer == [] && Answer(u, x, h, Coming(u))
    requires u.server.Replying? ==> u.server.bytes != [] && (u.server.next.Listening? || u.server.next.Detail?)
    requires Settled(u).Detail? ==> Allowed(OPCODE_CREATE_BOOKING, u.serverUser.userType)
    ensures Inv(ClientTakesHead(u, x, h))
  {
    if Coming(u) == [] {
      assert u.toClient == [] && !u.server.Replying?;
    } else {
      DividedUp(|Coming(u)|, Unit(x));
    }
  }

  lemma ClientReadsHeadKeeps(s: State)
    requires Inv(s) && Enabled(s, ClientReads) && s.client.Waiting?
    ensures Inv(Next(s, ClientReads))
  {
    assert !Asked(s, s.client.x);
    HeadIsComing(s);
    TakingHeadKeeps(s.(toClient := s.toClient[HEADER_SIZE..]), s.client.x, HeadOf(s.toClient));
  }

  lemma ClientReadsRecordKeeps(s: State)
    requires Inv(s) && Enabled(s, ClientReads) && s.client.Reading?
    ensures Inv(Next(s, ClientReads))
  {
    var t, x, left := Next(s, ClientReads), s.client.x, s.client.left;
    OneUnitLess(left, Unit(x));
    assert |s.toClient| >= Unit(x);
    assert Coming(t) == Coming(s)[Unit(x)..];
    if SetsUser(x) {
      assert left == 1 && s.toClient[..USER_SIZE] == Coming(s);
    }
  }

  lemma OneUnitLess(left: nat, unit: nat)
    requires left > 0
    ensures left * unit == (left - 1) * unit + unit
    ensures unit == USER_SIZE && left * unit == USER_SIZE ==> left == 1
  {}

  lemma StepKeeps(s: State, l: Label)
    requires Inv(s) && (Enabled(s, l) ==> Steady(l))
    ensures Inv(Next(s, l))
  {
    if Enabled(s, l) {
      match l {
        case Begin(op, payload) => BeginKeeps(s, op, payload);
        case Choose(proceed, payload) => if proceed { ProceedKeeps(s, payload); } else { CancelKeeps(s); }
        case ClientReads => if s.client.Waiting? { ClientReadsHeadKeeps(s); } else { ClientReadsRecordKeeps(s); }
        case ServerReads => ServerReadsKeeps(s);
        case ServerHandles(o) => ServerHandlesKeeps(s, o);
        case ServerSends(count) => ServerSendsKeeps(s, count);
      }
    }
  }

  lemma {:induction false} RunKeeps(ls: seq<Label>)
    requires HandledSteadily(ls)
    ensures Inv(Run(CONNECTED, ls))
  {
    if ls != [] {
      RunKeeps(ls[..|ls| - 1]);
      StepKeeps(Run(CONNECTED, ls[..|ls| - 1]), ls[|ls| - 1]);
    }
  }

  // ---------- what follows ----------

  /** Neither side ever loses the other, and every request the server finds is one its role check lets through. */
  lemma SidesAgree(ls: seq<Label>)
    requires HandledSteadily(ls)
    ensures var s := Run(CONNECTED, ls);
      && !s.client.LostClient? && !s.server.LostServer?
      && (s.server.Listening? && s.toServer != [] ==>
            |s.toServer| >= HEADER_SIZE && Allowed(HeadOf(s.toServer).operation, s.serverUser.userType))
  {
    RunKeeps(ls);
  }

  /** Session agreement: both sides hold the same user and wait for the client's user, and nothing is unread in either
      direction. */
  predicate InStep(s: State) {
    && s.clientUser == s.serverUser && s.toServer == [] && s.toClient == []
    && ((s.client.Idle? && s.server.Listening?) || (s.client.Choosing? && s.server.Detail?))
  }

  /** Nothing can happen before the client's user does something. */
  predicate Quiet(s: State) {
    !Enabled(s, ClientReads) && !Enabled(s, ServerReads) && !Enabled(s, ServerSends(1)) && !s.server.Handling?
  }

  lemma QuietIsInStep(s: State)
    requires Inv(s) && (Quiet(s) || (s.client.Idle? && s.server.Listening?))
    ensures InStep(s)
  {
    if s.client.Reading? {
      AtLeastOneUnit(s.client.left, Unit(s.client.x));
    }
  }

  lemma AtLeastOneUnit(left: nat, unit: nat)
    requires left > 0
    ensures left * unit >= unit
  {}

  // ---------- and what follows from one list not sent as announced ----------

  /** No handler of the client takes this header for that of a reply it can go on with. */
  predicate NoReplyHeader(h: Header) {
    && h.operation != OPCODE_ERROR && h.payloadSize != 0
    && (h.operation == OPCODE_OK ==>
          h.payloadSize % BOOKING_SIZE != 0 && h.payloadSize % ROOM_SIZE != 0 && h.payloadSize != USER_SIZE)
  }

  lemma NoReplyHeaderExactly(h: Header)
    ensures NoReplyHeader(h) <==> forall x :: !TakenForFailure(x, h) && !TakenForSuccess(x, h)
  {
    if !NoReplyHeader(h) {
      assert TakenForFailure(Simple(OPCODE_BOOKINGS_LIST_BY_STATUS), h)
          || TakenForSuccess(Simple(OPCODE_USERS_BOOKINGS_LIST), h)
          || TakenForSuccess(Simple(OPCODE_ROOMS_LIST), h)
          || TakenForSuccess(Simple(OPCODE_LOGIN), h);
    }
  }

  /** The first record too many does not start, with its id and its room, like the header of a reply. */
  predicate SurplusIsDistinct(l: Label) {
    l.ServerHandles? && l.outcome.Succeeds? && |l.outcome.records| > l.outcome.announced ==>
      var r := l.outcome.records[l.outcome.announced];
      r.BookingRecord? ==> NoReplyHeader(Header(r.booking.id, r.booking.room))
  }

  /** The next bytes are taken by no handler for a header. */
  predicate Foreign(bytes: seq<Byte>) {
    |bytes| >= HEADER_SIZE && NoReplyHeader(HeadOf(bytes))
  }

  /** Of the `left` records the client is going to read, not all are coming; or something foreign comes behind them. */
  predicate Misannounced(s: State, x: Exchange, bytes: seq<Byte>, left: nat) {
    && IsTwoPass(x)
    && if |bytes| < left * BOOKING_SIZE then Settled(s).LostServer? else Foreign(bytes[left * BOOKING_SIZE..])
  }

  predicate MisannouncedBy(s: State, x: Exchange, h: Header, rest: seq<Byte>) {
    h.operation == OPCODE_OK && h.payloadSize % BOOKING_SIZE == 0
    && Misannounced(s, x, rest, h.payloadSize / BOOKING_SIZE)
  }

  predicate Astray(s: State) {
    match s.client
    case LostClient => true
    case Idle => Foreign(Coming(s))
    case Choosing => Foreign(Coming(s))
    case Waiting(x) =>
      |Coming(s)| >= HEADER_SIZE
      && (NoReplyHeader(HeadOf(Coming(s))) || MisannouncedBy(s, x, HeadOf(Coming(s)), Coming(s)[HEADER_SIZE..]))
    case Reading(x, left) => left > 0 && Misannounced(s, x, Coming(s), left)
  }

  lemma BookingIsForeign(b: Booking, bytes: seq<Byte>)
    requires ValidName(b.username) && NoReplyHeader(Header(b.id, b.room))
    requires |bytes| >= BOOKING_SIZE && bytes[..BOOKING_SIZE] == BookingBytes(Big, b)
    ensures Foreign(bytes)
  {
    assert bytes[..HEADER_SIZE] == bytes[..BOOKING_SIZE][..HEADER_SIZE];
    BookingStartsLikeAHeader(Big, Big, b);
  }

  lemma ShortIsMisannounced(t: State, x: Exchange, o: Outcome)
    requires Possible(x, o) && o.Succeeds? && |o.records| < o.announced
    requires Settled(t) == Afterwards(x, o)
    ensures Misannounced(t, x, AllBytes(Big, o.records), o.announced)
  {
    AllBytesLength(Big, o.records, BOOKING_SIZE);
  }

  lemma LongIsMisannounced(t: State, x: Exchange, o: Outcome)
    requires Possible(x, o) && o.Succeeds? && |o.records| > o.announced && SurplusIsDistinct(ServerHandles(o))
    ensures Misannounced(t, x, AllBytes(Big, o.records), o.announced)
  {
    var k, r := o.announced, o.records[o.announced];
    assert SizeOf(r) == BOOKING_SIZE;
    RecordAt(Big, o.records, k);
    BookingIsForeign(r.booking, AllBytes(Big, o.records)[k * BOOKING_SIZE..]);
  }

  lemma HeadMisannounces(t: State, x: Exchange, h: Header, rest: seq<Byte>, left: nat)
    requires h.operation == OPCODE_OK && h.payloadSize == left * BOOKING_SIZE && Misannounced(t, x, rest, left)
    ensures MisannouncedBy(t, x, h, rest)
  {
    WholeUnits(left, BOOKING_SIZE);
  }

  lemma MisannouncedIsAstray(t: State, x: Exchange, bytes: seq<Byte>, left: nat)
    requires t.client == Waiting(x) && Coming(t) == bytes && |bytes| >= HEADER_SIZE
    requires HeadOf(bytes).operation == OPCODE_OK && HeadOf(bytes).payloadSize == left * BOOKING_SIZE
    requires Misannounced(t, x, bytes[HEADER_SIZE..], left)
    ensures Astray(t)
  {
    HeadMisannounces(t, x, HeadOf(bytes), bytes[HEADER_SIZE..], left);
  }

  lemma UnsteadyIsMisannounced(t: State, x: Exchange, o: Outcome)
    requires Possible(x, o) && !Steady(ServerHandles(o)) && SurplusIsDistinct(ServerHandles(o))
    requires Settled(t) == Afterwards(x, o)
    ensures Unit(x) == BOOKING_SIZE && Misannounced(t, x, AllBytes(Big, o.records), o.announced)
  {
    if |o.records| < o.announced { ShortIsMisannounced(t, x, o); } else { LongIsMisannounced(t, x, o); }
  }

  lemma UnsteadyGoesAstray(s: State, o: Outcome)
    requires Inv(s) && Enabled(s, ServerHandles(o))
    requires !Steady(ServerHandles(o)) && SurplusIsDistinct(ServerHandles(o))
    ensures Astray(Next(s, ServerHandles(o)))
  {
    var t, x := Next(s, ServerHandles(o)), s.server.x;
    HandledState(s, o, ReplyBytes(x, o));
    UnsteadyIsMisannounced(t, x, o);
    ReplyTakenApart(x, o);
    MisannouncedIsAstray(t, x, ReplyBytes(x, o), o.announced);
  }

  /** Whatever happens except a read by the client only adds to the end of what is coming. */
  lemma ComingGrows(s: State, l: Label)
    requires !l.ClientReads?
    ensures Coming(s) <= Coming(Next(s, l))
    ensures Settled(s).LostServer? ==> Coming(Next(s, l)) == Coming(s) && Settled(Next(s, l)).LostServer?
    ensures s.client.Waiting? || s.client.Reading? ==> Next(s, l).client == s.client
  {}

  lemma StaysForeign(bytes: seq<Byte>, more: seq<Byte>)
    requires |bytes| >= HEADER_SIZE && bytes <= more
    ensures HeadOf(more) == HeadOf(bytes) && bytes[HEADER_SIZE..] <= more[HEADER_SIZE..]
  {
    assert more[..HEADER_SIZE] == bytes[..HEADER_SIZE];
  }

  lemma StaysMisannounced(s: State, t: State, x: Exchange, bytes: seq<Byte>, more: seq<Byte>, left: nat)
    requires Misannounced(s, x, bytes, left) && bytes <= more
    requires Settled(s).LostServer? ==> more == bytes && Settled(t).LostServer?
    ensures Misannounced(t, x, more, left)
  {
    if |bytes| >= left * BOOKING_SIZE {
      StaysForeign(bytes[left * BOOKING_SIZE..], more[left * BOOKING_SIZE..]);
    }
  }

  lemma OtherStepsStayAstray(s: State, l: Label)
    requires Astray(s) && !l.ClientReads?
    ensures Astray(Next(s, l))
  {
    var t := Next(s, l);
    ComingGrows(s, l);
    if s.client.Reading? {
      StaysMisannounced(s, t, s.client.x, Coming(s), Coming(t), s.client.left);
    } else if !s.client.LostClient? {
      StaysForeign(Coming(s), Coming(t));
      if s.client.Waiting? && !NoReplyHeader(HeadOf(Coming(s))) {
        StaysMisannounced(s, t, s.client.x, Coming(s)[HEADER_SIZE..], Coming(t)[HEADER_SIZE..],
                          HeadOf(Coming(s)).payloadSize / BOOKING_SIZE);
      }
    }
  }

  lemma TakingHeadStaysAstray(u: State, x: Exchange, h: Header)
    requires u.client == Waiting(x) && (NoReplyHeader(h) || MisannouncedBy(u, x, h, Coming(u)))
    ensures Astray(ClientTakesHead(u, x, h))
  {
    if NoReplyHeader(h) {
      NoReplyHeaderExactly(h);
    } else if h.payloadSize == 0 {
      assert Coming(u)[0..] == Coming(u);
    }
  }

  lemma ReadingRecordStaysAstray(s: State)
    requires Astray(s) && Enabled(s, ClientReads) && s.client.Reading?
    ensures Astray(Next(s, ClientReads))
  {
    var t, left := Next(s, ClientReads), s.client.left;
    if |s.toClient| >= BOOKING_SIZE {
      assert Coming(t) == Coming(s)[BOOKING_SIZE..];
      if |Coming(s)| >= left * BOOKING_SIZE {
        assert Coming(s)[left * BOOKING_SIZE..] == Coming(t)[(left - 1) * BOOKING_SIZE..];
      }
      if left == 1 { assert Coming(t)[0..] == Coming(t); }
    }
  }

  lemma ReadsStayAstray(s: State)
    requires Astray(s) && Enabled(s, ClientReads)
    ensures Astray(Next(s, ClientReads))
  {
    if s.client.Reading? {
      ReadingRecordStaysAstray(s);
    } else if |s.toClient| >= HEADER_SIZE {
      var u := s.(toClient := s.toClient[HEADER_SIZE..]);
      assert s.toClient[..HEADER_SIZE] == Coming(s)[..HEADER_SIZE];
      assert Coming(u) == Coming(s)[HEADER_SIZE..];
      TakingHeadStaysAstray(u, s.client.x, HeadOf(s.toClient));
    }
  }

  lemma {:induction false} UnsteadyRunsEndAstray(ls: seq<Label>)
    requires !HandledSteadily(ls) && Throughout(ls, SurplusIsDistinct)
    ensures Astray(Run(CONNECTED, ls))
  {
    var front, l := ls[..|ls| - 1], ls[|ls| - 1];
    var s := Run(CONNECTED, front);
    if HandledSteadily(front) {
      RunKeeps(front);
      UnsteadyGoesAstray(s, l.outcome);
    } else {
      UnsteadyRunsEndAstray(front);
      if !l.ClientReads? {
        OtherStepsStayAstray(s, l);
      } else if Enabled(s, l) {
        ReadsStayAstray(s);
      }
    }
  }

  lemma AstrayIsNotInStep(s: State)
    requires Astray(s)
    ensures !InStep(s) && (s.client.Idle? && s.server.Listening? ==> s.toClient != [])
  {}

  /** As long as every list is sent as announced, both sides are in step whenever both are idle, and whenever nothing
      more can happen without the client's user. */
  lemma SteadyRunsAgree(ls: seq<Label>)
    requires HandledSteadily(ls)
    ensures var s := Run(CONNECTED, ls);
      Quiet(s) || (s.client.Idle? && s.server.Listening?) ==> InStep(s)
  {
    var s := Run(CONNECTED, ls);
    RunKeeps(ls);
    if Quiet(s) || (s.client.Idle? && s.server.Listening?) { QuietIsInStep(s); }
  }

  /** Exact session agreement: at those points the sides are in step if and only if every list so far was sent as
      announced, provided that no first record too many starts, with its id and its room, like the header of a reply.
      Under that provision, once one list was not, they never are again. */
  lemma AgreementExactly(ls: seq<Label>)
    requires Throughout(ls, SurplusIsDistinct)
    ensures var s := Run(CONNECTED, ls);
      && (InStep(s) ==> HandledSteadily(ls))
      && (Quiet(s) || (s.client.Idle? && s.server.Listening?) ==> (InStep(s) <==> HandledSteadily(ls)))
      && (s.client.Idle? && s.server.Listening? ==> (s.toClient == [] <==> HandledSteadily(ls)))
  {
    if HandledSteadily(ls) {
      SteadyRunsAgree(ls);
    } else {
      UnsteadyRunsEndAstray(ls);
      AstrayIsNotInStep(Run(CONNECTED, ls));
    }
  }

  /** The two sides never wait for each other: while the client is neither idle nor asking its user, one can step. */
  lemma SomebodyCanStep(ls: seq<Label>)
    requires HandledSteadily(ls)
    ensures var s := Run(CONNECTED, ls);
      s.client.Idle? || s.client.Choosing? || Enabled(s, ClientReads) || Enabled(s, ServerReads)
      || Enabled(s, ServerSends(1)) || Enabled(s, ServerHandles(Fails)) || Enabled(s, ServerHandles(Succeeds(0, [])))
  {
    SteadyRunsAgree(ls);
  }
}
