/** Concrete files and runs: the sample database meets the assumptions made elsewhere, and the one excluded case of the
    double-booking theorem really happens. */
module Scenarios {
  import opened Records
  import opened Operations
  import opened Filters
  import opened Reservations
  import opened Consistency

  function BookingOf(id: U32, room: U32, username: string, status: Byte): Booking {
    Booking(id, room, username, 7200, 10800, status)
  }

  function TwoRequests(first: Byte, second: Byte, flights: map<nat, Flight>): State {
    State([BookingOf(1, 1, "mario.rossi", first), BookingOf(2, 1, "anna.bianchi", second)],
          [Room(1, "Aula.1")], 0, flights)
  }

  lemma CommitOnTwo(first: Byte, second: Byte, id: U32, snap: Booking, c: nat, flights: map<nat, Flight>)
    requires c in flights && flights[c] == ApproveSnapped(snap)
    requires id == 1 ==> snap == BookingOf(1, 1, "mario.rossi", snap.status) && first == second == PENDING
    requires id == 2 ==> snap == BookingOf(2, 1, "anna.bianchi", snap.status) && first == APPROVED && second == REJECTED
    requires id == 1 || id == 2
    ensures Next(TwoRequests(first, second, flights), CommitApprove(c))
         == TwoRequests(APPROVED, if id == 1 then REJECTED else APPROVED, flights - {c})
    ensures Enabled(TwoRequests(first, second, flights), CommitApprove(c))
    ensures Reply(TwoRequests(first, second, flights), CommitApprove(c)).id == id
  {
    var rs := TwoRequests(first, second, flights).bookings;
    assert rs[id - 1].id == id;
    ClientApproveOnlySweeps(rs, id, snap);
  }

  lemma RunOfFour(s: State, a: Label, b: Label, c: Label, d: Label)
    ensures Run(s, [a, b, c, d]) == Next(Next(Next(Next(s, a), b), c), d)
  {
    RunOfThree(s, a, b, c);
    assert [a, b, c, d][..3] == [a, b, c];
  }

  lemma SnapshotsOnTwo(mario: Booking, anna: Booking)
    requires mario == BookingOf(1, 1, "mario.rossi", PENDING) && anna == BookingOf(2, 1, "anna.bianchi", PENDING)
    ensures Next(Next(TwoRequests(PENDING, PENDING, map[]), Snapshot(0, 1)), Snapshot(1, 2))
         == TwoRequests(PENDING, PENDING, map[0 := ApproveSnapped(mario), 1 := ApproveSnapped(anna)])
  {}

  lemma TwoRequestsAreInitial()
    ensures var s := TwoRequests(PENDING, PENDING, map[]);
      Initial(s) && Safe(s.bookings) && NoDoubleBooking(s.bookings)
  {
    var s := TwoRequests(PENDING, PENDING, map[]);
    assert s.rooms[0].id == 1;
    assert s.bookings[0].username[0] != s.bookings[1].username[0];
  }

  lemma TwoApprovedClash()
    ensures !NoDoubleBooking(TwoRequests(APPROVED, APPROVED, map[]).bookings)
  {
    var rs := TwoRequests(APPROVED, APPROVED, map[]).bookings;
    assert rs[0].status == rs[1].status == APPROVED && Clash(rs[0], rs[1]);
  }

  lemma BothApproved(s: State, ls: seq<Label>)
    requires s == TwoRequests(PENDING, PENDING, map[])
    requires ls == [Snapshot(0, 1), Snapshot(1, 2), CommitApprove(0), CommitApprove(1)]
    ensures Run(s, ls).bookings == TwoRequests(APPROVED, APPROVED, map[]).bookings
    ensures Enabled(Run(s, ls[..2]), ls[2]) && Reply(Run(s, ls[..2]), ls[2]).id == 1
    ensures Enabled(Run(s, ls[..3]), ls[3]) && Reply(Run(s, ls[..3]), ls[3]).id == 2
  {
    var mario, anna := BookingOf(1, 1, "mario.rossi", PENDING), BookingOf(2, 1, "anna.bianchi", PENDING);
    var flights := map[0 := ApproveSnapped(mario), 1 := ApproveSnapped(anna)];
    RunOfTwo(s, Snapshot(0, 1), Snapshot(1, 2));
    RunOfThree(s, Snapshot(0, 1), Snapshot(1, 2), CommitApprove(0));
    RunOfFour(s, Snapshot(0, 1), Snapshot(1, 2), CommitApprove(0), CommitApprove(1));
    assert ls[..2] == [Snapshot(0, 1), Snapshot(1, 2)] && ls[..3] == [Snapshot(0, 1), Snapshot(1, 2), CommitApprove(0)];
    SnapshotsOnTwo(mario, anna);
    CommitOnTwo(PENDING, PENDING, 1, mario, 0, flights);
    CommitOnTwo(APPROVED, REJECTED, 2, anna, 1, flights - {0});
  }

  /** Two pending requests for the same hour, and two administrators who each look one of them up before either commits:
      both are told that their booking is approved, and the room is booked twice. */
  lemma DoubleBookingHappens() returns (s: State, ls: seq<Label>)
    ensures Initial(s) && Safe(s.bookings) && NoDoubleBooking(s.bookings) && ForceFree(ls)
    ensures !NoDoubleBooking(Run(s, ls).bookings)
    ensures |ls| == 4 && ls[2] == CommitApprove(0) && ls[3] == CommitApprove(1)
    ensures Enabled(Run(s, ls[..2]), ls[2]) && Reply(Run(s, ls[..2]), ls[2]).id == 1
    ensures Enabled(Run(s, ls[..3]), ls[3]) && Reply(Run(s, ls[..3]), ls[3]).id == 2
  {
    s := TwoRequests(PENDING, PENDING, map[]);
    TwoRequestsAreInitial();
    ls := [Snapshot(0, 1), Snapshot(1, 2), CommitApprove(0), CommitApprove(1)];
    BothApproved(s, ls);
    TwoApprovedClash();
    assert !NoDoubleBooking(Run(s, ls).bookings);
  }

  lemma ListedOne(s: State, b: Booking, f: Filter)
    requires s.bookings == [b]
    ensures Listed(s, f) == if Matches(f, b, s.clock) then [b] else []
  {}

  /** A list from the current time on can fall short: a booking that ends between the count and the send is announced
      but not sent. */
  lemma ExpiringListFallsShort(b: Booking, room: Room, later: nat) returns (s: State, ls: seq<Label>)
    requires WholeSlots(b) && b.id != 0 && b.room == room.id && b.end < later
    ensures Initial(s) && ForceFree(ls)
    ensures var t := Run(s, ls);
      0 in t.flights && t.flights[0] == Counted(RoomFromNow(room.id), 1) && Sent(t, 0) == []
  {
    s := State([b], [room], 0, map[]);
    assert s.rooms[0].id == b.room;
    var f := RoomFromNow(room.id);
    ls := [CountPass(0, f), Tick(later)];
    RunOfTwo(s, ls[0], ls[1]);
    ListedOne(s, b, f);
    ListedOne(Run(s, ls), b, f);
  }

  lemma OneRejected(b: Booking)
    requires b.status == PENDING
    ensures RejectIn([b], b.id, 0).0 == [b.(status := REJECTED)]
  {
    assert Rejectable([b][0], b.id, 0);
  }

  /** So can the preview before a creation: a booking rejected between the two passes is announced but not sent. */
  lemma RejectedPreviewFallsShort(b: Booking, room: Room) returns (s: State, ls: seq<Label>)
    requires WholeSlots(b) && b.id != 0 && b.room == room.id && b.status == PENDING
    ensures Initial(s) && ForceFree(ls)
    ensures var t, f := Run(s, ls), RoomFromNowNotRejected(room.id);
      0 in t.flights && t.flights[0] == Counted(f, 1) && Sent(t, 0) == []
  {
    s := State([b], [room], 0, map[]);
    assert s.rooms[0].id == b.room;
    var f := RoomFromNowNotRejected(room.id);
    var u := State([b], [room], 0, map[0 := Counted(f, 1)]);
    var t := u.(bookings := [b.(status := REJECTED)]);
    ls := [CountPass(0, f), RejectNow(1, b.id)];
    RunOfTwo(s, ls[0], ls[1]);
    assert Next(s, ls[0]) == u by { ListedOne(s, b, f); }
    assert Next(u, ls[1]) == t by { OneRejected(b); }
    ListedOne(t, b.(status := REJECTED), f);
  }

  // ---------- the sample database ----------

  const DAY1: U64 := 1792576800
  const DAY2: U64 := 1792666800
  const PAST: U64 := 1782039600

  function Sample(id: U32, room: U32, username: string, start: U64, hours: U64, status: Byte): Booking
    requires start <= 2000000000 && hours <= 24
  {
    Booking(id, room, username, start, start + hours * 3600, status)
  }

  function SampleRooms(): seq<Room> {
    [Room(1, "Aula.1"), Room(2, "Aula.2"), Room(3, "Aula.3"), Room(4, "Aula.4"),
     Room(5, "Aula.5"), Room(6, "Aula.6"), Room(7, "Aula.7"), Room(8, "Laboratorio.1")]
  }

  /** The records `populate` writes; the two oldest ids come last. */
  function SampleBookings(): seq<Booking> {
    [Sample(6, 1, "mario.rossi", DAY1, 3, PENDING),
     Sample(7, 1, "anna.bianchi", DAY1 + 3600, 3, PENDING),
     Sample(8, 1, "giulia.neri", DAY1 + 7200, 1, PENDING),
     Sample(9, 1, "studente2", DAY1 + 21600, 1, APPROVED),
     Sample(10, 2, "mario.rossi", DAY1 + 25200, 1, PENDING),
     Sample(11, 4, "luigi.verdi", DAY1, 4, REJECTED),
     Sample(12, 6, "anna.bianchi", DAY1 + 7200, 6, REJECTED),
     Sample(13, 1, "luigi.verdi", DAY2, 1, PENDING),
     Sample(14, 1, "mario.rossi", DAY2, 1, REJECTED),
     Sample(15, 1, "studente1", DAY2, 1, PENDING),
     Sample(16, 2, "mario.rossi", DAY2 + 3600, 2, APPROVED),
     Sample(4, 3, "prof.vecchio", PAST, 2, APPROVED),
     Sample(5, 5, "anna.bianchi", PAST, 2, REJECTED)]
  }

  lemma SampleIsLocated()
    ensures Located(SampleBookings(), SampleRooms())
  {
    var rs, rooms := SampleBookings(), SampleRooms();
    forall i | 0 <= i < |rs| ensures WholeSlots(rs[i]) && RoomExists(rooms, rs[i].room) {
      assert 1 <= rs[i].room <= 6;
      assert rooms[rs[i].room - 1].id == rs[i].room;
    }
  }

  lemma SampleIdsAreFine()
    ensures UniqueIds(SampleBookings()) && NonZeroIds(SampleBookings())
  {
    var rs := SampleBookings();
    forall i | 0 <= i < |rs| ensures rs[i].id == if i < 11 then 6 + i else i - 7 {
      assert i == 11 || i == 12 || i < 11;
    }
  }

  lemma SampleIsClear()
    ensures KnownStatuses(SampleBookings()) && PendingClearOfApproved(SampleBookings())
  {}

  lemma SampleIsDisjoint()
    ensures PendingDisjointPerUser(SampleBookings()) && NoDoubleBooking(SampleBookings())
  {
    var rs := SampleBookings();
    forall i, j | 0 <= i < j < |rs| && rs[i].status == rs[j].status == APPROVED ensures !Clash(rs[i], rs[j]) {
      assert i == 3 || i == 10;
    }
    forall i, j | 0 <= i < j < |rs| && rs[i].status == rs[j].status == PENDING && Clash(rs[i], rs[j])
      ensures rs[i].username != rs[j].username
    {
      assert i == 0 || i == 1 || i == 7;
      assert rs[i].username[0] != rs[j].username[0];
    }
  }

  /** So every theorem about runs from an initial state applies to the sample database. */
  lemma SampleIsInitial(now: nat)
    ensures var s := State(SampleBookings(), SampleRooms(), now, map[]);
      Initial(s) && Safe(s.bookings) && NoDoubleBooking(s.bookings)
  {
    SampleIsLocated();
    SampleIdsAreFine();
    SampleIsClear();
    SampleIsDisjoint();
  }
}
