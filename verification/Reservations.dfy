/** The booking server as a transition system: any number of children, each holding what it learnt in an earlier
    locked section, interleaved with each other, with room creation and with the clock.  Every label is one completed
    locked section.  A label that is not enabled changes nothing, so a run is any list of labels. */
module Reservations {
  import opened Records
  import opened Operations
  import opened Filters
  import opened Rooms

  /** What a child remembers between two locked sections. */
  datatype Flight =
    | CreateChecked(booking: Booking)              // room and time range checked, bookings lock not yet taken
    | ApproveSnapped(snap: Booking)                // found under the read lock, which is released again
    | Counted(filter: Filter, count: nat)          // list length announced, records not yet sent

  datatype State = State(bookings: seq<Booking>, rooms: seq<Room>, clock: nat, flights: map<nat, Flight>)

  datatype Label =
    | Tick(now: nat)
    | NewRoom(rawName: string)
    | CheckCreate(child: nat, booking: Booking)
    | CommitCreate(child: nat)
    | Snapshot(child: nat, id: U32)
    | CommitApprove(child: nat)
    | RejectNow(child: nat, id: U32)
    | ForceNow(child: nat, id: U32, status: Byte)
    | CountPass(child: nat, filter: Filter)
    | SendPass(child: nat)

  predicate Enabled(s: State, l: Label) {
    match l
    case Tick(now) => s.clock <= now
    case NewRoom(_) => true
    case CheckCreate(c, b) => c !in s.flights && RoomExists(s.rooms, b.room) && RespectsTimeRequirements(b, s.clock)
    case CommitCreate(c) => c in s.flights && s.flights[c].CreateChecked?
    case Snapshot(c, id) => c !in s.flights && Approvable(FindFirst(s.bookings, id), s.clock)
    case CommitApprove(c) => c in s.flights && s.flights[c].ApproveSnapped?
    case RejectNow(c, _) => c !in s.flights
    case ForceNow(c, _, _) => c !in s.flights
    case CountPass(c, _) => c !in s.flights
    case SendPass(c) => c in s.flights && s.flights[c].Counted?
  }

  /** The approval request is the shipped client's. */
  function Next(s: State, l: Label): State {
    if !Enabled(s, l) then s else
    match l
    case Tick(now) => s.(clock := now)
    case NewRoom(rawName) => s.(rooms := CreateRoomIn(s.rooms, rawName).0)
    case CheckCreate(c, b) => s.(flights := s.flights[c := CreateChecked(b)])
    case CommitCreate(c) => s.(bookings := CreateIn(s.bookings, s.flights[c].booking).0, flights := s.flights - {c})
    case Snapshot(c, id) => s.(flights := s.flights[c := ApproveSnapped(FindFirst(s.bookings, id))])
    case CommitApprove(c) =>
      var snap := s.flights[c].snap;
      s.(bookings := ApproveCommit(s.bookings, ApproveRequest(snap.id), snap).0, flights := s.flights - {c})
    case RejectNow(c, id) => s.(bookings := RejectIn(s.bookings, id, s.clock).0)
    case ForceNow(c, id, status) => s.(bookings := ForceIn(s.bookings, id, status).0)
    case CountPass(c, f) => s.(flights := s.flights[c := Counted(f, |Listed(s, f)|)])
    case SendPass(c) => s.(flights := s.flights - {c})
  }

  /** The records a filter selects right now. */
  function Listed(s: State, f: Filter): seq<Booking> {
    Matching(s.bookings, f, Still(s.clock, |s.bookings|))
  }

  predicate WritesBookings(l: Label) {
    l.CommitCreate? || l.CommitApprove? || l.RejectNow? || l.ForceNow?
  }

  /** The record a writing step returns, the zero record for failure. */
  function Reply(s: State, l: Label): Booking
    requires Enabled(s, l) && WritesBookings(l)
  {
    match l
    case CommitCreate(c) => CreateIn(s.bookings, s.flights[c].booking).1
    case CommitApprove(c) =>
      var snap := s.flights[c].snap;
      ApproveCommit(s.bookings, ApproveRequest(snap.id), snap).1
    case RejectNow(c, id) => RejectIn(s.bookings, id, s.clock).1
    case ForceNow(c, id, status) => ForceIn(s.bookings, id, status).1
  }

  /** What a child that has announced a list sends when it comes to it. */
  function Sent(s: State, c: nat): seq<Booking>
    requires Enabled(s, SendPass(c))
  {
    Listed(s, s.flights[c].filter)
  }

  function Run(s: State, ls: seq<Label>): State {
    if ls == [] then s else Next(Run(s, ls[..|ls| - 1]), ls[|ls| - 1])
  }

  lemma RunOfOne(s: State, a: Label)
    ensures Run(s, [a]) == Next(s, a)
  {}

  lemma RunOfTwo(s: State, a: Label, b: Label)
    ensures Run(s, [a, b]) == Next(Next(s, a), b)
  {
    RunOfOne(s, a);
    assert [a, b][..1] == [a];
  }

  lemma RunOfThree(s: State, a: Label, b: Label, c: Label)
    ensures Run(s, [a, b, c]) == Next(Next(Next(s, a), b), c)
  {
    RunOfTwo(s, a, b);
    assert [a, b, c][..2] == [a, b];
  }

  lemma {:induction false} RunContinues(s: State, ls: seq<Label>, more: seq<Label>)
    ensures Run(s, ls + more) == Run(Run(s, ls), more)
  {
    if more == [] {
      assert ls + more == ls;
    } else {
      RunContinues(s, ls, more[..|more| - 1]);
      assert (ls + more)[..|ls + more| - 1] == ls + more[..|more| - 1];
    }
  }

  /** p holds of every step of the run, disabled labels included. */
  predicate Throughout(s: State, ls: seq<Label>, p: (State, Label) -> bool) {
    ls == [] || (Throughout(s, ls[..|ls| - 1], p) && p(Run(s, ls[..|ls| - 1]), ls[|ls| - 1]))
  }

  lemma ThroughoutOfOne(s: State, a: Label, p: (State, Label) -> bool)
    ensures Throughout(s, [a], p) <==> p(s, a)
  {
    assert [a][..0] == [];
  }

  lemma {:induction false} ThroughoutContinues(s: State, ls: seq<Label>, more: seq<Label>, p: (State, Label) -> bool)
    ensures Throughout(s, ls + more, p) <==> Throughout(s, ls, p) && Throughout(Run(s, ls), more, p)
  {
    if more == [] {
      assert ls + more == ls;
    } else {
      var front := more[..|more| - 1];
      ThroughoutContinues(s, ls, front, p);
      RunContinues(s, ls, front);
      assert (ls + more)[..|ls + more| - 1] == ls + front;
    }
  }

  /** What the steps of a run put out, one after the other. */
  function Collected<T>(s: State, ls: seq<Label>, out: (State, Label) -> seq<T>): seq<T> {
    if ls == [] then [] else Collected(s, ls[..|ls| - 1], out) + out(Run(s, ls[..|ls| - 1]), ls[|ls| - 1])
  }

  lemma CollectedOfOne<T>(s: State, a: Label, out: (State, Label) -> seq<T>)
    ensures Collected(s, [a], out) == out(s, a)
  {
    assert [a][..0] == [];
  }

  lemma {:induction false} CollectedContinues<T>(s: State, ls: seq<Label>, more: seq<Label>,
                                                 out: (State, Label) -> seq<T>)
    ensures Collected(s, ls + more, out) == Collected(s, ls, out) + Collected(Run(s, ls), more, out)
  {
    if more == [] {
      assert ls + more == ls;
    } else {
      var front := more[..|more| - 1];
      CollectedContinues(s, ls, front, out);
      RunContinues(s, ls, front);
      assert (ls + more)[..|ls + more| - 1] == ls + front;
    }
  }

  /** The shipped client leaves the status of a booking it asks for at PENDING. */
  predicate Shipped(l: Label) {
    l.CheckCreate? ==> l.booking.status == PENDING
  }

  predicate ForceFree(ls: seq<Label>) {
    forall i :: 0 <= i < |ls| ==> Shipped(ls[i]) && !ls[i].ForceNow?
  }

  // ---------- what holds in every run ----------

  predicate DistinctIds(rs: seq<Booking>) {
    forall i, j :: 0 <= i < j < |rs| && rs[i].id == rs[j].id ==> rs[i].id == 0
  }

  predicate Located(rs: seq<Booking>, rooms: seq<Room>) {
    forall i :: 0 <= i < |rs| ==> WholeSlots(rs[i]) && RoomExists(rooms, rs[i].room)
  }

  /** The snapshot still agrees with its stored record on everything but the status. */
  predicate Stored(rs: seq<Booking>, snap: Booking) {
    snap.id != 0 && exists i :: 0 <= i < |rs| && SameButStatus(rs[i], snap)
  }

  ghost predicate FlightOk(s: State, flight: Flight) {
    match flight
    case CreateChecked(b) => WholeSlots(b) && RoomExists(s.rooms, b.room)
    case ApproveSnapped(snap) => Stored(s.bookings, snap)
    case Counted(f, count) => Stable(f) ==> count <= |Listed(s, f)|
  }

  ghost predicate Inv(s: State) {
    && DistinctIds(s.bookings)
    && Located(s.bookings, s.rooms)
    && forall c :: c in s.flights ==> FlightOk(s, s.flights[c])
  }

  predicate Initial(s: State) {
    && UniqueIds(s.bookings) && NonZeroIds(s.bookings)
    && Located(s.bookings, s.rooms)
    && s.flights == map[]
  }

  lemma SweepExtends(rs: seq<Booking>, snap: Booking)
    requires DistinctIds(rs) && Stored(rs, snap)
    ensures Extends(rs, Sweep(rs, snap.(status := APPROVED)))
  {}

  /** Whatever the step, the old records stay where they are, and only their statuses may change. */
  lemma StepExtends(s: State, l: Label)
    requires Inv(s)
    ensures Extends(s.bookings, Next(s, l).bookings)
    ensures |s.rooms| <= |Next(s, l).rooms| && Next(s, l).rooms[..|s.rooms|] == s.rooms
    ensures s.clock <= Next(s, l).clock
  {
    if l.CommitApprove? && Enabled(s, l) {
      var snap := s.flights[l.child].snap;
      assert FlightOk(s, s.flights[l.child]);
      ClientApproveOnlySweeps(s.bookings, snap.id, snap);
      SweepExtends(s.bookings, snap);
    }
  }

  lemma {:induction false} StableMatchingGrows(earlier: seq<Booking>, later: seq<Booking>, f: Filter,
                                               c1: seq<nat>, c2: seq<nat>)
    requires Extends(earlier, later) && Stable(f) && |c1| == |earlier| && |c2| == |later|
    ensures |Matching(earlier, f, c1)| <= |Matching(later, f, c2)|
    decreases |later|
  {
    if later != [] {
      var n := |later| - 1;
      if |earlier| == |later| {
        assert SameButStatus(earlier[n], later[n]);
        StableMatchingGrows(earlier[..n], later[..n], f, c1[..n], c2[..n]);
      } else {
        StableMatchingGrows(earlier, later[..n], f, c1, c2[..n]);
      }
    }
  }

  lemma ExtendsKeepsIds(earlier: seq<Booking>, later: seq<Booking>)
    requires Extends(earlier, later) && |earlier| == |later| && DistinctIds(earlier)
    ensures DistinctIds(later)
  {}

  lemma FlightStaysOk(s: State, t: State, flight: Flight)
    requires FlightOk(s, flight)
    requires Extends(s.bookings, t.bookings)
    requires |s.rooms| <= |t.rooms| && t.rooms[..|s.rooms|] == s.rooms
    ensures FlightOk(t, flight)
  {
    match flight {
      case CreateChecked(b) =>
        RoomStays(s.rooms, t.rooms, b.room);
      case ApproveSnapped(snap) =>
        var i :| 0 <= i < |s.bookings| && SameButStatus(s.bookings[i], snap);
        assert SameButStatus(s.bookings[i], t.bookings[i]);
        assert SameButStatus(t.bookings[i], snap);
      case Counted(f, count) =>
        if Stable(f) {
          StableMatchingGrows(s.bookings, t.bookings, f, Still(s.clock, |s.bookings|), Still(t.clock, |t.bookings|));
        }
    }
  }

  lemma RoomStays(earlier: seq<Room>, later: seq<Room>, id: U32)
    requires |earlier| <= |later| && later[..|earlier|] == earlier && RoomExists(earlier, id)
    ensures RoomExists(later, id)
  {}

  lemma NewRecordIsDistinct(rs: seq<Booking>, b: Booking)
    requires DistinctIds(rs)
    ensures DistinctIds(rs + [NewRecord(rs, b)])
  {}

  lemma LocationsStay(s: State, t: State)
    requires Located(s.bookings, s.rooms) && Extends(s.bookings, t.bookings)
    requires |s.rooms| <= |t.rooms| && t.rooms[..|s.rooms|] == s.rooms
    ensures Located(t.bookings[..|s.bookings|], t.rooms)
  {
    forall i | 0 <= i < |s.bookings| ensures WholeSlots(t.bookings[i]) && RoomExists(t.rooms, t.bookings[i].room) {
      assert SameButStatus(s.bookings[i], t.bookings[i]);
      RoomStays(s.rooms, t.rooms, s.bookings[i].room);
    }
  }

  lemma CreateKeepsRecords(s: State, c: nat)
    requires Inv(s) && Enabled(s, CommitCreate(c))
    ensures DistinctIds(Next(s, CommitCreate(c)).bookings) && Located(Next(s, CommitCreate(c)).bookings, s.rooms)
  {
    var b := s.flights[c].booking;
    assert FlightOk(s, s.flights[c]);
    NewRecordIsDistinct(s.bookings, b);
    assert NewRecord(s.bookings, b).room == b.room && WholeSlots(NewRecord(s.bookings, b));
  }

  lemma StepKeepsRecords(s: State, l: Label)
    requires Inv(s)
    ensures DistinctIds(Next(s, l).bookings) && Located(Next(s, l).bookings, Next(s, l).rooms)
  {
    var t := Next(s, l);
    if l.CommitCreate? && Enabled(s, l) {
      CreateKeepsRecords(s, l.child);
    } else {
      StepExtends(s, l);
      assert |t.bookings| == |s.bookings|;
      ExtendsKeepsIds(s.bookings, t.bookings);
      LocationsStay(s, t);
      assert t.bookings[..|s.bookings|] == t.bookings;
    }
  }

  lemma NewFlightOk(s: State, l: Label)
    requires Inv(s) && Enabled(s, l)
    requires l.CheckCreate? || l.Snapshot? || l.CountPass?
    ensures FlightOk(s, Next(s, l).flights[l.child])
  {}

  lemma StepKeepsFlights(s: State, l: Label)
    requires Inv(s)
    ensures var t := Next(s, l); forall c :: c in t.flights ==> FlightOk(t, t.flights[c])
  {
    var t := Next(s, l);
    StepExtends(s, l);
    forall c | c in t.flights ensures FlightOk(t, t.flights[c]) {
      if c in s.flights && t.flights[c] == s.flights[c] {
        FlightStaysOk(s, t, s.flights[c]);
      } else {
        NewFlightOk(s, l);
        FlightStaysOk(s, t, t.flights[c]);
      }
    }
  }

  lemma StepKeepsInv(s: State, l: Label)
    requires Inv(s)
    ensures Inv(Next(s, l))
  {
    StepKeepsRecords(s, l);
    StepKeepsFlights(s, l);
  }

  lemma {:induction false} RunKeepsInv(s: State, ls: seq<Label>)
    requires Inv(s)
    ensures Inv(Run(s, ls))
  {
    if ls != [] {
      RunKeepsInv(s, ls[..|ls| - 1]);
      StepKeepsInv(Run(s, ls[..|ls| - 1]), ls[|ls| - 1]);
    }
  }
}
