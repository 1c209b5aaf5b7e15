/** How the levels fit together: what a handler does is a run of the transition system and a step of the session system,
    and what the two passes of a list find is the outcome the dialogue depends on. */
module Refinement {
  import opened Records
  import opened Operations
  import opened Filters
  import opened Roles
  import opened Wire
  import opened ServerChild
  import R = Reservations
  import L = LockedSections
  import RL = RecordLevel
  import P = Listings
  import S = Sessions
  import D = Dialogue

  // ---------- handlers as runs ----------

  /** What the shipped client sends. */
  predicate ShippedCall(call: Call, now: nat) {
    match call
    case ApproveCall(b) => b == ApproveRequest(b.id)
    case CreateBookingCall(_, answer) => answer.Wanted? ==> now <= answer.later && answer.booking.status == PENDING
    case _ => true
  }

  /** The locked sections child c goes through to serve a request. */
  function Steps(w: World, c: nat, call: Call): seq<R.Label> {
    if !Allowed(OpcodeOfCall(call), w.user.userType) then [] else
    match call
    case CreateRoomCall(rawName) => [R.NewRoom(rawName)]
    case CreateBookingCall(room, answer) =>
      if RoomExists(w.rooms, room) && answer.Wanted? then
        [R.Tick(answer.later), R.CheckCreate(c, answer.booking.(username := w.user.username)), R.CommitCreate(c)]
      else []
    case ApproveCall(b) => [R.Snapshot(c, b.id), R.CommitApprove(c)]
    case RejectCall(b) => [R.RejectNow(c, b.id)]
    case ForceCall(b) => if b.id != 0 then [R.ForceNow(c, b.id, b.status)] else []
    case _ => []
  }

  /** The files the child sees are those of a state in which it is idle, whatever the other children hold. */
  predicate Sees(w: World, c: nat, s: R.State) {
    w.bookings == s.bookings && w.rooms == s.rooms && c !in s.flights
  }

  predicate Left(w: World, s: R.State, t: R.State) {
    t.bookings == w.bookings && t.rooms == w.rooms && t.flights == s.flights
  }

  lemma CommitAfterSnapshot(s: R.State, c: nat, snap: Booking)
    requires c !in s.flights
    ensures R.Next(s.(flights := s.flights[c := R.ApproveSnapped(snap)]), R.CommitApprove(c))
         == s.(bookings := ApproveCommit(s.bookings, ApproveRequest(snap.id), snap).0)
  {
    assert s.flights[c := R.ApproveSnapped(snap)] - {c} == s.flights;
  }

  lemma ApproveIsTwoSteps(s: R.State, c: nat, id: U32)
    requires c !in s.flights
    ensures var t := R.Run(s, [R.Snapshot(c, id), R.CommitApprove(c)]);
      t == s.(bookings := ApproveIn(s.bookings, ApproveRequest(id), s.clock).0)
  {
    R.RunOfTwo(s, R.Snapshot(c, id), R.CommitApprove(c));
    var snap := FindFirst(s.bookings, id);
    if Approvable(snap, s.clock) {
      assert snap.id == id;
      CommitAfterSnapshot(s, c, snap);
    }
  }

  lemma CreateIsThreeSteps(w: World, c: nat, s: R.State, booking: Booking, later: nat)
    requires Sees(w, c, s) && s.clock <= later
    ensures var wanted := booking.(username := w.user.username);
      Left(ServeCreate(w, booking, later).0, s, R.Run(s, [R.Tick(later), R.CheckCreate(c, wanted), R.CommitCreate(c)]))
  {
    var wanted := booking.(username := w.user.username);
    R.RunOfThree(s, R.Tick(later), R.CheckCreate(c, wanted), R.CommitCreate(c));
    assert s.flights[c := R.CreateChecked(wanted)] - {c} == s.flights;
  }

  lemma WriteIsARun(w: World, c: nat, s: R.State, call: Call)
    requires Sees(w, c, s) && ShippedCall(call, s.clock) && Allowed(OpcodeOfCall(call), w.user.userType)
    requires call.CreateRoomCall? || call.ApproveCall? || call.RejectCall? || call.ForceCall?
    ensures Left(Perform(w, call, s.clock).0, s, R.Run(s, Steps(w, c, call)))
  {
    match call {
      case CreateRoomCall(rawName) => R.RunOfOne(s, R.NewRoom(rawName));
      case ApproveCall(b) => ApproveIsTwoSteps(s, c, b.id);
      case RejectCall(b) => R.RunOfOne(s, R.RejectNow(c, b.id));
      case ForceCall(b) =>
        WritersByRole(OPCODE_FORCE_BOOKING_STATUS, w.user.userType);
        if b.id != 0 { R.RunOfOne(s, R.ForceNow(c, b.id, b.status)); }
    }
  }

  lemma CreateIsARun(w: World, c: nat, s: R.State, room: U32, answer: Creation)
    requires Sees(w, c, s) && ShippedCall(CreateBookingCall(room, answer), s.clock)
    requires Allowed(OPCODE_CREATE_BOOKING, w.user.userType)
    ensures var call := CreateBookingCall(room, answer);
      Left(Perform(w, call, s.clock).0, s, R.Run(s, Steps(w, c, call)))
  {
    if RoomExists(w.rooms, room) && answer.Wanted? {
      CreateIsThreeSteps(w, c, s, answer.booking, answer.later);
    }
  }

  /** A child serving a request of the shipped client without interruption, whatever the others hold, makes a run of
      the transition system: it leaves the bookings and rooms files of that run, and the others' unfinished business
      alone. */
  lemma ServeIsARun(w: World, c: nat, s: R.State, call: Call)
    requires Sees(w, c, s) && ShippedCall(call, s.clock)
    ensures Left(Serve(w, call, s.clock).0, s, R.Run(s, Steps(w, c, call)))
  {
    if Allowed(OpcodeOfCall(call), w.user.userType) {
      if call.CreateBookingCall? {
        CreateIsARun(w, c, s, call.room, call.answer);
      } else if call.CreateRoomCall? || call.ApproveCall? || call.RejectCall? || call.ForceCall? {
        WriteIsARun(w, c, s, call);
      }
    }
  }

  /** The session label of a request of child c, for what the shipped client's user typed. */
  function SessionLabel(c: nat, call: Call, typed: Credentials): S.Label {
    match call
    case LoginCall(_) => S.Login(c, typed)
    case SignupCall(_) => S.Signup(c, typed)
    case LogoutCall => S.Logout(c)
    case _ => S.Request(c, OpcodeOfCall(call))
  }

  /** On the users file and the sessions, serving any request is one step of the session system, whoever else is
      connected. */
  lemma ServeIsASessionStep(w: World, c: nat, sessions: map<nat, User>, call: Call, now: nat, typed: Credentials)
    requires c in sessions && sessions[c] == w.user
    requires call.LoginCall? || call.SignupCall? ==> call.sent == S.Sent(typed)
    ensures var after := Serve(w, call, now).0;
      S.Next(S.State(w.users, sessions), SessionLabel(c, call, typed))
      == S.State(after.users, sessions[c := after.user])
  {
    assert sessions[c := w.user] == sessions;
  }

  /** A request the role tables refuse leaves all three files and the session as they are; the files of bookings and
      rooms change only for the roles whose tables list the writing operations. */
  lemma OnlyListedRolesWrite(w: World, call: Call, now: nat)
    ensures var after := Serve(w, call, now).0;
      && (!Allowed(OpcodeOfCall(call), w.user.userType) ==> after == w)
      && (after.bookings != w.bookings ==> w.user.userType == USER || w.user.userType == SUPERUSER)
      && (after.bookings != w.bookings && w.user.userType == USER ==>
            call.CreateBookingCall? && |after.bookings| == |w.bookings| + 1)
      && (after.rooms != w.rooms ==> w.user.userType == SUPERUSER)
      && (after.users != w.users ==> w.user.userType == GUEST)
  {
    if Allowed(OpcodeOfCall(call), w.user.userType) {
      WritersByRole(OpcodeOfCall(call), w.user.userType);
    }
  }

  // ---------- lists as outcomes ----------

  /** What the two passes of a list, a counting and a sending section of the child, make of a request in `Dialogue`. */
  function ListOutcome(x: L.Section, y: L.Section): D.Outcome {
    var sent := y.local.sent;
    D.Succeeds(x.local.count, seq(|sent|, i requires 0 <= i < |sent| => BookingRecord(sent[i])))
  }

  lemma OutcomeOfLists(x: L.Section, y: L.Section, e: D.Exchange)
    ensures var l, sent, count := D.ServerHandles(ListOutcome(x, y)), y.local.sent, x.local.count;
      && (D.Steady(l) <==> |sent| == count)
      && (D.Afterwards(e, l.outcome).LostServer? <==> |sent| < count)
      && (D.SurplusIsDistinct(l) <==>
            (|sent| > count ==> D.NoReplyHeader(Header(sent[count].id, sent[count].room))))
  {}

  /** What makes a list steady: between its two passes as many records joined it as left it.  The child ends itself
      exactly when fewer did; and whether a record too many looks like a header can be read off that record. */
  lemma ListsAreSteadyExactly(s: RL.State, ls: seq<RL.Label>, more: seq<RL.Label>, c: nat, f: Filter, e: D.Exchange)
    requires RL.Started(s) && RL.TwoPasses(s, ls, more, c, f)
    ensures
      var x, y := RL.Run(s, ls).files.sections[c], RL.Run(RL.Run(s, ls), more).files.sections[c];
      var l, sent := D.ServerHandles(ListOutcome(x, y)), y.local.sent;
      && P.Later(x.base, x.clocks, y.base, y.clocks)
      && (D.Steady(l) <==>
            |P.Joiners(x.base, x.clocks, y.base, y.clocks, f)| == |P.Leavers(x.base, x.clocks, y.base, y.clocks, f)|)
      && (D.Afterwards(e, l.outcome).LostServer? <==>
            |P.Joiners(x.base, x.clocks, y.base, y.clocks, f)| < |P.Leavers(x.base, x.clocks, y.base, y.clocks, f)|)
      && (D.SurplusIsDistinct(l) <==>
            (|sent| > x.local.count ==> D.NoReplyHeader(Header(sent[x.local.count].id, sent[x.local.count].room))))
  {
    RL.RecordLevelListsExactly(s, ls, more, c, f);
    OutcomeOfLists(RL.Run(s, ls).files.sections[c], RL.Run(RL.Run(s, ls), more).files.sections[c], e);
  }
}
