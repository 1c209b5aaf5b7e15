/** Bookings and accounts together: every booking or room step is taken by a connected child for its session, after the
    role check, and a creation carries the session's name.  A child serves one request at a time, so its session stands
    still while it holds something between two locked sections. */
module Service {
  import opened Records
  import opened Roles
  import opened Filters
  import opened Operations
  import R = Reservations
  import S = Sessions
  import A = Accounts
  import opened Rooms

  datatype State = State(db: R.State, accounts: S.State)

  datatype Label =
    | Tick(now: nat)
    | Account(account: S.Label)
    | Work(child: nat, step: R.Label)

  /** The listing operation a filter belongs to. */
  function ListOpcode(f: Filter): int {
    match f
    case Any => OPCODE_BOOKINGS_LIST_SUPERUSER
    case OwnFromNow(_) => OPCODE_USERS_BOOKINGS_LIST
    case UsernameSubstringFromNow(_) => OPCODE_BOOKINGS_LIST_BY_USERNAME
    case ByBookingId(_) => OPCODE_BOOKINGS_LIST_BY_BOOKING_ID
    case RoomFromNow(_) => OPCODE_BOOKINGS_LIST_BY_ROOM_ID
    case RoomFromNowNotRejected(_) => OPCODE_CREATE_BOOKING
    case InTimeRange(_) => OPCODE_BOOKINGS_LIST_BY_TIME_RANGE
    case InTimeRangeOf(_, _) => OPCODE_BOOKINGS_LIST_BY_TIME_RANGE
    case StatusFromNow(_) => OPCODE_BOOKINGS_LIST_BY_STATUS
    case StatusFromNowOf(_, _) => OPCODE_BOOKINGS_LIST_BY_STATUS
  }

  /** A step child c may take for a new request of this user. */
  predicate MayBegin(user: User, c: nat, l: R.Label) {
    match l
    case NewRoom(_) => Allowed(OPCODE_CREATE_ROOM, user.userType)
    case CheckCreate(d, b) => d == c && Allowed(OPCODE_CREATE_BOOKING, user.userType) && b.username == user.username
    case Snapshot(d, _) => d == c && Allowed(OPCODE_APPROVE_BOOKING, user.userType)
    case RejectNow(d, _) => d == c && Allowed(OPCODE_REJECT_BOOKING, user.userType)
    case ForceNow(d, _, _) => d == c && Allowed(OPCODE_FORCE_BOOKING_STATUS, user.userType)
    case CountPass(d, f) => d == c && Allowed(ListOpcode(f), user.userType)
    case _ => false
  }

  /** A step with which child c goes on with a request begun before. */
  predicate GoesOn(c: nat, l: R.Label) {
    l == R.CommitCreate(c) || l == R.CommitApprove(c) || l == R.SendPass(c)
  }

  predicate Enabled(s: State, l: Label) {
    match l
    case Tick(now) => R.Enabled(s.db, R.Tick(now))
    case Account(m) => S.Dispatched(s.accounts, m) && m.child !in s.db.flights
    case Work(c, m) =>
      && c in s.accounts.sessions && R.Enabled(s.db, m)
      && if c in s.db.flights then GoesOn(c, m) else MayBegin(s.accounts.sessions[c], c, m)
  }

  function Next(s: State, l: Label): State {
    if !Enabled(s, l) then s else
    match l
    case Tick(now) => s.(db := R.Next(s.db, R.Tick(now)))
    case Account(m) => s.(accounts := S.Next(s.accounts, m))
    case Work(_, m) => s.(db := R.Next(s.db, m))
  }

  function Run(s: State, ls: seq<Label>): State {
    if ls == [] then s else Next(Run(s, ls[..|ls| - 1]), ls[|ls| - 1])
  }

  predicate Initial(s: State) {
    R.Initial(s.db) && S.Initial(s.accounts)
  }

  // ---------- both halves are runs of their own ----------

  function DbStep(s: State, l: Label): seq<R.Label> {
    if !Enabled(s, l) || l.Account? then [] else [if l.Tick? then R.Tick(l.now) else l.step]
  }

  function DbRun(s: State, ls: seq<Label>): seq<R.Label> {
    if ls == [] then [] else DbRun(s, ls[..|ls| - 1]) + DbStep(Run(s, ls[..|ls| - 1]), ls[|ls| - 1])
  }

  function AccountStep(s: State, l: Label): seq<S.Label> {
    if Enabled(s, l) && l.Account? then [l.account] else []
  }

  function AccountRun(s: State, ls: seq<Label>): seq<S.Label> {
    if ls == [] then [] else AccountRun(s, ls[..|ls| - 1]) + AccountStep(Run(s, ls[..|ls| - 1]), ls[|ls| - 1])
  }

  lemma SnocSessions(s: S.State, ls: seq<S.Label>, l: S.Label)
    ensures S.Run(s, ls + [l]) == S.Next(S.Run(s, ls), l)
  {
    assert (ls + [l])[..|ls|] == ls;
  }

  /** Everything proved of booking runs and of session runs holds of the two together. */
  lemma {:induction false} RunsProject(s: State, ls: seq<Label>)
    ensures Run(s, ls).db == R.Run(s.db, DbRun(s, ls))
    ensures Run(s, ls).accounts == S.Run(s.accounts, AccountRun(s, ls))
  {
    if ls != [] {
      var front, l := ls[..|ls| - 1], ls[|ls| - 1];
      var t := Run(s, front);
      RunsProject(s, front);
      R.RunContinues(s.db, DbRun(s, front), DbStep(t, l));
      if DbStep(t, l) != [] { R.RunOfOne(t.db, DbStep(t, l)[0]); }
      if AccountStep(t, l) != [] {
        SnocSessions(s.accounts, AccountRun(s, front), l.account);
      } else {
        assert AccountRun(s, ls) == AccountRun(s, front);
      }
    }
  }

  // ---------- who creates what ----------

  /** The name of a stored ordinary user. */
  predicate OrdinaryName(users: seq<A.UserSave>, name: string) {
    S.Recorded(users, User(name, USER))
  }

  predicate OwnNames(s: State, n: nat) {
    && (forall i :: n <= i < |s.db.bookings| ==> OrdinaryName(s.accounts.users, s.db.bookings[i].username))
    && forall c :: c in s.db.flights && s.db.flights[c].CreateChecked? ==>
         OrdinaryName(s.accounts.users, s.db.flights[c].booking.username)
  }

  lemma WorkKeepsOwnNames(s: State, n: nat, c: nat, m: R.Label)
    requires R.Inv(s.db) && S.Inv(s.accounts) && n <= |s.db.bookings| && OwnNames(s, n) && Enabled(s, Work(c, m))
    ensures OwnNames(Next(s, Work(c, m)), n)
  {
    var t := Next(s, Work(c, m));
    var rs, after := s.db.bookings, t.db.bookings;
    R.StepExtends(s.db, m);
    forall i | n <= i < |after| ensures OrdinaryName(s.accounts.users, after[i].username) {
      if i < |rs| {
        assert SameButStatus(rs[i], after[i]);
      } else {
        assert after[i] == NewRecord(rs, s.db.flights[m.child].booking);
      }
    }
    if m.CheckCreate? {
      var user := s.accounts.sessions[c];
      WritersByRole(OPCODE_CREATE_BOOKING, user.userType);
      assert S.Recorded(s.accounts.users, user) && user == User(m.booking.username, USER);
    }
  }

  lemma AccountKeepsOwnNames(s: State, n: nat, m: S.Label)
    requires S.Inv(s.accounts) && OwnNames(s, n)
    ensures OwnNames(s.(accounts := S.Next(s.accounts, m)), n)
  {
    var earlier, later := s.accounts.users, S.Next(s.accounts, m).users;
    S.StepKeeps(s.accounts, m);
    forall name | OrdinaryName(earlier, name) ensures OrdinaryName(later, name) {
      S.RecordStays(earlier, later, User(name, USER));
    }
  }

  lemma {:induction false} RunKeepsOwnNames(s: State, ls: seq<Label>)
    requires Initial(s)
    ensures var t := Run(s, ls);
      R.Inv(t.db) && S.Inv(t.accounts) && |s.db.bookings| <= |t.db.bookings| && OwnNames(t, |s.db.bookings|)
  {
    if ls != [] {
      var front, l := ls[..|ls| - 1], ls[|ls| - 1];
      var t, n := Run(s, front), |s.db.bookings|;
      RunKeepsOwnNames(s, front);
      if Enabled(t, l) {
        match l {
          case Tick(now) => R.StepKeepsInv(t.db, R.Tick(now));
          case Account(m) =>
            S.StepKeeps(t.accounts, m);
            AccountKeepsOwnNames(t, n, m);
          case Work(c, m) =>
            R.StepKeepsInv(t.db, m);
            R.StepExtends(t.db, m);
            WorkKeepsOwnNames(t, n, c, m);
        }
      }
    }
  }

  /** In every interleaved run each newly stored booking carries the name of a stored ordinary user. */
  lemma NewBookingsAreUsers(s: State, ls: seq<Label>, i: nat)
    requires Initial(s) && |s.db.bookings| <= i < |Run(s, ls).db.bookings|
    ensures var t := Run(s, ls); S.Recorded(t.accounts.users, User(t.db.bookings[i].username, USER))
  {
    RunKeepsOwnNames(s, ls);
    assert OrdinaryName(Run(s, ls).accounts.users, Run(s, ls).db.bookings[i].username);
  }

  // ---------- who changes what ----------

  /** The session on whose behalf a step is taken is that of an administrator the users file held from the start. */
  predicate ByAdministrator(s: State, t: State, l: Label) {
    && l.Work? && l.child in t.accounts.sessions
    && t.accounts.sessions[l.child].userType == SUPERUSER && S.Recorded(s.accounts.users, t.accounts.sessions[l.child])
  }

  /** Approvals, too, are begun only by administrators, whose sessions then stand still. */
  predicate ApprovalsByAdministrators(t: State) {
    forall c :: c in t.db.flights && t.db.flights[c].ApproveSnapped? ==>
      c in t.accounts.sessions && t.accounts.sessions[c].userType == SUPERUSER
  }

  lemma {:induction false} ApprovalsStayWithAdministrators(s: State, ls: seq<Label>)
    requires Initial(s)
    ensures ApprovalsByAdministrators(Run(s, ls))
  {
    if ls != [] {
      var front, l := ls[..|ls| - 1], ls[|ls| - 1];
      var t := Run(s, front);
      ApprovalsStayWithAdministrators(s, front);
      if Enabled(t, l) && l.Work? && l.step.Snapshot? {
        WritersByRole(OPCODE_APPROVE_BOOKING, t.accounts.sessions[l.child].userType);
      }
    }
  }

  lemma AdministratorsWereThere(s: State, ls: seq<Label>, c: nat)
    requires Initial(s)
    requires c in Run(s, ls).accounts.sessions && Run(s, ls).accounts.sessions[c].userType == SUPERUSER
    ensures S.Recorded(s.accounts.users, Run(s, ls).accounts.sessions[c])
  {
    RunsProject(s, ls);
    S.AdministratorsAreOld(s.accounts, AccountRun(s, ls), c);
  }

  /** Role soundness over runs: whatever step changes the rooms file or the status of a stored booking is taken for an
      administrator the users file held before the first client connected. */
  lemma ChangesAreAuthorised(s: State, ls: seq<Label>, l: Label)
    requires Initial(s)
    ensures var t := Run(s, ls); var u := Next(t, l);
      && (u.db.rooms != t.db.rooms ==> ByAdministrator(s, t, l))
      && |t.db.bookings| <= |u.db.bookings|
      && (u.db.bookings[..|t.db.bookings|] != t.db.bookings ==> ByAdministrator(s, t, l))
  {
    var t, u := Run(s, ls), Next(Run(s, ls), l);
    RunKeepsOwnNames(s, ls);
    ApprovalsStayWithAdministrators(s, ls);
    if l.Work? && Enabled(t, l) {
      R.StepExtends(t.db, l.step);
      var user := t.accounts.sessions[l.child];
      if l.step.NewRoom? { WritersByRole(OPCODE_CREATE_ROOM, user.userType); }
      if l.step.RejectNow? { WritersByRole(OPCODE_REJECT_BOOKING, user.userType); }
      if l.step.ForceNow? { WritersByRole(OPCODE_FORCE_BOOKING_STATUS, user.userType); }
      if user.userType == SUPERUSER { AdministratorsWereThere(s, ls, l.child); }
    }
  }

  // ---------- idle children get through ----------

  /** Child c is connected as this user and has nothing unfinished. */
  predicate IsIdle(s: State, c: nat, user: User) {
    c in s.accounts.sessions && s.accounts.sessions[c] == user && c !in s.db.flights
  }

  lemma RunOfTwo(s: State, a: Label, b: Label)
    ensures Run(s, [a]) == Next(s, a) && Run(s, [a, b]) == Next(Next(s, a), b)
  {
    assert [a, b][..1] == [a] && [a][..0] == [];
  }

  /** An ordinary user's child can create a booking in that user's name. */
  lemma CreationsGetThrough(s: State, c: nat, user: User, b: Booking)
    requires IsIdle(s, c, user) && user.userType == 1 && b.username == user.username
    requires exists i :: 0 <= i < |s.db.rooms| && s.db.rooms[i].id == b.room
    requires b.start < b.end && (b.end - b.start) % 3600 == 0 && s.db.clock <= b.start
    ensures Run(s, [Work(c, R.CheckCreate(c, b)), Work(c, R.CommitCreate(c))])
         == s.(db := s.db.(bookings := CreateIn(s.db.bookings, b).0))
  {
    TablesExactly(OPCODE_CREATE_BOOKING, user.userType);
    RunOfTwo(s, Work(c, R.CheckCreate(c, b)), Work(c, R.CommitCreate(c)));
    assert s.db.flights[c := R.CreateChecked(b)] - {c} == s.db.flights;
  }

  lemma SnapshotIsTaken(s: State, c: nat, user: User, id: U32)
    requires IsIdle(s, c, user) && user.userType == 2
    requires FindFirst(s.db.bookings, id).id != 0 && s.db.clock <= FindFirst(s.db.bookings, id).end
    ensures Next(s, Work(c, R.Snapshot(c, id)))
         == s.(db := s.db.(flights := s.db.flights[c := R.ApproveSnapped(FindFirst(s.db.bookings, id))]))
  {
    TablesExactly(OPCODE_APPROVE_BOOKING, user.userType);
  }

  lemma SnapshotIsCommitted(t: State, c: nat, user: User, snap: Booking)
    requires c in t.accounts.sessions && t.accounts.sessions[c] == user && user.userType == 2
    requires c in t.db.flights && t.db.flights[c] == R.ApproveSnapped(snap)
    ensures Next(t, Work(c, R.CommitApprove(c))).accounts == t.accounts
    ensures Next(t, Work(c, R.CommitApprove(c))).db == R.Next(t.db, R.CommitApprove(c))
  {
    TablesExactly(OPCODE_APPROVE_BOOKING, user.userType);
  }

  /** An administrator's child can approve a booking that is there and not over. */
  lemma ApprovalsGetThrough(s: State, c: nat, user: User, id: U32)
    requires IsIdle(s, c, user) && user.userType == 2
    requires FindFirst(s.db.bookings, id).id != 0 && s.db.clock <= FindFirst(s.db.bookings, id).end
    ensures Run(s, [Work(c, R.Snapshot(c, id)), Work(c, R.CommitApprove(c))])
         == s.(db := s.db.(bookings := ApproveIn(s.db.bookings, ApproveRequest(id), s.db.clock).0))
  {
    var snap := FindFirst(s.db.bookings, id);
    SnapshotIsTaken(s, c, user, id);
    SnapshotIsCommitted(Next(s, Work(c, R.Snapshot(c, id))), c, user, snap);
    RunOfTwo(s, Work(c, R.Snapshot(c, id)), Work(c, R.CommitApprove(c)));
    assert snap.id == id;
    assert s.db.flights[c := R.ApproveSnapped(snap)] - {c} == s.db.flights;
  }

  /** And reject, force, and create rooms. */
  lemma AdministrationGetsThrough(s: State, c: nat, user: User, id: U32, status: Byte, rawName: string)
    requires IsIdle(s, c, user) && user.userType == 2
    ensures Next(s, Work(c, R.RejectNow(c, id)))
         == s.(db := s.db.(bookings := RejectIn(s.db.bookings, id, s.db.clock).0))
    ensures Next(s, Work(c, R.ForceNow(c, id, status)))
         == s.(db := s.db.(bookings := ForceIn(s.db.bookings, id, status).0))
    ensures Next(s, Work(c, R.NewRoom(rawName))) == s.(db := s.db.(rooms := CreateRoomIn(s.db.rooms, rawName).0))
  {
    TablesExactly(OPCODE_REJECT_BOOKING, user.userType);
    TablesExactly(OPCODE_FORCE_BOOKING_STATUS, user.userType);
    TablesExactly(OPCODE_CREATE_ROOM, user.userType);
  }

  /** A list is begun exactly by whom it is for, and can be sent at once; both passes together change nothing. */
  lemma ListsGetThroughExactly(s: State, c: nat, user: User, f: Filter)
    requires IsIdle(s, c, user)
    ensures var t := Next(s, Work(c, R.CountPass(c, f)));
      if match f {
        case Any => user.userType == 2
        case UsernameSubstringFromNow(_) => user.userType == 2
        case OwnFromNow(_) => user.userType == 1
        case RoomFromNowNotRejected(_) => user.userType == 1
        case RoomFromNow(_) => user.userType <= 2
        case _ => user.userType == 1 || user.userType == 2
      } then
        && t == s.(db := s.db.(flights := s.db.flights[c := R.Counted(f, |R.Listed(s.db, f)|)]))
        && Next(t, Work(c, R.SendPass(c))) == s
      else t == s
  {
    TablesExactly(ListOpcode(f), user.userType);
    assert s.db.flights[c := R.Counted(f, |R.Listed(s.db, f)|)] - {c} == s.db.flights;
  }

  /** The clock can go on to any later time, whoever is in the middle of what. */
  lemma TimePasses(s: State, now: nat)
    requires s.db.clock <= now
    ensures Next(s, Tick(now)) == s.(db := s.db.(clock := now))
  {}

  /** Whoever is idle can log in, sign up, log out and leave as the session system lets it. */
  lemma AccountsGetThrough(s: State, m: S.Label)
    requires m.child !in s.db.flights
    ensures Next(s, Account(m)) == s.(accounts := S.Next(s.accounts, m))
  {}
}
