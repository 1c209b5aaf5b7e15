/** Children at the grain of single record reads and writes, each going through its phases: checks, lookups, locked
    sections.  Every run of them is a run of `Reservations`, so what holds of those runs holds here. */
module RecordLevel {
  import opened Records
  import opened Operations
  import opened Filters
  import opened Rooms
  import L = LockedSections
  import R = Reservations
  import H = Histories
  import C = Consistency
  import P = Listings

  /** `held` is what each child learnt in an earlier phase and has not used yet. */
  datatype State = State(files: L.State, rooms: seq<Room>, held: map<nat, R.Flight>)

  datatype Label =
    | Step(l: L.Label)
    | TakeUp(child: nat)                        // a lookup released, its booking found approvable
    | NewRoom(rawName: string)
    | Check(child: nat, booking: Booking)       // room and time range of a creation

  /** A creation has been checked by its child, an approval's booking looked up by it, with the shipped client's
      request. */
  predicate MayStart(held: map<nat, R.Flight>, c: nat, op: L.Op) {
    match op
    case Create(b) => c in held && held[c] == R.CreateChecked(b)
    case Approve(request, snap) => c in held && held[c] == R.ApproveSnapped(snap) && request == ApproveRequest(snap.id)
    case _ => c !in held
  }

  predicate Enabled(s: State, l: Label) {
    match l
    case Step(m) => L.Enabled(s.files, m) && (m.Acquire? ==> MayStart(s.held, m.child, m.op))
    case TakeUp(c) =>
      && L.Enabled(s.files, L.Release(c)) && s.files.sections[c].op.Find?
      && Approvable(s.files.sections[c].local.result, s.files.clock)
    case NewRoom(_) => true
    case Check(c, b) =>
      && c !in s.held && c !in s.files.sections
      && RoomExists(s.rooms, b.room) && RespectsTimeRequirements(b, s.files.clock)
  }

  predicate Uses(op: L.Op) {
    op.Create? || op.Approve?
  }

  function Next(s: State, l: Label): State {
    if !Enabled(s, l) then s else
    match l
    case Step(m) =>
      s.(files := L.Next(s.files, m),
         held := if m.Release? && Uses(s.files.sections[m.child].op) then s.held - {m.child} else s.held)
    case TakeUp(c) =>
      s.(files := L.Next(s.files, L.Release(c)),
         held := s.held[c := R.ApproveSnapped(s.files.sections[c].local.result)])
    case NewRoom(rawName) => s.(rooms := CreateRoomIn(s.rooms, rawName).0)
    case Check(c, b) => s.(held := s.held[c := R.CreateChecked(b)])
  }

  function Run(s: State, ls: seq<Label>): State {
    if ls == [] then s else Next(Run(s, ls[..|ls| - 1]), ls[|ls| - 1])
  }

  predicate Initial(s: State) {
    L.Initial(s.files) && s.held == map[]
  }

  function Abstract(s: State): R.State {
    R.State(s.files.committed, s.rooms, s.files.clock, s.held)
  }

  // ---------- the run of whole sections behind it ----------

  /** A writing section happens when it is released, a rejection at the time of its last look. */
  function Behind(s: State, l: Label): seq<R.Label> {
    if !Enabled(s, l) then [] else
    match l
    case Step(m) =>
      if !m.Release? then [] else
      var x, c := s.files.sections[m.child], m.child;
      (match x.op
       case Create(_) => [R.CommitCreate(c)]
       case Approve(_, _) => [R.CommitApprove(c)]
       case Reject(id) => [R.Tick(L.LastLook(x.lockedAt, x.clocks)), R.RejectNow(c, id)]
       case Force(id, status) => [R.ForceNow(c, id, status)]
       case _ => [])
    case TakeUp(c) => [R.Tick(s.files.clock), R.Snapshot(c, s.files.sections[c].op.id)]
    case NewRoom(rawName) => [R.NewRoom(rawName)]
    case Check(c, b) => [R.CheckCreate(c, b)]
  }

  /** What the steps of a run put out, one after the other. */
  function Collected<T>(s: State, ls: seq<Label>, out: (State, Label) -> seq<T>): seq<T> {
    if ls == [] then [] else Collected(s, ls[..|ls| - 1], out) + out(Run(s, ls[..|ls| - 1]), ls[|ls| - 1])
  }

  function RunBehind(s: State, ls: seq<Label>): seq<R.Label> {
    Collected(s, ls, Behind)
  }

  function StepReplies(a: R.State, l: R.Label): seq<Booking> {
    if R.Enabled(a, l) && R.WritesBookings(l) then [R.Reply(a, l)] else []
  }

  /** What the writing steps of a run return. */
  function Replies(a: R.State, ls: seq<R.Label>): seq<Booking> {
    R.Collected(a, ls, StepReplies)
  }

  lemma RepliesOfOne(a: R.State, l: R.Label)
    ensures Replies(a, [l]) == StepReplies(a, l)
  {
    R.CollectedOfOne(a, l, StepReplies);
  }

  lemma RepliesOfTwo(a: R.State, k: R.Label, l: R.Label)
    requires !R.WritesBookings(k)
    ensures Replies(a, [k, l]) == StepReplies(R.Next(a, k), l)
  {
    R.RunOfOne(a, k);
    R.CollectedContinues(a, [k], [l], StepReplies);
    R.CollectedOfOne(a, k, StepReplies);
    R.CollectedOfOne(R.Next(a, k), l, StepReplies);
    assert [k] + [l] == [k, l];
  }

  /** The clock behind may be late, but never later than the lock of a section that writes. */
  predicate Ready(sections: map<nat, L.Section>, held: map<nat, R.Flight>, clock: nat) {
    forall c :: c in sections ==>
      MayStart(held, c, sections[c].op)
      && (L.LockFor(sections[c].op) == L.Exclusive ==> clock <= sections[c].lockedAt)
  }

  predicate Related(s: State, a: R.State) {
    && a.bookings == s.files.committed && a.rooms == s.rooms && a.flights == s.held && a.clock <= s.files.clock
    && Ready(s.files.sections, s.held, a.clock)
  }

  lemma SectionsStay(t: L.State, m: L.Label)
    requires L.Enabled(t, m) && !m.Release?
    ensures var u := L.Next(t, m);
      && u.committed == t.committed && t.clock <= u.clock
      && forall d :: d in u.sections ==>
           || (d in t.sections
               && u.sections[d].op == t.sections[d].op && u.sections[d].lockedAt == t.sections[d].lockedAt)
           || (m.Acquire? && d == m.child && u.sections[d].op == m.op && u.sections[d].lockedAt == t.clock)
  {}

  lemma QuietStepIsRelated(s: State, a: R.State, m: L.Label)
    requires Related(s, a) && Enabled(s, Step(m)) && !m.Release?
    ensures Related(Next(s, Step(m)), a)
  {
    SectionsStay(s.files, m);
  }

  /** A released writer was alone, and its section was the atomic operation on the committed file. */
  lemma WriterReleases(t: L.State, c: nat)
    requires L.Inv(t) && L.Enabled(t, L.Release(c)) && L.LockFor(t.sections[c].op) == L.Exclusive
    ensures var x, u := t.sections[c], L.Next(t, L.Release(c));
      && u.sections == map[] && u.clock == t.clock
      && x.lockedAt <= L.LastLook(x.lockedAt, x.clocks) <= t.clock
      && L.Atomic(x.op, t.committed, x.lockedAt, x.clocks, u.committed, x.local)
  {
    L.ReleaseIsAtomic(t, c);
    L.WriterIsAlone(t, c);
    assert L.Next(t, L.Release(c)).sections.Keys == {};
  }

  /** What a step behind makes of the bookings file, the clock and the flights, and what it returns. */
  predicate Makes(a: R.State, ls: seq<R.Label>, file: seq<Booking>, clock: nat, c: nat, reply: Booking) {
    R.Run(a, ls) == a.(bookings := file, clock := clock, flights := a.flights - {c}) && Replies(a, ls) == [reply]
  }

  lemma CreateIsBehind(a: R.State, c: nat, b: Booking, file: seq<Booking>, reply: Booking)
    requires c in a.flights && a.flights[c] == R.CreateChecked(b) && (file, reply) == CreateIn(a.bookings, b)
    ensures Makes(a, [R.CommitCreate(c)], file, a.clock, c, reply)
  {
    R.RunOfOne(a, R.CommitCreate(c));
    RepliesOfOne(a, R.CommitCreate(c));
  }

  lemma ApproveIsBehind(a: R.State, c: nat, snap: Booking, file: seq<Booking>, reply: Booking)
    requires c in a.flights && a.flights[c] == R.ApproveSnapped(snap)
    requires (file, reply) == ApproveCommit(a.bookings, ApproveRequest(snap.id), snap)
    ensures Makes(a, [R.CommitApprove(c)], file, a.clock, c, reply)
  {
    R.RunOfOne(a, R.CommitApprove(c));
    RepliesOfOne(a, R.CommitApprove(c));
  }

  lemma RejectIsBehind(a: R.State, c: nat, id: U32, at: nat, file: seq<Booking>, reply: Booking)
    requires c !in a.flights && a.clock <= at && (file, reply) == RejectIn(a.bookings, id, at)
    ensures Makes(a, [R.Tick(at), R.RejectNow(c, id)], file, at, c, reply)
  {
    R.RunOfTwo(a, R.Tick(at), R.RejectNow(c, id));
    RepliesOfTwo(a, R.Tick(at), R.RejectNow(c, id));
    assert a.flights - {c} == a.flights;
  }

  lemma ForceIsBehind(a: R.State, c: nat, id: U32, status: Byte, file: seq<Booking>, reply: Booking)
    requires c !in a.flights && (file, reply) == ForceIn(a.bookings, id, status)
    ensures Makes(a, [R.ForceNow(c, id, status)], file, a.clock, c, reply)
  {
    R.RunOfOne(a, R.ForceNow(c, id, status));
    RepliesOfOne(a, R.ForceNow(c, id, status));
    assert a.flights - {c} == a.flights;
  }

  /** The effect and the reply of a released write are those of the step behind it. */
  lemma WriteIsBehind(s: State, a: R.State, c: nat)
    requires L.Inv(s.files) && Related(s, a)
    requires Enabled(s, Step(L.Release(c))) && L.LockFor(s.files.sections[c].op) == L.Exclusive
    ensures var l, x := Step(L.Release(c)), s.files.sections[c];
      Makes(a, Behind(s, l), Next(s, l).files.committed,
            if x.op.Reject? then L.LastLook(x.lockedAt, x.clocks) else a.clock, c, x.local.result)
  {
    var x, file := s.files.sections[c], L.Next(s.files, L.Release(c)).committed;
    WriterReleases(s.files, c);
    match x.op {
      case Create(b) => CreateIsBehind(a, c, b, file, x.local.result);
      case Approve(request, snap) => ApproveIsBehind(a, c, snap, file, x.local.result);
      case Reject(id) => RejectIsBehind(a, c, id, L.LastLook(x.lockedAt, x.clocks), file, x.local.result);
      case Force(id, status) => ForceIsBehind(a, c, id, status, file, x.local.result);
    }
  }

  lemma HeldAfterWrite(s: State, c: nat)
    requires Enabled(s, Step(L.Release(c))) && MayStart(s.held, c, s.files.sections[c].op)
    ensures Next(s, Step(L.Release(c))).held == s.held - {c}
  {
    assert c !in s.held ==> s.held - {c} == s.held;
  }

  lemma WriteIsRelated(s: State, a: R.State, c: nat)
    requires L.Inv(s.files) && Related(s, a)
    requires Enabled(s, Step(L.Release(c))) && L.LockFor(s.files.sections[c].op) == L.Exclusive
    ensures Related(Next(s, Step(L.Release(c))), R.Run(a, Behind(s, Step(L.Release(c)))))
  {
    WriterReleases(s.files, c);
    WriteIsBehind(s, a, c);
    HeldAfterWrite(s, c);
  }

  lemma ReadIsRelated(s: State, a: R.State, c: nat)
    requires L.Inv(s.files) && Related(s, a)
    requires Enabled(s, Step(L.Release(c))) && L.LockFor(s.files.sections[c].op) == L.Shared
    ensures Related(Next(s, Step(L.Release(c))), a)
  {
    L.ReaderSeesCommitted(s.files, c);
  }

  lemma LookupReleases(t: L.State, c: nat)
    requires L.Inv(t) && L.Enabled(t, L.Release(c)) && t.sections[c].op.Find?
    ensures var u := L.Next(t, L.Release(c));
      && u.sections == t.sections - {c} && u.committed == t.committed && u.clock == t.clock
      && (forall d :: d in u.sections ==> L.LockFor(u.sections[d].op) == L.Shared)
      && t.sections[c].local.result == FindFirst(t.committed, t.sections[c].op.id)
  {
    L.ReleaseIsAtomic(t, c);
    assert t.locks[c] == L.Shared;
  }

  lemma TakeUpIsRelated(s: State, a: R.State, c: nat)
    requires L.Inv(s.files) && Related(s, a) && Enabled(s, TakeUp(c))
    ensures Related(Next(s, TakeUp(c)), R.Run(a, Behind(s, TakeUp(c))))
  {
    var id, t := s.files.sections[c].op.id, L.Next(s.files, L.Release(c));
    LookupReleases(s.files, c);
    R.RunOfTwo(a, R.Tick(s.files.clock), R.Snapshot(c, id));
    assert Ready(t.sections, s.held[c := R.ApproveSnapped(FindFirst(a.bookings, id))], s.files.clock);
  }

  lemma CheckIsRelated(s: State, a: R.State, c: nat, b: Booking)
    requires Related(s, a) && Enabled(s, Check(c, b))
    ensures Related(Next(s, Check(c, b)), R.Run(a, Behind(s, Check(c, b))))
  {
    R.RunOfOne(a, R.CheckCreate(c, b));
  }

  lemma StepIsRelated(s: State, a: R.State, l: Label)
    requires L.Inv(s.files) && Related(s, a)
    ensures Related(Next(s, l), R.Run(a, Behind(s, l)))
  {
    if Enabled(s, l) {
      match l {
        case Step(m) =>
          if !m.Release? {
            QuietStepIsRelated(s, a, m);
          } else if L.LockFor(s.files.sections[m.child].op) == L.Exclusive {
            WriteIsRelated(s, a, m.child);
          } else {
            ReadIsRelated(s, a, m.child);
          }
        case TakeUp(c) => TakeUpIsRelated(s, a, c);
        case NewRoom(rawName) => R.RunOfOne(a, R.NewRoom(rawName));
        case Check(c, b) => CheckIsRelated(s, a, c, b);
      }
    }
  }

  // ---------- whole runs ----------

  lemma FilesKeep(s: State, l: Label)
    requires L.Inv(s.files)
    ensures L.Inv(Next(s, l).files)
  {
    if Enabled(s, l) && l.Step? { L.NextKeeps(s.files, l.l); }
    if Enabled(s, l) && l.TakeUp? { L.NextKeeps(s.files, L.Release(l.child)); }
  }

  /** What the write-locked sections return, in the order of their release. */
  function Returned(s: State, l: Label): seq<Booking> {
    if l.Step? && l.l.Release? && Enabled(s, l) && L.LockFor(s.files.sections[l.l.child].op) == L.Exclusive
    then [s.files.sections[l.l.child].local.result] else []
  }

  function AllReturned(s: State, ls: seq<Label>): seq<Booking> {
    Collected(s, ls, Returned)
  }

  lemma {:induction false} NoWritesNoReplies(a: R.State, ls: seq<R.Label>)
    requires forall i :: 0 <= i < |ls| ==> !R.WritesBookings(ls[i])
    ensures Replies(a, ls) == []
  {
    if ls != [] { NoWritesNoReplies(a, ls[..|ls| - 1]); }
  }

  lemma ReturnedBehind(s: State, a: R.State, l: Label)
    requires L.Inv(s.files) && Related(s, a)
    ensures Replies(a, Behind(s, l)) == Returned(s, l)
  {
    if Returned(s, l) != [] {
      WriteIsBehind(s, a, l.l.child);
    } else {
      NoWritesNoReplies(a, Behind(s, l));
    }
  }

  lemma {:induction false} RunsRelate(s: State, a: R.State, ls: seq<Label>)
    requires L.Inv(s.files) && Related(s, a)
    ensures L.Inv(Run(s, ls).files)
    ensures Related(Run(s, ls), R.Run(a, RunBehind(s, ls)))
    ensures Replies(a, RunBehind(s, ls)) == AllReturned(s, ls)
  {
    if ls != [] {
      var front, l := ls[..|ls| - 1], ls[|ls| - 1];
      var t, b := Run(s, front), R.Run(a, RunBehind(s, front));
      RunsRelate(s, a, front);
      FilesKeep(t, l);
      StepIsRelated(t, b, l);
      ReturnedBehind(t, b, l);
      R.RunContinues(a, RunBehind(s, front), Behind(t, l));
      R.CollectedContinues(a, RunBehind(s, front), Behind(t, l), StepReplies);
    }
  }

  /** Simulation: every run of children stepping one record at a time is a run of whole sections, with the same
      committed bookings, rooms and unfinished business at its end and the same replies of all writing sections along
      it. */
  lemma RunsAreRunsOfSections(s: State, ls: seq<Label>)
    requires Initial(s)
    ensures L.Inv(Run(s, ls).files)
    ensures Related(Run(s, ls), R.Run(Abstract(s), RunBehind(s, ls)))
    ensures Replies(Abstract(s), RunBehind(s, ls)) == AllReturned(s, ls)
  {
    RunsRelate(s, Abstract(s), ls);
  }

  // ---------- what carries over ----------

  predicate Started(s: State) {
    Initial(s) && R.Initial(Abstract(s))
  }

  /** No forcing, and creations as the shipped client asks for them. */
  predicate ForceFreeLabel(l: Label) {
    (l.Step? && l.l.Acquire? ==> !l.l.op.Force?) && (l.Check? ==> l.booking.status == PENDING)
  }

  predicate ForceFree(ls: seq<Label>) {
    forall i :: 0 <= i < |ls| ==> ForceFreeLabel(ls[i])
  }

  predicate NoForcing(sections: map<nat, L.Section>) {
    forall c :: c in sections ==> !sections[c].op.Force?
  }

  lemma StepForcesNothing(s: State, l: Label)
    requires NoForcing(s.files.sections) && ForceFreeLabel(l)
    ensures NoForcing(Next(s, l).files.sections)
    ensures R.ForceFree(Behind(s, l))
  {
    if l.Step? && Enabled(s, l) && !l.l.Release? { SectionsStay(s.files, l.l); }
  }

  lemma {:induction false} ForceFreeBehind(s: State, ls: seq<Label>)
    requires Initial(s) && ForceFree(ls)
    ensures NoForcing(Run(s, ls).files.sections) && R.ForceFree(RunBehind(s, ls))
  {
    if ls != [] {
      ForceFreeBehind(s, ls[..|ls| - 1]);
      StepForcesNothing(Run(s, ls[..|ls| - 1]), ls[|ls| - 1]);
    }
  }

  /** Record by record, too, history is append-only, non-zero ids stay distinct and bookings well placed. */
  lemma RecordsStayInPlace(s: State, ls: seq<Label>)
    requires Started(s)
    ensures var t := Run(s, ls);
      && Extends(s.files.committed, t.files.committed)
      && R.DistinctIds(t.files.committed) && R.Located(t.files.committed, t.rooms)
  {
    RunsAreRunsOfSections(s, ls);
    H.HistoryIsAppendOnly(Abstract(s), RunBehind(s, ls));
    R.RunKeepsInv(Abstract(s), RunBehind(s, ls));
  }

  /** In force-free runs the booking rules hold of the committed file and of whatever file a reader is looking at, and
      statuses only climb. */
  lemma RulesHoldUnderEveryReader(s: State, ls: seq<Label>)
    requires Started(s) && C.Safe(s.files.committed) && ForceFree(ls)
    ensures var t := Run(s, ls).files;
      && C.Safe(t.committed) && C.Climbs(s.files.committed, t.committed)
      && (forall c :: c in t.sections && L.LockFor(t.sections[c].op) == L.Shared ==> C.Safe(t.file))
      && (t.sections == map[] ==> C.Safe(t.file))
  {
    RunsAreRunsOfSections(s, ls);
    ForceFreeBehind(s, ls);
    C.ForceFreeRunsStaySafe(Abstract(s), RunBehind(s, ls));
    C.StatusIsMonotone(Abstract(s), RunBehind(s, ls));
    var t := Run(s, ls).files;
    forall c | c in t.sections && L.LockFor(t.sections[c].op) == L.Shared ensures t.file == t.committed {
      L.ReaderSeesCommitted(t, c);
    }
    if t.sections == map[] {
      assert t.locks.Keys == {};
    }
  }

  // ---------- double booking ----------

  predicate ReleasesApproval(s: State, l: Label) {
    l.Step? && l.l.Release? && Enabled(s, l) && s.files.sections[l.l.child].op.Approve?
  }

  /** A released approval found its target clear when it took the lock. */
  predicate ReleasesClear(s: State, l: Label) {
    ReleasesApproval(s, l) ==> C.Clear(s.files.sections[l.l.child].base, s.files.sections[l.l.child].op.snap.id)
  }

  predicate AllReleasesClear(s: State, ls: seq<Label>) {
    ls == [] || (AllReleasesClear(s, ls[..|ls| - 1]) && ReleasesClear(Run(s, ls[..|ls| - 1]), ls[|ls| - 1]))
  }

  lemma {:induction false} ClearWithoutApprovals(a: R.State, ls: seq<R.Label>)
    requires forall i :: 0 <= i < |ls| ==> !ls[i].CommitApprove?
    ensures R.Throughout(a, ls, C.CommitsClear)
  {
    if ls != [] { ClearWithoutApprovals(a, ls[..|ls| - 1]); }
  }

  lemma OnlyApprovalsBehind(s: State, l: Label)
    requires !ReleasesApproval(s, l)
    ensures forall i :: 0 <= i < |Behind(s, l)| ==> !Behind(s, l)[i].CommitApprove?
  {}

  lemma ApprovalBehind(s: State, a: R.State, l: Label)
    requires L.Inv(s.files) && Related(s, a) && ReleasesApproval(s, l)
    ensures Behind(s, l) == [R.CommitApprove(l.l.child)]
    ensures C.CommitsClear(a, R.CommitApprove(l.l.child)) <==> ReleasesClear(s, l)
  {}

  lemma ClearBehind(s: State, a: R.State, l: Label)
    requires L.Inv(s.files) && Related(s, a)
    ensures R.Throughout(a, Behind(s, l), C.CommitsClear) <==> ReleasesClear(s, l)
  {
    if ReleasesApproval(s, l) {
      ApprovalBehind(s, a, l);
      R.ThroughoutOfOne(a, R.CommitApprove(l.l.child), C.CommitsClear);
    } else {
      OnlyApprovalsBehind(s, l);
      ClearWithoutApprovals(a, Behind(s, l));
    }
  }

  lemma {:induction false} AllClearBehind(s: State, ls: seq<Label>)
    requires Initial(s)
    ensures R.Throughout(Abstract(s), RunBehind(s, ls), C.CommitsClear) <==> AllReleasesClear(s, ls)
  {
    if ls != [] {
      var front, l := ls[..|ls| - 1], ls[|ls| - 1];
      AllClearBehind(s, front);
      RunsAreRunsOfSections(s, front);
      ClearBehind(Run(s, front), R.Run(Abstract(s), RunBehind(s, front)), l);
      R.ThroughoutContinues(Abstract(s), RunBehind(s, front), Behind(Run(s, front), l), C.CommitsClear);
    }
  }

  /** Exact no-double-booking with children stepping one record at a time: the committed file is free of double bookings
      if and only if it was at the start and every released approval found its target clear when it took the lock. */
  lemma RecordLevelDoubleBookingExactly(s: State, ls: seq<Label>)
    requires Started(s) && C.Safe(s.files.committed) && ForceFree(ls)
    ensures C.NoDoubleBooking(Run(s, ls).files.committed)
       <==> C.NoDoubleBooking(s.files.committed) && AllReleasesClear(s, ls)
  {
    RunsAreRunsOfSections(s, ls);
    ForceFreeBehind(s, ls);
    AllClearBehind(s, ls);
    C.RunDoubleBookingExactly(Abstract(s), RunBehind(s, ls));
  }

  // ---------- lists ----------

  lemma {:induction false} RunContinues(s: State, ls: seq<Label>, more: seq<Label>)
    ensures Run(s, ls + more) == Run(Run(s, ls), more)
  {
    if more == [] {
      assert ls + more == ls;
    } else {
      RunContinues(s, ls, more[..|more| - 1]);
      assert (ls + more)[..|ls + more| - 1] == ls + more[..|more| - 1];
    }
  }

  lemma Regrouped<T>(a: seq<T>, b: seq<T>, c: seq<T>)
    ensures a + b + c == a + (b + c)
  {}

  lemma {:induction false} CollectedContinues<T>(s: State, ls: seq<Label>, more: seq<Label>,
                                                 out: (State, Label) -> seq<T>)
    ensures Collected(s, ls + more, out) == Collected(s, ls, out) + Collected(Run(s, ls), more, out)
  {
    if more == [] {
      assert ls + more == ls;
    } else {
      var t, front, l := Run(s, ls), more[..|more| - 1], more[|more| - 1];
      CollectedContinues(s, ls, front, out);
      RunContinues(s, ls, front);
      assert (ls + more)[..|ls + more| - 1] == ls + front;
      Regrouped(Collected(s, ls, out), Collected(t, front, out), out(Run(t, front), l));
    }
  }

  /** A section seen after a counting one of the same child was begun later. */
  predicate IsLater(x: L.Section, at: nat, y: L.Section) {
    y.op == x.op || at <= y.lockedAt
  }

  lemma {:induction false} SectionsComeLater(t: State, more: seq<Label>, c: nat)
    requires c in t.files.sections
    ensures var u := Run(t, more);
      && t.files.clock <= u.files.clock
      && (c in u.files.sections ==> IsLater(t.files.sections[c], t.files.clock, u.files.sections[c]))
  {
    if more != [] {
      var u, l := Run(t, more[..|more| - 1]), more[|more| - 1];
      SectionsComeLater(t, more[..|more| - 1], c);
      if l.Step? && Enabled(u, l) && !l.l.Release? { SectionsStay(u.files, l.l); }
    }
  }

  /** A counting section of a child that is done, and a later sending section of it that is done. */
  predicate TwoPasses(s: State, ls: seq<Label>, more: seq<Label>, c: nat, f: Filter) {
    var t, u := Run(s, ls).files, Run(Run(s, ls), more).files;
    && c in t.sections && t.sections[c].op == L.Count(f) && t.sections[c].pc.Finished?
    && c in u.sections && u.sections[c].op.Send? && u.sections[c].op.f == f && u.sections[c].pc.Finished?
  }

  lemma FilesExtend(s: State, ls: seq<Label>, more: seq<Label>)
    requires Started(s)
    ensures L.Inv(Run(s, ls).files) && L.Inv(Run(Run(s, ls), more).files)
    ensures Extends(Run(s, ls).files.committed, Run(Run(s, ls), more).files.committed)
  {
    var a, behind := Abstract(s), RunBehind(s, ls);
    RunsAreRunsOfSections(s, ls);
    RunsAreRunsOfSections(s, ls + more);
    RunContinues(s, ls, more);
    CollectedContinues(s, ls, more, Behind);
    R.RunKeepsInv(a, behind);
    R.RunContinues(a, behind, RunBehind(Run(s, ls), more));
    H.HistoryIsAppendOnly(R.Run(a, behind), RunBehind(Run(s, ls), more));
  }

  /** The two passes of a list, one record at a time: what they find are the filters of two files of which the second is
      later, each record judged by the clock at the time it was read. */
  lemma PassesAreLater(s: State, ls: seq<Label>, more: seq<Label>, c: nat, f: Filter)
    requires Started(s) && TwoPasses(s, ls, more, c, f)
    ensures var x, y := Run(s, ls).files.sections[c], Run(Run(s, ls), more).files.sections[c];
      && P.Later(x.base, x.clocks, y.base, y.clocks)
      && x.local.count == |Matching(x.base, f, x.clocks)| && |y.local.sent| == |Matching(y.base, f, y.clocks)|
  {
    var t, u := Run(s, ls).files, Run(Run(s, ls), more).files;
    var x, y := t.sections[c], u.sections[c];
    FilesExtend(s, ls, more);
    SectionsComeLater(Run(s, ls), more, c);
    assert L.SectionInv(x, t.file, t.clock) && L.SectionInv(y, u.file, u.clock);
    assert x.base[..|x.base|] == x.base && y.base[..|y.base|] == y.base;
  }

  /** Count against send with children stepping one record at a time: announced count plus joiners is records sent plus
      leavers; and, nothing having joined, the list falls short unless every booking counted remains. */
  lemma RecordLevelListsExactly(s: State, ls: seq<Label>, more: seq<Label>, c: nat, f: Filter)
    requires Started(s) && TwoPasses(s, ls, more, c, f)
    ensures var x, y := Run(s, ls).files.sections[c], Run(Run(s, ls), more).files.sections[c];
      && P.Later(x.base, x.clocks, y.base, y.clocks) && P.Explained(x.base, x.clocks, y.base, y.clocks, f)
      && x.local.count + |P.Joiners(x.base, x.clocks, y.base, y.clocks, f)|
         == |y.local.sent| + |P.Leavers(x.base, x.clocks, y.base, y.clocks, f)|
      && (|x.base| == |y.base| && P.NoneTurns(x.base, y.base, f) ==>
            (x.local.count <= |y.local.sent| <==> P.CountedRemain(x.base, x.clocks, y.base, y.clocks, f)))
  {
    var x, y := Run(s, ls).files.sections[c], Run(Run(s, ls), more).files.sections[c];
    PassesAreLater(s, ls, more, c, f);
    P.ListsBalance(x.base, x.clocks, y.base, y.clocks, f);
    if |x.base| == |y.base| && P.NoneTurns(x.base, y.base, f) {
      P.ListsFallShortExactly(x.base, x.clocks, y.base, y.clocks, f);
    }
  }

  // ---------- children get through ----------

  lemma CollectedOfOne<T>(s: State, l: Label, out: (State, Label) -> seq<T>)
    ensures Run(s, [l]) == Next(s, l) && Collected(s, [l], out) == out(s, l)
  {
    assert [l][..0] == [];
  }

  /** First one step, then the rest. */
  lemma StepThen(s: State, l: Label, rest: seq<Label>)
    ensures Run(s, [l] + rest) == Run(Next(s, l), rest)
    ensures RunBehind(s, [l] + rest) == Behind(s, l) + RunBehind(Next(s, l), rest)
  {
    RunContinues(s, [l], rest);
    CollectedContinues(s, [l], rest, Behind);
    CollectedOfOne(s, l, Behind);
  }

  lemma SteppedKeepsLock(x: L.Section, file: seq<Booking>, clock: nat)
    requires !x.pc.Finished? && (x.pc.Appending? ==> x.op.Create?)
    ensures L.Stepped(x, file, clock).lockedAt == x.lockedAt
    ensures x.pc.Appending? ==> L.Stepped(x, file, clock).pc.Finished?
  {}

  /** Only child c has moved on, inside its section. */
  predicate MovedOn(s: State, t: State, c: nat) {
    && t.files.committed == s.files.committed && t.files.clock == s.files.clock && t.files.locks == s.files.locks
    && t.rooms == s.rooms && t.held == s.held && c in s.files.sections && c in t.files.sections
    && t.files.sections == s.files.sections[c := t.files.sections[c]]
    && t.files.sections[c].op == s.files.sections[c].op && t.files.sections[c].lockedAt == s.files.sections[c].lockedAt
  }

  lemma MovesOn(s: State, t: State, u: State, c: nat)
    requires MovedOn(s, t, c) && MovedOn(t, u, c)
    ensures MovedOn(s, u, c)
  {}

  lemma InnerStep(s: State, c: nat)
    requires L.Inv(s.files) && c in s.files.sections && !s.files.sections[c].pc.Finished?
    ensures var l := Step(L.StepOf(s.files, c));
      && Next(s, l) == s.(files := L.Next(s.files, l.l)) && L.Inv(L.Next(s.files, l.l))
      && MovedOn(s, Next(s, l), c) && Behind(s, l) == []
  {
    var x := s.files.sections[c];
    L.StepIsStepped(s.files, c);
    L.SteppedIsNearer(x, s.files.file, s.files.clock);
    SteppedKeepsLock(x, s.files.file, s.files.clock);
    L.NextKeeps(s.files, L.StepOf(s.files, c));
  }

  /** Child c goes through its section, up to its release, and nothing else happens. */
  predicate GoesThrough(s: State, c: nat, ls: seq<Label>) {
    var t := Run(s, ls);
    L.Inv(t.files) && MovedOn(s, t, c) && t.files.sections[c].pc.Finished? && RunBehind(s, ls) == []
  }

  lemma GoesThroughAfter(s: State, t: State, c: nat, l: Label, rest: seq<Label>)
    requires t == Next(s, l) && MovedOn(s, t, c) && Behind(s, l) == [] && GoesThrough(t, c, rest)
    ensures GoesThrough(s, c, [l] + rest)
  {
    StepThen(s, l, rest);
    MovesOn(s, t, Run(t, rest), c);
  }

  lemma {:induction false} SectionsGoThrough(s: State, c: nat) returns (ls: seq<Label>)
    requires L.Inv(s.files) && c in s.files.sections
    ensures GoesThrough(s, c, ls)
    decreases L.Phase(s.files.sections[c].pc), |s.files.file| - s.files.sections[c].cursor,
              if s.files.sections[c].pc.Writing? then 1 else 0
  {
    var x, l := s.files.sections[c], Step(L.StepOf(s.files, c));
    if x.pc.Finished? {
      ls := [];
      assert s.files.sections == s.files.sections[c := x];
    } else {
      InnerStep(s, c);
      L.StepIsStepped(s.files, c);
      L.SteppedIsNearer(x, s.files.file, s.files.clock);
      SteppedKeepsLock(x, s.files.file, s.files.clock);
      var rest := SectionsGoThrough(Next(s, l), c);
      ls := [l] + rest;
      GoesThroughAfter(s, Next(s, l), c, l, rest);
    }
  }

  /** Nobody holds a lock on the bookings file. */
  predicate Free(s: State) {
    L.Inv(s.files) && s.files.locks == map[]
  }

  lemma FreeIsRelated(s: State)
    requires Free(s)
    ensures s.files.sections == map[] && s.files.file == s.files.committed && Related(s, Abstract(s))
  {
    L.FreeLockIsGranted(s.files, 0, L.Find(0));
  }

  /** On a free file child c enters a section it may start, and goes through it. */
  lemma SectionIsReady(s: State, c: nat, op: L.Op) returns (ls: seq<Label>)
    requires Free(s) && MayStart(s.held, c, op)
    ensures var t := Run(s, ls);
      && L.Inv(t.files) && Related(t, Abstract(s)) && t.files.sections.Keys == {c} && RunBehind(s, ls) == []
      && t.files.sections[c].pc.Finished? && t.files.sections[c].op == op
      && t.files.sections[c].lockedAt == s.files.clock == t.files.clock
      && t.files.committed == s.files.committed && t.rooms == s.rooms && t.held == s.held
  {
    var l := Step(L.Acquire(c, op));
    var t := Next(s, l);
    FreeIsRelated(s);
    L.FreeLockIsGranted(s.files, c, op);
    L.LocksAreGrantedExactly(s.files, c, op);
    assert t.files == L.Next(s.files, l.l);
    var rest := SectionsGoThrough(t, c);
    ls := [l] + rest;
    StepThen(s, l, rest);
    RunsRelate(s, Abstract(s), ls);
  }

  /** The steps behind a writing section. */
  function BehindOp(c: nat, op: L.Op, at: nat): seq<R.Label>
    requires L.LockFor(op) == L.Exclusive
  {
    match op
    case Create(_) => [R.CommitCreate(c)]
    case Approve(_, _) => [R.CommitApprove(c)]
    case Reject(id) => [R.Tick(at), R.RejectNow(c, id)]
    case Force(id, status) => [R.ForceNow(c, id, status)]
  }

  lemma ReleaseIsBehind(t: State, c: nat)
    requires L.Inv(t.files) && t.files.sections.Keys == {c} && t.files.sections[c].pc.Finished?
    requires L.LockFor(t.files.sections[c].op) == L.Exclusive && t.files.sections[c].lockedAt == t.files.clock
    ensures var l := Step(L.Release(c));
      Enabled(t, l) && Behind(t, l) == BehindOp(c, t.files.sections[c].op, t.files.clock) && Free(Next(t, l))
      && Next(t, l).rooms == t.rooms && Next(t, l).files.clock == t.files.clock
  {
    L.NextKeeps(t.files, L.Release(c));
    WriterReleases(t.files, c);
    assert Next(t, Step(L.Release(c))).files.locks.Keys == {};
  }

  /** On a free file every writing section a child may start gets through. */
  lemma WritesGetThrough(s: State, c: nat, op: L.Op) returns (ls: seq<Label>)
    requires Free(s) && MayStart(s.held, c, op) && L.LockFor(op) == L.Exclusive
    ensures Free(Run(s, ls)) && Run(s, ls).rooms == s.rooms && Run(s, ls).files.clock == s.files.clock
    ensures RunBehind(s, ls) == BehindOp(c, op, s.files.clock)
    ensures var a := R.Run(Abstract(s), BehindOp(c, op, s.files.clock));
      Run(s, ls).files.committed == a.bookings && Run(s, ls).held == a.flights
    ensures AllReturned(s, ls) == Replies(Abstract(s), BehindOp(c, op, s.files.clock))
  {
    var ready := SectionIsReady(s, c, op);
    var t, l := Run(s, ready), Step(L.Release(c));
    ReleaseIsBehind(t, c);
    ls := ready + [l];
    RunContinues(s, ready, [l]);
    CollectedContinues(s, ready, [l], Behind);
    CollectedOfOne(t, l, Behind);
    FreeIsRelated(s);
    RunsRelate(s, Abstract(s), ls);
  }

  /** Nothing is left over: no lock, no unfinished business but the others', the same rooms and clock. */
  predicate Through(s: State, ls: seq<Label>, file: seq<Booking>, returned: seq<Booking>) {
    var t := Run(s, ls);
    && Free(t) && t.files.file == t.files.committed == file && AllReturned(s, ls) == returned
    && t.held == s.held && t.rooms == s.rooms && t.files.clock == s.files.clock
  }

  lemma FollowedBy(s: State, first: seq<Label>, second: seq<Label>)
    ensures Run(s, first + second) == Run(Run(s, first), second)
    ensures AllReturned(s, first + second) == AllReturned(s, first) + AllReturned(Run(s, first), second)
  {
    RunContinues(s, first, second);
    CollectedContinues(s, first, second, Returned);
  }

  lemma NothingReturned(s: State, ls: seq<Label>)
    requires Free(s) && forall i :: 0 <= i < |RunBehind(s, ls)| ==> !R.WritesBookings(RunBehind(s, ls)[i])
    ensures AllReturned(s, ls) == []
  {
    FreeIsRelated(s);
    RunsRelate(s, Abstract(s), ls);
    NoWritesNoReplies(Abstract(s), RunBehind(s, ls));
  }

  lemma ReaderLeavesNothing(t: State, c: nat)
    requires L.Inv(t.files) && t.files.sections.Keys == {c} && t.files.sections[c].pc.Finished?
    requires L.OnlyReads(t.files.sections[c].op)
    ensures var l := Step(L.Release(c)); var u := Next(t, l);
      && Behind(t, l) == [] && Free(u) && u.files.committed == t.files.committed
      && u.held == t.held && u.rooms == t.rooms && u.files.clock == t.files.clock
  {
    L.NextKeeps(t.files, L.Release(c));
    L.ReaderSeesCommitted(t.files, c);
    assert Next(t, Step(L.Release(c))).files.locks.Keys == {};
  }

  /** On a free file every reading section gets through. */
  lemma ReadsGetThrough(s: State, c: nat, op: L.Op) returns (ls: seq<Label>)
    requires Free(s) && c !in s.held && L.OnlyReads(op)
    ensures Through(s, ls, s.files.file, [])
  {
    var ready := SectionIsReady(s, c, op);
    var t, l := Run(s, ready), Step(L.Release(c));
    ReaderLeavesNothing(t, c);
    ls := ready + [l];
    RunContinues(s, ready, [l]);
    CollectedContinues(s, ready, [l], Behind);
    CollectedOfOne(t, l, Behind);
    NothingReturned(s, ls);
    FreeIsRelated(s);
    FreeIsRelated(Next(t, l));
  }

  lemma LookupIsTakenUp(s: State, c: nat, id: U32) returns (ls: seq<Label>)
    requires Free(s) && c !in s.held
    requires FindFirst(s.files.file, id).id != 0 && s.files.clock <= FindFirst(s.files.file, id).end
    ensures Free(Run(s, ls)) && Run(s, ls).files.committed == s.files.committed
    ensures Run(s, ls).held == s.held[c := R.ApproveSnapped(FindFirst(s.files.file, id))]
    ensures Run(s, ls).rooms == s.rooms && Run(s, ls).files.clock == s.files.clock && AllReturned(s, ls) == []
  {
    var ready := SectionIsReady(s, c, L.Find(id));
    var t, l := Run(s, ready), TakeUp(c);
    FreeIsRelated(s);
    LookupReleases(t.files, c);
    L.NextKeeps(t.files, L.Release(c));
    ls := ready + [l];
    RunContinues(s, ready, [l]);
    CollectedContinues(s, ready, [l], Behind);
    CollectedOfOne(t, l, Behind);
    NothingReturned(s, ls);
    assert Next(t, l).files.locks.Keys == {};
  }

  lemma WriteIsThrough(s: State, c: nat, op: L.Op, ls: seq<Label>, file: seq<Booking>, reply: Booking)
    requires Free(s) && Free(Run(s, ls)) && L.LockFor(op) == L.Exclusive
    requires Run(s, ls).rooms == s.rooms && Run(s, ls).files.clock == s.files.clock
    requires Makes(Abstract(s), BehindOp(c, op, s.files.clock), file, s.files.clock, c, reply)
    requires var a := R.Run(Abstract(s), BehindOp(c, op, s.files.clock));
      Run(s, ls).files.committed == a.bookings && Run(s, ls).held == a.flights
    requires AllReturned(s, ls) == Replies(Abstract(s), BehindOp(c, op, s.files.clock))
    ensures Run(s, ls).files.file == Run(s, ls).files.committed == file && Run(s, ls).held == s.held - {c}
    ensures AllReturned(s, ls) == [reply]
  {
    FreeIsRelated(Run(s, ls));
  }

  /** Whoever is idle on a free file can have a booking rejected: a run of single record steps does what the operation
      does, and returns what it returns. */
  lemma RejectionsGetThrough(s: State, c: nat, id: U32) returns (ls: seq<Label>)
    requires Free(s) && c !in s.held
    ensures var (file, reply) := RejectIn(s.files.file, id, s.files.clock); Through(s, ls, file, [reply])
  {
    var (file, reply) := RejectIn(s.files.file, id, s.files.clock);
    FreeIsRelated(s);
    ls := WritesGetThrough(s, c, L.Reject(id));
    RejectIsBehind(Abstract(s), c, id, s.files.clock, file, reply);
    WriteIsThrough(s, c, L.Reject(id), ls, file, reply);
    assert s.held - {c} == s.held;
  }

  /** Or its status forced. */
  lemma ForcingsGetThrough(s: State, c: nat, id: U32, status: Byte) returns (ls: seq<Label>)
    requires Free(s) && c !in s.held
    ensures var (file, reply) := ForceIn(s.files.file, id, status); Through(s, ls, file, [reply])
  {
    var (file, reply) := ForceIn(s.files.file, id, status);
    FreeIsRelated(s);
    ls := WritesGetThrough(s, c, L.Force(id, status));
    ForceIsBehind(Abstract(s), c, id, status, file, reply);
    WriteIsThrough(s, c, L.Force(id, status), ls, file, reply);
    assert s.held - {c} == s.held;
  }

  /** Rooms join, and the clock goes on, whoever is in the middle of what. */
  lemma RoomsAndTimeGoOn(s: State, rawName: string, now: nat)
    requires s.files.clock <= now
    ensures Next(s, NewRoom(rawName)) == s.(rooms := CreateRoomIn(s.rooms, rawName).0)
    ensures Next(s, Step(L.Tick(now))) == s.(files := s.files.(clock := now))
  {}

  /** Or a booking created that asks for an existing room and whole slots not yet begun. */
  lemma CreationsGetThrough(s: State, c: nat, b: Booking) returns (ls: seq<Label>)
    requires Free(s) && c !in s.held && (exists i :: 0 <= i < |s.rooms| && s.rooms[i].id == b.room)
    requires b.start < b.end && (b.end - b.start) % 3600 == 0 && s.files.clock <= b.start
    ensures var (file, reply) := CreateIn(s.files.file, b); Through(s, ls, file, [reply])
  {
    var (file, reply) := CreateIn(s.files.file, b);
    FreeIsRelated(s);
    var t := Next(s, Check(c, b));
    var rest := WritesGetThrough(t, c, L.Create(b));
    CreateIsBehind(Abstract(t), c, b, file, reply);
    WriteIsThrough(t, c, L.Create(b), rest, file, reply);
    ls := [Check(c, b)] + rest;
    CollectedOfOne(s, Check(c, b), Returned);
    FollowedBy(s, [Check(c, b)], rest);
    assert t.held - {c} == s.held;
  }

  /** Or a booking approved, if it is there and not over. */
  lemma ApprovalsGetThrough(s: State, c: nat, id: U32) returns (ls: seq<Label>)
    requires Free(s) && c !in s.held
    requires FindFirst(s.files.file, id).id != 0 && s.files.clock <= FindFirst(s.files.file, id).end
    ensures var (file, reply) := ApproveIn(s.files.file, ApproveRequest(id), s.files.clock);
      Through(s, ls, file, [reply])
  {
    var (file, reply) := ApproveIn(s.files.file, ApproveRequest(id), s.files.clock);
    var snap := FindFirst(s.files.file, id);
    FreeIsRelated(s);
    var lookup := LookupIsTakenUp(s, c, id);
    var t, op := Run(s, lookup), L.Approve(ApproveRequest(id), snap);
    FreeIsRelated(t);
    var rest := WritesGetThrough(t, c, op);
    ApproveIsBehind(Abstract(t), c, snap, file, reply);
    WriteIsThrough(t, c, op, rest, file, reply);
    ls := lookup + rest;
    FollowedBy(s, lookup, rest);
    assert t.held - {c} == s.held;
  }
}
