/** Children stepping through locked sections of the bookings file, one record read or write at a time.  A step that is
    not enabled (a blocked lock request, say) leaves the state as it is, so a run is any list of labels. */
module LockedSections {
  import opened Records
  import opened Operations
  import opened Filters

  datatype Op =
    | Find(id: U32)
    | Count(f: Filter)
    | Send(f: Filter, shouldMask: bool, viewer: string)
    | Create(booking: Booking)
    | Reject(id: U32)
    | Force(id: U32, status: Byte)
    | Approve(request: Booking, snap: Booking)

  datatype Lock = Shared | Exclusive

  function LockFor(op: Op): Lock {
    if op.Find? || op.Count? || op.Send? then Shared else Exclusive
  }

  datatype Local = Local(greatest: U32, result: Booking, count: nat, sent: seq<Booking>)

  const FRESH_LOCAL := Local(0, ZERO_BOOKING, 0, [])

  /** What the child does next: `Checking` is the first pass of an approval; after `Writing` a section either goes on
      reading or is done, and may remember the written record as its result. */
  datatype Pc = Checking | Scanning | Writing(booking: Booking, more: bool, isResult: bool) | Appending | Finished

  /** A child inside a section.  `base`, `lockedAt` and `clocks` (the clock at each read of the current pass) are
      history. */
  datatype Section = Section(op: Op, base: seq<Booking>, lockedAt: nat, cursor: nat, clocks: seq<nat>,
                             local: Local, pc: Pc)

  function Begin(op: Op, file: seq<Booking>, now: nat): Section {
    Section(op, file, now, 0, [], FRESH_LOCAL, if op.Approve? then Checking else Scanning)
  }

  function AfterRead(x: Section, b: Booking, now: nat): (z: Section)
    ensures z.cursor == x.cursor + 1 && z.clocks == x.clocks + [now]
    ensures z.op == x.op && z.base == x.base && z.lockedAt == x.lockedAt
  {
    var y := x.(cursor := x.cursor + 1, clocks := x.clocks + [now]);
    match x.op
    case Find(id) => if b.id == id then y.(local := y.local.(result := b), pc := Finished) else y
    case Count(f) => if Matches(f, b, now) then y.(local := y.local.(count := y.local.count + 1)) else y
    case Send(f, shouldMask, viewer) =>
      if Matches(f, b, now) then y.(local := y.local.(sent := y.local.sent + [Shown(b, shouldMask, viewer)])) else y
    case Create(booking) =>
      var z := if b.id > y.local.greatest then y.(local := y.local.(greatest := b.id)) else y;
      if IsConflict(b, booking) then z.(pc := Finished) else z
    case Reject(id) => if Rejectable(b, id, now) then y.(pc := Writing(b.(status := REJECTED), false, true)) else y
    case Force(id, status) => if b.id == id then y.(pc := Writing(b.(status := status), false, true)) else y
    case Approve(request, snap) =>
      var target := snap.(status := APPROVED);
      if x.pc.Checking? then
        if ConflictsWithOther(b, request) then y.(pc := Writing(snap.(status := REJECTED), false, false)) else y
      else if b.id == target.id then y.(pc := Writing(target, true, true))
      else if IsConflict(b, target) && b.status == PENDING then y.(pc := Writing(b.(status := REJECTED), true, false))
      else y
  }

  function AfterEnd(x: Section): Section {
    if x.pc.Checking? then x.(cursor := 0, clocks := [], pc := Scanning)
    else if x.op.Create? then x.(pc := Appending)
    else x.(pc := Finished)
  }

  function AfterWrite(x: Section): Section
    requires x.pc.Writing?
  {
    var y := if x.pc.isResult then x.(local := x.local.(result := x.pc.booking)) else x;
    y.(pc := if x.pc.more then Scanning else Finished)
  }

  function Appended(x: Section): Booking
    requires x.op.Create?
  {
    x.op.booking.(id := (x.local.greatest + 1) % 0x1_0000_0000, status := PENDING)
  }

  // ---------- the machine ----------

  /** `committed` is history: the file as the last released write section left it. */
  datatype State = State(file: seq<Booking>, committed: seq<Booking>, clock: nat,
                         locks: map<nat, Lock>, sections: map<nat, Section>)

  datatype Label = Tick(now: nat) | Acquire(child: nat, op: Op) | Read(child: nat) | ReachEnd(child: nat)
    | Write(child: nat) | Extend(child: nat) | Release(child: nat)

  /** The kernel's rule for whole-file `fcntl` locks: readers share, a writer excludes everybody. */
  predicate Grantable(locks: map<nat, Lock>, child: nat, lock: Lock) {
    && child !in locks
    && forall d :: d in locks ==> lock == Shared && locks[d] == Shared
  }

  predicate Scans(x: Section) {
    x.pc.Checking? || x.pc.Scanning?
  }

  predicate Enabled(s: State, l: Label) {
    match l
    case Tick(now) => s.clock <= now
    case Acquire(c, op) => Grantable(s.locks, c, LockFor(op)) && c !in s.sections
    case Read(c) => c in s.sections && Scans(s.sections[c]) && s.sections[c].cursor < |s.file|
    case ReachEnd(c) => c in s.sections && Scans(s.sections[c]) && s.sections[c].cursor >= |s.file|
    case Write(c) => c in s.sections && s.sections[c].pc.Writing? && 0 < s.sections[c].cursor <= |s.file|
    case Extend(c) => c in s.sections && s.sections[c].pc.Appending? && s.sections[c].op.Create?
    case Release(c) => c in s.sections && s.sections[c].pc.Finished?
  }

  function Next(s: State, l: Label): State {
    if !Enabled(s, l) then s else
    match l
    case Tick(now) => s.(clock := now)
    case Acquire(c, op) =>
      s.(locks := s.locks[c := LockFor(op)], sections := s.sections[c := Begin(op, s.file, s.clock)])
    case Read(c) =>
      var x := s.sections[c];
      s.(sections := s.sections[c := AfterRead(x, s.file[x.cursor], s.clock)])
    case ReachEnd(c) => s.(sections := s.sections[c := AfterEnd(s.sections[c])])
    case Write(c) =>
      var x := s.sections[c];
      s.(file := s.file[x.cursor - 1 := x.pc.booking], sections := s.sections[c := AfterWrite(x)])
    case Extend(c) =>
      var x := s.sections[c];
      s.(file := s.file + [Appended(x)],
         sections := s.sections[c := x.(local := x.local.(result := Appended(x)), pc := Finished)])
    case Release(c) =>
      s.(locks := s.locks - {c}, sections := s.sections - {c},
         committed := if LockFor(s.sections[c].op) == Exclusive then s.file else s.committed)
  }

  function Run(s: State, ls: seq<Label>): State {
    if ls == [] then s else Next(Run(s, ls[..|ls| - 1]), ls[|ls| - 1])
  }

  predicate Initial(s: State) {
    s.committed == s.file && s.locks == map[] && s.sections == map[]
  }

  // ---------- the atomic operations ----------

  /** The time of the last look at a record. */
  function LastLook(from: nat, clocks: seq<nat>): nat {
    if clocks == [] then from else clocks[|clocks| - 1]
  }

  /** One uninterrupted operation on `base`, taking the lock at time `from` and reading the clock at each record. */
  predicate Atomic(op: Op, base: seq<Booking>, from: nat, clocks: seq<nat>, file: seq<Booking>, local: Local) {
    match op
    case Find(id) => file == base && local.result == FindFirst(base, id)
    case Count(f) => file == base && |clocks| == |base| && local.count == |Matching(base, f, clocks)|
    case Send(f, shouldMask, viewer) =>
      file == base && |clocks| == |base| && local.sent == ShownAll(Matching(base, f, clocks), shouldMask, viewer)
    case Create(booking) => (file, local.result) == CreateIn(base, booking)
    case Reject(id) => (file, local.result) == RejectIn(base, id, LastLook(from, clocks))
    case Force(id, status) => (file, local.result) == ForceIn(base, id, status)
    case Approve(request, snap) => (file, local.result) == ApproveCommit(base, request, snap)
  }

  datatype Event = Event(op: Op, before: seq<Booking>, from: nat, to: nat, clocks: seq<nat>,
                         after: seq<Booking>, local: Local)

  predicate ClimbingBetween(clocks: seq<nat>, from: nat, to: nat) {
    && (forall i :: 0 <= i < |clocks| ==> from <= clocks[i] <= to)
    && (forall i, j :: 0 <= i <= j < |clocks| ==> clocks[i] <= clocks[j])
  }

  predicate AtomicEvent(e: Event) {
    && e.from <= e.to
    && ClimbingBetween(e.clocks, e.from, e.to)
    && Atomic(e.op, e.before, e.from, e.clocks, e.after, e.local)
  }

  /** The section a release completes. */
  function Completed(s: State, l: Label): seq<Event> {
    if l.Release? && Enabled(s, l) then
      var x := s.sections[l.child];
      [Event(x.op, x.base, x.lockedAt, s.clock, x.clocks, s.file, x.local)]
    else []
  }

  function History(s: State, ls: seq<Label>): seq<Event> {
    if ls == [] then []
    else
      var n := |ls| - 1;
      History(s, ls[..n]) + Completed(Run(s, ls[..n]), ls[n])
  }

  /** The events follow one another: each starts from the file the previous one left. */
  predicate Serial(before: seq<Booking>, es: seq<Event>, after: seq<Booking>) {
    if es == [] then before == after
    else
      var n := |es| - 1;
      AtomicEvent(es[n]) && es[n].after == after && Serial(before, es[..n], es[n].before)
  }

  // ---------- the invariant ----------

  predicate Progress(x: Section, file: seq<Booking>)
    requires x.cursor <= |file| && |x.clocks| == x.cursor
  {
    var base, n, l := x.base, x.cursor, x.local;
    match x.op
    case Find(id) =>
      && file == base
      && match x.pc {
        case Scanning => l.result == ZERO_BOOKING && forall j :: 0 <= j < n ==> base[j].id != id
        case Finished => l.result == FindFirst(base, id)
        case _ => false
      }
    case Count(f) =>
      && file == base && (x.pc.Scanning? || (x.pc.Finished? && n == |base|))
      && l.count == |Matching(base[..n], f, x.clocks)|
    case Send(f, shouldMask, viewer) =>
      && file == base && (x.pc.Scanning? || (x.pc.Finished? && n == |base|))
      && l.sent == ShownAll(Matching(base[..n], f, x.clocks), shouldMask, viewer)
    case Create(booking) =>
      if x.pc.Finished? then (file, l.result) == CreateIn(base, booking)
      else
        && file == base && l.result == ZERO_BOOKING
        && (x.pc.Scanning? || (x.pc.Appending? && n == |base|))
        && ScannedClear(base, booking, n, l.greatest)
    case Reject(id) =>
      (match x.pc
       case Scanning => file == base && l.result == ZERO_BOOKING && NoneRejectable(base[..n], id, x.clocks)
       case Writing(b, more, isResult) =>
         && file == base && 0 < n && !more && isResult
         && NoneRejectable(base[..n - 1], id, x.clocks[..n - 1])
         && Rejectable(base[n - 1], id, x.clocks[n - 1]) && b == base[n - 1].(status := REJECTED)
       case Finished => (file, l.result) == RejectIn(base, id, LastLook(x.lockedAt, x.clocks))
       case _ => false)
    case Force(id, status) =>
      (match x.pc
       case Scanning => file == base && l.result == ZERO_BOOKING && forall j :: 0 <= j < n ==> base[j].id != id
       case Writing(b, more, isResult) =>
         && file == base && 0 < n && !more && isResult
         && n - 1 == IndexOfId(base, id) && b == base[n - 1].(status := status)
       case Finished => (file, l.result) == ForceIn(base, id, status)
       case _ => false)
    case Approve(request, snap) =>
      (match x.pc
       case Checking =>
         file == base && l.result == ZERO_BOOKING && forall j :: 0 <= j < n ==> !ConflictsWithOther(base[j], request)
       case Writing(b, more, isResult) =>
         if !more then
           && file == base && l.result == ZERO_BOOKING && 0 < n && !isResult
           && n - 1 == ConflictIndex(base, request) && b == snap.(status := REJECTED)
         else
           && 0 < n && Swept(x, file, n - 1)
           && b == SweepRecord(base[n - 1], snap.(status := APPROVED)) && isResult == (base[n - 1].id == snap.id)
       case Scanning => Swept(x, file, n)
       case Finished => (file, l.result) == ApproveCommit(base, request, snap)
       case Appending => false)
  }

  predicate NoneRejectable(rs: seq<Booking>, id: U32, clocks: seq<nat>)
    requires |clocks| == |rs|
  {
    forall j :: 0 <= j < |rs| ==> !Rejectable(rs[j], id, clocks[j])
  }

  /** The second pass of an approval has dealt with the first n records. */
  predicate Swept(x: Section, file: seq<Booking>, n: nat)
    requires x.op.Approve?
  {
    var target := x.op.snap.(status := APPROVED);
    && ConflictIndex(x.base, x.op.request) == |x.base|
    && SweptUpTo(x.base, file, target, n)
    && x.local.result == if IndexOfId(x.base, target.id) < n then target else ZERO_BOOKING
  }

  predicate SectionInv(x: Section, file: seq<Booking>, clock: nat) {
    && x.lockedAt <= clock
    && x.cursor <= |file| && |x.clocks| == x.cursor
    && ClimbingBetween(x.clocks, x.lockedAt, clock)
    && Progress(x, file)
  }

  predicate LocksInv(locks: map<nat, Lock>, sections: map<nat, Section>) {
    && locks.Keys == sections.Keys
    && (forall c :: c in sections ==> locks[c] == LockFor(sections[c].op))
    && (forall c, d :: c in locks && d in locks && c != d ==> locks[c] == Shared)
  }

  predicate Inv(s: State) {
    && LocksInv(s.locks, s.sections)
    && (forall c :: c in s.sections ==> s.sections[c].base == s.committed && SectionInv(s.sections[c], s.file, s.clock))
    && ((forall c :: c in s.locks ==> s.locks[c] == Shared) ==> s.file == s.committed)
  }

  // ---------- one step inside a section ----------

  lemma BeginKeeps(op: Op, file: seq<Booking>, clock: nat)
    ensures SectionInv(Begin(op, file, clock), file, clock)
  {}

  predicate Reads(x: Section, file: seq<Booking>) {
    Scans(x) && x.cursor < |file|
  }

  lemma ReadFind(x: Section, file: seq<Booking>, clock: nat)
    requires SectionInv(x, file, clock) && Reads(x, file) && (x.op.Find? || x.op.Force?)
    ensures Progress(AfterRead(x, file[x.cursor], clock), file)
  {}

  lemma ReadCount(x: Section, file: seq<Booking>, clock: nat)
    requires SectionInv(x, file, clock) && Reads(x, file) && x.op.Count?
    ensures Progress(AfterRead(x, file[x.cursor], clock), file)
  {
    var clocks := x.clocks + [clock];
    assert clocks[..x.cursor] == x.clocks && x.base[..x.cursor + 1][..x.cursor] == x.base[..x.cursor];
  }

  lemma ReadSend(x: Section, file: seq<Booking>, clock: nat)
    requires SectionInv(x, file, clock) && Reads(x, file) && x.op.Send?
    ensures Progress(AfterRead(x, file[x.cursor], clock), file)
  {
    var n, base, op := x.cursor, x.base, x.op;
    var clocks := x.clocks + [clock];
    assert base[..n + 1][..n] == base[..n] && clocks[..n] == x.clocks;
    var matched := Matching(base[..n], op.f, x.clocks);
    if Matches(op.f, base[n], clock) {
      assert ShownAll(matched + [base[n]], op.shouldMask, op.viewer)
          == ShownAll(matched, op.shouldMask, op.viewer) + [Shown(base[n], op.shouldMask, op.viewer)];
    }
  }

  lemma ReadCreate(x: Section, file: seq<Booking>, clock: nat)
    requires SectionInv(x, file, clock) && Reads(x, file) && x.op.Create?
    ensures Progress(AfterRead(x, file[x.cursor], clock), file)
  {
    ScannedOneMore(x.base, x.op.booking, x.cursor, x.local.greatest);
  }

  lemma ReadReject(x: Section, file: seq<Booking>, clock: nat)
    requires SectionInv(x, file, clock) && Reads(x, file) && x.op.Reject?
    ensures Progress(AfterRead(x, file[x.cursor], clock), file)
  {}

  lemma ReadApprove(x: Section, file: seq<Booking>, clock: nat)
    requires SectionInv(x, file, clock) && Reads(x, file) && x.op.Approve?
    ensures Progress(AfterRead(x, file[x.cursor], clock), file)
  {
    var base, target := x.base, x.op.snap.(status := APPROVED);
    if x.pc.Scanning? {
      SweptOneMore(base, file, target, x.cursor);
      if base[x.cursor].id == target.id {
        assert IndexOfId(base, target.id) <= x.cursor;
      }
    }
  }

  lemma ReadProgress(x: Section, file: seq<Booking>, clock: nat)
    requires SectionInv(x, file, clock) && Reads(x, file)
    ensures Progress(AfterRead(x, file[x.cursor], clock), file)
  {
    if x.op.Find? || x.op.Force? { ReadFind(x, file, clock); }
    else if x.op.Count? { ReadCount(x, file, clock); }
    else if x.op.Send? { ReadSend(x, file, clock); }
    else if x.op.Create? { ReadCreate(x, file, clock); }
    else if x.op.Reject? { ReadReject(x, file, clock); }
    else { ReadApprove(x, file, clock); }
  }

  lemma OneReadLater(x: Section, y: Section, file: seq<Booking>, clock: nat)
    requires SectionInv(x, file, clock) && x.cursor < |file|
    requires y.cursor == x.cursor + 1 && y.clocks == x.clocks + [clock] && y.lockedAt == x.lockedAt
    requires Progress(y, file)
    ensures SectionInv(y, file, clock)
  {}

  lemma ReadKeeps(x: Section, file: seq<Booking>, clock: nat)
    requires SectionInv(x, file, clock) && Reads(x, file)
    ensures SectionInv(AfterRead(x, file[x.cursor], clock), file, clock)
  {
    ReadProgress(x, file, clock);
    OneReadLater(x, AfterRead(x, file[x.cursor], clock), file, clock);
  }

  lemma EndKeeps(x: Section, file: seq<Booking>, clock: nat)
    requires SectionInv(x, file, clock)
    requires x.pc.Checking? || x.pc.Scanning?
    requires x.cursor >= |file|
    ensures SectionInv(AfterEnd(x), file, clock)
  {
    match x.op {
      case Reject(id) =>
        // No record was rejectable when it was read, so none is at the time of the last look.
        var t := LastLook(x.lockedAt, x.clocks);
        assert forall j :: 0 <= j < |file| ==> !Rejectable(file[j], id, t);
        assert (file, x.local.result) == RejectIn(x.base, id, t);
      case Approve(request, snap) =>
        if x.pc.Scanning? {
          SweptToTheEnd(x.base, file, snap.(status := APPROVED));
        }
      case _ =>
        assert x.base[..|x.base|] == x.base;
    }
  }

  lemma WriteKeeps(x: Section, file: seq<Booking>, clock: nat)
    requires SectionInv(x, file, clock)
    requires x.pc.Writing? && x.cursor > 0
    ensures SectionInv(AfterWrite(x), file[x.cursor - 1 := x.pc.booking], clock)
  {
    var n := x.cursor - 1;
    match x.op {
      case Reject(id) =>
        var t := x.clocks[n];
        assert forall j :: 0 <= j < n ==> !Rejectable(x.base[j], id, t) by {
          forall j | 0 <= j < n ensures !Rejectable(x.base[j], id, t) {
            assert !Rejectable(x.base[..n][j], id, x.clocks[..n][j]);
          }
        }
        assert n == RejectIndex(x.base, id, t);
        assert (file[n := x.pc.booking], x.pc.booking) == RejectIn(x.base, id, t);
      case Approve(request, snap) =>
        if x.pc.more {
          SweptOneMore(x.base, file, snap.(status := APPROVED), n);
        }
      case _ =>
    }
  }

  lemma ExtendKeeps(x: Section, file: seq<Booking>, clock: nat)
    requires SectionInv(x, file, clock)
    requires x.pc.Appending? && x.op.Create?
    ensures SectionInv(x.(local := x.local.(result := Appended(x)), pc := Finished), file + [Appended(x)], clock)
  {
    ScannedToTheEnd(x.base, x.op.booking, x.local.greatest);
  }

  /** Time passing spoils nothing. */
  lemma TickKeeps(x: Section, file: seq<Booking>, clock: nat, now: nat)
    requires SectionInv(x, file, clock) && clock <= now
    ensures SectionInv(x, file, now)
  {}

  // ---------- runs ----------

  /** A child that takes a step inside its section, changing the file only under the exclusive lock. */
  lemma ReplaceKeeps(s: State, c: nat, y: Section, file: seq<Booking>)
    requires Inv(s) && c in s.sections
    requires y.op == s.sections[c].op && y.base == s.sections[c].base
    requires file == s.file || LockFor(y.op) == Exclusive
    requires SectionInv(y, file, s.clock)
    ensures Inv(s.(file := file, sections := s.sections[c := y]))
  {}

  lemma ReleaseKeeps(s: State, c: nat)
    requires Inv(s) && Enabled(s, Release(c))
    ensures Inv(Next(s, Release(c)))
  {}

  lemma AcquireKeepsLocks(s: State, c: nat, op: Op)
    requires LocksInv(s.locks, s.sections) && Grantable(s.locks, c, LockFor(op)) && c !in s.sections
    ensures LocksInv(s.locks[c := LockFor(op)], s.sections[c := Begin(op, s.file, s.clock)])
  {}

  lemma AcquireKeeps(s: State, c: nat, op: Op)
    requires Inv(s) && Enabled(s, Acquire(c, op))
    ensures Inv(Next(s, Acquire(c, op)))
  {
    var t := Next(s, Acquire(c, op));
    BeginKeeps(op, s.file, s.clock);
    AcquireKeepsLocks(s, c, op);
    assert s.file == s.committed;
    forall d | d in t.sections ensures t.sections[d].base == t.committed && SectionInv(t.sections[d], t.file, t.clock) {
      if d != c { assert t.sections[d] == s.sections[d]; }
    }
  }

  lemma ReaderSeesCommitted(s: State, c: nat)
    requires Inv(s) && c in s.sections && LockFor(s.sections[c].op) == Shared
    ensures s.file == s.committed
  {}

  lemma TickingKeeps(s: State, now: nat)
    requires Inv(s) && s.clock <= now
    ensures Inv(s.(clock := now))
  {
    forall c | c in s.sections ensures SectionInv(s.sections[c], s.file, now) {
      TickKeeps(s.sections[c], s.file, s.clock, now);
    }
  }

  lemma ReadingKeeps(s: State, c: nat)
    requires Inv(s) && Enabled(s, Read(c))
    ensures Inv(Next(s, Read(c)))
  {
    var x := s.sections[c];
    ReadKeeps(x, s.file, s.clock);
    SteppedKeeps(s, c, AfterRead(x, s.file[x.cursor], s.clock));
  }

  lemma SteppedKeeps(s: State, c: nat, y: Section)
    requires Inv(s) && c in s.sections
    requires y.op == s.sections[c].op && y.base == s.sections[c].base
    requires SectionInv(y, s.file, s.clock)
    ensures Inv(s.(sections := s.sections[c := y]))
  {
    ReplaceKeeps(s, c, y, s.file);
    assert s.(file := s.file, sections := s.sections[c := y]) == s.(sections := s.sections[c := y]);
  }

  lemma EndingKeeps(s: State, c: nat)
    requires Inv(s) && Enabled(s, ReachEnd(c))
    ensures Inv(Next(s, ReachEnd(c)))
  {
    EndKeeps(s.sections[c], s.file, s.clock);
    ReplaceKeeps(s, c, AfterEnd(s.sections[c]), s.file);
  }

  lemma WritingKeeps(s: State, c: nat)
    requires Inv(s) && Enabled(s, Write(c))
    ensures Inv(Next(s, Write(c)))
  {
    var x := s.sections[c];
    WriteKeeps(x, s.file, s.clock);
    ReplaceKeeps(s, c, AfterWrite(x), s.file[x.cursor - 1 := x.pc.booking]);
  }

  lemma ExtendingKeeps(s: State, c: nat)
    requires Inv(s) && Enabled(s, Extend(c))
    ensures Inv(Next(s, Extend(c)))
  {
    var x := s.sections[c];
    ExtendKeeps(x, s.file, s.clock);
    ReplaceKeeps(s, c, x.(local := x.local.(result := Appended(x)), pc := Finished), s.file + [Appended(x)]);
  }

  lemma NextKeeps(s: State, l: Label)
    requires Inv(s)
    ensures Inv(Next(s, l))
  {
    if Enabled(s, l) {
      match l {
        case Tick(now) => TickingKeeps(s, now);
        case Acquire(c, op) => AcquireKeeps(s, c, op);
        case Read(c) => ReadingKeeps(s, c);
        case ReachEnd(c) => EndingKeeps(s, c);
        case Write(c) => WritingKeeps(s, c);
        case Extend(c) => ExtendingKeeps(s, c);
        case Release(c) => ReleaseKeeps(s, c);
      }
    }
  }

  /** While one child's section can write, no other child holds any lock on the file. */
  lemma WriterIsAlone(s: State, c: nat)
    requires Inv(s) && c in s.sections && LockFor(s.sections[c].op) == Exclusive
    ensures s.locks.Keys == {c} == s.sections.Keys
  {}

  lemma {:induction false} RunKeeps(s: State, ls: seq<Label>)
    requires Initial(s)
    ensures Inv(Run(s, ls))
  {
    if ls != [] {
      RunKeeps(s, ls[..|ls| - 1]);
      NextKeeps(Run(s, ls[..|ls| - 1]), ls[|ls| - 1]);
    }
  }

  /** A writer never coexists with another lock holder, and the file never changes under a reader. */
  lemma MutualExclusion(s: State, ls: seq<Label>)
    requires Initial(s)
    ensures var t := Run(s, ls);
      && (forall c, d :: c in t.locks && d in t.locks && t.locks[c] == Exclusive ==> c == d)
      && (forall c :: c in t.sections && LockFor(t.sections[c].op) == Shared ==> t.file == t.sections[c].base)
  {
    RunKeeps(s, ls);
    var t := Run(s, ls);
    forall c | c in t.sections && LockFor(t.sections[c].op) == Shared ensures t.file == t.sections[c].base {
      ReaderSeesCommitted(t, c);
    }
  }

  /** Lock refinement: the completed sections of any run, in release order, are atomic operations done one after the
      other, starting from the initial file; each started from the very file its lock point saw. */
  lemma {:induction false} SectionsAreAtomic(s: State, ls: seq<Label>)
    requires Initial(s)
    ensures Serial(s.file, History(s, ls), Run(s, ls).committed)
  {
    if ls != [] {
      var n := |ls| - 1;
      SectionsAreAtomic(s, ls[..n]);
      RunKeeps(s, ls[..n]);
      var t, l := Run(s, ls[..n]), ls[n];
      var h := History(s, ls);
      if l.Release? && Enabled(t, l) {
        ReleaseIsAtomic(t, l.child);
        assert h[..|h| - 1] == History(s, ls[..n]);
      } else {
        assert h == History(s, ls[..n]);
      }
    }
  }

  lemma ReleaseIsAtomic(s: State, c: nat)
    requires Inv(s) && Enabled(s, Release(c))
    ensures var e := Completed(s, Release(c))[0];
      AtomicEvent(e) && e.before == s.committed && e.after == Next(s, Release(c)).committed
  {
    var x := s.sections[c];
    if LockFor(x.op) == Exclusive { WriterIsAlone(s, c); } else { ReaderSeesCommitted(s, c); }
    assert x.base[..|x.base|] == x.base;
  }

  // ---------- locks are granted, and sections come to an end ----------

  /** Operations that only read. */
  predicate OnlyReads(op: Op) {
    op.Find? || op.Count? || op.Send?
  }

  /** A child gets its lock exactly if nobody else is in a section, or everybody there, itself included, only reads. */
  lemma LocksAreGrantedExactly(s: State, c: nat, op: Op)
    requires Inv(s) && c !in s.sections
    ensures c in Next(s, Acquire(c, op)).sections <==>
              s.sections == map[] || (OnlyReads(op) && forall d :: d in s.sections ==> OnlyReads(s.sections[d].op))
  {
    SharedExactly(op);
    forall d | d in s.sections ensures s.locks[d] == Shared <==> OnlyReads(s.sections[d].op) {
      SharedExactly(s.sections[d].op);
    }
    if s.sections != map[] {
      var d :| d in s.sections;
      assert d in s.locks;
    }
  }

  lemma SharedExactly(op: Op)
    ensures LockFor(op) == Shared <==> OnlyReads(op)
  {}

  function Phase(pc: Pc): nat {
    match pc
    case Checking => 3
    case Scanning => 2
    case Writing(_, more, _) => if more then 2 else 1
    case Appending => 1
    case Finished => 0
  }

  /** The section y is nearer its end than x. */
  predicate Nearer(x: Section, y: Section, size: nat) {
    || Phase(y.pc) < Phase(x.pc)
    || (Phase(y.pc) == Phase(x.pc)
        && (x.cursor < y.cursor <= size || (x.cursor == y.cursor && x.pc.Writing? && !y.pc.Writing?)))
  }

  /** The step a child takes next inside its section. */
  function StepOf(s: State, c: nat): Label
    requires c in s.sections
  {
    var x := s.sections[c];
    if x.pc.Writing? then Write(c)
    else if x.pc.Appending? then Extend(c)
    else if x.pc.Finished? then Release(c)
    else if x.cursor < |s.file| then Read(c)
    else ReachEnd(c)
  }

  /** The section after the child's next step. */
  function Stepped(x: Section, file: seq<Booking>, clock: nat): Section
    requires !x.pc.Finished? && (x.pc.Appending? ==> x.op.Create?)
  {
    if x.pc.Writing? then AfterWrite(x)
    else if x.pc.Appending? then x.(local := x.local.(result := Appended(x)), pc := Finished)
    else if x.cursor < |file| then AfterRead(x, file[x.cursor], clock)
    else AfterEnd(x)
  }

  lemma SteppedIsNearer(x: Section, file: seq<Booking>, clock: nat)
    requires SectionInv(x, file, clock) && !x.pc.Finished?
    ensures (x.pc.Writing? ==> x.cursor > 0) && (x.pc.Appending? ==> x.op.Create?)
    ensures var y := Stepped(x, file, clock); y.op == x.op && y.base == x.base && Nearer(x, y, |file|)
  {}

  lemma StepIsStepped(s: State, c: nat)
    requires Inv(s) && c in s.sections && !s.sections[c].pc.Finished?
    ensures var x, t := s.sections[c], Next(s, StepOf(s, c));
      && (x.pc.Appending? ==> x.op.Create?)
      && t.sections == s.sections[c := Stepped(x, s.file, s.clock)] && t.locks == s.locks
      && t.committed == s.committed && t.clock == s.clock && (x.pc.Appending? || |t.file| == |s.file|)
    ensures Enabled(s, StepOf(s, c)) && !StepOf(s, c).Acquire? && !StepOf(s, c).Release?
  {
    SteppedIsNearer(s.sections[c], s.file, s.clock);
  }

  lemma {:induction false} RunFirst(s: State, l: Label, rest: seq<Label>)
    ensures Run(s, [l] + rest) == Run(Next(s, l), rest)
    ensures History(s, [l] + rest) == Completed(s, l) + History(Next(s, l), rest)
  {
    var ls := [l] + rest;
    if rest == [] {
      assert ls == [l] && ls[..0] == [];
    } else {
      RunFirst(s, l, rest[..|rest| - 1]);
      assert ls[..|ls| - 1] == [l] + rest[..|rest| - 1];
    }
  }

  /** By these steps child c ends its section, and that is all that happens. */
  predicate Ends(s: State, c: nat, ls: seq<Label>)
    requires c in s.sections
  {
    var t, h := Run(s, ls), History(s, ls);
    && t.sections == s.sections - {c} && t.locks == s.locks - {c}
    && |h| == 1 && h[0].op == s.sections[c].op && h[0].before == s.sections[c].base
    && h[0].after == t.committed && AtomicEvent(h[0])
  }

  lemma ReleaseEnds(s: State, c: nat)
    requires Inv(s) && c in s.sections && s.sections[c].pc.Finished?
    ensures Ends(s, c, [Release(c)])
  {
    RunFirst(s, Release(c), []);
    ReleaseIsAtomic(s, c);
  }

  lemma EndsAfterStep(s: State, c: nat, rest: seq<Label>)
    requires Inv(s) && c in s.sections && !s.sections[c].pc.Finished?
    requires c in Next(s, StepOf(s, c)).sections && Ends(Next(s, StepOf(s, c)), c, rest)
    ensures Ends(s, c, [StepOf(s, c)] + rest)
  {
    var t := Next(s, StepOf(s, c));
    StepIsStepped(s, c);
    SteppedIsNearer(s.sections[c], s.file, s.clock);
    RunFirst(s, StepOf(s, c), rest);
    assert t.sections - {c} == s.sections - {c};
  }

  /** A child inside a section comes to its end by its own steps, whoever else is reading. */
  lemma {:induction false} SectionsEnd(s: State, c: nat) returns (ls: seq<Label>)
    requires Inv(s) && c in s.sections
    ensures Ends(s, c, ls)
    decreases Phase(s.sections[c].pc), |s.file| - s.sections[c].cursor, if s.sections[c].pc.Writing? then 1 else 0
  {
    if s.sections[c].pc.Finished? {
      ls := [Release(c)];
      ReleaseEnds(s, c);
    } else {
      var t := Next(s, StepOf(s, c));
      NextKeeps(s, StepOf(s, c));
      StepIsStepped(s, c);
      SteppedIsNearer(s.sections[c], s.file, s.clock);
      var rest := SectionsEnd(t, c);
      ls := [StepOf(s, c)] + rest;
      EndsAfterStep(s, c, rest);
    }
  }

  lemma {:induction false} RunKeepsInv(s: State, ls: seq<Label>)
    requires Inv(s)
    ensures Inv(Run(s, ls))
  {
    if ls != [] {
      RunKeepsInv(s, ls[..|ls| - 1]);
      NextKeeps(Run(s, ls[..|ls| - 1]), ls[|ls| - 1]);
    }
  }

  lemma FreeLockIsGranted(s: State, c: nat, op: Op)
    requires Inv(s) && s.locks == map[]
    ensures s.sections == map[] && s.file == s.committed
    ensures var t := Next(s, Acquire(c, op));
      t.sections == map[c := Begin(op, s.file, s.clock)] && t.locks.Keys == {c} && t.committed == s.committed && Inv(t)
  {
    assert s.sections.Keys == {};
    LocksAreGrantedExactly(s, c, op);
    NextKeeps(s, Acquire(c, op));
  }

  /** On a file nobody holds, every operation, writing or reading, can be begun and completed: it is then the one event
      of the history, begun on the file as it was, and no lock is left. */
  lemma OperationsComplete(s: State, c: nat, op: Op) returns (ls: seq<Label>)
    requires Inv(s) && s.locks == map[]
    ensures var t, h := Run(s, ls), History(s, ls);
      && |h| == 1 && h[0].op == op && h[0].before == s.file && h[0].after == t.file == t.committed
      && AtomicEvent(h[0])
      && t.locks == map[] && t.sections == map[] && Inv(t)
  {
    var t := Next(s, Acquire(c, op));
    FreeLockIsGranted(s, c, op);
    var rest := SectionsEnd(t, c);
    ls := [Acquire(c, op)] + rest;
    RunFirst(s, Acquire(c, op), rest);
    RunKeepsInv(t, rest);
    assert Run(t, rest).sections.Keys == {};
  }

  /** Any number of readers: beside readers another reader can always enter, so two children can both be reading. */
  lemma ReadersShare(s: State, c: nat, d: nat, op1: Op, op2: Op)
    requires Inv(s) && s.locks == map[] && c != d && OnlyReads(op1) && OnlyReads(op2)
    ensures var t := Next(Next(s, Acquire(c, op1)), Acquire(d, op2));
      && c in t.sections && t.sections[c].op == op1 && d in t.sections && t.sections[d].op == op2
  {
    assert s.sections.Keys == {};
    var t := Next(s, Acquire(c, op1));
    LocksAreGrantedExactly(s, c, op1);
    NextKeeps(s, Acquire(c, op1));
    LocksAreGrantedExactly(t, d, op2);
  }
}
