/** Locked sections on the users and the rooms files, one record at a time.  Each is a single scan that stops at the
    first record of some kind, and may append one record if it meets none.  A step that is not enabled
    changes nothing. */
module ScanSections {
  import opened Records
  import opened Text
  import opened Wire
  import opened Rooms
  import opened Accounts
  import L = LockedSections

  /** The requests to one file: where the scan stops, what is appended having read these records, and who may append. */
  datatype Kind<!Q, !T> = Kind(stops: (Q, T) -> bool, make: (Q, seq<T>) -> T, writes: Q -> bool)

  // ---------- the atomic operation ----------

  function FirstStop<Q, T>(k: Kind<Q, T>, q: Q, rs: seq<T>): (i: nat)
    ensures i <= |rs|
    ensures forall j :: 0 <= j < i ==> !k.stops(q, rs[j])
    ensures i < |rs| ==> k.stops(q, rs[i])
  {
    if rs == [] || k.stops(q, rs[0]) then 0
    else
      var i := FirstStop(k, q, rs[1..]);
      assert forall j :: 0 < j < i + 1 ==> rs[j] == rs[1..][j - 1];
      i + 1
  }

  /** The file afterwards, and the record found, if any. */
  function ScanIn<Q, T>(k: Kind<Q, T>, q: Q, rs: seq<T>): (seq<T>, seq<T>) {
    var i := FirstStop(k, q, rs);
    if i < |rs| then (rs, [rs[i]]) else (if k.writes(q) then rs + [k.make(q, rs)] else rs, [])
  }

  // ---------- the machine ----------

  datatype Pc = Scanning | Appending | Finished

  /** `base` is history: the file when the lock was taken. */
  datatype Section<Q, T> = Section(q: Q, base: seq<T>, cursor: nat, found: seq<T>, pc: Pc)

  /** `committed` is history: the file as the last released section left it. */
  datatype State<Q, T> = State(file: seq<T>, committed: seq<T>,
                               locks: map<nat, L.Lock>, sections: map<nat, Section<Q, T>>)

  datatype Label<Q> = Acquire(child: nat, q: Q) | Read(child: nat) | ReachEnd(child: nat) | Extend(child: nat)
    | Release(child: nat)

  function LockFor<Q, T>(k: Kind<Q, T>, q: Q): L.Lock {
    if k.writes(q) then L.Exclusive else L.Shared
  }

  predicate Enabled<Q, T>(k: Kind<Q, T>, s: State<Q, T>, l: Label<Q>) {
    match l
    case Acquire(c, q) => L.Grantable(s.locks, c, LockFor(k, q)) && c !in s.sections
    case Read(c) => c in s.sections && s.sections[c].pc.Scanning? && s.sections[c].cursor < |s.file|
    case ReachEnd(c) => c in s.sections && s.sections[c].pc.Scanning? && s.sections[c].cursor >= |s.file|
    case Extend(c) => c in s.sections && s.sections[c].pc.Appending? && s.sections[c].cursor <= |s.file|
    case Release(c) => c in s.sections && s.sections[c].pc.Finished?
  }

  function AfterRead<Q, T>(k: Kind<Q, T>, x: Section<Q, T>, r: T): Section<Q, T> {
    var y := x.(cursor := x.cursor + 1);
    if k.stops(x.q, r) then y.(found := [r], pc := Finished) else y
  }

  function Next<Q, T>(k: Kind<Q, T>, s: State<Q, T>, l: Label<Q>): State<Q, T> {
    if !Enabled(k, s, l) then s else
    match l
    case Acquire(c, q) =>
      s.(locks := s.locks[c := LockFor(k, q)], sections := s.sections[c := Section(q, s.file, 0, [], Scanning)])
    case Read(c) =>
      var x := s.sections[c];
      s.(sections := s.sections[c := AfterRead(k, x, s.file[x.cursor])])
    case ReachEnd(c) =>
      var x := s.sections[c];
      s.(sections := s.sections[c := x.(pc := if k.writes(x.q) then Appending else Finished)])
    case Extend(c) =>
      var x := s.sections[c];
      s.(file := s.file + [k.make(x.q, s.file[..x.cursor])], sections := s.sections[c := x.(pc := Finished)])
    case Release(c) => s.(locks := s.locks - {c}, sections := s.sections - {c}, committed := s.file)
  }

  function Run<Q, T>(k: Kind<Q, T>, s: State<Q, T>, ls: seq<Label<Q>>): State<Q, T> {
    if ls == [] then s else Next(k, Run(k, s, ls[..|ls| - 1]), ls[|ls| - 1])
  }

  predicate Initial<Q, T(==)>(s: State<Q, T>) {
    s.committed == s.file && s.locks == map[] && |s.sections| == 0
  }

  // ---------- the invariant ----------

  ghost predicate SectionInv<Q, T>(k: Kind<Q, T>, x: Section<Q, T>, file: seq<T>) {
    if x.pc.Finished? then (file, x.found) == ScanIn(k, x.q, x.base)
    else
      && file == x.base && x.found == [] && x.cursor <= |file|
      && (forall j :: 0 <= j < x.cursor ==> !k.stops(x.q, file[j]))
      && (x.pc.Appending? ==> x.cursor == |file| && k.writes(x.q))
  }

  ghost predicate LocksInv<Q, T>(k: Kind<Q, T>, s: State<Q, T>) {
    && s.locks.Keys == s.sections.Keys
    && (forall c :: c in s.sections ==> s.locks[c] == LockFor(k, s.sections[c].q))
    && (forall c, d :: c in s.locks && d in s.locks && c != d ==> s.locks[c] == L.Shared)
  }

  ghost predicate Inv<Q, T>(k: Kind<Q, T>, s: State<Q, T>) {
    && LocksInv(k, s)
    && (forall c :: c in s.sections ==> s.sections[c].base == s.committed && SectionInv(k, s.sections[c], s.file))
    && ((forall c :: c in s.locks ==> s.locks[c] == L.Shared) ==> s.file == s.committed)
  }

  /** A child that takes a step inside its section, changing the file only under the exclusive lock. */
  lemma ReplaceKeeps<Q, T>(k: Kind<Q, T>, s: State<Q, T>, c: nat, y: Section<Q, T>, file: seq<T>)
    requires Inv(k, s) && c in s.sections && y.q == s.sections[c].q && y.base == s.sections[c].base
    requires file == s.file || k.writes(y.q)
    requires SectionInv(k, y, file)
    ensures Inv(k, s.(file := file, sections := s.sections[c := y]))
  {}

  lemma NotYetStopped<Q, T>(k: Kind<Q, T>, q: Q, rs: seq<T>, n: nat)
    requires n <= |rs| && forall j :: 0 <= j < n ==> !k.stops(q, rs[j])
    ensures n <= FirstStop(k, q, rs)
    ensures n < |rs| && k.stops(q, rs[n]) ==> FirstStop(k, q, rs) == n
  {}

  lemma StepKeepsInside<Q, T>(k: Kind<Q, T>, s: State<Q, T>, l: Label<Q>)
    requires Inv(k, s) && Enabled(k, s, l) && (l.Read? || l.ReachEnd? || l.Extend?)
    ensures Inv(k, Next(k, s, l))
  {
    var x, t := s.sections[l.child], Next(k, s, l);
    assert SectionInv(k, x, s.file);
    NotYetStopped(k, x.q, x.base, x.cursor);
    if l.Extend? { assert s.file[..x.cursor] == x.base; }
    ReplaceKeeps(k, s, l.child, t.sections[l.child], t.file);
    assert t == s.(file := t.file, sections := s.sections[l.child := t.sections[l.child]]);
  }

  lemma AcquireKeeps<Q, T>(k: Kind<Q, T>, s: State<Q, T>, c: nat, q: Q)
    requires Inv(k, s) && Enabled(k, s, Acquire(c, q))
    ensures Inv(k, Next(k, s, Acquire(c, q)))
  {}

  lemma ReaderSeesCommitted<Q, T>(k: Kind<Q, T>, s: State<Q, T>, c: nat)
    requires Inv(k, s) && c in s.sections && !k.writes(s.sections[c].q)
    ensures s.file == s.committed
  {}

  lemma ReleaseKeeps<Q, T>(k: Kind<Q, T>, s: State<Q, T>, c: nat)
    requires Inv(k, s) && Enabled(k, s, Release(c))
    ensures Inv(k, Next(k, s, Release(c)))
  {
    if !k.writes(s.sections[c].q) { ReaderSeesCommitted(k, s, c); }
  }

  lemma NextKeeps<Q, T>(k: Kind<Q, T>, s: State<Q, T>, l: Label<Q>)
    requires Inv(k, s)
    ensures Inv(k, Next(k, s, l))
  {
    if Enabled(k, s, l) {
      match l {
        case Acquire(c, q) => AcquireKeeps(k, s, c, q);
        case Release(c) => ReleaseKeeps(k, s, c);
        case _ => StepKeepsInside(k, s, l);
      }
    }
  }

  lemma {:induction false} RunKeeps<Q, T>(k: Kind<Q, T>, s: State<Q, T>, ls: seq<Label<Q>>)
    requires Initial(s)
    ensures Inv(k, Run(k, s, ls))
  {
    if ls != [] {
      RunKeeps(k, s, ls[..|ls| - 1]);
      NextKeeps(k, Run(k, s, ls[..|ls| - 1]), ls[|ls| - 1]);
    }
  }

  // ---------- every run is a sequence of atomic scans ----------

  /** The requests a run completes, in the order of release. */
  function Completed<Q, T>(k: Kind<Q, T>, s: State<Q, T>, ls: seq<Label<Q>>): seq<Q> {
    if ls == [] then []
    else
      var t, l := Run(k, s, ls[..|ls| - 1]), ls[|ls| - 1];
      Completed(k, s, ls[..|ls| - 1]) + if l.Release? && Enabled(k, t, l) then [t.sections[l.child].q] else []
  }

  /** And what they found. */
  function Found<Q, T>(k: Kind<Q, T>, s: State<Q, T>, ls: seq<Label<Q>>): seq<seq<T>> {
    if ls == [] then []
    else
      var t, l := Run(k, s, ls[..|ls| - 1]), ls[|ls| - 1];
      Found(k, s, ls[..|ls| - 1]) + if l.Release? && Enabled(k, t, l) then [t.sections[l.child].found] else []
  }

  /** The requests done one after the other without interruption. */
  function AllIn<Q, T>(k: Kind<Q, T>, qs: seq<Q>, rs: seq<T>): (seq<T>, seq<seq<T>>) {
    if qs == [] then (rs, [])
    else
      var (before, founds) := AllIn(k, qs[..|qs| - 1], rs);
      var (after, found) := ScanIn(k, qs[|qs| - 1], before);
      (after, founds + [found])
  }

  /** Lock refinement: the sections a run completes are, in release order, atomic scans done one after the other. */
  lemma {:induction false} ScansAreAtomic<Q, T>(k: Kind<Q, T>, s: State<Q, T>, ls: seq<Label<Q>>)
    requires Initial(s)
    ensures (Run(k, s, ls).committed, Found(k, s, ls)) == AllIn(k, Completed(k, s, ls), s.file)
  {
    if ls != [] {
      var front, l := ls[..|ls| - 1], ls[|ls| - 1];
      var t := Run(k, s, front);
      ScansAreAtomic(k, s, front);
      RunKeeps(k, s, front);
      if l.Release? && Enabled(k, t, l) {
        var x := t.sections[l.child];
        assert SectionInv(k, x, t.file) && x.base == t.committed;
        var qs := Completed(k, s, front);
        assert Completed(k, s, ls) == qs + [x.q];
        assert (qs + [x.q])[..|qs|] == qs;
      } else {
        assert Completed(k, s, ls) == Completed(k, s, front) && Found(k, s, ls) == Found(k, s, front);
      }
    }
  }

  // ---------- locks are granted, and scans come to an end ----------

  /** A child gets its lock exactly if nobody else is in a section, or everybody there, itself included, only reads. */
  lemma LocksAreGrantedExactly<Q, T>(k: Kind<Q, T>, s: State<Q, T>, c: nat, q: Q)
    requires Inv(k, s) && c !in s.sections
    ensures c in Next(k, s, Acquire(c, q)).sections <==>
              s.sections.Keys == {} || (!k.writes(q) && forall d :: d in s.sections ==> !k.writes(s.sections[d].q))
  {
    if d :| d in s.sections && k.writes(s.sections[d].q) {
      assert s.locks[d] == L.Exclusive;
    }
  }

  /** The step a child takes next inside its section. */
  function StepOf<Q, T>(s: State<Q, T>, c: nat): Label<Q>
    requires c in s.sections
  {
    var x := s.sections[c];
    if x.pc.Appending? then Extend(c)
    else if x.pc.Finished? then Release(c)
    else if x.cursor < |s.file| then Read(c)
    else ReachEnd(c)
  }

  lemma {:induction false} RunFirst<Q, T>(k: Kind<Q, T>, s: State<Q, T>, l: Label<Q>, rest: seq<Label<Q>>)
    ensures Run(k, s, [l] + rest) == Run(k, Next(k, s, l), rest)
  {
    var ls := [l] + rest;
    if rest == [] {
      assert ls == [l] && ls[..0] == [];
    } else {
      RunFirst(k, s, l, rest[..|rest| - 1]);
      assert ls[..|ls| - 1] == [l] + rest[..|rest| - 1];
    }
  }

  /** A step that is no release adds nothing to what the run completes. */
  lemma {:induction false} CompletedFirst<Q, T>(k: Kind<Q, T>, s: State<Q, T>, l: Label<Q>, rest: seq<Label<Q>>)
    requires !l.Release?
    ensures Completed(k, s, [l] + rest) == Completed(k, Next(k, s, l), rest)
    ensures Found(k, s, [l] + rest) == Found(k, Next(k, s, l), rest)
  {
    var ls := [l] + rest;
    if rest == [] {
      assert ls == [l] && ls[..0] == [];
    } else {
      var front := rest[..|rest| - 1];
      CompletedFirst(k, s, l, front);
      RunFirst(k, s, l, front);
      assert ls[..|ls| - 1] == [l] + front;
    }
  }

  function Distance<Q, T>(x: Section<Q, T>, size: nat): nat {
    match x.pc
    case Scanning => if x.cursor <= size then size - x.cursor + 2 else 2
    case Appending => 1
    case Finished => 0
  }

  lemma StepComesNearer<Q, T>(k: Kind<Q, T>, s: State<Q, T>, c: nat)
    requires Inv(k, s) && c in s.sections && !s.sections[c].pc.Finished?
    ensures var x, t := s.sections[c], Next(k, s, StepOf(s, c));
      && c in t.sections && t.sections == s.sections[c := t.sections[c]] && t.locks == s.locks
      && t.sections[c].q == x.q && t.sections[c].base == x.base && t.committed == s.committed
      && Distance(t.sections[c], |t.file|) < Distance(x, |s.file|)
  {
    assert SectionInv(k, s.sections[c], s.file);
  }

  /** By these steps child c ends its section, leaving the file and having found what an atomic scan would. */
  ghost predicate Ends<Q, T>(k: Kind<Q, T>, s: State<Q, T>, c: nat, ls: seq<Label<Q>>)
    requires c in s.sections
  {
    var t, (file, found) := Run(k, s, ls), ScanIn(k, s.sections[c].q, s.committed);
    && t.sections == s.sections - {c} && t.locks == s.locks - {c} && t.committed == file
    && Completed(k, s, ls) == [s.sections[c].q] && Found(k, s, ls) == [found]
  }

  lemma ReleaseEnds<Q, T>(k: Kind<Q, T>, s: State<Q, T>, c: nat)
    requires Inv(k, s) && c in s.sections && s.sections[c].pc.Finished?
    ensures Ends(k, s, c, [Release(c)])
  {
    RunFirst(k, s, Release(c), []);
    var ls: seq<Label<Q>> := [Release(c)];
    assert ls[..0] == [];
    assert SectionInv(k, s.sections[c], s.file);
  }

  /** A child inside a section comes to its end by its own steps, whoever else is reading. */
  lemma {:induction false} SectionsEnd<Q, T>(k: Kind<Q, T>, s: State<Q, T>, c: nat) returns (ls: seq<Label<Q>>)
    requires Inv(k, s) && c in s.sections
    ensures Ends(k, s, c, ls)
    decreases Distance(s.sections[c], |s.file|)
  {
    if s.sections[c].pc.Finished? {
      ls := [Release(c)];
      ReleaseEnds(k, s, c);
    } else {
      var t := Next(k, s, StepOf(s, c));
      StepComesNearer(k, s, c);
      NextKeeps(k, s, StepOf(s, c));
      var rest := SectionsEnd(k, t, c);
      ls := [StepOf(s, c)] + rest;
      RunFirst(k, s, StepOf(s, c), rest);
      CompletedFirst(k, s, StepOf(s, c), rest);
      assert t.sections - {c} == s.sections - {c};
    }
  }

  /** On a file nobody holds, every request, writing or reading, can be begun and completed: it is the one request
      completed then, with the file and the result of an atomic scan, and no lock is left. */
  lemma RequestsComplete<Q, T>(k: Kind<Q, T>, s: State<Q, T>, c: nat, q: Q) returns (ls: seq<Label<Q>>)
    requires Inv(k, s) && s.locks == map[]
    ensures var t, (file, found) := Run(k, s, ls), ScanIn(k, q, s.file);
      && t.committed == file && Completed(k, s, ls) == [q] && Found(k, s, ls) == [found]
      && t.locks == map[] && t.sections.Keys == {}
  {
    assert s.sections.Keys == {};
    var l := Acquire(c, q);
    var t := Next(k, s, l);
    LocksAreGrantedExactly(k, s, c, q);
    NextKeeps(k, s, l);
    assert t.sections.Keys == {c};
    var rest := SectionsEnd(k, t, c);
    ls := [l] + rest;
    RunFirst(k, s, l, rest);
    CompletedFirst(k, s, l, rest);
    assert Run(k, t, rest).locks.Keys == {};
  }

  /** What every atomic scan keeps, every run keeps. */
  lemma {:induction false} ScansKeep<Q, T>(k: Kind<Q, T>, qs: seq<Q>, rs: seq<T>, p: seq<T> -> bool)
    requires p(rs) && forall q, file :: p(file) ==> p(ScanIn(k, q, file).0)
    ensures p(AllIn(k, qs, rs).0)
  {
    if qs != [] {
      var front, q := qs[..|qs| - 1], qs[|qs| - 1];
      ScansKeep(k, front, rs, p);
      var before := AllIn(k, front, rs).0;
      assert AllIn(k, qs, rs).0 == ScanIn(k, q, before).0;
    }
  }

  // ---------- the users file ----------

  datatype UserRequest = Login(c: Credentials) | Signup(c: Credentials, userType: Byte)

  const USERS: Kind<UserRequest, UserSave> := Kind(
    (q: UserRequest, u: UserSave) => u.username == q.c.username,
    (q: UserRequest, seen: seq<UserSave>) =>
      UserSave(q.c.username, q.c.password, if q.Signup? then q.userType else GUEST),
    (q: UserRequest) => q.Signup?)

  lemma {:induction false} FirstUser(q: UserRequest, users: seq<UserSave>)
    ensures FirstStop(USERS, q, users) == IndexOfName(users, q.c.username)
  {
    if users != [] { FirstUser(q, users[1..]); }
  }

  /** The replies of `login` and `signup` to what their scans found. */
  function UserReply(q: UserRequest, found: seq<UserSave>): User {
    match q
    case Login(c) =>
      if found != [] && found[0].password == c.password then User(found[0].username, found[0].userType) else NOBODY
    case Signup(c, userType) => if found == [] then User(c.username, userType) else NOBODY
  }

  /** An atomic scan of the users file is the login or the signup of `Accounts`. */
  lemma UserScans(q: UserRequest, users: seq<UserSave>)
    ensures var (after, found) := ScanIn(USERS, q, users);
      if q.Signup? then (after, UserReply(q, found)) == SignupIn(users, q.c, q.userType)
      else after == users && UserReply(q, found) == LoginIn(users, q.c)
  {
    FirstUser(q, users);
  }

  /** Usernames stay unique under concurrent signups, children reading and writing one record at a time. */
  lemma UsernamesStayUnique(s: State<UserRequest, UserSave>, ls: seq<Label<UserRequest>>)
    requires Initial(s) && UniqueNames(s.file)
    ensures UniqueNames(Run(USERS, s, ls).committed)
  {
    ScansAreAtomic(USERS, s, ls);
    forall q, file | UniqueNames(file) ensures UniqueNames(ScanIn(USERS, q, file).0) {
      UserScans(q, file);
    }
    ScansKeep(USERS, Completed(USERS, s, ls), s.file, UniqueNames);
  }

  // ---------- the rooms file ----------

  datatype RoomRequest = IsThere(id: U32) | CreateRoom(rawName: string)

  const ROOMS: Kind<RoomRequest, Room> := Kind(
    (q: RoomRequest, r: Room) => if q.IsThere? then r.id == q.id else r.name == Sanitize(q.rawName),
    (q: RoomRequest, seen: seq<Room>) =>
      Room((GreatestRoom(seen) + 1) % 0x1_0000_0000, if q.CreateRoom? then Sanitize(q.rawName) else ""),
    (q: RoomRequest) => q.CreateRoom?)

  /** An atomic scan of the rooms file is the search or the creation of `Rooms`. */
  lemma RoomScans(q: RoomRequest, rooms: seq<Room>)
    ensures var (after, found) := ScanIn(ROOMS, q, rooms);
      if q.IsThere? then after == rooms && (found != [] <==> RoomExists(rooms, q.id))
      else after == CreateRoomIn(rooms, q.rawName).0 && (found != [] <==> NameTaken(rooms, Sanitize(q.rawName)))
  {
    var i := FirstStop(ROOMS, q, rooms);
    if i < |rooms| { assert ROOMS.stops(q, rooms[i]); }
  }

  predicate UniqueRoomNames(rooms: seq<Room>) {
    forall i, j :: 0 <= i < j < |rooms| ==> rooms[i].name != rooms[j].name
  }

  /** So do the names of rooms under concurrent creations. */
  lemma RoomNamesStayUnique(s: State<RoomRequest, Room>, ls: seq<Label<RoomRequest>>)
    requires Initial(s) && UniqueRoomNames(s.file)
    ensures UniqueRoomNames(Run(ROOMS, s, ls).committed)
  {
    ScansAreAtomic(ROOMS, s, ls);
    forall q, file | UniqueRoomNames(file) ensures UniqueRoomNames(ScanIn(ROOMS, q, file).0) {
      RoomScans(q, file);
    }
    ScansKeep(ROOMS, Completed(ROOMS, s, ls), s.file, UniqueRoomNames);
  }
}
