/** The sessions of any number of children over the one users file.  Logins and signups are atomic, one locked section
    each (`ScanSections`); a label that is not enabled changes nothing. */
module Sessions {
  import opened Records
  import opened Text
  import opened Wire
  import opened Roles
  import opened Accounts

  datatype State = State(users: seq<UserSave>, sessions: map<nat, User>)

  datatype Label =
    | Connect(child: nat)
    | Disconnect(child: nat)
    | Login(child: nat, typed: Credentials)
    | Signup(child: nat, typed: Credentials)
    | Logout(child: nat)
    | Request(child: nat, opcode: int)

  function OpcodeOf(l: Label): int
    requires !l.Connect? && !l.Disconnect?
  {
    match l
    case Login(_, _) => OPCODE_LOGIN
    case Signup(_, _) => OPCODE_SIGNUP
    case Logout(_) => OPCODE_LOGOUT
    case Request(_, opcode) => opcode
  }

  /** The dispatch loop calls a handler only for an opcode in the table of the session's type. */
  predicate Dispatched(s: State, l: Label) {
    match l
    case Connect(c) => c !in s.sessions
    case Disconnect(c) => c in s.sessions
    case _ => l.child in s.sessions && Allowed(OpcodeOf(l), s.sessions[l.child].userType)
  }

  /** What reaches the server of what the user typed: the client has sanitised it once already. */
  function Sent(typed: Credentials): Credentials {
    SanitizeCredentials(typed)
  }

  function Next(s: State, l: Label): State {
    if !Dispatched(s, l) then s else
    match l
    case Connect(c) => s.(sessions := s.sessions[c := GUEST_USER])
    case Disconnect(c) => s.(sessions := s.sessions - {c})
    case Login(c, typed) =>
      var user := ServeLogin(s.users, Sent(typed));
      if user.username != "" then s.(sessions := s.sessions[c := user]) else s
    case Signup(c, typed) =>
      var (users, user) := ServeSignup(s.users, Sent(typed));
      if user.username != "" then State(users, s.sessions[c := user]) else s.(users := users)
    case Logout(c) => s.(sessions := s.sessions[c := GUEST_USER])
    case Request(_, _) => s
  }

  function Run(s: State, ls: seq<Label>): State {
    if ls == [] then s else Next(Run(s, ls[..|ls| - 1]), ls[|ls| - 1])
  }

  predicate Recorded(users: seq<UserSave>, user: User) {
    exists i :: 0 <= i < |users| && users[i].username == user.username && users[i].userType == user.userType
  }

  predicate Inv(s: State) {
    && UniqueNames(s.users)
    && forall c :: c in s.sessions && s.sessions[c].userType != GUEST ==> Recorded(s.users, s.sessions[c])
  }

  predicate Initial(s: State) {
    UniqueNames(s.users) && s.sessions == map[]
  }

  predicate Appended(earlier: seq<UserSave>, later: seq<UserSave>) {
    && |earlier| <= |later| && later[..|earlier|] == earlier
    && forall i :: |earlier| <= i < |later| ==> later[i].userType == USER
  }

  lemma RecordStays(earlier: seq<UserSave>, later: seq<UserSave>, user: User)
    requires Appended(earlier, later) && Recorded(earlier, user)
    ensures Recorded(later, user)
  {}

  lemma SignupAppends(users: seq<UserSave>, sent: Credentials)
    requires UniqueNames(users)
    ensures var (after, user) := ServeSignup(users, sent);
      UniqueNames(after) && Appended(users, after) && (user.username != "" ==> Recorded(after, user))
  {
    var (after, user) := ServeSignup(users, sent);
    if user.username != "" {
      assert after[|users|].username == user.username;
      assert after[..|users|] == users;
    }
  }

  lemma StepKeeps(s: State, l: Label)
    requires Inv(s)
    ensures Inv(Next(s, l)) && Appended(s.users, Next(s, l).users)
  {
    var t := Next(s, l);
    if l.Signup? { SignupAppends(s.users, Sent(l.typed)); }
    forall c | c in t.sessions && t.sessions[c].userType != GUEST ensures Recorded(t.users, t.sessions[c]) {
      if c in s.sessions && t.sessions[c] == s.sessions[c] { RecordStays(s.users, t.users, s.sessions[c]); }
    }
  }

  lemma {:induction false} RunKeeps(s: State, ls: seq<Label>)
    requires Inv(s)
    ensures Inv(Run(s, ls)) && Appended(s.users, Run(s, ls).users)
  {
    if ls != [] {
      var n := |ls| - 1;
      RunKeeps(s, ls[..n]);
      StepKeeps(Run(s, ls[..n]), ls[n]);
    }
  }

  /** Usernames stay unique under concurrent signups; the file only grows, by ordinary users; and every session that is
      not a guest's holds a name and a type stored in the file. */
  lemma SessionsAreBacked(s: State, ls: seq<Label>)
    requires Initial(s)
    ensures UniqueNames(Run(s, ls).users) && Appended(s.users, Run(s, ls).users)
    ensures forall c :: c in Run(s, ls).sessions && Run(s, ls).sessions[c].userType != GUEST ==>
              Recorded(Run(s, ls).users, Run(s, ls).sessions[c])
  {
    RunKeeps(s, ls);
  }

  /** Signing up makes no administrators: each one with a session was in the users file from the start. */
  lemma AdministratorsAreOld(s: State, ls: seq<Label>, c: nat)
    requires Initial(s)
    requires c in Run(s, ls).sessions && Run(s, ls).sessions[c].userType == SUPERUSER
    ensures Recorded(s.users, Run(s, ls).sessions[c])
  {
    RunKeeps(s, ls);
    var t := Run(s, ls);
    var user := t.sessions[c];
    var i :| 0 <= i < |t.users| && t.users[i].username == user.username && t.users[i].userType == user.userType;
    assert i < |s.users| && s.users[i] == t.users[..|s.users|][i];
  }

  /** Anybody new can connect, as a guest, and leave again. */
  lemma AnyoneCanConnect(s: State, c: nat)
    requires c !in s.sessions
    ensures Next(s, Connect(c)) == State(s.users, s.sessions[c := User("guest", 0)])
    ensures Next(Next(s, Connect(c)), Disconnect(c)) == s
  {
    assert s.sessions[c := User("guest", 0)] - {c} == s.sessions;
  }

  lemma TwiceIsOnce(typed: Credentials)
    ensures SanitizeCredentials(Sent(typed)) == Sent(typed)
  {
    SanitizeIsIdempotent(typed.username);
    SanitizeIsIdempotent(typed.password);
  }

  lemma FoundByName(users: seq<UserSave>, i: nat)
    requires UniqueNames(users) && i < |users|
    ensures IndexOfName(users, users[i].username) == i
  {}

  /** Signup and login round trip: after a successful signup, typing the same credentials logs in as the same user in
      every later state, whatever the other children have done since. */
  lemma SignupThenLogin(s: State, c: nat, typed: Credentials, ls: seq<Label>)
    requires Inv(s) && Dispatched(s, Signup(c, typed))
    requires ServeSignup(s.users, Sent(typed)).1.username != ""
    ensures var t := Next(s, Signup(c, typed));
      && t.sessions[c] == User(Sanitize(typed.username), USER)
      && ServeLogin(Run(t, ls).users, Sent(typed)) == t.sessions[c]
  {
    var t := Next(s, Signup(c, typed));
    var u := Run(t, ls).users;
    TwiceIsOnce(typed);
    StepKeeps(s, Signup(c, typed));
    RunKeeps(t, ls);
    var n := |s.users|;
    assert u[n] == u[..|t.users|][n] == t.users[n];
    FoundByName(u, n);
  }

  /** A signup fails exactly when a length is out of bounds or the sanitised name is taken. */
  lemma SignupSucceedsExactly(users: seq<UserSave>, typed: Credentials)
    ensures ServeSignup(users, Sent(typed)).1.username != ""
       <==> LengthsOk(Sent(typed)) && forall i :: 0 <= i < |users| ==> users[i].username != Sent(typed).username
  {
    TwiceIsOnce(typed);
  }
}
