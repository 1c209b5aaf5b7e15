/** The users file, with `login` and `signup`. */
module Accounts {
  import opened Records
  import opened Text
  import opened Wire

  datatype UserSave = UserSave(username: string, password: string, userType: Byte)

  /** What a failing login or signup returns. */
  const NOBODY := User("", GUEST)

  const NAME_MIN := 5

  function IndexOfName(users: seq<UserSave>, name: string): (i: nat)
    ensures i <= |users|
    ensures forall j :: 0 <= j < i ==> users[j].username != name
    ensures i < |users| ==> users[i].username == name
  {
    if users == [] || users[0].username == name then 0
    else
      var i := IndexOfName(users[1..], name);
      assert forall j :: 0 < j < i + 1 ==> users[j] == users[1..][j - 1];
      i + 1
  }

  function LoginIn(users: seq<UserSave>, c: Credentials): User {
    var i := IndexOfName(users, c.username);
    if i < |users| && users[i].password == c.password then User(users[i].username, users[i].userType) else NOBODY
  }

  function SignupIn(users: seq<UserSave>, c: Credentials, userType: Byte): (seq<UserSave>, User) {
    if IndexOfName(users, c.username) < |users| then (users, NOBODY)
    else (users + [UserSave(c.username, c.password, userType)], User(c.username, userType))
  }

  function SanitizeCredentials(c: Credentials): Credentials {
    Credentials(Sanitize(c.username), Sanitize(c.password))
  }

  predicate LengthsOk(c: Credentials) {
    && NAME_MIN <= |c.username| < NAME_SIZE
    && NAME_MIN <= |c.password| < NAME_SIZE
  }

  /** `handle_login`, on what the client sent. */
  function ServeLogin(users: seq<UserSave>, sent: Credentials): User {
    LoginIn(users, SanitizeCredentials(sent))
  }

  /** `handle_signup`, on what the client sent. */
  function ServeSignup(users: seq<UserSave>, sent: Credentials): (seq<UserSave>, User) {
    var c := SanitizeCredentials(sent);
    if LengthsOk(c) then SignupIn(users, c, USER) else (users, NOBODY)
  }

  predicate UniqueNames(users: seq<UserSave>) {
    forall i, j :: 0 <= i < j < |users| ==> users[i].username != users[j].username
  }

  /** With unique names, logging in succeeds exactly with a stored name and its password, and yields the stored type. */
  lemma LoginSucceedsExactly(users: seq<UserSave>, c: Credentials)
    requires UniqueNames(users) && c.username != ""
    ensures LoginIn(users, c).username != "" <==>
              exists i :: 0 <= i < |users| && users[i].username == c.username && users[i].password == c.password
    ensures forall i :: 0 <= i < |users| && users[i].username == c.username && users[i].password == c.password ==>
              LoginIn(users, c) == User(c.username, users[i].userType)
  {
    var k := IndexOfName(users, c.username);
    assert forall i :: 0 <= i < |users| && users[i].username == c.username ==> i == k;
  }

  class UserFile {
    var records: seq<UserSave>

    constructor (contents: seq<UserSave>)
      ensures records == contents
    {
      records := contents;
    }

    method Login(c: Credentials) returns (user: User)
      ensures user == LoginIn(records, c)
    {
      for i := 0 to |records|
        invariant forall j :: 0 <= j < i ==> records[j].username != c.username
      {
        if records[i].username == c.username {
          assert i == IndexOfName(records, c.username);
          if records[i].password != c.password {
            return NOBODY;
          }
          return User(records[i].username, records[i].userType);
        }
      }
      return NOBODY;
    }

    method Signup(c: Credentials, userType: Byte) returns (user: User)
      modifies this
      ensures (records, user) == SignupIn(old(records), c, userType)
    {
      for i := 0 to |records|
        invariant records == old(records)
        invariant forall j :: 0 <= j < i ==> records[j].username != c.username
      {
        if records[i].username == c.username {
          return NOBODY;
        }
      }
      records := records + [UserSave(c.username, c.password, userType)];
      user := User(c.username, userType);
    }
  }
}
