/** `authenticate_user`: one read of the user file, a lookup and a password comparison. */
module LoginHandler {
  import opened Records
  import opened Storage

  const AUTH_OK := "Authentication successful"
  const NO_USER_FILE := "User data file does not exist"
  const BAD_USER_FILE := "Invalid user data format"
  const BAD_CREDENTIALS := "Invalid username or password"

  /** The user exists and the record's password is exactly the one given. */
  predicate CredentialsMatch(users: map<string, UserRecord>, username: string, password: string) {
    username in users && PASSWORD in users[username] && users[username][PASSWORD] == Str(password)
  }

  /** Returns (authenticated, message). An empty record is treated as no user at all. */
  function Authenticate(file: UserFile, username: string, password: string): (r: (bool, string))
    ensures r.0 <==> file.Decoded? && CredentialsMatch(file.users, username, password)
    ensures r.0 ==> r.1 == AUTH_OK
    ensures file.Missing? ==> r == (false, NO_USER_FILE)
    ensures file.Undecodable? ==> r == (false, BAD_USER_FILE)
    ensures file.Decoded? && !r.0 ==> r.1 == BAD_CREDENTIALS
  {
    match file
    case Missing => (false, NO_USER_FILE)
    case Undecodable => (false, BAD_USER_FILE)
    case Decoded(users) =>
      var user := if username in users then users[username] else map[];
      if user != map[] then
        if PASSWORD in user && user[PASSWORD] == Str(password) then (true, AUTH_OK)
        else (false, BAD_CREDENTIALS)
      else (false, BAD_CREDENTIALS)
  }

  /** A failed login tells the caller nothing about the store: the answer is the one an
      unknown user gets from an empty store, whether the user is unknown or the password wrong. */
  lemma FailureRevealsNothing(users: map<string, UserRecord>, username: string, password: string)
    requires !CredentialsMatch(users, username, password)
    ensures Authenticate(Decoded(users), username, password) == Authenticate(Decoded(map[]), username, password)
  {
  }

  /** At most one password opens an account. */
  lemma OnePasswordPerUser(users: map<string, UserRecord>, username: string, p1: string, p2: string)
    requires Authenticate(Decoded(users), username, p1).0
    requires Authenticate(Decoded(users), username, p2).0
    ensures p1 == p2
  {
  }
}
