/** `register_user`: a stand-alone registration over its own user file, whose records hold
    only a password and an e-mail address. */
module RegisterHandler {
  import opened Wrappers
  import opened Records
  import opened Storage

  /** The dictionary `register_user` returns. */
  datatype Reply = Reply(status: string, message: string)

  const ALL_FIELDS := "All fields are required"
  const USER_EXISTS := "User already exists"
  const REGISTERED := "User registered successfully"

  /** The record shape of this handler: no nickname, no avatar. */
  function LegacyUserRecord(password: string, email: string): (record: UserRecord)
    ensures record.Keys == {PASSWORD, EMAIL}
    ensures record[PASSWORD] == Str(password) && record[EMAIL] == Str(email)
    ensures NICKNAME !in record && AVATAR !in record
  {
    map[PASSWORD := Str(password), EMAIL := Str(email)]
  }

  /** A user file that does not exist is read as an empty store; a file that is not JSON
      makes the call raise, with the file unchanged. */
  method RegisterUser(disk: Disk, username: Option<string>, password: Option<string>, email: Option<string>)
    returns (r: Outcome<Reply>)
    modifies disk`legacyUserFile
    ensures !(Given(username) && Given(password) && Given(email)) ==>
              r == Returned(Reply("error", ALL_FIELDS)) && disk.legacyUserFile == old(disk.legacyUserFile)
    ensures Given(username) && Given(password) && Given(email) ==>
              var before := old(disk.legacyUserFile);
              var u := username.value;
              && (before.Undecodable? ==> r.Raised? && disk.legacyUserFile == before)
              && (!before.Undecodable? && u in Users(before) ==>
                    r == Returned(Reply("error", USER_EXISTS)) && disk.legacyUserFile == before)
              && (!before.Undecodable? && u !in Users(before) ==>
                    && r == Returned(Reply("success", REGISTERED))
                    && disk.legacyUserFile.Decoded?
                    && disk.legacyUserFile.users.Keys == Users(before).Keys + {u}
                    && disk.legacyUserFile.users[u] == LegacyUserRecord(password.value, email.value)
                    && forall k :: k in Users(before) ==> disk.legacyUserFile.users[k] == Users(before)[k])
  {
    if !(Given(username) && Given(password) && Given(email)) {
      return Returned(Reply("error", ALL_FIELDS));
    }
    var u := username.value;
    var users: map<string, UserRecord>;
    match disk.legacyUserFile {
      case Undecodable =>
        return Raised("JSONDecodeError");
      case Decoded(stored) =>
        users := stored;
        if u in users {
          return Returned(Reply("error", USER_EXISTS));
        }
      case Missing =>
        users := map[];
    }
    users := users[u := LegacyUserRecord(password.value, email.value)];
    disk.legacyUserFile := Decoded(users);
    r := Returned(Reply("success", REGISTERED));
  }
}
