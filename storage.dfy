/** The files the server keeps under its upload root, as one object whose fields the
    request handlers read and rewrite whole. */
module Storage {
  import opened Wrappers
  import opened Records

  /** The JSON file of all users: absent, present but not valid JSON, or decoded. */
  datatype UserFile = Missing | Undecodable | Decoded(users: map<string, UserRecord>)

  /** The users a readable file holds; an absent file holds none. */
  function Users(file: UserFile): map<string, UserRecord> {
    if file.Decoded? then file.users else map[]
  }

  /** `load_user_data`: an absent file reads as the empty object; a file that is not JSON raises. */
  function LoadUserData(file: UserFile): (r: Outcome<map<string, UserRecord>>)
    ensures r.Returned? <==> !file.Undecodable?
    ensures r.Returned? ==> r.value == Users(file)
    ensures file.Missing? ==> r == Returned(map[])
  {
    match file
    case Missing => Returned(map[])
    case Undecodable => Raised("JSONDecodeError")
    case Decoded(users) => Returned(users)
  }

  /** `users[username][key] = value`: one field of one record changes and nothing else does. */
  function SetField(users: map<string, UserRecord>, username: string, key: string, value: Value)
    : (after: map<string, UserRecord>)
    requires username in users
    ensures after.Keys == users.Keys
    ensures after[username].Keys == users[username].Keys + {key}
    ensures after[username][key] == value
    ensures forall k :: k in users[username] && k != key ==> after[username][k] == users[username][k]
    ensures forall u :: u in users && u != username ==> after[u] == users[u]
  {
    users[username := users[username][key := value]]
  }

  /** The history of a user, `[]` when the user has no history file. */
  function HistoryOf(history: map<string, seq<HistoryRecord>>, username: string): seq<HistoryRecord> {
    if username in history then history[username] else []
  }

  class Disk {
    /** server/uploads/user/user_data.json */
    var userFile: UserFile
    /** uploads/user_data.json, the file the stand-alone registration handler uses */
    var legacyUserFile: UserFile
    /** server/uploads/history/<username>_history.json, by username */
    var history: map<string, seq<HistoryRecord>>
    /** the avatar folder, by file name */
    var avatars: map<string, Bytes>
    /** server/uploads, by file name */
    var uploads: map<string, Bytes>

    /** A fresh installation: the folders exist and are empty. */
    constructor ()
      ensures userFile == Missing && legacyUserFile == Missing
      ensures history == map[] && avatars == map[] && uploads == map[]
    {
      userFile := Missing;
      legacyUserFile := Missing;
      history := map[];
      avatars := map[];
      uploads := map[];
    }

    /** `save_user_data`: the user file is rewritten whole and is readable afterwards. */
    method SaveUserData(users: map<string, UserRecord>)
      modifies this`userFile
      ensures userFile == Decoded(users)
      ensures LoadUserData(userFile) == Returned(users)
    {
      userFile := Decoded(users);
    }
  }
}
