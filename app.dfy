/** The live routes of the web server. Each one reads the files it needs whole, changes them
    in memory and writes them back. */
module App {
  import opened Wrappers
  import opened Records
  import opened Http
  import opened Paths
  import opened Storage
  import opened LoginHandler
  import opened ApkAnalyzer
  import opened Avatars
  import RegisterHandler

  const ALL_FIELDS := "All fields are required"
  const USERNAME_TAKEN := "Username already exists"
  const REGISTERED := "User registered successfully"
  const LOGIN_FIELDS := "Username and password are required"
  const NO_FILE := "No file provided"
  const NO_FILE_SELECTED := "No file selected"
  const UPLOAD_FAILED := "File upload failed"
  const USERNAME_REQUIRED := "Username is required"
  const USER_NOT_FOUND := "User not found"
  const NO_FILE_OR_USERNAME := "No file or username provided"
  const AVATAR_UPLOADED := "Avatar uploaded successfully"
  const NICKNAME_FIELDS := "Username and nickname are required"
  const NICKNAME_UPDATED := "Nickname updated successfully"

  /** The record a new account gets: the credentials, the default nickname, no avatar. */
  function NewUserRecord(password: string, email: string): (record: UserRecord)
    ensures record.Keys == {PASSWORD, EMAIL, NICKNAME, AVATAR}
    ensures record[PASSWORD] == Str(password) && record[EMAIL] == Str(email)
    ensures record[NICKNAME] == Str(DEFAULT_NICKNAME) && record[AVATAR] == Null
  {
    map[PASSWORD := Str(password), EMAIL := Str(email), NICKNAME := Str(DEFAULT_NICKNAME), AVATAR := Null]
  }

  /** The avatar as the client sees it: a non-empty path with its backslashes made slashes. */
  function AvatarForClient(avatar: Value): (shown: Value)
    ensures shown.Str? <==> avatar.Str?
    ensures shown.Str? ==> shown.s == NormalizeSlashes(avatar.s) && '\\' !in shown.s
  {
    if IsTruthy(avatar) then Str(NormalizeSlashes(avatar.s)) else avatar
  }

  /** The history after one record is appended to a user's history (a user without a
      history file starts from the empty history). */
  function AppendHistory(history: map<string, seq<HistoryRecord>>, username: string, record: HistoryRecord)
    : (after: map<string, seq<HistoryRecord>>)
    ensures after.Keys == history.Keys + {username}
    ensures |after[username]| == |HistoryOf(history, username)| + 1
    ensures after[username][..|after[username]| - 1] == HistoryOf(history, username)
    ensures after[username][|after[username]| - 1] == record
    ensures forall u :: u in history && u != username ==> after[u] == history[u]
  {
    var records := HistoryOf(history, username) + [record];
    assert records[..|records| - 1] == HistoryOf(history, username);
    history[username := records]
  }

  /** `save_user_history` */
  method SaveUserHistory(disk: Disk, username: string, record: HistoryRecord)
    modifies disk`history
    ensures disk.history == AppendHistory(old(disk.history), username, record)
  {
    var records: seq<HistoryRecord> := [];
    if username in disk.history {
      records := disk.history[username];
    }
    records := records + [record];
    disk.history := disk.history[username := records];
  }

  /** `POST /register` */
  method Register(disk: Disk, username: Option<string>, password: Option<string>, email: Option<string>)
    returns (r: Response)
    modifies disk`userFile
    ensures r.status in {201, 400, 500}
    ensures r.status != 201 ==> disk.userFile == old(disk.userFile)
    ensures !(Given(username) && Given(password) && Given(email)) ==> r == Response(400, Error(ALL_FIELDS))
    ensures Given(username) && Given(password) && Given(email) ==>
              var before := old(disk.userFile);
              var u := username.value;
              && (before.Undecodable? ==> r == Response(500, InternalServerError))
              && (!before.Undecodable? && u in Users(before) ==> r == Response(400, Error(USERNAME_TAKEN)))
              && (!before.Undecodable? && u !in Users(before) ==>
                    && r == Response(201, Success(REGISTERED))
                    && disk.userFile.Decoded?
                    && disk.userFile.users.Keys == Users(before).Keys + {u}
                    && disk.userFile.users[u] == NewUserRecord(password.value, email.value)
                    && forall k :: k in Users(before) ==> disk.userFile.users[k] == Users(before)[k])
    ensures forall lib :: AvatarsBacked(lib, old(disk.userFile), disk.avatars) ==> AvatarsBacked(lib, disk.userFile, disk.avatars)
  {
    if !(Given(username) && Given(password) && Given(email)) {
      return Response(400, Error(ALL_FIELDS));
    }
    var loaded := LoadUserData(disk.userFile);
    if loaded.Raised? {
      return Response(500, InternalServerError);
    }
    var users := loaded.value;
    if username.value in users {
      return Response(400, Error(USERNAME_TAKEN));
    }
    ghost var before := users;
    var record := NewUserRecord(password.value, email.value);
    users := users[username.value := record];
    forall lib | AvatarsBacked(lib, disk.userFile, disk.avatars)
      ensures AvatarsBacked(lib, Decoded(users), disk.avatars)
    {
      NewUserKeepsLinks(lib, before, users, disk.avatars, username.value, record);
    }
    disk.SaveUserData(users);
    r := Response(201, Success(REGISTERED));
  }

  /** `POST /login`: authenticates, then reads the nickname and avatar of the record, with
      their defaults when the record has none. */
  function Login(file: UserFile, username: Option<string>, password: Option<string>): (r: Response)
    ensures r.status in {200, 400, 401}
    ensures !(Given(username) && Given(password)) ==> r == Response(400, Error(LOGIN_FIELDS))
    ensures r.status == 200 <==> Given(username) && Given(password) && Authenticate(file, username.value, password.value).0
    ensures r.status == 401 ==> r.body == Error(Authenticate(file, username.value, password.value).1)
    ensures Given(username) && Given(password) && !Authenticate(file, username.value, password.value).0 ==>
              r == Response(401, Error(Authenticate(file, username.value, password.value).1))
    ensures r.status == 200 ==>
              var record := file.users[username.value];
              && r.body.LoggedIn?
              && r.body.nickname == GetOr(record, NICKNAME, Str(DEFAULT_NICKNAME))
              && r.body.avatar == AvatarForClient(GetOr(record, AVATAR, Null))
              && (r.body.avatar.Str? ==> '\\' !in r.body.avatar.s)
  {
    if !(Given(username) && Given(password)) then Response(400, Error(LOGIN_FIELDS))
    else
      var auth := Authenticate(file, username.value, password.value);
      if auth.0 then
        var users := Users(file);
        var user := if username.value in users then users[username.value] else map[];
        Response(200, LoggedIn(GetOr(user, NICKNAME, Str(DEFAULT_NICKNAME)), AvatarForClient(GetOr(user, AVATAR, Null))))
      else Response(401, Error(auth.1))
  }

  /** `POST /upload`: stores the file under its own name, analyses it, and records the
      prediction in the history of the user, when one is named. */
  method UploadFile(disk: Disk, lib: PathLib, analyzer: Analyzer, file: Option<FilePart>, username: Option<string>)
    returns (r: Response)
    modifies disk`uploads, disk`history
    ensures r.status in {200, 400, 500}
    ensures file.None? ==> r == Response(400, Error(NO_FILE))
    ensures file.Some? && file.value.filename == "" ==> r == Response(400, Error(NO_FILE_SELECTED))
    ensures r.status == 400 ==> disk.uploads == old(disk.uploads) && disk.history == old(disk.history)
    ensures file.Some? && file.value.filename != "" ==>
              var name := file.value.filename;
              var analysis := AnalyzeApk(lib.join(UPLOAD_FOLDER, name), file.value.content, analyzer);
              && disk.uploads == old(disk.uploads)[name := file.value.content]
              && (analysis.Raised? ==> r == Response(500, Error(UPLOAD_FAILED)) && disk.history == old(disk.history))
              && (analysis.Returned? ==>
                    && r == Response(200, Prediction(name, analysis.value.prediction))
                    && disk.history == if Given(username)
                                       then AppendHistory(old(disk.history), username.value, HistoryRecord(name, analysis.value.prediction))
                                       else old(disk.history))
  {
    if file.None? {
      return Response(400, Error(NO_FILE));
    }
    var part := file.value;
    if part.filename == "" {
      return Response(400, Error(NO_FILE_SELECTED));
    }
    var filepath := lib.join(UPLOAD_FOLDER, part.filename);
    disk.uploads := disk.uploads[part.filename := part.content];
    var analysis := AnalyzeApk(filepath, disk.uploads[part.filename], analyzer);
    if analysis.Raised? {
      return Response(500, Error(UPLOAD_FAILED));
    }
    if Given(username) {
      SaveUserHistory(disk, username.value, HistoryRecord(part.filename, analysis.value.prediction));
    }
    r := Response(200, Prediction(part.filename, analysis.value.prediction));
  }

  /** `GET /user/profile`: a user whose record is empty is not found. */
  function GetUserProfile(file: UserFile, username: Option<string>): (r: Response)
    ensures r.status in {200, 400, 404, 500}
    ensures !Given(username) ==> r == Response(400, Error(USERNAME_REQUIRED))
    ensures Given(username) && file.Undecodable? ==> r == Response(500, InternalServerError)
    ensures r.status == 200 <==>
              Given(username) && file.Decoded? && username.value in file.users && file.users[username.value] != map[]
    ensures r.status == 404 ==> r.body == Error(USER_NOT_FOUND)
    ensures Given(username) && !file.Undecodable?
            && !(file.Decoded? && username.value in file.users && file.users[username.value] != map[]) ==>
              r == Response(404, Error(USER_NOT_FOUND))
    ensures r.status == 200 ==>
              var record := file.users[username.value];
              && r.body.Profile?
              && r.body.nickname == GetOr(record, NICKNAME, Str(DEFAULT_NICKNAME))
              && r.body.avatarUrl == AvatarForClient(GetOr(record, AVATAR, Null))
              && (r.body.avatarUrl.Str? ==> '\\' !in r.body.avatarUrl.s)
  {
    if !Given(username) then Response(400, Error(USERNAME_REQUIRED))
    else
      match LoadUserData(file)
      case Raised(_) => Response(500, InternalServerError)
      case Returned(users) =>
        var user := if username.value in users then users[username.value] else map[];
        if user != map[] then
          Response(200, Profile(GetOr(user, NICKNAME, Str(DEFAULT_NICKNAME)), AvatarForClient(GetOr(user, AVATAR, Null))))
        else Response(404, Error(USER_NOT_FOUND))
  }

  /** `POST /upload_avatar`: the avatar file is replaced before the user is looked up, so it
      is written even for a user who does not exist. */
  method UploadAvatar(disk: Disk, lib: PathLib, file: Option<FilePart>, username: Option<string>)
    returns (r: Response)
    modifies disk`avatars, disk`userFile
    ensures r.status in {200, 400, 404, 500}
    ensures file.None? || username.None? ==>
              r == Response(400, Error(NO_FILE_OR_USERNAME)) && disk.avatars == old(disk.avatars)
    ensures r.status != 200 ==> disk.userFile == old(disk.userFile)
    ensures file.Some? && username.Some? ==>
              var before := old(disk.userFile);
              var u := username.value;
              var path := AvatarRelativePath(lib, u);
              && disk.avatars == old(disk.avatars)[AvatarFileName(u) := file.value.content]
              && (before.Undecodable? ==> r == Response(500, InternalServerError))
              && (!before.Undecodable? && u !in Users(before) ==> r == Response(404, Error(USER_NOT_FOUND)))
              && (before.Decoded? && u in before.users ==>
                    && r == Response(200, AvatarUrl(AVATAR_UPLOADED, NormalizeSlashes(path)))
                    && '\\' !in r.body.url
                    && disk.userFile == Decoded(SetField(before.users, u, AVATAR, Str(path))))
    ensures AvatarsBacked(lib, old(disk.userFile), old(disk.avatars)) ==> AvatarsBacked(lib, disk.userFile, disk.avatars)
  {
    if file.None? || username.None? {
      return Response(400, Error(NO_FILE_OR_USERNAME));
    }
    var u := username.value;
    if AvatarsBacked(lib, disk.userFile, disk.avatars) {
      AvatarUploadKeepsLinks(lib, disk.userFile, disk.avatars, u, file.value.content);
    }
    // an older avatar is deleted, then the new bytes are saved at the same name
    disk.avatars := disk.avatars[AvatarFileName(u) := file.value.content];
    var loaded := LoadUserData(disk.userFile);
    if loaded.Raised? {
      return Response(500, InternalServerError);
    }
    var users := loaded.value;
    if u in users {
      var path := AvatarRelativePath(lib, u);
      disk.SaveUserData(SetField(users, u, AVATAR, Str(path)));
      return Response(200, AvatarUrl(AVATAR_UPLOADED, NormalizeSlashes(path)));
    }
    r := Response(404, Error(USER_NOT_FOUND));
  }

  /** `POST /update_nickname` */
  method UpdateNickname(disk: Disk, username: Option<string>, nickname: Option<string>) returns (r: Response)
    modifies disk`userFile
    ensures r.status in {200, 400, 404, 500}
    ensures r.status != 200 ==> disk.userFile == old(disk.userFile)
    ensures !(Given(username) && Given(nickname)) ==> r == Response(400, Error(NICKNAME_FIELDS))
    ensures Given(username) && Given(nickname) ==>
              var before := old(disk.userFile);
              var u := username.value;
              && (before.Undecodable? ==> r == Response(500, InternalServerError))
              && (!before.Undecodable? && u !in Users(before) ==> r == Response(404, Error(USER_NOT_FOUND)))
              && (before.Decoded? && u in before.users ==>
                    && r == Response(200, Success(NICKNAME_UPDATED))
                    && disk.userFile == Decoded(SetField(before.users, u, NICKNAME, Str(nickname.value))))
    ensures forall lib :: AvatarsBacked(lib, old(disk.userFile), disk.avatars) ==> AvatarsBacked(lib, disk.userFile, disk.avatars)
  {
    if !(Given(username) && Given(nickname)) {
      return Response(400, Error(NICKNAME_FIELDS));
    }
    var loaded := LoadUserData(disk.userFile);
    if loaded.Raised? {
      return Response(500, InternalServerError);
    }
    var users := loaded.value;
    if username.value in users {
      forall lib | AvatarsBacked(lib, disk.userFile, disk.avatars)
        ensures AvatarsBacked(lib, Decoded(SetField(users, username.value, NICKNAME, Str(nickname.value))), disk.avatars)
      {
        OtherFieldKeepsLinks(lib, users, disk.avatars, username.value, NICKNAME, Str(nickname.value));
      }
      disk.SaveUserData(SetField(users, username.value, NICKNAME, Str(nickname.value)));
      return Response(200, Success(NICKNAME_UPDATED));
    }
    r := Response(404, Error(USER_NOT_FOUND));
  }

  /** `GET /get_history/<username>`: a user without a history file gets 404 and an empty list. */
  function GetHistory(history: map<string, seq<HistoryRecord>>, username: string): (r: Response)
    ensures r.status == 200 <==> username in history
    ensures r.status == 200 ==> r.body == History(history[username])
    ensures r.status != 200 ==> r == Response(404, History([]))
  {
    if username !in history then Response(404, History([]))
    else Response(200, History(history[username]))
  }

  /** Registering the same name twice: the first call creates the account, the second is
      refused as a duplicate and leaves the user file as the first call wrote it. */
  method RegisterTwice(disk: Disk, username: string, password: string, email: string)
    returns (first: Response, second: Response)
    requires username != "" && password != "" && email != ""
    requires !disk.userFile.Undecodable? && username !in Users(disk.userFile)
    modifies disk`userFile
    ensures first == Response(201, Success(REGISTERED))
    ensures second == Response(400, Error(USERNAME_TAKEN))
    ensures Login(disk.userFile, Some(username), Some(password)) == Response(200, LoggedIn(Str(DEFAULT_NICKNAME), Null))
  {
    first := Register(disk, Some(username), Some(password), Some(email));
    ghost var written := disk.userFile;
    second := Register(disk, Some(username), Some(password), Some(email));
    assert disk.userFile == written;
  }

  /** A new account can log in at once with its password, and sees the default nickname and
      no avatar; any other password is refused with the uniform message. */
  lemma RegisterThenLogin(users: map<string, UserRecord>, username: string, password: string, email: string)
    requires username != "" && password != "" && username !in users
    ensures var file := Decoded(users[username := NewUserRecord(password, email)]);
            && Login(file, Some(username), Some(password)) == Response(200, LoggedIn(Str(DEFAULT_NICKNAME), Null))
            && forall other :: other != "" && other != password ==>
                 Login(file, Some(username), Some(other)) == Response(401, Error(BAD_CREDENTIALS))
  {
  }

  /** A record of the stand-alone registration handler's shape, which has neither nickname
      nor avatar, logs in with the default nickname and no avatar. */
  lemma BareRecordLogsInWithDefaults(users: map<string, UserRecord>, username: string, password: string, email: string)
    requires username != "" && password != ""
    ensures Login(Decoded(users[username := RegisterHandler.LegacyUserRecord(password, email)]), Some(username), Some(password))
            == Response(200, LoggedIn(Str(DEFAULT_NICKNAME), Null))
  {
  }

  /** After a nickname update the profile shows the new nickname. */
  lemma NicknameUpdateShowsInProfile(users: map<string, UserRecord>, username: string, nickname: string)
    requires username in users && username != ""
    ensures var r := GetUserProfile(Decoded(SetField(users, username, NICKNAME, Str(nickname))), Some(username));
            r.status == 200 && r.body.nickname == Str(nickname)
  {
  }

  /** After an avatar upload the profile shows the stored path with slashes only; when the
      path functions keep the file name last, the URL ends in "/<username>.jpg". */
  lemma AvatarUploadShowsInProfile(lib: PathLib, users: map<string, UserRecord>, username: string)
    requires username in users && username != ""
    ensures var path := AvatarRelativePath(lib, username);
            var r := GetUserProfile(Decoded(SetField(users, username, AVATAR, Str(path))), Some(username));
            && r.status == 200
            && r.body.avatarUrl == Str(NormalizeSlashes(path))
            && '\\' !in r.body.avatarUrl.s
    ensures var path := AvatarRelativePath(lib, username);
            '\\' !in username && EndsInFile(path, AvatarFileName(username)) ==>
              NormalizeSlashes(path)[|path| - |AvatarFileName(username)| - 1..] == "/" + AvatarFileName(username)
  {
    var path := AvatarRelativePath(lib, username);
    var after := SetField(users, username, AVATAR, Str(path));
    assert after[username][AVATAR] == Str(path);
    if '\\' !in username && EndsInFile(path, AvatarFileName(username)) {
      assert '\\' !in ".jpg";
      NormalizedPathKeepsFileName(path, AvatarFileName(username));
    }
  }

  /** After a record is appended, the user's history comes back with it last, the earlier
      records before it in their order, and every other user's history as it was. */
  lemma AppendThenGetHistory(history: map<string, seq<HistoryRecord>>, username: string, record: HistoryRecord)
    ensures GetHistory(AppendHistory(history, username, record), username)
            == Response(200, History(HistoryOf(history, username) + [record]))
    ensures forall other :: other != username ==>
              GetHistory(AppendHistory(history, username, record), other) == GetHistory(history, other)
  {
  }
}
