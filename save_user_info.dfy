/** The profile Blueprint: a second `upload_avatar` and `update_nickname` over the same user
    file and avatar folder as the live routes. Its avatar file name is sanitised, and the
    record and the response keep the joined path as it is, under the key "avatar". */
module SaveUserInfo {
  import opened Wrappers
  import opened Records
  import opened Http
  import opened Paths
  import opened Storage
  import opened Avatars
  import App

  const NO_FILE_OR_USERNAME := "No file or username provided"
  const AVATAR_UPLOADED := "Avatar uploaded successfully"
  const USER_NOT_FOUND := "User not found"
  const NICKNAME_FIELDS := "Username and nickname are required"
  const NICKNAME_UPDATED := "Nickname updated successfully"

  /** `POST /upload_avatar` of the Blueprint: the avatar file is replaced before the user is
      looked up, so it is written even for a user who does not exist. */
  method UploadAvatar(disk: Disk, lib: PathLib, file: Option<FilePart>, username: Option<string>)
    returns (r: Response)
    modifies disk`avatars, disk`userFile
    ensures r.status in {200, 400, 404, 500}
    ensures file.None? || username.None? ==>
              r == Response(400, Error(NO_FILE_OR_USERNAME)) && disk.avatars == old(disk.avatars)
    ensures r.status != 200 ==> disk.userFile == old(disk.userFile)
    ensures file.Some? && username.Some? ==>
              var before := old(disk.userFile);
              var u := username.value;
              var path := StoredAvatarPath(lib, u);
              && disk.avatars == old(disk.avatars)[SafeAvatarName(lib, u) := file.value.content]
              && (before.Undecodable? ==> r == Response(500, InternalServerError))
              && (!before.Undecodable? && u !in Users(before) ==> r == Response(404, Error(USER_NOT_FOUND)))
              && (before.Decoded? && u in before.users ==>
                    && r == Response(200, AvatarPath(AVATAR_UPLOADED, path))
                    && disk.userFile == Decoded(SetField(before.users, u, AVATAR, Str(path))))
    ensures AvatarsBacked(lib, old(disk.userFile), old(disk.avatars)) ==> AvatarsBacked(lib, disk.userFile, disk.avatars)
  {
    if file.None? || username.None? {
      return Response(400, Error(NO_FILE_OR_USERNAME));
    }
    var u := username.value;
    if AvatarsBacked(lib, disk.userFile, disk.avatars) {
      StoredAvatarUploadKeepsLinks(lib, disk.userFile, disk.avatars, u, file.value.content);
    }
    var name := SafeAvatarName(lib, u);
    var filepath := lib.join(AvatarFolder(lib), name);
    // an older avatar is deleted, then the new bytes are saved at the same name
    disk.avatars := disk.avatars[name := file.value.content];
    var loaded := LoadUserData(disk.userFile);
    if loaded.Raised? {
      return Response(500, InternalServerError);
    }
    var users := loaded.value;
    if u in users {
      disk.SaveUserData(SetField(users, u, AVATAR, Str(filepath)));
      return Response(200, AvatarPath(AVATAR_UPLOADED, filepath));
    }
    r := Response(404, Error(USER_NOT_FOUND));
  }

  /** `POST /update_nickname` of the Blueprint. */
  method UpdateNickname(disk: Disk, username: Option<string>, nickname: Option<string>) returns (r: Response)
    modifies disk`userFile
    ensures r.status in {200, 400, 404, 500}
    ensures r.status != 200 ==> disk.userFile == old(disk.userFile)
    ensures !(Given(username) && Given(nickname)) ==> r == Response(400, Error(NICKNAME_FIELDS))
    ensures Given(username) && Given(nickname) ==>
              var before := old(disk.userFile);
              var u := username.value;
              && (before.Undecodable? ==> r == Response(500, InternalServerError))
              && (!before.Undecodable? && u !in Users(before) ==> r == Response(404, Error(USER_NOT_FOUND)))
              && (before.Decoded? && u in before.users ==>
                    && r == Response(200, Success(NICKNAME_UPDATED))
                    && disk.userFile == Decoded(SetField(before.users, u, NICKNAME, Str(nickname.value))))
    ensures forall lib :: AvatarsBacked(lib, old(disk.userFile), disk.avatars) ==> AvatarsBacked(lib, disk.userFile, disk.avatars)
  {
    if !(Given(username) && Given(nickname)) {
      return Response(400, Error(NICKNAME_FIELDS));
    }
    var loaded := LoadUserData(disk.userFile);
    if loaded.Raised? {
      return Response(500, InternalServerError);
    }
    var users := loaded.value;
    if username.value in users {
      forall lib | AvatarsBacked(lib, disk.userFile, disk.avatars)
        ensures AvatarsBacked(lib, Decoded(SetField(users, username.value, NICKNAME, Str(nickname.value))), disk.avatars)
      {
        OtherFieldKeepsLinks(lib, users, disk.avatars, username.value, NICKNAME, Str(nickname.value));
      }
      disk.SaveUserData(SetField(users, username.value, NICKNAME, Str(nickname.value)));
      return Response(200, Success(NICKNAME_UPDATED));
    }
    r := Response(404, Error(USER_NOT_FOUND));
  }

  /** With a join that puts a backslash between folder and file (as on Windows), the path the
      Blueprint stores and returns keeps that backslash; only the profile route turns it into
      a slash when it is read back. */
  lemma StoredPathIsNotNormalised(lib: PathLib, users: map<string, UserRecord>, username: string)
    requires username in users && username != ""
    requires forall folder, name :: lib.join(folder, name) == folder + "\\" + name
    ensures '\\' in StoredAvatarPath(lib, username)
    ensures var path := StoredAvatarPath(lib, username);
            var r := App.GetUserProfile(Decoded(SetField(users, username, AVATAR, Str(path))), Some(username));
            r.status == 200 && r.body.avatarUrl == Str(NormalizeSlashes(path)) && '\\' !in r.body.avatarUrl.s
  {
  }
}
