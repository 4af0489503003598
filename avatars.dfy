/** Where avatars live, and the link between the user file and the avatar folder: a record
    that holds an avatar path names a file that is in the folder. The live route and the
    profile Blueprint name that file differently, so a record may hold either form. */
module Avatars {
  import opened Records
  import opened Paths
  import opened Storage

  /** The file name of a user's avatar in the avatar folder, as the live route writes it. */
  function AvatarFileName(username: string): string {
    username + ".jpg"
  }

  /** The avatar path the live route stores: the avatar file, relative to the working directory. */
  function AvatarRelativePath(lib: PathLib, username: string): string {
    lib.relpath(lib.join(AvatarFolder(lib), AvatarFileName(username)))
  }

  /** The avatar file name the Blueprint writes: `secure_filename("<username>.jpg")`. */
  function SafeAvatarName(lib: PathLib, username: string): string {
    lib.secureFilename(username + ".jpg")
  }

  /** The path the Blueprint stores: the avatar folder joined with the file name, not made
      relative and not normalised. */
  function StoredAvatarPath(lib: PathLib, username: string): string {
    lib.join(AvatarFolder(lib), SafeAvatarName(lib, username))
  }

  /** A record's avatar, when it is a path, is one of the two paths a route stores for that
      user, and the file that path names is in the avatar folder. */
  predicate AvatarBacked(lib: PathLib, username: string, record: UserRecord, avatars: map<string, Bytes>) {
    AVATAR in record && record[AVATAR].Str? ==>
      || (record[AVATAR] == Str(AvatarRelativePath(lib, username)) && AvatarFileName(username) in avatars)
      || (record[AVATAR] == Str(StoredAvatarPath(lib, username)) && SafeAvatarName(lib, username) in avatars)
  }

  /** Every avatar path in the user file names an existing avatar file. */
  predicate AvatarsBacked(lib: PathLib, file: UserFile, avatars: map<string, Bytes>) {
    forall u :: u in Users(file) ==> AvatarBacked(lib, u, Users(file)[u], avatars)
  }

  /** Writing an avatar file, whatever the user file then does, keeps every link: files are
      only ever added or replaced, never removed. */
  lemma AvatarWriteKeepsLinks(lib: PathLib, file: UserFile, avatars: map<string, Bytes>, name: string, content: Bytes)
    requires AvatarsBacked(lib, file, avatars)
    ensures AvatarsBacked(lib, file, avatars[name := content])
  {
    forall u | u in Users(file)
      ensures AvatarBacked(lib, u, Users(file)[u], avatars[name := content])
    {
      assert AvatarBacked(lib, u, Users(file)[u], avatars);
    }
  }

  /** The live avatar upload: the file `<username>.jpg` is written and the record points at
      its relative path, so the links hold afterwards on every branch. */
  lemma AvatarUploadKeepsLinks(lib: PathLib, file: UserFile, avatars: map<string, Bytes>, username: string, content: Bytes)
    requires AvatarsBacked(lib, file, avatars)
    ensures AvatarsBacked(lib, file, avatars[AvatarFileName(username) := content])
    ensures file.Decoded? && username in file.users ==>
              AvatarsBacked(lib, Decoded(SetField(file.users, username, AVATAR, Str(AvatarRelativePath(lib, username)))),
                            avatars[AvatarFileName(username) := content])
  {
    var written := avatars[AvatarFileName(username) := content];
    AvatarWriteKeepsLinks(lib, file, avatars, AvatarFileName(username), content);
    if file.Decoded? && username in file.users {
      var after := SetField(file.users, username, AVATAR, Str(AvatarRelativePath(lib, username)));
      forall u | u in after ensures AvatarBacked(lib, u, after[u], written) {
        if u != username {
          assert AvatarBacked(lib, u, Users(file)[u], written);
        }
      }
    }
  }

  /** The Blueprint's avatar upload: the sanitised file is written and the record points at
      the joined path of that file, so the links hold afterwards on every branch. */
  lemma StoredAvatarUploadKeepsLinks(lib: PathLib, file: UserFile, avatars: map<string, Bytes>, username: string, content: Bytes)
    requires AvatarsBacked(lib, file, avatars)
    ensures AvatarsBacked(lib, file, avatars[SafeAvatarName(lib, username) := content])
    ensures file.Decoded? && username in file.users ==>
              AvatarsBacked(lib, Decoded(SetField(file.users, username, AVATAR, Str(StoredAvatarPath(lib, username)))),
                            avatars[SafeAvatarName(lib, username) := content])
  {
    var written := avatars[SafeAvatarName(lib, username) := content];
    AvatarWriteKeepsLinks(lib, file, avatars, SafeAvatarName(lib, username), content);
    if file.Decoded? && username in file.users {
      var after := SetField(file.users, username, AVATAR, Str(StoredAvatarPath(lib, username)));
      forall u | u in after ensures AvatarBacked(lib, u, after[u], written) {
        if u != username {
          assert AvatarBacked(lib, u, Users(file)[u], written);
        }
      }
    }
  }

  /** Changing a field other than the avatar leaves every link as it was. */
  lemma OtherFieldKeepsLinks(lib: PathLib, users: map<string, UserRecord>, avatars: map<string, Bytes>,
                             username: string, key: string, value: Value)
    requires username in users && key != AVATAR
    requires AvatarsBacked(lib, Decoded(users), avatars)
    ensures AvatarsBacked(lib, Decoded(SetField(users, username, key, value)), avatars)
  {
    var after := SetField(users, username, key, value);
    forall u | u in after ensures AvatarBacked(lib, u, after[u], avatars) {
      assert Users(Decoded(users))[u] == users[u];
      assert AVATAR in after[u] <==> AVATAR in users[u];
    }
  }

  /** Adding a user whose record has no avatar path, every other record kept, keeps every link. */
  lemma NewUserKeepsLinks(lib: PathLib, before: map<string, UserRecord>, after: map<string, UserRecord>,
                          avatars: map<string, Bytes>, username: string, record: UserRecord)
    requires AvatarsBacked(lib, Decoded(before), avatars)
    requires after.Keys == before.Keys + {username} && username !in before
    requires after[username] == record && (AVATAR in record ==> record[AVATAR] == Null)
    requires forall k :: k in before ==> after[k] == before[k]
    ensures AvatarsBacked(lib, Decoded(after), avatars)
  {
    forall u | u in after ensures AvatarBacked(lib, u, after[u], avatars) {
      if u != username {
        assert Users(Decoded(before))[u] == before[u];
      }
    }
  }
}
