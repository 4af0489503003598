# Android-malware scanner backend: verified model of the user store and the feature step

This project models, in Dafny, the core of a small HTTP backend for an Android-malware
scanning web application. Users register, log in, change their nickname and avatar, and
upload APK files. A pre-trained classifier scores each file, and the score is appended to the
user's scan history. All state lives in flat JSON files under one upload root. Every handler
reads a whole file, changes it in memory and writes it back.

What is modelled:

- **The files on disk** (`storage.dfy`, class `Storage.Disk`). The fields are the user file
  of the live server, the separate user file of the stand-alone registration handler, the
  per-user history files, the avatar folder and the upload folder. A user file is `Missing`,
  `Undecodable` or `Decoded(users)`. An absent file reads as the empty object.
- **The live routes** (`app.dfy`, module `App`). `register`, `upload_file`, `upload_avatar`
  and `update_nickname` are methods that change `Disk`. Their contracts give the status, the
  body, the new content of every file they touch, and the files that stay as they were.
  `login`, `get_user_profile` and `get_history` only read, so they are functions of the file
  contents.
- **The login handler** (`login_handler.dfy`). `authenticate_user` is a function of the user
  file. It distinguishes an absent file, a file that is not JSON, and bad credentials.
- **The stand-alone registration handler** (`register_handler.dfy`). Its records hold only a
  password and an e-mail address. It uses its own user file.
- **The profile Blueprint** (`save_user_info.dfy`). It has a second `upload_avatar` and
  `update_nickname`. Its avatar path is sanitised and stored unnormalised.
- **The analyzer's feature step** (`apk_analyzer.dfy`, `text.dfy`). It reads the feature list
  with `readlines` and `strip`. The loop of `extract_apk_features` is a method. The feature
  vector comprehension and `analyze_apk` are functions. The APK parser, the feature file and
  the classifier are parameters (`ApkAnalyzer.Analyzer`).

The operating system's path functions (`os.path.join`, `os.path.relpath` against the working
directory, `werkzeug.secure_filename`) are uninterpreted parameters (`Paths.PathLib`). The
server's own backslash-to-slash replacement is modelled exactly.

Three behaviours of the code worth knowing:

- An upload request without a file gets 400, not 500. An exception inside the handler (the
  analysis, saving the file, the history write) gets 500.
- An existing history file that holds an empty list is answered with 200 and `[]`. Only a
  missing history file gets 404.
- `authenticate_user` returns only a flag and a message; the login route reads the record again.

The user file and the avatar folder are linked: a record whose avatar is a path names a file
in the avatar folder (`Avatars.AvatarsBacked`). The live route names that file
`<username>.jpg` and stores its relative path; the profile Blueprint names it with
`secure_filename` and stores the joined path unchanged. Every route that writes the user file
or the avatar folder keeps the link.

## Model

| member | source | states |
|---|---|---|
| `Storage.LoadUserData` | server/app.py:39-43 | an absent user file reads as the empty map, a decoded one as its content, and an undecodable one raises |
| `Storage.Disk.SaveUserData` | server/app.py:46-48 | the user file is rewritten whole with the given map and reads back as exactly that map |
| `Storage.SetField` | server/app.py:214-217 | assigning `users[u][key]` changes that one field of that one record: same users, same other fields, every other record untouched |
| `App.AppendHistory` | server/app.py:53-57 | the user's history is the old one (empty if absent) plus one record at the end, and every other user's history is unchanged |
| `App.SaveUserHistory` | server/app.py:51-59 | the history store after the call is the old store with the record appended to that user's history |
| `App.NewUserRecord` | server/app.py:78-79 | a new record holds exactly password, email, nickname "user123" and a null avatar |
| `App.Register` | server/app.py:62-83 | missing or empty fields give 400 and a duplicate name gives 400, both with the file unchanged; otherwise 201 and exactly one new key with the new record, all other entries kept; every avatar link (`Avatars.AvatarsBacked`) that held before still holds |
| `App.Login` | server/app.py:86-113 | missing fields give 400; 200 exactly when authentication succeeds, with the record's nickname (default "user123") and an avatar free of backslashes; otherwise 401 with the handler's message |
| `App.AvatarForClient` | server/app.py:104-106 | a non-empty avatar path is shown with every backslash replaced by a slash; null stays null |
| `App.UploadFile` | server/app.py:116-144 | a missing file or an empty file name gives 400 with nothing written; otherwise the file is stored under its name; an analysis failure gives 500 with history unchanged; success gives 200 and appends (name, prediction) only when a username is given |
| `App.GetUserProfile` | server/app.py:147-170 | 400 without a username; 200 exactly when the user has a non-empty record, with the default nickname and a backslash-free avatar URL; 404 otherwise; 500 on an undecodable file |
| `App.UploadAvatar` | server/app.py:173-201 | without file or username field, 400 and nothing written; otherwise the avatar `<username>.jpg` is replaced even for an unknown user; a known user's avatar field becomes the relative path and the URL has no backslash; an unknown user gets 404 with the user file unchanged; every avatar link (`Avatars.AvatarsBacked`) that held before still holds |
| `App.UpdateNickname` | server/app.py:204-222 | missing fields give 400 and an unknown user gives 404, both with the file unchanged; otherwise only that user's nickname field changes; every avatar link (`Avatars.AvatarsBacked`) that held before still holds |
| `App.GetHistory` | server/app.py:226-237 | 200 with the stored list exactly when the user has a history file, else 404 with `[]` |
| `App.RegisterTwice` | server/app.py:73-83 | registering a new name gives 201; the same name again gives 400 "Username already exists"; afterwards the user logs in with nickname "user123" and no avatar |
| `App.RegisterThenLogin` | server/app.py:79-110 | a freshly registered user logs in with its password and sees nickname "user123" and no avatar; every other password gets 401 "Invalid username or password" |
| `App.BareRecordLogsInWithDefaults` | server/app.py:99-102 | a record with only password and email logs in with the default nickname and a null avatar |
| `App.NicknameUpdateShowsInProfile` | server/app.py:155-167 | after a nickname update the profile returns 200 with the new nickname |
| `App.AvatarUploadShowsInProfile` | server/app.py:181-195 | after an avatar upload the profile shows the stored path with slashes only, ending in "/<username>.jpg" when the path functions keep the file name last |
| `App.AppendThenGetHistory` | server/app.py:226-237 | after an append, get_history returns 200 with the old records in order followed by the new one; other users' answers do not change |
| `Paths.NormalizeSlashes` | server/app.py:195 | same length, each backslash replaced by a slash and every other character kept, so the result has no backslash |
| `Paths.NormalizeSlashesIdempotent` | server/app.py:160 | normalising an already normalised path changes nothing |
| `Paths.NormalizedPathKeepsFileName` | server/app.py:181-195 | a path ending in either separator and a backslash-free file name ends, once normalised, in "/" and that name |
| `LoginHandler.Authenticate` | server/login/login_handler.py:4-36 | succeeds exactly when the file decodes, the user exists and the stored password equals the given one; absent file, undecodable file and bad credentials each give their own message |
| `LoginHandler.FailureRevealsNothing` | server/login/login_handler.py:27-36 | an unknown user and a wrong password get the same answer, the one an empty store gives |
| `LoginHandler.OnePasswordPerUser` | server/login/login_handler.py:30-31 | two passwords that both open an account are equal |
| `RegisterHandler.LegacyUserRecord` | server/register/register_handler.py:18 | the record holds exactly the given password and email, with no nickname or avatar |
| `RegisterHandler.RegisterUser` | server/register/register_handler.py:6-21 | missing fields give "All fields are required" and an existing name gives "User already exists", both with the store unchanged; an absent file counts as empty; success adds exactly the new record and keeps all others |
| `SaveUserInfo.UploadAvatar` | server/save_user_info/save_user_info.py:29-53 | without file or username, 400 and nothing changes; otherwise the sanitised `<username>.jpg` is replaced whether or not the user exists; a known user's avatar field and the response's "avatar" key get the joined path as it is; an unknown user gets 404 with the user file unchanged; every avatar link (`Avatars.AvatarsBacked`) that held before still holds |
| `SaveUserInfo.UpdateNickname` | server/save_user_info/save_user_info.py:56-72 | missing fields give 400 and an unknown user gives 404, both with the file unchanged; otherwise only that user's nickname field changes; every avatar link (`Avatars.AvatarsBacked`) that held before still holds |
| `SaveUserInfo.StoredPathIsNotNormalised` | server/save_user_info/save_user_info.py:36-51 | with a backslash-joining path function the stored and returned path keeps its backslash, which only the profile route removes |
| `PyText.TrimStart` | server/utils/apk_analyzer.py:22 | the result is a suffix of the input, everything dropped is whitespace, and it starts with a non-space |
| `PyText.TrimEnd` | server/utils/apk_analyzer.py:22 | the result is a prefix of the input, everything dropped is whitespace, and it ends with a non-space |
| `PyText.Strip` | server/utils/apk_analyzer.py:22 | the result neither starts nor ends with whitespace |
| `PyText.StripIsBodyBetweenBlanks` | server/utils/apk_analyzer.py:22 | for any split of a line into blank head, body that starts and ends in non-space, and blank tail, strip returns that body |
| `PyText.StripIdempotent` | server/utils/apk_analyzer.py:22 | stripping twice is stripping once |
| `PyText.ReadLines` | server/utils/apk_analyzer.py:21-22 | a text has no lines exactly when it is empty |
| `PyText.ReadLinesSplitsAtLineFeeds` | server/utils/apk_analyzer.py:21-22 | the lines concatenate back to the text, each holds a line feed only at its end, and all but the last end with one |
| `PyText.StrippedLineHasNoLineFeed` | server/utils/apk_analyzer.py:22 | a stripped line contains no line feed |
| `ApkAnalyzer.LoadFeaturesFromCsv` | server/utils/apk_analyzer.py:18-26 | one feature per line of the file, each the stripped line and free of line feeds; a read error is raised again |
| `ApkAnalyzer.FeatureMap` | server/utils/apk_analyzer.py:35-42 | the keys are exactly the selected features, each value is 1 if the feature is a permission and 0 otherwise, and the map is empty only for an empty feature list |
| `ApkAnalyzer.ExtractApkFeatures` | server/utils/apk_analyzer.py:29-47 | None exactly when the APK parser fails; otherwise the loop's map has the selected features as keys and 1/0 by permission membership |
| `ApkAnalyzer.FeatureVector` | server/utils/apk_analyzer.py:62 | the vector has one entry per selected feature |
| `ApkAnalyzer.FeatureVectorIsIndicator` | server/utils/apk_analyzer.py:38-62 | reading the extracted map in feature-list order gives the 0/1 indicator vector of the permissions, same length and order |
| `ApkAnalyzer.AnalyzeApk` | server/utils/apk_analyzer.py:50-77 | succeeds exactly when the feature file is non-empty, the model loads and the APK parses; the result has the input path and the model's prediction on the indicator vector; every failure carries the "Error during APK analysis: " prefix |
| `Avatars.AvatarWriteKeepsLinks` | server/app.py:184-187 | writing an avatar file keeps every avatar link of the user file, because a file is only replaced, never removed |
| `Avatars.AvatarUploadKeepsLinks` | server/app.py:181-193 | after the live upload writes `<username>.jpg`, the links hold for the unchanged user file and for the file whose user's avatar becomes that file's relative path |
| `Avatars.StoredAvatarUploadKeepsLinks` | server/save_user_info/save_user_info.py:36-50 | after the Blueprint writes the sanitised file, the links hold for the unchanged user file and for the file whose user's avatar becomes that file's joined path |
| `Avatars.OtherFieldKeepsLinks` | server/app.py:216 | setting a field other than the avatar (the nickname) keeps every link |
| `Avatars.NewUserKeepsLinks` | server/app.py:79-81 | adding a new user whose avatar is null, every other record kept, keeps every link |

## Left out

- HTTP plumbing is not modelled: routing, request parsing, CORS, JSON serialisation of
  responses, the static `/` page and the constant `/ping` answer. Responses are the
  `Http.Response` datatype.
- The user file is assumed to be a JSON object whose values are objects. A record that is
  `null`, a string or a number cannot be represented. In the code a falsy record (`null`, `""`,
  `0`) gets 401 at login and 404 from the profile; a truthy scalar makes login and the profile
  raise, so the framework answers 500 (server/login/login_handler.py:28-30,
  server/app.py:157-158); any record that is not an object makes `update_nickname` and
  `upload_avatar` raise, answered with 500 (server/app.py:192, 216).
- Request fields are optional strings. A field sent as a JSON number, list or object is not
  modelled. Record values are `null` or strings only.
- File I/O is abstracted. Directories become maps and JSON files become values. The avatar
  route's delete-then-save is one replacement of the entry.
- The path functions are uninterpreted. File names are flat names inside their folder, so
  path traversal through `/` or `..` in a user name or file name is not modelled.
- The exception texts of foreign code are placeholders, such as the JSON decode error and
  the I/O errors of the feature file and the model.
- App.GetHistory: does not model the 500 answer for a history file that fails to decode
  (server/app.py:238-240). History files are only written by `SaveUserHistory` and always
  decode in the model.
- App.UploadFile: does not model a failure of `save_user_history` inside the upload (a history
  file that does not decode). It also leaves out the 'Unknown' prediction fallback, which
  never applies because `analyze_apk` always returns a prediction.
- ApkAnalyzer.AnalyzeApk: the APK parser, `joblib` model loading and `model.predict` are
  parameters, not models. `int(prediction)` is folded into a predictor that returns an
  integer, and a predictor that raises is not modelled.
- PyText.ReadLines: splits at line feeds only. The newline translation of text mode, where
  `\r` and `\r\n` also end a line, is not modelled.
- Logging and `print` have no behaviour and are left out.
- Concurrent requests are not modelled. Races between writers to the same file ("last
  writer wins") are outside a sequential model.
- The unit tests need a running app and a fixture image. They only informed the registration
  and avatar contracts.
