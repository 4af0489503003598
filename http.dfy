/** The HTTP responses the routes produce: a status code and a JSON body. */
module Http {
  import opened Records

  datatype Body =
    | Error(error: string)                          // {"error": ...}
    | Success(message: string)                      // {"status": "success", "message": ...}
    | LoggedIn(nickname: Value, avatar: Value)      // {"status": "success", "nickname", "avatar"}
    | Profile(nickname: Value, avatarUrl: Value)    // {"status": "success", "nickname", "avatar_url"}
    | AvatarUrl(message: string, url: string)       // {"status", "message", "avatar_url": url}
    | AvatarPath(message: string, path: string)     // {"status", "message", "avatar": path}
    | Prediction(apkFile: string, prediction: int)  // {"apk_file", "prediction"}
    | History(records: seq<HistoryRecord>)          // a bare JSON array
    | InternalServerError                           // the web framework's page for an uncaught exception

  datatype Response = Response(status: int, body: Body)
}
