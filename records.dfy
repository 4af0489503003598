/** The JSON data the server keeps: user records, history records, uploaded files. */
module Records {
  import opened Wrappers

  type Bytes = seq<bv8>

  /** A JSON scalar stored in a user record: `null` or a string. */
  datatype Value = Null | Str(s: string)

  /** A user record is a JSON object; only the keys below are ever written. */
  type UserRecord = map<string, Value>

  const PASSWORD := "password"
  const EMAIL := "email"
  const NICKNAME := "nickname"
  const AVATAR := "avatar"

  /** The nickname a new account gets, and the one shown when a record has none. */
  const DEFAULT_NICKNAME := "user123"

  /** One past scan: the uploaded file name and the class the model predicted. */
  datatype HistoryRecord = HistoryRecord(apkFile: string, prediction: int)

  /** A multipart file field: the client's file name and the bytes. */
  datatype FilePart = FilePart(filename: string, content: Bytes)

  /** Python truthiness of an optional string request field: present and non-empty. */
  predicate Given(field: Option<string>) {
    field.Some? && field.value != ""
  }

  /** Python truthiness of a JSON value. */
  predicate IsTruthy(v: Value) {
    v.Str? && v.s != ""
  }

  /** `record.get(key, default)`. */
  function GetOr(record: UserRecord, key: string, default: Value): Value {
    if key in record then record[key] else default
  }
}
