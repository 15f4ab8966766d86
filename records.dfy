/** The database records the authentication core reads and builds (`models.rs`). */
module Records {

  /** Rust's `i32`, the type of the tables' ids. */
  type int32 = x: int | -0x8000_0000 <= x < 0x8000_0000

  /** A `users` row. `password` holds the text form of a `SaltyPassword`. */
  datatype User = User(id: int32, username: string, password: string, realName: string, blurb: string)

  /** An `auth_tokens` row. `timestamp` is the issue time (a `NaiveDateTime`, here in seconds). */
  datatype Token = Token(id: int32, userId: int32, timestamp: int, key: string)

  /** A `users` row about to be inserted. */
  datatype NewUser = NewUser(username: string, password: string, realName: string, blurb: string)
}
