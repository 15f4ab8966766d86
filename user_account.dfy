/**
 * Registration: `UserData::validate` checks a sign-up request against the
 * `users` table, and `UserData::into_new_user` turns a valid one into a row
 * to insert, hashing the password.
 */
module UserAccount {
  import opened Wrappers
  import opened Text
  import opened Records
  import Password

  datatype Status = BadRequest | InternalServerError

  /** `status!(status, Json(json!({"error": error})))`. */
  datatype ErrorResponse = ErrorResponse(status: Status, error: string)

  /** The JSON body of a sign-up request. */
  datatype UserData = UserData(username: string, password: string, realName: Option<string>, blurb: Option<string>)

  /** What the existence query can see of `users`: the usernames taken, or a failure of the query. */
  datatype Accounts = Accounts(usernames: set<string>, queryFails: bool)

  const MIN_PASSWORD_BYTES: nat := 16
  const DB_FAILURE := ErrorResponse(InternalServerError, "Failed to connect to backing database")
  const USERNAME_TAKEN := ErrorResponse(BadRequest, "Username already in use; pick another")
  const PASSWORD_TOO_SHORT := ErrorResponse(BadRequest, "Password too short")

  /** `select(exists(users.filter(username.eq(..))))`. */
  function UsernameExists(db: Accounts, username: string): Result<bool, ()> {
    if db.queryFails then Err(()) else Ok(username in db.usernames)
  }

  /** `UserData::validate`: the query, then the username, then the password's length in bytes. */
  function Validate(data: UserData, db: Accounts): Result<(), ErrorResponse> {
    match UsernameExists(db, data.username)
    case Err(_) => Err(DB_FAILURE)
    case Ok(taken) =>
      if taken then Err(USERNAME_TAKEN)
      else if Utf8Length(data.password) < MIN_PASSWORD_BYTES then Err(PASSWORD_TOO_SHORT)
      else Ok(())
  }

  /**
   * `UserData::into_new_user`: the validation error unchanged, or a new row
   * whose password is the text form of a freshly salted hash, and whose
   * missing real name and blurb are empty.
   */
  method IntoNewUser(data: UserData, db: Accounts, argon2i: Password.Argon2i)
    returns (r: Result<NewUser, ErrorResponse>)
    ensures r.Err? <==> Validate(data, db).Err?
    ensures r.Err? ==> r.error == Validate(data, db).error
    ensures r.Ok? ==>
      && r.value.username == data.username
      && r.value.realName == data.realName.GetOr("")
      && r.value.blurb == data.blurb.GetOr("")
      && exists salt :: Password.IsGeneratedSalt(salt) &&
           r.value.password == Password.Serialized(Password.SaltyPassword(salt, argon2i(data.password, salt)))
  {
    var valid := Validate(data, db);
    if valid.Err? {
      return Err(valid.error);
    }
    var sp := Password.New(data.password, argon2i);
    var text := Password.Format(sp);
    assert sp == Password.SaltyPassword(sp.salt, argon2i(data.password, sp.salt));
    r := Ok(NewUser(data.username, text, data.realName.GetOr(""), data.blurb.GetOr("")));
  }

  // ------------------------------------------------------------- properties

  /** Each outcome of `validate` and exactly the conditions that produce it. */
  lemma ValidateOutcomes(data: UserData, db: Accounts)
    ensures Validate(data, db) == Err(DB_FAILURE) <==> db.queryFails
    ensures Validate(data, db) == Err(USERNAME_TAKEN) <==> !db.queryFails && data.username in db.usernames
    ensures Validate(data, db) == Err(PASSWORD_TOO_SHORT)
      <==> !db.queryFails && data.username !in db.usernames && Utf8Length(data.password) < MIN_PASSWORD_BYTES
    ensures Validate(data, db) == Ok(())
      <==> !db.queryFails && data.username !in db.usernames && Utf8Length(data.password) >= MIN_PASSWORD_BYTES
  {
  }


  /** A taken username is reported even when the password is also too short. */
  lemma UsernameCheckedBeforePassword(data: UserData, db: Accounts)
    requires !db.queryFails && data.username in db.usernames
    requires Utf8Length(data.password) < MIN_PASSWORD_BYTES
    ensures Validate(data, db) == Err(USERNAME_TAKEN)
  {
  }


  /**
   * The length is counted in UTF-8 bytes: four four-byte characters are
   * long enough, fifteen ASCII characters are not.
   */
  lemma PasswordLengthInBytes(db: Accounts, username: string)
    requires !db.queryFails && username !in db.usernames
    ensures Validate(UserData(username, "\U{1F511}\U{1F511}\U{1F511}\U{1F511}", None, None), db) == Ok(())
    ensures Validate(UserData(username, "abcdefghijklmno", None, None), db) == Err(PASSWORD_TOO_SHORT)
  {
    var keys := "\U{1F511}\U{1F511}\U{1F511}\U{1F511}";
    assert Utf8Length(keys[3..]) == 4;
    assert Utf8Length(keys[2..]) == 8;
    assert Utf8Length(keys[1..]) == 12;
    var ascii := "abcdefghijklmno";
    assert forall i :: 0 <= i < |ascii| ==> ascii[i] as int < 0x80;
  }
}
