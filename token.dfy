/**
 * The `TokenAuth` request guard: a request authenticates with exactly one
 * header `Authorization: Token <key>`, whose key must name a row of
 * `auth_tokens` whose user exists.
 *
 * The database is a read-only snapshot: whether a pooled connection can be
 * checked out, the rows of both tables in storage order, and, per table, an
 * optional failure of the query other than "not found".
 */
module TokenGuard {
  import opened Wrappers
  import opened Text
  import opened Records

  datatype Status = Unauthorized | Forbidden | InternalServerError

  datatype TokenAuth = TokenAuth(user: User)

  /** Rocket's request `Outcome`, as far as the guard uses it. */
  datatype Outcome = Success(auth: TokenAuth) | Failure(status: Status, message: string)

  /** A diesel query error: `NotFound`, or any other error with its text. */
  datatype QueryError = NotFound | DatabaseError(text: string)

  datatype Store = Store(
    pool: Result<(), string>,
    tokens: seq<Token>,
    users: seq<User>,
    tokenQueryFault: Option<string>,
    userQueryFault: Option<string>)

  const TOKEN_PREFIX: string := "Token "
  const HEADER_ONCE: string := "`Authorization` header must appear exactly once"
  const PREFIX_REQUIRED: string := "`Authorization` header must begin with the string 'Token '"
  const TOKEN_INVALID: string := "Token presented was not valid"

  /** `e.to_string()`; diesel writes `NotFound` for a missing row. */
  function ErrorText(e: QueryError): string {
    match e
    case NotFound => "NotFound"
    case DatabaseError(text) => text
  }

  /** The row `filter(key.eq(k)).first()` returns: the first one whose key equals `k`. */
  function FirstWithKey(tokens: seq<Token>, key: string): (r: Option<nat>)
    ensures r.None? <==> forall i :: 0 <= i < |tokens| ==> tokens[i].key != key
    ensures r.Some? ==> r.value < |tokens| && tokens[r.value].key == key
    ensures r.Some? ==> forall j :: 0 <= j < r.value ==> tokens[j].key != key
  {
    if tokens == [] then None
    else if tokens[0].key == key then Some(0)
    else match FirstWithKey(tokens[1..], key)
      case None => None
      case Some(i) => Some(i + 1)
  }

  /** The row `users.find(id).first()` returns. */
  function FirstWithId(users: seq<User>, id: int32): (r: Option<nat>)
    ensures r.None? <==> forall i :: 0 <= i < |users| ==> users[i].id != id
    ensures r.Some? ==> r.value < |users| && users[r.value].id == id
  {
    if users == [] then None
    else if users[0].id == id then Some(0)
    else match FirstWithId(users[1..], id)
      case None => None
      case Some(i) => Some(i + 1)
  }

  /** The token query. */
  function FindToken(store: Store, key: string): Result<Token, QueryError> {
    if store.tokenQueryFault.Some? then Err(DatabaseError(store.tokenQueryFault.value))
    else match FirstWithKey(store.tokens, key)
      case None => Err(NotFound)
      case Some(i) => Ok(store.tokens[i])
  }

  /** The user query. */
  function FindUser(store: Store, id: int32): Result<User, QueryError> {
    if store.userQueryFault.Some? then Err(DatabaseError(store.userQueryFault.value))
    else match FirstWithId(store.users, id)
      case None => Err(NotFound)
      case Some(i) => Ok(store.users[i])
  }

  /** `TokenAuth::from_request`. */
  function Authenticate(headers: seq<string>, store: Store): Outcome {
    if |headers| != 1 then Failure(Unauthorized, HEADER_ONCE)
    else if !StartsWith(headers[0], TOKEN_PREFIX) then Failure(Unauthorized, PREFIX_REQUIRED)
    else
      var incomingKey := headers[0][|TOKEN_PREFIX|..];
      match store.pool
      case Err(e) => Failure(InternalServerError, e)
      case Ok(_) =>
        match FindToken(store, incomingKey)
        case Err(NotFound) => Failure(Forbidden, TOKEN_INVALID)
        case Err(e) => Failure(InternalServerError, ErrorText(e))
        case Ok(token) =>
          match FindUser(store, token.userId)
          case Err(e) => Failure(InternalServerError, ErrorText(e))
          case Ok(user) => Success(TokenAuth(user))
  }

  /** The key is what follows the prefix. */
  function KeyOf(header: string): string
    requires StartsWith(header, TOKEN_PREFIX)
  {
    header[|TOKEN_PREFIX|..]
  }

  /** A header with the prefix and nothing more reaches the store. */
  predicate WellFormed(headers: seq<string>) {
    |headers| == 1 && StartsWith(headers[0], TOKEN_PREFIX)
  }

  // ------------------------------------------------------------- properties

  /** Zero or several headers fail before the store is consulted. */
  lemma HeaderCountChecked(headers: seq<string>, store: Store, other: Store)
    requires |headers| != 1
    ensures Authenticate(headers, store) == Authenticate(headers, other) == Failure(Unauthorized, HEADER_ONCE)
  {
  }


  /** A single header without the prefix fails before the store is consulted. */
  lemma PrefixChecked(header: string, store: Store, other: Store)
    requires !StartsWith(header, TOKEN_PREFIX)
    ensures Authenticate([header], store) == Authenticate([header], other) == Failure(Unauthorized, PREFIX_REQUIRED)
  {
  }


  /** 401 is the answer exactly to malformed headers. */
  lemma UnauthorizedIff(headers: seq<string>, store: Store)
    ensures Authenticate(headers, store).Failure? && Authenticate(headers, store).status == Unauthorized
      <==> !WellFormed(headers)
  {
  }


  /** 403 is the answer exactly when the query ran and no row has the presented key. */
  lemma ForbiddenIff(headers: seq<string>, store: Store)
    ensures Authenticate(headers, store).Failure? && Authenticate(headers, store).status == Forbidden
      <==> && WellFormed(headers)
           && store.pool.Ok?
           && store.tokenQueryFault.None?
           && forall t :: t in store.tokens ==> t.key != KeyOf(headers[0])
    ensures Authenticate(headers, store).Failure? && Authenticate(headers, store).status == Forbidden
      ==> Authenticate(headers, store).message == TOKEN_INVALID
  {
  }


  /**
   * A success needs one prefixed header, a token row whose key equals the
   * rest of the header exactly, and a user row with that token's user id,
   * which is the user returned.
   */
  lemma SuccessMeans(headers: seq<string>, store: Store)
    requires Authenticate(headers, store).Success?
    ensures WellFormed(headers)
    ensures store.pool.Ok? && store.tokenQueryFault.None? && store.userQueryFault.None?
    ensures
      var user := Authenticate(headers, store).auth.user;
      && user in store.users
      && exists t :: t in store.tokens && t.key == KeyOf(headers[0]) && t.userId == user.id
  {
  }


  /** Conversely, a present key whose tokens all have their user authenticates. */
  lemma SuccessWhen(key: string, store: Store)
    requires store.pool.Ok? && store.tokenQueryFault.None? && store.userQueryFault.None?
    requires exists t :: t in store.tokens && t.key == key
    requires forall t :: t in store.tokens && t.key == key ==> exists u :: u in store.users && u.id == t.userId
    ensures Authenticate([TOKEN_PREFIX + key], store).Success?
  {
  }


  /**
   * A token whose user is missing is a server error, not a rejected
   * credential: the store is inconsistent.
   */
  lemma OrphanTokenIsServerError(key: string, store: Store)
    requires store.pool.Ok? && store.tokenQueryFault.None?
    requires exists t :: t in store.tokens && t.key == key
    requires forall t, u :: t in store.tokens && t.key == key && u in store.users ==> u.id != t.userId
    ensures Authenticate([TOKEN_PREFIX + key], store).Failure?
    ensures Authenticate([TOKEN_PREFIX + key], store).status == InternalServerError
  {
  }


  /** Two token tables that agree on keys and user ids, row by row. */
  predicate SameKeysAndOwners(tokens: seq<Token>, other: seq<Token>) {
    |tokens| == |other| &&
    forall i :: 0 <= i < |tokens| ==> tokens[i].key == other[i].key && tokens[i].userId == other[i].userId
  }

  lemma FirstWithKeyIgnoresOtherFields(tokens: seq<Token>, other: seq<Token>, key: string)
    requires SameKeysAndOwners(tokens, other)
    ensures FirstWithKey(tokens, key) == FirstWithKey(other, key)
  {
  }


  /**
   * The outcome does not depend on the tokens' issue timestamps (there is no
   * expiry) nor on their ids: only on their keys and owners.
   */
  lemma OutcomeIgnoresTimestamps(headers: seq<string>, store: Store, tokens: seq<Token>)
    requires SameKeysAndOwners(store.tokens, tokens)
    ensures Authenticate(headers, store) == Authenticate(headers, store.(tokens := tokens))
  {
  }


  /** The key is compared verbatim: no trimming and no change of case. */
  lemma KeyComparedVerbatim(user: User, stamp: int)
    requires user.id == 7
    ensures
      var store := Store(Ok(()), [Token(1, 7, stamp, "abc")], [user], None, None);
      && Authenticate(["Token abc"], store) == Success(TokenAuth(user))
      && Authenticate(["Token  abc"], store) == Failure(Forbidden, TOKEN_INVALID)
      && Authenticate(["Token ABC"], store) == Failure(Forbidden, TOKEN_INVALID)
      && Authenticate(["token abc"], store) == Failure(Unauthorized, PREFIX_REQUIRED)
      && Authenticate(["Token abc", "Token abc"], store) == Failure(Unauthorized, HEADER_ONCE)
  {
    var store := Store(Ok(()), [Token(1, 7, stamp, "abc")], [user], None, None);
    assert "Token abc"[..6] == TOKEN_PREFIX && "Token abc"[6..] == "abc";
    assert "Token  abc"[..6] == TOKEN_PREFIX && "Token  abc"[6..] == " abc";
    assert "Token ABC"[..6] == TOKEN_PREFIX && "Token ABC"[6..] == "ABC";
    assert "token abc"[0] != TOKEN_PREFIX[0];
  }
}
