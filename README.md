# sonar_api authentication core, in Dafny

This project models the authentication core of the `sonar_api` web backend:

- **`SaltyPassword`** (`src/auth/pw.rs`). A password is hashed with Argon2i under a random
  alphanumeric salt of `SALT_LENGTH = 4 * HASH_LENGTH = 128` characters. Its text form is
  `$argon2$<salt>$<hex>$`, and `parse` reads that form back. `validate` re-hashes a
  candidate password and compares the result.
- **The `TokenAuth` request guard** (`src/auth/token.rs`). A request authenticates with exactly
  one header `Authorization: Token <key>`. The key must name a row of `auth_tokens`, and that
  row's user must exist. The answer is the user, a 401, a 403 or a 500.
- **Registration validation** (`src/views/user_account.rs`). `validate` checks three things in
  order: the username-existence query, a duplicate username, and a password shorter than 16
  bytes. `into_new_user` then builds the row to insert.

Modules, one per file:

- `Wrappers`: `Option` and `Result`.
- `Text`: `starts_with`, `ends_with`, `find` and the UTF-8 byte length.
- `Hex`: `{:x}`, `{:02x}` and `u8::from_str_radix(_, 16)`.
- `Records`: the `User`, `Token` and `NewUser` rows.
- `Password`, `TokenGuard` and `UserAccount`: the three parts of the core described above.

How the model represents the source:

- **Argon2i** is a parameter `argon2i: Argon2i`. It can be any deterministic function from
  (password, salt) to a 32-byte hash.
- **The OS random number generator** is a nondeterministic choice of one of the 62 symbols for
  each salt character (`Password.DrawSalt`).
- **`parse` and `fmt`** update variables in loops, so they are methods
  (`Password.ParseField`, `Password.Format`). Each is proved equal to a specification function
  (`Password.Parse`, `Password.Serialized`), and the lemmas are stated about those functions.
- **The guard and the validator** are pure functions of their inputs:
  - The guard reads a snapshot of the database: whether a pooled connection can be checked out,
    the rows of `auth_tokens` and `users` in storage order, and an optional failure of each
    query other than "not found".
  - The validator reads the set of taken usernames and a flag saying whether the query fails.
  - Being functions of a snapshot, neither can write to the store.
- **Strings** are sequences of Unicode scalar values.
  - `parse` checks byte lengths and char boundaries. It gives the same outcomes on characters:
    a non-ASCII character in the hash segment makes the input unrecognised either way.
  - The registration check `password.len() < 16` counts UTF-8 bytes, so the model counts them
    too (`Text.Utf8Length`).

Where the code and the design description of the system disagree, the model follows the code:

- The description speaks of token issuance and invalidation (`createFor`, `invalidateFor`).
  The code contains neither.
- The description says the text form round-trips. The code writes each hash byte without zero
  padding, so the round-trip fails for most hashes (see Findings).
- The description requires exactly one further `$`. The code splits at the first `$` and does
  not check the salt. A hash segment that contains another `$` is still rejected, because `$`
  is not a hex digit.

## Model

| member | source | states |
|---|---|---|
| `Password.DrawSalt` | src/auth/pw.rs:40-44 | the salt has exactly `SALT_LENGTH` characters, all from `[A-Za-z0-9]` |
| `Password.New` | src/auth/pw.rs:39-49 | the new password has a generated salt, its hash is `argon2i(password, salt)`, and it validates the password it was made from |
| `Password.GeneratedSaltHasNoSeparator` | src/auth/pw.rs:40-44 | a generated salt never contains `$` |
| `Password.StoredPasswordRoundTrip` | src/auth/pw.rs:90-92 | the padded text form of a new password always parses back to a password that validates the original plaintext; the form `Display` writes parses iff no hash byte is below 0x10, and then it also validates the plaintext |
| `Password.Format` | src/auth/pw.rs:95-107 | the text written is `$argon2$` + salt + `$` + each byte in unpadded lower-case hex + `$`; it starts with `$argon2$` and ends with `$` |
| `Password.ParseField` | src/auth/pw.rs:51-83 | the loop over the hash pairs, with its early returns, computes exactly `Parse` (the source panics on `$argon2$`; here that input gives `None`) |
| `Password.ParseShape` | src/auth/pw.rs:53-77 | a successful parse implies the `$argon2$` prefix, the `$` suffix, a salt without `$`, and a hash segment of `2 * HASH_LENGTH` characters whose pair `k` decodes to hash byte `k` |
| `Password.ParseAccepts` | src/auth/pw.rs:57-82 | every `$`-free salt is accepted, of any length or content and possibly empty, provided the hash segment has `2 * HASH_LENGTH` characters that decode pair by pair |
| `Password.ParseFramed` | src/auth/pw.rs:57-68 | after the frame is removed, the input splits at the first `$`: the salt is before it and the hash segment is after it |
| `Password.ParseSerialized` | src/auth/pw.rs:102-104 | with a `$`-free salt, `parse` of the `Display` text gives the same salt and hash iff every hash byte is at least 0x10, and `None` otherwise |
| `Password.ZeroHashDoesNotRoundTrip` | src/auth/pw.rs:103 | an all-zero hash is written as 32 hex characters, and `parse` rejects it |
| `Password.ParseSerializedPadded` | src/auth/pw.rs:66-77 | with two-digit bytes, the text form parses back to the same salt and hash for every hash |
| `Password.ParseAsWrittenPanics` | src/auth/pw.rs:54-57 | the input `$argon2$` passes the prefix/suffix guard and panics at the slice `[8..7]`, and it is the only input that does |
| `Password.ParseAsWrittenAgrees` | src/auth/pw.rs:51-83 | on every other input, the code as written and `Parse` give the same answer |
| `Hex.FromStrRadix16` | src/auth/pw.rs:76 | a two-character slice decodes iff its second character is a hex digit and its first is a hex digit or `+` |
| `Hex.FromStrRadix16Examples` | src/auth/pw.rs:76 | `+f` decodes to 15; `AB` and `ab` both decode to 171; `-1` and `++` are rejected |
| `Hex.LowerDigit` | src/auth/pw.rs:103 | the digit written for a value below 16 is a lower-case hex digit that reads back as that value |
| `Hex.LowerHexPadded` | src/auth/pw.rs:103 | the two-digit form of a byte decodes back to that byte |
| `Hex.LowerHexPaddedFromSixteen` | src/auth/pw.rs:103 | `{:x}` and `{:02x}` write the same text for a byte iff the byte is at least 0x10 |
| `Hex.HexUnpaddedLength` | src/auth/pw.rs:102-104 | the unpadded hex of a hash is at most two characters per byte, and exactly two per byte iff no byte is below 0x10 |
| `Hex.HexUnpaddedIsPadded` | src/auth/pw.rs:102-104 | when no byte is below 0x10, the unpadded and the padded hex are equal |
| `Hex.HexPaddedPairs` | src/auth/pw.rs:102-104 | pair `k` of the padded hex is the two-digit form of byte `k` |
| `Hex.DecodeHexPadded` | src/auth/pw.rs:69-77 | decoding the padded hex pair by pair gives the bytes back |
| `Text.Find` | src/auth/pw.rs:60 | `find('$')` is `None` iff there is no `$`; otherwise it is the position of the first `$` |
| `Text.FindFirst` | src/auth/pw.rs:60-61 | `find` answers the position of the first occurrence |
| `TokenGuard.FirstWithKey` | src/auth/token.rs:58 | the token query finds the first row whose key equals the presented key, and finds none iff no row has that key |
| `TokenGuard.FirstWithId` | src/auth/token.rs:82 | the user query finds a row with the token's user id, and finds none iff no row has that id |
| `TokenGuard.HeaderCountChecked` | src/auth/token.rs:28-36 | zero or several `Authorization` headers give 401 "`Authorization` header must appear exactly once", whatever the store holds |
| `TokenGuard.PrefixChecked` | src/auth/token.rs:38-47 | a single header without the `Token ` prefix gives 401 with the message naming the prefix, whatever the store holds |
| `TokenGuard.UnauthorizedIff` | src/auth/token.rs:28-47 | the answer is 401 iff the headers are not exactly one header with the `Token ` prefix |
| `TokenGuard.ForbiddenIff` | src/auth/token.rs:58-71 | the answer is 403 "Token presented was not valid" iff the headers are well formed, a connection was checked out, the token query ran, and no row has the presented key |
| `TokenGuard.SuccessMeans` | src/auth/token.rs:48-89 | a success implies one prefixed header, no store failure, a token row whose key equals the header minus its prefix, and a returned user from the table whose id is that token's user id |
| `TokenGuard.SuccessWhen` | src/auth/token.rs:48-89 | a present key whose token rows all have their user authenticates, when the store does not fail |
| `TokenGuard.OrphanTokenIsServerError` | src/auth/token.rs:82-85 | a found token whose user is missing gives 500, never 403 |
| `TokenGuard.FirstWithKeyIgnoresOtherFields` | src/auth/token.rs:58 | the token lookup depends only on the rows' keys |
| `TokenGuard.OutcomeIgnoresTimestamps` | src/auth/token.rs:74-78 | the outcome does not depend on the tokens' timestamps or ids (there is no expiry) |
| `TokenGuard.KeyComparedVerbatim` | src/auth/token.rs:48-58 | exactly the six characters `Token ` are removed and the rest is compared by equality: `Token  abc` (two spaces) and `Token ABC` do not match the key `abc` |
| `Text.Utf8Length` | src/views/user_account.rs:54 | `len()` counts UTF-8 bytes: at least one and at most four per character, and exactly one per character iff the text is ASCII |
| `UserAccount.ValidateOutcomes` | src/views/user_account.rs:38-62 | gives each result of `validate` and exactly when it happens. A failed query gives 500 "Failed to connect to backing database". Otherwise a taken username gives 400 "Username already in use; pick another". Otherwise a password under 16 bytes gives 400 "Password too short". Otherwise the result is `Ok(())` |
| `UserAccount.UsernameCheckedBeforePassword` | src/views/user_account.rs:47-59 | a taken username is reported even when the password is also too short |
| `UserAccount.PasswordLengthInBytes` | src/views/user_account.rs:54-59 | four 4-byte characters (16 bytes) are long enough; fifteen ASCII characters are too short |
| `UserAccount.IntoNewUser` | src/views/user_account.rs:64-73 | returns the validation error unchanged. Otherwise it returns a row with the same username, the missing real name and blurb as empty strings, and as password the text form of the password hashed under a generated salt |

## Left out

- Argon2i (RFC 9106) is abstract: a parameter of type `Argon2i`. Its resistance to collisions is not modelled, so the model cannot show that a wrong password fails `validate`.
- The OS random number generator is a nondeterministic choice. Its unavailability, which makes `new` panic, is not modelled.
- The plain `==` at `src/auth/pw.rs:91` is modelled. Its timing, and the lack of a constant-time comparison, are outside what Dafny can state.
- `TokenGuard`'s database is a snapshot, so the model has no connection pool, no checkout timeout and no concurrency. `.first()` without an ordering is modelled as the first row in storage order.
- The guard passes the text of a database error through unchanged. For a missing user row, the text is diesel's `NotFound`, which is part of the diesel crate and not of this model.
- The code contains no token issuance, replacement, invalidation or key generation, so none is modelled.
- Rocket's `Responder` wrappers (`src/status.rs`), the global pool (`src/db.rs`), routing (`src/main.rs`, `src/views.rs`, `src/views/mod.rs`) and `create_user` are not part of this model. They are framework plumbing and database I/O, and `create_user` ends in `unimplemented!()`.
- `NewUser::insert` (database I/O) is not part of this model. `User::validate` and `User::get_validated` are `unimplemented!()` in the source.
- Rust's char-boundary checks in `parse` are always true on a sequence of characters. They are left out because the outcome is the same (see above).

## Findings

| source | as written | input that shows it | evidently intended | confidence | as-written member | corrected member |
|---|---|---|---|---|---|---|
| src/auth/pw.rs:54-57 | the guard accepts `$argon2$`, then the slice `field[8..7]` panics | `$argon2$` | reject it with `None`, like every other malformed field | high; not executed | `Password.ParseAsWritten`, `Password.ParseAsWrittenPanics` | `Password.ParseField`, `Password.Parse`, `Password.ParseAsWrittenAgrees` |
| src/auth/pw.rs:102-104 | each hash byte is written with `{:x}`, without zero padding, but `parse` demands `2 * HASH_LENGTH` characters (line 66) | any hash with a byte below 0x10, e.g. 32 zero bytes (for a random hash this happens with probability about 0.87) | write each byte with `{:02x}` so that the text form round-trips | high; not executed | `Password.Serialized`, `Password.ParseSerialized`, `Password.ZeroHashDoesNotRoundTrip` | `Password.SerializedPadded`, `Password.ParseSerializedPadded` |

`UserAccount.IntoNewUser` stores the text that `Display` writes, as the code does.
`Password.StoredPasswordRoundTrip` states what the second finding means for a stored password.
