/**
 * `SaltyPassword`: a password hashed with Argon2i under a random salt, its
 * text form `$argon2$<salt>$<hex>$`, and the parser that reads it back.
 *
 * Argon2i itself is a parameter, `argon2i`: any deterministic function from
 * (password, salt) to a hash of `HASH_LENGTH` bytes. The OS random number
 * generator is a nondeterministic choice.
 */
module Password {
  import opened Wrappers
  import opened Text
  import opened Hex

  /** `argon2rs::defaults::LENGTH`, the number of bytes Argon2i produces. */
  const HASH_LENGTH: nat := 32
  /** Four salt characters per hash byte: an alphanumeric character carries about a quarter of a byte's entropy. */
  const SALT_LENGTH: nat := HASH_LENGTH * 4
  /** The constant start of the text form; `argon2` is the only method. */
  const PREFIX: string := "$argon2$"

  type Hash = h: seq<uint8> | |h| == HASH_LENGTH witness seq(HASH_LENGTH, _ => 0)

  /** `argon2rs::argon2i_simple(password, salt)`. */
  type Argon2i = (string, string) -> Hash

  datatype SaltyPassword = SaltyPassword(salt: string, hash: Hash)

  /** The alphabet of `gen_ascii_chars`: `[A-Za-z0-9]`. */
  predicate IsSaltChar(c: char) {
    'A' <= c <= 'Z' || 'a' <= c <= 'z' || '0' <= c <= '9'
  }

  /** A salt as `new` draws it. */
  predicate IsGeneratedSalt(salt: string) {
    |salt| == SALT_LENGTH && forall i :: 0 <= i < |salt| ==> IsSaltChar(salt[i])
  }

  /** Symbol `i` of the 62-symbol alphabet, in `gen_ascii_chars`' order. */
  function SaltSymbol(i: nat): (c: char)
    requires i < 62
    ensures IsSaltChar(c)
  {
    if i < 26 then ('A' as int + i) as char
    else if i < 52 then ('a' as int + i - 26) as char
    else ('0' as int + i - 52) as char
  }

  /** `OsRng::new().gen_ascii_chars().take(SALT_LENGTH).collect()`: each symbol is an arbitrary choice. */
  method DrawSalt() returns (salt: string)
    ensures IsGeneratedSalt(salt)
  {
    salt := "";
    for n := 0 to SALT_LENGTH
      invariant |salt| == n
      invariant forall i :: 0 <= i < n ==> IsSaltChar(salt[i])
    {
      var pick: nat :| pick < 62;
      salt := salt + [SaltSymbol(pick)];
    }
  }

  /** `SaltyPassword::validate`: hash the candidate under the stored salt and compare. */
  function Validate(sp: SaltyPassword, password: string, argon2i: Argon2i): bool {
    sp.hash == argon2i(password, sp.salt)
  }

  /** `SaltyPassword::new`: a fresh salt, and the password hashed under it. */
  method New(password: string, argon2i: Argon2i) returns (sp: SaltyPassword)
    ensures IsGeneratedSalt(sp.salt)
    ensures sp.hash == argon2i(password, sp.salt)
    ensures Validate(sp, password, argon2i)
  {
    var salt := DrawSalt();
    sp := SaltyPassword(salt, argon2i(password, salt));
  }

  // ---------------------------------------------------------------- Display

  /** What `Display` writes: the salt, then each hash byte with `{:x}` (no zero padding). */
  function Serialized(sp: SaltyPassword): string {
    PREFIX + sp.salt + "$" + HexUnpadded(sp.hash) + "$"
  }

  /** The text form with every byte written as two digits, `{:02x}`. */
  function SerializedPadded(sp: SaltyPassword): string {
    PREFIX + sp.salt + "$" + HexPadded(sp.hash) + "$"
  }

  /** `impl Display for SaltyPassword`: the header, then the hash byte by byte, then `$`. */
  method Format(sp: SaltyPassword) returns (s: string)
    ensures s == Serialized(sp)
    ensures StartsWith(s, PREFIX) && EndsWith(s, "$")
  {
    s := PREFIX + sp.salt + "$";
    for i := 0 to HASH_LENGTH
      invariant s == PREFIX + sp.salt + "$" + HexUnpadded(sp.hash[..i])
    {
      assert sp.hash[..i + 1][..i] == sp.hash[..i];
      s := s + LowerHex(sp.hash[i]);
    }
    assert sp.hash[..HASH_LENGTH] == sp.hash;
    s := s + "$";
    assert s[..|PREFIX|] == PREFIX;
  }

  // ------------------------------------------------------------------ parse

  /** How the guard and the slice at the start of `parse` end. */
  datatype Frame = Unframed | SlicePanic | Framed(body: string)

  /**
   * The input must start with `$argon2$` and end with `$`; the body between
   * them is `field[8..len - 1]`, a slice that panics when `len - 1 < 8`.
   */
  function TrimFrame(field: string): Frame {
    if !(StartsWith(field, PREFIX) && EndsWith(field, "$")) then Unframed
    else if |field| - 1 < |PREFIX| then SlicePanic
    else Framed(field[|PREFIX|..|field| - 1])
  }

  /** The hash segment must be `2 * HASH_LENGTH` characters and every pair must decode. The salt is not checked. */
  function ParseSegments(salt: string, hashChars: string): Option<SaltyPassword> {
    if |hashChars| != HASH_LENGTH * 2 then None
    else match DecodePairs(hashChars)
      case None => None
      case Some(h) => Some(SaltyPassword(salt, h))
  }

  /** Split the body at its first `$`: the salt before, the hash segment after. */
  function ParseBody(body: string): Option<SaltyPassword> {
    match Find(body, '$')
    case None => None
    case Some(i) => ParseSegments(body[..i], body[i + 1..])
  }

  /** `SaltyPassword::parse` with the panicking input reported as unrecognised. */
  function Parse(field: string): Option<SaltyPassword> {
    match TrimFrame(field)
    case Framed(body) => ParseBody(body)
    case _ => None
  }

  datatype ParseOutcome = Parsed(sp: SaltyPassword) | Unrecognized | Panicked

  /** `SaltyPassword::parse` as written, panic included. */
  function ParseAsWritten(field: string): ParseOutcome {
    match TrimFrame(field)
    case Unframed => Unrecognized
    case SlicePanic => Panicked
    case Framed(body) =>
      match ParseBody(body)
      case Some(sp) => Parsed(sp)
      case None => Unrecognized
  }

  /**
   * `SaltyPassword::parse`: trim the constant frame, split at the first `$`,
   * then fill the hash array pair by pair, giving up at the first pair that
   * does not decode.
   */
  method ParseField(field: string) returns (r: Option<SaltyPassword>)
    ensures r == Parse(field)
  {
    if !(StartsWith(field, PREFIX) && EndsWith(field, "$")) {
      return None;
    }
    if |field| - 1 < |PREFIX| {
      // the source slices [8..7] here and panics
      return None;
    }
    var body := field[|PREFIX|..|field| - 1];
    var split := Find(body, '$');
    if split.None? {
      return None;
    }
    var salt, hashChars := body[..split.value], body[split.value..];
    hashChars := hashChars[1..];
    assert hashChars == body[split.value + 1..];
    if |hashChars| != HASH_LENGTH * 2 {
      return None;
    }
    var hash := new uint8[HASH_LENGTH](_ => 0);
    for index := 0 to HASH_LENGTH
      invariant forall k :: 0 <= k < index ==> FromStrRadix16(Pair(hashChars, k)) == Some(hash[k])
    {
      var begin := index * 2;
      var end := begin + 2;
      var digit := FromStrRadix16(hashChars[begin..end]);
      if digit.None? {
        assert !AllPairsDecode(hashChars) by {
          assert Pair(hashChars, index) == hashChars[begin..end];
        }
        return None;
      }
      hash[index] := digit.value;
    }
    assert AllPairsDecode(hashChars);
    assert DecodePairs(hashChars).value == hash[..];
    return Some(SaltyPassword(salt, hash[..]));
  }

  // ------------------------------------------------------------- properties

  /** A framed input with a `$`-free salt parses exactly as its two segments do. */
  lemma ParseFramed(salt: string, hashChars: string)
    requires '$' !in salt
    ensures Parse(PREFIX + salt + "$" + hashChars + "$") == ParseSegments(salt, hashChars)
  {
    var field := PREFIX + salt + "$" + hashChars + "$";
    var body := salt + "$" + hashChars;
    assert field[..|PREFIX|] == PREFIX;
    assert field[|field| - 1..] == "$";
    assert field[|PREFIX|..|field| - 1] == body;
    assert body[..|salt|] == salt;
    FindFirst(body, '$', |salt|);
    assert body[|salt| + 1..] == hashChars;
  }

  /**
   * What a successful parse implies about its input: the frame, a salt
   * without `$` (of any length and content, possibly empty), and a hash
   * segment of `2 * HASH_LENGTH` characters whose pair `k` decodes to byte `k`.
   */
  lemma ParseShape(field: string, sp: SaltyPassword)
    requires Parse(field) == Some(sp)
    ensures StartsWith(field, PREFIX) && EndsWith(field, "$")
    ensures '$' !in sp.salt
    ensures
      var hashChars := field[|PREFIX| + |sp.salt| + 1..|field| - 1];
      && field == PREFIX + sp.salt + "$" + hashChars + "$"
      && |hashChars| == 2 * HASH_LENGTH
      && forall k :: 0 <= k < HASH_LENGTH ==> FromStrRadix16(Pair(hashChars, k)) == Some(sp.hash[k])
  {
  }


  /** Any salt without `$` and any hash segment whose pairs all decode are accepted. */
  lemma ParseAccepts(salt: string, hashChars: string)
    requires '$' !in salt
    requires |hashChars| == 2 * HASH_LENGTH && AllPairsDecode(hashChars)
    ensures Parse(PREFIX + salt + "$" + hashChars + "$").Some?
    ensures Parse(PREFIX + salt + "$" + hashChars + "$").value.salt == salt
  {
    ParseFramed(salt, hashChars);
  }

  /**
   * The round trip of the text form as written: it gives the password back
   * exactly when every hash byte is at least 0x10, and is unrecognised otherwise.
   */
  lemma ParseSerialized(sp: SaltyPassword)
    requires '$' !in sp.salt
    ensures Parse(Serialized(sp)) ==
      if forall k :: 0 <= k < HASH_LENGTH ==> sp.hash[k] >= 16 then Some(sp) else None
  {
    ParseFramed(sp.salt, HexUnpadded(sp.hash));
    HexUnpaddedLength(sp.hash);
    if forall k :: 0 <= k < HASH_LENGTH ==> sp.hash[k] >= 16 {
      HexUnpaddedIsPadded(sp.hash);
      DecodeHexPadded(sp.hash);
    }
  }

  /** A hash of zero bytes is written as 32 characters, half of what `parse` demands. */
  lemma ZeroHashDoesNotRoundTrip(salt: string)
    requires '$' !in salt
    ensures Parse(Serialized(SaltyPassword(salt, seq(HASH_LENGTH, _ => 0)))) == None
  {
    var sp := SaltyPassword(salt, seq(HASH_LENGTH, _ => 0));
    ParseSerialized(sp);
    assert sp.hash[0] < 16;
  }

  /** The round trip of the padded text form holds for every hash. */
  lemma ParseSerializedPadded(sp: SaltyPassword)
    requires '$' !in sp.salt
    ensures Parse(SerializedPadded(sp)) == Some(sp)
  {
    ParseFramed(sp.salt, HexPadded(sp.hash));
    DecodeHexPadded(sp.hash);
  }

  /** A generated salt never contains the separator. */
  lemma GeneratedSaltHasNoSeparator(salt: string)
    requires IsGeneratedSalt(salt)
    ensures '$' !in salt
  {
  }


  /**
   * From `new` to storage and back: the padded form always parses to a
   * password that accepts the original plaintext; the form `Display` writes
   * does so only when no hash byte is below 0x10, and is unrecognised otherwise.
   */
  lemma StoredPasswordRoundTrip(password: string, salt: string, argon2i: Argon2i)
    requires IsGeneratedSalt(salt)
    ensures
      var sp := SaltyPassword(salt, argon2i(password, salt));
      && Parse(SerializedPadded(sp)).Some?
      && Validate(Parse(SerializedPadded(sp)).value, password, argon2i)
      && (Parse(Serialized(sp)).Some? <==> forall k :: 0 <= k < HASH_LENGTH ==> sp.hash[k] >= 16)
      && (Parse(Serialized(sp)).Some? ==> Validate(Parse(Serialized(sp)).value, password, argon2i))
  {
    var sp := SaltyPassword(salt, argon2i(password, salt));
    GeneratedSaltHasNoSeparator(salt);
    ParseSerializedPadded(sp);
    ParseSerialized(sp);
  }

  /** The input `$argon2$`, and only it, passes the guard and panics at the slice. */
  lemma ParseAsWrittenPanics(field: string)
    ensures ParseAsWritten(field) == Panicked <==> field == PREFIX
  {
  }


  /** Everywhere else the code as written and `Parse` agree. */
  lemma ParseAsWrittenAgrees(field: string)
    requires field != PREFIX
    ensures ParseAsWritten(field) == match Parse(field)
      case Some(sp) => Parsed(sp)
      case None => Unrecognized
  {
  }

}
