/**
 * Account checks of internal/auth/auth.go: the ordered validation of a
 * registration, and the error shapes of login and public-key lookup.
 *
 * The SQLite table becomes a map from username to record; bcrypt hashing
 * and comparison are opaque: the hashing outcome and the comparison are
 * parameters, as are database faults other than a missing row.
 */
module Auth {
  import opened Wrappers
  import opened Bytes
  import Hex

  /** A row of the `users` table; a NULL public key is None. */
  datatype UserRecord = UserRecord(hashedPassword: seq<byte>, publicKey: Option<seq<byte>>)

  type UserTable = map<string, UserRecord>

  const EmptyCredentials := "username and password cannot be empty"
  const PasswordTooShort := "password must be at least 6 characters"
  const BadPublicKey := "invalid public key format"
  const UsernameTaken := "username already exists"
  const BadCredentials := "invalid username or password"
  const UserNotFound := "user not found"
  const NoPublicKey := "user has no public key"

  /** Fewest bytes a password may have. */
  const MinPasswordBytes := 6

  /**
   * The key stored for a registration's hex string: NULL for the empty
   * string, the decoded bytes for valid hex, None (an error) otherwise.
   */
  function StoredKey(publicKeyHex: string): (r: Option<Option<seq<byte>>>)
    ensures publicKeyHex == "" ==> r == Some(None)
    ensures publicKeyHex != "" ==> (r.Some? <==> Hex.Decode(publicKeyHex).Some?)
    ensures publicKeyHex != "" && r.Some? ==> r.value == Some(Hex.Decode(publicKeyHex).value) && |r.value.value| > 0
  {
    if publicKeyHex == "" then Some(None)
    else
      match Hex.Decode(publicKeyHex)
      case None => None
      case Some(key) => Some(Some(key))
  }

  /**
   * `RegisterNewUser` (auth.go:46-78). The checks run in order: both fields
   * non-empty, the password at least 6 bytes long, hashing succeeds (its
   * error is passed on), the public key is empty or valid hex, the insert
   * succeeds. `hashed` is the outcome of bcrypt on this password;
   * `insertFault` a database failure other than a duplicate username. Any
   * insert failure reads "username already exists".
   */
  function RegisterNewUser(users: UserTable, username: string, password: string, publicKeyHex: string,
                           hashed: Result<seq<byte>, string>, insertFault: bool): (r: Result<UserTable, string>)
    ensures username == "" || password == "" ==> r == Failure(EmptyCredentials)
    ensures username != "" && password != "" && ByteLen(password) < MinPasswordBytes ==> r == Failure(PasswordTooShort)
    ensures r.Success? <==>
      && username != "" && ByteLen(password) >= MinPasswordBytes
      && hashed.Success? && StoredKey(publicKeyHex).Some?
      && username !in users && !insertFault
    ensures r.Success? ==> r.value == users[username := UserRecord(hashed.value, StoredKey(publicKeyHex).value)]
    ensures username != "" && password != "" && ByteLen(password) >= MinPasswordBytes && hashed.Failure? ==>
      r == Failure(hashed.error)
    ensures username != "" && password != "" && ByteLen(password) >= MinPasswordBytes && hashed.Success? && StoredKey(publicKeyHex).None? ==>
      r == Failure(BadPublicKey)
    ensures r.Failure? && username != "" && ByteLen(password) >= MinPasswordBytes && hashed.Success? && StoredKey(publicKeyHex).Some? ==>
      r.error == UsernameTaken
  {
    if username == "" || password == "" then Failure(EmptyCredentials)
    else if ByteLen(password) < MinPasswordBytes then Failure(PasswordTooShort)
    else
      match hashed
      case Failure(why) => Failure(why)
      case Success(hash) =>
        match StoredKey(publicKeyHex)
        case None => Failure(BadPublicKey)
        case Some(key) =>
          if username in users || insertFault then Failure(UsernameTaken)
          else Success(users[username := UserRecord(hash, key)])
  }

  /**
   * `VerifyUser` (auth.go:81-99). `matches` is bcrypt's comparison of a
   * stored hash with a password; `queryFault` a database error other than a
   * missing row, which is passed on unchanged.
   */
  function VerifyUser(users: UserTable, username: string, password: string,
                      matches: (seq<byte>, string) -> bool, queryFault: Option<string>): (r: Outcome<string>)
    ensures queryFault.Some? ==> r == Fail(queryFault.value)
    ensures queryFault.None? ==> (r.Pass? <==> username in users && matches(users[username].hashedPassword, password))
    ensures queryFault.None? && r.Fail? ==> r.error == BadCredentials
  {
    if queryFault.Some? then Fail(queryFault.value)
    else if username !in users then Fail(BadCredentials)
    else if !matches(users[username].hashedPassword, password) then Fail(BadCredentials)
    else Pass
  }

  /**
   * An unknown user and a known user with a wrong password get the very
   * same answer, so a caller cannot probe which usernames exist.
   */
  lemma UnknownUserLooksLikeWrongPassword(users: UserTable, unknown: string, known: string, password: string,
                                          matches: (seq<byte>, string) -> bool)
    requires unknown !in users && known in users && !matches(users[known].hashedPassword, password)
    ensures VerifyUser(users, unknown, password, matches, None) == VerifyUser(users, known, password, matches, None)
  {
  }

  /**
   * `GetUserPublicKey` (auth.go:161-185): an unknown user is not found; a
   * NULL or empty stored key is "no public key"; otherwise the stored bytes.
   */
  function GetUserPublicKey(users: UserTable, username: string): (r: Result<seq<byte>, string>)
    ensures r.Success? ==> username in users && users[username].publicKey == Some(r.value) && |r.value| > 0
    ensures r == Failure(UserNotFound) <==> username !in users
    ensures username in users && (users[username].publicKey == None || users[username].publicKey == Some([])) ==>
      r == Failure(NoPublicKey)
    ensures username in users && users[username].publicKey.Some? && |users[username].publicKey.value| > 0 ==>
      r == Success(users[username].publicKey.value)
  {
    if username !in users then Failure(UserNotFound)
    else
      match users[username].publicKey
      case None => Failure(NoPublicKey)
      case Some(key) => if |key| == 0 then Failure(NoPublicKey) else Success(key)
  }

  /** Every stored key is NULL or non-empty. */
  predicate KeysNonEmpty(users: UserTable) {
    forall u :: u in users ==> users[u].publicKey != Some([])
  }

  /** Registration never stores an empty key. */
  lemma RegisterKeepsKeysNonEmpty(users: UserTable, username: string, password: string, publicKeyHex: string,
                                  hashed: Result<seq<byte>, string>, insertFault: bool)
    requires KeysNonEmpty(users)
    requires RegisterNewUser(users, username, password, publicKeyHex, hashed, insertFault).Success?
    ensures KeysNonEmpty(RegisterNewUser(users, username, password, publicKeyHex, hashed, insertFault).value)
  {
  }

  /**
   * After a successful registration the user can log in with the password
   * the stored hash matches, and the key lookup returns the decoded key, or
   * "no public key" when none was given.
   */
  lemma RegisterThenLookUp(users: UserTable, username: string, password: string, publicKeyHex: string,
                           hash: seq<byte>, matches: (seq<byte>, string) -> bool, attempt: string)
    requires RegisterNewUser(users, username, password, publicKeyHex, Success(hash), false).Success?
    ensures var t := RegisterNewUser(users, username, password, publicKeyHex, Success(hash), false).value;
      && (VerifyUser(t, username, attempt, matches, None).Pass? <==> matches(hash, attempt))
      && (publicKeyHex == "" ==> GetUserPublicKey(t, username) == Failure(NoPublicKey))
      && (publicKeyHex != "" ==> GetUserPublicKey(t, username) == Success(Hex.Decode(publicKeyHex).value))
  {
  }

  /**
   * The length rule counts bytes, not characters: five ASCII characters are
   * too short, six are enough, and so are two characters of three bytes each.
   */
  lemma PasswordLengthInBytes(users: UserTable, hash: seq<byte>)
    requires "alice" !in users
    ensures RegisterNewUser(users, "alice", "abcde", "", Success(hash), false) == Failure(PasswordTooShort)
    ensures RegisterNewUser(users, "alice", "abcdef", "", Success(hash), false).Success?
    ensures RegisterNewUser(users, "alice", "€€", "", Success(hash), false).Success?
  {
    assert IsAscii("abcde") && IsAscii("abcdef");
    var euro := "€€";
    assert Utf8(euro) == EncodeRune(euro[0]) + Utf8(euro[1..]);
    assert |EncodeRune(euro[0])| == 3;
  }

  /** An odd-length or non-hex key is refused once the earlier checks pass; an empty one stores NULL. */
  lemma PublicKeyFormat(users: UserTable, hash: seq<byte>)
    requires "alice" !in users
    ensures RegisterNewUser(users, "alice", "secret", "abc", Success(hash), false) == Failure(BadPublicKey)
    ensures RegisterNewUser(users, "alice", "secret", "zz", Success(hash), false) == Failure(BadPublicKey)
    ensures RegisterNewUser(users, "alice", "secret", "", Success(hash), false) ==
      Success(users["alice" := UserRecord(hash, None)])
    ensures RegisterNewUser(users, "alice", "secret", "0aFf", Success(hash), false) ==
      Success(users["alice" := UserRecord(hash, Some([0x0a, 0xff]))])
  {
    assert IsAscii("secret");
    assert !Hex.IsHexDigit('z');
    var d := Hex.Decode("0aFf");
    assert d.Some? && |d.value| == 2;
    assert d.value[0] == Hex.PairAt("0aFf", 0) == 0x0a;
    assert d.value[1] == Hex.PairAt("0aFf", 1) == 0xff;
    assert d.value == [0x0a, 0xff];
  }
}
