/**
 * Sign-up and log-in of server/internal/auth/service.go. The user store is
 * abstracted as maps (users by id, ids by email and by username) and the
 * refresh-token table as a list; password hashing, hash checking and JWT
 * signing are uninterpreted functions passed in; ids, the random refresh
 * token and the clock (Unix seconds) are parameters.
 */
module AuthService {
  import opened Wrappers
  import opened Text

  const MinUsername := 3
  const MaxUsername := 30
  const MinPassword := 6
  /** `time.Hour * 24`, in seconds. */
  const DefaultJwtExpiry := 24 * 60 * 60
  /** A refresh token lives `7 * 24 * time.Hour`. */
  const RefreshLifetime := 7 * 24 * 60 * 60

  // The error texts, spelled as the source spells them.
  const ErrUsername := "username must be betweet 3 to 30 characters"
  const ErrEmail := "invalid email forma"
  const ErrPassword := "password must be at least 6 characters"
  const ErrExists := "username or email already exists"
  const ErrLoginRequest := "invalid login request"
  const ErrUserNotFound := "User not found"
  const ErrCredentials := "invalid credentials"

  // ---------------------------------------------------------------- the e-mail pattern

  predicate IsLowerLetter(c: char) { 'a' <= c <= 'z' }

  predicate IsDigit(c: char) { '0' <= c <= '9' }

  /** `[a-z0-9._%+\-]` */
  predicate IsLocalChar(c: char) {
    IsLowerLetter(c) || IsDigit(c) || c == '.' || c == '_' || c == '%' || c == '+' || c == '-'
  }

  /** `[a-z0-9.\-]` */
  predicate IsDomainChar(c: char) {
    IsLowerLetter(c) || IsDigit(c) || c == '.' || c == '-'
  }

  /**
   * `s` splits as `local "@" domain "." tld` at the '@' at index `a` and the
   * '.' at index `d`: one or more local characters, one or more domain
   * characters, then at least two lower-case letters to the end.
   */
  predicate EmailSplit(s: string, a: int, d: int) {
    0 < a && a + 1 < d && d + 2 < |s| && s[a] == '@' && s[d] == '.'
    && AllSatisfy(s[..a], IsLocalChar) && AllSatisfy(s[a + 1..d], IsDomainChar) && AllSatisfy(s[d + 1..], IsLowerLetter)
  }

  /** The language of `^[a-z0-9._%+\-]+@[a-z0-9.\-]+\.[a-z]{2,}$` (Go's `$` is the end of the text). */
  ghost predicate EmailPattern(s: string) {
    exists a, d :: EmailSplit(s, a, d)
  }

  /**
   * The recogniser: the first '@' ends a non-empty local part; in the rest,
   * the last '.' has a non-empty domain part before it and two or more
   * lower-case letters after it.
   */
  predicate IsEmail(s: string) {
    var a := IndexOf(s, '@');
    a < |s| && 0 < a && AllSatisfy(s[..a], IsLocalChar) &&
    var rest := s[a + 1..];
    var d := LastIndexOf(rest, '.');
    d > 0 && d + 2 < |rest| && AllSatisfy(rest[..d], IsDomainChar) && AllSatisfy(rest[d + 1..], IsLowerLetter)
  }

  lemma IsEmailSound(s: string)
    requires IsEmail(s)
    ensures EmailPattern(s)
  {
    var a := IndexOf(s, '@');
    var rest := s[a + 1..];
    var d := LastIndexOf(rest, '.');
    assert s[a + 1..a + 1 + d] == rest[..d];
    assert s[a + 2 + d..] == rest[d + 1..];
    assert EmailSplit(s, a, a + 1 + d);
  }

  lemma IsEmailComplete(s: string, a: int, d: int)
    requires EmailSplit(s, a, d)
    ensures IsEmail(s)
  {
    forall j | 0 <= j < a
      ensures s[j] != '@'
    {
      assert IsLocalChar(s[..a][j]);
    }
    IndexOfAt(s, '@', a);
    var rest := s[a + 1..];
    var e := d - a - 1;
    assert rest[e] == '.';
    forall j | e < j < |rest|
      ensures rest[j] != '.'
    {
      assert IsLowerLetter(s[d + 1..][j - e - 1]);
    }
    LastIndexOfAt(rest, '.', e);
    assert rest[..e] == s[a + 1..d];
    assert rest[e + 1..] == s[d + 1..];
  }

  /** The recogniser accepts exactly the strings the regular expression matches. */
  lemma IsEmailCorrect(s: string)
    ensures IsEmail(s) <==> EmailPattern(s)
  {
    if IsEmail(s) {
      IsEmailSound(s);
    }
    if EmailPattern(s) {
      var a, d :| EmailSplit(s, a, d);
      IsEmailComplete(s, a, d);
    }
  }

  /** An accepted address has one '@', no upper-case letter, and ends in at least two lower-case letters. */
  lemma EmailShape(s: string, i: int, j: int)
    requires IsEmail(s) && 0 <= i < |s| && 0 <= j < |s|
    ensures s[i] == '@' && s[j] == '@' ==> i == j
    ensures !('A' <= s[i] <= 'Z')
    ensures IsLowerLetter(s[|s| - 1]) && IsLowerLetter(s[|s| - 2])
  {
    var a := IndexOf(s, '@');
    var rest := s[a + 1..];
    var d := LastIndexOf(rest, '.');
    if i < a {
      assert IsLocalChar(s[..a][i]);
    } else if i > a {
      assert s[i] == rest[i - a - 1];
      if i - a - 1 < d {
        assert IsDomainChar(rest[..d][i - a - 1]);
      } else if i - a - 1 > d {
        assert IsLowerLetter(rest[d + 1..][i - a - 2 - d]);
      }
    }
    if j < a {
      assert IsLocalChar(s[..a][j]);
    } else if j > a {
      assert s[j] == rest[j - a - 1];
      if j - a - 1 < d {
        assert IsDomainChar(rest[..d][j - a - 1]);
      } else if j - a - 1 > d {
        assert IsLowerLetter(rest[d + 1..][j - a - 2 - d]);
      }
    }
    assert IsLowerLetter(rest[d + 1..][|rest| - d - 2]);
    assert IsLowerLetter(rest[d + 1..][|rest| - d - 3]);
  }

  // ---------------------------------------------------------------- the checks

  /** The sign-up checks, in the source's order: username bytes, then e-mail, then password bytes. */
  function SignupCheck(username: string, email: string, password: string): (err: Option<string>)
    ensures !(MinUsername <= Utf8Len(username) <= MaxUsername) ==> err == Some(ErrUsername)
    ensures MinUsername <= Utf8Len(username) <= MaxUsername && !IsEmail(email) ==> err == Some(ErrEmail)
    ensures MinUsername <= Utf8Len(username) <= MaxUsername && IsEmail(email) && Utf8Len(password) < MinPassword ==>
      err == Some(ErrPassword)
    ensures err.None? <==>
      MinUsername <= Utf8Len(username) <= MaxUsername && IsEmail(email) && Utf8Len(password) >= MinPassword
  {
    if Utf8Len(username) < MinUsername || Utf8Len(username) > MaxUsername then Some(ErrUsername)
    else if !IsEmail(email) then Some(ErrEmail)
    else if Utf8Len(password) < MinPassword then Some(ErrPassword)
    else None
  }

  /** A login request needs an identifier and a password of at least 6 bytes, checked before any lookup. */
  predicate LoginRequestOk(ident: string, password: string) {
    ident != "" && Utf8Len(password) >= MinPassword
  }

  datatype User = User(id: string, username: string, email: string, password: string, createdAt: int, updatedAt: int)
  datatype SignupResponse = SignupResponse(id: string, username: string, email: string)
  datatype RefreshToken = RefreshToken(refreshId: string, userId: string, token: string, expiresAt: int, createdAt: int)
  datatype LoginResponse = LoginResponse(token: string, refreshToken: string, expiresAt: int)

  // ---------------------------------------------------------------- the service over its store

  class Service {
    const jwtExpiry: int
    var users: map<string, User>
    var idByEmail: map<string, string>
    var idByUsername: map<string, string>
    var refreshTokens: seq<RefreshToken>

    /** `NewService`: tokens expire after 24 hours. */
    constructor ()
      ensures jwtExpiry == DefaultJwtExpiry
      ensures users == map[] && idByEmail == map[] && idByUsername == map[] && refreshTokens == []
    {
      jwtExpiry := DefaultJwtExpiry;
      users, idByEmail, idByUsername, refreshTokens := map[], map[], map[], [];
    }

    /** `GetUserByEmailOrUsername`: by e-mail when the identifier contains '@', else by username. */
    function FindUser(ident: string): (u: Option<User>)
      reads this
      ensures u.Some? ==> ('@' in ident ==> ident in idByEmail) && ('@' !in ident ==> ident in idByUsername)
    {
      var ids := if '@' in ident then idByEmail else idByUsername;
      if ident in ids && ids[ident] in users then Some(users[ids[ident]]) else None
    }

    /** `UserExists`: a stored user already has this username, or this e-mail. */
    predicate Taken(username: string, email: string)
      reads this
    {
      exists id :: id in users && (users[id].username == username || users[id].email == email)
    }

    /**
     * `Signup`: the three checks come first and a failure writes nothing;
     * then `CreateUser` refuses a taken username or e-mail; otherwise the
     * user row is stored with the hashed password. `CreateUser` writes the
     * `users` table only: the two lookup tables are left as they were.
     */
    method Signup(username: string, email: string, password: string, hash: string -> string, newId: string, now: int)
      returns (r: Result<SignupResponse>)
      modifies this`users
      ensures SignupCheck(username, email, password).Some? ==>
        r == Err(SignupCheck(username, email, password).value) && users == old(users)
      ensures SignupCheck(username, email, password).None? && old(Taken(username, email)) ==>
        r == Err(ErrExists) && users == old(users)
      ensures SignupCheck(username, email, password).None? && !old(Taken(username, email)) ==>
        r == Ok(SignupResponse(newId, username, email)) &&
        users == old(users)[newId := User(newId, username, email, hash(password), now, now)]
    {
      var err := SignupCheck(username, email, password);
      if err.Some? {
        return Err(err.value);
      }
      var hashed := hash(password);
      if Taken(username, email) {
        return Err(ErrExists);
      }
      users := users[newId := User(newId, username, email, hashed, now, now)];
      r := Ok(SignupResponse(newId, username, email));
    }

    /**
     * `Signup` as it was evidently meant: the new user is also entered in the
     * e-mail and username lookup tables (`ReserveEmail`, `ReserveUsername`),
     * which is what the log-in lookup reads.
     */
    method SignupIndexed(username: string, email: string, password: string, hash: string -> string, newId: string, now: int)
      returns (r: Result<SignupResponse>)
      modifies this`users, this`idByEmail, this`idByUsername
      ensures r.Err? ==> users == old(users) && idByEmail == old(idByEmail) && idByUsername == old(idByUsername)
      ensures r.Err? <==> SignupCheck(username, email, password).Some? || old(Taken(username, email))
      ensures r.Ok? ==>
        r == Ok(SignupResponse(newId, username, email)) &&
        users == old(users)[newId := User(newId, username, email, hash(password), now, now)] &&
        idByEmail == old(idByEmail)[email := newId] && idByUsername == old(idByUsername)[username := newId]
    {
      r := Signup(username, email, password, hash, newId, now);
      if r.Ok? {
        idByEmail := idByEmail[email := newId];
        idByUsername := idByUsername[username := newId];
      }
    }

    /** The log-in decision: request shape, then lookup, then password; the user when all pass. */
    function LoginCheck(ident: string, password: string, checkHash: (string, string) -> bool): (r: Result<User>)
      reads this
      ensures !LoginRequestOk(ident, password) ==> r == Err(ErrLoginRequest)
      ensures LoginRequestOk(ident, password) && FindUser(ident).None? ==> r == Err(ErrUserNotFound)
      ensures LoginRequestOk(ident, password) && FindUser(ident).Some? && !checkHash(password, FindUser(ident).value.password) ==>
        r == Err(ErrCredentials)
      ensures r.Ok? <==>
        LoginRequestOk(ident, password) && FindUser(ident).Some? && checkHash(password, FindUser(ident).value.password)
      ensures r.Ok? ==> r == Ok(FindUser(ident).value)
    {
      if !LoginRequestOk(ident, password) then Err(ErrLoginRequest)
      else if FindUser(ident).None? then Err(ErrUserNotFound)
      else if !checkHash(password, FindUser(ident).value.password) then Err(ErrCredentials)
      else Ok(FindUser(ident).value)
    }

    /**
     * `Login`: a token and a refresh token are issued, and the refresh token
     * saved, only after the checks pass; the access token expires
     * `jwtExpiry` seconds from now.
     */
    method Login(ident: string, password: string, checkHash: (string, string) -> bool,
                 signJwt: (string, int) -> string, refreshId: string, refreshToken: string, now: int)
      returns (r: Result<LoginResponse>)
      modifies this`refreshTokens
      ensures old(LoginCheck(ident, password, checkHash)).Err? ==>
        r == Err(old(LoginCheck(ident, password, checkHash)).error) && refreshTokens == old(refreshTokens)
      ensures old(LoginCheck(ident, password, checkHash)).Ok? ==>
        var u := old(LoginCheck(ident, password, checkHash)).value;
        r == Ok(LoginResponse(signJwt(u.id, jwtExpiry), refreshToken, now + jwtExpiry)) &&
        refreshTokens == old(refreshTokens) + [RefreshToken(refreshId, u.id, refreshToken, now + RefreshLifetime, now)]
    {
      var c := LoginCheck(ident, password, checkHash);
      if c.Err? {
        return Err(c.error);
      }
      var user := c.value;
      var token := signJwt(user.id, jwtExpiry);
      var rt := RefreshToken(refreshId, user.id, refreshToken, now + RefreshLifetime, now);
      refreshTokens := refreshTokens + [rt];
      r := Ok(LoginResponse(token, rt.token, now + jwtExpiry));
    }
  }

  /**
   * With the default expiry, a user who has signed up (through the indexed
   * sign-up) logs in with a token valid for exactly 24 hours, and one
   * refresh token is saved.
   */
  method LoginExpiresInADay(username: string, email: string, password: string, hash: string -> string,
                            checkHash: (string, string) -> bool, signJwt: (string, int) -> string,
                            newId: string, refreshToken: string, now: int)
    returns (r: Result<LoginResponse>)
    requires SignupCheck(username, email, password).None? && '@' !in username
    requires checkHash(password, hash(password))
    ensures r.Ok? && r.value.expiresAt == now + 86400
    ensures r.value.token == signJwt(newId, 86400) && r.value.refreshToken == refreshToken
  {
    var s := new Service();
    var signedUp := s.SignupIndexed(username, email, password, hash, newId, now);
    r := s.Login(username, password, checkHash, signJwt, "", refreshToken, now);
  }

  /**
   * As written, a user who has just signed up on an empty store is not
   * found by a log-in with their username: `CreateUser` never filled the
   * lookup table `GetUserByEmailOrUsername` reads.
   */
  method SignupThenLoginAsWritten(username: string, email: string, password: string, hash: string -> string,
                                   checkHash: (string, string) -> bool, newId: string, now: int)
    returns (signedUp: Result<SignupResponse>, login: Result<User>)
    requires SignupCheck(username, email, password).None? && '@' !in username
    ensures signedUp.Ok? && login == Err(ErrUserNotFound)
  {
    var s := new Service();
    signedUp := s.Signup(username, email, password, hash, newId, now);
    login := s.LoginCheck(username, password, checkHash);
  }

  /**
   * With the lookup tables filled, the same user logs in by username (and
   * by e-mail) with the password they signed up with, whenever the hash
   * check accepts a password against its own hash.
   */
  method SignupThenLogin(username: string, email: string, password: string, hash: string -> string,
                         checkHash: (string, string) -> bool, newId: string, now: int)
    returns (signedUp: Result<SignupResponse>, byName: Result<User>, byEmail: Result<User>)
    requires SignupCheck(username, email, password).None? && '@' !in username
    requires checkHash(password, hash(password))
    ensures signedUp.Ok?
    ensures byName == Ok(User(newId, username, email, hash(password), now, now))
    ensures byEmail == byName
  {
    var s := new Service();
    signedUp := s.SignupIndexed(username, email, password, hash, newId, now);
    EmailHasAt(email);
    byName := s.LoginCheck(username, password, checkHash);
    byEmail := s.LoginCheck(email, password, checkHash);
  }

  /** An accepted address contains '@'. */
  lemma EmailHasAt(s: string)
    requires IsEmail(s)
    ensures '@' in s
  {
    assert s[IndexOf(s, '@')] == '@';
  }
}
