/** Registration, login and token validation (internal/services/auth_service.go)
    over an in-memory user store with the semantics of the repository used by
    the service's tests, and over an abstract token codec. */
module AuthService {
  import opened Wrappers
  import opened Domain

  const ErrUsernameTaken := "username already exists"
  const ErrUsernameLength := "username must be between 3 and 20 characters"
  const ErrPasswordLength := "password must be at least 6 characters"
  const ErrInvalidCredentials := "invalid credentials"
  const ErrUserExists := "user already exists"
  const ErrUserNotFound := "user not found"

  const MinUsername := 3
  const MaxUsername := 20
  const MinPassword := 6

  /** Lifetime of an issued token, in seconds (one hour). */
  const TokenLifetime := 3600

  // ---------------------------------------------------------------------------
  // Token codec

  /** What a token asserts: a user and the instant it stops being valid. */
  datatype Claims = Claims(userId: nat, expiresAt: int)

  /** The signing library, seen only through its two operations: `sign`
      turns claims into a token with a secret (or fails), `parse` checks a
      token against a secret at an instant and gives back its claims. */
  datatype TokenCodec = TokenCodec(
    sign: (Claims, string) -> Result<string>,
    parse: (string, string, int) -> Result<Claims>)

  /** The codec's contract: a token it signed reads back as the same claims
      under the same secret until its expiry, and is refused from then on. */
  ghost predicate Sound(codec: TokenCodec) {
    forall c: Claims, secret: string, now: int :: codec.sign(c, secret).Ok? ==>
           if now < c.expiresAt then codec.parse(codec.sign(c, secret).value, secret, now) == Ok(c)
           else codec.parse(codec.sign(c, secret).value, secret, now).Err?
  }

  // ---------------------------------------------------------------------------
  // User store

  /** Users keyed by username. Each key is its user's username, so a name
      belongs to at most one user. */
  class UserStore {
    var users: map<string, User>

    ghost predicate Valid()
      reads this
    {
      forall name :: name in users ==> users[name].username == name
    }

    constructor ()
      ensures Valid() && users == map[]
    {
      users := map[];
    }

    /** Stores `user` under its username, refusing a name already taken. */
    method Create(user: User) returns (err: Option<string>)
      requires Valid()
      modifies this
      ensures Valid()
      ensures user.username in old(users) ==> err == Some(ErrUserExists) && users == old(users)
      ensures user.username !in old(users) ==> err == None && users == old(users)[user.username := user]
    {
      if user.username in users {
        return Some(ErrUserExists);
      }
      users := users[user.username := user];
      return None;
    }

    /** The user registered under `username`. */
    function GetByUsername(username: string): (r: Result<User>)
      reads this
      requires Valid()
      ensures r.Ok? <==> username in users
      ensures r.Ok? ==> r.value.username == username && r.value == users[username]
      ensures r.Err? ==> r.error == ErrUserNotFound
    {
      if username in users then Ok(users[username]) else Err(ErrUserNotFound)
    }

    /** Whether `username` is taken: exactly when a lookup would find it. */
    function Exists(username: string): (b: bool)
      reads this
      requires Valid()
      ensures b <==> GetByUsername(username).Ok?
    {
      username in users
    }
  }

  // ---------------------------------------------------------------------------
  // The service

  /** The error `Create`'s outcome turns into, or the user on success. */
  function CreatedOr(err: Option<string>, user: User): (r: Result<User>)
    ensures err.None? ==> r == Ok(user)
    ensures err.Some? ==> r == Err(err.value)
  {
    match err
    case None => Ok(user)
    case Some(e) => Err(e)
  }

  class AuthService {
    const store: UserStore
    const jwtSecret: string
    const codec: TokenCodec

    constructor (store: UserStore, jwtSecret: string, codec: TokenCodec)
      ensures this.store == store && this.jwtSecret == jwtSecret && this.codec == codec
    {
      this.store := store;
      this.jwtSecret := jwtSecret;
      this.codec := codec;
    }

    /** Registration: the duplicate check comes first, then the username
        length, then the password length; only then is the user stored,
        with the password exactly as given. A failure changes nothing. */
    method Register(username: string, password: string) returns (r: Result<User>)
      requires store.Valid()
      modifies store
      ensures store.Valid()
      ensures old(username in store.users) ==>
                r == Err(ErrUsernameTaken)
      ensures !old(username in store.users) && !(MinUsername <= |username| <= MaxUsername) ==>
                r == Err(ErrUsernameLength)
      ensures !old(username in store.users) && MinUsername <= |username| <= MaxUsername && |password| < MinPassword ==>
                r == Err(ErrPasswordLength)
      ensures r.Ok? <==>
                !old(username in store.users) && MinUsername <= |username| <= MaxUsername && |password| >= MinPassword
      ensures r.Ok? ==> r.value == User(0, username, password, 0)
      ensures r.Ok? ==> store.users == old(store.users)[username := r.value]
      ensures r.Err? ==> store.users == old(store.users)
    {
      var taken := store.Exists(username);
      if taken {
        return Err(ErrUsernameTaken);
      }
      if |username| < MinUsername || |username| > MaxUsername {
        return Err(ErrUsernameLength);
      }
      if |password| < MinPassword {
        return Err(ErrPasswordLength);
      }
      var user := User(0, username, password, 0);
      var err := store.Create(user);
      r := CreatedOr(err, user);
    }

    /** Login at instant `now`: one error for an unknown name and for a wrong
        password; otherwise a token for the user's id, valid for one hour,
        or the signer's error. */
    function Login(username: string, password: string, now: int): (r: Result<string>)
      reads store
      requires store.Valid()
      ensures username !in store.users ==> r == Err(ErrInvalidCredentials)
      ensures username in store.users && store.users[username].password != password ==>
                r == Err(ErrInvalidCredentials)
      ensures username in store.users && store.users[username].password == password ==>
                r == codec.sign(Claims(store.users[username].id, now + TokenLifetime), jwtSecret)
    {
      match store.GetByUsername(username)
      case Err(_) => Err(ErrInvalidCredentials)
      case Ok(user) =>
        if user.password != password then Err(ErrInvalidCredentials)
        else codec.sign(Claims(user.id, now + TokenLifetime), jwtSecret)
    }

    /** The user id a token carries at instant `now`, or 0 and the parse error. */
    function ValidateToken(token: string, now: int): (r: (nat, Option<string>))
      ensures codec.parse(token, jwtSecret, now).Ok? ==> r == (codec.parse(token, jwtSecret, now).value.userId, None)
      ensures codec.parse(token, jwtSecret, now).Err? ==> r == (0, Some(codec.parse(token, jwtSecret, now).error))
    {
      match codec.parse(token, jwtSecret, now)
      case Err(e) => (0, Some(e))
      case Ok(claims) => (claims.userId, None)
    }
  }

  /** Login cannot tell an unknown name from a wrong password. */
  lemma LoginFailuresAgree(svc: AuthService, unknown: string, p: string, known: string, wrong: string, now: int)
    requires svc.store.Valid()
    requires unknown !in svc.store.users
    requires known in svc.store.users && svc.store.users[known].password != wrong
    ensures svc.Login(unknown, p, now) == svc.Login(known, wrong, now) == Err(ErrInvalidCredentials)
  {
  }

  /** A token from a successful login names the user who logged in for one
      hour after the login, and is refused from then on. */
  lemma LoginThenValidate(svc: AuthService, username: string, password: string, issuedAt: int, now: int)
    requires svc.store.Valid() && Sound(svc.codec)
    requires svc.Login(username, password, issuedAt).Ok?
    ensures username in svc.store.users && svc.store.users[username].password == password
    ensures now < issuedAt + TokenLifetime ==>
              svc.ValidateToken(svc.Login(username, password, issuedAt).value, now) == (svc.store.users[username].id, None)
    ensures now >= issuedAt + TokenLifetime ==>
              svc.ValidateToken(svc.Login(username, password, issuedAt).value, now).1.Some?
  {
    var c := Claims(svc.store.users[username].id, issuedAt + TokenLifetime);
    assert svc.codec.sign(c, svc.jwtSecret).Ok?;
    var token := svc.codec.sign(c, svc.jwtSecret).value;
    assert svc.codec.parse(token, svc.jwtSecret, now) == svc.codec.parse(svc.codec.sign(c, svc.jwtSecret).value, svc.jwtSecret, now);
  }

  /** Registering a fresh, well-formed name and then logging in with the same
      password passes the credential check: the outcome is the signer's. */
  method RegisterThenLogin(svc: AuthService, username: string, password: string, now: int)
    returns (registered: Result<User>, token: Result<string>)
    requires svc.store.Valid()
    requires username !in svc.store.users
    requires MinUsername <= |username| <= MaxUsername && |password| >= MinPassword
    modifies svc.store
    ensures registered == Ok(User(0, username, password, 0))
    ensures svc.store.users == old(svc.store.users)[username := User(0, username, password, 0)]
    ensures token == svc.codec.sign(Claims(0, now + TokenLifetime), svc.jwtSecret)
  {
    registered := svc.Register(username, password);
    token := svc.Login(username, password, now);
  }
}
