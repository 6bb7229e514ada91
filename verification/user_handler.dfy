/**
 * The user request handlers: issuing a token for valid credentials and
 * registering a user. bcrypt's comparison and the JWT signer are pure
 * functions of their arguments and are parameters; the clock, the UUID,
 * the salted hash and backend failures are inputs.
 */
module UserHandler {
  import opened Wrappers
  import opened GoInt
  import opened EntityId
  import opened UserEntity
  import opened UserDB
  import opened UserDBProperties
  import opened Http

  /** The body of `POST /users/generate-token`. */
  datatype Credentials = Credentials(email: string, password: string)

  /** The body of `POST /users`. */
  datatype UserInput = UserInput(name: string, email: string, password: string)

  /** The claim map handed to the signer. */
  datatype Claims = Claims(sub: string, exp: int)

  const NanosPerSecond: int := 1_000_000_000

  /**
   * `time.Now().Add(time.Second * time.Duration(expiresIn)).Unix()` for a
   * clock reading of `now` whole seconds: the duration is an int64 count of
   * nanoseconds, so the product wraps before it is added.
   */
  function ExpiresAt(now: int, expiresIn: Int64): (exp: int)
    ensures -(MaxInt64 / NanosPerSecond) <= expiresIn <= MaxInt64 / NanosPerSecond ==> exp == now + expiresIn
  {
    now + Wrap(expiresIn * NanosPerSecond) / NanosPerSecond
  }

  /** The token text the handler sends: the signer's error is dropped, leaving the empty string. */
  function TokenText(encoded: Option<string>): (token: string)
    ensures encoded.Some? ==> token == encoded.value
    ensures encoded.None? ==> token == ""
  {
    match encoded
    case Some(t) => t
    case None => ""
  }

  /**
   * `POST /users/generate-token`. `validatePassword(hash, password)` is
   * bcrypt's comparison; `encode` signs a claim map or fails.
   */
  function GetJwt(s: UserDB.Store, request: Decoded<Credentials>,
                  validatePassword: (string, string) -> bool, encode: Claims -> Option<string>,
                  now: int, expiresIn: Int64): (r: Response<UserDB.Store>)
    ensures r.store == s
    ensures request.Undecodable? ==> r == Response(StatusBadRequest, NoBody, s)
    ensures request.Decoded? && !HasEmail(s, request.value.email) ==>
      r == Response(StatusUnauthorized, NoBody, s)
    ensures request.Decoded? && HasEmail(s, request.value.email) ==>
      var user := FindByEmail(s, request.value.email).value;
      && (!validatePassword(user.password, request.value.password) ==>
            r == Response(StatusUnauthorized, NoBody, s))
      && (validatePassword(user.password, request.value.password) ==>
            r == Response(StatusOK, TokenBody(TokenText(encode(Claims(user.id, ExpiresAt(now, expiresIn))))), s))
    ensures r.status == StatusOK ==>
      && request.Decoded?
      && exists user :: user in s && user.email == request.value.email
                        && validatePassword(user.password, request.value.password)
                        && r.body == TokenBody(TokenText(encode(Claims(user.id, ExpiresAt(now, expiresIn)))))
  {
    match request
    case Undecodable(_) => Response(StatusBadRequest, NoBody, s)
    case Decoded(credentials) =>
      match FindByEmail(s, credentials.email)
      case Failure(_) => Response(StatusUnauthorized, NoBody, s)
      case Success(user) =>
        if !validatePassword(user.password, credentials.password) then
          Response(StatusUnauthorized, NoBody, s)
        else
          var claims := Claims(user.id, ExpiresAt(now, expiresIn));
          Response(StatusOK, TokenBody(TokenText(encode(claims))), s)
  }

  /** `POST /users`. The constructor's only failure is hashing; there is no field validation. */
  function CreateUser(s: UserDB.Store, request: Decoded<UserInput>, id: FreshId, hashing: HashOutcome,
                      fault: bool): (r: Response<UserDB.Store>)
    ensures r.body == NoBody
    ensures r.status != StatusCreated ==> r.store == s
    ensures request.Undecodable? || hashing.HashFailed? ==> r == Response(StatusBadRequest, NoBody, s)
    ensures request.Decoded? && hashing.Hashed? && (fault || UserDB.Stored(s, id)) ==>
      r == Response(StatusInternalServerError, NoBody, s)
    ensures r.status == StatusCreated <==>
      request.Decoded? && hashing.Hashed? && !fault && !UserDB.Stored(s, id)
    ensures r.status == StatusCreated ==>
      r.store == s + [User(id, request.value.name, request.value.email, hashing.hash)]
    ensures UserDB.UniqueIds(s) ==> UserDB.UniqueIds(r.store)
  {
    match request
    case Undecodable(_) => Response(StatusBadRequest, NoBody, s)
    case Decoded(input) =>
      match NewUser(input.name, input.email, input.password, id, hashing)
      case Failure(_) => Response(StatusBadRequest, NoBody, s)
      case Success(u) =>
        match UserDB.Create(s, u, fault)
        case Failure(_) => Response(StatusInternalServerError, NoBody, s)
        case Success(s') =>
          assert s' == s + [u];
          Response(StatusCreated, NoBody, s')
  }

  /**
   * Registering and then asking for a token with the same credentials yields
   * a token for the new user's id, provided the e-mail was not taken and
   * bcrypt accepts the password against the hash it produced.
   */
  lemma RegisterThenLogIn(s: UserDB.Store, input: UserInput, id: FreshId, hash: string,
                          validatePassword: (string, string) -> bool, encode: Claims -> Option<string>,
                          now: int, expiresIn: Int64)
    requires !UserDB.Stored(s, id) && !HasEmail(s, input.email)
    requires validatePassword(hash, input.password)
    ensures var created := CreateUser(s, Decoded(input), id, Hashed(hash), false);
      && created.status == StatusCreated
      && GetJwt(created.store, Decoded(Credentials(input.email, input.password)),
                validatePassword, encode, now, expiresIn)
         == Response(StatusOK, TokenBody(TokenText(encode(Claims(id, ExpiresAt(now, expiresIn))))), created.store)
  {
    var u := User(id, input.name, input.email, hash);
    CreateThenFindByEmail(s, u, false);
  }

  /** A window beyond 292 years overflows the nanosecond duration: ten billion seconds expire in the past. */
  lemma HugeExpiryWrapsIntoThePast(now: int)
    ensures ExpiresAt(now, 10_000_000_000) < now
  {
    assert Wrap(10_000_000_000 * NanosPerSecond) == 10_000_000_000 * NanosPerSecond - TwoTo64;
  }
}
