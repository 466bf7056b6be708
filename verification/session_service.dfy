/**
 * The session handlers. Logging in looks the user up by email and compares
 * the hash of the given password with the stored one; a successful login
 * yields a token whose claims name the user and expire a day later.
 * Signing the token is not modelled: a `Token` is just its claims.
 */
module SessionService {
  import opened Results
  import opened Records
  import Storage
  import opened Rpc
  import UserService
  import StoreLaws

  /** How long a token stays valid, in seconds. */
  const TokenLifetime := 24 * 60 * 60

  datatype LoginRequest = LoginRequest(email: string, password: string)

  datatype Claims = Claims(userId: int, email: string, expiresAt: Time)

  datatype Token = Token(claims: Claims)

  /** Every authentication failure looks the same to the caller. */
  const InvalidCredentials := RpcError(Unauthenticated, "Invalid credentials")

  /** The live user `k` has email `email` and the stored hash `hashed`. */
  predicate Credentials(s: Storage.Store, k: int, email: string, hashed: string) {
    k in s.users && s.users[k].email == email && Storage.GetUserPassword(s, k) == Some(hashed)
  }

  /**
   * Both fields are required; then the user found by email must exist and
   * the hash of the password must equal the hash stored for that user.
   */
  function Login(s: Storage.Store, req: LoginRequest, hash: string -> string, now: Time): (r: Result<Token, RpcError>)
    ensures req.email == "" || req.password == "" ==>
      r == Err(RpcError(InvalidArgument, "Email and password are required"))
    ensures req.email != "" && req.password != "" && r.Err? ==> r.error == InvalidCredentials
    ensures req.email != "" && req.password != "" && !Storage.EmailTaken(s, req.email) ==> r == Err(InvalidCredentials)
    ensures r.Ok? ==>
      && r.value.claims.email == req.email
      && r.value.claims.expiresAt == now + TokenLifetime
      && Storage.GetUserPassword(s, r.value.claims.userId) == Some(hash(req.password))
  {
    if req.email == "" || req.password == "" then
      Err(RpcError(InvalidArgument, "Email and password are required"))
    else
      match Storage.GetUserByEmail(s, req.email)
      case Err(_) => Err(InvalidCredentials)
      case Ok(u) =>
        if Storage.GetUserPassword(s, u.id) != Some(hash(req.password)) then Err(InvalidCredentials)
        else Ok(Token(Claims(u.id, u.email, now + TokenLifetime)))
  }

  /**
   * On every valid store, shared emails included, a successful login names
   * a live user who holds the email and whose stored hash is the
   * password's.
   */
  lemma LoginSound(s: Storage.Store, req: LoginRequest, hash: string -> string, now: Time)
    requires Storage.Valid(s)
    ensures var r := Login(s, req, hash, now);
      r.Ok? ==> Credentials(s, r.value.claims.userId, req.email, hash(req.password))
  {
    var r := Login(s, req, hash, now);
    if r.Ok? {
      var found := Storage.GetUserByEmail(s, req.email);
      assert found.Ok? && r.value.claims.userId == found.value.id;
      Storage.FoundByEmailIsLive(s, req.email);
      assert s.users[found.value.id].email == req.email;
    }
  }

  /**
   * When emails are unique, a login succeeds exactly when some live user
   * has the email and the stored hash of the given password, and the token
   * names that user.
   */
  lemma LoginIffCredentials(s: Storage.Store, req: LoginRequest, hash: string -> string, now: Time)
    requires Storage.Valid(s) && UniqueEmails(s)
    requires req.email != "" && req.password != ""
    ensures Login(s, req, hash, now).Ok? <==> exists k :: Credentials(s, k, req.email, hash(req.password))
    ensures forall k :: Credentials(s, k, req.email, hash(req.password)) ==>
      Login(s, req, hash, now) == Ok(Token(Claims(k, req.email, now + TokenLifetime)))
  {
    var r := Storage.GetUserByEmail(s, req.email);
    if r.Ok? {
      var j :| j in s.users && s.users[j] == r.value;
      assert r.value.id == j;
      forall k | Credentials(s, k, req.email, hash(req.password))
        ensures Login(s, req, hash, now) == Ok(Token(Claims(k, req.email, now + TokenLifetime)))
      {
        assert k == j;
      }
      if Login(s, req, hash, now).Ok? {
        assert Credentials(s, j, req.email, hash(req.password));
      }
    } else {
      forall k | k in s.users
        ensures !Credentials(s, k, req.email, hash(req.password))
      {
        assert !(k in s.users && s.users[k].email == req.email);
      }
    }
  }

  /** A user who has just registered can log in with the same email and password. */
  lemma RegisteredUserCanLogIn(s: Storage.Store, req: UserService.UserCreate, hash: string -> string, now: Time)
    requires UserService.CreateUser(s, req, hash).result.Ok?
    ensures var created := UserService.CreateUser(s, req, hash);
      Login(created.store, LoginRequest(req.email, req.password), hash, now)
        == Ok(Token(Claims(created.result.value.id, req.email, now + TokenLifetime)))
  {
    var created := UserService.CreateUser(s, req, hash);
    var t := created.store;
    var u := created.result.value;
    assert !Storage.EmailTaken(s, req.email);
    assert u == User(s.nextUserId, req.username, req.email);
    assert t.users == s.users[u.id := u];
    assert t.passwords == s.passwords[u.id := hash(req.password)];
    StoreLaws.SoleHolderIsFound(t, u.id, req.email);
  }

  /** Once a user is deleted, its email no longer logs in, whatever the password. */
  lemma DeletedUserCannotLogIn(s: Storage.Store, id: int, password: string, hash: string -> string, now: Time)
    requires UniqueEmails(s)
    requires id in s.users
    ensures var deleted := UserService.DeleteUser(s, id).store;
      Login(deleted, LoginRequest(s.users[id].email, password), hash, now).Err?
  {
    var email := s.users[id].email;
    var deleted := UserService.DeleteUser(s, id).store;
    forall k | k in deleted.users
      ensures deleted.users[k].email != email
    {
      assert k != id && deleted.users[k] == s.users[k];
    }
  }

  /** Logging out changes nothing and always succeeds: no token is revoked. */
  function Logout(s: Storage.Store): (r: Reply<()>)
    ensures r.result.Ok?
    ensures r.store == s
  {
    Reply(s, Ok(()))
  }

  /** After a logout every login answers as it did before. */
  lemma LogoutKeepsLogins(s: Storage.Store, req: LoginRequest, hash: string -> string, now: Time)
    ensures Login(Logout(s).store, req, hash, now) == Login(s, req, hash, now)
  {
  }
}
