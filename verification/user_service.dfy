/**
 * The user handlers: validation of create and replace requests, the
 * keep-unless-given merge of partial updates, and the password table kept
 * beside the user records. Password hashing is the parameter `hash`.
 */
module UserService {
  import opened Results
  import opened Records
  import Storage
  import opened Rpc

  datatype UserCreate = UserCreate(username: string, email: string, password: string)

  /** The body of update and replace requests; an empty field means "not given". */
  datatype UserUpdate = UserUpdate(username: string, email: string, password: string)

  /** A non-empty new value overrides the old one. */
  function Override(given: string, current: string): (r: string)
    ensures given != "" ==> r == given
    ensures given == "" ==> r == current
  {
    if given != "" then given else current
  }

  /** The password table after an update: a new hash only when a password was given. */
  function StorePasswordIfGiven(s: Storage.Store, id: int, password: string, hash: string -> string): (t: Storage.Store)
    ensures password != "" ==> t.passwords == s.passwords[id := hash(password)]
    ensures password == "" ==> t.passwords == s.passwords
    ensures t == s.(passwords := t.passwords)
  {
    if password != "" then Storage.SetUserPassword(s, id, hash(password)) else s
  }

  /**
   * Registers a user: all three fields are required, the email must be
   * free, and the password's hash is stored under the new user's id.
   */
  function CreateUser(s: Storage.Store, req: UserCreate, hash: string -> string): (r: Reply<User>)
    ensures req.username == "" || req.email == "" || req.password == "" ==>
      r == Reply(s, Err(RpcError(InvalidArgument, "All fields are required")))
    ensures req.username != "" && req.email != "" && req.password != "" && Storage.EmailTaken(s, req.email) ==>
      r == Reply(s, Err(RpcError(AlreadyExists, "Email already exists")))
    ensures r.result.Ok? <==>
      req.username != "" && req.email != "" && req.password != "" && !Storage.EmailTaken(s, req.email)
    ensures r.result.Ok? ==>
      && r.result.value == User(s.nextUserId, req.username, req.email)
      && r.store.users == s.users[s.nextUserId := r.result.value]
      && r.store.passwords == s.passwords[s.nextUserId := hash(req.password)]
      && r.store.nextUserId == s.nextUserId + 1
      && ListingsAndOrdersUnchanged(s, r.store)
    ensures Consistent(s) ==> Consistent(r.store)
  {
    if req.username == "" || req.email == "" || req.password == "" then
      Reply(s, Err(RpcError(InvalidArgument, "All fields are required")))
    else
      var hashed := hash(req.password);
      var created := Storage.CreateUser(s, User(0, req.username, req.email));
      match created.result
      case Err(e) =>
        Reply(created.store, Err(if e.UserExists? then RpcError(AlreadyExists, "Email already exists")
                                 else RpcError(Internal, "Failed to create user")))
      case Ok(u) =>
        Reply(Storage.SetUserPassword(created.store, u.id, hashed), Ok(u))
  }

  function GetUser(s: Storage.Store, id: int): (r: Reply<User>)
    ensures r.store == s
    ensures id !in s.users ==> r.result == Err(RpcError(NotFound, "User not found"))
    ensures id in s.users ==> r.result == Ok(s.users[id])
  {
    match Storage.GetUser(s, id)
    case Err(e) => Reply(s, Err(FromStoreError(e, "User not found", "Failed to get user")))
    case Ok(u) => Reply(s, Ok(u))
  }

  /**
   * Partial update: a non-empty username or email overrides the stored one,
   * an empty one keeps it; a non-empty password replaces the stored hash.
   */
  function UpdateUser(s: Storage.Store, id: int, req: UserUpdate, hash: string -> string): (r: Reply<User>)
    ensures id !in s.users ==> r == Reply(s, Err(RpcError(NotFound, "User not found")))
    ensures id in s.users ==>
      && r.result.Ok?
      && r.result.value.id == id
      && r.result.value.username == Override(req.username, s.users[id].username)
      && r.result.value.email == Override(req.email, s.users[id].email)
      && r.store.users == s.users[id := r.result.value]
      && (req.password != "" ==> Storage.GetUserPassword(r.store, id) == Some(hash(req.password)))
      && (req.password == "" ==> r.store.passwords == s.passwords)
      && (forall k :: k != id ==> Storage.GetUserPassword(r.store, k) == Storage.GetUserPassword(s, k))
      && r.store.nextUserId == s.nextUserId
      && ListingsAndOrdersUnchanged(s, r.store)
    ensures Consistent(s) ==> Consistent(r.store)
  {
    match Storage.GetUser(s, id)
    case Err(e) => Reply(s, Err(FromStoreError(e, "User not found", "Failed to get user")))
    case Ok(existing) =>
      var updated := User(existing.id, Override(req.username, existing.username), Override(req.email, existing.email));
      var written := Storage.UpdateUser(s, id, updated);
      match written.result
      case Err(_) => Reply(written.store, Err(RpcError(Internal, "Failed to update user")))
      case Ok(stored) => Reply(StorePasswordIfGiven(written.store, id, req.password, hash), Ok(stored))
  }

  /**
   * Full replacement: the user must exist (checked first), then both the
   * username and the email are required; a non-empty password replaces the
   * stored hash.
   */
  function ReplaceUser(s: Storage.Store, id: int, req: UserUpdate, hash: string -> string): (r: Reply<User>)
    ensures id !in s.users ==> r == Reply(s, Err(RpcError(NotFound, "User not found")))
    ensures id in s.users && (req.username == "" || req.email == "") ==>
      r == Reply(s, Err(RpcError(InvalidArgument, "Username and email are required")))
    ensures r.result.Ok? <==> id in s.users && req.username != "" && req.email != ""
    ensures r.result.Ok? ==>
      && r.result.value == User(id, req.username, req.email)
      && r.store.users == s.users[id := r.result.value]
      && (req.password != "" ==> Storage.GetUserPassword(r.store, id) == Some(hash(req.password)))
      && (req.password == "" ==> r.store.passwords == s.passwords)
      && (forall k :: k != id ==> Storage.GetUserPassword(r.store, k) == Storage.GetUserPassword(s, k))
      && r.store.nextUserId == s.nextUserId
      && ListingsAndOrdersUnchanged(s, r.store)
    ensures Consistent(s) ==> Consistent(r.store)
  {
    match Storage.GetUser(s, id)
    case Err(e) => Reply(s, Err(FromStoreError(e, "User not found", "Failed to get user")))
    case Ok(_) =>
      if req.username == "" || req.email == "" then
        Reply(s, Err(RpcError(InvalidArgument, "Username and email are required")))
      else
        var written := Storage.UpdateUser(s, id, User(id, req.username, req.email));
        match written.result
        case Err(_) => Reply(written.store, Err(RpcError(Internal, "Failed to replace user")))
        case Ok(stored) => Reply(StorePasswordIfGiven(written.store, id, req.password, hash), Ok(stored))
  }

  /** Removes a user and its password hash. */
  function DeleteUser(s: Storage.Store, id: int): (r: Reply<()>)
    ensures id !in s.users ==> r == Reply(s, Err(RpcError(NotFound, "User not found")))
    ensures id in s.users ==>
      && r.result.Ok?
      && Storage.GetUser(r.store, id).Err?
      && Storage.GetUserPassword(r.store, id).None?
      && (forall k :: k != id ==> Storage.GetUser(r.store, k) == Storage.GetUser(s, k))
      && (forall k :: k != id ==> Storage.GetUserPassword(r.store, k) == Storage.GetUserPassword(s, k))
      && r.store.nextUserId == s.nextUserId
      && ListingsAndOrdersUnchanged(s, r.store)
    ensures Consistent(s) ==> Consistent(r.store)
  {
    var deleted := Storage.DeleteUser(s, id);
    match deleted.result
    case Err(e) => Reply(deleted.store, Err(FromStoreError(e, "User not found", "Failed to delete user")))
    case Ok(_) => Reply(deleted.store, Ok(()))
  }

  /** An update that gives nothing leaves the user and its password as they were. */
  lemma EmptyUpdateKeepsUser(s: Storage.Store, id: int, hash: string -> string)
    requires Storage.Valid(s) && id in s.users
    ensures var r := UpdateUser(s, id, UserUpdate("", "", ""), hash);
      r.store == s && r.result == Ok(s.users[id])
  {
    var r := UpdateUser(s, id, UserUpdate("", "", ""), hash);
    assert r.store.users == s.users;
  }

  /** After a replace, the user reads back as the request gave it. */
  lemma ReplacedUserReadsBack(s: Storage.Store, id: int, req: UserUpdate, hash: string -> string)
    requires id in s.users && req.username != "" && req.email != ""
    ensures var r := ReplaceUser(s, id, req, hash);
      GetUser(r.store, id).result == Ok(User(id, req.username, req.email))
  {
  }
}
