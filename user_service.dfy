/**
 * UserService: registration (check that the username is free, encode the
 * password, insert) and login (look the user up, authenticate, issue a token).
 *
 * The user table is a map from username to user. The password encoder, the
 * authentication manager and the token service are collaborators whose code is
 * not modelled; each is a function fixed when the service is built.
 */
module Users {
  import opened Outcomes
  import opened UserModel
  import RegisterRequest
  import LoginRequest

  const UsernameTakenMessage := "This username is already in use."

  /**
   * LoginResponseDTO: the token, the username, the role and whether the login
   * succeeded. A failed login carries null in the first three.
   */
  datatype LoginResponse = LoginResponse(
    token: Option<string>,
    username: Option<string>,
    role: Option<Role>,
    succeeded: bool)

  /** The one value every failed login returns. */
  const LoginFailure := LoginResponse(None, None, None, false)

  /** Every entry of the table is stored under its own username. */
  ghost predicate KeyedByUsername(users: map<string, User>)
  {
    forall u :: u in users ==> users[u].username == u
  }

  /** No two entries of the table hold the same username. */
  ghost predicate UniqueUsernames(users: map<string, User>)
  {
    forall a, b :: a in users && b in users && a != b ==> users[a].username != users[b].username
  }

  lemma KeyedImpliesUnique(users: map<string, User>)
    requires KeyedByUsername(users)
    ensures UniqueUsernames(users)
  {
  }

  /**
   * userRepository.findByUsername: the user stored under the username, or
   * null. A null username matches no user, since every stored user has one.
   */
  function FindByUsername(users: map<string, User>, username: Option<string>): (r: Option<User>)
    ensures r.Some? <==> username.Some? && username.value in users
    ensures r.Some? ==> r.value == users[username.value]
  {
    if username.Some? && username.value in users then Some(users[username.value]) else None
  }

  /**
   * What one `create` call does to the table: the result and the new table.
   * A username already present is refused and nothing changes; otherwise
   * exactly one user is added, holding the requested username and role and the
   * encoder's output for the password.
   */
  function Register(users: map<string, User>, d: RegisterRequest.ValidRegisterRequest, encode: string -> string)
    : (out: (Result<()>, map<string, User>))
    ensures out.0.Ok? <==> d.username.value !in users
    ensures out.0.Err? ==> out.0.error == UsernameTaken(UsernameTakenMessage) && out.1 == users
    ensures out.1.Keys == users.Keys + {d.username.value}
    ensures forall u :: u in users ==> out.1[u] == users[u]
    ensures out.0.Ok? ==> out.1[d.username.value] == User(d.username.value, encode(d.password.value), d.role.value)
    ensures KeyedByUsername(users) ==> KeyedByUsername(out.1)
  {
    var username := d.username.value;
    if username in users then
      (Err(UsernameTaken(UsernameTakenMessage)), users)
    else
      (Ok(()), users[username := User(username, encode(d.password.value), d.role.value)])
  }

  /** The table after a sequence of `create` calls, failed ones included. */
  function RegisterAll(users: map<string, User>, ds: seq<RegisterRequest.ValidRegisterRequest>, encode: string -> string)
    : (after: map<string, User>)
    decreases |ds|
  {
    if ds == [] then users else RegisterAll(Register(users, ds[0], encode).1, ds[1..], encode)
  }

  /** The usernames requested by a sequence of registrations. */
  function Requested(ds: seq<RegisterRequest.ValidRegisterRequest>): set<string>
  {
    set d | d in ds :: d.username.value
  }

  /**
   * Usernames stay unique across any sequence of `create` calls: the table
   * stays keyed by username, no earlier user is replaced, and the registered
   * usernames are exactly the earlier ones and the requested ones.
   */
  lemma {:induction false} RegisterAllKeepsUnique(
    users: map<string, User>, ds: seq<RegisterRequest.ValidRegisterRequest>, encode: string -> string)
    requires KeyedByUsername(users)
    ensures KeyedByUsername(RegisterAll(users, ds, encode))
    ensures UniqueUsernames(RegisterAll(users, ds, encode))
    ensures RegisterAll(users, ds, encode).Keys == users.Keys + Requested(ds)
    ensures forall u :: u in users ==> RegisterAll(users, ds, encode)[u] == users[u]
    decreases |ds|
  {
    if ds != [] {
      var next := Register(users, ds[0], encode).1;
      RegisterAllKeepsUnique(next, ds[1..], encode);
      assert Requested(ds) == {ds[0].username.value} + Requested(ds[1..]) by {
        forall n | n in Requested(ds) ensures n in {ds[0].username.value} + Requested(ds[1..]) {
          var d :| d in ds && d.username.value == n;
          if d != ds[0] { assert d in ds[1..]; }
        }
      }
    }
    KeyedImpliesUnique(RegisterAll(users, ds, encode));
  }

  /**
   * Two registrations of one new username: the first succeeds, the second is
   * refused with the username-taken message, and the first user stays.
   */
  lemma RegisterSameUsernameTwice(
    users: map<string, User>, d1: RegisterRequest.ValidRegisterRequest, d2: RegisterRequest.ValidRegisterRequest,
    encode: string -> string)
    requires d1.username == d2.username && d1.username.value !in users
    ensures Register(users, d1, encode).0 == Ok(())
    ensures Register(Register(users, d1, encode).1, d2, encode)
         == (Err(UsernameTaken(UsernameTakenMessage)), Register(users, d1, encode).1)
  {
  }

  class UserService {
    /** The user table behind userRepository. */
    var users: map<string, User>
    /** passwordEncoder.encode */
    const encode: string -> string
    /**
     * authenticationManager.authenticate: whether the raw password (null
     * included) matches the digest stored for the username.
     */
    const authenticate: (string, Option<string>, string) -> bool
    /** tokenService.generateToken */
    const generateToken: User -> string

    ghost predicate Valid()
      reads this
    {
      KeyedByUsername(users)
    }

    constructor (encode: string -> string, authenticate: (string, Option<string>, string) -> bool,
                 generateToken: User -> string)
      ensures Valid() && users == map[]
      ensures this.encode == encode && this.authenticate == authenticate && this.generateToken == generateToken
    {
      users := map[];
      this.encode := encode;
      this.authenticate := authenticate;
      this.generateToken := generateToken;
    }

    /**
     * create: registers the requested user unless the username is taken.
     * Only a request without field errors is accepted, as the controller tests
     * require (the controller shown carries no @Valid); what the code does
     * with an invalid body is not modelled.
     */
    method Create(data: RegisterRequest.ValidRegisterRequest) returns (r: Result<()>)
      requires Valid()
      modifies this
      ensures Valid()
      ensures (r, users) == Register(old(users), data, encode)
    {
      if FindByUsername(users, data.username).None? {
        var username := data.username.value;
        var encryptedPassword := encode(data.password.value);
        var newUser := User(username, encryptedPassword, data.role.value);
        users := users[username := newUser];
        r := Ok(());
      } else {
        r := Err(UsernameTaken(UsernameTakenMessage));
      }
    }

    /**
     * login: succeeds only for a stored user whose password authenticates, and
     * then returns a token for that user, the requested username and the
     * stored role. An unknown user and a rejected password give the same
     * failure value. The table is only read.
     */
    method Login(data: LoginRequest.LoginRequestDTO) returns (r: LoginResponse)
      ensures r.succeeded <==> data.username.Some? && data.username.value in users
                               && authenticate(data.username.value, data.password, users[data.username.value].password)
      ensures r.succeeded ==> r == LoginResponse(Some(generateToken(users[data.username.value])), data.username,
                                                 Some(users[data.username.value].role), true)
      ensures !r.succeeded ==> r == LoginFailure
    {
      var user := FindByUsername(users, data.username);
      if user.Some? {
        if authenticate(data.username.value, data.password, user.value.password) {
          var token := generateToken(user.value);
          r := LoginResponse(Some(token), data.username, Some(user.value.role), true);
        } else {
          r := LoginResponse(None, None, None, false);
        }
      } else {
        r := LoginResponse(None, None, None, false);
      }
    }
  }
}
