/** AuthService: registration and login of owners.  The password encoder,
    the token generator and the authentication manager are collaborators
    whose workings are not modelled; they are given as functions. */
module AuthService {
  import opened Results
  import opened Entities
  import opened Dtos
  import opened Persistence

  /** PasswordEncoder.encode, JwtUtil.generateToken(email, userId) and the
      outcome of AuthenticationManager.authenticate for an email/password
      pair (true: authenticated, false: it throws). */
  datatype Security = Security(
    encode: string -> string,
    generateToken: (string, nat) -> string,
    authenticate: (string, string) -> bool)

  const Registered := "User registered successfully"
  const LoggedIn := "Login successful"

  /** register: refuses an email that is already taken; otherwise stores one
      OWNER user with a fresh id and the encoded password, and answers with a
      token for the saved user's email and id. */
  method Register(db: Store, security: Security, name: string, email: string, password: string)
    returns (r: Result<AuthResponse>)
    requires db.Valid()
    modifies db`users, db`nextUserId
    ensures db.Valid()
    ensures r.Failure? <==> ExistsByEmail(old(db.users), email)
    ensures r.Failure? ==>
      r.error == AlreadyExists(email) && db.users == old(db.users) && db.nextUserId == old(db.nextUserId)
    ensures r.Success? ==>
      var id := r.value.userId;
      && id !in old(db.users)
      && id == old(db.nextUserId) && db.nextUserId == id + 1
      && db.users == old(db.users)[id := User(id, name, email, security.encode(password), Owner)]
      && r.value == AuthResponse(security.generateToken(email, id), Registered, id, name, email)
    ensures ExistsByEmail(db.users, email)
  {
    if ExistsByEmail(db.users, email) {
      return Failure(AlreadyExists(email));
    }
    var id := db.nextUserId;
    var saved := User(id, name, email, security.encode(password), Owner);
    db.users := db.users[id := saved];
    db.nextUserId := id + 1;
    assert db.users[id].email == email;
    var token := security.generateToken(saved.email, saved.id);
    r := Success(AuthResponse(token, Registered, saved.id, saved.name, saved.email));
  }

  /** login: the credential check comes first and stops the call when it
      fails; then the user with that email is looked up and answered with a
      token for that user's email and id.  Nothing is written. */
  function Login(users: map<nat, User>, security: Security, email: string, password: string): (r: Result<AuthResponse>)
    requires UserKeysAreIds(users) && UniqueEmails(users)
    ensures !security.authenticate(email, password) ==> r == Failure(AuthenticationFailed)
    ensures security.authenticate(email, password) && !ExistsByEmail(users, email) ==> r == Failure(UserNotFound)
    ensures r.Success? <==> security.authenticate(email, password) && ExistsByEmail(users, email)
    ensures r.Success? ==>
      var id := r.value.userId;
      && id in users && users[id].email == email
      && r.value == AuthResponse(security.generateToken(email, id), LoggedIn, id, users[id].name, email)
  {
    if !security.authenticate(email, password) then
      Failure(AuthenticationFailed)
    else
      match FindByEmail(users, email)
      case None => Failure(UserNotFound)
      case Some(user) =>
        Success(AuthResponse(security.generateToken(user.email, user.id), LoggedIn, user.id, user.name, user.email))
  }

  /** With emails unique, the user a login answers for is the one registered
      under that email. */
  lemma LoginAnswersForTheEmailsOwner(users: map<nat, User>, security: Security, email: string, password: string, k: nat)
    requires UserKeysAreIds(users) && UniqueEmails(users)
    requires k in users && users[k].email == email
    requires security.authenticate(email, password)
    ensures Login(users, security, email, password).Success?
    ensures Login(users, security, email, password).value.userId == k
  {
  }
}
