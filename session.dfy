/**
 * The decision of POST /login in server/server.js. The user collection is an
 * abstract table; the bcrypt comparison is a parameter `hashMatches(password,
 * hash)`, and the signed JWT is the value it would carry: the user's id and a
 * lifetime of one day.
 */
module Session {
  import opened Wrappers
  import opened Http
  import opened Query
  import opened CityModel

  datatype User = User(id: UserId, email: string, passwordHash: string)

  /** The payload and lifetime of the token `jwt.sign` issues. */
  datatype Token = Token(userId: UserId, expiresInSeconds: nat)

  /** The "1d" of the token options, in seconds. */
  const TokenLifetime: nat := 86400

  const UserNotFound: string := "User not found"
  const InvalidPassword: string := "Invalid password"
  const LoginFailed: string := "Login error"

  /** Position i holds the user `findOne({ email })` returns: the first with that email. */
  predicate FirstWithEmail(users: seq<User>, email: string, i: int) {
    0 <= i < |users| && users[i].email == email && forall j :: 0 <= j < i ==> users[j].email != email
  }

  function EmailFilter(email: string): User -> bool {
    (u: User) => u.email == email
  }

  /**
   * POST /login. No user with the email is a 400 "User not found"; an absent password
   * makes the hash comparison throw (500); a password that does not match the stored
   * hash is a 400 "Invalid password"; otherwise a one-day token for that user.
   */
  function Login(users: seq<User>, email: string, password: Option<string>,
                 hashMatches: (string, string) -> bool): (r: Response<Token>)
    ensures r.Ok? || r == BadRequest(UserNotFound) || r == BadRequest(InvalidPassword) || r == ServerError(LoginFailed)
    ensures r == BadRequest(UserNotFound) <==> forall i :: 0 <= i < |users| ==> users[i].email != email
    ensures r == ServerError(LoginFailed) <==> (exists i :: FirstWithEmail(users, email, i)) && password.None?
    ensures r == BadRequest(InvalidPassword) <==>
              exists i :: FirstWithEmail(users, email, i) && password.Some?
                          && !hashMatches(password.value, users[i].passwordHash)
    ensures r.Ok? <==>
              exists i :: FirstWithEmail(users, email, i) && password.Some?
                          && hashMatches(password.value, users[i].passwordHash)
                          && r == Ok(Token(users[i].id, TokenLifetime))
  {
    match FindFirst(users, EmailFilter(email))
    case None => BadRequest(UserNotFound)
    case Some(i) =>
      assert FirstWithEmail(users, email, i);
      FirstWithEmailUnique(users, email, i);
      if password.None? then ServerError(LoginFailed)
      else if !hashMatches(password.value, users[i].passwordHash) then BadRequest(InvalidPassword)
      else Ok(Token(users[i].id, TokenLifetime))
  }

  /** Only one position is the first with a given email. */
  lemma FirstWithEmailUnique(users: seq<User>, email: string, i: int)
    requires FirstWithEmail(users, email, i)
    ensures forall k :: FirstWithEmail(users, email, k) ==> k == i
  {
  }

  /** A password that does not match the stored hash never yields a token. */
  lemma WrongPasswordNoToken(users: seq<User>, email: string, password: string,
                             hashMatches: (string, string) -> bool, i: nat)
    requires FirstWithEmail(users, email, i)
    requires !hashMatches(password, users[i].passwordHash)
    ensures Login(users, email, Some(password), hashMatches) == BadRequest(InvalidPassword)
  {
    FirstWithEmailUnique(users, email, i);
  }

  /** A user stored with the hash of their password, under an email no earlier user has, can
      log in with that password and gets a token for their own id. */
  lemma RegisteredUserLogsIn(users: seq<User>, user: User, password: string,
                             hashMatches: (string, string) -> bool)
    requires forall i :: 0 <= i < |users| ==> users[i].email != user.email
    requires hashMatches(password, user.passwordHash)
    ensures Login(users + [user], user.email, Some(password), hashMatches) == Ok(Token(user.id, TokenLifetime))
  {
    var all := users + [user];
    assert FirstWithEmail(all, user.email, |users|);
    FirstWithEmailUnique(all, user.email, |users|);
  }
}
