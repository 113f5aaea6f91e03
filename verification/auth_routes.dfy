/*
 * Registration and the current-user route (backend/routes/auth.js). The
 * checks run in a fixed order: both fields present, password length, an
 * existing username, then the save itself. The existence check looks up
 * the lower-cased raw username; Mongoose casts that filter value through
 * the username path's trim and lowercase setters, so the lookup asks for
 * the stored form of the name.
 */
module AuthRoutes {
  import opened Base
  import opened ServerModel

  const MinPasswordLength := 6

  datatype Reply =
    | MissingFields
    | PasswordTooShort
    | UsernameTaken
    | Registered(id: string, username: string)
    | ServerError

  function Status(r: Reply): int {
    match r
    case MissingFields => 400
    case PasswordTooShort => 400
    case UsernameTaken => 400
    case Registered(_, _) => 201
    case ServerError => 500
  }

  /** The reply, the users collection after it, and the request's session
      (req.login signs a freshly registered user in). */
  datatype Outcome = Outcome(reply: Reply, users: seq<User>, session: Session)

  /** Some stored user has exactly this username. */
  predicate HasUsername(users: seq<User>, name: string) {
    exists i :: 0 <= i < |users| && users[i].username == name
  }

  /** Both fields truthy: present and not the empty string. */
  predicate Present(v: Option<string>) {
    v.Some? && v.value != ""
  }

  /** The key `User.findOne({ username: username.toLowerCase() })` looks up
      once Mongoose has cast it. */
  function LookupKey(username: string): string {
    NormalizeUsername(ToLower(username))
  }

  /** POST /register. `id` is the ObjectId the new document gets, `hash`
      stands for bcrypt, and `loginFails` for an error from req.login after
      the user was saved. The password's length is its UTF-16 length. */
  function Register(users: seq<User>, s: Session, id: string, username: Option<string>,
                    password: Option<string>, hash: string -> string, loginFails: bool): (r: Outcome)
    ensures r.reply.MissingFields? <==> !Present(username) || !Present(password)
    ensures r.reply.PasswordTooShort? <==>
      Present(username) && Present(password) && Utf16Length(password.value) < MinPasswordLength
    ensures r.reply.UsernameTaken? <==>
      Present(username) && Present(password) && Utf16Length(password.value) >= MinPasswordLength
      && HasUsername(users, NormalizeUsername(username.value))
    ensures r.reply.Registered? ==>
      && r.users == users + [User(id, NormalizeUsername(username.value), hash(password.value), [], [])]
      && r.reply == Registered(id, NormalizeUsername(username.value))
      && r.session == SignedIn(r.users[|users|])
    ensures !r.reply.Registered? && !r.reply.ServerError? ==> r.users == users && r.session == s
    ensures UsersUnique(users) ==> UsersUnique(r.users)
  {
    if !Present(username) || !Present(password) then Outcome(MissingFields, users, s)
    else if Utf16Length(password.value) < MinPasswordLength then Outcome(PasswordTooShort, users, s)
    else
      QueryCastOfLowerCased(username.value);
      if HasUsername(users, LookupKey(username.value)) then Outcome(UsernameTaken, users, s)
      else match SaveNewUser(users, id, username.value, password.value, hash)
        case UserSaved(u) =>
          if loginFails then Outcome(ServerError, users + [u], s)
          else Outcome(Registered(u.id, u.username), users + [u], SignedIn(u))
        case _ => Outcome(ServerError, users, s)
  }

  /** With a fresh id and a working login, registration answers 500 only for
      a username of nothing but whitespace, which passes the truthiness
      check and then fails the required validator: a taken username always
      gets its 400. */
  lemma RegisterErrors(users: seq<User>, s: Session, id: string, username: Option<string>,
                       password: Option<string>, hash: string -> string)
    requires forall i :: 0 <= i < |users| ==> users[i].id != id
    ensures
      var r := Register(users, s, id, username, password, hash, false);
      r.reply.ServerError? <==>
        Present(username) && Present(password) && Utf16Length(password.value) >= MinPasswordLength
        && NormalizeUsername(username.value) == "" && !HasUsername(users, "")
  {
    if Present(username) && Present(password) && Utf16Length(password.value) >= MinPasswordLength
       && !HasUsername(users, NormalizeUsername(username.value)) {
      var name, pw := username.value, password.value;
      if NormalizeUsername(name) != "" {
        NoClash(users, User(id, NormalizeUsername(name), hash(pw), [], []));
        AcceptedSave(users, s, id, name, pw, hash);
      } else {
        RefusedSave(users, s, id, name, pw, hash, false);
      }
    }
  }

  /** A username nobody has and an id nobody has clash with no index. */
  lemma NoClash(users: seq<User>, u: User)
    requires !HasUsername(users, u.username)
    requires forall i :: 0 <= i < |users| ==> users[i].id != u.id
    ensures !ClashesWith(users, u)
  {
  }

  /** A request that passes every check and whose save succeeds is
      answered with 201 when the login works. */
  lemma AcceptedSave(users: seq<User>, s: Session, id: string,
                     username: string, password: string, hash: string -> string)
    requires username != "" && Utf16Length(password) >= MinPasswordLength
    requires !HasUsername(users, NormalizeUsername(username))
    requires SaveNewUser(users, id, username, password, hash).UserSaved?
    ensures Register(users, s, id, Some(username), Some(password), hash, false).reply.Registered?
  {
  }

  /** A request that passes every check but whose save is refused is
      answered with 500. */
  lemma RefusedSave(users: seq<User>, s: Session, id: string,
                    username: string, password: string, hash: string -> string, loginFails: bool)
    requires username != "" && Utf16Length(password) >= MinPasswordLength
    requires !HasUsername(users, NormalizeUsername(username))
    requires !SaveNewUser(users, id, username, password, hash).UserSaved?
    ensures Register(users, s, id, Some(username), Some(password), hash, loginFails).reply == ServerError
  {
  }

  /** A name that is its own lower case and has no surrounding
      whitespace. */
  predicate Plain(name: string) {
    && name != [] && !IsJsWhitespace(name[0]) && !IsJsWhitespace(name[|name| - 1])
    && forall k :: 0 <= k < |name| ==> !('A' <= name[k] <= 'Z')
  }

  /** A lower-case name with one leading space is stored without the
      space. */
  lemma PaddedName(name: string)
    requires Plain(name)
    ensures NormalizeUsername([' '] + name) == name
  {
    var padded := [' '] + name;
    assert Trim(padded) == name by { TrimOneLeading(' ', name); }
    assert ToLower(name) == name by { ToLowerNoUpper(name); }
  }

  /** Registering a taken name again with a leading space is refused as
      taken: the cast lookup finds the stored name. */
  lemma PaddedCaught(name: string, hash: string -> string)
    requires Plain(name)
    ensures
      var users := [User("u1", name, hash("secret1"), [], [])];
      Register(users, Anonymous, "u2", Some([' '] + name), Some("secret2"), hash, false).reply
      == UsernameTaken
  {
    var users := [User("u1", name, hash("secret1"), [], [])];
    var padded := [' '] + name;
    PaddedName(name);
    assert HasUsername(users, NormalizeUsername(padded)) by {
      assert users[0].username == NormalizeUsername(padded);
    }
    TakenLookup(users, Anonymous, "u2", padded, "secret2", hash, false);
  }

  /** A request that passes the first two checks and whose username is
      taken is answered with 400. */
  lemma TakenLookup(users: seq<User>, s: Session, id: string,
                    username: string, password: string, hash: string -> string, loginFails: bool)
    requires username != "" && |password| >= MinPasswordLength
    requires HasUsername(users, NormalizeUsername(username))
    ensures Register(users, s, id, Some(username), Some(password), hash, loginFails).reply == UsernameTaken
  {
  }

  /** Three emoji are six UTF-16 code units, so a password of three emoji
      passes the length check although it has only three code points. */
  lemma AstralPasswordAccepted(users: seq<User>, s: Session, id: string, username: Option<string>,
                               hash: string -> string, loginFails: bool)
    requires Present(username)
    ensures
      var pw := "\U{1F600}\U{1F600}\U{1F600}";
      |pw| == 3 && Register(users, s, id, username, Some(pw), hash, loginFails).reply != PasswordTooShort
  {
    var pw := "\U{1F600}\U{1F600}\U{1F600}";
    assert pw[1..][1..][1..] == [];
    assert Utf16Length(pw) == 6;
  }

  /** A freshly registered user's stored password is accepted by
      comparePassword for the password they registered with. */
  lemma RegisteredPasswordMatches(users: seq<User>, s: Session, id: string, username: Option<string>,
                                  password: Option<string>, hash: string -> string,
                                  compare: (string, string) -> bool)
    requires forall p :: compare(p, hash(p))
    requires Register(users, s, id, username, password, hash, false).reply.Registered?
    ensures
      var r := Register(users, s, id, username, password, hash, false);
      ComparePassword(r.users[|users|], password.value, compare)
  {
    var r := Register(users, s, id, username, password, hash, false);
    assert r.users[|users|].password == hash(password.value);
  }

  /** GET /user: the signed-in user's id and username, or null. */
  function CurrentUser(s: Session): (r: Option<(string, string)>)
    ensures r.Some? <==> s.SignedIn?
    ensures r.Some? ==> r.value == (s.user.id, s.user.username)
  {
    if s.SignedIn? then Some((s.user.id, s.user.username)) else None
  }
}
