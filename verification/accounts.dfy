/**
 * The account routes `register`, `login` and `logout` as steps on the tables
 * and the client's session.
 */
module Accounts {
  import opened Records

  /** The state after a route, and its JSON reply. */
  datatype Step = Step(next: World, outcome: Outcome)

  ghost predicate NameTaken(users: seq<User>, name: string) {
    exists i :: 0 <= i < |users| && users[i].username == name
  }

  ghost predicate EmailTaken(users: seq<User>, email: string) {
    exists i :: 0 <= i < |users| && users[i].email == email
  }

  /** The row a successful registration adds. */
  function NewUser(db: Db, h: Hasher, username: string, email: string, password: string, salt: nat, now: Timestamp): User {
    User(|db.users| + 1, username, email, h.hash(salt, password), now)
  }

  /** The login log row a successful login appends. */
  function NewLogin(db: Db, userId: nat, ip: Ip, now: Timestamp): LoginLog {
    LoginLog(|db.logins| + 1, userId, now, ip)
  }

  /**
   * POST /register. The username is checked before the email, so a request
   * duplicating both reports the username; a refused request changes nothing;
   * an accepted one appends one user holding the digest of the password.
   */
  function Register(w: World, h: Hasher, username: string, email: string, password: string, salt: nat, now: Timestamp): (r: Step)
    ensures r.outcome in {RegistrationSuccessful, UsernameExists, EmailExists}
    ensures r.outcome == UsernameExists <==> NameTaken(w.db.users, username)
    ensures r.outcome == EmailExists <==> !NameTaken(w.db.users, username) && EmailTaken(w.db.users, email)
    ensures !r.outcome.Success() ==> r.next == w
    ensures r.outcome.Success() ==>
      && r.next.session == w.session
      && r.next.db.scores == w.db.scores
      && r.next.db.logins == w.db.logins
      && |r.next.db.users| == |w.db.users| + 1
      && r.next.db.users[..|w.db.users|] == w.db.users
      && r.next.db.users[|w.db.users|] == User(|w.db.users| + 1, username, email, h.hash(salt, password), now)
    ensures WorldInv(w) ==> WorldInv(r.next)
  {
    var users := w.db.users;
    if Find(users, ByName(username)).Some? then
      Step(w, UsernameExists)
    else if Find(users, ByEmail(email)).Some? then
      Step(w, EmailExists)
    else
      var u := NewUser(w.db, h, username, email, password, salt, now);
      var next := w.(db := w.db.(users := users + [u]));
      assert WorldInv(w) ==> WorldInv(next) by {
        if WorldInv(w) {
          var users' := users + [u];
          forall i, j | 0 <= i < j < |users'|
            ensures users'[i].username != users'[j].username && users'[i].email != users'[j].email
          {
            if j == |users| {
              assert !Matches(users[i], ByName(username)) && !Matches(users[i], ByEmail(email));
            }
          }
        }
      }
      Step(next, RegistrationSuccessful)
  }

  /**
   * POST /login. Succeeds exactly when a user has the username and the checker
   * accepts the password against that user's digest; then the session names
   * that user and one login log row with the client address is appended.
   * Both kinds of failure give the same reply and change nothing, the
   * session included.
   */
  function Login(w: World, h: Hasher, username: string, password: string, ip: Ip, now: Timestamp): (r: Step)
    ensures r.outcome in {LoginSuccessful, InvalidCredentials}
    ensures UniqueUsers(w.db.users) ==>
      (r.outcome == LoginSuccessful <==>
        exists i :: 0 <= i < |w.db.users| && w.db.users[i].username == username && h.check(w.db.users[i].passwordHash, password))
    ensures r.outcome == InvalidCredentials ==> r.next == w
    ensures r.outcome == LoginSuccessful ==>
      exists i :: 0 <= i < |w.db.users| && w.db.users[i].username == username
        && h.check(w.db.users[i].passwordHash, password)
        && r.next.session == Some(Session(w.db.users[i].id, username))
        && r.next.db == w.db.(logins := w.db.logins + [LoginLog(|w.db.logins| + 1, w.db.users[i].id, now, ip)])
    ensures WorldInv(w) ==> WorldInv(r.next)
  {
    match Find(w.db.users, ByName(username))
    case None => Step(w, InvalidCredentials)
    case Some(i) =>
      var u := w.db.users[i];
      if h.check(u.passwordHash, password) then
        var log := NewLogin(w.db, u.id, ip, now);
        var next := World(w.db.(logins := w.db.logins + [log]), Some(Session(u.id, u.username)));
        assert WorldInv(w) ==> WorldInv(next) by {
          if WorldInv(w) {
            assert u.id == i + 1;
          }
        }
        Step(next, LoginSuccessful)
      else
        Step(w, InvalidCredentials)
  }

  /** GET /logout: the session is emptied whatever it held; the tables are untouched. */
  function Logout(w: World): (r: World)
    ensures r.session.None? && r.db == w.db
    ensures WorldInv(w) ==> WorldInv(r)
  {
    w.(session := None)
  }

  /** Logging out twice leaves the same state as logging out once. */
  lemma LogoutIdempotent(w: World)
    ensures Logout(Logout(w)) == Logout(w)
  {
  }

  /**
   * An unknown username and a wrong password for a known one cannot be told
   * apart: both reply "Invalid credentials" and leave the state as it was.
   */
  lemma InvalidCredentialsIndistinguishable(w: World, h: Hasher, unknown: string, known: string, wrong: string, p: string, ip: Ip, now: Timestamp)
    requires !NameTaken(w.db.users, unknown)
    requires forall i :: 0 <= i < |w.db.users| && w.db.users[i].username == known ==> !h.check(w.db.users[i].passwordHash, wrong)
    ensures Login(w, h, unknown, p, ip, now) == Login(w, h, known, wrong, ip, now) == Step(w, InvalidCredentials)
  {
  }

  /**
   * With a sound checker, a user who has just registered can log in with the
   * same password and is then the session user, under the new id.
   */
  lemma RegisterThenLogin(w: World, h: Hasher, username: string, email: string, password: string, salt: nat, now: Timestamp, ip: Ip, later: Timestamp)
    requires Sound(h) && WorldInv(w)
    requires Register(w, h, username, email, password, salt, now).outcome == RegistrationSuccessful
    ensures var w1 := Register(w, h, username, email, password, salt, now).next;
            var r := Login(w1, h, username, password, ip, later);
            r.outcome == LoginSuccessful && r.next.session == Some(Session(|w.db.users| + 1, username))
  {
    var w1 := Register(w, h, username, email, password, salt, now).next;
    var n := |w.db.users|;
    assert w1.db.users[..n] == w.db.users;
    assert Matches(w1.db.users[n], ByName(username));
    assert Find(w1.db.users, ByName(username)) == Some(n) by {
      forall j | 0 <= j < n ensures !Matches(w1.db.users[j], ByName(username)) {
        assert w1.db.users[j] == w.db.users[j];
      }
    }
  }
}
