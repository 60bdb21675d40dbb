/**
 * Rows of the three tables of the bike-race game (User, Score, LoginLog),
 * the client session, the reply messages, and the invariant the tables keep.
 */
module Records {

  /** Clock readings and client addresses are opaque values supplied by the caller. */
  type Timestamp = int
  type Ip = string
  type Digest = string

  datatype Option<T> = None | Some(value: T)

  /** A row of the `user` table; `id` is the integer primary key. */
  datatype User = User(id: nat, username: string, email: string, passwordHash: Digest, createdAt: Timestamp)

  /** A row of the `score` table. */
  datatype Score = Score(id: nat, userId: nat, score: int, distance: int, timestamp: Timestamp, ip: Ip)

  /** A row of the `login_log` table. */
  datatype LoginLog = LoginLog(id: nat, userId: nat, loginTime: Timestamp, ip: Ip)

  /** What one client's session cookie holds after a successful login. */
  datatype Session = Session(userId: nat, username: string)

  /** The three tables, in insertion order. */
  datatype Db = Db(users: seq<User>, scores: seq<Score>, logins: seq<LoginLog>)

  /** The tables together with the session of the one client being served. */
  datatype World = World(db: Db, session: Option<Session>)

  /**
   * The salted password hash and its checker. `hash(salt, password)` stands for
   * `generate_password_hash`, whose random salt the caller supplies here;
   * `check(digest, password)` stands for `check_password_hash`.
   */
  datatype Hasher = Hasher(hash: (nat, string) -> Digest, check: (Digest, string) -> bool)

  /** A checker accepts every digest made from the same password. */
  ghost predicate Sound(h: Hasher) {
    forall salt, password :: h.check(h.hash(salt, password), password)
  }

  /** The JSON replies of the POST routes. */
  datatype Outcome =
    | RegistrationSuccessful
    | UsernameExists
    | EmailExists
    | LoginSuccessful
    | InvalidCredentials
    | ScoreSubmitted
    | NotLoggedIn
  {
    predicate Success() {
      this == RegistrationSuccessful || this == LoginSuccessful || this == ScoreSubmitted
    }

    function Message(): string {
      match this
      case RegistrationSuccessful => "Registration successful"
      case UsernameExists => "Username already exists"
      case EmailExists => "Email already exists"
      case LoginSuccessful => "Login successful"
      case InvalidCredentials => "Invalid credentials"
      case ScoreSubmitted => "Score submitted"
      case NotLoggedIn => "Not logged in"
    }
  }

  /** The keyword arguments of `User.query.filter_by(...)`. */
  datatype Key = ByName(name: string) | ByEmail(email: string) | ById(id: nat)

  predicate Matches(u: User, key: Key) {
    match key
    case ByName(n) => u.username == n
    case ByEmail(e) => u.email == e
    case ById(i) => u.id == i
  }

  /** `User.query.filter_by(key).first()`: the position of the first matching user. */
  function Find(users: seq<User>, key: Key): (r: Option<nat>)
    ensures r.None? <==> forall i :: 0 <= i < |users| ==> !Matches(users[i], key)
    ensures r.Some? ==> r.value < |users| && Matches(users[r.value], key)
    ensures r.Some? ==> forall j :: 0 <= j < r.value ==> !Matches(users[j], key)
  {
    if |users| == 0 then None
    else if Matches(users[0], key) then Some(0)
    else match Find(users[1..], key)
      case None => None
      case Some(k) => Some(k + 1)
  }

  /**
   * Integer primary keys handed out by the database: with no row ever
   * deleted, the row at position i has id i + 1.
   */
  ghost predicate SequentialIds(db: Db) {
    && (forall i :: 0 <= i < |db.users| ==> db.users[i].id == i + 1)
    && (forall i :: 0 <= i < |db.scores| ==> db.scores[i].id == i + 1)
    && (forall i :: 0 <= i < |db.logins| ==> db.logins[i].id == i + 1)
  }

  /** The `unique=True` constraints on `username` and `email`. */
  ghost predicate UniqueUsers(users: seq<User>) {
    forall i, j :: 0 <= i < j < |users| ==>
      users[i].username != users[j].username && users[i].email != users[j].email
  }

  /** Whether some user has id `id`, given sequential ids. */
  predicate IsUserId(db: Db, id: nat) {
    1 <= id <= |db.users|
  }

  /** Every score and every login log names an existing user. */
  ghost predicate ReferencesExist(db: Db) {
    && (forall i :: 0 <= i < |db.scores| ==> IsUserId(db, db.scores[i].userId))
    && (forall i :: 0 <= i < |db.logins| ==> IsUserId(db, db.logins[i].userId))
  }

  ghost predicate Inv(db: Db) {
    SequentialIds(db) && UniqueUsers(db.users) && ReferencesExist(db)
  }

  /** A session names an existing user by id and by that user's username. */
  ghost predicate SessionValid(w: World) {
    w.session.Some? ==>
      IsUserId(w.db, w.session.value.userId) &&
      w.db.users[w.session.value.userId - 1].username == w.session.value.username
  }

  ghost predicate WorldInv(w: World) {
    Inv(w.db) && SessionValid(w)
  }

  /** The empty tables of a freshly created database, with no one logged in. */
  function Empty(): (w: World)
    ensures WorldInv(w) && w.session.None?
  {
    World(Db([], [], []), None)
  }

  /** With ids handed out in order, a user is found by id exactly at position id - 1. */
  lemma FindById(users: seq<User>, id: nat)
    requires forall i :: 0 <= i < |users| ==> users[i].id == i + 1
    ensures Find(users, ById(id)) == if 1 <= id <= |users| then Some(id - 1) else None
  {
    if 1 <= id <= |users| {
      assert Matches(users[id - 1], ById(id));
    }
  }

  /** Each reply has its own message, so the message tells the client which case occurred. */
  lemma MessageIdentifiesOutcome(a: Outcome, b: Outcome)
    ensures a.Message() == b.Message() ==> a == b
  {
  }
}
