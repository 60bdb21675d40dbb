/**
 * The Flask app as one object: the three tables and one client's session are
 * fields that the route methods update in place, each proved to make exactly
 * the step its pure counterpart describes.
 */
module Server {
  import opened Records
  import Accounts
  import Ledger
  import Board

  class GameServer {
    /** `generate_password_hash` and `check_password_hash`. */
    const hasher: Hasher
    var users: seq<User>
    var scores: seq<Score>
    var logins: seq<LoginLog>
    var session: Option<Session>

    function Snapshot(): World
      reads this
    {
      World(Db(users, scores, logins), session)
    }

    ghost predicate Valid()
      reads this
    {
      WorldInv(Snapshot())
    }

    /** `db.create_all()` on a new database file, with no one logged in. */
    constructor (hasher: Hasher)
      ensures Valid() && this.hasher == hasher
      ensures Snapshot() == Empty()
    {
      this.hasher := hasher;
      users, scores, logins := [], [], [];
      session := None;
    }

    method Register(username: string, email: string, password: string, salt: nat, now: Timestamp) returns (outcome: Outcome)
      requires Valid()
      modifies this
      ensures Valid()
      ensures var r := Accounts.Register(old(Snapshot()), hasher, username, email, password, salt, now);
              Snapshot() == r.next && outcome == r.outcome
    {
      if Find(users, ByName(username)).Some? {
        return UsernameExists;
      }
      if Find(users, ByEmail(email)).Some? {
        return EmailExists;
      }
      users := users + [Accounts.NewUser(Snapshot().db, hasher, username, email, password, salt, now)];
      outcome := RegistrationSuccessful;
    }

    method Login(username: string, password: string, ip: Ip, now: Timestamp) returns (outcome: Outcome)
      requires Valid()
      modifies this
      ensures Valid()
      ensures var r := Accounts.Login(old(Snapshot()), hasher, username, password, ip, now);
              Snapshot() == r.next && outcome == r.outcome
    {
      var found := Find(users, ByName(username));
      if found.Some? && hasher.check(users[found.value].passwordHash, password) {
        var u := users[found.value];
        session := Some(Session(u.id, u.username));
        logins := logins + [Accounts.NewLogin(Snapshot().db, u.id, ip, now)];
        outcome := LoginSuccessful;
      } else {
        outcome := InvalidCredentials;
      }
    }

    method Logout()
      requires Valid()
      modifies this
      ensures Valid()
      ensures Snapshot() == Accounts.Logout(old(Snapshot()))
    {
      session := None;
    }

    method SubmitScore(score: int, distance: int, ip: Ip, now: Timestamp) returns (outcome: Outcome)
      requires Valid()
      modifies this
      ensures Valid()
      ensures var r := Ledger.SubmitScore(old(Snapshot()), score, distance, ip, now);
              Snapshot() == r.next && outcome == r.outcome
    {
      if session.None? {
        return NotLoggedIn;
      }
      scores := scores + [Ledger.NewScore(Snapshot(), score, distance, ip, now)];
      outcome := ScoreSubmitted;
    }

    /** Reads the tables and the session; changes nothing. */
    method Leaderboard() returns (view: Board.View)
      ensures Board.IsLeaderboard(Snapshot(), view)
    {
      view := Board.Leaderboard(Snapshot());
    }
  }

  /**
   * A new player on a new database: registering, logging in and submitting a
   * race of score 120 over distance 450 yields a leaderboard holding exactly
   * that race under the player's name, which is also the player's best.
   */
  method NewPlayerScenario(h: Hasher, salt: nat, ip: Ip, t0: Timestamp, t1: Timestamp, t2: Timestamp)
    returns (view: Board.View)
    requires Sound(h)
    ensures view.entries == [Board.Entry(Score(1, 1, 120, 450, t2, ip), "bob")]
    ensures view.userBest == 120 && view.userBestDistance == 450
    ensures view.currentUser == "bob"
  {
    var app := new GameServer(h);
    var registered := app.Register("bob", "b@x.com", "pw123", salt, t0);
    var bob := User(1, "bob", "b@x.com", h.hash(salt, "pw123"), t0);
    assert registered == RegistrationSuccessful && app.users == [bob];
    var loggedIn := app.Login("bob", "pw123", ip, t1);
    assert Matches(bob, ByName("bob")) && h.check(bob.passwordHash, "pw123");
    assert loggedIn == LoginSuccessful && app.users == [bob];
    assert app.session == Some(Session(1, "bob")) && app.scores == [];
    var submitted := app.SubmitScore(120, 450, ip, t2);
    var race := Score(1, 1, 120, 450, t2, ip);
    assert app.scores == [race] && app.users == [bob] && app.session == Some(Session(1, "bob"));
    view := app.Leaderboard();
    Board.SingleRaceBoard(app.Snapshot(), view, bob, race);
  }
}
