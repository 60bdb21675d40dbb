# Bike-race game: accounts, sessions, scores and leaderboard

A Dafny model of the server side of the bike-race game (`bike-race-game/app.py`).
The Flask app keeps three append-only tables — users, scores and login logs — in
SQLite, and one signed session cookie per client. Five routes act on them:

- `register` adds a user whose username and email are both new, storing a salted
  password digest;
- `login` checks a password against the stored digest, puts the user's id and name
  in the session and appends a login-log row with the client address;
- `logout` clears the session;
- `submit_score` appends a score row for the session user, or answers "Not logged in";
- `leaderboard` reads the ten highest scores joined with their users' names, the
  session user's best score and its distance, and the session user's name.

Layout:

- `records.dfy` (module `Records`): the rows, the session, the replies and their
  messages, the `filter_by(...).first()` lookup, and the invariant of the tables.
  The invariant covers sequential ids, unique usernames and emails, and every score
  and login-log row naming an existing user. A valid session names an existing
  user by id and by name.
- `accounts.dfy` (module `Accounts`): `register`, `login` and `logout` as pure
  steps from one state to the next. Each step returns the reply and the new state.
- `ledger.dfy` (module `Ledger`): `submit_score` as a step, and the per-user
  best-score lookup.
- `leaderboard.dfy` (module `Board`): the inner join of scores with users, a sort
  by descending score, the top-ten cut, and the leaderboard reply. `IsTop` and
  `IsLeaderboard` say what any correct reply satisfies. They do not fix the order
  among equal scores, because the query orders by score alone.
- `server.dfy` (module `Server`): class `GameServer` holds the tables as `seq`
  fields and the session as an `Option` field. Its route methods update these in
  place. Each method is proved to make exactly the step its pure counterpart
  describes and to keep the invariant.

The password hash and its checker (`generate_password_hash`,
`check_password_hash`) are the two functions of a `Hasher` value. The server is
given this value when it is built. The random salt, the clock readings and the
client address are parameters that the caller supplies. `Sound(h)` states that
a digest made from a password passes the check with that same password. Only
the register-then-login lemma and the end-to-end scenario need it.

What the code leaves open, the model leaves open too:

- The top-scores query (`order_by(Score.score.desc())`) names no tie-break, so
  `IsTop` allows any order among equal scores. `Board.Top` happens to be stable,
  but nothing relies on it.
- `user_best` is the first row of a separate query over the session user's
  rows (`filter_by(user_id=...).order_by(Score.score.desc()).first()`). Like the
  top-scores query, it orders by score alone with no tie-break. So `IsBestOf`
  accepts any highest-scoring row, and its distance comes with it.
- With no score row the reply is 0 and 0. A user whose scores are all negative
  gets the negative maximum, not 0.

## Model

| member | source | states |
|---|---|---|
| `Records.Find` | bike-race-game/app.py:53-56 | `filter_by(...).first()`: None exactly when no user matches; otherwise the position of a matching user with no match before it |
| `Records.FindById` | bike-race-game/app.py:16 | with primary keys handed out in order, looking a user up by id finds the row at position id - 1 exactly when 1 <= id <= number of users, and nothing otherwise |
| `Records.MessageIdentifiesOutcome` | bike-race-game/app.py:54-122 | the reply messages ("Username already exists", "Email already exists", "Registration successful", "Login successful", "Invalid credentials", "Not logged in", "Score submitted") are pairwise distinct, so a message determines the reply |
| `Records.Empty` | bike-race-game/app.py:150-152 | freshly created tables satisfy the invariant and no one is logged in |
| `Accounts.Register` | bike-race-game/app.py:44-68 | "Username already exists" exactly when the name is taken, which also covers a request duplicating both name and email; "Email already exists" exactly when only the email is taken; a refused request changes nothing; success appends exactly one user with the next id, holding the digest `hash(salt, password)`; the invariant, including unique usernames and emails, is preserved |
| `Accounts.Login` | bike-race-game/app.py:72-95 | succeeds exactly when a user with the name exists and the checker accepts the password against that user's digest; on success the session holds that user's id and name, one login-log row with that id, the time and the client address is appended, and nothing else changes; on failure nothing changes, an existing session included; the invariant is preserved |
| `Accounts.Logout` | bike-race-game/app.py:99-102 | the session is empty afterwards whatever it held, the tables are unchanged, and the invariant is preserved |
| `Accounts.LogoutIdempotent` | bike-race-game/app.py:99-102 | logging out twice leaves the same state as logging out once |
| `Accounts.InvalidCredentialsIndistinguishable` | bike-race-game/app.py:79-95 | an unknown username and a wrong password give the same reply and the same, unchanged state |
| `Accounts.RegisterThenLogin` | bike-race-game/app.py:60-93 | with a sound checker, a freshly registered user logs in with the same password and the session then holds the new id and name |
| `Ledger.SubmitScore` | bike-race-game/app.py:104-122 | "Not logged in" exactly when there is no session, and then nothing changes; otherwise exactly one score row is appended with the session's user id, the score and distance unchanged (no range check beyond the 64-bit column) and the client address; users, login logs and the session stay as they were; the invariant is preserved |
| `Ledger.BestScore` | bike-race-game/app.py:130-132 | None exactly when the user has no score row; otherwise a row of that user whose score is at least every other score of that user |
| `Ledger.SubmitUpdatesBest` | bike-race-game/app.py:113-132 | after a submission the submitter's best is the larger of the previous best and the new score, or the new score if it is the first |
| `Board.JoinRows` | bike-race-game/app.py:127 | the inner join of scores with users has no more entries than there are score rows |
| `Board.JoinRowsAtMostOnce` | bike-race-game/app.py:127 | the score rows of the join, counted with multiplicity, are among the score rows of the table: each score row yields at most one entry |
| `Board.JoinRowsSound` | bike-race-game/app.py:127 | each entry of the join is a row of the score table paired with the name of an existing user whose id that row names |
| `Board.JoinKeepsJoinableRows` | bike-race-game/app.py:127 | every score row whose user exists appears in the join, with no assumption on ids |
| `Board.JoinKeepsEveryRow` | bike-race-game/app.py:127 | when ids are sequential and every score names an existing user, the join keeps every score row in order, with that row's user's name |
| `Board.SortByScore` | bike-race-game/app.py:127 | the result is non-increasing by score and is a permutation of the input |
| `Board.Top` | bike-race-game/app.py:127 | the result satisfies `IsTop`: min(n, rows) entries drawn from the rows, non-increasing by score, and no row left out scores above one kept |
| `Board.SortedPrefixIsTop` | bike-race-game/app.py:127 | the first min(n, rows) entries of any non-increasing permutation of the joined rows answer the top-n query |
| `Board.TopEntryIsHighest` | bike-race-game/app.py:127 | the first entry of any top answer scores at least as high as every joined row |
| `Board.ShortBoardHoldsAll` | bike-race-game/app.py:127 | with no more rows than the limit, any top answer holds exactly the joined rows |
| `Board.Leaderboard` | bike-race-game/app.py:124-148 | the reply satisfies `IsLeaderboard`: the entries are a top-10 answer over the joined rows; `user_best` and `user_best_distance` come from one highest-scoring row of the session user, and are 0 with no session or no rows; `current_user` is the session's name or "" |
| `Board.LeaderboardRowsFromTables` | bike-race-game/app.py:127-141 | any leaderboard reply has at most ten entries, each a row of the score table shown with its own user's name |
| `Board.SingleRaceBoard` | bike-race-game/app.py:124-148 | with one user, one score row of that user and that user logged in, every leaderboard reply lists just that row under the user's name, takes best score and distance from it, and names the user as current |
| `Server.GameServer.constructor` | bike-race-game/app.py:150-152 | the server starts with empty tables, no session and a valid state |
| `Server.GameServer.Register` | bike-race-game/app.py:44-68 | updates the tables in place exactly as `Accounts.Register` and keeps the invariant |
| `Server.GameServer.Login` | bike-race-game/app.py:72-95 | updates the session and login logs in place exactly as `Accounts.Login` and keeps the invariant |
| `Server.GameServer.Logout` | bike-race-game/app.py:99-102 | clears the session in place exactly as `Accounts.Logout` |
| `Server.GameServer.SubmitScore` | bike-race-game/app.py:104-122 | updates the score table in place exactly as `Ledger.SubmitScore` and keeps the invariant |
| `Server.GameServer.Leaderboard` | bike-race-game/app.py:124-148 | returns a reply satisfying `IsLeaderboard` for the current tables and session |
| `Server.NewPlayerScenario` | bike-race-game/app.py:44-148 | on a new database, registering "bob", logging in and submitting score 120 over distance 450 gives a leaderboard holding just that row under "bob", with best 120, best distance 450 and current user "bob" |

## Left out

- Flask routing, the GET pages rendered from templates, the index redirect and the logout redirect (`bike-race-game/app.py:38-42`, 70, 97, 102). These are presentation.
- JSON parsing: `data.get` can return None or a value that is not a string or integer. The model takes the request fields as present strings and integers; a missing field is not modelled. Depending on the route, a missing field gives an ordinary reply: login without a username answers "Invalid credentials", and register without a username but with a taken email answers "Email already exists". A missing password is passed as None to the password hash functions. Otherwise a missing username, email, score or distance makes the database refuse the insert.
- The internals of `generate_password_hash` and `check_password_hash`. They are the two functions of a `Hasher`. The salt is a parameter.
- `datetime.utcnow` defaults and the `strftime` formatting of leaderboard timestamps. Timestamps are opaque values that the caller supplies, and entries carry them unformatted.
- SQLAlchemy sessions, commits, commit failures and table creation. SQLite's assignment of integer primary keys is modelled as position + 1, which is what it does when no row is ever deleted.
- Column length limits (`String(80)`, `String(120)`, `String(45)`): SQLite does not enforce them.
- Session cookie signing and expiry, and several clients at once. One client's session is a field.
- Stale cookies that name a user of an earlier database: no modelled operation deletes a user, so the session invariant holds.
- Ledger.SubmitScore: accepts any integer score and distance. A value outside the signed 64-bit range makes the database driver raise an error, so the route fails and stores no row; the model replies "Score submitted" and appends the row.
- Board.Top: fixes one order (stable) among equal scores. Callers are only promised `IsTop`, which leaves that order open.
- The snake game, the database viewer, the temperature analysis and the two `view_database.py` scripts. They are not part of this model.
