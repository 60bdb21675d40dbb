/**
 * GET /leaderboard: the ten highest scores joined with their users' names, the
 * session user's best score and distance, and the session user's name.
 */
module Board {
  import opened Records
  import opened Ledger

  /** The `.limit(10)` of the top-scores query. */
  const TopCount: nat := 10

  /** A row of the joined query `db.session.query(Score, User).join(User)`. */
  datatype Entry = Entry(row: Score, username: string)

  /** The entry's user exists and has the entry's username. */
  ghost predicate Joins(users: seq<User>, e: Entry) {
    exists i :: 0 <= i < |users| && users[i].id == e.row.userId && users[i].username == e.username
  }

  /** The inner join of the score rows with the user rows, in score-row order. */
  function JoinRows(users: seq<User>, scores: seq<Score>): (r: seq<Entry>)
    ensures |r| <= |scores|
  {
    if |scores| == 0 then []
    else
      var last := scores[|scores| - 1];
      var front := JoinRows(users, scores[..|scores| - 1]);
      match Find(users, ById(last.userId))
      case None => front
      case Some(i) => front + [Entry(last, users[i].username)]
  }

  /** The score rows the entries show, in order. */
  function Rows(r: seq<Entry>): (s: seq<Score>)
    ensures |s| == |r| && forall i :: 0 <= i < |r| ==> s[i] == r[i].row
  {
    if |r| == 0 then [] else Rows(r[..|r| - 1]) + [r[|r| - 1].row]
  }

  /** Appending an entry appends its score row. */
  lemma RowsAppend(front: seq<Entry>, e: Entry)
    ensures Rows(front + [e]) == Rows(front) + [e.row]
  {
    assert (front + [e])[..|front|] == front;
  }

  /** The score rows of the join grow by the last score row exactly when its user is found. */
  lemma JoinRowsStep(users: seq<User>, scores: seq<Score>)
    requires |scores| > 0
    ensures var n := |scores| - 1;
            Rows(JoinRows(users, scores)) ==
              Rows(JoinRows(users, scores[..n])) + if Find(users, ById(scores[n].userId)).Some? then [scores[n]] else []
  {
    var n := |scores| - 1;
    var front := JoinRows(users, scores[..n]);
    var found := Find(users, ById(scores[n].userId));
    if found.Some? {
      RowsAppend(front, Entry(scores[n], users[found.value].username));
    }
  }

  /** The rows of a non-empty table are those before the last one, plus the last one. */
  lemma MultisetSplitLast(scores: seq<Score>)
    requires |scores| > 0
    ensures multiset(scores) == multiset(scores[..|scores| - 1]) + multiset{scores[|scores| - 1]}
  {
    assert scores == scores[..|scores| - 1] + [scores[|scores| - 1]];
  }

  /** Adding one row to the larger of two bags, or to both, keeps the smaller included. */
  lemma IncludedPlusOne(a: multiset<Score>, b: multiset<Score>, x: Score)
    requires a <= b
    ensures a + multiset{x} <= b + multiset{x} && a <= b + multiset{x}
  {
  }

  /** No score row shows up in the join more often than it occurs in the score table. */
  lemma {:induction false} JoinRowsAtMostOnce(users: seq<User>, scores: seq<Score>)
    ensures multiset(Rows(JoinRows(users, scores))) <= multiset(scores)
  {
    if |scores| > 0 {
      var n := |scores| - 1;
      var x := scores[n];
      var front := multiset(Rows(JoinRows(users, scores[..n])));
      var all := multiset(Rows(JoinRows(users, scores)));
      assert front <= multiset(scores[..n]) by {
        JoinRowsAtMostOnce(users, scores[..n]);
      }
      assert multiset(scores) == multiset(scores[..n]) + multiset{x} by {
        MultisetSplitLast(scores);
      }
      assert all == front || all == front + multiset{x} by {
        JoinRowsStep(users, scores);
      }
      IncludedPlusOne(front, multiset(scores[..n]), x);
    } else {
      assert Rows(JoinRows(users, scores)) == [];
    }
  }

  /** Each entry of the join is a score row paired with the name of the user it names. */
  lemma {:induction false} JoinRowsSound(users: seq<User>, scores: seq<Score>)
    ensures forall e :: e in JoinRows(users, scores) ==> e.row in scores && Joins(users, e)
  {
    if |scores| > 0 {
      var n := |scores| - 1;
      JoinRowsSound(users, scores[..n]);
      assert forall e :: e in scores[..n] ==> e in scores;
    }
  }

  /** The join of a non-empty score table ends with its last row, when that row's user exists. */
  lemma {:induction false} JoinLastRow(users: seq<User>, scores: seq<Score>)
    requires forall i :: 0 <= i < |users| ==> users[i].id == i + 1
    requires |scores| > 0 && 1 <= scores[|scores| - 1].userId <= |users|
    ensures var uid := scores[|scores| - 1].userId;
            JoinRows(users, scores) ==
              JoinRows(users, scores[..|scores| - 1]) + [Entry(scores[|scores| - 1], users[uid - 1].username)]
  {
    FindById(users, scores[|scores| - 1].userId);
  }

  /** Every score row whose user exists appears in the join, whatever the ids. */
  lemma {:induction false} JoinKeepsJoinableRows(users: seq<User>, scores: seq<Score>)
    ensures forall k :: 0 <= k < |scores| && (exists i :: 0 <= i < |users| && users[i].id == scores[k].userId) ==>
              exists e :: e in JoinRows(users, scores) && e.row == scores[k]
  {
    if |scores| > 0 {
      var n := |scores| - 1;
      var front := JoinRows(users, scores[..n]);
      var r := JoinRows(users, scores);
      JoinKeepsJoinableRows(users, scores[..n]);
      assert forall e :: e in front ==> e in r;
      forall k | 0 <= k < |scores| && (exists i :: 0 <= i < |users| && users[i].id == scores[k].userId)
        ensures exists e :: e in r && e.row == scores[k]
      {
        if k < n {
          assert scores[..n][k] == scores[k];
        } else {
          var i :| 0 <= i < |users| && users[i].id == scores[k].userId;
          assert Matches(users[i], ById(scores[n].userId));
          var found := Find(users, ById(scores[n].userId));
          assert r == front + [Entry(scores[n], users[found.value].username)];
          assert r[|r| - 1].row == scores[k];
        }
      }
    }
  }

  /**
   * With sequential user ids and every score naming an existing user (both
   * part of the invariant), the join drops no score row.
   */
  lemma {:induction false} JoinKeepsEveryRow(users: seq<User>, scores: seq<Score>)
    requires forall i :: 0 <= i < |users| ==> users[i].id == i + 1
    requires forall k :: 0 <= k < |scores| ==> 1 <= scores[k].userId <= |users|
    ensures var r := JoinRows(users, scores);
            |r| == |scores| &&
            forall k :: 0 <= k < |r| ==>
              r[k].row == scores[k] && r[k].username == users[scores[k].userId - 1].username
  {
    if |scores| > 0 {
      var n := |scores| - 1;
      var front := JoinRows(users, scores[..n]);
      assert forall k :: 0 <= k < n ==> scores[..n][k] == scores[k];
      JoinKeepsEveryRow(users, scores[..n]);
      JoinLastRow(users, scores);
      var r := JoinRows(users, scores);
      var last := Entry(scores[n], users[scores[n].userId - 1].username);
      assert r == front + [last];
      forall k | 0 <= k < |r|
        ensures r[k].row == scores[k] && r[k].username == users[scores[k].userId - 1].username
      {
        if k < n {
          assert r[k] == front[k] && scores[..n][k] == scores[k];
        } else {
          assert r[k] == last;
        }
      }
    }
  }

  ghost predicate NonIncreasing(s: seq<Entry>) {
    forall i, j :: 0 <= i < j < |s| ==> s[i].row.score >= s[j].row.score
  }

  /** An entry scoring at least the head of a sorted sequence can go in front of it. */
  lemma PrependSorted(y: Entry, s: seq<Entry>)
    requires NonIncreasing(s) && (|s| > 0 ==> s[0].row.score <= y.row.score)
    ensures NonIncreasing([y] + s)
  {
    var r := [y] + s;
    forall i, j | 0 <= i < j < |r|
      ensures r[i].row.score >= r[j].row.score
    {
      if i == 0 && j > 1 {
        assert s[0].row.score >= s[j - 1].row.score;
      }
    }
  }

  /** Dropping the head of a sorted sequence leaves it sorted. */
  lemma TailSorted(s: seq<Entry>)
    requires |s| > 0 && NonIncreasing(s)
    ensures NonIncreasing(s[1..])
    ensures |s| > 1 ==> s[1].row.score <= s[0].row.score
  {
    forall i, j | 0 <= i < j < |s| - 1
      ensures s[1..][i].row.score >= s[1..][j].row.score
    {
      assert s[1..][i] == s[i + 1] && s[1..][j] == s[j + 1];
    }
  }

  /** The head of `s`, scoring at least `x`, stays in front of `x` inserted into the tail. */
  lemma KeepHead(s: seq<Entry>, x: Entry, rest: seq<Entry>)
    requires |s| > 0 && s[0].row.score >= x.row.score
    requires |s| > 1 ==> s[1].row.score <= s[0].row.score
    requires NonIncreasing(rest) && multiset(rest) == multiset(s[1..]) + multiset{x}
    requires |rest| > 0 && (rest[0] == x || (|s| > 1 && rest[0] == s[1]))
    ensures NonIncreasing([s[0]] + rest)
    ensures multiset([s[0]] + rest) == multiset(s) + multiset{x}
  {
    PrependSorted(s[0], rest);
    assert s == [s[0]] + s[1..];
  }

  /** Places `x` after every entry whose score is at least its own. */
  function Insert(x: Entry, s: seq<Entry>): (r: seq<Entry>)
    requires NonIncreasing(s)
    ensures NonIncreasing(r)
    ensures multiset(r) == multiset(s) + multiset{x}
    ensures |r| == |s| + 1 && (r[0] == x || (|s| > 0 && r[0] == s[0]))
  {
    if |s| == 0 then [x]
    else if s[0].row.score >= x.row.score then
      TailSorted(s);
      var rest := Insert(x, s[1..]);
      KeepHead(s, x, rest);
      [s[0]] + rest
    else
      PrependSorted(x, s);
      [x] + s
  }

  /** Orders entries by descending score; equal scores keep their order. */
  function SortByScore(s: seq<Entry>): (r: seq<Entry>)
    ensures NonIncreasing(r)
    ensures multiset(r) == multiset(s)
  {
    if |s| == 0 then []
    else
      assert s == s[..|s| - 1] + [s[|s| - 1]];
      Insert(s[|s| - 1], SortByScore(s[..|s| - 1]))
  }

  /**
   * `top` is an answer of `order_by(score.desc()).limit(n)` over `all`: as many
   * entries as the limit allows, drawn from `all`, by non-increasing score,
   * and no entry left out scores above one kept. Equal scores may come in
   * any order.
   */
  ghost predicate IsTop(all: seq<Entry>, top: seq<Entry>, n: nat) {
    && |top| == (if |all| < n then |all| else n)
    && multiset(top) <= multiset(all)
    && NonIncreasing(top)
    && forall e, i :: e in multiset(all) - multiset(top) && 0 <= i < |top| ==> e.row.score <= top[i].row.score
  }

  /** Permutations have the same length. */
  lemma PermutationLength(a: seq<Entry>, b: seq<Entry>)
    requires multiset(a) == multiset(b)
    ensures |a| == |b|
  {
    assert |multiset(a)| == |a| && |multiset(b)| == |b|;
  }

  /** A prefix of a sorted sequence is sorted. */
  lemma PrefixSorted(s: seq<Entry>, k: nat)
    requires NonIncreasing(s) && k <= |s|
    ensures NonIncreasing(s[..k])
  {
    forall i, j | 0 <= i < j < k ensures s[..k][i].row.score >= s[..k][j].row.score {
      assert s[..k][i] == s[i] && s[..k][j] == s[j];
    }
  }

  /** In a sorted sequence nothing after position `k` scores above anything before it. */
  lemma SuffixBelowPrefix(s: seq<Entry>, k: nat)
    requires NonIncreasing(s) && k <= |s|
    ensures forall e, i :: e in multiset(s[k..]) && 0 <= i < k ==> e.row.score <= s[..k][i].row.score
  {
    forall e, i | e in multiset(s[k..]) && 0 <= i < k
      ensures e.row.score <= s[..k][i].row.score
    {
      var j :| 0 <= j < |s[k..]| && s[k..][j] == e;
      assert s[k..][j] == s[k + j] && s[..k][i] == s[i];
    }
  }

  /** Cutting a sorted sequence at `k` splits it into a top part and a rest scoring no higher. */
  lemma SplitSorted(all: seq<Entry>, sorted: seq<Entry>, k: nat)
    requires NonIncreasing(sorted) && multiset(sorted) == multiset(all) && k <= |sorted|
    ensures multiset(sorted[..k]) <= multiset(all)
    ensures NonIncreasing(sorted[..k])
    ensures forall e, i :: e in multiset(all) - multiset(sorted[..k]) && 0 <= i < k ==> e.row.score <= sorted[..k][i].row.score
  {
    assert sorted == sorted[..k] + sorted[k..];
    assert multiset(all) - multiset(sorted[..k]) == multiset(sorted[k..]);
    PrefixSorted(sorted, k);
    SuffixBelowPrefix(sorted, k);
  }

  /** The first n entries of a sorted permutation of `all` answer the top-n query. */
  lemma SortedPrefixIsTop(all: seq<Entry>, sorted: seq<Entry>, n: nat)
    requires NonIncreasing(sorted) && multiset(sorted) == multiset(all)
    ensures |sorted| == |all|
    ensures IsTop(all, sorted[..if |all| < n then |all| else n], n)
  {
    PermutationLength(sorted, all);
    SplitSorted(all, sorted, if |all| < n then |all| else n);
  }

  /** One answer to the top-n query: the first n entries of the sorted join. */
  function Top(all: seq<Entry>, n: nat): (r: seq<Entry>)
    ensures IsTop(all, r, n)
  {
    var sorted := SortByScore(all);
    SortedPrefixIsTop(all, sorted, n);
    sorted[..if |all| < n then |all| else n]
  }

  /** The JSON body of GET /leaderboard. */
  datatype View = View(entries: seq<Entry>, userBest: int, userBestDistance: int, currentUser: string)

  /**
   * `best` and `dist` are the score and distance of one highest-scoring row of
   * `uid`, or both 0 when `uid` has no row. A negative best is not raised to 0.
   */
  ghost predicate IsBestOf(scores: seq<Score>, uid: nat, best: int, dist: int) {
    if forall k :: 0 <= k < |scores| ==> scores[k].userId != uid then
      best == 0 && dist == 0
    else
      && (exists k :: 0 <= k < |scores| && scores[k].userId == uid && scores[k].score == best && scores[k].distance == dist)
      && (forall k :: 0 <= k < |scores| && scores[k].userId == uid ==> scores[k].score <= best)
  }

  /** What any leaderboard reply satisfies, whatever order it gives equal scores. */
  ghost predicate IsLeaderboard(w: World, v: View) {
    && IsTop(JoinRows(w.db.users, w.db.scores), v.entries, TopCount)
    && (match w.session
        case None => v.userBest == 0 && v.userBestDistance == 0
        case Some(s) => IsBestOf(w.db.scores, s.userId, v.userBest, v.userBestDistance))
    && v.currentUser == (match w.session case None => "" case Some(s) => s.username)
  }

  /** GET /leaderboard, reading the tables and the session and changing neither. */
  function Leaderboard(w: World): (v: View)
    ensures IsLeaderboard(w, v)
  {
    var top := Top(JoinRows(w.db.users, w.db.scores), TopCount);
    match w.session
    case None => View(top, 0, 0, "")
    case Some(s) =>
      match BestScore(w.db.scores, s.userId)
      case None => View(top, 0, 0, s.username)
      case Some(k) => View(top, w.db.scores[k].score, w.db.scores[k].distance, s.username)
  }

  /**
   * Every leaderboard entry is a row of the score table, shown with the name of
   * the user it belongs to, and there are at most ten.
   */
  lemma LeaderboardRowsFromTables(w: World, v: View)
    requires IsLeaderboard(w, v)
    ensures |v.entries| <= TopCount
    ensures forall e :: e in v.entries ==> e.row in w.db.scores && Joins(w.db.users, e)
  {
    var all := JoinRows(w.db.users, w.db.scores);
    JoinRowsSound(w.db.users, w.db.scores);
    forall e | e in v.entries
      ensures e.row in w.db.scores && Joins(w.db.users, e)
    {
      assert e in multiset(v.entries);
      assert e in multiset(all);
    }
  }

  /** The first leaderboard entry scores at least as high as every joined row. */
  lemma TopEntryIsHighest(all: seq<Entry>, top: seq<Entry>, n: nat)
    requires IsTop(all, top, n) && |top| > 0
    ensures forall e :: e in all ==> e.row.score <= top[0].row.score
  {
    forall e | e in all
      ensures e.row.score <= top[0].row.score
    {
      assert e in multiset(all);
      if e in multiset(top) {
        var j :| 0 <= j < |top| && top[j] == e;
      } else {
        assert e in multiset(all) - multiset(top);
      }
    }
  }

  /** With no more joined rows than the limit, the answer holds every one of them. */
  lemma {:induction false} ShortBoardHoldsAll(all: seq<Entry>, top: seq<Entry>, n: nat)
    requires IsTop(all, top, n) && |all| <= n
    ensures multiset(top) == multiset(all)
  {
    var extra := multiset(all) - multiset(top);
    assert multiset(all) == multiset(top) + extra;
    assert |multiset(all)| == |multiset(top)| + |extra|;
    assert |extra| == 0;
  }

  /** A top answer over a single joined row is that row. */
  lemma SingletonTop(row: Entry, top: seq<Entry>, n: nat)
    requires 1 <= n && IsTop([row], top, n)
    ensures top == [row]
  {
    assert |top| == 1;
    assert top[0] in multiset(top);
  }

  /** The best of a single row of `uid` is that row's score and distance. */
  lemma SingletonBest(race: Score, best: int, dist: int)
    requires IsBestOf([race], race.userId, best, dist)
    ensures best == race.score && dist == race.distance
  {
    assert [race][0].userId == race.userId;
  }

  /** A board over a single joinable race shows that race, and it is its runner's best. */
  lemma SingleRaceBoard(w: World, v: View, u: User, race: Score)
    requires w.db.users == [u] && u.id == 1 && w.db.scores == [race] && race.userId == 1
    requires w.session == Some(Session(1, u.username))
    requires IsLeaderboard(w, v)
    ensures v.entries == [Entry(race, u.username)]
    ensures v.userBest == race.score && v.userBestDistance == race.distance
    ensures v.currentUser == u.username
  {
    var row := Entry(race, u.username);
    FindById([u], 1);
    assert [race][..0] == [];
    assert JoinRows([u], [race]) == [row];
    SingletonTop(row, v.entries, TopCount);
    SingletonBest(race, v.userBest, v.userBestDistance);
  }
}
