/**
 * The score ledger: `submit_score` appends a row for the session user, and
 * the per-user best score is looked up from the rows.
 */
module Ledger {
  import opened Records
  import opened Accounts

  /** The row a submission by the session user appends. */
  function NewScore(w: World, score: int, distance: int, ip: Ip, now: Timestamp): Score
    requires w.session.Some?
  {
    Score(|w.db.scores| + 1, w.session.value.userId, score, distance, now, ip)
  }

  /**
   * POST /submit_score. Without a session the reply is "Not logged in" and
   * nothing changes. With one, exactly one row is appended carrying the
   * session's user id, the score and distance as given (no range check beyond
   * the database column's 64-bit integers, which is not modelled) and the
   * client address; users, login logs and the session are untouched.
   */
  function SubmitScore(w: World, score: int, distance: int, ip: Ip, now: Timestamp): (r: Step)
    ensures r.outcome in {ScoreSubmitted, NotLoggedIn}
    ensures r.outcome == NotLoggedIn <==> w.session.None?
    ensures r.outcome == NotLoggedIn ==> r.next == w
    ensures r.outcome == ScoreSubmitted ==>
      && r.next.session == w.session
      && r.next.db.users == w.db.users
      && r.next.db.logins == w.db.logins
      && |r.next.db.scores| == |w.db.scores| + 1
      && r.next.db.scores[..|w.db.scores|] == w.db.scores
      && r.next.db.scores[|w.db.scores|] == Score(|w.db.scores| + 1, w.session.value.userId, score, distance, now, ip)
    ensures WorldInv(w) ==> WorldInv(r.next)
  {
    match w.session
    case None => Step(w, NotLoggedIn)
    case Some(_) =>
      var next := w.(db := w.db.(scores := w.db.scores + [NewScore(w, score, distance, ip, now)]));
      assert WorldInv(w) ==> WorldInv(next);
      Step(next, ScoreSubmitted)
  }

  /**
   * `Score.query.filter_by(user_id=uid).order_by(Score.score.desc()).first()`:
   * the position of a row of `uid` with the highest score, or None when `uid`
   * has no row. Among equal highest scores this picks the earliest row.
   */
  function BestScore(scores: seq<Score>, uid: nat): (r: Option<nat>)
    ensures r.None? <==> forall k :: 0 <= k < |scores| ==> scores[k].userId != uid
    ensures r.Some? ==> r.value < |scores| && scores[r.value].userId == uid
    ensures r.Some? ==> forall k :: 0 <= k < |scores| && scores[k].userId == uid ==> scores[k].score <= scores[r.value].score
  {
    if |scores| == 0 then None
    else
      var last := |scores| - 1;
      var b := BestScore(scores[..last], uid);
      if scores[last].userId != uid then b
      else if b.None? || scores[b.value].score < scores[last].score then Some(last)
      else b
  }

  function Max(a: int, b: int): int {
    if a < b then b else a
  }

  /**
   * A submission raises the submitter's best to the larger of the previous best
   * and the new score; a first submission becomes the best.
   */
  lemma SubmitUpdatesBest(w: World, score: int, distance: int, ip: Ip, now: Timestamp)
    requires w.session.Some?
    ensures var uid := w.session.value.userId;
            var after := SubmitScore(w, score, distance, ip, now).next.db.scores;
            var b := BestScore(after, uid);
            b.Some? && after[b.value].score ==
              match BestScore(w.db.scores, uid)
              case None => score
              case Some(k) => Max(w.db.scores[k].score, score)
  {
  }
}
