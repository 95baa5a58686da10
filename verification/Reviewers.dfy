/**
 * Choosing a reviewer from the competence checks: the per-user check (a scout
 * created on a remote service) is a parameter, the bulk loop and the two tiered
 * selection rules are modelled as written.
 */
module Reviewers {
  import opened Wrappers
  import opened Frequency

  /**
   * One competence result. `scoutId` and `competent` are `None` when the dict has no
   * such key, which `dict.get` reads as Python `None`.
   */
  datatype ReviewResult = ReviewResult(username: string, scoutId: Option<Value>, competent: Option<Value>)

  /** `result.get("competent") is True`: only the boolean `True` qualifies. */
  predicate IsCompetent(r: ReviewResult) {
    r.competent == Some(VBool(true))
  }

  /** `result.get("scout_id")` is truthy. */
  predicate HasScout(r: ReviewResult) {
    r.scoutId.Some? && Truthy(r.scoutId.value)
  }

  /** `k` is the position of the first result satisfying `p`. */
  predicate FirstAt(results: seq<ReviewResult>, k: int, p: ReviewResult -> bool) {
    0 <= k < |results| && p(results[k]) && forall j :: 0 <= j < k ==> !p(results[j])
  }

  /** No result satisfies `p`. */
  predicate NoneWith(results: seq<ReviewResult>, p: ReviewResult -> bool) {
    forall j :: 0 <= j < |results| ==> !p(results[j])
  }

  /** Index of the first result satisfying `p`, or `|results|` when there is none. */
  function FirstWhere(results: seq<ReviewResult>, p: ReviewResult -> bool): (i: nat)
    ensures i <= |results|
    ensures i < |results| ==> p(results[i])
    ensures forall j :: 0 <= j < i ==> !p(results[j])
  {
    if results == [] then 0
    else if p(results[0]) then 0
    else 1 + FirstWhere(results[1..], p)
  }

  /**
   * `get_best_reviewer` of the waiting wrapper: the first competent result, else the
   * first with a scout, else the first result, else `None`.
   */
  function BestReviewer(results: seq<ReviewResult>): (r: Option<string>)
    ensures r.None? <==> results == []
    ensures forall k :: FirstAt(results, k, IsCompetent) ==> r == Some(results[k].username)
    ensures NoneWith(results, IsCompetent) ==>
      forall k :: FirstAt(results, k, HasScout) ==> r == Some(results[k].username)
    ensures results != [] && NoneWith(results, IsCompetent) && NoneWith(results, HasScout) ==>
      r == Some(results[0].username)
  {
    var c := FirstWhere(results, IsCompetent);
    if c < |results| then Some(results[c].username)
    else
      var s := FirstWhere(results, HasScout);
      if s < |results| then Some(results[s].username)
      else if results != [] then Some(results[0].username)
      else None
  }

  /** `get_best_reviewer` of review_checker.py: the first result with a scout, else `None`. */
  function BestScouted(results: seq<ReviewResult>): (r: Option<string>)
    ensures r.None? <==> NoneWith(results, HasScout)
    ensures forall k :: FirstAt(results, k, HasScout) ==> r == Some(results[k].username)
  {
    var s := FirstWhere(results, HasScout);
    if s < |results| then Some(results[s].username) else None
  }

  /** On a non-empty list `BestReviewer` always names the user of one of the results. */
  lemma BestReviewerIsACandidate(results: seq<ReviewResult>)
    requires results != []
    ensures exists k :: 0 <= k < |results| && BestReviewer(results) == Some(results[k].username)
  {
    var c := FirstWhere(results, IsCompetent);
    var s := FirstWhere(results, HasScout);
    if c < |results| {
      assert BestReviewer(results) == Some(results[c].username);
    } else if s < |results| {
      assert BestReviewer(results) == Some(results[s].username);
    } else {
      assert BestReviewer(results) == Some(results[0].username);
    }
  }

  /**
   * What the scout service returned for a user: nothing (`None` or an empty dict, both
   * falsy), or a dict whose `"id"` entry is `id` (`VNone` when it has none).
   */
  datatype Scout = NoScout | Scout(id: Value)

  /**
   * `check_reviewer_competence` of review_checker.py once the scout call has returned:
   * a failure result with `competent` False and no `scout_id`, or a pending result
   * carrying the scout's id and `competent` None.
   */
  function CheckCompetence(username: string, scout: Scout): (r: ReviewResult)
    ensures r.username == username
    ensures scout.NoScout? ==> !HasScout(r) && !IsCompetent(r)
    ensures scout.Scout? ==> r.scoutId == Some(scout.id) && !IsCompetent(r)
  {
    match scout
    case NoScout => ReviewResult(username, None, Some(VBool(false)))
    case Scout(id) => ReviewResult(username, Some(id), Some(VNone))
  }

  /**
   * Over the results of review_checker.py's checks, the selected user is one whose
   * scout was created and has a truthy id: a failed scout creation is never selected.
   * `scouts[k]` is the reply to the scout request made for the `k`-th username; each
   * position makes its own request, so a repeated username may get different replies.
   */
  lemma {:induction false} SelectedHasScout(usernames: seq<string>, scouts: seq<Scout>, results: seq<ReviewResult>)
    requires |results| == |usernames| == |scouts|
    requires forall k :: 0 <= k < |results| ==> results[k] == CheckCompetence(usernames[k], scouts[k])
    ensures BestScouted(results).Some? ==>
      exists k :: 0 <= k < |usernames| && BestScouted(results) == Some(usernames[k])
        && scouts[k].Scout? && Truthy(scouts[k].id)
    ensures (forall k :: 0 <= k < |scouts| ==> scouts[k].NoScout?) ==> BestScouted(results) == None
  {
    var s := FirstWhere(results, HasScout);
    if s < |results| {
      assert results[s] == CheckCompetence(usernames[s], scouts[s]);
      assert BestScouted(results) == Some(usernames[s]);
    }
  }

  /**
   * `check_reviewers_bulk` (both versions): runs the per-user check on each username in
   * turn and collects the results. `check(k, u)` is what the check returns for username
   * `u` at position `k`; every position makes its own call, so a username listed twice
   * may get two different results.
   */
  method CheckReviewersBulk(usernames: seq<string>, check: (nat, string) -> ReviewResult) returns (results: seq<ReviewResult>)
    ensures |results| == |usernames|
    ensures forall k :: 0 <= k < |usernames| ==> results[k] == check(k, usernames[k])
  {
    results := [];
    for i := 0 to |usernames|
      invariant |results| == i
      invariant forall k :: 0 <= k < i ==> results[k] == check(k, usernames[k])
    {
      results := results + [check(i, usernames[i])];
    }
  }
}
