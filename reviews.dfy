/**
 * Reviews and their helpfulness votes, as the review scenarios set them up: a review's helpfulness
 * is the sum of its votes, a course's reviews can be brought to a given number, the current user's
 * vote can be forced up or down while compensating votes keep the helpfulness where it was, and a
 * displayed list of reviews is checked to be ordered by helpfulness.
 */
module ReviewSteps {
  import opened Wrappers

  type UserId = nat

  /** Who cast a vote: a signed-in user, or a user the test factory made up for that one vote. */
  datatype Voter = Account(id: UserId) | Generated(serial: nat)

  /** A helpfulness vote; its score is +1 (helpful) or -1 (unhelpful). */
  datatype Vote = Vote(voter: Voter, score: int)

  predicate IsScore(s: int) {
    s == 1 || s == -1
  }

  predicate ValidScores(votes: seq<Vote>) {
    forall i :: 0 <= i < |votes| ==> IsScore(votes[i].score)
  }

  /** At most one vote per voter on a review. */
  predicate OneVotePerVoter(votes: seq<Vote>) {
    forall i, j :: 0 <= i < j < |votes| ==> votes[i].voter != votes[j].voter
  }

  // ---- helpfulness ----

  /** The helpfulness of a review with these votes: the sum of their scores, with no clamping. */
  function VoteSum(votes: seq<Vote>): int {
    if votes == [] then 0 else VoteSum(votes[..|votes| - 1]) + votes[|votes| - 1].score
  }

  lemma {:induction false} VoteSumAppend(a: seq<Vote>, b: seq<Vote>)
    ensures VoteSum(a + b) == VoteSum(a) + VoteSum(b)
    decreases |b|
  {
    if b == [] {
      assert a + b == a;
    } else {
      assert (a + b)[..|a + b| - 1] == a + b[..|b| - 1];
      VoteSumAppend(a, b[..|b| - 1]);
    }
  }

  /** Changing one vote changes the sum by the difference of the two scores. */
  lemma {:induction false} VoteSumUpdate(votes: seq<Vote>, i: nat, v: Vote)
    requires i < |votes|
    ensures VoteSum(votes[i := v]) == VoteSum(votes) - votes[i].score + v.score
    decreases |votes|
  {
    var last := |votes| - 1;
    if i < last {
      assert votes[i := v][..last] == votes[..last][i := v];
      VoteSumUpdate(votes[..last], i, v);
    } else {
      assert votes[i := v][..last] == votes[..last];
    }
  }

  /** The votes the factory creates in one batch: fresh made-up voters, numbered from `start`. */
  function FactoryVotes(start: nat, n: nat, score: int): (r: seq<Vote>)
    ensures |r| == n
  {
    if n == 0 then [] else FactoryVotes(start, n - 1, score) + [Vote(Generated(start + n - 1), score)]
  }

  /** A batch of `n` votes of the same score adds `n` times that score. */
  lemma {:induction false} VoteSumFactoryVotes(start: nat, n: nat, score: int)
    ensures VoteSum(FactoryVotes(start, n, score)) == n * score
    decreases n
  {
    if n > 0 {
      assert FactoryVotes(start, n, score)[..n - 1] == FactoryVotes(start, n - 1, score);
      VoteSumFactoryVotes(start, n - 1, score);
    }
  }

  // ---- a user's own vote ----

  /** The position of the first vote cast by `voter`, if there is one. */
  function VoteIndex(votes: seq<Vote>, voter: Voter): (r: Option<nat>)
    ensures r.Some? ==> r.value < |votes| && votes[r.value].voter == voter
    ensures r.Some? ==> forall j :: 0 <= j < r.value ==> votes[j].voter != voter
    ensures r.None? ==> forall j :: 0 <= j < |votes| ==> votes[j].voter != voter
  {
    if votes == [] then None
    else if votes[0].voter == voter then Some(0)
    else
      match VoteIndex(votes[1..], voter)
      case None => None
      case Some(k) => Some(k + 1)
  }

  /** Appending votes keeps a voter's existing (first) vote where it was. */
  lemma VoteIndexAppend(a: seq<Vote>, b: seq<Vote>, voter: Voter)
    requires VoteIndex(a, voter).Some?
    ensures VoteIndex(a + b, voter) == VoteIndex(a, voter)
  {
    var i := VoteIndex(a, voter).value;
    var r := VoteIndex(a + b, voter);
    assert (a + b)[i] == a[i];
    assert r.Some? && r.value <= i;
  }

  /**
   * The votes after `voter` votes `score`: an existing vote of theirs gets the new score, and a
   * voter without one gets a new vote at the end.
   */
  function WithVote(votes: seq<Vote>, voter: Voter, score: int): seq<Vote> {
    match VoteIndex(votes, voter)
    case None => votes + [Vote(voter, score)]
    case Some(i) => votes[i := Vote(voter, score)]
  }

  /** The score `voter` currently gives, 0 when they have not voted. */
  function OwnScore(votes: seq<Vote>, voter: Voter): int {
    match VoteIndex(votes, voter)
    case None => 0
    case Some(i) => votes[i].score
  }

  /** After voting, the voter's own vote has the new score, and the other votes are as before. */
  lemma WithVoteOwnScore(votes: seq<Vote>, voter: Voter, score: int)
    ensures var r := WithVote(votes, voter, score);
      VoteIndex(r, voter).Some? && r[VoteIndex(r, voter).value] == Vote(voter, score)
    ensures var r := WithVote(votes, voter, score);
      forall j :: 0 <= j < |votes| && votes[j].voter != voter ==> r[j] == votes[j]
    ensures |WithVote(votes, voter, score)| == |votes| + (if VoteIndex(votes, voter).None? then 1 else 0)
  {
    var r := WithVote(votes, voter, score);
    match VoteIndex(votes, voter)
    case None =>
      assert r[|votes|].voter == voter;
      var k := VoteIndex(r, voter);
      assert k.Some? && k.value == |votes|;
    case Some(i) =>
      assert r[i].voter == voter;
      assert forall j :: 0 <= j < i ==> r[j] == votes[j];
      var k := VoteIndex(r, voter);
      assert k.Some? && k.value == i;
  }

  /** A vote replaces the voter's old score in the helpfulness. */
  lemma WithVoteSum(votes: seq<Vote>, voter: Voter, score: int)
    ensures VoteSum(WithVote(votes, voter, score)) == VoteSum(votes) - OwnScore(votes, voter) + score
  {
    match VoteIndex(votes, voter)
    case None =>
      VoteSumAppend(votes, [Vote(voter, score)]);
      assert VoteSum([Vote(voter, score)]) == score by {
        assert [Vote(voter, score)][..0] == [];
      }
    case Some(i) =>
      VoteSumUpdate(votes, i, Vote(voter, score));
  }

  /** Turning one's vote to +1 never lowers the helpfulness, and raises it by at most 2. */
  lemma UpvoteRaises(votes: seq<Vote>, voter: Voter)
    requires ValidScores(votes)
    ensures VoteSum(votes) <= VoteSum(WithVote(votes, voter, 1)) <= VoteSum(votes) + 2
  {
    WithVoteSum(votes, voter, 1);
  }

  /** Turning one's vote to -1 never raises the helpfulness, and lowers it by at most 2. */
  lemma DownvoteLowers(votes: seq<Vote>, voter: Voter)
    requires ValidScores(votes)
    ensures VoteSum(votes) - 2 <= VoteSum(WithVote(votes, voter, -1)) <= VoteSum(votes)
  {
    WithVoteSum(votes, voter, -1);
  }

  /** Voting keeps the scores valid and the voters unique. */
  lemma WithVoteValid(votes: seq<Vote>, voter: Voter, score: int)
    requires ValidScores(votes) && OneVotePerVoter(votes) && IsScore(score)
    ensures ValidScores(WithVote(votes, voter, score)) && OneVotePerVoter(WithVote(votes, voter, score))
  {
  }

  /** Voting the score one already gives changes nothing. */
  lemma WithVoteIdempotent(votes: seq<Vote>, voter: Voter, score: int)
    requires VoteIndex(votes, voter).Some? && OwnScore(votes, voter) == score
    ensures WithVote(votes, voter, score) == votes
  {
  }

  // ---- the review ----

  class Review {
    var votes: seq<Vote>
    /** How many voters the factory has made up for this review; the next one gets this number. */
    var generated: nat

    ghost predicate Valid()
      reads this
    {
      ValidScores(votes) && OneVotePerVoter(votes) &&
      forall i :: 0 <= i < |votes| && votes[i].voter.Generated? ==> votes[i].voter.serial < generated
    }

    /** A new review without votes. */
    constructor ()
      ensures Valid() && votes == [] && generated == 0
    {
      votes := [];
      generated := 0;
    }

    /** The review's helpfulness, recomputed from its current votes. */
    function Helpfulness(): int
      reads this
    {
      VoteSum(votes)
    }

    /** Creates `n` votes of `score`, each by a new made-up voter. */
    method AddFactoryVotes(n: nat, score: int)
      requires Valid() && IsScore(score)
      modifies this
      ensures Valid()
      ensures votes == old(votes) + FactoryVotes(old(generated), n, score)
      ensures generated == old(generated) + n
      ensures Helpfulness() == old(Helpfulness()) + n * score
    {
      var k := 0;
      while k < n
        invariant 0 <= k <= n
        invariant generated == old(generated) + k
        invariant votes == old(votes) + FactoryVotes(old(generated), k, score)
        invariant Valid()
      {
        assert FactoryVotes(old(generated), k + 1, score) ==
          FactoryVotes(old(generated), k, score) + [Vote(Generated(generated), score)];
        votes := votes + [Vote(Generated(generated), score)];
        generated := generated + 1;
        k := k + 1;
      }
      VoteSumAppend(old(votes), FactoryVotes(old(generated), n, score));
      VoteSumFactoryVotes(old(generated), n, score);
    }

    /** Finds the user's vote or creates one, and sets its score unless it already has it. */
    method SetOwnVote(user: UserId, score: int)
      requires Valid() && IsScore(score)
      modifies this
      ensures Valid() && generated == old(generated)
      ensures votes == WithVote(old(votes), Account(user), score)
    {
      WithVoteValid(votes, Account(user), score);
      var found := VoteIndex(votes, Account(user));
      match found
      case None =>
        votes := votes + [Vote(Account(user), score)];
      case Some(i) =>
        if votes[i].score != score {
          votes := votes[i := Vote(Account(user), score)];
        }
    }

    /**
     * Makes the user's vote +1 (creating it if needed), then adds -1 votes by made-up voters so
     * that the helpfulness is the same as before.
     */
    method AlreadyUpvoted(user: UserId)
      requires Valid()
      modifies this
      ensures Valid()
      ensures Helpfulness() == old(Helpfulness())
      ensures var own := WithVote(old(votes), Account(user), 1);
        |own| <= |votes| && votes[..|own|] == own &&
        votes[|own|..] == FactoryVotes(old(generated), |votes| - |own|, -1)
      ensures generated == old(generated) + (|votes| - |WithVote(old(votes), Account(user), 1)|)
      ensures VoteIndex(votes, Account(user)).Some? &&
        votes[VoteIndex(votes, Account(user)).value] == Vote(Account(user), 1)
      ensures OwnScore(old(votes), Account(user)) == 1 ==> votes == old(votes)
    {
      var before := Helpfulness();
      UpvoteRaises(votes, Account(user));
      WithVoteSum(votes, Account(user), 1);
      WithVoteOwnScore(votes, Account(user), 1);
      SetOwnVote(user, 1);
      var own := votes;
      var after := Helpfulness();
      assert after >= before;
      if after > before {
        AddFactoryVotes(after - before, -1);
      }
      assert votes == own + FactoryVotes(old(generated), |votes| - |own|, -1);
      assert votes[..|own|] == own;
      VoteIndexAppend(own, votes[|own|..], Account(user));
    }

    /**
     * Makes the user's vote -1 (creating it if needed), then adds +1 votes by made-up voters so
     * that the helpfulness is the same as before.
     */
    method AlreadyDownvoted(user: UserId)
      requires Valid()
      modifies this
      ensures Valid()
      ensures Helpfulness() == old(Helpfulness())
      ensures var own := WithVote(old(votes), Account(user), -1);
        |own| <= |votes| && votes[..|own|] == own &&
        votes[|own|..] == FactoryVotes(old(generated), |votes| - |own|, 1)
      ensures generated == old(generated) + (|votes| - |WithVote(old(votes), Account(user), -1)|)
      ensures VoteIndex(votes, Account(user)).Some? &&
        votes[VoteIndex(votes, Account(user)).value] == Vote(Account(user), -1)
      ensures OwnScore(old(votes), Account(user)) == -1 ==> votes == old(votes)
    {
      var before := Helpfulness();
      DownvoteLowers(votes, Account(user));
      WithVoteSum(votes, Account(user), -1);
      WithVoteOwnScore(votes, Account(user), -1);
      SetOwnVote(user, -1);
      var own := votes;
      var after := Helpfulness();
      assert after <= before;
      if after < before {
        AddFactoryVotes(before - after, 1);
      }
      assert votes == own + FactoryVotes(old(generated), |votes| - |own|, 1);
      assert votes[..|own|] == own;
      VoteIndexAppend(own, votes[|own|..], Account(user));
    }
  }

  // ---- a course's reviews ----

  class CourseReviews {
    var reviews: seq<Review>

    /** Each row of the course's reviews is a review of its own. */
    ghost predicate Distinct()
      reads this
    {
      forall i, j :: 0 <= i < j < |reviews| ==> reviews[i] != reviews[j]
    }

    constructor ()
      ensures reviews == [] && Distinct()
    {
      reviews := [];
    }

    /**
     * Brings the number of reviews to `n`: missing reviews are created at the end, surplus ones
     * are destroyed from the front.
     */
    method HasReviews(n: nat)
      requires Distinct()
      modifies this
      ensures Distinct() && |reviews| == n
      ensures |old(reviews)| <= n ==> reviews[..|old(reviews)|] == old(reviews)
      ensures |old(reviews)| <= n ==> forall i :: |old(reviews)| <= i < n ==>
        fresh(reviews[i]) && reviews[i].Valid() && reviews[i].votes == []
      ensures |old(reviews)| >= n ==> reviews == old(reviews)[|old(reviews)| - n..]
    {
      var diff := |reviews| - n;
      if diff < 0 {
        var k := 0;
        while k < -diff
          invariant 0 <= k <= -diff
          invariant |reviews| == |old(reviews)| + k
          invariant reviews[..|old(reviews)|] == old(reviews)
          invariant forall i :: |old(reviews)| <= i < |reviews| ==>
            fresh(reviews[i]) && reviews[i].Valid() && reviews[i].votes == []
          invariant Distinct()
        {
          var r := new Review();
          reviews := reviews + [r];
          k := k + 1;
        }
      } else if diff > 0 {
        var k := 0;
        while k < diff
          invariant 0 <= k <= diff
          invariant reviews == old(reviews)[k..]
          invariant Distinct()
        {
          reviews := reviews[1..];
          k := k + 1;
        }
      }
    }

    /** Replaces all reviews by one new review whose helpfulness is `h`, made of `h` upvotes. */
    method HasReviewWithHelpfulness(h: nat) returns (review: Review)
      modifies this
      ensures fresh(review) && reviews == [review] && Distinct()
      ensures review.Valid() && review.votes == FactoryVotes(0, h, 1) && review.generated == h
      ensures review.Helpfulness() == h
    {
      reviews := [];
      review := new Review();
      review.AddFactoryVotes(h, 1);
      reviews := [review];
    }
  }

  // ---- displayed order ----

  /** True when every displayed helpfulness is at least the next one. */
  function OrderedByHelpfulness(shown: seq<int>): (ok: bool)
    ensures ok <==> forall i :: 0 <= i < |shown| - 1 ==> shown[i] >= shown[i + 1]
  {
    if |shown| < 2 then true
    else
      var rest := OrderedByHelpfulness(shown[1..]);
      assert forall i :: 1 <= i < |shown| ==> shown[i] == shown[1..][i - 1];
      shown[0] >= shown[1] && rest
  }

  /** The adjacent check accepts exactly the lists sorted by non-increasing helpfulness. */
  lemma {:induction false} OrderedIsSorted(shown: seq<int>)
    ensures OrderedByHelpfulness(shown) <==> forall i, j :: 0 <= i <= j < |shown| ==> shown[i] >= shown[j]
    decreases |shown|
  {
    if |shown| >= 2 {
      OrderedIsSorted(shown[1..]);
      assert forall i :: 1 <= i < |shown| ==> shown[i] == shown[1..][i - 1];
    }
  }

  // ---- a scenario ----

  /**
   * A course with one review of helpfulness `h`, which the user has already upvoted and then
   * downvoted: the review still shows helpfulness `h`.
   */
  method VotedReviewKeepsHelpfulness(h: nat, user: UserId) returns (shown: int)
    ensures shown == h
  {
    var course := new CourseReviews();
    var review := course.HasReviewWithHelpfulness(h);
    review.AlreadyUpvoted(user);
    review.AlreadyDownvoted(user);
    shown := review.Helpfulness();
  }
}
