/** Reviews embedded in listings: `addReview` and `getReviews`
    (app.js:581-641). */
module Reviews {
  import opened Seqs
  import opened Text
  import opened Model

  /** The sum of the ratings, folded from the left starting at 0. */
  function SumRatings(rs: seq<Review>): int
    decreases |rs|
  {
    if |rs| == 0 then 0 else SumRatings(rs[..|rs| - 1]) + rs[|rs| - 1].rating
  }

  /** The mean rating, 0 when there are no reviews. */
  function MeanRating(rs: seq<Review>): real {
    if |rs| == 0 then 0.0 else SumRatings(rs) as real / |rs| as real
  }

  /** The derived fields of a listing agree with its reviews. */
  ghost predicate RatingsConsistent(l: Listing) {
    l.reviewCount == |l.reviews| && l.rating == MeanRating(l.reviews)
  }

  /** At most one review per author. */
  ghost predicate OneReviewPerUser(l: Listing) {
    forall a, b :: 0 <= a < b < |l.reviews| ==> l.reviews[a].userId != l.reviews[b].userId
  }

  /** `userId` already reviewed this listing. */
  ghost predicate HasReviewed(l: Listing, userId: Str) {
    exists k :: 0 <= k < |l.reviews| && l.reviews[k].userId == userId
  }

  /** `addReview`: needs a session, a rating in [1, 5], a comment of at least
      ten code units, a stored listing and no earlier review by the same user
      on it, checked in that order. Success appends a review snapshot of the
      session user and recomputes the mean rating and the count. */
  function AddReview(st: State, listingId: Str, rating: int, comment: Str, env: Env): (r: Step<()>)
    ensures r.out.Fail? ==> r.state == st
    ensures r.out == Fail(NotLoggedIn) <==> st.session.None?
    ensures r.out == Fail(RatingOutOfRange) <==> st.session.Some? && !(1 <= rating <= 5)
    ensures r.out == Fail(CommentTooShort) <==>
      st.session.Some? && 1 <= rating <= 5 && |comment| < 10
    ensures r.out == Fail(ListingNotFound) <==>
      st.session.Some? && 1 <= rating <= 5 && |comment| >= 10 && !HasListing(st.listings, listingId)
    ensures var i := ListingIndex(st.listings, listingId);
      r.out == Fail(AlreadyReviewed) <==>
        st.session.Some? && 1 <= rating <= 5 && |comment| >= 10 && i >= 0
        && HasReviewed(st.listings[i], st.session.value.id)
    ensures var i := ListingIndex(st.listings, listingId);
      r.out.Ok? <==>
        st.session.Some? && 1 <= rating <= 5 && |comment| >= 10 && i >= 0
        && !HasReviewed(st.listings[i], st.session.value.id)
    ensures var i := ListingIndex(st.listings, listingId);
      r.out.Ok? ==>
        && st.session.Some? && 0 <= i < |st.listings|
        && |r.state.listings| == |st.listings|
        && var l := st.listings[i];
           var l' := r.state.listings[i];
           var who := st.session.value;
           && !HasReviewed(l, who.id)
           && |l'.reviews| == |l.reviews| + 1
           && l'.reviews[..|l.reviews|] == l.reviews
           && l'.reviews[|l.reviews|] == Review(env.newId, who.id, who.name, who.avatar, rating,
                                                env.sanitize(comment), env.now)
           && l'.reviewCount == |l'.reviews|
           && l'.rating == MeanRating(l'.reviews)
           && l' == l.(reviews := l'.reviews, rating := l'.rating, reviewCount := l'.reviewCount)
           && r.state.listings == st.listings[i := l']
    ensures r.state.users == st.users && r.state.session == st.session && r.state.stored == st.stored
  {
    if st.session.None? then Step(st, Fail(NotLoggedIn))
    else if rating < 1 || rating > 5 then Step(st, Fail(RatingOutOfRange))
    else if |comment| < 10 then Step(st, Fail(CommentTooShort))
    else
      var who := st.session.value;
      var i := ListingIndex(st.listings, listingId);
      if i == -1 then Step(st, Fail(ListingNotFound))
      else
        var l := st.listings[i];
        if FindIndex(l.reviews, (rv: Review) => rv.userId == who.id) != -1 then
          Step(st, Fail(AlreadyReviewed))
        else
          var review := Review(env.newId, who.id, who.name, who.avatar, rating,
                               env.sanitize(comment), env.now);
          var rs := l.reviews + [review];
          assert rs[..|l.reviews|] == l.reviews;
          var l' := l.(reviews := rs, rating := MeanRating(rs), reviewCount := |rs|);
          Step(st.(listings := st.listings[i := l']), Ok(()))
  }

  /** `getReviews`: the reviews of the first listing with the id, in
      insertion order, or none. */
  function GetReviews(st: State, listingId: Str): (r: seq<Review>)
    ensures !HasListing(st.listings, listingId) ==> r == []
    ensures HasListing(st.listings, listingId) ==>
      r == st.listings[ListingIndex(st.listings, listingId)].reviews
  {
    var i := ListingIndex(st.listings, listingId);
    if i == -1 then [] else st.listings[i].reviews
  }

  // -----------------------------------------------------------------------
  // Properties
  // -----------------------------------------------------------------------

  lemma SumAppend(rs: seq<Review>, rv: Review)
    ensures SumRatings(rs + [rv]) == SumRatings(rs) + rv.rating
  {
    assert (rs + [rv])[..|rs|] == rs;
  }

  /** The reviewed listing's derived fields agree with its reviews after a
      successful review, whatever they held before. */
  lemma AddReviewMakesConsistent(st: State, listingId: Str, rating: int, comment: Str, env: Env)
    requires AddReview(st, listingId, rating, comment, env).out.Ok?
    ensures var r := AddReview(st, listingId, rating, comment, env);
            RatingsConsistent(r.state.listings[ListingIndex(st.listings, listingId)])
  {
  }

  /** The mean of `n` values averaging `mean` and one more value `x`. */
  function NextMean(mean: real, n: nat, x: int): real {
    (mean * (n as real) + x as real) / ((n + 1) as real)
  }

  /** The mean is maintained incrementally: with consistent fields before,
      the new rating is (old mean * old count + new rating) / new count. */
  lemma RunningMean(st: State, listingId: Str, rating: int, comment: Str, env: Env)
    requires AddReview(st, listingId, rating, comment, env).out.Ok?
    requires RatingsConsistent(st.listings[ListingIndex(st.listings, listingId)])
    ensures var i := ListingIndex(st.listings, listingId);
            var l := st.listings[i];
            var l' := AddReview(st, listingId, rating, comment, env).state.listings[i];
            && l'.reviewCount == l.reviewCount + 1
            && l'.rating == NextMean(l.rating, l.reviewCount, rating)
  {
    var i := ListingIndex(st.listings, listingId);
    var l := st.listings[i];
    var l' := AddReview(st, listingId, rating, comment, env).state.listings[i];
    var n := |l.reviews|;
    var rv := l'.reviews[n];
    assert l'.reviews == l.reviews + [rv];
    AppendedMean(l, l', rv, rating);
  }

  /** One review appended to a listing whose derived fields agree with its
      reviews, `rv` of the given rating: the count grows by one and the new
      mean is the running mean. */
  lemma AppendedMean(l: Listing, l': Listing, rv: Review, rating: int)
    requires RatingsConsistent(l)
    requires l'.reviews == l.reviews + [rv] && rv.rating == rating
    requires RatingsConsistent(l')
    ensures l'.reviewCount == l.reviewCount + 1
    ensures l'.rating == NextMean(l.rating, l.reviewCount, rating)
  {
    var n := |l.reviews|;
    var sum := SumRatings(l.reviews);
    assert SumRatings(l'.reviews) == sum + rv.rating by {
      SumAppend(l.reviews, rv);
    }
    assert l.rating * (n as real) == sum as real by {
      MeanTimesCount(l.reviews);
    }
    assert l'.rating * ((n + 1) as real) == (sum + rv.rating) as real by {
      MeanTimesCount(l'.reviews);
    }
    MeanStep(l.rating, n, sum, rv.rating, l'.rating);
  }

  /** The mean times the count is the sum, also for no reviews. */
  lemma MeanTimesCount(rs: seq<Review>)
    ensures MeanRating(rs) * (|rs| as real) == SumRatings(rs) as real
  {
  }

  /** The arithmetic of one running-mean step. */
  lemma MeanStep(mean: real, n: nat, sum: int, x: int, mean': real)
    requires mean * (n as real) == sum as real
    requires mean' * ((n + 1) as real) == (sum + x) as real
    ensures mean' == NextMean(mean, n, x)
  {
    calc {
      (mean * (n as real) + x as real) / ((n + 1) as real);
      (sum + x) as real / ((n + 1) as real);
      mean' * ((n + 1) as real) / ((n + 1) as real);
      mean';
    }
  }

  /** A review keeps the one-review-per-author rule. */
  lemma AddReviewKeepsOnePerUser(st: State, listingId: Str, rating: int, comment: Str, env: Env)
    requires forall k :: 0 <= k < |st.listings| ==> OneReviewPerUser(st.listings[k])
    ensures var r := AddReview(st, listingId, rating, comment, env);
            forall k :: 0 <= k < |r.state.listings| ==> OneReviewPerUser(r.state.listings[k])
  {
    var r := AddReview(st, listingId, rating, comment, env);
    if r.out.Ok? {
      var i := ListingIndex(st.listings, listingId);
      var l := st.listings[i];
      var l' := r.state.listings[i];
      var n := |l.reviews|;
      forall a, b | 0 <= a < b < |l'.reviews| ensures l'.reviews[a].userId != l'.reviews[b].userId {
        assert l'.reviews[a] == l.reviews[a];
        if b < n {
          assert l'.reviews[b] == l.reviews[b];
        } else {
          assert l'.reviews[b].userId == st.session.value.id;
        }
      }
    }
  }

  /** The same user reviewing the same listing again is refused with
      "already reviewed" and changes nothing, so the count stays put. */
  lemma SecondReviewRefused(st: State, listingId: Str, rating: int, comment: Str, env: Env,
                            rating2: int, comment2: Str, env2: Env)
    requires AddReview(st, listingId, rating, comment, env).out.Ok?
    requires 1 <= rating2 <= 5 && |comment2| >= 10
    ensures var s1 := AddReview(st, listingId, rating, comment, env).state;
            var r2 := AddReview(s1, listingId, rating2, comment2, env2);
            r2.out == Fail(AlreadyReviewed) && r2.state == s1
  {
    var s1 := AddReview(st, listingId, rating, comment, env).state;
    var i := ListingIndex(st.listings, listingId);
    assert ListingIndex(s1.listings, listingId) == i by {
      assert forall k :: 0 <= k < |s1.listings| ==> s1.listings[k].id == st.listings[k].id;
    }
    var n := |st.listings[i].reviews|;
    assert s1.listings[i].reviews[n].userId == st.session.value.id;
  }

  /** After a review, `getReviews` lists the old reviews followed by the new
      one. */
  lemma AddReviewThenGetReviews(st: State, listingId: Str, rating: int, comment: Str, env: Env)
    requires AddReview(st, listingId, rating, comment, env).out.Ok?
    ensures var s1 := AddReview(st, listingId, rating, comment, env).state;
            var who := st.session.value;
            GetReviews(s1, listingId) == GetReviews(st, listingId)
              + [Review(env.newId, who.id, who.name, who.avatar, rating, env.sanitize(comment), env.now)]
  {
    var s1 := AddReview(st, listingId, rating, comment, env).state;
    var i := ListingIndex(st.listings, listingId);
    assert ListingIndex(s1.listings, listingId) == i by {
      assert forall k :: 0 <= k < |s1.listings| ==> s1.listings[k].id == st.listings[k].id;
    }
    var rs := s1.listings[i].reviews;
    var n := |st.listings[i].reviews|;
    assert rs == rs[..n] + [rs[n]];
  }

  /** A review leaves every listing id where it was. */
  lemma AddReviewKeepsIndex(st: State, listingId: Str, rating: int, comment: Str, env: Env, id: Str)
    ensures ListingIndex(AddReview(st, listingId, rating, comment, env).state.listings, id)
            == ListingIndex(st.listings, id)
  {
    var s1 := AddReview(st, listingId, rating, comment, env).state;
    assert |s1.listings| == |st.listings|;
    assert forall k :: 0 <= k < |s1.listings| ==> s1.listings[k].id == st.listings[k].id;
  }

  /** Three users rating a listing with no reviews 4, 5 and 3 leave it with
      three reviews and a mean of 4. */
  lemma FourFiveThree(st: State, listingId: Str, comment: Str, a: SessionUser, b: SessionUser,
                      c: SessionUser, env: Env)
    requires |comment| >= 10
    requires a.id != b.id && a.id != c.id && b.id != c.id
    requires HasListing(st.listings, listingId)
    requires st.listings[ListingIndex(st.listings, listingId)].reviews == []
    ensures var r1 := AddReview(st.(session := Some(a)), listingId, 4, comment, env);
            var r2 := AddReview(r1.state.(session := Some(b)), listingId, 5, comment, env);
            var r3 := AddReview(r2.state.(session := Some(c)), listingId, 3, comment, env);
            var l := r3.state.listings[ListingIndex(st.listings, listingId)];
            && r1.out.Ok? && r2.out.Ok? && r3.out.Ok?
            && l.reviewCount == 3 && l.rating == 4.0
  {
    var i := ListingIndex(st.listings, listingId);
    ReviewStep(st, listingId, 4, comment, env, a);
    var s1 := AddReview(st.(session := Some(a)), listingId, 4, comment, env).state;
    TwoMore(s1, listingId, comment, b, c, env);
  }

  /** The second and third reviews of the scenario above, by `b` rating 5
      and then `c` rating 3, on a listing whose one review rates 4. */
  lemma TwoMore(s1: State, listingId: Str, comment: Str, b: SessionUser, c: SessionUser, env: Env)
    requires |comment| >= 10 && b.id != c.id
    requires HasListing(s1.listings, listingId)
    requires var l := s1.listings[ListingIndex(s1.listings, listingId)];
             && |l.reviews| == 1 && l.reviews[0].rating == 4
             && l.reviews[0].userId != b.id && l.reviews[0].userId != c.id
    ensures var r2 := AddReview(s1.(session := Some(b)), listingId, 5, comment, env);
            var r3 := AddReview(r2.state.(session := Some(c)), listingId, 3, comment, env);
            var l := r3.state.listings[ListingIndex(s1.listings, listingId)];
            && r2.out.Ok? && r3.out.Ok?
            && l.reviewCount == 3 && l.rating == 4.0
  {
    var i := ListingIndex(s1.listings, listingId);
    ReviewStep(s1, listingId, 5, comment, env, b);
    var s2 := AddReview(s1.(session := Some(b)), listingId, 5, comment, env).state;
    var rs := s2.listings[i].reviews;
    assert rs[0] == rs[..1][0];
    OneMore(s2, listingId, comment, c, env);
  }

  /** The third review of the scenario above, by `c` rating 3, on a listing
      whose two reviews rate 4 and 5. */
  lemma OneMore(s2: State, listingId: Str, comment: Str, c: SessionUser, env: Env)
    requires |comment| >= 10
    requires HasListing(s2.listings, listingId)
    requires var l := s2.listings[ListingIndex(s2.listings, listingId)];
             && |l.reviews| == 2 && l.reviews[0].rating == 4 && l.reviews[1].rating == 5
             && l.reviews[0].userId != c.id && l.reviews[1].userId != c.id
    ensures var r3 := AddReview(s2.(session := Some(c)), listingId, 3, comment, env);
            var l := r3.state.listings[ListingIndex(s2.listings, listingId)];
            && r3.out.Ok? && l.reviewCount == 3 && l.rating == 4.0
  {
    var i := ListingIndex(s2.listings, listingId);
    ReviewStep(s2, listingId, 3, comment, env, c);
    var s3 := AddReview(s2.(session := Some(c)), listingId, 3, comment, env).state;
    ThreeReviewsMean(s2.listings[i], s3.listings[i]);
  }

  /** Ratings 4 and 5 followed by a 3 average to 4. */
  lemma ThreeReviewsMean(l2: Listing, l3: Listing)
    requires |l2.reviews| == 2 && l2.reviews[0].rating == 4 && l2.reviews[1].rating == 5
    requires |l3.reviews| == 3 && l3.reviews[..2] == l2.reviews && l3.reviews[2].rating == 3
    requires l3.rating == MeanRating(l3.reviews)
    ensures l3.rating == 4.0
  {
    var rs := l3.reviews;
    var rv1, rv2, rv3 := rs[0], rs[1], rs[2];
    assert rs[0] == rs[..2][0] == l2.reviews[0];
    assert rs[1] == rs[..2][1] == l2.reviews[1];
    assert rs == [rv1, rv2, rv3];
    SumAppend([], rv1);
    SumAppend([rv1], rv2);
    SumAppend([rv1, rv2], rv3);
    assert [] + [rv1] == [rv1] && [rv1] + [rv2] == [rv1, rv2] && [rv1, rv2] + [rv3] == rs;
    assert SumRatings(rs) == 12;
  }

  /** One successful review by `u`, who has not reviewed the listing yet:
      the listing keeps its index and gains the review at its end. */
  lemma ReviewStep(st: State, listingId: Str, rating: int, comment: Str, env: Env, u: SessionUser)
    requires 1 <= rating <= 5 && |comment| >= 10
    requires HasListing(st.listings, listingId)
    requires !HasReviewed(st.listings[ListingIndex(st.listings, listingId)], u.id)
    ensures var r := AddReview(st.(session := Some(u)), listingId, rating, comment, env);
            var i := ListingIndex(st.listings, listingId);
            var n := |st.listings[i].reviews|;
            && r.out.Ok?
            && ListingIndex(r.state.listings, listingId) == i
            && HasListing(r.state.listings, listingId)
            && |r.state.listings[i].reviews| == n + 1
            && r.state.listings[i].reviews[..n] == st.listings[i].reviews
            && r.state.listings[i].reviews[n].userId == u.id
            && r.state.listings[i].reviews[n].rating == rating
            && r.state.listings[i].rating == MeanRating(r.state.listings[i].reviews)
            && r.state.listings[i].reviewCount == n + 1
  {
    AddReviewKeepsIndex(st.(session := Some(u)), listingId, rating, comment, env, listingId);
  }
}
