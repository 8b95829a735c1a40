/**
 What the rating services keep of reviews over all runs: a booking is reviewed once, whichever of its
 vehicles the review is about; a review's like count is the number of users who like it; and an answer
 that was given stays.
 */
module ReviewRules {
  import opened Wrappers
  import opened Calendar
  import opened Runs
  import opened Reviews
  import opened Cancellations
  import opened Reputation

  // ---------------------------------------------------------------------------
  // One review a booking
  // ---------------------------------------------------------------------------

  predicate IsReviewed(t: Table, booking: BookingId) {
    exists id <- t :: t[id].booking == booking
  }

  /** Every review is by a passenger of a vehicle, and no booking has two. */
  predicate OncePerBooking(t: Table) {
    && (forall id <- t :: t[id].role == PassengerRole && t[id].target == VehicleTarget)
    && forall a, b | a in t && b in t && a != b :: t[a].booking != t[b].booking
  }

  /** What submitReview asks besides that nobody reviewed before. */
  predicate MayReview(f: Submission, now: Time) {
    Refusal(map[], f, now).None?
  }

  lemma RefusedIff(t: Table, f: Submission, now: Time)
    requires OncePerBooking(t)
    ensures Refusal(t, f, now).None? <==> MayReview(f, now) && !IsReviewed(t, f.booking)
  {
    assert !Reviewed(map[], f.booking, f.role, f.target);
  }

  lemma SubmitKeepsOnce(s: State, f: Submission, now: Time, deleteOk: bool)
    requires ValidReviews(s) && OncePerBooking(s.reviews)
    ensures OncePerBooking(AfterSubmit(s, f, now, deleteOk).reviews)
  {
    RefusedIff(s.reviews, f, now);
  }

  /** Both tables hold the same reviews, each of the same booking, role and target. */
  predicate SameSubjects(t: Table, u: Table) {
    && t.Keys == u.Keys
    && forall id <- t :: t[id].booking == u[id].booking && t[id].role == u[id].role && t[id].target == u[id].target
  }

  lemma RevealKeepsSubjects(s: State, now: Time)
    ensures SameSubjects(s.reviews, AfterReveal(s, now).reviews)
  {
  }

  lemma OtherStepsKeepSubjects(s: State, e: Step)
    requires ValidReviews(s) && !e.event.Submit?
    ensures SameSubjects(s.reviews, Apply(s, e).reviews)
  {
    match e.event
    case RevealDue => RevealKeepsSubjects(s, e.at);
    case _ =>
  }

  lemma SameSubjectsKeepOnce(t: Table, u: Table)
    requires OncePerBooking(t) && SameSubjects(t, u)
    ensures OncePerBooking(u)
  {
  }

  /** In every run from an empty table a booking is reviewed at most once. */
  lemma {:induction false} OneReviewPerBooking(ws: seq<State>, es: seq<Step>, n: nat)
    requires IsRun(ws, es) && ws[0].reviews == map[] && n <= |es|
    ensures OncePerBooking(ws[n].reviews)
  {
    if n > 0 {
      OneReviewPerBooking(ws, es, n - 1);
      RunGrows(ws, es, 0, n - 1);
      NextKeepsOnce(ws, es, n - 1);
    }
  }

  lemma NextKeepsOnce(ws: seq<State>, es: seq<Step>, k: nat)
    requires IsRun(ws, es) && k < |es| && ValidReviews(ws[k]) && OncePerBooking(ws[k].reviews)
    ensures OncePerBooking(ws[k + 1].reviews)
  {
    if es[k].event.Submit? {
      SubmitKeepsOnce(ws[k], es[k].event.form, es[k].at, es[k].event.deleteOk);
    } else {
      OtherStepsKeepSubjects(ws[k], es[k]);
      SameSubjectsKeepOnce(ws[k].reviews, ws[k + 1].reviews);
    }
  }

  /**
   In every run from an empty table a submission that meets the other conditions is accepted exactly
   when its booking has no review yet, of any of its vehicles.
   */
  lemma ReviewAcceptedIff(ws: seq<State>, es: seq<Step>, n: nat, f: Submission, now: Time)
    requires IsRun(ws, es) && ws[0].reviews == map[] && n <= |es|
    ensures Refusal(ws[n].reviews, f, now).None? <==> MayReview(f, now) && !IsReviewed(ws[n].reviews, f.booking)
  {
    OneReviewPerBooking(ws, es, n);
    RefusedIff(ws[n].reviews, f, now);
  }

  lemma {:induction false} CompletedAtIsLatest(vs: seq<BookedVehicle>, otherwise: Time)
    ensures
      var c := CompletedAt(vs, otherwise);
      if forall v <- vs :: v.completedAt.None? || v.completedAt.value <= 0 then c == otherwise
      else
        && (exists v <- vs :: v.completedAt == Some(c))
        && forall v <- vs :: v.completedAt.Some? ==> v.completedAt.value <= c
  {
    if vs != [] {
      CompletedAtIsLatest(vs[1..], otherwise);
      assert forall v <- vs :: v == vs[0] || v in vs[1..];
      assert vs[0] in vs && forall v <- vs[1..] :: v in vs;
    }
  }

  /** Some vehicle was completed in the last seven days or, if none ever was, the trip started then. */
  predicate InTime(f: Submission, now: Time)
    requires f.found.Some?
  {
    if exists v <- f.vehicles :: v.completedAt.Some? && v.completedAt.value > 0
    then exists v <- f.vehicles ::
           v.completedAt.Some? && v.completedAt.value > 0 && now <= v.completedAt.value + 7 * DAY_MS
    else now <= f.found.value.tripStart + 7 * DAY_MS
  }

  /** Those conditions: the passenger of a completed booking, on a vehicle of it, in time. */
  lemma MayReviewIff(f: Submission, now: Time)
    ensures MayReview(f, now) <==>
            && f.found.Some? && f.found.value.status == "COMPLETED" && f.found.value.passenger == f.reviewer
            && f.role == PassengerRole && f.target == VehicleTarget
            && (exists v <- f.vehicles :: v.vehicle == f.reviewee) && InTime(f, now)
  {
    assert !Reviewed(map[], f.booking, f.role, f.target);
    if f.found.Some? {
      CompletedAtIsLatest(f.vehicles, f.found.value.tripStart);
    }
  }

  /** A passenger's review of one of the vehicles 9 and 10 of a booking, its trip just completed. */
  function ReviewOf(vehicle: UserId): Submission {
    FirstReview().(reviewee := vehicle, vehicles := [
      BookedVehicle(9, 3, Some(TEN_MINUTES)), BookedVehicle(10, 4, Some(TEN_MINUTES))])
  }

  /** Of a booking's two vehicles the passenger may review either, and then not the other. */
  lemma SecondVehicleIsRefused() returns (ws: seq<State>, es: seq<Step>)
    ensures IsRun(ws, es) && ws[0] == State(map[], 0, {}, [], map[], map[]) && |es| == 1
    ensures es[0] == Timed(TEN_MINUTES, Submit(ReviewOf(9), true))
    ensures MayReview(ReviewOf(10), TEN_MINUTES)
    ensures Refusal(ws[1].reviews, ReviewOf(10), TEN_MINUTES) == Some(Duplicate)
  {
    var empty := State(map[], 0, {}, [], map[], map[]);
    es := [Timed(TEN_MINUTES, Submit(ReviewOf(9), true))];
    ws := [empty, Apply(empty, es[0])];
    assert ReviewOf(9).vehicles[0] in ReviewOf(9).vehicles && ReviewOf(10).vehicles[1] in ReviewOf(10).vehicles;
    assert ws[1].reviews[0].booking == 1;
  }

  // ---------------------------------------------------------------------------
  // One like a user
  // ---------------------------------------------------------------------------

  function LikersOf(s: State, id: ReviewId): set<UserId> {
    set l <- s.likes | l.0 == id :: l.1
  }

  ghost predicate LikesCounted(s: State) {
    && (forall l <- s.likes :: l.0 in s.reviews)
    && (forall id <- s.reviews :: s.reviews[id].likes == |LikersOf(s, id)|)
  }

  lemma LikersAfter(s: State, id: ReviewId, user: UserId, i: ReviewId)
    requires LikeRefusal(s, id, user).None?
    ensures LikersOf(AfterLike(s, id, user), i) == LikersOf(s, i) + if i == id then {user} else {}
    ensures user !in LikersOf(s, id)
  {
    forall u ensures u in LikersOf(AfterLike(s, id, user), i) <==> u in LikersOf(s, i) || (i == id && u == user) {
      assert u in LikersOf(AfterLike(s, id, user), i) <==> (i, u) in AfterLike(s, id, user).likes;
      assert u in LikersOf(s, i) <==> (i, u) in s.likes;
    }
  }

  lemma LikeKeepsCounts(s: State, id: ReviewId, user: UserId)
    requires LikesCounted(s)
    ensures LikesCounted(AfterLike(s, id, user))
  {
    if LikeRefusal(s, id, user).None? {
      forall i <- s.reviews ensures AfterLike(s, id, user).reviews[i].likes == |LikersOf(AfterLike(s, id, user), i)| {
        LikersAfter(s, id, user, i);
      }
    }
  }

  /** Every review keeps its count, and a new one starts at nothing. */
  predicate SameCounts(t: Table, u: Table) {
    && (forall id <- t :: id in u && u[id].likes == t[id].likes)
    && (forall id <- u :: id !in t ==> u[id].likes == 0)
  }

  lemma SubmitKeepsCounts(s: State, f: Submission, now: Time, deleteOk: bool)
    requires ValidReviews(s)
    ensures SameCounts(s.reviews, AfterSubmit(s, f, now, deleteOk).reviews)
  {
  }

  lemma RevealKeepsCounts(s: State, now: Time)
    ensures SameCounts(s.reviews, AfterReveal(s, now).reviews)
  {
  }

  lemma OtherStepsKeepCounts(s: State, e: Step)
    requires ValidReviews(s) && !e.event.Like?
    ensures Apply(s, e).likes == s.likes && SameCounts(s.reviews, Apply(s, e).reviews)
  {
    match e.event
    case Submit(f, deleteOk) => SubmitKeepsCounts(s, f, e.at, deleteOk);
    case RevealDue => RevealKeepsCounts(s, e.at);
    case _ =>
  }

  lemma SameCountsAreCounted(s: State, after: State)
    requires LikesCounted(s) && after.likes == s.likes && SameCounts(s.reviews, after.reviews)
    ensures LikesCounted(after)
  {
    forall id <- after.reviews ensures after.reviews[id].likes == |LikersOf(after, id)| {
      assert LikersOf(after, id) == LikersOf(s, id);
      if id !in s.reviews {
        assert LikersOf(s, id) == {};
      }
    }
  }

  lemma NextKeepsCounts(ws: seq<State>, es: seq<Step>, k: nat)
    requires IsRun(ws, es) && k < |es| && ValidReviews(ws[k]) && LikesCounted(ws[k])
    ensures LikesCounted(ws[k + 1])
  {
    if es[k].event.Like? {
      LikeKeepsCounts(ws[k], es[k].event.review, es[k].event.user);
    } else {
      OtherStepsKeepCounts(ws[k], es[k]);
      SameCountsAreCounted(ws[k], ws[k + 1]);
    }
  }

  /** In every run that starts without reviews and likes, a review's count is the number of users who like it. */
  lemma {:induction false} LikesAreUsers(ws: seq<State>, es: seq<Step>, n: nat)
    requires IsRun(ws, es) && ws[0].reviews == map[] && ws[0].likes == {} && n <= |es|
    ensures LikesCounted(ws[n])
  {
    if n > 0 {
      LikesAreUsers(ws, es, n - 1);
      RunGrows(ws, es, 0, n - 1);
      NextKeepsCounts(ws, es, n - 1);
    }
  }

  // ---------------------------------------------------------------------------
  // One answer a review
  // ---------------------------------------------------------------------------

  predicate Answered(t: Table, id: ReviewId, text: string) {
    id in t && t[id].response == Some(text) && text != ""
  }

  lemma StepKeepsAnswers(s: State, e: Step, id: ReviewId, text: string)
    requires ValidReviews(s) && Answered(s.reviews, id, text)
    ensures Answered(Apply(s, e).reviews, id, text)
  {
  }

  /** Once a review has an answer, no step of any run changes it. */
  lemma {:induction false} AnswersStay(ws: seq<State>, es: seq<Step>, m: nat, n: nat, id: ReviewId, text: string)
    requires IsRun(ws, es) && m <= n <= |es| && Answered(ws[m].reviews, id, text)
    ensures Answered(ws[n].reviews, id, text)
  {
    if n > m {
      AnswersStay(ws, es, m, n - 1, id, text);
      RunGrows(ws, es, 0, n - 1);
      StepKeepsAnswers(ws[n - 1], es[n - 1], id, text);
    }
  }

  // ---------------------------------------------------------------------------
  // The table holds the accepted submissions
  // ---------------------------------------------------------------------------

  /** The review says what was submitted, and was revealed at once. */
  predicate Tells(r: Review, f: Submission, now: Time) {
    && r.booking == f.booking && r.reviewer == f.reviewer && r.reviewee == f.reviewee
    && r.role == f.role && r.target == f.target
    && r.rating == f.rating && r.isLiked == f.liked && r.text == f.text && r.at == f.stamp
    && r.revealedAt == Some(now) && r.expiresAt == now + 7 * DAY_MS
  }

  /** Step m is the accepted submission that makes this review. */
  predicate Makes(s: State, e: Step, id: ReviewId, r: Review) {
    && e.event.Submit? && Refusal(s.reviews, e.event.form, e.at).None?
    && id == s.nextReview && Tells(r, e.event.form, e.at)
  }

  /** What was submitted of a review never changes. */
  predicate SameWords(r: Review, u: Review) {
    && u.booking == r.booking && u.reviewer == r.reviewer && u.reviewee == r.reviewee
    && u.role == r.role && u.target == r.target
    && u.rating == r.rating && u.isLiked == r.isLiked && u.text == r.text && u.at == r.at && u.expiresAt == r.expiresAt
    && (r.revealedAt.Some? ==> u.revealedAt == r.revealedAt)
  }

  lemma RevealKeepsWords(s: State, now: Time, id: ReviewId)
    requires id in s.reviews
    ensures id in AfterReveal(s, now).reviews && SameWords(s.reviews[id], AfterReveal(s, now).reviews[id])
  {
  }

  lemma SubmitKeepsWords(s: State, f: Submission, now: Time, deleteOk: bool, id: ReviewId)
    requires ValidReviews(s) && id in s.reviews
    ensures
      var after := AfterSubmit(s, f, now, deleteOk).reviews;
      id in after && SameWords(s.reviews[id], after[id])
  {
  }

  lemma StepKeepsWords(s: State, e: Step, id: ReviewId)
    requires ValidReviews(s) && id in s.reviews
    ensures id in Apply(s, e).reviews && SameWords(s.reviews[id], Apply(s, e).reviews[id])
  {
    match e.event
    case Submit(f, deleteOk) => SubmitKeepsWords(s, f, e.at, deleteOk, id);
    case RevealDue => RevealKeepsWords(s, e.at, id);
    case _ =>
  }

  lemma NewIsSubmitted(s: State, e: Step, id: ReviewId)
    requires ValidReviews(s) && id in Apply(s, e).reviews && id !in s.reviews
    ensures Makes(s, e, id, Apply(s, e).reviews[id])
  {
  }

  /** Every review of every run from an empty table is as one accepted submission made it. */
  lemma {:induction false} ReviewsWereSubmitted(ws: seq<State>, es: seq<Step>, n: nat, id: ReviewId)
    requires IsRun(ws, es) && ws[0].reviews == map[] && n <= |es| && id in ws[n].reviews
    ensures exists m :: 0 <= m < n && Makes(ws[m], es[m], id, ws[n].reviews[id])
  {
    if n > 0 {
      RunGrows(ws, es, 0, n - 1);
      if id in ws[n - 1].reviews {
        ReviewsWereSubmitted(ws, es, n - 1, id);
        StepKeepsWords(ws[n - 1], es[n - 1], id);
        var m :| 0 <= m < n - 1 && Makes(ws[m], es[m], id, ws[n - 1].reviews[id]);
        assert Makes(ws[m], es[m], id, ws[n].reviews[id]);
      } else {
        NewIsSubmitted(ws[n - 1], es[n - 1], id);
      }
    }
  }

  lemma AcceptedIsNew(s: State, e: Step)
    requires e.event.Submit? && Refusal(s.reviews, e.event.form, e.at).None?
    ensures s.nextReview in Apply(s, e).reviews && Makes(s, e, s.nextReview, Apply(s, e).reviews[s.nextReview])
  {
  }

  /** And every accepted submission stays in the table. */
  lemma {:induction false} SubmissionsStay(ws: seq<State>, es: seq<Step>, m: nat, n: nat)
    requires IsRun(ws, es) && m < n <= |es|
    requires es[m].event.Submit? && Refusal(ws[m].reviews, es[m].event.form, es[m].at).None?
    ensures
      var id := ws[m].nextReview;
      id in ws[n].reviews && Makes(ws[m], es[m], id, ws[n].reviews[id])
  {
    if n == m + 1 {
      AcceptedIsNew(ws[m], es[m]);
    } else {
      SubmissionsStay(ws, es, m, n - 1);
      RunGrows(ws, es, 0, n - 1);
      StepKeepsWords(ws[n - 1], es[n - 1], ws[m].nextReview);
    }
  }
}
